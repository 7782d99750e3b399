/**
 * The text codings of parameters: C-style escapes and quoting, and URL encoding. PHP's own string
 * functions that they rest on are written out here.
 */
module ParamText {
  import opened Bytes
  import opened HexNumbers

  const QUOTE: byte := 34
  const BACKSLASH: byte := 92

  // ---- addcslashes(s, "\0..\37\173\\\"") and stripcslashes

  /** The letter that stands for a control character after a backslash, if there is one. */
  function ControlLetter(c: byte): (l: Option<byte>)
    ensures l.Some? ==> l.value in [97, 98, 116, 110, 118, 102, 114] && LetterControl(l.value) == Some(c)
  {
    match c
    case 7 => Some(97)
    case 8 => Some(98)
    case 9 => Some(116)
    case 10 => Some(110)
    case 11 => Some(118)
    case 12 => Some(102)
    case 13 => Some(114)
    case _ => None
  }

  function LetterControl(l: byte): Option<byte> {
    match l
    case 97 => Some(7)
    case 98 => Some(8)
    case 116 => Some(9)
    case 110 => Some(10)
    case 118 => Some(11)
    case 102 => Some(12)
    case 114 => Some(13)
    case _ => None
  }

  function Octal(c: byte): bytes {
    [48 + c / 64, 48 + c / 8 % 8, 48 + c % 8]
  }

  function EscapeByte(c: byte): (e: bytes)
    ensures e != [] && (|e| == 1 <==> e == [c])
  {
    if c < 32 then
      if ControlLetter(c).Some? then [BACKSLASH, ControlLetter(c).value] else [BACKSLASH] + Octal(c)
    else if c == 123 || c == BACKSLASH || c == QUOTE then [BACKSLASH, c]
    else [c]
  }

  function Escape(t: bytes): (e: bytes)
    ensures |e| >= |t|
    ensures |e| == |t| ==> e == t
  {
    if t == [] then [] else EscapeByte(t[0]) + Escape(t[1..])
  }

  predicate IsOctal(b: byte) { 48 <= b <= 55 }

  /** Number of octal digits, at most three, at the front. */
  function OctalRun(s: bytes): (n: nat)
    ensures n <= 3 && n <= |s|
    ensures forall i :: 0 <= i < n ==> IsOctal(s[i])
  {
    if |s| == 0 || !IsOctal(s[0]) then 0
    else if |s| == 1 || !IsOctal(s[1]) then 1
    else if |s| == 2 || !IsOctal(s[2]) then 2 else 3
  }

  function OctalValue(s: bytes): int
    requires forall i :: 0 <= i < |s| ==> IsOctal(s[i])
  {
    if s == [] then 0 else 8 * OctalValue(s[..|s| - 1]) + (s[|s| - 1] as int - 48)
  }

  /** What the text behind a backslash stands for, and how much of it is used. */
  function Escaped(s: bytes): (r: (byte, nat))
    requires s != []
    ensures 0 < r.1 <= |s|
  {
    if LetterControl(s[0]).Some? then (LetterControl(s[0]).value, 1)
    else if s[0] == 120 && |s| > 1 && IsHexDigit(s[1]) then
      if |s| > 2 && IsHexDigit(s[2])
      then ((16 * HexDigitValue(s[1]) + HexDigitValue(s[2])) as byte, 3)
      else (HexDigitValue(s[1]) as byte, 2)
    else if OctalRun(s) > 0 then ((OctalValue(s[..OctalRun(s)]) % 256) as byte, OctalRun(s))
    else (s[0], 1)
  }

  function Unescape(s: bytes): bytes {
    if |s| <= 1 then s
    else if s[0] == BACKSLASH then
      var (c, n) := Escaped(s[1..]);
      [c] + Unescape(s[1 + n..])
    else [s[0]] + Unescape(s[1..])
  }

  lemma OctalValueOfThree(a: byte, b: byte, c: byte)
    requires IsOctal(a) && IsOctal(b) && IsOctal(c)
    ensures OctalValue([a, b, c]) == 64 * (a as int - 48) + 8 * (b as int - 48) + (c as int - 48)
  {
    var o := [a, b, c];
    assert o[..2] == [a, b] && [a, b][..1] == [a] && [a][..0] == [];
    assert OctalValue([]) == 0;
    assert OctalValue([a]) == a as int - 48;
    assert OctalValue([a, b]) == 8 * (a as int - 48) + (b as int - 48);
  }

  lemma OctalReads(c: byte, z: bytes)
    ensures OctalRun(Octal(c) + z) == 3 && (Octal(c) + z)[..3] == Octal(c)
    ensures OctalValue(Octal(c)) == c as int
  {
    var o := Octal(c);
    OctalValueOfThree(o[0], o[1], o[2]);
    assert o == [o[0], o[1], o[2]];
  }

  /** An escaped byte reads back as itself, whatever follows. */
  lemma EscapedByteReads(c: byte, z: bytes)
    requires c < 32 || c == 123 || c == BACKSLASH || c == QUOTE
    ensures var e := EscapeByte(c);
      |e| > 1 && e[0] == BACKSLASH && Escaped(e[1..] + z) == (c, |e| - 1)
  {
    var e := EscapeByte(c);
    if c < 32 && ControlLetter(c).None? {
      OctalReads(c, z);
      assert e[1..] == Octal(c);
    } else {
      assert (e[1..] + z)[0] == e[1];
    }
  }

  /** Stripping undoes escaping on every text. */
  lemma {:induction false} UnescapeEscape(t: bytes)
    ensures Unescape(Escape(t)) == t
  {
    hide EscapeByte, Escaped;
    if t != [] {
      UnescapeEscape(t[1..]);
      var c, e, z := t[0], EscapeByte(t[0]), Escape(t[1..]);
      if |e| == 1 {
        assert (e + z)[1..] == z;
        assert z == [] ==> t[1..] == [];
        PlainByteIsNotBackslash(c);
      } else {
        OnlySpecialIsEscaped(c);
        EscapedByteReads(c, z);
        assert (e + z)[1..] == e[1..] + z && (e + z)[|e|..] == z;
      }
    }
  }

  lemma PlainByteIsNotBackslash(c: byte)
    requires |EscapeByte(c)| == 1
    ensures c != BACKSLASH && c != QUOTE && c >= 32
  {}

  lemma OnlySpecialIsEscaped(c: byte)
    requires |EscapeByte(c)| > 1
    ensures c < 32 || c == 123 || c == BACKSLASH || c == QUOTE
  {}

  // ---- quoting

  /** The bytes "()<>@,;:\"[]?={} " that force quotes. */
  predicate IsTspecial(b: byte) {
    b in [40, 41, 60, 62, 64, 44, 59, 58, 34, 91, 93, 63, 61, 123, 125, 32]
  }

  predicate NeedsQuotes(t: bytes) {
    |Escape(t)| != |t| || exists i :: 0 <= i < |t| && IsTspecial(t[i])
  }

  function Quote(t: bytes, force: bool): bytes {
    if force || NeedsQuotes(t) then [QUOTE] + Escape(t) + [QUOTE] else t
  }

  /** The reverse: enclosing quotes are dropped, then escapes are stripped. */
  function SanitizeEscaped(s: bytes): bytes {
    if |s| >= 2 && s[0] == QUOTE && s[|s| - 1] == QUOTE then Unescape(s[1..|s| - 1]) else Unescape(s)
  }

  /** PHP `trim`: SP, LF, CR, TAB, VT and NUL. */
  predicate IsTrimmed(b: byte) { b == 32 || b == 10 || b == 13 || b == 9 || b == 11 || b == 0 }

  function TrimBy(s: bytes, drop: byte -> bool): (r: bytes)
    ensures |r| <= |s|
    decreases |s|
  {
    if s == [] then []
    else if drop(s[0]) then TrimBy(s[1..], drop)
    else if drop(s[|s| - 1]) then TrimBy(s[..|s| - 1], drop)
    else s
  }

  function Trim(s: bytes): bytes { TrimBy(s, IsTrimmed) }

  lemma UnescapedIsPlain(t: bytes)
    requires |Escape(t)| == |t|
    ensures forall i :: 0 <= i < |t| ==> t[i] >= 32 && t[i] != BACKSLASH && t[i] != QUOTE
    ensures Unescape(t) == t
  {
    UnescapeEscape(t);
    PlainBytes(t);
  }

  lemma {:induction false} PlainBytes(t: bytes)
    requires |Escape(t)| == |t|
    ensures forall i :: 0 <= i < |t| ==> t[i] >= 32 && t[i] != BACKSLASH && t[i] != QUOTE
  {
    if t != [] {
      PlainBytes(t[1..]);
      PlainByteIsNotBackslash(t[0]);
      assert forall i :: 1 <= i < |t| ==> t[i] == t[1..][i - 1];
    }
  }

  /** Quoted text survives trimming and unquoting, for every text. */
  lemma SanitizeQuoted(t: bytes, force: bool)
    ensures Trim(Quote(t, force)) == Quote(t, force)
    ensures SanitizeEscaped(Quote(t, force)) == t
  {
    hide Escape, Unescape;
    var q := Quote(t, force);
    if force || NeedsQuotes(t) {
      assert q[1..|q| - 1] == Escape(t);
      UnescapeEscape(t);
    } else {
      UnescapedIsPlain(t);
      if t != [] {
        assert !IsTspecial(t[0]) && !IsTspecial(t[|t| - 1]);
      }
    }
  }

  // ---- rawurlencode and urldecode

  predicate IsUnreserved(b: byte) {
    IsDigit(b) || IsAlpha(b) || b == 45 || b == 46 || b == 95 || b == 126
  }

  function UpperHexDigit(v: nat): (b: byte)
    requires v < 16
    ensures IsHexDigit(b) && HexDigitValue(b) == v
  {
    if v < 10 then (48 + v) as byte else (55 + v) as byte
  }

  function UrlEncode(t: bytes): bytes {
    if t == [] then []
    else
      var c := t[0];
      (if IsUnreserved(c) then [c]
       else [37, UpperHexDigit(c as int / 16), UpperHexDigit(c as int % 16)]) + UrlEncode(t[1..])
  }

  function UrlDecode(s: bytes): bytes {
    if s == [] then []
    else if s[0] == 43 then [SP] + UrlDecode(s[1..])
    else if s[0] == 37 && |s| > 2 && IsHexDigit(s[1]) && IsHexDigit(s[2]) then
      [(16 * HexDigitValue(s[1]) + HexDigitValue(s[2])) as byte] + UrlDecode(s[3..])
    else [s[0]] + UrlDecode(s[1..])
  }

  predicate UrlByte(b: byte) { IsUnreserved(b) || b == 37 }

  lemma {:induction false} UrlDecodeEncode(t: bytes)
    ensures UrlDecode(UrlEncode(t)) == t
    ensures t != [] ==> UrlEncode(t) != []
    ensures forall i :: 0 <= i < |UrlEncode(t)| ==> UrlByte(UrlEncode(t)[i])
  {
    if t != [] {
      UrlDecodeEncode(t[1..]);
      var c, z, u := t[0], UrlEncode(t[1..]), UrlEncode(t);
      if IsUnreserved(c) {
        assert u[1..] == z;
      } else {
        assert u[3..] == z;
      }
    }
  }

  lemma UrlTextIsNotTrimmed(s: bytes)
    requires forall i :: 0 <= i < |s| ==> UrlByte(s[i])
    ensures Trim(s) == s
  {}

  /** URL encoding in any form: bytes as they are, a plus for a space, two hex digits in either case. */
  ghost predicate EncodesUrl(x: bytes, t: bytes)
    decreases |t|
  {
    if t == [] then x == []
    else
      || (x != [] && x[0] == t[0] && x[0] != 37 && x[0] != 43 && EncodesUrl(x[1..], t[1..]))
      || (x != [] && x[0] == 43 && t[0] == SP && EncodesUrl(x[1..], t[1..]))
      || (|x| > 2 && x[0] == 37 && IsHexDigit(x[1]) && IsHexDigit(x[2])
          && 16 * HexDigitValue(x[1]) + HexDigitValue(x[2]) == t[0] as int && EncodesUrl(x[3..], t[1..]))
  }

  lemma {:induction false} UrlDecodesAnyForm(x: bytes, t: bytes)
    requires EncodesUrl(x, t)
    ensures UrlDecode(x) == t
    decreases |t|
  {
    hide HexDigitValue;
    if t != [] {
      if x[0] == 37 { UrlDecodesAnyForm(x[3..], t[1..]); } else { UrlDecodesAnyForm(x[1..], t[1..]); }
    }
  }

  // ---- escapes in any form

  /** Behind a backslash, `x` and two hex digits are one byte. */
  lemma TwoHexDigitsRead(a: byte, b: byte, z: bytes)
    requires IsHexDigit(a) && IsHexDigit(b)
    ensures Unescape([BACKSLASH, 120, a, b] + z) == [(16 * HexDigitValue(a) + HexDigitValue(b)) as byte] + Unescape(z)
  {
    hide HexDigitValue, OctalValue, OctalRun;
    var s := [BACKSLASH, 120, a, b] + z;
    assert s[1..] == [120, a, b] + z && s[4..] == z;
  }

  /** So are `x` and one hex digit that no other follows. */
  lemma OneHexDigitReads(a: byte, z: bytes)
    requires IsHexDigit(a) && (z != [] ==> !IsHexDigit(z[0]))
    ensures Unescape([BACKSLASH, 120, a] + z) == [HexDigitValue(a) as byte] + Unescape(z)
  {
    hide HexDigitValue, OctalValue, OctalRun;
    var s := [BACKSLASH, 120, a] + z;
    assert s[1..] == [120, a] + z && s[3..] == z;
  }

  /** A byte that means nothing behind a backslash is itself. */
  lemma OtherByteReads(c: byte, z: bytes)
    requires c != 120 && !IsOctal(c) && LetterControl(c).None?
    ensures Unescape([BACKSLASH, c] + z) == [c] + Unescape(z)
  {
    hide HexDigitValue, OctalValue;
    var s := [BACKSLASH, c] + z;
    assert s[1..] == [c] + z && s[2..] == z;
  }

  // ---- which texts are quoted

  const SPECIALS := Lit("()<>@,;:\\\"[]?={} ")

  lemma SpecialsAre(b: byte)
    ensures b in SPECIALS <==> IsTspecial(b) || b == BACKSLASH
  {
    assert SPECIALS == [40, 41, 60, 62, 64, 44, 59, 58, 92, 34, 91, 93, 63, 61, 123, 125, 32];
  }

  lemma {:induction false} GrowsIff(t: bytes)
    ensures |Escape(t)| > |t| <==> exists i :: 0 <= i < |t| && (t[i] < 32 || t[i] == 123 || t[i] == BACKSLASH || t[i] == QUOTE)
  {
    hide EscapeByte;
    if t != [] {
      GrowsIff(t[1..]);
      if |EscapeByte(t[0])| == 1 { PlainByteIsNotBackslash(t[0]); BraceGrows(t[0]); } else { OnlySpecialIsEscaped(t[0]); }
      assert forall i :: 1 <= i < |t| ==> t[i] == t[1..][i - 1];
      if exists i :: 0 <= i < |t| - 1 && (t[1..][i] < 32 || t[1..][i] == 123 || t[1..][i] == BACKSLASH || t[1..][i] == QUOTE) {
        var i :| 0 <= i < |t| - 1 && (t[1..][i] < 32 || t[1..][i] == 123 || t[1..][i] == BACKSLASH || t[1..][i] == QUOTE);
        assert t[i + 1] == t[1..][i];
      }
    }
  }

  lemma BraceGrows(c: byte) requires |EscapeByte(c)| == 1 ensures c != 123 {}

  /** A text is printed as it is if and only if it holds no control character and none of the special ones. */
  lemma PrintedAsItIsIff(t: bytes)
    ensures Quote(t, false) == t <==> forall i :: 0 <= i < |t| ==> t[i] >= 32 && t[i] !in SPECIALS
  {
    hide Escape, IsTspecial;
    GrowsIff(t);
    forall i | 0 <= i < |t| ensures t[i] in SPECIALS <==> IsTspecial(t[i]) || t[i] == BACKSLASH { SpecialsAre(t[i]); }
    forall i | 0 <= i < |t| && (t[i] == 123 || t[i] == QUOTE) ensures IsTspecial(t[i]) { BracesAreSpecial(t[i]); }
    assert |Quote(t, true)| > |t|;
  }

  lemma BracesAreSpecial(b: byte) requires b == 123 || b == QUOTE ensures IsTspecial(b) {}
}
