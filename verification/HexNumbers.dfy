/** Hexadecimal numerals: C `strtoul` with base 16 and `printf` with "%lx". */
module HexNumbers {
  import opened Bytes

  /** `unsigned long` and `size_t` have 64 bits. */
  const ULONG_MAX: nat := 0xFFFF_FFFF_FFFF_FFFF

  predicate IsHexDigit(b: byte) { IsDigit(b) || 65 <= b <= 70 || 97 <= b <= 102 }

  function HexDigitValue(b: byte): (v: nat)
    requires IsHexDigit(b)
    ensures v < 16
  {
    if IsDigit(b) then b as int - 48 else if b <= 70 then b as int - 55 else b as int - 87
  }

  function HexDigit(v: nat): (b: byte)
    requires v < 16
    ensures IsHexDigit(b) && HexDigitValue(b) == v
    ensures b == 48 <==> v == 0
  {
    if v < 10 then (48 + v) as byte else (87 + v) as byte
  }

  predicate AllHex(s: bytes) { forall i :: 0 <= i < |s| ==> IsHexDigit(s[i]) }

  function HexValue(s: bytes): nat
    requires AllHex(s)
  {
    if s == [] then 0 else 16 * HexValue(s[..|s| - 1]) + HexDigitValue(s[|s| - 1])
  }

  /** End of the run of hex digits that starts at `k`. */
  function HexRunEnd(s: bytes, k: nat): (e: nat)
    requires k <= |s|
    ensures k <= e <= |s|
    ensures forall i :: k <= i < e ==> IsHexDigit(s[i])
    ensures e < |s| ==> !IsHexDigit(s[e])
    decreases |s| - k
  {
    if k == |s| || !IsHexDigit(s[k]) then k else HexRunEnd(s, k + 1)
  }

  datatype Number = Number(value: nat, stop: nat)

  /** Where the digits start: after white space, one sign, and "0x" if a digit follows it. */
  function SignEnd(s: bytes): (j: nat)
    ensures SpaceRun(s) <= j <= SpaceRun(s) + 1 && j <= |s|
  {
    var i := SpaceRun(s);
    if i < |s| && (s[i] == 43 || s[i] == 45) then i + 1 else i
  }

  function DigitsStart(s: bytes): (k: nat)
    ensures SignEnd(s) <= k <= |s|
  {
    var j := SignEnd(s);
    if j + 2 < |s| && s[j] == 48 && (s[j + 1] == 120 || s[j + 1] == 88) && IsHexDigit(s[j + 2])
    then j + 2 else j
  }

  /**
   * `strtoul(s, &stop, 16)` where the end of `s` is a NUL. `stop` is 0 when no digit is read.
   * A value past ULONG_MAX saturates, a minus sign negates modulo 2^64.
   */
  function Strtoul(s: bytes): (r: Number)
    ensures r.stop <= |s| && r.value <= ULONG_MAX
    ensures r.stop == 0 ==> r.value == 0
  {
    var k := DigitsStart(s);
    var e := HexRunEnd(s, k);
    if k == e then Number(0, 0)
    else
      var v := HexValue(s[k..e]);
      if v > ULONG_MAX then Number(ULONG_MAX, e)
      else if s[SpaceRun(s)] == 45 && v > 0 then Number(ULONG_MAX + 1 - v, e)
      else Number(v, e)
  }

  lemma DigitsStartReadsOneLine(s: bytes, y: bytes)
    requires FirstEol(s) < |s| && !Blank(s[..FirstEol(s)])
    ensures SpaceRun(s + y) == SpaceRun(s) && DigitsStart(s + y) == DigitsStart(s) <= FirstEol(s)
  {
    hide FirstEol, SpaceRun;
    var p, t := FirstEol(s), s + y;
    assert forall i :: 0 <= i < |s| ==> t[i] == s[i];
    var i :| 0 <= i < p && !IsSpace(s[..p][i]);
    assert s[..p][i] == s[i];
  }

  /** A line that is not all white space fixes the number: what follows its end does not matter. */
  lemma StrtoulReadsOneLine(s: bytes, y: bytes)
    requires FirstEol(s) < |s| && !Blank(s[..FirstEol(s)])
    ensures Strtoul(s + y) == Strtoul(s)
  {
    hide FirstEol, SpaceRun, DigitsStart, HexValue, SignEnd;
    var p, t := FirstEol(s), s + y;
    DigitsStartReadsOneLine(s, y);
    var k := DigitsStart(s);
    var e := HexRunEnd(s, k);
    assert e <= p by {
      assert !IsHexDigit(s[p]);
    }
    assert forall i :: 0 <= i < |s| ==> t[i] == s[i];
    assert HexRunEnd(t, k) == e;
    assert t[k..e] == s[k..e];
  }

  /** `%lx`: lower-case digits without leading zeros. */
  function Hex(n: nat): (s: bytes)
    ensures s != [] && AllHex(s)
    ensures s[0] == 48 <==> n == 0
    ensures n == 0 ==> s == [48]
  {
    if n < 16 then [HexDigit(n)] else Hex(n / 16) + [HexDigit(n % 16)]
  }

  lemma {:induction false} HexValueOfHex(n: nat)
    ensures HexValue(Hex(n)) == n
  {
    var s := Hex(n);
    if n < 16 {
      assert s[..0] == [];
    } else {
      HexValueOfHex(n / 16);
      assert s[..|s| - 1] == Hex(n / 16);
    }
  }

  /** What ends a numeral: anything that is no hex digit, nor an "x" that could make it a prefix. */
  predicate EndsDigits(y: bytes) { y != [] ==> !IsHexDigit(y[0]) && y[0] != 120 && y[0] != 88 }

  lemma DigitsAreFirst(d: bytes, y: bytes)
    requires d != [] && AllHex(d) && EndsDigits(y)
    ensures SpaceRun(d + y) == 0 && DigitsStart(d + y) == 0
  {
    var t := d + y;
    assert t[0] == d[0] && IsHexDigit(t[0]);
    assert SpaceRun(t) == 0 && SignEnd(t) == 0;
    if 2 < |t| { assert t[1] == if |d| > 1 then d[1] else y[0]; }
  }

  /** Digits in either case, with any zeros in front, are read as their value, whatever ends them. */
  lemma StrtoulOfDigits(d: bytes, y: bytes)
    requires d != [] && AllHex(d) && HexValue(d) <= ULONG_MAX && EndsDigits(y)
    ensures Strtoul(d + y) == Number(HexValue(d), |d|)
  {
    hide SpaceRun, SignEnd, DigitsStart, HexRunEnd, HexValue;
    var t := d + y;
    DigitsAreFirst(d, y);
    assert t[0] == d[0] && IsHexDigit(t[0]);
    assert forall i :: 0 <= i < |d| ==> t[i] == d[i];
    assert y != [] ==> t[|d|] == y[0];
    assert HexRunEnd(t, 0) == |d|;
    assert t[0..|d|] == d;
  }

  ghost predicate IsSign(g: bytes) { g == [] || g == [43] || g == [45] }
  ghost predicate IsPrefix(p: bytes) { p == [] || p == [48, 120] || p == [48, 88] }

  lemma SignReads(w: bytes, g: bytes, u: bytes)
    requires Blank(w) && IsSign(g) && u != [] && IsHexDigit(u[0])
    ensures var t := w + (g + u);
      SpaceRun(t) == |w| && SignEnd(t) == |w| + |g| && (t[|w|] == 45 <==> g == [45]) && t[|w| + |g|..] == u
  {
    hide SpaceRun;
    var t, v := w + (g + u), g + u;
    assert v[0] == if g == [] then u[0] else g[0];
    assert forall i :: 0 <= i < |w| ==> t[i] == w[i];
    assert t[|w|] == v[0];
    assert SpaceRun(t) == |w|;
  }

  lemma PrefixReads(t: bytes, p: bytes, d: bytes, y: bytes)
    requires SignEnd(t) <= |t| && t[SignEnd(t)..] == p + (d + y)
    requires IsPrefix(p) && d != [] && AllHex(d) && EndsDigits(y)
    ensures DigitsStart(t) == SignEnd(t) + |p| && t[SignEnd(t) + |p|..] == d + y
  {
    hide SignEnd;
    var j, x, u := SignEnd(t), d + y, p + (d + y);
    Peel(t, j, p, x);
    assert x[0] == d[0] && IsHexDigit(d[0]);
    assert |x| > 1 ==> x[1] == if |d| > 1 then d[1] else y[0];
    assert forall i :: 0 <= i < |u| ==> t[j + i] == t[j..][i];
    if p == [] { assert u == x; } else { assert u[0] == p[0] && u[1] == p[1] && u[2] == x[0]; }
  }

  lemma DigitsRead(t: bytes, k: nat, d: bytes, y: bytes)
    requires k <= |t| && t[k..] == d + y && AllHex(d) && EndsDigits(y)
    ensures k + |d| <= |t| && HexRunEnd(t, k) == k + |d| && t[k..k + |d|] == d
  {
    assert forall i :: 0 <= i < |d| ==> t[k + i] == t[k..][i] == d[i];
    assert y != [] ==> t[k + |d|] == t[k..][|d|] == y[0];
  }

  lemma StrtoulReads(t: bytes, k: nat, d: bytes)
    requires DigitsStart(t) == k && k + |d| <= |t| && SpaceRun(t) < |t| && d != []
    requires HexRunEnd(t, k) == k + |d| && t[k..k + |d|] == d && AllHex(d)
    ensures var n := HexValue(d);
      Strtoul(t) == Number(if n > ULONG_MAX then ULONG_MAX else if t[SpaceRun(t)] == 45 && n > 0 then ULONG_MAX + 1 - n else n,
                           k + |d|)
  {
    hide SpaceRun, DigitsStart, HexRunEnd, HexValue;
  }

  function NumberText(w: bytes, g: bytes, p: bytes, d: bytes, y: bytes): bytes { w + (g + (p + (d + y))) }

  lemma NumberParts(w: bytes, g: bytes, p: bytes, d: bytes, y: bytes)
    requires Blank(w) && IsSign(g) && IsPrefix(p) && d != [] && AllHex(d) && EndsDigits(y)
    ensures var t := NumberText(w, g, p, d, y);
      SpaceRun(t) == |w| < |t| && DigitsStart(t) == |w| + |g| + |p| <= |t| && t[DigitsStart(t)..] == d + y
      && (t[|w|] == 45 <==> g == [45])
  {
    hide SpaceRun, SignEnd, DigitsStart, IsSign;
    var u := p + (d + y);
    assert u[0] == if p == [] then d[0] else p[0];
    assert IsHexDigit(d[0]) && IsHexDigit(48);
    SignReads(w, g, u);
    PrefixReads(w + (g + u), p, d, y);
  }

  /**
   * White space, a sign and 0x may stand in front; a minus sign negates modulo 2^64, and a number past
   * the greatest one reads as that.
   */
  lemma StrtoulOfSpelling(w: bytes, g: bytes, p: bytes, d: bytes, y: bytes)
    requires Blank(w) && IsSign(g) && IsPrefix(p) && d != [] && AllHex(d) && EndsDigits(y)
    ensures var n := HexValue(d);
      Strtoul(NumberText(w, g, p, d, y))
      == Number(if n > ULONG_MAX then ULONG_MAX else if g == [45] && n > 0 then ULONG_MAX + 1 - n else n,
                |w| + |g| + |p| + |d|)
  {
    hide SpaceRun, DigitsStart, HexRunEnd, HexValue, Strtoul, IsSign, IsPrefix, NumberText;
    var t := NumberText(w, g, p, d, y);
    NumberParts(w, g, p, d, y);
    DigitsRead(t, |w| + |g| + |p|, d, y);
    StrtoulReads(t, |w| + |g| + |p|, d);
  }

  /** Reading back a printed number stops exactly behind it, whatever line end follows. */
  lemma StrtoulOfHex(n: nat, y: bytes)
    requires n <= ULONG_MAX
    requires y != [] ==> IsEolByte(y[0])
    ensures Strtoul(Hex(n) + y) == Number(n, |Hex(n)|)
  {
    hide Hex, Strtoul;
    HexValueOfHex(n);
    StrtoulOfDigits(Hex(n), y);
  }
}
