/** The Content-Range header, as its reader takes the length of a body from it. */
module RangeHeader {
  import opened Bytes
  import opened Decimals
  import opened HexNumbers

  function DigitsEnd(s: bytes, k: nat): (e: nat)
    requires k <= |s|
    ensures k <= e <= |s|
    ensures forall i :: k <= i < e ==> IsDigit(s[i])
    ensures e < |s| ==> !IsDigit(s[e])
    decreases |s| - k
  {
    if k == |s| || !IsDigit(s[k]) then k else DigitsEnd(s, k + 1)
  }

  /** `strtoul(s, &stop, 10)`, like its hexadecimal sibling. */
  function Strtoul10(s: bytes): (r: Number)
    ensures r.stop <= |s| && r.value <= ULONG_MAX
  {
    var k := SignEnd(s);
    var e := DigitsEnd(s, k);
    if k == e then Number(0, 0)
    else
      var v := Decimal(s[k..e]);
      if v > ULONG_MAX then Number(ULONG_MAX, e)
      else if s[SpaceRun(s)] == 45 && v > 0 then Number(ULONG_MAX + 1 - v, e)
      else Number(v, e)
  }

  /** What follows `n` bytes; nothing where that is behind the text. */
  function Behind(s: bytes, n: nat): bytes { if n <= |s| then s[n..] else [] }

  /** "bytes" in any case and one of ":", " " and "=". */
  predicate NamesBytes(t: bytes) {
    |t| > 5 && ToLower(t[0]) == 98 && ToLower(t[1]) == 121 && ToLower(t[2]) == 116 && ToLower(t[3]) == 101
    && ToLower(t[4]) == 115 && (t[5] == 58 || t[5] == 32 || t[5] == 61)
  }

  /** First and last position and the total, which "*" leaves open; the length is an unsigned long. */
  function RangeLength(t: bytes): Option<nat> {
    if !NamesBytes(t) then None
    else
      var a := t[6..];
      var first := Strtoul10(a);
      var b := Behind(a, first.stop + 1);
      var last := Strtoul10(b);
      var c := Behind(b, last.stop + 1);
      var total := if c != [] && c[0] == 42 then 0 else Strtoul10(c).value;
      if last.value >= first.value && (total == 0 || last.value <= total)
      then Some((last.value + 1 - first.value) % (ULONG_MAX + 1)) else None
  }

  lemma Strtoul10OfNumeral(n: nat, y: bytes)
    requires n <= ULONG_MAX && (y != [] ==> !IsDigit(y[0]))
    ensures Strtoul10(Numeral(n) + y) == Number(n, |Numeral(n)|)
  {
    hide Numeral, Decimal;
    var d := Numeral(n);
    var t := d + y;
    assert t[0] == d[0] && IsDigit(t[0]);
    assert SpaceRun(t) == 0 && SignEnd(t) == 0;
    assert forall i :: 0 <= i < |d| ==> t[i] == d[i];
    assert y != [] ==> t[|d|] == y[0];
    assert DigitsEnd(t, 0) == |d|;
    assert t[0..|d|] == d;
    DecimalOfNumeral(n);
  }

  lemma BehindOne(s: bytes, c: byte, y: bytes)
    ensures Behind(s + ([c] + y), |s| + 1) == y
  {
    assert (s + ([c] + y))[|s| + 1..] == y;
  }

  /** The text behind the name of a printed Content-Range. */
  function RangeText(first: nat, last: nat, total: nat): bytes {
    Lit("bytes ") + (Numeral(first) + ([45] + (Numeral(last) + ([47] + Numeral(total)))))
  }

  /** The total of a range: a number, or an asterisk where it is not known. */
  function TotalText(total: Option<nat>): bytes { if total.Some? then Numeral(total.value) else [42] }

  /** A range as it may be spelled: the unit in any case, one of three bytes behind it. */
  function SpelledRange(unit: bytes, first: nat, last: nat, total: Option<nat>): bytes {
    unit + (Numeral(first) + ([45] + (Numeral(last) + ([47] + TotalText(total)))))
  }

  predicate UnitOk(unit: bytes) {
    |unit| == 6 && (forall i :: 0 <= i < 5 ==> ToLower(unit[i]) == Lit("bytes")[i]) && unit[5] in Lit(": =")
  }

  /**
   * The length that a range states: that of its positions if they are in order and the last one does
   * not exceed a total that is known and not 0; otherwise it states none.
   */
  lemma RangeLengthIs(unit: bytes, first: nat, last: nat, total: Option<nat>)
    requires UnitOk(unit) && first <= ULONG_MAX && last <= ULONG_MAX && (total.Some? ==> total.value <= ULONG_MAX)
    requires last + 1 - first <= ULONG_MAX
    ensures RangeLength(SpelledRange(unit, first, last, total))
      == if first <= last && (total.Some? && total.value > 0 ==> last <= total.value) then Some(last + 1 - first) else None
  {
    hide Numeral, Strtoul10, Behind, NamesBytes;
    var t := SpelledRange(unit, first, last, total);
    var c := TotalText(total);
    var b := Numeral(last) + ([47] + c);
    var a := Numeral(first) + ([45] + b);
    assert NamesBytes(t) && t[6..] == a by { UnitNames(unit, a); }
    assert Strtoul10(a) == Number(first, |Numeral(first)|) by { Strtoul10OfNumeral(first, [45] + b); }
    BehindOne(Numeral(first), 45, b);
    assert Strtoul10(b) == Number(last, |Numeral(last)|) by { Strtoul10OfNumeral(last, [47] + c); }
    BehindOne(Numeral(last), 47, c);
    if total.Some? {
      assert Strtoul10(c) == Number(total.value, |c|) by {
        Strtoul10OfNumeral(total.value, []);
        assert c + [] == c;
      }
      assert c != [] && IsDigit(c[0]);
    }
  }

  lemma UnitNames(unit: bytes, a: bytes)
    requires UnitOk(unit)
    ensures NamesBytes(unit + a) && (unit + a)[6..] == a
  {
    assert forall i :: 0 <= i < 6 ==> (unit + a)[i] == unit[i];
    assert Lit("bytes") == [98, 121, 116, 101, 115] && Lit(": =") == [58, 32, 61];
  }

  /** A printed range states its own length. */
  lemma RangeLengthOfText(first: nat, last: nat, total: nat)
    requires first <= last < total <= ULONG_MAX
    ensures RangeLength(RangeText(first, last, total)) == Some(last + 1 - first)
  {
    hide Numeral, RangeLength, NamesBytes;
    BytesIsUnit();
    RangeLengthIs(Lit("bytes "), first, last, Some(total));
  }

  lemma BytesIsUnit()
    ensures UnitOk(Lit("bytes "))
  {
    var p := Lit("bytes ");
    assert Lit(": =")[1] == 32;
    assert p[0] == 98 && p[1] == 121 && p[2] == 116 && p[3] == 101 && p[4] == 115 && p[5] == 32;
  }
}
