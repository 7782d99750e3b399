/** The search that tells letters from other code points, over a table of ranges and one of single characters. */
module CodePoints {

  /** An end of zero closes nothing: only its start orders the entry. */
  datatype Range = Range(start: nat, end: nat)

  predicate In(u: Range, ch: nat) { u.start <= ch <= u.end }

  function Last(u: Range): nat { if u.end == 0 then u.start else u.end }

  ghost predicate SortedRanges(t: seq<Range>) {
    && (forall i :: 0 <= i < |t| ==> t[i].start <= Last(t[i]))
    && forall i, j :: 0 <= i < j < |t| ==> Last(t[i]) < t[j].start
  }

  ghost predicate SortedChars(t: seq<nat>) { forall i, j :: 0 <= i < j < |t| ==> t[i] < t[j] }

  /** Which entries of `n` ranges the search can look at. */
  ghost predicate RangeProbed(n: nat, i: nat) { if n <= 2 then i == 0 else 0 < i < n - 1 }

  /** Which entries of `n` characters the search can look at. */
  ghost predicate CharProbed(n: nat, i: nat) { if n == 1 then i == 0 else 0 < i < n }

  ghost predicate FoundInRanges(t: seq<Range>, ch: nat) {
    exists i :: 0 <= i < |t| && In(t[i], ch) && RangeProbed(|t|, i)
  }

  ghost predicate FoundInChars(t: seq<nat>, ch: nat) {
    exists i :: 0 <= i < |t| && t[i] == ch && CharProbed(|t|, i)
  }

  /** Membership, entry by entry. */
  ghost predicate Listed(ranges: seq<Range>, chars: seq<nat>, ch: nat) {
    (exists i :: 0 <= i < |ranges| && In(ranges[i], ch)) || ch in chars
  }

  method SearchRanges(t: seq<Range>, ch: nat) returns (found: bool)
    requires t != [] && SortedRanges(t)
    ensures found <==> FoundInRanges(t, ch)
  {
    var hi, lo := |t| - 1, 0;
    var cur := hi / 2;
    var again := true;
    while again
      invariant lo <= cur <= hi < |t|
      invariant lo == 0 || Last(t[lo]) < ch
      invariant hi == |t| - 1 || ch < t[hi].start
      invariant again ==> (lo < cur < hi) || (|t| <= 2 && lo == cur == 0 && hi == |t| - 1)
      invariant !again ==> !FoundInRanges(t, ch)
      decreases again, hi - lo
    {
      var u := t[cur];
      if u.start <= ch && u.end >= ch {
        return true;
      }
      var prev := cur;
      if u.start > ch {
        hi := cur;
        cur := cur - (cur - lo) / 2;
      } else if (u.end != 0 && u.end < ch) || (u.end == 0 && u.start < ch) {
        lo := cur;
        cur := cur + (hi - cur) / 2;
      } else {
        return false;
      }
      again := cur != prev;
    }
    return false;
  }

  method SearchChars(t: seq<nat>, ch: nat) returns (found: bool)
    requires t != [] && SortedChars(t)
    ensures found <==> FoundInChars(t, ch)
  {
    var hi, lo := |t|, 0;
    var cur := hi / 2;
    var again := true;
    while again
      invariant lo <= cur <= hi <= |t| && cur < |t|
      invariant lo == 0 || t[lo] < ch
      invariant hi == |t| || ch < t[hi]
      invariant again ==> (lo < cur < hi) || (|t| == 1 && lo == cur == 0 && hi == 1)
      invariant !again ==> !FoundInChars(t, ch)
      decreases again, hi - lo
    {
      if t[cur] == ch {
        return true;
      }
      var prev := cur;
      if t[cur] > ch {
        hi := cur;
        cur := cur - (cur - lo) / 2;
      } else {
        lo := cur;
        cur := cur + (hi - cur) / 2;
      }
      again := cur != prev;
    }
    return false;
  }

  /** True exactly for what the entries the search can look at contain. */
  method IsAlpha(ranges: seq<Range>, chars: seq<nat>, ch: nat) returns (r: bool)
    requires ranges != [] && SortedRanges(ranges)
    requires chars != [] && SortedChars(chars)
    ensures r <==> FoundInRanges(ranges, ch) || FoundInChars(chars, ch)
  {
    r := SearchRanges(ranges, ch);
    if !r {
      r := SearchChars(chars, ch);
    }
  }

  method IsAlnum(ranges: seq<Range>, chars: seq<nat>, ch: nat) returns (r: bool)
    requires ranges != [] && SortedRanges(ranges)
    requires chars != [] && SortedChars(chars)
    ensures r <==> 0x30 <= ch <= 0x39 || FoundInRanges(ranges, ch) || FoundInChars(chars, ch)
  {
    if ch >= 0x30 && ch <= 0x39 {
      return true;
    }
    r := IsAlpha(ranges, chars, ch);
  }

  /**
   * Halving agrees with looking at every entry exactly when the code point is not one that only
   * the first range, the last range or the first character lists.
   */
  lemma HalvingIsMembershipIff(ranges: seq<Range>, chars: seq<nat>, ch: nat)
    requires |ranges| >= 3 && SortedRanges(ranges)
    requires |chars| >= 2 && SortedChars(chars)
    requires forall i, j :: 0 <= i < |ranges| && 0 <= j < |chars| ==> !In(ranges[i], chars[j])
    ensures ((FoundInRanges(ranges, ch) || FoundInChars(chars, ch)) == Listed(ranges, chars, ch))
       <==> !In(ranges[0], ch) && !In(ranges[|ranges| - 1], ch) && ch != chars[0]
  {
    var n := |ranges|;
    if In(ranges[0], ch) || In(ranges[n - 1], ch) {
      OneRangeOnly(ranges, ch, if In(ranges[0], ch) then 0 else n - 1);
      assert !FoundInRanges(ranges, ch);
      assert !FoundInChars(chars, ch);
    } else if ch == chars[0] {
      assert !FoundInChars(chars, ch);
      assert !FoundInRanges(ranges, ch);
      assert Listed(ranges, chars, ch);
    } else {
      if Listed(ranges, chars, ch) && !FoundInRanges(ranges, ch) {
        assert forall i :: 0 <= i < n ==> !In(ranges[i], ch);
        var j :| 0 <= j < |chars| && chars[j] == ch;
        assert CharProbed(|chars|, j);
      }
    }
  }

  lemma OneRangeOnly(t: seq<Range>, ch: nat, i: nat)
    requires SortedRanges(t) && i < |t| && In(t[i], ch)
    ensures forall j :: 0 <= j < |t| && In(t[j], ch) ==> j == i
  {
    forall j | 0 <= j < |t| && In(t[j], ch) ensures j == i {
      assert Last(t[i]) >= ch && Last(t[j]) >= ch;
    }
  }

  /** Between the first and the last range and above the first character, halving is membership, however the tables overlap. */
  lemma HalvingIsMembershipBetween(ranges: seq<Range>, chars: seq<nat>, ch: nat)
    requires ranges != [] && SortedRanges(ranges)
    requires chars != [] && SortedChars(chars)
    requires Last(ranges[0]) < ch < ranges[|ranges| - 1].start && chars[0] < ch
    ensures (FoundInRanges(ranges, ch) || FoundInChars(chars, ch)) == Listed(ranges, chars, ch)
  {
    if i :| 0 <= i < |ranges| && In(ranges[i], ch) {
      assert 0 < i < |ranges| - 1 && RangeProbed(|ranges|, i);
    }
    if j :| 0 <= j < |chars| && chars[j] == ch {
      assert CharProbed(|chars|, j);
    }
  }

  /** With the shipped first range, no capital ASCII letter counts as a letter, although all are listed. */
  lemma CapitalsAreMissed(ranges: seq<Range>, chars: seq<nat>, ch: nat)
    requires |ranges| >= 3 && SortedRanges(ranges) && ranges[0] == Range(0x41, 0x5A)
    requires chars != [] && SortedChars(chars) && chars[0] == 0xAA
    requires 0x41 <= ch <= 0x5A
    ensures Listed(ranges, chars, ch)
    ensures !FoundInRanges(ranges, ch) && !FoundInChars(chars, ch)
  {
    assert In(ranges[0], ch);
    OneRangeOnly(ranges, ch, 0);
  }
}
