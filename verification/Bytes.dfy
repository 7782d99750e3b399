/** Bytes, the character classes of the C locale, and the line-end scan that every parser shares. */
module Bytes {
  newtype byte = b: int | 0 <= b < 256
  type bytes = seq<byte>

  datatype Option<+T> = None | Some(value: T)

  const NUL: byte := 0
  const TAB: byte := 9
  const LF: byte := 10
  const CR: byte := 13
  const SP: byte := 32
  const CRLF: bytes := [13, 10]

  /** C `isspace`: TAB, LF, VT, FF, CR and SP. */
  predicate IsSpace(b: byte) { 9 <= b <= 13 || b == 32 }

  /** C `isalpha`, `isupper` and `islower` in the C locale. */
  predicate IsUpper(b: byte) { 65 <= b <= 90 }
  predicate IsLower(b: byte) { 97 <= b <= 122 }
  predicate IsAlpha(b: byte) { IsUpper(b) || IsLower(b) }
  predicate IsDigit(b: byte) { 48 <= b <= 57 }

  function ToUpper(b: byte): byte { if IsLower(b) then b - 32 else b }
  function ToLower(b: byte): byte { if IsUpper(b) then b + 32 else b }

  predicate IsEolByte(b: byte) { b == CR || b == LF }

  /** Bytes of a literal; a character above 255 would be cut to its low byte. */
  function Lit(s: string): (r: bytes)
    ensures |r| == |s|
    ensures forall i :: 0 <= i < |s| ==> r[i] as int == s[i] as int % 256
  {
    seq(|s|, i requires 0 <= i < |s| => (s[i] as int % 256) as byte)
  }

  /** Index of the first CR or LF at or after `i`, or the length when there is none. */
  function EolFrom(s: bytes, i: nat): (p: nat)
    requires i <= |s|
    ensures i <= p <= |s|
    ensures forall k :: i <= k < p ==> !IsEolByte(s[k])
    ensures p < |s| ==> IsEolByte(s[p])
    decreases |s| - i
  {
    if i == |s| || IsEolByte(s[i]) then i else EolFrom(s, i + 1)
  }

  function FirstEol(s: bytes): (p: nat)
    ensures p <= |s|
    ensures forall i :: 0 <= i < p ==> !IsEolByte(s[i])
    ensures p < |s| ==> IsEolByte(s[p])
  {
    EolFrom(s, 0)
  }

  /** Two for CR LF, one for a lone CR or LF; a CR that ends the data stands alone. */
  function EolLen(s: bytes, p: nat): (n: nat)
    requires p < |s|
    ensures 1 <= n <= 2 && p + n <= |s|
  {
    if s[p] == CR && p + 1 < |s| && s[p + 1] == LF then 2 else 1
  }

  /** End of the run of CR and LF bytes that starts at `i`. */
  function EolRunEnd(s: bytes, i: nat): (n: nat)
    requires i <= |s|
    ensures i <= n <= |s|
    ensures forall k :: i <= k < n ==> IsEolByte(s[k])
    ensures n < |s| ==> !IsEolByte(s[n])
    decreases |s| - i
  {
    if i == |s| || !IsEolByte(s[i]) then i else EolRunEnd(s, i + 1)
  }

  function EolRun(s: bytes): (n: nat)
    ensures n <= |s|
    ensures forall i :: 0 <= i < n ==> IsEolByte(s[i])
    ensures n < |s| ==> !IsEolByte(s[n])
  {
    EolRunEnd(s, 0)
  }

  function SkipEols(s: bytes): (r: bytes)
    ensures |r| <= |s| && r == s[|s| - |r|..]
    ensures r != [] ==> !IsEolByte(r[0])
  {
    s[EolRun(s)..]
  }

  /** End of the run of white space that starts at `i`. */
  function SpaceRunEnd(s: bytes, i: nat): (n: nat)
    requires i <= |s|
    ensures i <= n <= |s|
    ensures forall k :: i <= k < n ==> IsSpace(s[k])
    ensures n < |s| ==> !IsSpace(s[n])
    decreases |s| - i
  {
    if i == |s| || !IsSpace(s[i]) then i else SpaceRunEnd(s, i + 1)
  }

  function SpaceRun(s: bytes): (n: nat)
    ensures n <= |s|
    ensures forall i :: 0 <= i < n ==> IsSpace(s[i])
    ensures n < |s| ==> !IsSpace(s[n])
  {
    SpaceRunEnd(s, 0)
  }

  predicate Blank(s: bytes) { forall i :: 0 <= i < |s| ==> IsSpace(s[i]) }

  /** A C string: what stands before the first NUL. */
  function BeforeNul(s: bytes): bytes {
    if s == [] || s[0] == NUL then [] else [s[0]] + BeforeNul(s[1..])
  }

  /** Concatenation of a list of blocks. */
  function Concat<T>(blocks: seq<seq<T>>): seq<T> {
    if blocks == [] then [] else blocks[0] + Concat(blocks[1..])
  }

  lemma {:induction false} ConcatAppend<T>(xs: seq<seq<T>>, ys: seq<seq<T>>)
    ensures Concat(xs + ys) == Concat(xs) + Concat(ys)
  {
    if xs == [] {
      assert xs + ys == ys;
      assert [] + Concat(ys) == Concat(ys);
    } else {
      ConcatAppend(xs[1..], ys);
      assert (xs + ys)[1..] == xs[1..] + ys;
      SeqAssoc(xs[0], Concat(xs[1..]), Concat(ys));
    }
  }

  lemma SeqAssoc<T>(a: seq<T>, b: seq<T>, c: seq<T>)
    ensures (a + b) + c == a + (b + c)
  {}

  lemma ConcatSnoc<T>(xs: seq<seq<T>>, y: seq<T>)
    ensures Concat(xs + [y]) == Concat(xs) + y
  {
    ConcatAppend(xs, [y]);
    assert Concat([y]) == y + Concat<T>([]);
  }

  lemma DropConcat<T>(s: seq<T>, y: seq<T>, k: nat)
    requires k <= |s|
    ensures (s + y)[k..] == s[k..] + y
    ensures (s + y)[..k] == s[..k]
  {}

  /** If `a` is what stands at `e`, what follows starts right behind it. */
  lemma Peel<T>(s: seq<T>, e: nat, a: seq<T>, rest: seq<T>)
    requires e <= |s| && s[e..] == a + rest
    ensures |s| == e + |a| + |rest|
    ensures s[e..e + |a|] == a && s[e + |a|..] == rest
  {
    assert s[e..][..|a|] == a && s[e..][|a|..] == rest;
  }

  /** The same for a separator and what follows it. */
  lemma PeelAfter<T>(s: seq<T>, e: nat, c: T, a: seq<T>, rest: seq<T>)
    requires e <= |s| && s[e..] == [c] + (a + rest)
    ensures |s| == e + 1 + |a| + |rest| && s[e] == c
    ensures s[e + 1..] == a + rest && s[e + 1..e + 1 + |a|] == a && s[e + 1 + |a|..] == rest
    ensures e + 1 < |s| ==> s[e + 1] == (a + rest)[0]
  {
    Peel(s, e, [c], a + rest);
    assert s[e] == s[e..][0];
    Peel(s, e + 1, a, rest);
    assert e + 1 < |s| ==> s[e + 1] == s[e + 1..][0];
  }

  lemma FirstEolUnique(s: bytes, p: nat)
    requires p <= |s|
    requires forall i :: 0 <= i < p ==> !IsEolByte(s[i])
    requires p < |s| ==> IsEolByte(s[p])
    ensures FirstEol(s) == p
  {}

  lemma EolRunUnique(s: bytes, n: nat)
    requires n <= |s|
    requires forall i :: 0 <= i < n ==> IsEolByte(s[i])
    requires n < |s| ==> !IsEolByte(s[n])
    ensures EolRun(s) == n
  {}

  /** The scan for a line end, as the parsers run it: a moving pointer and a countdown. */
  method LocateBinEol(s: bytes) returns (at: Option<nat>, len: nat)
    ensures at == (if FirstEol(s) < |s| then Some(FirstEol(s)) else None)
    ensures at.Some? ==> len == EolLen(s, at.value)
    ensures at.None? ==> len == 0
  {
    var eol := 0;
    while eol < |s|
      invariant 0 <= eol <= |s|
      invariant forall i :: 0 <= i < eol ==> !IsEolByte(s[i])
    {
      if s[eol] == CR || s[eol] == LF {
        FirstEolUnique(s, eol);
        at := Some(eol);
        len := if s[eol] == CR && eol + 1 < |s| && s[eol + 1] == LF then 2 else 1;
        return;
      }
      eol := eol + 1;
    }
    at, len := None, 0;
  }
}
