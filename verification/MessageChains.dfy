/** Chains of messages, linked through their parents, and the operations that relink them in place. */
module MessageChains {
  import opened Bytes

  /** A message with its printed form; only the link changes. */
  class Message {
    const text: bytes
    var parent: Message?

    constructor (text: bytes)
      ensures this.text == text && parent == null
    {
      this.text, parent := text, null;
    }
  }

  ghost predicate Distinct(s: seq<Message>) { forall i, j :: 0 <= i < j < |s| ==> s[i] != s[j] }

  /** `s` is what the links from `head` lead through; the chain ends. */
  ghost predicate IsChain(head: Message?, s: seq<Message>)
    reads s
  {
    && Distinct(s)
    && (if s == [] then head == null else head == s[0] && s[|s| - 1].parent == null)
    && forall i {:trigger s[i].parent} :: 0 <= i < |s| - 1 ==> s[i].parent == s[i + 1]
  }

  /** Reversal, by position. */
  ghost function Reversed<T>(s: seq<T>): (r: seq<T>)
    ensures |r| == |s|
    ensures forall i :: 0 <= i < |s| ==> r[i] == s[|s| - 1 - i]
  {
    seq(|s|, i requires 0 <= i < |s| => s[|s| - 1 - i])
  }

  lemma ReversedTwice<T>(s: seq<T>)
    ensures Reversed(Reversed(s)) == s
  {
    var r := Reversed(s);
    assert forall i :: 0 <= i < |s| ==> Reversed(r)[i] == r[|s| - 1 - i];
  }

  lemma ReversedDistinct(s: seq<Message>)
    requires Distinct(s)
    ensures Distinct(Reversed(s))
  {}

  method Count(msg: Message, ghost s: seq<Message>) returns (c: nat)
    requires s != [] && IsChain(msg, s)
    ensures c == |s|
  {
    c := 1;
    var m := msg.parent;
    while m != null
      invariant 1 <= c <= |s|
      invariant m == (if c < |s| then s[c] else null)
      decreases |s| - c
    {
      assert s[c].parent == if c + 1 < |s| then s[c + 1] else null;
      c := c + 1;
      m := m.parent;
    }
  }

  /** Collects the chain in an array and relinks each message to the one before it. */
  method Reverse(msg: Message, ghost s: seq<Message>) returns (r: Message)
    requires s != [] && IsChain(msg, s)
    modifies s
    ensures IsChain(r, Reversed(s))
  {
    var c := Count(msg, s);
    if c == 1 {
      assert Reversed(s) == s;
      return msg;
    }
    var arr := new Message[c](_ => msg);
    var tmp: Message? := msg;
    var i := 0;
    while i < c
      invariant 0 <= i <= c == |s| == arr.Length
      invariant tmp == (if i < c then s[i] else null)
      invariant arr[..i] == s[..i]
      modifies arr
    {
      arr[i] := tmp;
      assert s[i].parent == if i + 1 < c then s[i + 1] else null;
      tmp := tmp.parent;
      i := i + 1;
    }
    assert arr[..] == s;
    arr[0].parent := null;
    i := 0;
    while i < c - 1
      invariant 0 <= i <= c - 1
      invariant arr[..] == s
      invariant forall k {:trigger s[k].parent} :: 0 <= k <= i ==> s[k].parent == if k == 0 then null else s[k - 1]
      modifies s
    {
      arr[i + 1].parent := arr[i];
      i := i + 1;
    }
    r := arr[c - 1];
    ReversedDistinct(s);
    ghost var t := Reversed(s);
    forall k {:trigger t[k].parent} | 0 <= k < |t| - 1 ensures t[k].parent == t[k + 1] {
      assert t[k] == s[c - 1 - k] && t[k + 1] == s[c - 2 - k];
    }
  }

  /** The printed forms, each followed by a line end. */
  ghost function Printed(s: seq<Message>): bytes {
    if s == [] then [] else s[0].text + CRLF + Printed(s[1..])
  }

  /** Prints the oldest message first, by reversing the chain and reversing it back. */
  method Serialize(message: Message, ghost s: seq<Message>) returns (str: bytes)
    requires s != [] && IsChain(message, s)
    modifies s
    ensures str == Printed(Reversed(s))
    ensures IsChain(message, s)
  {
    ghost var t := Reversed(s);
    var msg := Reverse(message, s);
    assert Elements(t) == Elements(s) by { SameElements(s); }
    str := [];
    var m: Message? := msg;
    ghost var i := 0;
    assert t[0..] == t;
    while m != null
      invariant 0 <= i <= |t|
      invariant m == if i < |t| then t[i] else null
      invariant str + Printed(t[i..]) == Printed(t)
      decreases |t| - i
    {
      assert t[i..][1..] == t[i + 1..];
      assert t[i].parent == if i + 1 < |t| then t[i + 1] else null;
      str := str + m.text;
      str := str + CRLF;
      m := m.parent;
      i := i + 1;
    }
    var back := Reverse(msg, t);
    ReversedTwice(s);
  }

  ghost function Elements(s: seq<Message>): set<Message> { set m | m in s }

  lemma SameElements(s: seq<Message>)
    ensures Elements(Reversed(s)) == Elements(s)
  {
    var t := Reversed(s);
    forall m | m in s ensures m in t {
      var i :| 0 <= i < |s| && s[i] == m;
      assert t[|s| - 1 - i] == m;
    }
    forall m | m in t ensures m in s {
      var i :| 0 <= i < |t| && t[i] == m;
      assert s[|s| - 1 - i] == m;
    }
  }

  // ---- zipping

  /** One of each in turn, then the rest of the longer. */
  ghost function Interleave<T>(a: seq<T>, b: seq<T>): seq<T> {
    if a == [] then b else if b == [] then a else [a[0], b[0]] + Interleave(a[1..], b[1..])
  }

  /** Nothing is lost or doubled, whichever is longer. */
  lemma {:induction false} InterleaveKeepsAll<T>(a: seq<T>, b: seq<T>)
    ensures multiset(Interleave(a, b)) == multiset(a) + multiset(b)
  {
    if a != [] && b != [] {
      var c, d := a[1..], b[1..];
      InterleaveKeepsAll(c, d);
      assert a == [a[0]] + c && b == [b[0]] + d;
      PairKeepsAll(a[0], b[0], c, d, Interleave(c, d));
    }
  }

  lemma PairKeepsAll<T>(x: T, y: T, c: seq<T>, d: seq<T>, r: seq<T>)
    requires multiset(r) == multiset(c) + multiset(d)
    ensures multiset([x, y] + r) == multiset([x] + c) + multiset([y] + d)
  {
    assert [x, y] + r == [x] + ([y] + r);
  }

  /** Each element of `a` links to its partner, each of `b` to the next of `a`, the rest as before. */
  ghost predicate Zipped(a: seq<Message>, b: seq<Message>, k: nat)
    requires k <= |a| && k <= |b|
    reads a, b
  {
    && (forall i {:trigger a[i].parent} :: 0 <= i < |a| ==>
          a[i].parent == if i < k then b[i] else if i + 1 < |a| then a[i + 1] else null)
    && (forall i {:trigger b[i].parent} :: 0 <= i < |b| ==>
          b[i].parent == if i < k && i + 1 < |a| then a[i + 1] else if i + 1 < |b| then b[i + 1] else null)
  }

  ghost predicate Disjoint(a: seq<Message>, b: seq<Message>) {
    forall i, j :: 0 <= i < |a| && 0 <= j < |b| ==> a[i] != b[j]
  }

  ghost function Min(x: nat, y: nat): nat { if x < y then x else y }

  /** What stands at position `i` of the interleaving. */
  ghost function At<T>(a: seq<T>, b: seq<T>, i: nat): T
    requires i < |a| + |b|
  {
    var m := Min(|a|, |b|);
    if i < 2 * m then (if i % 2 == 0 then a[i / 2] else b[i / 2])
    else if m < |a| then a[i - m] else b[i - m]
  }

  lemma {:induction false} InterleaveAt<T>(a: seq<T>, b: seq<T>)
    ensures |Interleave(a, b)| == |a| + |b|
    ensures forall i :: 0 <= i < |a| + |b| ==> Interleave(a, b)[i] == At(a, b, i)
  {
    if a != [] && b != [] {
      var c, d := a[1..], b[1..];
      InterleaveAt(c, d);
      forall i | 0 <= i < |a| + |b| ensures Interleave(a, b)[i] == At(a, b, i) {
        if i >= 2 {
          assert Interleave(a, b)[i] == Interleave(c, d)[i - 2] == At(c, d, i - 2);
          assert i / 2 - 1 == (i - 2) / 2;
        }
      }
    }
  }

  lemma AtDistinct(a: seq<Message>, b: seq<Message>, i: nat, j: nat)
    requires Distinct(a) && Distinct(b) && Disjoint(a, b)
    requires i < j < |a| + |b|
    ensures At(a, b, i) != At(a, b, j)
  {
    var m := Min(|a|, |b|);
    if i < 2 * m && j < 2 * m && i % 2 == j % 2 {
      assert i / 2 < j / 2;
    }
  }

  lemma AtLinks(a: seq<Message>, b: seq<Message>, i: nat)
    requires Zipped(a, b, Min(|a|, |b|))
    requires i < |a| + |b|
    ensures At(a, b, i).parent == if i + 1 < |a| + |b| then At(a, b, i + 1) else null
  {
    var m := Min(|a|, |b|);
    if i < 2 * m {
      if i % 2 == 0 {
        assert (i + 1) / 2 == i / 2 && a[i / 2].parent == b[i / 2];
      } else {
        assert (i + 1) / 2 == i / 2 + 1;
        assert b[i / 2] == At(a, b, i);
        assert b[i / 2].parent == b[i / 2].parent;
      }
    } else if m < |a| {
      assert a[i - m] == At(a, b, i) && a[i - m].parent == a[i - m].parent;
    } else {
      assert b[i - m] == At(a, b, i) && b[i - m].parent == b[i - m].parent;
    }
  }

  lemma ZippedIsChain(a: seq<Message>, b: seq<Message>)
    requires Distinct(a) && Distinct(b) && Disjoint(a, b) && a != []
    requires Zipped(a, b, Min(|a|, |b|))
    ensures IsChain(a[0], Interleave(a, b))
  {
    var r := Interleave(a, b);
    InterleaveAt(a, b);
    forall i, j | 0 <= i < j < |r| ensures r[i] != r[j] {
      AtDistinct(a, b, i, j);
    }
    AtLinks(a, b, |r| - 1);
    forall i {:trigger r[i].parent} | 0 <= i < |r| - 1 ensures r[i].parent == r[i + 1] {
      AtLinks(a, b, i);
    }
    assert r[0] == a[0];
  }

  /**
   * Zips `src` into `dst`. Without a `dst` the result is null, whatever `src` is; otherwise it is
   * the interleaving of the two chains, every message once and the longer tail kept.
   */
  method Zip(dst: Message?, src: Message?, ghost a: seq<Message>, ghost b: seq<Message>) returns (ret: Message?)
    requires IsChain(dst, a) && IsChain(src, b) && Disjoint(a, b)
    modifies a, b
    ensures a == [] ==> ret == null && IsChain(src, b)
    ensures a != [] ==> IsChain(ret, Interleave(a, b))
  {
    ret := dst;
    var d, s := dst, src;
    ghost var k := 0;
    while d != null && s != null
      invariant 0 <= k <= |a| && k <= |b|
      invariant d == if k < |a| then a[k] else null
      invariant s == if k < |b| then b[k] else null
      invariant Zipped(a, b, k)
      decreases |a| - k
    {
      assert d.parent == a[k].parent && s.parent == b[k].parent;
      var tmpDst, tmpSrc := d.parent, s.parent;
      d.parent := s;
      if tmpDst != null {
        s.parent := tmpDst;
      }
      s := tmpSrc;
      d := tmpDst;
      k := k + 1;
    }
    if a != [] {
      ZippedIsChain(a, b);
    }
  }
}
