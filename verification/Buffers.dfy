/** The growable buffer: an allocation with `used` bytes of content and `free` bytes of room behind it. */
module Buffers {
  import opened Bytes

  const DEFAULT_SIZE: nat := 256

  function Pow2(k: nat): (p: nat)
    ensures p > 0
  {
    if k == 0 then 1 else 2 * Pow2(k - 1)
  }

  /** The size reached by doubling `size` until it makes room for `len` next to `room`. */
  function Grown(size: nat, room: nat, len: nat): nat
    requires size > 0
    decreases if size + room < len then len - size - room else 0
  {
    if size + room < len then Grown(2 * size, room, len) else size
  }

  /** It is the least doubling of the base size that fits. */
  lemma {:induction false} GrownIsLeast(size: nat, room: nat, len: nat) returns (k: nat)
    requires size > 0
    ensures Grown(size, room, len) == size * Pow2(k)
    ensures Grown(size, room, len) + room >= len
    ensures forall j: nat :: size * Pow2(j) + room >= len ==> Grown(size, room, len) <= size * Pow2(j)
    decreases if size + room < len then len - size - room else 0
  {
    if size + room < len {
      k := GrownIsLeast(2 * size, room, len);
      Doubled(size, k);
      k := k + 1;
      forall j: nat | size * Pow2(j) + room >= len ensures Grown(size, room, len) <= size * Pow2(j) {
        assert j > 0;
        Doubled(size, j - 1);
      }
    } else {
      k := 0;
      forall j: nat ensures size <= size * Pow2(j) {
        Scaled(size, Pow2(j));
      }
    }
  }

  lemma Doubled(size: nat, k: nat)
    ensures size * Pow2(k + 1) == 2 * size * Pow2(k)
  {
    var p := Pow2(k);
    assert size * (2 * p) == 2 * size * p;
  }

  lemma Scaled(size: nat, p: nat)
    requires p > 0
    ensures size <= size * p
  {}

  /** The room left over is below the base size or below what was asked for. */
  lemma {:induction false} GrownIsTight(size: nat, room: nat, len: nat)
    requires size > 0 && room < len
    ensures Grown(size, room, len) + room - len < if len < size then size else len
    decreases if size + room < len then len - size - room else 0
  {
    if size + room < len && 2 * size + room < len {
      GrownIsTight(2 * size, room, len);
    }
  }

  function Without(s: bytes, offset: nat, length: nat): bytes {
    if offset > |s| then s
    else if offset + length > |s| then s[..offset]
    else s[..offset] + s[offset + length..]
  }

  lemma TakesNothing()
    ensures forall s {:trigger Without(s, 0, 0)} :: Without(s, 0, 0) == s
  {
    forall s ensures Without(s, 0, 0) == s {
      assert s[..0] + s[0..] == s;
    }
  }

  class Buffer {
    var data: array<byte>
    var used: nat
    var free: nat
    const size: nat

    ghost predicate Valid()
      reads this
    {
      size > 0 && data.Length == used + free
    }

    ghost function Contents(): bytes
      requires Valid()
      reads this, data
    {
      data[..used]
    }

    constructor (chunk: nat, prealloc: bool)
      ensures Valid() && fresh(data) && Contents() == []
      ensures size == if chunk == 0 then DEFAULT_SIZE else chunk
      ensures free == if prealloc then size else 0
    {
      var n := if chunk == 0 then DEFAULT_SIZE else chunk;
      size := n;
      data := new byte[if prealloc then n else 0];
      free := if prealloc then n else 0;
      used := 0;
    }

    /** Moves the content into an allocation of `n` bytes. */
    method Reallocate(n: nat)
      requires Valid() && used <= n
      modifies this`data
      ensures fresh(data) && data.Length == n
      ensures data[..used] == old(Contents())
    {
      var from, keep := data, used;
      var ptr := new byte[n](i requires 0 <= i reads from => if i < from.Length then from[i] else 0);
      assert forall i :: 0 <= i < used ==> ptr[i] == from[i];
      data := ptr;
    }

    /** None when an allocation that may fail does; `memory` says whether it would succeed. */
    method Resize(len: nat, overrideSize: nat, allowError: bool, memory: bool) returns (r: Option<nat>)
      requires Valid()
      modifies this`data, this`free
      ensures Valid() && Contents() == old(Contents())
      ensures data == old(data) || fresh(data)
      ensures old(free) >= len ==> r == Some(0) && free == old(free)
      ensures old(free) < len && allowError && !memory ==> r == None && free == old(free)
      ensures old(free) < len && (!allowError || memory) ==>
        r == Some(Grown(if overrideSize == 0 then size else overrideSize, old(free), len)) && free == old(free) + r.value >= len
    {
      if free < len {
        var more := if overrideSize != 0 then overrideSize else size;
        ghost var base := more;
        while more + free < len
          invariant more > 0
          invariant Grown(base, free, len) == Grown(more, free, len)
          decreases len - more
        {
          more := more * 2;
        }
        ghost var k := GrownIsLeast(base, free, len);
        if allowError && !memory {
          return None;
        }
        Reallocate(used + free + more);
        free := free + more;
        return Some(more);
      }
      return Some(0);
    }

    /** Makes bytes that were written behind the content part of it. */
    method Account(n: nat)
      requires Valid() && n <= free
      modifies this`used, this`free
      ensures Valid()
      ensures Contents() == old(data[..used + n])
    {
      free := free - n;
      used := used + n;
    }

    method Shrink() returns (r: nat)
      requires Valid()
      modifies this`data, this`free
      ensures Valid() && Contents() == old(Contents()) && r == used
      ensures free == if old(free) > 1 then 1 else old(free)
      ensures data == old(data) || fresh(data)
    {
      if free > 1 {
        Reallocate(used + 1);
        free := 1;
      }
      return used;
    }

    method Append(s: bytes) returns (r: nat)
      requires Valid()
      modifies this`data, this`used, this`free, data
      ensures Valid() && r == |s|
      ensures Contents() == old(Contents()) + s
      ensures old(free) >= |s| ==> data == old(data) && free == old(free) - |s|
      ensures old(free) < |s| ==> fresh(data) && free < if |s| < size then size else |s|
    {
      ghost var was := Contents();
      r := |s|;
      if free < |s| {
        GrownIsTight(size, free, |s|);
        var _ := Resize(|s|, 0, false, true);
        assert free - |s| < if |s| < size then size else |s|;
      }
      if |s| > 0 {
        forall i | 0 <= i < |s| {
          data[used + i] := s[i];
        }
        used := used + |s|;
        free := free - |s|;
      }
      assert |Contents()| == |was + s|;
      assert forall i {:trigger Contents()[i]} :: 0 <= i < |was| + |s| ==> Contents()[i] == (was + s)[i];
    }

    method Data() returns (copy: bytes, len: nat)
      requires Valid()
      ensures len == used && copy == Contents() + [0]
    {
      copy, len := data[..used] + [0], used;
    }

    /** Takes up to `length` bytes out at `offset` and says how many. */
    method Cut(offset: nat, length: nat) returns (r: nat)
      requires Valid()
      modifies this`used, this`free, data
      ensures Valid() && data.Length == old(data.Length)
      ensures Contents() == Without(old(Contents()), offset, length)
      ensures r + |Contents()| == old(|Contents()|)
    {
      ghost var was := Contents();
      if offset > used {
        return 0;
      }
      var n := if offset + length > used then used - offset else length;
      forall i | offset <= i < used - n {
        data[i] := data[i + n];
      }
      used := used - n;
      free := free + n;
      assert data[..used] == Without(was, offset, length);
      return n;
    }

    /** Puts a NUL behind the content, which it does not belong to. */
    method Fix()
      requires Valid()
      modifies this`data, this`free, data
      ensures Valid() && Contents() == old(Contents())
      ensures data == old(data) || fresh(data)
      ensures free > 0 && data[used] == 0
      ensures free == if old(free) == 0 then 1 else old(free)
    {
      if free < 1 {
        var _ := Resize(1, 1, false, true);
      }
      data[used] := 0;
    }

    method Reset()
      requires Valid()
      modifies this`used, this`free
      ensures Valid() && Contents() == [] && free == old(used + free)
    {
      free := free + used;
      used := 0;
    }

    /** Reads up to `chunk` bytes straight into the room; None when the reader fails. */
    method ChunkedInput(chunk: nat, read: Option<bytes>) returns (passed: Option<nat>)
      requires Valid() && (read.Some? ==> |read.value| <= chunk)
      modifies this, data
      ensures Valid() && (data == old(data) || fresh(data))
      ensures passed == if read.Some? then Some(|read.value|) else None
      ensures Contents() == old(Contents()) + if read.Some? then read.value else []
      ensures free > 0 && data[used] == 0
    {
      ghost var was := Contents();
      var _ := Resize(chunk, 0, false, true);
      if read.Some? {
        forall i | 0 <= i < |read.value| {
          data[used + i] := read.value[i];
        }
        assert data[..used + |read.value|] == was + read.value;
        Account(|read.value|);
        passed := Some(|read.value|);
      } else {
        passed := None;
      }
      Fix();
    }

    /**
     * Reads a chunk and offers the whole content to the next stage, which takes `taken` bytes of it,
     * or fails. The result is what left less what came in.
     */
    method Passthru(chunk: nat, read: Option<bytes>, taken: Option<nat>) returns (r: Option<int>)
      requires Valid() && (read.Some? ==> |read.value| <= chunk)
      modifies this, data
      ensures Valid() && (data == old(data) || fresh(data))
      ensures var x := old(Contents()) + if read.Some? then read.value else [];
        && Contents() == Passed(old(Contents()), read, taken)
        && r == (if read.None? then None else if x == [] then Some(0)
                 else if taken.None? then None else Some(taken.value - |read.value|))
    {
      ghost var was := Contents();
      hide Without;
      assert forall s: bytes {:trigger Without(s, 0, 0)} :: Without(s, 0, 0) == s by { TakesNothing(); }
      var passedIn := ChunkedInput(chunk, read);
      if passedIn.None? {
        return None;
      }
      var passedOn: int := 0;
      if passedIn.value > 0 || used > 0 {
        if taken.None? {
          return None;
        }
        passedOn := taken.value;
        if passedOn > 0 {
          var _ := Cut(0, passedOn);
        }
      }
      return Some(passedOn - passedIn.value);
    }
  }

  /** What a pass leaves in the buffer. */
  function Passed(held: bytes, read: Option<bytes>, taken: Option<nat>): bytes {
    if read.None? then held
    else if taken.None? then held + read.value
    else Without(held + read.value, 0, taken.value)
  }

  // ---- runs of passes

  datatype Pass = Pass(read: Option<bytes>, taken: Option<nat>)

  /** Whether the next stage takes no more than it is offered. */
  predicate Honest(held: bytes, ps: seq<Pass>)
    decreases |ps|
  {
    ps == [] ||
    (&& (ps[0].read.Some? && ps[0].taken.Some? ==> ps[0].taken.value <= |held + ps[0].read.value|)
     && Honest(Passed(held, ps[0].read, ps[0].taken), ps[1..]))
  }

  function Held(held: bytes, ps: seq<Pass>): bytes
    decreases |ps|
  {
    if ps == [] then held else Held(Passed(held, ps[0].read, ps[0].taken), ps[1..])
  }

  function ReadIn(ps: seq<Pass>): bytes {
    if ps == [] then [] else Input(ps[0]) + ReadIn(ps[1..])
  }

  /** What the next stage took, in order. */
  function HandedOn(held: bytes, ps: seq<Pass>): bytes
    requires Honest(held, ps)
    decreases |ps|
  {
    if ps == [] then []
    else Output(held, ps[0]) + HandedOn(Passed(held, ps[0].read, ps[0].taken), ps[1..])
  }

  function Input(p: Pass): bytes { if p.read.Some? then p.read.value else [] }

  function Output(held: bytes, p: Pass): bytes
    requires p.read.Some? && p.taken.Some? ==> p.taken.value <= |held + p.read.value|
  {
    if p.read.Some? && p.taken.Some? then (held + p.read.value)[..p.taken.value] else []
  }

  /** One pass conserves the bytes. */
  lemma PassConserves(held: bytes, p: Pass)
    requires p.read.Some? && p.taken.Some? ==> p.taken.value <= |held + p.read.value|
    ensures Output(held, p) + Passed(held, p.read, p.taken) == held + Input(p)
  {
    if p.read.Some? && p.taken.Some? {
      var x, n := held + p.read.value, p.taken.value;
      assert x[..0] + x[n..] == x[n..];
      assert x[..n] + x[n..] == x;
    }
  }

  lemma Regrouped(out: bytes, a: bytes, b: bytes, next: bytes, held: bytes, input: bytes, more: bytes)
    requires a + b == next + more && out + next == held + input
    ensures (out + a) + b == held + (input + more)
  {
    calc {
      (out + a) + b;
      out + (a + b);
      (out + next) + more;
      held + (input + more);
    }
  }

  /** Nothing is lost, doubled or reordered on the way through, failures included. */
  lemma {:induction false} PassesConserve(held: bytes, ps: seq<Pass>)
    requires Honest(held, ps)
    ensures HandedOn(held, ps) + Held(held, ps) == held + ReadIn(ps)
    decreases |ps|
  {
    hide Passed;
    if ps != [] {
      var p := ps[0];
      var next := Passed(held, p.read, p.taken);
      PassesConserve(next, ps[1..]);
      PassConserves(held, p);
      Regrouped(Output(held, p), HandedOn(next, ps[1..]), Held(next, ps[1..]), next, held, Input(p), ReadIn(ps[1..]));
    }
  }
}
