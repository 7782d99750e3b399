/**
 * The chunked transfer coding (section 7.1 of RFC 9112): one decoding loop, which the stream decoder
 * and the stream filter share up to what they do with the terminator.
 */
module Chunked {
  import opened Bytes
  import opened HexNumbers

  /** The front of the buffer when a chunk size is expected. */
  datatype Line =
    | NoLine(held: bytes)               // no line end yet
    | BadLine(held: bytes)              // no number at its start
    | SizeLine(size: nat, tail: bytes)  // the data behind the line

  /** Line ends in front are dropped; then the size is read from the first complete line. */
  function ReadLine(x: bytes): (l: Line)
    ensures l.SizeLine? ==> |l.tail| < |x|
    ensures l.NoLine? ==> |l.held| <= |x| && FirstEol(l.held) == |l.held|
  {
    var s := SkipEols(x);
    var p := FirstEol(s);
    if p == |s| then NoLine(s)
    else if Strtoul(s).stop == 0 then BadLine(s)
    else SizeLine(Strtoul(s).value, s[p + EolLen(s, p)..])
  }

  /** Why the loop stopped: out of data, at the terminating size line, or at an unreadable one. */
  datatype Stop = More | Zero | Bad

  datatype Result = Result(out: bytes, rest: bytes, hexlen: nat, stop: Stop)

  function Prepend(x: bytes, r: Result): Result { r.(out := x + r.out) }

  /**
   * What the loop makes of buffered data `x` while `hexlen` bytes of the current chunk are missing.
   * `eager` passes an incomplete chunk on at once and waits for less.
   */
  function Decode(x: bytes, hexlen: nat, eager: bool): (r: Result)
    ensures r.hexlen > 0 ==> r.stop.More? && |r.rest| < r.hexlen
    ensures r.hexlen > 0 && eager ==> r.rest == []
    decreases |x|
  {
    if x == [] then Result([], [], hexlen, More)
    else if hexlen > 0 then
      if |x| >= hexlen then Prepend(x[..hexlen], Decode(x[hexlen..], 0, eager))
      else if eager then Result(x, [], hexlen - |x|, More)
      else Result([], x, hexlen, More)
    else
      match ReadLine(x)
      case NoLine(s) => Result([], s, 0, More)
      case BadLine(s) => Result([], s, 0, Bad)
      case SizeLine(n, t) => if n == 0 then Result([], t, 0, Zero) else Decode(t, n, eager)
  }

  lemma PrependTwice(a: bytes, b: bytes, r: Result)
    ensures Prepend(a, Prepend(b, r)) == Prepend(a + b, r)
  {
    assert a + (b + r.out) == (a + b) + r.out;
  }

  /** One turn of the loop. */
  lemma DecodeTurns(x: bytes, hexlen: nat, eager: bool)
    requires x != []
    ensures Decode(x, hexlen, eager) ==
      if hexlen > 0 then
        if |x| >= hexlen then Prepend(x[..hexlen], Decode(x[hexlen..], 0, eager))
        else if eager then Prepend(x, Decode([], hexlen - |x|, eager)) else Result([], x, hexlen, More)
      else
        match ReadLine(x)
        case NoLine(s) => Result([], s, 0, More)
        case BadLine(s) => Result([], s, 0, Bad)
        case SizeLine(n, t) => if n == 0 then Result([], t, 0, Zero) else Decode(t, n, eager)
  {
    hide ReadLine;
    assert x + [] == x;
  }

  lemma NothingToDecode(hexlen: nat, eager: bool) ensures Decode([], hexlen, eager) == Result([], [], hexlen, More) {}

  /** The first line, if complete, has something other than white space on it. */
  predicate LineReadable(x: bytes) {
    var s := SkipEols(x);
    FirstEol(s) < |s| ==> !Blank(s[..FirstEol(s)])
  }

  /** Every size line read has something other than white space on it. */
  predicate Readable(x: bytes, hexlen: nat)
    decreases |x|
  {
    if x == [] then true
    else if hexlen > 0 then |x| >= hexlen ==> Readable(x[hexlen..], 0)
    else
      LineReadable(x) &&
      (ReadLine(x).SizeLine? && ReadLine(x).size > 0 ==> Readable(ReadLine(x).tail, ReadLine(x).size))
  }

  /** The first line is complete only by a CR that ends the data. */
  predicate LineEndsInCr(x: bytes) {
    var s := SkipEols(x);
    FirstEol(s) + 1 == |s| && s[|s| - 1] == CR
  }

  /** The data ends in the CR that ends a size line, so that a LF to come would belong to it. */
  predicate EndsInSizeLineCr(x: bytes, hexlen: nat)
    decreases |x|
  {
    if x == [] then false
    else if hexlen > 0 then |x| >= hexlen && EndsInSizeLineCr(x[hexlen..], 0)
    else
      ReadLine(x).SizeLine? && ReadLine(x).size > 0 &&
      (LineEndsInCr(x) || EndsInSizeLineCr(ReadLine(x).tail, ReadLine(x).size))
  }

  /** Treats the held part of a chunk as passed on. */
  function Settle(r: Result): Result
    requires r.hexlen > 0 ==> |r.rest| <= r.hexlen
  {
    if r.stop.More? && r.hexlen > 0 then Result(r.out + r.rest, [], r.hexlen - |r.rest|, More) else r
  }

  /** Holding data back or passing it on at once makes no difference but for the held part. */
  lemma {:induction false} EagerSettles(x: bytes, hexlen: nat, eager: bool)
    ensures Settle(Decode(x, hexlen, eager)) == Decode(x, hexlen, true)
    decreases |x|
  {
    hide ReadLine;
    if x == [] {
      assert [] + x == x;
    } else if hexlen > 0 {
      if |x| >= hexlen {
        EagerSettles(x[hexlen..], 0, eager);
        var r := Decode(x[hexlen..], 0, eager);
        assert x[..hexlen] + (r.out + r.rest) == (x[..hexlen] + r.out) + r.rest;
      } else {
        assert [] + x == x && x + [] == x;
      }
    } else {
      var l := ReadLine(x);
      if l.SizeLine? && l.size > 0 {
        EagerSettles(l.tail, l.size, eager);
      }
    }
  }

  /** Part of a chunk's data can be passed on before the rest of the chunk arrives. */
  lemma ChunkDataSplits(x: bytes, y: bytes, hexlen: nat)
    requires |x| < hexlen
    ensures Decode(x + y, hexlen, true) == Prepend(x, Decode(y, hexlen - |x|, true))
  {
    hide ReadLine;
    var z := x + y;
    var n := hexlen - |x|;
    if |y| < n {
      assert y == [] ==> z == x;
      assert x + [] == x;
    } else {
      assert z[..hexlen] == x + y[..n] && z[hexlen..] == y[n..];
      var r := Decode(y[n..], 0, true);
      assert (x + y[..n]) + r.out == x + (y[..n] + r.out);
    }
  }

  lemma SkipEolsSplits(x: bytes, y: bytes)
    ensures SkipEols(x) != [] ==> SkipEols(x + y) == SkipEols(x) + y
    ensures SkipEols(x) == [] ==> SkipEols(x + y) == SkipEols(y)
  {
    hide EolRun;
    var z, k := x + y, EolRun(x);
    assert forall i :: 0 <= i < |x| ==> z[i] == x[i];
    assert forall i :: 0 <= i < |y| ==> z[|x| + i] == y[i];
    if k < |x| {
      EolRunUnique(z, k);
      assert z[k..] == x[k..] + y;
    } else {
      EolRunUnique(z, |x| + EolRun(y));
      assert z[|x| + EolRun(y)..] == y[EolRun(y)..];
    }
  }

  lemma SkipEolsIdempotent(s: bytes)
    requires s != [] ==> !IsEolByte(s[0])
    ensures SkipEols(s) == s
  {
    EolRunUnique(s, 0);
  }

  lemma FirstEolSplits(s: bytes, y: bytes)
    requires FirstEol(s) < |s|
    ensures FirstEol(s + y) == FirstEol(s)
    ensures (s + y)[..FirstEol(s)] == s[..FirstEol(s)]
  {
    FirstEolUnique(s + y, FirstEol(s));
  }

  /** A complete line reads the same whatever follows, unless a LF joins its CR. */
  lemma LineSplits(x: bytes, y: bytes)
    requires ReadLine(x).SizeLine? && LineReadable(x + y)
    requires !(LineEndsInCr(x) && y != [] && y[0] == LF)
    ensures LineReadable(x)
    ensures ReadLine(x + y) == SizeLine(ReadLine(x).size, ReadLine(x).tail + y)
  {
    hide FirstEol, Strtoul, SkipEols;
    SkipEolsSplits(x, y);
    var s := SkipEols(x);
    var p := FirstEol(s);
    FirstEolSplits(s, y);
    StrtoulReadsOneLine(s, y);
    var e := EolLen(s, p);
    assert EolLen(s + y, p) == e;
    DropConcat(s, y, p + e);
  }

  lemma SameLine(x: bytes, y: bytes)
    requires SkipEols(x) == SkipEols(y)
    ensures ReadLine(x) == ReadLine(y)
  {
    hide FirstEol, Strtoul, SkipEols;
  }

  lemma HeldIsSkipped(x: bytes)
    requires ReadLine(x).NoLine?
    ensures ReadLine(x).held == SkipEols(x)
  {
    hide FirstEol, Strtoul, SkipEols;
  }

  /** What is kept of an incomplete line is read again with what follows. */
  lemma NoLineSplits(x: bytes, y: bytes)
    requires ReadLine(x).NoLine?
    ensures ReadLine(x + y) == ReadLine(ReadLine(x).held + y)
  {
    hide ReadLine, SkipEols;
    HeldIsSkipped(x);
    var s := SkipEols(x);
    SkipEolsSplits(x, y);
    if s == [] {
      assert s + y == y;
    } else {
      assert (s + y)[0] == s[0];
      SkipEolsIdempotent(s + y);
    }
    SameLine(x + y, s + y);
  }

  lemma LineReadablePrefix(x: bytes, y: bytes)
    requires LineReadable(x + y)
    ensures LineReadable(x)
  {
    hide FirstEol, SkipEols;
    SkipEolsSplits(x, y);
    if FirstEol(SkipEols(x)) < |SkipEols(x)| {
      FirstEolSplits(SkipEols(x), y);
    }
  }

  lemma {:induction false} ReadablePrefix(x: bytes, y: bytes, hexlen: nat)
    requires Readable(x + y, hexlen)
    requires !(EndsInSizeLineCr(x, hexlen) && y != [] && y[0] == LF)
    ensures Readable(x, hexlen)
    decreases |x|
  {
    hide ReadLine, LineReadable, LineEndsInCr;
    if x == [] {
    } else if hexlen > 0 {
      if |x| >= hexlen {
        DropConcat(x, y, hexlen);
        ReadablePrefix(x[hexlen..], y, 0);
      }
    } else {
      LineReadablePrefix(x, y);
      var l := ReadLine(x);
      if l.SizeLine? && l.size > 0 {
        LineSplits(x, y);
        ReadablePrefix(l.tail, y, l.size);
      }
    }
  }

  /** Decoding `x` and then what is left of it with `y` is decoding `x + y`. */
  ghost predicate Splits(x: bytes, y: bytes, hexlen: nat) {
    var r := Decode(x, hexlen, true);
    Decode(x + y, hexlen, true) == Prepend(r.out, Decode(r.rest + y, r.hexlen, true))
  }

  lemma {:induction false} SafeCutSplits(x: bytes, y: bytes, hexlen: nat)
    requires Readable(x + y, hexlen)
    requires !(EndsInSizeLineCr(x, hexlen) && y != [] && y[0] == LF)
    requires Decode(x, hexlen, true).stop.More?
    ensures Splits(x, y, hexlen)
    decreases |x|
  {
    hide ReadLine, LineReadable, LineEndsInCr;
    if x == [] {
      assert x + y == y;
      assert Decode(y, hexlen, true).out == [] + Decode(y, hexlen, true).out;
    } else if hexlen > 0 {
      ChunkSplits(x, y, hexlen);
    } else {
      var l := ReadLine(x);
      if l.SizeLine? {
        LineSplits(x, y);
        SafeCutSplits(l.tail, y, l.size);
      } else {
        NoLineSplits(x, y);
        HeldLineSplits(x, y);
      }
    }
  }

  lemma {:induction false} ChunkSplits(x: bytes, y: bytes, hexlen: nat)
    requires x != [] && hexlen > 0
    requires Readable(x + y, hexlen)
    requires !(EndsInSizeLineCr(x, hexlen) && y != [] && y[0] == LF)
    requires Decode(x, hexlen, true).stop.More?
    ensures Splits(x, y, hexlen)
    decreases |x|, 0
  {
    hide ReadLine, LineReadable, LineEndsInCr;
    var z := x + y;
    if |x| < hexlen {
      ChunkDataSplits(x, y, hexlen);
      assert [] + y == y;
    } else {
      assert z[..hexlen] == x[..hexlen] && z[hexlen..] == x[hexlen..] + y;
      SafeCutSplits(x[hexlen..], y, 0);
      var r := Decode(x[hexlen..], 0, true);
      var q := Decode(r.rest + y, r.hexlen, true);
      assert (x[..hexlen] + r.out) + q.out == x[..hexlen] + (r.out + q.out);
    }
  }

  lemma HeldLineSplits(x: bytes, y: bytes)
    requires x != [] && ReadLine(x).NoLine?
    ensures Splits(x, y, 0)
  {
    hide FirstEol, Strtoul, SkipEols;
    NoLineSplits(x, y);
    var s := ReadLine(x).held;
    var q := Decode(s + y, 0, true);
    assert q.out == [] + q.out;
    if s + y == [] {
      assert SkipEols([]) == [];
    }
  }
}
