/** Whole runs of the stream decoder: how the input is cut and when it is flushed does not matter. */
module DechunkRuns {
  import opened Bytes
  import opened HexNumbers
  import opened Chunked
  import opened Dechunk

  datatype Event = Feed(data: bytes) | Flush

  /** A run from the initial context: every update so far succeeded, the output, the context. */
  function Run(events: seq<Event>, eager: bool): (s: Step)
    ensures s.ctx.hexlen > 0 ==> |s.ctx.buffer| < s.ctx.hexlen
  {
    if events == [] then Step(true, [], Initial)
    else
      var s := Run(events[..|events| - 1], eager);
      match events[|events| - 1]
      case Feed(data) =>
        var t := Updated(s.ctx, data, eager);
        Step(s.ok && t.ok, s.out + t.out, t.ctx)
      case Flush =>
        var t := Flushed(s.ctx);
        Step(s.ok, s.out + t.out, t.ctx)
  }

  /** Everything fed in a run. */
  function Fed(events: seq<Event>): bytes {
    if events == [] then []
    else
      var last := events[|events| - 1];
      Fed(events[..|events| - 1]) + if last.Feed? then last.data else []
  }

  /** No feed starts with the LF that belongs to a size line's CR at the end of what was fed before. */
  predicate CleanCuts(events: seq<Event>) {
    events == [] ||
    var before, last := events[..|events| - 1], events[|events| - 1];
    && CleanCuts(before)
    && (last.Feed? && last.data != [] && last.data[0] == LF ==> !EndsInSizeLineCr(Fed(before), 0))
  }

  /** What a run has decoded, counting the held part of a chunk as passed on. */
  ghost predicate Matches(s: Step, fed: bytes) {
    var r := Decode(fed, 0, true);
    if s.ctx.zeroed then
      r.stop == Zero && s.out == r.out && s.ctx == Context(SkipEols(r.rest), 0, true)
    else
      (s.ctx.hexlen > 0 ==> |s.ctx.buffer| <= s.ctx.hexlen) &&
      Settle(Result(s.out, s.ctx.buffer, s.ctx.hexlen, More)) == r
  }

  /** What is decoded of all input is what came out before and what the held data gives with the new. */
  lemma FeedContinues(s: Step, fed: bytes, data: bytes)
    requires Matches(s, fed) && !s.ctx.zeroed && Readable(fed + data, 0)
    requires s.ctx.hexlen > 0 ==> |s.ctx.buffer| < s.ctx.hexlen
    requires !(EndsInSizeLineCr(fed, 0) && data != [] && data[0] == LF)
    ensures Decode(fed + data, 0, true) == Prepend(s.out, Decode(s.ctx.buffer + data, s.ctx.hexlen, true))
  {
    hide Decode, Readable, EndsInSizeLineCr, SkipEols, FirstEol;
    SafeCutSplits(fed, data, 0);
    var c := s.ctx;
    if c.hexlen > 0 {
      ChunkDataSplits(c.buffer, data, c.hexlen);
      assert [] + data == data;
      var w := Decode(data, c.hexlen - |c.buffer|, true);
      assert (s.out + c.buffer) + w.out == s.out + (c.buffer + w.out);
    }
  }

  lemma FeedMatches(s: Step, fed: bytes, data: bytes, eager: bool)
    requires Matches(s, fed) && !s.ctx.zeroed && Updated(s.ctx, data, eager).ok
    requires s.ctx.hexlen > 0 ==> |s.ctx.buffer| < s.ctx.hexlen
    requires Readable(fed + data, 0)
    requires !(EndsInSizeLineCr(fed, 0) && data != [] && data[0] == LF)
    ensures var t := Updated(s.ctx, data, eager); Matches(Step(true, s.out + t.out, t.ctx), fed + data)
  {
    hide Decode, Readable, EndsInSizeLineCr, SkipEols, FirstEol;
    FeedContinues(s, fed, data);
    var c := s.ctx;
    var q := Decode(c.buffer + data, c.hexlen, eager);
    EagerSettles(c.buffer + data, c.hexlen, eager);
    assert s.out + (q.out + q.rest) == (s.out + q.out) + q.rest;
  }

  lemma {:induction false} RunMatches(events: seq<Event>, eager: bool)
    requires Run(events, eager).ok && CleanCuts(events) && Readable(Fed(events), 0)
    ensures Matches(Run(events, eager), Fed(events))
  {
    hide Decode, Readable, EndsInSizeLineCr, SkipEols, FirstEol, Updated;
    if events == [] {
      assert Decode([], 0, true) == Result([], [], 0, More) by { EmptyDecodes(); }
    } else {
      var before, last := events[..|events| - 1], events[|events| - 1];
      var s := Run(before, eager);
      if last.Flush? {
        assert Fed(events) == Fed(before);
        RunMatches(before, eager);
        assert s.out + [] == s.out;
        assert (s.out + s.ctx.buffer) + [] == s.out + s.ctx.buffer;
      } else {
        assert !s.ctx.zeroed by { UpdateNeedsOpen(s.ctx, last.data, eager); }
        ReadablePrefix(Fed(before), last.data, 0);
        RunMatches(before, eager);
        FeedMatches(s, Fed(before), last.data, eager);
      }
    }
  }

  /** A successful run has seen the terminator exactly when its input, taken as a whole, reaches one. */
  lemma DoneIffTerminated(events: seq<Event>, eager: bool)
    requires Run(events, eager).ok && CleanCuts(events) && Readable(Fed(events), 0)
    ensures Run(events, eager).ctx.zeroed <==> Decode(Fed(events), 0, true).stop == Zero
  {
    hide Decode, Readable, EndsInSizeLineCr, SkipEols, Run;
    RunMatches(events, eager);
  }

  lemma EmptyDecodes() ensures Decode([], 0, true) == Result([], [], 0, More) {}

  lemma UpdateNeedsOpen(c: Context, data: bytes, eager: bool)
    requires Updated(c, data, eager).ok
    ensures !c.zeroed
  {}

  /** The held part of a chunk, and how much of the chunk is still to come after it. */
  function Held(c: Context): bytes { if c.hexlen > 0 then c.buffer else [] }
  function Missing(c: Context): int { if c.hexlen > 0 then c.hexlen - |c.buffer| else 0 }

  /**
   * Any successful run, however the input is cut and whenever it is flushed, with or without
   * FLUSH_FULL, ends like one feed of the whole input: the same bytes decoded, the same bytes left.
   */
  lemma FragmentationIndependent(events: seq<Event>, eager: bool, eagerWhole: bool)
    requires Run(events, eager).ok && CleanCuts(events) && Readable(Fed(events), 0)
    ensures var r, w := Run(events, eager), Run([Feed(Fed(events))], eagerWhole);
      && w.ok && r.ctx.zeroed == w.ctx.zeroed
      && (r.ctx.zeroed ==> r.out == w.out && r.ctx == w.ctx)
      && r.out + Held(r.ctx) == w.out + Held(w.ctx)
      && Missing(r.ctx) == Missing(w.ctx)
      && (Missing(r.ctx) == 0 ==> r.ctx.buffer == w.ctx.buffer)
  {
    hide Decode, Readable, EndsInSizeLineCr, SkipEols, FirstEol;
    var x := Fed(events);
    RunMatches(events, eager);
    EagerSettles(x, 0, eagerWhole);
    var whole := [Feed(x)];
    assert whole[..0] == [] && Fed(whole[..0]) == [];
    assert [] + x == x;
    assert Fed(whole) == x;
    assert CleanCuts(whole) by { EmptyHasNoCr(); }
    RunMatches(whole, eagerWhole);
    var r, w := Run(events, eager), Run(whole, eagerWhole);
    assert !r.ctx.zeroed ==> r.out + Held(r.ctx) == Decode(x, 0, true).out by {
      assert r.out + [] == r.out;
    }
    assert !w.ctx.zeroed ==> w.out + Held(w.ctx) == Decode(x, 0, true).out by {
      assert w.out + [] == w.out;
    }
  }

  lemma EmptyHasNoCr() ensures !EndsInSizeLineCr([], 0) {}

  /**
   * The condition on cuts is exact: a cut behind `x` is harmless for every continuation just when
   * `x` does not end in a size line's CR.
   */
  lemma CutIsSafeIff(x: bytes)
    requires Readable(x, 0) && Decode(x, 0, true).stop.More?
    ensures (forall y :: Readable(x + y, 0) ==> Splits(x, y, 0)) <==> !EndsInSizeLineCr(x, 0)
  {
    hide Decode, Readable, EndsInSizeLineCr, Splits;
    if !EndsInSizeLineCr(x, 0) {
      forall y | Readable(x + y, 0) ensures Splits(x, y, 0) {
        SafeCutSplits(x, y, 0);
      }
    } else {
      LfAfterCrBreaks(x, 0);
      assert Readable(x + [LF], 0) && !Splits(x, [LF], 0);
    }
  }

  /** The LF that should end the size line is taken for the first byte of the chunk. */
  lemma {:induction false} LfAfterCrBreaks(x: bytes, hexlen: nat)
    requires EndsInSizeLineCr(x, hexlen) && Readable(x, hexlen)
    ensures Readable(x + [LF], hexlen) && !Splits(x, [LF], hexlen)
    ensures Decode(x, hexlen, true).rest == [] && Decode(x, hexlen, true).hexlen > 0
    ensures Decode(x + [LF], hexlen, true).hexlen == Decode(x, hexlen, true).hexlen
    decreases |x|
  {
    hide ReadLine, LineEndsInCr, LineReadable;
    var y := [LF];
    var z := x + y;
    var r := Decode(x, hexlen, true);
    if hexlen > 0 {
      DropConcat(x, y, hexlen);
      LfAfterCrBreaks(x[hexlen..], 0);
    } else {
      var l := ReadLine(x);
      if LineEndsInCr(x) {
        CrLfIsOneEnd(x);
        assert r == Decode([], l.size, true) && Decode(z, 0, true) == r;
      } else {
        assert LineReadable(z) by { LineReadableExtends(x, y); }
        LineSplits(x, y);
        LfAfterCrBreaks(l.tail, l.size);
      }
    }
    assert r.hexlen > 0 && r.rest == [];
    assert r.rest + y == y;
    LfIsCounted(r.hexlen);
  }

  lemma LfIsCounted(hexlen: nat)
    requires hexlen > 0
    ensures Decode([LF], hexlen, true).hexlen == hexlen - 1
  {
    if hexlen == 1 {
      assert [LF][1..] == [];
    }
  }

  lemma LineReadableExtends(x: bytes, y: bytes)
    requires LineReadable(x) && ReadLine(x).SizeLine?
    ensures LineReadable(x + y)
  {
    hide FirstEol, SkipEols, Strtoul;
    SkipEolsSplits(x, y);
    FirstEolSplits(SkipEols(x), y);
  }

  lemma CrLfIsOneEnd(x: bytes)
    requires LineEndsInCr(x) && ReadLine(x).SizeLine? && LineReadable(x)
    ensures ReadLine(x).tail == []
    ensures LineReadable(x + [LF]) && ReadLine(x + [LF]) == ReadLine(x)
  {
    hide FirstEol, SkipEols, Strtoul;
    var s := SkipEols(x);
    SkipEolsSplits(x, [LF]);
    FirstEolSplits(s, [LF]);
    StrtoulReadsOneLine(s, [LF]);
  }

  // What the message parser relies on when a chunked body ends.

  ghost predicate IsSuffix(r: bytes, x: bytes) { |r| <= |x| && r == x[|x| - |r|..] }

  lemma LineIsSuffix(x: bytes)
    ensures match ReadLine(x) case NoLine(s) => IsSuffix(s, x) case BadLine(s) => IsSuffix(s, x)
      case SizeLine(_, t) => IsSuffix(t, x)
  {
    hide FirstEol, Strtoul, EolRun;
  }

  lemma SuffixTransitive(r: bytes, t: bytes, x: bytes)
    requires IsSuffix(r, t) && IsSuffix(t, x)
    ensures IsSuffix(r, x)
  {}

  lemma {:induction false} RestIsSuffix(x: bytes, hexlen: nat, eager: bool)
    ensures IsSuffix(Decode(x, hexlen, eager).rest, x)
    decreases |x|
  {
    hide ReadLine, IsSuffix;
    var r := Decode(x, hexlen, eager).rest;
    if x == [] || (hexlen > 0 && |x| < hexlen) {
      assert IsSuffix([], x) && IsSuffix(x, x) by { EndsAreSuffixes(x); }
    } else if hexlen > 0 {
      RestIsSuffix(x[hexlen..], 0, eager);
      assert IsSuffix(x[hexlen..], x) by { DropIsSuffix(x, hexlen); }
      SuffixTransitive(r, x[hexlen..], x);
    } else {
      LineIsSuffix(x);
      var l := ReadLine(x);
      if l.SizeLine? && l.size > 0 {
        RestIsSuffix(l.tail, l.size, eager);
        SuffixTransitive(r, l.tail, x);
      }
    }
  }

  lemma EndsAreSuffixes(x: bytes) ensures IsSuffix([], x) && IsSuffix(x, x) {}

  lemma DropIsSuffix(x: bytes, n: nat)
    requires n <= |x|
    ensures IsSuffix(x[n..], x)
  {}

  /** What is held when a call starts is used up by the time the terminator is found. */
  lemma HeldIsConsumed(c: Context, data: bytes, eager: bool)
    requires Resumable(c) && !c.zeroed
    ensures var r := Decode(c.buffer + data, c.hexlen, eager); r.stop == Zero ==> |r.rest| <= |data|
  {
    hide SkipEols, Strtoul, FirstEol;
    var x := c.buffer + data;
    if x != [] && c.hexlen > 0 {
      if |x| >= c.hexlen { RestIsSuffix(x[c.hexlen..], 0, eager); }
    } else if x != [] {
      var l := ReadLine(x);
      if l.SizeLine? {
        LineEndIsNew(c.buffer, data);
        if l.size > 0 { RestIsSuffix(l.tail, l.size, eager); }
      }
    }
  }

  lemma LineEndIsNew(b: bytes, data: bytes)
    requires FirstEol(b) == |b| && ReadLine(b + data).SizeLine?
    ensures |ReadLine(b + data).tail| <= |data|
  {
    hide FirstEol, Strtoul, SkipEols;
    SkipEolsSplits(b, data);
    if b != [] {
      SkipEolsIdempotent(b);
      var s := b + data;
      assert forall i :: 0 <= i < |b| ==> s[i] == b[i];
      assert FirstEol(s) >= |b|;
    }
  }

  /**
   * When a call reaches the terminator, what it leaves in the decoder is a suffix of the data of
   * that very call, so the caller's `used - leftover` does not underflow and cuts exactly the
   * decoded part.
   */
  lemma LeftoverIsSuffixOfFeed(c: Context, data: bytes, eager: bool)
    requires Resumable(c)
    ensures var s := Updated(c, data, eager);
      s.ok && s.ctx.zeroed ==>
        && |s.ctx.buffer| <= |data|
        && data[|data| - |s.ctx.buffer|..] == s.ctx.buffer
  {
    hide Decode, FirstEol, SkipEols;
    if !c.zeroed {
      var x := c.buffer + data;
      RestIsSuffix(x, c.hexlen, eager);
      HeldIsConsumed(c, data, eager);
      var r := Decode(x, c.hexlen, eager);
      if r.stop == Zero {
        var k := |SkipEols(r.rest)|;
        assert SkipEols(r.rest) == x[|x| - k..];
        assert x[|x| - k..] == data[|data| - k..];
      }
    }
  }

  lemma {:induction false} HeldLineHasNoEnd(x: bytes, hexlen: nat, eager: bool)
    ensures var r := Decode(x, hexlen, eager); r.hexlen == 0 && r.stop.More? ==> FirstEol(r.rest) == |r.rest|
    decreases |x|
  {
    hide ReadLine;
    if x == [] {
    } else if hexlen > 0 {
      if |x| >= hexlen { HeldLineHasNoEnd(x[hexlen..], 0, eager); }
    } else {
      var l := ReadLine(x);
      if l.SizeLine? && l.size > 0 { HeldLineHasNoEnd(l.tail, l.size, eager); }
    }
  }

  /** Successful calls keep the context resumable. */
  lemma ResumableIsKept(c: Context, data: bytes, eager: bool)
    requires Resumable(c)
    ensures Updated(c, data, eager).ok ==> Resumable(Updated(c, data, eager).ctx)
    ensures Resumable(Flushed(c).ctx)
  {
    hide FirstEol, SkipEols;
    HeldLineHasNoEnd(c.buffer + data, c.hexlen, eager);
    if c.hexlen > 0 { HeldLineHasNoEnd([], 0, true); }
  }
}
