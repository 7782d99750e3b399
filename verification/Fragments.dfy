/**
 * Chunked text, cut anywhere and fed piece by piece: when the stream decoder accepts a run, and what
 * both streaming decoders make of it.
 */
module Fragments {
  import opened Bytes
  import opened HexNumbers
  import opened Chunked
  import opened ChunkGrammar
  import opened Dechunk
  import opened DechunkRuns
  import opened ChunkCoding

  // ---- a stop is final

  /** What follows the terminating or an unreadable line changes nothing but what is left. */
  ghost predicate StopIsKept(x: bytes, y: bytes, hexlen: nat) {
    var r, w := Decode(x, hexlen, true), Decode(x + y, hexlen, true);
    && w.stop == r.stop && w.out == r.out
    && (r.stop.Zero? ==> w.rest == r.rest + y || [LF] + w.rest == r.rest + y)
  }

  lemma BadLineSplits(x: bytes, y: bytes)
    requires ReadLine(x).BadLine? && LineReadable(x + y)
    ensures ReadLine(x + y).BadLine?
  {
    hide FirstEol, Strtoul, SkipEols;
    SkipEolsSplits(x, y);
    var s := SkipEols(x);
    FirstEolSplits(s, y);
    StrtoulReadsOneLine(s, y);
  }

  /** A LF that joins the CR of a line belongs to the line. */
  lemma LfJoinsCr(x: bytes, y: bytes)
    requires ReadLine(x).SizeLine? && LineReadable(x + y) && LineEndsInCr(x) && y != [] && y[0] == LF
    ensures ReadLine(x).tail == [] && ReadLine(x + y) == SizeLine(ReadLine(x).size, y[1..])
  {
    hide FirstEol, Strtoul, SkipEols;
    SkipEolsSplits(x, y);
    var s := SkipEols(x);
    var p := FirstEol(s);
    FirstEolSplits(s, y);
    StrtoulReadsOneLine(s, y);
    assert (s + y)[p] == CR && (s + y)[p + 1] == LF && EolLen(s + y, p) == 2;
    assert p + 2 == |s| + 1 && (s + y)[|s| + 1..] == y[1..];
  }

  lemma LastLineIsKept(x: bytes, y: bytes)
    requires x != [] && LineReadable(x + y) && ReadLine(x).SizeLine? && ReadLine(x).size == 0
    ensures StopIsKept(x, y, 0)
  {
    hide ReadLine, LineReadable, LineEndsInCr;
    if LineEndsInCr(x) && y != [] && y[0] == LF {
      LfJoinsCr(x, y);
      assert [LF] + y[1..] == [] + y;
    } else {
      LineSplits(x, y);
    }
  }

  lemma {:induction false} StopIsFinal(x: bytes, y: bytes, hexlen: nat)
    requires Readable(x + y, hexlen) && !Decode(x, hexlen, true).stop.More?
    requires !(EndsInSizeLineCr(x, hexlen) && y != [] && y[0] == LF)
    ensures StopIsKept(x, y, hexlen)
    decreases |x|
  {
    hide ReadLine, LineReadable, LineEndsInCr;
    if hexlen > 0 {
      var z := x + y;
      assert z[..hexlen] == x[..hexlen] && z[hexlen..] == x[hexlen..] + y;
      StopIsFinal(x[hexlen..], y, 0);
    } else {
      var l := ReadLine(x);
      if l.BadLine? {
        BadLineSplits(x, y);
      } else if l.size == 0 {
        LastLineIsKept(x, y);
      } else {
        LineSplits(x, y);
        StopIsFinal(l.tail, y, l.size);
      }
    }
  }

  // ---- which runs succeed

  /** Nothing, not even an empty piece, is fed once the terminating line is complete. */
  ghost predicate EndsInTime(events: seq<Event>) {
    events == [] ||
    var before, last := events[..|events| - 1], events[|events| - 1];
    EndsInTime(before) && (last.Feed? ==> !Decode(Fed(before), 0, true).stop.Zero?)
  }

  lemma FeedSucceedsIff(s: Step, fed: bytes, data: bytes, eager: bool)
    requires Matches(s, fed) && Readable(fed + data, 0)
    requires s.ctx.hexlen > 0 ==> |s.ctx.buffer| < s.ctx.hexlen
    requires !(EndsInSizeLineCr(fed, 0) && data != [] && data[0] == LF)
    ensures Updated(s.ctx, data, eager).ok <==>
      !Decode(fed, 0, true).stop.Zero? && !Decode(fed + data, 0, true).stop.Bad?
  {
    hide Decode, Readable, EndsInSizeLineCr, SkipEols, FirstEol;
    if !s.ctx.zeroed {
      FeedContinues(s, fed, data);
      EagerSettles(s.ctx.buffer + data, s.ctx.hexlen, eager);
    }
  }

  /**
   * Whether a run succeeds does not depend on how its input is cut either: it does just when no
   * size line of the input is unreadable and nothing is fed after the end.
   */
  lemma {:induction false} RunSucceedsIff(events: seq<Event>, eager: bool)
    requires CleanCuts(events) && Readable(Fed(events), 0)
    ensures Run(events, eager).ok <==> EndsInTime(events) && !Decode(Fed(events), 0, true).stop.Bad?
  {
    hide Decode, Readable, EndsInSizeLineCr, Updated, Matches, SkipEols, FirstEol;
    if events == [] {
      EmptyDecodes();
    } else {
      var before, last := events[..|events| - 1], events[|events| - 1];
      if last.Flush? {
        assert Fed(events) == Fed(before);
        RunSucceedsIff(before, eager);
      } else {
        ReadablePrefix(Fed(before), last.data, 0);
        RunSucceedsIff(before, eager);
        if Run(before, eager).ok {
          RunMatches(before, eager);
          FeedSucceedsIff(Run(before, eager), Fed(before), last.data, eager);
        } else if Decode(Fed(before), 0, true).stop.Bad? {
          StopIsFinal(Fed(before), last.data, 0);
        }
      }
    }
  }

  // ---- chunked text

  lemma InputDecides(x: bytes, out: bytes, trail: bytes, events: seq<Event>, eager: bool)
    requires Readable(x, 0) && Decode(x, 0, true) == Result(out, trail, 0, Zero)
    requires Fed(events) == x && CleanCuts(events)
    ensures Run(events, eager).ok <==> EndsInTime(events)
    ensures Run(events, eager).ok ==> Run(events, eager) == Step(true, out, Context(SkipEols(trail), 0, true))
  {
    hide Decode, Readable, EndsInSizeLineCr, SkipEols, Run, CleanCuts, EndsInTime, Fed;
    RunSucceedsIff(events, eager);
    if Run(events, eager).ok { RunMatches(events, eager); }
  }

  /**
   * However a chunked text is cut and flushed, the stream decoder accepts it just when nothing is fed
   * after the end, and then it has decoded the data and holds what trails the text.
   */
  lemma FragmentsDecodeText(fs: seq<Frame>, last: SizeText, trail: bytes, events: seq<Event>, eager: bool)
    requires TextOk(fs, last, trail)
    requires Fed(events) == Text(fs, last) + trail && CleanCuts(events)
    ensures Run(events, eager).ok <==> EndsInTime(events)
    ensures Run(events, eager).ok ==>
      Run(events, eager) == Step(true, Concat(Datas(fs)), Context(SkipEols(trail), 0, true))
  {
    hide Decode, Readable, SkipEols, Text, TextOk, Run, CleanCuts, EndsInTime, Fed, Concat, Datas;
    TextDecodes(fs, last, trail, true);
    InputDecides(Text(fs, last) + trail, Concat(Datas(fs)), trail, events, eager);
  }

  /** So it does with the encoder's output, and gives the blocks. */
  lemma FragmentsDecode(blocks: seq<bytes>, trail: bytes, events: seq<Event>, eager: bool)
    requires Sized(blocks) && NoneEmpty(blocks)
    requires Fed(events) == Encode(blocks) + trail && CleanCuts(events)
    ensures Run(events, eager).ok <==> EndsInTime(events)
    ensures Run(events, eager).ok ==>
      Run(events, eager) == Step(true, Concat(blocks), Context(SkipEols(trail), 0, true))
  {
    hide SkipEols, Text, TextOk, Run, CleanCuts, EndsInTime, Fed, Encode;
    EncodedIsText(blocks, trail);
    FragmentsDecodeText(AllFramed(blocks), ZeroLine, CRLF + trail, events, eager);
    GapIsSkipped(CRLF, trail);
  }

  // ---- the decoding filter

  datatype Call = Call(data: bytes, inc: bool)

  function Feeds(calls: seq<Call>): seq<Event> { seq(|calls|, i requires 0 <= i < |calls| => Feed(calls[i].data)) }

  /** Calls of the filter before it is closed; each may or may not flush. */
  function FilterRun(calls: seq<Call>): Filtered {
    if calls == [] then Filtered(true, [], [], 0)
    else
      var s, c := FilterRun(calls[..|calls| - 1]), calls[|calls| - 1];
      var t := FilterCall(s.buffer, s.hexlen, c.data, c.inc, false);
      Filtered(s.ok && t.ok, s.out + t.out, t.buffer, t.hexlen)
  }

  /** The filter has decoded what the input says so far; behind the terminator it holds line ends only. */
  ghost predicate FilterMatches(s: Filtered, fed: bytes) {
    var r := Decode(fed, 0, true);
    s.ok && (s.hexlen > 0 ==> |s.buffer| < s.hexlen) &&
    if r.stop.Zero? then s.out == r.out && s.hexlen == 0 && AllEols(s.buffer)
    else Settle(Result(s.out, s.buffer, s.hexlen, More)) == r
  }

  lemma EolsDecodeToNothing(x: bytes, inc: bool)
    requires AllEols(x)
    ensures Decode(x, 0, inc) == Result([], [], 0, More)
  {
    hide FirstEol, Strtoul, EolRun;
    EolRunUnique(x, |x|);
    assert SkipEols(x) == [];
  }

  /** Behind the last size line only line ends follow. */
  lemma OnlyEolsFollow(fs: seq<Frame>, last: SizeText, end: bytes, x: bytes, y: bytes)
    requires TextOk(fs, last, end) && AllEols(end) && x + y == Text(fs, last) + end
    requires !(EndsInSizeLineCr(x, 0) && y != [] && y[0] == LF)
    ensures !Decode(x, 0, true).stop.Bad?
    ensures var r := Decode(x, 0, true); r.stop.Zero? ==> AllEols(r.rest + y) && r.out == Concat(Datas(fs))
  {
    hide Decode, Readable, EndsInSizeLineCr, Text, TextOk;
    TextDecodes(fs, last, end, true);
    if !Decode(x, 0, true).stop.More? {
      StopIsFinal(x, y, 0);
    }
  }

  lemma FilterStep(fs: seq<Frame>, last: SizeText, end: bytes, s: Filtered, fed: bytes, c: Call, y: bytes)
    requires TextOk(fs, last, end) && AllEols(end)
    requires FilterMatches(s, fed) && fed + c.data + y == Text(fs, last) + end
    requires !(EndsInSizeLineCr(fed, 0) && c.data + y != [] && (c.data + y)[0] == LF)
    requires !(EndsInSizeLineCr(fed + c.data, 0) && y != [] && y[0] == LF)
    ensures var t := FilterCall(s.buffer, s.hexlen, c.data, c.inc, false);
      FilterMatches(Filtered(s.ok && t.ok, s.out + t.out, t.buffer, t.hexlen), fed + c.data)
  {
    hide Decode, Readable, EndsInSizeLineCr, Text, TextOk, SkipEols, FirstEol;
    var all, d := fed + c.data, c.data;
    assert fed + (d + y) == all + y;
    OnlyEolsFollow(fs, last, end, fed, d + y);
    OnlyEolsFollow(fs, last, end, all, y);
    TextDecodes(fs, last, end, true);
    ReadablePrefix(all, y, 0);
    if Decode(fed, 0, true).stop.Zero? {
      EolsAfterEnd(s, fed, c, y);
    } else {
      var u := Step(true, s.out, Context(s.buffer, s.hexlen, false));
      FeedContinues(u, fed, d);
      SettledFilter(s, fed, c, y);
    }
  }

  lemma EolsAfterEnd(s: Filtered, fed: bytes, c: Call, y: bytes)
    requires FilterMatches(s, fed) && Readable(fed + c.data, 0) && Decode(fed, 0, true).stop.Zero?
    requires AllEols(Decode(fed, 0, true).rest + (c.data + y))
    requires !(EndsInSizeLineCr(fed, 0) && c.data != [] && c.data[0] == LF)
    ensures var t := FilterCall(s.buffer, s.hexlen, c.data, c.inc, false);
      FilterMatches(Filtered(s.ok && t.ok, s.out + t.out, t.buffer, t.hexlen), fed + c.data)
  {
    hide Decode, Readable, EndsInSizeLineCr, SkipEols, FirstEol;
    var r, d := Decode(fed, 0, true), c.data;
    assert AllEols(d) by {
      assert forall i :: 0 <= i < |d| ==> d[i] == (r.rest + (d + y))[|r.rest| + i];
    }
    EolsDecodeToNothing(s.buffer + d, c.inc);
    StopIsFinal(fed, d, 0);
    assert s.out + [] == s.out;
  }

  lemma SettledFilter(s: Filtered, fed: bytes, c: Call, y: bytes)
    requires FilterMatches(s, fed)
    requires Decode(fed + c.data, 0, true) == Prepend(s.out, Decode(s.buffer + c.data, s.hexlen, true))
    requires var r := Decode(fed + c.data, 0, true); !r.stop.Bad? && (r.stop.Zero? ==> AllEols(r.rest + y))
    ensures var t := FilterCall(s.buffer, s.hexlen, c.data, c.inc, false);
      FilterMatches(Filtered(s.ok && t.ok, s.out + t.out, t.buffer, t.hexlen), fed + c.data)
  {
    hide Decode, SkipEols, FirstEol;
    var q := Decode(s.buffer + c.data, s.hexlen, c.inc);
    EagerSettles(s.buffer + c.data, s.hexlen, c.inc);
    assert s.out + (q.out + q.rest) == (s.out + q.out) + q.rest;
    if q.stop.Zero? {
      assert forall i :: 0 <= i < |q.rest| ==> q.rest[i] == (q.rest + y)[i];
    }
  }

  lemma {:induction false} FilterRunMatches(fs: seq<Frame>, last: SizeText, end: bytes, calls: seq<Call>, y: bytes)
    requires TextOk(fs, last, end) && AllEols(end)
    requires Fed(Feeds(calls)) + y == Text(fs, last) + end && CleanCuts(Feeds(calls))
    requires !(EndsInSizeLineCr(Fed(Feeds(calls)), 0) && y != [] && y[0] == LF)
    ensures FilterMatches(FilterRun(calls), Fed(Feeds(calls)))
    decreases |calls|
  {
    hide Decode, EndsInSizeLineCr, Text, TextOk, FilterCall, FilterMatches;
    if calls == [] {
      assert FilterMatches(Filtered(true, [], [], 0), []) by { NothingFiltered(); }
    } else {
      var before, c := calls[..|calls| - 1], calls[|calls| - 1];
      var es := Feeds(calls);
      assert es[..|es| - 1] == Feeds(before) && es[|es| - 1] == Feed(c.data);
      var fed := Fed(Feeds(before));
      assert Fed(es) == fed + c.data;
      assert fed + (c.data + y) == (fed + c.data) + y;
      if c.data == [] {
        assert fed + [] == fed && [] + y == y;
      } else {
        assert (c.data + y)[0] == c.data[0];
      }
      FilterRunMatches(fs, last, end, before, c.data + y);
      FilterStep(fs, last, end, FilterRun(before), fed, c, y);
    }
  }

  lemma NothingFiltered()
    ensures FilterMatches(Filtered(true, [], [], 0), [])
  {}

  /**
   * The decoding filter decodes a chunked text, with line ends behind it, however it is cut into
   * calls, whichever of them flush.
   */
  lemma FilterDecodesTextFragments(fs: seq<Frame>, last: SizeText, end: bytes, calls: seq<Call>)
    requires TextOk(fs, last, end) && AllEols(end)
    requires Fed(Feeds(calls)) == Text(fs, last) + end && CleanCuts(Feeds(calls))
    ensures var s := FilterRun(calls); s.ok && s.out == Concat(Datas(fs)) && s.hexlen == 0 && AllEols(s.buffer)
  {
    hide Decode, EndsInSizeLineCr, Text, TextOk, FilterRun, Feeds, CleanCuts;
    var x := Text(fs, last) + end;
    assert x + [] == x;
    FilterRunMatches(fs, last, end, calls, []);
    TextDecodes(fs, last, end, true);
  }

  /** So it does with the encoder's output. */
  lemma FilterDecodesFragments(blocks: seq<bytes>, calls: seq<Call>)
    requires Sized(blocks) && NoneEmpty(blocks)
    requires Fed(Feeds(calls)) == Encode(blocks) && CleanCuts(Feeds(calls))
    ensures var s := FilterRun(calls); s.ok && s.out == Concat(blocks) && s.hexlen == 0 && AllEols(s.buffer)
  {
    hide Encode, Text, TextOk, FilterRun, Feeds, CleanCuts, Fed;
    EncodedIsText(blocks, []);
    assert Encode(blocks) + [] == Encode(blocks) && CRLF + [] == CRLF;
    FilterDecodesTextFragments(AllFramed(blocks), ZeroLine, CRLF, calls);
  }
}
