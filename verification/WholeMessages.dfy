/** Whole messages: a head that is read piece by piece, and the body that its headers delimit, however both are cut. */
module WholeMessages {
  import opened Bytes
  import opened Messages
  import opened MessageParser
  import H = HeaderParser
  import L = HeaderLines
  import K = HeaderCuts
  import Dechunk
  import D = DechunkRuns
  import C = ChunkedMessages
  import ChunkCoding
  import G = ChunkGrammar
  import Fragments
  import HexNumbers

  // ---- runs of calls

  lemma {:induction false} CallsConcat(env: Env, m: Machine, xs: seq<Call>, ys: seq<Call>)
    requires AtRest(m)
    ensures var (k, ss) := Calls(env, m, xs); var (n, ts) := Calls(env, k, ys);
      Calls(env, m, xs + ys) == (n, ss + ts)
    decreases |xs|
  {
    hide Run, AtRest;
    if xs == [] {
      assert xs + ys == ys;
      assert [] + Calls(env, m, ys).1 == Calls(env, m, ys).1;
    } else {
      assert (xs + ys)[0] == xs[0] && (xs + ys)[1..] == xs[1..] + ys;
      Refilled(m, xs[0].data);
      var (n, s) := Run(env, xs[0].flags, m.(buffer := m.buffer + xs[0].data));
      CallsConcat(env, n, xs[1..], ys);
      var (k, ss) := Calls(env, n, xs[1..]);
      SeqAssoc([s], ss, Calls(env, k, ys).1);
    }
  }

  /** The first call decides; the others go on from where it ends. */
  lemma FirstCall(env: Env, m: Machine, n: Machine, c: Call, e: Call, cs: seq<Call>)
    requires AtRest(m) && AtRest(n)
    requires Inv(m.(buffer := m.buffer + c.data)) && Inv(n.(buffer := n.buffer + e.data))
    requires Run(env, c.flags, m.(buffer := m.buffer + c.data)) == Run(env, e.flags, n.(buffer := n.buffer + e.data))
    ensures Calls(env, m, [c] + cs) == Calls(env, n, [e] + cs)
  {
    hide Run, AtRest, Inv;
    assert ([c] + cs)[0] == c && ([c] + cs)[1..] == cs;
    assert ([e] + cs)[0] == e && ([e] + cs)[1..] == cs;
  }

  // ---- the head

  /** A piece of the head, in one call. */
  datatype HeadCall = HeadCall(data: bytes, flags: Flags)

  /** The call that ends a head, as far as it belongs to it, and all lines of the head. */
  datatype HeadEnd = HeadEnd(all: seq<L.Line>, data: bytes, flags: Flags)

  function AsCalls(hs: seq<HeadCall>): seq<Call> {
    if hs == [] then [] else [Call(hs[0].data, hs[0].flags)] + AsCalls(hs[1..])
  }

  function Pieces(hs: seq<HeadCall>): seq<bytes> { if hs == [] then [] else [hs[0].data] + Pieces(hs[1..]) }

  function Unread(msgs: seq<Message>): L.Fold { L.Fold(None, msgs, false) }

  /** The parser in the middle of a head. */
  function HeadMid(h: H.Machine): Machine {
    Machine([HEADER], h.stack, h.key, h.val, 0, None, h.buffer, h.msgs, [], 0)
  }

  function HeadAt(f: L.Fold, buffer: bytes): Machine { HeadMid(L.At(f, buffer)) }

  /** The parser behind the blank line, with the rest of the call's data. */
  function HeadDone(ms: seq<Message>, d: bytes): Machine { Fresh(ms).(stack := [HEADER_DONE], buffer := d) }

  predicate StartsWell(ls: seq<L.Line>) { ls != [] ==> ls[0].text != [] && !IsSpace(ls[0].text[0]) }

  lemma HeadIsInv(f: L.Fold, b: bytes)
    ensures Inv(HeadAt(f, b)) && Runs(HeadAt(f, b)) && AtRest(HeadAt(f, []))
  {}

  lemma DoneIsInv(ms: seq<Message>, d: bytes) ensures Inv(HeadDone(ms, d)) {}

  /** A HEADER pass hands over to the header parser. */
  lemma HeaderPass(env: Env, fl: Flags, m: Machine)
    requires Inv(m) && m.stack == [HEADER]
    ensures Runs(m) && Step(env, fl, m) == HeaderStep(env, fl, m.(stack := []))
  {
    hide HeaderOk, HeaderStep, Dechunk.Resumable;
    assert Pop(m.stack) == [];
  }

  lemma HeaderStepDone(env: Env, fl: Flags, h: H.Machine, d: bytes, ms: seq<Message>)
    requires H.Run(env.info, fl.cleanup, h) == (H.Machine([], None, None, d, ms), H.DONE)
    ensures HeaderStep(env, fl, HeadMid(h).(stack := [])) == Go(HeadDone(ms, d))
  {
    hide H.Run;
    assert [] + [HEADER_DONE] == [HEADER_DONE];
    assert HeaderMachine(HeadMid(h).(stack := [])) == h;
  }

  lemma HeaderStepReturns(env: Env, fl: Flags, h: H.Machine, n: H.Machine, s: H.HState)
    requires H.Run(env.info, false, h) == (n, s) && s != H.FAILURE && s != H.DONE && !fl.cleanup
    ensures HeaderStep(env, fl, HeadMid(h).(stack := [])) == Return(HeadMid(n), HEADER)
  {
    hide H.Run;
    assert [] + [HEADER] == [HEADER];
    assert HeaderMachine(HeadMid(h).(stack := [])) == h;
  }

  lemma MidIsInv(h: H.Machine)
    requires HeaderOk(h.stack)
    ensures Inv(HeadMid(h)) && Runs(HeadMid(h)) && AtRest(HeadMid(h))
  {}

  /** A piece without the end of the head: the parser waits for more. */
  lemma HeadGoesOn(env: Env, fl: Flags, h: H.Machine, n: H.Machine, s: H.HState)
    requires HeaderOk(h.stack) && H.Run(env.info, false, h) == (n, s) && s != H.FAILURE && s != H.DONE && !fl.cleanup
    ensures HeaderOk(n.stack) && Inv(HeadMid(h)) && Run(env, fl, HeadMid(h)) == (HeadMid(n), HEADER)
  {
    hide H.Run, HeaderStep, Step, Run, Inv, AtRest;
    HeaderRunConsumes(env.info, false, h);
    MidIsInv(h);
    HeaderPass(env, fl, HeadMid(h));
    HeaderStepReturns(env, fl, h, n, s);
    ReturnRuns(env, fl, HeadMid(h), HeadMid(n), HEADER);
  }

  /** The piece with the end of the head: it is done, and what follows it is still there. */
  lemma HeadCloses(env: Env, fl: Flags, h: H.Machine, d: bytes, ms: seq<Message>)
    requires HeaderOk(h.stack) && H.Run(env.info, fl.cleanup, h) == (H.Machine([], None, None, d, ms), H.DONE)
    ensures Inv(HeadMid(h)) && Inv(HeadDone(ms, d)) && Run(env, fl, HeadMid(h)) == Run(env, fl, HeadDone(ms, d))
  {
    hide H.Run, HeaderStep, Step, Run, Inv, AtRest;
    MidIsInv(h);
    HeaderPass(env, fl, HeadMid(h));
    HeaderStepDone(env, fl, h, d, ms);
    GoRuns(env, fl, HeadMid(h), HeadDone(ms, d));
  }

  lemma SameStep(env: Env, fl: Flags, m: Machine, n: Machine)
    requires Inv(m) && Inv(n) && Runs(m) && Runs(n) && Step(env, fl, m) == Step(env, fl, n)
    ensures Run(env, fl, m) == Run(env, fl, n)
  {
    hide Step, Inv;
  }

  lemma FirstPassStrips(env: Env, fl: Flags, msgs: seq<Message>, b: bytes)
    requires b != [] && !IsSpace(b[0])
    ensures var m := Fresh(msgs).(buffer := b);
      Inv(m) && Runs(m) && Step(env, fl, m) == Go(m.(stack := [HEADER]))
  {
    var m := Fresh(msgs).(buffer := b);
    assert SpaceRun(b) == 0 && b[0..] == b;
    assert [] + [HEADER] == [HEADER];
  }

  /** White space in front of a message is dropped; alone it leaves the parser as new. */
  lemma SpaceBeforeMessage(env: Env, fl: Flags, msgs: seq<Message>, a: bytes, b: bytes)
    requires Blank(a) && (b != [] ==> !IsSpace(b[0]))
    ensures var m, n := Fresh(msgs).(buffer := a + b), Fresh(msgs).(buffer := b);
      Inv(m) && Inv(n) && Run(env, fl, m) == Run(env, fl, n)
    ensures b == [] ==> Run(env, fl, Fresh(msgs).(buffer := b)) == (Fresh(msgs), START)
  {
    hide H.Run, Step, Run, Inv;
    var m, n := Fresh(msgs).(buffer := a + b), Fresh(msgs).(buffer := b);
    if b == [] {
      NothingRuns(env, fl, msgs);
      assert n == Fresh(msgs);
      if a == [] {
        assert a + b == b;
      } else {
        SpaceIsStripped(env, fl, msgs, a, b);
        GoRuns(env, fl, m, n);
      }
    } else {
      SpaceIsStripped(env, fl, msgs, a, b);
      assert [] + b == b;
      SpaceIsStripped(env, fl, msgs, [], b);
      SameStep(env, fl, m, n);
    }
  }

  lemma SpaceIsStripped(env: Env, fl: Flags, msgs: seq<Message>, a: bytes, b: bytes)
    requires Blank(a) && (b != [] ==> !IsSpace(b[0])) && a + b != []
    ensures var m := Fresh(msgs).(buffer := a + b);
      Inv(m) && Runs(m) && Step(env, fl, m) == Go(m.(buffer := b, stack := if b != [] then [HEADER] else []))
  {
    hide SpaceRun;
    L.SpacesInFront(a, b);
    assert [] + [HEADER] == [HEADER];
  }

  /** A fresh parser that sees the first byte of a head is in the head. */
  lemma HeadBegins(env: Env, fl: Flags, msgs: seq<Message>, b: bytes)
    requires b != [] && !IsSpace(b[0])
    ensures Inv(Fresh(msgs).(buffer := b)) && Inv(HeadAt(Unread(msgs), b))
    ensures Run(env, fl, Fresh(msgs).(buffer := b)) == Run(env, fl, HeadAt(Unread(msgs), b))
  {
    hide H.Run, HeaderStep, Step, Run, Inv;
    var m, n := Fresh(msgs).(buffer := b, stack := [HEADER]), HeadAt(Unread(msgs), b);
    FirstPassStrips(env, fl, msgs, b);
    GoRuns(env, fl, Fresh(msgs).(buffer := b), m);
    HeadIsInv(Unread(msgs), b);
    HeaderPass(env, fl, m);
    HeaderPass(env, fl, n);
    L.StartRuns(env.info, fl.cleanup, msgs, b);
    SameHeaderStep(env, fl, m, n);
    SameStep(env, fl, m, n);
  }

  lemma SameHeaderStep(env: Env, fl: Flags, m: Machine, n: Machine)
    requires H.Run(env.info, fl.cleanup, HeaderMachine(m)) == H.Run(env.info, fl.cleanup, HeaderMachine(n))
    requires n == m.(hstack := n.hstack, key := n.key, val := n.val, buffer := n.buffer, msgs := n.msgs)
    ensures HeaderStep(env, fl, m.(stack := [])) == HeaderStep(env, fl, n.(stack := []))
  {
    hide H.Run;
    assert HeaderMachine(m.(stack := [])) == HeaderMachine(m) && HeaderMachine(n.(stack := [])) == HeaderMachine(n);
  }

  lemma TextStarts(ls: seq<L.Line>, d: bytes)
    requires ls != [] && StartsWell(ls)
    ensures var b := L.Text(ls) + d; b != [] && !IsSpace(b[0]) && L.Text(ls) != []
  {
    assert (L.Text(ls) + d)[0] == ls[0].text[0];
  }

  lemma NothingRuns(env: Env, fl: Flags, msgs: seq<Message>)
    ensures Inv(Fresh(msgs)) && Run(env, fl, Fresh(msgs)) == (Fresh(msgs), START)
  {}

  /** The header parser in the middle of a head. */
  lemma StandsOk(info: InfoParser, f: L.Fold, ls: seq<L.Line>, t: bytes, h: H.Machine)
    requires K.Stands(info, f, ls, t, h)
    ensures HeaderOk(h.stack)
  {
    hide L.FoldLines, L.TextOk, H.IsName, H.Recognise, L.Close;
  }

  /** Any number of calls with pieces of the head, from behind its beginning on. */
  lemma {:induction false} PiecesRun(env: Env, f: L.Fold, ls: seq<L.Line>, t: bytes, h: H.Machine, hs: seq<HeadCall>)
      returns (g: L.Fold, rest: seq<L.Line>, v: bytes, k: H.Machine)
    requires K.Stands(env.info, f, ls, t, h) && K.CutsOk(env.info, f, ls, |t|, Pieces(hs))
    requires var n := |t| + |Concat(Pieces(hs))|;
      && n < |L.Text(ls)| && Concat(Pieces(hs)) == L.Text(ls)[|t|..n]
    requires forall i :: 0 <= i < |hs| ==> !hs[i].flags.cleanup
    ensures AtRest(HeadMid(h))
    ensures var (m, ss) := Calls(env, HeadMid(h), AsCalls(hs));
      m == HeadMid(k) && |ss| == |hs| && forall i :: 0 <= i < |ss| ==> ss[i] == HEADER
    ensures K.Stands(env.info, g, rest, v, k) && L.FoldLines(env.info, g, rest) == L.FoldLines(env.info, f, ls)
    ensures |v| <= |L.Text(rest)| && L.Text(rest)[|v|..] == L.Text(ls)[|t| + |Concat(Pieces(hs))|..]
    decreases |hs|
  {
    hide Run, Inv, AtRest, H.Run, K.Stands, L.FoldLines, K.CutsOk, L.Text, K.More, Concat;
    StandsOk(env.info, f, ls, t, h);
    MidIsInv(h);
    if hs == [] {
      g, rest, v, k := f, ls, t, h;
      K.NothingConcat();
    } else {
      var d, ds := hs[0].data, Pieces(hs[1..]);
      assert Pieces(hs) == [d] + ds;
      var g1, rest1, v1 := K.OneOfPieces(env.info, f, ls, t, h, d, ds);
      var (h1, s) := H.Run(env.info, false, K.More(h, d));
      PieceRuns(env, hs[0].flags, h, d, h1, s);
      g, rest, v, k := PiecesRun(env, g1, rest1, v1, h1, hs[1..]);
      var calls := AsCalls(hs);
      assert calls[0] == Call(d, hs[0].flags) && calls[1..] == AsCalls(hs[1..]);
    }
  }

  lemma PieceRuns(env: Env, fl: Flags, h: H.Machine, d: bytes, n: H.Machine, s: H.HState)
    requires HeaderOk(h.stack) && !fl.cleanup && H.Run(env.info, false, K.More(h, d)) == (n, s) && K.Waiting(s)
    ensures HeadMid(h).(buffer := HeadMid(h).buffer + d) == HeadMid(K.More(h, d))
    ensures Inv(HeadMid(K.More(h, d))) && Run(env, fl, HeadMid(K.More(h, d))) == (HeadMid(n), HEADER)
  {
    hide H.Run, Run, Inv;
    HeadGoesOn(env, fl, K.More(h, d), n, s);
  }

  /** How far a parser has got that started as new: nowhere yet, or into the head. */
  datatype Progress = Nowhere | Into(f: L.Fold, rest: seq<L.Line>, part: bytes, h: H.Machine)

  ghost predicate Reached(env: Env, msgs: seq<Message>, ls: seq<L.Line>, n: nat, p: Progress, m: Machine) {
    match p
    case Nowhere => n == 0 && m == Fresh(msgs)
    case Into(f, rest, part, h) =>
      && m == HeadMid(h) && K.Stands(env.info, f, rest, part, h)
      && L.FoldLines(env.info, f, rest) == L.FoldLines(env.info, Unread(msgs), ls)
      && |part| <= |L.Text(rest)| && n <= |L.Text(ls)| && L.Text(rest)[|part|..] == L.Text(ls)[n..]
  }

  /** Any number of calls with pieces of the head, from the beginning on. */
  lemma {:induction false} HeadCallsRun(env: Env, msgs: seq<Message>, ls: seq<L.Line>, hs: seq<HeadCall>) returns (p: Progress)
    requires K.Readable(env.info, Unread(msgs), ls) && StartsWell(ls)
    requires K.CutsOk(env.info, Unread(msgs), ls, 0, Pieces(hs)) && forall i :: 0 <= i < |hs| ==> !hs[i].flags.cleanup
    requires var n := |Concat(Pieces(hs))|; n < |L.Text(ls)| && Concat(Pieces(hs)) == L.Text(ls)[..n]
    ensures AtRest(Fresh(msgs))
    ensures var (m, ss) := Calls(env, Fresh(msgs), AsCalls(hs));
      && AtRest(m) && Reached(env, msgs, ls, |Concat(Pieces(hs))|, p, m)
      && |ss| == |hs| && forall i :: 0 <= i < |ss| ==> ss[i] == START || ss[i] == HEADER
    decreases |hs|
  {
    hide Run, Inv, AtRest, K.Stands, L.FoldLines, K.CutOk, L.Text, K.Readable, StartsWell, HeadAt;
    FreshRests(msgs);
    if hs == [] {
      p := Nowhere;
    } else {
      var c, d := hs[0], hs[0].data;
      var calls := AsCalls(hs);
      assert calls[0] == Call(d, c.flags) && calls[1..] == AsCalls(hs[1..]);
      assert Pieces(hs)[0] == d && Pieces(hs)[1..] == Pieces(hs[1..]);
      if d == [] {
        NothingRuns(env, c.flags, msgs);
        assert Fresh(msgs).(buffer := Fresh(msgs).buffer + d) == Fresh(msgs);
        assert Concat(Pieces(hs)) == Concat(Pieces(hs[1..]));
        p := HeadCallsRun(env, msgs, ls, hs[1..]);
      } else {
        p := SomeCallsRun(env, msgs, ls, hs);
      }
    }
  }

  lemma SomeCallsRun(env: Env, msgs: seq<Message>, ls: seq<L.Line>, hs: seq<HeadCall>) returns (p: Progress)
    requires K.Readable(env.info, Unread(msgs), ls) && StartsWell(ls) && hs != [] && hs[0].data != []
    requires K.CutsOk(env.info, Unread(msgs), ls, 0, Pieces(hs)) && forall i :: 0 <= i < |hs| ==> !hs[i].flags.cleanup
    requires var n := |Concat(Pieces(hs))|; n < |L.Text(ls)| && Concat(Pieces(hs)) == L.Text(ls)[..n]
    ensures AtRest(Fresh(msgs))
    ensures var (m, ss) := Calls(env, Fresh(msgs), AsCalls(hs));
      && AtRest(m) && Reached(env, msgs, ls, |Concat(Pieces(hs))|, p, m)
      && |ss| == |hs| && forall i :: 0 <= i < |ss| ==> ss[i] == HEADER
  {
    hide Run, Inv, AtRest, K.Stands, L.FoldLines, K.CutsOk, K.Readable, StartsWell, Calls, L.Text, L.At;
    FreshRests(msgs);
    var f, x, n, c := Unread(msgs), L.Text(ls), |Concat(Pieces(hs))|, Call(hs[0].data, hs[0].flags);
    assert AsCalls(hs) == [c] + AsCalls(hs[1..]);
    FirstByteOf(ls, hs);
    HeadBegins(env, c.flags, msgs, c.data);
    K.AtStart(env.info, f, ls);
    var h := L.At(f, []);
    StandsOk(env.info, f, ls, [], h);
    MidIsInv(h);
    assert [] + c.data == c.data && h.buffer == [] && HeadMid(h).(buffer := c.data) == HeadAt(f, c.data) by { BufferAt(f, c.data); }
    FirstCall(env, Fresh(msgs), HeadMid(h), c, c, AsCalls(hs[1..]));
    assert x[0..n] == x[..n];
    var g, rest, v, k := PiecesRun(env, f, ls, [], h, hs);
    p := Into(g, rest, v, k);
    StandsOk(env.info, g, rest, v, k);
    MidIsInv(k);
  }

  lemma BufferAt(f: L.Fold, b: bytes)
    ensures L.At(f, []).buffer == [] && HeadMid(L.At(f, [])).(buffer := b) == HeadAt(f, b)
  {}

  lemma FirstByteOf(ls: seq<L.Line>, hs: seq<HeadCall>)
    requires StartsWell(ls) && hs != [] && hs[0].data != []
    requires var n := |Concat(Pieces(hs))|; n < |L.Text(ls)| && Concat(Pieces(hs)) == L.Text(ls)[..n]
    ensures !IsSpace(hs[0].data[0])
  {
    assert Concat(Pieces(hs))[0] == hs[0].data[0];
    TextStarts(ls, []);
    assert L.Text(ls)[0] == (L.Text(ls) + [])[0];
  }

  // ---- from the head to the body

  /**
   * All of the head comes in pieces, before the end without CLEANUP, and no cut is between a CR and
   * its LF or within a start line.
   */
  ghost predicate ComesInPieces(info: InfoParser, msgs: seq<Message>, hs: seq<HeadCall>, end: HeadEnd) {
    && Concat(Pieces(hs)) + end.data == L.Text(end.all) && end.data != []
    && K.CutsOk(info, Unread(msgs), end.all, 0, Pieces(hs))
    && forall i :: 0 <= i < |hs| ==> !hs[i].flags.cleanup
  }

  /** A head that ends in its blank line and does not fail, in pieces. */
  ghost predicate HeadGiven(env: Env, msgs: seq<Message>, hs: seq<HeadCall>, end: HeadEnd) {
    && K.Readable(env.info, Unread(msgs), end.all) && StartsWell(end.all)
    && L.FoldLines(env.info, Unread(msgs), end.all).verdict.Done?
    && ComesInPieces(env.info, msgs, hs, end)
  }

  /** The messages when the head has been read. */
  function Read(env: Env, msgs: seq<Message>, end: HeadEnd): seq<Message> {
    L.FoldLines(env.info, Unread(msgs), end.all).f.msgs
  }

  /** How the body is delimited, the end at a redirect included. */
  function Delimited(env: Env, fl: Flags, ms: seq<Message>): Framing {
    var msg := Last(Opened(ms));
    if fl.emptyRedirects && EndsAtRedirect(env, msg.(headers := Rewritten(msg.headers))) then NoBody
    else FramingOf(env, fl, msg)
  }

  /** The newest message with its headers rewritten. */
  function Headed(ms: seq<Message>): (r: seq<Message>)
    ensures r != []
  {
    WithLast(Opened(ms), Last(Opened(ms)).(headers := Rewritten(Last(Opened(ms)).headers)))
  }

  /** The parser between head and body. */
  function Waiting(ms: seq<Message>, framing: Framing): Machine {
    var m := Fresh(Headed(ms));
    match framing
    case NoBody => m.(stack := [DONE])
    case Dumb => m.(stack := [BODY_DUMB])
    case Chunked => m.(stack := [BODY_CHUNKED], dechunk := Some(Dechunk.Initial))
    case Length(n) => m.(stack := [if n > 0 then BODY_LENGTH else BODY_DONE], bodyLength := n)
  }

  lemma HeadEndRuns(env: Env, msgs: seq<Message>, hs: seq<HeadCall>, end: HeadEnd, p: Progress, m: Machine, d: bytes)
    requires HeadGiven(env, msgs, hs, end) && Reached(env, msgs, end.all, |Concat(Pieces(hs))|, p, m)
    ensures var b, ms := m.buffer + (end.data + d), Read(env, msgs, end);
      && Inv(m.(buffer := b)) && Inv(HeadDone(ms, d))
      && Run(env, end.flags, m.(buffer := b)) == Run(env, end.flags, HeadDone(ms, d))
  {
    hide Run, Inv, L.FoldLines, HeadAt, StartsWell, K.Stands, H.Run, K.Readable, K.CutsOk, L.Text, Concat;
    var ls, x, n := end.all, L.Text(end.all), |Concat(Pieces(hs))|;
    assert end.data == x[n..] by { assert (Concat(Pieces(hs)) + end.data)[n..] == end.data; }
    if p.Nowhere? {
      WholeHeadRuns(env, end.flags, msgs, ls, d);
      assert x[0..] == x && [] + (x + d) == x + d;
    } else {
      StandsOk(env.info, p.f, p.rest, p.part, p.h);
      K.LastPiece(env.info, end.flags.cleanup, p.f, p.rest, p.part, p.h, d);
      HeadCloses(env, end.flags, K.More(p.h, end.data + d), d, Read(env, msgs, end));
    }
  }

  lemma WholeHeadRuns(env: Env, fl: Flags, msgs: seq<Message>, ls: seq<L.Line>, d: bytes)
    requires K.Readable(env.info, Unread(msgs), ls) && L.FoldLines(env.info, Unread(msgs), ls).verdict.Done? && StartsWell(ls)
    ensures var b, ms := L.Text(ls) + d, L.FoldLines(env.info, Unread(msgs), ls).f.msgs;
      && Inv(Fresh(msgs).(buffer := b)) && Inv(HeadDone(ms, d))
      && Run(env, fl, Fresh(msgs).(buffer := b)) == Run(env, fl, HeadDone(ms, d))
  {
    hide Run, Inv, L.FoldLines, H.Run, L.LinesOk, AtRest;
    var f, b := Unread(msgs), L.Text(ls) + d;
    L.HeadFeed(env.info, fl.cleanup, f, ls, d);
    assert ls != [] by { DoneNeedsLines(env.info, f, ls); }
    TextStarts(ls, d);
    HeadBegins(env, fl, msgs, b);
    HeadIsInv(f, b);
    HeadCloses(env, fl, L.At(f, b), d, L.FoldLines(env.info, f, ls).f.msgs);
  }

  lemma DoneNeedsLines(info: InfoParser, f: L.Fold, ls: seq<L.Line>)
    requires L.FoldLines(info, f, ls).verdict.Done?
    ensures ls != []
  {}

  /** HEADER_DONE leaves the parser between head and body, with the data as it is. */
  lemma HeaderDonePass(env: Env, fl: Flags, ms: seq<Message>, d: bytes)
    ensures var m, w := HeadDone(ms, d), Waiting(ms, Delimited(env, fl, ms)).(buffer := d);
      Inv(m) && Runs(m) && Step(env, fl, m) == Go(w)
  {
    hide Rewritten, FramingOf, EndsAtRedirect, WithLast, Opened, Last;
    DoneIsInv(ms, d);
    assert Pop([HEADER_DONE]) == [];
    assert [] + [DONE] == [DONE] && [] + [BODY_DUMB] == [BODY_DUMB] && [] + [BODY_CHUNKED] == [BODY_CHUNKED];
    assert [] + [BODY_LENGTH] == [BODY_LENGTH] && [] + [BODY_DONE] == [BODY_DONE];
  }

  lemma BodyBegins(env: Env, fl: Flags, ms: seq<Message>, d: bytes)
    ensures var m, w := HeadDone(ms, d), Waiting(ms, Delimited(env, fl, ms)).(buffer := d);
      Inv(m) && Inv(w) && Run(env, fl, m) == Run(env, fl, w)
  {
    hide Run, Step, Inv, Waiting, HeadDone, Delimited;
    HeaderDonePass(env, fl, ms, d);
    GoRuns(env, fl, HeadDone(ms, d), Waiting(ms, Delimited(env, fl, ms)).(buffer := d));
  }

  /** The calls that bring a message: lines of the head, its end with the first of the body, the rest. */
  function MessageCalls(hs: seq<HeadCall>, end: HeadEnd, d: bytes, cs: seq<Call>): seq<Call> {
    AsCalls(hs) + ([Call(end.data + d, end.flags)] + cs)
  }

  /** The calls as far as they bring the body. */
  function BodyCalls(end: HeadEnd, d: bytes, cs: seq<Call>): seq<Call> { [Call(d, end.flags)] + cs }

  /** Behind the head, everything goes on as if the parser had been waiting for the body. */
  ghost predicate GoesOnAs(env: Env, msgs: seq<Message>, hs: seq<HeadCall>, end: HeadEnd, d: bytes, cs: seq<Call>,
                           k: Machine, ts: seq<MState>) {
    var (n, ss) := (FreshRests(msgs); Calls(env, Fresh(msgs), MessageCalls(hs, end, d, cs)));
    && n == k && |ss| == |hs| + |ts| && ss[|hs|..] == ts
    && forall i :: 0 <= i < |hs| ==> ss[i] == START || ss[i] == HEADER
  }

  /** The calls before the end of the head leave the parser in it; the one that ends it begins the body. */
  lemma HeadIsReached(env: Env, msgs: seq<Message>, hs: seq<HeadCall>, end: HeadEnd, d: bytes)
    requires HeadGiven(env, msgs, hs, end)
    ensures AtRest(Fresh(msgs))
    ensures var (m, ss) := Calls(env, Fresh(msgs), AsCalls(hs));
      var b, ms := m.buffer + (end.data + d), Read(env, msgs, end);
      var w := Waiting(ms, Delimited(env, end.flags, ms)).(buffer := d);
      && AtRest(m) && |ss| == |hs| && (forall i :: 0 <= i < |ss| ==> ss[i] == START || ss[i] == HEADER)
      && Inv(m.(buffer := b)) && Inv(w) && Run(env, end.flags, m.(buffer := b)) == Run(env, end.flags, w)
  {
    hide Run, Inv, AtRest, Waiting, Delimited, Read, Calls, StartsWell, K.Readable, K.CutsOk, L.FoldLines, Reached, L.Text;
    FreshRests(msgs);
    var x, n := L.Text(end.all), |Concat(Pieces(hs))|;
    assert Concat(Pieces(hs)) == x[..n] && n < |x| by { assert (Concat(Pieces(hs)) + end.data)[..n] == Concat(Pieces(hs)); }
    var p := HeadCallsRun(env, msgs, end.all, hs);
    var m := Calls(env, Fresh(msgs), AsCalls(hs)).0;
    HeadEndRuns(env, msgs, hs, end, p, m, d);
    BodyBegins(env, end.flags, Read(env, msgs, end), d);
  }

  /** The states returned: those of the head, and then those of the body. */
  lemma StatesSplit(ss: seq<MState>, ts: seq<MState>)
    requires forall i :: 0 <= i < |ss| ==> ss[i] == START || ss[i] == HEADER
    ensures (ss + ts)[|ss|..] == ts && forall i :: 0 <= i < |ss| ==> (ss + ts)[i] == START || (ss + ts)[i] == HEADER
  {
    assert forall i :: 0 <= i < |ss| ==> (ss + ts)[i] == ss[i];
  }

  lemma HeadIsRead(env: Env, msgs: seq<Message>, hs: seq<HeadCall>, end: HeadEnd, d: bytes, cs: seq<Call>, w: Machine)
    requires HeadGiven(env, msgs, hs, end) && AtRest(w) && w.buffer == []
    requires w == Waiting(Read(env, msgs, end), Delimited(env, end.flags, Read(env, msgs, end)))
    ensures var (k, ts) := Calls(env, w, BodyCalls(end, d, cs)); GoesOnAs(env, msgs, hs, end, d, cs, k, ts)
  {
    hide Run, Inv, AtRest, HeadGiven, Waiting, Delimited, Read, Calls;
    HeadIsReached(env, msgs, hs, end, d);
    var (m, ss) := Calls(env, Fresh(msgs), AsCalls(hs));
    var c, e := Call(end.data + d, end.flags), Call(d, end.flags);
    assert [] + d == d;
    FirstCall(env, m, w, c, e, cs);
    CallsConcat(env, Fresh(msgs), AsCalls(hs), [c] + cs);
    StatesSplit(ss, Calls(env, w, [e] + cs).1);
  }

  // ---- a body of a given length

  lemma WaitsForLength(ms: seq<Message>, n: nat)
    requires n > 0
    ensures Awaits(Waiting(ms, Length(n)), n)
  {
    hide Headed;
  }

  lemma DatasConcat(c: Call, cs: seq<Call>)
    ensures Datas([c] + cs) == c.data + Datas(cs)
  {
    assert ([c] + cs)[1..] == cs;
  }

  /**
   * While the body is not complete, what is written and what is awaited add up to the length that
   * the head gives, however the message is cut, within the call that ends the head too.
   */
  lemma LengthMessageGoesOn(env: Env, msgs: seq<Message>, hs: seq<HeadCall>, end: HeadEnd, d: bytes, cs: seq<Call>, n: nat)
    requires HeadGiven(env, msgs, hs, end) && Delimited(env, end.flags, Read(env, msgs, end)) == Length(n)
    requires |d + Datas(cs)| < n
    ensures var x, w := d + Datas(cs), Waiting(Read(env, msgs, end), Length(n));
      var k := WithBody(w, x).(bodyLength := n - |x|);
      && Awaits(k, n - |x|)
      && GoesOnAs(env, msgs, hs, end, d, cs, k, seq(1 + |cs|, _ => BODY_LENGTH))
  {
    hide Run, AtRest, HeadGiven, Read, Delimited, Calls, GoesOnAs, Waiting;
    var w, bs := Waiting(Read(env, msgs, end), Length(n)), BodyCalls(end, d, cs);
    WaitsForLength(Read(env, msgs, end), n);
    DatasConcat(Call(d, end.flags), cs);
    PartialCalls(env, w, bs);
    HeadIsRead(env, msgs, hs, end, d, cs, w);
    var ts := Calls(env, w, bs).1;
    assert ts == seq(1 + |cs|, _ => BODY_LENGTH);
  }

  /** The message is over: the parser is as new but for what it has read and what is left. */
  function Over(ms: seq<Message>, body: bytes, left: bytes): Machine {
    WithBody(Fresh(Headed(ms)), body).(buffer := Strip(left))
  }

  /** A message that is done, before white space behind it is dropped. */
  function Ended(ms: seq<Message>, body: bytes, left: bytes): Machine {
    WithBody(Fresh(Headed(ms)), body).(stack := [DONE], buffer := left)
  }

  lemma NothingWritten(ms: seq<Message>, left: bytes)
    ensures Ended(ms, [], left) == Fresh(Headed(ms)).(stack := [DONE], buffer := left)
  {
    hide Headed;
    var last := Last(Headed(ms));
    assert last.body + [] == last.body;
    assert WithBody(Fresh(Headed(ms)), []) == Fresh(Headed(ms));
  }

  lemma NoBodyEnds(env: Env, fl: Flags, ms: seq<Message>, framing: Framing, d: bytes)
    requires framing == Length(0) || framing == NoBody
    ensures var m := Waiting(ms, framing).(buffer := d);
      Inv(m) && Inv(Ended(ms, [], d)) && Run(env, fl, m) == Run(env, fl, Ended(ms, [], d))
  {
    hide Headed, Run;
    var m, n := Waiting(ms, framing).(buffer := d), Fresh(Headed(ms)).(stack := [DONE], buffer := d);
    NothingWritten(ms, d);
    if framing == Length(0) {
      assert Pop(m.stack) == [] && [] + [DONE] + [] == [DONE];
      assert Step(env, fl, m) == Go(n);
      GoRuns(env, fl, m, n);
    }
  }

  lemma EndedIsOver(env: Env, fl: Flags, ms: seq<Message>, body: bytes, left: bytes)
    requires !fl.greedy && Inv(Ended(ms, body, left))
    ensures Run(env, fl, Ended(ms, body, left)) == (Over(ms, body, left), DONE)
  {
    hide Headed, Run, Strip, Inv;
    DonePass(env, fl, Ended(ms, body, left));
  }

  /** A message without a body is over in the call that ends its head. */
  lemma BodilessMessage(env: Env, msgs: seq<Message>, hs: seq<HeadCall>, end: HeadEnd, d: bytes)
    requires HeadGiven(env, msgs, hs, end) && !end.flags.greedy
    requires Delimited(env, end.flags, Read(env, msgs, end)) in [Length(0), NoBody]
    ensures GoesOnAs(env, msgs, hs, end, d, [], Over(Read(env, msgs, end), [], d), [DONE])
  {
    hide Run, Inv, AtRest, HeadGiven, Waiting, Delimited, Read, Calls, Over, Ended;
    HeadIsReached(env, msgs, hs, end, d);
    var (m, ss) := Calls(env, Fresh(msgs), AsCalls(hs));
    var c, ms := Call(end.data + d, end.flags), Read(env, msgs, end);
    NoBodyEnds(env, end.flags, ms, Delimited(env, end.flags, ms), d);
    EndedIsOver(env, end.flags, ms, [], d);
    assert [c] + [] == [c];
    OneCall(env, m, c);
    CallsConcat(env, Fresh(msgs), AsCalls(hs), [c]);
    StatesSplit(ss, [DONE]);
  }

  /**
   * A message whose head gives the length n of its body: the call that brings the n-th byte, which
   * can be the one that ends the head, ends the message. Its body is exactly the first n bytes
   * behind the head; the rest, less leading white space, is left for the next message.
   */
  lemma LengthMessageEnds(env: Env, msgs: seq<Message>, hs: seq<HeadCall>, end: HeadEnd, d: bytes, cs: seq<Call>, n: nat)
    requires HeadGiven(env, msgs, hs, end) && Delimited(env, end.flags, Read(env, msgs, end)) == Length(n)
    requires var bs := BodyCalls(end, d, cs); var front := bs[..|bs| - 1];
      && !bs[|bs| - 1].flags.greedy
      && (if n == 0 then cs == [] else |Datas(front)| < n <= |d + Datas(cs)|)
    ensures var x := d + Datas(cs);
      GoesOnAs(env, msgs, hs, end, d, cs, Over(Read(env, msgs, end), x[..n], x[n..]),
               seq(|cs|, _ => BODY_LENGTH) + [DONE])
  {
    hide Run, AtRest, HeadGiven, Read, Delimited, Calls, GoesOnAs, Waiting, Strip, Over, WithBody;
    var ms, bs, x := Read(env, msgs, end), BodyCalls(end, d, cs), d + Datas(cs);
    if n == 0 {
      BodilessMessage(env, msgs, hs, end, d);
      assert x == d && x[..0] == [] && x[0..] == x;
      assert seq(0, _ => BODY_LENGTH) + [DONE] == [DONE];
    } else {
      var w, front, last := Waiting(ms, Length(n)), bs[..|bs| - 1], bs[|bs| - 1];
      WaitsForLength(ms, n);
      DatasConcat(Call(d, end.flags), cs);
      assert bs == front + [last];
      assert Datas(bs) == Datas(front) + last.data by { DatasSnoc(front, last); }
      LengthBodyFragments(env, w, front, last);
      CallsConcat(env, w, front, [last]);
      HeadIsRead(env, msgs, hs, end, d, cs, w);
      LengthIsOver(ms, n, x[..n], x[n..]);
      assert Calls(env, w, front).1 == seq(|cs|, _ => BODY_LENGTH);
    }
  }

  lemma LengthIsOver(ms: seq<Message>, n: nat, body: bytes, left: bytes)
    ensures WithBody(Waiting(ms, Length(n)), body).(buffer := Strip(left), bodyLength := 0, stack := []) == Over(ms, body, left)
  {
    hide Headed, Strip;
  }

  lemma {:induction false} DatasSnoc(cs: seq<Call>, c: Call)
    ensures Datas(cs + [c]) == Datas(cs) + c.data
    decreases |cs|
  {
    if cs == [] {
      assert [] + [c] == [c] && [c][1..] == [];
    } else {
      assert (cs + [c])[1..] == cs[1..] + [c];
      DatasSnoc(cs[1..], c);
    }
  }

  // ---- a body without a length

  lemma WaitsForAnything(ms: seq<Message>)
    ensures var w := Waiting(ms, Dumb); AtRest(w) && w.stack == [BODY_DUMB] && w.buffer == [] && w.dechunk == None && w.msgs != []
  {
    hide Headed;
  }

  lemma DumbIdles(env: Env, fl: Flags, m: Machine)
    requires Inv(m) && m.stack == [BODY_DUMB] && m.buffer == []
    ensures Run(env, fl, m) == (m, BODY_DUMB)
  {
    hide Step, Inv;
  }

  /** Calls without data leave the parser waiting. */
  lemma {:induction false} DumbGoesOn(env: Env, m: Machine, cs: seq<Call>)
    requires AtRest(m) && m.stack == [BODY_DUMB] && m.buffer == [] && Datas(cs) == []
    ensures var (k, ss) := Calls(env, m, cs); k == m && |ss| == |cs| && forall i :: 0 <= i < |ss| ==> ss[i] == BODY_DUMB
    decreases |cs|
  {
    hide Run, AtRest, Inv;
    if cs != [] {
      RestIsInv(m);
      assert |cs[0].data| + |Datas(cs[1..])| == 0 && cs[0].data == [];
      assert [] + cs[0].data == [] && m.(buffer := []) == m;
      DumbIdles(env, cs[0].flags, m);
      DumbGoesOn(env, m, cs[1..]);
    }
  }

  lemma DumbIsSetAside(env: Env, fl: Flags, m: Machine)
    requires Inv(m) && m.stack == [BODY_DUMB] && m.buffer != []
    ensures Step(env, fl, m) == Go(m.(str := m.buffer, cut := |m.buffer|, stack := [BODY_DONE, BODY]))
  {
    hide HeaderOk, Dechunk.Resumable;
    assert Pop(m.stack) == [] && [] + [BODY_DONE, BODY] == [BODY_DONE, BODY];
  }

  lemma BodyIsDone(env: Env, fl: Flags, m: Machine)
    requires Inv(m) && m.stack == [BODY_DONE] && m.dechunk == None && m.str == []
    ensures Inv(m.(stack := [DONE])) && Run(env, fl, m) == Run(env, fl, m.(stack := [DONE]))
  {
    hide HeaderOk, Dechunk.Resumable, Run;
    assert Pop(m.stack) == [] && [] + [DONE] + [] == [DONE];
    GoRuns(env, fl, m, m.(stack := [DONE]));
  }

  /** The first data, whatever it is, is the whole body. */
  lemma DumbFeed(env: Env, fl: Flags, ms: seq<Message>, d: bytes)
    requires d != []
    ensures var m := Waiting(ms, Dumb).(buffer := d);
      Inv(m) && Inv(Ended(ms, d, [])) && Run(env, fl, m) == Run(env, fl, Ended(ms, d, []))
  {
    hide Run, Inv, Step, AtRest, Headed, WithBody;
    var w := Waiting(ms, Dumb);
    WaitsForAnything(ms);
    Refilled(w, d);
    assert [] + d == d && d[|d|..] == [];
    var m0 := w.(buffer := d);
    var m1 := m0.(str := d, cut := |d|, stack := [BODY_DONE, BODY]);
    assert w.str == [] && w.cut == 0;
    DumbIsSetAside(env, fl, m0);
    GoRuns(env, fl, m0, m1);
    BodyWrites(env, fl, m1, BODY_DONE);
    var m2 := WithBody(w, d).(buffer := [], stack := [BODY_DONE]);
    BodyIsTheMessages(w, m1, d);
    GoRuns(env, fl, m1, m2);
    BodyIsDone(env, fl, m2);
    BodyIsTheMessages(w, Fresh(Headed(ms)), d);
  }

  lemma DumbCall(env: Env, ms: seq<Message>, c: Call)
    requires c.data != [] && !c.flags.greedy
    ensures AtRest(Waiting(ms, Dumb))
    ensures Calls(env, Waiting(ms, Dumb), [c]) == (Over(ms, c.data, []), [DONE])
  {
    hide Run, Inv, AtRest, Waiting, Ended, Over;
    WaitsForAnything(ms);
    DumbFeed(env, c.flags, ms, c.data);
    EndedIsOver(env, c.flags, ms, c.data, []);
    assert [] + c.data == c.data;
    OneCall(env, Waiting(ms, Dumb), c);
  }

  /**
   * A message whose head gives no length: the call that brings the first data behind the head, which
   * can be the one that ends the head, ends the message with exactly that data as its body, and
   * leaves nothing. The calls before it wait.
   */
  lemma DumbMessageEnds(env: Env, msgs: seq<Message>, hs: seq<HeadCall>, end: HeadEnd, d: bytes, cs: seq<Call>)
    requires HeadGiven(env, msgs, hs, end) && Delimited(env, end.flags, Read(env, msgs, end)) == Dumb
    requires var bs := BodyCalls(end, d, cs);
      Datas(bs[..|bs| - 1]) == [] && bs[|bs| - 1].data != [] && !bs[|bs| - 1].flags.greedy
    ensures GoesOnAs(env, msgs, hs, end, d, cs, Over(Read(env, msgs, end), d + Datas(cs), []),
                     seq(|cs|, _ => BODY_DUMB) + [DONE])
  {
    hide Run, AtRest, HeadGiven, Read, Delimited, Calls, GoesOnAs, Waiting, Headed;
    var ms, bs := Read(env, msgs, end), BodyCalls(end, d, cs);
    var w, front, last := Waiting(ms, Dumb), bs[..|bs| - 1], bs[|bs| - 1];
    WaitsForAnything(ms);
    assert bs == front + [last];
    DatasConcat(Call(d, end.flags), cs);
    assert d + Datas(cs) == last.data by { DatasSnoc(front, last); assert [] + last.data == last.data; }
    DumbGoesOn(env, w, front);
    assert Calls(env, w, front).1 == seq(|cs|, _ => BODY_DUMB);
    DumbCall(env, ms, last);
    CallsConcat(env, w, front, [last]);
    HeadIsRead(env, msgs, hs, end, d, cs, w);
  }

  /** What a message that is over looks like: the headers, the bytes of the body behind any before, what is left. */
  lemma OverIs(ms: seq<Message>, body: bytes, left: bytes)
    ensures var k := Over(ms, body, left); var was := Last(Opened(ms));
      && k.buffer == Strip(left) && k.stack == [] && k.msgs == Opened(ms)[..|Opened(ms)| - 1] + [Last(k.msgs)]
      && Last(k.msgs) == Message(was.info, Rewritten(was.headers), was.body + body)
  {
    hide Strip, Rewritten, Opened;
  }

  // ---- a chunked body

  lemma WaitsForChunks(ms: seq<Message>)
    ensures C.AwaitsChunks(Waiting(ms, Chunked))
  {
    hide Headed;
    FreshIsResumable();
  }

  /**
   * A message whose head says chunked, and a body in chunked text, extensions included, cut anywhere
   * but between the CR and LF of a size line, with the end of the body in the last call: the message
   * ends with the data of the chunks as its body, and what trails the text, less white space, is left.
   */
  lemma ChunkedMessageEnds(env: Env, msgs: seq<Message>, hs: seq<HeadCall>, end: HeadEnd, d: bytes, cs: seq<Call>,
                           fs: seq<G.Frame>, zero: G.SizeText, trail: bytes)
    requires HeadGiven(env, msgs, hs, end) && Delimited(env, end.flags, Read(env, msgs, end)) == Chunked
    requires G.TextOk(fs, zero, trail) && forall c :: env.finish(c) == []
    requires var bs := BodyCalls(end, d, cs);
      var es := C.Events(bs[..|bs| - 1]) + [D.Feed(bs[|bs| - 1].data)];
      && !bs[|bs| - 1].flags.greedy
      && D.Fed(es) == G.Text(fs, zero) + trail && D.CleanCuts(es) && Fragments.EndsInTime(es)
    ensures GoesOnAs(env, msgs, hs, end, d, cs, Over(Read(env, msgs, end), Concat(G.Datas(fs)), trail),
                     seq(|cs|, _ => BODY_CHUNKED) + [DONE])
  {
    hide Run, AtRest, HeadGiven, Read, Delimited, Calls, GoesOnAs, Waiting, Strip, D.CleanCuts, D.Fed, Fragments.EndsInTime,
      G.Text, G.TextOk, C.Events;
    var ms, bs := Read(env, msgs, end), BodyCalls(end, d, cs);
    var w, front, last := Waiting(ms, Chunked), bs[..|bs| - 1], bs[|bs| - 1];
    WaitsForChunks(ms);
    assert bs == front + [last];
    C.ChunkedBodyFragments(env, w, front, last, fs, zero, trail);
    CallsConcat(env, w, front, [last]);
    HeadIsRead(env, msgs, hs, end, d, cs, w);
    ChunkedIsOver(ms, Concat(G.Datas(fs)), trail);
    assert Calls(env, w, front).1 == seq(|cs|, _ => BODY_CHUNKED);
  }

  /** The same for the encoder's output. */
  lemma EncodedMessageEnds(env: Env, msgs: seq<Message>, hs: seq<HeadCall>, end: HeadEnd, d: bytes, cs: seq<Call>,
                           blocks: seq<bytes>, trail: bytes)
    requires HeadGiven(env, msgs, hs, end) && Delimited(env, end.flags, Read(env, msgs, end)) == Chunked
    requires ChunkCoding.Sized(blocks) && ChunkCoding.NoneEmpty(blocks) && forall c :: env.finish(c) == []
    requires var bs := BodyCalls(end, d, cs);
      var es := C.Events(bs[..|bs| - 1]) + [D.Feed(bs[|bs| - 1].data)];
      && !bs[|bs| - 1].flags.greedy
      && D.Fed(es) == ChunkCoding.Encode(blocks) + trail && D.CleanCuts(es) && Fragments.EndsInTime(es)
    ensures GoesOnAs(env, msgs, hs, end, d, cs, Over(Read(env, msgs, end), Concat(blocks), trail),
                     seq(|cs|, _ => BODY_CHUNKED) + [DONE])
  {
    hide HeadGiven, Read, Delimited, GoesOnAs, Strip, D.CleanCuts, D.Fed, Fragments.EndsInTime, G.Text, G.TextOk, C.Events,
      ChunkCoding.Encode, WithBody;
    ChunkCoding.EncodedIsText(blocks, trail);
    ChunkedMessageEnds(env, msgs, hs, end, d, cs, ChunkCoding.AllFramed(blocks), ChunkCoding.ZeroLine, CRLF + trail);
    EmptyLineIsStripped(trail);
  }

  lemma EmptyLineIsStripped(trail: bytes)
    ensures Strip(CRLF + trail) == Strip(trail)
  {
    hide Strip, SkipEols;
    C.StripTakesEols(CRLF + trail);
    C.StripTakesEols(trail);
    G.GapIsSkipped(CRLF, trail);
  }

  lemma ChunkedIsOver(ms: seq<Message>, body: bytes, left: bytes)
    ensures WithBody(Waiting(ms, Chunked), body).(buffer := Strip(left), dechunk := None, stack := []) == Over(ms, body, left)
  {
    hide Headed, Strip;
  }

  // ---- streams of messages

  /** As it is, or in chunked text with the line ends behind it. */
  datatype Body = Plain(data: bytes) | Coded(frames: seq<G.Frame>, zero: G.SizeText, gap: bytes)

  /** A message as it is sent: the lines of its head with the blank one, and its body. */
  datatype Sent = Sent(lines: seq<L.Line>, body: Body)

  function BodyText(b: Body): bytes { match b case Plain(d) => d case Coded(fs, zero, gap) => G.Text(fs, zero) + gap }
  function BodyOf(b: Body): bytes { match b case Plain(d) => d case Coded(fs, _, _) => Concat(G.Datas(fs)) }

  function Stream(us: seq<Sent>): bytes {
    if us == [] then [] else L.Text(us[0].lines) + (BodyText(us[0].body) + Stream(us[1..]))
  }

  /** Its head in one piece. */
  function EndOf(fl: Flags, u: Sent): HeadEnd { HeadEnd(u.lines, L.Text(u.lines), fl) }

  function ReadOf(env: Env, fl: Flags, msgs: seq<Message>, u: Sent): seq<Message> {
    Read(env, msgs, EndOf(fl, u))
  }

  /** The head is one, and it delimits the body that follows it. */
  ghost predicate SentOk(env: Env, fl: Flags, msgs: seq<Message>, u: Sent) {
    && HeadGiven(env, msgs, [], EndOf(fl, u))
    && var framing := Delimited(env, fl, ReadOf(env, fl, msgs, u));
       match u.body
       case Plain(d) => framing == Length(|d|) || (d == [] && framing == NoBody)
       case Coded(fs, zero, gap) => framing == Chunked && G.TextOk(fs, zero, gap) && G.AllEols(gap)
  }

  /** The messages when this one has been read too. */
  function Added(env: Env, fl: Flags, msgs: seq<Message>, u: Sent): seq<Message> {
    Ended(ReadOf(env, fl, msgs, u), BodyOf(u.body), []).msgs
  }

  function AllAdded(env: Env, fl: Flags, msgs: seq<Message>, us: seq<Sent>): seq<Message>
    decreases |us|
  {
    if us == [] then msgs else AllAdded(env, fl, Added(env, fl, msgs, us[0]), us[1..])
  }

  ghost predicate StreamOk(env: Env, fl: Flags, msgs: seq<Message>, us: seq<Sent>)
    decreases |us|
  {
    us != [] ==> SentOk(env, fl, msgs, us[0]) && StreamOk(env, fl, Added(env, fl, msgs, us[0]), us[1..])
  }

  lemma LengthEnds(env: Env, fl: Flags, ms: seq<Message>, data: bytes, z: bytes)
    requires data != []
    ensures var m := Waiting(ms, Length(|data|)).(buffer := data + z);
      Inv(m) && Inv(Ended(ms, data, z)) && Run(env, fl, m) == Run(env, fl, Ended(ms, data, z))
  {
    hide Run, Inv, AtRest, Headed;
    var w, d, n := Waiting(ms, Length(|data|)), data + z, |data|;
    WaitsForLength(ms, n);
    assert d[..n] == data && d[n..] == z;
    LastFeedIsDone(env, fl, w, d);
    assert WithBody(w, data).(buffer := z, bodyLength := 0, stack := [DONE]) == Ended(ms, data, z);
  }

  lemma ChunksEnd(env: Env, fl: Flags, ms: seq<Message>, fs: seq<G.Frame>, zero: G.SizeText, z: bytes)
    requires G.TextOk(fs, zero, z) && forall c :: env.finish(c) == []
    ensures var m := Waiting(ms, Chunked).(buffer := G.Text(fs, zero) + z);
      var k := Ended(ms, Concat(G.Datas(fs)), SkipEols(z));
      Inv(m) && Inv(k) && Run(env, fl, m) == Run(env, fl, k)
  {
    hide Run, Inv, AtRest, Headed, G.Text, G.TextOk, Dechunk.Updated, SkipEols;
    var w, d := Waiting(ms, Chunked), G.Text(fs, zero) + z;
    WaitsForChunks(ms);
    ChunkCoding.StreamDecodesText(fs, zero, z, false);
    assert d != [] by { G.TextIsNotEmpty(fs, zero, z); }
    C.EndingFeedIsDone(env, fl, w, d);
    assert WithBody(w, Concat(G.Datas(fs))).(buffer := SkipEols(z), dechunk := None, stack := [DONE])
      == Ended(ms, Concat(G.Datas(fs)), SkipEols(z));
  }

  /** The last size line of a text stays one when a message follows that does not start with white space. */
  lemma TextGoesOn(fs: seq<G.Frame>, zero: G.SizeText, gap: bytes, z: bytes)
    requires G.TextOk(fs, zero, gap) && (z != [] ==> !IsSpace(z[0]))
    ensures G.TextOk(fs, zero, gap + z)
  {
    hide G.FrameOk, HexNumbers.HexValue, G.ExtensionOk;
  }

  /** One message of a stream: the parser gets through it and stands behind it. */
  lemma SentRuns(env: Env, fl: Flags, msgs: seq<Message>, u: Sent, z: bytes)
    requires SentOk(env, fl, msgs, u) && (z != [] ==> !IsSpace(z[0])) && forall c :: env.finish(c) == []
    ensures var m := Fresh(msgs).(buffer := L.Text(u.lines) + (BodyText(u.body) + z));
      var left := if u.body.Coded? then SkipEols(z) else z;
      var k := Ended(ReadOf(env, fl, msgs, u), BodyOf(u.body), left);
      Inv(m) && Inv(k) && Run(env, fl, m) == Run(env, fl, k)
  {
    hide Run, Inv, AtRest, HeadGiven, Waiting, Delimited, Read, Calls, Ended, SkipEols, G.Text, G.TextOk;
    var end, d, ms := EndOf(fl, u), BodyText(u.body) + z, ReadOf(env, fl, msgs, u);
    HeadIsReached(env, msgs, [], end, d);
    assert Calls(env, Fresh(msgs), AsCalls([])) == (Fresh(msgs), []) by { NoCalls(env, msgs); }
    assert [] + (end.data + d) == L.Text(u.lines) + d;
    match u.body {
      case Plain(data) =>
        if data == [] {
          assert d == z;
          NoBodyEnds(env, fl, ms, Delimited(env, fl, ms), d);
        } else {
          LengthEnds(env, fl, ms, data, z);
        }
      case Coded(fs, zero, gap) =>
        TextGoesOn(fs, zero, gap, z);
        SeqAssoc(G.Text(fs, zero), gap, z);
        ChunksEnd(env, fl, ms, fs, zero, gap + z);
        G.GapIsSkipped(gap, z);
    }
  }

  lemma NoCalls(env: Env, msgs: seq<Message>)
    ensures AtRest(Fresh(msgs)) && Calls(env, Fresh(msgs), AsCalls([])) == (Fresh(msgs), [])
  {
    FreshRests(msgs);
  }

  /** A stream starts with a head, which does not start with white space. */
  lemma StreamStarts(env: Env, fl: Flags, msgs: seq<Message>, us: seq<Sent>)
    requires StreamOk(env, fl, msgs, us)
    ensures Stream(us) != [] ==> !IsSpace(Stream(us)[0])
    ensures Strip(Stream(us)) == Stream(us) && Strip(SkipEols(Stream(us))) == Stream(us)
  {
    hide SentOk, Strip, SkipEols, BodyText;
    var b := Stream(us);
    C.StripTakesEols(b);
    if us != [] {
      SentStarts(env, fl, msgs, us[0]);
      TextStarts(us[0].lines, BodyText(us[0].body) + Stream(us[1..]));
    }
    NotSpaceStays(b);
  }

  lemma SentStarts(env: Env, fl: Flags, msgs: seq<Message>, u: Sent)
    requires SentOk(env, fl, msgs, u)
    ensures u.lines != [] && StartsWell(u.lines)
  {
    hide Delimited, L.LinesOk, L.FoldLines;
    DoneNeedsLines(env.info, Unread(msgs), u.lines);
  }

  lemma NotSpaceStays(b: bytes)
    requires b == [] || !IsSpace(b[0])
    ensures Strip(b) == b
  {
    assert SpaceRun(b) == 0 && b[0..] == b;
  }

  lemma NextMessage(env: Env, fl: Flags, msgs: seq<Message>, us: seq<Sent>)
    requires us != [] && StreamOk(env, fl, msgs, us) && forall c :: env.finish(c) == []
    ensures var n := Fresh(Added(env, fl, msgs, us[0])).(buffer := Stream(us[1..]));
      && Inv(Fresh(msgs).(buffer := Stream(us)))
      && if fl.greedy then Inv(n) && Run(env, fl, Fresh(msgs).(buffer := Stream(us))) == Run(env, fl, n)
         else Run(env, fl, Fresh(msgs).(buffer := Stream(us))) == (n, DONE)
  {
    hide Run, Inv, SentOk, ReadOf, Strip, SkipEols, Headed, G.Text, Delimited;
    var u, z := us[0], Stream(us[1..]);
    StreamStarts(env, fl, Added(env, fl, msgs, u), us[1..]);
    SentRuns(env, fl, msgs, u, z);
    DonePass(env, fl, Ended(ReadOf(env, fl, msgs, u), BodyOf(u.body), if u.body.Coded? then SkipEols(z) else z));
  }

  /**
   * With GREEDY, one call on any number of messages, bodies of either kind mixed at will, reads all
   * of them, each with the body that was sent, and ends as new with nothing left.
   */
  lemma {:induction false} GreedyReadsAll(env: Env, fl: Flags, msgs: seq<Message>, us: seq<Sent>)
    requires fl.greedy && StreamOk(env, fl, msgs, us) && forall c :: env.finish(c) == []
    ensures Inv(Fresh(msgs).(buffer := Stream(us)))
    ensures Run(env, fl, Fresh(msgs).(buffer := Stream(us))) == (Fresh(AllAdded(env, fl, msgs, us)), START)
    decreases |us|
  {
    hide Run, Inv, SentOk, Added;
    if us == [] {
      NothingRuns(env, fl, msgs);
    } else {
      NextMessage(env, fl, msgs, us);
      GreedyReadsAll(env, fl, Added(env, fl, msgs, us[0]), us[1..]);
    }
  }

  /** Calls that bring no more data. */
  function Again(fl: Flags, n: nat): seq<Call> { seq(n, _ => Call([], fl)) }

  /** Without it, one call reads one message, and as many calls as there are messages read them all. */
  lemma {:induction false} OneMessagePerCall(env: Env, fl: Flags, msgs: seq<Message>, us: seq<Sent>)
    requires !fl.greedy && us != [] && StreamOk(env, fl, msgs, us) && forall c :: env.finish(c) == []
    ensures AtRest(Fresh(msgs))
    ensures Calls(env, Fresh(msgs), [Call(Stream(us), fl)] + Again(fl, |us| - 1))
      == (Fresh(AllAdded(env, fl, msgs, us)), seq(|us|, _ => DONE))
    decreases |us|
  {
    hide Run, Inv, SentOk, Added, AtRest, Calls, Stream;
    FreshRests(msgs);
    NextMessage(env, fl, msgs, us);
    var c, ms, rest := Call(Stream(us), fl), Added(env, fl, msgs, us[0]), us[1..];
    assert [] + c.data == c.data;
    OneCall(env, Fresh(msgs), c);
    CallsConcat(env, Fresh(msgs), [c], Again(fl, |rest|));
    var n := Fresh(ms).(buffer := Stream(rest));
    if rest == [] {
      assert Stream(rest) == [] && n == Fresh(ms) by { NoStream(); }
      assert Calls(env, n, Again(fl, 0)) == (n, []) by { NoneAgain(env, n, fl); }
      assert AllAdded(env, fl, ms, rest) == ms;
      assert [DONE] + [] == seq(1, _ => DONE);
    } else {
      OneMessagePerCall(env, fl, ms, rest);
      assert Again(fl, |rest|) == [Call([], fl)] + Again(fl, |rest| - 1);
      FreshRests(ms);
      assert [] + Stream(rest) == Stream(rest) && Stream(rest) + [] == Stream(rest);
      NextMessage(env, fl, ms, rest);
      FirstCall(env, Fresh(ms), n, Call(Stream(rest), fl), Call([], fl), Again(fl, |rest| - 1));
      assert [DONE] + seq(|rest|, _ => DONE) == seq(|us|, _ => DONE);
    }
  }

  lemma NoStream() ensures Stream([]) == [] {}
  lemma NoneAgain(env: Env, m: Machine, fl: Flags) requires AtRest(m) ensures Calls(env, m, Again(fl, 0)) == (m, []) {}
}
