/** The message parser: a stack of states over the header parser and the chunk decoder. */
module MessageParser {
  import opened Bytes
  import opened Decimals
  import opened Messages
  import H = HeaderParser
  import Dechunk
  import DechunkRuns
  import opened RangeHeader

  datatype MState = FAILURE | START | HEADER | HEADER_DONE | BODY | BODY_DUMB | BODY_LENGTH | BODY_CHUNKED
                  | BODY_DONE | UPDATE_CL | DONE

  predicate NeedData(s: MState) { s == START || s == BODY_DUMB || s == BODY_LENGTH || s == BODY_CHUNKED }

  datatype Flags = Flags(cleanup: bool, dumbBodies: bool, emptyRedirects: bool, greedy: bool)

  /**
   * What the parser takes from elsewhere: the start line recogniser, PHP's conversion of a header to
   * an integer, the test for "close" in Connection, and what a decoder yields when it is finished.
   */
  datatype Env = Env(info: InfoParser, toLong: seq<bytes> -> int, closes: bytes -> bool,
                     finish: Dechunk.Context -> bytes)

  /** The parser, its header parser and decoder, the buffer, the messages and the locals of the loop. */
  datatype Machine = Machine(stack: seq<MState>, hstack: seq<H.HState>, key: Option<bytes>, val: Option<bytes>,
                             bodyLength: nat, dechunk: Option<Dechunk.Context>, buffer: bytes, msgs: seq<Message>,
                             str: bytes, cut: nat)

  datatype Outcome = Go(m: Machine) | Return(m: Machine, state: MState)

  function Top(stack: seq<MState>): MState { if stack == [] then START else stack[|stack| - 1] }
  function Pop(stack: seq<MState>): seq<MState> { if stack == [] then [] else stack[..|stack| - 1] }

  function Strip(b: bytes): bytes { b[SpaceRun(b)..] }

  // ---- what holds at every pass of the loop

  /** The stacks that occur. */
  predicate Shape(stack: seq<MState>) {
    || stack == []
    || stack in [[START], [HEADER], [HEADER_DONE], [BODY_DUMB], [BODY_LENGTH], [BODY_CHUNKED], [BODY_DONE], [DONE], [FAILURE]]
    || stack in [[BODY_DONE, BODY], [BODY_LENGTH, BODY], [BODY_CHUNKED, BODY]]
    || stack in [[DONE, UPDATE_CL], [DONE, UPDATE_CL, BODY]]
  }

  predicate HeaderOk(hstack: seq<H.HState>) { |hstack| <= 1 && hstack != [H.DONE] }

  /** The locals are set only when BODY comes next; a chunked body has a decoder that can be resumed. */
  predicate Inv(m: Machine) {
    && Shape(m.stack) && HeaderOk(m.hstack)
    && m.cut <= |m.buffer|
    && (Top(m.stack) != BODY ==> m.str == [] && m.cut == 0)
    && (BODY_CHUNKED in m.stack ==>
          m.dechunk.Some? && Dechunk.Resumable(m.dechunk.value) && !m.dechunk.value.zeroed)
  }

  /** The states a call can end in, and the stacks it can leave. */
  predicate AtRest(m: Machine) {
    Inv(m) && m.str == [] && m.cut == 0 &&
    m.stack in [[], [START], [HEADER], [BODY_DUMB], [BODY_LENGTH], [BODY_CHUNKED], [FAILURE]]
  }

  predicate Returnable(s: MState) { s in [FAILURE, START, HEADER, BODY_DUMB, BODY_LENGTH, BODY_CHUNKED, DONE] }

  // ---- the states

  function StartStep(m: Machine): Outcome {
    var b := Strip(m.buffer);
    Go(m.(buffer := b, stack := if b != [] then m.stack + [HEADER] else m.stack))
  }

  function HeaderMachine(m: Machine): H.Machine { H.Machine(m.hstack, m.key, m.val, m.buffer, m.msgs) }

  function HeaderStep(env: Env, f: Flags, m: Machine): Outcome {
    var (h, s) := H.Run(env.info, f.cleanup, HeaderMachine(m));
    var n := m.(hstack := h.stack, key := h.key, val := h.val, buffer := h.buffer, msgs := h.msgs);
    if s == H.FAILURE then Return(n, FAILURE)
    else if s == H.DONE then Go(n.(stack := m.stack + [HEADER_DONE]))
    else if h.buffer != [] || !f.cleanup then Return(n.(stack := m.stack + [HEADER]), HEADER)
    else Go(n.(stack := m.stack + [HEADER_DONE]))
  }

  const TRANSFER_ENCODING := Lit("Transfer-Encoding")
  const CONTENT_LENGTH := Lit("Content-Length")
  const CONTENT_RANGE := Lit("Content-Range")

  /** The values of a header in one text; "%s" stops at a NUL. */
  function JoinTo(text: bytes, vs: seq<bytes>): bytes
    decreases |vs|
  {
    if vs == [] then text
    else JoinTo((if text == [] then [] else text + [44, SP]) + BeforeNul(vs[0]), vs[1..])
  }

  function Joined(vs: seq<bytes>): bytes { if |vs| == 1 then vs[0] else JoinTo([], vs) }

  /** The headers after HEADER_DONE has rewritten them. */
  function Rewritten(hs: seq<Field>): seq<Field> {
    var te, cl := Lookup(hs, TRANSFER_ENCODING), Lookup(hs, CONTENT_LENGTH);
    var r :=
      if te.Some? then
        SetField(DropField(SetField(hs, Lit("X-Original-Transfer-Encoding"), te.value), TRANSFER_ENCODING),
                 CONTENT_LENGTH, [Lit("0")])
      else if cl.Some? then SetField(hs, Lit("X-Original-Content-Length"), cl.value)
      else hs;
    var cr := Lookup(r, CONTENT_RANGE);
    if cr.Some? then SetField(r, CONTENT_RANGE, [Joined(cr.value)]) else r
  }

  /** PHP's conversion of a header to a string: that of a list is a fixed word. */
  function PlainText(vs: seq<bytes>): bytes { if |vs| == 1 then vs[0] else Lit("Array") }

  predicate EndsAtRedirect(env: Env, msg: Message) {
    && msg.info.Some? && msg.info.value.Response? && msg.info.value.code / 100 == 3
    && Lookup(msg.headers, Lit("Location")).Some? && Lookup(msg.headers, Lit("Connection")).Some?
    && env.closes(PlainText(Lookup(msg.headers, Lit("Connection")).value))
  }

  /** How the body is delimited. */
  datatype Framing = NoBody | Dumb | Chunked | Length(n: nat)

  function FramingOf(env: Env, f: Flags, msg: Message): Framing {
    var te, cl := Lookup(msg.headers, TRANSFER_ENCODING), Lookup(msg.headers, CONTENT_LENGTH);
    var cr := Lookup(msg.headers, CONTENT_RANGE);
    var range := if cr.Some? then RangeLength(Joined(cr.value)) else None;
    var length := if te.None? && cl.Some? then env.toLong(cl.value) else -1;
    if f.dumbBodies then Dumb
    else if te.Some? && PlainText(te.value) == Lit("chunked") then Chunked
    else if range.Some? then Length(range.value)
    else if length >= 0 then Length(length)
    else if msg.info.Some? && msg.info.value.Request? then NoBody
    else Dumb
  }

  /** The newest message; a head without a start line or header would leave none. */
  function Opened(ms: seq<Message>): (r: seq<Message>)
    ensures r != []
  {
    if ms == [] then [Message(None, [], [])] else ms
  }

  function HeaderDoneStep(env: Env, f: Flags, m: Machine): Outcome {
    var ms := Opened(m.msgs);
    var msg := Last(ms);
    var hs := Rewritten(msg.headers);
    var n := m.(msgs := WithLast(ms, msg.(headers := hs)));
    if f.emptyRedirects && EndsAtRedirect(env, msg.(headers := hs)) then Go(n.(stack := m.stack + [DONE]))
    else
      match FramingOf(env, f, msg)
      case NoBody => Go(n.(stack := m.stack + [DONE]))
      case Dumb => Go(n.(stack := m.stack + [BODY_DUMB]))
      case Chunked => Go(n.(dechunk := Some(Dechunk.Initial), stack := m.stack + [BODY_CHUNKED]))
      case Length(k) => Go(n.(bodyLength := k, stack := m.stack + [if k > 0 then BODY_LENGTH else BODY_DONE]))
  }

  function Write(ms: seq<Message>, s: bytes): seq<Message> {
    if s == [] then ms else WithLast(Opened(ms), Last(Opened(ms)).(body := Last(Opened(ms)).body + s))
  }

  /** Writes what the state before it has set aside and cuts what that used up. */
  function BodyStep(m: Machine): Outcome
    requires m.cut <= |m.buffer|
  {
    Go(m.(msgs := Write(m.msgs, m.str), buffer := m.buffer[m.cut..], str := [], cut := 0))
  }

  function BodyDumbStep(m: Machine): Outcome {
    Go(m.(str := m.buffer, cut := |m.buffer|, stack := m.stack + [BODY_DONE, BODY]))
  }

  function BodyLengthStep(m: Machine): Outcome {
    var len := if m.bodyLength < |m.buffer| then m.bodyLength else |m.buffer|;
    var left := m.bodyLength - len;
    Go(m.(str := m.buffer[..len], cut := len, bodyLength := left,
          stack := m.stack + [if left > 0 then BODY_LENGTH else BODY_DONE, BODY]))
  }

  /** The decoder's leftover is never more than the data of this very call. */
  function BodyChunkedStep(m: Machine): Outcome
    requires m.dechunk.Some? && Dechunk.Resumable(m.dechunk.value) && !m.dechunk.value.zeroed
  {
    var r := Dechunk.Updated(m.dechunk.value, m.buffer, false);
    var n := m.(dechunk := Some(r.ctx));
    DechunkRuns.LeftoverIsSuffixOfFeed(m.dechunk.value, m.buffer, false);
    if !r.ok then Return(n, FAILURE)
    else if r.ctx.zeroed then
      Go(n.(str := r.out, cut := |m.buffer| - |r.ctx.buffer|, stack := m.stack + [BODY_DONE, BODY]))
    else Go(n.(str := r.out, cut := |m.buffer|, stack := m.stack + [BODY_CHUNKED, BODY]))
  }

  function BodyDoneStep(env: Env, m: Machine): Outcome {
    var tail := if m.dechunk.Some? then env.finish(m.dechunk.value) else [];
    Go(m.(dechunk := None, str := tail,
          stack := m.stack + [DONE] + if tail != [] then [UPDATE_CL, BODY] else []))
  }

  function UpdateClStep(m: Machine): Outcome {
    var ms := Opened(m.msgs);
    Go(m.(msgs := WithLast(ms, Last(ms).(headers := SetField(Last(ms).headers, CONTENT_LENGTH, [Numeral(|Last(ms).body|)])))))
  }

  function DoneStep(f: Flags, m: Machine): Outcome {
    var n := m.(buffer := Strip(m.buffer));
    if f.greedy then Go(n) else Return(n, DONE)
  }

  predicate Runs(m: Machine) { m.buffer != [] || !NeedData(Top(m.stack)) }

  /** One pass of the loop. */
  function Step(env: Env, f: Flags, m: Machine): Outcome
    requires Inv(m) && Runs(m)
  {
    var n := m.(stack := Pop(m.stack));
    match Top(m.stack)
    case FAILURE => Return(n.(stack := n.stack + [FAILURE]), FAILURE)
    case START => StartStep(n)
    case HEADER => HeaderStep(env, f, n)
    case HEADER_DONE => HeaderDoneStep(env, f, n)
    case BODY => BodyStep(n)
    case BODY_DUMB => BodyDumbStep(n)
    case BODY_LENGTH => BodyLengthStep(n)
    case BODY_CHUNKED => BodyChunkedStep(n)
    case BODY_DONE => BodyDoneStep(env, n)
    case UPDATE_CL => UpdateClStep(n)
    case DONE => DoneStep(f, n)
  }

  // ---- every pass keeps the invariant and the loop ends

  lemma {:induction false} HeaderRunConsumes(info: InfoParser, cleanup: bool, m: H.Machine)
    requires HeaderOk(m.stack)
    ensures var (n, s) := H.Run(info, cleanup, m);
      && HeaderOk(n.stack) && |n.buffer| <= |m.buffer|
      && (s == H.DONE ==> |n.buffer| < |m.buffer|)
    decreases |m.buffer|, H.Rank(H.Top(m.stack))
  {
    hide H.Step;
    if H.Runs(m) {
      H.StepDecreases(info, cleanup, m);
      HeaderStepKeeps(info, cleanup, m);
      var r := H.Step(info, cleanup, m);
      if r.Go? {
        if r.m.stack == [H.DONE] {
          DoneReturns(info, cleanup, r.m);
        } else {
          HeaderRunConsumes(info, cleanup, r.m);
        }
      }
    }
  }

  lemma KeyStepKeeps(info: InfoParser, cleanup: bool, m: H.Machine)
    requires m.stack == [] && m.buffer != []
    ensures var r := H.KeyStep(info, cleanup, m);
      && |r.m.stack| == 1 && |r.m.buffer| <= |m.buffer|
      && (r.Return? ==> r.state != H.DONE && HeaderOk(r.m.stack))
      && (r.Go? && r.m.stack == [H.DONE] ==> |r.m.buffer| < |m.buffer|)
  {
    hide FirstEol, OnInfo, H.LineOf, H.IsName, H.ColonAt, H.BlankEnd, H.Recognise;
    var r := H.KeyStep(info, cleanup, m);
    assert H.Top(r.m.stack) == r.m.stack[|r.m.stack| - 1];
  }

  lemma HeaderStepKeeps(info: InfoParser, cleanup: bool, m: H.Machine)
    requires HeaderOk(m.stack) && H.Runs(m)
    ensures var r := H.Step(info, cleanup, m);
      && |r.m.stack| <= 1 && |r.m.buffer| <= |m.buffer|
      && (r.Return? ==> r.state != H.DONE && HeaderOk(r.m.stack))
      && (r.Go? && r.m.stack == [H.DONE] ==> |r.m.buffer| < |m.buffer|)
  {
    hide FirstEol, OnInfo, OnField, H.AddPiece, H.LineOf, H.IsName, H.ColonAt, SpaceRun, H.BlankEnd, H.Recognise, EolLen,
      H.KeyStep;
    assert H.Pop(m.stack) == [];
    var r := H.Step(info, cleanup, m);
    if H.Top(m.stack) == H.KEY {
      KeyStepKeeps(info, cleanup, m.(stack := []));
    } else if r.Go? {
      assert H.Top(r.m.stack) != H.DONE;
    }
  }

  lemma DoneReturns(info: InfoParser, cleanup: bool, m: H.Machine)
    requires m.stack == [H.DONE]
    ensures H.Run(info, cleanup, m) == (m.(stack := []), H.DONE)
  {
    assert H.Pop(m.stack) == [];
    assert H.Step(info, cleanup, m) == H.Return(m.(stack := []), H.DONE);
  }

  /** Bytes that no state has set aside yet. */
  function Left(m: Machine): int { |m.buffer| - m.cut }

  /** With data left a finished message leads back to a new one; without, a head may still be closed. */
  function StateRank(s: MState, empty: bool): nat {
    match s
    case HEADER => if empty then 7 else 0
    case HEADER_DONE => 6
    case BODY_DUMB => 5
    case BODY_LENGTH => 5
    case BODY_CHUNKED => 5
    case BODY_DONE => 4
    case DONE => 3
    case START => 2
    case _ => 0
  }

  function Rank(stack: seq<MState>, empty: bool): nat {
    if stack == [] then 4 * StateRank(START, empty)
    else 4 * StateRank(stack[0], empty) + if |stack| == 1 then 0 else if stack[|stack| - 1] == UPDATE_CL then 1 else |stack|
  }

  ghost predicate Descends(r: Machine, m: Machine) {
    0 <= Left(r) < Left(m) || (Left(r) == Left(m) && Rank(r.stack, Left(r) == 0) < Rank(m.stack, Left(m) == 0))
  }

  /** A pass that goes on keeps the invariant and comes closer to the end; one that returns is at rest. */
  ghost predicate Good(r: Outcome, m: Machine) {
    if r.Go? then Inv(r.m) && Descends(r.m, m) else AtRest(r.m) && Returnable(r.state)
  }

  lemma ShapeCases(m: Machine)
    requires Inv(m)
    ensures m.stack == [] || (|m.stack| == 1 && Top(m.stack) != BODY && Top(m.stack) != UPDATE_CL)
      || (|m.stack| > 1 && (Top(m.stack) == BODY || m.stack == [DONE, UPDATE_CL]))
  {}

  lemma StripShortens(b: bytes)
    ensures |Strip(b)| <= |b|
  {
    hide SpaceRun;
  }

  lemma StartIsGood(m: Machine)
    requires Inv(m) && Top(m.stack) == START && m.buffer != []
    ensures Pop(m.stack) == [] && Good(StartStep(m.(stack := [])), m)
  {
    hide Strip, HeaderOk, Dechunk.Resumable, StartStep, Shape;
    assert Pop(m.stack) == [] && (m.stack == [] || m.stack == [START]) by { StartIsAlone(m); }
    var b := Strip(m.buffer);
    assert |b| <= |m.buffer| by { StripShortens(m.buffer); }
    StartStepIs(m.(stack := []));
    assert Shape([]) && Shape([HEADER]) by { StartShapes(); }
  }

  lemma StartIsAlone(m: Machine)
    requires Inv(m) && Top(m.stack) == START
    ensures Pop(m.stack) == [] && (m.stack == [] || m.stack == [START])
  {
    hide HeaderOk, Dechunk.Resumable;
  }

  lemma StartShapes() ensures Shape([]) && Shape([HEADER]) {}

  lemma StartStepIs(m: Machine)
    requires m.stack == []
    ensures var b := Strip(m.buffer);
      StartStep(m) == Go(m.(buffer := b, stack := if b != [] then [HEADER] else []))
  {
    hide Strip;
    assert [] + [HEADER] == [HEADER];
  }

  lemma HeaderIsGood(env: Env, f: Flags, m: Machine)
    requires Inv(m) && m.stack == [HEADER]
    ensures Good(HeaderStep(env, f, m.(stack := [])), m)
  {
    hide H.Run, HeaderOk;
    HeaderRunConsumes(env.info, f.cleanup, HeaderMachine(m));
    assert [] + [HEADER] == [HEADER] && [] + [HEADER_DONE] == [HEADER_DONE];
  }

  lemma FreshIsResumable()
    ensures Dechunk.Resumable(Dechunk.Initial)
  {}

  lemma HeaderDoneIsGood(env: Env, f: Flags, m: Machine)
    requires Inv(m) && m.stack == [HEADER_DONE]
    ensures Good(HeaderDoneStep(env, f, m.(stack := [])), m)
  {
    hide HeaderDoneStep, HeaderOk, Dechunk.Resumable;
    HeaderDoneGoes(env, f, m.(stack := []));
    FreshIsResumable();
  }

  /** HEADER_DONE chooses what comes next and touches nothing else but the message, its length and the decoder. */
  lemma HeaderDoneGoes(env: Env, f: Flags, m: Machine)
    requires m.stack == []
    ensures var r := HeaderDoneStep(env, f, m);
      && r.Go? && r.m == m.(msgs := r.m.msgs, stack := r.m.stack, dechunk := r.m.dechunk, bodyLength := r.m.bodyLength)
      && r.m.stack in [[DONE], [BODY_DUMB], [BODY_CHUNKED], [BODY_LENGTH], [BODY_DONE]]
      && (r.m.stack == [BODY_CHUNKED] ==> r.m.dechunk == Some(Dechunk.Initial))
  {
    hide Rewritten, FramingOf, EndsAtRedirect, WithLast, Opened;
    assert [] + [DONE] == [DONE] && [] + [BODY_DUMB] == [BODY_DUMB] && [] + [BODY_CHUNKED] == [BODY_CHUNKED];
    assert [] + [BODY_LENGTH] == [BODY_LENGTH] && [] + [BODY_DONE] == [BODY_DONE];
  }

  lemma BodyIsGood(m: Machine)
    requires Inv(m) && Top(m.stack) == BODY
    ensures Good(BodyStep(m.(stack := Pop(m.stack))), m)
  {
    hide Write, HeaderOk, FirstEol;
    assert Pop([BODY_DONE, BODY]) == [BODY_DONE] && Pop([BODY_LENGTH, BODY]) == [BODY_LENGTH];
    assert Pop([BODY_CHUNKED, BODY]) == [BODY_CHUNKED] && Pop([DONE, UPDATE_CL, BODY]) == [DONE, UPDATE_CL];
    assert BODY_CHUNKED in Pop(m.stack) ==> BODY_CHUNKED in m.stack;
  }

  lemma DumbIsGood(m: Machine)
    requires Inv(m) && m.stack == [BODY_DUMB] && m.buffer != []
    ensures Good(BodyDumbStep(m.(stack := [])), m)
  {
    hide HeaderOk, FirstEol, Dechunk.Resumable;
    assert [] + [BODY_DONE, BODY] == [BODY_DONE, BODY];
  }

  lemma LengthIsGood(m: Machine)
    requires Inv(m) && m.stack == [BODY_LENGTH] && m.buffer != []
    ensures Good(BodyLengthStep(m.(stack := [])), m)
  {
    hide HeaderOk, FirstEol, Dechunk.Resumable;
    assert [] + [BODY_DONE, BODY] == [BODY_DONE, BODY] && [] + [BODY_LENGTH, BODY] == [BODY_LENGTH, BODY];
  }

  /** The three ways on from BODY_CHUNKED, and what the decoder guarantees for each. */
  lemma ChunkedStepIs(m: Machine)
    requires m.stack == [] && m.dechunk.Some? && Dechunk.Resumable(m.dechunk.value) && !m.dechunk.value.zeroed
    ensures var r, s := Dechunk.Updated(m.dechunk.value, m.buffer, false), BodyChunkedStep(m);
      && (!r.ok ==> s == Return(m.(dechunk := Some(r.ctx)), FAILURE))
      && (r.ok && r.ctx.zeroed ==>
            |r.ctx.buffer| <= |m.buffer| && s == Go(m.(dechunk := Some(r.ctx), str := r.out, cut := |m.buffer| - |r.ctx.buffer|, stack := [BODY_DONE, BODY])))
      && (r.ok && !r.ctx.zeroed ==>
            Dechunk.Resumable(r.ctx) && s == Go(m.(dechunk := Some(r.ctx), str := r.out, cut := |m.buffer|, stack := [BODY_CHUNKED, BODY])))
  {
    hide Dechunk.Updated, Dechunk.Resumable;
    DechunkRuns.LeftoverIsSuffixOfFeed(m.dechunk.value, m.buffer, false);
    DechunkRuns.ResumableIsKept(m.dechunk.value, m.buffer, false);
    assert [] + [BODY_DONE, BODY] == [BODY_DONE, BODY] && [] + [BODY_CHUNKED, BODY] == [BODY_CHUNKED, BODY];
  }

  lemma ChunkedIsGood(m: Machine)
    requires Inv(m) && m.stack == [BODY_CHUNKED] && m.buffer != []
    ensures m.dechunk.Some? && Good(BodyChunkedStep(m.(stack := [])), m)
  {
    hide HeaderOk, Dechunk.Updated, Dechunk.Resumable, BodyChunkedStep;
    assert BODY_CHUNKED in m.stack;
    ChunkedStepIs(m.(stack := []));
  }

  lemma BodyDoneIsGood(env: Env, m: Machine)
    requires Inv(m) && m.stack == [BODY_DONE]
    ensures Good(BodyDoneStep(env, m.(stack := [])), m)
  {
    hide HeaderOk, FirstEol, Dechunk.Resumable;
    assert [] + [DONE] + [UPDATE_CL, BODY] == [DONE, UPDATE_CL, BODY] && [] + [DONE] + [] == [DONE];
  }

  lemma UpdateClIsGood(m: Machine)
    requires Inv(m) && m.stack == [DONE, UPDATE_CL]
    ensures Good(UpdateClStep(m.(stack := [DONE])), m)
  {
    hide HeaderOk, FirstEol, Dechunk.Resumable, SetField, WithLast, Opened;
  }

  lemma DoneIsGood(f: Flags, m: Machine)
    requires Inv(m) && m.stack == [DONE]
    ensures Good(DoneStep(f, m.(stack := [])), m)
  {
    hide HeaderOk, FirstEol, Dechunk.Resumable, SpaceRun;
  }

  lemma FailureIsGood(m: Machine)
    requires Inv(m) && m.stack == [FAILURE]
    ensures Good(Return(m, FAILURE), m)
  {
    hide HeaderOk, FirstEol, Dechunk.Resumable;
  }

  lemma StepIsGood(env: Env, f: Flags, m: Machine)
    requires Inv(m) && Runs(m)
    ensures Good(Step(env, f, m), m)
  {
    hide StartStep, HeaderStep, HeaderDoneStep, BodyStep, BodyDumbStep, BodyLengthStep, BodyChunkedStep,
      BodyDoneStep, UpdateClStep, DoneStep, Inv, Good;
    ShapeCases(m);
    var t := Top(m.stack);
    assert |m.stack| == 1 ==> Pop(m.stack) == [] && m.stack == [t];
    match t {
      case START => StartIsGood(m);
      case HEADER => HeaderIsGood(env, f, m);
      case HEADER_DONE => HeaderDoneIsGood(env, f, m);
      case BODY => BodyIsGood(m);
      case BODY_DUMB => DumbIsGood(m);
      case BODY_LENGTH => LengthIsGood(m);
      case BODY_CHUNKED => ChunkedIsGood(m);
      case BODY_DONE => BodyDoneIsGood(env, m);
      case UPDATE_CL =>
        assert Pop([DONE, UPDATE_CL]) == [DONE];
        UpdateClIsGood(m);
      case DONE => DoneIsGood(f, m);
      case FAILURE =>
        assert [] + [FAILURE] == [FAILURE];
        FailureIsGood(m);
    }
  }

  /** The loop, from any machine that keeps the invariant. */
  function Run(env: Env, f: Flags, m: Machine): (r: (Machine, MState))
    requires Inv(m)
    ensures AtRest(r.0) && Returnable(r.1)
    decreases Left(m), Rank(m.stack, Left(m) == 0)
  {
    if !Runs(m) then RestsWhenIdle(m); (m, Top(m.stack))
    else
      StepIsGood(env, f, m);
      match Step(env, f, m)
      case Go(n) => Run(env, f, n)
      case Return(n, s) => (n, s)
  }

  lemma RestsWhenIdle(m: Machine)
    requires Inv(m) && !Runs(m)
    ensures AtRest(m) && Returnable(Top(m.stack))
  {
    hide HeaderOk, FirstEol;
  }

  // ---- the parser as it runs

  class Parser {
    const env: Env
    var stack: seq<MState>
    var hstack: seq<H.HState>
    var key: Option<bytes>
    var val: Option<bytes>
    var bodyLength: nat
    var dechunk: Option<Dechunk.Context>
    var msgs: seq<Message>

    ghost function Now(buffer: bytes): Machine
      reads this
    {
      Machine(stack, hstack, key, val, bodyLength, dechunk, buffer, msgs, [], 0)
    }

    constructor (env: Env, msgs: seq<Message>)
      ensures this.env == env && Now([]) == Fresh(msgs) && AtRest(Now([]))
    {
      this.env := env;
      stack, hstack, key, val, bodyLength, dechunk := [], [], None, None, 0, None;
      this.msgs := msgs;
    }

    /** One call: the state returned and what is left of the buffer. */
    method Parse(buffer: bytes, f: Flags) returns (state: MState, rest: bytes)
      requires AtRest(Now(buffer))
      modifies this
      ensures AtRest(Now(rest)) && Returnable(state)
      ensures (Now(rest), state) == Run(env, f, old(Now(buffer)))
    {
      hide StartStep, HeaderStep, HeaderDoneStep, BodyStep, BodyDumbStep, BodyLengthStep, BodyChunkedStep,
        BodyDoneStep, UpdateClStep, DoneStep, Inv, AtRest, Rank;
      rest := buffer;
      var str: bytes, cut: nat := [], 0;
      assert Inv(Now(buffer)) by { RestIsInv(Now(buffer)); }
      ghost var goal := Run(env, f, Now(buffer));
      while rest != [] || !NeedData(Top(stack))
        invariant Inv(Now(rest).(str := str, cut := cut))
        invariant goal == Run(env, f, Now(rest).(str := str, cut := cut))
        decreases |rest| - cut, Rank(stack, |rest| - cut == 0)
      {
        var m := Machine(stack, hstack, key, val, bodyLength, dechunk, rest, msgs, str, cut);
        StepIsGood(env, f, m);
        var r := Step(env, f, m);
        stack, hstack, key, val := r.m.stack, r.m.hstack, r.m.key, r.m.val;
        bodyLength, dechunk, msgs := r.m.bodyLength, r.m.dechunk, r.m.msgs;
        rest, str, cut := r.m.buffer, r.m.str, r.m.cut;
        if r.Return? {
          assert str == [] && cut == 0 by { RestIsInv(r.m); }
          return r.state, rest;
        }
      }
      RestsWhenIdle(Now(rest).(str := str, cut := cut));
      RestIsInv(Now(rest).(str := str, cut := cut));
      state := Top(stack);
    }
  }

  function Fresh(msgs: seq<Message>): Machine { Machine([], [], None, None, 0, None, [], msgs, [], 0) }

  lemma RestIsInv(m: Machine)
    requires AtRest(m)
    ensures Inv(m) && m.str == [] && m.cut == 0
  {
    hide Inv;
  }

  // ---- whole runs

  datatype Call = Call(data: bytes, flags: Flags)

  /** Any number of calls, each with more data and its own flags: the machine and the states returned. */
  function Calls(env: Env, m: Machine, cs: seq<Call>): (r: (Machine, seq<MState>))
    requires AtRest(m)
    ensures AtRest(r.0) && |r.1| == |cs|
    decreases |cs|
  {
    if cs == [] then (m, [])
    else
      Refilled(m, cs[0].data);
      var (n, s) := Run(env, cs[0].flags, m.(buffer := m.buffer + cs[0].data));
      var (k, ss) := Calls(env, n, cs[1..]);
      (k, [s] + ss)
  }

  lemma Refilled(m: Machine, data: bytes)
    requires AtRest(m)
    ensures Inv(m.(buffer := m.buffer + data))
  {
    hide HeaderOk, FirstEol;
  }

  /** No call of any run returns in a state for which the stream reader would abort. */
  lemma {:induction false} NeverReturnsMidway(env: Env, m: Machine, cs: seq<Call>, i: nat)
    requires AtRest(m) && i < |cs|
    ensures Calls(env, m, cs).1[i] !in [HEADER_DONE, BODY, BODY_DONE, UPDATE_CL]
    decreases i
  {
    hide Run, AtRest;
    Refilled(m, cs[0].data);
    var (n, s) := Run(env, cs[0].flags, m.(buffer := m.buffer + cs[0].data));
    if i > 0 {
      NeverReturnsMidway(env, n, cs[1..], i - 1);
    }
  }

  // ---- the passes of a call

  /** The machines that the passes of a call start from, the last of which ends the call. */
  function Passes(env: Env, f: Flags, m: Machine): (ps: seq<Machine>)
    requires Inv(m)
    ensures ps != [] && ps[0] == m
    decreases Left(m), Rank(m.stack, Left(m) == 0)
  {
    if !Runs(m) then [m]
    else
      StepIsGood(env, f, m);
      match Step(env, f, m)
      case Go(n) => [m] + Passes(env, f, n)
      case Return(_, _) => [m]
  }

  /** Each pass leads to the next one, and the last to the end of the run. */
  lemma {:induction false} PassesAreTheRun(env: Env, f: Flags, m: Machine, i: nat)
    requires Inv(m) && i < |Passes(env, f, m)|
    ensures var p := Passes(env, f, m)[i];
      && Inv(p) && Run(env, f, p) == Run(env, f, m)
      && (if i + 1 < |Passes(env, f, m)| then Runs(p) && Step(env, f, p) == Go(Passes(env, f, m)[i + 1])
          else Runs(p) ==> Step(env, f, p).Return?)
    decreases i
  {
    hide Step, Inv, Rank;
    if i > 0 {
      StepIsGood(env, f, m);
      PassesAreTheRun(env, f, Step(env, f, m).m, i - 1);
    }
  }

  lemma FreshRests(msgs: seq<Message>) ensures AtRest(Fresh(msgs)) {}

  /** The passes of call `j` of a run from the beginning. */
  function PassesOf(env: Env, msgs: seq<Message>, cs: seq<Call>, j: nat): seq<Machine>
    requires j < |cs|
  {
    FreshRests(msgs);
    var m := Calls(env, Fresh(msgs), cs[..j]).0;
    Refilled(m, cs[j].data);
    Passes(env, cs[j].flags, m.(buffer := m.buffer + cs[j].data))
  }

  lemma PassIsGood(env: Env, msgs: seq<Message>, cs: seq<Call>, j: nat, i: nat)
    requires j < |cs| && i < |PassesOf(env, msgs, cs, j)|
    ensures var ps := PassesOf(env, msgs, cs, j);
      && Inv(ps[i]) && (i == 0 ==> ps[i].str == [] && ps[i].cut == 0)
      && (i + 1 < |ps| ==> Runs(ps[i]) && Step(env, cs[j].flags, ps[i]) == Go(ps[i + 1]))
      && (i + 1 == |ps| && Runs(ps[i]) ==> Step(env, cs[j].flags, ps[i]).Return?)
  {
    hide Step, Inv, Calls, Passes, Run;
    FreshRests(msgs);
    var m := Calls(env, Fresh(msgs), cs[..j]).0;
    Refilled(m, cs[j].data);
    RestIsInv(m);
    PassesAreTheRun(env, cs[j].flags, m.(buffer := m.buffer + cs[j].data), i);
  }

  lemma ShapeIsShallow(stack: seq<MState>)
    requires Shape(stack)
    ensures |stack| <= 3 && (|stack| == 3 ==> stack == [DONE, UPDATE_CL, BODY])
  {}

  /** At every pass of every call of every run the stack holds at most three states. */
  lemma StackIsShallow(env: Env, msgs: seq<Message>, cs: seq<Call>, j: nat, i: nat)
    requires j < |cs| && i < |PassesOf(env, msgs, cs, j)|
    ensures var s := PassesOf(env, msgs, cs, j)[i].stack; |s| <= 3 && (|s| == 3 ==> s == [DONE, UPDATE_CL, BODY])
  {
    hide PassesOf, Shape, Step;
    PassIsGood(env, msgs, cs, j, i);
    ShapeIsShallow(PassesOf(env, msgs, cs, j)[i].stack);
  }

  lemma BodyPass(env: Env, f: Flags, m: Machine)
    requires Inv(m) && (m.str != [] || m.cut > 0)
    ensures Runs(m) && Top(m.stack) == BODY
    ensures Step(env, f, m) == Go(m.(stack := Pop(m.stack), msgs := Write(m.msgs, m.str), buffer := m.buffer[m.cut..],
                                     str := [], cut := 0))
  {
    hide Shape, HeaderOk, Write, Dechunk.Resumable;
  }

  /**
   * In every run, what a pass finds set aside was set by the pass before it in the same call, and
   * that pass itself writes and cuts it: it is a BODY pass, and another one follows in the call.
   */
  lemma SetAsideIsConsumed(env: Env, msgs: seq<Message>, cs: seq<Call>, j: nat, i: nat)
    requires j < |cs| && i < |PassesOf(env, msgs, cs, j)|
    ensures var ps := PassesOf(env, msgs, cs, j);
      ps[i].str != [] || ps[i].cut > 0 ==>
        && i > 0 && ps[i - 1].str == [] && ps[i - 1].cut == 0 && Top(ps[i].stack) == BODY
        && ps[i].cut <= |ps[i].buffer| && i + 1 < |ps|
        && ps[i + 1] == ps[i].(stack := Pop(ps[i].stack), msgs := Write(ps[i].msgs, ps[i].str),
                               buffer := ps[i].buffer[ps[i].cut..], str := [], cut := 0)
  {
    hide PassesOf, Step, Inv, Write;
    var ps, f := PassesOf(env, msgs, cs, j), cs[j].flags;
    PassIsGood(env, msgs, cs, j, i);
    if ps[i].str != [] || ps[i].cut > 0 {
      BodyPass(env, f, ps[i]);
      CutIsWithin(ps[i]);
      PassIsGood(env, msgs, cs, j, i - 1);
      if ps[i - 1].str != [] || ps[i - 1].cut > 0 { BodyPass(env, f, ps[i - 1]); }
    }
  }

  lemma CutIsWithin(m: Machine) requires Inv(m) ensures m.cut <= |m.buffer| { hide Shape, HeaderOk, Dechunk.Resumable; }

  // ---- bodies

  /** When a chunked body ends, the buffer then holds exactly what the decoder has not used. */
  lemma ChunkedBodyEnds(env: Env, f: Flags, m: Machine)
    requires Inv(m) && m.stack == [BODY_CHUNKED] && m.buffer != []
    requires m.dechunk.Some? && Dechunk.Updated(m.dechunk.value, m.buffer, false).ctx.zeroed
    ensures var r := Dechunk.Updated(m.dechunk.value, m.buffer, false);
      var n := m.(stack := [BODY_DONE], msgs := Write(m.msgs, r.out), buffer := r.ctx.buffer, dechunk := Some(r.ctx));
      Inv(n) && Run(env, f, m) == Run(env, f, n)
  {
    hide Inv, Write, Dechunk.Updated, Run, Step;
    var r := Dechunk.Updated(m.dechunk.value, m.buffer, false);
    EndIsSetAside(env, f, m);
    var m1 := m.(stack := [BODY_DONE, BODY], dechunk := Some(r.ctx), str := r.out, cut := |m.buffer| - |r.ctx.buffer|);
    GoRuns(env, f, m, m1);
    EndIsCut(env, f, m1);
    GoRuns(env, f, m1, m1.(stack := [BODY_DONE], msgs := Write(m.msgs, r.out), buffer := r.ctx.buffer, str := [], cut := 0));
  }

  lemma EndsOk(c: Dechunk.Context, data: bytes)
    requires !c.zeroed && Dechunk.Updated(c, data, false).ctx.zeroed
    ensures Dechunk.Updated(c, data, false).ok
  {}

  lemma EndIsSetAside(env: Env, f: Flags, m: Machine)
    requires Inv(m) && m.stack == [BODY_CHUNKED] && m.buffer != []
    requires m.dechunk.Some? && Dechunk.Updated(m.dechunk.value, m.buffer, false).ctx.zeroed
    ensures var r := Dechunk.Updated(m.dechunk.value, m.buffer, false);
      && m.str == [] && m.cut == 0 && |r.ctx.buffer| <= |m.buffer|
      && m.buffer[|m.buffer| - |r.ctx.buffer|..] == r.ctx.buffer
      && Step(env, f, m) == Go(m.(stack := [BODY_DONE, BODY], dechunk := Some(r.ctx), str := r.out,
                                  cut := |m.buffer| - |r.ctx.buffer|))
  {
    hide HeaderOk, FirstEol, Dechunk.Resumable, Dechunk.Updated;
    assert BODY_CHUNKED in m.stack;
    DechunkRuns.LeftoverIsSuffixOfFeed(m.dechunk.value, m.buffer, false);
    assert Dechunk.Updated(m.dechunk.value, m.buffer, false).ok by { EndsOk(m.dechunk.value, m.buffer); }
    assert Pop(m.stack) == [] && [] + [BODY_DONE, BODY] == [BODY_DONE, BODY];
  }

  lemma EndIsCut(env: Env, f: Flags, m: Machine)
    requires Inv(m) && m.stack == [BODY_DONE, BODY]
    ensures Step(env, f, m) == Go(m.(stack := [BODY_DONE], msgs := Write(m.msgs, m.str), buffer := m.buffer[m.cut..],
                                     str := [], cut := 0))
  {
    hide HeaderOk, FirstEol, Dechunk.Resumable, Write;
    assert Pop(m.stack) == [BODY_DONE];
  }

  lemma GoRuns(env: Env, f: Flags, m: Machine, n: Machine)
    requires Inv(m) && Runs(m) && Step(env, f, m) == Go(n)
    ensures Inv(n) && Run(env, f, m) == Run(env, f, n)
  {
    hide Step, Inv;
    StepIsGood(env, f, m);
  }

  /** The parser waits for `left` more bytes of the newest message's body. */
  ghost predicate Awaits(m: Machine, left: nat) {
    AtRest(m) && m.stack == [BODY_LENGTH] && m.bodyLength == left > 0 && m.buffer == [] && m.dechunk == None && m.msgs != []
  }

  function WithBody(m: Machine, s: bytes): Machine
    requires m.msgs != []
  {
    m.(msgs := WithLast(m.msgs, Last(m.msgs).(body := Last(m.msgs).body + s)))
  }

  lemma BodyIsTheMessages(m: Machine, n: Machine, s: bytes)
    requires m.msgs != [] && n.msgs == m.msgs
    ensures WithBody(n, s) == n.(msgs := WithBody(m, s).msgs) && WithBody(m, s) == m.(msgs := WithBody(m, s).msgs)
  {}

  lemma PartIsSetAside(env: Env, f: Flags, m: Machine, d: bytes, k: nat)
    requires Awaits(m, m.bodyLength) && d != [] && k == if |d| < m.bodyLength then |d| else m.bodyLength
    ensures Inv(m.(buffer := d)) && Runs(m.(buffer := d)) && k <= |d|
    ensures Step(env, f, m.(buffer := d)) == Go(m.(buffer := d, str := d[..k], cut := k, bodyLength := m.bodyLength - k,
                                                   stack := [if k < m.bodyLength then BODY_LENGTH else BODY_DONE, BODY]))
  {
    hide HeaderOk, FirstEol, Dechunk.Resumable;
    var below := if k < m.bodyLength then BODY_LENGTH else BODY_DONE;
    assert Pop(m.stack) == [] && [] + [below, BODY] == [below, BODY];
  }

  lemma BodyWrites(env: Env, f: Flags, m: Machine, below: MState)
    requires Inv(m) && m.stack == [below, BODY] && m.str != [] && m.msgs != []
    ensures Step(env, f, m) == Go(WithBody(m, m.str).(buffer := m.buffer[m.cut..], str := [], cut := 0, stack := [below]))
  {
    hide HeaderOk, FirstEol, Dechunk.Resumable;
    assert Pop([below, BODY]) == [below];
  }

  lemma AwaitsRests(m: Machine)
    requires Awaits(m, m.bodyLength)
    ensures m.str == [] && m.cut == 0
  {
    hide Inv;
  }

  lemma PartIsWritten(env: Env, f: Flags, m: Machine, d: bytes)
    requires Awaits(m, m.bodyLength) && d != []
    ensures var k := if |d| < m.bodyLength then |d| else m.bodyLength;
      var n := WithBody(m, d[..k]).(buffer := d[k..], bodyLength := m.bodyLength - k,
                                    stack := [if k < m.bodyLength then BODY_LENGTH else BODY_DONE]);
      Inv(m.(buffer := d)) && Inv(n) && Run(env, f, m.(buffer := d)) == Run(env, f, n)
  {
    hide HeaderOk, FirstEol, Run, Dechunk.Resumable, Step, Inv, AtRest, WithBody;
    var k := if |d| < m.bodyLength then |d| else m.bodyLength;
    var m0 := m.(buffer := d);
    var below := if k < m.bodyLength then BODY_LENGTH else BODY_DONE;
    var m1 := m0.(stack := [below, BODY], str := d[..k], cut := k, bodyLength := m.bodyLength - k);
    PartIsSetAside(env, f, m, d, k);
    GoRuns(env, f, m0, m1);
    BodyWrites(env, f, m1, below);
    var n := WithBody(m, d[..k]).(buffer := d[k..], bodyLength := m.bodyLength - k, stack := [below]);
    BodyIsTheMessages(m, m1, d[..k]);
    assert m.str == [] && m.cut == 0 by { AwaitsRests(m); }
    GoRuns(env, f, m1, n);
  }

  /** Less than the rest of the body: all of it is written and that much less is awaited. */
  lemma PartialFeed(env: Env, f: Flags, m: Machine, d: bytes)
    requires Awaits(m, m.bodyLength) && |d| < m.bodyLength
    ensures Inv(m.(buffer := d))
    ensures var n := WithBody(m, d).(bodyLength := m.bodyLength - |d|);
      Awaits(n, n.bodyLength) && Run(env, f, m.(buffer := d)) == (n, BODY_LENGTH)
  {
    hide HeaderOk, FirstEol;
    var n := WithBody(m, d).(bodyLength := m.bodyLength - |d|);
    if d == [] {
      assert Last(m.msgs).body + d == Last(m.msgs).body;
      assert n == m;
    } else {
      PartIsWritten(env, f, m, d);
      assert d[..|d|] == d && d[|d|..] == [];
    }
  }

  /** The rest of the body and maybe more: the body is complete and the message is done. */
  lemma LastFeedIsDone(env: Env, f: Flags, m: Machine, d: bytes)
    requires Awaits(m, m.bodyLength) && |d| >= m.bodyLength
    ensures var n := WithBody(m, d[..m.bodyLength]).(buffer := d[m.bodyLength..], bodyLength := 0, stack := [DONE]);
      Inv(m.(buffer := d)) && Inv(n) && Run(env, f, m.(buffer := d)) == Run(env, f, n)
  {
    hide HeaderOk, Run, WithBody;
    PartIsWritten(env, f, m, d);
    var n := WithBody(m, d[..m.bodyLength]).(buffer := d[m.bodyLength..], bodyLength := 0, stack := [BODY_DONE]);
    BodyIsTheMessages(m, m, d[..m.bodyLength]);
    assert Pop(n.stack) == [] && [] + [DONE] + [] == [DONE];
    assert Step(env, f, n) == Go(n.(stack := [DONE]));
    GoRuns(env, f, n, n.(stack := [DONE]));
  }

  /** A finished message: white space is dropped; the call ends here, or goes on with the next message. */
  lemma DonePass(env: Env, f: Flags, m: Machine)
    requires Inv(m) && m.stack == [DONE]
    ensures var n := m.(stack := [], buffer := Strip(m.buffer));
      if f.greedy then Inv(n) && Run(env, f, m) == Run(env, f, n) else Run(env, f, m) == (n, DONE)
  {
    hide HeaderOk, Run, SpaceRun, Dechunk.Resumable;
    assert Pop(m.stack) == [];
    var n := m.(stack := [], buffer := Strip(m.buffer));
    if f.greedy {
      GoRuns(env, f, m, n);
    } else {
      ReturnRuns(env, f, m, n, DONE);
    }
  }

  /** Without GREEDY the call ends there, and the rest less white space stays. */
  lemma LastFeed(env: Env, f: Flags, m: Machine, d: bytes)
    requires Awaits(m, m.bodyLength) && |d| >= m.bodyLength && !f.greedy
    ensures Inv(m.(buffer := d))
    ensures Run(env, f, m.(buffer := d))
      == (WithBody(m, d[..m.bodyLength]).(buffer := Strip(d[m.bodyLength..]), bodyLength := 0, stack := []), DONE)
  {
    hide AtRest, Inv, Run, Strip, WithBody;
    LastFeedIsDone(env, f, m, d);
    DonePass(env, f, WithBody(m, d[..m.bodyLength]).(buffer := d[m.bodyLength..], bodyLength := 0, stack := [DONE]));
  }

  lemma ReturnRuns(env: Env, f: Flags, m: Machine, n: Machine, s: MState)
    requires Inv(m) && Runs(m) && Step(env, f, m) == Return(n, s)
    ensures Run(env, f, m) == (n, s)
  {
    hide Step, Inv;
  }

  function Datas(cs: seq<Call>): bytes { if cs == [] then [] else cs[0].data + Datas(cs[1..]) }

  /** While the body is not complete, what is written and what is awaited add up. */
  lemma {:induction false} PartialCalls(env: Env, m: Machine, cs: seq<Call>)
    requires Awaits(m, m.bodyLength) && |Datas(cs)| < m.bodyLength
    ensures AtRest(m)
    ensures var (k, ss) := Calls(env, m, cs);
      && k == WithBody(m, Datas(cs)).(bodyLength := m.bodyLength - |Datas(cs)|) && Awaits(k, k.bodyLength)
      && (forall i :: 0 <= i < |ss| ==> ss[i] == BODY_LENGTH)
    decreases |cs|
  {
    hide HeaderOk, Run, AtRest;
    if cs == [] {
      assert Last(m.msgs).body + [] == Last(m.msgs).body;
      assert WithBody(m, []) == m;
    } else {
      var c := cs[0];
      assert m.buffer + c.data == c.data;
      PartialFeed(env, c.flags, m, c.data);
      var m1 := WithBody(m, c.data).(bodyLength := m.bodyLength - |c.data|);
      PartialCalls(env, m1, cs[1..]);
      BodyAdds(m, c.data, Datas(cs[1..]));
    }
  }

  /**
   * However a body of `n` bytes is cut into calls, what is written and what is awaited add up to n;
   * the call that brings the n-th byte ends the message with exactly the first n bytes as its body
   * and leaves the rest, less leading white space, in the buffer.
   */
  lemma LengthBodyFragments(env: Env, m: Machine, cs: seq<Call>, last: Call)
    requires Awaits(m, m.bodyLength) && !last.flags.greedy
    requires |Datas(cs)| < m.bodyLength <= |Datas(cs)| + |last.data|
    ensures var x, n := Datas(cs) + last.data, m.bodyLength;
      var (k, ss) := Calls(env, m, cs);
      && Awaits(k, n - |Datas(cs)|) && Last(k.msgs).body == Last(m.msgs).body + Datas(cs)
      && (forall i :: 0 <= i < |ss| ==> ss[i] == BODY_LENGTH)
      && Calls(env, k, [last])
         == (WithBody(m, x[..n]).(buffer := Strip(x[n..]), bodyLength := 0, stack := []), [DONE])
  {
    hide HeaderOk, Run, Strip, AtRest, Calls;
    PartialCalls(env, m, cs);
    var x, n, d := Datas(cs) + last.data, m.bodyLength, last.data;
    var k := Calls(env, m, cs).0;
    assert k.buffer + d == d;
    LastFeed(env, last.flags, k, d);
    OneCall(env, k, last);
    var r := n - |Datas(cs)|;
    assert x[..n] == Datas(cs) + d[..r] && x[n..] == d[r..];
    BodyAdds(m, Datas(cs), d[..r]);
  }

  lemma OneCall(env: Env, m: Machine, c: Call)
    requires AtRest(m)
    ensures Inv(m.(buffer := m.buffer + c.data))
    ensures var r := Run(env, c.flags, m.(buffer := m.buffer + c.data)); Calls(env, m, [c]) == (r.0, [r.1])
  {
    hide Run, Inv;
    Refilled(m, c.data);
    var r := Run(env, c.flags, m.(buffer := m.buffer + c.data));
    assert [c][1..] == [] && Calls(env, r.0, []) == (r.0, []);
    assert [r.1] + [] == [r.1];
  }

  lemma BodyAdds(m: Machine, a: bytes, b: bytes)
    requires m.msgs != []
    ensures WithBody(WithBody(m, a), b) == WithBody(m, a + b)
  {
    assert (Last(m.msgs).body + a) + b == Last(m.msgs).body + (a + b);
  }
}
