/** The header parser: a state machine on a stack, which consumes a buffer and can be resumed. */
module HeaderParser {
  import opened Bytes
  import opened HeaderNames
  import opened Messages

  datatype HState = FAILURE | START | KEY | VALUE | VALUE_EX | HEADER_DONE | DONE

  /** Whether a state waits for data. The table has no row for FAILURE; either answer ends the call alike. */
  predicate NeedData(s: HState) { s == START || s == KEY || s == VALUE }

  function Top(stack: seq<HState>): HState { if stack == [] then START else stack[|stack| - 1] }
  function Pop(stack: seq<HState>): seq<HState> { if stack == [] then [] else stack[..|stack| - 1] }

  /** The parser, the buffer it reads from and the messages it fills. */
  datatype Machine = Machine(stack: seq<HState>, key: Option<bytes>, val: Option<bytes>,
                             buffer: bytes, msgs: seq<Message>)

  /** One pass of the loop either goes on or returns a state. */
  datatype Outcome = Go(m: Machine) | Return(m: Machine, state: HState)

  // ---- pieces of text

  /** The bytes "!#$%&'*+-.^_`|~", digits and letters. */
  predicate IsNameByte(b: byte) {
    IsDigit(b) || IsAlpha(b) || b in [33, 35, 36, 37, 38, 39, 42, 43, 45, 46, 94, 95, 96, 124, 126]
  }

  predicate IsName(s: bytes) { forall i :: 0 <= i < |s| ==> IsNameByte(s[i]) }

  function ColonAt(s: bytes, i: nat): (c: nat)
    requires i <= |s|
    ensures i <= c <= |s|
    ensures forall k :: i <= k < c ==> s[k] != 58
    ensures c < |s| ==> s[c] == 58
    decreases |s| - i
  {
    if i == |s| || s[i] == 58 then i else ColonAt(s, i + 1)
  }

  /** End of the white space from `i` on that is not a line end. */
  function BlankEnd(s: bytes, i: nat): (e: nat)
    requires i <= |s|
    ensures i <= e <= |s|
    ensures forall k :: i <= k < e ==> IsSpace(s[k]) && !IsEolByte(s[k])
    decreases |s| - i
  {
    if i < |s| && IsSpace(s[i]) && !IsEolByte(s[i]) then BlankEnd(s, i + 1) else i
  }

  function TrimRight(s: bytes): (r: bytes)
    ensures |r| <= |s| && r == s[..|r|]
    ensures r != [] ==> !IsSpace(r[|r| - 1])
    ensures forall k :: |r| <= k < |s| ==> IsSpace(s[k])
  {
    if s != [] && IsSpace(s[|s| - 1]) then TrimRight(s[..|s| - 1]) else s
  }

  function TrimSpace(s: bytes): bytes { TrimRight(s[SpaceRun(s)..]) }

  /** A piece of a value: trimmed, joined with one space, and dropped when it is empty. */
  function AddPiece(val: Option<bytes>, piece: bytes): Option<bytes> {
    var t := TrimSpace(piece);
    if t == [] then val else if val.Some? then Some(val.value + [SP] + t) else Some(t)
  }

  /** The start line that the recogniser sees: up to a line end or a NUL. */
  function LineOf(s: bytes): (l: bytes)
    ensures |l| <= |s| && l == s[..|l|]
    ensures forall i :: 0 <= i < |l| ==> !IsEolByte(l[i]) && l[i] != NUL
    ensures |l| < |s| ==> IsEolByte(s[|l|]) || s[|l|] == NUL
  {
    if s == [] || IsEolByte(s[0]) || s[0] == NUL then [] else [s[0]] + LineOf(s[1..])
  }

  /** An empty line is never a start line. */
  function Recognise(info: InfoParser, line: bytes): Option<Info> { if line == [] then None else info(line) }

  // ---- the states

  function KeyStep(info: InfoParser, cleanup: bool, m: Machine): Outcome
    requires m.buffer != []
  {
    var b := m.buffer;
    var p := FirstEol(b);
    var c := ColonAt(b, 0);
    if p == 0 then Go(m.(buffer := b[EolLen(b, 0)..], stack := m.stack + [DONE]))
    else if Recognise(info, LineOf(b)).Some? then
      Go(m.(msgs := OnInfo(m.msgs, Recognise(info, LineOf(b)).value),
            buffer := if p < |b| then b[p + EolLen(b, p)..] else [], stack := m.stack + [HEADER_DONE]))
    else if c < |b| && c < p then
      if IsName(b[..c])
      then Go(m.(key := Some(b[..c]), buffer := b[BlankEnd(b, c + 1)..], stack := m.stack + [VALUE]))
      else Return(m.(key := None, stack := m.stack + [FAILURE]), FAILURE)
    else if p < |b| || cleanup then Return(m.(stack := m.stack + [FAILURE]), FAILURE)
    else Return(m.(stack := m.stack + [KEY]), KEY)
  }

  function ValueStep(cleanup: bool, m: Machine): Outcome {
    var b := m.buffer;
    var p := FirstEol(b);
    if p < |b| then
      Go(m.(val := AddPiece(m.val, b[..p]), buffer := b[p + EolLen(b, p)..], stack := m.stack + [VALUE_EX]))
    else if cleanup then Go(m.(val := AddPiece(m.val, b), buffer := [], stack := m.stack + [HEADER_DONE]))
    else Return(m.(stack := m.stack + [VALUE]), VALUE)
  }

  function ValueExStep(cleanup: bool, m: Machine): Outcome {
    var b := m.buffer;
    if b != [] && (b[0] == SP || b[0] == TAB) then Go(m.(stack := m.stack + [VALUE]))
    else if b != [] || cleanup then Go(m.(stack := m.stack + [HEADER_DONE]))
    else Return(m.(stack := m.stack + [VALUE_EX]), VALUE_EX)
  }

  /** A NUL in the value is refused. */
  function HeaderDoneStep(m: Machine): Outcome {
    var n := m.(key := None, val := None);
    if m.key.Some? && m.val.Some? then
      if NUL in m.val.value then Return(n.(stack := m.stack + [FAILURE]), FAILURE)
      else Go(n.(msgs := OnField(m.msgs, Canonical(m.key.value), m.val.value), stack := m.stack + [KEY]))
    else Go(n.(stack := m.stack + [KEY]))
  }

  predicate Runs(m: Machine) { m.buffer != [] || !NeedData(Top(m.stack)) }

  /** One pass of the loop. */
  function Step(info: InfoParser, cleanup: bool, m: Machine): Outcome
    requires Runs(m)
  {
    var n := m.(stack := Pop(m.stack));
    match Top(m.stack)
    case FAILURE => Return(n.(stack := n.stack + [FAILURE]), FAILURE)
    case START => Go(n.(buffer := m.buffer[SpaceRun(m.buffer)..], stack := n.stack + [KEY]))
    case KEY => KeyStep(info, cleanup, n)
    case VALUE => ValueStep(cleanup, n)
    case VALUE_EX => ValueExStep(cleanup, n)
    case HEADER_DONE => HeaderDoneStep(n)
    case DONE => Return(n, DONE)
  }

  /** Bytes left, then this: the loop ends on every input, with and without CLEANUP. */
  function Rank(s: HState): nat {
    match s
    case VALUE_EX => 3
    case HEADER_DONE => 2
    case START => 2
    case KEY => 1
    case VALUE => 1
    case DONE => 0
    case FAILURE => 0
  }

  lemma StepDecreases(info: InfoParser, cleanup: bool, m: Machine)
    requires Runs(m)
    ensures var r := Step(info, cleanup, m); r.Go? ==>
      |r.m.buffer| < |m.buffer| || (|r.m.buffer| == |m.buffer| && Rank(Top(r.m.stack)) < Rank(Top(m.stack)))
  {
    hide FirstEol, OnInfo, OnField, AddPiece, SpaceRun, LineOf, IsName;
  }

  function Run(info: InfoParser, cleanup: bool, m: Machine): (r: (Machine, HState))
    decreases |m.buffer|, Rank(Top(m.stack))
  {
    if !Runs(m) then (m, Top(m.stack))
    else
      StepDecreases(info, cleanup, m);
      match Step(info, cleanup, m)
      case Go(n) => Run(info, cleanup, n)
      case Return(n, s) => (n, s)
  }

  class Parser {
    const info: InfoParser
    var stack: seq<HState>
    var key: Option<bytes>
    var val: Option<bytes>

    ghost function Now(buffer: bytes, msgs: seq<Message>): Machine
      reads this
    {
      Machine(stack, key, val, buffer, msgs)
    }

    constructor (info: InfoParser)
      ensures this.info == info && stack == [] && key == None && val == None
    {
      this.info := info;
      stack, key, val := [], None, None;
    }

    /** One call: what is left of the buffer, the messages, the state returned. */
    method Parse(buffer: bytes, cleanup: bool, msgs: seq<Message>)
        returns (state: HState, rest: bytes, msgs': seq<Message>)
      modifies this
      ensures (Now(rest, msgs'), state) == Run(info, cleanup, old(Now(buffer, msgs)))
    {
      hide KeyStep, ValueStep, ValueExStep, HeaderDoneStep;
      rest, msgs' := buffer, msgs;
      ghost var goal := Run(info, cleanup, Now(rest, msgs'));
      while rest != [] || !NeedData(Top(stack))
        invariant goal == Run(info, cleanup, Now(rest, msgs'))
        decreases |rest|, Rank(Top(stack))
      {
        StepDecreases(info, cleanup, Now(rest, msgs'));
        var top := Top(stack);
        stack := Pop(stack);
        var m := Machine(stack, key, val, rest, msgs');
        var r: Outcome;
        match top {
          case FAILURE => r := Return(m.(stack := stack + [FAILURE]), FAILURE);
          case START =>
            var ptr := SkipSpace(rest);
            r := Go(m.(buffer := rest[ptr..], stack := stack + [KEY]));
          case KEY => r := KeyStep(info, cleanup, m);
          case VALUE => r := ValueStep(cleanup, m);
          case VALUE_EX => r := ValueExStep(cleanup, m);
          case HEADER_DONE => r := HeaderDoneStep(m);
          case DONE => r := Return(m, DONE);
        }
        stack, key, val, rest, msgs' := r.m.stack, r.m.key, r.m.val, r.m.buffer, r.m.msgs;
        if r.Return? {
          return r.state, rest, msgs';
        }
      }
      state := Top(stack);
    }
  }

  method SkipSpace(s: bytes) returns (n: nat)
    ensures n == SpaceRun(s)
  {
    n := 0;
    while n < |s| && IsSpace(s[n])
      invariant n <= |s|
      invariant SpaceRunEnd(s, 0) == SpaceRunEnd(s, n)
    {
      n := n + 1;
    }
  }
}
