/** What the header parser computes, line by line, however the lines are fed. */
module HeaderLines {
  import opened Bytes
  import opened HeaderNames
  import opened Messages
  import opened HeaderParser

  datatype Line = Line(text: bytes, crlf: bool)

  function EndOf(l: Line): bytes { if l.crlf then CRLF else [LF] }

  predicate TextOk(t: bytes) { forall i :: 0 <= i < |t| ==> !IsEolByte(t[i]) && t[i] != NUL }

  function Text(ls: seq<Line>): bytes { if ls == [] then [] else ls[0].text + (EndOf(ls[0]) + Text(ls[1..])) }

  /** Between two lines: a field that may still be continued, the messages so far, and failure. */
  datatype Fold = Fold(field: Option<Pending>, msgs: seq<Message>, failed: bool)
  datatype Pending = Pending(name: bytes, value: Option<bytes>)

  /** An open field is stored under its canonical name, unless its value is empty. */
  function Close(f: Fold): Fold {
    if f.field.None? || f.field.value.value.None? then f.(field := None)
    else if NUL in f.field.value.value.value then Fold(None, f.msgs, true)
    else Fold(None, OnField(f.msgs, Canonical(f.field.value.name), f.field.value.value.value), f.failed)
  }

  /** A line that starts a message or a field. */
  function OpenLine(info: InfoParser, f: Fold, t: bytes): Fold {
    var c := ColonAt(t, 0);
    if Recognise(info, t).Some? then f.(msgs := OnInfo(f.msgs, Recognise(info, t).value))
    else if c < |t| && IsName(t[..c]) then f.(field := Some(Pending(t[..c], AddPiece(None, t[c + 1..]))))
    else f.(failed := true)
  }

  predicate Continues(f: Fold, t: bytes) { f.field.Some? && t != [] && (t[0] == SP || t[0] == TAB) }

  /** The meaning of a non-empty line. */
  function FoldLine(info: InfoParser, f: Fold, t: bytes): Fold {
    if Continues(f, t) then
      f.(field := Some(Pending(f.field.value.name, AddPiece(f.field.value.value, t))))
    else if Close(f).failed then Close(f)
    else OpenLine(info, Close(f), t)
  }

  /** The parser between two lines. */
  function At(f: Fold, buffer: bytes): Machine {
    if f.failed then Machine([FAILURE], None, None, buffer, f.msgs)
    else if f.field.Some? then Machine([VALUE_EX], Some(f.field.value.name), f.field.value.value, buffer, f.msgs)
    else Machine([KEY], None, None, buffer, f.msgs)
  }

  /** A token, as section 3.2.6 of RFC 7230 has it: visible characters other than "(),/:;<=>?@[\]{}. */
  ghost predicate IsTokenByte(b: byte) {
    33 <= b <= 126 && b != 34 && !(40 <= b <= 41) && b != 44 && b != 47 && !(58 <= b <= 64) && !(91 <= b <= 93)
    && b != 123 && b != 125
  }

  /** A token, which may be empty, and a colon are in front. */
  ghost predicate NamedUpTo(t: bytes, c: nat) {
    c < |t| && t[c] == 58 && forall i :: 0 <= i < c ==> IsTokenByte(t[i])
  }

  lemma NameBytesAreTokens(b: byte)
    ensures IsNameByte(b) <==> IsTokenByte(b)
  {}

  /** A line that is no start line and continues nothing fails if and only if it does not start with a token and a colon. */
  lemma LineFailsIff(info: InfoParser, f: Fold, t: bytes)
    requires !Continues(f, t) && !f.failed && !Close(f).failed && Recognise(info, t).None?
    ensures FoldLine(info, f, t).failed <==> !exists c :: NamedUpTo(t, c)
  {
    hide AddPiece, Recognise, IsNameByte, IsTokenByte, Close;
    var c := ColonAt(t, 0);
    assert !Close(f).failed;
    assert IsTokenByte(58) == false by { NameBytesAreTokens(58); ColonIsNoName(); }
    forall i | 0 <= i < |t| ensures IsNameByte(t[i]) <==> IsTokenByte(t[i]) { NameBytesAreTokens(t[i]); }
    if c < |t| && IsName(t[..c]) {
      assert forall i :: 0 <= i < c ==> t[i] == t[..c][i];
      assert NamedUpTo(t, c);
    }
    forall d | NamedUpTo(t, d) ensures c < |t| && IsName(t[..c]) {
      assert c <= d;
    }
  }

  lemma ColonIsNoName() ensures !IsNameByte(58) {}

  // ---- one line

  /** A line end in front of `z`; a CR alone is one too, unless a LF follows it. */
  predicate EndOk(end: bytes, z: bytes) { end == CRLF || end == [LF] || (end == [CR] && (z != [] ==> z[0] != LF)) }

  lemma LineParts(t: bytes, end: bytes, z: bytes)
    requires TextOk(t) && EndOk(end, z)
    ensures var b := t + (end + z);
      && FirstEol(b) == |t| && |t| < |b| && EolLen(b, |t|) == |end|
      && b[..|t|] == t && b[|t| + |end|..] == z
  {
    var b := t + (end + z);
    assert forall i :: 0 <= i < |t| ==> b[i] == t[i];
    assert b[|t|] == end[0];
    FirstEolUnique(b, |t|);
    assert end == CRLF ==> b[|t| + 1] == LF;
    assert b[|t| + |end|..] == z;
  }

  lemma {:induction false} LineOfText(t: bytes, y: bytes)
    requires TextOk(t) && (y != [] ==> IsEolByte(y[0]))
    ensures LineOf(t + y) == t
  {
    if t == [] {
      assert t + y == y;
    } else {
      assert (t + y)[1..] == t[1..] + y;
      LineOfText(t[1..], y);
    }
  }

  lemma ColonInLine(t: bytes, y: bytes)
    ensures var c, d := ColonAt(t, 0), ColonAt(t + y, 0);
      (c < |t| ==> d == c) && (c == |t| ==> d >= |t|)
  {
    assert forall i :: 0 <= i < |t| ==> (t + y)[i] == t[i];
  }

  lemma TrimSkipsBlank(s: bytes, k: nat)
    requires k <= |s| && forall i :: 0 <= i < k ==> IsSpace(s[i])
    ensures TrimSpace(s[k..]) == TrimSpace(s)
  {
    hide SpaceRun, TrimRight;
    var n := SpaceRun(s[k..]);
    assert forall i :: k <= i < |s| ==> s[i] == s[k..][i - k];
    assert SpaceRun(s) == k + n;
    assert s[k..][n..] == s[k + n..];
  }

  /** A pass in state `s` with nothing below it on the stack. */
  function Single(s: HState, m: Machine): Machine { m.(stack := [s]) }

  lemma SingleStep(info: InfoParser, cleanup: bool, s: HState, m: Machine)
    requires m.stack == [] && Runs(Single(s, m))
    ensures var r := Step(info, cleanup, Single(s, m));
      match s
      case KEY => r == KeyStep(info, cleanup, m)
      case VALUE => r == ValueStep(cleanup, m)
      case VALUE_EX => r == ValueExStep(cleanup, m)
      case HEADER_DONE => r == HeaderDoneStep(m)
      case DONE => r == Return(m, DONE)
      case _ => true
  {
    hide KeyStep, ValueStep, ValueExStep, HeaderDoneStep;
    assert Pop([s]) == [];
  }

  lemma KeyStepOpens(info: InfoParser, cleanup: bool, msgs: seq<Message>, t: bytes, y: bytes)
    requires TextOk(t) && t != [] && y != [] && IsEolByte(y[0]) && FirstEol(t + y) == |t|
    requires Recognise(info, t).None? && ColonAt(t, 0) < |t| && IsName(t[..ColonAt(t, 0)])
    ensures var c := ColonAt(t, 0); var e := BlankEnd(t + y, c + 1);
      && c + 1 <= e <= |t|
      && KeyStep(info, cleanup, Machine([], None, None, t + y, msgs))
         == Go(Machine([VALUE], Some(t[..c]), None, t[e..] + y, msgs))
  {
    hide FirstEol, LineOf, IsName, ColonAt, BlankEnd;
    var b, c := t + y, ColonAt(t, 0);
    LineOfText(t, y);
    ColonInLine(t, y);
    DropConcat(t, y, c);
    var e := BlankEnd(b, c + 1);
    assert e <= |t| by { assert b[|t|] == y[0]; }
    DropConcat(t, y, e);
    assert [] + [VALUE] == [VALUE];
  }

  lemma ValueStepLine(cleanup: bool, key: Option<bytes>, val: Option<bytes>, msgs: seq<Message>,
                      t: bytes, end: bytes, z: bytes)
    requires TextOk(t) && EndOk(end, z)
    ensures ValueStep(cleanup, Machine([], key, val, t + (end + z), msgs))
      == Go(Machine([VALUE_EX], key, AddPiece(val, t), z, msgs))
  {
    hide FirstEol, EolLen, AddPiece;
    LineParts(t, end, z);
    assert [] + [VALUE_EX] == [VALUE_EX];
  }

  /** From KEY, a line that opens a field leaves the parser behind that line. */
  lemma FieldLine(info: InfoParser, cleanup: bool, msgs: seq<Message>, t: bytes, end: bytes, z: bytes)
    requires TextOk(t) && t != [] && EndOk(end, z)
    requires Recognise(info, t).None? && ColonAt(t, 0) < |t| && IsName(t[..ColonAt(t, 0)])
    ensures var c := ColonAt(t, 0);
      Run(info, cleanup, Machine([KEY], None, None, t + (end + z), msgs))
      == Run(info, cleanup, Machine([VALUE_EX], Some(t[..c]), AddPiece(None, t[c + 1..]), z, msgs))
  {
    hide Run, Step, KeyStep, ValueStep, AddPiece, IsName, ColonAt, BlankEnd, FirstEol, EolLen;
    var c, y := ColonAt(t, 0), end + z;
    LineParts(t, end, z);
    KeyStepOpens(info, cleanup, msgs, t, y);
    var e := BlankEnd(t + y, c + 1);
    var m0 := Machine([], None, None, t + y, msgs);
    var m1 := Machine([], Some(t[..c]), None, t[e..] + y, msgs);
    SingleStep(info, cleanup, KEY, m0);
    GoRuns(info, cleanup, Single(KEY, m0), Single(VALUE, m1));
    ValueStepLine(cleanup, Some(t[..c]), None, msgs, t[e..], end, z);
    SingleStep(info, cleanup, VALUE, m1);
    var tail := t[c + 1..];
    assert forall i :: 0 <= i < e - c - 1 ==> tail[i] == (t + y)[c + 1 + i];
    assert tail[e - c - 1..] == t[e..];
    PieceSkipsBlank(tail, e - c - 1);
    GoRuns(info, cleanup, Single(VALUE, m1), Machine([VALUE_EX], Some(t[..c]), AddPiece(None, tail), z, msgs));
  }

  lemma PieceSkipsBlank(s: bytes, k: nat)
    requires k <= |s| && forall i :: 0 <= i < k ==> IsSpace(s[i])
    ensures AddPiece(None, s[k..]) == AddPiece(None, s)
  {
    hide TrimSpace;
    TrimSkipsBlank(s, k);
  }

  lemma GoRuns(info: InfoParser, cleanup: bool, m: Machine, n: Machine)
    requires Runs(m) && Step(info, cleanup, m) == Go(n)
    ensures Run(info, cleanup, m) == Run(info, cleanup, n)
  {
    hide Step;
  }

  lemma ReturnRuns(info: InfoParser, cleanup: bool, m: Machine, n: Machine, s: HState)
    requires Runs(m) && Step(info, cleanup, m) == Return(n, s)
    ensures Run(info, cleanup, m) == (n, s)
  {
    hide Step;
  }

  lemma FrontOf(t: bytes, y: bytes, c: nat)
    requires c <= |t|
    ensures (t + y)[..c] == t[..c]
  {}

  lemma KeyStepOther(info: InfoParser, cleanup: bool, msgs: seq<Message>, t: bytes, end: bytes, z: bytes)
    requires TextOk(t) && t != [] && EndOk(end, z)
    requires Recognise(info, t).Some? || !(ColonAt(t, 0) < |t| && IsName(t[..ColonAt(t, 0)]))
    ensures var b := t + (end + z);
      KeyStep(info, cleanup, Machine([], None, None, b, msgs))
      == if Recognise(info, t).Some?
         then Go(Machine([HEADER_DONE], None, None, z, OnInfo(msgs, Recognise(info, t).value)))
         else Return(Machine([FAILURE], None, None, b, msgs), FAILURE)
  {
    hide FirstEol, LineOf, IsName, ColonAt, EolLen, BlankEnd, OnInfo, Recognise, TextOk;
    var b := t + (end + z);
    LineParts(t, end, z);
    LineOfText(t, end + z);
    assert [] + [FAILURE] == [FAILURE] && [] + [HEADER_DONE] == [HEADER_DONE];
    if Recognise(info, t).None? {
      var c, d := ColonAt(t, 0), ColonAt(b, 0);
      ColonInLine(t, end + z);
      if d < |t| {
        assert b[..c] == t[..c] by { FrontOf(t, end + z, c); }
      }
    }
  }

  /** From KEY, any other non-empty line. */
  lemma OtherLine(info: InfoParser, cleanup: bool, msgs: seq<Message>, t: bytes, end: bytes, z: bytes)
    requires TextOk(t) && t != [] && EndOk(end, z)
    requires Recognise(info, t).Some? || !(ColonAt(t, 0) < |t| && IsName(t[..ColonAt(t, 0)]))
    ensures var b := t + (end + z);
      Run(info, cleanup, Machine([KEY], None, None, b, msgs))
      == if Recognise(info, t).Some?
         then Run(info, cleanup, Machine([KEY], None, None, z, OnInfo(msgs, Recognise(info, t).value)))
         else (Machine([FAILURE], None, None, b, msgs), FAILURE)
  {
    hide Run, Step, KeyStep, IsName, ColonAt, OnInfo, Recognise;
    var m := Machine([], None, None, t + (end + z), msgs);
    KeyStepOther(info, cleanup, msgs, t, end, z);
    SingleStep(info, cleanup, KEY, m);
    if Recognise(info, t).Some? {
      var m1 := Machine([], None, None, z, OnInfo(msgs, Recognise(info, t).value));
      GoRuns(info, cleanup, Single(KEY, m), Single(HEADER_DONE, m1));
      SingleStep(info, cleanup, HEADER_DONE, m1);
      assert [] + [KEY] == [KEY];
      GoRuns(info, cleanup, Single(HEADER_DONE, m1), Single(KEY, m1));
    } else {
      ReturnRuns(info, cleanup, Single(KEY, m), Single(FAILURE, m), FAILURE);
    }
  }

  lemma OpenLineRuns(info: InfoParser, cleanup: bool, f: Fold, t: bytes, end: bytes, z: bytes)
    requires TextOk(t) && t != [] && EndOk(end, z) && !f.failed && f.field.None?
    ensures var g := OpenLine(info, f, t);
      Run(info, cleanup, At(f, t + (end + z)))
      == if g.failed then (At(g, t + (end + z)), FAILURE) else Run(info, cleanup, At(g, z))
  {
    hide Run, OnInfo, IsName, ColonAt, AddPiece;
    if Recognise(info, t).None? && ColonAt(t, 0) < |t| && IsName(t[..ColonAt(t, 0)]) {
      FieldLine(info, cleanup, f.msgs, t, end, z);
    } else {
      OtherLine(info, cleanup, f.msgs, t, end, z);
    }
  }

  /** What ends a field: anything that is no continuation, or the end of the input with CLEANUP. */
  lemma CloseRuns(info: InfoParser, cleanup: bool, f: Fold, b: bytes)
    requires !f.failed && (b == [] ==> cleanup && f.field.Some?)
    requires b != [] ==> b[0] != SP && b[0] != TAB
    ensures Run(info, cleanup, At(f, b))
      == if Close(f).failed then (At(Close(f), b), FAILURE) else Run(info, cleanup, At(Close(f), b))
  {
    hide Run, OnField, KeyStep, Canonical;
    if f.field.Some? {
      var m0 := At(f, b);
      var m1 := m0.(stack := [HEADER_DONE]);
      assert Pop(m0.stack) == [] && [] + [HEADER_DONE] == [HEADER_DONE];
      GoRuns(info, cleanup, m0, m1);
      assert Pop(m1.stack) == [] && [] + [KEY] == [KEY] && [] + [FAILURE] == [FAILURE];
      if Close(f).failed {
        ReturnRuns(info, cleanup, m1, At(Close(f), b), FAILURE);
      } else {
        GoRuns(info, cleanup, m1, At(Close(f), b));
      }
    }
  }

  lemma ContinuationRuns(info: InfoParser, cleanup: bool, f: Fold, t: bytes, end: bytes, z: bytes)
    requires TextOk(t) && Continues(f, t) && EndOk(end, z) && !f.failed
    ensures Run(info, cleanup, At(f, t + (end + z))) == Run(info, cleanup, At(FoldLine(info, f, t), z))
  {
    hide Run, AddPiece, Step, ValueStep;
    var m := At(f, t + (end + z)).(stack := []);
    assert m.buffer[0] == t[0];
    SingleStep(info, cleanup, VALUE_EX, m);
    assert [] + [VALUE] == [VALUE];
    GoRuns(info, cleanup, Single(VALUE_EX, m), Single(VALUE, m));
    SingleStep(info, cleanup, VALUE, m);
    ValueStepLine(cleanup, m.key, m.val, m.msgs, t, end, z);
    GoRuns(info, cleanup, Single(VALUE, m), At(FoldLine(info, f, t), z));
  }

  /** One whole line, with anything behind it: the parser ends up behind the line, or fails at it. */
  lemma LineRuns(info: InfoParser, cleanup: bool, f: Fold, l: Line, z: bytes)
    requires TextOk(l.text) && l.text != [] && !f.failed
    ensures var b, g := l.text + (EndOf(l) + z), FoldLine(info, f, l.text);
      Run(info, cleanup, At(f, b)) == if g.failed then (At(g, b), FAILURE) else Run(info, cleanup, At(g, z))
  {
    hide Run, OpenLine, At, OnField, OnInfo;
    var t, b := l.text, l.text + (EndOf(l) + z);
    assert b[0] == t[0];
    if Continues(f, t) {
      ContinuationRuns(info, cleanup, f, t, EndOf(l), z);
    } else if f.field.None? {
      assert Close(f) == f;
      OpenLineRuns(info, cleanup, f, t, EndOf(l), z);
    } else {
      CloseRuns(info, cleanup, f, b);
      if !Close(f).failed {
        OpenLineRuns(info, cleanup, Close(f), t, EndOf(l), z);
      }
    }
  }

  /** In KEY, a line end is the end of the head. */
  lemma KeyStepBlank(info: InfoParser, cleanup: bool, msgs: seq<Message>, end: bytes, z: bytes)
    requires EndOk(end, z)
    ensures KeyStep(info, cleanup, Machine([], None, None, end + z, msgs)) == Go(Machine([DONE], None, None, z, msgs))
  {
    hide FirstEol, EolLen, LineOf, Recognise, ColonAt, BlankEnd, IsName, OnInfo;
    var b := end + z;
    assert FirstEol(b) == 0 && EolLen(b, 0) == |end| && b[|end|..] == z by {
      LineParts([], end, z);
      assert [] + b == b;
    }
    assert [] + [DONE] == [DONE];
  }

  lemma BlankEndsHead(info: InfoParser, cleanup: bool, msgs: seq<Message>, end: bytes, z: bytes)
    requires EndOk(end, z)
    ensures Run(info, cleanup, Machine([KEY], None, None, end + z, msgs)) == (Machine([], None, None, z, msgs), DONE)
  {
    hide Run, Step, KeyStep;
    var m, n := Machine([], None, None, end + z, msgs), Machine([], None, None, z, msgs);
    KeyStepBlank(info, cleanup, msgs, end, z);
    SingleStep(info, cleanup, KEY, m);
    GoRuns(info, cleanup, Single(KEY, m), Single(DONE, n));
    SingleStep(info, cleanup, DONE, n);
    ReturnRuns(info, cleanup, Single(DONE, n), n, DONE);
  }

  /** The blank line: the field before it is stored and the parser is done. */
  lemma BlankLineRuns(info: InfoParser, cleanup: bool, f: Fold, l: Line, z: bytes)
    requires l.text == [] && !f.failed
    ensures var b, g := EndOf(l) + z, Close(f);
      Run(info, cleanup, At(f, b))
      == if g.failed then (At(g, b), FAILURE) else (Machine([], None, None, z, g.msgs), DONE)
  {
    hide Run, Close;
    var b, g := EndOf(l) + z, Close(f);
    assert b[0] == EndOf(l)[0];
    CloseRuns(info, cleanup, f, b);
    if !g.failed {
      assert g.field == None by { ClosedIsClosed(f); }
      BlankEndsHead(info, cleanup, g.msgs, EndOf(l), z);
    }
  }

  lemma ClosedIsClosed(f: Fold) ensures Close(f).field == None { hide OnField, Canonical; }

  // ---- blocks of lines

  datatype Verdict = Open | Failed | Done

  /** Where the fold stops: behind the last line, at a bad line, or behind the blank line. */
  datatype Result = Result(f: Fold, verdict: Verdict, rest: seq<Line>)

  function FoldLines(info: InfoParser, f: Fold, ls: seq<Line>): Result
    decreases |ls|
  {
    if ls == [] then Result(f, Open, [])
    else if ls[0].text == [] then
      if Close(f).failed then Result(Close(f), Failed, ls) else Result(Close(f), Done, ls[1..])
    else
      var g := FoldLine(info, f, ls[0].text);
      if g.failed then Result(g, Failed, ls) else FoldLines(info, g, ls[1..])
  }

  ghost predicate LinesOk(ls: seq<Line>) { forall i :: 0 <= i < |ls| ==> TextOk(ls[i].text) }

  /** How a call ends, given where the fold stops and the flag. */
  function Ending(info: InfoParser, cleanup: bool, r: Result): (Machine, HState) {
    match r.verdict
    case Open => Run(info, cleanup, At(r.f, []))
    case Failed => (At(r.f, Text(r.rest)), FAILURE)
    case Done => (Machine([], None, None, Text(r.rest), r.f.msgs), DONE)
  }

  /** One feed of any number of whole lines computes the fold. */
  lemma {:induction false} WholeFeed(info: InfoParser, cleanup: bool, f: Fold, ls: seq<Line>)
    requires !f.failed && LinesOk(ls)
    ensures Run(info, cleanup, At(f, Text(ls))) == Ending(info, cleanup, FoldLines(info, f, ls))
    decreases |ls|
  {
    hide Run, FoldLine, Close, At;
    if ls != [] {
      var l, z := ls[0], Text(ls[1..]);
      if l.text == [] {
        BlankLineRuns(info, cleanup, f, l, z);
        assert [] + (EndOf(l) + z) == EndOf(l) + z;
      } else {
        LineRuns(info, cleanup, f, l, z);
        var g := FoldLine(info, f, l.text);
        if !g.failed { WholeFeed(info, cleanup, g, ls[1..]); }
      }
    }
  }

  /** Lines up to and with the blank one, and anything behind them in the same feed. */
  lemma {:induction false} HeadFeed(info: InfoParser, cleanup: bool, f: Fold, ls: seq<Line>, d: bytes)
    requires !f.failed && LinesOk(ls)
    requires FoldLines(info, f, ls).verdict.Done? && FoldLines(info, f, ls).rest == []
    ensures Run(info, cleanup, At(f, Text(ls) + d)) == (Machine([], None, None, d, FoldLines(info, f, ls).f.msgs), DONE)
    decreases |ls|
  {
    hide Run, FoldLine, Close, At;
    var l, z := ls[0], Text(ls[1..]) + d;
    assert Text(ls) + d == l.text + (EndOf(l) + z) by { LineJoins(l.text, EndOf(l), Text(ls[1..]), d); }
    if l.text == [] {
      assert ls[1..] == [] && z == d;
      BlankLineRuns(info, cleanup, f, l, z);
      assert [] + (EndOf(l) + z) == EndOf(l) + z;
    } else {
      LineRuns(info, cleanup, f, l, z);
      HeadFeed(info, cleanup, FoldLine(info, f, l.text), ls[1..], d);
    }
  }

  lemma LineJoins(t: bytes, e: bytes, x: bytes, d: bytes)
    ensures (t + (e + x)) + d == t + (e + (x + d))
  {
    assert (e + x) + d == e + (x + d);
  }

  /** The fold can be taken up behind any line before the blank one. */
  lemma {:induction false} FoldConcat(info: InfoParser, f: Fold, xs: seq<Line>, ys: seq<Line>)
    requires FoldLines(info, f, xs).verdict.Open?
    ensures FoldLines(info, f, xs + ys) == FoldLines(info, FoldLines(info, f, xs).f, ys)
    decreases |xs|
  {
    hide FoldLine, Close;
    if xs == [] {
      assert xs + ys == ys;
    } else {
      assert (xs + ys)[1..] == xs[1..] + ys && (xs + ys)[0] == xs[0];
      FoldConcat(info, FoldLine(info, f, xs[0].text), xs[1..], ys);
    }
  }

  lemma {:induction false} OpenHasNotFailed(info: InfoParser, f: Fold, ls: seq<Line>)
    requires !f.failed && FoldLines(info, f, ls).verdict.Open?
    ensures !FoldLines(info, f, ls).f.failed
    decreases |ls|
  {
    hide FoldLine, Close;
    if ls != [] { OpenHasNotFailed(info, FoldLine(info, f, ls[0].text), ls[1..]); }
  }

  /** What is not stopped by some lines is not stopped by the first of them. */
  lemma {:induction false} OpenPrefix(info: InfoParser, f: Fold, xs: seq<Line>, ys: seq<Line>)
    requires FoldLines(info, f, xs + ys).verdict.Open?
    ensures FoldLines(info, f, xs).verdict.Open?
    decreases |xs|
  {
    hide FoldLine, Close;
    if xs != [] {
      assert (xs + ys)[1..] == xs[1..] + ys && (xs + ys)[0] == xs[0];
      OpenPrefix(info, FoldLine(info, f, xs[0].text), xs[1..], ys);
    }
  }

  /** Feeding line by line until the parser is done or has failed. */
  function Feed(info: InfoParser, m: Machine, ls: seq<Line>): (Machine, HState, seq<Line>)
    decreases |ls|
  {
    if ls == [] then (m, Top(m.stack), [])
    else
      var (n, s) := Run(info, false, m.(buffer := m.buffer + Text([ls[0]])));
      if s == DONE || s == FAILURE then (n, s, ls[1..]) else Feed(info, n, ls[1..])
  }

  lemma Waits(info: InfoParser, f: Fold)
    requires !f.failed
    ensures Run(info, false, At(f, [])) == (At(f, []), if f.field.Some? then VALUE_EX else KEY)
  {
    var m := At(f, []);
    if f.field.Some? {
      assert Pop(m.stack) == [] && [] + [VALUE_EX] == [VALUE_EX];
      assert Step(info, false, m) == Return(m, VALUE_EX);
    }
  }

  lemma TextSplits(ls: seq<Line>)
    requires ls != []
    ensures Text(ls) == Text([ls[0]]) + Text(ls[1..])
  {
    var l := ls[0];
    assert [l][1..] == [] && Text([]) == [];
    assert l.text + (EndOf(l) + Text(ls[1..])) == (l.text + (EndOf(l) + [])) + Text(ls[1..]);
  }

  lemma {:induction false} FeedFolds(info: InfoParser, f: Fold, ls: seq<Line>)
    requires !f.failed && LinesOk(ls)
    ensures var r, (n, s, rest) := FoldLines(info, f, ls), Feed(info, At(f, []), ls);
      match r.verdict
      case Open => n == At(r.f, []) && s != DONE && s != FAILURE && rest == []
      case _ => (n.(buffer := n.buffer + Text(rest)), s) == Ending(info, true, r)
    decreases |ls|
  {
    hide Run, FoldLine, Close;
    if ls != [] {
      var l := ls[0];
      var x := Text([l]);
      assert [l][1..] == [] && Text([l][1..]) == [];
      assert At(f, []).(buffer := At(f, []).buffer + x) == At(f, x);
      WholeFeed(info, false, f, [l]);
      assert Text(ls) == x + Text(ls[1..]) by { TextSplits(ls); }
      var g := FoldLine(info, f, l.text);
      var one := FoldLines(info, f, [l]);
      if l.text != [] && !g.failed {
        assert one == Result(g, Open, []);
        Waits(info, g);
        FeedFolds(info, g, ls[1..]);
      } else if one.verdict.Failed? {
        assert one.rest == [l] && FoldLines(info, f, ls) == Result(one.f, Failed, ls);
      } else {
        assert one.rest == [] && FoldLines(info, f, ls) == Result(one.f, Done, ls[1..]);
        assert [] + Text(ls[1..]) == Text(ls[1..]);
      }
    }
  }

  ghost predicate NoNul(f: Fold) { f.field.Some? && f.field.value.value.Some? ==> NUL !in f.field.value.value.value }

  /** No line without a NUL leads to a value with one. */
  lemma FoldKeepsNoNul(info: InfoParser, f: Fold, t: bytes)
    requires NoNul(f) && TextOk(t)
    ensures NoNul(FoldLine(info, f, t))
  {
    hide Close, OpenLine, AddPiece;
    if Continues(f, t) {
      PieceHasNoNul(f.field.value.value, t);
    } else {
      ClosedHasNoNul(f);
      OpenedHasNoNul(info, Close(f), t);
    }
  }

  lemma OpenedHasNoNul(info: InfoParser, f: Fold, t: bytes)
    requires NoNul(f) && TextOk(t)
    ensures NoNul(OpenLine(info, f, t))
  {
    hide OnInfo, IsName, AddPiece, ColonAt;
    var c := ColonAt(t, 0);
    if c < |t| { PieceHasNoNul(None, t[c + 1..]); }
  }

  lemma PieceHasNoNul(val: Option<bytes>, t: bytes)
    requires TextOk(t) && (val.Some? ==> NUL !in val.value)
    ensures AddPiece(val, t).Some? ==> NUL !in AddPiece(val, t).value
  {
    hide SpaceRun, TrimRight;
    var u := TrimSpace(t);
    assert forall i :: 0 <= i < |u| ==> u[i] == t[SpaceRun(t) + i];
  }

  lemma {:induction false} LinesKeepNoNul(info: InfoParser, f: Fold, ls: seq<Line>)
    requires NoNul(f) && LinesOk(ls) && !f.failed
    ensures NoNul(FoldLines(info, f, ls).f)
    ensures FoldLines(info, f, ls).verdict.Open? ==> !FoldLines(info, f, ls).f.failed
    decreases |ls|
  {
    hide FoldLine, Close;
    if ls != [] {
      if ls[0].text == [] {
        assert NoNul(Close(f)) by { ClosedHasNoNul(f); }
      } else {
        FoldKeepsNoNul(info, f, ls[0].text);
        var g := FoldLine(info, f, ls[0].text);
        if !g.failed { LinesKeepNoNul(info, g, ls[1..]); }
      }
    }
  }

  lemma ClosedHasNoNul(f: Fold) ensures NoNul(Close(f)) { hide OnField, Canonical; }

  /** The machine a parser starts with. */
  function Fresh(msgs: seq<Message>, buffer: bytes): Machine { Machine([], None, None, buffer, msgs) }

  lemma StartRuns(info: InfoParser, cleanup: bool, msgs: seq<Message>, b: bytes)
    requires b != [] && !IsSpace(b[0])
    ensures Run(info, cleanup, Fresh(msgs, b)) == Run(info, cleanup, At(Fold(None, msgs, false), b))
  {
    hide Run, KeyStep;
    assert SpaceRun(b) == 0 && b[0..] == b;
    assert [] + [KEY] == [KEY];
    GoRuns(info, cleanup, Fresh(msgs, b), At(Fold(None, msgs, false), b));
  }

  lemma SpacesInFront(a: bytes, b: bytes)
    requires Blank(a) && (b != [] ==> !IsSpace(b[0]))
    ensures SpaceRun(a + b) == |a| && (a + b)[|a|..] == b
  {
    hide SpaceRun;
    var s := a + b;
    assert forall i :: 0 <= i < |a| ==> s[i] == a[i];
    assert b != [] ==> s[|a|] == b[0];
  }

  /** White space in front of the first line is dropped, line ends included. */
  lemma SpaceBeforeHead(info: InfoParser, cleanup: bool, msgs: seq<Message>, a: bytes, b: bytes)
    requires Blank(a) && b != [] && !IsSpace(b[0])
    ensures Run(info, cleanup, Fresh(msgs, a + b)) == Run(info, cleanup, At(Fold(None, msgs, false), b))
  {
    hide Run, KeyStep, SpaceRun;
    SpacesInFront(a, b);
    assert [] + [KEY] == [KEY];
    GoRuns(info, cleanup, Fresh(msgs, a + b), At(Fold(None, msgs, false), b));
  }

  /** With CLEANUP and no data left, an open field is stored. */
  lemma CleanupCloses(info: InfoParser, f: Fold)
    requires !f.failed && NoNul(f)
    ensures Run(info, true, At(f, [])) == (At(Close(f), []), KEY)
  {
    hide OnField, Canonical, KeyStep, HeaderDoneStep, ValueExStep;
    if f.field.Some? {
      CloseRuns(info, true, f, []);
    }
  }

  /**
   * A block of lines that starts with a non-space byte: feeding it line by line and then cleaning
   * up, and feeding it at once, give the same table, state and leftover, and both are the fold.
   */
  lemma FeedsAgree(info: InfoParser, msgs: seq<Message>, ls: seq<Line>)
    requires LinesOk(ls) && ls != [] && ls[0].text != [] && !IsSpace(ls[0].text[0])
    ensures var (n, s, rest) := Feed(info, Fresh(msgs, []), ls);
      var whole := Run(info, true, Fresh(msgs, Text(ls)));
      var r := FoldLines(info, Fold(None, msgs, false), ls);
      && whole == (if s == DONE || s == FAILURE then (n.(buffer := n.buffer + Text(rest)), s) else Run(info, true, n))
      && (r.verdict.Open? ==> rest == [] && whole == (At(Close(r.f), []), KEY))
      && (r.verdict.Failed? ==> whole == (At(r.f, Text(r.rest)), FAILURE))
      && (r.verdict.Done? ==> whole == (Fresh(r.f.msgs, Text(r.rest)), DONE))
  {
    hide Run, FoldLine, Close;
    var f0 := Fold(None, msgs, false);
    var b := Text(ls);
    assert b[0] == ls[0].text[0];
    StartRuns(info, true, msgs, b);
    WholeFeed(info, true, f0, ls);
    LinesKeepNoNul(info, f0, ls);
    var r := FoldLines(info, f0, ls);
    if r.verdict.Open? { CleanupCloses(info, r.f); }
    FirstFeed(info, msgs, ls);
    FeedFolds(info, f0, ls);
  }

  /** The first line is fed to a parser in its initial state. */
  lemma FirstFeed(info: InfoParser, msgs: seq<Message>, ls: seq<Line>)
    requires ls != [] && ls[0].text != [] && !IsSpace(ls[0].text[0])
    ensures Feed(info, Fresh(msgs, []), ls) == Feed(info, At(Fold(None, msgs, false), []), ls)
  {
    hide Run;
    var x := Text([ls[0]]);
    assert x[0] == ls[0].text[0];
    assert [] + x == x;
    StartRuns(info, false, msgs, x);
  }
}
