/** The header parser fed in pieces that are cut anywhere, within lines too, and a last line without an end. */
module HeaderCuts {
  import opened Bytes
  import opened HeaderNames
  import opened Messages
  import opened HeaderParser
  import opened HeaderLines

  // ---- in the middle of a line

  /** The name in front of a colon, if there is one yet, is one. */
  ghost predicate NameSoFar(t: bytes) { ColonAt(t, 0) < |t| ==> IsName(t[..ColonAt(t, 0)]) }

  /** The part of a line that has been read: of a line that continues a field, or of one that starts one. */
  ghost predicate PartOk(info: InfoParser, f: Fold, t: bytes) {
    && TextOk(t) && !f.failed
    && (t != [] && !Continues(f, t) ==> !Close(f).failed && Recognise(info, t).None? && NameSoFar(t))
  }

  /** Behind the colon some white space has been dropped already. */
  ghost predicate ValueBegun(m: Machine, t: bytes, msgs: seq<Message>, e: nat) {
    var c := ColonAt(t, 0);
    && c < e <= |t| && Blank(t[c + 1..e])
    && m == Machine([VALUE], Some(t[..c]), None, t[e..], msgs)
  }

  /** The parser when the part `t` of a line has come in. */
  ghost predicate InLine(m: Machine, f: Fold, t: bytes) {
    if t == [] then m == At(f, [])
    else if Continues(f, t) then m == Machine([VALUE], Some(f.field.value.name), f.field.value.value, t, f.msgs)
    else if ColonAt(t, 0) == |t| then m == Machine([KEY], None, None, t, Close(f).msgs)
    else exists e: nat :: ValueBegun(m, t, Close(f).msgs, e)
  }

  function More(m: Machine, d: bytes): Machine { m.(buffer := m.buffer + d) }

  predicate Waiting(s: HState) { s != DONE && s != FAILURE }

  lemma NoEolYet(t: bytes)
    requires TextOk(t)
    ensures FirstEol(t) == |t|
  {
    FirstEolUnique(t, |t|);
  }

  lemma PartOfText(t: bytes, u: bytes)
    requires TextOk(t + u)
    ensures TextOk(t) && TextOk(u)
  {
    assert forall i :: 0 <= i < |t| ==> (t + u)[i] == t[i];
    assert forall i :: 0 <= i < |u| ==> (t + u)[|t| + i] == u[i];
  }

  lemma ColonStays(t: bytes, u: bytes)
    ensures var c := ColonAt(t, 0); c < |t| ==> ColonAt(t + u, 0) == c && (t + u)[..c] == t[..c]
    ensures ColonAt(t, 0) == |t| ==> ColonAt(t + u, 0) >= |t|
  {
    ColonInLine(t, u);
  }

  /** A value without an end waits. */
  lemma ValueWaits(info: InfoParser, m: Machine)
    requires m.stack == [VALUE] && TextOk(m.buffer)
    ensures Run(info, false, m) == (m, VALUE)
  {
    hide Run, Step, FirstEol, AddPiece;
    if m.buffer == [] {
      NothingRuns(info, m);
    } else {
      NoEolYet(m.buffer);
      SingleStep(info, false, VALUE, m.(stack := []));
      assert [] + [VALUE] == [VALUE];
      ReturnRuns(info, false, m, m, VALUE);
    }
  }

  lemma NothingRuns(info: InfoParser, m: Machine)
    requires !Runs(m)
    ensures Run(info, false, m) == (m, Top(m.stack))
  {}

  /** A line with a colon opens its field, before its end has come in. */
  lemma KeyOpens(info: InfoParser, cleanup: bool, f: Fold, t: bytes) returns (n: Machine, e: nat)
    requires f.field.None? && PartOk(info, f, t) && ColonAt(t, 0) < |t|
    ensures ValueBegun(n, t, f.msgs, e) && Run(info, cleanup, At(f, t)) == Run(info, cleanup, n)
  {
    hide Run, Step, FirstEol, IsName, Recognise, OnInfo, LineOf, ColonAt, TextOk, ValueBegun;
    NothingToClose(f);
    NoEolYet(t);
    assert LineOf(t) == t by { LineOfText(t, []); assert t + [] == t; }
    var m, c := At(f, t), ColonAt(t, 0);
    SingleStep(info, cleanup, KEY, m.(stack := []));
    assert [] + [VALUE] == [VALUE];
    e := BlankEnd(t, c + 1);
    n := Machine([VALUE], Some(t[..c]), None, t[e..], f.msgs);
    GoRuns(info, cleanup, m, n);
    assert ValueBegun(n, t, f.msgs, e) by { BlankBegins(t, c, f.msgs); }
  }

  lemma BlankBegins(t: bytes, c: nat, msgs: seq<Message>)
    requires c == ColonAt(t, 0) < |t|
    ensures var e := BlankEnd(t, c + 1); ValueBegun(Machine([VALUE], Some(t[..c]), None, t[e..], msgs), t, msgs, e)
  {}

  /** A line that starts a field, as far as it has come in. */
  lemma KeyPart(info: InfoParser, f: Fold, t: bytes)
    requires f.field.None? && PartOk(info, f, t) && t != []
    ensures var r := Run(info, false, At(f, t)); InLine(r.0, f, t) && Waiting(r.1)
  {
    hide Run, Step, FirstEol, IsName, Recognise, BlankEnd, OnInfo, LineOf, ColonAt, ValueBegun;
    NothingToClose(f);
    if ColonAt(t, 0) == |t| {
      var m := At(f, t);
      NoEolYet(t);
      assert LineOf(t) == t by { LineOfText(t, []); assert t + [] == t; }
      SingleStep(info, false, KEY, m.(stack := []));
      assert [] + [KEY] == [KEY];
      ReturnRuns(info, false, m, m, KEY);
    } else {
      var n, e := KeyOpens(info, false, f, t);
      BegunIsText(n, t, f.msgs, e);
      ValueWaits(info, n);
    }
  }

  lemma BegunIsText(m: Machine, t: bytes, msgs: seq<Message>, e: nat)
    requires ValueBegun(m, t, msgs, e) && TextOk(t)
    ensures m.stack == [VALUE] && TextOk(m.buffer)
  {
    assert t[..e] + t[e..] == t;
    PartOfText(t[..e], t[e..]);
  }

  lemma ClosesAtKey(info: InfoParser, f: Fold, t: bytes)
    requires PartOk(info, f, t) && t != [] && !Continues(f, t) && f.field.Some?
    ensures var g := Close(f);
      && g == Fold(None, g.msgs, false) && PartOk(info, g, t) && Run(info, false, At(f, t)) == Run(info, false, At(g, t))
  {
    hide Run, IsName, Recognise, ColonAt, OnField, Canonical;
    CloseRuns(info, false, f, t);
    ClosedIsClosed(f);
  }

  /** A part of a line comes in: nothing is failed or over. */
  lemma PartBegins(info: InfoParser, f: Fold, t: bytes)
    requires PartOk(info, f, t) && t != []
    ensures var r := Run(info, false, At(f, t)); InLine(r.0, f, t) && Waiting(r.1)
  {
    hide Run, Step, IsName, Recognise, ColonAt, Close, ValueBegun;
    if Continues(f, t) {
      var m := At(f, t);
      SingleStep(info, false, VALUE_EX, m.(stack := []));
      assert [] + [VALUE] == [VALUE];
      GoRuns(info, false, m, m.(stack := [VALUE]));
      ValueWaits(info, m.(stack := [VALUE]));
    } else if f.field.Some? {
      ClosesAtKey(info, f, t);
      ClosedIsClosed(f);
      assert Close(Close(f)) == Close(f) by { NothingToClose(Close(f)); }
      KeyPart(info, Close(f), t);
    } else {
      KeyPart(info, f, t);
    }
  }

  lemma NothingToClose(f: Fold) requires f.field.None? ensures Close(f) == f {}

  /** More of the line comes in. */
  lemma PartGoesOn(info: InfoParser, m: Machine, f: Fold, t: bytes, u: bytes)
    requires InLine(m, f, t) && PartOk(info, f, t) && PartOk(info, f, t + u)
    ensures var r := Run(info, false, More(m, u)); InLine(r.0, f, t + u) && Waiting(r.1)
  {
    hide Run, IsName, Recognise, ColonAt, Close, ValueBegun, TextOk;
    if t == [] {
      assert t + u == u && More(m, u) == At(f, u);
      if u == [] { Waits(info, f); } else { PartBegins(info, f, u); }
    } else {
      assert (t + u)[0] == t[0];
      ColonStays(t, u);
      if Continues(f, t) {
        ValueWaits(info, More(m, u));
      } else if ColonAt(t, 0) == |t| {
        KeyPartGoesOn(info, m, f, t, u);
      } else {
        var e: nat :| ValueBegun(m, t, Close(f).msgs, e);
        ValuePartGoesOn(info, m, t, u, Close(f).msgs, e);
      }
    }
  }

  lemma KeyPartGoesOn(info: InfoParser, m: Machine, f: Fold, t: bytes, u: bytes)
    requires InLine(m, f, t) && PartOk(info, f, t + u) && t != [] && !Continues(f, t) && ColonAt(t, 0) == |t|
    ensures var r := Run(info, false, More(m, u)); InLine(r.0, f, t + u) && Waiting(r.1)
  {
    hide Run, IsName, Recognise, ColonAt, Close, ValueBegun, TextOk;
    var g, x := Close(f), t + u;
    assert x[0] == t[0];
    ClosedIsClosed(f);
    NothingToClose(g);
    assert More(m, u) == At(g, x);
    KeyPart(info, g, x);
  }

  lemma ValuePartGoesOn(info: InfoParser, m: Machine, t: bytes, u: bytes, msgs: seq<Message>, e: nat)
    requires ValueBegun(m, t, msgs, e) && TextOk(t + u)
    ensures Run(info, false, More(m, u)) == (More(m, u), VALUE) && ValueBegun(More(m, u), t + u, msgs, e)
  {
    hide Run, ColonAt;
    var x := t + u;
    ColonStays(t, u);
    DropConcat(t, u, e);
    assert x[ColonAt(t, 0) + 1..e] == t[ColonAt(t, 0) + 1..e];
    assert x == t[..e] + (t[e..] + u);
    PartOfText(t[..e], t[e..] + u);
    ValueWaits(info, More(m, u));
  }

  // ---- the end of a line

  /** Behind part of a line, the rest of it with its end does what the whole line would have done. */
  lemma LineFinishes(info: InfoParser, cleanup: bool, m: Machine, f: Fold, t: bytes, u: bytes, end: bytes, z: bytes)
    requires InLine(m, f, t) && PartOk(info, f, t) && TextOk(t + u) && EndOk(end, z)
    requires t != [] && !Continues(f, t) ==> Recognise(info, t + u).None?
    ensures Run(info, cleanup, More(m, u + (end + z))) == Run(info, cleanup, At(f, (t + u) + (end + z)))
  {
    hide Run, IsName, Recognise, ColonAt, Close, ValueBegun, TextOk, FoldLine;
    var x, y := t + u, end + z;
    SeqAssoc(t, u, y);
    if t == [] {
      assert x == u && [] + (u + y) == u + y;
    } else {
      assert x[0] == t[0];
      if Continues(f, t) {
        ContinuationFinishes(info, cleanup, m, f, x, end, z);
        assert More(m, u + y).buffer == x + y;
        ContinuationRuns(info, cleanup, f, x, end, z);
      } else {
        assert (x + y)[0] == t[0];
        if f.field.Some? { CloseRuns(info, cleanup, f, x + y); } else { NothingToClose(f); }
        if ColonAt(t, 0) == |t| {
          ClosedIsClosed(f);
          assert More(m, u + y) == At(Close(f), x + y);
        } else {
          var e: nat :| ValueBegun(m, t, Close(f).msgs, e);
          ValueFinishes(info, cleanup, m, f, t, u, end, z, e);
        }
      }
    }
  }

  lemma ContinuationFinishes(info: InfoParser, cleanup: bool, m: Machine, f: Fold, x: bytes, end: bytes, z: bytes)
    requires f.field.Some? && m.stack == [VALUE] && m.key == Some(f.field.value.name) && m.val == f.field.value.value && m.msgs == f.msgs
    requires TextOk(x) && Continues(f, x) && EndOk(end, z) && !f.failed
    ensures Run(info, cleanup, m.(buffer := x + (end + z))) == Run(info, cleanup, At(FoldLine(info, f, x), z))
  {
    hide Run, Step, AddPiece, ValueStep;
    var n := Machine([], m.key, m.val, x + (end + z), m.msgs);
    ValueStepLine(cleanup, m.key, m.val, m.msgs, x, end, z);
    SingleStep(info, cleanup, VALUE, n);
    GoRuns(info, cleanup, Single(VALUE, n), At(FoldLine(info, f, x), z));
  }

  lemma ValueFinishes(info: InfoParser, cleanup: bool, m: Machine, f: Fold, t: bytes, u: bytes, end: bytes, z: bytes, e: nat)
    requires ValueBegun(m, t, Close(f).msgs, e) && TextOk(t + u) && EndOk(end, z)
    requires !Close(f).failed && IsName(t[..ColonAt(t, 0)]) && Recognise(info, t + u).None?
    ensures Run(info, cleanup, More(m, u + (end + z))) == Run(info, cleanup, At(Close(f), (t + u) + (end + z)))
  {
    hide Run, Step, AddPiece, ValueStep, IsName, Recognise, ColonAt, Close, TextOk;
    var x, c, msgs := t + u, ColonAt(t, 0), Close(f).msgs;
    ColonStays(t, u);
    ClosedIsClosed(f);
    FieldLine(info, cleanup, msgs, x, end, z);
    var v := t[e..] + u;
    SeqAssoc(t[e..], u, end + z);
    assert x == t[..e] + v;
    PartOfText(t[..e], v);
    var n := Machine([], Some(t[..c]), None, v + (end + z), msgs);
    ValueStepLine(cleanup, n.key, None, msgs, v, end, z);
    SingleStep(info, cleanup, VALUE, n);
    var tail := x[c + 1..];
    assert forall i :: 0 <= i < e - c - 1 ==> tail[i] == t[c + 1..e][i];
    assert tail[e - c - 1..] == v;
    PieceSkipsBlank(tail, e - c - 1);
    GoRuns(info, cleanup, Single(VALUE, n), Machine([VALUE_EX], Some(t[..c]), AddPiece(None, tail), z, msgs));
  }

  // ---- pieces

  /** Feeding pieces one by one, until the parser is done or has failed. */
  function Feeds(info: InfoParser, m: Machine, ds: seq<bytes>): (Machine, HState)
    decreases |ds|
  {
    if ds == [] then (m, Top(m.stack))
    else
      var (n, s) := Run(info, false, More(m, ds[0]));
      if Waiting(s) then Feeds(info, n, ds[1..]) else (n, s)
  }

  function After(info: InfoParser, f: Fold, l: Line): Fold { if l.text == [] then Close(f) else FoldLine(info, f, l.text) }

  /** A cut within a line that starts a field asks that neither the line nor the part of it is a start line. */
  ghost predicate CutInLine(info: InfoParser, f: Fold, text: bytes, n: nat)
    requires n <= |text|
  {
    n == 0 || Continues(f, text) || (Recognise(info, text).None? && Recognise(info, text[..n]).None?)
  }

  /** A cut behind `n` bytes of the lines: between lines or within one, but not between a CR and its LF. */
  ghost predicate CutOk(info: InfoParser, f: Fold, ls: seq<Line>, n: nat)
    decreases |ls|
  {
    if ls == [] then n == 0
    else
      var l := ls[0];
      var len := |l.text| + |EndOf(l)|;
      if n >= len then CutOk(info, After(info, f, l), ls[1..], n - len)
      else n <= |l.text| && CutInLine(info, f, l.text, n)
  }

  /** So it is with all cuts behind these pieces, of which the first follows `n` bytes. */
  ghost predicate CutsOk(info: InfoParser, f: Fold, ls: seq<Line>, n: nat, ds: seq<bytes>)
    decreases |ds|
  {
    ds == [] || (CutOk(info, f, ls, n + |ds[0]|) && CutsOk(info, f, ls, n + |ds[0]|, ds[1..]))
  }

  /** Lines that do not fail, and a blank one at most at their end. */
  ghost predicate Readable(info: InfoParser, f: Fold, ls: seq<Line>) {
    var r := FoldLines(info, f, ls);
    !f.failed && LinesOk(ls) && !r.verdict.Failed? && r.rest == []
  }

  ghost predicate Begun(info: InfoParser, f: Fold, ls: seq<Line>, t: bytes) {
    t == [] || (ls != [] && t <= ls[0].text && CutInLine(info, f, ls[0].text, |t|))
  }

  lemma CutAtStart(info: InfoParser, f: Fold, ls: seq<Line>) ensures CutOk(info, f, ls, 0) {}

  lemma ReadableRest(info: InfoParser, f: Fold, ls: seq<Line>)
    requires Readable(info, f, ls) && ls != []
    ensures TextOk(ls[0].text)
    ensures ls[0].text == [] ==> ls[1..] == [] && !Close(f).failed && FoldLines(info, f, ls).verdict.Done?
    ensures ls[0].text != [] ==> var g := FoldLine(info, f, ls[0].text);
      Readable(info, g, ls[1..]) && FoldLines(info, f, ls) == FoldLines(info, g, ls[1..])
  {
    hide FoldLine, Close, TextOk;
  }

  /** What is in front of a cut within a line is in order. */
  lemma CutLeavesPart(info: InfoParser, f: Fold, text: bytes, n: nat)
    requires n <= |text| && TextOk(text) && !f.failed && CutInLine(info, f, text, n)
    requires text != [] && !FoldLine(info, f, text).failed
    ensures PartOk(info, f, text[..n])
  {
    hide IsName, Recognise, ColonAt, Close, AddPiece, OnInfo;
    var t, u := text[..n], text[n..];
    assert text == t + u;
    PartOfText(t, u);
    if n > 0 {
      assert t[0] == text[0];
      ColonStays(t, u);
    }
  }

  lemma NothingIsPart(info: InfoParser, f: Fold) requires !f.failed ensures PartOk(info, f, []) && InLine(At(f, []), f, []) {}

  /** The part of the first line, from a cut within the lines. */
  lemma FirstPart(info: InfoParser, f: Fold, ls: seq<Line>, n: nat)
    requires Readable(info, f, ls) && ls != [] && n <= |ls[0].text| && CutOk(info, f, ls, n)
    ensures PartOk(info, f, ls[0].text[..n])
  {
    hide FoldLine, FoldLines, PartOk, CutInLine, TextOk;
    ReadableRest(info, f, ls);
    if n == 0 {
      NothingIsPart(info, f);
      assert ls[0].text[..0] == [];
    } else {
      CutLeavesPart(info, f, ls[0].text, n);
    }
  }

  /** How far the parser has got: the fold so far, the lines that are left, and the part of the first one that is read. */
  ghost predicate Stands(info: InfoParser, f: Fold, ls: seq<Line>, t: bytes, m: Machine) {
    Readable(info, f, ls) && Begun(info, f, ls, t) && InLine(m, f, t) && PartOk(info, f, t)
  }

  lemma LineSplits(ls: seq<Line>, t: bytes, n: nat)
    requires ls != [] && t <= ls[0].text && |ls[0].text| + |EndOf(ls[0])| <= n <= |Text(ls)|
    ensures var l, z := ls[0], Text(ls[1..])[..n - |ls[0].text| - |EndOf(ls[0])|];
      && t + l.text[|t|..] == l.text && Text(ls)[|t|..n] == l.text[|t|..] + (EndOf(l) + z)
      && Text(ls)[n..] == Text(ls[1..])[|z|..]
  {
    hide Text;
    var l, y := ls[0], Text(ls[1..]);
    assert Text(ls) == l.text + (EndOf(l) + y) by { FirstOfText(ls); }
    Cuts(l.text, EndOf(l), y, |t|, n);
  }

  lemma FirstOfText(ls: seq<Line>)
    requires ls != []
    ensures Text(ls) == ls[0].text + (EndOf(ls[0]) + Text(ls[1..]))
  {}

  lemma Cuts(a: bytes, b: bytes, y: bytes, i: nat, n: nat)
    requires i <= |a| && |a| + |b| <= n <= |a| + |b| + |y|
    ensures var x, z := a + (b + y), y[..n - |a| - |b|]; x[i..n] == a[i..] + (b + z) && x[n..] == y[|z|..]
  {}

  /** One piece within the lines: the parser waits and stands as far ahead as the piece reaches. */
  lemma {:induction false} PieceAdvances(info: InfoParser, f: Fold, ls: seq<Line>, t: bytes, m: Machine, d: bytes)
      returns (g: Fold, rest: seq<Line>, v: bytes)
    requires Stands(info, f, ls, t, m)
    requires var n := |t| + |d|;
      && n <= |Text(ls)| && d == Text(ls)[|t|..n] && CutOk(info, f, ls, n)
      && (FoldLines(info, f, ls).verdict.Done? ==> n < |Text(ls)|)
    ensures var r := Run(info, false, More(m, d)); Waiting(r.1) && Stands(info, g, rest, v, r.0)
    ensures FoldLines(info, g, rest) == FoldLines(info, f, ls) && |v| <= |Text(rest)| <= |Text(ls)|
    ensures |v| == |t| + |d| - (|Text(ls)| - |Text(rest)|) && Text(rest)[|v|..] == Text(ls)[|t| + |d|..]
    ensures forall k: nat :: k >= |t| + |d| && CutOk(info, f, ls, k) ==> CutOk(info, g, rest, k - (|Text(ls)| - |Text(rest)|))
    decreases |ls|
  {
    hide Run, FoldLine, Close, InLine, PartOk, At, FoldLines, CutInLine, Readable, Text, More, Begun;
    var n := |t| + |d|;
    if ls == [] || n < |ls[0].text| + |EndOf(ls[0])| {
      g, rest, v := f, ls, t + d;
      WithinLine(info, f, ls, t, m, d);
    } else {
      var h, len := FoldLine(info, f, ls[0].text), |ls[0].text| + |EndOf(ls[0])|;
      var z := NextLine(info, f, ls, t, m, d);
      g, rest, v := PieceAdvances(info, h, ls[1..], [], At(h, []), z);
    }
  }

  /** A piece that reaches beyond a line: what is left of it is the first piece for the next line. */
  lemma NextLine(info: InfoParser, f: Fold, ls: seq<Line>, t: bytes, m: Machine, d: bytes) returns (z: bytes)
    requires Stands(info, f, ls, t, m) && ls != []
    requires var n := |t| + |d|;
      && |ls[0].text| + |EndOf(ls[0])| <= n <= |Text(ls)| && d == Text(ls)[|t|..n] && CutOk(info, f, ls, n)
      && (FoldLines(info, f, ls).verdict.Done? ==> n < |Text(ls)|)
    ensures ls[0].text != [] && |Text(ls)| == |ls[0].text| + |EndOf(ls[0])| + |Text(ls[1..])|
    ensures var h := FoldLine(info, f, ls[0].text);
      && Stands(info, h, ls[1..], [], At(h, [])) && FoldLines(info, f, ls) == FoldLines(info, h, ls[1..])
      && Run(info, false, More(m, d)) == Run(info, false, More(At(h, []), z)) && CutOk(info, h, ls[1..], |z|)
    ensures |z| == |t| + |d| - |ls[0].text| - |EndOf(ls[0])| && |z| <= |Text(ls[1..])|
    ensures z == Text(ls[1..])[0..|z|] && Text(ls)[|t| + |d|..] == Text(ls[1..])[|z|..]
  {
    hide Run, FoldLine, Close, InLine, PartOk, At, FoldLines, CutInLine, TextOk, More, LinesOk;
    var n, h := |t| + |d|, FoldLine(info, f, ls[0].text);
    ReadableRest(info, f, ls);
    BlankIsLast(info, f, ls);
    z := Text(ls[1..])[..n - |ls[0].text| - |EndOf(ls[0])|];
    LineSplits(ls, t, n);
    LineGoesBy(info, false, f, ls, t, m, z);
    NothingIsPart(info, h);
    MoreAt(h, z);
  }

  lemma MoreAt(f: Fold, z: bytes)
    ensures More(At(f, []), z) == At(f, z)
  {
    assert [] + z == z;
  }

  lemma BlankIsLast(info: InfoParser, f: Fold, ls: seq<Line>)
    requires Readable(info, f, ls) && ls != []
    ensures ls[0].text == [] ==> FoldLines(info, f, ls).verdict.Done? && |Text(ls)| == |EndOf(ls[0])|
  {
    hide FoldLine, Close;
    ReadableRest(info, f, ls);
  }

  lemma WithinLine(info: InfoParser, f: Fold, ls: seq<Line>, t: bytes, m: Machine, d: bytes)
    requires Stands(info, f, ls, t, m) && |t| + |d| <= |Text(ls)| && d == Text(ls)[|t|..|t| + |d|]
    requires CutOk(info, f, ls, |t| + |d|) && (ls != [] ==> |t| + |d| < |ls[0].text| + |EndOf(ls[0])|)
    ensures var r := Run(info, false, More(m, d)); Waiting(r.1) && Stands(info, f, ls, t + d, r.0)
    ensures t + d == Text(ls)[..|t| + |d|]
  {
    hide Run, FoldLine, FoldLines, Close, TextOk, InLine, PartOk, At;
    if ls == [] {
      assert t + d == [];
    } else {
      var n, l := |t| + |d|, ls[0];
      assert l.text <= Text(ls);
      assert t + d == l.text[..n];
      FirstPart(info, f, ls, n);
    }
    PartGoesOn(info, m, f, t, d);
  }

  /** The end of the line comes in, with anything behind it. */
  lemma LineGoesBy(info: InfoParser, cleanup: bool, f: Fold, ls: seq<Line>, t: bytes, m: Machine, z: bytes)
    requires Stands(info, f, ls, t, m) && ls != [] && ls[0].text != []
    ensures t <= ls[0].text && Run(info, cleanup, More(m, ls[0].text[|t|..] + (EndOf(ls[0]) + z)))
      == Run(info, cleanup, At(FoldLine(info, f, ls[0].text), z))
  {
    hide Run, FoldLine, Close, TextOk, InLine, FoldLines, Recognise, IsName;
    var l := ls[0];
    ReadableRest(info, f, ls);
    assert t + l.text[|t|..] == l.text;
    assert t != [] ==> t[0] == l.text[0];
    LineFinishes(info, cleanup, m, f, t, l.text[|t|..], EndOf(l), z);
    LineRuns(info, cleanup, f, l, z);
  }

  lemma {:induction false} CutsShift(info: InfoParser, f: Fold, ls: seq<Line>, n: nat, ds: seq<bytes>,
                                     g: Fold, rest: seq<Line>, gone: nat)
    requires gone <= n && CutsOk(info, f, ls, n, ds)
    requires forall k: nat :: k >= n && CutOk(info, f, ls, k) ==> CutOk(info, g, rest, k - gone)
    ensures CutsOk(info, g, rest, n - gone, ds)
    decreases |ds|
  {
    hide CutOk;
    if ds != [] { CutsShift(info, f, ls, n + |ds[0]|, ds[1..], g, rest, gone); }
  }

  lemma StandsWaiting(info: InfoParser, f: Fold, ls: seq<Line>, t: bytes, m: Machine)
    requires Stands(info, f, ls, t, m)
    ensures Waiting(Top(m.stack))
  {
    hide FoldLines, TextOk, IsName, Recognise, Close;
  }

  lemma FirstOfPieces(all: bytes, i: nat, d: bytes, ds: seq<bytes>)
    requires i + |Concat([d] + ds)| <= |all| && Concat([d] + ds) == all[i..i + |Concat([d] + ds)|]
    ensures var n, c := i + |d|, Concat(ds); Concat([d] + ds) == d + c && d == all[i..n] && c == all[n..n + |c|]
  {
    var c := Concat(ds);
    assert ([d] + ds)[1..] == ds;
    assert all[i..i + |d + c|][..|d|] == d && all[i..i + |d + c|][|d|..] == c;
  }

  lemma Behind(x: bytes, i: nat, y: bytes, j: nat, c: bytes)
    requires i <= |x| && j <= |y| && x[i..] == y[j..] && j + |c| <= |y| && c == y[j..j + |c|]
    ensures i + |c| <= |x| && c == x[i..i + |c|] && x[i + |c|..] == y[j + |c|..]
  {
    assert x[i..][..|c|] == y[j..][..|c|] && x[i..][|c|..] == y[j..][|c|..];
  }

  /** One of several pieces within the lines, and what is left for the others. */
  lemma OneOfPieces(info: InfoParser, f: Fold, ls: seq<Line>, t: bytes, m: Machine, d: bytes, ds: seq<bytes>)
      returns (g: Fold, rest: seq<Line>, v: bytes)
    requires Stands(info, f, ls, t, m) && CutsOk(info, f, ls, |t|, [d] + ds)
    requires var n := |t| + |Concat([d] + ds)|;
      && n <= |Text(ls)| && Concat([d] + ds) == Text(ls)[|t|..n]
      && (FoldLines(info, f, ls).verdict.Done? ==> n < |Text(ls)|)
    ensures var r := Run(info, false, More(m, d)); Waiting(r.1) && Stands(info, g, rest, v, r.0)
    ensures FoldLines(info, g, rest) == FoldLines(info, f, ls) && CutsOk(info, g, rest, |v|, ds)
    ensures var c := Concat(ds);
      && |Concat([d] + ds)| == |d| + |c| && |v| + |c| <= |Text(rest)| && c == Text(rest)[|v|..|v| + |c|]
      && Text(rest)[|v| + |c|..] == Text(ls)[|t| + |d| + |c|..]
      && |Text(rest)| - |v| == |Text(ls)| - |t| - |d|
  {
    hide Run, Stands, FoldLines, CutOk, Text, More, Concat;
    var all, n, c := Text(ls), |t| + |d|, Concat(ds);
    FirstOfPieces(all, |t|, d, ds);
    assert ([d] + ds)[0] == d && ([d] + ds)[1..] == ds;
    g, rest, v := PieceAdvances(info, f, ls, t, m, d);
    CutsShift(info, f, ls, n, ds, g, rest, |all| - |Text(rest)|);
    Behind(Text(rest), |v|, all, n, c);
  }

  /** Pieces within the lines: every call waits, and the parser stands behind what has come in. */
  lemma {:induction false} PiecesAdvance(info: InfoParser, f: Fold, ls: seq<Line>, t: bytes, m: Machine, ds: seq<bytes>)
      returns (g: Fold, rest: seq<Line>, v: bytes)
    requires Stands(info, f, ls, t, m) && CutsOk(info, f, ls, |t|, ds)
    requires var n := |t| + |Concat(ds)|;
      && n <= |Text(ls)| && Concat(ds) == Text(ls)[|t|..n]
      && (FoldLines(info, f, ls).verdict.Done? ==> n < |Text(ls)|)
    ensures var r := Feeds(info, m, ds); Waiting(r.1) && Stands(info, g, rest, v, r.0)
    ensures FoldLines(info, g, rest) == FoldLines(info, f, ls) && |v| <= |Text(rest)|
    ensures Text(rest)[|v|..] == Text(ls)[|t| + |Concat(ds)|..]
    decreases |ds|
  {
    hide Run, Stands, FoldLines, CutsOk, Text, More, Concat;
    if ds == [] {
      g, rest, v := f, ls, t;
      StandsWaiting(info, f, ls, t, m);
      NothingConcat();
    } else {
      assert [ds[0]] + ds[1..] == ds;
      var g1, rest1, v1 := OneOfPieces(info, f, ls, t, m, ds[0], ds[1..]);
      g, rest, v := PiecesAdvance(info, g1, rest1, v1, Run(info, false, More(m, ds[0])).0, ds[1..]);
    }
  }

  lemma NothingConcat() ensures Concat<byte>([]) == [] {}

  /** The piece that brings the end of the last line, and the blank one that closes the head. */
  lemma LastPiece(info: InfoParser, cleanup: bool, f: Fold, ls: seq<Line>, t: bytes, m: Machine, z: bytes)
    requires Stands(info, f, ls, t, m) && FoldLines(info, f, ls).verdict.Done?
    ensures |t| <= |Text(ls)|
    ensures Run(info, cleanup, More(m, Text(ls)[|t|..] + z)) == (Fresh(FoldLines(info, f, ls).f.msgs, z), DONE)
  {
    hide Run, FoldLine, Close, TextOk, InLine, Recognise, IsName;
    HeadFeed(info, cleanup, f, ls, z);
    var l := ls[0];
    var x, y := l.text[|t|..], EndOf(l) + (Text(ls[1..]) + z);
    assert Text(ls)[|t|..] == x + (EndOf(l) + Text(ls[1..]));
    assert Text(ls)[|t|..] + z == x + y by { LineJoins(x, EndOf(l), Text(ls[1..]), z); }
    assert Text(ls) + z == l.text + y by { LineJoins(l.text, EndOf(l), Text(ls[1..]), z); }
    ReadableRest(info, f, ls);
    assert t + x == l.text;
    assert t != [] ==> t[0] == l.text[0];
    LineFinishes(info, cleanup, m, f, t, x, EndOf(l), Text(ls[1..]) + z);
  }

  /** The parser that sees the first byte of a head, and no white space. */
  lemma FirstPiece(info: InfoParser, msgs: seq<Message>, ds: seq<bytes>)
    requires ds != [] && ds[0] != [] && !IsSpace(ds[0][0])
    ensures Feeds(info, Fresh(msgs, []), ds) == Feeds(info, At(Fold(None, msgs, false), []), ds)
  {
    hide Run;
    assert [] + ds[0] == ds[0];
    StartRuns(info, false, msgs, ds[0]);
  }

  lemma SplitsAt(a: bytes, last: bytes, x: bytes, z: bytes)
    requires a + last == x + z && |a| < |x|
    ensures a == x[..|a|] && last == x[|a|..] + z
  {
    assert (a + last)[..|a|] == (x + z)[..|a|] && (a + last)[|a|..] == (x + z)[|a|..];
  }

  lemma FirstByte(ds: seq<bytes>, x: bytes)
    requires ds != [] && ds[0] != [] && |Concat(ds)| <= |x| && Concat(ds) == x[..|Concat(ds)|]
    ensures x != [] && ds[0][0] == x[0]
  {
    assert Concat(ds)[0] == ds[0][0];
  }

  lemma SomePieces(info: InfoParser, cleanup: bool, msgs: seq<Message>, ls: seq<Line>, ds: seq<bytes>, last: bytes, z: bytes)
    requires var f := Fold(None, msgs, false);
      Readable(info, f, ls) && FoldLines(info, f, ls).verdict.Done? && Text(ls) != [] && !IsSpace(Text(ls)[0])
      && CutsOk(info, f, ls, 0, ds)
    requires Concat(ds) + last == Text(ls) + z && |Concat(ds)| < |Text(ls)| && ds != [] && ds[0] != []
    ensures var (m, s) := Feeds(info, Fresh(msgs, []), ds);
      && Waiting(s) && Run(info, cleanup, More(m, last)) == (Fresh(FoldLines(info, Fold(None, msgs, false), ls).f.msgs, z), DONE)
  {
    hide Run, Stands, CutOk, Feeds, More, FoldLines, Text, Concat, Readable, CutsOk;
    var f, x, n := Fold(None, msgs, false), Text(ls), |Concat(ds)|;
    SplitsAt(Concat(ds), last, x, z);
    FirstByte(ds, x);
    FirstPiece(info, msgs, ds);
    AtStart(info, f, ls);
    assert x[0..n] == x[..n];
    var g, rest, v := PiecesAdvance(info, f, ls, [], At(f, []), ds);
    LastPiece(info, cleanup, g, rest, v, Feeds(info, Fresh(msgs, []), ds).0, z);
  }

  /**
   * However a head is cut into pieces, within its lines too, but not between a CR and its LF nor
   * within a start line: the parser waits until the piece that brings the end of the blank line, and
   * then ends as if it had been fed all at once.
   */
  lemma HeadInPieces(info: InfoParser, cleanup: bool, msgs: seq<Message>, ls: seq<Line>, ds: seq<bytes>, last: bytes, z: bytes)
    requires var f := Fold(None, msgs, false);
      Readable(info, f, ls) && FoldLines(info, f, ls).verdict.Done? && Text(ls) != [] && !IsSpace(Text(ls)[0])
      && CutsOk(info, f, ls, 0, ds)
    requires Concat(ds) + last == Text(ls) + z && |Concat(ds)| < |Text(ls)| && (ds != [] ==> ds[0] != [])
    ensures var (m, s) := Feeds(info, Fresh(msgs, []), ds);
      && Waiting(s) && Run(info, cleanup, More(m, last)) == (Fresh(FoldLines(info, Fold(None, msgs, false), ls).f.msgs, z), DONE)
    ensures Run(info, cleanup, Fresh(msgs, Text(ls) + z)) == (Fresh(FoldLines(info, Fold(None, msgs, false), ls).f.msgs, z), DONE)
  {
    hide Run, CutsOk, Feeds, Text, FoldLines, Readable;
    HeadAtOnce(info, cleanup, msgs, ls, z);
    if ds == [] {
      NothingFed(info, Fresh(msgs, []));
      assert last == Text(ls) + z && [] + last == last;
    } else {
      SomePieces(info, cleanup, msgs, ls, ds, last, z);
    }
  }

  lemma HeadAtOnce(info: InfoParser, cleanup: bool, msgs: seq<Message>, ls: seq<Line>, z: bytes)
    requires var f := Fold(None, msgs, false);
      Readable(info, f, ls) && FoldLines(info, f, ls).verdict.Done? && Text(ls) != [] && !IsSpace(Text(ls)[0])
    ensures Run(info, cleanup, Fresh(msgs, Text(ls) + z)) == (Fresh(FoldLines(info, Fold(None, msgs, false), ls).f.msgs, z), DONE)
  {
    hide Run, Text, FoldLines, LinesOk;
    HeadFeed(info, cleanup, Fold(None, msgs, false), ls, z);
    StartRuns(info, cleanup, msgs, Text(ls) + z);
  }

  lemma NothingFed(info: InfoParser, m: Machine) ensures Feeds(info, m, []) == (m, Top(m.stack)) {}

  lemma AtStart(info: InfoParser, f: Fold, ls: seq<Line>)
    requires Readable(info, f, ls)
    ensures Stands(info, f, ls, [], At(f, []))
  {
    hide FoldLines, LinesOk, At;
    NothingIsPart(info, f);
  }

  // ---- the cut that is not harmless

  /**
   * Between the CR and the LF of any line that is read without failure: the LF that comes late is
   * taken for the blank line, which stores the field and ends the head.
   */
  lemma LateLfEndsHead(info: InfoParser, f: Fold, t: bytes, z: bytes)
    requires TextOk(t) && t != [] && !f.failed && NoNul(f) && !FoldLine(info, f, t).failed
    ensures var (m, s) := Run(info, false, At(f, t + [CR]));
      Waiting(s) && Run(info, false, More(m, [LF] + z)) == (Fresh(Close(FoldLine(info, f, t)).msgs, z), DONE)
  {
    hide Run, FoldLine, Close, TextOk;
    var g := FoldLine(info, f, t);
    LoneCrRuns(info, f, t);
    Waits(info, g);
    MoreAt(g, [LF] + z);
    FoldKeepsNoNul(info, f, t);
    assert !Close(g).failed by { NoNulCloses(g); }
    BlankLineRuns(info, false, g, Line([], false), z);
  }

  lemma NoNulCloses(f: Fold) requires NoNul(f) && !f.failed ensures !Close(f).failed { hide OnField, Canonical; }

  lemma LoneCrRuns(info: InfoParser, f: Fold, t: bytes)
    requires TextOk(t) && t != [] && !f.failed && !FoldLine(info, f, t).failed
    ensures Run(info, false, At(f, t + [CR])) == Run(info, false, At(FoldLine(info, f, t), []))
  {
    hide Run, OpenLine, At, OnField, OnInfo;
    var b := t + ([CR] + []);
    assert b == t + [CR] && b[0] == t[0];
    if Continues(f, t) {
      ContinuationRuns(info, false, f, t, [CR], []);
    } else if f.field.None? {
      assert Close(f) == f;
      OpenLineRuns(info, false, f, t, [CR], []);
    } else {
      CloseRuns(info, false, f, b);
      OpenLineRuns(info, false, Close(f), t, [CR], []);
    }
  }

  // ---- a last line without an end

  /**
   * With CLEANUP, what has come in of a line counts as the line, if there is anything behind its
   * colon; otherwise the parser waits on, with the name it has read.
   */
  lemma PartIsTaken(info: InfoParser, m: Machine, f: Fold, t: bytes)
    requires InLine(m, f, t) && PartOk(info, f, t) && t != [] && !FoldLine(info, f, t).failed
    ensures m.buffer != [] ==> Run(info, true, m) == Run(info, true, At(FoldLine(info, f, t), []))
    ensures m.buffer == [] ==> m.stack == [VALUE] && Run(info, true, m) == (m, VALUE)
  {
    hide Run, IsName, ColonAt, Close, ValueBegun, TextOk, Step, AddPiece, Recognise, ValueStep, HeaderDoneStep;
    if Continues(f, t) {
      ValueIsTaken(info, m);
      StoresWithCleanup(info, FoldLine(info, f, t));
    } else {
      OpensWithColon(info, Close(f), t);
      var e: nat :| ValueBegun(m, t, Close(f).msgs, e);
      BegunIsTaken(info, m, t, Close(f).msgs, e);
      ClosedIsClosed(f);
      StoresWithCleanup(info, FoldLine(info, f, t));
    }
  }

  lemma BegunIsTaken(info: InfoParser, m: Machine, t: bytes, msgs: seq<Message>, e: nat)
    requires ValueBegun(m, t, msgs, e) && TextOk(t)
    ensures var c := ColonAt(t, 0);
      c < |t| && (m.buffer != [] ==>
        Run(info, true, m) == Run(info, true, Machine([HEADER_DONE], Some(t[..c]), AddPiece(None, t[c + 1..]), [], msgs)))
    ensures m.buffer == [] ==> m.stack == [VALUE] && Run(info, true, m) == (m, VALUE)
  {
    hide Run, Step, AddPiece, ColonAt, TextOk;
    var c := ColonAt(t, 0);
    assert t == t[..e] + t[e..];
    PartOfText(t[..e], t[e..]);
    if m.buffer == [] {
      WaitsOn(info, m);
    } else {
      ValueIsTaken(info, m);
      var tail := t[c + 1..];
      assert forall i :: 0 <= i < e - c - 1 ==> tail[i] == t[c + 1..e][i];
      assert tail[e - c - 1..] == t[e..];
      PieceSkipsBlank(tail, e - c - 1);
    }
  }

  lemma WaitsOn(info: InfoParser, m: Machine)
    requires m.stack == [VALUE] && m.buffer == []
    ensures Run(info, true, m) == (m, VALUE)
  {}

  lemma OpensWithColon(info: InfoParser, f: Fold, t: bytes)
    requires Recognise(info, t).None? && !OpenLine(info, f, t).failed
    ensures var c := ColonAt(t, 0);
      c < |t| && OpenLine(info, f, t) == f.(field := Some(Pending(t[..c], AddPiece(None, t[c + 1..]))))
  {
    hide ColonAt, AddPiece, IsName;
  }

  lemma ValueIsTaken(info: InfoParser, m: Machine)
    requires m.stack == [VALUE] && TextOk(m.buffer) && m.buffer != []
    ensures Run(info, true, m)
      == Run(info, true, m.(stack := [HEADER_DONE], val := AddPiece(m.val, m.buffer), buffer := []))
  {
    hide Run, Step, FirstEol, AddPiece;
    NoEolYet(m.buffer);
    SingleStep(info, true, VALUE, m.(stack := []));
    assert [] + [HEADER_DONE] == [HEADER_DONE];
    GoRuns(info, true, m, m.(stack := [HEADER_DONE], val := AddPiece(m.val, m.buffer), buffer := []));
  }

  /** At the end of the data, a field that is open is stored next. */
  lemma StoresWithCleanup(info: InfoParser, f: Fold)
    requires !f.failed && f.field.Some?
    ensures Run(info, true, At(f, [])) == Run(info, true, At(f, []).(stack := [HEADER_DONE]))
  {
    hide Run, Step, HeaderDoneStep;
    var m := At(f, []);
    SingleStep(info, true, VALUE_EX, m.(stack := []));
    assert [] + [HEADER_DONE] == [HEADER_DONE];
    GoRuns(info, true, m, m.(stack := [HEADER_DONE]));
  }

  /** With CLEANUP, a last line without a colon is a failure, where without it the parser waits for more. */
  lemma NameAloneFails(info: InfoParser, m: Machine, f: Fold, t: bytes)
    requires InLine(m, f, t) && PartOk(info, f, t) && t != [] && !Continues(f, t) && ColonAt(t, 0) == |t|
    ensures Run(info, true, m) == (m.(stack := [FAILURE]), FAILURE) && Run(info, false, m) == (m, KEY)
  {
    hide Run, Step, FirstEol, IsName, Recognise, BlankEnd, OnInfo, LineOf, ColonAt, Close, TextOk;
    NoEolYet(t);
    assert LineOf(t) == t by { LineOfText(t, []); assert t + [] == t; }
    assert [] + [FAILURE] == [FAILURE] && [] + [KEY] == [KEY];
    SingleStep(info, true, KEY, m.(stack := []));
    SingleStep(info, false, KEY, m.(stack := []));
    ReturnRuns(info, true, m, m.(stack := [FAILURE]), FAILURE);
    ReturnRuns(info, false, m, m, KEY);
  }

  lemma SomethingIsLeft(tail: bytes, x: bytes)
    requires x <= tail && Blank(x) && !Blank(tail)
    ensures |x| < |tail|
  {}

  /** The same for a line that comes in one call: a name, a colon, and more than white space. */
  lemma UnendedLine(info: InfoParser, f: Fold, t: bytes)
    requires f.field.None? && PartOk(info, f, t) && !FoldLine(info, f, t).failed
    requires var c := ColonAt(t, 0); c < |t| && !Blank(t[c + 1..])
    ensures Run(info, true, At(f, t)) == Run(info, true, At(FoldLine(info, f, t), []))
  {
    hide Run, IsName, Recognise, ColonAt, AddPiece, TextOk, ValueBegun;
    NothingToClose(f);
    OpensWithColon(info, f, t);
    var n, e := KeyOpens(info, true, f, t);
    BegunHasMore(n, t, f.msgs, e);
    BegunIsTaken(info, n, t, f.msgs, e);
    StoresWithCleanup(info, FoldLine(info, f, t));
  }

  lemma BegunHasMore(m: Machine, t: bytes, msgs: seq<Message>, e: nat)
    requires ValueBegun(m, t, msgs, e) && ColonAt(t, 0) < |t| && !Blank(t[ColonAt(t, 0) + 1..])
    ensures m.buffer != []
  {
    hide ColonAt;
    var c := ColonAt(t, 0);
    SomethingIsLeft(t[c + 1..], t[c + 1..e]);
  }
}
