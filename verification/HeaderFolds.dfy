/** Header fields folded over several lines: what is stored of them. */
module HeaderFolds {
  import opened Bytes
  import opened HeaderNames
  import opened Messages
  import opened HeaderParser
  import opened HeaderLines

  /** What one line says of a value: a text, or nothing, with white space around it, and how the line ends. */
  datatype Piece = Piece(before: bytes, text: bytes, after: bytes, crlf: bool)

  /** A field with the line it starts on and the lines that continue it. */
  datatype Folded = Folded(name: bytes, first: Piece, others: seq<Piece>)

  function PieceText(p: Piece): bytes { p.before + (p.text + p.after) }

  function FirstLine(h: Folded): Line { Line(h.name + ([58] + PieceText(h.first)), h.first.crlf) }

  function OtherLines(ps: seq<Piece>): seq<Line> {
    if ps == [] then [] else [Line(PieceText(ps[0]), ps[0].crlf)] + OtherLines(ps[1..])
  }

  function LinesOf(h: Folded): seq<Line> { [FirstLine(h)] + OtherLines(h.others) }

  function AllLines(hs: seq<Folded>): seq<Line> { if hs == [] then [] else LinesOf(hs[0]) + AllLines(hs[1..]) }

  /** A text neither starts nor ends with white space. */
  ghost predicate PieceOk(p: Piece) {
    && Blank(p.before) && Blank(p.after) && TextOk(PieceText(p))
    && (p.text != [] ==> !IsSpace(p.text[0]) && !IsSpace(p.text[|p.text| - 1]))
  }

  /** A line that continues a field starts with SP or TAB. */
  ghost predicate ContinuesIt(p: Piece) { PieceOk(p) && p.before != [] && (p.before[0] == SP || p.before[0] == TAB) }

  ghost predicate FoldedOk(info: InfoParser, h: Folded) {
    && h.name != [] && IsName(h.name) && PieceOk(h.first) && Recognise(info, FirstLine(h).text).None?
    && forall i :: 0 <= i < |h.others| ==> ContinuesIt(h.others[i])
  }

  /** The texts of the pieces that have one. */
  function Texts(ps: seq<Piece>): seq<bytes> {
    if ps == [] then [] else (if ps[0].text == [] then [] else [ps[0].text]) + Texts(ps[1..])
  }

  /** Texts with one space between two of them. */
  function Spaced(ts: seq<bytes>): bytes {
    if ts == [] then [] else if |ts| == 1 then ts[0] else ts[0] + [SP] + Spaced(ts[1..])
  }

  function ValueOf(h: Folded): bytes { Spaced(Texts([h.first] + h.others)) }

  /** The messages with each field stored under its canonical name, unless all of its pieces are blank. */
  function Stored(msgs: seq<Message>, hs: seq<Folded>): seq<Message>
    decreases |hs|
  {
    if hs == [] then msgs
    else Stored(if ValueOf(hs[0]) == [] then msgs else OnField(msgs, Canonical(hs[0].name), ValueOf(hs[0])), hs[1..])
  }

  // ---- one piece

  lemma TrimsRight(t: bytes, after: bytes)
    requires Blank(after) && (t != [] ==> !IsSpace(t[|t| - 1]))
    ensures TrimRight(t + after) == t
  {
    hide TrimRight;
    var s := t + after;
    var r := TrimRight(s);
    assert forall i :: |t| <= i < |s| ==> s[i] == after[i - |t|];
    assert t != [] ==> s[|t| - 1] == t[|t| - 1];
    assert |r| == |t|;
    assert s[..|t|] == t;
  }

  lemma TrimsPiece(p: Piece)
    requires PieceOk(p)
    ensures TrimSpace(PieceText(p)) == p.text
  {
    hide SpaceRun, TrimRight;
    var s, y := PieceText(p), p.text + p.after;
    assert forall i :: 0 <= i < |p.before| ==> s[i] == p.before[i];
    assert s[|p.before|..] == y;
    TrimSkipsBlank(s, |p.before|);
    if p.text == [] {
      assert y == p.after;
      BlankIsTrimmed(y);
    } else {
      assert y[0] == p.text[0];
      assert SpaceRun(y) == 0 && y[0..] == y;
      TrimsRight(p.text, p.after);
    }
  }

  lemma BlankIsTrimmed(s: bytes)
    requires Blank(s)
    ensures TrimSpace(s) == []
  {
    hide SpaceRun;
    assert SpaceRun(s) == |s| && s[|s|..] == [];
  }

  /** A value so far, as the parser holds it: none until there is a text. */
  function Held(ts: seq<bytes>): Option<bytes> { if ts == [] then None else Some(Spaced(ts)) }

  lemma {:induction false} SpacedSnoc(ts: seq<bytes>, t: bytes)
    requires ts != []
    ensures Spaced(ts + [t]) == Spaced(ts) + [SP] + t
  {
    var all := ts + [t];
    if |ts| == 1 {
      assert all[1..] == [t];
    } else {
      assert all[1..] == ts[1..] + [t];
      SpacedSnoc(ts[1..], t);
      assert ts[0] + [SP] + (Spaced(ts[1..]) + [SP] + t) == (ts[0] + [SP] + Spaced(ts[1..])) + [SP] + t;
    }
  }

  /** One more piece: its text goes behind a space, and a blank one changes nothing. */
  lemma PieceAdds(ts: seq<bytes>, p: Piece)
    requires PieceOk(p)
    ensures AddPiece(Held(ts), PieceText(p)) == Held(ts + Texts([p]))
  {
    hide TrimSpace, Spaced;
    TrimsPiece(p);
    assert [p][1..] == [] && Texts([]) == [];
    if p.text == [] {
      assert ts + [] == ts;
    } else if ts != [] {
      assert Texts([p]) == [p.text];
      SpacedSnoc(ts, p.text);
    } else {
      assert ts + Texts([p]) == [p.text];
      OneIsSpaced(p.text);
    }
  }

  lemma OneIsSpaced(t: bytes) ensures Spaced([t]) == t {}

  // ---- one field

  lemma {:induction false} TextsConcat(xs: seq<Piece>, ys: seq<Piece>)
    ensures Texts(xs + ys) == Texts(xs) + Texts(ys)
  {
    if xs == [] {
      assert xs + ys == ys;
    } else {
      assert (xs + ys)[1..] == xs[1..] + ys;
      TextsConcat(xs[1..], ys);
    }
  }

  /** The lines that continue a field add their texts. */
  lemma {:induction false} OthersFold(info: InfoParser, name: bytes, ts: seq<bytes>, msgs: seq<Message>, ps: seq<Piece>)
    requires forall i :: 0 <= i < |ps| ==> ContinuesIt(ps[i])
    ensures FoldLines(info, Fold(Some(Pending(name, Held(ts))), msgs, false), OtherLines(ps))
      == Result(Fold(Some(Pending(name, Held(ts + Texts(ps)))), msgs, false), Open, [])
    ensures LinesOk(OtherLines(ps))
    decreases |ps|
  {
    hide AddPiece, Held, Texts, PieceOk, TextOk;
    if ps == [] {
      NoTexts();
      assert ts + [] == ts;
    } else {
      var p, f := ps[0], Fold(Some(Pending(name, Held(ts))), msgs, false);
      ContinuesLine(p, f);
      PieceAdds(ts, p);
      OthersFold(info, name, ts + Texts([p]), msgs, ps[1..]);
      assert [p] + ps[1..] == ps;
      TextsConcat([p], ps[1..]);
      SeqAssoc(ts, Texts([p]), Texts(ps[1..]));
      var ls := OtherLines(ps);
      assert ls[0] == Line(PieceText(p), p.crlf) && ls[1..] == OtherLines(ps[1..]);
    }
  }

  lemma NoTexts() ensures Texts([]) == [] {}

  lemma ContinuesLine(p: Piece, f: Fold)
    requires ContinuesIt(p) && f.field.Some?
    ensures PieceText(p) != [] && Continues(f, PieceText(p)) && TextOk(PieceText(p))
  {
    assert PieceText(p)[0] == p.before[0];
  }

  lemma NameIsPlain(name: bytes)
    requires IsName(name)
    ensures TextOk(name) && forall i :: 0 <= i < |name| ==> name[i] != 58 && !IsSpace(name[i])
  {
    forall i | 0 <= i < |name| ensures name[i] != 58 && !IsSpace(name[i]) && !IsEolByte(name[i]) && name[i] != NUL {
      assert IsNameByte(name[i]);
    }
  }

  lemma TextJoins(a: bytes, b: bytes)
    requires TextOk(a) && TextOk(b)
    ensures TextOk(a + b)
  {}

  lemma FirstLineParts(h: Folded)
    requires h.name != [] && IsName(h.name)
    ensures var t, c := FirstLine(h).text, |h.name|;
      && c < |t| && ColonAt(t, 0) == c && t[..c] == h.name && t[c + 1..] == PieceText(h.first)
      && !IsSpace(t[0]) && t != []
  {
    hide PieceText, IsName, TextOk;
    var t := FirstLine(h).text;
    NameIsPlain(h.name);
    assert forall i :: 0 <= i < |h.name| ==> t[i] == h.name[i];
    assert t[|h.name|] == 58;
  }

  lemma FirstLineIsText(h: Folded)
    requires IsName(h.name) && PieceOk(h.first)
    ensures TextOk(FirstLine(h).text)
  {
    hide PieceText, IsName, TextOk;
    NameIsPlain(h.name);
    assert TextOk([58]) by { ColonIsText(); }
    TextJoins([58], PieceText(h.first));
    TextJoins(h.name, [58] + PieceText(h.first));
  }

  lemma ColonIsText() ensures TextOk([58]) {}

  /** The line that starts a field. */
  lemma FirstFolds(info: InfoParser, f: Fold, h: Folded)
    requires FoldedOk(info, h) && !Close(f).failed
    ensures FoldLine(info, f, FirstLine(h).text)
      == Fold(Some(Pending(h.name, Held(Texts([h.first])))), Close(f).msgs, false)
  {
    hide Close, AddPiece, Held, Texts, PieceOk, IsName, ColonAt, Recognise, FirstLine;
    FirstLineParts(h);
    PieceAdds([], h.first);
    assert [] + Texts([h.first]) == Texts([h.first]);
    ClosedIsClosed(f);
    assert Held([]) == None by { NothingHeld(); }
  }

  lemma NothingHeld() ensures Held([]) == None {}

  lemma FieldFolds(info: InfoParser, f: Fold, h: Folded)
    requires FoldedOk(info, h) && !Close(f).failed
    ensures FoldLines(info, f, LinesOf(h))
      == Result(Fold(Some(Pending(h.name, Held(Texts([h.first] + h.others)))), Close(f).msgs, false), Open, [])
    ensures LinesOk(LinesOf(h))
  {
    hide Close, AddPiece, Held, Texts, PieceOk, IsName, FoldLine, FirstLine, Recognise, TextOk;
    FirstFolds(info, f, h);
    FirstLineParts(h);
    FirstLineIsText(h);
    OthersFold(info, h.name, Texts([h.first]), Close(f).msgs, h.others);
    TextsConcat([h.first], h.others);
    var ls := LinesOf(h);
    assert ls[0] == FirstLine(h) && ls[1..] == OtherLines(h.others);
  }

  // ---- blocks of fields

  lemma {:induction false} SpacedIsNotEmpty(ts: seq<bytes>)
    requires ts != [] && forall i :: 0 <= i < |ts| ==> ts[i] != []
    ensures Spaced(ts) != []
  {}

  lemma {:induction false} TextsAreNotEmpty(ps: seq<Piece>)
    ensures forall i :: 0 <= i < |Texts(ps)| ==> Texts(ps)[i] != []
  {
    if ps != [] { TextsAreNotEmpty(ps[1..]); }
  }

  lemma ValueIsHeld(h: Folded)
    ensures Held(Texts([h.first] + h.others)) == if ValueOf(h) == [] then None else Some(ValueOf(h))
  {
    var ts := Texts([h.first] + h.others);
    TextsAreNotEmpty([h.first] + h.others);
    if ts != [] { SpacedIsNotEmpty(ts); }
  }

  /** Fields one behind the other: each is stored when the next one starts. */
  lemma {:induction false} FieldsFold(info: InfoParser, f: Fold, hs: seq<Folded>)
    requires !f.failed && NoNul(f) && forall i :: 0 <= i < |hs| ==> FoldedOk(info, hs[i])
    ensures var r := FoldLines(info, f, AllLines(hs));
      && r.verdict.Open? && !r.f.failed && NoNul(r.f) && Close(r.f) == Fold(None, Stored(Close(f).msgs, hs), false)
    ensures LinesOk(AllLines(hs))
    decreases |hs|
  {
    hide FoldedOk, LinesOf, FoldLine, Held, ValueOf, Canonical, OnField, TextOk;
    if hs != [] {
      var h, rest := hs[0], AllLines(hs[1..]);
      FieldFolds(info, f, h);
      ValueIsHeld(h);
      var g := FoldLines(info, f, LinesOf(h)).f;
      LinesKeepNoNul(info, f, LinesOf(h));
      FoldConcat(info, f, LinesOf(h), rest);
      FieldsFold(info, g, hs[1..]);
    } else {
      ClosedHasNoNul(f);
    }
  }

  lemma NoLines(info: InfoParser, f: Fold) ensures FoldLines(info, f, []) == Result(f, Open, []) {}

  /**
   * A block of fields that ends in a blank line, in one feed with anything behind it, at any flag:
   * the value of each is the texts on its lines with one space between two of them, whatever white
   * space is around them; lines without a text add nothing, and a field without one is not stored.
   */
  lemma FoldedFieldsParse(info: InfoParser, cleanup: bool, msgs: seq<Message>, hs: seq<Folded>, blank: Line, rest: bytes)
    requires hs != [] && blank.text == [] && forall i :: 0 <= i < |hs| ==> FoldedOk(info, hs[i])
    ensures Run(info, cleanup, Fresh(msgs, Text(AllLines(hs) + [blank]) + rest))
      == (Fresh(Stored(msgs, hs), rest), DONE)
  {
    hide Run, FoldedOk, FoldLine, Stored, Close, TextOk, OtherLines, FoldLines, FirstLine;
    var f0, ls := Fold(None, msgs, false), AllLines(hs) + [blank];
    assert Close(f0) == f0 by { OpenCloses(f0); }
    FieldsFold(info, f0, hs);
    FoldConcat(info, f0, AllLines(hs), [blank]);
    BlankCloses(info, FoldLines(info, f0, AllLines(hs)).f, blank);
    assert LinesOk(ls) by { assert TextOk([]) by { EmptyIsText(); } }
    HeadFeed(info, cleanup, f0, ls, rest);
    var b := Text(ls) + rest;
    assert ls[0] == FirstLine(hs[0]);
    assert FoldedOk(info, hs[0]);
    FoldedStarts(info, hs[0]);
    assert b[0] == ls[0].text[0];
    StartRuns(info, cleanup, msgs, b);
  }

  lemma OpenCloses(f: Fold) requires f.field.None? ensures Close(f) == f {}
  lemma EmptyIsText() ensures TextOk([]) {}

  lemma FoldedStarts(info: InfoParser, h: Folded)
    requires FoldedOk(info, h)
    ensures FirstLine(h).text != [] && !IsSpace(FirstLine(h).text[0])
  {
    hide IsName, PieceOk, Recognise, FirstLine;
    FirstLineParts(h);
  }

  lemma BlankCloses(info: InfoParser, f: Fold, blank: Line)
    requires blank.text == [] && !Close(f).failed
    ensures FoldLines(info, f, [blank]) == Result(Close(f), Done, [])
  {
    hide Close;
    assert [blank][1..] == [];
  }

  // ---- a whole head

  /** A start line is that of the newest message if this is blank, and starts a message otherwise. */
  function Announced(msgs: seq<Message>, i: Info): seq<Message> {
    if msgs != [] && Last(msgs).info.None? && Last(msgs).headers == []
    then msgs[..|msgs| - 1] + [Message(Some(i), [], Last(msgs).body)]
    else msgs + [Message(Some(i), [], [])]
  }

  lemma StartLineFolds(info: InfoParser, msgs: seq<Message>, start: Line)
    requires Recognise(info, start.text).Some?
    ensures FoldLines(info, Fold(None, msgs, false), [start])
      == Result(Fold(None, Announced(msgs, Recognise(info, start.text).value), false), Open, [])
  {
    assert [start][1..] == [];
    var i := Recognise(info, start.text).value;
    assert OnInfo(msgs, i) == Announced(msgs, i);
    assert Close(Fold(None, msgs, false)) == Fold(None, msgs, false);
  }

  /**
   * A head in one feed, with anything behind it, at any flag: its start line fills the newest message
   * if this is blank, and adds one otherwise; its fields go to that message.
   */
  lemma HeadParses(info: InfoParser, cleanup: bool, msgs: seq<Message>, start: Line, hs: seq<Folded>, blank: Line, rest: bytes)
    requires start.text != [] && Recognise(info, start.text).Some? && TextOk(start.text) && !IsSpace(start.text[0])
    requires blank.text == [] && forall i :: 0 <= i < |hs| ==> FoldedOk(info, hs[i])
    ensures Run(info, cleanup, Fresh(msgs, Text([start] + AllLines(hs) + [blank]) + rest))
      == (Fresh(Stored(Announced(msgs, Recognise(info, start.text).value), hs), rest), DONE)
  {
    hide Run, FoldedOk, FoldLine, Stored, Close, TextOk, OtherLines, FoldLines, FirstLine, Recognise, Announced;
    var f0, i := Fold(None, msgs, false), Recognise(info, start.text).value;
    var f1, front, ls := Fold(None, Announced(msgs, i), false), [start] + AllLines(hs), [start] + AllLines(hs) + [blank];
    StartLineFolds(info, msgs, start);
    assert Close(f1) == f1 by { OpenCloses(f1); }
    FieldsFold(info, f1, hs);
    FoldConcat(info, f0, [start], AllLines(hs));
    FoldConcat(info, f0, front, [blank]);
    BlankCloses(info, FoldLines(info, f1, AllLines(hs)).f, blank);
    assert LinesOk(ls) by { assert TextOk([]) by { EmptyIsText(); } }
    HeadFeed(info, cleanup, f0, ls, rest);
    var b := Text(ls) + rest;
    assert ls[0] == start;
    assert b[0] == start.text[0];
    StartRuns(info, cleanup, msgs, b);
  }
}
