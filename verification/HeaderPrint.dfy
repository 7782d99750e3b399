/** Printing a header table, and reading it back. */
module HeaderPrint {
  import opened Bytes
  import opened HeaderNames
  import opened Messages
  import opened HeaderParser
  import opened HeaderLines
  import opened Decimals
  import HeaderCuts

  /** A header value as PHP holds it: a text, a truth value, or a list of values. */
  datatype Value = Plain(text: bytes) | True | False | List(values: seq<Value>)

  datatype Header = Header(name: bytes, value: Value)

  function Word(v: Value): bytes
    requires !v.List?
  {
    match v
    case Plain(t) => t
    case True => Lit("true")
    case False => Lit("false")
  }

  /** One header line; "%s" stops at a NUL. */
  function FieldText(name: bytes, word: bytes, crlf: bool): bytes {
    BeforeNul(name) + [58, SP] + BeforeNul(word) + if crlf then CRLF else []
  }

  /** A list is printed value by value, whatever it is nested in. */
  function ValueText(name: bytes, v: Value, crlf: bool): bytes
    decreases v, 1
  {
    if v.List? then ListText(name, v.values, crlf) else FieldText(name, Word(v), crlf)
  }

  function ListText(name: bytes, vs: seq<Value>, crlf: bool): bytes
    decreases vs, 0
  {
    if vs == [] then [] else ValueText(name, vs[0], crlf) + ListText(name, vs[1..], crlf)
  }

  /** A header whose name is an integer key of the table is not printed. */
  function HeadersText(hs: seq<Header>, crlf: bool): bytes {
    if hs == [] then []
    else (if IsIndex(hs[0].name) then [] else ValueText(hs[0].name, hs[0].value, crlf)) + HeadersText(hs[1..], crlf)
  }

  method FieldToString(name: bytes, v: Value, crlf: bool) returns (str: bytes)
    ensures str == ValueText(name, v, crlf)
    decreases v
  {
    hide FieldText;
    if !v.List? {
      return FieldText(name, Word(v), crlf);
    }
    var vs, j := v.values, 0;
    str := [];
    assert vs[0..] == vs;
    while j < |vs|
      invariant 0 <= j <= |vs|
      invariant str + ListText(name, vs[j..], crlf) == ListText(name, vs, crlf)
    {
      assert vs[j..][1..] == vs[j + 1..];
      var text := FieldToString(name, vs[j], crlf);
      SeqAssoc(str, text, ListText(name, vs[j + 1..], crlf));
      str := str + text;
      j := j + 1;
    }
  }

  lemma HeadersTextSteps(hs: seq<Header>, crlf: bool, i: nat)
    requires i < |hs|
    ensures HeadersText(hs[i..], crlf)
      == (if IsIndex(hs[i].name) then [] else ValueText(hs[i].name, hs[i].value, crlf)) + HeadersText(hs[i + 1..], crlf)
  {
    hide IsIndex, ValueText;
    assert hs[i..][1..] == hs[i + 1..];
  }

  method HeaderToString(hs: seq<Header>, crlf: bool) returns (str: bytes)
    ensures str == HeadersText(hs, crlf)
  {
    hide IsIndex, ValueText, HeadersText;
    str := [];
    var i := 0;
    assert hs[0..] == hs;
    while i < |hs|
      invariant 0 <= i <= |hs|
      invariant str + HeadersText(hs[i..], crlf) == HeadersText(hs, crlf)
    {
      HeadersTextSteps(hs, crlf, i);
      if !IsIndex(hs[i].name) {
        var text := FieldToString(hs[i].name, hs[i].value, crlf);
        SeqAssoc(str, text, HeadersText(hs[i + 1..], crlf));
        str := str + text;
      }
      i := i + 1;
    }
    assert hs[|hs|..] == [];
    NoHeaders(crlf);
  }

  lemma NoHeaders(crlf: bool) ensures HeadersText([], crlf) == [] {}

  // ---- what a table of values says: names with the words of their values

  function Words(v: Value): seq<bytes>
    decreases v, 1
  {
    if v.List? then AllWords(v.values) else [Word(v)]
  }

  function AllWords(vs: seq<Value>): seq<bytes>
    decreases vs, 0
  {
    if vs == [] then [] else Words(vs[0]) + AllWords(vs[1..])
  }

  /** What a reader of the printed text can know: no integer keys and no empty lists, and words for truth values. */
  function Flat(hs: seq<Header>): seq<Field> {
    if hs == [] then []
    else
      (if IsIndex(hs[0].name) || Words(hs[0].value) == [] then [] else [Field(hs[0].name, Words(hs[0].value))])
      + Flat(hs[1..])
  }

  /** The values that the parser stores under a name, as PHP holds them. */
  function AsHeader(f: Field): Header {
    Header(f.name, if |f.values| == 1 then Plain(f.values[0]) else List(seq(|f.values|, i requires 0 <= i < |f.values| => Plain(f.values[i]))))
  }

  function AsHeaders(fs: seq<Field>): seq<Header> { if fs == [] then [] else [AsHeader(fs[0])] + AsHeaders(fs[1..]) }

  function ValuesText(name: bytes, vs: seq<bytes>): bytes {
    if vs == [] then [] else FieldText(name, vs[0], true) + ValuesText(name, vs[1..])
  }

  function TableText(hs: seq<Field>): bytes {
    if hs == [] then [] else ValuesText(hs[0].name, hs[0].values) + TableText(hs[1..])
  }

  lemma {:induction false} ValuesConcat(name: bytes, xs: seq<bytes>, ys: seq<bytes>)
    ensures ValuesText(name, xs + ys) == ValuesText(name, xs) + ValuesText(name, ys)
    decreases |xs|
  {
    hide FieldText;
    if xs == [] {
      assert xs + ys == ys;
    } else {
      assert (xs + ys)[1..] == xs[1..] + ys;
      ValuesConcat(name, xs[1..], ys);
      SeqAssoc(FieldText(name, xs[0], true), ValuesText(name, xs[1..]), ValuesText(name, ys));
    }
  }

  /** Nested lists are printed like the flat list of their words. */
  lemma {:induction false} PrintsWords(name: bytes, v: Value)
    ensures ValueText(name, v, true) == ValuesText(name, Words(v))
    decreases v, 1
  {
    hide FieldText;
    if v.List? {
      ListPrintsWords(name, v.values);
    } else {
      assert [Word(v)][1..] == [];
      assert FieldText(name, Word(v), true) + [] == FieldText(name, Word(v), true);
    }
  }

  lemma {:induction false} ListPrintsWords(name: bytes, vs: seq<Value>)
    ensures ListText(name, vs, true) == ValuesText(name, AllWords(vs))
    decreases vs, 0
  {
    hide FieldText, ValuesText;
    if vs == [] {
      assert ValuesText(name, []) == [] by { NoValues(name); }
    } else {
      PrintsWords(name, vs[0]);
      ListPrintsWords(name, vs[1..]);
      ValuesConcat(name, Words(vs[0]), AllWords(vs[1..]));
    }
  }

  lemma NoValues(name: bytes) ensures ValuesText(name, []) == [] {}

  lemma OneFlat(f: Field, fs: seq<Field>)
    ensures TableText([f] + fs) == ValuesText(f.name, f.values) + TableText(fs)
  {
    hide ValuesText;
    assert ([f] + fs)[1..] == fs;
  }

  lemma {:induction false} PrintsFlat(hs: seq<Header>)
    ensures HeadersText(hs, true) == TableText(Flat(hs))
  {
    hide IsIndex, ValueText, Words, ValuesText, TableText;
    if hs == [] {
      assert TableText([]) == [] by { NoFields(); }
    } else {
      var h := hs[0];
      PrintsFlat(hs[1..]);
      PrintsWords(h.name, h.value);
      if IsIndex(h.name) || Words(h.value) == [] {
        NoValues(h.name);
        assert [] + Flat(hs[1..]) == Flat(hs[1..]) && [] + HeadersText(hs[1..], true) == HeadersText(hs[1..], true);
      } else {
        OneFlat(Field(h.name, Words(h.value)), Flat(hs[1..]));
      }
    }
  }

  lemma NoFields() ensures TableText([]) == [] {}

  // ---- which tables are printed faithfully

  /** "HTTP/" at `i`. */
  predicate HttpAt(s: bytes, i: nat) {
    i + 5 <= |s| && s[i] == 72 && s[i + 1] == 84 && s[i + 2] == 84 && s[i + 3] == 80 && s[i + 4] == 47
  }

  ghost predicate HasHttp(s: bytes) { exists i: nat :: HttpAt(s, i) }

  ghost predicate ValueOk(v: bytes) {
    v != [] && TextOk(v) && !IsSpace(v[0]) && !IsSpace(v[|v| - 1]) && !HasHttp(v)
  }

  ghost predicate FieldOk(h: Field) {
    && h.name != [] && IsName(h.name) && Canonical(h.name) == h.name
    && h.values != [] && forall i :: 0 <= i < |h.values| ==> ValueOk(h.values[i])
  }

  ghost predicate TableOk(hs: seq<Field>) {
    && (forall i :: 0 <= i < |hs| ==> FieldOk(hs[i]))
    && (forall i, j :: 0 <= i < j < |hs| ==> hs[i].name != hs[j].name)
  }

  /** A recogniser of start lines that asks for "HTTP/" in the line. */
  ghost predicate WantsHttp(info: InfoParser) { forall l :: info(l).Some? ==> HasHttp(l) }

  // ---- one line

  function LineText(name: bytes, value: bytes): bytes { name + ([58, SP] + value) }

  lemma NameHasNoEnd(name: bytes)
    requires IsName(name)
    ensures TextOk(name) && BeforeNul(name) == name
  {
    hide IsName, BeforeNul;
    forall i | 0 <= i < |name| ensures !IsSpace(name[i]) && name[i] != NUL { NameByteIsText(name, i); }
    AllBeforeNul(name);
  }

  lemma {:induction false} AllBeforeNul(s: bytes)
    requires forall i :: 0 <= i < |s| ==> s[i] != NUL
    ensures BeforeNul(s) == s
  {
    if s != [] { AllBeforeNul(s[1..]); }
  }

  lemma LineHasNoHttp(name: bytes, value: bytes)
    requires IsName(name) && !HasHttp(value)
    ensures !HasHttp(LineText(name, value))
  {
    var l, n := LineText(name, value), |name| + 2;
    forall i: nat ensures !HttpAt(l, i) {
      assert l[|name|] == 58 && l[|name| + 1] == SP;
      if i + 5 <= |l| && i + 4 < |name| {
        assert l[i + 4] == name[i + 4] && IsNameByte(name[i + 4]);
      } else if i + 5 <= |l| && i >= n {
        assert forall j :: n <= j < |l| ==> l[j] == value[j - n];
        assert !HttpAt(value, i - n);
      }
    }
  }

  lemma LineIsText(name: bytes, value: bytes)
    requires TextOk(name) && TextOk(value)
    ensures TextOk(LineText(name, value))
  {
    var t, y := LineText(name, value), [58, SP] + value;
    assert forall i :: 0 <= i < |value| ==> y[i + 2] == value[i];
    forall i | 0 <= i < |t| ensures !IsEolByte(t[i]) && t[i] != NUL {
      if i < |name| {
        assert t[i] == name[i];
      } else {
        assert t[i] == y[i - |name|];
      }
    }
  }

  lemma ValueIsTrimmed(value: bytes)
    requires ValueOk(value)
    ensures AddPiece(None, [SP] + value) == Some(value)
  {
    hide HasHttp;
    var s := [SP] + value;
    assert s[0] == SP && s[1] == value[0];
    assert SpaceRun(s) == 1 && s[1..] == value;
    assert TrimRight(value) == value;
  }

  lemma PrintedLineParts(name: bytes, value: bytes)
    requires IsName(name) && name != []
    ensures var t := LineText(name, value);
      && |t| > |name| == ColonAt(t, 0) && t[..|name|] == name && t[|name| + 1..] == [SP] + value
      && t[0] != SP && t[0] != TAB
  {
    var t := LineText(name, value);
    assert forall i :: 0 <= i < |name| ==> t[i] == name[i] && IsNameByte(name[i]);
    assert t[|name|] == 58;
  }

  lemma PrintedLineIsNew(info: InfoParser, name: bytes, value: bytes)
    requires WantsHttp(info) && IsName(name) && !HasHttp(value)
    ensures Recognise(info, LineText(name, value)).None?
  {
    hide HasHttp, IsName;
    LineHasNoHttp(name, value);
  }

  /** A printed line opens its field. */
  lemma PrintedLineOpens(info: InfoParser, f: Fold, name: bytes, value: bytes)
    requires WantsHttp(info) && IsName(name) && name != [] && ValueOk(value) && !Close(f).failed
    ensures FoldLine(info, f, LineText(name, value)) == Fold(Some(Pending(name, Some(value))), Close(f).msgs, false)
    ensures TextOk(LineText(name, value))
  {
    hide Close, AddPiece, HasHttp, LineText, IsName, Recognise, ColonAt, WantsHttp;
    NameHasNoEnd(name);
    LineIsText(name, value);
    PrintedLineParts(name, value);
    PrintedLineIsNew(info, name, value);
    ValueIsTrimmed(value);
    ClosedIsClosed(f);
  }

  // ---- whole tables

  datatype Pair = Pair(name: bytes, value: bytes)

  function ValuePairs(name: bytes, vs: seq<bytes>): seq<Pair> {
    if vs == [] then [] else [Pair(name, vs[0])] + ValuePairs(name, vs[1..])
  }

  function Pairs(hs: seq<Field>): seq<Pair> {
    if hs == [] then [] else ValuePairs(hs[0].name, hs[0].values) + Pairs(hs[1..])
  }

  ghost predicate PairOk(p: Pair) { p.name != [] && IsName(p.name) && Canonical(p.name) == p.name && ValueOk(p.value) }
  ghost predicate PairsOk(ps: seq<Pair>) { forall i :: 0 <= i < |ps| ==> PairOk(ps[i]) }

  function LinesOf(ps: seq<Pair>): seq<Line> {
    if ps == [] then [] else [Line(LineText(ps[0].name, ps[0].value), true)] + LinesOf(ps[1..])
  }

  function StoreAll(ms: seq<Message>, ps: seq<Pair>): seq<Message>
    decreases |ps|
  {
    if ps == [] then ms else StoreAll(OnField(ms, ps[0].name, ps[0].value), ps[1..])
  }

  /** The fold over printed lines stores the pairs one after the other. */
  lemma {:induction false} PrintedLinesFold(info: InfoParser, f: Fold, ps: seq<Pair>)
    requires WantsHttp(info) && PairsOk(ps) && !f.failed && NoNul(f)
    ensures LinesOk(LinesOf(ps))
    ensures var r := FoldLines(info, f, LinesOf(ps));
      r.verdict.Open? && Close(r.f).msgs == StoreAll(Close(f).msgs, ps)
    decreases |ps|
  {
    hide WantsHttp, ValueOk, IsName, OnField, Canonical, FoldLine, LineText;
    if ps != [] {
      var p := ps[0];
      assert PairOk(p);
      assert !Close(f).failed by { CloseWorks(f); }
      PrintedLineOpens(info, f, p.name, p.value);
      var g := Fold(Some(Pending(p.name, Some(p.value))), Close(f).msgs, false);
      assert NUL !in p.value by { ValueHasNoNul(p.value); }
      assert Close(g).msgs == OnField(Close(f).msgs, p.name, p.value);
      var ls := LinesOf(ps);
      assert ls[1..] == LinesOf(ps[1..]);
      assert ls[0].text != [] by { LineIsNotEmpty(p.name, p.value); }
      PrintedLinesFold(info, g, ps[1..]);
    }
  }

  lemma CloseWorks(f: Fold) requires !f.failed && NoNul(f) ensures !Close(f).failed { hide OnField, Canonical; }
  lemma ValueHasNoNul(v: bytes) requires ValueOk(v) ensures NUL !in v { hide HasHttp; }
  lemma LineIsNotEmpty(name: bytes, value: bytes) ensures LineText(name, value) != [] {}

  /** The newest message with the given headers. */
  function With(ms: seq<Message>, info: Option<Info>, hs: seq<Field>): seq<Message> { ms + [Message(info, hs, [])] }

  lemma FieldIsAdded(ms: seq<Message>, info: Option<Info>, hs: seq<Field>, name: bytes, value: bytes)
    ensures OnField(With(ms, info, hs), name, value) == With(ms, info, AddField(hs, name, value))
  {
    hide AddField;
    var x := With(ms, info, hs);
    assert Last(x) == Message(info, hs, []);
  }

  /** Storing the pairs of a table behind others appends it. */
  lemma {:induction false} ValuesStore(ms: seq<Message>, info: Option<Info>, done: seq<Field>, name: bytes,
                                       head: seq<bytes>, vs: seq<bytes>)
    requires forall i :: 0 <= i < |done| ==> done[i].name != name
    requires head != [] || vs != []
    ensures var h := if head == [] then done else done + [Field(name, head)];
      StoreAll(With(ms, info, h), ValuePairs(name, vs)) == With(ms, info, done + [Field(name, head + vs)])
    decreases |vs|
  {
    hide FindField, With, OnField;
    if vs == [] {
      assert head + vs == head;
    } else {
      var h := if head == [] then done else done + [Field(name, head)];
      assert head != [] ==> h[|done|].name == name;
      assert forall i :: 0 <= i < |done| ==> h[i] == done[i];
      assert FindField(h, name) == |done|;
      assert [] + [vs[0]] == [vs[0]];
      assert head != [] ==> h[|done| := Field(name, head + [vs[0]])] == done + [Field(name, head + [vs[0]])];
      assert AddField(h, name, vs[0]) == done + [Field(name, head + [vs[0]])];
      FieldIsAdded(ms, info, h, name, vs[0]);
      ValuesStore(ms, info, done, name, head + [vs[0]], vs[1..]);
      assert (head + [vs[0]]) + vs[1..] == head + vs;
      var ps := ValuePairs(name, vs);
      assert ps[0] == Pair(name, vs[0]) && ps[1..] == ValuePairs(name, vs[1..]);
    }
  }

  lemma {:induction false} StoreConcat(ms: seq<Message>, xs: seq<Pair>, ys: seq<Pair>)
    ensures StoreAll(ms, xs + ys) == StoreAll(StoreAll(ms, xs), ys)
    decreases |xs|
  {
    hide OnField;
    if xs == [] {
      assert xs + ys == ys;
    } else {
      assert (xs + ys)[1..] == xs[1..] + ys;
      StoreConcat(OnField(ms, xs[0].name, xs[0].value), xs[1..], ys);
    }
  }

  lemma {:induction false} TableStores(ms: seq<Message>, info: Option<Info>, done: seq<Field>, hs: seq<Field>)
    requires forall i :: 0 <= i < |hs| ==> hs[i].values != []
    requires forall i, j :: 0 <= i < j < |done + hs| ==> (done + hs)[i].name != (done + hs)[j].name
    ensures StoreAll(With(ms, info, done), Pairs(hs)) == With(ms, info, done + hs)
    decreases |hs|
  {
    hide StoreAll, With;
    if hs == [] {
      assert done + hs == done;
      NothingStored(With(ms, info, done));
    } else {
      var h, all := hs[0], done + hs;
      assert all[|done|] == h;
      assert forall i :: 0 <= i < |done| ==> all[i] == done[i];
      ValuesStore(ms, info, done, h.name, [], h.values);
      assert [] + h.values == h.values;
      StoreConcat(With(ms, info, done), ValuePairs(h.name, h.values), Pairs(hs[1..]));
      assert (done + [h]) + hs[1..] == all;
      TableStores(ms, info, done + [h], hs[1..]);
    }
  }

  lemma NothingStored(ms: seq<Message>) ensures StoreAll(ms, []) == ms {}

  lemma {:induction false} ValuesAreLines(name: bytes, vs: seq<bytes>)
    requires IsName(name) && forall i :: 0 <= i < |vs| ==> TextOk(vs[i])
    ensures ValuesText(name, vs) == Text(LinesOf(ValuePairs(name, vs)))
  {
    hide IsName, TextOk, FieldText, LineText;
    if vs != [] {
      ValuesAreLines(name, vs[1..]);
      var ps := ValuePairs(name, vs);
      assert ps[1..] == ValuePairs(name, vs[1..]);
      var ls := LinesOf(ps);
      assert ls[1..] == LinesOf(ps[1..]);
      FieldIsLine(name, vs[0], Text(LinesOf(ps[1..])));
    }
  }

  lemma FieldIsLine(name: bytes, v: bytes, z: bytes)
    requires IsName(name) && TextOk(v)
    ensures FieldText(name, v, true) + z == LineText(name, v) + (CRLF + z)
  {
    hide IsName, TextOk;
    NameHasNoEnd(name);
    TextBeforeNul(v);
    assert (name + [58, SP] + v + CRLF) + z == (name + ([58, SP] + v)) + (CRLF + z);
  }

  lemma TextBeforeNul(s: bytes)
    requires TextOk(s)
    ensures BeforeNul(s) == s
  {
    AllBeforeNul(s);
  }

  lemma {:induction false} LinesConcat(xs: seq<Pair>, ys: seq<Pair>)
    ensures Text(LinesOf(xs + ys)) == Text(LinesOf(xs)) + Text(LinesOf(ys))
  {
    hide LinesOf, Text;
    if xs == [] {
      assert xs + ys == ys;
      assert Text(LinesOf([])) == [] by { NoPairs(); }
    } else {
      LinesConcat(xs[1..], ys);
      assert (xs + ys)[1..] == xs[1..] + ys;
      PairText(xs);
      PairText(xs + ys);
      LineJoins(LineText(xs[0].name, xs[0].value), Text(LinesOf(xs[1..])), Text(LinesOf(ys)));
    }
  }

  lemma NoPairs() ensures Text(LinesOf([])) == [] {}

  lemma PairText(ps: seq<Pair>)
    requires ps != []
    ensures Text(LinesOf(ps)) == LineText(ps[0].name, ps[0].value) + (CRLF + Text(LinesOf(ps[1..])))
  {
    hide LineText;
    assert LinesOf(ps)[1..] == LinesOf(ps[1..]);
  }

  lemma LineJoins(t: bytes, a: bytes, b: bytes)
    ensures t + (CRLF + (a + b)) == (t + (CRLF + a)) + b
  {}

  lemma {:induction false} TableIsLines(hs: seq<Field>)
    requires forall i :: 0 <= i < |hs| ==> FieldOk(hs[i])
    ensures TableText(hs) == Text(LinesOf(Pairs(hs))) && PairsOk(Pairs(hs))
    decreases |hs|
  {
    hide IsIndex, HasHttp, Canonical, Text, LinesOf;
    if hs == [] {
      NoPairs();
    } else {
      var h := hs[0];
      assert FieldOk(h);
      TableIsLines(hs[1..]);
      ValuesAreLines(h.name, h.values);
      LinesConcat(ValuePairs(h.name, h.values), Pairs(hs[1..]));
      ValuePairsOk(h.name, h.values);
    }
  }

  lemma {:induction false} ValuePairsOk(name: bytes, vs: seq<bytes>)
    requires name != [] && IsName(name) && Canonical(name) == name
    requires forall i :: 0 <= i < |vs| ==> ValueOk(vs[i])
    ensures PairsOk(ValuePairs(name, vs))
    decreases |vs|
  {
    hide ValueOk, IsName, Canonical;
    if vs != [] { ValuePairsOk(name, vs[1..]); }
  }

  /** The lines of any table, integer names included, are parsed back into it. */
  lemma TableParses(info: InfoParser, hs: seq<Field>)
    requires WantsHttp(info) && TableOk(hs)
    ensures var (m, s) := Run(info, true, HeaderLines.Fresh([Message(None, [], [])], TableText(hs)));
      m.msgs == [Message(None, hs, [])] && s != FAILURE && m.buffer == []
  {
    hide Run, FoldLines, FieldOk, WantsHttp, Close, Pairs, LinesOf, StoreAll, TableText;
    var ms := [Message(None, [], [])];
    if hs == [] {
      EmptyRuns(info, ms);
      NoFields();
    } else {
      TableIsLines(hs);
      var ps, ls := Pairs(hs), LinesOf(Pairs(hs));
      var f0 := Fold(None, ms, false);
      PrintedLinesFold(info, f0, ps);
      FirstLineStarts(hs);
      FeedsAgree(info, ms, ls);
      TableHasValues(hs);
      assert [] + hs == hs;
      assert With([], None, []) == ms && With([], None, hs) == [Message(None, hs, [])];
      TableStores([], None, [], hs);
      assert Close(f0) == f0 by { NothingToClose(ms); }
      CloseKeeps(FoldLines(info, f0, ls).f);
    }
  }

  ghost predicate HeaderOk(h: Header) {
    && h.name != [] && IsName(h.name) && Canonical(h.name) == h.name
    && forall i :: 0 <= i < |Words(h.value)| ==> ValueOk(Words(h.value)[i])
  }

  ghost predicate HeadersOk(hs: seq<Header>) {
    && (forall i :: 0 <= i < |hs| ==> HeaderOk(hs[i]))
    && (forall i, j :: 0 <= i < j < |hs| ==> hs[i].name != hs[j].name)
  }

  lemma {:induction false} FlatIsOk(hs: seq<Header>)
    requires HeadersOk(hs)
    ensures TableOk(Flat(hs)) && NamedAmong(Flat(hs), hs)
  {
    hide IsIndex, Words, HeaderOk, FieldOk, TableOk, NamedAmong;
    if hs == [] {
      NoneOk();
    } else {
      var h, rest := hs[0], hs[1..];
      assert HeadersOk(rest) by { RestIsOk(hs); }
      FlatIsOk(rest);
      var fs := Flat(rest);
      assert [h] + rest == hs && [] + fs == fs;
      AmongMore(h, rest, fs, Flat(hs));
      if !IsIndex(h.name) && Words(h.value) != [] {
        HeaderIsField(h);
        forall i | 0 <= i < |fs| ensures fs[i].name != h.name { NameIsAmong(hs, fs, i); }
        OneMoreOk(Field(h.name, Words(h.value)), fs);
      }
    }
  }

  lemma NoneOk() ensures TableOk([]) && NamedAmong([], []) {}

  lemma RestIsOk(hs: seq<Header>)
    requires hs != [] && HeadersOk(hs)
    ensures HeadersOk(hs[1..])
  {
    hide HeaderOk;
    var rest := hs[1..];
    assert forall i :: 0 <= i < |rest| ==> rest[i] == hs[i + 1];
  }

  lemma OneMoreOk(f: Field, fs: seq<Field>)
    requires FieldOk(f) && TableOk(fs) && forall i :: 0 <= i < |fs| ==> fs[i].name != f.name
    ensures TableOk([f] + fs)
  {
    hide FieldOk;
    var all := [f] + fs;
    assert forall i :: 0 < i < |all| ==> all[i] == fs[i - 1];
  }

  ghost predicate HasName(hs: seq<Header>, name: bytes) { exists j :: 0 <= j < |hs| && hs[j].name == name }

  ghost predicate NamedAmong(fs: seq<Field>, hs: seq<Header>) { forall i :: 0 <= i < |fs| ==> HasName(hs, fs[i].name) }

  lemma NameStays(h: Header, rest: seq<Header>, name: bytes)
    ensures HasName([h] + rest, h.name) && (HasName(rest, name) ==> HasName([h] + rest, name))
  {
    var hs := [h] + rest;
    assert hs[0] == h;
    if HasName(rest, name) {
      var j :| 0 <= j < |rest| && rest[j].name == name;
      assert hs[j + 1] == rest[j];
    }
  }

  lemma AmongMore(h: Header, rest: seq<Header>, fs: seq<Field>, gs: seq<Field>)
    requires NamedAmong(fs, rest) && (gs == fs || (|gs| > 0 && gs[0].name == h.name && gs[1..] == fs))
    ensures NamedAmong(gs, [h] + rest)
  {
    hide HasName;
    forall i | 0 <= i < |gs| ensures HasName([h] + rest, gs[i].name) {
      NameStays(h, rest, gs[i].name);
      if gs != fs && i > 0 { assert gs[i] == fs[i - 1]; }
    }
  }

  lemma NameIsAmong(hs: seq<Header>, fs: seq<Field>, i: nat)
    requires hs != [] && NamedAmong(fs, hs[1..]) && i < |fs|
    requires forall i, j :: 0 <= i < j < |hs| ==> hs[i].name != hs[j].name
    ensures fs[i].name != hs[0].name
  {
    var rest := hs[1..];
    assert HasName(rest, fs[i].name);
    var j :| 0 <= j < |rest| && rest[j].name == fs[i].name;
    assert rest[j] == hs[j + 1];
    assert hs[0].name != hs[j + 1].name;
  }

  lemma HeaderIsField(h: Header)
    requires HeaderOk(h) && Words(h.value) != []
    ensures FieldOk(Field(h.name, Words(h.value)))
  {
    hide IsName, Canonical, ValueOk, Words;
  }

  /**
   * Printing a table of values, however nested, and parsing it with CLEANUP gives the words of each
   * header in order, under every name that is not an integer key.
   */
  lemma HeadersRoundTrip(info: InfoParser, hs: seq<Header>)
    requires WantsHttp(info) && HeadersOk(hs)
    ensures var (m, s) := Run(info, true, HeaderLines.Fresh([Message(None, [], [])], HeadersText(hs, true)));
      m.msgs == [Message(None, Flat(hs), [])] && s != FAILURE && m.buffer == []
  {
    hide Run, HeadersText, Flat, TableText, TableOk, HeadersOk, WantsHttp;
    PrintsFlat(hs);
    FlatIsOk(hs);
    TableParses(info, Flat(hs));
  }

  lemma {:induction false} PlainWords(vs: seq<Value>, ws: seq<bytes>)
    requires |vs| == |ws| && forall i :: 0 <= i < |ws| ==> vs[i] == Plain(ws[i])
    ensures AllWords(vs) == ws
  {
    if vs != [] {
      PlainWords(vs[1..], ws[1..]);
      assert [ws[0]] + ws[1..] == ws;
    }
  }

  lemma FieldWords(f: Field)
    ensures Words(AsHeader(f).value) == f.values
  {
    if |f.values| == 1 {
      assert [f.values[0]] == f.values;
    } else {
      PlainWords(AsHeader(f).value.values, f.values);
    }
  }

  lemma {:induction false} FieldsAreHeaders(fs: seq<Field>)
    requires TableOk(fs)
    ensures HeadersOk(AsHeaders(fs)) && |AsHeaders(fs)| == |fs|
    ensures forall i :: 0 <= i < |fs| ==> AsHeaders(fs)[i] == AsHeader(fs[i])
  {
    hide ValueOk, IsName, Canonical, Words, AsHeader;
    if fs != [] {
      var rest := fs[1..];
      assert forall i :: 0 <= i < |rest| ==> rest[i] == fs[i + 1];
      FieldsAreHeaders(rest);
      assert FieldOk(fs[0]);
    }
    var hs := AsHeaders(fs);
    forall i | 0 <= i < |hs| ensures HeaderOk(hs[i]) && hs[i].name == fs[i].name {
      assert FieldOk(fs[i]);
      FieldWords(fs[i]);
      KeepsName(fs[i]);
    }
  }

  lemma KeepsName(f: Field) ensures AsHeader(f).name == f.name {}

  /** The fields whose names are not integer keys. */
  function Named(fs: seq<Field>): seq<Field> {
    if fs == [] then [] else (if IsIndex(fs[0].name) then [] else [fs[0]]) + Named(fs[1..])
  }

  lemma {:induction false} FlatIsNamed(fs: seq<Field>)
    requires forall i :: 0 <= i < |fs| ==> fs[i].values != []
    ensures Flat(AsHeaders(fs)) == Named(fs)
  {
    hide IsIndex, Words, AsHeader;
    if fs != [] {
      var hs := AsHeaders(fs);
      assert hs[1..] == AsHeaders(fs[1..]);
      FlatIsNamed(fs[1..]);
      FieldWords(fs[0]);
      KeepsName(fs[0]);
    }
  }

  lemma {:induction false} NamedIff(fs: seq<Field>)
    ensures |Named(fs)| <= |fs|
    ensures Named(fs) == fs <==> forall i :: 0 <= i < |fs| ==> !IsIndex(fs[i].name)
    ensures (exists i :: 0 <= i < |fs| && IsIndex(fs[i].name)) ==> |Named(fs)| < |fs|
  {
    hide IsIndex;
    if fs != [] {
      var rest := fs[1..];
      NamedIff(rest);
      assert forall i :: 0 <= i < |rest| ==> rest[i] == fs[i + 1];
      assert [fs[0]] + rest == fs;
      if Named(fs) == fs && !IsIndex(fs[0].name) {
        assert Named(fs)[1..] == Named(rest) == rest;
      }
    }
  }

  /**
   * A parsed table that is printed and parsed again loses exactly the headers whose names are
   * integer keys; it is the same if and only if there are none.
   */
  lemma ReparsedIff(info: InfoParser, fs: seq<Field>)
    requires WantsHttp(info) && TableOk(fs)
    ensures var (m, s) := Run(info, true, HeaderLines.Fresh([Message(None, [], [])], HeadersText(AsHeaders(fs), true)));
      && m.msgs == [Message(None, Named(fs), [])]
      && (Named(fs) == fs <==> forall i :: 0 <= i < |fs| ==> !IsIndex(fs[i].name))
  {
    hide Run, HeadersText, Flat, HeadersOk, WantsHttp, TableOk, Named, IsIndex, AsHeaders;
    FieldsAreHeaders(fs);
    HeadersRoundTrip(info, AsHeaders(fs));
    TableHasValues(fs);
    FlatIsNamed(fs);
    NamedIff(fs);
  }

  const FORTY_TWO: Field := Field([52, 50], [[120]])

  /** The line "42: x" is parsed into a table that is printed as nothing. */
  lemma IndexNameIsLost(info: InfoParser)
    requires WantsHttp(info)
    ensures Run(info, true, HeaderLines.Fresh([Message(None, [], [])], [52, 50, 58, 32, 120, 13, 10])).0.msgs
      == [Message(None, [FORTY_TWO], [])]
    ensures HeadersText(AsHeaders([FORTY_TWO]), true) == []
  {
    hide Run, WantsHttp, Canonical;
    var fs := [FORTY_TWO];
    assert fs[1..] == [] && AsHeaders(fs) == [AsHeader(FORTY_TWO)] && AsHeaders(fs)[1..] == [];
    assert HeadersText([], true) == [] by { NoHeaders(true); }
    assert IsIndex([52, 50]) by { FortyTwoIsIndex(); }
    assert TableOk(fs) by { FortyTwoIsOk(); }
    assert TableText(fs) == [52, 50, 58, 32, 120, 13, 10] by { FortyTwoText(); }
    TableParses(info, fs);
  }

  lemma FortyTwoIsIndex()
    ensures IsIndex([52, 50])
  {
    var d: bytes := [52, 50];
    assert d[..1] == [52] && [52][..0] == [];
    assert Decimal([52]) == 4;
    assert Decimal(d) == 42;
  }

  lemma FortyTwoIsOk()
    ensures FieldOk(FORTY_TWO)
  {
    assert ValueOk([120]);
    assert Canonical([52, 50]) == [52, 50];
  }

  lemma FortyTwoText()
    ensures TableText([FORTY_TWO]) == [52, 50, 58, 32, 120, 13, 10]
  {
    assert [FORTY_TWO][1..] == [] && FORTY_TWO.values[1..] == [];
    AllBeforeNul([52, 50]);
    AllBeforeNul([120]);
    assert ValuesText([52, 50], []) == [] && TableText([]) == [];
  }

  lemma EmptyRuns(info: InfoParser, ms: seq<Message>)
    ensures Run(info, true, HeaderLines.Fresh(ms, [])) == (HeaderLines.Fresh(ms, []), START)
  {}

  lemma NothingToClose(ms: seq<Message>) ensures Close(Fold(None, ms, false)) == Fold(None, ms, false) {}
  lemma CloseKeeps(f: Fold) ensures At(Close(f), []).msgs == Close(f).msgs && At(Close(f), []).buffer == [] {}

  lemma TableHasValues(hs: seq<Field>)
    requires TableOk(hs)
    ensures forall i :: 0 <= i < |hs| ==> hs[i].values != []
  {
    assert forall i :: 0 <= i < |hs| ==> FieldOk(hs[i]);
  }

  lemma LineStarts(name: bytes, value: bytes)
    requires name != [] && IsName(name)
    ensures var t := LineText(name, value); t != [] && !IsSpace(t[0])
  {
    hide IsName;
    assert LineText(name, value)[0] == name[0];
    NameByteIsText(name, 0);
  }

  lemma NameByteIsText(name: bytes, i: nat)
    requires IsName(name) && i < |name|
    ensures !IsSpace(name[i]) && name[i] != NUL
  {
    assert IsNameByte(name[i]);
  }

  lemma FirstLineStarts(hs: seq<Field>)
    requires hs != [] && TableOk(hs)
    ensures var ls := LinesOf(Pairs(hs)); ls != [] && ls[0].text != [] && !IsSpace(ls[0].text[0])
  {
    hide ValueOk, Canonical, IsName, IsNameByte, LineText;
    var h := hs[0];
    assert FieldOk(h);
    var ps := Pairs(hs);
    assert ps[0] == Pair(h.name, h.values[0]);
    LineStarts(h.name, h.values[0]);
  }

  // ---- truth values, and a header without a line end

  lemma OneHeader(name: bytes, v: Value, crlf: bool)
    requires IsName(name) && !IsIndex(name) && !v.List? && NUL !in Word(v)
    ensures HeadersText([Header(name, v)], crlf) == name + ([58, SP] + Word(v)) + if crlf then CRLF else []
  {
    hide IsName, IsIndex, Word;
    NameHasNoEnd(name);
    AllBeforeNul(Word(v));
    assert [Header(name, v)][1..] == [];
    assert name + [58, SP] + Word(v) == name + ([58, SP] + Word(v));
  }

  lemma TrueIsWord()
    ensures NUL !in Lit("true") && [58, SP] + Lit("true") == Lit(": true")
  {
    var t := Lit("true");
    assert t == [116, 114, 117, 101];
  }

  lemma FalseIsWord()
    ensures NUL !in Lit("false") && [58, SP] + Lit("false") == Lit(": false")
  {
    var t := Lit("false");
    assert t == [102, 97, 108, 115, 101];
  }

  /** A truth value is printed as its word. */
  lemma TruthIsSpelled(name: bytes, crlf: bool)
    requires IsName(name) && !IsIndex(name)
    ensures HeadersText([Header(name, True)], crlf) == name + Lit(": true") + if crlf then CRLF else []
    ensures HeadersText([Header(name, False)], crlf) == name + Lit(": false") + if crlf then CRLF else []
  {
    hide IsName, IsIndex, HeadersText;
    TrueIsWord();
    FalseIsWord();
    OneHeader(name, True, crlf);
    OneHeader(name, False, crlf);
  }

  lemma ValueIsNotBlank(value: bytes)
    requires ValueOk(value)
    ensures !Blank([SP] + value) && TextOk(value) && NUL !in value
  {
    hide HasHttp;
    assert ([SP] + value)[1] == value[0];
  }

  /** A single header printed without a line end is read back, at the end of the data. */
  lemma UnendedHeaderParses(info: InfoParser, msgs: seq<Message>, name: bytes, value: bytes)
    requires WantsHttp(info) && name != [] && IsName(name) && !IsIndex(name) && ValueOk(value)
    ensures Run(info, true, Fresh(msgs, HeadersText([Header(name, Plain(value))], false)))
      == (At(Fold(None, OnField(msgs, Canonical(name), value), false), []), KEY)
  {
    hide Run, HeadersText, IsName, ColonAt, WantsHttp, HasHttp, Recognise, LineText, IsIndex, AddPiece;
    var f, t := Fold(None, msgs, false), LineText(name, value);
    ValueIsNotBlank(value);
    OneHeader(name, Plain(value), false);
    assert name + ([58, SP] + value) + [] == t by { LineTextIs(name, value); }
    PrintedLineParts(name, value);
    assert Close(f) == f;
    PrintedLineOpens(info, f, name, value);
    PrintedLineIsNew(info, name, value);
    FirstIsNoSpace(name, value);
    StartRuns(info, true, msgs, t);
    HeaderCuts.UnendedLine(info, f, t);
    CleanupCloses(info, FoldLine(info, f, t));
  }

  lemma LineTextIs(name: bytes, value: bytes) ensures name + ([58, SP] + value) + [] == LineText(name, value) {}

  lemma FirstIsNoSpace(name: bytes, value: bytes)
    requires name != [] && IsName(name)
    ensures LineText(name, value) != [] && !IsSpace(LineText(name, value)[0])
  {
    assert IsNameByte(name[0]) && LineText(name, value)[0] == name[0];
  }
}
