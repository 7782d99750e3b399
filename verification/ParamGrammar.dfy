/**
 * Parameters as texts can spell them: names and values quoted or not, white space around them,
 * separators repeated, values in a charset and a language. What such a text is parsed into.
 */
module ParamGrammar {
  import opened Bytes
  import opened ParamText
  import opened ParamTable
  import opened ParamParser

  const COMMA: byte := 44
  const SEMICOLON: byte := 59
  const EQUALS: byte := 61
  const STAR: byte := 42
  const APOSTROPHE: byte := 39

  const DefaultFlags := Flags(true, false, false, true, false)

  function Defaults(maxNesting: nat): Options {
    Options([[COMMA]], [[SEMICOLON]], [[EQUALS]], True, DefaultFlags, maxNesting)
  }

  /** These separators, escapes and extended values, any default; targets of links may stand between angles. */
  ghost predicate Standard(o: Options) {
    var d := Defaults(o.maxNesting).(default := o.default);
    o == d || o == d.(flags := DefaultFlags.(rfc5988 := true))
  }

  /** Where quotes are quotes: anywhere, but for targets of links. */
  ghost predicate Ready(o: Options, st: State) { Standard(o) && (o.flags.rfc5988 ==> st.marks.arg.Some?) }

  ghost predicate IsSep(b: byte) { b == COMMA || b == SEMICOLON || b == EQUALS }

  predicate TextOk(t: bytes) { t != [] ==> t[|t| - 1] != BACKSLASH }
  predicate NameOk(k: bytes) { k != [] && k[|k| - 1] != STAR }

  // ---- what is said

  /** The value said of a name: none, a text, or a text in a charset and a language. */
  datatype Said = Nothing | Text(text: bytes) | Encoded(language: bytes, raw: bytes, latin1: bool)

  datatype Arg = Arg(name: bytes, said: Said)
  datatype Item = Item(name: bytes, said: Said, args: seq<Arg>)

  /** An extended value makes its name an extended one, which ends in a star. */
  ghost predicate ArgOk(a: Arg) { if a.said.Encoded? then a.name != [] else NameOk(a.name) }

  ghost predicate ItemOk(i: Item) { ArgOk(Arg(i.name, i.said)) && forall j :: 0 <= j < |i.args| ==> ArgOk(i.args[j]) }

  function Value(s: Said): ParamTable.Value {
    match s
    case Nothing => True
    case Text(t) => Str(t)
    case Encoded(l, raw, latin1) => Arr([Entry(l, Str(if latin1 then Latin1ToUtf8(raw) else raw))])
  }

  function PutArg(es: seq<Entry>, a: Arg): seq<Entry> {
    if a.said.Encoded? then PutExtended(es, a.name, Value(a.said)) else Put(es, a.name, Value(a.said))
  }

  /** Arguments one after the other; one said again is replaced, extended ones are in a table of their own. */
  function PutArgs(es: seq<Entry>, args: seq<Arg>): seq<Entry>
    decreases |args|
  {
    if args == [] then es else PutArgs(PutArg(es, args[0]), args[1..])
  }

  function ParamOf(i: Item): Param { Param(i.said.Encoded?, Value(i.said), PutArgs([], i.args)) }

  /** Parameters one after the other; one said again is replaced, arguments included. */
  function PutItems(ps: seq<Named>, items: seq<Item>): seq<Named>
    decreases |items|
  {
    if items == [] then ps else PutItems(PutNamed(ps, items[0].name, ParamOf(items[0])), items[1..])
  }

  // ---- how it can be spelled

  ghost predicate Blanks(x: bytes) { forall i :: 0 <= i < |x| ==> IsTrimmed(x[i]) }

  function Padded(a: bytes, t: bytes, force: bool, b: bytes): bytes { a + (Quote(t, force) + b) }

  /** A text, in quotes where it needs them or anyway, with white space around it. */
  ghost predicate SpellsQuoted(w: bytes, t: bytes) {
    exists a, force, b :: Blanks(a) && Blanks(b) && w == Padded(a, t, force, b)
  }

  /** What does not end a value outside of quotes, nor is a quote or a backslash. */
  ghost predicate IsOpen(b: byte) { b != COMMA && b != SEMICOLON && b != QUOTE && b != BACKSLASH }

  ghost predicate OpenText(t: bytes) {
    (forall i :: 0 <= i < |t| ==> IsOpen(t[i])) && (t != [] ==> !IsTrimmed(t[0]) && !IsTrimmed(t[|t| - 1]))
  }

  function PaddedOpen(a: bytes, t: bytes, b: bytes): bytes { a + (t + b) }

  /** A text as it is, though the printer may put it in quotes, with white space around it. */
  ghost predicate SpellsOpen(w: bytes, t: bytes) {
    OpenText(t) && exists a, b :: Blanks(a) && Blanks(b) && w == PaddedOpen(a, t, b)
  }

  ghost predicate Spells(w: bytes, t: bytes) { SpellsQuoted(w, t) || (SpellsOpen(w, t) && EQUALS !in t) }

  /** A value may hold what separates it from the name, but not in front. */
  ghost predicate SpellsValue(w: bytes, t: bytes) { Spells(w, t) || (SpellsOpen(w, t) && w != [] && w[0] != EQUALS) }

  function NameText(name: bytes, said: Said): bytes { if said.Encoded? then name + [STAR] else name }

  /** A byte that stands for itself outside of quotes. */
  ghost predicate IsBare(b: byte) { !IsSep(b) && b != QUOTE && b != BACKSLASH && b != NUL }
  ghost predicate Bare(x: bytes) { forall i :: 0 <= i < |x| ==> IsBare(x[i]) }

  ghost predicate CharsetOk(c: bytes, latin1: bool) {
    var name := if latin1 then Lit("iso-8859-1") else Lit("utf-8");
    |c| == |name| && forall i :: 0 <= i < |c| ==> c[i] == name[i] || (IsLower(name[i]) && c[i] == name[i] - 32)
  }

  function ExtendedText(charset: bytes, language: bytes, enc: bytes): bytes {
    charset + ([APOSTROPHE] + (language + ([APOSTROPHE] + enc)))
  }

  function PaddedExtended(a: bytes, charset: bytes, language: bytes, enc: bytes, b: bytes): bytes {
    a + (ExtendedText(charset, language, enc) + b)
  }

  /** charset'language'text, the text URL-encoded in any way, with white space around it. */
  ghost predicate SpellsExtended(w: bytes, s: Said)
    requires s.Encoded?
  {
    && Bare(s.language) && APOSTROPHE !in s.language
    && exists a, charset, enc, b ::
         && Blanks(a) && Blanks(b) && CharsetOk(charset, s.latin1) && Bare(enc) && UrlDecode(enc) == s.raw
         && (enc != [] ==> !IsTrimmed(enc[|enc| - 1]))
         && w == PaddedExtended(a, charset, s.language, enc, b)
  }

  /** One separator of the kind or more, and others of the kinds that are skipped behind it. */
  ghost predicate EqualsRun(r: bytes) { r != [] && forall i :: 0 <= i < |r| ==> r[i] == EQUALS }
  ghost predicate SemicolonRun(r: bytes) {
    r != [] && r[0] == SEMICOLON && forall i :: 0 <= i < |r| ==> r[i] == SEMICOLON || r[i] == EQUALS
  }
  ghost predicate CommaRun(r: bytes) { r != [] && r[0] == COMMA && forall i :: 0 <= i < |r| ==> IsSep(r[i]) }

  ghost predicate SpellsSaid(x: bytes, s: Said) {
    match s
    case Nothing => x == []
    case Text(t) => exists r, w :: EqualsRun(r) && SpellsValue(w, t) && x == r + w
    case Encoded(_, _, _) => exists r, w :: EqualsRun(r) && SpellsExtended(w, s) && x == r + w
  }

  ghost predicate SpellsNamed(x: bytes, name: bytes, s: Said) {
    exists w, u :: Spells(w, NameText(name, s)) && SpellsSaid(u, s) && x == w + u
  }

  ghost predicate SpellsArg(x: bytes, a: Arg) {
    exists r, w :: SemicolonRun(r) && SpellsNamed(w, a.name, a.said) && x == r + w
  }

  ghost predicate SpellsArgs(x: bytes, args: seq<Arg>)
    decreases |args|
  {
    if args == [] then x == []
    else exists y, z :: SpellsArg(y, args[0]) && SpellsArgs(z, args[1..]) && x == y + z
  }

  ghost predicate SpellsItem(x: bytes, i: Item) {
    exists y, z :: SpellsNamed(y, i.name, i.said) && SpellsArgs(z, i.args) && x == y + z
  }

  ghost predicate SpellsItems(x: bytes, items: seq<Item>)
    decreases |items|
  {
    if items == [] then x == []
    else if |items| == 1 then SpellsItem(x, items[0])
    else exists y, r, z :: SpellsItem(y, items[0]) && CommaRun(r) && SpellsItems(z, items[1..]) && x == y + (r + z)
  }

  // ---- the names and texts in the order they are spelled

  function SaidWords(s: Said): seq<bytes> { if s.Text? then [s.text] else [] }
  function NamedWords(name: bytes, s: Said): seq<bytes> { [NameText(name, s)] + SaidWords(s) }

  function ArgsWords(args: seq<Arg>): seq<bytes> {
    if args == [] then [] else NamedWords(args[0].name, args[0].said) + ArgsWords(args[1..])
  }

  function ItemWords(i: Item): seq<bytes> { NamedWords(i.name, i.said) + ArgsWords(i.args) }

  function Words(items: seq<Item>): seq<bytes> { if items == [] then [] else ItemWords(items[0]) + Words(items[1..]) }

  /** None ends in a backslash, but perhaps the last one if nothing follows it. */
  ghost predicate AllFit(ts: seq<bytes>, last: bool) {
    forall i :: 0 <= i < |ts| ==> TextOk(ts[i]) || (last && i == |ts| - 1)
  }

  lemma FitSplits(xs: seq<bytes>, ys: seq<bytes>, last: bool)
    requires AllFit(xs + ys, last)
    ensures AllFit(xs, last && ys == []) && AllFit(ys, last)
  {
    hide TextOk;
    assert forall i :: 0 <= i < |xs| ==> (xs + ys)[i] == xs[i];
    assert forall i :: 0 <= i < |ys| ==> (xs + ys)[|xs| + i] == ys[i];
  }

  // ---- the scan over one token

  ghost predicate Clear(input: bytes, st: State) {
    Ok(input, st) && st.marks.param.Some? && !st.quotes && !st.escape
  }

  lemma OneSep(input: bytes, pos: nat, b: byte)
    requires pos <= |input|
    ensures SepAt(input, pos, [[b]]) == if pos < |input| && input[pos] == b then 1 else 0
  {
    assert [[b]][1..] == [];
  }

  /** Behind the separator of a value another one is a byte like any other. */
  ghost predicate Passed(b: byte, st: State) { IsOpen(b) && (b == EQUALS ==> st.marks.val.Some?) }

  /** Not in quotes and not at a separator, a plain byte is passed over. */
  lemma PlainStep(input: bytes, o: Options, st: State)
    requires Ready(o, st)
    requires Ok(input, st) && st.pos < |input| && st.marks.param.Some?
    requires !st.quotes && !st.escape
    requires Passed(input[st.pos], st)
    ensures Step(input, o, st) == st.(pos := st.pos + 1)
  {
    hide Push, SkipSeps, SepAt;
    OneSep(input, st.pos, COMMA);
    OneSep(input, st.pos, SEMICOLON);
    OneSep(input, st.pos, EQUALS);
  }

  /** In quotes everything is passed over but a quote that is not escaped. */
  lemma QuotedStep(input: bytes, o: Options, st: State)
    requires Ready(o, st)
    requires Ok(input, st) && st.pos < |input| && st.marks.param.Some?
    requires st.quotes && (input[st.pos] == QUOTE ==> st.escape)
    ensures Step(input, o, st) == st.(pos := st.pos + 1, escape := input[st.pos] == BACKSLASH)
  {
    hide Push, SkipSeps, SepAt;
  }

  lemma OpenStep(input: bytes, o: Options, st: State)
    requires Ready(o, st)
    requires Ok(input, st) && st.pos < |input| && st.marks.param.Some?
    requires !st.quotes && !st.escape && input[st.pos] == QUOTE
    ensures Step(input, o, st) == st.(pos := st.pos + 1, quotes := true)
  {
    hide Push, SkipSeps, SepAt;
  }

  lemma CloseStep(input: bytes, o: Options, st: State)
    requires Ready(o, st)
    requires Ok(input, st) && st.pos < |input| && st.marks.param.Some?
    requires st.quotes && !st.escape && input[st.pos] == QUOTE
    ensures Step(input, o, st) == st.(pos := st.pos + 1, quotes := false)
  {
    hide Push, SkipSeps;
    OneSep(input, st.pos, COMMA);
    OneSep(input, st.pos, SEMICOLON);
    OneSep(input, st.pos, EQUALS);
  }

  lemma {:induction false} PlainScan(input: bytes, o: Options, st: State, q: bytes, y: bytes)
    requires Ready(o, st)
    requires Ok(input, st) && st.marks.param.Some? && !st.quotes && !st.escape
    requires input[st.pos..] == q + y
    requires forall i :: 0 <= i < |q| ==> Passed(q[i], st)
    ensures Run(input, o, st) == Run(input, o, st.(pos := st.pos + |q|))
    decreases |q|
  {
    hide Step, Push;
    if q != [] {
      assert input[st.pos] == input[st.pos..][0] == q[0];
      PlainStep(input, o, st);
      assert q + y == [q[0]] + (q[1..] + y);
      Peel(input, st.pos, [q[0]], q[1..] + y);
      PlainScan(input, o, st.(pos := st.pos + 1), q[1..], y);
    }
  }

  /** Bytes inside quotes that hold no quote but after a backslash. */
  ghost predicate StaysQuoted(e: bytes, escape: bool) {
    e == [] || ((e[0] == QUOTE ==> escape) && StaysQuoted(e[1..], e[0] == BACKSLASH))
  }

  lemma {:induction false} QuotedScan(input: bytes, o: Options, st: State, e: bytes, y: bytes)
    requires Ready(o, st)
    requires Ok(input, st) && st.marks.param.Some? && st.quotes
    requires input[st.pos..] == e + y && StaysQuoted(e, st.escape)
    ensures Run(input, o, st) == Run(input, o,
      st.(pos := st.pos + |e|, escape := if e == [] then st.escape else e[|e| - 1] == BACKSLASH))
    decreases |e|
  {
    hide Step, Push;
    if e != [] {
      assert input[st.pos] == input[st.pos..][0] == e[0];
      QuotedStep(input, o, st);
      assert e + y == [e[0]] + (e[1..] + y);
      Peel(input, st.pos, [e[0]], e[1..] + y);
      QuotedScan(input, o, st.(pos := st.pos + 1, escape := e[0] == BACKSLASH), e[1..], y);
    }
  }

  lemma {:induction false} StaysQuotedConcat(a: bytes, b: bytes, escape: bool)
    requires StaysQuoted(a, escape) && a != [] && StaysQuoted(b, a[|a| - 1] == BACKSLASH)
    ensures StaysQuoted(a + b, escape)
  {
    assert (a + b)[1..] == a[1..] + b;
    if |a| == 1 {
      assert a[1..] + b == b;
    } else {
      StaysQuotedConcat(a[1..], b, a[0] == BACKSLASH);
    }
  }

  lemma EscapedByteStaysQuoted(c: byte, escape: bool)
    ensures var e := EscapeByte(c); StaysQuoted(e, escape) && (e[|e| - 1] == BACKSLASH <==> c == BACKSLASH)
  {
    var e := EscapeByte(c);
    if |e| == 1 {
      assert e[1..] == [];
    } else if |e| == 2 {
      assert e[1..][1..] == [];
      assert StaysQuoted(e[1..], true);
    } else {
      assert e[1..] == Octal(c) && e[1..][1..][1..][1..] == [];
      assert StaysQuoted(e[1..][1..], false);
      assert StaysQuoted(e[1..], true);
    }
  }

  lemma NothingStaysQuoted(escape: bool) ensures StaysQuoted([], escape) {}

  lemma {:induction false} EscapeStaysQuoted(t: bytes, escape: bool)
    ensures var e := Escape(t);
      StaysQuoted(e, escape) && (t != [] ==> (e[|e| - 1] == BACKSLASH <==> t[|t| - 1] == BACKSLASH))
  {
    hide EscapeByte, StaysQuoted;
    if t == [] {
      NothingStaysQuoted(escape);
    } else {
      var a, b := EscapeByte(t[0]), Escape(t[1..]);
      EscapedByteStaysQuoted(t[0], escape);
      EscapeStaysQuoted(t[1..], t[0] == BACKSLASH);
      StaysQuotedConcat(a, b, escape);
      assert |t| > 1 ==> t[|t| - 1] == t[1..][|t| - 2];
    }
  }

  lemma EmptyNeedsNoQuotes() ensures !NeedsQuotes([]) {}

  /** The quote that closes a text with a backslash at its end is missed. */
  lemma ClosingQuoteIsMissed(t: bytes)
    requires !TextOk(t)
    ensures NeedsQuotes(t) && StaysQuoted(Escape(t) + [QUOTE], false)
  {
    hide Escape;
    if !NeedsQuotes(t) { UnescapedIsPlain(t); }
    EscapeStaysQuoted(t, false);
    assert [QUOTE][1..] == [];
    NothingStaysQuoted(false);
    StaysQuotedConcat(Escape(t), [QUOTE], false);
  }

  lemma LastWordScan(input: bytes, o: Options, st: State, t: bytes, b: bytes)
    requires Ready(o, st) && !TextOk(t) && Blanks(b)
    requires Clear(input, st) && input[st.pos..] == [QUOTE] + ((Escape(t) + [QUOTE]) + b)
    ensures Run(input, o, st) == Run(input, o, st.(pos := |input|))
  {
    hide Step, Push, Escape, Run, StaysQuoted, TextOk, NeedsQuotes;
    ClosingQuoteIsMissed(t);
    var f := Escape(t) + [QUOTE];
    var e := f + b;
    BlanksStayQuoted(f, b);
    assert [QUOTE] + e == [QUOTE] + (e + []);
    PeelAfter(input, st.pos, QUOTE, e, []);
    OpenStep(input, o, st);
    RunGoesOn(input, o, st);
    var st1 := st.(pos := st.pos + 1, quotes := true);
    QuotedScan(input, o, st1, e, []);
    RunEnds(input, o, st1.(pos := |input|, escape := e[|e| - 1] == BACKSLASH));
    RunEnds(input, o, st.(pos := |input|));
  }

  lemma {:induction false} BlankBytesStayQuoted(b: bytes, escape: bool)
    requires Blanks(b)
    ensures StaysQuoted(b, escape)
    decreases |b|
  {
    if b != [] { BlankBytesStayQuoted(b[1..], b[0] == BACKSLASH); }
  }

  lemma BlanksStayQuoted(f: bytes, b: bytes)
    requires f != [] && StaysQuoted(f, false) && Blanks(b)
    ensures StaysQuoted(f + b, false)
  {
    hide StaysQuoted, Blanks;
    BlankBytesStayQuoted(b, f[|f| - 1] == BACKSLASH);
    StaysQuotedConcat(f, b, false);
  }

  lemma BlanksScan(input: bytes, o: Options, st: State, b: bytes, y: bytes)
    requires Ready(o, st) && Clear(input, st) && Blanks(b) && input[st.pos..] == b + y
    ensures Run(input, o, st) == Run(input, o, st.(pos := st.pos + |b|))
    ensures Clear(input, st.(pos := st.pos + |b|)) && input[st.pos + |b|..] == y
  {
    hide Run;
    PlainScan(input, o, st, b, y);
    Peel(input, st.pos, b, y);
  }

  /** A quoted text with whatever is behind it. */
  lemma QuotedWordScan(input: bytes, o: Options, st: State, t: bytes, y: bytes)
    requires Ready(o, st) && TextOk(t) && Clear(input, st)
    requires input[st.pos..] == [QUOTE] + (Escape(t) + ([QUOTE] + y))
    ensures Run(input, o, st) == Run(input, o, st.(pos := st.pos + 1 + |Escape(t)| + 1))
  {
    hide Step, Push, Escape, Run, StaysQuoted;
    var e := Escape(t);
    PeelAfter(input, st.pos, QUOTE, e, [QUOTE] + y);
    OpenStep(input, o, st);
    RunGoesOn(input, o, st);
    var st1 := st.(pos := st.pos + 1, quotes := true);
    EscapeStaysQuoted(t, false);
    QuotedScan(input, o, st1, e, [QUOTE] + y);
    var st2 := st1.(pos := st1.pos + |e|);
    assert e != [] ==> t != [] by { NothingIsEscaped(t); }
    assert st2 == st1.(pos := st1.pos + |e|, escape := if e == [] then st1.escape else e[|e| - 1] == BACKSLASH);
    Peel(input, st1.pos, e, [QUOTE] + y);
    assert input[st2.pos] == input[st2.pos..][0];
    CloseStep(input, o, st2);
    RunGoesOn(input, o, st2);
  }

  lemma NothingIsEscaped(t: bytes) ensures Escape(t) == [] <==> t == [] {}

  lemma WordScan(input: bytes, o: Options, st: State, t: bytes, force: bool, b: bytes, y: bytes)
    requires Ready(o, st) && (TextOk(t) || y == []) && Blanks(b) && Clear(input, st)
    requires input[st.pos..] == (Quote(t, force) + b) + y
    ensures var p := st.pos + |Quote(t, force) + b|;
      Run(input, o, st) == Run(input, o, st.(pos := p)) && p <= |input| && input[p..] == y
  {
    hide Step, Push, Escape, Run, NeedsQuotes, TextOk, Blanks;
    var q := Quote(t, force);
    Peel(input, st.pos, q + b, y);
    SeqAssoc(q, b, y);
    if !TextOk(t) {
      ClosingQuoteIsMissed(t);
      assert (q + b) + y == [QUOTE] + ((Escape(t) + [QUOTE]) + b);
      LastWordScan(input, o, st, t, b);
    } else {
      var st1 := st.(pos := st.pos + |q|);
      if force || NeedsQuotes(t) {
        assert q + (b + y) == [QUOTE] + (Escape(t) + ([QUOTE] + (b + y)));
        QuotedWordScan(input, o, st, t, b + y);
      } else {
        PlainWordIsPlain(t);
        PlainScan(input, o, st, t, b + y);
      }
      Peel(input, st.pos, q, b + y);
      BlanksScan(input, o, st1, b, y);
    }
  }

  lemma PlainWordIsPlain(t: bytes)
    requires !NeedsQuotes(t)
    ensures forall i :: 0 <= i < |t| ==> !IsSep(t[i]) && t[i] != QUOTE && t[i] != BACKSLASH
  {
    hide Escape;
    UnescapedIsPlain(t);
  }

  lemma QuotedTokenScan(input: bytes, o: Options, st: State, w: bytes, t: bytes, y: bytes)
    requires Ready(o, st) && (TextOk(t) || y == []) && SpellsQuoted(w, t) && Clear(input, st)
    requires input[st.pos..] == w + y
    ensures Run(input, o, st) == Run(input, o, st.(pos := st.pos + |w|))
  {
    hide Step, Push, Quote, Run, TextOk;
    var a, force, b :| Blanks(a) && Blanks(b) && w == Padded(a, t, force, b);
    var q := Quote(t, force) + b;
    Peel(input, st.pos, w, y);
    SeqAssoc(a, q, y);
    BlanksScan(input, o, st, a, q + y);
    WordScan(input, o, st.(pos := st.pos + |a|), t, force, b, y);
  }

  lemma OpenBytes(w: bytes, t: bytes)
    requires SpellsOpen(w, t)
    ensures forall i :: 0 <= i < |w| ==> IsOpen(w[i]) && (w[i] == EQUALS ==> EQUALS in t)
  {
    var a, b :| Blanks(a) && Blanks(b) && w == PaddedOpen(a, t, b);
    forall i | 0 <= i < |w| ensures IsOpen(w[i]) && (w[i] == EQUALS ==> EQUALS in t) {
      if i < |a| { BlankIsNoSep(a[i]); } else if i >= |a| + |t| { BlankIsNoSep(b[i - |a| - |t|]); }
    }
  }

  /** However a text is spelled, it is scanned as one token, unless it ends in a backslash and more follows. */
  lemma TokenScan(input: bytes, o: Options, st: State, w: bytes, t: bytes, y: bytes)
    requires Ready(o, st) && (TextOk(t) || y == []) && Clear(input, st)
    requires Spells(w, t) || (st.marks.val.Some? && SpellsOpen(w, t))
    requires input[st.pos..] == w + y
    ensures Run(input, o, st) == Run(input, o, st.(pos := st.pos + |w|)) && st.pos + |w| <= |input|
    ensures input[st.pos..st.pos + |w|] == w && input[st.pos + |w|..] == y
  {
    hide Step, Run, TextOk, SpellsQuoted, SpellsOpen;
    Peel(input, st.pos, w, y);
    if SpellsQuoted(w, t) {
      QuotedTokenScan(input, o, st, w, t, y);
    } else {
      OpenBytes(w, t);
      PlainScan(input, o, st, w, y);
    }
  }

  /** A text of bytes that stand for themselves, with white space around it. */
  lemma BareScan(input: bytes, o: Options, st: State, a: bytes, x: bytes, b: bytes, y: bytes)
    requires Ready(o, st) && Blanks(a) && Bare(x) && Blanks(b) && Clear(input, st)
    requires input[st.pos..] == (a + (x + b)) + y
    ensures var p := st.pos + |a + (x + b)|;
      Run(input, o, st) == Run(input, o, st.(pos := p)) && p <= |input| && input[st.pos..p] == a + (x + b) && input[p..] == y
  {
    hide Step, Push, Run;
    Peel(input, st.pos, a + (x + b), y);
    SeqAssoc(a, x + b, y);
    SeqAssoc(x, b, y);
    BlanksScan(input, o, st, a, x + (b + y));
    var st1 := st.(pos := st.pos + |a|);
    PlainScan(input, o, st1, x, b + y);
    Peel(input, st1.pos, x, b + y);
    BlanksScan(input, o, st1.(pos := st1.pos + |x|), b, y);
  }

  // ---- separators

  lemma {:induction false} NoSepAt(input: bytes, pos: nat, seps: seq<bytes>)
    requires pos <= |input|
    requires forall i :: 0 <= i < |seps| ==> |seps[i]| == 1 && (pos < |input| ==> seps[i][0] != input[pos])
    ensures SepAt(input, pos, seps) == 0
  {
    if seps != [] {
      assert !IsAt(input, pos, seps[0]) by {
        if pos < |input| { assert input[pos..pos + 1][0] != seps[0][0]; }
      }
      NoSepAt(input, pos, seps[1..]);
    }
  }

  lemma NoSkip(input: bytes, pos: nat, seps: seq<bytes>, active: bool)
    requires pos <= |input|
    requires forall i :: 0 <= i < |seps| ==> |seps[i]| == 1 && (pos < |input| ==> seps[i][0] != input[pos])
    ensures SkipSeps(input, pos, seps, active) == pos
  {
    hide SepAt;
    NoSepAt(input, pos, seps);
  }

  lemma {:induction false} FindsSep(input: bytes, pos: nat, seps: seq<bytes>)
    requires pos < |input| && forall i :: 0 <= i < |seps| ==> |seps[i]| == 1
    ensures SepAt(input, pos, seps) == if [input[pos]] in seps then 1 else 0
  {
    if seps != [] {
      assert input[pos..pos + 1] == [input[pos]];
      FindsSep(input, pos, seps[1..]);
      assert seps == [seps[0]] + seps[1..];
    }
  }

  /** A run of separators is skipped up to the first byte that is none of them. */
  lemma {:induction false} SkipsRun(input: bytes, pos: nat, seps: seq<bytes>, r: bytes, y: bytes)
    requires pos <= |input| && input[pos..] == r + y && forall i :: 0 <= i < |seps| ==> |seps[i]| == 1
    requires (forall i :: 0 <= i < |r| ==> [r[i]] in seps) && (y != [] ==> [y[0]] !in seps)
    ensures SkipSeps(input, pos, seps, true) == pos + |r|
    decreases |r|
  {
    hide SepAt;
    if pos < |input| { FindsSep(input, pos, seps); }
    if r == [] {
      assert r + y == y;
      if y != [] { assert input[pos] == input[pos..][0]; } else { NoSepAt(input, pos, seps); }
    } else {
      assert input[pos] == input[pos..][0] == r[0];
      assert r + y == [r[0]] + (r[1..] + y);
      Peel(input, pos, [r[0]], r[1..] + y);
      SkipsRun(input, pos + 1, seps, r[1..], y);
    }
  }

  lemma RunStarts(input: bytes, pos: nat, r: bytes, y: bytes)
    requires pos <= |input| && input[pos..] == r + y && r != []
    ensures pos < |input| && input[pos] == r[0] && input[pos + 1..] == r[1..] + y
    ensures pos + |r| <= |input| && input[pos + |r|..] == y
  {
    Peel(input, pos, r, y);
    assert input[pos] == input[pos..][0];
    assert r + y == [r[0]] + (r[1..] + y);
    Peel(input, pos, [r[0]], r[1..] + y);
  }

  lemma CommaStep(input: bytes, o: Options, st: State, r: bytes, y: bytes)
    requires Standard(o) && Clear(input, st) && input[st.pos..] == r + y
    requires CommaRun(r) && (y != [] ==> !IsSep(y[0]))
    ensures var p := st.pos + |r|;
      && st.pos < |input| && p <= |input| && input[p..] == y && Step(input, o, st) == State(p, false, false,
        Marks(Some(p), None, None), Push(input, o, st.marks, st.pos, st.store))
  {
    hide Push, SepAt, SkipSeps;
    RunStarts(input, st.pos, r, y);
    OneSep(input, st.pos, COMMA);
    SkipsRun(input, st.pos + 1, o.param + o.arg + o.val, r[1..], y);
  }

  lemma SemicolonStep(input: bytes, o: Options, st: State, r: bytes, y: bytes)
    requires Standard(o) && Clear(input, st) && input[st.pos..] == r + y
    requires SemicolonRun(r) && (y != [] ==> !IsSep(y[0]))
    ensures var p := st.pos + |r|;
      && st.pos < |input| && p <= |input| && input[p..] == y && Step(input, o, st) == State(p, false, false,
        st.marks.(arg := Some(p), val := None), Push(input, o, st.marks, st.pos, st.store))
  {
    hide Push, SepAt, SkipSeps;
    RunStarts(input, st.pos, r, y);
    OneSep(input, st.pos, COMMA);
    OneSep(input, st.pos, SEMICOLON);
    SkipsRun(input, st.pos + 1, o.arg + o.val, r[1..], y);
  }

  lemma EqualsStep(input: bytes, o: Options, st: State, r: bytes, y: bytes)
    requires Ready(o, st) && Clear(input, st) && st.marks.val.None? && input[st.pos..] == r + y
    requires EqualsRun(r) && (y != [] ==> y[0] != EQUALS)
    ensures var p := st.pos + |r|;
      && st.pos < |input| && p <= |input| && input[p..] == y && Step(input, o, st) == State(p, false, false,
        st.marks.(val := Some(p)), Push(input, o, st.marks, st.pos, st.store))
  {
    hide Push, SepAt, SkipSeps;
    RunStarts(input, st.pos, r, y);
    OneSep(input, st.pos, COMMA);
    OneSep(input, st.pos, SEMICOLON);
    OneSep(input, st.pos, EQUALS);
    SkipsRun(input, st.pos + 1, o.val, r[1..], y);
  }

  lemma BlankIsNoSep(b: byte)
    requires IsTrimmed(b)
    ensures !IsSep(b) && b != BACKSLASH && b != QUOTE
  {}

  lemma QuoteStarts(t: bytes, force: bool)
    ensures var q := Quote(t, force); (t != [] ==> q != []) && (q != [] ==> !IsSep(q[0]) && q[0] != BACKSLASH)
  {
    hide Escape;
    if t != [] && !NeedsQuotes(t) { PlainWordIsPlain(t); }
  }

  lemma OpenStart(w: bytes, t: bytes)
    requires SpellsOpen(w, t)
    ensures t != [] ==> w != []
    ensures w != [] ==> IsOpen(w[0]) && (w[0] == EQUALS ==> EQUALS in t)
  {
    hide IsOpen;
    OpenBytes(w, t);
  }

  lemma WordStart(w: bytes, t: bytes)
    requires Spells(w, t)
    ensures t != [] ==> w != []
    ensures w != [] ==> !IsSep(w[0]) && w[0] != BACKSLASH
  {
    hide SpellsQuoted, SpellsOpen;
    if SpellsQuoted(w, t) { QuotedStart(w, t); } else { OpenStart(w, t); }
  }

  lemma ValueStart(w: bytes, t: bytes)
    requires SpellsValue(w, t)
    ensures t != [] ==> w != []
    ensures w != [] ==> !IsSep(w[0]) && w[0] != BACKSLASH
  {
    hide Spells, SpellsOpen;
    if Spells(w, t) { WordStart(w, t); } else { OpenStart(w, t); }
  }

  lemma QuotedStart(w: bytes, t: bytes)
    requires SpellsQuoted(w, t)
    ensures t != [] ==> w != []
    ensures w != [] ==> !IsSep(w[0]) && w[0] != BACKSLASH
  {
    hide Quote, Blanks;
    var a, force, b :| Blanks(a) && Blanks(b) && w == Padded(a, t, force, b);
    QuoteStarts(t, force);
    if w != [] {
      var q := Quote(t, force);
      assert w[0] == if a != [] then a[0] else if q != [] then q[0] else b[0];
      assert a != [] ==> IsTrimmed(a[0]) by { BlankAt(a); }
      assert b != [] ==> IsTrimmed(b[0]) by { BlankAt(b); }
    }
  }

  lemma BlankAt(b: bytes) requires Blanks(b) ensures b != [] ==> IsTrimmed(b[0]) && IsTrimmed(b[|b| - 1]) {}

  // ---- what a token becomes

  /** What is to be dropped around a text is taken off. */
  lemma {:induction false} TrimsAroundBy(a: bytes, q: bytes, b: bytes, drop: byte -> bool)
    requires forall i :: 0 <= i < |a| ==> drop(a[i])
    requires forall i :: 0 <= i < |b| ==> drop(b[i])
    requires q != [] ==> !drop(q[0]) && !drop(q[|q| - 1])
    ensures TrimBy(a + (q + b), drop) == q
    decreases |a| + |b|
  {
    var s := a + (q + b);
    if a != [] {
      assert s[0] == a[0] && s[1..] == a[1..] + (q + b);
      TrimsAroundBy(a[1..], q, b, drop);
    } else if q == [] {
      if b != [] {
        assert s[0] == b[0] && s[1..] == a + (q + b[1..]);
        TrimsAroundBy(a, q, b[1..], drop);
      }
    } else {
      assert s[0] == q[0];
      if b == [] {
        assert s == q;
      } else {
        assert s[|s| - 1] == b[|b| - 1] && s[..|s| - 1] == a + (q + b[..|b| - 1]);
        TrimsAroundBy(a, q, b[..|b| - 1], drop);
      }
    }
  }

  lemma TrimsAround(a: bytes, q: bytes, b: bytes)
    requires Blanks(a) && Blanks(b) && (q != [] ==> !IsTrimmed(q[0]) && !IsTrimmed(q[|q| - 1]))
    ensures Trim(a + (q + b)) == q
  {
    hide TrimBy;
    TrimsAroundBy(a, q, b, IsTrimmed);
  }

  /** What is not trimmed any further has no white space at its ends. */
  lemma TrimmedEnds(q: bytes)
    requires Trim(q) == q
    ensures q != [] ==> !IsTrimmed(q[0]) && !IsTrimmed(q[|q| - 1])
  {}

  lemma QuotedReads(w: bytes, t: bytes)
    requires SpellsQuoted(w, t)
    ensures SanitizeEscaped(Trim(w)) == t
  {
    hide Quote, Trim, SanitizeEscaped, IsTrimmed;
    var a, force, b :| Blanks(a) && Blanks(b) && w == Padded(a, t, force, b);
    SanitizeQuoted(t, force);
    TrimmedEnds(Quote(t, force));
    TrimsAround(a, Quote(t, force), b);
  }

  lemma {:induction false} NothingToUnescape(t: bytes)
    requires BACKSLASH !in t
    ensures Unescape(t) == t
  {
    if t != [] { NothingToUnescape(t[1..]); }
  }

  lemma OpenReads(w: bytes, t: bytes)
    requires SpellsOpen(w, t)
    ensures SanitizeEscaped(Trim(w)) == t
  {
    hide Trim, Unescape, IsTrimmed;
    var a, b :| Blanks(a) && Blanks(b) && w == PaddedOpen(a, t, b);
    TrimsAround(a, t, b);
    NothingToUnescape(t);
  }

  lemma WordReads(w: bytes, t: bytes)
    requires Spells(w, t) || SpellsOpen(w, t)
    ensures SanitizeEscaped(Trim(w)) == t
  {
    hide SpellsQuoted, SpellsOpen;
    if SpellsQuoted(w, t) { QuotedReads(w, t); } else { OpenReads(w, t); }
  }

  lemma KeyReads(o: Options, w: bytes, name: bytes, s: Said)
    requires Standard(o) && ArgOk(Arg(name, s)) && Spells(w, NameText(name, s))
    ensures SanitizeKey(o, w) == (Plain(name), s.Encoded?)
  {
    hide Trim, SanitizeEscaped, Spells;
    WordReads(w, NameText(name, s));
    assert s.Encoded? ==> NameText(name, s)[..|name|] == name;
  }

  lemma TextReads(o: Options, w: bytes, t: bytes)
    requires Standard(o) && SpellsValue(w, t)
    ensures SanitizeValue(o, w, false) == Str(t)
  {
    hide Trim, SanitizeEscaped, Spells, SpellsOpen;
    WordReads(w, t);
  }

  lemma {:induction false} BareReads(x: bytes)
    requires Bare(x)
    ensures Unescape(x) == x && BeforeNul(x) == x
  {
    if x != [] {
      assert forall i :: 0 <= i < |x| - 1 ==> x[1..][i] == x[i + 1];
      BareReads(x[1..]);
    }
  }

  lemma BareIsSane(x: bytes)
    requires Bare(x)
    ensures SanitizeEscaped(x) == x && BeforeNul(x) == x
  {
    BareReads(x);
  }

  lemma ExtendedParts(c: bytes, l: bytes, enc: bytes)
    ensures var x, n, k := ExtendedText(c, l, enc), |c|, |c| + 1 + |l|;
      && |x| == k + 1 + |enc| && x[..n] == c && x[n] == APOSTROPHE && x[n + 1..k] == l && x[k] == APOSTROPHE
      && x[k + 1..] == enc
  {
    var x, n, k := ExtendedText(c, l, enc), |c|, |c| + 1 + |l|;
    var y := l + ([APOSTROPHE] + enc);
    assert x[..n] == c;
    PeelAfter(x, n, APOSTROPHE, l, [APOSTROPHE] + enc);
    PeelAfter(x, k, APOSTROPHE, enc, []);
  }

  lemma {:induction false} FindsApostrophe(x: bytes, i: nat, k: nat)
    requires i <= k < |x| && x[k] == APOSTROPHE
    requires forall j :: i <= j < k ==> x[j] != APOSTROPHE && x[j] != NUL
    ensures IndexBeforeNul(x, APOSTROPHE, i) == Some(k)
    decreases k - i
  {
    if i < k { FindsApostrophe(x, i + 1, k); }
  }

  lemma CharsetShows(c: bytes, latin1: bool, x: bytes)
    requires CharsetOk(c, latin1) && |c| <= |x| && x[..|c|] == c
    ensures HasPrefixNoCase(x, Lit("iso-8859-1")) == latin1
    ensures !latin1 ==> HasPrefixNoCase(x, Lit("utf-8"))
    ensures |c| == if latin1 then 10 else 5
    ensures !IsTrimmed(c[0]) && c[0] != QUOTE
  {
    assert forall i :: 0 <= i < |c| ==> x[i] == x[..|c|][i] == c[i];
    assert Lit("iso-8859-1")[0] == 105 && Lit("utf-8")[0] == 117;
  }

  lemma LanguageEnds(c: bytes, l: bytes, enc: bytes)
    requires Bare(l) && APOSTROPHE !in l
    ensures var x, n := ExtendedText(c, l, enc), |c|;
      n + 1 <= |x| && IndexBeforeNul(x, APOSTROPHE, n + 1) == Some(n + 1 + |l|)
  {
    hide IsSep, ExtendedText;
    var x, n := ExtendedText(c, l, enc), |c|;
    ExtendedParts(c, l, enc);
    assert forall j :: n + 1 <= j < n + 1 + |l| ==> x[j] == l[j - n - 1];
    FindsApostrophe(x, n + 1, n + 1 + |l|);
  }

  lemma SplitsExtended(c: bytes, s: Said, enc: bytes)
    requires s.Encoded? && Bare(s.language) && APOSTROPHE !in s.language && CharsetOk(c, s.latin1) && Bare(enc)
    ensures SplitExtended(ExtendedText(c, s.language, enc)) == Extended(enc, Some(s.language), s.latin1)
  {
    hide HasPrefixNoCase, ExtendedText, Bare, CharsetOk, IndexBeforeNul;
    var x, n, l := ExtendedText(c, s.language, enc), |c|, s.language;
    ExtendedParts(c, l, enc);
    CharsetShows(c, s.latin1, x);
    LanguageEnds(c, l, enc);
    BareReads(enc);
  }

  lemma {:induction false} NulEnds(t: bytes, y: bytes)
    requires NUL !in t
    ensures BeforeNul(t + ([NUL] + y)) == t
  {
    var s := t + ([NUL] + y);
    if t != [] {
      assert s[1..] == t[1..] + ([NUL] + y);
      NulEnds(t[1..], y);
    }
  }

  /** An extended value ends at a NUL. */
  lemma ExtendedStopsAtNul(c: bytes, latin1: bool, l: bytes, t: bytes, y: bytes)
    requires Bare(l) && APOSTROPHE !in l && CharsetOk(c, latin1) && NUL !in t
    ensures SplitExtended(ExtendedText(c, l, t + ([NUL] + y))) == Extended(t, Some(l), latin1)
  {
    hide HasPrefixNoCase, ExtendedText, Bare, CharsetOk, IndexBeforeNul, BeforeNul;
    var enc := t + ([NUL] + y);
    ExtendedParts(c, l, enc);
    CharsetShows(c, latin1, ExtendedText(c, l, enc));
    LanguageEnds(c, l, enc);
    NulEnds(t, y);
  }

  lemma ExtendedReads(o: Options, w: bytes, s: Said)
    requires Standard(o) && s.Encoded? && SpellsExtended(w, s)
    ensures SanitizeValue(o, w, true) == Value(s)
  {
    hide Trim, SanitizeEscaped, SplitExtended, HasPrefixNoCase, IsTrimmed, UrlDecode, CharsetOk, Latin1ToUtf8, Blanks, Bare;
    var a, c, enc, b :| && Blanks(a) && Blanks(b) && CharsetOk(c, s.latin1) && Bare(enc) && UrlDecode(enc) == s.raw
      && (enc != [] ==> !IsTrimmed(enc[|enc| - 1])) && w == PaddedExtended(a, c, s.language, enc, b);
    var x := ExtendedText(c, s.language, enc);
    ExtendedParts(c, s.language, enc);
    CharsetShows(c, s.latin1, x);
    assert x[0] == c[0];
    assert x[|x| - 1] == if enc == [] then APOSTROPHE else enc[|enc| - 1];
    assert !IsTrimmed(APOSTROPHE) by { ApostropheStays(); }
    TrimsAround(a, x, b);
    SplitsExtended(c, s, enc);
    BareIsSane(enc);
  }

  /** Section 3 of RFC 3629, for characters of up to two bytes: the code points that a text stands for. */
  function CodePoints(s: bytes): Option<seq<int>> {
    if s == [] then Some([])
    else if s[0] < 128 then
      match CodePoints(s[1..]) case None => None case Some(r) => Some([s[0] as int] + r)
    else if |s| > 1 && 194 <= s[0] <= 223 && 128 <= s[1] <= 191 then
      match CodePoints(s[2..]) case None => None case Some(r) => Some([(s[0] as int - 192) * 64 + (s[1] as int - 128)] + r)
    else None
  }

  function Ints(s: bytes): seq<int> { if s == [] then [] else [s[0] as int] + Ints(s[1..]) }

  /** A text in ISO 8859-1 is rewritten into UTF-8 that stands for the same code points. */
  lemma {:induction false} Latin1IsRewritten(s: bytes)
    ensures CodePoints(Latin1ToUtf8(s)) == Some(Ints(s))
  {
    if s != [] {
      Latin1IsRewritten(s[1..]);
      var c, u := s[0], Latin1ToUtf8(s);
      if c < 128 {
        assert u[1..] == Latin1ToUtf8(s[1..]);
      } else {
        assert u[0] == 192 + c / 64 && u[1] == 128 + c % 64 && u[2..] == Latin1ToUtf8(s[1..]);
        assert (u[0] as int - 192) * 64 + (u[1] as int - 128) == c as int;
      }
    }
  }

  lemma ApostropheStays() ensures !IsTrimmed(APOSTROPHE) {}

  // ---- the table

  ghost predicate Fresh(ps: seq<Named>, k: bytes) { forall i :: 0 <= i < |ps| ==> ps[i].key != k }

  lemma PutAtEnd(done: seq<Named>, k: bytes, p: Param, p': Param)
    requires Fresh(done, k)
    ensures PutNamed(done, k, p) == done + [Named(k, p)]
    ensures var ps := done + [Named(k, p)];
      FindNamed(ps, k) == |done| && PutNamed(ps, k, p') == done + [Named(k, p')]
  {
    hide FindNamed;
    var ps := done + [Named(k, p)];
    assert ps[|done|].key == k;
    assert forall i :: 0 <= i < |done| ==> ps[i].key == done[i].key;
    assert FindNamed(ps, k) == |done|;
    assert FindNamed(done, k) == |done|;
  }

  lemma PutNamedTwice(ps: seq<Named>, k: bytes, p: Param, q: Param)
    ensures var r := PutNamed(ps, k, p);
      && FindNamed(r, k) < |r| && r[FindNamed(r, k)].param == p && PutNamed(r, k, q) == PutNamed(ps, k, q)
  {
    hide FindNamed;
    var i, r := FindNamed(ps, k), PutNamed(ps, k, p);
    assert r[i].key == k;
    assert forall j :: 0 <= j < i ==> r[j].key == ps[j].key;
    assert FindNamed(r, k) == i;
  }

  lemma FindPut(es: seq<Entry>, k: bytes, v: Value)
    ensures Find(Put(es, k, v), k) == Find(es, k)
  {
    hide Find;
    var i, ps := Find(es, k), Put(es, k, v);
    assert ps[i].key == k;
    assert forall j :: 0 <= j < i ==> ps[j].key == es[j].key;
  }

  lemma PutTwice(es: seq<Entry>, k: bytes, v: ParamTable.Value, u: ParamTable.Value)
    ensures Put(Put(es, k, v), k, u) == Put(es, k, u)
  {
    hide Find;
    FindPut(es, k, v);
  }

  lemma PutExtendedTwice(es: seq<Entry>, name: bytes, v: ParamTable.Value, u: ParamTable.Value)
    ensures PutExtended(PutExtended(es, name, v), name, u) == PutExtended(es, name, u)
  {
    hide Find, Put;
    var i := Find(es, RFC5987_KEY);
    var held := if i < |es| && es[i].value.Arr? then es[i].value.entries else [];
    var w := Arr(Put(held, name, v));
    FindPut(es, RFC5987_KEY, w);
    PutHolds(es, RFC5987_KEY, w);
    PutTwice(held, name, v, u);
    PutTwice(es, RFC5987_KEY, w, Arr(Put(held, name, u)));
  }

  lemma PutHolds(es: seq<Entry>, k: bytes, v: ParamTable.Value)
    ensures Find(es, k) < |Put(es, k, v)| && Put(es, k, v)[Find(es, k)] == Entry(k, v)
  {}

  /** The place that a value goes to: the parameter itself, or one of its arguments. */
  function PlaceOf(a: Option<Arg>): Place {
    if a.None? then InValue([]) else if a.value.said.Encoded? then InExtended(a.value.name) else InArgument(a.value.name)
  }

  function WithValue(p: Param, a: Option<Arg>, v: ParamTable.Value): Param {
    match PlaceOf(a)
    case InValue(_) => p.(value := v)
    case InArgument(n) => p.(arguments := Put(p.arguments, n, v))
    case InExtended(n) => p.(arguments := PutExtended(p.arguments, n, v))
  }

  lemma WithValueTwice(p: Param, a: Option<Arg>, v: ParamTable.Value, u: ParamTable.Value)
    ensures WithValue(WithValue(p, a, v), a, u) == WithValue(p, a, u)
  {
    hide Put, PutExtended;
    if a.Some? {
      PutTwice(p.arguments, a.value.name, v, u);
      PutExtendedTwice(p.arguments, a.value.name, v, u);
    }
  }

  lemma TargetIsSet(done: seq<Named>, k: bytes, p: Param, a: Option<Arg>, v: ParamTable.Value)
    ensures SetTarget(PutNamed(done, k, p), Target(k, PlaceOf(a)), v) == PutNamed(done, k, WithValue(p, a, v))
  {
    hide PutNamed, FindNamed, Put, PutExtended;
    PutNamedTwice(done, k, p, WithValue(p, a, v));
  }

  // ---- names and values

  /** The scan stands behind a token whose push gives parameter `k` its value so far. */
  ghost predicate Pending(input: bytes, o: Options, st: State, done: seq<Named>, k: bytes, p: Param) {
    Clear(input, st) &&
    var s := Push(input, o, st.marks, st.pos, st.store);
    s.params == PutNamed(done, k, p) && s.args == Some(k) && !s.rfc5987
  }

  /** A push has named what a value is to be given to. */
  ghost predicate HasNamed(s: Store, done: seq<Named>, k: bytes, p: Param, a: Option<Arg>, said: Said) {
    && s.params == PutNamed(done, k, WithValue(p, a, True)) && s.args == Some(k)
    && s.target == Target(k, PlaceOf(a)) && s.rfc5987 == said.Encoded?
  }

  lemma SaidSplits(x: bytes, s: Said) returns (r: bytes, w: bytes)
    requires SpellsSaid(x, s) && !s.Nothing?
    ensures EqualsRun(r) && x == r + w && (if s.Text? then SpellsValue(w, s.text) else SpellsExtended(w, s))
  {
    hide SpellsValue, SpellsExtended, EqualsRun;
    if s.Text? {
      r, w :| EqualsRun(r) && SpellsValue(w, s.text) && x == r + w;
    } else {
      r, w :| EqualsRun(r) && SpellsExtended(w, s) && x == r + w;
    }
  }

  lemma ExtendedStart(w: bytes, s: Said)
    requires s.Encoded? && SpellsExtended(w, s)
    ensures w != [] && !IsSep(w[0])
  {
    hide UrlDecode, CharsetOk, Bare, Blanks, ExtendedText;
    var a, c, enc, b :| && Blanks(a) && Blanks(b) && CharsetOk(c, s.latin1) && Bare(enc) && UrlDecode(enc) == s.raw
      && (enc != [] ==> !IsTrimmed(enc[|enc| - 1])) && w == PaddedExtended(a, c, s.language, enc, b);
    ExtendedParts(c, s.language, enc);
    CharsetStarts(c, s.latin1);
    assert w[0] == if a != [] then a[0] else c[0];
    BlankAt(a);
  }

  lemma CharsetStarts(c: bytes, latin1: bool)
    requires CharsetOk(c, latin1)
    ensures c != [] && IsBare(c[0])
  {
    hide CharsetOk;
    CharsetIsBare(c, latin1);
  }

  lemma CharsetIsBare(c: bytes, latin1: bool)
    requires CharsetOk(c, latin1)
    ensures Bare(c) && c != []
  {
    var name := if latin1 then Lit("iso-8859-1") else Lit("utf-8");
    forall i | 0 <= i < |c| ensures IsBare(c[i]) {
      assert ToLower(c[i]) == name[i];
      assert name[i] as int == (if latin1 then "iso-8859-1"[i] else "utf-8"[i]) as int % 256;
    }
  }

  lemma ExtendedIsBare(c: bytes, s: Said, enc: bytes)
    requires s.Encoded? && Bare(s.language) && CharsetOk(c, s.latin1) && Bare(enc)
    ensures Bare(ExtendedText(c, s.language, enc))
  {
    hide IsBare;
    CharsetIsBare(c, s.latin1);
    assert IsBare(APOSTROPHE) by { ApostropheIsBare(); }
    var y := s.language + ([APOSTROPHE] + enc);
    assert forall i :: 0 <= i < |y| ==> IsBare(y[i]);
  }

  lemma ApostropheIsBare() ensures IsBare(APOSTROPHE) {}

  lemma ExtendedScan(input: bytes, o: Options, st: State, w: bytes, s: Said, y: bytes)
    requires Ready(o, st) && s.Encoded? && SpellsExtended(w, s) && Clear(input, st)
    requires input[st.pos..] == w + y
    ensures Run(input, o, st) == Run(input, o, st.(pos := st.pos + |w|)) && st.pos + |w| <= |input|
    ensures input[st.pos..st.pos + |w|] == w && input[st.pos + |w|..] == y
  {
    hide Run, UrlDecode, CharsetOk, Blanks, Bare, ExtendedText;
    var a, c, enc, b :| && Blanks(a) && Blanks(b) && CharsetOk(c, s.latin1) && Bare(enc) && UrlDecode(enc) == s.raw
      && (enc != [] ==> !IsTrimmed(enc[|enc| - 1])) && w == PaddedExtended(a, c, s.language, enc, b);
    ExtendedIsBare(c, s, enc);
    BareScan(input, o, st, a, ExtendedText(c, s.language, enc), b, y);
  }

  /** Over the separator and the value, which is pushed next. */
  lemma SaidScan(input: bytes, o: Options, st: State, x: bytes, s: Said, y: bytes) returns (st': State, w: bytes)
    requires Ready(o, st) && !s.Nothing? && SpellsSaid(x, s) && (s.Text? ==> TextOk(s.text) || y == [])
    requires Clear(input, st) && st.marks.val.None? && input[st.pos..] == x + y
    requires y == [] || y[0] == COMMA || y[0] == SEMICOLON
    ensures Clear(input, st') && st'.pos == st.pos + |x| && input[st'.pos..] == y && Run(input, o, st) == Run(input, o, st')
    ensures st'.marks.val.Some? && st'.marks.val.value <= st'.pos && input[st'.marks.val.value..st'.pos] == w
    ensures st'.store == Push(input, o, st.marks, st.pos, st.store)
    ensures if s.Text? then SpellsValue(w, s.text) else SpellsExtended(w, s)
  {
    hide Step, Push, Run, Spells, SpellsOpen, SpellsExtended, EqualsRun, TextOk;
    var r: bytes;
    r, w := SaidSplits(x, s);
    SeqAssoc(r, w, y);
    if s.Text? { ValueStart(w, s.text); } else { ExtendedStart(w, s); }
    assert w + y != [] ==> (w + y)[0] == if w != [] then w[0] else y[0];
    EqualsStep(input, o, st, r, w + y);
    RunGoesOn(input, o, st);
    var st1 := Step(input, o, st);
    if s.Text? { TokenScan(input, o, st1, w, s.text, y); } else { ExtendedScan(input, o, st1, w, s, y); }
    st' := st1.(pos := st1.pos + |w|);
  }

  lemma ValueIsPushed(input: bytes, o: Options, st: State, w: bytes, s: Said)
    requires Standard(o) && Ok(input, st) && !s.Nothing?
    requires st.marks.val.Some? && input[st.marks.val.value..st.pos] == w
    requires if s.Text? then SpellsValue(w, s.text) else SpellsExtended(w, s)
    requires st.store.rfc5987 == s.Encoded? && !st.store.target.Nowhere?
    ensures Push(input, o, st.marks, st.pos, st.store)
      == st.store.(params := SetTarget(st.store.params, st.store.target, Value(s)), rfc5987 := false)
  {
    hide SpellsValue, SetTarget, SanitizeValue, SpellsExtended;
    if s.Text? {
      TextReads(o, w, s.text);
      ValueStart(w, s.text);
    } else {
      ExtendedReads(o, w, s);
      ExtendedStart(w, s);
    }
  }

  /** From behind a name whose push sets the value to true, over the value if there is one. */
  lemma ValueScan(input: bytes, o: Options, st: State, x: bytes, s: Said, y: bytes,
                  done: seq<Named>, k: bytes, p: Param, a: Option<Arg>) returns (st': State)
    requires Ready(o, st) && SpellsSaid(x, s) && AllFit(SaidWords(s), y == [])
    requires Clear(input, st) && st.marks.val.None? && input[st.pos..] == x + y
    requires y == [] || y[0] == COMMA || y[0] == SEMICOLON
    requires HasNamed(Push(input, o, st.marks, st.pos, st.store), done, k, p, a, s)
    ensures Pending(input, o, st', done, k, WithValue(p, a, Value(s)))
    ensures Run(input, o, st) == Run(input, o, st') && st'.pos == st.pos + |x| && input[st'.pos..] == y
  {
    hide Step, Run, SetTarget, PushArgument, PushParam, PushValue, PutNamed, WithValue, PlaceOf, SpellsValue, SpellsExtended;
    if s.Nothing? {
      st' := st;
      assert x + y == y;
    } else {
      assert s.Text? ==> TextOk(s.text) || y == [] by { if s.Text? { assert SaidWords(s)[0] == s.text; } }
      var w: bytes;
      st', w := SaidScan(input, o, st, x, s, y);
      TargetIsSet(done, k, WithValue(p, a, True), a, Value(s));
      WithValueTwice(p, a, True, Value(s));
      ValueIsPushed(input, o, st', w, s);
    }
  }

  lemma NamedSplits(x: bytes, name: bytes, s: Said) returns (w: bytes, u: bytes)
    requires SpellsNamed(x, name, s)
    ensures Spells(w, NameText(name, s)) && SpellsSaid(u, s) && x == w + u
  {
    hide Spells, SpellsSaid;
    w, u :| Spells(w, NameText(name, s)) && SpellsSaid(u, s) && x == w + u;
  }

  lemma NameTextIsNot(name: bytes, s: Said)
    requires ArgOk(Arg(name, s))
    ensures NameText(name, s) != []
  {}

  lemma NamedStart(x: bytes, name: bytes, s: Said)
    requires SpellsNamed(x, name, s) && ArgOk(Arg(name, s))
    ensures x != [] && !IsSep(x[0]) && x[0] != BACKSLASH
  {
    hide Spells, SpellsSaid, SpellsNamed;
    var w, u := NamedSplits(x, name, s);
    NameTextIsNot(name, s);
    WordStart(w, NameText(name, s));
  }

  /** What is behind a name: its value, or what follows that; a name that does not end properly is the last word. */
  lemma NameFits(name: bytes, s: Said, u: bytes, y: bytes)
    requires AllFit(NamedWords(name, s), y == []) && SpellsSaid(u, s)
    ensures TextOk(NameText(name, s)) || u + y == []
    ensures AllFit(SaidWords(s), y == [])
  {
    hide TextOk, SpellsValue, SpellsExtended;
    FitSplits([NameText(name, s)], SaidWords(s), y == []);
    assert NamedWords(name, s)[0] == NameText(name, s);
    if s.Encoded? { StarFits(name, s); }
  }

  lemma StarFits(name: bytes, s: Said) requires s.Encoded? ensures TextOk(NameText(name, s)) {}

  lemma SaidStart(u: bytes, s: Said, y: bytes)
    requires SpellsSaid(u, s)
    ensures s.Nothing? ==> u == []
    ensures !s.Nothing? ==> u != [] && u[0] == EQUALS
  {
    hide SpellsValue, SpellsExtended;
    if !s.Nothing? { var r, w := SaidSplits(u, s); }
  }

  lemma NameIsPushed(o: Options, st: Store, w: bytes, name: bytes, s: Said)
    requires o == Defaults(o.maxNesting) && ArgOk(Arg(name, s)) && Spells(w, NameText(name, s))
    ensures HasNamed(PushParam(o, st, w), st.params, name, Param(s.Encoded?, True, []), None, s)
  {
    hide SanitizeKey, PutNamed, Spells;
    KeyReads(o, w, name, s);
    NameTextIsNot(name, s);
    WordStart(w, NameText(name, s));
    assert name != [] by { NameIsNot(name, s); }
  }

  lemma NameIsNot(name: bytes, s: Said) requires ArgOk(Arg(name, s)) ensures name != [] {}

  /** A parameter's name and value. */
  lemma NameScan(input: bytes, o: Options, st: State, x: bytes, name: bytes, s: Said, y: bytes) returns (st': State)
    requires o == Defaults(o.maxNesting) && ArgOk(Arg(name, s)) && SpellsNamed(x, name, s)
    requires AllFit(NamedWords(name, s), y == [])
    requires Clear(input, st) && st.marks == Marks(Some(st.pos), None, None) && input[st.pos..] == x + y
    requires y == [] || y[0] == COMMA || y[0] == SEMICOLON
    ensures Pending(input, o, st', st.store.params, name, Param(s.Encoded?, Value(s), []))
    ensures Run(input, o, st) == Run(input, o, st') && st'.pos == st.pos + |x| && input[st'.pos..] == y
  {
    hide Step, Run, Spells, SpellsSaid, SpellsNamed, PushArgument, PushValue, PushParam, AllFit, TextOk, HasNamed, ArgOk;
    var w, u := NamedSplits(x, name, s);
    NameFits(name, s, u, y);
    SeqAssoc(w, u, y);
    TokenScan(input, o, st, w, NameText(name, s), u + y);
    var st1 := st.(pos := st.pos + |w|);
    NameIsPushed(o, st.store, w, name, s);
    st' := ValueScan(input, o, st1, u, s, y, st.store.params, name, Param(s.Encoded?, True, []), None);
  }

  lemma ArgumentIsPushed(o: Options, st: Store, w: bytes, done: seq<Named>, k: bytes, p: Param, a: Arg)
    requires Standard(o) && ArgOk(a) && Spells(w, NameText(a.name, a.said))
    requires st.params == PutNamed(done, k, p) && st.args == Some(k)
    ensures HasNamed(PushArgument(o, st, w), done, k, p, Some(a), a.said)
  {
    hide SanitizeKey, PutNamed, Spells, SetTarget, WithValue;
    KeyReads(o, w, a.name, a.said);
    NameTextIsNot(a.name, a.said);
    WordStart(w, NameText(a.name, a.said));
    NameIsNot(a.name, a.said);
    TargetIsSet(done, k, p, Some(a), True);
  }

  lemma ArgSplits(x: bytes, a: Arg) returns (r: bytes, w: bytes, u: bytes)
    requires SpellsArg(x, a)
    ensures SemicolonRun(r) && Spells(w, NameText(a.name, a.said)) && SpellsSaid(u, a.said) && x == r + (w + u)
  {
    hide Spells, SpellsSaid, SpellsNamed, SemicolonRun;
    var n: bytes;
    r, n :| SemicolonRun(r) && SpellsNamed(n, a.name, a.said) && x == r + n;
    w, u := NamedSplits(n, a.name, a.said);
  }

  /** One argument: what is pending goes into the table and the argument is next. */
  lemma ArgumentScan(input: bytes, o: Options, st: State, x: bytes, a: Arg, y: bytes,
                     done: seq<Named>, k: bytes, p: Param) returns (st': State)
    requires Standard(o) && ArgOk(a) && SpellsArg(x, a) && AllFit(NamedWords(a.name, a.said), y == [])
    requires Pending(input, o, st, done, k, p) && input[st.pos..] == x + y
    requires y == [] || y[0] == COMMA || y[0] == SEMICOLON
    ensures Pending(input, o, st', done, k, WithValue(p, Some(a), Value(a.said)))
    ensures Run(input, o, st) == Run(input, o, st') && st'.pos == st.pos + |x| && input[st'.pos..] == y
  {
    hide Step, Run, Spells, SpellsSaid, PushArgument, PushValue, PushParam, AllFit, TextOk, HasNamed, ArgOk, SpellsArg,
      SemicolonRun, WithValue;
    var r, w, u := ArgSplits(x, a);
    NameFits(a.name, a.said, u, y);
    assert x + y == r + (w + (u + y));
    NameTextIsNot(a.name, a.said);
    WordStart(w, NameText(a.name, a.said));
    SemicolonStep(input, o, st, r, w + (u + y));
    RunGoesOn(input, o, st);
    var st1 := Step(input, o, st);
    TokenScan(input, o, st1, w, NameText(a.name, a.said), u + y);
    var st2 := st1.(pos := st1.pos + |w|);
    ArgumentIsPushed(o, st1.store, w, done, k, p, a);
    st' := ValueScan(input, o, st2, u, a.said, y, done, k, p, Some(a));
  }

  lemma ArgsSplit(x: bytes, args: seq<Arg>) returns (y: bytes, z: bytes)
    requires SpellsArgs(x, args) && args != []
    ensures SpellsArg(y, args[0]) && SpellsArgs(z, args[1..]) && x == y + z
  {
    hide SpellsArg;
    y, z :| SpellsArg(y, args[0]) && SpellsArgs(z, args[1..]) && x == y + z;
  }

  lemma ArgsStart(x: bytes, args: seq<Arg>)
    requires SpellsArgs(x, args)
    ensures (x == [] <==> args == []) && (x != [] ==> x[0] == SEMICOLON)
  {
    hide Spells, SpellsSaid;
    if args != [] {
      var y, z := ArgsSplit(x, args);
      var r, w, u := ArgSplits(y, args[0]);
      assert x[0] == r[0];
    }
  }

  lemma ArgsWordsEmptyIff(args: seq<Arg>) ensures ArgsWords(args) == [] <==> args == [] {}

  lemma {:induction false} ArgumentsScan(input: bytes, o: Options, st: State, x: bytes, args: seq<Arg>, y: bytes,
                                         done: seq<Named>, k: bytes, p: Param) returns (st': State)
    requires Standard(o) && SpellsArgs(x, args) && AllFit(ArgsWords(args), y == [])
    requires forall j :: 0 <= j < |args| ==> ArgOk(args[j])
    requires Pending(input, o, st, done, k, p) && input[st.pos..] == x + y && (y == [] || y[0] == COMMA)
    ensures Pending(input, o, st', done, k, p.(arguments := PutArgs(p.arguments, args)))
    ensures Run(input, o, st) == Run(input, o, st') && st'.pos == st.pos + |x| && input[st'.pos..] == y
    decreases |args|
  {
    hide Pending, Run, AllFit, ArgOk, NamedWords, Put, PutExtended, SpellsArg, SpellsArgs;
    if args == [] {
      st' := st;
      ArgsStart(x, args);
      assert x + y == y;
    } else {
      var a := args[0];
      var x0, z := ArgsSplit(x, args);
      SeqAssoc(x0, z, y);
      ArgsStart(z, args[1..]);
      FitSplits(NamedWords(a.name, a.said), ArgsWords(args[1..]), y == []);
      ArgsWordsEmptyIff(args[1..]);
      var st1 := ArgumentScan(input, o, st, x0, a, z + y, done, k, p);
      st' := ArgumentsScan(input, o, st1, z, args[1..], y, done, k, WithValue(p, Some(a), Value(a.said)));
    }
  }

  // ---- whole texts

  lemma ItemSplits(x: bytes, i: Item) returns (y: bytes, z: bytes)
    requires SpellsItem(x, i)
    ensures SpellsNamed(y, i.name, i.said) && SpellsArgs(z, i.args) && x == y + z
  {
    hide SpellsNamed, SpellsArgs;
    y, z :| SpellsNamed(y, i.name, i.said) && SpellsArgs(z, i.args) && x == y + z;
  }

  lemma ItemIsNamed(i: Item) requires ItemOk(i) ensures ArgOk(Arg(i.name, i.said)) { hide ArgOk; }

  lemma ItemScan(input: bytes, o: Options, st: State, x: bytes, i: Item, y: bytes) returns (st': State)
    requires o == Defaults(o.maxNesting) && ItemOk(i) && SpellsItem(x, i) && AllFit(ItemWords(i), y == [])
    requires Clear(input, st) && st.marks == Marks(Some(st.pos), None, None) && input[st.pos..] == x + y
    requires y == [] || y[0] == COMMA
    ensures Pending(input, o, st', st.store.params, i.name, ParamOf(i))
    ensures Run(input, o, st) == Run(input, o, st') && st'.pos == st.pos + |x| && input[st'.pos..] == y
  {
    hide Push, Run, AllFit, ArgOk, NamedWords, PutArgs, SpellsNamed, SpellsArgs, SpellsItem;
    var x0, z := ItemSplits(x, i);
    SeqAssoc(x0, z, y);
    FitSplits(NamedWords(i.name, i.said), ArgsWords(i.args), y == []);
    ArgsWordsEmptyIff(i.args);
    ArgsStart(z, i.args);
    var st1 := NameScan(input, o, st, x0, i.name, i.said, z + y);
    st' := ArgumentsScan(input, o, st1, z, i.args, y, st.store.params, i.name, Param(i.said.Encoded?, Value(i.said), []));
  }

  lemma ItemStart(x: bytes, i: Item)
    requires SpellsItem(x, i) && ItemOk(i)
    ensures x != [] && !IsSep(x[0]) && x[0] != BACKSLASH
  {
    hide SpellsNamed, SpellsArgs, SpellsItem, ArgOk;
    var y, z := ItemSplits(x, i);
    NamedStart(y, i.name, i.said);
  }

  lemma ItemsSplit(x: bytes, items: seq<Item>) returns (y: bytes, r: bytes, z: bytes)
    requires SpellsItems(x, items) && |items| > 1
    ensures SpellsItem(y, items[0]) && CommaRun(r) && SpellsItems(z, items[1..]) && x == y + (r + z)
  {
    hide SpellsItem, CommaRun;
    y, r, z :| SpellsItem(y, items[0]) && CommaRun(r) && SpellsItems(z, items[1..]) && x == y + (r + z);
  }

  lemma ItemsStart(x: bytes, items: seq<Item>)
    requires SpellsItems(x, items) && items != [] && ItemOk(items[0])
    ensures x != [] && !IsSep(x[0]) && x[0] != BACKSLASH
  {
    hide SpellsItem, ItemOk, CommaRun;
    if |items| == 1 {
      ItemStart(x, items[0]);
    } else {
      var y, r, z := ItemsSplit(x, items);
      ItemStart(y, items[0]);
    }
  }

  lemma WordsEmptyIff(items: seq<Item>) ensures Words(items) == [] <==> items == [] {}

  lemma LastItem(x: bytes, items: seq<Item>)
    requires SpellsItems(x, items) && |items| == 1
    ensures SpellsItem(x, items[0]) && items[1..] == [] && Words(items) == ItemWords(items[0])
  {
    hide SpellsItem, ItemWords;
    assert ItemWords(items[0]) + [] == ItemWords(items[0]);
  }

  lemma PendingEnds(input: bytes, o: Options, st: State, done: seq<Named>, k: bytes, p: Param)
    requires Pending(input, o, st, done, k, p) && st.pos == |input|
    ensures Run(input, o, st).params == PutNamed(done, k, p)
  {
    hide Push, PutNamed;
    RunEnds(input, o, st);
  }

  lemma {:induction false} ItemsScan(input: bytes, o: Options, st: State, x: bytes, items: seq<Item>)
    requires o == Defaults(o.maxNesting) && SpellsItems(x, items) && items != [] && AllFit(Words(items), true)
    requires forall j :: 0 <= j < |items| ==> ItemOk(items[j])
    requires Clear(input, st) && st.marks == Marks(Some(st.pos), None, None) && input[st.pos..] == x
    ensures Run(input, o, st).params == PutItems(st.store.params, items)
    decreases |items|
  {
    hide Run, Step, AllFit, ItemOk, ItemWords, SpellsItem, SpellsItems, ParamOf, CommaRun, PutNamed, Push;
    var i := items[0];
    if |items| == 1 {
      LastItem(x, items);
      assert x + [] == x;
      var st1 := ItemScan(input, o, st, x, i, []);
      PendingEnds(input, o, st1, st.store.params, i.name, ParamOf(i));
    } else {
      var y, r, z := ItemsSplit(x, items);
      FitSplits(ItemWords(i), Words(items[1..]), true);
      WordsEmptyIff(items[1..]);
      assert (r + z)[0] == COMMA by { CommaStarts(r); }
      var st1 := ItemScan(input, o, st, y, i, r + z);
      ItemsStart(z, items[1..]);
      CommaStep(input, o, st1, r, z);
      RunGoesOn(input, o, st1);
      ItemsScan(input, o, Step(input, o, st1), z, items[1..]);
    }
  }

  lemma CommaStarts(r: bytes) requires CommaRun(r) ensures r != [] && r[0] == COMMA {}

  /** The first pass sets the mark and moves on, as if the mark had been set. */
  lemma FirstPass(input: bytes, o: Options)
    requires Standard(o) && !o.flags.rfc5988
    requires input != [] && !IsSep(input[0]) && input[0] != BACKSLASH
    ensures Run(input, o, Start) == Run(input, o, Start.(marks := Marks(Some(0), None, None)))
  {
    hide Push, SepAt, SkipSeps;
    NoSkip(input, 0, o.param + o.arg + o.val, input[0] != QUOTE);
    var st := Start.(marks := Marks(Some(0), None, None));
    if input[0] == QUOTE {
      OpenStep(input, o, st);
    } else {
      PlainStep(input, o, st);
    }
  }

  /** A name alone gets the default value, whatever that is. */
  lemma DefaultIsGiven(w: bytes, name: bytes, o: Options)
    requires Standard(o) && !o.flags.rfc5988 && NameOk(name) && Spells(w, name)
    ensures Parse(w, o) == [Named(name, Param(false, o.default, []))]
  {
    hide Step, Run, Spells, PutNamed;
    WordStart(w, name);
    FirstPass(w, o);
    assert w[0..] == w && w + [] == w;
    var st := Start.(marks := Marks(Some(0), None, None));
    TokenScan(w, o, st, w, name, []);
    RunEnds(w, o, st.(pos := |w|));
    KeyReads(o, w, name, Nothing);
    PutAtEnd([], name, Param(false, o.default, []), Param(false, o.default, []));
  }

  /**
   * However parameters are spelled, the text is parsed into what they say: white space around names
   * and values is taken off, quotes and escapes are undone, a value may hold equals signs, repeated
   * separators count once, extended values are decoded, and what is said again replaces what was said
   * before. Names and texts that end in a backslash are excepted, but for the last one.
   */
  lemma SpelledItemsParse(x: bytes, items: seq<Item>, maxNesting: nat)
    requires SpellsItems(x, items) && AllFit(Words(items), true) && forall j :: 0 <= j < |items| ==> ItemOk(items[j])
    ensures Parse(x, Defaults(maxNesting)) == PutItems([], items)
  {
    hide Step, AllFit, ItemOk, SpellsItem, Words, Run, ParamOf;
    var o := Defaults(maxNesting);
    if items == [] {
      NothingParses(o);
    } else {
      ItemsStart(x, items);
      FirstPass(x, o);
      assert x[0..] == x;
      ItemsScan(x, o, Start.(marks := Marks(Some(0), None, None)), x, items);
    }
  }

  lemma NothingParses(o: Options) ensures Parse([], o) == [] {}
}
