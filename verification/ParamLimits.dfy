/** How far the round trip of parameters reaches: the tokenizer and a name or text that ends in a backslash. */
module ParamLimits {
  import opened Bytes
  import opened ParamText
  import opened ParamTable
  import opened ParamParser
  import opened ParamPrinter
  import opened ParamGrammar
  import opened ParamRoundTrip

  // ---- tables without extended parameters

  ghost predicate PlainArgs(es: seq<Entry>) {
    Distinct(es) && forall i :: 0 <= i < |es| ==> NameOk(es[i].key) && Simple(es[i].value)
  }

  ghost predicate AllSimple(es: seq<Entry>) { forall i :: 0 <= i < |es| ==> Simple(es[i].value) }

  ghost predicate PlainParam(p: Param) { !p.extended && Simple(p.value) && PlainArgs(p.arguments) }

  ghost predicate PlainTable(ps: seq<Named>) {
    && (forall i :: 0 <= i < |ps| ==> NameOk(ps[i].key) && PlainParam(ps[i].param))
    && (forall i, j :: 0 <= i < j < |ps| ==> ps[i].key != ps[j].key)
  }

  lemma {:induction false} PlainIsFlat(es: seq<Entry>)
    requires forall i :: 0 <= i < |es| ==> Simple(es[i].value)
    ensures Flat(es) == es
  {
    if es != [] { PlainIsFlat(es[1..]); }
  }

  lemma ParamIsSimple(n: Named)
    requires PlainParam(n.param)
    ensures Simple(n.param.value) && AllSimple(n.param.arguments)
  {
    hide NameOk;
  }

  lemma NameIsNotMark(k: bytes) requires NameOk(k) ensures k != RFC5987_KEY {}

  lemma PlainIsOk(n: Named)
    requires NameOk(n.key) && PlainParam(n.param)
    ensures ParamOk(n.key, n.param)
    ensures OneText(n) == (Q(n.key) + ValueText(n.param.value)) + ArgsText(n.param.arguments)
  {
    hide Quote, ArgsText, ValueText, NameOk;
    var es := n.param.arguments;
    PlainIsFlat(es);
    forall i | 0 <= i < |es| ensures EntryOk(es[i]) { NameIsNotMark(es[i].key); }
  }

  function ValueTokens(v: Value): seq<bytes> { if v.Str? then [v.text] else [] }

  function EntryTokens(e: Entry): seq<bytes> { [e.key] + ValueTokens(e.value) }

  function ArgsTokens(es: seq<Entry>): seq<bytes> { if es == [] then [] else EntryTokens(es[0]) + ArgsTokens(es[1..]) }

  function ParamTokens(n: Named): seq<bytes> { [n.key] + ValueTokens(n.param.value) + ArgsTokens(n.param.arguments) }

  function TableTokens(ps: seq<Named>): seq<bytes> { if ps == [] then [] else ParamTokens(ps[0]) + TableTokens(ps[1..]) }

  lemma NamedTokens(k: bytes, v: Value)
    requires Simple(v)
    ensures NamedWords(k, SaidOf(v)) == [k] + ValueTokens(v) && SaidWords(SaidOf(v)) == ValueTokens(v)
  {}

  lemma {:induction false} ArgsTokensAre(es: seq<Entry>)
    requires forall i :: 0 <= i < |es| ==> Simple(es[i].value)
    ensures ArgsWords(ArgsOf(es)) == ArgsTokens(es)
  {
    if es != [] {
      ArgsTokensAre(es[1..]);
      NamedTokens(es[0].key, es[0].value);
      assert ArgsOf(es)[0] == ArgOf(es[0]) && ArgsOf(es)[1..] == ArgsOf(es[1..]);
    }
  }

  lemma ParamTokensAre(n: Named)
    requires PlainParam(n.param)
    ensures ItemWords(ItemOf(n)) == ParamTokens(n)
  {
    PlainIsFlat(n.param.arguments);
    ArgsTokensAre(n.param.arguments);
    NamedTokens(n.key, n.param.value);
  }

  lemma {:induction false} TokensAre(ps: seq<Named>)
    requires forall i :: 0 <= i < |ps| ==> PlainParam(ps[i].param)
    ensures Tokens(ps) == TableTokens(ps)
  {
    hide ItemWords, ItemOf, ParamTokens, PlainParam;
    if ps != [] {
      TokensAre(ps[1..]);
      ParamTokensAre(ps[0]);
      assert ItemsOf(ps)[0] == ItemOf(ps[0]) && ItemsOf(ps)[1..] == ItemsOf(ps[1..]);
    }
  }

  // ---- texts without quotes

  ghost predicate Unquoted(ts: seq<bytes>) { forall i :: 0 <= i < |ts| ==> !NeedsQuotes(ts[i]) }

  lemma UnquotedSplits(xs: seq<bytes>, ys: seq<bytes>)
    requires Unquoted(xs + ys)
    ensures Unquoted(xs) && Unquoted(ys)
  {
    hide NeedsQuotes;
    assert forall i :: 0 <= i < |xs| ==> (xs + ys)[i] == xs[i];
    assert forall i :: 0 <= i < |ys| ==> (xs + ys)[|xs| + i] == ys[i];
  }

  lemma PlainHasNoQuote(t: bytes)
    requires !NeedsQuotes(t)
    ensures QUOTE !in Q(t) && TextOk(t)
  {
    hide Escape, Unescape;
    UnescapedIsPlain(t);
  }

  lemma ValueHasNoQuote(v: Value)
    requires Unquoted(ValueTokens(v)) && Simple(v)
    ensures QUOTE !in ValueText(v)
  {
    hide NeedsQuotes, Quote;
    if v.Str? {
      assert ValueTokens(v)[0] == v.text;
      PlainHasNoQuote(v.text);
    }
  }

  lemma {:induction false} ArgsHaveNoQuote(es: seq<Entry>)
    requires Unquoted(ArgsTokens(es)) && AllSimple(es)
    ensures QUOTE !in ArgsText(es)
  {
    hide NeedsQuotes, Quote, Unquoted, ValueText;
    if es != [] {
      var e := es[0];
      UnquotedSplits(EntryTokens(e), ArgsTokens(es[1..]));
      UnquotedSplits([e.key], ValueTokens(e.value));
      NameHasNoQuote(e.key);
      ValueHasNoQuote(e.value);
      ArgsHaveNoQuote(es[1..]);
    }
  }

  lemma NameHasNoQuote(k: bytes)
    requires Unquoted([k])
    ensures QUOTE !in Q(k)
  {
    hide NeedsQuotes, Quote;
    assert [k][0] == k;
    PlainHasNoQuote(k);
  }

  lemma ParamHasNoQuote(n: Named)
    requires Unquoted(ParamTokens(n)) && PlainParam(n.param)
    ensures QUOTE !in OneText(n)
  {
    hide NeedsQuotes, Quote, Unquoted, ValueText, ArgsText;
    var es := n.param.arguments;
    UnquotedSplits([n.key] + ValueTokens(n.param.value), ArgsTokens(es));
    UnquotedSplits([n.key], ValueTokens(n.param.value));
    NameHasNoQuote(n.key);
    ValueHasNoQuote(n.param.value);
    ArgsHaveNoQuote(es);
    PlainIsFlat(es);
  }

  lemma {:induction false} TableHasNoQuote(ps: seq<Named>)
    requires Unquoted(TableTokens(ps)) && forall i :: 0 <= i < |ps| ==> PlainParam(ps[i].param)
    ensures QUOTE !in TableText(ps)
  {
    hide Unquoted, OneText, ParamTokens, PlainParam;
    if ps != [] {
      UnquotedSplits(ParamTokens(ps[0]), TableTokens(ps[1..]));
      ParamHasNoQuote(ps[0]);
      TableHasNoQuote(ps[1..]);
    }
  }

  // ---- one token that swallows the rest

  lemma {:induction false} NoQuoteStaysQuoted(e: bytes, escape: bool)
    requires QUOTE !in e
    ensures StaysQuoted(e, escape)
    decreases |e|
  {
    if e != [] { NoQuoteStaysQuoted(e[1..], e[0] == BACKSLASH); }
  }

  lemma SwallowedText(t: bytes, y: bytes) returns (e: bytes)
    requires !TextOk(t) && QUOTE !in y
    ensures e != [] && StaysQuoted(e, false) && Q(t) + y == [QUOTE] + (e + [])
  {
    hide Escape, StaysQuoted, TextOk, NeedsQuotes;
    ClosingQuoteIsMissed(t);
    var f := Escape(t) + [QUOTE];
    e := f + y;
    assert f[|f| - 1] == QUOTE;
    NoQuoteStaysQuoted(y, false);
    StaysQuotedConcat(f, y, false);
    assert Q(t) == [QUOTE] + f;
    assert Q(t) + y == [QUOTE] + (e + []);
  }

  /** A token whose closing quote is missed takes all of the rest that holds no quote. */
  lemma Swallows(input: bytes, o: Options, st: State, t: bytes, y: bytes)
    requires o == Defaults(o.maxNesting) && Clear(input, st) && !TextOk(t) && QUOTE !in y
    requires input[st.pos..] == Q(t) + y
    ensures Run(input, o, st) == Push(input, o, st.marks, |input|, st.store)
  {
    hide Step, Push, Run, Quote, StaysQuoted, TextOk;
    var e := SwallowedText(t, y);
    PeelAfter(input, st.pos, QUOTE, e, []);
    OpenStep(input, o, st);
    RunGoesOn(input, o, st);
    var st1 := st.(pos := st.pos + 1, quotes := true);
    QuotedScan(input, o, st1, e, []);
    RunEnds(input, o, st1.(pos := |input|, escape := e[|e| - 1] == BACKSLASH));
  }

  /** What is read is shorter than the table, or ends in a parameter with less to it. */
  ghost predicate Broken(r: seq<Named>, done: seq<Named>, n: Named, last: bool) {
    |r| <= |done| + 1 && (last ==> r != done + [n])
  }

  lemma NameSwallows(o: Options, s: Store, n: Named, text: bytes)
    requires o == Defaults(o.maxNesting) && (n.param.value.Str? || n.param.arguments != [])
    ensures Broken(PushParam(o, s, text).params, s.params, n, true)
  {
    hide SanitizeKey, FindNamed;
    KeyIsPlain(o, text);
    var (key, star) := SanitizeKey(o, text);
    if text != [] && key.text != [] {
      var i := FindNamed(s.params, key.text);
      if i == |s.params| {
        assert (s.params + [n])[i] == n;
      }
    }
  }

  lemma KeyIsPlain(o: Options, text: bytes)
    requires o == Defaults(o.maxNesting)
    ensures SanitizeKey(o, text).0.Plain?
  {
    hide Trim, SanitizeEscaped;
  }

  /** The value that is read takes the place of the one that the name has got. */
  lemma ValueSwallows(o: Options, s: Store, done: seq<Named>, k: bytes, p: Param, name: Option<Arg>, text: bytes)
    requires o == Defaults(o.maxNesting) && Fresh(done, k)
    requires s.params == done + [Named(k, p)] && s.target == Target(k, PlaceOf(name))
    ensures exists v :: PushValue(o, s, text).params == done + [Named(k, WithValue(p, name, v))]
  {
    hide SanitizeValue, SetTarget, WithValue;
    var v := if text == [] then Str([]) else SanitizeValue(o, text, s.rfc5987);
    EndIsSet(done, k, p, name, v);
    assert PushValue(o, s, text).params == done + [Named(k, WithValue(p, name, v))];
  }

  lemma ArgumentSwallows(o: Options, s: Store, done: seq<Named>, k: bytes, p: Param, es: seq<Entry>, text: bytes)
    requires o == Defaults(o.maxNesting) && Fresh(done, k) && es != [] && (es[0].value.Str? || |es| > 1)
    requires s.params == done + [Named(k, p)] && s.args == Some(k)
    ensures Broken(PushArgument(o, s, text).params, done, Named(k, p.(arguments := p.arguments + es)), true)
  {
    hide SanitizeKey, FindNamed, SetTarget;
    KeyIsPlain(o, text);
    var (key, star) := SanitizeKey(o, text);
    var goal := Named(k, p.(arguments := p.arguments + es));
    var r := PushArgument(o, s, text).params;
    assert (done + [goal])[|done|] == goal;
    assert |goal.param.arguments| > |p.arguments|;
    if text != [] && key.text != [] {
      var place := if star then InExtended(key.text) else InArgument(key.text);
      var args := if star then PutExtended(p.arguments, key.text, True) else Put(p.arguments, key.text, True);
      assert r == done + [Named(k, p.(arguments := args))] by { PlaceIsSet(done, k, p, place); }
      assert r[|done|].param.arguments == args;
      NewEntryHasNoText(p.arguments, key.text, star);
      assert |args| == |p.arguments| + 1 ==> !args[|p.arguments|].value.Str?;
      assert (p.arguments + es)[|p.arguments|] == es[0];
    } else {
      assert r[|done|] == Named(k, p);
    }
  }

  lemma EndIsSet(done: seq<Named>, k: bytes, p: Param, a: Option<Arg>, v: Value)
    requires Fresh(done, k)
    ensures SetTarget(done + [Named(k, p)], Target(k, PlaceOf(a)), v) == done + [Named(k, WithValue(p, a, v))]
  {
    hide SetTarget, WithValue, PutNamed;
    PutAtEnd(done, k, p, p);
    PutAtEnd(done, k, WithValue(p, a, v), p);
    TargetIsSet(done, k, p, a, v);
  }

  lemma PendingAtEnd(input: bytes, o: Options, st: State, done: seq<Named>, k: bytes, p: Param)
    requires Pending(input, o, st, done, k, p) && Fresh(done, k)
    ensures Clear(input, st)
    ensures var s := Push(input, o, st.marks, st.pos, st.store); s.params == done + [Named(k, p)] && s.args == Some(k)
  {
    hide Push, PutNamed;
    PutAtEnd(done, k, p, p);
  }

  lemma NewArgument(p: Param, e: Entry)
    requires forall i :: 0 <= i < |p.arguments| ==> p.arguments[i].key != e.key
    ensures WithValue(p, Some(Arg(e.key, Nothing)), e.value) == p.(arguments := p.arguments + [e])
  {
    PutNew(p.arguments, e.key, e.value);
  }

  /** Over a semicolon and the token behind it. */
  lemma AfterSemicolon(input: bytes, o: Options, st: State, t: bytes, y: bytes) returns (st': State)
    requires o == Defaults(o.maxNesting) && TextOk(t) && t != [] && Clear(input, st)
    requires input[st.pos..] == [SEMICOLON] + (Q(t) + y)
    ensures Clear(input, st') && st'.pos == st.pos + 1 + |Q(t)|
    ensures st'.marks == st.marks.(arg := Some(st.pos + 1), val := None)
    ensures st'.store == Push(input, o, st.marks, st.pos, st.store)
    ensures Run(input, o, st) == Run(input, o, st')
    ensures input[st.pos + 1..st'.pos] == Q(t) && input[st'.pos..] == y
  {
    hide Step, Push, Quote, Run, TextOk;
    QuoteStarts(t, false);
    PlainSpells(t);
    SemicolonStep(input, o, st, [SEMICOLON], Q(t) + y);
    RunGoesOn(input, o, st);
    var st1 := Step(input, o, st);
    TokenScan(input, o, st1, Q(t), t, y);
    st' := st1.(pos := st1.pos + |Q(t)|);
  }

  lemma PlaceIsSet(done: seq<Named>, k: bytes, p: Param, place: Place)
    requires Fresh(done, k) && !place.InValue?
    ensures SetTarget(done + [Named(k, p)], Target(k, place), True) == done + [Named(k, p.(arguments :=
      if place.InExtended? then PutExtended(p.arguments, place.name, True) else Put(p.arguments, place.name, True)))]
  {
    hide Put, PutExtended;
    PutAtEnd(done, k, p, p.(arguments :=
      if place.InExtended? then PutExtended(p.arguments, place.name, True) else Put(p.arguments, place.name, True)));
  }

  lemma NewEntryHasNoText(args: seq<Entry>, name: bytes, star: bool)
    ensures var r := if star then PutExtended(args, name, True) else Put(args, name, True);
      |args| <= |r| <= |args| + 1 && (|r| == |args| + 1 ==> !r[|args|].value.Str?)
  {
    hide Find;
  }

  // ---- a table with such a token

  /** Token `j` ends in a backslash, none before it does, and nothing behind it is quoted. */
  ghost predicate BadAt(ts: seq<bytes>, j: nat) {
    && j < |ts| && !TextOk(ts[j])
    && (forall i :: 0 <= i < j ==> TextOk(ts[i])) && (forall i :: j < i < |ts| ==> !NeedsQuotes(ts[i]))
  }

  lemma BadSplits(xs: seq<bytes>, ys: seq<bytes>, j: nat)
    requires BadAt(xs + ys, j)
    ensures j < |xs| ==> BadAt(xs, j) && Unquoted(ys)
    ensures j >= |xs| ==> AllFit(xs, false) && BadAt(ys, j - |xs|)
  {
    hide TextOk, NeedsQuotes;
    assert forall i :: 0 <= i < |xs| ==> (xs + ys)[i] == xs[i];
    assert forall i :: 0 <= i < |ys| ==> (xs + ys)[|xs| + i] == ys[i];
  }

  lemma BadName(k: bytes, ts: seq<bytes>, j: nat)
    requires BadAt([k] + ts, j)
    ensures j == 0 ==> !TextOk(k) && Unquoted(ts)
    ensures j > 0 ==> TextOk(k) && BadAt(ts, j - 1)
  {
    hide TextOk, NeedsQuotes;
    BadSplits([k], ts, j);
    assert [k][0] == k;
  }

  /** A value takes the rest. */
  lemma ValueBreaks(input: bytes, o: Options, st: State, done: seq<Named>, k: bytes, p: Param, name: Option<Arg>,
                    t: bytes, y: bytes)
    requires o == Defaults(o.maxNesting) && Fresh(done, k) && !TextOk(t) && QUOTE !in y
    requires Clear(input, st) && st.marks.val.None? && input[st.pos..] == [EQUALS] + (Q(t) + y)
    requires var s := Push(input, o, st.marks, st.pos, st.store);
      s.params == done + [Named(k, p)] && s.target == Target(k, PlaceOf(name))
    ensures exists v :: Run(input, o, st).params == done + [Named(k, WithValue(p, name, v))]
  {
    hide Step, Run, Quote, PushParam, PushArgument, PushValue, TextOk, WithValue;
    PeelAfter(input, st.pos, EQUALS, Q(t), y);
    BadIsNotEmpty(t);
    QuoteStarts(t, false);
    EqualsStep(input, o, st, [EQUALS], Q(t) + y);
    RunGoesOn(input, o, st);
    var st1 := Step(input, o, st);
    Swallows(input, o, st1, t, y);
    ValueSwallows(o, st1.store, done, k, p, name, input[st1.pos..|input|]);
  }

  lemma BadIsNotEmpty(t: bytes) requires !TextOk(t) ensures t != [] {}
  lemma NameIsNotEmpty(k: bytes) requires NameOk(k) ensures k != [] {}

  lemma NameIsPushed(o: Options, s: Store, done: seq<Named>, k: bytes, p: Param, name: bytes)
    requires o == Defaults(o.maxNesting) && NameOk(name) && Fresh(done, k)
    requires s.params == done + [Named(k, p)] && s.args == Some(k)
    ensures var r := PushArgument(o, s, Q(name));
      r.params == done + [Named(k, WithValue(p, Some(Arg(name, Nothing)), True))]
      && r.target == Target(k, PlaceOf(Some(Arg(name, Nothing))))
  {
    hide Quote, SanitizeKey, SetTarget;
    QuoteStarts(name, false);
    PlainSpells(name);
    KeyReads(o, Q(name), name, Nothing);
    EndIsSet(done, k, p, Some(Arg(name, Nothing)), True);
  }

  /** The name of an argument takes the rest. */
  lemma ArgumentNameBreaks(input: bytes, o: Options, st: State, done: seq<Named>, k: bytes, p: Param, es: seq<Entry>, y: bytes)
    requires o == Defaults(o.maxNesting) && Fresh(done, k) && Pending(input, o, st, done, k, p)
    requires es != [] && NameOk(es[0].key) && !TextOk(es[0].key)
    requires var z := ValueText(es[0].value) + (ArgsText(es[1..]) + y);
      QUOTE !in z && input[st.pos..] == [SEMICOLON] + (Q(es[0].key) + z)
    ensures Broken(Run(input, o, st).params, done, Named(k, p.(arguments := p.arguments + es)),
                   es[0].value.Str? || |es| > 1)
  {
    hide Step, Run, Quote, PushParam, PushArgument, PushValue, TextOk, NameOk, ValueText, ArgsText;
    var e, z := es[0], ValueText(es[0].value) + (ArgsText(es[1..]) + y);
    NameIsNotEmpty(e.key);
    QuoteStarts(e.key, false);
    PeelAfter(input, st.pos, SEMICOLON, Q(e.key), z);
    SemicolonStep(input, o, st, [SEMICOLON], Q(e.key) + z);
    PendingAtEnd(input, o, st, done, k, p);
    RunGoesOn(input, o, st);
    var st1 := Step(input, o, st);
    Swallows(input, o, st1, e.key, z);
    var text := input[st1.pos..|input|];
    if e.value.Str? || |es| > 1 {
      ArgumentSwallows(o, st1.store, done, k, p, es, text);
    } else {
      ArgumentSwallows(o, st1.store, done, k, p, [Entry([], Str([]))], text);
    }
  }

  /** The value of an argument takes the rest. */
  lemma ArgumentValueBreaks(input: bytes, o: Options, st: State, done: seq<Named>, k: bytes, p: Param, es: seq<Entry>, y: bytes)
    requires o == Defaults(o.maxNesting) && Fresh(done, k) && Pending(input, o, st, done, k, p)
    requires es != [] && NameOk(es[0].key) && TextOk(es[0].key) && es[0].value.Str? && !TextOk(es[0].value.text)
    requires forall i :: 0 <= i < |p.arguments| ==> p.arguments[i].key != es[0].key
    requires var z := ArgsText(es[1..]) + y;
      QUOTE !in z && input[st.pos..] == [SEMICOLON] + (Q(es[0].key) + ([EQUALS] + (Q(es[0].value.text) + z)))
    ensures Broken(Run(input, o, st).params, done, Named(k, p.(arguments := p.arguments + es)), |es| > 1)
  {
    hide Step, Run, Quote, PushParam, PushArgument, PushValue, TextOk, NameOk, ArgsText;
    var e, z := es[0], ArgsText(es[1..]) + y;
    NameIsNotEmpty(e.key);
    var st1 := AfterSemicolon(input, o, st, e.key, [EQUALS] + (Q(e.value.text) + z));
    PendingAtEnd(input, o, st, done, k, p);
    NameIsPushed(o, st1.store, done, k, p, e.key);
    var a := Some(Arg(e.key, Nothing));
    var q := WithValue(p, a, True);
    ValueBreaks(input, o, st1, done, k, q, a, e.value.text, z);
    var v :| Run(input, o, st).params == done + [Named(k, WithValue(q, a, v))];
    WithValueTwice(p, a, True, v);
    NewArgument(p, Entry(e.key, v));
    var goal := Named(k, p.(arguments := p.arguments + es));
    assert (done + [goal])[|done|] == goal;
  }

  lemma PlainArgumentScan(input: bytes, o: Options, st: State, done: seq<Named>, k: bytes, p: Param, e: Entry, y: bytes)
      returns (st': State)
    requires o == Defaults(o.maxNesting) && NameOk(e.key) && Simple(e.value) && AllFit(EntryTokens(e), y == [])
    requires forall i :: 0 <= i < |p.arguments| ==> p.arguments[i].key != e.key
    requires Pending(input, o, st, done, k, p) && input[st.pos..] == ArgText(e) + y
    requires y == [] || y[0] == COMMA || y[0] == SEMICOLON
    ensures Pending(input, o, st', done, k, p.(arguments := p.arguments + [e]))
    ensures Run(input, o, st) == Run(input, o, st') && input[st'.pos..] == y
  {
    hide Run, Pending, NameOk, AllFit, ArgText, SpellsArg, NamedWords, Put, SpellsNamed;
    SimpleIsPlain(e.key, e.value);
    ArgSpells(e);
    NamedTokens(e.key, e.value);
    NamedSpells(e.key, e.value);
    st' := ArgumentScan(input, o, st, ArgText(e), ArgOf(e), y, done, k, p);
    SimpleIsSaid(e.value);
    PutNew(p.arguments, e.key, e.value);
  }

  lemma SimpleIsPlain(k: bytes, v: Value)
    requires NameOk(k) && Simple(v)
    ensures NamedOk(k, v)
  {}

  lemma PlainNameScan(input: bytes, o: Options, st: State, done: seq<Named>, k: bytes, v: Value, y: bytes)
      returns (st': State)
    requires o == Defaults(o.maxNesting) && NameOk(k) && Simple(v) && AllFit([k] + ValueTokens(v), y == [])
    requires Clear(input, st) && st.marks == Marks(Some(st.pos), None, None) && st.store.params == done
    requires input[st.pos..] == (Q(k) + ValueText(v)) + y
    requires y == [] || y[0] == COMMA || y[0] == SEMICOLON
    ensures Pending(input, o, st', done, k, Param(false, v, []))
    ensures Run(input, o, st) == Run(input, o, st') && input[st'.pos..] == y
  {
    hide Run, Pending, NameOk, AllFit, SpellsNamed, NamedWords, ValueText, Quote;
    SimpleIsPlain(k, v);
    NamedSpells(k, v);
    NamedTokens(k, v);
    SimpleIsSaid(v);
    st' := NameScan(input, o, st, NamedText(k, v), k, SaidOf(v), y);
  }

  lemma PlainParamScan(input: bytes, o: Options, st: State, done: seq<Named>, n: Named, y: bytes) returns (st': State)
    requires o == Defaults(o.maxNesting) && NameOk(n.key) && PlainParam(n.param) && AllFit(ParamTokens(n), y == [])
    requires Clear(input, st) && st.marks == Marks(Some(st.pos), None, None) && st.store.params == done
    requires input[st.pos..] == OneText(n) + y && (y == [] || y[0] == COMMA)
    ensures Pending(input, o, st', done, n.key, n.param)
    ensures Run(input, o, st) == Run(input, o, st') && input[st'.pos..] == y && st'.pos == st.pos + |OneText(n)|
  {
    hide Run, Pending, NameOk, AllFit, SpellsItem, ItemWords, ItemOk, OneText, ParamOk, ParamTokens;
    PlainIsOk(n);
    OneSpells(n);
    ParamTokensAre(n);
    OneIsSaid(n);
    st' := ItemScan(input, o, st, OneText(n), ItemOf(n), y);
  }

  lemma PlainSplits(done: seq<Entry>, es: seq<Entry>)
    requires PlainArgs(done + es) && es != []
    ensures NameOk(es[0].key) && Simple(es[0].value)
    ensures forall i :: 0 <= i < |done| ==> done[i].key != es[0].key
    ensures PlainArgs((done + [es[0]]) + es[1..]) && AllSimple(es)
  {
    var all := done + es;
    assert all[|done|] == es[0];
    assert forall i :: 0 <= i < |done| ==> all[i] == done[i];
    assert forall i :: 0 <= i < |es| ==> es[i] == all[|done| + i];
    assert (done + [es[0]]) + es[1..] == all;
  }

  lemma ArgsEmptyIff(es: seq<Entry>)
    ensures ArgsTokens(es) == [] <==> es == []
    ensures ArgsText(es) == [] <==> es == []
  {
    hide NamedText;
  }

  lemma ArgsTextStart(es: seq<Entry>, y: bytes)
    requires y == [] || y[0] == COMMA
    ensures var z := ArgsText(es) + y; z == [] || z[0] == COMMA || z[0] == SEMICOLON
  {
    hide NamedText;
    if es != [] { assert (ArgsText(es) + y)[0] == ArgText(es[0])[0]; }
  }

  lemma {:induction false} ArgumentsBreak(input: bytes, o: Options, st: State, done: seq<Named>, k: bytes, p: Param,
                                          es: seq<Entry>, y: bytes, j: nat)
    requires o == Defaults(o.maxNesting) && PlainArgs(p.arguments + es) && Fresh(done, k)
    requires Pending(input, o, st, done, k, p)
    requires input[st.pos..] == ArgsText(es) + y && (y == [] || y[0] == COMMA) && QUOTE !in y
    requires BadAt(ArgsTokens(es), j)
    ensures Broken(Run(input, o, st).params, done, Named(k, p.(arguments := p.arguments + es)), j + 1 < |ArgsTokens(es)|)
    decreases |es|
  {
    hide Run, Pending, PlainArgs, NameOk, TextOk, BadAt, Quote, Unquoted, AllFit, Broken, EntryTokens, ArgText;
    assert es != [] by { BadHasTokens(es, j); }
    var e, z := es[0], ArgsText(es[1..]) + y;
    PlainSplits(p.arguments, es);
    BadSplits(EntryTokens(e), ArgsTokens(es[1..]), j);
    ArgsEmptyIff(es[1..]);
    PendingAtEnd(input, o, st, done, k, p);
    if j < |EntryTokens(e)| {
      FirstArgumentBreaks(input, o, st, done, k, p, es, y, j);
    } else {
      ArgsTextStart(es[1..], y);
      assert ArgsText(es) + y == ArgText(e) + z by { SeqAssoc(ArgText(e), ArgsText(es[1..]), y); }
      FitsAnywhere(EntryTokens(e), z == []);
      var st1 := PlainArgumentScan(input, o, st, done, k, p, e, z);
      ArgumentsBreak(input, o, st1, done, k, p.(arguments := p.arguments + [e]), es[1..], y, j - |EntryTokens(e)|);
      assert (p.arguments + [e]) + es[1..] == p.arguments + es;
    }
  }

  lemma FirstArgumentBreaks(input: bytes, o: Options, st: State, done: seq<Named>, k: bytes, p: Param,
                            es: seq<Entry>, y: bytes, j: nat)
    requires o == Defaults(o.maxNesting) && Fresh(done, k) && es != [] && NameOk(es[0].key)
    requires forall i :: 0 <= i < |p.arguments| ==> p.arguments[i].key != es[0].key
    requires Ok(input, st) && Pending(input, o, st, done, k, p)
    requires input[st.pos..] == ArgsText(es) + y && QUOTE !in y
    requires BadAt(EntryTokens(es[0]), j) && Unquoted(ArgsTokens(es[1..])) && AllSimple(es)
    ensures Broken(Run(input, o, st).params, done, Named(k, p.(arguments := p.arguments + es)), j + 1 < |ArgsTokens(es)|)
  {
    hide Run, Pending, NameOk, TextOk, BadAt, Quote, Unquoted, Broken, ArgText;
    var e, z := es[0], ArgsText(es[1..]) + y;
    assert ArgsText(es) + y == [SEMICOLON] + (Q(e.key) + (ValueText(e.value) + z)) by { ArgTextIs(e, ArgsText(es[1..]), y); }
    ArgsEmptyIff(es[1..]);
    ArgsHaveNoQuote(es[1..]);
    BadName(e.key, ValueTokens(e.value), j);
    if j == 0 {
      ValueHasNoQuote(e.value);
      ArgumentNameBreaks(input, o, st, done, k, p, es, y);
    } else {
      BadValue(e.value, j - 1);
      SeqAssoc([EQUALS], Q(e.value.text), z);
      ArgumentValueBreaks(input, o, st, done, k, p, es, y);
    }
  }

  lemma BadHasTokens(es: seq<Entry>, j: nat) requires BadAt(ArgsTokens(es), j) ensures es != [] {}
  lemma FitsAnywhere(ts: seq<bytes>, last: bool) requires AllFit(ts, false) ensures AllFit(ts, last) {}

  lemma BadValue(v: Value, j: nat)
    requires BadAt(ValueTokens(v), j)
    ensures j == 0 && v.Str? && !TextOk(v.text)
  {}

  lemma ArgTextIs(e: Entry, a: bytes, y: bytes)
    ensures (ArgText(e) + a) + y == [SEMICOLON] + (Q(e.key) + (ValueText(e.value) + (a + y)))
  {
    hide Quote, ValueText;
    var q, v := Q(e.key), ValueText(e.value);
    assert ([SEMICOLON] + q + v + a) + y == [SEMICOLON] + (q + (v + (a + y)));
  }

  // ---- whole tables

  /** A parameter with such a token, at the place where it is read. */
  lemma ParamBreaks(input: bytes, o: Options, st: State, done: seq<Named>, n: Named, y: bytes, j: nat)
    requires o == Defaults(o.maxNesting) && NameOk(n.key) && PlainParam(n.param) && Fresh(done, n.key)
    requires Clear(input, st) && st.marks == Marks(Some(st.pos), None, None) && st.store.params == done
    requires input[st.pos..] == OneText(n) + y && (y == [] || y[0] == COMMA) && QUOTE !in y
    requires BadAt(ParamTokens(n), j)
    ensures Broken(Run(input, o, st).params, done, n, j + 1 < |ParamTokens(n)|)
  {
    hide Run, Push, NameOk, TextOk, BadAt, Quote, Unquoted, AllFit, PlainArgs, Step, ValueText, ArgsText, Broken;
    var k, v, es := n.key, n.param.value, n.param.arguments;
    var head, z := [k] + ValueTokens(v), ArgsText(es) + y;
    BadSplits(head, ArgsTokens(es), j);
    PlainIsOk(n);
    assert OneText(n) + y == (Q(k) + ValueText(v)) + z by { SeqAssoc(Q(k) + ValueText(v), ArgsText(es), y); }
    if j < |head| {
      assert QUOTE !in z by { ParamIsSimple(n); ArgsHaveNoQuote(es); }
      ArgsEmptyIff(es);
      SeqAssoc(Q(k), ValueText(v), z);
      NameOrValueBreaks(input, o, st, done, n, z, j);
    } else {
      ArgumentsOfBreak(input, o, st, done, n, y, j - |head|);
    }
  }

  lemma ArgumentsOfBreak(input: bytes, o: Options, st: State, done: seq<Named>, n: Named, y: bytes, j: nat)
    requires o == Defaults(o.maxNesting) && NameOk(n.key) && PlainParam(n.param) && Fresh(done, n.key)
    requires Clear(input, st) && st.marks == Marks(Some(st.pos), None, None) && st.store.params == done
    requires input[st.pos..] == (Q(n.key) + ValueText(n.param.value)) + (ArgsText(n.param.arguments) + y)
    requires (y == [] || y[0] == COMMA) && QUOTE !in y
    requires AllFit([n.key] + ValueTokens(n.param.value), false) && BadAt(ArgsTokens(n.param.arguments), j)
    ensures Broken(Run(input, o, st).params, done, n, j + 1 < |ArgsTokens(n.param.arguments)|)
  {
    hide Run, Push, NameOk, TextOk, BadAt, Quote, AllFit, PlainArgs, Step, ValueText, ArgsText, Broken;
    var k, v, es := n.key, n.param.value, n.param.arguments;
    var z := ArgsText(es) + y;
    ArgsTextStart(es, y);
    FitsAnywhere([k] + ValueTokens(v), z == []);
    var st1 := PlainNameScan(input, o, st, done, k, v, z);
    Peel(input, st.pos, Q(k) + ValueText(v), z);
    assert [] + es == es;
    ArgumentsBreak(input, o, st1, done, k, Param(false, v, []), es, y, j);
  }

  lemma NameOrValueBreaks(input: bytes, o: Options, st: State, done: seq<Named>, n: Named, z: bytes, j: nat)
    requires o == Defaults(o.maxNesting) && NameOk(n.key) && Fresh(done, n.key)
    requires Clear(input, st) && st.marks == Marks(Some(st.pos), None, None) && st.store.params == done
    requires input[st.pos..] == Q(n.key) + (ValueText(n.param.value) + z) && QUOTE !in z
    requires BadAt([n.key] + ValueTokens(n.param.value), j) && Simple(n.param.value)
    ensures Broken(Run(input, o, st).params, done, n,
                   (j == 0 && n.param.value.Str?) || n.param.arguments != [])
  {
    hide Run, Push, NameOk, TextOk, BadAt, Quote, Unquoted, Step, ValueText;
    BadName(n.key, ValueTokens(n.param.value), j);
    if j == 0 {
      ValueHasNoQuote(n.param.value);
      Swallows(input, o, st, n.key, ValueText(n.param.value) + z);
      NameIsBroken(input, o, st, n);
    } else {
      BadValue(n.param.value, j - 1);
      ParamValueBreaks(input, o, st, done, n, z);
    }
  }

  lemma NameIsBroken(input: bytes, o: Options, st: State, n: Named)
    requires o == Defaults(o.maxNesting) && Ok(input, st) && st.marks == Marks(Some(st.pos), None, None)
    ensures Broken(Push(input, o, st.marks, |input|, st.store).params, st.store.params, n,
                   n.param.value.Str? || n.param.arguments != [])
  {
    hide PushParam;
    var text := input[st.pos..|input|];
    if n.param.value.Str? || n.param.arguments != [] {
      NameSwallows(o, st.store, n, text);
    } else {
      NameSwallows(o, st.store, Named([], Param(false, Str([]), [])), text);
    }
  }

  lemma ParamValueBreaks(input: bytes, o: Options, st: State, done: seq<Named>, n: Named, z: bytes)
    requires o == Defaults(o.maxNesting) && NameOk(n.key) && TextOk(n.key) && Fresh(done, n.key)
    requires n.param.value.Str? && !TextOk(n.param.value.text) && QUOTE !in z
    requires Clear(input, st) && st.marks == Marks(Some(st.pos), None, None) && st.store.params == done
    requires input[st.pos..] == Q(n.key) + (ValueText(n.param.value) + z)
    ensures Broken(Run(input, o, st).params, done, n, n.param.arguments != [])
  {
    hide Run, NameOk, TextOk, Quote, PushParam, PushArgument, PushValue;
    var k, t := n.key, n.param.value.text;
    assert ValueText(n.param.value) + z == [EQUALS] + (Q(t) + z);
    PlainSpells(k);
    TokenScan(input, o, st, Q(k), k, ValueText(n.param.value) + z);
    var st1 := st.(pos := st.pos + |Q(k)|);
    var p := Param(false, True, []);
    ParamGrammar.NameIsPushed(o, st.store, Q(k), k, Nothing);
    PutAtEnd(done, k, p, p);
    ValueBreaks(input, o, st1, done, k, p, None, t, z);
    var v :| Run(input, o, st).params == done + [Named(k, WithValue(p, None, v))];
    assert (done + [n])[|done|] == n;
  }

  /** The parameters behind the first are plain ones too. */
  lemma RestIsPlain(done: seq<Named>, ps: seq<Named>)
    requires PlainTable(done + ps) && ps != []
    ensures NameOk(ps[0].key) && PlainParam(ps[0].param) && Fresh(done, ps[0].key)
    ensures forall i :: 0 <= i < |ps| - 1 ==> PlainParam(ps[1..][i].param)
    ensures |ps| > 1 ==> NameOk(ps[1].key)
  {
    hide NameOk, PlainParam;
    var all := done + ps;
    assert forall i :: 0 <= i < |ps| ==> ps[i] == all[|done| + i];
    assert forall i :: 0 <= i < |done| ==> done[i] == all[i];
  }

  lemma TextStart(ps: seq<Named>)
    requires ps != [] && NameOk(ps[0].key)
    ensures var x := TableText(ps); x != [] && !IsSep(x[0]) && x[0] != BACKSLASH
  {
    hide Quote, ValueText, ArgsText, Flat;
    QuoteStarts(ps[0].key, false);
    NameIsNotEmpty(ps[0].key);
    assert TableText(ps)[0] == Q(ps[0].key)[0];
  }

  /** Over a parameter in order and the comma behind it. */
  lemma NextParam(input: bytes, o: Options, st: State, done: seq<Named>, n: Named, z: bytes) returns (st': State)
    requires o == Defaults(o.maxNesting) && NameOk(n.key) && PlainParam(n.param) && Fresh(done, n.key)
    requires AllFit(ParamTokens(n), false) && z != [] && !IsSep(z[0])
    requires Clear(input, st) && st.marks == Marks(Some(st.pos), None, None) && st.store.params == done
    requires input[st.pos..] == OneText(n) + ([COMMA] + z)
    ensures Clear(input, st') && st'.marks == Marks(Some(st'.pos), None, None) && st'.store.params == done + [n]
    ensures input[st'.pos..] == z && Run(input, o, st) == Run(input, o, st')
  {
    hide Push, Quote, OneText, Step, Run, AllFit, NameOk, PlainParam, ParamTokens, Pending;
    var st1 := PlainParamScan(input, o, st, done, n, [COMMA] + z);
    PendingAtEnd(input, o, st1, done, n.key, n.param);
    CommaStep(input, o, st1, [COMMA], z);
    RunGoesOn(input, o, st1);
    st' := Step(input, o, st1);
  }

  lemma {:induction false} TableBreaks(input: bytes, o: Options, st: State, done: seq<Named>, ps: seq<Named>, j: nat)
    requires o == Defaults(o.maxNesting) && PlainTable(done + ps) && ps != []
    requires Clear(input, st) && st.marks == Marks(Some(st.pos), None, None) && st.store.params == done
    requires input[st.pos..] == TableText(ps) && BadAt(TableTokens(ps), j) && j + 1 < |TableTokens(ps)|
    ensures Run(input, o, st).params != done + ps
    decreases |ps|
  {
    hide Push, Quote, ValueText, OneText, Step, Run, AllFit, NameOk, PlainParam, ParamTokens, BadAt, Unquoted, Clear;
    var n, all := ps[0], done + ps;
    RestIsPlain(done, ps);
    BadSplits(ParamTokens(n), TableTokens(ps[1..]), j);
    if j < |ParamTokens(n)| {
      var y := if |ps| == 1 then [] else [COMMA] + TableText(ps[1..]);
      assert QUOTE !in y by { TableHasNoQuote(ps[1..]); }
      assert |ps| == 1 ==> ps == [n] && TableTokens(ps[1..]) == [];
      assert TableText(ps) == OneText(n) + y;
      ParamBreaks(input, o, st, done, n, y, j);
    } else {
      assert ps[1..] != [] by { BadHasTable(ps[1..], j - |ParamTokens(n)|); }
      TextStart(ps[1..]);
      var st1 := NextParam(input, o, st, done, n, TableText(ps[1..]));
      assert (done + [n]) + ps[1..] == all;
      TableBreaks(input, o, st1, done + [n], ps[1..], j - |ParamTokens(n)|);
    }
  }

  lemma BadHasTable(ps: seq<Named>, j: nat) requires BadAt(TableTokens(ps), j) ensures ps != [] {}

  lemma TextBreaks(ps: seq<Named>, j: nat, maxNesting: nat)
    requires PlainTable(ps) && BadAt(TableTokens(ps), j) && j + 1 < |TableTokens(ps)|
    ensures Parse(TableText(ps), Defaults(maxNesting)) != ps
  {
    hide Step, Quote, ValueText, BadAt, Run;
    var input, o := TableText(ps), Defaults(maxNesting);
    assert ps != [] by { BadHasTable(ps, j); }
    TextStart(ps);
    FirstPass(input, o);
    assert input[0..] == input;
    assert [] + ps == ps;
    TableBreaks(input, o, Start.(marks := Marks(Some(0), None, None)), [], ps, j);
  }

  /**
   * Of the names and texts of a table in the order they are printed, let none before the j-th end in
   * a backslash and none behind it need quotes. The table survives if and only if the j-th does not
   * end in a backslash either, or is the last one printed.
   */
  lemma BackslashBreaksIff(ps: seq<Named>, j: nat, maxNesting: nat)
    requires PlainTable(ps) && j < |Tokens(ps)|
    requires forall i :: 0 <= i < j ==> TextOk(Tokens(ps)[i])
    requires forall i :: j < i < |Tokens(ps)| ==> !NeedsQuotes(Tokens(ps)[i])
    ensures Parse(Print(ps, DefaultSeps, DefaultFlags), Defaults(maxNesting)) == ps
      <==> TextOk(Tokens(ps)[j]) || j + 1 == |Tokens(ps)|
  {
    hide Parse, PrintFrom, TextOk, TableOk, TableText, NeedsQuotes, Tokens, Quote, TableTokens, PlainParam, ParamOk;
    var ts := Tokens(ps);
    forall i | 0 <= i < |ps| ensures ParamOk(ps[i].key, ps[i].param) { PlainIsOk(ps[i]); }
    assert TableOk(ps) by { AllOk(ps); }
    if TextOk(ts[j]) || j + 1 == |ts| {
      forall i | j < i < |ts| ensures TextOk(ts[i]) { PlainHasNoQuote(ts[i]); }
      ParamsRoundTrip(ps, maxNesting);
    } else {
      TablePrintsText(ps);
      TokensAre(ps);
      TextBreaks(ps, j, maxNesting);
    }
  }

  lemma AllOk(ps: seq<Named>)
    requires forall i :: 0 <= i < |ps| ==> ParamOk(ps[i].key, ps[i].param)
    requires forall i, j :: 0 <= i < j < |ps| ==> ps[i].key != ps[j].key
    ensures TableOk(ps)
  {
    hide ParamOk;
  }

  // ---- extended names that need quotes

  lemma UnescapeOne(c: byte, y: bytes)
    requires y != []
    ensures Unescape(EscapeByte(c) + y) == [c] + Unescape(y)
  {
    hide EscapeByte, Escaped;
    var e := EscapeByte(c);
    if |e| == 1 {
      assert (e + y)[1..] == y;
      PlainByteIsNotBackslash(c);
    } else {
      OnlySpecialIsEscaped(c);
      EscapedByteReads(c, y);
      assert (e + y)[1..] == e[1..] + y && (e + y)[|e|..] == y;
    }
  }

  lemma {:induction false} UnescapeBehind(t: bytes, z: bytes)
    requires z != []
    ensures Unescape(Escape(t) + z) == t + Unescape(z)
  {
    hide EscapeByte, Unescape;
    if t == [] {
      assert Escape(t) + z == z;
    } else {
      UnescapeBehind(t[1..], z);
      SeqAssoc(EscapeByte(t[0]), Escape(t[1..]), z);
      UnescapeOne(t[0], Escape(t[1..]) + z);
      SeqAssoc([t[0]], t[1..], Unescape(z));
      assert [t[0]] + t[1..] == t;
    }
  }

  /** The mark behind the quotes keeps them from being taken off. */
  lemma QuotesStay(o: Options, k: bytes)
    requires Standard(o) && NeedsQuotes(k)
    ensures SanitizeKey(o, Q(k) + [STAR]) == (Plain([QUOTE] + k + [QUOTE]), true)
  {
    hide Escape, Unescape, Trim, NeedsQuotes;
    var z, w := [QUOTE, STAR], Q(k) + [STAR];
    assert w == [QUOTE] + (Escape(k) + z);
    MarkedIsTrimmed(w);
    assert Unescape(w) == [QUOTE] + (k + z) by { MarkedUnescapes(k); }
    assert ([QUOTE] + (k + z))[..|k| + 2] == [QUOTE] + k + [QUOTE];
  }

  lemma MarkedIsTrimmed(w: bytes)
    requires |w| > 1 && w[0] == QUOTE && w[|w| - 1] == STAR
    ensures Trim(w) == w && SanitizeEscaped(w) == Unescape(w)
  {
    hide Unescape;
  }

  lemma MarkedUnescapes(k: bytes)
    ensures Unescape([QUOTE] + (Escape(k) + [QUOTE, STAR])) == [QUOTE] + (k + [QUOTE, STAR])
  {
    hide Escape;
    var z: bytes := [QUOTE, STAR];
    var w := [QUOTE] + (Escape(k) + z);
    UnescapeBehind(k, z);
    assert w[1..] == Escape(k) + z;
    assert z[1..] == [STAR] && Unescape([STAR]) == [STAR] && Unescape(z) == z;
  }

  /** A parameter with such a name is read under another one. */
  lemma QuotedNameIsLost(k: bytes, v: Value, maxNesting: nat)
    requires NeedsQuotes(k) && TextOk(k) && EncodedOk(v)
    ensures var r := Parse(Q(k) + EncodedText(v), Defaults(maxNesting)); |r| == 1 && r[0].key == [QUOTE] + k + [QUOTE]
  {
    hide Step, Run, Push, Escape, NeedsQuotes, EncodedText, EncodedOk, TextOk, SanitizeKey, SpellsSaid, SaidOf;
    var o := Defaults(maxNesting);
    EncodedIsTable(v);
    var x, name, said := Q(k) + EncodedText(v), [QUOTE] + k + [QUOTE], SaidOf(v);
    EncodedSpells(v);
    assert said.Encoded? by { EncodedIsSaid(v); }
    var u := EncodedText(v)[1..];
    assert EncodedText(v) == [STAR] + u;
    assert x == [QUOTE] + (Escape(k) + ([QUOTE] + ([STAR] + u)));
    FirstPass(x, o);
    assert x[0..] == x;
    var st := Start.(marks := Marks(Some(0), None, None));
    QuotedWordScan(x, o, st, k, [STAR] + u);
    var st1 := st.(pos := |Q(k)|);
    Peel(x, 0, Q(k), [STAR] + u);
    assert [STAR] + u == [STAR] + u;
    PlainScan(x, o, st1, [STAR], u);
    Peel(x, |Q(k)|, [STAR], u);
    var st2 := st1.(pos := |Q(k)| + 1);
    assert x[0..st2.pos] == Q(k) + [STAR];
    QuotesStay(o, k);
    assert HasNamed(PushParam(o, Start.store, Q(k) + [STAR]), [], name, Param(true, True, []), None, said) by {
      NamedByMark(o, k, name, said);
    }
    assert Push(x, o, st2.marks, st2.pos, st2.store) == PushParam(o, Start.store, Q(k) + [STAR]) by { PushesParam(x, o, st2); }
    assert u + [] == u;
    var st3 := ValueScan(x, o, st2, u, said, [], [], name, Param(true, True, []), None);
    PendingEnds(x, o, st3, [], name, WithValue(Param(true, True, []), None, ParamGrammar.Value(said)));
    PutAtEnd([], name, WithValue(Param(true, True, []), None, ParamGrammar.Value(said)), Param(true, True, []));
  }

  lemma EncodedIsSaid(v: Value) requires EncodedOk(v) ensures SaidOf(v).Encoded? {}

  lemma PushesParam(x: bytes, o: Options, st: State)
    requires Ok(x, st) && st.marks == Marks(Some(0), None, None)
    ensures Push(x, o, st.marks, st.pos, st.store) == PushParam(o, st.store, x[0..st.pos])
  {}

  lemma NamedByMark(o: Options, k: bytes, name: bytes, said: Said)
    requires o == Defaults(o.maxNesting) && name != [] && said.Encoded?
    requires SanitizeKey(o, Q(k) + [STAR]) == (Plain(name), true)
    ensures HasNamed(PushParam(o, Start.store, Q(k) + [STAR]), [], name, Param(true, True, []), None, said)
  {
    hide SanitizeKey, Quote, PutNamed;
  }

  /** A parameter with an extended value survives printing and parsing if and only if its name needs no quotes. */
  lemma ExtendedNameSurvivesIff(k: bytes, v: Value, maxNesting: nat)
    requires k != [] && TextOk(k) && EncodedOk(v)
    ensures var ps := [Named(k, Param(true, v, []))];
      Parse(Print(ps, DefaultSeps, DefaultFlags), Defaults(maxNesting)) == ps <==> !NeedsQuotes(k)
  {
    hide Parse, Print, NeedsQuotes, EncodedOk, TableText, TextOk;
    var n := Named(k, Param(true, v, []));
    var ps := [n];
    assert v.Arr? && v.entries != [] by { EncodedIsTable(v); }
    if NeedsQuotes(k) {
      assert PrintableParam(n);
      OneIsPrinted(n);
      QuotedNameIsLost(k, v, maxNesting);
    } else {
      assert AllFit(Tokens(ps), true) by { OneExtendedFits(n); }
      ParamsRoundTrip(ps, maxNesting);
    }
  }

  lemma EncodedIsTable(v: Value) requires EncodedOk(v) ensures v.Arr? && v.entries != [] {}

  lemma OneIsPrinted(n: Named)
    requires PrintableParam(n) && n.param.arguments == [] && n.param.value.Arr?
    ensures Print([n], DefaultSeps, DefaultFlags) == Q(n.key) + EncodedText(n.param.value)
  {
    hide PrintFrom, Quote, EncodedText;
    TablePrints([], [n], 0, false);
    assert [n][0..] == [n] && [n][1..] == [];
    assert OneText(n) == NamedText(n.key, n.param.value) + [];
  }

  lemma OneExtendedFits(n: Named)
    requires n.param.value.Arr? && n.param.arguments == [] && EncodedOk(n.param.value)
    ensures AllFit(Tokens([n]), true)
  {
    hide Bare;
    assert [n][1..] == [];
    var i := ItemOf(n);
    assert ItemWords(i) == [n.key + [STAR]] + [] + [];
    assert ItemsOf([n]) == [i] && [i][1..] == [] && Words([]) == [];
    assert Words([i]) == ItemWords(i) + [];
  }
}
