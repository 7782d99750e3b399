/** Links with parameters (RFC 8288, once RFC 5988): what they are parsed into, and their round trip. */
module LinkHeaders {
  import opened Bytes
  import opened ParamText
  import opened ParamTable
  import opened ParamParser
  import opened ParamPrinter
  import opened ParamGrammar
  import opened ParamRoundTrip

  const LESS: byte := 60
  const GREATER: byte := 62

  const LinkFlags := DefaultFlags.(rfc5988 := true)

  function Links(maxNesting: nat): Options { Defaults(maxNesting).(flags := LinkFlags) }

  // ---- how links are spelled, and what they say

  datatype Link = Link(target: bytes, args: seq<Arg>)

  /** A target holds no closing angle, and has neither angles nor spaces at its ends. */
  ghost predicate TargetOk(k: bytes) { k != [] && GREATER !in k && !IsLinkTrim(k[0]) && !IsLinkTrim(k[|k| - 1]) }

  ghost predicate LinkOk(l: Link) { TargetOk(l.target) && forall j :: 0 <= j < |l.args| ==> ArgOk(l.args[j]) }

  ghost predicate Spaces(x: bytes) { forall i :: 0 <= i < |x| ==> x[i] == SP }

  function Angled(a: bytes, k: bytes, b: bytes): bytes { a + ([LESS] + (k + ([GREATER] + b))) }

  /** A target in angles, with spaces around it. */
  ghost predicate SpellsTarget(w: bytes, k: bytes) { exists a, b :: Spaces(a) && Spaces(b) && w == Angled(a, k, b) }

  ghost predicate SpellsLink(x: bytes, l: Link) {
    exists y, z :: SpellsTarget(y, l.target) && SpellsArgs(z, l.args) && x == y + z
  }

  ghost predicate SpellsLinks(x: bytes, ls: seq<Link>)
    decreases |ls|
  {
    if ls == [] then x == []
    else if |ls| == 1 then SpellsLink(x, ls[0])
    else exists y, r, z :: SpellsLink(y, ls[0]) && CommaRun(r) && SpellsLinks(z, ls[1..]) && x == y + (r + z)
  }

  function PutLinks(ps: seq<Named>, ls: seq<Link>): seq<Named>
    decreases |ls|
  {
    if ls == [] then ps else PutLinks(PutNamed(ps, ls[0].target, Param(false, True, PutArgs([], ls[0].args))), ls[1..])
  }

  /** The words of the arguments; a target stands as a word that is in order. */
  function LinkWords(l: Link): seq<bytes> { [[]] + ArgsWords(l.args) }
  function LinksWords(ls: seq<Link>): seq<bytes> { if ls == [] then [] else LinkWords(ls[0]) + LinksWords(ls[1..]) }

  // ---- the scan over a target

  ghost predicate AtTarget(input: bytes, o: Options, st: State) {
    o == Links(o.maxNesting) && Ok(input, st) && !st.escape && st.marks.param.Some? && st.marks.arg.None? && st.marks.val.None?
  }

  lemma TargetStep(input: bytes, o: Options, st: State)
    requires AtTarget(input, o, st) && st.pos < |input|
    requires var c := input[st.pos]; (st.quotes && c != GREATER) || !IsSep(c)
    ensures var c := input[st.pos];
      Step(input, o, st) == st.(pos := st.pos + 1, quotes := if c == LESS then true else if c == GREATER then false else st.quotes)
  {
    hide Push, SkipSeps, SepAt;
    OneSep(input, st.pos, COMMA);
    OneSep(input, st.pos, SEMICOLON);
    OneSep(input, st.pos, EQUALS);
  }

  /** Bytes that are no angles: all of them within angles, and none that separates without. */
  lemma {:induction false} TargetScan(input: bytes, o: Options, st: State, x: bytes, y: bytes)
    requires AtTarget(input, o, st) && input[st.pos..] == x + y
    requires forall i :: 0 <= i < |x| ==> x[i] != GREATER && if st.quotes then true else x[i] != LESS && !IsSep(x[i])
    ensures st.pos + |x| <= |input| && input[st.pos + |x|..] == y
    ensures Run(input, o, st) == Run(input, o, st.(pos := st.pos + |x|))
    decreases |x|
  {
    hide Step, Push;
    Peel(input, st.pos, x, y);
    if x != [] {
      assert input[st.pos] == input[st.pos..][0] == x[0];
      TargetStep(input, o, st);
      RunGoesOn(input, o, st);
      assert x + y == [x[0]] + (x[1..] + y);
      Peel(input, st.pos, [x[0]], x[1..] + y);
      assert forall i :: 0 <= i < |x| - 1 ==> x[1..][i] == x[i + 1];
      TargetScan(input, o, st.(pos := st.pos + 1), x[1..], y);
    }
  }

  lemma AngleScan(input: bytes, o: Options, st: State, c: byte, y: bytes)
    requires AtTarget(input, o, st) && input[st.pos..] == [c] + y && (c == LESS || c == GREATER)
    ensures st.pos + 1 <= |input| && input[st.pos + 1..] == y
    ensures Run(input, o, st) == Run(input, o, st.(pos := st.pos + 1, quotes := c == LESS))
  {
    hide Step, Push, Run;
    Peel(input, st.pos, [c], y);
    assert input[st.pos] == input[st.pos..][0];
    TargetStep(input, o, st);
    RunGoesOn(input, o, st);
  }

  lemma AngledScan(input: bytes, o: Options, st: State, a: bytes, k: bytes, b: bytes, y: bytes)
    requires AtTarget(input, o, st) && !st.quotes && GREATER !in k && Spaces(a) && Spaces(b)
    requires input[st.pos..] == Angled(a, k, b) + y
    ensures Run(input, o, st) == Run(input, o, st.(pos := st.pos + |Angled(a, k, b)|))
  {
    hide Step, Push, Run;
    var y3 := b + y;
    var y2 := [GREATER] + y3;
    var y1 := k + y2;
    assert Angled(a, k, b) + y == a + ([LESS] + y1);
    TargetScan(input, o, st, a, [LESS] + y1);
    var st1 := st.(pos := st.pos + |a|);
    AngleScan(input, o, st1, LESS, y1);
    var st2 := st1.(pos := st1.pos + 1, quotes := true);
    TargetScan(input, o, st2, k, y2);
    var st3 := st2.(pos := st2.pos + |k|);
    AngleScan(input, o, st3, GREATER, y3);
    TargetScan(input, o, st3.(pos := st3.pos + 1, quotes := false), b, y);
  }

  lemma AngledIsTrimmed(a: bytes, k: bytes, b: bytes)
    requires TargetOk(k) && Spaces(a) && Spaces(b)
    ensures TrimBy(Angled(a, k, b), IsLinkTrim) == k
  {
    var x, z := a + [LESS], [GREATER] + b;
    assert Angled(a, k, b) == x + (k + z);
    TrimsAroundBy(x, k, z, IsLinkTrim);
  }

  lemma TargetStart(w: bytes, k: bytes)
    requires SpellsTarget(w, k)
    ensures w != [] && (w[0] == SP || w[0] == LESS)
  {
    var a, b :| Spaces(a) && Spaces(b) && w == Angled(a, k, b);
    assert w[0] == if a != [] then a[0] else LESS;
  }

  /** Over a target: what is pushed is what stands in the angles, however it is quoted or separated in there. */
  lemma TargetIsRead(input: bytes, o: Options, st: State, w: bytes, k: bytes, y: bytes) returns (st': State)
    requires AtTarget(input, o, st) && !st.quotes && st.marks == Marks(Some(st.pos), None, None) && !st.store.rfc5987
    requires TargetOk(k) && SpellsTarget(w, k) && input[st.pos..] == w + y
    ensures Pending(input, o, st', st.store.params, k, Param(false, True, []))
    ensures Run(input, o, st) == Run(input, o, st') && st'.pos == st.pos + |w| && input[st'.pos..] == y
  {
    hide Run, Step, PutNamed, TargetOk, Angled;
    var a, b :| Spaces(a) && Spaces(b) && w == Angled(a, k, b);
    assert GREATER !in k && k != [] by { TargetHasNoEnd(k); }
    AngledScan(input, o, st, a, k, b, y);
    Peel(input, st.pos, w, y);
    AngledIsTrimmed(a, k, b);
    TargetStart(w, k);
    st' := st.(pos := st.pos + |w|);
  }

  lemma TargetHasNoEnd(k: bytes) requires TargetOk(k) ensures GREATER !in k && k != [] {}

  // ---- whole texts

  lemma LinkSplits(x: bytes, l: Link) returns (y: bytes, z: bytes)
    requires SpellsLink(x, l)
    ensures SpellsTarget(y, l.target) && SpellsArgs(z, l.args) && x == y + z
  {
    hide SpellsTarget, SpellsArgs;
    y, z :| SpellsTarget(y, l.target) && SpellsArgs(z, l.args) && x == y + z;
  }

  lemma LinkScan(input: bytes, o: Options, st: State, x: bytes, l: Link, y: bytes) returns (st': State)
    requires AtTarget(input, o, st) && !st.quotes && st.marks == Marks(Some(st.pos), None, None) && !st.store.rfc5987
    requires LinkOk(l) && SpellsLink(x, l) && AllFit(LinkWords(l), y == []) && input[st.pos..] == x + y
    requires y == [] || y[0] == COMMA
    ensures Pending(input, o, st', st.store.params, l.target, Param(false, True, PutArgs([], l.args)))
    ensures Run(input, o, st) == Run(input, o, st') && st'.pos == st.pos + |x| && input[st'.pos..] == y
  {
    hide Run, Push, AllFit, ArgOk, PutArgs, SpellsTarget, SpellsArgs, SpellsLink, TargetOk;
    var w, z := LinkSplits(x, l);
    SeqAssoc(w, z, y);
    FitSplits([[]], ArgsWords(l.args), y == []);
    var st1 := TargetIsRead(input, o, st, w, l.target, z + y);
    st' := ArgumentsScan(input, o, st1, z, l.args, y, st.store.params, l.target, Param(false, True, []));
  }

  lemma LinkStart(x: bytes, l: Link)
    requires SpellsLink(x, l)
    ensures x != [] && (x[0] == SP || x[0] == LESS)
  {
    hide SpellsTarget, SpellsArgs, SpellsLink;
    var w, z := LinkSplits(x, l);
    TargetStart(w, l.target);
  }

  lemma LinksSplit(x: bytes, ls: seq<Link>) returns (y: bytes, r: bytes, z: bytes)
    requires SpellsLinks(x, ls) && |ls| > 1
    ensures SpellsLink(y, ls[0]) && CommaRun(r) && SpellsLinks(z, ls[1..]) && x == y + (r + z)
  {
    hide SpellsLink, CommaRun;
    y, r, z :| SpellsLink(y, ls[0]) && CommaRun(r) && SpellsLinks(z, ls[1..]) && x == y + (r + z);
  }

  lemma LinksStart(x: bytes, ls: seq<Link>)
    requires SpellsLinks(x, ls) && ls != []
    ensures x != [] && (x[0] == SP || x[0] == LESS)
  {
    hide SpellsLink, CommaRun;
    if |ls| == 1 {
      LinkStart(x, ls[0]);
    } else {
      var y, r, z := LinksSplit(x, ls);
      LinkStart(y, ls[0]);
    }
  }

  lemma LastLink(x: bytes, ls: seq<Link>)
    requires SpellsLinks(x, ls) && |ls| == 1
    ensures SpellsLink(x, ls[0]) && ls[1..] == [] && LinksWords(ls) == LinkWords(ls[0])
  {
    hide SpellsLink, LinkWords;
    assert LinkWords(ls[0]) + [] == LinkWords(ls[0]);
  }

  lemma {:induction false} LinksScan(input: bytes, o: Options, st: State, x: bytes, ls: seq<Link>)
    requires AtTarget(input, o, st) && !st.quotes && st.marks == Marks(Some(st.pos), None, None) && !st.store.rfc5987
    requires SpellsLinks(x, ls) && ls != [] && AllFit(LinksWords(ls), true) && input[st.pos..] == x
    requires forall j :: 0 <= j < |ls| ==> LinkOk(ls[j])
    ensures Run(input, o, st).params == PutLinks(st.store.params, ls)
    decreases |ls|
  {
    hide Run, Step, AllFit, LinkOk, LinkWords, SpellsLink, SpellsLinks, PutArgs, CommaRun, PutNamed, Push;
    var l := ls[0];
    if |ls| == 1 {
      LastLink(x, ls);
      assert x + [] == x;
      var st1 := LinkScan(input, o, st, x, l, []);
      PendingEnds(input, o, st1, st.store.params, l.target, Param(false, True, PutArgs([], l.args)));
    } else {
      var y, r, z := LinksSplit(x, ls);
      FitSplits(LinkWords(l), LinksWords(ls[1..]), true);
      assert LinksWords(ls[1..]) != [] by { WordsOfLinks(ls[1..]); }
      assert (r + z)[0] == COMMA by { CommaStarts(r); }
      var st1 := LinkScan(input, o, st, y, l, r + z);
      LinksStart(z, ls[1..]);
      CommaStep(input, o, st1, r, z);
      RunGoesOn(input, o, st1);
      LinksScan(input, o, Step(input, o, st1), z, ls[1..]);
    }
  }

  lemma WordsOfLinks(ls: seq<Link>) requires ls != [] ensures LinksWords(ls) != [] {}

  lemma FirstLinkPass(input: bytes, o: Options)
    requires o == Links(o.maxNesting) && input != [] && (input[0] == SP || input[0] == LESS)
    ensures Run(input, o, Start) == Run(input, o, Start.(marks := Marks(Some(0), None, None)))
  {
    hide Push, SepAt, SkipSeps;
    NoSkip(input, 0, o.param + o.arg + o.val, input[0] != LESS);
    TargetStep(input, o, Start.(marks := Marks(Some(0), None, None)));
  }

  /**
   * However links are spelled, the text is parsed into what they say: a target is what stands in the
   * angles, commas, semicolons and quotes included, and its parameters are read like all others.
   */
  lemma SpelledLinksParse(x: bytes, ls: seq<Link>, maxNesting: nat)
    requires SpellsLinks(x, ls) && AllFit(LinksWords(ls), true) && forall j :: 0 <= j < |ls| ==> LinkOk(ls[j])
    ensures Parse(x, Links(maxNesting)) == PutLinks([], ls)
  {
    hide Step, AllFit, LinkOk, SpellsLink, LinksWords, Run, PutArgs;
    var o := Links(maxNesting);
    if ls == [] {
      NothingParses(o);
    } else {
      LinksStart(x, ls);
      FirstLinkPass(x, o);
      assert x[0..] == x;
      LinksScan(x, o, Start.(marks := Marks(Some(0), None, None)), x, ls);
    }
  }

  lemma NothingParses(o: Options) ensures Parse([], o) == [] {}

  // ---- printing

  /** Some arguments are always quoted; a truth value among them is printed as a text. */
  function LinkValueText(k: bytes, v: Value): bytes {
    if !v.Arr? && MustQuote(k) then [EQUALS] + Quote(ParamPrinter.Text(v), true) else ValueText(v)
  }

  function LinkArgText(e: Entry): bytes { [SEMICOLON] + (e.key + LinkValueText(e.key, e.value)) }
  function LinkArgsText(es: seq<Entry>): bytes { if es == [] then [] else LinkArgText(es[0]) + LinkArgsText(es[1..]) }
  function OneLinkText(n: Named): bytes { [LESS] + n.key + [GREATER] + LinkArgsText(Flat(n.param.arguments)) }

  function LinksText(ps: seq<Named>): bytes {
    if ps == [] then []
    else if |ps| == 1 then OneLinkText(ps[0]) else OneLinkText(ps[0]) + ([COMMA] + LinksText(ps[1..]))
  }

  /** What is printed of an argument: its value, or the text that stands for it in quotes. */
  function LinkArg(e: Entry): Arg {
    Arg(e.key, if !e.value.Arr? && MustQuote(e.key) then Said.Text(ParamPrinter.Text(e.value)) else SaidOf(e.value))
  }

  function LinkArgs(es: seq<Entry>): seq<Arg> { if es == [] then [] else [LinkArg(es[0])] + LinkArgs(es[1..]) }

  ghost predicate LinkArgOk(e: Entry) { NamedOk(e.key, e.value) && !NeedsQuotes(e.key) }

  ghost predicate LinkParamOk(n: Named) {
    && TargetOk(n.key) && n.param.value.True? && !n.param.extended && ArgsOk(n.param.arguments)
    && forall i :: 0 <= i < |Flat(n.param.arguments)| ==> LinkArgOk(Flat(n.param.arguments)[i])
  }

  function LinkOf(n: Named): Link { Link(n.key, LinkArgs(Flat(n.param.arguments))) }
  function LinksOf(ps: seq<Named>): seq<Link> { if ps == [] then [] else [LinkOf(ps[0])] + LinksOf(ps[1..]) }

  lemma LinkArgSpells(e: Entry)
    requires LinkArgOk(e)
    ensures SpellsArg(LinkArgText(e), LinkArg(e)) && ArgOk(LinkArg(e))
  {
    hide NamedOk, SpellsNamed, NeedsQuotes, MustQuote;
    var k, v := e.key, e.value;
    assert SemicolonRun([SEMICOLON]);
    assert Q(k) == k;
    NamedSpells(k, v);
    if !v.Arr? && MustQuote(k) {
      QuotedSpells(k, v);
    } else {
      assert NamedText(k, v) == k + ValueText(v);
    }
  }

  lemma QuotedSpells(k: bytes, v: Value)
    requires NamedOk(k, v) && !v.Arr? && !NeedsQuotes(k)
    ensures var t := ParamPrinter.Text(v);
      SpellsNamed(k + ([EQUALS] + Quote(t, true)), k, Said.Text(t)) && ArgOk(Arg(k, Said.Text(t)))
  {
    hide Quote, NeedsQuotes, Spells, ParamPrinter.Text;
    var t := ParamPrinter.Text(v);
    PlainSpells(k);
    assert Q(k) == k by { PlainIsItself(k); }
    ForcedSpells(t);
    assert EqualsRun([EQUALS]);
    assert SpellsSaid([EQUALS] + Quote(t, true), Said.Text(t));
  }

  lemma PlainIsItself(k: bytes) requires !NeedsQuotes(k) ensures Q(k) == k {}

  lemma ForcedSpells(t: bytes)
    ensures Spells(Quote(t, true), t)
  {
    hide Quote;
    assert Quote(t, true) == Padded([], t, true, []);
  }

  lemma {:induction false} LinkArgsSpell(es: seq<Entry>)
    requires forall i :: 0 <= i < |es| ==> LinkArgOk(es[i])
    ensures SpellsArgs(LinkArgsText(es), LinkArgs(es))
    ensures |LinkArgs(es)| == |es| && forall i :: 0 <= i < |es| ==> LinkArgs(es)[i] == LinkArg(es[i]) && ArgOk(LinkArgs(es)[i])
  {
    hide LinkArgText, LinkArg, SpellsArg, ArgOk, LinkArgOk;
    if es != [] {
      LinkArgSpells(es[0]);
      LinkArgsSpell(es[1..]);
      assert LinkArgs(es)[1..] == LinkArgs(es[1..]);
    }
  }

  lemma OneLinkSpells(n: Named)
    requires LinkParamOk(n)
    ensures SpellsLink(OneLinkText(n), LinkOf(n)) && LinkOk(LinkOf(n))
  {
    hide LinkArgsText, Flat, LinkArgOk, ArgOk, SpellsArgs, TargetOk;
    var z := LinkArgsText(Flat(n.param.arguments));
    LinkArgsSpell(Flat(n.param.arguments));
    var w := [LESS] + n.key + [GREATER];
    assert w == Angled([], n.key, []);
    assert SpellsTarget(w, n.key);
    assert OneLinkText(n) == w + z;
  }

  lemma {:induction false} LinksSpell(ps: seq<Named>)
    requires forall i :: 0 <= i < |ps| ==> LinkParamOk(ps[i])
    ensures SpellsLinks(LinksText(ps), LinksOf(ps))
    ensures |LinksOf(ps)| == |ps| && forall i :: 0 <= i < |ps| ==> LinksOf(ps)[i] == LinkOf(ps[i]) && LinkOk(LinkOf(ps[i]))
  {
    hide OneLinkText, LinkOk, LinkOf, SpellsLink, LinkParamOk, SpellsLinks;
    if ps == [] {
      assert SpellsLinks([], []) by { NoLinkSpelled(); }
    } else {
      OneLinkSpells(ps[0]);
      LinksSpell(ps[1..]);
      var ls := LinksOf(ps);
      assert ls[0] == LinkOf(ps[0]) && ls[1..] == LinksOf(ps[1..]);
      if |ps| == 1 { LastLinkSpells(OneLinkText(ps[0]), ls); } else { MoreLinks(OneLinkText(ps[0]), LinksText(ps[1..]), ls); }
    }
  }

  lemma NoLinkSpelled() ensures SpellsLinks([], []) {}

  lemma LastLinkSpells(x: bytes, ls: seq<Link>)
    requires |ls| == 1 && SpellsLink(x, ls[0])
    ensures SpellsLinks(x, ls)
  {
    hide SpellsLink;
  }

  lemma MoreLinks(y: bytes, z: bytes, ls: seq<Link>)
    requires |ls| > 1 && SpellsLink(y, ls[0]) && SpellsLinks(z, ls[1..])
    ensures SpellsLinks(y + ([COMMA] + z), ls)
  {
    hide SpellsLink;
    assert CommaRun([COMMA]);
  }

  lemma LinkArgPrints(buf: bytes, e: Entry)
    requires buf != [] && PrintableValue(e.value)
    ensures (if e.value.Arr? then ShiftExtended(ShiftKey(buf, e.key, [SEMICOLON], LinkFlags), e.value, [EQUALS], LinkFlags)
             else ShiftArg(buf, e.key, e.value, DefaultSeps, LinkFlags)) == buf + LinkArgText(e)
  {
    hide Quote, UrlEncode, ParamPrinter.Text, MustQuote;
    var b, t := buf + [SEMICOLON] + e.key, LinkValueText(e.key, e.value);
    assert ShiftKey(buf, e.key, [SEMICOLON], LinkFlags) == b;
    assert b + t == buf + LinkArgText(e);
    if e.value.Arr? {
      assert ShiftExtended(b, e.value, [EQUALS], LinkFlags) == b + t;
    } else if MustQuote(e.key) {
      assert b + [EQUALS] + Quote(ParamPrinter.Text(e.value), true) == b + t;
    } else if e.value.Str? {
      TextIs(e.value.text);
      assert b + [EQUALS] + Q(e.value.text) == b + t;
    }
  }

  lemma {:induction false} LinkExtendedPrint(buf: bytes, es: seq<Entry>, i: nat)
    requires buf != [] && i <= |es| && forall k :: 0 <= k < |es| ==> es[k].value.Arr? && es[k].value.entries != []
    ensures ShiftArgs(buf, Arr(es), i, true, DefaultSeps, LinkFlags) == buf + LinkArgsText(es[i..])
    decreases |es| - i
  {
    hide ShiftArg, LinkArgText, ShiftExtended, ShiftKey;
    if i < |es| {
      var e := es[i];
      LinkArgPrints(buf, e);
      LinkExtendedPrint(buf + LinkArgText(e), es, i + 1);
      assert es[i..][1..] == es[i + 1..] && es[i..][0] == e;
      SeqAssoc(buf, LinkArgText(e), LinkArgsText(es[i + 1..]));
    }
  }

  lemma {:induction false} LinkArgsConcat(xs: seq<Entry>, ys: seq<Entry>)
    ensures LinkArgsText(xs + ys) == LinkArgsText(xs) + LinkArgsText(ys)
  {
    hide LinkArgText;
    if xs == [] {
      assert xs + ys == ys;
    } else {
      assert (xs + ys)[1..] == xs[1..] + ys;
      LinkArgsConcat(xs[1..], ys);
      SeqAssoc(LinkArgText(xs[0]), LinkArgsText(xs[1..]), LinkArgsText(ys));
    }
  }

  lemma LinkEntryPrints(buf: bytes, e: Entry)
    requires buf != [] && PrintableEntry(e)
    ensures ShiftArg(buf, e.key, e.value, DefaultSeps, LinkFlags)
      == buf + LinkArgsText(if e.key == RFC5987_KEY && e.value.Arr? then e.value.entries else [e])
  {
    hide ShiftArgs, LinkArgText, ShiftExtended, ShiftKey, ShiftVal;
    if e.value.Arr? {
      LinkExtendedPrint(buf, e.value.entries, 0);
      assert e.value.entries[0..] == e.value.entries;
    } else {
      LinkArgPrints(buf, e);
      assert [e][1..] == [] && LinkArgsText([e]) == LinkArgText(e) + [];
    }
  }

  lemma {:induction false} LinkArgsPrint(buf: bytes, es: seq<Entry>, i: nat)
    requires buf != [] && i <= |es| && forall k :: 0 <= k < |es| ==> PrintableEntry(es[k])
    ensures ShiftArgs(buf, Arr(es), i, false, DefaultSeps, LinkFlags) == buf + LinkArgsText(Flat(es[i..]))
    decreases |es| - i
  {
    hide ShiftArg, LinkArgText, PrintableEntry, LinkArgsText;
    if i == |es| {
      assert LinkArgsText([]) == [] by { NoLinkArgs(); }
    } else {
      var e := es[i];
      var xs := if e.key == RFC5987_KEY && e.value.Arr? then e.value.entries else [e];
      LinkEntryPrints(buf, e);
      LinkArgsPrint(buf + LinkArgsText(xs), es, i + 1);
      assert es[i..][1..] == es[i + 1..] && es[i..][0] == e;
      LinkArgsConcat(xs, Flat(es[i + 1..]));
      SeqAssoc(buf, LinkArgsText(xs), LinkArgsText(Flat(es[i + 1..])));
    }
  }

  lemma NoLinkArgs() ensures LinkArgsText([]) == [] {}

  lemma LinkPrints(buf: bytes, n: Named, x: bool)
    requires LinkParamOk(n)
    ensures var b := ShiftParam(buf, n.key, n.param.value, DefaultSeps, LinkFlags, x);
      ShiftArgs(b, Arr(n.param.arguments), 0, false, DefaultSeps, LinkFlags)
      == (if buf == [] then buf else buf + [COMMA]) + OneLinkText(n)
  {
    hide ShiftArgs, LinkArgsText, Flat, EntryOk, LinkArgOk, TargetOk, PrintableEntry;
    var sep, es := if buf == [] then buf else buf + [COMMA], n.param.arguments;
    var b := sep + ([LESS] + n.key + [GREATER]);
    assert ShiftParam(buf, n.key, n.param.value, DefaultSeps, LinkFlags, x) == b by {
      assert sep + [LESS] + n.key + [GREATER] == b;
    }
    forall k | 0 <= k < |es| ensures PrintableEntry(es[k]) { EntryIsPrintable(es[k]); }
    LinkArgsPrint(b, es, 0);
    assert es[0..] == es;
    SeqAssoc(sep, [LESS] + n.key + [GREATER], LinkArgsText(Flat(es)));
  }

  lemma {:induction false} LinksPrint(buf: bytes, ps: seq<Named>, i: nat, x: bool)
    requires i <= |ps| && forall k :: 0 <= k < |ps| ==> LinkParamOk(ps[k])
    ensures PrintFrom(buf, ps, i, x, DefaultSeps, LinkFlags)
      == if i == |ps| then buf else (if buf == [] then buf else buf + [COMMA]) + LinksText(ps[i..])
    decreases |ps| - i
  {
    hide ShiftParam, ShiftArgs, OneLinkText, LinksText, LinkParamOk;
    if i < |ps| {
      var n := ps[i];
      var sep := if buf == [] then buf else buf + [COMMA];
      var one := sep + OneLinkText(n);
      LinkPrints(buf, n, x || n.param.extended);
      LinksPrint(one, ps, i + 1, x || n.param.extended);
      assert one != [] by { LinkTextStart(n); }
      LinkTextSteps(ps, i);
      if i + 1 < |ps| {
        SeqAssoc(one, [COMMA], LinksText(ps[i + 1..]));
        SeqAssoc(sep, OneLinkText(n), [COMMA] + LinksText(ps[i + 1..]));
      }
    }
  }

  lemma LinkTextStart(n: Named) ensures OneLinkText(n) != [] { hide LinkArgsText; }

  lemma LinkTextSteps(ps: seq<Named>, i: nat)
    requires i < |ps|
    ensures LinksText(ps[i..])
      == if i + 1 < |ps| then OneLinkText(ps[i]) + ([COMMA] + LinksText(ps[i + 1..])) else OneLinkText(ps[i])
  {
    hide OneLinkText;
    assert ps[i..][1..] == ps[i + 1..] && ps[i..][0] == ps[i];
  }

  lemma LinksPrintText(ps: seq<Named>)
    requires forall i :: 0 <= i < |ps| ==> LinkParamOk(ps[i])
    ensures Print(ps, DefaultSeps, LinkFlags) == LinksText(ps)
  {
    hide PrintFrom, LinksText, LinkParamOk;
    LinksPrint([], ps, 0, false);
    assert ps[0..] == ps && LinksText([]) == [] by { NoLinksText(); }
    assert [] + LinksText(ps) == LinksText(ps);
  }

  /** What is read back of printed links: their targets, and of each argument the value or the text in its quotes. */
  lemma PrintedLinksParse(ps: seq<Named>, maxNesting: nat)
    requires forall i :: 0 <= i < |ps| ==> LinkParamOk(ps[i])
    requires AllFit(LinksWords(LinksOf(ps)), true)
    ensures Parse(Print(ps, DefaultSeps, LinkFlags), Links(maxNesting)) == PutLinks([], LinksOf(ps))
  {
    hide Parse, Print, LinksText, AllFit, LinkParamOk, LinkOk, LinkOf, PutLinks, LinksWords, SpellsLinks;
    LinksPrintText(ps);
    LinksSpell(ps);
    SpelledLinksParse(LinksText(ps), LinksOf(ps), maxNesting);
  }

  lemma NoLinksText() ensures LinksText([]) == [] {}

  // ---- the round trip, and where it ends

  /** None of the arguments that are always quoted is a truth value. */
  ghost predicate NoneIsTrue(n: Named) {
    forall i :: 0 <= i < |Flat(n.param.arguments)| ==>
      MustQuote(Flat(n.param.arguments)[i].key) ==> !Flat(n.param.arguments)[i].value.True?
  }

  lemma {:induction false} SameArgs(es: seq<Entry>)
    requires forall i :: 0 <= i < |es| ==> LinkArgOk(es[i]) && (MustQuote(es[i].key) ==> !es[i].value.True?)
    ensures LinkArgs(es) == ArgsOf(es)
  {
    hide MustQuote;
    if es != [] {
      assert LinkArgOk(es[0]);
      SameArgs(es[1..]);
    }
  }

  lemma LinkIsSaid(n: Named)
    requires LinkParamOk(n) && NoneIsTrue(n)
    ensures Param(false, True, PutArgs([], LinkOf(n).args)) == n.param
  {
    hide LinkArgOk, PutArgs, Flat, ArgsOf, LinkArgs, MustQuote, ArgsOk, TargetOk;
    SameArgs(Flat(n.param.arguments));
    assert [] + n.param.arguments == n.param.arguments;
    ArgsAreSaid([], n.param.arguments);
  }

  lemma {:induction false} LinksAreSaid(done: seq<Named>, ps: seq<Named>)
    requires forall i :: 0 <= i < |ps| ==> LinkParamOk(ps[i]) && NoneIsTrue(ps[i])
    requires var all := done + ps; forall i, j :: 0 <= i < j < |all| ==> all[i].key != all[j].key
    ensures PutLinks(done, LinksOf(ps)) == done + ps
    decreases |ps|
  {
    hide LinkParamOk, NoneIsTrue, PutNamed, PutArgs, LinkArgs;
    if ps == [] {
      assert done + ps == done;
    } else {
      var n, all := ps[0], done + ps;
      assert all[|done|] == n && forall i :: 0 <= i < |done| ==> all[i] == done[i];
      LinkIsSaid(n);
      PutAtEnd(done, n.key, n.param, n.param);
      assert (done + [n]) + ps[1..] == all;
      LinksAreSaid(done + [n], ps[1..]);
      assert LinksOf(ps)[1..] == LinksOf(ps[1..]);
    }
  }

  /**
   * Parsing printed links gives them back: any targets that have no angle at their end, arguments that
   * are true, text or extended under names that need no quotes, and texts for those always quoted.
   */
  lemma LinksRoundTrip(ps: seq<Named>, maxNesting: nat)
    requires forall i :: 0 <= i < |ps| ==> LinkParamOk(ps[i]) && NoneIsTrue(ps[i])
    requires forall i, j :: 0 <= i < j < |ps| ==> ps[i].key != ps[j].key
    requires AllFit(LinksWords(LinksOf(ps)), true)
    ensures Parse(Print(ps, DefaultSeps, LinkFlags), Links(maxNesting)) == ps
  {
    hide Parse, Print, AllFit, LinkParamOk, NoneIsTrue, PutLinks, LinksOf;
    PrintedLinksParse(ps, maxNesting);
    assert [] + ps == ps;
    LinksAreSaid([], ps);
  }

  /** A relation that is merely true is printed as "1" and read back as that text. */
  lemma TrueRelationIsOne(target: bytes, maxNesting: nat)
    requires TargetOk(target)
    ensures Parse(Print([Named(target, Param(false, True, [Entry(Lit("rel"), True)]))], DefaultSeps, LinkFlags), Links(maxNesting))
      == [Named(target, Param(false, True, [Entry(Lit("rel"), Str([49]))]))]
  {
    hide Parse, Print, TargetOk, AllFit;
    var e := Entry(Lit("rel"), True);
    var n := Named(target, Param(false, True, [e]));
    RelIsPlain();
    assert [e][1..] == [] && Flat([e]) == [e];
    assert [n][1..] == [] && LinksOf([n]) == [LinkOf(n)];
    var a := Arg(Lit("rel"), Said.Text([49]));
    assert LinkArgs([e]) == [a] && [a][1..] == [];
    OneLinkWords(target, Lit("rel"), [49]);
    assert AllFit([[], Lit("rel"), [49]], true) by { RelFits(); }
    PrintedLinksParse([n], maxNesting);
    assert [LinkOf(n)][1..] == [];
    assert Put([], Lit("rel"), Str([49])) == [Entry(Lit("rel"), Str([49]))];
    assert PutArgs([], [a]) == [Entry(Lit("rel"), Str([49]))];
  }

  lemma OneLinkWords(target: bytes, name: bytes, text: bytes)
    ensures LinksWords([Link(target, [Arg(name, Said.Text(text))])]) == [[], name, text]
  {
    var l, a := Link(target, [Arg(name, Said.Text(text))]), Arg(name, Said.Text(text));
    assert [l][1..] == [] && [a][1..] == [];
    assert ArgsWords([a]) == [name] + [text] + [];
    assert LinksWords([l]) == ([[]] + ArgsWords([a])) + [];
  }

  lemma RelIsLiteral()
    ensures Lit("rel") == [114, 101, 108]
  {}

  lemma RelEscapes()
    ensures var r: bytes := [114, 101, 108]; Escape(r) == r
  {
    var r: bytes := [114, 101, 108];
    assert r[1..] == [101, 108] && r[1..][1..] == [108] && r[1..][1..][1..] == [];
    assert Escape([]) == [] && Escape([108]) == [108] && Escape([101, 108]) == [101, 108];
  }

  lemma RelIsPlain()
    ensures var r := Lit("rel"); !NeedsQuotes(r) && MustQuote(r) && NameOk(r) && r != RFC5987_KEY
  {
    hide Escape;
    RelIsLiteral();
    RelEscapes();
  }

  lemma RelFits() ensures AllFit([[], Lit("rel"), [49]], true) {}
}
