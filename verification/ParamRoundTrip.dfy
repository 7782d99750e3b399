/** With the default options, parsing a printed parameter table gives the table back. */
module ParamRoundTrip {
  import opened Bytes
  import opened ParamText
  import opened ParamTable
  import opened ParamParser
  import opened ParamPrinter
  import opened ParamGrammar

  type Value = ParamTable.Value

  const DefaultSeps := Seps([COMMA], [SEMICOLON], [EQUALS])

  // ---- which tables are printed faithfully

  predicate Simple(v: Value) { v.True? || v.Str? }

  /** A text under its language. */
  ghost predicate EncodedOk(v: Value) {
    v.Arr? && |v.entries| == 1 && v.entries[0].value.Str? && Bare(v.entries[0].key) && APOSTROPHE !in v.entries[0].key
  }

  ghost predicate NamedOk(k: bytes, v: Value) {
    if v.Arr? then k != [] && !NeedsQuotes(k) && EncodedOk(v) else NameOk(k) && Simple(v)
  }

  ghost predicate Distinct(es: seq<Entry>) { forall i, j :: 0 <= i < j < |es| ==> es[i].key != es[j].key }

  /** An argument, or the table of the extended ones. */
  ghost predicate EntryOk(e: Entry) {
    if e.key == RFC5987_KEY then
      && e.value.Arr? && e.value.entries != [] && Distinct(e.value.entries)
      && forall i :: 0 <= i < |e.value.entries| ==> e.value.entries[i].value.Arr? && NamedOk(e.value.entries[i].key, e.value.entries[i].value)
    else !e.value.Arr? && NamedOk(e.key, e.value)
  }

  ghost predicate ArgsOk(es: seq<Entry>) { Distinct(es) && forall i :: 0 <= i < |es| ==> EntryOk(es[i]) }

  ghost predicate ParamOk(k: bytes, p: Param) {
    NamedOk(k, p.value) && p.extended == p.value.Arr? && ArgsOk(p.arguments)
  }

  /**
   * Values and arguments that are true or text under distinct non-empty names without the mark of an
   * extended one, or extended ones: a text under its language, and a name that needs no quotes.
   */
  ghost predicate TableOk(ps: seq<Named>) {
    && (forall i :: 0 <= i < |ps| ==> ParamOk(ps[i].key, ps[i].param))
    && (forall i, j :: 0 <= i < j < |ps| ==> ps[i].key != ps[j].key)
  }

  // ---- the text of a table

  function Q(t: bytes): bytes { Quote(t, false) }

  /** Arguments in the order they are printed, each extended one by itself. */
  function Flat(es: seq<Entry>): seq<Entry> {
    if es == [] then []
    else (if es[0].key == RFC5987_KEY && es[0].value.Arr? then es[0].value.entries else [es[0]]) + Flat(es[1..])
  }

  /** The first entry of a language table, as it is printed. */
  function EncodedText(v: Value): bytes
    requires v.Arr?
  {
    if v.entries == [] then []
    else
      var e := v.entries[0];
      [STAR] + [EQUALS] + Lit("utf-8'") + e.key + [APOSTROPHE] + Q(UrlEncode(ParamPrinter.Text(e.value)))
  }

  function ValueText(v: Value): bytes {
    if v.Arr? then EncodedText(v) else if v.Str? then [EQUALS] + Q(v.text) else []
  }

  function NamedText(k: bytes, v: Value): bytes { Q(k) + ValueText(v) }

  function ArgText(e: Entry): bytes { [SEMICOLON] + NamedText(e.key, e.value) }

  function ArgsText(es: seq<Entry>): bytes { if es == [] then [] else ArgText(es[0]) + ArgsText(es[1..]) }

  function OneText(n: Named): bytes { NamedText(n.key, n.param.value) + ArgsText(Flat(n.param.arguments)) }

  function TableText(ps: seq<Named>): bytes {
    if ps == [] then []
    else if |ps| == 1 then OneText(ps[0]) else OneText(ps[0]) + ([COMMA] + TableText(ps[1..]))
  }

  // ---- what a table says

  function SaidOf(v: Value): Said {
    match v
    case Str(t) => Said.Text(t)
    case Arr(es) =>
      if es == [] then Nothing else Encoded(es[0].key, if es[0].value.Str? then es[0].value.text else [], false)
    case _ => Nothing
  }

  function ArgOf(e: Entry): Arg { Arg(e.key, SaidOf(e.value)) }
  function ArgsOf(es: seq<Entry>): seq<Arg> { if es == [] then [] else [ArgOf(es[0])] + ArgsOf(es[1..]) }

  function ItemOf(n: Named): Item { Item(n.key, SaidOf(n.param.value), ArgsOf(Flat(n.param.arguments))) }
  function ItemsOf(ps: seq<Named>): seq<Item> { if ps == [] then [] else [ItemOf(ps[0])] + ItemsOf(ps[1..]) }

  /** The names and texts of a table, in the order they are printed. */
  function Tokens(ps: seq<Named>): seq<bytes> { Words(ItemsOf(ps)) }

  // ---- the text spells what the table says

  lemma PlainSpells(t: bytes)
    ensures Spells(Q(t), t)
  {
    hide Quote;
    assert Q(t) == Padded([], t, false, []);
  }

  lemma {:induction false} EscapeConcat(a: bytes, b: bytes)
    ensures Escape(a + b) == Escape(a) + Escape(b)
  {
    hide EscapeByte;
    if a == [] {
      assert a + b == b;
    } else {
      assert (a + b)[1..] == a[1..] + b;
      EscapeConcat(a[1..], b);
      SeqAssoc(EscapeByte(a[0]), Escape(a[1..]), Escape(b));
    }
  }

  lemma StarIsPlain()
    ensures Escape([STAR]) == [STAR] && !IsTspecial(STAR)
  {
    assert [STAR][1..] == [];
  }

  /** The mark of an extended name asks for no quotes. */
  lemma StarNeedsNoQuotes(k: bytes)
    requires !NeedsQuotes(k)
    ensures !NeedsQuotes(k + [STAR])
  {
    hide Escape;
    EscapeConcat(k, [STAR]);
    StarIsPlain();
    assert forall i :: 0 <= i < |k| ==> (k + [STAR])[i] == k[i];
  }

  lemma StarredSpells(k: bytes)
    requires !NeedsQuotes(k)
    ensures Spells(Q(k) + [STAR], k + [STAR])
  {
    StarNeedsNoQuotes(k);
    PlainSpells(k + [STAR]);
  }

  lemma UrlByteIsBare(b: byte)
    requires UrlByte(b)
    ensures IsBare(b) && !IsTrimmed(b) && !IsTspecial(b) && |EscapeByte(b)| == 1
  {}

  lemma {:induction false} UrlTextNeedsNoQuotes(x: bytes)
    requires forall i :: 0 <= i < |x| ==> UrlByte(x[i])
    ensures |Escape(x)| == |x| && Bare(x) && forall i :: 0 <= i < |x| ==> !IsTspecial(x[i]) && !IsTrimmed(x[i])
  {
    hide UrlByte, IsBare, IsTspecial, IsTrimmed, EscapeByte;
    if x != [] {
      UrlByteIsBare(x[0]);
      UrlTextNeedsNoQuotes(x[1..]);
      assert forall i :: 1 <= i < |x| ==> x[i] == x[1..][i - 1];
    }
  }

  lemma UrlTextIsPlain(t: bytes)
    ensures Q(UrlEncode(t)) == UrlEncode(t) && Bare(UrlEncode(t)) && UrlDecode(UrlEncode(t)) == t
    ensures UrlEncode(t) != [] ==> !IsTrimmed(UrlEncode(t)[|UrlEncode(t)| - 1])
  {
    hide Escape, UrlEncode, UrlDecode, UrlByte, IsTspecial, IsTrimmed, IsBare;
    UrlDecodeEncode(t);
    UrlTextNeedsNoQuotes(UrlEncode(t));
  }

  lemma Utf8IsCharset()
    ensures CharsetOk(Lit("utf-8"), false) && Lit("utf-8'") == Lit("utf-8") + [APOSTROPHE]
  {}

  lemma EncodedSpells(v: Value)
    requires EncodedOk(v)
    ensures |EncodedText(v)| > 0 && EncodedText(v)[0] == STAR && SpellsSaid(EncodedText(v)[1..], SaidOf(v))
  {
    hide Quote, UrlEncode, UrlDecode, CharsetOk, Bare;
    var e := v.entries[0];
    var enc := UrlEncode(e.value.text);
    UrlTextIsPlain(e.value.text);
    Utf8IsCharset();
    var c := Lit("utf-8");
    var w := ExtendedText(c, e.key, enc);
    assert w == PaddedExtended([], c, e.key, enc, []);
    assert SpellsExtended(w, SaidOf(v));
    assert EncodedText(v) == [STAR] + ([EQUALS] + w);
    assert EqualsRun([EQUALS]);
  }

  lemma ValueSpells(v: Value)
    requires Simple(v)
    ensures SpellsSaid(ValueText(v), SaidOf(v))
  {
    hide Quote, Spells;
    if v.Str? {
      PlainSpells(v.text);
      assert EqualsRun([EQUALS]);
    }
  }

  lemma NamedSpells(k: bytes, v: Value)
    requires NamedOk(k, v)
    ensures SpellsNamed(NamedText(k, v), k, SaidOf(v)) && ArgOk(Arg(k, SaidOf(v)))
    ensures v.Arr? ==> SaidOf(v).Encoded? && !SaidOf(v).latin1
    ensures ParamGrammar.Value(SaidOf(v)) == v
  {
    hide Quote, NeedsQuotes, Spells, SpellsSaid, EncodedText;
    if v.Arr? {
      StarredSpells(k);
      EncodedSpells(v);
      var u := EncodedText(v)[1..];
      assert EncodedText(v) == [STAR] + u;
      SeqAssoc(Q(k), [STAR], u);
    } else {
      PlainSpells(k);
      ValueSpells(v);
    }
  }

  ghost predicate AllNamedOk(es: seq<Entry>) { forall i :: 0 <= i < |es| ==> NamedOk(es[i].key, es[i].value) }

  lemma {:induction false} FlatIsOk(es: seq<Entry>)
    requires forall i :: 0 <= i < |es| ==> EntryOk(es[i])
    ensures AllNamedOk(Flat(es))
  {
    hide NamedOk, Distinct;
    if es != [] {
      FlatIsOk(es[1..]);
      assert EntryOk(es[0]);
    }
  }

  lemma ArgSpells(e: Entry)
    requires NamedOk(e.key, e.value)
    ensures SpellsArg(ArgText(e), ArgOf(e))
  {
    hide NamedText, SpellsNamed;
    NamedSpells(e.key, e.value);
    assert SemicolonRun([SEMICOLON]);
  }

  lemma {:induction false} ArgsSpell(es: seq<Entry>)
    requires AllNamedOk(es)
    ensures SpellsArgs(ArgsText(es), ArgsOf(es))
    ensures |ArgsOf(es)| == |es| && forall i :: 0 <= i < |es| ==> ArgsOf(es)[i] == ArgOf(es[i]) && ArgOk(ArgsOf(es)[i])
  {
    hide ArgText, SpellsArg, ArgOk, NamedOk;
    if es != [] {
      ArgSpells(es[0]);
      NamedSpells(es[0].key, es[0].value);
      ArgsSpell(es[1..]);
      assert ArgsOf(es)[1..] == ArgsOf(es[1..]);
    }
  }

  lemma OneSpells(n: Named)
    requires ParamOk(n.key, n.param)
    ensures SpellsItem(OneText(n), ItemOf(n)) && ItemOk(ItemOf(n))
  {
    hide NamedText, ArgsText, Flat, NamedOk, SpellsNamed, SpellsArgs, ArgOk, EntryOk;
    NamedSpells(n.key, n.param.value);
    FlatIsOk(n.param.arguments);
    ArgsSpell(Flat(n.param.arguments));
  }

  lemma {:induction false} TableSpells(ps: seq<Named>)
    requires forall i :: 0 <= i < |ps| ==> ParamOk(ps[i].key, ps[i].param)
    ensures SpellsItems(TableText(ps), ItemsOf(ps))
    ensures |ItemsOf(ps)| == |ps| && forall i :: 0 <= i < |ps| ==> ItemsOf(ps)[i] == ItemOf(ps[i]) && ItemOk(ItemOf(ps[i]))
  {
    hide OneText, ItemOk, ItemOf, SpellsItem, ParamOk, SpellsItems;
    if ps == [] {
      assert SpellsItems([], []) by { NothingSpelled(); }
    } else {
      OneSpells(ps[0]);
      TableSpells(ps[1..]);
      var items := ItemsOf(ps);
      assert items[0] == ItemOf(ps[0]) && items[1..] == ItemsOf(ps[1..]);
      if |ps| == 1 { OneItemSpells(OneText(ps[0]), items); } else { MoreSpell(OneText(ps[0]), TableText(ps[1..]), items); }
    }
  }

  lemma NothingSpelled() ensures SpellsItems([], []) {}

  lemma OneItemSpells(x: bytes, items: seq<Item>)
    requires |items| == 1 && SpellsItem(x, items[0])
    ensures SpellsItems(x, items)
  {
    hide SpellsItem;
  }

  lemma MoreSpell(y: bytes, z: bytes, items: seq<Item>)
    requires |items| > 1 && SpellsItem(y, items[0]) && SpellsItems(z, items[1..])
    ensures SpellsItems(y + ([COMMA] + z), items)
  {
    hide SpellsItem;
    assert CommaRun([COMMA]);
  }

  // ---- what is said is the table

  lemma {:induction false} PutArgsConcat(es: seq<Entry>, xs: seq<Arg>, ys: seq<Arg>)
    ensures PutArgs(es, xs + ys) == PutArgs(PutArgs(es, xs), ys)
    decreases |xs|
  {
    hide PutArg;
    if xs == [] {
      assert xs + ys == ys;
    } else {
      assert (xs + ys)[1..] == xs[1..] + ys;
      PutArgsConcat(PutArg(es, xs[0]), xs[1..], ys);
    }
  }

  lemma {:induction false} ArgsOfConcat(xs: seq<Entry>, ys: seq<Entry>)
    ensures ArgsOf(xs + ys) == ArgsOf(xs) + ArgsOf(ys)
  {
    if xs == [] {
      assert xs + ys == ys;
    } else {
      assert (xs + ys)[1..] == xs[1..] + ys;
      ArgsOfConcat(xs[1..], ys);
    }
  }

  lemma PutNew(es: seq<Entry>, k: bytes, v: Value)
    requires forall i :: 0 <= i < |es| ==> es[i].key != k
    ensures Put(es, k, v) == es + [Entry(k, v)]
  {}

  lemma FindLast(es: seq<Entry>, e: Entry)
    requires forall i :: 0 <= i < |es| ==> es[i].key != e.key
    ensures Find(es + [e], e.key) == |es|
  {
    hide Find;
    var all := es + [e];
    assert all[|es|] == e && forall i :: 0 <= i < |es| ==> all[i] == es[i];
  }

  /** An extended argument more, in the table of extended ones at the end. */
  lemma ExtendedPut(done: seq<Entry>, held: seq<Entry>, e: Entry)
    requires forall i :: 0 <= i < |done| ==> done[i].key != RFC5987_KEY
    requires forall i :: 0 <= i < |held| ==> held[i].key != e.key
    ensures PutExtended(Holding(done, held), e.key, e.value) == Holding(done, held + [e])
  {
    hide Find;
    PutNew(held, e.key, e.value);
    if held == [] {
      PutNew(done, RFC5987_KEY, Arr([e]));
      assert [] + [e] == [e];
    } else {
      FindLast(done, Entry(RFC5987_KEY, Arr(held)));
    }
  }

  /** Where the extended arguments are held, if there are any. */
  function Holding(done: seq<Entry>, held: seq<Entry>): seq<Entry> {
    if held == [] then done else done + [Entry(RFC5987_KEY, Arr(held))]
  }

  lemma NamedIsPut(es: seq<Entry>, e: Entry)
    requires NamedOk(e.key, e.value)
    ensures PutArg(es, ArgOf(e)) == if e.value.Arr? then PutExtended(es, e.key, e.value) else Put(es, e.key, e.value)
  {
    hide NamedOk, PutExtended, Put;
    NamedSpells(e.key, e.value);
    if !e.value.Arr? { SimpleIsSaid(e.value); }
  }

  lemma {:induction false} ExtendedAreSaid(done: seq<Entry>, held: seq<Entry>, es: seq<Entry>)
    requires forall i :: 0 <= i < |done| ==> done[i].key != RFC5987_KEY
    requires Distinct(held + es) && AllNamedOk(es) && forall i :: 0 <= i < |es| ==> es[i].value.Arr?
    ensures PutArgs(Holding(done, held), ArgsOf(es)) == Holding(done, held + es)
    decreases |es|
  {
    hide NamedOk, PutExtended, Put, PutArg, Holding, ArgOf;
    if es == [] {
      assert held + es == held;
    } else {
      var e, all := es[0], held + es;
      assert all[|held|] == e && forall i :: 0 <= i < |held| ==> all[i] == held[i];
      NamedIsPut(Holding(done, held), e);
      assert PutExtended(Holding(done, held), e.key, e.value) == Holding(done, held + [e]) by {
        ExtendedPut(done, held, e);
      }
      assert (held + [e]) + es[1..] == all;
      ExtendedAreSaid(done, held + [e], es[1..]);
      assert ArgsOf(es)[0] == ArgOf(e) && ArgsOf(es)[1..] == ArgsOf(es[1..]);
    }
  }

  lemma EntryIsSaid(done: seq<Entry>, e: Entry)
    requires EntryOk(e) && forall i :: 0 <= i < |done| ==> done[i].key != e.key
    ensures PutArgs(done, ArgsOf(if e.key == RFC5987_KEY && e.value.Arr? then e.value.entries else [e])) == done + [e]
  {
    hide NamedOk, PutExtended, Put, PutArg, ArgOf;
    if e.key == RFC5987_KEY {
      assert [] + e.value.entries == e.value.entries;
      ExtendedAreSaid(done, [], e.value.entries);
    } else {
      NamedIsPut(done, e);
      PutNew(done, e.key, e.value);
      OneIsPut(done, e);
    }
  }

  lemma OneIsPut(es: seq<Entry>, e: Entry)
    ensures PutArgs(es, ArgsOf([e])) == PutArg(es, ArgOf(e))
  {
    hide PutArg, ArgOf;
    assert [e][1..] == [] && [ArgOf(e)][1..] == [];
    assert ArgsOf([e]) == [ArgOf(e)] + ArgsOf([]);
  }

  lemma SimpleIsSaid(v: Value) requires !v.Arr? ensures !SaidOf(v).Encoded? {}

  lemma {:induction false} ArgsAreSaid(done: seq<Entry>, es: seq<Entry>)
    requires ArgsOk(done + es)
    ensures PutArgs(done, ArgsOf(Flat(es))) == done + es
    decreases |es|
  {
    hide EntryOk, PutArgs;
    if es == [] {
      NothingPut(done);
      assert done + es == done;
    } else {
      var e, all := es[0], done + es;
      assert all[|done|] == e && forall i :: 0 <= i < |done| ==> all[i] == done[i];
      var xs := if e.key == RFC5987_KEY && e.value.Arr? then e.value.entries else [e];
      ArgsOfConcat(xs, Flat(es[1..]));
      PutArgsConcat(done, ArgsOf(xs), ArgsOf(Flat(es[1..])));
      EntryIsSaid(done, e);
      assert (done + [e]) + es[1..] == all;
      ArgsAreSaid(done + [e], es[1..]);
    }
  }

  lemma NothingPut(es: seq<Entry>) ensures PutArgs(es, []) == es && ArgsOf(Flat([])) == [] {}

  lemma OneIsSaid(n: Named)
    requires ParamOk(n.key, n.param)
    ensures ParamOf(ItemOf(n)) == n.param
  {
    hide EntryOk, PutArgs, Flat, ArgsOf, NamedOk;
    NamedSpells(n.key, n.param.value);
    if !n.param.value.Arr? { SimpleIsSaid(n.param.value); }
    assert [] + n.param.arguments == n.param.arguments;
    ArgsAreSaid([], n.param.arguments);
  }

  lemma {:induction false} TableIsSaid(done: seq<Named>, ps: seq<Named>)
    requires TableOk(done + ps)
    ensures PutItems(done, ItemsOf(ps)) == done + ps
    decreases |ps|
  {
    hide ParamOk, PutNamed, ParamOf, ItemOf;
    if ps == [] {
      assert done + ps == done;
    } else {
      var n, all := ps[0], done + ps;
      assert all[|done|] == n && forall i :: 0 <= i < |done| ==> all[i] == done[i];
      OneIsSaid(n);
      PutAtEnd(done, n.key, n.param, n.param);
      assert ItemOf(n).name == n.key by { ItemIsOf(n); }
      assert (done + [n]) + ps[1..] == all;
      TableIsSaid(done + [n], ps[1..]);
      assert ItemsOf(ps)[1..] == ItemsOf(ps[1..]);
    }
  }

  lemma ItemIsOf(n: Named) ensures ItemOf(n).name == n.key {}

  // ---- the printed text

  ghost predicate PrintableValue(v: Value) {
    v.True? || v.Str? || (v.Arr? && v.entries != [])
  }

  lemma NamedPrints(buf: bytes, e: Entry)
    requires buf != [] && PrintableValue(e.value)
    ensures (if e.value.Arr? then ShiftExtended(ShiftKey(buf, e.key, [SEMICOLON], DefaultFlags), e.value, [EQUALS], DefaultFlags)
             else ShiftArg(buf, e.key, e.value, DefaultSeps, DefaultFlags)) == buf + ArgText(e)
  {
    hide Quote, UrlEncode, ParamPrinter.Text;
    var b := buf + [SEMICOLON] + Q(e.key);
    assert ShiftKey(buf, e.key, [SEMICOLON], DefaultFlags) == b;
    assert b + ValueText(e.value) == buf + ArgText(e);
    if e.value.Arr? {
      assert ShiftExtended(b, e.value, [EQUALS], DefaultFlags) == b + ValueText(e.value);
    } else if e.value.Str? {
      TextIs(e.value.text);
      assert b + [EQUALS] + Q(e.value.text) == b + ValueText(e.value);
    }
  }

  lemma TextIs(t: bytes) ensures ParamPrinter.Text(Str(t)) == t {}

  /** The extended arguments of a table, from the `i`-th on. */
  lemma {:induction false} ExtendedPrint(buf: bytes, es: seq<Entry>, i: nat)
    requires buf != [] && i <= |es| && forall k :: 0 <= k < |es| ==> es[k].value.Arr? && es[k].value.entries != []
    ensures ShiftArgs(buf, Arr(es), i, true, DefaultSeps, DefaultFlags) == buf + ArgsText(es[i..])
    decreases |es| - i
  {
    hide ShiftArg, ArgText, ShiftExtended, ShiftKey;
    if i < |es| {
      var e := es[i];
      NamedPrints(buf, e);
      ExtendedPrint(buf + ArgText(e), es, i + 1);
      assert es[i..][1..] == es[i + 1..] && es[i..][0] == e;
      SeqAssoc(buf, ArgText(e), ArgsText(es[i + 1..]));
    }
  }

  ghost predicate PrintableEntry(e: Entry) {
    if e.value.Arr? then
      e.key == RFC5987_KEY && forall k :: 0 <= k < |e.value.entries| ==> e.value.entries[k].value.Arr? && e.value.entries[k].value.entries != []
    else e.value.True? || e.value.Str?
  }

  lemma {:induction false} ArgsTextConcat(xs: seq<Entry>, ys: seq<Entry>)
    ensures ArgsText(xs + ys) == ArgsText(xs) + ArgsText(ys)
  {
    hide ArgText;
    if xs == [] {
      assert xs + ys == ys;
    } else {
      assert (xs + ys)[1..] == xs[1..] + ys;
      ArgsTextConcat(xs[1..], ys);
      SeqAssoc(ArgText(xs[0]), ArgsText(xs[1..]), ArgsText(ys));
    }
  }

  lemma EntryPrints(buf: bytes, e: Entry)
    requires buf != [] && PrintableEntry(e)
    ensures ShiftArg(buf, e.key, e.value, DefaultSeps, DefaultFlags)
      == buf + ArgsText(if e.key == RFC5987_KEY && e.value.Arr? then e.value.entries else [e])
  {
    hide ShiftArgs, ArgText, ShiftExtended, ShiftKey, ShiftVal;
    if e.value.Arr? {
      ExtendedPrint(buf, e.value.entries, 0);
      assert e.value.entries[0..] == e.value.entries;
    } else {
      NamedPrints(buf, e);
      assert [e][1..] == [] && ArgsText([e]) == ArgText(e) + [];
    }
  }

  lemma {:induction false} ArgsPrint(buf: bytes, es: seq<Entry>, i: nat)
    requires buf != [] && i <= |es| && forall k :: 0 <= k < |es| ==> PrintableEntry(es[k])
    ensures ShiftArgs(buf, Arr(es), i, false, DefaultSeps, DefaultFlags) == buf + ArgsText(Flat(es[i..]))
    decreases |es| - i
  {
    hide ShiftArg, ArgText, PrintableEntry, ArgsText;
    if i == |es| {
      NoArgsText();
    } else {
      var e := es[i];
      var xs := if e.key == RFC5987_KEY && e.value.Arr? then e.value.entries else [e];
      EntryPrints(buf, e);
      ArgsPrint(buf + ArgsText(xs), es, i + 1);
      assert es[i..][1..] == es[i + 1..] && es[i..][0] == e;
      ArgsTextConcat(xs, Flat(es[i + 1..]));
      SeqAssoc(buf, ArgsText(xs), ArgsText(Flat(es[i + 1..])));
    }
  }

  lemma NoArgsText() ensures ArgsText([]) == [] {}

  ghost predicate PrintableParam(n: Named) {
    && n.key != [] && n.param.extended == n.param.value.Arr? && PrintableValue(n.param.value)
    && forall k :: 0 <= k < |n.param.arguments| ==> PrintableEntry(n.param.arguments[k])
  }

  lemma ParamNamePrints(buf: bytes, n: Named, x: bool)
    requires PrintableParam(n) && (n.param.extended ==> x)
    ensures ShiftParam(buf, n.key, n.param.value, DefaultSeps, DefaultFlags, x)
      == (if buf == [] then buf else buf + [COMMA]) + NamedText(n.key, n.param.value)
  {
    hide Quote, ShiftArgs, PrintableEntry, UrlEncode, ParamPrinter.Text;
    var sep, v := if buf == [] then buf else buf + [COMMA], n.param.value;
    var b := sep + Q(n.key);
    assert ShiftKey(buf, n.key, [COMMA], DefaultFlags) == b;
    assert b + ValueText(v) == sep + NamedText(n.key, v);
    if v.Arr? {
      assert ShiftExtended(b, v, [EQUALS], DefaultFlags) == b + ValueText(v);
    } else if v.Str? {
      TextIs(v.text);
      assert b + [EQUALS] + Q(v.text) == b + ValueText(v);
    }
  }

  lemma ParamPrints(buf: bytes, n: Named, x: bool)
    requires PrintableParam(n) && (n.param.extended ==> x)
    ensures var b := ShiftParam(buf, n.key, n.param.value, DefaultSeps, DefaultFlags, x);
      ShiftArgs(b, Arr(n.param.arguments), 0, false, DefaultSeps, DefaultFlags)
      == (if buf == [] then buf else buf + [COMMA]) + OneText(n)
  {
    hide ShiftArgs, ArgsText, PrintableEntry, NamedText, ShiftParam, Flat;
    var sep, t := if buf == [] then buf else buf + [COMMA], NamedText(n.key, n.param.value);
    ParamNamePrints(buf, n, x);
    assert t != [] by { NamedTextStart(n.key, n.param.value); }
    ArgsPrint(sep + t, n.param.arguments, 0);
    assert n.param.arguments[0..] == n.param.arguments;
    SeqAssoc(sep, t, ArgsText(Flat(n.param.arguments)));
  }

  lemma NamedTextStart(k: bytes, v: Value)
    requires k != []
    ensures NamedText(k, v) != []
  {
    hide Quote, ValueText;
    QuoteStarts(k, false);
  }

  lemma {:induction false} TablePrints(buf: bytes, ps: seq<Named>, i: nat, x: bool)
    requires i <= |ps| && forall k :: 0 <= k < |ps| ==> PrintableParam(ps[k])
    ensures PrintFrom(buf, ps, i, x, DefaultSeps, DefaultFlags)
      == if i == |ps| then buf else (if buf == [] then buf else buf + [COMMA]) + TableText(ps[i..])
    decreases |ps| - i
  {
    hide ShiftParam, ShiftArgs, OneText, TableText, PrintableParam;
    if i < |ps| {
      var n := ps[i];
      var sep := if buf == [] then buf else buf + [COMMA];
      var one := sep + OneText(n);
      ParamPrints(buf, n, x || n.param.extended);
      TablePrints(one, ps, i + 1, x || n.param.extended);
      assert one != [] by { OneTextStart(n); }
      TextSteps(ps, i);
      if i + 1 < |ps| {
        SeqAssoc(one, [COMMA], TableText(ps[i + 1..]));
        SeqAssoc(sep, OneText(n), [COMMA] + TableText(ps[i + 1..]));
      }
    }
  }

  lemma TextSteps(ps: seq<Named>, i: nat)
    requires i < |ps|
    ensures TableText(ps[i..])
      == if i + 1 < |ps| then OneText(ps[i]) + ([COMMA] + TableText(ps[i + 1..])) else OneText(ps[i])
  {
    hide OneText;
    assert ps[i..][1..] == ps[i + 1..] && ps[i..][0] == ps[i];
  }

  lemma OneTextStart(n: Named)
    requires PrintableParam(n)
    ensures OneText(n) != []
  {
    hide NamedText, PrintableEntry;
    NamedTextStart(n.key, n.param.value);
  }

  lemma EntryIsPrintable(e: Entry)
    requires EntryOk(e)
    ensures PrintableEntry(e)
  {
    hide NeedsQuotes;
  }

  lemma ParamIsPrintable(n: Named)
    requires ParamOk(n.key, n.param)
    ensures PrintableParam(n)
  {
    hide NeedsQuotes, EntryOk, PrintableEntry, Bare;
    forall k | 0 <= k < |n.param.arguments| ensures PrintableEntry(n.param.arguments[k]) {
      EntryIsPrintable(n.param.arguments[k]);
    }
  }

  lemma TablePrintsText(ps: seq<Named>)
    requires TableOk(ps)
    ensures Print(ps, DefaultSeps, DefaultFlags) == TableText(ps)
  {
    hide PrintFrom, TableText, ParamOk, PrintableParam;
    forall k | 0 <= k < |ps| ensures PrintableParam(ps[k]) { ParamIsPrintable(ps[k]); }
    TablePrints([], ps, 0, false);
    assert ps[0..] == ps && TableText([]) == [] by { NoText(); }
    assert [] + TableText(ps) == TableText(ps);
  }

  lemma NoText() ensures TableText([]) == [] {}

  lemma TextParses(ps: seq<Named>, maxNesting: nat)
    requires TableOk(ps) && AllFit(Tokens(ps), true)
    ensures Parse(TableText(ps), Defaults(maxNesting)) == ps
  {
    hide Parse, TableText, AllFit, ItemOf, ItemOk, ParamOk, SpellsItems, Words;
    TableSpells(ps);
    SpelledItemsParse(TableText(ps), ItemsOf(ps), maxNesting);
    assert [] + ps == ps;
    TableIsSaid([], ps);
  }

  /**
   * Parsing what the printer writes gives back every table of parameters in order: values and
   * arguments that are true, text, or extended ones with a language, under distinct non-empty names,
   * and no name or text that ends in a backslash but perhaps the last one printed.
   */
  lemma ParamsRoundTrip(ps: seq<Named>, maxNesting: nat)
    requires TableOk(ps) && AllFit(Tokens(ps), true)
    ensures Parse(Print(ps, DefaultSeps, DefaultFlags), Defaults(maxNesting)) == ps
  {
    hide Parse, PrintFrom, TableText, AllFit, TableOk;
    TablePrintsText(ps);
    TextParses(ps, maxNesting);
  }

  // ---- values that do not come back as they are

  /** Of values that are no tables, false is printed as "0" and nothing at all as an empty text. */
  function Settle(v: Value): Value {
    match v
    case False => Str([48])
    case Null => Str([])
    case _ => v
  }

  predicate Kept(v: Value) { !v.False? && !v.Null? }

  function SettleArgs(es: seq<Entry>): seq<Entry> {
    seq(|es|, i requires 0 <= i < |es| => Entry(es[i].key, Settle(es[i].value)))
  }

  function SettleOne(n: Named): Named {
    Named(n.key, n.param.(value := Settle(n.param.value), arguments := SettleArgs(n.param.arguments)))
  }

  function SettleTable(ps: seq<Named>): seq<Named> { seq(|ps|, i requires 0 <= i < |ps| => SettleOne(ps[i])) }

  ghost predicate ArgsKept(es: seq<Entry>) { forall i :: 0 <= i < |es| ==> Kept(es[i].value) }
  ghost predicate TableKept(ps: seq<Named>) {
    forall i :: 0 <= i < |ps| ==> Kept(ps[i].param.value) && ArgsKept(ps[i].param.arguments)
  }

  lemma ZeroIsPlain()
    ensures Q([48]) == [48] && Q([]) == []
  {
    assert [48][1..] == [] && Escape([48]) == [48];
  }

  lemma ValueSettles(buf: bytes, v: Value, sep: bytes)
    requires !v.Arr?
    ensures ShiftVal(buf, v, sep, DefaultFlags) == ShiftVal(buf, Settle(v), sep, DefaultFlags)
  {
    hide Quote;
    ZeroIsPlain();
  }

  lemma ArgSettles(buf: bytes, e: Entry)
    ensures ShiftArg(buf, e.key, e.value, DefaultSeps, DefaultFlags)
      == ShiftArg(buf, e.key, Settle(e.value), DefaultSeps, DefaultFlags)
  {
    hide ShiftArgs, ShiftVal, Quote;
    if !e.value.Arr? { ValueSettles(ShiftKey(buf, e.key, [SEMICOLON], DefaultFlags), e.value, [EQUALS]); }
  }

  lemma {:induction false} ArgsSettle(buf: bytes, es: seq<Entry>, i: nat)
    requires i <= |es|
    ensures ShiftArgs(buf, Arr(es), i, false, DefaultSeps, DefaultFlags)
      == ShiftArgs(buf, Arr(SettleArgs(es)), i, false, DefaultSeps, DefaultFlags)
    decreases |es| - i
  {
    hide ShiftArg;
    if i < |es| {
      ArgSettles(buf, es[i]);
      ArgsSettle(ShiftArg(buf, es[i].key, es[i].value, DefaultSeps, DefaultFlags), es, i + 1);
    }
  }

  lemma {:induction false} TableSettles(buf: bytes, ps: seq<Named>, i: nat, x: bool)
    requires i <= |ps|
    ensures PrintFrom(buf, ps, i, x, DefaultSeps, DefaultFlags) == PrintFrom(buf, SettleTable(ps), i, x, DefaultSeps, DefaultFlags)
    decreases |ps| - i
  {
    hide ShiftArgs, ShiftParam, SettleArgs;
    if i < |ps| {
      var n, y := ps[i], x || ps[i].param.extended;
      var b := ShiftParam(buf, n.key, n.param.value, DefaultSeps, DefaultFlags, y);
      assert SettleTable(ps)[i] == SettleOne(n);
      ParamSettles(buf, n, y);
      ArgsSettle(b, n.param.arguments, 0);
      TableSettles(ShiftArgs(b, Arr(n.param.arguments), 0, false, DefaultSeps, DefaultFlags), ps, i + 1, y);
    }
  }

  lemma ParamSettles(buf: bytes, n: Named, x: bool)
    ensures ShiftParam(buf, n.key, n.param.value, DefaultSeps, DefaultFlags, x)
      == ShiftParam(buf, n.key, Settle(n.param.value), DefaultSeps, DefaultFlags, x)
  {
    hide ShiftArg, ShiftVal, ShiftExtended, Quote;
    if !n.param.value.Arr? { ValueSettles(ShiftKey(buf, n.key, [COMMA], DefaultFlags), n.param.value, [EQUALS]); }
  }

  /**
   * Parsing printed parameters gives them back with false as the text "0" and null as the empty text;
   * so the table survives if and only if none of its values is one of these.
   */
  lemma ParamsSurviveIff(ps: seq<Named>, maxNesting: nat)
    requires TableOk(SettleTable(ps)) && AllFit(Tokens(SettleTable(ps)), true)
    ensures Parse(Print(ps, DefaultSeps, DefaultFlags), Defaults(maxNesting)) == SettleTable(ps)
    ensures Parse(Print(ps, DefaultSeps, DefaultFlags), Defaults(maxNesting)) == ps <==> TableKept(ps)
  {
    hide Parse, PrintFrom, TableOk, AllFit, Tokens;
    TableSettles([], ps, 0, false);
    ParamsRoundTrip(SettleTable(ps), maxNesting);
    SettledIff(ps);
  }

  lemma SettledIff(ps: seq<Named>)
    ensures SettleTable(ps) == ps <==> TableKept(ps)
  {
    hide SettleArgs, ArgsKept;
    var qs := SettleTable(ps);
    if qs == ps {
      forall i | 0 <= i < |ps| ensures Kept(ps[i].param.value) && ArgsKept(ps[i].param.arguments) {
        assert qs[i] == SettleOne(ps[i]);
        ArgsSettledIff(ps[i].param.arguments);
      }
    }
    if TableKept(ps) {
      forall i | 0 <= i < |ps| ensures qs[i] == ps[i] { ArgsSettledIff(ps[i].param.arguments); }
    }
  }

  lemma ArgsSettledIff(es: seq<Entry>)
    ensures SettleArgs(es) == es <==> ArgsKept(es)
  {
    var fs := SettleArgs(es);
    if fs == es {
      forall i | 0 <= i < |es| ensures Kept(es[i].value) { assert fs[i] == Entry(es[i].key, Settle(es[i].value)); }
    }
  }
}
