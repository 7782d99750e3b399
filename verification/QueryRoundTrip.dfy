/** With the options of query strings, parsing a printed table of nested trees gives the table back. */
module QueryRoundTrip {
  import opened Bytes
  import opened Decimals
  import opened ParamText
  import opened ParamTable
  import opened ParamParser
  import opened ParamPrinter
  import opened QueryTree
  import R = ParamGrammar

  const AMP: byte := 38
  const EQUALS: byte := 61

  const QueryFlags := Flags(false, true, true, false, false)
  const QuerySeps := Seps([AMP], [], [EQUALS])

  function QueryOptions(maxNesting: nat): Options {
    Options([[AMP]], [], [[EQUALS]], True, QueryFlags, maxNesting)
  }

  /** One key and its text as they are printed, before URL encoding. */
  datatype Item = Item(key: bytes, text: bytes)

  function ItemText(it: Item): bytes { UrlEncode(it.key) + ([EQUALS] + UrlEncode(it.text)) }

  function ItemsText(its: seq<Item>): bytes {
    if its == [] then [] else ItemText(its[0]) + if |its| == 1 then [] else [AMP] + ItemsText(its[1..])
  }

  /** What the parser does with an item. */
  function Apply(o: Options, s: Store, it: Item): Store {
    PushValue(o, PushParam(o, s, UrlEncode(it.key)), UrlEncode(it.text))
  }

  function ApplyAll(o: Options, s: Store, its: seq<Item>): Store
    decreases |its|
  {
    if its == [] then s else ApplyAll(o, Apply(o, s, its[0]), its[1..])
  }

  // ---- the scan

  lemma UrlStep(input: bytes, o: Options, st: State)
    requires o == QueryOptions(o.maxNesting) && R.Clear(input, st)
    requires st.pos < |input| && UrlByte(input[st.pos])
    ensures Step(input, o, st) == st.(pos := st.pos + 1)
  {
    hide Push, SkipSeps, SepAt;
    R.OneSep(input, st.pos, AMP);
    R.NoSepAt(input, st.pos, []);
    R.OneSep(input, st.pos, EQUALS);
  }

  lemma {:induction false} UrlScan(input: bytes, o: Options, st: State, q: bytes, y: bytes)
    requires o == QueryOptions(o.maxNesting) && R.Clear(input, st)
    requires input[st.pos..] == q + y && forall i :: 0 <= i < |q| ==> UrlByte(q[i])
    ensures st.pos + |q| <= |input|
    ensures Run(input, o, st) == Run(input, o, st.(pos := st.pos + |q|))
    decreases |q|
  {
    hide Step, Push;
    Peel(input, st.pos, q, y);
    if q != [] {
      assert input[st.pos] == input[st.pos..][0] == q[0];
      UrlStep(input, o, st);
      assert q + y == [q[0]] + (q[1..] + y);
      Peel(input, st.pos, [q[0]], q[1..] + y);
      UrlScan(input, o, st.(pos := st.pos + 1), q[1..], y);
    }
  }

  lemma EqualsStep(input: bytes, o: Options, st: State)
    requires o == QueryOptions(o.maxNesting) && R.Clear(input, st)
    requires st.pos < |input| && input[st.pos] == EQUALS && st.marks.val.None?
    requires st.pos + 1 < |input| ==> input[st.pos + 1] != EQUALS
    ensures var p := st.pos + 1; Step(input, o, st) == State(p, false, false,
      st.marks.(val := Some(p)), Push(input, o, st.marks, st.pos, st.store))
  {
    hide Push, SepAt, SkipSeps;
    R.OneSep(input, st.pos, AMP);
    R.NoSepAt(input, st.pos, []);
    R.OneSep(input, st.pos, EQUALS);
    R.NoSkip(input, st.pos + 1, o.val, true);
  }

  lemma AmpStep(input: bytes, o: Options, st: State)
    requires o == QueryOptions(o.maxNesting) && R.Clear(input, st)
    requires st.pos + 1 < |input| && input[st.pos] == AMP && UrlByte(input[st.pos + 1])
    ensures var p := st.pos + 1; Step(input, o, st) == State(p, false, false,
      Marks(Some(p), None, None), Push(input, o, st.marks, st.pos, st.store))
  {
    hide Push, SepAt, SkipSeps;
    R.OneSep(input, st.pos, AMP);
    R.NoSkip(input, st.pos + 1, o.param + o.arg + o.val, true);
  }

  lemma AfterEquals(input: bytes, o: Options, st: State, t: bytes, y: bytes) returns (st': State)
    requires o == QueryOptions(o.maxNesting) && R.Clear(input, st) && st.marks.val.None?
    requires input[st.pos..] == [EQUALS] + (t + y) && forall i :: 0 <= i < |t| ==> UrlByte(t[i])
    requires y == [] || y[0] == AMP
    ensures R.Clear(input, st') && st'.pos == st.pos + 1 + |t|
    ensures st'.marks == st.marks.(val := Some(st.pos + 1))
    ensures st'.store == Push(input, o, st.marks, st.pos, st.store)
    ensures Run(input, o, st) == Run(input, o, st')
    ensures input[st.pos + 1..st'.pos] == t && input[st'.pos..] == y
  {
    hide Step, Push;
    PeelAfter(input, st.pos, EQUALS, t, y);
    EqualsStep(input, o, st);
    var st1 := Step(input, o, st);
    UrlScan(input, o, st1, t, y);
    st' := st1.(pos := st1.pos + |t|);
  }

  /** Over one item; behind it, what is pending is the item's value. */
  lemma ItemScan(input: bytes, o: Options, st: State, it: Item, y: bytes) returns (st': State)
    requires o == QueryOptions(o.maxNesting) && R.Clear(input, st)
    requires st.marks == Marks(Some(st.pos), None, None) && input[st.pos..] == ItemText(it) + y
    requires y == [] || y[0] == AMP
    ensures R.Clear(input, st') && st'.pos == st.pos + |ItemText(it)| && input[st'.pos..] == y
    ensures Run(input, o, st) == Run(input, o, st')
    ensures Push(input, o, st'.marks, st'.pos, st'.store) == Apply(o, st.store, it)
  {
    hide Step, PushValue, PushParam, UrlEncode, UrlDecode;
    var k, t := UrlEncode(it.key), UrlEncode(it.text);
    UrlDecodeEncode(it.key);
    UrlDecodeEncode(it.text);
    assert ItemText(it) + y == k + ([EQUALS] + (t + y));
    UrlScan(input, o, st, k, [EQUALS] + (t + y));
    Peel(input, st.pos, k, [EQUALS] + (t + y));
    var st1 := st.(pos := st.pos + |k|);
    st' := AfterEquals(input, o, st1, t, y);
  }

  lemma ItemsStart(its: seq<Item>)
    requires its != [] && its[0].key != []
    ensures ItemsText(its) != [] && UrlByte(ItemsText(its)[0])
  {
    hide UrlEncode;
    UrlDecodeEncode(its[0].key);
    assert ItemsText(its)[0] == UrlEncode(its[0].key)[0];
  }

  lemma {:induction false} ItemsScan(input: bytes, o: Options, st: State, its: seq<Item>)
    requires o == QueryOptions(o.maxNesting) && R.Clear(input, st) && its != []
    requires forall i :: 0 <= i < |its| ==> its[i].key != []
    requires st.marks == Marks(Some(st.pos), None, None) && input[st.pos..] == ItemsText(its)
    ensures Run(input, o, st) == ApplyAll(o, st.store, its)
    decreases |its|
  {
    hide Step, Push, Apply, ItemText, Run, ItemsText, ApplyAll;
    var it, rest := its[0], its[1..];
    var z := if |its| == 1 then [] else [AMP] + ItemsText(rest);
    assert ItemsText(its) == ItemText(it) + z by { ItemsTextIs(its); }
    var st1 := ItemScan(input, o, st, it, z);
    ApplyAllIs(o, st.store, its);
    if |its| == 1 {
      NoneApplied(o, Apply(o, st.store, it));
      RunEnds(input, o, st1);
    } else {
      Peel(input, st1.pos, [AMP], ItemsText(rest));
      ItemsStart(rest);
      assert input[st1.pos] == input[st1.pos..][0];
      assert input[st1.pos + 1] == ItemsText(rest)[0];
      AmpStep(input, o, st1);
      RunGoesOn(input, o, st1);
      ItemsScan(input, o, Step(input, o, st1), rest);
    }
  }

  lemma ItemsTextIs(its: seq<Item>)
    requires its != []
    ensures ItemsText(its) == ItemText(its[0]) + if |its| == 1 then [] else [AMP] + ItemsText(its[1..])
  {
    hide ItemText;
  }

  lemma ApplyAllIs(o: Options, s: Store, its: seq<Item>)
    requires its != []
    ensures ApplyAll(o, s, its) == ApplyAll(o, Apply(o, s, its[0]), its[1..])
  {
    hide Apply;
  }

  lemma NoneApplied(o: Options, s: Store) ensures ApplyAll(o, s, []) == s {}

  lemma FirstPass(input: bytes, o: Options)
    requires o == QueryOptions(o.maxNesting) && input != [] && UrlByte(input[0])
    ensures Run(input, o, Start) == Run(input, o, Start.(marks := Marks(Some(0), None, None)))
  {
    hide Push, SepAt, SkipSeps;
    R.NoSkip(input, 0, o.param + o.arg + o.val, true);
    UrlStep(input, o, Start.(marks := Marks(Some(0), None, None)));
  }

  lemma ItemsParse(its: seq<Item>, o: Options)
    requires o == QueryOptions(o.maxNesting)
    requires forall i :: 0 <= i < |its| ==> its[i].key != []
    ensures Run(ItemsText(its), o, Start) == ApplyAll(o, Start.store, its)
  {
    hide Step, Apply;
    var input := ItemsText(its);
    if its != [] {
      ItemsStart(its);
      FirstPass(input, o);
      assert input[0..] == input;
      ItemsScan(input, o, Start.(marks := Marks(Some(0), None, None)), its);
    }
  }

  // ---- what an item does to the table

  lemma KeyReads(o: Options, k: bytes, path: seq<bytes>)
    requires o == QueryOptions(o.maxNesting) && KeyOk(k) && PathOk(path) && |path| <= o.maxNesting
    ensures SanitizeKey(o, UrlEncode(k + Bracketed(path)))
      == (if path == [] then Plain(k) else Path([k] + path), false)
  {
    hide Dimensions, UrlEncode, UrlDecode, Trim, IsIndex, Bracketed;
    var key := k + Bracketed(path);
    UrlDecodeEncode(key);
    UrlTextIsNotTrimmed(UrlEncode(key));
    KeySplits(k, path, o.maxNesting);
    if path == [] {
      NoBrackets(path);
      assert k + [] == k;
    }
  }

  lemma ValuePushed(o: Options, s: Store, text: bytes)
    requires o == QueryOptions(o.maxNesting) && !s.rfc5987 && !s.target.Nowhere?
    ensures PushValue(o, s, UrlEncode(text)) == s.(params := SetTarget(s.params, s.target, Str(text)))
  {
    hide UrlEncode, UrlDecode, Trim, SetTarget;
    UrlDecodeEncode(text);
    UrlTextIsNotTrimmed(UrlEncode(text));
    assert text == [] ==> UrlEncode(text) == [] by { EmptyEncodes(); }
  }

  lemma EmptyEncodes() ensures UrlEncode([]) == [] {}

  /** The first item under a key appends the parameter, with the chain of tables down to the text. */
  lemma FirstItem(o: Options, s: Store, k: bytes, path: seq<bytes>, text: bytes)
    requires o == QueryOptions(o.maxNesting) && KeyOk(k) && PathOk(path) && |path| <= o.maxNesting
    requires R.Fresh(s.params, k)
    ensures Apply(o, s, Item(k + Bracketed(path), text)).params
      == s.params + [Named(k, Param(false, Chain(path, Str(text)), []))]
    ensures Apply(o, s, Item(k + Bracketed(path), text)).args == Some(k)
  {
    hide SanitizeKey, UrlEncode, PushValue, SetAt, KeyOk, Bracketed, FindNamed, Chain;
    var key := k + Bracketed(path);
    KeyReads(o, k, path);
    assert UrlEncode(key) != [] && k != [] by { KeyEncodes(k, path); }
    assert ([k] + path)[1..] == path;
    var v := if path == [] then True else Chain(path, Null);
    var p := Param(false, v, []);
    R.PutAtEnd(s.params, k, p, p.(value := Chain(path, Str(text))));
    assert FindNamed(s.params, k) == |s.params|;
    var s1 := PushParam(o, s, UrlEncode(key));
    assert s1.params == s.params + [Named(k, p)] && s1.target == Target(k, InValue(path)) && !s1.rfc5987;
    ValuePushed(o, s1, text);
    assert SetAt(v, path, Str(text)) == Chain(path, Str(text)) by { FirstValue(path, Str(text)); }
  }

  lemma KeyEncodes(k: bytes, path: seq<bytes>)
    requires KeyOk(k)
    ensures k != [] && UrlEncode(k + Bracketed(path)) != []
  {
    hide UrlEncode, IsIndex;
    UrlDecodeEncode(k + Bracketed(path));
  }

  lemma FirstValue(path: seq<bytes>, leaf: Value)
    ensures SetAt(if path == [] then True else Chain(path, Null), path, leaf) == Chain(path, leaf)
  {
    if path != [] { SetAtChain(path, leaf); }
  }

  /** A later item under the last key is merged into its value. */
  lemma NextItem(o: Options, s: Store, done: seq<Named>, k: bytes, v: Value, path: seq<bytes>, text: bytes)
    requires o == QueryOptions(o.maxNesting) && KeyOk(k) && PathOk(path) && 0 < |path| <= o.maxNesting
    requires R.Fresh(done, k) && s.params == done + [Named(k, Param(false, v, []))]
    ensures Apply(o, s, Item(k + Bracketed(path), text)).params
      == done + [Named(k, Param(false, Insert(v, path, Str(text)), []))]
  {
    hide SanitizeKey, UrlEncode, PushValue, SetAt, Merge, KeyOk, Bracketed, FindNamed;
    var key := k + Bracketed(path);
    KeyReads(o, k, path);
    assert UrlEncode(key) != [] by { KeyEncodes(k, path); }
    assert ([k] + path)[1..] == path;
    var m := Merge(v, path);
    R.PutAtEnd(done, k, Param(false, v, []), Param(false, m.value, []));
    R.PutAtEnd(done, k, Param(false, m.value, []), Param(false, Insert(v, path, Str(text)), []));
    var s1 := PushParam(o, s, UrlEncode(key));
    assert s1.params == done + [Named(k, Param(false, m.value, []))];
    assert s1.target == Target(k, InValue(m.at)) && !s1.rfc5987;
    ValuePushed(o, s1, text);
  }

  /** It leaves the arguments where they were. */
  lemma NextItemKeepsArgs(o: Options, s: Store, k: bytes, path: seq<bytes>, text: bytes)
    requires o == QueryOptions(o.maxNesting) && KeyOk(k) && PathOk(path) && 0 < |path| <= o.maxNesting
    requires FindNamed(s.params, k) < |s.params|
    ensures Apply(o, s, Item(k + Bracketed(path), text)).args == s.args
  {
    hide SanitizeKey, UrlEncode, SanitizeValue, SetTarget, Merge, KeyOk, Bracketed, FindNamed;
    KeyReads(o, k, path);
    assert ([k] + path)[0] == k && [k] + path != [];
  }

  // ---- a parameter and its leaves

  function LeafItems(prefix: bytes, ls: seq<Leaf>): (r: seq<Item>)
    ensures |r| == |ls|
    ensures forall i :: 0 <= i < |ls| ==> r[i] == Item(prefix + Bracketed(ls[i].path), ls[i].text)
  {
    if ls == [] then [] else [Item(prefix + Bracketed(ls[0].path), ls[0].text)] + LeafItems(prefix, ls[1..])
  }

  ghost predicate LeafOk(l: Leaf, max: nat) { l.path != [] && PathOk(l.path) && |l.path| <= max }

  ghost predicate LeavesOk(ls: seq<Leaf>, max: nat) { forall i :: 0 <= i < |ls| ==> LeafOk(ls[i], max) }

  lemma {:induction false} TreeLeavesOk(v: Value, i: nat, max: nat)
    requires v.Arr? && TreeOk(v) && DepthAtMost(v, max) && i <= |v.entries|
    ensures LeavesOk(LeavesFrom(v, i), max)
    decreases v, |v.entries| - i
  {
    if i < |v.entries| {
      var e := v.entries[i];
      TreeLeavesOk(v, i + 1, max);
      if e.value.Arr? { TreeLeavesOk(e.value, 0, max - 1); }
      UnderOk(e.key, Leaves(e.value), max);
    }
  }

  lemma UnderOk(k: bytes, ls: seq<Leaf>, max: nat)
    requires KeyOk(k) && max > 0
    requires LeavesOk(ls, max - 1) || (|ls| == 1 && ls[0].path == [])
    ensures LeavesOk(Under(k, ls), max)
  {
    hide KeyOk;
    forall i | 0 <= i < |ls| ensures LeafOk(Under(k, ls)[i], max) {
      assert |ls| == 1 || LeafOk(ls[i], max - 1);
    }
  }

  lemma {:induction false} LaterLeaves(o: Options, s: Store, done: seq<Named>, k: bytes, v: Value, ls: seq<Leaf>)
    requires o == QueryOptions(o.maxNesting) && KeyOk(k) && LeavesOk(ls, o.maxNesting)
    requires R.Fresh(done, k) && s.params == done + [Named(k, Param(false, v, []))]
    ensures ApplyAll(o, s, LeafItems(k, ls)).params == done + [Named(k, Param(false, InsertAll(v, ls), []))]
    decreases |ls|
  {
    hide Apply, KeyOk, Insert, Bracketed;
    if ls != [] {
      var l := ls[0];
      assert LeafOk(l, o.maxNesting);
      NextItem(o, s, done, k, v, l.path, l.text);
      var its := LeafItems(k, ls);
      assert its[1..] == LeafItems(k, ls[1..]);
      LaterLeaves(o, Apply(o, s, its[0]), done, k, Insert(v, l.path, Str(l.text)), ls[1..]);
    }
  }

  ghost predicate NamedOk(n: Named, max: nat) {
    KeyOk(n.key) && !n.param.extended && n.param.arguments == [] &&
    TreeOk(n.param.value) && DepthAtMost(n.param.value, max)
  }

  ghost function ItemsOf(n: Named): seq<Item> { LeafItems(n.key, Leaves(n.param.value)) }

  /** The items of a parameter append it to the table. */
  lemma ParamRebuilds(o: Options, s: Store, n: Named)
    requires o == QueryOptions(o.maxNesting) && NamedOk(n, o.maxNesting) && R.Fresh(s.params, n.key)
    ensures ApplyAll(o, s, ItemsOf(n)).params == s.params + [n]
  {
    hide Apply, KeyOk, Insert, Bracketed;
    var k, v, ls := n.key, n.param.value, Leaves(n.param.value);
    var its := ItemsOf(n);
    if v.Str? {
      FirstItem(o, s, k, [], v.text);
      assert its[1..] == [];
      assert Chain([], v) == v;
    } else {
      TreeLeavesOk(v, 0, o.maxNesting);
      LeafPaths(v, 0);
      assert LeafOk(ls[0], o.maxNesting);
      var p, t := ls[0].path, ls[0].text;
      FirstItem(o, s, k, p, t);
      ChainIsInsert(p, Str(t));
      assert its[1..] == LeafItems(k, ls[1..]);
      LaterLeaves(o, Apply(o, s, its[0]), s.params, k, Insert(Arr([]), p, Str(t)), ls[1..]);
      TreeRebuilds(v, 0);
      assert v.entries[..0] == [];
      assert InsertAll(Arr([]), ls) == v;
    }
  }

  // ---- whole tables

  ghost predicate TableOk(ps: seq<Named>, max: nat) {
    && (forall i :: 0 <= i < |ps| ==> NamedOk(ps[i], max))
    && (forall i, j :: 0 <= i < j < |ps| ==> ps[i].key != ps[j].key)
  }

  ghost function AllItems(ps: seq<Named>): seq<Item> {
    if ps == [] then [] else ItemsOf(ps[0]) + AllItems(ps[1..])
  }

  lemma {:induction false} ApplyAllConcat(o: Options, s: Store, xs: seq<Item>, ys: seq<Item>)
    ensures ApplyAll(o, s, xs + ys) == ApplyAll(o, ApplyAll(o, s, xs), ys)
    decreases |xs|
  {
    hide Apply;
    if xs == [] {
      assert xs + ys == ys;
    } else {
      assert (xs + ys)[1..] == xs[1..] + ys;
      ApplyAllConcat(o, Apply(o, s, xs[0]), xs[1..], ys);
    }
  }

  lemma NothingApplied(o: Options, s: Store) ensures ApplyAll(o, s, []) == s {}

  lemma FirstIsOk(ps: seq<Named>, max: nat)
    requires ps != [] && TableOk(ps, max)
    ensures NamedOk(ps[0], max)
  {
    hide NamedOk;
  }

  lemma TailStaysFresh(done: seq<Named>, ps: seq<Named>, max: nat)
    requires ps != [] && TableOk(ps, max)
    requires forall i :: 0 <= i < |ps| ==> R.Fresh(done, ps[i].key)
    ensures TableOk(ps[1..], max)
    ensures forall i :: 0 <= i < |ps[1..]| ==> R.Fresh(done + [ps[0]], ps[1..][i].key)
  {
    hide NamedOk;
    forall i | 0 <= i < |ps[1..]| ensures R.Fresh(done + [ps[0]], ps[1..][i].key) {
      assert ps[1..][i] == ps[i + 1] && R.Fresh(done, ps[i + 1].key);
    }
  }

  lemma {:induction false} TableRebuilds(o: Options, s: Store, ps: seq<Named>)
    requires o == QueryOptions(o.maxNesting) && TableOk(ps, o.maxNesting)
    requires forall i :: 0 <= i < |ps| ==> R.Fresh(s.params, ps[i].key)
    ensures ApplyAll(o, s, AllItems(ps)).params == s.params + ps
    decreases |ps|
  {
    hide TableOk, ItemsOf, NamedOk, ApplyAll;
    if ps == [] {
      NothingApplied(o, s);
    } else {
      assert NamedOk(ps[0], o.maxNesting) by { FirstIsOk(ps, o.maxNesting); }
      ParamRebuilds(o, s, ps[0]);
      ApplyAllConcat(o, s, ItemsOf(ps[0]), AllItems(ps[1..]));
      TailStaysFresh(s.params, ps, o.maxNesting);
      TableRebuilds(o, ApplyAll(o, s, ItemsOf(ps[0])), ps[1..]);
      assert (s.params + [ps[0]]) + ps[1..] == s.params + ps;
    }
  }

  // ---- the printed text

  function PrintItem(buf: bytes, it: Item): bytes {
    ShiftVal(ShiftKey(buf, it.key, [AMP], QueryFlags), Str(it.text), [EQUALS], QueryFlags)
  }

  function PrintItems(buf: bytes, its: seq<Item>): bytes
    decreases |its|
  {
    if its == [] then buf else PrintItems(PrintItem(buf, its[0]), its[1..])
  }

  lemma {:induction false} PrintItemsConcat(buf: bytes, xs: seq<Item>, ys: seq<Item>)
    ensures PrintItems(buf, xs + ys) == PrintItems(PrintItems(buf, xs), ys)
    decreases |xs|
  {
    hide PrintItem;
    if xs == [] {
      assert xs + ys == ys;
    } else {
      assert (xs + ys)[1..] == xs[1..] + ys;
      PrintItemsConcat(PrintItem(buf, xs[0]), xs[1..], ys);
    }
  }

  lemma PrintItemText(buf: bytes, it: Item)
    ensures PrintItem(buf, it) == (if buf == [] then buf else buf + [AMP]) + ItemText(it)
  {
    hide UrlEncode;
    var sep := if buf == [] then buf else buf + [AMP];
    assert (sep + UrlEncode(it.key)) + [EQUALS] + UrlEncode(it.text) == sep + ItemText(it);
  }

  lemma {:induction false} PrintedItems(buf: bytes, its: seq<Item>)
    ensures PrintItems(buf, its)
      == if its == [] then buf else (if buf == [] then buf else buf + [AMP]) + ItemsText(its)
    decreases |its|
  {
    hide PrintItem, ItemText;
    if its != [] {
      var sep, x := if buf == [] then buf else buf + [AMP], ItemText(its[0]);
      PrintItemText(buf, its[0]);
      PrintedItems(sep + x, its[1..]);
      assert x != [] by { ItemHasText(its[0]); }
      if |its| > 1 {
        assert (sep + x) + [AMP] + ItemsText(its[1..]) == sep + (x + ([AMP] + ItemsText(its[1..])));
      } else {
        assert its[1..] == [] && x + [] == x;
      }
    }
  }

  lemma ItemHasText(it: Item) ensures ItemText(it) != [] { hide UrlEncode; }

  lemma {:induction false} LeafItemsUnder(prefix: bytes, k: bytes, ls: seq<Leaf>)
    ensures LeafItems(prefix, Under(k, ls)) == LeafItems(prefix + [OPEN] + k + [CLOSE], ls)
  {
    if ls != [] {
      LeafItemsUnder(prefix, k, ls[1..]);
      var l := ls[0];
      assert ([k] + l.path)[1..] == l.path;
      assert prefix + ([OPEN] + k + [CLOSE] + Bracketed(l.path)) == prefix + [OPEN] + k + [CLOSE] + Bracketed(l.path);
      assert Under(k, ls)[1..] == Under(k, ls[1..]);
    }
  }

  lemma {:induction false} LeafItemsConcat(prefix: bytes, xs: seq<Leaf>, ys: seq<Leaf>)
    ensures LeafItems(prefix, xs + ys) == LeafItems(prefix, xs) + LeafItems(prefix, ys)
  {
    hide Bracketed;
    if xs == [] {
      assert xs + ys == ys;
    } else {
      assert (xs + ys)[1..] == xs[1..] + ys;
      LeafItemsConcat(prefix, xs[1..], ys);
    }
  }

  lemma NoLeavesPrint(buf: bytes, prefix: bytes)
    ensures PrintItems(buf, LeafItems(prefix, [])) == buf
  {}

  /** Walking a table prints its leaves. */
  lemma {:induction false} DimensionPrints(buf: bytes, prefix: bytes, v: Value, i: nat)
    requires v.Arr? && TreeOk(v) && i <= |v.entries|
    ensures ShiftDimension(buf, prefix, v, i, QuerySeps, QueryFlags)
      == PrintItems(buf, LeafItems(prefix, LeavesFrom(v, i)))
    decreases v, |v.entries| - i
  {
    hide Bracketed, UrlEncode, PrintItems, LeafItems, IsIndex, Under;
    if i == |v.entries| {
      assert PrintItems(buf, LeafItems(prefix, [])) == buf by { NoLeavesPrint(buf, prefix); }
    } else {
      var e := v.entries[i];
      var p, ls, rest := prefix + [OPEN] + e.key + [CLOSE], Leaves(e.value), LeavesFrom(v, i + 1);
      LeafItemsConcat(prefix, Under(e.key, ls), rest);
      LeafItemsUnder(prefix, e.key, ls);
      PrintItemsConcat(buf, LeafItems(p, ls), LeafItems(prefix, rest));
      var b := PrintItems(buf, LeafItems(p, ls));
      if e.value.Arr? {
        DimensionPrints(buf, p, e.value, 0);
      } else {
        OneLeafPrints(buf, p, e.value.text);
      }
      assert e.key != [] && e.key[0] != NUL by { assert KeyOk(e.key); }
      DimensionPrints(b, prefix, v, i + 1);
    }
  }

  lemma OneLeafPrints(buf: bytes, p: bytes, text: bytes)
    ensures PrintItems(buf, LeafItems(p, [Leaf([], text)])) == PrintItem(buf, Item(p, text))
  {
    hide PrintItem;
    var its := LeafItems(p, [Leaf([], text)]);
    assert p + Bracketed([]) == p;
    assert its == [Item(p, text)] && its[1..] == [];
  }

  lemma ParamPrints(buf: bytes, n: Named, max: nat)
    requires NamedOk(n, max)
    ensures ShiftParam(buf, n.key, n.param.value, QuerySeps, QueryFlags, false) == PrintItems(buf, ItemsOf(n))
  {
    hide PrintItems, LeafItems;
    if n.param.value.Arr? {
      DimensionPrints(buf, n.key, n.param.value, 0);
    } else {
      OneLeafPrints(buf, n.key, n.param.value.text);
    }
  }

  lemma {:induction false} TablePrints(buf: bytes, ps: seq<Named>, i: nat, max: nat)
    requires i <= |ps| && TableOk(ps, max)
    ensures PrintFrom(buf, ps, i, false, QuerySeps, QueryFlags) == PrintItems(buf, AllItems(ps[i..]))
    decreases |ps| - i
  {
    hide ShiftParam, PrintItems, ItemsOf;
    if i == |ps| {
      assert PrintItems(buf, []) == buf by { NoItems(buf); }
    } else {
      ParamPrints(buf, ps[i], max);
      var b := PrintItems(buf, ItemsOf(ps[i]));
      TablePrints(b, ps, i + 1, max);
      assert ps[i..][1..] == ps[i + 1..] && ps[i..][0] == ps[i];
      PrintItemsConcat(buf, ItemsOf(ps[i]), AllItems(ps[i + 1..]));
    }
  }

  lemma NoItems(buf: bytes) ensures PrintItems(buf, []) == buf {}

  lemma {:induction false} ItemKeys(ps: seq<Named>, max: nat)
    requires TableOk(ps, max)
    ensures forall i :: 0 <= i < |AllItems(ps)| ==> AllItems(ps)[i].key != []
  {
    if ps != [] {
      assert NamedOk(ps[0], max);
      ItemKeys(ps[1..], max);
    }
  }

  /**
   * Every table of nested trees with text leaves survives printing as a query string and parsing,
   * although the parser merges one path at a time into what it has built so far.
   */
  lemma QueryStringRoundTrip(ps: seq<Named>, maxNesting: nat)
    requires TableOk(ps, maxNesting)
    ensures Parse(Print(ps, QuerySeps, QueryFlags), QueryOptions(maxNesting)) == ps
  {
    hide Run, PrintFrom, PrintItems, AllItems, ApplyAll, TableOk, ItemsText;
    var o, its := QueryOptions(maxNesting), AllItems(ps);
    TablePrints([], ps, 0, maxNesting);
    assert ps[0..] == ps;
    PrintedItems([], its);
    assert [] + ItemsText(its) == ItemsText(its);
    assert ItemsText([]) == [] by { NoText(); }
    ItemKeys(ps, maxNesting);
    ItemsParse(its, o);
    TableRebuilds(o, Start.store, ps);
    assert [] + ps == ps;
  }

  lemma NoText() ensures ItemsText([]) == [] {}
}
