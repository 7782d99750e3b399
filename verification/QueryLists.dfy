/** Query strings beyond the round trip: lists, keys that nest too deep, keys that are not printed, URL encoding in any form. */
module QueryLists {
  import opened Bytes
  import opened Decimals
  import opened ParamText
  import opened ParamTable
  import opened ParamParser
  import opened ParamPrinter
  import opened QueryTree
  import opened QueryRoundTrip
  import R = ParamGrammar

  // ---- lists

  const EMPTY_BRACKETS: bytes := [91, 93]

  /** The table that holds texts under 0, 1, 2 and so on. */
  function Listed(ts: seq<bytes>): (es: seq<Entry>)
    ensures |es| == |ts|
    ensures forall i :: 0 <= i < |ts| ==> es[i] == Entry(Numeral(i), Str(ts[i]))
  {
    if ts == [] then [] else Listed(ts[..|ts| - 1]) + [Entry(Numeral(|ts| - 1), Str(ts[|ts| - 1]))]
  }

  function ListItems(k: bytes, ts: seq<bytes>): seq<Item> {
    seq(|ts|, i requires 0 <= i < |ts| => Item(k + EMPTY_BRACKETS, ts[i]))
  }

  lemma ListKeySplits(k: bytes, max: nat)
    requires KeyOk(k) && max > 0
    ensures Dimensions(k + EMPTY_BRACKETS, max) == Some([k, [48]])
  {
    hide KeyOk, Pieces;
    var s := k + EMPTY_BRACKETS;
    assert s[0..] == k + ([OPEN] + [CLOSE]);
    PieceEnds(s, 0, None, 0, max, k, OPEN, [CLOSE]);
    LastBracket(s, |k| + 1, max);
    assert [k] + [[48]] == [k, [48]];
  }

  lemma LastBracket(s: bytes, i: nat, max: nat)
    requires i <= |s| && s[i..] == [CLOSE]
    ensures Pieces(s, i, None, 1, max) == Some([[48]])
  {
    assert s[i] == s[i..][0] == CLOSE && i + 1 == |s|;
    assert Pieces(s, i + 1, None, 1, max) == Some([]);
    assert [[48]] + [] == [[48]];
  }

  lemma NumeralsDiffer(i: nat, j: nat)
    requires i != j
    ensures Numeral(i) != Numeral(j)
  {
    DecimalOfNumeral(i);
    DecimalOfNumeral(j);
  }

  lemma NumeralCounts(n: nat)
    requires n <= 0x7FFF_FFFF_FFFF_FFFF
    ensures IsIndex(Numeral(n)) && Numeral(n)[0] != 45 && Decimal(Numeral(n)) == n
  {
    hide Numeral;
    DecimalOfNumeral(n);
    NumeralIsIndex(n);
  }

  /** The next free place of a list is behind its end. */
  lemma {:induction false} NextIsLength(ts: seq<bytes>)
    requires |ts| <= 0x7FFF_FFFF_FFFF_FFFF
    ensures NextIndex(Listed(ts)) == |ts|
  {
    hide Numeral, IsIndex, Decimal;
    if ts != [] {
      var es, n := Listed(ts), |ts| - 1;
      assert es[..n] == Listed(ts[..n]);
      NextIsLength(ts[..n]);
      NumeralCounts(n);
    }
  }

  lemma ListGrows(ts: seq<bytes>, t: bytes)
    ensures Listed(ts + [t]) == Listed(ts) + [Entry(Numeral(|ts|), Str(t))]
  {
    hide Numeral;
    assert (ts + [t])[..|ts|] == ts;
  }

  lemma NotYetIn(ts: seq<bytes>)
    ensures forall i :: 0 <= i < |Listed(ts)| ==> Listed(ts)[i].key != Numeral(|ts|)
  {
    hide Numeral;
    forall i | 0 <= i < |ts| ensures Listed(ts)[i].key != Numeral(|ts|) { NumeralsDiffer(i, |ts|); }
  }

  /** A plain insertion goes behind what is there. */
  lemma InsertNext(es: seq<Entry>, k: bytes, leaf: Value)
    requires k == Numeral(NextIndex(es)) && forall i :: 0 <= i < |es| ==> es[i].key != k
    ensures Insert(Arr(es), [[48]], leaf) == Arr(es + [Entry(k, leaf)])
  {
    hide Numeral, NextIndex, Find;
    PutFresh(es, k, Null, leaf);
    var path: seq<bytes> := [[48]];
    assert path[1..] == [] && [k] + path[1..] == [k] && [k][1..] == [];
    var fs := es + [Entry(k, Null)];
    assert Merge(Arr(es), path) == Merged(Arr(fs), [k]);
    assert Has(fs, k) && SetAt(fs[|es|].value, [], leaf) == leaf;
  }

  /** One more text at the end of a list. */
  lemma InsertAppends(ts: seq<bytes>, t: bytes)
    requires |ts| <= 0x7FFF_FFFF_FFFF_FFFF
    ensures Insert(Arr(Listed(ts)), [[48]], Str(t)) == Arr(Listed(ts + [t]))
  {
    hide Numeral, NextIndex, Insert;
    NextIsLength(ts);
    NotYetIn(ts);
    InsertNext(Listed(ts), Numeral(|ts|), Str(t));
    ListGrows(ts, t);
  }

  lemma ListKeyReads(o: Options, k: bytes)
    requires o == QueryOptions(o.maxNesting) && KeyOk(k) && o.maxNesting > 0
    ensures SanitizeKey(o, UrlEncode(k + EMPTY_BRACKETS)) == (Path([k, [48]]), false)
    ensures UrlEncode(k + EMPTY_BRACKETS) != [] && k != []
  {
    hide Dimensions, UrlEncode, UrlDecode, Trim, IsIndex;
    var key := k + EMPTY_BRACKETS;
    UrlDecodeEncode(key);
    UrlTextIsNotTrimmed(UrlEncode(key));
    ListKeySplits(k, o.maxNesting);
  }

  lemma FirstOfList(o: Options, s: Store, k: bytes, t: bytes)
    requires o == QueryOptions(o.maxNesting) && KeyOk(k) && o.maxNesting > 0 && R.Fresh(s.params, k)
    ensures Apply(o, s, Item(k + EMPTY_BRACKETS, t)).params == s.params + [Named(k, Param(false, Arr(Listed([t])), []))]
  {
    hide SanitizeKey, UrlEncode, PushValue, SetAt, KeyOk, FindNamed, Chain;
    var key, path: seq<bytes> := k + EMPTY_BRACKETS, [[48]];
    ListKeyReads(o, k);
    assert [k, [48]][1..] == path && [k, [48]][0] == k;
    var p := Param(false, Chain(path, Null), []);
    R.PutAtEnd(s.params, k, p, p.(value := Chain(path, Str(t))));
    var s1 := PushParam(o, s, UrlEncode(key));
    assert s1.params == s.params + [Named(k, p)] && s1.target == Target(k, InValue(path)) && !s1.rfc5987;
    ValuePushed(o, s1, t);
    SetAtChain(path, Str(t));
    OneIsListed(t);
  }

  lemma OneIsListed(t: bytes)
    ensures Chain([[48]], Str(t)) == Arr(Listed([t]))
  {
    var path: seq<bytes> := [[48]];
    assert path[1..] == [];
    assert Listed([t]) == [Entry(Numeral(0), Str(t))];
  }

  lemma NextOfList(o: Options, s: Store, done: seq<Named>, k: bytes, v: Value, t: bytes)
    requires o == QueryOptions(o.maxNesting) && KeyOk(k) && o.maxNesting > 0
    requires R.Fresh(done, k) && s.params == done + [Named(k, Param(false, v, []))]
    ensures Apply(o, s, Item(k + EMPTY_BRACKETS, t)).params
      == done + [Named(k, Param(false, Insert(v, [[48]], Str(t)), []))]
  {
    hide SanitizeKey, UrlEncode, PushValue, SetAt, Merge, KeyOk, FindNamed;
    var key, path: seq<bytes> := k + EMPTY_BRACKETS, [[48]];
    ListKeyReads(o, k);
    assert [k, [48]][1..] == path && [k, [48]][0] == k;
    var m := Merge(v, path);
    R.PutAtEnd(done, k, Param(false, v, []), Param(false, m.value, []));
    R.PutAtEnd(done, k, Param(false, m.value, []), Param(false, Insert(v, path, Str(t)), []));
    var s1 := PushParam(o, s, UrlEncode(key));
    assert s1.params == done + [Named(k, Param(false, m.value, []))];
    assert s1.target == Target(k, InValue(m.at)) && !s1.rfc5987;
    ValuePushed(o, s1, t);
  }

  lemma {:induction false} ListBuilds(o: Options, s: Store, k: bytes, ts: seq<bytes>)
    requires o == QueryOptions(o.maxNesting) && KeyOk(k) && o.maxNesting > 0 && R.Fresh(s.params, k)
    requires 0 < |ts| <= 0x7FFF_FFFF_FFFF_FFFF
    ensures ApplyAll(o, s, ListItems(k, ts)).params == s.params + [Named(k, Param(false, Arr(Listed(ts)), []))]
  {
    hide Apply, KeyOk, Listed, ApplyAll, Insert;
    var n := |ts| - 1;
    var its, front, t := ListItems(k, ts), ListItems(k, ts[..n]), ts[n];
    assert its == front + [Item(k + EMPTY_BRACKETS, t)] && ts == ts[..n] + [t];
    ApplyAllConcat(o, s, front, [Item(k + EMPTY_BRACKETS, t)]);
    var s1 := ApplyAll(o, s, front);
    OneApplied(o, s1, Item(k + EMPTY_BRACKETS, t));
    if n == 0 {
      NothingApplied(o, s);
      assert front == [] && ts == [t];
      FirstOfList(o, s, k, t);
    } else {
      ListBuilds(o, s, k, ts[..n]);
      NextOfList(o, s1, s.params, k, Arr(Listed(ts[..n])), t);
      InsertAppends(ts[..n], t);
    }
  }

  lemma OneApplied(o: Options, s: Store, it: Item)
    ensures ApplyAll(o, s, [it]) == Apply(o, s, it)
  {
    hide Apply;
    assert [it][1..] == [];
  }

  /** The same key with empty brackets, given again and again, makes a list of its texts in order. */
  lemma ListsAppend(k: bytes, ts: seq<bytes>, maxNesting: nat)
    requires KeyOk(k) && maxNesting > 0 && 0 < |ts| <= 0x7FFF_FFFF_FFFF_FFFF
    ensures Parse(ItemsText(ListItems(k, ts)), QueryOptions(maxNesting)) == [Named(k, Param(false, Arr(Listed(ts)), []))]
  {
    hide Run, ItemsText, ApplyAll, KeyOk, Listed;
    var o := QueryOptions(maxNesting);
    ItemsParse(ListItems(k, ts), o);
    ListBuilds(o, Start.store, k, ts);
  }

  // ---- a table that is named without a path

  lemma {:induction false} SameTail(es: seq<Entry>, e: Entry, i: nat)
    requires 0 < i <= |es|
    ensures LeavesFrom(Arr(es[0 := e]), i) == LeavesFrom(Arr(es), i)
    decreases |es| - i
  {
    hide Under;
    if i < |es| { SameTail(es, e, i + 1); }
  }

  function FirstChanged(ls: seq<Leaf>, t: bytes): seq<Leaf>
    requires ls != []
  {
    [Leaf(ls[0].path, t)] + ls[1..]
  }

  lemma FirstEntryIsSet(es: seq<Entry>, at: seq<bytes>, leaf: Value)
    requires es != []
    ensures SetAt(Arr(es), [es[0].key] + at, leaf) == Arr(es[0 := Entry(es[0].key, SetAt(es[0].value, at, leaf))])
  {
    assert ([es[0].key] + at)[1..] == at && Find(es, es[0].key) == 0;
  }

  lemma FirstEntryLeaves(es: seq<Entry>, r: Value, t: bytes)
    requires es != [] && Leaves(es[0].value) != [] && Leaves(r) == FirstChanged(Leaves(es[0].value), t)
    ensures Leaves(Arr(es)) != []
    ensures Leaves(Arr(es[0 := Entry(es[0].key, r)])) == FirstChanged(Leaves(Arr(es)), t)
  {
    hide Under;
    var e, ls := es[0], Leaves(es[0].value);
    SameTail(es, Entry(e.key, r), 1);
    UnderChanges(e.key, ls, t);
    ChangedFront(Under(e.key, ls), LeavesFrom(Arr(es), 1), t);
  }

  lemma ChangedFront(xs: seq<Leaf>, ys: seq<Leaf>, t: bytes)
    requires xs != []
    ensures FirstChanged(xs, t) + ys == FirstChanged(xs + ys, t)
  {}

  lemma {:induction false} FirstLeafIsSet(v: Value, t: bytes)
    requires TreeOk(v)
    ensures Leaves(v) != [] && Leaves(SetAt(v, FirstLeaf(v), Str(t))) == FirstChanged(Leaves(v), t)
    decreases v
  {
    if v.Arr? {
      hide SetAt, Leaves, KeyOk;
      var es, e := v.entries, v.entries[0];
      FirstLeafIsSet(e.value, t);
      FirstEntryIsSet(es, FirstLeaf(e.value), Str(t));
      FirstEntryLeaves(es, SetAt(e.value, FirstLeaf(e.value), Str(t)), t);
    }
  }

  lemma UnderChanges(k: bytes, ls: seq<Leaf>, t: bytes)
    requires ls != []
    ensures Under(k, FirstChanged(ls, t)) == FirstChanged(Under(k, ls), t)
  {
    assert FirstChanged(ls, t)[1..] == ls[1..];
  }

  /** A text for the whole of a table that is there replaces its first leaf, and no other. */
  lemma FirstLeafIsReplaced(v: Value, t: bytes)
    requires v.Arr? && TreeOk(v)
    ensures Leaves(v) != [] && Leaves(Insert(v, [], Str(t))) == FirstChanged(Leaves(v), t)
  {
    hide SetAt;
    FirstLeafIsSet(v, t);
  }

  // ---- keys that nest too deep

  lemma {:induction false} TooManyPieces(s: bytes, i: nat, level: nat, max: nat, path: seq<bytes>)
    requires i <= |s| && s[i..] == Bracketed(path) && PathOk(path) && level <= max < level + |path|
    ensures Pieces(s, i, None, level, max) == None
    decreases |path|
  {
    hide KeyOk, Pieces;
    var k, z := path[0], Bracketed(path[1..]);
    assert Bracketed(path) == [OPEN] + (k + ([CLOSE] + z));
    Peel(s, i, [OPEN], k + ([CLOSE] + z));
    assert s[i] == s[i..][0] == OPEN;
    if level == max {
      BracketIsTooDeep(s, i, max);
    } else {
      PieceEnds(s, i + 1, Some(i + 1), level + 1, max, k, CLOSE, z);
      TooManyPieces(s, i + 1 + |k| + 1, level + 1, max, path[1..]);
      PieceOpens(s, i, level, max);
    }
  }

  lemma BracketIsTooDeep(s: bytes, i: nat, max: nat)
    requires i < |s| && s[i] == OPEN
    ensures Pieces(s, i, None, max, max) == None
  {}

  lemma NestedTooDeep(s: bytes, k: bytes, p: bytes, path: seq<bytes>, max: nat)
    requires KeyOk(k) && KeyOk(p) && PathOk(path) && 0 < max < 1 + |path|
    requires s == k + ([OPEN] + (p + ([CLOSE] + Bracketed(path))))
    ensures Pieces(s, 0, None, 0, max) == None
  {
    hide Pieces, Bracketed, KeyOk;
    var z := Bracketed(path);
    assert s[0..] == s;
    PieceEnds(s, 0, None, 0, max, k, OPEN, p + ([CLOSE] + z));
    var i := |k| + 1;
    PieceEnds(s, i, None, 1, max, p, CLOSE, z);
    TooManyPieces(s, i + |p| + 1, 1, max, path);
  }

  /** A key that nests deeper than the limit is not taken apart. */
  lemma DeepKeyStays(k: bytes, path: seq<bytes>, max: nat)
    requires KeyOk(k) && PathOk(path) && |path| > max
    ensures Dimensions(k + Bracketed(path), max) == None
  {
    hide Pieces, Bracketed, KeyOk;
    BracketedStarts(k, path);
    var s, p, rest := k + Bracketed(path), path[0], path[1..];
    if max == 0 {
      PieceIsTooDeep(s, k, p + ([CLOSE] + Bracketed(rest)));
    } else {
      NestedTooDeep(s, k, p, rest, max);
    }
  }

  lemma PieceIsTooDeep(s: bytes, k: bytes, y: bytes)
    requires KeyOk(k) && s == k + ([OPEN] + y)
    ensures Pieces(s, 0, None, 0, 0) == None
  {
    assert s[0..] == s;
    PieceExtends(s, 0, None, 0, 0, k, [OPEN] + y);
    Peel(s, 0, k, [OPEN] + y);
    assert s[|k|] == s[|k|..][0];
  }

  // ---- keys that are not printed

  /** The entries of a table whose keys are neither empty nor start with a NUL. */
  function Shown(es: seq<Entry>): seq<Entry> {
    if es == [] then [] else (if es[0].key == [] || es[0].key[0] == NUL then [] else [es[0]]) + Shown(es[1..])
  }

  lemma {:induction false} DimensionFrom(buf: bytes, prefix: bytes, es: seq<Entry>, i: nat, e: Entry, s: Seps, f: Flags)
    requires i <= |es|
    ensures ShiftDimension(buf, prefix, Arr([e] + es), i + 1, s, f) == ShiftDimension(buf, prefix, Arr(es), i, s, f)
    decreases |es| - i
  {
    hide ShiftVal, ShiftKey;
    var all := [e] + es;
    if i < |es| {
      assert all[i + 1] == es[i];
      var d := es[i];
      if d.key == [] || d.key[0] == NUL {
        DimensionFrom(buf, prefix, es, i + 1, e, s, f);
      } else {
        var p := prefix + [91] + d.key + [93];
        var b := if d.value.Arr? then ShiftDimension(buf, p, d.value, 0, s, f)
                 else ShiftVal(ShiftKey(buf, p, s.param, f), Str(ParamPrinter.Text(d.value)), s.val, f);
        DimensionFrom(b, prefix, es, i + 1, e, s, f);
      }
    }
  }

  lemma DimensionFirst(buf: bytes, prefix: bytes, es: seq<Entry>, s: Seps, f: Flags) returns (b: bytes)
    requires es != []
    ensures ShiftDimension(buf, prefix, Arr(es), 0, s, f) == ShiftDimension(b, prefix, Arr(es[1..]), 0, s, f)
    ensures es[0].key == [] || es[0].key[0] == NUL ==> b == buf
    ensures es[0].key != [] && es[0].key[0] != NUL ==>
      forall rest :: ShiftDimension(buf, prefix, Arr([es[0]] + rest), 0, s, f) == ShiftDimension(b, prefix, Arr(rest), 0, s, f)
  {
    hide ShiftVal, ShiftKey;
    var e := es[0];
    var p := prefix + [91] + e.key + [93];
    b := if e.key == [] || e.key[0] == NUL then buf
         else if e.value.Arr? then ShiftDimension(buf, p, e.value, 0, s, f)
         else ShiftVal(ShiftKey(buf, p, s.param, f), Str(ParamPrinter.Text(e.value)), s.val, f);
    assert [e] + es[1..] == es;
    DimensionFrom(b, prefix, es[1..], 0, e, s, f);
    forall rest ensures e.key != [] && e.key[0] != NUL ==>
      ShiftDimension(buf, prefix, Arr([e] + rest), 0, s, f) == ShiftDimension(b, prefix, Arr(rest), 0, s, f)
    {
      assert ([e] + rest)[0] == e;
      DimensionFrom(b, prefix, rest, 0, e, s, f);
    }
  }

  /** Entries under other keys are left out of what is printed. */
  lemma {:induction false} HiddenKeysAreSkipped(buf: bytes, prefix: bytes, es: seq<Entry>, s: Seps, f: Flags)
    ensures ShiftDimension(buf, prefix, Arr(es), 0, s, f) == ShiftDimension(buf, prefix, Arr(Shown(es)), 0, s, f)
    decreases |es|
  {
    hide ShiftDimension;
    if es != [] {
      var b := DimensionFirst(buf, prefix, es, s, f);
      HiddenKeysAreSkipped(b, prefix, es[1..], s, f);
      assert es[0].key == [] || es[0].key[0] == NUL ==> Shown(es) == [] + Shown(es[1..]) == Shown(es[1..]);
    }
  }
}
