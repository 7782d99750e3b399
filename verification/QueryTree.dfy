/** Nested tables as lists of leaves, and their reconstruction leaf by leaf. */
module QueryTree {
  import opened Bytes
  import opened Decimals
  import opened ParamTable

  const OPEN: byte := 91
  const CLOSE: byte := 93

  /** A key that a query string carries: not empty, not numeric, no brackets, no leading NUL. */
  predicate KeyOk(k: bytes) {
    k != [] && k[0] != NUL && !IsIndex(k) && forall i :: 0 <= i < |k| ==> k[i] != OPEN && k[i] != CLOSE
  }

  ghost predicate DistinctKeys(es: seq<Entry>) { forall i, j :: 0 <= i < j < |es| ==> es[i].key != es[j].key }

  /** A text leaf, or a non-empty table of trees under distinct good keys. */
  ghost predicate TreeOk(v: Value) {
    v.Str? ||
    (v.Arr? && v.entries != [] && DistinctKeys(v.entries) &&
     forall i :: 0 <= i < |v.entries| ==> KeyOk(v.entries[i].key) && TreeOk(v.entries[i].value))
  }

  /** Tables on the way to the deepest leaf are at most `n`. */
  ghost predicate DepthAtMost(v: Value, n: nat) {
    v.Arr? ==> n > 0 && forall i :: 0 <= i < |v.entries| ==> DepthAtMost(v.entries[i].value, n - 1)
  }

  datatype Leaf = Leaf(path: seq<bytes>, text: bytes)

  function Under(k: bytes, ls: seq<Leaf>): (r: seq<Leaf>)
    ensures |r| == |ls|
    ensures forall i :: 0 <= i < |ls| ==> r[i] == Leaf([k] + ls[i].path, ls[i].text)
  {
    if ls == [] then [] else [Leaf([k] + ls[0].path, ls[0].text)] + Under(k, ls[1..])
  }

  /** The leaves in the order in which the table is walked. */
  ghost function Leaves(v: Value): seq<Leaf>
    decreases v, 1
  {
    if v.Arr? then LeavesFrom(v, 0) else if v.Str? then [Leaf([], v.text)] else []
  }

  ghost function LeavesFrom(v: Value, i: nat): seq<Leaf>
    requires v.Arr? && i <= |v.entries|
    decreases v, 0, |v.entries| - i
  {
    if i == |v.entries| then []
    else Under(v.entries[i].key, Leaves(v.entries[i].value)) + LeavesFrom(v, i + 1)
  }

  // ---- one leaf

  /** Making room at a path and then setting what is there. */
  function Insert(v: Value, path: seq<bytes>, leaf: Value): Value {
    var m := Merge(v, path);
    SetAt(m.value, m.at, leaf)
  }

  lemma {:induction false} SetAtChain(path: seq<bytes>, leaf: Value)
    ensures SetAt(Chain(path, Null), path, leaf) == Chain(path, leaf)
  {
    if path != [] {
      SetAtChain(path[1..], leaf);
      var es := [Entry(path[0], Chain(path[1..], Null))];
      assert Find(es, path[0]) == 0;
    }
  }

  lemma PutFresh(es: seq<Entry>, k: bytes, v: Value, w: Value)
    requires forall i :: 0 <= i < |es| ==> es[i].key != k
    ensures !Has(es, k) && Put(es, k, v) == es + [Entry(k, v)]
    ensures var fs := es + [Entry(k, v)];
      Find(fs, k) == |es| && Put(fs, k, w) == es + [Entry(k, w)]
  {
    hide Find;
    var fs := es + [Entry(k, v)];
    assert fs[|es|].key == k;
    assert forall i :: 0 <= i < |es| ==> fs[i].key == es[i].key;
    assert Find(fs, k) == |es|;
  }

  /** Under a new key a leaf brings the chain of tables above it. */
  lemma InsertFresh(es: seq<Entry>, k: bytes, p: seq<bytes>, leaf: Value)
    requires (forall i :: 0 <= i < |es| ==> es[i].key != k) && k != [48]
    ensures Insert(Arr(es), [k] + p, leaf) == Arr(es + [Entry(k, Chain(p, leaf))])
  {
    hide Find, Chain;
    PutFresh(es, k, Chain(p, Null), Chain(p, leaf));
    assert ([k] + p)[1..] == p;
    SetAtChain(p, leaf);
    assert Merge(Arr(es), [k] + p) == Merged(Arr(es + [Entry(k, Chain(p, Null))]), [k] + p);
  }

  /** Under the last key a leaf goes into the table that is there. */
  lemma InsertLast(es: seq<Entry>, k: bytes, v: Value, p: seq<bytes>, leaf: Value)
    requires (forall i :: 0 <= i < |es| ==> es[i].key != k) && p != []
    ensures Insert(Arr(es + [Entry(k, v)]), [k] + p, leaf) == Arr(es + [Entry(k, Insert(v, p, leaf))])
  {
    hide Find;
    var m := Merge(v, p);
    PutFresh(es, k, v, m.value);
    PutFresh(es, k, m.value, Insert(v, p, leaf));
    assert ([k] + p)[1..] == p && ([k] + m.at)[1..] == m.at;
    assert Merge(Arr(es + [Entry(k, v)]), [k] + p) == Merged(Arr(es + [Entry(k, m.value)]), [k] + m.at);
  }

  lemma ChainIsInsert(p: seq<bytes>, leaf: Value)
    requires p != [] && p[0] != [48]
    ensures Insert(Arr([]), p, leaf) == Chain(p, leaf)
  {
    hide Insert;
    InsertFresh([], p[0], p[1..], leaf);
    assert [p[0]] + p[1..] == p;
    assert [] + [Entry(p[0], Chain(p[1..], leaf))] == [Entry(p[0], Chain(p[1..], leaf))];
  }

  // ---- all leaves

  function InsertAll(v: Value, ls: seq<Leaf>): Value
    decreases |ls|
  {
    if ls == [] then v else InsertAll(Insert(v, ls[0].path, Str(ls[0].text)), ls[1..])
  }

  lemma {:induction false} InsertAllConcat(v: Value, xs: seq<Leaf>, ys: seq<Leaf>)
    ensures InsertAll(v, xs + ys) == InsertAll(InsertAll(v, xs), ys)
    decreases |xs|
  {
    hide Insert;
    if xs == [] {
      assert xs + ys == ys;
    } else {
      assert (xs + ys)[1..] == xs[1..] + ys;
      InsertAllConcat(Insert(v, xs[0].path, Str(xs[0].text)), xs[1..], ys);
    }
  }

  lemma {:induction false} InsertAllLast(es: seq<Entry>, k: bytes, v: Value, ls: seq<Leaf>)
    requires forall i :: 0 <= i < |es| ==> es[i].key != k
    requires forall i :: 0 <= i < |ls| ==> ls[i].path != []
    ensures InsertAll(Arr(es + [Entry(k, v)]), Under(k, ls)) == Arr(es + [Entry(k, InsertAll(v, ls))])
    decreases |ls|
  {
    hide Insert;
    if ls != [] {
      InsertLast(es, k, v, ls[0].path, Str(ls[0].text));
      InsertAllLast(es, k, Insert(v, ls[0].path, Str(ls[0].text)), ls[1..]);
      assert Under(k, ls)[1..] == Under(k, ls[1..]);
    }
  }

  /** Every leaf of a table has a path, and it starts with one of the table's keys. */
  lemma {:induction false} LeafPaths(v: Value, i: nat)
    requires v.Arr? && TreeOk(v) && i <= |v.entries|
    ensures forall j :: 0 <= j < |LeavesFrom(v, i)| ==>
      LeavesFrom(v, i)[j].path != [] && LeavesFrom(v, i)[j].path[0] != [48]
    ensures i < |v.entries| ==> LeavesFrom(v, i) != []
    decreases v, |v.entries| - i
  {
    if i < |v.entries| {
      var e := v.entries[i];
      LeafPaths(v, i + 1);
      assert Leaves(e.value) != [] by {
        if e.value.Arr? { LeafPaths(e.value, 0); }
      }
      assert KeyOk(e.key) && e.key != [48];
    }
  }

  /** The leaves of one entry put the entry behind the others. */
  lemma EntryRebuilds(es: seq<Entry>, e: Entry)
    requires (forall i :: 0 <= i < |es| ==> es[i].key != e.key) && e.key != [48] && TreeOk(e.value)
    requires e.value.Arr? ==> InsertAll(Arr([]), LeavesFrom(e.value, 0)) == e.value
    ensures InsertAll(Arr(es), Under(e.key, Leaves(e.value))) == Arr(es + [e])
  {
    hide Insert;
    var k, ls := e.key, Leaves(e.value);
    var us := Under(k, ls);
    if e.value.Str? {
      InsertFresh(es, k, [], e.value);
      assert us[1..] == [] && Chain([], e.value) == e.value;
    } else {
      LeafPaths(e.value, 0);
      var p, t := ls[0].path, Str(ls[0].text);
      InsertFresh(es, k, p, t);
      ChainIsInsert(p, t);
      assert us[1..] == Under(k, ls[1..]);
      InsertAllLast(es, k, Insert(Arr([]), p, t), ls[1..]);
    }
  }

  /** Walking a tree and merging its leaves one by one rebuilds the tree, order included. */
  lemma {:induction false} TreeRebuilds(v: Value, i: nat)
    requires v.Arr? && TreeOk(v) && i <= |v.entries|
    ensures InsertAll(Arr(v.entries[..i]), LeavesFrom(v, i)) == v
    decreases v, |v.entries| - i
  {
    hide InsertAll, Leaves;
    if i == |v.entries| {
      assert v.entries[..i] == v.entries;
      assert InsertAll(v, []) == v by { NothingToInsert(v); }
    } else {
      var e, es := v.entries[i], v.entries[..i];
      if e.value.Arr? {
        TreeRebuilds(e.value, 0);
        assert e.value.entries[..0] == [];
      }
      assert KeyOk(e.key) && e.key != [48];
      EntryRebuilds(es, e);
      InsertAllConcat(Arr(es), Under(e.key, Leaves(e.value)), LeavesFrom(v, i + 1));
      assert es + [e] == v.entries[..i + 1];
      TreeRebuilds(v, i + 1);
    }
  }

  lemma NothingToInsert(v: Value) ensures InsertAll(v, []) == v {}

  // ---- bracketed keys

  function Bracketed(path: seq<bytes>): bytes {
    if path == [] then [] else [OPEN] + path[0] + [CLOSE] + Bracketed(path[1..])
  }

  ghost predicate PathOk(path: seq<bytes>) { forall i :: 0 <= i < |path| ==> KeyOk(path[i]) }

  /** Bytes other than brackets only extend the piece. */
  lemma {:induction false} PieceExtends(s: bytes, i: nat, from: Option<nat>, level: nat, max: nat, k: bytes, y: bytes)
    requires i <= |s| && (from.Some? ==> from.value <= i) && s[i..] == k + y
    requires k != [] && forall j :: 0 <= j < |k| ==> k[j] != OPEN && k[j] != CLOSE
    ensures i + |k| <= |s|
    ensures var start := if from.Some? then from.value else i;
      Pieces(s, i, from, level, max) == Pieces(s, i + |k|, Some(start), level, max)
    decreases |k|
  {
    assert s[i] == s[i..][0] == k[0];
    Peel(s, i, k, y);
    if |k| > 1 {
      var start := if from.Some? then from.value else i;
      assert k + y == [k[0]] + (k[1..] + y);
      Peel(s, i, [k[0]], k[1..] + y);
      PieceExtends(s, i + 1, Some(start), level, max, k[1..], y);
    }
  }

  function FirstPiece(k: bytes, rest: Option<seq<bytes>>): Option<seq<bytes>> {
    if rest.Some? then Some([k] + rest.value) else None
  }

  /** A piece that starts at `i` and ends with a bracket is taken whole. */
  lemma PieceEnds(s: bytes, i: nat, from: Option<nat>, level: nat, max: nat, k: bytes, b: byte, y: bytes)
    requires i <= |s| && (from.Some? ==> from.value == i) && s[i..] == k + ([b] + y)
    requires KeyOk(k) && (b == OPEN || b == CLOSE) && (b == OPEN ==> level < max)
    ensures i + |k| + 1 <= |s| && s[i + |k| + 1..] == y
    ensures Pieces(s, i, from, level, max)
      == FirstPiece(k, Pieces(s, i + |k| + 1, None, if b == OPEN then level + 1 else level, max))
  {
    PieceExtends(s, i, from, level, max, k, [b] + y);
    Peel(s, i, k, [b] + y);
    Peel(s, i + |k|, [b], y);
    assert s[i + |k|] == s[i + |k|..][0] == b;
  }

  lemma {:induction false} BracketedPieces(s: bytes, i: nat, level: nat, max: nat, path: seq<bytes>)
    requires i <= |s| && s[i..] == Bracketed(path) && PathOk(path) && level + |path| <= max
    ensures Pieces(s, i, None, level, max) == Some(path)
    decreases |path|
  {
    hide KeyOk, Pieces;
    if path == [] {
      NoPieceLeft(s, level, max);
    } else {
      var k, z := path[0], Bracketed(path[1..]);
      assert Bracketed(path) == [OPEN] + (k + ([CLOSE] + z));
      Peel(s, i, [OPEN], k + ([CLOSE] + z));
      assert s[i] == s[i..][0] == OPEN;
      PieceEnds(s, i + 1, Some(i + 1), level + 1, max, k, CLOSE, z);
      BracketedPieces(s, i + 1 + |k| + 1, level + 1, max, path[1..]);
      PieceOpens(s, i, level, max);
      assert [k] + path[1..] == path;
    }
  }

  lemma NoPieceLeft(s: bytes, level: nat, max: nat)
    ensures Pieces(s, |s|, None, level, max) == Some([])
  {}

  lemma PieceOpens(s: bytes, i: nat, level: nat, max: nat)
    requires i < |s| && s[i] == OPEN && level < max
    ensures Pieces(s, i, None, level, max) == Pieces(s, i + 1, Some(i + 1), level + 1, max)
  {}

  lemma PlainKeyStays(k: bytes, max: nat)
    requires KeyOk(k)
    ensures Dimensions(k, max) == None
  {
    hide Pieces, IsIndex;
    assert k[0..] == k + [];
    PieceExtends(k, 0, None, 0, max, k, []);
    NoPieces(k, max);
  }

  lemma NestedKeySplits(k: bytes, path: seq<bytes>, max: nat)
    requires KeyOk(k) && PathOk(path) && 0 < |path| <= max
    ensures Pieces(k + Bracketed(path), 0, None, 0, max) == Some([k] + path)
  {
    hide Pieces, Bracketed, KeyOk;
    var s := k + Bracketed(path);
    var p, z := path[0], Bracketed(path[1..]);
    BracketedStarts(k, path);
    assert s[0..] == s;
    PieceEnds(s, 0, None, 0, max, k, OPEN, p + ([CLOSE] + z));
    PieceEnds(s, |k| + 1, None, 1, max, p, CLOSE, z);
    BracketedPieces(s, |k| + 1 + |p| + 1, 1, max, path[1..]);
    assert [p] + path[1..] == path;
  }

  /** The key of a leaf splits into the top key and the path below it. */
  lemma KeySplits(k: bytes, path: seq<bytes>, max: nat)
    requires KeyOk(k) && PathOk(path) && |path| <= max
    ensures Dimensions(k + Bracketed(path), max) == if path == [] then None else Some([k] + path)
  {
    hide Pieces, Bracketed, KeyOk;
    if path == [] {
      assert Bracketed(path) == [] by { NoBrackets(path); }
      assert k + [] == k;
      PlainKeyStays(k, max);
    } else {
      NestedKeySplits(k, path, max);
    }
  }

  lemma NoBrackets(path: seq<bytes>) requires path == [] ensures Bracketed(path) == [] {}
  lemma NoPieces(s: bytes, max: nat) ensures Pieces(s, |s|, Some(0), 0, max) == Some([]) {}

  lemma BracketedStarts(k: bytes, path: seq<bytes>)
    requires path != []
    ensures k + Bracketed(path) == k + ([OPEN] + (path[0] + ([CLOSE] + Bracketed(path[1..]))))
  {
    assert Bracketed(path) == [OPEN] + (path[0] + ([CLOSE] + Bracketed(path[1..])));
  }
}
