/** Parameter tables: ordered hash tables, the split of `a[b][c]` keys and the merge of such paths. */
module ParamTable {
  import opened Bytes
  import opened Decimals

  /** A PHP value as it occurs in parameter tables. Keys that are integers stand as their numerals. */
  datatype Value = Null | True | False | Str(text: bytes) | Arr(entries: seq<Entry>)
  datatype Entry = Entry(key: bytes, value: Value)

  /** A parameter: its value, under "value" or under "*rfc5987*", and its arguments. */
  datatype Param = Param(extended: bool, value: Value, arguments: seq<Entry>)
  datatype Named = Named(key: bytes, param: Param)

  // ---- ordered tables

  function Find(es: seq<Entry>, k: bytes): (i: nat)
    ensures i <= |es|
    ensures forall j :: 0 <= j < i ==> es[j].key != k
    ensures i < |es| ==> es[i].key == k
  {
    if es == [] || es[0].key == k then 0 else 1 + Find(es[1..], k)
  }

  function Has(es: seq<Entry>, k: bytes): bool { Find(es, k) < |es| }

  /** Update in place, or insert at the end. */
  function Put(es: seq<Entry>, k: bytes, v: Value): seq<Entry> {
    var i := Find(es, k);
    if i < |es| then es[i := Entry(k, v)] else es + [Entry(k, v)]
  }

  function FindNamed(ps: seq<Named>, k: bytes): (i: nat)
    ensures i <= |ps|
    ensures forall j :: 0 <= j < i ==> ps[j].key != k
    ensures i < |ps| ==> ps[i].key == k
  {
    if ps == [] || ps[0].key == k then 0 else 1 + FindNamed(ps[1..], k)
  }

  function PutNamed(ps: seq<Named>, k: bytes, p: Param): seq<Named> {
    var i := FindNamed(ps, k);
    if i < |ps| then ps[i := Named(k, p)] else ps + [Named(k, p)]
  }

  // ---- integer keys

  /** The index that an insertion without a key gets. */
  function NextIndex(es: seq<Entry>): nat {
    if es == [] then 0
    else
      var k, n := es[|es| - 1].key, NextIndex(es[..|es| - 1]);
      if IsIndex(k) && k[0] != 45 && Decimal(k) >= n then Decimal(k) + 1 else n
  }

  /** The key under which a piece is stored: index 0 is always a plain insertion. */
  function StoreKey(es: seq<Entry>, k: bytes): bytes {
    if k == [48] then Numeral(NextIndex(es)) else k
  }

  // ---- the split of a key into dimensions

  /**
   * The pieces of `s` from `i` on, `from` being the start of the current one. An empty piece is the
   * first index of a new table. None when the brackets nest too deep.
   */
  function Pieces(s: bytes, i: nat, from: Option<nat>, level: nat, max: nat): (r: Option<seq<bytes>>)
    requires i <= |s| && (from.Some? ==> from.value <= i)
    decreases |s| - i
  {
    if i == |s| then Some([])
    else
      var start := if from.Some? then from.value else i;
      var open, close := s[i] == 91, s[i] == 93;
      if open && level + 1 > max then None
      else if open && start == i then Pieces(s, i + 1, Some(i + 1), level + 1, max)
      else if open || close then
        match Pieces(s, i + 1, None, if open then level + 1 else level, max)
        case None => None
        case Some(rest) => Some([if start == i then [48] else s[start..i]] + rest)
      else Pieces(s, i + 1, Some(start), level, max)
  }

  /** The path that a key names; a key without a piece names itself. */
  function Dimensions(s: bytes, max: nat): Option<seq<bytes>> {
    match Pieces(s, 0, None, 0, max)
    case None => None
    case Some(ps) => if ps == [] then None else Some(ps)
  }

  // ---- paths into a table

  /** The table that holds `leaf` at `path` and nothing else. */
  function Chain(path: seq<bytes>, leaf: Value): Value {
    if path == [] then leaf else Arr([Entry(path[0], Chain(path[1..], leaf))])
  }

  /** `v` with what is at `path` replaced; a path that leads nowhere changes nothing. */
  function SetAt(v: Value, path: seq<bytes>, leaf: Value): Value
    decreases |path|
  {
    if path == [] then leaf
    else if v.Arr? && Has(v.entries, path[0]) then
      Arr(Put(v.entries, path[0], SetAt(v.entries[Find(v.entries, path[0])].value, path[1..], leaf)))
    else v
  }

  /** The path to the first leaf. */
  function FirstLeaf(v: Value): seq<bytes> {
    if v.Arr? && v.entries != [] then [v.entries[0].key] + FirstLeaf(v.entries[0].value) else []
  }

  datatype Merged = Merged(value: Value, at: seq<bytes>)

  /** Makes room for a value at `path` below an existing value; `at` is where the room is. */
  function Merge(v: Value, path: seq<bytes>): Merged
    decreases |path|
  {
    if path == [] then Merged(v, FirstLeaf(v))
    else if v.Arr? && |path| > 1 && Has(v.entries, path[0]) then
      var sub := Merge(v.entries[Find(v.entries, path[0])].value, path[1..]);
      Merged(Arr(Put(v.entries, path[0], sub.value)), [path[0]] + sub.at)
    else
      var es := if v.Arr? then v.entries else [];
      var k := StoreKey(es, path[0]);
      Merged(Arr(Put(es, k, Chain(path[1..], Null))), [k] + path[1..])
  }
}
