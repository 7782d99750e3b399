/** Printing a parameter table. */
module ParamPrinter {
  import opened Bytes
  import opened ParamText
  import opened ParamTable
  import opened ParamParser

  /** The separators written between parameters, arguments and values. */
  datatype Seps = Seps(param: bytes, arg: bytes, val: bytes)

  function PrepareKey(f: Flags, k: bytes): bytes {
    var u := if f.urlencoded then UrlEncode(k) else k;
    if f.escaped && !f.rfc5988 then Quote(u, false) else u
  }

  function PrepareValue(f: Flags, s: bytes): bytes {
    var u := if f.urlencoded then UrlEncode(s) else s;
    if f.escaped then Quote(u, false) else u
  }

  /** PHP's conversion to a string. */
  function Text(v: Value): bytes {
    match v
    case Null => []
    case True => [49]
    case False => []
    case Str(s) => s
    case Arr(_) => Lit("Array")
  }

  function ShiftKey(buf: bytes, k: bytes, sep: bytes, f: Flags): bytes {
    (if buf != [] then buf + sep else buf) + PrepareKey(f, k)
  }

  function ShiftVal(buf: bytes, v: Value, sep: bytes, f: Flags): bytes {
    if v.True? then buf else buf + sep + if v.False? then [48] else PrepareValue(f, Text(v))
  }

  /** The first entry of a language table, as *=utf-8'language'text. */
  function ShiftExtended(buf: bytes, v: Value, sep: bytes, f: Flags): bytes {
    if v.Arr? && v.entries != [] then
      var e := v.entries[0];
      buf + [42] + sep + Lit("utf-8'") + e.key + [39] + PrepareValue(f.(urlencoded := true), Text(e.value))
    else buf
  }

  predicate MustQuote(k: bytes) { k == Lit("rel") || k == Lit("title") || k == Lit("anchor") }

  function ShiftArg(buf: bytes, k: bytes, v: Value, s: Seps, f: Flags): bytes
    decreases v, 1
  {
    if v.Arr? then
      var extended := k == RFC5987_KEY;
      ShiftArgs(if extended then buf else ShiftKey(buf, k, s.arg, f), v, 0, extended, s, f)
    else
      var b := ShiftKey(buf, k, s.arg, f);
      if f.rfc5988 && MustQuote(k) then b + s.val + Quote(Text(v), true) else ShiftVal(b, v, s.val, f)
  }

  function ShiftArgs(buf: bytes, v: Value, i: nat, extended: bool, s: Seps, f: Flags): bytes
    requires v.Arr? && i <= |v.entries|
    decreases v, 0, |v.entries| - i
  {
    if i == |v.entries| then buf
    else
      var e := v.entries[i];
      var b := if extended && e.value.Arr?
               then ShiftExtended(ShiftKey(buf, e.key, s.arg, f), e.value, s.val, f)
               else ShiftArg(buf, e.key, e.value, s, f);
      ShiftArgs(b, v, i + 1, extended, s, f)
  }

  /** The leaves of a table under bracketed keys; keys that are empty or start with NUL are skipped. */
  function ShiftDimension(buf: bytes, prefix: bytes, v: Value, i: nat, s: Seps, f: Flags): bytes
    requires v.Arr? && i <= |v.entries|
    decreases v, |v.entries| - i
  {
    if i == |v.entries| then buf
    else
      var e := v.entries[i];
      if e.key == [] || e.key[0] == NUL then ShiftDimension(buf, prefix, v, i + 1, s, f)
      else
        var p := prefix + [91] + e.key + [93];
        var b := if e.value.Arr? then ShiftDimension(buf, p, e.value, 0, s, f)
                 else ShiftVal(ShiftKey(buf, p, s.param, f), Str(Text(e.value)), s.val, f);
        ShiftDimension(b, prefix, v, i + 1, s, f)
  }

  function ShiftParam(buf: bytes, k: bytes, v: Value, s: Seps, f: Flags, extended: bool): bytes {
    if v.Arr? then
      if f.dimension then ShiftDimension(buf, k, v, 0, s, f)
      else if extended then ShiftExtended(ShiftKey(buf, k, s.param, f), v, s.val, f)
      else ShiftArg(buf, k, v, s, f)
    else
      var b := if f.rfc5988
               then (if buf != [] then buf + s.param else buf) + [60] + PrepareKey(f, k) + [62]
               else ShiftKey(buf, k, s.param, f);
      ShiftVal(b, v, s.val, f)
  }

  /** The parameters from `i` on; the mark of an extended one stays set for those behind it. */
  function PrintFrom(buf: bytes, ps: seq<Named>, i: nat, extended: bool, s: Seps, f: Flags): bytes
    requires i <= |ps|
    decreases |ps| - i
  {
    if i == |ps| then buf
    else
      var p := ps[i].param;
      var x := extended || p.extended;
      var b := ShiftParam(buf, ps[i].key, p.value, s, f, x);
      PrintFrom(ShiftArgs(b, Arr(p.arguments), 0, false, s, f), ps, i + 1, x, s, f)
  }

  function Print(ps: seq<Named>, s: Seps, f: Flags): bytes { PrintFrom([], ps, 0, false, s, f) }

  /** The printer as it runs: it appends to one buffer. */
  method ToString(ps: seq<Named>, s: Seps, f: Flags) returns (buf: bytes)
    ensures buf == Print(ps, s, f)
  {
    hide ShiftParam, ShiftArg;
    buf := [];
    var extended, i := false, 0;
    while i < |ps|
      invariant 0 <= i <= |ps|
      invariant PrintFrom(buf, ps, i, extended, s, f) == Print(ps, s, f)
    {
      var p := ps[i].param;
      if p.extended {
        extended := true;
      }
      buf := ShiftParam(buf, ps[i].key, p.value, s, f, extended);
      ghost var args := Arr(p.arguments);
      var j := 0;
      ghost var done := ShiftArgs(buf, args, 0, false, s, f);
      while j < |p.arguments|
        invariant 0 <= j <= |p.arguments|
        invariant ShiftArgs(buf, args, j, false, s, f) == done
      {
        buf := ShiftArg(buf, p.arguments[j].key, p.arguments[j].value, s, f);
        j := j + 1;
      }
      i := i + 1;
    }
  }

  /** The table with every parameter marked as extended. */
  function AllMarked(ps: seq<Named>): seq<Named> {
    seq(|ps|, i requires 0 <= i < |ps| => Named(ps[i].key, ps[i].param.(extended := true)))
  }

  lemma {:induction false} MarkIsSet(buf: bytes, ps: seq<Named>, i: nat, x: bool, s: Seps, f: Flags)
    requires i <= |ps| && (i < |ps| ==> x || ps[i].param.extended)
    ensures PrintFrom(buf, ps, i, x, s, f) == PrintFrom(buf, AllMarked(ps), i, x, s, f)
    decreases |ps| - i
  {
    hide ShiftParam, ShiftArgs;
    if i < |ps| {
      var p := ps[i].param;
      MarkIsSet(ShiftArgs(ShiftParam(buf, ps[i].key, p.value, s, f, true), Arr(p.arguments), 0, false, s, f), ps, i + 1, true, s, f);
    }
  }

  /** Once an extended parameter is printed, all behind it are printed as if they were extended too. */
  lemma MarkStays(ps: seq<Named>, s: Seps, f: Flags)
    requires ps != [] && ps[0].param.extended
    ensures Print(ps, s, f) == Print(AllMarked(ps), s, f)
  {
    hide PrintFrom;
    MarkIsSet([], ps, 0, false, s, f);
  }

  lemma {:induction false} ArgsFrom(buf: bytes, es: seq<Entry>, i: nat, x: bool, e: Entry, s: Seps, f: Flags)
    requires i <= |es|
    ensures ShiftArgs(buf, Arr([e] + es), i + 1, x, s, f) == ShiftArgs(buf, Arr(es), i, x, s, f)
    decreases |es| - i
  {
    hide ShiftArg, ShiftExtended, ShiftKey;
    var all := [e] + es;
    if i < |es| {
      assert all[i + 1] == es[i];
      var d := es[i];
      var b := if x && d.value.Arr? then ShiftExtended(ShiftKey(buf, d.key, s.arg, f), d.value, s.val, f)
               else ShiftArg(buf, d.key, d.value, s, f);
      ArgsFrom(b, es, i + 1, x, e, s, f);
    }
  }

  /** An argument that holds a table is printed as its name and then the entries, as arguments behind it. */
  lemma NestedIsFlat(buf: bytes, k: bytes, es: seq<Entry>, s: Seps, f: Flags)
    requires k != RFC5987_KEY && !(f.rfc5988 && MustQuote(k))
    ensures ShiftArg(buf, k, Arr(es), s, f) == ShiftArgs(buf, Arr([Entry(k, True)] + es), 0, false, s, f)
  {
    hide ShiftKey, ShiftArgs, MustQuote;
    ArgsFrom(ShiftKey(buf, k, s.arg, f), es, 0, false, Entry(k, True), s, f);
    FirstArg(buf, k, es, s, f);
  }

  lemma FirstArg(buf: bytes, k: bytes, es: seq<Entry>, s: Seps, f: Flags)
    requires !(f.rfc5988 && MustQuote(k))
    ensures ShiftArgs(buf, Arr([Entry(k, True)] + es), 0, false, s, f)
      == ShiftArgs(ShiftKey(buf, k, s.arg, f), Arr([Entry(k, True)] + es), 1, false, s, f)
  {
    hide ShiftKey, MustQuote;
    assert ([Entry(k, True)] + es)[0] == Entry(k, True);
  }
}
