/** The parameter tokenizer and what it does with each token. */
module ParamParser {
  import opened Bytes
  import opened ParamText
  import opened ParamTable

  datatype Flags = Flags(escaped: bool, urlencoded: bool, dimension: bool, rfc5987: bool, rfc5988: bool)

  /** Separators of parameters, arguments and values; the value a parameter without one gets. */
  datatype Options = Options(
    param: seq<bytes>, arg: seq<bytes>, val: seq<bytes>, default: Value, flags: Flags, maxNesting: nat)

  const RFC5987_KEY: bytes := Lit("*rfc5987*")

  // ---- tokens

  /** The name in a key token: a plain one, or a path through dimensions. */
  datatype Key = Plain(text: bytes) | Path(pieces: seq<bytes>)

  function SanitizeKey(o: Options, s: bytes): (r: (Key, bool)) {
    var t := if o.flags.escaped then SanitizeEscaped(Trim(s)) else Trim(s);
    if t == [] then (Plain([]), false)
    else
      var star := o.flags.rfc5987 && t[|t| - 1] == 42;
      var u := if star then t[..|t| - 1] else t;
      var w := if o.flags.urlencoded then UrlDecode(u) else u;
      if o.flags.dimension && Dimensions(w, o.maxNesting).Some?
      then (Path(Dimensions(w, o.maxNesting).value), star) else (Plain(w), star)
  }

  predicate HasPrefixNoCase(s: bytes, lower: bytes) {
    |s| >= |lower| && forall i :: 0 <= i < |lower| ==> ToLower(s[i]) == lower[i]
  }

  /** Index of `b` at or after `i`, unless a NUL or the end comes first. */
  function IndexBeforeNul(s: bytes, b: byte, i: nat): (r: Option<nat>)
    requires i <= |s|
    ensures r.Some? ==> i <= r.value < |s|
    decreases |s| - i
  {
    if i == |s| || s[i] == NUL then None else if s[i] == b then Some(i) else IndexBeforeNul(s, b, i + 1)
  }

  datatype Extended = Extended(text: bytes, language: Option<bytes>, latin1: bool)

  /** Splits charset'language'text; anything else has no language. */
  function SplitExtended(s: bytes): Extended {
    var latin1 := HasPrefixNoCase(s, Lit("iso-8859-1"));
    var n := if latin1 then 10 else if HasPrefixNoCase(s, Lit("utf-8")) then 5 else 0;
    if n == 0 || |s| <= n || s[n] != 39 then Extended(s, None, latin1)
    else
      match IndexBeforeNul(s, 39, n + 1)
      case None => Extended(s, None, latin1)
      case Some(i) => Extended(BeforeNul(s[i + 1..]), Some(s[n + 1..i]), latin1)
  }

  function Latin1ToUtf8(s: bytes): bytes {
    if s == [] then []
    else (if s[0] < 128 then [s[0]] else [192 + s[0] / 64, 128 + s[0] % 64]) + Latin1ToUtf8(s[1..])
  }

  function SanitizeValue(o: Options, s: bytes, rfc5987: bool): Value {
    var x := if rfc5987 then SplitExtended(Trim(s)) else Extended(Trim(s), None, false);
    var t := if o.flags.escaped then SanitizeEscaped(x.text) else x.text;
    var u := if o.flags.urlencoded || x.language.Some? then UrlDecode(t) else t;
    match x.language
    case None => Str(u)
    case Some(l) => Arr([Entry(l, Str(if x.latin1 then Latin1ToUtf8(u) else u))])
  }

  // ---- the table and the place that the next value goes to

  datatype Place = InValue(path: seq<bytes>) | InArgument(name: bytes) | InExtended(name: bytes)
  datatype Target = Nowhere | Target(key: bytes, place: Place)

  /** The table, the parameter that arguments go to, the target, and the pending RFC 5987 mark. */
  datatype Store = Store(params: seq<Named>, args: Option<bytes>, target: Target, rfc5987: bool)

  function PutExtended(args: seq<Entry>, name: bytes, v: Value): seq<Entry> {
    var i := Find(args, RFC5987_KEY);
    var held := if i < |args| && args[i].value.Arr? then args[i].value.entries else [];
    Put(args, RFC5987_KEY, Arr(Put(held, name, v)))
  }

  function SetTarget(ps: seq<Named>, t: Target, v: Value): seq<Named> {
    if t.Nowhere? || FindNamed(ps, t.key) == |ps| then ps
    else
      var p := ps[FindNamed(ps, t.key)].param;
      PutNamed(ps, t.key,
        match t.place
        case InValue(path) => p.(value := SetAt(p.value, path, v))
        case InArgument(name) => p.(arguments := Put(p.arguments, name, v))
        case InExtended(name) => p.(arguments := PutExtended(p.arguments, name, v)))
  }

  function PushValue(o: Options, s: Store, text: bytes): Store {
    if s.target.Nowhere? then s
    else
      var v := if text == [] then Str([]) else SanitizeValue(o, text, s.rfc5987);
      s.(params := SetTarget(s.params, s.target, v), rfc5987 := false)
  }

  /** Without a parameter there is no argument table; the token is then dropped. */
  function PushArgument(o: Options, s: Store, text: bytes): Store {
    if text == [] then s
    else
      var (key, star) := SanitizeKey(o, text);
      var t := s.(rfc5987 := star);
      if key.Path? || key.text == [] || s.args.None? then t
      else
        var place := if star then InExtended(key.text) else InArgument(key.text);
        var target := Target(s.args.value, place);
        t.(params := SetTarget(s.params, target, True), target := target)
  }

  function MergeParam(s: Store, pieces: seq<bytes>): Store
    requires pieces != []
  {
    var k, rest := pieces[0], pieces[1..];
    var i := FindNamed(s.params, k);
    if i == |s.params| then
      Store(s.params + [Named(k, Param(false, Chain(rest, Null), []))], Some(k), Target(k, InValue(rest)), s.rfc5987)
    else
      var p := s.params[i].param;
      var m := Merge(p.value, rest);
      s.(params := PutNamed(s.params, k, p.(value := m.value)), target := Target(k, InValue(m.at)))
  }

  predicate IsLinkTrim(b: byte) { b == 32 || b == 60 || b == 62 }

  function PushParam(o: Options, s: Store, text: bytes): Store {
    if text == [] then s
    else
      var (key, star) :=
        if o.flags.rfc5988 then (Plain(TrimBy(text, IsLinkTrim)), false) else SanitizeKey(o, text);
      var t := if o.flags.rfc5988 then s else s.(rfc5987 := star);
      match key
      case Path(pieces) => if pieces == [] then t else MergeParam(t, pieces)
      case Plain(k) =>
        if k == [] then t
        else t.(params := PutNamed(s.params, k, Param(star, o.default, [])),
                args := Some(k), target := Target(k, InValue([])))
  }

  /** Where the current parameter, argument and value tokens start. */
  datatype Marks = Marks(param: Option<nat>, arg: Option<nat>, val: Option<nat>)

  predicate MarksBefore(m: Marks, pos: nat) {
    && (m.param.Some? ==> m.param.value <= pos)
    && (m.arg.Some? ==> m.arg.value <= pos)
    && (m.val.Some? ==> m.val.value <= pos)
  }

  function Push(input: bytes, o: Options, m: Marks, pos: nat, s: Store): Store
    requires pos <= |input| && MarksBefore(m, pos)
  {
    if m.val.Some? then PushValue(o, s, input[m.val.value..pos])
    else if m.arg.Some? then PushArgument(o, s, input[m.arg.value..pos])
    else if m.param.Some? then PushParam(o, s, input[m.param.value..pos])
    else s
  }

  // ---- the scan

  predicate IsAt(input: bytes, pos: nat, sep: bytes)
    requires pos <= |input|
  {
    sep != [] && pos + |sep| <= |input| && input[pos..pos + |sep|] == sep
  }

  /** Length of the first separator of the list that stands at `pos`, or 0. */
  function SepAt(input: bytes, pos: nat, seps: seq<bytes>): (n: nat)
    requires pos <= |input|
    ensures pos + n <= |input|
  {
    if seps == [] then 0
    else if IsAt(input, pos, seps[0]) then |seps[0]| else SepAt(input, pos, seps[1..])
  }

  /** A separator stands at a place if its bytes do, one after the other; an empty one never does. */
  ghost predicate Stands(input: bytes, pos: nat, sep: bytes) {
    sep != [] && pos + |sep| <= |input| && forall i :: 0 <= i < |sep| ==> input[pos + i] == sep[i]
  }

  /** The scan finds the first separator of the list that stands at the place, and nothing otherwise. */
  lemma {:induction false} SepAtIs(input: bytes, pos: nat, seps: seq<bytes>, j: nat)
    requires pos <= |input| && j <= |seps|
    requires forall i :: 0 <= i < j ==> !Stands(input, pos, seps[i])
    requires j < |seps| ==> Stands(input, pos, seps[j])
    ensures SepAt(input, pos, seps) == if j < |seps| then |seps[j]| else 0
    decreases |seps|
  {
    if seps != [] {
      StandsIff(input, pos, seps[0]);
      assert forall i :: 0 <= i < |seps| - 1 ==> seps[1..][i] == seps[i + 1];
      if j > 0 { SepAtIs(input, pos, seps[1..], j - 1); }
    }
  }

  lemma StandsIff(input: bytes, pos: nat, sep: bytes)
    requires pos <= |input|
    ensures IsAt(input, pos, sep) <==> Stands(input, pos, sep)
  {
    if IsAt(input, pos, sep) {
      forall i | 0 <= i < |sep| ensures input[pos + i] == sep[i] { assert input[pos..pos + |sep|][i] == sep[i]; }
    }
  }

  function SkipSeps(input: bytes, pos: nat, seps: seq<bytes>, active: bool): (p: nat)
    requires pos <= |input|
    ensures pos <= p <= |input|
    decreases |input| - pos
  {
    var n := if active then SepAt(input, pos, seps) else 0;
    if n == 0 then pos else SkipSeps(input, pos + n, seps, active)
  }

  lemma SkipsOne(input: bytes, pos: nat, seps: seq<bytes>, active: bool)
    requires pos <= |input|
    ensures var n := if active then SepAt(input, pos, seps) else 0;
      SkipSeps(input, pos, seps, active) == if n == 0 then pos else SkipSeps(input, pos + n, seps, active)
  {
    hide SepAt;
  }

  datatype State = State(pos: nat, quotes: bool, escape: bool, marks: Marks, store: Store)

  ghost predicate Ok(input: bytes, st: State) { st.pos <= |input| && MarksBefore(st.marks, st.pos) }

  /** Quotes toggle at a quote that is not escaped; within a link target the angles take their place. */
  function Quotes(o: Options, st: State, c: byte): bool {
    if o.flags.rfc5988 && st.marks.arg.None? then if c == 60 then true else if c == 62 then false else st.quotes
    else if c == QUOTE && !st.escape then !st.quotes
    else st.quotes
  }

  function EscapeFlag(o: Options, st: State, c: byte): bool {
    if (o.flags.rfc5988 && st.marks.arg.None?) || (c == QUOTE && !st.escape) then st.escape else c == BACKSLASH
  }

  /** One pass of the loop. */
  function Step(input: bytes, o: Options, st: State): (r: State)
    requires Ok(input, st) && st.pos < |input|
    ensures Ok(input, r) && r.pos > st.pos
  {
    var quotes, escape := Quotes(o, st, input[st.pos]), EscapeFlag(o, st, input[st.pos]);
    var active, m, pos := !quotes && !escape, st.marks, st.pos;
    var np := if active then SepAt(input, pos, o.param) else 0;
    var na := if active then SepAt(input, pos, o.arg) else 0;
    var nv := if active then SepAt(input, pos, o.val) else 0;
    if m.param.None? then
      var p := SkipSeps(input, pos, o.param + o.arg + o.val, active);
      State(if p < |input| then p + 1 else p, quotes, escape, m.(param := Some(p)), st.store)
    else if np > 0 then
      var p := SkipSeps(input, pos + np, o.param + o.arg + o.val, active);
      State(p, quotes, escape, Marks(Some(p), None, None), Push(input, o, m, pos, st.store))
    else if na > 0 then
      var p := SkipSeps(input, pos + na, o.arg + o.val, active);
      State(p, quotes, escape, m.(arg := Some(p), val := None), Push(input, o, m, pos, st.store))
    else if nv > 0 && m.val.None? then
      var p := SkipSeps(input, pos + nv, o.val, active);
      State(p, quotes, escape, m.(val := Some(p)), Push(input, o, m, pos, st.store))
    else State(pos + 1, quotes, escape, m, st.store)
  }

  function Run(input: bytes, o: Options, st: State): Store
    requires Ok(input, st)
    decreases |input| - st.pos
  {
    if st.pos == |input| then Push(input, o, st.marks, st.pos, st.store)
    else Run(input, o, Step(input, o, st))
  }

  lemma RunGoesOn(input: bytes, o: Options, st: State)
    requires Ok(input, st) && st.pos < |input|
    ensures Run(input, o, st) == Run(input, o, Step(input, o, st))
  {
    hide Step, Push;
  }

  lemma RunEnds(input: bytes, o: Options, st: State)
    requires Ok(input, st) && st.pos == |input|
    ensures Run(input, o, st) == Push(input, o, st.marks, st.pos, st.store)
  {
    hide Step, Push;
  }

  const Start := State(0, false, false, Marks(None, None, None), Store([], None, Nowhere, false))

  /** The table that a text is parsed into. */
  function Parse(input: bytes, o: Options): seq<Named> {
    Run(input, o, Start).params
  }

  /** The parser as it runs: one mutable state that a loop advances. */
  class Parser {
    const input: bytes
    const opts: Options
    var pos: nat
    var quotes: bool
    var escape: bool
    var marks: Marks
    var store: Store

    ghost function Now(): State
      reads this
    {
      State(pos, quotes, escape, marks, store)
    }

    constructor (input: bytes, opts: Options)
      ensures this.input == input && this.opts == opts && Now() == Start
    {
      this.input, this.opts := input, opts;
      pos, quotes, escape := 0, false, false;
      marks, store := Marks(None, None, None), Store([], None, Nowhere, false);
    }

    method CheckSep(seps: seq<bytes>) returns (n: nat)
      requires pos <= |input|
      ensures n == if quotes || escape then 0 else SepAt(input, pos, seps)
    {
      if quotes || escape {
        return 0;
      }
      var i := 0;
      assert seps[0..] == seps;
      while i < |seps|
        invariant 0 <= i <= |seps|
        invariant SepAt(input, pos, seps) == SepAt(input, pos, seps[i..])
      {
        if IsAt(input, pos, seps[i]) {
          return |seps[i]|;
        }
        assert seps[i..][1..] == seps[i + 1..];
        i := i + 1;
      }
      n := 0;
    }

    method SkipSep(skip: nat, seps: seq<bytes>)
      requires pos + skip <= |input|
      modifies this`pos
      ensures pos == SkipSeps(input, old(pos) + skip, seps, !quotes && !escape)
    {
      hide SkipSeps, SepAt;
      pos := pos + skip;
      var n := CheckSep(seps);
      while n > 0
        invariant pos <= |input|
        invariant n == if quotes || escape then 0 else SepAt(input, pos, seps)
        invariant SkipSeps(input, old(pos) + skip, seps, !quotes && !escape)
               == SkipSeps(input, pos, seps, !quotes && !escape)
        decreases |input| - pos
      {
        SkipsOne(input, pos, seps, !quotes && !escape);
        pos := pos + n;
        n := CheckSep(seps);
      }
      SkipsOne(input, pos, seps, !quotes && !escape);
    }

    /** Follows quotes, angles and backslashes. */
    method Toggle()
      requires pos < |input|
      modifies this`quotes, this`escape
      ensures quotes == Quotes(opts, old(Now()), input[pos]) && escape == EscapeFlag(opts, old(Now()), input[pos])
    {
      var c := input[pos];
      if opts.flags.rfc5988 && marks.arg.None? {
        if c == 60 {
          quotes := true;
        } else if c == 62 {
          quotes := false;
        }
      } else if c == QUOTE && !escape {
        quotes := !quotes;
      } else {
        escape := c == BACKSLASH;
      }
    }

    /** The body of the loop. */
    method Advance()
      requires Ok(input, Now()) && pos < |input|
      modifies this
      ensures Now() == Step(input, opts, old(Now()))
    {
      hide Push, SepAt, SkipSeps, Quotes, EscapeFlag;
      Toggle();
      if marks.param.None? {
        SkipSep(0, opts.param + opts.arg + opts.val);
        marks := marks.(param := Some(pos));
        if pos < |input| {
          pos := pos + 1;
        }
        return;
      }
      var n := CheckSep(opts.param);
      if n > 0 {
        store := Push(input, opts, marks, pos, store);
        SkipSep(n, opts.param + opts.arg + opts.val);
        marks := Marks(Some(pos), None, None);
        return;
      }
      n := CheckSep(opts.arg);
      if n > 0 {
        store := Push(input, opts, marks, pos, store);
        SkipSep(n, opts.arg + opts.val);
        marks := marks.(arg := Some(pos), val := None);
        return;
      }
      n := CheckSep(opts.val);
      if n > 0 && marks.val.None? {
        store := Push(input, opts, marks, pos, store);
        SkipSep(n, opts.val);
        marks := marks.(val := Some(pos));
        return;
      }
      pos := pos + 1;
    }

    method ParseAll() returns (params: seq<Named>)
      requires Now() == Start
      modifies this
      ensures params == Parse(input, opts)
    {
      hide Push, Step;
      while pos < |input|
        invariant Ok(input, Now())
        invariant Run(input, opts, Start) == Run(input, opts, Now())
        decreases |input| - pos
      {
        Advance();
      }
      store := Push(input, opts, marks, pos, store);
      params := store.params;
    }
  }
}
