/** Which header lines go out, told by the calls that set, added and removed them. */
module ResponseHeaders {
  import opened Bytes
  import opened StreamResponse

  function KeyOf(line: bytes): bytes { line[..Colon(line, 0)] }

  predicate HasColon(line: bytes) { Colon(line, 0) < |line| }

  /** The lines under a key. */
  function Under(lines: seq<bytes>, k: bytes): seq<bytes> {
    if lines == [] then [] else (if KeyOf(lines[0]) == k then [lines[0]] else []) + Under(lines[1..], k)
  }

  // ---- what the calls say

  predicate Sets(op: Op, k: bytes) { op.SetHeader? && HasColon(op.line) && KeyOf(op.line) == k }

  /** A call that does away with what was under a key before. */
  predicate Resets(op: Op, k: bytes) { Sets(op, k) || op == DelHeader(k) }

  /** The lines added under a key, in order. */
  function Adds(ops: seq<Op>, k: bytes): seq<bytes> {
    if ops == [] then []
    else
      (if ops[0].AddHeader? && HasColon(ops[0].line) && KeyOf(ops[0].line) == k then [ops[0].line] else [])
      + Adds(ops[1..], k)
  }

  /** The last `ops[j..]` do not reset the key, and the call before them does, if there is one. */
  ghost predicate LastReset(ops: seq<Op>, k: bytes, j: nat) {
    && j <= |ops| && (j > 0 ==> Resets(ops[j - 1], k))
    && forall i :: j <= i < |ops| ==> !Resets(ops[i], k)
  }

  /** What the last call to reset a key put there, and what was added later. */
  function Given(ops: seq<Op>, k: bytes, j: nat): seq<bytes>
    requires j <= |ops|
  {
    (if j > 0 && ops[j - 1].SetHeader? then [ops[j - 1].line] else []) + Adds(ops[j..], k)
  }

  /** The keys in the order they came in; a key that was removed comes in anew. */
  function Keys(ops: seq<Op>): seq<bytes> {
    if ops == [] then []
    else
      var ks, op := Keys(ops[..|ops| - 1]), ops[|ops| - 1];
      if (op.SetHeader? || op.AddHeader?) && HasColon(op.line) && KeyOf(op.line) !in ks then ks + [KeyOf(op.line)]
      else if op.DelHeader? then Without(ks, op.key)
      else ks
  }

  function Without(ks: seq<bytes>, k: bytes): seq<bytes> {
    if ks == [] then [] else (if ks[0] == k then [] else [ks[0]]) + Without(ks[1..], k)
  }

  // ---- the table

  ghost predicate EntryOk(e: Entry) { forall i :: 0 <= i < |e.lines| ==> KeyOf(e.lines[i]) == e.key }

  ghost predicate TableOk(es: seq<Entry>) {
    && (forall i :: 0 <= i < |es| ==> EntryOk(es[i]))
    && (forall i, j :: 0 <= i < j < |es| ==> es[i].key != es[j].key)
  }

  function KeysIn(es: seq<Entry>): seq<bytes> { if es == [] then [] else [es[0].key] + KeysIn(es[1..]) }

  function At(es: seq<Entry>, k: bytes): seq<bytes> { var i := FindEntry(es, k); if i < |es| then es[i].lines else [] }

  lemma {:induction false} UnderConcat(xs: seq<bytes>, ys: seq<bytes>, k: bytes)
    ensures Under(xs + ys, k) == Under(xs, k) + Under(ys, k)
  {
    hide KeyOf;
    if xs == [] {
      assert xs + ys == ys;
    } else {
      assert (xs + ys)[1..] == xs[1..] + ys;
      UnderConcat(xs[1..], ys, k);
    }
  }

  lemma {:induction false} UnderAlike(lines: seq<bytes>, key: bytes, k: bytes)
    requires forall i :: 0 <= i < |lines| ==> KeyOf(lines[i]) == key
    ensures Under(lines, k) == if key == k then lines else []
  {
    hide KeyOf;
    if lines != [] { UnderAlike(lines[1..], key, k); }
  }

  /** The lines under a key are those of its entry. */
  lemma {:induction false} TableHolds(es: seq<Entry>, k: bytes)
    requires TableOk(es)
    ensures Under(Lines(es), k) == At(es, k)
  {
    hide EntryOk, Under;
    if es == [] {
      NoLinesUnder(k);
    } else {
      var rest := es[1..];
      TableHolds(rest, k);
      UnderConcat(es[0].lines, Lines(rest), k);
      EntryHolds(es[0], k);
      if es[0].key == k { assert FindEntry(rest, k) == |rest|; }
    }
  }

  lemma NoLinesUnder(k: bytes) ensures Under([], k) == [] {}

  lemma EntryHolds(e: Entry, k: bytes)
    requires EntryOk(e)
    ensures Under(e.lines, k) == if e.key == k then e.lines else []
  {
    UnderAlike(e.lines, e.key, k);
  }

  lemma FindsIt(es: seq<Entry>, k: bytes, i: nat)
    requires TableOk(es) && i < |es| && es[i].key == k
    ensures FindEntry(es, k) == i
  {
    hide EntryOk;
  }

  lemma {:induction false} KeysInAt(es: seq<Entry>)
    ensures |KeysIn(es)| == |es| && forall i :: 0 <= i < |es| ==> KeysIn(es)[i] == es[i].key
  {
    if es != [] { KeysInAt(es[1..]); }
  }

  lemma KeysInAre(es: seq<Entry>, ks: seq<bytes>)
    requires |ks| == |es| && forall i :: 0 <= i < |es| ==> ks[i] == es[i].key
    ensures KeysIn(es) == ks
  {
    KeysInAt(es);
  }

  /** One line put: it replaces or follows what is under its key, and nothing else changes. */
  lemma PutIs(es: seq<Entry>, line: bytes, replace: bool, k: bytes)
    requires TableOk(es)
    ensures var fs := PutLine(es, line, replace);
      && TableOk(fs)
      && At(fs, k) == (if KeyOf(line) != k then At(es, k) else if replace then [line] else At(es, k) + [line])
      && KeysIn(fs) == if KeyOf(line) in KeysIn(es) then KeysIn(es) else KeysIn(es) + [KeyOf(line)]
  {
    hide FindEntry, KeysIn;
    var key, fs := KeyOf(line), PutLine(es, line, replace);
    var i, n := FindEntry(es, key), FindEntry(es, k);
    KeysInAt(es);
    assert EntryOk(fs[i]) && fs[i].key == key;
    assert TableOk(fs);
    if key == k {
      FindsIt(fs, k, i);
    } else if n < |es| {
      FindsIt(fs, k, n);
    } else {
      NotFound(fs, k);
    }
    KeysInAre(fs, if i < |es| then KeysIn(es) else KeysIn(es) + [key]);
    assert i < |es| ==> KeysIn(es)[i] == key;
  }

  lemma NotFound(es: seq<Entry>, k: bytes)
    requires forall i :: 0 <= i < |es| ==> es[i].key != k
    ensures FindEntry(es, k) == |es|
  {}

  lemma DroppedAt(es: seq<Entry>, key: bytes, j: nat)
    ensures var fs, i := DropEntry(es, key), FindEntry(es, key);
      && |fs| == (if i < |es| then |es| - 1 else |es|)
      && (j < |fs| ==> fs[j] == if j < i then es[j] else es[j + 1])
  {
    hide FindEntry;
  }

  lemma DroppedIsTable(es: seq<Entry>, key: bytes)
    requires TableOk(es)
    ensures TableOk(DropEntry(es, key))
  {
    hide FindEntry, EntryOk, DropEntry;
    var fs, i := DropEntry(es, key), FindEntry(es, key);
    forall j | 0 <= j < |fs| ensures EntryOk(fs[j]) { DroppedAt(es, key, j); }
    forall j, n | 0 <= j < n < |fs| ensures fs[j].key != fs[n].key {
      DroppedAt(es, key, j);
      DroppedAt(es, key, n);
    }
  }

  lemma DroppedHolds(es: seq<Entry>, key: bytes, k: bytes)
    requires TableOk(es)
    ensures At(DropEntry(es, key), k) == if key == k then [] else At(es, k)
  {
    hide FindEntry, EntryOk, DropEntry;
    var fs, i, n := DropEntry(es, key), FindEntry(es, key), FindEntry(es, k);
    DroppedIsTable(es, key);
    if key == k || n == |es| {
      forall j | 0 <= j < |fs| ensures fs[j].key != k { DroppedAt(es, key, j); }
      NotFound(fs, k);
    } else {
      var m := if n < i then n else n - 1;
      DroppedAt(es, key, m);
      FindsIt(fs, k, m);
    }
  }

  /** A key dropped: nothing is under it any more, and nothing else changes. */
  lemma DropIs(es: seq<Entry>, key: bytes, k: bytes)
    requires TableOk(es)
    ensures var fs := DropEntry(es, key);
      TableOk(fs) && At(fs, k) == (if key == k then [] else At(es, k)) && KeysIn(fs) == Without(KeysIn(es), key)
  {
    hide FindEntry, KeysIn, EntryOk, Without, DropEntry, At;
    DroppedIsTable(es, key);
    DroppedHolds(es, key, k);
    var fs, ks, i := DropEntry(es, key), KeysIn(es), FindEntry(es, key);
    KeysInAt(es);
    WithoutIs(ks, key, i);
    DroppedAt(es, key, 0);
    forall j | 0 <= j < |fs| ensures fs[j].key == Without(ks, key)[j] { DroppedAt(es, key, j); }
    KeysInAre(fs, Without(ks, key));
  }

  lemma {:induction false} WithoutIs(ks: seq<bytes>, k: bytes, i: nat)
    requires i <= |ks| && (i < |ks| ==> ks[i] == k) && forall j :: 0 <= j < |ks| && j != i ==> ks[j] != k
    ensures Without(ks, k) == if i < |ks| then ks[..i] + ks[i + 1..] else ks
  {
    if ks != [] {
      if i == 0 {
        WithoutIs(ks[1..], k, |ks| - 1);
        assert ks[..0] == [] && [] + ks[1..] == ks[1..];
      } else {
        WithoutIs(ks[1..], k, i - 1);
        if i < |ks| { assert [ks[0]] + (ks[1..][..i - 1] + ks[1..][i..]) == ks[..i] + ks[i + 1..]; }
      }
    }
  }

  // ---- runs up to the start

  /** The table after calls that have not started the response. */
  ghost predicate Tells(request: Option<Request>, ops: seq<Op>) {
    var es := Run(Initial(request), ops).header;
    && TableOk(es) && KeysIn(es) == Keys(ops)
    && forall k, j :: LastReset(ops, k, j) ==> At(es, k) == Given(ops, k, j)
  }

  lemma {:induction false} AddsConcat(xs: seq<Op>, ys: seq<Op>, k: bytes)
    ensures Adds(xs + ys, k) == Adds(xs, k) + Adds(ys, k)
  {
    hide KeyOf, HasColon;
    if xs == [] {
      assert xs + ys == ys;
    } else {
      assert (xs + ys)[1..] == xs[1..] + ys;
      AddsConcat(xs[1..], ys, k);
    }
  }

  /** What one more call makes of what is under a key. */
  function Next(was: seq<bytes>, op: Op, k: bytes): seq<bytes> {
    if Resets(op, k) then if op.SetHeader? then [op.line] else []
    else was + Adds([op], k)
  }

  lemma GivenNext(ops: seq<Op>, op: Op, k: bytes, j: nat)
    requires LastReset(ops + [op], k, j)
    ensures if Resets(op, k) then j == |ops| + 1 && Given(ops + [op], k, j) == Next([], op, k)
      else LastReset(ops, k, j) && Given(ops + [op], k, j) == Next(Given(ops, k, j), op, k)
  {
    hide Sets, Adds;
    var all := ops + [op];
    assert all[|ops|] == op && forall i :: 0 <= i < |ops| ==> all[i] == ops[i];
    if Resets(op, k) {
      assert all[j..] == [];
      NoAdds(k);
    } else {
      assert all[j..] == ops[j..] + [op];
      AddsConcat(ops[j..], [op], k);
    }
  }

  lemma AddsOne(op: Op, k: bytes)
    ensures Adds([op], k) == if op.AddHeader? && HasColon(op.line) && KeyOf(op.line) == k then [op.line] else []
  {
    hide KeyOf, HasColon;
    assert [op][1..] == [] && Adds([], k) == [];
  }

  lemma NoAdds(k: bytes) ensures Adds([], k) == [] {}

  /** What one more call does to the table while the response has not started. */
  lemma ApplyIs(c: Context, op: Op, k: bytes)
    requires TableOk(c.header) && !c.started && !c.finished && !Apply(c, op).ctx.started
    ensures var es := Apply(c, op).ctx.header;
      && TableOk(es) && At(es, k) == Next(At(c.header, k), op, k)
      && KeysIn(es) ==
        if (op.SetHeader? || op.AddHeader?) && HasColon(op.line) && KeyOf(op.line) !in KeysIn(c.header)
        then KeysIn(c.header) + [KeyOf(op.line)]
        else if op.DelHeader? then Without(KeysIn(c.header), op.key) else KeysIn(c.header)
  {
    hide PutLine, DropEntry, At, Adds, Colon, KeysIn, Without, Lines, HasContentLength, ForbidsChunked, TableOk;
    AddsOne(op, k);
    assert At(c.header, k) + [] == At(c.header, k);
    match op {
      case SetHeader(line) => if HasColon(line) { PutIs(c.header, line, true, k); }
      case AddHeader(line) => if HasColon(line) { PutIs(c.header, line, false, k); }
      case DelHeader(key) => DropIs(c.header, key, k);
      case _ =>
    }
  }

  lemma {:induction false} TableTells(request: Option<Request>, ops: seq<Op>)
    requires !Run(Initial(request), ops).started
    ensures Tells(request, ops)
    decreases |ops|
  {
    hide Apply, TableOk, At, Given, Run, Next, Resets, KeyOf, HasColon;
    if ops == [] {
      EmptyTells(request);
    } else {
      var xs, op := ops[..|ops| - 1], ops[|ops| - 1];
      assert ops == xs + [op];
      var c := Run(Initial(request), xs);
      LastStep(request, xs, op);
      TableTells(request, xs);
      forall k, j | LastReset(ops, k, j) ensures At(Apply(c, op).ctx.header, k) == Given(ops, k, j) {
        ApplyIs(c, op, k);
        GivenNext(xs, op, k, j);
        if Resets(op, k) { ResetForgets(At(c.header, k), op, k); }
      }
      ApplyIs(c, op, []);
    }
  }

  lemma ResetForgets(was: seq<bytes>, op: Op, k: bytes)
    requires Resets(op, k)
    ensures Next(was, op, k) == Next([], op, k)
  {}

  lemma EmptyTells(request: Option<Request>)
    ensures Tells(request, [])
  {
    forall k, j | LastReset([], k, j) ensures At([], k) == Given([], k, j) { NoAdds(k); }
  }

  /** A run that has not started had not started before its last call either. */
  lemma LastStep(request: Option<Request>, xs: seq<Op>, op: Op)
    requires !Run(Initial(request), xs + [op]).started
    ensures var c := Run(Initial(request), xs);
      !c.started && !c.finished && Run(Initial(request), xs + [op]) == Apply(c, op).ctx && !Apply(c, op).ctx.started
  {
    hide Apply, WireOk, HeadIsFixed;
    var c := Run(Initial(request), xs);
    RunConcat(Initial(request), xs, [op]);
    assert [op][1..] == [] && Run(c, [op]) == Apply(c, op).ctx;
    if c.started { HeadIsFrozen(request, xs, [op]); }
    InitialIsOk(request);
    RunKeepsOrder(Initial(request), xs);
    assert !c.finished by { NotStarted(c); }
  }

  lemma NotStarted(c: Context)
    requires WireOk(c) && !c.started
    ensures !c.finished
  {
    hide HasContentLength, ForbidsChunked;
  }

  // ---- the head that goes out

  lemma StartTakesTable(c: Context, op: Op)
    requires !c.started && !c.finished && c.wire == [] && Apply(c, op).ctx.started
    ensures var d := Apply(c, op).ctx; d.wire != [] && d.wire[0].Head? && d.wire[0].lines == Lines(c.header)
  {
    hide HasContentLength, ForbidsChunked, Lines, PutLine, DropEntry, Colon;
  }

  /** The head on the wire is the table at the call that starts the response. */
  lemma HeadTakesTable(request: Option<Request>, before: seq<Op>, op: Op, after: seq<Op>)
    requires !Run(Initial(request), before).started && Run(Initial(request), before + [op]).started
    ensures var w := Run(Initial(request), before + [op] + after).wire;
      w != [] && w[0].Head? && w[0].lines == Lines(Run(Initial(request), before).header)
  {
    hide Apply, WireOk, HeadIsFixed, Lines;
    var c := Run(Initial(request), before);
    RunConcat(Initial(request), before, [op]);
    assert [op][1..] == [] && Run(c, [op]) == Apply(c, op).ctx;
    InitialIsOk(request);
    RunKeepsOrder(Initial(request), before);
    assert !c.finished && c.wire == [] by { NothingSent(c); }
    StartTakesTable(c, op);
    HeadIsFrozen(request, before + [op], after);
  }

  lemma NothingSent(c: Context)
    requires WireOk(c) && !c.started
    ensures !c.finished && c.wire == []
  {
    hide HasContentLength, ForbidsChunked;
  }

  /**
   * In every run, of the lines of the head that goes out: under each key stand the line of the last
   * call that set it before the start, unless it was removed later, and then those of the later
   * calls that added to it, in order; what the calls for other keys do makes no difference.
   */
  lemma HeadLinesAreGiven(request: Option<Request>, before: seq<Op>, op: Op, after: seq<Op>, k: bytes, j: nat)
    requires !Run(Initial(request), before).started && Run(Initial(request), before + [op]).started
    requires LastReset(before, k, j)
    ensures var w := Run(Initial(request), before + [op] + after).wire;
      w != [] && w[0].Head? && Under(w[0].lines, k) == Given(before, k, j)
  {
    hide Run, TableOk, LastReset, Lines, Under, Given, At;
    HeadTakesTable(request, before, op, after);
    TableTells(request, before);
    TableHolds(Run(Initial(request), before).header, k);
  }

  function Grouped(lines: seq<bytes>, ks: seq<bytes>): seq<bytes> {
    if ks == [] then [] else Under(lines, ks[0]) + Grouped(lines, ks[1..])
  }

  /** The lines go out key by key, in the order in which the keys came in. */
  lemma HeadLinesAreGrouped(request: Option<Request>, before: seq<Op>, op: Op, after: seq<Op>)
    requires !Run(Initial(request), before).started && Run(Initial(request), before + [op]).started
    ensures var w := Run(Initial(request), before + [op] + after).wire;
      w != [] && w[0].Head? && w[0].lines == Grouped(w[0].lines, Keys(before))
  {
    hide Run, TableOk, Lines, Under, At, Grouped, Keys;
    HeadTakesTable(request, before, op, after);
    TableTells(request, before);
    var es := Run(Initial(request), before).header;
    assert es[0..] == es;
    TableIsGrouped(es, 0);
  }

  lemma {:induction false} TableIsGrouped(es: seq<Entry>, i: nat)
    requires TableOk(es) && i <= |es|
    ensures Lines(es[i..]) == Grouped(Lines(es), KeysIn(es[i..]))
    decreases |es| - i
  {
    hide EntryOk, Under;
    if i < |es| {
      assert es[i..][0] == es[i] && es[i..][1..] == es[i + 1..];
      TableHolds(es, es[i].key);
      FindsIt(es, es[i].key, i);
      TableIsGrouped(es, i + 1);
      var ks := KeysIn(es[i..]);
      assert ks[0] == es[i].key && ks[1..] == KeysIn(es[i + 1..]);
    }
  }

  // ---- status and version

  /** The last of the calls that set the status is behind `j` of them. */
  ghost predicate LastStatus(ops: seq<Op>, j: nat) {
    && j <= |ops| && (j > 0 ==> ops[j - 1].SetStatus?) && forall i :: j <= i < |ops| ==> !ops[i].SetStatus?
  }

  ghost predicate LastVersion(ops: seq<Op>, j: nat) {
    && j <= |ops| && (j > 0 ==> ops[j - 1].SetVersion?) && forall i :: j <= i < |ops| ==> !ops[i].SetVersion?
  }

  /** 1.0 in answer to a request of that version, and 1.1 otherwise. */
  function FirstVersion(request: Option<Request>): Version {
    if request.Some? && request.value.version.major == 1 && request.value.version.minor == 0 then Version(1, 0) else Version(1, 1)
  }

  function StatusGiven(ops: seq<Op>, j: nat): int
    requires LastStatus(ops, j)
  {
    if j > 0 then ops[j - 1].code else 200
  }

  function VersionGiven(request: Option<Request>, ops: seq<Op>, j: nat): Version
    requires LastVersion(ops, j)
  {
    if j > 0 then ops[j - 1].version else FirstVersion(request)
  }

  lemma StatusStep(c: Context, op: Op)
    requires !c.started && !c.finished && !Apply(c, op).ctx.started
    ensures var d := Apply(c, op).ctx;
      && d.status == (if op.SetStatus? then op.code else c.status)
      && d.version == (if op.SetVersion? then op.version else c.version)
  {
    hide PutLine, DropEntry, Colon, Lines, HasContentLength, ForbidsChunked;
  }

  lemma {:induction false} StatusTells(request: Option<Request>, ops: seq<Op>, j: nat, k: nat)
    requires !Run(Initial(request), ops).started && LastStatus(ops, j) && LastVersion(ops, k)
    ensures var c := Run(Initial(request), ops);
      c.status == StatusGiven(ops, j) && c.version == VersionGiven(request, ops, k)
    decreases |ops|
  {
    hide Apply, Run;
    if ops == [] {
      StartsLike(request);
    } else {
      var xs, op := ops[..|ops| - 1], ops[|ops| - 1];
      assert ops == xs + [op];
      LastStep(request, xs, op);
      StatusStep(Run(Initial(request), xs), op);
      var i := if op.SetStatus? then LastStatusOf(xs) else j;
      var n := if op.SetVersion? then LastVersionOf(xs) else k;
      LastOnesAre(xs);
      StatusTells(request, xs, i, n);
    }
  }

  lemma StartsLike(request: Option<Request>)
    ensures var c := Run(Initial(request), []); c.status == 200 && c.version == FirstVersion(request)
  {}

  function LastStatusOf(ops: seq<Op>): nat {
    if ops == [] then 0 else if ops[|ops| - 1].SetStatus? then |ops| else LastStatusOf(ops[..|ops| - 1])
  }

  function LastVersionOf(ops: seq<Op>): nat {
    if ops == [] then 0 else if ops[|ops| - 1].SetVersion? then |ops| else LastVersionOf(ops[..|ops| - 1])
  }

  lemma {:induction false} LastOnesAre(ops: seq<Op>)
    ensures LastStatus(ops, LastStatusOf(ops)) && LastVersion(ops, LastVersionOf(ops))
  {
    if ops != [] {
      var xs := ops[..|ops| - 1];
      LastOnesAre(xs);
      assert forall i :: 0 <= i < |xs| ==> xs[i] == ops[i];
    }
  }

  lemma StartTakesStatus(c: Context, op: Op)
    requires !c.started && !c.finished && c.wire == [] && Apply(c, op).ctx.started
    ensures var d := Apply(c, op).ctx;
      d.wire != [] && d.wire[0].Head? && d.wire[0].status == c.status && d.wire[0].version == c.version
  {
    hide HasContentLength, ForbidsChunked, Lines, PutLine, DropEntry, Colon;
  }

  /** In every run the head has the status and the version that were set last before the start. */
  lemma HeadStatusIsGiven(request: Option<Request>, before: seq<Op>, op: Op, after: seq<Op>, j: nat, k: nat)
    requires !Run(Initial(request), before).started && Run(Initial(request), before + [op]).started
    requires LastStatus(before, j) && LastVersion(before, k)
    ensures var w := Run(Initial(request), before + [op] + after).wire;
      && w != [] && w[0].Head?
      && w[0].status == StatusGiven(before, j) && w[0].version == VersionGiven(request, before, k)
  {
    hide Apply, WireOk, HeadIsFixed, Lines;
    var c := Run(Initial(request), before);
    RunConcat(Initial(request), before, [op]);
    assert [op][1..] == [] && Run(c, [op]) == Apply(c, op).ctx;
    InitialIsOk(request);
    RunKeepsOrder(Initial(request), before);
    assert !c.finished && c.wire == [] by { NothingSent(c); }
    StartTakesStatus(c, op);
    StatusTells(request, before, j, k);
    HeadIsFrozen(request, before + [op], after);
  }
}
