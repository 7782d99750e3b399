/** The scanner for the Range request header. */
module RangeScan {
  import opened Bytes
  import opened Decimals

  datatype Range = Range(begin: int, end: int)

  /** The status of the scan: ranges, none to be used, or ranges that cannot be satisfied. */
  datatype Ranges = Ok(ranges: seq<Range>) | No | Err

  /** The two numbers of a range while it is read; -1 stands for none, -10 for zero. */
  datatype Slots = Slots(begin: int, end: int, inEnd: bool)

  const Empty := Slots(-1, -1, false)

  function Digit(v: int, c: byte): int
    requires IsDigit(c)
  {
    if c == 48 then if v != -10 then v * 10 else v
    else if v > 0 then v * 10 + DigitValue(c) else DigitValue(c)
  }

  function Put(s: Slots, c: byte): Slots
    requires IsDigit(c)
  {
    if s.inEnd then s.(end := Digit(s.end, c)) else s.(begin := Digit(s.begin, c))
  }

  /** What a complete range is taken for. */
  datatype Verdict = Emit(range: Range) | Refuse | Ignore

  function Validate(s: Slots, length: nat): Verdict {
    if length == 0 then Emit(Range(s.begin, s.end))
    else if s.begin == -10 then
      if s.end == -1 then Ignore
      else if s.end == -10 then Emit(Range(0, 0))
      else Emit(Range(0, if s.end < 0 || length <= s.end then length - 1 else s.end))
    else if s.begin == -1 then
      if s.end == -1 || s.end == -10 then Refuse else Emit(Range(length - s.end, length - 1))
    else if s.begin < 0 || length <= s.begin || s.end == -10 then Refuse
    else if s.end == -1 then Emit(Range(s.begin, length - 1))
    else if s.end < 0 || length <= s.end then Emit(Range(s.begin, length - 1))
    else if s.end < s.begin then Refuse
    else Emit(Range(s.begin, s.end))
  }

  /** The rest of the header from `i` on; the end of the text acts like a comma and then stops. */
  function ScanFrom(t: bytes, i: nat, s: Slots, done: seq<Range>, length: nat): Ranges
    requires i <= |t|
    decreases |t| - i
  {
    var last := i == |t| || t[i] == NUL;
    if last || t[i] == 44 then
      match Validate(s, length)
      case Refuse => Err
      case Ignore => No
      case Emit(r) => if last then Ok(done + [r]) else ScanFrom(t, i + 1, Empty, done + [r], length)
    else if IsDigit(t[i]) then ScanFrom(t, i + 1, Put(s, t[i]), done, length)
    else if t[i] == 45 then ScanFrom(t, i + 1, s.(inEnd := true), done, length)
    else if t[i] == SP then ScanFrom(t, i + 1, s, done, length)
    else No
  }

  const BYTES_EQ: bytes := [98, 121, 116, 101, 115, 61]

  function Scan(header: Option<bytes>, length: nat): Ranges {
    if header.None? || !(BYTES_EQ <= header.value) then No
    else ScanFrom(header.value, |BYTES_EQ|, Empty, [], length)
  }

  method GetRequestRanges(header: Option<bytes>, length: nat) returns (r: Ranges)
    ensures r == Scan(header, length)
  {
    if header.None? {
      return No;
    }
    var t := header.value;
    if !(BYTES_EQ <= t) {
      return No;
    }
    var i, begin, end, inEnd, ranges := |BYTES_EQ|, -1, -1, false, [];
    while true
      invariant i <= |t|
      invariant ScanFrom(t, i, Slots(begin, end, inEnd), ranges, length) == Scan(header, length)
      decreases |t| - i
    {
      var c := if i < |t| then t[i] else NUL;
      if c == 48 {
        if inEnd {
          end := if end != -10 then end * 10 else end;
        } else {
          begin := if begin != -10 then begin * 10 else begin;
        }
      } else if 49 <= c <= 57 {
        if inEnd {
          end := if end > 0 then end * 10 + (c as int - 48) else c as int - 48;
        } else {
          begin := if begin > 0 then begin * 10 + (c as int - 48) else c as int - 48;
        }
      } else if c == 45 {
        inEnd := true;
      } else if c == SP {
      } else if c == NUL || c == 44 {
        match Validate(Slots(begin, end, inEnd), length) {
          case Refuse => return Err;
          case Ignore => return No;
          case Emit(x) => ranges := ranges + [x];
        }
        if c == NUL {
          return Ok(ranges);
        }
        begin, end, inEnd := -1, -1, false;
      } else {
        return No;
      }
      i := i + 1;
    }
  }

  // ---- what the header says

  /** A byte range spec: first and last position, first position only, or a suffix length. */
  datatype Spec = Closed(first: nat, last: nat) | From(first: nat) | Suffix(n: nat)

  function SpecText(s: Spec): bytes {
    match s
    case Closed(b, e) => Numeral(b) + ([45] + Numeral(e))
    case From(b) => Numeral(b) + [45]
    case Suffix(n) => [45] + Numeral(n)
  }

  function SpecsText(ss: seq<Spec>): bytes {
    if ss == [] then [] else SpecText(ss[0]) + if |ss| == 1 then [] else [44] + SpecsText(ss[1..])
  }

  /** A spec as it may be spelled: any number of zeros in front of its positions. */
  datatype Spelled = Spelled(spec: Spec, zeros: nat, moreZeros: nat)

  function Position(zeros: nat, n: nat): bytes { Zeros(zeros) + Numeral(n) }

  function SpelledText(w: Spelled): bytes {
    match w.spec
    case Closed(b, e) => Position(w.zeros, b) + ([45] + Position(w.moreZeros, e))
    case From(b) => Position(w.zeros, b) + [45]
    case Suffix(n) => [45] + Position(w.zeros, n)
  }

  function SpelledsText(ws: seq<Spelled>): bytes {
    if ws == [] then [] else SpelledText(ws[0]) + if |ws| == 1 then [] else [44] + SpelledsText(ws[1..])
  }

  /** Section 14.1.2 of RFC 9110: the positions a spec selects, or none. */
  function Selects(s: Spec, length: nat): Option<Range>
    requires length > 0
  {
    match s
    case Closed(b, e) => if b > e || b >= length then None else Some(Range(b, if e < length then e else length - 1))
    case From(b) => if b >= length then None else Some(Range(b, length - 1))
    case Suffix(n) => if n == 0 then None else Some(Range(if n < length then length - n else 0, length - 1))
  }

  /** The specs on which the scanner departs from that: "0-", and a suffix longer than the entity. */
  predicate Departs(s: Spec, length: nat) { (s.From? && s.first == 0) || (s.Suffix? && s.n > length) }

  /** What the scanner makes of a spec. */
  function Judge(s: Spec, length: nat): Verdict
    requires length > 0
  {
    if s.From? && s.first == 0 then Ignore
    else if s.Suffix? && s.n > length then Emit(Range(length - s.n, length - 1))
    else match Selects(s, length) case None => Refuse case Some(r) => Emit(r)
  }

  /** The first spec that is refused or ignored decides; otherwise all are kept. */
  function JudgeAll(ss: seq<Spec>, length: nat, done: seq<Range>): Ranges
    requires length > 0
  {
    if ss == [] then Ok(done)
    else
      match Judge(ss[0], length)
      case Refuse => Err
      case Ignore => No
      case Emit(r) => JudgeAll(ss[1..], length, done + [r])
  }

  // ---- reading numerals

  function Code(n: nat): int { if n == 0 then -10 else n }

  function Feed(v: int, ds: bytes): int
    requires AllDigits(ds)
  {
    if ds == [] then v else Digit(Feed(v, ds[..|ds| - 1]), ds[|ds| - 1])
  }

  lemma {:induction false} FeedNumeral(v: int, n: nat)
    requires v == -1 || v == -10
    ensures Feed(v, Numeral(n)) == Code(n)
  {
    var d := Numeral(n);
    if n < 10 {
      assert d[..0] == [];
    } else {
      FeedNumeral(v, n / 10);
      assert d[..|d| - 1] == Numeral(n / 10);
    }
  }

  lemma {:induction false} FeedConcat(v: int, xs: bytes, ys: bytes)
    requires AllDigits(xs) && AllDigits(ys)
    ensures AllDigits(xs + ys) && Feed(v, xs + ys) == Feed(Feed(v, xs), ys)
    decreases |ys|
  {
    var all := xs + ys;
    assert forall i :: 0 <= i < |all| ==> all[i] == if i < |xs| then xs[i] else ys[i - |xs|];
    if ys == [] {
      assert all == xs;
    } else {
      assert all[..|all| - 1] == xs + ys[..|ys| - 1];
      FeedConcat(v, xs, ys[..|ys| - 1]);
    }
  }

  function Zeros(n: nat): (z: bytes)
    ensures |z| == n && forall i :: 0 <= i < n ==> z[i] == 48
  {
    seq(n, _ => 48)
  }

  lemma {:induction false} FeedZeros(n: nat)
    ensures Feed(-1, Zeros(n)) == if n == 0 then -1 else -10
  {
    var z := Zeros(n);
    if n > 0 {
      assert z[..n - 1] == Zeros(n - 1);
      FeedZeros(n - 1);
    }
  }

  /** A position with any number of zeros in front is read as the position. */
  lemma FeedPosition(zeros: nat, n: nat)
    ensures AllDigits(Position(zeros, n)) && Feed(-1, Position(zeros, n)) == Code(n)
  {
    hide Numeral;
    FeedZeros(zeros);
    FeedConcat(-1, Zeros(zeros), Numeral(n));
    FeedNumeral(Feed(-1, Zeros(zeros)), n);
  }

  function FeedSlots(s: Slots, ds: bytes): Slots
    requires AllDigits(ds)
  {
    if s.inEnd then s.(end := Feed(s.end, ds)) else s.(begin := Feed(s.begin, ds))
  }

  lemma {:induction false} DigitsScan(t: bytes, i: nat, s: Slots, done: seq<Range>, length: nat, ds: bytes, y: bytes)
    requires i <= |t| && t[i..] == ds + y && AllDigits(ds)
    ensures i + |ds| <= |t| && t[i + |ds|..] == y
    ensures ScanFrom(t, i, s, done, length) == ScanFrom(t, i + |ds|, FeedSlots(s, ds), done, length)
    decreases |ds|
  {
    hide Validate;
    Peel(t, i, ds, y);
    if ds != [] {
      var k := |ds| - 1;
      var front, c := ds[..k], ds[k];
      assert ds + y == front + ([c] + y);
      DigitsScan(t, i, s, done, length, front, [c] + y);
      assert t[i + k] == t[i + k..][0] == c;
    }
  }

  lemma PositionScan(t: bytes, i: nat, s: Slots, done: seq<Range>, length: nat, zeros: nat, n: nat, y: bytes)
    requires i <= |t| && t[i..] == Position(zeros, n) + y && (if s.inEnd then s.end == -1 else s.begin == -1)
    ensures i + |Position(zeros, n)| <= |t| && t[i + |Position(zeros, n)|..] == y
    ensures ScanFrom(t, i, s, done, length)
      == ScanFrom(t, i + |Position(zeros, n)|, if s.inEnd then s.(end := Code(n)) else s.(begin := Code(n)), done, length)
  {
    hide ScanFrom, Position;
    FeedPosition(zeros, n);
    DigitsScan(t, i, s, done, length, Position(zeros, n), y);
  }

  /** The slots that a spec leaves. */
  function SlotsOf(s: Spec): Slots {
    match s
    case Closed(b, e) => Slots(Code(b), Code(e), true)
    case From(b) => Slots(Code(b), -1, true)
    case Suffix(n) => Slots(-1, Code(n), true)
  }

  lemma DashScan(t: bytes, i: nat, s: Slots, done: seq<Range>, length: nat, y: bytes)
    requires i <= |t| && t[i..] == [45] + y
    ensures i < |t| && t[i + 1..] == y
    ensures ScanFrom(t, i, s, done, length) == ScanFrom(t, i + 1, s.(inEnd := true), done, length)
  {
    Peel(t, i, [45], y);
    assert t[i] == t[i..][0];
  }

  lemma SpecScan(t: bytes, i: nat, done: seq<Range>, length: nat, w: Spelled, y: bytes)
    requires i <= |t| && t[i..] == SpelledText(w) + y
    ensures i + |SpelledText(w)| <= |t| && t[i + |SpelledText(w)|..] == y
    ensures ScanFrom(t, i, Empty, done, length) == ScanFrom(t, i + |SpelledText(w)|, SlotsOf(w.spec), done, length)
  {
    hide ScanFrom, Position;
    Peel(t, i, SpelledText(w), y);
    match w.spec {
      case Closed(b, e) =>
        var x, z := Position(w.zeros, b), Position(w.moreZeros, e);
        assert SpelledText(w) + y == x + ([45] + (z + y));
        PositionScan(t, i, Empty, done, length, w.zeros, b, [45] + (z + y));
        var j := i + |x|;
        DashScan(t, j, Slots(Code(b), -1, false), done, length, z + y);
        PositionScan(t, j + 1, Slots(Code(b), -1, true), done, length, w.moreZeros, e, y);
      case From(b) =>
        var x := Position(w.zeros, b);
        assert SpelledText(w) + y == x + ([45] + y);
        PositionScan(t, i, Empty, done, length, w.zeros, b, [45] + y);
        DashScan(t, i + |x|, Slots(Code(b), -1, false), done, length, y);
      case Suffix(n) =>
        assert SpelledText(w) + y == [45] + (Position(w.zeros, n) + y);
        DashScan(t, i, Empty, done, length, Position(w.zeros, n) + y);
        PositionScan(t, i + 1, Slots(-1, -1, true), done, length, w.zeros, n, y);
    }
  }

  /** What the scanner makes of a spec; of an empty entity it keeps the numbers as it has read them. */
  function Taken(s: Spec, length: nat): Verdict {
    if length > 0 then Judge(s, length)
    else
      match s
      case Closed(b, e) => Emit(Range(Code(b), Code(e)))
      case From(b) => Emit(Range(Code(b), -1))
      case Suffix(n) => Emit(Range(-1, Code(n)))
  }

  lemma SlotsAreTaken(s: Spec, length: nat)
    ensures Validate(SlotsOf(s), length) == Taken(s, length)
  {}

  /** The first spec that is refused or ignored decides; otherwise all are kept. */
  function TakeAll(ss: seq<Spec>, length: nat, done: seq<Range>): Ranges {
    if ss == [] then Ok(done)
    else
      match Taken(ss[0], length)
      case Refuse => Err
      case Ignore => No
      case Emit(r) => TakeAll(ss[1..], length, done + [r])
  }

  function SpecsOf(ws: seq<Spelled>): seq<Spec> { if ws == [] then [] else [ws[0].spec] + SpecsOf(ws[1..]) }

  lemma {:induction false} SpecsScan(t: bytes, i: nat, done: seq<Range>, length: nat, ws: seq<Spelled>)
    requires i <= |t| && t[i..] == SpelledsText(ws) && ws != []
    ensures ScanFrom(t, i, Empty, done, length) == TakeAll(SpecsOf(ws), length, done)
    decreases |ws|
  {
    hide Validate, SpelledText, Taken, ScanFrom, SpelledsText, TakeAll, SpecsOf;
    var w, y := ws[0], Behind(ws);
    SpelledsSplit(ws);
    SlotsAreTaken(w.spec, length);
    SpecScan(t, i, done, length, w, y);
    var j := i + |SpelledText(w)|;
    var v := Taken(w.spec, length);
    SpecEnds(t, j, SlotsOf(w.spec), done, length, y);
    TakeFirst(ws, length, done);
    if |ws| > 1 && v.Emit? {
      Peel(t, j, [44], SpelledsText(ws[1..]));
      SpecsScan(t, j + 1, done + [v.range], length, ws[1..]);
    }
  }

  /** What is spelled behind the first spec. */
  function Behind(ws: seq<Spelled>): bytes
    requires ws != []
  {
    if |ws| == 1 then [] else [44] + SpelledsText(ws[1..])
  }

  lemma SpelledsSplit(ws: seq<Spelled>)
    requires ws != []
    ensures SpelledsText(ws) == SpelledText(ws[0]) + Behind(ws)
  {
    hide SpelledText;
  }

  lemma TakeFirst(ws: seq<Spelled>, length: nat, done: seq<Range>)
    requires ws != []
    ensures TakeAll(SpecsOf(ws), length, done) ==
      match Taken(ws[0].spec, length)
      case Refuse => Err
      case Ignore => No
      case Emit(r) => if |ws| == 1 then Ok(done + [r]) else TakeAll(SpecsOf(ws[1..]), length, done + [r])
  {
    hide Taken;
    var ss := SpecsOf(ws);
    assert ss[0] == ws[0].spec && ss[1..] == SpecsOf(ws[1..]);
  }

  /** A comma or the end behind a spec. */
  lemma SpecEnds(t: bytes, j: nat, s: Slots, done: seq<Range>, length: nat, y: bytes)
    requires j <= |t| && t[j..] == y && (y != [] ==> y[0] == 44)
    ensures var v := Validate(s, length);
      && (y != [] ==> j < |t|)
      && ScanFrom(t, j, s, done, length) ==
         match v case Refuse => Err case Ignore => No
         case Emit(r) => if y == [] then Ok(done + [r]) else ScanFrom(t, j + 1, Empty, done + [r], length)
  {
    hide Validate;
    if y != [] { assert t[j] == t[j..][0]; }
  }

  // ---- spaces, and bytes that do not belong

  /** The text without its spaces. */
  function Squeezed(x: bytes): bytes {
    if x == [] then [] else (if x[0] == SP then [] else [x[0]]) + Squeezed(x[1..])
  }

  /** Spaces make no difference, wherever they are. */
  lemma {:induction false} SpacesAreSkipped(t: bytes, i: nat, u: bytes, j: nat, s: Slots, done: seq<Range>, length: nat)
    requires i <= |t| && j <= |u| && u[j..] == Squeezed(t[i..])
    ensures ScanFrom(t, i, s, done, length) == ScanFrom(u, j, s, done, length)
    decreases |t| - i
  {
    hide Validate, Put;
    if i < |t| {
      assert t[i..][0] == t[i] && t[i..][1..] == t[i + 1..];
      if t[i] == SP {
        assert u[j..] == [] + Squeezed(t[i + 1..]);
        SpacesAreSkipped(t, i + 1, u, j, s, done, length);
      } else {
        Peel(u, j, [t[i]], Squeezed(t[i + 1..]));
        assert u[j] == u[j..][0];
        if t[i] == 44 {
          var v := Validate(s, length);
          if v.Emit? { SpacesAreSkipped(t, i + 1, u, j + 1, Empty, done + [v.range], length); }
        } else if IsDigit(t[i]) {
          SpacesAreSkipped(t, i + 1, u, j + 1, Put(s, t[i]), done, length);
        } else if t[i] == 45 {
          SpacesAreSkipped(t, i + 1, u, j + 1, s.(inEnd := true), done, length);
        }
      }
    }
  }

  /**
   * The scanner takes a list spec by spec however it is spelled, with zeros in front of positions and
   * spaces anywhere behind the unit, for every length of the entity.
   */
  lemma ScannerTakes(x: bytes, ws: seq<Spelled>, length: nat)
    requires ws != [] && Squeezed(x) == SpelledsText(ws)
    ensures Scan(Some(BYTES_EQ + x), length) == TakeAll(SpecsOf(ws), length, [])
  {
    hide ScanFrom, SpelledsText, TakeAll;
    var t, u, n := BYTES_EQ + x, BYTES_EQ + Squeezed(x), |BYTES_EQ|;
    assert t[n..] == x && u[n..] == Squeezed(x);
    SpacesAreSkipped(t, n, u, n, Empty, [], length);
    SpecsScan(u, n, [], length, ws);
  }

  /** A byte of no use to a list: neither a digit, a dash, a comma, a space nor the end. */
  predicate Foreign(c: byte) { !IsDigit(c) && c != 45 && c != 44 && c != SP && c != NUL }

  lemma {:induction false} ForeignFrom(t: bytes, i: nat, k: nat, s: Slots, done: seq<Range>, length: nat)
    requires i <= k < |t| && Foreign(t[k]) && forall j :: i <= j < k ==> t[j] != NUL
    ensures !ScanFrom(t, i, s, done, length).Ok?
    ensures (forall j :: i <= j < k ==> t[j] != 44) ==> ScanFrom(t, i, s, done, length) == No
    decreases k - i
  {
    hide Validate, Put;
    if i < k && t[i] == 44 {
      var v := Validate(s, length);
      if v.Emit? { ForeignFrom(t, i + 1, k, Empty, done + [v.range], length); }
    } else if i < k && IsDigit(t[i]) {
      ForeignFrom(t, i + 1, k, Put(s, t[i]), done, length);
    } else if i < k && t[i] == 45 {
      ForeignFrom(t, i + 1, k, s.(inEnd := true), done, length);
    } else if i < k && t[i] == SP {
      ForeignFrom(t, i + 1, k, s, done, length);
    }
  }

  /** A list with a foreign byte yields no ranges; the header is not used unless a spec before it is refused. */
  lemma ForeignBytesSpoil(x: bytes, c: byte, y: bytes, length: nat)
    requires Foreign(c) && NUL !in x
    ensures var r := Scan(Some(BYTES_EQ + (x + ([c] + y))), length);
      !r.Ok? && (44 !in x ==> r == No)
  {
    hide ScanFrom;
    var t, n := BYTES_EQ + (x + ([c] + y)), |BYTES_EQ|;
    assert forall j :: n <= j < n + |x| ==> t[j] == x[j - n];
    assert t[n + |x|] == c;
    ForeignFrom(t, n, n + |x|, Empty, [], length);
  }

  // ---- printed lists

  function AsPrinted(ss: seq<Spec>): seq<Spelled> { if ss == [] then [] else [Spelled(ss[0], 0, 0)] + AsPrinted(ss[1..]) }

  lemma PrintedPosition(n: nat)
    ensures Position(0, n) == Numeral(n) && SP !in Numeral(n)
  {
    hide Numeral;
    assert Zeros(0) == [];
    assert [] + Numeral(n) == Numeral(n);
  }

  lemma PrintedSpec(s: Spec)
    ensures SpelledText(Spelled(s, 0, 0)) == SpecText(s) && SP !in SpecText(s)
  {
    hide Numeral, Position;
    match s {
      case Closed(b, e) =>
        PrintedPosition(b);
        PrintedPosition(e);
      case From(b) => PrintedPosition(b);
      case Suffix(n) => PrintedPosition(n);
    }
  }

  lemma {:induction false} NotSqueezed(x: bytes)
    requires SP !in x
    ensures Squeezed(x) == x
  {
    if x != [] { NotSqueezed(x[1..]); }
  }

  lemma {:induction false} PrintedSpecs(ss: seq<Spec>)
    ensures SpelledsText(AsPrinted(ss)) == SpecsText(ss) && SpecsOf(AsPrinted(ss)) == ss && SP !in SpecsText(ss)
  {
    hide SpecText, SpelledText;
    if ss != [] {
      PrintedSpec(ss[0]);
      PrintedSpecs(ss[1..]);
      var ws := AsPrinted(ss);
      assert ws[0] == Spelled(ss[0], 0, 0) && ws[1..] == AsPrinted(ss[1..]);
      assert |ss| == 1 <==> |ws| == 1;
    }
  }

  lemma {:induction false} TakenAsJudged(ss: seq<Spec>, length: nat, done: seq<Range>)
    requires length > 0
    ensures TakeAll(ss, length, done) == JudgeAll(ss, length, done)
    decreases |ss|
  {
    hide Judge;
    if ss != [] {
      var v := Judge(ss[0], length);
      if v.Emit? { TakenAsJudged(ss[1..], length, done + [v.range]); }
    }
  }

  /** The scanner computes the verdicts on every printed list. */
  lemma ScannerJudges(ss: seq<Spec>, length: nat)
    requires ss != [] && length > 0
    ensures Scan(Some(BYTES_EQ + SpecsText(ss)), length) == JudgeAll(ss, length, [])
  {
    hide Scan, SpecsText, SpelledsText, TakeAll, JudgeAll, Squeezed;
    PrintedSpecs(ss);
    NotSqueezed(SpecsText(ss));
    ScannerTakes(SpecsText(ss), AsPrinted(ss), length);
    TakenAsJudged(ss, length, []);
  }

  // ---- and they are the meaning, but for the departures

  ghost predicate AllSatisfiable(ss: seq<Spec>, length: nat)
    requires length > 0
  {
    forall i :: 0 <= i < |ss| ==> Selects(ss[i], length).Some?
  }

  function Selected(ss: seq<Spec>, length: nat): seq<Range>
    requires length > 0
  {
    if ss == [] then []
    else (match Selects(ss[0], length) case None => [] case Some(r) => [r]) + Selected(ss[1..], length)
  }

  lemma {:induction false} JudgedAsMeant(ss: seq<Spec>, length: nat, done: seq<Range>)
    requires length > 0 && forall i :: 0 <= i < |ss| ==> !Departs(ss[i], length)
    ensures JudgeAll(ss, length, done)
      == if AllSatisfiable(ss, length) then Ok(done + Selected(ss, length)) else Err
    decreases |ss|
  {
    if ss == [] {
      assert done + [] == done;
    } else {
      var v := Selects(ss[0], length);
      assert !Departs(ss[0], length);
      if v.Some? {
        JudgedAsMeant(ss[1..], length, done + [v.value]);
        assert AllSatisfiable(ss, length) <==> AllSatisfiable(ss[1..], length);
        assert (done + [v.value]) + Selected(ss[1..], length) == done + Selected(ss, length);
      }
    }
  }

  /** Section 14.1.1 of RFC 9110: a spec whose last position is before its first is invalid. */
  predicate Invalid(s: Spec) { s.Closed? && s.last < s.first }

  /**
   * The standard's meaning of a list: an invalid one is rejected, as section 14.2 allows; a valid one
   * is satisfiable if at least one of its specs is, and then stands for those.
   */
  function Meant(ss: seq<Spec>, length: nat): Ranges
    requires length > 0
  {
    if (exists i :: 0 <= i < |ss| && Invalid(ss[i])) || Selected(ss, length) == [] then Err
    else Ok(Selected(ss, length))
  }

  /** One spec is taken as the standard means it exactly when it is not one of the departures. */
  lemma SpecIsMeantIff(s: Spec, length: nat)
    requires length > 0
    ensures Scan(Some(BYTES_EQ + SpecsText([s])), length) == Meant([s], length) <==> !Departs(s, length)
  {
    hide Scan, SpecsText;
    ScannerJudges([s], length);
    assert [s][1..] == [] && [s][0] == s;
    assert Selected([s], length) == (match Selects(s, length) case None => [] case Some(r) => [r]);
    assert [] + [Range(0, 0)] == [Range(0, 0)];
    var v := Judge(s, length);
    if v.Emit? { assert [] + [v.range] == [v.range]; }
  }

  ghost predicate InBounds(r: Range, length: nat) { 0 <= r.begin <= r.end < length }

  predicate Satisfied(s: Spec, length: nat)
    requires length > 0
  {
    Selects(s, length).Some?
  }

  /**
   * The lists on which the scanner does what the standard says: every spec is satisfiable and none
   * departs; or none is satisfiable; or one is invalid and a spec that cannot be satisfied comes
   * before any "0-".
   */
  ghost predicate Agrees(ss: seq<Spec>, length: nat)
    requires length > 0
  {
    || (forall i :: 0 <= i < |ss| ==> Satisfied(ss[i], length) && !Departs(ss[i], length))
    || (forall i :: 0 <= i < |ss| ==> !Satisfied(ss[i], length))
    || ((exists i :: 0 <= i < |ss| && Invalid(ss[i])) && RefusedFirst(ss, length))
  }

  ghost predicate RefusedFirst(ss: seq<Spec>, length: nat)
    requires length > 0
  {
    exists i :: 0 <= i < |ss| && !Satisfied(ss[i], length) && forall j :: 0 <= j < i ==> ss[j] != From(0)
  }

  lemma {:induction false} SelectedIff(ss: seq<Spec>, length: nat)
    requires length > 0
    ensures Selected(ss, length) == [] <==> forall i :: 0 <= i < |ss| ==> !Satisfied(ss[i], length)
  {
    if ss != [] {
      var rest := ss[1..];
      SelectedIff(rest, length);
      assert forall i :: 0 <= i < |rest| ==> rest[i] == ss[i + 1];
    }
  }

  /** What decides when the scan of a list is refused, and what it yields when it is not. */
  lemma {:induction false} JudgedIff(ss: seq<Spec>, length: nat, done: seq<Range>)
    requires length > 0
    ensures var r := JudgeAll(ss, length, done);
      && (r == Err <==> RefusedFirst(ss, length))
      && (r.Ok? <==> forall i :: 0 <= i < |ss| ==> Satisfied(ss[i], length) && ss[i] != From(0))
      && (r.Ok? ==> |r.ranges| == |done| + |ss| && r.ranges[..|done|] == done)
      && (r.Ok? ==> forall i :: 0 <= i < |ss| ==> Judge(ss[i], length) == Emit(r.ranges[|done| + i]))
    decreases |ss|
  {
    if ss == [] {
      assert done[..|done|] == done;
    } else {
      var s, rest, v := ss[0], ss[1..], Judge(ss[0], length);
      assert forall i :: 0 <= i < |rest| ==> rest[i] == ss[i + 1];
      JudgeIs(s, length);
      if v.Emit? {
        JudgedIff(rest, length, done + [v.range]);
        RefusedLater(ss, length);
        var r := JudgeAll(rest, length, done + [v.range]);
        if r.Ok? {
          assert r.ranges[..|done|] == r.ranges[..|done| + 1][..|done|] == done;
          assert r.ranges[|done|] == r.ranges[..|done| + 1][|done|] == v.range;
        }
      } else if v.Refuse? {
        assert RefusedFirst(ss, length);
      }
    }
  }

  lemma JudgeIs(s: Spec, length: nat)
    requires length > 0
    ensures Judge(s, length).Refuse? <==> !Satisfied(s, length)
    ensures Judge(s, length).Ignore? <==> s == From(0)
    ensures Satisfied(s, length) && !Departs(s, length) ==> Judge(s, length) == Emit(Selects(s, length).value)
    ensures Satisfied(s, length) && s != From(0) && Judge(s, length) == Emit(Selects(s, length).value) ==> !Departs(s, length)
  {}

  lemma RefusedLater(ss: seq<Spec>, length: nat)
    requires length > 0 && ss != [] && Satisfied(ss[0], length) && ss[0] != From(0)
    ensures RefusedFirst(ss, length) <==> RefusedFirst(ss[1..], length)
  {
    var rest := ss[1..];
    assert forall i :: 0 <= i < |rest| ==> rest[i] == ss[i + 1];
    if RefusedFirst(ss, length) {
      var i :| 0 <= i < |ss| && !Satisfied(ss[i], length) && forall j :: 0 <= j < i ==> ss[j] != From(0);
      assert !Satisfied(rest[i - 1], length);
    }
    if RefusedFirst(rest, length) {
      var i :| 0 <= i < |rest| && !Satisfied(rest[i], length) && forall j :: 0 <= j < i ==> rest[j] != From(0);
      assert !Satisfied(ss[i + 1], length);
    }
  }

  lemma {:induction false} AllSelected(ss: seq<Spec>, length: nat)
    requires length > 0 && forall i :: 0 <= i < |ss| ==> Satisfied(ss[i], length)
    ensures |Selected(ss, length)| == |ss|
    ensures forall i :: 0 <= i < |ss| ==> Selects(ss[i], length) == Some(Selected(ss, length)[i])
  {
    if ss != [] {
      var rest := ss[1..];
      assert Satisfied(ss[0], length);
      assert forall i :: 0 <= i < |rest| ==> rest[i] == ss[i + 1];
      AllSelected(rest, length);
    }
  }

  lemma InvalidIsNotSatisfied(ss: seq<Spec>, length: nat)
    requires length > 0 && exists i :: 0 <= i < |ss| && Invalid(ss[i])
    ensures exists i :: 0 <= i < |ss| && !Satisfied(ss[i], length)
  {
    var i :| 0 <= i < |ss| && Invalid(ss[i]);
    assert !Satisfied(ss[i], length);
  }

  lemma KeptListIff(ss: seq<Spec>, length: nat)
    requires ss != [] && length > 0 && JudgeAll(ss, length, []).Ok?
    ensures JudgeAll(ss, length, []) == Meant(ss, length) <==> Agrees(ss, length)
  {
    hide Judge, JudgeAll, Selects, Selected;
    JudgedIff(ss, length, []);
    AllSelected(ss, length);
    SelectedIff(ss, length);
    var rs := JudgeAll(ss, length, []).ranges;
    assert Satisfied(ss[0], length);
    if exists i :: 0 <= i < |ss| && Invalid(ss[i]) { InvalidIsNotSatisfied(ss, length); }
    forall i | 0 <= i < |ss| ensures rs[i] == Selects(ss[i], length).value <==> !Departs(ss[i], length) {
      JudgeIs(ss[i], length);
    }
    if forall i :: 0 <= i < |ss| ==> !Departs(ss[i], length) {
      assert rs == Selected(ss, length);
    }
  }

  /** A list is taken as the standard means it if and only if it is one of those. */
  lemma ListIsMeantIff(ss: seq<Spec>, length: nat)
    requires ss != [] && length > 0
    ensures Scan(Some(BYTES_EQ + SpecsText(ss)), length) == Meant(ss, length) <==> Agrees(ss, length)
  {
    hide Scan, SpecsText, Judge, JudgeAll, Selects, Selected, Departs;
    ScannerJudges(ss, length);
    JudgedIff(ss, length, []);
    SelectedIff(ss, length);
    var r := JudgeAll(ss, length, []);
    if r.Ok? {
      KeptListIff(ss, length);
    } else {
      assert !(forall i :: 0 <= i < |ss| ==> Satisfied(ss[i], length) && !Departs(ss[i], length)) by {
        if forall i :: 0 <= i < |ss| ==> Satisfied(ss[i], length) && !Departs(ss[i], length) {
          forall i | 0 <= i < |ss| ensures ss[i] != From(0) { ZeroDeparts(ss[i], length); }
        }
      }
      if forall i :: 0 <= i < |ss| ==> !Satisfied(ss[i], length) {
        assert !Satisfied(ss[0], length);
        assert RefusedFirst(ss, length);
      }
    }
  }

  lemma ZeroDeparts(s: Spec, length: nat)
    requires !Departs(s, length)
    ensures s != From(0)
  {}

  /** One spec that is out of range makes the scanner refuse a list that the standard serves in part. */
  lemma MixedListIsRefused()
    ensures var ss := [Closed(0, 4), From(900)];
      Scan(Some(BYTES_EQ + SpecsText(ss)), 100) == Err && Meant(ss, 100) == Ok([Range(0, 4)])
  {
    hide Scan, SpecsText;
    var ss := [Closed(0, 4), From(900)];
    ScannerJudges(ss, 100);
    assert ss[1..] == [From(900)] && [From(900)][1..] == [];
    assert Selected([From(900)], 100) == [];
  }

  /** The scanner's result on a list without departures, and the bounds that every emitted range keeps. */
  lemma ScannerMeansRfc(ss: seq<Spec>, length: nat)
    requires ss != [] && length > 0 && forall i :: 0 <= i < |ss| ==> !Departs(ss[i], length)
    ensures var r := Scan(Some(BYTES_EQ + SpecsText(ss)), length);
      && (r == if AllSatisfiable(ss, length) then Ok(Selected(ss, length)) else Err)
      && (r.Ok? ==> r == Meant(ss, length) && forall i :: 0 <= i < |r.ranges| ==> InBounds(r.ranges[i], length))
  {
    hide Scan, SpecsText, Selected, Judge, Meant;
    ScannerJudges(ss, length);
    JudgedAsMeant(ss, length, []);
    assert [] + Selected(ss, length) == Selected(ss, length);
    SelectedInBounds(ss, length);
    if AllSatisfiable(ss, length) {
      assert Agrees(ss, length);
      ListIsMeantIff(ss, length);
    }
  }

  lemma {:induction false} SelectedInBounds(ss: seq<Spec>, length: nat)
    requires length > 0
    ensures forall i :: 0 <= i < |Selected(ss, length)| ==> InBounds(Selected(ss, length)[i], length)
  {
    if ss != [] { SelectedInBounds(ss[1..], length); }
  }
}
