/** The response operations that write to a stream: what reaches the wire, and when. */
module StreamResponse {
  import opened Bytes
  import opened ChunkCoding
  import opened Decimals
  import Dechunk

  datatype Version = Version(major: nat, minor: nat)

  /** Header lines under the text before their colon; one line, or a list after an addition. */
  datatype Entry = Entry(key: bytes, lines: seq<bytes>)

  /** What is written, in order. A head is written in one piece, data framed or not. */
  datatype Piece =
    | Head(version: Version, status: int, lines: seq<bytes>, chunked: bool)
    | Data(data: bytes, framed: bool)
    | End

  /** The request as far as it matters: its version and whether its method is CONNECT. */
  datatype Request = Request(version: Version, connect: bool)

  datatype Context = Context(
    request: Option<Request>, version: Version, status: int, header: seq<Entry>,
    started: bool, finished: bool, chunked: bool, filter: bool, wire: seq<Piece>)

  function Initial(request: Option<Request>): Context {
    var minor := if request.Some? && request.value.version == Version(1, 0) then 0 else 1;
    Context(request, Version(1, minor), 200, [], false, false, true, false, [])
  }

  // ---- the header table

  function FindEntry(es: seq<Entry>, k: bytes): (i: nat)
    ensures i <= |es|
    ensures forall j :: 0 <= j < i ==> es[j].key != k
    ensures i < |es| ==> es[i].key == k
  {
    if es == [] || es[0].key == k then 0 else 1 + FindEntry(es[1..], k)
  }

  function Colon(line: bytes, i: nat): (c: nat)
    requires i <= |line|
    ensures i <= c <= |line|
    ensures forall k :: i <= k < c ==> line[k] != 58
    ensures c < |line| ==> line[c] == 58
    decreases |line| - i
  {
    if i == |line| || line[i] == 58 then i else Colon(line, i + 1)
  }

  function PutLine(es: seq<Entry>, line: bytes, replace: bool): seq<Entry> {
    var k := line[..Colon(line, 0)];
    var i := FindEntry(es, k);
    if i == |es| then es + [Entry(k, [line])]
    else es[i := Entry(k, if replace then [line] else es[i].lines + [line])]
  }

  function Lines(es: seq<Entry>): seq<bytes> { if es == [] then [] else es[0].lines + Lines(es[1..]) }

  const CONTENT_LENGTH := Lit("content-length:")

  predicate IsContentLength(line: bytes) {
    |line| >= |CONTENT_LENGTH| && forall i :: 0 <= i < |CONTENT_LENGTH| ==> ToLower(line[i]) == CONTENT_LENGTH[i]
  }

  predicate HasContentLength(lines: seq<bytes>) { exists i :: 0 <= i < |lines| && IsContentLength(lines[i]) }

  /** Section 3.3.1 of RFC 7230: where chunked coding must not be used. */
  predicate ForbidsChunked(v: Version, status: int, request: Option<Request>) {
    || v == Version(1, 0)
    || status == 204 || 100 <= status < 200
    || (request.Some? && request.value.connect && 200 <= status < 300)
  }

  // ---- the operations

  datatype Done = Done(ok: bool, ctx: Context)

  /** The head is written once; it decides whether the data that follows is framed. */
  function Started(c: Context): Done {
    if c.started || c.finished then Done(false, c)
    else
      var lines := Lines(c.header);
      var chunked := c.chunked && !ForbidsChunked(c.version, c.status, c.request) && !HasContentLength(lines);
      Done(true, c.(chunked := chunked, started := true, filter := chunked,
                    wire := c.wire + [Head(c.version, c.status, lines, chunked)]))
  }

  datatype Op =
    | SetStatus(code: int) | SetVersion(version: Version)
    | SetHeader(line: bytes) | AddHeader(line: bytes) | DelHeader(key: bytes)
    | Write(data: bytes) | Flush | Finish

  function DropEntry(es: seq<Entry>, k: bytes): seq<Entry> {
    var i := FindEntry(es, k);
    if i < |es| then es[..i] + es[i + 1..] else es
  }

  function HeaderPut(c: Context, line: bytes, replace: bool): Done {
    if c.started || c.finished || Colon(line, 0) == |line| then Done(false, c)
    else Done(true, c.(header := PutLine(c.header, line, replace)))
  }

  /** Starts the response if that has not been done. */
  function Ensured(c: Context): Done { if c.started then Done(true, c) else Started(c) }

  function Apply(c: Context, op: Op): Done {
    match op
    case SetStatus(code) => if c.started || c.finished then Done(false, c) else Done(true, c.(status := code))
    case SetVersion(v) => if c.started || c.finished then Done(false, c) else Done(true, c.(version := v))
    case SetHeader(line) => HeaderPut(c, line, true)
    case AddHeader(line) => HeaderPut(c, line, false)
    case DelHeader(k) =>
      if c.started || c.finished then Done(false, c) else Done(true, c.(header := DropEntry(c.header, k)))
    case Write(data) =>
      if c.finished || !Ensured(c).ok then Done(false, c)
      else
        var d := Ensured(c).ctx;
        Done(true, if data == [] then d else d.(wire := d.wire + [Data(data, d.filter)]))
    case Flush => if c.finished || !Ensured(c).ok then Done(false, c) else Ensured(c)
    case Finish =>
      if c.finished || !Ensured(c).ok then Done(false, c)
      else
        var d := Ensured(c).ctx;
        Done(true, d.(finished := true, filter := false, wire := if d.chunked && d.filter then d.wire + [End] else d.wire))
  }

  class Response {
    const request: Option<Request>
    var version: Version
    var status: int
    var header: seq<Entry>
    var started: bool
    var finished: bool
    var chunked: bool
    var filter: bool
    var wire: seq<Piece>

    ghost function Now(): Context
      reads this
    {
      Context(request, version, status, header, started, finished, chunked, filter, wire)
    }

    constructor (request: Option<Request>)
      ensures Now() == Initial(request)
    {
      this.request := request;
      version := Version(1, 1);
      status, header, started, finished, chunked, filter, wire := 200, [], false, false, true, false, [];
      if request.Some? && request.value.version.major == 1 && request.value.version.minor == 0 {
        version := Version(1, 0);
      }
    }

    /** The lines of the table go out one by one; an explicit length switches chunked coding off. */
    method WriteHeader() returns (lines: seq<bytes>)
      modifies this`chunked
      ensures lines == Lines(header)
      ensures chunked == (old(chunked) && !HasContentLength(Lines(header)))
    {
      lines := Lines(header);
      var i := 0;
      while i < |lines|
        invariant 0 <= i <= |lines|
        invariant chunked == (old(chunked) && forall j :: 0 <= j < i ==> !IsContentLength(lines[j]))
      {
        if chunked && IsContentLength(lines[i]) {
          chunked := false;
        }
        i := i + 1;
      }
    }

    method Start() returns (ok: bool)
      modifies this
      ensures Done(ok, Now()) == Started(old(Now()))
    {
      if started || finished {
        return false;
      }
      if version == Version(1, 0) {
        chunked := false;
      } else if status == 204 || (100 <= status < 200) {
        chunked := false;
      } else if request.Some? && 200 <= status < 300 && request.value.connect {
        chunked := false;
      }
      var lines := WriteHeader();
      wire := wire + [Head(version, status, lines, chunked)];
      started := true;
      if chunked {
        filter := true;
      } else {
        filter := false;
      }
      ok := true;
    }

    method SetStatusCode(code: int) returns (ok: bool)
      modifies this
      ensures Done(ok, Now()) == Apply(old(Now()), SetStatus(code))
    {
      if started || finished {
        return false;
      }
      status := code;
      ok := true;
    }

    method SetProtocolVersion(v: Version) returns (ok: bool)
      modifies this
      ensures Done(ok, Now()) == Apply(old(Now()), SetVersion(v))
    {
      if started || finished {
        return false;
      }
      version := v;
      ok := true;
    }

    method PutHeader(line: bytes, replace: bool) returns (ok: bool)
      modifies this
      ensures Done(ok, Now()) == Apply(old(Now()), if replace then SetHeader(line) else AddHeader(line))
    {
      if started || finished {
        return false;
      }
      if Colon(line, 0) == |line| {
        return false;
      }
      header := PutLine(header, line, replace);
      ok := true;
    }

    method DeleteHeader(key: bytes) returns (ok: bool)
      modifies this
      ensures Done(ok, Now()) == Apply(old(Now()), DelHeader(key))
    {
      if started || finished {
        return false;
      }
      header := DropEntry(header, key);
      ok := true;
    }

    method WriteData(data: bytes) returns (ok: bool)
      modifies this
      ensures Done(ok, Now()) == Apply(old(Now()), Write(data))
    {
      if finished {
        return false;
      }
      if !started {
        ok := Start();
        if !ok {
          return;
        }
      }
      if data != [] {
        wire := wire + [Data(data, filter)];
      }
      ok := true;
    }

    method FlushOut() returns (ok: bool)
      modifies this
      ensures Done(ok, Now()) == Apply(old(Now()), Flush)
    {
      if finished {
        return false;
      }
      if !started {
        ok := Start();
        return;
      }
      ok := true;
    }

    method FinishUp() returns (ok: bool)
      modifies this
      ensures Done(ok, Now()) == Apply(old(Now()), Finish)
    {
      if finished {
        return false;
      }
      if !started {
        ok := Start();
        if !ok {
          return;
        }
      }
      if chunked && filter {
        wire := wire + [End];
      }
      filter := false;
      finished := true;
      ok := true;
    }
  }

  // ---- whole runs

  function Run(c: Context, ops: seq<Op>): Context
    decreases |ops|
  {
    if ops == [] then c else Run(Apply(c, ops[0]).ctx, ops[1..])
  }

  /** A wire that is a head, then data framed as the head says, then the end of a chunked body. */
  ghost predicate WireOk(c: Context) {
    if !c.started then c.wire == [] && !c.finished && !c.filter
    else
      && c.wire != [] && c.wire[0].Head?
      && c.chunked == c.wire[0].chunked
      && c.filter == (c.chunked && !c.finished)
      && (c.finished && c.chunked ==> |c.wire| > 1)
      && (c.wire[0].chunked ==> !ForbidsChunked(c.wire[0].version, c.wire[0].status, c.request)
                                && !HasContentLength(c.wire[0].lines))
      && forall i :: 1 <= i < |c.wire| ==>
           if i == |c.wire| - 1 && c.finished && c.chunked then c.wire[i] == End
           else c.wire[i].Data? && c.wire[i].data != [] && c.wire[i].framed == c.chunked
  }

  /** A started head is the one the context still describes. */
  ghost predicate HeadIsFixed(c: Context) {
    c.started ==>
      && c.wire != [] && c.wire[0].Head? && c.wire[0].lines == Lines(c.header)
      && c.wire[0].version == c.version && c.wire[0].status == c.status
  }

  lemma StartKeeps(c: Context)
    requires WireOk(c) && HeadIsFixed(c) && Started(c).ok
    ensures WireOk(Started(c).ctx) && HeadIsFixed(Started(c).ctx) && c.wire <= Started(c).ctx.wire
  {
    hide HasContentLength, ForbidsChunked, Lines;
  }

  /** Every operation keeps the order on the wire and only adds to it. */
  lemma StepKeeps(c: Context, op: Op)
    requires WireOk(c) && HeadIsFixed(c)
    ensures var d := Apply(c, op).ctx; WireOk(d) && HeadIsFixed(d) && c.wire <= d.wire && d.request == c.request
  {
    hide HasContentLength, ForbidsChunked, Lines, PutLine, DropEntry, Colon;
    if op.Write? || op.Flush? || op.Finish? {
      if !c.finished && !c.started { StartKeeps(c); }
    }
  }

  /**
   * In every run the head is written at most once and before any data, and what it says decides the
   * framing: chunked only where the version, the status, the request and the headers allow it.
   */
  lemma {:induction false} RunKeepsOrder(c: Context, ops: seq<Op>)
    requires WireOk(c) && HeadIsFixed(c)
    ensures var d := Run(c, ops); WireOk(d) && HeadIsFixed(d) && c.wire <= d.wire && d.request == c.request
    decreases |ops|
  {
    hide WireOk, HeadIsFixed, Apply;
    if ops != [] {
      StepKeeps(c, ops[0]);
      RunKeepsOrder(Apply(c, ops[0]).ctx, ops[1..]);
    }
  }

  lemma {:induction false} RunConcat(c: Context, xs: seq<Op>, ys: seq<Op>)
    ensures Run(c, xs + ys) == Run(Run(c, xs), ys)
    decreases |xs|
  {
    hide Apply;
    if xs == [] {
      assert xs + ys == ys;
    } else {
      assert (xs + ys)[1..] == xs[1..] + ys;
      RunConcat(Apply(c, xs[0]).ctx, xs[1..], ys);
    }
  }

  /**
   * From the first operation that starts the response on, nothing in the rest of the run changes the
   * head that went out or what the response says about itself, and the wire only grows behind it.
   */
  lemma HeadIsFrozen(request: Option<Request>, xs: seq<Op>, ys: seq<Op>)
    requires Run(Initial(request), xs).started
    ensures var c, d := Run(Initial(request), xs), Run(Initial(request), xs + ys);
      && d.started && c.wire != [] && c.wire <= d.wire && d.wire[0] == c.wire[0]
      && d.status == c.status && d.version == c.version && Lines(d.header) == Lines(c.header)
  {
    hide Run, Lines, HasContentLength, ForbidsChunked;
    InitialIsOk(request);
    var c := Run(Initial(request), xs);
    RunKeepsOrder(Initial(request), xs);
    RunConcat(Initial(request), xs, ys);
    RunKeepsOrder(c, ys);
  }

  lemma InitialIsOk(request: Option<Request>)
    ensures WireOk(Initial(request)) && HeadIsFixed(Initial(request))
  {}

  /** The statement for runs from the beginning: exactly one head, in front, on every wire that is not empty. */
  lemma OneHeadFirst(request: Option<Request>, ops: seq<Op>)
    ensures var c := Run(Initial(request), ops);
      && (c.wire != [] ==> c.wire[0].Head? && forall i :: 1 <= i < |c.wire| ==> !c.wire[i].Head?)
      && (c.wire == [] <==> !c.started)
      && (c.wire != [] && c.wire[0].chunked ==>
            !ForbidsChunked(c.wire[0].version, c.wire[0].status, request) && !HasContentLength(c.wire[0].lines))
  {
    hide Run, HasContentLength, ForbidsChunked, Lines;
    InitialIsOk(request);
    RunKeepsOrder(Initial(request), ops);
  }

  /** What a line that gives a length looks like: the name in any case, and a colon right behind it. */
  predicate GivesLength(line: bytes) {
    |line| >= 15 && line[14] == 58 && forall i :: 0 <= i < 14 ==> ToLower(line[i]) == Lit("content-length")[i]
  }

  lemma GivesLengthIff(line: bytes)
    ensures IsContentLength(line) <==> GivesLength(line)
  {
    var a, b := Lit("content-length:"), Lit("content-length");
    assert forall i :: 0 <= i < 14 ==> a[i] == b[i];
    assert a[14] == 58;
    assert forall c: byte :: ToLower(c) == 58 <==> c == 58;
  }

  /**
   * Section 3.3.1 of RFC 7230, for every run: the head says chunked if and only if its version is not
   * 1.0, its status is neither 1xx nor 204, nor 2xx in answer to a CONNECT, and no line gives a length.
   */
  lemma HeadIsChunkedIff(request: Option<Request>, ops: seq<Op>)
    requires Run(Initial(request), ops).started
    ensures var w := Run(Initial(request), ops).wire;
      && w != [] && w[0].Head?
      && (w[0].chunked <==>
            && !(w[0].version.major == 1 && w[0].version.minor == 0)
            && !(100 <= w[0].status <= 199) && w[0].status != 204
            && !(request.Some? && request.value.connect && 200 <= w[0].status <= 299)
            && forall i :: 0 <= i < |w[0].lines| ==> !GivesLength(w[0].lines[i]))
  {
    hide Run, Lines, IsContentLength, GivesLength;
    InitialIsOk(request);
    assert ChunksWhenAllowed(Initial(request)) by { InitiallyOpen(request); }
    RunKeepsOrder(Initial(request), ops);
    ChunksIfAllowed(Initial(request), ops);
    var w := Run(Initial(request), ops).wire;
    forall i | 0 <= i < |w[0].lines| ensures IsContentLength(w[0].lines[i]) <==> GivesLength(w[0].lines[i]) {
      GivesLengthIff(w[0].lines[i]);
    }
  }

  /** Chunks are not switched off without need. */
  ghost predicate ChunksWhenAllowed(c: Context) {
    if !c.started then c.chunked && c.wire == []
    else
      && c.wire != [] && c.wire[0].Head?
      && (c.wire[0].chunked || HasContentLength(c.wire[0].lines)
          || ForbidsChunked(c.wire[0].version, c.wire[0].status, c.request))
  }

  lemma InitiallyOpen(request: Option<Request>) ensures ChunksWhenAllowed(Initial(request)) {}

  lemma StepChunks(c: Context, op: Op)
    requires ChunksWhenAllowed(c)
    ensures ChunksWhenAllowed(Apply(c, op).ctx) && Apply(c, op).ctx.request == c.request
  {
    hide Lines, ForbidsChunked, HasContentLength, PutLine, DropEntry, Colon;
  }

  lemma {:induction false} ChunksIfAllowed(c: Context, ops: seq<Op>)
    requires ChunksWhenAllowed(c)
    ensures ChunksWhenAllowed(Run(c, ops)) && Run(c, ops).request == c.request
    decreases |ops|
  {
    hide Apply, ChunksWhenAllowed;
    if ops != [] {
      StepChunks(c, ops[0]);
      ChunksIfAllowed(Apply(c, ops[0]).ctx, ops[1..]);
    }
  }

  // ---- the bytes on the wire

  function StatusLine(v: Version, status: nat, reason: bytes): bytes {
    Lit("HTTP/") + Numeral(v.major) + [46] + Numeral(v.minor) + [SP] + Numeral(status) + [SP] + reason
  }

  const CHUNKED_LINE := Lit("Transfer-Encoding: chunked")

  function LinesText(lines: seq<bytes>): bytes { if lines == [] then [] else lines[0] + CRLF + LinesText(lines[1..]) }

  /** The lines of a head, less the blank one that ends it. */
  function HeadLines(head: Piece, reason: bytes): seq<bytes>
    requires head.Head? && head.status >= 0
  {
    [StatusLine(head.version, head.status, reason)] + head.lines + if head.chunked then [CHUNKED_LINE] else []
  }

  function HeadBytes(head: Piece, reason: bytes): bytes
    requires head.Head? && head.status >= 0
  {
    LinesText(HeadLines(head, reason)) + CRLF
  }

  lemma {:induction false} LinesTextConcat(xs: seq<bytes>, ys: seq<bytes>)
    ensures LinesText(xs + ys) == LinesText(xs) + LinesText(ys)
    decreases |xs|
  {
    if xs == [] {
      assert xs + ys == ys;
    } else {
      assert (xs + ys)[1..] == xs[1..] + ys;
      LinesTextConcat(xs[1..], ys);
      SeqAssoc(xs[0] + CRLF, LinesText(xs[1..]), LinesText(ys));
    }
  }

  lemma LinesTextSnoc(xs: seq<bytes>, y: bytes)
    ensures LinesText(xs + [y]) == LinesText(xs) + y + CRLF
  {
    LinesTextConcat(xs, [y]);
    assert [y][1..] == [] && LinesText([y]) == y + CRLF + [];
    assert LinesText(xs) + (y + CRLF) == LinesText(xs) + y + CRLF;
  }

  /** The head as it is put together before it is written in one piece. */
  method HeadToBuffer(head: Piece, reason: bytes) returns (buf: bytes)
    requires head.Head? && head.status >= 0
    ensures buf == HeadBytes(head, reason)
  {
    hide StatusLine, LinesText;
    var first := StatusLine(head.version, head.status, reason);
    LinesTextSnoc([], first);
    assert LinesText([]) == [] by { NoLinesText(); }
    assert [] + first == first && [] + [first] == [first];
    buf := first + CRLF;
    assert [first] + head.lines[..0] == [first];
    var i := 0;
    while i < |head.lines|
      invariant 0 <= i <= |head.lines|
      invariant buf == LinesText([first] + head.lines[..i])
    {
      LinesTextSnoc([first] + head.lines[..i], head.lines[i]);
      assert [first] + head.lines[..i + 1] == ([first] + head.lines[..i]) + [head.lines[i]];
      buf := buf + head.lines[i] + CRLF;
      i := i + 1;
    }
    assert head.lines[..i] == head.lines;
    if head.chunked {
      LinesTextSnoc([first] + head.lines, CHUNKED_LINE);
      buf := buf + CHUNKED_LINE + CRLF;
    }
    assert [first] + head.lines + [] == [first] + head.lines;
    buf := buf + CRLF;
  }

  lemma NoLinesText() ensures LinesText([]) == [] {}

  function PieceBytes(p: Piece): bytes
    requires !p.Head?
  {
    match p
    case Data(d, framed) => if framed then Chunk(d) else d
    case End => Terminator
  }

  function BodyBytes(ps: seq<Piece>): bytes
    requires forall i :: 0 <= i < |ps| ==> !ps[i].Head?
  {
    if ps == [] then [] else PieceBytes(ps[0]) + BodyBytes(ps[1..])
  }

  /** The data pieces behind the head. */
  function Blocks(ps: seq<Piece>): seq<bytes> {
    if ps == [] then [] else (if ps[0].Data? then [ps[0].data] else []) + Blocks(ps[1..])
  }

  lemma {:induction false} FramedBodyIsEncoded(ps: seq<Piece>)
    requires ps != [] && ps[|ps| - 1] == End
    requires forall i :: 0 <= i < |ps| - 1 ==> ps[i].Data? && ps[i].framed && ps[i].data != []
    ensures BodyBytes(ps) == Encode(Blocks(ps)) && NoneEmpty(Blocks(ps))
  {
    hide Chunk;
    if |ps| == 1 {
      assert ps[1..] == [] && ps == [End];
      assert Blocks(ps) == [] && BodyBytes(ps[1..]) == [];
    } else {
      FramedBodyIsEncoded(ps[1..]);
      var bs := Blocks(ps);
      assert bs == [ps[0].data] + Blocks(ps[1..]) && bs[1..] == Blocks(ps[1..]);
    }
  }

  lemma {:induction false} PlainBodyIsData(ps: seq<Piece>)
    requires forall i :: 0 <= i < |ps| ==> ps[i].Data? && !ps[i].framed
    ensures BodyBytes(ps) == Concat(Blocks(ps))
  {
    if ps != [] {
      PlainBodyIsData(ps[1..]);
      var bs := Blocks(ps);
      assert bs == [ps[0].data] + Blocks(ps[1..]) && bs[1..] == Blocks(ps[1..]);
    }
  }

  /**
   * Of a finished response, the bytes behind the head read back as the data written: by the chunk
   * decoder if the head says chunked, as they are if it does not.
   */
  lemma BodyReadsBack(c: Context, eager: bool)
    requires WireOk(c) && c.finished && Sized(Blocks(c.wire[1..]))
    ensures c.wire != [] && forall i :: 0 <= i < |c.wire| - 1 ==> !c.wire[1..][i].Head?
    ensures var ps := c.wire[1..];
      if c.wire[0].chunked
      then Dechunk.Updated(Dechunk.Initial, BodyBytes(ps), eager)
           == Dechunk.Step(true, Concat(Blocks(ps)), Dechunk.Context([], 0, true))
      else BodyBytes(ps) == Concat(Blocks(ps))
  {
    hide HasContentLength, ForbidsChunked, BodyBytes, Blocks, Encode, Sized;
    var ps := c.wire[1..];
    assert forall i :: 0 <= i < |ps| ==> ps[i] == c.wire[i + 1];
    if c.wire[0].chunked {
      FramedBodyIsEncoded(ps);
      RoundTripIff(Blocks(ps), eager);
    } else {
      PlainBodyIsData(ps);
    }
  }
}
