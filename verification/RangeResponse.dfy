/** Sending a body or a range of it: slices, regrouped into blocks, framed, on the wire. */
module RangeResponse {
  import opened Bytes
  import opened Decimals
  import opened HexNumbers
  import opened ChunkCoding
  import opened StreamResponse
  import R = RangeScan
  import Dechunk

  // ---- regrouping

  /** The full blocks at the front, and what is left. */
  function BlocksOf(s: bytes, size: nat): seq<bytes>
    requires size > 0
  {
    if |s| < size then [] else [s[..size]] + BlocksOf(s[size..], size)
  }

  function RestOf(s: bytes, size: nat): bytes
    requires size > 0
  {
    if |s| < size then s else RestOf(s[size..], size)
  }

  lemma {:induction false} BlocksAreFull(s: bytes, size: nat)
    requires size > 0
    ensures forall i :: 0 <= i < |BlocksOf(s, size)| ==> |BlocksOf(s, size)[i]| == size
    ensures |RestOf(s, size)| < size
  {
    if |s| >= size { BlocksAreFull(s[size..], size); }
  }

  lemma ConcatFirst(a: bytes, bs: seq<bytes>)
    ensures Concat([a] + bs) == a + Concat(bs)
  {
    assert ([a] + bs)[1..] == bs;
  }

  lemma {:induction false} BlocksAndRest(s: bytes, size: nat)
    requires size > 0
    ensures Concat(BlocksOf(s, size)) + RestOf(s, size) == s
  {
    hide Concat, BlocksOf, RestOf;
    if |s| >= size {
      var a, z := s[..size], s[size..];
      BlocksAndRest(z, size);
      ConcatFirst(a, BlocksOf(z, size));
      SeqAssoc(a, Concat(BlocksOf(z, size)), RestOf(z, size));
      assert s == a + z;
      BlocksSplit(s, size);
    } else {
      NoBlocksConcat();
      ShortIsRest(s, size);
      assert [] + s == s;
    }
  }

  lemma BlocksSplit(s: bytes, size: nat)
    requires 0 < size <= |s|
    ensures BlocksOf(s, size) == [s[..size]] + BlocksOf(s[size..], size) && RestOf(s, size) == RestOf(s[size..], size)
  {}

  lemma ShortIsRest(s: bytes, size: nat)
    requires |s| < size
    ensures BlocksOf(s, size) == [] && RestOf(s, size) == s
  {}

  lemma NoBlocksConcat() ensures Concat<byte>([]) == [] {}

  /** Data held back and blocks passed out. */
  datatype Sent = Sent(held: bytes, blocks: seq<bytes>)

  function DataSent(s: Sent, d: bytes, size: nat): Sent
    requires size > 0
  {
    Sent(RestOf(s.held + d, size), s.blocks + BlocksOf(s.held + d, size))
  }

  /** Any number of calls. */
  function AllSent(ds: seq<bytes>, size: nat): Sent
    requires size > 0
  {
    if ds == [] then Sent([], []) else DataSent(AllSent(ds[..|ds| - 1], size), ds[|ds| - 1], size)
  }

  /** The closing call passes out what is held, if anything. */
  function DoneSent(s: Sent): Sent { if s.held == [] then s else Sent([], s.blocks + [s.held]) }

  /** Between calls less than a block is held and every block passed out is full. */
  lemma {:induction false} RegroupingHolds(ds: seq<bytes>, size: nat)
    requires size > 0
    ensures var s := AllSent(ds, size);
      && |s.held| < size && (forall i :: 0 <= i < |s.blocks| ==> |s.blocks[i]| == size)
      && Concat(s.blocks) + s.held == Concat(ds)
  {
    hide BlocksOf, RestOf;
    if ds != [] {
      var front, d := ds[..|ds| - 1], ds[|ds| - 1];
      RegroupingHolds(front, size);
      var p := AllSent(front, size);
      var x := p.held + d;
      BlocksAndRest(x, size);
      BlocksAreFull(x, size);
      ConcatAppend(p.blocks, BlocksOf(x, size));
      assert ds == front + [d];
      ConcatSnoc(front, d);
      Regrouped(Concat(p.blocks), p.held, d, Concat(BlocksOf(x, size)), RestOf(x, size));
    }
  }

  /** In the end the blocks are exactly the data, and only the last one can be shorter than a full one. */
  lemma RegroupingKeepsData(ds: seq<bytes>, size: nat)
    requires size > 0
    ensures var t := DoneSent(AllSent(ds, size)).blocks;
      && Concat(t) == Concat(ds)
      && (forall i :: 0 <= i < |t| ==> 0 < |t[i]| <= size)
      && (forall i :: 0 <= i < |t| - 1 ==> |t[i]| == size)
  {
    hide AllSent, Concat;
    RegroupingHolds(ds, size);
    var s := AllSent(ds, size);
    ConcatSnoc(s.blocks, s.held);
    assert Concat(s.blocks) + [] == Concat(s.blocks);
  }

  lemma Regrouped(a: bytes, h: bytes, d: bytes, b: bytes, r: bytes)
    requires b + r == h + d
    ensures (a + b) + r == (a + h) + d
  {
    assert (a + b) + r == a + (b + r);
    assert (a + h) + d == a + (h + d);
  }

  // ---- slices of a body

  const READ_SIZE: nat := 0x1000

  function Slices(s: bytes): seq<bytes> {
    if s == [] then [] else if |s| <= READ_SIZE then [s] else [s[..READ_SIZE]] + Slices(s[READ_SIZE..])
  }

  lemma {:induction false} SlicesConcat(s: bytes)
    ensures Concat(Slices(s)) == s
  {
    if s == [] {
    } else if |s| <= READ_SIZE {
      assert [s][1..] == [];
      assert s + [] == s;
    } else {
      SlicesConcat(s[READ_SIZE..]);
      assert s == s[..READ_SIZE] + s[READ_SIZE..];
    }
  }

  /** The part of the body that a call names; a length of 0 stands for all the rest. */
  function Part(body: bytes, offset: nat, forlen: nat): bytes
    requires offset <= |body|
  {
    if forlen == 0 || offset + forlen > |body| then body[offset..] else body[offset..offset + forlen]
  }

  /** Without a range all of the body is sent: the blocks of its slices are the body. */
  lemma WholeBodyIsSent(body: bytes, size: nat)
    requires size > 0
    ensures Concat(DoneSent(AllSent(Slices(Part(body, 0, 0)), size)).blocks) == body
  {
    hide AllSent, Slices, Concat;
    assert body[0..] == body;
    SlicesConcat(body);
    RegroupingKeepsData(Slices(Part(body, 0, 0)), size);
  }

  // ---- the sender

  function WriteOps(blocks: seq<bytes>): seq<Op> {
    if blocks == [] then [] else [Write(blocks[0])] + WriteOps(blocks[1..])
  }

  /** What is still to be read. */
  function Ahead(body: bytes, pos: nat, left: nat): bytes
    requires pos <= |body|
  {
    if left > |body| - pos then body[pos..] else body[pos..pos + left]
  }

  lemma ReadAhead(body: bytes, pos: nat, left: nat, n: nat)
    requires pos + n <= |body| && n <= left
    ensures var a := Ahead(body, pos, left);
      n <= |a| && a[..n] == body[pos..pos + n] && a[n..] == Ahead(body, pos + n, left - n)
  {}

  lemma Parts(a: bytes, b: bytes, n: nat)
    requires |a| == n
    ensures (a + b)[..n] == a && (a + b)[n..] == b
  {}

  lemma JoinsUp(x: bytes, n: nat, a: bytes, b: bytes)
    requires if |x| >= n then a == x[..n] && b == x[n..] else a == [] && b == x
    ensures a + b == x
  {}

  class Sender {
    const response: Response
    const chunk: nat
    var storage: Option<bytes>

    ghost predicate Valid()
      reads this
    {
      chunk > 0
    }

    ghost function Held(): bytes
      reads this
    {
      if storage.Some? then storage.value else []
    }

    constructor (response: Response, chunk: nat)
      requires chunk > 0
      ensures Valid() && this.response == response && this.chunk == chunk && Held() == []
    {
      this.response, this.chunk, storage := response, chunk, Some([]);
    }

    /** One block if there is a full one, everything if the size is 0, and nothing otherwise. */
    method ChunkBuffer(data: bytes, size: nat) returns (block: bytes)
      modifies this
      ensures var x := old(Held()) + data;
        if size == 0 then block == x && storage == None
        else if |x| >= size then block == x[..size] && storage == Some(x[size..])
        else block == [] && storage == Some(x)
    {
      if storage.None? {
        storage := Some([]);
      }
      var s := storage.value;
      if data != [] {
        s := s + data;
      }
      assert s == old(Held()) + data;
      if size == 0 {
        storage := None;
        return s;
      }
      if |s| >= size {
        block := s[..size];
        s := s[size..];
      } else {
        block := [];
      }
      storage := Some(s);
    }

    /** With a size: full blocks go out while there are any. A write fails once the response is finished. */
    method ChunkedOutput(data: bytes, size: nat) returns (ok: bool)
      requires size > 0
      modifies this, response
      ensures var x := old(Held()) + data;
        if old(response.finished) && |x| >= size
        then !ok && Held() == x[size..] && response.Now() == old(response.Now())
        else ok && Held() == RestOf(x, size) && response.Now() == Run(old(response.Now()), WriteOps(BlocksOf(x, size)))
    {
      hide Apply, Run, WriteOps, BlocksOf, RestOf;
      ghost var x, c0 := Held() + data, response.Now();
      var got := ChunkBuffer(data, size);
      assert got + Held() == x by { JoinsUp(x, size, got, Held()); }
      while got != []
        invariant |got| == size || got == []
        invariant response.Now().finished == c0.finished
        invariant c0.finished ==> response.Now() == c0 && got + Held() == x
        invariant got == [] ==> |Held()| < size
        invariant Run(c0, WriteOps(BlocksOf(x, size)))
          == Run(response.Now(), WriteOps(BlocksOf(got + Held(), size)))
        invariant RestOf(x, size) == RestOf(got + Held(), size)
        decreases |got| + |Held()|
      {
        ghost var y, c, h := got + Held(), response.Now(), Held();
        assert y[..size] == got && y[size..] == h by { Parts(got, h, size); }
        ok := response.WriteData(got);
        WriteKeepsFinished(c, got);
        if !ok {
          assert c.finished;
          return;
        }
        WriteStep(c, y, size);
        BlocksSplit(y, size);
        got := ChunkBuffer([], size);
        assert h + [] == h;
        assert got + Held() == h by { JoinsUp(h, size, got, Held()); }
      }
      assert got + Held() == Held();
      ShortIsRest(Held(), size);
      NoWrites(response.Now());
      ok := true;
    }

    /** One call with data. */
    method SendData(data: bytes) returns (ok: bool)
      requires Valid() && !response.finished
      modifies this, response
      ensures ok && Held() == RestOf(old(Held()) + data, chunk)
      ensures response.Now() == Run(old(response.Now()), WriteOps(BlocksOf(old(Held()) + data, chunk)))
      ensures !response.finished
    {
      WritesKeepFinished(response.Now(), BlocksOf(Held() + data, chunk));
      ok := ChunkedOutput(data, chunk);
    }

    /** The closing call: what is held goes out in one block, and the storage is given up. */
    method SendDone() returns (ok: bool)
      requires !response.finished
      modifies this, response
      ensures ok && Held() == []
      ensures response.Now() == Run(old(response.Now()), WriteOps(if old(Held()) == [] then [] else [old(Held())]))
      ensures !response.finished
    {
      hide Apply;
      var block := ChunkBuffer([], 0);
      assert old(Held()) + [] == old(Held());
      ok := true;
      if block != [] {
        WriteKeepsFinished(response.Now(), block);
        assert [block][1..] == [] && WriteOps([block]) == [Write(block)] && [Write(block)][1..] == [];
        ok := response.WriteData(block);
      }
    }

    /** Reads the body in slices and sends each. Reads are full: they stop short only at its end. */
    method BodyToCallback(body: bytes, offset: nat, forlen: nat) returns (ok: bool)
      requires Valid() && !response.finished && offset <= |body|
      modifies this, response
      ensures ok && !response.finished
      ensures var s := Sending(Sent(old(Held()), []), Slices(Part(body, offset, forlen)), chunk);
        Held() == s.held && response.Now() == Run(old(response.Now()), WriteOps(s.blocks))
    {
      hide Apply, BlocksOf, RestOf, Slices, Sending, Run, WriteOps;
      ghost var part := Part(body, offset, forlen);
      ghost var goal := Sending(Sent(Held(), []), Slices(part), chunk);
      ghost var now := Sent(Held(), []);
      ghost var c0 := response.Now();
      NoWrites(c0);
      var pos, left := offset, if forlen == 0 then |body| - offset + 1 else forlen;
      while pos < |body| && left > 0
        invariant offset <= pos <= |body| && left >= 0
        invariant Valid() && !response.finished
        invariant now.held == Held() && response.Now() == Run(c0, WriteOps(now.blocks))
        invariant goal == Sending(now, Slices(Ahead(body, pos, left)), chunk)
        decreases |body| - pos
      {
        var want := if left < READ_SIZE then left else READ_SIZE;
        var read := if want < |body| - pos then want else |body| - pos;
        ghost var todo := Ahead(body, pos, left);
        ReadAhead(body, pos, left, read);
        var buf := body[pos..pos + read];
        SendingStep(now, todo, read, chunk);
        ghost var blocks := BlocksOf(Held() + buf, chunk);
        ok := SendData(buf);
        RunWrites(c0, now.blocks, blocks);
        now := DataSent(now, buf, chunk);
        pos := pos + read;
        left := left - read;
        // the reader compares with the size of a pointer here, not with that of its buffer
        if read < (if left + read < 8 then left + read else 8) {
          break;
        }
      }
      assert Ahead(body, pos, left) == [];
      NothingToSend(now, chunk);
      ok := true;
    }

    /** The response to a request for one range that can be satisfied. */
    method SendRange(body: bytes, r: R.Range) returns (ok: bool)
      requires Valid() && Held() == [] && !response.started && !response.finished
      requires 0 <= r.begin <= r.end < |body|
      modifies this, response
      ensures ok && response.Now() == Run(old(response.Now()), RangeOps(body, r, chunk))
    {
      hide Apply, Run, ContentRange, Slices, Sending;
      ghost var c0 := response.Now();
      ok := response.PutHeader(ACCEPT_RANGES, true);
      ok := response.SetStatusCode(206);
      ok := response.PutHeader(ContentRange(r, |body|), true);
      HeadOps(c0, ContentRange(r, |body|));
      ghost var c1 := response.Now();
      ghost var part := body[r.begin..r.end + 1];
      assert Part(body, r.begin, r.end - r.begin + 1) == part;
      ok := BodyToCallback(body, r.begin, r.end - r.begin + 1);
      ghost var s := Sending(Sent([], []), Slices(part), chunk);
      ok := SendDone();
      assert response.Now() == Run(c1, WriteOps(BlocksSent(part, chunk))) by {
        RunWrites(c1, s.blocks, [s.held]);
        NoWrites(Run(c1, WriteOps(s.blocks)));
      }
      ghost var c2 := response.Now();
      ok := response.FinishUp();
      FinishWorks(c2);
      OpsRun(c0, c1, c2, ContentRange(r, |body|), BlocksSent(part, chunk));
    }
  }

  function HeadChanged(c: Context, line: bytes): Context {
    c.(header := PutLine(PutLine(c.header, ACCEPT_RANGES, true), line, true), status := 206)
  }

  /** Before the start, the three changes of the head succeed, given a header line. */
  lemma HeadOps(c: Context, line: bytes)
    requires !c.started && !c.finished
    ensures Colon(line, 0) < |line| ==>
      Run(c, [SetHeader(ACCEPT_RANGES), SetStatus(206), SetHeader(line)]) == HeadChanged(c, line)
    ensures var a := Apply(c, SetHeader(ACCEPT_RANGES));
      var b := Apply(a.ctx, SetStatus(206));
      var d := Apply(b.ctx, SetHeader(line));
      && !a.ctx.started && !b.ctx.started && !d.ctx.started && !d.ctx.finished
      && Run(c, [SetHeader(ACCEPT_RANGES), SetStatus(206), SetHeader(line)]) == d.ctx
  {
    hide PutLine;
    var ops := [SetHeader(ACCEPT_RANGES), SetStatus(206), SetHeader(line)];
    var a := Apply(c, ops[0]).ctx;
    var b := Apply(a, ops[1]).ctx;
    var d := Apply(b, ops[2]).ctx;
    assert ops[1..][1..][1..] == [];
    assert Run(d, []) == d;
    assert Run(b, ops[1..][1..]) == d;
    assert Run(a, ops[1..]) == d;
    assert Colon(ACCEPT_RANGES, 0) < |ACCEPT_RANGES| by { AcceptHasColon(); }
  }

  lemma AcceptHasColon() ensures Colon(ACCEPT_RANGES, 0) < |ACCEPT_RANGES| {
    ColonExists(ACCEPT_RANGES, 0, 13);
  }

  lemma {:induction false} ColonExists(line: bytes, i: nat, k: nat)
    requires i <= k < |line| && line[k] == 58
    ensures Colon(line, i) <= k
    decreases k - i
  {
    if i < k { ColonExists(line, i + 1, k); }
  }

  lemma NoWrites(c: Context) ensures Run(c, WriteOps([])) == c {}

  lemma FinishWorks(c: Context)
    requires !c.finished
    ensures Apply(c, Finish).ok && Run(c, [Finish]) == Apply(c, Finish).ctx
  {
    hide Lines, HasContentLength, ForbidsChunked;
    assert [Finish][1..] == [];
  }

  lemma OpsRun(c0: Context, c1: Context, c2: Context, line: bytes, blocks: seq<bytes>)
    requires c1 == Run(c0, [SetHeader(ACCEPT_RANGES), SetStatus(206), SetHeader(line)])
    requires c2 == Run(c1, WriteOps(blocks))
    ensures Run(c0, [SetHeader(ACCEPT_RANGES), SetStatus(206), SetHeader(line)] + (WriteOps(blocks) + [Finish]))
      == Run(c2, [Finish])
  {
    hide Run, WriteOps;
    RunConcat(c0, [SetHeader(ACCEPT_RANGES), SetStatus(206), SetHeader(line)], WriteOps(blocks) + [Finish]);
    RunConcat(c1, WriteOps(blocks), [Finish]);
  }

  // ---- what a range response puts on the wire

  lemma {:induction false} SendingIsAllSent(xs: seq<bytes>, ys: seq<bytes>, size: nat)
    requires size > 0
    ensures Sending(AllSent(xs, size), ys, size) == AllSent(xs + ys, size)
    decreases |ys|
  {
    hide DataSent;
    if ys == [] {
      assert xs + ys == xs;
    } else {
      var zs := xs + [ys[0]];
      assert zs[..|zs| - 1] == xs;
      assert zs + ys[1..] == xs + ys;
      SendingIsAllSent(zs, ys[1..], size);
    }
  }

  /** The blocks of a slice are the slice, and none is empty or longer than the block size. */
  lemma BlocksAreSlice(s: bytes, size: nat)
    requires size > 0
    ensures var t := BlocksSent(s, size); Concat(t) == s && NoneEmpty(t) && forall i :: 0 <= i < |t| ==> |t[i]| <= size
  {
    hide AllSent, Sending, Slices;
    SendingIsAllSent([], Slices(s), size);
    assert AllSent([], size) == Sent([], []) by { NothingSent(size); }
    assert [] + Slices(s) == Slices(s);
    RegroupingKeepsData(Slices(s), size);
    SlicesConcat(s);
  }

  lemma NothingSent(size: nat) requires size > 0 ensures AllSent([], size) == Sent([], []) {}

  function Pieces(ts: seq<bytes>, framed: bool): seq<Piece> {
    if ts == [] then [] else [Data(ts[0], framed)] + Pieces(ts[1..], framed)
  }

  lemma {:induction false} WritesAppend(c: Context, ts: seq<bytes>)
    requires c.started && !c.finished && NoneEmpty(ts)
    ensures Run(c, WriteOps(ts)) == c.(wire := c.wire + Pieces(ts, c.filter))
    decreases |ts|
  {
    hide Apply, Started, Run, WriteOps;
    if ts == [] {
      NoWrites(c);
      assert c.wire + [] == c.wire;
    } else {
      var d := c.(wire := c.wire + [Data(ts[0], c.filter)]);
      LaterWrite(c, ts[0]);
      FirstOfWrites(c, ts);
      WritesAppend(d, ts[1..]);
      SeqAssoc(c.wire, [Data(ts[0], c.filter)], Pieces(ts[1..], c.filter));
    }
  }

  lemma FirstOfWrites(c: Context, ts: seq<bytes>)
    requires ts != []
    ensures Run(c, WriteOps(ts)) == Run(Apply(c, Write(ts[0])).ctx, WriteOps(ts[1..]))
  {
    hide Apply;
    assert WriteOps(ts)[1..] == WriteOps(ts[1..]);
  }

  lemma LaterWrite(c: Context, t: bytes)
    requires c.started && !c.finished && t != []
    ensures Apply(c, Write(t)).ctx == c.(wire := c.wire + [Data(t, c.filter)])
  {
    hide Started;
  }

  lemma FirstWrite(c: Context, t: bytes)
    requires !c.started && !c.finished && t != []
    ensures var s := Started(c).ctx;
      s.started && !s.finished && Apply(c, Write(t)).ctx == s.(wire := s.wire + [Data(t, s.filter)])
  {
    hide Lines, HasContentLength, ForbidsChunked;
  }

  lemma WritesStart(c: Context, ts: seq<bytes>)
    requires !c.started && !c.finished && ts != [] && NoneEmpty(ts)
    ensures var s := Started(c).ctx; Run(c, WriteOps(ts)) == s.(wire := s.wire + Pieces(ts, s.filter))
  {
    hide Started, Apply, Run, WriteOps;
    var s := Started(c).ctx;
    FirstWrite(c, ts[0]);
    FirstOfWrites(c, ts);
    WritesAppend(s.(wire := s.wire + [Data(ts[0], s.filter)]), ts[1..]);
    assert (s.wire + [Data(ts[0], s.filter)]) + Pieces(ts[1..], s.filter) == s.wire + Pieces(ts, s.filter);
  }

  lemma NoBlocks(tail: seq<Piece>)
    requires tail == [] || tail == [End]
    ensures Blocks(tail) == []
  {
    assert [End][1..] == [];
  }

  lemma BlocksOfData(t: bytes, framed: bool, rest: seq<Piece>)
    ensures Blocks([Data(t, framed)] + rest) == [t] + Blocks(rest)
  {
    assert ([Data(t, framed)] + rest)[1..] == rest;
  }

  lemma {:induction false} PiecesBlocks(ts: seq<bytes>, framed: bool, tail: seq<Piece>)
    requires tail == [] || tail == [End]
    ensures Blocks(Pieces(ts, framed) + tail) == ts
  {
    hide Blocks;
    if ts == [] {
      assert Pieces(ts, framed) + tail == tail;
      assert Blocks(tail) == [] by { NoBlocks(tail); }
    } else {
      PiecesBlocks(ts[1..], framed, tail);
      var rest := Pieces(ts[1..], framed) + tail;
      assert Pieces(ts, framed) + tail == [Data(ts[0], framed)] + rest;
      BlocksOfData(ts[0], framed, rest);
      assert [ts[0]] + ts[1..] == ts;
    }
  }

  lemma {:induction false} LinesConcat(xs: seq<Entry>, ys: seq<Entry>)
    ensures Lines(xs + ys) == Lines(xs) + Lines(ys)
  {
    if xs == [] {
      assert xs + ys == ys;
    } else {
      assert (xs + ys)[1..] == xs[1..] + ys;
      LinesConcat(xs[1..], ys);
    }
  }

  lemma LineIsListed(es: seq<Entry>, line: bytes)
    ensures line in Lines(PutLine(es, line, true))
  {
    hide Colon, Lines;
    var fs := PutLine(es, line, true);
    var i := FindEntry(es, line[..Colon(line, 0)]);
    var e := Entry(line[..Colon(line, 0)], [line]);
    assert fs == fs[..i] + ([e] + fs[i + 1..]);
    LinesConcat(fs[..i], [e] + fs[i + 1..]);
    LinesConcat([e], fs[i + 1..]);
    assert Lines([e]) == [line] by { OneEntry(e, line); }
    var ls := Lines(fs);
    assert ls[|Lines(fs[..i])|] == line;
  }

  lemma OneEntry(e: Entry, line: bytes)
    requires e.lines == [line]
    ensures Lines([e]) == [line]
  {
    assert [e][1..] == [];
  }

  lemma ContentRangeHasColon(r: R.Range, length: nat)
    requires 0 <= r.begin && 0 <= r.end
    ensures Colon(ContentRange(r, length), 0) < |ContentRange(r, length)|
  {
    hide Numeral, Colon;
    var p := Lit("Content-Range: bytes ");
    var l := ContentRange(r, length);
    assert l[13] == p[13];
    assert p[13] == 58;
    ColonExists(l, 0, 13);
  }

  lemma StartedHead(c: Context)
    requires !c.started && !c.finished && c.wire == []
    ensures var s, ls := Started(c).ctx, Lines(c.header);
      var chunked := c.chunked && !ForbidsChunked(c.version, c.status, c.request) && !HasContentLength(ls);
      s.started && !s.finished && s.wire == [Head(c.version, c.status, ls, chunked)]
  {
    hide Lines, HasContentLength, ForbidsChunked;
  }

  lemma FinishAdds(c: Context)
    requires c.started && !c.finished
    ensures var d := Apply(c, Finish).ctx;
      && d.started && d.finished
      && d.wire == c.wire + if c.chunked && c.filter then [End] else []
  {
    hide Started;
  }

  /** What the wire holds after a range has been sent from a context that has not started. */
  lemma RangeWire(c: Context, body: bytes, r: R.Range, size: nat)
    requires !c.started && !c.finished && c.wire == [] && 0 <= r.begin <= r.end < |body| && size > 0
    ensures var d := Run(c, RangeOps(body, r, size));
      && d.finished && d.started && d.wire != [] && d.wire[0].Head?
      && d.wire[0].version == c.version && d.wire[0].status == 206 && ContentRange(r, |body|) in d.wire[0].lines
      && d.wire[0].lines == Lines(HeadChanged(c, ContentRange(r, |body|)).header)
      && d.wire[0].chunked == (c.chunked && !ForbidsChunked(c.version, 206, c.request) && !HasContentLength(d.wire[0].lines))
      && Blocks(d.wire[1..]) == BlocksSent(body[r.begin..r.end + 1], size)
  {
    hide Run, ContentRange, BlocksSent, Lines, PutLine, HasContentLength, ForbidsChunked, WriteOps, Pieces, Blocks, Started,
      Apply;
    var line, part := ContentRange(r, |body|), body[r.begin..r.end + 1];
    var ts := BlocksSent(part, size);
    BlocksAreSlice(part, size);
    assert ts != [] by { if ts == [] { NoBlocksConcat(); } }
    HeadOps(c, line);
    ContentRangeHasColon(r, |body|);
    var c1 := HeadChanged(c, line);
    WritesStart(c1, ts);
    var s := Started(c1).ctx;
    StartedHead(c1);
    var c2 := s.(wire := s.wire + Pieces(ts, s.filter));
    OpsRun(c, c1, c2, line, ts);
    FinishWorks(c2);
    FinishAdds(c2);
    LineIsListed(PutLine(c.header, ACCEPT_RANGES, true), line);
    var tail := if c2.chunked && c2.filter then [End] else [];
    var d := Apply(c2, Finish).ctx;
    assert d.wire[1..] == Pieces(ts, s.filter) + tail;
    PiecesBlocks(ts, s.filter, tail);
  }

  /** The two header lines of a range response. */
  lemma RangeLines(request: Option<Request>, line: bytes)
    requires line != [] && line[0] == 67
    ensures Lines(HeadChanged(Initial(request), line).header) == [ACCEPT_RANGES, line]
  {
    hide Colon;
    var a, k := ACCEPT_RANGES[..Colon(ACCEPT_RANGES, 0)], line[..Colon(line, 0)];
    assert Colon(ACCEPT_RANGES, 0) > 0 && Colon(line, 0) > 0 by { ColonIsLater(ACCEPT_RANGES); ColonIsLater(line); }
    assert a[0] == 65 && k[0] == 67;
    var es := [Entry(a, [ACCEPT_RANGES])];
    assert PutLine([], ACCEPT_RANGES, true) == es;
    assert es[1..] == [] && FindEntry(es, k) == 1;
    var fs := es + [Entry(k, [line])];
    assert PutLine(es, line, true) == fs;
    assert fs[1..] == [Entry(k, [line])];
    OneEntry(fs[1], line);
  }

  lemma ColonIsLater(line: bytes)
    requires line != [] && line[0] != 58
    ensures Colon(line, 0) > 0
  {}

  lemma NotContentLength(r: R.Range, length: nat)
    requires 0 <= r.begin && 0 <= r.end
    ensures var line := ContentRange(r, length);
      line != [] && line[0] == 67 && !HasContentLength([ACCEPT_RANGES, line])
  {
    hide Numeral;
    var p, line := Lit("Content-Range: bytes "), ContentRange(r, length);
    assert line[0] == p[0] && line[8] == p[8];
    assert p[0] == 67 && p[8] == 82;
    assert ACCEPT_RANGES[0] == 65 && CONTENT_LENGTH[0] == 99 && CONTENT_LENGTH[8] == 108;
    assert !IsContentLength(ACCEPT_RANGES) && !IsContentLength(line);
  }

  /** A range is sent in chunks exactly when the request is neither HTTP/1.0 nor a CONNECT. */
  lemma RangeIsChunkedIff(request: Option<Request>, body: bytes, r: R.Range, size: nat)
    requires 0 <= r.begin <= r.end < |body| && size > 0
    ensures var c := Run(Initial(request), RangeOps(body, r, size));
      && c.wire != [] && c.wire[0].Head?
      && (c.wire[0].chunked <==>
            request.None? || (request.value.version != Version(1, 0) && !request.value.connect))
  {
    hide Run, RangeOps, ContentRange, Lines, PutLine, HasContentLength, Blocks, BlocksSent;
    var line := ContentRange(r, |body|);
    RangeWire(Initial(request), body, r, size);
    NotContentLength(r, |body|);
    RangeLines(request, line);
  }

  /** The wire of a response to a range: the head, and a body that reads back as the slice. */
  ghost predicate Serves(c: Context, body: bytes, r: R.Range, eager: bool)
    requires 0 <= r.begin <= r.end < |body|
  {
    && c.wire != [] && c.wire[0].Head? && c.wire[0].status == 206 && ContentRange(r, |body|) in c.wire[0].lines
    && (forall i :: 0 <= i < |c.wire| - 1 ==> !c.wire[1..][i].Head?)
    && ReadsBack(c, body[r.begin..r.end + 1], eager)
  }

  ghost predicate ReadsBack(c: Context, data: bytes, eager: bool)
    requires c.wire != [] && c.wire[0].Head? && forall i :: 0 <= i < |c.wire| - 1 ==> !c.wire[1..][i].Head?
  {
    if c.wire[0].chunked
    then Dechunk.Updated(Dechunk.Initial, BodyBytes(c.wire[1..]), eager) == Dechunk.Step(true, data, Dechunk.Context([], 0, true))
    else BodyBytes(c.wire[1..]) == data
  }

  lemma SliceIsServed(request: Option<Request>, body: bytes, r: R.Range, size: nat, eager: bool)
    requires 0 <= r.begin <= r.end < |body| && 0 < size <= ULONG_MAX
    ensures Serves(Run(Initial(request), RangeOps(body, r, size)), body, r, eager)
  {
    hide Run, RangeOps, ContentRange, BodyBytes, Blocks, HasContentLength, ForbidsChunked, Lines,
      WireOk, HeadIsFixed, HeadChanged, BlocksSent, Dechunk.Updated, Initial;
    var c0 := Initial(request);
    InitialIsOk(request);
    assert !c0.started && !c0.finished && c0.wire == [] by { InitialIsIdle(request); }
    RunKeepsOrder(c0, RangeOps(body, r, size));
    RangeWire(c0, body, r, size);
    var part := body[r.begin..r.end + 1];
    BlocksAreSlice(part, size);
    BodyReadsBack(Run(c0, RangeOps(body, r, size)), eager);
  }

  lemma InitialIsIdle(request: Option<Request>)
    ensures var c := Initial(request); !c.started && !c.finished && c.wire == []
  {}

  lemma OneIsMeant(spec: R.Spec, length: nat)
    requires length > 0 && R.Selects(spec, length).Some?
    ensures R.Meant([spec], length) == R.Ok([R.Selects(spec, length).value])
  {
    assert [spec][1..] == [] && R.Selected([], length) == [];
  }

  /**
   * For every request that names one range and every body: the scanner finds the range that the
   * standard means, the head states those bounds, and the body on the wire reads back as exactly
   * those bytes, through the chunk decoder where the head says chunked.
   */
  lemma RangeIsServed(request: Option<Request>, body: bytes, spec: R.Spec, size: nat, eager: bool)
    requires body != [] && 0 < size <= ULONG_MAX
    requires R.Selects(spec, |body|).Some? && !R.Departs(spec, |body|)
    ensures var r := R.Selects(spec, |body|).value;
      && 0 <= r.begin <= r.end < |body|
      && R.Scan(Some(R.BYTES_EQ + R.SpecsText([spec])), |body|) == R.Ok([r])
      && Serves(Run(Initial(request), RangeOps(body, r, size)), body, r, eager)
  {
    hide Run, RangeOps, Serves, R.Scan, R.SpecsText;
    R.SpecIsMeantIff(spec, |body|);
    OneIsMeant(spec, |body|);
    SliceIsServed(request, body, R.Selects(spec, |body|).value, size, eager);
  }

  // ---- a single range

  const ACCEPT_RANGES := Lit("Accept-Ranges: bytes")

  function ContentRange(r: R.Range, length: nat): bytes
    requires 0 <= r.begin && 0 <= r.end
  {
    Lit("Content-Range: bytes ") + Numeral(r.begin) + [45] + Numeral(r.end) + [47] + Numeral(length)
  }

  /** The blocks that the slices of a body are regrouped into. */
  function BlocksSent(s: bytes, size: nat): seq<bytes>
    requires size > 0
  {
    DoneSent(Sending(Sent([], []), Slices(s), size)).blocks
  }

  function RangeOps(body: bytes, r: R.Range, size: nat): seq<Op>
    requires 0 <= r.begin <= r.end < |body| && size > 0
  {
    [SetHeader(ACCEPT_RANGES), SetStatus(206), SetHeader(ContentRange(r, |body|))]
      + (WriteOps(BlocksSent(body[r.begin..r.end + 1], size)) + [Finish])
  }

  /** Sending several pieces, from what is held and passed out before. */
  function Sending(s: Sent, ds: seq<bytes>, size: nat): Sent
    requires size > 0
    decreases |ds|
  {
    if ds == [] then s else Sending(DataSent(s, ds[0], size), ds[1..], size)
  }

  lemma SliceStep(s: bytes, n: nat)
    requires s != [] && n == if |s| < READ_SIZE then |s| else READ_SIZE
    ensures Slices(s) == [s[..n]] + Slices(s[n..])
  {
    if |s| <= READ_SIZE {
      assert s[..n] == s && s[n..] == [];
    }
  }

  lemma SendingStep(s: Sent, d: bytes, n: nat, size: nat)
    requires size > 0 && d != [] && n == if |d| < READ_SIZE then |d| else READ_SIZE
    ensures Sending(s, Slices(d), size) == Sending(DataSent(s, d[..n], size), Slices(d[n..]), size)
  {
    hide Slices, DataSent;
    SliceStep(d, n);
    assert Slices(d)[1..] == Slices(d[n..]);
  }

  lemma NothingToSend(s: Sent, size: nat)
    requires size > 0
    ensures Sending(s, Slices([]), size) == s
  {}

  lemma WriteKeepsFinished(c: Context, b: bytes)
    ensures var d := Apply(c, Write(b)); d.ctx.finished == c.finished && d.ok == !c.finished && (c.finished ==> d.ctx == c)
  {
    hide Lines, HasContentLength, ForbidsChunked;
  }

  lemma {:induction false} WritesKeepFinished(c: Context, blocks: seq<bytes>)
    ensures Run(c, WriteOps(blocks)).finished == c.finished
    decreases |blocks|
  {
    hide Apply;
    if blocks != [] {
      WriteKeepsFinished(c, blocks[0]);
      assert WriteOps(blocks)[1..] == WriteOps(blocks[1..]);
      WritesKeepFinished(Apply(c, Write(blocks[0])).ctx, blocks[1..]);
    }
  }

  lemma WriteStep(c: Context, y: bytes, size: nat)
    requires 0 < size <= |y|
    ensures Run(c, WriteOps(BlocksOf(y, size))) == Run(Apply(c, Write(y[..size])).ctx, WriteOps(BlocksOf(y[size..], size)))
  {
    hide Apply;
    var bs := BlocksOf(y, size);
    assert bs[1..] == BlocksOf(y[size..], size);
    assert WriteOps(bs)[1..] == WriteOps(bs[1..]);
  }

  lemma {:induction false} WriteOpsConcat(xs: seq<bytes>, ys: seq<bytes>)
    ensures WriteOps(xs + ys) == WriteOps(xs) + WriteOps(ys)
  {
    if xs == [] {
      assert xs + ys == ys;
    } else {
      assert (xs + ys)[1..] == xs[1..] + ys;
      WriteOpsConcat(xs[1..], ys);
    }
  }

  lemma RunWrites(c: Context, xs: seq<bytes>, ys: seq<bytes>)
    ensures Run(c, WriteOps(xs + ys)) == Run(Run(c, WriteOps(xs)), WriteOps(ys))
  {
    hide Run, WriteOps;
    WriteOpsConcat(xs, ys);
    RunConcat(c, WriteOps(xs), WriteOps(ys));
  }
}
