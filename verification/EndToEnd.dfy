/** From the response sender to the message parser: what one side sends, head and body, the other receives. */
module EndToEnd {
  import opened Bytes
  import opened HexNumbers
  import opened ChunkCoding
  import opened Decimals
  import opened HeaderNames
  import opened Messages
  import opened RangeHeader
  import S = StreamResponse
  import R = RangeScan
  import P = RangeResponse
  import M = MessageParser
  import C = ChunkedMessages
  import D = DechunkRuns
  import Fragments
  import Dechunk
  import H = HeaderParser
  import L = HeaderLines
  import T = HeaderPrint
  import W = WholeMessages
  import opened KnownNames

  /** The bytes behind the head of a response. */
  ghost function BodyStream(c: S.Context): Option<bytes> {
    if c.wire != [] && c.wire[0].Head? && forall i :: 0 <= i < |c.wire| - 1 ==> !c.wire[1..][i].Head?
    then Some(S.BodyBytes(c.wire[1..])) else None
  }

  lemma StreamIsThere(c: S.Context)
    requires S.WireOk(c) && c.started
    ensures BodyStream(c).Some?
  {
    hide S.HasContentLength, S.ForbidsChunked, S.BodyBytes;
    assert forall i :: 0 <= i < |c.wire| - 1 ==> c.wire[1..][i] == c.wire[i + 1];
  }

  /** A finished response is the encoder's output for the blocks written, or those blocks as they are. */
  lemma StreamIsEncoded(c: S.Context)
    requires S.WireOk(c) && c.finished && BodyStream(c).Some?
    ensures var blocks := S.Blocks(c.wire[1..]);
      if c.wire[0].chunked then BodyStream(c).value == Encode(blocks) && NoneEmpty(blocks)
      else BodyStream(c).value == Concat(blocks)
  {
    hide S.HasContentLength, S.ForbidsChunked, S.BodyBytes, S.Blocks, Encode;
    var ps := c.wire[1..];
    assert forall i :: 0 <= i < |ps| ==> ps[i] == c.wire[i + 1];
    if c.wire[0].chunked {
      S.FramedBodyIsEncoded(ps);
    } else {
      S.PlainBodyIsData(ps);
    }
  }

  // ---- a head as it is read

  function LinesOf(ts: seq<bytes>): seq<L.Line> { if ts == [] then [] else [L.Line(ts[0], true)] + LinesOf(ts[1..]) }

  /** All lines of a head, the blank one included. */
  function HeadOf(head: S.Piece, reason: bytes): seq<L.Line>
    requires head.Head? && head.status >= 0
  {
    LinesOf(S.HeadLines(head, reason)) + [L.Line([], true)]
  }

  lemma {:induction false} LinesAreText(ts: seq<bytes>, ls: seq<L.Line>)
    ensures L.Text(LinesOf(ts) + ls) == S.LinesText(ts) + L.Text(ls)
    decreases |ts|
  {
    if ts == [] {
      assert LinesOf(ts) + ls == ls;
    } else {
      hide L.Text, S.LinesText;
      var t, rest := ts[0], LinesOf(ts[1..]);
      LinesAreText(ts[1..], ls);
      assert LinesOf(ts) + ls == [L.Line(t, true)] + (rest + ls);
      FirstLineText(t, rest + ls);
      FirstText(ts);
      LineJoins(t, S.LinesText(ts[1..]), L.Text(ls));
    }
  }

  lemma FirstLineText(t: bytes, ls: seq<L.Line>)
    ensures L.Text([L.Line(t, true)] + ls) == t + (CRLF + L.Text(ls))
  {
    assert ([L.Line(t, true)] + ls)[1..] == ls;
  }

  lemma FirstText(ts: seq<bytes>)
    requires ts != []
    ensures S.LinesText(ts) == ts[0] + CRLF + S.LinesText(ts[1..])
  {}

  lemma LineJoins(t: bytes, a: bytes, b: bytes)
    ensures t + (CRLF + (a + b)) == (t + CRLF + a) + b
  {
    assert CRLF + (a + b) == (CRLF + a) + b;
    assert t + ((CRLF + a) + b) == (t + (CRLF + a)) + b;
    assert t + (CRLF + a) == t + CRLF + a;
  }

  lemma HeadIsText(head: S.Piece, reason: bytes)
    requires head.Head? && head.status >= 0
    ensures L.Text(HeadOf(head, reason)) == S.HeadBytes(head, reason)
  {
    hide S.HeadLines, S.LinesText;
    var blank := [L.Line([], true)];
    LinesAreText(S.HeadLines(head, reason), blank);
    assert blank[1..] == [] && L.Text([]) == [];
    assert L.Text(blank) == CRLF;
  }

  const CHUNKED_FIELD := Field(M.TRANSFER_ENCODING, [Lit("chunked")])

  /** The headers that a head prints. */
  function Fields(head: S.Piece, table: seq<Field>): seq<Field>
    requires head.Head?
  {
    table + if head.chunked then [CHUNKED_FIELD] else []
  }

  function PairLines(ps: seq<T.Pair>): seq<bytes> {
    if ps == [] then [] else [T.LineText(ps[0].name, ps[0].value)] + PairLines(ps[1..])
  }

  lemma {:induction false} PairLinesConcat(xs: seq<T.Pair>, ys: seq<T.Pair>)
    ensures PairLines(xs + ys) == PairLines(xs) + PairLines(ys)
    decreases |xs|
  {
    hide T.LineText;
    if xs == [] {
      assert xs + ys == ys;
    } else {
      assert (xs + ys)[1..] == xs[1..] + ys;
      PairLinesConcat(xs[1..], ys);
    }
  }

  lemma {:induction false} PairLinesAreLines(ps: seq<T.Pair>)
    ensures LinesOf(PairLines(ps)) == T.LinesOf(ps)
    decreases |ps|
  {
    hide T.LineText;
    if ps != [] {
      assert PairLines(ps)[1..] == PairLines(ps[1..]);
      PairLinesAreLines(ps[1..]);
    }
  }

  lemma {:induction false} PairsConcat(xs: seq<Field>, ys: seq<Field>)
    ensures T.Pairs(xs + ys) == T.Pairs(xs) + T.Pairs(ys)
    decreases |xs|
  {
    hide T.ValuePairs;
    if xs == [] {
      assert xs + ys == ys;
    } else {
      assert (xs + ys)[1..] == xs[1..] + ys;
      PairsConcat(xs[1..], ys);
      SeqAssoc(T.ValuePairs(xs[0].name, xs[0].values), T.Pairs(xs[1..]), T.Pairs(ys));
    }
  }

  /** A literal is put together from its parts. */
  lemma LitLine(name: string, value: string)
    ensures Lit(name + ": " + value) == T.LineText(Lit(name), Lit(value))
  {
    LitConcat(name + ": ", value);
    LitConcat(name, ": ");
    var c := Lit(": ");
    assert c[0] == 58 && c[1] == SP && c == [58, SP];
    assert Lit(name) + [58, SP] + Lit(value) == Lit(name) + ([58, SP] + Lit(value));
  }

  lemma ChunkedLineIs()
    ensures S.CHUNKED_LINE == T.LineText(M.TRANSFER_ENCODING, Lit("chunked"))
  {
    LitLine("Transfer-Encoding", "chunked");
    assert "Transfer-Encoding" + ": " + "chunked" == "Transfer-Encoding: chunked";
  }

  /** The sender's head lists the headers of a table. */
  ghost predicate Lists(head: S.Piece, table: seq<Field>) {
    head.Head? && head.status >= 0 && head.lines == PairLines(T.Pairs(table))
  }

  lemma HeadLinesAreFields(head: S.Piece, reason: bytes, table: seq<Field>)
    requires Lists(head, table)
    ensures S.HeadLines(head, reason)
      == [S.StatusLine(head.version, head.status, reason)] + PairLines(T.Pairs(Fields(head, table)))
  {
    hide S.StatusLine, T.LineText, PairLines, T.Pairs;
    var first := S.StatusLine(head.version, head.status, reason);
    if head.chunked {
      PairsConcat(table, [CHUNKED_FIELD]);
      PairLinesConcat(T.Pairs(table), T.Pairs([CHUNKED_FIELD]));
      ChunkedLineIs();
      assert PairLines(T.Pairs([CHUNKED_FIELD])) == [S.CHUNKED_LINE] by { OnePair(M.TRANSFER_ENCODING, Lit("chunked")); }
      SeqAssoc([first], head.lines, [S.CHUNKED_LINE]);
    } else {
      assert table + [] == table && ([first] + head.lines) + [] == [first] + head.lines;
    }
  }

  lemma OnePair(name: bytes, value: bytes)
    ensures PairLines(T.Pairs([Field(name, [value])])) == [T.LineText(name, value)]
  {
    hide T.LineText;
    var fs, vs := [Field(name, [value])], [value];
    assert fs[1..] == [] && vs[1..] == [];
    assert T.ValuePairs(name, vs) == [T.Pair(name, value)] && T.Pairs(fs) == [T.Pair(name, value)];
    assert [T.Pair(name, value)][1..] == [];
  }

  // ---- what the receiver makes of it

  /** A recogniser of start lines that knows this status line, and wants "HTTP/" in a line. */
  ghost predicate Recognises(info: InfoParser, head: S.Piece, reason: bytes)
    requires head.Head? && head.status >= 0
  {
    var line := S.StatusLine(head.version, head.status, reason);
    T.WantsHttp(info) && info(line) == Some(Response(line, head.status)) && L.TextOk(reason)
  }

  /** A start line opens a new message. */
  predicate Ready(msgs: seq<Message>) { msgs == [] || Last(msgs).info.Some? || Last(msgs).headers != [] }

  lemma DigitsAreText(d: bytes)
    requires AllDigits(d)
    ensures L.TextOk(d)
  {}

  lemma TextJoins(a: bytes, b: bytes)
    requires L.TextOk(a) && L.TextOk(b)
    ensures L.TextOk(a + b)
  {}

  lemma LiteralsAreText()
    ensures var p := Lit("HTTP/"); L.TextOk(p) && p[0] == 72
    ensures L.TextOk([46]) && L.TextOk([SP])
  {
    var p := Lit("HTTP/");
    assert p[0] == 72 && p[1] == 84 && p[2] == 84 && p[3] == 80 && p[4] == 47;
  }

  lemma StatusIsText(v: S.Version, status: nat, reason: bytes)
    requires L.TextOk(reason)
    ensures var t := S.StatusLine(v, status, reason); L.TextOk(t) && t != [] && t[0] == 72
  {
    hide Numeral, L.TextOk;
    var p := Lit("HTTP/");
    LiteralsAreText();
    var a, b, c := Numeral(v.major), Numeral(v.minor), Numeral(status);
    DigitsAreText(a);
    DigitsAreText(b);
    DigitsAreText(c);
    TextJoins(p, a);
    TextJoins(p + a, [46]);
    TextJoins(p + a + [46], b);
    TextJoins(p + a + [46] + b, [SP]);
    TextJoins(p + a + [46] + b + [SP], c);
    TextJoins(p + a + [46] + b + [SP] + c, [SP]);
    TextJoins(p + a + [46] + b + [SP] + c + [SP], reason);
  }

  /** The status line opens the message. */
  lemma StatusOpens(info: InfoParser, msgs: seq<Message>, line: bytes, i: Info)
    requires line != [] && info(line) == Some(i) && Ready(msgs)
    ensures L.FoldLine(info, W.Unread(msgs), line) == L.Fold(None, T.With(msgs, Some(i), []), false)
  {}

  /** The fold over the lines of a head, up to the blank one and with it. */
  lemma HeadFolds(info: InfoParser, msgs: seq<Message>, head: S.Piece, reason: bytes, table: seq<Field>)
    requires Lists(head, table) && Recognises(info, head, reason) && T.TableOk(Fields(head, table)) && Ready(msgs)
    ensures var ls := HeadOf(head, reason);
      var line := S.StatusLine(head.version, head.status, reason);
      var r := L.FoldLines(info, W.Unread(msgs), ls);
      && L.LinesOk(ls) && W.StartsWell(ls)
      && L.FoldLines(info, W.Unread(msgs), ls[..|ls| - 1]).verdict.Open?
      && r.verdict.Done? && r.rest == []
      && r.f.msgs == T.With(msgs, Some(Response(line, head.status)), Fields(head, table))
  {
    hide S.StatusLine, S.HeadLines, L.FoldLine, L.Close, T.LinesOf, T.Pairs, T.StoreAll, T.With, T.TableOk, PairLines,
      L.TextOk, LinesOf, T.WantsHttp, L.NoNul;
    var line, fs := S.StatusLine(head.version, head.status, reason), Fields(head, table);
    var ps, i := T.Pairs(fs), Response(line, head.status);
    StatusIsText(head.version, head.status, reason);
    HeadLinesAreFields(head, reason, table);
    var first, blank := L.Line(line, true), L.Line([], true);
    var front := [first] + T.LinesOf(ps);
    assert LinesOf(S.HeadLines(head, reason)) == front by { HeadAsLines(line, ps); }
    var ls := HeadOf(head, reason);
    assert ls == front + [blank] && ls[..|ls| - 1] == front;
    var f0, f1 := W.Unread(msgs), L.Fold(None, T.With(msgs, Some(i), []), false);
    StatusOpens(info, msgs, line, i);
    TableIsPairs(fs);
    assert L.NoNul(f1) && L.Close(f1) == f1 by { NothingPending(f1); }
    T.PrintedLinesFold(info, f1, ps);
    assert front[1..] == T.LinesOf(ps);
    var r := L.FoldLines(info, f0, front);
    assert r == L.FoldLines(info, f1, T.LinesOf(ps));
    L.FoldConcat(info, f0, front, [blank]);
    L.LinesKeepNoNul(info, f1, T.LinesOf(ps));
    BlankFolds(info, r.f, blank);
    assert L.LinesOk(ls) by { LinesJoin(first, T.LinesOf(ps), blank); }
    FieldsHaveValues(fs);
    assert [] + fs == fs;
    T.TableStores(msgs, Some(i), [], fs);
  }

  lemma NothingPending(f: L.Fold) requires f.field == None && !f.failed ensures L.NoNul(f) && L.Close(f) == f {}

  lemma BlankFolds(info: InfoParser, f: L.Fold, blank: L.Line)
    requires !f.failed && L.NoNul(f) && blank.text == []
    ensures L.FoldLines(info, f, [blank]) == L.Result(L.Close(f), L.Done, [])
  {
    hide OnField, Canonical;
    assert [blank][1..] == [];
  }

  lemma HeadAsLines(line: bytes, ps: seq<T.Pair>)
    ensures LinesOf([line] + PairLines(ps)) == [L.Line(line, true)] + T.LinesOf(ps)
  {
    hide PairLines, T.LinesOf;
    PairLinesAreLines(ps);
    assert ([line] + PairLines(ps))[1..] == PairLines(ps);
  }

  lemma LinesJoin(first: L.Line, ls: seq<L.Line>, blank: L.Line)
    requires L.TextOk(first.text) && L.LinesOk(ls) && blank.text == []
    ensures L.LinesOk([first] + ls + [blank])
  {
    hide L.TextOk;
    assert L.TextOk([]) by { NothingIsText(); }
    var all := [first] + ls + [blank];
    assert forall i :: 0 < i <= |ls| ==> all[i] == ls[i - 1];
  }

  lemma NothingIsText() ensures L.TextOk([]) {}

  lemma TableIsPairs(fs: seq<Field>)
    requires T.TableOk(fs)
    ensures T.PairsOk(T.Pairs(fs))
  {
    hide T.FieldOk;
    T.TableIsLines(fs);
  }

  lemma FieldsHaveValues(fs: seq<Field>)
    requires T.TableOk(fs)
    ensures forall i :: 0 <= i < |fs| ==> fs[i].values != []
    ensures forall i, j :: 0 <= i < j < |fs| ==> fs[i].name != fs[j].name
  {
    T.TableHasValues(fs);
  }

  /** The head of a response, in pieces that are cut anywhere, the last of which can bring some of the body too. */
  ghost predicate HeadArrives(env: M.Env, msgs: seq<Message>, head: S.Piece, reason: bytes, table: seq<Field>,
                              hs: seq<W.HeadCall>, end: W.HeadEnd) {
    Lists(head, table) && T.TableOk(Fields(head, table)) && LinesArrive(env, msgs, head, reason, hs, end)
  }

  ghost predicate LinesArrive(env: M.Env, msgs: seq<Message>, head: S.Piece, reason: bytes,
                              hs: seq<W.HeadCall>, end: W.HeadEnd)
    requires head.Head? && head.status >= 0
  {
    && Recognises(env.info, head, reason) && Ready(msgs)
    && end.all == HeadOf(head, reason) && W.ComesInPieces(env.info, msgs, hs, end) && KeepsBody(end.flags, head.status)
  }

  /** The body is neither taken as it comes nor cut short at a redirect. */
  ghost predicate KeepsBody(fl: M.Flags, status: int) { !fl.dumbBodies && (fl.emptyRedirects ==> status / 100 != 3) }

  /** The messages once that head has been read. */
  function Announced(msgs: seq<Message>, head: S.Piece, reason: bytes, table: seq<Field>): seq<Message>
    requires head.Head? && head.status >= 0
  {
    T.With(msgs, Some(Response(S.StatusLine(head.version, head.status, reason), head.status)), Fields(head, table))
  }

  lemma HeadIsGiven(env: M.Env, msgs: seq<Message>, head: S.Piece, reason: bytes, table: seq<Field>,
                    hs: seq<W.HeadCall>, end: W.HeadEnd)
    requires HeadArrives(env, msgs, head, reason, table, hs, end)
    ensures W.HeadGiven(env, msgs, hs, end) && W.Read(env, msgs, end) == Announced(msgs, head, reason, table)
  {
    hide L.FoldLines, L.LinesOk, W.StartsWell, HeadOf, T.TableOk, Recognises, T.With, PairLines, T.Pairs, Fields,
      S.StatusLine, W.ComesInPieces;
    HeadFolds(env.info, msgs, head, reason, table);
  }

  // ---- any response in chunks

  lemma FoundLast(xs: seq<Field>, f: Field)
    requires forall i, j :: 0 <= i < j < |xs + [f]| ==> (xs + [f])[i].name != (xs + [f])[j].name
    ensures FindField(xs + [f], f.name) == |xs|
  {
    hide FindField;
    var all := xs + [f];
    assert all[|xs|] == f;
    assert forall i :: 0 <= i < |xs| ==> all[i].name != all[|xs|].name;
  }

  lemma ChunkedIsFound(table: seq<Field>)
    requires T.TableOk(table + [CHUNKED_FIELD])
    ensures Lookup(table + [CHUNKED_FIELD], M.TRANSFER_ENCODING) == Some([Lit("chunked")])
  {
    hide FindField, Canonical, T.ValueOk, H.IsName;
    var fs := table + [CHUNKED_FIELD];
    assert T.FieldOk(fs[|table|]);
    FoundLast(table, CHUNKED_FIELD);
  }

  lemma ChunkedIsDelimited(env: M.Env, fl: M.Flags, msgs: seq<Message>, line: bytes, status: nat, table: seq<Field>)
    requires KeepsBody(fl, status) && T.TableOk(table + [CHUNKED_FIELD])
    ensures W.Delimited(env, fl, T.With(msgs, Some(Response(line, status)), table + [CHUNKED_FIELD])) == M.Chunked
  {
    hide Lookup, M.Rewritten, T.TableOk, RangeLength, M.Joined, Lit;
    var ms := T.With(msgs, Some(Response(line, status)), table + [CHUNKED_FIELD]);
    assert Last(M.Opened(ms)) == Message(Some(Response(line, status)), table + [CHUNKED_FIELD], []);
    ChunkedIsFound(table);
  }

  /** What has been received when a response is over. */
  function Received(msgs: seq<Message>, head: S.Piece, reason: bytes, table: seq<Field>, body: bytes, left: bytes): M.Machine
    requires head.Head? && head.status >= 0
  {
    W.Over(Announced(msgs, head, reason, table), body, left)
  }

  /** One message more, with the headers as the parser keeps them and the body; the parser is as new. */
  lemma ReceivedIs(msgs: seq<Message>, head: S.Piece, reason: bytes, table: seq<Field>, body: bytes, left: bytes)
    requires head.Head? && head.status >= 0
    ensures var line := S.StatusLine(head.version, head.status, reason);
      Received(msgs, head, reason, table, body, left)
      == M.Fresh(msgs + [Message(Some(Response(line, head.status)), M.Rewritten(Fields(head, table)), body)])
         .(buffer := M.Strip(left))
  {
    hide M.Rewritten, M.Strip, S.StatusLine, Fields;
    var line := S.StatusLine(head.version, head.status, reason);
    var info := Some(Response(line, head.status));
    var ms := T.With(msgs, info, Fields(head, table));
    assert Last(M.Opened(ms)) == Message(info, Fields(head, table), []);
    assert W.Headed(ms) == msgs + [Message(info, M.Rewritten(Fields(head, table)), [])];
    assert [] + body == body;
  }

  /** The feeds that bring a chunked body, the last of them whatever it holds. */
  function FeedsOf(bs: seq<M.Call>): seq<D.Event>
    requires bs != []
  {
    C.Events(bs[..|bs| - 1]) + [D.Feed(bs[|bs| - 1].data)]
  }

  /** A chunked stream and what trails it, cut anywhere but within the end of a size line, its end in the last call. */
  ghost predicate ChunksArrive(stream: bytes, trail: bytes, bs: seq<M.Call>) {
    && bs != [] && !bs[|bs| - 1].flags.greedy && D.Fed(FeedsOf(bs)) == stream + trail
    && D.CleanCuts(FeedsOf(bs)) && Fragments.EndsInTime(FeedsOf(bs))
  }

  lemma ChunkedIsReceived(head: S.Piece, table: seq<Field>, reason: bytes, env: M.Env, msgs: seq<Message>,
                          hs: seq<W.HeadCall>, end: W.HeadEnd, d: bytes, cs: seq<M.Call>, blocks: seq<bytes>, trail: bytes)
    requires HeadArrives(env, msgs, head, reason, table, hs, end) && head.Head? && head.chunked && head.status >= 0
    requires Sized(blocks) && NoneEmpty(blocks) && ChunksArrive(Encode(blocks), trail, W.BodyCalls(end, d, cs))
    requires forall x :: env.finish(x) == []
    ensures W.GoesOnAs(env, msgs, hs, end, d, cs, Received(msgs, head, reason, table, Concat(blocks), trail),
                       seq(|cs|, _ => M.BODY_CHUNKED) + [M.DONE])
  {
    hide HeadOf, Recognises, D.Fed, D.CleanCuts, Fragments.EndsInTime, W.GoesOnAs, Lists, T.TableOk,
      W.HeadGiven, W.Read, W.Delimited, W.Over, S.StatusLine, Encode, C.Events, T.With;
    HeadIsGiven(env, msgs, head, reason, table, hs, end);
    ChunkedIsDelimited(env, end.flags, msgs, S.StatusLine(head.version, head.status, reason), head.status, table);
    W.EncodedMessageEnds(env, msgs, hs, end, d, cs, blocks, trail);
  }

  /**
   * Any finished response in chunks, whatever operations wrote it, is received by a parser that
   * reads its head from the wire: the headers, and as body the data that was written, however the
   * bytes are cut on the way.
   */
  lemma ChunkedResponseIsReceived(c: S.Context, table: seq<Field>, reason: bytes, env: M.Env, msgs: seq<Message>,
                                  hs: seq<W.HeadCall>, end: W.HeadEnd, d: bytes, cs: seq<M.Call>, trail: bytes)
    requires S.WireOk(c) && c.finished && BodyStream(c).Some? && Sized(S.Blocks(c.wire[1..]))
    requires c.wire[0].chunked && c.wire[0].status >= 0 && HeadArrives(env, msgs, c.wire[0], reason, table, hs, end)
    requires ChunksArrive(BodyStream(c).value, trail, W.BodyCalls(end, d, cs)) && forall x :: env.finish(x) == []
    ensures W.GoesOnAs(env, msgs, hs, end, d, cs,
      Received(msgs, c.wire[0], reason, table, Concat(S.Blocks(c.wire[1..])), trail),
      seq(|cs|, _ => M.BODY_CHUNKED) + [M.DONE])
  {
    hide S.WireOk, S.Blocks, HeadArrives, ChunksArrive, W.GoesOnAs, Received, Encode, S.BodyBytes;
    StreamIsEncoded(c);
    ChunkedIsReceived(c.wire[0], table, reason, env, msgs, hs, end, d, cs, S.Blocks(c.wire[1..]), trail);
  }

  // ---- any response of a given length

  /** A body and what trails it, cut anywhere, its last byte in the last call. */
  ghost predicate BytesArrive(body: bytes, trail: bytes, bs: seq<M.Call>) {
    && bs != [] && !bs[|bs| - 1].flags.greedy && M.Datas(bs) == body + trail
    && (if body == [] then |bs| == 1 else |M.Datas(bs[..|bs| - 1])| < |body|)
  }

  /** The same for a response that is not in chunks and whose head tells the length of its data. */
  lemma PlainIsReceived(head: S.Piece, table: seq<Field>, reason: bytes, env: M.Env, msgs: seq<Message>,
                        hs: seq<W.HeadCall>, end: W.HeadEnd, d: bytes, cs: seq<M.Call>, body: bytes, trail: bytes)
    requires HeadArrives(env, msgs, head, reason, table, hs, end) && head.Head? && head.status >= 0
    requires W.Delimited(env, end.flags, Announced(msgs, head, reason, table)) == M.Length(|body|)
    requires BytesArrive(body, trail, W.BodyCalls(end, d, cs))
    ensures W.GoesOnAs(env, msgs, hs, end, d, cs, Received(msgs, head, reason, table, body, trail),
                       seq(|cs|, _ => M.BODY_LENGTH) + [M.DONE])
  {
    hide HeadArrives, Announced, W.GoesOnAs, W.HeadGiven, W.Read, W.Delimited, W.Over, M.Datas;
    HeadIsGiven(env, msgs, head, reason, table, hs, end);
    W.DatasConcat(M.Call(d, end.flags), cs);
    var x, n := d + M.Datas(cs), |body|;
    assert x == body + trail && x[..n] == body && x[n..] == trail;
    W.LengthMessageEnds(env, msgs, hs, end, d, cs, n);
  }

  /** Any finished response that is not in chunks and whose head tells the length of its data. */
  lemma PlainResponseIsReceived(c: S.Context, table: seq<Field>, reason: bytes, env: M.Env, msgs: seq<Message>,
                                hs: seq<W.HeadCall>, end: W.HeadEnd, d: bytes, cs: seq<M.Call>, trail: bytes)
    requires S.WireOk(c) && c.finished && BodyStream(c).Some?
    requires !c.wire[0].chunked && c.wire[0].status >= 0 && HeadArrives(env, msgs, c.wire[0], reason, table, hs, end)
    requires W.Delimited(env, end.flags, Announced(msgs, c.wire[0], reason, table)) == M.Length(|Concat(S.Blocks(c.wire[1..]))|)
    requires BytesArrive(BodyStream(c).value, trail, W.BodyCalls(end, d, cs))
    ensures W.GoesOnAs(env, msgs, hs, end, d, cs,
      Received(msgs, c.wire[0], reason, table, Concat(S.Blocks(c.wire[1..])), trail),
      seq(|cs|, _ => M.BODY_LENGTH) + [M.DONE])
  {
    hide S.WireOk, S.Blocks, HeadArrives, BytesArrive, W.GoesOnAs, Received, S.BodyBytes, W.Delimited, Announced;
    StreamIsEncoded(c);
    PlainIsReceived(c.wire[0], table, reason, env, msgs, hs, end, d, cs, Concat(S.Blocks(c.wire[1..])), trail);
  }

  // ---- a range

  const ACCEPT_NAME := Lit("Accept-Ranges")

  function RangeTable(r: R.Range, length: nat): seq<Field>
    requires 0 <= r.begin && 0 <= r.end
  {
    [Field(ACCEPT_NAME, [Lit("bytes")]), Field(M.CONTENT_RANGE, [RangeText(r.begin, r.end, length)])]
  }

  lemma ContentRangeIs(r: R.Range, length: nat)
    requires 0 <= r.begin && 0 <= r.end
    ensures P.ContentRange(r, length) == T.LineText(M.CONTENT_RANGE, RangeText(r.begin, r.end, length))
  {
    hide Numeral, Lit;
    var a, b, c := Numeral(r.begin), Numeral(r.end), Numeral(length);
    var n, y := Lit("Content-Range"), Lit("bytes ");
    assert Lit("Content-Range: bytes ") == n + ([58, SP] + y) by {
      LitLine("Content-Range", "bytes ");
      assert "Content-Range" + ": " + "bytes " == "Content-Range: bytes ";
    }
    assert (n + ([58, SP] + y)) + a + [45] + b + [47] + c == n + ([58, SP] + (y + (a + ([45] + (b + ([47] + c))))));
  }

  lemma AcceptRangesIs()
    ensures P.ACCEPT_RANGES == T.LineText(ACCEPT_NAME, Lit("bytes"))
  {
    LitLine("Accept-Ranges", "bytes");
    assert "Accept-Ranges" + ": " + "bytes" == "Accept-Ranges: bytes";
  }

  lemma RangeTableLines(r: R.Range, length: nat)
    requires 0 <= r.begin && 0 <= r.end
    ensures PairLines(T.Pairs(RangeTable(r, length))) == [P.ACCEPT_RANGES, P.ContentRange(r, length)]
  {
    hide P.ContentRange, T.LineText, T.Pairs, PairLines, RangeText, Lit;
    var f, g := Field(ACCEPT_NAME, [Lit("bytes")]), Field(M.CONTENT_RANGE, [RangeText(r.begin, r.end, length)]);
    assert RangeTable(r, length) == [f] + [g];
    PairsConcat([f], [g]);
    PairLinesConcat(T.Pairs([f]), T.Pairs([g]));
    OnePair(f.name, f.values[0]);
    OnePair(g.name, g.values[0]);
    assert f.values == [f.values[0]] && g.values == [g.values[0]];
    ContentRangeIs(r, length);
    AcceptRangesIs();
  }

  lemma AcceptNameOk()
    ensures var k := ACCEPT_NAME; k != [] && H.IsName(k) && Canonical(k) == k && k[0] == 65
  {
    hide Canonical, H.IsName;
    var a, b := Lit("Accept"), Lit("Ranges");
    assert a == [65, 99, 99, 101, 112, 116] && b == [82, 97, 110, 103, 101, 115];
    assert "Accept" + "-" + "Ranges" == "Accept-Ranges";
    NameIsTitles("Accept", "Ranges");
    TitlesAreCanonical(a, b);
  }

  lemma WordsAreOk()
    ensures T.ValueOk(Lit("bytes")) && T.ValueOk(Lit("chunked"))
  {
    var a, b := Lit("bytes"), Lit("chunked");
    assert a == [98, 121, 116, 101, 115];
    assert b == [99, 104, 117, 110, 107, 101, 100];
    NoCapitalH(a);
    NoCapitalH(b);
  }

  lemma NoCapitalH(t: bytes)
    requires 72 !in t
    ensures !T.HasHttp(t)
  {
    forall i: nat ensures !T.HttpAt(t, i) {
      if i < |t| { assert t[i] in t; }
    }
  }

  /** The bytes of a printed range: letters, digits and the three marks. */
  lemma RangeTextIsOk(first: nat, last: nat, total: nat)
    ensures T.ValueOk(RangeText(first, last, total))
  {
    hide Numeral, T.HasHttp, L.TextOk, Lit;
    var p, a, b, c := Lit("bytes "), Numeral(first), Numeral(last), Numeral(total);
    var t := RangeText(first, last, total);
    assert L.TextOk(p) && 72 !in p && p[0] == 98 && |p| == 6 by { BytesWord(); }
    assert L.TextOk([45]) && L.TextOk([47]) by { MarksAreText(); }
    DigitsAreText(a);
    DigitsAreText(b);
    DigitsAreText(c);
    TextJoins([47], c);
    TextJoins(b, [47] + c);
    TextJoins([45], b + ([47] + c));
    TextJoins(a, [45] + (b + ([47] + c)));
    TextJoins(p, a + ([45] + (b + ([47] + c))));
    NoHInDigits(a);
    NoHInDigits(b);
    NoHInDigits(c);
    NoCapitalH(t);
    assert t[0] == p[0] && t[|t| - 1] == c[|c| - 1];
  }

  lemma BytesWord() ensures var p := Lit("bytes "); L.TextOk(p) && 72 !in p && p[0] == 98 && |p| == 6 {
    var p := Lit("bytes ");
    assert p == [98, 121, 116, 101, 115, 32];
  }

  lemma MarksAreText() ensures L.TextOk([45]) && L.TextOk([47]) {}
  lemma NoHInDigits(d: bytes) requires AllDigits(d) ensures 72 !in d {}

  lemma RangeTableOk(head: S.Piece, r: R.Range, length: nat)
    requires 0 <= r.begin && 0 <= r.end && head.Head?
    ensures T.TableOk(Fields(head, RangeTable(r, length)))
  {
    hide H.IsName, Canonical, T.ValueOk, RangeText, Lit;
    AcceptNameOk();
    RangeNameOk();
    ChunkedNameOk();
    WordsAreOk();
    RangeTextIsOk(r.begin, r.end, length);
    var fs := Fields(head, RangeTable(r, length));
    forall i | 0 <= i < |fs| ensures T.FieldOk(fs[i]) {}
  }

  lemma RangeIsDelimited(env: M.Env, fl: M.Flags, msgs: seq<Message>, line: bytes, r: R.Range, length: nat)
    requires KeepsBody(fl, 206) && 0 <= r.begin <= r.end < length <= ULONG_MAX
    ensures W.Delimited(env, fl, T.With(msgs, Some(Response(line, 206)), RangeTable(r, length)))
      == M.Length(r.end + 1 - r.begin)
  {
    hide M.Rewritten, RangeLength, Canonical, RangeText, Lit;
    var fs, t := RangeTable(r, length), RangeText(r.begin, r.end, length);
    var ms := T.With(msgs, Some(Response(line, 206)), fs);
    assert Last(M.Opened(ms)) == Message(Some(Response(line, 206)), fs, []);
    AcceptNameOk();
    RangeNameOk();
    ChunkedNameOk();
    assert fs[1..] == [fs[1]] && fs[1..][1..] == [];
    assert FindField(fs, M.CONTENT_RANGE) == 1 && FindField(fs, M.TRANSFER_ENCODING) == 2;
    RangeLengthOfText(r.begin, r.end, length);
  }

  predicate InChunks(request: Option<S.Request>) {
    request.None? || (request.value.version != S.Version(1, 0) && !request.value.connect)
  }

  /** The head of a range response. */
  function RangeHead(request: Option<S.Request>, r: R.Range, length: nat): S.Piece
    requires 0 <= r.begin && 0 <= r.end
  {
    S.Head(S.Initial(request).version, 206, [P.ACCEPT_RANGES, P.ContentRange(r, length)], InChunks(request))
  }

  /** What a range response sends behind its head. */
  ghost function RangeStream(request: Option<S.Request>, body: bytes, r: R.Range, size: nat): Option<bytes>
    requires 0 <= r.begin <= r.end < |body| && size > 0
  {
    BodyStream(S.Run(S.Initial(request), P.RangeOps(body, r, size)))
  }

  lemma HeadIsRangeHead(request: Option<S.Request>, body: bytes, r: R.Range, size: nat)
    requires 0 <= r.begin <= r.end < |body| && size > 0
    ensures var c := S.Run(S.Initial(request), P.RangeOps(body, r, size));
      c.wire != [] && c.wire[0] == RangeHead(request, r, |body|)
  {
    hide S.Run, P.RangeOps, P.ContentRange, S.Lines, S.HasContentLength, S.Blocks, P.BlocksSent, S.PutLine;
    var c0, line := S.Initial(request), P.ContentRange(r, |body|);
    S.InitialIsOk(request);
    S.RunKeepsOrder(c0, P.RangeOps(body, r, size));
    P.RangeWire(c0, body, r, size);
    P.RangeIsChunkedIff(request, body, r, size);
    P.NotContentLength(r, |body|);
    P.RangeLines(request, line);
  }

  /**
   * A range response is sent in chunks exactly when the request is neither HTTP/1.0 nor a CONNECT;
   * the blocks then make up the range, and the bytes are the range itself otherwise.
   */
  lemma RangeIsSent(request: Option<S.Request>, body: bytes, r: R.Range, size: nat)
    requires 0 <= r.begin <= r.end < |body| && 0 < size <= ULONG_MAX
    ensures var part := body[r.begin..r.end + 1];
      var blocks := P.BlocksSent(part, size);
      && Sized(blocks) && NoneEmpty(blocks) && Concat(blocks) == part
      && RangeStream(request, body, r, size) == Some(if InChunks(request) then Encode(blocks) else part)
  {
    hide S.Run, P.RangeOps, BodyStream, Encode, P.BlocksSent, S.WireOk, S.Blocks, P.ContentRange, S.Lines,
      P.HeadChanged, S.HasContentLength, S.ForbidsChunked;
    var c0 := S.Initial(request);
    var c := S.Run(c0, P.RangeOps(body, r, size));
    S.InitialIsOk(request);
    S.RunKeepsOrder(c0, P.RangeOps(body, r, size));
    P.RangeWire(c0, body, r, size);
    HeadIsRangeHead(request, body, r, size);
    StreamIsThere(c);
    StreamIsEncoded(c);
    P.BlocksAreSlice(body[r.begin..r.end + 1], size);
  }

  /**
   * A range that is sent in answer to any request is received as exactly those bytes of the body, by
   * a parser that starts with the status line: in chunks where the head says so, by the length that
   * its Content-Range states otherwise, and however the bytes are cut on the way.
   */
  lemma RangeIsReceived(request: Option<S.Request>, body: bytes, r: R.Range, size: nat, reason: bytes,
                        env: M.Env, msgs: seq<Message>, hs: seq<W.HeadCall>, end: W.HeadEnd, d: bytes,
                        cs: seq<M.Call>, stream: bytes, trail: bytes)
    requires 0 <= r.begin <= r.end < |body| <= ULONG_MAX && 0 < size <= ULONG_MAX
    requires RangeStream(request, body, r, size) == Some(stream)
    requires LinesArrive(env, msgs, RangeHead(request, r, |body|), reason, hs, end)
    requires if InChunks(request) then ChunksArrive(stream, trail, W.BodyCalls(end, d, cs)) && forall x :: env.finish(x) == []
             else BytesArrive(stream, trail, W.BodyCalls(end, d, cs))
    ensures var head, part := RangeHead(request, r, |body|), body[r.begin..r.end + 1];
      W.GoesOnAs(env, msgs, hs, end, d, cs, Received(msgs, head, reason, RangeTable(r, |body|), part, trail),
                 seq(|cs|, _ => if InChunks(request) then M.BODY_CHUNKED else M.BODY_LENGTH) + [M.DONE])
  {
    hide RangeStream, Encode, W.GoesOnAs, P.BlocksSent, ChunksArrive, BytesArrive, Received, T.TableOk, RangeTable, PairLines,
      T.Pairs, P.ContentRange, LinesArrive, InChunks, W.Delimited, T.With, S.StatusLine;
    var head, part, table := RangeHead(request, r, |body|), body[r.begin..r.end + 1], RangeTable(r, |body|);
    RangeIsSent(request, body, r, size);
    RangeTableLines(r, |body|);
    RangeTableOk(head, r, |body|);
    if InChunks(request) {
      ChunkedIsReceived(head, table, reason, env, msgs, hs, end, d, cs, P.BlocksSent(part, size), trail);
      assert seq(|cs|, _ => if InChunks(request) then M.BODY_CHUNKED else M.BODY_LENGTH) == seq(|cs|, _ => M.BODY_CHUNKED);
    } else {
      assert KeepsBody(end.flags, 206) by { ArrivalKeepsBody(env, msgs, head, reason, hs, end); }
      assert table + [] == table;
      RangeIsDelimited(env, end.flags, msgs, S.StatusLine(head.version, 206, reason), r, |body|);
      PlainIsReceived(head, table, reason, env, msgs, hs, end, d, cs, part, trail);
      assert seq(|cs|, _ => if InChunks(request) then M.BODY_CHUNKED else M.BODY_LENGTH) == seq(|cs|, _ => M.BODY_LENGTH);
    }
  }

  lemma ArrivalKeepsBody(env: M.Env, msgs: seq<Message>, head: S.Piece, reason: bytes, hs: seq<W.HeadCall>, end: W.HeadEnd)
    requires head.Head? && head.status >= 0 && LinesArrive(env, msgs, head, reason, hs, end)
    ensures KeepsBody(end.flags, head.status)
  {}

  lemma OneCallArrives(stream: bytes, trail: bytes, c: M.Call)
    requires c.data == stream + trail && !c.flags.greedy
    ensures ChunksArrive(stream, trail, [c]) && BytesArrive(stream, trail, [c])
  {
    hide D.Fed, D.CleanCuts, Fragments.EndsInTime;
    var bs := [c];
    assert bs[..0] == [] && bs[1..] == [] && M.Datas([]) == [];
    assert c.data + [] == c.data;
    assert C.Events([]) + [D.Feed(c.data)] == [D.Feed(c.data)];
    C.OneFeedIsClean(c.data);
  }

  lemma HeadIsThere(head: S.Piece, reason: bytes)
    requires head.Head? && head.status >= 0
    ensures S.HeadBytes(head, reason) != []
  {
    hide S.LinesText, S.HeadLines;
  }

  lemma OnePiece(info: InfoParser, msgs: seq<Message>, end: W.HeadEnd)
    requires end.data == L.Text(end.all) && end.data != []
    ensures W.ComesInPieces(info, msgs, [], end)
  {
    hide L.Text;
    assert Concat(W.Pieces([])) + end.data == end.data;
  }

  /** A message in one call is that call and nothing else. */
  lemma OneIsAll(env: M.Env, msgs: seq<Message>, end: W.HeadEnd, d: bytes, k: M.Machine)
    requires W.GoesOnAs(env, msgs, [], end, d, [], k, [M.DONE])
    ensures M.AtRest(M.Fresh(msgs))
    ensures M.Calls(env, M.Fresh(msgs), [M.Call(end.data + d, end.flags)]) == (k, [M.DONE])
  {
    hide M.Calls, M.AtRest;
    M.FreshRests(msgs);
    var c := M.Call(end.data + d, end.flags);
    assert W.MessageCalls([], end, d, []) == [c];
    var ss := M.Calls(env, M.Fresh(msgs), [c]).1;
    assert ss[0..] == ss;
  }

  /** The whole wire, head and body and what trails them, in one call. */
  lemma RangeIsReceivedAtOnce(request: Option<S.Request>, body: bytes, r: R.Range, size: nat, reason: bytes,
                              env: M.Env, fl: M.Flags, msgs: seq<Message>, stream: bytes, trail: bytes)
    requires 0 <= r.begin <= r.end < |body| <= ULONG_MAX && 0 < size <= ULONG_MAX
    requires RangeStream(request, body, r, size) == Some(stream)
    requires Recognises(env.info, RangeHead(request, r, |body|), reason) && Ready(msgs) && forall x :: env.finish(x) == []
    requires !fl.dumbBodies && !fl.greedy
    ensures var head := RangeHead(request, r, |body|);
      var line := S.StatusLine(head.version, 206, reason);
      var got := Message(Some(Response(line, 206)), M.Rewritten(Fields(head, RangeTable(r, |body|))), body[r.begin..r.end + 1]);
      && M.AtRest(M.Fresh(msgs))
      && M.Calls(env, M.Fresh(msgs), [M.Call(S.HeadBytes(head, reason) + (stream + trail), fl)])
         == (M.Fresh(msgs + [got]).(buffer := M.Strip(trail)), [M.DONE])
  {
    hide RangeStream, Recognises, InChunks, P.ContentRange, M.Calls, M.AtRest, S.HeadBytes, HeadOf, RangeTable, M.Rewritten,
      M.Strip, S.StatusLine;
    var head, d := RangeHead(request, r, |body|), stream + trail;
    var end := W.HeadEnd(HeadOf(head, reason), S.HeadBytes(head, reason), fl);
    var c := M.Call(d, fl);
    HeadIsText(head, reason);
    HeadIsThere(head, reason);
    assert W.ComesInPieces(env.info, msgs, [], end) by { OnePiece(env.info, msgs, end); }
    assert LinesArrive(env, msgs, head, reason, [], end);
    assert W.BodyCalls(end, d, []) == [c];
    RangeIsSent(request, body, r, size);
    assert ChunksArrive(stream, trail, [c]) && BytesArrive(stream, trail, [c]) by { OneCallArrives(stream, trail, c); }
    RangeIsReceived(request, body, r, size, reason, env, msgs, [], end, d, [], stream, trail);
    HeadIsText(head, reason);
    ReceivedIs(msgs, head, reason, RangeTable(r, |body|), body[r.begin..r.end + 1], trail);
    var k := Received(msgs, head, reason, RangeTable(r, |body|), body[r.begin..r.end + 1], trail);
    assert seq(0, _ => if InChunks(request) then M.BODY_CHUNKED else M.BODY_LENGTH) + [M.DONE] == [M.DONE];
    OneIsAll(env, msgs, end, d, k);
  }

  /**
   * From the Range header to the received message: for every body and every spec that the standard
   * satisfies and the scanner does not depart on, the range is found, sent and received.
   */
  lemma RequestedRangeIsReceived(request: Option<S.Request>, body: bytes, spec: R.Spec, size: nat, reason: bytes,
                                 env: M.Env, fl: M.Flags, msgs: seq<Message>, trail: bytes)
    requires 0 < |body| <= ULONG_MAX && 0 < size <= ULONG_MAX
    requires R.Selects(spec, |body|).Some? && !R.Departs(spec, |body|)
    requires Recognises(env.info, RangeHead(request, Chosen(spec, |body|), |body|), reason)
    requires Ready(msgs) && !fl.dumbBodies && !fl.greedy && forall x :: env.finish(x) == []
    ensures var r := Chosen(spec, |body|);
      var head, stream := RangeHead(request, r, |body|), RangeStream(request, body, r, size);
      && R.Scan(Some(R.BYTES_EQ + R.SpecsText([spec])), |body|) == R.Ok([r])
      && stream.Some? && M.AtRest(M.Fresh(msgs))
      && var (k, ss) := M.Calls(env, M.Fresh(msgs), [M.Call(S.HeadBytes(head, reason) + (stream.value + trail), fl)]);
         && ss == [M.DONE] && k.buffer == M.Strip(trail) && |k.msgs| == |msgs| + 1
         && Last(k.msgs).body == body[r.begin..r.end + 1]
  {
    hide RangeStream, Recognises, P.ContentRange, M.Calls, M.AtRest, S.HeadBytes, R.Scan, R.SpecsText, M.Rewritten, RangeTable,
      Encode, P.BlocksSent, M.Strip, S.StatusLine, Fields, InChunks;
    var r := Chosen(spec, |body|);
    R.SpecIsMeantIff(spec, |body|);
    P.OneIsMeant(spec, |body|);
    RangeIsSent(request, body, r, size);
    RangeIsReceivedAtOnce(request, body, r, size, reason, env, fl, msgs, RangeStream(request, body, r, size).value, trail);
  }

  /** The range that a spec selects. */
  function Chosen(spec: R.Spec, length: nat): (r: R.Range)
    requires length > 0 && R.Selects(spec, length).Some?
    ensures 0 <= r.begin <= r.end < length
  {
    R.Selects(spec, length).value
  }

  // ---- an explicit length

  lemma SmallLength()
    ensures S.CONTENT_LENGTH == [99, 111, 110, 116, 101, 110, 116] + ([45] + [108, 101, 110, 103, 116, 104]) + [58]
  {
    assert "content" + "-" + "length" + ":" == "content-length:";
    LitConcat("content" + "-" + "length", ":");
    NameIsTitles("content", "length");
    var a, b := Lit("content"), Lit("length");
    assert a == [99, 111, 110, 116, 101, 110, 116] && b == [108, 101, 110, 103, 116, 104];
    assert Lit(":") == [58];
  }

  /** The printed line is one that switches chunked coding off. */
  lemma LengthLineIsSeen(value: bytes)
    ensures S.IsContentLength(T.LineText(M.CONTENT_LENGTH, value))
  {
    hide Canonical;
    LengthNameOk();
    SmallLength();
    var k, s, t := M.CONTENT_LENGTH, S.CONTENT_LENGTH, T.LineText(M.CONTENT_LENGTH, value);
    assert |k| == 14 && |s| == 15;
    assert forall i :: 0 <= i < 14 ==> t[i] == k[i];
    assert t[14] == 58;
    forall i | 0 <= i < 15 ensures ToLower(t[i]) == s[i] {
      if i < 7 { assert t[i] == k[i]; } else if i < 14 { assert t[i] == k[i]; }
    }
  }

  lemma {:induction false} LineIsPrinted(table: seq<Field>, j: nat)
    requires j < |table| && |table[j].values| == 1
    ensures T.LineText(table[j].name, table[j].values[0]) in PairLines(T.Pairs(table))
    decreases |table|
  {
    hide T.LineText, PairLines;
    var f, rest := table[0], table[1..];
    assert table == [f] + rest;
    PairsConcat([f], rest);
    PairLinesConcat(T.Pairs([f]), T.Pairs(rest));
    if j == 0 {
      assert f.values == [f.values[0]];
      OnePair(f.name, f.values[0]);
    } else {
      LineIsPrinted(rest, j - 1);
    }
  }

  lemma FoundAt(fs: seq<Field>, j: nat)
    requires j < |fs| && forall i, k :: 0 <= i < k < |fs| ==> fs[i].name != fs[k].name
    ensures FindField(fs, fs[j].name) == j
  {
    hide FindField;
  }

  lemma NotFound(fs: seq<Field>, name: bytes)
    requires forall i :: 0 <= i < |fs| ==> fs[i].name != name
    ensures FindField(fs, name) == |fs|
  {
    hide FindField;
  }

  /** A table with a Content-Length, and without what would go before it. */
  ghost predicate TellsLength(table: seq<Field>, j: nat, n: nat) {
    && j < |table| && table[j] == Field(M.CONTENT_LENGTH, [Numeral(n)])
    && forall i :: 0 <= i < |table| ==> table[i].name != M.TRANSFER_ENCODING && table[i].name != M.CONTENT_RANGE
  }

  lemma LengthIsDelimited(env: M.Env, fl: M.Flags, msgs: seq<Message>, line: bytes, status: nat, table: seq<Field>, j: nat, n: nat)
    requires KeepsBody(fl, status) && T.TableOk(table) && TellsLength(table, j, n) && env.toLong([Numeral(n)]) == n
    ensures W.Delimited(env, fl, T.With(msgs, Some(Response(line, status)), table)) == M.Length(n)
  {
    hide M.Rewritten, RangeLength, Canonical, Lit, Numeral, FindField, T.FieldOk;
    var ms := T.With(msgs, Some(Response(line, status)), table);
    assert Last(M.Opened(ms)) == Message(Some(Response(line, status)), table, []);
    LengthNameOk();
    RangeNameOk();
    ChunkedNameOk();
    FoundAt(table, j);
    NotFound(table, M.TRANSFER_ENCODING);
    NotFound(table, M.CONTENT_RANGE);
  }

  /**
   * Any finished response whose headers state the length of the data written is never in chunks, and
   * is received with that data, given that PHP reads a numeral as its number.
   */
  lemma LengthResponseIsReceived(c: S.Context, table: seq<Field>, j: nat, reason: bytes, env: M.Env, msgs: seq<Message>,
                                 hs: seq<W.HeadCall>, end: W.HeadEnd, d: bytes, cs: seq<M.Call>, trail: bytes)
    requires S.WireOk(c) && c.finished && BodyStream(c).Some? && c.wire[0].status >= 0
    requires HeadArrives(env, msgs, c.wire[0], reason, table, hs, end)
    requires var n := |Concat(S.Blocks(c.wire[1..]))|; TellsLength(table, j, n) && env.toLong([Numeral(n)]) == n
    requires BytesArrive(BodyStream(c).value, trail, W.BodyCalls(end, d, cs))
    ensures !c.wire[0].chunked
    ensures W.GoesOnAs(env, msgs, hs, end, d, cs,
      Received(msgs, c.wire[0], reason, table, Concat(S.Blocks(c.wire[1..])), trail),
      seq(|cs|, _ => M.BODY_LENGTH) + [M.DONE])
  {
    hide S.WireOk, S.Blocks, BytesArrive, W.GoesOnAs, Received, S.BodyBytes, W.Delimited, T.TableOk, PairLines, T.Pairs,
      LinesArrive, Numeral, T.With, S.StatusLine;
    var head, n := c.wire[0], |Concat(S.Blocks(c.wire[1..]))|;
    LineIsPrinted(table, j);
    LengthLineIsSeen(Numeral(n));
    assert S.HasContentLength(head.lines);
    assert !head.chunked by { LengthIsNotChunked(c); }
    assert table + [] == table;
    assert KeepsBody(end.flags, head.status) by { ArrivalKeepsBody(env, msgs, head, reason, hs, end); }
    LengthIsDelimited(env, end.flags, msgs, S.StatusLine(head.version, head.status, reason), head.status, table, j, n);
    PlainResponseIsReceived(c, table, reason, env, msgs, hs, end, d, cs, trail);
  }

  lemma LengthIsNotChunked(c: S.Context)
    requires S.WireOk(c) && c.wire != [] && c.wire[0].Head? && S.HasContentLength(c.wire[0].lines)
    ensures !c.wire[0].chunked
  {
    hide S.HasContentLength, S.ForbidsChunked;
  }
}
