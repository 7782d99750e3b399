/** What a head says about its message: the headers that are rewritten, and how the body is delimited. */
module MessageHeads {
  import opened Bytes
  import opened Decimals
  import opened HeaderNames
  import opened Messages
  import opened MessageParser
  import opened WholeMessages
  import opened KnownNames
  import opened RangeHeader
  import Dechunk
  import H = HeaderParser
  import L = HeaderLines

  // ---- headers

  /** The values under a name as it stands in the table. */
  function Under(hs: seq<Field>, name: bytes): Option<seq<bytes>> {
    var i := FindField(hs, name);
    if i < |hs| then Some(hs[i].values) else None
  }

  ghost predicate Distinct(hs: seq<Field>) { forall i, j :: 0 <= i < j < |hs| ==> hs[i].name != hs[j].name }

  lemma FoundAt(hs: seq<Field>, name: bytes, i: nat)
    requires i < |hs| && hs[i].name == name && forall j :: 0 <= j < i ==> hs[j].name != name
    ensures Under(hs, name) == Some(hs[i].values)
  {}

  lemma NotFound(hs: seq<Field>, name: bytes)
    requires forall j :: 0 <= j < |hs| ==> hs[j].name != name
    ensures Under(hs, name) == None
  {}

  lemma SetIs(hs: seq<Field>, name: bytes, vs: seq<bytes>, n: bytes)
    ensures var r := SetField(hs, name, vs);
      Under(r, n) == (if n == name then Some(vs) else Under(hs, n)) && (Distinct(hs) ==> Distinct(r))
  {
    hide FindField;
    var i, j, r := FindField(hs, name), FindField(hs, n), SetField(hs, name, vs);
    assert forall k :: 0 <= k < |hs| && k != i ==> r[k] == hs[k];
    assert r[i] == Field(name, vs);
    if n == name {
      FoundAt(r, n, i);
    } else if j < |hs| {
      FoundAt(r, n, j);
    } else {
      NotFound(r, n);
    }
  }

  lemma DropIs(hs: seq<Field>, name: bytes, n: bytes)
    requires Distinct(hs)
    ensures var r := DropField(hs, name); Under(r, n) == (if n == name then None else Under(hs, n)) && Distinct(r)
  {
    hide FindField;
    var i, j, r := FindField(hs, name), FindField(hs, n), DropField(hs, name);
    assert forall k :: 0 <= k < |r| ==> r[k] == if k < i then hs[k] else hs[k + 1];
    if n == name || j == |hs| {
      NotFound(r, n);
    } else {
      FoundAt(r, n, if j < i then j else j - 1);
    }
  }

  const ORIGINAL_ENCODING := Lit("X-Original-Transfer-Encoding")
  const ORIGINAL_LENGTH := Lit("X-Original-Content-Length")

  lemma NamesDiffer()
    ensures TRANSFER_ENCODING != CONTENT_LENGTH && TRANSFER_ENCODING != CONTENT_RANGE && CONTENT_LENGTH != CONTENT_RANGE
    ensures ORIGINAL_ENCODING !in {TRANSFER_ENCODING, CONTENT_LENGTH, CONTENT_RANGE, ORIGINAL_LENGTH}
    ensures ORIGINAL_LENGTH !in {TRANSFER_ENCODING, CONTENT_LENGTH, CONTENT_RANGE}
  {
    assert |TRANSFER_ENCODING| == 17 && |CONTENT_LENGTH| == 14 && |CONTENT_RANGE| == 13;
    assert |ORIGINAL_ENCODING| == 28 && |ORIGINAL_LENGTH| == 25;
  }

  lemma LookupIsUnder(hs: seq<Field>)
    ensures Lookup(hs, TRANSFER_ENCODING) == Under(hs, TRANSFER_ENCODING)
    ensures Lookup(hs, CONTENT_LENGTH) == Under(hs, CONTENT_LENGTH)
    ensures Lookup(hs, CONTENT_RANGE) == Under(hs, CONTENT_RANGE)
  {
    hide Canonical, FindField, H.IsName;
    ChunkedNameOk();
    LengthNameOk();
    RangeNameOk();
  }

  /** The headers as they are after the Transfer-Encoding or the length has been put aside. */
  lemma LengthIsPutAside(hs: seq<Field>, n: bytes)
    requires Distinct(hs)
    ensures var te, cl := Under(hs, TRANSFER_ENCODING), Under(hs, CONTENT_LENGTH);
      var r := PutAside(hs);
      Distinct(r) && Under(r, n) ==
        if te.Some? then
          if n == ORIGINAL_ENCODING then te
          else if n == TRANSFER_ENCODING then None
          else if n == CONTENT_LENGTH then Some([Lit("0")])
          else Under(hs, n)
        else if cl.Some? && n == ORIGINAL_LENGTH then cl
        else Under(hs, n)
  {
    hide Under, SetField, DropField, Lookup, Lit;
    LookupIsUnder(hs);
    NamesDiffer();
    var te, cl := Under(hs, TRANSFER_ENCODING), Under(hs, CONTENT_LENGTH);
    if te.Some? {
      var a := SetField(hs, ORIGINAL_ENCODING, te.value);
      SetIs(hs, ORIGINAL_ENCODING, te.value, n);
      DropIs(a, TRANSFER_ENCODING, n);
      SetIs(DropField(a, TRANSFER_ENCODING), CONTENT_LENGTH, [Lit("0")], n);
    } else if cl.Some? {
      SetIs(hs, ORIGINAL_LENGTH, cl.value, n);
    }
  }

  function PutAside(hs: seq<Field>): seq<Field> {
    var te, cl := Lookup(hs, TRANSFER_ENCODING), Lookup(hs, CONTENT_LENGTH);
    if te.Some? then
      SetField(DropField(SetField(hs, ORIGINAL_ENCODING, te.value), TRANSFER_ENCODING), CONTENT_LENGTH, [Lit("0")])
    else if cl.Some? then SetField(hs, ORIGINAL_LENGTH, cl.value)
    else hs
  }

  /**
   * What a head leaves in the table: a Transfer-Encoding is put aside under another name, and the
   * length then says 0; otherwise the length is kept, and stands under another name too. The values
   * of a Content-Range are joined into one. All other headers stay.
   */
  lemma RewrittenIs(hs: seq<Field>, n: bytes)
    requires Distinct(hs)
    ensures var te, cl, cr := Under(hs, TRANSFER_ENCODING), Under(hs, CONTENT_LENGTH), Under(hs, CONTENT_RANGE);
      Under(Rewritten(hs), n) ==
        if n == CONTENT_RANGE && cr.Some? then Some([Joined(cr.value)])
        else if te.Some? then
          if n == ORIGINAL_ENCODING then te
          else if n == TRANSFER_ENCODING then None
          else if n == CONTENT_LENGTH then Some([Lit("0")])
          else Under(hs, n)
        else if cl.Some? && n == ORIGINAL_LENGTH then cl
        else Under(hs, n)
  {
    hide Under, SetField, DropField, Lookup, Lit, Joined;
    NamesDiffer();
    var r := PutAside(hs);
    LengthIsPutAside(hs, n);
    LengthIsPutAside(hs, CONTENT_RANGE);
    LookupIsUnder(r);
    if Under(hs, CONTENT_RANGE).Some? {
      SetIs(r, CONTENT_RANGE, [Joined(Under(hs, CONTENT_RANGE).value)], n);
    }
  }

  // ---- values joined

  function Commaed(vs: seq<bytes>): bytes {
    if vs == [] then [] else if |vs| == 1 then vs[0] else vs[0] + [44, SP] + Commaed(vs[1..])
  }

  lemma {:induction false} NoNulBefore(s: bytes)
    requires NUL !in s
    ensures BeforeNul(s) == s
  {
    if s != [] { NoNulBefore(s[1..]); }
  }

  lemma {:induction false} JoinIs(text: bytes, vs: seq<bytes>)
    requires text != [] && forall i :: 0 <= i < |vs| ==> NUL !in vs[i]
    ensures JoinTo(text, vs) == if vs == [] then text else text + ([44, SP] + Commaed(vs))
    decreases |vs|
  {
    if vs != [] {
      NoNulBefore(vs[0]);
      JoinIs(text + [44, SP] + vs[0], vs[1..]);
      JoinStep(text, vs[0], Commaed(vs[1..]));
    }
  }

  lemma JoinStep(text: bytes, a: bytes, rest: bytes)
    ensures text + [44, SP] + a == text + ([44, SP] + a)
    ensures (text + [44, SP] + a) + ([44, SP] + rest) == text + ([44, SP] + (a + [44, SP] + rest))
  {}

  /** Values without a NUL, of which the first is not empty, are joined by a comma and a space. */
  lemma JoinedIs(vs: seq<bytes>)
    requires vs != [] && vs[0] != [] && forall i :: 0 <= i < |vs| ==> NUL !in vs[i]
    ensures Joined(vs) == Commaed(vs)
  {
    hide JoinTo;
    if |vs| > 1 {
      NoNulBefore(vs[0]);
      JoinStarts(vs);
      JoinIs(vs[0], vs[1..]);
      assert vs[0] + ([44, SP] + Commaed(vs[1..])) == vs[0] + [44, SP] + Commaed(vs[1..]);
    }
  }

  lemma JoinStarts(vs: seq<bytes>)
    requires vs != [] && BeforeNul(vs[0]) == vs[0]
    ensures JoinTo([], vs) == JoinTo(vs[0], vs[1..])
  {
    assert [] + vs[0] == vs[0];
  }

  // ---- how the body is delimited

  /** A redirect whose body is not read: status 3xx, a Location, and a Connection that says close. */
  ghost predicate ClosedRedirect(env: Env, msg: Message) {
    && msg.info.Some? && msg.info.value.Response? && 300 <= msg.info.value.code <= 399
    && Lookup(msg.headers, Lit("Location")).Some?
    && exists v :: Lookup(msg.headers, Lit("Connection")) == Some([v]) && env.closes(v)
  }

  /** No range that gives a length. */
  ghost predicate NoRange(msg: Message) {
    Lookup(msg.headers, CONTENT_RANGE).Some? ==> RangeLength(Joined(Lookup(msg.headers, CONTENT_RANGE).value)).None?
  }

  ghost predicate NoLength(env: Env, msg: Message) {
    || Lookup(msg.headers, TRANSFER_ENCODING).Some?
    || Lookup(msg.headers, CONTENT_LENGTH).None?
    || env.toLong(Lookup(msg.headers, CONTENT_LENGTH).value) < 0
  }

  ghost predicate SaysChunked(msg: Message) { Lookup(msg.headers, TRANSFER_ENCODING) == Some([Lit("chunked")]) }

  /** The length of the range, if there is one, and otherwise that of the entity. */
  ghost predicate SaysLength(env: Env, msg: Message, n: nat) {
    if NoRange(msg) then !NoLength(env, msg) && env.toLong(Lookup(msg.headers, CONTENT_LENGTH).value) == n
    else RangeLength(Joined(Lookup(msg.headers, CONTENT_RANGE).value)).value == n
  }

  ghost predicate SaysNothing(env: Env, msg: Message) { !SaysChunked(msg) && NoRange(msg) && NoLength(env, msg) }

  lemma ArrayIsNotChunked() ensures Lit("Array") != Lit("chunked") {
    assert |Lit("Array")| == 5 && |Lit("chunked")| == 7;
  }

  lemma SaysChunkedIff(msg: Message)
    ensures var te := Lookup(msg.headers, TRANSFER_ENCODING);
      SaysChunked(msg) <==> te.Some? && PlainText(te.value) == Lit("chunked")
  {
    hide Lookup, Lit;
    ArrayIsNotChunked();
    var te := Lookup(msg.headers, TRANSFER_ENCODING);
    if te.Some? && |te.value| == 1 { assert te.value == [te.value[0]]; }
  }

  /**
   * Which heads give which framing, as section 6.3 of RFC 9112 orders it, with the length of a range in
   * front of that of the entity: the chunked coding, if it is the one encoding; then a range; then a
   * length; a request has no body otherwise, and a response one without a length.
   */
  lemma FramingIff(env: Env, fl: Flags, msg: Message)
    ensures var r := FramingOf(env, fl, msg);
      && (r == Chunked <==> !fl.dumbBodies && SaysChunked(msg))
      && (forall n :: r == Length(n) <==> !fl.dumbBodies && !SaysChunked(msg) && SaysLength(env, msg, n))
      && (r == NoBody <==> !fl.dumbBodies && SaysNothing(env, msg) && msg.info.Some? && msg.info.value.Request?)
      && (r == Dumb <==> fl.dumbBodies || (SaysNothing(env, msg) && !(msg.info.Some? && msg.info.value.Request?)))
  {
    hide Lookup, Joined, RangeLength, PlainText, SaysChunked, Lit;
    SaysChunkedIff(msg);
  }

  /** A head whose body is not read at all: that of a closed redirect with EMPTY_REDIRECTS, or as above. */
  lemma NoBodyIff(env: Env, fl: Flags, ms: seq<Message>)
    ensures var msg := Last(Opened(ms));
      Delimited(env, fl, ms) == NoBody <==>
        (fl.emptyRedirects && RedirectEnds(env, msg.(headers := Rewritten(msg.headers)))) || FramingOf(env, fl, msg) == NoBody
    ensures var msg := Last(Opened(ms));
      !(fl.emptyRedirects && RedirectEnds(env, msg.(headers := Rewritten(msg.headers)))) ==>
        Delimited(env, fl, ms) == FramingOf(env, fl, msg)
  {
    hide FramingOf, Rewritten, Opened, EndsAtRedirect, RedirectEnds;
    var msg := Last(Opened(ms));
    RedirectEndsIff(env, msg.(headers := Rewritten(msg.headers)));
  }

  /** A single Connection says close, or several do, which PHP turns into a fixed word. */
  ghost predicate RedirectEnds(env: Env, msg: Message) {
    ClosedRedirect(env, msg)
    || (msg.info.Some? && msg.info.value.Response? && 300 <= msg.info.value.code <= 399
        && Lookup(msg.headers, Lit("Location")).Some? && Lookup(msg.headers, Lit("Connection")).Some?
        && |Lookup(msg.headers, Lit("Connection")).value| != 1 && env.closes(Lit("Array")))
  }

  lemma RedirectEndsIff(env: Env, msg: Message)
    ensures EndsAtRedirect(env, msg) <==> RedirectEnds(env, msg)
  {
    hide Lookup, Lit;
    var con := Lookup(msg.headers, Lit("Connection"));
    if con.Some? && |con.value| == 1 {
      assert con.value == [con.value[0]];
      assert PlainText(con.value) == con.value[0];
    }
  }

  // ---- a head without its blank line

  lemma CleanupPass(env: Env, fl: Flags, f: L.Fold, b: bytes, g: L.Fold)
    requires fl.cleanup && H.Run(env.info, true, L.At(f, b)) == (L.At(g, []), H.KEY) && g.field.None? && !g.failed
    ensures HeaderStep(env, fl, HeadAt(f, b).(stack := [])) == Go(HeadDone(g.msgs, []).(hstack := [H.KEY]))
  {
    hide H.Run;
    assert [] + [HEADER_DONE] == [HEADER_DONE];
    assert HeaderMachine(HeadAt(f, b).(stack := [])) == L.At(f, b);
  }

  /**
   * With CLEANUP, lines without the blank one behind them are a whole head: the last field is stored,
   * and the parser goes on with the body as if the blank line had come.
   */
  lemma CleanupEndsHead(env: Env, fl: Flags, msgs: seq<Message>, ls: seq<L.Line>)
    requires fl.cleanup && ls != [] && StartsWell(ls) && L.LinesOk(ls)
    requires L.FoldLines(env.info, Unread(msgs), ls).verdict.Open?
    ensures var m, ms := Fresh(msgs).(buffer := L.Text(ls)), L.Close(L.FoldLines(env.info, Unread(msgs), ls).f).msgs;
      var w := Waiting(ms, Delimited(env, fl, ms)).(hstack := [H.KEY]);
      Inv(m) && Inv(w) && Run(env, fl, m) == Run(env, fl, w)
  {
    hide H.Run, L.FoldLines, L.At, L.Close, HeaderStep, Step, Run, Inv, Delimited, HeadAt, HeadDone, L.LinesOk;
    var f0, g := Unread(msgs), L.FoldLines(env.info, Unread(msgs), ls).f;
    var b, ms := L.Text(ls), L.Close(g).msgs;
    TextStarts(ls, []);
    assert b + [] == b;
    HeadBegins(env, fl, msgs, b);
    L.WholeFeed(env.info, true, f0, ls);
    L.LinesKeepNoNul(env.info, f0, ls);
    L.CleanupCloses(env.info, g);
    HeadIsInv(f0, b);
    assert HeadAt(f0, b).stack == [HEADER] by { HeadAtIs(f0, b); }
    HeaderPass(env, fl, HeadAt(f0, b));
    assert L.Close(g).field.None? && !L.Close(g).failed by { ClosesWell(g); }
    CleanupPass(env, fl, f0, b, L.Close(g));
    var n := HeadDone(ms, []).(hstack := [H.KEY]);
    GoRuns(env, fl, HeadAt(f0, b), n);
    StaleHeadPass(env, fl, ms);
    GoRuns(env, fl, n, Waiting(ms, Delimited(env, fl, ms)).(hstack := [H.KEY]));
  }

  lemma HeadAtIs(f: L.Fold, b: bytes) ensures HeadAt(f, b).stack == [HEADER] {}

  lemma ClosesWell(f: L.Fold)
    requires !f.failed && L.NoNul(f)
    ensures L.Close(f).field.None? && !L.Close(f).failed
  {
    hide OnField, Canonical;
  }

  lemma StaleHeadPass(env: Env, fl: Flags, ms: seq<Message>)
    ensures var m, w := HeadDone(ms, []).(hstack := [H.KEY]), Waiting(ms, Delimited(env, fl, ms)).(hstack := [H.KEY]);
      Inv(m) && Runs(m) && Step(env, fl, m) == Go(w)
  {
    hide Rewritten, FramingOf, EndsAtRedirect, WithLast, Opened, Last;
    assert Pop([HEADER_DONE]) == [];
    assert [] + [DONE] == [DONE] && [] + [BODY_DUMB] == [BODY_DUMB] && [] + [BODY_CHUNKED] == [BODY_CHUNKED];
    assert [] + [BODY_LENGTH] == [BODY_LENGTH] && [] + [BODY_DONE] == [BODY_DONE];
  }

  // ---- what a decoder still holds

  /** If finishing the decoder yields a tail, it ends the body, and the length that the headers give is that of all. */
  lemma TailIsAppended(env: Env, fl: Flags, m: Machine)
    requires Inv(m) && m.stack == [BODY_DONE] && m.dechunk.Some? && env.finish(m.dechunk.value) != [] && m.msgs != []
    ensures var body := Last(m.msgs).body + env.finish(m.dechunk.value);
      var msg := Last(m.msgs).(body := body, headers := SetField(Last(m.msgs).headers, CONTENT_LENGTH, [Numeral(|body|)]));
      var k := m.(dechunk := None, stack := [DONE], msgs := WithLast(m.msgs, msg));
      Inv(k) && Run(env, fl, m) == Run(env, fl, k)
  {
    hide Run, SetField, Numeral, Inv, Step, Write;
    var tail := env.finish(m.dechunk.value);
    var m1 := TailIsSetAside(env, fl, m, tail);
    GoRuns(env, fl, m, m1);
    var m2 := TailIsWritten(env, fl, m1, m.msgs);
    GoRuns(env, fl, m1, m2);
    LengthIsUpdated(env, fl, m2, Last(m.msgs).(body := Last(m.msgs).body + tail));
    GoRuns(env, fl, m2, m2.(stack := [DONE], msgs := Updated(m2.msgs)));
    var body := Last(m.msgs).body + tail;
    UpdatedIs(m.msgs, Last(m.msgs).(body := body));
  }

  lemma UpdatedIs(ms: seq<Message>, msg: Message)
    requires ms != []
    ensures Updated(WithLast(ms, msg)) == WithLast(ms, msg.(headers := SetField(msg.headers, CONTENT_LENGTH, [Numeral(|msg.body|)])))
    ensures Last(WithLast(ms, msg)) == msg
  {
    hide SetField, Numeral;
  }

  function Updated(ms: seq<Message>): seq<Message>
    requires ms != []
  {
    WithLast(ms, Last(ms).(headers := SetField(Last(ms).headers, CONTENT_LENGTH, [Numeral(|Last(ms).body|)])))
  }

  lemma TailIsSetAside(env: Env, fl: Flags, m: Machine, tail: bytes) returns (n: Machine)
    requires Inv(m) && m.stack == [BODY_DONE] && m.dechunk.Some? && env.finish(m.dechunk.value) == tail != []
    ensures n == m.(dechunk := None, str := tail, cut := 0, stack := [DONE, UPDATE_CL, BODY]) && m.str == [] && m.cut == 0
    ensures Runs(m) && Step(env, fl, m) == Go(n)
  {
    hide HeaderOk, Dechunk.Resumable;
    assert Pop(m.stack) == [] && [] + [DONE] + [UPDATE_CL, BODY] == [DONE, UPDATE_CL, BODY];
    n := m.(dechunk := None, str := tail, stack := [DONE, UPDATE_CL, BODY]);
  }

  lemma TailIsWritten(env: Env, fl: Flags, m: Machine, ms: seq<Message>) returns (n: Machine)
    requires Inv(m) && m.stack == [DONE, UPDATE_CL, BODY] && m.str != [] && m.cut == 0 && m.msgs == ms != []
    ensures n == m.(str := [], stack := [DONE, UPDATE_CL], msgs := WithLast(ms, Last(ms).(body := Last(ms).body + m.str)))
    ensures Runs(m) && Step(env, fl, m) == Go(n)
  {
    hide HeaderOk, Dechunk.Resumable;
    assert Pop(m.stack) == [DONE, UPDATE_CL] && m.buffer[0..] == m.buffer;
    n := m.(str := [], stack := [DONE, UPDATE_CL], msgs := WithLast(ms, Last(ms).(body := Last(ms).body + m.str)));
  }

  lemma LengthIsUpdated(env: Env, fl: Flags, m: Machine, msg: Message)
    requires Inv(m) && m.stack == [DONE, UPDATE_CL] && m.msgs != [] && Last(m.msgs) == msg
    ensures Runs(m) && Step(env, fl, m) == Go(m.(stack := [DONE], msgs := Updated(m.msgs)))
  {
    hide HeaderOk, Dechunk.Resumable, SetField, Numeral;
    assert Pop(m.stack) == [DONE];
  }
}
