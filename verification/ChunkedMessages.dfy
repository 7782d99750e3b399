/** A chunked body, extensions included, and the message it is parsed into, however it is cut into calls. */
module ChunkedMessages {
  import opened Bytes
  import opened Messages
  import opened MessageParser
  import opened ChunkGrammar
  import Dechunk
  import D = DechunkRuns
  import Fragments

  /** The parser waits for a chunked body of the newest message, with a fresh decoder. */
  ghost predicate AwaitsChunks(m: Machine) {
    AtRest(m) && m.stack == [BODY_CHUNKED] && m.buffer == [] && m.dechunk == Some(Dechunk.Initial) && m.msgs != []
  }

  /** The feeds that reach the decoder: a call without data leaves it alone. */
  function Events(cs: seq<Call>): seq<D.Event> {
    if cs == [] then [] else (if cs[0].data == [] then [] else [D.Feed(cs[0].data)]) + Events(cs[1..])
  }

  /** The parser after a run of its decoder that has not ended. */
  function After(m: Machine, es: seq<D.Event>): Machine
    requires m.msgs != []
  {
    WithBody(m, D.Run(es, false).out).(dechunk := Some(D.Run(es, false).ctx))
  }

  ghost predicate Ongoing(es: seq<D.Event>) { D.Run(es, false).ok && !D.Run(es, false).ctx.zeroed }

  lemma RunSnoc(es: seq<D.Event>, d: bytes)
    ensures var s, t := D.Run(es, false), Dechunk.Updated(D.Run(es, false).ctx, d, false);
      D.Run(es + [D.Feed(d)], false) == Dechunk.Step(s.ok && t.ok, s.out + t.out, t.ctx)
  {
    hide Dechunk.Updated;
    var all := es + [D.Feed(d)];
    assert all[..|all| - 1] == es;
  }

  lemma {:induction false} PrefixIsOngoing(es: seq<D.Event>, fs: seq<D.Event>)
    requires Ongoing(es + fs)
    ensures Ongoing(es)
    decreases |fs|
  {
    hide Dechunk.Updated;
    if fs == [] {
      assert es + fs == es;
    } else {
      var all := es + fs;
      var less := fs[..|fs| - 1];
      assert all[..|all| - 1] == es + less;
      var s := D.Run(es + less, false);
      if all[|all| - 1].Feed? {
        D.UpdateNeedsOpen(s.ctx, all[|all| - 1].data, false);
      }
      PrefixIsOngoing(es, less);
    }
  }

  lemma {:induction false} OngoingIsResumable(es: seq<D.Event>)
    requires D.Run(es, false).ok
    ensures Dechunk.Resumable(D.Run(es, false).ctx)
  {
    hide Dechunk.Updated, Dechunk.Resumable, Dechunk.Flushed;
    if es == [] {
      FreshIsResumable();
    } else {
      var before, last := es[..|es| - 1], es[|es| - 1];
      OngoingIsResumable(before);
      D.ResumableIsKept(D.Run(before, false).ctx, if last.Feed? then last.data else [], false);
    }
  }

  lemma AfterRests(m: Machine, es: seq<D.Event>)
    requires AwaitsChunks(m) && Ongoing(es)
    ensures AtRest(After(m, es))
  {
    hide D.Run, Dechunk.Resumable, HeaderOk;
    OngoingIsResumable(es);
  }

  /** A feed in the middle of the body: what is decoded of it is written. */
  lemma MiddleFeed(env: Env, f: Flags, m: Machine, es: seq<D.Event>, d: bytes)
    requires AwaitsChunks(m) && d != [] && Ongoing(es) && Ongoing(es + [D.Feed(d)])
    ensures Inv(After(m, es).(buffer := d))
    ensures Run(env, f, After(m, es).(buffer := d)) == (After(m, es + [D.Feed(d)]), BODY_CHUNKED)
  {
    hide D.Run, Inv, Run, Step, AtRest, Dechunk.Updated;
    var a := After(m, es);
    AfterRests(m, es);
    RunSnoc(es, d);
    ChunkIsWritten(env, f, a, d);
    var n := After(m, es + [D.Feed(d)]);
    BodyAdds(m, D.Run(es, false).out, Dechunk.Updated(a.dechunk.value, d, false).out);
    AfterRests(m, es + [D.Feed(d)]);
    RestIsInv(n);
    IdleReturns(env, f, n);
  }

  lemma IdleReturns(env: Env, f: Flags, m: Machine)
    requires Inv(m) && m.stack == [BODY_CHUNKED] && m.buffer == []
    ensures Run(env, f, m) == (m, BODY_CHUNKED)
  {
    hide Step, Inv;
  }

  lemma ChunkIsWritten(env: Env, f: Flags, m: Machine, d: bytes)
    requires AtRest(m) && m.stack == [BODY_CHUNKED] && m.buffer == [] && m.msgs != [] && d != [] && m.dechunk.Some?
    requires var r := Dechunk.Updated(m.dechunk.value, d, false); r.ok && !r.ctx.zeroed
    ensures var r := Dechunk.Updated(m.dechunk.value, d, false);
      var n := WithBody(m, r.out).(dechunk := Some(r.ctx));
      Inv(m.(buffer := d)) && Inv(n) && Run(env, f, m.(buffer := d)) == Run(env, f, n)
  {
    hide Run, Step, Inv, Dechunk.Updated, Write, WithBody;
    var r := Dechunk.Updated(m.dechunk.value, d, false);
    var m0 := m.(buffer := d);
    var m1 := m0.(stack := [BODY_CHUNKED, BODY], dechunk := Some(r.ctx), str := r.out, cut := |d|);
    Refilled(m, d);
    assert [] + d == d;
    ChunkIsSetAside(env, f, m0);
    RestIsInv(m);
    GoRuns(env, f, m0, m1);
    ChunkIsCut(env, f, m1);
    var n := WithBody(m, r.out).(dechunk := Some(r.ctx));
    assert Write(m1.msgs, r.out) == WithBody(m, r.out).msgs by { WriteIsWithBody(m, r.out); }
    assert WithBody(m, r.out) == m.(msgs := WithBody(m, r.out).msgs) by { BodyIsTheMessages(m, m, r.out); }
    GoRuns(env, f, m1, n);
  }

  lemma WriteIsWithBody(m: Machine, s: bytes)
    requires m.msgs != []
    ensures Write(m.msgs, s) == WithBody(m, s).msgs
  {
    if s == [] {
      assert Last(m.msgs).body + s == Last(m.msgs).body;
    }
  }

  lemma ChunkIsSetAside(env: Env, f: Flags, m: Machine)
    requires Inv(m) && m.stack == [BODY_CHUNKED] && m.buffer != [] && m.dechunk.Some?
    requires var r := Dechunk.Updated(m.dechunk.value, m.buffer, false); r.ok && !r.ctx.zeroed
    ensures var r := Dechunk.Updated(m.dechunk.value, m.buffer, false);
      Step(env, f, m)
      == Go(m.(stack := [BODY_CHUNKED, BODY], dechunk := Some(r.ctx), str := r.out, cut := |m.buffer|))
  {
    hide HeaderOk, Dechunk.Resumable, Dechunk.Updated;
    assert BODY_CHUNKED in m.stack;
    assert Pop(m.stack) == [] && [] + [BODY_CHUNKED, BODY] == [BODY_CHUNKED, BODY];
  }

  lemma ChunkIsCut(env: Env, f: Flags, m: Machine)
    requires Inv(m) && m.stack == [BODY_CHUNKED, BODY] && m.cut == |m.buffer|
    ensures Step(env, f, m) == Go(m.(stack := [BODY_CHUNKED], msgs := Write(m.msgs, m.str), buffer := [], str := [], cut := 0))
  {
    hide HeaderOk, Dechunk.Resumable, Write;
    assert Pop(m.stack) == [BODY_CHUNKED];
    assert m.buffer[m.cut..] == [];
  }

  /** The feed that ends the body finishes the message. */
  lemma EndingFeedIsDone(env: Env, f: Flags, m: Machine, d: bytes)
    requires AtRest(m) && m.stack == [BODY_CHUNKED] && m.buffer == [] && m.msgs != [] && d != [] && m.dechunk.Some?
    requires forall c :: env.finish(c) == []
    requires Dechunk.Updated(m.dechunk.value, d, false).ctx.zeroed
    ensures var r := Dechunk.Updated(m.dechunk.value, d, false);
      var n := WithBody(m, r.out).(buffer := r.ctx.buffer, dechunk := None, stack := [DONE]);
      Inv(m.(buffer := d)) && Inv(n) && Run(env, f, m.(buffer := d)) == Run(env, f, n)
  {
    hide Run, Inv, Dechunk.Updated, Write, WithBody, AtRest, Step;
    var r := Dechunk.Updated(m.dechunk.value, d, false);
    var m0 := m.(buffer := d);
    Refilled(m, d);
    assert [] + d == d;
    ChunkedBodyEnds(env, f, m0);
    RestIsInv(m);
    var n := m0.(stack := [BODY_DONE], msgs := Write(m.msgs, r.out), buffer := r.ctx.buffer, dechunk := Some(r.ctx));
    assert n.msgs == WithBody(m, r.out).msgs by { WriteIsWithBody(m, r.out); }
    assert WithBody(m, r.out) == m.(msgs := n.msgs) by { BodyIsTheMessages(m, m, r.out); }
    BodyCloses(env, f, n);
  }

  lemma BodyCloses(env: Env, f: Flags, n: Machine)
    requires Inv(n) && n.stack == [BODY_DONE] && forall c :: env.finish(c) == []
    ensures var k := n.(dechunk := None, stack := [DONE]); Inv(k) && Run(env, f, n) == Run(env, f, k)
  {
    hide HeaderOk, Dechunk.Resumable, Run;
    assert Pop(n.stack) == [] && [] + [DONE] + [] == [DONE];
    var k := n.(stack := [DONE], dechunk := None);
    assert Step(env, f, n) == Go(k);
    GoRuns(env, f, n, k);
  }

  /** Without GREEDY the call ends there. */
  lemma EndingFeed(env: Env, f: Flags, m: Machine, d: bytes)
    requires AtRest(m) && m.stack == [BODY_CHUNKED] && m.buffer == [] && m.msgs != [] && d != [] && m.dechunk.Some?
    requires !f.greedy && forall c :: env.finish(c) == []
    requires Dechunk.Updated(m.dechunk.value, d, false).ctx.zeroed
    ensures var r := Dechunk.Updated(m.dechunk.value, d, false);
      Inv(m.(buffer := d)) && Run(env, f, m.(buffer := d))
      == (WithBody(m, r.out).(buffer := Strip(r.ctx.buffer), dechunk := None, stack := []), DONE)
  {
    hide Run, Inv, Dechunk.Updated, WithBody, Strip, AtRest;
    EndingFeedIsDone(env, f, m, d);
    var r := Dechunk.Updated(m.dechunk.value, d, false);
    DonePass(env, f, WithBody(m, r.out).(buffer := r.ctx.buffer, dechunk := None, stack := [DONE]));
  }

  /** While the body goes on, the message grows by exactly what the decoder gives out. */
  lemma {:induction false} MiddleCalls(env: Env, m: Machine, es: seq<D.Event>, cs: seq<Call>)
    requires AwaitsChunks(m) && Ongoing(es) && Ongoing(es + Events(cs))
    ensures AtRest(After(m, es))
    ensures var (k, ss) := Calls(env, After(m, es), cs);
      k == After(m, es + Events(cs)) && forall i :: 0 <= i < |ss| ==> ss[i] == BODY_CHUNKED
    decreases |cs|
  {
    hide D.Run, Run, AtRest, Ongoing, After;
    AfterRests(m, es);
    var a := After(m, es);
    if cs == [] {
      assert es + Events(cs) == es;
    } else {
      var c := cs[0];
      assert a.buffer == [] && a.stack == [BODY_CHUNKED] by { AfterWaits(m, es); }
      assert a.buffer + c.data == c.data;
      RestIsInv(a);
      if c.data == [] {
        assert a.(buffer := []) == a;
        IdleReturns(env, c.flags, a);
        assert [] + Events(cs[1..]) == Events(cs[1..]);
        MiddleCalls(env, m, es, cs[1..]);
      } else {
        var es1 := es + [D.Feed(c.data)];
        assert es + Events(cs) == es1 + Events(cs[1..]);
        PrefixIsOngoing(es1, Events(cs[1..]));
        MiddleFeed(env, c.flags, m, es, c.data);
        MiddleCalls(env, m, es1, cs[1..]);
      }
    }
  }

  lemma AfterWaits(m: Machine, es: seq<D.Event>)
    requires AwaitsChunks(m)
    ensures var a := After(m, es); a.buffer == [] && a.stack == [BODY_CHUNKED] && a.msgs != []
    ensures After(m, es).dechunk == Some(D.Run(es, false).ctx)
  {
    hide D.Run, AtRest;
  }

  lemma NothingHappened(m: Machine)
    requires AwaitsChunks(m)
    ensures After(m, []) == m && Ongoing([])
  {
    hide AtRest;
    assert Last(m.msgs).body + [] == Last(m.msgs).body;
  }

  /** Line ends are white space. */
  lemma StripTakesEols(s: bytes)
    ensures Strip(SkipEols(s)) == Strip(s)
  {
    hide SpaceRun, EolRun;
    var k := EolRun(s);
    var t := s[k..];
    assert forall i :: 0 <= i < |t| ==> s[k + i] == t[i];
    assert SpaceRun(s) == k + SpaceRun(t) by { SpaceRunIs(s, k + SpaceRun(t)); }
    assert s[k..][SpaceRun(t)..] == s[k + SpaceRun(t)..];
  }

  lemma SpaceRunIs(s: bytes, n: nat)
    requires n <= |s| && (forall i :: 0 <= i < n ==> IsSpace(s[i])) && (n < |s| ==> !IsSpace(s[n]))
    ensures SpaceRun(s) == n
  {
    hide SpaceRun;
  }

  /**
   * However a chunked text is cut into calls, with no LF cut from the CR of a size line and the end
   * of the body in the last call, the parser waits in BODY_CHUNKED until that call ends the message:
   * its body is then the data of the chunks, and what trails the text stays, less white space.
   */
  lemma ChunkedBodyFragments(env: Env, m: Machine, cs: seq<Call>, last: Call,
                             fs: seq<Frame>, zero: SizeText, trail: bytes)
    requires AwaitsChunks(m) && !last.flags.greedy && forall c :: env.finish(c) == []
    requires TextOk(fs, zero, trail)
    requires var es := Events(cs) + [D.Feed(last.data)];
      D.Fed(es) == Text(fs, zero) + trail && D.CleanCuts(es) && Fragments.EndsInTime(es)
    ensures var (k, ss) := Calls(env, m, cs);
      && (forall i :: 0 <= i < |ss| ==> ss[i] == BODY_CHUNKED)
      && Calls(env, k, [last])
         == (WithBody(m, Concat(ChunkGrammar.Datas(fs))).(buffer := Strip(trail), dechunk := None, stack := []), [DONE])
  {
    hide D.Run, AtRest, Text, TextOk, D.Fed, D.CleanCuts, Fragments.EndsInTime, Strip, Calls, WithBody, After,
      Dechunk.Updated, Events, SkipEols;
    var es, d := Events(cs), last.data;
    var all := es + [D.Feed(d)];
    Fragments.FragmentsDecodeText(fs, zero, trail, all, false);
    RunSnoc(es, d);
    assert Ongoing(es) by { D.UpdateNeedsOpen(D.Run(es, false).ctx, d, false); }
    NothingHappened(m);
    assert [] + es == es;
    MiddleCalls(env, m, [], cs);
    LastFeedHasData(fs, zero, trail, es, d);
    EndingCall(env, m, es, last, Concat(ChunkGrammar.Datas(fs)), SkipEols(trail));
    StripTakesEols(trail);
  }

  lemma OneFeedIsClean(d: bytes)
    ensures var es := [D.Feed(d)]; D.Fed(es) == d && D.CleanCuts(es) && Fragments.EndsInTime(es)
  {
    var es := [D.Feed(d)];
    assert es[..0] == [] && D.Fed([]) == [];
    D.EmptyHasNoCr();
    D.EmptyDecodes();
  }

  lemma EndingCall(env: Env, m: Machine, es: seq<D.Event>, last: Call, out: bytes, left: bytes)
    requires AwaitsChunks(m) && Ongoing(es) && last.data != [] && !last.flags.greedy && forall c :: env.finish(c) == []
    requires D.Run(es + [D.Feed(last.data)], false) == Dechunk.Step(true, out, Dechunk.Context(left, 0, true))
    ensures AtRest(After(m, es))
    ensures Calls(env, After(m, es), [last])
      == (WithBody(m, out).(buffer := Strip(left), dechunk := None, stack := []), [DONE])
  {
    hide D.Run, Run, AtRest, Strip, Calls, Dechunk.Updated;
    var k, d := After(m, es), last.data;
    RunSnoc(es, d);
    AfterRests(m, es);
    AfterWaits(m, es);
    assert k.buffer + d == d;
    EndingFeed(env, last.flags, k, d);
    OneCall(env, k, last);
    BodyAdds(m, D.Run(es, false).out, Dechunk.Updated(D.Run(es, false).ctx, d, false).out);
  }

  lemma LastFeedHasData(fs: seq<Frame>, zero: SizeText, trail: bytes, es: seq<D.Event>, d: bytes)
    requires TextOk(fs, zero, trail)
    requires var all := es + [D.Feed(d)]; D.Fed(all) == Text(fs, zero) + trail && Fragments.EndsInTime(all)
    ensures d != []
  {
    hide Text, TextOk;
    var all := es + [D.Feed(d)];
    assert all[..|all| - 1] == es;
    if d == [] {
      assert D.Fed(all) == D.Fed(es);
      TextDecodes(fs, zero, trail, true);
    }
  }
}
