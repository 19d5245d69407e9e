/** Which suppressed calls share a summary: reads only within one tenant and transport, denied calls
    across all of them. */
module CallLogTenants {
  import opened Options
  import opened Order
  import opened CallLogModel
  import opened CallLogFlood
  import opened CallLogTimes
  import opened CallLogSummaries

  /** Both are denied, or neither is and they agree in tenant and transport. */
  predicate Alike(f: Fields, g: Fields) {
    && f.Call? && g.Call?
    && if f.outcome == Denied then g.outcome == Denied
       else g.outcome != Denied && f.tenant == g.tenant && f.transport == g.transport
  }

  lemma AlikeIff(f: Fields, g: Fields)
    requires f.Call? && g.Call?
    ensures Alike(f, g) <==> WhatOf(f) == WhatOf(g)
  {}

  /** The call that turn `j` recorded. */
  predicate CallAt(turns: seq<Turn>, t: Trace, j: nat) {
    && j in t && j < |turns| && turns[j].action.TryAppend? && turns[j].action.fields.Call?
    && t[j].worker == turns[j].worker && t[j].what == WhatOf(turns[j].action.fields)
    && t[j].tenant == turns[j].action.fields.tenant && t[j].transport == turns[j].action.fields.transport
  }

  lemma TraceCall(env: Env, sys: System, turns: seq<Turn>, j: nat)
    requires AllPossible(|sys.parties|, turns) && j in TraceOf(env, sys, turns)
    ensures CallAt(turns, TraceOf(env, sys, turns), j)
  {
    hide TraceOf; hide Run; hide Append; hide WhatOf;
    TraceIsTheSuppressed(env, sys, turns, j);
  }

  /** Every call that one entry of a run counts: for a read summary a read of the entry's own tenant and
      transport, for a denied summary a denied call. */
  lemma EntryKeepsTenant(env: Env, sys: System, turns: seq<Turn>, n: nat, j: nat)
    requires CapsSet(env) && AllPossible(|sys.parties|, turns) && NothingOpen(sys)
    requires |sys.world.history| <= n < |Run(env, sys, turns).world.history| && j in CountedIn(TraceOf(env, sys, turns), n)
    ensures var e, t := Run(env, sys, turns).world.history[n].body.fields, TraceOf(env, sys, turns);
      && CallAt(turns, t, j)
      && (if e.DeniedSummary? then turns[j].action.fields.outcome == Denied
          else e.ReadSummary? && turns[j].action.fields.outcome != Denied && t[j].tenant == e.tenant && t[j].transport == e.transport)
  {
    hide TraceOf; hide Run; hide OpenAccounted;
    SummariesCountTheirCalls(env, sys, turns);
    TraceCall(env, sys, turns, j);
    assert EntryAt(Run(env, sys, turns).world.history, TraceOf(env, sys, turns), n);
  }

  ghost predicate Share(me: Worker, t: Trace, i: nat, j: nat, k: nat) {
    exists x :: OpenOf(me, x).Some? && j in WaitingFor(t, i, x) && k in WaitingFor(t, i, x)
  }

  /** Two calls of one worker that wait at once share an open summary exactly when both are denied, or both
      are reads of one tenant and transport. */
  lemma ShareIffAlike(env: Env, sys: System, turns: seq<Turn>, j: nat, k: nat)
    requires CapsSet(env) && AllPossible(|sys.parties|, turns) && NothingOpen(sys)
    requires var t := TraceOf(env, sys, turns);
      j in t && k in t && t[j].fate == t[k].fate == Waiting && t[j].worker == t[k].worker < |sys.parties|
    ensures var t := TraceOf(env, sys, turns); var i := t[j].worker;
      && CallAt(turns, t, j) && CallAt(turns, t, k)
      && (Share(Run(env, sys, turns).parties[i].me, t, i, j, k) <==> Alike(turns[j].action.fields, turns[k].action.fields))
  {
    hide TraceOf; hide Run; hide OpenAccounted; hide EntriesAccounted; hide WhatOf; hide Alike; hide OpenOf; hide WindowOf;
    SummariesCountTheirCalls(env, sys, turns);
    TraceCall(env, sys, turns, j);
    TraceCall(env, sys, turns, k);
    AlikeIff(turns[j].action.fields, turns[k].action.fields);
    var t, me := TraceOf(env, sys, turns), Run(env, sys, turns).parties[TraceOf(env, sys, turns)[j].worker].me;
    WaitsOpen(me, t, t[j].worker, j);
  }

  lemma WaitsOpen(me: Worker, t: Trace, i: nat, j: nat)
    requires OpenAccounted(me, t, i) && j in t && t[j].worker == i && t[j].fate == Waiting
    ensures OpenOf(me, t[j].what).Some? && j in WaitingFor(t, i, t[j].what)
  {
    hide OpenOf; hide WindowOf;
    assert OpenAt(OpenOf(me, t[j].what), WindowOf(me, t[j].what), t, i, t[j].what);
    WaitsAmong(t, i, j);
  }

  /** Calls that wait for one summary go on together. */
  lemma StepTogether(env: Env, before: System, t: Trace, last: Turn, turn: nat, j: nat, k: nat)
    requires Possible(|before.parties|, last) && j in t && k in t && j != turn && k != turn
    requires t[j].worker == t[k].worker && t[j].what == t[k].what && t[j].fate == t[k].fate
    ensures var u := TraceNext(env, before, t, last, turn); j in u && k in u && u[j].(fate := t[j].fate) == t[j] && u[k].(fate := t[k].fate) == t[k] && u[j].fate == u[k].fate
  {
    hide Act; hide FirstCover; hide Minute; hide Chosen; hide WhatOf;
  }

  lemma {:induction false} StayTogether(env: Env, sys: System, turns: seq<Turn>, more: seq<Turn>, j: nat, k: nat)
    requires AllPossible(|sys.parties|, turns) && AllPossible(|sys.parties|, more)
    requires var t := TraceOf(env, sys, turns); j in t && k in t && t[j].worker == t[k].worker && t[j].what == t[k].what && t[j].fate == t[k].fate
    requires j < |turns| && k < |turns|
    ensures var t, u := TraceOf(env, sys, turns), TraceOf(env, sys, turns + more);
      j in u && k in u && u[j].(fate := t[j].fate) == t[j] && u[k].(fate := t[k].fate) == t[k] && u[j].fate == u[k].fate
  {
    hide TraceNext; hide Run;
    if more == [] {
      assert turns + more == turns;
    } else {
      var earlier, last := more[..|more| - 1], more[|more| - 1];
      assert Possible(|sys.parties|, last);
      StayTogether(env, sys, turns, earlier, j, k);
      assert (turns + more)[..|turns + more| - 1] == turns + earlier && (turns + more)[|turns + more| - 1] == last;
      StepTogether(env, Run(env, sys, turns + earlier), TraceOf(env, sys, turns + earlier), last, |turns + earlier|, j, k);
    }
  }

  /** However the run goes on, such calls stay together; and two calls are never counted by one entry unless
      they are alike. */
  lemma OneEntryIffAlike(env: Env, sys: System, turns: seq<Turn>, more: seq<Turn>, j: nat, k: nat)
    requires CapsSet(env) && AllPossible(|sys.parties|, turns) && AllPossible(|sys.parties|, more) && NothingOpen(sys)
    requires var t := TraceOf(env, sys, turns); j in t && k in t && t[j].fate == t[k].fate == Waiting && t[j].worker == t[k].worker
    requires var u := TraceOf(env, sys, turns + more); j in u && k in u && u[j].fate.InEntry? && u[k].fate.InEntry?
    ensures j < |turns| && k < |turns| && turns[j].action.TryAppend? && turns[k].action.TryAppend?
    ensures var u := TraceOf(env, sys, turns + more);
      u[j].fate == u[k].fate <==> Alike(turns[j].action.fields, turns[k].action.fields)
  {
    hide TraceOf; hide Run; hide OpenAccounted; hide WhatOf; hide Alike; hide Covers; hide IsSummary; hide CountOf;
    TraceCall(env, sys, turns, j);
    TraceCall(env, sys, turns, k);
    AlikeIff(turns[j].action.fields, turns[k].action.fields);
    var t, u := TraceOf(env, sys, turns), TraceOf(env, sys, turns + more);
    if t[j].what == t[k].what {
      StayTogether(env, sys, turns, more, j, k);
    } else {
      TraceCall(env, sys, turns + more, j);
      TraceCall(env, sys, turns + more, k);
      SummariesCountTheirCalls(env, sys, turns + more);
      if u[j].fate == u[k].fate {
        var h, n := Run(env, sys, turns + more).world.history, u[j].fate.n;
        assert EntryAt(h, u, n) && j in CountedIn(u, n) && k in CountedIn(u, n);
        CoversOne(h[n].body.fields, u[j].what, u[k].what);
      }
    }
  }

  // ----- a summary of several tenants

  /** Everything works, the caps are 1, and the clock stands still. */
  function StillEnv(digest: Body -> Digest): Env {
    Env(n => true, n => 0, digest, 90, 1, 1)
  }

  lemma StillFacts(digest: Body -> Digest)
    ensures var env := StillEnv(digest);
      AllOk(env) && CapsSet(env) && env.deniedCap == 1 && forall n: nat :: Minute(env.clock(n)) == 0
  {}

  /** A flush that works writes the denied summary. */
  lemma DeniedFlush(env: Env, w: World, me: Worker)
    requires AllOk(env) && me.suppressed.Some? && me.openReads == map[]
    ensures var o := FlushLocked(env, w, me); var h := o.world.history;
      && |h| == |w.history| + 1 && h[..|w.history|] == w.history
      && h[|w.history|].body.fields.DeniedSummary? && h[|w.history|].body.fields.count == me.suppressed.value.count
  {
    hide AppendLocked; hide CurrentHead;
    var s := me.suppressed.value;
    AllOkAppends(env, Tried(w), DeniedSummary(s.count, s.windowStart, s.windowEnd), CurrentHead(Tried(w)));
    assert SortedKeys(map[]) == [];
  }

  lemma FlushTaken(env: Env, sys: System)
    requires |sys.parties| == 1
    ensures Take(env, sys, Turn(0, TryFlush)).world == FlushLocked(env, sys.world, sys.parties[0].me).world
  {
    hide FlushLocked; hide AnyOpen;
  }

  function FourTurns(f: Fields, g: Fields, e: Fields): seq<Turn> {
    [Turn(0, TryAppend(f)), Turn(0, TryAppend(g)), Turn(0, TryAppend(e)), Turn(0, TryFlush)]
  }

  /** What four turns leave: the first call's entry, and one summary of the two others. */
  lemma FourTurnsLeave(f: Fields, g: Fields, e: Fields, digest: Body -> Digest)
    requires f.Call? && g.Call? && e.Call? && f.outcome == g.outcome == e.outcome == Denied
    ensures var env, turns := StillEnv(digest), FourTurns(f, g, e);
      && AllPossible(1, turns) && Append(env, START.world, FRESH, f).result == Logged
      && var h := Run(env, START, turns).world.history;
         |h| == 2 && h[0].body.fields == f && h[1].body.fields.DeniedSummary? && h[1].body.fields.count == 2
  {
    hide Append; hide Take; hide Minute; hide StillEnv; hide AllOk; hide FlushLocked; hide Run;
    StillFacts(digest);
    var env := StillEnv(digest);
    var a, b, c, d := Turn(0, TryAppend(f)), Turn(0, TryAppend(g)), Turn(0, TryAppend(e)), Turn(0, TryFlush);
    var s1 := Take(env, START, a);
    DeniedCall(env, START.world, FRESH, f);
    TakeAppend(env, START, a);
    var s2 := Take(env, s1, b);
    DeniedCall(env, s1.world, s1.parties[0].me, g);
    TakeAppend(env, s1, b);
    var s3 := Take(env, s2, c);
    DeniedCall(env, s2.world, s2.parties[0].me, e);
    TakeAppend(env, s2, c);
    DeniedFlush(env, s3.world, s3.parties[0].me);
    FlushTaken(env, s3);
    RunFour(env, START, a, b, c, d);
  }

  lemma RunFour(env: Env, sys: System, a: Turn, b: Turn, c: Turn, d: Turn)
    requires AllPossible(|sys.parties|, [a, b, c, d])
    ensures Possible(|sys.parties|, a) && Possible(|sys.parties|, b) && Possible(|sys.parties|, c) && Possible(|sys.parties|, d)
    ensures Run(env, sys, [a, b, c, d]) == Take(env, Take(env, Take(env, Take(env, sys, a), b), c), d)
  {
    hide Take;
    var turns := [a, b, c, d];
    assert turns[0] == a && turns[1] == b && turns[2] == c && turns[3] == d;
    RunNone(env, sys);
    RunSnoc(env, sys, [], a);
    RunSnoc(env, sys, [a], b);
    RunSnoc(env, sys, [a, b], c);
    RunSnoc(env, sys, [a, b, c], d);
    assert [] + [a] == [a] && [a] + [b] == [a, b] && [a, b] + [c] == [a, b, c] && [a, b, c] + [d] == turns;
  }

  /** Three denied calls of one worker and minute from three tenants, with a cap of 1, and then a flush: one
      denied summary that counts the calls of two tenants. */
  lemma DeniedMixesTenants(f: Fields, g: Fields, e: Fields, digest: Body -> Digest)
    requires f.Call? && g.Call? && e.Call? && f.outcome == g.outcome == e.outcome == Denied
    requires f.tenant != g.tenant && g.tenant != e.tenant && e.tenant != f.tenant
    ensures var env, turns := StillEnv(digest), FourTurns(f, g, e); var h, t := Run(env, START, turns).world.history, TraceOf(env, START, turns);
      && |h| == 2 && h[0].body.fields == f && h[1].body.fields.DeniedSummary? && h[1].body.fields.count == 2
      && CountedIn(t, 1) == {1, 2} && t[1].tenant == g.tenant && t[2].tenant == e.tenant
  {
    hide Append; hide StillEnv; hide Run; hide TraceOf; hide OpenAccounted; hide Minute;
    StillFacts(digest);
    FourTurnsLeave(f, g, e, digest);
    var env, turns := StillEnv(digest), FourTurns(f, g, e);
    SummariesCountTheirCalls(env, START, turns);
    var h, t := Run(env, START, turns).world.history, TraceOf(env, START, turns);
    assert EntryAt(h, t, 1);
    forall j | j in CountedIn(t, 1) ensures j == 1 || j == 2 {
      TraceIsTheSuppressed(env, START, turns, j);
      TraceCall(env, START, turns, j);
      assert turns[..0] == [];
      RunNone(env, START);
    }
    BothOf(CountedIn(t, 1));
    TraceCall(env, START, turns, 1);
    TraceCall(env, START, turns, 2);
  }

  lemma BothOf(c: set<nat>)
    requires |c| == 2 && forall j :: j in c ==> j == 1 || j == 2
    ensures c == {1, 2}
  {
    if 1 !in c { CardinalityMono(c, {2}); }
    if 2 !in c { CardinalityMono(c, {1}); }
  }
}
