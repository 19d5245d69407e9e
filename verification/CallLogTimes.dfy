/** The flood caps by the times that entries show, and denied calls one by one. */
module CallLogTimes {
  import opened Options
  import opened Order
  import opened CallLogModel
  import opened CallLogChain
  import opened CallLogFlood

  /** Every disk operation succeeds. */
  ghost predicate AllOk(env: Env) {
    forall n :: env.ok(n)
  }

  /** The last entry shows the last reading of the clock. */
  predicate LastShows(env: Env, w: World, fields: Fields) {
    && w.history != [] && w.ticks > 0
    && w.history[|w.history| - 1].body.fields == fields && w.history[|w.history| - 1].body.ts == env.clock(w.ticks - 1)
  }

  lemma AppendLockedShows(env: Env, w: World, fields: Fields, head: Head)
    ensures var a := AppendLocked(env, w, fields, head); a.head.Some? ==> LastShows(env, a.world, fields)
  {
    hide AddEntry; hide OldCount; hide LastEntry;
  }

  lemma FinishShows(env: Env, o: Out, fields: Fields)
    ensures var s := Finish(env, o, fields); s.result == Logged ==> LastShows(env, s.world, fields)
  {
    hide AppendLocked; hide LastShows;
    if o.head.Some? { AppendLockedShows(env, o.world, fields, o.head.value); }
  }

  /** A call that is written stands last in the log, with the last reading of its append as its time. */
  lemma AppendShows(env: Env, w: World, me: Worker, fields: Fields)
    requires fields.Call? && Append(env, w, me, fields).result == Logged
    ensures LastShows(env, Append(env, w, me, fields).world, fields)
  {
    hide CloseOutage; hide FlushDenied; hide FlushReads; hide Finish; hide LastShows; hide Minute; hide CurrentHead; hide IsRead; hide IsWrite;
    forall o: Out ensures var s := Finish(env, o, fields); s.result == Logged ==> LastShows(env, s.world, fields) { FinishShows(env, o, fields); }
  }

  /** Denied calls that worker `i` wrote one by one and whose entries show `minute`. */
  function ShownDenied(env: Env, sys: System, turns: seq<Turn>, i: nat, minute: nat): nat
    requires i < |sys.parties| && AllPossible(|sys.parties|, turns)
  {
    if turns == [] then 0
    else
      var earlier, last := turns[..|turns| - 1], turns[|turns| - 1];
      assert Possible(|sys.parties|, last);
      ShownDenied(env, sys, earlier, i, minute) +
        if WroteOwn(env, Run(env, sys, earlier), last, i) && last.action.fields.outcome == Denied
           && LastMinute(Run(env, sys, turns).world) == Some(minute) then 1 else 0
  }

  function ShownReads(env: Env, sys: System, turns: seq<Turn>, i: nat, tenant: Id, minute: nat): nat
    requires i < |sys.parties| && AllPossible(|sys.parties|, turns)
  {
    if turns == [] then 0
    else
      var earlier, last := turns[..|turns| - 1], turns[|turns| - 1];
      assert Possible(|sys.parties|, last);
      ShownReads(env, sys, earlier, i, tenant, minute) +
        if WroteOwn(env, Run(env, sys, earlier), last, i) && IsRead(last.action.fields) && last.action.fields.tenant == tenant
           && LastMinute(Run(env, sys, turns).world) == Some(minute) then 1 else 0
  }

  function LastMinute(w: World): Option<nat> {
    if w.history == [] then None else Some(Minute(w.history[|w.history| - 1].body.ts))
  }

  /** At most one more entry shows the minute than the window of that minute let through, and if so, the clock has reached it. */
  predicate OneOver(env: Env, ticks: nat, minute: nat, n: nat, shown: nat) {
    shown <= n + 1 && (shown > n ==> minute <= Minute(env.clock(ticks)))
  }

  lemma OverTurn(env: Env, before: nat, t: nat, after: nat, minute: nat, window: Option<nat>, wrote: bool, n: nat, shown: nat)
    requires Monotone(env) && before <= after && OneOver(env, before, minute, n, shown)
    requires wrote ==> before <= t < after && window == Some(Minute(env.clock(t)))
    ensures OneOver(env, after, minute, n + (if wrote && window == Some(minute) then 1 else 0),
                    shown + if wrote && Minute(env.clock(after - 1)) == minute then 1 else 0)
  {
    hide Minute;
    MinuteMono(env, before, after);
    if wrote {
      MinuteMono(env, before, t);
      MinuteMono(env, t, after - 1);
      MinuteMono(env, after - 1, after);
    }
  }

  /** The reading that chose the window of a call that is written. */
  lemma WindowRead(env: Env, w: World, me: Worker, fields: Fields) returns (t: nat)
    requires fields.Call? && env.deniedCap > 0 && Append(env, w, me, fields).result == Logged && (fields.outcome == Denied || IsRead(fields))
    ensures var s := Append(env, w, me, fields);
      && w.ticks <= t < s.world.ticks
      && (if fields.outcome == Denied then s.worker.deniedMinute else s.worker.readMinute) == Some(Minute(env.clock(t)))
  {
    hide Append; hide Minute; hide IsRead;
    AppendWindowed(env, w, me, fields);
    var s := Append(env, w, me, fields);
    if fields.outcome == Denied {
      t :| w.ticks <= t < s.world.ticks && DeniedCounted(env, me, Minute(env.clock(t)), s);
    } else {
      t :| w.ticks <= t < s.world.ticks && ReadCounted(env, me, fields, Minute(env.clock(t)), s);
    }
  }

  predicate OwnKind(f: Fields, denied: bool, tenant: Id) {
    if denied then f.Call? && f.outcome == Denied else IsRead(f) && f.Call? && f.tenant == tenant && f.outcome != Denied
  }

  function WindowMinute(me: Worker, denied: bool): Option<nat> {
    if denied then me.deniedMinute else me.readMinute
  }

  /** One turn, for denied calls or for the reads of one tenant. */
  lemma TurnOver(env: Env, before: System, last: Turn, i: nat, denied: bool, tenant: Id, minute: nat, n: nat, shown: nat)
    requires Possible(|before.parties|, last) && i < |before.parties| && Monotone(env) && env.deniedCap > 0
    requires OneOver(env, before.world.ticks, minute, n, shown)
    ensures var after := Take(env, before, last); var wrote := WroteOwn(env, before, last, i) && OwnKind(last.action.fields, denied, tenant);
      OneOver(env, after.world.ticks, minute, n + (if wrote && WindowMinute(after.parties[i].me, denied) == Some(minute) then 1 else 0),
              shown + if wrote && LastMinute(after.world) == Some(minute) then 1 else 0)
  {
    hide Append; hide Minute; hide IsRead; hide Monotone; hide OneOver; hide Preflight; hide FlushLocked; hide HandOver; hide MarkDegraded;
    var after := Take(env, before, last);
    ActTicks(env, before.world, before.parties[last.worker], last.action);
    var wrote := WroteOwn(env, before, last, i) && OwnKind(last.action.fields, denied, tenant);
    if wrote {
      var t := WindowRead(env, before.world, before.parties[i].me, last.action.fields);
      AppendShows(env, before.world, before.parties[i].me, last.action.fields);
      OverTurn(env, before.world.ticks, t, after.world.ticks, minute, WindowMinute(after.parties[i].me, denied), true, n, shown);
    } else {
      OverTurn(env, before.world.ticks, 0, after.world.ticks, minute, None, false, n, shown);
    }
  }

  lemma {:induction false} OneOverRun(env: Env, sys: System, turns: seq<Turn>, i: nat, tenant: Id, minute: nat)
    requires i < |sys.parties| && AllPossible(|sys.parties|, turns) && Monotone(env) && env.deniedCap > 0
    ensures var ticks := Run(env, sys, turns).world.ticks;
      && OneOver(env, ticks, minute, OwnDenied(env, sys, turns, i, minute), ShownDenied(env, sys, turns, i, minute))
      && OneOver(env, ticks, minute, OwnReads(env, sys, turns, i, tenant, minute), ShownReads(env, sys, turns, i, tenant, minute))
  {
    hide Take; hide OneOver; hide WroteOwn; hide Monotone; hide LastMinute; hide IsRead;
    if turns == [] {
      NoneOver(env, sys.world.ticks, minute);
    } else {
      var earlier, last := turns[..|turns| - 1], turns[|turns| - 1];
      assert Possible(|sys.parties|, last);
      OneOverRun(env, sys, earlier, i, tenant, minute);
      var before := Run(env, sys, earlier);
      TurnOver(env, before, last, i, true, tenant, minute, OwnDenied(env, sys, earlier, i, minute), ShownDenied(env, sys, earlier, i, minute));
      TurnOver(env, before, last, i, false, tenant, minute, OwnReads(env, sys, earlier, i, tenant, minute), ShownReads(env, sys, earlier, i, tenant, minute));
      WroteCall(env, before, last, i);
    }
  }

  lemma WroteCall(env: Env, before: System, last: Turn, i: nat)
    requires Possible(|before.parties|, last)
    ensures WroteOwn(env, before, last, i) ==> last.action.TryAppend? && last.action.fields.Call?
    ensures WroteOwn(env, before, last, i) && IsRead(last.action.fields) ==> last.action.fields.outcome != Denied
  {}

  lemma NoneOver(env: Env, ticks: nat, minute: nat)
    ensures OneOver(env, ticks, minute, 0, 0)
  {}

  /** By the times that the entries show, a minute holds at most one entry more than the cap: the one whose
      window was chosen just before the minute began. */
  lemma CapsHoldByTime(env: Env, sys: System, turns: seq<Turn>, i: nat, tenant: Id, minute: nat)
    requires i < |sys.parties| && AllPossible(|sys.parties|, turns)
    requires Monotone(env) && env.deniedCap > 0
    requires sys.parties[i].me.deniedMinute.None? && sys.parties[i].me.readMinute.None?
    ensures ShownDenied(env, sys, turns, i, minute) <= env.deniedCap + 1
    ensures ShownReads(env, sys, turns, i, tenant, minute) <= env.readCap + 1
  {
    hide Run; hide Capped; hide OwnDenied; hide OwnReads; hide ShownDenied; hide ShownReads; hide Monotone; hide Minute;
    CapsHold(env, sys, turns, i, tenant, minute);
    OneOverRun(env, sys, turns, i, tenant, minute);
  }

  // ----- denied calls, one by one

  lemma AllOkAppends(env: Env, w: World, fields: Fields, head: Head)
    requires AllOk(env)
    ensures var a := AppendLocked(env, w, fields, head);
      && a.head.Some? && LastShows(env, a.world, fields) && a.world.ticks == w.ticks + 1 && a.world.degraded == w.degraded
      && |a.world.history| == |w.history| + 1 && a.world.history[..|w.history|] == w.history
  {
    hide AddEntry; hide OldCount; hide LastEntry;
  }

  /** A denied call while everything works: within the cap it is written, else it is counted. */
  lemma DeniedCall(env: Env, w: World, me: Worker, fields: Fields)
    requires AllOk(env) && w.degraded.None? && me.outage.None? && fields.Call? && fields.outcome == Denied
    requires me.suppressed.Some? ==> me.deniedMinute == Some(Minute(env.clock(w.ticks)))
    ensures var s := Append(env, w, me, fields); var minute := Minute(env.clock(w.ticks));
      var count := 1 + if me.deniedMinute == Some(minute) then me.deniedCount else 0;
      && s.world.degraded.None? && s.worker.outage.None? && s.worker.openReads == me.openReads
      && s.worker.deniedMinute == Some(minute) && s.worker.deniedCount == count
      && if count <= env.deniedCap then
           && s.result == Logged && LastShows(env, s.world, fields) && s.world.ticks == w.ticks + 2 && s.worker.suppressed == me.suppressed
           && |s.world.history| == |w.history| + 1 && s.world.history[..|w.history|] == w.history
         else
           && s.result == Suppressed && s.world.history == w.history && s.worker.suppressed.Some?
           && s.worker.suppressed.value.count == 1 + if me.suppressed.Some? then me.suppressed.value.count else 0
  {
    hide AppendLocked; hide LastShows; hide Minute; hide CurrentHead;
    var head := CurrentHead(Tried(w));
    AllOkAppends(env, Ticked(Tried(w)), fields, head);
  }

  /** Everything works, the caps are 1, and the clock is one microsecond before minute 1 at its first
      reading and in minute 1 from then on. */
  function EdgeEnv(digest: Body -> Digest): Env {
    Env(n => true, n => if n == 0 then 59_999_999 else 60_000_000, digest, 90, 1, 1)
  }

  lemma EdgeClock(digest: Body -> Digest)
    ensures var env := EdgeEnv(digest);
      && AllOk(env) && Monotone(env) && env.deniedCap == 1
      && Minute(env.clock(0)) == 0 && forall n: nat :: n > 0 ==> Minute(env.clock(n)) == 1
  {}

  const START := System(World([], None, None, 0, 0, []), [Party(FRESH, [])])

  /** The bound is met: with a cap of 1, a call whose window is chosen at the end of a minute and a call of
      the next minute are both written, and both show the next minute. */
  lemma CapByTimeIsMet(fields: Fields, digest: Body -> Digest)
    requires fields.Call? && fields.outcome == Denied
    ensures var env, t := EdgeEnv(digest), Turn(0, TryAppend(fields));
      AllPossible(1, [t, t]) && Monotone(env) && env.deniedCap == 1 && ShownDenied(env, START, [t, t], 0, 1) == 2
  {
    hide Append; hide Minute; hide Take; hide ShownDenied; hide LastShows; hide LastMinute; hide EdgeEnv; hide AllOk; hide Monotone;
    EdgeClock(digest);
    var env, t := EdgeEnv(digest), Turn(0, TryAppend(fields));
    DeniedCall(env, START.world, FRESH, fields);
    TakeAppend(env, START, t);
    var a := Take(env, START, t);
    DeniedCall(env, a.world, a.parties[0].me, fields);
    TakeAppend(env, a, t);
    ShowsMinute(env, a.world, fields);
    ShowsMinute(env, Take(env, a, t).world, fields);
    ShownTwo(env, START, t, 1);
  }

  lemma ShowsMinute(env: Env, w: World, fields: Fields)
    requires LastShows(env, w, fields)
    ensures w.ticks > 0 && LastMinute(w) == Some(Minute(env.clock(w.ticks - 1)))
  {}

  lemma TakeAppend(env: Env, sys: System, t: Turn)
    requires |sys.parties| == 1 && Possible(1, t) && t.action.TryAppend?
    ensures var s := Append(env, sys.world, sys.parties[0].me, t.action.fields); var after := Take(env, sys, t);
      |after.parties| == 1 && after.world == s.world && after.parties[0].me == s.worker
  {
    hide Append;
  }

  lemma ShownTwo(env: Env, sys: System, t: Turn, minute: nat)
    requires |sys.parties| == 1 && Possible(1, t) && t.action.TryAppend? && t.action.fields.outcome == Denied
    requires var a := Take(env, sys, t); var b := Take(env, a, t);
      && WroteOwn(env, sys, t, 0) && LastMinute(a.world) == Some(minute) && |a.parties| == 1
      && WroteOwn(env, a, t, 0) && LastMinute(b.world) == Some(minute)
    ensures ShownDenied(env, sys, [t, t], 0, minute) == 2
  {
    hide Take; hide WroteOwn; hide LastMinute;
    RunNone(env, sys);
    RunSnoc(env, sys, [], t);
    RunSnoc(env, sys, [t], t);
    assert [] + [t] == [t] && [t] + [t] == [t, t] && [t][..0] == [] && [t, t][..1] == [t];
    assert ShownDenied(env, sys, [t], 0, minute) == 1;
  }
}
