/** Floods: how an append moves the minute windows of its worker, and the caps per minute. */
module CallLogFlood {
  import opened Options
  import opened Order
  import opened CallLogModel
  import opened CallLogChain

  // ----- what a step leaves alone

  /** The two windows of a worker are as before. */
  predicate SameWindows(a: Worker, b: Worker) {
    a.deniedMinute == b.deniedMinute && a.deniedCount == b.deniedCount && a.readMinute == b.readMinute && a.readCounts == b.readCounts
  }

  lemma AppendLockedTicks(env: Env, w: World, fields: Fields, head: Head)
    ensures w.ticks <= AppendLocked(env, w, fields, head).world.ticks
  {}

  lemma CloseOutageFrame(env: Env, w: World, me: Worker, head: Head)
    ensures var o := CloseOutage(env, w, me, head);
      o.worker == me.(outage := o.worker.outage) && w.ticks <= o.world.ticks
  {
    hide AppendLocked;
    var state := Combine(w.degraded, me.outage);
    if state.Some? { AppendLockedTicks(env, Ticked(w), Gap(state.value.unlogged, state.value.refused, state.value.since, Now(env, w)), head); }
  }

  lemma FlushDeniedFrame(env: Env, w: World, me: Worker, head: Head)
    ensures var o := FlushDenied(env, w, me, head);
      && o.worker == me.(suppressed := o.worker.suppressed) && w.ticks <= o.world.ticks
      && (o.head.Some? ==> o.worker.suppressed.None?)
  {
    hide AppendLocked;
    if me.suppressed.Some? {
      var s := me.suppressed.value;
      AppendLockedTicks(env, w, DeniedSummary(s.count, s.windowStart, s.windowEnd), head);
    }
  }

  lemma {:induction false} FlushKeysFrame(env: Env, w: World, me: Worker, keys: seq<ReadKey>, head: Head)
    requires forall k :: k in keys ==> k in me.openReads
    requires forall i, j :: 0 <= i < j < |keys| ==> keys[i] != keys[j]
    ensures var o := FlushKeys(env, w, me, keys, head);
      && o.worker == me.(openReads := o.worker.openReads) && w.ticks <= o.world.ticks
      && (o.head.Some? ==> forall k :: k in o.worker.openReads <==> k in me.openReads && k !in keys)
    decreases |keys|
  {
    hide AppendLocked;
    if keys != [] {
      var k, s := keys[0], me.openReads[keys[0]];
      var fields := ReadSummary(k.tenant, k.transport, s.count, s.windowStart, s.windowEnd);
      AppendLockedTicks(env, w, fields, head);
      var a := AppendLocked(env, w, fields, head);
      if a.head.Some? {
        FlushKeysFrame(env, a.world, me.(openReads := me.openReads - {k}), keys[1..], a.head.value);
      }
    }
  }

  lemma FlushReadsFrame(env: Env, w: World, me: Worker, head: Head)
    ensures var o := FlushReads(env, w, me, head);
      && o.worker == me.(openReads := o.worker.openReads) && w.ticks <= o.world.ticks
      && (o.head.Some? ==> o.worker.openReads == map[])
  {
    FlushKeysFrame(env, w, me, SortedKeys(me.openReads), head);
    hide FlushKeys; hide SortedKeys;
    var o := FlushReads(env, w, me, head);
    if o.head.Some? { assert o.worker.openReads.Keys == {}; }
  }

  lemma FinishFrame(env: Env, o: Out, fields: Fields)
    ensures var s := Finish(env, o, fields); s.worker == o.worker && o.world.ticks <= s.world.ticks && s.result != Suppressed
  {
    hide AppendLocked;
    if o.head.Some? { AppendLockedTicks(env, o.world, fields, o.head.value); }
  }

  lemma MarkDegradedFrame(env: Env, w: World, me: Worker, unlogged: nat, refused: nat)
    ensures var m := MarkDegraded(env, w, me, unlogged, refused); m.worker == me.(outage := m.worker.outage) && w.ticks <= m.world.ticks
  {
    hide Combine;
  }

  // ----- one append

  predicate DeniedCounted(env: Env, me: Worker, minute: nat, s: Step) {
    && s.worker.deniedMinute == Some(minute)
    && s.worker.deniedCount == (if me.deniedMinute == Some(minute) then me.deniedCount else 0) + 1
    && (s.result == Suppressed <==> s.worker.deniedCount > env.deniedCap)
    && (me.deniedMinute != Some(minute) ==> s.worker.suppressed.None?)
    && (s.result == Suppressed ==>
         && me.deniedMinute == Some(minute) && s.worker.suppressed.Some?
         && s.worker.suppressed.value.count == 1 + (if me.suppressed.Some? then me.suppressed.value.count else 0))
  }

  /** A denied call counts once in the minute the clock showed; it is written on its own only within
      the cap, and joins a summary only of that same minute. */
  lemma DeniedStep(env: Env, w: World, me: Worker, fields: Fields, head: Head)
    requires env.deniedCap > 0
    ensures var s := AppendDenied(env, w, me, fields, head); var minute := Minute(Now(env, w));
      && w.ticks < s.world.ticks
      && s.worker.readMinute == me.readMinute && s.worker.readCounts == me.readCounts && s.worker.openReads == me.openReads && s.worker.outage == me.outage
      && if s.worker.deniedMinute == me.deniedMinute && s.worker.deniedCount == me.deniedCount
         then s.result == Failed && s.worker == me
         else DeniedCounted(env, me, minute, s)
  {
    hide FlushDenied; hide Finish; hide Minute;
    var minute, w1 := Minute(Now(env, w)), Ticked(w);
    FlushDeniedFrame(env, w1, me, head);
    FlushDeniedWhole(env, w1, me, head);
    var o := if me.deniedMinute != Some(minute) then FlushDenied(env, w1, me, head) else Out(w1, me, Some(head));
    var before := if me.deniedMinute != Some(minute) then 0 else me.deniedCount;
    FinishFrame(env, o.(worker := o.worker.(deniedMinute := Some(minute), deniedCount := before + 1)), fields);
  }

  lemma FlushDeniedWhole(env: Env, w: World, me: Worker, head: Head)
    ensures var o := FlushDenied(env, w, me, head); o.head.None? ==> o.worker == me
  {
    hide AppendLocked;
  }

  /** The same for a successful read, whose cap is per tenant and whose summaries are per tenant
      and transport. */
  predicate ReadCounted(env: Env, me: Worker, fields: Fields, minute: nat, s: Step)
    requires fields.Call?
  {
    var before := if me.readMinute == Some(minute) then me.readCounts else map[];
    var n := (if fields.tenant in before then before[fields.tenant] else 0) + 1;
    var open := if me.readMinute == Some(minute) then me.openReads else map[];
    var key := ReadKey(fields.tenant, fields.transport);
    && s.worker.readMinute == Some(minute) && s.worker.readCounts == before[fields.tenant := n]
    && (s.result == Suppressed <==> n > env.readCap)
    && if s.result != Suppressed then s.worker.openReads == open
       else
         && key in s.worker.openReads && s.worker.openReads == open[key := s.worker.openReads[key]]
         && s.worker.openReads[key].count == 1 + (if key in open then open[key].count else 0)
  }

  lemma ReadStep(env: Env, w: World, me: Worker, fields: Fields, head: Head)
    requires fields.Call?
    ensures var s := AppendRead(env, w, me, fields, head); var minute := Minute(Now(env, w));
      && w.ticks < s.world.ticks
      && s.worker.deniedMinute == me.deniedMinute && s.worker.deniedCount == me.deniedCount
      && s.worker.suppressed == me.suppressed && s.worker.outage == me.outage
      && ((s.result == Failed && s.worker == me.(openReads := s.worker.openReads)) || ReadCounted(env, me, fields, minute, s))
  {
    hide FlushReads; hide Finish; hide Minute;
    var minute, w1 := Minute(Now(env, w)), Ticked(w);
    FlushReadsFrame(env, w1, me, head);
    var o := if me.readMinute != Some(minute) then FlushReads(env, w1, me, head) else Out(w1, me, Some(head));
    var counts := if me.readMinute != Some(minute) then map[] else me.readCounts;
    var n := (if fields.tenant in counts then counts[fields.tenant] else 0) + 1;
    var me1 := o.worker.(readMinute := Some(minute), readCounts := counts[fields.tenant := n]);
    FinishFrame(env, o.(worker := me1), fields);
  }

  /** How `append` moves the two windows, at a clock reading of its own. */
  predicate Windowed(env: Env, w: World, me: Worker, fields: Fields, s: Step)
    requires fields.Call?
  {
    w.ticks <= s.world.ticks &&
    if fields.outcome == Denied then
      && s.worker.readMinute == me.readMinute && s.worker.readCounts == me.readCounts && s.worker.openReads == me.openReads
      && ((s.result == Failed && s.worker.deniedMinute == me.deniedMinute && s.worker.deniedCount == me.deniedCount && s.worker.suppressed == me.suppressed)
          || exists t {:trigger env.clock(t)} :: w.ticks <= t < s.world.ticks && DeniedCounted(env, me, Minute(env.clock(t)), s))
    else
      && s.worker.deniedMinute == me.deniedMinute && s.worker.deniedCount == me.deniedCount
      && (s.worker.suppressed == me.suppressed || s.worker.suppressed.None?)
      && if !IsRead(fields) then
           s.worker.readMinute == me.readMinute && s.worker.readCounts == me.readCounts && s.result != Suppressed
         else
           || (s.result == Failed && s.worker.readMinute == me.readMinute && s.worker.readCounts == me.readCounts)
           || exists t {:trigger env.clock(t)} :: w.ticks <= t < s.world.ticks && ReadCounted(env, me, fields, Minute(env.clock(t)), s)
  }

  lemma AppendWindowed(env: Env, w: World, me: Worker, fields: Fields)
    requires fields.Call? && env.deniedCap > 0
    ensures Windowed(env, w, me, fields, Append(env, w, me, fields))
  {
    hide CloseOutage; hide FlushDenied; hide AppendDenied; hide AppendRead; hide FlushReads; hide Finish; hide IsRead; hide IsWrite; hide CurrentHead; hide Minute; hide ReadCounted;
    var w0 := Tried(w);
    CloseOutageFrame(env, w0, me, CurrentHead(w0));
    var o := CloseOutage(env, w0, me, CurrentHead(w0));
    if env.ok(w.io) && o.head.Some? {
      if fields.outcome == Denied {
        DeniedStep(env, o.world, o.worker, fields, o.head.value);
        assert env.clock(o.world.ticks) == Now(env, o.world);
      } else {
        FlushDeniedFrame(env, o.world, o.worker, o.head.value);
        FlushDeniedWhole(env, o.world, o.worker, o.head.value);
        var p := FlushDenied(env, o.world, o.worker, o.head.value);
        if p.head.Some? {
          if IsRead(fields) {
            ReadStep(env, p.world, p.worker, fields, p.head.value);
            ReadCountedSame(env, me, p.worker, fields, Minute(env.clock(p.world.ticks)), AppendRead(env, p.world, p.worker, fields, p.head.value));
            assert env.clock(p.world.ticks) == Now(env, p.world);
          } else {
            FlushReadsFrame(env, p.world, p.worker, p.head.value);
            FinishFrame(env, if IsWrite(fields) then FlushReads(env, p.world, p.worker, p.head.value) else Out(p.world, p.worker, p.head), fields);
          }
        }
      }
    }
  }

  lemma ReadCountedSame(env: Env, a: Worker, b: Worker, fields: Fields, minute: nat, s: Step)
    requires fields.Call? && SameWindows(a, b) && a.openReads == b.openReads
    ensures ReadCounted(env, a, fields, minute, s) == ReadCounted(env, b, fields, minute, s)
  {}

  /** A turn that appends no call leaves the windows as they are. */
  lemma OtherActionFrame(env: Env, w: World, p: Party, action: Action)
    requires !action.TryAppend?
    ensures var s := Act(env, w, p, action); SameWindows(p.me, s.party.me) && w.ticks <= s.world.ticks
  {
    hide CloseOutage; hide FlushDenied; hide FlushReads; hide MarkDegraded; hide CurrentHead; hide Pending; hide AnyOpen;
    var w0 := Tried(w);
    var head := CurrentHead(w0);
    match action
    case TryPreflight => CloseOutageFrame(env, w0, p.me, head);
    case TryFlush =>
      FlushDeniedFrame(env, w0, p.me, head);
      var o := FlushDenied(env, w0, p.me, head);
      if o.head.Some? { FlushReadsFrame(env, o.world, o.worker, o.head.value); }
    case Settle(n) => if n < |p.owes| { MarkDegradedFrame(env, w, p.me, p.owes[n].unlogged, p.owes[n].refused); }
    case Close => MarkDegradedFrame(env, w, p.me, Pending(p.me), 0);
  }

  // ----- the caps, over whole runs

  /** Worker `i` wrote an entry of its own for this turn's call. */
  predicate WroteOwn(env: Env, before: System, t: Turn, i: nat)
    requires Possible(|before.parties|, t)
  {
    t.worker == i && t.action.TryAppend? && Append(env, before.world, before.parties[i].me, t.action.fields).result == Logged
  }

  /** Denied calls that worker `i` wrote one by one while its window was `minute`. */
  function OwnDenied(env: Env, sys: System, turns: seq<Turn>, i: nat, minute: nat): nat
    requires i < |sys.parties| && AllPossible(|sys.parties|, turns)
  {
    if turns == [] then 0
    else
      var earlier, last := turns[..|turns| - 1], turns[|turns| - 1];
      assert Possible(|sys.parties|, last);
      OwnDenied(env, sys, earlier, i, minute) +
        if WroteOwn(env, Run(env, sys, earlier), last, i) && last.action.fields.outcome == Denied
           && Run(env, sys, turns).parties[i].me.deniedMinute == Some(minute) then 1 else 0
  }

  /** Successful reads of one tenant that worker `i` wrote one by one while its window was `minute`. */
  function OwnReads(env: Env, sys: System, turns: seq<Turn>, i: nat, tenant: Id, minute: nat): nat
    requires i < |sys.parties| && AllPossible(|sys.parties|, turns)
  {
    if turns == [] then 0
    else
      var earlier, last := turns[..|turns| - 1], turns[|turns| - 1];
      assert Possible(|sys.parties|, last);
      OwnReads(env, sys, earlier, i, tenant, minute) +
        if WroteOwn(env, Run(env, sys, earlier), last, i) && IsRead(last.action.fields) && last.action.fields.tenant == tenant
           && Run(env, sys, turns).parties[i].me.readMinute == Some(minute) then 1 else 0
  }

  /** `n` calls so far were written on their own in `minute`; the window is at `at` with `count`. */
  predicate Capped(at: Option<nat>, count: nat, cap: nat, minute: nat, n: nat) {
    && n <= cap
    && (at.None? || at.value < minute ==> n == 0)
    && (at == Some(minute) ==> n <= count)
  }

  predicate NotLater(env: Env, at: Option<nat>, ticks: nat) {
    at.Some? ==> at.value <= Minute(env.clock(ticks))
  }

  function TenantCount(me: Worker, tenant: Id): nat {
    if tenant in me.readCounts then me.readCounts[tenant] else 0
  }

  lemma MinuteMono(env: Env, s: nat, t: nat)
    requires Monotone(env) && s <= t
    ensures Minute(env.clock(s)) <= Minute(env.clock(t))
  {
    assert env.clock(s) <= env.clock(t);
  }

  lemma DeniedTurn(env: Env, w: World, p: Party, action: Action, minute: nat, n: nat)
    requires Allowed(action) && Monotone(env) && env.deniedCap > 0
    requires Capped(p.me.deniedMinute, p.me.deniedCount, env.deniedCap, minute, n) && NotLater(env, p.me.deniedMinute, w.ticks)
    ensures var s := Act(env, w, p, action);
      && NotLater(env, s.party.me.deniedMinute, s.world.ticks)
      && Capped(s.party.me.deniedMinute, s.party.me.deniedCount, env.deniedCap, minute,
                n + if action.TryAppend? && s.result == Logged && action.fields.outcome == Denied && s.party.me.deniedMinute == Some(minute) then 1 else 0)
  {
    hide Append; hide Preflight; hide FlushLocked; hide HandOver; hide MarkDegraded; hide Minute; hide IsRead; hide ReadCounted;
    var me := p.me;
    var a := Act(env, w, p, action);
    if action.TryAppend? {
      var s := Append(env, w, me, action.fields);
      AppendWindowed(env, w, me, action.fields);
      if action.fields.outcome == Denied && !(s.worker.deniedMinute == me.deniedMinute && s.worker.deniedCount == me.deniedCount) {
        var t :| w.ticks <= t < s.world.ticks && DeniedCounted(env, me, Minute(env.clock(t)), s);
        MinuteMono(env, w.ticks, t);
        MinuteMono(env, t, s.world.ticks);
      }
    } else {
      OtherActionFrame(env, w, p, action);
    }
    MinuteMono(env, w.ticks, a.world.ticks);
  }

  lemma ReadTurn(env: Env, w: World, p: Party, action: Action, tenant: Id, minute: nat, n: nat)
    requires Allowed(action) && Monotone(env) && env.deniedCap > 0
    requires Capped(p.me.readMinute, TenantCount(p.me, tenant), env.readCap, minute, n) && NotLater(env, p.me.readMinute, w.ticks)
    ensures var s := Act(env, w, p, action);
      && NotLater(env, s.party.me.readMinute, s.world.ticks)
      && Capped(s.party.me.readMinute, TenantCount(s.party.me, tenant), env.readCap, minute,
                n + if action.TryAppend? && s.result == Logged && IsRead(action.fields) && action.fields.tenant == tenant && s.party.me.readMinute == Some(minute) then 1 else 0)
  {
    hide Append; hide Preflight; hide FlushLocked; hide HandOver; hide MarkDegraded; hide Minute; hide DeniedCounted;
    var me := p.me;
    var a := Act(env, w, p, action);
    if action.TryAppend? {
      var s := Append(env, w, me, action.fields);
      AppendWindowed(env, w, me, action.fields);
      if IsRead(action.fields) && !(s.worker.readMinute == me.readMinute && s.worker.readCounts == me.readCounts) {
        var t :| w.ticks <= t < s.world.ticks && ReadCounted(env, me, action.fields, Minute(env.clock(t)), s);
        MinuteMono(env, w.ticks, t);
        MinuteMono(env, t, s.world.ticks);
      }
    } else {
      OtherActionFrame(env, w, p, action);
    }
    MinuteMono(env, w.ticks, a.world.ticks);
  }

  lemma ActTicks(env: Env, w: World, p: Party, action: Action)
    requires Allowed(action) && env.deniedCap > 0
    ensures w.ticks <= Act(env, w, p, action).world.ticks
  {
    hide Append; hide Preflight; hide FlushLocked; hide HandOver; hide MarkDegraded; hide Minute; hide IsRead; hide ReadCounted; hide DeniedCounted;
    if action.TryAppend? { AppendWindowed(env, w, p.me, action.fields); } else { OtherActionFrame(env, w, p, action); }
  }

  /** In any run with a clock that never goes back, a worker that started fresh writes at most the
      cap of denied calls per minute one by one, and at most the cap of reads per minute and tenant. */
  lemma {:induction false} CapsHold(env: Env, sys: System, turns: seq<Turn>, i: nat, tenant: Id, minute: nat)
    requires i < |sys.parties| && AllPossible(|sys.parties|, turns)
    requires Monotone(env) && env.deniedCap > 0
    requires sys.parties[i].me.deniedMinute.None? && sys.parties[i].me.readMinute.None?
    ensures OwnDenied(env, sys, turns, i, minute) <= env.deniedCap
    ensures OwnReads(env, sys, turns, i, tenant, minute) <= env.readCap
    ensures var r := Run(env, sys, turns); var me := r.parties[i].me;
      && NotLater(env, me.deniedMinute, r.world.ticks) && NotLater(env, me.readMinute, r.world.ticks)
      && Capped(me.deniedMinute, me.deniedCount, env.deniedCap, minute, OwnDenied(env, sys, turns, i, minute))
      && Capped(me.readMinute, TenantCount(me, tenant), env.readCap, minute, OwnReads(env, sys, turns, i, tenant, minute))
  {
    hide Append; hide Preflight; hide FlushLocked; hide HandOver; hide MarkDegraded; hide Minute; hide IsRead; hide TenantCount; hide Capped;
    if turns == [] {
      NothingYet(env, minute);
    } else {
      var earlier, last := turns[..|turns| - 1], turns[|turns| - 1];
      CapsHold(env, sys, earlier, i, tenant, minute);
      var before := Run(env, sys, earlier);
      assert Possible(|sys.parties|, last);
      if last.worker == i {
        DeniedTurn(env, before.world, before.parties[i], last.action, minute, OwnDenied(env, sys, earlier, i, minute));
        ReadTurn(env, before.world, before.parties[i], last.action, tenant, minute, OwnReads(env, sys, earlier, i, tenant, minute));
      } else {
        ActTicks(env, before.world, before.parties[last.worker], last.action);
        MinuteMono(env, before.world.ticks, Run(env, sys, turns).world.ticks);
      }
      CappedCount(env, Run(env, sys, turns).parties[i].me, tenant, minute, OwnDenied(env, sys, turns, i, minute), OwnReads(env, sys, turns, i, tenant, minute));
    }
  }

  lemma NothingYet(env: Env, minute: nat)
    ensures forall count, cap :: Capped(None, count, cap, minute, 0)
  {}

  lemma CappedCount(env: Env, me: Worker, tenant: Id, minute: nat, n: nat, m: nat)
    requires Capped(me.deniedMinute, me.deniedCount, env.deniedCap, minute, n)
    requires Capped(me.readMinute, TenantCount(me, tenant), env.readCap, minute, m)
    ensures n <= env.deniedCap && m <= env.readCap
  {}
}
