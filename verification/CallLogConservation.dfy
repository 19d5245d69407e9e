/** No call is lost and none is counted twice, whatever writes fail and however the workers take
    turns: every recorded call is an entry of its own, or in the count of a summary or a gap entry,
    or still pending in a worker or in the DEGRADED file. Refused writes are conserved likewise. */
module CallLogConservation {
  import opened Options
  import opened Order
  import opened CallLogModel

  datatype Tally = Tally(calls: int, refused: int)

  function Plus(s: Tally, t: Tally): Tally {
    Tally(s.calls + t.calls, s.refused + t.refused)
  }

  const ZERO := Tally(0, 0)

  function FieldsTally(f: Fields): Tally {
    match f
    case Call(_, _, _, _, _, _, _) => Tally(1, 0)
    case DeniedSummary(n, _, _) => Tally(n, 0)
    case ReadSummary(_, _, n, _, _) => Tally(n, 0)
    case Gap(unlogged, refused, _, _) => Tally(unlogged, refused)
  }

  function LogTally(history: seq<Entry>): Tally {
    if history == [] then ZERO
    else Plus(LogTally(history[..|history| - 1]), FieldsTally(history[|history| - 1].body.fields))
  }

  function OutageTally(o: Option<Outage>): Tally {
    if o.None? then ZERO else Tally(o.value.unlogged, o.value.refused)
  }

  function WorldTally(w: World): Tally {
    Plus(LogTally(w.history), OutageTally(w.degraded))
  }

  function WorkerTally(me: Worker): Tally {
    Plus(Tally(Pending(me), 0), OutageTally(me.outage))
  }

  function Total(w: World, me: Worker): Tally {
    Plus(WorldTally(w), WorkerTally(me))
  }

  // ----- sums over the open read summaries

  lemma {:induction false} CountKeysAgree(a: map<ReadKey, Summary>, b: map<ReadKey, Summary>, keys: seq<ReadKey>)
    requires forall k :: k in keys ==> k in a && k in b && a[k] == b[k]
    ensures CountKeys(a, keys) == CountKeys(b, keys)
  {
    if keys != [] {
      CountKeysAgree(a, b, keys[1..]);
    }
  }

  lemma SortedKeysRest(m: map<ReadKey, Summary>)
    requires m != map[]
    ensures SortedKeys(m) != [] && SortedKeys(m)[1..] == SortedKeys(m - {SortedKeys(m)[0]})
    ensures CountReads(m) == m[SortedKeys(m)[0]].count + CountReads(m - {SortedKeys(m)[0]})
  {
    KeyBeforeStrict();
    assert m.Keys != {};
    var l := Least(m.Keys, KeyBefore);
    assert (m - {l}).Keys == m.Keys - {l};
    CountKeysAgree(m, m - {l}, SortedKeys(m - {l}));
  }

  lemma FirstKeyStays(m: map<ReadKey, Summary>, k: ReadKey)
    requires k in m && SortedKeys(m)[0] != k
    ensures SortedKeys(m - {k}) != [] && SortedKeys(m - {k})[0] == SortedKeys(m)[0]
  {
    KeyBeforeStrict();
    var l := SortedKeys(m)[0];
    assert l == Least(m.Keys, KeyBefore);
    assert (m - {k}).Keys == m.Keys - {k};
    assert l in m.Keys - {k};
  }

  lemma RemoveSwap<K, V>(m: map<K, V>, k: K, l: K)
    ensures m - {l} - {k} == m - {k} - {l}
    ensures l in m ==> |m - {l}| < |m|
  {
    assert (m - {l}).Keys == m.Keys - {l};
    if l in m { assert |m.Keys - {l}| < |m.Keys|; assert |m - {l}| == |(m - {l}).Keys| && |m| == |m.Keys|; }
  }

  /** Taking one summary out takes its count out, wherever the key comes in the order. */
  lemma {:induction false} CountReadsRemove(m: map<ReadKey, Summary>, k: ReadKey)
    requires k in m
    ensures CountReads(m) == m[k].count + CountReads(m - {k})
    decreases |m|
  {
    hide *;
    SortedKeysRest(m);
    var l := SortedKeys(m)[0];
    assert l in SortedKeys(m);
    if k != l {
      RemoveSwap(m, k, l);
      CountReadsRemove(m - {l}, k);
      FirstKeyStays(m, k);
      assert m - {k} != map[] by { assert l in m - {k}; }
      SortedKeysRest(m - {k});
    }
  }

  lemma CountReadsUpdate(m: map<ReadKey, Summary>, k: ReadKey, s: Summary)
    ensures CountReads(m[k := s]) == s.count + CountReads(m) - (if k in m then m[k].count else 0)
  {
    hide *;
    CountReadsRemove(m[k := s], k);
    assert m[k := s] - {k} == m - {k};
    if k in m { CountReadsRemove(m, k); } else { assert m - {k} == m; }
  }

  // ----- each step

  lemma AppendLockedTally(env: Env, w: World, fields: Fields, head: Head)
    ensures var a := AppendLocked(env, w, fields, head);
      WorldTally(a.world) == if a.head.Some? then Plus(WorldTally(w), FieldsTally(fields)) else WorldTally(w)
    ensures AppendLocked(env, w, fields, head).world.degraded == w.degraded
  {
    hide AddEntry; hide OldCount; hide LastEntry; hide Day; hide HeadOf;
    var now := Now(env, w);
    var e := NextEntry(env, now, fields, head);
    assert (w.history + [e])[..|w.history|] == w.history;
  }

  lemma {:induction false} CombineTally(a: Option<Outage>, b: Option<Outage>)
    ensures OutageTally(Combine(a, b)) == Plus(OutageTally(a), OutageTally(b))
  {}

  lemma MarkDegradedTally(env: Env, w: World, me: Worker, unlogged: nat, refused: nat)
    ensures var m := MarkDegraded(env, w, me, unlogged, refused);
      && Total(m.world, m.worker) == Plus(Total(w, me), Tally(unlogged, refused))
      && m.worker.suppressed == me.suppressed && m.worker.openReads == me.openReads
  {
    hide LogTally; hide CountReads;
  }

  lemma CloseOutageTally(env: Env, w: World, me: Worker, head: Head)
    ensures var o := CloseOutage(env, w, me, head); Total(o.world, o.worker) == Total(w, me)
  {
    hide AppendLocked; hide CountReads; hide LogTally;
    var state := Combine(w.degraded, me.outage);
    CombineTally(w.degraded, me.outage);
    if state.Some? {
      var s := state.value;
      AppendLockedTally(env, Ticked(w), Gap(s.unlogged, s.refused, s.since, Now(env, w)), head);
    }
  }

  lemma FlushDeniedTally(env: Env, w: World, me: Worker, head: Head)
    ensures var o := FlushDenied(env, w, me, head); Total(o.world, o.worker) == Total(w, me)
  {
    hide AppendLocked; hide CountReads; hide LogTally;
    if me.suppressed.Some? {
      var s := me.suppressed.value;
      AppendLockedTally(env, w, DeniedSummary(s.count, s.windowStart, s.windowEnd), head);
    }
  }

  lemma {:induction false} FlushKeysTally(env: Env, w: World, me: Worker, keys: seq<ReadKey>, head: Head)
    requires forall k :: k in keys ==> k in me.openReads
    requires forall i, j :: 0 <= i < j < |keys| ==> keys[i] != keys[j]
    ensures var o := FlushKeys(env, w, me, keys, head); Total(o.world, o.worker) == Total(w, me)
    decreases |keys|
  {
    hide AppendLocked; hide CountReads; hide LogTally;
    if keys != [] {
      var k, s := keys[0], me.openReads[keys[0]];
      AppendLockedTally(env, w, ReadSummary(k.tenant, k.transport, s.count, s.windowStart, s.windowEnd), head);
      CountReadsRemove(me.openReads, k);
      var a := AppendLocked(env, w, ReadSummary(k.tenant, k.transport, s.count, s.windowStart, s.windowEnd), head);
      if a.head.Some? {
        FlushKeysTally(env, a.world, me.(openReads := me.openReads - {k}), keys[1..], a.head.value);
      }
    }
  }

  lemma FinishTally(env: Env, o: Out, fields: Fields)
    requires fields.Call?
    ensures var s := Finish(env, o, fields);
      Total(s.world, s.worker) == if s.result == Failed then Total(o.world, o.worker) else Plus(Total(o.world, o.worker), Tally(1, 0))
  {
    hide AppendLocked; hide WorldTally; hide WorkerTally;
    if o.head.Some? { AppendLockedTally(env, o.world, fields, o.head.value); }
  }

  lemma AppendDeniedTally(env: Env, w: World, me: Worker, fields: Fields, head: Head)
    requires fields.Call?
    ensures var s := AppendDenied(env, w, me, fields, head);
      Total(s.world, s.worker) == if s.result == Failed then Total(w, me) else Plus(Total(w, me), Tally(1, 0))
  {
    hide FlushDenied; hide Finish; hide LogTally; hide CountReads;
    var minute, w1 := Minute(Now(env, w)), Ticked(w);
    FlushDeniedTally(env, w1, me, head);
    var o := if me.deniedMinute != Some(minute) then FlushDenied(env, w1, me, head) else Out(w1, me, Some(head));
    var before := if me.deniedMinute != Some(minute) then 0 else me.deniedCount;
    FinishTally(env, o.(worker := o.worker.(deniedMinute := Some(minute), deniedCount := before + 1)), fields);
  }

  lemma CountedTally(env: Env, w: World, open: Option<Summary>)
    ensures var (s, w1) := Counted(env, w, open);
      WorldTally(w1) == WorldTally(w) && s.count == 1 + (if open.Some? then open.value.count else 0)
  {
    hide LogTally;
  }

  lemma CountReadTally(env: Env, o: Out, minute: nat, counts: map<Id, nat>, fields: Fields)
    requires fields.Call?
    ensures var s := CountRead(env, o, minute, counts, fields);
      Total(s.world, s.worker) == if s.result == Failed then Total(o.world, o.worker) else Plus(Total(o.world, o.worker), Tally(1, 0))
  {
    hide Finish; hide WorldTally; hide CountReads; hide Counted; hide OutageTally;
    var n := (if fields.tenant in counts then counts[fields.tenant] else 0) + 1;
    var me := o.worker.(readMinute := Some(minute), readCounts := counts[fields.tenant := n]);
    var key := ReadKey(fields.tenant, fields.transport);
    var open := if key in me.openReads then Some(me.openReads[key]) else None;
    CountedTally(env, o.world, open);
    CountReadsUpdate(me.openReads, key, Counted(env, o.world, open).0);
    FinishTally(env, o.(worker := me), fields);
  }

  lemma AppendReadTally(env: Env, w: World, me: Worker, fields: Fields, head: Head)
    requires fields.Call?
    ensures var s := AppendRead(env, w, me, fields, head);
      Total(s.world, s.worker) == if s.result == Failed then Total(w, me) else Plus(Total(w, me), Tally(1, 0))
  {
    hide FlushKeys; hide CountRead; hide LogTally; hide WorkerTally; hide OutageTally;
    var minute, w1 := Minute(Now(env, w)), Ticked(w);
    assert WorldTally(w1) == WorldTally(w);
    hide WorldTally;
    FlushKeysTally(env, w1, me, SortedKeys(me.openReads), head);
    var o := if me.readMinute != Some(minute) then FlushReads(env, w1, me, head) else Out(w1, me, Some(head));
    CountReadTally(env, o, minute, if me.readMinute != Some(minute) then map[] else me.readCounts, fields);
  }

  lemma AppendTally(env: Env, w: World, me: Worker, fields: Fields)
    requires fields.Call?
    ensures var s := Append(env, w, me, fields);
      Total(s.world, s.worker) == if s.result == Failed then Total(w, me) else Plus(Total(w, me), Tally(1, 0))
  {
    hide CloseOutage; hide FlushDenied; hide AppendDenied; hide AppendRead; hide FlushKeys; hide Finish; hide LogTally; hide CountReads; hide IsRead; hide IsWrite; hide CurrentHead;
    var w0 := Tried(w);
    if env.ok(w.io) {
      CloseOutageTally(env, w0, me, CurrentHead(w0));
      var o := CloseOutage(env, w0, me, CurrentHead(w0));
      if o.head.Some? {
        if fields.outcome == Denied {
          AppendDeniedTally(env, o.world, o.worker, fields, o.head.value);
        } else {
          FlushDeniedTally(env, o.world, o.worker, o.head.value);
          var p := FlushDenied(env, o.world, o.worker, o.head.value);
          if p.head.Some? {
            if IsRead(fields) {
              AppendReadTally(env, p.world, p.worker, fields, p.head.value);
            } else {
              FlushKeysTally(env, p.world, p.worker, SortedKeys(p.worker.openReads), p.head.value);
              FinishTally(env, if IsWrite(fields) then FlushReads(env, p.world, p.worker, p.head.value) else Out(p.world, p.worker, p.head), fields);
            }
          }
        }
      }
    }
  }

  lemma PreflightTally(env: Env, w: World, me: Worker)
    ensures var o := Preflight(env, w, me); Total(o.world, o.worker) == Total(w, me)
  {
    hide CloseOutage; hide LogTally; hide CountReads; hide CurrentHead;
    CloseOutageTally(env, Tried(w), me, CurrentHead(Tried(w)));
  }

  lemma FlushLockedTally(env: Env, w: World, me: Worker)
    ensures var o := FlushLocked(env, w, me); Total(o.world, o.worker) == Total(w, me)
  {
    hide FlushDenied; hide FlushKeys; hide LogTally; hide CountReads; hide CurrentHead;
    var w0 := Tried(w);
    FlushDeniedTally(env, w0, me, CurrentHead(w0));
    var p := FlushDenied(env, w0, me, CurrentHead(w0));
    if p.head.Some? { FlushKeysTally(env, p.world, p.worker, SortedKeys(p.worker.openReads), p.head.value); }
  }

  lemma PendingSame(a: Worker, b: Worker)
    requires a.suppressed == b.suppressed && a.openReads == b.openReads
    ensures Pending(a) == Pending(b)
  {}

  lemma NothingPending(me: Worker)
    requires me.suppressed.None? && me.openReads == map[]
    ensures Pending(me) == 0
  {
    assert SortedKeys(map[]) == [];
  }

  lemma HandOverTally(env: Env, w: World, me: Worker)
    ensures var m := HandOver(env, w, me); Total(m.world, m.worker) == Total(w, me)
  {
    hide MarkDegraded; hide WorldTally; hide Pending; hide OutageTally;
    MarkDegradedTally(env, w, me, Pending(me), 0);
    var n := MarkDegraded(env, w, me, Pending(me), 0);
    PendingSame(me, n.worker);
    NothingPending(n.worker.(suppressed := None, openReads := map[]));
  }

  // ----- any number of workers, any interleaving

  /** Calls and refusals in flight: decided on under one hold of the lock, not yet marked. */
  function DebtsTally(owes: seq<Debt>): Tally {
    if owes == [] then ZERO else Plus(DebtsTally(owes[..|owes| - 1]), Tally(owes[|owes| - 1].unlogged, owes[|owes| - 1].refused))
  }

  lemma {:induction false} DebtsWithout(owes: seq<Debt>, n: nat)
    requires n < |owes|
    ensures DebtsTally(owes) == Plus(DebtsTally(owes[..n] + owes[n + 1..]), Tally(owes[n].unlogged, owes[n].refused))
  {
    var rest := owes[..n] + owes[n + 1..];
    if n == |owes| - 1 {
      assert rest == owes[..n];
    } else {
      var m := |owes| - 1;
      DebtsWithout(owes[..m], n);
      assert rest[..|rest| - 1] == owes[..m][..n] + owes[..m][n + 1..];
      assert rest[|rest| - 1] == owes[m];
    }
  }

  lemma DebtsWith(owes: seq<Debt>, d: Debt)
    ensures DebtsTally(owes + [d]) == Plus(DebtsTally(owes), Tally(d.unlogged, d.refused))
  {
    assert (owes + [d])[..|owes|] == owes;
  }

  function PartyTally(p: Party): Tally {
    Plus(WorkerTally(p.me), DebtsTally(p.owes))
  }

  function PartiesTally(parties: seq<Party>): Tally {
    if parties == [] then ZERO else Plus(PartiesTally(parties[..|parties| - 1]), PartyTally(parties[|parties| - 1]))
  }

  /** Where the calls and refusals are: in the log, in the DEGRADED file, in the workers' open summaries
      and outages, and in flight between two holds of the lock. */
  function SystemTally(sys: System): Tally {
    Plus(WorldTally(sys.world), PartiesTally(sys.parties))
  }

  /** What the turns themselves amount to: one call per append tried, one refusal per failed preflight. */
  function Arrived(env: Env, sys: System, turns: seq<Turn>): Tally
    requires AllPossible(|sys.parties|, turns)
  {
    if turns == [] then ZERO
    else
      var earlier, last := turns[..|turns| - 1], turns[|turns| - 1];
      var before := Run(env, sys, earlier);
      assert Possible(|sys.parties|, last);
      Plus(Arrived(env, sys, earlier),
        if last.action.TryAppend? then Tally(1, 0)
        else if last.action.TryPreflight? && Act(env, before.world, before.parties[last.worker], TryPreflight).result == Failed then Tally(0, 1)
        else ZERO)
  }

  lemma {:induction false} PartiesTallyUpdate(parties: seq<Party>, i: nat, p: Party)
    requires i < |parties|
    ensures var a, b := PartiesTally(parties), PartiesTally(parties[i := p]);
      && a.calls + PartyTally(p).calls == b.calls + PartyTally(parties[i]).calls
      && a.refused + PartyTally(p).refused == b.refused + PartyTally(parties[i]).refused
  {
    hide PartyTally;
    var n := |parties| - 1;
    if i == n {
      assert parties[i := p][..n] == parties[..n];
    } else {
      PartiesTallyUpdate(parties[..n], i, p);
      assert parties[i := p][..n] == parties[..n][i := p];
    }
  }

  /** One hold of the lock: an append tried adds its call, logged, counted or owed; a preflight that
      fails adds its refusal as owed; settling, flushing and closing add nothing. */
  lemma ActTally(env: Env, w: World, p: Party, action: Action)
    requires Allowed(action)
    ensures var s := Act(env, w, p, action);
      Plus(WorldTally(s.world), PartyTally(s.party)) == Plus(Plus(WorldTally(w), PartyTally(p)),
        if action.TryAppend? then Tally(1, 0) else if action.TryPreflight? && s.result == Failed then Tally(0, 1) else ZERO)
  {
    hide Append; hide Preflight; hide FlushLocked; hide HandOver; hide MarkDegraded; hide WorldTally; hide WorkerTally; hide DebtsTally;
    match action
    case TryAppend(f) =>
      AppendTally(env, w, p.me, f);
      DebtsWith(p.owes, Debt(1, 0));
    case TryPreflight =>
      PreflightTally(env, w, p.me);
      DebtsWith(p.owes, Debt(0, 1));
    case TryFlush =>
      FlushLockedTally(env, w, p.me);
      DebtsWith(p.owes, Debt(0, 0));
    case Settle(n) =>
      if n < |p.owes| {
        MarkDegradedTally(env, w, p.me, p.owes[n].unlogged, p.owes[n].refused);
        DebtsWithout(p.owes, n);
      }
    case Close => HandOverTally(env, w, p.me);
  }

  /** Conservation of calls and of refusals over every run of every number of workers and threads. */
  lemma {:induction false} CallsConserved(env: Env, sys: System, turns: seq<Turn>)
    requires AllPossible(|sys.parties|, turns)
    ensures SystemTally(Run(env, sys, turns)) == Plus(SystemTally(sys), Arrived(env, sys, turns))
  {
    hide Act; hide WorldTally; hide PartyTally; hide PartiesTally;
    if turns != [] {
      var earlier, last := turns[..|turns| - 1], turns[|turns| - 1];
      CallsConserved(env, sys, earlier);
      var before := Run(env, sys, earlier);
      assert Possible(|sys.parties|, last);
      var s := Act(env, before.world, before.parties[last.worker], last.action);
      ActTally(env, before.world, before.parties[last.worker], last.action);
      PartiesTallyUpdate(before.parties, last.worker, s.party);
    }
  }

  /** A run in which another worker writes between a failed append and its mark: the log starts with that
      worker's call and no gap, while the lost call is in the DEGRADED file. */
  lemma GapMayComeLater(fields: Fields, digest: Body -> Digest) returns (env: Env, turns: seq<Turn>)
    requires fields.Call? && fields.outcome == Error
    ensures AllPossible(2, turns)
    ensures var r := Run(env, System(World([], None, None, 0, 0, []), [Party(FRESH, []), Party(FRESH, [])]), turns);
      && |r.world.history| == 1 && r.world.history[0].body.fields == fields
      && r.world.degraded.Some? && r.world.degraded.value.unlogged == 1 && r.parties[0].owes == []
  {
    env := Env(n => n != 0, n => 0, digest, 90, 1, 1);
    var w, p := World([], None, None, 0, 0, []), Party(FRESH, []);
    var sys := System(w, [p, p]);
    var t0, t1, t2 := Turn(0, TryAppend(fields)), Turn(1, TryAppend(fields)), Turn(0, Settle(0));
    turns := [t0, t1, t2];
    LockRefused(env, w, fields);
    FirstEntry(env, Tried(w), fields);
    hide Append; hide MarkDegraded; hide Run;
    RunNone(env, sys);
    RunSnoc(env, sys, [], t0);
    RunSnoc(env, sys, [t0], t1);
    RunSnoc(env, sys, [t0, t1], t2);
    assert [] + [t0] == [t0] && [t0] + [t1] == [t0, t1] && [t0, t1] + [t2] == turns;
    var b := Append(env, Tried(w), FRESH, fields);
    SettleFirst(env, b.world);
  }

  lemma LockRefused(env: Env, w: World, fields: Fields)
    requires fields.Call? && !env.ok(w.io)
    ensures Append(env, w, FRESH, fields) == Step(Tried(w), FRESH, Failed)
  {}

  lemma SettleFirst(env: Env, w: World)
    requires env.ok(w.io) && w.degraded.None?
    ensures var m := MarkDegraded(env, w, FRESH, 1, 0);
      m.world.history == w.history && m.world.degraded.Some? && m.world.degraded.value.unlogged == 1
  {}

  lemma FirstEntry(env: Env, w: World, fields: Fields)
    requires fields.Call? && fields.outcome == Error && env.ok(w.io) && env.ok(w.io + 1) && w == World([], None, None, w.io, w.ticks, [])
    ensures var s := Append(env, w, FRESH, fields);
      && s.result == Logged && |s.world.history| == 1 && s.world.history[0].body.fields == fields
      && s.world.degraded.None? && s.world.io == w.io + 2 && s.worker == FRESH
  {
    assert !IsRead(fields) && !IsWrite(fields);
  }
}
