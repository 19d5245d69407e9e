/** Which entries retention may take away: by the days of the files for one append, and by the times of
    the entries over whole runs. */
module CallLogRetention {
  import opened Options
  import opened Order
  import opened CallLogModel
  import opened CallLogChain
  import opened CallLogTimes

  // ----- one append

  /** More than `retainDays` days before the day of `now`. */
  predicate Expired(env: Env, now: Time, day: nat) {
    day + env.retainDays < Day(now)
  }

  lemma {:induction false} OldFirst(files: seq<DayFile>, cutoff: int)
    requires DaysAscend(files)
    ensures var n := OldCount(files, cutoff);
      && (forall i :: 0 <= i < n ==> files[i].day < cutoff) && (forall i :: n <= i < |files| ==> files[i].day >= cutoff)
  {
    if files != [] && files[0].day < cutoff {
      OldFirst(files[1..], cutoff);
    }
  }

  /** Retention drops exactly the expired files, and none when all are expired. */
  lemma RetainExact(env: Env, w: World, now: Time)
    requires DaysAscend(w.files)
    ensures var v := Retain(env, w, now);
      && v.history == w.history && v.ticks == w.ticks
      && (if forall f :: f in w.files ==> Expired(env, now, f.day) then v.files == w.files
          else exists n: nat :: n <= |w.files| && v.files == w.files[n..]
                 && (forall i :: 0 <= i < n ==> Expired(env, now, w.files[i].day))
                 && (forall i :: n <= i < |w.files| ==> !Expired(env, now, w.files[i].day)))
  {
    hide Day; hide OldCount; hide LastEntry; hide DaysAscend;
    OldFirst(w.files, Day(now) - env.retainDays);
    var n := OldCount(w.files, Day(now) - env.retainDays);
    if n == |w.files| {
      forall f | f in w.files ensures Expired(env, now, f.day) {}
    } else {
      assert w.files[n] in w.files;
      assert w.files[0..] == w.files;
    }
  }

  /** The day's file with one more entry; every other file as it was. */
  predicate Added(files: seq<DayFile>, more: seq<DayFile>, day: nat, e: Entry) {
    && more != []
    && (more == files + [DayFile(day, [e])]
        || (files != [] && files[|files| - 1].day == day
            && more == files[..|files| - 1] + [DayFile(day, files[|files| - 1].entries + [e])]))
  }

  lemma AddEntryAdds(files: seq<DayFile>, day: nat, e: Entry)
    requires files != [] ==> files[|files| - 1].day <= day
    ensures Added(files, AddEntry(files, day, e), day, e)
  {}

  predicate KeptFile(f: DayFile, files: seq<DayFile>) {
    exists g :: g in files && g.day == f.day && f.entries <= g.entries
  }

  lemma AddedKeeps(files: seq<DayFile>, more: seq<DayFile>, day: nat, e: Entry)
    requires Added(files, more, day, e)
    ensures forall f :: f in files ==> KeptFile(f, more)
    ensures forall g :: g in more ==> g in files || g.day == day
  {
    forall f | f in files ensures KeptFile(f, more) {
      var i :| 0 <= i < |files| && files[i] == f;
      assert more[i] in more;
    }
  }

  predicate AllExpired(env: Env, now: Time, files: seq<DayFile>) {
    forall f :: f in files ==> Expired(env, now, f.day)
  }

  lemma RetainedFiles(env: Env, w: World, now: Time)
    requires DaysAscend(w.files)
    ensures var v := Retain(env, w, now).files;
      && (forall f :: f in v ==> f in w.files) && (forall f :: f in w.files && !Expired(env, now, f.day) ==> f in v)
      && (if AllExpired(env, now, w.files) then v == w.files else forall f :: f in v ==> !Expired(env, now, f.day))
  {
    hide Retain; hide Expired; hide DaysAscend;
    RetainExact(env, w, now);
  }

  /** An append keeps every file that is not expired, with all its entries; it leaves no expired file when
      one of the files is not expired, and drops nothing when all are. */
  lemma AppendRetains(env: Env, w: World, fields: Fields, head: Head)
    requires DaysAscend(w.files) && (w.files != [] ==> w.files[|w.files| - 1].day <= Day(env.clock(w.ticks)))
    ensures var now, v := env.clock(w.ticks), AppendLocked(env, w, fields, head).world.files;
      && (forall f :: f in w.files && !Expired(env, now, f.day) ==> KeptFile(f, v))
      && (if AllExpired(env, now, w.files) then forall f :: f in w.files ==> KeptFile(f, v) else forall g :: g in v ==> !Expired(env, now, g.day))
  {
    hide Retain; hide AddEntry; hide KeptFile; hide Day; hide DaysAscend; hide Added; hide Expired; hide AllExpired;
    var now := env.clock(w.ticks);
    RetainedFiles(env, Ticked(w), now);
    RetainLast(env, Ticked(w), now);
    NotToday(env, now);
    var kept := Retain(env, Ticked(w), now).files;
    forall f | f in kept ensures KeptFile(f, kept) { KeptSelf(f, kept); }
    var e := NextEntry(env, now, fields, head);
    AddEntryAdds(kept, Day(now), e);
    AddedKeeps(kept, AddEntry(kept, Day(now), e), Day(now), e);
  }

  lemma RetainLast(env: Env, w: World, now: Time)
    ensures var v := Retain(env, w, now).files; v != [] ==> w.files != [] && v[|v| - 1].day == w.files[|w.files| - 1].day
  {
    hide Day; hide LastEntry; hide OldCount;
  }

  lemma NotToday(env: Env, now: Time)
    ensures !Expired(env, now, Day(now))
  {}

  lemma KeptSelf(f: DayFile, files: seq<DayFile>)
    requires f in files
    ensures KeptFile(f, files)
  {}

  // ----- every step is made of appends

  datatype Move = MoveTick | MoveTry | MoveDegraded(state: Option<Outage>) | MoveAppend(fields: Fields, head: Head)

  function Moved(env: Env, w: World, m: Move): World {
    match m
    case MoveTick => Ticked(w)
    case MoveTry => Tried(w)
    case MoveDegraded(s) => w.(degraded := s)
    case MoveAppend(f, h) => AppendLocked(env, w, f, h).world
  }

  function MovedAll(env: Env, w: World, ms: seq<Move>): World {
    if ms == [] then w else Moved(env, MovedAll(env, w, ms[..|ms| - 1]), ms[|ms| - 1])
  }

  /** The directory got from one state to the other by readings, attempts, marks and appends only. */
  ghost predicate Reaches(env: Env, w: World, v: World) {
    exists ms :: MovedAll(env, w, ms) == v
  }

  lemma ReachesSelf(env: Env, w: World)
    ensures Reaches(env, w, w)
  {
    assert MovedAll(env, w, []) == w;
  }

  lemma ReachesMove(env: Env, w: World, v: World, m: Move)
    requires Reaches(env, w, v)
    ensures Reaches(env, w, Moved(env, v, m))
  {
    hide Moved;
    var ms :| MovedAll(env, w, ms) == v;
    var longer := ms + [m];
    assert longer[..|longer| - 1] == ms;
    assert MovedAll(env, w, longer) == Moved(env, v, m);
  }

  lemma {:induction false} MovedOn(env: Env, w: World, ms: seq<Move>, more: seq<Move>)
    ensures MovedAll(env, w, ms + more) == MovedAll(env, MovedAll(env, w, ms), more)
  {
    hide Moved;
    if more == [] {
      assert ms + more == ms;
    } else {
      assert (ms + more)[..|ms + more| - 1] == ms + more[..|more| - 1];
      MovedOn(env, w, ms, more[..|more| - 1]);
    }
  }

  lemma ReachesOn(env: Env, w: World, v: World, u: World)
    requires Reaches(env, w, v) && Reaches(env, v, u)
    ensures Reaches(env, w, u)
  {
    var ms :| MovedAll(env, w, ms) == v;
    var more :| MovedAll(env, v, more) == u;
    MovedOn(env, w, ms, more);
  }

  lemma ReachesTicked(env: Env, w: World)
    ensures Reaches(env, w, Ticked(w)) && Reaches(env, w, Tried(w))
  {
    ReachesSelf(env, w);
    ReachesMove(env, w, w, MoveTick);
    ReachesMove(env, w, w, MoveTry);
  }

  lemma ReachesAppended(env: Env, w: World, fields: Fields, head: Head)
    ensures Reaches(env, w, AppendLocked(env, w, fields, head).world)
  {
    hide AppendLocked;
    ReachesSelf(env, w);
    ReachesMove(env, w, w, MoveAppend(fields, head));
  }

  lemma ReachesDegraded(env: Env, w: World, s: Option<Outage>)
    ensures Reaches(env, w, w.(degraded := s))
  {
    ReachesSelf(env, w);
    ReachesMove(env, w, w, MoveDegraded(s));
  }

  lemma CloseOutageReaches(env: Env, w: World, me: Worker, head: Head)
    ensures Reaches(env, w, CloseOutage(env, w, me, head).world)
  {
    hide AppendLocked; hide Reaches;
    ReachesSelf(env, w);
    var state := Combine(w.degraded, me.outage);
    if state.Some? {
      var s := state.value;
      var gap := Gap(s.unlogged, s.refused, s.since, Now(env, w));
      var a := AppendLocked(env, Ticked(w), gap, head);
      ReachesTicked(env, w);
      ReachesAppended(env, Ticked(w), gap, head);
      ReachesOn(env, w, Ticked(w), a.world);
      ReachesDegraded(env, a.world, None);
      ReachesOn(env, w, a.world, a.world.(degraded := None));
    }
  }

  lemma FlushDeniedReaches(env: Env, w: World, me: Worker, head: Head)
    ensures Reaches(env, w, FlushDenied(env, w, me, head).world)
  {
    hide AppendLocked; hide Reaches;
    ReachesSelf(env, w);
    if me.suppressed.Some? {
      var s := me.suppressed.value;
      ReachesAppended(env, w, DeniedSummary(s.count, s.windowStart, s.windowEnd), head);
    }
  }

  lemma {:induction false} FlushKeysReaches(env: Env, w: World, me: Worker, keys: seq<ReadKey>, head: Head)
    requires forall k :: k in keys ==> k in me.openReads
    requires forall i, j :: 0 <= i < j < |keys| ==> keys[i] != keys[j]
    ensures Reaches(env, w, FlushKeys(env, w, me, keys, head).world)
    decreases |keys|
  {
    hide AppendLocked; hide Reaches;
    ReachesSelf(env, w);
    if keys != [] {
      var k, s := keys[0], me.openReads[keys[0]];
      var fields := ReadSummary(k.tenant, k.transport, s.count, s.windowStart, s.windowEnd);
      ReachesAppended(env, w, fields, head);
      var a := AppendLocked(env, w, fields, head);
      if a.head.Some? {
        var rest := me.(openReads := me.openReads - {k});
        FlushKeysReaches(env, a.world, rest, keys[1..], a.head.value);
        ReachesOn(env, w, a.world, FlushKeys(env, a.world, rest, keys[1..], a.head.value).world);
      }
    }
  }

  lemma FlushReadsReaches(env: Env, w: World, me: Worker, head: Head)
    ensures Reaches(env, w, FlushReads(env, w, me, head).world)
  {
    FlushKeysReaches(env, w, me, SortedKeys(me.openReads), head);
  }

  lemma FinishReaches(env: Env, o: Out, fields: Fields)
    ensures Reaches(env, o.world, Finish(env, o, fields).world)
  {
    hide AppendLocked; hide Reaches;
    ReachesSelf(env, o.world);
    if o.head.Some? { ReachesAppended(env, o.world, fields, o.head.value); }
  }

  lemma CountedReaches(env: Env, w: World, open: Option<Summary>)
    ensures Reaches(env, w, Counted(env, w, open).1)
  {
    hide Reaches;
    ReachesTicked(env, w);
    ReachesTicked(env, Ticked(w));
    ReachesOn(env, w, Ticked(w), Ticked(Ticked(w)));
  }

  lemma AppendDeniedReaches(env: Env, w: World, me: Worker, fields: Fields, head: Head)
    ensures Reaches(env, w, AppendDenied(env, w, me, fields, head).world)
  {
    hide FlushDenied; hide Finish; hide Reaches; hide Counted; hide Minute;
    var minute, w1 := Minute(Now(env, w)), Ticked(w);
    ReachesTicked(env, w);
    FlushDeniedReaches(env, w1, me, head);
    ReachesSelf(env, w1);
    var o := if me.deniedMinute != Some(minute) then FlushDenied(env, w1, me, head) else Out(w1, me, Some(head));
    ReachesOn(env, w, w1, o.world);
    if o.head.Some? {
      var before := if me.deniedMinute != Some(minute) then 0 else me.deniedCount;
      var me1 := o.worker.(deniedMinute := Some(minute), deniedCount := before + 1);
      CountedReaches(env, o.world, me1.suppressed);
      ReachesOn(env, w, o.world, Counted(env, o.world, me1.suppressed).1);
      FinishReaches(env, o.(worker := me1), fields);
      ReachesOn(env, w, o.world, Finish(env, o.(worker := me1), fields).world);
    }
  }

  lemma CountReadReaches(env: Env, o: Out, minute: nat, counts: map<Id, nat>, fields: Fields)
    requires fields.Call?
    ensures Reaches(env, o.world, CountRead(env, o, minute, counts, fields).world)
  {
    hide Finish; hide Reaches; hide Counted;
    var n := (if fields.tenant in counts then counts[fields.tenant] else 0) + 1;
    var me := o.worker.(readMinute := Some(minute), readCounts := counts[fields.tenant := n]);
    var key := ReadKey(fields.tenant, fields.transport);
    CountedReaches(env, o.world, if key in me.openReads then Some(me.openReads[key]) else None);
    FinishReaches(env, o.(worker := me), fields);
  }

  lemma AppendReadReaches(env: Env, w: World, me: Worker, fields: Fields, head: Head)
    requires fields.Call?
    ensures Reaches(env, w, AppendRead(env, w, me, fields, head).world)
  {
    hide FlushReads; hide CountRead; hide Reaches; hide Minute;
    var minute, w1 := Minute(Now(env, w)), Ticked(w);
    ReachesTicked(env, w);
    FlushReadsReaches(env, w1, me, head);
    ReachesSelf(env, w1);
    var o := if me.readMinute != Some(minute) then FlushReads(env, w1, me, head) else Out(w1, me, Some(head));
    ReachesOn(env, w, w1, o.world);
    var counts := if me.readMinute != Some(minute) then map[] else me.readCounts;
    CountReadReaches(env, o, minute, counts, fields);
    ReachesOn(env, w, o.world, CountRead(env, o, minute, counts, fields).world);
  }

  lemma AppendOtherReaches(env: Env, w: World, me: Worker, fields: Fields, head: Head)
    ensures Reaches(env, w, AppendOther(env, w, me, fields, head).world)
  {
    hide FlushReads; hide Finish; hide Reaches;
    ReachesSelf(env, w);
    FlushReadsReaches(env, w, me, head);
    var o := if IsWrite(fields) then FlushReads(env, w, me, head) else Out(w, me, Some(head));
    FinishReaches(env, o, fields);
    ReachesOn(env, w, o.world, Finish(env, o, fields).world);
  }

  lemma AppendReaches(env: Env, w: World, me: Worker, fields: Fields)
    requires fields.Call?
    ensures Reaches(env, w, Append(env, w, me, fields).world)
  {
    hide CloseOutage; hide FlushDenied; hide AppendDenied; hide AppendRead; hide AppendOther; hide Reaches; hide CurrentHead; hide IsRead;
    var w0 := Tried(w);
    ReachesTicked(env, w);
    var o := CloseOutage(env, w0, me, CurrentHead(w0));
    CloseOutageReaches(env, w0, me, CurrentHead(w0));
    ReachesOn(env, w, w0, o.world);
    if o.head.Some? {
      AppendDeniedReaches(env, o.world, o.worker, fields, o.head.value);
      ReachesOn(env, w, o.world, AppendDenied(env, o.world, o.worker, fields, o.head.value).world);
      var p := FlushDenied(env, o.world, o.worker, o.head.value);
      FlushDeniedReaches(env, o.world, o.worker, o.head.value);
      ReachesOn(env, w, o.world, p.world);
      if p.head.Some? {
        AppendReadReaches(env, p.world, p.worker, fields, p.head.value);
        ReachesOn(env, w, p.world, AppendRead(env, p.world, p.worker, fields, p.head.value).world);
        AppendOtherReaches(env, p.world, p.worker, fields, p.head.value);
        ReachesOn(env, w, p.world, AppendOther(env, p.world, p.worker, fields, p.head.value).world);
      }
    }
  }

  lemma MarkReaches(env: Env, w: World, me: Worker, unlogged: nat, refused: nat)
    ensures Reaches(env, w, MarkDegraded(env, w, me, unlogged, refused).world)
  {
    hide Reaches; hide Combine;
    ReachesSelf(env, w);
    ReachesTicked(env, w);
    var w1 := if me.outage.Some? then w else Ticked(w);
    ReachesTicked(env, w1);
    ReachesOn(env, w, w1, Tried(w1));
    var v := MarkDegraded(env, w, me, unlogged, refused).world;
    ReachesDegraded(env, Tried(w1), v.degraded);
    ReachesOn(env, w, Tried(w1), v);
  }

  lemma ActReaches(env: Env, w: World, p: Party, action: Action)
    requires Allowed(action)
    ensures Reaches(env, w, Act(env, w, p, action).world)
  {
    hide Append; hide CloseOutage; hide FlushDenied; hide FlushReads; hide MarkDegraded; hide CurrentHead; hide Pending; hide AnyOpen; hide Reaches;
    var w0 := Tried(w);
    var head := CurrentHead(w0);
    ReachesSelf(env, w);
    ReachesTicked(env, w);
    match action
    case TryAppend(f) => AppendReaches(env, w, p.me, f);
    case TryPreflight =>
      CloseOutageReaches(env, w0, p.me, head);
      ReachesOn(env, w, w0, CloseOutage(env, w0, p.me, head).world);
    case TryFlush =>
      var o := FlushDenied(env, w0, p.me, head);
      FlushDeniedReaches(env, w0, p.me, head);
      ReachesOn(env, w, w0, o.world);
      if o.head.Some? {
        FlushReadsReaches(env, o.world, o.worker, o.head.value);
        ReachesOn(env, w, o.world, FlushReads(env, o.world, o.worker, o.head.value).world);
      }
    case Settle(n) => if n < |p.owes| { MarkReaches(env, w, p.me, p.owes[n].unlogged, p.owes[n].refused); }
    case Close => MarkReaches(env, w, p.me, Pending(p.me), 0);
  }

  lemma {:induction false} RunReaches(env: Env, sys: System, turns: seq<Turn>)
    requires AllPossible(|sys.parties|, turns)
    ensures Reaches(env, sys.world, Run(env, sys, turns).world)
  {
    hide Act; hide Reaches;
    if turns == [] {
      ReachesSelf(env, sys.world);
    } else {
      var earlier, last := turns[..|turns| - 1], turns[|turns| - 1];
      assert Possible(|sys.parties|, last);
      RunReaches(env, sys, earlier);
      var before := Run(env, sys, earlier);
      ActReaches(env, before.world, before.parties[last.worker], last.action);
      ReachesOn(env, sys.world, before.world, Run(env, sys, turns).world);
    }
  }

  // ----- what is still there after a run

  /** Every entry is in the file of its own day. */
  predicate Filed(files: seq<DayFile>) {
    forall f, e :: f in files && e in f.entries ==> Day(e.body.ts) == f.day
  }

  predicate InFile(files: seq<DayFile>, e: Entry) {
    exists f :: f in files && e in f.entries
  }

  /** The last reading of the clock so far. */
  function LastRead(env: Env, w: World): Time {
    env.clock(if w.ticks > 0 then w.ticks - 1 else 0)
  }

  /** Of the entries from number `from` on, all whose day is not expired at the last reading are in a file. */
  predicate Kept(env: Env, w: World, from: nat) {
    forall n :: from <= n < |w.history| && !Expired(env, LastRead(env, w), Day(w.history[n].body.ts)) ==> InFile(w.files, w.history[n])
  }

  predicate InOrder(env: Env, w: World) {
    DaysAscend(w.files) && Filed(w.files) && (w.files != [] ==> w.files[|w.files| - 1].day <= Day(env.clock(w.ticks)))
  }

  lemma ExpiredLater(env: Env, s: Time, t: Time, day: nat)
    requires s <= t && !Expired(env, t, day)
    ensures !Expired(env, s, day)
  {
    DayMono(s, t);
    hide Day;
  }

  lemma LaterKept(env: Env, w: World, v: World, from: nat)
    requires Monotone(env) && InOrder(env, w) && Kept(env, w, from)
    requires v.files == w.files && v.history == w.history && w.ticks <= v.ticks
    ensures InOrder(env, v) && Kept(env, v, from)
  {
    hide Day; hide InFile; hide Filed; hide DaysAscend; hide Expired;
    DayMono(env.clock(w.ticks), env.clock(v.ticks));
    assert LastRead(env, w) <= LastRead(env, v);
    forall n | from <= n < |v.history| && !Expired(env, LastRead(env, v), Day(v.history[n].body.ts))
      ensures InFile(v.files, v.history[n])
    {
      ExpiredLater(env, LastRead(env, w), LastRead(env, v), Day(v.history[n].body.ts));
    }
  }

  /** What retention keeps holds every entry that is not expired. */
  lemma RetainKeepsEntry(env: Env, w: World, now: Time, e: Entry)
    requires DaysAscend(w.files) && Filed(w.files) && InFile(w.files, e) && !Expired(env, now, Day(e.body.ts))
    ensures InFile(Retain(env, w, now).files, e)
  {
    RetainedFiles(env, w, now);
    FileOf(w.files, e);
    hide Retain; hide Day; hide DaysAscend; hide Expired; hide AllExpired; hide Filed;
    var f :| f in w.files && e in f.entries && f.day == Day(e.body.ts);
    assert f in Retain(env, w, now).files;
  }

  lemma FileOf(files: seq<DayFile>, e: Entry)
    requires Filed(files) && InFile(files, e)
    ensures exists f :: f in files && e in f.entries && f.day == Day(e.body.ts)
  {
    hide Day;
    var f :| f in files && e in f.entries;
    assert f.day == Day(e.body.ts);
  }

  lemma RetainInOrder(env: Env, w: World, now: Time)
    requires DaysAscend(w.files) && Filed(w.files)
    ensures var v := Retain(env, w, now).files;
      && DaysAscend(v) && Filed(v) && (v != [] ==> w.files != [] && v[|v| - 1].day == w.files[|w.files| - 1].day)
  {
    hide Day; hide LastEntry; hide OldCount;
  }

  lemma AddedFiled(files: seq<DayFile>, more: seq<DayFile>, e: Entry)
    requires Added(files, more, Day(e.body.ts), e) && Filed(files) && DaysAscend(files)
    requires files != [] ==> files[|files| - 1].day <= Day(e.body.ts)
    ensures Filed(more) && InFile(more, e) && more[|more| - 1].day == Day(e.body.ts)
    ensures forall x :: InFile(files, x) ==> InFile(more, x)
  {
    hide Day; hide DaysAscend;
    assert more[|more| - 1] in more;
    forall x | InFile(files, x) ensures InFile(more, x) {
      var f :| f in files && x in f.entries;
      AddedKeeps(files, more, Day(e.body.ts), e);
      var g :| g in more && g.day == f.day && f.entries <= g.entries;
    }
  }

  lemma AddedAscend(files: seq<DayFile>, day: nat, e: Entry)
    requires DaysAscend(files) && (files != [] ==> files[|files| - 1].day <= day)
    ensures DaysAscend(AddEntry(files, day, e))
  {}

  /** Every entry of the history from number `from` on that is not expired is in the files. */
  predicate Holds(env: Env, now: Time, files: seq<DayFile>, history: seq<Entry>, from: nat) {
    forall n :: from <= n < |history| && !Expired(env, now, Day(history[n].body.ts)) ==> InFile(files, history[n])
  }

  lemma RetainHolds(env: Env, w: World, from: nat)
    requires Monotone(env) && InOrder(env, w) && Kept(env, w, from)
    ensures var now := env.clock(w.ticks); Holds(env, now, Retain(env, Ticked(w), now).files, w.history, from)
  {
    hide Day; hide Retain; hide InFile; hide Filed; hide DaysAscend; hide Expired;
    var now := env.clock(w.ticks);
    assert LastRead(env, w) <= now;
    forall n | from <= n < |w.history| && !Expired(env, now, Day(w.history[n].body.ts))
      ensures InFile(Retain(env, Ticked(w), now).files, w.history[n])
    {
      ExpiredLater(env, LastRead(env, w), now, Day(w.history[n].body.ts));
      RetainKeepsEntry(env, Ticked(w), now, w.history[n]);
    }
  }

  lemma AddHolds(env: Env, now: Time, files: seq<DayFile>, more: seq<DayFile>, history: seq<Entry>, e: Entry, from: nat)
    requires Holds(env, now, files, history, from) && InFile(more, e) && forall x :: InFile(files, x) ==> InFile(more, x)
    ensures Holds(env, now, more, history, from) && Holds(env, now, more, history + [e], from)
  {
    hide Day; hide InFile; hide Expired;
  }

  /** The files after retention and a new entry. */
  lemma FilesAfter(env: Env, w: World, e: Entry)
    requires InOrder(env, w) && e.body.ts == env.clock(w.ticks)
    ensures var now := env.clock(w.ticks); var w1 := Retain(env, Ticked(w), now); var more := AddEntry(w1.files, Day(now), e);
      && DaysAscend(w1.files) && Filed(w1.files) && (w1.files != [] ==> w1.files[|w1.files| - 1].day <= Day(now))
      && DaysAscend(more) && Filed(more) && more != [] && more[|more| - 1].day == Day(now)
      && InFile(more, e) && forall x :: InFile(w1.files, x) ==> InFile(more, x)
  {
    hide Day; hide Retain; hide AddEntry; hide InFile; hide Filed; hide DaysAscend; hide Added;
    var now := env.clock(w.ticks);
    var w1 := Retain(env, Ticked(w), now);
    RetainInOrder(env, Ticked(w), now);
    AddEntryAdds(w1.files, Day(now), e);
    AddedSome(w1.files, AddEntry(w1.files, Day(now), e), Day(now), e);
    AddedFiled(w1.files, AddEntry(w1.files, Day(now), e), e);
    AddedAscend(w1.files, Day(now), e);
  }

  lemma AddedSome(files: seq<DayFile>, more: seq<DayFile>, day: nat, e: Entry)
    requires Added(files, more, day, e)
    ensures more != []
  {}

  lemma RetainHistory(env: Env, w: World, now: Time)
    ensures Retain(env, w, now).history == w.history && Retain(env, w, now).ticks == w.ticks
  {
    hide OldCount; hide LastEntry; hide Day;
  }

  lemma AppendKeeps(env: Env, w: World, fields: Fields, head: Head, from: nat)
    requires Monotone(env) && InOrder(env, w) && Kept(env, w, from)
    ensures var v := AppendLocked(env, w, fields, head).world; InOrder(env, v) && Kept(env, v, from)
  {
    hide Day; hide Retain; hide AddEntry; hide InFile; hide Filed; hide DaysAscend; hide Expired; hide Holds; hide Monotone; hide Kept;
    var now := env.clock(w.ticks);
    var e := NextEntry(env, now, fields, head);
    var w1 := Retain(env, Ticked(w), now);
    RetainHistory(env, Ticked(w), now);
    RetainHolds(env, w, from);
    FilesAfter(env, w, e);
    AddHolds(env, now, w1.files, AddEntry(w1.files, Day(now), e), w.history, e, from);
    OneTickLater(env, w);
    HoldsKept(env, AppendLocked(env, w, fields, head).world, from);
  }

  lemma OneTickLater(env: Env, w: World)
    requires Monotone(env)
    ensures Day(env.clock(w.ticks)) <= Day(env.clock(w.ticks + 1))
  {
    DayMono(env.clock(w.ticks), env.clock(w.ticks + 1));
  }

  lemma HoldsKept(env: Env, v: World, from: nat)
    requires Holds(env, LastRead(env, v), v.files, v.history, from)
    ensures Kept(env, v, from)
  {
    hide InFile; hide Expired; hide Day;
  }

  lemma MoveKeeps(env: Env, w: World, m: Move, from: nat)
    requires Monotone(env) && InOrder(env, w) && Kept(env, w, from)
    ensures InOrder(env, Moved(env, w, m)) && Kept(env, Moved(env, w, m), from)
  {
    hide InOrder; hide Kept; hide AppendLocked; hide Monotone;
    if m.MoveAppend? { AppendKeeps(env, w, m.fields, m.head, from); } else { LaterKept(env, w, Moved(env, w, m), from); }
  }

  lemma {:induction false} MovesKeep(env: Env, w: World, ms: seq<Move>, from: nat)
    requires Monotone(env) && InOrder(env, w) && Kept(env, w, from)
    ensures InOrder(env, MovedAll(env, w, ms)) && Kept(env, MovedAll(env, w, ms), from)
  {
    hide InOrder; hide Kept; hide Moved; hide Monotone;
    if ms != [] {
      MovesKeep(env, w, ms[..|ms| - 1], from);
      MoveKeeps(env, MovedAll(env, w, ms[..|ms| - 1]), ms[|ms| - 1], from);
    }
  }

  /** After any run, every entry that the run wrote and whose day is not expired at the last reading of the
      clock is still in the files; and so is every older such entry that was there at the start. */
  lemma RunKeeps(env: Env, sys: System, turns: seq<Turn>, from: nat)
    requires AllPossible(|sys.parties|, turns) && Monotone(env) && InOrder(env, sys.world) && Kept(env, sys.world, from)
    ensures InOrder(env, Run(env, sys, turns).world) && Kept(env, Run(env, sys, turns).world, from)
  {
    hide InOrder; hide Kept; hide Run; hide Monotone; hide MovedAll;
    RunReaches(env, sys, turns);
    var ms :| MovedAll(env, sys.world, ms) == Run(env, sys, turns).world;
    MovesKeep(env, sys.world, ms, from);
  }

  /** In particular after an append that went through: every entry written at most `retainDays` days before
      the day of the last one is still in the files. */
  lemma AppendedRunKeeps(env: Env, sys: System, turns: seq<Turn>, n: nat)
    requires AllPossible(|sys.parties|, turns) && Monotone(env) && InOrder(env, sys.world) && turns != []
    requires var last := turns[|turns| - 1]; var before := Run(env, sys, turns[..|turns| - 1]);
      Possible(|sys.parties|, last) && last.action.TryAppend? && Append(env, before.world, before.parties[last.worker].me, last.action.fields).result == Logged
    requires |sys.world.history| <= n < |Run(env, sys, turns).world.history|
    ensures var w := Run(env, sys, turns).world; var end := w.history[|w.history| - 1].body;
      Day(w.history[n].body.ts) + env.retainDays >= Day(end.ts) ==> w.history[n] in Flatten(w.files)
  {
    hide Append; hide InOrder; hide Day; hide Monotone; hide Kept; hide Run; hide LastShows; hide Flatten;
    var last, before := turns[|turns| - 1], Run(env, sys, turns[..|turns| - 1]);
    AppendShows(env, before.world, before.parties[last.worker].me, last.action.fields);
    KeptNone(env, sys.world);
    RunKeeps(env, sys, turns, |sys.world.history|);
    LastWorld(env, sys, turns);
    KeptAtEnd(env, Run(env, sys, turns).world, last.action.fields, |sys.world.history|, n);
  }

  lemma KeptNone(env: Env, w: World)
    ensures Kept(env, w, |w.history|)
  {}

  lemma LastWorld(env: Env, sys: System, turns: seq<Turn>)
    requires AllPossible(|sys.parties|, turns) && turns != [] && turns[|turns| - 1].action.TryAppend?
    ensures var last, before := turns[|turns| - 1], Run(env, sys, turns[..|turns| - 1]);
      && Possible(|sys.parties|, last) && last.worker < |before.parties| && last.action.fields.Call?
      && Run(env, sys, turns).world == Append(env, before.world, before.parties[last.worker].me, last.action.fields).world
  {
    hide Append;
    assert Possible(|sys.parties|, turns[|turns| - 1]);
  }

  lemma KeptAtEnd(env: Env, w: World, fields: Fields, from: nat, n: nat)
    requires Kept(env, w, from) && LastShows(env, w, fields) && from <= n < |w.history|
    ensures Day(w.history[n].body.ts) + env.retainDays >= Day(w.history[|w.history| - 1].body.ts) ==> w.history[n] in Flatten(w.files)
  {
    hide InFile; hide Day; hide Flatten;
    if InFile(w.files, w.history[n]) { FileFlattens(w.files, w.history[n]); }
  }

  lemma {:induction false} FileFlattens(files: seq<DayFile>, e: Entry)
    requires InFile(files, e)
    ensures e in Flatten(files)
  {
    var f :| f in files && e in f.entries;
    var n := |files| - 1;
    if files[n] != f {
      assert f in files[..n];
      FileFlattens(files[..n], e);
    }
  }
}
