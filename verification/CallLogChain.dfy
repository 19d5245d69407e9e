/** The hash chain: with a clock that never goes back, every run leaves a log that `verify`
    accepts; and a head fixes every entry before it. */
module CallLogChain {
  import opened Options
  import opened Order
  import opened CallLogModel

  // ----- what verify checks

  function EndHead(start: Head, es: seq<Entry>): Head {
    if es == [] then start else HeadOf(es[|es| - 1])
  }

  /** The entry links to `head` and its hash is the hash of its content. */
  predicate Links(env: Env, head: Head, e: Entry) {
    e.hash == env.digest(e.body) && e.body.seqNo == head.seqNo + 1 && e.body.prev == head.hash
  }

  predicate Accepted(env: Env, start: Head, es: seq<Entry>) {
    es == [] || (
      var before, last := es[..|es| - 1], es[|es| - 1];
      Accepted(env, start, before) && Links(env, EndHead(start, before), last))
  }

  datatype Problem = Edited(at: nat) | SeqBroken(at: nat) | LinkBroken(at: nat)

  function ProblemsAt(env: Env, head: Head, e: Entry, at: nat): seq<Problem> {
    (if e.hash != env.digest(e.body) then [Edited(at)] else [])
    + (if e.body.seqNo != head.seqNo + 1 then [SeqBroken(at)] else [])
    + (if e.body.prev != head.hash then [LinkBroken(at)] else [])
  }

  /** The problems of a walk that starts from the anchor or the genesis. */
  function Problems(env: Env, start: Head, es: seq<Entry>): seq<Problem> {
    if es == [] then []
    else
      var before, last := es[..|es| - 1], es[|es| - 1];
      Problems(env, start, before) + ProblemsAt(env, EndHead(start, before), last, |before|)
  }

  lemma {:induction false} NoProblemsIffAccepted(env: Env, start: Head, es: seq<Entry>)
    ensures Problems(env, start, es) == [] <==> Accepted(env, start, es)
  {
    if es != [] {
      NoProblemsIffAccepted(env, start, es[..|es| - 1]);
    }
  }

  function Start(w: World): Head {
    if w.anchor.Some? then w.anchor.value else ORIGIN
  }

  function Flatten(files: seq<DayFile>): seq<Entry> {
    if files == [] then [] else Flatten(files[..|files| - 1]) + files[|files| - 1].entries
  }

  // ----- the invariant

  predicate DaysAscend(files: seq<DayFile>) {
    forall i, j :: 0 <= i < j < |files| ==> files[i].day < files[j].day
  }

  predicate NoneEmpty(files: seq<DayFile>) {
    forall i :: 0 <= i < |files| ==> files[i].entries != []
  }

  /** The files hold the tail of everything ever appended, and the anchor is where it begins. */
  predicate Covered(w: World) {
    var kept := Flatten(w.files);
    && |kept| <= |w.history|
    && kept == w.history[|w.history| - |kept|..]
    && Start(w) == EndHead(ORIGIN, w.history[..|w.history| - |kept|])
  }

  predicate TsAscend(history: seq<Entry>) {
    forall i, j :: 0 <= i < j < |history| ==> history[i].body.ts <= history[j].body.ts
  }

  /** Nothing in the log is later than the next reading of the clock. */
  predicate NotAhead(env: Env, w: World) {
    && (w.files != [] ==> w.files[|w.files| - 1].day <= Day(env.clock(w.ticks)))
    && (w.history != [] ==> w.history[|w.history| - 1].body.ts <= env.clock(w.ticks))
  }

  predicate Sound(env: Env, w: World) {
    && Accepted(env, ORIGIN, w.history) && TsAscend(w.history)
    && DaysAscend(w.files) && NoneEmpty(w.files) && Covered(w) && NotAhead(env, w)
  }

  ghost predicate Monotone(env: Env) {
    forall m, n :: m <= n ==> env.clock(m) <= env.clock(n)
  }

  lemma {:induction false} FlattenSplit(files: seq<DayFile>, n: nat)
    requires n <= |files|
    ensures Flatten(files) == Flatten(files[..n]) + Flatten(files[n..])
  {
    if n == |files| {
      assert files[..n] == files && files[n..] == [];
    } else {
      var m := |files| - 1;
      FlattenSplit(files[..m], n);
      assert files[..m][..n] == files[..n] && files[..m][n..] == files[n..][..m - n];
      assert files[n..][m - n] == files[m];
    }
  }

  lemma {:induction false} LastEntryIsLast(files: seq<DayFile>)
    ensures LastEntry(files) == if Flatten(files) == [] then None else Some(Flatten(files)[|Flatten(files)| - 1])
  {
    if files != [] && files[|files| - 1].entries == [] {
      LastEntryIsLast(files[..|files| - 1]);
    }
  }

  lemma {:induction false} FlattenEmpty(files: seq<DayFile>)
    requires NoneEmpty(files) && files != []
    ensures Flatten(files) != []
  {}

  /** `_head` is the end of everything ever appended. */
  lemma HeadIsEnd(env: Env, w: World)
    requires Covered(w)
    ensures CurrentHead(w) == EndHead(ORIGIN, w.history)
  {
    LastEntryIsLast(w.files);
    var kept := Flatten(w.files);
    if kept == [] { assert w.history[..|w.history|] == w.history; }
  }

  lemma DayMono(s: Time, t: Time)
    requires s <= t
    ensures Day(s) <= Day(t)
  {}

  lemma LaterStillSound(env: Env, w: World, v: World)
    requires Monotone(env) && Sound(env, w) && w.ticks <= v.ticks
    requires v.files == w.files && v.history == w.history && v.anchor == w.anchor
    ensures Sound(env, v)
  {
    assert env.clock(w.ticks) <= env.clock(v.ticks);
    DayMono(env.clock(w.ticks), env.clock(v.ticks));
    hide Day; hide Accepted; hide Flatten;
  }

  /** Retention drops whole old files and leaves the anchor at the entry before the rest. */
  lemma RetainSound(env: Env, w: World, now: Time)
    requires Sound(env, w)
    ensures Sound(env, Retain(env, w, now)) && Retain(env, w, now).history == w.history && Retain(env, w, now).ticks == w.ticks
  {
    hide Accepted; hide Day; hide Flatten; hide OldCount; hide LastEntry; hide Covered; hide TsAscend; hide NotAhead; hide DaysAscend; hide NoneEmpty;
    var n := OldCount(w.files, Day(now) - env.retainDays);
    if 0 < n < |w.files| {
      KeptDays(w.files, n);
      FlattenSplit(w.files, n);
      LastEntryIsLast(w.files[..n]);
      FlattenEmpty(w.files[..n]);
      var v := Retain(env, w, now);
      RetainCovered(w, v, n);
      KeptNotAhead(env, w, v, n);
    }
  }

  lemma KeptDays(files: seq<DayFile>, n: nat)
    requires DaysAscend(files) && NoneEmpty(files) && n <= |files|
    ensures DaysAscend(files[n..]) && NoneEmpty(files[n..]) && DaysAscend(files[..n]) && NoneEmpty(files[..n])
  {}

  lemma KeptNotAhead(env: Env, w: World, v: World, n: nat)
    requires NotAhead(env, w) && n < |w.files| && v.files == w.files[n..] && v.history == w.history && v.ticks == w.ticks
    ensures NotAhead(env, v)
  {
    hide Day;
  }

  lemma RetainCovered(w: World, v: World, n: nat)
    requires Covered(w) && 0 < n < |w.files| && v.history == w.history && v.files == w.files[n..]
    requires Flatten(w.files) == Flatten(w.files[..n]) + Flatten(w.files[n..]) && Flatten(w.files[..n]) != []
    requires v.anchor == Some(HeadOf(Flatten(w.files[..n])[|Flatten(w.files[..n])| - 1]))
    ensures Covered(v)
  {
    hide Flatten;
    var gone, kept := Flatten(w.files[..n]), Flatten(w.files[n..]);
    var base := |w.history| - |Flatten(w.files)|;
    assert w.history[base..] == gone + kept;
    var cut := base + |gone|;
    assert w.history[cut..] == w.history[base..][|gone|..] == kept;
    assert w.history[..cut][cut - 1] == w.history[base..][|gone| - 1] == gone[|gone| - 1];
  }

  lemma {:induction false} AddEntryFlatten(files: seq<DayFile>, day: nat, e: Entry)
    requires DaysAscend(files) && NoneEmpty(files) && (files != [] ==> files[|files| - 1].day <= day)
    ensures var v := AddEntry(files, day, e);
      v != [] && Flatten(v) == Flatten(files) + [e] && DaysAscend(v) && NoneEmpty(v) && v[|v| - 1].day == day
  {
    var v := AddEntry(files, day, e);
    if files == [] || files[|files| - 1].day < day {
      assert v[..|v| - 1] == files;
    } else {
      assert v[..|v| - 1] == files[..|files| - 1];
    }
  }

  lemma AcceptedSnoc(env: Env, start: Head, es: seq<Entry>, e: Entry)
    requires Accepted(env, start, es) && Links(env, EndHead(start, es), e)
    ensures Accepted(env, start, es + [e])
  {
    assert (es + [e])[..|es|] == es;
  }

  lemma CoveredSnoc(w: World, v: World, e: Entry)
    requires Covered(w) && v.history == w.history + [e] && Flatten(v.files) == Flatten(w.files) + [e] && v.anchor == w.anchor
    ensures Covered(v)
  {
    hide Flatten;
    var kept := Flatten(w.files);
    var base := |w.history| - |kept|;
    assert v.history[..base] == w.history[..base];
    assert v.history[base..] == w.history[base..] + [e];
  }

  /** A sound log, together with its head if the step so far went through. */
  predicate GoesOn(env: Env, w: World, head: Option<Head>) {
    Sound(env, w) && (head.Some? ==> head.value == EndHead(ORIGIN, w.history))
  }

  lemma WrittenSound(env: Env, w: World, v: World, e: Entry)
    requires Sound(env, w) && Links(env, EndHead(ORIGIN, w.history), e)
    requires w.history != [] ==> w.history[|w.history| - 1].body.ts <= e.body.ts
    requires w.files != [] ==> w.files[|w.files| - 1].day <= Day(e.body.ts)
    requires v.files == AddEntry(w.files, Day(e.body.ts), e) && v.history == w.history + [e] && v.anchor == w.anchor
    requires e.body.ts <= env.clock(v.ticks)
    ensures Sound(env, v)
  {
    hide AddEntry; hide Accepted; hide Flatten; hide Day; hide Covered; hide Links; hide NoneEmpty; hide DaysAscend; hide TsAscend; hide EndHead;
    AddEntryFlatten(w.files, Day(e.body.ts), e);
    AcceptedSnoc(env, ORIGIN, w.history, e);
    CoveredSnoc(w, v, e);
    DayMono(e.body.ts, env.clock(v.ticks));
    TsSnoc(w.history, e);
  }

  lemma TsSnoc(history: seq<Entry>, e: Entry)
    requires TsAscend(history) && (history != [] ==> history[|history| - 1].body.ts <= e.body.ts)
    ensures TsAscend(history + [e])
  {}

  /** An append keeps the log sound, and the head it hands on is the head of the log. */
  lemma AppendLockedSound(env: Env, w: World, fields: Fields, head: Head)
    requires Monotone(env) && GoesOn(env, w, Some(head))
    ensures var a := AppendLocked(env, w, fields, head); GoesOn(env, a.world, a.head)
  {
    hide Retain; hide Accepted; hide Flatten; hide Day; hide Covered; hide AddEntry; hide NoneEmpty; hide DaysAscend; hide TsAscend; hide Sound;
    var now := Now(env, w);
    var e := NextEntry(env, now, fields, head);
    var w0 := Ticked(w);
    assert env.clock(w.ticks) <= env.clock(w.ticks + 1);
    LaterStillSound(env, w, w0);
    RetainSound(env, w0, now);
    var w1 := Retain(env, w0, now);
    LaterStillSound(env, w1, Tried(w1));
    if env.ok(w1.io) {
      SoundNotAhead(env, w);
      RetainDay(env, w, now);
      WrittenSound(env, w1, AppendLocked(env, w, fields, head).world, e);
    }
  }

  lemma SoundNotAhead(env: Env, w: World)
    requires Sound(env, w)
    ensures NotAhead(env, w)
  {}

  lemma RetainDay(env: Env, w: World, now: Time)
    requires NotAhead(env, w) && now == Now(env, w)
    ensures var v := Retain(env, Ticked(w), now); v.files != [] ==> v.files[|v.files| - 1].day <= Day(now)
  {
    hide Day;
  }

  // ----- every step

  lemma CloseOutageSound(env: Env, w: World, me: Worker, head: Head)
    requires Monotone(env) && GoesOn(env, w, Some(head))
    ensures var o := CloseOutage(env, w, me, head); GoesOn(env, o.world, o.head)
  {
    hide AppendLocked; hide Sound; hide EndHead;
    var state := Combine(w.degraded, me.outage);
    if state.Some? {
      var s := state.value;
      var gap := Gap(s.unlogged, s.refused, s.since, Now(env, w));
      LaterStillSound(env, w, Ticked(w));
      AppendLockedSound(env, Ticked(w), gap, head);
      var a := AppendLocked(env, Ticked(w), gap, head);
      LaterStillSound(env, a.world, a.world.(degraded := None));
    }
  }

  lemma FlushDeniedSound(env: Env, w: World, me: Worker, head: Head)
    requires Monotone(env) && GoesOn(env, w, Some(head))
    ensures var o := FlushDenied(env, w, me, head); GoesOn(env, o.world, o.head)
  {
    hide AppendLocked; hide GoesOn;
    if me.suppressed.Some? {
      var s := me.suppressed.value;
      AppendLockedSound(env, w, DeniedSummary(s.count, s.windowStart, s.windowEnd), head);
    }
    GoesOnFailed(env, w, head);
    GoesOnWorld(env, FlushDenied(env, w, me, head).world, FlushDenied(env, w, me, head).head);
  }

  lemma GoesOnFailed(env: Env, w: World, head: Head)
    requires GoesOn(env, w, Some(head))
    ensures GoesOn(env, w, None)
  {}

  lemma GoesOnWorld(env: Env, w: World, head: Option<Head>)
    requires GoesOn(env, w, head)
    ensures GoesOn(env, w, None)
  {}

  lemma {:induction false} FlushKeysSound(env: Env, w: World, me: Worker, keys: seq<ReadKey>, head: Head)
    requires forall k :: k in keys ==> k in me.openReads
    requires forall i, j :: 0 <= i < j < |keys| ==> keys[i] != keys[j]
    requires Monotone(env) && GoesOn(env, w, Some(head))
    ensures var o := FlushKeys(env, w, me, keys, head); GoesOn(env, o.world, o.head)
    decreases |keys|
  {
    hide AppendLocked; hide GoesOn;
    if keys != [] {
      var k, s := keys[0], me.openReads[keys[0]];
      var fields := ReadSummary(k.tenant, k.transport, s.count, s.windowStart, s.windowEnd);
      AppendLockedSound(env, w, fields, head);
      var a := AppendLocked(env, w, fields, head);
      if a.head.Some? {
        FlushKeysSound(env, a.world, me.(openReads := me.openReads - {k}), keys[1..], a.head.value);
      }
    }
  }

  lemma FinishSound(env: Env, o: Out, fields: Fields)
    requires Monotone(env) && GoesOn(env, o.world, o.head)
    ensures Sound(env, Finish(env, o, fields).world)
  {
    hide AppendLocked; hide Sound; hide EndHead;
    if o.head.Some? { AppendLockedSound(env, o.world, fields, o.head.value); }
  }

  lemma CountedSound(env: Env, w: World, open: Option<Summary>)
    requires Monotone(env) && Sound(env, w)
    ensures Sound(env, Counted(env, w, open).1)
  {
    LaterStillSound(env, w, Counted(env, w, open).1);
  }

  lemma AppendSound(env: Env, w: World, me: Worker, fields: Fields)
    requires fields.Call? && Monotone(env) && Sound(env, w)
    ensures Sound(env, Append(env, w, me, fields).world)
  {
    var w0 := Tried(w);
    LaterStillSound(env, w, w0);
    HeadIsEnd(env, w0);
    hide Sound; hide EndHead; hide CloseOutage; hide FlushDenied; hide AppendDenied; hide AppendRead; hide FlushKeys; hide Finish; hide IsRead; hide IsWrite; hide CurrentHead;
    if env.ok(w.io) {
      CloseOutageSound(env, w0, me, CurrentHead(w0));
      var o := CloseOutage(env, w0, me, CurrentHead(w0));
      if o.head.Some? {
        if fields.outcome == Denied {
          AppendDeniedSound(env, o.world, o.worker, fields, o.head.value);
        } else {
          FlushDeniedSound(env, o.world, o.worker, o.head.value);
          var p := FlushDenied(env, o.world, o.worker, o.head.value);
          if p.head.Some? {
            if IsRead(fields) {
              AppendReadSound(env, p.world, p.worker, fields, p.head.value);
            } else {
              FlushKeysSound(env, p.world, p.worker, SortedKeys(p.worker.openReads), p.head.value);
              FinishSound(env, if IsWrite(fields) then FlushReads(env, p.world, p.worker, p.head.value) else Out(p.world, p.worker, p.head), fields);
            }
          }
        }
      }
    }
  }

  lemma AppendDeniedSound(env: Env, w: World, me: Worker, fields: Fields, head: Head)
    requires Monotone(env) && GoesOn(env, w, Some(head))
    ensures Sound(env, AppendDenied(env, w, me, fields, head).world)
  {
    hide FlushDenied; hide Finish; hide Sound; hide EndHead; hide Counted; hide Minute;
    var minute, w1 := Minute(Now(env, w)), Ticked(w);
    LaterStillSound(env, w, w1);
    FlushDeniedSound(env, w1, me, head);
    var o := if me.deniedMinute != Some(minute) then FlushDenied(env, w1, me, head) else Out(w1, me, Some(head));
    var before := if me.deniedMinute != Some(minute) then 0 else me.deniedCount;
    var me1 := o.worker.(deniedMinute := Some(minute), deniedCount := before + 1);
    CountedSound(env, o.world, me1.suppressed);
    FinishSound(env, o.(worker := me1), fields);
  }

  lemma CountReadSound(env: Env, o: Out, minute: nat, counts: map<Id, nat>, fields: Fields)
    requires fields.Call? && Monotone(env) && GoesOn(env, o.world, o.head)
    ensures Sound(env, CountRead(env, o, minute, counts, fields).world)
  {
    hide Finish; hide Sound; hide EndHead; hide Counted;
    var n := (if fields.tenant in counts then counts[fields.tenant] else 0) + 1;
    var me := o.worker.(readMinute := Some(minute), readCounts := counts[fields.tenant := n]);
    var key := ReadKey(fields.tenant, fields.transport);
    CountedSound(env, o.world, if key in me.openReads then Some(me.openReads[key]) else None);
    FinishSound(env, o.(worker := me), fields);
  }

  lemma AppendReadSound(env: Env, w: World, me: Worker, fields: Fields, head: Head)
    requires fields.Call? && Monotone(env) && GoesOn(env, w, Some(head))
    ensures Sound(env, AppendRead(env, w, me, fields, head).world)
  {
    hide FlushKeys; hide CountRead; hide Sound; hide EndHead; hide Minute;
    var minute, w1 := Minute(Now(env, w)), Ticked(w);
    LaterStillSound(env, w, w1);
    FlushKeysSound(env, w1, me, SortedKeys(me.openReads), head);
    var o := if me.readMinute != Some(minute) then FlushReads(env, w1, me, head) else Out(w1, me, Some(head));
    if o.head.Some? { CountReadSound(env, o, minute, if me.readMinute != Some(minute) then map[] else me.readCounts, fields); }
  }

  lemma MarkDegradedSound(env: Env, w: World, me: Worker, unlogged: nat, refused: nat)
    requires Monotone(env) && Sound(env, w)
    ensures Sound(env, MarkDegraded(env, w, me, unlogged, refused).world)
  {
    LaterStillSound(env, w, MarkDegraded(env, w, me, unlogged, refused).world);
  }

  lemma SoundHead(env: Env, w: World)
    requires Sound(env, w)
    ensures CurrentHead(w) == EndHead(ORIGIN, w.history)
  {
    HeadIsEnd(env, w);
  }

  lemma FlushLockedSound(env: Env, w: World, me: Worker)
    requires Monotone(env) && Sound(env, w)
    ensures Sound(env, FlushLocked(env, w, me).world)
  {
    hide Sound; hide EndHead; hide FlushDenied; hide FlushKeys; hide CurrentHead; hide SortedKeys;
    var w0 := Tried(w);
    LaterStillSound(env, w, w0);
    SoundHead(env, w0);
    if env.ok(w.io) {
      FlushDeniedSound(env, w0, me, CurrentHead(w0));
      var p := FlushDenied(env, w0, me, CurrentHead(w0));
      if p.head.Some? {
        FlushKeysSound(env, p.world, p.worker, SortedKeys(p.worker.openReads), p.head.value);
      }
    }
  }

  lemma PreflightSound(env: Env, w: World, me: Worker)
    requires Monotone(env) && Sound(env, w)
    ensures Sound(env, Preflight(env, w, me).world)
  {
    hide Sound; hide EndHead; hide CloseOutage; hide CurrentHead;
    var w0 := Tried(w);
    LaterStillSound(env, w, w0);
    SoundHead(env, w0);
    CloseOutageSound(env, w0, me, CurrentHead(w0));
  }

  lemma ActSound(env: Env, w: World, p: Party, action: Action)
    requires Allowed(action) && Monotone(env) && Sound(env, w)
    ensures Sound(env, Act(env, w, p, action).world)
  {
    hide Sound; hide Append; hide Preflight; hide FlushLocked; hide MarkDegraded; hide Pending;
    match action
    case TryAppend(f) => AppendSound(env, w, p.me, f);
    case TryPreflight => PreflightSound(env, w, p.me);
    case TryFlush => FlushLockedSound(env, w, p.me);
    case Settle(n) => if n < |p.owes| { MarkDegradedSound(env, w, p.me, p.owes[n].unlogged, p.owes[n].refused); }
    case Close => MarkDegradedSound(env, w, p.me, Pending(p.me), 0);
  }

  /** Every run of every number of workers and threads leaves a sound log. */
  lemma {:induction false} RunSound(env: Env, sys: System, turns: seq<Turn>)
    requires AllPossible(|sys.parties|, turns) && Monotone(env) && Sound(env, sys.world)
    ensures Sound(env, Run(env, sys, turns).world)
  {
    hide Act; hide Sound;
    if turns != [] {
      var earlier, last := turns[..|turns| - 1], turns[|turns| - 1];
      RunSound(env, sys, earlier);
      var before := Run(env, sys, earlier);
      assert Possible(|sys.parties|, last);
      ActSound(env, before.world, before.parties[last.worker], last.action);
    }
  }

  /** `verify` finds nothing wrong after any run, and reports the head that `_head` reports. */
  lemma RunVerifies(env: Env, sys: System, turns: seq<Turn>)
    requires AllPossible(|sys.parties|, turns) && Monotone(env) && Sound(env, sys.world)
    ensures var w := Run(env, sys, turns).world;
      && Problems(env, Start(w), Flatten(w.files)) == []
      && EndHead(Start(w), Flatten(w.files)) == CurrentHead(w)
  {
    RunSound(env, sys, turns);
    SoundVerifies(env, Run(env, sys, turns).world);
  }

  lemma SoundVerifies(env: Env, w: World)
    requires Sound(env, w)
    ensures Problems(env, Start(w), Flatten(w.files)) == []
    ensures EndHead(Start(w), Flatten(w.files)) == CurrentHead(w)
  {
    var kept := Flatten(w.files);
    var base := |w.history| - |kept|;
    AcceptedSuffix(env, ORIGIN, w.history, base);
    NoProblemsIffAccepted(env, Start(w), kept);
    HeadIsEnd(env, w);
    if kept != [] { assert kept[|kept| - 1] == w.history[base..][|kept| - 1]; }
    else { assert w.history[..base] == w.history; }
  }

  lemma {:induction false} AcceptedSuffix(env: Env, start: Head, es: seq<Entry>, n: nat)
    requires Accepted(env, start, es) && n <= |es|
    ensures Accepted(env, EndHead(start, es[..n]), es[n..])
  {
    if n < |es| {
      var m := |es| - 1;
      AcceptedSuffix(env, start, es[..m], n);
      assert es[..m][..n] == es[..n] && es[..m][n..] == es[n..][..m - n];
      assert EndHead(EndHead(start, es[..n]), es[n..][..m - n]) == EndHead(start, es[..m]) by {
        if m > n { assert es[n..][..m - n][m - n - 1] == es[..m][m - 1]; } else { assert es[..n] == es[..m]; }
      }
    }
  }

  // ----- binding

  /** No two different contents among these entries have the same hash. */
  ghost predicate NoCollision(env: Env, es: seq<Entry>) {
    forall i, j :: 0 <= i < |es| && 0 <= j < |es| && env.digest(es[i].body) == env.digest(es[j].body) ==> es[i].body == es[j].body
  }

  lemma {:induction false} AcceptedSeqNo(env: Env, start: Head, es: seq<Entry>, i: nat)
    requires Accepted(env, start, es) && i < |es|
    ensures es[i].body.seqNo == start.seqNo + i + 1
  {
    if i < |es| - 1 { AcceptedSeqNo(env, start, es[..|es| - 1], i); }
    else if i > 0 { AcceptedSeqNo(env, start, es[..|es| - 1], i - 1); }
  }

  /** The head of a log fixes the log: equal heads from one start mean equal entries. */
  lemma {:induction false} HeadFixesLog(env: Env, start: Head, a: seq<Entry>, b: seq<Entry>)
    requires Accepted(env, start, a) && Accepted(env, start, b) && NoCollision(env, a + b)
    requires EndHead(start, a) == EndHead(start, b)
    ensures a == b
  {
    if a != [] { AcceptedSeqNo(env, start, a, |a| - 1); }
    if b != [] { AcceptedSeqNo(env, start, b, |b| - 1); }
    if a != [] {
      var n := |a| - 1;
      var both := a + b;
      assert both[n] == a[n] && both[|a| + n] == b[n];
      assert env.digest(both[n].body) == env.digest(both[|a| + n].body);
      assert a[n] == b[n];
      var sub := a[..n] + b[..n];
      forall i, j | 0 <= i < |sub| && 0 <= j < |sub| && env.digest(sub[i].body) == env.digest(sub[j].body)
        ensures sub[i].body == sub[j].body
      {
        var x, y := if i < n then i else i + 1, if j < n then j else j + 1;
        assert sub[i] == both[x] && sub[j] == both[y];
      }
      PredecessorHead(env, start, a, b);
      HeadFixesLog(env, start, a[..n], b[..n]);
      assert a == a[..n] + [a[n]] && b == b[..n] + [b[n]];
    }
  }

  lemma PredecessorHead(env: Env, start: Head, a: seq<Entry>, b: seq<Entry>)
    requires Accepted(env, start, a) && Accepted(env, start, b) && |a| == |b| > 0 && a[|a| - 1] == b[|b| - 1]
    ensures EndHead(start, a[..|a| - 1]) == EndHead(start, b[..|b| - 1])
  {}

  /** Leaving entries out, or putting them in another order, is only ever accepted when it is a truncation. */
  lemma AcceptedSelectionIsPrefix(env: Env, start: Head, es: seq<Entry>, sub: seq<Entry>)
    requires Accepted(env, start, es) && Accepted(env, start, sub)
    requires forall e :: e in sub ==> e in es
    ensures sub <= es
  {
    forall k | 0 <= k < |sub|
      ensures k < |es| && sub[k] == es[k]
    {
      SelectedAt(env, start, es, sub, k);
    }
    if sub != [] { SelectedAt(env, start, es, sub, |sub| - 1); }
  }

  lemma SelectedAt(env: Env, start: Head, es: seq<Entry>, sub: seq<Entry>, k: nat)
    requires Accepted(env, start, es) && Accepted(env, start, sub) && k < |sub| && sub[k] in es
    ensures k < |es| && sub[k] == es[k]
  {
    AcceptedSeqNo(env, start, sub, k);
    var i :| 0 <= i < |es| && es[i] == sub[k];
    AcceptedSeqNo(env, start, es, i);
  }
}
