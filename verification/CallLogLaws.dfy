/** What each step of the call log means in its own terms: when it succeeds, what it writes and in which
    order, what it leaves open, what an outage is recorded as, and what the verifying walk reports. */
module CallLogLaws {
  import opened Options
  import opened Order
  import opened CallLogModel
  import opened CallLogChain
  import opened CallLogFlood

  // ----- when a step goes through, and that it writes no gap of its own

  /** `done` says whether all disk operations from `from` to before `to` succeeded. */
  ghost predicate Went(env: Env, from: nat, to: nat, done: bool) {
    from <= to && (done <==> forall n :: from <= n < to ==> env.ok(n))
  }

  lemma WentOn(env: Env, a: nat, b: nat, c: nat, done: bool)
    requires Went(env, a, b, true) && Went(env, b, c, done)
    ensures Went(env, a, c, done)
  {}

  /** The log got longer, by no gap entry. */
  predicate NoGapAdded(h: seq<Entry>, h': seq<Entry>) {
    h <= h' && forall n :: |h| <= n < |h'| ==> !h'[n].body.fields.Gap?
  }

  /** What was added ends in the entry of this call, and holds no other call's entry. */
  predicate OwnLast(h: seq<Entry>, h': seq<Entry>, call: Option<Fields>) {
    var n := if call.Some? then |h'| - 1 else |h'|;
    && h <= h' && |h| <= n && (call.Some? ==> h'[n].body.fields == call.value)
    && forall i :: |h| <= i < n ==> !h'[i].body.fields.Call?
  }

  /** A step that leaves the records of an outage alone, and writes this call's entry or none. */
  ghost predicate Plain(env: Env, w: World, me: Worker, v: World, me': Worker, done: bool, call: Option<Fields>) {
    && Went(env, w.io, v.io, done) && NoGapAdded(w.history, v.history) && OwnLast(w.history, v.history, call)
    && v.degraded == w.degraded && me'.outage == me.outage
  }

  lemma OwnLastOn(h: seq<Entry>, h1: seq<Entry>, h2: seq<Entry>, call: Option<Fields>)
    requires OwnLast(h, h1, None) && OwnLast(h1, h2, call)
    ensures OwnLast(h, h2, call)
  {}

  lemma NoGapOn(h: seq<Entry>, h1: seq<Entry>, h2: seq<Entry>)
    requires NoGapAdded(h, h1) && NoGapAdded(h1, h2)
    ensures NoGapAdded(h, h2)
  {}

  lemma PlainOn(env: Env, w: World, a: Worker, v: World, b: Worker, u: World, c: Worker, done: bool, call: Option<Fields>)
    requires Plain(env, w, a, v, b, true, None) && Plain(env, v, b, u, c, done, call)
    ensures Plain(env, w, a, u, c, done, call)
  {
    hide Went; hide NoGapAdded; hide OwnLast;
    WentOn(env, w.io, v.io, u.io, done);
    NoGapOn(w.history, v.history, u.history);
    OwnLastOn(w.history, v.history, u.history, call);
  }

  /** The entry that a step may write for its call. */
  function OwnOf(s: Step, fields: Fields): Option<Fields> {
    if s.result == Logged then Some(fields) else None
  }

  lemma PlainSame(env: Env, w: World, me: Worker, v: World, me': Worker)
    requires v.io == w.io && v.history == w.history && v.degraded == w.degraded && me'.outage == me.outage
    ensures Plain(env, w, me, v, me', true, None)
  {}

  /** An append of a line: one operation, one entry or none. */
  lemma LineAppended(env: Env, w: World, fields: Fields, head: Head)
    ensures var a := AppendLocked(env, w, fields, head);
      && a.world.io == w.io + 1 && (a.head.Some? <==> env.ok(w.io)) && a.world.degraded == w.degraded
      && |a.world.history| == |w.history| + (if a.head.Some? then 1 else 0) && w.history <= a.world.history
      && (a.head.Some? ==> a.world.history[|w.history|].body.fields == fields)
  {}

  lemma LinePlain(env: Env, w: World, me: Worker, fields: Fields, head: Head, me': Worker)
    requires !fields.Gap? && me'.outage == me.outage
    ensures var a := AppendLocked(env, w, fields, head); Plain(env, w, me, a.world, me', a.head.Some?, if fields.Call? && a.head.Some? then Some(fields) else None)
  {
    hide AppendLocked;
    LineAppended(env, w, fields, head);
  }

  lemma FlushDeniedPlain(env: Env, w: World, me: Worker, head: Head)
    ensures var o := FlushDenied(env, w, me, head); Plain(env, w, me, o.world, o.worker, o.head.Some?, None)
  {
    hide AppendLocked; hide Plain;
    if me.suppressed.None? {
      PlainSame(env, w, me, w, me);
    } else {
      var s := me.suppressed.value;
      LinePlain(env, w, me, DeniedSummary(s.count, s.windowStart, s.windowEnd), head, FlushDenied(env, w, me, head).worker);
    }
  }

  lemma {:induction false} FlushKeysPlain(env: Env, w: World, me: Worker, keys: seq<ReadKey>, head: Head)
    requires forall k :: k in keys ==> k in me.openReads
    requires forall i, j :: 0 <= i < j < |keys| ==> keys[i] != keys[j]
    ensures var o := FlushKeys(env, w, me, keys, head); Plain(env, w, me, o.world, o.worker, o.head.Some?, None)
    decreases |keys|
  {
    hide AppendLocked; hide Plain;
    if keys == [] {
      PlainSame(env, w, me, w, me);
    } else {
      var k, s := keys[0], me.openReads[keys[0]];
      var f := ReadSummary(k.tenant, k.transport, s.count, s.windowStart, s.windowEnd);
      var a, rest := AppendLocked(env, w, f, head), me.(openReads := me.openReads - {k});
      LinePlain(env, w, me, f, head, if a.head.None? then me else rest);
      if a.head.Some? {
        FlushKeysPlain(env, a.world, rest, keys[1..], a.head.value);
        var o := FlushKeys(env, a.world, rest, keys[1..], a.head.value);
        PlainOn(env, w, me, a.world, rest, o.world, o.worker, o.head.Some?, None);
      }
    }
  }

  lemma FlushReadsPlain(env: Env, w: World, me: Worker, head: Head)
    ensures var o := FlushReads(env, w, me, head); Plain(env, w, me, o.world, o.worker, o.head.Some?, None)
  {
    FlushKeysPlain(env, w, me, SortedKeys(me.openReads), head);
  }

  lemma CountedPlain(env: Env, w: World, me: Worker, open: Option<Summary>, me': Worker)
    requires me'.outage == me.outage
    ensures Plain(env, w, me, Counted(env, w, open).1, me', true, None)
  {}

  lemma FinishPlain(env: Env, o: Out, fields: Fields)
    requires fields.Call? && o.head.Some?
    ensures var s := Finish(env, o, fields); Plain(env, o.world, o.worker, s.world, s.worker, s.result != Failed, OwnOf(s, fields))
  {
    hide AppendLocked; hide Plain;
    LinePlain(env, o.world, o.worker, fields, o.head.value, o.worker);
  }

  lemma AppendDeniedPlain(env: Env, w: World, me: Worker, fields: Fields, head: Head)
    requires fields.Call?
    ensures var s := AppendDenied(env, w, me, fields, head); Plain(env, w, me, s.world, s.worker, s.result != Failed, OwnOf(s, fields))
  {
    hide FlushDenied; hide Finish; hide Minute; hide Counted; hide Plain;
    var minute, w1 := Minute(Now(env, w)), Ticked(w);
    PlainSame(env, w, me, w1, me);
    FlushDeniedPlain(env, w1, me, head);
    var flush := me.deniedMinute != Some(minute);
    var o := if flush then FlushDenied(env, w1, me, head) else Out(w1, me, Some(head));
    if flush { PlainOn(env, w, me, w1, me, o.world, o.worker, o.head.Some?, None); }
    if o.head.Some? {
      var before := if flush then 0 else me.deniedCount;
      var me1 := o.worker.(deniedMinute := Some(minute), deniedCount := before + 1);
      var s := AppendDenied(env, w, me, fields, head);
      PlainSame(env, o.world, o.worker, o.world, me1);
      if before + 1 > env.deniedCap {
        CountedPlain(env, o.world, me1, me1.suppressed, s.worker);
      } else {
        FinishPlain(env, o.(worker := me1), fields);
      }
      PlainOn(env, o.world, o.worker, o.world, me1, s.world, s.worker, s.result != Failed, OwnOf(s, fields));
      PlainOn(env, w, me, o.world, o.worker, s.world, s.worker, s.result != Failed, OwnOf(s, fields));
    }
  }

  lemma CountReadPlain(env: Env, o: Out, minute: nat, counts: map<Id, nat>, fields: Fields)
    requires fields.Call? && o.head.Some?
    ensures var s := CountRead(env, o, minute, counts, fields); Plain(env, o.world, o.worker, s.world, s.worker, s.result != Failed, OwnOf(s, fields))
  {
    hide Finish; hide Counted; hide Plain;
    var n := (if fields.tenant in counts then counts[fields.tenant] else 0) + 1;
    var me := o.worker.(readMinute := Some(minute), readCounts := counts[fields.tenant := n]);
    var key := ReadKey(fields.tenant, fields.transport);
    var s := CountRead(env, o, minute, counts, fields);
    PlainSame(env, o.world, o.worker, o.world, me);
    if n > env.readCap {
      CountedPlain(env, o.world, me, if key in me.openReads then Some(me.openReads[key]) else None, s.worker);
    } else {
      FinishPlain(env, o.(worker := me), fields);
    }
    PlainOn(env, o.world, o.worker, o.world, me, s.world, s.worker, s.result != Failed, OwnOf(s, fields));
  }

  lemma AppendReadPlain(env: Env, w: World, me: Worker, fields: Fields, head: Head)
    requires fields.Call?
    ensures var s := AppendRead(env, w, me, fields, head); Plain(env, w, me, s.world, s.worker, s.result != Failed, OwnOf(s, fields))
  {
    hide FlushReads; hide CountRead; hide Minute; hide Plain;
    var minute, w1 := Minute(Now(env, w)), Ticked(w);
    PlainSame(env, w, me, w1, me);
    FlushReadsPlain(env, w1, me, head);
    var flush := me.readMinute != Some(minute);
    var o := if flush then FlushReads(env, w1, me, head) else Out(w1, me, Some(head));
    if flush { PlainOn(env, w, me, w1, me, o.world, o.worker, o.head.Some?, None); }
    if o.head.Some? {
      var counts := if flush then map[] else me.readCounts;
      CountReadPlain(env, o, minute, counts, fields);
      var s := CountRead(env, o, minute, counts, fields);
      PlainOn(env, w, me, o.world, o.worker, s.world, s.worker, s.result != Failed, OwnOf(s, fields));
    }
  }

  lemma AppendOtherPlain(env: Env, w: World, me: Worker, fields: Fields, head: Head)
    requires fields.Call?
    ensures var s := AppendOther(env, w, me, fields, head); Plain(env, w, me, s.world, s.worker, s.result != Failed, OwnOf(s, fields))
  {
    hide FlushReads; hide Plain; hide IsWrite; hide AppendLocked;
    var o := if IsWrite(fields) then FlushReads(env, w, me, head) else Out(w, me, Some(head));
    PlainSame(env, w, me, w, me);
    FlushReadsPlain(env, w, me, head);
    if o.head.Some? {
      FinishPlain(env, o, fields);
      var s := Finish(env, o, fields);
      PlainOn(env, w, me, o.world, o.worker, s.world, s.worker, s.result != Failed, OwnOf(s, fields));
    }
  }

  // ----- the gap comes first

  /** The entry of an outage that two records add up to: all their calls and refusals, since the earlier. */
  predicate GapFor(f: Fields, a: Option<Outage>, b: Option<Outage>) {
    && f.Gap?
    && f.unlogged == (if a.Some? then a.value.unlogged else 0) + (if b.Some? then b.value.unlogged else 0)
    && f.refused == (if a.Some? then a.value.refused else 0) + (if b.Some? then b.value.refused else 0)
    && Since(f.since, a, b)
  }

  predicate Since(t: Time, a: Option<Outage>, b: Option<Outage>) {
    && (a.Some? ==> t <= a.value.since) && (b.Some? ==> t <= b.value.since)
    && ((a.Some? && t == a.value.since) || (b.Some? && t == b.value.since))
  }

  /** Where an outage was recorded its gap entry is the one added, and both records are cleared; where none
      was, nothing is added. */
  predicate Closed(w: World, me: Worker, v: World, me': Worker) {
    v.degraded.None? && me'.outage.None? &&
    if w.degraded.None? && me.outage.None? then v.history == w.history
    else |v.history| == |w.history| + 1 && w.history <= v.history && GapFor(v.history[|w.history|].body.fields, w.degraded, me.outage)
  }

  lemma CloseOutageMeans(env: Env, w: World, me: Worker, head: Head)
    ensures var o := CloseOutage(env, w, me, head);
      && Went(env, w.io, o.world.io, o.head.Some?)
      && if o.head.Some? then Closed(w, me, o.world, o.worker)
         else o.world.history == w.history && o.world.degraded == w.degraded && o.worker == me
    ensures OwnLast(w.history, CloseOutage(env, w, me, head).world.history, None)
  {
    hide AppendLocked;
    var state := Combine(w.degraded, me.outage);
    if state.Some? {
      var s := state.value;
      LineAppended(env, Ticked(w), Gap(s.unlogged, s.refused, s.since, Now(env, w)), head);
    }
  }

  /** A preflight succeeds exactly when all its disk operations do; then a recorded outage has its entry and
      is over, and nothing else is written; else nothing is written and the records stay. */
  lemma PreflightMeans(env: Env, w: World, me: Worker)
    ensures var o := Preflight(env, w, me);
      && w.io < o.world.io && (o.head.Some? <==> forall n :: w.io <= n < o.world.io ==> env.ok(n))
      && if o.head.Some? then Closed(w, me, o.world, o.worker)
         else o.world.history == w.history && o.world.degraded == w.degraded && o.worker == me
  {
    hide CloseOutage; hide Closed; hide CurrentHead;
    CloseOutageMeans(env, Tried(w), me, CurrentHead(Tried(w)));
    var o := CloseOutage(env, Tried(w), me, CurrentHead(Tried(w)));
    if env.ok(w.io) {
      WentOn(env, w.io, w.io + 1, o.world.io, o.head.Some?);
      SameClosed(w, Tried(w), me, o.world, o.worker);
    }
  }

  lemma SameClosed(w: World, u: World, me: Worker, v: World, me': Worker)
    requires u.history == w.history && u.degraded == w.degraded
    ensures Closed(u, me, v, me') == Closed(w, me, v, me')
  {}

  /** What an append does once the outage is closed. */
  function Onward(env: Env, w: World, me: Worker, fields: Fields, head: Head): Step
    requires fields.Call?
  {
    if fields.outcome == Denied then AppendDenied(env, w, me, fields, head)
    else
      var p := FlushDenied(env, w, me, head);
      if p.head.None? then Step(p.world, p.worker, Failed)
      else if IsRead(fields) then AppendRead(env, p.world, p.worker, fields, p.head.value)
      else AppendOther(env, p.world, p.worker, fields, p.head.value)
  }

  lemma OnwardPlain(env: Env, w: World, me: Worker, fields: Fields, head: Head)
    requires fields.Call?
    ensures var s := Onward(env, w, me, fields, head); Plain(env, w, me, s.world, s.worker, s.result != Failed, OwnOf(s, fields))
  {
    hide FlushDenied; hide AppendDenied; hide AppendRead; hide AppendOther; hide IsRead; hide Plain;
    if fields.outcome == Denied {
      AppendDeniedPlain(env, w, me, fields, head);
    } else {
      FlushDeniedPlain(env, w, me, head);
      var p := FlushDenied(env, w, me, head);
      if p.head.Some? {
        var s := Onward(env, w, me, fields, head);
        AppendReadPlain(env, p.world, p.worker, fields, p.head.value);
        AppendOtherPlain(env, p.world, p.worker, fields, p.head.value);
        PlainOn(env, w, me, p.world, p.worker, s.world, s.worker, s.result != Failed, OwnOf(s, fields));
      }
    }
  }

  lemma AppendOnward(env: Env, w: World, me: Worker, fields: Fields)
    requires fields.Call? && env.ok(w.io)
    ensures var o := CloseOutage(env, Tried(w), me, CurrentHead(Tried(w)));
      Append(env, w, me, fields) == if o.head.None? then Step(o.world, o.worker, Failed) else Onward(env, o.world, o.worker, fields, o.head.value)
  {
    hide CloseOutage; hide FlushDenied; hide AppendDenied; hide AppendRead; hide AppendOther; hide IsRead; hide CurrentHead;
  }

  /** The outage of `w` and `me` has its entry, right behind the entries before, and is over; no other gap
      entry was added. */
  predicate GapFirst(w: World, me: Worker, v: World, me': Worker) {
    && w.history <= v.history && v.degraded.None? && me'.outage.None?
    && if w.degraded.None? && me.outage.None? then NoGapAdded(w.history, v.history)
       else
         && |w.history| < |v.history| && GapFor(v.history[|w.history|].body.fields, w.degraded, me.outage)
         && forall n :: |w.history| < n < |v.history| ==> !v.history[n].body.fields.Gap?
  }

  lemma GapFirstPlain(w: World, me: Worker, u: World, mid: Worker, v: World, me': Worker)
    requires Closed(w, me, u, mid) && NoGapAdded(u.history, v.history) && v.degraded == u.degraded && me'.outage == mid.outage
    ensures GapFirst(w, me, v, me')
  {
    hide GapFor;
    if |w.history| < |u.history| { assert v.history[|w.history|] == u.history[|w.history|]; }
  }

  /** An append succeeds exactly when every disk operation that it tries does.  Then a recorded outage is
      the first thing it writes.  The entry of its call is the last, and is there exactly when it answers
      that the call was logged; no other call's entry is ever written. */
  lemma AppendMeans(env: Env, w: World, me: Worker, fields: Fields)
    requires fields.Call?
    ensures var s := Append(env, w, me, fields);
      && w.io < s.world.io && (s.result != Failed <==> forall n :: w.io <= n < s.world.io ==> env.ok(n))
      && (s.result != Failed ==> GapFirst(w, me, s.world, s.worker))
      && OwnLast(w.history, s.world.history, if s.result == Logged then Some(fields) else None)
  {
    hide Append; hide CloseOutage; hide Closed; hide CurrentHead; hide Onward; hide GapFirst; hide NoGapAdded;
    if !env.ok(w.io) {
      LockFails(env, w, me, fields);
    } else {
      AppendOnward(env, w, me, fields);
      CloseOutageMeans(env, Tried(w), me, CurrentHead(Tried(w)));
      var o := CloseOutage(env, Tried(w), me, CurrentHead(Tried(w)));
      WentOn(env, w.io, w.io + 1, o.world.io, o.head.Some?);
      if o.head.Some? {
        OnwardPlain(env, o.world, o.worker, fields, o.head.value);
        var s := Onward(env, o.world, o.worker, fields, o.head.value);
        WentOn(env, w.io, o.world.io, s.world.io, s.result != Failed);
        OwnLastOn(w.history, o.world.history, s.world.history, OwnOf(s, fields));
        SameClosed(w, Tried(w), me, o.world, o.worker);
        GapFirstPlain(w, me, o.world, o.worker, s.world, s.worker);
      }
    }
  }

  lemma LockFails(env: Env, w: World, me: Worker, fields: Fields)
    requires fields.Call? && !env.ok(w.io)
    ensures Append(env, w, me, fields) == Step(Tried(w), me, Failed)
  {
    hide CloseOutage; hide FlushDenied; hide AppendDenied; hide AppendRead; hide AppendOther; hide IsRead; hide CurrentHead;
  }

  // ----- what is summarised, and what a step leaves open

  /** Which calls share a summary, which keep an entry of their own, and what an append that succeeded
      leaves open: a denied call leaves the reads; any other closes the denied summary; a successful ledger
      write (a write tool, a POST that stores, a change of one record) also closes all reads; a read is
      counted; everything else leaves the reads. */
  lemma AppendLeaves(env: Env, w: World, me: Worker, fields: Fields)
    requires fields.Call? && env.deniedCap > 0 && Append(env, w, me, fields).result != Failed
    ensures var s := Append(env, w, me, fields); var read := fields.outcome == Okay && fields.verb == Get && fields.transport != HttpTool;
      && (s.result == Suppressed <==>
            || (fields.outcome == Denied && s.worker.deniedCount > env.deniedCap)
            || (read && fields.tenant in s.worker.readCounts && s.worker.readCounts[fields.tenant] > env.readCap))
      && (if fields.outcome == Denied then s.worker.openReads == me.openReads else s.worker.suppressed.None?)
      && (fields.outcome == Okay && !read && (fields.tool == Remember || fields.tool == Upsert) ==> s.worker.openReads == map[])
      && (fields.outcome == Okay && fields.verb == Post && (fields.route == Memory || fields.route == Promote || fields.route == Pipeline) ==>
            s.worker.openReads == map[])
      && (fields.outcome == Okay && (fields.verb == Patch || fields.verb == Put || fields.verb == Delete) && fields.route == MemoryId ==>
            s.worker.openReads == map[])
      && (fields.outcome == Error ==> s.worker.openReads == me.openReads)
      && (fields.outcome == Okay && !read && fields.tool.OtherTool? && (fields.verb == NoVerb || fields.verb == Get || fields.route.OtherRoute?) ==>
            s.worker.openReads == me.openReads)
  {
    hide Append; hide Windowed; hide CloseOutage; hide Onward; hide CurrentHead;
    AppendWindowed(env, w, me, fields);
    SuppressedIff(env, w, me, fields, Append(env, w, me, fields));
    if !env.ok(w.io) { LockFails(env, w, me, fields); }
    AppendOnward(env, w, me, fields);
    CloseOutageFrame(env, Tried(w), me, CurrentHead(Tried(w)));
    var o := CloseOutage(env, Tried(w), me, CurrentHead(Tried(w)));
    OnwardLeaves(env, o.world, o.worker, fields, o.head.value);
  }

  lemma SuppressedIff(env: Env, w: World, me: Worker, fields: Fields, s: Step)
    requires fields.Call? && Windowed(env, w, me, fields, s) && s.result != Failed
    ensures s.result == Suppressed <==>
      || (fields.outcome == Denied && s.worker.deniedCount > env.deniedCap)
      || (IsRead(fields) && fields.tenant in s.worker.readCounts && s.worker.readCounts[fields.tenant] > env.readCap)
  {
    hide Minute;
  }

  lemma OnwardLeaves(env: Env, w: World, me: Worker, fields: Fields, head: Head)
    requires fields.Call? && env.deniedCap > 0 && Onward(env, w, me, fields, head).result != Failed
    ensures var s := Onward(env, w, me, fields, head);
      && (if fields.outcome == Denied then s.worker.openReads == me.openReads else s.worker.suppressed.None?)
      && (fields.outcome != Denied && !IsRead(fields) ==> s.worker.openReads == if IsWrite(fields) then map[] else me.openReads)
  {
    hide FlushDenied; hide AppendDenied; hide AppendRead; hide AppendOther; hide IsRead; hide IsWrite;
    if fields.outcome == Denied {
      DeniedStep(env, w, me, fields, head);
    } else {
      FlushDeniedFrame(env, w, me, head);
      var p := FlushDenied(env, w, me, head);
      if IsRead(fields) {
        ReadStep(env, p.world, p.worker, fields, p.head.value);
      } else {
        OtherLeaves(env, p.world, p.worker, fields, p.head.value);
      }
    }
  }

  lemma OtherLeaves(env: Env, w: World, me: Worker, fields: Fields, head: Head)
    requires AppendOther(env, w, me, fields, head).result != Failed
    ensures var s := AppendOther(env, w, me, fields, head);
      s.worker.openReads == (if IsWrite(fields) then map[] else me.openReads) && s.worker.suppressed == me.suppressed
  {
    hide FlushReads; hide IsWrite; hide AppendLocked;
    FlushReadsFrame(env, w, me, head);
    var o := if IsWrite(fields) then FlushReads(env, w, me, head) else Out(w, me, Some(head));
    if o.head.Some? { FinishFrame(env, o, fields); }
  }

  // ----- what a flush writes

  /** One entry per key, in the order of the keys, each with the whole summary that was open. */
  predicate SummaryEntries(es: seq<Entry>, open: map<ReadKey, Summary>, keys: seq<ReadKey>) {
    |es| == |keys| && forall i :: 0 <= i < |es| ==> keys[i] in open && ReadEntry(es[i].body.fields, keys[i], open[keys[i]])
  }

  predicate ReadEntry(f: Fields, k: ReadKey, s: Summary) {
    f.ReadSummary? && f.tenant == k.tenant && f.transport == k.transport && f.count == s.count
    && f.windowStart == s.windowStart && f.windowEnd == s.windowEnd
  }

  predicate DeniedEntry(f: Fields, s: Summary) {
    f.DeniedSummary? && f.count == s.count && f.windowStart == s.windowStart && f.windowEnd == s.windowEnd
  }

  /** By tenant, and within a tenant by the name of the transport. */
  predicate KeysAscend(keys: seq<ReadKey>) {
    forall i, j :: 0 <= i < j < |keys| ==>
      TextBefore(keys[i].tenant.text, keys[j].tenant.text) || (keys[i].tenant == keys[j].tenant && NameBefore(keys[i].transport, keys[j].transport))
  }

  predicate NameBefore(s: Transport, t: Transport) {
    TextBefore(NameOf(s), NameOf(t))
  }

  function NameOf(t: Transport): string {
    match t case HttpApi => "http-api" case HttpTool => "http-tool" case McpHttp => "mcp-http" case McpStdio => "mcp-stdio"
  }

  lemma {:induction false} DiffersAfter(p: string, x: string, y: string)
    requires x != "" && y != "" && x[0] < y[0]
    ensures TextBefore(p + x, p + y)
  {
    if p == "" {
      assert p + x == x && p + y == y;
    } else {
      assert (p + x)[1..] == p[1..] + x && (p + y)[1..] == p[1..] + y;
      DiffersAfter(p[1..], x, y);
    }
  }

  lemma NamesAscend()
    ensures NameBefore(HttpApi, HttpTool) && NameBefore(HttpTool, McpHttp) && NameBefore(McpHttp, McpStdio)
    ensures NameBefore(HttpApi, McpHttp) && NameBefore(HttpApi, McpStdio) && NameBefore(HttpTool, McpStdio)
  {
    hide TextBefore;
    DiffersAfter("http-", "api", "tool");
    DiffersAfter("mcp-", "http", "stdio");
    DiffersAfter("", "http-api", "mcp-http");
    DiffersAfter("", "http-api", "mcp-stdio");
    DiffersAfter("", "http-tool", "mcp-http");
    DiffersAfter("", "http-tool", "mcp-stdio");
    assert "" + "http-api" == "http-api" && "" + "http-tool" == "http-tool" && "" + "mcp-http" == "mcp-http" && "" + "mcp-stdio" == "mcp-stdio";
    assert "http-" + "api" == "http-api" && "http-" + "tool" == "http-tool" && "mcp-" + "http" == "mcp-http" && "mcp-" + "stdio" == "mcp-stdio";
  }

  lemma RankIsName(s: Transport, t: Transport)
    ensures Rank(s) < Rank(t) <==> NameBefore(s, t)
  {
    hide TextBefore; hide NameOf;
    NamesAscend();
    TextBeforeTotal(NameOf(s), NameOf(t));
  }

  lemma SortedKeysAscend(open: map<ReadKey, Summary>)
    ensures var keys := SortedKeys(open); KeysAscend(keys) && |keys| == |open|
  {
    hide NameBefore;
    KeyBeforeStrict();
    forall s, t ensures Rank(s) < Rank(t) <==> NameBefore(s, t) { RankIsName(s, t); }
    assert |open.Keys| == |open|;
  }

  lemma {:induction false} FlushKeysWrites(env: Env, w: World, me: Worker, keys: seq<ReadKey>, head: Head) returns (es: seq<Entry>)
    requires forall k :: k in keys ==> k in me.openReads
    requires forall i, j :: 0 <= i < j < |keys| ==> keys[i] != keys[j]
    requires FlushKeys(env, w, me, keys, head).head.Some?
    ensures FlushKeys(env, w, me, keys, head).world.history == w.history + es && SummaryEntries(es, me.openReads, keys)
    decreases |keys|
  {
    hide AppendLocked; hide ReadEntry;
    if keys == [] {
      es := [];
    } else {
      var k, s := keys[0], me.openReads[keys[0]];
      var f := ReadSummary(k.tenant, k.transport, s.count, s.windowStart, s.windowEnd);
      var a, rest := AppendLocked(env, w, f, head), me.(openReads := me.openReads - {k});
      LineAppended(env, w, f, head);
      var later := FlushKeysWrites(env, a.world, rest, keys[1..], a.head.value);
      var e := a.world.history[|w.history|];
      EntryIs(k, s);
      assert a.world.history == w.history + [e];
      es := [e] + later;
      forall i | 0 < i < |es| ensures keys[i] in me.openReads && ReadEntry(es[i].body.fields, keys[i], me.openReads[keys[i]]) {
        assert keys[1..][i - 1] == keys[i] && later[i - 1] == es[i];
      }
    }
  }

  lemma EntryIs(k: ReadKey, s: Summary)
    ensures ReadEntry(ReadSummary(k.tenant, k.transport, s.count, s.windowStart, s.windowEnd), k, s)
  {}

  /** A flush succeeds exactly when all its disk operations do.  Then nothing is open any more, and it wrote
      the denied summary, if one was open, and then one entry for every open read summary, by tenant and
      transport, each with the count and times of its summary. */
  lemma FlushMeans(env: Env, w: World, me: Worker)
    ensures var o := FlushLocked(env, w, me);
      && w.io < o.world.io && (o.head.Some? <==> forall n :: w.io <= n < o.world.io ==> env.ok(n))
      && o.world.degraded == w.degraded && o.worker.outage == me.outage
      && (o.head.Some? ==> !AnyOpen(o.worker) && Flushed(w.history, o.world.history, me))
  {
    hide FlushDenied; hide FlushReads; hide Flushed; hide CurrentHead;
    var w0 := Tried(w);
    if env.ok(w.io) {
      PlainSame(env, w0, me, w0, me);
      FlushDeniedPlain(env, w0, me, CurrentHead(w0));
      FlushDeniedFrame(env, w0, me, CurrentHead(w0));
      var p := FlushDenied(env, w0, me, CurrentHead(w0));
      WentOn(env, w.io, w0.io, p.world.io, p.head.Some?);
      if p.head.Some? {
        FlushReadsPlain(env, p.world, p.worker, p.head.value);
        FlushReadsFrame(env, p.world, p.worker, p.head.value);
        var o := FlushReads(env, p.world, p.worker, p.head.value);
        WentOn(env, w.io, p.world.io, o.world.io, o.head.Some?);
        if o.head.Some? { FlushWrites(env, w0, me, CurrentHead(w0)); }
      }
    }
  }

  ghost predicate Flushed(h: seq<Entry>, h': seq<Entry>, me: Worker) {
    exists denied: seq<Entry>, quiet: seq<Entry>, keys: seq<ReadKey> ::
      && h' == h + denied + quiet && SummaryEntries(quiet, me.openReads, keys) && |keys| == |me.openReads| && KeysAscend(keys)
      && if me.suppressed.Some? then |denied| == 1 && DeniedEntry(denied[0].body.fields, me.suppressed.value) else denied == []
  }

  lemma DeniedWrites(env: Env, w: World, me: Worker, head: Head) returns (denied: seq<Entry>)
    requires FlushDenied(env, w, me, head).head.Some?
    ensures var p := FlushDenied(env, w, me, head);
      && p.world.history == w.history + denied && p.worker.openReads == me.openReads
      && if me.suppressed.Some? then |denied| == 1 && DeniedEntry(denied[0].body.fields, me.suppressed.value) else denied == []
  {
    hide AppendLocked;
    denied := [];
    if me.suppressed.Some? {
      var s := me.suppressed.value;
      LineAppended(env, w, DeniedSummary(s.count, s.windowStart, s.windowEnd), head);
      denied := [FlushDenied(env, w, me, head).world.history[|w.history|]];
    }
  }

  lemma FlushWrites(env: Env, w: World, me: Worker, head: Head)
    requires var p := FlushDenied(env, w, me, head); p.head.Some? && FlushReads(env, p.world, p.worker, p.head.value).head.Some?
    ensures var p := FlushDenied(env, w, me, head);
      Flushed(w.history, FlushReads(env, p.world, p.worker, p.head.value).world.history, me)
  {
    hide FlushDenied; hide SummaryEntries; hide KeysAscend; hide DeniedEntry; hide SortedKeys; hide FlushKeys;
    var denied := DeniedWrites(env, w, me, head);
    var p := FlushDenied(env, w, me, head);
    SortedKeysAscend(me.openReads);
    var quiet := FlushKeysWrites(env, p.world, p.worker, SortedKeys(me.openReads), p.head.value);
    assert w.history + denied + quiet == FlushReads(env, p.world, p.worker, p.head.value).world.history;
  }

  /** A flush that fails while a summary stays open leaves an outage on record, so that readers are told. */
  lemma FlushWarns(env: Env, w: World, me: Worker)
    ensures var o, m := FlushLocked(env, w, me), Flush(env, w, me);
      && m.worker.suppressed == o.worker.suppressed && m.worker.openReads == o.worker.openReads && m.world.history == o.world.history
      && (o.head.None? && (o.worker.suppressed.Some? || o.worker.openReads != map[]) ==> m.world.degraded.Some? || m.worker.outage.Some?)
      && (o.head.Some? || (o.worker.suppressed.None? && o.worker.openReads == map[]) ==> m == Marked(o.world, o.worker))
  {
    hide FlushLocked; hide MarkDegraded;
    var o := FlushLocked(env, w, me);
    MarkMeans(env, o.world, o.worker, 0, 0);
  }

  // ----- what a mark records

  /** A mark leaves one record of what it marks and of what its worker could not write before: in the
      DEGRADED file, on top of what that holds, when the write succeeds, and in memory when it fails.  The
      record begins when the earliest of its parts began; a new one begins now. */
  lemma MarkMeans(env: Env, w: World, me: Worker, unlogged: nat, refused: nat)
    ensures var m := MarkDegraded(env, w, me, unlogged, refused); var began := if me.outage.Some? then me.outage.value.since else env.clock(w.ticks);
      var part := Outage(began, unlogged + (if me.outage.Some? then me.outage.value.unlogged else 0), refused + (if me.outage.Some? then me.outage.value.refused else 0));
      && m.world.history == w.history && m.world.io == w.io + 1
      && if env.ok(w.io) then
           && m.worker == me.(outage := None) && m.world.degraded.Some?
           && m.world.degraded.value.unlogged == part.unlogged + (if w.degraded.Some? then w.degraded.value.unlogged else 0)
           && m.world.degraded.value.refused == part.refused + (if w.degraded.Some? then w.degraded.value.refused else 0)
           && Since(m.world.degraded.value.since, w.degraded, Some(part))
         else m.worker == me.(outage := Some(part)) && m.world.degraded == w.degraded
  {}

  // ----- where an entry is filed

  /** The entries of the files of one day, in their order. */
  function OfDay(files: seq<DayFile>, day: nat): seq<Entry> {
    if files == [] then []
    else (if files[0].day == day then files[0].entries else []) + OfDay(files[1..], day)
  }

  lemma {:induction false} OfDaySnoc(files: seq<DayFile>, f: DayFile, day: nat)
    ensures OfDay(files + [f], day) == OfDay(files, day) + if f.day == day then f.entries else []
  {
    if files != [] {
      assert (files + [f])[1..] == files[1..] + [f];
      OfDaySnoc(files[1..], f, day);
    }
  }

  lemma {:induction false} NoneOfDay(files: seq<DayFile>, day: nat)
    requires forall i :: 0 <= i < |files| ==> files[i].day != day
    ensures OfDay(files, day) == []
  {
    if files != [] { NoneOfDay(files[1..], day); }
  }

  lemma SplitLast(files: seq<DayFile>, d: nat)
    requires files != []
    ensures var k := |files| - 1; OfDay(files, d) == OfDay(files[..k], d) + if files[k].day == d then files[k].entries else []
  {
    hide OfDay;
    assert files[..|files| - 1] + [files[|files| - 1]] == files;
    OfDaySnoc(files[..|files| - 1], files[|files| - 1], d);
  }

  /** A line goes behind the lines of its day and nowhere else, even when the clock went back to an earlier
      day. */
  lemma {:induction false} AddEntryOfDay(files: seq<DayFile>, day: nat, e: Entry, d: nat)
    requires DaysAscend(files)
    ensures OfDay(AddEntry(files, day, e), d) == OfDay(files, d) + if d == day then [e] else []
  {
    hide OfDay; hide DaysAscend;
    if files == [] || files[|files| - 1].day < day {
      OfDaySnoc(files, DayFile(day, [e]), d);
      NoneLater(files, day);
    } else {
      var last, earlier := files[|files| - 1], files[..|files| - 1];
      SplitLast(files, d);
      if last.day == day {
        OfDaySnoc(earlier, DayFile(day, last.entries + [e]), d);
      } else {
        AscendEarlier(files);
        AddEntryOfDay(earlier, day, e, d);
        OfDaySnoc(AddEntry(earlier, day, e), last, d);
      }
    }
  }

  lemma NoneLater(files: seq<DayFile>, day: nat)
    requires DaysAscend(files) && (files == [] || files[|files| - 1].day < day)
    ensures OfDay(files, day) == []
  {
    hide OfDay;
    NoneOfDay(files, day);
  }

  lemma AscendEarlier(files: seq<DayFile>)
    requires files != [] && DaysAscend(files)
    ensures DaysAscend(files[..|files| - 1])
    ensures |files| > 1 ==> files[|files| - 2].day < files[|files| - 1].day
  {}

  lemma AscendSnoc(files: seq<DayFile>, f: DayFile)
    requires DaysAscend(files) && (files == [] || files[|files| - 1].day < f.day)
    ensures DaysAscend(files + [f])
  {}

  lemma NewDay(files: seq<DayFile>, day: nat, e: Entry)
    ensures files == [] || files[|files| - 1].day < day ==> AddEntry(files, day, e) == files + [DayFile(day, [e])]
  {}

  /** The files stay in the order of their days. */
  lemma {:induction false} AddEntryAscends(files: seq<DayFile>, day: nat, e: Entry)
    requires DaysAscend(files)
    ensures var v := AddEntry(files, day, e);
      && v != [] && DaysAscend(v)
      && v[|v| - 1].day == (if files == [] || files[|files| - 1].day < day then day else files[|files| - 1].day)
  {
    hide DaysAscend;
    if files == [] || files[|files| - 1].day < day {
      NewDay(files, day, e);
      AscendSnoc(files, DayFile(day, [e]));
    } else {
      var last, earlier := files[|files| - 1], files[..|files| - 1];
      AscendEarlier(files);
      if last.day == day {
        AscendSnoc(earlier, DayFile(day, last.entries + [e]));
      } else {
        AddEntryAscends(earlier, day, e);
        AscendSnoc(AddEntry(earlier, day, e), last);
      }
    }
  }

  // ----- what the walk reports

  lemma ProblemsAtMean(env: Env, head: Head, e: Entry, at: nat, k: nat)
    ensures var ps := ProblemsAt(env, head, e, at);
      && (Edited(k) in ps <==> k == at && e.hash != env.digest(e.body))
      && (SeqBroken(k) in ps <==> k == at && e.body.seqNo != head.seqNo + 1)
      && (LinkBroken(k) in ps <==> k == at && e.body.prev != head.hash)
  {}

  /** The walk reports an entry as edited exactly when its hash is not that of its content, a number as broken
      exactly when it is not one more than the number before it, and a link as broken exactly when it is not
      the hash stored before it; before the first entry stands the anchor or the genesis. */
  lemma {:induction false} ProblemsMean(env: Env, start: Head, es: seq<Entry>, k: nat)
    ensures var ps := Problems(env, start, es);
      && (Edited(k) in ps <==> k < |es| && es[k].hash != env.digest(es[k].body))
      && (SeqBroken(k) in ps <==> k < |es| && es[k].body.seqNo != (if k == 0 then start.seqNo else es[k - 1].body.seqNo) + 1)
      && (LinkBroken(k) in ps <==> k < |es| && es[k].body.prev != (if k == 0 then start.hash else es[k - 1].hash))
  {
    hide ProblemsAt;
    if es != [] {
      var earlier, last := es[..|es| - 1], es[|es| - 1];
      ProblemsMean(env, start, earlier, k);
      ProblemsAtMean(env, EndHead(start, earlier), last, |earlier|, k);
    }
  }
}
