/** What the flood summaries count, over whole runs: which suppressed calls an open summary or a summary
    entry stands for, what a ledger write leaves in front of itself, and when a summary's times leave
    its minute. */
module CallLogSummaries {
  import opened Options
  import opened Order
  import opened CallLogModel
  import opened CallLogConservation
  import opened CallLogChain
  import opened CallLogFlood
  import opened CallLogTimes

  /** What one summary of a worker counts: denied calls, or the reads of one tenant and transport. */
  datatype What = Denials | Reads(key: ReadKey)

  function OpenOf(me: Worker, x: What): Option<Summary> {
    match x
    case Denials => me.suppressed
    case Reads(k) => if k in me.openReads then Some(me.openReads[k]) else None
  }

  function WindowOf(me: Worker, x: What): Option<nat> {
    if x.Denials? then me.deniedMinute else me.readMinute
  }

  /** The summary a call joins when it is suppressed. */
  function WhatOf(f: Fields): What
    requires f.Call?
  {
    if f.outcome == Denied then Denials else Reads(ReadKey(f.tenant, f.transport))
  }

  /** The entry is a summary of that. */
  predicate Covers(f: Fields, x: What) {
    match x
    case Denials => f.DeniedSummary?
    case Reads(k) => f.ReadSummary? && f.tenant == k.tenant && f.transport == k.transport
  }

  predicate IsSummary(f: Fields) {
    f.DeniedSummary? || f.ReadSummary?
  }

  function CountOf(f: Fields): nat {
    match f
    case DeniedSummary(n, _, _) => n
    case ReadSummary(_, _, n, _, _) => n
    case _ => 0
  }

  lemma CoversOne(f: Fields, x: What, y: What)
    requires Covers(f, x) && Covers(f, y)
    ensures x == y
  {}

  lemma SummaryCovers(f: Fields)
    requires IsSummary(f)
    ensures Covers(f, if f.DeniedSummary? then Denials else Reads(ReadKey(f.tenant, f.transport)))
  {}

  // ----- what one hold of the lock writes

  predicate NoneCovers(h: seq<Entry>, from: nat, x: What) {
    forall n :: from <= n < |h| ==> !Covers(h[n].body.fields, x)
  }

  predicate OnlyAt(h: seq<Entry>, from: nat, x: What, n: nat) {
    from <= n < |h| && Covers(h[n].body.fields, x) && forall m :: from <= m < |h| && Covers(h[m].body.fields, x) ==> m == n
  }

  /** Either the summary stays open and no entry of its kind was added, or exactly one such entry was, with
      the whole count, and the summary is closed. */
  ghost predicate WrittenAt(h: seq<Entry>, h': seq<Entry>, me: Worker, me': Worker, x: What) {
    || (OpenOf(me', x) == OpenOf(me, x) && NoneCovers(h', |h|, x))
    || (OpenOf(me, x).Some? && OpenOf(me', x).None?
        && exists n: nat :: OnlyAt(h', |h|, x, n) && CountOf(h'[n].body.fields) == OpenOf(me, x).value.count)
  }

  ghost predicate Written(h: seq<Entry>, h': seq<Entry>, me: Worker, me': Worker) {
    h <= h' && forall x :: WrittenAt(h, h', me, me', x)
  }

  lemma WrittenStill(h: seq<Entry>, h': seq<Entry>, me: Worker, me': Worker)
    requires h <= h' && forall n :: |h| <= n < |h'| ==> !IsSummary(h'[n].body.fields)
    requires me.suppressed == me'.suppressed && me.openReads == me'.openReads
    ensures Written(h, h', me, me')
  {
    forall x ensures WrittenAt(h, h', me, me', x) {}
  }

  /** One summary is written. */
  lemma WrittenOne(h: seq<Entry>, e: Entry, me: Worker, me': Worker, x: What)
    requires OpenOf(me, x).Some? && OpenOf(me', x).None? && forall y :: y != x ==> OpenOf(me', y) == OpenOf(me, y)
    requires Covers(e.body.fields, x) && CountOf(e.body.fields) == OpenOf(me, x).value.count
    ensures Written(h, h + [e], me, me')
  {
    var h' := h + [e];
    forall y
      ensures WrittenAt(h, h', me, me', y)
    {
      if y == x {
        assert OnlyAt(h', |h|, x, |h|);
      } else if !NoneCovers(h', |h|, y) {
        CoversOne(e.body.fields, x, y);
      }
    }
  }

  lemma WrittenThen(h0: seq<Entry>, h1: seq<Entry>, h2: seq<Entry>, a: Worker, b: Worker, c: Worker)
    requires Written(h0, h1, a, b) && Written(h1, h2, b, c)
    ensures Written(h0, h2, a, c)
  {
    hide OpenOf; hide Covers; hide CountOf;
    forall x
      ensures WrittenAt(h0, h2, a, c, x)
    {
      assert WrittenAt(h0, h1, a, b, x) && WrittenAt(h1, h2, b, c, x);
      if !NoneCovers(h1, |h0|, x) {
        var n: nat :| OnlyAt(h1, |h0|, x, n) && CountOf(h1[n].body.fields) == OpenOf(a, x).value.count;
        assert h2[n] == h1[n];
        assert OnlyAt(h2, |h0|, x, n);
      } else if !NoneCovers(h2, |h1|, x) {
        var n: nat :| OnlyAt(h2, |h1|, x, n) && CountOf(h2[n].body.fields) == OpenOf(b, x).value.count;
        assert OnlyAt(h2, |h0|, x, n);
      }
    }
  }

  lemma AppendLockedHistory(env: Env, w: World, fields: Fields, head: Head)
    ensures var a := AppendLocked(env, w, fields, head);
      if a.head.Some? then exists e: Entry :: e.body.fields == fields && a.world.history == w.history + [e]
      else a.world.history == w.history
  {
    hide AddEntry; hide OldCount; hide LastEntry;
    var e := NextEntry(env, Now(env, w), fields, head);
    assert e.body.fields == fields;
  }

  lemma PlainWritten(env: Env, w: World, fields: Fields, head: Head, me: Worker, me': Worker)
    requires !IsSummary(fields) && me.suppressed == me'.suppressed && me.openReads == me'.openReads
    ensures Written(w.history, AppendLocked(env, w, fields, head).world.history, me, me')
  {
    hide AppendLocked;
    AppendLockedHistory(env, w, fields, head);
    WrittenStill(w.history, AppendLocked(env, w, fields, head).world.history, me, me');
  }

  lemma CloseOutageWritten(env: Env, w: World, me: Worker, head: Head)
    ensures var o := CloseOutage(env, w, me, head);
      Written(w.history, o.world.history, me, o.worker) && o.worker.suppressed == me.suppressed && o.worker.openReads == me.openReads
  {
    hide AppendLocked; hide Written;
    var state := Combine(w.degraded, me.outage);
    var o := CloseOutage(env, w, me, head);
    if state.Some? {
      PlainWritten(env, Ticked(w), Gap(state.value.unlogged, state.value.refused, state.value.since, Now(env, w)), head, me, o.worker);
    } else {
      WrittenStill(w.history, w.history, me, me);
    }
  }

  lemma FlushDeniedWritten(env: Env, w: World, me: Worker, head: Head)
    ensures var o := FlushDenied(env, w, me, head); Written(w.history, o.world.history, me, o.worker) && o.worker.openReads == me.openReads
  {
    hide AppendLocked; hide Written;
    var o := FlushDenied(env, w, me, head);
    if me.suppressed.Some? {
      var s := me.suppressed.value;
      var fields := DeniedSummary(s.count, s.windowStart, s.windowEnd);
      AppendLockedHistory(env, w, fields, head);
      if o.head.Some? {
        var e: Entry :| e.body.fields == fields && o.world.history == w.history + [e];
        WrittenOne(w.history, e, me, o.worker, Denials);
      } else {
        WrittenStill(w.history, o.world.history, me, o.worker);
      }
    } else {
      WrittenStill(w.history, w.history, me, me);
    }
  }

  lemma {:induction false} FlushKeysWritten(env: Env, w: World, me: Worker, keys: seq<ReadKey>, head: Head)
    requires forall k :: k in keys ==> k in me.openReads
    requires forall i, j :: 0 <= i < j < |keys| ==> keys[i] != keys[j]
    ensures var o := FlushKeys(env, w, me, keys, head); Written(w.history, o.world.history, me, o.worker) && o.worker.suppressed == me.suppressed
    decreases |keys|
  {
    hide AppendLocked; hide Written;
    if keys == [] {
      WrittenStill(w.history, w.history, me, me);
    } else {
      var k, s := keys[0], me.openReads[keys[0]];
      var fields := ReadSummary(k.tenant, k.transport, s.count, s.windowStart, s.windowEnd);
      AppendLockedHistory(env, w, fields, head);
      var a := AppendLocked(env, w, fields, head);
      if a.head.Some? {
        var rest := me.(openReads := me.openReads - {k});
        var e: Entry :| e.body.fields == fields && a.world.history == w.history + [e];
        OneKeyLess(me, rest, k);
        WrittenOne(w.history, e, me, rest, Reads(k));
        FlushKeysWritten(env, a.world, rest, keys[1..], a.head.value);
        var o := FlushKeys(env, a.world, rest, keys[1..], a.head.value);
        WrittenThen(w.history, a.world.history, o.world.history, me, rest, o.worker);
      } else {
        WrittenStill(w.history, a.world.history, me, me);
      }
    }
  }

  lemma OneKeyLess(me: Worker, rest: Worker, k: ReadKey)
    requires k in me.openReads && rest == me.(openReads := me.openReads - {k})
    ensures OpenOf(rest, Reads(k)).None? && forall y :: y != Reads(k) ==> OpenOf(rest, y) == OpenOf(me, y)
  {}

  lemma FlushReadsWritten(env: Env, w: World, me: Worker, head: Head)
    ensures var o := FlushReads(env, w, me, head);
      && Written(w.history, o.world.history, me, o.worker) && o.worker == me.(openReads := o.worker.openReads)
      && (o.head.Some? ==> o.worker.openReads == map[])
  {
    hide FlushKeys; hide Written; hide SortedKeys;
    FlushKeysWritten(env, w, me, SortedKeys(me.openReads), head);
    FlushReadsFrame(env, w, me, head);
  }

  // ----- one append

  /** Both caps are at least 1, as the settings clamp them. */
  predicate CapsSet(env: Env) {
    env.deniedCap > 0 && env.readCap > 0
  }

  /** The reading that chose the window of a suppressed call: before the one that ends its summary, and
      before the one that starts it when it is new. */
  function Chosen(me: Worker, x: What, ticks: nat): nat {
    var back := if OpenOf(me, x).None? then 3 else 2;
    if ticks >= back then ticks - back else 0
  }

  /** The summary that a suppressed call leaves, from the readings of its append. */
  predicate Joined(env: Env, me: Worker, x: What, s: Step) {
    var was := OpenOf(me, x); var n := s.world.ticks;
    && n >= (if was.None? then 3 else 2)
    && OpenOf(s.worker, x) == Some(Summary(if was.Some? then was.value.windowStart else env.clock(n - 2), env.clock(n - 1),
                                           1 + if was.Some? then was.value.count else 0))
    && WindowOf(s.worker, x) == Some(Minute(env.clock(Chosen(me, x, n))))
  }

  /** An append first brings the worker to `me'` by writing summaries, and then at most counts its call. */
  ghost predicate Did(env: Env, h: seq<Entry>, me: Worker, me': Worker, fields: Fields, s: Step)
    requires fields.Call?
  {
    && Written(h, s.world.history, me, me')
    && (forall x :: WindowOf(s.worker, x) != WindowOf(me, x) ==> OpenOf(me', x).None?)
    && if s.result != Suppressed then s.worker.suppressed == me'.suppressed && s.worker.openReads == me'.openReads
       else
         var x := WhatOf(fields);
         && OpenOf(me', x) == OpenOf(me, x) && WindowOf(s.worker, x) == WindowOf(me, x) && Joined(env, me, x, s)
         && (forall y :: y != x ==> OpenOf(s.worker, y) == OpenOf(me', y))
  }

  lemma FinishDid(env: Env, o: Out, fields: Fields)
    requires fields.Call?
    ensures var s := Finish(env, o, fields);
      Written(o.world.history, s.world.history, o.worker, o.worker) && s.worker == o.worker && s.result != Suppressed
  {
    hide AppendLocked; hide Written;
    if o.head.Some? {
      PlainWritten(env, o.world, fields, o.head.value, o.worker, o.worker);
    } else {
      WrittenStill(o.world.history, o.world.history, o.worker, o.worker);
    }
  }

  lemma DeniedDid(env: Env, w: World, me: Worker, fields: Fields, head: Head) returns (me': Worker)
    requires fields.Call? && fields.outcome == Denied && CapsSet(env)
    ensures Did(env, w.history, me, me', fields, AppendDenied(env, w, me, fields, head))
  {
    hide FlushDenied; hide Finish; hide Minute; hide Written;
    var minute, w1 := Minute(Now(env, w)), Ticked(w);
    FlushDeniedFrame(env, w1, me, head);
    FlushDeniedWritten(env, w1, me, head);
    WrittenStill(w.history, w.history, me, me);
    var o := if me.deniedMinute != Some(minute) then FlushDenied(env, w1, me, head) else Out(w1, me, Some(head));
    me' := o.worker;
    if o.head.Some? {
      var before := if me.deniedMinute != Some(minute) then 0 else me.deniedCount;
      var me1 := o.worker.(deniedMinute := Some(minute), deniedCount := before + 1);
      var own := o.(worker := me1);
      FinishDid(env, own, fields);
      WrittenSame(o.world.history, Finish(env, own, fields).world.history, me1, o.worker);
      if before + 1 <= env.deniedCap {
        WrittenThen(w.history, o.world.history, Finish(env, own, fields).world.history, me, o.worker, o.worker);
      }
    }
  }

  /** Only the open summaries matter to what was written. */
  lemma WrittenSame(h: seq<Entry>, h': seq<Entry>, a: Worker, b: Worker)
    requires Written(h, h', a, a) && a.suppressed == b.suppressed && a.openReads == b.openReads
    ensures Written(h, h', b, b)
  {
    forall x ensures WrittenAt(h, h', b, b, x) {
      assert WrittenAt(h, h', a, a, x);
    }
  }

  lemma CountReadDid(env: Env, o: Out, minute: nat, counts: map<Id, nat>, fields: Fields)
    requires fields.Call? && fields.outcome != Denied && o.head.Some?
    ensures var s := CountRead(env, o, minute, counts, fields); var x := WhatOf(fields);
      && s.worker.suppressed == o.worker.suppressed && s.worker.deniedMinute == o.worker.deniedMinute && s.worker.readMinute == Some(minute)
      && Written(o.world.history, s.world.history, o.worker, o.worker)
      && if s.result != Suppressed then s.worker.openReads == o.worker.openReads
         else
           && (fields.tenant !in counts ==> env.readCap == 0)
           && s.world.ticks == o.world.ticks + (if OpenOf(o.worker, x).None? then 2 else 1)
           && OpenOf(s.worker, x) == Some(Summary(if OpenOf(o.worker, x).Some? then OpenOf(o.worker, x).value.windowStart else env.clock(s.world.ticks - 2),
                                                  env.clock(s.world.ticks - 1), 1 + if OpenOf(o.worker, x).Some? then OpenOf(o.worker, x).value.count else 0))
           && forall y :: y != x ==> OpenOf(s.worker, y) == OpenOf(o.worker, y)
  {
    hide Finish; hide Written;
    var n := (if fields.tenant in counts then counts[fields.tenant] else 0) + 1;
    var me1 := o.worker.(readMinute := Some(minute), readCounts := counts[fields.tenant := n]);
    FinishDid(env, o.(worker := me1), fields);
    WrittenSame(o.world.history, Finish(env, o.(worker := me1), fields).world.history, me1, o.worker);
    WrittenStill(o.world.history, o.world.history, o.worker, o.worker);
  }

  lemma ReadDid(env: Env, w: World, me: Worker, fields: Fields, head: Head) returns (me': Worker)
    requires fields.Call? && fields.outcome != Denied && CapsSet(env)
    ensures Did(env, w.history, me, me', fields, AppendRead(env, w, me, fields, head))
    ensures me'.suppressed == me.suppressed
  {
    hide FlushReads; hide CountRead; hide Minute; hide Written;
    var minute, w1 := Minute(Now(env, w)), Ticked(w);
    FlushReadsWritten(env, w1, me, head);
    WrittenStill(w.history, w.history, me, me);
    var o := if me.readMinute != Some(minute) then FlushReads(env, w1, me, head) else Out(w1, me, Some(head));
    me' := o.worker;
    if o.head.Some? {
      var counts := if me.readMinute != Some(minute) then map[] else me.readCounts;
      CountReadDid(env, o, minute, counts, fields);
      WrittenThen(w.history, o.world.history, CountRead(env, o, minute, counts, fields).world.history, me, o.worker, o.worker);
    }
  }

  lemma OtherDid(env: Env, w: World, me: Worker, fields: Fields, head: Head) returns (me': Worker)
    requires fields.Call?
    ensures var s := AppendOther(env, w, me, fields, head);
      Did(env, w.history, me, me', fields, s) && s.result != Suppressed && me'.suppressed == me.suppressed
  {
    hide FlushReads; hide Finish; hide Written;
    FlushReadsWritten(env, w, me, head);
    WrittenStill(w.history, w.history, me, me);
    var o := if IsWrite(fields) then FlushReads(env, w, me, head) else Out(w, me, Some(head));
    me' := o.worker;
    FinishDid(env, o, fields);
    WrittenThen(w.history, o.world.history, Finish(env, o, fields).world.history, me, o.worker, o.worker);
  }

  /** What was written before an append's last stretch only adds to it. */
  lemma DidAfter(env: Env, h: seq<Entry>, mid: seq<Entry>, me: Worker, at: Worker, me': Worker, fields: Fields, s: Step)
    requires fields.Call? && Written(h, mid, me, at) && Did(env, mid, at, me', fields, s)
    requires forall x :: WindowOf(at, x) == WindowOf(me, x)
    requires s.result == Suppressed ==> OpenOf(at, WhatOf(fields)) == OpenOf(me, WhatOf(fields))
    ensures Did(env, h, me, me', fields, s)
  {
    hide Written;
    WrittenThen(h, mid, s.world.history, me, at, me');
  }

  lemma AppendDid(env: Env, w: World, me: Worker, fields: Fields) returns (me': Worker)
    requires fields.Call? && CapsSet(env)
    ensures Did(env, w.history, me, me', fields, Append(env, w, me, fields))
  {
    hide CloseOutage; hide FlushDenied; hide AppendDenied; hide AppendRead; hide AppendOther; hide IsRead; hide CurrentHead; hide Did; hide Written;
    var w0 := Tried(w);
    var head := CurrentHead(w0);
    var s := Append(env, w, me, fields);
    if !env.ok(w.io) {
      me' := me;
      WrittenStill(w.history, w.history, me, me);
      FailedDid(env, w.history, me, fields, s);
      return;
    }
    var o := CloseOutage(env, w0, me, head);
    CloseOutageFrame(env, w0, me, head);
    CloseOutageWritten(env, w0, me, head);
    if o.head.None? {
      me' := o.worker;
      FailedDid(env, w.history, me, fields, s);
    } else if fields.outcome == Denied {
      me' := DeniedDid(env, o.world, o.worker, fields, o.head.value);
      DidAfter(env, w.history, o.world.history, me, o.worker, me', fields, s);
    } else {
      FlushDeniedFrame(env, o.world, o.worker, o.head.value);
      FlushDeniedWritten(env, o.world, o.worker, o.head.value);
      var p := FlushDenied(env, o.world, o.worker, o.head.value);
      WrittenThen(w.history, o.world.history, p.world.history, me, o.worker, p.worker);
      if p.head.None? {
        me' := p.worker;
        FailedDid(env, w.history, me, fields, s);
      } else {
        if IsRead(fields) {
          me' := ReadDid(env, p.world, p.worker, fields, p.head.value);
        } else {
          me' := OtherDid(env, p.world, p.worker, fields, p.head.value);
        }
        DidAfter(env, w.history, p.world.history, me, p.worker, me', fields, s);
      }
    }
  }

  lemma FailedDid(env: Env, h: seq<Entry>, me: Worker, fields: Fields, s: Step)
    requires fields.Call? && s.result == Failed && Written(h, s.world.history, me, s.worker) && SameWindows(me, s.worker)
    ensures Did(env, h, me, s.worker, fields, s)
  {
    hide Written;
  }

  // ----- the times of a summary

  /** A suppressed call's summary from the readings of its append: the reading that chose the window, the
      one that starts the summary when it is new, and the last one, which ends it. */
  lemma SuppressedJoins(env: Env, w: World, me: Worker, fields: Fields)
    requires fields.Call? && CapsSet(env) && Append(env, w, me, fields).result == Suppressed
    ensures var s := Append(env, w, me, fields); var x := WhatOf(fields);
      Joined(env, me, x, s) && WindowOf(me, x) == WindowOf(s.worker, x)
  {
    hide Append; hide Joined;
    var me' := AppendDid(env, w, me, fields);
  }

  /** The end of the summary shows the window's minute exactly when the last of `n` readings falls in the
      minute of the reading that chose the window; so does the start of a new summary for the reading in
      between.  A clock that never goes back can leave the window only for a later minute. */
  ghost predicate TimesInWindow(env: Env, me: Worker, x: What, s: Step) {
    var n, open, window := s.world.ticks, OpenOf(s.worker, x), WindowOf(s.worker, x);
    var chosen := Minute(env.clock(Chosen(me, x, n)));
    && open.Some? && window.Some? && n >= 2
    && (Minute(open.value.windowEnd) == window.value <==> Minute(env.clock(n - 1)) == chosen)
    && (OpenOf(me, x).None? ==> (Minute(open.value.windowStart) == window.value <==> Minute(env.clock(n - 2)) == chosen))
    && (Monotone(env) ==> window.value <= Minute(open.value.windowEnd))
  }

  lemma JoinedTimes(env: Env, me: Worker, x: What, s: Step)
    requires Joined(env, me, x, s)
    ensures TimesInWindow(env, me, x, s)
  {
    hide Minute; hide OpenOf; hide WindowOf;
    if Monotone(env) {
      MinuteMono(env, Chosen(me, x, s.world.ticks), s.world.ticks - 1);
    }
  }

  /** For every suppressed call, when the times of its summary stay in their minute. */
  lemma TimesInWindowIff(env: Env, w: World, me: Worker, fields: Fields)
    requires fields.Call? && CapsSet(env) && Append(env, w, me, fields).result == Suppressed
    ensures TimesInWindow(env, me, WhatOf(fields), Append(env, w, me, fields))
  {
    hide Append; hide Joined; hide TimesInWindow;
    SuppressedJoins(env, w, me, fields);
    JoinedTimes(env, me, WhatOf(fields), Append(env, w, me, fields));
  }

  /** An append whose last reading is in the next minute: the end leaves the window. */
  lemma WindowEndMaySpill(fields: Fields) returns (env: Env, me: Worker, w: World)
    requires fields.Call? && fields.outcome == Denied
    ensures var s := Append(env, w, me, fields);
      && CapsSet(env) && Monotone(env) && Sound(env, w) && s.result == Suppressed
      && s.worker.deniedMinute == Some(0) && s.worker.suppressed.Some? && Minute(s.worker.suppressed.value.windowEnd) == 1
  {
    env := Env(n => true, n => if n == 0 then 59_999_999 else 60_000_000, b => GENESIS, 90, 1, 1);
    me := FRESH.(deniedMinute := Some(0), deniedCount := 1);
    w := World([], None, None, 0, 0, []);
    hide CurrentHead; hide FlushDenied; hide Finish; hide AppendRead; hide FlushReads;
    var w0 := Tried(w);
    assert Append(env, w, me, fields) == AppendDenied(env, w0, me, fields, CurrentHead(w0));
    assert Minute(env.clock(0)) == 0 && Minute(env.clock(2)) == 1;
  }

  // ----- the calls behind the counts, over a run

  /** Where a suppressed call is: counted by an open summary, by an entry of the log, or by the outage that
      the given turn marked for a closing worker. */
  datatype Fate = Waiting | InEntry(n: nat) | HandedOver(turn: nat)

  /** A suppressed call: who suppressed it, in the minute of which window, what it counts as, and its own
      tenant and transport. */
  datatype Quiet = Quiet(worker: nat, minute: nat, what: What, tenant: Id, transport: Transport, fate: Fate)

  function QuietOf(worker: nat, minute: nat, f: Fields): Quiet
    requires f.Call?
  {
    Quiet(worker, minute, WhatOf(f), f.tenant, f.transport, Waiting)
  }

  /** A read counts as one of its own tenant and transport. */
  predicate Labelled(q: Quiet) {
    q.what.Reads? ==> q.what.key == ReadKey(q.tenant, q.transport)
  }

  /** The suppressed calls of a run, by the number of their turn. */
  type Trace = map<nat, Quiet>

  function FirstCover(h: seq<Entry>, from: nat, x: What): (r: Option<nat>)
    ensures r.None? <==> NoneCovers(h, from, x)
    ensures r.Some? ==> from <= r.value < |h| && Covers(h[r.value].body.fields, x)
    decreases |h| - from
  {
    if from >= |h| then None
    else if Covers(h[from].body.fields, x) then Some(from)
    else FirstCover(h, from + 1, x)
  }

  /** A waiting call of the worker whose turn it is goes to the entry that the turn adds for its kind, or,
      when the worker closes, to the outage. */
  function NextFate(q: Quiet, worker: nat, from: nat, h: seq<Entry>, closing: bool, turn: nat): Fate {
    if q.fate != Waiting || q.worker != worker then q.fate
    else if FirstCover(h, from, q.what).Some? then InEntry(FirstCover(h, from, q.what).value)
    else if closing then HandedOver(turn) else Waiting
  }

  function Moved(t: Trace, worker: nat, from: nat, h: seq<Entry>, closing: bool, turn: nat): Trace {
    map j | j in t :: t[j].(fate := NextFate(t[j], worker, from, h, closing, turn))
  }

  /** What one turn does to the trace. */
  function TraceNext(env: Env, before: System, t: Trace, last: Turn, turn: nat): Trace
    requires Possible(|before.parties|, last)
  {
    var p := before.parties[last.worker];
    var a := Act(env, before.world, p, last.action);
    var moved := Moved(t, last.worker, |before.world.history|, a.world.history, last.action.Close?, turn);
    if last.action.TryAppend? && a.result == Suppressed then
      var x := WhatOf(last.action.fields);
      moved[turn := QuietOf(last.worker, Minute(env.clock(Chosen(p.me, x, a.world.ticks))), last.action.fields)]
    else moved
  }

  function TraceOf(env: Env, sys: System, turns: seq<Turn>): Trace
    requires AllPossible(|sys.parties|, turns)
  {
    if turns == [] then map[]
    else
      var earlier, last := turns[..|turns| - 1], turns[|turns| - 1];
      assert Possible(|sys.parties|, last);
      TraceNext(env, Run(env, sys, earlier), TraceOf(env, sys, earlier), last, |earlier|)
  }

  function WaitingFor(t: Trace, i: nat, x: What): set<nat> {
    set j | j in t && t[j].worker == i && t[j].what == x && t[j].fate.Waiting?
  }

  function CountedIn(t: Trace, n: nat): set<nat> {
    set j | j in t && t[j].fate == InEntry(n)
  }

  function HandedAt(t: Trace, turn: nat): set<nat> {
    set j | j in t && t[j].fate == HandedOver(turn)
  }

  /** An open summary counts exactly the waiting calls of its kind, at least one, all of the window's
      minute; without an open summary no call waits. */
  predicate OpenAt(open: Option<Summary>, window: Option<nat>, t: Trace, i: nat, x: What) {
    var c := WaitingFor(t, i, x);
    if open.None? then c == {}
    else open.value.count == |c| > 0 && window.Some? && forall j :: j in c ==> t[j].minute == window.value
  }

  ghost predicate OpenAccounted(me: Worker, t: Trace, i: nat) {
    forall x :: OpenAt(OpenOf(me, x), WindowOf(me, x), t, i, x)
  }

  /** A summary entry counts exactly the calls that went to it, at least one: all of one worker, of one
      minute, and of its kind, for reads its tenant and transport. */
  predicate EntryAt(h: seq<Entry>, t: Trace, n: nat)
    requires n < |h|
  {
    var c := CountedIn(t, n);
    && (IsSummary(h[n].body.fields) ==> CountOf(h[n].body.fields) == |c| > 0)
    && (forall j :: j in c ==> Covers(h[n].body.fields, t[j].what))
    && (forall j, k :: j in c && k in c ==> t[j].worker == t[k].worker && t[j].minute == t[k].minute)
  }

  /** Every entry from `from` on is accounted for, and calls only went to such entries. */
  ghost predicate EntriesAccounted(h: seq<Entry>, t: Trace, from: nat) {
    && (forall n: nat :: from <= n < |h| ==> EntryAt(h, t, n))
    && (forall j :: j in t && t[j].fate.InEntry? ==> from <= t[j].fate.n < |h|)
  }

  ghost predicate Accounted(sys: System, t: Trace, from: nat, turn: nat) {
    && (forall j :: j in t ==> j < turn && Labelled(t[j]) && (t[j].fate.HandedOver? ==> t[j].fate.turn < turn))
    && (forall i: nat :: i < |sys.parties| ==> OpenAccounted(sys.parties[i].me, t, i))
    && EntriesAccounted(sys.world.history, t, from)
  }

  // ----- one turn keeps the account

  /** The summaries of the worker whose turn it is, after its turn wrote some. */
  lemma MovedOpen(h: seq<Entry>, h': seq<Entry>, me: Worker, me': Worker, window: Option<nat>, t: Trace, i: nat, turn: nat, x: What)
    requires WrittenAt(h, h', me, me', x) && OpenAt(OpenOf(me, x), window, t, i, x)
    ensures OpenAt(OpenOf(me', x), window, Moved(t, i, |h|, h', false, turn), i, x)
  {
    hide OpenOf; hide Covers; hide FirstCover;
    var t' := Moved(t, i, |h|, h', false, turn);
    var f := FirstCover(h', |h|, x);
    if f.None? {
      assert WaitingFor(t', i, x) == WaitingFor(t, i, x);
    } else {
      assert WaitingFor(t', i, x) == {};
    }
  }

  lemma MovedOthers(from: nat, h': seq<Entry>, open: Option<Summary>, window: Option<nat>, t: Trace, i: nat, k: nat, closing: bool, turn: nat, x: What)
    requires OpenAt(open, window, t, k, x) && k != i
    ensures OpenAt(open, window, Moved(t, i, from, h', closing, turn), k, x)
  {
    assert WaitingFor(Moved(t, i, from, h', closing, turn), k, x) == WaitingFor(t, k, x);
  }

  lemma OldEntry(h: seq<Entry>, h': seq<Entry>, t: Trace, from: nat, i: nat, closing: bool, turn: nat, n: nat)
    requires EntriesAccounted(h, t, from) && h <= h' && from <= n < |h|
    ensures EntryAt(h', Moved(t, i, |h|, h', closing, turn), n)
  {
    hide FirstCover; hide Covers;
    assert EntryAt(h, t, n);
    assert CountedIn(Moved(t, i, |h|, h', closing, turn), n) == CountedIn(t, n);
  }

  lemma NewEntry(h: seq<Entry>, h': seq<Entry>, me: Worker, me': Worker, t: Trace, from: nat, i: nat, turn: nat, n: nat)
    requires EntriesAccounted(h, t, from) && Written(h, h', me, me') && OpenAccounted(me, t, i) && |h| <= n < |h'|
    ensures EntryAt(h', Moved(t, i, |h|, h', false, turn), n)
  {
    hide OpenOf;
    var t' := Moved(t, i, |h|, h', false, turn);
    var f := h'[n].body.fields;
    forall j | j in CountedIn(t', n)
      ensures t[j].worker == i && t[j].fate == Waiting && Covers(f, t[j].what)
    {}
    if IsSummary(f) {
      SummaryCovers(f);
      var x := if f.DeniedSummary? then Denials else Reads(ReadKey(f.tenant, f.transport));
      assert WrittenAt(h, h', me, me', x) && !NoneCovers(h', |h|, x);
      assert OpenAt(OpenOf(me, x), WindowOf(me, x), t, i, x);
      var m: nat :| OnlyAt(h', |h|, x, m) && CountOf(h'[m].body.fields) == OpenOf(me, x).value.count;
      assert m == n;
      forall j | j in CountedIn(t', n) ensures t[j].what == x { CoversOne(f, t[j].what, x); }
      assert FirstCover(h', |h|, x) == Some(n);
      assert CountedIn(t', n) == WaitingFor(t, i, x);
    }
  }

  lemma MovedEntries(h: seq<Entry>, h': seq<Entry>, me: Worker, me': Worker, t: Trace, from: nat, i: nat, turn: nat)
    requires EntriesAccounted(h, t, from) && Written(h, h', me, me') && OpenAccounted(me, t, i) && from <= |h|
    ensures EntriesAccounted(h', Moved(t, i, |h|, h', false, turn), from)
  {
    hide EntryAt; hide OpenAccounted; hide OpenOf; hide Covers;
    var t' := Moved(t, i, |h|, h', false, turn);
    forall n: nat | from <= n < |h'| ensures EntryAt(h', t', n) {
      if n < |h| { OldEntry(h, h', t, from, i, false, turn, n); } else { NewEntry(h, h', me, me', t, from, i, turn, n); }
    }
  }

  lemma AfterWriting(h: seq<Entry>, h': seq<Entry>, me: Worker, me': Worker, now: Worker, t: Trace, i: nat, turn: nat)
    requires Written(h, h', me, me') && OpenAccounted(me, t, i)
    requires forall x :: OpenOf(now, x) == OpenOf(me', x)
    requires forall x :: WindowOf(now, x) != WindowOf(me, x) ==> OpenOf(me', x).None?
    ensures OpenAccounted(now, Moved(t, i, |h|, h', false, turn), i)
  {
    hide OpenOf; hide WindowOf; hide Moved; hide WrittenAt;
    forall x
      ensures OpenAt(OpenOf(now, x), WindowOf(now, x), Moved(t, i, |h|, h', false, turn), i, x)
    {
      assert WrittenAt(h, h', me, me', x) && OpenAt(OpenOf(me, x), WindowOf(me, x), t, i, x);
      MovedOpen(h, h', me, me', WindowOf(me, x), t, i, turn, x);
    }
  }

  /** One more call waits for the summary it joined. */
  lemma OneMoreWaits(t: Trace, turn: nat, q: Quiet, was: Option<Summary>, now: Summary)
    requires turn !in t && q.fate == Waiting && OpenAt(was, if was.Some? then Some(q.minute) else None, t, q.worker, q.what)
    requires now.count == 1 + if was.Some? then was.value.count else 0
    ensures OpenAt(Some(now), Some(q.minute), t[turn := q], q.worker, q.what)
  {
    assert WaitingFor(t[turn := q], q.worker, q.what) == WaitingFor(t, q.worker, q.what) + {turn};
  }

  lemma OthersWait(t: Trace, turn: nat, q: Quiet, open: Option<Summary>, window: Option<nat>, k: nat, y: What)
    requires turn !in t && OpenAt(open, window, t, k, y) && (q.worker != k || q.what != y)
    ensures OpenAt(open, window, t[turn := q], k, y)
  {
    assert WaitingFor(t[turn := q], k, y) == WaitingFor(t, k, y);
  }

  lemma EntriesKeep(h: seq<Entry>, t: Trace, from: nat, turn: nat, q: Quiet)
    requires EntriesAccounted(h, t, from) && turn !in t && q.fate == Waiting
    ensures EntriesAccounted(h, t[turn := q], from)
  {
    var t' := t[turn := q];
    forall n: nat | from <= n < |h| ensures EntryAt(h, t', n) {
      assert EntryAt(h, t, n);
      assert CountedIn(t', n) == CountedIn(t, n);
    }
  }

  lemma MovedKeys(t: Trace, worker: nat, from: nat, h: seq<Entry>, closing: bool, turn: nat)
    ensures Moved(t, worker, from, h, closing, turn).Keys == t.Keys
  {}

  /** An append. */
  lemma AppendAccounted(env: Env, w: World, me: Worker, fields: Fields, t: Trace, i: nat, turn: nat, from: nat)
    requires fields.Call? && CapsSet(env) && OpenAccounted(me, t, i) && EntriesAccounted(w.history, t, from) && from <= |w.history| && turn !in t
    ensures var s := Append(env, w, me, fields); var x := WhatOf(fields); var moved := Moved(t, i, |w.history|, s.world.history, false, turn);
      var t' := if s.result == Suppressed then moved[turn := QuietOf(i, Minute(env.clock(Chosen(me, x, s.world.ticks))), fields)] else moved;
      OpenAccounted(s.worker, t', i) && EntriesAccounted(s.world.history, t', from) && w.history <= s.world.history
  {
    hide Append; hide Written; hide OpenAccounted; hide EntriesAccounted; hide Moved; hide Joined; hide Minute; hide Chosen;
    var me' := AppendDid(env, w, me, fields);
    var s := Append(env, w, me, fields);
    WrittenGrows(w.history, s.world.history, me, me');
    MovedKeys(t, i, |w.history|, s.world.history, false, turn);
    MovedEntries(w.history, s.world.history, me, me', t, from, i, turn);
    if s.result != Suppressed {
      AfterWriting(w.history, s.world.history, me, me', s.worker, t, i, turn);
    } else {
      var x, moved := WhatOf(fields), Moved(t, i, |w.history|, s.world.history, false, turn);
      var q := QuietOf(i, Minute(env.clock(Chosen(me, x, s.world.ticks))), fields);
      EntriesKeep(s.world.history, moved, from, turn, q);
      SuppressedAccounted(env, w.history, me, me', fields, s, t, i, turn);
    }
  }

  lemma WrittenGrows(h: seq<Entry>, h': seq<Entry>, a: Worker, b: Worker)
    requires Written(h, h', a, b)
    ensures h <= h'
  {}

  lemma SuppressedAccounted(env: Env, h: seq<Entry>, me: Worker, me': Worker, fields: Fields, s: Step, t: Trace, i: nat, turn: nat)
    requires fields.Call? && Did(env, h, me, me', fields, s) && s.result == Suppressed && OpenAccounted(me, t, i) && turn !in t
    ensures var x := WhatOf(fields);
      OpenAccounted(s.worker, Moved(t, i, |h|, s.world.history, false, turn)
                                [turn := QuietOf(i, Minute(env.clock(Chosen(me, x, s.world.ticks))), fields)], i)
  {
    hide OpenOf; hide WindowOf; hide Moved; hide WrittenAt; hide Minute; hide Chosen; hide OpenAt;
    var x, moved := WhatOf(fields), Moved(t, i, |h|, s.world.history, false, turn);
    var q := QuietOf(i, Minute(env.clock(Chosen(me, x, s.world.ticks))), fields);
    MovedKeys(t, i, |h|, s.world.history, false, turn);
    forall y
      ensures OpenAt(OpenOf(s.worker, y), WindowOf(s.worker, y), moved[turn := q], i, y)
    {
      assert WrittenAt(h, s.world.history, me, me', y) && OpenAt(OpenOf(me, y), WindowOf(me, y), t, i, y);
      MovedOpen(h, s.world.history, me, me', WindowOf(me, y), t, i, turn, y);
      if y == x {
        NoWindowNeeded(OpenOf(me, x), WindowOf(me, x), moved, i, x);
        OneMoreWaits(moved, turn, q, OpenOf(me, x), OpenOf(s.worker, x).value);
      } else {
        AnyWindow(OpenOf(me', y), WindowOf(me, y), WindowOf(s.worker, y), moved, i, y);
        OthersWait(moved, turn, q, OpenOf(me', y), WindowOf(s.worker, y), i, y);
      }
    }
  }

  lemma NoWindowNeeded(open: Option<Summary>, window: Option<nat>, t: Trace, i: nat, x: What)
    requires OpenAt(open, window, t, i, x)
    ensures OpenAt(open, if open.Some? then window else None, t, i, x)
  {}

  lemma AnyWindow(open: Option<Summary>, window: Option<nat>, other: Option<nat>, t: Trace, i: nat, x: What)
    requires OpenAt(open, window, t, i, x) && (other != window ==> open.None?)
    ensures OpenAt(open, other, t, i, x)
  {}

  /** A preflight, a flush or a settled mark writes summaries or none, and moves no window. */
  lemma OtherWritten(env: Env, w: World, p: Party, action: Action)
    requires action.TryPreflight? || action.TryFlush? || action.Settle?
    ensures var a := Act(env, w, p, action); Written(w.history, a.world.history, p.me, a.party.me) && SameWindows(p.me, a.party.me)
  {
    hide CloseOutage; hide FlushDenied; hide FlushReads; hide CurrentHead; hide AnyOpen; hide Written;
    OtherActionFrame(env, w, p, action);
    var w0 := Tried(w);
    var head := CurrentHead(w0);
    WrittenStill(w.history, w.history, p.me, p.me);
    match action
    case TryPreflight => CloseOutageWritten(env, w0, p.me, head);
    case TryFlush =>
      FlushDeniedWritten(env, w0, p.me, head);
      var o := FlushDenied(env, w0, p.me, head);
      if o.head.Some? {
        FlushReadsWritten(env, o.world, o.worker, o.head.value);
        WrittenThen(w.history, o.world.history, FlushReads(env, o.world, o.worker, o.head.value).world.history, p.me, o.worker,
                    FlushReads(env, o.world, o.worker, o.head.value).worker);
      }
    case Settle(n) => WrittenStill(w.history, Act(env, w, p, action).world.history, p.me, Act(env, w, p, action).party.me);
  }

  /** The waiting calls of a worker, of every kind. */
  function WaitingOf(t: Trace, i: nat): set<nat> {
    set j | j in t && t[j].worker == i && t[j].fate.Waiting?
  }

  function ReadsAmong(t: Trace, c: set<nat>, k: ReadKey): set<nat> {
    set j | j in c && j in t && t[j].what == Reads(k)
  }

  lemma {:induction false} ReadsSum(open: map<ReadKey, Summary>, t: Trace, c: set<nat>)
    requires forall j :: j in c ==> j in t && t[j].what.Reads? && t[j].what.key in open
    requires forall k :: k in open ==> |ReadsAmong(t, c, k)| == open[k].count
    ensures CountReads(open) == |c|
    decreases |open|
  {
    hide CountReads; hide ReadsAmong;
    if open == map[] {
      NoneAmong(c);
      NoReads();
    } else {
      var k :| k in open;
      var rest := c - ReadsAmong(t, c, k);
      var less := open - {k};
      CountReadsRemove(open, k);
      RemoveSwap(open, k, k);
      WithoutReads(t, c, k);
      forall j | j in less ensures |ReadsAmong(t, rest, j)| == less[j].count { OtherReads(t, c, k, j); }
      forall j | j in rest ensures j in t && t[j].what.Reads? && t[j].what.key in less { NotThose(t, c, k, j); }
      ReadsSum(less, t, rest);
    }
  }

  lemma NoReads()
    ensures CountReads(map[]) == 0
  {
    assert SortedKeys(map[]) == [];
  }

  lemma WithoutReads(t: Trace, c: set<nat>, k: ReadKey)
    ensures |c| == |ReadsAmong(t, c, k)| + |c - ReadsAmong(t, c, k)|
  {
    assert c == ReadsAmong(t, c, k) + (c - ReadsAmong(t, c, k));
  }

  lemma OtherReads(t: Trace, c: set<nat>, k: ReadKey, j: ReadKey)
    requires j != k
    ensures ReadsAmong(t, c - ReadsAmong(t, c, k), j) == ReadsAmong(t, c, j)
  {}

  lemma NotThose(t: Trace, c: set<nat>, k: ReadKey, j: nat)
    requires j in c - ReadsAmong(t, c, k) && j in t
    ensures t[j].what != Reads(k)
  {}

  lemma NoneAmong(c: set<nat>)
    requires forall j: nat :: j !in c
    ensures |c| == 0
  {
    if |c| > 0 { assert false; }
  }

  /** What a worker has open in all is the number of its waiting calls. */
  lemma PendingIsWaiting(me: Worker, t: Trace, i: nat)
    requires OpenAccounted(me, t, i)
    ensures Pending(me) == |WaitingOf(t, i)|
  {
    hide CountReads;
    var d := WaitingFor(t, i, Denials);
    var r := WaitingOf(t, i) - d;
    assert OpenAt(me.suppressed, me.deniedMinute, t, i, Denials) by { assert OpenAt(OpenOf(me, Denials), WindowOf(me, Denials), t, i, Denials); }
    forall j | j in r ensures j in t && t[j].what.Reads? && t[j].what.key in me.openReads {
      var x := t[j].what;
      assert x != Denials;
      assert OpenAt(OpenOf(me, x), WindowOf(me, x), t, i, x) && j in WaitingFor(t, i, x);
    }
    forall k | k in me.openReads ensures |ReadsAmong(t, r, k)| == me.openReads[k].count {
      assert OpenAt(OpenOf(me, Reads(k)), WindowOf(me, Reads(k)), t, i, Reads(k));
      assert ReadsAmong(t, r, k) == WaitingFor(t, i, Reads(k));
    }
    ReadsSum(me.openReads, t, r);
    assert WaitingOf(t, i) == d + r && d * r == {};
  }

  /** Closing hands every waiting call of the worker over, and nothing stays open. */
  lemma CloseAccounted(env: Env, w: World, p: Party, t: Trace, i: nat, turn: nat, from: nat)
    requires OpenAccounted(p.me, t, i) && EntriesAccounted(w.history, t, from) && from <= |w.history|
    requires forall j :: j in t && t[j].fate.HandedOver? ==> t[j].fate.turn < turn
    ensures var a := Act(env, w, p, Close); var t' := Moved(t, i, |w.history|, a.world.history, true, turn);
      && a.world.history == w.history && OpenAccounted(a.party.me, t', i) && EntriesAccounted(a.world.history, t', from)
      && HandedAt(t', turn) == WaitingOf(t, i)
  {
    hide Pending; hide FirstCover;
    PendingIsWaiting(p.me, t, i);
    var a := Act(env, w, p, Close);
    var h := w.history;
    var t' := Moved(t, i, |h|, h, true, turn);
    forall x ensures FirstCover(h, |h|, x).None? {}
    forall x ensures OpenAt(OpenOf(a.party.me, x), WindowOf(a.party.me, x), t', i, x) {
      assert WaitingFor(t', i, x) == {};
      assert OpenAt(OpenOf(p.me, x), WindowOf(p.me, x), t, i, x);
      if OpenOf(a.party.me, x).Some? {
        NothingWaits(t, i, x);
      }
    }
    forall n: nat | from <= n < |h| ensures EntryAt(h, t', n) { OldEntry(h, h, t, from, i, true, turn, n); }
    assert HandedAt(t', turn) == WaitingOf(t, i);
  }

  lemma NothingWaits(t: Trace, i: nat, x: What)
    requires |WaitingOf(t, i)| == 0
    ensures |WaitingFor(t, i, x)| == 0
  {
    CardinalityMono(WaitingFor(t, i, x), WaitingOf(t, i));
  }

  // ----- every run

  /** Nothing is suppressed at the start. */
  predicate NothingOpen(sys: System) {
    forall i: nat :: i < |sys.parties| ==> !AnyOpen(sys.parties[i].me)
  }

  lemma OwnTurnAccounted(env: Env, sys: System, t: Trace, last: Turn, turn: nat, from: nat)
    requires CapsSet(env) && Possible(|sys.parties|, last) && Accounted(sys, t, from, turn) && from <= |sys.world.history|
    ensures var a := Act(env, sys.world, sys.parties[last.worker], last.action); var t' := TraceNext(env, sys, t, last, turn);
      OpenAccounted(a.party.me, t', last.worker) && EntriesAccounted(a.world.history, t', from) && |sys.world.history| <= |a.world.history|
  {
    hide Append; hide OpenAccounted; hide EntriesAccounted; hide Moved; hide Minute; hide Chosen; hide Written; hide WhatOf;
    hide Preflight; hide FlushLocked; hide MarkDegraded; hide HandOver; hide AnyOpen;
    var i, w, p := last.worker, sys.world, sys.parties[last.worker];
    match last.action
    case TryAppend(f) =>
      assert turn !in t;
      AppendAccounted(env, w, p.me, f, t, i, turn, from);
    case Close => CloseAccounted(env, w, p, t, i, turn, from);
    case _ =>
      var a := Act(env, w, p, last.action);
      OtherWritten(env, w, p, last.action);
      WrittenGrows(w.history, a.world.history, p.me, a.party.me);
      SameWindowOf(p.me, a.party.me);
      AfterWriting(w.history, a.world.history, p.me, a.party.me, a.party.me, t, i, turn);
      MovedEntries(w.history, a.world.history, p.me, a.party.me, t, from, i, turn);
  }

  lemma SameWindowOf(a: Worker, b: Worker)
    requires SameWindows(a, b)
    ensures forall x :: WindowOf(a, x) == WindowOf(b, x)
  {}

  lemma OtherTurnAccounted(env: Env, sys: System, t: Trace, last: Turn, turn: nat, k: nat)
    requires Possible(|sys.parties|, last) && k != last.worker && k < |sys.parties| && turn !in t && OpenAccounted(sys.parties[k].me, t, k)
    ensures OpenAccounted(sys.parties[k].me, TraceNext(env, sys, t, last, turn), k)
  {
    hide Act; hide OpenOf; hide WindowOf; hide Moved; hide OpenAt; hide Minute; hide Chosen; hide WhatOf;
    var a := Act(env, sys.world, sys.parties[last.worker], last.action);
    var me, h := sys.parties[k].me, |sys.world.history|;
    var moved := Moved(t, last.worker, h, a.world.history, last.action.Close?, turn);
    MovedKeys(t, last.worker, h, a.world.history, last.action.Close?, turn);
    var t' := TraceNext(env, sys, t, last, turn);
    forall x ensures OpenAt(OpenOf(me, x), WindowOf(me, x), t', k, x) {
      assert OpenAt(OpenOf(me, x), WindowOf(me, x), t, k, x);
      MovedOthers(h, a.world.history, OpenOf(me, x), WindowOf(me, x), t, last.worker, k, last.action.Close?, turn, x);
      if t' != moved {
        OthersWait(moved, turn, t'[turn], OpenOf(me, x), WindowOf(me, x), k, x);
      }
    }
  }

  lemma TraceNextKeys(env: Env, sys: System, t: Trace, last: Turn, turn: nat)
    requires Possible(|sys.parties|, last) && forall j :: j in t ==> j < turn && Labelled(t[j]) && (t[j].fate.HandedOver? ==> t[j].fate.turn < turn)
    ensures var t' := TraceNext(env, sys, t, last, turn);
      forall j :: j in t' ==> j < turn + 1 && Labelled(t'[j]) && (t'[j].fate.HandedOver? ==> t'[j].fate.turn < turn + 1)
  {
    hide Act; hide FirstCover; hide Minute; hide Chosen;
  }

  lemma TurnAccounted(env: Env, sys: System, t: Trace, last: Turn, turn: nat, from: nat)
    requires CapsSet(env) && Possible(|sys.parties|, last) && Accounted(sys, t, from, turn) && from <= |sys.world.history|
    ensures Accounted(Take(env, sys, last), TraceNext(env, sys, t, last, turn), from, turn + 1)
    ensures |sys.world.history| <= |Take(env, sys, last).world.history|
  {
    hide Act; hide OpenAccounted; hide EntriesAccounted; hide TraceNext;
    OwnTurnAccounted(env, sys, t, last, turn, from);
    TraceNextKeys(env, sys, t, last, turn);
    forall k: nat | k < |sys.parties| && k != last.worker
      ensures OpenAccounted(sys.parties[k].me, TraceNext(env, sys, t, last, turn), k)
    {
      OtherTurnAccounted(env, sys, t, last, turn, k);
    }
  }

  lemma NothingSuppressed(sys: System)
    requires NothingOpen(sys)
    ensures Accounted(sys, map[], |sys.world.history|, 0)
  {
    forall i: nat | i < |sys.parties| ensures OpenAccounted(sys.parties[i].me, map[], i) {
      forall x ensures OpenAt(OpenOf(sys.parties[i].me, x), WindowOf(sys.parties[i].me, x), map[], i, x) {
        assert !AnyOpen(sys.parties[i].me);
        assert WaitingFor(map[], i, x) == {};
      }
    }
  }

  /** At every point of every run: each open summary counts exactly the suppressed calls that wait for it,
      all of its window's minute and of its kind; each summary entry that the run added counts exactly the
      calls that went to it, all of one worker, minute and kind; and no call is in two places.  Reads of two
      tenants or transports are two kinds; denied calls are one, whatever tenants they are of. */
  lemma {:induction false} SummariesCountTheirCalls(env: Env, sys: System, turns: seq<Turn>)
    requires CapsSet(env) && AllPossible(|sys.parties|, turns) && NothingOpen(sys)
    ensures Accounted(Run(env, sys, turns), TraceOf(env, sys, turns), |sys.world.history|, |turns|)
    ensures |sys.world.history| <= |Run(env, sys, turns).world.history|
  {
    hide Take; hide Accounted; hide TraceNext;
    if turns == [] {
      NothingSuppressed(sys);
    } else {
      var earlier, last := turns[..|turns| - 1], turns[|turns| - 1];
      SummariesCountTheirCalls(env, sys, earlier);
      assert Possible(|sys.parties|, last);
      TurnAccounted(env, Run(env, sys, earlier), TraceOf(env, sys, earlier), last, |earlier|, |sys.world.history|);
    }
  }

  /** The trace holds the suppressed calls of the run and no others, each under its own worker and kind. */
  lemma {:induction false} TraceIsTheSuppressed(env: Env, sys: System, turns: seq<Turn>, j: nat)
    requires AllPossible(|sys.parties|, turns)
    ensures j in TraceOf(env, sys, turns)
       <==> (j < |turns| && turns[j].action.TryAppend? && Possible(|sys.parties|, turns[j]) && AllPossible(|sys.parties|, turns[..j]) &&
             var before := Run(env, sys, turns[..j]);
             Append(env, before.world, before.parties[turns[j].worker].me, turns[j].action.fields).result == Suppressed)
    ensures j in TraceOf(env, sys, turns) ==>
              j < |turns| && TraceOf(env, sys, turns)[j].worker == turns[j].worker && Allowed(turns[j].action)
              && turns[j].action.TryAppend? && TraceOf(env, sys, turns)[j] == QuietOf(turns[j].worker, TraceOf(env, sys, turns)[j].minute, turns[j].action.fields).(fate := TraceOf(env, sys, turns)[j].fate)
  {
    hide Append; hide Preflight; hide FlushLocked; hide HandOver; hide MarkDegraded; hide FirstCover; hide Minute; hide Chosen; hide WhatOf;
    if turns != [] {
      var earlier, last := turns[..|turns| - 1], turns[|turns| - 1];
      assert Possible(|sys.parties|, last);
      TraceIsTheSuppressed(env, sys, earlier, j);
      if j < |earlier| {
        assert earlier[j] == turns[j] && earlier[..j] == turns[..j];
      }
    }
  }

  /** A call keeps its worker, minute and kind, and where it went once it has stopped waiting. */
  lemma TraceKeeps(env: Env, sys: System, turns: seq<Turn>, last: Turn, j: nat)
    requires AllPossible(|sys.parties|, turns) && Possible(|sys.parties|, last) && j in TraceOf(env, sys, turns) && j < |turns|
    ensures var t, u := TraceOf(env, sys, turns), TraceOf(env, sys, turns + [last]);
      j in u && u[j].(fate := t[j].fate) == t[j] && (t[j].fate != Waiting ==> u[j] == t[j])
  {
    hide Act; hide FirstCover; hide Minute; hide Chosen; hide WhatOf; hide Run;
    assert (turns + [last])[..|turns|] == turns;
  }

  // ----- a ledger write is an ordering boundary

  /** A ledger write that gets its entry leaves no read open, and its entry is the last one. */
  lemma WriteClosesReads(env: Env, w: World, me: Worker, fields: Fields)
    requires IsWrite(fields) && !IsRead(fields) && fields.Call? && Append(env, w, me, fields).result == Logged
    ensures var s := Append(env, w, me, fields);
      s.worker.openReads == map[] && s.world.history != [] && s.world.history[|s.world.history| - 1].body.fields == fields
  {
    assert fields.outcome == Okay;
    hide CloseOutage; hide FlushDenied; hide FlushReads; hide IsRead; hide IsWrite; hide CurrentHead; hide AppendLocked;
    var o := CloseOutage(env, Tried(w), me, CurrentHead(Tried(w)));
    var p := FlushDenied(env, o.world, o.worker, o.head.value);
    var q := FlushReads(env, p.world, p.worker, p.head.value);
    FlushReadsWritten(env, p.world, p.worker, p.head.value);
    AppendLockedHistory(env, q.world, fields, q.head.value);
  }

  lemma WaitsAmong(t: Trace, i: nat, j: nat)
    requires j in t && t[j].worker == i
    ensures t[j].fate.Waiting? <==> j in WaitingFor(t, i, t[j].what)
  {}

  /** When a ledger write's entry is appended, every read that its worker suppressed earlier in the run is
      counted by a summary entry before it, or was handed over to the outage counts by an earlier turn. */
  lemma WriteSeesEarlierReads(env: Env, sys: System, turns: seq<Turn>, j: nat)
    requires CapsSet(env) && AllPossible(|sys.parties|, turns) && NothingOpen(sys) && turns != []
    requires var last := turns[|turns| - 1]; var before := Run(env, sys, turns[..|turns| - 1]);
      last.action.TryAppend? && Possible(|sys.parties|, last) && IsWrite(last.action.fields) && !IsRead(last.action.fields)
      && Append(env, before.world, before.parties[last.worker].me, last.action.fields).result == Logged
    requires j in TraceOf(env, sys, turns) && TraceOf(env, sys, turns)[j].worker == turns[|turns| - 1].worker && TraceOf(env, sys, turns)[j].what.Reads?
    ensures var h, q := Run(env, sys, turns).world.history, TraceOf(env, sys, turns)[j]; var n := |h| - 1;
      && n >= 0 && h[n].body.fields == turns[|turns| - 1].action.fields
      && match q.fate
         case Waiting => false
         case InEntry(m) => m < n && Covers(h[m].body.fields, q.what)
         case HandedOver(k) => k < |turns|
  {
    hide Append; hide IsRead; hide IsWrite; hide TraceOf; hide Run; hide Accounted; hide Covers; hide Take;
    var last, before := turns[|turns| - 1], Run(env, sys, turns[..|turns| - 1]);
    var after, t := Run(env, sys, turns), TraceOf(env, sys, turns);
    SummariesCountTheirCalls(env, sys, turns);
    LastTurn(env, sys, turns);
    AppendTurn(env, before, last);
    WriteClosesReads(env, before.world, before.parties[last.worker].me, last.action.fields);
    AccountedParts(after, t, |sys.world.history|, |turns|, last.worker);
    WhereReadsAre(after.parties[last.worker].me, after.world.history, t, |sys.world.history|, last.worker, j);
    HandedEarlier(after, t, |sys.world.history|, |turns|, j);
  }

  lemma AppendTurn(env: Env, before: System, last: Turn)
    requires Possible(|before.parties|, last) && last.action.TryAppend?
    ensures var s := Append(env, before.world, before.parties[last.worker].me, last.action.fields); var after := Take(env, before, last);
      last.worker < |after.parties| && after.world == s.world && after.parties[last.worker].me == s.worker
  {
    hide Append;
  }

  lemma AccountedParts(sys: System, t: Trace, from: nat, turn: nat, i: nat)
    requires Accounted(sys, t, from, turn) && i < |sys.parties|
    ensures OpenAccounted(sys.parties[i].me, t, i) && EntriesAccounted(sys.world.history, t, from)
  {
    hide OpenAccounted; hide EntriesAccounted;
  }

  lemma HandedEarlier(sys: System, t: Trace, from: nat, turn: nat, j: nat)
    requires Accounted(sys, t, from, turn) && j in t
    ensures t[j].fate.HandedOver? ==> t[j].fate.turn < turn
  {
    hide OpenAccounted; hide EntriesAccounted;
  }

  /** With no read open and a call as the last entry, a read of the worker is in an earlier entry or handed over. */
  lemma WhereReadsAre(me: Worker, h: seq<Entry>, t: Trace, from: nat, i: nat, j: nat)
    requires OpenAccounted(me, t, i) && EntriesAccounted(h, t, from) && me.openReads == map[]
    requires h != [] && h[|h| - 1].body.fields.Call? && j in t && t[j].worker == i && t[j].what.Reads?
    ensures match t[j].fate
      case Waiting => false
      case InEntry(m) => m < |h| - 1 && Covers(h[m].body.fields, t[j].what)
      case HandedOver(_) => true
  {
    var x := t[j].what;
    assert OpenAt(OpenOf(me, x), WindowOf(me, x), t, i, x);
    WaitsAmong(t, i, j);
    if t[j].fate.InEntry? {
      assert EntryAt(h, t, t[j].fate.n);
      assert j in CountedIn(t, t[j].fate.n);
    }
  }

  /** The turn that closes a worker marks as unlogged exactly the calls it hands over: those that still waited. */
  lemma CloseHandsOver(env: Env, sys: System, turns: seq<Turn>)
    requires CapsSet(env) && AllPossible(|sys.parties|, turns) && NothingOpen(sys) && turns != [] && turns[|turns| - 1].action.Close?
    ensures var k := |turns| - 1; var i := turns[k].worker; var before := Run(env, sys, turns[..k]); var after := Run(env, sys, turns);
      && i < |sys.parties|
      && HandedAt(TraceOf(env, sys, turns), k) == WaitingOf(TraceOf(env, sys, turns[..k]), i)
      && OutageTally(after.world.degraded).calls + OutageTally(after.parties[i].me.outage).calls
           == OutageTally(before.world.degraded).calls + OutageTally(before.parties[i].me.outage).calls + |HandedAt(TraceOf(env, sys, turns), k)|
  {
    hide TraceOf; hide Run; hide Accounted; hide TraceNext; hide Take; hide WaitingOf; hide HandedAt;
    var k := |turns| - 1;
    var before, t := Run(env, sys, turns[..k]), TraceOf(env, sys, turns[..k]);
    assert Possible(|sys.parties|, turns[k]);
    SummariesCountTheirCalls(env, sys, turns[..k]);
    LastTurn(env, sys, turns);
    CloseTurn(env, before, t, turns[k], k, |sys.world.history|);
  }

  lemma LastTurn(env: Env, sys: System, turns: seq<Turn>)
    requires AllPossible(|sys.parties|, turns) && turns != []
    ensures var k := |turns| - 1; Possible(|sys.parties|, turns[k])
    ensures var k := |turns| - 1; var before := Run(env, sys, turns[..k]);
      && Run(env, sys, turns) == Take(env, before, turns[k])
      && TraceOf(env, sys, turns) == TraceNext(env, before, TraceOf(env, sys, turns[..k]), turns[k], k)
  {
    hide Take; hide TraceNext;
    assert Possible(|sys.parties|, turns[|turns| - 1]);
  }

  lemma CloseTurn(env: Env, before: System, t: Trace, last: Turn, k: nat, from: nat)
    requires Possible(|before.parties|, last) && last.action.Close? && Accounted(before, t, from, k) && from <= |before.world.history|
    ensures var i := last.worker; var after := Take(env, before, last); var t' := TraceNext(env, before, t, last, k);
      && HandedAt(t', k) == WaitingOf(t, i)
      && OutageTally(after.world.degraded).calls + OutageTally(after.parties[i].me.outage).calls
           == OutageTally(before.world.degraded).calls + OutageTally(before.parties[i].me.outage).calls + |HandedAt(t', k)|
  {
    hide Take; hide TraceNext; hide Act; hide Accounted; hide OpenAccounted; hide EntriesAccounted; hide Moved; hide HandOver;
    hide WaitingOf; hide HandedAt; hide OutageTally; hide Pending;
    var i, p := last.worker, before.parties[last.worker];
    AccountedParts(before, t, from, k, i);
    forall j | j in t ensures t[j].fate.HandedOver? ==> t[j].fate.turn < k { HandedEarlier(before, t, from, k, j); }
    CloseAccounted(env, before.world, p, t, i, k, from);
    PendingIsWaiting(p.me, t, i);
    HandOverMarks(env, before.world, p.me);
    CloseTaken(env, before, t, last, k);
  }

  lemma CloseTaken(env: Env, before: System, t: Trace, last: Turn, k: nat)
    requires Possible(|before.parties|, last) && last.action.Close?
    ensures var i := last.worker; var after := Take(env, before, last); var m := HandOver(env, before.world, before.parties[i].me);
      && i < |after.parties| && after.world == m.world && after.parties[i].me == m.worker
      && TraceNext(env, before, t, last, k) == Moved(t, i, |before.world.history|, Act(env, before.world, before.parties[i], Close).world.history, true, k)
  {
    hide HandOver; hide Moved;
  }

  lemma HandOverMarks(env: Env, w: World, me: Worker)
    ensures var m := HandOver(env, w, me);
      OutageTally(m.world.degraded).calls + OutageTally(m.worker.outage).calls
        == OutageTally(w.degraded).calls + OutageTally(me.outage).calls + Pending(me)
  {
    hide Pending;
  }
}
