/** The call log as the objects the program keeps: a directory that workers share, and one
    `CallLog` per worker, whose methods change both in place as the model's steps say. */
module CallLogObjects {
  import opened Options
  import opened Order
  import opened CallLogModel
  import opened CallLogChain

  /** The log directory. `history` is every entry ever appended, deleted files included. */
  class Directory {
    const env: Env
    var files: seq<DayFile>
    var anchor: Option<Head>
    var degraded: Option<Outage>
    var io: nat
    var ticks: nat
    ghost var history: seq<Entry>

    constructor (env: Env)
      ensures this.env == env && State() == World([], None, None, 0, 0, [])
    {
      this.env := env;
      files, anchor, degraded, io, ticks, history := [], None, None, 0, 0, [];
    }

    ghost function State(): World
      reads this
    {
      World(files, anchor, degraded, io, ticks, history)
    }

    /** One reading of the clock. */
    method Clock() returns (t: Time)
      modifies `ticks
      ensures t == Now(env, old(State())) && State() == Ticked(old(State()))
    {
      t := env.clock(ticks);
      ticks := ticks + 1;
    }

    /** One fallible disk operation. */
    method Try() returns (ok: bool)
      modifies `io
      ensures ok == env.ok(old(io)) && State() == Tried(old(State()))
    {
      ok := env.ok(io);
      io := io + 1;
    }

    method RotateAndRetain(now: Time)
      modifies `files, `anchor
      ensures State() == Retain(env, old(State()), now)
    {
      var n := OldCount(files, Day(now) - env.retainDays);
      if n == 0 || n >= |files| {
        return;
      }
      var last := LastEntry(files[..n]);
      if last.Some? {
        anchor := Some(HeadOf(last.value));
      }
      files := files[n..];
    }

    method AppendLocked(fields: Fields, head: Head) returns (next: Option<Head>)
      modifies this
      ensures Appended(State(), next) == CallLogModel.AppendLocked(env, old(State()), fields, head)
    {
      var now := Clock();
      var e := NextEntry(env, now, fields, head);
      RotateAndRetain(now);
      var ok := Try();
      if !ok {
        return None;
      }
      files := AddEntry(files, Day(now), e);
      history := history + [e];
      return Some(HeadOf(e));
    }

    /** `verify`'s walk: from the anchor or the genesis through every file, line by line. */
    method Walk() returns (problems: seq<Problem>, total: nat, head: Head)
      ensures problems == Problems(env, Start(State()), Flatten(files))
      ensures head == EndHead(Start(State()), Flatten(files)) && total == |Flatten(files)|
    {
      ghost var start := Start(State());
      head := if anchor.Some? then anchor.value else ORIGIN;
      problems, total := [], 0;
      ghost var seen: seq<Entry> := [];
      assert files[..0] == [];
      for n := 0 to |files|
        invariant seen == Flatten(files[..n]) && total == |seen|
        invariant problems == Problems(env, start, seen) && head == EndHead(start, seen)
      {
        hide Problems; hide EndHead; hide Flatten; hide ProblemsAt;
        var lines := files[n].entries;
        ghost var before := seen;
        for k := 0 to |lines|
          invariant seen == before + lines[..k] && total == |seen|
          invariant problems == Problems(env, start, seen) && head == EndHead(start, seen)
        {
          WalkStep(env, start, seen, lines[k]);
          problems := problems + ProblemsAt(env, head, lines[k], total);
          head := HeadOf(lines[k]);
          total := total + 1;
          assert lines[..k + 1] == lines[..k] + [lines[k]];
          seen := seen + [lines[k]];
        }
        FlattenSnoc(files, n);
      }
      assert files[..|files|] == files;
    }
  }

  lemma WalkStep(env: Env, start: Head, seen: seq<Entry>, e: Entry)
    ensures Problems(env, start, seen + [e]) == Problems(env, start, seen) + ProblemsAt(env, EndHead(start, seen), e, |seen|)
    ensures EndHead(start, seen + [e]) == HeadOf(e)
  {
    assert (seen + [e])[..|seen|] == seen;
  }

  lemma FlattenSnoc(files: seq<DayFile>, n: nat)
    requires n < |files|
    ensures Flatten(files[..n + 1]) == Flatten(files[..n]) + files[n].entries[..|files[n].entries|]
  {
    assert files[..n + 1][..n] == files[..n] && files[n].entries[..|files[n].entries|] == files[n].entries;
  }

  /** One worker's view of the log. */
  class CallLog {
    const dir: Directory
    var outage: Option<Outage>
    var suppressed: Option<Summary>
    var deniedMinute: Option<nat>
    var deniedCount: nat
    var readSuppressed: map<ReadKey, Summary>
    var readMinute: Option<nat>
    var readCounts: map<Id, nat>

    constructor (dir: Directory)
      ensures this.dir == dir && Me() == FRESH
    {
      this.dir := dir;
      outage, suppressed, deniedMinute, deniedCount := None, None, None, 0;
      readSuppressed, readMinute, readCounts := map[], None, map[];
    }

    ghost function Me(): Worker
      reads this
    {
      Worker(outage, suppressed, deniedMinute, deniedCount, readSuppressed, readMinute, readCounts)
    }

    method CurrentHead() returns (head: Head)
      ensures head == CallLogModel.CurrentHead(dir.State())
    {
      var last := LastEntry(dir.files);
      if last.Some? {
        return HeadOf(last.value);
      }
      return if dir.anchor.Some? then dir.anchor.value else ORIGIN;
    }

    method MarkDegraded(unlogged: nat, refused: nat)
      modifies this, dir
      ensures Marked(dir.State(), Me()) == CallLogModel.MarkDegraded(dir.env, old(dir.State()), old(Me()), unlogged, refused)
    {
      var delta: Outage;
      if outage.Some? {
        delta := outage.value;
      } else {
        var now := dir.Clock();
        delta := Outage(now, 0, 0);
      }
      delta := delta.(unlogged := delta.unlogged + unlogged, refused := delta.refused + refused);
      var ok := dir.Try();
      if ok {
        dir.degraded := Combine(dir.degraded, Some(delta));
        outage := None;
      } else {
        outage := Some(delta);
      }
    }

    /** The gap entry that `append` and `preflight` write after an outage, and `_clear_degraded`. */
    method CloseOutage(head: Head) returns (next: Option<Head>)
      modifies this, dir
      ensures Out(dir.State(), Me(), next) == CallLogModel.CloseOutage(dir.env, old(dir.State()), old(Me()), head)
    {
      var state := Combine(dir.degraded, outage);
      if state.None? {
        return Some(head);
      }
      var now := dir.Clock();
      next := dir.AppendLocked(Gap(state.value.unlogged, state.value.refused, state.value.since, now), head);
      if next.Some? {
        outage := None;
        dir.degraded := None;
      }
    }

    method FlushSuppressedLocked(head: Head) returns (next: Option<Head>)
      modifies this, dir
      ensures Out(dir.State(), Me(), next) == FlushDenied(dir.env, old(dir.State()), old(Me()), head)
    {
      if suppressed.None? {
        return Some(head);
      }
      var s := suppressed.value;
      next := dir.AppendLocked(DeniedSummary(s.count, s.windowStart, s.windowEnd), head);
      if next.Some? {
        suppressed := None;
      }
    }

    method FlushReadsLocked(head: Head) returns (next: Option<Head>)
      modifies this, dir
      ensures Out(dir.State(), Me(), next) == FlushReads(dir.env, old(dir.State()), old(Me()), head)
    {
      hide CallLogModel.AppendLocked; hide SortedKeys;
      var keys := SortedKeys(readSuppressed);
      ghost var all := FlushReads(dir.env, dir.State(), Me(), head);
      next := Some(head);
      var i := 0;
      assert keys[0..] == keys;
      while i < |keys|
        invariant i <= |keys| && next.Some?
        invariant forall k :: k in keys[i..] ==> k in readSuppressed
        invariant all == FlushKeys(dir.env, dir.State(), Me(), keys[i..], next.value)
      {
        var k, s := keys[i], readSuppressed[keys[i]];
        assert keys[i..][0] == k && keys[i..][1..] == keys[i + 1..];
        next := dir.AppendLocked(ReadSummary(k.tenant, k.transport, s.count, s.windowStart, s.windowEnd), next.value);
        if next.None? {
          return;
        }
        readSuppressed := readSuppressed - {k};
        i := i + 1;
      }
    }

    /** One more call in an open summary, or in a new one. */
    method CountIn(open: Option<Summary>) returns (s: Summary)
      modifies dir`ticks
      ensures (s, dir.State()) == Counted(dir.env, old(dir.State()), open)
    {
      if open.Some? {
        s := open.value;
      } else {
        var now := dir.Clock();
        s := Summary(now, now, 0);
      }
      var end := dir.Clock();
      s := Summary(s.windowStart, end, s.count + 1);
    }

    method WriteOwn(fields: Fields, head: Head) returns (r: Result)
      modifies dir
      ensures Step(dir.State(), Me(), r) == Finish(dir.env, Out(old(dir.State()), Me(), Some(head)), fields)
    {
      var next := dir.AppendLocked(fields, head);
      r := if next.Some? then Logged else Failed;
    }

    method AppendDenied(fields: Fields, head: Head) returns (r: Result)
      requires fields.Call?
      modifies this, dir
      ensures Step(dir.State(), Me(), r) == CallLogModel.AppendDenied(dir.env, old(dir.State()), old(Me()), fields, head)
    {
      var now := dir.Clock();
      var window := Minute(now);
      var next := Some(head);
      if deniedMinute != Some(window) {
        next := FlushSuppressedLocked(head);
        if next.None? {
          return Failed;
        }
        deniedMinute, deniedCount := Some(window), 0;
      }
      deniedCount := deniedCount + 1;
      if deniedCount > dir.env.deniedCap {
        var s := CountIn(suppressed);
        suppressed := Some(s);
        return Suppressed;
      }
      r := WriteOwn(fields, next.value);
    }

    method AppendRead(fields: Fields, head: Head) returns (r: Result)
      requires fields.Call?
      modifies this, dir
      ensures Step(dir.State(), Me(), r) == CallLogModel.AppendRead(dir.env, old(dir.State()), old(Me()), fields, head)
    {
      hide FlushReads; hide Finish; hide Counted;
      var now := dir.Clock();
      var window := Minute(now);
      var next := Some(head);
      if readMinute != Some(window) {
        next := FlushReadsLocked(head);
        if next.None? {
          return Failed;
        }
        readMinute, readCounts := Some(window), map[];
      }
      r := CountRead(fields, window, next.value);
    }

    /** One more read of the tenant in this minute: its own entry, or past the cap a summary's count. */
    method CountRead(fields: Fields, window: nat, head: Head) returns (r: Result)
      requires fields.Call? && readMinute == Some(window)
      modifies this, dir
      ensures Step(dir.State(), Me(), r)
           == CallLogModel.CountRead(dir.env, Out(old(dir.State()), old(Me()), Some(head)), window, old(readCounts), fields)
    {
      hide Finish; hide Counted;
      var n := (if fields.tenant in readCounts then readCounts[fields.tenant] else 0) + 1;
      readCounts := readCounts[fields.tenant := n];
      if n > dir.env.readCap {
        var key := ReadKey(fields.tenant, fields.transport);
        var s := CountIn(if key in readSuppressed then Some(readSuppressed[key]) else None);
        readSuppressed := readSuppressed[key := s];
        return Suppressed;
      }
      r := WriteOwn(fields, head);
    }

    method Append(fields: Fields) returns (r: Result)
      requires fields.Call?
      modifies this, dir
      ensures Step(dir.State(), Me(), r) == CallLogModel.Append(dir.env, old(dir.State()), old(Me()), fields)
    {
      hide CallLogModel.AppendDenied; hide CallLogModel.AppendRead; hide CallLogModel.CloseOutage; hide CallLogModel.CurrentHead;
      hide FlushDenied; hide FlushReads; hide CallLogModel.AppendLocked;
      var locked := dir.Try();
      if !locked {
        return Failed;
      }
      var head := CurrentHead();
      var next := CloseOutage(head);
      if next.None? {
        return Failed;
      }
      if fields.outcome == Denied {
        r := AppendDenied(fields, next.value);
        return;
      }
      next := FlushSuppressedLocked(next.value);
      if next.None? {
        return Failed;
      }
      if IsRead(fields) {
        r := AppendRead(fields, next.value);
        return;
      }
      if IsWrite(fields) {
        next := FlushReadsLocked(next.value);
        if next.None? {
          return Failed;
        }
      }
      r := WriteOwn(fields, next.value);
    }

    /** Append, with the failure policy: never raises. */
    method Record(fields: Fields) returns (r: Result)
      requires fields.Call?
      modifies this, dir
      ensures Step(dir.State(), Me(), r) == CallLogModel.Record(dir.env, old(dir.State()), old(Me()), fields)
    {
      hide CallLogModel.Append; hide CallLogModel.MarkDegraded;
      r := Append(fields);
      if r == Failed {
        MarkDegraded(1, 0);
      }
    }

    /** `preflight`: a write could be logged now, with the gap of an outage written first. */
    method Preflight() returns (next: Option<Head>)
      modifies this, dir
      ensures Out(dir.State(), Me(), next) == CallLogModel.Preflight(dir.env, old(dir.State()), old(Me()))
    {
      hide CallLogModel.CloseOutage; hide CallLogModel.CurrentHead;
      var locked := dir.Try();
      if !locked {
        return None;
      }
      var head := CurrentHead();
      next := CloseOutage(head);
    }

    /** `preflight` as the witness calls it: a write that could not be logged is refused. */
    method Guard() returns (allowed: bool)
      modifies this, dir
      ensures Step(dir.State(), Me(), if allowed then Logged else Failed) == CallLogModel.Guard(dir.env, old(dir.State()), old(Me()))
    {
      hide CallLogModel.Preflight; hide CallLogModel.MarkDegraded;
      var next := Preflight();
      allowed := next.Some?;
      if !allowed {
        MarkDegraded(0, 1);
      }
    }

    method Flush()
      modifies this, dir
      ensures Marked(dir.State(), Me()) == CallLogModel.Flush(dir.env, old(dir.State()), old(Me()))
    {
      hide CallLogModel.MarkDegraded; hide CallLogModel.CurrentHead; hide FlushDenied; hide FlushReads;
      var ok := dir.Try();
      if ok {
        var head := CurrentHead();
        var next := FlushSuppressedLocked(head);
        if next.Some? {
          next := FlushReadsLocked(next.value);
        }
        ok := next.Some?;
      }
      if !ok && (suppressed.Some? || readSuppressed != map[]) {
        MarkDegraded(0, 0);
      }
    }

    method FlushForShutdown()
      modifies this, dir
      ensures Marked(dir.State(), Me()) == Shutdown(dir.env, old(dir.State()), old(Me()))
    {
      hide CallLogModel.MarkDegraded; hide CallLogModel.Flush; hide CountReads;
      Flush();
      var pending := (if suppressed.Some? then suppressed.value.count else 0) + CountReads(readSuppressed);
      if pending > 0 {
        MarkDegraded(pending, 0);
        suppressed, readSuppressed := None, map[];
      }
    }

    /** `verify`: flush, then walk. */
    method Verify() returns (ok: bool, head: Head)
      modifies this, dir
      ensures Marked(dir.State(), Me()) == CallLogModel.Flush(dir.env, old(dir.State()), old(Me()))
      ensures ok <==> Accepted(dir.env, Start(dir.State()), Flatten(dir.files))
      ensures head == EndHead(Start(dir.State()), Flatten(dir.files))
    {
      Flush();
      var problems, total;
      problems, total, head := dir.Walk();
      NoProblemsIffAccepted(dir.env, Start(dir.State()), Flatten(dir.files));
      ok := problems == [];
    }
  }
}
