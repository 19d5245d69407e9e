/** The call log as a state machine: one directory shared by several workers, each with its own
    memory. Every step is a function of the state and of an environment that decides which disk
    operations succeed and what each reading of the clock returns. */
module CallLogModel {
  import opened Options
  import opened Order

  type Time = nat  // microseconds

  function Minute(t: Time): nat { t / 60_000_000 }
  function Day(t: Time): nat { t / 86_400_000_000 }

  // ----- entries

  datatype Digest = Digest(hex: string)

  const GENESIS := Digest("0000000000000000000000000000000000000000000000000000000000000000")

  datatype Transport = HttpApi | HttpTool | McpHttp | McpStdio
  datatype Verb = Get | Post | Patch | Put | Delete | NoVerb
  datatype Route = Memory | Promote | Pipeline | MemoryId | OtherRoute(path: string)
  datatype Tool = Remember | Upsert | OtherTool(name: string)
  datatype Outcome = Okay | Denied | Error

  /** What an entry says besides its position in the chain. `Call` is one witnessed call; the
      others are what the log writes about calls that have no entry of their own. */
  datatype Fields =
    | Call(transport: Transport, tenant: Id, tool: Tool, verb: Verb, route: Route, outcome: Outcome, rest: string)
    | DeniedSummary(count: nat, windowStart: Time, windowEnd: Time)
    | ReadSummary(tenant: Id, transport: Transport, count: nat, windowStart: Time, windowEnd: Time)
    | Gap(unlogged: nat, refused: nat, since: Time, windowEnd: Time)

  /** An entry without its own hash: what `entry_hash_of` digests. */
  datatype Body = Body(seqNo: nat, ts: Time, prev: Digest, fields: Fields)
  datatype Entry = Entry(body: Body, hash: Digest)
  datatype Head = Head(seqNo: nat, hash: Digest)

  const ORIGIN := Head(0, GENESIS)

  /** `ok(n)`: whether the n-th fallible disk operation succeeds; `clock(n)`: the n-th reading. */
  datatype Env = Env(ok: nat -> bool, clock: nat -> Time, digest: Body -> Digest,
                     retainDays: nat, deniedCap: nat, readCap: nat)

  /** `_is_rest_write` or a write tool, with a successful outcome. */
  predicate IsWrite(f: Fields) {
    && f.Call? && f.outcome == Okay
    && (|| f.tool in {Remember, Upsert}
        || (f.verb == Post && f.route in {Memory, Promote, Pipeline})
        || (f.verb in {Patch, Put, Delete} && f.route == MemoryId))
  }

  /** A successful memory read that did not come through a tool route: the capped kind. */
  predicate IsRead(f: Fields) {
    f.Call? && f.verb == Get && f.transport != HttpTool && f.outcome == Okay
  }

  // ----- the shared directory

  datatype DayFile = DayFile(day: nat, entries: seq<Entry>)

  datatype Outage = Outage(since: Time, unlogged: nat, refused: nat)

  /** The directory: daily files by name, the anchor, the DEGRADED file; how many fallible
      operations and clock readings there have been; and every entry ever appended. */
  datatype World = World(files: seq<DayFile>, anchor: Option<Head>, degraded: Option<Outage>,
                         io: nat, ticks: nat, history: seq<Entry>)

  function HeadOf(e: Entry): Head { Head(e.body.seqNo, e.hash) }

  /** The last entry of the files, skipping empty ones. */
  function LastEntry(files: seq<DayFile>): Option<Entry> {
    if files == [] then None
    else
      var last := files[|files| - 1].entries;
      if last != [] then Some(last[|last| - 1]) else LastEntry(files[..|files| - 1])
  }

  /** `_head` */
  function CurrentHead(w: World): Head {
    match LastEntry(w.files)
    case Some(e) => HeadOf(e)
    case None => if w.anchor.Some? then w.anchor.value else ORIGIN
  }

  /** How many of the files, which are sorted by day, are older than `cutoff`. */
  function OldCount(files: seq<DayFile>, cutoff: int): (n: nat)
    ensures n <= |files|
  {
    if files == [] || files[0].day >= cutoff then 0 else 1 + OldCount(files[1..], cutoff)
  }

  /** `_rotate_and_retain` */
  function Retain(env: Env, w: World, now: Time): World {
    var n := OldCount(w.files, Day(now) - env.retainDays);
    if n == 0 || n >= |w.files| then w
    else
      match LastEntry(w.files[..n])
      case Some(e) => w.(files := w.files[n..], anchor := Some(HeadOf(e)))
      case None => w.(files := w.files[n..])
  }

  /** Appending a line to the day's file, which keeps its place among the sorted names. */
  function AddEntry(files: seq<DayFile>, day: nat, e: Entry): seq<DayFile> {
    if files == [] || files[|files| - 1].day < day then files + [DayFile(day, [e])]
    else
      var last := files[|files| - 1];
      if last.day == day then files[..|files| - 1] + [DayFile(day, last.entries + [e])]
      else AddEntry(files[..|files| - 1], day, e) + [last]
  }

  function Now(env: Env, w: World): Time { env.clock(w.ticks) }
  function Ticked(w: World): World { w.(ticks := w.ticks + 1) }
  function Tried(w: World): World { w.(io := w.io + 1) }

  datatype Appended = Appended(world: World, head: Option<Head>)

  function NextEntry(env: Env, now: Time, fields: Fields, head: Head): Entry {
    var body := Body(head.seqNo + 1, now, head.hash, fields);
    Entry(body, env.digest(body))
  }

  /** `_append_locked`: retention happens first, then the line is written or nothing is. */
  function AppendLocked(env: Env, w: World, fields: Fields, head: Head): Appended {
    var now := Now(env, w);
    var e := NextEntry(env, now, fields, head);
    var w1 := Retain(env, Ticked(w), now);
    var w2 := Tried(w1);
    if env.ok(w1.io)
    then Appended(w2.(files := AddEntry(w2.files, Day(now), e), history := w2.history + [e]), Some(HeadOf(e)))
    else Appended(w2, None)
  }

  // ----- one worker

  datatype Summary = Summary(windowStart: Time, windowEnd: Time, count: nat)
  datatype ReadKey = ReadKey(tenant: Id, transport: Transport)

  datatype Worker = Worker(outage: Option<Outage>, suppressed: Option<Summary>,
                           deniedMinute: Option<nat>, deniedCount: nat,
                           openReads: map<ReadKey, Summary>,
                           readMinute: Option<nat>, readCounts: map<Id, nat>)

  const FRESH := Worker(None, None, None, 0, map[], None, map[])

  function Rank(t: Transport): nat {
    match t case HttpApi => 0 case HttpTool => 1 case McpHttp => 2 case McpStdio => 3
  }

  predicate KeyBefore(a: ReadKey, b: ReadKey) {
    Before(a.tenant, b.tenant) || (a.tenant == b.tenant && Rank(a.transport) < Rank(b.transport))
  }

  lemma KeyBeforeStrict()
    ensures StrictOrder(KeyBefore)
  {
    BeforeStrict();
    forall x, y, z | KeyBefore(x, y) && KeyBefore(y, z) ensures KeyBefore(x, z) {}
    forall x, y ensures KeyBefore(x, y) ==> !KeyBefore(y, x) ensures x != y ==> KeyBefore(x, y) || KeyBefore(y, x) {}
  }

  /** `sorted(self._read_suppressed)` */
  function SortedKeys(openReads: map<ReadKey, Summary>): (keys: seq<ReadKey>)
    ensures forall k :: k in keys <==> k in openReads
    ensures forall i, j :: 0 <= i < j < |keys| ==> keys[i] != keys[j]
  {
    KeyBeforeStrict();
    Sorted(openReads.Keys, KeyBefore)
  }

  // ----- the degraded latch

  /** `_combine`: the two parts are disjoint, so their counts add up. */
  function Combine(file: Option<Outage>, memory: Option<Outage>): Option<Outage> {
    if file.None? then memory
    else if memory.None? then file
    else
      var a, b := file.value, memory.value;
      Some(Outage(if a.since <= b.since then a.since else b.since, a.unlogged + b.unlogged, a.refused + b.refused))
  }

  /** A state after a step, and the head to go on from when the step went through. */
  datatype Out = Out(world: World, worker: Worker, head: Option<Head>)

  datatype Marked = Marked(world: World, worker: Worker)

  /** `_mark_degraded`: the increments go to the DEGRADED file, or stay in memory when that fails. */
  function MarkDegraded(env: Env, w: World, me: Worker, unlogged: nat, refused: nat): Marked {
    var base := if me.outage.Some? then me.outage.value else Outage(Now(env, w), 0, 0);
    var w1 := if me.outage.Some? then w else Ticked(w);
    var delta := base.(unlogged := base.unlogged + unlogged, refused := base.refused + refused);
    if env.ok(w1.io)
    then Marked(Tried(w1).(degraded := Combine(w1.degraded, Some(delta))), me.(outage := None))
    else Marked(Tried(w1), me.(outage := Some(delta)))
  }

  /** A gap entry for a recorded outage, after which both records of it are cleared. */
  function CloseOutage(env: Env, w: World, me: Worker, head: Head): Out {
    var state := Combine(w.degraded, me.outage);
    if state.None? then Out(w, me, Some(head))
    else
      var s := state.value;
      var a := AppendLocked(env, Ticked(w), Gap(s.unlogged, s.refused, s.since, Now(env, w)), head);
      if a.head.None? then Out(a.world, me, None)
      else Out(a.world.(degraded := None), me.(outage := None), a.head)
  }

  // ----- flood summaries

  function FlushDenied(env: Env, w: World, me: Worker, head: Head): Out {
    if me.suppressed.None? then Out(w, me, Some(head))
    else
      var s := me.suppressed.value;
      var a := AppendLocked(env, w, DeniedSummary(s.count, s.windowStart, s.windowEnd), head);
      if a.head.None? then Out(a.world, me, None) else Out(a.world, me.(suppressed := None), a.head)
  }

  function FlushKeys(env: Env, w: World, me: Worker, keys: seq<ReadKey>, head: Head): Out
    requires forall k :: k in keys ==> k in me.openReads
    requires forall i, j :: 0 <= i < j < |keys| ==> keys[i] != keys[j]
    decreases |keys|
  {
    if keys == [] then Out(w, me, Some(head))
    else
      var k, s := keys[0], me.openReads[keys[0]];
      var a := AppendLocked(env, w, ReadSummary(k.tenant, k.transport, s.count, s.windowStart, s.windowEnd), head);
      if a.head.None? then Out(a.world, me, None)
      else FlushKeys(env, a.world, me.(openReads := me.openReads - {k}), keys[1..], a.head.value)
  }

  /** `_flush_reads_locked` */
  function FlushReads(env: Env, w: World, me: Worker, head: Head): Out {
    FlushKeys(env, w, me, SortedKeys(me.openReads), head)
  }

  /** One more call in an open summary, or in a new one. */
  function Counted(env: Env, w: World, open: Option<Summary>): (Summary, World) {
    var s := if open.Some? then open.value else Summary(Now(env, w), Now(env, w), 0);
    var w1 := if open.Some? then w else Ticked(w);
    (Summary(s.windowStart, Now(env, w1), s.count + 1), Ticked(w1))
  }

  // ----- append

  datatype Result = Logged | Suppressed | Failed

  datatype Step = Step(world: World, worker: Worker, result: Result)

  function Finish(env: Env, o: Out, fields: Fields): Step {
    if o.head.None? then Step(o.world, o.worker, Failed)
    else
      var a := AppendLocked(env, o.world, fields, o.head.value);
      Step(a.world, o.worker, if a.head.Some? then Logged else Failed)
  }

  function AppendDenied(env: Env, w: World, me: Worker, fields: Fields, head: Head): Step {
    var minute, w1 := Minute(Now(env, w)), Ticked(w);
    var o := if me.deniedMinute != Some(minute) then FlushDenied(env, w1, me, head) else Out(w1, me, Some(head));
    if o.head.None? then Step(o.world, o.worker, Failed)
    else
      var before := if me.deniedMinute != Some(minute) then 0 else me.deniedCount;
      var me1 := o.worker.(deniedMinute := Some(minute), deniedCount := before + 1);
      if before + 1 > env.deniedCap then
        var (s, w2) := Counted(env, o.world, me1.suppressed);
        Step(w2, me1.(suppressed := Some(s)), Suppressed)
      else Finish(env, o.(worker := me1), fields)
  }

  /** A read in a minute whose reads so far, per tenant, are `counts`. */
  function CountRead(env: Env, o: Out, minute: nat, counts: map<Id, nat>, fields: Fields): Step
    requires fields.Call?
  {
    var n := (if fields.tenant in counts then counts[fields.tenant] else 0) + 1;
    var me := o.worker.(readMinute := Some(minute), readCounts := counts[fields.tenant := n]);
    if n > env.readCap then
      var key := ReadKey(fields.tenant, fields.transport);
      var (s, w) := Counted(env, o.world, if key in me.openReads then Some(me.openReads[key]) else None);
      Step(w, me.(openReads := me.openReads[key := s]), Suppressed)
    else Finish(env, o.(worker := me), fields)
  }

  function AppendRead(env: Env, w: World, me: Worker, fields: Fields, head: Head): Step
    requires fields.Call?
  {
    var minute, w1 := Minute(Now(env, w)), Ticked(w);
    var o := if me.readMinute != Some(minute) then FlushReads(env, w1, me, head) else Out(w1, me, Some(head));
    if o.head.None? then Step(o.world, o.worker, Failed)
    else CountRead(env, o, minute, if me.readMinute != Some(minute) then map[] else me.readCounts, fields)
  }

  function AppendOther(env: Env, w: World, me: Worker, fields: Fields, head: Head): Step {
    Finish(env, if IsWrite(fields) then FlushReads(env, w, me, head) else Out(w, me, Some(head)), fields)
  }

  /** `append`. Taking the lock and reading the head is the first operation that can fail. */
  function Append(env: Env, w: World, me: Worker, fields: Fields): Step
    requires fields.Call?
  {
    var w0 := Tried(w);
    if !env.ok(w.io) then Step(w0, me, Failed)
    else
      var o := CloseOutage(env, w0, me, CurrentHead(w0));
      if o.head.None? then Step(o.world, o.worker, Failed)
      else if fields.outcome == Denied then AppendDenied(env, o.world, o.worker, fields, o.head.value)
      else
        var p := FlushDenied(env, o.world, o.worker, o.head.value);
        if p.head.None? then Step(p.world, p.worker, Failed)
        else if IsRead(fields) then AppendRead(env, p.world, p.worker, fields, p.head.value)
        else AppendOther(env, p.world, p.worker, fields, p.head.value)
  }

  /** `record`: a call that could not be written is counted as unlogged. */
  function Record(env: Env, w: World, me: Worker, fields: Fields): Step
    requires fields.Call?
  {
    var s := Append(env, w, me, fields);
    if s.result != Failed then s
    else
      var m := MarkDegraded(env, s.world, s.worker, 1, 0);
      Step(m.world, m.worker, Failed)
  }

  /** `preflight`: the lock, the checks, and the gap entry of a recorded outage. */
  function Preflight(env: Env, w: World, me: Worker): Out {
    var w0 := Tried(w);
    if env.ok(w.io) then CloseOutage(env, w0, me, CurrentHead(w0)) else Out(w0, me, None)
  }

  /** `preflight`, and what its callers do when it raises: the write is refused and counted. */
  function Guard(env: Env, w: World, me: Worker): Step {
    var o := Preflight(env, w, me);
    if o.head.Some? then Step(o.world, o.worker, Logged)
    else
      var m := MarkDegraded(env, o.world, o.worker, 0, 1);
      Step(m.world, m.worker, Failed)
  }

  function Pending(me: Worker): nat {
    (if me.suppressed.Some? then me.suppressed.value.count else 0) + CountReads(me.openReads)
  }

  /** `sum(s["count"] for s in self._read_suppressed.values())` */
  function CountReads(openReads: map<ReadKey, Summary>): nat {
    CountKeys(openReads, SortedKeys(openReads))
  }

  function CountKeys(openReads: map<ReadKey, Summary>, keys: seq<ReadKey>): nat
    requires forall k :: k in keys ==> k in openReads
  {
    if keys == [] then 0 else openReads[keys[0]].count + CountKeys(openReads, keys[1..])
  }

  /** What `flush` does under the lock. */
  function FlushLocked(env: Env, w: World, me: Worker): Out {
    var w0 := Tried(w);
    if !env.ok(w.io) then Out(w0, me, None)
    else
      var p := FlushDenied(env, w0, me, CurrentHead(w0));
      if p.head.None? then p else FlushReads(env, p.world, p.worker, p.head.value)
  }

  predicate AnyOpen(me: Worker) {
    me.suppressed.Some? || me.openReads != map[]
  }

  /** `flush` */
  function Flush(env: Env, w: World, me: Worker): Marked {
    var o := FlushLocked(env, w, me);
    if o.head.None? && AnyOpen(o.worker) then MarkDegraded(env, o.world, o.worker, 0, 0) else Marked(o.world, o.worker)
  }

  /** The end of `flush_for_shutdown`: counts that are still open become unlogged calls. */
  function HandOver(env: Env, w: World, me: Worker): Marked {
    var pending := Pending(me);
    if pending == 0 then Marked(w, me)
    else
      var m := MarkDegraded(env, w, me, pending, 0);
      Marked(m.world, m.worker.(suppressed := None, openReads := map[]))
  }

  /** `flush_for_shutdown` */
  function Shutdown(env: Env, w: World, me: Worker): Marked {
    var m := Flush(env, w, me);
    HandOver(env, m.world, m.worker)
  }

  // ----- any number of workers and of their threads, any interleaving of their holds of the lock

  /** A mark that a failed hold of the lock has decided on and not made yet. */
  datatype Debt = Debt(unlogged: nat, refused: nat)

  /** One worker with the marks that its threads still owe. */
  datatype Party = Party(me: Worker, owes: seq<Debt>)

  datatype System = System(world: World, parties: seq<Party>)

  /** What happens under one hold of the lock.  A recorded call is a `TryAppend`, and when that fails a
      `Settle` whenever its thread gets the lock again; a guarded write is a `TryPreflight` likewise.
      `Close` is the end of a shutdown. */
  datatype Action = TryAppend(fields: Fields) | TryPreflight | TryFlush | Settle(n: nat) | Close

  datatype Turn = Turn(worker: nat, action: Action)

  predicate Allowed(action: Action) {
    action.TryAppend? ==> action.fields.Call?
  }

  predicate Possible(n: nat, t: Turn) {
    t.worker < n && Allowed(t.action)
  }

  datatype Acted = Acted(world: World, party: Party, result: Result)

  function Act(env: Env, w: World, p: Party, action: Action): Acted
    requires Allowed(action)
  {
    match action
    case TryAppend(f) =>
      var s := Append(env, w, p.me, f);
      Acted(s.world, Party(s.worker, if s.result == Failed then p.owes + [Debt(1, 0)] else p.owes), s.result)
    case TryPreflight =>
      var o := Preflight(env, w, p.me);
      if o.head.Some? then Acted(o.world, Party(o.worker, p.owes), Logged)
      else Acted(o.world, Party(o.worker, p.owes + [Debt(0, 1)]), Failed)
    case TryFlush =>
      var o := FlushLocked(env, w, p.me);
      Acted(o.world, Party(o.worker, if o.head.None? && AnyOpen(o.worker) then p.owes + [Debt(0, 0)] else p.owes), Logged)
    case Settle(n) =>
      if n >= |p.owes| then Acted(w, p, Logged)
      else
        var m := MarkDegraded(env, w, p.me, p.owes[n].unlogged, p.owes[n].refused);
        Acted(m.world, Party(m.worker, p.owes[..n] + p.owes[n + 1..]), Logged)
    case Close =>
      var m := HandOver(env, w, p.me);
      Acted(m.world, Party(m.worker, p.owes), Logged)
  }

  function Take(env: Env, sys: System, t: Turn): System
    requires Possible(|sys.parties|, t)
  {
    var s := Act(env, sys.world, sys.parties[t.worker], t.action);
    System(s.world, sys.parties[t.worker := s.party])
  }

  predicate AllPossible(n: nat, turns: seq<Turn>) {
    forall i :: 0 <= i < |turns| ==> Possible(n, turns[i])
  }

  function Run(env: Env, sys: System, turns: seq<Turn>): (r: System)
    requires AllPossible(|sys.parties|, turns)
    ensures |r.parties| == |sys.parties|
  {
    if turns == [] then sys
    else
      var last := turns[|turns| - 1];
      Take(env, Run(env, sys, turns[..|turns| - 1]), last)
  }

  lemma RunNone(env: Env, sys: System)
    ensures Run(env, sys, []) == sys
  {}

  lemma RunSnoc(env: Env, sys: System, turns: seq<Turn>, t: Turn)
    requires AllPossible(|sys.parties|, turns) && Possible(|sys.parties|, t)
    ensures AllPossible(|sys.parties|, turns + [t]) && Run(env, sys, turns + [t]) == Take(env, Run(env, sys, turns), t)
  {
    hide Take;
    assert (turns + [t])[..|turns|] == turns;
  }

  /** A call recorded without another hold of the lock in between is its append and then its mark. */
  lemma RecordIsItsTurns(env: Env, w: World, p: Party, fields: Fields)
    requires fields.Call?
    ensures var a := Act(env, w, p, TryAppend(fields)); var b := Act(env, a.world, a.party, Settle(|p.owes|));
      var s := Record(env, w, p.me, fields);
      b.world == s.world && b.party == Party(s.worker, p.owes) && a.result == s.result
  {
    hide Append; hide MarkDegraded;
    var a := Act(env, w, p, TryAppend(fields));
    if a.result == Failed {
      assert a.party.owes[..|p.owes|] + a.party.owes[|p.owes| + 1..] == p.owes;
    }
  }

  /** The same for a guarded write. */
  lemma GuardIsItsTurns(env: Env, w: World, p: Party)
    ensures var a := Act(env, w, p, TryPreflight); var b := Act(env, a.world, a.party, Settle(|p.owes|));
      var s := Guard(env, w, p.me);
      b.world == s.world && b.party == Party(s.worker, p.owes) && a.result == s.result
  {
    hide Preflight; hide MarkDegraded;
    var a := Act(env, w, p, TryPreflight);
    if a.result == Failed {
      assert a.party.owes[..|p.owes|] + a.party.owes[|p.owes| + 1..] == p.owes;
    }
  }

  /** The same for a shutdown: flush, the mark of a failed flush, and what is left of the counts. */
  lemma ShutdownIsItsTurns(env: Env, w: World, p: Party)
    ensures var a := Act(env, w, p, TryFlush); var b := Act(env, a.world, a.party, Settle(|p.owes|));
      var c := Act(env, b.world, b.party, Close); var m := Shutdown(env, w, p.me);
      c.world == m.world && c.party == Party(m.worker, p.owes)
  {
    hide FlushLocked; hide MarkDegraded; hide HandOver;
    var a := Act(env, w, p, TryFlush);
    if |a.party.owes| > |p.owes| {
      assert a.party.owes[..|p.owes|] + a.party.owes[|p.owes| + 1..] == p.owes;
    }
  }
}
