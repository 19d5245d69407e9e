/** What a checkpoint says about the records of its range, and the rule that a dead record stays dead, over
    whole runs and in terms of appends and hot sets only. */
module ColdRecords {
  import opened Options
  import opened Order
  import opened Encoding
  import opened FieldLines
  import opened FieldTree
  import opened Checkpoints

  // ----- one checkpoint

  /** The record of every loaded artifact, in the order of loading. */
  function Ledgers(f: Field): (ls: seq<Id>)
    requires ValidField(f)
    ensures |ls| == |f.order|
  {
    seq(|f.order|, i requires 0 <= i < |f.order| => f.artifacts[f.order[i]].ledger)
  }

  /** Some artifact of the range belongs to record `x`. */
  predicate InRange(ls: seq<Id>, start: nat, end: nat, x: Id) {
    exists i: nat :: start <= i < end && i < |ls| && ls[i] == x
  }

  function LinesOf(ls: seq<Id>, start: nat, end: nat, hot: set<Id>, warm: bool): set<nat> {
    set i: nat | start <= i < end && i < |ls| && (ls[i] in hot) == warm
  }

  predicate Ascending(ids: seq<Id>) {
    forall i, j :: 0 <= i < j < |ids| ==> Before(ids[i], ids[j])
  }

  lemma SortedIdsAscend(s: set<Id>)
    ensures Ascending(SortedIds(s))
  {
    BeforeStrict();
  }

  lemma {:induction false} CountSnoc(arts: seq<Artifact>, a: Artifact, ids: set<Id>)
    ensures CountIn(arts + [a], ids) == CountIn(arts, ids) + if a.ledger in ids then 1 else 0
  {
    if arts == [] {
      assert [] + [a] == [a] && [a][1..] == [];
    } else {
      assert (arts + [a])[1..] == arts[1..] + [a];
      CountSnoc(arts[1..], a, ids);
    }
  }

  lemma LinesSnoc(ls: seq<Id>, start: nat, n: nat, hot: set<Id>, warm: bool)
    requires start <= n < |ls|
    ensures |LinesOf(ls, start, n + 1, hot, warm)| == |LinesOf(ls, start, n, hot, warm)| + if (ls[n] in hot) == warm then 1 else 0
  {
    var earlier := LinesOf(ls, start, n, hot, warm);
    if (ls[n] in hot) == warm {
      assert LinesOf(ls, start, n + 1, hot, warm) == earlier + {n};
    } else {
      assert LinesOf(ls, start, n + 1, hot, warm) == earlier;
    }
  }

  /** Counting along the list is counting the lines. */
  lemma {:induction false} CountLines(arts: seq<Artifact>, ls: seq<Id>, start: nat, n: nat, hot: set<Id>, warm: bool, ids: set<Id>)
    requires start <= n <= |ls| == |arts| && forall i :: 0 <= i < |ls| ==> arts[i].ledger == ls[i]
    requires forall i: nat :: start <= i < n ==> (ls[i] in ids <==> (ls[i] in hot) == warm)
    ensures CountIn(arts[start..n], ids) == |LinesOf(ls, start, n, hot, warm)|
  {
    hide CountIn; hide LinesOf;
    if start == n {
      NoLines(arts[start..n], ls, start, n, hot, warm, ids);
    } else {
      CountLines(arts, ls, start, n - 1, hot, warm, ids);
      assert arts[start..n] == arts[start..n - 1] + [arts[n - 1]];
      CountSnoc(arts[start..n - 1], arts[n - 1], ids);
      LinesSnoc(ls, start, n - 1, hot, warm);
    }
  }

  lemma NoLines(arts: seq<Artifact>, ls: seq<Id>, start: nat, end: nat, hot: set<Id>, warm: bool, ids: set<Id>)
    requires arts == [] && (end <= start || |ls| <= start)
    ensures CountIn(arts, ids) == 0 == |LinesOf(ls, start, end, hot, warm)|
  {
    assert LinesOf(ls, start, end, hot, warm) == {};
  }

  /** The records of a slice of the artifacts. */
  lemma SliceLedgers(arts: seq<Artifact>, ls: seq<Id>, start: nat, end: nat, x: Id)
    requires start <= end && |ls| == |arts| && forall i :: 0 <= i < |ls| ==> arts[i].ledger == ls[i]
    ensures (exists a :: a in Slice(arts, start, end) && a.ledger == x) <==> InRange(ls, start, end, x)
  {
    var part := Slice(arts, start, end);
    if a :| a in part && a.ledger == x {
      var k :| 0 <= k < |part| && part[k] == a;
      assert ls[start + k] == x;
    }
    if i: nat :| start <= i < end && i < |ls| && ls[i] == x {
      assert part[i - start] == arts[i];
      assert arts[i] in part;
    }
  }

  lemma RangeIds(arts: seq<Artifact>, ls: seq<Id>, start: nat, end: nat, hot: set<Id>)
    requires start <= end && |ls| == |arts| && forall i :: 0 <= i < |ls| ==> arts[i].ledger == ls[i]
    ensures var part := Slice(arts, start, end);
      && (forall x :: x in ColdIds(part, hot) <==> InRange(ls, start, end, x) && x !in hot)
      && (forall x :: x in LedgerIds(part, hot) <==> InRange(ls, start, end, x) && x in hot)
  {
    hide Slice; hide InRange;
    forall x ensures (exists a :: a in Slice(arts, start, end) && a.ledger == x) <==> InRange(ls, start, end, x) { SliceLedgers(arts, ls, start, end, x); }
  }

  lemma RangeCounts(arts: seq<Artifact>, ls: seq<Id>, start: nat, end: nat, hot: set<Id>, warm: bool, ids: set<Id>)
    requires start <= end && |ls| == |arts| && forall i :: 0 <= i < |ls| ==> arts[i].ledger == ls[i]
    requires forall x :: x in ids <==> InRange(ls, start, end, x) && (x in hot) == warm
    ensures CountIn(Slice(arts, start, end), ids) == |LinesOf(ls, start, end, hot, warm)|
  {
    hide CountIn;
    var n := if end <= |ls| then end else |ls|;
    if start <= n {
      assert Slice(arts, start, end) == arts[start..n];
      CountLines(arts, ls, start, n, hot, warm, ids);
      assert LinesOf(ls, start, end, hot, warm) == LinesOf(ls, start, n, hot, warm);
    } else {
      NoLines(Slice(arts, start, end), ls, start, end, hot, warm, ids);
    }
  }

  /** A sealed checkpoint lists as cold exactly the records of its range that are not hot, as hot exactly
      those that are, each list in order and without repeats; its counts are the numbers of their artifacts. */
  lemma SealSplits(v: Env, f: Field, chain: seq<Checkpoint>, hot: set<Id>, created: Bytes, actor: Bytes)
    requires ValidField(f) && Covered(chain) <= |RawLines(f.data)|
    ensures var cp, ls := Seal(v, f, chain, hot, created, actor), Ledgers(f); var start, end := Covered(chain), |RawLines(f.data)|;
      && (forall x :: x in cp.coldIds <==> InRange(ls, start, end, x) && x !in hot)
      && (forall x :: x in cp.hotIds <==> InRange(ls, start, end, x) && x in hot)
      && Ascending(cp.coldIds) && Ascending(cp.hotIds)
      && cp.cold == |LinesOf(ls, start, end, hot, false)| && cp.hot == |LinesOf(ls, start, end, hot, true)|
      && cp.created == created && cp.actor == actor
  {
    hide RawLines; hide Address; hide Slice; hide CountIn; hide SortedIds; hide LinesOf; hide Ascending; hide InRange;
    var all, ls := All(f), Ledgers(f);
    var start, end := Covered(chain), |RawLines(f.data)|;
    var part := Slice(all, start, end);
    RangeIds(all, ls, start, end, hot);
    SortedIdsAscend(LedgerIds(part, hot));
    SortedIdsAscend(ColdIds(part, hot));
    RangeCounts(all, ls, start, end, hot, false, ColdIds(part, hot));
    RangeCounts(all, ls, start, end, hot, true, LedgerIds(part, hot));
    hide All; hide Ledgers; hide ValidField; hide LedgerIds; hide ColdIds; hide RangeOf;
  }

  // ----- whole runs

  /** What a run amounts to: the artifacts that no checkpoint covers yet, the record of every artifact, and
      the records that were not hot when an artifact of theirs was sealed. */
  datatype Plain = Plain(waiting: seq<Id>, record: map<Id, Id>, dead: set<Id>)

  const NOTHING := Plain([], map[], {})

  function RecordsOf(p: Plain): set<Id> {
    set id | id in p.waiting && id in p.record :: p.record[id]
  }

  /** A compaction goes through when there is something new and no dead record is hot. */
  predicate GoesThrough(p: Plain, hot: set<Id>) {
    p.waiting != [] && forall x :: x in p.dead ==> x !in hot
  }

  function PlainAct(p: Plain, x: Action): Plain {
    match x
    case Append(a) => p.(waiting := p.waiting + [a.id], record := p.record[a.id := a.ledger])
    case Seals(hot, _, _) => if GoesThrough(p, hot) then p.(waiting := [], dead := p.dead + (RecordsOf(p) - hot)) else p
  }

  function PlainRun(p: Plain, xs: seq<Action>): Plain
    decreases |xs|
  {
    if xs == [] then p else PlainRun(PlainAct(p, xs[0]), xs[1..])
  }

  /** The state and its outline agree. */
  predicate Mirrors(s: State, p: Plain) {
    && p.dead == EverCold(s.chain)
    && Covered(s.chain) <= |s.field.order| && p.waiting == s.field.order[Covered(s.chain)..]
    && p.record.Keys == s.field.artifacts.Keys && forall x :: x in p.record ==> p.record[x] == s.field.artifacts[x].ledger
  }

  lemma EverColdSnoc(chain: seq<Checkpoint>, cp: Checkpoint)
    ensures EverCold(chain + [cp]) == EverCold(chain) + set x | x in cp.coldIds
  {
    forall x ensures x in EverCold(chain + [cp]) <==> x in EverCold(chain) || x in cp.coldIds {
      assert (chain + [cp])[|chain|] == cp;
      assert forall c :: c in chain + [cp] <==> c in chain || c == cp;
    }
  }

  lemma WaitingRecords(s: State, p: Plain)
    requires ValidField(s.field) && Mirrors(s, p)
    ensures forall x :: x in RecordsOf(p) <==> InRange(Ledgers(s.field), Covered(s.chain), |s.field.order|, x)
  {
    var f, start := s.field, Covered(s.chain);
    var ls := Ledgers(f);
    forall x ensures x in RecordsOf(p) <==> InRange(ls, start, |f.order|, x) {
      if x in RecordsOf(p) {
        var id :| id in p.waiting && id in p.record && p.record[id] == x;
        var k :| 0 <= k < |p.waiting| && p.waiting[k] == id;
        assert f.order[start + k] == id && ls[start + k] == x;
      }
      if InRange(ls, start, |f.order|, x) {
        var i: nat :| start <= i < |f.order| && ls[i] == x;
        assert p.waiting[i - start] == f.order[i];
        assert f.order[i] in p.waiting;
      }
    }
  }

  lemma CompactMirrored(v: Env, s: State, p: Plain, hot: set<Id>, created: Bytes, actor: Bytes)
    requires Sound(v, s) && Mirrors(s, p)
    ensures Compact(v, s.field, s.chain, hot, created, actor).Compacted? <==> GoesThrough(p, hot)
    ensures Compact(v, s.field, s.chain, hot, created, actor).DeadStaysDead? <==> p.waiting != [] && exists x :: x in p.dead && x in hot
  {
    hide Chained; hide RawLines; hide BetweenLines; hide Seal; hide EverCold; hide Covered;
    var both := EverCold(s.chain) * hot;
    if both != {} {
      var x :| x in both;
      assert x in p.dead && x in hot;
    }
    if x :| x in p.dead && x in hot {
      assert x in both;
    }
  }

  lemma ActMirrors(v: Env, s: State, p: Plain, x: Action)
    requires WritesLines(v) && Sound(v, s) && Mirrors(s, p)
    ensures Mirrors(Act(v, s, x), PlainAct(p, x))
  {
    hide Chained; hide RawLines; hide BetweenLines; hide Seal; hide EverCold; hide WritesLines; hide GoesThrough; hide RecordsOf; hide InRange;
    if x.Seals? {
      CompactMirrored(v, s, p, x.hot, x.created, x.actor);
      if Compact(v, s.field, s.chain, x.hot, x.created, x.actor).Compacted? {
        var cp := Seal(v, s.field, s.chain, x.hot, x.created, x.actor);
        SealSplits(v, s.field, s.chain, x.hot, x.created, x.actor);
        SealEnds(v, s.field, s.chain, x.hot, x.created, x.actor);
        EverColdSnoc(s.chain, cp);
        WaitingRecords(s, p);
        assert (set r | r in cp.coldIds) == RecordsOf(p) - x.hot;
      }
    }
  }

  lemma SealEnds(v: Env, f: Field, chain: seq<Checkpoint>, hot: set<Id>, created: Bytes, actor: Bytes)
    requires ValidField(f)
    ensures Seal(v, f, chain, hot, created, actor).end == |RawLines(f.data)|
  {
    hide RawLines;
  }

  lemma {:induction false} RunMirrors(v: Env, s: State, p: Plain, xs: seq<Action>)
    requires WritesLines(v) && Sound(v, s) && Mirrors(s, p)
    ensures Mirrors(Run(v, s, xs), PlainRun(p, xs))
    decreases |xs|
  {
    hide Chained; hide RawLines; hide BetweenLines; hide Mirrors; hide Act; hide PlainAct; hide WritesLines;
    if xs != [] {
      ActKeepsSound(v, s, xs[0]);
      ActMirrors(v, s, p, xs[0]);
      RunMirrors(v, Act(v, s, xs[0]), PlainAct(p, xs[0]), xs[1..]);
    }
  }

  /** After any run of appends and compactions from an empty field, a compaction goes through exactly when
      something waits and no dead record is hot, and is refused for a dead one exactly when something waits
      and one is; dead are the records that were not hot when an artifact of theirs was sealed. */
  lemma CompactsIff(v: Env, xs: seq<Action>, hot: set<Id>, created: Bytes, actor: Bytes)
    requires WritesLines(v)
    ensures Sound(v, Fresh()) && Sound(v, Run(v, Fresh(), xs))
    ensures var s, p := Run(v, Fresh(), xs), PlainRun(NOTHING, xs); var o := Compact(v, s.field, s.chain, hot, created, actor);
      && (o.Compacted? <==> GoesThrough(p, hot))
      && (o.DeadStaysDead? <==> p.waiting != [] && exists x :: x in p.dead && x in hot)
      && (!o.Compacted? ==> Act(v, s, Seals(hot, created, actor)) == s)
  {
    hide Chained; hide RawLines; hide BetweenLines; hide Compact; hide WritesLines; hide GoesThrough; hide Run; hide PlainRun;
    RunVerifies(v, xs);
    FreshMirrors();
    RunMirrors(v, Fresh(), NOTHING, xs);
    CompactMirrored(v, Run(v, Fresh(), xs), PlainRun(NOTHING, xs), hot, created, actor);
  }

  lemma FreshMirrors()
    ensures Mirrors(Fresh(), NOTHING)
  {}

  lemma {:induction false} PlainRunOn(p: Plain, xs: seq<Action>, ys: seq<Action>)
    ensures PlainRun(p, xs + ys) == PlainRun(PlainRun(p, xs), ys)
    decreases |xs|
  {
    hide PlainAct;
    if xs == [] {
      assert xs + ys == ys;
    } else {
      assert (xs + ys)[1..] == xs[1..] + ys;
      PlainRunOn(PlainAct(p, xs[0]), xs[1..], ys);
    }
  }

  lemma {:induction false} DeadGrows(p: Plain, xs: seq<Action>)
    ensures p.dead <= PlainRun(p, xs).dead
    decreases |xs|
  {
    hide GoesThrough; hide RecordsOf;
    if xs != [] { DeadGrows(PlainAct(p, xs[0]), xs[1..]); }
  }

  /** Once an artifact of a record was sealed while the record was not hot, every later compaction with
      something new and the record hot is refused, whatever was appended and compacted in between. */
  lemma DeadStaysRefused(v: Env, xs: seq<Action>, first: Action, ys: seq<Action>, x: Id, hot: set<Id>, created: Bytes, actor: Bytes)
    requires WritesLines(v) && first.Seals? && x !in first.hot && x in hot
    requires var p := PlainRun(NOTHING, xs); GoesThrough(p, first.hot) && x in RecordsOf(p)
    requires PlainRun(NOTHING, xs + [first] + ys).waiting != []
    ensures Sound(v, Fresh()) && Sound(v, Run(v, Fresh(), xs + [first] + ys))
    ensures var s := Run(v, Fresh(), xs + [first] + ys);
      Compact(v, s.field, s.chain, hot, created, actor).DeadStaysDead? && Act(v, s, Seals(hot, created, actor)) == s
  {
    hide Compact; hide WritesLines; hide Run; hide RecordsOf; hide GoesThrough; hide Sound; hide Act;
    var p := PlainRun(NOTHING, xs);
    PlainRunOn(NOTHING, xs, [first]);
    PlainRunOn(NOTHING, xs + [first], ys);
    assert [first][1..] == [];
    assert PlainRun(p, [first]) == PlainAct(p, first);
    DeadGrows(PlainAct(p, first), ys);
    CompactsIff(v, xs + [first] + ys, hot, created, actor);
  }
}
