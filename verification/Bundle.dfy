/** Bundle formation: the greedy choice of scored records under a token budget. */
module Bundle {
  import opened Options
  import opened Order
  import opened Expansion

  datatype Resolution = Summary | Detail | Evidence

  /** A record with its score: `A` activation, `P` provenance, `Q` query alignment, `boost` from the graph. */
  datatype Scored = Scored(rec: Record, sha: string, content: string, A: real, P: real, Q: real, boost: real)

  /** The parameters of one call; `sticky` holds the resolutions of the previous turn, `summary` and
      `evidence` render a record's text. */
  datatype Config = Config(budget: int, theta: real, bondWeight: real, exclude: bool, sticky: map<Id, Resolution>,
                           summary: string -> string, evidence: Scored -> string)

  datatype Entry = Entry(scored: Scored, resolution: Resolution, cost: nat)

  const Q_NO_OVERLAP := 0.05

  /** `estimate_tokens`: a quarter of the length, rounded up. */
  function Tokens(text: string): (n: nat)
    ensures 4 * n >= |text| && (n > 0 ==> 4 * (n - 1) < |text|)
  {
    (|text| + 3) / 4
  }

  function Render(c: Config, s: Scored, r: Resolution): string {
    match r
    case Summary => c.summary(s.content)
    case Detail => s.content
    case Evidence => c.evidence(s)
  }

  function Cost(c: Config, s: Scored, r: Resolution): nat {
    Tokens(Render(c, s, r))
  }

  /** What a record's summary is charged when candidates are compared. */
  function BaseCost(c: Config, s: Scored): (n: nat)
    ensures n >= 1 && n >= Cost(c, s, Summary)
  {
    if Cost(c, s, Summary) < 1 then 1 else Cost(c, s, Summary)
  }

  /** `is_contradiction` */
  predicate Contradicts(a: Scored, b: Scored) {
    a.rec.subject != "" && a.rec.subject == b.rec.subject && a.sha != b.sha
  }

  predicate Eligible(c: Config, s: Scored) {
    s.A >= c.theta && s.P > 0.0 && (s.Q > Q_NO_OVERLAP || s.boost > 0.0 || s.rec.id in c.sticky)
  }

  function BondSum(s: Scored, entries: seq<Entry>): real {
    if entries == [] then 0.0
    else BondSum(s, entries[..|entries| - 1]) + BondStrength(s.rec, entries[|entries| - 1].scored.rec)
  }

  function Density(c: Config, s: Scored, entries: seq<Entry>): real {
    (s.A + c.bondWeight * BondSum(s, entries)) / BaseCost(c, s) as real
  }

  function Used(entries: seq<Entry>): nat {
    if entries == [] then 0 else Used(entries[..|entries| - 1]) + entries[|entries| - 1].cost
  }

  predicate Fits(c: Config, s: Scored, entries: seq<Entry>) {
    Used(entries) + BaseCost(c, s) <= c.budget
  }

  predicate UniqueIds(ss: seq<Scored>) {
    forall i, j :: 0 <= i < j < |ss| ==> ss[i].rec.id != ss[j].rec.id
  }

  predicate Holds(entries: seq<Entry>, s: Scored) {
    exists e :: e in entries && e.scored == s
  }

  predicate Disputed(s: Scored, entries: seq<Entry>) {
    exists e :: e in entries && Contradicts(s, e.scored)
  }

  // ----- what a bundle promises

  /** An entry shows the resolution of the previous turn, or the summary where that no longer fits. */
  predicate Rendered(c: Config, before: seq<Entry>, e: Entry) {
    var wanted := if e.scored.rec.id in c.sticky then c.sticky[e.scored.rec.id] else Summary;
    && e.cost == Cost(c, e.scored, e.resolution)
    && (if Used(before) + Cost(c, e.scored, wanted) <= c.budget then e.resolution == wanted else e.resolution == Summary)
  }

  /** No record that could still have been taken was denser. */
  ghost predicate Densest(c: Config, scored: seq<Scored>, before: seq<Entry>, s: Scored) {
    forall o :: o in scored && Eligible(c, o) && !Holds(before, o) && Fits(c, o, before) && !(c.exclude && Disputed(o, before)) ==>
      Density(c, o, before) <= Density(c, s, before)
  }

  /** Entry by entry: an eligible record that was not taken yet, fits, disputes none taken before, is
      rendered as it should be, and was the densest choice. */
  ghost predicate Greedy(c: Config, scored: seq<Scored>, entries: seq<Entry>) {
    entries == [] ||
    var before, e := entries[..|entries| - 1], entries[|entries| - 1];
    && Greedy(c, scored, before)
    && e.scored in scored && Eligible(c, e.scored) && !Holds(before, e.scored) && Fits(c, e.scored, before)
    && !(c.exclude && Disputed(e.scored, before)) && Rendered(c, before, e) && Densest(c, scored, before, e.scored)
  }

  /** The record is left out under the exclude policy because it disputes an entry. */
  ghost predicate Excluded(c: Config, scored: seq<Scored>, entries: seq<Entry>, s: Scored) {
    c.exclude && s in scored && Eligible(c, s) && !Holds(entries, s) && Disputed(s, entries)
  }

  /** Every eligible record that is left out is listed as excluded, for a dispute with an entry, or has a
      summary that no longer fits; nothing else is listed. */
  ghost predicate Maximal(c: Config, scored: seq<Scored>, entries: seq<Entry>, excluded: seq<Id>) {
    && (forall s :: s in scored && Eligible(c, s) && !Holds(entries, s) ==>
          !Fits(c, s, entries) || (s.rec.id in excluded && Excluded(c, scored, entries, s)))
    && (forall x :: x in excluded ==> exists s :: Excluded(c, scored, entries, s) && s.rec.id == x)
  }

  lemma {:induction false} GreedyWithinBudget(c: Config, scored: seq<Scored>, entries: seq<Entry>)
    requires Greedy(c, scored, entries)
    ensures entries != [] ==> Used(entries) <= c.budget
  {
    if entries != [] {
      var before, e := entries[..|entries| - 1], entries[|entries| - 1];
      assert Rendered(c, before, e);
    }
  }

  /** Under the exclude policy no two entries contradict each other, and no record is taken twice. */
  lemma {:induction false} GreedyPeaceful(c: Config, scored: seq<Scored>, entries: seq<Entry>, i: nat, j: nat)
    requires Greedy(c, scored, entries) && i < j < |entries|
    ensures entries[i].scored != entries[j].scored
    ensures c.exclude ==> !Contradicts(entries[i].scored, entries[j].scored) && !Contradicts(entries[j].scored, entries[i].scored)
  {
    var before := entries[..|entries| - 1];
    assert before[i] in before && before[i] == entries[i];
    if j < |before| {
      GreedyPeaceful(c, scored, before, i, j);
      assert before[j] == entries[j];
    } else {
      hide Rendered; hide Densest;
      assert !Holds(before, entries[j].scored);
    }
  }

  // ----- the loop

  /** Where the loop stands: what remains is eligible and free, and every eligible record remains, is
      taken, or is out for a dispute. */
  ghost predicate Standing(c: Config, scored: seq<Scored>, entries: seq<Entry>, out: seq<Scored>, remaining: seq<Scored>) {
    && Greedy(c, scored, entries) && UniqueIds(remaining)
    && (forall s :: s in remaining ==> s in scored && Eligible(c, s) && !Holds(entries, s))
    && (forall s :: s in scored && Eligible(c, s) ==> s in remaining || Holds(entries, s) || s in out)
    && (forall s :: s in out ==> Excluded(c, scored, entries, s))
  }

  function OnlyEligible(c: Config, ss: seq<Scored>): (r: seq<Scored>)
    ensures forall s :: s in r <==> s in ss && Eligible(c, s)
  {
    if ss == [] then []
    else
      assert ss == [ss[0]] + ss[1..];
      (if Eligible(c, ss[0]) then [ss[0]] else []) + OnlyEligible(c, ss[1..])
  }

  function WithoutId(ss: seq<Scored>, id: Id): (r: seq<Scored>)
    ensures |r| <= |ss|
    ensures forall s :: s in r <==> s in ss && s.rec.id != id
    ensures (exists s :: s in ss && s.rec.id == id) ==> |r| < |ss|
  {
    if ss == [] then []
    else
      assert ss == [ss[0]] + ss[1..];
      (if ss[0].rec.id != id then [ss[0]] else []) + WithoutId(ss[1..], id)
  }

  lemma {:induction false} OnlyEligibleUnique(c: Config, ss: seq<Scored>)
    requires UniqueIds(ss)
    ensures UniqueIds(OnlyEligible(c, ss))
  {
    if ss != [] {
      OnlyEligibleUnique(c, ss[1..]);
      hide Eligible;
      var r := OnlyEligible(c, ss[1..]);
      forall j | 0 <= j < |r| ensures r[j].rec.id != ss[0].rec.id { assert r[j] in r; assert r[j] in ss[1..]; }
    }
  }

  lemma {:induction false} WithoutIdUnique(ss: seq<Scored>, id: Id)
    requires UniqueIds(ss)
    ensures UniqueIds(WithoutId(ss, id))
  {
    if ss != [] {
      WithoutIdUnique(ss[1..], id);
      var r := WithoutId(ss[1..], id);
      forall j | 0 <= j < |r| ensures r[j].rec.id != ss[0].rec.id { assert r[j] in r; assert r[j] in ss[1..]; }
    }
  }

  lemma Begin(c: Config, scored: seq<Scored>)
    requires UniqueIds(scored)
    ensures Standing(c, scored, [], [], OnlyEligible(c, scored))
  {
    OnlyEligibleUnique(c, scored);
  }

  /** Every record that could be taken next is among those that remain. */
  lemma FreeRemains(c: Config, scored: seq<Scored>, entries: seq<Entry>, out: seq<Scored>, remaining: seq<Scored>, s: Scored)
    requires Standing(c, scored, entries, out, remaining)
    requires forall o :: o in remaining && Fits(c, o, entries) ==> Density(c, o, entries) <= Density(c, s, entries)
    ensures Densest(c, scored, entries, s)
  {
    hide Eligible; hide Density; hide Fits; hide Greedy;
  }

  lemma Removed(c: Config, remaining: seq<Scored>, best: Scored)
    requires UniqueIds(remaining) && best in remaining
    ensures UniqueIds(WithoutId(remaining, best.rec.id)) && |WithoutId(remaining, best.rec.id)| < |remaining|
    ensures forall s :: s in WithoutId(remaining, best.rec.id) <==> s in remaining && s != best
  {
    WithoutIdUnique(remaining, best.rec.id);
    var k :| 0 <= k < |remaining| && remaining[k] == best;
    forall s | s in remaining && s.rec.id == best.rec.id ensures s == best {
      var j :| 0 <= j < |remaining| && remaining[j] == s;
    }
  }

  lemma TakeOut(c: Config, scored: seq<Scored>, entries: seq<Entry>, out: seq<Scored>, remaining: seq<Scored>, best: Scored)
    requires Standing(c, scored, entries, out, remaining) && best in remaining && c.exclude && Disputed(best, entries)
    ensures Standing(c, scored, entries, out + [best], WithoutId(remaining, best.rec.id))
    ensures |WithoutId(remaining, best.rec.id)| < |remaining|
  {
    hide Eligible; hide Greedy; hide Disputed; hide Holds; hide UniqueIds;
    Removed(c, remaining, best);
  }

  lemma TakeIn(c: Config, scored: seq<Scored>, entries: seq<Entry>, out: seq<Scored>, remaining: seq<Scored>, e: Entry)
    requires Standing(c, scored, entries, out, remaining) && e.scored in remaining && Fits(c, e.scored, entries) && Rendered(c, entries, e)
    requires !(c.exclude && Disputed(e.scored, entries)) && Densest(c, scored, entries, e.scored)
    ensures Standing(c, scored, entries + [e], out, WithoutId(remaining, e.scored.rec.id))
    ensures |WithoutId(remaining, e.scored.rec.id)| < |remaining|
  {
    hide Eligible; hide Rendered; hide Densest; hide Fits; hide UniqueIds; hide Disputed; hide Holds; hide WithoutId; hide Excluded;
    var all := entries + [e];
    Removed(c, remaining, e.scored);
    GreedyMore(c, scored, entries, e);
    forall s ensures Holds(all, s) <==> Holds(entries, s) || s == e.scored { HoldsMore(entries, e, s); }
    hide Greedy;
    forall s | s in out
      ensures Excluded(c, scored, all, s)
    {
      StillExcluded(c, scored, entries, e, s);
    }
  }

  lemma HoldsMore(entries: seq<Entry>, e: Entry, s: Scored)
    ensures Holds(entries + [e], s) <==> Holds(entries, s) || s == e.scored
  {
    var all := entries + [e];
    assert e in all;
    if Holds(entries, s) {
      var f :| f in entries && f.scored == s;
      assert f in all;
    }
  }

  lemma StillExcluded(c: Config, scored: seq<Scored>, entries: seq<Entry>, e: Entry, s: Scored)
    requires Excluded(c, scored, entries, s) && !(c.exclude && Disputed(e.scored, entries))
    ensures Excluded(c, scored, entries + [e], s)
  {
    hide Eligible; hide Contradicts; hide Holds;
    HoldsMore(entries, e, s);
    var f :| f in entries && Contradicts(s, f.scored);
    assert f in entries + [e];
    assert s != e.scored;
  }

  lemma GreedyMore(c: Config, scored: seq<Scored>, entries: seq<Entry>, e: Entry)
    requires Greedy(c, scored, entries) && e.scored in scored && Eligible(c, e.scored) && !Holds(entries, e.scored)
    requires Fits(c, e.scored, entries) && Rendered(c, entries, e)
    requires !(c.exclude && Disputed(e.scored, entries)) && Densest(c, scored, entries, e.scored)
    ensures Greedy(c, scored, entries + [e])
  {
    hide Eligible; hide Rendered; hide Densest; hide Fits; hide Disputed; hide Holds;
    assert (entries + [e])[..|entries|] == entries;
  }

  lemma Finish(c: Config, scored: seq<Scored>, entries: seq<Entry>, out: seq<Scored>, remaining: seq<Scored>, excluded: seq<Id>)
    requires Standing(c, scored, entries, out, remaining)
    requires forall s :: s in remaining ==> !Fits(c, s, entries)
    requires |excluded| == |out| && forall i :: 0 <= i < |out| ==> excluded[i] == out[i].rec.id
    ensures Greedy(c, scored, entries) && Maximal(c, scored, entries, excluded)
  {
    hide Eligible; hide Greedy; hide Holds; hide Fits; hide Excluded; hide UniqueIds;
    forall s | s in out ensures s.rec.id in excluded {
      var i :| 0 <= i < |out| && out[i] == s;
      assert excluded[i] == s.rec.id;
    }
    forall x | x in excluded
      ensures exists s :: Excluded(c, scored, entries, s) && s.rec.id == x
    {
      var i :| 0 <= i < |excluded| && excluded[i] == x;
      assert out[i] in out;
    }
  }

  /** The record stands at `k`, and no record that fits is as dense before it. */
  predicate IsFirstDensest(c: Config, remaining: seq<Scored>, entries: seq<Entry>, s: Scored, k: nat) {
    k < |remaining| && remaining[k] == s
    && forall j :: 0 <= j < k && Fits(c, remaining[j], entries) ==> Density(c, remaining[j], entries) < Density(c, s, entries)
  }

  lemma FirstDensest(c: Config, remaining: seq<Scored>, entries: seq<Entry>, s: Scored, k: nat)
    requires k < |remaining| && remaining[k] == s
    requires forall j :: 0 <= j < k && Fits(c, remaining[j], entries) ==> Density(c, remaining[j], entries) < Density(c, s, entries)
    ensures IsFirstDensest(c, remaining, entries, s, k)
  {
    hide Density; hide Fits;
  }

  /** The first of the densest candidates that fit; None when none does. */
  method Choose(c: Config, remaining: seq<Scored>, entries: seq<Entry>, used: nat) returns (best: Option<Scored>)
    requires used == Used(entries)
    ensures best.None? ==> forall s :: s in remaining ==> !Fits(c, s, entries)
    ensures best.Some? ==> best.value in remaining && Fits(c, best.value, entries)
    ensures best.Some? ==> forall s :: s in remaining && Fits(c, s, entries) ==> Density(c, s, entries) <= Density(c, best.value, entries)
    ensures best.Some? ==> exists k :: IsFirstDensest(c, remaining, entries, best.value, k)
  {
    hide Density; hide IsFirstDensest;
    best := None;
    ghost var at := 0;
    for i := 0 to |remaining|
      invariant best.None? ==> forall j :: 0 <= j < i ==> !Fits(c, remaining[j], entries)
      invariant best.Some? ==> best.value in remaining && Fits(c, best.value, entries)
      invariant best.Some? ==> forall j :: 0 <= j < i && Fits(c, remaining[j], entries) ==>
                  Density(c, remaining[j], entries) <= Density(c, best.value, entries)
      invariant best.Some? ==> IsFirstDensest(c, remaining, entries, best.value, at)
    {
      var s := remaining[i];
      if used + BaseCost(c, s) > c.budget {
        continue;
      }
      if best.None? || Density(c, s, entries) > Density(c, best.value, entries) {
        best, at := Some(s), i;
        FirstDensest(c, remaining, entries, s, i);
      }
    }
  }

  /** `select_stm`: takes the densest record that fits until none does, and sets aside what disputes an entry. */
  method SelectBundle(c: Config, scored: seq<Scored>) returns (entries: seq<Entry>, excluded: seq<Id>)
    requires UniqueIds(scored)
    ensures Greedy(c, scored, entries) && Maximal(c, scored, entries, excluded)
  {
    hide *;
    var remaining := OnlyEligible(c, scored);
    var used := 0;
    entries, excluded := [], [];
    ghost var out: seq<Scored> := [];
    Begin(c, scored);
    NoneUsed();
    while remaining != []
      invariant Standing(c, scored, entries, out, remaining) && used == Used(entries)
      invariant |excluded| == |out| && forall i :: 0 <= i < |out| ==> excluded[i] == out[i].rec.id
      decreases |remaining|
    {
      var best := Choose(c, remaining, entries, used);
      if best.None? {
        break;
      }
      var s := best.value;
      var disputed := AnyContradiction(s, entries);
      if c.exclude && disputed {
        TakeOut(c, scored, entries, out, remaining, s);
        excluded, out := excluded + [s.rec.id], out + [s];
        remaining := WithoutId(remaining, s.rec.id);
        continue;
      }
      var resolution := if s.rec.id in c.sticky then c.sticky[s.rec.id] else Summary;
      if used + Cost(c, s, resolution) > c.budget {
        resolution := Summary;
      }
      var e := Entry(s, resolution, Cost(c, s, resolution));
      RenderedNow(c, entries, used, e);
      FreeRemains(c, scored, entries, out, remaining, s);
      TakeIn(c, scored, entries, out, remaining, e);
      UsedMore(entries, e);
      entries := entries + [e];
      used := used + e.cost;
      remaining := WithoutId(remaining, s.rec.id);
    }
    Finish(c, scored, entries, out, remaining, excluded);
  }

  lemma NoneUsed()
    ensures Used([]) == 0
  {}

  lemma UsedMore(entries: seq<Entry>, e: Entry)
    ensures Used(entries + [e]) == Used(entries) + e.cost
  {
    assert (entries + [e])[..|entries|] == entries;
  }

  lemma RenderedNow(c: Config, entries: seq<Entry>, used: nat, e: Entry)
    requires used == Used(entries) && Fits(c, e.scored, entries) && e.cost == Cost(c, e.scored, e.resolution)
    requires var wanted := if e.scored.rec.id in c.sticky then c.sticky[e.scored.rec.id] else Summary;
      e.resolution == if used + Cost(c, e.scored, wanted) > c.budget then Summary else wanted
    ensures Rendered(c, entries, e)
  {}

  method AnyContradiction(s: Scored, entries: seq<Entry>) returns (found: bool)
    ensures found == Disputed(s, entries)
  {
    found := false;
    for i := 0 to |entries|
      invariant !found && forall j :: 0 <= j < i ==> !Contradicts(s, entries[j].scored)
    {
      if Contradicts(s, entries[i].scored) {
        assert entries[i] in entries;
        return true;
      }
    }
  }
}
