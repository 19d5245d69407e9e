/** Whether a retrieval has enough independent evidence to answer (`assess_abstention`). */
module Abstention {
  import opened Options
  import opened Order

  /** A scored record: its content hash, empty where there is none; its gate score; its query alignment. */
  datatype Candidate = Candidate(id: Id, sha: string, gate: real, q: real)

  datatype Config = Config(minTop: real, minAlignment: real, minMargin: real, minRelative: real)

  datatype Reason = NoCandidates | ScoreBelowFloor | AlignmentBelowFloor | AmbiguousMargin

  datatype Verdict = Verdict(reason: Option<Reason>, top: Option<real>, runnerUp: Option<real>, margin: Option<real>, relative: Option<real>)

  /** What makes two records one piece of evidence. */
  function Claim(c: Candidate): string {
    if c.sha != "" then c.sha else c.id.text
  }

  // ----- one record per claim

  function Place(best: seq<Candidate>, claim: string): (i: nat)
    ensures i <= |best| && (i < |best| ==> Claim(best[i]) == claim)
    ensures forall j :: 0 <= j < i ==> Claim(best[j]) != claim
  {
    if best == [] || Claim(best[0]) == claim then 0 else 1 + Place(best[1..], claim)
  }

  /** One turn of the loop over the records; `best` is the dictionary in the order of its keys. */
  function Kept(best: seq<Candidate>, c: Candidate): seq<Candidate> {
    var i := Place(best, Claim(c));
    if i == |best| then best + [c] else if c.gate > best[i].gate then best[i := c] else best
  }

  function Best(scored: seq<Candidate>): seq<Candidate> {
    if scored == [] then [] else Kept(Best(scored[..|scored| - 1]), scored[|scored| - 1])
  }

  predicate OnePerClaim(best: seq<Candidate>) {
    forall i, j :: 0 <= i < j < |best| ==> Claim(best[i]) != Claim(best[j])
  }

  /** Every record's claim is there, by a record at least as strong. */
  predicate Stands(best: seq<Candidate>, c: Candidate) {
    exists b :: b in best && Claim(b) == Claim(c) && c.gate <= b.gate
  }

  lemma KeptStands(best: seq<Candidate>, c: Candidate, d: Candidate)
    requires d == c || Stands(best, d)
    ensures Stands(Kept(best, c), d)
  {
    var i, after := Place(best, Claim(c)), Kept(best, c);
    if i < |best| { assert after[i] in after; } else { assert after[|best|] in after; }
    if d != c {
      var b :| b in best && Claim(b) == Claim(d) && d.gate <= b.gate;
      var k :| 0 <= k < |best| && best[k] == b;
      assert after[k] in after;
    }
  }

  lemma {:induction false} BestHolds(scored: seq<Candidate>)
    ensures OnePerClaim(Best(scored))
    ensures forall b :: b in Best(scored) ==> b in scored
    ensures forall c :: c in scored ==> Stands(Best(scored), c)
  {
    hide Claim; hide Stands;
    if scored != [] {
      var earlier, c := scored[..|scored| - 1], scored[|scored| - 1];
      BestHolds(earlier);
      assert scored == earlier + [c];
      forall d | d in scored ensures Stands(Best(scored), d) { KeptStands(Best(earlier), c, d); }
    }
  }

  // ----- the verdict

  /** Sort key (-gate, id). */
  predicate RankOrder(a: Candidate, b: Candidate) {
    a.gate > b.gate || (a.gate == b.gate && !Before(b.id, a.id))
  }

  lemma RankOrderTotal()
    ensures TotalPreorder(RankOrder)
  {
    forall a, b ensures RankOrder(a, b) || RankOrder(b, a) { TextBeforeTotal(a.id.text, b.id.text); }
    forall a, b, c | RankOrder(a, b) && RankOrder(b, c) ensures RankOrder(a, c) {
      TextBeforeTotal(a.id.text, b.id.text);
      TextBeforeTotal(b.id.text, c.id.text);
      TextBeforeTotal(c.id.text, a.id.text);
      if a.id.text != b.id.text && b.id.text != c.id.text && TextBefore(a.id.text, b.id.text) && TextBefore(b.id.text, c.id.text) {
        TextBeforeTransitive(a.id.text, b.id.text, c.id.text);
      }
    }
  }

  function Ranked(scored: seq<Candidate>): seq<Candidate> {
    StableSort(Best(scored), RankOrder)
  }

  function Margin(a: real, b: real): real {
    if a - b > 0.0 then a - b else 0.0
  }

  function Judge(cfg: Config, ranked: seq<Candidate>, enforce: bool): Verdict {
    if ranked == [] then Verdict(if enforce then Some(NoCandidates) else None, None, None, None, None)
    else
      var top := ranked[0];
      var runnerUp := if |ranked| > 1 then Some(ranked[1].gate) else None;
      var margin := if runnerUp.Some? then Margin(top.gate, runnerUp.value) else top.gate;
      var relative := if top.gate > 0.0 then Some(margin / top.gate) else None;
      var reason :=
        if !enforce then None
        else if top.gate < cfg.minTop then Some(ScoreBelowFloor)
        else if top.q < cfg.minAlignment then Some(AlignmentBelowFloor)
        else if runnerUp.Some? && (margin < cfg.minMargin || (relative.Some? && relative.value < cfg.minRelative)) then Some(AmbiguousMargin)
        else None;
      Verdict(reason, Some(top.gate), runnerUp, Some(margin), relative)
  }

  /** `assess_abstention`: the loop keeps the strongest record of every claim, the rest decides. */
  method Assess(cfg: Config, scored: seq<Candidate>, enforce: bool) returns (v: Verdict)
    ensures v == Judge(cfg, Ranked(scored), enforce)
  {
    var best: seq<Candidate> := [];
    assert scored[..0] == [];
    for i := 0 to |scored|
      invariant best == Best(scored[..i])
    {
      assert scored[..i + 1][..i] == scored[..i];
      var at := Place(best, Claim(scored[i]));
      if at == |best| {
        best := best + [scored[i]];
      } else if scored[i].gate > best[at].gate {
        best := best[at := scored[i]];
      }
    }
    assert scored[..|scored|] == scored;
    v := Judge(cfg, StableSort(best, RankOrder), enforce);
  }

  // ----- what the verdict rests on

  /** No record is stronger. */
  predicate IsTop(scored: seq<Candidate>, t: Candidate) {
    t in scored && forall c :: c in scored ==> c.gate <= t.gate
  }

  lemma RankedMeans(scored: seq<Candidate>)
    ensures var r := Ranked(scored);
      && (r == [] <==> scored == []) && OnePerClaim(r) && (forall b :: b in r ==> b in scored) && (forall c :: c in scored ==> Stands(r, c))
      && forall i, j :: 0 <= i < j < |r| ==> r[i].gate >= r[j].gate
  {
    var best, r := Best(scored), Ranked(scored);
    BestHolds(scored);
    RankOrderTotal();
    StableSortSorted(best, RankOrder);
    SameMembers(best, RankOrder);
    hide Best; hide Ranked;
    if scored != [] { assert Stands(best, scored[0]); }
    forall c | c in scored ensures Stands(r, c) {
      var b :| b in best && Claim(b) == Claim(c) && c.gate <= b.gate;
      assert b in r;
    }
    SortedOnePerClaim(best, r);
  }

  lemma SortedOnePerClaim(best: seq<Candidate>, r: seq<Candidate>)
    requires OnePerClaim(best) && multiset(best) == multiset(r)
    ensures OnePerClaim(r)
  {
    hide Claim;
    forall i, j | 0 <= i < j < |r| ensures Claim(r[i]) != Claim(r[j]) {
      assert r[i] in multiset(r) && r[j] in multiset(r);
      assert r[i] in best && r[j] in best;
      if r[i] == r[j] {
        OnceIn(best, r[i]);
        TwiceIn(r, i, j);
      }
    }
  }

  lemma TwiceIn(r: seq<Candidate>, i: nat, j: nat)
    requires i < j < |r| && r[i] == r[j]
    ensures multiset(r)[r[i]] >= 2
  {
    assert r == r[..i] + [r[i]] + r[i + 1..j] + [r[j]] + r[j + 1..];
  }

  lemma {:induction false} OnceIn(best: seq<Candidate>, c: Candidate)
    requires OnePerClaim(best)
    ensures multiset(best)[c] <= 1
  {
    hide Claim;
    if best != [] {
      assert best == [best[0]] + best[1..];
      OnceIn(best[1..], c);
      assert best[0] !in best[1..];
    }
  }

  /** `c` comes within the margin of `t`, or within the share of it. */
  predicate TooClose(cfg: Config, t: real, c: real) {
    t - c < cfg.minMargin || (t > 0.0 && t - c < cfg.minRelative * t)
  }

  /** Some record of another claim comes too close to `t`. */
  predicate Challenged(cfg: Config, scored: seq<Candidate>, t: Candidate) {
    exists c :: c in scored && Claim(c) != Claim(t) && TooClose(cfg, t.gate, c.gate)
  }

  lemma Quotient(m: real, t: real, x: real)
    requires t > 0.0
    ensures m / t < x <==> m < x * t
  {
    var q := m / t;
    assert q * t == m;
    if q < x { Times(q, x, t); } else { Times(x, q, t); }
  }

  lemma Times(a: real, b: real, t: real)
    requires t > 0.0 && a <= b
    ensures a * t <= b * t && (a < b ==> a * t < b * t)
  {}

  lemma MarginCloseIff(cfg: Config, t: real, c: real)
    requires c <= t
    ensures TooClose(cfg, t, c) <==> Margin(t, c) < cfg.minMargin || (t > 0.0 && Margin(t, c) / t < cfg.minRelative)
  {
    if t > 0.0 { Quotient(Margin(t, c), t, cfg.minRelative); }
  }

  lemma CloserStill(cfg: Config, t: real, c: real, d: real)
    requires c <= d && TooClose(cfg, t, c)
    ensures TooClose(cfg, t, d)
  {}

  /** The verdict for a strongest record `t`. */
  function VerdictOn(cfg: Config, scored: seq<Candidate>, t: Candidate, enforce: bool): Option<Reason> {
    if !enforce then None
    else if t.gate < cfg.minTop then Some(ScoreBelowFloor)
    else if t.q < cfg.minAlignment then Some(AlignmentBelowFloor)
    else if Challenged(cfg, scored, t) then Some(AmbiguousMargin)
    else None
  }

  /** The retrieval abstains exactly when there is no record, when the strongest record is too weak or too far
      from the query, or when a record of another claim comes too close to it; never when not enforced.  It
      reports the strongest record of another claim, and the distance.
      Records of one claim never count against each other. */
  lemma AbstainsIff(cfg: Config, scored: seq<Candidate>, enforce: bool)
    ensures var v := Judge(cfg, Ranked(scored), enforce);
      if scored == [] then v.top.None? && (v.reason == if enforce then Some(NoCandidates) else None)
      else exists t :: IsTop(scored, t) && v.top == Some(t.gate) && v.reason == VerdictOn(cfg, scored, t, enforce) && Behind(scored, t, v)
  {
    hide Ranked; hide Claim; hide Challenged; hide Stands; hide TooClose; hide Margin; hide Behind;
    RankedMeans(scored);
    var r := Ranked(scored);
    if scored != [] {
      FirstIsTop(scored, r);
      CloseIff(cfg, scored, r);
      RunnerUpIs(cfg, scored, r, enforce);
      if |r| > 1 { MarginCloseIff(cfg, r[0].gate, r[1].gate); }
      assert Judge(cfg, r, enforce).reason == VerdictOn(cfg, scored, r[0], enforce);
    }
  }

  lemma StandsBelow(r: seq<Candidate>, c: Candidate)
    requires r != [] && Stands(r, c) && forall i, j :: 0 <= i < j < |r| ==> r[i].gate >= r[j].gate
    ensures c.gate <= r[0].gate
    ensures Claim(c) != Claim(r[0]) ==> |r| > 1 && c.gate <= r[1].gate
  {
    hide Claim;
    var b :| b in r && Claim(b) == Claim(c) && c.gate <= b.gate;
    var k :| 0 <= k < |r| && r[k] == b;
  }

  lemma FirstIsTop(scored: seq<Candidate>, r: seq<Candidate>)
    requires r != [] && (forall b :: b in r ==> b in scored) && (forall c :: c in scored ==> Stands(r, c))
    requires forall i, j :: 0 <= i < j < |r| ==> r[i].gate >= r[j].gate
    ensures IsTop(scored, r[0])
  {
    hide Claim; hide Stands;
    assert r[0] in r;
    forall c | c in scored ensures c.gate <= r[0].gate { StandsBelow(r, c); }
  }

  /** The strongest record of another claim, and how far it is behind `t`. */
  predicate Behind(scored: seq<Candidate>, t: Candidate, v: Verdict) {
    match v.runnerUp
    case None => (forall c :: c in scored ==> Claim(c) == Claim(t)) && v.margin == Some(t.gate)
    case Some(x) =>
      && (exists c :: c in scored && Claim(c) != Claim(t) && c.gate == x) && v.margin == Some(t.gate - x)
      && (forall c :: c in scored && Claim(c) != Claim(t) ==> c.gate <= x)
  }

  lemma RunnerUpIs(cfg: Config, scored: seq<Candidate>, r: seq<Candidate>, enforce: bool)
    requires r != [] && OnePerClaim(r) && (forall b :: b in r ==> b in scored) && (forall c :: c in scored ==> Stands(r, c))
    requires forall i, j :: 0 <= i < j < |r| ==> r[i].gate >= r[j].gate
    ensures Behind(scored, r[0], Judge(cfg, r, enforce))
  {
    hide Claim; hide Stands;
    forall c | c in scored && Claim(c) != Claim(r[0]) ensures |r| > 1 && c.gate <= r[1].gate { StandsBelow(r, c); }
    if |r| > 1 { assert r[1] in r && Claim(r[1]) != Claim(r[0]); }
  }

  lemma CloseIff(cfg: Config, scored: seq<Candidate>, r: seq<Candidate>)
    requires r != [] && OnePerClaim(r) && (forall b :: b in r ==> b in scored) && (forall c :: c in scored ==> Stands(r, c))
    requires forall i, j :: 0 <= i < j < |r| ==> r[i].gate >= r[j].gate
    ensures Challenged(cfg, scored, r[0]) <==> |r| > 1 && TooClose(cfg, r[0].gate, r[1].gate)
  {
    hide Claim; hide TooClose; hide Stands;
    var t := r[0];
    if c :| c in scored && Claim(c) != Claim(t) && TooClose(cfg, t.gate, c.gate) {
      StandsBelow(r, c);
      CloserStill(cfg, t.gate, c.gate, r[1].gate);
    }
    if |r| > 1 { assert r[1] in r && Claim(r[1]) != Claim(t); }
  }

  // ----- copies are not evidence

  lemma {:induction false} BestAfter(a: seq<Candidate>, d: Candidate, b: seq<Candidate>)
    requires Best(a + [d]) == Best(a)
    ensures Best(a + [d] + b) == Best(a + b)
  {
    hide Kept;
    if b == [] {
      assert a + [d] + b == a + [d] && a + b == a;
    } else {
      var k := |b| - 1;
      BestAfter(a, d, b[..k]);
      assert (a + [d] + b)[..|a| + 1 + k] == a + [d] + b[..k] && (a + b)[..|a| + k] == a + b[..k];
    }
  }

  /** A record that only says again what a stronger or equal one before it says changes nothing. */
  lemma CopiesUnseen(cfg: Config, a: seq<Candidate>, d: Candidate, b: seq<Candidate>, enforce: bool)
    requires exists c :: c in a && Claim(c) == Claim(d) && d.gate <= c.gate
    ensures Judge(cfg, Ranked(a + [d] + b), enforce) == Judge(cfg, Ranked(a + b), enforce)
  {
    hide Claim; hide Judge; hide Best;
    BestHolds(a);
    var c :| c in a && Claim(c) == Claim(d) && d.gate <= c.gate;
    assert Stands(Best(a), c);
    var o :| o in Best(a) && Claim(o) == Claim(c) && c.gate <= o.gate;
    AlreadyStands(Best(a), d, o);
    BestSnoc(a, d);
    BestAfter(a, d, b);
  }

  lemma BestSnoc(a: seq<Candidate>, d: Candidate)
    ensures Best(a + [d]) == Kept(Best(a), d)
  {
    hide Kept;
    assert (a + [d])[..|a|] == a;
  }

  lemma AlreadyStands(best: seq<Candidate>, d: Candidate, o: Candidate)
    requires OnePerClaim(best) && o in best && Claim(o) == Claim(d) && d.gate <= o.gate
    ensures Kept(best, d) == best
  {
    hide Claim;
    var k :| 0 <= k < |best| && best[k] == o;
    var i := Place(best, Claim(d));
    assert i <= k;
    assert i == k;
  }
}
