/** Graph expansion of scored records (`apply_graph_expansion`): bonds, seeds, and boosts. */
module Expansion {
  import opened Options
  import opened Order
  import opened StrongestPath

  // ----- the graph of the scored records

  /** `subject == ""` when there is none; `cites` are the record ids that the evidence references name. */
  datatype Record = Record(id: Id, subject: string, tags: set<string>, supersedes: Option<Id>, cites: set<Id>)

  ghost predicate Indexed(recs: map<Id, Record>) {
    forall a :: a in recs ==> recs[a].id == a
  }

  /** `bond_strength`, without its rounding. */
  function BondStrength(a: Record, b: Record): real {
    if a.id == b.id then 0.0
    else
      var shared := if a.subject != "" && a.subject == b.subject then 0.6 else 0.0;
      var bond := if a.tags + b.tags != {} then shared + 0.4 * (|a.tags * b.tags| as real / |a.tags + b.tags| as real) else shared;
      if bond < 1.0 then bond else 1.0
  }

  predicate Names(r: Record, id: Id) {
    r.supersedes == Some(id)
  }

  /** The weight `add_explicit` leaves between two different known records. */
  function Explicit(a: Record, b: Record): real {
    if a.id == b.id then 0.0
    else if Names(a, b.id) || Names(b, a.id) then 1.0
    else if b.id in a.cites || a.id in b.cites then 0.9
    else 0.0
  }

  function EdgeWeight(a: Record, b: Record): real {
    if Explicit(a, b) > BondStrength(a, b) then Explicit(a, b) else BondStrength(a, b)
  }

  /** What the subject index, the tag index and the explicit edges offer for a record. */
  predicate Candidate(a: Record, b: Record, fold: string -> string) {
    a.id != b.id && (
      || Explicit(a, b) > 0.0
      || (a.subject != "" && b.subject != "" && fold(a.subject) == fold(b.subject))
      || (exists s, t :: s in a.tags && t in b.tags && fold(s) == fold(t)))
  }

  function Neighbors(recs: map<Id, Record>, a: Record, minEdge: real, fold: string -> string): map<Id, real> {
    map b | b in recs && Candidate(a, recs[b], fold) && EdgeWeight(a, recs[b]) >= minEdge :: EdgeWeight(a, recs[b])
  }

  function GraphOf(recs: map<Id, Record>, minEdge: real, fold: string -> string): Graph {
    Graph(map a | a in recs :: Neighbors(recs, recs[a], minEdge, fold))
  }

  lemma BondBounds(a: Record, b: Record)
    ensures 0.0 <= BondStrength(a, b) <= 1.0
    ensures BondStrength(a, b) == BondStrength(b, a)
  {
    var i, u := a.tags * b.tags, a.tags + b.tags;
    CardinalityMono(i, u);
    assert b.tags * a.tags == i && b.tags + a.tags == u;
    if u != {} {
      assert |u| > 0;
      assert 0.0 <= |i| as real / |u| as real <= 1.0;
    }
  }

  /** A shared subject is worth more than any overlap of tags; with the subject equal or not, more of the
      tags in common is worth more; the full bond needs the subject and all tags, and none is left without
      either in common. */
  lemma BondRanks(a: Record, b: Record, c: Record)
    requires a.id != b.id && a.id != c.id
    ensures var shares, has := a.subject != "" && a.subject == b.subject, a.subject != "" && a.subject == c.subject;
      && (shares && !has ==> BondStrength(a, c) < BondStrength(a, b))
      && (shares ==> BondStrength(a, b) >= 0.6) && (!shares ==> BondStrength(a, b) <= 0.4)
      && (BondStrength(a, b) == 1.0 <==> shares && a.tags == b.tags != {})
      && (BondStrength(a, b) == 0.0 <==> !shares && a.tags * b.tags == {})
      && (shares == has && a.tags + b.tags != {} && a.tags + c.tags != {} ==>
            (BondStrength(a, b) < BondStrength(a, c) <==> |a.tags * b.tags| * |a.tags + c.tags| < |a.tags * c.tags| * |a.tags + b.tags|))
  {
    hide BondStrength;
    BondOf(a, b);
    BondOf(a, c);
    OverlapBounds(a.tags, b.tags);
    OverlapBounds(a.tags, c.tags);
    if a.tags + b.tags != {} && a.tags + c.tags != {} { OverlapOrder(a.tags, b.tags, c.tags); }
  }

  /** The share of the tags of two records that both have. */
  function Overlap(s: set<string>, t: set<string>): real {
    if s + t == {} then 0.0 else |s * t| as real / |s + t| as real
  }

  lemma BondOf(a: Record, b: Record)
    requires a.id != b.id
    ensures BondStrength(a, b) == (if a.subject != "" && a.subject == b.subject then 0.6 else 0.0) + 0.4 * Overlap(a.tags, b.tags)
  {
    OverlapBounds(a.tags, b.tags);
  }

  lemma OverlapBounds(s: set<string>, t: set<string>)
    ensures 0.0 <= Overlap(s, t) <= 1.0
    ensures Overlap(s, t) == 1.0 <==> s == t != {}
    ensures Overlap(s, t) == 0.0 <==> s * t == {}
  {
    var i, u := s * t, s + t;
    if u != {} {
      CardinalityMono(i, u);
      RatioBounds(|i|, |u|);
      if |i| == |u| { SameSize(i, u); }
      if s == t { assert i == u; }
    }
  }

  lemma RatioBounds(m: nat, n: nat)
    requires m <= n && n > 0
    ensures var q := m as real / n as real; 0.0 <= q <= 1.0 && (q == 1.0 <==> m == n) && (q == 0.0 <==> m == 0)
  {
    var q := m as real / n as real;
    assert q * n as real == m as real;
  }

  lemma SameSize(i: set<string>, u: set<string>)
    requires i <= u && |i| == |u|
    ensures i == u
  {
    if x :| x in u && x !in i {
      CardinalityMono(i + {x}, u);
    }
  }

  lemma OverlapOrder(s: set<string>, t: set<string>, u: set<string>)
    requires s + t != {} && s + u != {}
    ensures Overlap(s, t) < Overlap(s, u) <==> |s * t| * |s + u| < |s * u| * |s + t|
  {
    RatioLess(|s * t|, |s + t|, |s * u|, |s + u|);
  }

  lemma RatioLess(a: nat, m: nat, b: nat, n: nat)
    requires m > 0 && n > 0
    ensures a as real / m as real < b as real / n as real <==> a * n < b * m
  {
    var x, y := a as real / m as real, b as real / n as real;
    assert x * m as real == a as real && y * n as real == b as real;
    var mn := m as real * n as real;
    assert x * mn == a as real * n as real == (a * n) as real;
    assert y * mn == b as real * m as real == (b * m) as real;
    assert mn > 0.0;
    assert x < y <==> x * mn < y * mn;
  }

  /** A supersedes link, in either direction, has the full weight; a citation, in either direction, at least
      0.9, and the full weight only with a full bond; any other edge has the weight of its bond. */
  lemma EdgeRanks(a: Record, b: Record)
    requires a.id != b.id
    ensures a.supersedes == Some(b.id) || b.supersedes == Some(a.id) ==> EdgeWeight(a, b) == 1.0
    ensures a.supersedes != Some(b.id) && b.supersedes != Some(a.id) ==>
              if b.id in a.cites || a.id in b.cites then EdgeWeight(a, b) >= 0.9 && (EdgeWeight(a, b) > 0.9 ==> EdgeWeight(a, b) == BondStrength(a, b))
              else EdgeWeight(a, b) == BondStrength(a, b)
  {
    BondBounds(a, b);
    hide BondStrength;
  }

  /** The indexes only pre-select: no bond of positive weight is lost by them. */
  lemma EveryBondListed(recs: map<Id, Record>, a: Id, b: Id, minEdge: real, fold: string -> string)
    requires Indexed(recs) && a in recs && b in recs && a != b
    requires EdgeWeight(recs[a], recs[b]) > 0.0
    ensures b in GraphOf(recs, minEdge, fold).adj[a] <==> EdgeWeight(recs[a], recs[b]) >= minEdge
    ensures b in GraphOf(recs, minEdge, fold).adj[a] ==> GraphOf(recs, minEdge, fold).adj[a][b] == EdgeWeight(recs[a], recs[b])
  {
    var x, y := recs[a], recs[b];
    if Explicit(x, y) <= 0.0 && !(x.subject != "" && x.subject == y.subject) {
      if x.tags * y.tags == {} { assert false; }
      var t :| t in x.tags * y.tags;
      assert fold(t) == fold(t);
    }
  }

  lemma GraphOfValid(recs: map<Id, Record>, minEdge: real, fold: string -> string)
    requires Indexed(recs)
    ensures ValidGraph(GraphOf(recs, minEdge, fold))
  {
    var g := GraphOf(recs, minEdge, fold);
    forall a | a in g.adj
      ensures Row(g, a)
    {
      forall b | b in g.adj[a]
        ensures b in g.adj && b != a && 0.0 <= g.adj[a][b] <= 1.0
      {
        BondBounds(recs[a], recs[b]);
      }
    }
  }

  lemma GraphKeys(recs: map<Id, Record>, minEdge: real, fold: string -> string)
    ensures GraphOf(recs, minEdge, fold).adj.Keys == recs.Keys && |GraphOf(recs, minEdge, fold).adj| == |recs|
  {
    var g := GraphOf(recs, minEdge, fold);
    assert g.adj.Keys == recs.Keys;
    assert |g.adj| == |g.adj.Keys| && |recs| == |recs.Keys|;
  }

  // ----- the whole expansion

  datatype Activation = Activation(A: real, baseA: real, P: real, graphBoost: real, hops: nat, seed: Option<Id>, path: seq<Id>)

  datatype Scored = Scored(rec: Record, act: Activation)

  ghost predicate UniqueIds(scored: seq<Scored>) {
    forall i, j :: 0 <= i < j < |scored| ==> scored[i].rec.id != scored[j].rec.id
  }

  /** Freshly activated records: nothing has been boosted yet. */
  ghost predicate Unboosted(scored: seq<Scored>) {
    forall i :: 0 <= i < |scored| ==> scored[i].act.A == scored[i].act.baseA && scored[i].act.hops == 0
  }

  function RecordMap(scored: seq<Scored>): (m: map<Id, Record>)
    ensures forall x :: x in m <==> exists i :: 0 <= i < |scored| && scored[i].rec.id == x
    ensures Indexed(m)
  {
    if scored == [] then map[]
    else
      var n := |scored| - 1;
      assert scored == scored[..n] + [scored[n]];
      RecordMap(scored[..n])[scored[n].rec.id := scored[n].rec]
  }

  /** By its id every scored record is found as it is. */
  lemma {:induction false} RecordMapHolds(scored: seq<Scored>, i: nat)
    requires UniqueIds(scored) && i < |scored|
    ensures RecordMap(scored)[scored[i].rec.id] == scored[i].rec
  {
    var n := |scored| - 1;
    if i < n {
      RecordMapHolds(scored[..n], i);
      assert scored[..n][i] == scored[i] && scored[i].rec.id != scored[n].rec.id;
    }
  }

  /** Sort key (-A, id). */
  predicate SeedOrder(x: Scored, y: Scored) {
    x.act.A > y.act.A || (x.act.A == y.act.A && !Before(y.rec.id, x.rec.id))
  }

  function Eligible(scored: seq<Scored>): (r: seq<Scored>)
    ensures forall x :: x in r <==> x in scored && x.act.P > 0.0 && x.act.A > 0.0
  {
    if scored == [] then []
    else
      assert scored == [scored[0]] + scored[1..];
      var rest := Eligible(scored[1..]);
      if scored[0].act.P > 0.0 && scored[0].act.A > 0.0 then [scored[0]] + rest else rest
  }

  function Seeds(scored: seq<Scored>, limit: nat): seq<Scored> {
    var all := Eligible(StableSort(scored, SeedOrder));
    if |all| <= limit then all else all[..limit]
  }

  /** `seed_br.base_A * graph_weight` for each seed. */
  function Gains(seeds: seq<Scored>, graphWeight: real): (m: map<Id, real>)
    ensures forall x :: x in m <==> exists i :: 0 <= i < |seeds| && seeds[i].rec.id == x
  {
    if seeds == [] then map[]
    else
      var n := |seeds| - 1;
      assert seeds == seeds[..n] + [seeds[n]];
      Gains(seeds[..n], graphWeight)[seeds[n].rec.id := seeds[n].act.baseA * graphWeight]
  }

  function BoostedCount(expanded: seq<Scored>): nat {
    if expanded == [] then 0
    else BoostedCount(expanded[..|expanded| - 1]) + (if expanded[|expanded| - 1].act.hops > 0 then 1 else 0)
  }

  /** What an expanded record says about itself. */
  ghost predicate Explains(g: Graph, cfg: Config, gains: map<Id, real>, before: Scored, after: Scored) {
    && after.rec == before.rec && after.act.baseA == before.act.baseA && after.act.P == before.act.P
    && if after.act.hops == 0 then after == before
       else
         && after.act.seed.Some?
         && SoundUpdate(g, cfg, gains, after.rec.id, Update(after.act.graphBoost, after.act.hops, after.act.seed.value, after.act.path))
         && after.act.A == after.act.baseA + after.act.graphBoost
  }

  /** No seed reaches the record more strongly along any walk of 1 to `maxDepth` edges; a record
      without a boost is reached by no seed at positive strength. */
  ghost predicate Strongest(g: Graph, cfg: Config, gains: map<Id, real>, after: Scored) {
    forall seed: Id, p: seq<Id> ::
      seed in gains && |p| > 0 && IsWalk(g, p) && p[0] == seed && p[|p| - 1] == after.rec.id && after.rec.id != seed
      && |p| - 1 <= cfg.maxDepth && 0.0 < Strength(g, cfg.hopDecay, p) ==>
        after.act.hops > 0 && Boost(gains[seed], Strength(g, cfg.hopDecay, p)) <= after.act.graphBoost
  }

  /** Everything an expansion promises: every boost is explained, and none could be stronger unless the node
      cap is met by fewer records than there are. */
  ghost predicate ExpandedFrom(scored: seq<Scored>, cfg: Config, graphWeight: real, fold: string -> string, expanded: seq<Scored>, count: nat) {
    var g := GraphOf(RecordMap(scored), cfg.minEdge, fold);
    var gains := Gains(Seeds(scored, cfg.seedLimit), graphWeight);
    && |expanded| == |scored| && count == BoostedCount(expanded) && count <= cfg.maxNodes
    && (forall i :: 0 <= i < |scored| ==> Explains(g, cfg, gains, scored[i], expanded[i]))
    && (cfg.enabled && 0.0 < graphWeight && 2 <= |scored| && (|scored| <= cfg.maxNodes || count < cfg.maxNodes) ==>
          forall i :: 0 <= i < |scored| ==> Strongest(g, cfg, gains, expanded[i]))
  }

  method ApplyGraphExpansion(scored: seq<Scored>, cfg: Config, graphWeight: real, fold: string -> string)
    returns (expanded: seq<Scored>, count: nat)
    requires ValidConfig(cfg) && UniqueIds(scored) && Unboosted(scored)
    ensures !cfg.enabled || graphWeight <= 0.0 || |scored| < 2 ==> expanded == scored && count == 0
    ensures ExpandedFrom(scored, cfg, graphWeight, fold, expanded, count)
  {
    hide *;
    if !cfg.enabled || graphWeight <= 0.0 || |scored| < 2 {
      NothingExpanded(scored, cfg, graphWeight, fold);
      return scored, 0;
    }
    var g := GraphOf(RecordMap(scored), cfg.minEdge, fold);
    var seeds := Seeds(scored, cfg.seedLimit);
    var gains := Gains(seeds, graphWeight);
    GraphOfValid(RecordMap(scored), cfg.minEdge, fold);
    SeedsKnown(scored, cfg.seedLimit, graphWeight);
    var updates: map<Id, Update> := map[];
    NoUpdates(g, cfg, gains, seeds);
    for k := 0 to |seeds|
      invariant SoundUpdates(g, cfg, gains, updates) && |updates| <= cfg.maxNodes
      invariant Uncapped(g, cfg, updates) ==> CoversFirst(g, cfg, gains, seeds, k, updates)
    {
      ghost var before := updates;
      SeedKnown(scored, cfg, graphWeight, fold, k);
      updates := ExpandSeed(g, cfg, gains, seeds[k].rec.id, updates);
      StillUncapped(g, cfg, before, updates);
      if Uncapped(g, cfg, updates) {
        OneMoreCovered(g, cfg, gains, seeds, k, before, updates);
      }
    }
    expanded := seq(|scored|, i requires 0 <= i < |scored| => Applied(scored[i], updates));
    count := |updates|;
    Concluded(scored, cfg, graphWeight, fold, updates, expanded);
  }

  lemma StillUncapped(g: Graph, cfg: Config, u: map<Id, Update>, v: map<Id, Update>)
    requires Grown(u, v)
    ensures Uncapped(g, cfg, v) ==> Uncapped(g, cfg, u)
  {
    CardinalityMono(u.Keys, v.Keys);
  }

  /** The first `k` seeds' searches are accounted for. */
  ghost predicate CoversFirst(g: Graph, cfg: Config, gains: map<Id, real>, seeds: seq<Scored>, k: nat, updates: map<Id, Update>) {
    forall i :: 0 <= i < k && i < |seeds| ==> seeds[i].rec.id in gains && Covers(g, cfg, seeds[i].rec.id, gains[seeds[i].rec.id], updates)
  }

  lemma OneMoreCovered(g: Graph, cfg: Config, gains: map<Id, real>, seeds: seq<Scored>, k: nat, before: map<Id, Update>, updates: map<Id, Update>)
    requires k < |seeds| && CoversFirst(g, cfg, gains, seeds, k, before) && Grown(before, updates)
    requires seeds[k].rec.id in gains && Covers(g, cfg, seeds[k].rec.id, gains[seeds[k].rec.id], updates)
    ensures CoversFirst(g, cfg, gains, seeds, k + 1, updates)
  {
    forall i | 0 <= i < k
      ensures seeds[i].rec.id in gains && Covers(g, cfg, seeds[i].rec.id, gains[seeds[i].rec.id], updates)
    {
      CoversGrown(g, cfg, seeds[i].rec.id, gains[seeds[i].rec.id], before, updates);
    }
  }

  lemma NothingExpanded(scored: seq<Scored>, cfg: Config, graphWeight: real, fold: string -> string)
    requires Unboosted(scored) && (!cfg.enabled || graphWeight <= 0.0 || |scored| < 2)
    ensures ExpandedFrom(scored, cfg, graphWeight, fold, scored, 0)
  {
    NoneBoosted(scored);
  }

  lemma {:induction false} NoneBoosted(scored: seq<Scored>)
    requires Unboosted(scored)
    ensures BoostedCount(scored) == 0
  {
    if scored != [] {
      NoneBoosted(scored[..|scored| - 1]);
    }
  }

  function Applied(s: Scored, updates: map<Id, Update>): Scored {
    if s.rec.id !in updates then s
    else
      var u := updates[s.rec.id];
      s.(act := s.act.(A := s.act.baseA + u.boost, graphBoost := u.boost, hops := u.hops, seed := Some(u.seed), path := u.path))
  }

  lemma NoUpdates(g: Graph, cfg: Config, gains: map<Id, real>, seeds: seq<Scored>)
    ensures SoundUpdates(g, cfg, gains, map[]) && CoversFirst(g, cfg, gains, seeds, 0, map[])
  {}

  lemma CoversGrown(g: Graph, cfg: Config, seed: Id, gain: real, u: map<Id, Update>, v: map<Id, Update>)
    requires Covers(g, cfg, seed, gain, u) && Grown(u, v)
    ensures Covers(g, cfg, seed, gain, v)
  {
    hide IsWalk; hide Strength; hide Boost;
  }

  lemma RecordMapSize(scored: seq<Scored>)
    ensures |RecordMap(scored)| <= |scored|
  {
    if scored != [] {
      var n := |scored| - 1;
      RecordMapSize(scored[..n]);
      assert RecordMap(scored).Keys == RecordMap(scored[..n]).Keys + {scored[n].rec.id};
    }
  }

  lemma SeedMember(scored: seq<Scored>, limit: nat, s: Scored)
    requires s in Seeds(scored, limit)
    ensures s in scored && s.act.P > 0.0 && s.act.A > 0.0
  {
    var sorted := StableSort(scored, SeedOrder);
    assert s in Eligible(sorted);
    SameMembers(scored, SeedOrder);
  }

  lemma {:induction false} GainPositive(seeds: seq<Scored>, graphWeight: real, x: Id)
    requires x in Gains(seeds, graphWeight) && graphWeight > 0.0
    requires forall s :: s in seeds ==> s.act.baseA > 0.0
    ensures Gains(seeds, graphWeight)[x] > 0.0
  {
    var n := |seeds| - 1;
    assert seeds[n] in seeds;
    if x != seeds[n].rec.id {
      GainPositive(seeds[..n], graphWeight, x);
    }
  }

  /** Seeds are known records and their gains are positive. */
  lemma SeedsKnown(scored: seq<Scored>, limit: nat, graphWeight: real)
    requires Unboosted(scored) && graphWeight > 0.0
    ensures forall s :: s in Seeds(scored, limit) ==> s.rec.id in RecordMap(scored)
    ensures forall x :: x in Gains(Seeds(scored, limit), graphWeight) ==> Gains(Seeds(scored, limit), graphWeight)[x] > 0.0
  {
    var seeds := Seeds(scored, limit);
    forall s | s in seeds
      ensures s.rec.id in RecordMap(scored) && s.act.baseA > 0.0
    {
      SeedMember(scored, limit, s);
      var i :| 0 <= i < |scored| && scored[i] == s;
      assert scored[i].rec.id == s.rec.id;
    }
    forall x | x in Gains(seeds, graphWeight)
      ensures Gains(seeds, graphWeight)[x] > 0.0
    {
      GainPositive(seeds, graphWeight, x);
    }
  }

  lemma SeedKnown(scored: seq<Scored>, cfg: Config, graphWeight: real, fold: string -> string, k: nat)
    requires Unboosted(scored) && graphWeight > 0.0 && k < |Seeds(scored, cfg.seedLimit)|
    ensures var x := Seeds(scored, cfg.seedLimit)[k].rec.id; var gains := Gains(Seeds(scored, cfg.seedLimit), graphWeight);
      x in GraphOf(RecordMap(scored), cfg.minEdge, fold).adj && x in gains && 0.0 < gains[x]
  {
    var seeds := Seeds(scored, cfg.seedLimit);
    SeedsKnown(scored, cfg.seedLimit, graphWeight);
    GraphKeys(RecordMap(scored), cfg.minEdge, fold);
    assert seeds[k] in seeds;
  }

  lemma NotCapped(scored: seq<Scored>, cfg: Config, fold: string -> string, updates: map<Id, Update>)
    ensures |scored| <= cfg.maxNodes || |updates| < cfg.maxNodes ==> Uncapped(GraphOf(RecordMap(scored), cfg.minEdge, fold), cfg, updates)
  {
    hide RecordMap; hide GraphOf;
    GraphKeys(RecordMap(scored), cfg.minEdge, fold);
    RecordMapSize(scored);
  }

  lemma Concluded(scored: seq<Scored>, cfg: Config, graphWeight: real, fold: string -> string, updates: map<Id, Update>, expanded: seq<Scored>)
    requires UniqueIds(scored) && Unboosted(scored) && |updates| <= cfg.maxNodes
    requires |expanded| == |scored| && forall i :: 0 <= i < |scored| ==> expanded[i] == Applied(scored[i], updates)
    requires var g := GraphOf(RecordMap(scored), cfg.minEdge, fold); var seeds := Seeds(scored, cfg.seedLimit);
      var gains := Gains(seeds, graphWeight);
      && SoundUpdates(g, cfg, gains, updates)
      && (Uncapped(g, cfg, updates) ==> CoversFirst(g, cfg, gains, seeds, |seeds|, updates))
    ensures ExpandedFrom(scored, cfg, graphWeight, fold, expanded, |updates|)
  {
    var g := GraphOf(RecordMap(scored), cfg.minEdge, fold);
    var seeds := Seeds(scored, cfg.seedLimit);
    var gains := Gains(seeds, graphWeight);
    hide *;
    GraphKeys(RecordMap(scored), cfg.minEdge, fold);
    NotCapped(scored, cfg, fold, updates);
    ExplainsAll(g, cfg, gains, scored, updates, expanded);
    if |scored| <= cfg.maxNodes || |updates| < cfg.maxNodes {
      StrongestAll(g, cfg, gains, scored, seeds, updates, expanded);
    }
    CountBoosted(scored, updates, expanded);
    assert updates.Keys * RecordMap(scored).Keys == updates.Keys;
    Assembled(scored, cfg, graphWeight, fold, expanded, |updates|);
  }

  lemma Assembled(scored: seq<Scored>, cfg: Config, graphWeight: real, fold: string -> string, expanded: seq<Scored>, count: nat)
    requires |expanded| == |scored| && count == BoostedCount(expanded) && count <= cfg.maxNodes
    requires var g := GraphOf(RecordMap(scored), cfg.minEdge, fold); var gains := Gains(Seeds(scored, cfg.seedLimit), graphWeight);
      && (forall i :: 0 <= i < |scored| ==> Explains(g, cfg, gains, scored[i], expanded[i]))
      && (|scored| <= cfg.maxNodes || count < cfg.maxNodes ==> forall i :: 0 <= i < |scored| ==> Strongest(g, cfg, gains, expanded[i]))
    ensures ExpandedFrom(scored, cfg, graphWeight, fold, expanded, count)
  {
    hide GraphOf; hide RecordMap; hide Seeds; hide Gains; hide Explains; hide Strongest; hide BoostedCount;
  }

  lemma ExplainsAll(g: Graph, cfg: Config, gains: map<Id, real>, scored: seq<Scored>, updates: map<Id, Update>, expanded: seq<Scored>)
    requires Unboosted(scored) && SoundUpdates(g, cfg, gains, updates)
    requires |expanded| == |scored| && forall i :: 0 <= i < |scored| ==> expanded[i] == Applied(scored[i], updates)
    ensures forall i :: 0 <= i < |scored| ==> Explains(g, cfg, gains, scored[i], expanded[i])
    ensures forall i :: 0 <= i < |scored| ==> (expanded[i].act.hops > 0 <==> scored[i].rec.id in updates)
    ensures updates.Keys <= g.adj.Keys
  {
    hide IsWalk; hide Strength; hide Boost; hide Simple;
    forall x | x in updates ensures x in g.adj { assert SoundUpdate(g, cfg, gains, x, updates[x]); }
    forall i | 0 <= i < |scored|
      ensures Explains(g, cfg, gains, scored[i], expanded[i])
      ensures expanded[i].act.hops > 0 <==> scored[i].rec.id in updates
    {
      if scored[i].rec.id in updates {
        assert SoundUpdate(g, cfg, gains, scored[i].rec.id, updates[scored[i].rec.id]);
      }
    }
  }

  lemma StrongestAll(g: Graph, cfg: Config, gains: map<Id, real>, scored: seq<Scored>, seeds: seq<Scored>, updates: map<Id, Update>, expanded: seq<Scored>)
    requires SoundUpdates(g, cfg, gains, updates) && CoversFirst(g, cfg, gains, seeds, |seeds|, updates)
    requires forall x :: x in gains <==> exists i :: 0 <= i < |seeds| && seeds[i].rec.id == x
    requires |expanded| == |scored| && forall i :: 0 <= i < |scored| ==> expanded[i] == Applied(scored[i], updates)
    ensures forall i :: 0 <= i < |scored| ==> Strongest(g, cfg, gains, expanded[i])
  {
    hide Covers; hide Strongest; hide SoundUpdates; hide Applied;
    forall seed | seed in gains
      ensures Covers(g, cfg, seed, gains[seed], updates)
    {
      var i :| 0 <= i < |seeds| && seeds[i].rec.id == seed;
    }
    forall i | 0 <= i < |scored|
      ensures Strongest(g, cfg, gains, expanded[i])
    {
      StrongestAt(g, cfg, gains, scored[i], updates);
    }
  }

  lemma StrongestAt(g: Graph, cfg: Config, gains: map<Id, real>, before: Scored, updates: map<Id, Update>)
    requires SoundUpdates(g, cfg, gains, updates)
    requires forall seed :: seed in gains ==> Covers(g, cfg, seed, gains[seed], updates)
    ensures Strongest(g, cfg, gains, Applied(before, updates))
  {
    hide IsWalk; hide Strength; hide Boost; hide Simple;
  }

  lemma LastRecord(scored: seq<Scored>)
    requires UniqueIds(scored) && scored != []
    ensures var n := |scored| - 1; var x := scored[n].rec.id;
      x !in RecordMap(scored[..n]) && RecordMap(scored).Keys == RecordMap(scored[..n]).Keys + {x}
  {}

  lemma {:induction false} CountBoosted(scored: seq<Scored>, updates: map<Id, Update>, expanded: seq<Scored>)
    requires UniqueIds(scored) && |expanded| == |scored|
    requires forall i :: 0 <= i < |scored| ==> (expanded[i].act.hops > 0 <==> scored[i].rec.id in updates)
    ensures |updates.Keys * RecordMap(scored).Keys| == BoostedCount(expanded)
  {
    if scored != [] {
      var n := |scored| - 1;
      CountBoosted(scored[..n], updates, expanded[..n]);
      LastRecord(scored);
      hide RecordMap; hide UniqueIds;
      OneMore(updates.Keys, RecordMap(scored[..n]).Keys, scored[n].rec.id);
    }
  }

  lemma OneMore(u: set<Id>, s: set<Id>, x: Id)
    requires x !in s
    ensures |u * (s + {x})| == |u * s| + (if x in u then 1 else 0)
  {
    if x in u {
      assert u * (s + {x}) == (u * s) + {x};
    } else {
      assert u * (s + {x}) == u * s;
    }
  }

  /** The seeds are the `limit` strongest eligible records, by (-A, id). */
  lemma SeedsAreStrongest(scored: seq<Scored>, limit: nat, s: Scored, t: Scored)
    requires s in Seeds(scored, limit)
    requires t in scored && t.act.P > 0.0 && t.act.A > 0.0 && t !in Seeds(scored, limit)
    ensures s.act.A > t.act.A || (s.act.A == t.act.A && (s.rec.id == t.rec.id || Before(s.rec.id, t.rec.id)))
    ensures |Seeds(scored, limit)| == limit && s in scored && s.act.P > 0.0 && s.act.A > 0.0
  {
    var sorted := StableSort(scored, SeedOrder);
    SameMembers(scored, SeedOrder);
    SeedOrderTotal();
    StableSortSorted(scored, SeedOrder);
    var all := Eligible(sorted);
    EligibleSorted(sorted);
    assert t in all;
    var i :| 0 <= i < |all| && all[i] == t;
    assert i >= limit;
    var j :| 0 <= j < |Seeds(scored, limit)| && Seeds(scored, limit)[j] == s;
    assert all[j] == s;
    TextBeforeTotal(s.rec.id.text, t.rec.id.text);
  }

  lemma SeedOrderTotal()
    ensures TotalPreorder(SeedOrder)
  {
    forall x, y
      ensures SeedOrder(x, y) || SeedOrder(y, x)
    {
      TextBeforeTotal(x.rec.id.text, y.rec.id.text);
    }
    forall x, y, z | SeedOrder(x, y) && SeedOrder(y, z)
      ensures SeedOrder(x, z)
    {
      TextBeforeTotal(x.rec.id.text, y.rec.id.text);
      TextBeforeTotal(y.rec.id.text, z.rec.id.text);
      if Before(z.rec.id, x.rec.id) && !Before(z.rec.id, y.rec.id) && !Before(y.rec.id, x.rec.id) {
        TextBeforeTotal(z.rec.id.text, x.rec.id.text);
        if x.rec.id.text != y.rec.id.text && y.rec.id.text != z.rec.id.text {
          TextBeforeTransitive(x.rec.id.text, y.rec.id.text, z.rec.id.text);
        }
      }
    }
  }

  lemma {:induction false} EligibleSorted(s: seq<Scored>)
    requires SortedBy(s, SeedOrder)
    ensures SortedBy(Eligible(s), SeedOrder)
  {
    if s != [] {
      EligibleSorted(s[1..]);
      var rest := Eligible(s[1..]);
      forall j | 0 <= j < |rest|
        ensures SeedOrder(s[0], rest[j])
      {
        assert rest[j] in s[1..];
      }
    }
  }

  /** No boost exceeds the graph weight times the largest base activation. */
  lemma BoostBounded(scored: seq<Scored>, cfg: Config, graphWeight: real, fold: string -> string, t: Id, u: Update, top: real)
    requires ValidConfig(cfg) && graphWeight > 0.0 && Unboosted(scored)
    requires forall i :: 0 <= i < |scored| ==> scored[i].act.baseA <= top
    requires SoundUpdate(GraphOf(RecordMap(scored), cfg.minEdge, fold), cfg, Gains(Seeds(scored, cfg.seedLimit), graphWeight), t, u)
    ensures u.boost <= graphWeight * top
  {
    var g := GraphOf(RecordMap(scored), cfg.minEdge, fold);
    var seeds := Seeds(scored, cfg.seedLimit);
    GraphOfValid(RecordMap(scored), cfg.minEdge, fold);
    StrengthBounds(g, cfg.hopDecay, u.path);
    SeedsKnown(scored, cfg.seedLimit, graphWeight);
    forall s | s in seeds
      ensures s.act.baseA <= top
    {
      SeedMember(scored, cfg.seedLimit, s);
    }
    GainBounded(seeds, graphWeight, u.seed, top);
    var gain := Gains(seeds, graphWeight)[u.seed];
    BoostMono(gain, Strength(g, cfg.hopDecay, u.path), 1.0);
    assert Boost(gain, 1.0) == gain;
  }

  lemma {:induction false} GainBounded(seeds: seq<Scored>, graphWeight: real, x: Id, top: real)
    requires x in Gains(seeds, graphWeight) && graphWeight > 0.0
    requires forall s :: s in seeds ==> s.act.baseA <= top
    ensures Gains(seeds, graphWeight)[x] <= graphWeight * top
  {
    var n := |seeds| - 1;
    assert seeds[n] in seeds;
    if x != seeds[n].rec.id {
      GainBounded(seeds[..n], graphWeight, x, top);
    }
  }

  // ----- a boost in the terms of the records

  /** The product of the bonds along a path of records. */
  ghost function BondProduct(recs: map<Id, Record>, p: seq<Id>): real
    requires |p| > 0 && forall x :: x in p ==> x in recs
  {
    if |p| == 1 then 1.0 else BondProduct(recs, p[..|p| - 1]) * EdgeWeight(recs[p[|p| - 2]], recs[p[|p| - 1]])
  }

  function Power(x: real, n: nat): real {
    if n == 0 then 1.0 else x * Power(x, n - 1)
  }

  /** The path goes from its record `k - 1` to record `k` over a bond of at least that weight. */
  predicate BondHeld(recs: map<Id, Record>, p: seq<Id>, k: nat, minEdge: real)
    requires 0 < k < |p|
  {
    p[k - 1] in recs && p[k] in recs && EdgeWeight(recs[p[k - 1]], recs[p[k]]) >= minEdge
  }

  lemma {:induction false} WalkBond(recs: map<Id, Record>, minEdge: real, fold: string -> string, p: seq<Id>, k: nat)
    requires IsWalk(GraphOf(recs, minEdge, fold), p) && 0 < k < |p|
    ensures BondHeld(recs, p, k, minEdge)
  {
    hide EdgeWeight; hide Candidate; hide GraphOf;
    if k == |p| - 1 {
      OneBond(recs, minEdge, fold, p[k - 1], p[k]);
    } else {
      WalkBond(recs, minEdge, fold, p[..|p| - 1], k);
    }
  }

  /** A walk stays among the records, over bonds of at least the least weight. */
  lemma WalkBonds(recs: map<Id, Record>, minEdge: real, fold: string -> string, p: seq<Id>)
    requires IsWalk(GraphOf(recs, minEdge, fold), p)
    ensures forall x :: x in p ==> x in recs
    ensures forall k: nat :: 0 < k < |p| ==> BondHeld(recs, p, k, minEdge)
  {
    WalkBegins(recs, minEdge, fold, p);
    hide EdgeWeight; hide GraphOf; hide IsWalk;
    forall k: nat | 0 < k < |p| ensures BondHeld(recs, p, k, minEdge) {
      WalkBond(recs, minEdge, fold, p, k);
    }
    forall i | 0 <= i < |p| ensures p[i] in recs {
      if i > 0 { assert BondHeld(recs, p, i, minEdge); } else if |p| > 1 { assert BondHeld(recs, p, 1, minEdge); }
    }
  }

  lemma WalkBegins(recs: map<Id, Record>, minEdge: real, fold: string -> string, p: seq<Id>)
    requires IsWalk(GraphOf(recs, minEdge, fold), p)
    ensures |p| > 0 && (|p| == 1 ==> p[0] in recs)
  {}

  lemma OneBond(recs: map<Id, Record>, minEdge: real, fold: string -> string, a: Id, b: Id)
    requires Arc(GraphOf(recs, minEdge, fold), a, b)
    ensures a in recs && b in recs && EdgeWeight(recs[a], recs[b]) >= minEdge && recs[a].id != recs[b].id
    ensures GraphOf(recs, minEdge, fold).adj[a][b] == EdgeWeight(recs[a], recs[b])
  {
    hide EdgeWeight;
  }

  lemma TimesDecay(w: real, power: real, e: real, decay: real)
    ensures w * power * e * decay == w * e * (decay * power) && w * 1.0 * e == w * e * 1.0
  {}

  /** The strength of a walk is the product of its bonds, and of the decay for each hop after the first. */
  lemma {:induction false} StrengthIs(recs: map<Id, Record>, minEdge: real, fold: string -> string, decay: real, p: seq<Id>)
    requires IsWalk(GraphOf(recs, minEdge, fold), p) && forall x :: x in p ==> x in recs
    ensures Strength(GraphOf(recs, minEdge, fold), decay, p) == BondProduct(recs, p) * Power(decay, if |p| > 2 then |p| - 2 else 0)
  {
    hide EdgeWeight; hide Candidate; hide GraphOf;
    if |p| > 1 {
      var q := p[..|p| - 1];
      assert p == q + [p[|p| - 1]];
      StrengthIs(recs, minEdge, fold, decay, q);
      OneBond(recs, minEdge, fold, p[|p| - 2], p[|p| - 1]);
      var e := EdgeWeight(recs[p[|p| - 2]], recs[p[|p| - 1]]);
      TimesDecay(BondProduct(recs, q), Power(decay, if |q| > 2 then |q| - 2 else 0), e, decay);
    }
  }

  lemma {:induction false} GainIs(seeds: seq<Scored>, graphWeight: real, x: Id)
    requires x in Gains(seeds, graphWeight)
    ensures exists s :: s in seeds && s.rec.id == x && Gains(seeds, graphWeight)[x] == s.act.baseA * graphWeight
  {
    var n := |seeds| - 1;
    assert seeds[n] in seeds;
    if x != seeds[n].rec.id {
      GainIs(seeds[..n], graphWeight, x);
      var s :| s in seeds[..n] && s.rec.id == x && Gains(seeds[..n], graphWeight)[x] == s.act.baseA * graphWeight;
      assert s in seeds;
    }
  }

  /** Along `p` from `s`: the seed's base activation, weighted, times the bonds and the decay. */
  ghost predicate BoostAlong(scored: seq<Scored>, cfg: Config, graphWeight: real, s: Scored, p: seq<Id>, boost: real) {
    var recs := RecordMap(scored);
    && s in scored && s.act.P > 0.0 && s.act.A > 0.0 && |p| > 1 && p[0] == s.rec.id && (forall x :: x in p ==> x in recs)
    && (forall k: nat :: 0 < k < |p| ==> BondHeld(recs, p, k, cfg.minEdge))
    && boost == s.act.baseA * graphWeight * (BondProduct(recs, p) * Power(cfg.hopDecay, |p| - 2))
  }

  /** A boosted record names a seed and a path of distinct records from it over bonds of at least the least
      weight; its boost is the seed's base activation times the graph weight, the bonds of the path, and the
      decay for each hop after the first, and is added to its own base activation. */
  lemma BoostMeans(scored: seq<Scored>, cfg: Config, graphWeight: real, fold: string -> string, expanded: seq<Scored>, count: nat, i: nat)
    requires ExpandedFrom(scored, cfg, graphWeight, fold, expanded, count) && i < |expanded| && expanded[i].act.hops > 0 && scored[i].act.hops == 0
    ensures var a := expanded[i].act;
      && a.A == scored[i].act.baseA + a.graphBoost && |a.path| == a.hops + 1 && a.hops <= cfg.maxDepth && Simple(a.path)
      && a.path[a.hops] == scored[i].rec.id
      && exists s: Scored :: a.seed == Some(s.rec.id) && BoostAlong(scored, cfg, graphWeight, s, a.path, a.graphBoost)
  {
    hide RecordMap; hide GraphOf; hide Gains; hide Seeds; hide EdgeWeight; hide Strongest; hide Strength; hide IsWalk; hide BoostAlong;
    var g, a := GraphOf(RecordMap(scored), cfg.minEdge, fold), expanded[i].act;
    assert Explains(g, cfg, Gains(Seeds(scored, cfg.seedLimit), graphWeight), scored[i], expanded[i]);
    BoostFrom(scored, cfg, graphWeight, fold, a.path, a.seed.value, a.graphBoost);
  }

  lemma BoostFrom(scored: seq<Scored>, cfg: Config, graphWeight: real, fold: string -> string, path: seq<Id>, seed: Id, boost: real)
    requires var g := GraphOf(RecordMap(scored), cfg.minEdge, fold); var gains := Gains(Seeds(scored, cfg.seedLimit), graphWeight);
      && |path| > 1 && IsWalk(g, path) && path[0] == seed && seed in gains && boost == Boost(gains[seed], Strength(g, cfg.hopDecay, path))
    ensures exists s: Scored :: s.rec.id == seed && BoostAlong(scored, cfg, graphWeight, s, path, boost)
  {
    hide RecordMap; hide GraphOf; hide Gains; hide Seeds; hide EdgeWeight; hide Strength; hide IsWalk; hide Power; hide BondProduct;
    WalkBonds(RecordMap(scored), cfg.minEdge, fold, path);
    StrengthIs(RecordMap(scored), cfg.minEdge, fold, cfg.hopDecay, path);
    GainIs(Seeds(scored, cfg.seedLimit), graphWeight, seed);
    var s :| s in Seeds(scored, cfg.seedLimit) && s.rec.id == seed && Gains(Seeds(scored, cfg.seedLimit), graphWeight)[seed] == s.act.baseA * graphWeight;
    SeedMember(scored, cfg.seedLimit, s);
    NoPower(cfg.hopDecay, |path|);
    assert BoostAlong(scored, cfg, graphWeight, s, path, boost);
  }

  lemma NoPower(decay: real, n: nat)
    requires n > 1
    ensures Power(decay, if n > 2 then n - 2 else 0) == Power(decay, n - 2)
  {}
}
