/** The queue loop of `apply_graph_expansion`: bounded strongest-path search from one seed, with
    strengths as reals. */
module StrongestPath {
  import opened Order

  // ----- the weighted graph

  /** `adj[a][b]` is the weight of the bond from a to b that `neighbors(a)` lists. */
  datatype Graph = Graph(adj: map<Id, map<Id, real>>)

  ghost predicate Row(g: Graph, a: Id)
    requires a in g.adj
  {
    && (forall b :: b in g.adj[a] ==> b in g.adj && b != a)
    && (forall b :: b in g.adj[a] ==> 0.0 <= g.adj[a][b] <= 1.0)
  }

  ghost predicate ValidGraph(g: Graph) {
    forall a :: a in g.adj ==> Row(g, a)
  }

  datatype Config = Config(enabled: bool, maxDepth: nat, seedLimit: nat, maxNodes: nat, minEdge: real, hopDecay: real)

  ghost predicate ValidConfig(cfg: Config) {
    0.0 <= cfg.hopDecay <= 1.0
  }

  predicate Arc(g: Graph, a: Id, b: Id) {
    a in g.adj && b in g.adj[a]
  }

  ghost predicate IsWalk(g: Graph, p: seq<Id>) {
    if |p| <= 1 then |p| == 1 && p[0] in g.adj
    else IsWalk(g, p[..|p| - 1]) && Arc(g, p[|p| - 2], p[|p| - 1])
  }

  /** One more hop, to depth `depth`: every hop after the first also pays the decay. */
  function Hop(strength: real, weight: real, depth: nat, decay: real): real {
    if depth > 1 then strength * weight * decay else strength * weight
  }

  /** Product of the edge weights of a walk, times `decay` for each hop after the first. */
  ghost function Strength(g: Graph, decay: real, p: seq<Id>): real
    requires IsWalk(g, p)
  {
    if |p| == 1 then 1.0
    else
      var q := p[..|p| - 1];
      Hop(Strength(g, decay, q), g.adj[p[|p| - 2]][p[|p| - 1]], |p| - 1, decay)
  }

  lemma MulMono(a: real, b: real, c: real, d: real)
    requires 0.0 <= a <= b && 0.0 <= c <= d
    ensures 0.0 <= a * c <= b * d
  {
    assert a * c <= b * c;
    assert b * c <= b * d;
  }

  lemma MulShrinks(s: real, w: real)
    requires 0.0 <= s && 0.0 <= w <= 1.0
    ensures 0.0 <= s * w <= s
  {
    MulMono(s, s, w, 1.0);
    assert s * 1.0 == s;
  }

  lemma HopBounds(s: real, w: real, depth: nat, decay: real)
    requires 0.0 <= s && 0.0 <= w <= 1.0 && 0.0 <= decay <= 1.0
    ensures 0.0 <= Hop(s, w, depth, decay) <= s
  {
    MulShrinks(s, w);
    MulShrinks(s * w, decay);
  }

  /** A label that is at least as strong and not deeper stays at least as strong one hop on. */
  lemma HopMono(s: real, t: real, w: real, d: nat, e: nat, decay: real)
    requires 0.0 <= s <= t && 0.0 <= w <= 1.0 && 0.0 <= decay <= 1.0 && d >= e
    ensures Hop(s, w, d, decay) <= Hop(t, w, e, decay)
  {
    MulMono(s, t, w, w);
    MulMono(s * w, t * w, decay, decay);
    MulMono(s * w, t * w, decay, 1.0);
  }

  lemma LastEdge(g: Graph, p: seq<Id>)
    requires ValidGraph(g) && IsWalk(g, p)
    ensures p[|p| - 1] in g.adj
    ensures |p| > 1 ==> 0.0 <= g.adj[p[|p| - 2]][p[|p| - 1]] <= 1.0
  {}

  lemma {:induction false} StrengthBounds(g: Graph, decay: real, p: seq<Id>)
    requires ValidGraph(g) && 0.0 <= decay <= 1.0 && IsWalk(g, p)
    ensures 0.0 <= Strength(g, decay, p) <= 1.0
  {
    if |p| > 1 {
      var q := p[..|p| - 1];
      LastEdge(g, p);
      StrengthBounds(g, decay, q);
      HopBounds(Strength(g, decay, q), g.adj[p[|p| - 2]][p[|p| - 1]], |p| - 1, decay);
    }
  }

  // ----- search labels

  /** A queue entry: (current_id, depth, strength, path). */
  datatype Label = Label(node: Id, depth: nat, strength: real, path: seq<Id>)

  /** What `best_updates` keeps for a record. */
  datatype Update = Update(boost: real, hops: nat, seed: Id, path: seq<Id>)

  ghost predicate Simple(p: seq<Id>) {
    forall i, j :: 0 <= i < j < |p| ==> p[i] != p[j]
  }

  ghost predicate GoodLabel(g: Graph, cfg: Config, seed: Id, l: Label) {
    && IsWalk(g, l.path) && l.path[0] == seed && l.path[|l.path| - 1] == l.node
    && |l.path| == l.depth + 1 && l.depth <= cfg.maxDepth
    && l.strength == Strength(g, cfg.hopDecay, l.path) && 0.0 < l.strength
    && Simple(l.path)
  }

  ghost predicate GoodLabels(g: Graph, cfg: Config, seed: Id, all: seq<Label>) {
    forall i :: 0 <= i < |all| ==> GoodLabel(g, cfg, seed, all[i])
  }

  ghost predicate DepthOrder(all: seq<Label>) {
    forall i, j :: 0 <= i < j < |all| ==> all[i].depth <= all[j].depth
  }

  /** `best_strength` is at least the strength of every label that passes through a record. */
  ghost predicate BestAbove(all: seq<Label>, best: map<Id, real>) {
    forall i, x :: 0 <= i < |all| && x in all[i].path ==> x in best && all[i].strength <= best[x]
  }

  ghost predicate Holds(all: seq<Label>, node: Id, strength: real) {
    exists i :: 0 <= i < |all| && all[i].node == node && all[i].strength == strength
  }

  /** `best_strength` is the strength of some label there. */
  ghost predicate BestHeld(all: seq<Label>, best: map<Id, real>) {
    forall x :: x in best ==> Holds(all, x, best[x])
  }

  /** What one seed's search keeps about all the labels it ever queued and its `best_strength`. */
  ghost predicate Labelled(g: Graph, cfg: Config, seed: Id, all: seq<Label>, best: map<Id, real>) {
    && |all| > 0 && all[0] == Label(seed, 0, 1.0, [seed])
    && GoodLabels(g, cfg, seed, all) && DepthOrder(all) && BestAbove(all, best) && BestHeld(all, best)
  }

  /** First in, first out: the queue never holds labels more than one hop apart. */
  ghost predicate Frontier(all: seq<Label>, h: nat) {
    h < |all| ==> all[|all| - 1].depth <= all[h].depth + 1
  }

  lemma FrontierMoves(g: Graph, cfg: Config, seed: Id, all: seq<Label>, best: map<Id, real>, h: nat)
    requires Labelled(g, cfg, seed, all, best) && 0 < h && Frontier(all, h - 1)
    ensures Frontier(all, h)
  {
    hide GoodLabels; hide BestAbove; hide BestHeld;
  }

  /** Some queued label reaches `node` within `depth` hops at least as strongly. */
  ghost predicate Dominated(all: seq<Label>, node: Id, depth: nat, strength: real) {
    exists i :: 0 <= i < |all| && all[i].node == node && all[i].depth <= depth && strength <= all[i].strength
  }

  ghost predicate EdgeDone(g: Graph, cfg: Config, all: seq<Label>, l: Label, t: Id)
    requires l.node in g.adj && t in g.adj[l.node]
  {
    var s := Hop(l.strength, g.adj[l.node][t], l.depth + 1, cfg.hopDecay);
    0.0 < s ==> Dominated(all, t, l.depth + 1, s)
  }

  ghost predicate LabelDone(g: Graph, cfg: Config, all: seq<Label>, l: Label) {
    l.depth < cfg.maxDepth && l.node in g.adj ==> forall t :: t in g.adj[l.node] ==> EdgeDone(g, cfg, all, l, t)
  }

  ghost predicate DoneBelow(g: Graph, cfg: Config, all: seq<Label>, h: nat)
    requires h <= |all|
  {
    forall i :: 0 <= i < h ==> LabelDone(g, cfg, all, all[i])
  }

  ghost predicate EdgesDone(g: Graph, cfg: Config, all: seq<Label>, l: Label, order: seq<Id>, n: nat)
    requires l.node in g.adj && n <= |order| && forall k :: 0 <= k < |order| ==> order[k] in g.adj[l.node]
  {
    forall k :: 0 <= k < n ==> EdgeDone(g, cfg, all, l, order[k])
  }

  function Boost(gain: real, strength: real): real {
    gain * strength
  }

  lemma BoostMono(gain: real, s: real, t: real)
    requires 0.0 <= gain && s <= t
    ensures Boost(gain, s) <= Boost(gain, t)
  {}

  /** Every label away from the seed has left at least its own boost. */
  ghost predicate Boosted(seed: Id, gain: real, all: seq<Label>, updates: map<Id, Update>) {
    forall i :: 0 <= i < |all| && all[i].node != seed ==>
      all[i].node in updates && Boost(gain, all[i].strength) <= updates[all[i].node].boost
  }

  ghost predicate Grown(u: map<Id, Update>, v: map<Id, Update>) {
    forall x :: x in u ==> x in v && u[x].boost <= v[x].boost
  }

  /** A recorded update is the boost along a real, simple, short enough path from its seed. */
  ghost predicate SoundUpdate(g: Graph, cfg: Config, gains: map<Id, real>, t: Id, u: Update) {
    && t in g.adj && u.seed in gains && u.seed != t
    && IsWalk(g, u.path) && Simple(u.path)
    && u.path[0] == u.seed && u.path[|u.path| - 1] == t
    && |u.path| == u.hops + 1 && 1 <= u.hops <= cfg.maxDepth
    && u.boost == Boost(gains[u.seed], Strength(g, cfg.hopDecay, u.path))
  }

  ghost predicate SoundUpdates(g: Graph, cfg: Config, gains: map<Id, real>, updates: map<Id, Update>) {
    forall t :: t in updates ==> SoundUpdate(g, cfg, gains, t, updates[t])
  }

  /** No walk of at most `maxDepth` hops from `seed` beats what is recorded at its end. */
  ghost predicate Covers(g: Graph, cfg: Config, seed: Id, gain: real, updates: map<Id, Update>) {
    forall p: seq<Id> ::
      |p| > 0 && IsWalk(g, p) && p[0] == seed && p[|p| - 1] != seed && |p| - 1 <= cfg.maxDepth && 0.0 < Strength(g, cfg.hopDecay, p) ==>
        p[|p| - 1] in updates && Boost(gain, Strength(g, cfg.hopDecay, p)) <= updates[p[|p| - 1]].boost
  }

  /** Following an edge from a dominated label arrives at a dominated label. */
  lemma DominatedHop(g: Graph, cfg: Config, all: seq<Label>, from: Id, t: Id, depth: nat, s: real)
    requires ValidGraph(g) && ValidConfig(cfg) && from in g.adj && t in g.adj[from]
    requires DoneBelow(g, cfg, all, |all|)
    requires 0 < depth <= cfg.maxDepth && 0.0 <= s && Dominated(all, from, depth - 1, s)
    requires 0.0 < Hop(s, g.adj[from][t], depth, cfg.hopDecay)
    ensures Dominated(all, t, depth, Hop(s, g.adj[from][t], depth, cfg.hopDecay))
  {
    var i :| 0 <= i < |all| && all[i].node == from && all[i].depth <= depth - 1 && s <= all[i].strength;
    hide Hop;
    HopMono(s, all[i].strength, g.adj[from][t], depth, all[i].depth + 1, cfg.hopDecay);
    assert LabelDone(g, cfg, all, all[i]);
    assert EdgeDone(g, cfg, all, all[i], t);
  }

  /** Pruning loses nothing: once every label has been expanded, every walk is dominated. */
  lemma {:induction false} EveryWalkDominated(g: Graph, cfg: Config, seed: Id, all: seq<Label>, p: seq<Id>)
    requires ValidGraph(g) && ValidConfig(cfg) && |all| > 0 && all[0] == Label(seed, 0, 1.0, [seed])
    requires DoneBelow(g, cfg, all, |all|)
    requires IsWalk(g, p) && p[0] == seed && |p| - 1 <= cfg.maxDepth && 0.0 < Strength(g, cfg.hopDecay, p)
    ensures Dominated(all, p[|p| - 1], |p| - 1, Strength(g, cfg.hopDecay, p))
  {
    if |p| == 1 {
      assert all[0].node == seed;
    } else {
      LastEdge(g, p);
      var q, t := p[..|p| - 1], p[|p| - 1];
      var from := p[|p| - 2];
      var w := g.adj[from][t];
      StrengthBounds(g, cfg.hopDecay, q);
      HopBounds(Strength(g, cfg.hopDecay, q), w, |p| - 1, cfg.hopDecay);
      var sq := Strength(g, cfg.hopDecay, q);
      EveryWalkDominated(g, cfg, seed, all, q);
      assert Dominated(all, from, |q| - 1, sq);
      DominatedHop(g, cfg, all, from, t, |p| - 1, sq);
    }
  }

  lemma SeedCovered(g: Graph, cfg: Config, seed: Id, gain: real, all: seq<Label>, best: map<Id, real>, updates: map<Id, Update>)
    requires ValidGraph(g) && ValidConfig(cfg) && Labelled(g, cfg, seed, all, best) && 0.0 <= gain
    requires DoneBelow(g, cfg, all, |all|) && Boosted(seed, gain, all, updates)
    ensures Covers(g, cfg, seed, gain, updates)
  {
    hide GoodLabels; hide DepthOrder; hide BestAbove; hide BestHeld; hide LabelDone; hide Strength; hide ValidGraph; hide IsWalk; hide Boost; hide DoneBelow;
    forall p: seq<Id> | |p| > 0 && IsWalk(g, p) && p[0] == seed && p[|p| - 1] != seed && |p| - 1 <= cfg.maxDepth && 0.0 < Strength(g, cfg.hopDecay, p)
      ensures p[|p| - 1] in updates && Boost(gain, Strength(g, cfg.hopDecay, p)) <= updates[p[|p| - 1]].boost
    {
      var s := Strength(g, cfg.hopDecay, p);
      EveryWalkDominated(g, cfg, seed, all, p);
      var i :| 0 <= i < |all| && all[i].node == p[|p| - 1] && s <= all[i].strength;
      BoostMono(gain, s, all[i].strength);
    }
  }

  // ----- termination measure of the queue loop

  /** Bound on the labels that a label with `k` hops left can still cause, when no record has more than `n` neighbours. */
  ghost function Work(n: nat, k: nat): nat {
    if k == 0 then 1 else 1 + n * Work(n, k - 1)
  }

  ghost function LabelWork(n: nat, maxDepth: nat, l: Label): nat {
    Work(n, if l.depth <= maxDepth then maxDepth - l.depth else 0)
  }

  ghost function QueueWork(n: nat, maxDepth: nat, queue: seq<Label>): nat {
    if queue == [] then 0
    else
      QueueWork(n, maxDepth, queue[..|queue| - 1]) + LabelWork(n, maxDepth, queue[|queue| - 1])
  }

  lemma {:induction false} QueueWorkPop(n: nat, maxDepth: nat, queue: seq<Label>)
    requires queue != []
    ensures QueueWork(n, maxDepth, queue) == LabelWork(n, maxDepth, queue[0]) + QueueWork(n, maxDepth, queue[1..])
    ensures LabelWork(n, maxDepth, queue[0]) > 0
  {
    if |queue| > 1 {
      QueueWorkPop(n, maxDepth, queue[..|queue| - 1]);
      assert queue[..|queue| - 1][1..] == queue[1..][..|queue[1..]| - 1];
    } else {
      assert queue[1..] == [] && queue[..0] == [];
    }
  }

  lemma QueueWorkPush(n: nat, maxDepth: nat, queue: seq<Label>, l: Label, m: Label)
    requires l.depth < maxDepth && m.depth == l.depth + 1
    ensures QueueWork(n, maxDepth, queue + [m]) == QueueWork(n, maxDepth, queue) + Work(n, maxDepth - l.depth - 1)
  {
    assert (queue + [m])[..|queue|] == queue;
  }

  // ----- one edge

  /** The label that following `t` from `l` would queue. */
  function NextLabel(g: Graph, cfg: Config, l: Label, t: Id): Label
    requires l.node in g.adj && t in g.adj[l.node]
  {
    Label(t, l.depth + 1, Hop(l.strength, g.adj[l.node][t], l.depth + 1, cfg.hopDecay), l.path + [t])
  }

  /** `best_strength.get(t, 0.0)` */
  function BestOf(best: map<Id, real>, t: Id): real {
    if t in best then best[t] else 0.0
  }

  lemma BestPositive(g: Graph, cfg: Config, seed: Id, all: seq<Label>, best: map<Id, real>, x: Id)
    requires GoodLabels(g, cfg, seed, all) && BestHeld(all, best)
    ensures 0.0 <= BestOf(best, x)
  {
    hide IsWalk; hide Strength;
    if x in best {
      var i :| 0 <= i < |all| && all[i].node == x && all[i].strength == best[x];
      assert GoodLabel(g, cfg, seed, all[i]);
    }
  }

  lemma NextLabelGood(g: Graph, cfg: Config, seed: Id, all: seq<Label>, best: map<Id, real>, h: nat, t: Id)
    requires ValidGraph(g) && ValidConfig(cfg) && Labelled(g, cfg, seed, all, best)
    requires h < |all| && all[h].depth < cfg.maxDepth
    requires all[h].node in g.adj && t in g.adj[all[h].node]
    requires BestOf(best, t) < NextLabel(g, cfg, all[h], t).strength
    ensures GoodLabel(g, cfg, seed, NextLabel(g, cfg, all[h], t))
    ensures NextLabel(g, cfg, all[h], t).strength <= all[h].strength
  {
    hide Hop; hide Strength; hide IsWalk;
    var l := all[h];
    assert GoodLabel(g, cfg, seed, l);
    var m := NextLabel(g, cfg, l, t);
    WalkExtends(g, cfg.hopDecay, l.path, t);
    HopBounds(l.strength, g.adj[l.node][t], l.depth + 1, cfg.hopDecay);
    BestPositive(g, cfg, seed, all, best, t);
    if t in l.path { assert false; }
    hide GoodLabels; hide BestAbove; hide BestHeld; hide DepthOrder; hide ValidGraph;
    assert Simple(m.path);
  }

  lemma WalkExtends(g: Graph, decay: real, p: seq<Id>, t: Id)
    requires IsWalk(g, p) && p[|p| - 1] in g.adj && t in g.adj[p[|p| - 1]]
    ensures IsWalk(g, p + [t])
    ensures Strength(g, decay, p + [t]) == Hop(Strength(g, decay, p), g.adj[p[|p| - 1]][t], |p|, decay)
  {
    hide Hop;
    var q := p + [t];
    assert q[..|q| - 1] == p;
  }

  lemma BestQueued(all: seq<Label>, best: map<Id, real>, h: nat, m: Label)
    requires BestAbove(all, best) && BestHeld(all, best)
    requires h < |all| && m.path == all[h].path + [m.node] && m.strength <= all[h].strength
    requires m.node in best ==> best[m.node] < m.strength
    ensures BestAbove(all + [m], best[m.node := m.strength]) && BestHeld(all + [m], best[m.node := m.strength])
  {
    var all', best' := all + [m], best[m.node := m.strength];
    forall i, x | 0 <= i < |all'| && x in all'[i].path
      ensures x in best' && all'[i].strength <= best'[x]
    {
      if i == |all| && x != m.node {
        assert x in all[h].path;
      } else if i < |all| {
        assert x in all[i].path;
      }
    }
    forall x | x in best'
      ensures Holds(all', x, best'[x])
    {
      if x == m.node {
        assert all'[|all|] == m;
      } else {
        var i :| 0 <= i < |all| && all[i].node == x && all[i].strength == best[x];
        assert all'[i] == all[i];
      }
    }
  }

  lemma GoodMore(g: Graph, cfg: Config, seed: Id, all: seq<Label>, m: Label)
    requires GoodLabels(g, cfg, seed, all) && GoodLabel(g, cfg, seed, m)
    ensures GoodLabels(g, cfg, seed, all + [m])
  {
    hide GoodLabel;
  }

  lemma GoodPositive(g: Graph, cfg: Config, seed: Id, m: Label)
    requires GoodLabel(g, cfg, seed, m)
    ensures 0.0 < m.strength
  {}

  lemma DeeperLast(all: seq<Label>, h: nat, m: Label)
    requires DepthOrder(all) && Frontier(all, h) && h < |all| && m.depth == all[h].depth + 1
    ensures DepthOrder(all + [m]) && Frontier(all + [m], h)
  {}

  lemma LabelQueued(g: Graph, cfg: Config, seed: Id, all: seq<Label>, best: map<Id, real>, h: nat, t: Id)
    requires ValidGraph(g) && ValidConfig(cfg) && Labelled(g, cfg, seed, all, best)
    requires h < |all| && all[h].depth < cfg.maxDepth && Frontier(all, h)
    requires all[h].node in g.adj && t in g.adj[all[h].node]
    requires BestOf(best, t) < NextLabel(g, cfg, all[h], t).strength
    ensures var m := NextLabel(g, cfg, all[h], t);
      0.0 < m.strength && m.depth == all[h].depth + 1 && m.node == t
      && Labelled(g, cfg, seed, all + [m], best[t := m.strength]) && Frontier(all + [m], h)
  {
    hide GoodLabel; hide BestAbove; hide BestHeld; hide ValidGraph; hide ValidConfig; hide Hop;
    NextLabelGood(g, cfg, seed, all, best, h, t);
    var m := NextLabel(g, cfg, all[h], t);
    BestQueued(all, best, h, m);
    GoodMore(g, cfg, seed, all, m);
    DeeperLast(all, h, m);
    GoodPositive(g, cfg, seed, m);
  }

  lemma EdgeDoneGrows(g: Graph, cfg: Config, all: seq<Label>, m: Label, l: Label, t: Id)
    requires l.node in g.adj && t in g.adj[l.node] && EdgeDone(g, cfg, all, l, t)
    ensures EdgeDone(g, cfg, all + [m], l, t)
  {
    hide Hop;
    var s := Hop(l.strength, g.adj[l.node][t], l.depth + 1, cfg.hopDecay);
    if 0.0 < s {
      var i :| 0 <= i < |all| && all[i].node == t && all[i].depth <= l.depth + 1 && s <= all[i].strength;
      assert (all + [m])[i] == all[i];
    }
  }

  lemma DoneGrows(g: Graph, cfg: Config, all: seq<Label>, m: Label, h: nat, l: Label, order: seq<Id>, n: nat)
    requires h <= |all| && DoneBelow(g, cfg, all, h)
    requires l.node in g.adj && n <= |order| && forall k :: 0 <= k < |order| ==> order[k] in g.adj[l.node]
    requires EdgesDone(g, cfg, all, l, order, n)
    ensures DoneBelow(g, cfg, all + [m], h) && EdgesDone(g, cfg, all + [m], l, order, n)
  {
    hide EdgeDone;
    forall i | 0 <= i < h
      ensures LabelDone(g, cfg, all + [m], (all + [m])[i])
    {
      assert LabelDone(g, cfg, all, all[i]);
      if all[i].depth < cfg.maxDepth && all[i].node in g.adj {
        forall t | t in g.adj[all[i].node]
          ensures EdgeDone(g, cfg, all + [m], all[i], t)
        {
          EdgeDoneGrows(g, cfg, all, m, all[i], t);
        }
      }
    }
    forall k | 0 <= k < n
      ensures EdgeDone(g, cfg, all + [m], l, order[k])
    {
      assert EdgeDone(g, cfg, all, l, order[k]);
      EdgeDoneGrows(g, cfg, all, m, l, order[k]);
    }
  }

  /** A pruned edge leads nowhere that a queued label does not reach as well. */
  lemma PrunedEdgeDone(g: Graph, cfg: Config, seed: Id, all: seq<Label>, best: map<Id, real>, h: nat, l: Label, t: Id)
    requires Labelled(g, cfg, seed, all, best)
    requires h < |all| && all[h] == l && Frontier(all, h) && l.node in g.adj && t in g.adj[l.node]
    requires NextLabel(g, cfg, l, t).strength <= BestOf(best, t)
    ensures EdgeDone(g, cfg, all, l, t)
  {
    hide GoodLabels; hide BestAbove; hide Hop;
    if t in best {
      var i :| 0 <= i < |all| && all[i].node == t && all[i].strength == best[t];
      assert all[i].depth <= all[|all| - 1].depth;
    }
  }

  /** `best_updates` after a label has been queued, and what that keeps. */
  function Recorded(updates: map<Id, Update>, seed: Id, gain: real, m: Label): map<Id, Update> {
    if m.node != seed && (m.node !in updates || Boost(gain, m.strength) > updates[m.node].boost)
    then updates[m.node := Update(Boost(gain, m.strength), m.depth, seed, m.path)]
    else updates
  }

  lemma RecordedKeeps(g: Graph, cfg: Config, gains: map<Id, real>, seed: Id, all: seq<Label>, updates: map<Id, Update>, m: Label)
    requires ValidGraph(g) && seed in gains && 0.0 <= gains[seed] && SoundUpdates(g, cfg, gains, updates) && Boosted(seed, gains[seed], all, updates)
    requires GoodLabel(g, cfg, seed, m) && m.depth > 0
    requires |updates| <= cfg.maxNodes && (m.node in updates || |updates| < cfg.maxNodes)
    ensures var u := Recorded(updates, seed, gains[seed], m);
      && SoundUpdates(g, cfg, gains, u) && Boosted(seed, gains[seed], all + [m], u) && Grown(updates, u) && |updates| <= |u| <= cfg.maxNodes
  {
    hide IsWalk; hide Strength; hide Boost; hide Simple; hide ValidGraph; hide SoundUpdate;
    var u := Recorded(updates, seed, gains[seed], m);
    if u != updates {
      RecordedSound(g, cfg, gains, seed, m);
      assert u.Keys == updates.Keys + {m.node};
    }
    hide GoodLabel;
    assert Boosted(seed, gains[seed], all + [m], u);
  }

  lemma RecordedSound(g: Graph, cfg: Config, gains: map<Id, real>, seed: Id, m: Label)
    requires ValidGraph(g) && seed in gains && GoodLabel(g, cfg, seed, m) && m.depth > 0 && m.node != seed
    ensures SoundUpdate(g, cfg, gains, m.node, Update(Boost(gains[seed], m.strength), m.depth, seed, m.path))
  {
    LastEdge(g, m.path);
    hide IsWalk; hide Strength; hide ValidGraph; hide Boost; hide Simple;
  }

  lemma ArcTarget(g: Graph, a: Id, b: Id)
    requires ValidGraph(g) && a in g.adj && b in g.adj[a]
    ensures b in g.adj && 0.0 <= g.adj[a][b] <= 1.0
  {
    assert Row(g, a);
  }

  /** The node cap has turned no record away: there are no more records than it allows, or it is not met yet. */
  predicate Uncapped(g: Graph, cfg: Config, updates: map<Id, Update>) {
    |g.adj| <= cfg.maxNodes || |updates| < cfg.maxNodes
  }

  /** Among no more records than the node cap allows, one without an update always finds room. */
  lemma RoomLeft(g: Graph, cfg: Config, gains: map<Id, real>, updates: map<Id, Update>, t: Id)
    requires SoundUpdates(g, cfg, gains, updates) && t in g.adj && t !in updates
    ensures |updates| < |g.adj|
  {
    assert updates.Keys <= g.adj.Keys - {t};
    CardinalityMono(updates.Keys, g.adj.Keys - {t});
  }

  // ----- the loops

  /** Invariant of one seed's search between two labels; `all[..h]` have been expanded. */
  ghost predicate Searching(g: Graph, cfg: Config, gains: map<Id, real>, seed: Id, all: seq<Label>, h: nat,
                            best: map<Id, real>, updates0: map<Id, Update>, updates: map<Id, Update>)
  {
    && ValidGraph(g) && ValidConfig(cfg) && seed in gains && 0.0 <= gains[seed]
    && h <= |all| && Labelled(g, cfg, seed, all, best) && Frontier(all, h)
    && SoundUpdates(g, cfg, gains, updates) && Boosted(seed, gains[seed], all, updates) && |updates| <= cfg.maxNodes
    && Grown(updates0, updates)
    && (Uncapped(g, cfg, updates) ==> DoneBelow(g, cfg, all, h))
  }

  /** Invariant of the neighbour loop: the first `n` edges of `all[h]` are done as well. */
  ghost predicate Relaxing(g: Graph, cfg: Config, gains: map<Id, real>, seed: Id, all: seq<Label>, h: nat,
                           best: map<Id, real>, updates0: map<Id, Update>, updates: map<Id, Update>, order: seq<Id>, n: nat)
  {
    && Searching(g, cfg, gains, seed, all, h, best, updates0, updates)
    && h < |all| && all[h].depth < cfg.maxDepth && all[h].node in g.adj
    && n <= |order| && (forall k :: 0 <= k < |order| ==> order[k] in g.adj[all[h].node])
    && (Uncapped(g, cfg, updates) ==> EdgesDone(g, cfg, all, all[h], order, n))
  }

  lemma EdgePruned(g: Graph, cfg: Config, gains: map<Id, real>, seed: Id, all: seq<Label>, h: nat,
                   best: map<Id, real>, updates0: map<Id, Update>, updates: map<Id, Update>, order: seq<Id>, n: nat)
    requires Relaxing(g, cfg, gains, seed, all, h, best, updates0, updates, order, n) && n < |order|
    requires var m := NextLabel(g, cfg, all[h], order[n]);
      m.strength <= BestOf(best, order[n]) || (order[n] !in updates && |updates| >= cfg.maxNodes)
    ensures Relaxing(g, cfg, gains, seed, all, h, best, updates0, updates, order, n + 1)
  {
    hide Labelled; hide SoundUpdates; hide Boosted; hide Grown; hide DoneBelow; hide EdgeDone; hide Hop; hide ValidGraph;
    if NextLabel(g, cfg, all[h], order[n]).strength <= BestOf(best, order[n]) {
      PrunedEdgeDone(g, cfg, seed, all, best, h, all[h], order[n]);
    } else if Uncapped(g, cfg, updates) {
      ArcTarget(g, all[h].node, order[n]);
      RoomLeft(g, cfg, gains, updates, order[n]);
    }
  }

  lemma EdgeQueued(g: Graph, cfg: Config, gains: map<Id, real>, seed: Id, all: seq<Label>, h: nat,
                   best: map<Id, real>, updates0: map<Id, Update>, updates: map<Id, Update>, order: seq<Id>, n: nat)
    requires Relaxing(g, cfg, gains, seed, all, h, best, updates0, updates, order, n) && n < |order|
    requires BestOf(best, order[n]) < NextLabel(g, cfg, all[h], order[n]).strength
    requires order[n] in updates || |updates| < cfg.maxNodes
    ensures var m := NextLabel(g, cfg, all[h], order[n]);
      m.depth == all[h].depth + 1
      && Relaxing(g, cfg, gains, seed, all + [m], h, best[order[n] := m.strength], updates0, Recorded(updates, seed, gains[seed], m), order, n + 1)
  {
    hide Labelled; hide SoundUpdates; hide Boosted; hide DoneBelow; hide EdgeDone; hide EdgesDone; hide Hop; hide ValidGraph; hide Frontier; hide Recorded; hide GoodLabel; hide Grown; hide BestOf; hide ValidConfig;
    var m := NextLabel(g, cfg, all[h], order[n]);
    assert all[h].depth < cfg.maxDepth && all[h].node in g.adj && order[n] in g.adj[all[h].node];
    NextLabelGood(g, cfg, seed, all, best, h, order[n]);
    LabelQueued(g, cfg, seed, all, best, h, order[n]);
    RecordedKeeps(g, cfg, gains, seed, all, updates, m);
    GrownTrans(updates0, updates, Recorded(updates, seed, gains[seed], m));
    if Uncapped(g, cfg, Recorded(updates, seed, gains[seed], m)) {
      DoneGrows(g, cfg, all, m, h, all[h], order, n);
      QueuedEdgeDone(g, cfg, all + [m], all[h], order[n]);
      EdgesDoneStep(g, cfg, all + [m], all[h], order, n);
    }
    assert (all + [m])[h] == all[h];
  }

  lemma EdgesDoneStep(g: Graph, cfg: Config, all: seq<Label>, l: Label, order: seq<Id>, n: nat)
    requires l.node in g.adj && n < |order| && forall k :: 0 <= k < |order| ==> order[k] in g.adj[l.node]
    requires EdgesDone(g, cfg, all, l, order, n) && EdgeDone(g, cfg, all, l, order[n])
    ensures EdgesDone(g, cfg, all, l, order, n + 1)
  {
    hide EdgeDone;
  }

  /** The loop over `neighbors(current_id)` for the label `all[h]`. */
  method RelaxNeighbors(g: Graph, cfg: Config, gains: map<Id, real>, seed: Id, queue0: seq<Label>,
                        best0: map<Id, real>, updates0: map<Id, Update>, current: Label,
                        ghost all0: seq<Label>, ghost h: nat, ghost start: map<Id, Update>)
    returns (queue: seq<Label>, best: map<Id, real>, updates: map<Id, Update>, ghost all: seq<Label>)
    requires Searching(g, cfg, gains, seed, all0, h, best0, start, updates0) && seed in gains
    requires h < |all0| && all0[h] == current && current.depth < cfg.maxDepth && current.node in g.adj && queue0 == all0[h + 1..]
    ensures Searching(g, cfg, gains, seed, all, h + 1, best, start, updates) && queue == all[h + 1..]
    ensures QueueWork(|g.adj|, cfg.maxDepth, queue) < LabelWork(|g.adj|, cfg.maxDepth, current) + QueueWork(|g.adj|, cfg.maxDepth, queue0)
  {
    hide *;
    var order := SortedIds(g.adj[current.node].Keys);
    RelaxStart(g, cfg, gains, seed, all0, h, best0, start, updates0, order);
    queue, best, updates, all := queue0, best0, updates0, all0;
    ghost var unit := Work(|g.adj|, cfg.maxDepth - current.depth - 1);
    for n := 0 to |order|
      invariant Relaxing(g, cfg, gains, seed, all, h, best, start, updates, order, n)
      invariant h < |all| && all[h] == current && queue == all[h + 1..]
      invariant QueueWork(|g.adj|, cfg.maxDepth, queue) <= n * unit + QueueWork(|g.adj|, cfg.maxDepth, queue0)
    {
      var target := order[n];
      var next := NextLabel(g, cfg, current, target);
      assert (n + 1) * unit == n * unit + unit;
      if next.strength <= BestOf(best, target) || (target !in updates && |updates| >= cfg.maxNodes) {
        EdgePruned(g, cfg, gains, seed, all, h, best, start, updates, order, n);
        continue;
      }
      EdgeQueued(g, cfg, gains, seed, all, h, best, start, updates, order, n);
      QueueWorkPush(|g.adj|, cfg.maxDepth, queue, current, next);
      best := best[target := next.strength];
      updates := Recorded(updates, seed, gains[seed], next);
      queue := queue + [next];
      all := all + [next];
    }
    RelaxEnd(g, cfg, gains, seed, all, h, best, start, updates, order);
  }

  lemma GrownTrans(u: map<Id, Update>, v: map<Id, Update>, w: map<Id, Update>)
    requires Grown(u, v) && Grown(v, w)
    ensures Grown(u, w)
  {}

  lemma QueuedEdgeDone(g: Graph, cfg: Config, all: seq<Label>, l: Label, t: Id)
    requires l.node in g.adj && t in g.adj[l.node] && |all| > 0 && all[|all| - 1] == NextLabel(g, cfg, l, t)
    ensures EdgeDone(g, cfg, all, l, t)
  {
    hide Hop;
    assert all[|all| - 1].depth <= l.depth + 1;
  }

  lemma RelaxStart(g: Graph, cfg: Config, gains: map<Id, real>, seed: Id, all: seq<Label>, h: nat,
                   best: map<Id, real>, updates0: map<Id, Update>, updates: map<Id, Update>, order: seq<Id>)
    requires Searching(g, cfg, gains, seed, all, h, best, updates0, updates)
    requires h < |all| && all[h].depth < cfg.maxDepth && all[h].node in g.adj
    requires forall k :: 0 <= k < |order| ==> order[k] in g.adj[all[h].node]
    ensures Relaxing(g, cfg, gains, seed, all, h, best, updates0, updates, order, 0)
  {}

  lemma RelaxEnd(g: Graph, cfg: Config, gains: map<Id, real>, seed: Id, all: seq<Label>, h: nat,
                 best: map<Id, real>, updates0: map<Id, Update>, updates: map<Id, Update>, order: seq<Id>)
    requires Relaxing(g, cfg, gains, seed, all, h, best, updates0, updates, order, |order|)
    requires |order| == |g.adj[all[h].node].Keys| && forall t :: t in g.adj[all[h].node] ==> t in order
    ensures Searching(g, cfg, gains, seed, all, h + 1, best, updates0, updates)
    ensures |order| * Work(|g.adj|, cfg.maxDepth - all[h].depth - 1) < LabelWork(|g.adj|, cfg.maxDepth, all[h])
  {
    hide Labelled; hide SoundUpdates; hide Boosted; hide Grown; hide DoneBelow; hide EdgeDone; hide EdgesDone; hide ValidGraph; hide Work; hide LabelWork;
    if Uncapped(g, cfg, updates) {
      AllEdgesDone(g, cfg, all, h, order);
    }
    FrontierMoves(g, cfg, seed, all, best, h + 1);
    Outdegree(g, all[h].node);
    WorkStep(|g.adj|, |order|, cfg.maxDepth, all[h]);
  }

  lemma AllEdgesDone(g: Graph, cfg: Config, all: seq<Label>, h: nat, order: seq<Id>)
    requires h < |all| && DoneBelow(g, cfg, all, h) && all[h].node in g.adj
    requires (forall k :: 0 <= k < |order| ==> order[k] in g.adj[all[h].node]) && (forall t :: t in g.adj[all[h].node] ==> t in order)
    requires EdgesDone(g, cfg, all, all[h], order, |order|)
    ensures DoneBelow(g, cfg, all, h + 1)
  {
    hide EdgeDone;
    forall t | t in g.adj[all[h].node]
      ensures EdgeDone(g, cfg, all, all[h], t)
    {
      assert t in order;
    }
  }

  lemma Outdegree(g: Graph, a: Id)
    requires ValidGraph(g) && a in g.adj
    ensures |g.adj[a].Keys| <= |g.adj|
  {
    assert Row(g, a);
    CardinalityMono(g.adj[a].Keys, g.adj.Keys);
  }

  lemma WorkStep(n: nat, degree: nat, maxDepth: nat, l: Label)
    requires degree <= n && l.depth < maxDepth
    ensures degree * Work(n, maxDepth - l.depth - 1) < LabelWork(n, maxDepth, l)
  {
    assert degree * Work(n, maxDepth - l.depth - 1) <= n * Work(n, maxDepth - l.depth - 1);
  }

  /** One seed's search: `while queue`. */
  method ExpandSeed(g: Graph, cfg: Config, gains: map<Id, real>, seed: Id, updates0: map<Id, Update>) returns (updates: map<Id, Update>)
    requires ValidGraph(g) && ValidConfig(cfg) && seed in g.adj && seed in gains && 0.0 <= gains[seed]
    requires SoundUpdates(g, cfg, gains, updates0) && |updates0| <= cfg.maxNodes
    ensures SoundUpdates(g, cfg, gains, updates) && |updates| <= cfg.maxNodes && Grown(updates0, updates)
    ensures Uncapped(g, cfg, updates) ==> Covers(g, cfg, seed, gains[seed], updates)
  {
    var queue, best := [Label(seed, 0, 1.0, [seed])], map[seed := 1.0];
    updates := updates0;
    ghost var all, h := queue, 0;
    SearchStart(g, cfg, gains, seed, updates);
    hide *;
    while queue != []
      invariant Searching(g, cfg, gains, seed, all, h, best, updates0, updates)
      invariant h <= |all| && queue == all[h..]
      decreases QueueWork(|g.adj|, cfg.maxDepth, queue)
    {
      QueueWorkPop(|g.adj|, cfg.maxDepth, queue);
      var current := queue[0];
      queue := queue[1..];
      assert queue == all[h + 1..];
      HeadLabel(g, cfg, gains, seed, all, h, best, updates0, updates);
      if current.depth < cfg.maxDepth {
        queue, best, updates, all := RelaxNeighbors(g, cfg, gains, seed, queue, best, updates, current, all, h, updates0);
      }
      h := h + 1;
    }
    SearchEnd(g, cfg, gains, seed, all, best, updates0, updates);
  }

  lemma SearchStart(g: Graph, cfg: Config, gains: map<Id, real>, seed: Id, updates: map<Id, Update>)
    requires ValidGraph(g) && ValidConfig(cfg) && seed in g.adj && seed in gains && 0.0 <= gains[seed]
    requires SoundUpdates(g, cfg, gains, updates) && |updates| <= cfg.maxNodes
    ensures Searching(g, cfg, gains, seed, [Label(seed, 0, 1.0, [seed])], 0, map[seed := 1.0], updates, updates)
  {
    hide SoundUpdates; hide ValidGraph; hide DoneBelow;
    var all := [Label(seed, 0, 1.0, [seed])];
    assert all[0].node == seed;
    GrownSelf(updates);
    NothingDone(g, cfg, all);
  }

  lemma GrownSelf(u: map<Id, Update>)
    ensures Grown(u, u)
  {}

  lemma NothingDone(g: Graph, cfg: Config, all: seq<Label>)
    ensures DoneBelow(g, cfg, all, 0)
  {}

  lemma SearchEnd(g: Graph, cfg: Config, gains: map<Id, real>, seed: Id, all: seq<Label>,
                  best: map<Id, real>, updates0: map<Id, Update>, updates: map<Id, Update>)
    requires Searching(g, cfg, gains, seed, all, |all|, best, updates0, updates)
    ensures SoundUpdates(g, cfg, gains, updates) && |updates| <= cfg.maxNodes && Grown(updates0, updates)
    ensures Uncapped(g, cfg, updates) ==> Covers(g, cfg, seed, gains[seed], updates)
  {
    if Uncapped(g, cfg, updates) {
      SeedCovered(g, cfg, seed, gains[seed], all, best, updates);
    }
  }

  /** The label at the head of the queue; one at full depth has nothing left to do. */
  lemma HeadLabel(g: Graph, cfg: Config, gains: map<Id, real>, seed: Id, all: seq<Label>, h: nat,
                  best: map<Id, real>, updates0: map<Id, Update>, updates: map<Id, Update>)
    requires Searching(g, cfg, gains, seed, all, h, best, updates0, updates) && h < |all|
    ensures all[h].node in g.adj
    ensures all[h].depth >= cfg.maxDepth ==> Searching(g, cfg, gains, seed, all, h + 1, best, updates0, updates)
  {
    hide BestAbove; hide BestHeld; hide ValidGraph; hide IsWalk; hide Strength; hide Simple; hide SoundUpdates; hide Boosted; hide Grown; hide Frontier;
    assert GoodLabel(g, cfg, seed, all[h]);
    LastEdge(g, all[h].path);
    FrontierMoves(g, cfg, seed, all, best, h + 1);
  }
}
