/** Connected components by union-find with path halving and no ranks (`_sparse_components`). */
module Components {
  import opened Order
  import opened Walks
  import opened SparseIndex

  // ----- the forest of parents

  /** `rep` is the root above each node; `rank` rises along every parent link, so no link cycles. */
  ghost predicate Rooted(parent: map<Id, Id>, rep: map<Id, Id>, rank: map<Id, nat>, top: nat) {
    && rep.Keys == parent.Keys && rank.Keys == parent.Keys
    && forall x :: x in parent ==> RootedAt(parent, rep, rank, top, x)
  }

  ghost predicate RootedAt(parent: map<Id, Id>, rep: map<Id, Id>, rank: map<Id, nat>, top: nat, x: Id)
    requires x in parent && rep.Keys == parent.Keys && rank.Keys == parent.Keys
  {
    && parent[x] in parent && rep[x] in parent && rank[x] <= top
    && rep[parent[x]] == rep[x] && parent[rep[x]] == rep[x]
    && (parent[x] == x ==> rep[x] == x)
    && (parent[x] != x ==> rank[x] < rank[parent[x]])
  }

  lemma Halve(parent: map<Id, Id>, rep: map<Id, Id>, rank: map<Id, nat>, top: nat, x: Id)
    requires Rooted(parent, rep, rank, top) && x in parent && parent[x] != x
    ensures parent[x] in parent && Rooted(parent[x := parent[parent[x]]], rep, rank, top)
    ensures var y := parent[parent[x]]; y in parent && rep[y] == rep[x] && rank[x] < rank[y] <= top
  {
    var p := parent[x];
    assert RootedAt(parent, rep, rank, top, x) && RootedAt(parent, rep, rank, top, p);
    var y := parent[p];
    assert RootedAt(parent, rep, rank, top, y);
    var halved := parent[x := y];
    assert halved.Keys == parent.Keys;
    forall z | z in halved
      ensures RootedAt(halved, rep, rank, top, z)
    {
      assert RootedAt(parent, rep, rank, top, z);
    }
  }

  /** Classes after the class of `b` joins that of `a`. */
  function Merged(rep: map<Id, Id>, a: Id, b: Id): map<Id, Id>
    requires a in rep && b in rep
  {
    map x | x in rep :: if rep[x] == rep[b] then rep[a] else rep[x]
  }

  lemma Facts(parent: map<Id, Id>, rep: map<Id, Id>, rank: map<Id, nat>, top: nat, x: Id)
    requires Rooted(parent, rep, rank, top) && x in parent
    ensures x in rep && x in rank && RootedAt(parent, rep, rank, top, x) && rep.Keys == parent.Keys == rank.Keys
    ensures parent[x] in parent && rep[x] in parent && rank[x] <= top && (parent[x] == x ==> rep[x] == x)
  {}

  /** The ranks after the root `b` is hung below the root `a`. */
  function Lifted(rank: map<Id, nat>, a: Id, b: Id): map<Id, nat>
    requires a in rank && b in rank
  {
    rank[a := if rank[a] > rank[b] then rank[a] else rank[b] + 1]
  }

  lemma LinkKeys(parent: map<Id, Id>, rep: map<Id, Id>, rank: map<Id, nat>, a: Id, b: Id)
    requires rep.Keys == parent.Keys == rank.Keys && a in rep && b in rep && rep[a] in parent && rep[b] in parent
    ensures parent[rep[b] := rep[a]].Keys == parent.Keys
    ensures Merged(rep, a, b).Keys == parent.Keys && Lifted(rank, rep[a], rep[b]).Keys == parent.Keys
  {
    assert rep[b] in parent.Keys && rep[a] in rank.Keys;
  }

  lemma LinkAt(parent: map<Id, Id>, rep: map<Id, Id>, rank: map<Id, nat>, top: nat, a: Id, b: Id, z: Id)
    requires Rooted(parent, rep, rank, top) && a in parent && b in parent && a in rep && b in rep && rep[a] != rep[b] && z in parent
    ensures rep[a] in rank && rep[b] in rank
    ensures var lifted := Lifted(rank, rep[a], rep[b]);
      && parent[rep[b] := rep[a]].Keys == parent.Keys == Merged(rep, a, b).Keys == lifted.Keys
      && RootedAt(parent[rep[b] := rep[a]], Merged(rep, a, b), lifted, top + 1, z)
  {
    hide Rooted; hide Merged; hide Lifted;
    Facts(parent, rep, rank, top, a);
    Facts(parent, rep, rank, top, b);
    Facts(parent, rep, rank, top, z);
    Facts(parent, rep, rank, top, rep[a]);
    Facts(parent, rep, rank, top, rep[b]);
    Facts(parent, rep, rank, top, rep[z]);
    Facts(parent, rep, rank, top, parent[z]);
    var ra, rb := rep[a], rep[b];
    LinkKeys(parent, rep, rank, a, b);
    MergedAt(rep, a, b, z);
    MergedAt(rep, a, b, parent[z]);
    MergedAt(rep, a, b, ra);
    LiftedAt(rank, ra, rb, z, top);
    LiftedAt(rank, ra, rb, parent[z], top);
    LiftedAt(rank, ra, rb, ra, top);
  }

  lemma MergedAt(rep: map<Id, Id>, a: Id, b: Id, z: Id)
    requires a in rep && b in rep && z in rep
    ensures z in Merged(rep, a, b) && Merged(rep, a, b)[z] == if rep[z] == rep[b] then rep[a] else rep[z]
  {}

  lemma LiftedAt(rank: map<Id, nat>, a: Id, b: Id, z: Id, top: nat)
    requires a in rank && b in rank && a != b && z in rank && rank[z] <= top && rank[b] <= top
    ensures var r := Lifted(rank, a, b);
      z in r && rank[z] <= r[z] <= top + 1 && (z != a ==> r[z] == rank[z]) && b in r && a in r && r[b] < r[a]
  {}

  lemma Link(parent: map<Id, Id>, rep: map<Id, Id>, rank: map<Id, nat>, top: nat, a: Id, b: Id)
    requires Rooted(parent, rep, rank, top) && a in parent && b in parent && a in rep && b in rep && rep[a] != rep[b]
    ensures rep[a] in rank && rep[b] in rank
    ensures Rooted(parent[rep[b] := rep[a]], Merged(rep, a, b), Lifted(rank, rep[a], rep[b]), top + 1)
  {
    LinkAt(parent, rep, rank, top, a, b, a);
    hide RootedAt; hide Merged; hide Lifted;
    forall z | z in parent
      ensures RootedAt(parent[rep[b] := rep[a]], Merged(rep, a, b), Lifted(rank, rep[a], rep[b]), top + 1, z)
    {
      LinkAt(parent, rep, rank, top, a, b, z);
    }
  }

  lemma SameKeys(parent: map<Id, Id>, before: map<Id, Id>, x: Id, y: Id)
    requires parent.Keys == before.Keys + {x} && x in before
    ensures parent.Keys == before.Keys
  {}

  lemma MergedSame(rep: map<Id, Id>, a: Id, b: Id)
    requires a in rep && b in rep && rep[a] == rep[b]
    ensures Merged(rep, a, b) == rep
  {}

  class Forest {
    var parent: map<Id, Id>
    ghost var rep: map<Id, Id>
    ghost var rank: map<Id, nat>
    ghost var top: nat

    ghost predicate Valid()
      reads this
    {
      Rooted(parent, rep, rank, top)
    }

    constructor (ids: set<Id>)
      ensures Valid() && parent.Keys == ids && rep == map x | x in ids :: x
    {
      parent := map x | x in ids :: x;
      rep := map x | x in ids :: x;
      rank := map x | x in ids :: 0;
      top := 0;
    }

    lemma KeysAgree()
      requires Valid()
      ensures rep.Keys == parent.Keys
    {}

    method Find(x: Id) returns (root: Id)
      requires Valid() && x in parent
      modifies `parent
      ensures Valid() && parent.Keys == old(parent.Keys) && x in rep && root == rep[x]
    {
      hide Rooted; hide RootedAt;
      var node := x;
      Facts(parent, rep, rank, top, node);
      while parent[node] != node
        invariant Valid() && parent.Keys == old(parent.Keys) && node in parent
        invariant node in rep && node in rank && rep[node] == rep[x] && rank[node] <= top
        decreases top - rank[node]
      {
        Halve(parent, rep, rank, top, node);
        parent := parent[node := parent[parent[node]]];
        node := parent[node];
        Facts(parent, rep, rank, top, node);
      }
      Facts(parent, rep, rank, top, node);
      root := node;
    }

    method Union(left: Id, right: Id)
      requires Valid() && left in parent && right in parent
      modifies this
      ensures Valid() && parent.Keys == old(parent.Keys) && left in old(rep) && right in old(rep) && rep == Merged(old(rep), left, right)
    {
      hide Rooted; hide RootedAt; hide Merged; hide Lifted;
      Facts(parent, rep, rank, top, left);
      Facts(parent, rep, rank, top, right);
      var rootLeft := Find(left);
      var rootRight := Find(right);
      if rootLeft != rootRight {
        Link(parent, rep, rank, top, left, right);
        parent := parent[rootRight := rootLeft];
        rep, rank, top := Merged(rep, left, right), Lifted(rank, rootLeft, rootRight), top + 1;
        SameKeys(parent, old(parent), rootRight, rootLeft);
      } else {
        MergedSame(rep, left, right);
      }
    }
  }

  // ----- classes and walks

  /** Two nodes of one class are connected. */
  ghost predicate Sound(g: Graph, rep: map<Id, Id>) {
    rep.Keys == g.Keys && forall x, y :: x in rep && y in rep && rep[x] == rep[y] ==> Connected(g, x, y)
  }

  /** Classes only ever grow together. */
  ghost predicate Coarser(rep: map<Id, Id>, rep': map<Id, Id>) {
    rep.Keys == rep'.Keys && forall x, y :: x in rep && y in rep && rep[x] == rep[y] ==> rep'[x] == rep'[y]
  }

  ghost predicate Joined(rep: map<Id, Id>, members: set<Id>) {
    members <= rep.Keys && forall x, y :: x in members && y in members ==> rep[x] == rep[y]
  }

  lemma MergeSound(g: Graph, rep: map<Id, Id>, a: Id, b: Id)
    requires Closed(g) && Symmetric(g) && Sound(g, rep) && a in rep && b in rep && Connected(g, a, b)
    ensures var m := Merged(rep, a, b); Sound(g, m) && Coarser(rep, m) && a in m && b in m && m[a] == m[b]
  {
    var merged := Merged(rep, a, b);
    ConnectedSymmetric(g, a, b);
    hide Connected; hide Closed; hide Symmetric;
    forall x, y | x in merged && y in merged && merged[x] == merged[y]
      ensures Connected(g, x, y)
    {
      if rep[x] == rep[b] && rep[y] != rep[b] {
        ConnectedTransitive(g, x, b, a);
        ConnectedTransitive(g, x, a, y);
      } else if rep[x] != rep[b] && rep[y] == rep[b] {
        ConnectedTransitive(g, x, a, b);
        ConnectedTransitive(g, x, b, y);
      }
    }
  }

  lemma CoarserJoined(rep: map<Id, Id>, rep': map<Id, Id>, members: set<Id>)
    requires Coarser(rep, rep') && Joined(rep, members)
    ensures Joined(rep', members)
  {}

  lemma NothingToJoin(rep: map<Id, Id>)
    ensures Joined(rep, {})
  {}

  lemma OneJoined(g: Graph, rep: map<Id, Id>, x: Id)
    requires Sound(g, rep) && x in g
    ensures Joined(rep, {x})
  {}

  lemma JoinedOneMore(rep: map<Id, Id>, done: set<Id>, first: Id, other: Id)
    requires Joined(rep, done) && first in done && first in rep && other in rep && rep[first] == rep[other]
    ensures Joined(rep, done + {other})
  {}

  lemma CliqueFacts(g: Graph, members: set<Id>, first: Id)
    requires Clique(g, members) && first in members
    ensures first in g && forall y :: y in members ==> y in g && Connected(g, first, y)
  {
    hide Connected;
  }

  ghost predicate AllJoined(rep: map<Id, Id>, groups: map<string, set<Id>>, keys: set<string>) {
    forall k :: k in keys && k in groups ==> Joined(rep, groups[k])
  }

  lemma CoarserAllJoined(rep: map<Id, Id>, rep': map<Id, Id>, groups: map<string, set<Id>>, keys: set<string>)
    requires Coarser(rep, rep') && AllJoined(rep, groups, keys)
    ensures AllJoined(rep', groups, keys)
  {
    forall k | k in keys && k in groups ensures Joined(rep', groups[k]) { CoarserJoined(rep, rep', groups[k]); }
  }

  lemma CoarserTransitive(a: map<Id, Id>, b: map<Id, Id>, c: map<Id, Id>)
    requires Coarser(a, b) && Coarser(b, c)
    ensures Coarser(a, c)
  {}

  /** Any two members of the group are connected. */
  ghost predicate Clique(g: Graph, members: set<Id>) {
    members <= g.Keys && forall x, y :: x in members && y in members ==> Connected(g, x, y)
  }

  /** `union(ordered[0], other)` for the rest of one group, listed in any order. */
  method JoinGroup(forest: Forest, members: set<Id>, ghost g: Graph)
    requires forest.Valid() && Closed(g) && Symmetric(g) && Sound(g, forest.rep) && forest.parent.Keys == g.Keys && Clique(g, members)
    modifies forest
    ensures forest.Valid() && Sound(g, forest.rep) && forest.parent.Keys == g.Keys
    ensures Coarser(old(forest.rep), forest.rep) && Joined(forest.rep, members)
  {
    hide *;
    NoneJoined(forest.rep, map[]);
    if members == {} {
      NothingToJoin(forest.rep);
      return;
    }
    var first :| first in members;
    CliqueFacts(g, members, first);
    OneJoined(g, forest.rep, first);
    var rest := members - {first};
    ghost var done := {first};
    while rest != {}
      invariant forest.Valid() && Sound(g, forest.rep) && forest.parent.Keys == g.Keys
      invariant Coarser(old(forest.rep), forest.rep) && Joined(forest.rep, done)
      invariant first in done && rest + done == members
      decreases rest
    {
      var other :| other in rest;
      ghost var before := forest.rep;
      CliqueFacts(g, members, first);
      forest.Union(first, other);
      MergeSound(g, before, first, other);
      CoarserTransitive(old(forest.rep), before, forest.rep);
      CoarserJoined(before, forest.rep, done);
      JoinedOneMore(forest.rep, done, first, other);
      rest := rest - {other};
      done := done + {other};
    }
    assert done == members;
  }

  method JoinGroups(forest: Forest, groups: map<string, set<Id>>, ghost g: Graph)
    requires forest.Valid() && Closed(g) && Symmetric(g) && Sound(g, forest.rep) && forest.parent.Keys == g.Keys
    requires forall k :: k in groups ==> Clique(g, groups[k])
    modifies forest
    ensures forest.Valid() && Sound(g, forest.rep) && forest.parent.Keys == g.Keys
    ensures Coarser(old(forest.rep), forest.rep) && AllJoined(forest.rep, groups, groups.Keys)
  {
    hide *;
    var keys := groups.Keys;
    ghost var done: set<string> := {};
    NoneJoined(forest.rep, groups);
    while keys != {}
      invariant forest.Valid() && Sound(g, forest.rep) && forest.parent.Keys == g.Keys
      invariant Coarser(old(forest.rep), forest.rep) && AllJoined(forest.rep, groups, done) && keys + done == groups.Keys
      decreases keys
    {
      var k :| k in keys;
      ghost var before := forest.rep;
      JoinGroup(forest, groups[k], g);
      CoarserTransitive(old(forest.rep), before, forest.rep);
      CoarserAllJoined(before, forest.rep, groups, done);
      OneMoreJoined(forest.rep, groups, done, k);
      keys := keys - {k};
      done := done + {k};
    }
    assert done == groups.Keys;
  }

  lemma NoneJoined(rep: map<Id, Id>, groups: map<string, set<Id>>)
    ensures Coarser(rep, rep) && AllJoined(rep, groups, {})
  {}

  lemma OneMoreJoined(rep: map<Id, Id>, groups: map<string, set<Id>>, done: set<string>, k: string)
    requires AllJoined(rep, groups, done) && k in groups && Joined(rep, groups[k])
    ensures AllJoined(rep, groups, done + {k})
  {
    hide Joined;
  }

  lemma GroupsAreCliques(ix: Index)
    requires Contained(ix) && Exact(ix)
    ensures forall k :: k in ix.subjects ==> Clique(GraphOf(ix), ix.subjects[k])
    ensures forall k :: k in ix.tags ==> Clique(GraphOf(ix), ix.tags[k])
  {
    forall k | k in ix.subjects
      ensures Clique(GraphOf(ix), ix.subjects[k])
    {
      forall x, y | x in ix.subjects[k] && y in ix.subjects[k]
        ensures Connected(GraphOf(ix), x, y)
      {
        assert x in Get(ix.subjects, k) && y in Get(ix.subjects, k);
        SharedConnects(ix, x, y);
      }
    }
    forall k | k in ix.tags
      ensures Clique(GraphOf(ix), ix.tags[k])
    {
      forall x, y | x in ix.tags[k] && y in ix.tags[k]
        ensures Connected(GraphOf(ix), x, y)
      {
        assert x in Get(ix.tags, k) && y in Get(ix.tags, k);
        SharedConnects(ix, x, y);
      }
    }
  }

  lemma SharedConnects(ix: Index, x: Id, y: Id)
    requires Contained(ix) && x in ix.memories && y in ix.memories && (x == y || Shares(ix, x, y))
    ensures Connected(GraphOf(ix), x, y)
  {
    NeighborKind(ix, x, y);
    if x == y { ConnectedReflexive(GraphOf(ix), x); } else { EdgeConnects(GraphOf(ix), x, y); }
  }

  /** The supersedes links of the children in `done` are joined. */
  ghost predicate LinksJoined(rep: map<Id, Id>, supersedes: map<Id, Id>, done: set<Id>) {
    forall c :: c in done && c in supersedes ==> c in rep && supersedes[c] in rep && rep[c] == rep[supersedes[c]]
  }

  lemma CoarserLinks(rep: map<Id, Id>, rep': map<Id, Id>, supersedes: map<Id, Id>, done: set<Id>)
    requires Coarser(rep, rep') && LinksJoined(rep, supersedes, done)
    ensures LinksJoined(rep', supersedes, done)
  {}

  lemma {:induction false} WalkSameClass(ix: Index, rep: map<Id, Id>, p: seq<Id>)
    requires Contained(ix) && Exact(ix) && rep.Keys == ix.memories.Keys
    requires AllJoined(rep, ix.subjects, ix.subjects.Keys) && AllJoined(rep, ix.tags, ix.tags.Keys) && LinksJoined(rep, ix.supersedes, ix.supersedes.Keys)
    requires |p| > 0 && Walk(GraphOf(ix), p)
    decreases |p|
    ensures p[0] in rep && p[|p| - 1] in rep && rep[p[0]] == rep[p[|p| - 1]]
  {
    hide Contained; hide Exact; hide AllJoined; hide LinksJoined; hide Neighbors;
    if |p| > 1 {
      var a, b := p[|p| - 2], p[|p| - 1];
      WalkSameClass(ix, rep, p[..|p| - 1]);
      assert a in ix.memories && b in Neighbors(ix, a);
      EdgeSameClass(ix, rep, a, b);
    } else {
      assert p[0] in ix.memories;
    }
  }

  lemma EdgeSameClass(ix: Index, rep: map<Id, Id>, a: Id, b: Id)
    requires Contained(ix) && Exact(ix) && rep.Keys == ix.memories.Keys
    requires AllJoined(rep, ix.subjects, ix.subjects.Keys) && AllJoined(rep, ix.tags, ix.tags.Keys) && LinksJoined(rep, ix.supersedes, ix.supersedes.Keys)
    requires a in ix.memories && b in Neighbors(ix, a)
    ensures b in rep && rep[a] == rep[b]
  {
    NeighborKind(ix, a, b);
    var m := ix.memories[a];
    if m.subject != "" && b in Get(ix.subjects, m.subject) {
      assert a in Get(ix.subjects, m.subject);
      assert Joined(rep, ix.subjects[m.subject]);
    } else if t :| t in m.tags && b in Get(ix.tags, t) {
      assert a in Get(ix.tags, t);
      assert Joined(rep, ix.tags[t]);
    }
  }

  /** A class of "connected by a walk". */
  ghost predicate Component(g: Graph, c: set<Id>) {
    c != {} && c <= g.Keys && forall x, y :: x in c && y in g ==> (y in c <==> Connected(g, x, y))
  }

  ghost predicate Disjoint(groups: seq<set<Id>>) {
    forall i, j, x :: 0 <= i < j < |groups| && x in groups[i] ==> x !in groups[j]
  }

  ghost predicate Covering(ids: set<Id>, groups: seq<set<Id>>) {
    forall x :: x in ids ==> exists c :: c in groups && x in c
  }

  /** Each id is in exactly one group, and two ids are together exactly when a walk connects them. */
  ghost predicate Partition(g: Graph, groups: seq<set<Id>>) {
    (forall c :: c in groups ==> Component(g, c)) && Disjoint(groups) && Covering(g.Keys, groups)
  }

  method SparseComponents(index: SparseMemoryIndex) returns (groups: seq<set<Id>>)
    requires Contained(index.View()) && Exact(index.View())
    ensures Partition(GraphOf(index.View()), groups)
  {
    var ix := index.View();
    ghost var g := GraphOf(ix);
    GraphClosed(ix);
    GraphSymmetric(ix);
    GroupsAreCliques(ix);
    var forest := new Forest(ix.memories.Keys);
    StartSound(g, forest.rep);
    hide *;
    JoinGroups(forest, ix.subjects, g);
    ghost var rep1 := forest.rep;
    JoinGroups(forest, ix.tags, g);
    CoarserAllJoined(rep1, forest.rep, ix.subjects, ix.subjects.Keys);
    ghost var rep2 := forest.rep;
    JoinLinks(forest, ix, g);
    CoarserAllJoined(rep2, forest.rep, ix.subjects, ix.subjects.Keys);
    CoarserAllJoined(rep2, forest.rep, ix.tags, ix.tags.Keys);
    groups := GroupByRoot(forest);
    ClassesArePartition(ix, forest.rep, groups);
  }

  lemma StartSound(g: Graph, rep: map<Id, Id>)
    requires rep == map x | x in g :: x
    ensures Sound(g, rep)
  {
    forall x | x in g ensures Connected(g, x, x) { ConnectedReflexive(g, x); }
  }

  method JoinLinks(forest: Forest, ix: Index, ghost g: Graph)
    requires Contained(ix) && g == GraphOf(ix) && forest.Valid() && Closed(g) && Symmetric(g) && Sound(g, forest.rep) && forest.parent.Keys == g.Keys
    modifies forest
    ensures forest.Valid() && Sound(g, forest.rep) && forest.parent.Keys == g.Keys
    ensures Coarser(old(forest.rep), forest.rep) && LinksJoined(forest.rep, ix.supersedes, ix.supersedes.Keys)
  {
    hide Rooted; hide Connected; hide Closed; hide Symmetric; hide Sound; hide Coarser; hide GraphOf; hide Neighbors; hide Contained;
    var children := ix.supersedes.Keys;
    ghost var done: set<Id> := {};
    NoneJoined(forest.rep, map[]);
    SoundKeys(g, forest.rep);
    while children != {}
      invariant forest.Valid() && Sound(g, forest.rep) && forest.parent.Keys == g.Keys && forest.parent.Keys == forest.rep.Keys
      invariant Coarser(old(forest.rep), forest.rep) && LinksJoined(forest.rep, ix.supersedes, done) && children + done == ix.supersedes.Keys
      decreases children
    {
      var c :| c in children;
      ghost var before := forest.rep;
      LinkConnects(ix, c);
      forest.Union(c, ix.supersedes[c]);
      MergeSound(g, before, c, ix.supersedes[c]);
      CoarserTransitive(old(forest.rep), before, forest.rep);
      CoarserLinks(before, forest.rep, ix.supersedes, done);
      SoundKeys(g, forest.rep);
      children := children - {c};
      done := done + {c};
    }
    assert done == ix.supersedes.Keys;
  }

  lemma LinkConnects(ix: Index, c: Id)
    requires Contained(ix) && c in ix.supersedes
    ensures c in GraphOf(ix) && ix.supersedes[c] in GraphOf(ix) && Connected(GraphOf(ix), c, ix.supersedes[c])
  {
    NodesAreMemories(ix);
    SharedConnects(ix, c, ix.supersedes[c]);
  }

  lemma SoundKeys(g: Graph, rep: map<Id, Id>)
    requires Sound(g, rep)
    ensures rep.Keys == g.Keys
  {}

  lemma NodesAreMemories(ix: Index)
    ensures GraphOf(ix).Keys == ix.memories.Keys
  {}

  function AddTo(grouped: map<Id, set<Id>>, root: Id, x: Id): map<Id, set<Id>> {
    grouped[root := (if root in grouped then grouped[root] else {}) + {x}]
  }

  lemma Shrink(ids: set<Id>, nodes: set<Id>, x: Id)
    requires x in nodes && nodes <= ids
    ensures ids - (nodes - {x}) == (ids - nodes) + {x}
  {}

  /** `grouped.setdefault(find(node), set()).add(node)`, then the values. */
  method GroupByRoot(forest: Forest) returns (groups: seq<set<Id>>)
    requires forest.Valid()
    modifies forest`parent
    ensures forest.Valid() && forest.rep.Keys == forest.parent.Keys && Classes(forest.rep, groups)
  {
    hide *;
    forest.KeysAgree();
    ghost var rep := forest.rep;
    NothingGrouped(rep);
    var grouped: map<Id, set<Id>> := map[];
    var ids := forest.parent.Keys;
    var nodes := ids;
    assert ids - nodes == {};
    while nodes != {}
      invariant forest.Valid() && forest.parent.Keys == ids && forest.rep == rep && nodes <= ids
      invariant Grouped(rep, grouped, ids - nodes)
      decreases nodes
    {
      var x :| x in nodes;
      var root := forest.Find(x);
      GroupedStep(rep, grouped, ids - nodes, x);
      Shrink(ids, nodes, x);
      grouped := AddTo(grouped, root, x);
      nodes := nodes - {x};
    }
    assert ids - nodes == rep.Keys;
    forest.KeysAgree();
    groups := Values(grouped, rep);
  }

  /** `list(grouped.values())` */
  method Values(grouped: map<Id, set<Id>>, ghost rep: map<Id, Id>) returns (groups: seq<set<Id>>)
    requires Grouped(rep, grouped, rep.Keys)
    ensures Classes(rep, groups)
  {
    hide *;
    groups := [];
    var roots := grouped.Keys;
    ghost var listed: seq<Id> := [];
    while roots != {}
      invariant |listed| == |groups| && (forall i :: 0 <= i < |groups| ==> listed[i] in grouped && listed[i] !in roots && groups[i] == grouped[listed[i]])
      invariant forall i, j :: 0 <= i < j < |listed| ==> listed[i] != listed[j]
      invariant roots <= grouped.Keys && forall r :: r in grouped && r !in roots ==> r in listed
      decreases roots
    {
      var r :| r in roots;
      groups := groups + [grouped[r]];
      listed := listed + [r];
      roots := roots - {r};
    }
    ListedClasses(rep, grouped, listed, groups);
  }

  ghost predicate Grouped(rep: map<Id, Id>, grouped: map<Id, set<Id>>, done: set<Id>) {
    && (forall r :: r in grouped ==> grouped[r] != {})
    && (forall r, x :: r in grouped && x in grouped[r] ==> x in done && x in rep && rep[x] == r)
    && (forall x :: x in done && x in rep ==> rep[x] in grouped && x in grouped[rep[x]])
  }

  lemma NothingGrouped(rep: map<Id, Id>)
    ensures Grouped(rep, map[], {})
  {}

  lemma GroupedStep(rep: map<Id, Id>, grouped: map<Id, set<Id>>, done: set<Id>, x: Id)
    requires Grouped(rep, grouped, done) && x in rep
    ensures Grouped(rep, AddTo(grouped, rep[x], x), done + {x})
  {}

  /** A class of equal representative. */
  ghost predicate Class(rep: map<Id, Id>, c: set<Id>) {
    c != {} && c <= rep.Keys && forall x, y :: x in c && y in rep ==> (y in c <==> rep[x] == rep[y])
  }

  ghost predicate Classes(rep: map<Id, Id>, groups: seq<set<Id>>) {
    (forall c :: c in groups ==> Class(rep, c)) && Disjoint(groups) && Covering(rep.Keys, groups)
  }

  lemma ListedClasses(rep: map<Id, Id>, grouped: map<Id, set<Id>>, listed: seq<Id>, groups: seq<set<Id>>)
    requires Grouped(rep, grouped, rep.Keys) && |listed| == |groups|
    requires forall i :: 0 <= i < |groups| ==> listed[i] in grouped && groups[i] == grouped[listed[i]]
    requires forall i, j :: 0 <= i < j < |listed| ==> listed[i] != listed[j]
    requires forall r :: r in grouped ==> r in listed
    ensures Classes(rep, groups)
  {
    forall c | c in groups
      ensures Class(rep, c)
    {
      var i :| 0 <= i < |groups| && groups[i] == c;
    }
    forall i, j, x | 0 <= i < j < |groups| && x in groups[i]
      ensures x !in groups[j]
    {
      assert rep[x] == listed[i];
    }
    forall x | x in rep
      ensures exists c :: c in groups && x in c
    {
      assert rep[x] in listed;
      var i :| 0 <= i < |listed| && listed[i] == rep[x];
      assert groups[i] in groups && x in groups[i];
    }
  }

  lemma ClassesArePartition(ix: Index, rep: map<Id, Id>, groups: seq<set<Id>>)
    requires Contained(ix) && Exact(ix) && Sound(GraphOf(ix), rep) && Classes(rep, groups)
    requires AllJoined(rep, ix.subjects, ix.subjects.Keys) && AllJoined(rep, ix.tags, ix.tags.Keys) && LinksJoined(rep, ix.supersedes, ix.supersedes.Keys)
    ensures Partition(GraphOf(ix), groups)
  {
    hide Contained; hide Exact; hide AllJoined; hide LinksJoined; hide Walk; hide Connected; hide Component; hide Class; hide GraphOf;
    hide Disjoint; hide Covering;
    var g := GraphOf(ix);
    SoundKeys(g, rep);
    ConnectedSameClass(ix, rep);
    forall c | c in groups
      ensures Component(g, c)
    {
      ClassIsComponent(g, rep, c);
    }
  }

  lemma ConnectedSameClass(ix: Index, rep: map<Id, Id>)
    requires Contained(ix) && Exact(ix) && rep.Keys == GraphOf(ix).Keys
    requires AllJoined(rep, ix.subjects, ix.subjects.Keys) && AllJoined(rep, ix.tags, ix.tags.Keys) && LinksJoined(rep, ix.supersedes, ix.supersedes.Keys)
    ensures forall x, y :: x in rep && y in rep && Connected(GraphOf(ix), x, y) ==> rep[x] == rep[y]
  {
    NodesAreMemories(ix);
    hide GraphOf; hide Contained; hide Exact; hide AllJoined; hide LinksJoined; hide Walk;
    var g := GraphOf(ix);
    forall x, y | x in rep && y in rep && Connected(g, x, y)
      ensures rep[x] == rep[y]
    {
      var p :| Leads(g, x, y, p);
      WalkSameClass(ix, rep, p);
    }
  }

  lemma ClassIsComponent(g: Graph, rep: map<Id, Id>, c: set<Id>)
    requires Sound(g, rep) && Class(rep, c)
    requires forall x, y :: x in rep && y in rep && Connected(g, x, y) ==> rep[x] == rep[y]
    ensures Component(g, c)
  {
    hide Connected;
  }

  /** Two ids are in one reported component exactly when a walk leads from one to the other. */
  lemma OneComponentIffConnected(g: Graph, groups: seq<set<Id>>, a: Id, b: Id)
    requires Partition(g, groups) && a in g && b in g
    ensures Connected(g, a, b) <==> exists c :: c in groups && a in c && b in c
  {
    hide Connected;
    var c :| c in groups && a in c;
    assert Component(g, c);
    if d :| d in groups && a in d && b in d {
      assert Component(g, d);
    }
  }
}
