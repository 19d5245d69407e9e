/** Walks in a directed graph given by neighbour sets. */
module Walks {
  import opened Order

  type Graph = map<Id, set<Id>>

  predicate Closed(g: Graph) {
    forall a :: a in g ==> g[a] <= g.Keys
  }

  ghost predicate Symmetric(g: Graph) {
    forall a, b :: a in g && b in g && b in g[a] ==> a in g[b]
  }

  ghost predicate Walk(g: Graph, p: seq<Id>) {
    if |p| <= 1 then |p| == 1 && p[0] in g
    else Walk(g, p[..|p| - 1]) && p[|p| - 2] in g && p[|p| - 1] in g[p[|p| - 2]]
  }

  /** A walk from `a` to `b`; its length is the number of its edges. */
  ghost predicate Leads(g: Graph, a: Id, b: Id, p: seq<Id>) {
    |p| > 0 && Walk(g, p) && p[0] == a && p[|p| - 1] == b
  }

  ghost predicate Connected(g: Graph, a: Id, b: Id) {
    exists p :: Leads(g, a, b, p)
  }

  /** `d` is the length of a shortest walk from `a` to `b`. */
  ghost predicate Distance(g: Graph, a: Id, b: Id, d: nat) {
    && (exists p :: Leads(g, a, b, p) && |p| == d + 1)
    && (forall p :: Leads(g, a, b, p) ==> |p| >= d + 1)
  }

  lemma WalkSnoc(g: Graph, a: Id, b: Id, c: Id, p: seq<Id>)
    requires Leads(g, a, b, p) && b in g && c in g[b]
    ensures Leads(g, a, c, p + [c])
  {
    assert (p + [c])[..|p|] == p;
  }

  lemma {:induction false} WalkEnd(g: Graph, p: seq<Id>)
    requires Closed(g) && |p| > 0 && Walk(g, p)
    ensures p[|p| - 1] in g && p[0] in g
  {
    if |p| > 1 { WalkEnd(g, p[..|p| - 1]); }
  }

  lemma {:induction false} WalkJoin(g: Graph, a: Id, b: Id, c: Id, p: seq<Id>, q: seq<Id>)
    requires Closed(g) && Leads(g, a, b, p) && Leads(g, b, c, q)
    ensures Connected(g, a, c)
    decreases |q|
  {
    if |q| > 1 {
      var r, m := q[..|q| - 1], q[|q| - 2];
      WalkJoin(g, a, b, m, p, r);
      var s :| Leads(g, a, m, s);
      WalkSnoc(g, a, m, c, s);
    }
  }

  lemma ConnectedReflexive(g: Graph, a: Id)
    requires a in g
    ensures Connected(g, a, a)
  {
    assert Leads(g, a, a, [a]);
  }

  lemma ConnectedTransitive(g: Graph, a: Id, b: Id, c: Id)
    requires Closed(g) && Connected(g, a, b) && Connected(g, b, c)
    ensures Connected(g, a, c)
  {
    var p :| Leads(g, a, b, p);
    var q :| Leads(g, b, c, q);
    WalkJoin(g, a, b, c, p, q);
  }

  lemma EdgeConnects(g: Graph, a: Id, b: Id)
    requires a in g && b in g[a]
    ensures Connected(g, a, b)
  {
    assert Leads(g, a, a, [a]);
    WalkSnoc(g, a, a, b, [a]);
  }

  lemma {:induction false} WalkReverses(g: Graph, a: Id, b: Id, p: seq<Id>)
    requires Closed(g) && Symmetric(g) && Leads(g, a, b, p)
    ensures Connected(g, b, a)
    decreases |p|
  {
    WalkEnd(g, p);
    if |p| == 1 {
      ConnectedReflexive(g, a);
    } else {
      var q, m := p[..|p| - 1], p[|p| - 2];
      WalkReverses(g, a, m, q);
      EdgeConnects(g, b, m);
      ConnectedTransitive(g, b, m, a);
    }
  }

  lemma ConnectedSymmetric(g: Graph, a: Id, b: Id)
    requires Closed(g) && Symmetric(g) && Connected(g, a, b)
    ensures Connected(g, b, a)
  {
    var p :| Leads(g, a, b, p);
    WalkReverses(g, a, b, p);
  }
}
