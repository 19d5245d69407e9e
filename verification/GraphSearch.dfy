/** Breadth-first search over the relationship index (`bfs_search`, `shortest_path`). */
module GraphSearch {
  import opened Options
  import opened Order
  import opened Walks
  import opened SparseIndex

  const MAX_DEPTH := 20
  const MAX_NODES := 1000

  /** `max(low, min(x, high))`: the nearest number of the range. */
  function Clamp(low: int, x: int, high: int): (r: int)
    ensures low <= r && (low <= high ==> r <= high && (x < low ==> r == low) && (low <= x <= high ==> r == x) && (x > high ==> r == high))
  {
    var capped := if x < high then x else high;
    if capped > low then capped else low
  }

  lemma ClampBounds(depth: int, nodes: int)
    ensures 0 <= Clamp(0, depth, MAX_DEPTH) && 1 <= Clamp(1, nodes, MAX_NODES)
  {}

  /** A discovered id and the depth it was discovered at. */
  datatype Found = Found(id: Id, distance: nat)

  /** Nodes deeper than the limit are not expanded; `None` is no limit. */
  predicate Expands(limit: Option<nat>, depth: nat) {
    limit.None? || depth < limit.value
  }

  predicate Known(all: seq<Found>, x: Id, d: nat) {
    exists i :: 0 <= i < |all| && all[i].id == x && all[i].distance <= d
  }

  predicate Distinct(all: seq<Found>) {
    forall i, j :: 0 <= i < j < |all| ==> all[i].id != all[j].id
  }

  predicate Layered(all: seq<Found>) {
    forall i, j :: 0 <= i < j < |all| ==> all[i].distance <= all[j].distance
  }

  ghost predicate Exact(g: Graph, start: Id, all: seq<Found>) {
    forall i :: 0 <= i < |all| ==> Distance(g, start, all[i].id, all[i].distance)
  }

  /** Every neighbour of `u` is known one step further at most. */
  predicate Expanded(g: Graph, all: seq<Found>, u: Found) {
    u.id in g && forall y :: y in g[u.id] ==> Known(all, y, u.distance + 1)
  }

  ghost predicate ExpandedBelow(g: Graph, limit: Option<nat>, all: seq<Found>, head: nat) {
    head <= |all| && forall i :: 0 <= i < head && Expands(limit, all[i].distance) ==> Expanded(g, all, all[i])
  }

  predicate Frontier(all: seq<Found>, head: nat) {
    head < |all| ==> all[|all| - 1].distance <= all[head].distance + 1
  }

  /** `all` is every id discovered so far, in order; the first `head` have left the queue. */
  ghost predicate Searching(g: Graph, start: Id, limit: Option<nat>, all: seq<Found>, head: nat) {
    && Closed(g) && start in g && |all| > 0 && all[0] == Found(start, 0)
    && Distinct(all) && Layered(all) && Exact(g, start, all) && (forall i :: 0 <= i < |all| ==> all[i].id in g)
    && ExpandedBelow(g, limit, all, head) && Frontier(all, head)
  }

  /** Everything within `depth` is known, as long as only expanded nodes lie closer. */
  lemma {:induction false} WithinKnown(g: Graph, start: Id, limit: Option<nat>, all: seq<Found>, head: nat, p: seq<Id>)
    requires Searching(g, start, limit, all, head)
    requires |p| > 0 && Walk(g, p) && p[0] == start
    requires head < |all| ==> |p| - 1 <= all[head].distance
    requires limit.Some? ==> |p| - 1 <= limit.value
    ensures Known(all, p[|p| - 1], |p| - 1)
  {
    hide Exact; hide Distinct;
    if |p| == 1 {
      assert all[0].id == start;
    } else {
      var q := p[..|p| - 1];
      WithinKnown(g, start, limit, all, head, q);
      var i :| 0 <= i < |all| && all[i].id == p[|p| - 2] && all[i].distance <= |q| - 1;
      assert i < head;
      assert Expanded(g, all, all[i]);
      assert Known(all, p[|p| - 1], all[i].distance + 1);
    }
  }

  /** An id first seen from the head of the queue lies exactly one step further. */
  lemma FreshDistance(g: Graph, start: Id, limit: Option<nat>, all: seq<Found>, head: nat, y: Id)
    requires Searching(g, start, limit, all, head) && head < |all| && Expands(limit, all[head].distance)
    requires y in g[all[head].id] && forall i :: 0 <= i < |all| ==> all[i].id != y
    ensures Distance(g, start, y, all[head].distance + 1)
  {
    var d := all[head].distance;
    assert Distance(g, start, all[head].id, d);
    var p :| Leads(g, start, all[head].id, p) && |p| == d + 1;
    WalkSnoc(g, start, all[head].id, y, p);
    forall q | Leads(g, start, y, q)
      ensures |q| >= d + 2
    {
      if |q| - 1 <= d { WithinKnown(g, start, limit, all, head, q); }
    }
  }

  /** The neighbours `order[..n]` of the node at `head` have been looked at. */
  ghost predicate Relaxing(g: Graph, start: Id, limit: Option<nat>, all: seq<Found>, head: nat, order: seq<Id>, n: nat) {
    && Searching(g, start, limit, all, head) && head < |all| && Expands(limit, all[head].distance)
    && n <= |order| && (forall k :: 0 <= k < |order| ==> order[k] in g[all[head].id])
    && forall k :: 0 <= k < n ==> Known(all, order[k], all[head].distance + 1)
  }

  lemma KnownGrows(all: seq<Found>, f: Found, x: Id, d: nat)
    requires Known(all, x, d)
    ensures Known(all + [f], x, d)
  {
    var i :| 0 <= i < |all| && all[i].id == x && all[i].distance <= d;
    assert (all + [f])[i] == all[i];
  }

  lemma ExpandedGrows(g: Graph, limit: Option<nat>, all: seq<Found>, head: nat, f: Found)
    requires ExpandedBelow(g, limit, all, head)
    ensures ExpandedBelow(g, limit, all + [f], head)
  {
    forall i | 0 <= i < head && Expands(limit, all[i].distance)
      ensures Expanded(g, all + [f], all[i])
    {
      assert Expanded(g, all, all[i]);
      forall y | y in g[all[i].id] ensures Known(all + [f], y, all[i].distance + 1) { KnownGrows(all, f, y, all[i].distance + 1); }
    }
  }

  lemma Discover(g: Graph, start: Id, limit: Option<nat>, all: seq<Found>, head: nat, order: seq<Id>, n: nat)
    requires Relaxing(g, start, limit, all, head, order, n) && n < |order|
    requires forall i :: 0 <= i < |all| ==> all[i].id != order[n]
    ensures Relaxing(g, start, limit, all + [Found(order[n], all[head].distance + 1)], head, order, n + 1)
  {
    hide Distance; hide Expanded; hide ExpandedBelow;
    var f := Found(order[n], all[head].distance + 1);
    FreshDistance(g, start, limit, all, head, order[n]);
    ExpandedGrows(g, limit, all, head, f);
    var more := all + [f];
    assert more[head] == all[head];
    assert order[n] in g by { assert g[all[head].id] <= g.Keys; }
    forall k | 0 <= k < n + 1
      ensures Known(more, order[k], more[head].distance + 1)
    {
      if k < n { KnownGrows(all, f, order[k], all[head].distance + 1); } else { assert more[|all|] == f; }
    }
  }

  lemma AlreadyKnown(g: Graph, start: Id, limit: Option<nat>, all: seq<Found>, head: nat, order: seq<Id>, n: nat)
    requires Relaxing(g, start, limit, all, head, order, n) && n < |order|
    requires exists i :: 0 <= i < |all| && all[i].id == order[n]
    ensures Relaxing(g, start, limit, all, head, order, n + 1)
  {
    hide Exact; hide ExpandedBelow; hide Distinct; hide Closed;
    var i :| 0 <= i < |all| && all[i].id == order[n];
    assert all[i].distance <= all[|all| - 1].distance;
  }

  lemma HeadDone(g: Graph, start: Id, limit: Option<nat>, all: seq<Found>, head: nat, order: seq<Id>)
    requires Relaxing(g, start, limit, all, head, order, |order|) && forall y :: y in g[all[head].id] ==> y in order
    ensures Searching(g, start, limit, all, head + 1)
  {
    hide Exact; hide Distinct; hide Closed;
    forall y | y in g[all[head].id]
      ensures Known(all, y, all[head].distance + 1)
    {
      assert y in order;
    }
    hide Known;
    assert Expanded(g, all, all[head]);
  }

  lemma HeadTooDeep(g: Graph, start: Id, limit: Option<nat>, all: seq<Found>, head: nat)
    requires Searching(g, start, limit, all, head) && head < |all| && !Expands(limit, all[head].distance)
    ensures Searching(g, start, limit, all, head + 1)
  {
    hide Exact; hide Distinct; hide Closed; hide Expanded;
  }

  lemma {:induction false} NoMoreThanNodes(g: Graph, all: seq<Found>)
    requires Distinct(all) && forall i :: 0 <= i < |all| ==> all[i].id in g
    ensures |all| <= |g|
  {
    CountIds(all);
    IdSetMembers(all);
    CardinalityMono(IdSet(all), g.Keys);
    assert |g| == |g.Keys|;
  }

  function IdSet(all: seq<Found>): set<Id> {
    if all == [] then {} else IdSet(all[..|all| - 1]) + {all[|all| - 1].id}
  }

  lemma {:induction false} IdSetMembers(all: seq<Found>)
    ensures forall x :: x in IdSet(all) <==> Listed(all, x)
  {
    if all != [] {
      var n := |all| - 1;
      IdSetMembers(all[..n]);
      forall x
        ensures x in IdSet(all) <==> Listed(all, x)
      {
        if Listed(all[..n], x) { var i :| 0 <= i < n && all[..n][i].id == x; assert all[i].id == x; }
        if i :| 0 <= i < |all| && all[i].id == x { if i < n { assert all[..n][i].id == x; } }
      }
    }
  }

  lemma {:induction false} CountIds(all: seq<Found>)
    requires Distinct(all)
    ensures |IdSet(all)| == |all|
  {
    if all != [] {
      var n := |all| - 1;
      CountIds(all[..n]);
      IdSetMembers(all[..n]);
      assert !Listed(all[..n], all[n].id);
    }
  }

  // ----- bfs_search

  predicate SeenAre(seen: set<Id>, all: seq<Found>) {
    |seen| == |all| && (forall x :: x in seen ==> Listed(all, x)) && forall i :: 0 <= i < |all| ==> all[i].id in seen
  }

  predicate Listed(all: seq<Found>, x: Id) {
    exists i :: 0 <= i < |all| && all[i].id == x
  }

  predicate NotDeeper(all: seq<Found>, depth: nat) {
    forall i :: 0 <= i < |all| ==> all[i].distance <= depth
  }

  lemma SeenGrows(seen: set<Id>, all: seq<Found>, f: Found)
    requires SeenAre(seen, all) && f.id !in seen
    ensures SeenAre(seen + {f.id}, all + [f])
  {
    forall x | x in seen + {f.id}
      ensures Listed(all + [f], x)
    {
      if x == f.id { assert (all + [f])[|all|] == f; }
      else { var i :| 0 <= i < |all| && all[i].id == x; assert (all + [f])[i] == all[i]; }
    }
  }

  lemma SeenMember(seen: set<Id>, all: seq<Found>, x: Id)
    requires SeenAre(seen, all)
    ensures x in seen <==> exists i :: 0 <= i < |all| && all[i].id == x
  {}

  /** What a search of depth `depth` from `start` returns. */
  ghost predicate Answers(g: Graph, start: Id, depth: nat, maxNodes: nat, out: seq<Found>) {
    && (forall i :: 0 <= i < |out| ==> out[i].id != start && 1 <= out[i].distance <= depth && Distance(g, start, out[i].id, out[i].distance))
    && Distinct(out) && Layered(out) && |out| + 1 <= maxNodes
    && (|out| + 1 < maxNodes ==> forall x: Id, d: nat :: x != start && d <= depth && Distance(g, start, x, d) ==> Listed(out, x))
  }

  lemma SearchAnswers(g: Graph, start: Id, depth: nat, maxNodes: nat, all: seq<Found>, head: nat)
    requires Searching(g, start, Some(depth), all, head) && NotDeeper(all, depth)
    requires |all| <= maxNodes && (|all| < maxNodes ==> head == |all|)
    ensures Answers(g, start, depth, maxNodes, all[1..])
  {
    hide ExpandedBelow; hide Distance; hide Distinct; hide Layered; hide Walk;
    var out := all[1..];
    WithoutFirst(all);
    if |out| + 1 < maxNodes {
      forall x: Id, d: nat | x != start && d <= depth && Distance(g, start, x, d)
        ensures Listed(out, x)
      {
        var p := ShortestWalk(g, start, x, d);
        WithinKnown(g, start, Some(depth), all, head, p);
        var i :| 0 <= i < |all| && all[i].id == x;
        assert out[i - 1] == all[i];
      }
    }
    forall i | 0 <= i < |out|
      ensures out[i].id != start && 1 <= out[i].distance
    {
      assert out[i] == all[i + 1];
      assert Distance(g, start, all[i + 1].id, all[i + 1].distance);
      OtherIsFurther(g, start, all, i + 1);
    }
  }

  lemma ShortestWalk(g: Graph, a: Id, b: Id, d: nat) returns (p: seq<Id>)
    requires Distance(g, a, b, d)
    ensures Leads(g, a, b, p) && |p| == d + 1
  {
    p :| Leads(g, a, b, p) && |p| == d + 1;
  }

  lemma WithoutFirst(all: seq<Found>)
    requires |all| > 0 && Distinct(all) && Layered(all)
    ensures Distinct(all[1..]) && Layered(all[1..])
  {}

  lemma OtherIsFurther(g: Graph, start: Id, all: seq<Found>, i: nat)
    requires 0 < i < |all| && all[0].id == start && Distinct(all) && Distance(g, start, all[i].id, all[i].distance)
    ensures all[i].id != start && all[i].distance >= 1
  {
    var p := ShortestWalk(g, start, all[i].id, all[i].distance);
    assert all[0].id != all[i].id;
  }

  lemma BeginSearch(g: Graph, start: Id, limit: Option<nat>)
    requires Closed(g) && start in g
    ensures Searching(g, start, limit, [Found(start, 0)], 0) && SeenAre({start}, [Found(start, 0)])
  {
    var all := [Found(start, 0)];
    assert Leads(g, start, start, [start]);
    assert Distance(g, start, start, 0);
    assert all[0].id == start;
  }

  lemma BeginRelax(g: Graph, start: Id, limit: Option<nat>, all: seq<Found>, head: nat, order: seq<Id>)
    requires Searching(g, start, limit, all, head) && head < |all| && Expands(limit, all[head].distance)
    requires forall k :: 0 <= k < |order| ==> order[k] in g[all[head].id]
    ensures Relaxing(g, start, limit, all, head, order, 0)
  {}

  lemma RelaxFacts(g: Graph, start: Id, limit: Option<nat>, all: seq<Found>, head: nat, order: seq<Id>, n: nat)
    requires Relaxing(g, start, limit, all, head, order, n)
    ensures Searching(g, start, limit, all, head)
  {}

  lemma SearchFacts(g: Graph, start: Id, limit: Option<nat>, all: seq<Found>, head: nat)
    requires Searching(g, start, limit, all, head)
    ensures head <= |all| <= |g| && (head < |all| ==> all[head].id in g)
  {
    NoMoreThanNodes(g, all);
  }

  lemma DeeperSnoc(all: seq<Found>, f: Found, depth: nat)
    requires NotDeeper(all, depth) && f.distance <= depth
    ensures NotDeeper(all + [f], depth)
  {}

  /** What `bfs_search` keeps between two nodes: the queue is what has been discovered and not expanded. */
  ghost predicate Bfs(g: Graph, start: Id, limit: nat, cap: nat, all: seq<Found>, head: nat, seen: set<Id>) {
    && Searching(g, start, Some(limit), all, head) && SeenAre(seen, all) && NotDeeper(all, limit)
    && |seen| == |all| <= cap && head <= |all| <= |g|
  }

  ghost predicate BfsAt(g: Graph, start: Id, limit: nat, cap: nat, all: seq<Found>, head: nat, seen: set<Id>, order: seq<Id>, n: nat) {
    && Bfs(g, start, limit, cap, all, head, seen) && Relaxing(g, start, Some(limit), all, head, order, n)
  }

  lemma BfsDiscover(g: Graph, start: Id, limit: nat, cap: nat, all: seq<Found>, head: nat, seen: set<Id>, order: seq<Id>, n: nat)
    requires BfsAt(g, start, limit, cap, all, head, seen, order, n) && n < |order| && order[n] !in seen && |seen| < cap
    ensures var f := Found(order[n], all[head].distance + 1);
      BfsAt(g, start, limit, cap, all + [f], head, seen + {order[n]}, order, n + 1)
  {
    var f := Found(order[n], all[head].distance + 1);
    hide Searching; hide SeenAre; hide Known; hide NotDeeper;
    SeenMember(seen, all, order[n]);
    Discover(g, start, Some(limit), all, head, order, n);
    SeenGrows(seen, all, f);
    DeeperSnoc(all, f, limit);
    RelaxFacts(g, start, Some(limit), all + [f], head, order, n + 1);
    SearchFacts(g, start, Some(limit), all + [f], head);
    hide Relaxing;
    SeenCount(seen + {order[n]}, all + [f]);
  }

  lemma SeenCount(seen: set<Id>, all: seq<Found>)
    requires SeenAre(seen, all)
    ensures |seen| == |all|
  {}

  lemma BfsSkip(g: Graph, start: Id, limit: nat, cap: nat, all: seq<Found>, head: nat, seen: set<Id>, order: seq<Id>, n: nat)
    requires BfsAt(g, start, limit, cap, all, head, seen, order, n) && n < |order| && order[n] in seen
    ensures BfsAt(g, start, limit, cap, all, head, seen, order, n + 1)
  {
    hide Searching; hide SeenAre; hide Known; hide NotDeeper; hide Relaxing;
    SeenMember(seen, all, order[n]);
    AlreadyKnown(g, start, Some(limit), all, head, order, n);
  }

  lemma BfsBegin(g: Graph, start: Id, limit: nat, cap: nat)
    requires Closed(g) && start in g && 1 <= cap
    ensures Bfs(g, start, limit, cap, [Found(start, 0)], 0, {start})
  {
    BeginSearch(g, start, Some(limit));
    SearchFacts(g, start, Some(limit), [Found(start, 0)], 0);
  }

  lemma BfsExpand(g: Graph, start: Id, limit: nat, cap: nat, all: seq<Found>, head: nat, seen: set<Id>, order: seq<Id>)
    requires Bfs(g, start, limit, cap, all, head, seen) && head < |all|
    requires all[head].id in g && forall k :: 0 <= k < |order| ==> order[k] in g[all[head].id]
    ensures all[head].distance < limit ==> BfsAt(g, start, limit, cap, all, head, seen, order, 0)
    ensures all[head].distance >= limit ==> Bfs(g, start, limit, cap, all, head + 1, seen)
  {
    hide Searching; hide SeenAre; hide Known; hide NotDeeper; hide Relaxing;
    if all[head].distance < limit { BeginRelax(g, start, Some(limit), all, head, order); }
    else { HeadTooDeep(g, start, Some(limit), all, head); }
  }

  lemma BfsHead(g: Graph, start: Id, limit: nat, cap: nat, all: seq<Found>, head: nat, seen: set<Id>)
    requires Bfs(g, start, limit, cap, all, head, seen) && head < |all|
    ensures all[head].id in g && head < |g|
  {}

  lemma BfsNext(g: Graph, start: Id, limit: nat, cap: nat, all: seq<Found>, head: nat, seen: set<Id>, order: seq<Id>, n: nat)
    requires BfsAt(g, start, limit, cap, all, head, seen, order, n)
    ensures Bfs(g, start, limit, cap, all, head, seen)
    ensures head < |all| && all[head].id in g && (n == |order| && (forall y :: y in g[all[head].id] ==> y in order) ==> Bfs(g, start, limit, cap, all, head + 1, seen))
  {
    hide Known; hide NotDeeper; hide SeenAre; hide ExpandedBelow; hide Exact;
    if n == |order| && forall y :: y in g[all[head].id] ==> y in order {
      HeadDone(g, start, Some(limit), all, head, order);
    }
  }

  /** The loop over `sorted(g.neighbors(node))`, until the node cap is reached. */
  method VisitNeighbors(order: seq<Id>, current: Found, cap: nat, out0: seq<Found>, seen0: set<Id>, queue0: seq<Found>,
                        ghost g: Graph, ghost start: Id, ghost limit: nat, ghost all0: seq<Found>, ghost head: nat)
    returns (out: seq<Found>, seen: set<Id>, queue: seq<Found>, ghost all: seq<Found>)
    requires BfsAt(g, start, limit, cap, all0, head, seen0, order, 0) && |seen0| < cap
    requires head < |all0| && all0[head] == current && queue0 == all0[head + 1..] && all0 == [Found(start, 0)] + out0
    requires current.id in g && forall y :: y in g[current.id] ==> y in order
    ensures Bfs(g, start, limit, cap, all, head, seen) && all == [Found(start, 0)] + out && head < |all| && queue == all[head + 1..]
    ensures |seen| < cap ==> Bfs(g, start, limit, cap, all, head + 1, seen)
  {
    hide *;
    out, seen, queue, all := out0, seen0, queue0, all0;
    var n := 0;
    while n < |order|
      invariant n <= |order| && BfsAt(g, start, limit, cap, all, head, seen, order, n) && (|seen| < cap || n == |order|)
      invariant head < |all| && all[head] == current && queue == all[head + 1..] && all == [Found(start, 0)] + out
    {
      if order[n] in seen {
        BfsSkip(g, start, limit, cap, all, head, seen, order, n);
        n := n + 1;
        continue;
      }
      var found := Found(order[n], current.distance + 1);
      BfsDiscover(g, start, limit, cap, all, head, seen, order, n);
      seen := seen + {order[n]};
      out := out + [found];
      queue := queue + [found];
      all := all + [found];
      n := n + 1;
      if |seen| >= cap {
        break;
      }
    }
    BfsNext(g, start, limit, cap, all, head, seen, order, n);
  }

  method BfsSearch(index: SparseMemoryIndex, start: Id, depth: int, maxNodes: int) returns (out: seq<Found>)
    requires Contained(index.View())
    ensures var g := GraphOf(index.View());
      if start !in g then out == [] else Answers(g, start, Clamp(0, depth, MAX_DEPTH), Clamp(1, maxNodes, MAX_NODES), out)
  {
    hide *;
    ClampBounds(depth, maxNodes);
    var limit: nat, cap: nat := Clamp(0, depth, MAX_DEPTH), Clamp(1, maxNodes, MAX_NODES);
    var ix := index.View();
    ghost var g := GraphOf(ix);
    IndexGraph(ix);
    out := [];
    if start !in ix.memories {
      return;
    }
    var seen, queue := {start}, [Found(start, 0)];
    ghost var all, head := queue, 0;
    BfsBegin(g, start, limit, cap);
    while queue != [] && |seen| < cap
      invariant Bfs(g, start, limit, cap, all, head, seen) && all == [Found(start, 0)] + out
      invariant head <= |all| && head <= |g| && (|seen| < cap ==> queue == all[head..])
      decreases |g| - head, if |seen| < cap then 1 else 0
    {
      var current := queue[0];
      queue := queue[1..];
      BfsHead(g, start, limit, cap, all, head, seen);
      NeighborsAt(ix, current.id);
      var order := SortedIds(Neighbors(ix, current.id));
      BfsExpand(g, start, limit, cap, all, head, seen, order);
      if current.distance >= limit {
        head := head + 1;
        continue;
      }
      out, seen, queue, all := VisitNeighbors(order, current, cap, out, seen, queue, g, start, limit, all, head);
      if |seen| < cap {
        head := head + 1;
      }
    }
    BfsAnswers(g, start, limit, cap, all, head, seen);
    assert all[1..] == out;
  }

  lemma BfsAnswers(g: Graph, start: Id, limit: nat, cap: nat, all: seq<Found>, head: nat, seen: set<Id>)
    requires Bfs(g, start, limit, cap, all, head, seen) && (|seen| < cap ==> head == |all|)
    ensures Answers(g, start, limit, cap, all[1..])
  {
    hide Searching; hide SeenAre; hide Answers; hide NotDeeper;
    SearchAnswers(g, start, limit, cap, all, head);
  }

  lemma IndexGraph(ix: Index)
    requires Contained(ix)
    ensures Closed(GraphOf(ix)) && GraphOf(ix).Keys == ix.memories.Keys
  {
    GraphClosed(ix);
  }

  lemma NeighborsAt(ix: Index, x: Id)
    requires x in GraphOf(ix)
    ensures x in ix.memories && GraphOf(ix)[x] == Neighbors(ix, x)
  {}

  // ----- shortest_path

  /** `parents`: where each discovered id was first reached from. */
  ghost predicate Parented(g: Graph, all: seq<Found>, parents: map<Id, Option<Id>>) {
    && (forall x :: x in parents ==> Listed(all, x))
    && (forall i :: 0 <= i < |all| ==> all[i].id in parents && LinkedBack(g, all, all[i], parents[all[i].id]))
  }

  ghost predicate LinkedBack(g: Graph, all: seq<Found>, f: Found, parent: Option<Id>) {
    if parent.None? then f.distance == 0
    else exists j :: 0 <= j < |all| && IsParent(g, all[j], f, parent.value)
  }

  predicate IsParent(g: Graph, p: Found, f: Found, id: Id) {
    p.id == id && p.distance + 1 == f.distance && p.id in g && f.id in g[p.id]
  }

  lemma LinkedMore(g: Graph, all: seq<Found>, f: Found, parent: Option<Id>, next: Found)
    requires LinkedBack(g, all, f, parent)
    ensures LinkedBack(g, all + [next], f, parent)
  {
    hide IsParent;
    if parent.Some? {
      var k :| 0 <= k < |all| && IsParent(g, all[k], f, parent.value);
      assert (all + [next])[k] == all[k];
    }
  }

  lemma ParentedGrows(g: Graph, all: seq<Found>, parents: map<Id, Option<Id>>, f: Found, j: nat)
    requires Parented(g, all, parents) && f.id !in parents
    requires j < |all| && all[j].distance + 1 == f.distance && all[j].id in g && f.id in g[all[j].id]
    ensures Parented(g, all + [f], parents[f.id := Some(all[j].id)])
  {
    var more, links := all + [f], parents[f.id := Some(all[j].id)];
    forall i | 0 <= i < |more|
      ensures more[i].id in links && LinkedBack(g, more, more[i], links[more[i].id])
    {
      if i == |all| {
        assert more[j] == all[j] && IsParent(g, more[j], f, all[j].id);
      } else {
        assert more[i] == all[i];
        LinkedMore(g, all, all[i], parents[all[i].id], f);
      }
    }
    forall x | x in links
      ensures Listed(more, x)
    {
      if x == f.id { assert more[|all|] == f; }
      else { var i :| 0 <= i < |all| && all[i].id == x; assert more[i] == all[i]; }
    }
  }

  ghost predicate Tracing(g: Graph, source: Id, all: seq<Found>, head: nat, parents: map<Id, Option<Id>>) {
    Searching(g, source, None, all, head) && Parented(g, all, parents) && head <= |all| <= |g|
  }

  ghost predicate TracingAt(g: Graph, source: Id, all: seq<Found>, head: nat, parents: map<Id, Option<Id>>, order: seq<Id>, n: nat) {
    Tracing(g, source, all, head, parents) && Relaxing(g, source, None, all, head, order, n)
  }

  lemma TraceBegin(g: Graph, source: Id)
    requires Closed(g) && source in g
    ensures Tracing(g, source, [Found(source, 0)], 0, map[source := None])
  {
    var all := [Found(source, 0)];
    BeginSearch(g, source, None);
    SearchFacts(g, source, None, all, 0);
    hide Searching;
    assert all[0].id == source;
  }

  lemma TraceExpand(g: Graph, source: Id, all: seq<Found>, head: nat, parents: map<Id, Option<Id>>, order: seq<Id>)
    requires Tracing(g, source, all, head, parents) && head < |all| && all[head].id in g
    requires forall k :: 0 <= k < |order| ==> order[k] in g[all[head].id]
    ensures TracingAt(g, source, all, head, parents, order, 0)
  {
    hide Searching; hide Parented;
    BeginRelax(g, source, None, all, head, order);
  }

  lemma TraceSkip(g: Graph, source: Id, all: seq<Found>, head: nat, parents: map<Id, Option<Id>>, order: seq<Id>, n: nat)
    requires TracingAt(g, source, all, head, parents, order, n) && n < |order| && order[n] in parents
    ensures TracingAt(g, source, all, head, parents, order, n + 1)
  {
    hide Searching; hide Relaxing; hide LinkedBack;
    AlreadyKnown(g, source, None, all, head, order, n);
  }

  lemma TraceDiscover(g: Graph, source: Id, all: seq<Found>, head: nat, parents: map<Id, Option<Id>>, order: seq<Id>, n: nat)
    requires TracingAt(g, source, all, head, parents, order, n) && n < |order| && order[n] !in parents
    ensures head < |all| && var f := Found(order[n], all[head].distance + 1);
      TracingAt(g, source, all + [f], head, parents[order[n] := Some(all[head].id)], order, n + 1)
  {
    assert head < |all| && all[head].id in g && order[n] in g[all[head].id];
    hide Searching; hide Relaxing; hide LinkedBack;
    forall i | 0 <= i < |all| ensures all[i].id != order[n] { assert all[i].id in parents; }
    hide Parented;
    var f := Found(order[n], all[head].distance + 1);
    ParentedGrows(g, all, parents, f, head);
    Discover(g, source, None, all, head, order, n);
    RelaxFacts(g, source, None, all + [f], head, order, n + 1);
    SearchFacts(g, source, None, all + [f], head);
  }

  lemma TraceNext(g: Graph, source: Id, all: seq<Found>, head: nat, parents: map<Id, Option<Id>>, order: seq<Id>)
    requires TracingAt(g, source, all, head, parents, order, |order|) && head < |all| && all[head].id in g && forall y :: y in g[all[head].id] ==> y in order
    ensures Tracing(g, source, all, head + 1, parents)
  {
    HeadDone(g, source, None, all, head, order);
    hide Searching; hide Parented;
  }

  lemma TraceFacts(g: Graph, source: Id, all: seq<Found>, head: nat, parents: map<Id, Option<Id>>)
    requires Tracing(g, source, all, head, parents)
    ensures head <= |all| <= |g| && (head < |all| ==> all[head].id in g && all[head].id in parents)
  {}

  /** When the queue has run dry, an id that was not discovered is not connected. */
  lemma NotDiscovered(g: Graph, source: Id, all: seq<Found>, parents: map<Id, Option<Id>>, target: Id)
    requires Tracing(g, source, all, |all|, parents) && target !in parents
    ensures !Connected(g, source, target)
  {
    hide LinkedBack;
    if Connected(g, source, target) {
      var p :| Leads(g, source, target, p);
      WithinKnown(g, source, None, all, |all|, p);
    }
  }

  lemma SingleWalk(g: Graph, x: Id)
    requires x in g
    ensures Walk(g, [x])
  {}

  lemma {:induction false} WalkCons(g: Graph, x: Id, p: seq<Id>)
    requires |p| > 0 && Walk(g, p) && x in g && p[0] in g[x]
    ensures Walk(g, [x] + p)
  {
    var r := [x] + p;
    if |p| == 1 {
      assert r[..1] == [x];
    } else {
      WalkCons(g, x, p[..|p| - 1]);
      assert r[..|r| - 1] == [x] + p[..|p| - 1];
      assert r[|r| - 2] == p[|p| - 2] && r[|r| - 1] == p[|p| - 1];
    }
  }

  /** The walk back from `target` has come to `node`, having collected `path` behind it. */
  ghost predicate WalkedBack(g: Graph, source: Id, target: Id, all: seq<Found>, node: Option<Id>, path: seq<Id>, d: nat) {
    && (path != [] ==> Walk(g, path) && path[|path| - 1] == target)
    && if node.None? then |path| == d + 1 && path[0] == source
       else exists j :: 0 <= j < |all| && Behind(g, target, all[j], node.value, path, d)
  }

  ghost predicate Behind(g: Graph, target: Id, f: Found, x: Id, path: seq<Id>, d: nat) {
    f.id == x && x in g && f.distance + |path| == d && (if path == [] then x == target else path[0] in g[x])
  }

  lemma LongerWalk(g: Graph, target: Id, f: Found, x: Id, path: seq<Id>, d: nat)
    requires Behind(g, target, f, x, path, d) && (path != [] ==> Walk(g, path) && path[|path| - 1] == target)
    ensures Walk(g, [x] + path) && ([x] + path)[|path|] == target
  {
    hide Walk;
    if path == [] { SingleWalk(g, x); assert [x] + path == [x]; } else { WalkCons(g, x, path); }
  }

  lemma NoParent(g: Graph, all: seq<Found>, f: Found)
    requires LinkedBack(g, all, f, None)
    ensures f.distance == 0
  {}

  lemma ParentAt(g: Graph, all: seq<Found>, f: Found, id: Id) returns (k: nat)
    requires LinkedBack(g, all, f, Some(id))
    ensures k < |all| && IsParent(g, all[k], f, id)
  {
    k :| 0 <= k < |all| && IsParent(g, all[k], f, id);
  }

  lemma StepBack(g: Graph, source: Id, target: Id, all: seq<Found>, head: nat, parents: map<Id, Option<Id>>, x: Id, path: seq<Id>, d: nat)
    requires Tracing(g, source, all, head, parents) && WalkedBack(g, source, target, all, Some(x), path, d)
    ensures x in parents && WalkedBack(g, source, target, all, parents[x], [x] + path, d)
    ensures |path| <= d
  {
    hide Searching; hide Walk; hide Listed; hide LinkedBack;
    var j :| 0 <= j < |all| && Behind(g, target, all[j], x, path, d);
    assert x in parents && LinkedBack(g, all, all[j], parents[x]);
    LongerWalk(g, target, all[j], x, path, d);
    if parents[x].None? {
      NoParent(g, all, all[j]);
      StartOnly(g, source, all, head, j);
    } else {
      var k := ParentAt(g, all, all[j], parents[x].value);
      assert Behind(g, target, all[k], parents[x].value, [x] + path, d);
    }
  }

  lemma StartOnly(g: Graph, source: Id, all: seq<Found>, head: nat, j: nat)
    requires Searching(g, source, None, all, head) && j < |all| && all[j].distance == 0
    ensures all[j].id == source
  {
    assert Distance(g, source, all[j].id, 0);
    var p :| Leads(g, source, all[j].id, p) && |p| == 1;
  }

  lemma TargetAt(g: Graph, source: Id, target: Id, all: seq<Found>, head: nat, parents: map<Id, Option<Id>>) returns (d: nat)
    requires Tracing(g, source, all, head, parents) && target in parents
    ensures Distance(g, source, target, d) && WalkedBack(g, source, target, all, Some(target), [], d)
  {
    hide ExpandedBelow; hide LinkedBack; hide Layered; hide Distinct;
    var i :| 0 <= i < |all| && all[i].id == target;
    d := all[i].distance;
    assert Distance(g, source, all[i].id, all[i].distance);
    assert Behind(g, target, all[i], target, [], d);
  }

  lemma WalkedWhole(g: Graph, source: Id, target: Id, all: seq<Found>, path: seq<Id>, d: nat)
    requires WalkedBack(g, source, target, all, None, path, d)
    ensures Leads(g, source, target, path) && |path| == d + 1
  {}

  /** The path from the source, collected by following the parents from the target. */
  method WalkBack(target: Id, parents: map<Id, Option<Id>>, ghost g: Graph, ghost source: Id, ghost all: seq<Found>, ghost head: nat)
    returns (path: seq<Id>, ghost d: nat)
    requires Tracing(g, source, all, head, parents) && target in parents
    ensures Leads(g, source, target, path) && |path| == d + 1 && Distance(g, source, target, d)
  {
    hide *;
    path := [];
    var node := Some(target);
    d := TargetAt(g, source, target, all, head, parents);
    while node.Some?
      invariant WalkedBack(g, source, target, all, node, path, d)
      decreases d + 1 - |path|
    {
      StepBack(g, source, target, all, head, parents, node.value, path, d);
      path := [node.value] + path;
      node := parents[path[0]];
    }
    WalkedWhole(g, source, target, all, path, d);
  }

  method ShortestPath(index: SparseMemoryIndex, source: Id, target: Id, maxNodes: int) returns (r: Option<seq<Id>>)
    requires Contained(index.View())
    ensures var g := GraphOf(index.View());
      && (r.None? <==> source !in g || target !in g || !Connected(g, source, target))
      && (r.Some? ==> exists p, d: nat :: Leads(g, source, target, p) && |p| == d + 1 && Distance(g, source, target, d)
                        && r.value == Cut(p, Clamp(1, maxNodes, MAX_NODES)))
  {
    hide *;
    var ix := index.View();
    ghost var g := GraphOf(ix);
    IndexGraph(ix);
    if source !in ix.memories || target !in ix.memories {
      return None;
    }
    var queue := [source];
    var parents: map<Id, Option<Id>> := map[source := None];
    ghost var all, head := [Found(source, 0)], 0;
    TraceBegin(g, source);
    assert Ids(all) == queue by { IdsOf(all); }
    assert all[0..] == all;
    while queue != []
      invariant Tracing(g, source, all, head, parents) && head <= |all| <= |g| && queue == Ids(all[head..])
      decreases |g| - head
    {
      IdsOf(all[head..]);
      var node := queue[0];
      if node == target {
        TraceFacts(g, source, all, head, parents);
        break;
      }
      queue := queue[1..];
      TraceFacts(g, source, all, head, parents);
      NeighborsAt(ix, node);
      var order := SortedIds(Neighbors(ix, node));
      TraceExpand(g, source, all, head, parents, order);
      IdsRest(all, head);
      for n := 0 to |order|
        invariant TracingAt(g, source, all, head, parents, order, n)
        invariant head < |all| && all[head].id == node && queue == Ids(all[head + 1..])
      {
        if order[n] in parents {
          TraceSkip(g, source, all, head, parents, order, n);
        } else {
          TraceDiscover(g, source, all, head, parents, order, n);
          IdsSnoc(all, head + 1, Found(order[n], all[head].distance + 1));
          parents := parents[order[n] := Some(node)];
          queue := queue + [order[n]];
          all := all + [Found(order[n], all[head].distance + 1)];
        }
      }
      TraceNext(g, source, all, head, parents, order);
      TraceFacts(g, source, all, head + 1, parents);
      head := head + 1;
    }
    if target !in parents {
      IdsOf(all[head..]);
      NotDiscovered(g, source, all, parents, target);
      return None;
    }
    var path;
    ghost var d;
    path, d := WalkBack(target, parents, g, source, all, head);
    LeadsConnect(g, source, target, path);
    r := Some(Cut(path, Clamp(1, maxNodes, MAX_NODES)));
  }

  lemma LeadsConnect(g: Graph, a: Id, b: Id, p: seq<Id>)
    requires Leads(g, a, b, p)
    ensures Connected(g, a, b)
  {}

  /** `path[:n]` */
  function Cut(p: seq<Id>, n: int): (r: seq<Id>)
    ensures r <= p && (|r| == |p| || |r| == n || (n < 0 && r == []))
    ensures n >= |p| ==> r == p
    ensures n >= 0 ==> |r| <= n
  {
    if n <= 0 then [] else if n < |p| then p[..n] else p
  }

  ghost function Ids(all: seq<Found>): seq<Id> {
    seq(|all|, i requires 0 <= i < |all| => all[i].id)
  }

  lemma IdsOf(all: seq<Found>)
    ensures |Ids(all)| == |all| && forall i :: 0 <= i < |all| ==> Ids(all)[i] == all[i].id
  {}

  lemma IdsRest(all: seq<Found>, head: nat)
    requires head < |all|
    ensures Ids(all[head..])[1..] == Ids(all[head + 1..]) && Ids(all[head..])[0] == all[head].id
  {}

  lemma IdsSnoc(all: seq<Found>, head: nat, f: Found)
    requires head <= |all|
    ensures Ids((all + [f])[head..]) == Ids(all[head..]) + [f.id]
  {}
}
