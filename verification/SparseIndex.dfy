/** The relationship index that graph queries use on large ledgers (`SparseMemoryIndex`). */
module SparseIndex {
  import opened Options
  import opened Order
  import opened Walks

  /** `subject == ""` when there is none; `created` is the creation time when it can be parsed. */
  datatype Memory = Memory(id: Id, subject: string, tags: set<string>, supersedes: Option<Id>,
                           confidence: real, created: Option<real>)

  datatype Filter = Filter(minConfidence: real, cutoff: Option<real>)

  predicate Admitted(f: Filter, m: Memory) {
    m.confidence >= f.minConfidence && (f.cutoff.Some? ==> m.created.Some? && m.created.value >= f.cutoff.value)
  }

  datatype Index = Index(memories: map<Id, Memory>, subjects: map<string, set<Id>>,
                         tags: map<string, set<Id>>, supersedes: map<Id, Id>)

  const EMPTY := Index(map[], map[], map[], map[])

  function Get(m: map<string, set<Id>>, key: string): set<Id> {
    if key in m then m[key] else {}
  }

  /** `setdefault(key, set()).add(id)` for every key. */
  function AddAll(m: map<string, set<Id>>, keys: set<string>, id: Id): map<string, set<Id>> {
    map k | k in m.Keys + keys :: if k in keys then Get(m, k) + {id} else m[k]
  }

  /** One turn of the constructor's loop. */
  function Insert(ix: Index, f: Filter, m: Memory): Index {
    if !Admitted(f, m) then ix
    else
      var memories := ix.memories[m.id := m];
      Index(memories,
            AddAll(ix.subjects, if m.subject != "" then {m.subject} else {}, m.id),
            AddAll(ix.tags, m.tags, m.id),
            if m.supersedes.Some? && m.supersedes.value in memories then ix.supersedes[m.id := m.supersedes.value] else ix.supersedes)
  }

  function Build(memories: seq<Memory>, f: Filter): Index {
    if memories == [] then EMPTY
    else Insert(Build(memories[..|memories| - 1], f), f, memories[|memories| - 1])
  }

  function Neighbors(ix: Index, node: Id): set<Id>
    requires node in ix.memories
  {
    var m := ix.memories[node];
    (if m.subject != "" then Get(ix.subjects, m.subject) else {})
    + (set t, x | t in m.tags && x in Get(ix.tags, t) :: x)
    + (if node in ix.supersedes then {ix.supersedes[node]} else {})
    + (set child | child in ix.supersedes && ix.supersedes[child] == node)
    - {node}
  }

  function GraphOf(ix: Index): Graph {
    map node | node in ix.memories :: Neighbors(ix, node)
  }

  /** Every id the index mentions is a memory of it. */
  predicate Contained(ix: Index) {
    && (forall s :: s in ix.subjects ==> ix.subjects[s] <= ix.memories.Keys)
    && (forall t :: t in ix.tags ==> ix.tags[t] <= ix.memories.Keys)
    && (forall c :: c in ix.supersedes ==> c in ix.memories && ix.supersedes[c] in ix.memories)
  }

  /** The groups hold exactly the memories with that subject or tag. */
  ghost predicate Exact(ix: Index) {
    && (forall x :: x in ix.memories ==> ix.memories[x].id == x)
    && (forall s :: s in ix.subjects ==> s != "")
    && (forall s, x :: x in Get(ix.subjects, s) <==> x in ix.memories && s != "" && ix.memories[x].subject == s)
    && (forall t, x :: x in Get(ix.tags, t) <==> x in ix.memories && t in ix.memories[x].tags)
  }

  ghost predicate UniqueIds(memories: seq<Memory>) {
    forall i, j :: 0 <= i < j < |memories| ==> memories[i].id != memories[j].id
  }

  lemma InsertContained(ix: Index, f: Filter, m: Memory)
    requires Contained(ix)
    ensures Contained(Insert(ix, f, m))
  {}

  lemma {:induction false} BuildContained(memories: seq<Memory>, f: Filter)
    ensures Contained(Build(memories, f))
  {
    if memories != [] {
      BuildContained(memories[..|memories| - 1], f);
      InsertContained(Build(memories[..|memories| - 1], f), f, memories[|memories| - 1]);
    }
  }

  lemma InsertExact(ix: Index, f: Filter, m: Memory)
    requires Exact(ix) && m.id !in ix.memories
    ensures Exact(Insert(ix, f, m))
  {
    if Admitted(f, m) {
      var jx := Insert(ix, f, m);
      forall s, x
        ensures x in Get(jx.subjects, s) <==> x in jx.memories && s != "" && jx.memories[x].subject == s
      {
        AddAllGet(ix.subjects, if m.subject != "" then {m.subject} else {}, m.id, s);
        assert x in Get(ix.subjects, s) <==> x in ix.memories && s != "" && ix.memories[x].subject == s;
      }
      forall t, x
        ensures x in Get(jx.tags, t) <==> x in jx.memories && t in jx.memories[x].tags
      {
        AddAllGet(ix.tags, m.tags, m.id, t);
        assert x in Get(ix.tags, t) <==> x in ix.memories && t in ix.memories[x].tags;
      }
    }
  }

  lemma AddAllGet(m: map<string, set<Id>>, keys: set<string>, id: Id, k: string)
    ensures Get(AddAll(m, keys, id), k) == if k in keys then Get(m, k) + {id} else Get(m, k)
  {}

  lemma {:induction false} BuildExact(memories: seq<Memory>, f: Filter)
    requires UniqueIds(memories)
    ensures Exact(Build(memories, f))
    ensures forall x :: x in Build(memories, f).memories ==> exists i :: 0 <= i < |memories| && memories[i].id == x
  {
    if memories != [] {
      var n := |memories| - 1;
      BuildExact(memories[..n], f);
      var ix := Build(memories[..n], f);
      hide Exact;
      assert forall i :: 0 <= i < n ==> memories[..n][i].id != memories[n].id;
      InsertExact(ix, f, memories[n]);
      forall x | x in Build(memories, f).memories
        ensures exists i :: 0 <= i < |memories| && memories[i].id == x
      {
        if x in ix.memories {
          var i :| 0 <= i < n && memories[..n][i].id == x;
          assert memories[i].id == x;
        } else {
          assert memories[n].id == x;
        }
      }
    }
  }

  /** Record `i` is linked to what it supersedes: to a record that was admitted before it, or to itself. */
  predicate Linked(memories: seq<Memory>, f: Filter, i: nat)
    requires i < |memories|
  {
    Admitted(f, memories[i]) && memories[i].supersedes.Some? && Listed(memories[..i + 1], f, memories[i].supersedes.value)
  }

  predicate Listed(memories: seq<Memory>, f: Filter, x: Id) {
    exists m :: m in memories && Admitted(f, m) && m.id == x
  }

  lemma {:induction false} BuildLists(memories: seq<Memory>, f: Filter, x: Id)
    ensures x in Build(memories, f).memories <==> Listed(memories, f, x)
  {
    if memories != [] {
      var n := |memories| - 1;
      BuildLists(memories[..n], f, x);
      assert memories == memories[..n] + [memories[n]];
      hide Admitted;
      assert forall m :: m in memories <==> m in memories[..n] || m == memories[n];
    }
  }

  /** With unique ids the links of the index are exactly these; a link to a record that comes later is dropped. */
  lemma {:induction false} BuildLinks(memories: seq<Memory>, f: Filter)
    requires UniqueIds(memories)
    ensures var links := Build(memories, f).supersedes;
      && (forall i: nat :: i < |memories| ==>
            (memories[i].id in links <==> Linked(memories, f, i))
            && (Linked(memories, f, i) ==> links[memories[i].id] == memories[i].supersedes.value))
      && (forall c :: c in links ==> exists i: nat :: i < |memories| && memories[i].id == c)
  {
    hide Linked; hide Insert;
    if memories != [] {
      var n := |memories| - 1;
      var ix := Build(memories[..n], f);
      BuildLinks(memories[..n], f);
      InsertLinks(memories, f);
      forall i: nat | i < n
        ensures memories[..n][i] == memories[i] && memories[i].id != memories[n].id && Linked(memories[..n], f, i) == Linked(memories, f, i)
      {
        EarlierLinked(memories, f, n, i);
      }
      assert memories[n].id !in ix.supersedes;
    }
  }

  lemma InsertLinks(memories: seq<Memory>, f: Filter)
    requires memories != []
    ensures var n := |memories| - 1; var links := Build(memories[..n], f).supersedes;
      Build(memories, f).supersedes
        == if Linked(memories, f, n) then links[memories[n].id := memories[n].supersedes.value] else links
  {
    hide Admitted; hide Listed; hide AddAll;
    var n := |memories| - 1;
    assert memories[..n + 1] == memories;
    if memories[n].supersedes.Some? { BuildLists(memories, f, memories[n].supersedes.value); }
  }

  lemma EarlierLinked(memories: seq<Memory>, f: Filter, n: nat, i: nat)
    requires i < n <= |memories|
    ensures memories[..n][i] == memories[i] && Linked(memories[..n], f, i) == Linked(memories, f, i)
  {
    assert memories[..n][..i + 1] == memories[..i + 1];
  }

  lemma GraphClosed(ix: Index)
    requires Contained(ix)
    ensures Closed(GraphOf(ix))
  {
    forall a | a in ix.memories
      ensures Neighbors(ix, a) <= ix.memories.Keys
    {
      forall b | b in Neighbors(ix, a)
        ensures b in ix.memories
      {
        NeighborKind(ix, a, b);
      }
    }
  }

  /** Why two memories are neighbours. */
  predicate Shares(ix: Index, a: Id, b: Id)
    requires a in ix.memories
  {
    var m := ix.memories[a];
    || (m.subject != "" && b in Get(ix.subjects, m.subject))
    || (exists t :: t in m.tags && b in Get(ix.tags, t))
    || (a in ix.supersedes && ix.supersedes[a] == b)
    || (b in ix.supersedes && ix.supersedes[b] == a)
  }

  lemma NeighborKind(ix: Index, a: Id, b: Id)
    requires Contained(ix) && a in ix.memories
    ensures b in Neighbors(ix, a) <==> b != a && Shares(ix, a, b)
    ensures b in Neighbors(ix, a) ==> b in ix.memories
  {}

  /** With unique ids, relatedness goes both ways. */
  lemma GraphSymmetric(ix: Index)
    requires Contained(ix) && Exact(ix)
    ensures Symmetric(GraphOf(ix))
  {
    forall a, b | a in ix.memories && b in ix.memories && b in Neighbors(ix, a)
      ensures a in Neighbors(ix, b)
    {
      NeighborKind(ix, a, b);
      NeighborKind(ix, b, a);
      if t :| t in ix.memories[a].tags && b in Get(ix.tags, t) {
        assert a in Get(ix.tags, t);
      }
    }
  }

  // ----- the index in the terms of the records

  /** Sure enough, and with a creation time that is not before the cutoff where there is one. */
  predicate Passes(f: Filter, m: Memory) {
    && !(m.confidence < f.minConfidence)
    && (f.cutoff == None || (m.created != None && !(m.created.value < f.cutoff.value)))
  }

  lemma PassesIff(f: Filter, m: Memory)
    ensures Passes(f, m) <==> Admitted(f, m)
  {}

  /** With unique ids the index holds exactly the records that pass, each as it is. */
  lemma {:induction false} BuildHolds(memories: seq<Memory>, f: Filter, i: nat)
    requires UniqueIds(memories) && i < |memories|
    ensures memories[i].id in Build(memories, f).memories <==> Passes(f, memories[i])
    ensures Passes(f, memories[i]) ==> Build(memories, f).memories[memories[i].id] == memories[i]
  {
    hide AddAll; hide Passes; hide Admitted;
    var n := |memories| - 1;
    PassesIff(f, memories[i]);
    if i < n {
      BuildHolds(memories[..n], f, i);
      assert memories[..n][i] == memories[i] && memories[i].id != memories[n].id;
    } else if memories[n].id in Build(memories[..n], f).memories {
      BuildLists(memories[..n], f, memories[n].id);
      NotListed(memories, f, n);
    }
  }

  lemma NotListed(memories: seq<Memory>, f: Filter, n: nat)
    requires UniqueIds(memories) && n < |memories|
    ensures !Listed(memories[..n], f, memories[n].id)
  {
    hide Admitted;
  }

  lemma ListedUpTo(memories: seq<Memory>, f: Filter, i: nat, j: nat)
    requires UniqueIds(memories) && i < |memories| && j < |memories|
    ensures Listed(memories[..i + 1], f, memories[j].id) <==> j <= i && Admitted(f, memories[j])
  {
    hide Admitted;
    if Listed(memories[..i + 1], f, memories[j].id) {
      var m :| m in memories[..i + 1] && Admitted(f, m) && m.id == memories[j].id;
      var k :| 0 <= k <= i && memories[k] == m;
      assert k == j;
    }
    if j <= i { assert memories[..i + 1][j] == memories[j]; }
  }

  /** Two records of the index are neighbours exactly when they share a subject or a tag, or when the later
      one says that it supersedes the earlier. */
  lemma RelatedIff(memories: seq<Memory>, f: Filter, i: nat, j: nat)
    requires UniqueIds(memories) && i < |memories| && j < |memories| && i != j && Passes(f, memories[i]) && Passes(f, memories[j])
    ensures var a, b := memories[i], memories[j]; var ix := Build(memories, f);
      && a.id in ix.memories
      && (b.id in Neighbors(ix, a.id) <==>
            || (a.subject == b.subject && a.subject != "") || !(a.tags !! b.tags)
            || (a.supersedes == Some(b.id) && j < i) || (b.supersedes == Some(a.id) && i < j))
  {
    hide Build; hide Neighbors; hide Passes; hide Admitted;
    var a, b, ix := memories[i], memories[j], Build(memories, f);
    BuildHolds(memories, f, i);
    BuildHolds(memories, f, j);
    BuildExact(memories, f);
    BuildContained(memories, f);
    LinkIff(memories, f, i, j);
    LinkIff(memories, f, j, i);
    assert a.id != b.id;
    NeighborKind(ix, a.id, b.id);
    SharesMeans(ix, a.id, b.id);
    if t :| t in a.tags && t in b.tags { assert t in a.tags * b.tags; }
  }

  lemma LinkIff(memories: seq<Memory>, f: Filter, i: nat, j: nat)
    requires UniqueIds(memories) && i < |memories| && j < |memories| && i != j && Passes(f, memories[i]) && Passes(f, memories[j])
    ensures var links := Build(memories, f).supersedes; var a, b := memories[i], memories[j];
      (a.id in links && links[a.id] == b.id) <==> a.supersedes == Some(b.id) && j < i
  {
    hide Build; hide Passes; hide Admitted; hide Listed;
    PassesIff(f, memories[i]);
    PassesIff(f, memories[j]);
    BuildLinks(memories, f);
    ListedUpTo(memories, f, i, j);
    assert Linked(memories, f, i) <==> memories[i].supersedes.Some? && Listed(memories[..i + 1], f, memories[i].supersedes.value);
  }

  lemma SharesMeans(ix: Index, a: Id, b: Id)
    requires Exact(ix) && a in ix.memories && b in ix.memories
    ensures Shares(ix, a, b) <==>
      || (ix.memories[a].subject == ix.memories[b].subject != "") || (exists t :: t in ix.memories[a].tags && t in ix.memories[b].tags)
      || (a in ix.supersedes && ix.supersedes[a] == b) || (b in ix.supersedes && ix.supersedes[b] == a)
  {}

  /** The object: four dictionaries that the constructor fills record by record. */
  class SparseMemoryIndex {
    var memories: map<Id, Memory>
    var subjects: map<string, set<Id>>
    var tags: map<string, set<Id>>
    var supersedes: map<Id, Id>

    function View(): Index
      reads this
    {
      Index(memories, subjects, tags, supersedes)
    }

    constructor (records: seq<Memory>, f: Filter)
      ensures View() == Build(records, f) && Contained(View())
      ensures UniqueIds(records) ==> Exact(View())
    {
      memories, subjects, tags, supersedes := map[], map[], map[], map[];
      new;
      assert records[..0] == [];
      for i := 0 to |records|
        invariant View() == Build(records[..i], f)
      {
        var m := records[i];
        assert records[..i + 1][..i] == records[..i];
        if !Admitted(f, m) {
          continue;
        }
        memories := memories[m.id := m];
        subjects := AddAll(subjects, if m.subject != "" then {m.subject} else {}, m.id);
        tags := AddAll(tags, m.tags, m.id);
        if m.supersedes.Some? && m.supersedes.value in memories {
          supersedes := supersedes[m.id := m.supersedes.value];
        }
      }
      assert records[..|records|] == records;
      BuildContained(records, f);
      if UniqueIds(records) { BuildExact(records, f); }
    }
  }
}
