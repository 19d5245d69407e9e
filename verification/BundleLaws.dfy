/** What a bundle means in the fields of the records: who may stand beside whom, who is left out and why,
    what is shown and charged, and which record comes next. */
module BundleLaws {
  import opened Options
  import opened Order
  import Expansion
  import opened Bundle

  /** Activated enough, with provenance, and asked for by a term of the query, the graph, or the last turn. */
  predicate AskedFor(c: Config, s: Scored) {
    s.A >= c.theta && s.P > 0.0 && (20.0 * s.Q > 1.0 || s.boost > 0.0 || s.rec.id in c.sticky)
  }

  lemma AskedForIff(c: Config, s: Scored)
    ensures AskedFor(c, s) <==> Eligible(c, s)
  {}

  /** Same subject, another text. */
  predicate Disagree(a: Scored, b: Scored) {
    a.rec.subject == b.rec.subject && a.rec.subject != "" && a.sha != b.sha
  }

  lemma GreedyMembers(c: Config, scored: seq<Scored>, entries: seq<Entry>, i: nat)
    requires Greedy(c, scored, entries) && i < |entries|
    ensures Greedy(c, scored, entries[..i + 1])
  {
    if i + 1 < |entries| {
      GreedyMembers(c, scored, entries[..|entries| - 1], i);
      assert entries[..|entries| - 1][..i + 1] == entries[..i + 1];
    } else {
      assert entries[..i + 1] == entries;
    }
  }

  /** Every entry is a record that was asked for; no record is there twice, and under the exclude policy two
      entries on one subject say the same. */
  lemma EntriesAgree(c: Config, scored: seq<Scored>, entries: seq<Entry>, i: nat, j: nat)
    requires Greedy(c, scored, entries) && i < j < |entries|
    ensures entries[i].scored in scored && entries[j].scored in scored && AskedFor(c, entries[i].scored) && AskedFor(c, entries[j].scored)
    ensures entries[i].scored != entries[j].scored
    ensures c.exclude && entries[i].scored.rec.subject == entries[j].scored.rec.subject != "" ==> entries[i].scored.sha == entries[j].scored.sha
  {
    hide Rendered; hide Densest; hide Eligible;
    GreedyMembers(c, scored, entries, i);
    GreedyMembers(c, scored, entries, j);
    GreedyPeaceful(c, scored, entries, i, j);
    AskedForIff(c, entries[i].scored);
    AskedForIff(c, entries[j].scored);
    assert entries[..i + 1][i] == entries[i] && entries[..j + 1][j] == entries[j];
  }

  ghost predicate InBundle(entries: seq<Entry>, s: Scored) {
    exists i :: 0 <= i < |entries| && entries[i].scored == s
  }

  lemma InBundleIff(entries: seq<Entry>, s: Scored)
    ensures InBundle(entries, s) <==> Holds(entries, s)
  {
    if e :| e in entries && e.scored == s {
      var i :| 0 <= i < |entries| && entries[i] == e;
    }
  }

  ghost predicate SomeDisagrees(entries: seq<Entry>, s: Scored) {
    exists i :: 0 <= i < |entries| && Disagree(s, entries[i].scored)
  }

  lemma SomeDisagreesIff(entries: seq<Entry>, s: Scored)
    ensures SomeDisagrees(entries, s) <==> Disputed(s, entries)
  {
    if e :| e in entries && Contradicts(s, e.scored) {
      var i :| 0 <= i < |entries| && entries[i] == e;
      assert Disagree(s, entries[i].scored);
    }
    if i :| 0 <= i < |entries| && Disagree(s, entries[i].scored) {
      assert entries[i] in entries;
    }
  }

  /** The tokens of all entries. */
  function Spent(entries: seq<Entry>): nat {
    if entries == [] then 0 else entries[0].cost + Spent(entries[1..])
  }

  lemma {:induction false} SpentSnoc(entries: seq<Entry>, e: Entry)
    ensures Spent(entries + [e]) == Spent(entries) + e.cost
  {
    if entries == [] {
      assert [] + [e] == [e];
    } else {
      assert (entries + [e])[1..] == entries[1..] + [e];
      SpentSnoc(entries[1..], e);
    }
  }

  lemma {:induction false} SpentIsUsed(entries: seq<Entry>)
    ensures Spent(entries) == Used(entries)
  {
    if entries != [] {
      var n := |entries| - 1;
      SpentIsUsed(entries[..n]);
      SpentSnoc(entries[..n], entries[n]);
      assert entries == entries[..n] + [entries[n]];
    }
  }

  /** What a record's summary needs, at least one token. */
  predicate HasRoom(c: Config, entries: seq<Entry>, s: Scored) {
    Spent(entries) + 1 <= c.budget && Spent(entries) + Tokens(c.summary(s.content)) <= c.budget
  }

  lemma HasRoomIff(c: Config, entries: seq<Entry>, s: Scored)
    ensures HasRoom(c, entries, s) <==> Fits(c, s, entries)
  {
    SpentIsUsed(entries);
  }

  /** A record that was asked for and left out has no room for its summary, or, under the exclude policy,
      says something else on the subject of an entry; it is listed as excluded exactly in the second case. */
  lemma LeftOutIff(c: Config, scored: seq<Scored>, entries: seq<Entry>, excluded: seq<Id>, s: Scored)
    requires Greedy(c, scored, entries) && Maximal(c, scored, entries, excluded) && UniqueIds(scored)
    requires s in scored && AskedFor(c, s) && !InBundle(entries, s)
    ensures HasRoom(c, entries, s) ==> c.exclude && SomeDisagrees(entries, s) && s.rec.id in excluded
    ensures s.rec.id in excluded ==> c.exclude && SomeDisagrees(entries, s)
  {
    hide Greedy; hide Eligible; hide Fits; hide Holds; hide Disputed; hide HasRoom; hide InBundle; hide SomeDisagrees;
    AskedForIff(c, s);
    HasRoomIff(c, entries, s);
    InBundleIff(entries, s);
    SomeDisagreesIff(entries, s);
    if s.rec.id in excluded {
      var o :| Excluded(c, scored, entries, o) && o.rec.id == s.rec.id;
      SameIdSame(scored, s, o);
    }
  }

  lemma SameIdSame(scored: seq<Scored>, s: Scored, o: Scored)
    requires UniqueIds(scored) && s in scored && o in scored && s.rec.id == o.rec.id
    ensures s == o
  {
    var i :| 0 <= i < |scored| && scored[i] == s;
    var j :| 0 <= j < |scored| && scored[j] == o;
  }

  /** Every excluded id is of a record that was asked for, is not in the bundle and disagrees with an entry. */
  lemma ExcludedMeans(c: Config, scored: seq<Scored>, entries: seq<Entry>, excluded: seq<Id>, x: Id)
    requires Maximal(c, scored, entries, excluded) && x in excluded
    ensures c.exclude && exists s :: s in scored && s.rec.id == x && AskedFor(c, s) && !InBundle(entries, s) && SomeDisagrees(entries, s)
  {
    hide Eligible; hide Fits; hide Holds; hide Disputed; hide InBundle; hide SomeDisagrees;
    var s :| Excluded(c, scored, entries, s) && s.rec.id == x;
    AskedForIff(c, s);
    InBundleIff(entries, s);
    SomeDisagreesIff(entries, s);
  }

  /** The text an entry shows. */
  function Shown(c: Config, e: Entry): string {
    match e.resolution
    case Summary => c.summary(e.scored.content)
    case Detail => e.scored.content
    case Evidence => c.evidence(e.scored)
  }

  /** An entry is charged the tokens of what it shows: the resolution of the last turn where that fits the
      budget, else the summary; and the bundle stays within the budget. */
  lemma EntryCharged(c: Config, scored: seq<Scored>, entries: seq<Entry>, i: nat)
    requires Greedy(c, scored, entries) && i < |entries|
    ensures var e := entries[i]; var kept := e.scored.rec.id in c.sticky;
      && e.cost == Tokens(Shown(c, e)) && Spent(entries) <= c.budget
      && (e.resolution == Summary || (kept && e.resolution == c.sticky[e.scored.rec.id]))
      && (kept && e.resolution != c.sticky[e.scored.rec.id] ==>
            Spent(entries[..i]) + Tokens(Shown(c, e.(resolution := c.sticky[e.scored.rec.id]))) > c.budget)
  {
    hide Densest; hide Eligible; hide Tokens; hide Disputed; hide Holds;
    GreedyMembers(c, scored, entries, i);
    GreedyWithinBudget(c, scored, entries);
    SpentIsUsed(entries);
    SpentIsUsed(entries[..i]);
    assert entries[..i + 1][..i] == entries[..i] && entries[..i + 1][i] == entries[i];
    assert Rendered(c, entries[..i], entries[i]);
  }

  // ----- which record comes next

  /** The bonds to a list of entries add up. */
  lemma {:induction false} BondSumAdds(s: Scored, a: seq<Entry>, b: seq<Entry>)
    ensures BondSum(s, a + b) == BondSum(s, a) + BondSum(s, b)
    ensures BondSum(s, []) == 0.0 && forall e :: BondSum(s, [e]) == Expansion.BondStrength(s.rec, e.scored.rec)
  {
    hide Expansion.BondStrength;
    forall e ensures BondSum(s, [e]) == Expansion.BondStrength(s.rec, e.scored.rec) { assert [e][..0] == []; }
    if b == [] {
      assert a + b == a;
    } else {
      var n := |b| - 1;
      BondSumAdds(s, a, b[..n]);
      assert (a + b)[..|a + b| - 1] == a + b[..n];
    }
  }

  function Charged(c: Config, s: Scored): real {
    if Tokens(c.summary(s.content)) == 0 then 1.0 else Tokens(c.summary(s.content)) as real
  }

  lemma RatioOrder(x: real, m: real, y: real, n: real)
    requires m > 0.0 && n > 0.0 && x / m <= y / n
    ensures x * n <= y * m
  {
    assert x == (x / m) * m && y == (y / n) * n;
    var p, q := x / m, y / n;
    assert p * (m * n) <= q * (m * n);
    assert x * n == p * (m * n) && y * m == q * (m * n);
  }

  /** Each entry has the greatest activation and weighted bond to the entries before it, per token of its
      summary, among the records that could have been taken: asked for, not taken, with room, and under the
      exclude policy without a disagreement. */
  lemma NextIsDensest(c: Config, scored: seq<Scored>, entries: seq<Entry>, i: nat, o: Scored)
    requires Greedy(c, scored, entries) && i < |entries|
    requires o in scored && AskedFor(c, o) && !InBundle(entries[..i], o) && HasRoom(c, entries[..i], o) && !(c.exclude && SomeDisagrees(entries[..i], o))
    ensures var s, before := entries[i].scored, entries[..i];
      (o.A + c.bondWeight * BondSum(o, before)) * Charged(c, s) <= (s.A + c.bondWeight * BondSum(s, before)) * Charged(c, o)
  {
    hide Greedy; hide Density; hide Charged; hide BondSum; hide AskedFor; hide HasRoom; hide InBundle; hide SomeDisagrees;
    NextDensity(c, scored, entries, i, o);
    DensityOrder(c, o, entries[i].scored, entries[..i]);
  }

  lemma NextDensity(c: Config, scored: seq<Scored>, entries: seq<Entry>, i: nat, o: Scored)
    requires Greedy(c, scored, entries) && i < |entries|
    requires o in scored && AskedFor(c, o) && !InBundle(entries[..i], o) && HasRoom(c, entries[..i], o) && !(c.exclude && SomeDisagrees(entries[..i], o))
    ensures Density(c, o, entries[..i]) <= Density(c, entries[i].scored, entries[..i])
  {
    hide Eligible; hide Rendered; hide Fits; hide Holds; hide Disputed; hide HasRoom; hide InBundle; hide SomeDisagrees; hide Density; hide AskedFor;
    var s, before := entries[i].scored, entries[..i];
    GreedyMembers(c, scored, entries, i);
    assert entries[..i + 1][..i] == before && entries[..i + 1][i] == entries[i];
    AskedForIff(c, o);
    HasRoomIff(c, before, o);
    InBundleIff(before, o);
    SomeDisagreesIff(before, o);
    assert Densest(c, scored, before, s);
  }

  lemma DensityOrder(c: Config, o: Scored, s: Scored, before: seq<Entry>)
    requires Density(c, o, before) <= Density(c, s, before)
    ensures (o.A + c.bondWeight * BondSum(o, before)) * Charged(c, s) <= (s.A + c.bondWeight * BondSum(s, before)) * Charged(c, o)
  {
    BaseIsCharged(c, o);
    BaseIsCharged(c, s);
    hide BondSum; hide Charged; hide BaseCost;
    assert Density(c, o, before) == (o.A + c.bondWeight * BondSum(o, before)) / Charged(c, o);
    assert Density(c, s, before) == (s.A + c.bondWeight * BondSum(s, before)) / Charged(c, s);
    hide Density;
    RatioOrder(o.A + c.bondWeight * BondSum(o, before), Charged(c, o), s.A + c.bondWeight * BondSum(s, before), Charged(c, s));
  }

  lemma BaseIsCharged(c: Config, s: Scored)
    ensures BaseCost(c, s) as real == Charged(c, s) > 0.0
  {}
}
