/** What a listing shows and in which order, and what the conflict report says, in the terms of the records. */
module ContinuityLaws {
  import opened Options
  import opened Order
  import opened Continuity

  // ----- listings

  /** `a` comes before `b` in a listing: created later, or at the same time with the greater id. */
  predicate Precedes(a: Record, b: Record) {
    a.created > b.created || (a.created == b.created && TextBefore(b.id.text, a.id.text))
  }

  predicate NewestFirst(rs: seq<Record>) {
    forall i, j :: 0 <= i < j < |rs| ==> Precedes(rs[i], rs[j])
  }

  predicate IdsDescend(l: Ledger, ids: seq<Id>) {
    && (forall i :: 0 <= i < |ids| ==> ids[i] in l)
    && (forall i, j :: 0 <= i < j < |ids| ==> Newer(l, ids[i], ids[j]))
  }

  lemma NewerPrecedes(l: Ledger, a: Id, b: Id)
    requires Keyed(l) && a in l && b in l
    ensures Newer(l, a, b) <==> Precedes(l[a], l[b])
  {
    hide TextBefore;
  }

  lemma {:induction false} RecordsDescend(l: Ledger, ids: seq<Id>, keep: Record -> bool)
    requires Keyed(l) && IdsDescend(l, ids)
    ensures NewestFirst(Records(l, ids, keep))
  {
    hide Precedes; hide Newer; hide Keyed;
    if ids != [] {
      var rest := Records(l, ids[1..], keep);
      forall i | 0 <= i < |ids[1..]| ensures ids[1..][i] == ids[i + 1] {}
      RecordsDescend(l, ids[1..], keep);
      RecordsMembers(l, ids[1..], keep);
      forall j | 0 <= j < |rest| ensures Precedes(l[ids[0]], rest[j]) {
        assert rest[j] in rest;
        var x :| x in ids[1..] && l[x] == rest[j] && keep(rest[j]);
        var k :| 0 < k < |ids| && ids[k] == x;
        NewerPrecedes(l, ids[0], x);
      }
    }
  }

  lemma AllRecords(l: Ledger, keep: Record -> bool, all: seq<Record>, ids: seq<Id>)
    requires Keyed(l) && IdsDescend(l, ids) && (forall x :: x in l ==> x in ids) && all == Records(l, ids, keep)
    ensures NewestFirst(all)
    ensures forall r :: r in all <==> r.id in l && l[r.id] == r && keep(r)
  {
    hide Newer; hide Precedes;
    RecordsMembers(l, ids, keep);
    RecordsDescend(l, ids, keep);
    hide Records;
    forall r | r in all ensures r.id in l && l[r.id] == r && keep(r) {
      var y :| y in ids && l[y] == r && keep(r);
    }
  }

  lemma FirstOf(all: seq<Record>, r: Record)
    requires NewestFirst(all)
    ensures var rs := if |all| <= LIST_LIMIT then all else all[..LIST_LIMIT];
      && NewestFirst(rs) && |rs| <= LIST_LIMIT && (forall s :: s in rs ==> s in all)
      && (r in all && r !in rs ==> |rs| == LIST_LIMIT && forall s :: s in rs ==> Precedes(s, r))
  {
    hide Precedes;
    if r in all {
      var k :| 0 <= k < |all| && all[k] == r;
      if k < LIST_LIMIT && |all| > LIST_LIMIT { assert all[..LIST_LIMIT][k] == r; }
    }
  }

  /** A listing holds records that its filter keeps, newest first; one is missing only from a full listing,
      which then holds newer ones. */
  lemma ListingMeans(l: Ledger, keep: Record -> bool, x: Id)
    requires Keyed(l) && x in l
    ensures var rs := Listing(l, keep);
      && NewestFirst(rs) && |rs| <= LIST_LIMIT && (forall r :: r in rs ==> r.id in l && l[r.id] == r && keep(r))
      && (keep(l[x]) && l[x] !in rs ==> |rs| == LIST_LIMIT && forall r :: r in rs ==> Precedes(r, l[x]))
  {
    NewerStrict(l);
    hide Newer; hide Precedes; hide NewestFirst; hide Records;
    var ids := Sorted(l.Keys, (a, b) => Newer(l, a, b));
    var all := Records(l, ids, keep);
    AllRecords(l, keep, all, ids);
    FirstOf(all, l[x]);
  }

  // ----- the report

  /** No two entries of the list have one id. */
  predicate Distinct(rs: seq<Record>) {
    forall i, j :: 0 <= i < j < |rs| ==> rs[i].id != rs[j].id
  }

  /** Not archived, and replaced by no record of its subject that is not archived. */
  predicate StillOpen(records: seq<Record>, r: Record) {
    r in records && r.status != Archived
    && forall s :: s in records && s.subject == r.subject && s.status != Archived ==> s.supersedes != Some(r.id)
  }

  lemma SameId(rs: seq<Record>, r: Record, s: Record)
    requires Distinct(rs) && r in rs && s in rs && r.id == s.id
    ensures r == s
  {}

  lemma ReplacedIff(group: seq<Record>, r: Record)
    requires r in group
    ensures r.id in SupersededIn(group) <==> exists s :: s in group && s.status != Archived && s.supersedes == Some(r.id)
  {}

  lemma OpenIdsIff(group: seq<Record>, r: Record)
    requires Distinct(group) && r in group
    ensures r.id in OpenIds(group) <==> r.status != Archived && r.id !in SupersededIn(group)
  {
    hide SupersededIn;
    if r.id in OpenIds(group) {
      var o :| o in group && Active(o) && o.id !in SupersededIn(group) && o.id == r.id;
      SameId(group, o, r);
    }
  }

  lemma OpenIff(records: seq<Record>, subject: string, r: Record)
    requires Distinct(records)
    ensures r in OpenRecords(WithSubject(records, subject)) <==> r.subject == subject && StillOpen(records, r)
  {
    var group := WithSubject(records, subject);
    DistinctSubject(records, subject);
    hide SupersededIn; hide OpenIds; hide Distinct;
    if r in group {
      ReplacedIff(group, r);
      OpenIdsIff(group, r);
    }
  }

  lemma DistinctSubject(records: seq<Record>, subject: string)
    requires Distinct(records)
    ensures Distinct(WithSubject(records, subject))
  {
    if records != [] {
      var rest := WithSubject(records[1..], subject);
      DistinctSubject(records[1..], subject);
      forall j | 0 <= j < |rest| ensures records[0].id != rest[j].id { assert rest[j] in records[1..]; }
    }
  }

  lemma DistinctIds(records: seq<Record>, ids: set<Id>)
    requires Distinct(records)
    ensures Distinct(WithIds(records, ids))
  {
    if records != [] {
      var rest := WithIds(records[1..], ids);
      DistinctIds(records[1..], ids);
      forall j | 0 <= j < |rest| ensures records[0].id != rest[j].id { assert rest[j] in records[1..]; }
    }
  }

  ghost predicate TwoOpen(records: seq<Record>, subject: string) {
    exists r, s :: StillOpen(records, r) && StillOpen(records, s) && r.id != s.id && r.subject == s.subject == subject
  }

  lemma TwoMembers(rs: seq<Record>)
    requires Distinct(rs)
    ensures |rs| >= 2 <==> exists r, s :: r in rs && s in rs && r.id != s.id
  {
    if |rs| >= 2 { assert rs[0] in rs && rs[1] in rs; }
    if r, s :| r in rs && s in rs && r.id != s.id {
      var i :| 0 <= i < |rs| && rs[i] == r;
      var j :| 0 <= j < |rs| && rs[j] == s;
      assert i != j;
    }
  }

  lemma TwoOpenIff(records: seq<Record>, subject: string)
    requires Distinct(records)
    ensures |OpenRecords(WithSubject(records, subject))| >= 2 <==> TwoOpen(records, subject)
  {
    DistinctSubject(records, subject);
    DistinctIds(WithSubject(records, subject), OpenIds(WithSubject(records, subject)));
    var open := OpenRecords(WithSubject(records, subject));
    forall r ensures r in open <==> r.subject == subject && StillOpen(records, r) { OpenIff(records, subject, r); }
    assert Distinct(open);
    hide StillOpen; hide OpenRecords; hide Distinct; hide WithSubject;
    TwoMembers(open);
    TwoOpenAre(records, subject, open);
  }

  lemma TwoOpenAre(records: seq<Record>, subject: string, open: seq<Record>)
    requires forall r :: r in open <==> r.subject == subject && StillOpen(records, r)
    ensures TwoOpen(records, subject) <==> exists r, s :: r in open && s in open && r.id != s.id
  {
    hide StillOpen;
    if r, s :| StillOpen(records, r) && StillOpen(records, s) && r.id != s.id && r.subject == s.subject == subject {
      assert r in open && s in open;
    }
    if r, s :| r in open && s in open && r.id != s.id {
      assert StillOpen(records, r) && StillOpen(records, s);
    }
  }

  /** The set lists exactly the open records of its subject, oldest first, two or more of them, and is
      unresolved exactly when two of them make different claims. */
  ghost predicate SetMeans(h: Hashing, records: seq<Record>, c: ConflictSet) {
    && (forall r :: r in c.memories <==> r.subject == c.subject && StillOpen(records, r))
    && |c.memories| >= 2 && (forall i, j :: 0 <= i < j < |c.memories| ==> c.memories[i].created <= c.memories[j].created)
    && (c.unresolved <==> exists r, s :: r in c.memories && s in c.memories && ClaimOf(h, r) != ClaimOf(h, s))
  }

  lemma ClaimsCounted(h: Hashing, open: seq<Record>)
    requires open != []
    ensures |Claims(h, open)| >= 1 && (|Claims(h, open)| >= 2 <==> exists r, s :: r in open && s in open && ClaimOf(h, r) != ClaimOf(h, s))
  {
    hide ClaimOf;
    TwoClaims(h, open);
    assert ClaimOf(h, open[0]) in Claims(h, open);
  }

  lemma SortedByCreation(open: seq<Record>)
    ensures var rs := StableSort(open, CreatedBefore);
      (forall r :: r in rs <==> r in open) && |rs| == |open| && forall i, j :: 0 <= i < j < |rs| ==> rs[i].created <= rs[j].created
  {
    assert TotalPreorder(CreatedBefore);
    StableSortSorted(open, CreatedBefore);
    SameMembers(open, CreatedBefore);
    hide StableSort;
  }

  lemma SameClaims(h: Hashing, a: seq<Record>, b: seq<Record>)
    requires forall r :: r in a <==> r in b
    ensures (exists r, s :: r in a && s in a && ClaimOf(h, r) != ClaimOf(h, s)) <==> (exists r, s :: r in b && s in b && ClaimOf(h, r) != ClaimOf(h, s))
  {
    hide ClaimOf;
  }

  /** The set of a subject, from its open records. */
  lemma SetIs(h: Hashing, records: seq<Record>, subject: string, open: seq<Record>, c: ConflictSet)
    requires |open| >= 2 && forall r :: r in open <==> r.subject == subject && StillOpen(records, r)
    requires c == ConflictSet(subject, |Claims(h, open)| >= 2, StableSort(open, CreatedBefore))
    ensures SetMeans(h, records, c)
  {
    hide StillOpen; hide StableSort; hide ClaimOf; hide Claims;
    SortedByCreation(open);
    ClaimsCounted(h, open);
    SameClaims(h, open, c.memories);
  }

  lemma ConflictsOnIs(h: Hashing, records: seq<Record>, subject: string, open: seq<Record>)
    requires open == OpenRecords(WithSubject(records, subject))
    ensures ConflictsOn(h, records, subject)
         == if |open| >= 2 then [ConflictSet(subject, |Claims(h, open)| >= 2, StableSort(open, CreatedBefore))] else []
  {
    hide OpenRecords; hide WithSubject; hide StableSort; hide ClaimOf;
    if |open| >= 2 { ClaimsCounted(h, open); }
    hide Claims;
  }

  lemma OnMeans(h: Hashing, records: seq<Record>, subject: string)
    requires Distinct(records)
    ensures var cs := ConflictsOn(h, records, subject);
      if TwoOpen(records, subject) then |cs| == 1 && cs[0].subject == subject && SetMeans(h, records, cs[0]) else cs == []
  {
    hide *;
    var open := OpenRecords(WithSubject(records, subject));
    TwoOpenIff(records, subject);
    ConflictsOnIs(h, records, subject, open);
    forall r ensures r in open <==> r.subject == subject && StillOpen(records, r) { OpenIff(records, subject, r); }
    if |open| >= 2 { SetIs(h, records, subject, open, ConflictsOn(h, records, subject)[0]); }
  }

  /** A set for each listed subject with two open records, in the order of the subjects. */
  lemma {:induction false} OverMeans(h: Hashing, records: seq<Record>, subjects: seq<string>)
    requires Distinct(records) && forall i, j :: 0 <= i < j < |subjects| ==> TextBefore(subjects[i], subjects[j])
    ensures var cs := ConflictsOver(h, records, subjects);
      && (forall i, j :: 0 <= i < j < |cs| ==> TextBefore(cs[i].subject, cs[j].subject))
      && (forall c :: c in cs ==> c.subject in subjects && SetMeans(h, records, c))
      && (forall s :: s in subjects && TwoOpen(records, s) ==> exists c :: c in cs && c.subject == s)
  {
    hide SetMeans; hide TwoOpen; hide TextBefore; hide ConflictsOn; hide Distinct;
    if subjects != [] {
      var first, rest := ConflictsOn(h, records, subjects[0]), ConflictsOver(h, records, subjects[1..]);
      OnMeans(h, records, subjects[0]);
      forall i | 0 <= i < |subjects[1..]| ensures subjects[1..][i] == subjects[i + 1] {}
      OverMeans(h, records, subjects[1..]);
      var cs := first + rest;
      forall i, j | 0 <= i < j < |cs| ensures TextBefore(cs[i].subject, cs[j].subject) {
        assert j >= |first|;
        assert rest[j - |first|] in rest;
        if i < |first| {
          var k :| 0 < k < |subjects| && subjects[k] == cs[j].subject;
        }
      }
      forall s | s in subjects && TwoOpen(records, s) ensures exists c :: c in cs && c.subject == s {
        if s == subjects[0] { assert cs[0] in cs; }
        else { var c :| c in rest && c.subject == s; assert c in cs; }
      }
    }
  }

  /** The report has one set for each subject asked about with two or more open records, and no other, in the
      order of their names; each lists those records and says whether they disagree. */
  lemma ReportMeans(h: Hashing, records: seq<Record>, only: Option<string>, subject: string)
    requires Distinct(records)
    ensures var cs := DetectConflicts(h, records, only);
      && (forall i, j :: 0 <= i < j < |cs| ==> TextBefore(cs[i].subject, cs[j].subject))
      && (forall c :: c in cs ==> c.subject != "" && (only == None || only == Some(c.subject)) && SetMeans(h, records, c))
      && (subject != "" && (only == None || only == Some(subject)) && TwoOpen(records, subject) ==> exists c :: c in cs && c.subject == subject)
  {
    TextBeforeStrict();
    hide SetMeans; hide TextBefore; hide ConflictsOver; hide Distinct; hide StillOpen;
    OverMeans(h, records, Sorted(Subjects(records, only), TextBefore));
    if subject != "" && (only == None || only == Some(subject)) && TwoOpen(records, subject) {
      var r, s :| StillOpen(records, r) && StillOpen(records, s) && r.id != s.id && r.subject == s.subject == subject;
      IsListed(records, r);
      assert subject in Subjects(records, only);
    }
  }

  lemma IsListed(records: seq<Record>, r: Record)
    requires StillOpen(records, r)
    ensures r in records
  {}
}
