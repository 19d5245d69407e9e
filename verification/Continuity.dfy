/** Ledger records, the store that holds them, and conflict detection between open records. */
module Continuity {
  import opened Options
  import opened Order

  datatype Status = Draft | Verified | Archived

  /** `subject == ""` when there is none; `sha == ""` when no content hash was stored; `rest` is
      everything else a record carries (agent, type, tags, evidence, confidence). */
  datatype Record = Record(id: Id, content: string, subject: string, status: Status, supersedes: Option<Id>,
                           sha: string, session: string, created: nat, updated: nat, rest: string)

  type Ledger = map<Id, Record>

  predicate Keyed(l: Ledger) {
    forall x :: x in l ==> l[x].id == x
  }

  predicate Active(r: Record) {
    r.status != Archived
  }

  /** `content_sha256`: the digest of the normalised content. */
  datatype Hashing = Hashing(claim: string -> string)

  function ClaimOf(h: Hashing, r: Record): string {
    if r.sha != "" then r.sha else h.claim(r.content)
  }

  // ----- list_memories

  const LIST_LIMIT := 9999

  function CreatedAt(l: Ledger, x: Id): nat {
    if x in l then l[x].created else 0
  }

  /** Newest first: by (created_at, id), descending. */
  predicate Newer(l: Ledger, a: Id, b: Id) {
    CreatedAt(l, a) > CreatedAt(l, b) || (CreatedAt(l, a) == CreatedAt(l, b) && Before(b, a))
  }

  lemma NewerStrict(l: Ledger)
    ensures StrictOrder((a, b) => Newer(l, a, b))
  {
    BeforeStrict();
  }

  function Records(l: Ledger, ids: seq<Id>, keep: Record -> bool): (r: seq<Record>)
    requires forall x :: x in ids ==> x in l
  {
    if ids == [] then []
    else (if keep(l[ids[0]]) then [l[ids[0]]] else []) + Records(l, ids[1..], keep)
  }

  /** `list_memories(limit=9999, ...)` with the filters as one predicate. */
  function Listing(l: Ledger, keep: Record -> bool): seq<Record> {
    NewerStrict(l);
    var all := Records(l, Sorted(l.Keys, (a, b) => Newer(l, a, b)), keep);
    if |all| <= LIST_LIMIT then all else all[..LIST_LIMIT]
  }

  function Live(l: Ledger): seq<Record> {
    Listing(l, r => Active(r))
  }

  function LiveOn(l: Ledger, subject: string): seq<Record> {
    Listing(l, r => Active(r) && r.subject == subject)
  }

  lemma {:induction false} RecordsMembers(l: Ledger, ids: seq<Id>, keep: Record -> bool)
    requires forall x :: x in ids ==> x in l
    ensures |Records(l, ids, keep)| <= |ids|
    ensures forall r :: r in Records(l, ids, keep) <==> exists x :: x in ids && l[x] == r && keep(r)
  {
    if ids != [] {
      RecordsMembers(l, ids[1..], keep);
      forall r
        ensures r in Records(l, ids, keep) <==> exists x :: x in ids && l[x] == r && keep(r)
      {
        if x :| x in ids && l[x] == r && keep(r) {
          assert x == ids[0] || x in ids[1..];
        }
        if r in Records(l, ids, keep) {
          if keep(l[ids[0]]) && r == l[ids[0]] { assert ids[0] in ids; }
          else { assert r in Records(l, ids[1..], keep); var x :| x in ids[1..] && l[x] == r && keep(r); assert x in ids; }
        }
      }
    }
  }

  /** Under the listing limit a listing is complete. */
  lemma ListingMembers(l: Ledger, keep: Record -> bool)
    requires |l| <= LIST_LIMIT
    ensures forall r :: r in Listing(l, keep) <==> exists x :: x in l && l[x] == r && keep(r)
  {
    NewerStrict(l);
    var ids := Sorted(l.Keys, (a, b) => Newer(l, a, b));
    assert |ids| == |l.Keys| == |l|;
    RecordsMembers(l, ids, keep);
    var all := Records(l, ids, keep);
    assert Listing(l, keep) == all;
    forall r
      ensures r in all <==> exists x :: x in l && l[x] == r && keep(r)
    {
      if x :| x in l && l[x] == r && keep(r) { assert x in ids; }
    }
  }

  // ----- detect_conflicts

  /** The ids that a record of the group replaces while it is active itself. */
  function SupersededIn(group: seq<Record>): set<Id> {
    set r | r in group && r.supersedes.Some? && Active(r) && (exists s :: s in group && s.id == r.supersedes.value) :: r.supersedes.value
  }

  /** `_non_superseded_ids` */
  function OpenIds(group: seq<Record>): set<Id> {
    set r | r in group && Active(r) && r.id !in SupersededIn(group) :: r.id
  }

  function WithSubject(records: seq<Record>, subject: string): (g: seq<Record>)
    ensures forall r :: r in g <==> r in records && r.subject == subject
  {
    if records == [] then []
    else
      assert records == [records[0]] + records[1..];
      (if records[0].subject == subject then [records[0]] else []) + WithSubject(records[1..], subject)
  }

  function WithIds(records: seq<Record>, ids: set<Id>): (g: seq<Record>)
    ensures forall r :: r in g <==> r in records && r.id in ids
  {
    if records == [] then []
    else
      assert records == [records[0]] + records[1..];
      (if records[0].id in ids then [records[0]] else []) + WithIds(records[1..], ids)
  }

  datatype ConflictSet = ConflictSet(subject: string, unresolved: bool, memories: seq<Record>)

  function OpenRecords(group: seq<Record>): seq<Record> {
    WithIds(group, OpenIds(group))
  }

  function Claims(h: Hashing, records: seq<Record>): set<string> {
    set r | r in records :: ClaimOf(h, r)
  }

  predicate CreatedBefore(a: Record, b: Record) {
    a.created <= b.created
  }

  /** The conflict sets of one subject: none or one. */
  function ConflictsOn(h: Hashing, records: seq<Record>, subject: string): seq<ConflictSet> {
    var open := OpenRecords(WithSubject(records, subject));
    var claims := |Claims(h, open)|;
    if |open| >= 2 && claims >= 2 then [ConflictSet(subject, true, StableSort(open, CreatedBefore))]
    else if |open| >= 2 && claims == 1 then [ConflictSet(subject, false, StableSort(open, CreatedBefore))]
    else []
  }

  function ConflictsOver(h: Hashing, records: seq<Record>, subjects: seq<string>): seq<ConflictSet> {
    if subjects == [] then [] else ConflictsOn(h, records, subjects[0]) + ConflictsOver(h, records, subjects[1..])
  }

  lemma TextBeforeStrict()
    ensures StrictOrder(TextBefore)
  {
    forall x, y
      ensures TextBefore(x, y) ==> !TextBefore(y, x)
      ensures x != y ==> TextBefore(x, y) || TextBefore(y, x)
    {
      TextBeforeTotal(x, y);
    }
    forall x, y, z | TextBefore(x, y) && TextBefore(y, z)
      ensures TextBefore(x, z)
    {
      TextBeforeTransitive(x, y, z);
    }
  }

  function Subjects(records: seq<Record>, only: Option<string>): set<string> {
    set r | r in records && r.subject != "" && (only.None? || r.subject == only.value) :: r.subject
  }

  /** `detect_conflicts`: subject by subject, in the order of their names. */
  function DetectConflicts(h: Hashing, records: seq<Record>, only: Option<string>): seq<ConflictSet> {
    TextBeforeStrict();
    ConflictsOver(h, records, Sorted(Subjects(records, only), TextBefore))
  }

  predicate Unresolved(cs: seq<ConflictSet>) {
    exists c :: c in cs && c.unresolved
  }

  /** Two open records of one subject make different claims. */
  predicate Disagree(h: Hashing, records: seq<Record>, subject: string) {
    var open := OpenRecords(WithSubject(records, subject));
    exists r, s :: r in open && s in open && ClaimOf(h, r) != ClaimOf(h, s)
  }

  lemma TwoClaims(h: Hashing, records: seq<Record>)
    ensures |Claims(h, records)| >= 2 <==> exists r, s :: r in records && s in records && ClaimOf(h, r) != ClaimOf(h, s)
  {
    var claims := Claims(h, records);
    if r, s :| r in records && s in records && ClaimOf(h, r) != ClaimOf(h, s) {
      var two := {ClaimOf(h, r), ClaimOf(h, s)};
      assert two <= claims;
      CardinalityMono(two, claims);
    } else if records == [] {
      assert claims == {};
    } else {
      assert forall c :: c in claims ==> c == ClaimOf(h, records[0]);
      CardinalityMono(claims, {ClaimOf(h, records[0])});
    }
  }

  lemma {:induction false} ConflictsOverMembers(h: Hashing, records: seq<Record>, subjects: seq<string>)
    ensures forall c :: c in ConflictsOver(h, records, subjects) <==> exists s :: s in subjects && c in ConflictsOn(h, records, s)
  {
    if subjects != [] {
      ConflictsOverMembers(h, records, subjects[1..]);
      hide ConflictsOn;
      forall c
        ensures c in ConflictsOver(h, records, subjects) <==> exists s :: s in subjects && c in ConflictsOn(h, records, s)
      {
        if s :| s in subjects && c in ConflictsOn(h, records, s) { assert s == subjects[0] || s in subjects[1..]; }
        if c in ConflictsOn(h, records, subjects[0]) {
          assert subjects[0] in subjects;
        } else if c in ConflictsOver(h, records, subjects[1..]) {
          var s :| s in subjects[1..] && c in ConflictsOn(h, records, s);
          assert s in subjects;
        }
      }
    }
  }

  /** An unresolved set is reported exactly when two open records of a subject disagree. */
  lemma UnresolvedIffDisagree(h: Hashing, records: seq<Record>, only: Option<string>)
    ensures Unresolved(DetectConflicts(h, records, only))
       <==> exists s :: s in Subjects(records, only) && Disagree(h, records, s)
  {
    TextBeforeStrict();
    var subjects := Sorted(Subjects(records, only), TextBefore);
    ConflictsOverMembers(h, records, subjects);
    forall s | s in subjects
      ensures (exists c :: c in ConflictsOn(h, records, s) && c.unresolved) <==> Disagree(h, records, s)
    {
      UnresolvedOn(h, records, s);
    }
    hide ConflictsOn; hide Disagree; hide Subjects;
    if s :| s in Subjects(records, only) && Disagree(h, records, s) {
      assert s in subjects;
      var c :| c in ConflictsOn(h, records, s) && c.unresolved;
      assert c in DetectConflicts(h, records, only);
    }
  }

  lemma UnresolvedOn(h: Hashing, records: seq<Record>, s: string)
    ensures (exists c :: c in ConflictsOn(h, records, s) && c.unresolved) <==> Disagree(h, records, s)
  {
    var open := OpenRecords(WithSubject(records, s));
    TwoClaims(h, open);
    hide OpenRecords; hide Claims; hide ClaimOf;
    if Disagree(h, records, s) {
      assert |open| >= 2 by {
        var r, t :| r in open && t in open && ClaimOf(h, r) != ClaimOf(h, t);
      }
      var c := ConflictsOn(h, records, s)[0];
      assert c in ConflictsOn(h, records, s) && c.unresolved;
    }
  }
}
