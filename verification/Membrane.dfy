/** The write gateway: governed create (`emr_remember`) and supersede (`emr_upsert`), and the
    conflict membrane they keep around every subject. */
module Membrane {
  import opened Options
  import opened Order
  import opened Continuity

  /** The deployment and the text checks that the gateway consults. */
  datatype Policy = Policy(h: Hashing, writeEnabled: bool, requireFlag: bool,
                           normalizedLength: string -> nat, transcript: string -> bool, strip: string -> string)

  datatype Reason = WriteDisabled | UserIntentRequired | AuthorityInvalid | UnsupportedContent | TranscriptDump
                  | ConflictMembrane | TargetNotFound | AuthorityProtected | AmbiguousWrite | MissingFields

  datatype Response = Refused(reason: Reason) | Accepted(record: Record)

  datatype Request =
    | Remember(content: string, subject: string, session: string, userRequested: bool, status: Option<string>, rest: string)
    | Upsert(id: Id, content: string, subject: string, session: string, userRequested: bool, status: Option<string>,
             supersedes: string, rest: string)

  const DRAFT := "draft"

  /** `_gate_common` */
  function Gate(p: Policy, req: Request): Option<Reason> {
    if p.requireFlag && !p.writeEnabled then Some(WriteDisabled)
    else if !req.userRequested then Some(UserIntentRequired)
    else if req.status.Some? && req.status.value != DRAFT then Some(AuthorityInvalid)
    else if p.normalizedLength(req.content) < 8 then Some(UnsupportedContent)
    else if p.transcript(req.content) then Some(TranscriptDump)
    else None
  }

  function Without(records: seq<Record>, ids: set<Id>): (g: seq<Record>)
    ensures forall r :: r in g <==> r in records && r.id !in ids
  {
    if records == [] then []
    else
      assert records == [records[0]] + records[1..];
      (if records[0].id !in ids then [records[0]] else []) + Without(records[1..], ids)
  }

  function SupersededBy(records: seq<Record>): set<Id> {
    set r | r in records && r.supersedes.Some? :: r.supersedes.value
  }

  /** The live claims on a subject that nothing live replaces and the write does not supersede. */
  function ActivePeers(l: Ledger, subject: string, superseding: set<Id>): seq<Record> {
    Without(LiveOn(l, subject), superseding + SupersededBy(Live(l)))
  }

  /** `_subject_conflict_block` */
  predicate Blocked(p: Policy, l: Ledger, subject: string, claim: string, superseding: set<Id>) {
    subject != "" &&
    var conflicts := DetectConflicts(p.h, Live(l), Some(subject));
    if !Unresolved(conflicts) then
      var peers := ActivePeers(l, subject, superseding);
      peers != [] && claim !in Claims(p.h, peers)
    else
      exists c :: c in conflicts && c.unresolved && exists r :: r in c.memories && r.id !in superseding
  }

  function FirstWithClaim(h: Hashing, records: seq<Record>, claim: string): Option<Record> {
    if records == [] then None
    else if ClaimOf(h, records[0]) == claim then Some(records[0])
    else FirstWithClaim(h, records[1..], claim)
  }

  /** `create_memory` for a draft. */
  function Created(p: Policy, id: Id, content: string, subject: string, session: string, supersedes: Option<Id>, now: nat, rest: string): Record {
    Record(id, content, subject, Draft, supersedes, p.h.claim(content), session, now, now, rest)
  }

  datatype Outcome = Outcome(ledger: Ledger, response: Response)

  /** `emr_remember`; `id` is the fresh id a new record would get. */
  function RememberStep(p: Policy, l: Ledger, req: Request, id: Id, now: nat): Outcome
    requires req.Remember?
  {
    var claim := p.h.claim(req.content);
    if Gate(p, req).Some? then Outcome(l, Refused(Gate(p, req).value))
    else if Blocked(p, l, req.subject, claim, {}) then Outcome(l, Refused(ConflictMembrane))
    else
      var existing := if req.subject != "" then FirstWithClaim(p.h, LiveOn(l, req.subject), claim) else None;
      if existing.Some? then Outcome(l, Accepted(existing.value))
      else
        var rec := Created(p, id, req.content, req.subject, req.session, None, now, req.rest);
        Outcome(l[id := rec], Accepted(rec))
  }

  /** `emr_upsert` */
  function UpsertStep(p: Policy, l: Ledger, req: Request, id: Id, now: nat): Outcome
    requires req.Upsert?
  {
    if Gate(p, req).Some? then Outcome(l, Refused(Gate(p, req).value))
    else if req.id !in l then Outcome(l, Refused(TargetNotFound))
    else
      var target := l[req.id];
      var subject := if req.subject != "" then req.subject else target.subject;
      var named := p.strip(req.supersedes);
      var session := p.strip(if req.session != "" then req.session else target.session);
      if target.status == Verified then Outcome(l, Refused(AuthorityProtected))
      else if named != "" && named != req.id.text then Outcome(l, Refused(AmbiguousWrite))
      else if Blocked(p, l, subject, p.h.claim(req.content), {req.id}) then Outcome(l, Refused(ConflictMembrane))
      else if session == "" then Outcome(l, Refused(MissingFields))
      else
        var rec := Created(p, id, req.content, subject, session, Some(req.id), now, req.rest);
        Outcome(l[id := rec][req.id := target.(status := Archived, updated := now)], Accepted(rec))
  }

  function Handle(p: Policy, l: Ledger, req: Request, id: Id, now: nat): Outcome {
    if req.Remember? then RememberStep(p, l, req, id, now) else UpsertStep(p, l, req, id, now)
  }

  // ----- what every write keeps

  /** Any two live records of one subject make the same claim. */
  predicate Agree(h: Hashing, l: Ledger) {
    forall x, y :: x in l && y in l && Active(l[x]) && Active(l[y]) && l[x].subject == l[y].subject != "" ==>
      ClaimOf(h, l[x]) == ClaimOf(h, l[y])
  }

  /** What a live record supersedes is archived. */
  predicate Retired(l: Ledger) {
    forall x :: x in l && Active(l[x]) && l[x].supersedes.Some? && l[x].supersedes.value in l ==> !Active(l[l[x].supersedes.value])
  }

  predicate Intact(h: Hashing, l: Ledger) {
    Keyed(l) && Agree(h, l) && Retired(l)
  }

  predicate Fresh(l: Ledger, id: Id) {
    id !in l && forall x :: x in l ==> l[x].supersedes != Some(id)
  }

  ghost predicate FromLedger(l: Ledger, records: seq<Record>) {
    forall r :: r in records ==> r.id in l && l[r.id] == r
  }

  /** Where live records agree, nothing unresolved is ever reported, whatever listing is asked about. */
  lemma AgreeNeverUnresolved(h: Hashing, l: Ledger, records: seq<Record>, only: Option<string>)
    requires Agree(h, l) && FromLedger(l, records)
    ensures !Unresolved(DetectConflicts(h, records, only))
  {
    UnresolvedIffDisagree(h, records, only);
    forall s | s in Subjects(records, only)
      ensures !Disagree(h, records, s)
    {
      NeverDisagree(h, l, records, s);
    }
  }

  lemma NeverDisagree(h: Hashing, l: Ledger, records: seq<Record>, s: string)
    requires Agree(h, l) && FromLedger(l, records) && s != ""
    ensures !Disagree(h, records, s)
  {
    hide ClaimOf; hide OpenRecords;
    var open := OpenRecords(WithSubject(records, s));
    forall r, t | r in open && t in open
      ensures ClaimOf(h, r) == ClaimOf(h, t)
    {
      OpenIsActive(l, WithSubject(records, s), r);
      OpenIsActive(l, WithSubject(records, s), t);
      assert l[r.id] == r && l[t.id] == t;
    }
  }

  lemma OpenIsActive(l: Ledger, group: seq<Record>, r: Record)
    requires r in OpenRecords(group) && FromLedger(l, group)
    ensures r in group && Active(r)
  {
    var s :| s in group && s.id == r.id && Active(s);
  }

  lemma LiveMembers(l: Ledger, subject: string)
    requires Keyed(l) && |l| <= LIST_LIMIT
    ensures FromLedger(l, Live(l)) && FromLedger(l, LiveOn(l, subject))
    ensures forall x :: x in l ==> (l[x] in Live(l) <==> Active(l[x]))
    ensures forall x :: x in l ==> (l[x] in LiveOn(l, subject) <==> Active(l[x]) && l[x].subject == subject)
    ensures forall r :: r in Live(l) ==> Active(r)
    ensures forall r :: r in LiveOn(l, subject) ==> Active(r) && r.subject == subject
  {
    ListingMembers(l, r => Active(r));
    ListingMembers(l, r => Active(r) && r.subject == subject);
  }

  /** The membrane's promise: what it lets through agrees with every live claim that stays. */
  lemma AdmittedAgrees(p: Policy, l: Ledger, subject: string, claim: string, superseding: set<Id>, x: Id)
    requires Intact(p.h, l) && |l| <= LIST_LIMIT && subject != "" && !Blocked(p, l, subject, claim, superseding)
    requires x in l && x !in superseding && Active(l[x]) && l[x].subject == subject
    ensures ClaimOf(p.h, l[x]) == claim
  {
    LiveMembers(l, subject);
    AgreeNeverUnresolved(p.h, l, Live(l), Some(subject));
    var peers := ActivePeers(l, subject, superseding);
    assert x !in SupersededBy(Live(l));
    assert l[x] in peers;
    hide ClaimOf; hide ActivePeers; hide Live;
    assert claim in Claims(p.h, peers);
    var r :| r in peers && ClaimOf(p.h, r) == claim;
    PeerIsLive(l, subject, superseding, r);
  }

  lemma PeerIsLive(l: Ledger, subject: string, superseding: set<Id>, r: Record)
    requires Keyed(l) && |l| <= LIST_LIMIT && r in ActivePeers(l, subject, superseding)
    ensures r.id in l && l[r.id] == r && Active(r) && r.subject == subject
  {
    LiveMembers(l, subject);
  }

  lemma {:induction false} FirstWithClaimFinds(h: Hashing, records: seq<Record>, claim: string)
    ensures var f := FirstWithClaim(h, records, claim);
      if f.Some? then f.value in records && ClaimOf(h, f.value) == claim else forall r :: r in records ==> ClaimOf(h, r) != claim
  {
    if records != [] && ClaimOf(h, records[0]) != claim {
      FirstWithClaimFinds(h, records[1..], claim);
    }
  }

  /** A new draft that agrees with the live claims on its subject keeps the ledger intact. */
  lemma CreateKeeps(h: Hashing, l: Ledger, rec: Record)
    requires Intact(h, l) && Fresh(l, rec.id)
    requires forall x :: x in l && Active(l[x]) && l[x].subject == rec.subject != "" ==> ClaimOf(h, l[x]) == ClaimOf(h, rec)
    requires rec.supersedes.Some? ==> rec.supersedes.value in l && !Active(l[rec.supersedes.value])
    ensures Intact(h, l[rec.id := rec])
  {
    hide ClaimOf; hide Active;
  }

  function Archive(l: Ledger, x: Id, now: nat): Ledger
    requires x in l
  {
    l[x := l[x].(status := Archived, updated := now)]
  }

  lemma ArchiveKeeps(h: Hashing, l: Ledger, x: Id, now: nat)
    requires Intact(h, l) && x in l
    ensures Intact(h, Archive(l, x, now)) && forall id :: Fresh(l, id) ==> Fresh(Archive(l, x, now), id)
  {
    hide ClaimOf;
    var m := Archive(l, x, now);
    forall y | y in m && Active(m[y]) ensures y in l && m[y] == l[y] {}
    forall id | Fresh(l, id) ensures Fresh(m, id) {
      forall y | y in m ensures m[y].supersedes != Some(id) { assert m[y].supersedes == l[y].supersedes; }
    }
  }

  lemma RememberKeeps(p: Policy, l: Ledger, req: Request, id: Id, now: nat)
    requires req.Remember? && Intact(p.h, l) && |l| <= LIST_LIMIT && Fresh(l, id)
    ensures var o := RememberStep(p, l, req, id, now); Intact(p.h, o.ledger) && Preserves(l, o.ledger)
  {
    hide Blocked; hide LiveOn; hide Gate; hide FirstWithClaim; hide Live; hide Intact; hide ClaimOf; hide Fresh;
    var o := RememberStep(p, l, req, id, now);
    assert Fresh(l, id) ==> id !in l by { FreshNew(l, id); }
    if o.ledger != l {
      var claim := p.h.claim(req.content);
      var rec := Created(p, id, req.content, req.subject, req.session, None, now, req.rest);
      CreatedClaim(p, rec);
      forall x | x in l && Active(l[x]) && l[x].subject == rec.subject != ""
        ensures ClaimOf(p.h, l[x]) == ClaimOf(p.h, rec)
      {
        AdmittedAgrees(p, l, req.subject, claim, {}, x);
      }
      CreateKeeps(p.h, l, rec);
    }
  }

  lemma FreshNew(l: Ledger, id: Id)
    requires Fresh(l, id)
    ensures id !in l
  {}

  lemma CreatedClaim(p: Policy, rec: Record)
    requires rec.sha == p.h.claim(rec.content)
    ensures ClaimOf(p.h, rec) == p.h.claim(rec.content)
  {}

  lemma UpsertKeeps(p: Policy, l: Ledger, req: Request, id: Id, now: nat)
    requires req.Upsert? && Intact(p.h, l) && |l| <= LIST_LIMIT && Fresh(l, id)
    ensures var o := UpsertStep(p, l, req, id, now); Intact(p.h, o.ledger) && Preserves(l, o.ledger)
  {
    hide Blocked; hide Gate; hide Intact; hide ClaimOf; hide Fresh;
    var o := UpsertStep(p, l, req, id, now);
    assert Fresh(l, id) ==> id !in l by { FreshNew(l, id); }
    if o.ledger != l {
      var target := l[req.id];
      var subject := if req.subject != "" then req.subject else target.subject;
      var claim := p.h.claim(req.content);
      var rec := o.response.record;
      var m := Archive(l, req.id, now);
      assert o.ledger == m[id := rec];
      ArchiveKeeps(p.h, l, req.id, now);
      CreatedClaim(p, rec);
      forall x | x in m && Active(m[x]) && m[x].subject == rec.subject != ""
        ensures ClaimOf(p.h, m[x]) == ClaimOf(p.h, rec)
      {
        AdmittedAgrees(p, l, subject, claim, {req.id}, x);
      }
      CreateKeeps(p.h, m, rec);
    }
  }

  // ----- every run of governed writes

  /** One write, with the fresh id and the time it would use. */
  datatype Arrival = Arrival(req: Request, id: Id, now: nat)

  function Run(p: Policy, l: Ledger, writes: seq<Arrival>): Ledger {
    if writes == [] then l
    else
      var last := writes[|writes| - 1];
      Handle(p, Run(p, l, writes[..|writes| - 1]), last.req, last.id, last.now).ledger
  }

  /** Every write draws an id that nothing holds or mentions, while the store fits one listing. */
  predicate Orderly(p: Policy, l: Ledger, writes: seq<Arrival>) {
    forall i :: 0 <= i < |writes| ==> Fresh(Run(p, l, writes[..i]), writes[i].id) && |Run(p, l, writes[..i])| <= LIST_LIMIT
  }

  /** Following `supersedes` from `x` ends within `n` steps. */
  predicate ChainEnds(l: Ledger, x: Id, n: nat)
    decreases n
  {
    x in l && n > 0 && (l[x].supersedes.Some? && l[x].supersedes.value in l ==> ChainEnds(l, l[x].supersedes.value, n - 1))
  }

  predicate Bounded(l: Ledger, n: nat) {
    forall x :: x in l ==> ChainEnds(l, x, n)
  }

  lemma {:induction false} ChainKept(l: Ledger, m: Ledger, x: Id, n: nat)
    requires ChainEnds(l, x, n)
    requires forall y :: y in l ==> y in m && m[y].supersedes == l[y].supersedes && (m[y].supersedes.Some? && m[y].supersedes.value in m ==> m[y].supersedes.value in l)
    ensures ChainEnds(m, x, n) && ChainEnds(m, x, n + 1)
    decreases n
  {
    if l[x].supersedes.Some? && l[x].supersedes.value in l {
      ChainKept(l, m, l[x].supersedes.value, n - 1);
    }
  }

  lemma HandleBounded(p: Policy, l: Ledger, req: Request, id: Id, now: nat, n: nat)
    requires Fresh(l, id) && Bounded(l, n)
    ensures Bounded(Handle(p, l, req, id, now).ledger, n + 1)
  {
    hide Blocked; hide Gate; hide FirstWithClaim; hide LiveOn;
    var m := Handle(p, l, req, id, now).ledger;
    HandleLinks(p, l, req, id, now);
    hide Handle;
    forall x | x in m
      ensures ChainEnds(m, x, n + 1)
    {
      if x in l {
        ChainKept(l, m, x, n);
      } else if m[x].supersedes.Some? {
        ChainKept(l, m, m[x].supersedes.value, n);
      }
    }
  }

  /** A write adds at most one record, which supersedes an old one or nothing, and moves no link. */
  lemma HandleLinks(p: Policy, l: Ledger, req: Request, id: Id, now: nat)
    requires Fresh(l, id)
    ensures var m := Handle(p, l, req, id, now).ledger;
      && (forall y :: y in l ==> y in m && m[y].supersedes == l[y].supersedes && (m[y].supersedes.Some? && m[y].supersedes.value in m ==> m[y].supersedes.value in l))
      && (forall y :: y in m && y !in l ==> y == id && (m[y].supersedes.Some? ==> m[y].supersedes.value in l))
  {
    hide Blocked; hide Gate; hide FirstWithClaim; hide LiveOn;
  }

  /** What may happen to a record: nothing, or it is archived unless it is verified. */
  predicate Kept(r: Record, s: Record) {
    s == r || (r.status != Verified && s == r.(status := Archived, updated := s.updated))
  }

  /** Every record of `l` is still in `m`, with its content, claim, subject and link; a verified one untouched. */
  predicate Preserves(l: Ledger, m: Ledger) {
    forall x :: x in l ==> x in m && Kept(l[x], m[x])
  }

  lemma PreservesCompose(l: Ledger, m: Ledger, k: Ledger)
    requires Preserves(l, m) && Preserves(m, k)
    ensures Preserves(l, k)
  {}

  lemma HandleKeeps(p: Policy, l: Ledger, req: Request, id: Id, now: nat)
    requires Intact(p.h, l) && |l| <= LIST_LIMIT && Fresh(l, id)
    ensures var m := Handle(p, l, req, id, now).ledger; Intact(p.h, m) && Preserves(l, m)
  {
    hide RememberStep; hide UpsertStep; hide Intact; hide Fresh; hide Preserves;
    if req.Remember? { RememberKeeps(p, l, req, id, now); } else { UpsertKeeps(p, l, req, id, now); }
  }

  lemma OrderlyEarlier(p: Policy, l: Ledger, writes: seq<Arrival>)
    requires Orderly(p, l, writes) && writes != []
    ensures var k := |writes| - 1;
      Orderly(p, l, writes[..k]) && Fresh(Run(p, l, writes[..k]), writes[k].id) && |Run(p, l, writes[..k])| <= LIST_LIMIT
  {
    hide Run; hide Fresh;
    var earlier := writes[..|writes| - 1];
    forall i | 0 <= i < |earlier|
      ensures Fresh(Run(p, l, earlier[..i]), earlier[i].id) && |Run(p, l, earlier[..i])| <= LIST_LIMIT
    {
      assert earlier[..i] == writes[..i];
    }
  }

  /** From a store whose live records agree per subject and whose superseded records are archived,
      every run of governed writes keeps both, never changes a verified record, keeps every record
      with its content and claim, and keeps every `supersedes` chain finite. */
  lemma {:induction false} MembraneHolds(p: Policy, l: Ledger, writes: seq<Arrival>, n: nat)
    requires Intact(p.h, l) && Orderly(p, l, writes) && Bounded(l, n)
    ensures var m := Run(p, l, writes); Intact(p.h, m) && Preserves(l, m) && Bounded(m, n + |writes|)
  {
    hide Handle; hide Intact; hide Bounded; hide Fresh; hide Orderly;
    if writes == [] {
    } else {
      var earlier, last := writes[..|writes| - 1], writes[|writes| - 1];
      OrderlyEarlier(p, l, writes);
      MembraneHolds(p, l, earlier, n);
      var m := Run(p, l, earlier);
      assert Run(p, l, writes) == Handle(p, m, last.req, last.id, last.now).ledger;
      hide Preserves; hide Run;
      HandleKeeps(p, m, last.req, last.id, last.now);
      HandleBounded(p, m, last.req, last.id, last.now, n + |earlier|);
      PreservesCompose(l, m, Handle(p, m, last.req, last.id, last.now).ledger);
    }
  }

  /** Readers never see an unresolved conflict after any such run. */
  lemma NoUnresolvedConflict(p: Policy, l: Ledger, writes: seq<Arrival>, n: nat, records: seq<Record>, only: Option<string>)
    requires Intact(p.h, l) && Orderly(p, l, writes) && Bounded(l, n) && FromLedger(Run(p, l, writes), records)
    ensures !Unresolved(DetectConflicts(p.h, records, only))
  {
    MembraneHolds(p, l, writes, n);
    AgreeNeverUnresolved(p.h, Run(p, l, writes), records, only);
  }

  /** Where superseded records are archived, the live records agree exactly when the ledger reports no
      unresolved conflict. */
  lemma AgreeIffNoConflict(h: Hashing, l: Ledger)
    requires Keyed(l) && Retired(l) && |l| <= LIST_LIMIT
    ensures Agree(h, l) <==> !Unresolved(DetectConflicts(h, Live(l), None))
  {
    LiveMembers(l, "");
    var live := Live(l);
    hide Live; hide DetectConflicts; hide Listing; hide LiveOn;
    if Agree(h, l) {
      AgreeNeverUnresolved(h, l, live, None);
    } else {
      hide ClaimOf;
      var x, y :| x in l && y in l && Active(l[x]) && Active(l[y]) && l[x].subject == l[y].subject != ""
        && ClaimOf(h, l[x]) != ClaimOf(h, l[y]);
      var s := l[x].subject;
      OpenOfRetired(l, live, s, x);
      OpenOfRetired(l, live, s, y);
      assert Disagree(h, live, s);
      assert l[x] in live;
      assert s in Subjects(live, None);
      UnresolvedIffDisagree(h, live, None);
    }
  }

  lemma OpenOfRetired(l: Ledger, live: seq<Record>, subject: string, x: Id)
    requires Keyed(l) && Retired(l) && FromLedger(l, live) && x in l && l[x] in live && l[x].subject == subject && Active(l[x])
    ensures l[x] in OpenRecords(WithSubject(live, subject))
  {
    var group := WithSubject(live, subject);
    assert x !in SupersededIn(group);
    assert x in OpenIds(group) by { assert l[x] in group; }
  }
}
