/** When a governed write brings an unresolved conflict about: exactly, for any store. */
module MembraneConflicts {
  import opened Options
  import opened Order
  import opened Continuity
  import opened ContinuityLaws
  import opened Membrane

  /** A live record of the same subject, outside `but`, replaces `x`. */
  predicate ReplacedWithin(l: Ledger, but: set<Id>, x: Id)
    requires x in l
  {
    exists y :: y in l && y !in but && Active(l[y]) && l[y].subject == l[x].subject && l[y].supersedes == Some(x)
  }

  /** A live record of the subject that no live record of the same subject replaces, leaving `but` aside. */
  predicate OpenBut(l: Ledger, but: set<Id>, subject: string, x: Id) {
    x in l && x !in but && Active(l[x]) && l[x].subject == subject != "" && !ReplacedWithin(l, but, x)
  }

  /** One of them makes another claim. */
  predicate Contradicted(h: Hashing, l: Ledger, but: set<Id>, subject: string, claim: string) {
    exists x :: x in l && OpenBut(l, but, subject, x) && ClaimOf(h, l[x]) != claim
  }

  predicate ClashOn(h: Hashing, l: Ledger, but: set<Id>, subject: string) {
    exists x, y :: x in l && y in l && OpenBut(l, but, subject, x) && OpenBut(l, but, subject, y) && ClaimOf(h, l[x]) != ClaimOf(h, l[y])
  }

  predicate InConflict(h: Hashing, l: Ledger) {
    exists x :: x in l && ClashOn(h, l, {}, l[x].subject)
  }

  lemma SupersededHere(l: Ledger, group: seq<Record>, subject: string, x: Id)
    requires Keyed(l) && x in l && l[x].subject == subject && l[x] in group
    requires forall r :: r in group <==> r.id in l && l[r.id] == r && Active(r) && r.subject == subject
    ensures x in SupersededIn(group) <==> ReplacedWithin(l, {}, x)
  {
    if x in SupersededIn(group) {
      var q :| q in group && q.supersedes == Some(x) && Active(q);
      assert q.id in l && l[q.id] == q;
    }
    if ReplacedWithin(l, {}, x) {
      var y :| y in l && Active(l[y]) && l[y].subject == subject && l[y].supersedes == Some(x);
      assert l[y] in group;
    }
  }

  lemma OpenInListing(l: Ledger, live: seq<Record>, subject: string, r: Record)
    requires Keyed(l) && FromLedger(l, live) && subject != ""
    requires (forall x :: x in l ==> (l[x] in live <==> Active(l[x])))
    ensures r in OpenRecords(WithSubject(live, subject)) <==> r.id in l && l[r.id] == r && OpenBut(l, {}, subject, r.id)
  {
    var group := WithSubject(live, subject);
    hide WithSubject; hide ReplacedWithin; hide SupersededIn;
    if r in group { SupersededHere(l, group, subject, r.id); }
  }

  /** The full listing reports an unresolved set exactly when two open records of one subject disagree. */
  lemma ConflictIsReported(h: Hashing, l: Ledger)
    requires Keyed(l) && |l| <= LIST_LIMIT
    ensures Unresolved(DetectConflicts(h, Live(l), None)) <==> InConflict(h, l)
  {
    LiveMembers(l, "");
    hide Live; hide LiveOn; hide Active; hide FromLedger;
    ReportedIff(h, l, Live(l));
  }

  lemma ReportedIff(h: Hashing, l: Ledger, live: seq<Record>)
    requires Keyed(l) && FromLedger(l, live) && forall x :: x in l ==> (l[x] in live <==> Active(l[x]))
    ensures Unresolved(DetectConflicts(h, live, None)) <==> InConflict(h, l)
  {
    hide DetectConflicts; hide ClashOn; hide Disagree; hide Keyed; hide FromLedger; hide Active; hide Subjects; hide Unresolved;
    UnresolvedIffDisagree(h, live, None);
    if InConflict(h, l) {
      var x :| x in l && ClashOn(h, l, {}, l[x].subject);
      ClashNames(h, l, live, l[x].subject);
      DisagreeIsClash(h, l, live, l[x].subject);
    }
    if s :| s in Subjects(live, None) && Disagree(h, live, s) {
      ListedSubject(l, live, s);
      DisagreeIsClash(h, l, live, s);
    }
  }

  lemma ListedSubject(l: Ledger, live: seq<Record>, s: string)
    requires FromLedger(l, live) && s in Subjects(live, None)
    ensures s != "" && exists x :: x in l && l[x].subject == s
  {
    var r :| r in live && r.subject == s;
    assert l[r.id] == r;
  }

  lemma ClashNames(h: Hashing, l: Ledger, live: seq<Record>, s: string)
    requires ClashOn(h, l, {}, s) && forall x :: x in l ==> (l[x] in live <==> Active(l[x]))
    ensures s != "" && s in Subjects(live, None)
  {
    var x :| x in l && OpenBut(l, {}, s, x);
    assert l[x] in live;
  }

  /** Two open records of one subject with different claims are a conflict. */
  lemma ClashIsConflict(h: Hashing, l: Ledger, s: string, x: Id, y: Id)
    requires OpenBut(l, {}, s, x) && OpenBut(l, {}, s, y) && ClaimOf(h, l[x]) != ClaimOf(h, l[y])
    ensures InConflict(h, l)
  {
    assert ClashOn(h, l, {}, l[x].subject);
  }

  lemma ConflictIsClash(h: Hashing, l: Ledger) returns (s: string, x: Id, y: Id)
    requires InConflict(h, l)
    ensures OpenBut(l, {}, s, x) && OpenBut(l, {}, s, y) && ClaimOf(h, l[x]) != ClaimOf(h, l[y])
  {
    var u :| u in l && ClashOn(h, l, {}, l[u].subject);
    s := l[u].subject;
    x, y :| x in l && y in l && OpenBut(l, {}, s, x) && OpenBut(l, {}, s, y) && ClaimOf(h, l[x]) != ClaimOf(h, l[y]);
  }

  lemma OpenIsLive(l: Ledger, but: set<Id>, s: string, x: Id)
    requires OpenBut(l, but, s, x)
    ensures x in l && x !in but && Active(l[x]) && l[x].subject == s != ""
  {}

  lemma DisagreeIsClash(h: Hashing, l: Ledger, live: seq<Record>, s: string)
    requires Keyed(l) && FromLedger(l, live) && s != "" && (forall x :: x in l ==> (l[x] in live <==> Active(l[x])))
    ensures Disagree(h, live, s) <==> ClashOn(h, l, {}, s)
  {
    var open := OpenRecords(WithSubject(live, s));
    hide OpenBut; hide ClaimOf; hide Active; hide OpenRecords; hide WithSubject;
    forall r ensures r in open <==> r.id in l && l[r.id] == r && OpenBut(l, {}, s, r.id) { OpenInListing(l, live, s, r); }
    if Disagree(h, live, s) {
      var r, t :| r in open && t in open && ClaimOf(h, r) != ClaimOf(h, t);
      assert OpenBut(l, {}, s, r.id) && OpenBut(l, {}, s, t.id);
    }
    if ClashOn(h, l, {}, s) {
      var x, y :| x in l && y in l && OpenBut(l, {}, s, x) && OpenBut(l, {}, s, y) && ClaimOf(h, l[x]) != ClaimOf(h, l[y]);
      OpenIsLive(l, {}, s, x);
      OpenIsLive(l, {}, s, y);
      assert l[x] in open && l[y] in open;
    }
  }

  // ----- one write

  /** Archiving `t` is leaving it aside. */
  lemma ArchiveIsBut(l: Ledger, t: Id, now: nat, s: string, x: Id)
    requires t in l
    ensures OpenBut(Archive(l, t, now), {}, s, x) <==> OpenBut(l, {t}, s, x)
  {
    var m := Archive(l, t, now);
    if x in l && x != t {
      if y :| y in m && Active(m[y]) && m[y].subject == m[x].subject && m[y].supersedes == Some(x) {
        assert y != t && l[y] == m[y];
      }
      if y :| y in l && y != t && Active(l[y]) && l[y].subject == l[x].subject && l[y].supersedes == Some(x) {
        assert l[y] == m[y];
      }
    }
  }

  /** The target kept one record of its subject from being open, and that one disagrees with another. */
  predicate Reopened(h: Hashing, l: Ledger, t: Id)
    requires t in l
  {
    Active(l[t]) && l[t].supersedes.Some? &&
    var z, s := l[t].supersedes.value, l[t].subject;
    OpenBut(l, {t}, s, z) && Contradicted(h, l, {t}, s, ClaimOf(h, l[z]))
  }

  lemma ArchiveConflictIff(h: Hashing, l: Ledger, t: Id, now: nat)
    requires t in l && !InConflict(h, l)
    ensures InConflict(h, Archive(l, t, now)) <==> Reopened(h, l, t)
  {
    var m := Archive(l, t, now);
    forall s, x ensures OpenBut(m, {}, s, x) <==> OpenBut(l, {t}, s, x) { ArchiveIsBut(l, t, now, s, x); }
    hide OpenBut; hide Active; hide Archive; hide InConflict; hide ClaimOf;
    forall s, x | OpenBut(l, {t}, s, x) ensures x in l && x in m && m[x] == l[x] {
      OpenIsLive(l, {t}, s, x);
      ArchiveKeepsOthers(l, t, now, x);
    }
    if InConflict(h, m) {
      var s, x, y := ConflictIsClash(h, m);
      ClashReopens(h, l, t, s, x, y);
    }
    if Reopened(h, l, t) {
      var z, s := l[t].supersedes.value, l[t].subject;
      var x :| x in l && OpenBut(l, {t}, s, x) && ClaimOf(h, l[x]) != ClaimOf(h, l[z]);
      ClashIsConflict(h, m, s, x, z);
    }
  }

  lemma ArchiveKeepsOthers(l: Ledger, t: Id, now: nat, x: Id)
    requires t in l && x in l && x != t
    ensures var m := Archive(l, t, now); x in m && m[x] == l[x]
  {}

  lemma ClashReopens(h: Hashing, l: Ledger, t: Id, s: string, x: Id, y: Id)
    requires t in l && !InConflict(h, l) && OpenBut(l, {t}, s, x) && OpenBut(l, {t}, s, y) && ClaimOf(h, l[x]) != ClaimOf(h, l[y])
    ensures Reopened(h, l, t)
  {
    hide ClaimOf; hide InConflict; hide OpenBut;
    OnlyTarget(l, t, s, x);
    OnlyTarget(l, t, s, y);
    OpenIsLive(l, {t}, s, x);
    OpenIsLive(l, {t}, s, y);
    if OpenBut(l, {}, s, x) && OpenBut(l, {}, s, y) { ClashIsConflict(h, l, s, x, y); }
  }

  /** Only the target can have replaced what opens when it is left aside. */
  lemma OnlyTarget(l: Ledger, t: Id, s: string, x: Id)
    requires t in l && OpenBut(l, {t}, s, x)
    ensures OpenBut(l, {}, s, x) || (Active(l[t]) && l[t].subject == s && l[t].supersedes == Some(x))
  {}

  /** A new live record, which replaces nothing live, joins the open ones. */
  lemma CreateConflictIff(h: Hashing, l: Ledger, rec: Record)
    requires Fresh(l, rec.id) && Active(rec) && (rec.supersedes.Some? ==> rec.supersedes != Some(rec.id) && (rec.supersedes.value in l ==> !Active(l[rec.supersedes.value])))
    ensures InConflict(h, l[rec.id := rec]) <==> InConflict(h, l) || Contradicted(h, l, {}, rec.subject, ClaimOf(h, rec))
  {
    var m := l[rec.id := rec];
    hide ClaimOf; hide Active; hide Fresh; hide InConflict; hide OpenBut;
    FreshNew(l, rec.id);
    if InConflict(h, m) {
      var s, x, y := ConflictIsClash(h, m);
      OpenAfterCreate(l, rec, s, x);
      OpenAfterCreate(l, rec, s, y);
      CreatedClash(h, l, rec, s, x, y);
    }
    if InConflict(h, l) {
      var s, x, y := ConflictIsClash(h, l);
      OpenAfterCreate(l, rec, s, x);
      OpenAfterCreate(l, rec, s, y);
      ClashIsConflict(h, m, s, x, y);
    }
    if Contradicted(h, l, {}, rec.subject, ClaimOf(h, rec)) {
      var x :| x in l && OpenBut(l, {}, rec.subject, x) && ClaimOf(h, l[x]) != ClaimOf(h, rec);
      OpenIsLive(l, {}, rec.subject, x);
      OpenAfterCreate(l, rec, rec.subject, x);
      OpenAfterCreate(l, rec, rec.subject, rec.id);
      ClashIsConflict(h, m, rec.subject, x, rec.id);
    }
  }

  lemma CreatedClash(h: Hashing, l: Ledger, rec: Record, s: string, x: Id, y: Id)
    requires var m := l[rec.id := rec]; x in m && y in m && ClaimOf(h, m[x]) != ClaimOf(h, m[y])
    requires OpenBut(l, {}, s, x) || (x == rec.id && s == rec.subject)
    requires OpenBut(l, {}, s, y) || (y == rec.id && s == rec.subject)
    requires rec.id !in l
    ensures InConflict(h, l) || Contradicted(h, l, {}, rec.subject, ClaimOf(h, rec))
  {
    hide ClaimOf; hide InConflict; hide Active; hide ReplacedWithin;
    if x in l && y in l { ClashIsConflict(h, l, s, x, y); }
  }

  lemma OpenAfterCreate(l: Ledger, rec: Record, s: string, x: Id)
    requires Fresh(l, rec.id) && Active(rec) && (rec.supersedes.Some? ==> rec.supersedes != Some(rec.id) && (rec.supersedes.value in l ==> !Active(l[rec.supersedes.value])))
    ensures OpenBut(l[rec.id := rec], {}, s, x) <==> OpenBut(l, {}, s, x) || (x == rec.id && s == rec.subject != "")
  {
    var m := l[rec.id := rec];
    if x in l && Active(l[x]) && l[x].subject == s {
      if y :| y in l && Active(l[y]) && l[y].subject == l[x].subject && l[y].supersedes == Some(x) { assert m[y] == l[y]; }
      if y :| y in m && Active(m[y]) && m[y].subject == m[x].subject && m[y].supersedes == Some(x) { assert y != rec.id; }
    }
  }

  // ----- governed writes

  /** No live record of the subject already makes the claim, so that a create is not answered with it. */
  predicate IsNew(h: Hashing, l: Ledger, subject: string, claim: string) {
    forall x :: x in l && Active(l[x]) && l[x].subject == subject != "" ==> ClaimOf(h, l[x]) != claim
  }

  function SubjectOf(l: Ledger, req: Request): string {
    if req.Upsert? && req.subject == "" && req.id in l then l[req.id].subject else req.subject
  }

  /** What makes an admitted write leave an unresolved conflict. */
  predicate Clashes(h: Hashing, l: Ledger, req: Request)
    requires req.Upsert? ==> req.id in l
  {
    var s, claim := SubjectOf(l, req), h.claim(req.content);
    if req.Remember? then IsNew(h, l, s, claim) && Contradicted(h, l, {}, s, claim)
    else Contradicted(h, l, {req.id}, s, claim) || Reopened(h, l, req.id)
  }

  predicate Admitted(p: Policy, l: Ledger, w: Arrival) {
    Handle(p, l, w.req, w.id, w.now).response.Accepted?
  }

  lemma AdmittedTarget(p: Policy, l: Ledger, w: Arrival)
    requires Admitted(p, l, w) && w.req.Upsert?
    ensures w.req.id in l && l[w.req.id].status != Verified
  {}

  lemma ExistingIff(h: Hashing, l: Ledger, subject: string, claim: string)
    requires Keyed(l) && |l| <= LIST_LIMIT && subject != ""
    ensures FirstWithClaim(h, LiveOn(l, subject), claim).None? <==> IsNew(h, l, subject, claim)
  {
    hide ClaimOf; hide Active; hide LiveOn; hide FirstWithClaim;
    LiveMembers(l, subject);
    FirstWithClaimFinds(h, LiveOn(l, subject), claim);
    var f := FirstWithClaim(h, LiveOn(l, subject), claim);
    if f.Some? {
      assert f.value.id in l && l[f.value.id] == f.value;
    }
  }

  /** An admitted create adds its record, or answers with a live one that makes the claim. */
  lemma RememberAdds(p: Policy, l: Ledger, w: Arrival)
    requires w.req.Remember? && Keyed(l) && |l| <= LIST_LIMIT && Admitted(p, l, w)
    ensures var req := w.req;
      Handle(p, l, req, w.id, w.now).ledger
        == if IsNew(p.h, l, req.subject, p.h.claim(req.content))
           then l[w.id := Created(p, w.id, req.content, req.subject, req.session, None, w.now, req.rest)] else l
  {
    hide Blocked; hide Gate; hide LiveOn; hide FirstWithClaim; hide ClaimOf; hide Keyed;
    if w.req.subject != "" { hide IsNew; ExistingIff(p.h, l, w.req.subject, p.h.claim(w.req.content)); }
  }

  lemma RememberConflictIff(p: Policy, l: Ledger, w: Arrival)
    requires w.req.Remember? && Keyed(l) && |l| <= LIST_LIMIT && Fresh(l, w.id) && !InConflict(p.h, l) && Admitted(p, l, w)
    ensures InConflict(p.h, Handle(p, l, w.req, w.id, w.now).ledger) <==> Clashes(p.h, l, w.req)
  {
    hide Handle; hide Admitted; hide InConflict; hide Contradicted; hide Fresh; hide Keyed; hide IsNew; hide ClaimOf;
    var req := w.req;
    var rec := Created(p, w.id, req.content, req.subject, req.session, None, w.now, req.rest);
    RememberAdds(p, l, w);
    CreatedClaim(p, rec);
    CreateConflictIff(p.h, l, rec);
  }

  lemma UpsertConflictIff(p: Policy, l: Ledger, w: Arrival)
    requires w.req.Upsert? && Keyed(l) && Fresh(l, w.id) && !InConflict(p.h, l) && Admitted(p, l, w)
    ensures w.req.id in l && (InConflict(p.h, Handle(p, l, w.req, w.id, w.now).ledger) <==> Clashes(p.h, l, w.req))
  {
    hide Blocked; hide Gate; hide InConflict; hide Contradicted; hide Fresh; hide OpenBut; hide ClaimOf;
    AdmittedTarget(p, l, w);
    var req, o := w.req, Handle(p, l, w.req, w.id, w.now);
    var rec, m := o.response.record, Archive(l, req.id, w.now);
    FreshNew(l, w.id);
    assert o.ledger == m[w.id := rec];
    FreshAfterArchive(l, req.id, w.now, w.id);
    CreatedClaim(p, rec);
    CreateConflictIff(p.h, m, rec);
    ArchiveConflictIff(p.h, l, req.id, w.now);
    ContradictedAside(p.h, l, req.id, w.now, rec.subject, p.h.claim(req.content));
  }

  lemma FreshAfterArchive(l: Ledger, t: Id, now: nat, id: Id)
    requires Fresh(l, id) && t in l
    ensures Fresh(Archive(l, t, now), id)
  {
    var m := Archive(l, t, now);
    forall y | y in m ensures m[y].supersedes != Some(id) { assert m[y].supersedes == l[y].supersedes; }
  }

  lemma ContradictedAside(h: Hashing, l: Ledger, t: Id, now: nat, s: string, claim: string)
    requires t in l
    ensures Contradicted(h, Archive(l, t, now), {}, s, claim) <==> Contradicted(h, l, {t}, s, claim)
  {
    var m := Archive(l, t, now);
    forall x ensures OpenBut(m, {}, s, x) <==> OpenBut(l, {t}, s, x) { ArchiveIsBut(l, t, now, s, x); }
    forall x | OpenBut(l, {t}, s, x) ensures x in m && x in l && m[x] == l[x] {}
    hide OpenBut; hide ClaimOf; hide Archive;
    if x :| x in m && OpenBut(m, {}, s, x) && ClaimOf(h, m[x]) != claim { assert OpenBut(l, {t}, s, x); }
    if x :| x in l && OpenBut(l, {t}, s, x) && ClaimOf(h, l[x]) != claim { assert OpenBut(m, {}, s, x); }
  }

  /** The write is admitted and leaves a conflict behind. */
  predicate Brings(p: Policy, l: Ledger, w: Arrival) {
    Admitted(p, l, w) && Clashes(p.h, l, w.req)
  }

  /** For any keyed store within the listing limit and without an unresolved conflict: one exists after a
      governed write if and only if the write is admitted and clashes with what was open before it. */
  lemma WriteConflictIff(p: Policy, l: Ledger, w: Arrival)
    requires Keyed(l) && |l| <= LIST_LIMIT && Fresh(l, w.id) && !InConflict(p.h, l)
    ensures InConflict(p.h, Handle(p, l, w.req, w.id, w.now).ledger) <==> Brings(p, l, w)
  {
    hide Clashes; hide InConflict; hide Fresh; hide Blocked; hide Gate; hide FirstWithClaim; hide LiveOn; hide Keyed;
    if Admitted(p, l, w) {
      if w.req.Remember? { RememberConflictIff(p, l, w); } else { UpsertConflictIff(p, l, w); }
    }
  }

  lemma HandleKeyed(p: Policy, l: Ledger, w: Arrival)
    requires Keyed(l)
    ensures Keyed(Handle(p, l, w.req, w.id, w.now).ledger)
  {
    hide Blocked; hide Gate; hide FirstWithClaim; hide LiveOn;
  }

  lemma {:induction false} RunKeyed(p: Policy, l: Ledger, writes: seq<Arrival>)
    requires Keyed(l)
    ensures Keyed(Run(p, l, writes))
  {
    hide Handle; hide Keyed;
    if writes != [] {
      var k := |writes| - 1;
      RunKeyed(p, l, writes[..k]);
      HandleKeyed(p, Run(p, l, writes[..k]), writes[k]);
    }
  }

  lemma BothReported(p: Policy, l: Ledger, w: Arrival)
    requires Keyed(l) && |l| < LIST_LIMIT
    ensures var m := Handle(p, l, w.req, w.id, w.now).ledger;
      && (Unresolved(DetectConflicts(p.h, Live(l), None)) <==> InConflict(p.h, l))
      && (Unresolved(DetectConflicts(p.h, Live(m), None)) <==> InConflict(p.h, m))
  {
    hide DetectConflicts; hide Live; hide InConflict; hide Keyed;
    HandleKeyed(p, l, w);
    HandleSize(p, l, w);
    ConflictIsReported(p.h, l);
    ConflictIsReported(p.h, Handle(p, l, w.req, w.id, w.now).ledger);
  }

  lemma HandleSize(p: Policy, l: Ledger, w: Arrival)
    ensures |Handle(p, l, w.req, w.id, w.now).ledger| <= |l| + 1
  {
    hide Blocked; hide Gate; hide FirstWithClaim; hide LiveOn;
    var m := Handle(p, l, w.req, w.id, w.now).ledger;
    assert m.Keys <= l.Keys + {w.id};
    CardinalityMono(m.Keys, l.Keys + {w.id});
  }

  /** The same for what the continuity report shows: it gains an unresolved set exactly by a clashing write. */
  lemma WriteReportIff(p: Policy, l: Ledger, w: Arrival)
    requires Keyed(l) && |l| < LIST_LIMIT && Fresh(l, w.id) && !Unresolved(DetectConflicts(p.h, Live(l), None))
    ensures Unresolved(DetectConflicts(p.h, Live(Handle(p, l, w.req, w.id, w.now).ledger), None)) <==> Brings(p, l, w)
  {
    hide DetectConflicts; hide Live; hide InConflict; hide Keyed; hide Fresh; hide Brings; hide Handle;
    BothReported(p, l, w);
    WriteConflictIff(p, l, w);
  }

  ghost predicate NeverConflicts(p: Policy, l: Ledger, writes: seq<Arrival>) {
    forall k :: 0 <= k <= |writes| ==> !InConflict(p.h, Run(p, l, writes[..k]))
  }

  ghost predicate NoneBrings(p: Policy, l: Ledger, writes: seq<Arrival>) {
    forall k :: 0 <= k < |writes| ==> !Brings(p, Run(p, l, writes[..k]), writes[k])
  }

  /** A run of governed writes never shows an unresolved conflict exactly when none of its writes clashes. */
  lemma {:induction false} RunConflictIff(p: Policy, l: Ledger, writes: seq<Arrival>)
    requires Keyed(l) && Orderly(p, l, writes) && !InConflict(p.h, l)
    ensures NeverConflicts(p, l, writes) <==> NoneBrings(p, l, writes)
  {
    hide Keyed; hide Orderly; hide InConflict; hide Brings; hide Handle; hide Fresh; hide NeverConflicts; hide NoneBrings;
    if writes == [] {
      NothingRun(p, l, writes);
    } else {
      var k := |writes| - 1;
      var earlier, m := writes[..k], Run(p, l, writes[..k]);
      OrderlyEarlier(p, l, writes);
      RunConflictIff(p, l, earlier);
      RunKeyed(p, l, earlier);
      OneMore(p, l, writes);
      if NeverConflicts(p, l, earlier) {
        NowClear(p, l, earlier);
        WriteConflictIff(p, m, writes[k]);
      }
    }
  }

  lemma NothingRun(p: Policy, l: Ledger, writes: seq<Arrival>)
    requires writes == [] && !InConflict(p.h, l)
    ensures NeverConflicts(p, l, writes) && NoneBrings(p, l, writes)
  {
    hide InConflict;
  }

  lemma NowClear(p: Policy, l: Ledger, writes: seq<Arrival>)
    requires NeverConflicts(p, l, writes)
    ensures !InConflict(p.h, Run(p, l, writes))
  {
    hide InConflict; hide Run;
    assert writes[..|writes|] == writes;
  }

  lemma OneMore(p: Policy, l: Ledger, writes: seq<Arrival>)
    requires writes != []
    ensures var k := |writes| - 1; var earlier := writes[..k]; var m := Run(p, l, earlier);
      && (NeverConflicts(p, l, writes) <==> NeverConflicts(p, l, earlier) && !InConflict(p.h, Handle(p, m, writes[k].req, writes[k].id, writes[k].now).ledger))
      && (NoneBrings(p, l, writes) <==> NoneBrings(p, l, earlier) && !Brings(p, m, writes[k]))
  {
    hide InConflict; hide Brings; hide Handle; hide NeverConflicts; hide NoneBrings;
    var k := |writes| - 1;
    assert Run(p, l, writes) == Handle(p, Run(p, l, writes[..k]), writes[k].req, writes[k].id, writes[k].now).ledger;
    OneMoreState(p, l, writes);
    OneMoreWrite(p, l, writes);
  }

  lemma OneMoreState(p: Policy, l: Ledger, writes: seq<Arrival>)
    requires writes != []
    ensures NeverConflicts(p, l, writes) <==> NeverConflicts(p, l, writes[..|writes| - 1]) && !InConflict(p.h, Run(p, l, writes))
  {
    hide InConflict; hide Run;
    var earlier := writes[..|writes| - 1];
    assert writes[..|writes|] == writes;
    forall j | 0 <= j <= |earlier| ensures earlier[..j] == writes[..j] {}
    if NeverConflicts(p, l, earlier) && !InConflict(p.h, Run(p, l, writes)) {
      forall j | 0 <= j <= |writes| ensures !InConflict(p.h, Run(p, l, writes[..j])) {
        if j < |writes| { assert !InConflict(p.h, Run(p, l, earlier[..j])); }
      }
    }
    if NeverConflicts(p, l, writes) {
      assert !InConflict(p.h, Run(p, l, writes[..|writes|]));
    }
  }

  lemma OneMoreWrite(p: Policy, l: Ledger, writes: seq<Arrival>)
    requires writes != []
    ensures var k := |writes| - 1; NoneBrings(p, l, writes) <==> NoneBrings(p, l, writes[..k]) && !Brings(p, Run(p, l, writes[..k]), writes[k])
  {
    hide Brings; hide Run;
    var earlier := writes[..|writes| - 1];
    forall j | 0 <= j < |earlier| ensures earlier[..j] == writes[..j] && earlier[j] == writes[j] {}
  }

  // ----- why a write can clash

  predicate Replaced(l: Ledger, x: Id) {
    exists y :: y in l && Active(l[y]) && l[y].supersedes == Some(x)
  }

  /** What the membrane compares a claim with: live, and not replaced by any live record of any subject. */
  predicate Peer(l: Ledger, subject: string, superseding: set<Id>, x: Id) {
    x in l && x !in superseding && Active(l[x]) && l[x].subject == subject && !Replaced(l, x)
  }

  lemma ClashInConflict(h: Hashing, l: Ledger, subject: string)
    requires ClashOn(h, l, {}, subject)
    ensures InConflict(h, l)
  {
    hide ClaimOf;
    var x, y :| x in l && y in l && OpenBut(l, {}, subject, x) && OpenBut(l, {}, subject, y) && ClaimOf(h, l[x]) != ClaimOf(h, l[y]);
    ClashIsConflict(h, l, subject, x, y);
  }

  lemma NoClashOn(h: Hashing, l: Ledger, subject: string)
    requires !InConflict(h, l)
    ensures !ClashOn(h, l, {}, subject)
  {
    hide InConflict;
    if ClashOn(h, l, {}, subject) { ClashInConflict(h, l, subject); }
  }

  /** Where the subject is not in conflict, the membrane refuses exactly when there are peers and none makes
      the claim. */
  lemma BlockedIff(p: Policy, l: Ledger, subject: string, claim: string, superseding: set<Id>)
    requires Keyed(l) && |l| <= LIST_LIMIT && !ClashOn(p.h, l, {}, subject) && subject != ""
    ensures Blocked(p, l, subject, claim, superseding)
       <==> (exists x :: x in l && Peer(l, subject, superseding, x))
            && (forall x :: x in l && Peer(l, subject, superseding, x) ==> ClaimOf(p.h, l[x]) != claim)
  {
    hide ClaimOf; hide ClashOn; hide DetectConflicts; hide Live; hide LiveOn; hide Peer; hide ActivePeers;
    LiveMembers(l, subject);
    DetectedIff(p.h, l, Live(l), subject);
    forall x | x in l ensures l[x] in ActivePeers(l, subject, superseding) <==> Peer(l, subject, superseding, x) { PeerIff(l, subject, superseding, x); }
    var peers := ActivePeers(l, subject, superseding);
    forall r | r in peers ensures r.id in l && l[r.id] == r { PeerIsLive(l, subject, superseding, r); }
    HasMember(peers);
  }

  /** The one conflict set of a subject in conflict holds its open records. */
  lemma ConflictSetIs(h: Hashing, l: Ledger, live: seq<Record>, subject: string)
    requires Keyed(l) && FromLedger(l, live) && (forall x :: x in l ==> (l[x] in live <==> Active(l[x]))) && ClashOn(h, l, {}, subject)
    ensures forall c :: c in DetectConflicts(h, live, Some(subject)) <==> c in ConflictsOn(h, live, subject)
    ensures var cs := ConflictsOn(h, live, subject);
      && |cs| == 1 && cs[0].unresolved
      && forall r :: r in cs[0].memories <==> r.id in l && l[r.id] == r && OpenBut(l, {}, subject, r.id)
  {
    hide ClashOn; hide Disagree; hide Keyed; hide FromLedger; hide Active; hide OpenBut; hide OpenRecords; hide Claims; hide StableSort;
    ClashNames(h, l, live, subject);
    TextBeforeStrict();
    var subjects := Sorted(Subjects(live, Some(subject)), TextBefore);
    ConflictsOverMembers(h, live, subjects);
    DisagreeIsClash(h, l, live, subject);
    UnresolvedOn(h, live, subject);
    var open := OpenRecords(WithSubject(live, subject));
    SameMembers(open, CreatedBefore);
    forall r ensures r in open <==> r.id in l && l[r.id] == r && OpenBut(l, {}, subject, r.id) { OpenInListing(l, live, subject, r); }
  }

  /** Where the subject is in conflict, the membrane refuses exactly when an open record of the subject is
      not superseded by the write, whatever the claim. */
  lemma BlockedInConflict(p: Policy, l: Ledger, subject: string, claim: string, superseding: set<Id>)
    requires Keyed(l) && |l| <= LIST_LIMIT && ClashOn(p.h, l, {}, subject)
    ensures Blocked(p, l, subject, claim, superseding) <==> exists x :: x in l && OpenBut(l, {}, subject, x) && x !in superseding
  {
    hide ClashOn; hide DetectConflicts; hide Live; hide LiveOn; hide ActivePeers; hide OpenBut; hide ConflictsOn; hide Keyed; hide FromLedger; hide Active; hide Subjects;
    LiveMembers(l, subject);
    var live := Live(l);
    ClashNames(p.h, l, live, subject);
    DetectedIff(p.h, l, live, subject);
    ConflictSetIs(p.h, l, live, subject);
    var c := ConflictsOn(p.h, live, subject)[0];
    assert c in DetectConflicts(p.h, live, Some(subject));
    if x :| x in l && OpenBut(l, {}, subject, x) && x !in superseding {
      KeyedId(l, x);
      assert l[x] in c.memories;
    }
  }

  lemma KeyedId(l: Ledger, x: Id)
    requires Keyed(l) && x in l
    ensures l[x].id == x
  {}

  // ----- what is accepted

  /** The deployment, the user's intent, the status and the text allow the write. */
  predicate Permitted(p: Policy, req: Request) {
    && (p.requireFlag ==> p.writeEnabled) && req.userRequested && (req.status.None? || req.status.value == DRAFT)
    && p.normalizedLength(req.content) >= 8 && !p.transcript(req.content)
  }

  /** The subject does not stand against the claim: in conflict, when all open records are superseded; else,
      when there are no peers or one of them makes the claim. */
  predicate Agreeable(h: Hashing, l: Ledger, subject: string, claim: string, superseding: set<Id>) {
    subject != "" ==>
      if ClashOn(h, l, {}, subject) then forall x :: x in l && OpenBut(l, {}, subject, x) ==> x in superseding
      else (exists x :: x in l && Peer(l, subject, superseding, x)) ==> exists x :: x in l && Peer(l, subject, superseding, x) && ClaimOf(h, l[x]) == claim
  }

  lemma AgreeableIff(p: Policy, l: Ledger, subject: string, claim: string, superseding: set<Id>)
    requires Keyed(l) && |l| <= LIST_LIMIT
    ensures Agreeable(p.h, l, subject, claim, superseding) <==> !Blocked(p, l, subject, claim, superseding)
  {
    if subject == "" {
    } else {
      hide Blocked; hide Peer; hide ClashOn; hide OpenBut; hide ClaimOf; hide Keyed;
      if ClashOn(p.h, l, {}, subject) { BlockedInConflict(p, l, subject, claim, superseding); } else { BlockedIff(p, l, subject, claim, superseding); }
    }
  }

  predicate Admissible(p: Policy, l: Ledger, req: Request) {
    Permitted(p, req) &&
    match req
    case Remember(_, s, _, _, _, _) => Agreeable(p.h, l, s, p.h.claim(req.content), {})
    case Upsert(x, _, _, session, _, _, named, _) =>
      && x in l && l[x].status != Verified && (p.strip(named) == "" || p.strip(named) == x.text)
      && Agreeable(p.h, l, SubjectOf(l, req), p.h.claim(req.content), {x})
      && p.strip(if session != "" then session else l[x].session) != ""
  }

  /** Exactly these writes are accepted. */
  lemma AcceptedIff(p: Policy, l: Ledger, w: Arrival)
    requires Keyed(l) && |l| <= LIST_LIMIT
    ensures Handle(p, l, w.req, w.id, w.now).response.Accepted? <==> Admissible(p, l, w.req)
  {
    hide Blocked; hide Agreeable; hide LiveOn; hide FirstWithClaim; hide Keyed;
    AgreeableIff(p, l, SubjectOf(l, w.req), p.h.claim(w.req.content), if w.req.Upsert? then {w.req.id} else {});
  }

  /** A refusal changes nothing. */
  lemma RefusalKeeps(p: Policy, l: Ledger, w: Arrival)
    ensures var o := Handle(p, l, w.req, w.id, w.now); o.response.Refused? ==> o.ledger == l
  {
    hide Blocked; hide Gate; hide LiveOn; hide FirstWithClaim;
  }

  /** The membrane is named as the reason exactly when nothing before it stands against the write and the
      subject does. */
  lemma MembraneReason(p: Policy, l: Ledger, w: Arrival)
    requires Keyed(l) && |l| <= LIST_LIMIT
    ensures var req, claim := w.req, p.h.claim(w.req.content);
      Handle(p, l, req, w.id, w.now).response == Refused(ConflictMembrane)
      <==> Permitted(p, req) && !Agreeable(p.h, l, SubjectOf(l, req), claim, if req.Upsert? then {req.id} else {})
           && (req.Upsert? ==> req.id in l && l[req.id].status != Verified && (p.strip(req.supersedes) == "" || p.strip(req.supersedes) == req.id.text))
  {
    hide Blocked; hide Agreeable; hide LiveOn; hide FirstWithClaim; hide Keyed;
    AgreeableIff(p, l, SubjectOf(l, w.req), p.h.claim(w.req.content), if w.req.Upsert? then {w.req.id} else {});
  }

  /** The record was live on its subject before, makes the claim, and none that does is newer. */
  predicate NewestWith(h: Hashing, l: Ledger, claim: string, r: Record) {
    && r.id in l && l[r.id] == r && Active(r) && ClaimOf(h, r) == claim
    && forall x :: x in l && Active(l[x]) && l[x].subject == r.subject && ClaimOf(h, l[x]) == claim ==> l[x] == r || Precedes(r, l[x])
  }

  lemma {:induction false} FirstIsNewest(h: Hashing, rs: seq<Record>, claim: string, s: Record)
    requires NewestFirst(rs) && FirstWithClaim(h, rs, claim).Some? && s in rs && ClaimOf(h, s) == claim
    ensures var r := FirstWithClaim(h, rs, claim).value; s == r || Precedes(r, s)
  {
    hide Precedes; hide ClaimOf;
    if ClaimOf(h, rs[0]) != claim {
      var k :| 0 <= k < |rs| && rs[k] == s;
      FirstIsNewest(h, rs[1..], claim, s);
    }
  }

  lemma ExistingIsNewest(h: Hashing, l: Ledger, subject: string, claim: string)
    requires Keyed(l) && |l| <= LIST_LIMIT && FirstWithClaim(h, LiveOn(l, subject), claim).Some?
    ensures var r := FirstWithClaim(h, LiveOn(l, subject), claim).value; r.subject == subject && NewestWith(h, l, claim, r)
  {
    hide ClaimOf; hide Precedes; hide NewestFirst; hide FirstWithClaim; hide Keyed; hide Active;
    LiveMembers(l, subject);
    FirstWithClaimFinds(h, LiveOn(l, subject), claim);
    var r := FirstWithClaim(h, LiveOn(l, subject), claim).value;
    ListingMeans(l, y => Active(y) && y.subject == subject, r.id);
    hide LiveOn;
    forall x | x in l && Active(l[x]) && l[x].subject == r.subject && ClaimOf(h, l[x]) == claim ensures l[x] == r || Precedes(r, l[x]) {
      FirstIsNewest(h, LiveOn(l, subject), claim, l[x]);
    }
  }

  /** The new draft of a create, as the request asks for it. */
  predicate DraftOf(p: Policy, w: Arrival, r: Record) {
    && r.id == w.id && r.status == Draft && r.content == w.req.content && r.sha == p.h.claim(w.req.content)
    && r.created == r.updated == w.now && r.rest == w.req.rest
  }

  /** An accepted create answers with the newest live record of the subject that makes the claim and changes
      nothing, where there is one; else it adds a new draft with what the request says. */
  lemma RememberRecord(p: Policy, l: Ledger, w: Arrival)
    requires Keyed(l) && |l| <= LIST_LIMIT && w.req.Remember? && w.id !in l && Handle(p, l, w.req, w.id, w.now).response.Accepted?
    ensures var o := Handle(p, l, w.req, w.id, w.now); var r, claim := o.response.record, p.h.claim(w.req.content);
      && r.subject == w.req.subject
      && if IsNew(p.h, l, w.req.subject, claim)
         then o.ledger == l[w.id := r] && DraftOf(p, w, r) && r.session == w.req.session && r.supersedes == None
         else o.ledger == l && NewestWith(p.h, l, claim, r)
  {
    hide Blocked; hide Gate; hide LiveOn; hide FirstWithClaim; hide NewestWith; hide Keyed; hide ClaimOf;
    var claim := p.h.claim(w.req.content);
    if w.req.subject != "" {
      hide IsNew;
      ExistingIff(p.h, l, w.req.subject, claim);
      if FirstWithClaim(p.h, LiveOn(l, w.req.subject), claim).Some? { ExistingIsNewest(p.h, l, w.req.subject, claim); }
    }
  }

  /** An accepted upsert adds a draft with the request's content that names its target, archives the target
      and touches nothing else. */
  lemma UpsertRecord(p: Policy, l: Ledger, w: Arrival)
    requires w.req.Upsert? && w.id !in l && Handle(p, l, w.req, w.id, w.now).response.Accepted?
    ensures var o := Handle(p, l, w.req, w.id, w.now); var r := o.response.record;
      && w.req.id in l && o.ledger == l[w.id := r][w.req.id := l[w.req.id].(status := Archived, updated := w.now)]
      && DraftOf(p, w, r) && r.subject == SubjectOf(l, w.req) && r.supersedes == Some(w.req.id)
      && r.session == p.strip(if w.req.session == "" then l[w.req.id].session else w.req.session) != ""
  {
    hide Blocked; hide Gate;
  }

  /** While a subject is in conflict no governed write on it is accepted: it could supersede one record at
      most, and at least two are open. */
  lemma ConflictRefuses(p: Policy, l: Ledger, w: Arrival)
    requires Keyed(l) && |l| <= LIST_LIMIT && ClashOn(p.h, l, {}, SubjectOf(l, w.req))
    ensures var o := Handle(p, l, w.req, w.id, w.now); o.response.Refused? && o.ledger == l
  {
    hide Handle; hide Permitted; hide ClaimOf; hide OpenBut; hide Keyed;
    var s := SubjectOf(l, w.req);
    var x, y :| x in l && y in l && OpenBut(l, {}, s, x) && OpenBut(l, {}, s, y) && ClaimOf(p.h, l[x]) != ClaimOf(p.h, l[y]);
    OpenIsLive(l, {}, s, x);
    AcceptedIff(p, l, w);
    RefusalKeeps(p, l, w);
  }

  lemma HasMember<T>(s: seq<T>)
    ensures s == [] || exists x :: x in s
  {
    if s != [] { assert s[0] in s; }
  }

  lemma DetectedIff(h: Hashing, l: Ledger, live: seq<Record>, subject: string)
    requires Keyed(l) && FromLedger(l, live) && (forall x :: x in l ==> (l[x] in live <==> Active(l[x]))) && subject != ""
    ensures Unresolved(DetectConflicts(h, live, Some(subject))) <==> ClashOn(h, l, {}, subject)
  {
    hide DetectConflicts; hide ClashOn; hide Disagree; hide Keyed; hide FromLedger; hide Active; hide Unresolved;
    UnresolvedIffDisagree(h, live, Some(subject));
    DisagreeIsClash(h, l, live, subject);
    if ClashOn(h, l, {}, subject) {
      ClashNames(h, l, live, subject);
    }
  }

  lemma PeerIff(l: Ledger, subject: string, superseding: set<Id>, x: Id)
    requires Keyed(l) && |l| <= LIST_LIMIT && x in l
    ensures l[x] in ActivePeers(l, subject, superseding) <==> Peer(l, subject, superseding, x)
  {
    LiveMembers(l, subject);
    hide Live; hide LiveOn;
    if x in SupersededBy(Live(l)) {
      var r :| r in Live(l) && r.supersedes == Some(x);
      assert l[r.id] == r;
    }
    if Replaced(l, x) {
      var y :| y in l && Active(l[y]) && l[y].supersedes == Some(x);
      assert l[y] in Live(l);
    }
  }

  /** A live record replaced by a live one that is of another subject, or that is the write's own target. */
  predicate ReplacedAside(l: Ledger, req: Request, x: Id) {
    x in l && Active(l[x])
    && exists y :: y in l && Active(l[y]) && l[y].supersedes == Some(x) && (l[y].subject != l[x].subject || (req.Upsert? && y == req.id))
  }

  lemma AsideOrOpen(l: Ledger, req: Request, s: string, x: Id)
    requires OpenBut(l, if req.Upsert? then {req.id} else {}, s, x)
    ensures ReplacedAside(l, req, x) || Peer(l, s, if req.Upsert? then {req.id} else {}, x)
  {}

  lemma PeerIsOpen(l: Ledger, s: string, superseding: set<Id>, x: Id)
    requires Peer(l, s, superseding, x) && s != ""
    ensures OpenBut(l, {}, s, x) && OpenBut(l, superseding, s, x)
  {}

  /** An admitted write can only clash over a live record that the membrane took for replaced. */
  lemma ClashCause(p: Policy, l: Ledger, w: Arrival)
    requires Keyed(l) && |l| <= LIST_LIMIT && !InConflict(p.h, l) && Brings(p, l, w)
    ensures exists x :: x in l && ReplacedAside(l, w.req, x)
  {
    hide Gate; hide Blocked; hide FirstWithClaim; hide LiveOn; hide InConflict; hide Keyed; hide Reopened;
    hide ReplacedAside; hide ClaimOf; hide Peer; hide OpenBut;
    var req := w.req;
    var s, claim, but := SubjectOf(l, req), p.h.claim(req.content), if req.Upsert? then {req.id} else {};
    if req.Upsert? && Reopened(p.h, l, req.id) {
      ReopenedAside(p.h, l, req);
    } else {
      var x :| x in l && OpenBut(l, but, s, x) && ClaimOf(p.h, l[x]) != claim;
      OpenIsLive(l, but, s, x);
      assert !Blocked(p, l, s, claim, but);
      NoClashOn(p.h, l, s);
      BlockedIff(p, l, s, claim, but);
      AsideOrOpen(l, req, s, x);
      if Peer(l, s, but, x) {
        var r :| r in l && Peer(l, s, but, r) && ClaimOf(p.h, l[r]) == claim;
        PeerIsOpen(l, s, but, x);
        PeerIsOpen(l, s, but, r);
        ClashIsConflict(p.h, l, s, x, r);
      }
    }
  }

  lemma ReopenedAside(h: Hashing, l: Ledger, req: Request)
    requires req.Upsert? && req.id in l && Reopened(h, l, req.id)
    ensures exists x :: x in l && ReplacedAside(l, req, x)
  {
    assert ReplacedAside(l, req, l[req.id].supersedes.value);
  }

  /** So where superseded records are archived and live claims agree, which every governed write keeps, no
      admitted write clashes. */
  lemma IntactNeverClashes(p: Policy, l: Ledger, w: Arrival)
    requires Intact(p.h, l) && |l| <= LIST_LIMIT
    ensures !InConflict(p.h, l) && !Brings(p, l, w)
  {
    hide Brings; hide ClaimOf;
    if InConflict(p.h, l) {
      var s, x, y := ConflictIsClash(p.h, l);
      OpenIsLive(l, {}, s, x);
      OpenIsLive(l, {}, s, y);
    }
    if Brings(p, l, w) { ClashCause(p, l, w); }
  }

  // ----- two stores that no governed write builds

  /** A live record that a live one replaces, and neither is replaced otherwise. */
  ghost predicate Pair(l: Ledger, a: Record, b: Record) {
    l == map[a.id := a, b.id := b] && a.id != b.id && Active(a) && Active(b) && b.supersedes == Some(a.id) && a.supersedes.None? && a.subject != ""
  }

  lemma PairClear(h: Hashing, l: Ledger, a: Record, b: Record)
    requires Pair(l, a, b)
    ensures Keyed(l) && |l| == 2 && !InConflict(h, l)
    ensures forall x :: x in l ==> x == a.id || x == b.id
    ensures Replaced(l, a.id) && (ReplacedWithin(l, {}, a.id) <==> b.subject == a.subject)
  {
    hide ClaimOf; hide InConflict; hide Active;
    PairReplaced(l, a, b);
    if InConflict(h, l) {
      var s, x, y := ConflictIsClash(h, l);
      PairOneOpen(l, a, b, s, x, y);
    }
  }

  lemma PairReplaced(l: Ledger, a: Record, b: Record)
    requires Pair(l, a, b)
    ensures Keyed(l) && |l| == 2 && (forall x :: x in l ==> x == a.id || x == b.id)
    ensures Replaced(l, a.id) && (ReplacedWithin(l, {}, a.id) <==> b.subject == a.subject)
  {
    hide Active;
    assert l.Keys == {a.id, b.id};
    assert b.id in l && l[b.id] == b && l[a.id] == a;
  }

  lemma PairOneOpen(l: Ledger, a: Record, b: Record, s: string, x: Id, y: Id)
    requires Pair(l, a, b) && OpenBut(l, {}, s, x) && OpenBut(l, {}, s, y)
    ensures x == y
  {
    hide ReplacedWithin; hide Active;
    PairReplaced(l, a, b);
  }

  /** A is live on a subject and B, live on it too, replaced it: upserting B brings A back beside the new claim. */
  lemma RetiredIsNeeded(p: Policy, a: Record, b: Record, req: Request, id: Id, now: nat)
    requires var l := map[a.id := a, b.id := b]; Pair(l, a, b) && Fresh(l, id) && b.status == Draft && b.subject == a.subject
    requires req.Upsert? && req.id == b.id && req.subject == "" && req.supersedes == "" && p.strip("") == ""
    requires Gate(p, req).None? && p.strip(if req.session != "" then req.session else b.session) != ""
    requires p.h.claim(req.content) != ClaimOf(p.h, a)
    ensures var l := map[a.id := a, b.id := b];
      && !Unresolved(DetectConflicts(p.h, Live(l), None))
      && Unresolved(DetectConflicts(p.h, Live(UpsertStep(p, l, req, id, now).ledger), None))
  {
    hide Blocked; hide Gate; hide DetectConflicts; hide Live; hide ClaimOf; hide InConflict;
    var l: Ledger := map[a.id := a, b.id := b];
    var w := Arrival(req, id, now);
    PairClear(p.h, l, a, b);
    NoClashOn(p.h, l, a.subject);
    BlockedIff(p, l, a.subject, p.h.claim(req.content), {b.id});
    assert OpenBut(l, {b.id}, a.subject, a.id);
    BothReported(p, l, w);
    WriteReportIff(p, l, w);
  }

  /** A is live on a subject and B, live on another one, replaced it: remembering a new claim on A's subject
      is let through, and A is still open there. */
  lemma RememberMayClash(p: Policy, a: Record, b: Record, req: Request, id: Id, now: nat)
    requires var l := map[a.id := a, b.id := b]; Pair(l, a, b) && Fresh(l, id) && b.subject != a.subject
    requires req.Remember? && req.subject == a.subject && Gate(p, req).None? && p.h.claim(req.content) != ClaimOf(p.h, a)
    ensures var l := map[a.id := a, b.id := b];
      && !Unresolved(DetectConflicts(p.h, Live(l), None))
      && Unresolved(DetectConflicts(p.h, Live(RememberStep(p, l, req, id, now).ledger), None))
  {
    hide Blocked; hide Gate; hide DetectConflicts; hide Live; hide LiveOn; hide FirstWithClaim; hide ClaimOf; hide InConflict;
    var l: Ledger := map[a.id := a, b.id := b];
    var w := Arrival(req, id, now);
    PairClear(p.h, l, a, b);
    NoClashOn(p.h, l, a.subject);
    BlockedIff(p, l, a.subject, p.h.claim(req.content), {});
    assert OpenBut(l, {}, a.subject, a.id);
    BothReported(p, l, w);
    WriteReportIff(p, l, w);
  }
}
