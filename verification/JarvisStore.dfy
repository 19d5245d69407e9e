/** The store object whose records the write gateway changes, and the loops of the gateway and of
    conflict detection over it. */
module JarvisStore {
  import opened Options
  import opened Order
  import opened Continuity
  import opened Membrane

  // ----- detect_conflicts as a loop over a dictionary of groups

  lemma {:induction false} WithSubjectAppend(records: seq<Record>, r: Record, subject: string)
    ensures WithSubject(records + [r], subject) == WithSubject(records, subject) + (if r.subject == subject then [r] else [])
  {
    if records == [] {
      assert [] + [r] == [r] && [r][1..] == [];
    } else {
      var all := records + [r];
      assert all[0] == records[0] && all[1..] == records[1..] + [r];
      WithSubjectAppend(records[1..], r, subject);
      WithSubjectFirst(all, subject);
      WithSubjectFirst(records, subject);
      hide WithSubject;
    }
  }

  lemma WithSubjectFirst(records: seq<Record>, subject: string)
    requires records != []
    ensures WithSubject(records, subject) == (if records[0].subject == subject then [records[0]] else []) + WithSubject(records[1..], subject)
  {}

  lemma {:induction false} ConflictsOverAppend(h: Hashing, records: seq<Record>, subjects: seq<string>, s: string)
    ensures ConflictsOver(h, records, subjects + [s]) == ConflictsOver(h, records, subjects) + ConflictsOn(h, records, s)
  {
    if subjects == [] {
      assert [] + [s] == [s];
    } else {
      assert (subjects + [s])[1..] == subjects[1..] + [s];
      ConflictsOverAppend(h, records, subjects[1..], s);
    }
  }

  /** The dictionary holds exactly the wanted subjects, each with its records in order. */
  predicate Grouped(groups: map<string, seq<Record>>, records: seq<Record>, only: Option<string>) {
    groups.Keys == Subjects(records, only) && forall s :: s in groups ==> groups[s] == WithSubject(records, s)
  }

  lemma {:induction false} NoneWithSubject(records: seq<Record>, s: string)
    requires forall r :: r in records ==> r.subject != s
    ensures WithSubject(records, s) == []
  {
    if records != [] { NoneWithSubject(records[1..], s); }
  }

  lemma GroupedStep(groups: map<string, seq<Record>>, records: seq<Record>, r: Record, only: Option<string>)
    requires Grouped(groups, records, only)
    ensures var s := r.subject;
      Grouped(if s == "" || (only.Some? && s != only.value) then groups
              else groups[s := (if s in groups then groups[s] else []) + [r]], records + [r], only)
  {
    var t := r.subject;
    var skip := t == "" || (only.Some? && t != only.value);
    var next := if skip then groups else groups[t := (if t in groups then groups[t] else []) + [r]];
    SubjectsAppend(records, r, only);
    NoneElsewhere(records, only);
    hide Subjects; hide WithSubject;
    forall s | s in next
      ensures next[s] == WithSubject(records + [r], s)
    {
      WithSubjectAppend(records, r, s);
    }
  }

  lemma SubjectsAppend(records: seq<Record>, r: Record, only: Option<string>)
    ensures Subjects(records + [r], only)
         == Subjects(records, only) + (if r.subject == "" || (only.Some? && r.subject != only.value) then {} else {r.subject})
  {}

  lemma NoneElsewhere(records: seq<Record>, only: Option<string>)
    ensures forall s :: s != "" && (only.None? || s == only.value) && s !in Subjects(records, only) ==> WithSubject(records, s) == []
  {
    forall s | s != "" && (only.None? || s == only.value) && s !in Subjects(records, only)
      ensures WithSubject(records, s) == []
    {
      NoneWithSubject(records, s);
    }
  }

  lemma GroupedNone(only: Option<string>)
    ensures Grouped(map[], [], only)
  {}

  /** `detect_conflicts` */
  method FindConflicts(h: Hashing, records: seq<Record>, only: Option<string>) returns (conflicts: seq<ConflictSet>)
    ensures conflicts == DetectConflicts(h, records, only)
  {
    hide *;
    var groups: map<string, seq<Record>> := map[];
    GroupedNone(only);
    assert records[..0] == [];
    for i := 0 to |records|
      invariant Grouped(groups, records[..i], only)
    {
      var rec := records[i];
      GroupedStep(groups, records[..i], rec, only);
      assert records[..i] + [rec] == records[..i + 1];
      if rec.subject == "" { continue; }
      if only.Some? && rec.subject != only.value { continue; }
      groups := groups[rec.subject := (if rec.subject in groups then groups[rec.subject] else []) + [rec]];
    }
    assert records[..|records|] == records;
    TextBeforeStrict();
    var subjects := Sorted(groups.Keys, TextBefore);
    conflicts := [];
    SoFarNone(h, records, subjects);
    for j := 0 to |subjects|
      invariant conflicts == ConflictsOver(h, records, subjects[..j])
    {
      var subj := subjects[j];
      assert subj in subjects;
      SoFarNext(h, records, subjects, j, groups, only);
      var open := OpenRecords(groups[subj]);
      var hashes := Claims(h, open);
      if |open| >= 2 && |hashes| >= 2 {
        conflicts := conflicts + [ConflictSet(subj, true, StableSort(open, CreatedBefore))];
      } else if |open| >= 2 && |hashes| == 1 {
        conflicts := conflicts + [ConflictSet(subj, false, StableSort(open, CreatedBefore))];
      }
    }
    SoFarAll(h, records, subjects, groups, only);
  }

  lemma SoFarNone(h: Hashing, records: seq<Record>, subjects: seq<string>)
    ensures ConflictsOver(h, records, subjects[..0]) == []
  {}

  lemma SoFarNext(h: Hashing, records: seq<Record>, subjects: seq<string>, j: nat, groups: map<string, seq<Record>>, only: Option<string>)
    requires j < |subjects| && Grouped(groups, records, only) && subjects[j] in groups
    ensures var s := subjects[j]; var open := OpenRecords(groups[s]);
      ConflictsOver(h, records, subjects[..j + 1])
        == ConflictsOver(h, records, subjects[..j])
           + (if |open| >= 2 && |Claims(h, open)| >= 2 then [ConflictSet(s, true, StableSort(open, CreatedBefore))]
              else if |open| >= 2 && |Claims(h, open)| == 1 then [ConflictSet(s, false, StableSort(open, CreatedBefore))]
              else [])
  {
    assert subjects[..j + 1] == subjects[..j] + [subjects[j]];
    ConflictsOverAppend(h, records, subjects[..j], subjects[j]);
  }

  lemma SoFarAll(h: Hashing, records: seq<Record>, subjects: seq<string>, groups: map<string, seq<Record>>, only: Option<string>)
    requires Grouped(groups, records, only) && StrictOrder(TextBefore) && subjects == Sorted(groups.Keys, TextBefore)
    ensures ConflictsOver(h, records, subjects[..|subjects|]) == DetectConflicts(h, records, only)
  {
    assert subjects[..|subjects|] == subjects;
  }

  method AnyUnresolved(conflicts: seq<ConflictSet>) returns (open: bool)
    ensures open == Unresolved(conflicts)
  {
    open := false;
    for i := 0 to |conflicts|
      invariant open == exists c :: c in conflicts[..i] && c.unresolved
    {
      assert conflicts[..i + 1] == conflicts[..i] + [conflicts[i]];
      if conflicts[i].unresolved { open := true; }
    }
    assert conflicts[..|conflicts|] == conflicts;
  }

  /** Some unresolved conflict holds a record that the write does not supersede. */
  method Uncovered(conflicts: seq<ConflictSet>, superseding: set<Id>) returns (found: bool)
    ensures found <==> exists c :: c in conflicts && c.unresolved && exists r :: r in c.memories && r.id !in superseding
  {
    for i := 0 to |conflicts|
      invariant forall k :: 0 <= k < i && conflicts[k].unresolved ==> forall r :: r in conflicts[k].memories ==> r.id in superseding
    {
      var c := conflicts[i];
      assert c in conflicts;
      var openIds := set r | r in c.memories :: r.id;
      if c.unresolved && !(openIds <= superseding) {
        ghost var x :| x in openIds && x !in superseding;
        assert exists r :: r in c.memories && r.id !in superseding;
        return true;
      }
      assert forall r :: r in c.memories ==> r.id in openIds;
    }
    return false;
  }

  // ----- the store

  /** The fields a `MemoryUpdate` may set; None leaves a field alone. */
  datatype Update = Update(content: Option<string>, status: Option<Status>, subject: Option<string>, session: Option<string>,
                           supersedes: Option<Id>, rest: Option<string>)

  function Or<T>(o: Option<T>, otherwise: T): T {
    if o.Some? then o.value else otherwise
  }

  /** Every given field as given and the others as they were; the hash of a given content; the id and the
      creation time as they were. */
  function Updated(h: Hashing, r: Record, u: Update, now: nat): (s: Record)
    ensures s.id == r.id && s.created == r.created && s.updated == now
    ensures if u.content == None then s.content == r.content && s.sha == r.sha else Some(s.content) == u.content && s.sha == h.claim(s.content)
    ensures (if u.subject == None then s.subject == r.subject else Some(s.subject) == u.subject)
            && (if u.status == None then s.status == r.status else Some(s.status) == u.status)
            && (if u.session == None then s.session == r.session else Some(s.session) == u.session)
            && (if u.rest == None then s.rest == r.rest else Some(s.rest) == u.rest)
            && (if u.supersedes == None then s.supersedes == r.supersedes else s.supersedes == u.supersedes)
  {
    Record(r.id, Or(u.content, r.content), Or(u.subject, r.subject), Or(u.status, r.status),
           if u.supersedes.Some? then u.supersedes else r.supersedes,
           if u.content.Some? then h.claim(u.content.value) else r.sha,
           Or(u.session, r.session), r.created, now, Or(u.rest, r.rest))
  }

  datatype Changed = Missing | UnknownTarget | Done(record: Record)

  /** `JarvisStore`: ids and the clock are handed in. */
  class JarvisStore {
    const h: Hashing
    var memories: map<Id, Record>

    constructor (h: Hashing)
      ensures this.h == h && memories == map[]
    {
      this.h := h;
      memories := map[];
    }

    /** `create_memory`: the draft with its content hash, unless what it supersedes is unknown. */
    method CreateMemory(content: string, subject: string, session: string, supersedes: Option<Id>, status: Status, rest: string, id: Id, now: nat)
      returns (created: Changed)
      modifies this
      ensures created.UnknownTarget? <==> supersedes.Some? && supersedes.value !in old(memories)
      ensures created.UnknownTarget? ==> memories == old(memories)
      ensures !created.UnknownTarget? ==>
                && created == Done(Record(id, content, subject, status, supersedes, h.claim(content), session, now, now, rest))
                && memories == old(memories)[id := created.record]
    {
      if supersedes.Some? && supersedes.value !in memories {
        return UnknownTarget;
      }
      var rec := Record(id, content, subject, status, supersedes, h.claim(content), session, now, now, rest);
      memories := memories[id := rec];
      return Done(rec);
    }

    /** `update_memory`: the given fields change, the id and the creation time never, the hash follows the content. */
    method UpdateMemory(id: Id, u: Update, now: nat) returns (changed: Changed)
      modifies this
      ensures changed.Missing? <==> id !in old(memories)
      ensures changed.UnknownTarget? <==> id in old(memories) && u.supersedes.Some? && u.supersedes.value !in old(memories)
      ensures changed.Done? ==> changed.record == Updated(h, old(memories)[id], u, now) && memories == old(memories)[id := changed.record]
      ensures !changed.Done? ==> memories == old(memories)
    {
      if id !in memories {
        return Missing;
      }
      var existing := memories[id];
      var updated := existing;
      if u.content.Some? { updated := updated.(content := u.content.value); }
      if u.session.Some? { updated := updated.(session := u.session.value); }
      if u.supersedes.Some? { updated := updated.(supersedes := u.supersedes); }
      if u.status.Some? { updated := updated.(status := u.status.value); }
      if u.subject.Some? { updated := updated.(subject := u.subject.value); }
      if u.rest.Some? { updated := updated.(rest := u.rest.value); }
      if u.supersedes.Some? && u.supersedes.value !in memories {
        return UnknownTarget;
      }
      updated := updated.(updated := now);
      if u.content.Some? { updated := updated.(sha := h.claim(u.content.value)); }
      memories := memories[id := updated];
      return Done(updated);
    }

    /** `_subject_conflict_block` */
    method SubjectConflictBlock(p: Policy, subject: string, claim: string, superseding: set<Id>) returns (blocked: bool)
      requires p.h == h
      ensures blocked == Blocked(p, memories, subject, claim, superseding)
    {
      hide DetectConflicts; hide Live; hide ActivePeers; hide Claims; hide LiveOn;
      if subject == "" {
        return false;
      }
      var conflicts := FindConflicts(h, Live(memories), Some(subject));
      var open := AnyUnresolved(conflicts);
      if !open {
        var activePeers := ActivePeers(memories, subject, superseding);
        return activePeers != [] && claim !in Claims(h, activePeers);
      }
      blocked := Uncovered(conflicts, superseding);
    }

    /** `emr_remember` */
    method Remember(p: Policy, req: Request, id: Id, now: nat) returns (response: Response)
      requires req.Remember? && p.h == h && id !in memories
      modifies this
      ensures Outcome(memories, response) == RememberStep(p, old(memories), req, id, now)
    {
      hide Gate; hide Blocked; hide LiveOn;
      var refused := Gate(p, req);
      if refused.Some? {
        return Refused(refused.value);
      }
      var claim := h.claim(req.content);
      var conflict := SubjectConflictBlock(p, req.subject, claim, {});
      if conflict {
        return Refused(ConflictMembrane);
      }
      if req.subject != "" {
        var live := LiveOn(memories, req.subject);
        for i := 0 to |live|
          invariant FirstWithClaim(h, live, claim) == FirstWithClaim(h, live[i..], claim)
        {
          if ClaimOf(h, live[i]) == claim {
            return Accepted(live[i]);
          }
          assert live[i..][1..] == live[i + 1..];
        }
      }
      var created := CreateMemory(req.content, req.subject, req.session, None, Draft, req.rest, id, now);
      return Accepted(created.record);
    }

    /** `emr_upsert`: create the superseding draft, then archive its target. */
    method Upsert(p: Policy, req: Request, id: Id, now: nat) returns (response: Response)
      requires req.Upsert? && p.h == h && id !in memories
      modifies this
      ensures Outcome(memories, response) == UpsertStep(p, old(memories), req, id, now)
    {
      hide Gate; hide Blocked;
      var refused := Gate(p, req);
      if refused.Some? {
        return Refused(refused.value);
      }
      if req.id !in memories {
        return Refused(TargetNotFound);
      }
      var target := memories[req.id];
      if target.status == Verified {
        return Refused(AuthorityProtected);
      }
      if p.strip(req.supersedes) != "" && p.strip(req.supersedes) != req.id.text {
        return Refused(AmbiguousWrite);
      }
      var subject := if req.subject != "" then req.subject else target.subject;
      var conflict := SubjectConflictBlock(p, subject, h.claim(req.content), {req.id});
      if conflict {
        return Refused(ConflictMembrane);
      }
      var session := p.strip(if req.session != "" then req.session else target.session);
      if session == "" {
        return Refused(MissingFields);
      }
      var created := CreateMemory(req.content, subject, session, Some(req.id), Draft, req.rest, id, now);
      var archived := UpdateMemory(req.id, Update(None, Some(Archived), None, None, None, None), now);
      return Accepted(created.record);
    }
  }
}
