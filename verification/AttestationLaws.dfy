/** What the attestation log guarantees: agreement below a shared hash, the effect of a void, and what
    the highest signature level stands for. */
module AttestationLaws {
  import opened Options
  import opened Order
  import opened Encoding
  import opened AttestationText
  import opened Attestations
  import T = Trust
  import Blocks

  // ----- bad rows

  lemma {:induction false} BadSeqsAreBadRows(e: Setting, rs: seq<Attestation>)
    ensures forall n :: n in Scan(e, rs).summary.badSeqs <==> exists i: nat :: i < |rs| && rs[i].seqNo == n && Bad(e, rs, i)
  {
    hide Findings; hide Step; hide Bad;
    if rs != [] {
      var earlier, k := rs[..|rs| - 1], |rs| - 1;
      BadSeqsAreBadRows(e, earlier);
      StepBad(e, Scan(e, earlier), rs[k]);
      LastBad(e, rs);
      forall i: nat | i < k ensures earlier[i] == rs[i] && (Bad(e, earlier, i) <==> Bad(e, rs, i)) { BadEarlier(e, rs, i); }
      var now, was := Scan(e, rs).summary.badSeqs, Scan(e, earlier).summary.badSeqs;
      assert now == was + (if Bad(e, rs, k) then {rs[k].seqNo} else {});
      hide Scan;
      forall n
        ensures n in now <==> exists i: nat :: i < |rs| && rs[i].seqNo == n && Bad(e, rs, i)
      {
        if n in was {
          var i: nat :| i < |earlier| && earlier[i].seqNo == n && Bad(e, earlier, i);
          assert rs[i].seqNo == n && Bad(e, rs, i);
        }
        if i: nat :| i < |rs| && rs[i].seqNo == n && Bad(e, rs, i) {
          if i < k { assert earlier[i].seqNo == n && Bad(e, earlier, i); }
        }
      }
    }
  }

  lemma LastBad(e: Setting, rs: seq<Attestation>)
    requires rs != []
    ensures Bad(e, rs, |rs| - 1) <==> Findings(e, Scan(e, rs[..|rs| - 1]), rs[|rs| - 1]) != []
  {}

  lemma BadEarlier(e: Setting, rs: seq<Attestation>, i: nat)
    requires i < |rs| - 1
    ensures Bad(e, rs[..|rs| - 1], i) <==> Bad(e, rs, i)
  {
    hide Findings; hide Scan;
    assert rs[..|rs| - 1][..i] == rs[..i];
  }

  lemma StepBad(e: Setting, g: Log, a: Attestation)
    ensures Step(e, g, a).summary.badSeqs == g.summary.badSeqs + (if Findings(e, g, a) != [] then {a.seqNo} else {})
  {
    hide Findings; hide Voided;
  }

  // ----- a void

  /** The rows carry different numbers, lowest first: the numbers are the table's primary key. */
  predicate Numbered(rs: seq<Attestation>) {
    forall i, j :: 0 <= i < j < |rs| ==> rs[i].seqNo < rs[j].seqNo
  }

  function WithVoid(e: Setting, n: int, hash: Bytes): Setting {
    e.(voids := e.voids[n := hash])
  }

  /** How the scans without and with the void stand to each other after the same rows: the chain and the
      rows by number are the same, and no more subjects are taken. */
  predicate Below(g: Log, g': Log) {
    && g'.summary.headSeq == g.summary.headSeq && g'.summary.headHash == g.summary.headHash
    && g'.bySeq == g.bySeq && g'.seen.Keys <= g.seen.Keys
  }

  lemma StepBelow(e: Setting, e': Setting, g: Log, g': Log, a: Attestation)
    requires Below(g, g') && (Voided(e, a) ==> Voided(e', a))
    ensures Below(Step(e, g, a), Step(e', g', a))
  {
    hide Findings; hide Voided; hide Vouch; hide Report;
    VouchKeepsHead(g.summary, a);
    VouchKeepsHead(g'.summary, a);
  }

  lemma VouchKeepsHead(s: Summary, a: Attestation)
    ensures Vouch(s, a).headSeq == s.headSeq && Vouch(s, a).headHash == s.headHash
  {}

  /** The void touches only the row it names. */
  lemma OnlyThatRow(e: Setting, n: int, hash: Bytes, a: Attestation)
    ensures a.seqNo != n ==> Voided(WithVoid(e, n, hash), a) == Voided(e, a) && VoidMissed(WithVoid(e, n, hash), a) == VoidMissed(e, a)
    ensures a.seqNo == n && a.hash == hash && Hashed(e, a) ==> Voided(WithVoid(e, n, hash), a)
    ensures Hashed(WithVoid(e, n, hash), a) == Hashed(e, a)
  {}

  lemma {:induction false} ScanBelow(e: Setting, n: int, hash: Bytes, rs: seq<Attestation>)
    requires forall a :: a in rs && a.seqNo == n ==> a.hash == hash && Hashed(e, a)
    ensures Below(Scan(e, rs), Scan(WithVoid(e, n, hash), rs))
  {
    if rs != [] {
      var earlier, a := rs[..|rs| - 1], rs[|rs| - 1];
      ScanBelow(e, n, hash, earlier);
      OnlyThatRow(e, n, hash, a);
      hide Below; hide Step; hide WithVoid; hide Voided; hide Hashed;
      StepBelow(e, WithVoid(e, n, hash), Scan(e, earlier), Scan(WithVoid(e, n, hash), earlier), a);
    }
  }

  /** The chain, key, signature and subject verdict on a row. */
  predicate SameVerdict(e: Setting, g: Log, e': Setting, g': Log, a: Attestation) {
    && ChainFindings(e', g'.summary.headSeq, g'.summary.headHash, a) == ChainFindings(e, g.summary.headSeq, g.summary.headHash, a)
    && Voided(e', a) == Voided(e, a)
    && (Message(e.tenant, a).Some? ==> Message(e'.tenant, a).Some? && KeyFindings(e', a) == KeyFindings(e, a))
    && SubjectFindings(e', a, g'.bySeq) == SubjectFindings(e, a, g.bySeq)
  }

  lemma VerdictKept(e: Setting, n: int, hash: Bytes, g: Log, g': Log, a: Attestation)
    requires Below(g, g') && a.seqNo != n
    ensures SameVerdict(e, g, WithVoid(e, n, hash), g', a)
    ensures Findings(WithVoid(e, n, hash), g', a) != [] ==> Findings(e, g, a) != []
  {
    OnlyThatRow(e, n, hash, a);
    hide Voided; hide VoidMissed; hide Message; hide ParseCheckpoint; hide ParseBlock; hide CheckpointHash; hide AttestationHash;
  }

  lemma VoidedRowCleaner(e: Setting, n: int, hash: Bytes, g: Log, g': Log, a: Attestation)
    requires Below(g, g') && Voided(WithVoid(e, n, hash), a)
    ensures Findings(WithVoid(e, n, hash), g', a) != [] ==> Findings(e, g, a) != []
  {
    hide Message; hide AttestationHash; hide OwnFindings;
    assert OwnFindings(WithVoid(e, n, hash), a, g'.bySeq) == [] by { OwnNone(WithVoid(e, n, hash), a, g'.bySeq); }
  }

  lemma OwnNone(e: Setting, a: Attestation, bySeq: map<int, Attestation>)
    requires Voided(e, a)
    ensures OwnFindings(e, a, bySeq) == []
  {}

  /** A root's void that names a row's number and its hash, where that hash is the row's, can only make
      rows good that were bad; every other row keeps its verdict; the row itself is voided. */
  lemma VoidShrinksBad(e: Setting, rs: seq<Attestation>, k: nat)
    requires Numbered(rs) && k < |rs| && Hashed(e, rs[k])
    ensures var e' := WithVoid(e, rs[k].seqNo, rs[k].hash);
      && Scan(e', rs).summary.badSeqs <= Scan(e, rs).summary.badSeqs
      && Voided(e', rs[k])
      && forall i: nat :: i < |rs| && i != k ==> SameVerdict(e, Scan(e, rs[..i]), e', Scan(e', rs[..i]), rs[i])
  {
    hide Hashed; hide Findings; hide SameVerdict; hide Scan; hide Voided; hide Below;
    var n, hash := rs[k].seqNo, rs[k].hash;
    var e' := WithVoid(e, n, hash);
    OnlyThatRow(e, n, hash, rs[k]);
    forall i: nat | i < |rs|
      ensures Bad(e', rs, i) ==> Bad(e, rs, i)
      ensures i != k ==> SameVerdict(e, Scan(e, rs[..i]), e', Scan(e', rs[..i]), rs[i])
    {
      ScanBelow(e, n, hash, rs[..i]);
      if i == k { VoidedRowCleaner(e, n, hash, Scan(e, rs[..i]), Scan(e', rs[..i]), rs[i]); }
      else { VerdictKept(e, n, hash, Scan(e, rs[..i]), Scan(e', rs[..i]), rs[i]); }
    }
    hide Bad; hide WithVoid;
    BadSeqsAreBadRows(e, rs);
    BadSeqsAreBadRows(e', rs);
    forall x | x in Scan(e', rs).summary.badSeqs
      ensures x in Scan(e, rs).summary.badSeqs
    {
      var i: nat :| i < |rs| && rs[i].seqNo == x && Bad(e', rs, i);
      assert Bad(e, rs, i);
    }
  }

  // ----- one valid attestation a subject

  lemma {:induction false} SeenIsUnvoided(e: Setting, rs: seq<Attestation>)
    ensures forall s :: s in Scan(e, rs).seen <==> exists a :: a in rs && !Voided(e, a) && (a.kind, a.subject) == s
  {
    hide Findings; hide Voided; hide Vouch; hide Report;
    if rs != [] {
      var earlier, a := rs[..|rs| - 1], rs[|rs| - 1];
      SeenIsUnvoided(e, earlier);
      assert rs == earlier + [a];
      assert Scan(e, rs).seen.Keys == Scan(e, earlier).seen.Keys + (if Voided(e, a) then {} else {(a.kind, a.subject)});
      hide Scan;
    }
  }

  /** No subject has two valid attestations. */
  lemma OneValidPerSubject(e: Setting, rs: seq<Attestation>, i: nat, j: nat)
    requires i < j < |rs| && Valid(e, rs, i) && Valid(e, rs, j)
    ensures (rs[i].kind, rs[i].subject) != (rs[j].kind, rs[j].subject)
  {
    hide Scan; hide Voided; hide ChainFindings; hide OwnFindings; hide VoidMissed;
    SeenIsUnvoided(e, rs[..j]);
    assert rs[..j][i] == rs[i];
    assert (rs[i].kind, rs[i].subject) in Scan(e, rs[..j]).seen;
  }

  lemma {:induction false} CosignPassKeeps(g: Log, xs: seq<T.Cosign>)
    ensures var r := CosignPass(g, xs);
      && r.summary == g.summary.(cosignedCheckpoint := r.summary.cosignedCheckpoint, cosignedCheckpoints := r.summary.cosignedCheckpoints)
      && r.bySeq == g.bySeq && g.problems <= r.problems
  {
    if xs != [] { CosignPassKeeps(g, xs[..|xs| - 1]); }
  }

  /** A root's void in the trust log, where it names a row of the log by number and hash, only shrinks
      the set of numbers that the evaluation reports as bad. */
  lemma RootVoidShrinksBad(c: T.Crypto, tenant: Bytes, t: T.Trust, s: T.Statement, rows: seq<Attestation>, truth: Truth, k: nat)
    requires T.Findings(c, tenant, t, s) == [] && T.Apply(c, t, s).refused.None? && s.kind.VoidKind?
    requires var rs := InSeqOrder(rows);
      Numbered(rs) && k < |rs| && Hashed(SettingOf(c, tenant, t, truth), rs[k]) && s.arg == Some(rs[k].seqNo) && s.subjectHash == rs[k].hash
    ensures Evaluated(c, tenant, T.Step(c, tenant, t, s), rows, truth).summary.badSeqs <= Evaluated(c, tenant, t, rows, truth).summary.badSeqs
  {
    hide T.Findings; hide Scan; hide StableSort; hide Numbered; hide Hashed; hide CosignPass;
    var e, rs := SettingOf(c, tenant, t, truth), InSeqOrder(rows);
    var u := T.Step(c, tenant, t, s);
    var e' := WithVoid(e, rs[k].seqNo, rs[k].hash);
    assert SettingOf(c, tenant, u, truth) == e';
    hide T.Apply; hide T.Step; hide WithVoid;
    BadAfterVoid(e, rs, k);
    CosignPassKeeps(Scan(e, rs), t.cosigns);
    CosignPassKeeps(Scan(e', rs), u.cosigns);
  }

  lemma BadAfterVoid(e: Setting, rs: seq<Attestation>, k: nat)
    requires Numbered(rs) && k < |rs| && Hashed(e, rs[k])
    ensures Scan(WithVoid(e, rs[k].seqNo, rs[k].hash), rs).summary.badSeqs <= Scan(e, rs).summary.badSeqs
  {
    hide Scan; hide Hashed; hide SameVerdict; hide Voided; hide WithVoid;
    VoidShrinksBad(e, rs, k);
  }

  /** When the last accepted void of a number names another hash than the row of that number has, the row is
      reported as replaced, even if an earlier accepted void named it. */
  lemma OverruledVoidReported(c: T.Crypto, tenant: Bytes, pinned: set<Bytes>, ss: seq<T.Statement>, rows: seq<Attestation>, truth: Truth, j: nat, k: nat)
    requires k < |InSeqOrder(rows)| && T.LastVoid(c, tenant, pinned, ss, j, InSeqOrder(rows)[k].seqNo)
    requires var t := T.Replay(c, tenant, pinned, ss); Hashed(SettingOf(c, tenant, t, truth), InSeqOrder(rows)[k])
    requires ss[j].subjectHash != InSeqOrder(rows)[k].hash
    ensures var t := T.Replay(c, tenant, pinned, ss); var e, rs := SettingOf(c, tenant, t, truth), InSeqOrder(rows);
      && Replaced in Findings(e, Scan(e, rs[..k]), rs[k])
      && rs[k].seqNo in Evaluated(c, tenant, t, rows, truth).summary.badSeqs
  {
    hide Scan; hide StableSort; hide Hashed; hide CosignPass; hide T.Replay; hide T.LastVoid; hide ChainFindings; hide OwnFindings; hide RepeatFindings;
    var t := T.Replay(c, tenant, pinned, ss);
    var e, rs := SettingOf(c, tenant, t, truth), InSeqOrder(rows);
    T.LastVoidRules(c, tenant, pinned, ss, rs[k].seqNo);
    assert VoidMissed(e, rs[k]);
    assert Bad(e, rs, k);
    BadSeqsAreBadRows(e, rs);
    CosignPassKeeps(Scan(e, rs), t.cosigns);
  }

  // ----- two logs that share a hash

  /** Numbers from 1 without a gap, each row naming the one before it, every stored hash correct. */
  predicate Chained(c: T.Crypto, tenant: Bytes, rs: seq<Attestation>) {
    forall i: nat :: i < |rs| ==>
      && rs[i].seqNo == i + 1 && rs[i].prevHash == (if i == 0 then Blocks.Genesis() else rs[i - 1].hash)
      && Message(tenant, rs[i]).Some? && AttestationHash(c, Message(tenant, rs[i]).value, rs[i]) == rs[i].hash
  }

  lemma {:induction false} NoProblemsChained(e: Setting, rs: seq<Attestation>)
    requires Scan(e, rs).problems == []
    ensures Chained(e.c, e.tenant, rs)
  {
    hide Message; hide AttestationHash; hide Chained; hide Step;
    if rs == [] {
      NothingChained(e.c, e.tenant);
    } else {
      var earlier, a := rs[..|rs| - 1], rs[|rs| - 1];
      var g := Scan(e, earlier);
      StepProblems(e, g, a);
      NoProblemsChained(e, earlier);
      Head(e, earlier);
      hide Scan;
      ChainedMore(e, earlier, a);
      assert earlier + [a] == rs;
    }
  }

  lemma NothingChained(c: T.Crypto, tenant: Bytes)
    ensures Chained(c, tenant, [])
  {}

  lemma ChainedMore(e: Setting, rs: seq<Attestation>, a: Attestation)
    requires Chained(e.c, e.tenant, rs) && Hashed(e, a)
    requires a.prevHash == (if rs == [] then Blocks.Genesis() else rs[|rs| - 1].hash)
    requires a.seqNo == (if rs == [] then 0 else rs[|rs| - 1].seqNo) + 1
    ensures Chained(e.c, e.tenant, rs + [a])
  {
    hide Message; hide AttestationHash; hide Blocks.Genesis;
    if rs != [] {
      var last: nat := |rs| - 1;
      assert rs[last].seqNo == last + 1;
    }
    forall i: nat | i < |rs| ensures (rs + [a])[i] == rs[i] {}
  }

  lemma StepProblems(e: Setting, g: Log, a: Attestation)
    requires Step(e, g, a).problems == []
    ensures g.problems == [] && a.seqNo == g.summary.headSeq + 1 && a.prevHash == g.summary.headHash && Hashed(e, a)
  {
    hide Message; hide AttestationHash; hide OwnFindings; hide RepeatFindings; hide Vouch; hide VoidMissed; hide Voided;
    assert |Report(a.seqNo, Findings(e, g, a))| == |Findings(e, g, a)|;
    assert ChainFindings(e, g.summary.headSeq, g.summary.headHash, a) == [];
  }

  /** Every text hashed for a row of the log. */
  function Texts(c: T.Crypto, tenant: Bytes, rs: seq<Attestation>): set<Bytes> {
    set a | a in rs && Message(tenant, a).Some? :: HashedText(c, Message(tenant, a).value, a)
  }

  lemma ChainedAt(c: T.Crypto, tenant: Bytes, rs: seq<Attestation>, i: nat)
    requires Chained(c, tenant, rs) && i < |rs|
    ensures rs[i].seqNo == i + 1 && (i > 0 ==> rs[i].prevHash == rs[i - 1].hash)
  {
    hide Message; hide AttestationHash;
  }

  /** Two chained logs that hold one hash agree on every row up to it. */
  lemma {:induction false} SharedHashSharedPast(c: T.Crypto, t: Bytes, a: seq<Attestation>, u: Bytes, b: seq<Attestation>, i: nat, j: nat)
    requires Chained(c, t, a) && Chained(c, u, b) && NoCollision(c.h, Texts(c, t, a) + Texts(c, u, b))
    requires (forall r :: r in a ==> KeyText(r.keyId)) && (forall r :: r in b ==> KeyText(r.keyId))
    requires i < |a| && j < |b| && a[i].hash == b[j].hash
    ensures t == u && i == j && forall k :: 0 <= k <= i ==> SameRow(c, a[k], b[k])
    decreases i
  {
    hide Message; hide HashedText; hide KeyText; hide NoCollision; hide Texts; hide Chained; hide HexDigest;
    OneHashOneRow(c, t, a, u, b, i, j);
    ChainedAt(c, t, a, i);
    ChainedAt(c, u, b, j);
    if i > 0 {
      SharedHashSharedPast(c, t, a, u, b, i - 1, j - 1);
    }
  }

  lemma OneHashOneRow(c: T.Crypto, t: Bytes, a: seq<Attestation>, u: Bytes, b: seq<Attestation>, i: nat, j: nat)
    requires Chained(c, t, a) && Chained(c, u, b) && NoCollision(c.h, Texts(c, t, a) + Texts(c, u, b))
    requires i < |a| && j < |b| && a[i].hash == b[j].hash && KeyText(a[i].keyId) && KeyText(b[j].keyId)
    ensures t == u && SameRow(c, a[i], b[j])
  {
    hide Message; hide HashedText; hide KeyText; hide NoCollision; hide HexDigest;
    var x, y := HashedText(c, Message(t, a[i]).value, a[i]), HashedText(c, Message(u, b[j]).value, b[j]);
    assert x in Texts(c, t, a) && y in Texts(c, u, b);
    HexDigestFixes(c.h, Texts(c, t, a) + Texts(c, u, b), x, y);
    HashedTextInjective(c, t, a[i], u, b[j]);
  }

  /** Two logs of one tenant without a problem, each in its own database and under its own trust state, that
      both hold a row with this hash (a cosigned checkpoint, say) agree on every row up to it. */
  lemma CosignedPastAgrees(c: T.Crypto, tenant: Bytes, t: T.Trust, rows: seq<Attestation>, truth: Truth,
                           t': T.Trust, rows': seq<Attestation>, truth': Truth, i: nat, j: nat)
    requires Evaluated(c, tenant, t, rows, truth).problems == [] && Evaluated(c, tenant, t', rows', truth').problems == []
    requires (forall r :: r in rows ==> KeyText(r.keyId)) && (forall r :: r in rows' ==> KeyText(r.keyId))
    requires NoCollision(c.h, Texts(c, tenant, InSeqOrder(rows)) + Texts(c, tenant, InSeqOrder(rows')))
    requires i < |InSeqOrder(rows)| && j < |InSeqOrder(rows')| && InSeqOrder(rows)[i].hash == InSeqOrder(rows')[j].hash
    ensures i == j && forall k :: 0 <= k <= i ==> SameRow(c, InSeqOrder(rows)[k], InSeqOrder(rows')[k])
  {
    var e, e' := SettingOf(c, tenant, t, truth), SettingOf(c, tenant, t', truth');
    var a, b := InSeqOrder(rows), InSeqOrder(rows');
    SameMembers(rows, InOrder);
    SameMembers(rows', InOrder);
    hide Scan; hide Texts; hide NoCollision; hide KeyText; hide SameRow; hide StableSort;
    CosignPassKeeps(Scan(e, a), t.cosigns);
    CosignPassKeeps(Scan(e', b), t'.cosigns);
    NoProblemsChained(e, a);
    NoProblemsChained(e', b);
    SharedHashSharedPast(c, tenant, a, tenant, b, i, j);
  }

  // ----- the highest level

  ghost predicate ValidRow(e: Setting, rs: seq<Attestation>, n: int, kind: Kind, subject: Bytes, subjectHash: Bytes) {
    exists i: nat :: i < |rs| && rs[i].seqNo == n && rs[i].kind == kind && rs[i].subject == subject && rs[i].subjectHash == subjectHash && Valid(e, rs, i)
  }

  ghost predicate ValidBlock(e: Setting, rs: seq<Attestation>, height: int, n: int, hash: Bytes) {
    exists subject :: ParseBlock(subject) == Some(height) && ValidRow(e, rs, n, BlockKind, subject, hash)
  }

  ghost predicate ValidReceipt(e: Setting, rs: seq<Attestation>, subject: Bytes, n: int) {
    exists hash :: ValidRow(e, rs, n, ReceiptKind, subject, hash)
  }

  ghost predicate ValidCheckpoint(e: Setting, rs: seq<Attestation>, n: int, covered: int) {
    exists subject, hash :: ParseCheckpoint(subject).Some? && ParseCheckpoint(subject).value.covered == covered
      && ValidRow(e, rs, n, CheckpointKind, subject, hash)
  }

  ghost predicate BlocksVouched(e: Setting, rs: seq<Attestation>, seqs: map<int, int>, hashes: map<int, Bytes>) {
    forall h :: h in seqs ==> h in hashes && ValidBlock(e, rs, h, seqs[h], hashes[h])
  }

  ghost predicate ReceiptsVouched(e: Setting, rs: seq<Attestation>, seqs: map<Bytes, int>) {
    forall x :: x in seqs ==> ValidReceipt(e, rs, x, seqs[x])
  }

  ghost predicate CheckpointsVouched(e: Setting, rs: seq<Attestation>, covers: map<int, int>) {
    forall n :: n in covers ==> ValidCheckpoint(e, rs, n, covers[n])
  }

  /** Everything the summary vouches for rests on a valid row. */
  ghost predicate Vouched(e: Setting, rs: seq<Attestation>, s: Summary) {
    && BlocksVouched(e, rs, s.blockSeq, s.blockSubjectHash) && ReceiptsVouched(e, rs, s.receiptSeq)
    && CheckpointsVouched(e, rs, s.validCheckpoints) && s.cosignedCheckpoints == {}
  }

  lemma ValidRowStays(e: Setting, rs: seq<Attestation>, n: int, kind: Kind, subject: Bytes, subjectHash: Bytes)
    requires rs != [] && ValidRow(e, rs[..|rs| - 1], n, kind, subject, subjectHash)
    ensures ValidRow(e, rs, n, kind, subject, subjectHash)
  {
    var earlier := rs[..|rs| - 1];
    hide Valid;
    var i: nat :| i < |earlier| && earlier[i].seqNo == n && earlier[i].kind == kind && earlier[i].subject == subject
      && earlier[i].subjectHash == subjectHash && Valid(e, earlier, i);
    ValidEarlier(e, rs, i);
    assert rs[i] == earlier[i];
  }

  lemma ValidEarlier(e: Setting, rs: seq<Attestation>, i: nat)
    requires i < |rs| - 1
    ensures Valid(e, rs[..|rs| - 1], i) <==> Valid(e, rs, i)
  {
    BadEarlier(e, rs, i);
    hide Bad; hide Voided;
  }

  lemma BlocksStay(e: Setting, rs: seq<Attestation>, seqs: map<int, int>, hashes: map<int, Bytes>)
    requires rs != [] && BlocksVouched(e, rs[..|rs| - 1], seqs, hashes)
    ensures BlocksVouched(e, rs, seqs, hashes)
  {
    hide ValidRow; hide ParseBlock;
    forall h | h in seqs
      ensures h in hashes && ValidBlock(e, rs, h, seqs[h], hashes[h])
    {
      var subject :| ParseBlock(subject) == Some(h) && ValidRow(e, rs[..|rs| - 1], seqs[h], BlockKind, subject, hashes[h]);
      ValidRowStays(e, rs, seqs[h], BlockKind, subject, hashes[h]);
    }
  }

  lemma ReceiptsStay(e: Setting, rs: seq<Attestation>, seqs: map<Bytes, int>)
    requires rs != [] && ReceiptsVouched(e, rs[..|rs| - 1], seqs)
    ensures ReceiptsVouched(e, rs, seqs)
  {
    hide ValidRow;
    forall x | x in seqs
      ensures ValidReceipt(e, rs, x, seqs[x])
    {
      var hash :| ValidRow(e, rs[..|rs| - 1], seqs[x], ReceiptKind, x, hash);
      ValidRowStays(e, rs, seqs[x], ReceiptKind, x, hash);
    }
  }

  lemma CheckpointsStay(e: Setting, rs: seq<Attestation>, covers: map<int, int>)
    requires rs != [] && CheckpointsVouched(e, rs[..|rs| - 1], covers)
    ensures CheckpointsVouched(e, rs, covers)
  {
    hide ValidRow; hide ParseCheckpoint;
    forall n | n in covers
      ensures ValidCheckpoint(e, rs, n, covers[n])
    {
      var subject, hash :| ParseCheckpoint(subject).Some? && ParseCheckpoint(subject).value.covered == covers[n]
        && ValidRow(e, rs[..|rs| - 1], n, CheckpointKind, subject, hash);
      ValidRowStays(e, rs, n, CheckpointKind, subject, hash);
    }
  }

  lemma VouchedStays(e: Setting, rs: seq<Attestation>, s: Summary)
    requires rs != [] && Vouched(e, rs[..|rs| - 1], s)
    ensures Vouched(e, rs, s)
  {
    hide BlocksVouched; hide ReceiptsVouched; hide CheckpointsVouched;
    BlocksStay(e, rs, s.blockSeq, s.blockSubjectHash);
    ReceiptsStay(e, rs, s.receiptSeq);
    CheckpointsStay(e, rs, s.validCheckpoints);
  }

  lemma VouchVouched(e: Setting, rs: seq<Attestation>, s: Summary, a: Attestation)
    requires Vouched(e, rs, s) && ValidRow(e, rs, a.seqNo, a.kind, a.subject, a.subjectHash) && !a.kind.OtherKind?
    ensures Vouched(e, rs, Vouch(s, a))
  {
    hide ValidRow; hide ParseBlock; hide ParseCheckpoint;
    assert ParseBlock(a.subject).Some? && a.kind.BlockKind? ==> ValidBlock(e, rs, ParseBlock(a.subject).value, a.seqNo, a.subjectHash);
    assert a.kind.ReceiptKind? ==> ValidReceipt(e, rs, a.subject, a.seqNo);
    assert ParseCheckpoint(a.subject).Some? && a.kind.CheckpointKind? ==> ValidCheckpoint(e, rs, a.seqNo, ParseCheckpoint(a.subject).value.covered);
    hide ValidBlock; hide ValidReceipt; hide ValidCheckpoint;
  }

  predicate SameVouching(s: Summary, t: Summary) {
    s.blockSeq == t.blockSeq && s.blockSubjectHash == t.blockSubjectHash && s.receiptSeq == t.receiptSeq
    && s.validCheckpoints == t.validCheckpoints && s.cosignedCheckpoints == t.cosignedCheckpoints
  }

  lemma StepVouching(e: Setting, g: Log, a: Attestation)
    ensures SameVouching(Step(e, g, a).summary, if Findings(e, g, a) == [] && !Voided(e, a) then Vouch(g.summary, a) else g.summary)
  {
    hide Findings; hide Voided; hide Report; hide ParseBlock; hide ParseCheckpoint;
  }

  lemma VouchedSame(e: Setting, rs: seq<Attestation>, s: Summary, t: Summary)
    requires Vouched(e, rs, s) && SameVouching(t, s)
    ensures Vouched(e, rs, t)
  {
    hide ValidBlock; hide ValidReceipt; hide ValidCheckpoint;
  }

  lemma LastValidVouched(e: Setting, rs: seq<Attestation>, s: Summary)
    requires rs != [] && Valid(e, rs, |rs| - 1) && Vouched(e, rs, s)
    ensures Vouched(e, rs, Vouch(s, rs[|rs| - 1]))
  {
    hide SubjectFindings; hide KeyFindings; hide Vouch; hide Vouched; hide Voided; hide Valid;
    var a := rs[|rs| - 1];
    ValidMeans(e, rs, |rs| - 1);
    assert ValidRow(e, rs, a.seqNo, a.kind, a.subject, a.subjectHash);
    VouchVouched(e, rs, s, a);
  }

  lemma {:induction false} ScanVouched(e: Setting, rs: seq<Attestation>)
    ensures Vouched(e, rs, Scan(e, rs).summary)
  {
    hide Findings; hide Voided; hide Vouched; hide Vouch; hide Step;
    if rs == [] {
      NothingVouched(e);
    } else {
      var k := |rs| - 1;
      var earlier, a := rs[..k], rs[k];
      var g := Scan(e, earlier);
      ScanVouched(e, earlier);
      VouchedStays(e, rs, g.summary);
      StepVouching(e, g, a);
      if Valid(e, rs, k) {
        LastValidVouched(e, rs, g.summary);
        VouchedSame(e, rs, Vouch(g.summary, a), Step(e, g, a).summary);
      } else {
        VouchedSame(e, rs, g.summary, Step(e, g, a).summary);
      }
    }
  }

  lemma NothingVouched(e: Setting)
    ensures Vouched(e, [], Empty().summary)
  {}

  /** A row by its number. */
  lemma {:induction false} RowsByNumber(e: Setting, rs: seq<Attestation>)
    ensures forall n :: n in Scan(e, rs).bySeq ==> Scan(e, rs).bySeq[n] in rs && Scan(e, rs).bySeq[n].seqNo == n
  {
    hide Findings; hide Voided; hide Vouch; hide Report;
    if rs != [] {
      var earlier := rs[..|rs| - 1];
      RowsByNumber(e, earlier);
      assert forall a :: a in earlier ==> a in rs;
    }
  }

  lemma {:induction false} CosignedMatch(g: Log, xs: seq<T.Cosign>, n: int)
    requires n in CosignPass(g, xs).summary.cosignedCheckpoints && n !in g.summary.cosignedCheckpoints
    ensures exists x :: x in xs && x.checkpoint == n && Matches(g, x)
  {
    var earlier, x := xs[..|xs| - 1], xs[|xs| - 1];
    CosignPassKeeps(g, earlier);
    if n in CosignPass(g, earlier).summary.cosignedCheckpoints {
      CosignedMatch(g, earlier, n);
    } else {
      assert x in xs && x.checkpoint == n && Matches(g, x);
    }
  }

  /** A valid checkpoint row covers the row with number `n`, and a root cosigned that checkpoint's hash. */
  ghost predicate Cosigned(e: Setting, rs: seq<Attestation>, xs: seq<T.Cosign>, n: int) {
    exists k: nat, x :: k < |rs| && x in xs && Valid(e, rs, k) && rs[k].kind == CheckpointKind
      && ParseCheckpoint(rs[k].subject).Some? && n <= ParseCheckpoint(rs[k].subject).value.covered == rs[k].seqNo - 1
      && x.checkpoint == rs[k].seqNo && x.hash == rs[k].hash
  }

  /** The level of a number is 2 only where a valid checkpoint that a root cosigned covers it. */
  lemma LevelTwoMeans(c: T.Crypto, tenant: Bytes, t: T.Trust, rows: seq<Attestation>, truth: Truth, n: int)
    requires Numbered(InSeqOrder(rows)) && Level(Evaluated(c, tenant, t, rows, truth).summary, Some(n)) == 2
    ensures Cosigned(SettingOf(c, tenant, t, truth), InSeqOrder(rows), t.cosigns, n)
  {
    hide Scan; hide Valid; hide ParseCheckpoint; hide CosignPass; hide StableSort; hide ValidBlock; hide ValidReceipt; hide ValidCheckpoint;
    var e, rs := SettingOf(c, tenant, t, truth), InSeqOrder(rows);
    var g := Scan(e, rs);
    var s := CosignPass(g, t.cosigns).summary;
    ScanVouched(e, rs);
    CosignPassKeeps(g, t.cosigns);
    RowsByNumber(e, rs);
    var m :| m in s.cosignedCheckpoints && m in s.validCheckpoints && s.validCheckpoints[m] >= n;
    CosignedMatch(g, t.cosigns, m);
    var x :| x in t.cosigns && x.checkpoint == m && Matches(g, x);
    CheckpointRow(e, rs, m, g.summary.validCheckpoints[m], g.bySeq[m]);
    var k: nat :| k < |rs| && rs[k] == g.bySeq[m] && Valid(e, rs, k) && ParseCheckpoint(rs[k].subject).Some?
      && ParseCheckpoint(rs[k].subject).value.covered == g.summary.validCheckpoints[m] == rs[k].seqNo - 1;
    assert rs[k].kind == CheckpointKind && x.hash == rs[k].hash;
  }

  lemma CheckpointRow(e: Setting, rs: seq<Attestation>, m: int, covered: int, a: Attestation)
    requires Numbered(rs) && a in rs && a.seqNo == m && ValidCheckpoint(e, rs, m, covered)
    ensures exists k: nat ::
      k < |rs| && rs[k] == a && Valid(e, rs, k) && ParseCheckpoint(rs[k].subject).Some?
      && ParseCheckpoint(rs[k].subject).value.covered == covered == rs[k].seqNo - 1
  {
    hide Valid; hide ParseCheckpoint;
    var subject, hash :| ParseCheckpoint(subject).Some? && ParseCheckpoint(subject).value.covered == covered
      && ValidRow(e, rs, m, CheckpointKind, subject, hash);
    var k: nat :| k < |rs| && rs[k].seqNo == m && rs[k].kind == CheckpointKind && rs[k].subject == subject && rs[k].subjectHash == hash && Valid(e, rs, k);
    var j :| 0 <= j < |rs| && rs[j] == a;
    assert j == k;
    ValidMeans(e, rs, k);
    CoversTheRowBefore(e, rs[k], Scan(e, rs[..k]).bySeq);
  }

  lemma CoversTheRowBefore(e: Setting, a: Attestation, bySeq: map<int, Attestation>)
    requires a.kind == CheckpointKind && SubjectFindings(e, a, bySeq) == []
    ensures var p := ParseCheckpoint(a.subject);
      && p.Some? && p.value.covered == a.seqNo - 1
      && (p.value.covered != 0 ==> p.value.covered in bySeq && bySeq[p.value.covered].hash == p.value.head)
      && (p.value.tip != 0 ==> e.truth.blockHash(p.value.tip) == Some(p.value.tipHash))
      && CheckpointHash(e.c, e.tenant, p.value) == a.subjectHash
  {
    hide ParseCheckpoint; hide CheckpointHash;
  }

  /** A block reported at level 2 has a valid, unvoided attestation of the block's real hash, covered by a
      valid checkpoint whose hash a root cosigned, and that root rests on a chain of good signatures
      down to a pinned root. */
  lemma BlockAtLevelTwo(c: T.Crypto, tenant: Bytes, pinned: set<Bytes>, ss: seq<T.Statement>, rows: seq<Attestation>, truth: Truth, height: int)
    requires Numbered(InSeqOrder(rows))
    requires var s := Evaluated(c, tenant, T.Replay(c, tenant, pinned, ss), rows, truth).summary;
      height in s.blockSeq && Level(s, Some(s.blockSeq[height])) == 2
    ensures var t := T.Replay(c, tenant, pinned, ss); var e, rs := SettingOf(c, tenant, t, truth), InSeqOrder(rows);
      exists i: nat :: i < |rs| && Valid(e, rs, i) && rs[i].kind == BlockKind && ParseBlock(rs[i].subject) == Some(height)
        && truth.blockHash(height) == Some(rs[i].subjectHash) && Cosigned(e, rs, t.cosigns, rs[i].seqNo)
    ensures forall x :: x in T.Replay(c, tenant, pinned, ss).cosigns ==> T.CosignBacked(c, tenant, pinned, ss, x)
  {
    var t := T.Replay(c, tenant, pinned, ss);
    T.Provenance(c, tenant, pinned, ss);
    hide T.Replay; hide T.CosignBacked; hide Level; hide StableSort;
    var e, rs := SettingOf(c, tenant, t, truth), InSeqOrder(rows);
    var s := Scan(e, rs).summary;
    ScanVouched(e, rs);
    CosignPassKeeps(Scan(e, rs), t.cosigns);
    LevelTwoMeans(c, tenant, t, rows, truth, s.blockSeq[height]);
    hide Scan; hide Valid; hide Cosigned; hide ParseBlock;
    BlockRow(e, rs, height, s.blockSeq[height], s.blockSubjectHash[height]);
  }

  lemma BlockRow(e: Setting, rs: seq<Attestation>, height: int, n: int, hash: Bytes)
    requires ValidBlock(e, rs, height, n, hash)
    ensures exists i: nat ::
      i < |rs| && rs[i].seqNo == n && Valid(e, rs, i) && rs[i].kind == BlockKind
      && ParseBlock(rs[i].subject) == Some(height) && e.truth.blockHash(height) == Some(rs[i].subjectHash)
  {
    hide Valid; hide ParseBlock; hide SubjectFindings;
    var subject :| ParseBlock(subject) == Some(height) && ValidRow(e, rs, n, BlockKind, subject, hash);
    var i: nat :| i < |rs| && rs[i].seqNo == n && rs[i].kind == BlockKind && rs[i].subject == subject && rs[i].subjectHash == hash && Valid(e, rs, i);
    ValidSubject(e, rs, i);
    RealBlock(e, rs[i], Scan(e, rs[..i]).bySeq, height);
  }

  lemma ValidSubject(e: Setting, rs: seq<Attestation>, i: nat)
    requires i < |rs| && Valid(e, rs, i)
    ensures SubjectFindings(e, rs[i], Scan(e, rs[..i]).bySeq) == []
  {
    hide SubjectFindings; hide Valid; hide Scan;
    ValidMeans(e, rs, i);
  }

  lemma RealBlock(e: Setting, a: Attestation, bySeq: map<int, Attestation>, height: int)
    requires a.kind == BlockKind && SubjectFindings(e, a, bySeq) == [] && ParseBlock(a.subject) == Some(height)
    ensures e.truth.blockHash(height) == Some(a.subjectHash)
  {
    hide ParseBlock;
  }

  /** The same for a receipt: its evidence is intact and its attestation names its own hash. */
  lemma ReceiptAtLevelTwo(c: T.Crypto, tenant: Bytes, t: T.Trust, rows: seq<Attestation>, truth: Truth, subject: Bytes)
    requires Numbered(InSeqOrder(rows))
    requires var s := Evaluated(c, tenant, t, rows, truth).summary; subject in s.receiptSeq && Level(s, Some(s.receiptSeq[subject])) == 2
    ensures var e, rs := SettingOf(c, tenant, t, truth), InSeqOrder(rows);
      exists i: nat :: i < |rs| && Valid(e, rs, i) && rs[i].kind == ReceiptKind && rs[i].subject == subject
        && !truth.receiptProblem(subject) && Cosigned(e, rs, t.cosigns, rs[i].seqNo)
  {
    hide Level; hide StableSort; hide Scan; hide CosignPass; hide Cosigned; hide Valid; hide ValidReceipt; hide Numbered;
    var e, rs := SettingOf(c, tenant, t, truth), InSeqOrder(rows);
    var s := Scan(e, rs).summary;
    ScanVouched(e, rs);
    CosignPassKeeps(Scan(e, rs), t.cosigns);
    LevelTwoMeans(c, tenant, t, rows, truth, s.receiptSeq[subject]);
    ReceiptRow(e, rs, subject, s.receiptSeq[subject]);
  }

  lemma ReceiptRow(e: Setting, rs: seq<Attestation>, subject: Bytes, n: int)
    requires ValidReceipt(e, rs, subject, n)
    ensures exists i: nat ::
      i < |rs| && rs[i].seqNo == n && Valid(e, rs, i) && rs[i].kind == ReceiptKind && rs[i].subject == subject
      && !e.truth.receiptProblem(subject)
  {
    hide Valid; hide Scan;
    var hash :| ValidRow(e, rs, n, ReceiptKind, subject, hash);
    var i: nat :| i < |rs| && rs[i].seqNo == n && rs[i].kind == ReceiptKind && rs[i].subject == subject && rs[i].subjectHash == hash && Valid(e, rs, i);
    ValidSubject(e, rs, i);
  }
}
