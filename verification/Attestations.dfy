/** The attestation log: what its evaluation reports, and what an accepted log guarantees. */
module Attestations {
  import opened Options
  import opened Order
  import opened Encoding
  import opened AttestationText
  import T = Trust
  import Blocks

  /** What the verifier checks a subject against. */
  datatype Truth = Truth(blockHash: int -> Option<Bytes>, receiptProblem: Bytes -> bool)

  /** Everything the rows are judged by; of the trust state, the keys and the voids. */
  datatype Setting = Setting(c: T.Crypto, tenant: Bytes, keys: map<Bytes, T.KeyAuth>, voids: map<int, Bytes>, truth: Truth)

  datatype Finding = Misplaced | BrokenLink | Malformed | WrongHash | Replaced | Unauthorised | TooEarly | Revoked
                   | OtherKey | BadSignature | BadSubject | NoSuchBlock | WrongBlock | BadReceipt | ReceiptTrouble
                   | WrongCover | WrongHead | WrongTip | WrongDigest | Repeated(prior: int, equivocation: bool) | ForeignCosign

  datatype Problem = Problem(seqNo: int, finding: Finding)

  datatype Summary = Summary(count: nat, headSeq: int, headHash: Bytes, blocks: set<int>, receipts: set<Bytes>,
                             newestCheckpoint: int, cosignedCheckpoint: int, keysUsed: set<Bytes>, voided: seq<int>,
                             badSeqs: set<int>, blockSeq: map<int, int>, blockSubjectHash: map<int, Bytes>,
                             receiptSeq: map<Bytes, int>, validCheckpoints: map<int, int>, cosignedCheckpoints: set<int>)

  /** The evaluation's variables. */
  datatype Log = Log(problems: seq<Problem>, summary: Summary, seen: map<(Kind, Bytes), Attestation>, bySeq: map<int, Attestation>)

  function When(found: bool, f: Finding): seq<Finding> {
    if found then [f] else []
  }

  /** Position, link, form and stored hash. */
  function ChainFindings(e: Setting, headSeq: int, headHash: Bytes, a: Attestation): seq<Finding> {
    When(a.seqNo != headSeq + 1, Misplaced) + When(a.prevHash != headHash, BrokenLink)
    + (if Message(e.tenant, a).None? then [Malformed] else When(!Hashed(e, a), WrongHash))
  }

  predicate Hashed(e: Setting, a: Attestation) {
    Message(e.tenant, a).Some? && AttestationHash(e.c, Message(e.tenant, a).value, a) == a.hash
  }

  /** A root voided exactly this row. */
  predicate Voided(e: Setting, a: Attestation) {
    Hashed(e, a) && a.seqNo in e.voids && e.voids[a.seqNo] == a.hash
  }

  /** A root voided another row with this number. */
  predicate VoidMissed(e: Setting, a: Attestation) {
    Hashed(e, a) && a.seqNo in e.voids && e.voids[a.seqNo] != a.hash
  }

  /** The signing key: authorised, in its window, and the one that made the signature. */
  function KeyFindings(e: Setting, a: Attestation): seq<Finding>
    requires Message(e.tenant, a).Some?
  {
    if a.keyId !in e.keys then [Unauthorised]
    else
      var auth := e.keys[a.keyId];
      When(a.seqNo < auth.from, TooEarly) + When(auth.cutoff.Some? && a.seqNo > auth.cutoff.value, Revoked)
      + (var signer := e.c.signer(a.signature, Message(e.tenant, a).value);
         if signer.None? then [BadSignature] else When(signer.value != a.keyId, OtherKey))
  }

  /** `_check_subject` */
  function SubjectFindings(e: Setting, a: Attestation, bySeq: map<int, Attestation>): seq<Finding> {
    match a.kind
    case BlockKind =>
      var height := ParseBlock(a.subject);
      if height.None? then [BadSubject]
      else if e.truth.blockHash(height.value).None? then [NoSuchBlock]
      else When(e.truth.blockHash(height.value).value != a.subjectHash, WrongBlock)
    case ReceiptKind =>
      if a.subject != Ascii("eo:sha256:") + a.subjectHash then [BadReceipt]
      else When(e.truth.receiptProblem(a.subject), ReceiptTrouble)
    case _ =>
      var p := ParseCheckpoint(a.subject);
      if p.None? then [BadSubject]
      else CoverFindings(e, a, p.value, bySeq)
  }

  function CoverFindings(e: Setting, a: Attestation, p: Checkpoint, bySeq: map<int, Attestation>): seq<Finding> {
    When(p.covered != a.seqNo - 1, WrongCover)
    + (if p.covered == 0 then When(p.head != Blocks.Genesis(), WrongHead)
       else When(p.covered !in bySeq || bySeq[p.covered].hash != p.head, WrongHead))
    + (if p.tip == 0 then When(p.tipHash != Blocks.Genesis(), WrongTip)
       else When(e.truth.blockHash(p.tip) != Some(p.tipHash), WrongTip))
    + When(CheckpointHash(e.c, e.tenant, p) != a.subjectHash, WrongDigest)
  }

  /** The verdict on a row apart from its place in the chain and from earlier rows on its subject. */
  function OwnFindings(e: Setting, a: Attestation, bySeq: map<int, Attestation>): seq<Finding> {
    if Message(e.tenant, a).None? || Voided(e, a) then []
    else KeyFindings(e, a) + SubjectFindings(e, a, bySeq)
  }

  function RepeatFindings(e: Setting, a: Attestation, seen: map<(Kind, Bytes), Attestation>): seq<Finding> {
    if Voided(e, a) || (a.kind, a.subject) !in seen then []
    else [Repeated(seen[(a.kind, a.subject)].seqNo, seen[(a.kind, a.subject)].subjectHash != a.subjectHash)]
  }

  function Findings(e: Setting, g: Log, a: Attestation): seq<Finding> {
    ChainFindings(e, g.summary.headSeq, g.summary.headHash, a) + When(VoidMissed(e, a), Replaced)
    + OwnFindings(e, a, g.bySeq) + RepeatFindings(e, a, g.seen)
  }

  function Report(seqNo: int, findings: seq<Finding>): seq<Problem> {
    seq(|findings|, i requires 0 <= i < |findings| => Problem(seqNo, findings[i]))
  }

  function Max(a: int, b: int): int {
    if a < b then b else a
  }

  /** What a row that is neither bad nor voided adds to the summary. */
  function Vouch(s: Summary, a: Attestation): Summary {
    var r := s.(keysUsed := s.keysUsed + {a.keyId});
    match a.kind
    case BlockKind =>
      var height := ParseBlock(a.subject);
      if height.None? then r
      else r.(blocks := r.blocks + {height.value}, blockSeq := r.blockSeq[height.value := a.seqNo],
              blockSubjectHash := r.blockSubjectHash[height.value := a.subjectHash])
    case ReceiptKind =>
      r.(receipts := r.receipts + {a.subject}, receiptSeq := r.receiptSeq[a.subject := a.seqNo])
    case _ =>
      var p := ParseCheckpoint(a.subject);
      var s' := r.(newestCheckpoint := Max(r.newestCheckpoint, a.seqNo));
      if p.None? then s' else s'.(validCheckpoints := s'.validCheckpoints[a.seqNo := p.value.covered])
  }

  /** One turn of the loop of `evaluate_attestations`. */
  function Step(e: Setting, g: Log, a: Attestation): Log {
    var bad := Findings(e, g, a);
    var voided := Voided(e, a);
    var s := if bad != [] then g.summary.(badSeqs := g.summary.badSeqs + {a.seqNo}) else g.summary;
    var t := if voided then s.(voided := s.voided + [a.seqNo]) else if bad == [] then Vouch(s, a) else s;
    Log(g.problems + Report(a.seqNo, bad),
        t.(count := t.count + 1, headSeq := a.seqNo, headHash := a.hash),
        if voided || (a.kind, a.subject) in g.seen then g.seen else g.seen[(a.kind, a.subject) := a],
        g.bySeq[a.seqNo := a])
  }

  function Empty(): Log {
    Log([], Summary(0, 0, Blocks.Genesis(), {}, {}, 0, 0, {}, [], {}, map[], map[], map[], map[], {}), map[], map[])
  }

  /** The rows one after another, in the order given. */
  function Scan(e: Setting, rs: seq<Attestation>): Log {
    if rs == [] then Empty() else Step(e, Scan(e, rs[..|rs| - 1]), rs[|rs| - 1])
  }

  predicate InOrder(a: Attestation, b: Attestation) {
    a.seqNo <= b.seqNo
  }

  /** The cosignature names a checkpoint row of the log by its hash. */
  predicate Matches(g: Log, x: T.Cosign) {
    x.checkpoint in g.bySeq && g.bySeq[x.checkpoint].kind.CheckpointKind? && g.bySeq[x.checkpoint].hash == x.hash
  }

  function CosignStep(g: Log, x: T.Cosign): Log {
    if !Matches(g, x) then g.(problems := g.problems + [Problem(x.seqNo, ForeignCosign)])
    else g.(summary := g.summary.(cosignedCheckpoint := Max(g.summary.cosignedCheckpoint, x.checkpoint),
                                  cosignedCheckpoints := g.summary.cosignedCheckpoints + {x.checkpoint}))
  }

  function CosignPass(g: Log, xs: seq<T.Cosign>): Log {
    if xs == [] then g else CosignStep(CosignPass(g, xs[..|xs| - 1]), xs[|xs| - 1])
  }

  function SettingOf(c: T.Crypto, tenant: Bytes, t: T.Trust, truth: Truth): Setting {
    Setting(c, tenant, t.keys, t.voids, truth)
  }

  function InSeqOrder(rows: seq<Attestation>): seq<Attestation> {
    StableSort(rows, InOrder)
  }

  /** `evaluate_attestations` */
  function Evaluated(c: T.Crypto, tenant: Bytes, t: T.Trust, rows: seq<Attestation>, truth: Truth): Log {
    CosignPass(Scan(SettingOf(c, tenant, t, truth), InSeqOrder(rows)), t.cosigns)
  }

  /** `attestation_level` */
  function Level(s: Summary, signerSeq: Option<int>): int {
    if signerSeq.None? then 0
    else if exists x :: x in s.cosignedCheckpoints && x in s.validCheckpoints && s.validCheckpoints[x] >= signerSeq.value then 2
    else 1
  }

  // ----- rows and their verdicts

  predicate Bad(e: Setting, rs: seq<Attestation>, i: nat)
    requires i < |rs|
  {
    Findings(e, Scan(e, rs[..i]), rs[i]) != []
  }

  /** Neither bad nor voided. */
  predicate Valid(e: Setting, rs: seq<Attestation>, i: nat)
    requires i < |rs|
  {
    !Bad(e, rs, i) && !Voided(e, rs[i])
  }

  /** What a valid row means. */
  lemma ValidMeans(e: Setting, rs: seq<Attestation>, i: nat)
    requires i < |rs| && Valid(e, rs, i)
    ensures Hashed(e, rs[i]) && rs[i].keyId in e.keys
    ensures var auth := e.keys[rs[i].keyId]; auth.from <= rs[i].seqNo && (auth.cutoff.Some? ==> rs[i].seqNo <= auth.cutoff.value)
    ensures e.c.signer(rs[i].signature, Message(e.tenant, rs[i]).value) == Some(rs[i].keyId)
    ensures SubjectFindings(e, rs[i], Scan(e, rs[..i]).bySeq) == []
  {
    hide Message; hide SubjectFindings; hide AttestationHash; hide Scan;
  }

  /** `head`: where the chain stands after the rows. */
  lemma Head(e: Setting, rs: seq<Attestation>)
    ensures var s := Scan(e, rs).summary;
      if rs == [] then s.headSeq == 0 && s.headHash == Blocks.Genesis()
      else s.headSeq == rs[|rs| - 1].seqNo && s.headHash == rs[|rs| - 1].hash
  {
    hide Findings; hide Voided; hide Vouch;
  }
}
