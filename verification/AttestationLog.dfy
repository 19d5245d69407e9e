/** `evaluate_attestations` on its mutable state. */
module AttestationLog {
  import opened Options
  import opened Order
  import opened Encoding
  import opened AttestationText
  import opened Attestations
  import T = Trust
  import Blocks

  /** The problems, the summary, and the two dictionaries of the loop. */
  class Evaluation {
    var problems: seq<Problem>
    var summary: Summary
    var seen: map<(Kind, Bytes), Attestation>
    var bySeq: map<int, Attestation>

    ghost function View(): Log
      reads this
    {
      Log(problems, summary, seen, bySeq)
    }

    constructor ()
      ensures View() == Empty()
    {
      problems, seen, bySeq := [], map[], map[];
      summary := Empty().summary;
    }

    /** A row's place in the chain, its form and stored hash, and whether a root voided it. */
    method JudgeForm(e: Setting, a: Attestation) returns (bad: seq<Finding>, voided: bool)
      ensures bad == ChainFindings(e, summary.headSeq, summary.headHash, a) + When(VoidMissed(e, a), Replaced)
      ensures voided == Voided(e, a)
    {
      hide AttestationHash; hide Message;
      bad, voided := [], false;
      if a.seqNo != summary.headSeq + 1 {
        bad := bad + [Misplaced];
      }
      if a.prevHash != summary.headHash {
        bad := bad + [BrokenLink];
      }
      var message := Message(e.tenant, a);
      if message.None? {
        bad := bad + [Malformed];
      } else if AttestationHash(e.c, message.value, a) != a.hash {
        bad := bad + [WrongHash];
      } else if a.seqNo in e.voids {
        if e.voids[a.seqNo] == a.hash {
          voided := true;
        } else {
          bad := bad + [Replaced];
        }
      }
    }

    method JudgeKey(e: Setting, a: Attestation) returns (bad: seq<Finding>)
      requires Message(e.tenant, a).Some?
      ensures bad == KeyFindings(e, a)
    {
      hide Message;
      if a.keyId !in e.keys {
        return [Unauthorised];
      }
      var auth := e.keys[a.keyId];
      bad := [];
      if a.seqNo < auth.from {
        bad := bad + [TooEarly];
      }
      if auth.cutoff.Some? && a.seqNo > auth.cutoff.value {
        bad := bad + [Revoked];
      }
      var signer := e.c.signer(a.signature, Message(e.tenant, a).value);
      if signer.None? {
        bad := bad + [BadSignature];
      } else if signer.value != a.keyId {
        bad := bad + [OtherKey];
      }
    }

    /** What a checkpoint says it covers, against the rows so far and the tip block. */
    method CheckCover(e: Setting, a: Attestation, p: Checkpoint) returns (bad: seq<Finding>)
      ensures bad == CoverFindings(e, a, p, bySeq)
    {
      hide CheckpointHash;
      var Checkpoint(covered, head, tip, tipHash) := p;
      hide Blocks.Genesis;
      var wrongHead := if covered == 0 then head != Blocks.Genesis() else covered !in bySeq || bySeq[covered].hash != head;
      var wrongTip := if tip == 0 then tipHash != Blocks.Genesis() else e.truth.blockHash(tip) != Some(tipHash);
      bad := When(covered != a.seqNo - 1, WrongCover);
      if wrongHead {
        bad := bad + [WrongHead];
      }
      if wrongTip {
        bad := bad + [WrongTip];
      }
      if CheckpointHash(e.c, e.tenant, p) != a.subjectHash {
        bad := bad + [WrongDigest];
      }
    }

    /** `_check_subject` */
    method CheckSubject(e: Setting, a: Attestation) returns (bad: seq<Finding>)
      ensures bad == SubjectFindings(e, a, bySeq)
    {
      hide ParseBlock; hide ParseCheckpoint; hide CoverFindings;
      if a.kind == BlockKind {
        var height := ParseBlock(a.subject);
        if height.None? {
          return [BadSubject];
        }
        var hash := e.truth.blockHash(height.value);
        if hash.None? {
          return [NoSuchBlock];
        }
        return if hash.value == a.subjectHash then [] else [WrongBlock];
      }
      if a.kind == ReceiptKind {
        if a.subject != Ascii("eo:sha256:") + a.subjectHash {
          return [BadReceipt];
        }
        return if e.truth.receiptProblem(a.subject) then [ReceiptTrouble] else [];
      }
      var p := ParseCheckpoint(a.subject);
      if p.None? {
        return [BadSubject];
      }
      bad := CheckCover(e, a, p.value);
    }

    /** Everything wrong with a row; enters the row's subject where it is free and the row is not voided. */
    method Judge(e: Setting, a: Attestation) returns (bad: seq<Finding>, voided: bool)
      modifies this`seen
      ensures bad == Findings(e, old(View()), a) && voided == Voided(e, a)
      ensures seen == if voided || (a.kind, a.subject) in old(seen) then old(seen) else old(seen)[(a.kind, a.subject) := a]
    {
      hide SubjectFindings; hide ChainFindings; hide KeyFindings; hide Message; hide VoidMissed; hide Hashed;
      bad, voided := JudgeForm(e, a);
      if Message(e.tenant, a).Some? && !voided {
        var key := JudgeKey(e, a);
        var subject := CheckSubject(e, a);
        bad := bad + (key + subject);
      }
      assert bad == ChainFindings(e, summary.headSeq, summary.headHash, a) + When(VoidMissed(e, a), Replaced) + OwnFindings(e, a, bySeq);
      hide When; hide OwnFindings; hide Voided;
      var subject := (a.kind, a.subject);
      if !voided && subject in seen {
        bad := bad + [Repeated(seen[subject].seqNo, seen[subject].subjectHash != a.subjectHash)];
      } else if !voided {
        seen := seen[subject := a];
      }
    }

    /** What a valid row vouches for. */
    method Record(a: Attestation)
      modifies this`summary
      ensures summary == Vouch(old(summary), a)
    {
      hide ParseBlock; hide ParseCheckpoint;
      summary := summary.(keysUsed := summary.keysUsed + {a.keyId});
      if a.kind == BlockKind {
        var height := ParseBlock(a.subject);
        if height.Some? {
          summary := summary.(blocks := summary.blocks + {height.value});
          summary := summary.(blockSeq := summary.blockSeq[height.value := a.seqNo]);
          summary := summary.(blockSubjectHash := summary.blockSubjectHash[height.value := a.subjectHash]);
        }
      } else if a.kind == ReceiptKind {
        summary := summary.(receipts := summary.receipts + {a.subject});
        summary := summary.(receiptSeq := summary.receiptSeq[a.subject := a.seqNo]);
      } else {
        summary := summary.(newestCheckpoint := Max(summary.newestCheckpoint, a.seqNo));
        var p := ParseCheckpoint(a.subject);
        if p.Some? {
          summary := summary.(validCheckpoints := summary.validCheckpoints[a.seqNo := p.value.covered]);
        }
      }
    }

    /** One turn of the loop. */
    method Turn(e: Setting, a: Attestation)
      modifies this
      ensures View() == Step(e, old(View()), a)
    {
      hide Findings; hide Vouch; hide Voided; hide Report;
      var bad, voided := Judge(e, a);
      problems := problems + Report(a.seqNo, bad);
      if bad != [] {
        summary := summary.(badSeqs := summary.badSeqs + {a.seqNo});
      }
      if voided {
        summary := summary.(voided := summary.voided + [a.seqNo]);
      } else if bad == [] {
        Record(a);
      }
      bySeq := bySeq[a.seqNo := a];
      summary := summary.(count := summary.count + 1, headSeq := a.seqNo, headHash := a.hash);
    }

    /** A cosignature is matched against the checkpoint row it names. */
    method MatchCosign(x: T.Cosign)
      modifies this
      ensures View() == CosignStep(old(View()), x)
    {
      if x.checkpoint !in bySeq || bySeq[x.checkpoint].kind != CheckpointKind || bySeq[x.checkpoint].hash != x.hash {
        problems := problems + [Problem(x.seqNo, ForeignCosign)];
      } else {
        summary := summary.(cosignedCheckpoint := Max(summary.cosignedCheckpoint, x.checkpoint));
        summary := summary.(cosignedCheckpoints := summary.cosignedCheckpoints + {x.checkpoint});
      }
    }
  }

  /** `evaluate_attestations` */
  method EvaluateAttestations(c: T.Crypto, tenant: Bytes, trust: T.Trust, rows: seq<Attestation>, truth: Truth)
    returns (problems: seq<Problem>, summary: Summary)
    ensures var g := Evaluated(c, tenant, trust, rows, truth); problems == g.problems && summary == g.summary
  {
    hide Step; hide CosignStep; hide StableSort;
    var e, rs, xs := SettingOf(c, tenant, trust, truth), InSeqOrder(rows), trust.cosigns;
    var st := new Evaluation();
    for i := 0 to |rs|
      invariant fresh(st) && st.View() == Scan(e, rs[..i])
    {
      st.Turn(e, rs[i]);
      assert rs[..i + 1][..i] == rs[..i];
    }
    assert rs[..|rs|] == rs;
    for i := 0 to |xs|
      invariant fresh(st) && st.View() == CosignPass(Scan(e, rs), xs[..i])
    {
      st.MatchCosign(xs[i]);
      assert xs[..i + 1][..i] == xs[..i];
    }
    assert xs[..|xs|] == xs;
    return st.problems, st.summary;
  }

  lemma NotEmpty(s: set<int>)
    requires s != {}
    ensures exists x :: x in s
  {
    if forall x :: x !in s { assert false; }
  }

  /** `attestation_level` */
  method AttestationLevel(s: Summary, signerSeq: Option<int>) returns (level: int)
    ensures level == Level(s, signerSeq)
  {
    if signerSeq.None? {
      return 0;
    }
    var left := s.cosignedCheckpoints;
    while left != {}
      invariant left <= s.cosignedCheckpoints
      invariant forall x :: x in s.cosignedCheckpoints && x !in left ==> !(x in s.validCheckpoints && s.validCheckpoints[x] >= signerSeq.value)
      decreases |left|
    {
      NotEmpty(left);
      var x :| x in left;
      if x in s.validCheckpoints && s.validCheckpoints[x] >= signerSeq.value {
        return 2;
      }
      left := left - {x};
    }
    return 1;
  }
}
