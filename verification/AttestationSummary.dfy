/** What the summary of an attestation log holds, exactly: every valid row is in it, and nothing else; when
    a row is valid; and when a number has level 2. */
module AttestationSummary {
  import opened Options
  import opened Order
  import opened Encoding
  import opened AttestationText
  import opened Attestations
  import opened AttestationLaws
  import T = Trust
  import Blocks

  // ----- when a row is valid

  /** The row comes next in the chain, with the hash of its own text. */
  predicate FitsChain(e: Setting, rs: seq<Attestation>, i: nat)
    requires i < |rs|
  {
    && rs[i].seqNo == (if i == 0 then 0 else rs[i - 1].seqNo) + 1
    && rs[i].prevHash == (if i == 0 then Blocks.Genesis() else rs[i - 1].hash)
    && Hashed(e, rs[i])
  }

  /** Its key is authorised, in its window, and made its signature. */
  predicate KeyFits(e: Setting, a: Attestation)
    requires Message(e.tenant, a).Some?
  {
    && a.keyId in e.keys && e.keys[a.keyId].from <= a.seqNo
    && (e.keys[a.keyId].cutoff.None? || a.seqNo <= e.keys[a.keyId].cutoff.value)
    && e.c.signer(a.signature, Message(e.tenant, a).value) == Some(a.keyId)
  }

  /** Its subject is a real block with its hash, an intact receipt, or a checkpoint of the log before it. */
  predicate SubjectFits(e: Setting, rs: seq<Attestation>, i: nat)
    requires i < |rs|
  {
    var a := rs[i];
    match a.kind
    case BlockKind =>
      ParseBlock(a.subject).Some? && e.truth.blockHash(ParseBlock(a.subject).value) == Some(a.subjectHash)
    case ReceiptKind =>
      a.subject == Ascii("eo:sha256:") + a.subjectHash && !e.truth.receiptProblem(a.subject)
    case _ =>
      var p := ParseCheckpoint(a.subject);
      && p.Some? && p.value.covered == a.seqNo - 1
      && (if p.value.covered == 0 then p.value.head == Blocks.Genesis()
          else Latest(rs[..i], p.value.covered).Some? && Latest(rs[..i], p.value.covered).value.hash == p.value.head)
      && (if p.value.tip == 0 then p.value.tipHash == Blocks.Genesis() else e.truth.blockHash(p.value.tip) == Some(p.value.tipHash))
      && CheckpointHash(e.c, e.tenant, p.value) == a.subjectHash
  }

  /** The last row with the number. */
  function Latest(rs: seq<Attestation>, n: int): Option<Attestation> {
    if rs == [] then None
    else if rs[|rs| - 1].seqNo == n then Some(rs[|rs| - 1])
    else Latest(rs[..|rs| - 1], n)
  }

  /** No earlier row that no root voided has its kind and subject. */
  predicate IsFirst(e: Setting, rs: seq<Attestation>, i: nat)
    requires i < |rs|
  {
    forall j :: 0 <= j < i ==> (rs[j].kind, rs[j].subject) != (rs[i].kind, rs[i].subject) || Voided(e, rs[j])
  }

  lemma {:induction false} BySeqIsLatest(e: Setting, rs: seq<Attestation>, n: int)
    ensures var b := Scan(e, rs).bySeq; if n in b then Latest(rs, n) == Some(b[n]) else Latest(rs, n) == None
  {
    hide Findings; hide Voided; hide Vouch; hide Report;
    if rs != [] { BySeqIsLatest(e, rs[..|rs| - 1], n); }
  }

  lemma SubjectFitsIff(e: Setting, rs: seq<Attestation>, i: nat)
    requires i < |rs|
    ensures SubjectFindings(e, rs[i], Scan(e, rs[..i]).bySeq) == [] <==> SubjectFits(e, rs, i)
  {
    hide Scan; hide ParseBlock; hide ParseCheckpoint; hide CheckpointHash; hide Latest;
    if ParseCheckpoint(rs[i].subject).Some? { BySeqIsLatest(e, rs[..i], ParseCheckpoint(rs[i].subject).value.covered); }
  }

  lemma KeyFitsIff(e: Setting, a: Attestation)
    requires Message(e.tenant, a).Some?
    ensures KeyFindings(e, a) == [] <==> KeyFits(e, a)
  {
    hide Message;
  }

  lemma ChainFitsIff(e: Setting, rs: seq<Attestation>, i: nat)
    requires i < |rs|
    ensures var s := Scan(e, rs[..i]).summary; ChainFindings(e, s.headSeq, s.headHash, rs[i]) == [] <==> FitsChain(e, rs, i)
  {
    hide Scan; hide Hashed;
    assert Hashed(e, rs[i]) ==> Message(e.tenant, rs[i]).Some? by { HashedHasMessage(e, rs[i]); }
    Head(e, rs[..i]);
  }

  lemma HashedHasMessage(e: Setting, a: Attestation)
    ensures Hashed(e, a) ==> Message(e.tenant, a).Some?
  {}

  lemma IsFirstIff(e: Setting, rs: seq<Attestation>, i: nat)
    requires i < |rs| && !Voided(e, rs[i])
    ensures RepeatFindings(e, rs[i], Scan(e, rs[..i]).seen) == [] <==> IsFirst(e, rs, i)
  {
    hide Scan; hide Voided;
    SeenIsUnvoided(e, rs[..i]);
    if !IsFirst(e, rs, i) {
      var j :| 0 <= j < i && (rs[j].kind, rs[j].subject) == (rs[i].kind, rs[i].subject) && !Voided(e, rs[j]);
      assert rs[..i][j] == rs[j];
    }
    if (rs[i].kind, rs[i].subject) in Scan(e, rs[..i]).seen {
      var a :| a in rs[..i] && !Voided(e, a) && (a.kind, a.subject) == (rs[i].kind, rs[i].subject);
      var j :| 0 <= j < i && rs[..i][j] == a;
    }
  }

  /** A row is valid exactly when it fits the chain and has its hash, no root voided its number, its key
      fits, its subject checks, and no earlier unvoided row attests the same. */
  lemma ValidIff(e: Setting, rs: seq<Attestation>, i: nat)
    requires i < |rs|
    ensures Valid(e, rs, i) <==>
      FitsChain(e, rs, i) && rs[i].seqNo !in e.voids && Message(e.tenant, rs[i]).Some? && KeyFits(e, rs[i]) && SubjectFits(e, rs, i) && IsFirst(e, rs, i)
  {
    hide Scan; hide Message; hide SubjectFindings; hide KeyFindings; hide ChainFindings; hide RepeatFindings; hide SubjectFits; hide KeyFits; hide IsFirst; hide FitsChain; hide Hashed;
    HashedHasMessage(e, rs[i]);
    FitsIsHashed(e, rs, i);
    ChainFitsIff(e, rs, i);
    SubjectFitsIff(e, rs, i);
    if Message(e.tenant, rs[i]).Some? { KeyFitsIff(e, rs[i]); }
    if !Voided(e, rs[i]) { IsFirstIff(e, rs, i); }
  }

  lemma FitsIsHashed(e: Setting, rs: seq<Attestation>, i: nat)
    requires i < |rs|
    ensures FitsChain(e, rs, i) ==> Hashed(e, rs[i])
  {
    hide Hashed;
  }

  /** The rows are judged by number, all of them, and those of one number as they were given. */
  lemma JudgedInOrder(rows: seq<Attestation>)
    ensures var rs := InSeqOrder(rows);
      && multiset(rs) == multiset(rows) && (forall i, j :: 0 <= i < j < |rs| ==> rs[i].seqNo <= rs[j].seqNo)
      && ((forall i, j :: 0 <= i < j < |rows| ==> rows[i].seqNo <= rows[j].seqNo) ==> rs == rows)
  {
    assert TotalPreorder(InOrder);
    StableSortSorted(rows, InOrder);
    if forall i, j :: 0 <= i < j < |rows| ==> rows[i].seqNo <= rows[j].seqNo { SortedStays(rows); }
  }

  lemma {:induction false} SortedStays(rows: seq<Attestation>)
    requires forall i, j :: 0 <= i < j < |rows| ==> rows[i].seqNo <= rows[j].seqNo
    ensures StableSort(rows, InOrder) == rows
  {
    if rows != [] { SortedStays(rows[1..]); }
  }

  // ----- block subjects

  lemma {:induction false} DecOfValue(d: Bytes)
    requires Digits(d) && d[0] != 48
    ensures Value(d) > 0 && DecNat(Value(d)) == d
  {
    var n := |d| - 1;
    if n == 0 {
      assert d[..0] == [];
    } else {
      DecOfValue(d[..n]);
      assert d == d[..n] + [d[n]];
    }
  }

  /** A block subject names one height, and a height has one subject. */
  lemma BlockSubjectIff(subject: Bytes, h: int)
    ensures ParseBlock(subject) == Some(h) <==> h > 0 && subject == Ascii("block:") + Dec(h)
  {
    var prefix := Ascii("block:");
    if ParseBlock(subject) == Some(h) {
      DecOfValue(subject[6..]);
      assert subject == subject[..6] + subject[6..];
    }
    if h > 0 { BlockRoundTrip(h); }
  }

  // ----- what the summary holds

  ghost predicate BlockAt(e: Setting, rs: seq<Attestation>, i: nat, h: int) {
    i < |rs| && Valid(e, rs, i) && rs[i].kind == BlockKind && ParseBlock(rs[i].subject) == Some(h)
  }

  ghost predicate ReceiptAt(e: Setting, rs: seq<Attestation>, i: nat, subject: Bytes) {
    i < |rs| && Valid(e, rs, i) && rs[i].kind == ReceiptKind && rs[i].subject == subject
  }

  ghost predicate CheckpointAt(e: Setting, rs: seq<Attestation>, i: nat, n: int) {
    i < |rs| && Valid(e, rs, i) && rs[i].kind == CheckpointKind && rs[i].seqNo == n
  }

  ghost predicate KeyAt(e: Setting, rs: seq<Attestation>, i: nat, k: Bytes) {
    i < |rs| && Valid(e, rs, i) && rs[i].keyId == k
  }

  ghost predicate VoidAt(e: Setting, rs: seq<Attestation>, i: nat, n: int) {
    i < |rs| && Voided(e, rs[i]) && rs[i].seqNo == n
  }

  /** The blocks with a valid row, each with that row's number and hash. */
  ghost predicate BlocksExact(e: Setting, rs: seq<Attestation>, s: Summary) {
    && s.blockSeq.Keys == s.blocks && s.blockSubjectHash.Keys == s.blocks
    && (forall h :: h in s.blocks ==> exists i: nat :: BlockAt(e, rs, i, h))
    && (forall h, i: nat :: BlockAt(e, rs, i, h) ==> h in s.blocks && s.blockSeq[h] == rs[i].seqNo && s.blockSubjectHash[h] == rs[i].subjectHash)
  }

  ghost predicate ReceiptsExact(e: Setting, rs: seq<Attestation>, s: Summary) {
    && s.receiptSeq.Keys == s.receipts
    && (forall x :: x in s.receipts ==> exists i: nat :: ReceiptAt(e, rs, i, x))
    && (forall x, i: nat :: ReceiptAt(e, rs, i, x) ==> x in s.receipts && s.receiptSeq[x] == rs[i].seqNo)
  }

  /** The greatest of the numbers; 0 without a positive one. */
  predicate IsNewest(newest: int, ns: set<int>) {
    newest >= 0 && (newest == 0 || newest in ns) && forall n :: n in ns ==> n <= newest
  }

  /** The valid checkpoints by number, with the number each covers, and the newest of them. */
  ghost predicate CheckpointsExact(e: Setting, rs: seq<Attestation>, s: Summary) {
    && (forall n :: n in s.validCheckpoints <==> exists i: nat :: CheckpointAt(e, rs, i, n))
    && (forall n :: n in s.validCheckpoints ==> s.validCheckpoints[n] == n - 1)
    && IsNewest(s.newestCheckpoint, s.validCheckpoints.Keys)
  }

  ghost predicate KeysExact(e: Setting, rs: seq<Attestation>, s: Summary) {
    forall k :: k in s.keysUsed <==> exists i: nat :: KeyAt(e, rs, i, k)
  }

  ghost predicate VoidedExact(e: Setting, rs: seq<Attestation>, s: Summary) {
    s.count == |rs| && forall n :: n in s.voided <==> exists i: nat :: VoidAt(e, rs, i, n)
  }

  lemma ValidIsKnown(e: Setting, rs: seq<Attestation>, i: nat)
    requires i < |rs| && Valid(e, rs, i)
    ensures !rs[i].kind.OtherKind?
    ensures rs[i].kind == BlockKind ==> ParseBlock(rs[i].subject).Some?
    ensures rs[i].kind == CheckpointKind ==> ParseCheckpoint(rs[i].subject).Some? && ParseCheckpoint(rs[i].subject).value.covered == rs[i].seqNo - 1
  {
    hide Valid; hide KeyFits; hide FitsChain; hide IsFirst; hide ParseBlock; hide ParseCheckpoint; hide CheckpointHash; hide Latest;
    ValidIff(e, rs, i);
  }

  lemma AtEarlier(e: Setting, rs: seq<Attestation>, i: nat)
    requires i + 1 < |rs|
    ensures var earlier := rs[..|rs| - 1]; earlier[i] == rs[i] && Valid(e, earlier, i) == Valid(e, rs, i)
  {
    hide Valid;
    ValidEarlier(e, rs, i);
  }

  predicate SameRecord(t: Summary, v: Summary) {
    && t.blocks == v.blocks && t.blockSeq == v.blockSeq && t.blockSubjectHash == v.blockSubjectHash && t.receipts == v.receipts
    && t.receiptSeq == v.receiptSeq && t.validCheckpoints == v.validCheckpoints && t.newestCheckpoint == v.newestCheckpoint && t.keysUsed == v.keysUsed
  }

  lemma VouchKeepsRest(s: Summary, a: Attestation)
    ensures Vouch(s, a).count == s.count && Vouch(s, a).voided == s.voided && Vouch(s, a).keysUsed == s.keysUsed + {a.keyId}
    ensures Vouch(s, a).cosignedCheckpoint == s.cosignedCheckpoint && Vouch(s, a).cosignedCheckpoints == s.cosignedCheckpoints
  {
    hide ParseBlock; hide ParseCheckpoint;
    match a.kind
    case BlockKind =>
    case ReceiptKind =>
    case CheckpointKind =>
    case OtherKind(_) =>
  }

  lemma VouchCheckpoint(s: Summary, a: Attestation)
    requires !a.kind.OtherKind? && (a.kind == CheckpointKind ==> ParseCheckpoint(a.subject).Some? && ParseCheckpoint(a.subject).value.covered == a.seqNo - 1)
    ensures var v := Vouch(s, a);
      if a.kind == CheckpointKind then v.validCheckpoints == s.validCheckpoints[a.seqNo := a.seqNo - 1] && v.newestCheckpoint == Max(s.newestCheckpoint, a.seqNo)
      else v.validCheckpoints == s.validCheckpoints && v.newestCheckpoint == s.newestCheckpoint
  {
    hide ParseBlock; hide ParseCheckpoint;
  }

  lemma StepRecord(e: Setting, g: Log, a: Attestation)
    ensures var t := Step(e, g, a).summary;
      && t.count == g.summary.count + 1 && t.voided == g.summary.voided + (if Voided(e, a) then [a.seqNo] else [])
      && t.cosignedCheckpoint == g.summary.cosignedCheckpoint && t.cosignedCheckpoints == g.summary.cosignedCheckpoints
      && SameRecord(t, if Findings(e, g, a) == [] && !Voided(e, a) then Vouch(g.summary, a) else g.summary)
  {
    hide Findings; hide Voided; hide Report; hide Vouch;
    VouchKeepsRest(g.summary, a);
    VouchKeepsRest(g.summary.(badSeqs := g.summary.badSeqs + {a.seqNo}), a);
  }

  /** What the last row does to the summary. */
  lemma LastRow(e: Setting, rs: seq<Attestation>)
    requires rs != []
    ensures var k := |rs| - 1; var s, t, a := Scan(e, rs[..k]).summary, Scan(e, rs).summary, rs[k];
      && t.count == s.count + 1 && t.voided == s.voided + (if Voided(e, a) then [a.seqNo] else [])
      && SameRecord(t, if Valid(e, rs, k) then Vouch(s, a) else s)
  {
    hide Findings; hide Voided; hide Step; hide Vouch; hide SameRecord;
    StepRecord(e, Scan(e, rs[..|rs| - 1]), rs[|rs| - 1]);
  }

  lemma OneBlockRow(e: Setting, rs: seq<Attestation>, i: nat, j: nat, h: int)
    requires BlockAt(e, rs, i, h) && BlockAt(e, rs, j, h)
    ensures i == j
  {
    hide Valid; hide ParseBlock;
    BlockSubjectIff(rs[i].subject, h);
    BlockSubjectIff(rs[j].subject, h);
    if i < j { OneValidPerSubject(e, rs, i, j); }
    if j < i { OneValidPerSubject(e, rs, j, i); }
  }

  lemma OneReceiptRow(e: Setting, rs: seq<Attestation>, i: nat, j: nat, x: Bytes)
    requires ReceiptAt(e, rs, i, x) && ReceiptAt(e, rs, j, x)
    ensures i == j
  {
    hide Valid;
    if i < j { OneValidPerSubject(e, rs, i, j); }
    if j < i { OneValidPerSubject(e, rs, j, i); }
  }

  lemma BlocksStep(e: Setting, rs: seq<Attestation>)
    requires rs != [] && BlocksExact(e, rs[..|rs| - 1], Scan(e, rs[..|rs| - 1]).summary)
    ensures BlocksExact(e, rs, Scan(e, rs).summary)
  {
    hide Scan; hide Valid; hide ParseBlock; hide ParseCheckpoint;
    var k := |rs| - 1;
    var s, t := Scan(e, rs[..k]).summary, Scan(e, rs).summary;
    LastRow(e, rs);
    if Valid(e, rs, k) { ValidIsKnown(e, rs, k); }
    forall i: nat, h | i < k ensures BlockAt(e, rs[..k], i, h) == BlockAt(e, rs, i, h) { AtEarlier(e, rs, i); }
    forall h | h in t.blocks ensures exists i: nat :: BlockAt(e, rs, i, h) {
      if h in s.blocks {
        var i: nat :| BlockAt(e, rs[..k], i, h);
        assert BlockAt(e, rs, i, h);
      } else {
        assert BlockAt(e, rs, k, h);
      }
    }
    forall h, i: nat | BlockAt(e, rs, i, h)
      ensures h in t.blocks && t.blockSeq[h] == rs[i].seqNo && t.blockSubjectHash[h] == rs[i].subjectHash
    {
      if i < k {
        assert BlockAt(e, rs[..k], i, h);
        if BlockAt(e, rs, k, h) { OneBlockRow(e, rs, i, k, h); }
      }
    }
  }

  lemma ReceiptsStep(e: Setting, rs: seq<Attestation>)
    requires rs != [] && ReceiptsExact(e, rs[..|rs| - 1], Scan(e, rs[..|rs| - 1]).summary)
    ensures ReceiptsExact(e, rs, Scan(e, rs).summary)
  {
    hide Scan; hide Valid; hide ParseBlock; hide ParseCheckpoint;
    var k := |rs| - 1;
    var s, t := Scan(e, rs[..k]).summary, Scan(e, rs).summary;
    LastRow(e, rs);
    if Valid(e, rs, k) { ValidIsKnown(e, rs, k); }
    forall i: nat, x | i < k ensures ReceiptAt(e, rs[..k], i, x) == ReceiptAt(e, rs, i, x) { AtEarlier(e, rs, i); }
    forall x | x in t.receipts ensures exists i: nat :: ReceiptAt(e, rs, i, x) {
      if x in s.receipts {
        var i: nat :| ReceiptAt(e, rs[..k], i, x);
        assert ReceiptAt(e, rs, i, x);
      } else {
        assert ReceiptAt(e, rs, k, x);
      }
    }
    forall x, i: nat | ReceiptAt(e, rs, i, x) ensures x in t.receipts && t.receiptSeq[x] == rs[i].seqNo {
      if i < k {
        assert ReceiptAt(e, rs[..k], i, x);
        if ReceiptAt(e, rs, k, x) { OneReceiptRow(e, rs, i, k, x); }
      }
    }
  }

  lemma CheckpointsGrow(e: Setting, rs: seq<Attestation>, earlier: seq<Attestation>, s: set<int>, added: set<int>)
    requires rs != [] && earlier == rs[..|rs| - 1] && forall x :: x in s <==> exists i: nat :: CheckpointAt(e, earlier, i, x)
    requires var k := |rs| - 1; added == if Valid(e, rs, k) && rs[k].kind == CheckpointKind then {rs[k].seqNo} else {}
    ensures forall x :: x in s + added <==> exists i: nat :: CheckpointAt(e, rs, i, x)
  {
    hide Valid; hide Voided;
    var k := |rs| - 1;
    forall x ensures x in s + added <==> exists i: nat :: CheckpointAt(e, rs, i, x) {
      if x in s {
        var i: nat :| CheckpointAt(e, earlier, i, x);
        AtEarlier(e, rs, i);
        assert CheckpointAt(e, rs, i, x);
      } else if x in added {
        assert CheckpointAt(e, rs, k, x);
      }
      if i: nat :| CheckpointAt(e, rs, i, x) {
        if i < k {
          AtEarlier(e, rs, i);
          assert CheckpointAt(e, earlier, i, x);
        }
      }
    }
  }

  lemma CheckpointsStep(e: Setting, rs: seq<Attestation>)
    requires rs != [] && CheckpointsExact(e, rs[..|rs| - 1], Scan(e, rs[..|rs| - 1]).summary)
    ensures CheckpointsExact(e, rs, Scan(e, rs).summary)
  {
    hide Scan; hide Valid; hide Vouch; hide ParseCheckpoint; hide Max; hide CheckpointAt; hide IsNewest;
    var k := |rs| - 1;
    var s, t := Scan(e, rs[..k]).summary, Scan(e, rs).summary;
    LastRow(e, rs);
    var added := if Valid(e, rs, k) && rs[k].kind == CheckpointKind then {rs[k].seqNo} else {};
    if Valid(e, rs, k) {
      ValidIsKnown(e, rs, k);
      VouchCheckpoint(s, rs[k]);
    }
    CheckpointsGrow(e, rs, rs[..k], s.validCheckpoints.Keys, added);
    assert t.validCheckpoints.Keys == s.validCheckpoints.Keys + added;
    NewestStep(s.newestCheckpoint, t.newestCheckpoint, s.validCheckpoints.Keys, added, rs[k].seqNo);
  }

  lemma NewestStep(was: int, now: int, s: set<int>, added: set<int>, n: int)
    requires IsNewest(was, s) && if added == {} then now == was else added == {n} && now == Max(was, n)
    ensures IsNewest(now, s + added)
  {}

  lemma KeysGrow(e: Setting, rs: seq<Attestation>, earlier: seq<Attestation>, s: set<Bytes>, added: set<Bytes>)
    requires rs != [] && earlier == rs[..|rs| - 1] && forall x :: x in s <==> exists i: nat :: KeyAt(e, earlier, i, x)
    requires var k := |rs| - 1; added == if Valid(e, rs, k) then {rs[k].keyId} else {}
    ensures forall x :: x in s + added <==> exists i: nat :: KeyAt(e, rs, i, x)
  {
    hide Valid; hide Voided;
    var k := |rs| - 1;
    forall x ensures x in s + added <==> exists i: nat :: KeyAt(e, rs, i, x) {
      if x in s {
        var i: nat :| KeyAt(e, earlier, i, x);
        AtEarlier(e, rs, i);
        assert KeyAt(e, rs, i, x);
      } else if x in added {
        assert KeyAt(e, rs, k, x);
      }
      if i: nat :| KeyAt(e, rs, i, x) {
        if i < k {
          AtEarlier(e, rs, i);
          assert KeyAt(e, earlier, i, x);
        }
      }
    }
  }

  lemma KeysStep(e: Setting, rs: seq<Attestation>)
    requires rs != [] && KeysExact(e, rs[..|rs| - 1], Scan(e, rs[..|rs| - 1]).summary)
    ensures KeysExact(e, rs, Scan(e, rs).summary)
  {
    hide Scan; hide Valid; hide Vouch; hide KeyAt;
    var k := |rs| - 1;
    var s, t := Scan(e, rs[..k]).summary, Scan(e, rs).summary;
    LastRow(e, rs);
    VouchKeepsRest(s, rs[k]);
    var added := if Valid(e, rs, k) then {rs[k].keyId} else {};
    KeysGrow(e, rs, rs[..k], s.keysUsed, added);
    assert t.keysUsed == s.keysUsed + added;
  }

  lemma VoidedGrow(e: Setting, rs: seq<Attestation>, earlier: seq<Attestation>, s: set<int>, added: set<int>)
    requires rs != [] && earlier == rs[..|rs| - 1] && forall x :: x in s <==> exists i: nat :: VoidAt(e, earlier, i, x)
    requires var k := |rs| - 1; added == if Voided(e, rs[k]) then {rs[k].seqNo} else {}
    ensures forall x :: x in s + added <==> exists i: nat :: VoidAt(e, rs, i, x)
  {
    hide Valid; hide Voided;
    var k := |rs| - 1;
    forall x ensures x in s + added <==> exists i: nat :: VoidAt(e, rs, i, x) {
      if x in s {
        var i: nat :| VoidAt(e, earlier, i, x);
        assert rs[..k][i] == rs[i];
        assert VoidAt(e, rs, i, x);
      } else if x in added {
        assert VoidAt(e, rs, k, x);
      }
      if i: nat :| VoidAt(e, rs, i, x) {
        if i < k {
          assert rs[..k][i] == rs[i];
          assert VoidAt(e, earlier, i, x);
        }
      }
    }
  }

  lemma VoidedStep(e: Setting, rs: seq<Attestation>)
    requires rs != [] && VoidedExact(e, rs[..|rs| - 1], Scan(e, rs[..|rs| - 1]).summary)
    ensures VoidedExact(e, rs, Scan(e, rs).summary)
  {
    hide Scan; hide Voided; hide SameRecord; hide VoidAt;
    var k := |rs| - 1;
    var s, t := Scan(e, rs[..k]).summary, Scan(e, rs).summary;
    LastRow(e, rs);
    var was := set n | n in s.voided;
    var added := if Voided(e, rs[k]) then {rs[k].seqNo} else {};
    VoidedGrow(e, rs, rs[..k], was, added);
    forall n ensures n in t.voided <==> n in was + added {}
  }

  lemma NothingYet(e: Setting)
    ensures var s := Scan(e, []).summary; BlocksExact(e, [], s) && ReceiptsExact(e, [], s) && CheckpointsExact(e, [], s) && KeysExact(e, [], s) && VoidedExact(e, [], s)
  {}

  /** The summary of a scan is exactly what its valid rows say. */
  lemma {:induction false} ScanExact(e: Setting, rs: seq<Attestation>)
    ensures var s := Scan(e, rs).summary;
      BlocksExact(e, rs, s) && ReceiptsExact(e, rs, s) && CheckpointsExact(e, rs, s) && KeysExact(e, rs, s) && VoidedExact(e, rs, s)
  {
    hide Scan; hide BlocksExact; hide ReceiptsExact; hide CheckpointsExact; hide KeysExact; hide VoidedExact;
    if rs == [] {
      NothingYet(e);
    } else {
      ScanExact(e, rs[..|rs| - 1]);
      BlocksStep(e, rs);
      ReceiptsStep(e, rs);
      CheckpointsStep(e, rs);
      KeysStep(e, rs);
      VoidedStep(e, rs);
    }
  }

  // ----- cosignatures and levels

  lemma {:induction false} NoneCosigned(e: Setting, rs: seq<Attestation>)
    ensures Scan(e, rs).summary.cosignedCheckpoints == {} && Scan(e, rs).summary.cosignedCheckpoint == 0
  {
    hide Step; hide Findings; hide Voided; hide Vouch; hide SameRecord;
    if rs != [] {
      NoneCosigned(e, rs[..|rs| - 1]);
      StepRecord(e, Scan(e, rs[..|rs| - 1]), rs[|rs| - 1]);
    }
  }

  /** The cosigned checkpoints are exactly those that some cosignature names by number and hash, and the
      newest of them; a cosignature is reported exactly when it names none. */
  lemma {:induction false} CosignExact(g: Log, xs: seq<T.Cosign>)
    requires IsNewest(g.summary.cosignedCheckpoint, g.summary.cosignedCheckpoints)
    ensures var r := CosignPass(g, xs);
      && (forall n :: n in r.summary.cosignedCheckpoints <==> n in g.summary.cosignedCheckpoints || exists x :: x in xs && x.checkpoint == n && Matches(g, x))
      && IsNewest(r.summary.cosignedCheckpoint, r.summary.cosignedCheckpoints)
      && (r.problems == g.problems <==> forall x :: x in xs ==> Matches(g, x))
      && (forall x :: x in xs && !Matches(g, x) ==> Problem(x.seqNo, ForeignCosign) in r.problems)
  {
    if xs != [] {
      var earlier, x := xs[..|xs| - 1], xs[|xs| - 1];
      CosignExact(g, earlier);
      CosignPassKeeps(g, earlier);
      assert xs == earlier + [x];
      hide Matches; hide IsNewest; hide CosignStep;
      SameMatches(g, CosignPass(g, earlier), x);
      CosignAdds(CosignPass(g, earlier), x);
    }
  }

  lemma SameMatches(g: Log, h: Log, x: T.Cosign)
    requires h.bySeq == g.bySeq
    ensures Matches(h, x) == Matches(g, x)
  {}

  lemma CosignAdds(g: Log, x: T.Cosign)
    requires IsNewest(g.summary.cosignedCheckpoint, g.summary.cosignedCheckpoints)
    ensures var r := CosignStep(g, x);
      && r.summary.cosignedCheckpoints == g.summary.cosignedCheckpoints + (if Matches(g, x) then {x.checkpoint} else {})
      && IsNewest(r.summary.cosignedCheckpoint, r.summary.cosignedCheckpoints)
      && r.problems == g.problems + (if Matches(g, x) then [] else [Problem(x.seqNo, ForeignCosign)])
  {
    hide Matches;
  }

  /** What the evaluation reports: exactly the valid rows, the voided rows and the matching cosignatures. */
  lemma EvaluatedExact(c: T.Crypto, tenant: Bytes, t: T.Trust, rows: seq<Attestation>, truth: Truth)
    ensures var e, rs, s := SettingOf(c, tenant, t, truth), InSeqOrder(rows), Evaluated(c, tenant, t, rows, truth).summary;
      && BlocksExact(e, rs, s) && ReceiptsExact(e, rs, s) && CheckpointsExact(e, rs, s) && KeysExact(e, rs, s) && VoidedExact(e, rs, s)
      && (forall n :: n in s.cosignedCheckpoints <==> exists x :: x in t.cosigns && x.checkpoint == n && Matches(Scan(e, rs), x))
      && IsNewest(s.cosignedCheckpoint, s.cosignedCheckpoints)
  {
    hide StableSort; hide Scan; hide CosignPass; hide Valid; hide Voided; hide ParseBlock; hide Matches;
    var e, rs := SettingOf(c, tenant, t, truth), InSeqOrder(rows);
    ScanExact(e, rs);
    NoneCosigned(e, rs);
    CosignExact(Scan(e, rs), t.cosigns);
    CosignPassKeeps(Scan(e, rs), t.cosigns);
  }

  lemma {:induction false} NoProblemsIff(e: Setting, rs: seq<Attestation>)
    ensures Scan(e, rs).problems == [] <==> forall i: nat :: i < |rs| ==> !Bad(e, rs, i)
  {
    hide Findings; hide Voided; hide Vouch; hide Bad;
    if rs != [] {
      var k := |rs| - 1;
      NoProblemsIff(e, rs[..k]);
      LastBad(e, rs);
      forall i: nat | i < k ensures Bad(e, rs[..k], i) == Bad(e, rs, i) { BadEarlier(e, rs, i); }
    }
  }

  /** The evaluation reports no problem exactly when every row is valid or voided without a finding and every
      cosignature names a checkpoint of the log. */
  lemma EvaluatedCleanIff(c: T.Crypto, tenant: Bytes, t: T.Trust, rows: seq<Attestation>, truth: Truth)
    ensures var e, rs := SettingOf(c, tenant, t, truth), InSeqOrder(rows);
      Evaluated(c, tenant, t, rows, truth).problems == []
      <==> (forall i: nat :: i < |rs| ==> !Bad(e, rs, i)) && forall x :: x in t.cosigns ==> Matches(Scan(e, rs), x)
  {
    hide StableSort; hide Scan; hide CosignPass; hide Bad; hide Matches;
    var e, rs := SettingOf(c, tenant, t, truth), InSeqOrder(rows);
    NoProblemsIff(e, rs);
    NoneCosigned(e, rs);
    CosignExact(Scan(e, rs), t.cosigns);
    CosignPassKeeps(Scan(e, rs), t.cosigns);
  }

  lemma {:induction false} LatestOfNumbered(rs: seq<Attestation>, k: nat)
    requires Numbered(rs) && k < |rs|
    ensures Latest(rs, rs[k].seqNo) == Some(rs[k])
  {
    if k < |rs| - 1 { LatestOfNumbered(rs[..|rs| - 1], k); }
  }

  /** A number has level 2 exactly when a valid checkpoint that a root cosigned by its hash covers it. */
  lemma LevelTwoIff(c: T.Crypto, tenant: Bytes, t: T.Trust, rows: seq<Attestation>, truth: Truth, n: int)
    requires Numbered(InSeqOrder(rows))
    ensures Level(Evaluated(c, tenant, t, rows, truth).summary, Some(n)) == 2 <==> Cosigned(SettingOf(c, tenant, t, truth), InSeqOrder(rows), t.cosigns, n)
  {
    hide StableSort; hide Scan; hide CosignPass; hide Cosigned; hide Level;
    var e, rs := SettingOf(c, tenant, t, truth), InSeqOrder(rows);
    if Level(Evaluated(c, tenant, t, rows, truth).summary, Some(n)) == 2 { LevelTwoMeans(c, tenant, t, rows, truth, n); }
    if Cosigned(e, rs, t.cosigns, n) { CosignedHasLevel(e, rs, t.cosigns, n); }
  }

  lemma CosignedHasLevel(e: Setting, rs: seq<Attestation>, xs: seq<T.Cosign>, n: int)
    requires Numbered(rs) && Cosigned(e, rs, xs, n)
    ensures Level(CosignPass(Scan(e, rs), xs).summary, Some(n)) == 2
  {
    hide Scan; hide Valid; hide ParseCheckpoint; hide CosignPass; hide Numbered;
    var g := Scan(e, rs);
    var k: nat, x :| k < |rs| && x in xs && Valid(e, rs, k) && rs[k].kind == CheckpointKind
      && ParseCheckpoint(rs[k].subject).Some? && n <= ParseCheckpoint(rs[k].subject).value.covered == rs[k].seqNo - 1
      && x.checkpoint == rs[k].seqNo && x.hash == rs[k].hash;
    ScanExact(e, rs);
    assert CheckpointAt(e, rs, k, rs[k].seqNo);
    BySeqIsLatest(e, rs, rs[k].seqNo);
    LatestOfNumbered(rs, k);
    assert Matches(g, x);
    NoneCosigned(e, rs);
    CosignExact(g, xs);
    CosignPassKeeps(g, xs);
    var s := CosignPass(g, xs).summary;
    assert rs[k].seqNo in s.cosignedCheckpoints && rs[k].seqNo in s.validCheckpoints;
  }

  /** The level of a number is 0 exactly without one. */
  lemma LevelZeroIff(s: Summary, n: Option<int>)
    ensures (Level(s, n) == 0 <==> n.None?) && 0 <= Level(s, n) <= 2
  {}
}
