/** The trust log: which keys may sign, as its statements replay it. */
module Trust {
  import opened Options
  import opened Order
  import opened Encoding
  import Blocks

  /** What the logs are checked with: the hash, the key a signature over a message was made with (None
      when it does not verify), the fingerprint of a public key (None when it does not parse), and the
      canonical text of a signature. */
  datatype Crypto = Crypto(h: Bytes -> Bytes, signer: (Bytes, Bytes) -> Option<Bytes>,
                           fingerprint: Bytes -> Option<Bytes>, norm: Bytes -> Bytes)

  datatype TrustKind = KeyKind | RevokeKind | RootAddKind | CosignKind | VoidKind | OtherTrust

  /** `pubkey == []` and `subjectHash == []` where there is none. */
  datatype Statement = Statement(seqNo: int, kind: TrustKind, keyId: Bytes, pubkey: Bytes, arg: Option<int>,
                                 subjectHash: Bytes, prevHash: Bytes, signedBy: Bytes, signature: Bytes, hash: Bytes)

  function KindText(k: TrustKind): Bytes {
    Ascii(match k
          case KeyKind => "key"
          case RevokeKind => "revoke"
          case RootAddKind => "root_add"
          case CosignKind => "cosign"
          case VoidKind => "void"
          case OtherTrust => "")
  }

  /** `trust_message`; None for an unknown kind or a subject hash that is not one. */
  function TrustMessage(tenant: Bytes, s: Statement): Option<Bytes> {
    if s.kind.OtherTrust? || (s.subjectHash != [] && !Blocks.Accepted(s.subjectHash)) then None
    else Some(Ascii("jarvis-trust|v1|") + KindText(s.kind) + [BAR] + Sized(tenant) + [BAR]
              + Fields([s.keyId, if s.arg.None? then [] else Dec(s.arg.value), s.subjectHash, Dec(s.seqNo), s.prevHash]))
  }

  /** `statement_hash` */
  function StatementHash(c: Crypto, message: Bytes, signedBy: Bytes, signature: Bytes): Bytes {
    HexDigest(c.h, message + [NEWLINE] + signedBy + [NEWLINE] + c.norm(signature))
  }

  datatype Finding = Misplaced | BrokenLink | Malformed | WrongHash | NotARoot | OtherKey | BadSignature
                   | NoPublicKey | BadPublicKey | WrongFingerprint | AlreadyRoot | AlreadyAuthorized | BadArgument
                   | NeverAuthorized | NotItsOwn | UnknownKind

  datatype Problem = Problem(seqNo: int, finding: Finding)

  datatype KeyAuth = KeyAuth(from: int, seqNo: int, cutoff: Option<int>)

  datatype Cosign = Cosign(checkpoint: int, hash: Bytes, root: Bytes, seqNo: int)

  datatype Trust = Trust(roots: set<Bytes>, keys: map<Bytes, KeyAuth>, cosigns: seq<Cosign>, voids: map<int, Bytes>,
                         problems: seq<Problem>, headSeq: int, headHash: Bytes)

  datatype Applied = Applied(trust: Trust, refused: Option<Finding>)

  function Lower(a: Option<int>, b: int): int {
    if a.None? || b < a.value then b else a.value
  }

  /** `_apply_statement` */
  function Apply(c: Crypto, t: Trust, s: Statement): Applied {
    match s.kind
    case KeyKind =>
      if s.pubkey == [] then Applied(t, Some(NoPublicKey))
      else if c.fingerprint(s.pubkey).None? then Applied(t, Some(BadPublicKey))
      else if c.fingerprint(s.pubkey).value != s.keyId then Applied(t, Some(WrongFingerprint))
      else if s.keyId in t.keys then Applied(t, Some(AlreadyAuthorized))
      else if s.arg.None? || s.arg.value < 1 then Applied(t, Some(BadArgument))
      else Applied(t.(keys := t.keys[s.keyId := KeyAuth(s.arg.value, s.seqNo, None)]), None)
    case RootAddKind =>
      if s.pubkey == [] then Applied(t, Some(NoPublicKey))
      else if c.fingerprint(s.pubkey).None? then Applied(t, Some(BadPublicKey))
      else if c.fingerprint(s.pubkey).value != s.keyId then Applied(t, Some(WrongFingerprint))
      else if s.keyId in t.roots then Applied(t, Some(AlreadyRoot))
      else Applied(t.(roots := t.roots + {s.keyId}), None)
    case RevokeKind =>
      if s.keyId !in t.keys then Applied(t, Some(NeverAuthorized))
      else if s.arg.None? || s.arg.value < 0 then Applied(t, Some(BadArgument))
      else
        var auth := t.keys[s.keyId];
        Applied(t.(keys := t.keys[s.keyId := auth.(cutoff := Some(Lower(auth.cutoff, s.arg.value)))]), None)
    case VoidKind =>
      if s.signedBy != s.keyId then Applied(t, Some(NotItsOwn))
      else if s.arg.None? || s.arg.value < 1 || s.subjectHash == [] then Applied(t, Some(BadArgument))
      else Applied(t.(voids := t.voids[s.arg.value := s.subjectHash]), None)
    case CosignKind =>
      if s.signedBy != s.keyId then Applied(t, Some(NotItsOwn))
      else if s.arg.None? || s.arg.value < 1 || s.subjectHash == [] then Applied(t, Some(BadArgument))
      else Applied(t.(cosigns := t.cosigns + [Cosign(s.arg.value, s.subjectHash, s.keyId, s.seqNo)]), None)
    case OtherTrust => Applied(t, Some(UnknownKind))
  }

  function When(found: bool, f: Finding): seq<Finding> {
    if found then [f] else []
  }

  /** What is wrong with a statement before it is applied: position, link, form, hash; and, where none of
      those is, its signature. */
  function Findings(c: Crypto, tenant: Bytes, t: Trust, s: Statement): seq<Finding> {
    var message := TrustMessage(tenant, s);
    var form := When(s.seqNo != t.headSeq + 1, Misplaced) + When(s.prevHash != t.headHash, BrokenLink)
                + (if message.None? then [Malformed]
                   else When(StatementHash(c, message.value, s.signedBy, s.signature) != s.hash, WrongHash));
    if form != [] then form
    else if s.signedBy !in t.roots then [NotARoot]
    else if c.signer(s.signature, message.value).None? then [BadSignature]
    else When(c.signer(s.signature, message.value).value != s.signedBy, OtherKey)
  }

  function Report(seqNo: int, findings: seq<Finding>): seq<Problem> {
    seq(|findings|, i requires 0 <= i < |findings| => Problem(seqNo, findings[i]))
  }

  /** One turn of the loop of `evaluate_trust`. */
  function Step(c: Crypto, tenant: Bytes, t: Trust, s: Statement): Trust {
    var bad := Findings(c, tenant, t, s);
    var applied := if bad == [] then Apply(c, t, s) else Applied(t, None);
    var all := if applied.refused.Some? then [applied.refused.value] else bad;
    applied.trust.(problems := applied.trust.problems + Report(s.seqNo, all), headSeq := s.seqNo, headHash := s.hash)
  }

  function Pinned(roots: set<Bytes>): Trust {
    Trust(roots, map[], [], map[], [], 0, Blocks.Genesis())
  }

  /** The statements one after another, in the order given. */
  function Replay(c: Crypto, tenant: Bytes, pinned: set<Bytes>, ss: seq<Statement>): Trust {
    if ss == [] then Pinned(pinned)
    else Step(c, tenant, Replay(c, tenant, pinned, ss[..|ss| - 1]), ss[|ss| - 1])
  }

  predicate InOrder(a: Statement, b: Statement) {
    a.seqNo <= b.seqNo
  }

  /** `evaluate_trust`: by statement number. */
  function Evaluated(c: Crypto, tenant: Bytes, pinned: set<Bytes>, statements: seq<Statement>): Trust {
    Replay(c, tenant, pinned, StableSort(statements, InOrder))
  }

  // ----- provenance

  /** The statement's root signature and its stored hash hold. */
  predicate Signed(c: Crypto, tenant: Bytes, s: Statement) {
    var message := TrustMessage(tenant, s);
    && message.Some?
    && c.signer(s.signature, message.value) == Some(s.signedBy)
    && StatementHash(c, message.value, s.signedBy, s.signature) == s.hash
  }

  /** Statement `i` is accepted where it stands. */
  predicate Counts(c: Crypto, tenant: Bytes, pinned: set<Bytes>, ss: seq<Statement>, i: nat)
    requires i < |ss|
  {
    var t := Replay(c, tenant, pinned, ss[..i]);
    Findings(c, tenant, t, ss[i]) == [] && Apply(c, t, ss[i]).refused.None?
  }

  /** `chain` names statements, each before the next, that lead from a pinned root to `id`: each adds the
      root that signed the one after it, the first is signed by a pinned root, the last adds `id`. */
  ghost predicate RootVia(c: Crypto, tenant: Bytes, pinned: set<Bytes>, ss: seq<Statement>, id: Bytes, chain: seq<nat>)
    decreases |chain|
  {
    if chain == [] then id in pinned
    else
      var i := chain[|chain| - 1];
      && i < |ss| && ss[i].kind.RootAddKind? && ss[i].keyId == id && c.fingerprint(ss[i].pubkey) == Some(id)
      && Signed(c, tenant, ss[i])
      && RootVia(c, tenant, pinned, ss[..i], ss[i].signedBy, chain[..|chain| - 1])
  }

  ghost predicate RootBacked(c: Crypto, tenant: Bytes, pinned: set<Bytes>, ss: seq<Statement>, id: Bytes) {
    exists chain :: RootVia(c, tenant, pinned, ss, id, chain)
  }

  /** Statement `i` carries a good signature of a root that was backed before it. */
  ghost predicate Authorised(c: Crypto, tenant: Bytes, pinned: set<Bytes>, ss: seq<Statement>, i: nat)
    requires i < |ss|
  {
    Signed(c, tenant, ss[i]) && RootBacked(c, tenant, pinned, ss[..i], ss[i].signedBy)
  }

  /** A key rests on an authorised statement that names it and its first signer_seq. */
  ghost predicate KeyBacked(c: Crypto, tenant: Bytes, pinned: set<Bytes>, ss: seq<Statement>, id: Bytes, seqNo: int, from: int) {
    exists i: nat :: i < |ss| && ss[i].kind.KeyKind? && ss[i].keyId == id && c.fingerprint(ss[i].pubkey) == Some(id)
      && ss[i].seqNo == seqNo && ss[i].arg == Some(from) && Authorised(c, tenant, pinned, ss, i)
  }

  ghost predicate VoidBacked(c: Crypto, tenant: Bytes, pinned: set<Bytes>, ss: seq<Statement>, n: int, hash: Bytes) {
    exists i: nat :: i < |ss| && ss[i].kind.VoidKind? && ss[i].arg == Some(n) && ss[i].subjectHash == hash && ss[i].keyId == ss[i].signedBy
      && Authorised(c, tenant, pinned, ss, i)
  }

  ghost predicate CosignBacked(c: Crypto, tenant: Bytes, pinned: set<Bytes>, ss: seq<Statement>, cosign: Cosign) {
    exists i: nat :: i < |ss| && ss[i].kind.CosignKind? && ss[i].arg == Some(cosign.checkpoint) && ss[i].subjectHash == cosign.hash
      && ss[i].keyId == ss[i].signedBy == cosign.root && Authorised(c, tenant, pinned, ss, i)
  }

  /** A cutoff rests on an authorised revocation with that number. */
  ghost predicate CutoffBacked(c: Crypto, tenant: Bytes, pinned: set<Bytes>, ss: seq<Statement>, id: Bytes, cutoff: int) {
    exists i: nat :: i < |ss| && ss[i].kind.RevokeKind? && ss[i].keyId == id && ss[i].arg == Some(cutoff)
      && Authorised(c, tenant, pinned, ss, i)
  }

  lemma {:induction false} RootViaExtends(c: Crypto, tenant: Bytes, pinned: set<Bytes>, ss: seq<Statement>, more: seq<Statement>, id: Bytes, chain: seq<nat>)
    requires RootVia(c, tenant, pinned, ss, id, chain)
    ensures RootVia(c, tenant, pinned, ss + more, id, chain)
  {
    if chain != [] {
      var i := chain[|chain| - 1];
      assert (ss + more)[..i] == ss[..i];
    }
  }

  lemma RootBackedExtends(c: Crypto, tenant: Bytes, pinned: set<Bytes>, ss: seq<Statement>, more: seq<Statement>, id: Bytes)
    requires RootBacked(c, tenant, pinned, ss, id)
    ensures RootBacked(c, tenant, pinned, ss + more, id)
  {
    var chain: seq<nat> :| RootVia(c, tenant, pinned, ss, id, chain);
    RootViaExtends(c, tenant, pinned, ss, more, id, chain);
  }

  /** Every statement that counts is signed by a root trusted where it stands. */
  lemma CountsSigned(c: Crypto, tenant: Bytes, t: Trust, s: Statement)
    requires Findings(c, tenant, t, s) == []
    ensures s.signedBy in t.roots && Signed(c, tenant, s) && s.seqNo == t.headSeq + 1 && s.prevHash == t.headHash
  {}

  lemma AuthorisedExtends(c: Crypto, tenant: Bytes, pinned: set<Bytes>, ss: seq<Statement>, s: Statement, i: nat)
    requires i < |ss| && Authorised(c, tenant, pinned, ss, i)
    ensures Authorised(c, tenant, pinned, ss + [s], i) && (ss + [s])[i] == ss[i]
  {
    assert (ss + [s])[..i] == ss[..i];
  }

  /** Everything the trust state says rests on authorised statements. */
  ghost predicate AllBacked(c: Crypto, tenant: Bytes, pinned: set<Bytes>, ss: seq<Statement>, t: Trust) {
    && (forall id :: id in t.roots ==> RootBacked(c, tenant, pinned, ss, id))
    && (forall id :: id in t.keys ==> KeyBacked(c, tenant, pinned, ss, id, t.keys[id].seqNo, t.keys[id].from))
    && (forall id :: id in t.keys && t.keys[id].cutoff.Some? ==> CutoffBacked(c, tenant, pinned, ss, id, t.keys[id].cutoff.value))
    && (forall n :: n in t.voids ==> VoidBacked(c, tenant, pinned, ss, n, t.voids[n]))
    && (forall x :: x in t.cosigns ==> CosignBacked(c, tenant, pinned, ss, x))
  }

  lemma StillBacked(c: Crypto, tenant: Bytes, pinned: set<Bytes>, ss: seq<Statement>, s: Statement, t: Trust)
    requires AllBacked(c, tenant, pinned, ss, t)
    ensures AllBacked(c, tenant, pinned, ss + [s], t)
  {
    hide RootBacked; hide Authorised; hide Signed;
    forall id | id in t.roots ensures RootBacked(c, tenant, pinned, ss + [s], id) { RootBackedExtends(c, tenant, pinned, ss, [s], id); }
    forall i: nat | i < |ss| && Authorised(c, tenant, pinned, ss, i)
      ensures Authorised(c, tenant, pinned, ss + [s], i) && (ss + [s])[i] == ss[i]
    {
      AuthorisedExtends(c, tenant, pinned, ss, s, i);
    }
    forall id | id in t.keys
      ensures KeyBacked(c, tenant, pinned, ss + [s], id, t.keys[id].seqNo, t.keys[id].from)
    {
      var i: nat :| i < |ss| && ss[i].kind.KeyKind? && ss[i].keyId == id && c.fingerprint(ss[i].pubkey) == Some(id)
        && ss[i].seqNo == t.keys[id].seqNo && ss[i].arg == Some(t.keys[id].from) && Authorised(c, tenant, pinned, ss, i);
      assert (ss + [s])[i] == ss[i];
    }
    forall id | id in t.keys && t.keys[id].cutoff.Some?
      ensures CutoffBacked(c, tenant, pinned, ss + [s], id, t.keys[id].cutoff.value)
    {
      var i: nat :| i < |ss| && ss[i].kind.RevokeKind? && ss[i].keyId == id && ss[i].arg == Some(t.keys[id].cutoff.value)
        && Authorised(c, tenant, pinned, ss, i);
      assert (ss + [s])[i] == ss[i];
    }
    forall n | n in t.voids
      ensures VoidBacked(c, tenant, pinned, ss + [s], n, t.voids[n])
    {
      var i: nat :| i < |ss| && ss[i].kind.VoidKind? && ss[i].arg == Some(n) && ss[i].subjectHash == t.voids[n]
        && ss[i].keyId == ss[i].signedBy && Authorised(c, tenant, pinned, ss, i);
      assert (ss + [s])[i] == ss[i];
    }
    forall x | x in t.cosigns
      ensures CosignBacked(c, tenant, pinned, ss + [s], x)
    {
      var i: nat :| i < |ss| && ss[i].kind.CosignKind? && ss[i].arg == Some(x.checkpoint) && ss[i].subjectHash == x.hash
        && ss[i].keyId == ss[i].signedBy == x.root && Authorised(c, tenant, pinned, ss, i);
      assert (ss + [s])[i] == ss[i];
    }
  }

  /** What one applied statement may add. */
  lemma ApplyAdds(c: Crypto, t: Trust, s: Statement)
    requires Apply(c, t, s).refused.None?
    ensures var u := Apply(c, t, s).trust;
      && (forall id :: id in u.roots && id !in t.roots ==> id == s.keyId && s.kind.RootAddKind? && c.fingerprint(s.pubkey) == Some(id))
      && (forall id :: id in u.keys && id !in t.keys ==>
            id == s.keyId && s.kind.KeyKind? && c.fingerprint(s.pubkey) == Some(id)
            && u.keys[id].seqNo == s.seqNo && s.arg == Some(u.keys[id].from) && u.keys[id].cutoff.None?)
      && (forall id :: id in u.keys && id in t.keys ==>
            u.keys[id].(cutoff := None) == t.keys[id].(cutoff := None)
            && (u.keys[id].cutoff != t.keys[id].cutoff ==> s.kind.RevokeKind? && id == s.keyId && s.arg.Some? && u.keys[id].cutoff == s.arg))
      && (forall n :: n in u.voids && (n !in t.voids || u.voids[n] != t.voids[n]) ==>
            s.kind.VoidKind? && s.arg == Some(n) && s.subjectHash == u.voids[n] && s.keyId == s.signedBy)
      && (forall x :: x in u.cosigns && x !in t.cosigns ==>
            s.kind.CosignKind? && s.arg == Some(x.checkpoint) && s.subjectHash == x.hash && s.keyId == s.signedBy == x.root)
  {}

  lemma ApplyBacked(c: Crypto, tenant: Bytes, pinned: set<Bytes>, ss: seq<Statement>, s: Statement, t: Trust)
    requires AllBacked(c, tenant, pinned, ss, t) && Findings(c, tenant, t, s) == [] && Apply(c, t, s).refused.None?
    ensures AllBacked(c, tenant, pinned, ss + [s], Apply(c, t, s).trust)
  {
    hide Apply; hide Findings; hide Signed; hide RootBacked; hide KeyBacked; hide VoidBacked; hide CosignBacked; hide CutoffBacked;
    var u, all := Apply(c, t, s).trust, ss + [s];
    CountsSigned(c, tenant, t, s);
    assert RootBacked(c, tenant, pinned, ss, s.signedBy);
    StillBacked(c, tenant, pinned, ss, s, t);
    ApplyAdds(c, t, s);
    assert all[|ss|] == s && all[..|ss|] == ss;
    assert Authorised(c, tenant, pinned, all, |ss|);
    hide Authorised;
    forall id | id in u.roots ensures RootBacked(c, tenant, pinned, all, id) {
      if id !in t.roots { AddedRootBacked(c, tenant, pinned, ss, s, id); }
    }
    LastBacks(c, tenant, pinned, all);
  }

  /** What the last statement of a list says is backed, when it is authorised. */
  lemma LastBacks(c: Crypto, tenant: Bytes, pinned: set<Bytes>, ss: seq<Statement>)
    requires ss != [] && Authorised(c, tenant, pinned, ss, |ss| - 1)
    ensures var s := ss[|ss| - 1];
      && (s.kind.KeyKind? && c.fingerprint(s.pubkey) == Some(s.keyId) && s.arg.Some? ==>
            KeyBacked(c, tenant, pinned, ss, s.keyId, s.seqNo, s.arg.value))
      && (s.kind.RevokeKind? && s.arg.Some? ==> CutoffBacked(c, tenant, pinned, ss, s.keyId, s.arg.value))
      && (s.kind.VoidKind? && s.keyId == s.signedBy && s.arg.Some? ==> VoidBacked(c, tenant, pinned, ss, s.arg.value, s.subjectHash))
      && (s.kind.CosignKind? && s.keyId == s.signedBy && s.arg.Some? ==>
            forall x: Cosign :: x.checkpoint == s.arg.value && x.hash == s.subjectHash && x.root == s.keyId ==>
              CosignBacked(c, tenant, pinned, ss, x))
  {
    hide Authorised;
  }

  lemma AddedRootBacked(c: Crypto, tenant: Bytes, pinned: set<Bytes>, ss: seq<Statement>, s: Statement, id: Bytes)
    requires s.kind.RootAddKind? && s.keyId == id && c.fingerprint(s.pubkey) == Some(id) && Signed(c, tenant, s)
    requires RootBacked(c, tenant, pinned, ss, s.signedBy)
    ensures RootBacked(c, tenant, pinned, ss + [s], id)
  {
    hide Signed;
    var chain: seq<nat> :| RootVia(c, tenant, pinned, ss, s.signedBy, chain);
    var longer: seq<nat> := chain + [|ss|];
    assert longer[..|longer| - 1] == chain && (ss + [s])[..|ss|] == ss;
    assert RootVia(c, tenant, pinned, ss + [s], id, longer);
  }

  lemma PinnedBacked(c: Crypto, tenant: Bytes, pinned: set<Bytes>)
    ensures AllBacked(c, tenant, pinned, [], Pinned(pinned))
  {
    hide RootBacked;
    forall id | id in pinned ensures RootBacked(c, tenant, pinned, [], id) { PinnedRoot(c, tenant, pinned, id); }
  }

  lemma PinnedRoot(c: Crypto, tenant: Bytes, pinned: set<Bytes>, id: Bytes)
    requires id in pinned
    ensures RootBacked(c, tenant, pinned, [], id)
  {
    assert RootVia(c, tenant, pinned, [], id, []);
  }

  /** Every trusted root, authorised key, cutoff, void and cosignature rests on a chain of good
      signatures that ends at a pinned root. */
  lemma {:induction false} Provenance(c: Crypto, tenant: Bytes, pinned: set<Bytes>, ss: seq<Statement>)
    ensures AllBacked(c, tenant, pinned, ss, Replay(c, tenant, pinned, ss))
  {
    if ss == [] {
      PinnedBacked(c, tenant, pinned);
    } else {
      hide Findings; hide Apply; hide AllBacked; hide Report;
      var earlier, s := ss[..|ss| - 1], ss[|ss| - 1];
      var t := Replay(c, tenant, pinned, earlier);
      Provenance(c, tenant, pinned, earlier);
      assert earlier + [s] == ss;
      if Findings(c, tenant, t, s) == [] && Apply(c, t, s).refused.None? {
        ApplyBacked(c, tenant, pinned, earlier, s, t);
      } else {
        StillBacked(c, tenant, pinned, earlier, s, t);
        RefusedChangesNothing(c, t, s);
      }
      OnlyBookkeeping(c, tenant, pinned, ss, if Findings(c, tenant, t, s) == [] then Apply(c, t, s).trust else t, Step(c, tenant, t, s));
    }
  }

  lemma OnlyBookkeeping(c: Crypto, tenant: Bytes, pinned: set<Bytes>, ss: seq<Statement>, t: Trust, u: Trust)
    requires AllBacked(c, tenant, pinned, ss, t) && u == t.(problems := u.problems, headSeq := u.headSeq, headHash := u.headHash)
    ensures AllBacked(c, tenant, pinned, ss, u)
  {
    hide KeyBacked; hide CosignBacked; hide VoidBacked; hide RootBacked; hide CutoffBacked;
  }

  lemma RefusedChangesNothing(c: Crypto, t: Trust, s: Statement)
    ensures Apply(c, t, s).refused.Some? ==> Apply(c, t, s).trust == t
  {}

  // ----- a longer log never takes trust back

  /** No root or key is lost, no cutoff raised, nothing cosigned or reported forgotten. */
  predicate Grows(t: Trust, u: Trust) {
    && t.roots <= u.roots && t.cosigns <= u.cosigns && t.problems <= u.problems && t.voids.Keys <= u.voids.Keys
    && forall id :: id in t.keys ==>
         id in u.keys && u.keys[id].from == t.keys[id].from && u.keys[id].seqNo == t.keys[id].seqNo
         && (t.keys[id].cutoff.Some? ==> u.keys[id].cutoff.Some? && u.keys[id].cutoff.value <= t.keys[id].cutoff.value)
  }

  lemma StepGrows(c: Crypto, tenant: Bytes, t: Trust, s: Statement)
    ensures Grows(t, Step(c, tenant, t, s))
  {
    hide Findings;
  }

  lemma GrowsSelf(t: Trust)
    ensures Grows(t, t)
  {}

  lemma GrowsFurther(t: Trust, u: Trust, v: Trust)
    requires Grows(t, u) && Grows(u, v)
    ensures Grows(t, v)
  {}

  lemma {:induction false} ReplayGrows(c: Crypto, tenant: Bytes, pinned: set<Bytes>, ss: seq<Statement>, more: seq<Statement>)
    ensures Grows(Replay(c, tenant, pinned, ss), Replay(c, tenant, pinned, ss + more))
  {
    hide Step; hide Grows;
    if more == [] {
      assert ss + more == ss;
      GrowsSelf(Replay(c, tenant, pinned, ss));
    } else {
      var earlier, s := more[..|more| - 1], more[|more| - 1];
      ReplayGrows(c, tenant, pinned, ss, earlier);
      assert (ss + more)[..|ss + more| - 1] == ss + earlier;
      StepGrows(c, tenant, Replay(c, tenant, pinned, ss + earlier), s);
      GrowsFurther(Replay(c, tenant, pinned, ss), Replay(c, tenant, pinned, ss + earlier), Replay(c, tenant, pinned, ss + more));
    }
  }

  /** Statements with higher numbers never remove a root or a key and never raise a cutoff. */
  lemma LaterStatementsOnlyAdd(c: Crypto, tenant: Bytes, pinned: set<Bytes>, statements: seq<Statement>, more: seq<Statement>)
    requires forall a, b :: a in statements && b in more ==> a.seqNo < b.seqNo
    ensures Grows(Evaluated(c, tenant, pinned, statements), Evaluated(c, tenant, pinned, statements + more))
  {
    SortAppend(statements, more, InOrder);
    ReplayGrows(c, tenant, pinned, StableSort(statements, InOrder), StableSort(more, InOrder));
  }

  /** What a statement says is in force; for a void, that its number is voided with its hash. */
  predicate InForce(t: Trust, s: Statement) {
    match s.kind
    case RootAddKind => s.keyId in t.roots
    case KeyKind => s.arg.Some? && s.keyId in t.keys && t.keys[s.keyId].from == s.arg.value
    case RevokeKind => s.arg.Some? && s.keyId in t.keys && t.keys[s.keyId].cutoff.Some? && t.keys[s.keyId].cutoff.value <= s.arg.value
    case VoidKind => s.arg.Some? && s.arg.value in t.voids && t.voids[s.arg.value] == s.subjectHash
    case CosignKind => s.arg.Some? && Cosign(s.arg.value, s.subjectHash, s.keyId, s.seqNo) in t.cosigns
    case OtherTrust => false
  }

  /** Statement `k` is an accepted void of row `n`. */
  predicate VoidsAt(c: Crypto, tenant: Bytes, pinned: set<Bytes>, ss: seq<Statement>, k: nat, n: int) {
    k < |ss| && ss[k].kind.VoidKind? && ss[k].arg == Some(n) && Counts(c, tenant, pinned, ss, k)
  }

  predicate LastVoid(c: Crypto, tenant: Bytes, pinned: set<Bytes>, ss: seq<Statement>, k: nat, n: int) {
    VoidsAt(c, tenant, pinned, ss, k, n) && forall l: nat :: k < l < |ss| ==> !VoidsAt(c, tenant, pinned, ss, l, n)
  }

  lemma CountsEarlier(c: Crypto, tenant: Bytes, pinned: set<Bytes>, ss: seq<Statement>, m: nat, k: nat)
    requires k < m <= |ss|
    ensures Counts(c, tenant, pinned, ss[..m], k) == Counts(c, tenant, pinned, ss, k)
  {
    assert ss[..m][..k] == ss[..k];
  }

  lemma StepVoids(c: Crypto, tenant: Bytes, t: Trust, s: Statement)
    ensures Step(c, tenant, t, s).voids
         == if Findings(c, tenant, t, s) == [] && Apply(c, t, s).refused.None? && s.kind.VoidKind? then t.voids[s.arg.value := s.subjectHash] else t.voids
  {
    hide Findings;
  }

  /** A row is voided with the hash that the last accepted void of its number names, and not without one. */
  lemma {:induction false} LastVoidRules(c: Crypto, tenant: Bytes, pinned: set<Bytes>, ss: seq<Statement>, n: int)
    ensures var voids := Replay(c, tenant, pinned, ss).voids;
      && (n in voids ==> exists k: nat :: LastVoid(c, tenant, pinned, ss, k, n))
      && (forall k: nat :: LastVoid(c, tenant, pinned, ss, k, n) ==> n in voids && voids[n] == ss[k].subjectHash)
  {
    hide Counts; hide Replay;
    if ss == [] {
      NothingVoided(c, tenant, pinned, n);
    } else {
      var m := |ss| - 1;
      LastVoidRules(c, tenant, pinned, ss[..m], n);
      LastStatement(c, tenant, pinned, ss, n);
      forall k: nat | k < m ensures VoidsAt(c, tenant, pinned, ss[..m], k, n) == VoidsAt(c, tenant, pinned, ss, k, n) {
        CountsEarlier(c, tenant, pinned, ss, m, k);
      }
      hide VoidsAt;
      if VoidsAt(c, tenant, pinned, ss, m, n) {
        assert LastVoid(c, tenant, pinned, ss, m, n);
      } else {
        forall k: nat ensures LastVoid(c, tenant, pinned, ss, k, n) == LastVoid(c, tenant, pinned, ss[..m], k, n) {
          SameLast(c, tenant, pinned, ss, k, n);
        }
      }
    }
  }

  lemma NothingVoided(c: Crypto, tenant: Bytes, pinned: set<Bytes>, n: int)
    ensures n !in Replay(c, tenant, pinned, []).voids
  {}

  lemma SameLast(c: Crypto, tenant: Bytes, pinned: set<Bytes>, ss: seq<Statement>, k: nat, n: int)
    requires ss != [] && !VoidsAt(c, tenant, pinned, ss, |ss| - 1, n)
    requires forall k: nat :: k < |ss| - 1 ==> VoidsAt(c, tenant, pinned, ss[..|ss| - 1], k, n) == VoidsAt(c, tenant, pinned, ss, k, n)
    ensures LastVoid(c, tenant, pinned, ss, k, n) == LastVoid(c, tenant, pinned, ss[..|ss| - 1], k, n)
  {
    hide Counts;
    var m := |ss| - 1;
    if k < m {
      if LastVoid(c, tenant, pinned, ss, k, n) {
        forall l: nat | k < l < m ensures !VoidsAt(c, tenant, pinned, ss[..m], l, n) { assert !VoidsAt(c, tenant, pinned, ss, l, n); }
      }
      if LastVoid(c, tenant, pinned, ss[..m], k, n) {
        forall l: nat | k < l < |ss| ensures !VoidsAt(c, tenant, pinned, ss, l, n) { assert l < m ==> !VoidsAt(c, tenant, pinned, ss[..m], l, n); }
      }
    }
  }

  /** What the last statement does to the void of one row. */
  lemma LastStatement(c: Crypto, tenant: Bytes, pinned: set<Bytes>, ss: seq<Statement>, n: int)
    requires ss != []
    ensures var m := |ss| - 1; var before, voids := Replay(c, tenant, pinned, ss[..m]).voids, Replay(c, tenant, pinned, ss).voids;
      if VoidsAt(c, tenant, pinned, ss, m, n) then n in voids && voids[n] == ss[m].subjectHash
      else (n in voids <==> n in before) && (n in voids ==> voids[n] == before[n])
  {
    hide Findings; hide Apply; hide Step;
    var m := |ss| - 1;
    var t := Replay(c, tenant, pinned, ss[..m]);
    AcceptedVoidHasNumber(c, t, ss[m]);
    StepVoids(c, tenant, t, ss[m]);
  }

  lemma AcceptedVoidHasNumber(c: Crypto, t: Trust, s: Statement)
    ensures Apply(c, t, s).refused.None? && s.kind.VoidKind? ==> s.arg.Some?
  {}

  /** What an accepted statement says is in force in every longer log; but a void only as long as the last
      accepted void of its number names its hash, so that one naming another may replace it. */
  lemma CountedTakesEffect(c: Crypto, tenant: Bytes, pinned: set<Bytes>, ss: seq<Statement>, i: nat)
    requires i < |ss| && Counts(c, tenant, pinned, ss, i)
    ensures InForce(Replay(c, tenant, pinned, ss), ss[i])
       <==> (ss[i].kind.VoidKind? && ss[i].arg.Some? ==>
               exists k: nat :: LastVoid(c, tenant, pinned, ss, k, ss[i].arg.value) && ss[k].subjectHash == ss[i].subjectHash)
  {
    hide Findings; hide Apply; hide Step; hide Grows; hide LastVoid;
    if ss[i].kind.VoidKind? {
      AcceptedVoidHasNumber(c, Replay(c, tenant, pinned, ss[..i]), ss[i]);
      LastVoidRules(c, tenant, pinned, ss, ss[i].arg.value);
    } else {
      hide InForce;
      var t := Replay(c, tenant, pinned, ss[..i]);
      var upto := ss[..i + 1];
      assert upto[..|upto| - 1] == ss[..i];
      assert Replay(c, tenant, pinned, upto) == Step(c, tenant, t, ss[i]);
      StepTakesEffect(c, tenant, t, ss[i]);
      assert ss == upto + ss[i + 1..];
      ReplayGrows(c, tenant, pinned, upto, ss[i + 1..]);
      StaysInForce(Replay(c, tenant, pinned, upto), Replay(c, tenant, pinned, ss), ss[i]);
    }
  }

  /** A void that no later accepted void contradicts stays in force. */
  lemma OnlyAnotherVoidReplaces(c: Crypto, tenant: Bytes, pinned: set<Bytes>, ss: seq<Statement>, i: nat)
    requires i < |ss| && Counts(c, tenant, pinned, ss, i) && ss[i].kind.VoidKind? && !InForce(Replay(c, tenant, pinned, ss), ss[i])
    ensures ss[i].arg.Some? && exists k: nat :: i < k && VoidsAt(c, tenant, pinned, ss, k, ss[i].arg.value) && ss[k].subjectHash != ss[i].subjectHash
  {
    AcceptedVoidHasNumber(c, Replay(c, tenant, pinned, ss[..i]), ss[i]);
    var n := ss[i].arg.value;
    hide Counts; hide Replay;
    CountedTakesEffect(c, tenant, pinned, ss, i);
    LaterVoid(c, tenant, pinned, ss, i, n);
  }

  lemma {:induction false} LaterVoid(c: Crypto, tenant: Bytes, pinned: set<Bytes>, ss: seq<Statement>, i: nat, n: int)
    requires VoidsAt(c, tenant, pinned, ss, i, n)
    ensures exists k: nat :: i <= k && LastVoid(c, tenant, pinned, ss, k, n)
    decreases |ss| - i
  {
    hide Counts;
    if l: nat :| i < l < |ss| && VoidsAt(c, tenant, pinned, ss, l, n) {
      LaterVoid(c, tenant, pinned, ss, l, n);
    } else {
      assert LastVoid(c, tenant, pinned, ss, i, n);
    }
  }

  /** The next void statement of a trusted root, where a signature is the text of the key that made it. */
  function MadeVoid(c: Crypto, tenant: Bytes, t: Trust, root: Bytes, n: int, hash: Bytes): Statement {
    var s := Statement(t.headSeq + 1, VoidKind, root, [], Some(n), hash, t.headHash, root, root, []);
    var message := TrustMessage(tenant, s);
    s.(hash := if message.None? then [] else StatementHash(c, message.value, root, root))
  }

  lemma MadeVoidCounts(c: Crypto, tenant: Bytes, t: Trust, root: Bytes, n: int, hash: Bytes)
    requires root in t.roots && n >= 1 && Blocks.Accepted(hash) && forall x, y :: c.signer(x, y) == Some(x)
    ensures var s := MadeVoid(c, tenant, t, root, n, hash);
      && s.kind.VoidKind? && s.arg == Some(n) && s.subjectHash == hash
      && Findings(c, tenant, t, s) == [] && Apply(c, t, s).refused.None?
      && Step(c, tenant, t, s).voids == t.voids[n := hash] && Step(c, tenant, t, s).roots == t.roots
  {
    hide StatementHash;
    var s := MadeVoid(c, tenant, t, root, n, hash);
    assert TrustMessage(tenant, s).Some? && TrustMessage(tenant, s.(hash := [])) == TrustMessage(tenant, s);
  }

  /** Three accepted voids of one row: the second takes the first one's hash away, the third brings it back. */
  lemma VoidMayBeReplaced(h: Bytes -> Bytes, tenant: Bytes, root: Bytes, n: int, a: Bytes, b: Bytes) returns (c: Crypto, ss: seq<Statement>)
    requires n >= 1 && Blocks.Accepted(a) && Blocks.Accepted(b) && a != b
    ensures |ss| == 3 && forall i: nat :: i < 3 ==> VoidsAt(c, tenant, {root}, ss, i, n)
    ensures InForce(Replay(c, tenant, {root}, ss[..1]), ss[0]) && !InForce(Replay(c, tenant, {root}, ss[..2]), ss[0]) && InForce(Replay(c, tenant, {root}, ss), ss[0])
  {
    hide Findings; hide Apply; hide Step; hide MadeVoid; hide Pinned; hide VoidsAt; hide Blocks.Accepted; hide Replay; hide InForce;
    c := Crypto(h, (x, y) => Some(x), x => None, x => x);
    var t0 := Pinned({root});
    PinnedRoots({root});
    var s0 := MadeVoid(c, tenant, t0, root, n, a);
    MadeVoidCounts(c, tenant, t0, root, n, a);
    var t1 := Step(c, tenant, t0, s0);
    var s1 := MadeVoid(c, tenant, t1, root, n, b);
    MadeVoidCounts(c, tenant, t1, root, n, b);
    var t2 := Step(c, tenant, t1, s1);
    var s2 := MadeVoid(c, tenant, t2, root, n, a);
    MadeVoidCounts(c, tenant, t2, root, n, a);
    ss := [s0, s1, s2];
    ReplayThree(c, tenant, {root}, s0, s1, s2);
    assert ss[..0] == [] && ss[..1] == [s0] && ss[..2] == [s0, s1];
    CountsHere(c, tenant, {root}, ss, 0, t0, n);
    CountsHere(c, tenant, {root}, ss, 1, t1, n);
    CountsHere(c, tenant, {root}, ss, 2, t2, n);
    VoidInForce(t1, s0, n);
    VoidInForce(t2, s0, n);
    VoidInForce(Step(c, tenant, t2, s2), s0, n);
  }

  lemma PinnedRoots(pinned: set<Bytes>)
    ensures Pinned(pinned).roots == pinned
  {}

  lemma CountsHere(c: Crypto, tenant: Bytes, pinned: set<Bytes>, ss: seq<Statement>, i: nat, t: Trust, n: int)
    requires i < |ss| && t == Replay(c, tenant, pinned, ss[..i]) && Findings(c, tenant, t, ss[i]) == [] && Apply(c, t, ss[i]).refused.None?
    requires ss[i].kind.VoidKind? && ss[i].arg == Some(n)
    ensures VoidsAt(c, tenant, pinned, ss, i, n)
  {
    hide Findings; hide Apply; hide Replay;
  }

  lemma VoidInForce(t: Trust, s: Statement, n: int)
    requires s.kind.VoidKind? && s.arg == Some(n)
    ensures InForce(t, s) <==> n in t.voids && t.voids[n] == s.subjectHash
  {}

  lemma ReplayThree(c: Crypto, tenant: Bytes, pinned: set<Bytes>, a: Statement, b: Statement, d: Statement)
    ensures var t := Step(c, tenant, Pinned(pinned), a); var u := Step(c, tenant, t, b);
      && Replay(c, tenant, pinned, []) == Pinned(pinned) && Replay(c, tenant, pinned, [a]) == t && Replay(c, tenant, pinned, [a, b]) == u
      && Replay(c, tenant, pinned, [a, b, d]) == Step(c, tenant, u, d)
  {
    hide Step; hide Pinned;
    assert [a][..0] == [] && [a, b][..1] == [a] && [a, b, d][..2] == [a, b];
  }

  lemma StepTakesEffect(c: Crypto, tenant: Bytes, t: Trust, s: Statement)
    requires Findings(c, tenant, t, s) == [] && Apply(c, t, s).refused.None?
    ensures InForce(Step(c, tenant, t, s), s)
  {
    hide Findings; hide Report;
  }

  lemma StaysInForce(t: Trust, u: Trust, s: Statement)
    requires InForce(t, s) && Grows(t, u) && !s.kind.VoidKind?
    ensures InForce(u, s)
  {}
}
