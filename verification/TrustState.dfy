/** `evaluate_trust` on its mutable state. */
module TrustState {
  import opened Options
  import opened Order
  import opened Encoding
  import opened Trust
  import Blocks

  class State {
    var roots: set<Bytes>
    var keys: map<Bytes, KeyAuth>
    var cosigns: seq<Cosign>
    var voids: map<int, Bytes>
    var problems: seq<Problem>
    var headSeq: int
    var headHash: Bytes

    ghost function View(): Trust
      reads this
    {
      Trust(roots, keys, cosigns, voids, problems, headSeq, headHash)
    }

    constructor (pinned: set<Bytes>)
      ensures View() == Pinned(pinned)
    {
      roots := pinned;
      keys, cosigns, voids, problems := map[], [], map[], [];
      headSeq, headHash := 0, Blocks.Genesis();
    }

    /** `_apply_statement` */
    method ApplyStatement(c: Crypto, s: Statement) returns (refused: Option<Finding>)
      modifies this
      ensures Applied(View(), refused) == Apply(c, old(View()), s)
    {
      if s.kind == KeyKind || s.kind == RootAddKind {
        if s.pubkey == [] {
          return Some(NoPublicKey);
        }
        var key := c.fingerprint(s.pubkey);
        if key.None? {
          return Some(BadPublicKey);
        }
        if key.value != s.keyId {
          return Some(WrongFingerprint);
        }
        if s.kind == RootAddKind {
          if s.keyId in roots {
            return Some(AlreadyRoot);
          }
          roots := roots + {s.keyId};
          return None;
        }
        if s.keyId in keys {
          return Some(AlreadyAuthorized);
        }
        if s.arg.None? || s.arg.value < 1 {
          return Some(BadArgument);
        }
        keys := keys[s.keyId := KeyAuth(s.arg.value, s.seqNo, None)];
        return None;
      }
      if s.kind == RevokeKind {
        if s.keyId !in keys {
          return Some(NeverAuthorized);
        }
        if s.arg.None? || s.arg.value < 0 {
          return Some(BadArgument);
        }
        var auth := keys[s.keyId];
        auth := auth.(cutoff := if auth.cutoff.None? then s.arg else Some(if s.arg.value < auth.cutoff.value then s.arg.value else auth.cutoff.value));
        keys := keys[s.keyId := auth];
        return None;
      }
      if s.kind == VoidKind {
        if s.signedBy != s.keyId {
          return Some(NotItsOwn);
        }
        if s.arg.None? || s.arg.value < 1 || s.subjectHash == [] {
          return Some(BadArgument);
        }
        voids := voids[s.arg.value := s.subjectHash];
        return None;
      }
      if s.kind == CosignKind {
        if s.signedBy != s.keyId {
          return Some(NotItsOwn);
        }
        if s.arg.None? || s.arg.value < 1 || s.subjectHash == [] {
          return Some(BadArgument);
        }
        cosigns := cosigns + [Cosign(s.arg.value, s.subjectHash, s.keyId, s.seqNo)];
        return None;
      }
      return Some(UnknownKind);
    }

    /** One turn of the loop. */
    method Turn(c: Crypto, tenant: Bytes, s: Statement)
      modifies this
      ensures View() == Step(c, tenant, old(View()), s)
    {
      hide Apply; hide StatementHash; hide TrustMessage; hide Report;
      var bad: seq<Finding> := [];
      if s.seqNo != headSeq + 1 {
        bad := bad + [Misplaced];
      }
      if s.prevHash != headHash {
        bad := bad + [BrokenLink];
      }
      var message := TrustMessage(tenant, s);
      if message.None? {
        bad := bad + [Malformed];
      } else if StatementHash(c, message.value, s.signedBy, s.signature) != s.hash {
        bad := bad + [WrongHash];
      }
      if message.Some? && bad == [] {
        if s.signedBy !in roots {
          bad := bad + [NotARoot];
        } else {
          var signer := c.signer(s.signature, message.value);
          if signer.None? {
            bad := bad + [BadSignature];
          } else if signer.value != s.signedBy {
            bad := bad + [OtherKey];
          }
        }
      }
      assert bad == Findings(c, tenant, old(View()), s);
      hide Findings;
      if bad == [] {
        var refused := ApplyStatement(c, s);
        if refused.Some? {
          bad := [refused.value];
        }
      }
      problems := problems + Report(s.seqNo, bad);
      headSeq, headHash := s.seqNo, s.hash;
    }
  }

  /** `evaluate_trust` */
  method EvaluateTrust(c: Crypto, tenant: Bytes, pinned: set<Bytes>, statements: seq<Statement>) returns (st: State)
    ensures fresh(st) && st.View() == Evaluated(c, tenant, pinned, statements)
  {
    st := new State(pinned);
    var ss := StableSort(statements, InOrder);
    for i := 0 to |ss|
      invariant fresh(st) && st.View() == Replay(c, tenant, pinned, ss[..i])
    {
      st.Turn(c, tenant, ss[i]);
      assert ss[..i + 1][..i] == ss[..i];
    }
    assert ss[..|ss|] == ss;
  }
}
