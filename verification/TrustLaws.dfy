/** Which statements of the trust log are accepted, exactly, what each changes, and what its signature binds. */
module TrustLaws {
  import opened Options
  import opened Order
  import opened Encoding
  import opened Trust
  import Blocks

  /** The statement comes next in the log, carries the hash of its own text, and a root trusted so far signed it. */
  predicate WellSigned(c: Crypto, tenant: Bytes, t: Trust, s: Statement) {
    var message := TrustMessage(tenant, s);
    && s.seqNo == t.headSeq + 1 && s.prevHash == t.headHash && message.Some?
    && StatementHash(c, message.value, s.signedBy, s.signature) == s.hash
    && s.signedBy in t.roots && c.signer(s.signature, message.value) == Some(s.signedBy)
  }

  /** It carries a public key, and names it by its fingerprint. */
  predicate NamesItsKey(c: Crypto, s: Statement) {
    s.pubkey != [] && c.fingerprint(s.pubkey) == Some(s.keyId)
  }

  /** What each kind asks for. */
  predicate MayApply(c: Crypto, t: Trust, s: Statement) {
    match s.kind
    case RootAddKind => NamesItsKey(c, s) && s.keyId !in t.roots
    case KeyKind => NamesItsKey(c, s) && s.keyId !in t.keys && s.arg.Some? && s.arg.value >= 1
    case RevokeKind => s.keyId in t.keys && s.arg.Some? && s.arg.value >= 0
    case VoidKind => s.keyId == s.signedBy && s.arg.Some? && s.arg.value >= 1 && s.subjectHash != []
    case CosignKind => s.keyId == s.signedBy && s.arg.Some? && s.arg.value >= 1 && s.subjectHash != []
    case OtherTrust => false
  }

  lemma MayApplyIff(c: Crypto, t: Trust, s: Statement)
    ensures MayApply(c, t, s) <==> Apply(c, t, s).refused.None?
  {}

  lemma WellSignedIff(c: Crypto, tenant: Bytes, t: Trust, s: Statement)
    ensures WellSigned(c, tenant, t, s) <==> Findings(c, tenant, t, s) == []
  {
    hide TrustMessage; hide StatementHash;
  }

  /** A statement counts exactly when it is well signed where it stands and meets what its kind asks for. */
  lemma CountsIff(c: Crypto, tenant: Bytes, pinned: set<Bytes>, ss: seq<Statement>, i: nat)
    requires i < |ss|
    ensures var t := Replay(c, tenant, pinned, ss[..i]); Counts(c, tenant, pinned, ss, i) <==> WellSigned(c, tenant, t, ss[i]) && MayApply(c, t, ss[i])
  {
    hide Findings; hide Apply; hide Replay; hide WellSigned; hide MayApply;
    var t := Replay(c, tenant, pinned, ss[..i]);
    WellSignedIff(c, tenant, t, ss[i]);
    MayApplyIff(c, t, ss[i]);
  }

  /** The keys after an accepted statement: a new key from its number on, or a lower cutoff. */
  predicate KeysAfter(t: Trust, u: Trust, s: Statement) {
    match s.kind
    case KeyKind =>
      u.keys.Keys == t.keys.Keys + {s.keyId} && s.arg.Some? && u.keys[s.keyId] == KeyAuth(s.arg.value, s.seqNo, None)
      && forall id :: id in t.keys ==> u.keys[id] == t.keys[id]
    case RevokeKind =>
      u.keys.Keys == t.keys.Keys && s.keyId in t.keys && s.arg.Some? && (forall id :: id in t.keys && id != s.keyId ==> u.keys[id] == t.keys[id])
      && u.keys[s.keyId].(cutoff := None) == t.keys[s.keyId].(cutoff := None)
      && u.keys[s.keyId].cutoff.Some? && u.keys[s.keyId].cutoff.value <= s.arg.value
      && (t.keys[s.keyId].cutoff.Some? ==> u.keys[s.keyId].cutoff.value <= t.keys[s.keyId].cutoff.value)
      && (u.keys[s.keyId].cutoff == s.arg || u.keys[s.keyId].cutoff == t.keys[s.keyId].cutoff)
    case _ => u.keys == t.keys
  }

  /** An accepted statement changes exactly what its kind is for and reports nothing; any other changes
      nothing and is reported; either way the log goes on from its number and stored hash. */
  lemma StepMeans(c: Crypto, tenant: Bytes, t: Trust, s: Statement)
    ensures var u := Step(c, tenant, t, s);
      && u.headSeq == s.seqNo && u.headHash == s.hash
      && if WellSigned(c, tenant, t, s) && MayApply(c, t, s) then
           && u.problems == t.problems && KeysAfter(t, u, s)
           && u.roots == t.roots + (if s.kind.RootAddKind? then {s.keyId} else {})
           && u.voids == (if s.kind.VoidKind? && s.arg.Some? then t.voids[s.arg.value := s.subjectHash] else t.voids)
           && u.cosigns == t.cosigns + (if s.kind.CosignKind? && s.arg.Some? then [Cosign(s.arg.value, s.subjectHash, s.keyId, s.seqNo)] else [])
         else
           && |u.problems| > |t.problems| && t.problems <= u.problems && (forall p :: p in u.problems[|t.problems|..] ==> p.seqNo == s.seqNo)
           && u.roots == t.roots && u.keys == t.keys && u.voids == t.voids && u.cosigns == t.cosigns
  {
    hide Findings; hide WellSigned; hide StatementHash; hide TrustMessage;
    WellSignedIff(c, tenant, t, s);
    MayApplyIff(c, t, s);
  }

  /** The log has no problem exactly when every statement counts. */
  lemma {:induction false} NoProblemsIff(c: Crypto, tenant: Bytes, pinned: set<Bytes>, ss: seq<Statement>)
    ensures Replay(c, tenant, pinned, ss).problems == [] <==> forall i: nat :: i < |ss| ==> Counts(c, tenant, pinned, ss, i)
  {
    hide Step; hide Counts; hide WellSigned; hide MayApply;
    if ss != [] {
      var k := |ss| - 1;
      var t := Replay(c, tenant, pinned, ss[..k]);
      NoProblemsIff(c, tenant, pinned, ss[..k]);
      CountsIff(c, tenant, pinned, ss, k);
      StepMeans(c, tenant, t, ss[k]);
      forall i: nat | i < k ensures Counts(c, tenant, pinned, ss[..k], i) == Counts(c, tenant, pinned, ss, i) { CountsEarlier(c, tenant, pinned, ss, k, i); }
    }
  }

  lemma HeadIs(c: Crypto, tenant: Bytes, pinned: set<Bytes>, ss: seq<Statement>)
    ensures var t := Replay(c, tenant, pinned, ss);
      if ss == [] then t.headSeq == 0 && t.headHash == Blocks.Genesis() else t.headSeq == ss[|ss| - 1].seqNo && t.headHash == ss[|ss| - 1].hash
  {
    hide Findings; hide Apply; hide Report;
  }

  /** A log without a problem is numbered from 1, and each statement names the hash of the one before it, the
      first one 64 zeros. */
  lemma NoProblemsNumbered(c: Crypto, tenant: Bytes, pinned: set<Bytes>, ss: seq<Statement>, i: nat)
    requires Replay(c, tenant, pinned, ss).problems == [] && i < |ss|
    ensures ss[i].seqNo == i + 1 && ss[i].prevHash == if i == 0 then Blocks.Genesis() else ss[i - 1].hash
  {
    hide Replay; hide Findings; hide Counts; hide MayApply;
    NoProblemsIff(c, tenant, pinned, ss);
    CountsIff(c, tenant, pinned, ss, i);
    HeadIs(c, tenant, pinned, ss[..i]);
    assert Counts(c, tenant, pinned, ss, i);
    if i > 0 {
      NoProblemsNumbered(c, tenant, pinned, ss, i - 1);
      assert ss[..i][i - 1] == ss[i - 1];
    }
  }

  /** The statements are replayed by number, all of them, and those of one number as they were given. */
  lemma ReplayedInOrder(statements: seq<Statement>)
    ensures var ss := StableSort(statements, InOrder);
      && multiset(ss) == multiset(statements) && (forall i, j :: 0 <= i < j < |ss| ==> ss[i].seqNo <= ss[j].seqNo)
      && ((forall i, j :: 0 <= i < j < |statements| ==> statements[i].seqNo <= statements[j].seqNo) ==> ss == statements)
  {
    assert TotalPreorder(InOrder);
    StableSortSorted(statements, InOrder);
    if forall i, j :: 0 <= i < j < |statements| ==> statements[i].seqNo <= statements[j].seqNo { SortedStays(statements); }
  }

  lemma {:induction false} SortedStays(ss: seq<Statement>)
    requires forall i, j :: 0 <= i < j < |ss| ==> ss[i].seqNo <= ss[j].seqNo
    ensures StableSort(ss, InOrder) == ss
  {
    if ss != [] { SortedStays(ss[1..]); }
  }

  // ----- what a signature binds

  function Parts(s: Statement): (r: seq<Bytes>)
    ensures |r| == 5
  {
    [s.keyId, if s.arg.None? then [] else Dec(s.arg.value), s.subjectHash, Dec(s.seqNo), s.prevHash]
  }

  function Tag(): Bytes {
    Ascii("jarvis-trust|v1|")
  }

  function Rest(tenant: Bytes, s: Statement): Bytes {
    KindText(s.kind) + [BAR] + (Sized(tenant) + ([BAR] + Fields(Parts(s))))
  }

  lemma MessageShape(tenant: Bytes, s: Statement)
    requires TrustMessage(tenant, s).Some?
    ensures TrustMessage(tenant, s).value == Tag() + Rest(tenant, s)
    ensures !s.kind.OtherTrust? && (s.subjectHash == [] || Blocks.Accepted(s.subjectHash))
  {
    hide Sized; hide Fields; hide Dec; hide Blocks.Accepted;
    assert Parts(s) == [s.keyId, if s.arg.None? then [] else Dec(s.arg.value), s.subjectHash, Dec(s.seqNo), s.prevHash];
  }

  lemma AfterTag(x: Bytes, y: Bytes)
    requires Tag() + x == Tag() + y
    ensures x == y
  {
    assert x == (Tag() + x)[|Tag()|..] && y == (Tag() + y)[|Tag()|..];
  }

  lemma KindsDiffer(k: TrustKind, l: TrustKind)
    requires !k.OtherTrust? && !l.OtherTrust?
    ensures Free(KindText(k), BAR)
    ensures KindText(k) == KindText(l) ==> k == l
  {
    var x, y := KindText(k), KindText(l);
    if |x| == |y| && |x| > 2 {
      assert x == y ==> x[0] == y[0] && x[2] == y[2];
    }
  }

  lemma PartsClean(s: Statement)
    requires Free(s.keyId, BAR) && (s.subjectHash == [] || Blocks.Accepted(s.subjectHash))
    ensures Clean(Parts(s))
  {
    if s.subjectHash != [] { Blocks.BarFree(s.subjectHash); }
    hide Dec;
  }

  lemma PartsEqual(a: Statement, b: Statement)
    requires Parts(a) == Parts(b)
    ensures a.keyId == b.keyId && a.arg == b.arg && a.subjectHash == b.subjectHash && a.seqNo == b.seqNo && a.prevHash == b.prevHash
  {
    hide Dec;
    var fs, gs := Parts(a), Parts(b);
    assert fs[0] == gs[0] && fs[1] == gs[1] && fs[2] == gs[2] && fs[3] == gs[3] && fs[4] == gs[4];
    DecInjective(a.seqNo, b.seqNo);
    if a.arg.Some? && b.arg.Some? { DecInjective(a.arg.value, b.arg.value); }
  }

  /** The message that a root signs tells the tenant, the kind and every field but the public key, which the
      key id names; whatever the tenant's name holds. */
  lemma TrustMessageInjective(t: Bytes, a: Statement, u: Bytes, b: Statement)
    requires TrustMessage(t, a).Some? && TrustMessage(u, b).Some? && Free(a.keyId, BAR) && Free(b.keyId, BAR)
    requires TrustMessage(t, a) == TrustMessage(u, b)
    ensures t == u && a.kind == b.kind && a.keyId == b.keyId && a.arg == b.arg && a.subjectHash == b.subjectHash
            && a.seqNo == b.seqNo && a.prevHash == b.prevHash
  {
    MessageShape(t, a);
    MessageShape(u, b);
    KindsDiffer(a.kind, b.kind);
    KindsDiffer(b.kind, a.kind);
    PartsClean(a);
    PartsClean(b);
    hide TrustMessage; hide Sized; hide Fields; hide Tag; hide KindText; hide Parts; hide Clean; hide Blocks.Accepted;
    AfterTag(Rest(t, a), Rest(u, b));
    var fs, gs := Parts(a), Parts(b);
    CutAt(KindText(a.kind), Sized(t) + ([BAR] + Fields(fs)), KindText(b.kind), Sized(u) + ([BAR] + Fields(gs)), BAR);
    SizedCut(t, [BAR] + Fields(fs), u, [BAR] + Fields(gs));
    assert Fields(fs) == ([BAR] + Fields(fs))[1..] && Fields(gs) == ([BAR] + Fields(gs))[1..];
    FieldsInjective(fs, gs);
    PartsEqual(a, b);
  }

  /** A message is made exactly for the five kinds and with no subject hash or a hash; it is the fields
      between bars, with nothing for what is missing. */
  lemma TrustMessageIs(tenant: Bytes, s: Statement)
    ensures TrustMessage(tenant, s).Some? <==> !s.kind.OtherTrust? && (s.subjectHash == [] || Blocks.Accepted(s.subjectHash))
    ensures TrustMessage(tenant, s).Some? ==>
      TrustMessage(tenant, s).value == Join([Ascii("jarvis-trust"), Ascii("v1"), KindText(s.kind), Dec(|tenant|) + Ascii(":") + tenant, s.keyId,
                                             if s.arg.Some? then Dec(s.arg.value) else [], s.subjectHash, Dec(s.seqNo), s.prevHash], BAR)
  {
    var x, y, z, t, ps := Ascii("jarvis-trust"), Ascii("v1"), KindText(s.kind), Dec(|tenant|) + Ascii(":") + tenant, Parts(s);
    assert Tag() == x + [BAR] + y + [BAR] && Ascii(":") == [COLON];
    hide Ascii; hide Dec; hide Join; hide Fields; hide Tag; hide KindText; hide Blocks.Accepted;
    if TrustMessage(tenant, s).Some? {
      MessageShape(tenant, s);
      assert t == Sized(tenant);
      JoinThree(x, y, z, [t] + ps);
      FieldsCons(t, ps);
      assert [x, y, z] + ([t] + ps)
          == [x, y, z, t, s.keyId, if s.arg.Some? then Dec(s.arg.value) else [], s.subjectHash, Dec(s.seqNo), s.prevHash];
      Regroup(x + [BAR] + y + [BAR], z, t, Fields(ps));
    }
  }

  lemma Regroup(x: Bytes, z: Bytes, t: Bytes, r: Bytes)
    ensures x + (z + [BAR] + (t + ([BAR] + r))) == x + z + [BAR] + (t + [BAR] + r)
  {}

  // ----- what a stored hash binds

  /** The stored hash is of the message, the signer and the canonical signature, a line each. */
  lemma StatementHashJoins(c: Crypto, message: Bytes, signedBy: Bytes, signature: Bytes)
    ensures StatementHash(c, message, signedBy, signature) == HexDigest(c.h, Join([message, signedBy, c.norm(signature)], NEWLINE))
  {
    JoinOfThree(message, signedBy, c.norm(signature), NEWLINE);
    hide HexDigest; hide Join;
  }

  function Tail(c: Crypto, s: Statement): Bytes {
    s.prevHash + [NEWLINE] + s.signedBy + [NEWLINE] + c.norm(s.signature)
  }

  /** The text behind the stored hash of a statement. */
  function HashedText(c: Crypto, tenant: Bytes, s: Statement): Bytes {
    Tag() + (KindText(s.kind) + [BAR] + (Sized(tenant) + ([BAR] + Fields(Parts(s)[..4] + [Tail(c, s)]))))
  }

  lemma {:induction false} FieldsLast(fs: seq<Bytes>, x: Bytes, y: Bytes)
    ensures Fields(fs + [x]) + y == Fields(fs + [x + y])
  {
    if fs != [] {
      assert (fs + [x])[1..] == fs[1..] + [x] && (fs + [x + y])[1..] == fs[1..] + [x + y];
      FieldsLast(fs[1..], x, y);
    }
  }

  lemma StatementHashIs(c: Crypto, tenant: Bytes, s: Statement)
    requires TrustMessage(tenant, s).Some?
    ensures StatementHash(c, TrustMessage(tenant, s).value, s.signedBy, s.signature) == HexDigest(c.h, HashedText(c, tenant, s))
  {
    MessageShape(tenant, s);
    hide TrustMessage; hide Sized; hide Fields; hide Tag; hide KindText; hide HexDigest;
    var y := [NEWLINE] + s.signedBy + [NEWLINE] + c.norm(s.signature);
    var ps := Parts(s)[..4];
    FieldsLast(ps, s.prevHash, y);
    assert ps + [s.prevHash] == Parts(s) && s.prevHash + y == Tail(c, s);
    assert TrustMessage(tenant, s).value + y == HashedText(c, tenant, s);
    assert TrustMessage(tenant, s).value + [NEWLINE] + s.signedBy + [NEWLINE] + c.norm(s.signature) == TrustMessage(tenant, s).value + y;
  }

  lemma TailEqual(c: Crypto, a: Statement, b: Statement)
    requires Tail(c, a) == Tail(c, b)
    requires Free(a.prevHash, NEWLINE) && Free(b.prevHash, NEWLINE) && Free(a.signedBy, NEWLINE) && Free(b.signedBy, NEWLINE)
    ensures a.prevHash == b.prevHash && a.signedBy == b.signedBy && c.norm(a.signature) == c.norm(b.signature)
  {
    var x, y := a.signedBy + [NEWLINE] + c.norm(a.signature), b.signedBy + [NEWLINE] + c.norm(b.signature);
    assert Tail(c, a) == a.prevHash + [NEWLINE] + x && Tail(c, b) == b.prevHash + [NEWLINE] + y;
    CutAt(a.prevHash, x, b.prevHash, y, NEWLINE);
    CutAt(a.signedBy, c.norm(a.signature), b.signedBy, c.norm(b.signature), NEWLINE);
  }

  /** The stored hash tells the tenant, every field, the signer and the canonical signature. */
  lemma StatementHashFixes(c: Crypto, t: Bytes, a: Statement, u: Bytes, b: Statement)
    requires TrustMessage(t, a).Some? && TrustMessage(u, b).Some? && Free(a.keyId, BAR) && Free(b.keyId, BAR)
    requires Free(a.prevHash, NEWLINE) && Free(b.prevHash, NEWLINE) && Free(a.signedBy, NEWLINE) && Free(b.signedBy, NEWLINE)
    requires NoCollision(c.h, {HashedText(c, t, a), HashedText(c, u, b)})
    requires StatementHash(c, TrustMessage(t, a).value, a.signedBy, a.signature) == StatementHash(c, TrustMessage(u, b).value, b.signedBy, b.signature)
    ensures t == u && a.kind == b.kind && a.keyId == b.keyId && a.arg == b.arg && a.subjectHash == b.subjectHash && a.seqNo == b.seqNo
            && a.prevHash == b.prevHash && a.signedBy == b.signedBy && c.norm(a.signature) == c.norm(b.signature)
  {
    StatementHashIs(c, t, a);
    StatementHashIs(c, u, b);
    HexDigestFixes(c.h, {HashedText(c, t, a), HashedText(c, u, b)}, HashedText(c, t, a), HashedText(c, u, b));
    HashedTextFixes(c, t, a, u, b);
  }

  lemma HashedTextFixes(c: Crypto, t: Bytes, a: Statement, u: Bytes, b: Statement)
    requires TrustMessage(t, a).Some? && TrustMessage(u, b).Some? && Free(a.keyId, BAR) && Free(b.keyId, BAR)
    requires Free(a.prevHash, NEWLINE) && Free(b.prevHash, NEWLINE) && Free(a.signedBy, NEWLINE) && Free(b.signedBy, NEWLINE)
    requires HashedText(c, t, a) == HashedText(c, u, b)
    ensures t == u && a.kind == b.kind && a.keyId == b.keyId && a.arg == b.arg && a.subjectHash == b.subjectHash && a.seqNo == b.seqNo
            && a.prevHash == b.prevHash && a.signedBy == b.signedBy && c.norm(a.signature) == c.norm(b.signature)
  {
    MessageShape(t, a);
    MessageShape(u, b);
    KindsDiffer(a.kind, b.kind);
    KindsDiffer(b.kind, a.kind);
    PartsClean(a);
    PartsClean(b);
    hide TrustMessage; hide Sized; hide Fields; hide Tag; hide KindText; hide Parts; hide Blocks.Accepted; hide Tail;
    var fs, gs := Parts(a)[..4] + [Tail(c, a)], Parts(b)[..4] + [Tail(c, b)];
    assert Clean(fs) && Clean(gs);
    hide Clean;
    AfterTag(KindText(a.kind) + [BAR] + (Sized(t) + ([BAR] + Fields(fs))), KindText(b.kind) + [BAR] + (Sized(u) + ([BAR] + Fields(gs))));
    CutAt(KindText(a.kind), Sized(t) + ([BAR] + Fields(fs)), KindText(b.kind), Sized(u) + ([BAR] + Fields(gs)), BAR);
    SizedCut(t, [BAR] + Fields(fs), u, [BAR] + Fields(gs));
    assert Fields(fs) == ([BAR] + Fields(fs))[1..] && Fields(gs) == ([BAR] + Fields(gs))[1..];
    FieldsInjective(fs, gs);
    assert fs[4] == Tail(c, a) && gs[4] == Tail(c, b);
    TailEqual(c, a, b);
    assert fs[0] == Parts(a)[0] && fs[1] == Parts(a)[1] && fs[2] == Parts(a)[2] && fs[3] == Parts(a)[3];
    assert gs[0] == Parts(b)[0] && gs[1] == Parts(b)[1] && gs[2] == Parts(b)[2] && gs[3] == Parts(b)[3];
    LastPart(a);
    LastPart(b);
    assert Parts(a) == Parts(b);
    PartsEqual(a, b);
  }

  lemma LastPart(s: Statement)
    ensures Parts(s)[4] == s.prevHash
  {}
}
