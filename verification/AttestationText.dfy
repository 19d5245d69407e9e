/** The texts of the attestation log: what is signed, what is hashed, and what a subject says. */
module AttestationText {
  import opened Options
  import opened Encoding
  import T = Trust
  import Blocks

  datatype Kind = BlockKind | ReceiptKind | CheckpointKind | OtherKind(text: Bytes)

  datatype Attestation = Attestation(seqNo: int, kind: Kind, subject: Bytes, subjectHash: Bytes, prevHash: Bytes,
                                     keyId: Bytes, signedAt: Bytes, signature: Bytes, hash: Bytes)

  function KindText(k: Kind): (r: Bytes)
    ensures !k.OtherKind? ==> Free(r, BAR)
  {
    match k
    case BlockKind => Ascii("block")
    case ReceiptKind => Ascii("receipt")
    case CheckpointKind => Ascii("checkpoint")
    case OtherKind(text) => text
  }

  lemma KindTextInjective(a: Kind, b: Kind)
    requires !a.OtherKind? && !b.OtherKind? && KindText(a) == KindText(b)
    ensures a == b
  {
    assert KindText(a)[0] == KindText(b)[0];
  }

  /** `2026-10-07T12:00:00Z`, with the trailing line feed that the pattern's `$` lets through. */
  predicate Time(s: Bytes) {
    |s| == 20 && s[4] == s[7] == MINUS && s[10] == 84 && s[13] == s[16] == COLON && s[19] == 90
    && forall i :: 0 <= i < 19 && i !in {4, 7, 10, 13, 16} ==> 48 <= s[i] <= 57
  }

  predicate AcceptedTime(s: Bytes) {
    Time(s) || (|s| == 21 && Time(s[..20]) && s[20] == NEWLINE)
  }

  predicate OneLine(s: Bytes) {
    Free(s, BAR) && Free(s, NEWLINE) && Free(s, RETURN)
  }

  function AttestTag(): Bytes {
    Ascii("jarvis-attest|v1|")
  }

  function Parts(a: Attestation, last: Bytes): (r: seq<Bytes>)
    ensures |r| == 5
  {
    [a.subject, a.subjectHash, Dec(a.seqNo), a.prevHash, last]
  }

  predicate WellFormed(a: Attestation) {
    !a.kind.OtherKind? && Blocks.Accepted(a.subjectHash) && Blocks.Accepted(a.prevHash) && AcceptedTime(a.signedAt) && OneLine(a.subject)
  }

  /** `attestation_message`; None where it refuses a field. */
  function Message(tenant: Bytes, a: Attestation): Option<Bytes> {
    if WellFormed(a)
    then Some(AttestTag() + KindText(a.kind) + [BAR] + Sized(tenant) + [BAR] + Fields(Parts(a, a.signedAt)))
    else None
  }

  function HashedText(c: T.Crypto, message: Bytes, a: Attestation): Bytes {
    message + [NEWLINE] + a.keyId + [NEWLINE] + c.norm(a.signature)
  }

  /** `attestation_hash` */
  function AttestationHash(c: T.Crypto, message: Bytes, a: Attestation): Bytes {
    HexDigest(c.h, HashedText(c, message, a))
  }

  // ----- the hashed text tells every field

  /** A key id as the table stores it: not empty, and without a line feed. */
  predicate KeyText(k: Bytes) {
    k != [] && Free(k, NEWLINE)
  }

  /** Equal in every field but the signature, whose canonical texts are equal. */
  predicate SameRow(c: T.Crypto, a: Attestation, b: Attestation) {
    a == b.(signature := a.signature) && c.norm(a.signature) == c.norm(b.signature)
  }

  function Tail(c: T.Crypto, a: Attestation): Bytes {
    a.signedAt + [NEWLINE] + a.keyId + [NEWLINE] + c.norm(a.signature)
  }

  lemma TailInjective(c: T.Crypto, a: Attestation, b: Attestation)
    requires AcceptedTime(a.signedAt) && AcceptedTime(b.signedAt) && KeyText(a.keyId) && KeyText(b.keyId) && Tail(c, a) == Tail(c, b)
    ensures a.signedAt == b.signedAt && a.keyId == b.keyId && c.norm(a.signature) == c.norm(b.signature)
  {
    var s, t := Tail(c, a), Tail(c, b);
    if |a.signedAt| == |b.signedAt| {
      var m := |a.signedAt|;
      assert a.signedAt == s[..m] && b.signedAt == t[..m];
      assert s[m + 1..] == a.keyId + [NEWLINE] + c.norm(a.signature);
      assert t[m + 1..] == b.keyId + [NEWLINE] + c.norm(b.signature);
      CutAt(a.keyId, c.norm(a.signature), b.keyId, c.norm(b.signature), NEWLINE);
    } else if |a.signedAt| < |b.signedAt| {
      TimesApart(c, a, b);
    } else {
      TimesApart(c, b, a);
    }
  }

  lemma TimesApart(c: T.Crypto, a: Attestation, b: Attestation)
    requires |a.signedAt| == 20 && |b.signedAt| == 21 && AcceptedTime(b.signedAt) && KeyText(a.keyId)
    ensures Tail(c, a) != Tail(c, b)
  {
    assert Tail(c, a)[21] == a.keyId[0] && Tail(c, b)[21] == NEWLINE;
  }

  lemma {:induction false} FieldsTail(fs: seq<Bytes>, y: Bytes)
    requires |fs| > 0
    ensures Fields(fs) + y == Fields(fs[..|fs| - 1] + [fs[|fs| - 1] + y])
  {
    var gs := fs[..|fs| - 1] + [fs[|fs| - 1] + y];
    if |fs| == 1 {
      assert gs == [fs[0] + y];
    } else {
      FieldsTail(fs[1..], y);
      assert gs[1..] == fs[1..][..|fs| - 2] + [fs[|fs| - 1] + y];
      assert Fields(fs) + y == fs[0] + [BAR] + (Fields(fs[1..]) + y);
    }
  }

  function Rest(c: T.Crypto, tenant: Bytes, a: Attestation): Bytes {
    KindText(a.kind) + [BAR] + (Sized(tenant) + ([BAR] + Fields(Parts(a, Tail(c, a)))))
  }

  lemma HashedTextShape(c: T.Crypto, tenant: Bytes, a: Attestation)
    requires Message(tenant, a).Some?
    ensures HashedText(c, Message(tenant, a).value, a) == AttestTag() + Rest(c, tenant, a)
  {
    hide Sized; hide Fields; hide AttestTag; hide Dec; hide KindText; hide WellFormed;
    var y := [NEWLINE] + a.keyId + [NEWLINE] + c.norm(a.signature);
    FieldsTail(Parts(a, a.signedAt), y);
    assert Parts(a, a.signedAt)[..4] + [a.signedAt + y] == Parts(a, a.signedAt + y);
    assert a.signedAt + y == Tail(c, a);
  }

  lemma AfterTag(x: Bytes, y: Bytes)
    requires AttestTag() + x == AttestTag() + y
    ensures x == y
  {
    assert x == (AttestTag() + x)[|AttestTag()|..] && y == (AttestTag() + y)[|AttestTag()|..];
  }

  lemma PartsClean(a: Attestation, last: Bytes)
    requires WellFormed(a)
    ensures Clean(Parts(a, last))
  {
    Blocks.BarFree(a.subjectHash);
    Blocks.BarFree(a.prevHash);
    hide Dec;
  }

  /** Whatever the tenant's name holds, and with line feeds where the patterns let them through, the hashed
      text tells the tenant and every field, the signature up to its canonical text. */
  lemma HashedTextInjective(c: T.Crypto, t: Bytes, a: Attestation, u: Bytes, b: Attestation)
    requires Message(t, a).Some? && Message(u, b).Some? && KeyText(a.keyId) && KeyText(b.keyId)
    requires HashedText(c, Message(t, a).value, a) == HashedText(c, Message(u, b).value, b)
    ensures t == u && SameRow(c, a, b.(hash := a.hash))
  {
    HashedTextShape(c, t, a);
    HashedTextShape(c, u, b);
    PartsClean(a, Tail(c, a));
    PartsClean(b, Tail(c, b));
    hide Sized; hide Fields; hide AttestTag; hide Dec; hide KindText; hide Tail; hide Clean; hide HashedText; hide Parts;
    AfterTag(Rest(c, t, a), Rest(c, u, b));
    var fs, gs := Parts(a, Tail(c, a)), Parts(b, Tail(c, b));
    CutAt(KindText(a.kind), Sized(t) + ([BAR] + Fields(fs)), KindText(b.kind), Sized(u) + ([BAR] + Fields(gs)), BAR);
    SizedCut(t, [BAR] + Fields(fs), u, [BAR] + Fields(gs));
    assert Fields(fs) == ([BAR] + Fields(fs))[1..] && Fields(gs) == ([BAR] + Fields(gs))[1..];
    FieldsInjective(fs, gs);
    KindTextInjective(a.kind, b.kind);
    PartsEqual(c, a, b);
  }

  lemma PartsEqual(c: T.Crypto, a: Attestation, b: Attestation)
    requires Parts(a, Tail(c, a)) == Parts(b, Tail(c, b)) && AcceptedTime(a.signedAt) && AcceptedTime(b.signedAt) && KeyText(a.keyId) && KeyText(b.keyId)
    requires a.kind == b.kind
    ensures SameRow(c, a, b.(hash := a.hash))
  {
    hide Dec; hide Tail; hide AcceptedTime;
    var fs, gs := Parts(a, Tail(c, a)), Parts(b, Tail(c, b));
    assert fs[0] == gs[0] && fs[1] == gs[1] && fs[2] == gs[2] && fs[3] == gs[3] && fs[4] == gs[4];
    DecInjective(a.seqNo, b.seqNo);
    TailInjective(c, a, b);
  }

  // ----- subjects

  datatype Checkpoint = Checkpoint(covered: int, head: Bytes, tip: int, tipHash: Bytes)

  /** `checkpoint_subject` */
  function CheckpointSubject(p: Checkpoint): Bytes {
    Ascii("checkpoint") + [COLON] + (Dec(p.covered) + [COLON] + (p.head + [COLON] + (Dec(p.tip) + [COLON] + p.tipHash)))
  }

  /** `parse_checkpoint_subject` */
  function ParseCheckpoint(subject: Bytes): Option<Checkpoint> {
    var parts := Split(subject, COLON);
    if |parts| != 5 || parts[0] != Ascii("checkpoint") || !Digits(parts[1]) || !Digits(parts[3]) then None
    else if !Blocks.Accepted(parts[2]) || !Blocks.Accepted(parts[4]) then None
    else Some(Checkpoint(Value(parts[1]), parts[2], Value(parts[3]), parts[4]))
  }

  /** `parse_block_subject`: `block:` and a positive number without a leading zero. */
  function ParseBlock(subject: Bytes): Option<int> {
    var prefix := Ascii("block:");
    if |subject| > 6 && subject[..6] == prefix && Digits(subject[6..]) && subject[6] != 48 then Some(Value(subject[6..])) else None
  }

  /** `checkpoint_hash` */
  function CheckpointHash(c: T.Crypto, tenant: Bytes, p: Checkpoint): Bytes {
    HexDigest(c.h, Ascii("jarvis-checkpoint|v1|") + Sized(tenant) + [BAR] + Fields([Dec(p.covered), p.head, Dec(p.tip), p.tipHash]))
  }

  function CheckpointTag(): Bytes {
    Ascii("jarvis-checkpoint|v1|")
  }

  /** The text that a checkpoint's hash is of. */
  function CheckpointText(tenant: Bytes, p: Checkpoint): Bytes {
    CheckpointTag() + (Sized(tenant) + ([BAR] + Fields([Dec(p.covered), p.head, Dec(p.tip), p.tipHash])))
  }

  lemma CheckpointHashIs(c: T.Crypto, tenant: Bytes, p: Checkpoint)
    ensures CheckpointHash(c, tenant, p) == HexDigest(c.h, CheckpointText(tenant, p))
  {
    hide Sized; hide Fields; hide HexDigest; hide Dec;
    var fs := Fields([Dec(p.covered), p.head, Dec(p.tip), p.tipHash]);
    assert CheckpointTag() + Sized(tenant) + [BAR] + fs == CheckpointText(tenant, p);
  }

  /** A checkpoint's hash tells the tenant, the covered number and head, and the tip. */
  lemma CheckpointHashFixes(c: T.Crypto, t: Bytes, p: Checkpoint, u: Bytes, q: Checkpoint)
    requires Blocks.Accepted(p.head) && Blocks.Accepted(q.head)
    requires NoCollision(c.h, {CheckpointText(t, p), CheckpointText(u, q)}) && CheckpointHash(c, t, p) == CheckpointHash(c, u, q)
    ensures t == u && p == q
  {
    CheckpointHashIs(c, t, p);
    CheckpointHashIs(c, u, q);
    HexDigestFixes(c.h, {CheckpointText(t, p), CheckpointText(u, q)}, CheckpointText(t, p), CheckpointText(u, q));
    Blocks.BarFree(p.head);
    Blocks.BarFree(q.head);
    hide Sized; hide Fields; hide HexDigest; hide Dec; hide CheckpointTag; hide CheckpointHash; hide NoCollision;
    var fs, gs := [Dec(p.covered), p.head, Dec(p.tip), p.tipHash], [Dec(q.covered), q.head, Dec(q.tip), q.tipHash];
    var x, y := Sized(t) + ([BAR] + Fields(fs)), Sized(u) + ([BAR] + Fields(gs));
    assert x == (CheckpointTag() + x)[|CheckpointTag()|..] && y == (CheckpointTag() + y)[|CheckpointTag()|..];
    SizedCut(t, [BAR] + Fields(fs), u, [BAR] + Fields(gs));
    assert Fields(fs) == ([BAR] + Fields(fs))[1..] && Fields(gs) == ([BAR] + Fields(gs))[1..];
    FieldsInjective(fs, gs);
    assert fs[0] == gs[0] && fs[1] == gs[1] && fs[2] == gs[2] && fs[3] == gs[3];
    DecInjective(p.covered, q.covered);
    DecInjective(p.tip, q.tip);
  }

  lemma ColonFree(s: Bytes)
    requires Blocks.Accepted(s)
    ensures Free(s, COLON)
  {
    assert forall i :: 0 <= i < 64 ==> s[..64][i] == s[i];
  }

  /** A checkpoint's subject is read back as it was built. */
  lemma CheckpointRoundTrip(p: Checkpoint)
    requires p.covered >= 0 && p.tip >= 0 && Blocks.Accepted(p.head) && Blocks.Accepted(p.tipHash)
    ensures ParseCheckpoint(CheckpointSubject(p)) == Some(p)
  {
    CheckpointParts(p);
    ValueOfDecNat(p.covered);
    ValueOfDecNat(p.tip);
    hide DecNat; hide Value; hide Split; hide CheckpointSubject; hide Ascii;
  }

  lemma CheckpointParts(p: Checkpoint)
    requires Blocks.Accepted(p.head) && Blocks.Accepted(p.tipHash)
    ensures Split(CheckpointSubject(p), COLON) == [Ascii("checkpoint"), Dec(p.covered), p.head, Dec(p.tip), p.tipHash]
  {
    ColonFree(p.head);
    ColonFree(p.tipHash);
    assert Free(Ascii("checkpoint"), COLON);
    hide Dec; hide Split; hide Ascii; hide Free;
    var d := Dec(p.tip) + [COLON] + p.tipHash;
    var e := p.head + [COLON] + d;
    var f := Dec(p.covered) + [COLON] + e;
    SplitLast(p.tipHash, COLON);
    SplitCut(Dec(p.tip), p.tipHash, COLON);
    SplitCut(p.head, d, COLON);
    SplitCut(Dec(p.covered), e, COLON);
    SplitCut(Ascii("checkpoint"), f, COLON);
    assert CheckpointSubject(p) == Ascii("checkpoint") + [COLON] + f;
  }

  /** The checkpoint's five parts between colons, with `m` and `n` for its two numbers. */
  predicate Spells(subject: Bytes, p: Checkpoint, m: Bytes, n: Bytes) {
    && Digits(m) && Digits(n) && Value(m) == p.covered && Value(n) == p.tip && Blocks.Accepted(p.head) && Blocks.Accepted(p.tipHash)
    && subject == Join([Ascii("checkpoint"), m, p.head, n, p.tipHash], COLON)
  }

  /** A subject is read as a checkpoint exactly when it is its five parts between colons, with digits for the
      numbers and a hash for each hash; leading zeros pass. */
  lemma ParseCheckpointIff(subject: Bytes, p: Checkpoint)
    ensures ParseCheckpoint(subject) == Some(p) <==>
      exists m, n :: Spells(subject, p, m, n)
  {
    hide Value; hide Split; hide Join; hide Ascii; hide Blocks.Accepted;
    if ParseCheckpoint(subject) == Some(p) {
      var parts := Split(subject, COLON);
      SplitInverse(subject, COLON);
      assert parts == [Ascii("checkpoint"), parts[1], p.head, parts[3], p.tipHash];
      assert Spells(subject, p, parts[1], parts[3]);
    }
    if m, n :| Spells(subject, p, m, n) {
      SplitParts(m, p.head, n, p.tipHash);
    }
  }

  lemma SplitParts(m: Bytes, head: Bytes, n: Bytes, tip: Bytes)
    requires Digits(m) && Digits(n) && Blocks.Accepted(head) && Blocks.Accepted(tip)
    ensures var parts := [Ascii("checkpoint"), m, head, n, tip]; Split(Join(parts, COLON), COLON) == parts
  {
    ColonFree(head);
    ColonFree(tip);
    assert Free(Ascii("checkpoint"), COLON) && Free(m, COLON) && Free(n, COLON);
    hide Split; hide Ascii; hide Free;
    SplitOfJoin([Ascii("checkpoint"), m, head, n, tip], COLON);
  }

  lemma {:induction false} NoLeadingZero(n: nat)
    requires n > 0
    ensures DecNat(n)[0] != 48
  {
    if n >= 10 { NoLeadingZero(n / 10); }
  }

  lemma BlockRoundTrip(height: nat)
    requires height > 0
    ensures ParseBlock(Ascii("block:") + Dec(height)) == Some(height)
  {
    var s := Ascii("block:") + Dec(height);
    assert s[..6] == Ascii("block:") && s[6..] == DecNat(height);
    NoLeadingZero(height);
    ValueOfDecNat(height);
  }

  // ----- the texts in the terms of their fields

  /** 64 characters `0-9a-f`. */
  predicate HashDigits(s: Bytes) {
    |s| == 64 && forall i :: 0 <= i < 64 ==> 48 <= s[i] <= 57 || 97 <= s[i] <= 102
  }

  /** The same, and after them perhaps one line feed. */
  predicate HashLine(s: Bytes) {
    HashDigits(if |s| == 65 && s[64] == 10 then s[..64] else s)
  }

  /** A digit for every `0` of the pattern, and its other characters as they are. */
  predicate LooksLike(s: Bytes, pattern: string) {
    |s| == |pattern| && forall i :: 0 <= i < |s| ==> if pattern[i] == '0' then 48 <= s[i] <= 57 else s[i] == pattern[i] as int
  }

  predicate TimeLine(s: Bytes) {
    LooksLike(if |s| == 21 && s[20] == 10 then s[..20] else s, "0000-00-00T00:00:00Z")
  }

  lemma HashDigitsIff(s: Bytes)
    ensures HashDigits(s) <==> Blocks.Strict(s)
  {}

  lemma HashLineIff(s: Bytes)
    ensures HashLine(s) <==> Blocks.Accepted(s)
  {
    HashDigitsIff(s);
    if |s| == 65 { HashDigitsIff(s[..64]); }
    hide HexText;
  }

  lemma TimeLineIff(s: Bytes)
    ensures TimeLine(s) <==> AcceptedTime(s)
  {
    var t := if |s| == 21 && s[20] == 10 then s[..20] else s;
    TimeIff(t);
    if |s| == 21 && s[20] == 10 { assert |s[..20]| == 20; }
  }

  lemma TimeIff(s: Bytes)
    ensures LooksLike(s, "0000-00-00T00:00:00Z") <==> Time(s)
  {
    var pattern := "0000-00-00T00:00:00Z";
    assert pattern[4] == pattern[7] == '-' && pattern[10] == 'T' && pattern[13] == pattern[16] == ':' && pattern[19] == 'Z';
    assert forall i :: 0 <= i < 19 && i !in {4, 7, 10, 13, 16} ==> pattern[i] == '0';
  }

  /** A message is made exactly for the three kinds, two hashes, a time of that form, and a subject without
      a bar or a line break; it is the fields between bars. */
  lemma MessageIs(tenant: Bytes, a: Attestation)
    ensures Message(tenant, a).Some? <==>
      && (a.kind == BlockKind || a.kind == ReceiptKind || a.kind == CheckpointKind) && HashLine(a.subjectHash) && HashLine(a.prevHash)
      && TimeLine(a.signedAt) && 124 !in a.subject && 10 !in a.subject && 13 !in a.subject
    ensures Message(tenant, a).Some? ==>
      Message(tenant, a).value == Join([Ascii("jarvis-attest"), Ascii("v1"), KindText(a.kind), Dec(|tenant|) + Ascii(":") + tenant,
                                        a.subject, a.subjectHash, Dec(a.seqNo), a.prevHash, a.signedAt], BAR)
  {
    HashLineIff(a.subjectHash);
    HashLineIff(a.prevHash);
    TimeLineIff(a.signedAt);
    hide HashLine; hide TimeLine; hide Blocks.Accepted; hide AcceptedTime;
    MessageJoins(tenant, a);
  }

  lemma MessageJoins(tenant: Bytes, a: Attestation)
    ensures AttestTag() + KindText(a.kind) + [BAR] + Sized(tenant) + [BAR] + Fields(Parts(a, a.signedAt))
         == Join([Ascii("jarvis-attest"), Ascii("v1"), KindText(a.kind), Dec(|tenant|) + Ascii(":") + tenant,
                  a.subject, a.subjectHash, Dec(a.seqNo), a.prevHash, a.signedAt], BAR)
  {
    var x, y, z, t, ps := Ascii("jarvis-attest"), Ascii("v1"), KindText(a.kind), Dec(|tenant|) + Ascii(":") + tenant, Parts(a, a.signedAt);
    assert AttestTag() == x + [BAR] + y + [BAR] && Ascii(":") == [COLON];
    hide Ascii; hide Dec; hide Join; hide Fields; hide AttestTag; hide KindText;
    assert t == Sized(tenant);
    JoinThree(x, y, z, [t] + ps);
    FieldsCons(t, ps);
    assert [x, y, z] + ([t] + ps) == [x, y, z, t, a.subject, a.subjectHash, Dec(a.seqNo), a.prevHash, a.signedAt];
    hide Parts; hide Sized;
    Regroup(x + [BAR] + y + [BAR] + z + [BAR], t, Fields(ps));
  }

  lemma Regroup(x: Bytes, t: Bytes, r: Bytes)
    ensures x + t + [BAR] + r == x + (t + [BAR] + r)
  {}

  /** A row's hash is of its message, its key id and its canonical signature, a line each. */
  lemma AttestationHashJoins(c: T.Crypto, message: Bytes, a: Attestation)
    ensures AttestationHash(c, message, a) == HexDigest(c.h, Join([message, a.keyId, c.norm(a.signature)], NEWLINE))
  {
    JoinOfThree(message, a.keyId, c.norm(a.signature), NEWLINE);
    hide HexDigest; hide Join;
  }

  /** The digest of a checkpoint is of its fields between bars. */
  lemma CheckpointTextIs(tenant: Bytes, p: Checkpoint)
    ensures CheckpointText(tenant, p) == Join([Ascii("jarvis-checkpoint"), Ascii("v1"), Dec(|tenant|) + Ascii(":") + tenant,
                                               Dec(p.covered), p.head, Dec(p.tip), p.tipHash], BAR)
  {
    var x, y, t := Ascii("jarvis-checkpoint"), Ascii("v1"), Dec(|tenant|) + Ascii(":") + tenant;
    var ps := [Dec(p.covered), p.head, Dec(p.tip), p.tipHash];
    assert CheckpointTag() == x + [BAR] + y + [BAR] && Ascii(":") == [COLON];
    hide Ascii; hide Dec; hide Join; hide Fields; hide CheckpointTag;
    assert t == Sized(tenant);
    JoinThree(x, y, t, ps);
    assert [x, y, t] + ps == [x, y, t, Dec(p.covered), p.head, Dec(p.tip), p.tipHash];
    hide Sized;
    Regroup(x + [BAR] + y + [BAR], t, Fields(ps));
    assert CheckpointText(tenant, p) == CheckpointTag() + (Sized(tenant) + ([BAR] + Fields(ps)));
    assert Sized(tenant) + ([BAR] + Fields(ps)) == Sized(tenant) + [BAR] + Fields(ps);
  }
}
