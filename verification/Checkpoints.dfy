/** Checkpoints over an append-only field: compaction, verification, and what every run keeps. */
module Checkpoints {
  import opened Options
  import opened Order
  import opened Encoding
  import opened FieldLines
  import opened FieldTree

  datatype Artifact = Artifact(id: Id, ledger: Id, resolution: Id, payload: Bytes, payloadSha: Bytes, rest: Bytes)

  /** A line range of the field with its authenticators, the retention split of its records, and the link. */
  datatype Checkpoint = Checkpoint(start: nat, end: nat, rangeSha: Bytes, merkle: Bytes, cold: nat, hot: nat,
                                   coldIds: seq<Id>, hotIds: seq<Id>, prev: Option<Bytes>, sha: Option<Bytes>,
                                   created: Bytes, actor: Bytes)

  /** The hash, the canonical text of a checkpoint, and the line an artifact is written as. */
  datatype Env = Env(h: Bytes -> Bytes, canonical: Checkpoint -> Bytes, line: Artifact -> Bytes)

  /** The field: the bytes of its file, the artifacts by id, and their ids in the order of loading.  Nothing
      ties the artifacts to the lines: a file may be cut, hold lines that do not parse, or have grown since. */
  datatype Field = Field(data: Bytes, artifacts: map<Id, Artifact>, order: seq<Id>)

  ghost predicate WritesLines(v: Env) {
    forall a :: Written(v.line(a))
  }

  predicate ValidField(f: Field) {
    forall x :: x in f.order ==> x in f.artifacts
  }

  /** `all` */
  function All(f: Field): (r: seq<Artifact>)
    requires ValidField(f)
    ensures |r| == |f.order|
  {
    seq(|f.order|, i requires 0 <= i < |f.order| => f.artifacts[f.order[i]])
  }

  /** `append` */
  function Appended(v: Env, f: Field, a: Artifact): Field {
    Field(f.data + v.line(a), f.artifacts[a.id := a], f.order + [a.id])
  }

  // ----- compaction

  /** `seal`: the content address leaves itself out. */
  function Address(v: Env, cp: Checkpoint): Bytes {
    HexDigest(v.h, v.canonical(cp.(sha := None)))
  }

  function Covered(chain: seq<Checkpoint>): nat {
    if chain == [] then 0 else chain[|chain| - 1].end
  }

  function LastSha(chain: seq<Checkpoint>): Option<Bytes> {
    if chain == [] then None else chain[|chain| - 1].sha
  }

  /** Every record that some checkpoint classified cold. */
  function EverCold(chain: seq<Checkpoint>): set<Id> {
    set cp, x | cp in chain && x in cp.coldIds :: x
  }

  function LedgerIds(arts: seq<Artifact>, hot: set<Id>): set<Id> {
    set a | a in arts && a.ledger in hot :: a.ledger
  }

  function ColdIds(arts: seq<Artifact>, hot: set<Id>): set<Id> {
    set a | a in arts && a.ledger !in hot :: a.ledger
  }

  function CountIn(arts: seq<Artifact>, ids: set<Id>): nat {
    if arts == [] then 0 else (if arts[0].ledger in ids then 1 else 0) + CountIn(arts[1..], ids)
  }

  function Seal(v: Env, f: Field, chain: seq<Checkpoint>, hot: set<Id>, created: Bytes, actor: Bytes): Checkpoint
    requires ValidField(f)
  {
    var lines := RawLines(f.data);
    var start, end := Covered(chain), |lines|;
    var arts := Slice(All(f), start, end);
    var warm, cold := LedgerIds(arts, hot), ColdIds(arts, hot);
    var range := RangeOf(v.h, lines, start, end);
    var cp := Checkpoint(start, end, range.rangeSha, range.merkle, CountIn(arts, cold), CountIn(arts, warm),
                         SortedIds(cold), SortedIds(warm), LastSha(chain), None, created, actor);
    cp.(sha := Some(Address(v, cp)))
  }

  datatype Outcome = NothingNew | DeadStaysDead | Compacted(cp: Checkpoint)

  /** `compact`; `hot` are the records that retention classifies as hot now. */
  function Compact(v: Env, f: Field, chain: seq<Checkpoint>, hot: set<Id>, created: Bytes, actor: Bytes): Outcome
    requires ValidField(f)
  {
    if |RawLines(f.data)| <= Covered(chain) then NothingNew
    else if EverCold(chain) * hot != {} then DeadStaysDead
    else Compacted(Seal(v, f, chain, hot, created, actor))
  }

  // ----- verification

  datatype Failure = Start(i: nat) | PrevLink(i: nat) | WrongAddress(i: nat) | Counts(i: nat) | Resurfaced(i: nat) | Range(i: nat) | Payload(id: Id)

  function When(found: bool, f: Failure): seq<Failure> {
    if found then [f] else []
  }

  function StructureAt(v: Env, chain: seq<Checkpoint>, i: nat): seq<Failure>
    requires i < |chain|
  {
    var cp := chain[i];
    When(cp.start != Covered(chain[..i]), Start(i)) + When(cp.prev != LastSha(chain[..i]), PrevLink(i))
    + When(cp.sha != Some(Address(v, cp)), WrongAddress(i)) + When(cp.cold + cp.hot != cp.end - cp.start, Counts(i))
  }

  function StructureFailures(v: Env, chain: seq<Checkpoint>, n: nat): seq<Failure>
    requires n <= |chain|
  {
    if n == 0 then [] else StructureFailures(v, chain, n - 1) + StructureAt(v, chain, n - 1)
  }

  predicate Resurfaces(chain: seq<Checkpoint>, i: nat)
    requires i < |chain|
  {
    exists x :: x in EverCold(chain[..i]) && x in chain[i].hotIds
  }

  function ColdFailures(chain: seq<Checkpoint>, n: nat): seq<Failure>
    requires n <= |chain|
  {
    if n == 0 then [] else ColdFailures(chain, n - 1) + When(Resurfaces(chain, n - 1), Resurfaced(n - 1))
  }

  predicate Authentic(v: Env, lines: seq<Bytes>, cp: Checkpoint) {
    RangeOf(v.h, lines, cp.start, cp.end) == Authenticators(cp.rangeSha, cp.merkle)
  }

  function RangeFailures(v: Env, lines: seq<Bytes>, chain: seq<Checkpoint>, n: nat): seq<Failure>
    requires n <= |chain|
  {
    if n == 0 then [] else RangeFailures(v, lines, chain, n - 1) + When(!Authentic(v, lines, chain[n - 1]), Range(n - 1))
  }

  function CoveredEnd(chain: seq<Checkpoint>, n: nat): nat
    requires n <= |chain|
  {
    if n == 0 then 0
    else if chain[n - 1].end > CoveredEnd(chain, n - 1) then chain[n - 1].end else CoveredEnd(chain, n - 1)
  }

  predicate Intact(v: Env, a: Artifact) {
    HexDigest(v.h, a.payload) == a.payloadSha
  }

  function PayloadFailures(v: Env, arts: seq<Artifact>): seq<Failure> {
    if arts == [] then [] else When(!Intact(v, arts[0]), Payload(arts[0].id)) + PayloadFailures(v, arts[1..])
  }

  function From<T>(s: seq<T>, n: nat): seq<T> {
    if n <= |s| then s[n..] else []
  }

  /** What `verify_gc` rehashes: the lines behind the last covered one, or all without a chain. */
  function TailOf(f: Field, chain: seq<Checkpoint>): seq<Artifact>
    requires ValidField(f)
  {
    From(All(f), CoveredEnd(chain, |chain|))
  }

  /** The failures that `verify_gc` lists, in its order. */
  function Failures(v: Env, f: Field, chain: seq<Checkpoint>): seq<Failure>
    requires ValidField(f)
  {
    StructureFailures(v, chain, |chain|) + ColdFailures(chain, |chain|) + RangeFailures(v, RawLines(f.data), chain, |chain|)
    + PayloadFailures(v, TailOf(f, chain))
  }

  // ----- what a sound chain is

  /** Checkpoint `i` starts where the one before ended, names it, carries its own address, counts its whole
      range, has no record hot that was cold before, and matches the field's lines. */
  predicate Follows(v: Env, lines: seq<Bytes>, chain: seq<Checkpoint>, i: nat)
    requires i < |chain|
  {
    var cp := chain[i];
    && cp.start == Covered(chain[..i]) && cp.prev == LastSha(chain[..i]) && cp.sha == Some(Address(v, cp))
    && cp.cold + cp.hot == cp.end - cp.start
    && !Resurfaces(chain, i) && Authentic(v, lines, cp)
  }

  predicate Chained(v: Env, lines: seq<Bytes>, chain: seq<Checkpoint>) {
    forall i: nat :: i < |chain| ==> Follows(v, lines, chain, i)
  }

  predicate AllIntact(v: Env, arts: seq<Artifact>) {
    forall a :: a in arts ==> Intact(v, a)
  }

  predicate NoneUpTo(v: Env, lines: seq<Bytes>, chain: seq<Checkpoint>, n: nat)
    requires n <= |chain|
  {
    StructureFailures(v, chain, n) == [] && ColdFailures(chain, n) == [] && RangeFailures(v, lines, chain, n) == []
  }

  lemma NoneStep(v: Env, lines: seq<Bytes>, chain: seq<Checkpoint>, n: nat)
    requires 0 < n <= |chain|
    ensures NoneUpTo(v, lines, chain, n) <==> NoneUpTo(v, lines, chain, n - 1) && Follows(v, lines, chain, n - 1)
  {
    FollowsIff(v, lines, chain, n - 1);
    hide Follows; hide StructureAt; hide Resurfaces; hide Authentic;
  }

  lemma NoneAtFirst(v: Env, lines: seq<Bytes>, chain: seq<Checkpoint>)
    ensures NoneUpTo(v, lines, chain, 0)
  {}

  lemma {:induction false} ChainFailuresNone(v: Env, lines: seq<Bytes>, chain: seq<Checkpoint>, n: nat)
    requires n <= |chain|
    ensures NoneUpTo(v, lines, chain, n) <==> forall i: nat :: i < n ==> Follows(v, lines, chain, i)
  {
    NoneAtFirst(v, lines, chain);
    hide Follows; hide NoneUpTo;
    if n > 0 {
      ChainFailuresNone(v, lines, chain, n - 1);
      NoneStep(v, lines, chain, n);
    }
  }

  lemma FollowsIff(v: Env, lines: seq<Bytes>, chain: seq<Checkpoint>, i: nat)
    requires i < |chain|
    ensures Follows(v, lines, chain, i) <==> StructureAt(v, chain, i) == [] && !Resurfaces(chain, i) && Authentic(v, lines, chain[i])
  {
    hide Resurfaces; hide Authentic; hide Address; hide Covered; hide LastSha;
  }

  lemma {:induction false} PayloadFailuresNone(v: Env, arts: seq<Artifact>)
    ensures PayloadFailures(v, arts) == [] <==> AllIntact(v, arts)
  {
    hide Intact;
    if arts != [] {
      PayloadFailuresNone(v, arts[1..]);
      assert arts == [arts[0]] + arts[1..];
      assert forall a :: a in arts <==> a == arts[0] || a in arts[1..];
    }
  }

  /** Verification reports nothing exactly when the chain is sound over the field's lines and every
      artifact behind it has the payload its digest names. */
  lemma NoFailuresIff(v: Env, f: Field, chain: seq<Checkpoint>)
    requires ValidField(f)
    ensures Failures(v, f, chain) == [] <==> Chained(v, RawLines(f.data), chain) && AllIntact(v, TailOf(f, chain))
  {
    ChainFailuresNone(v, RawLines(f.data), chain, |chain|);
    PayloadFailuresNone(v, TailOf(f, chain));
    hide Follows; hide TailOf;
  }

  /** On a sound chain the only failures are the tail's wrong payloads. */
  lemma OnlyTailFailures(v: Env, f: Field, chain: seq<Checkpoint>)
    requires ValidField(f) && Chained(v, RawLines(f.data), chain)
    ensures Failures(v, f, chain) == PayloadFailures(v, TailOf(f, chain))
  {
    ChainFailuresNone(v, RawLines(f.data), chain, |chain|);
    hide Follows; hide TailOf; hide PayloadFailures;
  }

  // ----- every run

  datatype Action = Append(a: Artifact) | Seals(hot: set<Id>, created: Bytes, actor: Bytes)

  datatype State = State(field: Field, chain: seq<Checkpoint>)

  /** An append, or a compaction; a refused compaction changes nothing. */
  function Act(v: Env, s: State, x: Action): State
    requires ValidField(s.field)
  {
    match x
    case Append(a) => State(Appended(v, s.field, a), s.chain)
    case Seals(hot, created, actor) =>
      var o := Compact(v, s.field, s.chain, hot, created, actor);
      if o.Compacted? then State(s.field, s.chain + [o.cp]) else s
  }

  /** The file ends between two lines, and as many artifacts are loaded as it has lines. */
  predicate Kept(f: Field) {
    ValidField(f) && BetweenLines(f.data) && |f.order| == |RawLines(f.data)|
  }

  predicate Sound(v: Env, s: State) {
    Kept(s.field) && Chained(v, RawLines(s.field.data), s.chain) && Covered(s.chain) <= |RawLines(s.field.data)|
  }

  lemma AppendKept(v: Env, f: Field, a: Artifact)
    requires WritesLines(v) && Kept(f)
    ensures Kept(Appended(v, f, a)) && RawLines(Appended(v, f, a).data) == RawLines(f.data) + [v.line(a)]
  {
    hide RawLines; hide BetweenLines; hide Written;
    AppendAddsIff(f.data, v.line(a));
  }

  /** Ranges lie one behind the other, so each ends where the chain does at the latest. */
  lemma {:induction false} EndsWithin(v: Env, lines: seq<Bytes>, chain: seq<Checkpoint>, i: nat)
    requires Chained(v, lines, chain) && i < |chain|
    ensures chain[i].start <= chain[i].end <= Covered(chain)
    decreases |chain| - i
  {
    assert Follows(v, lines, chain, i);
    hide Authentic; hide Resurfaces; hide Address;
    if i + 1 < |chain| {
      EndsWithin(v, lines, chain, i + 1);
      assert Follows(v, lines, chain, i + 1);
      assert chain[..i + 1][i] == chain[i];
    }
  }

  lemma SliceKept(v: Env, lines: seq<Bytes>, l: Bytes, cp: Checkpoint)
    requires cp.start <= cp.end <= |lines|
    ensures Authentic(v, lines + [l], cp) == Authentic(v, lines, cp)
  {
    assert Slice(lines + [l], cp.start, cp.end) == Slice(lines, cp.start, cp.end);
  }

  lemma AppendKeepsChain(v: Env, lines: seq<Bytes>, l: Bytes, chain: seq<Checkpoint>)
    requires Chained(v, lines, chain) && Covered(chain) <= |lines|
    ensures Chained(v, lines + [l], chain)
  {
    forall i: nat | i < |chain|
      ensures Follows(v, lines + [l], chain, i)
    {
      EndsWithin(v, lines, chain, i);
      SliceKept(v, lines, l, chain[i]);
      assert Follows(v, lines, chain, i);
      hide Authentic; hide Resurfaces; hide Address;
    }
  }

  lemma {:induction false} BucketsCoverRange(arts: seq<Artifact>, warm: set<Id>, cold: set<Id>)
    requires forall a :: a in arts ==> (a.ledger in warm <==> a.ledger !in cold)
    ensures CountIn(arts, warm) + CountIn(arts, cold) == |arts|
  {
    if arts != [] {
      assert arts[0] in arts;
      BucketsCoverRange(arts[1..], warm, cold);
    }
  }

  /** A sealed checkpoint continues the chain over the file's lines.  Its counts cover its range exactly when
      at least as many artifacts are loaded as the file has lines. */
  lemma SealFollows(v: Env, f: Field, chain: seq<Checkpoint>, hot: set<Id>, created: Bytes, actor: Bytes)
    requires ValidField(f) && Covered(chain) < |RawLines(f.data)| && EverCold(chain) * hot == {}
    ensures var cp := Seal(v, f, chain, hot, created, actor); var lines := RawLines(f.data);
      && cp.start == Covered(chain) && cp.prev == LastSha(chain) && cp.sha == Some(Address(v, cp)) && cp.end == |lines|
      && (cp.cold + cp.hot == cp.end - cp.start <==> |f.order| >= |lines|)
      && (forall x :: x in cp.hotIds ==> x !in EverCold(chain)) && Authentic(v, lines, cp)
  {
    var lines := RawLines(f.data);
    var arts := Slice(All(f), Covered(chain), |lines|);
    var warm, cold := LedgerIds(arts, hot), ColdIds(arts, hot);
    forall a | a in arts ensures a.ledger in warm <==> a.ledger !in cold {}
    BucketsCoverRange(arts, warm, cold);
    hide CountIn; hide EverCold; hide RangeOf; hide Covered; hide LastSha; hide All; hide ValidField; hide RawLines;
    assert |arts| == |lines| - Covered(chain) <==> |f.order| >= |lines|;
    var cp := Seal(v, f, chain, hot, created, actor);
    assert forall x :: x in cp.hotIds ==> x in warm;
    assert warm <= hot;
  }

  lemma SealKeepsChain(v: Env, lines: seq<Bytes>, chain: seq<Checkpoint>, cp: Checkpoint)
    requires Chained(v, lines, chain)
    requires cp.start == Covered(chain) && cp.prev == LastSha(chain) && cp.sha == Some(Address(v, cp))
    requires cp.cold + cp.hot == cp.end - cp.start && Authentic(v, lines, cp) && forall x :: x in cp.hotIds ==> x !in EverCold(chain)
    ensures Chained(v, lines, chain + [cp])
  {
    var longer := chain + [cp];
    hide Authentic; hide Address; hide EverCold; hide Covered; hide LastSha;
    forall i: nat | i < |longer|
      ensures Follows(v, lines, longer, i)
    {
      assert longer[..i] == chain[..i];
      if i < |chain| {
        assert Follows(v, lines, chain, i) && longer[i] == chain[i];
      } else {
        assert chain[..i] == chain && longer[i] == cp;
      }
    }
  }

  lemma ActKeepsSound(v: Env, s: State, x: Action)
    requires WritesLines(v) && Sound(v, s)
    ensures Sound(v, Act(v, s, x))
  {
    hide Chained; hide Seal; hide EverCold; hide ValidField; hide Address; hide Authentic; hide RawLines; hide BetweenLines; hide WritesLines;
    var lines := RawLines(s.field.data);
    if x.Append? {
      AppendKept(v, s.field, x.a);
      AppendKeepsChain(v, lines, v.line(x.a), s.chain);
    } else if Compact(v, s.field, s.chain, x.hot, x.created, x.actor).Compacted? {
      SealFollows(v, s.field, s.chain, x.hot, x.created, x.actor);
      SealKeepsChain(v, lines, s.chain, Seal(v, s.field, s.chain, x.hot, x.created, x.actor));
    }
  }

  /** Compacting while fewer artifacts are loaded than the file has lines seals a checkpoint whose counts
      verification reports from then on. */
  lemma ShortFieldSealsFailure(v: Env, s: State, hot: set<Id>, created: Bytes, actor: Bytes)
    requires ValidField(s.field) && Compact(v, s.field, s.chain, hot, created, actor).Compacted?
    ensures var chain := Act(v, s, Seals(hot, created, actor)).chain;
      Counts(|s.chain|) in StructureFailures(v, chain, |chain|) <==> |s.field.order| < |RawLines(s.field.data)|
  {
    hide EverCold; hide RawLines; hide StructureAt; hide Seal; hide CountIn; hide Covered;
    SealFollows(v, s.field, s.chain, hot, created, actor);
    var cp := Seal(v, s.field, s.chain, hot, created, actor);
    var chain := s.chain + [cp];
    EarlierFailures(v, chain, |s.chain|);
    CountsAt(v, chain, |s.chain|, |s.chain|);
  }

  lemma CountsAt(v: Env, chain: seq<Checkpoint>, i: nat, k: nat)
    requires i < |chain|
    ensures Counts(k) in StructureAt(v, chain, i) <==> k == i && chain[i].cold + chain[i].hot != chain[i].end - chain[i].start
  {
    hide Address; hide Covered; hide LastSha;
  }

  lemma {:induction false} EarlierFailures(v: Env, chain: seq<Checkpoint>, n: nat)
    requires n <= |chain|
    ensures forall k: nat :: n <= k ==> Counts(k) !in StructureFailures(v, chain, n)
  {
    hide StructureAt;
    if n > 0 {
      EarlierFailures(v, chain, n - 1);
      forall k: nat | n <= k ensures Counts(k) !in StructureAt(v, chain, n - 1) { CountsAt(v, chain, n - 1, k); }
    }
  }

  /** The state after the actions, sound throughout. */
  function Run(v: Env, s: State, xs: seq<Action>): State
    requires WritesLines(v) && Sound(v, s)
    ensures Sound(v, Run(v, s, xs))
    decreases |xs|
  {
    if xs == [] then s
    else
      ActKeepsSound(v, s, xs[0]);
      Run(v, Act(v, s, xs[0]), xs[1..])
  }

  function Fresh(): State {
    State(Field([], map[], []), [])
  }

  /** Any run of appends and compactions from an empty field leaves a chain on which verification fails
      nothing but the tail artifacts whose payload does not match its digest. */
  lemma RunVerifies(v: Env, xs: seq<Action>)
    requires WritesLines(v)
    ensures Sound(v, Fresh())
    ensures var s := Run(v, Fresh(), xs); Sound(v, s) && Failures(v, s.field, s.chain) == PayloadFailures(v, TailOf(s.field, s.chain))
  {
    var s := Run(v, Fresh(), xs);
    OnlyTailFailures(v, s.field, s.chain);
  }

  predicate HoldsIntact(v: Env, f: Field) {
    forall x :: x in f.artifacts ==> Intact(v, f.artifacts[x])
  }

  lemma {:induction false} RunHoldsIntact(v: Env, s: State, xs: seq<Action>)
    requires WritesLines(v) && Sound(v, s) && HoldsIntact(v, s.field)
    requires forall x :: x in xs && x.Append? ==> Intact(v, x.a)
    ensures HoldsIntact(v, Run(v, s, xs).field)
    decreases |xs|
  {
    hide Chained; hide RawLines; hide BetweenLines; hide Compact; hide Intact; hide WritesLines;
    if xs != [] {
      ActKeepsSound(v, s, xs[0]);
      RunHoldsIntact(v, Act(v, s, xs[0]), xs[1..]);
    }
  }

  /** When every appended artifact matches its digest, verification lists nothing after any such run. */
  lemma IntactRunPasses(v: Env, xs: seq<Action>)
    requires WritesLines(v) && forall x :: x in xs && x.Append? ==> Intact(v, x.a)
    ensures Sound(v, Fresh())
    ensures var s := Run(v, Fresh(), xs); Failures(v, s.field, s.chain) == []
  {
    hide Intact; hide Failures; hide Chained; hide RawLines;
    RunVerifies(v, xs);
    var s := Run(v, Fresh(), xs);
    RunHoldsIntact(v, Fresh(), xs);
    var tail := TailOf(s.field, s.chain);
    forall a | a in tail ensures Intact(v, a) { assert a in All(s.field); }
    PayloadFailuresNone(v, tail);
  }

  /** In a sound chain no record is hot after it was cold. */
  lemma DeadStaysDeadAlways(v: Env, lines: seq<Bytes>, chain: seq<Checkpoint>, i: nat, j: nat, x: Id)
    requires Chained(v, lines, chain) && i < j < |chain| && x in chain[i].coldIds
    ensures x !in chain[j].hotIds
  {
    assert Follows(v, lines, chain, j);
    assert chain[..j][i] in chain[..j];
    assert x in EverCold(chain[..j]);
  }

  // ----- one chain, one field

  /** Every text that the ranges of a chain hash. */
  function RangeTexts(lines: seq<Bytes>, chain: seq<Checkpoint>): set<Bytes> {
    set cp | cp in chain :: Joined(Slice(lines, cp.start, cp.end))
  }

  lemma RangeFixed(v: Env, a: seq<Bytes>, b: seq<Bytes>, chain: seq<Checkpoint>, i: nat)
    requires Raw(a) && Raw(b) && i < |chain| && Authentic(v, a, chain[i]) && Authentic(v, b, chain[i])
    requires NoCollision(v.h, RangeTexts(a, chain) + RangeTexts(b, chain))
    ensures Slice(a, chain[i].start, chain[i].end) == Slice(b, chain[i].start, chain[i].end)
  {
    hide Raw;
    var cp := chain[i];
    var x, y := Slice(a, cp.start, cp.end), Slice(b, cp.start, cp.end);
    assert Joined(x) in RangeTexts(a, chain) && Joined(y) in RangeTexts(b, chain);
    HexDigestFixes(v.h, RangeTexts(a, chain) + RangeTexts(b, chain), Joined(x), Joined(y));
    hide RangeTexts; hide NoCollision;
    SliceRaw(a, cp.start, cp.end);
    SliceRaw(b, cp.start, cp.end);
    JoinedFixesLines(x, y);
  }

  lemma SliceJoins(ls: seq<Bytes>, m: nat, n: nat)
    requires m <= n
    ensures Slice(ls, 0, n) == Slice(ls, 0, m) + Slice(ls, m, n)
  {}

  ghost predicate RangesAgree(a: seq<Bytes>, b: seq<Bytes>, chain: seq<Checkpoint>) {
    forall i: nat :: i < |chain| ==> Slice(a, chain[i].start, chain[i].end) == Slice(b, chain[i].start, chain[i].end)
  }

  lemma {:induction false} CoveredAgree(v: Env, a: seq<Bytes>, b: seq<Bytes>, chain: seq<Checkpoint>, n: nat)
    requires Chained(v, a, chain) && RangesAgree(a, b, chain) && n <= |chain|
    ensures Slice(a, 0, Covered(chain[..n])) == Slice(b, 0, Covered(chain[..n]))
  {
    hide Authentic; hide Resurfaces; hide Address;
    if n > 0 {
      CoveredAgree(v, a, b, chain, n - 1);
      assert Follows(v, a, chain, n - 1);
      EndsWithin(v, a, chain, n - 1);
      var cp := chain[n - 1];
      assert chain[..n][n - 1] == cp && chain[..n - 1] == chain[..n][..n - 1];
      SliceJoins(a, cp.start, cp.end);
      SliceJoins(b, cp.start, cp.end);
    }
  }

  /** Two files that fit one chain have the same covered lines, whatever their bytes are and wherever they
      end: nothing was altered, moved or cut. */
  lemma OneChainOneField(v: Env, a: Bytes, b: Bytes, chain: seq<Checkpoint>)
    requires Chained(v, RawLines(a), chain) && Chained(v, RawLines(b), chain)
    requires NoCollision(v.h, RangeTexts(RawLines(a), chain) + RangeTexts(RawLines(b), chain))
    ensures Slice(RawLines(a), 0, Covered(chain)) == Slice(RawLines(b), 0, Covered(chain))
  {
    hide RawLines; hide RangeTexts; hide NoCollision; hide Raw; hide Authentic; hide Resurfaces; hide Address;
    RawLinesRaw(a);
    RawLinesRaw(b);
    var x, y := RawLines(a), RawLines(b);
    forall i: nat | i < |chain| ensures Slice(x, chain[i].start, chain[i].end) == Slice(y, chain[i].start, chain[i].end) {
      assert Follows(v, x, chain, i) && Follows(v, y, chain, i);
      RangeFixed(v, x, y, chain, i);
    }
    CoveredAgree(v, x, y, chain, |chain|);
    assert chain[..|chain|] == chain;
  }

  /** Every pair of nodes and every line that the tree of one range hashes. */
  predicate TreeSafe(v: Env, a: seq<Bytes>, b: seq<Bytes>, cp: Checkpoint) {
    var x, y := Slice(a, cp.start, cp.end), Slice(b, cp.start, cp.end);
    NoCollision(v.h, PairTexts(v.h, LineDigests(v.h, x)) + PairTexts(v.h, LineDigests(v.h, y)))
    && NoCollision(v.h, (set l | l in x) + (set l | l in y))
  }

  /** The trees alone do the same for any two lists of lines that the chain's ranges lie in. */
  lemma OneTreeOneField(v: Env, a: seq<Bytes>, b: seq<Bytes>, chain: seq<Checkpoint>)
    requires Chained(v, a, chain) && Covered(chain) <= |a| && Covered(chain) <= |b| && Digests(v.h)
    requires forall cp :: cp in chain ==> TreeRoot(v.h, LineDigests(v.h, Slice(b, cp.start, cp.end))) == cp.merkle && TreeSafe(v, a, b, cp)
    ensures a[..Covered(chain)] == b[..Covered(chain)]
  {
    forall i: nat | i < |chain| ensures Slice(a, chain[i].start, chain[i].end) == Slice(b, chain[i].start, chain[i].end) {
      var cp := chain[i];
      assert Follows(v, a, chain, i) && cp in chain;
      EndsWithin(v, a, chain, i);
      hide TreeRoot; hide LineDigests; hide PairTexts; hide NoCollision; hide Digests; hide Resurfaces; hide Address;
      MerkleFixesLines(v.h, Slice(a, cp.start, cp.end), Slice(b, cp.start, cp.end));
    }
    hide Chained; hide TreeSafe; hide TreeRoot;
    CoveredAgree(v, a, b, chain, |chain|);
    assert chain[..|chain|] == chain;
  }

  /** The same in terms of verification, for any two files and any loaded artifacts. */
  lemma PassingFieldsAgree(v: Env, f: Field, g: Field, chain: seq<Checkpoint>)
    requires ValidField(f) && ValidField(g) && Failures(v, f, chain) == [] && Failures(v, g, chain) == []
    requires NoCollision(v.h, RangeTexts(RawLines(f.data), chain) + RangeTexts(RawLines(g.data), chain))
    ensures var a, b := RawLines(f.data), RawLines(g.data);
      && Slice(a, 0, Covered(chain)) == Slice(b, 0, Covered(chain))
      && (Covered(chain) <= |a| ==> Covered(chain) <= |b| && a[..Covered(chain)] == b[..Covered(chain)])
  {
    hide Failures; hide RangeTexts; hide NoCollision; hide Chained; hide TailOf; hide RawLines;
    NoFailuresIff(v, f, chain);
    NoFailuresIff(v, g, chain);
    OneChainOneField(v, f.data, g.data, chain);
  }
}
