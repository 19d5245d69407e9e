/** What each failure that verification lists says about the chain and the field. */
module CheckpointFailures {
  import opened Options
  import opened Order
  import opened Encoding
  import opened FieldLines
  import opened FieldTree
  import opened Checkpoints

  lemma AtMeans(v: Env, chain: seq<Checkpoint>, n: nat, i: nat)
    requires n < |chain|
    ensures var cp, fs := chain[n], StructureAt(v, chain, n);
      && (Start(i) in fs <==> i == n && cp.start != (if i == 0 then 0 else chain[i - 1].end))
      && (PrevLink(i) in fs <==> i == n && cp.prev != (if i == 0 then None else chain[i - 1].sha))
      && (WrongAddress(i) in fs <==> i == n && cp.sha != Some(HexDigest(v.h, v.canonical(cp.(sha := None)))))
      && (Counts(i) in fs <==> i == n && cp.cold + cp.hot != cp.end - cp.start)
      && forall f :: f in fs ==> f.Start? || f.PrevLink? || f.WrongAddress? || f.Counts?
  {
    hide HexDigest; hide When; hide StructureAt;
    var cp := chain[n];
    var a, b := When(cp.start != Covered(chain[..n]), Start(n)), When(cp.prev != LastSha(chain[..n]), PrevLink(n));
    var c, d := When(cp.sha != Some(Address(v, cp)), WrongAddress(n)), When(cp.cold + cp.hot != cp.end - cp.start, Counts(n));
    StructureIs(v, chain, n, a, b, c, d);
    forall f ensures f in StructureAt(v, chain, n) <==> f in a || f in b || f in c || f in d { InFour(a, b, c, d, f); }
    forall found, f, g ensures g in When(found, f) <==> found && g == f { OneWhen(found, f, g); }
  }

  lemma StructureIs(v: Env, chain: seq<Checkpoint>, n: nat, a: seq<Failure>, b: seq<Failure>, c: seq<Failure>, d: seq<Failure>)
    requires n < |chain|
    requires var cp := chain[n];
      && a == When(cp.start != Covered(chain[..n]), Start(n)) && b == When(cp.prev != LastSha(chain[..n]), PrevLink(n))
      && c == When(cp.sha != Some(Address(v, cp)), WrongAddress(n)) && d == When(cp.cold + cp.hot != cp.end - cp.start, Counts(n))
    ensures StructureAt(v, chain, n) == a + b + c + d
  {
    hide When; hide Address; hide Covered; hide LastSha;
  }

  lemma InFour<T>(a: seq<T>, b: seq<T>, c: seq<T>, d: seq<T>, x: T)
    ensures x in a + b + c + d <==> x in a || x in b || x in c || x in d
  {}

  lemma OneWhen(found: bool, f: Failure, g: Failure)
    ensures g in When(found, f) <==> found && g == f
  {}

  /** Checkpoint `i` is reported for its start, its link, its address or its counts exactly when that is wrong. */
  predicate StructureReported(v: Env, chain: seq<Checkpoint>, fs: seq<Failure>, i: nat, n: nat)
    requires n <= |chain|
  {
    && (Start(i) in fs <==> i < n && chain[i].start != (if i == 0 then 0 else chain[i - 1].end))
    && (PrevLink(i) in fs <==> i < n && chain[i].prev != (if i == 0 then None else chain[i - 1].sha))
    && (WrongAddress(i) in fs <==> i < n && chain[i].sha != Some(HexDigest(v.h, v.canonical(chain[i].(sha := None)))))
    && (Counts(i) in fs <==> i < n && chain[i].cold + chain[i].hot != chain[i].end - chain[i].start)
  }

  lemma {:induction false} StructureMeans(v: Env, chain: seq<Checkpoint>, n: nat, i: nat)
    requires n <= |chain|
    ensures StructureReported(v, chain, StructureFailures(v, chain, n), i, n)
    ensures forall f :: f in StructureFailures(v, chain, n) ==> f.Start? || f.PrevLink? || f.WrongAddress? || f.Counts?
  {
    hide HexDigest; hide StructureAt;
    if n > 0 {
      StructureMeans(v, chain, n - 1, i);
      AtMeans(v, chain, n - 1, i);
    }
  }

  /** A record is hot in checkpoint `i` that an earlier one has cold. */
  predicate HotAgain(chain: seq<Checkpoint>, i: nat)
    requires i < |chain|
  {
    exists x :: x in chain[i].hotIds && exists j :: 0 <= j < i && x in chain[j].coldIds
  }

  lemma EverColdMeans(chain: seq<Checkpoint>, i: nat, x: Id)
    requires i <= |chain|
    ensures x in EverCold(chain[..i]) <==> exists j :: 0 <= j < i && x in chain[j].coldIds
  {
    if x in EverCold(chain[..i]) {
      var cp :| cp in chain[..i] && x in cp.coldIds;
      var j :| 0 <= j < i && chain[j] == cp;
    }
    if j :| 0 <= j < i && x in chain[j].coldIds { assert chain[j] in chain[..i]; }
  }

  lemma HotAgainIff(chain: seq<Checkpoint>, i: nat)
    requires i < |chain|
    ensures Resurfaces(chain, i) <==> HotAgain(chain, i)
  {
    hide EverCold;
    forall x ensures x in EverCold(chain[..i]) <==> exists j :: 0 <= j < i && x in chain[j].coldIds { EverColdMeans(chain, i, x); }
  }

  lemma {:induction false} ColdMeans(chain: seq<Checkpoint>, n: nat, i: nat)
    requires n <= |chain|
    ensures Resurfaced(i) in ColdFailures(chain, n) <==> i < n && HotAgain(chain, i)
    ensures forall f :: f in ColdFailures(chain, n) ==> f.Resurfaced?
  {
    hide Resurfaces; hide HotAgain;
    if n > 0 {
      ColdMeans(chain, n - 1, i);
      HotAgainIff(chain, n - 1);
    }
  }

  /** The lines of the range do not have the digest, or not the tree root, that the checkpoint names. */
  predicate RangeDiffers(v: Env, lines: seq<Bytes>, cp: Checkpoint) {
    var range := Slice(lines, cp.start, cp.end);
    HexDigest(v.h, Joined(range)) != cp.rangeSha || TreeRoot(v.h, LineDigests(v.h, range)) != cp.merkle
  }

  lemma RangeDiffersIff(v: Env, lines: seq<Bytes>, cp: Checkpoint)
    ensures RangeDiffers(v, lines, cp) <==> !Authentic(v, lines, cp)
  {
    hide HexDigest; hide TreeRoot; hide LineDigests; hide Slice; hide Joined;
  }

  lemma {:induction false} RangeMeans(v: Env, lines: seq<Bytes>, chain: seq<Checkpoint>, n: nat, i: nat)
    requires n <= |chain|
    ensures Range(i) in RangeFailures(v, lines, chain, n) <==> i < n && RangeDiffers(v, lines, chain[i])
    ensures forall f :: f in RangeFailures(v, lines, chain, n) ==> f.Range?
  {
    hide Authentic; hide RangeDiffers;
    if n > 0 {
      RangeMeans(v, lines, chain, n - 1, i);
      RangeDiffersIff(v, lines, chain[n - 1]);
    }
  }

  lemma {:induction false} PayloadsMean(v: Env, arts: seq<Artifact>, x: Id)
    ensures Payload(x) in PayloadFailures(v, arts) <==> exists i :: 0 <= i < |arts| && arts[i].id == x && !Intact(v, arts[i])
    ensures forall f :: f in PayloadFailures(v, arts) ==> f.Payload?
  {
    hide Intact;
    if arts != [] {
      PayloadsMean(v, arts[1..], x);
      if i :| 0 <= i < |arts| && arts[i].id == x && !Intact(v, arts[i]) {
        if i > 0 { assert arts[1..][i - 1] == arts[i]; }
      }
    }
  }

  lemma {:induction false} CoveredEndMeans(chain: seq<Checkpoint>, n: nat, i: nat)
    requires n <= |chain|
    ensures CoveredEnd(chain, n) <= i <==> forall j :: 0 <= j < n ==> chain[j].end <= i
  {
    if n > 0 { CoveredEndMeans(chain, n - 1, i); }
  }

  /** The artifact loaded as number `i` lies behind every checkpoint and does not have the payload that its
      digest names. */
  predicate BadTail(v: Env, f: Field, chain: seq<Checkpoint>, i: nat)
    requires ValidField(f) && i < |f.order|
  {
    var a := f.artifacts[f.order[i]];
    (forall j :: 0 <= j < |chain| ==> chain[j].end <= i) && HexDigest(v.h, a.payload) != a.payloadSha
  }

  lemma TailMeans(v: Env, f: Field, chain: seq<Checkpoint>, x: Id)
    requires ValidField(f)
    ensures Payload(x) in PayloadFailures(v, TailOf(f, chain))
       <==> exists i: nat :: i < |f.order| && f.artifacts[f.order[i]].id == x && BadTail(v, f, chain, i)
  {
    hide CoveredEnd; hide HexDigest;
    var arts, end := TailOf(f, chain), CoveredEnd(chain, |chain|);
    PayloadsMean(v, arts, x);
    hide PayloadFailures;
    if i :| 0 <= i < |arts| && arts[i].id == x && !Intact(v, arts[i]) {
      CoveredEndMeans(chain, |chain|, end + i);
      assert BadTail(v, f, chain, end + i);
    }
    if i: nat :| i < |f.order| && f.artifacts[f.order[i]].id == x && BadTail(v, f, chain, i) {
      CoveredEndMeans(chain, |chain|, i);
      assert arts[i - end] == f.artifacts[f.order[i]];
    }
  }

  lemma StructureListed(v: Env, f: Field, chain: seq<Checkpoint>, i: nat)
    requires ValidField(f)
    ensures StructureReported(v, chain, Failures(v, f, chain), i, |chain|)
  {
    var n, lines := |chain|, RawLines(f.data);
    StructureMeans(v, chain, n, i);
    ColdMeans(chain, n, i);
    RangeMeans(v, lines, chain, n, i);
    PayloadsMean(v, TailOf(f, chain), Id(""));
    hide *;
    var a, b, c, d := StructureFailures(v, chain, n), ColdFailures(chain, n), RangeFailures(v, lines, chain, n), PayloadFailures(v, TailOf(f, chain));
    FailuresAre(v, f, chain, a, b, c, d);
    InFour(a, b, c, d, Start(i));
    InFour(a, b, c, d, PrevLink(i));
    InFour(a, b, c, d, WrongAddress(i));
    InFour(a, b, c, d, Counts(i));
    SameReported(v, chain, a, Failures(v, f, chain), i, n);
  }

  lemma RestListed(v: Env, f: Field, chain: seq<Checkpoint>, i: nat, x: Id)
    requires ValidField(f)
    ensures var fs, lines := Failures(v, f, chain), RawLines(f.data);
      && (Resurfaced(i) in fs <==> Resurfaced(i) in ColdFailures(chain, |chain|))
      && (Range(i) in fs <==> Range(i) in RangeFailures(v, lines, chain, |chain|))
      && (Payload(x) in fs <==> Payload(x) in PayloadFailures(v, TailOf(f, chain)))
  {
    var n, lines := |chain|, RawLines(f.data);
    StructureMeans(v, chain, n, i);
    ColdMeans(chain, n, i);
    RangeMeans(v, lines, chain, n, i);
    PayloadsMean(v, TailOf(f, chain), x);
    hide *;
    var a, b, c, d := StructureFailures(v, chain, n), ColdFailures(chain, n), RangeFailures(v, lines, chain, n), PayloadFailures(v, TailOf(f, chain));
    FailuresAre(v, f, chain, a, b, c, d);
    InFour(a, b, c, d, Resurfaced(i));
    InFour(a, b, c, d, Range(i));
    InFour(a, b, c, d, Payload(x));
  }

  /** Every failure that verification lists, and when: a checkpoint that does not start where the one before
      ends, does not name it, has another address than its content, does not count its range, has a record
      hot again, or does not match the lines; and an artifact behind all of them with another payload. */
  lemma FailuresMean(v: Env, f: Field, chain: seq<Checkpoint>, i: nat, x: Id)
    requires ValidField(f)
    ensures var fs, lines := Failures(v, f, chain), RawLines(f.data);
      && StructureReported(v, chain, fs, i, |chain|)
      && (Resurfaced(i) in fs <==> i < |chain| && HotAgain(chain, i))
      && (Range(i) in fs <==> i < |chain| && RangeDiffers(v, lines, chain[i]))
      && (Payload(x) in fs <==> exists j: nat :: j < |f.order| && f.artifacts[f.order[j]].id == x && BadTail(v, f, chain, j))
  {
    StructureListed(v, f, chain, i);
    RestListed(v, f, chain, i, x);
    ColdMeans(chain, |chain|, i);
    RangeMeans(v, RawLines(f.data), chain, |chain|, i);
    TailMeans(v, f, chain, x);
    hide *;
  }

  lemma FailuresAre(v: Env, f: Field, chain: seq<Checkpoint>, a: seq<Failure>, b: seq<Failure>, c: seq<Failure>, d: seq<Failure>)
    requires ValidField(f) && a == StructureFailures(v, chain, |chain|) && b == ColdFailures(chain, |chain|)
    requires c == RangeFailures(v, RawLines(f.data), chain, |chain|) && d == PayloadFailures(v, TailOf(f, chain))
    ensures Failures(v, f, chain) == a + b + c + d
  {
    hide StructureFailures; hide ColdFailures; hide RangeFailures; hide PayloadFailures; hide TailOf; hide RawLines;
  }

  lemma SameReported(v: Env, chain: seq<Checkpoint>, a: seq<Failure>, fs: seq<Failure>, i: nat, n: nat)
    requires n <= |chain| && StructureReported(v, chain, a, i, n)
    requires (Start(i) in a <==> Start(i) in fs) && (PrevLink(i) in a <==> PrevLink(i) in fs)
    requires (WrongAddress(i) in a <==> WrongAddress(i) in fs) && (Counts(i) in a <==> Counts(i) in fs)
    ensures StructureReported(v, chain, fs, i, n)
  {
    hide HexDigest;
  }
}
