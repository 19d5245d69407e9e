/** The append-only field and its checkpoint chain as objects. */
module AmulField {
  import opened Options
  import opened Order
  import opened Encoding
  import opened FieldLines
  import opened FieldTree
  import opened Checkpoints

  /** What the loader gets from the texts of a file's lines: the first one that does not parse ends it. */
  function Parsed(parse: Bytes -> Option<Artifact>, texts: seq<Bytes>): seq<Artifact> {
    if texts == [] || parse(texts[0]).None? then [] else [parse(texts[0]).value] + Parsed(parse, texts[1..])
  }

  function ById(arts: seq<Artifact>): map<Id, Artifact> {
    if arts == [] then map[] else ById(Init(arts))[Last(arts).id := Last(arts)]
  }

  function IdsOf(arts: seq<Artifact>): seq<Id> {
    seq(|arts|, i requires 0 <= i < |arts| => arts[i].id)
  }

  /** `_ensure_loaded` */
  function Loaded(parse: Bytes -> Option<Artifact>, data: Bytes, texts: seq<Bytes>): Field {
    var arts := Parsed(parse, texts);
    Field(data, ById(arts), IdsOf(arts))
  }

  lemma {:induction false} ByIdHolds(arts: seq<Artifact>)
    ensures forall a :: a in arts ==> a.id in ById(arts)
  {
    if arts != [] {
      ByIdHolds(Init(arts));
      assert arts == Init(arts) + [Last(arts)];
    }
  }

  /** One more text that parses is one more artifact; one that does not is the end, whatever follows. */
  lemma {:induction false} ParsedNext(parse: Bytes -> Option<Artifact>, texts: seq<Bytes>, i: nat)
    requires i < |texts| && |Parsed(parse, texts[..i])| == i
    ensures parse(texts[i]).Some? ==> Parsed(parse, texts[..i + 1]) == Parsed(parse, texts[..i]) + [parse(texts[i]).value]
    ensures parse(texts[i]).None? ==> Parsed(parse, texts) == Parsed(parse, texts[..i])
  {
    if i > 0 {
      assert texts[..i][1..] == texts[1..][..i - 1] && texts[..i + 1][1..] == texts[1..][..i];
      ParsedNext(parse, texts[1..], i - 1);
    } else {
      assert texts[..1] == [texts[0]];
    }
  }

  lemma LoadedNext(parse: Bytes -> Option<Artifact>, data: Bytes, texts: seq<Bytes>, i: nat)
    requires i < |texts| && |Parsed(parse, texts[..i])| == i && parse(texts[i]).Some?
    ensures var a, f := parse(texts[i]).value, Loaded(parse, data, texts[..i]);
      Loaded(parse, data, texts[..i + 1]) == Field(data, f.artifacts[a.id := a], f.order + [a.id])
  {
    ParsedNext(parse, texts, i);
    var arts := Parsed(parse, texts[..i]);
    assert Init(arts + [parse(texts[i]).value]) == arts;
  }

  /** Text `i` is loaded, and no later loaded one has its id. */
  predicate LastLoaded(parse: Bytes -> Option<Artifact>, texts: seq<Bytes>, n: nat, i: nat, x: Id)
    requires n <= |texts|
  {
    i < n && parse(texts[i]).Some? && parse(texts[i]).value.id == x
    && forall j :: i < j < n ==> parse(texts[j]).Some? ==> parse(texts[j]).value.id != x
  }

  lemma {:induction false} ParsedAre(parse: Bytes -> Option<Artifact>, texts: seq<Bytes>)
    ensures var n := |Parsed(parse, texts)|;
      && n <= |texts| && (n < |texts| ==> parse(texts[n]).None?)
      && forall i :: 0 <= i < n ==> parse(texts[i]) == Some(Parsed(parse, texts)[i])
  {
    if texts != [] && parse(texts[0]).Some? { ParsedAre(parse, texts[1..]); }
  }

  lemma {:induction false} ByIdIsLast(arts: seq<Artifact>, i: nat)
    requires i < |arts| && forall j :: i < j < |arts| ==> arts[j].id != arts[i].id
    ensures arts[i].id in ById(arts) && ById(arts)[arts[i].id] == arts[i]
  {
    if i < |arts| - 1 { ByIdIsLast(arts[..|arts| - 1], i); }
  }

  /** The texts are loaded in order up to the first that does not parse; by an id the last one with it is found. */
  lemma LoadedMeans(parse: Bytes -> Option<Artifact>, data: Bytes, texts: seq<Bytes>, i: nat)
    ensures var f := Loaded(parse, data, texts); var n := |f.order|;
      && f.data == data && n <= |texts| && (n < |texts| ==> parse(texts[n]).None?)
      && (i < n ==> parse(texts[i]).Some? && f.order[i] == parse(texts[i]).value.id)
      && (i < n && LastLoaded(parse, texts, n, i, f.order[i]) ==> f.order[i] in f.artifacts && f.artifacts[f.order[i]] == parse(texts[i]).value)
  {
    hide ById; hide Parsed;
    ParsedAre(parse, texts);
    var f, arts := Loaded(parse, data, texts), Parsed(parse, texts);
    if i < |arts| && LastLoaded(parse, texts, |arts|, i, arts[i].id) {
      forall j | i < j < |arts| ensures arts[j].id != arts[i].id { assert parse(texts[j]) == Some(arts[j]); }
      ByIdIsLast(arts, i);
    }
  }

  lemma LoadedNone(parse: Bytes -> Option<Artifact>, data: Bytes, texts: seq<Bytes>)
    requires texts == []
    ensures Loaded(parse, data, texts) == Field(data, map[], []) && |Parsed(parse, texts)| == 0
  {}

  lemma LoadedValid(parse: Bytes -> Option<Artifact>, data: Bytes, texts: seq<Bytes>)
    ensures ValidField(Loaded(parse, data, texts))
  {
    ByIdHolds(Parsed(parse, texts));
    hide ById; hide Parsed;
    var arts := Parsed(parse, texts);
    forall x | x in IdsOf(arts) ensures x in ById(arts) {
      var i :| 0 <= i < |arts| && arts[i].id == x;
      assert arts[i] in arts;
    }
  }

  lemma LoadedLength(parse: Bytes -> Option<Artifact>, texts: seq<Bytes>, i: nat)
    requires i < |texts| && |Parsed(parse, texts[..i])| == i && parse(texts[i]).Some?
    ensures |Parsed(parse, texts[..i + 1])| == i + 1
  {
    ParsedNext(parse, texts, i);
  }

  /** Nothing is loaded behind a text that does not parse. */
  lemma LoadedEnds(parse: Bytes -> Option<Artifact>, data: Bytes, texts: seq<Bytes>, i: nat)
    requires i <= |texts| && |Parsed(parse, texts[..i])| == i && (i < |texts| ==> parse(texts[i]).None?)
    ensures Loaded(parse, data, texts[..i]) == Loaded(parse, data, texts)
  {
    hide Parsed; hide ById;
    if i < |texts| { ParsedNext(parse, texts, i); } else { assert texts[..i] == texts; }
  }

  lemma PayloadNext(v: Env, arts: seq<Artifact>, i: nat)
    requires i < |arts|
    ensures PayloadFailures(v, arts[i..]) == (if Intact(v, arts[i]) then [] else [Payload(arts[i].id)]) + PayloadFailures(v, arts[i + 1..])
  {
    hide Intact;
    assert arts[i..][1..] == arts[i + 1..];
  }

  lemma PayloadNone(v: Env, arts: seq<Artifact>)
    requires arts == []
    ensures PayloadFailures(v, arts) == []
  {}

  /** `AmulField`: the file's bytes, the artifacts by id, and the order of their ids. */
  class FieldStore {
    const v: Env
    var data: Bytes
    var artifacts: map<Id, Artifact>
    var order: seq<Id>

    ghost function View(): Field
      reads this
    {
      Field(data, artifacts, order)
    }

    ghost predicate Valid()
      reads this
    {
      ValidField(View())
    }

    /** Opens a file, empty or not, and loads what can be loaded. */
    constructor (v: Env, data: Bytes, parse: Bytes -> Option<Artifact>, texts: seq<Bytes>)
      ensures this.v == v && Valid() && View() == Loaded(parse, data, texts)
    {
      this.v, this.data := v, data;
      artifacts, order := map[], [];
      new;
      hide Loaded; hide Parsed; hide ValidField;
      var i := 0;
      LoadedNone(parse, data, texts[..0]);
      while i < |texts| && parse(texts[i]).Some?
        invariant i <= |texts| && |Parsed(parse, texts[..i])| == i && this.v == v && this.data == data && View() == Loaded(parse, data, texts[..i])
      {
        LoadedNext(parse, data, texts, i);
        LoadedLength(parse, texts, i);
        var art := parse(texts[i]).value;
        artifacts := artifacts[art.id := art];
        order := order + [art.id];
        i := i + 1;
      }
      LoadedEnds(parse, data, texts, i);
      LoadedValid(parse, data, texts);
    }

    /** `append`: the existing bytes are never touched. */
    method Append(a: Artifact)
      requires Valid()
      modifies this
      ensures Valid() && View() == Appended(v, old(View()), a)
    {
      data := data + v.line(a);
      artifacts := artifacts[a.id := a];
      order := order + [a.id];
    }

    /** `all`: the artifacts in the order of their lines. */
    method ReadAll() returns (r: seq<Artifact>)
      requires Valid()
      ensures r == All(View())
    {
      r := [];
      for i := 0 to |order|
        invariant |r| == i && forall j :: 0 <= j < i ==> r[j] == artifacts[order[j]]
      {
        assert order[i] in order;
        r := r + [artifacts[order[i]]];
      }
    }

    /** `latest`: the last artifact of a record in one resolution. */
    method Latest(ledger: Id, resolution: Id) returns (r: Option<Artifact>)
      requires Valid()
      ensures r.None? ==> NoneFrom(All(View()), ledger, resolution, 0)
      ensures r.Some? ==> exists i: nat :: LastAt(All(View()), ledger, resolution, i, r.value)
    {
      var all := ReadAll();
      r := None;
      for i := 0 to |all|
        invariant r.None? ==> NoneFrom(all[..i], ledger, resolution, 0)
        invariant r.Some? ==> exists k: nat :: LastAt(all[..i], ledger, resolution, k, r.value)
      {
        ghost var found := r;
        assert all[..i + 1] == all[..i] + [all[i]];
        if all[i].ledger == ledger && all[i].resolution == resolution {
          r := Some(all[i]);
          assert LastAt(all[..i + 1], ledger, resolution, i, all[i]);
        } else if found.Some? {
          ghost var k: nat :| LastAt(all[..i], ledger, resolution, k, found.value);
          assert LastAt(all[..i + 1], ledger, resolution, k, found.value);
        }
      }
      assert all[..|all|] == all;
    }
  }

  predicate NoneFrom(all: seq<Artifact>, ledger: Id, resolution: Id, n: nat) {
    forall j :: n <= j < |all| ==> !(all[j].ledger == ledger && all[j].resolution == resolution)
  }

  predicate LastAt(all: seq<Artifact>, ledger: Id, resolution: Id, i: nat, a: Artifact) {
    i < |all| && all[i] == a && a.ledger == ledger && a.resolution == resolution && NoneFrom(all, ledger, resolution, i + 1)
  }

  /** The checkpoint file that belongs to a field. */
  class CheckpointFile {
    var chain: seq<Checkpoint>

    constructor ()
      ensures chain == []
    {
      chain := [];
    }

    /** `compact`: seals the lines behind the last checkpoint; a refusal leaves the chain as it is. */
    method CompactField(field: FieldStore, hot: set<Id>, created: Bytes, actor: Bytes) returns (o: Outcome)
      requires field.Valid()
      modifies this
      ensures o == Compact(field.v, field.View(), old(chain), hot, created, actor)
      ensures chain == if o.Compacted? then old(chain) + [o.cp] else old(chain)
    {
      hide RangeOf; hide Address; hide CountIn;
      var covered := Covered(chain);
      var lines := RawLines(field.data);
      var total := |lines|;
      if total <= covered {
        return NothingNew;
      }
      var priorCold := PriorCold();
      if priorCold * hot != {} {
        return DeadStaysDead;
      }
      var all := field.ReadAll();
      var range := Slice(all, covered, total);
      var cold, warm := ColdIds(range, hot), LedgerIds(range, hot);
      var authenticators := RangeAuthenticators(field.v.h, lines, covered, total);
      var cp := Checkpoint(covered, total, authenticators.rangeSha, authenticators.merkle, CountIn(range, cold), CountIn(range, warm),
                           SortedIds(cold), SortedIds(warm), LastSha(chain), None, created, actor);
      cp := cp.(sha := Some(Address(field.v, cp)));
      chain := chain + [cp];
      return Compacted(cp);
    }

    /** Every id that some checkpoint has classified cold. */
    method PriorCold() returns (cold: set<Id>)
      ensures cold == EverCold(chain)
    {
      cold := {};
      for i := 0 to |chain|
        invariant cold == EverCold(chain[..i])
      {
        assert chain[..i + 1] == chain[..i] + [chain[i]];
        cold := cold + (set x | x in chain[i].coldIds);
      }
      assert chain[..|chain|] == chain;
    }

    /** `_verify_chain_structure` */
    method VerifyStructure(v: Env) returns (failures: seq<Failure>)
      ensures failures == StructureFailures(v, chain, |chain|)
    {
      hide Address; hide When;
      failures := [];
      var expected, prev := 0, None;
      for i := 0 to |chain|
        invariant failures == StructureFailures(v, chain, i)
        invariant expected == Covered(chain[..i]) && prev == LastSha(chain[..i])
      {
        var cp := chain[i];
        var found := When(cp.start != expected, Start(i)) + When(cp.prev != prev, PrevLink(i))
                     + When(cp.sha != Some(Address(v, cp)), WrongAddress(i)) + When(cp.cold + cp.hot != cp.end - cp.start, Counts(i));
        assert found == StructureAt(v, chain, i);
        failures := failures + found;
        expected, prev := cp.end, cp.sha;
        assert chain[..i + 1][i] == cp;
      }
    }

    /** `verify_gc`: without a chain every payload is rehashed; with one, its structure, the cold set, the
        ranges, and the payloads behind it. */
    method VerifyGc(field: FieldStore) returns (failures: seq<Failure>)
      requires field.Valid()
      ensures failures == Failures(field.v, field.View(), chain)
    {
      hide RangeOf; hide Address; hide All; hide StructureFailures; hide PayloadFailures; hide EverCold; hide ValidField;
      var v := field.v;
      failures := VerifyStructure(v);
      var dead := VerifyCold();
      var ranges, covered := VerifyRanges(v, RawLines(field.data));
      var all := field.ReadAll();
      var tail := VerifyPayloads(v, From(all, covered));
      failures := failures + dead + ranges + tail;
    }

    /** No record is hot again that an earlier checkpoint had cold. */
    method VerifyCold() returns (failures: seq<Failure>)
      ensures failures == ColdFailures(chain, |chain|)
    {
      failures := [];
      var seen: set<Id> := {};
      for i := 0 to |chain|
        invariant failures == ColdFailures(chain, i) && seen == EverCold(chain[..i])
      {
        var cp := chain[i];
        if exists x :: x in seen && x in cp.hotIds {
          failures := failures + [Resurfaced(i)];
        }
        assert chain[..i + 1] == chain[..i] + [cp];
        seen := seen + (set x | x in cp.coldIds);
      }
    }

    method VerifyRanges(v: Env, lines: seq<Bytes>) returns (failures: seq<Failure>, covered: nat)
      ensures failures == RangeFailures(v, lines, chain, |chain|) && covered == CoveredEnd(chain, |chain|)
    {
      hide RangeOf;
      failures, covered := [], 0;
      for i := 0 to |chain|
        invariant failures == RangeFailures(v, lines, chain, i) && covered == CoveredEnd(chain, i)
      {
        var cp := chain[i];
        var found := RangeAuthenticators(v.h, lines, cp.start, cp.end);
        if found.rangeSha != cp.rangeSha || found.merkle != cp.merkle {
          failures := failures + [Range(i)];
        }
        if cp.end > covered { covered := cp.end; }
      }
    }

    method VerifyPayloads(v: Env, arts: seq<Artifact>) returns (failures: seq<Failure>)
      ensures failures == PayloadFailures(v, arts)
    {
      hide Intact; hide PayloadFailures;
      failures := [];
      assert arts[0..] == arts;
      for i := 0 to |arts|
        invariant failures + PayloadFailures(v, arts[i..]) == PayloadFailures(v, arts)
      {
        PayloadNext(v, arts, i);
        if !Intact(v, arts[i]) {
          failures := failures + [Payload(arts[i].id)];
        }
      }
      PayloadNone(v, arts[|arts|..]);
    }
  }
}
