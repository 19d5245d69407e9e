/** The authenticators of a range of field lines: the digest of the lines read as one text, and the
    pairwise tree over the lines' digests that repeats the last node of an odd level. */
module FieldTree {
  import opened Encoding
  import opened FieldLines
  import Blocks

  // ----- the tree

  /** An odd level ends in its last node once more. */
  function Padded(level: seq<Bytes>): (r: seq<Bytes>)
    ensures |r| % 2 == 0 && |level| <= |r| <= |level| + 1
  {
    if |level| % 2 == 1 then level + [level[|level| - 1]] else level
  }

  function NextLevel(h: Bytes -> Bytes, level: seq<Bytes>): (r: seq<Bytes>)
    ensures |r| == (|level| + 1) / 2
  {
    var p := Padded(level);
    seq(|p| / 2, i requires 0 <= i < |p| / 2 => HexDigest(h, p[2 * i] + p[2 * i + 1]))
  }

  function TreeRoot(h: Bytes -> Bytes, leaves: seq<Bytes>): Bytes
    decreases |leaves|
  {
    if leaves == [] then HexDigest(h, [])
    else if |leaves| == 1 then leaves[0]
    else TreeRoot(h, NextLevel(h, leaves))
  }

  /** `_merkle_root` */
  method MerkleRoot(h: Bytes -> Bytes, leaves: seq<Bytes>) returns (root: Bytes)
    ensures root == TreeRoot(h, leaves)
  {
    if leaves == [] {
      return HexDigest(h, []);
    }
    hide HexDigest; hide TreeRoot; hide NextLevel;
    var level := leaves;
    while |level| > 1
      invariant |level| > 0 && TreeRoot(h, level) == TreeRoot(h, leaves)
      decreases |level|
    {
      RootOfNext(h, level);
      level := LevelAbove(h, level);
    }
    RootOfOne(h, level);
    root := level[0];
  }

  /** One round: the last node again on an odd level, then the pairs. */
  method LevelAbove(h: Bytes -> Bytes, nodes: seq<Bytes>) returns (next: seq<Bytes>)
    ensures next == NextLevel(h, nodes)
  {
    hide HexDigest;
    var level := nodes;
    if |level| % 2 == 1 {
      level := level + [level[|level| - 1]];
    }
    next := [];
    for i := 0 to |level| / 2
      invariant |next| == i && forall j :: 0 <= j < i ==> next[j] == HexDigest(h, level[2 * j] + level[2 * j + 1])
    {
      next := next + [HexDigest(h, level[2 * i] + level[2 * i + 1])];
    }
  }

  lemma RootOfNext(h: Bytes -> Bytes, level: seq<Bytes>)
    requires |level| > 1
    ensures TreeRoot(h, level) == TreeRoot(h, NextLevel(h, level))
  {}

  lemma RootOfOne(h: Bytes -> Bytes, level: seq<Bytes>)
    requires |level| == 1
    ensures TreeRoot(h, level) == level[0]
  {}

  /** Every pair of nodes hashed on the way to the root. */
  function PairTexts(h: Bytes -> Bytes, leaves: seq<Bytes>): set<Bytes>
    decreases |leaves|
  {
    if |leaves| <= 1 then {}
    else
      var p := Padded(leaves);
      (set i | 0 <= i < |p| / 2 :: p[2 * i] + p[2 * i + 1]) + PairTexts(h, NextLevel(h, leaves))
  }

  predicate Nodes(level: seq<Bytes>) {
    forall i :: 0 <= i < |level| ==> |level[i]| == 64
  }

  lemma NextNodes(h: Bytes -> Bytes, level: seq<Bytes>)
    requires Digests(h)
    ensures Nodes(NextLevel(h, level))
  {
    var p := Padded(level);
    forall i | 0 <= i < |p| / 2 ensures |NextLevel(h, level)[i]| == 64 {
      assert NextLevel(h, level)[i] == HexDigest(h, p[2 * i] + p[2 * i + 1]);
    }
  }

  lemma LevelFixed(h: Bytes -> Bytes, a: seq<Bytes>, b: seq<Bytes>, texts: set<Bytes>)
    requires Nodes(a) && Nodes(b) && |a| == |b| > 1 && NextLevel(h, a) == NextLevel(h, b)
    requires NoCollision(h, texts) && PairTexts(h, a) <= texts && PairTexts(h, b) <= texts
    ensures a == b
  {
    hide HexDigest; hide NoCollision; hide NextLevel; hide PairTexts;
    forall k | 0 <= k < |a|
      ensures a[k] == b[k]
    {
      var i := k / 2;
      assert k == 2 * i || k == 2 * i + 1;
      PairFixed(h, a, b, texts, i);
    }
  }

  lemma PairFixed(h: Bytes -> Bytes, a: seq<Bytes>, b: seq<Bytes>, texts: set<Bytes>, i: nat)
    requires Nodes(a) && Nodes(b) && |a| == |b| > 1 && NextLevel(h, a) == NextLevel(h, b) && 2 * i < |Padded(a)|
    requires NoCollision(h, texts) && PairTexts(h, a) <= texts && PairTexts(h, b) <= texts
    ensures |Padded(a)| == |Padded(b)| && Padded(a)[2 * i] == Padded(b)[2 * i] && Padded(a)[2 * i + 1] == Padded(b)[2 * i + 1]
  {
    hide HexDigest; hide NoCollision; hide PairTexts; hide NextLevel; hide Padded;
    var p, q := Padded(a), Padded(b);
    NextLevelAt(h, a, i);
    NextLevelAt(h, b, i);
    PairTextsHold(h, a, i);
    PairTextsHold(h, b, i);
    HexDigestFixes(h, texts, p[2 * i] + p[2 * i + 1], q[2 * i] + q[2 * i + 1]);
    PaddedNodes(a);
    PaddedNodes(b);
    HalvesFixed(p[2 * i], p[2 * i + 1], q[2 * i], q[2 * i + 1]);
  }

  lemma PaddedNodes(level: seq<Bytes>)
    requires Nodes(level)
    ensures Nodes(Padded(level))
  {}

  lemma NextLevelAt(h: Bytes -> Bytes, level: seq<Bytes>, i: nat)
    requires 2 * i < |Padded(level)|
    ensures |Padded(level)| / 2 == |NextLevel(h, level)| && i < |NextLevel(h, level)|
    ensures NextLevel(h, level)[i] == HexDigest(h, Padded(level)[2 * i] + Padded(level)[2 * i + 1])
  {
    hide HexDigest;
  }

  lemma PairTextsHold(h: Bytes -> Bytes, level: seq<Bytes>, i: nat)
    requires |level| > 1 && 2 * i < |Padded(level)|
    ensures Padded(level)[2 * i] + Padded(level)[2 * i + 1] in PairTexts(h, level)
  {
    hide NextLevel;
    var p := Padded(level);
    assert 0 <= i < |p| / 2;
  }

  lemma HalvesFixed(a: Bytes, b: Bytes, c: Bytes, d: Bytes)
    requires |a| == |c| && a + b == c + d
    ensures a == c && b == d
  {
    assert a == (a + b)[..|a|] && c == (c + d)[..|c|] && b == (a + b)[|a|..] && d == (c + d)[|c|..];
  }

  /** Equal roots over equally many leaves come from equal leaves, repeated nodes or not. */
  lemma {:induction false} RootFixesLeaves(h: Bytes -> Bytes, a: seq<Bytes>, b: seq<Bytes>)
    requires Digests(h) && Nodes(a) && Nodes(b) && |a| == |b|
    requires NoCollision(h, PairTexts(h, a) + PairTexts(h, b)) && TreeRoot(h, a) == TreeRoot(h, b)
    ensures a == b
    decreases |a|
  {
    if |a| > 1 {
      NextNodes(h, a);
      NextNodes(h, b);
      RootFixesLeaves(h, NextLevel(h, a), NextLevel(h, b));
      LevelFixed(h, a, b, PairTexts(h, a) + PairTexts(h, b));
    }
  }

  /** Equal length is needed: any odd list of several leaves shares its root with the list that has its
      last leaf once more. */
  lemma OddListCollides(h: Bytes -> Bytes, leaves: seq<Bytes>)
    requires |leaves| % 2 == 1 && |leaves| > 1
    ensures var longer := leaves + [leaves[|leaves| - 1]]; longer != leaves && TreeRoot(h, leaves) == TreeRoot(h, longer)
  {
    hide HexDigest;
    var longer := leaves + [leaves[|leaves| - 1]];
    assert |longer| != |leaves|;
    assert Padded(leaves) == longer == Padded(longer);
    assert NextLevel(h, leaves) == NextLevel(h, longer);
  }

  lemma NextOfHalvesAt(h: Bytes -> Bytes, a: seq<Bytes>, b: seq<Bytes>, i: nat)
    requires |a| % 2 == 0 && i < |NextLevel(h, a + b)|
    ensures NextLevel(h, a + b)[i] == (NextLevel(h, a) + NextLevel(h, b))[i]
  {
    PaddedHalves(a, b);
    hide HexDigest; hide NextLevel; hide Padded;
    NextLevelAt(h, a + b, i);
    if i < |NextLevel(h, a)| { NextLevelAt(h, a, i); } else { NextLevelAt(h, b, i - |NextLevel(h, a)|); }
  }

  lemma NextOfHalves(h: Bytes -> Bytes, a: seq<Bytes>, b: seq<Bytes>)
    requires |a| % 2 == 0
    ensures NextLevel(h, a + b) == NextLevel(h, a) + NextLevel(h, b)
  {
    hide NextLevel;
    forall i: nat | i < |NextLevel(h, a + b)| ensures NextLevel(h, a + b)[i] == (NextLevel(h, a) + NextLevel(h, b))[i] {
      NextOfHalvesAt(h, a, b, i);
    }
  }

  lemma PaddedHalves(a: seq<Bytes>, b: seq<Bytes>)
    requires |a| % 2 == 0
    ensures Padded(a + b) == a + Padded(b) && Padded(a) == a
  {}

  /** The root over two equally long halves, of a power of two of leaves each, is the digest of the two roots,
      the left one first. */
  lemma {:induction false} RootOfHalves(h: Bytes -> Bytes, a: seq<Bytes>, b: seq<Bytes>)
    requires |a| == |b| && Blocks.PowerOfTwo(|a|)
    ensures TreeRoot(h, a + b) == HexDigest(h, TreeRoot(h, a) + TreeRoot(h, b))
    decreases |a|
  {
    hide HexDigest;
    if |a| == 1 {
      assert NextLevel(h, a + b) == [HexDigest(h, a[0] + b[0])];
    } else {
      NextOfHalves(h, a, b);
      RootOfHalves(h, NextLevel(h, a), NextLevel(h, b));
    }
  }

  // ----- the authenticators of a range

  function LineDigests(h: Bytes -> Bytes, ls: seq<Bytes>): (r: seq<Bytes>)
    ensures |r| == |ls|
  {
    seq(|ls|, i requires 0 <= i < |ls| => HexDigest(h, ls[i]))
  }

  datatype Authenticators = Authenticators(rangeSha: Bytes, merkle: Bytes)

  /** Both authenticators of a range. */
  function RangeOf(h: Bytes -> Bytes, ls: seq<Bytes>, start: nat, end: nat): Authenticators {
    var range := Slice(ls, start, end);
    Authenticators(HexDigest(h, Joined(range)), TreeRoot(h, LineDigests(h, range)))
  }

  /** `_range_authenticators`: one pass over the lines of the range. */
  method RangeAuthenticators(h: Bytes -> Bytes, ls: seq<Bytes>, start: nat, end: nat) returns (r: Authenticators)
    ensures r == RangeOf(h, ls, start, end)
  {
    var range := Slice(ls, start, end);
    var text: Bytes := [];
    var leaves: seq<Bytes> := [];
    for i := 0 to |range|
      invariant text == Joined(range[..i])
      invariant |leaves| == i && forall j :: 0 <= j < i ==> leaves[j] == HexDigest(h, range[j])
    {
      JoinedSnoc(range[..i], range[i]);
      assert range[..i + 1] == range[..i] + [range[i]];
      text := text + range[i];
      leaves := leaves + [HexDigest(h, range[i])];
    }
    assert range[..|range|] == range;
    assert leaves == LineDigests(h, range);
    var root := MerkleRoot(h, leaves);
    r := Authenticators(HexDigest(h, text), root);
  }

  lemma DigestNodes(h: Bytes -> Bytes, ls: seq<Bytes>)
    requires Digests(h)
    ensures Nodes(LineDigests(h, ls))
  {}

  /** For equally many lines the tree alone tells them, whatever the lines are. */
  lemma MerkleFixesLines(h: Bytes -> Bytes, a: seq<Bytes>, b: seq<Bytes>)
    requires Digests(h) && |a| == |b| && TreeRoot(h, LineDigests(h, a)) == TreeRoot(h, LineDigests(h, b))
    requires NoCollision(h, PairTexts(h, LineDigests(h, a)) + PairTexts(h, LineDigests(h, b)))
    requires NoCollision(h, (set l | l in a) + (set l | l in b))
    ensures a == b
  {
    DigestNodes(h, a);
    DigestNodes(h, b);
    RootFixesLeaves(h, LineDigests(h, a), LineDigests(h, b));
    forall i | 0 <= i < |a|
      ensures a[i] == b[i]
    {
      assert LineDigests(h, a)[i] == HexDigest(h, a[i]) && LineDigests(h, b)[i] == HexDigest(h, b[i]);
      HexDigestFixes(h, (set l | l in a) + (set l | l in b), a[i], b[i]);
    }
  }
}
