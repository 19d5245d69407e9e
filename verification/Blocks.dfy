/** Continuity Blocks: the Merkle root over a range of history entries, the block hash, and what a tip
    hash of a linked chain fixes. */
module Blocks {
  import opened Options
  import opened Encoding

  // ----- checking hexadecimal hashes

  /** `_check_hex64`.  The pattern's `$` also matches before one trailing line feed, and the
      conversion from hexadecimal skips it. */
  function Checked(s: Bytes): (r: Option<Bytes>)
    ensures r.Some? <==> Accepted(s)
    ensures r.Some? ==> |r.value| == 32
  {
    if Accepted(s) then Some(FromHex(s[..64])) else None
  }

  predicate Strict(s: Bytes) {
    |s| == 64 && HexText(s)
  }

  predicate Accepted(s: Bytes) {
    Strict(s) || (|s| == 65 && Strict(s[..64]) && s[64] == NEWLINE)
  }

  lemma CheckedInjective(s: Bytes, t: Bytes)
    requires Accepted(s) && Accepted(t)
    ensures Checked(s) == Checked(t) <==> s[..64] == t[..64]
    ensures Checked(s) == Checked(t) && |s| == |t| ==> s == t
  {
    if Checked(s) == Checked(t) {
      FromHexInjective(s[..64], t[..64]);
    }
    if |s| == |t| && s[..64] == t[..64] {
      assert s == s[..64] + s[64..] && t == t[..64] + t[64..];
    }
  }

  // ----- the tree

  predicate PowerOfTwo(k: nat) {
    k == 1 || (k > 1 && k % 2 == 0 && PowerOfTwo(k / 2))
  }

  lemma {:induction false} PowersApart(a: nat, b: nat)
    requires PowerOfTwo(a) && PowerOfTwo(b) && a < b
    ensures 2 * a <= b
  {
    if a > 1 { PowersApart(a / 2, b / 2); }
  }

  /** The largest power of two strictly below `n`. */
  ghost predicate SplitsAt(n: nat, k: nat) {
    PowerOfTwo(k) && k < n && forall j: nat :: PowerOfTwo(j) && j < n ==> j <= k
  }

  function Split(n: nat, k: nat): (r: nat)
    requires n >= 2 && PowerOfTwo(k) && k < n
    ensures SplitsAt(n, r)
    decreases n - k
  {
    if 2 * k < n then Split(n, 2 * k)
    else
      assert forall j: nat :: PowerOfTwo(j) && j < n ==> j <= k by {
        forall j: nat | PowerOfTwo(j) && j < n
          ensures j <= k
        {
          if k < j { PowersApart(k, j); }
        }
      }
      k
  }

  function LeafText(entry: Bytes): Bytes {
    [0] + entry
  }

  function NodeText(left: Bytes, right: Bytes): Bytes {
    [1] + left + right
  }

  /** The Merkle tree hash of section 2.1 of RFC 6962, over the entries themselves. */
  function TreeHash(h: Bytes -> Bytes, entries: seq<Bytes>): Bytes
    requires |entries| > 0
  {
    if |entries| == 1 then h(LeafText(entries[0]))
    else
      var k := Split(|entries|, 1);
      h(NodeText(TreeHash(h, entries[..k]), TreeHash(h, entries[k..])))
  }

  /** `_mth`: the same tree over hashes that are leaves already. */
  function TreeOver(h: Bytes -> Bytes, hashes: seq<Bytes>): Bytes
    requires |hashes| > 0
  {
    if |hashes| == 1 then hashes[0]
    else
      var k := Split(|hashes|, 1);
      h(NodeText(TreeOver(h, hashes[..k]), TreeOver(h, hashes[k..])))
  }

  function Leaves(h: Bytes -> Bytes, entries: seq<Bytes>): (r: seq<Bytes>)
    ensures |r| == |entries|
  {
    seq(|entries|, i requires 0 <= i < |entries| => h(LeafText(entries[i])))
  }

  lemma {:induction false} TreeOverLeaves(h: Bytes -> Bytes, entries: seq<Bytes>)
    requires |entries| > 0
    ensures TreeOver(h, Leaves(h, entries)) == TreeHash(h, entries)
  {
    if |entries| > 1 {
      var k := Split(|entries|, 1);
      assert Leaves(h, entries)[..k] == Leaves(h, entries[..k]);
      assert Leaves(h, entries)[k..] == Leaves(h, entries[k..]);
      TreeOverLeaves(h, entries[..k]);
      TreeOverLeaves(h, entries[k..]);
    }
  }

  /** The definition of section 2.1 of RFC 6962: one entry is hashed behind a zero byte; of more, the first
      `k` and the rest are, for the largest power of two `k` below their number, and their two hashes are
      hashed behind a one. */
  lemma TreeHashIs(h: Bytes -> Bytes, entries: seq<Bytes>, k: nat)
    requires |entries| > 0
    ensures |entries| == 1 ==> TreeHash(h, entries) == h([0] + entries[0])
    ensures SplitsAt(|entries|, k) ==> TreeHash(h, entries) == h([1] + TreeHash(h, entries[..k]) + TreeHash(h, entries[k..]))
  {
    if SplitsAt(|entries|, k) {
      var j := Split(|entries|, 1);
      assert SplitsAt(|entries|, j);
      assert j == k;
    }
  }

  method NodeHash(h: Bytes -> Bytes, left: Bytes, right: Bytes) returns (r: Bytes)
    ensures r == h([1] + left + right)
  {
    r := h([1] + left + right);
  }

  lemma TreeOverUnfold(h: Bytes -> Bytes, hashes: seq<Bytes>)
    requires |hashes| > 0
    ensures |hashes| == 1 ==> TreeOver(h, hashes) == hashes[0]
    ensures |hashes| > 1 ==>
      var k := Split(|hashes|, 1);
      TreeOver(h, hashes) == h(NodeText(TreeOver(h, hashes[..k]), TreeOver(h, hashes[k..])))
  {}

  /** `_mth`, with the search for the power of two as its loop. */
  method Mth(h: Bytes -> Bytes, hashes: seq<Bytes>) returns (r: Bytes)
    requires |hashes| > 0
    ensures r == TreeOver(h, hashes)
    decreases |hashes|
  {
    hide TreeOver; hide SplitsAt;
    var n := |hashes|;
    TreeOverUnfold(h, hashes);
    if n == 1 {
      return hashes[0];
    }
    var k := 1;
    while k * 2 < n
      invariant PowerOfTwo(k) && k < n && Split(n, k) == Split(n, 1)
    {
      k := k * 2;
    }
    var left := Mth(h, hashes[..k]);
    var right := Mth(h, hashes[k..]);
    r := NodeHash(h, left, right);
  }

  /** The entries' 32 bytes, when every row hash is accepted. */
  function Decoded(rows: seq<Bytes>): (r: Option<seq<Bytes>>)
    ensures r.Some? <==> forall i :: 0 <= i < |rows| ==> Accepted(rows[i])
    ensures r.Some? ==> |r.value| == |rows| && forall i :: 0 <= i < |rows| ==> Checked(rows[i]) == Some(r.value[i])
  {
    if forall i :: 0 <= i < |rows| ==> Accepted(rows[i])
    then Some(seq(|rows|, i requires 0 <= i < |rows| => FromHex(rows[i][..64])))
    else None
  }

  /** The root in hexadecimal; None for the empty list and for a row hash that is not one. */
  function Root(h: Bytes -> Bytes, rows: seq<Bytes>): (r: Option<Bytes>)
  {
    if rows == [] || Decoded(rows).None? then None else Some(Hex(TreeHash(h, Decoded(rows).value)))
  }

  /** There is a root exactly for a list that is not empty and holds hashes only; it is the tree hash, in
      hexadecimal, of the bytes that they spell, in their order. */
  lemma RootIs(h: Bytes -> Bytes, rows: seq<Bytes>, entries: seq<Bytes>)
    ensures Root(h, rows).Some? <==> rows != [] && forall i :: 0 <= i < |rows| ==> Accepted(rows[i])
    ensures Root(h, rows).Some? && |entries| == |rows| && (forall i :: 0 <= i < |rows| ==> entries[i] == FromHex(rows[i][..64])) ==>
              Root(h, rows) == Some(Hex(TreeHash(h, entries)))
  {
    hide TreeHash; hide Hex; hide FromHex;
    if Root(h, rows).Some? && |entries| == |rows| && (forall i :: 0 <= i < |rows| ==> entries[i] == FromHex(rows[i][..64])) {
      assert entries == Decoded(rows).value;
    }
  }

  /** `merkle_root` */
  method MerkleRoot(h: Bytes -> Bytes, rows: seq<Bytes>) returns (r: Option<Bytes>)
    ensures r == Root(h, rows)
  {
    if rows == [] {
      return None;
    }
    var leaves: seq<Bytes> := [];
    for i := 0 to |rows|
      invariant |leaves| == i && forall j :: 0 <= j < i ==> Accepted(rows[j]) && leaves[j] == h(LeafText(Checked(rows[j]).value))
    {
      var raw := Checked(rows[i]);
      if raw.None? {
        return None;
      }
      leaves := leaves + [h([0] + raw.value)];
    }
    var root := Mth(h, leaves);
    assert leaves == Leaves(h, Decoded(rows).value);
    TreeOverLeaves(h, Decoded(rows).value);
    r := Some(Hex(root));
  }

  // ----- what a root fixes

  /** Every text hashed on the way to the tree hash. */
  function TreeTexts(h: Bytes -> Bytes, entries: seq<Bytes>): set<Bytes>
    requires |entries| > 0
  {
    if |entries| == 1 then {LeafText(entries[0])}
    else
      var k := Split(|entries|, 1);
      {NodeText(TreeHash(h, entries[..k]), TreeHash(h, entries[k..]))} + TreeTexts(h, entries[..k]) + TreeTexts(h, entries[k..])
  }

  /** Equal tree hashes come from equal lists, of any two lengths. */
  lemma {:induction false} TreeHashFixesEntries(h: Bytes -> Bytes, a: seq<Bytes>, b: seq<Bytes>)
    requires Digests(h) && |a| > 0 && |b| > 0
    requires NoCollision(h, TreeTexts(h, a) + TreeTexts(h, b)) && TreeHash(h, a) == TreeHash(h, b)
    ensures a == b
    decreases |a|
  {
    hide TreeHash; hide TreeTexts; hide Split; hide NodeText; hide LeafText; hide NoCollision;
    var texts := TreeTexts(h, a) + TreeTexts(h, b);
    if |a| == 1 && |b| == 1 {
      OneLeaf(h, a);
      OneLeaf(h, b);
      SameText(h, texts, LeafText(a[0]), LeafText(b[0]));
      LeafTextCut(a[0], b[0]);
    } else if |a| > 1 && |b| > 1 {
      var k := TwoHalves(h, a);
      var m := TwoHalves(h, b);
      var l, r, l', r' := TreeHash(h, a[..k]), TreeHash(h, a[k..]), TreeHash(h, b[..m]), TreeHash(h, b[m..]);
      SameText(h, texts, NodeText(l, r), NodeText(l', r'));
      NodeTextCut(l, r, l', r');
      FewerTexts(h, texts, TreeTexts(h, a[..k]) + TreeTexts(h, b[..m]));
      FewerTexts(h, texts, TreeTexts(h, a[k..]) + TreeTexts(h, b[m..]));
      TreeHashFixesEntries(h, a[..k], b[..m]);
      TreeHashFixesEntries(h, a[k..], b[m..]);
      assert a == a[..k] + a[k..] && b == b[..m] + b[m..];
    } else if |a| == 1 {
      LeafNeverNode(h, a, b);
    } else {
      FewerTexts(h, texts, TreeTexts(h, b) + TreeTexts(h, a));
      LeafNeverNode(h, b, a);
    }
  }

  lemma OneLeaf(h: Bytes -> Bytes, a: seq<Bytes>)
    requires |a| == 1
    ensures TreeHash(h, a) == h(LeafText(a[0])) && LeafText(a[0]) in TreeTexts(h, a)
  {}

  lemma TwoHalves(h: Bytes -> Bytes, a: seq<Bytes>) returns (k: nat)
    requires |a| > 1
    ensures 0 < k < |a| && TreeHash(h, a) == h(NodeText(TreeHash(h, a[..k]), TreeHash(h, a[k..])))
    ensures NodeText(TreeHash(h, a[..k]), TreeHash(h, a[k..])) in TreeTexts(h, a)
    ensures TreeTexts(h, a[..k]) <= TreeTexts(h, a) && TreeTexts(h, a[k..]) <= TreeTexts(h, a)
    ensures (forall text: Bytes :: |h(text)| == 32) ==> |TreeHash(h, a[..k])| == 32
  {
    k := Split(|a|, 1);
  }

  lemma SameText(h: Bytes -> Bytes, texts: set<Bytes>, a: Bytes, b: Bytes)
    requires NoCollision(h, texts) && a in texts && b in texts && h(a) == h(b)
    ensures a == b
  {}

  lemma FewerTexts(h: Bytes -> Bytes, texts: set<Bytes>, fewer: set<Bytes>)
    requires NoCollision(h, texts) && fewer <= texts
    ensures NoCollision(h, fewer)
  {}

  lemma LeafTextCut(x: Bytes, y: Bytes)
    requires LeafText(x) == LeafText(y)
    ensures x == y
  {
    assert x == LeafText(x)[1..] && y == LeafText(y)[1..];
  }

  /** The prefixes keep a leaf and an interior node apart. */
  lemma LeafNeverNode(h: Bytes -> Bytes, a: seq<Bytes>, b: seq<Bytes>)
    requires |a| == 1 && |b| > 1 && NoCollision(h, TreeTexts(h, a) + TreeTexts(h, b))
    ensures TreeHash(h, a) != TreeHash(h, b)
  {
    var k := Split(|b|, 1);
    var node := NodeText(TreeHash(h, b[..k]), TreeHash(h, b[k..]));
    assert LeafText(a[0])[0] == 0 && node[0] == 1;
    assert node in TreeTexts(h, b) && LeafText(a[0]) in TreeTexts(h, a);
  }

  lemma NodeTextCut(l: Bytes, r: Bytes, l': Bytes, r': Bytes)
    requires |l| == |l'| && NodeText(l, r) == NodeText(l', r')
    ensures l == l' && r == r'
  {
    var s, t := NodeText(l, r), NodeText(l', r');
    assert l == s[1..1 + |l|] && l' == t[1..1 + |l'|] && r == s[1 + |l|..] && r' == t[1 + |l'|..];
  }

  /** The same entries: equal up to the trailing line feed that the check lets through. */
  predicate SameEntries(a: seq<Bytes>, b: seq<Bytes>) {
    Decoded(a).Some? && Decoded(b).Some? && Decoded(a) == Decoded(b)
  }

  /** Two accepted lists have one root exactly when they hold the same entries, in the same order and number. */
  lemma RootFixesEntries(h: Bytes -> Bytes, a: seq<Bytes>, b: seq<Bytes>)
    requires Digests(h) && Root(h, a).Some? && Root(h, b).Some?
    requires NoCollision(h, TreeTexts(h, Decoded(a).value) + TreeTexts(h, Decoded(b).value))
    ensures Root(h, a) == Root(h, b) <==> SameEntries(a, b)
  {
    var x, y := Decoded(a).value, Decoded(b).value;
    if Root(h, a) == Root(h, b) {
      HexRoundTrip(TreeHash(h, x));
      HexRoundTrip(TreeHash(h, y));
      TreeHashFixesEntries(h, x, y);
    }
  }

  /** Accepted lists with the same entries are equal texts exactly when they agree on where the line feeds are. */
  lemma EqualIffSameLineEnds(a: seq<Bytes>, b: seq<Bytes>)
    requires SameEntries(a, b)
    ensures |a| == |b|
    ensures a == b <==> forall i :: 0 <= i < |a| ==> (Strict(a[i]) <==> Strict(b[i]))
  {
    forall i | 0 <= i < |a|
      ensures (Strict(a[i]) <==> Strict(b[i])) <==> a[i] == b[i]
    {
      CheckedInjective(a[i], b[i]);
    }
  }

  /** A root does not see a trailing line feed: two different lists of texts share it. */
  lemma LineFeedUnseen(h: Bytes -> Bytes, row: Bytes)
    requires Strict(row)
    ensures [row] != [row + [NEWLINE]] && Root(h, [row]) == Root(h, [row + [NEWLINE]])
    ensures Root(h, [row]).Some?
  {
    var other := row + [NEWLINE];
    assert other[..64] == row && row[..64] == row;
    assert [row][0] != [other][0];
    assert Decoded([row]).Some? && Decoded([other]).Some?;
    assert Decoded([row]).value == Decoded([other]).value;
  }

  // ----- block hashes

  datatype Block = Block(format: int, tenant: Bytes, height: int, first: int, last: int, count: int, prev: Bytes, root: Bytes)

  function Tag(): Bytes {
    Ascii("jarvis-block|v")
  }

  /** `jarvis-block|v<format>|<length>:<tenant>|height|first|last|count|prev|root` */
  function BlockText(b: Block): Bytes {
    Tag() + Dec(b.format) + [BAR] + Sized(b.tenant) + [BAR]
      + Fields(Numbers(b))
  }

  /** `block_hash`; None for a previous hash or a root that is not a hash. */
  function BlockHash(h: Bytes -> Bytes, b: Block): Option<Bytes> {
    if Accepted(b.prev) && Accepted(b.root) then Some(HexDigest(h, BlockText(b))) else None
  }

  /** Whatever bytes the tenant's name holds, the text tells every field. */
  lemma BlockTextInjective(a: Block, b: Block)
    requires Free(a.prev, BAR) && Free(b.prev, BAR)
    ensures BlockText(a) == BlockText(b) <==> a == b
  {
    if BlockText(a) == BlockText(b) {
      BlockTextShape(a);
      BlockTextShape(b);
      hide BlockText; hide Sized; hide Fields; hide Tag; hide Dec;
      var fs, gs := Numbers(a), Numbers(b);
      AfterTag(Rest(a), Rest(b));
      CutAt(Dec(a.format), Sized(a.tenant) + ([BAR] + Fields(fs)), Dec(b.format), Sized(b.tenant) + ([BAR] + Fields(gs)), BAR);
      SizedCut(a.tenant, [BAR] + Fields(fs), b.tenant, [BAR] + Fields(gs));
      assert Fields(fs) == ([BAR] + Fields(fs))[1..] && Fields(gs) == ([BAR] + Fields(gs))[1..];
      NumbersClean(a);
      NumbersClean(b);
      FieldsInjective(fs, gs);
      FieldsEqual(a, b);
    }
  }

  function Numbers(b: Block): (r: seq<Bytes>)
    ensures |r| == 6
  {
    [Dec(b.height), Dec(b.first), Dec(b.last), Dec(b.count), b.prev, b.root]
  }

  lemma NumbersClean(b: Block)
    requires Free(b.prev, BAR)
    ensures Clean(Numbers(b))
  {}

  function Rest(b: Block): Bytes {
    Dec(b.format) + [BAR] + (Sized(b.tenant) + ([BAR] + Fields(Numbers(b))))
  }

  lemma BlockTextShape(b: Block)
    ensures BlockText(b) == Tag() + Rest(b)
  {
    hide Sized; hide Fields; hide Tag; hide Dec; hide Numbers;
  }

  /** The text that a block hash is of: its fields between bars. */
  lemma BlockTextIs(b: Block)
    ensures BlockText(b) == Join([Ascii("jarvis-block"), Ascii("v") + Dec(b.format), Dec(|b.tenant|) + Ascii(":") + b.tenant,
                                  Dec(b.height), Dec(b.first), Dec(b.last), Dec(b.count), b.prev, b.root], BAR)
  {
    var first, second, third := Ascii("jarvis-block"), Ascii("v") + Dec(b.format), Dec(|b.tenant|) + Ascii(":") + b.tenant;
    assert Tag() == first + [BAR] + Ascii("v") && Ascii(":") == [COLON];
    hide Ascii; hide Dec; hide Join; hide Fields; hide Tag;
    JoinThree(first, second, third, Numbers(b));
    assert [first, second, third] + Numbers(b) == [first, second, third, Dec(b.height), Dec(b.first), Dec(b.last), Dec(b.count), b.prev, b.root];
    hide Numbers;
    Regroup(first, Ascii("v"), Dec(b.format), third, Fields(Numbers(b)));
  }

  lemma Regroup(x: Bytes, v: Bytes, d: Bytes, t: Bytes, r: Bytes)
    ensures (x + [BAR] + v) + d + [BAR] + t + [BAR] + r == x + [BAR] + (v + d) + [BAR] + t + [BAR] + r
  {}

  lemma AfterTag(x: Bytes, y: Bytes)
    requires Tag() + x == Tag() + y
    ensures x == y
  {
    assert x == (Tag() + x)[|Tag()|..] && y == (Tag() + y)[|Tag()|..];
  }

  lemma FieldsEqual(a: Block, b: Block)
    requires Dec(a.format) == Dec(b.format) && a.tenant == b.tenant && Numbers(a) == Numbers(b)
    ensures a == b
  {
    hide Dec;
    var fs, gs := Numbers(a), Numbers(b);
    assert fs[0] == gs[0] && fs[1] == gs[1] && fs[2] == gs[2] && fs[3] == gs[3] && fs[4] == gs[4] && fs[5] == gs[5];
    DecInjective(a.format, b.format);
    DecInjective(a.height, b.height);
    DecInjective(a.first, b.first);
    DecInjective(a.last, b.last);
    DecInjective(a.count, b.count);
  }

  // ----- linked chains

  /** A block, its stored hash, and the row hashes of the range it seals. */
  datatype Sealed = Sealed(block: Block, hash: Bytes, rows: seq<Bytes>)

  function Genesis(): (g: Bytes)
    ensures Strict(g) && forall c :: c in g ==> c == '0' as int
  {
    seq(64, i requires 0 <= i < 64 => 48)
  }

  /** What the chain before block `i` hands to it. */
  predicate Follows(h: Bytes -> Bytes, tenant: Bytes, chain: seq<Sealed>, i: nat)
    requires i < |chain|
  {
    var s := chain[i];
    && s.block.tenant == tenant && s.block.height == i + 1
    && s.block.prev == (if i == 0 then Genesis() else chain[i - 1].hash)
    && s.block.first == (if i == 0 then 1 else chain[i - 1].block.last + 1)
    && s.block.count == |s.rows| && s.block.count == s.block.last - s.block.first + 1
    && Root(h, s.rows) == Some(s.block.root)
    && BlockHash(h, s.block) == Some(s.hash)
  }

  /** No check of `jarvis_verify_blocks` reports a problem. */
  predicate Linked(h: Bytes -> Bytes, tenant: Bytes, chain: seq<Sealed>) {
    forall i: nat :: i < |chain| ==> Follows(h, tenant, chain, i)
  }

  function ChainTexts(h: Bytes -> Bytes, chain: seq<Sealed>): set<Bytes> {
    if chain == [] then {}
    else
      var s := chain[|chain| - 1];
      {BlockText(s.block)} + (if Root(h, s.rows).Some? then TreeTexts(h, Decoded(s.rows).value) else {})
        + ChainTexts(h, chain[..|chain| - 1])
  }

  lemma LinkedEarlier(h: Bytes -> Bytes, tenant: Bytes, chain: seq<Sealed>)
    requires Linked(h, tenant, chain) && chain != []
    ensures Linked(h, tenant, chain[..|chain| - 1]) && Follows(h, tenant, chain, |chain| - 1)
  {
    hide Root; hide BlockHash;
    var earlier := chain[..|chain| - 1];
    forall i: nat | i < |earlier| ensures Follows(h, tenant, earlier, i) {
      assert Follows(h, tenant, chain, i);
    }
  }

  predicate SameSealed(x: Sealed, y: Sealed) {
    x.block == y.block && x.hash == y.hash && SameEntries(x.rows, y.rows)
  }

  /** The hash of the newest block of a linked chain fixes the tenant, the number of blocks, every field
      of every block and every sealed entry. */
  lemma {:induction false} TipFixesChain(h: Bytes -> Bytes, t: Bytes, a: seq<Sealed>, u: Bytes, b: seq<Sealed>)
    requires Digests(h) && Linked(h, t, a) && Linked(h, u, b) && a != [] && b != []
    requires NoCollision(h, ChainTexts(h, a) + ChainTexts(h, b))
    requires a[|a| - 1].hash == b[|b| - 1].hash
    ensures t == u && |a| == |b| && forall i :: 0 <= i < |a| ==> SameSealed(a[i], b[i])
    decreases |a|
  {
    hide Linked; hide Follows; hide SameSealed; hide ChainTexts; hide NoCollision; hide Digests;
    var m, n := |a| - 1, |b| - 1;
    LinkedEarlier(h, t, a);
    LinkedEarlier(h, u, b);
    TipsAgree(h, t, a, u, b);
    TextsEarlier(h, a, b);
    if m > 0 {
      assert a[..m][m - 1] == a[m - 1] && b[..n][n - 1] == b[n - 1];
      TipFixesChain(h, t, a[..m], u, b[..n]);
      forall i | 0 <= i < |a|
        ensures SameSealed(a[i], b[i])
      {
        if i < m { assert a[..m][i] == a[i] && b[..n][i] == b[i]; }
      }
    }
  }

  lemma TipsAgree(h: Bytes -> Bytes, t: Bytes, a: seq<Sealed>, u: Bytes, b: seq<Sealed>)
    requires Digests(h) && a != [] && b != [] && Follows(h, t, a, |a| - 1) && Follows(h, u, b, |b| - 1)
    requires NoCollision(h, ChainTexts(h, a) + ChainTexts(h, b))
    requires a[|a| - 1].hash == b[|b| - 1].hash
    ensures t == u && |a| == |b| && SameSealed(a[|a| - 1], b[|b| - 1])
    ensures |a| > 1 ==> a[|a| - 2].hash == b[|b| - 2].hash
  {
    hide BlockHash; hide Root; hide BlockText; hide TreeTexts; hide NoCollision; hide SameEntries;
    TipFixesBlock(h, a[|a| - 1], b[|b| - 1], ChainTexts(h, a) + ChainTexts(h, b));
  }

  lemma TextsEarlier(h: Bytes -> Bytes, a: seq<Sealed>, b: seq<Sealed>)
    requires a != [] && b != [] && NoCollision(h, ChainTexts(h, a) + ChainTexts(h, b))
    ensures NoCollision(h, ChainTexts(h, a[..|a| - 1]) + ChainTexts(h, b[..|b| - 1]))
  {
    hide BlockText; hide TreeTexts; hide Root;
  }

  lemma TipFixesBlock(h: Bytes -> Bytes, x: Sealed, y: Sealed, texts: set<Bytes>)
    requires Digests(h) && BlockHash(h, x.block) == Some(x.hash) && BlockHash(h, y.block) == Some(y.hash) && x.hash == y.hash
    requires Root(h, x.rows) == Some(x.block.root) && Root(h, y.rows) == Some(y.block.root)
    requires NoCollision(h, texts) && BlockText(x.block) in texts && BlockText(y.block) in texts
    requires TreeTexts(h, Decoded(x.rows).value) <= texts && TreeTexts(h, Decoded(y.rows).value) <= texts
    ensures x.block == y.block && SameEntries(x.rows, y.rows)
  {
    HexDigestFixes(h, texts, BlockText(x.block), BlockText(y.block));
    BarFree(x.block.prev);
    BarFree(y.block.prev);
    hide BlockText; hide TreeTexts; hide Root;
    BlockTextInjective(x.block, y.block);
    RootFixesEntries(h, x.rows, y.rows);
  }

  lemma BarFree(s: Bytes)
    requires Accepted(s)
    ensures Free(s, BAR)
  {
    assert forall i :: 0 <= i < 64 ==> s[..64][i] == s[i];
  }
}
