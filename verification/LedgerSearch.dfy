/** The phrase test of ledger search: Knuth-Morris-Pratt over lists of tokens. */
module LedgerSearch {

  /** `run` occurs as consecutive items of `text`. */
  ghost predicate Occurs<T>(text: seq<T>, run: seq<T>) {
    exists p :: OccursAt(text, run, p)
  }

  ghost predicate OccursAt<T>(text: seq<T>, run: seq<T>, p: int) {
    0 <= p <= |text| - |run| && text[p..p + |run|] == run
  }

  /** The first `k` items of `run` are the last `k` of `text[..j]`. */
  ghost predicate Match<T>(run: seq<T>, text: seq<T>, j: int, k: int) {
    0 <= k <= j <= |text| && k <= |run| && run[..k] == text[j - k..j]
  }

  /** `k` is the longest match below `bound`. */
  ghost predicate Longest<T>(run: seq<T>, text: seq<T>, j: int, k: int, bound: int) {
    && Match(run, text, j, k) && k < bound
    && forall l :: l < bound && Match(run, text, j, l) ==> l <= k
  }

  /** What the inner loop keeps: `k` matches, and every longer match cannot take the item `x`. */
  ghost predicate Candidate<T>(run: seq<T>, text: seq<T>, j: int, k: int, bound: int, x: T) {
    && Match(run, text, j, k) && k < bound <= |run|
    && forall l :: k < l < bound && Match(run, text, j, l) ==> run[l] != x
  }

  /** `fail[..n]` holds the longest proper border of each of the first `n` prefixes. */
  ghost predicate Borders<T>(run: seq<T>, fail: seq<nat>, n: nat) {
    n <= |fail| && n <= |run| && forall i :: 0 <= i < n ==> Longest(run, run, i + 1, fail[i], i + 1)
  }

  lemma BorderAt<T>(run: seq<T>, fail: seq<nat>, n: nat, k: nat)
    requires Borders(run, fail, n) && 0 < k <= n
    ensures k <= |fail| && Longest(run, run, k, fail[k - 1], k) && fail[k - 1] < k
  {
    var i := k - 1;
    assert Longest(run, run, i + 1, fail[i], i + 1);
  }

  /** A shorter match is a border of a longer one, and the other way round. */
  lemma Nested<T>(run: seq<T>, text: seq<T>, j: int, k: int, l: int)
    requires Match(run, text, j, k) && 0 <= l <= k
    ensures Match(run, text, j, l) <==> Match(run, run, k, l)
  {
    assert text[j - k..j][k - l..] == text[j - l..j];
    assert run[..k][k - l..] == run[k - l..k];
  }

  lemma Extends<T>(run: seq<T>, text: seq<T>, j: int, l: int)
    requires 0 <= j < |text| && 0 <= l < |run|
    ensures Match(run, text, j + 1, l + 1) <==> Match(run, text, j, l) && run[l] == text[j]
  {
    if Match(run, text, j + 1, l + 1) {
      assert run[..l + 1][..l] == run[..l] && run[..l + 1][l] == run[l];
      assert text[j - l..j + 1][..l] == text[j - l..j] && text[j - l..j + 1][l] == text[j];
    }
    if Match(run, text, j, l) && run[l] == text[j] {
      assert run[..l + 1] == run[..l] + [run[l]] && text[j - l..j + 1] == text[j - l..j] + [text[j]];
    }
  }

  /** Falling back to `fail[k - 1]` skips no candidate. */
  lemma FallBack<T>(run: seq<T>, text: seq<T>, j: int, k: int, bound: int, x: T, next: int)
    requires Candidate(run, text, j, k, bound, x) && k > 0 && x != run[k] && Longest(run, run, k, next, k)
    ensures Candidate(run, text, j, next, bound, x)
  {
    Nested(run, text, j, k, next);
    forall l | next < l < bound && Match(run, text, j, l)
      ensures run[l] != x
    {
      if l < k { Nested(run, text, j, k, l); }
    }
  }

  lemma StartCandidate<T>(run: seq<T>, text: seq<T>, j: int, k: int, bound: int, x: T)
    requires Longest(run, text, j, k, bound) && bound <= |run|
    ensures Candidate(run, text, j, k, bound, x)
  {}

  /** After the inner loop: the longest match that ends one item later. */
  lemma Advance<T>(run: seq<T>, text: seq<T>, j: int, k: int, bound: int)
    requires 0 <= j < |text| && Candidate(run, text, j, k, bound, text[j]) && (k == 0 || text[j] == run[k])
    ensures Longest(run, text, j + 1, if text[j] == run[k] then k + 1 else k, bound + 1)
  {
    Extends(run, text, j, k);
    assert Match(run, text, j + 1, 0);
    var next := j + 1;
    forall l | l < bound + 1 && Match(run, text, next, l)
      ensures l <= if text[j] == run[k] then k + 1 else k
    {
      if l > 0 { Extends(run, text, j, l - 1); }
    }
  }

  /** At the very start only the empty match is there. */
  lemma Begin<T>(run: seq<T>, text: seq<T>, j: nat, bound: nat)
    requires j <= |text| && (j == 0 < bound || j == bound == 1)
    ensures Longest(run, text, j, 0, bound)
  {}

  lemma NoBorders<T>(run: seq<T>, fail: seq<nat>)
    requires 0 < |run| == |fail| && (forall i :: 0 <= i < |fail| ==> fail[i] == 0) && Longest(run, run, 1, 0, 1)
    ensures Borders(run, fail, 1)
  {}

  /** No occurrence ends at or before `j`. */
  ghost predicate NoneBy<T>(text: seq<T>, run: seq<T>, j: int) {
    forall p :: OccursAt(text, run, p) ==> p + |run| > j
  }

  lemma Fits<T>(text: seq<T>, run: seq<T>)
    requires |run| > 0
    ensures NoneBy(text, run, 0)
  {}

  lemma Found<T>(run: seq<T>, text: seq<T>, j: int)
    requires Match(run, text, j, |run|) || Longest(run, text, j, |run|, |run| + 1)
    ensures Occurs(text, run)
  {
    OccursMatch(run, text, j);
    assert OccursAt(text, run, j - |run|);
  }

  lemma NotYet<T>(run: seq<T>, text: seq<T>, j: nat, k: nat)
    requires j < |text| && NoneBy(text, run, j) && Longest(run, text, j + 1, k, |run| + 1) && k < |run|
    ensures NoneBy(text, run, j + 1) && Longest(run, text, j + 1, k, |run|)
  {
    if j + 1 >= |run| { OccursMatch(run, text, j + 1); }
  }

  lemma NeverFound<T>(text: seq<T>, run: seq<T>)
    requires NoneBy(text, run, |text|)
    ensures !Occurs(text, run)
  {}

  lemma OccursMatch<T>(run: seq<T>, text: seq<T>, j: nat)
    requires |run| <= j <= |text|
    ensures Match(run, text, j, |run|) <==> OccursAt(text, run, j - |run|)
  {
    assert run[..|run|] == run;
  }

  /** The first phase of `_contains_run`: the failure table of the run. */
  method FailureTable<T(==)>(run: seq<T>) returns (fail: array<nat>, ghost steps: nat)
    requires run != []
    ensures fresh(fail) && fail.Length == |run| && Borders(run, fail[..], |run|)
    ensures steps <= 2 * |run|
  {
    hide *;
    var m := |run|;
    steps := 0;
    Begin(run, run, 1, 1);
    fail := new nat[m](_ => 0);
    var k: nat := 0;
    NoBorders(run, fail[..]);
    for i := 1 to m
      invariant fresh(fail) && fail.Length == m && Borders(run, fail[..], i)
      invariant Longest(run, run, i, k, i) && k < i
      invariant steps + k <= 2 * (i - 1)
    {
      steps := steps + 1;
      StartCandidate(run, run, i, k, i, run[i]);
      while k > 0 && run[i] != run[k]
        invariant Borders(run, fail[..], i) && Candidate(run, run, i, k, i, run[i]) && k < i
        invariant steps + k <= 2 * i - 1
      {
        steps := steps + 1;
        BorderAt(run, fail[..], i, k);
        FallBack(run, run, i, k, i, run[i], fail[k - 1]);
        k := fail[k - 1];
      }
      Advance(run, run, i, k, i);
      if run[i] == run[k] {
        k := k + 1;
      }
      ghost var before := fail[..];
      fail[i] := k;
      BordersStep(run, before, fail[..], i, k);
    }
  }

  /** `_contains_run`. `steps` counts every turn of the four loops. */
  method ContainsRun<T(==)>(text: seq<T>, run: seq<T>) returns (found: bool, ghost steps: nat)
    ensures found <==> Occurs(text, run)
    ensures steps <= 2 * |text| + 2 * |run|
  {
    var m := |run|;
    if m == 0 || m > |text| {
      if m == 0 { assert OccursAt(text, run, 0); }
      return m == 0, 0;
    }
    hide *;
    var fail;
    fail, steps := FailureTable(run);
    var k: nat := 0;
    Begin(run, text, 0, m);
    Fits(text, run);
    for j := 0 to |text|
      invariant k < m && Borders(run, fail[..], m)
      invariant Longest(run, text, j, k, m)
      invariant NoneBy(text, run, j)
      invariant steps + k <= 2 * m + 2 * j
    {
      var item := text[j];
      steps := steps + 1;
      StartCandidate(run, text, j, k, m, item);
      while k > 0 && item != run[k]
        invariant Borders(run, fail[..], m) && Candidate(run, text, j, k, m, item) && k < m
        invariant steps + k <= 2 * m + 2 * j + 1
      {
        steps := steps + 1;
        BorderAt(run, fail[..], m, k);
        FallBack(run, text, j, k, m, item, fail[k - 1]);
        k := fail[k - 1];
      }
      Advance(run, text, j, k, m);
      if item == run[k] {
        k := k + 1;
        if k == m {
          Found(run, text, j + 1);
          return true, steps;
        }
      }
      NotYet(run, text, j, k);
    }
    NeverFound(text, run);
    found := false;
  }

  lemma BordersStep<T>(run: seq<T>, before: seq<nat>, after: seq<nat>, i: nat, k: nat)
    requires i < |run| == |before| && Borders(run, before, i) && after == before[i := k]
    requires Longest(run, run, i + 1, k, i + 1)
    ensures Borders(run, after, i + 1)
  {
    hide Longest;
  }
}
