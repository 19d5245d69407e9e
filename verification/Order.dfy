/** Python's `sorted` as the program uses it: a stable sort of a list by a key order, and the
    ascending enumeration of a set of ids. */
module Order {

  /** A record id: a string that the program only compares. */
  datatype Id = Id(text: string)

  /** Code-point order on strings, as Python compares `str` values. */
  predicate TextBefore(a: string, b: string) {
    if b == "" then false
    else if a == "" then true
    else if a[0] != b[0] then a[0] < b[0]
    else TextBefore(a[1..], b[1..])
  }

  predicate Before(a: Id, b: Id) {
    TextBefore(a.text, b.text)
  }

  lemma {:induction false} TextBeforeTotal(a: string, b: string)
    ensures a == b || TextBefore(a, b) || TextBefore(b, a)
    ensures !(TextBefore(a, b) && TextBefore(b, a))
    ensures a == b ==> !TextBefore(a, b)
  {
    if a != "" && b != "" && a[0] == b[0] {
      TextBeforeTotal(a[1..], b[1..]);
      assert a == [a[0]] + a[1..] && b == [b[0]] + b[1..];
    }
  }

  lemma {:induction false} TextBeforeTransitive(a: string, b: string, c: string)
    requires TextBefore(a, b) && TextBefore(b, c)
    ensures TextBefore(a, c)
  {
    if a != "" && a[0] == b[0] == c[0] {
      TextBeforeTransitive(a[1..], b[1..], c[1..]);
    }
  }

  ghost predicate StrictOrder<T(!new)>(before: (T, T) -> bool) {
    && (forall x, y :: before(x, y) ==> !before(y, x))
    && (forall x, y :: x != y ==> before(x, y) || before(y, x))
    && (forall x, y, z :: before(x, y) && before(y, z) ==> before(x, z))
  }

  lemma LeastExists<T(!new)>(s: set<T>, before: (T, T) -> bool)
    requires s != {} && StrictOrder(before)
    ensures exists x :: x in s && forall y :: y in s && y != x ==> before(x, y)
  {
    var x :| x in s;
    if s != {x} {
      LeastExists(s - {x}, before);
      var m :| m in s - {x} && forall y :: y in s - {x} && y != m ==> before(m, y);
      var least := if before(x, m) then x else m;
      assert forall y :: y in s && y != least ==> before(least, y);
    }
  }

  function Least<T(!new,==)>(s: set<T>, before: (T, T) -> bool): (x: T)
    requires s != {} && StrictOrder(before)
    ensures x in s && forall y :: y in s && y != x ==> before(x, y)
  {
    LeastExists(s, before);
    var x :| x in s && forall y :: y in s && y != x ==> before(x, y);
    x
  }

  /** `sorted(s)` for a set. */
  function Sorted<T(!new,==)>(s: set<T>, before: (T, T) -> bool): (r: seq<T>)
    requires StrictOrder(before)
    ensures |r| == |s|
    ensures forall x :: x in r <==> x in s
    ensures forall i, j :: 0 <= i < j < |r| ==> r[i] != r[j]
    ensures forall i, j :: 0 <= i < j < |r| ==> before(r[i], r[j])
    decreases |s|
  {
    if s == {} then []
    else
      var x := Least(s, before);
      var rest := Sorted(s - {x}, before);
      assert forall k :: 0 <= k < |rest| ==> rest[k] in s - {x};
      [x] + rest
  }

  lemma BeforeStrict()
    ensures StrictOrder(Before)
  {
    forall x, y
      ensures Before(x, y) ==> !Before(y, x)
      ensures x != y ==> Before(x, y) || Before(y, x)
    {
      TextBeforeTotal(x.text, y.text);
    }
    forall x, y, z | Before(x, y) && Before(y, z)
      ensures Before(x, z)
    {
      TextBeforeTransitive(x.text, y.text, z.text);
    }
  }

  /** `sorted(s)` for a set of ids. */
  function SortedIds(s: set<Id>): (r: seq<Id>)
    ensures |r| == |s|
    ensures forall x :: x in r <==> x in s
    ensures forall i, j :: 0 <= i < j < |r| ==> r[i] != r[j]
  {
    BeforeStrict();
    Sorted(s, Before)
  }

  // ----- stable sort of a list

  ghost predicate TotalPreorder<T(!new)>(le: (T, T) -> bool) {
    && (forall x, y :: le(x, y) || le(y, x))
    && (forall x, y, z :: le(x, y) && le(y, z) ==> le(x, z))
  }

  ghost predicate SortedBy<T>(s: seq<T>, le: (T, T) -> bool) {
    forall i, j :: 0 <= i < j < |s| ==> le(s[i], s[j])
  }

  function Insert<T>(x: T, s: seq<T>, le: (T, T) -> bool): (r: seq<T>)
    ensures multiset(r) == multiset(s) + multiset{x}
    ensures |r| == |s| + 1
  {
    if s == [] || le(x, s[0]) then [x] + s
    else
      assert s == [s[0]] + s[1..];
      [s[0]] + Insert(x, s[1..], le)
  }

  /** `sorted(s, key=...)`: elements that compare equal keep their order. */
  function StableSort<T>(s: seq<T>, le: (T, T) -> bool): (r: seq<T>)
    ensures multiset(r) == multiset(s)
    ensures |r| == |s|
  {
    if s == [] then []
    else
      assert s == [s[0]] + s[1..];
      Insert(s[0], StableSort(s[1..], le), le)
  }

  lemma {:induction false} InsertSorted<T(!new)>(x: T, s: seq<T>, le: (T, T) -> bool)
    requires TotalPreorder(le) && SortedBy(s, le)
    ensures SortedBy(Insert(x, s, le), le)
  {
    if s != [] && !le(x, s[0]) {
      InsertSorted(x, s[1..], le);
      var rest := Insert(x, s[1..], le);
      forall j | 0 <= j < |rest|
        ensures le(s[0], rest[j])
      {
        assert rest[j] in multiset(rest);
        assert rest[j] == x || rest[j] in s[1..];
      }
    }
  }

  lemma {:induction false} StableSortSorted<T(!new)>(s: seq<T>, le: (T, T) -> bool)
    requires TotalPreorder(le)
    ensures SortedBy(StableSort(s, le), le)
  {
    if s != [] {
      StableSortSorted(s[1..], le);
      InsertSorted(s[0], StableSort(s[1..], le), le);
    }
  }

  lemma {:induction false} InsertBeforeAll<T>(x: T, s: seq<T>, t: seq<T>, le: (T, T) -> bool)
    requires forall y :: y in t ==> le(x, y)
    ensures Insert(x, s + t, le) == Insert(x, s, le) + t
  {
    if s == [] {
      assert [] + t == t;
      if t != [] { assert t[0] in t; }
    } else if !le(x, s[0]) {
      assert (s + t)[1..] == s[1..] + t;
      InsertBeforeAll(x, s[1..], t, le);
    }
  }

  lemma SortedBelow<T>(x: T, t: seq<T>, le: (T, T) -> bool)
    requires forall y :: y in t ==> le(x, y)
    ensures forall y :: y in StableSort(t, le) ==> le(x, y)
  {
    var r := StableSort(t, le);
    forall y | y in r
      ensures le(x, y)
    {
      assert y in multiset(r);
      assert y in multiset(t);
    }
  }

  /** What compares as large as everything before it is sorted behind it. */
  lemma {:induction false} SortAppend<T>(s: seq<T>, t: seq<T>, le: (T, T) -> bool)
    requires forall x, y :: x in s && y in t ==> le(x, y)
    ensures StableSort(s + t, le) == StableSort(s, le) + StableSort(t, le)
  {
    if s == [] {
      assert [] + t == t;
    } else {
      assert (s + t)[1..] == s[1..] + t;
      SortAppend(s[1..], t, le);
      assert forall y :: y in t ==> le(s[0], y) by { assert s[0] in s; }
      SortedBelow(s[0], t, le);
      InsertBeforeAll(s[0], StableSort(s[1..], le), StableSort(t, le), le);
    }
  }

  lemma SameMembers<T>(s: seq<T>, le: (T, T) -> bool)
    ensures forall x :: x in StableSort(s, le) <==> x in s
  {
    forall x
      ensures x in StableSort(s, le) <==> x in s
    {
      assert x in StableSort(s, le) <==> x in multiset(StableSort(s, le));
      assert x in s <==> x in multiset(s);
    }
  }

  lemma CardinalityMono<T>(a: set<T>, b: set<T>)
    requires a <= b
    ensures |a| <= |b|
  {
    if a != {} {
      var x :| x in a;
      CardinalityMono(a - {x}, b - {x});
    }
  }
}
