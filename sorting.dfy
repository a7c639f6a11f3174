/**
 * Python's ordering of `str` values and the two sorts `main` performs:
 * `list.sort` on the products by the key `(brand, name)`, which is
 * stable, and `sorted` on a set of strings.
 */
module Sorting {

  /** `a < b` on Python strings: code point by code point, a proper prefix
      before the longer string. */
  predicate StrLess(a: string, b: string) {
    if a == [] then b != []
    else if b == [] then false
    else if a[0] != b[0] then a[0] < b[0]
    else StrLess(a[1..], b[1..])
  }

  lemma {:induction false} StrLessIrreflexive(a: string)
    ensures !StrLess(a, a)
  {
    if a != [] {
      StrLessIrreflexive(a[1..]);
    }
  }

  lemma {:induction false} StrLessTransitive(a: string, b: string, c: string)
    requires StrLess(a, b) && StrLess(b, c)
    ensures StrLess(a, c)
  {
    if a != [] && b != [] && c != [] && a[0] == b[0] && b[0] == c[0] {
      StrLessTransitive(a[1..], b[1..], c[1..]);
    }
  }

  /** Any two different strings are ordered one way or the other. */
  lemma {:induction false} StrLessTotal(a: string, b: string)
    ensures a == b || StrLess(a, b) || StrLess(b, a)
  {
    if a != [] && b != [] && a[0] == b[0] {
      StrLessTotal(a[1..], b[1..]);
      if a[1..] == b[1..] {
        assert a == [a[0]] + a[1..] && b == [b[0]] + b[1..];
      }
    }
  }

  lemma StrLessAsymmetric(a: string, b: string)
    requires StrLess(a, b)
    ensures !StrLess(b, a)
  {
    if StrLess(b, a) {
      StrLessTransitive(a, b, a);
      StrLessIrreflexive(a);
    }
  }

  // ----- Sorting products by (brand, name) -----

  /** A sort key: the tuple `(major, minor)`. */
  datatype Key = Key(major: string, minor: string)

  /** Tuple order: by the first component, then by the second. */
  predicate KeyLess(x: Key, y: Key) {
    StrLess(x.major, y.major) || (x.major == y.major && StrLess(x.minor, y.minor))
  }

  lemma KeyLessIrreflexive(x: Key)
    ensures !KeyLess(x, x)
  {
    StrLessIrreflexive(x.major);
    StrLessIrreflexive(x.minor);
  }

  lemma KeyLessTransitive(x: Key, y: Key, z: Key)
    requires KeyLess(x, y) && KeyLess(y, z)
    ensures KeyLess(x, z)
  {
    if StrLess(x.major, y.major) && StrLess(y.major, z.major) {
      StrLessTransitive(x.major, y.major, z.major);
    } else if x.major == y.major && y.major == z.major {
      StrLessTransitive(x.minor, y.minor, z.minor);
    }
  }

  lemma KeyLessTotal(x: Key, y: Key)
    ensures x == y || KeyLess(x, y) || KeyLess(y, x)
  {
    StrLessTotal(x.major, y.major);
    StrLessTotal(x.minor, y.minor);
  }

  /** `a` may come before `b`: its key is not greater. */
  predicate NotAfter<T>(a: T, b: T, key: T -> Key) {
    !KeyLess(key(b), key(a))
  }

  /** Non-decreasing by key. */
  ghost predicate SortedBy<T>(xs: seq<T>, key: T -> Key) {
    forall i, j :: 0 <= i < j < |xs| ==> NotAfter(xs[i], xs[j], key)
  }

  /** `x` placed after every element whose key is not greater than its own. */
  function Insert<T>(x: T, xs: seq<T>, key: T -> Key): (r: seq<T>)
    ensures |r| == |xs| + 1
  {
    if xs == [] then [x]
    else if KeyLess(key(x), key(xs[0])) then [x] + xs
    else [xs[0]] + Insert(x, xs[1..], key)
  }

  /** A stable sort by key: the elements are inserted in input order, each
      after the ones with an equal key. */
  function SortBy<T>(xs: seq<T>, key: T -> Key): (r: seq<T>)
    ensures |r| == |xs|
  {
    if xs == [] then []
    else Insert(xs[|xs| - 1], SortBy(xs[..|xs| - 1], key), key)
  }

  lemma {:induction false} InsertPermutes<T>(x: T, xs: seq<T>, key: T -> Key)
    ensures multiset(Insert(x, xs, key)) == multiset(xs) + multiset{x}
  {
    if xs != [] && !KeyLess(key(x), key(xs[0])) {
      InsertPermutes(x, xs[1..], key);
      assert xs == [xs[0]] + xs[1..];
    }
  }

  /** The sort's result is a permutation of its input. */
  lemma {:induction false} SortPermutes<T>(xs: seq<T>, key: T -> Key)
    ensures multiset(SortBy(xs, key)) == multiset(xs)
  {
    if xs != [] {
      SortPermutes(xs[..|xs| - 1], key);
      InsertPermutes(xs[|xs| - 1], SortBy(xs[..|xs| - 1], key), key);
      assert xs == xs[..|xs| - 1] + [xs[|xs| - 1]];
    }
  }

  /** In a sorted sequence whose first key is greater than `k`, every key is. */
  lemma SortedAbove<T>(xs: seq<T>, key: T -> Key, k: Key)
    requires SortedBy(xs, key) && xs != [] && KeyLess(k, key(xs[0]))
    ensures forall j :: 0 <= j < |xs| ==> KeyLess(k, key(xs[j]))
  {
    forall j | 0 < j < |xs|
      ensures KeyLess(k, key(xs[j]))
    {
      KeyLessTotal(key(xs[0]), key(xs[j]));
      if key(xs[0]) != key(xs[j]) {
        KeyLessTransitive(k, key(xs[0]), key(xs[j]));
      }
    }
  }

  lemma {:induction false} InsertSorted<T>(x: T, xs: seq<T>, key: T -> Key)
    requires SortedBy(xs, key)
    ensures SortedBy(Insert(x, xs, key), key)
  {
    var r := Insert(x, xs, key);
    if xs == [] {
    } else if KeyLess(key(x), key(xs[0])) {
      SortedAbove(xs, key, key(x));
      forall j | 0 <= j < |xs|
        ensures NotAfter(x, xs[j], key)
      {
        KeyLessIrreflexive(key(x));
        if KeyLess(key(xs[j]), key(x)) {
          KeyLessTransitive(key(x), key(xs[j]), key(x));
        }
      }
      assert forall j :: 0 < j < |r| ==> r[j] == xs[j - 1];
    } else {
      var tail := Insert(x, xs[1..], key);
      InsertPermutes(x, xs[1..], key);
      SortedTail(xs, key);
      InsertSorted(x, xs[1..], key);
      forall j | 0 <= j < |tail|
        ensures NotAfter(xs[0], tail[j], key)
      {
        assert tail[j] in multiset(tail);
        if tail[j] != x {
          assert tail[j] in multiset(xs[1..]);
          var m :| 0 <= m < |xs[1..]| && xs[1..][m] == tail[j];
          assert xs[m + 1] == tail[j];
        }
      }
      assert forall j :: 0 < j < |r| ==> r[j] == tail[j - 1];
    }
  }

  /** The sort's result is non-decreasing by key. */
  lemma {:induction false} SortSorted<T>(xs: seq<T>, key: T -> Key)
    ensures SortedBy(SortBy(xs, key), key)
  {
    if xs != [] {
      SortSorted(xs[..|xs| - 1], key);
      InsertSorted(xs[|xs| - 1], SortBy(xs[..|xs| - 1], key), key);
    }
  }

  /** The elements with key `k`, in order. */
  function WithKey<T>(xs: seq<T>, key: T -> Key, k: Key): seq<T> {
    if xs == [] then []
    else (if key(xs[0]) == k then [xs[0]] else []) + WithKey(xs[1..], key, k)
  }

  lemma {:induction false} WithKeyAppend<T>(a: seq<T>, b: seq<T>, key: T -> Key, k: Key)
    ensures WithKey(a + b, key, k) == WithKey(a, key, k) + WithKey(b, key, k)
  {
    if a == [] {
      assert a + b == b;
    } else {
      assert (a + b)[1..] == a[1..] + b;
      WithKeyAppend(a[1..], b, key, k);
    }
  }

  lemma {:induction false} WithKeyNone<T>(xs: seq<T>, key: T -> Key, k: Key)
    requires forall j :: 0 <= j < |xs| ==> key(xs[j]) != k
    ensures WithKey(xs, key, k) == []
  {
    if xs != [] {
      WithKeyNone(xs[1..], key, k);
    }
  }

  lemma SortedTail<T>(xs: seq<T>, key: T -> Key)
    requires SortedBy(xs, key) && xs != []
    ensures SortedBy(xs[1..], key)
  {
    forall i, j | 0 <= i < j < |xs| - 1
      ensures NotAfter(xs[1..][i], xs[1..][j], key)
    {
      assert xs[1..][i] == xs[i + 1] && xs[1..][j] == xs[j + 1];
    }
  }

  lemma WithKeyCons<T>(x: T, xs: seq<T>, key: T -> Key, k: Key)
    ensures WithKey([x] + xs, key, k) == (if key(x) == k then [x] else []) + WithKey(xs, key, k)
  {
    assert ([x] + xs)[1..] == xs;
  }

  /** Inserting into a sorted sequence puts `x` after the elements with its key. */
  lemma {:induction false} InsertStable<T>(x: T, xs: seq<T>, key: T -> Key, k: Key)
    requires SortedBy(xs, key)
    ensures WithKey(Insert(x, xs, key), key, k) ==
            WithKey(xs, key, k) + (if key(x) == k then [x] else [])
  {
    var own: seq<T> := if key(x) == k then [x] else [];
    if xs == [] {
      assert Insert(x, xs, key) == [x];
      WithKeyCons(x, [], key, k);
    } else if KeyLess(key(x), key(xs[0])) {
      assert Insert(x, xs, key) == [x] + xs;
      WithKeyCons(x, xs, key, k);
      if key(x) == k {
        SortedAbove(xs, key, k);
        forall j | 0 <= j < |xs|
          ensures key(xs[j]) != k
        {
          KeyLessIrreflexive(k);
        }
        WithKeyNone(xs, key, k);
      }
    } else {
      var tail := Insert(x, xs[1..], key);
      assert Insert(x, xs, key) == [xs[0]] + tail;
      var head: seq<T> := if key(xs[0]) == k then [xs[0]] else [];
      WithKeyCons(xs[0], tail, key, k);
      SortedTail(xs, key);
      InsertStable(x, xs[1..], key, k);
      assert xs == [xs[0]] + xs[1..];
      WithKeyCons(xs[0], xs[1..], key, k);
      calc {
        WithKey(Insert(x, xs, key), key, k);
        head + WithKey(tail, key, k);
        head + (WithKey(xs[1..], key, k) + own);
        (head + WithKey(xs[1..], key, k)) + own;
        WithKey(xs, key, k) + own;
      }
    }
  }

  lemma WithKeySnoc<T>(xs: seq<T>, x: T, key: T -> Key, k: Key)
    ensures WithKey(xs + [x], key, k) == WithKey(xs, key, k) + (if key(x) == k then [x] else [])
  {
    WithKeyAppend(xs, [x], key, k);
    WithKeyCons(x, [], key, k);
    assert [x] + [] == [x];
  }

  /** Stability: the elements with any one key keep their input order. */
  lemma {:induction false} SortStable<T>(xs: seq<T>, key: T -> Key, k: Key)
    ensures WithKey(SortBy(xs, key), key, k) == WithKey(xs, key, k)
  {
    if xs != [] {
      var init, last := xs[..|xs| - 1], xs[|xs| - 1];
      SortStable(init, key, k);
      SortSorted(init, key);
      InsertStable(last, SortBy(init, key), key, k);
      assert xs == init + [last];
      WithKeySnoc(init, last, key, k);
    }
  }

  /** A non-empty sequence has an element with the key of its first one. */
  lemma WithKeyFirst<T>(xs: seq<T>, key: T -> Key)
    ensures xs != [] ==> WithKey(xs, key, key(xs[0])) != []
  {
    if xs != [] {
      WithKeyCons(xs[0], xs[1..], key, key(xs[0]));
      assert xs == [xs[0]] + xs[1..];
    }
  }

  /** A sorted sequence has no element with a key below its first one. */
  lemma WithKeyBelowFirst<T>(xs: seq<T>, key: T -> Key, k: Key)
    requires SortedBy(xs, key)
    ensures xs != [] && KeyLess(k, key(xs[0])) ==> WithKey(xs, key, k) == []
  {
    if xs != [] && KeyLess(k, key(xs[0])) {
      SortedAbove(xs, key, k);
      forall j | 0 <= j < |xs|
        ensures key(xs[j]) != k
      {
        KeyLessIrreflexive(k);
      }
      WithKeyNone(xs, key, k);
    }
  }

  /** Two sequences sorted by key with the same elements, in the same order,
      under every key are the same sequence. */
  lemma {:induction false} SortedGroupsDetermine<T>(a: seq<T>, b: seq<T>, key: T -> Key)
    requires SortedBy(a, key) && SortedBy(b, key)
    requires forall k :: WithKey(a, key, k) == WithKey(b, key, k)
    ensures a == b
    decreases |a|
  {
    WithKeyFirst(a, key);
    WithKeyFirst(b, key);
    if a != [] && b != [] {
      var x, y := a[0], b[0];
      WithKeyBelowFirst(a, key, key(y));
      WithKeyBelowFirst(b, key, key(x));
      KeyLessTotal(key(x), key(y));
      assert key(x) == key(y);
      forall k
        ensures WithKey(a, key, k) == (if key(x) == k then [x] else []) + WithKey(a[1..], key, k)
        ensures WithKey(b, key, k) == (if key(y) == k then [y] else []) + WithKey(b[1..], key, k)
      {
        WithKeyCons(x, a[1..], key, k);
        WithKeyCons(y, b[1..], key, k);
        assert a == [x] + a[1..] && b == [y] + b[1..];
      }
      assert WithKey(a, key, key(x))[0] == x;
      assert x == y;
      forall k
        ensures WithKey(a[1..], key, k) == WithKey(b[1..], key, k)
      {
        var p := if key(x) == k then [x] else [];
        assert (p + WithKey(a[1..], key, k))[|p|..] == WithKey(a[1..], key, k);
        assert (p + WithKey(b[1..], key, k))[|p|..] == WithKey(b[1..], key, k);
      }
      SortedTail(a, key);
      SortedTail(b, key);
      SortedGroupsDetermine(a[1..], b[1..], key);
      assert a == [x] + a[1..];
      assert b == [y] + b[1..];
    }
  }

  /** The stable sort is the only one: any sequence sorted by key that keeps
      the input order of the elements with each key is `SortBy`'s result. */
  lemma SortUnique<T>(xs: seq<T>, ys: seq<T>, key: T -> Key)
    requires SortedBy(ys, key)
    requires forall k :: WithKey(ys, key, k) == WithKey(xs, key, k)
    ensures ys == SortBy(xs, key)
  {
    SortSorted(xs, key);
    forall k
      ensures WithKey(SortBy(xs, key), key, k) == WithKey(xs, key, k)
    {
      SortStable(xs, key, k);
    }
    SortedGroupsDetermine(ys, SortBy(xs, key), key);
  }

  // ----- `sorted` on a set of strings -----

  ghost predicate StrictlyIncreasing(xs: seq<string>) {
    forall i, j :: 0 <= i < j < |xs| ==> StrLess(xs[i], xs[j])
  }

  /** `x` inserted into an increasing sequence that does not hold it. */
  function InsertString(x: string, xs: seq<string>): (r: seq<string>)
    ensures forall y :: y in r <==> y == x || y in xs
    ensures |r| == |xs| + 1
  {
    if xs == [] then [x]
    else if StrLess(x, xs[0]) then [x] + xs
    else [xs[0]] + InsertString(x, xs[1..])
  }

  lemma {:induction false} InsertStringIncreasing(x: string, xs: seq<string>)
    requires StrictlyIncreasing(xs) && x !in xs
    ensures StrictlyIncreasing(InsertString(x, xs))
  {
    var r := InsertString(x, xs);
    if xs == [] {
    } else if StrLess(x, xs[0]) {
      forall j | 0 < j < |xs|
        ensures StrLess(x, xs[j])
      {
        StrLessTransitive(x, xs[0], xs[j]);
      }
      assert forall j :: 0 < j < |r| ==> r[j] == xs[j - 1];
    } else {
      StrLessTotal(x, xs[0]);
      var tail := InsertString(x, xs[1..]);
      InsertStringIncreasing(x, xs[1..]);
      forall j | 0 <= j < |tail|
        ensures StrLess(xs[0], tail[j])
      {
        if tail[j] != x {
          assert tail[j] in xs[1..];
          var m :| 0 <= m < |xs[1..]| && xs[1..][m] == tail[j];
          assert xs[m + 1] == tail[j];
        }
      }
      assert forall j :: 0 < j < |r| ==> r[j] == tail[j - 1];
    }
  }

  /** `sorted(s)` for a set of strings: its elements in increasing order. */
  method SortedStrings(s: set<string>) returns (r: seq<string>)
    ensures StrictlyIncreasing(r)
    ensures forall x :: x in r <==> x in s
    ensures |r| == |s|
  {
    r := [];
    var rest := s;
    while rest != {}
      invariant rest <= s
      invariant StrictlyIncreasing(r)
      invariant forall x :: x in r <==> x in s && x !in rest
      invariant |r| + |rest| == |s|
      decreases |rest|
    {
      var x :| x in rest;
      InsertStringIncreasing(x, r);
      r := InsertString(x, r);
      rest := rest - {x};
    }
  }

  /** The first element of an increasing sequence is its least. */
  lemma FirstIsLeast(a: seq<string>, x: string)
    requires StrictlyIncreasing(a) && x in a
    ensures a[0] == x || StrLess(a[0], x)
  {
    var i :| 0 <= i < |a| && a[i] == x;
    if i > 0 {
      assert StrLess(a[0], a[i]);
    }
  }

  lemma IncreasingTail(a: seq<string>)
    requires StrictlyIncreasing(a) && a != []
    ensures StrictlyIncreasing(a[1..])
  {
    forall i, j | 0 <= i < j < |a| - 1
      ensures StrLess(a[1..][i], a[1..][j])
    {
      assert a[1..][i] == a[i + 1] && a[1..][j] == a[j + 1];
    }
  }

  /** Only one increasing sequence holds a given set of strings, so the
      result of `sorted` is determined. */
  lemma {:induction false} IncreasingUnique(a: seq<string>, b: seq<string>)
    requires StrictlyIncreasing(a) && StrictlyIncreasing(b)
    requires forall x :: x in a <==> x in b
    ensures a == b
  {
    if a != [] {
      assert a[0] in b;
    }
    if b != [] {
      assert b[0] in a;
    }
    if a != [] && b != [] {
      FirstIsLeast(a, b[0]);
      FirstIsLeast(b, a[0]);
      StrLessIrreflexive(a[0]);
      if StrLess(a[0], b[0]) {
        StrLessAsymmetric(a[0], b[0]);
      }
      assert a[0] == b[0];
      forall x
        ensures x in a[1..] <==> x in b[1..]
      {
        if x in a[1..] {
          var i :| 0 <= i < |a[1..]| && a[1..][i] == x;
          assert StrLess(a[0], a[i + 1]);
          StrLessIrreflexive(x);
          assert x in b && x != b[0];
          var m :| 0 <= m < |b| && b[m] == x;
          assert b[1..][m - 1] == x;
        }
        if x in b[1..] {
          var i :| 0 <= i < |b[1..]| && b[1..][i] == x;
          assert StrLess(b[0], b[i + 1]);
          StrLessIrreflexive(x);
          assert x in a && x != a[0];
          var m :| 0 <= m < |a| && a[m] == x;
          assert a[1..][m - 1] == x;
        }
      }
      IncreasingTail(a);
      IncreasingTail(b);
      IncreasingUnique(a[1..], b[1..]);
      assert a == [a[0]] + a[1..] && b == [b[0]] + b[1..];
    }
  }
}
