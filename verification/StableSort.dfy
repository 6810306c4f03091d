/**
 Stable sorting by a string key, as Python's sorted does, and what it forgets.
 */
module StableSort {

  /** The order of strings by their first difference. */
  predicate AtMost(a: string, b: string) {
    a == [] || (b != [] && (a[0] < b[0] || (a[0] == b[0] && AtMost(a[1..], b[1..]))))
  }

  lemma {:induction false} AtMostIsTotal(a: string, b: string)
    ensures AtMost(a, b) || AtMost(b, a)
  {
    if a != [] && b != [] {
      AtMostIsTotal(a[1..], b[1..]);
    }
  }

  lemma {:induction false} AtMostBothWays(a: string, b: string)
    requires AtMost(a, b) && AtMost(b, a)
    ensures a == b
  {
    if a != [] {
      AtMostBothWays(a[1..], b[1..]);
    }
  }

  lemma {:induction false} AtMostThrough(a: string, b: string, c: string)
    requires AtMost(a, b) && AtMost(b, c)
    ensures AtMost(a, c)
  {
    if a != [] && a[0] == b[0] == c[0] {
      AtMostThrough(a[1..], b[1..], c[1..]);
    }
  }

  /** An element goes before those with the same key. */
  function Insert<T>(x: T, s: seq<T>, key: T -> string): seq<T> {
    if s == [] || AtMost(key(x), key(s[0])) then [x] + s else [s[0]] + Insert(x, s[1..], key)
  }

  function Sorted<T>(s: seq<T>, key: T -> string): seq<T> {
    if s == [] then [] else Insert(s[0], Sorted(s[1..], key), key)
  }

  /** The elements with a key, in their order. */
  function WithKey<T>(s: seq<T>, key: T -> string, k: string): seq<T> {
    if s == [] then [] else (if key(s[0]) == k then [s[0]] else []) + WithKey(s[1..], key, k)
  }

  ghost predicate Ordered<T>(s: seq<T>, key: T -> string) {
    s == [] || ((forall x :: x in s ==> AtMost(key(s[0]), key(x))) && Ordered(s[1..], key))
  }

  lemma {:induction false} InsertHas<T>(x: T, s: seq<T>, key: T -> string)
    ensures multiset(Insert(x, s, key)) == multiset(s) + multiset{x}
  {
    if s != [] && !AtMost(key(x), key(s[0])) {
      InsertHas(x, s[1..], key);
      assert s == [s[0]] + s[1..];
    }
  }

  lemma {:induction false} SortedHas<T>(s: seq<T>, key: T -> string)
    ensures multiset(Sorted(s, key)) == multiset(s)
  {
    if s != [] {
      SortedHas(s[1..], key);
      InsertHas(s[0], Sorted(s[1..], key), key);
      assert s == [s[0]] + s[1..];
    }
  }

  lemma {:induction false} InsertOrders<T>(x: T, s: seq<T>, key: T -> string)
    requires Ordered(s, key)
    ensures Ordered(Insert(x, s, key), key)
  {
    var r := Insert(x, s, key);
    if s == [] || AtMost(key(x), key(s[0])) {
      forall y | y in r ensures AtMost(key(x), key(y)) {
        AtMostIsTotal(key(x), key(x));
        if y in s {
          AtMostThrough(key(x), key(s[0]), key(y));
        }
      }
      assert r[1..] == s;
    } else {
      InsertOrders(x, s[1..], key);
      InsertHas(x, s[1..], key);
      AtMostIsTotal(key(x), key(s[0]));
      forall y | y in r ensures AtMost(key(s[0]), key(y)) {
        assert y in multiset(Insert(x, s[1..], key)) || y == s[0];
      }
      assert r[1..] == Insert(x, s[1..], key);
    }
  }

  lemma {:induction false} SortedIsOrdered<T>(s: seq<T>, key: T -> string)
    ensures Ordered(Sorted(s, key), key)
  {
    if s != [] {
      SortedIsOrdered(s[1..], key);
      InsertOrders(s[0], Sorted(s[1..], key), key);
    }
  }

  lemma WithKeyOfMore<T>(x: T, s: seq<T>, key: T -> string, k: string)
    ensures WithKey([x] + s, key, k) == (if key(x) == k then [x] else []) + WithKey(s, key, k)
  {
    assert ([x] + s)[1..] == s;
  }

  lemma {:induction false} InsertIsStable<T>(x: T, s: seq<T>, key: T -> string, k: string)
    ensures WithKey(Insert(x, s, key), key, k) == WithKey([x] + s, key, k)
  {
    if s != [] && !AtMost(key(x), key(s[0])) {
      var y, rest := s[0], s[1..];
      assert [y] + rest == s;
      AtMostIsTotal(key(x), key(x));
      InsertIsStable(x, rest, key, k);
      WithKeyOfMore(y, Insert(x, rest, key), key, k);
      WithKeyOfMore(x, rest, key, k);
      WithKeyOfMore(x, s, key, k);
      WithKeyOfMore(y, rest, key, k);
      EitherFirst(if key(y) == k then [y] else [], if key(x) == k then [x] else [], WithKey(rest, key, k));
    }
  }

  lemma EitherFirst<T>(a: seq<T>, b: seq<T>, rest: seq<T>)
    requires a == [] || b == []
    ensures a + (b + rest) == b + (a + rest)
  {
  }

  /** Sorting is stable: elements with one key stay in their order. */
  lemma {:induction false} SortedIsStable<T>(s: seq<T>, key: T -> string, k: string)
    ensures WithKey(Sorted(s, key), key, k) == WithKey(s, key, k)
  {
    if s != [] {
      SortedIsStable(s[1..], key, k);
      InsertIsStable(s[0], Sorted(s[1..], key), key, k);
      assert ([s[0]] + Sorted(s[1..], key))[1..] == Sorted(s[1..], key);
    }
  }

  lemma {:induction false} WithKeyOfOrdered<T>(s: seq<T>, key: T -> string, k: string)
    requires Ordered(s, key) && WithKey(s, key, k) != []
    ensures s != [] && AtMost(key(s[0]), k)
  {
    if key(s[0]) == k {
      AtMostIsTotal(k, k);
    } else {
      WithKeyOfOrdered(s[1..], key, k);
      assert s[1..][0] in s;
      AtMostThrough(key(s[0]), key(s[1..][0]), k);
    }
  }

  lemma HasFirstKey<T>(s: seq<T>, key: T -> string)
    requires s != []
    ensures WithKey(s, key, key(s[0])) != []
  {
  }

  /** An ordered sequence is fixed by what it holds under each key. */
  lemma {:induction false} OrderedIsFixed<T>(a: seq<T>, b: seq<T>, key: T -> string)
    requires Ordered(a, key) && Ordered(b, key) && AgreeOnKeys(a, b, key)
    ensures a == b
  {
    if a == [] {
      if b != [] {
        HasFirstKey(b, key);
      }
    } else {
      assert WithKey(a, key, key(a[0])) == WithKey(b, key, key(a[0]));
      WithKeyOfOrdered(b, key, key(a[0]));
      assert WithKey(a, key, key(b[0])) == WithKey(b, key, key(b[0]));
      WithKeyOfOrdered(a, key, key(b[0]));
      AtMostBothWays(key(a[0]), key(b[0]));
      forall k: string ensures WithKey(a[1..], key, k) == WithKey(b[1..], key, k) {
        assert WithKey(a, key, k) == WithKey(b, key, k);
        assert WithKey(a[1..], key, k) == if key(a[0]) == k then WithKey(a, key, k)[1..] else WithKey(a, key, k);
        assert WithKey(b[1..], key, k) == if key(b[0]) == k then WithKey(b, key, k)[1..] else WithKey(b, key, k);
      }
      OrderedIsFixed(a[1..], b[1..], key);
      assert a[0] == WithKey(a, key, key(a[0]))[0] == WithKey(b, key, key(a[0]))[0] == b[0];
    }
  }

  /** The sequences hold the same under every key, in the same order. */
  ghost predicate AgreeOnKeys<T>(a: seq<T>, b: seq<T>, key: T -> string) {
    forall k: string :: WithKey(a, key, k) == WithKey(b, key, k)
  }

  lemma SameSortedAgree<T>(a: seq<T>, b: seq<T>, key: T -> string)
    requires Sorted(a, key) == Sorted(b, key)
    ensures AgreeOnKeys(a, b, key)
  {
    forall k: string ensures WithKey(a, key, k) == WithKey(b, key, k) {
      SortedIsStable(a, key, k);
      SortedIsStable(b, key, k);
    }
  }

  lemma AgreeingSortSame<T>(a: seq<T>, b: seq<T>, key: T -> string)
    requires AgreeOnKeys(a, b, key)
    ensures Sorted(a, key) == Sorted(b, key)
  {
    SortedIsOrdered(a, key);
    SortedIsOrdered(b, key);
    forall k: string ensures WithKey(Sorted(a, key), key, k) == WithKey(Sorted(b, key), key, k) {
      SortedIsStable(a, key, k);
      SortedIsStable(b, key, k);
    }
    OrderedIsFixed(Sorted(a, key), Sorted(b, key), key);
  }

  /** Two sequences sort to the same exactly when they agree, in order, on every key. */
  lemma SortedSameIff<T>(a: seq<T>, b: seq<T>, key: T -> string)
    ensures Sorted(a, key) == Sorted(b, key) <==> AgreeOnKeys(a, b, key)
  {
    if Sorted(a, key) == Sorted(b, key) {
      SameSortedAgree(a, b, key);
    }
    if AgreeOnKeys(a, b, key) {
      AgreeingSortSame(a, b, key);
    }
  }

  ghost predicate DistinctKeys<T>(s: seq<T>, key: T -> string) {
    forall i, j :: 0 <= i < j < |s| ==> key(s[i]) != key(s[j])
  }

  lemma {:induction false} WithKeyOfDistinct<T>(s: seq<T>, key: T -> string, x: T)
    requires DistinctKeys(s, key) && x in s
    ensures WithKey(s, key, key(x)) == [x]
  {
    if s[0] == x {
      NoOtherWithKey(s[1..], key, key(x));
    } else {
      WithKeyOfDistinct(s[1..], key, x);
      assert exists i :: 1 <= i < |s| && s[i] == x;
    }
  }

  lemma {:induction false} NoOtherWithKey<T>(s: seq<T>, key: T -> string, k: string)
    requires forall x :: x in s ==> key(x) != k
    ensures WithKey(s, key, k) == []
  {
    if s != [] {
      NoOtherWithKey(s[1..], key, k);
    }
  }

  /** With distinct keys, sorting forgets the order and nothing else. */
  lemma SortedForgetsOrder<T>(a: seq<T>, b: seq<T>, key: T -> string)
    requires DistinctKeys(a, key) && DistinctKeys(b, key)
    ensures Sorted(a, key) == Sorted(b, key) <==> multiset(a) == multiset(b)
  {
    SortedHas(a, key);
    SortedHas(b, key);
    if multiset(a) == multiset(b) {
      assert forall x :: x in a <==> x in multiset(a);
      assert forall x :: x in b <==> x in multiset(b);
      forall k: string ensures WithKey(a, key, k) == WithKey(b, key, k) {
        if x :| x in a && key(x) == k {
          WithKeyOfDistinct(a, key, x);
          WithKeyOfDistinct(b, key, x);
        } else {
          NoOtherWithKey(a, key, k);
          NoOtherWithKey(b, key, k);
        }
      }
      SortedSameIff(a, b, key);
    }
  }
}
