/**
 When the order documented by xsd/depsort.py is kept on a graph with cycles: exactly when no
 path into a key can cut it off from something that it depends on but that does not depend
 on it.
 */
module DependencyShield {
  import opened Listings
  import opened Reachability
  import opened DependencySort

  /** The documented order: what a key depends on comes first, unless both share a cycle. */
  ghost predicate DocumentedOrder(g: Graph<Key>, s: seq<Entry>)
    requires Complete(g)
  {
    forall a, b :: a in g && b in Reach(g, a) && a !in Reach(g, b) ==> Before(s, b, a)
  }

  ghost predicate SimplePath(g: Graph<Key>, p: seq<Key>) {
    && p != []
    && (forall i :: 0 <= i < |p| ==> p[i] in g)
    && (forall i :: 0 <= i < |p| - 1 ==> p[i + 1] in g[p[i]])
    && Distinct(p)
  }

  ghost function Elements(p: seq<Key>): set<Key> {
    set k | k in p
  }

  /** The earlier keys of path p, which ends in a, lie on every way from a to b. */
  ghost predicate Shields(g: Graph<Key>, p: seq<Key>, a: Key, b: Key)
    requires Complete(g)
  {
    && SimplePath(g, p) && p[|p| - 1] == a
    && a !in Elements(p[..|p| - 1])
    && b !in Reach(Without(g, Elements(p[..|p| - 1])), a)
  }

  ghost predicate NoShield(g: Graph<Key>)
    requires Complete(g)
  {
    forall p, a, b :: a in g && b in Reach(g, a) && a !in Reach(g, b) ==> !Shields(g, p, a, b)
  }

  // ----- enough: the recursion stack is a path -----

  /** The keys emitted before and with a include all that a reaches around its stack. */
  ghost predicate StackWitness(g: Graph<Key>, p: seq<Key>, a: Key, done: set<Key>)
    requires Complete(g)
  {
    && SimplePath(g, p) && p[|p| - 1] == a
    && a !in Elements(p[..|p| - 1])
    && Reach(Without(g, Elements(p[..|p| - 1])), a) <= done
  }

  ghost predicate Witnessed(g: Graph<Key>, a: Key, done: set<Key>)
    requires Complete(g)
  {
    exists p :: StackWitness(g, p, a, done)
  }

  ghost predicate AllWitnessed(g: Graph<Key>, s: seq<Entry>)
    requires Complete(g)
  {
    forall i :: 0 <= i < |s| ==> Witnessed(g, s[i].key, Emitted(s[..i + 1]))
  }

  ghost predicate StackIs(g: Graph<Key>, st: State, stack: seq<Key>) {
    && Elements(stack) == Grey(st)
    && (stack == [] || SimplePath(g, stack))
  }

  lemma EmitWitness(t: Tree, g: Graph<Key>, st: State, stack: seq<Key>, key: Key)
    requires Complete(g) && Inv(t, g, st) && key in t.deps && key in g && g[key] <= st.processed
    requires StackIs(g, st, stack + [key])
    ensures StackWitness(g, stack + [key], key, Emitted(st.sorted + [Entry(key, t.deps[key])]))
  {
    var p := stack + [key];
    assert p[..|p| - 1] == stack;
    assert p[|p| - 1] == key;
    var around := Without(g, Elements(stack));
    var done := Emitted(st.sorted) + {key};
    forall x | x in done && x in around ensures around[x] <= done {
      forall y | y in around[x] ensures y in done {
        assert y in st.processed;
        if y !in Emitted(st.sorted) {
          assert y in Elements(p);
        }
      }
    }
    ReachIsLeast(around, key, done);
    EmittedAppend(st.sorted, Entry(key, t.deps[key]));
  }

  lemma WitnessAppend(g: Graph<Key>, s: seq<Entry>, e: Entry, p: seq<Key>)
    requires Complete(g) && AllWitnessed(g, s) && StackWitness(g, p, e.key, Emitted(s + [e]))
    ensures AllWitnessed(g, s + [e])
  {
    var r := s + [e];
    forall i | 0 <= i < |r| ensures Witnessed(g, r[i].key, Emitted(r[..i + 1])) {
      if i < |s| {
        assert r[..i + 1] == s[..i + 1];
      } else {
        assert r[..i + 1] == r;
      }
    }
  }

  lemma {:induction false} SortKeyWitnessed(t: Tree, g: Graph<Key>, st: State, stack: seq<Key>, key: Key)
    requires g == Edges(t) && key in t.deps && Inv(t, g, st) && AllReach(g, Grey(st), key)
    requires StackIs(g, st, stack) && AllWitnessed(g, st.sorted)
    requires stack == [] || key in g[stack[|stack| - 1]]
    ensures AllWitnessed(g, SortKey(t, st, key).sorted)
    decreases t.deps.Keys - st.processed, 0
  {
    if key !in st.processed {
      SortKeyKeepsInv(t, g, st, key);
      var st1 := st.(processed := st.processed + {key});
      assert Grey(st1) == Grey(st) + {key};
      PushedStack(t, g, st, stack, key);
      forall d | d in g[key] ensures AllReach(g, Grey(st1), d) {
        ReachExtended(g, Grey(st), key, d);
      }
      SortDepsKeepsInv(t, g, st1, t.deps[key]);
      SortDepsWitnessed(t, g, st1, stack + [key], t.deps[key]);
      var below := SortDeps(t, st1, t.deps[key]);
      EmitWitness(t, g, below, stack, key);
      WitnessAppend(g, below.sorted, Entry(key, t.deps[key]), stack + [key]);
    }
  }

  lemma PushedStack(t: Tree, g: Graph<Key>, st: State, stack: seq<Key>, key: Key)
    requires Complete(g) && Inv(t, g, st) && key in g && key !in st.processed
    requires StackIs(g, st, stack) && (stack == [] || key in g[stack[|stack| - 1]])
    ensures StackIs(g, st.(processed := st.processed + {key}), stack + [key])
  {
    assert forall k :: k in stack ==> k in Elements(stack);
    assert Elements(stack + [key]) == Elements(stack) + {key};
    assert forall i :: 0 <= i < |stack| ==> stack[i] in stack;
  }

  lemma ReachExtended(g: Graph<Key>, s: set<Key>, key: Key, d: Key)
    requires Complete(g) && key in g && AllReach(g, s, key) && d in g[key]
    ensures AllReach(g, s + {key}, d)
  {
    forall x | x in s + {key} ensures x in g && d in Reach(g, x) {
      assert key in Reach(g, x);
      ReachStep(g, x, key);
    }
  }

  lemma {:induction false} SortDepsWitnessed(t: Tree, g: Graph<Key>, st: State, stack: seq<Key>, deps: seq<Key>)
    requires g == Edges(t) && Inv(t, g, st)
    requires forall d :: d in deps && d in t.deps ==> AllReach(g, Grey(st), d)
    requires StackIs(g, st, stack) && AllWitnessed(g, st.sorted)
    requires stack == [] || forall d :: d in deps && d in t.deps ==> d in g[stack[|stack| - 1]]
    ensures AllWitnessed(g, SortDeps(t, st, deps).sorted)
    decreases t.deps.Keys - st.processed, |deps| + 1
  {
    if deps != [] {
      if deps[0] in t.deps {
        SortKeyKeepsInv(t, g, st, deps[0]);
        SortKeyWitnessed(t, g, st, stack, deps[0]);
        SortDepsWitnessed(t, g, SortKey(t, st, deps[0]), stack, deps[1..]);
      } else {
        SortDepsWitnessed(t, g, st, stack, deps[1..]);
      }
    }
  }

  lemma UnshieldedIsDone(g: Graph<Key>, a: Key, b: Key, done: set<Key>)
    requires Complete(g) && NoShield(g) && Witnessed(g, a, done)
    requires a in g && b in Reach(g, a) && a !in Reach(g, b)
    ensures b in done && a != b
  {
    var p :| StackWitness(g, p, a, done);
    assert !Shields(g, p, a, b);
  }

  lemma WitnessGivesOrder(g: Graph<Key>, s: seq<Entry>, a: Key, b: Key)
    requires Complete(g) && NoShield(g) && AllWitnessed(g, s) && a in Emitted(s)
    requires a in g && b in Reach(g, a) && a !in Reach(g, b)
    ensures Before(s, b, a)
  {
    var j :| 0 <= j < |s| && s[j].key == a;
    assert Witnessed(g, s[j].key, Emitted(s[..j + 1]));
    UnshieldedIsDone(g, a, b, Emitted(s[..j + 1]));
    DoneGivesOrder(s, j, b);
  }

  lemma DoneGivesOrder(s: seq<Entry>, j: nat, b: Key)
    requires j < |s| && b in Emitted(s[..j + 1]) && b != s[j].key
    ensures Before(s, b, s[j].key)
  {
    assert s[..j + 1] == s[..j] + [s[j]];
    EmittedAppend(s[..j], s[j]);
    EmittedIsBefore(s, j, b);
  }

  lemma UnshieldedGivesOrder(t: Tree)
    requires Valid(t) && NoShield(Edges(t))
    ensures DocumentedOrder(Edges(t), Sorted(t))
  {
    var g, s := Edges(t), Sorted(t);
    assert Grey(Start()) == {} == Elements([]);
    SortDepsWitnessed(t, g, Start(), [], t.order);
    SortIsSound(t);
    forall a, b | a in g && b in Reach(g, a) && a !in Reach(g, b) ensures Before(s, b, a) {
      WitnessGivesOrder(g, s, a, b);
    }
  }

  // ----- necessary: a listing that walks the shielding path first -----

  /** The same keys and dependencies, possibly listed in another order. */
  ghost predicate Relisting(t: Tree, u: Tree) {
    Valid(u) && Edges(u) == Edges(t)
  }

  /** The dependencies of each key on p start with the next key of p. */
  ghost predicate WalksFirst(t: Tree, p: seq<Key>) {
    && (forall i :: 0 <= i < |p| ==> p[i] in t.deps)
    && (forall i :: 0 <= i < |p| - 1 ==> t.deps[p[i]] != [] && t.deps[p[i]][0] == p[i + 1])
    && t.order != [] && p != [] && t.order[0] == p[0]
  }

  function Remove(s: seq<Key>, k: Key): (r: seq<Key>)
    ensures forall x :: x in r <==> x in s && x != k
    ensures Distinct(s) ==> Distinct(r)
  {
    if s == [] then []
    else
      var rest := Remove(s[1..], k);
      assert forall x :: x in s <==> x == s[0] || x in s[1..];
      assert Distinct(s) ==> s[0] !in s[1..];
      if s[0] == k then rest else [s[0]] + rest
  }

  ghost function NextOn(p: seq<Key>, k: Key): seq<Key> {
    if exists i :: 0 <= i < |p| - 1 && p[i] == k then
      var i :| 0 <= i < |p| - 1 && p[i] == k;
      [p[i + 1]]
    else []
  }

  ghost function WalkListing(t: Tree, p: seq<Key>): Tree
    requires p != []
  {
    Tree([p[0]] + Remove(t.order, p[0]), map k | k in t.deps :: NextOn(p, k) + t.deps[k])
  }

  lemma WalkListingRelists(t: Tree, p: seq<Key>)
    requires Valid(t) && SimplePath(Edges(t), p)
    ensures Relisting(t, WalkListing(t, p)) && WalksFirst(WalkListing(t, p), p)
  {
    var u := WalkListing(t, p);
    WalkListingEdges(t, u, p);
    WalkListingOrder(t, u, p);
    WalkListingStarts(t, Edges(t), u, p);
  }

  lemma WalkListingStarts(t: Tree, g: Graph<Key>, u: Tree, p: seq<Key>)
    requires SimplePath(g, p) && g.Keys == t.deps.Keys && u == WalkListing(t, p)
    ensures WalksFirst(u, p)
  {
    forall i | 0 <= i < |p| - 1 ensures u.deps[p[i]] != [] && u.deps[p[i]][0] == p[i + 1] {
      assert NextOn(p, p[i]) == [p[i + 1]];
    }
  }

  lemma WalkListingEdges(t: Tree, u: Tree, p: seq<Key>)
    requires SimplePath(Edges(t), p) && u == WalkListing(t, p)
    ensures Edges(u) == Edges(t)
  {
    var g, h := Edges(t), Edges(u);
    forall k | k in g ensures h[k] == g[k] {
      WalkListingEdgesAt(t, u, p, g, h, k);
    }
    assert h.Keys == g.Keys;
  }

  lemma WalkListingEdgesAt(t: Tree, u: Tree, p: seq<Key>, g: Graph<Key>, h: Graph<Key>, k: Key)
    requires SimplePath(g, p) && u == WalkListing(t, p) && g == Edges(t) && h == Edges(u) && k in g
    ensures h[k] == g[k]
  {
    assert u.deps[k] == NextOn(p, k) + t.deps[k];
    forall d ensures d in h[k] <==> d in g[k] {
      if d in NextOn(p, k) {
        var i :| 0 <= i < |p| - 1 && p[i] == k && d == p[i + 1];
      }
    }
  }

  lemma WalkListingOrder(t: Tree, u: Tree, p: seq<Key>)
    requires Valid(t) && p != [] && p[0] in t.deps && u == WalkListing(t, p)
    ensures Valid(u)
  {
    var rest := Remove(t.order, p[0]);
    assert forall k :: k in u.order <==> k == p[0] || k in rest;
    forall i, j | 0 <= i < j < |u.order| ensures u.order[i] != u.order[j] {
      assert u.order[j] == rest[j - 1];
      if i > 0 {
        assert u.order[i] == rest[i - 1];
      }
    }
  }

  lemma {:induction false} SortKeyStaysIn(t: Tree, g: Graph<Key>, st: State, key: Key, cut: set<Key>, area: set<Key>)
    requires g == Edges(t) && key in t.deps && key in area && cut <= st.processed <= area
    requires forall x :: x in area - cut && x in g ==> g[x] <= area
    ensures SortKey(t, st, key).processed <= area
    decreases t.deps.Keys - st.processed, 0
  {
    if key !in st.processed {
      SortDepsStaysIn(t, g, st.(processed := st.processed + {key}), t.deps[key], cut, area);
    }
  }

  lemma {:induction false} SortDepsStaysIn(t: Tree, g: Graph<Key>, st: State, deps: seq<Key>, cut: set<Key>,
                                           area: set<Key>)
    requires g == Edges(t) && cut <= st.processed <= area
    requires forall d :: d in deps && d in t.deps ==> d in area
    requires forall x :: x in area - cut && x in g ==> g[x] <= area
    ensures SortDeps(t, st, deps).processed <= area
    decreases t.deps.Keys - st.processed, |deps| + 1
  {
    if deps != [] {
      if deps[0] in t.deps {
        SortKeyStaysIn(t, g, st, deps[0], cut, area);
        SortDepsStaysIn(t, g, SortKey(t, st, deps[0]), deps[1..], cut, area);
      } else {
        SortDepsStaysIn(t, g, st, deps[1..], cut, area);
      }
    }
  }

  lemma {:induction false} SortKeyExtends(t: Tree, st: State, key: Key)
    requires key in t.deps
    ensures st.sorted <= SortKey(t, st, key).sorted
    decreases t.deps.Keys - st.processed, 0
  {
    if key !in st.processed {
      SortDepsExtends(t, st.(processed := st.processed + {key}), t.deps[key]);
    }
  }

  lemma {:induction false} SortDepsExtends(t: Tree, st: State, deps: seq<Key>)
    ensures st.sorted <= SortDeps(t, st, deps).sorted
    decreases t.deps.Keys - st.processed, |deps| + 1
  {
    if deps != [] {
      if deps[0] in t.deps {
        SortKeyExtends(t, st, deps[0]);
        SortDepsExtends(t, SortKey(t, st, deps[0]), deps[1..]);
      } else {
        SortDepsExtends(t, st, deps[1..]);
      }
    }
  }

  /** The listing starts with keys that include a but not b. */
  ghost predicate EmitsWithout(s: seq<Entry>, a: Key, b: Key) {
    exists n :: 0 < n <= |s| && s[n - 1].key == a && b !in Emitted(s[..n])
  }

  lemma EmitsWithoutExtends(s: seq<Entry>, r: seq<Entry>, a: Key, b: Key)
    requires EmitsWithout(s, a, b) && s <= r
    ensures EmitsWithout(r, a, b)
  {
    var n :| 0 < n <= |s| && s[n - 1].key == a && b !in Emitted(s[..n]);
    assert r[..n] == s[..n];
  }

  lemma NotBeforeIfWithout(t: Tree, s: seq<Entry>, a: Key, b: Key)
    requires Faithful(t, s) && EmitsWithout(s, a, b)
    ensures !Before(s, b, a)
  {
    var n :| 0 < n <= |s| && s[n - 1].key == a && b !in Emitted(s[..n]);
    forall i, j | 0 <= i < j < |s| && s[j].key == a ensures s[i].key != b {
      assert j == n - 1;
      assert s[..n][i] == s[i];
    }
  }

  lemma EndOfPathEmits(t: Tree, g: Graph<Key>, p: seq<Key>, a: Key, b: Key)
    requires g == Edges(t) && Shields(g, p, a, b)
    requires a != b && b !in Elements(p[..|p| - 1])
    ensures EmitsWithout(SortKey(t, State(Elements(p[..|p| - 1]), []), a).sorted, a, b)
  {
    var cut := Elements(p[..|p| - 1]);
    var around := Without(g, cut);
    var area := cut + Reach(around, a);
    forall x | x in area - cut && x in g ensures g[x] <= area {
      ReachStep(around, a, x);
    }
    var st := State(cut, []);
    SortKeyStaysIn(t, g, st, a, cut, area);
    EmittedAreProcessed(t, st, a);
    var s := SortKey(t, st, a).sorted;
    assert s[..|s|] == s;
    assert s[|s| - 1].key == a;
  }

  lemma EmittedAreProcessed(t: Tree, st: State, key: Key)
    requires key in t.deps && Emitted(st.sorted) <= st.processed
    ensures Emitted(SortKey(t, st, key).sorted) <= SortKey(t, st, key).processed
    decreases t.deps.Keys - st.processed, 0
  {
    if key !in st.processed {
      DepsEmittedAreProcessed(t, st.(processed := st.processed + {key}), t.deps[key]);
      EmittedAppend(SortDeps(t, st.(processed := st.processed + {key}), t.deps[key]).sorted,
                    Entry(key, t.deps[key]));
    }
  }

  lemma DepsEmittedAreProcessed(t: Tree, st: State, deps: seq<Key>)
    requires Emitted(st.sorted) <= st.processed
    ensures Emitted(SortDeps(t, st, deps).sorted) <= SortDeps(t, st, deps).processed
    decreases t.deps.Keys - st.processed, |deps| + 1
  {
    if deps != [] {
      if deps[0] in t.deps {
        EmittedAreProcessed(t, st, deps[0]);
        DepsEmittedAreProcessed(t, SortKey(t, st, deps[0]), deps[1..]);
      } else {
        DepsEmittedAreProcessed(t, st, deps[1..]);
      }
    }
  }

  lemma {:induction false} Descend(t: Tree, g: Graph<Key>, p: seq<Key>, a: Key, b: Key, i: nat)
    requires g == Edges(t) && Shields(g, p, a, b) && WalksFirst(t, p) && i < |p|
    requires a != b && b !in Elements(p[..|p| - 1])
    ensures EmitsWithout(SortKey(t, State(Elements(p[..i]), []), p[i]).sorted, a, b)
    decreases |p| - i
  {
    if i == |p| - 1 {
      EndOfPathEmits(t, g, p, a, b);
    } else {
      Descend(t, g, p, a, b, i + 1);
      ElementsOfPrefix(g, p, i);
      FirstDependencyEmits(t, State(Elements(p[..i]), []), State(Elements(p[..i + 1]), []), p[i], p[i + 1], a, b);
    }
  }

  lemma ElementsOfPrefix(g: Graph<Key>, p: seq<Key>, i: nat)
    requires SimplePath(g, p) && i < |p|
    ensures Elements(p[..i + 1]) == Elements(p[..i]) + {p[i]} && p[i] !in Elements(p[..i])
  {
    assert p[..i + 1] == p[..i] + [p[i]];
  }

  lemma FirstDependencyEmits(t: Tree, st: State, st1: State, k: Key, next: Key, a: Key, b: Key)
    requires k in t.deps && k !in st.processed && st1 == State(st.processed + {k}, st.sorted)
    requires next in t.deps && t.deps[k] != [] && t.deps[k][0] == next
    requires EmitsWithout(SortKey(t, st1, next).sorted, a, b)
    ensures EmitsWithout(SortKey(t, st, k).sorted, a, b)
  {
    var deps := t.deps[k];
    SortDepsExtends(t, SortKey(t, st1, next), deps[1..]);
    assert SortDeps(t, st1, deps) == SortDeps(t, SortKey(t, st1, next), deps[1..]);
    EmitsWithoutExtends(SortKey(t, st1, next).sorted, SortKey(t, st, k).sorted, a, b);
  }

  lemma ShieldBreaksOrder(t: Tree, p: seq<Key>, a: Key, b: Key)
    requires Valid(t) && a in Edges(t) && b in Reach(Edges(t), a) && a !in Reach(Edges(t), b)
    requires Shields(Edges(t), p, a, b)
    ensures Relisting(t, WalkListing(t, p))
    ensures !DocumentedOrder(Edges(t), Sorted(WalkListing(t, p)))
  {
    var u := WalkListing(t, p);
    WalkListingRelists(t, p);
    SortIsSound(u);
    WalkedListingMisorders(u, Edges(u), p, a, b);
  }

  lemma WalkedListingMisorders(u: Tree, g: Graph<Key>, p: seq<Key>, a: Key, b: Key)
    requires g == Edges(u) && a in g && b in Reach(g, a) && a !in Reach(g, b)
    requires Shields(g, p, a, b) && WalksFirst(u, p) && ListsEachKeyOnce(u, Sorted(u))
    ensures !Before(Sorted(u), b, a)
  {
    PathReachesItsEnd(g, p, a);
    assert p[..0] == [] && Elements(p[..0]) == {};
    Descend(u, g, p, a, b, 0);
    SortDepsExtends(u, SortKey(u, Start(), p[0]), u.order[1..]);
    var s := Sorted(u);
    EmitsWithoutExtends(SortKey(u, Start(), p[0]).sorted, s, a, b);
    NotBeforeIfWithout(u, s, a, b);
  }

  lemma {:induction false} PathReachesItsEnd(g: Graph<Key>, p: seq<Key>, a: Key)
    requires Complete(g) && SimplePath(g, p) && p[|p| - 1] == a
    ensures forall x :: x in Elements(p) ==> a in Reach(g, x)
    decreases |p|
  {
    if |p| > 1 {
      PathReachesItsEnd(g, p[1..], a);
      assert p[1] in Elements(p[1..]);
      ReachStep(g, p[0], p[0]);
      ReachTransitive(g, p[0], p[1]);
      forall x | x in Elements(p) ensures a in Reach(g, x) {
        if x != p[0] {
          assert x in Elements(p[1..]);
        }
      }
    }
  }

  /**
   The documented order holds for every way of listing the graph exactly when no path
   shields a key from what it depends on.
   */
  lemma DocumentedOrderIffNoShield(t: Tree)
    requires Valid(t)
    ensures NoShield(Edges(t)) <==>
              forall u :: Relisting(t, u) ==> DocumentedOrder(Edges(t), Sorted(u))
  {
    if NoShield(Edges(t)) {
      forall u | Relisting(t, u) ensures DocumentedOrder(Edges(t), Sorted(u)) {
        UnshieldedGivesOrder(u);
      }
    } else {
      var p, a, b :| a in Edges(t) && b in Reach(Edges(t), a) && a !in Reach(Edges(t), b)
                     && Shields(Edges(t), p, a, b);
      ShieldBreaksOrder(t, p, a, b);
    }
  }
}
