/**
 The depth-first dependency sort of xsd/depsort.py, and what it really promises
 about graphs with cycles.
 */
module DependencySort {
  import opened Listings
  import opened Reachability

  type Key = nat  // identity of a schema object

  datatype Entry = Entry(key: Key, deps: seq<Key>)

  /** A Python dictionary: the listing order of its keys, and the collection each maps to. */
  datatype Tree = Tree(order: seq<Key>, deps: map<Key, seq<Key>>)

  ghost predicate Valid(t: Tree) {
    && (forall k :: k in t.order <==> k in t.deps)
    && Distinct(t.order)
  }

  /** The dependencies that are themselves keys; all others are ignored. */
  ghost function Edges(t: Tree): (g: Graph<Key>)
    ensures Complete(g) && g.Keys == t.deps.Keys
    ensures forall k :: k in g ==> forall d :: d in g[k] <==> d in t.deps[k] && d in t.deps
  {
    map k | k in t.deps :: set d | d in t.deps[k] && d in t.deps
  }

  // ----- the sort as a function of the state -----

  datatype State = State(processed: set<Key>, sorted: seq<Entry>)

  function Emitted(s: seq<Entry>): (r: set<Key>) {
    set i | 0 <= i < |s| :: s[i].key
  }

  function SortKey(t: Tree, st: State, key: Key): (r: State)
    requires key in t.deps
    ensures st.processed + {key} <= r.processed
    decreases t.deps.Keys - st.processed, 0
  {
    if key in st.processed then st
    else
      var below := SortDeps(t, st.(processed := st.processed + {key}), t.deps[key]);
      below.(sorted := below.sorted + [Entry(key, t.deps[key])])
  }

  function SortDeps(t: Tree, st: State, deps: seq<Key>): (r: State)
    ensures st.processed <= r.processed
    decreases t.deps.Keys - st.processed, |deps| + 1
  {
    if deps == [] then st
    else if deps[0] !in t.deps then SortDeps(t, st, deps[1..])
    else SortDeps(t, SortKey(t, st, deps[0]), deps[1..])
  }

  function Start(): State { State({}, []) }

  /** The specification of the whole sort. */
  function Sorted(t: Tree): seq<Entry> {
    SortDeps(t, Start(), t.order).sorted
  }

  // ----- what every step keeps -----

  /** Started but not yet emitted: the keys on the recursion stack. */
  ghost function Grey(st: State): set<Key> {
    st.processed - Emitted(st.sorted)
  }

  /** Each listed entry is the tree's own, and no key is listed twice. */
  ghost predicate Faithful(t: Tree, s: seq<Entry>) {
    && (forall i :: 0 <= i < |s| ==> s[i].key in t.deps && s[i].deps == t.deps[s[i].key])
    && (forall i, j :: 0 <= i < j < |s| ==> s[i].key != s[j].key)
  }

  /**
   Every direct dependency b of a either depends back on a, or lies in done together with
   everything that b depends on.
   */
  ghost predicate Settled(g: Graph<Key>, a: Key, done: set<Key>)
    requires Complete(g) && a in g
  {
    forall b :: b in g[a] ==> a in Reach(g, b) || Reach(g, b) <= done
  }

  ghost predicate AllSettled(g: Graph<Key>, s: seq<Entry>)
    requires Complete(g)
  {
    forall i :: 0 <= i < |s| ==> s[i].key in g && Settled(g, s[i].key, Emitted(s[..i]))
  }

  ghost predicate Inv(t: Tree, g: Graph<Key>, st: State)
    requires Complete(g)
  {
    && st.processed <= g.Keys
    && Emitted(st.sorted) <= st.processed
    && Faithful(t, st.sorted)
    && AllSettled(g, st.sorted)
    && (forall x :: x in Emitted(st.sorted) && x in g ==> g[x] <= st.processed)
  }

  ghost predicate AllReach(g: Graph<Key>, s: set<Key>, k: Key)
    requires Complete(g)
  {
    forall x :: x in s ==> x in g && k in Reach(g, x)
  }

  ghost predicate Extends(before: State, after: State) {
    && before.sorted <= after.sorted
    && Grey(after) == Grey(before)
  }

  lemma EmittedAppend(s: seq<Entry>, e: Entry)
    ensures Emitted(s + [e]) == Emitted(s) + {e.key}
  {
    assert forall i :: 0 <= i < |s| ==> (s + [e])[i] == s[i];
    assert (s + [e])[|s|] == e;
    forall k | k in Emitted(s) ensures k in Emitted(s + [e]) {
      var i :| 0 <= i < |s| && s[i].key == k;
      assert (s + [e])[i].key == k;
    }
  }

  /** A finished key that does not lead back to the stack has everything below it finished. */
  lemma FinishedBelow(t: Tree, g: Graph<Key>, st: State, b: Key)
    requires Complete(g) && Inv(t, g, st) && b in st.processed
    requires Reach(g, b) !! Grey(st)
    ensures Reach(g, b) <= Emitted(st.sorted)
  {
    var black := Reach(g, b) * Emitted(st.sorted);
    forall x | x in black ensures g[x] <= black {
      ReachStep(g, b, x);
    }
    ReachIsLeast(g, b, black);
  }

  lemma SettledWhenEmitted(t: Tree, g: Graph<Key>, st: State, key: Key)
    requires Complete(g) && Inv(t, g, st) && key in g && g[key] <= st.processed
    requires AllReach(g, Grey(st), key)
    ensures Settled(g, key, Emitted(st.sorted))
  {
    forall b | b in g[key] && key !in Reach(g, b) ensures Reach(g, b) <= Emitted(st.sorted) {
      forall x | x in Reach(g, b) ensures x !in Grey(st) {
        ReachTransitive(g, b, x);
      }
      FinishedBelow(t, g, st, b);
    }
  }

  lemma EmitKeepsInv(t: Tree, g: Graph<Key>, st: State, key: Key)
    requires Complete(g) && Inv(t, g, st) && key in Grey(st) && AllReach(g, Grey(st), key)
    requires key in t.deps && g[key] <= st.processed
    ensures Inv(t, g, st.(sorted := st.sorted + [Entry(key, t.deps[key])]))
  {
    var e := Entry(key, t.deps[key]);
    var s := st.sorted + [e];
    EmittedAppend(st.sorted, e);
    SettledWhenEmitted(t, g, st, key);
    forall i | 0 <= i < |s| ensures s[i].key in g && Settled(g, s[i].key, Emitted(s[..i])) {
      assert s[..i] == st.sorted[..i];
    }
    assert key !in Emitted(st.sorted);
    assert forall i :: 0 <= i < |st.sorted| ==> st.sorted[i].key in Emitted(st.sorted);
  }

  lemma {:induction false} SortKeyKeepsInv(t: Tree, g: Graph<Key>, st: State, key: Key)
    requires g == Edges(t)
    requires key in t.deps && Inv(t, g, st) && AllReach(g, Grey(st), key)
    ensures Inv(t, g, SortKey(t, st, key))
    ensures Extends(st, SortKey(t, st, key))
    decreases t.deps.Keys - st.processed, 0
  {
    if key !in st.processed {
      var st1 := st.(processed := st.processed + {key});
      assert Grey(st1) == Grey(st) + {key};
      forall d | d in g[key] ensures AllReach(g, Grey(st1), d) {
        forall x | x in Grey(st1) ensures x in g && d in Reach(g, x) {
          assert key in Reach(g, x);
          ReachStep(g, x, key);
        }
      }
      SortDepsKeepsInv(t, g, st1, t.deps[key]);
      var below := SortDeps(t, st1, t.deps[key]);
      assert key in Grey(below);
      EmitKeepsInv(t, g, below, key);
      EmittedAppend(below.sorted, Entry(key, t.deps[key]));
    }
  }

  lemma {:induction false} SortDepsKeepsInv(t: Tree, g: Graph<Key>, st: State, deps: seq<Key>)
    requires g == Edges(t) && Inv(t, g, st)
    requires forall d :: d in deps && d in t.deps ==> AllReach(g, Grey(st), d)
    ensures Inv(t, g, SortDeps(t, st, deps))
    ensures Extends(st, SortDeps(t, st, deps))
    ensures forall d :: d in deps && d in t.deps ==> d in SortDeps(t, st, deps).processed
    decreases t.deps.Keys - st.processed, |deps| + 1
  {
    if deps != [] {
      if deps[0] in t.deps {
        SortKeyKeepsInv(t, g, st, deps[0]);
        SortDepsKeepsInv(t, g, SortKey(t, st, deps[0]), deps[1..]);
      } else {
        SortDepsKeepsInv(t, g, st, deps[1..]);
      }
    }
  }

  // ----- the results -----

  /** Every key of the tree is listed exactly once, with its own dependencies. */
  ghost predicate ListsEachKeyOnce(t: Tree, s: seq<Entry>) {
    Faithful(t, s) && Emitted(s) == t.deps.Keys
  }

  lemma SortIsSound(t: Tree)
    requires Valid(t)
    ensures ListsEachKeyOnce(t, Sorted(t))
    ensures AllSettled(Edges(t), Sorted(t))
  {
    assert Grey(Start()) == {};
    SortDepsKeepsInv(t, Edges(t), Start(), t.order);
    var r := SortDeps(t, Start(), t.order);
    forall k | k in t.deps ensures k in Emitted(r.sorted) {
      assert k in t.order && k !in Grey(r);
    }
  }

  ghost predicate Before(s: seq<Entry>, b: Key, a: Key) {
    exists i, j :: 0 <= i < j < |s| && s[i].key == b && s[j].key == a
  }

  lemma EmittedIsBefore(s: seq<Entry>, j: nat, b: Key)
    requires j < |s| && b in Emitted(s[..j])
    ensures Before(s, b, s[j].key)
  {
    var i :| 0 <= i < |s[..j]| && s[..j][i].key == b;
    assert s[i].key == b;
  }

  /** Each depends, directly or indirectly, on the other. */
  ghost predicate SameCycle(g: Graph<Key>, a: Key, b: Key)
    requires Complete(g)
  {
    a in g && b in g && b in Reach(g, a) && a in Reach(g, b)
  }

  ghost predicate LastOfItsCycle(g: Graph<Key>, s: seq<Entry>, a: Key)
    requires Complete(g)
  {
    forall c :: SameCycle(g, a, c) ==> c == a || Before(s, c, a)
  }

  lemma LastOfCyclePosition(t: Tree, g: Graph<Key>, s: seq<Entry>, a: Key, j: nat, x: Key)
    requires g == Edges(t) && ListsEachKeyOnce(t, s) && AllSettled(g, s)
    requires LastOfItsCycle(g, s, a) && j < |s| && s[j].key == a && SameCycle(g, a, x)
    ensures x in Emitted(s[..j + 1]) && Settled(g, x, Emitted(s[..j + 1]))
  {
    assert x in Emitted(s);
    var i :| 0 <= i < |s| && s[i].key == x;
    assert i <= j;
    assert s[..j + 1][i].key == x;
    assert Emitted(s[..i]) <= Emitted(s[..j + 1]) by {
      assert forall m :: 0 <= m < i ==> s[..i][m] == s[..j + 1][m];
    }
  }

  lemma SettledCycleClosure(g: Graph<Key>, a: Key, upTo: set<Key>)
    requires Complete(g) && a in g
    requires forall x :: SameCycle(g, a, x) ==> x in upTo && Settled(g, x, upTo)
    ensures Reach(g, a) <= upTo
  {
    var settled := set x | x in g && (SameCycle(g, a, x) || Reach(g, x) <= upTo);
    forall x | x in settled ensures g[x] <= settled {
      forall z | z in g[x] ensures z in settled {
        ReachStep(g, x, x);
        ReachTransitive(g, x, z);
        if SameCycle(g, a, x) && x in Reach(g, z) {
          ReachTransitive(g, z, x);
          ReachTransitive(g, a, x);
        }
      }
    }
    ReachIsLeast(g, a, settled);
  }

  /** The member of a dependency cycle that is emitted last follows all that the cycle reaches. */
  lemma LastOfCycleFollowsItsReach(t: Tree, g: Graph<Key>, s: seq<Entry>, a: Key)
    requires g == Edges(t) && ListsEachKeyOnce(t, s) && AllSettled(g, s)
    requires a in g && LastOfItsCycle(g, s, a)
    ensures forall b :: b in Reach(g, a) && b != a ==> Before(s, b, a)
  {
    assert a in Emitted(s);
    var j :| 0 <= j < |s| && s[j].key == a;
    var upTo := Emitted(s[..j + 1]);
    forall x | SameCycle(g, a, x) ensures x in upTo && Settled(g, x, upTo) {
      LastOfCyclePosition(t, g, s, a, j, x);
    }
    SettledCycleClosure(g, a, upTo);
    EmittedUpToIsBefore(s, j);
  }

  lemma EmittedUpToIsBefore(s: seq<Entry>, j: nat)
    requires j < |s|
    ensures forall b :: b in Emitted(s[..j + 1]) && b != s[j].key ==> Before(s, b, s[j].key)
  {
    assert s[..j + 1] == s[..j] + [s[j]];
    EmittedAppend(s[..j], s[j]);
    forall b | b in Emitted(s[..j]) ensures Before(s, b, s[j].key) {
      EmittedIsBefore(s, j, b);
    }
  }

  /** A key on no cycle comes after everything it depends on. */
  lemma OffCycleKeyFollowsItsReach(t: Tree, a: Key)
    requires Valid(t) && a in t.deps
    requires forall c :: SameCycle(Edges(t), a, c) ==> c == a
    ensures forall b :: b in Reach(Edges(t), a) && b != a ==> Before(Sorted(t), b, a)
  {
    SortIsSound(t);
    LastOfCycleFollowsItsReach(t, Edges(t), Sorted(t), a);
  }

  lemma SettledDependencyIsBefore(t: Tree, g: Graph<Key>, s: seq<Entry>, a: Key, b: Key)
    requires g == Edges(t) && ListsEachKeyOnce(t, s) && AllSettled(g, s)
    requires a in g && b in g[a] && a !in Reach(g, b)
    ensures Before(s, b, a)
  {
    assert a in Emitted(s);
    var j :| 0 <= j < |s| && s[j].key == a;
    assert Settled(g, a, Emitted(s[..j]));
    EmittedIsBefore(s, j, b);
  }

  /** The documented clause does hold of direct dependencies, whatever the cycles. */
  lemma DirectDependencyComesFirst(t: Tree, a: Key, b: Key)
    requires Valid(t) && a in t.deps && b in Edges(t)[a] && a !in Reach(Edges(t), b)
    ensures Before(Sorted(t), b, a)
  {
    SortIsSound(t);
    SettledDependencyIsBefore(t, Edges(t), Sorted(t), a, b);
  }

  /** Without cycles the result is a topological order. */
  lemma AcyclicTreeIsTopologicallySorted(t: Tree)
    requires Valid(t)
    requires forall a, b :: SameCycle(Edges(t), a, b) ==> a == b
    ensures forall a, b :: a in t.deps && b in Reach(Edges(t), a) && a != b ==> Before(Sorted(t), b, a)
  {
    forall a | a in t.deps
      ensures forall b :: b in Reach(Edges(t), a) && a != b ==> Before(Sorted(t), b, a)
    {
      OffCycleKeyFollowsItsReach(t, a);
    }
  }

  // ----- the documented clause fails for indirect dependencies out of a cycle -----

  const LEAKY_CYCLE := Tree([0, 1, 2], map[0 := [1, 2], 1 := [0], 2 := []])

  /** Key 1 depends on 2 through 0, while 2 depends on nothing, yet 1 is emitted first. */
  lemma DocumentedOrderFails()
    ensures Valid(LEAKY_CYCLE)
    ensures 2 in Reach(Edges(LEAKY_CYCLE), 1) && 1 !in Reach(Edges(LEAKY_CYCLE), 2)
    ensures Sorted(LEAKY_CYCLE) == [Entry(1, [0]), Entry(2, []), Entry(0, [1, 2])]
  {
    var t := LEAKY_CYCLE;
    var g := Edges(t);
    assert g[1] == {0} && g[0] == {1, 2} && g[2] == {};
    ReachStep(g, 1, 1);
    ReachStep(g, 1, 0);
    ReachIsLeast(g, 2, {2});
    var st0 := State({0}, []);
    var st1 := State({0, 1}, [Entry(1, [0])]);
    var st2 := State({0, 1, 2}, [Entry(1, [0]), Entry(2, [])]);
    var st3 := State({0, 1, 2}, [Entry(1, [0]), Entry(2, []), Entry(0, [1, 2])]);
    assert SortDeps(t, State({0, 1}, []), [0]) == State({0, 1}, []);
    assert SortKey(t, st0, 1) == st1 by { assert {0} + {1} == {0, 1}; }
    assert SortKey(t, st1, 2) == st2 by { assert {0, 1} + {2} == {0, 1, 2}; }
    assert [1, 2][1..] == [2] && [0, 1, 2][1..] == [1, 2];
    assert SortDeps(t, st1, [2]) == st2;
    assert SortDeps(t, st0, [1, 2]) == st2;
    assert SortKey(t, Start(), 0) == st3 by { assert {} + {0} == {0}; }
    assert SortDeps(t, st3, [2]) == st3;
    assert SortDeps(t, st3, [1, 2]) == st3;
  }

  // ----- the recursive procedure on its two shared collections -----

  class Run {
    const tree: Tree
    var processed: set<Key>
    var sorted: seq<Entry>

    constructor (t: Tree)
      ensures tree == t && processed == {} && sorted == []
    {
      tree := t;
      processed, sorted := {}, [];
    }

    function Current(): State
      reads this
    {
      State(processed, sorted)
    }

    method Sort(key: Key)
      requires key in tree.deps
      modifies this
      ensures Current() == SortKey(tree, old(Current()), key)
      decreases tree.deps.Keys - processed, 0
    {
      if key in processed {
        return;
      }
      processed := processed + {key};
      var deps := tree.deps[key];
      SortEach(deps);
      sorted := sorted + [Entry(key, deps)];
    }

    /** The loop over a collection, shared by the recursion and by the whole sort. */
    method SortEach(deps: seq<Key>)
      modifies this
      ensures Current() == SortDeps(tree, old(Current()), deps)
      decreases tree.deps.Keys - processed, 1
    {
      ghost var start := Current();
      for i := 0 to |deps|
        invariant start.processed <= processed
        invariant SortDeps(tree, start, deps) == SortDeps(tree, Current(), deps[i..])
      {
        if deps[i] in tree.deps {
          Sort(deps[i]);
        }
      }
    }
  }

  method DependencySort(t: Tree) returns (sorted: seq<Entry>)
    requires Valid(t)
    ensures sorted == Sorted(t)
    ensures ListsEachKeyOnce(t, sorted) && AllSettled(Edges(t), sorted)
  {
    var run := new Run(t);
    run.SortEach(t.order);
    sorted := run.sorted;
    SortIsSound(t);
  }
}
