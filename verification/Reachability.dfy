/**
 Finite directed graphs and the set of nodes that a node reaches. Reachability is the least
 closed set rather than a search for a path, so that it also applies to graphs whose nodes
 are objects.
 */
module Reachability {

  type Graph<T> = map<T, set<T>>

  /** Every edge ends in a node of the graph. */
  ghost predicate Complete<T>(g: Graph<T>) {
    forall x :: x in g ==> g[x] <= g.Keys
  }

  ghost predicate Closed<T>(g: Graph<T>, s: set<T>) {
    forall x :: x in s && x in g ==> g[x] <= s
  }

  /** The nodes that a reaches in zero or more steps: those in every closed set with a. */
  ghost function Reach<T>(g: Graph<T>, a: T): (r: set<T>)
    requires Complete(g) && a in g
    ensures a in r && r <= g.Keys
  {
    set x | x in g.Keys && forall c {:trigger Closed(g, c)} :: c <= g.Keys && Closed(g, c) && a in c ==> x in c
  }

  lemma ReachIsClosed<T>(g: Graph<T>, a: T)
    requires Complete(g) && a in g
    ensures Closed(g, Reach(g, a))
  {
  }

  lemma ReachStep<T>(g: Graph<T>, a: T, x: T)
    requires Complete(g) && a in g && x in Reach(g, a)
    ensures g[x] <= Reach(g, a)
  {
    ReachIsClosed(g, a);
  }

  lemma ReachIsLeast<T>(g: Graph<T>, a: T, c: set<T>)
    requires Complete(g) && a in g && a in c && Closed(g, c)
    ensures Reach(g, a) <= c
  {
    assert Closed(g, c * g.Keys);
  }

  lemma ReachTransitive<T>(g: Graph<T>, a: T, b: T)
    requires Complete(g) && a in g && b in Reach(g, a)
    ensures Reach(g, b) <= Reach(g, a)
  {
    ReachIsClosed(g, a);
    ReachIsLeast(g, b, Reach(g, a));
  }

  /** A graph with fewer nodes and edges reaches less. */
  lemma ReachMonotone<T>(g: Graph<T>, h: Graph<T>, a: T)
    requires Complete(g) && Complete(h) && a in g && g.Keys <= h.Keys
    requires forall x :: x in g ==> g[x] <= h[x]
    ensures Reach(g, a) <= Reach(h, a)
  {
    ReachIsClosed(h, a);
    assert Closed(g, Reach(h, a));
    ReachIsLeast(g, a, Reach(h, a));
  }

  /** The graph without some of its nodes. */
  ghost function Without<T>(g: Graph<T>, cut: set<T>): (h: Graph<T>)
    requires Complete(g)
    ensures Complete(h) && h.Keys == g.Keys - cut
    ensures forall x :: x in h ==> h[x] == g[x] - cut
  {
    map x | x in g && x !in cut :: g[x] - cut
  }

  lemma WithoutNothing<T>(g: Graph<T>)
    requires Complete(g)
    ensures Without(g, {}) == g
  {
    var h := Without(g, {});
    assert h.Keys == g.Keys;
    assert forall x :: x in g ==> h[x] == g[x];
  }
}
