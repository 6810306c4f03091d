/**
 Undirected graphs as kept by linking and unlinking pairs of nodes, and why linking only
 unconnected nodes keeps them forests (properties.py).
 */
module LinkGraph {
  import opened Listings
  import opened Reachability

  ghost predicate Symmetric<T>(g: Graph<T>) {
    && Complete(g)
    && (forall x, y :: x in g && y in g && y in g[x] ==> x in g[y])
    && (forall x :: x in g ==> x !in g[x])
  }

  ghost function Join<T>(g: Graph<T>, a: T, b: T): (h: Graph<T>)
    requires Complete(g) && a in g && b in g && a != b
    ensures Complete(h) && h.Keys == g.Keys
  {
    g[a := g[a] + {b}][b := g[b] + {a}]
  }

  ghost function Cut<T>(g: Graph<T>, a: T, b: T): (h: Graph<T>)
    requires Complete(g) && a in g && b in g && a != b
    ensures Complete(h) && h.Keys == g.Keys
  {
    g[a := g[a] - {b}][b := g[b] - {a}]
  }

  /** The link between x and y is the only connection between its two ends. */
  ghost predicate Bridge<T>(g: Graph<T>, x: T, y: T)
    requires Complete(g) && x in g && y in g && x != y
  {
    y !in Reach(Cut(g, x, y), x)
  }

  /** Every link is a bridge, so there is no cycle of links. */
  ghost predicate Forest<T>(g: Graph<T>)
    requires Symmetric(g)
  {
    forall x, y {:trigger Bridge(g, x, y)} :: x in g && y in g && y in g[x] ==> Bridge(g, x, y)
  }

  lemma ReachIsSymmetric<T>(g: Graph<T>, a: T, b: T)
    requires Symmetric(g) && a in g && b in Reach(g, a)
    ensures a in Reach(g, b) && Reach(g, b) == Reach(g, a)
  {
    var back := set x | x in g && a in Reach(g, x);
    forall x | x in back ensures g[x] <= back {
      forall y | y in g[x] ensures y in back {
        ReachStep(g, y, y);
        ReachTransitive(g, y, x);
      }
    }
    ReachIsLeast(g, a, back);
    ReachTransitive(g, a, b);
    ReachTransitive(g, b, a);
  }

  /** What a reaches without the hidden nodes: a itself, and what its neighbours reach without a. */
  lemma ReachByNeighbours<T>(g: Graph<T>, hidden: set<T>, a: T, r: set<T>)
    requires Symmetric(g) && a in g && a !in hidden
    requires forall y :: y in r <==>
                           y == a
                           || exists x :: x in g[a] && x !in hidden + {a} && y in Reach(Without(g, hidden + {a}), x)
    ensures r == Reach(Without(g, hidden), a)
  {
    var w, v := Without(g, hidden), Without(g, hidden + {a});
    assert r <= g.Keys;
    forall y | y in r && y in w ensures w[y] <= r {
      if y == a {
        forall z | z in w[y] ensures z in r {
          assert z in g[a] && z !in hidden + {a} && z in Reach(v, z);
        }
      } else {
        var x :| x in g[a] && x !in hidden + {a} && y in Reach(v, x);
        ReachStep(v, x, y);
      }
    }
    ReachIsLeast(w, a, r);
    ReachStep(w, a, a);
    forall y | y in r ensures y in Reach(w, a) {
      if y != a {
        var x :| x in g[a] && x !in hidden + {a} && y in Reach(v, x);
        ReachMonotone(v, w, x);
        ReachTransitive(w, a, x);
      }
    }
  }

  // ----- forests have no cycles -----

  /** Different nodes, each linked to the next. */
  ghost predicate IsPath<T>(g: Graph<T>, p: seq<T>) {
    && p != [] && Distinct(p) && (forall i :: 0 <= i < |p| ==> p[i] in g)
    && forall i :: 0 <= i < |p| - 1 ==> p[i + 1] in g[p[i]]
  }

  /** A path of at least three nodes whose ends are linked. */
  ghost predicate IsCycle<T>(g: Graph<T>, p: seq<T>) {
    IsPath(g, p) && |p| >= 3 && p[0] in g[p[|p| - 1]]
  }

  lemma {:induction false} BackAlongCycle<T>(g: Graph<T>, p: seq<T>, k: nat)
    requires Symmetric(g) && IsCycle(g, p) && k < |p|
    ensures p[|p| - 1 - k] in Reach(Cut(g, p[|p| - 1], p[0]), p[|p| - 1])
  {
    var x, y := p[|p| - 1], p[0];
    var h := Cut(g, x, y);
    if k > 0 {
      BackAlongCycle(g, p, k - 1);
      var i := |p| - 1 - k;
      assert p[i + 1] in g[p[i]] && p[i] in g[p[i + 1]];
      assert p[i] in h[p[i + 1]] by {
        if i + 1 == |p| - 1 {
          assert p[i] != y;
        } else {
          assert p[i + 1] != x && p[i + 1] != y;
        }
      }
      ReachStep(h, x, p[i + 1]);
    } else {
      ReachStep(h, x, x);
    }
  }

  lemma CycleIsNoBridge<T>(g: Graph<T>, p: seq<T>)
    requires Symmetric(g) && IsCycle(g, p)
    ensures !Bridge(g, p[|p| - 1], p[0])
  {
    BackAlongCycle(g, p, |p| - 1);
  }

  /** The nodes that paths lead to. */
  ghost predicate PathTo<T>(g: Graph<T>, x: T, z: T, p: seq<T>) {
    IsPath(g, p) && p[0] == x && p[|p| - 1] == z
  }

  lemma PathGoesOn<T>(g: Graph<T>, x: T, z: T, p: seq<T>, w: T) returns (q: seq<T>)
    requires Complete(g) && PathTo(g, x, z, p) && w in g[z]
    ensures PathTo(g, x, w, q)
  {
    if i :| 0 <= i < |p| && p[i] == w {
      q := p[..i + 1];
    } else {
      q := p + [w];
    }
  }

  /** Whatever is reached is reached along a path. */
  lemma ReachedByPath<T>(g: Graph<T>, x: T, z: T) returns (p: seq<T>)
    requires Complete(g) && x in g && z in Reach(g, x)
    ensures PathTo(g, x, z, p)
  {
    var s := set y | y in g && exists q :: PathTo(g, x, y, q);
    assert PathTo(g, x, x, [x]);
    forall y | y in s ensures g[y] <= s {
      var q :| PathTo(g, x, y, q);
      forall w | w in g[y] ensures w in s {
        var r := PathGoesOn(g, x, y, q, w);
      }
    }
    ReachIsLeast(g, x, s);
    p :| PathTo(g, x, z, p);
  }

  /** Every link is the only connection of its ends exactly when there is no cycle. */
  lemma ForestIffNoCycle<T>(g: Graph<T>)
    requires Symmetric(g)
    ensures Forest(g) <==> forall p :: !IsCycle(g, p)
  {
    if Forest(g) {
      forall p ensures !IsCycle(g, p) {
        if IsCycle(g, p) {
          CycleIsNoBridge(g, p);
        }
      }
    } else {
      var x, y :| x in g && y in g && y in g[x] && !Bridge(g, x, y);
      var p := ReachedByPath(Cut(g, x, y), x, y);
      assert |p| >= 3 by {
        assert y !in Cut(g, x, y)[x] && (|p| > 1 ==> p[1] in Cut(g, x, y)[x]);
      }
      assert IsPath(g, p) && x in g[y];
      assert IsCycle(g, p);
    }
  }

  // ----- linking -----

  lemma JoinIsSymmetric<T>(g: Graph<T>, a: T, b: T)
    requires Symmetric(g) && a in g && b in g && a != b
    ensures Symmetric(Join(g, a, b))
  {
  }

  /** Linking a and b merges their components and leaves every other component alone. */
  lemma ReachAfterJoin<T>(g: Graph<T>, a: T, b: T, x: T)
    requires Symmetric(g) && a in g && b in g && a != b && x in g
    ensures Reach(Join(g, a, b), x) ==
              if a in Reach(g, x) || b in Reach(g, x) then Reach(g, a) + Reach(g, b) else Reach(g, x)
  {
    var h := Join(g, a, b);
    var both := Reach(g, a) + Reach(g, b);
    if a in Reach(g, x) || b in Reach(g, x) {
      assert x in both by {
        if a in Reach(g, x) { ReachIsSymmetric(g, x, a); } else { ReachIsSymmetric(g, x, b); }
      }
      JoinClosed(g, a, b, both);
      ReachIsLeast(h, x, both);
      JoinReachesBoth(g, a, b, x);
    } else {
      forall y | y in Reach(g, x) ensures h[y] <= Reach(g, x) {
        ReachStep(g, x, y);
      }
      ReachIsLeast(h, x, Reach(g, x));
      ReachMonotone(g, h, x);
    }
  }

  lemma JoinClosed<T>(g: Graph<T>, a: T, b: T, both: set<T>)
    requires Symmetric(g) && a in g && b in g && a != b && both == Reach(g, a) + Reach(g, b)
    ensures Closed(Join(g, a, b), both)
  {
    forall y | y in both ensures Join(g, a, b)[y] <= both {
      if y in Reach(g, a) { ReachStep(g, a, y); } else { ReachStep(g, b, y); }
    }
  }

  lemma JoinReachesBoth<T>(g: Graph<T>, a: T, b: T, x: T)
    requires Symmetric(g) && a in g && b in g && a != b && x in g
    requires a in Reach(g, x) || b in Reach(g, x)
    ensures Reach(g, a) + Reach(g, b) <= Reach(Join(g, a, b), x)
  {
    var h := Join(g, a, b);
    ReachMonotone(g, h, x);
    ReachStep(h, a, a);
    ReachStep(h, b, b);
    if a in Reach(g, x) { ReachTransitive(h, x, a); } else { ReachTransitive(h, x, b); }
    assert a in Reach(h, x) && b in Reach(h, x);
    ReachTransitive(h, x, a);
    ReachTransitive(h, x, b);
    ReachMonotone(g, h, a);
    ReachMonotone(g, h, b);
  }

  lemma CutIsSymmetric<T>(g: Graph<T>, a: T, b: T)
    requires Symmetric(g) && a in g && b in g && a != b
    ensures Symmetric(Cut(g, a, b))
  {
  }

  /** An old link stays the only connection between its ends. */
  lemma OldLinkStaysBridge<T>(g: Graph<T>, a: T, b: T, p: T, q: T)
    requires Symmetric(g) && Forest(g) && a in g && b in g && b !in Reach(g, a)
    requires p in g && q in g[p]
    ensures Bridge(Join(g, a, b), p, q)
  {
    var c, h := Cut(g, p, q), Cut(Join(g, a, b), p, q);
    var side := Reach(c, p);
    assert Bridge(g, p, q);
    CutIsSymmetric(g, p, q);
    if a in side {
      OtherSideApart(g, a, b, p, q);
      CutJoinClosed(g, a, b, p, q, side + Reach(c, b));
      ReachIsLeast(h, p, side + Reach(c, b));
    } else if b in side {
      assert a !in Reach(g, b) by {
        if a in Reach(g, b) { ReachIsSymmetric(g, b, a); }
      }
      OtherSideApart(g, b, a, p, q);
      CutJoinClosed(g, a, b, p, q, side + Reach(c, a));
      ReachIsLeast(h, p, side + Reach(c, a));
    } else {
      CutJoinClosed(g, a, b, p, q, side);
      ReachIsLeast(h, p, side);
    }
  }

  lemma CutJoinClosed<T>(g: Graph<T>, a: T, b: T, p: T, q: T, x: set<T>)
    requires Symmetric(g) && a in g && b in g && a != b && p in g && q in g[p]
    requires b !in g[a] && x <= g.Keys && Closed(Cut(g, p, q), x) && (a in x <==> b in x)
    ensures Closed(Cut(Join(g, a, b), p, q), x)
  {
    var c, h := Cut(g, p, q), Cut(Join(g, a, b), p, q);
    forall y | y in x ensures h[y] <= x {
      assert c[y] <= x;
      assert h[y] <= c[y] + (if y == a then {b} else {}) + (if y == b then {a} else {});
    }
  }

  lemma OtherSideApart<T>(g: Graph<T>, a: T, b: T, p: T, q: T)
    requires Symmetric(g) && a in g && b in g && b !in Reach(g, a) && p in g && q in g[p]
    requires a in Reach(Cut(g, p, q), p)
    ensures q !in Reach(Cut(g, p, q), b)
    ensures b !in g[a] && Symmetric(Cut(g, p, q))
  {
    var c := Cut(g, p, q);
    CutIsSymmetric(g, p, q);
    ReachStep(g, a, a);
    if q in Reach(c, b) {
      ReachMonotone(c, g, b);
      ReachMonotone(c, g, p);
      ReachStep(g, b, q);
      ReachTransitive(g, b, p);
      ReachIsSymmetric(g, b, a);
      assert false;
    }
  }

  /** Linking two unconnected nodes keeps the graph a forest. */
  lemma JoinKeepsForest<T>(g: Graph<T>, a: T, b: T)
    requires Symmetric(g) && Forest(g) && a in g && b in g && b !in Reach(g, a)
    ensures Symmetric(Join(g, a, b)) && Forest(Join(g, a, b))
  {
    var h := Join(g, a, b);
    JoinIsSymmetric(g, a, b);
    ReachStep(g, a, a);
    forall p, q | p in h && q in h && q in h[p] ensures Bridge(h, p, q) {
      if q in g[p] {
        OldLinkStaysBridge(g, a, b, p, q);
      } else {
        assert Cut(h, p, q) == g;
        if p == b && a in Reach(g, b) {
          ReachIsSymmetric(g, b, a);
          assert false;
        }
      }
    }
  }

  /** Taking links away keeps the graph a forest and splits components. */
  lemma SubgraphKeepsForest<T>(g: Graph<T>, h: Graph<T>)
    requires Symmetric(g) && Forest(g) && Symmetric(h) && h.Keys == g.Keys
    requires forall x :: x in g ==> h[x] <= g[x]
    ensures Forest(h)
    ensures forall x :: x in g ==> Reach(h, x) <= Reach(g, x)
  {
    forall p, q | p in h && q in h && q in h[p] ensures Bridge(h, p, q) {
      assert Bridge(g, p, q);
      ReachMonotone(Cut(h, p, q), Cut(g, p, q), p);
    }
    forall x | x in g ensures Reach(h, x) <= Reach(g, x) {
      ReachMonotone(h, g, x);
    }
  }
}
