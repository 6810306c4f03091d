/**
 Replacing prefixes by default namespaces (Element.refitPrefixes), and exactly when the
 elements keep their namespaces.
 */
module XmlRefit {
  import opened Options
  import opened XmlTree

  function Refit(t: Tree, env: Env): (r: Tree)
    decreases t, 1
  {
    var uri := if t.prefix.Some? then Resolve(t.prefix.value, Inside(t, env).scope) else None;
    t.(children := RefitAll(t.children, Inside(t, env)),
       expns := if uri.Some? then uri else t.expns,
       prefix := None,
       nsprefixes := map[])
  }

  function RefitAll(ts: seq<Tree>, env: Env): (r: seq<Tree>)
    ensures |r| == |ts|
    decreases ts, 0
  {
    if ts == [] then [] else [Refit(ts[0], env)] + RefitAll(ts[1..], env)
  }

  /** No element of the tree has a prefix or declares one. */
  ghost predicate PrefixFree(t: Tree) {
    t.prefix.None? && t.nsprefixes == map[] && AllPrefixFree(t.children)
  }

  ghost predicate AllPrefixFree(ts: seq<Tree>) {
    ts == [] || (PrefixFree(ts[0]) && AllPrefixFree(ts[1..]))
  }

  lemma {:induction false} RefitIsPrefixFree(t: Tree, env: Env)
    ensures PrefixFree(Refit(t, env))
    decreases t, 1
  {
    RefitAllArePrefixFree(t.children, Inside(t, env));
  }

  lemma {:induction false} RefitAllArePrefixFree(ts: seq<Tree>, env: Env)
    ensures AllPrefixFree(RefitAll(ts, env))
    decreases ts, 0
  {
    if ts != [] {
      RefitIsPrefixFree(ts[0], env);
      RefitAllArePrefixFree(ts[1..], env);
      assert RefitAll(ts, env)[1..] == RefitAll(ts[1..], env);
    }
  }

  /** The namespace and local name of every element; attributes are not rewritten. */
  datatype ElementNames = ElementNames(uri: Option<string>, local: string, children: seq<ElementNames>)

  function NamesOf(t: Tree, env: Env): ElementNames
    decreases t, 1
  {
    ElementNames(Uri(t, env), t.name, NamesOfEach(t.children, Inside(t, env)))
  }

  function NamesOfEach(ts: seq<Tree>, env: Env): (r: seq<ElementNames>)
    ensures |r| == |ts|
    decreases ts, 0
  {
    if ts == [] then [] else [NamesOf(ts[0], env)] + NamesOfEach(ts[1..], env)
  }

  /**
   Each element has a resolvable prefix, or no prefix and its own default namespace, or is in
   the same namespace as its parent and names none of its own. above is the parent's namespace.
   */
  ghost predicate Refittable(t: Tree, env: Env, above: Option<string>)
    decreases t, 1
  {
    && (|| (t.prefix.Some? && Resolve(t.prefix.value, Inside(t, env).scope).Some?)
        || (t.prefix.None? && t.expns.Some?)
        || (t.expns.None? && Uri(t, env) == above))
    && AllRefittable(t.children, Inside(t, env), Uri(t, env))
  }

  ghost predicate AllRefittable(ts: seq<Tree>, env: Env, above: Option<string>)
    decreases ts, 0
  {
    ts == [] || (Refittable(ts[0], env, above) && AllRefittable(ts[1..], env, above))
  }

  lemma {:induction false} RefitKeepsNames(t: Tree, env: Env, after: Env)
    ensures NamesOf(Refit(t, env), after) == NamesOf(t, env) <==> Refittable(t, env, after.default)
    decreases t, 1
  {
    var inner := Inside(Refit(t, env), after);
    RefitAllKeepsNames(t.children, Inside(t, env), inner);
    assert Uri(Refit(t, env), after) == inner.default;
  }

  lemma {:induction false} RefitAllKeepsNames(ts: seq<Tree>, env: Env, after: Env)
    ensures NamesOfEach(RefitAll(ts, env), after) == NamesOfEach(ts, env) <==> AllRefittable(ts, env, after.default)
    decreases ts, 0
  {
    if ts != [] {
      RefitKeepsNames(ts[0], env, after);
      RefitAllKeepsNames(ts[1..], env, after);
      var x, y := NamesOfEach(RefitAll(ts, env), after), NamesOfEach(ts, env);
      assert RefitAll(ts, env)[1..] == RefitAll(ts[1..], env);
      assert x[1..] == NamesOfEach(RefitAll(ts[1..], env), after) && y[1..] == NamesOfEach(ts[1..], env);
      assert x == y <==> x[0] == y[0] && x[1..] == y[1..];
    }
  }

  /** A message keeps the namespace of every element exactly when it is refittable. */
  lemma RefitKeepsNamesIffRefittable(t: Tree)
    ensures NamesOf(Refit(t, OUTSIDE), OUTSIDE) == NamesOf(t, OUTSIDE) <==> Refittable(t, OUTSIDE, None)
  {
    RefitKeepsNames(t, OUTSIDE, OUTSIDE);
  }

  const PREFIXED_PARENT := Element(Some("p"), "a", None, map["p" := "u"], [], None,
                                  [Element(None, "b", None, map[], [], None, [])])

  /** An unqualified child of a qualified element is moved into its parent's namespace. */
  lemma UnqualifiedChildIsCaptured()
    ensures Uri(PREFIXED_PARENT.children[0], Inside(PREFIXED_PARENT, OUTSIDE)) == None
    ensures var r := Refit(PREFIXED_PARENT, OUTSIDE); Uri(r.children[0], Inside(r, OUTSIDE)) == Some("u")
  {
    assert RefitAll(PREFIXED_PARENT.children, Inside(PREFIXED_PARENT, OUTSIDE))[0]
           == Refit(PREFIXED_PARENT.children[0], Inside(PREFIXED_PARENT, OUTSIDE));
  }
}
