/**
 The prefix normalizer object of sax/element.py: the branch as a list, the set of its
 namespaces, their generated prefixes, and the two passes that rewrite the element objects.
 */
module XmlNormalizer {
  import opened Listings
  import opened Options
  import opened XmlTree
  import opened XmlNormalize
  import opened XmlElement

  ghost function Preorder(sh: Shape): seq<Element>
    decreases sh, 1
  {
    [sh.root] + PreorderOfAll(sh.kids)
  }

  ghost function PreorderOfAll(shs: seq<Shape>): seq<Element>
    decreases shs, 0
  {
    if shs == [] then [] else Preorder(shs[0]) + PreorderOfAll(shs[1..])
  }

  lemma {:induction false} MembersOfSum(a: seq<Element>, b: seq<Element>)
    ensures Members(a + b) == Members(a) + Members(b)
    ensures Distinct(a) && Distinct(b) && Members(a) !! Members(b) ==> Distinct(a + b)
  {
    if Distinct(a) && Distinct(b) && Members(a) !! Members(b) {
      forall i, j | 0 <= i < j < |a + b| ensures (a + b)[i] != (a + b)[j] {
        if i < |a| <= j {
          assert a[i] in Members(a) && b[j - |a|] in Members(b);
        }
      }
    }
  }

  lemma {:induction false} PreorderListsNodes(sh: Shape, links: Links)
    requires Fits(sh, links)
    ensures Members(Preorder(sh)) == Nodes(sh) && Distinct(Preorder(sh))
    decreases sh, 1
  {
    PreorderOfAllListsNodes(sh.kids, sh.root, links);
    MembersOfSum([sh.root], PreorderOfAll(sh.kids));
  }

  lemma {:induction false} PreorderOfAllListsNodes(shs: seq<Shape>, parent: Element, links: Links)
    requires FitAll(shs, parent, links)
    ensures Members(PreorderOfAll(shs)) == NodesOfAll(shs) && Distinct(PreorderOfAll(shs))
    decreases shs, 0
  {
    if shs != [] {
      PreorderListsNodes(shs[0], links);
      PreorderOfAllListsNodes(shs[1..], parent, links);
      MembersOfSum(Preorder(shs[0]), PreorderOfAll(shs[1..]));
    }
  }

  // ----- each element with its ancestors -----

  ghost function Chains(sh: Shape, above: seq<Element>): (r: map<Element, seq<Element>>)
    decreases sh, 1
  {
    ChainsOfAll(sh.kids, [sh.root] + above)[sh.root := [sh.root] + above]
  }

  ghost function ChainsOfAll(shs: seq<Shape>, above: seq<Element>): map<Element, seq<Element>>
    decreases shs, 0
  {
    if shs == [] then map[] else Chains(shs[0], above) + ChainsOfAll(shs[1..], above)
  }

  ghost predicate GoodChain(e: Element, chain: seq<Element>, links: Links, u: set<Element>) {
    Chain(e, chain, links) && Within(chain, u)
  }

  lemma {:induction false} ChainsStayInside(sh: Shape, above: seq<Element>, e: Element)
    requires e in Chains(sh, above)
    ensures Members(Chains(sh, above)[e]) <= Nodes(sh) + Members(above)
    decreases sh, 1
  {
    if e != sh.root {
      ChainsOfAllStayInside(sh.kids, [sh.root] + above, e);
    }
  }

  lemma {:induction false} ChainsOfAllStayInside(shs: seq<Shape>, above: seq<Element>, e: Element)
    requires e in ChainsOfAll(shs, above)
    ensures Members(ChainsOfAll(shs, above)[e]) <= NodesOfAll(shs) + Members(above)
    decreases shs, 0
  {
    if e in ChainsOfAll(shs[1..], above) {
      ChainsOfAllStayInside(shs[1..], above, e);
    } else {
      ChainsStayInside(shs[0], above, e);
    }
  }

  lemma {:induction false} ChainsAreGood(sh: Shape, above: seq<Element>, links: Links, u: set<Element>)
    requires Fits(sh, links) && Chain(links[sh.root].parent, above, links) && Within(above, u) && Nodes(sh) <= u
    ensures Chains(sh, above).Keys == Nodes(sh)
    ensures forall e :: e in Nodes(sh) ==> GoodChain(e, Chains(sh, above)[e], links, u)
    decreases sh, 1
  {
    var below := [sh.root] + above;
    assert below[1..] == above;
    ChainsOfAllAreGood(sh.kids, sh.root, below, links, u);
  }

  lemma {:induction false} ChainsOfAllAreGood(shs: seq<Shape>, parent: Element, above: seq<Element>, links: Links,
                                              u: set<Element>)
    requires FitAll(shs, parent, links) && Chain(parent, above, links) && Within(above, u) && NodesOfAll(shs) <= u
    ensures ChainsOfAll(shs, above).Keys == NodesOfAll(shs)
    ensures forall e :: e in NodesOfAll(shs) ==> GoodChain(e, ChainsOfAll(shs, above)[e], links, u)
    decreases shs, 0
  {
    if shs != [] {
      ChainsAreGood(shs[0], above, links, u);
      ChainsOfAllAreGood(shs[1..], parent, above, links, u);
    }
  }

  // ----- the namespaces -----

  ghost function UrisOf(nodes: seq<Element>, s: Fields): set<string>
    requires Within(nodes, s.Keys)
  {
    if nodes == [] then {} else OwnUris(s[nodes[0]].expns, s[nodes[0]].nsprefixes) + UrisOf(nodes[1..], s)
  }

  lemma {:induction false} UrisOfMember(nodes: seq<Element>, s: Fields, e: Element)
    requires Within(nodes, s.Keys) && e in nodes
    ensures OwnUris(s[e].expns, s[e].nsprefixes) <= UrisOf(nodes, s)
  {
    if nodes[0] != e {
      UrisOfMember(nodes[1..], s, e);
    }
  }

  lemma {:induction false} UrisOfSum(a: seq<Element>, b: seq<Element>, s: Fields)
    requires Within(a, s.Keys) && Within(b, s.Keys)
    ensures Within(a + b, s.Keys) && UrisOf(a + b, s) == UrisOf(a, s) + UrisOf(b, s)
  {
    if a == [] {
      assert a + b == b;
    } else {
      UrisOfSum(a[1..], b, s);
      assert (a + b)[1..] == a[1..] + b;
    }
  }

  lemma {:induction false} UrisOfAncestors(above: seq<Element>, s: Fields)
    requires Within(above, s.Keys)
    ensures UrisOf(above, s) == UrisAbove(Declarations(above, s))
  {
    if above != [] {
      UrisOfAncestors(above[1..], s);
      assert Declarations(above, s)[1..] == Declarations(above[1..], s);
    }
  }

  lemma {:induction false} UrisOfBranch(sh: Shape, s: Fields)
    requires Nodes(sh) <= s.Keys
    ensures Within(Preorder(sh), s.Keys) && UrisOf(Preorder(sh), s) == BranchUris(View(sh, s))
    decreases sh, 1
  {
    UrisOfBranches(sh.kids, s);
    assert Preorder(sh)[1..] == PreorderOfAll(sh.kids);
  }

  lemma {:induction false} UrisOfBranches(shs: seq<Shape>, s: Fields)
    requires NodesOfAll(shs) <= s.Keys
    ensures Within(PreorderOfAll(shs), s.Keys) && UrisOf(PreorderOfAll(shs), s) == BranchUrisOfAll(ViewAll(shs, s))
    decreases shs, 0
  {
    if shs != [] {
      UrisOfBranch(shs[0], s);
      UrisOfBranches(shs[1..], s);
      UrisOfSum(Preorder(shs[0]), PreorderOfAll(shs[1..]), s);
      assert ViewAll(shs, s)[1..] == ViewAll(shs[1..], s);
    }
  }

  /** Whatever a prefix resolves to on an element is declared by some element of its chain. */
  lemma {:induction false} ChainScopeListed(chain: seq<Element>, s: Fields, uris: seq<string>)
    requires Within(chain, s.Keys)
    requires forall e, v :: e in chain && v in OwnUris(s[e].expns, s[e].nsprefixes) ==> v in uris
    ensures ScopeListed(EnvAt(chain, s).scope, uris)
  {
    if chain != [] {
      var e := chain[0];
      ChainScopeListed(chain[1..], s, uris);
      assert Declarations(chain, s)[1..] == Declarations(chain[1..], s);
      forall p | p in s[e].nsprefixes && Permitted(p, s[e].nsprefixes[p]) ensures s[e].nsprefixes[p] in uris {
        assert s[e].nsprefixes[p] in OwnUris(s[e].expns, s[e].nsprefixes);
      }
    }
  }

  // ----- the two passes, on snapshots -----

  ghost function NewRecord(e: Record, scope: Scope, uris: seq<string>): Record {
    e.(prefix := NewOption(e.prefix, scope, uris), attributes := NewAttributes(e.attributes, scope, uris))
  }

  /** The snapshot once the elements in done have their names rewritten. */
  ghost function Renamed(done: set<Element>, chains: map<Element, seq<Element>>, s: Fields,
                         uris: seq<string>): (r: Fields)
    requires ChainsWithin(chains, s.Keys)
    ensures r.Keys == s.Keys
  {
    map e | e in s :: if e in done && e in chains then NewRecord(s[e], EnvAt(chains[e], s).scope, uris) else s[e]
  }

  /** The snapshot once the elements in done have lost their declarations. */
  ghost function Cleared(done: set<Element>, s: Fields): (r: Fields)
    ensures r.Keys == s.Keys
  {
    map e | e in s :: if e in done then s[e].(nsprefixes := map[]) else s[e]
  }

  lemma ClearedOneMore(branch: seq<Element>, i: nat, s: Fields)
    requires i < |branch| && branch[i] in s
    ensures var before := Cleared(Members(branch[..i]), s);
            Cleared(Members(branch[..i + 1]), s) == before[branch[i] := before[branch[i]].(nsprefixes := map[])]
  {
    assert branch[..i + 1] == branch[..i] + [branch[i]];
  }

  ghost function NormalizeIn(sh: Shape, above: seq<Element>, s: Fields, uris: seq<string>): (r: Fields)
    requires ChainsWithin(Chains(sh, above), s.Keys)
    ensures r.Keys == s.Keys
  {
    var c := Cleared(Nodes(sh), Renamed(Nodes(sh), Chains(sh, above), s, uris));
    if sh.root in c then c[sh.root := c[sh.root].(nsprefixes := PrefixTable(uris, |uris|))] else c
  }

  /** r is s with the given part of a tree renamed and cleared. */
  ghost predicate Rewritten(on: set<Element>, chains: map<Element, seq<Element>>, s: Fields, r: Fields,
                            uris: seq<string>)
  {
    && on <= s.Keys && on <= r.Keys && on <= chains.Keys
    && (forall e :: e in on ==>
          Within(chains[e], s.Keys)
          && r[e] == NewRecord(s[e], EnvAt(chains[e], s).scope, uris).(nsprefixes := map[]))
  }

  lemma {:induction false} RewrittenView(sh: Shape, above: seq<Element>, links: Links, s: Fields, r: Fields,
                                         uris: seq<string>)
    requires Fits(sh, links) && Within(above, s.Keys)
    requires Nodes(sh) <= s.Keys && Rewritten(Nodes(sh), Chains(sh, above), s, r, uris)
    ensures View(sh, r) == RefitNode(View(sh, s), EnvAt(above, s), uris)
    decreases sh, 1
  {
    EnvBelow(sh.root, above, s);
    RewrittenKids(sh, above, links, s, r, uris);
    assert NewAttributes(s[sh.root].attributes, EnvAt([sh.root] + above, s).scope, uris) == r[sh.root].attributes;
  }

  lemma {:induction false} RewrittenKids(sh: Shape, above: seq<Element>, links: Links, s: Fields, r: Fields,
                                         uris: seq<string>)
    requires Fits(sh, links) && Within(above, s.Keys) && Nodes(sh) <= s.Keys
    requires Rewritten(NodesOfAll(sh.kids), Chains(sh, above), s, r, uris)
    ensures ViewAll(sh.kids, r) == RefitNodes(ViewAll(sh.kids, s), Inside(View(sh, s), EnvAt(above, s)), uris)
    decreases sh, 0
  {
    var below := [sh.root] + above;
    EnvBelow(sh.root, above, s);
    assert Rewritten(NodesOfAll(sh.kids), ChainsOfAll(sh.kids, below), s, r, uris) by {
      ChainsOfAllKeys(sh.kids, below);
    }
    RewrittenViews(sh.kids, sh.root, below, links, s, r, uris);
  }

  lemma {:induction false} ChainsKeys(sh: Shape, above: seq<Element>)
    ensures Chains(sh, above).Keys == Nodes(sh)
    decreases sh, 1
  {
    ChainsOfAllKeys(sh.kids, [sh.root] + above);
  }

  lemma {:induction false} ChainsOfAllKeys(shs: seq<Shape>, above: seq<Element>)
    ensures ChainsOfAll(shs, above).Keys == NodesOfAll(shs)
    decreases shs, 0
  {
    if shs != [] {
      ChainsKeys(shs[0], above);
      ChainsOfAllKeys(shs[1..], above);
    }
  }

  lemma {:induction false} RewrittenViews(shs: seq<Shape>, parent: Element, above: seq<Element>, links: Links,
                                          s: Fields, r: Fields, uris: seq<string>)
    requires FitAll(shs, parent, links) && Within(above, s.Keys)
    requires NodesOfAll(shs) <= s.Keys && Rewritten(NodesOfAll(shs), ChainsOfAll(shs, above), s, r, uris)
    ensures ViewAll(shs, r) == RefitNodes(ViewAll(shs, s), EnvAt(above, s), uris)
    decreases shs, 0
  {
    if shs != [] {
      ChainsKeys(shs[0], above);
      ChainsOfAllKeys(shs[1..], above);
      RewrittenView(shs[0], above, links, s, r, uris);
      RewrittenViews(shs[1..], parent, above, links, s, r, uris);
      assert ViewAll(shs, s)[1..] == ViewAll(shs[1..], s);
    }
  }

  /** Rewriting the objects of a branch normalizes the tree that they stand for. */
  lemma {:induction false} NormalizeInIsNormalize(sh: Shape, above: seq<Element>, links: Links, s: Fields,
                                                  uris: seq<string>)
    requires Fits(sh, links) && s.Keys == links.Keys && Nodes(sh) <= s.Keys
    requires Chain(links[sh.root].parent, above, links) && Within(above, s.Keys)
    ensures ChainsWithin(Chains(sh, above), s.Keys)
    ensures View(sh, NormalizeIn(sh, above, s, uris)) == Normalize(View(sh, s), Declarations(above, s), uris)
    ensures Agree(s, NormalizeIn(sh, above, s, uris), s.Keys - Nodes(sh))
  {
    ChainsAreGood(sh, above, links, s.Keys);
    var r := NormalizeIn(sh, above, s, uris);
    var c := Cleared(Nodes(sh), Renamed(Nodes(sh), Chains(sh, above), s, uris));
    assert Rewritten(Nodes(sh), Chains(sh, above), s, c, uris);
    RewrittenView(sh, above, links, s, c, uris);
    ViewAllAgrees(sh.kids, c, r);
  }

  // ----- the loops, on snapshots -----

  /** The two snapshots declare the same. */
  ghost predicate SameDeclarations(s: Fields, r: Fields) {
    s.Keys == r.Keys && forall e :: e in s ==> s[e].expns == r[e].expns && s[e].nsprefixes == r[e].nsprefixes
  }

  lemma {:induction false} ScopeStays(chain: seq<Element>, s: Fields, r: Fields)
    requires SameDeclarations(s, r) && Within(chain, s.Keys)
    ensures EnvAt(chain, s) == EnvAt(chain, r)
  {
    DeclarationsAgree(chain, s, r);
  }

  lemma {:induction false} RenamedNone(chains: map<Element, seq<Element>>, s: Fields, uris: seq<string>)
    requires ChainsWithin(chains, s.Keys)
    ensures Renamed({}, chains, s, uris) == s
  {
  }

  lemma {:induction false} RenamedOneMore(done: set<Element>, e: Element, chains: map<Element, seq<Element>>,
                                          s: Fields, uris: seq<string>)
    requires e in s && e in chains && e !in done
    requires ChainsWithin(chains, s.Keys)
    ensures SameDeclarations(s, Renamed(done, chains, s, uris))
    ensures Renamed(done, chains, s, uris)[e] == s[e]
    ensures Renamed(done + {e}, chains, s, uris) ==
              Renamed(done, chains, s, uris)[e := NewRecord(s[e], EnvAt(chains[e], s).scope, uris)]
  {
    var before, after := Renamed(done, chains, s, uris), Renamed(done + {e}, chains, s, uris);
    assert forall x :: x in s && x != e ==> before[x] == after[x];
  }

  lemma {:induction false} PrefixMembers(branch: seq<Element>, i: nat)
    requires Distinct(branch) && i < |branch|
    ensures branch[i] !in Members(branch[..i]) && Members(branch[..i + 1]) == Members(branch[..i]) + {branch[i]}
  {
    assert branch[..i + 1] == branch[..i] + [branch[i]];
  }

  // ----- the object -----

  /** The generated prefix of each listed namespace. */
  ghost predicate Assigns(prefixes: map<string, string>, uris: seq<string>) {
    && (forall v :: v in prefixes <==> v in uris)
    && (forall v :: v in uris ==> prefixes[v] == PrefixFor(uris, v))
  }

  lemma AssignedApart(prefixes: map<string, string>, uris: seq<string>)
    requires Assigns(prefixes, uris) && Distinct(uris)
    ensures forall v, w :: v in prefixes && w in prefixes && v != w ==> prefixes[v] != prefixes[w]
  {
    forall v, w | v in prefixes && w in prefixes && v != w ensures prefixes[v] != prefixes[w] {
      OnePrefixPerUri(uris, v, w);
    }
  }

  class PrefixNormalizer {
    const node: Element
    var branch: seq<Element>
    var namespaces: set<string>
    var prefixes: map<string, string>
    ghost var uris: seq<string>

    constructor (node: Element, ghost sh: Shape, ghost above: seq<Element>, ghost u: set<Element>, ghost links: Links,
                 ghost s: Fields)
      requires Shows(u, links) && sh.root == node && Fits(sh, links) && Nodes(sh) <= u
      requires Chain(node.parent, above, links) && Within(above, u) && s == FieldsOf(u)
      ensures this.node == node && branch == Preorder(sh)
      ensures Assigns(prefixes, uris) && Lists(uris, View(sh, s), Declarations(above, s))
    {
      this.node := node;
      var elements, declared := BranchAndNamespaces(node, sh, above, u, links);
      var generated;
      ghost var listed;
      generated, listed := GeneratedFor(declared, sh, above, s);
      branch, namespaces, prefixes, uris := elements, declared, generated, listed;
    }

    static method GeneratedFor(namespaces: set<string>, ghost sh: Shape, ghost above: seq<Element>, ghost s: Fields)
      returns (prefixes: map<string, string>, ghost uris: seq<string>)
      requires Nodes(sh) <= s.Keys && Within(above, s.Keys) && Within(Preorder(sh) + above, s.Keys)
      requires namespaces == UrisOf(Preorder(sh) + above, s)
      ensures Assigns(prefixes, uris) && Lists(uris, View(sh, s), Declarations(above, s))
    {
      prefixes, uris := GenPrefixes(namespaces);
      ListsAll(sh, above, s, uris);
    }

    static method BranchAndNamespaces(e: Element, ghost sh: Shape, ghost above: seq<Element>, ghost u: set<Element>,
                                      ghost links: Links)
      returns (b: seq<Element>, r: set<string>)
      requires Shows(u, links) && sh.root == e && Fits(sh, links) && Nodes(sh) <= u
      requires Chain(e.parent, above, links) && Within(above, u)
      ensures b == Preorder(sh) && Within(b + above, u) && r == UrisOf(b + above, FieldsOf(u))
    {
      b := Branch(e, sh, u, links);
      var ancestors := Ancestors(e.parent, above, u, links);
      UrisOfBranch(sh, FieldsOf(u));
      UrisOfSum(b, ancestors, FieldsOf(u));
      r := GetNamespaces(b + ancestors, u);
    }

    /** The elements of the branch, each before those below it. */
    static method Branch(e: Element, ghost sh: Shape, ghost u: set<Element>, ghost links: Links)
      returns (b: seq<Element>)
      requires Shows(u, links) && sh.root == e && Fits(sh, links) && Nodes(sh) <= u
      ensures b == Preorder(sh)
      decreases sh
    {
      b := [e];
      for i := 0 to |e.children|
        invariant FitAll(sh.kids[i..], e, links) && NodesOfAll(sh.kids[i..]) <= u
        invariant b + PreorderOfAll(sh.kids[i..]) == Preorder(sh)
      {
        NextKid(sh.kids, i, e, links);
        var more := Branch(e.children[i], sh.kids[i], u, links);
        assert b + (more + PreorderOfAll(sh.kids[i + 1..])) == (b + more) + PreorderOfAll(sh.kids[i + 1..]);
        b := b + more;
      }
      assert b + [] == b;
    }

    static method Ancestors(e: Element?, ghost above: seq<Element>, ghost u: set<Element>, ghost links: Links)
      returns (r: seq<Element>)
      requires Shows(u, links) && Chain(e, above, links) && Within(above, u)
      ensures r == above
    {
      r := [];
      var p := e;
      ghost var rest := above;
      while p != null
        invariant Chain(p, rest, links) && Within(rest, u) && r + rest == above
        decreases |rest|
      {
        r := r + [p];
        p := p.parent;
        rest := rest[1..];
      }
    }

    static method GetNamespaces(nodes: seq<Element>, ghost u: set<Element>) returns (r: set<string>)
      requires Within(nodes, u)
      ensures r == UrisOf(nodes, FieldsOf(u))
    {
      r := {};
      for i := 0 to |nodes|
        invariant r + UrisOf(nodes[i..], FieldsOf(u)) == UrisOf(nodes, FieldsOf(u))
      {
        var n := nodes[i];
        assert nodes[i..][0] == n && nodes[i..][1..] == nodes[i + 1..];
        r := r + OwnUris(n.expns, n.nsprefixes);
      }
    }

    static method GenPrefixes(namespaces: set<string>) returns (r: map<string, string>, ghost listed: seq<string>)
      ensures r.Keys == namespaces && forall v, w :: v in r && w in r && v != w ==> r[v] != r[w]
      ensures Assigns(r, listed) && forall v :: v in listed <==> v in namespaces
      ensures Distinct(listed)
    {
      r, listed := map[], [];
      var todo, n := namespaces, 0;
      while todo != {}
        invariant todo <= namespaces && n == |listed|
        invariant forall v :: v in listed <==> v in namespaces - todo
        invariant Distinct(listed)
        invariant Assigns(r, listed)
        decreases todo
      {
        var v :| v in todo;
        todo := todo - {v};
        IndexOfAppended(listed, v);
        r := r[v := Generated(n)];
        listed := listed + [v];
        n := n + 1;
      }
      AssignedApart(r, listed);
    }

    method Refit(ghost sh: Shape, ghost above: seq<Element>, ghost u: set<Element>, ghost links: Links)
      requires Shows(u, links) && sh.root == node && Fits(sh, links) && Nodes(sh) <= u
      requires Chain(node.parent, above, links) && Within(above, u)
      requires branch == Preorder(sh) && Assigns(prefixes, uris)
      requires Lists(uris, View(sh, FieldsOf(u)), Declarations(above, FieldsOf(u)))
      requires ChainsWithin(Chains(sh, above), u)
      modifies u`prefix, u`attributes, u`nsprefixes
      ensures FieldsOf(u) == NormalizeIn(sh, above, old(FieldsOf(u)), uris)
    {
      ghost var s := FieldsOf(u);
      PreorderListsNodes(sh, links);
      ChainsAreGood(sh, above, links, u);
      forall e | e in Nodes(sh) ensures Refittable(e, Chains(sh, above), links, s, uris) {
        ScopesListed(sh, above, s, uris, e);
      }
      RefitNodes(Chains(sh, above), u, links);
      RefitMappings(u);
    }

    method RefitNodes(ghost chains: map<Element, seq<Element>>, ghost u: set<Element>, ghost links: Links)
      requires Shows(u, links) && Distinct(branch) && Members(branch) <= u && Assigns(prefixes, uris)
      requires chains.Keys == Members(branch) && ChainsWithin(chains, u)
      requires AllRefittable(chains, links, FieldsOf(u), uris)
      modifies u`prefix, u`attributes
      ensures FieldsOf(u) == Renamed(Members(branch), chains, old(FieldsOf(u)), uris)
    {
      ghost var s := FieldsOf(u);
      RenamedNone(chains, s, uris);
      assert branch[..0] == [] && branch[..|branch|] == branch;
      for i := 0 to |branch|
        invariant FieldsOf(u) == Renamed(Members(branch[..i]), chains, s, uris)
      {
        RefitNext(i, chains, s, u, links);
      }
    }

    method RefitNext(i: nat, ghost chains: map<Element, seq<Element>>, ghost s: Fields, ghost u: set<Element>,
                     ghost links: Links)
      requires Shows(u, links) && Distinct(branch) && Members(branch) <= u && Assigns(prefixes, uris)
      requires i < |branch| && chains.Keys == Members(branch) && ChainsWithin(chains, u) && s.Keys == u
      requires AllRefittable(chains, links, s, uris)
      requires FieldsOf(u) == Renamed(Members(branch[..i]), chains, s, uris)
      modifies u`prefix, u`attributes
      ensures FieldsOf(u) == Renamed(Members(branch[..i + 1]), chains, s, uris)
    {
      ghost var n, done := branch[i], Members(branch[..i]);
      assert n in Members(branch);
      assert Refittable(n, chains, links, s, uris);
      PrefixMembers(branch, i);
      RenamedOneMore(done, n, chains, s, uris);
      ScopeStays(chains[n], s, FieldsOf(u));
      RefitElement(branch[i], chains[n], EnvAt(chains[n], s).scope, u, links);
    }

    method RefitElement(n: Element, ghost chain: seq<Element>, ghost scope: Scope, ghost u: set<Element>,
                        ghost links: Links)
      requires Shows(u, links) && n in u && Chain(n, chain, links) && Within(chain, u) && Assigns(prefixes, uris)
      requires EnvAt(chain, FieldsOf(u)).scope == scope && ScopeListed(scope, uris)
      modifies n`prefix, n`attributes
      ensures FieldsOf(u) == old(FieldsOf(u))[n := NewRecord(old(FieldsOf(u))[n], scope, uris)]
    {
      var prefix, attributes := NewNames(n, chain, scope, u, links);
      SetNames(n, prefix, attributes, u);
    }

    method NewNames(n: Element, ghost chain: seq<Element>, ghost scope: Scope, ghost u: set<Element>,
                    ghost links: Links)
      returns (prefix: Option<string>, attributes: seq<Attribute>)
      requires Shows(u, links) && n in u && Chain(n, chain, links) && Within(chain, u) && Assigns(prefixes, uris)
      requires EnvAt(chain, FieldsOf(u)).scope == scope && ScopeListed(scope, uris)
      ensures prefix == NewOption(n.prefix, scope, uris) && attributes == NewAttributes(n.attributes, scope, uris)
    {
      prefix := n.prefix;
      if prefix.Some? {
        var p := NewPrefixOf(prefix.value, n, chain, scope, u, links);
        prefix := Some(p);
      }
      attributes := NewAttributesOf(n.attributes, n, chain, scope, u, links);
    }

    method SetNames(n: Element, prefix: Option<string>, attributes: seq<Attribute>, ghost u: set<Element>)
      requires n in u
      modifies n`prefix, n`attributes
      ensures FieldsOf(u) == old(FieldsOf(u))[n := old(FieldsOf(u))[n].(prefix := prefix, attributes := attributes)]
    {
      n.prefix, n.attributes := prefix, attributes;
    }

    /** The generated prefix where the prefix resolves to a permitted pair, otherwise the prefix. */
    method NewPrefixOf(p: string, n: Element, ghost chain: seq<Element>, ghost scope: Scope, ghost u: set<Element>,
                       ghost links: Links)
      returns (r: string)
      requires Shows(u, links) && n in u && Chain(n, chain, links) && Within(chain, u) && Assigns(prefixes, uris)
      requires EnvAt(chain, FieldsOf(u)).scope == scope && ScopeListed(scope, uris)
      ensures r == NewPrefix(p, scope, uris)
    {
      var uri := n.ResolvePrefix(p, chain, u, links);
      r := if uri.Some? && Permitted(p, uri.value) then prefixes[uri.value] else p;
    }

    method NewAttributesOf(was: seq<Attribute>, n: Element, ghost chain: seq<Element>, ghost scope: Scope,
                           ghost u: set<Element>, ghost links: Links)
      returns (now: seq<Attribute>)
      requires Shows(u, links) && n in u && Chain(n, chain, links) && Within(chain, u) && Assigns(prefixes, uris)
      requires EnvAt(chain, FieldsOf(u)).scope == scope && ScopeListed(scope, uris)
      ensures now == NewAttributes(was, scope, uris)
    {
      now := was;
      for i := 0 to |was|
        invariant |now| == |was|
        invariant forall j :: 0 <= j < i ==> now[j] == NewAttribute(was[j], scope, uris)
      {
        var a := NewAttributeOf(was[i], n, chain, scope, u, links);
        now := now[i := a];
      }
    }

    method NewAttributeOf(a: Attribute, n: Element, ghost chain: seq<Element>, ghost scope: Scope,
                          ghost u: set<Element>, ghost links: Links)
      returns (r: Attribute)
      requires Shows(u, links) && n in u && Chain(n, chain, links) && Within(chain, u) && Assigns(prefixes, uris)
      requires EnvAt(chain, FieldsOf(u)).scope == scope && ScopeListed(scope, uris)
      ensures r == NewAttribute(a, scope, uris)
    {
      r := a;
      if a.prefix.Some? {
        var prefix := NewPrefixOf(a.prefix.value, n, chain, scope, u, links);
        r := r.(prefix := Some(prefix));
      }
      var value := NewValueOf(a.value, n, chain, scope, u, links);
      r := r.(value := value);
    }

    method NewValueOf(value: string, n: Element, ghost chain: seq<Element>, ghost scope: Scope, ghost u: set<Element>,
                      ghost links: Links)
      returns (r: string)
      requires Shows(u, links) && n in u && Chain(n, chain, links) && Within(chain, u) && Assigns(prefixes, uris)
      requires EnvAt(chain, FieldsOf(u)).scope == scope && ScopeListed(scope, uris)
      ensures r == NewValue(value, scope, uris)
    {
      r := value;
      if HasPrefix(value) {
        var uri := n.ResolvePrefix(PrefixOf(value), chain, u, links);
        if uri.Some? && Permitted(PrefixOf(value), uri.value) {
          r := Qualify(prefixes[uri.value], LocalOf(value));
        }
      }
    }

    /** All declarations of the branch go, and the generated ones are put on its top. */
    method RefitMappings(ghost u: set<Element>)
      requires Members(branch) <= u && node in branch && Assigns(prefixes, uris)
      requires Distinct(uris)
      modifies u`nsprefixes
      ensures node in u
      ensures var c := Cleared(Members(branch), old(FieldsOf(u)));
              FieldsOf(u) == c[node := c[node].(nsprefixes := PrefixTable(uris, |uris|))]
    {
      assert node in Members(branch);
      ClearMappings(u);
      AddPrefixes();
    }

    method ClearMappings(ghost u: set<Element>)
      requires Members(branch) <= u
      modifies u`nsprefixes
      ensures FieldsOf(u) == Cleared(Members(branch), old(FieldsOf(u)))
    {
      ghost var s := FieldsOf(u);
      for i := 0 to |branch|
        invariant FieldsOf(u) == Cleared(Members(branch[..i]), s)
      {
        assert branch[i] in Members(branch);
        ClearedOneMore(branch, i, s);
        branch[i].nsprefixes := map[];
      }
      assert branch[..|branch|] == branch;
    }

    method AddPrefixes()
      requires Assigns(prefixes, uris) && node.nsprefixes == map[]
      requires Distinct(uris)
      modifies node`nsprefixes
      ensures node.nsprefixes == PrefixTable(uris, |uris|)
    {
      var todo := prefixes.Keys;
      TableEnds(uris, todo);
      while todo != {}
        invariant todo <= prefixes.Keys
        invariant node.nsprefixes == TableWithout(uris, todo)
        decreases todo
      {
        var v :| v in todo;
        TableOneMore(uris, todo, v);
        todo := todo - {v};
        node.nsprefixes := node.nsprefixes[prefixes[v] := v];
      }
    }
  }

  /** Element.normalizePrefixes: the branch below the node comes to stand for the normalized tree. */
  method NormalizePrefixes(node: Element, ghost sh: Shape, ghost above: seq<Element>, ghost u: set<Element>,
                           ghost links: Links)
    returns (ghost uris: seq<string>)
    requires Shows(u, links) && sh.root == node && Fits(sh, links) && Nodes(sh) <= u
    requires Chain(node.parent, above, links) && Within(above, u)
    modifies u`prefix, u`attributes, u`nsprefixes
    ensures Lists(uris, old(View(sh, FieldsOf(u))), old(Declarations(above, FieldsOf(u))))
    ensures View(sh, FieldsOf(u)) == Normalize(old(View(sh, FieldsOf(u))), old(Declarations(above, FieldsOf(u))), uris)
    ensures Agree(old(FieldsOf(u)), FieldsOf(u), u - Nodes(sh))
  {
    ghost var s := FieldsOf(u);
    ChainsAreGood(sh, above, links, u);
    uris := NormalizeFields(node, sh, above, u, links, s);
    NormalizeInIsNormalize(sh, above, links, s, uris);
  }

  method NormalizeFields(node: Element, ghost sh: Shape, ghost above: seq<Element>, ghost u: set<Element>,
                         ghost links: Links, ghost s: Fields)
    returns (ghost uris: seq<string>)
    requires Shows(u, links) && sh.root == node && Fits(sh, links) && Nodes(sh) <= u
    requires Chain(node.parent, above, links) && Within(above, u)
    requires ChainsWithin(Chains(sh, above), u) && s == FieldsOf(u)
    modifies u`prefix, u`attributes, u`nsprefixes
    ensures Lists(uris, View(sh, s), Declarations(above, s))
    ensures FieldsOf(u) == NormalizeIn(sh, above, s, uris)
  {
    var normalizer := new PrefixNormalizer(node, sh, above, u, links, s);
    uris := normalizer.uris;
    normalizer.Refit(sh, above, u, links);
  }

  /** The prefix table but for the namespaces still to be declared. */
  ghost function TableWithout(uris: seq<string>, todo: set<string>): map<string, string> {
    var t := PrefixTable(uris, |uris|);
    map p | p in t && t[p] !in todo :: t[p]
  }

  lemma {:induction false} TableEnds(uris: seq<string>, todo: set<string>)
    requires forall v :: v in uris <==> v in todo
    ensures TableWithout(uris, todo) == map[] && TableWithout(uris, {}) == PrefixTable(uris, |uris|)
  {
    PrefixTableHolds(uris, |uris|);
  }

  lemma {:induction false} TableOneMore(uris: seq<string>, todo: set<string>, v: string)
    requires v in uris && v in todo
    requires Distinct(uris)
    ensures TableWithout(uris, todo - {v}) == TableWithout(uris, todo)[PrefixFor(uris, v) := v]
  {
    PrefixTableHolds(uris, |uris|);
    var t := PrefixTable(uris, |uris|);
    OnePrefixPerUri(uris, v, v);
    forall p | p in t && t[p] == v ensures p == PrefixFor(uris, v) {
      var i :| 0 <= i < |uris| && p == Generated(i);
      assert i == Index(uris, v);
    }
    OneValueMore(t, todo, v, PrefixFor(uris, v), TableWithout(uris, todo), TableWithout(uris, todo - {v}));
  }

  lemma OneValueMore(t: map<string, string>, todo: set<string>, v: string, q: string, before: map<string, string>,
                     after: map<string, string>)
    requires q in t && t[q] == v && forall p :: p in t && t[p] == v ==> p == q
    requires before == map p | p in t && t[p] !in todo :: t[p]
    requires after == map p | p in t && t[p] !in todo - {v} :: t[p]
    ensures after == before[q := v]
  {
  }

  /** The element's ancestors are known, and whatever they declare is listed. */
  ghost predicate Refittable(e: Element, chains: map<Element, seq<Element>>, links: Links, s: Fields,
                             uris: seq<string>)
  {
    e in chains && GoodChain(e, chains[e], links, s.Keys) && ScopeListed(EnvAt(chains[e], s).scope, uris)
  }

  ghost predicate AllRefittable(chains: map<Element, seq<Element>>, links: Links, s: Fields, uris: seq<string>) {
    forall e {:trigger Refittable(e, chains, links, s, uris)} :: e in chains ==> Refittable(e, chains, links, s, uris)
  }

  ghost predicate ChainsWithin(chains: map<Element, seq<Element>>, u: set<Element>) {
    forall e :: e in chains ==> Within(chains[e], u)
  }

  lemma {:induction false} ListsAll(sh: Shape, above: seq<Element>, s: Fields, uris: seq<string>)
    requires Nodes(sh) <= s.Keys && Within(above, s.Keys) && Within(Preorder(sh) + above, s.Keys)
    requires forall v :: v in uris <==> v in UrisOf(Preorder(sh) + above, s)
    requires Distinct(uris)
    ensures Lists(uris, View(sh, s), Declarations(above, s))
  {
    UrisOfBranch(sh, s);
    UrisOfSum(Preorder(sh), above, s);
    UrisOfAncestors(above, s);
  }

  lemma {:induction false} IndexOfAppended(listed: seq<string>, v: string)
    requires v !in listed
    ensures Index(listed + [v], v) == |listed|
    ensures forall w :: w in listed ==> Index(listed + [v], w) == Index(listed, w)
  {
    if listed != [] {
      IndexOfAppended(listed[1..], v);
      assert (listed + [v])[1..] == listed[1..] + [v];
    }
  }

  /** Whatever a prefix resolves to within the branch is listed. */
  lemma {:induction false} ScopesListed(sh: Shape, above: seq<Element>, s: Fields, uris: seq<string>, e: Element)
    requires Nodes(sh) <= s.Keys && Within(above, s.Keys) && e in Chains(sh, above)
             && Within(Chains(sh, above)[e], s.Keys)
    requires Lists(uris, View(sh, s), Declarations(above, s)) && Members(Preorder(sh)) == Nodes(sh)
    ensures ScopeListed(EnvAt(Chains(sh, above)[e], s).scope, uris)
  {
    var chain := Chains(sh, above)[e];
    UrisOfBranch(sh, s);
    UrisOfAncestors(above, s);
    ChainsStayInside(sh, above, e);
    forall a, v | a in chain && v in OwnUris(s[a].expns, s[a].nsprefixes) ensures v in uris {
      assert a in Members(chain);
      if a in Nodes(sh) {
        assert a in Members(Preorder(sh));
        UrisOfMember(Preorder(sh), s, a);
      } else {
        UrisOfMember(above, s, a);
      }
    }
    ChainScopeListed(chain, s, uris);
  }
}
