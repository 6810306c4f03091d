/**
 The element objects of sax/element.py, linked to their parents and children, and the methods
 that rewrite their prefixes in place.

 The objects under consideration are a ghost set u. Proofs work on two snapshots of it: the
 links between the objects, which no method here changes, and the fields that are rewritten.
 */
module XmlElement {
  import opened Options
  import opened XmlTree
  import opened XmlPromote
  import opened XmlRefit

  datatype Link = Link(parent: Element?, children: seq<Element>)

  type Links = map<Element, Link>

  datatype Record = Record(
    prefix: Option<string>,
    name: string,
    expns: Option<string>,
    nsprefixes: map<string, string>,
    attributes: seq<Attribute>,
    text: Option<string>)

  type Fields = map<Element, Record>

  ghost predicate Shows(u: set<Element>, links: Links)
    reads u`parent, u`children
  {
    links.Keys == u && forall e :: e in u ==> links[e] == Link(e.parent, e.children)
  }

  ghost function FieldsOf(u: set<Element>): (s: Fields)
    reads u`prefix, u`name, u`expns, u`nsprefixes, u`attributes, u`text
    ensures s.Keys == u
  {
    map e | e in u :: Record(e.prefix, e.name, e.expns, e.nsprefixes, e.attributes, e.text)
  }

  // ----- trees of objects -----

  datatype Shape = Shape(root: Element, kids: seq<Shape>)

  ghost function Nodes(sh: Shape): set<Element>
    decreases sh, 1
  {
    {sh.root} + NodesOfAll(sh.kids)
  }

  ghost function NodesOfAll(shs: seq<Shape>): set<Element>
    decreases shs, 0
  {
    if shs == [] then {} else Nodes(shs[0]) + NodesOfAll(shs[1..])
  }

  ghost function Roots(shs: seq<Shape>): (r: seq<Element>)
    ensures |r| == |shs|
  {
    if shs == [] then [] else [shs[0].root] + Roots(shs[1..])
  }

  /** The shape follows the links, and no object occurs in it twice. */
  ghost predicate Fits(sh: Shape, links: Links)
    decreases sh, 1
  {
    && sh.root in links && links[sh.root].children == Roots(sh.kids)
    && sh.root !in NodesOfAll(sh.kids)
    && FitAll(sh.kids, sh.root, links)
  }

  ghost predicate FitAll(shs: seq<Shape>, parent: Element, links: Links)
    decreases shs, 0
  {
    shs == [] ||
    (&& Fits(shs[0], links) && links[shs[0].root].parent == parent
     && Nodes(shs[0]) !! NodesOfAll(shs[1..])
     && FitAll(shs[1..], parent, links))
  }

  ghost function View(sh: Shape, s: Fields): Tree
    requires Nodes(sh) <= s.Keys
    decreases sh, 1
  {
    var e := s[sh.root];
    Tree.Element(e.prefix, e.name, e.expns, e.nsprefixes, e.attributes, e.text, ViewAll(sh.kids, s))
  }

  ghost function ViewAll(shs: seq<Shape>, s: Fields): (r: seq<Tree>)
    requires NodesOfAll(shs) <= s.Keys
    ensures |r| == |shs|
    decreases shs, 0
  {
    if shs == [] then [] else [View(shs[0], s)] + ViewAll(shs[1..], s)
  }

  ghost predicate Agree(s: Fields, r: Fields, on: set<Element>) {
    on <= s.Keys && on <= r.Keys && forall e :: e in on ==> s[e] == r[e]
  }

  lemma {:induction false} ViewAgrees(sh: Shape, s: Fields, r: Fields)
    requires Agree(s, r, Nodes(sh))
    ensures View(sh, s) == View(sh, r)
    decreases sh, 1
  {
    ViewAllAgrees(sh.kids, s, r);
  }

  lemma {:induction false} ViewAllAgrees(shs: seq<Shape>, s: Fields, r: Fields)
    requires Agree(s, r, NodesOfAll(shs))
    ensures ViewAll(shs, s) == ViewAll(shs, r)
    decreases shs, 0
  {
    if shs != [] {
      ViewAgrees(shs[0], s, r);
      ViewAllAgrees(shs[1..], s, r);
    }
  }

  lemma {:induction false} FitsNodes(sh: Shape, links: Links)
    requires Fits(sh, links)
    ensures Nodes(sh) <= links.Keys
    decreases sh, 1
  {
    FitAllNodes(sh.kids, sh.root, links);
  }

  lemma {:induction false} FitAllNodes(shs: seq<Shape>, parent: Element, links: Links)
    requires FitAll(shs, parent, links)
    ensures NodesOfAll(shs) <= links.Keys
    decreases shs, 0
  {
    if shs != [] {
      FitsNodes(shs[0], links);
      FitAllNodes(shs[1..], parent, links);
    }
  }

  lemma {:induction false} RootAt(shs: seq<Shape>, i: nat)
    requires i < |shs|
    ensures Roots(shs)[i] == shs[i].root
  {
    if i > 0 {
      RootAt(shs[1..], i - 1);
    }
  }

  /** What a loop over the children knows about the next one. */
  lemma {:induction false} NextKid(shs: seq<Shape>, i: nat, parent: Element, links: Links)
    requires i < |shs| && FitAll(shs[i..], parent, links)
    ensures shs[i..] == [shs[i]] + shs[i + 1..] && shs[i..][0] == shs[i] && shs[i..][1..] == shs[i + 1..]
    ensures Fits(shs[i], links) && links[shs[i].root].parent == parent && FitAll(shs[i + 1..], parent, links)
    ensures NodesOfAll(shs[i..]) == Nodes(shs[i]) + NodesOfAll(shs[i + 1..])
    ensures Roots(shs)[i] == shs[i].root
  {
    RootAt(shs, i);
  }

  // ----- ancestors -----

  /** above lists the ancestors from e on up, e first. */
  ghost predicate Chain(e: Element?, above: seq<Element>, links: Links)
    decreases |above|
  {
    if above == [] then e == null
    else e == above[0] && above[0] in links && Chain(links[above[0]].parent, above[1..], links)
  }

  ghost predicate Within(above: seq<Element>, u: set<Element>) {
    forall a :: a in above ==> a in u
  }

  ghost function Declarations(above: seq<Element>, s: Fields): seq<Declared>
    requires Within(above, s.Keys)
  {
    if above == [] then [] else [Declared(s[above[0]].expns, s[above[0]].nsprefixes)] + Declarations(above[1..], s)
  }

  ghost function EnvAt(above: seq<Element>, s: Fields): Env
    requires Within(above, s.Keys)
  {
    EnvOf(Declarations(above, s))
  }

  lemma {:induction false} DeclarationsAgree(above: seq<Element>, s: Fields, r: Fields)
    requires forall a :: a in above ==>
                           a in s && a in r && s[a].expns == r[a].expns && s[a].nsprefixes == r[a].nsprefixes
    ensures Declarations(above, s) == Declarations(above, r)
  {
    if above != [] {
      DeclarationsAgree(above[1..], s, r);
    }
  }

  lemma {:induction false} EnvBelow(e: Element, above: seq<Element>, s: Fields)
    requires e in s && Within(above, s.Keys)
    ensures EnvAt([e] + above, s) ==
              Env(ScopeAt(EnvAt(above, s).scope, s[e].nsprefixes), if s[e].expns.Some? then s[e].expns
                  else EnvAt(above, s).default)
  {
    assert ([e] + above)[1..] == above;
  }

  // ----- refitting, on snapshots -----

  ghost function RefitRecord(e: Record, env: Env): Record {
    var uri := if e.prefix.Some? then Resolve(e.prefix.value, ScopeAt(env.scope, e.nsprefixes)) else None;
    e.(expns := if uri.Some? then uri else e.expns, prefix := None, nsprefixes := map[])
  }

  ghost function RefitIn(sh: Shape, above: seq<Element>, s: Fields): (r: Fields)
    requires Nodes(sh) <= s.Keys && Within(above, s.Keys)
    ensures r.Keys == s.Keys
    decreases sh, 1
  {
    var s1 := RefitAllIn(sh.kids, [sh.root] + above, s);
    s1[sh.root := RefitRecord(s1[sh.root], EnvAt(above, s1))]
  }

  ghost function RefitAllIn(shs: seq<Shape>, above: seq<Element>, s: Fields): (r: Fields)
    requires NodesOfAll(shs) <= s.Keys && Within(above, s.Keys)
    ensures r.Keys == s.Keys
    decreases shs, 0
  {
    if shs == [] then s else RefitAllIn(shs[1..], above, RefitIn(shs[0], above, s))
  }

  /** Refitting the children that are left leads to the goal. */
  ghost predicate RefitLeft(shs: seq<Shape>, parent: Element, below: seq<Element>, links: Links, s: Fields,
                            goal: Fields)
  {
    && NodesOfAll(shs) <= s.Keys && Within(below, s.Keys) && FitAll(shs, parent, links)
    && RefitAllIn(shs, below, s) == goal
  }

  lemma RefitBegins(sh: Shape, below: seq<Element>, links: Links, s: Fields)
    requires Fits(sh, links) && Nodes(sh) <= s.Keys && Within(below, s.Keys)
    ensures RefitLeft(sh.kids[0..], sh.root, below, links, s, RefitAllIn(sh.kids, below, s))
  {
    assert sh.kids[0..] == sh.kids;
  }

  lemma RefitEnds(shs: seq<Shape>, parent: Element, below: seq<Element>, links: Links, s: Fields, goal: Fields)
    requires RefitLeft(shs[|shs|..], parent, below, links, s, goal)
    ensures s == goal
  {
  }

  lemma {:induction false} RefitInFrame(sh: Shape, above: seq<Element>, s: Fields)
    requires Nodes(sh) <= s.Keys && Within(above, s.Keys)
    ensures Agree(s, RefitIn(sh, above, s), s.Keys - Nodes(sh))
    decreases sh, 1
  {
    RefitAllInFrame(sh.kids, [sh.root] + above, s);
  }

  lemma {:induction false} RefitAllInFrame(shs: seq<Shape>, above: seq<Element>, s: Fields)
    requires NodesOfAll(shs) <= s.Keys && Within(above, s.Keys)
    ensures Agree(s, RefitAllIn(shs, above, s), s.Keys - NodesOfAll(shs))
    decreases shs, 0
  {
    if shs != [] {
      RefitInFrame(shs[0], above, s);
      RefitAllInFrame(shs[1..], above, RefitIn(shs[0], above, s));
    }
  }

  /** Rewriting the objects of a tree rewrites the tree that they stand for. */
  lemma {:induction false} RefitInIsRefit(sh: Shape, above: seq<Element>, links: Links, s: Fields)
    requires Fits(sh, links) && s.Keys == links.Keys && Nodes(sh) <= s.Keys
    requires forall a :: a in above ==> a in s && a !in Nodes(sh)
    ensures View(sh, RefitIn(sh, above, s)) == Refit(View(sh, s), EnvAt(above, s))
    decreases sh, 1
  {
    var below := [sh.root] + above;
    var s1 := RefitAllIn(sh.kids, below, s);
    RefitAllInFrame(sh.kids, below, s);
    DeclarationsAgree(above, s, s1);
    EnvBelow(sh.root, above, s);
    RefitAllInIsRefitAll(sh.kids, sh.root, below, links, s);
    ViewAllAgrees(sh.kids, s1, RefitIn(sh, above, s));
  }

  lemma {:induction false} RefitAllInIsRefitAll(shs: seq<Shape>, parent: Element, above: seq<Element>, links: Links,
                                                s: Fields)
    requires FitAll(shs, parent, links) && s.Keys == links.Keys && NodesOfAll(shs) <= s.Keys
    requires forall a :: a in above ==> a in s && a !in NodesOfAll(shs)
    ensures ViewAll(shs, RefitAllIn(shs, above, s)) == RefitAll(ViewAll(shs, s), EnvAt(above, s))
    decreases shs, 0
  {
    if shs != [] {
      var s1 := RefitIn(shs[0], above, s);
      RefitInFrame(shs[0], above, s);
      RefitInIsRefit(shs[0], above, links, s);
      DeclarationsAgree(above, s, s1);
      ViewAllAgrees(shs[1..], s, s1);
      RefitAllInIsRefitAll(shs[1..], parent, above, links, s1);
      RefitAllInFrame(shs[1..], above, s1);
      ViewAgrees(shs[0], s1, RefitAllIn(shs, above, s));
    }
  }

  // ----- promotion, on snapshots -----

  ghost function AsParent(e: Record): Parent {
    Parent(e.prefix, e.nsprefixes)
  }

  ghost function PromoteIn(sh: Shape, parent: Element?, s: Fields): (r: Fields)
    requires Nodes(sh) <= s.Keys && (parent != null ==> parent in s)
    ensures r.Keys == s.Keys
    decreases sh, 1
  {
    var s1 := PromoteAllIn(sh.kids, sh.root, s);
    if parent == null then s1
    else
      var own, up := s1[sh.root].nsprefixes, AsParent(s1[parent]);
      s1[sh.root := s1[sh.root].(nsprefixes := Kept(own, up))][parent := s1[parent].(nsprefixes := Raised(own, up))]
  }

  ghost function PromoteAllIn(shs: seq<Shape>, parent: Element, s: Fields): (r: Fields)
    requires NodesOfAll(shs) <= s.Keys && parent in s
    ensures r.Keys == s.Keys
    decreases shs, 0
  {
    if shs == [] then s else PromoteAllIn(shs[1..], parent, PromoteIn(shs[0], parent, s))
  }

  ghost predicate OnlyDeclarationsOf(s: Fields, r: Fields, e: Element) {
    e in s && e in r && r[e] == s[e].(nsprefixes := r[e].nsprefixes)
  }

  /** Promoting objects promotes the tree that they stand for, and changes no other object. */
  lemma {:induction false} PromoteInIsPromote(sh: Shape, parent: Element, links: Links, s: Fields)
    requires Fits(sh, links) && s.Keys == links.Keys && Nodes(sh) <= s.Keys
    requires parent in s && parent !in Nodes(sh)
    ensures var r := PromoteIn(sh, parent, s);
            && Agree(s, r, s.Keys - Nodes(sh) - {parent}) && OnlyDeclarationsOf(s, r, parent)
            && (View(sh, r), r[parent].nsprefixes) == PromoteUnder(View(sh, s), AsParent(s[parent]))
    decreases sh, 2
  {
    PromoteRootIsPromote(sh, links, s);
    var s1 := PromoteIn(sh, null, s);
    ViewAllAgrees(sh.kids, s1, PromoteIn(sh, parent, s));
  }

  lemma {:induction false} PromoteRootIsPromote(sh: Shape, links: Links, s: Fields)
    requires Fits(sh, links) && s.Keys == links.Keys && Nodes(sh) <= s.Keys
    ensures var r := PromoteIn(sh, null, s);
            Agree(s, r, s.Keys - Nodes(sh)) && View(sh, r) == Promote(View(sh, s))
    decreases sh, 1
  {
    PromoteAllInIsPromoteAll(sh.kids, sh.root, links, s);
  }

  lemma {:induction false} PromoteAllInIsPromoteAll(shs: seq<Shape>, parent: Element, links: Links, s: Fields)
    requires FitAll(shs, parent, links) && s.Keys == links.Keys && NodesOfAll(shs) <= s.Keys
    requires parent in s && parent !in NodesOfAll(shs)
    ensures var r := PromoteAllIn(shs, parent, s);
            && Agree(s, r, s.Keys - NodesOfAll(shs) - {parent}) && OnlyDeclarationsOf(s, r, parent)
            && (ViewAll(shs, r), r[parent].nsprefixes) == PromoteAll(ViewAll(shs, s), AsParent(s[parent]))
    decreases shs, 0
  {
    if shs != [] {
      var s1 := PromoteIn(shs[0], parent, s);
      PromoteInIsPromote(shs[0], parent, links, s);
      ViewAllAgrees(shs[1..], s, s1);
      PromoteAllInIsPromoteAll(shs[1..], parent, links, s1);
      ViewAgrees(shs[0], s1, PromoteAllIn(shs, parent, s));
    }
  }

  /** The element's declarations while those in todo are still to be looked at. */
  ghost function KeptSoFar(own: Prefixes, up: Parent, todo: set<string>): Prefixes {
    map p | p in own && (p in todo || p in Kept(own, up)) :: own[p]
  }

  ghost function RaisedSoFar(own: Prefixes, up: Parent, todo: set<string>): Prefixes {
    up.nsprefixes + map p | p in own && p !in todo && p !in up.nsprefixes && up.prefix != Some(p) :: own[p]
  }

  lemma {:induction false} OneDeclaration(own: Prefixes, up: Parent, todo: set<string>, p: string)
    requires todo <= own.Keys && p in todo
    ensures p in RaisedSoFar(own, up, todo) <==> p in up.nsprefixes
    ensures p in up.nsprefixes ==> RaisedSoFar(own, up, todo)[p] == up.nsprefixes[p]
    ensures KeptSoFar(own, up, todo - {p}) ==
              if p in Kept(own, up) then KeptSoFar(own, up, todo) else KeptSoFar(own, up, todo) - {p}
    ensures RaisedSoFar(own, up, todo - {p}) ==
              if p !in up.nsprefixes && up.prefix != Some(p) then RaisedSoFar(own, up, todo)[p := own[p]]
              else RaisedSoFar(own, up, todo)
  {
  }

  lemma {:induction false} AllDeclarations(own: Prefixes, up: Parent)
    ensures KeptSoFar(own, up, own.Keys) == own && KeptSoFar(own, up, {}) == Kept(own, up)
    ensures RaisedSoFar(own, up, own.Keys) == up.nsprefixes && RaisedSoFar(own, up, {}) == Raised(own, up)
  {
  }

  // ----- the objects -----

  class Element {
    var parent: Element?
    var prefix: Option<string>
    var name: string
    var expns: Option<string>
    var nsprefixes: map<string, string>
    var attributes: seq<Attribute>
    var text: Option<string>
    var children: seq<Element>

    /** The namespace that the nearest declaration gives the prefix. */
    method ResolvePrefix(p: string, ghost above: seq<Element>, ghost u: set<Element>, ghost links: Links)
      returns (r: Option<string>)
      requires Shows(u, links) && Chain(this, above, links) && Within(above, u)
      ensures r == Resolve(p, EnvAt(above, FieldsOf(u)).scope)
    {
      ghost var s, rest := FieldsOf(u), above;
      var n: Element? := this;
      while n != null
        invariant Within(rest, u) && Chain(n, rest, links)
        invariant Resolve(p, EnvAt(rest, s).scope) == Resolve(p, EnvAt(above, s).scope)
        decreases |rest|
      {
        if p in n.nsprefixes {
          return Some(n.nsprefixes[p]);
        }
        if p == "xml" {
          return Some(XML_URI);
        }
        n := n.parent;
        rest := rest[1..];
      }
      r := None;
    }

    method RefitPrefixes(ghost sh: Shape, ghost above: seq<Element>, ghost u: set<Element>, ghost links: Links)
      requires Shows(u, links) && sh.root == this && Fits(sh, links) && Nodes(sh) <= u
      requires Chain(parent, above, links) && Within(above, u)
      modifies u`prefix, u`expns, u`nsprefixes
      ensures FieldsOf(u) == RefitIn(sh, above, old(FieldsOf(u)))
      decreases sh, 2
    {
      ghost var below := [this] + above;
      assert below[1..] == above;
      RefitChildren(sh, below, u, links);
      EnvBelow(this, above, FieldsOf(u));
      RefitSelf(below, EnvAt(above, FieldsOf(u)), u, links);
    }

    method RefitChildren(ghost sh: Shape, ghost below: seq<Element>, ghost u: set<Element>, ghost links: Links)
      requires Shows(u, links) && sh.root == this && Fits(sh, links) && Nodes(sh) <= u
      requires Chain(this, below, links) && Within(below, u)
      modifies u`prefix, u`expns, u`nsprefixes
      ensures FieldsOf(u) == RefitAllIn(sh.kids, below, old(FieldsOf(u)))
      decreases sh, 1
    {
      ghost var goal := RefitAllIn(sh.kids, below, FieldsOf(u));
      RefitBegins(sh, below, links, FieldsOf(u));
      for i := 0 to |children|
        invariant RefitLeft(sh.kids[i..], this, below, links, FieldsOf(u), goal)
      {
        RefitChild(sh.kids, i, below, u, links, goal);
      }
      RefitEnds(sh.kids, this, below, links, FieldsOf(u), goal);
    }

    method RefitChild(ghost shs: seq<Shape>, i: nat, ghost below: seq<Element>, ghost u: set<Element>,
                      ghost links: Links, ghost goal: Fields)
      requires Shows(u, links) && this in u && i < |shs| && children == Roots(shs)
      requires RefitLeft(shs[i..], this, below, links, FieldsOf(u), goal)
      requires Chain(this, below, links) && Within(below, u)
      modifies u`prefix, u`expns, u`nsprefixes
      ensures RefitLeft(shs[i + 1..], this, below, links, FieldsOf(u), goal)
      decreases shs[i], 3
    {
      NextKid(shs, i, this, links);
      children[i].RefitPrefixes(shs[i], below, u, links);
    }

    method RefitSelf(ghost below: seq<Element>, ghost env: Env, ghost u: set<Element>, ghost links: Links)
      requires Shows(u, links) && this in u && Chain(this, below, links) && Within(below, u)
      requires EnvAt(below, FieldsOf(u)).scope == ScopeAt(env.scope, nsprefixes)
      modifies `prefix, `expns, `nsprefixes
      ensures FieldsOf(u) == old(FieldsOf(u))[this := RefitRecord(old(FieldsOf(u))[this], env)]
    {
      var own := expns;
      if prefix.Some? {
        var uri := ResolvePrefix(prefix.value, below, u, links);
        own := if uri.Some? then uri else own;
      }
      DropPrefixes(own, u);
    }

    method DropPrefixes(own: Option<string>, ghost u: set<Element>)
      requires this in u
      modifies `prefix, `expns, `nsprefixes
      ensures FieldsOf(u) ==
                old(FieldsOf(u))[this := old(FieldsOf(u))[this].(expns := own, prefix := None, nsprefixes := map[])]
    {
      expns := own;
      prefix := None;
      nsprefixes := map[];
    }

    method PromotePrefixes(ghost sh: Shape, ghost u: set<Element>, ghost links: Links)
      requires Shows(u, links) && sh.root == this && Fits(sh, links) && Nodes(sh) <= u
      requires parent != null ==> parent in u && parent !in Nodes(sh)
      modifies u`nsprefixes
      ensures FieldsOf(u) == PromoteIn(sh, parent, old(FieldsOf(u)))
      decreases sh, 2
    {
      PromoteChildren(sh, u, links);
      if parent != null {
        PushDeclarations(u);
      }
    }

    method PromoteChildren(ghost sh: Shape, ghost u: set<Element>, ghost links: Links)
      requires Shows(u, links) && sh.root == this && Fits(sh, links) && Nodes(sh) <= u
      modifies u`nsprefixes
      ensures FieldsOf(u) == PromoteAllIn(sh.kids, this, old(FieldsOf(u)))
      decreases sh, 1
    {
      ghost var goal := PromoteAllIn(sh.kids, this, FieldsOf(u));
      for i := 0 to |children|
        invariant NodesOfAll(sh.kids[i..]) <= u && FitAll(sh.kids[i..], this, links)
        invariant this !in NodesOfAll(sh.kids[i..])
        invariant PromoteAllIn(sh.kids[i..], this, FieldsOf(u)) == goal
      {
        PromoteChild(sh.kids, i, u, links);
      }
    }

    method PromoteChild(ghost shs: seq<Shape>, i: nat, ghost u: set<Element>, ghost links: Links)
      requires Shows(u, links) && this in u && i < |shs| && children == Roots(shs)
      requires FitAll(shs[i..], this, links) && NodesOfAll(shs[i..]) <= u && this !in NodesOfAll(shs[i..])
      modifies u`nsprefixes
      ensures FitAll(shs[i + 1..], this, links) && NodesOfAll(shs[i + 1..]) <= u && this !in NodesOfAll(shs[i + 1..])
      ensures PromoteAllIn(shs[i + 1..], this, FieldsOf(u)) == PromoteAllIn(shs[i..], this, old(FieldsOf(u)))
      decreases shs[i], 3
    {
      NextKid(shs, i, this, links);
      children[i].PromotePrefixes(shs[i], u, links);
    }

    /** The loop over this element's own declarations. */
    method PushDeclarations(ghost u: set<Element>)
      requires parent != null && parent != this && this in u && parent in u
      modifies `nsprefixes, parent`nsprefixes
      ensures var s := old(FieldsOf(u));
              FieldsOf(u) ==
                s[this := s[this].(nsprefixes := Kept(old(nsprefixes), AsParent(s[parent])))]
                 [parent := s[parent].(nsprefixes := Raised(old(nsprefixes), AsParent(s[parent])))]
    {
      var own := nsprefixes;
      var todo := own.Keys;
      ghost var up := Parent(parent.prefix, parent.nsprefixes);
      AllDeclarations(own, up);
      while todo != {}
        invariant todo <= own.Keys
        invariant nsprefixes == KeptSoFar(own, up, todo) && parent.nsprefixes == RaisedSoFar(own, up, todo)
        decreases todo
      {
        var p :| p in todo;
        OneDeclaration(own, up, todo, p);
        todo := todo - {p};
        if p in parent.nsprefixes {
          if parent.nsprefixes[p] == own[p] {
            nsprefixes := nsprefixes - {p};
          }
        } else if parent.prefix != Some(p) {
          parent.nsprefixes := parent.nsprefixes[p := own[p]];
          nsprefixes := nsprefixes - {p};
        }
      }
    }
  }
}
