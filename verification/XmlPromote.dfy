/**
 Pushing prefix declarations up the tree (Element.promotePrefixes), and exactly when that
 leaves every name alone.
 */
module XmlPromote {
  import opened Options
  import opened XmlTree

  type Prefixes = map<string, string>

  /** What the parent already has: its own element prefix, and its declarations so far. */
  datatype Parent = Parent(prefix: Option<string>, nsprefixes: Prefixes)

  /** The declarations that the parent will not take. */
  function Kept(own: Prefixes, up: Parent): Prefixes {
    map p | p in own && (if p in up.nsprefixes then up.nsprefixes[p] != own[p] else up.prefix == Some(p)) :: own[p]
  }

  /** The parent's declarations after taking what it can. */
  function Raised(own: Prefixes, up: Parent): Prefixes {
    up.nsprefixes + map p | p in own && p !in up.nsprefixes && up.prefix != Some(p) :: own[p]
  }

  /** The promoted children, and the parent's declarations after them. */
  function PromoteAll(ts: seq<Tree>, up: Parent): (r: (seq<Tree>, Prefixes))
    ensures |r.0| == |ts|
    decreases ts, 0
  {
    if ts == [] then ([], up.nsprefixes)
    else
      var (t, ns) := PromoteUnder(ts[0], up);
      var (rest, all) := PromoteAll(ts[1..], Parent(up.prefix, ns));
      ([t] + rest, all)
  }

  /** Promotion of a tree without a parent, and the first half of promotion below one. */
  function Promote(t: Tree): Tree
    decreases t, 1
  {
    var (kids, ns) := PromoteAll(t.children, Parent(t.prefix, t.nsprefixes));
    t.(children := kids, nsprefixes := ns)
  }

  function PromoteUnder(t: Tree, up: Parent): (Tree, Prefixes)
    decreases t, 2
  {
    var r := Promote(t);
    (r.(nsprefixes := Kept(r.nsprefixes, up)), Raised(r.nsprefixes, up))
  }

  // ----- what each element comes to offer -----

  /**
   The declarations an element holds once its children are done: its own, and for each other
   prefix, except its own element prefix, the first that a child offers.
   */
  function Offer(t: Tree): Prefixes
    decreases t, 1
  {
    OfferOf(Parent(t.prefix, t.nsprefixes), t.children)
  }

  function OfferOf(up: Parent, ts: seq<Tree>): Prefixes
    decreases ts, 0
  {
    if ts == [] then up.nsprefixes else OfferOf(Parent(up.prefix, Raised(Offer(ts[0]), up)), ts[1..])
  }

  lemma {:induction false} PromoteGivesOffer(t: Tree)
    ensures Promote(t).nsprefixes == Offer(t)
    decreases t, 1
  {
    PromoteAllGivesOffer(t.children, Parent(t.prefix, t.nsprefixes));
  }

  lemma {:induction false} PromoteAllGivesOffer(ts: seq<Tree>, up: Parent)
    ensures PromoteAll(ts, up).1 == OfferOf(up, ts)
    decreases ts, 0
  {
    if ts != [] {
      PromoteGivesOffer(ts[0]);
      PromoteAllGivesOffer(ts[1..], Parent(up.prefix, PromoteUnder(ts[0], up).1));
    }
  }

  ghost predicate Extends(small: Prefixes, big: Prefixes) {
    forall p :: p in small ==> p in big && big[p] == small[p]
  }

  lemma {:induction false} OfferExtends(up: Parent, ts: seq<Tree>)
    ensures Extends(up.nsprefixes, OfferOf(up, ts))
    decreases ts
  {
    if ts != [] {
      OfferExtends(Parent(up.prefix, Raised(Offer(ts[0]), up)), ts[1..]);
    }
  }

  /** What an element comes to offer for one prefix: its own declaration, or that of the first child that offers one. */
  function Taken(t: Tree, p: string): Option<string> {
    if p in t.nsprefixes then Some(t.nsprefixes[p])
    else if t.prefix == Some(p) then None
    else FirstTaken(t.children, p)
  }

  function FirstTaken(ts: seq<Tree>, p: string): Option<string> {
    if ts == [] then None
    else if Taken(ts[0], p).Some? then Taken(ts[0], p)
    else FirstTaken(ts[1..], p)
  }

  /** The tables that are passed upward hold exactly that. */
  lemma {:induction false} OfferIsTaken(t: Tree, p: string)
    ensures Resolve(p, Offer(t)) == Taken(t, p)
    decreases t, 1
  {
    OfferOfIsTaken(Parent(t.prefix, t.nsprefixes), t.children, p);
  }

  lemma {:induction false} OfferOfIsTaken(up: Parent, ts: seq<Tree>, p: string)
    ensures Resolve(p, OfferOf(up, ts)) ==
              if p in up.nsprefixes then Some(up.nsprefixes[p])
              else if up.prefix == Some(p) then None
              else FirstTaken(ts, p)
    decreases ts, 0
  {
    if ts != [] {
      OfferIsTaken(ts[0], p);
      OfferOfIsTaken(Parent(up.prefix, Raised(Offer(ts[0]), up)), ts[1..], p);
    }
  }

  // ----- what names mean after promotion -----

  /**
   The scope of an element that had own to offer and keeps what is left of it: as offered, except that the
   reserved prefix means something else only where it stays declared.
   */
  function Standing(offered: Scope, own: Prefixes, left: Prefixes): Scope {
    ScopeAt(offered, own)["xml" := if "xml" in left then left["xml"] else XML_URI]
  }

  /** The tree's names if every prefix meant what the nearest element offers for it. */
  function OfferedNames(t: Tree, left: Prefixes, env: Env): NameTree
    decreases t, 1
  {
    var inner := Env(Standing(env.scope, Offer(t), left), Inside(t, env).default);
    NameTree(if t.prefix.None? then inner.default else Resolve(t.prefix.value, inner.scope), t.name,
             AttributeNames(t.attributes, inner.scope), t.text,
             OfferedNamesOfAll(t.children, Parent(t.prefix, t.nsprefixes), inner))
  }

  function OfferedNamesOfAll(ts: seq<Tree>, up: Parent, env: Env): (r: seq<NameTree>)
    ensures |r| == |ts|
    decreases ts, 0
  {
    if ts == [] then []
    else [OfferedNames(ts[0], Kept(Offer(ts[0]), up), env)]
         + OfferedNamesOfAll(ts[1..], Parent(up.prefix, Raised(Offer(ts[0]), up)), env)
  }

  ghost predicate ExtendsButXml(small: Prefixes, big: Prefixes) {
    forall p :: p in small && p != "xml" ==> p in big && big[p] == small[p]
  }

  /** A declaration is only given up to a parent that has it, so the scope stays as offered. */
  lemma ScopeAfterRaising(own: Prefixes, up: Parent, scope: Scope)
    requires ExtendsButXml(Raised(own, up), scope)
    ensures ScopeAt(scope, Kept(own, up)) == Standing(scope, own, Kept(own, up))
  {
    var a, b := ScopeAt(scope, Kept(own, up)), Standing(scope, own, Kept(own, up));
    forall p: string ensures Resolve(p, a) == Resolve(p, b) {
      if p in own && p != "xml" && p !in Kept(own, up) {
        assert p in Raised(own, up) && Raised(own, up)[p] == own[p];
      }
    }
    SameScope(a, b);
  }

  lemma SameScope(a: Scope, b: Scope)
    requires forall p: string :: Resolve(p, a) == Resolve(p, b)
    ensures a == b
  {
    assert forall p :: p in a ==> Resolve(p, a).Some?;
    assert forall p :: p in b ==> Resolve(p, b).Some?;
  }

  lemma {:induction false} PromoteUnderNames(t: Tree, up: Parent, env: Env)
    requires ExtendsButXml(PromoteUnder(t, up).1, env.scope)
    ensures Names(PromoteUnder(t, up).0, env) == OfferedNames(t, Kept(Offer(t), up), env)
    decreases t, 1
  {
    PromoteGivesOffer(t);
    ScopeAfterRaising(Offer(t), up, env.scope);
    PromotedChildrenNames(t, Kept(Offer(t), up), env);
  }

  lemma {:induction false} PromotedChildrenNames(t: Tree, left: Prefixes, env: Env)
    ensures var inner := Env(Standing(env.scope, Offer(t), left), Inside(t, env).default);
            NamesOfAll(Promote(t).children, inner)
              == OfferedNamesOfAll(t.children, Parent(t.prefix, t.nsprefixes), inner)
    decreases t, 0
  {
    PromoteAllNames(t.children, Parent(t.prefix, t.nsprefixes),
                    Env(Standing(env.scope, Offer(t), left), Inside(t, env).default));
  }

  lemma {:induction false} PromoteAllNames(ts: seq<Tree>, up: Parent, env: Env)
    requires ExtendsButXml(OfferOf(up, ts), env.scope)
    ensures NamesOfAll(PromoteAll(ts, up).0, env) == OfferedNamesOfAll(ts, up, env)
    decreases ts, 0
  {
    if ts != [] {
      PromoteGivesOffer(ts[0]);
      var next := Parent(up.prefix, PromoteUnder(ts[0], up).1);
      OfferExtends(next, ts[1..]);
      PromoteUnderNames(ts[0], up, env);
      PromoteAllNames(ts[1..], next, env);
      var (t, rest) := (PromoteUnder(ts[0], up).0, PromoteAll(ts[1..], next).0);
      assert ([t] + rest)[1..] == rest;
    }
  }

  /** After promotion every prefix means what the nearest element offered for it. */
  lemma PromotedNames(t: Tree)
    ensures Names(Promote(t), OUTSIDE) == OfferedNames(t, Offer(t), OUTSIDE)
  {
    PromoteGivesOffer(t);
    StandingAtRoot(Offer(t));
    PromotedChildrenNames(t, Offer(t), OUTSIDE);
  }

  lemma StandingAtRoot(own: Prefixes)
    ensures ScopeAt(map[], own) == Standing(map[], own, own)
  {
  }

  // ----- when nothing changes -----

  /** No prefix in use is offered for another URI nearer than its declaration. */
  ghost predicate KeepsMeanings(t: Tree, left: Prefixes, scope: Scope, offered: Scope)
    decreases t, 1
  {
    && (forall p :: Uses(t, p) ==>
         Resolve(p, ScopeAt(scope, t.nsprefixes)) == Resolve(p, Standing(offered, Offer(t), left)))
    && AllKeepMeanings(t.children, Parent(t.prefix, t.nsprefixes), ScopeAt(scope, t.nsprefixes),
                       Standing(offered, Offer(t), left))
  }

  ghost predicate AllKeepMeanings(ts: seq<Tree>, up: Parent, scope: Scope, offered: Scope)
    decreases ts, 0
  {
    ts == []
    || (KeepsMeanings(ts[0], Kept(Offer(ts[0]), up), scope, offered)
        && AllKeepMeanings(ts[1..], Parent(up.prefix, Raised(Offer(ts[0]), up)), scope, offered))
  }

  lemma SameAttributeNames(t: Tree, scope: Scope, offered: Scope)
    ensures (t.prefix.Some? ==> Resolve(t.prefix.value, scope) == Resolve(t.prefix.value, offered))
            && AttributeNames(t.attributes, scope) == AttributeNames(t.attributes, offered)
            <==> forall p :: Uses(t, p) ==> Resolve(p, scope) == Resolve(p, offered)
  {
    var x, y := AttributeNames(t.attributes, scope), AttributeNames(t.attributes, offered);
    if forall p :: Uses(t, p) ==> Resolve(p, scope) == Resolve(p, offered) {
      assert t.prefix.Some? ==> Uses(t, t.prefix.value);
      forall i | 0 <= i < |x| ensures x[i] == y[i] {
        var a := t.attributes[i];
        assert a.prefix.Some? ==> Uses(t, a.prefix.value);
        assert HasPrefix(a.value) ==> Uses(t, PrefixOf(a.value));
      }
    }
    if (t.prefix.Some? ==> Resolve(t.prefix.value, scope) == Resolve(t.prefix.value, offered)) && x == y {
      forall p | Uses(t, p) ensures Resolve(p, scope) == Resolve(p, offered) {
        if t.prefix != Some(p) {
          var i :| 0 <= i < |t.attributes| && (t.attributes[i].prefix == Some(p)
                   || (HasPrefix(t.attributes[i].value) && PrefixOf(t.attributes[i].value) == p));
          assert x[i] == y[i];
        }
      }
    }
  }

  lemma {:induction false} OfferedNamesAreOwn(t: Tree, left: Prefixes, env: Env, offered: Scope)
    ensures OfferedNames(t, left, Env(offered, env.default)) == Names(t, env)
            <==> KeepsMeanings(t, left, env.scope, offered)
    decreases t, 1
  {
    SameAttributeNames(t, ScopeAt(env.scope, t.nsprefixes), Standing(offered, Offer(t), left));
    OfferedNamesOfAllAreOwn(t.children, Parent(t.prefix, t.nsprefixes), Inside(t, env),
                            Standing(offered, Offer(t), left));
  }

  lemma {:induction false} OfferedNamesOfAllAreOwn(ts: seq<Tree>, up: Parent, env: Env, offered: Scope)
    ensures OfferedNamesOfAll(ts, up, Env(offered, env.default)) == NamesOfAll(ts, env)
            <==> AllKeepMeanings(ts, up, env.scope, offered)
    decreases ts, 0
  {
    if ts != [] {
      var next := Parent(up.prefix, Raised(Offer(ts[0]), up));
      OfferedNamesAreOwn(ts[0], Kept(Offer(ts[0]), up), env, offered);
      OfferedNamesOfAllAreOwn(ts[1..], next, env, offered);
      var x, y := OfferedNamesOfAll(ts, up, Env(offered, env.default)), NamesOfAll(ts, env);
      assert x[1..] == OfferedNamesOfAll(ts[1..], next, Env(offered, env.default));
      assert y[1..] == NamesOfAll(ts[1..], env);
      assert x == y <==> x[0] == y[0] && x[1..] == y[1..];
    }
  }

  /** Promotion keeps every name exactly when every prefix in use keeps its meaning. */
  lemma PromoteKeepsNamesIff(t: Tree)
    ensures Names(Promote(t), OUTSIDE) == Names(t, OUTSIDE) <==> KeepsMeanings(t, Offer(t), map[], map[])
  {
    PromotedNames(t);
    OfferedNamesAreOwn(t, Offer(t), OUTSIDE, map[]);
  }

  // ----- an element's own declarations -----

  /** A declaration that no promotion takes out of sight. */
  predicate Owns(t: Tree, p: string) {
    p in t.nsprefixes && (p == "xml" ==> t.nsprefixes[p] == XML_URI)
  }

  /** Whatever is named by a prefix that its own element declares is named alike. */
  ghost predicate OwnNamesAgree(t: Tree, a: NameTree, b: NameTree)
    decreases t, 1
  {
    && (t.prefix.Some? && Owns(t, t.prefix.value) ==> a.uri == b.uri) && a.local == b.local
    && |a.attributes| == |b.attributes| == |t.attributes|
    && (forall i :: 0 <= i < |t.attributes| ==> OwnAttributeAgrees(t, t.attributes[i], a.attributes[i],
                                                                   b.attributes[i]))
    && AllOwnNamesAgree(t.children, a.children, b.children)
  }

  ghost predicate OwnAttributeAgrees(t: Tree, x: Attribute, a: AttributeName, b: AttributeName) {
    && (x.prefix.Some? && Owns(t, x.prefix.value) ==> a.uri == b.uri) && a.local == b.local
    && (HasPrefix(x.value) && Owns(t, PrefixOf(x.value)) ==> a.value == b.value)
  }

  ghost predicate AllOwnNamesAgree(ts: seq<Tree>, a: seq<NameTree>, b: seq<NameTree>)
    decreases ts, 0
  {
    |a| == |b| == |ts| && (ts == [] || (OwnNamesAgree(ts[0], a[0], b[0]) && AllOwnNamesAgree(ts[1..], a[1..], b[1..])))
  }

  /** A prefix keeps its meaning on every element that declares it, whatever the rest of the tree does. */
  lemma OwnPrefixKeepsMeaning(t: Tree, scope: Scope, offered: Scope, left: Prefixes, p: string)
    requires Owns(t, p) && Extends(left, Offer(t))
    ensures Resolve(p, Standing(offered, Offer(t), left)) == Resolve(p, ScopeAt(scope, t.nsprefixes))
            == Some(t.nsprefixes[p])
  {
    OfferExtends(Parent(t.prefix, t.nsprefixes), t.children);
  }

  lemma {:induction false} OfferedNamesAgreeOnOwn(t: Tree, left: Prefixes, env: Env, outer: Env)
    requires Extends(left, Offer(t))
    ensures OwnNamesAgree(t, Names(t, env), OfferedNames(t, left, outer))
    decreases t, 1
  {
    var scope, standing := Inside(t, env).scope, Standing(outer.scope, Offer(t), left);
    forall p | Owns(t, p) ensures Resolve(p, standing) == Resolve(p, scope) && p in standing && p in scope {
      OwnPrefixKeepsMeaning(t, env.scope, outer.scope, left, p);
    }
    OfferedNamesOfAllAgreeOnOwn(t.children, Parent(t.prefix, t.nsprefixes), Inside(t, env),
                                Env(standing, Inside(t, outer).default));
  }

  lemma {:induction false} OfferedNamesOfAllAgreeOnOwn(ts: seq<Tree>, up: Parent, env: Env, outer: Env)
    ensures AllOwnNamesAgree(ts, NamesOfAll(ts, env), OfferedNamesOfAll(ts, up, outer))
    decreases ts, 0
  {
    if ts != [] {
      var next := Parent(up.prefix, Raised(Offer(ts[0]), up));
      OfferedNamesAgreeOnOwn(ts[0], Kept(Offer(ts[0]), up), env, outer);
      OfferedNamesOfAllAgreeOnOwn(ts[1..], next, env, outer);
      assert NamesOfAll(ts, env)[1..] == NamesOfAll(ts[1..], env);
      assert OfferedNamesOfAll(ts, up, outer)[1..] == OfferedNamesOfAll(ts[1..], next, outer);
    }
  }

  /** Promotion never changes what a prefix names on an element that declares it. */
  lemma OwnDeclaredNamesKept(t: Tree)
    ensures OwnNamesAgree(t, Names(t, OUTSIDE), Names(Promote(t), OUTSIDE))
  {
    PromotedNames(t);
    OfferedNamesAgreeOnOwn(t, Offer(t), OUTSIDE, OUTSIDE);
  }

  /**
   No element declares what it would see anyway: each declaration is for a prefix that its parent sees for another
   URI, or that is the parent's own element prefix.
   */
  ghost predicate NoneLeft(t: Tree, scope: Scope)
    decreases t, 1
  {
    NoneLeftIn(t.children, t.prefix, ScopeAt(scope, t.nsprefixes))
  }

  ghost predicate NoneLeftIn(ts: seq<Tree>, prefix: Option<string>, scope: Scope)
    decreases ts, 0
  {
    ts == []
    || (&& (forall p :: p in ts[0].nsprefixes && p != "xml" ==>
              prefix == Some(p) || (p in scope && scope[p] != ts[0].nsprefixes[p]))
        && NoneLeft(ts[0], scope) && NoneLeftIn(ts[1..], prefix, scope))
  }

  /** Promotion leaves no declaration that could be taken higher up. */
  lemma PromotionLeavesNone(t: Tree)
    ensures NoneLeft(Promote(t), map[])
  {
    PromoteGivesOffer(t);
    PromoteAllLeavesNone(t.children, Parent(t.prefix, t.nsprefixes), ScopeAt(map[], Offer(t)));
  }

  lemma {:induction false} PromoteUnderLeavesNone(t: Tree, up: Parent, scope: Scope)
    requires ExtendsButXml(PromoteUnder(t, up).1, scope)
    ensures NoneLeft(PromoteUnder(t, up).0, scope)
    decreases t, 1
  {
    PromoteGivesOffer(t);
    ScopeAfterRaising(Offer(t), up, scope);
    PromoteAllLeavesNone(t.children, Parent(t.prefix, t.nsprefixes), ScopeAt(scope, Kept(Offer(t), up)));
  }

  lemma {:induction false} PromoteAllLeavesNone(ts: seq<Tree>, up: Parent, scope: Scope)
    requires ExtendsButXml(OfferOf(up, ts), scope)
    ensures NoneLeftIn(PromoteAll(ts, up).0, up.prefix, scope)
    decreases ts, 0
  {
    if ts != [] {
      PromoteGivesOffer(ts[0]);
      var next := Parent(up.prefix, PromoteUnder(ts[0], up).1);
      OfferExtends(next, ts[1..]);
      OfferExtends(up, ts);
      PromoteUnderLeavesNone(ts[0], up, scope);
      PromoteAllLeavesNone(ts[1..], next, scope);
      var (t, rest) := (PromoteUnder(ts[0], up).0, PromoteAll(ts[1..], next).0);
      assert ([t] + rest)[1..] == rest;
      assert t.nsprefixes == Kept(Offer(ts[0]), up);
    }
  }

  const INNERMOST := Element(None, "c", None, map["p" := "v"], [], None, [])

  const CAPTURED := Element(None, "b", None, map[], [Attribute(Some("p"), "k", "x")], None, [INNERMOST])

  const CAPTURING := Element(None, "a", None, map["p" := "u"], [], None, [CAPTURED])

  function KeyIn(uri: string): seq<AttributeName> {
    [AttributeName(Some(uri), "k", Literal("x"))]
  }

  lemma CapturedMeans(scope: Scope, uri: string)
    requires Resolve("p", scope) == Some(uri)
    ensures AttributeNames(CAPTURED.attributes, scope) == KeyIn(uri)
  {
    assert !HasPrefix("x");
    assert AttributeNames(CAPTURED.attributes, scope)[0] == KeyIn(uri)[0];
  }

  /** An attribute comes to mean what a child of its element declared. */
  lemma PromotionCaptures()
    ensures var before, after := Names(CAPTURING, OUTSIDE).children, Names(Promote(CAPTURING), OUTSIDE).children;
            |before| == |after| == 1 && before[0].attributes == KeyIn("u") && after[0].attributes == KeyIn("v")
  {
    CapturedBefore();
    CapturedAfter();
  }

  lemma CapturedBefore()
    ensures var before := Names(CAPTURING, OUTSIDE).children; |before| == 1 && before[0].attributes == KeyIn("u")
  {
    var env := Inside(CAPTURING, OUTSIDE);
    CapturedMeans(Inside(CAPTURED, env).scope, "u");
    assert CAPTURING.children[0] == CAPTURED;
    assert NamesOfAll(CAPTURING.children, env)[0] == Names(CAPTURED, env);
  }

  lemma CapturedAfter()
    ensures var after := Names(Promote(CAPTURING), OUTSIDE).children; |after| == 1 && after[0].attributes == KeyIn("v")
  {
    PromotedNames(CAPTURING);
    OfferIsTaken(CAPTURED, "p");
    assert CAPTURED.children[0] == INNERMOST && CAPTURING.children[0] == CAPTURED;
    assert Taken(INNERMOST, "p") == Some("v") && FirstTaken(CAPTURED.children, "p") == Some("v");
    var up, outer := Parent(None, CAPTURING.nsprefixes), Env(Standing(map[], Offer(CAPTURING), Offer(CAPTURING)), None);
    var left := Kept(Offer(CAPTURED), up);
    CapturedMeans(Standing(outer.scope, Offer(CAPTURED), left), "v");
    assert OfferedNamesOfAll(CAPTURING.children, up, outer)[0] == OfferedNames(CAPTURED, left, outer);
  }

  // ----- the reserved prefix -----

  /** The reserved prefix is declared, if at all, for its own namespace (section 3 of Namespaces in XML 1.0). */
  ghost predicate XmlReserved(t: Tree) {
    && ("xml" in t.nsprefixes ==> t.nsprefixes["xml"] == XML_URI)
    && AllXmlReserved(t.children)
  }

  ghost predicate AllXmlReserved(ts: seq<Tree>) {
    ts == [] || (XmlReserved(ts[0]) && AllXmlReserved(ts[1..]))
  }

  lemma {:induction false} OfferKeepsXml(t: Tree)
    requires XmlReserved(t)
    ensures "xml" in Offer(t) ==> Offer(t)["xml"] == XML_URI
    decreases t, 1
  {
    OfferOfKeepsXml(Parent(t.prefix, t.nsprefixes), t.children);
  }

  lemma {:induction false} OfferOfKeepsXml(up: Parent, ts: seq<Tree>)
    requires AllXmlReserved(ts) && ("xml" in up.nsprefixes ==> up.nsprefixes["xml"] == XML_URI)
    ensures "xml" in OfferOf(up, ts) ==> OfferOf(up, ts)["xml"] == XML_URI
    decreases ts, 0
  {
    if ts != [] {
      OfferKeepsXml(ts[0]);
      OfferOfKeepsXml(Parent(up.prefix, Raised(Offer(ts[0]), up)), ts[1..]);
    }
  }

  /** No prefix in use is offered for another URI nearer than its declaration. */
  ghost predicate NoCapture(t: Tree, scope: Scope, offered: Scope)
    decreases t, 1
  {
    && (forall p :: Uses(t, p) ==> Resolve(p, ScopeAt(scope, t.nsprefixes)) == Resolve(p, ScopeAt(offered, Offer(t))))
    && NoCaptureInAll(t.children, ScopeAt(scope, t.nsprefixes), ScopeAt(offered, Offer(t)))
  }

  ghost predicate NoCaptureInAll(ts: seq<Tree>, scope: Scope, offered: Scope)
    decreases ts, 0
  {
    ts == [] || (NoCapture(ts[0], scope, offered) && NoCaptureInAll(ts[1..], scope, offered))
  }

  lemma StandingReserved(t: Tree, left: Prefixes, offered: Scope)
    requires XmlReserved(t) && Extends(left, Offer(t))
    ensures Standing(offered, Offer(t), left) == ScopeAt(offered, Offer(t))
  {
    OfferKeepsXml(t);
  }

  lemma {:induction false} NoCaptureKeepsMeanings(t: Tree, left: Prefixes, scope: Scope, offered: Scope)
    requires XmlReserved(t) && Extends(left, Offer(t))
    ensures KeepsMeanings(t, left, scope, offered) <==> NoCapture(t, scope, offered)
    decreases t, 1
  {
    StandingReserved(t, left, offered);
    NoCaptureKeepsAll(t.children, Parent(t.prefix, t.nsprefixes), ScopeAt(scope, t.nsprefixes),
                      ScopeAt(offered, Offer(t)));
  }

  lemma {:induction false} NoCaptureKeepsAll(ts: seq<Tree>, up: Parent, scope: Scope, offered: Scope)
    requires AllXmlReserved(ts)
    ensures AllKeepMeanings(ts, up, scope, offered) <==> NoCaptureInAll(ts, scope, offered)
    decreases ts, 0
  {
    if ts != [] {
      NoCaptureKeepsMeanings(ts[0], Kept(Offer(ts[0]), up), scope, offered);
      NoCaptureKeepsAll(ts[1..], Parent(up.prefix, Raised(Offer(ts[0]), up)), scope, offered);
    }
  }

  /** Where the reserved prefix is, promotion keeps every name exactly when no prefix in use is captured. */
  lemma PromoteKeepsNamesIffNoCapture(t: Tree)
    requires XmlReserved(t)
    ensures Names(Promote(t), OUTSIDE) == Names(t, OUTSIDE) <==> NoCapture(t, map[], map[])
  {
    PromoteKeepsNamesIff(t);
    NoCaptureKeepsMeanings(t, Offer(t), map[], map[]);
  }

  // ----- two ways to be safe from capture -----

  /** Every prefix in use is declared on the element that uses it. */
  ghost predicate DeclaresWhatItUses(t: Tree) {
    (forall p :: Uses(t, p) ==> p in t.nsprefixes) && AllDeclareWhatTheyUse(t.children)
  }

  ghost predicate AllDeclareWhatTheyUse(ts: seq<Tree>) {
    ts == [] || (DeclaresWhatItUses(ts[0]) && AllDeclareWhatTheyUse(ts[1..]))
  }

  lemma {:induction false} OwnDeclarationIsSafe(t: Tree, scope: Scope, offered: Scope)
    requires DeclaresWhatItUses(t)
    ensures NoCapture(t, scope, offered)
    decreases t, 1
  {
    OfferExtends(Parent(t.prefix, t.nsprefixes), t.children);
    OwnDeclarationsAreSafe(t.children, ScopeAt(scope, t.nsprefixes), ScopeAt(offered, Offer(t)));
  }

  lemma {:induction false} OwnDeclarationsAreSafe(ts: seq<Tree>, scope: Scope, offered: Scope)
    requires AllDeclareWhatTheyUse(ts)
    ensures NoCaptureInAll(ts, scope, offered)
    decreases ts, 0
  {
    if ts != [] {
      OwnDeclarationIsSafe(ts[0], scope, offered);
      OwnDeclarationsAreSafe(ts[1..], scope, offered);
    }
  }

  /** Every declaration in the tree agrees with one table of prefixes. */
  ghost predicate FollowsTable(t: Tree, table: Prefixes) {
    Extends(t.nsprefixes, table) && AllFollowTable(t.children, table)
  }

  ghost predicate AllFollowTable(ts: seq<Tree>, table: Prefixes) {
    ts == [] || (FollowsTable(ts[0], table) && AllFollowTable(ts[1..], table))
  }

  /** Every prefix in use is declared on the element or above it. */
  ghost predicate Resolves(t: Tree, scope: Scope) {
    && (forall p :: Uses(t, p) ==> p in ScopeAt(scope, t.nsprefixes))
    && AllResolve(t.children, ScopeAt(scope, t.nsprefixes))
  }

  ghost predicate AllResolve(ts: seq<Tree>, scope: Scope) {
    ts == [] || (Resolves(ts[0], scope) && AllResolve(ts[1..], scope))
  }

  lemma {:induction false} OfferFollowsTable(t: Tree, table: Prefixes)
    requires FollowsTable(t, table)
    ensures Extends(Offer(t), table)
    decreases t, 1
  {
    OfferOfFollowsTable(Parent(t.prefix, t.nsprefixes), t.children, table);
  }

  lemma {:induction false} OfferOfFollowsTable(up: Parent, ts: seq<Tree>, table: Prefixes)
    requires Extends(up.nsprefixes, table) && AllFollowTable(ts, table)
    ensures Extends(OfferOf(up, ts), table)
    decreases ts, 0
  {
    if ts != [] {
      OfferFollowsTable(ts[0], table);
      OfferOfFollowsTable(Parent(up.prefix, Raised(Offer(ts[0]), up)), ts[1..], table);
    }
  }

  lemma {:induction false} OneTableIsSafe(t: Tree, scope: Scope, offered: Scope, table: Prefixes)
    requires FollowsTable(t, table) && Resolves(t, scope)
    requires "xml" in table && table["xml"] == XML_URI
    requires Extends(scope, offered) && Extends(offered, table)
    ensures NoCapture(t, scope, offered)
    decreases t, 1
  {
    OfferFollowsTable(t, table);
    OfferExtends(Parent(t.prefix, t.nsprefixes), t.children);
    var s, o := ScopeAt(scope, t.nsprefixes), ScopeAt(offered, Offer(t));
    forall p | p in s ensures p in o && s[p] == o[p] == table[p] {
      assert p in t.nsprefixes ==> p in Offer(t);
    }
    AllInOneTableAreSafe(t.children, s, o, table);
  }

  lemma {:induction false} AllInOneTableAreSafe(ts: seq<Tree>, scope: Scope, offered: Scope, table: Prefixes)
    requires AllFollowTable(ts, table) && AllResolve(ts, scope)
    requires "xml" in table && table["xml"] == XML_URI
    requires Extends(scope, offered) && Extends(offered, table)
    ensures NoCaptureInAll(ts, scope, offered)
    decreases ts, 0
  {
    if ts != [] {
      OneTableIsSafe(ts[0], scope, offered, table);
      AllInOneTableAreSafe(ts[1..], scope, offered, table);
    }
  }

  /** One URI for each prefix throughout the tree keeps all names. */
  lemma PromoteKeepsNamesInOneTable(t: Tree, table: Prefixes)
    requires XmlReserved(t) && FollowsTable(t, table) && Resolves(t, map[])
    requires "xml" in table && table["xml"] == XML_URI
    ensures Names(Promote(t), OUTSIDE) == Names(t, OUTSIDE)
  {
    OneTableIsSafe(t, map[], map[], table);
    PromoteKeepsNamesIffNoCapture(t);
  }

  /** Elements that declare the prefixes they use keep their names. */
  lemma PromoteKeepsOwnDeclaredNames(t: Tree)
    requires XmlReserved(t) && DeclaresWhatItUses(t)
    ensures Names(Promote(t), OUTSIDE) == Names(t, OUTSIDE)
  {
    OwnDeclarationIsSafe(t, map[], map[]);
    PromoteKeepsNamesIffNoCapture(t);
  }
}
