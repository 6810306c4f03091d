/**
 A SOAP message is sent with its body's prefixes normalized and all declarations promoted
 (bindings/binding.py): together the two rewritings keep every name of the message.
 */
module XmlMessage {
  import opened Listings
  import opened Options
  import opened XmlTree
  import opened XmlPromote
  import opened XmlNormalize

  /** Every element of the tree offers just what it declares itself. */
  ghost predicate OffersOwn(t: Tree) {
    Offer(t) == t.nsprefixes && AllOfferOwn(t.children)
  }

  ghost predicate AllOfferOwn(ts: seq<Tree>) {
    ts == [] || (OffersOwn(ts[0]) && AllOfferOwn(ts[1..]))
  }

  lemma {:induction false} NothingDeclaredNothingOffered(ts: seq<Tree>, up: Parent)
    requires DeclareNothing(ts)
    ensures AllOfferOwn(ts) && OfferOf(up, ts) == up.nsprefixes
    decreases ts
  {
    if ts != [] {
      NothingDeclaredNothingOffered(ts[0].children, Parent(ts[0].prefix, ts[0].nsprefixes));
      assert Offer(ts[0]) == map[];
      assert Raised(map[], up) == up.nsprefixes;
      NothingDeclaredNothingOffered(ts[1..], up);
    }
  }

  // ----- prefixes that nothing declares -----

  function DeclaredIn(t: Tree): set<string> {
    t.nsprefixes.Keys + DeclaredInAll(t.children)
  }

  function DeclaredInAll(ts: seq<Tree>): set<string> {
    if ts == [] then {} else DeclaredIn(ts[0]) + DeclaredInAll(ts[1..])
  }

  lemma {:induction false} OfferIsDeclared(t: Tree)
    ensures Offer(t).Keys <= DeclaredIn(t)
    decreases t, 1
  {
    OfferOfIsDeclared(Parent(t.prefix, t.nsprefixes), t.children);
  }

  lemma {:induction false} OfferOfIsDeclared(up: Parent, ts: seq<Tree>)
    ensures OfferOf(up, ts).Keys <= up.nsprefixes.Keys + DeclaredInAll(ts)
    decreases ts, 0
  {
    if ts != [] {
      OfferIsDeclared(ts[0]);
      OfferOfIsDeclared(Parent(up.prefix, Raised(Offer(ts[0]), up)), ts[1..]);
    }
  }

  /** Every prefix in use is declared on the element that uses it, or is not known at all. */
  ghost predicate OwnOrStray(t: Tree, known: set<string>) {
    (forall p :: Uses(t, p) ==> p in t.nsprefixes || p !in known) && AllOwnOrStray(t.children, known)
  }

  ghost predicate AllOwnOrStray(ts: seq<Tree>, known: set<string>) {
    ts == [] || (OwnOrStray(ts[0], known) && AllOwnOrStray(ts[1..], known))
  }

  /** Every prefix in use is declared on the element or above it, or is not known at all. */
  ghost predicate Settled(t: Tree, scope: Scope, known: set<string>) {
    && (forall p :: Uses(t, p) ==> p in ScopeAt(scope, t.nsprefixes) || p !in known)
    && AllSettled(t.children, ScopeAt(scope, t.nsprefixes), known)
  }

  ghost predicate AllSettled(ts: seq<Tree>, scope: Scope, known: set<string>) {
    ts == [] || (Settled(ts[0], scope, known) && AllSettled(ts[1..], scope, known))
  }

  ghost predicate Within(scope: Scope, offered: Scope, known: set<string>) {
    scope.Keys <= known && offered.Keys <= known && "xml" in known
  }

  lemma {:induction false} OwnOrStrayIsSafe(t: Tree, scope: Scope, offered: Scope, known: set<string>)
    requires OwnOrStray(t, known) && DeclaredIn(t) <= known && Within(scope, offered, known)
    ensures NoCapture(t, scope, offered)
    decreases t, 1
  {
    OfferIsDeclared(t);
    OfferExtends(Parent(t.prefix, t.nsprefixes), t.children);
    AllOwnOrStrayAreSafe(t.children, ScopeAt(scope, t.nsprefixes), ScopeAt(offered, Offer(t)), known);
  }

  lemma {:induction false} AllOwnOrStrayAreSafe(ts: seq<Tree>, scope: Scope, offered: Scope, known: set<string>)
    requires AllOwnOrStray(ts, known) && DeclaredInAll(ts) <= known && Within(scope, offered, known)
    ensures NoCaptureInAll(ts, scope, offered)
    decreases ts, 0
  {
    if ts != [] {
      OwnOrStrayIsSafe(ts[0], scope, offered, known);
      AllOwnOrStrayAreSafe(ts[1..], scope, offered, known);
    }
  }

  lemma {:induction false} OwnOffersAreSafe(t: Tree, scope: Scope, offered: Scope, known: set<string>)
    requires OffersOwn(t) && Settled(t, scope, known) && Extends(scope, offered)
    requires DeclaredIn(t) <= known && Within(scope, offered, known)
    ensures NoCapture(t, scope, offered)
    decreases t, 1
  {
    AllOwnOffersAreSafe(t.children, ScopeAt(scope, t.nsprefixes), ScopeAt(offered, t.nsprefixes), known);
  }

  lemma {:induction false} AllOwnOffersAreSafe(ts: seq<Tree>, scope: Scope, offered: Scope, known: set<string>)
    requires AllOfferOwn(ts) && AllSettled(ts, scope, known) && Extends(scope, offered)
    requires DeclaredInAll(ts) <= known && Within(scope, offered, known)
    ensures NoCaptureInAll(ts, scope, offered)
    decreases ts, 0
  {
    if ts != [] {
      OwnOffersAreSafe(ts[0], scope, offered, known);
      AllOwnOffersAreSafe(ts[1..], scope, offered, known);
    }
  }

  // ----- the prefixes of a normalized branch -----

  /** The prefixes that the branch uses without a declaration are not known. */
  ghost predicate StrayIn(t: Tree, env: Env, known: set<string>) {
    && (forall p :: Uses(t, p) && p !in Inside(t, env).scope ==> p !in known)
    && AllStrayIn(t.children, Inside(t, env), known)
  }

  ghost predicate AllStrayIn(ts: seq<Tree>, env: Env, known: set<string>) {
    ts == [] || (StrayIn(ts[0], env, known) && AllStrayIn(ts[1..], env, known))
  }

  /** Every prefix that a rewritten element uses comes from one that the element used. */
  lemma {:induction false} UsesAfterRefit(t: Tree, env: Env, uris: seq<string>, q: string)
    requires ScopeListed(Inside(t, env).scope, uris) && Uses(RefitNode(t, env, uris), q)
    ensures exists p :: Uses(t, p) && q == NewPrefix(p, Inside(t, env).scope, uris)
  {
    var scope, r := Inside(t, env).scope, RefitNode(t, env, uris);
    if r.prefix == Some(q) {
      assert Uses(t, t.prefix.value);
    } else {
      var i :| 0 <= i < |r.attributes| && (r.attributes[i].prefix == Some(q)
               || (HasPrefix(r.attributes[i].value) && PrefixOf(r.attributes[i].value) == q));
      var a := t.attributes[i];
      assert r.attributes[i] == NewAttribute(a, scope, uris);
      if r.attributes[i].prefix == Some(q) {
        assert Uses(t, a.prefix.value);
      } else {
        ValueAfterRefit(a.value, scope, uris);
        assert Uses(t, PrefixOf(a.value));
      }
    }
  }

  lemma {:induction false} ValueAfterRefit(value: string, scope: Scope, uris: seq<string>)
    requires ScopeListed(scope, uris) && HasPrefix(NewValue(value, scope, uris))
    ensures HasPrefix(value) && PrefixOf(NewValue(value, scope, uris)) == NewPrefix(PrefixOf(value), scope, uris)
  {
    if HasPrefix(value) && PrefixOf(value) in scope && Permitted(PrefixOf(value), scope[PrefixOf(value)]) {
      SplitOfQualified(NewPrefix(PrefixOf(value), scope, uris), LocalOf(value));
    }
  }

  lemma {:induction false} RefitNodeSettles(t: Tree, env: Env, above: Scope, n: nat, uris: seq<string>, top: Scope,
                                            known: set<string>)
    requires Safe(t, env, above, n) && StrayIn(t, env, known) && ScopeListed(env.scope, uris)
    requires forall u :: u in BranchUris(t) ==> u in uris
    requires (forall u :: u in uris ==> PrefixFor(uris, u) in top) && above.Keys <= top.Keys && "xml" in top
    ensures AllSettled(RefitNode(t, env, uris).children, top, known)
    ensures forall q :: Uses(RefitNode(t, env, uris), q) ==> q in top || q !in known
    decreases t, 1
  {
    var scope := Inside(t, env).scope;
    ScopeInsideListed(t, env, uris);
    forall q | Uses(RefitNode(t, env, uris), q) ensures q in top || q !in known {
      UsesAfterRefit(t, env, uris, q);
      var p :| Uses(t, p) && q == NewPrefix(p, scope, uris);
      assert PrefixSafe(p, scope, above, n);
    }
    RefitNodesSettle(t.children, Inside(t, env), above, n, uris, top, known);
  }

  lemma {:induction false} RefitNodesSettle(ts: seq<Tree>, env: Env, above: Scope, n: nat, uris: seq<string>,
                                            top: Scope, known: set<string>)
    requires AllSafe(ts, env, above, n) && AllStrayIn(ts, env, known) && ScopeListed(env.scope, uris)
    requires forall u :: u in BranchUrisOfAll(ts) ==> u in uris
    requires (forall u :: u in uris ==> PrefixFor(uris, u) in top) && above.Keys <= top.Keys && "xml" in top
    ensures AllSettled(RefitNodes(ts, env, uris), top, known)
    decreases ts, 0
  {
    if ts != [] {
      RefitNodeSettles(ts[0], env, above, n, uris, top, known);
      RefitNodesSettle(ts[1..], env, above, n, uris, top, known);
      var r := RefitNode(ts[0], env, uris);
      SettledSameKeys(r.children, top, ScopeAt(top, r.nsprefixes), known);
      assert RefitNodes(ts, env, uris)[1..] == RefitNodes(ts[1..], env, uris);
    }
  }

  lemma {:induction false} SettledSameKeys(ts: seq<Tree>, scope: Scope, other: Scope, known: set<string>)
    requires AllSettled(ts, scope, known) && scope.Keys == other.Keys
    ensures AllSettled(ts, other, known)
    decreases ts
  {
    if ts != [] {
      SettledSameKeys(ts[0].children, ScopeAt(scope, ts[0].nsprefixes), ScopeAt(other, ts[0].nsprefixes), known);
      SettledSameKeys(ts[1..], scope, other, known);
    }
  }

  // ----- the message -----

  /** An envelope around a header and a body. */
  ghost predicate IsMessage(envelope: Tree) {
    |envelope.children| == 2
  }

  function Above(envelope: Tree): seq<Declared> {
    [Declared(envelope.expns, envelope.nsprefixes)]
  }

  function WithNormalBody(envelope: Tree, uris: seq<string>): Tree
    requires |envelope.children| == 2
  {
    envelope.(children := [envelope.children[0], Normalize(envelope.children[1], Above(envelope), uris)])
  }

  /** The prefixes that the message that is sent declares anywhere. */
  ghost function Known(envelope: Tree): set<string>
    requires |envelope.children| == 2
  {
    {"xml"} + envelope.nsprefixes.Keys + DeclaredIn(envelope.children[0])
    + GeneratedBelow(UriCount(envelope.children[1], Above(envelope)))
  }

  function GeneratedBelow(n: nat): set<string> {
    set i | 0 <= i < n :: Generated(i)
  }

  /**
   The envelope and the header declare the prefixes they use, and the body is safe to normalize; what looks like a
   prefix but is declared nowhere, as in a URL, is not among the known ones.
   */
  ghost predicate Sendable(envelope: Tree)
    requires |envelope.children| == 2
  {
    var header, body, known := envelope.children[0], envelope.children[1], Known(envelope);
    var env := EnvOf(Above(envelope));
    && (forall p :: Uses(envelope, p) ==> p in envelope.nsprefixes || p !in known)
    && OwnOrStray(header, known) && XmlReserved(header)
    && ("xml" in envelope.nsprefixes ==> envelope.nsprefixes["xml"] == XML_URI)
    && Safe(body, env, env.scope, UriCount(body, Above(envelope))) && StrayIn(body, env, known)
  }

  lemma {:induction false} EnvBelowEnvelope(envelope: Tree)
    ensures EnvOf(Above(envelope)) == Inside(envelope, OUTSIDE)
  {
    assert Above(envelope)[1..] == [];
  }

  lemma {:induction false} NormalBodyIsSafe(envelope: Tree, uris: seq<string>, offered: Scope)
    requires IsMessage(envelope) && Sendable(envelope) && Lists(uris, envelope.children[1], Above(envelope))
    requires Extends(Inside(envelope, OUTSIDE).scope, offered)
    requires offered.Keys <= Known(envelope)
    ensures NoCapture(Normalize(envelope.children[1], Above(envelope), uris), Inside(envelope, OUTSIDE).scope, offered)
  {
    var body, above, scope, known := envelope.children[1], Above(envelope), Inside(envelope, OUTSIDE).scope,
      Known(envelope);
    EnvBelowEnvelope(envelope);
    NormalBodySettles(envelope, uris);
    NormalBodyDeclares(body, above, uris);
    var r := Normalize(body, above, uris);
    OnlyTopDeclares(body.children, Inside(body, EnvOf(above)), uris);
    NothingDeclaredNothingOffered(r.children, Parent(r.prefix, r.nsprefixes));
    OwnOffersAreSafe(r, scope, offered, known);
  }

  lemma {:induction false} NormalBodySettles(envelope: Tree, uris: seq<string>)
    requires IsMessage(envelope) && Sendable(envelope) && Lists(uris, envelope.children[1], Above(envelope))
    ensures Settled(Normalize(envelope.children[1], Above(envelope), uris), Inside(envelope, OUTSIDE).scope,
                    Known(envelope))
  {
    var body, above, known := envelope.children[1], Above(envelope), Known(envelope);
    var env := EnvOf(above);
    EnvBelowEnvelope(envelope);
    ScopeAboveListed(above, uris);
    TopScopeDeclares(above, uris);
    RefitNodeSettles(body, env, env.scope, UriCount(body, above), uris, TopScope(above, uris), known);
    SameUses(RefitNode(body, env, uris), Normalize(body, above, uris));
  }

  /** The normalized body declares the generated prefixes. */
  lemma {:induction false} NormalBodyDeclares(body: Tree, above: seq<Declared>, uris: seq<string>)
    requires Lists(uris, body, above)
    ensures DeclaredIn(Normalize(body, above, uris)) == GeneratedBelow(UriCount(body, above))
  {
    DistinctCount(uris, BranchUris(body) + UrisAbove(above));
    PrefixTableHolds(uris, |uris|);
    OnlyTopDeclares(body.children, Inside(body, EnvOf(above)), uris);
    NothingDeclaredIn(RefitNodes(body.children, Inside(body, EnvOf(above)), uris));
  }

  lemma {:induction false} NothingDeclaredIn(ts: seq<Tree>)
    requires DeclareNothing(ts)
    ensures DeclaredInAll(ts) == {}
    decreases ts
  {
    if ts != [] {
      NothingDeclaredIn(ts[0].children);
      NothingDeclaredIn(ts[1..]);
    }
  }

  lemma {:induction false} NormalBodyReservesXml(body: Tree, above: seq<Declared>, uris: seq<string>)
    ensures XmlReserved(Normalize(body, above, uris))
  {
    PrefixTableHolds(uris, |uris|);
    forall i: nat ensures Generated(i) != "xml" {
      assert Generated(i)[0] == 'n';
    }
    OnlyTopDeclares(body.children, Inside(body, EnvOf(above)), uris);
    NothingDeclaredReservesXml(Normalize(body, above, uris).children);
  }

  lemma {:induction false} NothingDeclaredReservesXml(ts: seq<Tree>)
    requires DeclareNothing(ts)
    ensures AllXmlReserved(ts)
    decreases ts
  {
    if ts != [] {
      NothingDeclaredReservesXml(ts[0].children);
      NothingDeclaredReservesXml(ts[1..]);
    }
  }

  lemma {:induction false} NormalBodyKeepsNames(envelope: Tree, uris: seq<string>)
    requires IsMessage(envelope) && Sendable(envelope) && Lists(uris, envelope.children[1], Above(envelope))
    ensures Names(WithNormalBody(envelope, uris), OUTSIDE) == Names(envelope, OUTSIDE)
  {
    EnvBelowEnvelope(envelope);
    NormalizeKeepsNamesIffSafe(envelope.children[1], Above(envelope), uris);
    TwoChildrenNames(WithNormalBody(envelope, uris), Inside(envelope, OUTSIDE));
    TwoChildrenNames(envelope, Inside(envelope, OUTSIDE));
  }

  lemma {:induction false} EnvelopeOffersExtend(m: Tree)
    requires XmlReserved(m)
    ensures Extends(ScopeAt(map[], m.nsprefixes), ScopeAt(map[], Offer(m)))
  {
    OfferExtends(Parent(m.prefix, m.nsprefixes), m.children);
    OfferKeepsXml(m);
  }

  lemma {:induction false} SafePartsMakeSafeMessage(m: Tree, scope: Scope, offered: Scope)
    requires IsMessage(m) && scope == ScopeAt(map[], m.nsprefixes) && offered == ScopeAt(map[], Offer(m))
    requires Extends(scope, offered) && forall p :: Uses(m, p) ==> Resolve(p, scope) == Resolve(p, offered)
    requires NoCapture(m.children[0], scope, offered) && NoCapture(m.children[1], scope, offered)
    ensures NoCapture(m, map[], map[])
  {
    TwoChildrenSafe(m, scope, offered);
  }

  lemma {:induction false} NormalBodyMessageReservesXml(envelope: Tree, uris: seq<string>)
    requires IsMessage(envelope) && Sendable(envelope)
    ensures XmlReserved(WithNormalBody(envelope, uris))
  {
    NormalBodyReservesXml(envelope.children[1], Above(envelope), uris);
    TwoReserveXml(WithNormalBody(envelope, uris));
  }

  lemma {:induction false} MessageDeclares(envelope: Tree, uris: seq<string>)
    requires IsMessage(envelope) && Lists(uris, envelope.children[1], Above(envelope))
    ensures var m := WithNormalBody(envelope, uris);
            DeclaredIn(m) <= Known(envelope) && Offer(m).Keys <= Known(envelope)
              && DeclaredIn(m.children[0]) <= Known(envelope)
  {
    var m := WithNormalBody(envelope, uris);
    NormalBodyDeclares(envelope.children[1], Above(envelope), uris);
    TwoDeclare(m);
    OfferIsDeclared(m);
  }

  lemma {:induction false} NormalBodyMessageIsSafe(envelope: Tree, uris: seq<string>)
    requires IsMessage(envelope) && Sendable(envelope) && Lists(uris, envelope.children[1], Above(envelope))
    ensures NoCapture(WithNormalBody(envelope, uris), map[], map[])
  {
    NormalBodyMessageReservesXml(envelope, uris);
    var m, known := WithNormalBody(envelope, uris), Known(envelope);
    var scope, offered := ScopeAt(map[], m.nsprefixes), ScopeAt(map[], Offer(m));
    EnvelopeOffersExtend(m);
    MessageDeclares(envelope, uris);
    OwnOrStrayIsSafe(envelope.children[0], scope, offered, known);
    NormalBodyIsSafe(envelope, uris, offered);
    EnvelopeUsesAgree(envelope, m, scope, offered);
    SafePartsMakeSafeMessage(m, scope, offered);
  }

  lemma {:induction false} EnvelopeUsesAgree(envelope: Tree, m: Tree, scope: Scope, offered: Scope)
    requires IsMessage(envelope) && Sendable(envelope)
    requires m.prefix == envelope.prefix && m.attributes == envelope.attributes
    requires scope == ScopeAt(map[], envelope.nsprefixes) && Extends(scope, offered) && offered.Keys <= Known(envelope)
    ensures forall p :: Uses(m, p) ==> Resolve(p, scope) == Resolve(p, offered)
  {
    SameUses(envelope, m);
    forall p | Uses(m, p) ensures Resolve(p, scope) == Resolve(p, offered) {
      assert Uses(envelope, p);
      assert p in scope || p !in offered;
    }
  }

  lemma SameUses(t: Tree, u: Tree)
    requires t.prefix == u.prefix && t.attributes == u.attributes
    ensures forall p :: Uses(u, p) ==> Uses(t, p)
  {
  }

  /** Normalizing the body and then promoting the envelope keeps every name of the message. */
  lemma {:induction false} SentMessageKeepsNames(envelope: Tree, uris: seq<string>)
    requires IsMessage(envelope) && Sendable(envelope) && Lists(uris, envelope.children[1], Above(envelope))
    ensures Names(Promote(WithNormalBody(envelope, uris)), OUTSIDE) == Names(envelope, OUTSIDE)
  {
    NormalBodyKeepsNames(envelope, uris);
    NormalBodyMessageReservesXml(envelope, uris);
    NormalBodyMessageIsSafe(envelope, uris);
    PromoteKeepsNamesIffNoCapture(WithNormalBody(envelope, uris));
  }

  lemma {:induction false} TwoChildrenNames(t: Tree, env: Env)
    requires |t.children| == 2
    ensures NamesOfAll(t.children, env) == [Names(t.children[0], env), Names(t.children[1], env)]
  {
    var rest := t.children[1..];
    assert rest == [t.children[1]] && rest[1..] == [];
    assert NamesOfAll(rest, env) == [Names(t.children[1], env)] + NamesOfAll(rest[1..], env);
  }

  lemma {:induction false} TwoDeclare(t: Tree)
    requires |t.children| == 2
    ensures DeclaredIn(t) == t.nsprefixes.Keys + (DeclaredIn(t.children[0]) + DeclaredIn(t.children[1]))
  {
    var rest := t.children[1..];
    assert rest == [t.children[1]] && rest[1..] == [];
    assert DeclaredInAll(rest) == DeclaredIn(t.children[1]) + DeclaredInAll(rest[1..]);
  }

  lemma {:induction false} TwoReserveXml(t: Tree)
    requires |t.children| == 2 && XmlReserved(t.children[0]) && XmlReserved(t.children[1])
    requires "xml" in t.nsprefixes ==> t.nsprefixes["xml"] == XML_URI
    ensures XmlReserved(t)
  {
    var rest := t.children[1..];
    assert rest == [t.children[1]] && rest[1..] == [];
    assert AllXmlReserved(rest[1..]) && AllXmlReserved(rest);
  }

  lemma {:induction false} TwoChildrenSafe(t: Tree, scope: Scope, offered: Scope)
    requires |t.children| == 2
    requires NoCapture(t.children[0], scope, offered) && NoCapture(t.children[1], scope, offered)
    ensures NoCaptureInAll(t.children, scope, offered)
  {
    var rest := t.children[1..];
    assert rest == [t.children[1]] && rest[1..] == [];
    assert NoCaptureInAll(rest[1..], scope, offered);
    assert NoCaptureInAll(rest, scope, offered);
  }
}
