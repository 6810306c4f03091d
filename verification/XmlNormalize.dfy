/**
 One generated prefix for each namespace of a branch (PrefixNormalizer in sax/element.py),
 and exactly when every name in the branch is kept.
 */
module XmlNormalize {
  import opened Listings
  import opened Options
  import opened XmlTree

  const XS_URI := "http://www.w3.org/2001/XMLSchema"
  const XSI_URI := "http://www.w3.org/2001/XMLSchema-instance"

  /** These pairs, and unresolved prefixes, are left as they are. */
  predicate Permitted(p: string, u: string) {
    (p, u) != ("xs", XS_URI) && (p, u) != ("xsi", XSI_URI) && (p, u) != ("xml", XML_URI)
  }

  function OwnUris(expns: Option<string>, nsprefixes: map<string, string>): set<string> {
    (if expns.Some? then {expns.value} else {}) + set p | p in nsprefixes
      && Permitted(p, nsprefixes[p]) :: nsprefixes[p]
  }

  function BranchUris(t: Tree): set<string>
    decreases t, 1
  {
    OwnUris(t.expns, t.nsprefixes) + BranchUrisOfAll(t.children)
  }

  function BranchUrisOfAll(ts: seq<Tree>): set<string>
    decreases ts, 0
  {
    if ts == [] then {} else BranchUris(ts[0]) + BranchUrisOfAll(ts[1..])
  }

  function UrisAbove(above: seq<Declared>): set<string> {
    if above == [] then {} else OwnUris(above[0].expns, above[0].nsprefixes) + UrisAbove(above[1..])
  }

  /** The namespaces of the branch and its ancestors, in the arbitrary order in which a set is listed. */
  ghost predicate Lists(uris: seq<string>, t: Tree, above: seq<Declared>) {
    && (forall u :: u in uris <==> u in BranchUris(t) + UrisAbove(above))
    && Distinct(uris)
  }

  /** The three pairs that are left as they are, and no others. */
  lemma OnlyTheseAreSkipped(p: string, u: string)
    ensures !Permitted(p, u) <==>
              || (p == "xs" && u == "http://www.w3.org/2001/XMLSchema")
              || (p == "xsi" && u == "http://www.w3.org/2001/XMLSchema-instance")
              || (p == "xml" && u == "http://www.w3.org/XML/1998/namespace")
  {
  }

  /** An element declares a namespace as its default, or for a prefix that is not skipped. */
  ghost predicate DeclaresUri(d: Declared, u: string) {
    d.expns == Some(u) || exists p :: p in d.nsprefixes && d.nsprefixes[p] == u && Permitted(p, u)
  }

  ghost predicate SomeDeclares(ts: seq<Tree>, u: string) {
    ts != []
    && (DeclaresUri(Declared(ts[0].expns, ts[0].nsprefixes), u) || SomeDeclares(ts[0].children, u)
        || SomeDeclares(ts[1..], u))
  }

  /** The namespaces that are given a prefix are those that some element of the branch, or above it, declares. */
  lemma {:induction false} ListedIff(t: Tree, above: seq<Declared>, u: string)
    ensures u in BranchUris(t) + UrisAbove(above)
            <==> SomeDeclares([t], u) || exists i :: 0 <= i < |above| && DeclaresUri(above[i], u)
  {
    BranchUrisIff([t], u);
    assert [t][1..] == [] && BranchUrisOfAll([t]) == BranchUris(t) + {};
    UrisAboveIff(above, u);
  }

  lemma {:induction false} BranchUrisIff(ts: seq<Tree>, u: string)
    ensures u in BranchUrisOfAll(ts) <==> SomeDeclares(ts, u)
    decreases ts
  {
    if ts != [] {
      BranchUrisIff(ts[0].children, u);
      BranchUrisIff(ts[1..], u);
    }
  }

  lemma {:induction false} UrisAboveIff(above: seq<Declared>, u: string)
    ensures u in UrisAbove(above) <==> exists i :: 0 <= i < |above| && DeclaresUri(above[i], u)
    decreases above
  {
    if above != [] {
      UrisAboveIff(above[1..], u);
      assert forall i :: 1 <= i < |above| ==> above[i] == above[1..][i - 1];
      if exists i :: 0 <= i < |above[1..]| && DeclaresUri(above[1..][i], u) {
        var i :| 0 <= i < |above[1..]| && DeclaresUri(above[1..][i], u);
        assert DeclaresUri(above[i + 1], u);
      }
    }
  }

  // ----- generated prefixes -----

  function Digits(n: nat): (s: string)
    ensures s != [] && forall i :: 0 <= i < |s| ==> '0' <= s[i] <= '9'
  {
    if n < 10 then ['0' + n as char] else Digits(n / 10) + ['0' + (n % 10) as char]
  }

  function Generated(n: nat): (s: string)
    ensures ':' !in s
  {
    "ns" + Digits(n)
  }

  lemma {:induction false} DigitsDistinct(m: nat, n: nat)
    requires Digits(m) == Digits(n)
    ensures m == n
  {
    var a, b := Digits(m), Digits(n);
    assert m >= 10 ==> |Digits(m / 10)| >= 1;
    assert n >= 10 ==> |Digits(n / 10)| >= 1;
    if m >= 10 {
      assert a[..|a| - 1] == Digits(m / 10) && b[..|b| - 1] == Digits(n / 10);
      DigitsDistinct(m / 10, n / 10);
      assert a[|a| - 1] == b[|b| - 1];
    }
  }

  /** Different positions generate different prefixes. */
  lemma GeneratedDistinct(m: nat, n: nat)
    requires Generated(m) == Generated(n)
    ensures m == n
  {
    assert Generated(m)[2..] == Digits(m) && Generated(n)[2..] == Digits(n);
    DigitsDistinct(m, n);
  }

  function Index(uris: seq<string>, u: string): (i: nat)
    requires u in uris
    ensures i < |uris| && uris[i] == u
  {
    if uris[0] == u then 0 else 1 + Index(uris[1..], u)
  }

  function PrefixFor(uris: seq<string>, u: string): (p: string)
    requires u in uris
    ensures ':' !in p
  {
    Generated(Index(uris, u))
  }

  /** The declarations put on the branch's top. */
  function PrefixTable(uris: seq<string>, n: nat): map<string, string>
    requires n <= |uris|
  {
    if n == 0 then map[] else PrefixTable(uris, n - 1)[Generated(n - 1) := uris[n - 1]]
  }

  lemma {:induction false} PrefixTableHolds(uris: seq<string>, n: nat)
    requires n <= |uris|
    ensures forall p :: p in PrefixTable(uris, n) <==> exists i :: 0 <= i < n && p == Generated(i)
    ensures forall i :: 0 <= i < n ==> PrefixTable(uris, n)[Generated(i)] == uris[i]
  {
    if n > 0 {
      PrefixTableHolds(uris, n - 1);
      forall i | 0 <= i < n ensures Generated(i) in PrefixTable(uris, n)
        && PrefixTable(uris, n)[Generated(i)] == uris[i] {
        if Generated(i) == Generated(n - 1) {
          GeneratedDistinct(i, n - 1);
        }
      }
    }
  }

  /** One distinct prefix for each namespace. */
  lemma OnePrefixPerUri(uris: seq<string>, u: string, v: string)
    requires u in uris && v in uris
    ensures PrefixFor(uris, u) == PrefixFor(uris, v) <==> u == v
    ensures PrefixFor(uris, u) in PrefixTable(uris, |uris|) && PrefixTable(uris, |uris|)[PrefixFor(uris, u)] == u
  {
    PrefixTableHolds(uris, |uris|);
    if PrefixFor(uris, u) == PrefixFor(uris, v) {
      GeneratedDistinct(Index(uris, u), Index(uris, v));
    }
  }

  // ----- the rewriting -----

  /** The new prefix of a name. The namespace of a permitted pair is always listed, see ScopeInsideListed. */
  function NewPrefix(p: string, scope: Scope, uris: seq<string>): (q: string) {
    if p in scope && Permitted(p, scope[p]) && scope[p] in uris then PrefixFor(uris, scope[p]) else p
  }

  function NewOption(p: Option<string>, scope: Scope, uris: seq<string>): Option<string> {
    if p.Some? then Some(NewPrefix(p.value, scope, uris)) else None
  }

  function NewValue(value: string, scope: Scope, uris: seq<string>): string {
    if HasPrefix(value) && PrefixOf(value) in scope && Permitted(PrefixOf(value), scope[PrefixOf(value)]) then
      Qualify(NewPrefix(PrefixOf(value), scope, uris), LocalOf(value))
    else value
  }

  function NewAttribute(a: Attribute, scope: Scope, uris: seq<string>): Attribute {
    Attribute(NewOption(a.prefix, scope, uris), a.name, NewValue(a.value, scope, uris))
  }

  function NewAttributes(attributes: seq<Attribute>, scope: Scope, uris: seq<string>): (r: seq<Attribute>)
    ensures |r| == |attributes|
    ensures forall i :: 0 <= i < |r| ==> r[i] == NewAttribute(attributes[i], scope, uris)
  {
    seq(|attributes|, i requires 0 <= i < |attributes| => NewAttribute(attributes[i], scope, uris))
  }

  /** An element below or at the top of the branch, its declarations gone. */
  function RefitNode(t: Tree, env: Env, uris: seq<string>): Tree
    decreases t, 1
  {
    var scope := Inside(t, env).scope;
    t.(prefix := NewOption(t.prefix, scope, uris),
       nsprefixes := map[],
       attributes := NewAttributes(t.attributes, scope, uris),
       children := RefitNodes(t.children, Inside(t, env), uris))
  }

  function RefitNodes(ts: seq<Tree>, env: Env, uris: seq<string>): (r: seq<Tree>)
    ensures |r| == |ts|
    decreases ts, 0
  {
    if ts == [] then [] else [RefitNode(ts[0], env, uris)] + RefitNodes(ts[1..], env, uris)
  }

  function Normalize(t: Tree, above: seq<Declared>, uris: seq<string>): Tree {
    RefitNode(t, EnvOf(above), uris).(nsprefixes := PrefixTable(uris, |uris|))
  }

  // ----- every namespace that a prefix resolves to is listed -----

  /** Each pair in scope is a declaration of the listed part, or the reserved one. */
  ghost predicate ScopeListed(scope: Scope, uris: seq<string>) {
    forall p :: p in scope && Permitted(p, scope[p]) ==> scope[p] in uris
  }

  lemma {:induction false} ScopeAboveListed(above: seq<Declared>, uris: seq<string>)
    requires forall u :: u in UrisAbove(above) ==> u in uris
    ensures ScopeListed(EnvOf(above).scope, uris)
  {
    if above != [] {
      ScopeAboveListed(above[1..], uris);
    }
  }

  lemma ScopeInsideListed(t: Tree, env: Env, uris: seq<string>)
    requires ScopeListed(env.scope, uris) && forall u :: u in BranchUris(t) ==> u in uris
    ensures ScopeListed(Inside(t, env).scope, uris)
  {
    forall p | p in t.nsprefixes && Permitted(p, t.nsprefixes[p]) ensures t.nsprefixes[p] in uris {
      assert t.nsprefixes[p] in OwnUris(t.expns, t.nsprefixes);
    }
  }

  // ----- when names are kept -----

  /** A prefix in use keeps its meaning: it is rewritten, or means the same in the scope on top. */
  ghost predicate PrefixKept(p: string, scope: Scope, top: Scope) {
    if p in scope && Permitted(p, scope[p]) then true
    else Resolve(p, scope) == Resolve(p, top)
  }

  ghost predicate KeptIn(t: Tree, env: Env, top: Scope)
    decreases t, 1
  {
    && (forall p :: Uses(t, p) ==> PrefixKept(p, Inside(t, env).scope, top))
    && AllKeptIn(t.children, Inside(t, env), top)
  }

  ghost predicate AllKeptIn(ts: seq<Tree>, env: Env, top: Scope)
    decreases ts, 0
  {
    ts == [] || (KeptIn(ts[0], env, top) && AllKeptIn(ts[1..], env, top))
  }

  /** The scope throughout the branch afterwards. */
  function TopScope(above: seq<Declared>, uris: seq<string>): Scope {
    ScopeAt(EnvOf(above).scope, PrefixTable(uris, |uris|))
  }

  lemma NewPrefixMeans(p: string, scope: Scope, top: Scope, uris: seq<string>)
    requires ScopeListed(scope, uris)
    requires forall u :: u in uris ==> PrefixFor(uris, u) in top && top[PrefixFor(uris, u)] == u
    ensures Resolve(NewPrefix(p, scope, uris), top) == Resolve(p, scope) <==> PrefixKept(p, scope, top)
  {
  }

  lemma NewValueMeans(value: string, scope: Scope, top: Scope, uris: seq<string>)
    requires ScopeListed(scope, uris)
    requires forall u :: u in uris ==> PrefixFor(uris, u) in top && top[PrefixFor(uris, u)] == u
    ensures MeaningOf(NewValue(value, scope, uris), top) == MeaningOf(value, scope)
            <==> (HasPrefix(value) ==> PrefixKept(PrefixOf(value), scope, top))
  {
    if HasPrefix(value) && PrefixOf(value) in scope && Permitted(PrefixOf(value), scope[PrefixOf(value)]) {
      SplitOfQualified(PrefixFor(uris, scope[PrefixOf(value)]), LocalOf(value));
    }
  }

  lemma NewAttributesMean(t: Tree, scope: Scope, top: Scope, uris: seq<string>)
    requires ScopeListed(scope, uris)
    requires forall u :: u in uris ==> PrefixFor(uris, u) in top && top[PrefixFor(uris, u)] == u
    ensures (t.prefix.Some? ==> Resolve(NewPrefix(t.prefix.value, scope, uris), top) == Resolve(t.prefix.value, scope))
            && AttributeNames(NewAttributes(t.attributes, scope, uris), top) == AttributeNames(t.attributes, scope)
            <==> forall p :: Uses(t, p) ==> PrefixKept(p, scope, top)
  {
    var x, y := AttributeNames(NewAttributes(t.attributes, scope, uris), top), AttributeNames(t.attributes, scope);
    if t.prefix.Some? {
      NewPrefixMeans(t.prefix.value, scope, top, uris);
    }
    forall i | 0 <= i < |t.attributes| ensures x[i] == y[i] <==> AttributeKept(t.attributes[i], scope, top) {
      var a := t.attributes[i];
      if a.prefix.Some? {
        NewPrefixMeans(a.prefix.value, scope, top, uris);
      }
      NewValueMeans(a.value, scope, top, uris);
    }
    assert x == y <==> forall i :: 0 <= i < |x| ==> x[i] == y[i];
    UsesAreKept(t, scope, top);
  }

  ghost predicate AttributeKept(a: Attribute, scope: Scope, top: Scope) {
    && (a.prefix.Some? ==> PrefixKept(a.prefix.value, scope, top))
    && (HasPrefix(a.value) ==> PrefixKept(PrefixOf(a.value), scope, top))
  }

  lemma UsesAreKept(t: Tree, scope: Scope, top: Scope)
    ensures (forall p :: Uses(t, p) ==> PrefixKept(p, scope, top))
            <==> (t.prefix.Some? ==> PrefixKept(t.prefix.value, scope, top))
                 && forall i :: 0 <= i < |t.attributes| ==> AttributeKept(t.attributes[i], scope, top)
  {
    if forall p :: Uses(t, p) ==> PrefixKept(p, scope, top) {
      assert t.prefix.Some? ==> Uses(t, t.prefix.value);
      forall i | 0 <= i < |t.attributes| ensures AttributeKept(t.attributes[i], scope, top) {
        var a := t.attributes[i];
        assert a.prefix.Some? ==> Uses(t, a.prefix.value);
        assert HasPrefix(a.value) ==> Uses(t, PrefixOf(a.value));
      }
    }
  }

  lemma {:induction false} RefitNodeNames(t: Tree, env: Env, uris: seq<string>, after: Env)
    requires ScopeListed(env.scope, uris) && forall u :: u in BranchUris(t) ==> u in uris
    requires forall u :: u in uris ==> PrefixFor(uris, u) in after.scope && after.scope[PrefixFor(uris, u)] == u
    requires "xml" in after.scope && after.scope["xml"] == XML_URI && after.default == env.default
    ensures Names(RefitNode(t, env, uris), after) == Names(t, env) <==> KeptIn(t, env, after.scope)
    decreases t, 1
  {
    ScopeInsideListed(t, env, uris);
    var r := RefitNode(t, env, uris);
    assert Inside(r, after).scope == after.scope;
    NewAttributesMean(t, Inside(t, env).scope, after.scope, uris);
    RefitNodesNames(t.children, Inside(t, env), uris, Inside(r, after));
  }

  lemma {:induction false} RefitNodesNames(ts: seq<Tree>, env: Env, uris: seq<string>, after: Env)
    requires ScopeListed(env.scope, uris) && forall u :: u in BranchUrisOfAll(ts) ==> u in uris
    requires forall u :: u in uris ==> PrefixFor(uris, u) in after.scope && after.scope[PrefixFor(uris, u)] == u
    requires "xml" in after.scope && after.scope["xml"] == XML_URI && after.default == env.default
    ensures NamesOfAll(RefitNodes(ts, env, uris), after) == NamesOfAll(ts, env) <==> AllKeptIn(ts, env, after.scope)
    decreases ts, 0
  {
    if ts != [] {
      RefitNodeNames(ts[0], env, uris, after);
      RefitNodesNames(ts[1..], env, uris, after);
      var x, y := NamesOfAll(RefitNodes(ts, env, uris), after), NamesOfAll(ts, env);
      assert RefitNodes(ts, env, uris)[1..] == RefitNodes(ts[1..], env, uris);
      assert x[1..] == NamesOfAll(RefitNodes(ts[1..], env, uris), after) && y[1..] == NamesOfAll(ts[1..], env);
      assert x == y <==> x[0] == y[0] && x[1..] == y[1..];
    }
  }

  lemma TopScopeDeclares(above: seq<Declared>, uris: seq<string>)
    ensures forall u :: u in uris ==>
              PrefixFor(uris, u) in TopScope(above, uris) && TopScope(above, uris)[PrefixFor(uris, u)] == u
    ensures "xml" in TopScope(above, uris) && TopScope(above, uris)["xml"] == XML_URI
  {
    PrefixTableHolds(uris, |uris|);
    forall i: nat ensures Generated(i) != "xml" {
      assert Generated(i)[0] == 'n';
    }
    forall u | u in uris ensures PrefixFor(uris, u) in TopScope(above, uris)
      && TopScope(above, uris)[PrefixFor(uris, u)] == u {
      OnePrefixPerUri(uris, u, u);
    }
  }

  /** Normalizing a branch keeps every name in it exactly when every prefix in use keeps its meaning. */
  lemma NormalizeKeepsNamesIffKept(t: Tree, above: seq<Declared>, uris: seq<string>)
    requires Lists(uris, t, above)
    ensures Names(Normalize(t, above, uris), EnvOf(above)) == Names(t, EnvOf(above))
            <==> KeptIn(t, EnvOf(above), TopScope(above, uris))
  {
    var env, top := EnvOf(above), TopScope(above, uris);
    ScopeAboveListed(above, uris);
    TopScopeDeclares(above, uris);
    ScopeInsideListed(t, env, uris);
    var r := Normalize(t, above, uris);
    assert Inside(r, env).scope == top;
    NewAttributesMean(t, Inside(t, env).scope, top, uris);
    RefitNodesNames(t.children, Inside(t, env), uris, Inside(r, env));
  }

  // ----- the condition in terms of the branch and its ancestors -----

  /** How many namespaces the branch and its ancestors declare. */
  function UriCount(t: Tree, above: seq<Declared>): nat {
    |BranchUris(t) + UrisAbove(above)|
  }

  predicate IsGenerated(p: string, n: nat) {
    exists i :: 0 <= i < n && p == Generated(i)
  }

  /**
   A prefix in use is rewritten; or it is one of the skipped pairs and means the same above the branch; or it is
   unresolved and not one of the first n generated prefixes.
   */
  predicate PrefixSafe(p: string, scope: Scope, above: Scope, n: nat) {
    if p in scope then Permitted(p, scope[p]) || p == "xml" || Resolve(p, above) == Some(scope[p])
    else !IsGenerated(p, n)
  }

  ghost predicate Safe(t: Tree, env: Env, above: Scope, n: nat)
    decreases t, 1
  {
    && (forall p :: Uses(t, p) ==> PrefixSafe(p, Inside(t, env).scope, above, n))
    && AllSafe(t.children, Inside(t, env), above, n)
  }

  ghost predicate AllSafe(ts: seq<Tree>, env: Env, above: Scope, n: nat)
    decreases ts, 0
  {
    ts == [] || (Safe(ts[0], env, above, n) && AllSafe(ts[1..], env, above, n))
  }

  lemma GeneratedIsOther(p: string, n: nat)
    requires p in ["xml", "xs", "xsi"]
    ensures !IsGenerated(p, n)
  {
    forall i: nat ensures Generated(i) != p {
      assert Generated(i)[0] == 'n';
    }
  }

  /** What a prefix means in the scope on top. */
  lemma TopResolves(p: string, above: seq<Declared>, uris: seq<string>)
    ensures if IsGenerated(p, |uris|) then p in TopScope(above, uris)
            else Resolve(p, TopScope(above, uris)) == if p == "xml" then Some(XML_URI)
              else Resolve(p, EnvOf(above).scope)
  {
    PrefixTableHolds(uris, |uris|);
    assert p in PrefixTable(uris, |uris|) <==> IsGenerated(p, |uris|);
  }

  lemma PrefixSafeIsKept(p: string, scope: Scope, above: seq<Declared>, uris: seq<string>)
    requires EnvOf(above).scope.Keys <= scope.Keys && "xml" in scope
    ensures PrefixKept(p, scope, TopScope(above, uris)) <==> PrefixSafe(p, scope, EnvOf(above).scope, |uris|)
  {
    TopResolves(p, above, uris);
    if p in scope && !Permitted(p, scope[p]) {
      GeneratedIsOther(p, |uris|);
    }
  }

  lemma {:induction false} SafeIsKept(t: Tree, env: Env, above: seq<Declared>, uris: seq<string>)
    requires EnvOf(above).scope.Keys <= env.scope.Keys
    ensures KeptIn(t, env, TopScope(above, uris)) <==> Safe(t, env, EnvOf(above).scope, |uris|)
    decreases t, 1
  {
    forall p: string ensures PrefixKept(p, Inside(t, env).scope, TopScope(above, uris))
                             <==> PrefixSafe(p, Inside(t, env).scope, EnvOf(above).scope, |uris|) {
      PrefixSafeIsKept(p, Inside(t, env).scope, above, uris);
    }
    AllSafeAreKept(t.children, Inside(t, env), above, uris);
  }

  lemma {:induction false} AllSafeAreKept(ts: seq<Tree>, env: Env, above: seq<Declared>, uris: seq<string>)
    requires EnvOf(above).scope.Keys <= env.scope.Keys
    ensures AllKeptIn(ts, env, TopScope(above, uris)) <==> AllSafe(ts, env, EnvOf(above).scope, |uris|)
    decreases ts, 0
  {
    if ts != [] {
      SafeIsKept(ts[0], env, above, uris);
      AllSafeAreKept(ts[1..], env, above, uris);
    }
  }

  /** Normalizing a branch, in whatever order its namespaces are listed, keeps every name exactly when it is safe. */
  lemma NormalizeKeepsNamesIffSafe(t: Tree, above: seq<Declared>, uris: seq<string>)
    requires Lists(uris, t, above)
    ensures Names(Normalize(t, above, uris), EnvOf(above)) == Names(t, EnvOf(above))
            <==> Safe(t, EnvOf(above), EnvOf(above).scope, UriCount(t, above))
  {
    DistinctCount(uris, BranchUris(t) + UrisAbove(above));
    NormalizeKeepsNamesIffKept(t, above, uris);
    SafeIsKept(t, EnvOf(above), above, uris);
  }

  /** Every prefix in use resolves, and the skipped pairs are bound above the branch. */
  ghost predicate WellBound(t: Tree, env: Env, above: Scope)
    decreases t, 1
  {
    && (forall p :: Uses(t, p) ==>
          p in Inside(t, env).scope
          && (Permitted(p, Inside(t, env).scope[p]) || p == "xml"
              || Resolve(p, above) == Some(Inside(t, env).scope[p])))
    && AllWellBound(t.children, Inside(t, env), above)
  }

  ghost predicate AllWellBound(ts: seq<Tree>, env: Env, above: Scope)
    decreases ts, 0
  {
    ts == [] || (WellBound(ts[0], env, above) && AllWellBound(ts[1..], env, above))
  }

  lemma {:induction false} WellBoundIsSafe(t: Tree, env: Env, above: Scope, n: nat)
    requires WellBound(t, env, above)
    ensures Safe(t, env, above, n)
    decreases t, 1
  {
    AllWellBoundAreSafe(t.children, Inside(t, env), above, n);
  }

  lemma {:induction false} AllWellBoundAreSafe(ts: seq<Tree>, env: Env, above: Scope, n: nat)
    requires AllWellBound(ts, env, above)
    ensures AllSafe(ts, env, above, n)
    decreases ts, 0
  {
    if ts != [] {
      WellBoundIsSafe(ts[0], env, above, n);
      AllWellBoundAreSafe(ts[1..], env, above, n);
    }
  }

  /** A well bound branch keeps its names, whatever order its namespaces are listed in. */
  lemma NormalizeKeepsNamesOfWellBound(t: Tree, above: seq<Declared>, uris: seq<string>)
    requires Lists(uris, t, above) && WellBound(t, EnvOf(above), EnvOf(above).scope)
    ensures Names(Normalize(t, above, uris), EnvOf(above)) == Names(t, EnvOf(above))
  {
    WellBoundIsSafe(t, EnvOf(above), EnvOf(above).scope, UriCount(t, above));
    NormalizeKeepsNamesIffSafe(t, above, uris);
  }

  /** Nothing below the top of the branch declares a prefix. */
  ghost predicate DeclareNothing(ts: seq<Tree>) {
    ts == [] || (ts[0].nsprefixes == map[] && DeclareNothing(ts[0].children) && DeclareNothing(ts[1..]))
  }

  lemma {:induction false} OnlyTopDeclares(ts: seq<Tree>, env: Env, uris: seq<string>)
    ensures DeclareNothing(RefitNodes(ts, env, uris))
    decreases ts
  {
    if ts != [] {
      OnlyTopDeclares(ts[0].children, Inside(ts[0], env), uris);
      OnlyTopDeclares(ts[1..], env, uris);
      assert RefitNodes(ts, env, uris)[1..] == RefitNodes(ts[1..], env, uris);
    }
  }

  const DANGLING_PREFIX := Element(None, "a", Some("u"), map[], [Attribute(None, "k", "ns0:v")], None, [])

  /** A value that merely looks qualified gains a meaning when its prefix is the first one generated. */
  lemma DanglingPrefixIsCaptured()
    ensures Lists(["u"], DANGLING_PREFIX, [])
    ensures MeaningOf("ns0:v", Inside(DANGLING_PREFIX, EnvOf([])).scope) == Literal("ns0:v")
    ensures var r := Normalize(DANGLING_PREFIX, [], ["u"]);
            r.attributes[0].value == "ns0:v" && MeaningOf("ns0:v", Inside(r, EnvOf([])).scope) == Qualified("u", "v")
  {
    assert Digits(0) == "0" && Generated(0) == "ns0";
    assert PrefixTable(["u"], 1) == map["ns0" := "u"];
    assert Qualify("ns0", "v") == "ns0:v";
    SplitOfQualified("ns0", "v");
    var r := Normalize(DANGLING_PREFIX, [], ["u"]);
    assert r.nsprefixes == PrefixTable(["u"], 1);
    assert r.attributes[0] == NewAttribute(DANGLING_PREFIX.attributes[0], Inside(DANGLING_PREFIX, OUTSIDE).scope,
                                           ["u"]);
    assert BranchUris(DANGLING_PREFIX) + UrisAbove([]) == {"u"};
  }
}
