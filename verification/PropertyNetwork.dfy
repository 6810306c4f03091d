/**
 Linked property objects (properties.py): searching, linking, unlinking, setting and getting
 on the objects themselves, and the invariant of the whole network.
 */
module PropertyNetwork {
  import opened Listings
  import opened Options
  import opened Reachability
  import opened LinkGraph

  /** A Python value; only its class matters to the network. Nothing is None. */
  datatype Value = Nothing | Of(kind: nat, content: string)

  datatype Definition = Definition(kinds: set<nat>, default: Value)

  predicate Accepts(d: Definition, v: Value) {
    v.Nothing? || d.kinds == {} || v.kind in d.kinds
  }

  function OrDefault(d: Definition, v: Value): Value {
    if v.Nothing? then d.default else v
  }

  datatype LinkError = AlreadyLinked | DuplicateDomain | DuplicateKey

  datatype Check = Allowed | Refused(error: LinkError)

  /** A value, or its absence: an unknown name, or a default not given. */
  datatype Answer = NoAnswer | Answer(value: Value)

  /** The list of visited objects that one search shares among its recursive calls. */
  class History {
    var items: seq<Properties>

    constructor ()
      ensures items == []
    {
      items := [];
    }
  }

  function RemoveFirst(s: seq<Properties>, x: Properties): seq<Properties> {
    if s == [] then []
    else if s[0] == x then s[1..]
    else [s[0]] + RemoveFirst(s[1..], x)
  }

  lemma {:induction false} RemoveFirstOfLast(s: seq<Properties>, x: Properties)
    requires x !in s
    ensures RemoveFirst(s + [x], x) == s
  {
    if s != [] {
      RemoveFirstOfLast(s[1..], x);
      assert (s + [x])[1..] == s[1..] + [x];
    }
  }

  lemma {:induction false} RemoveFirstMembers(s: seq<Properties>, x: Properties)
    requires Distinct(s)
    ensures Distinct(RemoveFirst(s, x))
    ensures forall y :: y in RemoveFirst(s, x) <==> y in s && y != x
  {
    if s != [] {
      assert forall y :: y in s <==> y == s[0] || y in s[1..];
      assert forall j :: 0 < j < |s| ==> s[j] == s[1..][j - 1];
      if s[0] != x {
        RemoveFirstMembers(s[1..], x);
        var r := RemoveFirst(s[1..], x);
        assert s[0] !in r;
        assert forall j :: 0 < j < |[s[0]] + r| ==> ([s[0]] + r)[j] in r;
      }
    }
  }

  // ----- the network of a set of objects -----

  /** g is the network of u. Endpoints compare by the object they stand for, so links hold the objects. */
  ghost predicate Shows(u: set<Properties>, g: Graph<Properties>)
    reads u
  {
    && g.Keys == u
    && (forall p :: p in u ==> g[p] == Members(p.links) && Distinct(p.links))
    && (forall p :: p in u ==> p.defined.Keys == p.definitions.Keys)
  }

  /** Two objects that share neither a domain nor a name. */
  ghost predicate NoOverlap(p: Properties, q: Properties) {
    p.domain != q.domain && p.definitions.Keys !! q.definitions.Keys
  }

  ghost predicate Apart(g: Graph<Properties>)
    requires Complete(g)
  {
    forall p, q {:trigger NoOverlap(p, q)} :: p in g && q in Reach(g, p) && p != q ==> NoOverlap(p, q)
  }

  /** A symmetric forest whose connected objects share no domain and no name. */
  ghost predicate Sound(g: Graph<Properties>) {
    Symmetric(g) && Forest(g) && Apart(g)
  }

  /** What every sequence of links, unlinks and updates keeps. */
  ghost predicate Valid(u: set<Properties>, g: Graph<Properties>)
    reads u
  {
    Shows(u, g) && Sound(g)
  }

  ghost predicate Defined(name: string, s: set<Properties>) {
    exists p :: p in s && name in p.definitions
  }

  ghost function KeysOf(s: set<Properties>): set<string> {
    set p, k | p in s && k in p.definitions :: k
  }

  ghost function DomainsOf(s: set<Properties>): set<string> {
    set p | p in s :: p.domain
  }

  /** The part of the network that p reaches without the objects already visited. */
  ghost function Area(g: Graph<Properties>, visited: seq<Properties>, p: Properties): set<Properties>
    requires Complete(g) && p in g && p !in visited
  {
    Reach(Without(g, Members(visited)), p)
  }

  /** The parts reached through the given links of p that lead to objects not yet visited. */
  ghost function Beyond(g: Graph<Properties>, visited: seq<Properties>, links: seq<Properties>): set<Properties>
    requires Complete(g) && Members(links) <= g.Keys
  {
    set y | y in g && exists x :: x in links && x !in visited && y in Area(g, visited, x)
  }

  lemma AreaSplits(g: Graph<Properties>, visited: seq<Properties>, p: Properties, links: seq<Properties>)
    requires Symmetric(g) && p in g && p !in visited && g[p] == Members(links)
    ensures Members(links) <= g.Keys
    ensures Area(g, visited, p) == {p} + Beyond(g, visited + [p], links)
  {
    assert Members(visited + [p]) == Members(visited) + {p};
    assert forall x :: x in links <==> x in g[p];
    ReachByNeighbours(g, Members(visited), p, {p} + Beyond(g, visited + [p], links));
  }

  lemma BeyondOneMore(g: Graph<Properties>, visited: seq<Properties>, links: seq<Properties>, i: nat)
    requires Complete(g) && Members(links) <= g.Keys && i < |links|
    ensures Members(links[..i]) <= g.Keys && Members(links[..i + 1]) <= g.Keys && links[i] in g
    ensures Beyond(g, visited, links[..i + 1]) ==
              Beyond(g, visited, links[..i]) + (if links[i] in visited then {} else Area(g, visited, links[i]))
  {
    assert links[i] in Members(links);
    assert links[..i + 1] == links[..i] + [links[i]];
    assert forall x :: x in links[..i + 1] <==> x in links[..i] || x == links[i];
  }

  lemma BeyondNothing(g: Graph<Properties>, visited: seq<Properties>)
    requires Complete(g)
    ensures Members([]) <= g.Keys && Beyond(g, visited, []) == {}
  {
  }

  /** The objects searched once the first i links of p are done with. */
  ghost function Searched(g: Graph<Properties>, now: seq<Properties>, p: Properties, links: seq<Properties>,
                          i: nat): set<Properties>
    requires Complete(g) && Members(links) <= g.Keys && i <= |links|
  {
    assert Members(links[..i]) <= Members(links);
    {p} + Beyond(g, now, links[..i])
  }

  lemma SearchedStep(g: Graph<Properties>, now: seq<Properties>, p: Properties, links: seq<Properties>, i: nat)
    requires Complete(g) && Members(links) <= g.Keys && i < |links|
    ensures links[i] in g
    ensures var before, after := Searched(g, now, p, links, i), Searched(g, now, p, links, i + 1);
            if links[i] in now then after == before
            else
              && KeysOf(after) == KeysOf(before) + KeysOf(Area(g, now, links[i]))
              && DomainsOf(after) == DomainsOf(before) + DomainsOf(Area(g, now, links[i]))
              && after == before + Area(g, now, links[i])
              && Area(g, now, links[i]) <= Searched(g, now, p, links, |links|)
  {
    BeyondOneMore(g, now, links, i);
    assert links[..|links|] == links;
    var before, after := Searched(g, now, p, links, i), Searched(g, now, p, links, i + 1);
    if links[i] !in now {
      assert after == before + Area(g, now, links[i]);
      NamesOfUnion(before, Area(g, now, links[i]));
    }
  }

  lemma SearchedEnds(g: Graph<Properties>, visited: seq<Properties>, p: Properties, links: seq<Properties>)
    requires Symmetric(g) && p in g && p !in visited && g[p] == Members(links)
    ensures Members(links) <= g.Keys
    ensures Searched(g, visited + [p], p, links, 0) == {p}
    ensures Searched(g, visited + [p], p, links, |links|) == Area(g, visited, p)
  {
    AreaSplits(g, visited, p, links);
    BeyondNothing(g, visited + [p]);
    assert links[..0] == [] && links[..|links|] == links;
  }

  lemma NamesOfUnion(a: set<Properties>, b: set<Properties>)
    ensures KeysOf(a + b) == KeysOf(a) + KeysOf(b) && DomainsOf(a + b) == DomainsOf(a) + DomainsOf(b)
  {
  }

  lemma NamesOfOne(p: Properties)
    ensures KeysOf({p}) == p.definitions.Keys && DomainsOf({p}) == {p.domain}
  {
  }

  lemma VisitedShrinks(u: set<Properties>, visited: seq<Properties>, p: Properties)
    requires p in u && p !in visited
    ensures u - Members(visited + [p]) < u - Members(visited)
  {
    assert p in u - Members(visited);
    assert Members(visited + [p]) == Members(visited) + {p};
  }

  lemma WholeArea(g: Graph<Properties>, p: Properties)
    requires Complete(g) && p in g
    ensures Area(g, [], p) == Reach(g, p)
  {
    WithoutNothing(g);
    assert Members<Properties>([]) == {};
  }

  // ----- linking two components -----

  /** Why two objects may not be linked, if so. */
  ghost function LinkCheck(g: Graph<Properties>, a: Properties, b: Properties): Check
    requires Complete(g) && a in g && b in g
  {
    if b in g[a] then Refused(AlreadyLinked)
    else if DomainsOf(Reach(g, a)) * DomainsOf(Reach(g, b)) != {} then Refused(DuplicateDomain)
    else if KeysOf(Reach(g, a)) * KeysOf(Reach(g, b)) != {} then Refused(DuplicateKey)
    else Allowed
  }

  /** Every object has a domain, so connected objects always share one. */
  lemma ConnectedShareDomain(g: Graph<Properties>, a: Properties, b: Properties)
    requires Symmetric(g) && a in g && b in Reach(g, a)
    ensures DomainsOf(Reach(g, a)) * DomainsOf(Reach(g, b)) != {}
  {
    assert b.domain in DomainsOf(Reach(g, a)) && b.domain in DomainsOf(Reach(g, b));
    assert b.domain in DomainsOf(Reach(g, a)) * DomainsOf(Reach(g, b));
  }

  /** Objects may be linked exactly when nothing that one reaches shares a domain or a name with what the other does. */
  lemma LinkAllowedIff(g: Graph<Properties>, a: Properties, b: Properties)
    requires Symmetric(g) && a in g && b in g
    ensures LinkCheck(g, a, b).Allowed? <==> forall p, q :: p in Reach(g, a) && q in Reach(g, b) ==> NoOverlap(p, q)
  {
    var s, t := Reach(g, a), Reach(g, b);
    if LinkCheck(g, a, b).Allowed? {
      forall p, q | p in s && q in t ensures NoOverlap(p, q) {
        AcrossAreApart(s, t, p, q);
      }
    } else if b in g[a] {
      ReachStep(g, a, b);
      assert b in s && b in t && !NoOverlap(b, b);
    } else if d :| d in DomainsOf(s) * DomainsOf(t) {
      var p :| p in s && p.domain == d;
      var q :| q in t && q.domain == d;
      assert !NoOverlap(p, q);
    } else {
      var k :| k in KeysOf(s) * KeysOf(t);
      var p :| p in s && k in p.definitions;
      var q :| q in t && k in q.definitions;
      assert k in p.definitions.Keys && k in q.definitions.Keys && !NoOverlap(p, q);
    }
  }

  /** The reasons for a refusal, in their order. */
  lemma LinkRefusedFor(g: Graph<Properties>, a: Properties, b: Properties)
    requires Symmetric(g) && a in g && b in g
    ensures LinkCheck(g, a, b) == Refused(AlreadyLinked) <==> b in g[a]
    ensures LinkCheck(g, a, b) == Refused(DuplicateDomain) <==>
              b !in g[a] && exists p, q :: p in Reach(g, a) && q in Reach(g, b) && p.domain == q.domain
  {
    var s, t := Reach(g, a), Reach(g, b);
    if d :| d in DomainsOf(s) * DomainsOf(t) {
      var p :| p in s && p.domain == d;
      var q :| q in t && q.domain == d;
      assert p.domain == q.domain;
    }
    if p, q :| p in s && q in t && p.domain == q.domain {
      assert p.domain in DomainsOf(s) * DomainsOf(t);
    }
  }

  lemma CheckedEndsAreUnconnected(g: Graph<Properties>, a: Properties, b: Properties)
    requires Symmetric(g) && a in g && b in g && LinkCheck(g, a, b) == Allowed
    ensures b !in Reach(g, a) && a != b
  {
    if b in Reach(g, a) {
      ConnectedShareDomain(g, a, b);
    }
  }

  lemma JoinKeepsApart(g: Graph<Properties>, a: Properties, b: Properties)
    requires Symmetric(g) && Apart(g) && a in g && b in g && a != b && LinkCheck(g, a, b) == Allowed
    ensures Apart(Join(g, a, b))
  {
    var h := Join(g, a, b);
    forall p, q | p in h && q in Reach(h, p) && p != q
      ensures NoOverlap(p, q)
    {
      JoinKeepsApartAt(g, a, b, p, q);
    }
  }

  lemma JoinKeepsApartAt(g: Graph<Properties>, a: Properties, b: Properties, p: Properties, q: Properties)
    requires Symmetric(g) && Apart(g) && a in g && b in g && a != b && LinkCheck(g, a, b) == Allowed
    requires p in g && q in Reach(Join(g, a, b), p) && p != q
    ensures NoOverlap(p, q)
  {
    ReachAfterJoin(g, a, b, p);
    if a in Reach(g, p) || b in Reach(g, p) {
      InOneOfTwo(g, a, b, p);
      MergedAreApart(g, a, b, p, q);
    }
  }

  lemma InOneOfTwo(g: Graph<Properties>, a: Properties, b: Properties, p: Properties)
    requires Symmetric(g) && a in g && b in g && p in g && (a in Reach(g, p) || b in Reach(g, p))
    ensures p in Reach(g, a) + Reach(g, b)
  {
    if a in Reach(g, p) { ReachIsSymmetric(g, p, a); } else { ReachIsSymmetric(g, p, b); }
  }

  lemma MergedAreApart(g: Graph<Properties>, a: Properties, b: Properties, p: Properties, q: Properties)
    requires Symmetric(g) && Apart(g) && a in g && b in g && a != b && LinkCheck(g, a, b) == Allowed
    requires p in Reach(g, a) + Reach(g, b) && q in Reach(g, a) + Reach(g, b) && p != q
    ensures NoOverlap(p, q)
  {
    if p in Reach(g, a) && q in Reach(g, a) {
      ReachIsSymmetric(g, a, p);
    } else if p in Reach(g, b) && q in Reach(g, b) {
      ReachIsSymmetric(g, b, p);
    } else {
      var x, y := if p in Reach(g, a) then p else q, if p in Reach(g, a) then q else p;
      AcrossAreApart(Reach(g, a), Reach(g, b), x, y);
    }
  }

  lemma AcrossAreApart(s: set<Properties>, t: set<Properties>, x: Properties, y: Properties)
    requires DomainsOf(s) * DomainsOf(t) == {} && KeysOf(s) * KeysOf(t) == {} && x in s && y in t
    ensures NoOverlap(x, y)
  {
    assert x.domain in DomainsOf(s) && y.domain in DomainsOf(t);
    assert x.domain !in DomainsOf(s) * DomainsOf(t);
    forall k | k in x.definitions ensures k !in y.definitions {
      assert k in KeysOf(s) && k !in KeysOf(s) * KeysOf(t);
    }
  }

  // ----- unlinking -----

  /** The network once a has let go of some of its links. */
  ghost function Severed(g: Graph<Properties>, a: Properties, gone: set<Properties>): Graph<Properties>
    requires Complete(g) && a in g
  {
    map p | p in g :: if p == a then g[a] - gone else if p in gone then g[p] - {a} else g[p]
  }

  lemma SeveredIsSymmetric(g: Graph<Properties>, a: Properties, gone: set<Properties>)
    requires Symmetric(g) && a in g
    ensures Symmetric(Severed(g, a, gone))
  {
  }

  /** Just the links between a and those it lets go of are gone. */
  lemma SeveredLinks(g: Graph<Properties>, a: Properties, gone: set<Properties>, x: Properties, y: Properties)
    requires Symmetric(g) && a in g && x in g && y in g
    ensures y in Severed(g, a, gone)[x] <==> y in g[x] && !(x == a && y in gone) && !(y == a && x in gone)
  {
  }

  lemma SeveredStaysSound(g: Graph<Properties>, a: Properties, gone: set<Properties>)
    requires Sound(g) && a in g
    ensures Sound(Severed(g, a, gone))
  {
    SeveredIsSymmetric(g, a, gone);
    SubgraphKeepsForest(g, Severed(g, a, gone));
  }

  lemma JoinStaysSound(g: Graph<Properties>, a: Properties, b: Properties)
    requires Sound(g) && a in g && b in g && LinkCheck(g, a, b) == Allowed
    ensures a != b && Sound(Join(g, a, b))
  {
    CheckedEndsAreUnconnected(g, a, b);
    JoinKeepsForest(g, a, b);
    JoinKeepsApart(g, a, b);
  }

  // ----- runs of changes -----

  /** A call of link, or of unlink. */
  datatype Change = Linking(a: Properties, b: Properties) | Unlinking(a: Properties, others: seq<Properties>)

  /** A link that is refused changes nothing. */
  ghost function Changed(g: Graph<Properties>, c: Change): (h: Graph<Properties>)
    requires Sound(g) && Among(c, g.Keys)
    ensures Sound(h) && h.Keys == g.Keys
  {
    match c
    case Linking(a, b) =>
      if LinkCheck(g, a, b).Allowed? then
        JoinStaysSound(g, a, b);
        Join(g, a, b)
      else g
    case Unlinking(a, others) =>
      var gone := if others == [] then g[a] else Members(others) * g[a];
      SeveredStaysSound(g, a, gone);
      Severed(g, a, gone)
  }

  ghost predicate Among(c: Change, u: set<Properties>) {
    c.a in u && (c.Linking? ==> c.b in u)
  }

  ghost function ChangedAll(g: Graph<Properties>, changes: seq<Change>): (h: Graph<Properties>)
    requires Sound(g) && forall i :: 0 <= i < |changes| ==> Among(changes[i], g.Keys)
    decreases changes
  {
    if changes == [] then g else ChangedAll(Changed(g, changes[0]), changes[1..])
  }

  /** What one change does to the links: an allowed link is added, and unlinking takes away the chosen ones, or all. */
  lemma ChangedLinks(g: Graph<Properties>, c: Change, x: Properties, y: Properties)
    requires Sound(g) && Among(c, g.Keys) && x in g && y in g
    ensures c.Linking? ==>
              (y in Changed(g, c)[x] <==>
                 y in g[x] || (LinkCheck(g, c.a, c.b).Allowed? && ((x == c.a && y == c.b) || (x == c.b && y == c.a))))
    ensures c.Unlinking? ==>
              (y in Changed(g, c)[x] <==>
                 y in g[x] && !(x == c.a && (c.others == [] || y in c.others))
                   && !(y == c.a && (c.others == [] || x in c.others)))
  {
    if c.Linking? && LinkCheck(g, c.a, c.b).Allowed? {
      JoinStaysSound(g, c.a, c.b);
    }
  }

  ghost predicate AllAmong(changes: seq<Change>, u: set<Properties>) {
    forall i :: 0 <= i < |changes| ==> Among(changes[i], u)
  }

  /** The changes of a run take effect one after the other. */
  lemma {:induction false} ChangedInTurn(g: Graph<Properties>, first: seq<Change>, second: seq<Change>)
    requires Sound(g) && AllAmong(first, g.Keys) && AllAmong(second, g.Keys)
    ensures AllAmong(first + second, g.Keys)
    ensures Sound(ChangedAll(g, first)) && ChangedAll(g, first).Keys == g.Keys
    ensures ChangedAll(g, first + second) == ChangedAll(ChangedAll(g, first), second)
    decreases first
  {
    if first == [] {
      assert first + second == second;
    } else {
      assert (first + second)[1..] == first[1..] + second;
      ChangedInTurn(Changed(g, first[0]), first[1..], second);
    }
  }

  /** A run of one change is that change. */
  lemma ChangedOnce(g: Graph<Properties>, c: Change)
    requires Sound(g) && Among(c, g.Keys)
    ensures ChangedAll(g, [c]) == Changed(g, c)
  {
    assert [c][1..] == [];
  }

  ghost function Unlinked(u: set<Properties>): Graph<Properties> {
    map p | p in u :: {}
  }

  lemma UnlinkedIsSound(u: set<Properties>)
    ensures Sound(Unlinked(u))
  {
    var g := Unlinked(u);
    forall p | p in g ensures Reach(g, p) <= {p} {
      ReachIsLeast(g, p, {p});
    }
  }

  /** Objects that start unlinked stay a sound network, whatever links and unlinks are tried. */
  lemma {:induction false} EveryRunIsSound(g: Graph<Properties>, changes: seq<Change>)
    requires Sound(g) && forall i :: 0 <= i < |changes| ==> Among(changes[i], g.Keys)
    ensures Sound(ChangedAll(g, changes)) && ChangedAll(g, changes).Keys == g.Keys
    decreases changes
  {
    if changes != [] {
      EveryRunIsSound(Changed(g, changes[0]), changes[1..]);
    }
  }

  lemma EveryRunFromUnlinkedIsSound(u: set<Properties>, changes: seq<Change>)
    requires forall i :: 0 <= i < |changes| ==> Among(changes[i], u)
    ensures Sound(Unlinked(u)) && Unlinked(u).Keys == u
    ensures Sound(ChangedAll(Unlinked(u), changes))
  {
    UnlinkedIsSound(u);
    EveryRunIsSound(Unlinked(u), changes);
  }

  // ----- reading -----

  /** The object of p's component that defines the name. */
  ghost function Definer(g: Graph<Properties>, p: Properties, name: string): (q: Properties)
    requires Complete(g) && p in g && Defined(name, Reach(g, p))
    ensures q in Reach(g, p) && name in q.definitions
  {
    var q :| q in Reach(g, p) && name in q.definitions;
    q
  }

  lemma DefinerIsUnique(g: Graph<Properties>, p: Properties, name: string, q: Properties)
    requires Symmetric(g) && Apart(g) && p in g && q in Reach(g, p) && name in q.definitions
    ensures Defined(name, Reach(g, p)) && Definer(g, p, name) == q
  {
    assert Defined(name, Reach(g, p));
    ReachIsSymmetric(g, p, q);
    var d := Definer(g, p, name);
    assert d != q ==> NoOverlap(q, d);
  }

  /** Within p's component the definer of a name is p's; no other lookup leads to it. */
  lemma DefinerElsewhere(g: Graph<Properties>, p: Properties, q: Properties, name: string, n: string)
    requires Symmetric(g) && Apart(g) && p in g && q in g && Defined(name, Reach(g, p))
    ensures q in Reach(g, p) ==> Defined(name, Reach(g, q)) && Definer(g, q, name) == Definer(g, p, name)
    ensures q !in Reach(g, p) && Defined(n, Reach(g, q)) ==> Definer(g, q, n) != Definer(g, p, name)
  {
    var d := Definer(g, p, name);
    ReachIsSymmetric(g, p, d);
    if q in Reach(g, p) {
      ReachIsSymmetric(g, p, q);
      DefinerIsUnique(g, q, name, d);
    } else if Defined(n, Reach(g, q)) && d in Reach(g, q) {
      ReachIsSymmetric(g, q, d);
    }
  }

  function Shown(d: Definition, stored: Value, fallback: Answer): Value {
    if stored == d.default && fallback.Answer? then fallback.value else stored
  }

  /** The stored values of every object. */
  type Store = map<Properties, map<string, Value>>

  ghost function StoreOf(u: set<Properties>): Store
    reads u
  {
    map p | p in u :: p.defined
  }

  ghost predicate Fits(g: Graph<Properties>, store: Store) {
    store.Keys == g.Keys && forall p :: p in g ==> store[p].Keys == p.definitions.Keys
  }

  /** What p's component holds under the name, NoAnswer when no member defines it. */
  ghost function Reads(g: Graph<Properties>, store: Store, p: Properties, name: string, fallback: Answer): Answer
    requires Complete(g) && Fits(g, store) && p in g
  {
    if Defined(name, Reach(g, p)) then
      var d := Definer(g, p, name);
      Answer(Shown(d.definitions[name], store[d][name], fallback))
    else NoAnswer
  }

  /** The stored values once p's component has been given a value for the name. */
  ghost function Updated(g: Graph<Properties>, store: Store, p: Properties, name: string, value: Value): Store
    requires Complete(g) && Fits(g, store) && p in g && Defined(name, Reach(g, p))
  {
    var d := Definer(g, p, name);
    store[d := store[d][name := OrDefault(d.definitions[name], value)]]
  }

  /** A value set through p is read back through every member of its component, and nothing else changes. */
  lemma SetIsReadByComponent(g: Graph<Properties>, store: Store, p: Properties, name: string, value: Value,
                             q: Properties, n: string, fallback: Answer)
    requires Sound(g) && Fits(g, store) && p in g && q in g && Defined(name, Reach(g, p))
    ensures Fits(g, Updated(g, store, p, name, value))
    ensures Reads(g, Updated(g, store, p, name, value), q, n, fallback) ==
              if n == name && q in Reach(g, p) then
                var d := Definer(g, p, name).definitions[name];
                Answer(Shown(d, OrDefault(d, value), fallback))
              else Reads(g, store, q, n, fallback)
  {
    DefinerElsewhere(g, p, q, name, n);
  }

  /**
   After a value is set through p, every member of its component reads that value back; None sets the default, and
   a fallback is read in place of the default.
   */
  lemma SetIsReadBack(g: Graph<Properties>, store: Store, p: Properties, name: string, value: Value, q: Properties,
                      fallback: Answer)
    requires Sound(g) && Fits(g, store) && p in g && q in Reach(g, p) && Defined(name, Reach(g, p))
    ensures Fits(g, Updated(g, store, p, name, value))
    ensures var read, default := Reads(g, Updated(g, store, p, name, value), q, name, fallback),
                                 Definer(g, p, name).definitions[name].default;
            && (!value.Nothing? && (fallback.NoAnswer? || value != default) ==> read == Answer(value))
            && (value.Nothing? && fallback.NoAnswer? ==> read == Answer(default))
            && (fallback.Answer? && (value.Nothing? || value == default) ==> read == fallback)
  {
    SetIsReadByComponent(g, store, p, name, value, q, name, fallback);
  }

  lemma SameComponentReadsSame(g: Graph<Properties>, store: Store, p: Properties, q: Properties, name: string,
                               fallback: Answer)
    requires Sound(g) && Fits(g, store) && p in g && q in Reach(g, p)
    ensures Reads(g, store, p, name, fallback) == Reads(g, store, q, name, fallback)
  {
    ReachIsSymmetric(g, p, q);
    if Defined(name, Reach(g, p)) {
      DefinerIsUnique(g, q, name, Definer(g, p, name));
    }
  }

  class Properties {
    const domain: string
    const definitions: map<string, Definition>
    var links: seq<Properties>
    var defined: map<string, Value>
    var modified: set<string>

    constructor (domain: string, definitions: map<string, Definition>)
      ensures this.domain == domain && this.definitions == definitions
      ensures links == [] && modified == {}
      ensures defined == map n | n in definitions :: definitions[n].default
    {
      this.domain, this.definitions := domain, definitions;
      links, modified := [], {};
      defined := map n | n in definitions :: definitions[n].default;
    }

    /** The names defined anywhere in the component, the already visited objects aside. */
    method KeysFrom(history: History, ghost u: set<Properties>, ghost g: Graph<Properties>) returns (r: set<string>)
      requires Symmetric(g) && Shows(u, g) && this in u && this !in history.items
      modifies history
      ensures history.items == old(history.items)
      ensures r == KeysOf(Area(g, old(history.items), this))
      decreases u - Members(history.items)
    {
      ghost var visited, now := history.items, history.items + [this];
      SearchedEnds(g, visited, this, links);
      VisitedShrinks(u, visited, this);
      NamesOfOne(this);
      history.items := history.items + [this];
      r := definitions.Keys;
      for i := 0 to |links|
        invariant history.items == now
        invariant r == KeysOf(Searched(g, now, this, links, i))
      {
        SearchedStep(g, now, this, links, i);
        if links[i] !in history.items {
          var more := links[i].KeysFrom(history, u, g);
          r := r + more;
        }
      }
      RemoveFirstOfLast(visited, this);
      history.items := RemoveFirst(history.items, this);
    }

    /** The domains found anywhere in the component, the already visited objects aside. */
    method DomainsFrom(history: History, ghost u: set<Properties>, ghost g: Graph<Properties>) returns (r: set<string>)
      requires Symmetric(g) && Shows(u, g) && this in u && this !in history.items
      modifies history
      ensures history.items == old(history.items)
      ensures r == DomainsOf(Area(g, old(history.items), this))
      decreases u - Members(history.items)
    {
      ghost var visited, now := history.items, history.items + [this];
      SearchedEnds(g, visited, this, links);
      VisitedShrinks(u, visited, this);
      NamesOfOne(this);
      history.items := history.items + [this];
      r := {domain};
      for i := 0 to |links|
        invariant history.items == now
        invariant r == DomainsOf(Searched(g, now, this, links, i))
      {
        SearchedStep(g, now, this, links, i);
        if links[i] !in history.items {
          var more := links[i].DomainsFrom(history, u, g);
          r := r + more;
        }
      }
      RemoveFirstOfLast(visited, this);
      history.items := RemoveFirst(history.items, this);
    }

    /** Searches beyond one of the links, unless the object there has been visited. */
    method ProviderAt(name: string, history: History, i: nat, ghost u: set<Properties>, ghost g: Graph<Properties>)
      returns (r: Properties?)
      requires Symmetric(g) && Shows(u, g) && this in u && i < |links|
      requires history.items != [] && history.items[|history.items| - 1] == this
      requires !Defined(name, Searched(g, history.items, this, links, i))
      modifies history
      ensures r != null ==> r in Searched(g, old(history.items), this, links, i + 1) && name in r.definitions
      ensures r == null ==>
                history.items == old(history.items) && !Defined(name, Searched(g, history.items, this, links, i + 1))
      decreases u - Members(history.items), 1
    {
      SearchedStep(g, history.items, this, links, i);
      r := null;
      if links[i] !in history.items {
        r := links[i].ProviderFrom(name, history, u, g);
      }
    }

    /**
     An object of the component that defines the name; failing that, nothing while other
     objects are still being searched, and this object otherwise.
     */
    method ProviderFrom(name: string, history: History, ghost u: set<Properties>, ghost g: Graph<Properties>)
      returns (r: Properties?)
      requires Symmetric(g) && Shows(u, g) && this in u && this !in history.items
      modifies history
      ensures Defined(name, Area(g, old(history.items), this)) ==>
                r != null && r in Area(g, old(history.items), this) && name in r.definitions
      ensures !Defined(name, Area(g, old(history.items), this)) ==>
                history.items == old(history.items) && r == if history.items != [] then null else this
      decreases u - Members(history.items), 0
    {
      ghost var visited, now := history.items, history.items + [this];
      SearchedEnds(g, visited, this, links);
      VisitedShrinks(u, visited, this);
      history.items := history.items + [this];
      if name in definitions {
        return this;
      }
      for i := 0 to |links|
        invariant history.items == now
        invariant !Defined(name, Searched(g, now, this, links, i))
      {
        var provider := ProviderAt(name, history, i, u, g);
        if provider != null {
          return provider;
        }
      }
      RemoveFirstOfLast(visited, this);
      history.items := RemoveFirst(history.items, this);
      return if history.items != [] then null else this;
    }

    method Keys(ghost u: set<Properties>, ghost g: Graph<Properties>) returns (r: set<string>)
      requires Symmetric(g) && Shows(u, g) && this in u
      ensures r == KeysOf(Reach(g, this))
    {
      WholeArea(g, this);
      var history := new History();
      r := KeysFrom(history, u, g);
    }

    method Domains(ghost u: set<Properties>, ghost g: Graph<Properties>) returns (r: set<string>)
      requires Symmetric(g) && Shows(u, g) && this in u
      ensures r == DomainsOf(Reach(g, this))
    {
      WholeArea(g, this);
      var history := new History();
      r := DomainsFrom(history, u, g);
    }

    method Provider(name: string, ghost u: set<Properties>, ghost g: Graph<Properties>) returns (r: Properties)
      requires Symmetric(g) && Shows(u, g) && this in u
      ensures if Defined(name, Reach(g, this)) then r in Reach(g, this) && name in r.definitions
              else r == this
    {
      WholeArea(g, this);
      var history := new History();
      var found := ProviderFrom(name, history, u, g);
      r := found;
    }

    /** Links two objects, or reports why they may not be linked and changes nothing. */
    method Link(other: Properties, ghost u: set<Properties>, ghost g: Graph<Properties>) returns (error: Check)
      requires Valid(u, g) && this in u && other in u
      modifies this`links, other`links
      ensures error == LinkCheck(g, this, other)
      ensures error.Refused? ==> Valid(u, g) && links == old(links) && other.links == old(other.links)
      ensures error.Allowed? ==> this != other && Valid(u, Join(g, this, other))
      ensures Valid(u, Changed(g, Linking(this, other)))
      ensures error.Allowed? ==> links == old(links) + [other] && other.links == old(other.links) + [this]
    {
      error := Validate(other, u, g);
      if error.Allowed? {
        JoinStaysSound(g, this, other);
        Attach(other, u, g);
      }
    }

    method Attach(other: Properties, ghost u: set<Properties>, ghost g: Graph<Properties>)
      requires Complete(g) && Shows(u, g) && this in u && other in u && this != other
      requires other !in links && this !in other.links
      modifies this`links, other`links
      ensures Shows(u, Join(g, this, other))
      ensures links == old(links) + [other] && other.links == old(other.links) + [this]
    {
      links := links + [other];
      other.links := other.links + [this];
    }

    method Validate(other: Properties, ghost u: set<Properties>, ghost g: Graph<Properties>) returns (error: Check)
      requires Symmetric(g) && Shows(u, g) && this in u && other in u
      ensures error == LinkCheck(g, this, other)
    {
      if this in other.links || other in links {
        return Refused(AlreadyLinked);
      }
      var domainsA := Domains(u, g);
      var domainsB := other.Domains(u, g);
      if domainsA * domainsB != {} {
        return Refused(DuplicateDomain);
      }
      var keysA := Keys(u, g);
      var keysB := other.Keys(u, g);
      if keysA * keysB != {} {
        return Refused(DuplicateKey);
      }
      error := Allowed;
    }

    /** Removes the link to other from both ends, where it is there. */
    method Teardown(other: Properties)
      requires this != other && Distinct(links) && Distinct(other.links)
      modifies this`links, other`links
      ensures Distinct(links) && Members(links) == Members(old(links)) - {other}
      ensures Distinct(other.links) && Members(other.links) == Members(old(other.links)) - {this}
    {
      RemoveFirstMembers(links, other);
      RemoveFirstMembers(other.links, this);
      if this in other.links {
        other.links := RemoveFirst(other.links, this);
      }
      if other in links {
        links := RemoveFirst(links, other);
      }
    }

    /** Unlinks the given objects that are linked, or all when none is given. */
    method Unlink(others: seq<Properties>, ghost u: set<Properties>, ghost g: Graph<Properties>)
      requires Valid(u, g) && this in u
      modifies u`links
      ensures Valid(u, Changed(g, Unlinking(this, others)))
    {
      var chosen := if others == [] then links else others;
      ghost var gone := if others == [] then g[this] else Members(others) * g[this];
      assert Members(chosen) * g[this] == gone;
      NotLinkedToItself(g, this);
      DropChosen(chosen, u, g);
      SeveredStaysSound(g, this, gone);
    }

    /** The loop over a copy of the links. */
    method DropChosen(chosen: seq<Properties>, ghost u: set<Properties>, ghost g: Graph<Properties>)
      requires Complete(g) && Shows(u, g) && this in u && this !in g[this]
      modifies u`links
      ensures Shows(u, Severed(g, this, Members(chosen) * g[this]))
    {
      var copy := links;
      ghost var gone: set<Properties> := {};
      SeveredNothing(g, this);
      for i := 0 to |copy|
        invariant Shows(u, Severed(g, this, gone))
        invariant gone == Members(chosen) * Members(copy[..i])
      {
        assert copy[i] in g[this] && copy[i] in u;
        assert Members(copy[..i + 1]) == Members(copy[..i]) + {copy[i]};
        if copy[i] in chosen {
          DropLink(copy[i], g, gone, u);
          gone := gone + {copy[i]};
        }
      }
      assert copy[..|copy|] == copy;
    }

    method DropLink(q: Properties, ghost g: Graph<Properties>, ghost gone: set<Properties>, ghost u: set<Properties>)
      requires Complete(g) && this in u && this in g && q in u && q != this && Shows(u, Severed(g, this, gone))
      modifies this`links, q`links
      ensures Shows(u, Severed(g, this, gone + {q}))
    {
      ghost var before, after := Severed(g, this, gone), Severed(g, this, gone + {q});
      assert after[this] == before[this] - {q} && after[q] == before[q] - {this};
      assert forall p :: p in u && p != this && p != q ==> after[p] == before[p];
      Teardown(q);
    }

    /** False stands for AttributeError: the name is unknown, or the value not of a permitted class. */
    method Set(name: string, value: Value, ghost u: set<Properties>, ghost g: Graph<Properties>) returns (ok: bool)
      requires Valid(u, g) && this in u
      modifies u`defined, u`modified
      ensures Shows(u, g)
      ensures ok <==>
                Defined(name, Reach(g, this))
                && var d := Definer(g, this, name).definitions[name];
                   value.Nothing? || d.kinds == {} || value.kind in d.kinds
      ensures StoreOf(u) == if ok then Updated(g, old(StoreOf(u)), this, name, value) else old(StoreOf(u))
      ensures ok ==> name in Definer(g, this, name).modified
    {
      var p := Provider(name, u, g);
      if name in p.definitions {
        DefinerIsUnique(g, this, name, p);
      }
      ok := p.StoreValue(name, value, u, g);
    }

    /** Stores the value, or the default for None, in this object itself. */
    method StoreValue(name: string, value: Value, ghost u: set<Properties>, ghost g: Graph<Properties>)
      returns (ok: bool)
      requires Shows(u, g) && this in u
      modifies `defined, `modified
      ensures Shows(u, g)
      ensures ok <==> name in definitions && Accepts(definitions[name], value)
      ensures StoreOf(u) ==
                if ok then old(StoreOf(u))[this := old(defined)[name := OrDefault(definitions[name], value)]]
                  else old(StoreOf(u))
      ensures modified == old(modified) + if ok then {name} else {}
    {
      if name !in definitions || !Accepts(definitions[name], value) {
        assert StoreOf(u) == old(StoreOf(u));
        return false;
      }
      defined := defined[name := OrDefault(definitions[name], value)];
      modified := modified + {name};
      ok := true;
    }

    /** NoAnswer stands for AttributeError. */
    method Get(name: string, fallback: Answer, ghost u: set<Properties>, ghost g: Graph<Properties>) returns (r: Answer)
      requires Valid(u, g) && this in u
      ensures r == Reads(g, StoreOf(u), this, name, fallback)
    {
      var p := Provider(name, u, g);
      if name !in p.definitions {
        return NoAnswer;
      }
      DefinerIsUnique(g, this, name, p);
      r := Answer(Shown(p.definitions[name], p.defined[name], fallback));
    }
  }

  lemma NotLinkedToItself(g: Graph<Properties>, a: Properties)
    requires Sound(g) && a in g
    ensures a !in g[a]
  {
  }

  lemma SeveredNothing(g: Graph<Properties>, a: Properties)
    requires Complete(g) && a in g
    ensures Severed(g, a, {}) == g
  {
    assert forall p :: p in g ==> Severed(g, a, {})[p] == g[p];
  }
}
