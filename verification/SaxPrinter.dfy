/**
 What a SAX parser reports for a printed element tree (sax/element.py): start tags with their
 declarations and attributes, text, and end tags, for the plain form and for the indented one.
 */
module SaxPrinter {
  import opened Listings
  import opened Options
  import opened XmlTree
  import opened EntityEncoder

  datatype Event =
    | StartElement(name: string, attributes: seq<Named>)
    | Characters(content: string)
    | EndElement(name: string)

  datatype Named = Named(name: string, value: string)

  /** The order in which the prefixes of a dictionary are listed. */
  type Order = map<string, string> -> seq<string>

  /** A listing has every key once. */
  ghost predicate ListsKeys(order: Order) {
    forall m: map<string, string> :: IsListing(order(m), m)
  }

  ghost predicate IsListing(s: seq<string>, m: map<string, string>) {
    (forall k :: k in s <==> k in m) && Distinct(s)
  }

  function QualifiedName(prefix: Option<string>, name: string): string {
    if prefix.None? then name else Qualify(prefix.value, name)
  }

  function NameOf(t: Tree): string {
    QualifiedName(t.prefix, t.name)
  }

  /** What an element sees of its parent: its own default namespace, and the prefixes in scope. */
  datatype Outer = Root | Under(expns: Option<string>, scope: Scope)

  function Within(t: Tree, env: Env): Outer {
    Under(t.expns, Inside(t, env).scope)
  }

  predicate DeclaresDefault(t: Tree, outer: Outer) {
    t.expns.Some? && (outer.Root? || outer.expns != t.expns)
  }

  /** Prefixes that the parent resolves to the same URI are not declared again. */
  predicate DeclaresPrefix(t: Tree, outer: Outer, p: string) {
    p in t.nsprefixes && (outer.Root? || Resolve(p, outer.scope) != Some(t.nsprefixes[p]))
  }

  /** The declarations for some of the prefixes. */
  function PrefixDeclarations(t: Tree, outer: Outer, prefixes: seq<string>): seq<Named> {
    if prefixes == [] then []
    else (if DeclaresPrefix(t, outer, prefixes[0])
          then [Named(Qualify("xmlns", prefixes[0]), Decoded(t.nsprefixes[prefixes[0]]))] else [])
         + PrefixDeclarations(t, outer, prefixes[1..])
  }

  function DefaultDeclaration(t: Tree, outer: Outer): seq<Named> {
    if DeclaresDefault(t, outer) then [Named("xmlns", Decoded(t.expns.value))] else []
  }

  /** The default namespace is declared exactly where it is not the parent's own. */
  lemma DefaultIsPrintedIff(t: Tree, outer: Outer)
    ensures DefaultDeclaration(t, outer) ==
              if t.expns.Some? && (outer.Root? || outer.expns != t.expns)
                then [Named("xmlns", Decoded(t.expns.value))] else []
  {
  }

  /** A prefix is declared exactly where the parent does not see it for the same URI. */
  lemma {:induction false} PrefixIsPrintedIff(t: Tree, outer: Outer, prefixes: seq<string>, p: string)
    requires forall q :: q in prefixes ==> q in t.nsprefixes
    ensures (exists a :: a in PrefixDeclarations(t, outer, prefixes) && a.name == Qualify("xmlns", p)) <==>
              p in prefixes
              && (outer.Root? || p !in outer.scope || outer.scope[p] != t.nsprefixes[p])
    ensures forall a :: a in PrefixDeclarations(t, outer, prefixes) && a.name == Qualify("xmlns", p) ==>
              p in t.nsprefixes && a.value == Decoded(t.nsprefixes[p])
  {
    if prefixes != [] {
      PrefixIsPrintedIff(t, outer, prefixes[1..], p);
      QualifyApart(prefixes[0], p);
      var q, rest := prefixes[0], PrefixDeclarations(t, outer, prefixes[1..]);
      var first := if DeclaresPrefix(t, outer, q) then [Named(Qualify("xmlns", q), Decoded(t.nsprefixes[q]))] else [];
      assert PrefixDeclarations(t, outer, prefixes) == first + rest;
      assert forall a :: a in first + rest <==> a in first || a in rest;
      assert DeclaresPrefix(t, outer, q) ==> first[0] in first;
    }
  }

  lemma QualifyApart(p: string, q: string)
    ensures Qualify("xmlns", p) == Qualify("xmlns", q) <==> p == q
  {
    SplitOfQualified("xmlns", p);
    SplitOfQualified("xmlns", q);
  }

  /** Attribute values are encoded when printed and decoded when parsed. */
  function NamedOf(a: Attribute): Named {
    Named(QualifiedName(a.prefix, a.name), Decoded(Encoded(a.value)))
  }

  function AllNamed(attributes: seq<Attribute>): seq<Named> {
    if attributes == [] then [] else [NamedOf(attributes[0])] + AllNamed(attributes[1..])
  }

  function TextEvents(text: Option<string>): seq<Event> {
    if text.Some? && text.value != "" then [Characters(Decoded(Encoded(text.value)))] else []
  }

  /** White space between tags; none in the plain form. */
  function Gap(indent: Option<nat>): seq<Event> {
    if indent.None? then [] else [Characters("\n" + Spaces(3 * indent.value))]
  }

  function Spaces(n: nat): (s: string)
    ensures |s| == n && forall i :: 0 <= i < n ==> s[i] == ' '
  {
    seq(n, i => ' ')
  }

  function Deeper(indent: Option<nat>): Option<nat> {
    if indent.None? then None else Some(indent.value + 1)
  }

  function StartOf(t: Tree, outer: Outer, order: Order): Event {
    StartElement(NameOf(t), DefaultDeclaration(t, outer) + PrefixDeclarations(t, outer, order(t.nsprefixes))
                 + AllNamed(t.attributes))
  }

  function Events(t: Tree, env: Env, outer: Outer, indent: Option<nat>, order: Order): seq<Event>
    decreases t, 1
  {
    [StartOf(t, outer, order)]
    + (TextEvents(t.text)
       + (ChildEvents(t.children, Inside(t, env), Within(t, env), Deeper(indent), order)
          + ((if t.children == [] then [] else Gap(indent)) + [EndElement(NameOf(t))])))
  }

  function ChildEvents(ts: seq<Tree>, env: Env, outer: Outer, indent: Option<nat>, order: Order): seq<Event>
    decreases ts, 0
  {
    if ts == [] then []
    else Gap(indent) + (Events(ts[0], env, outer, indent, order) + ChildEvents(ts[1..], env, outer, indent, order))
  }

  /** In the indented form the first child stands on a line of its own, three spaces deeper than its parent. */
  lemma ChildStandsDeeper(t: Tree, env: Env, outer: Outer, n: nat, order: Order)
    requires t.children != []
    ensures var events, k := Events(t, env, outer, Some(n), order), 1 + |TextEvents(t.text)|;
            k < |events| && events[k] == Characters("\n" + Spaces(3 * (n + 1)))
  {
    var kids := ChildEvents(t.children, Inside(t, env), Within(t, env), Some(n + 1), order);
    assert kids[0] == Gap(Some(n + 1))[0];
  }
}
