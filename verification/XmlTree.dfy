/**
 XML element trees as values, and the expanded names that their elements, attributes and
 prefixed attribute values stand for (sax/element.py, section 6 of Namespaces in XML 1.0).
 */
module XmlTree {
  import opened Options

  datatype Attribute = Attribute(prefix: Option<string>, name: string, value: string)

  /** expns is the element's own default namespace, nsprefixes its own prefix declarations. */
  datatype Tree = Element(
    prefix: Option<string>,
    name: string,
    expns: Option<string>,
    nsprefixes: map<string, string>,
    attributes: seq<Attribute>,
    text: Option<string>,
    children: seq<Tree>)

  type Scope = map<string, string>

  /** What the ancestors of an element declare: prefixes, and the default namespace. */
  datatype Env = Env(scope: Scope, default: Option<string>)

  const OUTSIDE := Env(map[], None)

  const XML_URI := "http://www.w3.org/XML/1998/namespace"

  /** Lookup walks up from the element; the prefix xml is known at the first step. */
  function ScopeAt(outer: Scope, nsprefixes: map<string, string>): Scope {
    outer + map["xml" := XML_URI] + nsprefixes
  }

  /** What one ancestor declares. */
  datatype Declared = Declared(expns: Option<string>, nsprefixes: map<string, string>)

  /** The environment that a chain of ancestors gives, the nearest one first. */
  function EnvOf(above: seq<Declared>): Env {
    if above == [] then OUTSIDE
    else
      var outer := EnvOf(above[1..]);
      Env(ScopeAt(outer.scope, above[0].nsprefixes), if above[0].expns.Some? then above[0].expns else outer.default)
  }

  function Inside(t: Tree, env: Env): Env {
    Env(ScopeAt(env.scope, t.nsprefixes), if t.expns.Some? then t.expns else env.default)
  }

  function Resolve(prefix: string, scope: Scope): Option<string> {
    if prefix in scope then Some(scope[prefix]) else None
  }

  /** The namespace URI of an element. */
  function Uri(t: Tree, env: Env): Option<string> {
    if t.prefix.None? then Inside(t, env).default
    else Resolve(t.prefix.value, Inside(t, env).scope)
  }

  // ----- names with a prefix written as text -----

  /** The position of the first colon, or the length. */
  function Colon(s: string): (i: nat)
    ensures i <= |s| && (i < |s| ==> s[i] == ':') && ':' !in s[..i]
  {
    if s == [] || s[0] == ':' then 0
    else
      var r := Colon(s[1..]);
      assert s[..1 + r] == [s[0]] + s[1..][..r];
      1 + r
  }

  predicate HasPrefix(s: string) {
    Colon(s) < |s|
  }

  function PrefixOf(s: string): (p: string)
    requires HasPrefix(s)
    ensures ':' !in p
  {
    s[..Colon(s)]
  }

  function LocalOf(s: string): string
    requires HasPrefix(s)
  {
    s[Colon(s) + 1..]
  }

  function Qualify(prefix: string, local: string): string {
    prefix + ":" + local
  }

  lemma {:induction false} ColonOfQualified(prefix: string, local: string)
    requires ':' !in prefix
    ensures Colon(Qualify(prefix, local)) == |prefix|
  {
    if prefix != [] {
      ColonOfQualified(prefix[1..], local);
      assert Qualify(prefix, local)[1..] == Qualify(prefix[1..], local);
    }
  }

  /** Splitting undoes joining. */
  lemma SplitOfQualified(prefix: string, local: string)
    requires ':' !in prefix
    ensures HasPrefix(Qualify(prefix, local))
    ensures PrefixOf(Qualify(prefix, local)) == prefix && LocalOf(Qualify(prefix, local)) == local
  {
    ColonOfQualified(prefix, local);
  }

  /** The prefixes an element uses: its own, those of its attributes, and those of their values. */
  ghost predicate Uses(t: Tree, p: string) {
    || t.prefix == Some(p)
    || (exists a :: a in t.attributes && (a.prefix == Some(p) || (HasPrefix(a.value) && PrefixOf(a.value) == p)))
  }

  // ----- what a tree names -----

  datatype Meaning = Literal(text: string) | Qualified(uri: string, local: string)

  datatype AttributeName = AttributeName(uri: Option<string>, local: string, value: Meaning)

  datatype NameTree = NameTree(
    uri: Option<string>,
    local: string,
    attributes: seq<AttributeName>,
    text: Option<string>,
    children: seq<NameTree>)

  function MeaningOf(value: string, scope: Scope): Meaning {
    if HasPrefix(value) && PrefixOf(value) in scope then Qualified(scope[PrefixOf(value)], LocalOf(value))
    else Literal(value)
  }

  /** An attribute without a prefix is in no namespace. */
  function AttributeNameOf(a: Attribute, scope: Scope): AttributeName {
    AttributeName(if a.prefix.None? then None else Resolve(a.prefix.value, scope), a.name, MeaningOf(a.value, scope))
  }

  function AttributeNames(attributes: seq<Attribute>, scope: Scope): (r: seq<AttributeName>)
    ensures |r| == |attributes|
    ensures forall i :: 0 <= i < |r| ==> r[i] == AttributeNameOf(attributes[i], scope)
  {
    seq(|attributes|, i requires 0 <= i < |attributes| => AttributeNameOf(attributes[i], scope))
  }

  function Names(t: Tree, env: Env): NameTree
    decreases t, 1
  {
    NameTree(Uri(t, env), t.name, AttributeNames(t.attributes, Inside(t, env).scope), t.text,
             NamesOfAll(t.children, Inside(t, env)))
  }

  function NamesOfAll(ts: seq<Tree>, env: Env): (r: seq<NameTree>)
    ensures |r| == |ts|
    decreases ts, 0
  {
    if ts == [] then [] else [Names(ts[0], env)] + NamesOfAll(ts[1..], env)
  }
}
