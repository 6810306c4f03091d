/**
 The marshaller as the source runs it: nodes grow in place, and the resolver's stack is pushed,
 suspended and popped along the way (mx/core.py, mx/appender.py, mx/literal.py, resolver.py).
 */
module Marshaller {
  import opened Options
  import opened SoapSchema
  import opened Marshal
  import opened TreeResolver

  lemma {:induction false} SetAttributeAt(attributes: seq<Attr>, name: string, value: string, i: nat)
    requires i <= |attributes| && (forall j :: 0 <= j < i ==> attributes[j].name != name)
    requires i < |attributes| ==> attributes[i].name == name
    ensures SetAttribute(attributes, name, value)
            == if i < |attributes| then attributes[i := Attr(name, value)] else attributes + [Attr(name, value)]
  {
    if i > 0 {
      var rest := attributes[1..];
      SetAttributeAt(rest, name, value, i - 1);
      if i < |attributes| {
        assert [attributes[0]] + rest[i - 1 := Attr(name, value)] == attributes[i := Attr(name, value)];
      } else {
        assert [attributes[0]] + (rest + [Attr(name, value)]) == attributes + [Attr(name, value)];
      }
    }
  }

  /** An element under construction; content is set for a wrapper around a finished one. */
  class Node {
    const name: string
    const content: Option<Xml>
    var nil: bool
    var attributes: seq<Attr>
    var text: Option<string>
    var children: seq<Node>

    constructor (name: string, content: Option<Xml>)
      ensures this.name == name && this.content == content && !nil && attributes == [] && text == None && children == []
    {
      this.name, this.content := name, content;
      nil, attributes, text, children := false, [], None, [];
    }

    /** Sets the first attribute of that name, or appends one. */
    method Set(name: string, value: string)
      modifies this`attributes
      ensures attributes == SetAttribute(old(attributes), name, value)
    {
      var i := 0;
      while i < |attributes| && attributes[i].name != name
        invariant 0 <= i <= |attributes|
        invariant forall j :: 0 <= j < i ==> attributes[j].name != name
      {
        i := i + 1;
      }
      SetAttributeAt(attributes, name, value, i);
      if i < |attributes| {
        attributes := attributes[i := Attr(name, value)];
      } else {
        attributes := attributes + [Attr(name, value)];
      }
    }

    method SetText(value: string)
      modifies this`text
      ensures text == Some(value)
    {
      text := Some(value);
    }

    method SetNil()
      modifies this`nil, this`text
      ensures nil && text == None
    {
      nil, text := true, None;
    }

    method Append(child: Node)
      modifies this`children
      ensures children == old(children) + [child]
    {
      children := children + [child];
    }
  }

  /** The nodes stand for the XML, and everything below them is in the region. */
  ghost predicate Shows(n: Node, x: Xml, region: set<Node>)
    reads region
    decreases x, 1
  {
    && n in region
    && if n.content.Some? then n.content.value == x
       else n.name == x.name && n.nil == x.nil && n.attributes == x.attributes && n.text == x.text
            && ShowsAll(n.children, x.children, region)
  }

  ghost predicate ShowsAll(ns: seq<Node>, xs: seq<Xml>, region: set<Node>)
    reads region
    decreases xs, 0
  {
    |ns| == |xs| && (xs == [] || (Shows(ns[0], xs[0], region) && ShowsAll(ns[1..], xs[1..], region)))
  }

  lemma ShowsOne(n: Node, x: Xml, region: set<Node>)
    requires Shows(n, x, region)
    ensures ShowsAll([n], [x], region)
  {
    assert [n][1..] == [] && [x][1..] == [];
  }

  lemma {:induction false} ShowsAt(ns: seq<Node>, xs: seq<Xml>, region: set<Node>)
    requires ShowsAll(ns, xs, region)
    ensures |ns| == |xs| && forall i :: 0 <= i < |xs| ==> Shows(ns[i], xs[i], region)
    decreases xs
  {
    if xs != [] {
      ShowsAt(ns[1..], xs[1..], region);
      assert forall i :: 1 <= i < |xs| ==> ns[i] == ns[1..][i - 1] && xs[i] == xs[1..][i - 1];
    }
  }

  lemma {:induction false} ShowsMore(n: Node, x: Xml, small: set<Node>, big: set<Node>)
    requires small <= big && Shows(n, x, small)
    ensures Shows(n, x, big)
    decreases x, 1
  {
    if n.content.None? {
      ShowsAllMore(n.children, x.children, small, big);
    }
  }

  lemma {:induction false} ShowsAllMore(ns: seq<Node>, xs: seq<Xml>, small: set<Node>, big: set<Node>)
    requires small <= big && ShowsAll(ns, xs, small)
    ensures ShowsAll(ns, xs, big)
    decreases xs, 0
  {
    if xs != [] {
      ShowsMore(ns[0], xs[0], small, big);
      ShowsAllMore(ns[1..], xs[1..], small, big);
    }
  }

  lemma {:induction false} ShowsJoined(ns: seq<Node>, xs: seq<Xml>, here: set<Node>, more: seq<Node>, ys: seq<Xml>,
                                       there: set<Node>)
    requires ShowsAll(ns, xs, here) && ShowsAll(more, ys, there)
    ensures ShowsAll(ns + more, xs + ys, here + there)
    decreases xs
  {
    if xs == [] {
      assert ns + more == more && xs + ys == ys;
      ShowsAllMore(more, ys, there, here + there);
    } else {
      ShowsMore(ns[0], xs[0], here, here + there);
      ShowsJoined(ns[1..], xs[1..], here, more, ys, there);
      assert (ns + more)[1..] == ns[1..] + more && (xs + ys)[1..] == xs[1..] + ys;
    }
  }

  /** What is being marshalled: its type is found, and its value translated, as marshalling starts. */
  class Content {
    const tag: string
    var value: Value
    var kind: Option<Id>
    var resolved: Id
    var withinOptional: bool
    var ordering: seq<string>

    constructor (tag: string, value: Value, kind: Option<Id>)
      ensures this.tag == tag && this.value == value && this.kind == kind
    {
      this.tag, this.value, this.kind := tag, value, kind;
      resolved, withinOptional, ordering := 0, false, [];
    }
  }

  /** Scalars become text, or None when they have none. */
  function Translated(s: Schema, kind: Id, v: Value): Value {
    if !v.Leaf? then v
    else if s.write(kind, v.scalar).None? then Nothing
    else Leaf(Text(s.write(kind, v.scalar).value))
  }

  predicate Skips(s: Schema, c: Child, v: Value) {
    Optional(s, c) && (v.Nothing? || v == Many([]))
  }

  lemma SkippedEmitsNothing(s: Schema, parent: Option<Id>, tag: string, c: Child, v: Value)
    requires Skips(s, c, Translated(s, Real(s, c.id), v))
    ensures EmitAs(s, parent, tag, c, v) == Ok(SILENT)
  {
  }

  /** What marshalling a content has to add, given the type it comes with or the one its tag is found to have. */
  function Wanted(s: Schema, parent: Option<Id>, tag: string, kind: Option<Id>, v: Value): Outcome<Emission> {
    if kind.Some? then EmitAs(s, parent, tag, Child(kind.value, false), v) else Emit(s, parent, tag, v)
  }

  function FoundFor(s: Schema, parent: Option<Id>, tag: string, kind: Option<Id>): Option<Child> {
    if kind.Some? then Some(Child(kind.value, false)) else Resolve(s, parent, tag)
  }

  /** Content that comes with a type is emitted as that, and other content as what its tag is found to be. */
  lemma ContentIsEmittedAs(s: Schema, parent: Option<Id>, tag: string, kind: Option<Id>, v: Value)
    ensures kind.Some? ==> Wanted(s, parent, tag, kind, v) == EmitAs(s, parent, tag, Child(kind.value, false), v)
    ensures kind.None? ==> Wanted(s, parent, tag, kind, v) == Emit(s, parent, tag, v)
    ensures FoundFor(s, parent, tag, kind) == None ==> Wanted(s, parent, tag, kind, v) == Failed(TypeNotFound(tag))
    ensures FoundFor(s, parent, tag, kind).Some? ==>
              Wanted(s, parent, tag, kind, v) == EmitAs(s, parent, tag, FoundFor(s, parent, tag, kind).value, v)
  {
  }

  /** Translating a value first makes no difference to what is emitted but that its text stands for it. */
  lemma TranslatedEmitsText(s: Schema, parent: Option<Id>, tag: string, c: Child, v: Value)
    ensures var t := Translated(s, s.at(c.id).resolved, v);
            && (!v.Leaf? ==> t == v) && (t.Leaf? ==> t.scalar.Text?)
            && (v.Leaf? ==> EmitAs(s, parent, tag, c, v) ==
                              if t.Leaf? then Ok(EmitText(tag, t.scalar.text)) else EmitAs(s, parent, tag, c, Nothing))
  {
  }

  function After(got: Emission, rest: Outcome<Emission>): Outcome<Emission> {
    if rest.Failed? then rest else Ok(Join(got, rest.value))
  }

  lemma NextItem(s: Schema, parent: Option<Id>, tag: string, items: seq<Value>, i: nat, got: Emission)
    requires i < |items|
    ensures After(got, EmitItems(s, parent, tag, items[i..])) ==
              var e := Emit(s, parent, tag, items[i]);
              if e.Failed? then e else After(Join(got, e.value), EmitItems(s, parent, tag, items[i + 1..]))
  {
    assert items[i..][0] == items[i] && items[i..][1..] == items[i + 1..];
    var e, rest := Emit(s, parent, tag, items[i]), EmitItems(s, parent, tag, items[i + 1..]);
    if e.Ok? && rest.Ok? {
      JoinInTurn(got, e.value, rest.value);
    }
  }

  lemma NextField(s: Schema, kind: Id, fields: seq<Field>, whole: Value, i: nat, got: Emission)
    requires i < |fields| && forall f :: f in fields ==> f.value < whole
    ensures After(got, EmitFields(s, kind, fields[i..], whole)) ==
              var e := Emit(s, Some(kind), fields[i].key, fields[i].value);
              if e.Failed? then e else After(Join(got, e.value), EmitFields(s, kind, fields[i + 1..], whole))
  {
    assert fields[i..][0] == fields[i] && fields[i..][1..] == fields[i + 1..];
    var e, rest := Emit(s, Some(kind), fields[i].key, fields[i].value), EmitFields(s, kind, fields[i + 1..], whole);
    if e.Ok? && rest.Ok? {
      JoinInTurn(got, e.value, rest.value);
    }
  }

  lemma JoinSilent(e: Emission)
    ensures Join(SILENT, e) == e && Join(e, SILENT) == e
  {
  }

  lemma NothingBefore(want: Outcome<Emission>)
    ensures After(SILENT, want) == want
  {
    if want.Ok? {
      JoinSilent(want.value);
    }
  }

  lemma JoinInTurn(a: Emission, b: Emission, c: Emission)
    ensures Join(Join(a, b), c) == Join(a, Join(b, c))
  {
    assert a.nodes + b.nodes + c.nodes == a.nodes + (b.nodes + c.nodes);
    assert a.attributes + b.attributes + c.attributes == a.attributes + (b.attributes + c.attributes);
  }

  /** The parent has been given what was to be emitted, on top of what it had. */
  ghost predicate Extended(parent: Node, attributes: seq<Attr>, children: seq<Node>, e: Emission, kids: seq<Node>,
                           region: set<Node>)
    reads parent, region
  {
    && parent.attributes == SetAttributes(attributes, e.attributes)
    && parent.children == children + kids
    && ShowsAll(kids, e.nodes, region)
  }

  lemma ExtendedFurther(parent: Node, attributes: seq<Attr>, children: seq<Node>, got: Emission, kids: seq<Node>,
                        here: set<Node>, e: Emission, more: seq<Node>, there: set<Node>)
    requires Extended(parent, SetAttributes(attributes, got.attributes), children + kids, e, more, there)
    requires ShowsAll(kids, got.nodes, here)
    ensures Extended(parent, attributes, children, Join(got, e), kids + more, here + there)
  {
    SetAttributesInTurn(attributes, got.attributes, e.attributes);
    ShowsJoined(kids, got.nodes, here, more, e.nodes, there);
    assert children + kids + more == children + (kids + more);
  }

  /** A child that has been given its members stands for the node of the object. */
  lemma ShowObject(child: Node, tag: string, text: Option<string>, inner: Emission, grandkids: seq<Node>,
                   below: set<Node>)
    returns (kids: seq<Node>, region: set<Node>)
    requires child.content.None? && child.name == tag && !child.nil && child.text == text
    requires Extended(child, [], [], inner, grandkids, below)
    ensures kids == [child] && region == {child} + below
    ensures ShowsAll(kids, [NodeOf(tag, text, inner)], region)
  {
    kids, region := [child], {child} + below;
    assert [] + grandkids == grandkids;
    ShowsAllMore(grandkids, inner.nodes, below, region);
    ShowsOne(child, NodeOf(tag, text, inner), region);
  }

  class Typed {
    const schema: Schema
    const resolver: Resolver

    constructor (schema: Schema)
      ensures this.schema == schema && fresh(resolver) && resolver.stack == []
    {
      this.schema := schema;
      resolver := new Resolver();
    }

    /** Finds the type, translates and sorts the value; false when an optional value is skipped. */
    method Start(content: Content) returns (r: Outcome<bool>)
      modifies resolver, content
      ensures var found := FoundFor(schema, ParentOf(old(resolver.stack)), content.tag, old(content.kind));
              if found.None? then r == Failed(TypeNotFound(content.tag))
              else
                && content.kind == Some(found.value.id) && content.resolved == Real(schema, found.value.id)
                && content.withinOptional == found.value.withinOptional
                && content.value == Translated(schema, content.resolved, old(content.value))
                && (content.value.Record? ==> content.ordering == Ordering(schema, content.resolved))
                && r == Ok(!Skips(schema, found.value, content.value))
                && resolver.stack == if r.value then old(resolver.stack) + [FrameOf(schema, found.value)]
                   else old(resolver.stack)
    {
      if content.kind.None? {
        var found := resolver.Find(schema, SchemaName(content.tag));
        if found.None? {
          return Failed(TypeNotFound(content.tag));
        }
        content.kind := Some(found.value.id);
      } else {
        resolver.Push(FrameOf(schema, Child(content.kind.value, false)));
      }
      var frame := resolver.Top();
      content.resolved, content.withinOptional := frame.value.resolved, frame.value.withinOptional;
      content.value := Translated(schema, content.resolved, content.value);
      if content.value.Record? {
        content.ordering := Ordering(schema, content.resolved);
      }
      var skip := Skip(content);
      if skip {
        resolver.Pop();
      }
      r := Ok(!skip);
    }

    method Skip(content: Content) returns (skip: bool)
      requires content.kind.Some?
      ensures skip == Skips(schema, Child(content.kind.value, content.withinOptional), content.value)
    {
      skip := false;
      if schema.at(content.kind.value).optional || content.withinOptional {
        skip := content.value.Nothing? || (content.value.Many? && |content.value.items| == 0);
      }
    }

    /** List content steps off the stack while its items are marshalled. */
    method Suspend(content: Content)
      modifies resolver
      ensures resolver.stack == if old(resolver.stack) == [] then []
              else old(resolver.stack)[..|old(resolver.stack)| - 1]
    {
      resolver.Pop();
    }

    method Resume(content: Content)
      requires content.kind.Some?
      modifies resolver
      ensures resolver.stack == old(resolver.stack) + [FrameOf(schema, Child(content.kind.value, false))]
    {
      resolver.Push(FrameOf(schema, Child(content.kind.value, false)));
    }

    /** The content that ends must be the one on top of the stack. */
    method End(content: Content) returns (failed: Option<Error>)
      requires content.kind.Some?
      modifies resolver
      ensures var was := old(resolver.stack);
              if was != [] && was[|was| - 1].kind == content.kind.value then failed == None
                && resolver.stack == was[..|was| - 1]
              else failed == Some(Mismatch)
    {
      var top := resolver.Top();
      if top.None? || top.value.kind != content.kind.value {
        return Some(Mismatch);
      }
      resolver.Pop();
      failed := None;
    }

    /** Marshals one content into a document of its own, whose root is the last node appended. */
    method Process(content: Content, ghost v: Value)
      returns (failed: Option<Error>, root: Node?, ghost region: set<Node>)
      requires content.value == v
      requires Starts(content.tag, '_') ==>
                 !v.Many? && var want := Wanted(schema, None, content.tag, content.kind, v);
                   want.Ok? ==> want.value.attributes == []
      modifies resolver, content
      ensures var want := Wanted(schema, None, content.tag, old(content.kind), v);
              && failed == (if want.Failed? then Some(want.error) else None)
              && (want.Ok? ==> resolver.stack == []
                               && (root == null <==> want.value.nodes == [])
                               && (root != null ==> Shows(root, want.value.nodes[|want.value.nodes| - 1], region)))
    {
      resolver.Reset();
      var document := new Node("", None);
      ghost var kids;
      failed, kids, region := Append(document, content, v);
      root := null;
      if failed.None? && |document.children| > 0 {
        root := document.children[|document.children| - 1];
      }
      if failed.None? {
        ShowsAt(kids, Wanted(schema, None, content.tag, old(content.kind), v).value.nodes, region);
      }
    }

    /** Adds the content to the parent; the stack is left as it was found, and never ends on another type. */
    method Append(parent: Node, content: Content, ghost v: Value)
      returns (failed: Option<Error>, ghost kids: seq<Node>, ghost region: set<Node>)
      requires content.value == v
      modifies resolver, parent`attributes, parent`children, content
      ensures var want := Wanted(schema, ParentOf(old(resolver.stack)), content.tag, old(content.kind), v);
              && failed == (if want.Failed? then Some(want.error) else None)
              && (want.Ok? ==> resolver.stack == old(resolver.stack) && fresh(region)
                               && Extended(parent, old(parent.attributes), old(parent.children), want.value, kids,
                                           region))
      ensures failed != Some(Mismatch)
      decreases v, 4
    {
      ghost var below := resolver.stack;
      ghost var found := FoundFor(schema, ParentOf(below), content.tag, content.kind);
      kids, region := [], {};
      var started := Start(content);
      if started.Failed? {
        return Some(started.error), [], {};
      }
      if started.value {
        failed, kids, region := AppendValue(parent, content, v, found.value, below);
        if failed.None? {
          failed := End(content);
        }
      } else {
        failed := None;
        SkippedEmitsNothing(schema, ParentOf(below), content.tag, found.value, v);
        assert parent.children + [] == parent.children;
      }
    }

    /** Content that has started, by the kind of its value. */
    method AppendValue(parent: Node, content: Content, ghost v: Value, ghost c: Child, ghost below: seq<Frame>)
      returns (failed: Option<Error>, ghost kids: seq<Node>, ghost region: set<Node>)
      requires content.kind == Some(c.id) && content.resolved == Real(schema, c.id)
      requires content.value == Translated(schema, content.resolved, v) && !Skips(schema, c, content.value)
      requires content.value.Record? ==> content.ordering == Ordering(schema, content.resolved)
      requires resolver.stack == below + [FrameOf(schema, c)]
      modifies resolver, parent`attributes, parent`children
      ensures var want := EmitAs(schema, ParentOf(below), content.tag, c, v);
              && failed == (if want.Failed? then Some(want.error) else None)
              && (want.Ok? ==>
                    && |resolver.stack| == |below| + 1 && resolver.stack[..|below|] == below
                    && resolver.stack[|below|].kind == c.id
                    && fresh(region)
                    && Extended(parent, old(parent.attributes), old(parent.children), want.value, kids, region))
      decreases v, 3
    {
      match content.value
      case Nothing =>
        kids, region := AppendNone(parent, content);
        failed := None;
      case Leaf(x) =>
        kids, region := AppendPrimitive(parent, content, x.text);
        failed := None;
      case Raw(x) => failed, kids, region := AppendElement(parent, content, x);
      case Many(items) => failed, kids, region := AppendList(parent, content, v, c.id, below);
      case Record(_, _) => failed, kids, region := AppendObject(parent, content, v, c.id);
    }

    method AppendNone(parent: Node, content: Content) returns (ghost kids: seq<Node>, ghost region: set<Node>)
      requires content.kind.Some?
      modifies parent`children
      ensures fresh(region)
      ensures Extended(parent, parent.attributes, old(parent.children),
                       Emission([], [NothingNode(schema, content.tag, content.kind.value)]), kids, region)
    {
      var child := new Node(content.tag, None);
      var default := schema.at(content.kind.value).default;
      if default.Some? {
        child.SetText(default.value);
      } else if schema.at(content.kind.value).nillable {
        child.SetNil();
      }
      parent.Append(child);
      kids, region := [child], {child};
      ShowsOne(child, NothingNode(schema, content.tag, content.kind.value), region);
    }

    /** A tag with an underscore sets an attribute of the parent, unless the text is empty. */
    method AppendPrimitive(parent: Node, content: Content, text: string)
      returns (ghost kids: seq<Node>, ghost region: set<Node>)
      modifies parent`attributes, parent`children
      ensures fresh(region)
      ensures Extended(parent, old(parent.attributes), old(parent.children), EmitText(content.tag, text), kids, region)
    {
      kids, region := [], {};
      if Starts(content.tag, '_') {
        if text != "" {
          parent.Set(content.tag[1..], text);
        }
        assert parent.children + [] == parent.children;
      } else {
        var child := new Node(content.tag, None);
        child.SetText(text);
        parent.Append(child);
        kids, region := [child], {child};
        ShowsOne(child, Plain(content.tag, Some(text)), region);
      }
    }

    method AppendElement(parent: Node, content: Content, x: Xml)
      returns (failed: Option<Error>, ghost kids: seq<Node>, ghost region: set<Node>)
      modifies parent`children
      ensures failed == if Starts(content.tag, '_') then Some(RawAttribute(content.tag)) else None
      ensures failed.None? ==> fresh(region) && Extended(parent, parent.attributes, old(parent.children),
                                                         Emission([], [x]), kids, region)
    {
      kids, region := [], {};
      if Starts(content.tag, '_') {
        return Some(RawAttribute(content.tag)), [], {};
      }
      var child := new Node(x.name, Some(x));
      parent.Append(child);
      failed, kids, region := None, [child], {child};
      ShowsOne(child, x, region);
    }

    method AppendList(parent: Node, content: Content, ghost v: Value, ghost kind: Id, ghost below: seq<Frame>)
      returns (failed: Option<Error>, ghost kids: seq<Node>, ghost region: set<Node>)
      requires content.kind == Some(kind) && content.value == v && v.Many?
      requires |resolver.stack| == |below| + 1 && resolver.stack[..|below|] == below
               && resolver.stack[|below|].kind == kind
      modifies resolver, parent`attributes, parent`children
      ensures var want := EmitItems(schema, ParentOf(below), content.tag, v.items);
              && failed == (if want.Failed? then Some(want.error) else None)
              && (want.Ok? ==>
                    && |resolver.stack| == |below| + 1 && resolver.stack[..|below|] == below
                    && resolver.stack[|below|].kind == kind
                    && fresh(region)
                    && Extended(parent, old(parent.attributes), old(parent.children), want.value, kids, region))
      decreases v, 2
    {
      failed, kids, region := None, [], {};
      assert parent.children + [] == parent.children;
      if |content.value.items| > 0 {
        Suspend(content);
        failed, kids, region := AppendItems(parent, content.tag, content.value.items, v);
        if failed.None? {
          Resume(content);
        }
      }
    }

    /** An item of a list, or a member of an object, whose type is found by its tag. */
    method AppendOne(parent: Node, tag: string, v: Value)
      returns (failed: Option<Error>, ghost kids: seq<Node>, ghost region: set<Node>)
      modifies resolver, parent`attributes, parent`children
      ensures var want := Emit(schema, ParentOf(old(resolver.stack)), tag, v);
              && failed == (if want.Failed? then Some(want.error) else None)
              && (want.Ok? ==> resolver.stack == old(resolver.stack) && fresh(region)
                               && Extended(parent, old(parent.attributes), old(parent.children), want.value, kids,
                                           region))
      decreases v, 5
    {
      var content := new Content(tag, v, None);
      failed, kids, region := Append(parent, content, v);
    }

    method AppendItems(parent: Node, tag: string, items: seq<Value>, ghost whole: Value)
      returns (failed: Option<Error>, ghost kids: seq<Node>, ghost region: set<Node>)
      requires forall x :: x in items ==> x < whole
      modifies resolver, parent`attributes, parent`children
      ensures var want := EmitItems(schema, ParentOf(old(resolver.stack)), tag, items);
              && failed == (if want.Failed? then Some(want.error) else None)
              && (want.Ok? ==> resolver.stack == old(resolver.stack) && fresh(region)
                               && Extended(parent, old(parent.attributes), old(parent.children), want.value, kids,
                                           region))
      decreases whole, 1
    {
      ghost var below, want := resolver.stack, EmitItems(schema, ParentOf(resolver.stack), tag, items);
      ghost var got := SILENT;
      failed, kids, region := None, [], {};
      var i := 0;
      assert items[0..] == items && parent.children + [] == parent.children;
      NothingBefore(want);
      while i < |items|
        invariant 0 <= i <= |items| && failed == None && resolver.stack == below && fresh(region)
        invariant After(got, EmitItems(schema, ParentOf(below), tag, items[i..])) == want
        invariant Extended(parent, old(parent.attributes), old(parent.children), got, kids, region)
      {
        NextItem(schema, ParentOf(below), tag, items, i, got);
        assert items[i] in items;
        ghost var more, there;
        failed, more, there := AppendOne(parent, tag, items[i]);
        if failed.Some? {
          return failed, [], {};
        }
        ghost var e := Emit(schema, ParentOf(below), tag, items[i]).value;
        ExtendedFurther(parent, old(parent.attributes), old(parent.children), got, kids, region, e, more, there);
        got, kids, region := Join(got, e), kids + more, region + there;
        i := i + 1;
      }
      JoinSilent(got);
    }

    /** A new node, with the text of the object if it has any. */
    method ChildFor(content: Content) returns (child: Node)
      requires content.value.Record?
      ensures fresh(child) && child.name == content.tag && child.content.None? && !child.nil
      ensures child.text == content.value.text && child.attributes == [] && child.children == []
    {
      child := new Node(content.tag, None);
      if content.value.text.Some? {
        child.SetText(content.value.text.value);
      }
    }

    method AppendObject(parent: Node, content: Content, ghost v: Value, ghost kind: Id)
      returns (failed: Option<Error>, ghost kids: seq<Node>, ghost region: set<Node>)
      requires content.kind == Some(kind) && content.value == v && v.Record? && content.resolved == Real(schema, kind)
      requires content.ordering == Ordering(schema, content.resolved)
      requires ParentOf(resolver.stack) == Some(content.resolved)
      modifies resolver, parent`children
      ensures var inner := EmitFields(schema, Real(schema, kind),
                                      Arranged(schema, Real(schema, kind), v.text, v.fields), v);
              && failed == (if inner.Failed? then Some(inner.error) else None)
              && (inner.Ok? ==>
                    && resolver.stack == old(resolver.stack) && fresh(region)
                    && Extended(parent, parent.attributes, old(parent.children),
                                Emission([], [NodeOf(content.tag, v.text, inner.value)]), kids, region))
      decreases v, 2
    {
      var child := ChildFor(content);
      parent.Append(child);
      var keys := AllKeys(content.value.text, content.value.fields);
      var fields := Pick(if Covers(content.ordering, keys) then content.ordering else keys, content.value.fields);
      failed, kids, region := AppendFields(child, fields, v, content.resolved);
      if failed.None? {
        kids, region := ShowObject(child, content.tag, v.text, EmitFields(schema, content.resolved, fields, v).value,
                                   kids, region);
      }
    }

    method AppendFields(child: Node, fields: seq<Field>, ghost whole: Value, ghost kind: Id)
      returns (failed: Option<Error>, ghost kids: seq<Node>, ghost region: set<Node>)
      requires forall f :: f in fields ==> f.value < whole
      requires ParentOf(resolver.stack) == Some(kind)
      modifies resolver, child`attributes, child`children
      ensures var want := EmitFields(schema, kind, fields, whole);
              && failed == (if want.Failed? then Some(want.error) else None)
              && (want.Ok? ==> resolver.stack == old(resolver.stack) && fresh(region)
                               && Extended(child, old(child.attributes), old(child.children), want.value, kids, region))
      decreases whole, 1
    {
      ghost var below, want := resolver.stack, EmitFields(schema, kind, fields, whole);
      ghost var got := SILENT;
      failed, kids, region := None, [], {};
      var i := 0;
      assert fields[0..] == fields && child.children + [] == child.children;
      NothingBefore(want);
      while i < |fields|
        invariant 0 <= i <= |fields| && failed == None && resolver.stack == below && fresh(region)
        invariant After(got, EmitFields(schema, kind, fields[i..], whole)) == want
        invariant Extended(child, old(child.attributes), old(child.children), got, kids, region)
      {
        NextField(schema, kind, fields, whole, i, got);
        assert fields[i] in fields;
        ghost var more, there;
        failed, more, there := AppendOne(child, fields[i].key, fields[i].value);
        if failed.Some? {
          return failed, [], {};
        }
        ghost var e := Emit(schema, Some(kind), fields[i].key, fields[i].value).value;
        ExtendedFurther(child, old(child.attributes), old(child.children), got, kids, region, e, more, there);
        got, kids, region := Join(got, e), kids + more, region + there;
        i := i + 1;
      }
      JoinSilent(got);
    }
  }
}
