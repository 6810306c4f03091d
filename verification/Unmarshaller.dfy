/**
 The unmarshaller as the source runs it: an object is filled member by member while the
 resolver's stack follows the nodes (umx/core.py, umx/typed.py, resolver.py).
 */
module Unmarshaller {
  import opened Options
  import opened SoapSchema
  import opened TreeResolver
  import opened Unmarshal

  /** A node being unmarshalled: data are the members of the object so far. */
  class Content {
    const node: Xml
    var kind: Option<Id>
    var data: seq<Field>
    var text: Option<Scalar>

    constructor (node: Xml, kind: Option<Id>)
      ensures this.node == node && this.kind == kind && data == [] && text == None
    {
      this.node, this.kind, data, text := node, kind, [], None;
    }

    /** Sets a member, at the place it first came in. */
    method SetMember(key: string, value: Value)
      modifies this`data
      ensures data == SetField(old(data), key, value)
    {
      var i := IndexOf(data, key);
      if i < |data| {
        data := data[i := Field(key, value)];
      } else {
        data := data + [Field(key, value)];
      }
    }
  }

  function TypeOf(s: Schema, parent: Option<Id>, kind: Option<Id>, node: Xml): Option<Child> {
    if kind.Some? then Some(Child(kind.value, false)) else Find(s, parent, node.name)
  }

  /** What unmarshalling a node gives, with the type it comes with or the one its name is found to have. */
  function Wanted(s: Schema, parent: Option<Id>, kind: Option<Id>, node: Xml): Outcome<Value> {
    var found := TypeOf(s, parent, kind, node);
    if found.None? then Failed(TypeNotFound(node.name)) else ReadAs(s, found.value.id, node)
  }

  /** A node that comes with a type is read as that, and another as what its name is found to be, if anything. */
  lemma NodeIsReadAs(s: Schema, parent: Option<Id>, kind: Option<Id>, node: Xml)
    ensures kind.Some? ==> Wanted(s, parent, kind, node) == ReadAs(s, kind.value, node)
    ensures kind.None? ==>
              match Find(s, parent, node.name)
              case None => Wanted(s, parent, kind, node) == Failed(TypeNotFound(node.name))
              case Some(c) => Wanted(s, parent, kind, node) == ReadAs(s, c.id, node)
  {
  }

  class Typed {
    const schema: Schema
    const resolver: Resolver

    constructor (schema: Schema)
      ensures this.schema == schema && fresh(resolver) && resolver.stack == []
    {
      this.schema := schema;
      resolver := new Resolver();
    }

    method Process(node: Xml, kind: Option<Id>) returns (r: Outcome<Value>)
      modifies resolver
      ensures r == Wanted(schema, None, kind, node)
      ensures r.Ok? ==> resolver.stack == []
    {
      var content := new Content(node, kind);
      resolver.Reset();
      r := Append(content, node);
    }

    /** The value of a node; the stack is left as it was found, and the content knows its type. */
    method Append(content: Content, ghost node: Xml) returns (r: Outcome<Value>)
      requires content.node == node && content.data == [] && content.text == None
      modifies resolver, content
      ensures r == Wanted(schema, ParentOf(old(resolver.stack)), old(content.kind), node)
      ensures r.Ok? ==>
                && resolver.stack == old(resolver.stack)
                && content.kind == Some(TypeOf(schema, ParentOf(old(resolver.stack)), old(content.kind), node).value.id)
      decreases node, 3
    {
      ghost var below := resolver.stack;
      var failed := Start(content);
      if failed.Some? {
        return Failed(failed.value);
      }
      ghost var id := content.kind.value;
      AppendAttributes(content, Real(schema, id));
      failed := AppendChildren(content, node, Real(schema, id));
      if failed.Some? {
        return Failed(failed.value);
      }
      AppendText(content);
      resolver.Pop();
      assert resolver.stack == below;
      var v := Result(content);
      r := Ok(v);
    }

    method Start(content: Content) returns (failed: Option<Error>)
      modifies resolver, content`kind
      ensures var found := TypeOf(schema, ParentOf(old(resolver.stack)), old(content.kind), content.node);
              if found.None? then failed == Some(TypeNotFound(content.node.name))
              else
                && failed == None && content.kind == Some(found.value.id)
                && resolver.stack == old(resolver.stack) + [FrameOf(schema, found.value)]
    {
      failed := None;
      if content.kind.None? {
        var found := resolver.Find(schema, content.node.name);
        if found.None? {
          return Some(TypeNotFound(content.node.name));
        }
        content.kind := Some(found.value.id);
      } else {
        resolver.Push(FrameOf(schema, Child(content.kind.value, false)));
      }
    }

    method AppendAttributes(content: Content, ghost resolved: Id)
      requires ParentOf(resolver.stack) == Some(resolved)
      modifies content`data
      ensures content.data == ReadAttributes(schema, resolved, content.node.attributes, old(content.data))
    {
      var attributes := content.node.attributes;
      var i := 0;
      while i < |attributes|
        invariant 0 <= i <= |attributes|
        invariant ReadAttributes(schema, resolved, attributes[i..], content.data)
                  == ReadAttributes(schema, resolved, attributes, old(content.data))
      {
        assert attributes[i..][0] == attributes[i] && attributes[i..][1..] == attributes[i + 1..];
        AppendAttribute(content, attributes[i], resolved);
        i := i + 1;
      }
    }

    /** The value is translated when the schema knows the attribute. */
    method AppendAttribute(content: Content, a: Attr, ghost resolved: Id)
      requires ParentOf(resolver.stack) == Some(resolved)
      modifies content`data
      ensures content.data == SetField(old(content.data), "_" + Rename(a.name), AttributeValue(schema, resolved, a))
    {
      var top := resolver.Top();
      var found := Find(schema, Some(top.value.resolved), "@" + a.name);
      var value := Leaf(Text(a.value));
      if found.Some? {
        var x := schema.read(Real(schema, found.value.id), a.value);
        value := if x.Some? then Leaf(x.value) else Nothing;
      }
      content.SetMember("_" + Rename(a.name), value);
    }

    method AppendChildren(content: Content, ghost node: Xml, ghost resolved: Id) returns (failed: Option<Error>)
      requires content.node == node && ParentOf(resolver.stack) == Some(resolved)
      modifies resolver, content`data
      ensures var data := ReadChildren(schema, resolved, node.children, old(content.data));
              if data.Failed? then failed == Some(data.error)
              else failed == None && content.data == data.value && resolver.stack == old(resolver.stack)
      decreases node, 2
    {
      var nodes := content.node.children;
      var i := 0;
      while i < |nodes|
        invariant 0 <= i <= |nodes| && resolver.stack == old(resolver.stack)
        invariant ReadChildren(schema, resolved, nodes[i..], content.data)
                  == ReadChildren(schema, resolved, nodes, old(content.data))
      {
        assert nodes[i..][0] == nodes[i] && nodes[i..][1..] == nodes[i + 1..];
        failed := AppendChild(content, nodes[i], resolved);
        if failed.Some? {
          return;
        }
        i := i + 1;
      }
      failed := None;
    }

    method AppendChild(content: Content, child: Xml, ghost resolved: Id) returns (failed: Option<Error>)
      requires ParentOf(resolver.stack) == Some(resolved)
      modifies resolver, content`data
      ensures var data := ReadChild(schema, resolved, child, old(content.data));
              if data.Failed? then failed == Some(data.error)
              else failed == None && content.data == data.value && resolver.stack == old(resolver.stack)
      decreases child, 4
    {
      var inner := new Content(child, None);
      var value := Append(inner, child);
      if value.Failed? {
        return Some(value.error);
      }
      AddMember(content, Rename(child.name), schema.at(inner.kind.value).multi, value.value);
      failed := None;
    }

    method AddMember(content: Content, key: string, multi: bool, value: Value)
      modifies content`data
      ensures content.data == AddChild(old(content.data), key, multi, value)
    {
      var i := IndexOf(content.data, key);
      if i < |content.data| {
        var was := content.data[i].value;
        if was.Many? {
          content.SetMember(key, Many(was.items + [value]));
        } else {
          content.SetMember(key, Many([was, value]));
        }
      } else if multi {
        if value.Nothing? {
          content.SetMember(key, Many([]));
        } else {
          content.SetMember(key, Many([value]));
        }
      } else {
        content.SetMember(key, value);
      }
    }

    method AppendText(content: Content)
      requires content.text == None && resolver.stack != []
      modifies content`text
      ensures content.text == TranslatedText(schema, resolver.stack[|resolver.stack| - 1].resolved, content.node)
    {
      if HasText(content.node) {
        var top := resolver.Top();
        content.text := schema.read(top.value.resolved, content.node.text.value);
      }
    }

    method Result(content: Content) returns (v: Value)
      requires content.kind.Some?
      requires content.text == TranslatedText(schema, Real(schema, content.kind.value), content.node)
      ensures v == Postprocess(schema, content.kind.value, content.node, content.data)
      ensures v.Raw? <==> content.node.children != [] && HasText(content.node)
      ensures v.Record? <==> !v.Raw? && (content.data != [] || (content.node.attributes != [] && HasText(content.node)))
      ensures v.Record? ==>
                v.fields == content.data && (v.text.Some? <==> content.node.attributes != [] && HasText(content.node))
      ensures !v.Many?
    {
      var node := content.node;
      if |node.children| > 0 && HasText(node) {
        return Raw(node);
      }
      if |node.attributes| > 0 && |node.children| == 0 && HasText(node) {
        return Record(node.text, content.data);
      }
      if |content.data| > 0 {
        return Record(None, content.data);
      }
      if node.nil {
        return Nothing;
      }
      if |node.children| == 0 && content.text.None? {
        return if ReadsNothing(schema, content.kind.value) then Nothing else Leaf(Text(""));
      }
      v := if content.text.Some? then Leaf(content.text.value) else Nothing;
    }
  }
}
