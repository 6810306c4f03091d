/**
 The value that unmarshalling makes of a node (umx/core.py, umx/typed.py).
 */
module Unmarshal {
  import opened Options
  import opened SoapSchema

  /** Names that are reserved words are replaced. */
  function Rename(name: string): string {
    if name == "class" then "cls" else if name == "def" then "dfn" else name
  }

  /** The translated text of an attribute; it stays as it is when the schema does not know the attribute. */
  function AttributeValue(s: Schema, kind: Id, a: Attr): Value {
    var found := Find(s, Some(kind), "@" + a.name);
    if found.None? then Leaf(Text(a.value))
    else
      var x := s.read(Real(s, found.value.id), a.value);
      if x.None? then Nothing else Leaf(x.value)
  }

  function ReadAttributes(s: Schema, kind: Id, attributes: seq<Attr>, data: seq<Field>): seq<Field>
    decreases attributes
  {
    if attributes == [] then data
    else
      var a := attributes[0];
      ReadAttributes(s, kind, attributes[1..], SetField(data, "_" + Rename(a.name), AttributeValue(s, kind, a)))
  }

  /** A repeated member becomes a list; the first of a member that may repeat starts one, unless it is None. */
  function AddChild(data: seq<Field>, key: string, multi: bool, v: Value): seq<Field> {
    var i := IndexOf(data, key);
    if i < |data| then
      var was := data[i].value;
      SetField(data, key, if was.Many? then Many(was.items + [v]) else Many([was, v]))
    else if multi then SetField(data, key, if v.Nothing? then Many([]) else Many([v]))
    else SetField(data, key, v)
  }

  predicate HasText(node: Xml) {
    node.text.Some? && node.text.value != ""
  }

  function TranslatedText(s: Schema, kind: Id, node: Xml): Option<Scalar> {
    if HasText(node) then s.read(kind, node.text.value) else None
  }

  /** Mixed nodes stay nodes, text with attributes makes a property, members make an object, the rest is simple. */
  function Postprocess(s: Schema, id: Id, node: Xml, data: seq<Field>): Value {
    var text := TranslatedText(s, Real(s, id), node);
    if node.children != [] && HasText(node) then Raw(node)
    else if node.attributes != [] && node.children == [] && HasText(node) then Record(node.text, data)
    else if data != [] then Record(None, data)
    else if node.nil then Nothing
    else if node.children == [] && text.None? then if ReadsNothing(s, id) then Nothing else Leaf(Text(""))
    else if text.Some? then Leaf(text.value)
    else Nothing
  }

  function ReadAs(s: Schema, id: Id, node: Xml): Outcome<Value>
    decreases node, 2
  {
    var data := ReadChildren(s, Real(s, id), node.children, ReadAttributes(s, Real(s, id), node.attributes, []));
    if data.Failed? then Failed(data.error) else Ok(Postprocess(s, id, node, data.value))
  }

  function ReadChild(s: Schema, kind: Id, node: Xml, data: seq<Field>): Outcome<seq<Field>>
    decreases node, 3
  {
    var found := Find(s, Some(kind), node.name);
    if found.None? then Failed(TypeNotFound(node.name))
    else
      var v := ReadAs(s, found.value.id, node);
      if v.Failed? then Failed(v.error)
      else Ok(AddChild(data, Rename(node.name), s.at(found.value.id).multi, v.value))
  }

  function ReadChildren(s: Schema, kind: Id, nodes: seq<Xml>, data: seq<Field>): Outcome<seq<Field>>
    decreases nodes, 1
  {
    if nodes == [] then Ok(data)
    else
      var next := ReadChild(s, kind, nodes[0], data);
      if next.Failed? then next else ReadChildren(s, kind, nodes[1..], next.value)
  }

  // ----- how members are named -----

  /** The name of a member: its own, unless that is a reserved word. */
  predicate IsNameFor(key: string, name: string) {
    && (name == "class" ==> key == "cls") && (name == "def" ==> key == "dfn")
    && (name != "class" && name != "def" ==> key == name)
  }

  /** A child alone becomes one member of its name, a list of it where the schema repeats, unless it is None. */
  lemma OneChildOneMember(s: Schema, kind: Id, node: Xml, c: Child)
    requires Find(s, Some(kind), node.name) == Some(c) && ReadAs(s, c.id, node).Ok?
    ensures var r, v := ReadChildren(s, kind, [node], []), ReadAs(s, c.id, node).value;
            && r.Ok? && |r.value| == 1 && IsNameFor(r.value[0].key, node.name)
            && r.value[0].value == if !s.at(c.id).multi then v else if v.Nothing? then Many([]) else Many([v])
  {
    assert [node][1..] == [];
    assert ReadChildren(s, kind, [node], []) == ReadChild(s, kind, node, []);
  }

  /** A child that the schema does not know is an error. */
  lemma UnknownChildIsRefused(s: Schema, kind: Id, node: Xml)
    requires Find(s, Some(kind), node.name).None?
    ensures ReadChildren(s, kind, [node], []) == Failed(TypeNotFound(node.name))
  {
  }

  /** An attribute becomes one member of its name, marked; its text is only translated when the schema knows it. */
  lemma OneAttributeOneMember(s: Schema, kind: Id, a: Attr)
    ensures var r, found := ReadAttributes(s, kind, [a], []), Find(s, Some(kind), "@" + a.name);
            && |r| == 1 && r[0].key != "" && r[0].key[0] == '_' && IsNameFor(r[0].key[1..], a.name)
            && (found.None? ==> r[0].value == Leaf(Text(a.value)))
            && (found.Some? ==> s.read(Real(s, found.value.id), a.value).Some? ==>
                  r[0].value == Leaf(s.read(Real(s, found.value.id), a.value).value))
            && (found.Some? ==> s.read(Real(s, found.value.id), a.value).None? ==> r[0].value == Nothing)
  {
    assert [a][1..] == [];
    var key := "_" + Rename(a.name);
    assert key[1..] == Rename(a.name);
    assert ReadAttributes(s, kind, [a], []) == SetField([], key, AttributeValue(s, kind, a));
  }

  lemma {:induction false} ReadChildrenInTurn(s: Schema, kind: Id, first: seq<Xml>, second: seq<Xml>, data: seq<Field>)
    ensures ReadChildren(s, kind, first + second, data) ==
              var middle := ReadChildren(s, kind, first, data);
              if middle.Failed? then middle else ReadChildren(s, kind, second, middle.value)
    decreases first
  {
    if first == [] {
      assert first + second == second;
    } else {
      assert (first + second)[0] == first[0] && (first + second)[1..] == first[1..] + second;
      var next := ReadChild(s, kind, first[0], data);
      if next.Ok? {
        ReadChildrenInTurn(s, kind, first[1..], second, next.value);
      }
    }
  }

  lemma {:induction false} ReadAttributesInTurn(s: Schema, kind: Id, first: seq<Attr>, second: seq<Attr>,
                                                data: seq<Field>)
    ensures ReadAttributes(s, kind, first + second, data) ==
              ReadAttributes(s, kind, second, ReadAttributes(s, kind, first, data))
    decreases first
  {
    if first == [] {
      assert first + second == second;
    } else {
      assert (first + second)[1..] == first[1..] + second;
      ReadAttributesInTurn(s, kind, first[1..], second,
                           SetField(data, "_" + Rename(first[0].name), AttributeValue(s, kind, first[0])));
    }
  }
}
