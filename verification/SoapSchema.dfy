/**
 Values, XML nodes and the schema that ties them together (sudsobject.py, xsd/sxbase.py),
 as far as marshalling and unmarshalling look at them.
 */
module SoapSchema {
  import opened Options

  /** Schema objects are told apart by identity, so they are known by number. */
  type Id = nat

  datatype Scalar = Text(text: string) | Number(number: int) | Truth(truth: bool)

  datatype Attr = Attr(name: string, value: string)

  /** nil stands for the attribute xsi:nil="true". */
  datatype Xml = Xml(name: string, nil: bool, attributes: seq<Attr>, text: Option<string>, children: seq<Xml>)

  /** Nothing is None; a Record with text is a property: an object that also has a value. */
  datatype Value =
    | Nothing
    | Leaf(scalar: Scalar)
    | Record(text: Option<string>, fields: seq<Field>)
    | Many(items: seq<Value>)
    | Raw(node: Xml)

  datatype Field = Field(key: string, value: Value)

  /** Content of a schema object, free of its containers, and whether one of those is optional. */
  datatype Child = Child(id: Id, withinOptional: bool)

  datatype SchemaObject = SchemaObject(
    name: Option<string>,
    attribute: bool,
    multi: bool,
    optional: bool,
    nillable: bool,
    builtin: bool,
    default: Option<string>,
    resolved: Id,
    content: seq<Child>)

  /** write and read translate scalars of a resolved type to text and back. */
  datatype Schema = Schema(
    at: Id -> SchemaObject,
    globals: map<string, Id>,
    write: (Id, Scalar) -> Option<string>,
    read: (Id, string) -> Option<Scalar>)

  datatype Error = TypeNotFound(tag: string) | RawAttribute(tag: string) | Mismatch

  datatype Outcome<+T> = Ok(value: T) | Failed(error: Error)

  // ----- lookup -----

  function Real(s: Schema, id: Id): Id {
    s.at(id).resolved
  }

  function Optional(s: Schema, c: Child): bool {
    s.at(c.id).optional || c.withinOptional
  }

  predicate Starts(name: string, c: char) {
    name != [] && name[0] == c
  }

  /** The first content of that name among the attributes, or among the others. */
  function FindIn(s: Schema, content: seq<Child>, name: string, attribute: bool): (r: Option<Child>)
    ensures r.Some? ==>
              r.value in content && s.at(r.value.id).name == Some(name) && s.at(r.value.id).attribute == attribute
  {
    if content == [] then None
    else if s.at(content[0].id).attribute == attribute && s.at(content[0].id).name == Some(name) then Some(content[0])
    else FindIn(s, content[1..], name, attribute)
  }

  predicate IsNamed(s: Schema, c: Child, name: string, attribute: bool) {
    s.at(c.id).name == Some(name) && s.at(c.id).attribute == attribute
  }

  /** What is found is the first of the name and kind, and nothing only if there is none. */
  lemma {:induction false} FindsFirst(s: Schema, content: seq<Child>, name: string, attribute: bool)
    ensures var r := FindIn(s, content, name, attribute);
            if r.None? then forall i :: 0 <= i < |content| ==> !IsNamed(s, content[i], name, attribute)
            else exists i :: 0 <= i < |content| && r.value == content[i] && IsNamed(s, content[i], name, attribute)
                             && forall j :: 0 <= j < i ==> !IsNamed(s, content[j], name, attribute)
  {
    if content != [] && !IsNamed(s, content[0], name, attribute) {
      FindsFirst(s, content[1..], name, attribute);
      var r := FindIn(s, content, name, attribute);
      assert forall j :: 1 <= j < |content| ==> content[j] == content[1..][j - 1];
      if r.Some? {
        var i :| 0 <= i < |content[1..]| && r.value == content[1..][i] && IsNamed(s, content[1..][i], name, attribute)
                 && forall j :: 0 <= j < i ==> !IsNamed(s, content[1..][j], name, attribute);
        assert content[i + 1] == content[1..][i];
        assert forall j :: 0 < j < i + 1 ==> content[j] == content[1..][j - 1];
      }
    }
  }

  /** Names that start with @ are looked up among the attributes; without a parent all of the schema is searched. */
  function Find(s: Schema, parent: Option<Id>, name: string): Option<Child> {
    if parent.None? then
      if name in s.globals then Some(Child(s.globals[name], false)) else None
    else if Starts(name, '@') then FindIn(s, s.at(parent.value).content, name[1..], true)
    else FindIn(s, s.at(parent.value).content, name, false)
  }

  /** What can be read back as None: a nillable object, or one of a nillable builtin type. */
  predicate ReadsNothing(s: Schema, id: Id) {
    s.at(id).nillable || (s.at(Real(s, id)).builtin && s.at(Real(s, id)).nillable)
  }

  /** Without a parent a name is looked up in the whole schema, else among the parent's content of its kind. */
  lemma LooksUp(s: Schema, parent: Option<Id>, name: string)
    ensures parent.None? ==> (Find(s, parent, name).Some? <==> name in s.globals)
    ensures parent.None? && name in s.globals ==> Find(s, parent, name) == Some(Child(s.globals[name], false))
    ensures parent.Some? && name != "" && name[0] == '@' ==>
              Find(s, parent, name) == FindIn(s, s.at(parent.value).content, name[1..], true)
    ensures parent.Some? && (name == "" || name[0] != '@') ==>
              Find(s, parent, name) == FindIn(s, s.at(parent.value).content, name, false)
  {
  }

  // ----- attributes and members by name -----

  function SetAttribute(attributes: seq<Attr>, name: string, value: string): (r: seq<Attr>)
    ensures (exists a :: a in attributes && a.name == name) || r == attributes + [Attr(name, value)]
  {
    if attributes == [] then [Attr(name, value)]
    else if attributes[0].name == name then [Attr(name, value)] + attributes[1..]
    else [attributes[0]] + SetAttribute(attributes[1..], name, value)
  }

  function SetAttributes(attributes: seq<Attr>, more: seq<Attr>): seq<Attr>
    decreases more
  {
    if more == [] then attributes
    else SetAttributes(SetAttribute(attributes, more[0].name, more[0].value), more[1..])
  }

  lemma {:induction false} SetAttributesInTurn(attributes: seq<Attr>, first: seq<Attr>, second: seq<Attr>)
    ensures SetAttributes(attributes, first + second) == SetAttributes(SetAttributes(attributes, first), second)
    decreases first
  {
    if first == [] {
      assert first + second == second;
    } else {
      assert (first + second)[1..] == first[1..] + second;
      SetAttributesInTurn(SetAttribute(attributes, first[0].name, first[0].value), first[1..], second);
    }
  }

  /** Where a key is, or the number of members. */
  function IndexOf(fields: seq<Field>, key: string): (i: nat)
    ensures i <= |fields| && (i < |fields| ==> fields[i].key == key)
    ensures forall j :: 0 <= j < i ==> fields[j].key != key
  {
    if fields == [] || fields[0].key == key then 0 else 1 + IndexOf(fields[1..], key)
  }

  predicate Has(fields: seq<Field>, key: string) {
    IndexOf(fields, key) < |fields|
  }

  /** Assigning to an attribute of an object: its keys stay in the order they first came in. */
  function SetField(fields: seq<Field>, key: string, value: Value): (r: seq<Field>) {
    var i := IndexOf(fields, key);
    if i < |fields| then fields[i := Field(key, value)] else fields + [Field(key, value)]
  }

  function Keys(fields: seq<Field>): (r: seq<string>)
    ensures |r| == |fields| && forall i :: 0 <= i < |r| ==> r[i] == fields[i].key
  {
    seq(|fields|, i requires 0 <= i < |fields| => fields[i].key)
  }
}
