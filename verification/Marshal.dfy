/**
 What marshalling a value adds to its parent node (mx/core.py, mx/appender.py, mx/literal.py).
 */
module Marshal {
  import opened Listings
  import opened Options
  import opened SoapSchema

  /** Attributes to set on the parent, and nodes to append to it. */
  datatype Emission = Emission(attributes: seq<Attr>, nodes: seq<Xml>)

  const SILENT := Emission([], [])

  function Join(first: Emission, second: Emission): Emission {
    Emission(first.attributes + second.attributes, first.nodes + second.nodes)
  }

  /** Tags that start with an underscore are attributes. */
  function SchemaName(tag: string): string {
    if Starts(tag, '_') then "@" + tag[1..] else tag
  }

  function Resolve(s: Schema, parent: Option<Id>, tag: string): Option<Child> {
    Find(s, parent, SchemaName(tag))
  }

  // ----- the order of an object's members -----

  function MemberName(o: SchemaObject): Option<string> {
    if o.name.None? then None else Some(if o.attribute then "_" + o.name.value else o.name.value)
  }

  function NamesOf(s: Schema, content: seq<Child>): seq<string> {
    if content == [] then []
    else (if MemberName(s.at(content[0].id)).Some? then [MemberName(s.at(content[0].id)).value] else [])
         + NamesOf(s, content[1..])
  }

  function Ordering(s: Schema, kind: Id): seq<string> {
    NamesOf(s, s.at(kind).content)
  }

  /** A property's keys begin with its value. */
  function AllKeys(text: Option<string>, fields: seq<Field>): seq<string> {
    (if text.Some? then ["value"] else []) + Keys(fields)
  }

  predicate Covers(ordering: seq<string>, keys: seq<string>) {
    forall k :: k in keys ==> k in ordering
  }

  function Pick(keys: seq<string>, fields: seq<Field>): (r: seq<Field>)
    ensures forall f :: f in r ==> f in fields
  {
    if keys == [] then []
    else (if Has(fields, keys[0]) then [fields[IndexOf(fields, keys[0])]] else []) + Pick(keys[1..], fields)
  }

  /** The schema's order counts only if it covers every key. */
  function EmissionKeys(s: Schema, kind: Id, text: Option<string>, fields: seq<Field>): seq<string> {
    if Covers(Ordering(s, kind), AllKeys(text, fields)) then Ordering(s, kind) else AllKeys(text, fields)
  }

  function Arranged(s: Schema, kind: Id, text: Option<string>, fields: seq<Field>): (r: seq<Field>)
    ensures forall f :: f in r ==> f in fields
  {
    Pick(EmissionKeys(s, kind, text, fields), fields)
  }

  // ----- emission -----

  function Plain(tag: string, text: Option<string>): Xml {
    Xml(tag, false, [], text, [])
  }

  /** The default if there is one, else nil if that is allowed, else just empty. */
  function NothingNode(s: Schema, tag: string, id: Id): Xml {
    var o := s.at(id);
    if o.default.Some? then Plain(tag, o.default)
    else if o.nillable then Xml(tag, true, [], None, [])
    else Plain(tag, None)
  }

  function EmitNothing(s: Schema, tag: string, c: Child): Emission {
    if Optional(s, c) then SILENT else Emission([], [NothingNode(s, tag, c.id)])
  }

  /** An empty attribute is not set. */
  function EmitText(tag: string, text: string): Emission {
    if !Starts(tag, '_') then Emission([], [Plain(tag, Some(text))])
    else if text == "" then SILENT
    else Emission([Attr(tag[1..], text)], [])
  }

  function NodeOf(tag: string, text: Option<string>, inner: Emission): Xml {
    Xml(tag, false, SetAttributes([], inner.attributes), text, inner.nodes)
  }

  function Emit(s: Schema, parent: Option<Id>, tag: string, v: Value): (r: Outcome<Emission>)
    ensures r.Failed? ==> !r.error.Mismatch?
    decreases v, 3
  {
    var found := Resolve(s, parent, tag);
    if found.None? then Failed(TypeNotFound(tag)) else EmitAs(s, parent, tag, found.value, v)
  }

  function EmitAs(s: Schema, parent: Option<Id>, tag: string, c: Child, v: Value): (r: Outcome<Emission>)
    ensures r.Failed? ==> !r.error.Mismatch?
    decreases v, 2
  {
    var kind := Real(s, c.id);
    match v
    case Nothing => Ok(EmitNothing(s, tag, c))
    case Leaf(x) =>
      var text := s.write(kind, x);
      Ok(if text.None? then EmitNothing(s, tag, c) else EmitText(tag, text.value))
    case Raw(node) => if Starts(tag, '_') then Failed(RawAttribute(tag)) else Ok(Emission([], [node]))
    case Many(items) => EmitItems(s, parent, tag, items)
    case Record(text, fields) =>
      var inner := EmitFields(s, kind, Arranged(s, kind, text, fields), v);
      if inner.Failed? then Failed(inner.error) else Ok(Emission([], [NodeOf(tag, text, inner.value)]))
  }

  function EmitItems(s: Schema, parent: Option<Id>, tag: string, items: seq<Value>): (r: Outcome<Emission>)
    ensures r.Failed? ==> !r.error.Mismatch?
    decreases items, 0
  {
    if items == [] then Ok(SILENT)
    else
      var first := Emit(s, parent, tag, items[0]);
      if first.Failed? then first
      else
        var rest := EmitItems(s, parent, tag, items[1..]);
        if rest.Failed? then rest else Ok(Join(first.value, rest.value))
  }

  function EmitFields(s: Schema, kind: Id, fields: seq<Field>, ghost whole: Value): (r: Outcome<Emission>)
    requires forall f :: f in fields ==> f.value < whole
    ensures r.Failed? ==> !r.error.Mismatch?
    decreases whole, 1, |fields|
  {
    if fields == [] then Ok(SILENT)
    else
      var first := Emit(s, Some(kind), fields[0].key, fields[0].value);
      if first.Failed? then first
      else
        var rest := EmitFields(s, kind, fields[1..], whole);
        if rest.Failed? then rest else Ok(Join(first.value, rest.value))
  }

  /** A tag is looked up by its name, or as an attribute when it is marked; what is not found is an error. */
  lemma TypeIsFoundByTag(s: Schema, parent: Option<Id>, tag: string, v: Value)
    ensures var name := if tag != "" && tag[0] == '_' then "@" + tag[1..] else tag;
            Emit(s, parent, tag, v) == match Find(s, parent, name)
                                       case None => Failed(TypeNotFound(tag))
                                       case Some(c) => EmitAs(s, parent, tag, c, v)
  {
  }

  /** A node is passed on as it is, but not as an attribute. */
  lemma RawNodeIsKept(s: Schema, parent: Option<Id>, tag: string, c: Child, node: Xml)
    ensures var e := EmitAs(s, parent, tag, c, Raw(node));
            if tag != "" && tag[0] == '_' then e == Failed(RawAttribute(tag))
            else e.Ok? && e.value.attributes == [] && e.value.nodes == [node]
  {
  }

  /** None that is not skipped becomes an element with the default, else with nil where that is allowed, else empty. */
  lemma NothingBecomesElement(s: Schema, parent: Option<Id>, tag: string, c: Child)
    requires !s.at(c.id).optional && !c.withinOptional
    ensures var e := EmitAs(s, parent, tag, c, Nothing);
            && e.Ok? && |e.value.nodes| == 1
            && var n := e.value.nodes[0];
               && n.name == tag && n.attributes == [] && n.children == [] && n.text == s.at(c.id).default
               && (n.nil <==> s.at(c.id).default.None? && s.at(c.id).nillable)
  {
  }

  // ----- the children of an object follow the schema -----

  /** Names follow an order when they come from walking along it, repeating or leaving out entries. */
  predicate Follows(names: seq<string>, order: seq<string>)
    decreases |names| + |order|
  {
    names == []
    || (order != [] && if names[0] == order[0] then Follows(names[1..], order) else Follows(names, order[1..]))
  }

  function NodeNames(nodes: seq<Xml>): (r: seq<string>)
    ensures |r| == |nodes| && forall i :: 0 <= i < |r| ==> r[i] == nodes[i].name
  {
    seq(|nodes|, i requires 0 <= i < |nodes| => nodes[i].name)
  }

  lemma {:induction false} FollowsRest(names: seq<string>, order: seq<string>)
    requires names != [] && Follows(names, order)
    ensures Follows(names[1..], order)
    decreases |names| + |order|
  {
    if names[0] != order[0] {
      FollowsRest(names, order[1..]);
      FollowsLonger(names[1..], order);
    }
  }

  lemma {:induction false} FollowsLonger(names: seq<string>, order: seq<string>)
    requires order != [] && Follows(names, order[1..])
    ensures Follows(names, order)
    decreases |names| + |order|
  {
    if names != [] && names[0] == order[0] {
      FollowsRest(names, order[1..]);
      FollowsLonger(names[1..], order);
    }
  }

  lemma {:induction false} BlockFollows(block: seq<string>, names: seq<string>, order: seq<string>)
    requires order != [] && Follows(names, order[1..]) && forall i :: 0 <= i < |block| ==> block[i] == order[0]
    ensures Follows(block + names, order)
    decreases block
  {
    if block == [] {
      assert block + names == names;
      FollowsLonger(names, order);
    } else {
      BlockFollows(block[1..], names, order);
      assert (block + names)[1..] == block[1..] + names;
    }
  }

  /** No XML node stands among the values, alone or in a list. */
  predicate NodeFree(v: Value) {
    !v.Raw? && (v.Many? ==> forall i :: 0 <= i < |v.items| ==> NodeFree(v.items[i]))
  }

  ghost predicate AllNamed(nodes: seq<Xml>, tag: string) {
    forall i :: 0 <= i < |nodes| ==> nodes[i].name == tag
  }

  lemma {:induction false} EmittedNodesAreTagged(s: Schema, parent: Option<Id>, tag: string, v: Value)
    requires NodeFree(v) && Emit(s, parent, tag, v).Ok?
    ensures AllNamed(Emit(s, parent, tag, v).value.nodes, tag)
    decreases v
  {
    if v.Many? {
      EmittedItemsAreTagged(s, parent, tag, v.items);
    }
  }

  lemma {:induction false} EmittedItemsAreTagged(s: Schema, parent: Option<Id>, tag: string, items: seq<Value>)
    requires (forall i :: 0 <= i < |items| ==> NodeFree(items[i])) && EmitItems(s, parent, tag, items).Ok?
    ensures AllNamed(EmitItems(s, parent, tag, items).value.nodes, tag)
    decreases items
  {
    if items != [] {
      EmittedNodesAreTagged(s, parent, tag, items[0]);
      EmittedItemsAreTagged(s, parent, tag, items[1..]);
    }
  }

  lemma BlockOfNodesFollows(block: seq<Xml>, nodes: seq<Xml>, order: seq<string>)
    requires order != [] && AllNamed(block, order[0]) && Follows(NodeNames(nodes), order[1..])
    ensures Follows(NodeNames(block + nodes), order)
  {
    BlockFollows(NodeNames(block), NodeNames(nodes), order);
    assert NodeNames(block + nodes) == NodeNames(block) + NodeNames(nodes);
  }

  lemma {:induction false} PickedFollowKeys(s: Schema, kind: Id, keys: seq<string>, fields: seq<Field>, whole: Value)
    requires forall f :: f in fields ==> f.value < whole && NodeFree(f.value)
    requires EmitFields(s, kind, Pick(keys, fields), whole).Ok?
    ensures Follows(NodeNames(EmitFields(s, kind, Pick(keys, fields), whole).value.nodes), keys)
    decreases keys
  {
    if keys != [] {
      var picked, rest := Pick(keys, fields), Pick(keys[1..], fields);
      if Has(fields, keys[0]) {
        var f := fields[IndexOf(fields, keys[0])];
        assert picked == [f] + rest && picked[1..] == rest;
        PickedFollowKeys(s, kind, keys[1..], fields, whole);
        EmittedNodesAreTagged(s, Some(kind), f.key, f.value);
        BlockOfNodesFollows(Emit(s, Some(kind), f.key, f.value).value.nodes,
                            EmitFields(s, kind, rest, whole).value.nodes, keys);
      } else {
        assert picked == [] + rest && picked == rest;
        PickedFollowKeys(s, kind, keys[1..], fields, whole);
        FollowsLonger(NodeNames(EmitFields(s, kind, rest, whole).value.nodes), keys);
      }
    }
  }

  /** The children of an object follow the schema whenever it orders every key of the object. */
  lemma ChildrenFollowSchema(s: Schema, parent: Option<Id>, tag: string, c: Child, v: Value)
    requires v.Record? && (forall f :: f in v.fields ==> NodeFree(f.value))
    requires Covers(Ordering(s, Real(s, c.id)), AllKeys(v.text, v.fields))
    requires EmitAs(s, parent, tag, c, v).Ok?
    ensures var nodes := EmitAs(s, parent, tag, c, v).value.nodes;
            |nodes| == 1 && Follows(NodeNames(nodes[0].children), Ordering(s, Real(s, c.id)))
  {
    PickedFollowKeys(s, Real(s, c.id), Ordering(s, Real(s, c.id)), v.fields, v);
  }

  // ----- what the order is -----

  /** How many of the first i entries have a name. */
  function NamedBefore(s: Schema, content: seq<Child>, i: nat): nat
    requires i <= |content|
  {
    if i == 0 then 0 else NamedBefore(s, content, i - 1) + if s.at(content[i - 1].id).name.Some? then 1 else 0
  }

  /** The key of a member: the name of an entry, marked when it is an attribute. */
  predicate IsKeyOf(s: Schema, c: Child, key: string) {
    s.at(c.id).name.Some? && key == (if s.at(c.id).attribute then "_" else "") + s.at(c.id).name.value
  }

  lemma {:induction false} NamesInPlace(s: Schema, content: seq<Child>, i: nat, key: string)
    requires i < |content| && IsKeyOf(s, content[i], key)
    ensures NamedBefore(s, content, i) < |NamesOf(s, content)| && NamesOf(s, content)[NamedBefore(s, content, i)] == key
  {
    if i > 0 {
      NamesInPlace(s, content[1..], i - 1, key);
      NamedAfterFirst(s, content, i);
    } else {
      assert "" + s.at(content[0].id).name.value == s.at(content[0].id).name.value;
    }
  }

  lemma {:induction false} NamedAfterFirst(s: Schema, content: seq<Child>, i: nat)
    requires 0 < i <= |content|
    ensures NamedBefore(s, content, i) ==
              (if s.at(content[0].id).name.Some? then 1 else 0) + NamedBefore(s, content[1..], i - 1)
  {
    if i > 1 {
      NamedAfterFirst(s, content, i - 1);
      assert content[1..][i - 2] == content[i - 1];
    }
  }

  lemma {:induction false} NamesAreKeys(s: Schema, content: seq<Child>, k: nat) returns (i: nat)
    requires k < |NamesOf(s, content)|
    ensures i < |content| && IsKeyOf(s, content[i], NamesOf(s, content)[k]) && NamedBefore(s, content, i) == k
  {
    var first := if MemberName(s.at(content[0].id)).Some? then 1 else 0;
    if k < first {
      i := 0;
      assert "" + s.at(content[0].id).name.value == s.at(content[0].id).name.value;
    } else {
      i := NamesAreKeys(s, content[1..], k - first);
      i := i + 1;
      NamedAfterFirst(s, content, i);
    }
  }

  /** The ordering names the entries in the order of the schema, those without a name left out. */
  lemma OrderingInPlace(s: Schema, kind: Id, i: nat, key: string)
    requires i < |s.at(kind).content| && IsKeyOf(s, s.at(kind).content[i], key)
    ensures var k := NamedBefore(s, s.at(kind).content, i); k < |Ordering(s, kind)| && Ordering(s, kind)[k] == key
  {
    NamesInPlace(s, s.at(kind).content, i, key);
  }

  /** Whether the schema has an entry for the key. */
  ghost predicate HasEntry(s: Schema, kind: Id, key: string) {
    exists i :: 0 <= i < |s.at(kind).content| && IsKeyOf(s, s.at(kind).content[i], key)
  }

  /** No two entries are known by one key. */
  ghost predicate KeysApart(s: Schema, kind: Id) {
    forall i, j, key ::
      0 <= i < j < |s.at(kind).content| && IsKeyOf(s, s.at(kind).content[i], key) ==>
        !IsKeyOf(s, s.at(kind).content[j], key)
  }

  /** The schema has an entry for every member of an object, and for its value if it has one. */
  ghost predicate HasEntries(s: Schema, kind: Id, text: Option<string>, fields: seq<Field>) {
    (text.Some? ==> HasEntry(s, kind, "value")) && forall f :: f in fields ==> HasEntry(s, kind, f.key)
  }

  lemma OrderedIff(s: Schema, kind: Id, key: string)
    ensures key in Ordering(s, kind) <==> HasEntry(s, kind, key)
  {
    if HasEntry(s, kind, key) {
      var i :| 0 <= i < |s.at(kind).content| && IsKeyOf(s, s.at(kind).content[i], key);
      OrderingInPlace(s, kind, i, key);
    }
    if k :| 0 <= k < |Ordering(s, kind)| && Ordering(s, kind)[k] == key {
      var i := NamesAreKeys(s, s.at(kind).content, k);
    }
  }

  lemma CoversIff(s: Schema, kind: Id, text: Option<string>, fields: seq<Field>)
    ensures Covers(Ordering(s, kind), AllKeys(text, fields)) <==> HasEntries(s, kind, text, fields)
  {
    forall key: string ensures key in Ordering(s, kind) <==> HasEntry(s, kind, key) {
      OrderedIff(s, kind, key);
    }
    assert forall i :: 0 <= i < |fields| ==> Keys(fields)[i] == fields[i].key;
    if Covers(Ordering(s, kind), AllKeys(text, fields)) {
      assert text.Some? ==> AllKeys(text, fields)[0] == "value";
      forall f | f in fields ensures HasEntry(s, kind, f.key) {
        var i :| 0 <= i < |fields| && fields[i] == f;
        assert Keys(fields)[i] in AllKeys(text, fields);
      }
    }
  }

  lemma {:induction false} NamedGrows(s: Schema, content: seq<Child>, j: nat, i: nat)
    requires j < i <= |content|
    ensures NamedBefore(s, content, j) <= NamedBefore(s, content, i)
    ensures s.at(content[j].id).name.Some? ==> NamedBefore(s, content, j) < NamedBefore(s, content, i)
  {
    if j < i - 1 {
      NamedGrows(s, content, j, i - 1);
    }
  }

  lemma OrderingApart(s: Schema, kind: Id)
    requires KeysApart(s, kind)
    ensures Distinct(Ordering(s, kind))
  {
    var content, order := s.at(kind).content, Ordering(s, kind);
    forall k, m | 0 <= k < m < |order| ensures order[k] != order[m] {
      var i := NamesAreKeys(s, content, k);
      var j := NamesAreKeys(s, content, m);
      assert i < j || j < i;
    }
  }

  lemma {:induction false} FollowersAreOrdered(names: seq<string>, order: seq<string>, a: nat)
    requires Follows(names, order) && a < |names|
    ensures names[a] in order
    decreases |names| + |order|
  {
    if names[0] != order[0] {
      FollowersAreOrdered(names, order[1..], a);
    } else if a > 0 {
      FollowersAreOrdered(names[1..], order, a - 1);
    }
  }

  lemma {:induction false} FollowersInOrder(names: seq<string>, order: seq<string>, a: nat, b: nat, p: nat, q: nat)
    requires Follows(names, order) && Distinct(order) && a < b < |names|
    requires p < |order| && q < |order| && names[a] == order[p] && names[b] == order[q]
    ensures p <= q
    decreases |names| + |order|
  {
    if names[0] != order[0] {
      FollowersAreOrdered(names, order[1..], a);
      FollowersAreOrdered(names, order[1..], b);
      FollowersInOrder(names, order[1..], a, b, p - 1, q - 1);
    } else if a > 0 {
      FollowersInOrder(names[1..], order, a - 1, b - 1, p, q);
    }
  }

  /** Two children of an object that the schema covers stand in the order of their entries. */
  lemma ChildrenInSchemaOrder(s: Schema, parent: Option<Id>, tag: string, c: Child, v: Value, children: seq<Xml>,
                              a: nat, b: nat, i: nat, j: nat)
    requires v.Record? && (forall f :: f in v.fields ==> NodeFree(f.value))
    requires HasEntries(s, Real(s, c.id), v.text, v.fields) && KeysApart(s, Real(s, c.id))
    requires var e := EmitAs(s, parent, tag, c, v);
             e.Ok? && |e.value.nodes| == 1 && e.value.nodes[0].children == children
    requires a < b < |children| && i < |s.at(Real(s, c.id)).content| && j < |s.at(Real(s, c.id)).content|
    requires IsKeyOf(s, s.at(Real(s, c.id)).content[i], children[a].name)
    requires IsKeyOf(s, s.at(Real(s, c.id)).content[j], children[b].name)
    ensures i <= j
  {
    var kind := Real(s, c.id);
    CoversIff(s, kind, v.text, v.fields);
    ChildrenFollowSchema(s, parent, tag, c, v);
    OrderingApart(s, kind);
    OrderingInPlace(s, kind, i, children[a].name);
    OrderingInPlace(s, kind, j, children[b].name);
    FollowersInOrder(NodeNames(children), Ordering(s, kind), a, b, NamedBefore(s, s.at(kind).content, i),
                     NamedBefore(s, s.at(kind).content, j));
    if j < i {
      NamedGrows(s, s.at(kind).content, j, i);
    }
  }

  lemma ChildrenFollowMembers(s: Schema, parent: Option<Id>, tag: string, c: Child, v: Value)
    requires v.Record? && (forall f :: f in v.fields ==> NodeFree(f.value))
    requires !Covers(Ordering(s, Real(s, c.id)), AllKeys(v.text, v.fields)) && EmitAs(s, parent, tag, c, v).Ok?
    ensures var nodes := EmitAs(s, parent, tag, c, v).value.nodes;
            |nodes| == 1 && Follows(NodeNames(nodes[0].children), AllKeys(v.text, v.fields))
  {
    PickedFollowKeys(s, Real(s, c.id), AllKeys(v.text, v.fields), v.fields, v);
  }

  lemma KeyInPlace(text: Option<string>, fields: seq<Field>, i: nat)
    requires i < |fields|
    ensures var k := i + if text.Some? then 1 else 0;
            k < |AllKeys(text, fields)| && AllKeys(text, fields)[k] == fields[i].key
  {
    assert Keys(fields)[i] == fields[i].key;
  }

  lemma MembersInOrder(names: seq<string>, text: Option<string>, fields: seq<Field>, a: nat, b: nat, i: nat, j: nat)
    requires Follows(names, AllKeys(text, fields)) && Distinct(AllKeys(text, fields)) && a < b < |names|
    requires i < |fields| && j < |fields| && names[a] == fields[i].key && names[b] == fields[j].key
    ensures i <= j
  {
    KeyInPlace(text, fields, i);
    KeyInPlace(text, fields, j);
    var n := if text.Some? then 1 else 0;
    FollowersInOrder(names, AllKeys(text, fields), a, b, i + n, j + n);
  }

  /** Two children of an object that the schema does not cover stand in the order of their members. */
  lemma ChildrenInOwnOrder(s: Schema, parent: Option<Id>, tag: string, c: Child, v: Value, children: seq<Xml>,
                           a: nat, b: nat, i: nat, j: nat)
    requires v.Record? && (forall f :: f in v.fields ==> NodeFree(f.value)) && Distinct(AllKeys(v.text, v.fields))
    requires !HasEntries(s, Real(s, c.id), v.text, v.fields)
    requires var e := EmitAs(s, parent, tag, c, v);
             e.Ok? && |e.value.nodes| == 1 && e.value.nodes[0].children == children
    requires a < b < |children| && i < |v.fields| && j < |v.fields|
    requires children[a].name == v.fields[i].key && children[b].name == v.fields[j].key
    ensures i <= j
  {
    CoversIff(s, Real(s, c.id), v.text, v.fields);
    ChildrenFollowMembers(s, parent, tag, c, v);
    MembersInOrder(NodeNames(children), v.text, v.fields, a, b, i, j);
  }
}
