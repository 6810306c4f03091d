/**
 Unmarshalling what was marshalled gives the value back.
 */
module RoundTrip {
  import opened Listings
  import opened Options
  import opened SoapSchema
  import opened Marshal
  import opened Unmarshal

  // ----- the values that make the trip -----

  /** What an attribute can hold: text that translates back, or nothing where that is optional. */
  predicate FitsAttribute(s: Schema, c: Child, v: Value) {
    match v
    case Leaf(x) => FitsText(s, c.id, x)
    case Nothing => Optional(s, c)
    case Many(items) => items == []
    case _ => false
  }

  predicate FitsText(s: Schema, id: Id, x: Scalar) {
    var text := s.write(Real(s, id), x);
    text.Some? && text.value != "" && s.read(Real(s, id), text.value) == Some(x)
  }

  /** Text that translates back; empty or untranslatable text stands for the empty string unless it can be None. */
  predicate FitsLeaf(s: Schema, id: Id, x: Scalar) {
    var text := s.write(Real(s, id), x);
    && text.Some?
    && if text.value != "" && s.read(Real(s, id), text.value).Some? then s.read(Real(s, id), text.value) == Some(x)
       else x == Text("") && !ReadsNothing(s, id)
  }

  /** None is skipped, or reads back from nil or from an element without usable text. */
  predicate FitsNothing(s: Schema, c: Child) {
    || Optional(s, c)
    || (ReadsNothing(s, c.id)
        && var default := s.at(c.id).default;
           default.None? || default.value == "" || s.read(Real(s, c.id), default.value).None?)
  }

  predicate FitsItem(s: Schema, id: Id, v: Value)
    decreases v, 1
  {
    match v
    case Leaf(x) => FitsLeaf(s, id, x)
    case Record(_, _) => FitsMembers(s, id, v) && LeavesTrace(s, id, v)
    case _ => false
  }

  /** The members fit, and a value stands beside attributes only. */
  predicate FitsMembers(s: Schema, id: Id, v: Value)
    requires v.Record?
    decreases v, 0, |v.fields| + 1
  {
    && FitsFields(s, Real(s, id), v.fields, v)
    && Distinct(Keys(Arranged(s, Real(s, id), v.text, v.fields))) && Distinct(AllKeys(v.text, v.fields))
    && (v.text.Some? ==> v.text.value != "" && forall f :: f in v.fields ==> Starts(f.key, '_'))
  }

  predicate LeavesTrace(s: Schema, id: Id, v: Value)
    requires v.Record?
  {
    exists f :: f in v.fields && Present(s, Real(s, id), f)
  }

  predicate FitsItems(s: Schema, id: Id, items: seq<Value>)
    decreases items, 0
  {
    items == [] || (FitsItem(s, id, items[0]) && FitsItems(s, id, items[1..]))
  }

  /** None where it is skipped, or comes back from nil or from an empty builtin; a list where the schema repeats. */
  predicate FitsElement(s: Schema, c: Child, v: Value)
    decreases v, 2
  {
    match v
    case Nothing => FitsNothing(s, c)
    case Many(items) => FitsItems(s, c.id, items) && (s.at(c.id).multi || |items| != 1)
    case _ => !s.at(c.id).multi && FitsItem(s, c.id, v)
  }

  predicate FitsField(s: Schema, kind: Id, f: Field)
    decreases f.value, 3
  {
    var found := Resolve(s, Some(kind), f.key);
    && found.Some?
    && if Starts(f.key, '_') then Rename(f.key[1..]) == f.key[1..] && FitsAttribute(s, found.value, f.value)
       else Rename(f.key) == f.key && FitsElement(s, found.value, f.value)
  }

  predicate FitsFields(s: Schema, kind: Id, fields: seq<Field>, ghost whole: Value)
    requires forall f :: f in fields ==> f.value < whole
    decreases whole, 0, |fields|
  {
    fields == [] || (FitsField(s, kind, fields[0]) && FitsFields(s, kind, fields[1..], whole))
  }

  /** Whether a member of an object leaves a trace in the node. */
  predicate Present(s: Schema, kind: Id, f: Field) {
    var found := Resolve(s, Some(kind), f.key);
    match f.value
    case Nothing => found.Some? && !Optional(s, found.value)
    case Many(items) => items != []
    case _ => true
  }

  // ----- what comes back -----

  /** An object comes back with the members that left a trace, attributes first, in the order of emission. */
  function Restored(s: Schema, id: Id, v: Value): Value
    decreases v, 1
  {
    match v
    case Record(text, fields) =>
      var arranged := Arranged(s, Real(s, id), text, fields);
      Record(text, RestoredAttributes(s, Real(s, id), arranged) + RestoredElements(s, Real(s, id), arranged, v))
    case Many(items) => Many(RestoredItems(s, id, items))
    case _ => v
  }

  function RestoredItems(s: Schema, id: Id, items: seq<Value>): (r: seq<Value>)
    ensures |r| == |items|
    decreases items, 0
  {
    if items == [] then [] else [Restored(s, id, items[0])] + RestoredItems(s, id, items[1..])
  }

  /** None on a member that may repeat comes back as an empty list. */
  function RestoredMember(s: Schema, c: Child, v: Value): Value
    decreases v, 2
  {
    if v.Nothing? && s.at(c.id).multi then Many([]) else Restored(s, c.id, v)
  }

  function RestoredAttribute(s: Schema, kind: Id, f: Field): seq<Field> {
    if Starts(f.key, '_') && Present(s, kind, f) then [f] else []
  }

  function RestoredAttributes(s: Schema, kind: Id, fields: seq<Field>): seq<Field> {
    if fields == [] then [] else RestoredAttribute(s, kind, fields[0]) + RestoredAttributes(s, kind, fields[1..])
  }

  function RestoredElement(s: Schema, kind: Id, f: Field): seq<Field>
    decreases f.value, 3
  {
    var found := Resolve(s, Some(kind), f.key);
    if found.Some? && !Starts(f.key, '_') && Present(s, kind, f)
      then [Field(f.key, RestoredMember(s, found.value, f.value))] else []
  }

  function RestoredElements(s: Schema, kind: Id, fields: seq<Field>, ghost whole: Value): seq<Field>
    requires forall f :: f in fields ==> f.value < whole
    decreases whole, 0, |fields|
  {
    if fields == [] then [] else RestoredElement(s, kind, fields[0]) + RestoredElements(s, kind, fields[1..], whole)
  }

  // ----- one node -----

  lemma SetNewField(data: seq<Field>, key: string, v: Value)
    requires !Has(data, key)
    ensures SetField(data, key, v) == data + [Field(key, v)]
  {
  }

  lemma AddNewChild(data: seq<Field>, key: string, multi: bool, v: Value)
    requires !Has(data, key)
    ensures AddChild(data, key, multi, v)
            == data + [Field(key, if !multi then v else if v.Nothing? then Many([]) else Many([v]))]
  {
  }

  lemma {:induction false} IndexOfLast(data: seq<Field>, f: Field)
    requires !Has(data, f.key)
    ensures IndexOf(data + [f], f.key) == |data|
  {
    if data != [] {
      assert (data + [f])[1..] == data[1..] + [f];
      IndexOfLast(data[1..], f);
    }
  }

  lemma SetLastField(data: seq<Field>, key: string, was: Value, v: Value)
    requires !Has(data, key)
    ensures Has(data + [Field(key, was)], key)
    ensures SetField(data + [Field(key, was)], key, v) == data + [Field(key, v)]
  {
    IndexOfLast(data, Field(key, was));
  }

  lemma ReadOne(s: Schema, kind: Id, node: Xml, data: seq<Field>)
    ensures ReadChildren(s, kind, [node], data) == ReadChild(s, kind, node, data)
  {
    assert [node][1..] == [];
  }

  lemma {:induction false} AttributeTrip(s: Schema, kind: Id, f: Field, data: seq<Field>)
    requires FitsField(s, kind, f) && Starts(f.key, '_') && !Has(data, f.key)
    ensures var e := Emit(s, Some(kind), f.key, f.value);
            e.Ok? && e.value.nodes == [] && AttributesReturn(s, kind, e.value.attributes, data,
                                                             RestoredAttribute(s, kind, f))
  {
    assert data + [] == data;
    if f.value.Leaf? {
      var text := s.write(Real(s, Resolve(s, Some(kind), f.key).value.id), f.value.scalar).value;
      assert Emit(s, Some(kind), f.key, f.value) == Ok(Emission([Attr(f.key[1..], text)], []));
      OneAttribute(s, kind, Attr(f.key[1..], text), f, data);
    } else {
      assert Emit(s, Some(kind), f.key, f.value) == Ok(SILENT);
    }
  }

  lemma {:induction false} OneAttribute(s: Schema, kind: Id, a: Attr, f: Field, data: seq<Field>)
    requires Starts(f.key, '_') && a.name == f.key[1..] && Rename(a.name) == a.name && !Has(data, f.key)
    requires AttributeValue(s, kind, a) == f.value
    ensures AttributesReturn(s, kind, [a], data, [f])
  {
    SetNewField(data, f.key, f.value);
    assert "_" + f.key[1..] == f.key;
    assert [a][1..] == [];
  }

  /** The node made of an item that fits, and the value read from it. */
  ghost predicate ItemReturns(s: Schema, parent: Option<Id>, tag: string, c: Child, v: Value) {
    var e := EmitAs(s, parent, tag, c, v);
    && e.Ok? && e.value.attributes == [] && |e.value.nodes| == 1 && e.value.nodes[0].name == tag
    && ReadAs(s, c.id, e.value.nodes[0]) == Ok(Restored(s, c.id, v))
    && !Restored(s, c.id, v).Nothing? && !Restored(s, c.id, v).Many?
  }

  lemma {:induction false} ItemTrip(s: Schema, parent: Option<Id>, tag: string, c: Child, v: Value)
    requires !Starts(tag, '_') && FitsItem(s, c.id, v)
    ensures ItemReturns(s, parent, tag, c, v)
    decreases v, 1
  {
    if v.Record? {
      RecordTrip(s, parent, tag, c, v);
    } else {
      var node := Plain(tag, s.write(Real(s, c.id), v.scalar));
      assert EmitAs(s, parent, tag, c, v) == Ok(Emission([], [node]));
      assert ReadAttributes(s, Real(s, c.id), node.attributes, []) == [];
    }
  }

  lemma {:induction false} RecordTrip(s: Schema, parent: Option<Id>, tag: string, c: Child, v: Value)
    requires !Starts(tag, '_') && FitsItem(s, c.id, v) && v.Record?
    ensures ItemReturns(s, parent, tag, c, v)
    decreases v, 0
  {
    var kind, arranged := Real(s, c.id), Arranged(s, Real(s, c.id), v.text, v.fields);
    AllFit(s, kind, v.fields, arranged, v);
    RestoredAttributesAreAttributes(s, kind, arranged);
    AttributesAreNoElements(s, kind, arranged);
    FieldsTrip(s, kind, arranged, v, [], RestoredAttributes(s, kind, arranged));
    SomethingRestored(s, kind, v, arranged);
    if v.text.Some? {
      AttributesEmitNoNodes(s, kind, arranged, v);
    }
    var inner := EmitFields(s, kind, arranged, v).value;
    EmittedRecordReads(s, c.id, tag, v.text, inner, RestoredAttributes(s, kind, arranged),
                       RestoredElements(s, kind, arranged, v));
    assert EmitAs(s, parent, tag, c, v) == Ok(Emission([], [NodeOf(tag, v.text, inner)]));
  }

  lemma {:induction false} AttributesEmitNoNodes(s: Schema, kind: Id, fields: seq<Field>, whole: Value)
    requires (forall f :: f in fields ==> f.value < whole && Starts(f.key, '_')) && FitsFields(s, kind, fields, whole)
    ensures EmitFields(s, kind, fields, whole).Ok? ==> EmitFields(s, kind, fields, whole).value.nodes == []
    decreases |fields|
  {
    if fields != [] {
      AttributeTrip(s, kind, fields[0], []);
      AttributesEmitNoNodes(s, kind, fields[1..], whole);
    }
  }

  lemma {:induction false} AttributesAreNoElements(s: Schema, kind: Id, fields: seq<Field>)
    ensures forall f :: f in fields && !Starts(f.key, '_') ==> !Has(RestoredAttributes(s, kind, fields), f.key)
  {
    var r := RestoredAttributes(s, kind, fields);
    OnlyAttributes(s, kind, fields);
  }

  lemma {:induction false} OnlyAttributes(s: Schema, kind: Id, fields: seq<Field>)
    ensures forall f :: f in RestoredAttributes(s, kind, fields) ==> Starts(f.key, '_')
  {
    if fields != [] {
      OnlyAttributes(s, kind, fields[1..]);
    }
  }

  lemma {:induction false} EmittedRecordReads(s: Schema, id: Id, tag: string, text: Option<string>, inner: Emission,
                                              attributes: seq<Field>, elements: seq<Field>)
    requires Distinct(Keys(attributes)) && forall f :: f in attributes ==> Starts(f.key, '_')
    requires AttributesReturn(s, Real(s, id), inner.attributes, [], attributes)
    requires ChildrenReturn(s, Real(s, id), inner.nodes, attributes, elements)
    requires attributes + elements != []
    requires text.Some? ==> text.value != "" && attributes != [] && inner.nodes == []
    ensures ReadAs(s, id, NodeOf(tag, text, inner)) == Ok(Record(text, attributes + elements))
  {
    DistinctNames(inner.attributes, attributes);
    assert [] + inner.attributes == inner.attributes && [] + attributes == attributes;
    SetDistinctAttributes([], inner.attributes);
    NodeTrip(s, id, NodeOf(tag, text, inner), attributes, elements);
  }

  /** A node whose attributes and children give the members of an object gives the object. */
  lemma {:induction false} NodeTrip(s: Schema, id: Id, node: Xml, attributes: seq<Field>, elements: seq<Field>)
    requires ReadAttributes(s, Real(s, id), node.attributes, []) == attributes
    requires ReadChildren(s, Real(s, id), node.children, attributes) == Ok(attributes + elements)
    requires attributes + elements != []
    requires if node.text.Some? then HasText(node) && node.attributes != [] && node.children == [] else true
    ensures ReadAs(s, id, node) == Ok(Record(node.text, attributes + elements))
  {
  }

  lemma {:induction false} AllFit(s: Schema, kind: Id, fields: seq<Field>, arranged: seq<Field>, v: Value)
    requires (forall f :: f in fields ==> f.value < v) && FitsFields(s, kind, fields, v)
    requires forall f :: f in arranged ==> f in fields
    ensures FitsFields(s, kind, arranged, v)
    decreases |arranged|
  {
    if arranged != [] {
      OneFits(s, kind, fields, arranged[0], v);
      AllFit(s, kind, fields, arranged[1..], v);
    }
  }

  lemma {:induction false} OneFits(s: Schema, kind: Id, fields: seq<Field>, f: Field, v: Value)
    requires (forall g :: g in fields ==> g.value < v) && FitsFields(s, kind, fields, v) && f in fields
    ensures FitsField(s, kind, f)
    decreases |fields|
  {
    if fields[0] != f {
      OneFits(s, kind, fields[1..], f, v);
    }
  }

  lemma {:induction false} SetDistinctAttributes(attributes: seq<Attr>, more: seq<Attr>)
    requires forall i, j ::
               0 <= i < j < |attributes + more| ==> (attributes + more)[i].name != (attributes + more)[j].name
    ensures SetAttributes(attributes, more) == attributes + more
    decreases more
  {
    if more != [] {
      var a := more[0];
      forall b | b in attributes ensures b.name != a.name {
        var i :| 0 <= i < |attributes| && attributes[i] == b;
        assert (attributes + more)[i].name != (attributes + more)[|attributes|].name;
      }
      assert SetAttribute(attributes, a.name, a.value) == attributes + [a];
      assert (attributes + [a]) + more[1..] == attributes + more;
      SetDistinctAttributes(attributes + [a], more[1..]);
    }
  }

  lemma {:induction false} DistinctNames(attributes: seq<Attr>, fields: seq<Field>)
    requires AreNamed(attributes, fields) && Distinct(Keys(fields)) && forall f :: f in fields ==> Starts(f.key, '_')
    ensures forall i, j :: 0 <= i < j < |attributes| ==> attributes[i].name != attributes[j].name
  {
    forall i, j | 0 <= i < j < |attributes| ensures attributes[i].name != attributes[j].name {
      assert Keys(fields)[i] != Keys(fields)[j];
      assert fields[i].key == "_" + attributes[i].name && fields[j].key == "_" + attributes[j].name;
    }
  }

  ghost predicate AreNamed(attributes: seq<Attr>, fields: seq<Field>) {
    |attributes| == |fields| && forall i :: 0 <= i < |fields| ==>
      fields[i].key != "" && attributes[i].name == fields[i].key[1..]
  }

  lemma AreNamedInTurn(first: seq<Attr>, second: seq<Attr>, one: seq<Field>, other: seq<Field>)
    requires AreNamed(first, one) && AreNamed(second, other)
    ensures AreNamed(first + second, one + other)
  {
  }

  lemma JoinedKeysDistinct(f: Field, rest: seq<Field>, one: seq<Field>)
    requires one == [] || one == [f]
    requires Distinct(Keys(rest)) && forall g :: g in rest ==> g.key != f.key
    ensures Distinct(Keys(one + rest))
  {
    var all := one + rest;
    forall i, j | 0 <= i < j < |all| ensures Keys(all)[i] != Keys(all)[j] {
      assert Keys(all)[j] == Keys(rest)[j - |one|] && rest[j - |one|] in rest;
      assert i >= |one| ==> Keys(all)[i] == Keys(rest)[i - |one|];
    }
  }

  lemma {:induction false} RestoredAttributesAreAttributes(s: Schema, kind: Id, fields: seq<Field>)
    requires Distinct(Keys(fields))
    ensures var r := RestoredAttributes(s, kind, fields);
            && Distinct(Keys(r)) && forall f :: f in r ==> f in fields && Starts(f.key, '_')
  {
    if fields != [] {
      assert Keys(fields[1..]) == Keys(fields)[1..];
      RestoredAttributesAreAttributes(s, kind, fields[1..]);
      OthersHaveOtherKeys(fields);
      JoinedKeysDistinct(fields[0], RestoredAttributes(s, kind, fields[1..]), RestoredAttribute(s, kind, fields[0]));
    }
  }

  lemma {:induction false} SomethingRestored(s: Schema, kind: Id, v: Value, arranged: seq<Field>)
    requires v.Record? && arranged == Arranged(s, kind, v.text, v.fields) && FitsFields(s, kind, v.fields, v)
    requires exists f :: f in v.fields && Present(s, kind, f)
    requires Distinct(AllKeys(v.text, v.fields))
    requires (v.text.Some? ==> v.text.value != "" && forall f :: f in v.fields ==> Starts(f.key, '_'))
    ensures RestoredAttributes(s, kind, arranged) + RestoredElements(s, kind, arranged, v) != []
    ensures v.text.Some? ==> RestoredAttributes(s, kind, arranged) != [] && RestoredElements(s, kind, arranged, v) == []
  {
    var f :| f in v.fields && Present(s, kind, f);
    ArrangedHasAll(s, kind, v.text, v.fields, f);
    OneFits(s, kind, v.fields, f, v);
    PresentIsRestored(s, kind, arranged, f, v);
    if v.text.Some? {
      NoElementsRestored(s, kind, arranged, v);
    }
  }

  lemma {:induction false} ArrangedHasAll(s: Schema, kind: Id, text: Option<string>, fields: seq<Field>, f: Field)
    requires f in fields && Distinct(AllKeys(text, fields))
    ensures f in Arranged(s, kind, text, fields)
  {
    var i :| 0 <= i < |fields| && fields[i] == f;
    KeysAreAll(text, fields, i);
    DistinctIndex(text, fields, i);
    PickHas(EmissionKeys(s, kind, text, fields), fields, f);
  }

  lemma KeysAreAll(text: Option<string>, fields: seq<Field>, i: nat)
    requires i < |fields|
    ensures fields[i].key in AllKeys(text, fields)
  {
    assert Keys(fields)[i] == fields[i].key;
  }

  lemma DistinctIndex(text: Option<string>, fields: seq<Field>, i: nat)
    requires i < |fields| && Distinct(AllKeys(text, fields))
    ensures IndexOf(fields, fields[i].key) == i
  {
    var j, keys := IndexOf(fields, fields[i].key), Keys(fields);
    IndexOfFound(fields, fields[i].key, i);
    DistinctTail(if text.Some? then ["value"] else [], keys);
    assert keys[i] == fields[i].key && keys[j] == fields[j].key;
  }

  lemma DistinctTail(first: seq<string>, second: seq<string>)
    requires Distinct(first + second)
    ensures Distinct(second)
  {
    forall i, j | 0 <= i < j < |second| ensures second[i] != second[j] {
      assert (first + second)[|first| + i] != (first + second)[|first| + j];
    }
  }

  lemma {:induction false} PickHas(keys: seq<string>, fields: seq<Field>, f: Field)
    requires f.key in keys && Has(fields, f.key) && fields[IndexOf(fields, f.key)] == f
    ensures f in Pick(keys, fields)
  {
    if keys[0] != f.key {
      PickHas(keys[1..], fields, f);
    }
  }

  lemma {:induction false} PresentIsRestored(s: Schema, kind: Id, fields: seq<Field>, f: Field, whole: Value)
    requires f in fields && FitsField(s, kind, f) && Present(s, kind, f) && forall g :: g in fields ==> g.value < whole
    ensures RestoredAttributes(s, kind, fields) + RestoredElements(s, kind, fields, whole) != []
    decreases |fields|
  {
    if fields[0] != f {
      PresentIsRestored(s, kind, fields[1..], f, whole);
    }
  }

  lemma {:induction false} NoElementsRestored(s: Schema, kind: Id, fields: seq<Field>, whole: Value)
    requires forall f :: f in fields ==> f.value < whole && Starts(f.key, '_')
    ensures RestoredElements(s, kind, fields, whole) == []
    decreases |fields|
  {
    if fields != [] {
      NoElementsRestored(s, kind, fields[1..], whole);
    }
  }

  // ----- the members of an object -----

  ghost predicate AttributesReturn(s: Schema, kind: Id, attributes: seq<Attr>, before: seq<Field>,
                                   restored: seq<Field>)
  {
    ReadAttributes(s, kind, attributes, before) == before + restored && AreNamed(attributes, restored)
  }

  ghost predicate ChildrenReturn(s: Schema, kind: Id, nodes: seq<Xml>, before: seq<Field>, restored: seq<Field>) {
    ReadChildren(s, kind, nodes, before) == Ok(before + restored)
  }

  lemma {:induction false} AttributesReturnInTurn(s: Schema, kind: Id, first: seq<Attr>, second: seq<Attr>,
                                                  before: seq<Field>, one: seq<Field>, other: seq<Field>)
    requires AttributesReturn(s, kind, first, before, one) && AttributesReturn(s, kind, second, before + one, other)
    ensures AttributesReturn(s, kind, first + second, before, one + other)
  {
    AreNamedInTurn(first, second, one, other);
    ReadInTurn(s, kind, first, second, before, one, other);
  }

  lemma JoinedInTurn(before: seq<Field>, one: seq<Field>, other: seq<Field>)
    ensures before + one + other == before + (one + other)
  {
  }

  lemma {:induction false} ReadInTurn(s: Schema, kind: Id, first: seq<Attr>, second: seq<Attr>,
                                      before: seq<Field>, one: seq<Field>, other: seq<Field>)
    requires ReadAttributes(s, kind, first, before) == before + one
    requires ReadAttributes(s, kind, second, before + one) == before + one + other
    ensures ReadAttributes(s, kind, first + second, before) == before + (one + other)
  {
    ReadAttributesInTurn(s, kind, first, second, before);
    JoinedInTurn(before, one, other);
  }

  lemma {:induction false} ChildrenReturnInTurn(s: Schema, kind: Id, first: seq<Xml>, second: seq<Xml>,
                                                before: seq<Field>, one: seq<Field>, other: seq<Field>)
    requires ChildrenReturn(s, kind, first, before, one) && ChildrenReturn(s, kind, second, before + one, other)
    ensures ChildrenReturn(s, kind, first + second, before, one + other)
  {
    ReadChildrenInTurn(s, kind, first, second, before);
    JoinedInTurn(before, one, other);
  }

  lemma {:induction false} FieldTrip(s: Schema, kind: Id, f: Field, before: seq<Field>, data: seq<Field>)
    requires FitsField(s, kind, f) && !Has(before, f.key) && (Starts(f.key, '_') || !Has(data, f.key))
    ensures var e := Emit(s, Some(kind), f.key, f.value);
            && e.Ok?
            && AttributesReturn(s, kind, e.value.attributes, before, RestoredAttribute(s, kind, f))
            && ChildrenReturn(s, kind, e.value.nodes, data, RestoredElement(s, kind, f))
    decreases f.value, 4
  {
    assert before + [] == before && data + [] == data;
    if Starts(f.key, '_') {
      AttributeTrip(s, kind, f, before);
    } else {
      ElementTrip(s, kind, f, data);
    }
  }

  lemma {:induction false} IndexOfFound(data: seq<Field>, key: string, i: nat)
    requires i < |data| && data[i].key == key
    ensures Has(data, key)
  {
  }

  lemma {:induction false} HasLast(data: seq<Field>, more: seq<Field>, key: string)
    requires !Has(data, key) && forall f :: f in more ==> f.key != key
    ensures !Has(data + more, key)
  {
    var i := IndexOf(data + more, key);
    if |data| <= i < |data + more| {
      assert (data + more)[i] in more;
    } else if i < |data| {
      IndexOfFound(data, key, i);
    }
  }

  lemma {:induction false} FieldsTrip(s: Schema, kind: Id, fields: seq<Field>, whole: Value, before: seq<Field>,
                                      data: seq<Field>)
    requires (forall f :: f in fields ==> f.value < whole) && FitsFields(s, kind, fields, whole)
    requires Distinct(Keys(fields)) && forall f :: f in fields ==>
               !Has(before, f.key) && (Starts(f.key, '_') || !Has(data, f.key))
    ensures var e := EmitFields(s, kind, fields, whole);
            && e.Ok?
            && AttributesReturn(s, kind, e.value.attributes, before, RestoredAttributes(s, kind, fields))
            && ChildrenReturn(s, kind, e.value.nodes, data, RestoredElements(s, kind, fields, whole))
    decreases whole, 0, |fields|
  {
    if fields == [] {
      assert before + [] == before && data + [] == data;
    } else {
      var f, rest := fields[0], fields[1..];
      var one, other := RestoredAttribute(s, kind, f), RestoredElement(s, kind, f);
      FieldTrip(s, kind, f, before, data);
      RestIsNew(s, kind, fields, before, data, one, other);
      FieldsTrip(s, kind, rest, whole, before + one, data + other);
      var e, es := Emit(s, Some(kind), f.key, f.value).value, EmitFields(s, kind, rest, whole).value;
      AttributesReturnInTurn(s, kind, e.attributes, es.attributes, before, one, RestoredAttributes(s, kind, rest));
      ChildrenReturnInTurn(s, kind, e.nodes, es.nodes, data, other, RestoredElements(s, kind, rest, whole));
      assert EmitFields(s, kind, fields, whole) == Ok(Join(e, es));
    }
  }

  /** The members after the first are still new once the first has been read. */
  lemma {:induction false} RestIsNew(s: Schema, kind: Id, fields: seq<Field>, before: seq<Field>, data: seq<Field>,
                                     one: seq<Field>, other: seq<Field>)
    requires fields != [] && Distinct(Keys(fields))
    requires forall f :: f in fields ==> !Has(before, f.key) && (Starts(f.key, '_') || !Has(data, f.key))
    requires forall f :: f in one + other ==> f.key == fields[0].key
    ensures Distinct(Keys(fields[1..]))
    ensures forall g :: g in fields[1..] ==>
              !Has(before + one, g.key) && (Starts(g.key, '_') || !Has(data + other, g.key))
  {
    var rest := fields[1..];
    assert Keys(rest) == Keys(fields)[1..];
    forall g | g in rest ensures !Has(before + one, g.key) && (Starts(g.key, '_') || !Has(data + other, g.key)) {
      var i :| 0 <= i < |rest| && rest[i] == g;
      assert Keys(fields)[0] != Keys(fields)[i + 1];
      assert forall f :: f in one || f in other ==> f in one + other;
      HasLast(before, one, g.key);
      if !Starts(g.key, '_') {
        HasLast(data, other, g.key);
      }
    }
  }

  // ----- the nodes of one member -----

  lemma {:induction false} ElementTrip(s: Schema, kind: Id, f: Field, data: seq<Field>)
    requires FitsField(s, kind, f) && !Starts(f.key, '_') && !Has(data, f.key)
    ensures var e := Emit(s, Some(kind), f.key, f.value);
            && e.Ok? && e.value.attributes == []
            && ChildrenReturn(s, kind, e.value.nodes, data, RestoredElement(s, kind, f))
    decreases f.value, 3
  {
    var c := Resolve(s, Some(kind), f.key).value;
    if f.value.Nothing? {
      NothingTrip(s, kind, f, c, data);
    } else if f.value.Many? {
      ManyTrip(s, kind, f, c, data);
    } else {
      var node := ItemNode(s, kind, f.key, c, f.value, data);
      ReadOne(s, kind, node, data);
      SetNewField(data, f.key, Restored(s, c.id, f.value));
      assert RestoredElement(s, kind, f) == [Field(f.key, Restored(s, c.id, f.value))];
    }
  }

  lemma {:induction false} NothingTrip(s: Schema, kind: Id, f: Field, c: Child, data: seq<Field>)
    requires FitsField(s, kind, f) && !Starts(f.key, '_') && !Has(data, f.key) && f.value.Nothing?
    requires Resolve(s, Some(kind), f.key) == Some(c)
    ensures var e := Emit(s, Some(kind), f.key, f.value);
            && e.Ok? && e.value.attributes == []
            && ChildrenReturn(s, kind, e.value.nodes, data, RestoredElement(s, kind, f))
  {
    assert data + [] == data;
    assert Emit(s, Some(kind), f.key, f.value) == Ok(EmitNothing(s, f.key, c));
    if !Optional(s, c) {
      var node := NothingNode(s, f.key, c.id);
      assert ReadAs(s, c.id, node) == Ok(Nothing);
      ReadOne(s, kind, node, data);
      SetNewField(data, f.key, Nothing);
      SetNewField(data, f.key, Many([]));
    }
  }

  /** The node of one item, and what reading it does to the members read so far. */
  lemma {:induction false} ItemNode(s: Schema, kind: Id, tag: string, c: Child, v: Value, data: seq<Field>)
    returns (node: Xml)
    requires Resolve(s, Some(kind), tag) == Some(c) && !Starts(tag, '_') && Rename(tag) == tag && FitsItem(s, c.id, v)
    ensures Emit(s, Some(kind), tag, v) == Ok(Emission([], [node]))
    ensures ReadChild(s, kind, node, data) == Ok(AddChild(data, tag, s.at(c.id).multi, Restored(s, c.id, v)))
    ensures !Restored(s, c.id, v).Nothing? && !Restored(s, c.id, v).Many?
    decreases v, 2
  {
    ItemTrip(s, Some(kind), tag, c, v);
    node := EmitAs(s, Some(kind), tag, c, v).value.nodes[0];
  }

  lemma {:induction false} ManyTrip(s: Schema, kind: Id, f: Field, c: Child, data: seq<Field>)
    requires FitsField(s, kind, f) && !Starts(f.key, '_') && !Has(data, f.key) && f.value.Many?
    requires Resolve(s, Some(kind), f.key) == Some(c)
    ensures var e := Emit(s, Some(kind), f.key, f.value);
            && e.Ok? && e.value.attributes == []
            && ChildrenReturn(s, kind, e.value.nodes, data, RestoredElement(s, kind, f))
    decreases f.value, 1
  {
    var items := f.value.items;
    ManyEmitsItems(s, kind, f, c);
    if items == [] {
      assert data + [] == data;
    } else {
      assert FitsElement(s, c, f.value);
      if s.at(c.id).multi {
        MultiTrip(s, kind, f.key, c, items, data);
      } else {
        ListWithoutMulti(s, kind, f.key, c, items, data);
      }
    }
  }

  lemma {:induction false} ManyEmitsItems(s: Schema, kind: Id, f: Field, c: Child)
    requires Resolve(s, Some(kind), f.key) == Some(c) && f.value.Many? && !Starts(f.key, '_')
    ensures Emit(s, Some(kind), f.key, f.value) == EmitItems(s, Some(kind), f.key, f.value.items)
    ensures RestoredElement(s, kind, f) ==
              if f.value.items == [] then [] else [Field(f.key, Many(RestoredItems(s, c.id, f.value.items)))]
  {
    assert RestoredMember(s, c, f.value) == Many(RestoredItems(s, c.id, f.value.items));
  }

  lemma {:induction false} MultiTrip(s: Schema, kind: Id, tag: string, c: Child, items: seq<Value>, data: seq<Field>)
    requires Resolve(s, Some(kind), tag) == Some(c) && !Starts(tag, '_') && Rename(tag) == tag && !Has(data, tag)
    requires FitsItems(s, c.id, items) && items != [] && s.at(c.id).multi
    ensures ItemsReturn(s, kind, tag, items, data, data + [Field(tag, Many(RestoredItems(s, c.id, items)))])
    decreases items, 1
  {
    var node := ItemNode(s, kind, tag, c, items[0], data);
    var w := Restored(s, c.id, items[0]);
    SetNewField(data, tag, Many([w]));
    ItemsTrip(s, kind, tag, c, items[1..], data, [w]);
    ItemThenItems(s, kind, tag, items, node, data, data + [Field(tag, Many([w]))],
                  data + [Field(tag, Many(RestoredItems(s, c.id, items)))]);
  }

  /** A second node of the same name turns a single member into a list. */
  lemma {:induction false} ListWithoutMulti(s: Schema, kind: Id, tag: string, c: Child, items: seq<Value>,
                                            data: seq<Field>)
    requires Resolve(s, Some(kind), tag) == Some(c) && !Starts(tag, '_') && Rename(tag) == tag && !Has(data, tag)
    requires FitsItems(s, c.id, items) && |items| > 1 && !s.at(c.id).multi
    ensures ItemsReturn(s, kind, tag, items, data, data + [Field(tag, Many(RestoredItems(s, c.id, items)))])
    decreases items, 1
  {
    var w := Restored(s, c.id, items[0]);
    var node := ItemNode(s, kind, tag, c, items[0], data);
    SetNewField(data, tag, w);
    SecondTrip(s, kind, tag, c, items[1..], data, w);
    ItemThenItems(s, kind, tag, items, node, data, data + [Field(tag, w)],
                  data + [Field(tag, Many(RestoredItems(s, c.id, items)))]);
  }

  lemma {:induction false} SecondTrip(s: Schema, kind: Id, tag: string, c: Child, items: seq<Value>, data: seq<Field>,
                                      w: Value)
    requires Resolve(s, Some(kind), tag) == Some(c) && !Starts(tag, '_') && Rename(tag) == tag && !Has(data, tag)
    requires FitsItems(s, c.id, items) && items != [] && !w.Many?
    ensures ItemsReturn(s, kind, tag, items, data + [Field(tag, w)],
                        data + [Field(tag, Many([w] + RestoredItems(s, c.id, items)))])
    decreases items, 1
  {
    var x := Restored(s, c.id, items[0]);
    var node := ItemNode(s, kind, tag, c, items[0], data + [Field(tag, w)]);
    AddToLast(data, tag, s.at(c.id).multi, w, x);
    ItemsTrip(s, kind, tag, c, items[1..], data, [w, x]);
    TwoThenRest(w, x, RestoredItems(s, c.id, items[1..]));
    ItemThenItems(s, kind, tag, items, node, data + [Field(tag, w)], data + [Field(tag, Many([w, x]))],
                  data + [Field(tag, Many([w, x] + RestoredItems(s, c.id, items[1..])))]);
  }

  lemma TwoThenRest(w: Value, x: Value, rest: seq<Value>)
    ensures [w, x] + rest == [w] + ([x] + rest)
  {
  }

  lemma AddToLast(data: seq<Field>, tag: string, multi: bool, was: Value, v: Value)
    requires !Has(data, tag)
    ensures AddChild(data + [Field(tag, was)], tag, multi, v)
            == data + [Field(tag, if was.Many? then Many(was.items + [v]) else Many([was, v]))]
  {
    IndexOfLast(data, Field(tag, was));
    SetLastField(data, tag, was, if was.Many? then Many(was.items + [v]) else Many([was, v]));
  }

  /** The nodes of a list of items turn one collection of members into another. */
  ghost predicate ItemsReturn(s: Schema, kind: Id, tag: string, items: seq<Value>, from: seq<Field>, to: seq<Field>) {
    var e := EmitItems(s, Some(kind), tag, items);
    e.Ok? && e.value.attributes == [] && ReadChildren(s, kind, e.value.nodes, from) == Ok(to)
  }

  lemma {:induction false} ItemThenItems(s: Schema, kind: Id, tag: string, items: seq<Value>, node: Xml,
                                         from: seq<Field>, middle: seq<Field>, to: seq<Field>)
    requires items != [] && Emit(s, Some(kind), tag, items[0]) == Ok(Emission([], [node]))
    requires ReadChild(s, kind, node, from) == Ok(middle) && ItemsReturn(s, kind, tag, items[1..], middle, to)
    ensures ItemsReturn(s, kind, tag, items, from, to)
  {
    var rest := EmitItems(s, Some(kind), tag, items[1..]).value;
    NextNode(s, kind, node, rest.nodes, from);
    assert EmitItems(s, Some(kind), tag, items) == Ok(Join(Emission([], [node]), rest));
  }

  /** Once a member is a list, every further node of its name is added to it. */
  lemma {:induction false} ItemsTrip(s: Schema, kind: Id, tag: string, c: Child, items: seq<Value>, data: seq<Field>,
                                     got: seq<Value>)
    requires Resolve(s, Some(kind), tag) == Some(c) && !Starts(tag, '_') && Rename(tag) == tag && !Has(data, tag)
    requires FitsItems(s, c.id, items)
    ensures ItemsReturn(s, kind, tag, items, data + [Field(tag, Many(got))],
                        data + [Field(tag, Many(got + RestoredItems(s, c.id, items)))])
    decreases items, 0
  {
    if items == [] {
      assert got + [] == got;
    } else {
      var w := Restored(s, c.id, items[0]);
      var node := ItemNode(s, kind, tag, c, items[0], data + [Field(tag, Many(got))]);
      AddToLast(data, tag, s.at(c.id).multi, Many(got), w);
      ItemsTrip(s, kind, tag, c, items[1..], data, got + [w]);
      assert got + [w] + RestoredItems(s, c.id, items[1..]) == got + RestoredItems(s, c.id, items);
      ItemThenItems(s, kind, tag, items, node, data + [Field(tag, Many(got))], data + [Field(tag, Many(got + [w]))],
                    data + [Field(tag, Many(got + RestoredItems(s, c.id, items)))]);
    }
  }

  lemma NextNode(s: Schema, kind: Id, node: Xml, nodes: seq<Xml>, data: seq<Field>)
    ensures ReadChildren(s, kind, [node] + nodes, data) ==
              var next := ReadChild(s, kind, node, data);
              if next.Failed? then next else ReadChildren(s, kind, nodes, next.value)
  {
    assert ([node] + nodes)[1..] == nodes;
  }

  // ----- the whole trip -----

  /** None and empty lists say the same as no member at all. */
  predicate Absent(fields: seq<Field>, key: string) {
    var i := IndexOf(fields, key);
    i == |fields| || fields[i].value == Nothing || fields[i].value == Many([])
  }

  /** The same value, whatever order its members come in. */
  ghost predicate Same(v: Value, w: Value)
    decreases v
  {
    match v
    case Record(text, fields) =>
      && w.Record? && w.text == text
      && forall key: string :: SameMember(fields, w.fields, key, v)
    case Many(items) => w.Many? && |w.items| == |items| && forall i :: 0 <= i < |items| ==> Same(items[i], w.items[i])
    case _ => w == v
  }

  ghost predicate SameMember(fields: seq<Field>, others: seq<Field>, key: string, whole: Value)
    requires forall f :: f in fields ==> f.value < whole
    decreases whole, 0
  {
    || (Absent(fields, key) && Absent(others, key))
    || (Has(fields, key) && Has(others, key)
        && Same(fields[IndexOf(fields, key)].value, others[IndexOf(others, key)].value))
  }

  lemma {:induction false} IndexOfJoined(first: seq<Field>, second: seq<Field>, key: string)
    ensures IndexOf(first + second, key) == if Has(first, key) then IndexOf(first, key)
            else |first| + IndexOf(second, key)
    decreases first
  {
    if first == [] {
      assert first + second == second;
    } else {
      assert (first + second)[1..] == first[1..] + second;
      IndexOfJoined(first[1..], second, key);
    }
  }

  /** The value of a member, None if there is none. */
  function Member(fields: seq<Field>, key: string): Value {
    if Has(fields, key) then fields[IndexOf(fields, key)].value else Nothing
  }

  lemma MemberOfJoined(first: seq<Field>, second: seq<Field>, key: string)
    ensures Has(first + second, key) == (Has(first, key) || Has(second, key))
    ensures Member(first + second, key) == if Has(first, key) then Member(first, key) else Member(second, key)
  {
    IndexOfJoined(first, second, key);
  }

  lemma MemberOfOne(fields: seq<Field>, key: string)
    requires |fields| <= 1
    ensures Has(fields, key) == (|fields| == 1 && fields[0].key == key)
    ensures Has(fields, key) ==> Member(fields, key) == fields[0].value
  {
  }

  lemma {:induction false} NotThere(fields: seq<Field>, key: string)
    requires forall f :: f in fields ==> f.key != key
    ensures !Has(fields, key)
  {
    if fields != [] {
      NotThere(fields[1..], key);
    }
  }

  lemma {:induction false} RestoredAttributeIs(s: Schema, kind: Id, fields: seq<Field>, f: Field)
    requires f in fields && Distinct(Keys(fields))
    ensures var r := RestoredAttributes(s, kind, fields);
            && Has(r, f.key) == (Starts(f.key, '_') && Present(s, kind, f))
            && (Has(r, f.key) ==> Member(r, f.key) == f.value)
    decreases fields
  {
    var g, rest := fields[0], fields[1..];
    assert Keys(rest) == Keys(fields)[1..];
    MemberOfJoined(RestoredAttribute(s, kind, g), RestoredAttributes(s, kind, rest), f.key);
    if g == f {
      RestoredAttributesAreAttributes(s, kind, rest);
      OthersHaveOtherKeys(fields);
      NotThere(RestoredAttributes(s, kind, rest), f.key);
    } else {
      OthersHaveOtherKeys(fields);
      RestoredAttributeIs(s, kind, rest, f);
    }
  }

  lemma OthersHaveOtherKeys(fields: seq<Field>)
    requires fields != [] && Distinct(Keys(fields))
    ensures forall f :: f in fields[1..] ==> f.key != fields[0].key
  {
    forall f | f in fields[1..] ensures f.key != fields[0].key {
      var i :| 1 <= i < |fields| && fields[i] == f;
      assert Keys(fields)[0] != Keys(fields)[i];
    }
  }

  lemma {:induction false} RestoredElementsAreElements(s: Schema, kind: Id, fields: seq<Field>, whole: Value)
    requires forall f :: f in fields ==> f.value < whole
    ensures forall f :: f in RestoredElements(s, kind, fields, whole) ==>
              exists g :: g in fields && g.key == f.key && !Starts(g.key, '_')
    decreases |fields|
  {
    if fields != [] {
      RestoredElementsAreElements(s, kind, fields[1..], whole);
    }
  }

  lemma {:induction false} RestoredElementIs(s: Schema, kind: Id, fields: seq<Field>, f: Field, whole: Value)
    requires f in fields && Distinct(Keys(fields)) && forall g :: g in fields ==> g.value < whole
    requires Resolve(s, Some(kind), f.key).Some?
    ensures var r := RestoredElements(s, kind, fields, whole);
            && Has(r, f.key) == (!Starts(f.key, '_') && Present(s, kind, f))
            && (Has(r, f.key) ==> Member(r, f.key) == RestoredMember(s, Resolve(s, Some(kind), f.key).value, f.value))
    decreases |fields|
  {
    if fields[0] == f {
      FirstRestoredElementIs(s, kind, fields, whole);
    } else {
      var rest := fields[1..];
      assert Keys(rest) == Keys(fields)[1..];
      OthersHaveOtherKeys(fields);
      RestoredElementHas(s, kind, fields[0], f.key);
      RestoredElementIs(s, kind, rest, f, whole);
      MemberOfJoined(RestoredElement(s, kind, fields[0]), RestoredElements(s, kind, rest, whole), f.key);
    }
  }

  lemma {:induction false} FirstRestoredElementIs(s: Schema, kind: Id, fields: seq<Field>, whole: Value)
    requires fields != [] && Distinct(Keys(fields)) && forall g :: g in fields ==> g.value < whole
    requires Resolve(s, Some(kind), fields[0].key).Some?
    ensures var r, f := RestoredElements(s, kind, fields, whole), fields[0];
            && Has(r, f.key) == (!Starts(f.key, '_') && Present(s, kind, f))
            && (Has(r, f.key) ==> Member(r, f.key) == RestoredMember(s, Resolve(s, Some(kind), f.key).value, f.value))
  {
    var f, rest := fields[0], fields[1..];
    OthersHaveOtherKeys(fields);
    RestoredElementsAreElements(s, kind, rest, whole);
    NotThere(RestoredElements(s, kind, rest, whole), f.key);
    RestoredElementHas(s, kind, f, f.key);
    MemberOfJoined(RestoredElement(s, kind, f), RestoredElements(s, kind, rest, whole), f.key);
  }

  lemma {:induction false} RestoredElementHas(s: Schema, kind: Id, g: Field, key: string)
    ensures var r := RestoredElement(s, kind, g);
            && (Has(r, key) ==> g.key == key && Resolve(s, Some(kind), key).Some?
                                && Member(r, key) == RestoredMember(s, Resolve(s, Some(kind), key).value, g.value))
            && (g.key == key && Resolve(s, Some(kind), key).Some?
                ==> Has(r, key) == (!Starts(key, '_') && Present(s, kind, g)))
  {
    MemberOfOne(RestoredElement(s, kind, g), key);
  }

  function BackOf(s: Schema, kind: Id, f: Field): Value
    requires Resolve(s, Some(kind), f.key).Some?
  {
    if Starts(f.key, '_') then f.value else RestoredMember(s, Resolve(s, Some(kind), f.key).value, f.value)
  }

  lemma {:induction false} RestoredMemberIs(s: Schema, kind: Id, arranged: seq<Field>, f: Field, whole: Value)
    requires f in arranged && Distinct(Keys(arranged)) && FitsField(s, kind, f)
             && forall g :: g in arranged ==> g.value < whole
    ensures var r := RestoredAttributes(s, kind, arranged) + RestoredElements(s, kind, arranged, whole);
            && Has(r, f.key) == Present(s, kind, f)
            && (Has(r, f.key) ==> Member(r, f.key) == BackOf(s, kind, f))
  {
    RestoredAttributeIs(s, kind, arranged, f);
    RestoredElementIs(s, kind, arranged, f, whole);
    MemberOfJoined(RestoredAttributes(s, kind, arranged), RestoredElements(s, kind, arranged, whole), f.key);
  }

  /** What comes back is the same value. */
  lemma {:induction false} RestoredIsSame(s: Schema, id: Id, v: Value)
    requires FitsItem(s, id, v)
    ensures Same(v, Restored(s, id, v))
    decreases v, 1
  {
    if v.Record? {
      var kind, arranged := Real(s, id), Arranged(s, Real(s, id), v.text, v.fields);
      var back := RestoredAttributes(s, kind, arranged) + RestoredElements(s, kind, arranged, v);
      forall key: string ensures SameMember(v.fields, back, key, v) {
        if Has(v.fields, key) {
          RestoredMemberIsSame(s, kind, v, arranged, v.fields[IndexOf(v.fields, key)]);
        } else {
          NothingElseRestored(s, kind, v, arranged, key);
        }
      }
    }
  }

  lemma {:induction false} NothingElseRestored(s: Schema, kind: Id, v: Value, arranged: seq<Field>, key: string)
    requires v.Record? && (forall f :: f in arranged ==> f in v.fields) && Distinct(Keys(arranged))
             && !Has(v.fields, key)
    ensures !Has(RestoredAttributes(s, kind, arranged) + RestoredElements(s, kind, arranged, v), key)
  {
    forall f | f in v.fields ensures f.key != key {
      var i :| 0 <= i < |v.fields| && v.fields[i] == f;
    }
    RestoredAttributesAreAttributes(s, kind, arranged);
    RestoredElementsAreElements(s, kind, arranged, v);
    NotThere(RestoredAttributes(s, kind, arranged), key);
    NotThere(RestoredElements(s, kind, arranged, v), key);
    MemberOfJoined(RestoredAttributes(s, kind, arranged), RestoredElements(s, kind, arranged, v), key);
  }

  lemma {:induction false} RestoredMemberIsSame(s: Schema, kind: Id, v: Value, arranged: seq<Field>, f: Field)
    requires v.Record? && arranged == Arranged(s, kind, v.text, v.fields) && Distinct(Keys(arranged))
             && Distinct(AllKeys(v.text, v.fields))
    requires f in v.fields && FitsFields(s, kind, v.fields, v) && Has(v.fields, f.key)
             && v.fields[IndexOf(v.fields, f.key)] == f
    ensures SameMember(v.fields, RestoredAttributes(s, kind, arranged) + RestoredElements(s, kind, arranged, v),
                       f.key, v)
    decreases v, 0
  {
    OneFits(s, kind, v.fields, f, v);
    ArrangedHasAll(s, kind, v.text, v.fields, f);
    RestoredMemberIs(s, kind, arranged, f, v);
    var found := Resolve(s, Some(kind), f.key).value;
    if Present(s, kind, f) && !Starts(f.key, '_') && !f.value.Nothing? {
      FittingElementIsSame(s, found, f.value);
    }
  }

  lemma {:induction false} FittingElementIsSame(s: Schema, c: Child, v: Value)
    requires FitsElement(s, c, v)
    ensures Same(v, Restored(s, c.id, v))
    decreases v, 2
  {
    if v.Many? {
      forall i | 0 <= i < |v.items| ensures Same(v.items[i], Restored(s, c.id, v).items[i]) {
        FittingItemIsSame(s, c.id, v.items, i);
      }
    } else if !v.Nothing? {
      RestoredIsSame(s, c.id, v);
    }
  }

  lemma {:induction false} FittingItemIsSame(s: Schema, id: Id, items: seq<Value>, i: nat)
    requires FitsItems(s, id, items) && i < |items|
    ensures Same(items[i], RestoredItems(s, id, items)[i])
    decreases items, 2
  {
    if i == 0 {
      RestoredIsSame(s, id, items[0]);
    } else {
      FittingItemIsSame(s, id, items[1..], i - 1);
    }
  }

  /** Unmarshalling what a fitting value was marshalled to gives the same value. */
  lemma {:induction false} MarshalledValueReturns(s: Schema, tag: string, c: Child, v: Value)
    requires !Starts(tag, '_') && FitsItem(s, c.id, v)
    ensures EmitAs(s, None, tag, c, v).Ok?
    ensures var e := EmitAs(s, None, tag, c, v).value;
            && e.attributes == [] && |e.nodes| == 1
            && ReadAs(s, c.id, e.nodes[0]).Ok? && Same(v, ReadAs(s, c.id, e.nodes[0]).value)
  {
    ItemTrip(s, None, tag, c, v);
    RestoredIsSame(s, c.id, v);
  }

  // ----- what does not return -----

  /** None on an element comes back as None exactly when it is skipped or read from an element without usable text. */
  lemma {:induction false} NothingReturnsIff(s: Schema, kind: Id, tag: string, c: Child)
    requires Resolve(s, Some(kind), tag) == Some(c) && !Starts(tag, '_') && Rename(tag) == tag
    ensures Emit(s, Some(kind), tag, Nothing).Ok?
    ensures var back := ReadChildren(s, kind, Emit(s, Some(kind), tag, Nothing).value.nodes, []);
            back.Ok? && (Absent(back.value, tag) <==> FitsNothing(s, c))
  {
    assert Emit(s, Some(kind), tag, Nothing) == Ok(EmitNothing(s, tag, c));
    if !Optional(s, c) {
      var node := NothingNode(s, tag, c.id);
      var v := Postprocess(s, c.id, node, []);
      assert ReadAttributes(s, Real(s, c.id), node.attributes, []) == [];
      assert ReadAs(s, c.id, node) == Ok(v);
      assert v.Nothing? <==> FitsNothing(s, c);
      ReadOne(s, kind, node, []);
      AddNewChild([], tag, s.at(c.id).multi, v);
    }
  }

  /** None leaves no node exactly where the element, or a container around it, is optional. */
  lemma NothingIsSkippedIff(s: Schema, parent: Option<Id>, tag: string, c: Child)
    ensures var e := EmitAs(s, parent, tag, c, Nothing);
            && e.Ok? && e.value.attributes == []
            && (e.value.nodes == [] <==> s.at(c.id).optional || c.withinOptional)
  {
  }

  /** An element without text is read as None exactly when its type, or the builtin type it resolves to, may be None. */
  lemma EmptyElementIsNothingIff(s: Schema, id: Id, tag: string)
    ensures var o, actual := s.at(id), s.at(s.at(id).resolved);
            ReadAs(s, id, Plain(tag, None)) ==
              Ok(if o.nillable || (actual.builtin && actual.nillable) then Nothing else Leaf(Text("")))
  {
    assert ReadAttributes(s, Real(s, id), Plain(tag, None).attributes, []) == [];
  }

  /** A scalar comes back as itself exactly when its text fits. */
  lemma {:induction false} ScalarReturnsIff(s: Schema, parent: Option<Id>, tag: string, c: Child, x: Scalar)
    requires s.write(Real(s, c.id), x).Some? && !Starts(tag, '_')
    ensures EmitAs(s, parent, tag, c, Leaf(x)).Ok? && |EmitAs(s, parent, tag, c, Leaf(x)).value.nodes| == 1
    ensures ReadAs(s, c.id, EmitAs(s, parent, tag, c, Leaf(x)).value.nodes[0]) == Ok(Leaf(x)) <==> FitsLeaf(s, c.id, x)
  {
    var node := Plain(tag, s.write(Real(s, c.id), x));
    assert EmitAs(s, parent, tag, c, Leaf(x)) == Ok(Emission([], [node]));
    assert ReadAttributes(s, Real(s, c.id), node.attributes, []) == [];
  }

  /** A list of fitting items comes back as a list exactly when its member may repeat or it has several. */
  lemma {:induction false} ListReturnsIff(s: Schema, kind: Id, tag: string, c: Child, items: seq<Value>)
    requires Resolve(s, Some(kind), tag) == Some(c) && !Starts(tag, '_') && Rename(tag) == tag
    requires FitsItems(s, c.id, items) && items != []
    ensures EmitItems(s, Some(kind), tag, items).Ok?
    ensures var back := ReadChildren(s, kind, EmitItems(s, Some(kind), tag, items).value.nodes, []);
            back == Ok([Field(tag, Many(RestoredItems(s, c.id, items)))]) <==> s.at(c.id).multi || |items| != 1
  {
    assert [] + [Field(tag, Many(RestoredItems(s, c.id, items)))] == [Field(tag, Many(RestoredItems(s, c.id, items)))];
    if s.at(c.id).multi {
      MultiTrip(s, kind, tag, c, items, []);
    } else if |items| != 1 {
      ListWithoutMulti(s, kind, tag, c, items, []);
    } else {
      SingleItemIsNoList(s, kind, tag, c, items);
    }
  }

  lemma {:induction false} SingleItemIsNoList(s: Schema, kind: Id, tag: string, c: Child, items: seq<Value>)
    requires Resolve(s, Some(kind), tag) == Some(c) && !Starts(tag, '_') && Rename(tag) == tag
    requires FitsItems(s, c.id, items) && |items| == 1 && !s.at(c.id).multi
    ensures ItemsReturn(s, kind, tag, items, [], [Field(tag, Restored(s, c.id, items[0]))])
    ensures !Restored(s, c.id, items[0]).Many?
  {
    var node := ItemNode(s, kind, tag, c, items[0], []);
    var w := Restored(s, c.id, items[0]);
    AddNewChild([], tag, false, w);
    assert items[1..] == [] && [] + [Field(tag, w)] == [Field(tag, w)];
    ItemThenItems(s, kind, tag, items, node, [], [Field(tag, w)], [Field(tag, w)]);
  }

  lemma {:induction false} AbsentEmitsNothing(s: Schema, kind: Id, f: Field)
    requires FitsField(s, kind, f) && !Present(s, kind, f)
    ensures Emit(s, Some(kind), f.key, f.value) == Ok(SILENT)
  {
    var found := Resolve(s, Some(kind), f.key).value;
    if f.value.Nothing? {
      assert Emit(s, Some(kind), f.key, Nothing) == Ok(EmitNothing(s, f.key, found));
    } else {
      assert f.value == Many([]) && EmitItems(s, Some(kind), f.key, []) == Ok(SILENT);
    }
  }

  lemma {:induction false} AbsentEmitNothing(s: Schema, kind: Id, fields: seq<Field>, whole: Value)
    requires (forall f :: f in fields ==> f.value < whole) && FitsFields(s, kind, fields, whole)
    requires forall f :: f in fields ==> !Present(s, kind, f)
    ensures EmitFields(s, kind, fields, whole) == Ok(SILENT)
    decreases |fields|
  {
    if fields != [] {
      var f := fields[0];
      AbsentEmitsNothing(s, kind, f);
      AbsentEmitNothing(s, kind, fields[1..], whole);
      JoinedSilent();
    }
  }

  lemma JoinedSilent()
    ensures Join(SILENT, SILENT) == SILENT
  {
    assert SILENT.nodes + SILENT.nodes == [] && SILENT.attributes + SILENT.attributes == [];
  }

  /** An object whose members all leave no trace leaves a node with its value at most, which is read as no object. */
  lemma {:induction false} TracelessObjectIsLost(s: Schema, parent: Option<Id>, tag: string, c: Child, v: Value)
    requires v.Record? && FitsMembers(s, c.id, v) && !LeavesTrace(s, c.id, v)
    ensures EmitAs(s, parent, tag, c, v) == Ok(Emission([], [Plain(tag, v.text)]))
    ensures ReadAs(s, c.id, Plain(tag, v.text)).Ok? && !ReadAs(s, c.id, Plain(tag, v.text)).value.Record?
  {
    var kind, arranged := Real(s, c.id), Arranged(s, Real(s, c.id), v.text, v.fields);
    AllFit(s, kind, v.fields, arranged, v);
    AbsentEmitNothing(s, kind, arranged, v);
    assert NodeOf(tag, v.text, SILENT) == Plain(tag, v.text);
    assert ReadAttributes(s, kind, Plain(tag, v.text).attributes, []) == [];
  }

  /** An object whose members fit comes back, as an object and the same, exactly when one of them leaves a trace. */
  lemma {:induction false} ObjectReturnsIff(s: Schema, parent: Option<Id>, tag: string, c: Child, v: Value)
    requires !Starts(tag, '_') && v.Record? && FitsMembers(s, c.id, v)
    ensures var e := EmitAs(s, parent, tag, c, v);
            && e.Ok? && e.value.attributes == [] && |e.value.nodes| == 1
            && var back := ReadAs(s, c.id, e.value.nodes[0]);
               && back.Ok? && (back.value.Record? <==> LeavesTrace(s, c.id, v))
               && (Same(v, back.value) <==> LeavesTrace(s, c.id, v))
  {
    if LeavesTrace(s, c.id, v) {
      ItemTrip(s, parent, tag, c, v);
      RestoredIsSame(s, c.id, v);
    } else {
      TracelessObjectIsLost(s, parent, tag, c, v);
    }
  }

  /** An object without members comes back as None or as the empty string. */
  lemma {:induction false} EmptyObjectIsLost(s: Schema, parent: Option<Id>, tag: string, c: Child)
    ensures EmitAs(s, parent, tag, c, Record(None, [])) == Ok(Emission([], [Plain(tag, None)]))
    ensures ReadAs(s, c.id, Plain(tag, None)) == Ok(if ReadsNothing(s, c.id) then Nothing else Leaf(Text("")))
  {
    var kind, v := Real(s, c.id), Record(None, []);
    assert Arranged(s, kind, None, []) == [] by {
      NothingToPick(EmissionKeys(s, kind, None, []));
    }
    assert EmitFields(s, kind, [], v) == Ok(SILENT);
    assert NodeOf(tag, None, SILENT) == Plain(tag, None);
  }

  lemma {:induction false} NothingToPick(keys: seq<string>)
    ensures Pick(keys, []) == []
  {
    if keys != [] {
      NothingToPick(keys[1..]);
    }
  }
}
