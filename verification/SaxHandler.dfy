/**
 The handler that builds a tree from SAX events (sax/parser.py), and what it makes of a printed tree.
 */
module SaxHandler {
  import opened Options
  import opened XmlTree
  import opened EntityEncoder
  import opened SaxPrinter

  /** White space as Python's strip knows it. */
  predicate IsSpace(c: char) {
    var n := c as int;
    9 <= n <= 13 || 28 <= n <= 32 || n == 133 || n == 160 || n == 5760 || 8192 <= n <= 8202
    || n == 8232 || n == 8233 || n == 8239 || n == 8287 || n == 12288
  }

  function StripLeft(s: string): string {
    if s != "" && IsSpace(s[0]) then StripLeft(s[1..]) else s
  }

  function StripRight(s: string): string {
    if s != "" && IsSpace(s[|s| - 1]) then StripRight(s[..|s| - 1]) else s
  }

  function Strip(s: string): string {
    StripRight(StripLeft(s))
  }

  /** An element that has started, and the pieces of text collected for it so far. */
  datatype Open = Open(node: Tree, buffer: seq<string>)

  /** The last element in the document, and the elements that have not ended, the innermost last. */
  datatype State = State(root: Option<Tree>, nodes: seq<Open>) | Malformed

  const START := State(None, [])

  function PrefixPart(name: string): Option<string> {
    if HasPrefix(name) then Some(PrefixOf(name)) else None
  }

  function NamePart(name: string): string {
    if HasPrefix(name) then LocalOf(name) else name
  }

  /** Attributes that declare a namespace are not kept; an empty default is ignored. */
  function AddAttribute(node: Tree, a: Named): Tree {
    var prefix, name := PrefixPart(a.name), NamePart(a.name);
    if name == "xmlns" then if a.value == "" then node else node.(expns := Some(a.value))
    else if prefix == Some("xmlns") then node.(nsprefixes := node.nsprefixes[name := a.value])
    else node.(attributes := node.attributes + [Attribute(prefix, name, a.value)])
  }

  function AddAttributes(node: Tree, attributes: seq<Named>): Tree
    decreases attributes
  {
    if attributes == [] then node else AddAttributes(AddAttribute(node, attributes[0]), attributes[1..])
  }

  function NewNode(name: string): Tree {
    Element(PrefixPart(name), NamePart(name), None, map[], [], None, [])
  }

  function Joined(pieces: seq<string>): string {
    if pieces == [] then "" else Joined(pieces[..|pieces| - 1]) + pieces[|pieces| - 1]
  }

  /** Text is set if any was collected, and trimmed beside children unless it is empty. */
  function Closed(o: Open): Tree {
    var text := if o.buffer == [] then None else Some(Joined(o.buffer));
    o.node.(text := if o.node.children != [] && text.Some? && text.value != "" then Some(Strip(text.value)) else text)
  }

  /** A finished element becomes a child of the one around it, or the root. */
  function Finish(s: State, t: Tree): State
    requires s.State?
  {
    if s.nodes == [] then State(Some(t), [])
    else
      var top := s.nodes[|s.nodes| - 1];
      State(s.root, s.nodes[..|s.nodes| - 1] + [top.(node := top.node.(children := top.node.children + [t]))])
  }

  function Handle(s: State, e: Event): State {
    if s.Malformed? then s
    else
      match e
      case StartElement(name, attributes) => State(s.root,
                                                   s.nodes + [Open(AddAttributes(NewNode(name), attributes), [])])
      case Characters(content) =>
        if s.nodes == [] then Malformed
        else
          var top := s.nodes[|s.nodes| - 1];
          State(s.root, s.nodes[..|s.nodes| - 1] + [top.(buffer := top.buffer + [content])])
      case EndElement(name) =>
        if s.nodes == [] || NameOf(s.nodes[|s.nodes| - 1].node) != name then Malformed
        else Finish(State(s.root, s.nodes[..|s.nodes| - 1]), Closed(s.nodes[|s.nodes| - 1]))
  }

  function HandleAll(s: State, events: seq<Event>): State
    decreases events
  {
    if events == [] then s else HandleAll(Handle(s, events[0]), events[1..])
  }

  lemma {:induction false} HandleInTurn(s: State, first: seq<Event>, second: seq<Event>)
    ensures HandleAll(s, first + second) == HandleAll(HandleAll(s, first), second)
    decreases first
  {
    if first == [] {
      assert first + second == second;
    } else {
      assert (first + second)[1..] == first[1..] + second;
      HandleInTurn(Handle(s, first[0]), first[1..], second);
    }
  }

  lemma HandleOne(s: State, e: Event)
    ensures HandleAll(s, [e]) == Handle(s, e)
  {
    assert [e][1..] == [];
  }

  // ----- what comes back of a printed tree -----

  predicate SplitsAs(prefix: Option<string>, name: string) {
    if prefix.None? then ':' !in name else ':' !in prefix.value
  }

  predicate Clean(uri: string) {
    forall i :: 0 <= i < |uri| ==> !IsSpecial(uri[i])
  }

  predicate PrintableAttribute(a: Attribute) {
    SplitsAs(a.prefix, a.name) && a.name != "xmlns" && a.prefix != Some("xmlns") && !ContainsEntity(a.value)
  }

  /** Text holds no entities, and beside children no outer white space. */
  predicate PrintableText(t: Tree) {
    t.text.Some? ==> !ContainsEntity(t.text.value) && (t.children != [] ==> Strip(t.text.value) == t.text.value)
  }

  predicate PrintableDeclarations(t: Tree) {
    && (t.expns.Some? ==> Clean(t.expns.value))
    && (forall p :: p in t.nsprefixes ==> p != "xmlns" && Clean(t.nsprefixes[p]))
    && ("xml" in t.nsprefixes ==> t.nsprefixes["xml"] == XML_URI)
  }

  predicate Printable(t: Tree) {
    && SplitsAs(t.prefix, t.name) && (forall i :: 0 <= i < |t.attributes| ==> PrintableAttribute(t.attributes[i]))
    && PrintableText(t) && PrintableDeclarations(t) && AllPrintable(t.children)
  }

  predicate AllPrintable(ts: seq<Tree>) {
    ts == [] || (Printable(ts[0]) && AllPrintable(ts[1..]))
  }

  /** The text that comes back: empty text is lost, and in the indented form it stands beside any children. */
  function ReparsedText(t: Tree, indent: Option<nat>): Option<string> {
    if t.text.Some? && t.text.value != "" then t.text
    else if t.children != [] && indent.Some? then Some("")
    else None
  }

  /** The default namespace that comes back: none when it is inherited or empty. */
  function DefaultBack(t: Tree, outer: Outer): Option<string> {
    if DeclaresDefault(t, outer) && t.expns.value != "" then t.expns else None
  }

  /** The tree that comes back: inherited declarations are gone. */
  function Reparsed(t: Tree, env: Env, outer: Outer, indent: Option<nat>): Tree
    decreases t, 1
  {
    Element(t.prefix, t.name, DefaultBack(t, outer), DeclaredPrefixes(t, outer),
            t.attributes, ReparsedText(t, indent),
              ReparsedAll(t.children, Inside(t, env), Within(t, env), Deeper(indent)))
  }

  function ReparsedAll(ts: seq<Tree>, env: Env, outer: Outer, indent: Option<nat>): (r: seq<Tree>)
    ensures |r| == |ts|
    decreases ts, 0
  {
    if ts == [] then [] else [Reparsed(ts[0], env, outer, indent)] + ReparsedAll(ts[1..], env, outer, indent)
  }

  // ----- a start tag gives back the element's own parts -----

  lemma {:induction false} NoColon(name: string)
    requires ':' !in name
    ensures !HasPrefix(name)
  {
    if name != "" {
      NoColon(name[1..]);
    }
  }

  lemma SplitOfName(prefix: Option<string>, name: string)
    requires SplitsAs(prefix, name)
    ensures PrefixPart(QualifiedName(prefix, name)) == prefix && NamePart(QualifiedName(prefix, name)) == name
  {
    if prefix.Some? {
      SplitOfQualified(prefix.value, name);
    } else {
      NoColon(name);
    }
  }

  lemma CleanIsDecoded(uri: string)
    requires Clean(uri)
    ensures Decoded(uri) == uri
  {
    NothingToDecode(uri);
  }

  lemma ValueComesBack(value: string)
    requires !ContainsEntity(value)
    ensures Decoded(Encoded(value)) == value
  {
    DecodedEncoded(value);
    DecodedLength(value);
  }

  lemma {:induction false} AddInTurn(node: Tree, first: seq<Named>, second: seq<Named>)
    ensures AddAttributes(node, first + second) == AddAttributes(AddAttributes(node, first), second)
    decreases first
  {
    if first == [] {
      assert first + second == second;
    } else {
      assert (first + second)[1..] == first[1..] + second;
      AddInTurn(AddAttribute(node, first[0]), first[1..], second);
    }
  }

  lemma AddOne(node: Tree, a: Named)
    ensures AddAttributes(node, [a]) == AddAttribute(node, a)
  {
    assert [a][1..] == [];
  }

  lemma AddDefault(node: Tree, t: Tree, outer: Outer)
    requires PrintableDeclarations(t)
    ensures AddAttributes(node, DefaultDeclaration(t, outer)) ==
              if DefaultBack(t, outer).Some? then node.(expns := t.expns) else node
  {
    if DeclaresDefault(t, outer) {
      CleanIsDecoded(t.expns.value);
      NoColon("xmlns");
      AddOne(node, Named("xmlns", t.expns.value));
    }
  }

  /** The declared prefixes among some, added to a table. */
  function Added(table: map<string, string>, t: Tree, outer: Outer, prefixes: seq<string>): map<string, string>
    decreases prefixes
  {
    if prefixes == [] then table
    else Added(if DeclaresPrefix(t, outer, prefixes[0]) then table[prefixes[0] := t.nsprefixes[prefixes[0]]] else table,
               t, outer, prefixes[1..])
  }

  lemma {:induction false} AddPrefixes(node: Tree, t: Tree, outer: Outer, prefixes: seq<string>)
    requires PrintableDeclarations(t)
    ensures AddAttributes(node, PrefixDeclarations(t, outer, prefixes))
            == node.(nsprefixes := Added(node.nsprefixes, t, outer, prefixes))
    decreases prefixes
  {
    if prefixes != [] {
      var p, rest := prefixes[0], PrefixDeclarations(t, outer, prefixes[1..]);
      if DeclaresPrefix(t, outer, p) {
        CleanIsDecoded(t.nsprefixes[p]);
        SplitOfQualified("xmlns", p);
        var a := Named(Qualify("xmlns", p), t.nsprefixes[p]);
        assert ([a] + rest)[1..] == rest;
        AddPrefixes(AddAttribute(node, a), t, outer, prefixes[1..]);
      } else {
        assert [] + rest == rest;
        AddPrefixes(node, t, outer, prefixes[1..]);
      }
    }
  }

  lemma {:induction false} AddedHas(table: map<string, string>, t: Tree, outer: Outer, prefixes: seq<string>, p: string)
    ensures var r := Added(table, t, outer, prefixes);
            if p in prefixes && DeclaresPrefix(t, outer, p) then p in r && r[p] == t.nsprefixes[p]
            else (p in r <==> p in table) && (p in table ==> r[p] == table[p])
    decreases prefixes
  {
    if prefixes != [] {
      var q := prefixes[0];
      AddedHas(if DeclaresPrefix(t, outer, q) then table[q := t.nsprefixes[q]] else table, t, outer, prefixes[1..], p);
    }
  }

  lemma {:induction false} AddReal(node: Tree, attributes: seq<Attribute>)
    requires forall i :: 0 <= i < |attributes| ==> PrintableAttribute(attributes[i])
    ensures AddAttributes(node, AllNamed(attributes)) == node.(attributes := node.attributes + attributes)
    decreases attributes
  {
    if attributes == [] {
      assert node.attributes + [] == node.attributes;
    } else {
      var a, rest := attributes[0], AllNamed(attributes[1..]);
      AddFirst(node, NamedOf(a), rest);
      AddOneReal(node, a);
      AddReal(node.(attributes := node.attributes + [a]), attributes[1..]);
      assert (node.attributes + [a]) + attributes[1..] == node.attributes + attributes;
    }
  }

  lemma AddFirst(node: Tree, a: Named, rest: seq<Named>)
    ensures AddAttributes(node, [a] + rest) == AddAttributes(AddAttribute(node, a), rest)
  {
    assert ([a] + rest)[0] == a && ([a] + rest)[1..] == rest;
  }

  lemma AddOneReal(node: Tree, a: Attribute)
    requires PrintableAttribute(a)
    ensures AddAttribute(node, NamedOf(a)) == node.(attributes := node.attributes + [a])
  {
    SplitOfName(a.prefix, a.name);
    ValueComesBack(a.value);
  }

  /** The declared prefixes, whatever order they are listed in. */
  function DeclaredPrefixes(t: Tree, outer: Outer): map<string, string> {
    map p | p in t.nsprefixes && DeclaresPrefix(t, outer, p) :: t.nsprefixes[p]
  }

  lemma AddedAll(t: Tree, outer: Outer, order: Order)
    requires ListsKeys(order)
    ensures Added(map[], t, outer, order(t.nsprefixes)) == DeclaredPrefixes(t, outer)
  {
    var r := Added(map[], t, outer, order(t.nsprefixes));
    assert IsListing(order(t.nsprefixes), t.nsprefixes);
    forall p: string ensures (p in r <==> p in DeclaredPrefixes(t, outer)) && (p in r ==> r[p] == t.nsprefixes[p]) {
      AddedHas(map[], t, outer, order(t.nsprefixes), p);
    }
  }

  /** The element as it is when its start tag has been handled. */
  function Started(t: Tree, outer: Outer): Tree {
    Element(t.prefix, t.name, DefaultBack(t, outer), DeclaredPrefixes(t, outer), t.attributes, None, [])
  }

  lemma {:induction false} StartHandled(t: Tree, outer: Outer, order: Order)
    requires Printable(t) && ListsKeys(order)
    ensures AddAttributes(NewNode(NameOf(t)), StartOf(t, outer, order).attributes) == Started(t, outer)
  {
    SplitOfName(t.prefix, t.name);
    var node := NewNode(NameOf(t));
    var default, prefixes := DefaultDeclaration(t, outer), PrefixDeclarations(t, outer, order(t.nsprefixes));
    AddInTurn(node, default + prefixes, AllNamed(t.attributes));
    AddInTurn(node, default, prefixes);
    AddDefault(node, t, outer);
    var one := AddAttributes(node, default);
    AddPrefixes(one, t, outer, order(t.nsprefixes));
    AddedAll(t, outer, order);
    var two := AddAttributes(one, prefixes);
    AddReal(two, t.attributes);
    assert [] + t.attributes == t.attributes;
  }

  // ----- white space beside children -----

  ghost predicate Blank(s: string) {
    forall i :: 0 <= i < |s| ==> IsSpace(s[i])
  }

  lemma {:induction false} StripRightOfBlank(s: string, blank: string)
    requires Blank(blank)
    ensures StripRight(s + blank) == StripRight(s)
    decreases blank
  {
    if blank == "" {
      assert s + blank == s;
    } else {
      var n := |blank| - 1;
      assert (s + blank)[..|s + blank| - 1] == s + blank[..n];
      StripRightOfBlank(s, blank[..n]);
    }
  }

  lemma {:induction false} StripLeftOfBlank(blank: string)
    requires Blank(blank)
    ensures StripLeft(blank) == ""
  {
    if blank != "" {
      StripLeftOfBlank(blank[1..]);
    }
  }

  lemma {:induction false} StripLeftKeeps(s: string, rest: string)
    requires s != "" && !IsSpace(s[0])
    ensures StripLeft(s + rest) == s + rest
  {
  }

  lemma {:induction false} StripRightSplits(s: string) returns (right: string)
    ensures s == StripRight(s) + right && Blank(right)
    ensures StripRight(s) != "" ==> !IsSpace(StripRight(s)[|StripRight(s)| - 1])
  {
    right := "";
    if s != "" && IsSpace(s[|s| - 1]) {
      right := StripRightSplits(s[..|s| - 1]);
      right := right + [s[|s| - 1]];
    }
  }

  lemma {:induction false} StripLeftSplits(s: string) returns (left: string)
    ensures s == left + StripLeft(s) && Blank(left)
    ensures StripLeft(s) != "" ==> !IsSpace(StripLeft(s)[0])
  {
    left := "";
    if s != "" && IsSpace(s[0]) {
      left := StripLeftSplits(s[1..]);
      left := [s[0]] + left;
    }
  }

  /** Stripping takes away just the white space at both ends. */
  lemma StripSplits(s: string) returns (left: string, right: string)
    ensures s == left + Strip(s) + right && Blank(left) && Blank(right)
    ensures var r := Strip(s); r != "" ==> !IsSpace(r[0]) && !IsSpace(r[|r| - 1])
  {
    left := StripLeftSplits(s);
    right := StripRightSplits(StripLeft(s));
    assert left + (Strip(s) + right) == left + Strip(s) + right;
    assert Strip(s) != "" ==> Strip(s)[0] == StripLeft(s)[0];
  }

  /** Blanks after a text that has none outside are stripped, and blanks alone vanish. */
  lemma StripAfter(text: string, blank: string)
    requires Strip(text) == text && Blank(blank)
    ensures Strip(text + blank) == text
  {
    if text == "" {
      assert text + blank == blank;
      StripLeftOfBlank(blank);
    } else {
      NotBlankFirst(text);
      StripLeftKeeps(text, blank);
      assert text + "" == text;
      StripLeftKeeps(text, "");
      StripRightOfBlank(text, blank);
    }
  }

  lemma {:induction false} StripRightShorter(s: string)
    ensures |StripRight(s)| <= |s|
  {
    if s != "" && IsSpace(s[|s| - 1]) {
      StripRightShorter(s[..|s| - 1]);
    }
  }

  lemma {:induction false} StripLeftShorter(s: string)
    ensures |StripLeft(s)| <= |s| && (s != "" && IsSpace(s[0]) ==> |StripLeft(s)| < |s|)
  {
    if s != "" && IsSpace(s[0]) {
      StripLeftShorter(s[1..]);
    }
  }

  lemma NotBlankFirst(text: string)
    requires text != "" && Strip(text) == text
    ensures !IsSpace(text[0])
  {
    StripLeftShorter(text);
    StripRightShorter(StripLeft(text));
  }

  // ----- the events of a tree build the tree -----

  function WithTop(s: State, o: Open): State
    requires s.State?
  {
    State(s.root, s.nodes + [o])
  }

  lemma TopOf(s: State, o: Open)
    requires s.State?
    ensures var w := WithTop(s, o);
            && w.nodes != [] && w.nodes[|w.nodes| - 1] == o && w.nodes[..|w.nodes| - 1] == s.nodes
  {
  }

  /** The pieces of white space around some children. */
  function Pieces(indent: Option<nat>, n: nat): (r: seq<string>)
    ensures |r| == if indent.None? then 0 else n
    ensures indent.Some? ==> forall i :: 0 <= i < n ==> r[i] == "\n" + Spaces(3 * indent.value)
  {
    if indent.None? then [] else seq(n, i => "\n" + Spaces(3 * indent.value))
  }

  lemma GapHandled(s: State, o: Open, indent: Option<nat>)
    requires s.State?
    ensures HandleAll(WithTop(s, o), Gap(indent)) == WithTop(s, o.(buffer := o.buffer + Pieces(indent, 1)))
  {
    TopOf(s, o);
    if indent.Some? {
      HandleOne(WithTop(s, o), Gap(indent)[0]);
      assert Pieces(indent, 1) == ["\n" + Spaces(3 * indent.value)];
    } else {
      assert o.buffer + [] == o.buffer;
    }
  }

  function TextPieces(t: Tree): seq<string> {
    if t.text.Some? && t.text.value != "" then [t.text.value] else []
  }

  lemma TextHandled(s: State, o: Open, t: Tree)
    requires s.State? && PrintableText(t) && o.buffer == []
    ensures HandleAll(WithTop(s, o), TextEvents(t.text)) == WithTop(s, o.(buffer := TextPieces(t)))
  {
    TopOf(s, o);
    if TextEvents(t.text) != [] {
      ValueComesBack(t.text.value);
      assert TextEvents(t.text) == [Characters(t.text.value)] && [] + [t.text.value] == [t.text.value];
      HandleOne(WithTop(s, o), Characters(t.text.value));
    }
  }

  lemma FinishOnTop(s: State, o: Open, t: Tree)
    requires s.State?
    ensures Finish(WithTop(s, o), t) == WithTop(s, o.(node := o.node.(children := o.node.children + [t])))
  {
    TopOf(s, o);
  }

  lemma EndHandled(s: State, o: Open)
    requires s.State?
    ensures HandleAll(WithTop(s, o), [EndElement(NameOf(o.node))]) == Finish(s, Closed(o))
  {
    TopOf(s, o);
    HandleOne(WithTop(s, o), EndElement(NameOf(o.node)));
    assert State(s.root, s.nodes) == s;
  }

  lemma {:induction false} ElementHandled(s: State, t: Tree, env: Env, outer: Outer, indent: Option<nat>, order: Order)
    requires s.State? && Printable(t) && ListsKeys(order)
    ensures HandleAll(s, Events(t, env, outer, indent, order)) == Finish(s, Reparsed(t, env, outer, indent))
    decreases t, 1
  {
    var start := StartOf(t, outer, order);
    var text, kids := TextEvents(t.text), ChildEvents(t.children, Inside(t, env), Within(t, env), Deeper(indent),
                                                      order);
    var gap := if t.children == [] then [] else Gap(indent);
    var end := [EndElement(NameOf(t))];
    var o := Open(Started(t, outer), []);
    HandleInTurn(s, [start], text + (kids + (gap + end)));
    HandleOne(s, start);
    StartHandled(t, outer, order);
    assert HandleAll(s, [start]) == WithTop(s, o);
    HandleInTurn(WithTop(s, o), text, kids + (gap + end));
    TextHandled(s, o, t);
    ContentHandled(s, o.(buffer := TextPieces(t)), t, env, outer, indent, order);
  }

  // ----- the text of an element that ends -----

  lemma {:induction false} JoinedInTurn(first: seq<string>, second: seq<string>)
    ensures Joined(first + second) == Joined(first) + Joined(second)
    decreases second
  {
    if second == [] {
      assert first + second == first;
    } else {
      var all := first + second;
      assert all[..|all| - 1] == first + second[..|second| - 1];
      JoinedInTurn(first, second[..|second| - 1]);
    }
  }

  lemma {:induction false} JoinedBlanks(pieces: seq<string>)
    requires forall i :: 0 <= i < |pieces| ==> Blank(pieces[i])
    ensures Blank(Joined(pieces))
  {
    if pieces != [] {
      JoinedBlanks(pieces[..|pieces| - 1]);
    }
  }

  lemma PiecesAreBlank(indent: Option<nat>, n: nat)
    ensures Blank(Joined(Pieces(indent, n)))
  {
    forall i | 0 <= i < |Pieces(indent, n)| ensures Blank(Pieces(indent, n)[i]) {
    }
    JoinedBlanks(Pieces(indent, n));
  }

  /** The white space collected around the children of an element. */
  function Around(t: Tree, indent: Option<nat>): seq<string> {
    Pieces(Deeper(indent), |t.children|) + if t.children == [] then [] else Pieces(indent, 1)
  }

  lemma AroundIsBlank(t: Tree, indent: Option<nat>)
    ensures Blank(Joined(Around(t, indent)))
    ensures Around(t, indent) == [] <==> t.children == [] || indent.None?
  {
    PiecesAreBlank(Deeper(indent), |t.children|);
    PiecesAreBlank(indent, 1);
    if t.children != [] {
      JoinedInTurn(Pieces(Deeper(indent), |t.children|), Pieces(indent, 1));
    }
  }

  lemma ClosedText(t: Tree, indent: Option<nat>, o: Open)
    requires PrintableText(t) && o.buffer == TextPieces(t) + Around(t, indent) && |o.node.children| == |t.children|
    ensures Closed(o).text == ReparsedText(t, indent)
  {
    JoinedTextPieces(t);
    if t.children == [] {
      assert o.buffer == TextPieces(t);
    } else {
      ClosedAroundChildren(t, indent);
      assert o.buffer == [] <==> TextPieces(t) == [] && Around(t, indent) == [];
      AroundIsBlank(t, indent);
    }
  }

  /** The text collected around children, once trimmed. */
  lemma ClosedAroundChildren(t: Tree, indent: Option<nat>)
    requires PrintableText(t) && t.children != []
    ensures Strip(Joined(TextPieces(t) + Around(t, indent))) == Joined(TextPieces(t))
  {
    AroundIsBlank(t, indent);
    JoinedInTurn(TextPieces(t), Around(t, indent));
    JoinedTextPieces(t);
    assert Strip("") == "";
    StripAfter(Joined(TextPieces(t)), Joined(Around(t, indent)));
  }

  lemma JoinedTextPieces(t: Tree)
    ensures Joined(TextPieces(t)) == if t.text.Some? then t.text.value else ""
  {
    if TextPieces(t) != [] {
      assert TextPieces(t)[..0] == [] && Joined([]) + t.text.value == t.text.value;
    }
  }

  lemma {:induction false} ContentHandled(s: State, o: Open, t: Tree, env: Env, outer: Outer, indent: Option<nat>,
                                          order: Order)
    requires s.State? && Printable(t) && ListsKeys(order) && o == Open(Started(t, outer), TextPieces(t))
    ensures var kids := ChildEvents(t.children, Inside(t, env), Within(t, env), Deeper(indent), order);
            var gap := if t.children == [] then [] else Gap(indent);
            HandleAll(WithTop(s, o), kids + (gap + [EndElement(NameOf(t))]))
              == Finish(s, Reparsed(t, env, outer, indent))
    decreases t, 0
  {
    var kids := ChildEvents(t.children, Inside(t, env), Within(t, env), Deeper(indent), order);
    var gap := if t.children == [] then [] else Gap(indent);
    var end := [EndElement(NameOf(t))];
    HandleInTurn(WithTop(s, o), kids, gap + end);
    ChildrenHandled(s, o, t.children, Inside(t, env), Within(t, env), Deeper(indent), order);
    var back := ReparsedAll(t.children, Inside(t, env), Within(t, env), Deeper(indent));
    assert o.node.children + back == back;
    TailHandled(s, Open(o.node.(children := back), o.buffer + Pieces(Deeper(indent), |t.children|)), t, indent);
    ClosedAsReparsed(t, env, outer, indent);
  }

  lemma {:induction false} TailHandled(s: State, o: Open, t: Tree, indent: Option<nat>)
    requires s.State? && NameOf(o.node) == NameOf(t) && o.buffer == TextPieces(t) + Pieces(Deeper(indent), |t.children|)
    ensures var gap := if t.children == [] then [] else Gap(indent);
            HandleAll(WithTop(s, o), gap + [EndElement(NameOf(t))])
              == Finish(s, Closed(Open(o.node, TextPieces(t) + Around(t, indent))))
  {
    var gap, end := if t.children == [] then [] else Gap(indent), [EndElement(NameOf(t))];
    var last := Open(o.node, TextPieces(t) + Around(t, indent));
    HandleInTurn(WithTop(s, o), gap, end);
    if t.children == [] {
      assert last.buffer == o.buffer && HandleAll(WithTop(s, o), []) == WithTop(s, o);
    } else {
      GapHandled(s, o, indent);
      assert last.buffer == o.buffer + Pieces(indent, 1);
    }
    EndHandled(s, last);
  }

  lemma {:induction false} ClosedAsReparsed(t: Tree, env: Env, outer: Outer, indent: Option<nat>)
    requires PrintableText(t)
    ensures var back := ReparsedAll(t.children, Inside(t, env), Within(t, env), Deeper(indent));
            Closed(Open(Started(t, outer).(children := back), TextPieces(t) + Around(t, indent)))
              == Reparsed(t, env, outer, indent)
  {
    var back := ReparsedAll(t.children, Inside(t, env), Within(t, env), Deeper(indent));
    ClosedText(t, indent, Open(Started(t, outer).(children := back), TextPieces(t) + Around(t, indent)));
  }

  lemma {:induction false} ChildrenHandled(s: State, o: Open, ts: seq<Tree>, env: Env, outer: Outer,
                                           indent: Option<nat>, order: Order)
    requires s.State? && AllPrintable(ts) && ListsKeys(order)
    ensures HandleAll(WithTop(s, o), ChildEvents(ts, env, outer, indent, order))
            == WithTop(s, More(o, ReparsedAll(ts, env, outer, indent), Pieces(indent, |ts|)))
    decreases ts, 0
  {
    if ts == [] {
      assert o.node.children + [] == o.node.children && o.buffer + Pieces(indent, 0) == o.buffer;
    } else {
      ChildHandled(s, o, ts, env, outer, indent, order);
      var t := Reparsed(ts[0], env, outer, indent);
      var q := More(o, [t], Pieces(indent, 1));
      ChildrenHandled(s, q, ts[1..], env, outer, indent, order);
      MoreInTurn(o, t, indent, ReparsedAll(ts[1..], env, outer, indent), |ts| - 1);
    }
  }

  /** An open element with more children and more pieces of text. */
  function More(o: Open, children: seq<Tree>, pieces: seq<string>): Open {
    Open(o.node.(children := o.node.children + children), o.buffer + pieces)
  }

  lemma MoreInTurn(o: Open, t: Tree, indent: Option<nat>, rest: seq<Tree>, n: nat)
    ensures More(More(o, [t], Pieces(indent, 1)), rest, Pieces(indent, n)) == More(o, [t] + rest, Pieces(indent, n + 1))
  {
    assert o.node.children + [t] + rest == o.node.children + ([t] + rest);
    assert o.buffer + Pieces(indent, 1) + Pieces(indent, n) == o.buffer + Pieces(indent, n + 1);
  }

  lemma {:induction false} ChildHandled(s: State, o: Open, ts: seq<Tree>, env: Env, outer: Outer, indent: Option<nat>,
                                        order: Order)
    requires s.State? && AllPrintable(ts) && ListsKeys(order) && ts != []
    ensures HandleAll(WithTop(s, o), ChildEvents(ts, env, outer, indent, order))
            == HandleAll(WithTop(s, More(o, [Reparsed(ts[0], env, outer, indent)], Pieces(indent, 1))),
                         ChildEvents(ts[1..], env, outer, indent, order))
    decreases ts[0], 2
  {
    var first, rest := Events(ts[0], env, outer, indent, order), ChildEvents(ts[1..], env, outer, indent, order);
    HandleInTurn(WithTop(s, o), Gap(indent), first + rest);
    GapHandled(s, o, indent);
    var p := o.(buffer := o.buffer + Pieces(indent, 1));
    HandleInTurn(WithTop(s, p), first, rest);
    ElementHandled(WithTop(s, p), ts[0], env, outer, indent, order);
    FinishOnTop(s, p, Reparsed(ts[0], env, outer, indent));
  }

  // ----- the names that come back -----

  /** Names with empty text counted as none. */
  function Emptied(n: NameTree): NameTree {
    n.(text := if n.text == Some("") then None else n.text, children := EmptiedAll(n.children))
  }

  function EmptiedAll(ns: seq<NameTree>): seq<NameTree> {
    if ns == [] then [] else [Emptied(ns[0])] + EmptiedAll(ns[1..])
  }

  /** What an element sees of its parent agrees with its environment. */
  ghost predicate Agrees(outer: Outer, env: Env) {
    if outer.Root? then env == OUTSIDE
    else
      && outer.scope == env.scope && (outer.expns.Some? ==> env.default == outer.expns)
      && "xml" in env.scope && env.scope["xml"] == XML_URI
  }

  /** Where the parsed element stands: the prefixes are the same, and so is the default unless it is empty. */
  ghost predicate Recovers(back: Env, env: Env) {
    back.scope == env.scope && back.default != Some("") && (env.default != Some("") ==> back.default == env.default)
  }

  /** Dropping inherited declarations leaves every prefix as it was, and every default namespace but an empty one. */
  lemma {:induction false} SameInside(t: Tree, env: Env, outer: Outer, indent: Option<nat>, back: Env)
    requires PrintableDeclarations(t) && Agrees(outer, env) && Recovers(back, env)
    ensures Recovers(Inside(Reparsed(t, env, outer, indent), back), Inside(t, env))
    ensures Agrees(Within(t, env), Inside(t, env))
  {
    var declared := DeclaredPrefixes(t, outer);
    var a, b := ScopeAt(env.scope, declared), ScopeAt(env.scope, t.nsprefixes);
    forall p: string ensures (p in a <==> p in b) && (p in a ==> a[p] == b[p]) {
      if p in t.nsprefixes && p !in declared {
        assert p in env.scope && env.scope[p] == t.nsprefixes[p];
      }
    }
    assert a == b;
  }

  /** No element without a prefix stands under an empty default namespace. */
  predicate NoneUndeclared(t: Tree, env: Env) {
    (t.prefix.None? ==> Inside(t, env).default != Some("")) && NoneUndeclaredInAll(t.children, Inside(t, env))
  }

  predicate NoneUndeclaredInAll(ts: seq<Tree>, env: Env) {
    ts == [] || (NoneUndeclared(ts[0], env) && NoneUndeclaredInAll(ts[1..], env))
  }

  lemma {:induction false} ReparsedNames(t: Tree, env: Env, outer: Outer, indent: Option<nat>, back: Env)
    requires Printable(t) && Agrees(outer, env) && Recovers(back, env)
    ensures Emptied(Names(Reparsed(t, env, outer, indent), back)) == Emptied(Names(t, env)) <==> NoneUndeclared(t, env)
    decreases t, 1
  {
    SameInside(t, env, outer, indent, back);
    ReparsedNamesOfAll(t.children, Inside(t, env), Within(t, env), Deeper(indent),
                       Inside(Reparsed(t, env, outer, indent), back));
  }

  lemma {:induction false} ReparsedNamesOfAll(ts: seq<Tree>, env: Env, outer: Outer, indent: Option<nat>, back: Env)
    requires AllPrintable(ts) && Agrees(outer, env) && Recovers(back, env)
    ensures EmptiedAll(NamesOfAll(ReparsedAll(ts, env, outer, indent), back)) == EmptiedAll(NamesOfAll(ts, env))
            <==> NoneUndeclaredInAll(ts, env)
    decreases ts, 0
  {
    if ts != [] {
      ReparsedNames(ts[0], env, outer, indent, back);
      ReparsedNamesOfAll(ts[1..], env, outer, indent, back);
      EmptiedFirst(ReparsedAll(ts, env, outer, indent), back);
      EmptiedFirst(ts, env);
      assert ReparsedAll(ts, env, outer, indent)[1..] == ReparsedAll(ts[1..], env, outer, indent);
      var x, y := EmptiedAll(NamesOfAll(ReparsedAll(ts, env, outer, indent), back)), EmptiedAll(NamesOfAll(ts, env));
      assert x == y <==> x[0] == y[0] && x[1..] == y[1..];
    }
  }

  lemma EmptiedFirst(ts: seq<Tree>, env: Env)
    requires ts != []
    ensures var ns := EmptiedAll(NamesOfAll(ts, env));
            ns != [] && ns[0] == Emptied(Names(ts[0], env)) && ns[1..] == EmptiedAll(NamesOfAll(ts[1..], env))
            && ns == [ns[0]] + ns[1..]
  {
    assert NamesOfAll(ts, env)[1..] == NamesOfAll(ts[1..], env);
  }

  /**
   Parsing a printed tree, plain or indented, gives a tree with the same expanded names, attributes and text,
   whatever order declarations are printed in and though inherited ones are not printed, exactly when no element
   without a prefix stands under an empty default namespace.
   */
  lemma PrintedTreeParsesBack(t: Tree, indent: Option<nat>, order: Order)
    requires Printable(t) && ListsKeys(order)
    ensures var s := HandleAll(START, Events(t, OUTSIDE, Root, indent, order));
            && s.State? && s.nodes == [] && s.root.Some?
            && (Emptied(Names(s.root.value, OUTSIDE)) == Emptied(Names(t, OUTSIDE)) <==> NoneUndeclared(t, OUTSIDE))
  {
    ElementHandled(START, t, OUTSIDE, Root, indent, order);
    ReparsedNames(t, OUTSIDE, Root, indent, OUTSIDE);
  }

  const UNDECLARED_CHILD :=
    Element(None, "a", Some("u"), map[], [], None, [Element(None, "b", Some(""), map[], [], None, [])])

  /** A child that undoes its parent's default namespace is parsed into it. */
  lemma EmptyDefaultIsLost(order: Order)
    requires ListsKeys(order)
    ensures Uri(UNDECLARED_CHILD.children[0], Inside(UNDECLARED_CHILD, OUTSIDE)) == Some("")
    ensures var s := HandleAll(START, Events(UNDECLARED_CHILD, OUTSIDE, Root, None, order));
            && s.State? && s.root.Some? && |s.root.value.children| == 1
            && Uri(s.root.value.children[0], Inside(s.root.value, OUTSIDE)) == Some("u")
  {
    var t := UNDECLARED_CHILD;
    NoColon("a");
    NoColon("b");
    assert Printable(t.children[0]) && AllPrintable(t.children[1..]);
    ElementHandled(START, t, OUTSIDE, Root, None, order);
  }

  // ----- the handler -----

  class Handler {
    var root: Option<Tree>
    var nodes: seq<Open>

    constructor ()
      ensures root == None && nodes == []
    {
      root, nodes := None, [];
    }

    function Now(): State
      reads this
    {
      State(root, nodes)
    }

    method StartElementEvent(name: string, attributes: seq<Named>)
      modifies this`nodes
      ensures Now() == Handle(old(Now()), StartElement(name, attributes))
    {
      var node := NewNode(name);
      var i := 0;
      assert attributes[0..] == attributes;
      while i < |attributes|
        invariant 0 <= i <= |attributes| && nodes == old(nodes)
        invariant AddAttributes(node, attributes[i..]) == AddAttributes(NewNode(name), attributes)
      {
        var a := attributes[i];
        assert attributes[i..][0] == a && attributes[i..][1..] == attributes[i + 1..];
        var mapped;
        mapped, node := MapPrefix(node, a);
        if !mapped {
          node := node.(attributes := node.attributes + [Attribute(PrefixPart(a.name), NamePart(a.name), a.value)]);
        }
        i := i + 1;
      }
      assert AddAttributes(node, []) == node && attributes[i..] == [];
      nodes := nodes + [Open(node, [])];
    }

    /** Whether the attribute declares a namespace, and the node with that declaration. */
    method MapPrefix(node: Tree, a: Named) returns (mapped: bool, next: Tree)
      ensures mapped <==> NamePart(a.name) == "xmlns" || PrefixPart(a.name) == Some("xmlns")
      ensures mapped ==> next == AddAttribute(node, a)
      ensures !mapped ==> next == node
    {
      next := node;
      if NamePart(a.name) == "xmlns" {
        if a.value != "" {
          next := node.(expns := Some(a.value));
        }
        return true, next;
      }
      if PrefixPart(a.name) == Some("xmlns") {
        return true, node.(nsprefixes := node.nsprefixes[NamePart(a.name) := a.value]);
      }
      mapped := false;
    }

    method CharactersEvent(content: string) returns (ok: bool)
      modifies this`nodes
      ensures ok == Handle(old(Now()), Characters(content)).State?
      ensures if ok then Now() == Handle(old(Now()), Characters(content)) else nodes == old(nodes)
    {
      ok := |nodes| > 0;
      if ok {
        var top := nodes[|nodes| - 1];
        nodes := nodes[..|nodes| - 1] + [top.(buffer := top.buffer + [content])];
      }
    }

    /** Fails when the tag does not match the element that is open. */
    method EndElementEvent(name: string) returns (ok: bool)
      modifies this
      ensures ok == Handle(old(Now()), EndElement(name)).State?
      ensures ok ==> Now() == Handle(old(Now()), EndElement(name))
    {
      if |nodes| == 0 || NameOf(nodes[|nodes| - 1].node) != name {
        return false;
      }
      var current := Closed(nodes[|nodes| - 1]);
      nodes := nodes[..|nodes| - 1];
      if |nodes| == 0 {
        root := Some(current);
      } else {
        var top := nodes[|nodes| - 1];
        nodes := nodes[..|nodes| - 1] + [top.(node := top.node.(children := top.node.children + [current]))];
      }
      ok := true;
    }
  }
}
