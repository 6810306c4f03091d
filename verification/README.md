# Models and proofs for virt-who

virt-who collects which guests run on which hosts and reports the mapping to a subscription
server. This project models the algorithms that its correctness rests on, in its vendored SOAP
library and in its own reporting loop, and proves properties of them. Each area is a set of modules:

- **Dependency sort** (`Reachability`, `DependencySort`, `DependencyShield`): the depth-first sort
  that orders schema types for merging, over graphs with cycles and unknown keys. The clause of its
  documentation about indirect dependencies (depsort.py, lines 38-44) is stronger than the code;
  the exact condition under which it holds is proved.
- **Argument parser** (`ArgumentTree`, `ArgumentFrames`, `ArgumentParser`): the stack machine over
  flattened ancestries, against a recursive account of the choice and sequence tree.
- **Linked properties** (`LinkGraph`, `PropertyNetwork`): a mutable network of property objects,
  searched with a shared, backtracking history.
- **Namespace rewriting** (`XmlTree`, `XmlPromote`, `XmlRefit`, `XmlNormalize`, `XmlElement`,
  `XmlNormalizer`, `XmlMessage`): three rewritings of prefixes on element trees (section 6 of
  Namespaces in XML 1.0), what names mean afterwards, and exactly when nothing changes.
- **Marshalling** (`SoapSchema`, `Marshal`, `Unmarshal`, `RoundTrip`, `TreeResolver`, `Marshaller`,
  `Unmarshaller`): objects to XML nodes and back under a schema.
- **Reporting** (`StableSort`, `HostMapping`, `ReportCycle`, `DestinationThread`): the thread that
  fetches reports, checks jobs, drops duplicates and sends batches, against any answers of the server.
- **vCenter mirror** (`InventoryMirror`): the incremental copy of the inventory and what is sent from it.
- **Text forms** (`DecimalPrinter`, `EntityEncoder`, `SaxPrinter`, `SaxHandler`): decimals of XML
  Schema, predefined entities, and printing trees against the SAX handler.

Algorithms that change objects are classes or loops whose contracts tie them to functions; the
properties are proved of those functions for all inputs, runs and answers. A property that the code
does not have comes with an input that shows it and, where stated, the exact condition.

`dafny verify dfyconfig.toml` verifies everything. Source paths below are relative to the
repository's root.

## Model

| member | source | states |
|---|---|---|
| `DependencySort.SortKeyKeepsInv` | virtwho/virt/esx/suds/xsd/depsort.py:60-71 | visiting a key keeps the invariant of the search: every emitted key is settled, and every key started but not emitted reaches the key being visited |
| `DependencySort.SortIsSound` | virtwho/virt/esx/suds/xsd/depsort.py:27-57 | for every tree, with cycles and unknown dependencies, each key is listed exactly once with its own dependencies, after all it depends on that is not still being visited |
| `DependencySort.LastOfCycleFollowsItsReach` | virtwho/virt/esx/suds/xsd/depsort.py:38-44 | the member of a dependency cycle that is emitted last comes after everything the cycle reaches |
| `DependencySort.OffCycleKeyFollowsItsReach` | virtwho/virt/esx/suds/xsd/depsort.py:38-44 | a key on no cycle comes after everything it depends on, directly or not |
| `DependencySort.DirectDependencyComesFirst` | virtwho/virt/esx/suds/xsd/depsort.py:38-44 | the documented order holds of direct dependencies, whatever the cycles |
| `DependencySort.AcyclicTreeIsTopologicallySorted` | virtwho/virt/esx/suds/xsd/depsort.py:38-44 | without cycles the result is a topological order |
| `DependencySort.DocumentedOrderFails` | virtwho/virt/esx/suds/xsd/depsort.py:38-44 | a concrete tree for which the documented order of indirect dependencies does not hold |
| `DependencyShield.UnshieldedGivesOrder` | virtwho/virt/esx/suds/xsd/depsort.py:38-71 | the documented order holds when no path through a cycle shields a key from what it depends on |
| `DependencyShield.ShieldBreaksOrder` | virtwho/virt/esx/suds/xsd/depsort.py:38-71 | where such a path exists, some way of listing the same tree breaks the documented order |
| `DependencyShield.DocumentedOrderIffNoShield` | virtwho/virt/esx/suds/xsd/depsort.py:38-71 | the documented order holds for every way of listing a tree if and only if no path shields a key from what it depends on |
| `DependencySort.Run.Sort` | virtwho/virt/esx/suds/xsd/depsort.py:60-71 | the recursive step leaves the processed set and the sorted list as the specified search does |
| `DependencySort.DependencySort` | virtwho/virt/esx/suds/xsd/depsort.py:27-57 | the whole sort gives the specified list, with each key once and settled |
| `ArgumentTree.LeastRequiredIsMinimum` | virtwho/virt/esx/suds/argparser.py:407-412 | a choice requires as much as the least demanding of its items |
| `ArgumentFrames.TakeTreesIsTotals` | virtwho/virt/esx/suds/argparser.py:364-419 | the frame that takes in the items of a group ends with their totals, and refuses exactly when two items of a choice have values and extra errors are on |
| `ArgumentFrames.RunIsFold` | virtwho/virt/esx/suds/argparser.py:252-325 | the stack machine over flattened parameters comes to the recursive account of the tree: sums for sequences, least required and all allowed for choices |
| `ArgumentParser.ContextIsAncestry` | virtwho/virt/esx/suds/argparser.py:252-326 | after the context is updated the frame stack stands for exactly the ancestry of the parameter |
| `ArgumentParser.ChoiceFlag` | virtwho/virt/esx/suds/argparser.py:224-239 | the flag passed to the external processor says whether some ancestor of the parameter is a choice |
| `ArgumentParser.ProcessAllIsRun` | virtwho/virt/esx/suds/argparser.py:284-299 | collecting values while the stack changes comes to collecting them first and running the stack machine on the items |
| `ArgumentParser.ParseIsFold` | virtwho/virt/esx/suds/argparser.py:95-170 | parsing reports the counts of the recursive account, several values for one choice exactly when extra errors are on and some choice has two items with values, and otherwise only leftover arguments |
| `ArgumentParser.CallsAreExpected` | virtwho/virt/esx/suds/argparser.py:284-299 | the external processor sees each parameter once, in order, with its value and flag, or a start of these on an error |
| `ArgumentParser.CallsCarryArguments` | virtwho/virt/esx/suds/argparser.py:206-222 | the k-th call is for the k-th parameter and carries the k-th positional argument, or beyond those the keyword of the parameter's name, or None when there is none or a parameter before took it |
| `ArgumentParser.LeftoversAreReported` | virtwho/virt/esx/suds/argparser.py:149-187 | with extra errors on and no conflict, the first keyword that no parameter took is reported, as repeated exactly when its name is that of a parameter given by position; else positional arguments beyond the parameters are reported, and else the counts |
| `ArgumentParser.LeftoverInPlace` | virtwho/virt/esx/suds/argparser.py:206-222 | what is left are the positional arguments beyond the parameters and exactly the keywords that no parameter took |
| `ArgumentParser.FrameObject.Take` | virtwho/virt/esx/suds/argparser.py:376-419 | a frame object takes in an item as specified |
| `ArgumentParser.Parser.ParseArgs` | virtwho/virt/esx/suds/argparser.py:95-112 | a run of the parser object returns the specified outcome, makes the specified calls and leaves the stack empty |
| `ArgumentParser.Parser.MatchAncestry` | virtwho/virt/esx/suds/argparser.py:252-270 | the match is the longest common start of the stack and the ancestry |
| `ArgumentParser.Parser.PopFramesAbove` | virtwho/virt/esx/suds/argparser.py:272-282 | frames above the match are popped, each into the one below |
| `ArgumentParser.Parser.UpdateContext` | virtwho/virt/esx/suds/argparser.py:319-325 | frames are popped to the match and pushed for the rest of the ancestry |
| `ArgumentParser.Parser.ProcessParameter` | virtwho/virt/esx/suds/argparser.py:284-294 | one parameter takes its value, updates the context, enters the top frame and is passed on |
| `ArgumentParser.Parser.GetParamValue` | virtwho/virt/esx/suds/argparser.py:206-222 | the loop state changes by one parameter as specified: the next positional argument is taken, else the keyword of that name |
| `ArgumentParser.Parser.CheckForExtraArguments` | virtwho/virt/esx/suds/argparser.py:149-187 | with extra errors on, something left over is an error and nothing else is: the first keyword left is a repeated parameter if its name was already given and unexpected otherwise, and only without keywords are positional arguments too many |
| `LinkGraph.ReachAfterJoin` | virtwho/virt/esx/suds/properties.py:44-52 | linking merges the components of the two ends and leaves every other component alone |
| `LinkGraph.JoinKeepsForest` | virtwho/virt/esx/suds/properties.py:44-87 | linking two unconnected objects keeps the network a symmetric forest |
| `LinkGraph.SubgraphKeepsForest` | virtwho/virt/esx/suds/properties.py:319-332 | taking links away keeps the network a forest and only splits components |
| `LinkGraph.ForestIffNoCycle` | virtwho/virt/esx/suds/properties.py:44-87 | every link is the only connection of its ends if and only if the network has no cycle of links |
| `LinkGraph.ReachByNeighbours` | virtwho/virt/esx/suds/properties.py:362-402 | what an object reaches without the visited ones is itself and what its unvisited neighbours reach without it: the step of the backtracking search |
| `PropertyNetwork.CheckedEndsAreUnconnected` | virtwho/virt/esx/suds/properties.py:58-87 | objects that pass validation are not connected |
| `PropertyNetwork.LinkAllowedIff` | virtwho/virt/esx/suds/properties.py:58-87 | a link is allowed if and only if nothing that one object reaches shares a domain or a name with anything that the other reaches |
| `PropertyNetwork.LinkRefusedFor` | virtwho/virt/esx/suds/properties.py:58-87 | a refusal says that the objects are linked already, else that domains are shared, else that names are |
| `PropertyNetwork.SeveredLinks` | virtwho/virt/esx/suds/properties.py:319-332 | unlinking removes just the links between the object and those it lets go of |
| `PropertyNetwork.ChangedLinks` | virtwho/virt/esx/suds/properties.py:307-332 | a link adds exactly the two ends' link when it is allowed, and unlinking takes away exactly the chosen links, or all |
| `PropertyNetwork.JoinStaysSound` | virtwho/virt/esx/suds/properties.py:44-87 | a link that passes validation keeps the network a forest with disjoint names and domains in each component |
| `PropertyNetwork.SeveredStaysSound` | virtwho/virt/esx/suds/properties.py:319-332 | unlinking keeps the network a forest with disjoint names and domains in each component |
| `PropertyNetwork.EveryRunFromUnlinkedIsSound` | virtwho/virt/esx/suds/properties.py:307-332 | objects that start unlinked stay a symmetric forest with disjoint names and domains per component, whatever sequence of links and unlinks is tried |
| `PropertyNetwork.DefinerIsUnique` | virtwho/virt/esx/suds/properties.py:334-360 | an object of the component that defines a name is the only one |
| `PropertyNetwork.SetIsReadByComponent` | virtwho/virt/esx/suds/properties.py:268-305 | a value set through one object is what every object of its component shows for the name, and no other property changes |
| `PropertyNetwork.SetIsReadBack` | virtwho/virt/esx/suds/properties.py:151-166 | after a set, every member of the component reads the value back; None sets the default, and a fallback is read in place of the default |
| `PropertyNetwork.SameComponentReadsSame` | virtwho/virt/esx/suds/properties.py:294-305 | all objects of a component read the same value for a name |
| `PropertyNetwork.Properties.KeysFrom` | virtwho/virt/esx/suds/properties.py:362-381 | the recursion with shared, backtracking history returns the names of the part not yet visited, and leaves the history as it was |
| `PropertyNetwork.Properties.DomainsFrom` | virtwho/virt/esx/suds/properties.py:383-402 | the recursion with shared, backtracking history returns the domains of the part not yet visited, and leaves the history as it was |
| `PropertyNetwork.Properties.ProviderFrom` | virtwho/virt/esx/suds/properties.py:334-360 | the search terminates and finds an object that defines the name if one is reachable without the visited ones |
| `PropertyNetwork.Properties.Keys` | virtwho/virt/esx/suds/properties.py:362-381 | the names of an object are those of its component |
| `PropertyNetwork.Properties.Domains` | virtwho/virt/esx/suds/properties.py:383-402 | the domains of an object are those of its component |
| `PropertyNetwork.Properties.Provider` | virtwho/virt/esx/suds/properties.py:334-360 | the provider of a name is the object of the component that defines it, or the object asked when there is none |
| `PropertyNetwork.Properties.Link` | virtwho/virt/esx/suds/properties.py:307-317 | linking joins the two objects when validation allows it, and otherwise reports why and changes nothing |
| `PropertyNetwork.Properties.Validate` | virtwho/virt/esx/suds/properties.py:58-87 | validation refuses linked objects, common domains and common names, in this order |
| `PropertyNetwork.Properties.Teardown` | virtwho/virt/esx/suds/properties.py:89-101 | both ends lose the link and nothing else |
| `PropertyNetwork.Properties.Unlink` | virtwho/virt/esx/suds/properties.py:319-332 | exactly the given linked objects, or all, are unlinked at both ends |
| `PropertyNetwork.Properties.Set` | virtwho/virt/esx/suds/properties.py:268-281 | the value or the default is stored with the definer of the name alone, if there is one and the class is allowed |
| `PropertyNetwork.Properties.Get` | virtwho/virt/esx/suds/properties.py:294-305 | the value read is that of the definer, or the fallback when it is the default |
| `XmlTree.SplitOfQualified` | virtwho/virt/esx/suds/sax/__init__.py:37-50 | splitting a qualified name at its first colon undoes joining |
| `XmlPromote.PromotedNames` | virtwho/virt/esx/suds/sax/element.py:662-687 | after promotion every prefix means what the nearest element came to offer for it, but the reserved prefix only where it stays declared |
| `XmlPromote.OfferIsTaken` | virtwho/virt/esx/suds/sax/element.py:662-687 | an element comes to offer for a prefix its own declaration, nothing if the prefix is its own element prefix, and else what the first of its children offers |
| `XmlPromote.PromoteKeepsNamesIff` | virtwho/virt/esx/suds/sax/element.py:662-687 | for every tree, promotion keeps every expanded name if and only if every prefix in use means what the nearest element offers for it |
| `XmlPromote.OwnDeclaredNamesKept` | virtwho/virt/esx/suds/sax/element.py:662-687 | for every tree, promotion keeps the expanded name of each element, attribute and attribute value whose prefix its own element declares |
| `XmlPromote.PromotionCaptures` | virtwho/virt/esx/suds/sax/element.py:662-687 | a tree in which an attribute comes to mean what a child of its element declared |
| `XmlPromote.PromotionLeavesNone` | virtwho/virt/esx/suds/sax/element.py:676-687 | afterwards no element declares what its parent sees anyway: each declaration left is for a prefix that the parent sees for another URI, or is the parent's own element prefix |
| `XmlPromote.PromoteKeepsNamesIffNoCapture` | virtwho/virt/esx/suds/sax/element.py:662-687 | where the reserved prefix is declared for nothing else, promotion keeps every expanded name if and only if no prefix in use is offered for another URI nearer than its declaration |
| `XmlPromote.OwnPrefixKeepsMeaning` | virtwho/virt/esx/suds/sax/element.py:662-687 | a prefix declared on its own element resolves alike before and after, whatever the rest of the tree declares |
| `XmlPromote.PromoteKeepsOwnDeclaredNames` | virtwho/virt/esx/suds/sax/element.py:662-687 | elements that declare the prefixes they use keep all their names |
| `XmlPromote.PromoteKeepsNamesInOneTable` | virtwho/virt/esx/suds/sax/element.py:662-687 | one URI for each prefix throughout the tree keeps all names |
| `XmlRefit.RefitIsPrefixFree` | virtwho/virt/esx/suds/sax/element.py:689-706 | refitting leaves no prefix and no declaration |
| `XmlRefit.RefitKeepsNamesIffRefittable` | virtwho/virt/esx/suds/sax/element.py:689-706 | refitting keeps the namespace of every element if and only if each element has a resolvable prefix, or no prefix and its own default namespace, or is in its parent's namespace anyway |
| `XmlRefit.UnqualifiedChildIsCaptured` | virtwho/virt/esx/suds/sax/element.py:689-706 | an unqualified child of a qualified element is moved into the namespace of its parent |
| `XmlNormalize.GeneratedDistinct` | virtwho/virt/esx/suds/sax/element.py:1101-1114 | generated prefixes are pairwise different |
| `XmlNormalize.OnePrefixPerUri` | virtwho/virt/esx/suds/sax/element.py:1101-1114 | each URI has its own generated prefix |
| `XmlNormalize.ListedIff` | virtwho/virt/esx/suds/sax/element.py:1070-1099 | a namespace is given a prefix if and only if some element of the branch or above it has it as its default or declares it for a prefix that is not skipped |
| `XmlNormalize.OnlyTheseAreSkipped` | virtwho/virt/esx/suds/sax/element.py:1179-1205 | the skipped pairs are those of xs, xsi and xml with their own namespaces |
| `XmlNormalize.OnlyTopDeclares` | virtwho/virt/esx/suds/sax/element.py:1171-1177 | afterwards nothing below the top of the branch declares a prefix |
| `XmlNormalize.NormalizeKeepsNamesIffSafe` | virtwho/virt/esx/suds/sax/element.py:1059-1205 | in whatever order namespaces are listed, normalizing keeps every expanded name of the branch if and only if each prefix in use resolves to a namespace that is rewritten, or is a skipped pair bound the same above, or is unresolved and not among as many generated prefixes as there are namespaces |
| `XmlNormalize.NormalizeKeepsNamesOfWellBound` | virtwho/virt/esx/suds/sax/element.py:1059-1205 | when every used prefix resolves and the skipped pairs are bound above the branch, all names are kept, whatever order namespaces are listed in |
| `XmlNormalize.DanglingPrefixIsCaptured` | virtwho/virt/esx/suds/sax/element.py:1155-1169 | an attribute value that merely looks qualified gains a meaning when its prefix is the first one generated |
| `XmlElement.RefitInIsRefit` | virtwho/virt/esx/suds/sax/element.py:689-706 | refitting the elements of a tree in place, children first, is refitting the tree |
| `XmlElement.PromoteInIsPromote` | virtwho/virt/esx/suds/sax/element.py:662-687 | promoting in place below a parent is promoting the tree below one |
| `XmlElement.PromoteRootIsPromote` | virtwho/virt/esx/suds/sax/element.py:662-687 | promoting in place from the root is promoting the tree |
| `XmlElement.Element.ResolvePrefix` | virtwho/virt/esx/suds/sax/element.py:537-560 | the loop up the ancestors gives the URI that the scope gives |
| `XmlElement.Element.RefitPrefixes` | virtwho/virt/esx/suds/sax/element.py:689-706 | the element objects of the branch end as specified, and no others change |
| `XmlElement.Element.PromotePrefixes` | virtwho/virt/esx/suds/sax/element.py:662-687 | the element objects of the branch and the parent end as specified, and no others change |
| `XmlElement.Element.PushDeclarations` | virtwho/virt/esx/suds/sax/element.py:676-687 | each declaration moves to the parent unless the parent has the prefix or uses it |
| `XmlNormalizer.NormalizeInIsNormalize` | virtwho/virt/esx/suds/sax/element.py:1059-1205 | rewriting the elements of a branch in place is normalizing the branch |
| `XmlNormalizer.PrefixNormalizer.constructor` | virtwho/virt/esx/suds/sax/element.py:1059-1068 | the branch is collected, and every namespace of the branch and above is given one prefix |
| `XmlNormalizer.PrefixNormalizer.GetNamespaces` | virtwho/virt/esx/suds/sax/element.py:1070-1099 | the permitted namespaces of the collected elements |
| `XmlNormalizer.PrefixNormalizer.GenPrefixes` | virtwho/virt/esx/suds/sax/element.py:1101-1114 | the namespaces are numbered in some order, each once |
| `XmlNormalizer.PrefixNormalizer.RefitNodes` | virtwho/virt/esx/suds/sax/element.py:1121-1169 | element prefixes, attribute prefixes and prefixed attribute values are replaced as specified |
| `XmlNormalizer.PrefixNormalizer.RefitMappings` | virtwho/virt/esx/suds/sax/element.py:1171-1177 | all declarations of the branch are cleared and the new ones put on its top |
| `XmlNormalizer.NormalizePrefixes` | virtwho/virt/esx/suds/sax/element.py:708-721 | the branch of element objects ends as its normalized tree |
| `XmlMessage.SentMessageKeepsNames` | virtwho/virt/esx/suds/bindings/binding.py:120-130 | normalizing the body and then promoting the envelope keeps every name of the message, when envelope and header declare the prefixes they use, the body is safe to normalize, and what only looks like a prefix is declared or generated nowhere |
| `Marshal.ChildrenFollowSchema` | virtwho/virt/esx/suds/sudsobject.py:185-217 | the children of an object follow the order of the schema whenever it covers every key of the object |
| `Marshal.OrderingInPlace` | virtwho/virt/esx/suds/mx/literal.py:282-300 | the ordering of a type has the name of each entry of its content, attributes marked, at the place given by how many entries before it have names |
| `Marshal.ChildrenInSchemaOrder` | virtwho/virt/esx/suds/sudsobject.py:185-217 | when the schema has an entry for every member, two children named after entries of the type stand in the order of the entries |
| `Marshal.ChildrenInOwnOrder` | virtwho/virt/esx/suds/sudsobject.py:185-217 | when the schema lacks an entry for some member, two children stand in the order of the object's own members |
| `Marshal.TypeIsFoundByTag` | virtwho/virt/esx/suds/mx/literal.py:71-106 | the type of content is looked up by its tag, as an attribute when the tag is marked, and what is not found is an error |
| `Marshal.NothingBecomesElement` | virtwho/virt/esx/suds/mx/appender.py:186-196 | None that is not skipped becomes an element with the default, else with nil where that is allowed, else empty |
| `Marshal.RawNodeIsKept` | virtwho/virt/esx/suds/mx/appender.py:241-250 | an XML node is passed on as it is, but is no attribute |
| `SoapSchema.FindsFirst` | virtwho/virt/esx/suds/resolver.py:370-440 | the first content of a name and kind is found, and nothing only if there is none |
| `RoundTrip.MarshalledValueReturns` | virtwho/virt/esx/suds/umx/core.py:48-162 | unmarshalling what a fitting value was marshalled to gives the same value, up to the order of members and to None and empty lists that left no trace |
| `RoundTrip.RecordTrip` | virtwho/virt/esx/suds/mx/appender.py:199-226 | an object or property comes back with exactly the members that left a trace, attributes first, in the order of emission |
| `RoundTrip.ItemsTrip` | virtwho/virt/esx/suds/umx/core.py:130-153 | once a member is a list, every further node of its name is added to it, in order |
| `RoundTrip.RestoredIsSame` | virtwho/virt/esx/suds/umx/core.py:130-162 | what comes back has the same members as what was sent |
| `RoundTrip.NothingReturnsIff` | virtwho/virt/esx/suds/mx/appender.py:186-196 | None on an element comes back as None if and only if it is skipped, or read from an element whose type can be None and whose default gives no usable text |
| `RoundTrip.NothingIsSkippedIff` | virtwho/virt/esx/suds/mx/literal.py:207-234 | None leaves no node if and only if the element or a container around it is optional |
| `RoundTrip.EmptyElementIsNothingIff` | virtwho/virt/esx/suds/umx/core.py:66-101 | an element without text is read as None if and only if its type or the builtin type it resolves to may be None, and as the empty string otherwise |
| `RoundTrip.ScalarReturnsIff` | virtwho/virt/esx/suds/umx/typed.py:123-140 | a scalar comes back as itself if and only if its text translates back, or it is the empty string of a type that cannot be None |
| `RoundTrip.ListReturnsIff` | virtwho/virt/esx/suds/umx/core.py:130-153 | a list of fitting items comes back as a list if and only if the member may repeat or there is more than one item |
| `RoundTrip.ObjectReturnsIff` | virtwho/virt/esx/suds/umx/core.py:66-101 | an object whose members fit comes back as an object, and as the same one, if and only if one of its members leaves a trace |
| `RoundTrip.TracelessObjectIsLost` | virtwho/virt/esx/suds/umx/core.py:66-101 | an object whose members all leave no trace is marshalled to a node with its value at most, which is not read as an object |
| `RoundTrip.EmptyObjectIsLost` | virtwho/virt/esx/suds/umx/core.py:66-101 | an object without members comes back as None or as the empty string |
| `Unmarshal.OneChildOneMember` | virtwho/virt/esx/suds/umx/core.py:130-153 | a child becomes a member of its name, reserved words replaced, and a list of it where the schema repeats |
| `Unmarshal.OneAttributeOneMember` | virtwho/virt/esx/suds/umx/typed.py:106-121 | an attribute becomes a marked member of its name, reserved words replaced, translated only when the schema knows it |
| `Unmarshal.UnknownChildIsRefused` | virtwho/virt/esx/suds/umx/core.py:130-153 | a child that the schema does not know is an error |
| `Marshaller.Node.Set` | virtwho/virt/esx/suds/sax/element.py:192-208 | the first attribute of the name is set, or one is appended |
| `Marshaller.Typed.Start` | virtwho/virt/esx/suds/mx/literal.py:71-106 | content that starts has its type pushed, its value translated and its members ordered; optional None and empty lists are skipped and popped |
| `Marshaller.TranslatedEmitsText` | virtwho/virt/esx/suds/mx/literal.py:71-106 | translating a value first changes what is emitted only in that its text stands for it |
| `Marshaller.Typed.End` | virtwho/virt/esx/suds/mx/literal.py:128-141 | content that ends is popped when it is on top of the stack, and is a mismatch otherwise |
| `Marshaller.Typed.Append` | virtwho/virt/esx/suds/mx/core.py:58-69 | one content adds exactly the specified attributes and nodes to its parent, leaves the resolver stack as found, and never reports a mismatch at its end |
| `Marshaller.Typed.AppendValue` | virtwho/virt/esx/suds/mx/appender.py:73-86 | the appender is chosen by the kind of value |
| `Marshaller.Typed.AppendNone` | virtwho/virt/esx/suds/mx/appender.py:186-196 | the default if there is one, else nil if allowed, else an empty node |
| `Marshaller.Typed.AppendPrimitive` | virtwho/virt/esx/suds/mx/appender.py:169-183 | a tag with an underscore sets a non-empty attribute, any other adds a node with text |
| `Marshaller.Typed.AppendElement` | virtwho/virt/esx/suds/mx/appender.py:241-250 | an XML node is wrapped and appended, but is no attribute value |
| `Marshaller.Typed.AppendList` | virtwho/virt/esx/suds/mx/appender.py:253-265 | list content leaves the stack while its items are marshalled and returns to it |
| `Marshaller.Typed.AppendObject` | virtwho/virt/esx/suds/mx/appender.py:214-225 | an object's node is appended and then filled with its members in order |
| `Marshaller.Typed.Process` | virtwho/virt/esx/suds/mx/core.py:43-56 | a document is made with the last node as its root and the stack empty |
| `TreeResolver.Resolver.Find` | virtwho/virt/esx/suds/resolver.py:400-433 | a name is looked up below the type on top, and what is found is pushed |
| `TreeResolver.Resolver.Pop` | virtwho/virt/esx/suds/resolver.py:271-282 | the top is popped; an empty stack stays empty |
| `Unmarshaller.Typed.Append` | virtwho/virt/esx/suds/umx/core.py:48-64 | a node gives the specified value and leaves the resolver stack as found |
| `Unmarshaller.Typed.AppendChildren` | virtwho/virt/esx/suds/umx/core.py:130-153 | the children become members in document order, or the first unknown one is reported |
| `Unmarshaller.Typed.AppendAttribute` | virtwho/virt/esx/suds/umx/typed.py:106-121 | an attribute becomes a member, translated when the schema knows it |
| `Unmarshaller.Typed.Result` | virtwho/virt/esx/suds/umx/core.py:66-101 | a node is kept exactly when it has text beside children; an object comes exactly of members, or of text beside attributes, which is then its value; nothing becomes a list |
| `Unmarshaller.Content.SetMember` | virtwho/virt/esx/suds/sudsobject.py:145-149 | assigning a member keeps the place it first came in |
| `StableSort.SortedSameIff` | virtwho/virt/virt.py:307-313 | two lists sort to the same if and only if they agree, in order, on every key |
| `StableSort.SortedForgetsOrder` | virtwho/virt/virt.py:307-313 | with distinct keys sorting forgets the order and nothing else |
| `HostMapping.CanonicalSameIff` | virtwho/virt/virt.py:128-138 | when ids are distinct, two mappings have one canonical form if and only if they map the same hosts to the same guests |
| `HostMapping.ReorderedReportSameForm` | virtwho/virt/virt.py:281-317 | the digest of a report sees neither the order of its hosts nor that of their guests, whatever filters apply |
| `HostMapping.Association` | virtwho/virt/virt.py:281-305 | the hosts that pass the filters, in order |
| `HostMapping.FilteredInPlace` | virtwho/virt/virt.py:281-305 | the hosts kept are exactly those neither excluded nor unwanted, each at the place given by how many such hosts stand before it |
| `ReportCycle.StepKnows` | virtwho/virt/virt.py:647-677 | every turn keeps what is remembered in line with what was submitted and accepted |
| `ReportCycle.MappingsSameDigestIff` | virtwho/virt/virt.py:307-317 | with distinct ids, two mappings share a digest if and only if they report the same hosts, past their filters, with the same guests |
| `ReportCycle.GuestListsSameDigestIff` | virtwho/virt/virt.py:214-220 | with distinct ids, two guest lists share a digest if and only if they hold the same guests on the same hypervisor |
| `ReportCycle.KindsHaveOwnDigests` | virtwho/virt/virt.py:214-317 | reports of different kinds never share a digest |
| `ReportCycle.RememberedIsLastAccepted` | virtwho/virt/virt.py:647-677 | after every run the source remembers exactly the digest accepted last and not cleared since |
| `ReportCycle.ChangedReportIsSubmitted` | virtwho/virt/virt.py:647-677 | after every run that leaves no job outstanding, a report that is delivered is submitted if and only if it differs from the one accepted last |
| `ReportCycle.OutstandingJobDecides` | virtwho/virt/virt.py:656-672 | an outstanding job is waited for while it is processed, is accepted when finished, and otherwise lets the report be submitted |
| `ReportCycle.ClearedIff` | virtwho/virt/virt.py:801-805 | the remembered digest is cleared if and only if a mapping without reported hosts is offered while one is remembered |
| `ReportCycle.SentAgainOnlyIfLostOrCleared` | virtwho/virt/virt.py:647-895 | over every run of a source, a report is submitted twice in a row only if the server was never seen to have finished with the first or an empty mapping cleared the digest in between |
| `ReportCycle.LostReportIsSentAgain` | virtwho/virt/virt.py:656-673 | a report whose job was lost is submitted again though it has not changed |
| `ReportCycle.ClearedReportIsSentAgain` | virtwho/virt/virt.py:801-805 | an accepted report is submitted again after an empty mapping |
| `DestinationThread.VisitAllIsFetch` | virtwho/virt/virt.py:647-677 | gathering treats each source as a turn of its own and offers its report just when that turn does |
| `DestinationThread.OfferedInOrder` | virtwho/virt/virt.py:647-677 | the reports offered are for different sources, each the one in the datastore |
| `DestinationThread.OfferedHaveNoJob` | virtwho/virt/virt.py:647-677 | no source whose report is offered has a job outstanding |
| `DestinationThread.SendingKeepsOutstanding` | virtwho/virt/virt.py:867-875 | sending never forgets or replaces a job that is outstanding |
| `DestinationThread.EndedJobsStay` | virtwho/virt/virt.py:937-950 | gathering leaves jobs seen finished, failed or canceled as they are |
| `DestinationThread.EndedJobsStayEnded` | virtwho/virt/virt.py:937-950 | over every run, jobs seen finished, failed or canceled stay so, unless a round makes their batch anew |
| `DestinationThread.CreatedOnlyAfterError` | virtwho/virt/virt.py:937-977 | a check leaves a job merely created if and only if it was, and the manager gave an error or a throttle in one-shot mode |
| `DestinationThread.JobIsSeenAsAnswered` | virtwho/virt/virt.py:937-977 | a job that has not ended is seen in the state that the manager answers, unless a throttle ends the check |
| `DestinationThread.WaitsOfCheck` | virtwho/virt/virt.py:937-977 | the first wait is the one a throttle has asked for or the shortest interval, and each later one what the throttle before it asks for or twice the shortest interval |
| `DestinationThread.HostsInTurn` | virtwho/virt/virt.py:777-797 | the batch is the concatenation of the passing hosts, report after report |
| `DestinationThread.GuestsInTurn` | virtwho/virt/virt.py:793-797 | the total counts the guests of all hosts |
| `DestinationThread.MappingIsSubmitted` | virtwho/virt/virt.py:830-870 | a mapping that is offered is outstanding after the round, with its own digest, if and only if there are hosts and the check-in is taken with a result, in one-shot mode without a throttle |
| `DestinationThread.GuestListIsRemembered` | virtwho/virt/virt.py:882-918 | a guest list that is offered is remembered after the round if and only if it is not printed and is taken, in one-shot mode without a throttle |
| `DestinationThread.RequestsOfDelivery` | virtwho/virt/virt.py:833-865 | a batch is requested once more after each throttle until it is answered, and only once in one-shot mode |
| `DestinationThread.StopsIff` | virtwho/virt/virt.py:919-930 | in one-shot mode the thread stops if and only if each source had an error report, a guest list that was taken or refused, or a mapping whose check-in was throttled or refused |
| `DestinationThread.DroppedIff` | virtwho/virt/virt.py:931-934 | in one-shot mode a source is dropped if and only if its guest list was taken |
| `DestinationThread.TakenMappingNeverStops` | virtwho/virt/virt.py:919-930 | a mapping whose check-in is taken is not counted as sent, so with one the thread goes on in one-shot mode |
| `DestinationThread.AfterSendIsDeliver` | virtwho/virt/virt.py:777-895 | sending changes what is remembered of each source as its own turn does |
| `DestinationThread.CycleIsStep` | virtwho/virt/virt.py:465-495 | in every cycle each source takes exactly one turn, and sources that are not looked at take none |
| `DestinationThread.RoundsAreTurns` | virtwho/virt/virt.py:465-495 | in every run of the thread each source goes through the reporting cycle on its own |
| `DestinationThread.ThreadSendsAgainOnlyIfLostOrCleared` | virtwho/virt/virt.py:647-895 | in every run of the thread, two submissions in a row for one source carry the same digest only if the first was never seen finished or the digest was cleared in between |
| `DestinationThread.ThreadOffersChanged` | virtwho/virt/virt.py:647-677 | after every run of the thread, a source with a report and no job outstanding has it offered if and only if it differs from the one accepted last |
| `DestinationThread.Thread.CheckReportStatus` | virtwho/virt/virt.py:937-977 | a poll leaves the specified state and makes the specified waits; ended jobs are not polled, and a job is left created exactly when it was and got an error or a one-shot throttle |
| `DestinationThread.Thread.VisitPending` | virtwho/virt/virt.py:656-672 | an outstanding job is checked and then accepted, kept or dropped by its state |
| `DestinationThread.Thread.GetDataCommon` | virtwho/virt/virt.py:647-677 | all sources are looked at as specified |
| `DestinationThread.Thread.GetDataInitial` | virtwho/virt/virt.py:679-703 | each report gathered is the first its source had, and nothing is returned only if no source ever had one |
| `DestinationThread.Thread.Collect` | virtwho/virt/virt.py:766-823 | the batch is the in-order concatenation of the filtered hosts with matching totals, and sources with empty mappings are forgotten |
| `DestinationThread.Thread.SendBatch` | virtwho/virt/virt.py:830-865 | every attempt sends the same hosts, as often as the answers make it |
| `DestinationThread.Thread.SendGuestLists` | virtwho/virt/virt.py:882-918 | guest lists are sent one by one and remembered when they are taken |
| `DestinationThread.Thread.SendData` | virtwho/virt/virt.py:744-935 | what is remembered and requested after sending, when the thread stops, and which sources it drops in one-shot mode |
| `DestinationThread.Thread.RunOnce` | virtwho/virt/virt.py:465-495 | one round of the loop leaves the state of the specified round, and stops and drops sources as one-shot mode asks |
| `DestinationThread.Thread.RunFirst` | virtwho/virt/virt.py:638-703 | the first round is a round of the run, over a datastore that holds just the first reports gathered |
| `InventoryMirror.HostChangesAsMeantIff` | virtwho/virt/esx/esx.py:481-494 | changes leave a host as the server means them to if and only if each is taken as meant at its point, or a later assignment gives its property a value |
| `InventoryMirror.HostUpdateAsMeantIff` | virtwho/virt/esx/esx.py:481-494 | an update of a host, which enters when it is new, is applied as meant if and only if it leaves or its changes are |
| `InventoryMirror.VmChangesAsMeantIff` | virtwho/virt/esx/esx.py:461-475 | changes leave a virtual machine as the server means them to if and only if lists are only added to where they are |
| `InventoryMirror.UpdatesAsMeant` | virtwho/virt/esx/esx.py:440-494 | a change set that fits the copy changes it as the server means it to |
| `InventoryMirror.UpdateFailsIff` | virtwho/virt/esx/esx.py:440-494 | an update fails if and only if an object leaves that is not there, or a machine adds to what is no list |
| `InventoryMirror.FailedUpdatesStartOver` | virtwho/virt/esx/esx.py:440-494 | when updates fail nothing is sent, the copy is given up, and the next complete answer is sent |
| `InventoryMirror.HostRemovalIsMissed` | virtwho/virt/esx/esx.py:481-494 | a property removed from a host stays in the copy |
| `InventoryMirror.StepFollows` | virtwho/virt/esx/esx.py:162-226 | each turn keeps the copy in line with what the server has told, across timeouts and resets, and sends nothing but a complete inventory |
| `InventoryMirror.SendsExactly` | virtwho/virt/esx/esx.py:213-226 | a complete answer sends the inventory if and only if its version is not the one sent last or the interval has passed, no other answer sends, and one-shot mode ends with the first complete answer |
| `InventoryMirror.RunSendsExactly` | virtwho/virt/esx/esx.py:162-226 | over every run, the mappings sent are exactly the inventories at the complete answers with another version than the last sent or with the interval passed, in order |
| `InventoryMirror.OnlyInventoriesSent` | virtwho/virt/esx/esx.py:151-226 | every mapping sent is made from the whole server inventory at one of its complete answers, never from a truncated one |
| `InventoryMirror.Esx.ApplyUpdates` | virtwho/virt/esx/esx.py:440-448 | the update sets are applied in order |
| `InventoryMirror.Esx.ApplyVirtualMachineUpdate` | virtwho/virt/esx/esx.py:461-479 | a virtual machine enters, changes or leaves |
| `InventoryMirror.Esx.ApplyHostSystemUpdate` | virtwho/virt/esx/esx.py:481-494 | a host enters, is changed by assignments, or leaves |
| `InventoryMirror.Esx.RunLoop` | virtwho/virt/esx/esx.py:151-226 | the loop sends the specified mappings |
| `DecimalPrinter.ReadingPrintedIsExact` | virtwho/virt/esx/suds/xsd/sxbuiltin.py:129-192 | reading back what was printed gives the sign and, at every scale, the number |
| `DecimalPrinter.PrintedIsExact` | virtwho/virt/esx/suds/xsd/sxbuiltin.py:129-192 | the digits printed, with the point where it stands, make the same number |
| `DecimalPrinter.NoTrailingZeros` | virtwho/virt/esx/suds/xsd/sxbuiltin.py:167-192 | no zero ends a fraction, and none but a single one leads the integral digits of a number other than zero |
| `DecimalPrinter.PrintsSameIff` | virtwho/virt/esx/suds/xsd/sxbuiltin.py:90-192 | two numbers print the same if and only if they are equal, with equally many zeros if they are zero |
| `DecimalPrinter.ZeroHasManyForms` | virtwho/virt/esx/suds/xsd/sxbuiltin.py:157-161 | zeros are equal whatever their exponents, but those with a positive exponent print all their zeros |
| `DecimalPrinter.ToXsd` | virtwho/virt/esx/suds/xsd/sxbuiltin.py:129-192 | the loop that trims zeros and the branches that place the point print the specified form |
| `EntityEncoder.FivePassesEncode` | virtwho/virt/esx/suds/sax/enc.py:37-64 | five encoding passes are one pass that leaves entities alone and replaces every other special character |
| `EntityEncoder.FivePassesDecode` | virtwho/virt/esx/suds/sax/enc.py:43-79 | five decoding passes are one pass that replaces every entity once |
| `EntityEncoder.EncodingIsIdempotent` | virtwho/virt/esx/suds/sax/enc.py:51-64 | encoding what is encoded changes nothing |
| `EntityEncoder.DecodingForgetsEncoding` | virtwho/virt/esx/suds/sax/enc.py:51-79 | encoding first makes no difference to decoding |
| `EntityEncoder.DecodingUndoesEncodingIff` | virtwho/virt/esx/suds/sax/enc.py:51-79 | decoding undoes encoding if and only if the string holds no predefined entity |
| `EntityEncoder.EntitiesAreRead` | virtwho/virt/esx/suds/sax/enc.py:37-79 | each of the five entities is kept by encoding and becomes its character by decoding |
| `EntityEncoder.SpecialsAreReplaced` | virtwho/virt/esx/suds/sax/enc.py:37-64 | each of the five characters becomes its entity by encoding, the ampersand only where it begins none |
| `EntityEncoder.OthersAreNotEncoded` | virtwho/virt/esx/suds/sax/enc.py:51-64 | encoding leaves every other character alone |
| `EntityEncoder.OthersAreNotDecoded` | virtwho/virt/esx/suds/sax/enc.py:66-79 | decoding leaves every character alone that begins no entity |
| `EntityEncoder.Encode` | virtwho/virt/esx/suds/sax/enc.py:51-64 | the loop over the table, or nothing when there is no special character, encodes as specified |
| `EntityEncoder.Decode` | virtwho/virt/esx/suds/sax/enc.py:66-79 | the loop over the table, or nothing without an ampersand, decodes as specified |
| `SaxHandler.StartHandled` | virtwho/virt/esx/suds/sax/parser.py:47-70 | a printed start tag gives back the name, the declarations that were printed and the attributes, whatever order declarations come in |
| `SaxPrinter.DefaultIsPrintedIff` | virtwho/virt/esx/suds/sax/element.py:846-871 | the default namespace is declared if and only if the parent's own is another |
| `SaxPrinter.PrefixIsPrintedIff` | virtwho/virt/esx/suds/sax/element.py:846-871 | a prefix is declared if and only if the parent does not see it for the same URI |
| `SaxPrinter.ChildStandsDeeper` | virtwho/virt/esx/suds/sax/element.py:794-845 | in the indented form a child stands on a line of its own, three spaces deeper than its parent |
| `SaxHandler.ElementHandled` | virtwho/virt/esx/suds/sax/parser.py:47-96 | handling the events of a printed element adds exactly its reparsed tree |
| `SaxHandler.SameInside` | virtwho/virt/esx/suds/sax/element.py:846-871 | leaving out inherited declarations leaves every prefix as it was, and every default namespace but an empty one |
| `SaxHandler.StripSplits` | virtwho/virt/esx/suds/sax/parser.py:72-81 | trimming takes away just the white space at both ends |
| `SaxHandler.PrintedTreeParsesBack` | virtwho/virt/esx/suds/sax/element.py:794-871 | parsing a printable tree, plain or indented, gives the same expanded names, attributes, children and text up to empty text, if and only if no element without a prefix stands under an empty default namespace |
| `SaxHandler.EmptyDefaultIsLost` | virtwho/virt/esx/suds/sax/parser.py:61-70 | a child that undoes its parent's default namespace is parsed into it |
| `SaxHandler.Handler.StartElementEvent` | virtwho/virt/esx/suds/sax/parser.py:47-59 | a start event opens the node with its declarations mapped |
| `SaxHandler.Handler.EndElementEvent` | virtwho/virt/esx/suds/sax/parser.py:72-81 | an end event closes the matching node with its text, trimmed beside children, or is malformed |
| `SaxHandler.Handler.CharactersEvent` | virtwho/virt/esx/suds/sax/parser.py:83-86 | text is collected on the open node |

## Left out

- HTTP and SOAP transports, the rhsm and xmlrpc managers, libvirt, Hyper-V and Kubernetes clients: network and foreign libraries; the manager's and the vCenter's answers are inputs.
- Logging, lock and status files, the command line, configuration sections, passwords and caches: plumbing without properties of their own.
- Status mode of the reporting thread, heartbeats and the run-data file: they do not touch what is remembered or sent.
- Regular expression and wildcard filters: a filter is the set of host ids that its patterns match; a filter on the destination's own configuration, applied to the batch once more, is taken to be absent.
- SHA-256 and the JSON text: the digest is taken to tell canonical forms apart, so it is the canonical form.
- DestinationThread.Thread.CheckReportStatus: a check that is throttled for ever never returns in the source; here the throttles of one check are finitely many, so every state between calls is covered.
- DestinationThread.Thread.GetDataInitial: the remaining sources are looked at in list order where the source iterates over a set, and an empty list of sources, over which the source waits for ever, is not accepted.
- The list of sources is taken to name each source once, as configuration names are unique.
- ESX clusters: they are not cleared on a reset and accept another set of kinds, so nothing is claimed of them.
- SOAP-encoded arrays, multirefs, xsi:type extension, xsd:any content, dictionaries and raw text in the marshaller; schemas are given by what their objects answer, with resolved types resolving to themselves and names without colons.
- Namespaces of marshalled nodes: nodes are known by their local names, and xsi:nil by a flag.
- Marshaller.Typed.Append: when it fails, what has already been added to the parent and the stack is left unspecified, as the source leaves it behind with the exception.
- Unmarshaller.Typed.Append: nodes are read as values, since unmarshalling does not change them, and the type that xsi:type names is not looked at.
- Marshaller.Typed.Start: an object's own type from its metadata is not looked at, so its declared type is its type.
- TreeResolver.Resolver.Find: the known type of the value from its metadata is not looked at.
- Marshaller.Typed.Process: content at the root whose tag starts with an underscore is accepted only where it sets no attribute, since the document has none to set.
- RoundTrip.MarshalledValueReturns: stated for values that fit; for None, scalars, lists and objects with fitting members the exact conditions are separate lemmas; members that do not fit are not combined into one condition.
- Attribute objects of elements are values of their element; parent pointers of attributes are not modelled.
- Attributes under refitting: their prefixes are not rewritten, so elements only are claimed.
- XmlPromote.PromoteKeepsNamesIffNoCapture: the prefix xml is taken to be declared, if at all, for its own namespace (section 3 of Namespaces in XML 1.0); XmlPromote.PromoteKeepsNamesIff holds without this.
- XmlNormalizer.PrefixNormalizer.GenPrefixes: the order in which a Python set lists namespaces is arbitrary, so every order is allowed.
- SaxHandler.Handler.StartElementEvent: the source appends a node to its parent when it starts and fills it in place; here it joins its parent when it ends.
- SaxHandler.PrintedTreeParsesBack: the step from text to events is that of a conforming parser, so white space normalization in attribute values is not modelled.
- Definition.validate compares classes; subclasses count as their own class, and linkers do nothing.
- Python's recursion limit, and values that are not finite decimals.
