# java-callgraph: a Dafny model of the call-graph core

java-callgraph parses Java sources and prints a call graph. A visitor walks each
compilation unit and keeps three stacks: packages, types and callables. It records
four things in a shared registry:

- which package owns each type;
- which type owns each method and constructor;
- which call sites occur inside each callable;
- which call sites occur in a type outside any callable.

The printer then emits the registry in one of two forms:

- a plain-text listing, with one group per type and per callable;
- a DOT graph, with one subgraph per scope and an edge from each scope to each site it calls.

An older visitor keeps its own maps and prints only the callable groups.

This project models the following:

- **The registry** (`Registry`): the six maps of graph/Printer.kt and their `register*` operations.
- **The scope-tracking visitor** (`ScopeVisitor`): the visitor of parser/Visitor.kt, written as a fold over a parsed tree. The stacks are sequences whose last element is the top. `peek` or `pop` on an empty stack becomes an error result.
- **The per-run drivers**: `ScopeVisitor.VisitUnits` feeds every unit into one registry; `LegacyVisitor.ProcessSourceRoot` walks every unit of a source root with its own older visitor, then prints them all.
- **The two printers** (`Renderer`), over a common intermediate form, the scope view.
- **The string helpers** (`DotFormat`, `Text`): `formatDotName`, `formatDotLabel`, `formatDotArguments` and `joinToString`.
- **The older visitor and its printer** (`LegacyVisitor`), from Visitor.kt at the source root.

What the model proves:

- **Registration operations.** Each one changes exactly its own key. Re-adding a site is a no-op. For owner maps, the last write wins.
- **Call attribution.** The visitor records exactly the calls of the tree, each under its innermost enclosing callable, or else its innermost enclosing type. This is checked against a reference attribution defined without stacks.
- **Declarations.** The visitor registers exactly the declared types and callables, each under the top of the right stack.
- **Well-formedness.** The visitor keeps the registry well formed, which is what the printers' `!!` dereferences need.
- **Text listing.** Its sequence of `println` arguments reads back into its groups: headers and per-site lines for every scope.
- **DOT graph.** It has the expected frame and the expected size. Every line is a single line. Every registered site becomes an edge.
- **Older visitor.** It walks trees exactly like the scope visitor, and it prints exactly the callable part of the listing. A source root is walked completely before anything is printed, so one failing unit loses the output of all the others.

Two things are parameters rather than modelled:

- **Symbol resolution** is a `Resolver`, a function from a site to an optional resolved declaration. `None` stands for the exception the printers catch.
- **Iteration order** is an `Order`. It lists every key and every site exactly once, and nothing says which order. In the source the type and callable keys come in hash-map order, while each scope's sites come in the order they were first registered.

## Model

| member | source | states |
|---|---|---|
| Wrappers.Pop | src/main/kotlin/parser/Visitor.kt:36-40 | popping a non-empty stack removes exactly its top element and keeps the rest in order |
| Text.JoinToString | src/main/kotlin/graph/Printer.kt:248-264 | the string builder loop returns the prefix, the items in order separated by the separator, then the postfix; for no items, prefix and postfix only |
| Text.JoinLength | src/main/kotlin/graph/Printer.kt:248-264 | for n ≥ 1 items the joined text holds the items and exactly n−1 separators |
| Text.JoinSnoc | src/main/kotlin/graph/Printer.kt:255-260 | each loop step appends a separator and then the next item |
| Text.SplitJoin | src/main/kotlin/graph/Printer.kt:248-264 | joining items that do not contain the separator character and splitting again with `Text.SplitOn`, the inverse this row is stated against, gives the items back; it covers one-character separators only, not the `", "` the source passes |
| DotFormat.FormatDotName | src/main/kotlin/graph/Printer.kt:241 | the result has the input's length, uses only `[A-Za-z0-9_]`, keeps every character already in that class in place, and puts `_` at every position whose character is outside it |
| DotFormat.FormatDotNameFixedPoints | src/main/kotlin/graph/Printer.kt:241 | a name is left unchanged if and only if it is already a DOT identifier |
| DotFormat.FormatDotNameIdempotent | src/main/kotlin/graph/Printer.kt:241 | formatting twice is formatting once |
| DotFormat.FormatDotNameCollides | src/main/kotlin/graph/Printer.kt:241 | node ids are not unique: the different names `a.b` and `a<b` both become `a_b` |
| DotFormat.ReplaceAll | src/main/kotlin/graph/Printer.kt:242-246 | replacing an absent character changes nothing, and a character absent from the replacement is absent from the result |
| DotFormat.ReplaceAllConcat | src/main/kotlin/graph/Printer.kt:242-246 | replacement distributes over concatenation |
| DotFormat.FormatDotArguments | src/main/kotlin/graph/Printer.kt:242 | text without a double quote passes unchanged |
| DotFormat.FormatDotArgumentsEscapesQuotes | src/main/kotlin/graph/Printer.kt:242 | every double quote in the result is preceded by a backslash |
| DotFormat.UnescapeFormatDotArguments | src/main/kotlin/graph/Printer.kt:242 | undoing the quote escaping gives the original argument text back: nothing but quotes was changed |
| DotFormat.FormatDotLabel | src/main/kotlin/graph/Printer.kt:243-246 | carries no contract itself: `DotFormat.FormatDotLabelIsLabelEscape` proves it equal to the per-character reference escape, and `DotFormat.LabelHasNoLineBreaks`, `DotFormat.LabelBracesEscaped` and `DotFormat.LabelAngleBracketsEscaped` state what its result contains |
| DotFormat.FormatDotLabelIsLabelEscape | src/main/kotlin/graph/Printer.kt:243-246 | the chain of six replacements equals a one-pass, per-character escape: `<`, `>`, `{`, `}` get a backslash, each line break becomes `<br/>`, and the `<br/>` markers themselves are not escaped |
| DotFormat.LabelConcat | src/main/kotlin/graph/Printer.kt:243-246 | the per-character escape distributes over concatenation |
| DotFormat.LabelSingle | src/main/kotlin/graph/Printer.kt:243-246 | on a single character the replacement chain gives that character's escape |
| DotFormat.LabelHasNoLineBreaks | src/main/kotlin/graph/Printer.kt:243-246 | a formatted label contains no line feed and no carriage return |
| DotFormat.LabelBracesEscaped | src/main/kotlin/graph/Printer.kt:245 | every brace of a formatted label is preceded by a backslash, and the label has as many opening and closing braces as the input |
| DotFormat.LabelAngleBracketsEscaped | src/main/kotlin/graph/Printer.kt:244-246 | every angle bracket of a formatted label is either escaped by a backslash or belongs to a `<br/>` marker that stands for a line break |
| Registry.AddTo | src/main/kotlin/graph/Printer.kt:47-50 | get-or-create then add: the key is present afterwards, its set is the old set (or the empty set) plus the site, and every other key keeps its set |
| Registry.AddToIdempotent | src/main/kotlin/graph/Printer.kt:47-65 | adding a site already present changes nothing |
| Registry.AddToCommutes | src/main/kotlin/graph/Printer.kt:47-65 | two additions give the same map in either order |
| Registry.RegisterClass | src/main/kotlin/graph/Printer.kt:39-41 | the type is mapped to the package, every other type keeps its package, and no other map changes |
| Registry.RegisterMethodDeclaration | src/main/kotlin/graph/Printer.kt:43-45 | the callable is mapped to the type, every other callable keeps its type, and no other map changes |
| Registry.RegisterMethodCall | src/main/kotlin/graph/Printer.kt:47-50 | the site joins the callable's call set and nothing else changes |
| Registry.RegisterStaticCall | src/main/kotlin/graph/Printer.kt:52-55 | the site joins the type's static-call set and nothing else changes |
| Registry.RegisterObjectCreation | src/main/kotlin/graph/Printer.kt:57-60 | the site joins the callable's creation set and nothing else changes |
| Registry.RegisterStaticObjectCreation | src/main/kotlin/graph/Printer.kt:62-65 | the site joins the type's static-creation set and nothing else changes |
| Registry.RegisterSiteIdempotent | src/main/kotlin/graph/Printer.kt:47-65 | registering the same site twice under the same key equals registering it once, for all four site maps |
| Registry.RegisterOwnerLastWins | src/main/kotlin/graph/Printer.kt:39-45 | a second owner registration overrides the first, for types and for callables |
| Registry.HasCallAfterMethodCall | src/main/kotlin/graph/Printer.kt:47-50 | after registering a call under a callable, a scope has a call if and only if it had it before or it is that callable and that site |
| Registry.HasCallAfterStaticCall | src/main/kotlin/graph/Printer.kt:52-55 | the same for a static call under a type |
| Registry.WellFormed | src/main/kotlin/graph/Printer.kt:210-214 | a sufficient condition for the printers: its first conjunct, that each callable's type has a package, is what the `!!` lookups need; its second, that each scope holding sites is a registered declaration, is what the edge and read-back lemmas use so that no site is left out; `ScopeVisitorProperties.VisitUnitsWellFormed` proves the driver keeps it |
| ScopeVisitor.VisitNode | src/main/kotlin/parser/Visitor.kt:19-142 | a successful visit leaves the type and callable stacks as it found them, only adds ownership entries, and never touches the creation maps |
| ScopeVisitor.VisitSeq | src/main/kotlin/parser/Visitor.kt:23 | the same for a sequence of siblings visited in order |
| ScopeVisitor.VisitUnit | src/main/kotlin/parser/Visitor.kt:19-44 | a successful unit walk ends with empty type and callable stacks and no creation recorded |
| ScopeVisitor.VisitUnits | src/main/kotlin/cli/Cli.kt:119-133 | the driver never drops a registered type from the shared registry and never records a creation |
| ScopeVisitorProperties.NodeCallsRecorded | src/main/kotlin/parser/Visitor.kt:126-142 | after a visit a scope holds a call if and only if it held it before or the reference attribution puts that call of the subtree there |
| ScopeVisitorProperties.SeqCallsRecorded | src/main/kotlin/parser/Visitor.kt:126-142 | the same for a sequence of siblings |
| ScopeVisitorProperties.AttributedOccurs | src/main/kotlin/parser/Visitor.kt:126-142 | only calls that occur in the subtree are attributed |
| ScopeVisitorProperties.AttributedSeqOccurs | src/main/kotlin/parser/Visitor.kt:126-142 | the same for a sequence of siblings |
| ScopeVisitorProperties.CallRegisteredOnce | src/main/kotlin/parser/Visitor.kt:129-139 | a new call is recorded under exactly one scope: the top callable when one is open, otherwise the top type, never both |
| ScopeVisitorProperties.NestedCallSameScope | src/main/kotlin/parser/Visitor.kt:134-141 | a call in another call's arguments is recorded under the same scope as the outer call |
| ScopeVisitorProperties.NodeDeclarations | src/main/kotlin/parser/Visitor.kt:28-124 | the types and callables registered by a visit are exactly the old ones plus those declared in the subtree, and undeclared entries keep their owner |
| ScopeVisitorProperties.SeqDeclarations | src/main/kotlin/parser/Visitor.kt:28-124 | the same for a sequence of siblings |
| ScopeVisitorProperties.TypeOwnedByTopPackage | src/main/kotlin/parser/Visitor.kt:28-31 | a type is registered under the package on top of the stack, and a type declaration needs an open package |
| ScopeVisitorProperties.CallableOwnedByTopType | src/main/kotlin/parser/Visitor.kt:100-103 | a method or constructor is registered under the type on top of the stack, and it needs an open type |
| ScopeVisitorProperties.NodeKeepsConsistent | src/main/kotlin/parser/Visitor.kt:28-142 | the visit keeps the registry well formed (every callable's type has a package; every site key is a registered declaration) and every open declaration registered |
| ScopeVisitorProperties.TypeDeclKeepsConsistent | src/main/kotlin/parser/Visitor.kt:28-44 | the same for a type declaration: the type is registered on entry, before its members |
| ScopeVisitorProperties.CallableDeclKeepsConsistent | src/main/kotlin/parser/Visitor.kt:100-124 | the same for a method or constructor: it is registered on entry, before its body |
| ScopeVisitorProperties.CallKeepsConsistent | src/main/kotlin/parser/Visitor.kt:126-142 | the same for a method call |
| ScopeVisitorProperties.SeqKeepsConsistent | src/main/kotlin/parser/Visitor.kt:23 | the same for a sequence of siblings |
| ScopeVisitorProperties.InsideType | src/main/kotlin/parser/Visitor.kt:28-124 | inside an open type with an open package the visit succeeds, keeps the package stack, registers every type of the subtree under the top package, and does not depend on when the package scope closes |
| ScopeVisitorProperties.InsideTypeSeq | src/main/kotlin/parser/Visitor.kt:28-124 | the same for a sequence of siblings |
| ScopeVisitorProperties.TopLevelTypeScope | src/main/kotlin/parser/Visitor.kt:36-41 | leaving a top-level type pops the package stack as written, and leaves it unchanged when the package is kept for the unit |
| ScopeVisitorProperties.SecondTopLevelTypeFails | src/main/kotlin/parser/Visitor.kt:28-41 | as written, every unit with a package and two or more top-level types fails on an empty package stack |
| ScopeVisitorProperties.TopLevelSeqKeepingPackage | src/main/kotlin/parser/Visitor.kt:28-44 | with the package kept open, any number of top-level types are visited, the package stays open, and every declared type is registered under it |
| ScopeVisitorProperties.CorrectedUnitRegistersEveryType | src/main/kotlin/parser/Visitor.kt:19-44 | with the package kept open for the unit, every unit with a package succeeds, and every type declared in it is registered under that package |
| ScopeVisitorProperties.SingleTopLevelTypeAgrees | src/main/kotlin/parser/Visitor.kt:38-41 | with one top-level type, the code as written and the corrected scoping register the same entries |
| ScopeVisitorProperties.NoPackageUnitFails | src/main/kotlin/parser/Visitor.kt:28-31 | a unit without a package declaration fails on its first type |
| ScopeVisitorProperties.VisitUnitWellFormed | src/main/kotlin/parser/Visitor.kt:19-142 | a unit's walk keeps the registry well formed |
| ScopeVisitorProperties.VisitUnitsWellFormed | src/main/kotlin/cli/Cli.kt:119-133 | the driver keeps the shared registry well formed across units, so the printers' `!!` lookups succeed |
| Renderer.ListsCardinality | src/main/kotlin/graph/Printer.kt:86-92 | a listing that names each key once is as long as the key set, so every key is visited exactly once |
| Renderer.TargetsShowExactly | src/main/kotlin/graph/Printer.kt:206-207 | a scope's sites are its calls followed by its creations, each exactly once and nothing else |
| Renderer.TypeView | src/main/kotlin/graph/Printer.kt:201-208 | a type's scope lists exactly its static calls and static creations, each once |
| Renderer.CallableView | src/main/kotlin/graph/Printer.kt:210-218 | a callable's scope lists exactly its calls and creations, each once |
| Renderer.Views | src/main/kotlin/graph/Printer.kt:191-199 | there is one scope per registered type and per registered callable |
| Renderer.CallableName | src/main/kotlin/graph/Printer.kt:210-214 | `package.Type.name` read through the two `!!` lookups; `Renderer.CallableBlockShape` states that it heads the callable's group |
| Renderer.TextSiteLine | src/main/kotlin/graph/Printer.kt:220-239 | a tab, then the resolved name and type parameters, or the site's own name and argument texts when resolution fails; `Renderer.TextBlocksReadable` proves each such line starts with a tab, and `Renderer.TextShapeIndependentOfResolver` that a failure changes only the line's text |
| Renderer.TextBlock | src/main/kotlin/graph/Printer.kt:201-218 | a header line `name:` and one line per site; `Renderer.TypeBlockShape` and `Renderer.CallableBlockShape` state the two header shapes and the line counts |
| Renderer.TextBlocks | src/main/kotlin/graph/Printer.kt:192-198 | one group per scope, in order; `Renderer.ReadRenderedTextBlocks` proves the listing reads back into exactly these groups |
| Renderer.RenderText | src/main/kotlin/graph/Printer.kt:191-199 | the `print` listing; `Renderer.ReadRenderedText` and `Renderer.FlattenLength` state its groups, their headers and its length |
| Renderer.ReadFlatten | src/main/kotlin/graph/Printer.kt:201-218 | reading printed groups back, with each header opening a group of tab-prefixed lines, gives the groups |
| Renderer.TextBlocksReadable | src/main/kotlin/graph/Printer.kt:204-237 | per `println`, listing headers never start with a tab and every site line does |
| Renderer.ReadRenderedTextBlocks | src/main/kotlin/graph/Printer.kt:191-239 | the listing, one line per `println`, reads back into exactly the groups the printer meant |
| Renderer.ReadRenderedText | src/main/kotlin/graph/Printer.kt:191-239 | the listing reads back as one group per type (`pkg.Type:`) and per callable (`pkg.Type.name:`), each with one line per static call and creation, or per call and creation |
| Renderer.TypeBlockShape | src/main/kotlin/graph/Printer.kt:201-208 | a type's group has header `pkg.Type:` and one line per static site |
| Renderer.CallableBlockShape | src/main/kotlin/graph/Printer.kt:210-218 | a callable's group has header `pkg.Type.name:` and one line per site |
| Renderer.TextShapeIndependentOfResolver | src/main/kotlin/graph/Printer.kt:220-239 | a resolution failure never aborts or drops a line: under any two resolvers the listing has the same groups, headers and line counts |
| Renderer.FlattenLength | src/main/kotlin/graph/Printer.kt:191-239 | the listing has one line per scope plus one per site |
| Renderer.RenderDot | src/main/kotlin/graph/Printer.kt:79-95 | the graph starts with the five header lines and ends with the closing brace |
| Renderer.DotTargetName | src/main/kotlin/graph/Printer.kt:135-166 | the resolved qualified name, or the call's name or created type's name when resolution fails; formatted, it is the site's node, and `Renderer.DotScopesHaveEdges` shows the edge to it |
| Renderer.DotTargetLabel | src/main/kotlin/graph/Printer.kt:168-189 | the name with the type parameters, or with the quote-escaped argument texts, through `formatDotLabel`; `Renderer.DotTargetLabelSingle` proves it holds no line break |
| Renderer.DotSiteLines | src/main/kotlin/graph/Printer.kt:168-189 | a node line, then the edge from the scope; `Renderer.DotSiteLinesSingle` proves both are single lines, and `Renderer.DotSitesLength` and `Renderer.DotSitesHaveEdges` count them and find the edge |
| Renderer.DotScope | src/main/kotlin/graph/Printer.kt:97-133 | one subgraph: its opening line, the scope's node, its sites, then the closing brace; `Renderer.DotScopeSingle` proves every line single, and `Renderer.DotScopesLength` counts three lines plus two per site |
| Renderer.DotScopes | src/main/kotlin/graph/Printer.kt:86-92 | every scope's subgraph, types first; `Renderer.DotScopesContain` and `Renderer.DotScopesHaveEdges` state that every site of every scope becomes an edge |
| Renderer.DotSitesLength | src/main/kotlin/graph/Printer.kt:168-189 | every site gives exactly two lines: a node and an edge |
| Renderer.DotScopesLength | src/main/kotlin/graph/Printer.kt:97-133 | every scope gives its subgraph line, its own node, two lines per site and its closing brace |
| Renderer.DotLengthFromText | src/main/kotlin/graph/Printer.kt:79-239 | the graph has twice as many lines as the listing, plus one per scope, plus six |
| Renderer.DotLengthIndependentOfResolver | src/main/kotlin/graph/Printer.kt:135-166 | a resolution failure changes labels but never the number of lines |
| Renderer.DotNodeLineSingle | src/main/kotlin/graph/Printer.kt:174 | a node line with an identifier and a label without line breaks is one line |
| Renderer.DotEdgeLineSingle | src/main/kotlin/graph/Printer.kt:175 | an edge line between two identifiers is one line |
| Renderer.DotTargetLabelSingle | src/main/kotlin/graph/Printer.kt:168-189 | a site's label, resolved or not, has no line break |
| Renderer.DotLinesAreSingleLines | src/main/kotlin/graph/Printer.kt:79-189 | whatever names and argument texts hold, every printed DOT line is a single line |
| Renderer.DotScopesHaveEdges | src/main/kotlin/graph/Printer.kt:107-130 | every site of every scope becomes an edge from the scope's node |
| Renderer.DotHasCallableEdges | src/main/kotlin/graph/Printer.kt:113-133 | every call and creation registered under a callable is an edge `callableId -> siteId` of the graph |
| Renderer.DotHasTypeEdges | src/main/kotlin/graph/Printer.kt:97-111 | every static call and creation registered under a type is an edge `typeId -> siteId` of the graph |
| Renderer.Render | src/main/kotlin/graph/Printer.kt:67-72 | the output is the graph exactly when DOT output is asked for: it starts with `digraph G {` if and only if `dotOutput` holds |
| LegacyVisitor.Visit | src/main/kotlin/Visitor.kt:25-148 | a successful visit leaves the type and callable stacks as it found them |
| LegacyVisitor.VisitAll | src/main/kotlin/Visitor.kt:29 | the same for a sequence of siblings |
| LegacyVisitor.VisitAgrees | src/main/kotlin/Visitor.kt:25-148 | the older visitor fails exactly when the scope visitor (with its package handling) fails; otherwise it leaves the same stacks and fills its four maps exactly as the scope visitor fills the registry |
| LegacyVisitor.VisitAllAgrees | src/main/kotlin/Visitor.kt:25-148 | the same for a sequence of siblings |
| LegacyVisitor.VisitUnit | src/main/kotlin/Main.kt:126-127 | a fresh older visitor accepting one unit; `LegacyVisitor.VisitUnitAgrees` proves it equal to the scope visitor as written on an empty registry |
| LegacyVisitor.VisitUnitAgrees | src/main/kotlin/Main.kt:119-135 | a fresh older visitor builds, for a unit, what the scope visitor registers for it in an empty registry |
| LegacyVisitor.UnitPrintable | src/main/kotlin/Visitor.kt:155-157 | the maps built for a unit are well formed, so the `!!` lookups of `printMethodDeclaration` never fail |
| LegacyVisitor.Header | src/main/kotlin/Visitor.kt:155-159 | `package.Type.name:` read through the two `!!` lookups; `LegacyVisitor.GroupsAreCallableBlocks` proves it equal to the printer's callable header |
| LegacyVisitor.CallLines | src/main/kotlin/Visitor.kt:166-174 | one line per call, resolved or not; `LegacyVisitor.GroupsAreCallableBlocks` proves these equal to the printer's call lines |
| LegacyVisitor.Groups | src/main/kotlin/Visitor.kt:155-164 | one group per callable, each closed by an empty line; `LegacyVisitor.GroupsAreCallableBlocks` proves each is the printer's callable group plus that line |
| LegacyVisitor.Print | src/main/kotlin/Visitor.kt:150-153 | the groups of all callables, then an empty line; `LegacyVisitor.PrintIsCallableListing` proves it is the callable part of the printer's listing |
| LegacyVisitor.GroupsAreCallableBlocks | src/main/kotlin/Visitor.kt:155-174 | each callable group of the older printer is the printer's callable group followed by an empty line |
| LegacyVisitor.PrintIsCallableListing | src/main/kotlin/Visitor.kt:150-164 | the older `print` is exactly the callable part of the listing, each group followed by an empty line, plus one final empty line: static calls are never printed |
| Wrappers.Collect | src/main/kotlin/Main.kt:123-131 | a loop whose exceptions escape: all the values in order when every step succeeds, otherwise the error of the first failing step, every earlier step having succeeded |
| Wrappers.CollectAppend | src/main/kotlin/Main.kt:123-131 | running two parts one after the other: the first part's first error, else the second part's, else all values in order |
| LegacyVisitor.VisitRoot | src/main/kotlin/Main.kt:120-131 | one fresh visitor per parsed unit, in order: it succeeds exactly when every unit's walk succeeds, then holds each unit's maps at its position, and otherwise fails with the first failing unit's error |
| LegacyVisitor.VisitRootAppend | src/main/kotlin/Main.kt:120-131 | walking two lists of units one after the other: the first list's failure, else the second's, else both lists' maps in order |
| LegacyVisitor.ProcessSourceRoot | src/main/kotlin/Main.kt:119-135 | every unit is walked before anything is printed: the root prints exactly when every unit's walk succeeds, and otherwise fails with the first failing unit's error and prints nothing |
| LegacyVisitor.ProcessSourceRootSingle | src/main/kotlin/Main.kt:119-135 | a root of one unit prints exactly that unit's older-visitor print |
| LegacyVisitor.ProcessSourceRootAppend | src/main/kotlin/Main.kt:119-135 | splitting a root: both parts' output in order when both walk cleanly; a failing second part loses the clean first part's output too |

## Left out

- The lazily created singleton with double-checked locking (graph/Printer.kt:29-37) is concurrency. The registry is a value passed from one operation to the next.
- `setOutputFile` and the `PrintStream` are I/O. Output is a sequence of lines, one per `println`, and the log calls are dropped.
- Argument parsing, file and jar discovery, type-solver setup and source-root parsing (cli/Cli.kt, cli/LibraryOptions.kt, most of Main.kt) are configuration and I/O. Only the loops over parsed units are modelled: `ScopeVisitor.VisitUnits` and `LegacyVisitor.ProcessSourceRoot`.
- Parsing is not modelled: `tryToParse` results that are not successful are skipped (src/main/kotlin/Main.kt:125), so `LegacyVisitor.ProcessSourceRoot` takes the successfully parsed units only.
- JavaParser is not part of this model. Parsed trees are a `Node` datatype that keeps only the shapes the visitors tell apart. Entities carry an abstract `id` standing for JavaParser's node equality, so equal records are the same node.
- Symbol resolution is a parameter. `JavaParserFacade.solve` is a `Resolver` that returns `None` where the printers catch an exception.
- Iteration order is a parameter (`Renderer.Order`). Each listing names every key and every site exactly once. The type and callable keys of graph/Printer.kt come in `HashMap` order. Its site sets are made by `mutableSetOf()` (graph/Printer.kt:48, 53, 58, 63), which iterates in insertion order, so each scope's sites are printed in first-registration order. The model does not state that order; every property proved holds for every order. The older visitor's site sets are `HashSet`s (src/main/kotlin/Visitor.kt:138, 145) and iterate in hash order.
- The text printer does not escape line breaks in argument texts. Its lines are modelled as given, one per `println`, and the read-back lemmas are about that sequence of lines; they assume package names do not start with a tab. An unresolved site's argument texts come from JavaParser's printer, which writes a block lambda or an anonymous class body over several lines. So the printed file reads back only when no unresolved site's argument text contains a line break.
- Renderer.RenderDot and Renderer.Render: the `!!` lookups in the printers are preconditions (`WellFormed`), not error results. The source does not handle their failure. `ScopeVisitorProperties.VisitUnitsWellFormed` shows the driver always meets them.
- A unit without a package declaration: its first type's `packageStack.peek()` (src/main/kotlin/parser/Visitor.kt:31, and src/main/kotlin/Visitor.kt:37 in the older visitor) throws on the empty stack. The model returns `Err(EmptyPackageStack)`: see `ScopeVisitorProperties.NoPackageUnitFails`.
- Text.SplitJoin: the inverse of `joinToString` is stated for one-character separators only; the source always joins with `", "`, whose inverse would need a substring search, and the join itself (`Text.JoinToString`) is modelled for any separator.
- The four type-declaration overrides (class or interface, enum, record, annotation) are identical. They are one `TypeDecl` case with a `TypeKind` tag.
- The local `joinToString` of Visitor.kt:176-188 is the same code as that of graph/Printer.kt:248-264. It is modelled once, as `Text.JoinToString`.

## Findings

| source | as written | input that shows it | evidently intended | confidence | as-written member | corrected member |
|---|---|---|---|---|---|---|
| src/main/kotlin/parser/Visitor.kt:38-41 | the package stack is popped as soon as the type stack is empty again, so the package scope closes after the first top-level type; the next top-level type's `packageStack.peek()` (line 31) throws | a compilation unit `package p; class A {} class B {}` | the package stays open for the whole compilation unit, and every top-level type is registered under it | high (not executed) | ScopeVisitorProperties.SecondTopLevelTypeFails | ScopeVisitorProperties.CorrectedUnitRegistersEveryType |

The same pop is in Visitor.kt:44-47, and `LegacyVisitor.VisitAgrees` carries it over. The fold is parameterised by `PackageScoping`. `CloseWithOutermostType` is the code as written. `KeepForUnit` is the corrected behaviour. `ScopeVisitorProperties.SingleTopLevelTypeAgrees` shows the two give the same registry on units with one top-level type.
