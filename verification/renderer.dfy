/** The two printers of graph/Printer.kt: the plain-text listing and the DOT
    graph. Both walk the same scopes in the same order, so they are written
    here over one intermediate form, the scope view: a scope's qualified
    name, its label and the sites it lists.

    Output is a sequence of lines, one per `println`. Iteration order is a
    parameter, an `Order`, constrained only to list every key and every site
    exactly once: the type and callable keys come in hash-map order, and each
    scope's sites in the order they were first registered (the site sets are
    insertion-ordered), which no property here depends on. Symbol resolution is a parameter too: a `Resolver` answers
    `None` where the source catches a resolution exception. */
module Renderer {
  import opened Wrappers
  import opened Entities
  import opened Registry
  import opened Text
  import opened DotFormat

  type Resolver = Target -> Option<Resolved>

  // ---------------------------------------------------------------- order

  /** `s` lists the elements of `elems`, each exactly once. */
  ghost predicate Lists<T(!new)>(s: seq<T>, elems: set<T>)
  {
    && (forall i, j :: 0 <= i < j < |s| ==> s[i] != s[j])
    && (forall x :: x in s <==> x in elems)
  }

  /** A duplicate-free listing is as long as the set it lists. */
  lemma {:induction false} ListsCardinality<T(!new)>(s: seq<T>, elems: set<T>)
    requires Lists(s, elems)
    ensures |s| == |elems|
    decreases s
  {
    if |s| > 0 {
      var rest := s[1..];
      var others := elems - {s[0]};
      forall x
        ensures x in rest <==> x in others
      {
        if x in rest {
          var k :| 0 <= k < |rest| && rest[k] == x;
          assert s[k + 1] == x;
        }
        if x in others {
          var k :| 0 <= k < |s| && s[k] == x;
          assert rest[k - 1] == x;
        }
      }
      assert forall i, j :: 0 <= i < j < |rest| ==> rest[i] == s[i + 1] && rest[j] == s[j + 1];
      ListsCardinality(rest, others);
    }
  }

  /** The sequence stored under k, or nothing when k is absent (the source's
      `map[k]?.forEach`). */
  function SeqAt<K, V>(m: map<K, seq<V>>, k: K): seq<V>
  {
    if k in m then m[k] else []
  }

  /** Each site set of `src` is listed by the sequence under the same key. */
  ghost predicate ListsMap<K, V(!new)>(m: map<K, seq<V>>, src: map<K, set<V>>)
  {
    && m.Keys == src.Keys
    && (forall k :: k in m ==> Lists(m[k], src[k]))
  }

  /** One iteration order of every map and set of the registry. */
  datatype Order = Order(
    types: seq<TypeRef>,
    callables: seq<CallableRef>,
    staticCalls: map<TypeRef, seq<CallSite>>,
    staticCreations: map<TypeRef, seq<CreationSite>>,
    calls: map<CallableRef, seq<CallSite>>,
    creations: map<CallableRef, seq<CreationSite>>)

  ghost predicate Enumerates(o: Order, reg: Registry)
  {
    && Lists(o.types, reg.typePackage.Keys)
    && Lists(o.callables, reg.callableType.Keys)
    && ListsMap(o.staticCalls, reg.staticCalls)
    && ListsMap(o.staticCreations, reg.staticCreations)
    && ListsMap(o.calls, reg.calls)
    && ListsMap(o.creations, reg.creations)
  }

  // ---------------------------------------------------------------- scope views

  /** What a printer needs of one scope: the qualified name that heads it,
      the text its DOT label shows and the sites it lists, calls first. */
  datatype ScopeView = ScopeView(qualifiedName: string, title: string, sites: seq<Target>)

  function Targets(calls: seq<CallSite>, creations: seq<CreationSite>): seq<Target>
  {
    seq(|calls|, i requires 0 <= i < |calls| => OfCall(calls[i]))
      + seq(|creations|, i requires 0 <= i < |creations| => OfCreation(creations[i]))
  }

  /** `sites` shows each call of `calls` and each creation of `creations`
      exactly once, and nothing else. */
  ghost predicate ShowsExactly(sites: seq<Target>, calls: set<CallSite>, creations: set<CreationSite>)
  {
    && (forall i, j :: 0 <= i < j < |sites| ==> sites[i] != sites[j])
    && (forall x :: x in sites <==>
                      (x.OfCall? && x.call in calls) || (x.OfCreation? && x.creation in creations))
  }

  lemma TargetsShowExactly(calls: seq<CallSite>, creations: seq<CreationSite>,
                           callSet: set<CallSite>, creationSet: set<CreationSite>)
    requires Lists(calls, callSet) && Lists(creations, creationSet)
    ensures ShowsExactly(Targets(calls, creations), callSet, creationSet)
    ensures |Targets(calls, creations)| == |callSet| + |creationSet|
  {
    var ts := Targets(calls, creations);
    forall x
      ensures x in ts <==> (x.OfCall? && x.call in callSet) || (x.OfCreation? && x.creation in creationSet)
    {
      if x.OfCall? && x.call in callSet {
        var k :| 0 <= k < |calls| && calls[k] == x.call;
        assert ts[k] == x;
      }
      if x.OfCreation? && x.creation in creationSet {
        var k :| 0 <= k < |creations| && creations[k] == x.creation;
        assert ts[|calls| + k] == x;
      }
    }
    ListsCardinality(calls, callSet);
    ListsCardinality(creations, creationSet);
  }

  /** The scope of a type: `package.Type`, listing the calls and creations
      made outside any callable of the type. */
  function TypeView(reg: Registry, o: Order, t: TypeRef): (v: ScopeView)
    requires t in reg.typePackage && Enumerates(o, reg)
    ensures ShowsExactly(v.sites, SetAt(reg.staticCalls, t), SetAt(reg.staticCreations, t))
    ensures |v.sites| == |SetAt(reg.staticCalls, t)| + |SetAt(reg.staticCreations, t)|
  {
    var name := reg.typePackage[t].name + "." + t.name;
    var calls := SeqAt(o.staticCalls, t);
    var creations := SeqAt(o.staticCreations, t);
    TargetsShowExactly(calls, creations, SetAt(reg.staticCalls, t), SetAt(reg.staticCreations, t));
    ScopeView(name, name, Targets(calls, creations))
  }

  /** The qualified name of a callable: `package.Type.callable`. */
  function CallableName(reg: Registry, c: CallableRef): string
    requires c in reg.callableType && reg.callableType[c] in reg.typePackage
  {
    var t := reg.callableType[c];
    reg.typePackage[t].name + "." + t.name + "." + c.name
  }

  /** The scope of a callable: headed by its qualified name, labelled with its
      parameter types as well, listing the calls and creations in its body. */
  function CallableView(reg: Registry, o: Order, c: CallableRef): (v: ScopeView)
    requires c in reg.callableType && reg.callableType[c] in reg.typePackage && Enumerates(o, reg)
    ensures ShowsExactly(v.sites, SetAt(reg.calls, c), SetAt(reg.creations, c))
    ensures |v.sites| == |SetAt(reg.calls, c)| + |SetAt(reg.creations, c)|
  {
    var name := CallableName(reg, c);
    var calls := SeqAt(o.calls, c);
    var creations := SeqAt(o.creations, c);
    TargetsShowExactly(calls, creations, SetAt(reg.calls, c), SetAt(reg.creations, c));
    ScopeView(name, name + "(" + Join(c.paramTypes, ", ") + ")", Targets(calls, creations))
  }

  /** Every registered type, then every registered callable: one scope per
      declaration, in the order the maps hand out their keys. */
  function Views(reg: Registry, o: Order): (vs: seq<ScopeView>)
    requires WellFormed(reg) && Enumerates(o, reg)
    ensures |vs| == |reg.typePackage| + |reg.callableType|
  {
    ListsCardinality(o.types, reg.typePackage.Keys);
    ListsCardinality(o.callables, reg.callableType.Keys);
    seq(|o.types|, i requires 0 <= i < |o.types| => TypeView(reg, o, o.types[i]))
      + seq(|o.callables|, i requires 0 <= i < |o.callables| => CallableView(reg, o, o.callables[i]))
  }

  /** The number of sites all the scopes list together. */
  function SiteCount(vs: seq<ScopeView>): nat
  {
    if |vs| == 0 then 0 else |vs[0].sites| + SiteCount(vs[1..])
  }

  // ---------------------------------------------------------------- sites

  function SiteName(t: Target): string
  {
    match t
    case OfCall(s) => s.name
    case OfCreation(s) => s.typeName
  }

  function SiteArgs(t: Target): seq<string>
  {
    match t
    case OfCall(s) => s.args
    case OfCreation(s) => s.args
  }

  // ---------------------------------------------------------------- text

  /** A listing line: a tab, then the resolved qualified name with its type
      parameters, or, when resolution fails, the site's own name with its
      argument texts. */
  function TextSiteLine(t: Target, resolve: Resolver): string
  {
    match resolve(t)
    case Some(r) => "\t" + r.qualifiedName + "(" + Join(r.typeParams, ", ") + ")"
    case None => "\t" + SiteName(t) + "(" + Join(SiteArgs(t), ", ") + ")"
  }

  /** One group of the listing: a header line and its site lines. */
  datatype Block = Block(header: string, entries: seq<string>)

  function TextBlock(v: ScopeView, resolve: Resolver): Block
  {
    Block(v.qualifiedName + ":",
          seq(|v.sites|, i requires 0 <= i < |v.sites| => TextSiteLine(v.sites[i], resolve)))
  }

  function TextBlocks(vs: seq<ScopeView>, resolve: Resolver): seq<Block>
  {
    seq(|vs|, i requires 0 <= i < |vs| => TextBlock(vs[i], resolve))
  }

  /** The lines of the groups, one after the other. */
  function Flatten(bs: seq<Block>): seq<string>
  {
    if |bs| == 0 then [] else [bs[0].header] + bs[0].entries + Flatten(bs[1..])
  }

  /** The listing printed by `print`. */
  function RenderText(reg: Registry, o: Order, resolve: Resolver): seq<string>
    requires WellFormed(reg) && Enumerates(o, reg)
  {
    Flatten(TextBlocks(Views(reg, o), resolve))
  }

  // ---------------------------------------------------------------- reading the text back

  /** A site line starts with a tab; a header does not. */
  predicate IsEntry(line: string)
  {
    |line| > 0 && line[0] == '\t'
  }

  /** The number of site lines at the front of `lines`. */
  function LeadingEntries(lines: seq<string>): (n: nat)
    ensures n <= |lines|
    ensures forall i :: 0 <= i < n ==> IsEntry(lines[i])
    ensures n < |lines| ==> !IsEntry(lines[n])
  {
    if |lines| == 0 || !IsEntry(lines[0]) then 0 else 1 + LeadingEntries(lines[1..])
  }

  /** Splits a listing into groups: each non-site line opens a group that
      collects the site lines after it. */
  function ReadBlocks(lines: seq<string>): seq<Block>
    decreases |lines|
  {
    if |lines| == 0 then []
    else
      var n := LeadingEntries(lines[1..]);
      [Block(lines[0], lines[1..1 + n])] + ReadBlocks(lines[1 + n..])
  }

  /** A group that reads back as itself: a header that is not a site line,
      followed by site lines only. */
  predicate ReadableBlock(b: Block)
  {
    !IsEntry(b.header) && forall j :: 0 <= j < |b.entries| ==> IsEntry(b.entries[j])
  }

  predicate Readable(bs: seq<Block>)
  {
    forall i :: 0 <= i < |bs| ==> ReadableBlock(bs[i])
  }

  lemma {:induction false} LeadingEntriesOfBlock(entries: seq<string>, rest: seq<string>)
    requires forall j :: 0 <= j < |entries| ==> IsEntry(entries[j])
    requires |rest| > 0 ==> !IsEntry(rest[0])
    ensures LeadingEntries(entries + rest) == |entries|
    decreases |entries|
  {
    if |entries| == 0 {
      assert entries + rest == rest;
    } else {
      assert (entries + rest)[1..] == entries[1..] + rest;
      LeadingEntriesOfBlock(entries[1..], rest);
    }
  }

  lemma FlattenStartsWithHeader(bs: seq<Block>)
    requires |bs| > 0
    ensures |Flatten(bs)| > 0 && Flatten(bs)[0] == bs[0].header
  {
  }

  /** Reading the lines of readable groups gives the groups back. */
  lemma {:induction false} ReadFlatten(bs: seq<Block>)
    requires Readable(bs)
    ensures ReadBlocks(Flatten(bs)) == bs
    decreases |bs|
  {
    if |bs| > 0 {
      var b := bs[0];
      assert ReadableBlock(b);
      var others := bs[1..];
      assert Readable(others) by {
        assert forall i :: 0 <= i < |others| ==> others[i] == bs[i + 1];
      }
      var rest := Flatten(others);
      if |others| > 0 {
        FlattenStartsWithHeader(others);
        assert ReadableBlock(bs[1]);
      }
      var tail := b.entries + rest;
      var lines := Flatten(bs);
      assert lines == [b.header] + tail;
      var n := |b.entries|;
      LeadingEntriesOfBlock(b.entries, rest);
      assert lines[1..] == tail;
      assert lines[1..1 + n] == b.entries;
      assert lines[1 + n..] == rest;
      ReadFlatten(others);
    }
  }

  /** Package names are Java names: none starts with a tab. */
  predicate PlainPackageNames(reg: Registry)
  {
    forall t :: t in reg.typePackage ==> !IsEntry(reg.typePackage[t].name)
  }

  /** A header line is a package name followed by more text. */
  lemma HeaderIsNoEntry(p: string, more: string)
    requires !IsEntry(p) && |more| > 0 && more[0] == '.'
    ensures !IsEntry(p + more)
  {
    assert (p + more)[0] == if |p| > 0 then p[0] else more[0];
  }

  lemma TextBlockReadable(v: ScopeView, resolve: Resolver)
    requires !IsEntry(v.qualifiedName + ":")
    ensures ReadableBlock(TextBlock(v, resolve))
  {
    var b := TextBlock(v, resolve);
    forall j | 0 <= j < |b.entries|
      ensures IsEntry(b.entries[j])
    {
      assert b.entries[j] == TextSiteLine(v.sites[j], resolve);
    }
  }

  lemma TextBlocksReadable(reg: Registry, o: Order, resolve: Resolver)
    requires WellFormed(reg) && Enumerates(o, reg) && PlainPackageNames(reg)
    ensures Readable(TextBlocks(Views(reg, o), resolve))
  {
    var vs := Views(reg, o);
    var bs := TextBlocks(vs, resolve);
    forall i | 0 <= i < |bs|
      ensures ReadableBlock(bs[i])
    {
      if i < |o.types| {
        var t := o.types[i];
        assert t in reg.typePackage;
        assert vs[i].qualifiedName + ":" == reg.typePackage[t].name + ("." + t.name + ":");
        HeaderIsNoEntry(reg.typePackage[t].name, "." + t.name + ":");
      } else {
        var c := o.callables[i - |o.types|];
        assert c in reg.callableType;
        var t := reg.callableType[c];
        assert vs[i].qualifiedName + ":" == reg.typePackage[t].name + ("." + t.name + "." + c.name + ":");
        HeaderIsNoEntry(reg.typePackage[t].name, "." + t.name + "." + c.name + ":");
      }
      TextBlockReadable(vs[i], resolve);
    }
  }

  /** The listing reads back as its groups, one per registered type and
      callable. */
  lemma ReadRenderedTextBlocks(reg: Registry, o: Order, resolve: Resolver)
    requires WellFormed(reg) && Enumerates(o, reg) && PlainPackageNames(reg)
    ensures ReadBlocks(RenderText(reg, o, resolve)) == TextBlocks(Views(reg, o), resolve)
  {
    TextBlocksReadable(reg, o, resolve);
    ReadFlatten(TextBlocks(Views(reg, o), resolve));
  }

  lemma TypeBlockShape(reg: Registry, o: Order, resolve: Resolver, i: nat)
    requires WellFormed(reg) && Enumerates(o, reg) && i < |o.types|
    ensures o.types[i] in reg.typePackage
    ensures var b := TextBlocks(Views(reg, o), resolve)[i];
            && b.header == reg.typePackage[o.types[i]].name + "." + o.types[i].name + ":"
            && |b.entries| == |SetAt(reg.staticCalls, o.types[i])| + |SetAt(reg.staticCreations, o.types[i])|
  {
    assert o.types[i] in reg.typePackage.Keys;
    assert Views(reg, o)[i] == TypeView(reg, o, o.types[i]);
  }

  lemma CallableBlockShape(reg: Registry, o: Order, resolve: Resolver, k: nat)
    requires WellFormed(reg) && Enumerates(o, reg) && k < |o.callables|
    ensures o.callables[k] in reg.callableType
    ensures var b := TextBlocks(Views(reg, o), resolve)[|o.types| + k];
            && b.header == CallableName(reg, o.callables[k]) + ":"
            && |b.entries| == |SetAt(reg.calls, o.callables[k])| + |SetAt(reg.creations, o.callables[k])|
  {
    assert o.callables[k] in reg.callableType.Keys;
    assert Views(reg, o)[|o.types| + k] == CallableView(reg, o, o.callables[k]);
  }

  /** The listing reads back as one group per registered type and callable:
      the group of a scope is headed by its qualified name and a colon, and
      holds one line per site of that scope. */
  lemma ReadRenderedText(reg: Registry, o: Order, resolve: Resolver)
    requires WellFormed(reg) && Enumerates(o, reg) && PlainPackageNames(reg)
    ensures |ReadBlocks(RenderText(reg, o, resolve))| == |reg.typePackage| + |reg.callableType|
    ensures forall i :: 0 <= i < |o.types| ==>
              && ReadBlocks(RenderText(reg, o, resolve))[i].header
                 == reg.typePackage[o.types[i]].name + "." + o.types[i].name + ":"
              && |ReadBlocks(RenderText(reg, o, resolve))[i].entries|
                 == |SetAt(reg.staticCalls, o.types[i])| + |SetAt(reg.staticCreations, o.types[i])|
    ensures forall k :: 0 <= k < |o.callables| ==>
              && ReadBlocks(RenderText(reg, o, resolve))[|o.types| + k].header
                 == CallableName(reg, o.callables[k]) + ":"
              && |ReadBlocks(RenderText(reg, o, resolve))[|o.types| + k].entries|
                 == |SetAt(reg.calls, o.callables[k])| + |SetAt(reg.creations, o.callables[k])|
  {
    ReadRenderedTextBlocks(reg, o, resolve);
    forall i | 0 <= i < |o.types| {
      TypeBlockShape(reg, o, resolve, i);
    }
    forall k | 0 <= k < |o.callables| {
      CallableBlockShape(reg, o, resolve, k);
    }
  }

  /** Resolution changes only the site lines: under any two resolvers the
      listing reads back into groups with the same headers and the same number
      of lines each. */
  lemma TextShapeIndependentOfResolver(reg: Registry, o: Order, r1: Resolver, r2: Resolver)
    requires WellFormed(reg) && Enumerates(o, reg) && PlainPackageNames(reg)
    ensures var b1 := ReadBlocks(RenderText(reg, o, r1));
            var b2 := ReadBlocks(RenderText(reg, o, r2));
            && |b1| == |b2|
            && (forall i :: 0 <= i < |b1| ==> b1[i].header == b2[i].header && |b1[i].entries| == |b2[i].entries|)
  {
    ReadRenderedTextBlocks(reg, o, r1);
    ReadRenderedTextBlocks(reg, o, r2);
  }

  lemma {:induction false} FlattenLength(vs: seq<ScopeView>, resolve: Resolver)
    ensures |Flatten(TextBlocks(vs, resolve))| == |vs| + SiteCount(vs)
    decreases |vs|
  {
    if |vs| > 0 {
      assert TextBlocks(vs, resolve)[1..] == TextBlocks(vs[1..], resolve);
      FlattenLength(vs[1..], resolve);
    }
  }

  // ---------------------------------------------------------------- DOT

  const DotPreamble: seq<string> :=
    ["digraph G {", "  rankdir=LR", "  node [shape=record]", "  edge [arrowhead=vee]", ""]

  function DotNodeLine(id: string, text: string): string
  {
    "    " + id + " [label=\"" + text + "\"]"
  }

  function DotEdgeLine(parentId: string, id: string): string
  {
    "    " + parentId + " -> " + id
  }

  /** The node name of a site: the resolved qualified name, or the site's own
      name when resolution fails. */
  function DotTargetName(t: Target, resolve: Resolver): string
  {
    match resolve(t)
    case Some(r) => r.qualifiedName
    case None => SiteName(t)
  }

  /** The node label of a site: its name and, in parentheses, the resolved
      type parameters or the argument texts with their quotes escaped. */
  function DotTargetLabel(t: Target, resolve: Resolver): string
  {
    match resolve(t)
    case Some(r) => FormatDotLabel(r.qualifiedName + "(" + Join(r.typeParams, ", ") + ")")
    case None => FormatDotLabel(SiteName(t) + "(" + FormatDotArguments(Join(SiteArgs(t), ", ")) + ")")
  }

  /** A site's node and the edge to it from its scope. */
  function DotSiteLines(parentId: string, t: Target, resolve: Resolver): seq<string>
  {
    var id := FormatDotName(DotTargetName(t, resolve));
    [DotNodeLine(id, DotTargetLabel(t, resolve)), DotEdgeLine(parentId, id)]
  }

  function DotSites(parentId: string, sites: seq<Target>, resolve: Resolver): seq<string>
  {
    if |sites| == 0 then []
    else DotSiteLines(parentId, sites[0], resolve) + DotSites(parentId, sites[1..], resolve)
  }

  /** One subgraph per scope: its own node, then its sites, then the brace. */
  function DotScope(v: ScopeView, resolve: Resolver): seq<string>
  {
    var id := FormatDotName(v.qualifiedName);
    ["  subgraph " + id + " {", DotNodeLine(id, FormatDotLabel(v.title))]
      + DotSites(id, v.sites, resolve) + ["  }"]
  }

  function DotScopes(vs: seq<ScopeView>, resolve: Resolver): seq<string>
  {
    if |vs| == 0 then [] else DotScope(vs[0], resolve) + DotScopes(vs[1..], resolve)
  }

  /** The graph printed by `printDot`. */
  function RenderDot(reg: Registry, o: Order, resolve: Resolver): (lines: seq<string>)
    requires WellFormed(reg) && Enumerates(o, reg)
    ensures |lines| >= 6
    ensures lines[..5] == DotPreamble && lines[|lines| - 1] == "}"
  {
    DotPreamble + DotScopes(Views(reg, o), resolve) + ["}"]
  }

  lemma {:induction false} DotSitesLength(parentId: string, sites: seq<Target>, resolve: Resolver)
    ensures |DotSites(parentId, sites, resolve)| == 2 * |sites|
    decreases |sites|
  {
    if |sites| > 0 {
      DotSitesLength(parentId, sites[1..], resolve);
    }
  }

  lemma {:induction false} DotScopesLength(vs: seq<ScopeView>, resolve: Resolver)
    ensures |DotScopes(vs, resolve)| == 3 * |vs| + 2 * SiteCount(vs)
    decreases |vs|
  {
    if |vs| > 0 {
      DotSitesLength(FormatDotName(vs[0].qualifiedName), vs[0].sites, resolve);
      DotScopesLength(vs[1..], resolve);
    }
  }

  /** The graph has two lines per listing line, one closing brace per scope
      and the six lines around them. */
  lemma DotLengthFromText(reg: Registry, o: Order, resolve: Resolver)
    requires WellFormed(reg) && Enumerates(o, reg)
    ensures |RenderDot(reg, o, resolve)|
         == 2 * |RenderText(reg, o, resolve)| + |reg.typePackage| + |reg.callableType| + 6
  {
    var vs := Views(reg, o);
    FlattenLength(vs, resolve);
    DotScopesLength(vs, resolve);
  }

  /** Resolution changes labels and node names but not the number of lines. */
  lemma DotLengthIndependentOfResolver(reg: Registry, o: Order, r1: Resolver, r2: Resolver)
    requires WellFormed(reg) && Enumerates(o, reg)
    ensures |RenderDot(reg, o, r1)| == |RenderDot(reg, o, r2)|
  {
    DotScopesLength(Views(reg, o), r1);
    DotScopesLength(Views(reg, o), r2);
  }

  // ---------------------------------------------------------------- DOT lines are single lines

  predicate SingleLine(line: string)
  {
    '\n' !in line && '\r' !in line
  }

  lemma SingleLineConcat(a: string, b: string)
    requires SingleLine(a) && SingleLine(b)
    ensures SingleLine(a + b)
  {
  }

  lemma DotIdSingleLine(id: string)
    requires IsDotId(id)
    ensures SingleLine(id)
  {
    assert !IsDotIdChar('\n') && !IsDotIdChar('\r');
  }

  /** A node line is one line when its identifier and label are. */
  lemma DotNodeLineSingle(id: string, text: string)
    requires IsDotId(id) && SingleLine(text)
    ensures SingleLine(DotNodeLine(id, text))
  {
    DotIdSingleLine(id);
    SingleLineConcat("    ", id);
    SingleLineConcat("    " + id, " [label=\"");
    SingleLineConcat("    " + id + " [label=\"", text);
    SingleLineConcat("    " + id + " [label=\"" + text, "\"]");
  }

  lemma DotEdgeLineSingle(parentId: string, id: string)
    requires IsDotId(parentId) && IsDotId(id)
    ensures SingleLine(DotEdgeLine(parentId, id))
  {
    DotIdSingleLine(parentId);
    DotIdSingleLine(id);
    SingleLineConcat("    ", parentId);
    SingleLineConcat("    " + parentId, " -> ");
    SingleLineConcat("    " + parentId + " -> ", id);
  }

  lemma DotTargetLabelSingle(t: Target, resolve: Resolver)
    ensures SingleLine(DotTargetLabel(t, resolve))
  {
    match resolve(t)
    case Some(r) =>
      LabelHasNoLineBreaks(r.qualifiedName + "(" + Join(r.typeParams, ", ") + ")");
    case None =>
      LabelHasNoLineBreaks(SiteName(t) + "(" + FormatDotArguments(Join(SiteArgs(t), ", ")) + ")");
  }

  lemma DotSiteLinesSingle(parentId: string, t: Target, resolve: Resolver)
    requires IsDotId(parentId)
    ensures forall line :: line in DotSiteLines(parentId, t, resolve) ==> SingleLine(line)
  {
    var id := FormatDotName(DotTargetName(t, resolve));
    var text := DotTargetLabel(t, resolve);
    DotTargetLabelSingle(t, resolve);
    DotNodeLineSingle(id, text);
    DotEdgeLineSingle(parentId, id);
  }

  lemma {:induction false} DotSitesSingle(parentId: string, sites: seq<Target>, resolve: Resolver)
    requires IsDotId(parentId)
    ensures forall line :: line in DotSites(parentId, sites, resolve) ==> SingleLine(line)
    decreases |sites|
  {
    if |sites| > 0 {
      DotSiteLinesSingle(parentId, sites[0], resolve);
      DotSitesSingle(parentId, sites[1..], resolve);
    }
  }

  lemma DotScopeSingle(v: ScopeView, resolve: Resolver)
    ensures forall line :: line in DotScope(v, resolve) ==> SingleLine(line)
  {
    var id := FormatDotName(v.qualifiedName);
    DotIdSingleLine(id);
    SingleLineConcat("  subgraph ", id);
    SingleLineConcat("  subgraph " + id, " {");
    LabelHasNoLineBreaks(v.title);
    DotNodeLineSingle(id, FormatDotLabel(v.title));
    DotSitesSingle(id, v.sites, resolve);
  }

  lemma {:induction false} DotScopesSingle(vs: seq<ScopeView>, resolve: Resolver)
    ensures forall line :: line in DotScopes(vs, resolve) ==> SingleLine(line)
    decreases |vs|
  {
    if |vs| > 0 {
      DotScopeSingle(vs[0], resolve);
      DotScopesSingle(vs[1..], resolve);
    }
  }

  /** Whatever the names and argument texts hold, every printed DOT line is
      one line: identifiers are reduced to `[A-Za-z0-9_]` and labels have their
      line breaks replaced. */
  lemma DotLinesAreSingleLines(reg: Registry, o: Order, resolve: Resolver)
    requires WellFormed(reg) && Enumerates(o, reg)
    ensures forall line :: line in RenderDot(reg, o, resolve) ==> SingleLine(line)
  {
    DotScopesSingle(Views(reg, o), resolve);
  }

  // ---------------------------------------------------------------- DOT edges

  lemma {:induction false} DotSitesHaveEdges(parentId: string, sites: seq<Target>, resolve: Resolver)
    ensures forall t :: t in sites ==>
              DotEdgeLine(parentId, FormatDotName(DotTargetName(t, resolve))) in DotSites(parentId, sites, resolve)
    decreases |sites|
  {
    if |sites| > 0 {
      DotSitesHaveEdges(parentId, sites[1..], resolve);
    }
  }

  lemma {:induction false} DotScopesContain(vs: seq<ScopeView>, resolve: Resolver, i: nat)
    requires i < |vs|
    ensures forall line :: line in DotScope(vs[i], resolve) ==> line in DotScopes(vs, resolve)
    decreases |vs|
  {
    if i > 0 {
      DotScopesContain(vs[1..], resolve, i - 1);
    }
  }

  /** Every site of every scope becomes an edge from the scope's node. */
  lemma DotScopesHaveEdges(vs: seq<ScopeView>, resolve: Resolver, i: nat, t: Target)
    requires i < |vs| && t in vs[i].sites
    ensures DotEdgeLine(FormatDotName(vs[i].qualifiedName), FormatDotName(DotTargetName(t, resolve)))
              in DotScopes(vs, resolve)
  {
    var id := FormatDotName(vs[i].qualifiedName);
    DotSitesHaveEdges(id, vs[i].sites, resolve);
    DotScopesContain(vs, resolve, i);
  }

  /** Every call and creation registered under a callable becomes an edge
      from the callable's node to the node of the site. */
  lemma DotHasCallableEdges(reg: Registry, o: Order, resolve: Resolver, c: CallableRef, t: Target)
    requires WellFormed(reg) && Enumerates(o, reg)
    requires c in reg.callableType
    requires (t.OfCall? && t.call in SetAt(reg.calls, c)) || (t.OfCreation? && t.creation in SetAt(reg.creations, c))
    ensures DotEdgeLine(FormatDotName(CallableName(reg, c)), FormatDotName(DotTargetName(t, resolve)))
              in RenderDot(reg, o, resolve)
  {
    var vs := Views(reg, o);
    assert c in o.callables;
    var k :| 0 <= k < |o.callables| && o.callables[k] == c;
    var i := |o.types| + k;
    assert vs[i] == CallableView(reg, o, c);
    DotScopesHaveEdges(vs, resolve, i, t);
  }

  /** Every call and creation registered under a type, outside any callable,
      becomes an edge from the type's node to the node of the site. */
  lemma DotHasTypeEdges(reg: Registry, o: Order, resolve: Resolver, ty: TypeRef, t: Target)
    requires WellFormed(reg) && Enumerates(o, reg)
    requires ty in reg.typePackage
    requires (t.OfCall? && t.call in SetAt(reg.staticCalls, ty))
          || (t.OfCreation? && t.creation in SetAt(reg.staticCreations, ty))
    ensures DotEdgeLine(FormatDotName(reg.typePackage[ty].name + "." + ty.name),
                        FormatDotName(DotTargetName(t, resolve)))
              in RenderDot(reg, o, resolve)
  {
    var vs := Views(reg, o);
    assert ty in o.types;
    var k :| 0 <= k < |o.types| && o.types[k] == ty;
    assert vs[k] == TypeView(reg, o, ty);
    DotScopesHaveEdges(vs, resolve, k, t);
  }

  // ---------------------------------------------------------------- entry point

  /** `Printer.print`: the graph when DOT output is asked for, the listing
      otherwise. The two are told apart by their first line: a listing
      starts with a header, which ends with a colon. */
  function Render(dotOutput: bool, reg: Registry, o: Order, resolve: Resolver): (lines: seq<string>)
    requires WellFormed(reg) && Enumerates(o, reg)
    ensures dotOutput <==> (|lines| > 0 && lines[0] == "digraph G {")
  {
    if dotOutput then RenderDot(reg, o, resolve)
    else
      var vs := Views(reg, o);
      var text := RenderText(reg, o, resolve);
      assert |vs| > 0 ==> text[0] == TextBlocks(vs, resolve)[0].header;
      assert |vs| > 0 ==> text[0][|text[0]| - 1] == ':';
      text
  }
}
