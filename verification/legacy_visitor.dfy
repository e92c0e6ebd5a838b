/** The first visitor of the project (Visitor.kt at the source root): the
    same three stacks as parser/Visitor.kt, but the maps it fills are its
    own, it keeps no object creations, and it prints only the callables with
    the calls made in them. It is modelled on its own terms and then shown
    to agree with the scope visitor and with the printer's listing. */
module LegacyVisitor {
  import opened Wrappers
  import opened Entities
  import opened Registry
  import opened ScopeVisitor
  import opened ScopeVisitorProperties
  import opened Renderer

  /** The four maps of the legacy visitor. */
  datatype Maps = Maps(
    typePackage: map<TypeRef, PackageRef>,
    callableType: map<CallableRef, TypeRef>,
    calls: map<CallableRef, set<CallSite>>,
    staticCalls: map<TypeRef, set<CallSite>>)

  datatype LegacyState = LegacyState(scopes: Scopes, maps: Maps)

  /** Visits one node. As in the scope visitor the package stack is popped
      once the type stack is empty again. */
  function Visit(n: Node, st: LegacyState): (r: Result<LegacyState, VisitError>)
    ensures r.Ok? ==> r.value.scopes.types == st.scopes.types && r.value.scopes.callables == st.scopes.callables
    decreases n
  {
    match n
    case PackageDecl(p) =>
      Ok(st.(scopes := st.scopes.(packages := st.scopes.packages + [p])))
    case TypeDecl(_, t, members) =>
      if |st.scopes.packages| == 0 then Err(EmptyPackageStack)
      else
        var m := st.maps.(typePackage := st.maps.typePackage[t := Last(st.scopes.packages)]);
        var entered := LegacyState(st.scopes.(types := st.scopes.types + [t]), m);
        (match VisitAll(members, entered)
         case Err(e) => Err(e)
         case Ok(inner) =>
           var types := Pop(inner.scopes.types);
           assert types == st.scopes.types;
           if |types| == 0 then
             if |inner.scopes.packages| == 0 then Err(EmptyPackageStack)
             else Ok(LegacyState(inner.scopes.(packages := Pop(inner.scopes.packages), types := types), inner.maps))
           else Ok(LegacyState(inner.scopes.(types := types), inner.maps)))
    case CallableDecl(_, c, body) =>
      if |st.scopes.types| == 0 then Err(EmptyTypeStack)
      else
        var m := st.maps.(callableType := st.maps.callableType[c := Last(st.scopes.types)]);
        var entered := LegacyState(st.scopes.(callables := st.scopes.callables + [c]), m);
        (match VisitAll(body, entered)
         case Err(e) => Err(e)
         case Ok(inner) =>
           var callables := Pop(inner.scopes.callables);
           assert callables == st.scopes.callables;
           Ok(LegacyState(inner.scopes.(callables := callables), inner.maps)))
    case MethodCall(site, operands) =>
      if |st.scopes.callables| > 0 then
        var c := Last(st.scopes.callables);
        VisitAll(operands, st.(maps := st.maps.(calls := AddTo(st.maps.calls, c, site))))
      else if |st.scopes.types| > 0 then
        var t := Last(st.scopes.types);
        VisitAll(operands, st.(maps := st.maps.(staticCalls := AddTo(st.maps.staticCalls, t, site))))
      else Err(EmptyTypeStack)
    case ObjectCreation(_, operands) =>
      VisitAll(operands, st)
    case Other(children) =>
      VisitAll(children, st)
  }

  function VisitAll(ns: seq<Node>, st: LegacyState): (r: Result<LegacyState, VisitError>)
    ensures r.Ok? ==> r.value.scopes.types == st.scopes.types && r.value.scopes.callables == st.scopes.callables
    decreases ns
  {
    if |ns| == 0 then Ok(st)
    else
      match Visit(ns[0], st)
      case Err(e) => Err(e)
      case Ok(next) => VisitAll(ns[1..], next)
  }

  /** The part of the shared registry the legacy visitor keeps. */
  function Project(reg: Registry): Maps
  {
    Maps(reg.typePackage, reg.callableType, reg.calls, reg.staticCalls)
  }

  function Lift(st: State): LegacyState
  {
    LegacyState(st.scopes, Project(st.reg))
  }

  function LiftResult(r: Result<State, VisitError>): Result<LegacyState, VisitError>
  {
    match r
    case Ok(st) => Ok(Lift(st))
    case Err(e) => Err(e)
  }

  /** The legacy visitor and the scope visitor, whose package handling it
      shares, walk every tree alike: the same error, or the same stacks and
      the same four maps. */
  lemma {:induction false} VisitAgrees(n: Node, st: State)
    ensures Visit(n, Lift(st)) == LiftResult(VisitNode(n, st, CloseWithOutermostType))
    decreases n, 1
  {
    match n
    case PackageDecl(_) =>
    case TypeDecl(_, t, members) =>
      if |st.scopes.packages| > 0 {
        var entered := State(st.scopes.(types := st.scopes.types + [t]),
                             RegisterClass(st.reg, t, Last(st.scopes.packages)));
        VisitAllAgrees(members, entered);
      }
    case CallableDecl(_, c, body) =>
      if |st.scopes.types| > 0 {
        var entered := State(st.scopes.(callables := st.scopes.callables + [c]),
                             RegisterMethodDeclaration(st.reg, c, Last(st.scopes.types)));
        VisitAllAgrees(body, entered);
      }
    case MethodCall(site, operands) =>
      if |st.scopes.callables| > 0 {
        VisitAllAgrees(operands, st.(reg := RegisterMethodCall(st.reg, Last(st.scopes.callables), site)));
      } else if |st.scopes.types| > 0 {
        VisitAllAgrees(operands, st.(reg := RegisterStaticCall(st.reg, Last(st.scopes.types), site)));
      }
    case ObjectCreation(_, operands) =>
      VisitAllAgrees(operands, st);
    case Other(children) =>
      VisitAllAgrees(children, st);
  }

  lemma {:induction false} VisitAllAgrees(ns: seq<Node>, st: State)
    ensures VisitAll(ns, Lift(st)) == LiftResult(VisitSeq(ns, st, CloseWithOutermostType))
    decreases ns, 0
  {
    if |ns| > 0 {
      VisitAgrees(ns[0], st);
      match VisitNode(ns[0], st, CloseWithOutermostType)
      case Err(_) =>
      case Ok(next) =>
        VisitAllAgrees(ns[1..], next);
    }
  }

  const NoMaps: Maps := Maps(map[], map[], map[], map[])

  /** The walk of one compilation unit by a fresh legacy visitor: the
      package declaration first, then the top-level types. */
  function VisitUnit(u: CompilationUnit): Result<LegacyState, VisitError>
  {
    var start := LegacyState(NoScopes, NoMaps);
    match u.package
    case None => VisitAll(u.types, start)
    case Some(p) =>
      match Visit(PackageDecl(p), start)
      case Err(e) => Err(e)
      case Ok(st) => VisitAll(u.types, st)
  }

  /** A fresh legacy visitor builds, for a unit, what the scope visitor
      registers for it in an empty registry. */
  lemma VisitUnitAgrees(u: CompilationUnit)
    ensures VisitUnit(u) == LiftResult(ScopeVisitor.VisitUnit(u, Empty, CloseWithOutermostType))
  {
    var start := State(NoScopes, Empty);
    assert Lift(start) == LegacyState(NoScopes, NoMaps);
    match u.package
    case None =>
      VisitAllAgrees(u.types, start);
    case Some(p) =>
      VisitAgrees(PackageDecl(p), start);
      var st1 := VisitNode(PackageDecl(p), start, CloseWithOutermostType).value;
      VisitAllAgrees(u.types, st1);
  }

  // ---------------------------------------------------------------- printing

  /** The legacy maps as a registry without creations, for the printer. */
  function ToRegistry(m: Maps): Registry
  {
    Registry(m.typePackage, m.callableType, m.calls, m.staticCalls, map[], map[])
  }

  /** What `printMethodDeclaration` dereferences with `!!`. */
  predicate Owned(m: Maps, cs: seq<CallableRef>)
  {
    forall k :: 0 <= k < |cs| ==> cs[k] in m.callableType && m.callableType[cs[k]] in m.typePackage
  }

  function Header(m: Maps, c: CallableRef): string
    requires c in m.callableType && m.callableType[c] in m.typePackage
  {
    var t := m.callableType[c];
    m.typePackage[t].name + "." + t.name + "." + c.name + ":"
  }

  function CallLines(calls: seq<CallSite>, resolve: Resolver): seq<string>
  {
    seq(|calls|, i requires 0 <= i < |calls| => TextSiteLine(OfCall(calls[i]), resolve))
  }

  /** One group per callable, each closed by an empty line. */
  function Groups(m: Maps, cs: seq<CallableRef>, o: Order, resolve: Resolver): seq<string>
    requires Owned(m, cs)
  {
    if |cs| == 0 then []
    else [Header(m, cs[0])] + CallLines(SeqAt(o.calls, cs[0]), resolve) + [""]
           + Groups(m, cs[1..], o, resolve)
  }

  /** The legacy `print`: the groups of all callables, then an empty line. */
  function Print(m: Maps, o: Order, resolve: Resolver): seq<string>
    requires Owned(m, o.callables)
  {
    Groups(m, o.callables, o, resolve) + [""]
  }

  /** The groups of the printer's listing, each followed by an empty line. */
  function Spaced(bs: seq<Block>): seq<string>
  {
    if |bs| == 0 then [] else [bs[0].header] + bs[0].entries + [""] + Spaced(bs[1..])
  }

  /** The printer's listing groups of the callables `cs`. */
  function CallableBlocks(m: Maps, o: Order, cs: seq<CallableRef>, resolve: Resolver): seq<Block>
    requires WellFormed(ToRegistry(m)) && Enumerates(o, ToRegistry(m))
    requires forall k :: 0 <= k < |cs| ==> cs[k] in m.callableType
  {
    seq(|cs|, k requires 0 <= k < |cs| => TextBlock(CallableView(ToRegistry(m), o, cs[k]), resolve))
  }

  lemma {:induction false} GroupsAreCallableBlocks(m: Maps, cs: seq<CallableRef>, o: Order, resolve: Resolver)
    requires WellFormed(ToRegistry(m)) && Enumerates(o, ToRegistry(m))
    requires forall k :: 0 <= k < |cs| ==> cs[k] in m.callableType
    ensures Owned(m, cs)
    ensures Groups(m, cs, o, resolve) == Spaced(CallableBlocks(m, o, cs, resolve))
    decreases |cs|
  {
    var reg := ToRegistry(m);
    var bs := CallableBlocks(m, o, cs, resolve);
    if |cs| > 0 {
      var c := cs[0];
      GroupsAreCallableBlocks(m, cs[1..], o, resolve);
      assert bs[1..] == CallableBlocks(m, o, cs[1..], resolve);
      assert SeqAt(o.creations, c) == [];
      var v := CallableView(reg, o, c);
      assert v.sites == seq(|SeqAt(o.calls, c)|, i requires 0 <= i < |SeqAt(o.calls, c)| => OfCall(SeqAt(o.calls, c)[i]));
      assert bs[0].entries == CallLines(SeqAt(o.calls, c), resolve);
      assert bs[0].header == Header(m, c);
    }
  }

  /** The legacy printer prints exactly the callable part of the printer's
      listing, with an empty line after each group and at the end: the
      headers agree, the call lines agree, and the calls made outside a
      callable are never printed. */
  lemma PrintIsCallableListing(m: Maps, o: Order, resolve: Resolver)
    requires WellFormed(ToRegistry(m)) && Enumerates(o, ToRegistry(m))
    ensures Owned(m, o.callables)
    ensures Print(m, o, resolve)
         == Spaced(TextBlocks(Views(ToRegistry(m), o), resolve)[|o.types|..]) + [""]
  {
    var reg := ToRegistry(m);
    var vs := Views(reg, o);
    GroupsAreCallableBlocks(m, o.callables, o, resolve);
    assert TextBlocks(vs, resolve)[|o.types|..] == CallableBlocks(m, o, o.callables, resolve);
  }

  /** The maps a legacy visitor builds for a unit are always printable: every
      callable's type has a package, so the `!!` in `printMethodDeclaration`
      never fails. */
  lemma UnitPrintable(u: CompilationUnit)
    requires VisitUnit(u).Ok?
    ensures WellFormed(ToRegistry(VisitUnit(u).value.maps))
  {
    VisitUnitAgrees(u);
    var r := ScopeVisitor.VisitUnit(u, Empty, CloseWithOutermostType);
    VisitUnitWellFormed(u, Empty, CloseWithOutermostType);
    assert ToRegistry(VisitUnit(u).value.maps) == r.value.reg;
  }

  // ------------------------------------------------------- one source root

  /** The maps a fresh legacy visitor builds for one unit. */
  function UnitMaps(u: CompilationUnit): (r: Result<Maps, VisitError>)
    ensures r.Ok? <==> VisitUnit(u).Ok?
    ensures r.Ok? ==> r.value == VisitUnit(u).value.maps
    ensures r.Err? ==> VisitUnit(u) == Err(r.error)
  {
    match VisitUnit(u)
    case Err(e) => Err(e)
    case Ok(st) => Ok(st.maps)
  }

  function UnitResults(units: seq<CompilationUnit>): (rs: seq<Result<Maps, VisitError>>)
    ensures |rs| == |units|
    ensures forall k :: 0 <= k < |units| ==> rs[k] == UnitMaps(units[k])
  {
    seq(|units|, k requires 0 <= k < |units| => UnitMaps(units[k]))
  }

  /** The walk phase of `processSourceRoot`: a fresh legacy visitor per parsed
      unit, in order. An exception in any unit escapes the loop, so the first
      failing unit ends the run and no maps survive. */
  function VisitRoot(units: seq<CompilationUnit>): (r: Result<seq<Maps>, VisitError>)
    ensures r.Ok? <==> forall k :: 0 <= k < |units| ==> VisitUnit(units[k]).Ok?
    ensures r.Ok? ==> |r.value| == |units|
    ensures r.Ok? ==> forall k :: 0 <= k < |units| ==> r.value[k] == VisitUnit(units[k]).value.maps
    ensures r.Err? ==> exists k :: 0 <= k < |units| && VisitUnit(units[k]) == Err(r.error)
                        && forall j :: 0 <= j < k ==> VisitUnit(units[j]).Ok?
  {
    var rs := UnitResults(units);
    var r := Collect(rs);
    assert r.Ok? ==> forall k :: 0 <= k < |units| ==> rs[k] == Ok(r.value[k]);
    r
  }

  /** `os[k]` is the iteration order of the maps the `k`-th unit's visitor
      builds. */
  ghost predicate RootOrdered(units: seq<CompilationUnit>, os: seq<Order>)
  {
    && |os| == |units|
    && forall k :: 0 <= k < |units| && VisitUnit(units[k]).Ok? ==>
         Enumerates(os[k], ToRegistry(VisitUnit(units[k]).value.maps))
  }

  /** What each visitor of a successful walk prints. */
  function Prints(ms: seq<Maps>, os: seq<Order>, resolve: Resolver): (ps: seq<seq<string>>)
    requires |os| == |ms|
    requires forall k :: 0 <= k < |ms| ==> Owned(ms[k], os[k].callables)
    ensures |ps| == |ms|
    ensures forall k :: 0 <= k < |ms| ==> ps[k] == Print(ms[k], os[k], resolve)
  {
    seq(|ms|, k requires 0 <= k < |ms| => Print(ms[k], os[k], resolve))
  }

  /** Every visitor of a successful walk can print. */
  lemma RootPrintable(units: seq<CompilationUnit>, os: seq<Order>, ms: seq<Maps>, resolve: Resolver)
    requires RootOrdered(units, os) && VisitRoot(units) == Ok(ms)
    ensures |os| == |ms|
    ensures forall k :: 0 <= k < |ms| ==> Owned(ms[k], os[k].callables)
  {
    forall k | 0 <= k < |ms|
      ensures Owned(ms[k], os[k].callables)
    {
      UnitPrintable(units[k]);
      PrintIsCallableListing(ms[k], os[k], resolve);
    }
  }

  /** `processSourceRoot`: every unit is walked before anything is printed,
      so a failure in any unit prints nothing at all, and the error is the
      first failing unit's. */
  function ProcessSourceRoot(units: seq<CompilationUnit>, os: seq<Order>, resolve: Resolver)
    : (r: Result<seq<string>, VisitError>)
    requires RootOrdered(units, os)
    ensures r.Ok? <==> forall k :: 0 <= k < |units| ==> VisitUnit(units[k]).Ok?
    ensures r.Err? ==> exists k :: 0 <= k < |units| && VisitUnit(units[k]) == Err(r.error)
                        && forall j :: 0 <= j < k ==> VisitUnit(units[j]).Ok?
  {
    match VisitRoot(units)
    case Err(e) => Err(e)
    case Ok(ms) =>
      RootPrintable(units, os, ms, resolve);
      Ok(Concat(Prints(ms, os, resolve)))
  }

  /** A root of one unit prints exactly that unit's visitor. */
  lemma ProcessSourceRootSingle(u: CompilationUnit, o: Order, resolve: Resolver)
    requires RootOrdered([u], [o]) && VisitUnit(u).Ok?
    ensures Owned(VisitUnit(u).value.maps, o.callables)
    ensures ProcessSourceRoot([u], [o], resolve) == Ok(Print(VisitUnit(u).value.maps, o, resolve))
  {
    var m := VisitUnit(u).value.maps;
    assert [u][0] == u;
    assert forall k :: 0 <= k < |[u]| ==> VisitUnit([u][k]).Ok?;
    var ms := VisitRoot([u]).value;
    assert |ms| == 1 && ms[0] == m;
    assert ms == [m];
    RootPrintable([u], [o], [m], resolve);
    var ps := Prints([m], [o], resolve);
    assert ps == [Print(m, o, resolve)];
    assert Concat(ps) == Print(m, o, resolve) + Concat(ps[1..]);
    assert ps[1..] == [] && Concat(ps[1..]) == [];
    assert Concat(ps) == Print(m, o, resolve);
    assert ProcessSourceRoot([u], [o], resolve) == Ok(Concat(ps));
  }

  lemma RootOrderedAppend(a: seq<CompilationUnit>, oa: seq<Order>, b: seq<CompilationUnit>, ob: seq<Order>)
    requires RootOrdered(a, oa) && RootOrdered(b, ob)
    ensures RootOrdered(a + b, oa + ob)
  {
  }


  lemma VisitRootAppend(a: seq<CompilationUnit>, b: seq<CompilationUnit>)
    ensures VisitRoot(a).Err? ==> VisitRoot(a + b) == VisitRoot(a)
    ensures VisitRoot(a).Ok? && VisitRoot(b).Err? ==> VisitRoot(a + b) == VisitRoot(b)
    ensures VisitRoot(a).Ok? && VisitRoot(b).Ok? ==> VisitRoot(a + b) == Ok(VisitRoot(a).value + VisitRoot(b).value)
  {
    var ra, rb := UnitResults(a), UnitResults(b);
    assert UnitResults(a + b) == ra + rb;
    CollectAppend(ra, rb);
  }

  lemma PrintsAppend(ma: seq<Maps>, oa: seq<Order>, mb: seq<Maps>, ob: seq<Order>, resolve: Resolver)
    requires |oa| == |ma| && |ob| == |mb|
    requires forall k :: 0 <= k < |ma| ==> Owned(ma[k], oa[k].callables)
    requires forall k :: 0 <= k < |mb| ==> Owned(mb[k], ob[k].callables)
    requires forall k :: 0 <= k < |ma + mb| ==> Owned((ma + mb)[k], (oa + ob)[k].callables)
    ensures Concat(Prints(ma + mb, oa + ob, resolve)) == Concat(Prints(ma, oa, resolve)) + Concat(Prints(mb, ob, resolve))
  {
    var pa, pb := Prints(ma, oa, resolve), Prints(mb, ob, resolve);
    assert Prints(ma + mb, oa + ob, resolve) == pa + pb by {
      forall k | 0 <= k < |ma + mb|
        ensures Prints(ma + mb, oa + ob, resolve)[k] == (pa + pb)[k]
      {
        if k < |ma| {
          assert (ma + mb)[k] == ma[k] && (oa + ob)[k] == oa[k];
        } else {
          assert (ma + mb)[k] == mb[k - |ma|] && (oa + ob)[k] == ob[k - |ma|];
        }
      }
    }
    ConcatAppend(pa, pb);
  }

  /** Splitting a source root: the whole prints both parts' output, one after
      the other, when both parts walk cleanly; otherwise it fails with the
      first failure, and a clean first part's output is lost with the rest. */
  lemma ProcessSourceRootAppend(a: seq<CompilationUnit>, oa: seq<Order>,
                                b: seq<CompilationUnit>, ob: seq<Order>, resolve: Resolver)
    requires RootOrdered(a, oa) && RootOrdered(b, ob)
    ensures RootOrdered(a + b, oa + ob)
    ensures ProcessSourceRoot(a, oa, resolve).Err?
        ==> ProcessSourceRoot(a + b, oa + ob, resolve) == ProcessSourceRoot(a, oa, resolve)
    ensures ProcessSourceRoot(a, oa, resolve).Ok? && ProcessSourceRoot(b, ob, resolve).Err?
        ==> ProcessSourceRoot(a + b, oa + ob, resolve) == ProcessSourceRoot(b, ob, resolve)
    ensures ProcessSourceRoot(a, oa, resolve).Ok? && ProcessSourceRoot(b, ob, resolve).Ok?
        ==> ProcessSourceRoot(a + b, oa + ob, resolve)
            == Ok(ProcessSourceRoot(a, oa, resolve).value + ProcessSourceRoot(b, ob, resolve).value)
  {
    RootOrderedAppend(a, oa, b, ob);
    VisitRootAppend(a, b);
    if VisitRoot(a).Ok? && VisitRoot(b).Ok? {
      var ma, mb := VisitRoot(a).value, VisitRoot(b).value;
      RootPrintable(a, oa, ma, resolve);
      RootPrintable(b, ob, mb, resolve);
      RootPrintable(a + b, oa + ob, ma + mb, resolve);
      PrintsAppend(ma, oa, mb, ob, resolve);
    }
  }
}
