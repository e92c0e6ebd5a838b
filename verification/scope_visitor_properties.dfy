/** Properties of the scope-tracking visitor: where calls are recorded, which
    declarations are registered, the invariant the printers rely on, and when
    the package scope closes. */
module ScopeVisitorProperties {
  import opened Wrappers
  import opened Entities
  import opened Registry
  import opened ScopeVisitor

  /** The innermost enclosing type and callable, as seen from a tree position. */
  datatype Enclosing = Enclosing(typ: Option<TypeRef>, callable: Option<CallableRef>)

  /** What the stacks say about the enclosing declarations. */
  function Enclosure(s: Scopes): Enclosing
  {
    Enclosing(Top(s.types), Top(s.callables))
  }

  /** Where a call made directly in `enc` belongs: the innermost callable,
      else the innermost type, else nowhere. */
  function Owner(enc: Enclosing): Option<Scope>
  {
    if enc.callable.Some? then Some(InCallable(enc.callable.value))
    else if enc.typ.Some? then Some(InType(enc.typ.value))
    else None
  }

  /** Reference definition, independent of the stacks: the call `site`
      occurs in `n` at a position whose owner (computed from the enclosing
      declarations on the path to it) is `scope`. A type declaration does
      not close an open callable, as in the stack discipline. */
  predicate Attributed(n: Node, enc: Enclosing, scope: Scope, site: CallSite)
    decreases n
  {
    match n
    case PackageDecl(_) => false
    case TypeDecl(_, t, members) => AttributedIn(members, enc.(typ := Some(t)), scope, site)
    case CallableDecl(_, c, body) => AttributedIn(body, enc.(callable := Some(c)), scope, site)
    case MethodCall(s, operands) =>
      (s == site && Owner(enc) == Some(scope)) || AttributedIn(operands, enc, scope, site)
    case ObjectCreation(_, operands) => AttributedIn(operands, enc, scope, site)
    case Other(children) => AttributedIn(children, enc, scope, site)
  }

  predicate AttributedIn(ns: seq<Node>, enc: Enclosing, scope: Scope, site: CallSite)
    decreases ns
  {
    |ns| > 0 && (Attributed(ns[0], enc, scope, site) || AttributedIn(ns[1..], enc, scope, site))
  }

  /** After a successful visit, the recorded calls are exactly the earlier
      ones plus every call of the subtree, each under its innermost enclosing
      callable or, outside any callable, its innermost enclosing type. */
  lemma {:induction false} NodeCallsRecorded(n: Node, st: State, scoping: PackageScoping)
    requires VisitNode(n, st, scoping).Ok?
    ensures forall scope, site ::
              (HasCall(VisitNode(n, st, scoping).value.reg, scope, site)
               <==> HasCall(st.reg, scope, site) || Attributed(n, Enclosure(st.scopes), scope, site))
    decreases n
  {
    var r := VisitNode(n, st, scoping).value;
    var enc := Enclosure(st.scopes);
    match n
    case PackageDecl(_) =>
    case TypeDecl(_, t, members) =>
      var entered := State(st.scopes.(types := st.scopes.types + [t]),
                           RegisterClass(st.reg, t, Last(st.scopes.packages)));
      SeqCallsRecorded(members, entered, scoping);
      assert Enclosure(entered.scopes) == enc.(typ := Some(t));
      assert r.reg == VisitSeq(members, entered, scoping).value.reg;
    case CallableDecl(_, c, body) =>
      var entered := State(st.scopes.(callables := st.scopes.callables + [c]),
                           RegisterMethodDeclaration(st.reg, c, Last(st.scopes.types)));
      SeqCallsRecorded(body, entered, scoping);
      assert Enclosure(entered.scopes) == enc.(callable := Some(c));
      assert r.reg == VisitSeq(body, entered, scoping).value.reg;
    case MethodCall(site, operands) =>
      if |st.scopes.callables| > 0 {
        var c := Last(st.scopes.callables);
        var reg1 := RegisterMethodCall(st.reg, c, site);
        SeqCallsRecorded(operands, st.(reg := reg1), scoping);
        assert Owner(enc) == Some(InCallable(c));
        forall scope, s
          ensures HasCall(reg1, scope, s) <==> HasCall(st.reg, scope, s) || (scope == InCallable(c) && s == site)
        {
          HasCallAfterMethodCall(st.reg, c, site, scope, s);
        }
      } else {
        var t := Last(st.scopes.types);
        var reg1 := RegisterStaticCall(st.reg, t, site);
        SeqCallsRecorded(operands, st.(reg := reg1), scoping);
        assert Owner(enc) == Some(InType(t));
        forall scope, s
          ensures HasCall(reg1, scope, s) <==> HasCall(st.reg, scope, s) || (scope == InType(t) && s == site)
        {
          HasCallAfterStaticCall(st.reg, t, site, scope, s);
        }
      }
    case ObjectCreation(_, operands) =>
      SeqCallsRecorded(operands, st, scoping);
    case Other(children) =>
      SeqCallsRecorded(children, st, scoping);
  }

  lemma {:induction false} SeqCallsRecorded(ns: seq<Node>, st: State, scoping: PackageScoping)
    requires VisitSeq(ns, st, scoping).Ok?
    ensures forall scope, site ::
              (HasCall(VisitSeq(ns, st, scoping).value.reg, scope, site)
               <==> HasCall(st.reg, scope, site) || AttributedIn(ns, Enclosure(st.scopes), scope, site))
    decreases ns
  {
    if |ns| > 0 {
      var next := VisitNode(ns[0], st, scoping).value;
      NodeCallsRecorded(ns[0], st, scoping);
      SeqCallsRecorded(ns[1..], next, scoping);
      assert Enclosure(next.scopes) == Enclosure(st.scopes);
    }
  }

  /** The call sites occurring in a subtree. */
  function CallSitesIn(n: Node): set<CallSite>
    decreases n
  {
    match n
    case PackageDecl(_) => {}
    case TypeDecl(_, _, members) => CallSitesInSeq(members)
    case CallableDecl(_, _, body) => CallSitesInSeq(body)
    case MethodCall(s, operands) => {s} + CallSitesInSeq(operands)
    case ObjectCreation(_, operands) => CallSitesInSeq(operands)
    case Other(children) => CallSitesInSeq(children)
  }

  function CallSitesInSeq(ns: seq<Node>): set<CallSite>
    decreases ns
  {
    if |ns| == 0 then {} else CallSitesIn(ns[0]) + CallSitesInSeq(ns[1..])
  }

  lemma {:induction false} AttributedSeqOccurs(ns: seq<Node>, enc: Enclosing, scope: Scope, site: CallSite)
    requires AttributedIn(ns, enc, scope, site)
    ensures site in CallSitesInSeq(ns)
    decreases ns
  {
    if Attributed(ns[0], enc, scope, site) {
      AttributedOccurs(ns[0], enc, scope, site);
    } else {
      AttributedSeqOccurs(ns[1..], enc, scope, site);
    }
  }

  lemma {:induction false} AttributedOccurs(n: Node, enc: Enclosing, scope: Scope, site: CallSite)
    requires Attributed(n, enc, scope, site)
    ensures site in CallSitesIn(n)
    decreases n
  {
    match n
    case TypeDecl(_, t, members) => AttributedSeqOccurs(members, enc.(typ := Some(t)), scope, site);
    case CallableDecl(_, c, body) => AttributedSeqOccurs(body, enc.(callable := Some(c)), scope, site);
    case MethodCall(s, operands) =>
      if s != site {
        AttributedSeqOccurs(operands, enc, scope, site);
      }
    case ObjectCreation(_, operands) => AttributedSeqOccurs(operands, enc, scope, site);
    case Other(children) => AttributedSeqOccurs(children, enc, scope, site);
  }

  /** A method call not seen before is registered exactly once: under the
      top callable when one is open, otherwise under the top type as a static
      call, never both. */
  lemma CallRegisteredOnce(site: CallSite, operands: seq<Node>, st: State, scoping: PackageScoping)
    requires site !in CallSitesInSeq(operands)
    requires forall scope :: !HasCall(st.reg, scope, site)
    requires VisitNode(MethodCall(site, operands), st, scoping).Ok?
    ensures |st.scopes.callables| > 0 ==>
              forall scope ::
                (HasCall(VisitNode(MethodCall(site, operands), st, scoping).value.reg, scope, site)
                 <==> scope == InCallable(Last(st.scopes.callables)))
    ensures |st.scopes.callables| == 0 ==>
              && |st.scopes.types| > 0
              && forall scope ::
                   (HasCall(VisitNode(MethodCall(site, operands), st, scoping).value.reg, scope, site)
                    <==> scope == InType(Last(st.scopes.types)))
  {
    var n := MethodCall(site, operands);
    var r := VisitNode(n, st, scoping).value;
    var enc := Enclosure(st.scopes);
    NodeCallsRecorded(n, st, scoping);
    forall scope
      ensures HasCall(r.reg, scope, site) <==> Owner(enc) == Some(scope)
    {
      if AttributedIn(operands, enc, scope, site) {
        AttributedSeqOccurs(operands, enc, scope, site);
      }
      assert Attributed(n, enc, scope, site) <==> Owner(enc) == Some(scope);
    }
  }

  /** A call nested in another call's arguments is recorded under the same
      scope as the outer call. */
  lemma NestedCallSameScope(outer: CallSite, inner: CallSite, operands: seq<Node>, st: State, scoping: PackageScoping)
    requires VisitNode(MethodCall(outer, [MethodCall(inner, operands)]), st, scoping).Ok?
    ensures Owner(Enclosure(st.scopes)).Some?
    ensures HasCall(VisitNode(MethodCall(outer, [MethodCall(inner, operands)]), st, scoping).value.reg,
                    Owner(Enclosure(st.scopes)).value, outer)
    ensures HasCall(VisitNode(MethodCall(outer, [MethodCall(inner, operands)]), st, scoping).value.reg,
                    Owner(Enclosure(st.scopes)).value, inner)
  {
    var n := MethodCall(outer, [MethodCall(inner, operands)]);
    var enc := Enclosure(st.scopes);
    NodeCallsRecorded(n, st, scoping);
    assert Owner(enc).Some?;
    assert Attributed(n, enc, Owner(enc).value, outer);
    assert Attributed(MethodCall(inner, operands), enc, Owner(enc).value, inner);
    assert AttributedIn([MethodCall(inner, operands)], enc, Owner(enc).value, inner);
  }

  /** The type declarations of a subtree. */
  predicate DeclaresType(n: Node, t: TypeRef)
    decreases n
  {
    match n
    case PackageDecl(_) => false
    case TypeDecl(_, d, members) => d == t || DeclaresTypeIn(members, t)
    case CallableDecl(_, _, body) => DeclaresTypeIn(body, t)
    case MethodCall(_, operands) => DeclaresTypeIn(operands, t)
    case ObjectCreation(_, operands) => DeclaresTypeIn(operands, t)
    case Other(children) => DeclaresTypeIn(children, t)
  }

  predicate DeclaresTypeIn(ns: seq<Node>, t: TypeRef)
    decreases ns
  {
    |ns| > 0 && (DeclaresType(ns[0], t) || DeclaresTypeIn(ns[1..], t))
  }

  /** The method and constructor declarations of a subtree. */
  predicate DeclaresCallable(n: Node, c: CallableRef)
    decreases n
  {
    match n
    case PackageDecl(_) => false
    case TypeDecl(_, _, members) => DeclaresCallableIn(members, c)
    case CallableDecl(_, d, body) => d == c || DeclaresCallableIn(body, c)
    case MethodCall(_, operands) => DeclaresCallableIn(operands, c)
    case ObjectCreation(_, operands) => DeclaresCallableIn(operands, c)
    case Other(children) => DeclaresCallableIn(children, c)
  }

  predicate DeclaresCallableIn(ns: seq<Node>, c: CallableRef)
    decreases ns
  {
    |ns| > 0 && (DeclaresCallable(ns[0], c) || DeclaresCallableIn(ns[1..], c))
  }

  /** The declarations a visit registers are exactly those of the subtree;
      every other ownership entry keeps its value. */
  lemma {:induction false} NodeDeclarations(n: Node, st: State, scoping: PackageScoping)
    requires VisitNode(n, st, scoping).Ok?
    ensures forall t :: (t in VisitNode(n, st, scoping).value.reg.typePackage
                         <==> t in st.reg.typePackage || DeclaresType(n, t))
    ensures forall t :: t in st.reg.typePackage && !DeclaresType(n, t) ==>
                          VisitNode(n, st, scoping).value.reg.typePackage[t] == st.reg.typePackage[t]
    ensures forall c :: (c in VisitNode(n, st, scoping).value.reg.callableType
                         <==> c in st.reg.callableType || DeclaresCallable(n, c))
    ensures forall c :: c in st.reg.callableType && !DeclaresCallable(n, c) ==>
                          VisitNode(n, st, scoping).value.reg.callableType[c] == st.reg.callableType[c]
    decreases n
  {
    var r := VisitNode(n, st, scoping).value;
    match n
    case PackageDecl(_) =>
    case TypeDecl(_, t, members) =>
      var entered := State(st.scopes.(types := st.scopes.types + [t]),
                           RegisterClass(st.reg, t, Last(st.scopes.packages)));
      SeqDeclarations(members, entered, scoping);
      assert r.reg == VisitSeq(members, entered, scoping).value.reg;
    case CallableDecl(_, c, body) =>
      var entered := State(st.scopes.(callables := st.scopes.callables + [c]),
                           RegisterMethodDeclaration(st.reg, c, Last(st.scopes.types)));
      SeqDeclarations(body, entered, scoping);
      assert r.reg == VisitSeq(body, entered, scoping).value.reg;
    case MethodCall(site, operands) =>
      var reg1 := if |st.scopes.callables| > 0
        then RegisterMethodCall(st.reg, Last(st.scopes.callables), site)
        else RegisterStaticCall(st.reg, Last(st.scopes.types), site);
      SeqDeclarations(operands, st.(reg := reg1), scoping);
    case ObjectCreation(_, operands) =>
      SeqDeclarations(operands, st, scoping);
    case Other(children) =>
      SeqDeclarations(children, st, scoping);
  }

  lemma {:induction false} SeqDeclarations(ns: seq<Node>, st: State, scoping: PackageScoping)
    requires VisitSeq(ns, st, scoping).Ok?
    ensures forall t :: (t in VisitSeq(ns, st, scoping).value.reg.typePackage
                         <==> t in st.reg.typePackage || DeclaresTypeIn(ns, t))
    ensures forall t :: t in st.reg.typePackage && !DeclaresTypeIn(ns, t) ==>
                          VisitSeq(ns, st, scoping).value.reg.typePackage[t] == st.reg.typePackage[t]
    ensures forall c :: (c in VisitSeq(ns, st, scoping).value.reg.callableType
                         <==> c in st.reg.callableType || DeclaresCallableIn(ns, c))
    ensures forall c :: c in st.reg.callableType && !DeclaresCallableIn(ns, c) ==>
                          VisitSeq(ns, st, scoping).value.reg.callableType[c] == st.reg.callableType[c]
    decreases ns
  {
    if |ns| > 0 {
      var next := VisitNode(ns[0], st, scoping).value;
      NodeDeclarations(ns[0], st, scoping);
      SeqDeclarations(ns[1..], next, scoping);
    }
  }

  /** A type declaration registers the type under the package on top of the
      package stack (its members do not redeclare it). */
  lemma TypeOwnedByTopPackage(k: TypeKind, t: TypeRef, members: seq<Node>, st: State, scoping: PackageScoping)
    requires !DeclaresTypeIn(members, t)
    requires VisitNode(TypeDecl(k, t, members), st, scoping).Ok?
    ensures |st.scopes.packages| > 0
    ensures VisitNode(TypeDecl(k, t, members), st, scoping).value.reg.typePackage[t] == Last(st.scopes.packages)
  {
    var entered := State(st.scopes.(types := st.scopes.types + [t]),
                         RegisterClass(st.reg, t, Last(st.scopes.packages)));
    SeqDeclarations(members, entered, scoping);
  }

  /** A method or constructor declaration registers the type on top of the
      type stack as its owner (its body does not redeclare it). */
  lemma CallableOwnedByTopType(k: CallableKind, c: CallableRef, body: seq<Node>, st: State, scoping: PackageScoping)
    requires !DeclaresCallableIn(body, c)
    requires VisitNode(CallableDecl(k, c, body), st, scoping).Ok?
    ensures |st.scopes.types| > 0
    ensures VisitNode(CallableDecl(k, c, body), st, scoping).value.reg.callableType[c] == Last(st.scopes.types)
  {
    var entered := State(st.scopes.(callables := st.scopes.callables + [c]),
                         RegisterMethodDeclaration(st.reg, c, Last(st.scopes.types)));
    SeqDeclarations(body, entered, scoping);
  }

  /** The registry is well formed and every open declaration is registered. */
  predicate Consistent(st: State)
  {
    && WellFormed(st.reg)
    && (forall i :: 0 <= i < |st.scopes.types| ==> st.scopes.types[i] in st.reg.typePackage)
    && (forall i :: 0 <= i < |st.scopes.callables| ==> st.scopes.callables[i] in st.reg.callableType)
  }

  /** The visit keeps the registry well formed: a type is registered with its
      package before any callable inside it is registered, a callable before
      any call inside it, so the printers find every owner they look up. */
  lemma {:induction false} NodeKeepsConsistent(n: Node, st: State, scoping: PackageScoping)
    requires Consistent(st)
    requires VisitNode(n, st, scoping).Ok?
    ensures Consistent(VisitNode(n, st, scoping).value)
    decreases n, 1
  {
    match n
    case PackageDecl(_) =>
    case TypeDecl(k, t, members) => TypeDeclKeepsConsistent(k, t, members, st, scoping);
    case CallableDecl(k, c, body) => CallableDeclKeepsConsistent(k, c, body, st, scoping);
    case MethodCall(site, operands) => CallKeepsConsistent(site, operands, st, scoping);
    case ObjectCreation(_, operands) => SeqKeepsConsistent(operands, st, scoping);
    case Other(children) => SeqKeepsConsistent(children, st, scoping);
  }

  lemma {:induction false} TypeDeclKeepsConsistent(k: TypeKind, t: TypeRef, members: seq<Node>, st: State, scoping: PackageScoping)
    requires Consistent(st)
    requires VisitNode(TypeDecl(k, t, members), st, scoping).Ok?
    ensures Consistent(VisitNode(TypeDecl(k, t, members), st, scoping).value)
    decreases TypeDecl(k, t, members), 0
  {
    var r := VisitNode(TypeDecl(k, t, members), st, scoping).value;
    var entered := State(st.scopes.(types := st.scopes.types + [t]),
                         RegisterClass(st.reg, t, Last(st.scopes.packages)));
    assert Consistent(entered);
    SeqKeepsConsistent(members, entered, scoping);
    var inner := VisitSeq(members, entered, scoping).value;
    assert r.reg == inner.reg && r.scopes.types == st.scopes.types && r.scopes.callables == inner.scopes.callables;
    assert forall i :: 0 <= i < |st.scopes.types| ==> st.scopes.types[i] == inner.scopes.types[i];
  }

  lemma {:induction false} CallableDeclKeepsConsistent(k: CallableKind, c: CallableRef, body: seq<Node>, st: State, scoping: PackageScoping)
    requires Consistent(st)
    requires VisitNode(CallableDecl(k, c, body), st, scoping).Ok?
    ensures Consistent(VisitNode(CallableDecl(k, c, body), st, scoping).value)
    decreases CallableDecl(k, c, body), 0
  {
    var r := VisitNode(CallableDecl(k, c, body), st, scoping).value;
    var entered := State(st.scopes.(callables := st.scopes.callables + [c]),
                         RegisterMethodDeclaration(st.reg, c, Last(st.scopes.types)));
    assert Last(st.scopes.types) in st.reg.typePackage;
    assert Consistent(entered);
    SeqKeepsConsistent(body, entered, scoping);
    var inner := VisitSeq(body, entered, scoping).value;
    assert r.reg == inner.reg && r.scopes.callables == st.scopes.callables && r.scopes.types == inner.scopes.types;
    assert forall i :: 0 <= i < |st.scopes.callables| ==> st.scopes.callables[i] == inner.scopes.callables[i];
  }

  lemma {:induction false} CallKeepsConsistent(site: CallSite, operands: seq<Node>, st: State, scoping: PackageScoping)
    requires Consistent(st)
    requires VisitNode(MethodCall(site, operands), st, scoping).Ok?
    ensures Consistent(VisitNode(MethodCall(site, operands), st, scoping).value)
    decreases MethodCall(site, operands), 0
  {
    if |st.scopes.callables| > 0 {
      var c := Last(st.scopes.callables);
      assert c in st.reg.callableType;
      SeqKeepsConsistent(operands, st.(reg := RegisterMethodCall(st.reg, c, site)), scoping);
    } else {
      var t := Last(st.scopes.types);
      assert t in st.reg.typePackage;
      SeqKeepsConsistent(operands, st.(reg := RegisterStaticCall(st.reg, t, site)), scoping);
    }
  }

  lemma {:induction false} SeqKeepsConsistent(ns: seq<Node>, st: State, scoping: PackageScoping)
    requires Consistent(st)
    requires VisitSeq(ns, st, scoping).Ok?
    ensures Consistent(VisitSeq(ns, st, scoping).value)
    decreases ns
  {
    if |ns| > 0 {
      NodeKeepsConsistent(ns[0], st, scoping);
      SeqKeepsConsistent(ns[1..], VisitNode(ns[0], st, scoping).value, scoping);
    }
  }

  /** No package declaration occurs in the subtree (true of every parsed
      type declaration). */
  predicate NoPackageDecl(n: Node)
    decreases n
  {
    match n
    case PackageDecl(_) => false
    case TypeDecl(_, _, members) => NoPackageDeclIn(members)
    case CallableDecl(_, _, body) => NoPackageDeclIn(body)
    case MethodCall(_, operands) => NoPackageDeclIn(operands)
    case ObjectCreation(_, operands) => NoPackageDeclIn(operands)
    case Other(children) => NoPackageDeclIn(children)
  }

  predicate NoPackageDeclIn(ns: seq<Node>)
    decreases ns
  {
    forall i :: 0 <= i < |ns| ==> NoPackageDecl(ns[i])
  }

  /** Inside an open type with a package open, the visit cannot fail, leaves
      the package stack as it was, registers every type of the subtree under
      the package on top, and does not depend on when the package scope
      would close. */
  lemma {:induction false} InsideType(n: Node, st: State, scoping: PackageScoping)
    requires NoPackageDecl(n) && |st.scopes.packages| > 0 && |st.scopes.types| > 0
    ensures VisitNode(n, st, scoping).Ok?
    ensures VisitNode(n, st, scoping).value.scopes.packages == st.scopes.packages
    ensures forall t :: DeclaresType(n, t) ==>
              && t in VisitNode(n, st, scoping).value.reg.typePackage
              && VisitNode(n, st, scoping).value.reg.typePackage[t] == Last(st.scopes.packages)
    ensures VisitNode(n, st, CloseWithOutermostType) == VisitNode(n, st, KeepForUnit)
    decreases n
  {
    match n
    case TypeDecl(_, t, members) =>
      var entered := State(st.scopes.(types := st.scopes.types + [t]),
                           RegisterClass(st.reg, t, Last(st.scopes.packages)));
      InsideTypeSeq(members, entered, scoping);
      SeqDeclarations(members, entered, scoping);
    case CallableDecl(_, c, body) =>
      var entered := State(st.scopes.(callables := st.scopes.callables + [c]),
                           RegisterMethodDeclaration(st.reg, c, Last(st.scopes.types)));
      InsideTypeSeq(body, entered, scoping);
    case MethodCall(site, operands) =>
      var reg1 := if |st.scopes.callables| > 0
        then RegisterMethodCall(st.reg, Last(st.scopes.callables), site)
        else RegisterStaticCall(st.reg, Last(st.scopes.types), site);
      InsideTypeSeq(operands, st.(reg := reg1), scoping);
    case ObjectCreation(_, operands) =>
      InsideTypeSeq(operands, st, scoping);
    case Other(children) =>
      InsideTypeSeq(children, st, scoping);
  }

  lemma {:induction false} InsideTypeSeq(ns: seq<Node>, st: State, scoping: PackageScoping)
    requires NoPackageDeclIn(ns) && |st.scopes.packages| > 0 && |st.scopes.types| > 0
    ensures VisitSeq(ns, st, scoping).Ok?
    ensures VisitSeq(ns, st, scoping).value.scopes.packages == st.scopes.packages
    ensures forall t :: DeclaresTypeIn(ns, t) ==>
              && t in VisitSeq(ns, st, scoping).value.reg.typePackage
              && VisitSeq(ns, st, scoping).value.reg.typePackage[t] == Last(st.scopes.packages)
    ensures VisitSeq(ns, st, CloseWithOutermostType) == VisitSeq(ns, st, KeepForUnit)
    decreases ns
  {
    if |ns| > 0 {
      InsideType(ns[0], st, scoping);
      var next := VisitNode(ns[0], st, scoping).value;
      assert NoPackageDeclIn(ns[1..]) by {
        assert forall i :: 0 <= i < |ns[1..]| ==> ns[1..][i] == ns[i + 1];
      }
      InsideTypeSeq(ns[1..], next, scoping);
      SeqDeclarations(ns[1..], next, scoping);
      assert VisitNode(ns[0], st, CloseWithOutermostType) == VisitNode(ns[0], st, KeepForUnit);
    }
  }

  /** Leaving a top-level type: the source pops the package stack there;
      keeping the package for the unit leaves it open. */
  lemma TopLevelTypeScope(k: TypeKind, t: TypeRef, members: seq<Node>, st: State, scoping: PackageScoping)
    requires NoPackageDeclIn(members) && |st.scopes.packages| > 0 && st.scopes.types == []
    ensures VisitNode(TypeDecl(k, t, members), st, scoping).Ok?
    ensures VisitNode(TypeDecl(k, t, members), st, scoping).value.scopes.packages
         == if scoping == CloseWithOutermostType then Pop(st.scopes.packages) else st.scopes.packages
    ensures forall t' :: DeclaresType(TypeDecl(k, t, members), t') ==>
              && t' in VisitNode(TypeDecl(k, t, members), st, scoping).value.reg.typePackage
              && VisitNode(TypeDecl(k, t, members), st, scoping).value.reg.typePackage[t'] == Last(st.scopes.packages)
  {
    var entered := State(st.scopes.(types := st.scopes.types + [t]),
                         RegisterClass(st.reg, t, Last(st.scopes.packages)));
    InsideTypeSeq(members, entered, scoping);
    SeqDeclarations(members, entered, scoping);
  }

  /** The top-level declarations of a parsed unit: type declarations, with no
      package declaration inside them. */
  predicate TopLevelTypes(ns: seq<Node>)
  {
    forall i :: 0 <= i < |ns| ==> ns[i].TypeDecl? && NoPackageDeclIn(ns[i].members)
  }

  /** As written, the package scope closes with the first top-level type, so
      a second top-level type in the same unit peeks at an empty package
      stack and the walk fails. */
  lemma SecondTopLevelTypeFails(u: CompilationUnit, reg: Registry)
    requires u.package.Some? && TopLevelTypes(u.types) && |u.types| >= 2
    ensures VisitUnit(u, reg, CloseWithOutermostType) == Err(EmptyPackageStack)
  {
    var st1 := State(NoScopes.(packages := [u.package.value]), reg);
    var first := u.types[0];
    TopLevelTypeScope(first.kind, first.decl, first.members, st1, CloseWithOutermostType);
    var next := VisitNode(first, st1, CloseWithOutermostType).value;
    assert next.scopes.packages == [];
    assert u.types[1..][0] == u.types[1];
    assert VisitNode(u.types[1], next, CloseWithOutermostType) == Err(EmptyPackageStack);
    assert VisitSeq(u.types[1..], next, CloseWithOutermostType) == Err(EmptyPackageStack);
    assert VisitSeq(u.types, st1, CloseWithOutermostType) == Err(EmptyPackageStack);
    assert VisitNode(PackageDecl(u.package.value), State(NoScopes, reg), CloseWithOutermostType) == Ok(st1);
  }

  lemma {:induction false} TopLevelSeqKeepingPackage(ns: seq<Node>, st: State)
    requires TopLevelTypes(ns) && |st.scopes.packages| > 0 && st.scopes.types == []
    ensures VisitSeq(ns, st, KeepForUnit).Ok?
    ensures VisitSeq(ns, st, KeepForUnit).value.scopes.packages == st.scopes.packages
    ensures forall t :: DeclaresTypeIn(ns, t) ==>
              && t in VisitSeq(ns, st, KeepForUnit).value.reg.typePackage
              && VisitSeq(ns, st, KeepForUnit).value.reg.typePackage[t] == Last(st.scopes.packages)
    decreases ns
  {
    if |ns| > 0 {
      var first := ns[0];
      TopLevelTypeScope(first.kind, first.decl, first.members, st, KeepForUnit);
      var next := VisitNode(first, st, KeepForUnit).value;
      assert TopLevelTypes(ns[1..]) by {
        assert forall i :: 0 <= i < |ns[1..]| ==> ns[1..][i] == ns[i + 1];
      }
      TopLevelSeqKeepingPackage(ns[1..], next);
      SeqDeclarations(ns[1..], next, KeepForUnit);
    }
  }

  /** With the package kept open for the whole unit, every unit that has a
      package declaration is walked without error, and every type declared
      in it, nested or not, is registered under the unit's package. */
  lemma CorrectedUnitRegistersEveryType(u: CompilationUnit, reg: Registry)
    requires u.package.Some? && TopLevelTypes(u.types)
    ensures VisitUnit(u, reg, KeepForUnit).Ok?
    ensures forall t :: DeclaresTypeIn(u.types, t) ==>
              && t in VisitUnit(u, reg, KeepForUnit).value.reg.typePackage
              && VisitUnit(u, reg, KeepForUnit).value.reg.typePackage[t] == u.package.value
  {
    var st1 := State(NoScopes.(packages := [u.package.value]), reg);
    assert NoScopes.packages + [u.package.value] == [u.package.value];
    assert VisitNode(PackageDecl(u.package.value), State(NoScopes, reg), KeepForUnit) == Ok(st1);
    assert VisitUnit(u, reg, KeepForUnit) == VisitSeq(u.types, st1, KeepForUnit);
    TopLevelSeqKeepingPackage(u.types, st1);
  }

  /** On a unit with a single top-level type the two policies register the
      same entries: the source works as intended there. */
  lemma SingleTopLevelTypeAgrees(u: CompilationUnit, reg: Registry)
    requires u.package.Some? && TopLevelTypes(u.types) && |u.types| == 1
    ensures VisitUnit(u, reg, CloseWithOutermostType).Ok? && VisitUnit(u, reg, KeepForUnit).Ok?
    ensures VisitUnit(u, reg, CloseWithOutermostType).value.reg == VisitUnit(u, reg, KeepForUnit).value.reg
  {
    var st1 := State(NoScopes.(packages := [u.package.value]), reg);
    assert NoScopes.packages + [u.package.value] == [u.package.value];
    assert VisitNode(PackageDecl(u.package.value), State(NoScopes, reg), KeepForUnit) == Ok(st1);
    assert VisitNode(PackageDecl(u.package.value), State(NoScopes, reg), CloseWithOutermostType) == Ok(st1);
    var first := u.types[0];
    TopLevelTypeScope(first.kind, first.decl, first.members, st1, CloseWithOutermostType);
    TopLevelTypeScope(first.kind, first.decl, first.members, st1, KeepForUnit);
    var entered := State(st1.scopes.(types := [first.decl]),
                         RegisterClass(reg, first.decl, u.package.value));
    InsideTypeSeq(first.members, entered, KeepForUnit);
    var closed := VisitNode(first, st1, CloseWithOutermostType);
    var kept := VisitNode(first, st1, KeepForUnit);
    assert closed.value.reg == kept.value.reg;
    assert u.types[1..] == [];
    assert VisitSeq(u.types, st1, CloseWithOutermostType) == Ok(closed.value);
    assert VisitSeq(u.types, st1, KeepForUnit) == Ok(kept.value);
    assert VisitUnit(u, reg, CloseWithOutermostType) == Ok(closed.value);
    assert VisitUnit(u, reg, KeepForUnit) == Ok(kept.value);
  }

  /** A unit without a package declaration fails on its first type under
      either policy: the package stack is empty when the type is entered. */
  lemma NoPackageUnitFails(u: CompilationUnit, reg: Registry, scoping: PackageScoping)
    requires u.package.None? && |u.types| > 0 && u.types[0].TypeDecl?
    ensures VisitUnit(u, reg, scoping) == Err(EmptyPackageStack)
  {
    var start := State(NoScopes, reg);
    assert VisitNode(u.types[0], start, scoping) == Err(EmptyPackageStack);
    assert VisitSeq(u.types, start, scoping) == Err(EmptyPackageStack);
  }

  /** One unit's walk keeps the registry well formed. */
  lemma VisitUnitWellFormed(u: CompilationUnit, reg: Registry, scoping: PackageScoping)
    requires WellFormed(reg)
    requires VisitUnit(u, reg, scoping).Ok?
    ensures WellFormed(VisitUnit(u, reg, scoping).value.reg)
  {
    var start := State(NoScopes, reg);
    assert Consistent(start);
    if u.package.None? {
      SeqKeepsConsistent(u.types, start, scoping);
    } else {
      var st1 := VisitNode(PackageDecl(u.package.value), start, scoping).value;
      assert Consistent(st1);
      SeqKeepsConsistent(u.types, st1, scoping);
    }
  }

  /** The driver keeps the shared registry well formed across units, so the
      printers can run on whatever it built. */
  lemma {:induction false} VisitUnitsWellFormed(units: seq<CompilationUnit>, reg: Registry, scoping: PackageScoping)
    requires WellFormed(reg)
    requires VisitUnits(units, reg, scoping).Ok?
    ensures WellFormed(VisitUnits(units, reg, scoping).value)
    decreases units
  {
    if |units| > 0 {
      VisitUnitWellFormed(units[0], reg, scoping);
      VisitUnitsWellFormed(units[1..], VisitUnit(units[0], reg, scoping).value.reg, scoping);
    }
  }
}
