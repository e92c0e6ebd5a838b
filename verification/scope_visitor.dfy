/** The scope-tracking visitor of parser/Visitor.kt as a fold over the parsed
    tree. The three stacks (packages, types, callables) are sequences whose
    last element is the top; the registry is threaded through the fold. */
module ScopeVisitor {
  import opened Wrappers
  import opened Entities
  import opened Registry

  datatype TypeKind = ClassOrInterface | Enum | Record | Annotation
  datatype CallableKind = Method | Constructor

  /** The node shapes the visitor tells apart; every other node is `Other`,
      and its children are visited in the parser's order. */
  datatype Node =
    | PackageDecl(pkg: PackageRef)
    | TypeDecl(kind: TypeKind, decl: TypeRef, members: seq<Node>)
    | CallableDecl(callableKind: CallableKind, callable: CallableRef, body: seq<Node>)
    | MethodCall(call: CallSite, operands: seq<Node>)
    | ObjectCreation(creation: CreationSite, operands: seq<Node>)
    | Other(children: seq<Node>)

  /** A compilation unit: the optional package declaration, visited first,
      then the top-level type declarations. */
  datatype CompilationUnit = CompilationUnit(package: Option<PackageRef>, types: seq<Node>)

  datatype Scopes = Scopes(packages: seq<PackageRef>, types: seq<TypeRef>, callables: seq<CallableRef>)

  const NoScopes: Scopes := Scopes([], [], [])

  datatype State = State(scopes: Scopes, reg: Registry)

  /** `peek` or `pop` on an empty stack. */
  datatype VisitError = EmptyPackageStack | EmptyTypeStack

  /** When the package scope closes. The source pops the package stack as
      soon as the type stack is empty again, that is after the first
      top-level type; keeping it for the whole unit is the evident intent. */
  datatype PackageScoping = CloseWithOutermostType | KeepForUnit

  /** The scopes a fold step leaves behind on success: the type and callable
      stacks as they were, and the registry only grown. */
  predicate Balanced(st: State, r: State)
  {
    && r.scopes.types == st.scopes.types
    && r.scopes.callables == st.scopes.callables
    && st.reg.typePackage.Keys <= r.reg.typePackage.Keys
    && st.reg.callableType.Keys <= r.reg.callableType.Keys
  }

  /** Visits one node. Types and callables are pushed and registered on entry
      and popped on exit; a method call is registered under the innermost
      callable, or under the innermost type when no callable is open, before
      its operands are visited. Object creations are not registered. */
  function VisitNode(n: Node, st: State, scoping: PackageScoping): (r: Result<State, VisitError>)
    ensures r.Ok? ==> Balanced(st, r.value)
    ensures r.Ok? ==> r.value.reg.creations == st.reg.creations
    ensures r.Ok? ==> r.value.reg.staticCreations == st.reg.staticCreations
    decreases n
  {
    match n
    case PackageDecl(p) =>
      Ok(st.(scopes := st.scopes.(packages := st.scopes.packages + [p])))
    case TypeDecl(_, t, members) =>
      if |st.scopes.packages| == 0 then Err(EmptyPackageStack)
      else
        var entered := State(st.scopes.(types := st.scopes.types + [t]),
                             RegisterClass(st.reg, t, Last(st.scopes.packages)));
        (match VisitSeq(members, entered, scoping)
         case Err(e) => Err(e)
         case Ok(inner) =>
           var types := Pop(inner.scopes.types);
           assert types == st.scopes.types;
           if scoping == CloseWithOutermostType && |types| == 0 then
             if |inner.scopes.packages| == 0 then Err(EmptyPackageStack)
             else Ok(State(inner.scopes.(packages := Pop(inner.scopes.packages), types := types), inner.reg))
           else Ok(State(inner.scopes.(types := types), inner.reg)))
    case CallableDecl(_, c, body) =>
      if |st.scopes.types| == 0 then Err(EmptyTypeStack)
      else
        var entered := State(st.scopes.(callables := st.scopes.callables + [c]),
                             RegisterMethodDeclaration(st.reg, c, Last(st.scopes.types)));
        (match VisitSeq(body, entered, scoping)
         case Err(e) => Err(e)
         case Ok(inner) =>
           var callables := Pop(inner.scopes.callables);
           assert callables == st.scopes.callables;
           Ok(State(inner.scopes.(callables := callables), inner.reg)))
    case MethodCall(site, operands) =>
      if |st.scopes.callables| > 0 then
        VisitSeq(operands, st.(reg := RegisterMethodCall(st.reg, Last(st.scopes.callables), site)), scoping)
      else if |st.scopes.types| > 0 then
        VisitSeq(operands, st.(reg := RegisterStaticCall(st.reg, Last(st.scopes.types), site)), scoping)
      else Err(EmptyTypeStack)
    case ObjectCreation(_, operands) =>
      VisitSeq(operands, st, scoping)
    case Other(children) =>
      VisitSeq(children, st, scoping)
  }

  /** Visits sibling nodes in order; the first error stops the walk. */
  function VisitSeq(ns: seq<Node>, st: State, scoping: PackageScoping): (r: Result<State, VisitError>)
    ensures r.Ok? ==> Balanced(st, r.value)
    ensures r.Ok? ==> r.value.reg.creations == st.reg.creations
    ensures r.Ok? ==> r.value.reg.staticCreations == st.reg.staticCreations
    decreases ns
  {
    if |ns| == 0 then Ok(st)
    else
      match VisitNode(ns[0], st, scoping)
      case Err(e) => Err(e)
      case Ok(next) => VisitSeq(ns[1..], next, scoping)
  }

  /** The walk of one compilation unit by a fresh visitor: empty stacks, the
      package declaration first, then the top-level types. */
  function VisitUnit(u: CompilationUnit, reg: Registry, scoping: PackageScoping): (r: Result<State, VisitError>)
    ensures r.Ok? ==> r.value.reg.creations == reg.creations && r.value.reg.staticCreations == reg.staticCreations
    ensures r.Ok? ==> r.value.scopes.types == [] && r.value.scopes.callables == []
  {
    var start := State(NoScopes, reg);
    match u.package
    case None => VisitSeq(u.types, start, scoping)
    case Some(p) =>
      match VisitNode(PackageDecl(p), start, scoping)
      case Err(e) => Err(e)
      case Ok(st) => VisitSeq(u.types, st, scoping)
  }

  /** Every parsed unit of every source root goes through its own visitor into
      one shared registry; an error in any unit ends the run. */
  function VisitUnits(units: seq<CompilationUnit>, reg: Registry, scoping: PackageScoping): (r: Result<Registry, VisitError>)
    ensures r.Ok? ==> r.value.creations == reg.creations && r.value.staticCreations == reg.staticCreations
    ensures r.Ok? ==> reg.typePackage.Keys <= r.value.typePackage.Keys
  {
    if |units| == 0 then Ok(reg)
    else
      match VisitUnit(units[0], reg, scoping)
      case Err(e) => Err(e)
      case Ok(st) => VisitUnits(units[1..], st.reg, scoping)
  }
}
