/** The call-graph registry of graph/Printer.kt: six maps filled by the
    `register*` operations. The lazily created shared instance becomes a value
    passed from one operation to the next. */
module Registry {
  import opened Entities

  datatype Registry = Registry(
    typePackage: map<TypeRef, PackageRef>,
    callableType: map<CallableRef, TypeRef>,
    calls: map<CallableRef, set<CallSite>>,
    staticCalls: map<TypeRef, set<CallSite>>,
    creations: map<CallableRef, set<CreationSite>>,
    staticCreations: map<TypeRef, set<CreationSite>>)

  const Empty: Registry := Registry(map[], map[], map[], map[], map[], map[])

  /** The set stored under k, or the empty set when k is absent. */
  function SetAt<K, V>(m: map<K, set<V>>, k: K): set<V>
  {
    if k in m then m[k] else {}
  }

  /** Get-or-create the set under k, then add v to it. */
  function AddTo<K, V>(m: map<K, set<V>>, k: K, v: V): (r: map<K, set<V>>)
    ensures r.Keys == m.Keys + {k}
    ensures r[k] == SetAt(m, k) + {v}
    ensures forall k' :: k' in m && k' != k ==> r[k'] == m[k']
  {
    m[k := SetAt(m, k) + {v}]
  }

  /** Adding an element already present changes nothing once the key exists. */
  lemma AddToIdempotent<K, V>(m: map<K, set<V>>, k: K, v: V)
    ensures AddTo(AddTo(m, k, v), k, v) == AddTo(m, k, v)
  {
  }

  /** Two insertions commute: the registry does not depend on the order in
      which sites are registered. */
  lemma AddToCommutes<K, V>(m: map<K, set<V>>, k1: K, v1: V, k2: K, v2: V)
    ensures AddTo(AddTo(m, k1, v1), k2, v2) == AddTo(AddTo(m, k2, v2), k1, v1)
  {
    var a := AddTo(AddTo(m, k1, v1), k2, v2);
    var b := AddTo(AddTo(m, k2, v2), k1, v1);
    assert forall k :: k in a ==> a[k] == b[k];
  }

  function RegisterClass(reg: Registry, t: TypeRef, p: PackageRef): (r: Registry)
    ensures r.typePackage.Keys == reg.typePackage.Keys + {t}
    ensures r.typePackage[t] == p
    ensures forall t' :: t' in reg.typePackage && t' != t ==> r.typePackage[t'] == reg.typePackage[t']
    ensures r.(typePackage := reg.typePackage) == reg
  {
    reg.(typePackage := reg.typePackage[t := p])
  }

  function RegisterMethodDeclaration(reg: Registry, c: CallableRef, t: TypeRef): (r: Registry)
    ensures r.callableType.Keys == reg.callableType.Keys + {c}
    ensures r.callableType[c] == t
    ensures forall c' :: c' in reg.callableType && c' != c ==> r.callableType[c'] == reg.callableType[c']
    ensures r.(callableType := reg.callableType) == reg
  {
    reg.(callableType := reg.callableType[c := t])
  }

  function RegisterMethodCall(reg: Registry, c: CallableRef, site: CallSite): (r: Registry)
    ensures r.calls.Keys == reg.calls.Keys + {c}
    ensures r.calls[c] == SetAt(reg.calls, c) + {site}
    ensures forall c' :: c' in reg.calls && c' != c ==> r.calls[c'] == reg.calls[c']
    ensures r.(calls := reg.calls) == reg
  {
    reg.(calls := AddTo(reg.calls, c, site))
  }

  function RegisterStaticCall(reg: Registry, t: TypeRef, site: CallSite): (r: Registry)
    ensures r.staticCalls.Keys == reg.staticCalls.Keys + {t}
    ensures r.staticCalls[t] == SetAt(reg.staticCalls, t) + {site}
    ensures forall t' :: t' in reg.staticCalls && t' != t ==> r.staticCalls[t'] == reg.staticCalls[t']
    ensures r.(staticCalls := reg.staticCalls) == reg
  {
    reg.(staticCalls := AddTo(reg.staticCalls, t, site))
  }

  function RegisterObjectCreation(reg: Registry, c: CallableRef, site: CreationSite): (r: Registry)
    ensures r.creations.Keys == reg.creations.Keys + {c}
    ensures r.creations[c] == SetAt(reg.creations, c) + {site}
    ensures forall c' :: c' in reg.creations && c' != c ==> r.creations[c'] == reg.creations[c']
    ensures r.(creations := reg.creations) == reg
  {
    reg.(creations := AddTo(reg.creations, c, site))
  }

  function RegisterStaticObjectCreation(reg: Registry, t: TypeRef, site: CreationSite): (r: Registry)
    ensures r.staticCreations.Keys == reg.staticCreations.Keys + {t}
    ensures r.staticCreations[t] == SetAt(reg.staticCreations, t) + {site}
    ensures forall t' :: t' in reg.staticCreations && t' != t ==> r.staticCreations[t'] == reg.staticCreations[t']
    ensures r.(staticCreations := reg.staticCreations) == reg
  {
    reg.(staticCreations := AddTo(reg.staticCreations, t, site))
  }

  /** Registering the same site twice is registering it once. */
  lemma RegisterSiteIdempotent(reg: Registry, c: CallableRef, t: TypeRef, call: CallSite, creation: CreationSite)
    ensures RegisterMethodCall(RegisterMethodCall(reg, c, call), c, call) == RegisterMethodCall(reg, c, call)
    ensures RegisterStaticCall(RegisterStaticCall(reg, t, call), t, call) == RegisterStaticCall(reg, t, call)
    ensures RegisterObjectCreation(RegisterObjectCreation(reg, c, creation), c, creation)
         == RegisterObjectCreation(reg, c, creation)
    ensures RegisterStaticObjectCreation(RegisterStaticObjectCreation(reg, t, creation), t, creation)
         == RegisterStaticObjectCreation(reg, t, creation)
  {
    AddToIdempotent(reg.calls, c, call);
    AddToIdempotent(reg.staticCalls, t, call);
    AddToIdempotent(reg.creations, c, creation);
    AddToIdempotent(reg.staticCreations, t, creation);
  }

  /** Ownership is a plain map put: the last registration wins. */
  lemma RegisterOwnerLastWins(reg: Registry, t: TypeRef, p1: PackageRef, p2: PackageRef,
                              c: CallableRef, t1: TypeRef, t2: TypeRef)
    ensures RegisterClass(RegisterClass(reg, t, p1), t, p2) == RegisterClass(reg, t, p2)
    ensures RegisterMethodDeclaration(RegisterMethodDeclaration(reg, c, t1), c, t2)
         == RegisterMethodDeclaration(reg, c, t2)
  {
  }

  /** The call site `site` is recorded under `scope`. */
  predicate HasCall(reg: Registry, scope: Scope, site: CallSite)
  {
    match scope
    case InCallable(c) => c in reg.calls && site in reg.calls[c]
    case InType(t) => t in reg.staticCalls && site in reg.staticCalls[t]
  }

  /** Registering a call under a callable records it under that scope and
      nowhere else, and every earlier record stays. */
  lemma HasCallAfterMethodCall(reg: Registry, c: CallableRef, site: CallSite, scope: Scope, s: CallSite)
    ensures HasCall(RegisterMethodCall(reg, c, site), scope, s)
        <==> HasCall(reg, scope, s) || (scope == InCallable(c) && s == site)
  {
  }

  lemma HasCallAfterStaticCall(reg: Registry, t: TypeRef, site: CallSite, scope: Scope, s: CallSite)
    ensures HasCall(RegisterStaticCall(reg, t, site), scope, s)
        <==> HasCall(reg, scope, s) || (scope == InType(t) && s == site)
  {
  }

  /** What the printers rely on: every callable's type has a package, and
      every scope that holds sites is a registered declaration (so no site is
      left out of the listing). */
  predicate WellFormed(reg: Registry)
  {
    && (forall c :: c in reg.callableType ==> reg.callableType[c] in reg.typePackage)
    && reg.calls.Keys <= reg.callableType.Keys
    && reg.creations.Keys <= reg.callableType.Keys
    && reg.staticCalls.Keys <= reg.typePackage.Keys
    && reg.staticCreations.Keys <= reg.typePackage.Keys
  }
}
