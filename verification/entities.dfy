/** The entities of the call graph. Every record carries an `id` standing for
    what the parser's node equality tells apart, so that two declarations or
    two call expressions are the same entry exactly when their records are
    equal; the remaining fields are the text the printers need. */
module Entities {

  datatype PackageRef = PackageRef(id: nat, name: string)

  /** A class, interface, enum, record or annotation declaration. */
  datatype TypeRef = TypeRef(id: nat, name: string)

  /** A method or constructor declaration with its parameter types as written. */
  datatype CallableRef = CallableRef(id: nat, name: string, paramTypes: seq<string>)

  /** A method-call expression: the called name and its argument texts. */
  datatype CallSite = CallSite(id: nat, name: string, args: seq<string>)

  /** An object-creation expression: the created type as written and its
      argument texts. */
  datatype CreationSite = CreationSite(id: nat, typeName: string, args: seq<string>)

  /** What the symbol resolver is asked about. */
  datatype Target = OfCall(call: CallSite) | OfCreation(creation: CreationSite)

  /** A resolved declaration: its qualified name and the qualified names of
      its type parameters. */
  datatype Resolved = Resolved(qualifiedName: string, typeParams: seq<string>)

  /** The scope a site is recorded under. */
  datatype Scope = InType(t: TypeRef) | InCallable(c: CallableRef)
}
