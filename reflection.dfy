/** The parts of .NET reflection that the registrar consults, reduced to finite,
    abstract inputs: a type's simple name, its base type and its
    `RenderWithAttribute` target. */
module Reflection {

  /** A nullable reference: `None` stands for C#'s `null`. */
  datatype Option<+T> = None | Some(value: T)

  /** A runtime type, identified by an opaque id and carrying its simple name
      (`Type.Name`). */
  datatype TypeRef = TypeRef(id: nat, name: string)

  /** `type.Name.StartsWith("_")`: the name marks an unresolved placeholder
      stub that a platform has not yet renamed. */
  predicate IsPlaceholder(t: TypeRef)
  {
    |t.name| > 0 && t.name[0] == '_'
  }

  /** What reflection knows about the loaded types.
      - `baseType[t]` is `t.GetTypeInfo().BaseType` when that is not null;
      - `renderWith[t]` is the `Type` of the `RenderWithAttribute` that
        `GetCustomAttribute` returns for `t`, possibly inherited from a base
        type, when there is one;
      - `rank` witnesses that every base-type chain is finite (a CLR type
        hierarchy has no cycles): each base type ranks below its subtype. */
  datatype TypeSystem = TypeSystem(
    baseType: map<TypeRef, TypeRef>,
    renderWith: map<TypeRef, TypeRef>,
    rank: map<TypeRef, nat>)
  {
    predicate Valid()
    {
      forall t :: t in baseType ==> t in rank && baseType[t] in rank && rank[baseType[t]] < rank[t]
    }

    function BaseType(t: TypeRef): Option<TypeRef>
    {
      if t in baseType then Some(baseType[t]) else None
    }

    function RenderWith(t: TypeRef): Option<TypeRef>
    {
      if t in renderWith then Some(renderWith[t]) else None
    }

    function Depth(t: TypeRef): nat
    {
      if t in rank then rank[t] else 0
    }
  }
}
