/**
 * The part of Roslyn's symbol model that the analyzers and code fixes look at.
 * Two symbols are the same symbol (SymbolEqualityComparer.Default) exactly when
 * their values are equal; a symbol that may be null is an `Option`.
 */
module Symbols {
  import opened Wrappers

  /** The SpecialType tag of the predefined types the rules test for. */
  datatype SpecialType =
    | NotSpecial
    | SystemObject
    | SystemBoolean
    | SystemString
    | SystemDouble
    | SystemDecimal
    | SystemSingle
    | SystemInt32
    | SystemDateTime
    | SystemNullableT

  /**
   * A type symbol. `baseType` is BaseType (None above System.Object and for
   * interfaces and type parameters), `allInterfaces` is AllInterfaces and
   * `definition` is the generic definition a constructed type was built from
   * (None when the symbol is its own original definition).
   */
  datatype TypeSymbol = TypeSymbol(
    metadataName: string,
    typeArguments: seq<TypeSymbol>,
    special: SpecialType,
    baseType: Option<TypeSymbol>,
    allInterfaces: seq<TypeSymbol>,
    definition: Option<TypeSymbol>)

  function OriginalDefinition(t: TypeSymbol): TypeSymbol
  {
    if t.definition.Some? then t.definition.value else t
  }

  predicate IsDefinition(t: TypeSymbol)
  {
    t.definition.None?
  }

  /**
   * INamedTypeSymbol.Construct: the generic definition `def` applied to `args`.
   * The constructed type keeps the definition's base type and interfaces as
   * they are (the rules only ever compare constructed types for identity).
   */
  function Construct(def: TypeSymbol, args: seq<TypeSymbol>): (r: TypeSymbol)
    ensures OriginalDefinition(r) == OriginalDefinition(def)
    ensures !IsDefinition(r) && r.typeArguments == args
    ensures IsDefinition(def) ==> r != def
  {
    TypeSymbol(def.metadataName, args, NotSpecial, def.baseType, def.allInterfaces, Some(OriginalDefinition(def)))
  }

  /**
   * A parameter of a method: its type in the method as called, and its type in
   * ConstructedFrom, the generic method definition the call was bound to.
   */
  datatype Parameter = Parameter(paramType: TypeSymbol, definitionType: TypeSymbol)

  datatype MethodSymbol = MethodSymbol(
    containingType: TypeSymbol,
    name: string,
    parameters: seq<Parameter>,
    typeArguments: seq<TypeSymbol>)

  /**
   * What a compilation answers: GetTypeByMetadataName, the symbols that a
   * documentation comment id (DocumentationCommentId.GetSymbolsForDeclarationId)
   * stands for, and the special types System.Nullable`1 and System.Boolean.
   */
  datatype Compilation = Compilation(
    types: map<string, TypeSymbol>,
    declarationIds: map<string, seq<MethodSymbol>>,
    nullableDefinition: TypeSymbol,
    booleanType: TypeSymbol)

  function GetTypeByMetadataName(c: Compilation, name: string): Option<TypeSymbol>
  {
    if name in c.types then Some(c.types[name]) else None
  }

  function GetSymbolsForDeclarationId(c: Compilation, id: string): seq<MethodSymbol>
  {
    if id in c.declarationIds then c.declarationIds[id] else []
  }

  /** `Nullable<bool>`, built as GetSpecialType(Nullable_T).Construct(GetSpecialType(Boolean)). */
  function NullableBoolean(c: Compilation): TypeSymbol
  {
    Construct(c.nullableDefinition, [c.booleanType])
  }
}
