/**
 * Symbol and operation helpers shared by the analyzers and the code fixes:
 * type identity by metadata name, "is or implements", "is or inherits from"
 * and the removal of implicit conversions.
 */
module Extensions {
  import opened Wrappers
  import opened Symbols
  import opened Operations

  /**
   * `symbol.Equals(compilation, name)`: a non-null symbol that is the type the
   * name resolves to. An exact match passes the two weaker type tests as well.
   */
  function IsType(symbol: Option<TypeSymbol>, c: Compilation, name: string): (r: bool)
    ensures r ==> symbol.Some? && GetTypeByMetadataName(c, name).Some?
    ensures r ==> Implements(symbol, GetTypeByMetadataName(c, name)) && InheritsFromSymbol(symbol, GetTypeByMetadataName(c, name))
  {
    symbol.Some? && symbol == GetTypeByMetadataName(c, name)
  }

  /** A name picks out at most one type. */
  lemma IsTypeUnique(a: Option<TypeSymbol>, b: Option<TypeSymbol>, c: Compilation, name: string)
    requires IsType(a, c, name) && IsType(b, c, name)
    ensures a == b
  {
  }

  // ---------------------------------------------------------------------
  // Is or implements

  /** The type is `other`, or one of its interfaces has `other` as original definition. */
  predicate Implements(symbol: Option<TypeSymbol>, other: Option<TypeSymbol>)
  {
    symbol.Some? && other.Some? &&
    (symbol.value == other.value ||
     exists i :: 0 <= i < |symbol.value.allInterfaces| && OriginalDefinition(symbol.value.allInterfaces[i]) == other.value)
  }

  method IsOrImplements(symbol: Option<TypeSymbol>, c: Compilation, name: string) returns (r: bool)
    ensures r == Implements(symbol, GetTypeByMetadataName(c, name))
  {
    if symbol.None? {
      return false;
    }
    var other := GetTypeByMetadataName(c, name);
    if other == symbol {
      return true;
    }
    var interfaces := symbol.value.allInterfaces;
    var i := 0;
    while i < |interfaces|
      invariant 0 <= i <= |interfaces|
      invariant forall j :: 0 <= j < i ==> Some(OriginalDefinition(interfaces[j])) != other
    {
      if Some(OriginalDefinition(interfaces[i])) == other {
        return true;
      }
      i := i + 1;
    }
    return false;
  }

  /** Only interfaces are consulted: a class whose base class is the target does not "implement" it. */
  lemma BaseClassIsNotConsulted(target: TypeSymbol)
    ensures var derived := TypeSymbol("Derived", [], NotSpecial, Some(target), [], None);
            derived != target && !Implements(Some(derived), Some(target))
  {
    var derived := TypeSymbol("Derived", [], NotSpecial, Some(target), [], None);
    assert target < derived;
  }

  // ---------------------------------------------------------------------
  // Is or inherits from

  /** `t` is `b` or one of the classes on its base type chain is. */
  predicate InheritsFrom(t: TypeSymbol, b: TypeSymbol)
    decreases t
  {
    t == b || (t.baseType.Some? && InheritsFrom(t.baseType.value, b))
  }

  /** Both symbols non-null and the first inherits from the second. */
  predicate InheritsFromSymbol(symbol: Option<TypeSymbol>, baseSymbol: Option<TypeSymbol>)
  {
    symbol.Some? && baseSymbol.Some? && InheritsFrom(symbol.value, baseSymbol.value)
  }

  /** Number of base links above a type. */
  function Depth(t: TypeSymbol): nat
    decreases t
  {
    if t.baseType.Some? then 1 + Depth(t.baseType.value) else 0
  }

  /** The type followed by its base types, nearest first. */
  function BaseChain(t: TypeSymbol): (chain: seq<TypeSymbol>)
    decreases t
    ensures |chain| == Depth(t) + 1 && chain[0] == t
  {
    [t] + (if t.baseType.Some? then BaseChain(t.baseType.value) else [])
  }

  method IsOrInheritsFrom(symbol: Option<TypeSymbol>, baseSymbol: Option<TypeSymbol>) returns (r: bool)
    ensures r == InheritsFromSymbol(symbol, baseSymbol)
  {
    if symbol.None? || baseSymbol.None? {
      return false;
    }
    var current := symbol;
    while current.Some?
      invariant InheritsFromSymbol(symbol, baseSymbol) == (current.Some? && InheritsFrom(current.value, baseSymbol.value))
      decreases if current.Some? then Depth(current.value) + 1 else 0
    {
      if current.value == baseSymbol.value {
        return true;
      }
      current := current.value.baseType;
    }
    return false;
  }

  /** The overload taking a metadata name: an unresolvable name is inherited by nothing. */
  method IsOrInheritsFromName(symbol: Option<TypeSymbol>, c: Compilation, name: string) returns (r: bool)
    ensures r == InheritsFromSymbol(symbol, GetTypeByMetadataName(c, name))
  {
    if symbol.None? {
      return false;
    }
    var other := GetTypeByMetadataName(c, name);
    if other.None? {
      return false;
    }
    r := IsOrInheritsFrom(symbol, other);
  }

  /** Inheritance is membership of the base chain. */
  lemma {:induction false} InheritsFromIsOnChain(t: TypeSymbol, b: TypeSymbol)
    ensures InheritsFrom(t, b) <==> b in BaseChain(t)
    decreases t
  {
    if t.baseType.Some? {
      InheritsFromIsOnChain(t.baseType.value, b);
    }
  }

  lemma {:induction false} InheritsFromTransitive(a: TypeSymbol, b: TypeSymbol, c: TypeSymbol)
    requires InheritsFrom(a, b) && InheritsFrom(b, c)
    ensures InheritsFrom(a, c)
    decreases a
  {
    if a != b {
      InheritsFromTransitive(a.baseType.value, b, c);
    }
  }

  /** A proper base type sits strictly higher: inheritance never loops back. */
  lemma {:induction false} InheritsFromLowersDepth(t: TypeSymbol, b: TypeSymbol)
    requires InheritsFrom(t, b)
    ensures Depth(b) <= Depth(t)
    ensures Depth(b) == Depth(t) ==> t == b
    decreases t
  {
    if t != b {
      InheritsFromLowersDepth(t.baseType.value, b);
    }
  }

  lemma InheritsFromAntisymmetric(a: TypeSymbol, b: TypeSymbol)
    requires InheritsFrom(a, b) && InheritsFrom(b, a)
    ensures a == b
  {
    InheritsFromLowersDepth(a, b);
    InheritsFromLowersDepth(b, a);
  }

  // ---------------------------------------------------------------------
  // Remove implicit conversion

  predicate IsImplicitConversion(op: Operation)
  {
    op.kind.ConversionOp? && op.kind.isImplicit
  }

  /** The operation under all its outer implicit conversions. */
  function StripImplicit(op: Operation): (r: Operation)
    decreases op
    ensures !IsImplicitConversion(r)
    ensures !IsImplicitConversion(op) ==> r == op
    ensures r == op || r < op
  {
    if IsImplicitConversion(op) then StripImplicit(op.kind.operand) else op
  }

  method RemoveImplicitConversion(operation: Operation) returns (r: Operation)
    ensures r == StripImplicit(operation)
  {
    r := operation;
    while IsImplicitConversion(r)
      invariant StripImplicit(r) == StripImplicit(operation)
      decreases r
    {
      r := r.kind.operand;
    }
  }

  lemma StripImplicitIdempotent(op: Operation)
    ensures StripImplicit(StripImplicit(op)) == StripImplicit(op)
  {
  }
}
