/**
 * MFA008..MFA013: `Be`/`NotBe` with a constant null, false or true on a
 * `bool?` subject, which have a dedicated FluentAssertions method.
 */
module NullableBooleanShouldBeAnalyzer {
  import opened Wrappers
  import opened Symbols
  import opened Operations
  import opened Diagnostics
  import opened Extensions
  import opened AssertionMeaning

  /** NullableBooleanAssertions<NullableBooleanAssertions>, or None when either type is missing and the analyzer is off. */
  function AssertionsSymbol(c: Compilation): Option<TypeSymbol>
  {
    var ofT := GetTypeByMetadataName(c, "FluentAssertions.Primitives.NullableBooleanAssertions`1");
    var plain := GetTypeByMetadataName(c, "FluentAssertions.Primitives.NullableBooleanAssertions");
    if plain.None? || ofT.None? then None else Some(Construct(ofT.value, [plain.value]))
  }

  /** A `Be` or `NotBe` call with at least one argument on the assertions type. */
  predicate Considered(assertions: TypeSymbol, op: Operation)
    requires op.kind.InvocationOp?
  {
    (op.kind.targetMethod.name == "Be" || op.kind.targetMethod.name == "NotBe") &&
    op.kind.targetMethod.containingType == assertions && |op.kind.arguments| >= 1
  }

  /** The first argument's constant, read under its implicit conversions. */
  function ExpectedConstant(op: Operation): Option<ConstantValue>
    requires op.kind.InvocationOp? && |op.kind.arguments| >= 1
  {
    StripImplicit(op.kind.arguments[0]).constant
  }

  function AnalyzeInvocation(c: Compilation, op: Operation): (d: Option<Diagnostic>)
    requires op.kind.InvocationOp?
    ensures AssertionsSymbol(c).None? ==> d.None?
    ensures d.Some? <==>
      AssertionsSymbol(c).Some? && Considered(AssertionsSymbol(c).value, op) &&
      ExpectedConstant(op).Some? && AsNullableBool(ExpectedConstant(op).value).Some?
    ensures d.Some? ==> d.value.location == op.syntax
    ensures d.Some? ==>
      var value := AsNullableBool(ExpectedConstant(op).value).value;
      d.value.id == (if op.kind.targetMethod.name == "Be" then
                       match value case NullValue => MFA012 case FalseValue => MFA009 case TrueValue => MFA008
                     else
                       match value case NullValue => MFA013 case FalseValue => MFA011 case TrueValue => MFA010)
  {
    var assertions := AssertionsSymbol(c);
    if assertions.None? then None
    else
      var m := op.kind.targetMethod;
      if m.name == "Be" && m.containingType == assertions.value && |op.kind.arguments| >= 1 then
        var constant := StripImplicit(op.kind.arguments[0]).constant;
        if constant.None? then None
        else if constant.value.NullConstant? then Some(Diagnostic(MFA012, op.syntax))
        else if constant.value == BoolConstant(false) then Some(Diagnostic(MFA009, op.syntax))
        else if constant.value == BoolConstant(true) then Some(Diagnostic(MFA008, op.syntax))
        else None
      else if m.name == "NotBe" && m.containingType == assertions.value && |op.kind.arguments| >= 1 then
        var constant := StripImplicit(op.kind.arguments[0]).constant;
        if constant.None? then None
        else if constant.value.NullConstant? then Some(Diagnostic(MFA013, op.syntax))
        else if constant.value == BoolConstant(false) then Some(Diagnostic(MFA011, op.syntax))
        else if constant.value == BoolConstant(true) then Some(Diagnostic(MFA010, op.syntax))
        else None
      else None
  }
}
