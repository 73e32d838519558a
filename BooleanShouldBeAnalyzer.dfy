/**
 * MFA004/MFA005: `b.Should().Be(true)` and `b.Should().NotBe(false)` are
 * better written `BeTrue()`; `Be(false)` and `NotBe(true)` are `BeFalse()`.
 */
module BooleanShouldBeAnalyzer {
  import opened Wrappers
  import opened Symbols
  import opened Operations
  import opened Diagnostics
  import opened AssertionMeaning

  /** BooleanAssertions<BooleanAssertions>, or None when either type is missing and the analyzer is off. */
  function AssertionsSymbol(c: Compilation): Option<TypeSymbol>
  {
    var ofT := GetTypeByMetadataName(c, "FluentAssertions.Primitives.BooleanAssertions`1");
    var plain := GetTypeByMetadataName(c, "FluentAssertions.Primitives.BooleanAssertions");
    if plain.None? || ofT.None? then None else Some(Construct(ofT.value, [plain.value]))
  }

  /** The constant `bool` argument of a `Be`/`NotBe` call on BooleanAssertions<BooleanAssertions>, if the call is one. */
  function ConsideredConstant(assertions: TypeSymbol, op: Operation): Option<bool>
    requires op.kind.InvocationOp?
  {
    var m := op.kind.targetMethod;
    if (m.name == "Be" || m.name == "NotBe") && m.containingType == assertions && |op.kind.arguments| >= 1
       && op.kind.arguments[0].constant.Some? && op.kind.arguments[0].constant.value.BoolConstant?
    then Some(op.kind.arguments[0].constant.value.boolValue)
    else None
  }

  function AnalyzeInvocation(c: Compilation, op: Operation): (d: Option<Diagnostic>)
    requires op.kind.InvocationOp?
    ensures AssertionsSymbol(c).None? ==> d.None?
    ensures d.Some? <==> AssertionsSymbol(c).Some? && ConsideredConstant(AssertionsSymbol(c).value, op).Some?
    ensures d.Some? ==> d.value.location == op.syntax && d.value.id in {MFA004, MFA005}
    ensures d.Some? ==>
      var expected := FromBool(ConsideredConstant(AssertionsSymbol(c).value, op).value);
      (d.value.id == MFA004 <==> Accepted(op.kind.targetMethod.name, Some(expected)) * PlainBools == {TrueValue})
  {
    var assertions := AssertionsSymbol(c);
    if assertions.None? then None
    else
      var constant := ConsideredConstant(assertions.value, op);
      if constant.None? then None
      else
        var name, b := op.kind.targetMethod.name, constant.value;
        if (name == "Be" && !b) || (name == "NotBe" && b) then Some(Diagnostic(MFA005, op.syntax))
        else if (name == "Be" && b) || (name == "NotBe" && !b) then Some(Diagnostic(MFA004, op.syntax))
        else None
  }
}
