/** MFA014: asserting on a compile-time constant (`1.Should().Be(1)`) checks nothing about the code under test. */
module DoNotValidateConstantValueAnalyzer {
  import opened Wrappers
  import opened Symbols
  import opened Operations
  import opened Diagnostics
  import opened Extensions

  function AnalyzeInvocation(c: Compilation, op: Operation): (d: Option<Diagnostic>)
    requires op.kind.InvocationOp?
    ensures GetTypeByMetadataName(c, "FluentAssertions.AssertionExtensions").None? ==> d.None?
    ensures d.Some? <==>
      op.kind.targetMethod.name == "Should" && |op.kind.arguments| >= 1 &&
      Some(op.kind.targetMethod.containingType) == GetTypeByMetadataName(c, "FluentAssertions.AssertionExtensions") &&
      StripImplicit(op.kind.arguments[0]).constant.Some?
    ensures d.Some? ==> d.value == Diagnostic(MFA014, op.kind.arguments[0].syntax)
  {
    var assertionExtensions := GetTypeByMetadataName(c, "FluentAssertions.AssertionExtensions");
    if assertionExtensions.None? then None
    else
      var m := op.kind.targetMethod;
      if m.name == "Should" && |op.kind.arguments| >= 1 && m.containingType == assertionExtensions.value then
        var constant := StripImplicit(op.kind.arguments[0]).constant;
        if constant.None? then None else Some(Diagnostic(MFA014, op.kind.arguments[0].syntax))
      else None
  }
}
