/** MFA006/MFA007: `s.Should().Be("")` is `BeEmpty()`, `NotBe("")` is `NotBeEmpty()`; `string.Empty` counts as `""`. */
module StringShouldBeAnalyzer {
  import opened Wrappers
  import opened Symbols
  import opened Operations
  import opened Diagnostics

  /** The action is registered only when StringAssertions resolves. */
  predicate Registered(c: Compilation)
  {
    GetTypeByMetadataName(c, "FluentAssertions.Primitives.StringAssertions").Some?
  }

  /** StringAssertions<StringAssertions>, resolved on every call; None when either type is missing. */
  function AssertionsSymbol(c: Compilation): Option<TypeSymbol>
  {
    var ofT := GetTypeByMetadataName(c, "FluentAssertions.Primitives.StringAssertions`1");
    var plain := GetTypeByMetadataName(c, "FluentAssertions.Primitives.StringAssertions");
    if plain.None? || ofT.None? then None else Some(Construct(ofT.value, [plain.value]))
  }

  /** The constant `""`, or a reference to a member named `Empty` declared on System.String. */
  predicate IsEmptyString(value: Operation)
  {
    value.constant == Some(StringConstant("")) ||
    (value.kind.MemberReferenceOp? && value.kind.memberName == "Empty" && value.kind.memberContainingType.special == SystemString)
  }

  function AnalyzeInvocation(c: Compilation, op: Operation): (d: Option<Diagnostic>)
    requires op.kind.InvocationOp?
    ensures !Registered(c) || AssertionsSymbol(c).None? ==> d.None?
    ensures d.Some? <==>
      Registered(c) && AssertionsSymbol(c).Some? &&
      op.kind.targetMethod.name in {"Be", "NotBe"} &&
      op.kind.targetMethod.containingType == AssertionsSymbol(c).value &&
      |op.kind.arguments| >= 1 && IsEmptyString(op.kind.arguments[0])
    ensures d.Some? ==> d.value == Diagnostic(if op.kind.targetMethod.name == "Be" then MFA006 else MFA007, op.syntax)
  {
    if !Registered(c) then None
    else
      var assertions := AssertionsSymbol(c);
      if assertions.None? then None
      else
        var m := op.kind.targetMethod;
        if m.name == "Be" && m.containingType == assertions.value && |op.kind.arguments| >= 1 then
          var value := op.kind.arguments[0];
          if value.constant.Some? && value.constant.value == StringConstant("") then Some(Diagnostic(MFA006, op.syntax))
          else if value.kind.MemberReferenceOp? && value.kind.memberName == "Empty" && value.kind.memberContainingType.special == SystemString
          then Some(Diagnostic(MFA006, op.syntax))
          else None
        else if m.name == "NotBe" && m.containingType == assertions.value && |op.kind.arguments| >= 1 then
          var value := op.kind.arguments[0];
          if value.constant.Some? && value.constant.value == StringConstant("") then Some(Diagnostic(MFA007, op.syntax))
          else if value.kind.MemberReferenceOp? && value.kind.memberName == "Empty" && value.kind.memberContainingType.special == SystemString
          then Some(Diagnostic(MFA007, op.syntax))
          else None
        else None
  }

  /** A non-empty string constant is not reported. */
  lemma OtherValuesNotReported(c: Compilation, op: Operation)
    requires op.kind.InvocationOp? && |op.kind.arguments| >= 1
    requires var value := op.kind.arguments[0];
      (value.constant.Some? && value.constant.value.StringConstant? && value.constant.value.stringValue != "") &&
      (value.kind.MemberReferenceOp? ==> value.kind.memberContainingType.special != SystemString)
    ensures AnalyzeInvocation(c, op).None?
  {
  }

  /** A member named `Empty` on a type other than string, with no constant value, is not reported either. */
  lemma OtherEmptyMemberNotReported(c: Compilation, op: Operation)
    requires op.kind.InvocationOp? && |op.kind.arguments| >= 1
    requires var value := op.kind.arguments[0];
      value.constant.None? && value.kind.MemberReferenceOp? && value.kind.memberName == "Empty" &&
      value.kind.memberContainingType.special != SystemString
    ensures AnalyzeInvocation(c, op).None?
  {
  }
}
