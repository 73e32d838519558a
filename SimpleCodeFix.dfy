/**
 * The fixer shared by the simplifying analyzers: keep the receiver, rename the
 * called member and drop the first argument (`x.Should().Be(true)` becomes
 * `x.Should().BeTrue()`). Each provider contributes the ids it fixes and the
 * new member name.
 */
module SimpleCodeFix {
  import opened Wrappers
  import opened Syntax
  import opened Operations
  import opened Diagnostics
  import opened CodeFixes
  import opened AssertionMeaning
  import BooleanShouldBeAnalyzer
  import NullableBooleanShouldBeAnalyzer
  import StringShouldBeAnalyzer

  datatype FixProvider = FixProvider(fixableIds: set<DiagnosticId>, newMethodName: string)

  /** Every provider doing this rewrite, the two standalone ones last. */
  const Providers: seq<FixProvider> := [
    FixProvider({MFA006}, "BeEmpty"),            // ShouldBeEmptyCodeFixProvider
    FixProvider({MFA005, MFA009}, "BeFalse"),    // ShouldBeFalseCodeFixProvider
    FixProvider({MFA004, MFA008}, "BeTrue"),     // ShouldBeTrueCodeFixProvider
    FixProvider({MFA013}, "HaveValue"),          // ShouldHaveValueCodeFixProvider
    FixProvider({MFA007}, "NotBeEmpty"),         // ShouldNotBeEmptyCodeFixProvider
    FixProvider({MFA011}, "NotBeFalse"),         // ShouldNotBeFalseCodeFixProvider
    FixProvider({MFA012}, "NotHaveValue"),       // ShouldNotHaveValueCodeFixProvider
    FixProvider({MFA007}, "NotBeEmpty"),         // StringShouldNotBeEmptyCodeFixProvider
    FixProvider({MFA004}, "BeTrue")              // BooleanShouldBeTrueCodeFixProvider
  ]

  /** The new member name of the first provider, from index `k` on, that fixes `id`. */
  function FirstNameFrom(k: nat, id: DiagnosticId): Option<string>
    requires k <= |Providers|
    decreases |Providers| - k
  {
    if k == |Providers| then None
    else if id in Providers[k].fixableIds then Some(Providers[k].newMethodName)
    else FirstNameFrom(k + 1, id)
  }

  /** The member a diagnostic is fixed to; None when no provider fixes it. */
  function NewMethodName(id: DiagnosticId): Option<string>
  {
    FirstNameFrom(0, id)
  }

  /** The providers' table; every provider fixing an id, the standalone ones included, renames to the same member. */
  lemma ProvidersTable()
    ensures NewMethodName(MFA004) == Some("BeTrue") && NewMethodName(MFA008) == Some("BeTrue")
    ensures NewMethodName(MFA005) == Some("BeFalse") && NewMethodName(MFA009) == Some("BeFalse")
    ensures NewMethodName(MFA006) == Some("BeEmpty") && NewMethodName(MFA007) == Some("NotBeEmpty")
    ensures NewMethodName(MFA011) == Some("NotBeFalse")
    ensures NewMethodName(MFA012) == Some("NotHaveValue") && NewMethodName(MFA013) == Some("HaveValue")
    ensures NewMethodName(MFA010) == None
    ensures forall id, k :: 0 <= k < |Providers| && id in Providers[k].fixableIds ==>
      NewMethodName(id) == Some(Providers[k].newMethodName)
  {
    forall id, k | 0 <= k < |Providers| && id in Providers[k].fixableIds
      ensures NewMethodName(id) == Some(Providers[k].newMethodName)
    {
      if k == 0 { assert id == MFA006; }
      else if k == 1 { assert id in {MFA005, MFA009}; }
      else if k == 2 { assert id in {MFA004, MFA008}; }
      else if k == 3 { assert id == MFA013; }
      else if k == 4 { assert id == MFA007; }
      else if k == 5 { assert id == MFA011; }
      else if k == 6 { assert id == MFA012; }
      else if k == 7 { assert id == MFA007; }
      else { assert k == 8 && id == MFA004; }
    }
  }

  /**
   * The rewrite: the node must be an invocation of a member access (otherwise
   * the casts throw) with at least one argument (otherwise RemoveAt(0) throws).
   */
  function Rewrite(node: Expr, newMethodName: string): (f: Fix)
    ensures f.Replace? <==> node.Invocation? && node.callee.MemberAccess? && |node.arguments| >= 1
    ensures !f.Replace? ==> f == Fault
    ensures f.Replace? ==>
      f.replacement.NewExpression? &&
      var call := f.replacement.expression;
      call.Invocation? && call.callee.MemberAccess? &&
      call.callee.receiver == node.callee.receiver &&
      call.callee.member == newMethodName && call.callee.typeArgument.None? &&
      [node.arguments[0]] + call.arguments == node.arguments
  {
    if node.Invocation? && node.callee.MemberAccess? && |node.arguments| >= 1 then
      Replace(NewExpression(Invocation(MemberAccess(node.callee.receiver, newMethodName, None), node.arguments[1..])))
    else Fault
  }

  /** RegisterCodeFixesAsync: no fix is offered when no node is found at the diagnostic's span. */
  function CodeFix(nodeAtSpan: Option<Expr>, provider: FixProvider): (f: Option<Fix>)
    ensures f.None? <==> nodeAtSpan.None?
    ensures f.Some? ==> f.value == Rewrite(nodeAtSpan.value, provider.newMethodName)
  {
    if nodeAtSpan.None? then None else Some(Rewrite(nodeAtSpan.value, provider.newMethodName))
  }

  // ---------------------------------------------------------------------
  // Analyzer and fix together

  /** A call `receiver.name<T>(argument)` written as its syntax says. */
  predicate WrittenAsCall(op: Operation, receiver: Expr, typeArgument: Option<Symbols.TypeSymbol>, argument: Argument)
    requires op.kind.InvocationOp?
  {
    op.syntax == Invocation(MemberAccess(receiver, op.kind.targetMethod.name, typeArgument), [argument])
  }

  /** `Be(true)`, `NotBe(false)`, `Be(false)` and `NotBe(true)` on a bool become a call that accepts the same values. */
  lemma BooleanFixKeepsMeaning(c: Symbols.Compilation, op: Operation, receiver: Expr, typeArgument: Option<Symbols.TypeSymbol>, argument: Argument)
    requires op.kind.InvocationOp? && WrittenAsCall(op, receiver, typeArgument, argument)
    requires BooleanShouldBeAnalyzer.AnalyzeInvocation(c, op).Some?
    ensures var d := BooleanShouldBeAnalyzer.AnalyzeInvocation(c, op).value;
            var name := NewMethodName(d.id);
            var b := op.kind.arguments[0].constant.value.boolValue;
            name.Some? &&
            Rewrite(d.location, name.value) == Replace(NewExpression(Invocation(MemberAccess(receiver, name.value, None), []))) &&
            Accepted(name.value, None) * PlainBools == Accepted(op.kind.targetMethod.name, Some(FromBool(b))) * PlainBools
  {
    ProvidersTable();
  }

  /**
   * On a bool?: `Be(null)` becomes `NotHaveValue()`, `NotBe(null)` `HaveValue()`,
   * and so on, each accepting the same values; only `NotBe(true)` (MFA010) has no fix.
   */
  lemma NullableBooleanFixKeepsMeaning(c: Symbols.Compilation, op: Operation, receiver: Expr, typeArgument: Option<Symbols.TypeSymbol>, argument: Argument)
    requires op.kind.InvocationOp? && WrittenAsCall(op, receiver, typeArgument, argument)
    requires NullableBooleanShouldBeAnalyzer.AnalyzeInvocation(c, op).Some?
    ensures var d := NullableBooleanShouldBeAnalyzer.AnalyzeInvocation(c, op).value;
            var name := NewMethodName(d.id);
            var expected := AsNullableBool(NullableBooleanShouldBeAnalyzer.ExpectedConstant(op).value);
            (d.id == MFA010 <==> name.None?) &&
            (name.Some? ==>
              Rewrite(d.location, name.value) == Replace(NewExpression(Invocation(MemberAccess(receiver, name.value, None), []))) &&
              Accepted(name.value, None) == Accepted(op.kind.targetMethod.name, expected))
  {
    ProvidersTable();
  }

  /** `Be("")`/`Be(string.Empty)` become `BeEmpty()` and `NotBe(..)` `NotBeEmpty()`, accepting the same strings. */
  lemma StringFixKeepsMeaning(c: Symbols.Compilation, op: Operation, receiver: Expr, typeArgument: Option<Symbols.TypeSymbol>, argument: Argument, s: string)
    requires op.kind.InvocationOp? && WrittenAsCall(op, receiver, typeArgument, argument)
    requires StringShouldBeAnalyzer.AnalyzeInvocation(c, op).Some?
    ensures var d := StringShouldBeAnalyzer.AnalyzeInvocation(c, op).value;
            var name := NewMethodName(d.id);
            name.Some? &&
            Rewrite(d.location, name.value) == Replace(NewExpression(Invocation(MemberAccess(receiver, name.value, None), []))) &&
            (AcceptsString(name.value, None, s) <==> AcceptsString(op.kind.targetMethod.name, Some(""), s))
  {
    ProvidersTable();
  }
}
