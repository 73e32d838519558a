/**
 * The NUnit code fix (MFA003): rewrites a call on `Assert`, `StringAssert` or
 * `CollectionAssert` into a FluentAssertions chain. A two-operand call
 * `M(arg1, arg2, rest...)` becomes `arg2.Should().M'(arg1, rest...)` whatever
 * the roles NUnit gives the two operands; a few rules inject a
 * literal expected value, the exception assertions go through
 * `FluentActions.Invoking`, and `Assert.That` reads the constraint chain with
 * the matchers of NunitChains. The first rule that applies wins; a call no
 * rule handles leaves the document as it was.
 */
module NunitCodeFix {
  import opened Wrappers
  import opened Symbols
  import opened Syntax
  import opened Operations
  import opened Extensions
  import opened CodeFixes
  import opened NunitChains

  const AssertClass := "NUnit.Framework.Assert"
  const StringAssertClass := "NUnit.Framework.StringAssert"
  const CollectionAssertClass := "NUnit.Framework.CollectionAssert"
  const FluentActionsClass := "FluentAssertions.FluentActions"
  /** The comparer type the CollectionAssert guards look up, spelt as in the fix (the real type is System.Collections.IComparer). */
  const GuardComparerName := "System.Collection.IComparer"

  /** The rewritten node and whether `using FluentAssertions;` is to be added. */
  datatype Rewritten = Rewritten(fix: Fix, addImports: bool)

  // ---------------------------------------------------------------------
  // Building blocks

  /** RewriteUsingShould(subject, methodName, typeArgument, arguments): every argument is re-created without its label. */
  function Fluent(subject: Expr, methodName: string, typeArgument: Option<TypeSymbol>, arguments: seq<Argument>): (f: Fix)
    ensures f.Replace? && f.replacement.NewExpression?
    ensures AsAssertion(f.replacement.expression) == Some(Assertion(subject, methodName, typeArgument, Unlabelled(arguments)))
    ensures IsFluentCall(f, subject, methodName, typeArgument, Expressions(arguments))
    ensures FluentOutcome(f)
  {
    FluentCall(subject, methodName, typeArgument, Expressions(arguments))
  }

  /** `arguments[1].Should().M(arguments[0], arguments[2..])`; fewer than two arguments makes the indexer throw. */
  function Swapped(args: seq<Argument>, methodName: string): (f: Fix)
    ensures f.Fault? <==> |args| < 2
    ensures |args| >= 2 ==> IsFluentCall(f, args[1].expression, methodName, None, [args[0].expression] + Expressions(args[2..]))
    ensures FluentOutcome(f)
  {
    if |args| < 2 then Fault
    else
      ExpressionsCons(Argument(None, args[0].expression), args[2..]);
      Fluent(args[1].expression, methodName, None, [Argument(None, args[0].expression)] + args[2..])
  }

  /** `arguments[0].Should().M<T>(arguments[1..])` */
  function OnFirst(args: seq<Argument>, methodName: string, typeArgument: Option<TypeSymbol>): (f: Fix)
    ensures f.Fault? <==> |args| < 1
    ensures |args| >= 1 ==> IsFluentCall(f, args[0].expression, methodName, typeArgument, Expressions(args[1..]))
    ensures FluentOutcome(f)
  {
    if |args| < 1 then Fault else Fluent(args[0].expression, methodName, typeArgument, args[1..])
  }

  /** `arguments[0].Should().M(expected, arguments[1..])` for an expected value the fix writes itself. */
  function WithExpected(args: seq<Argument>, methodName: string, expected: Expr): (f: Fix)
    ensures f.Fault? <==> |args| < 1
    ensures |args| >= 1 ==> IsFluentCall(f, args[0].expression, methodName, None, [expected] + Expressions(args[1..]))
    ensures FluentOutcome(f)
  {
    if |args| < 1 then Fault
    else
      ExpressionsCons(Argument(None, expected), args[1..]);
      Fluent(args[0].expression, methodName, None, [Argument(None, expected)] + args[1..])
  }

  /** `arguments[0].Should().M(arguments[1], arguments[2..])`: the CollectionAssert rules whose subject comes first. */
  function InOrder(args: seq<Argument>, methodName: string): (f: Fix)
    ensures f.Fault? <==> |args| < 2
    ensures |args| >= 2 ==> IsFluentCall(f, args[0].expression, methodName, None, [args[1].expression] + Expressions(args[2..]))
    ensures FluentOutcome(f)
  {
    if |args| < 2 then Fault
    else
      ExpressionsCons(Argument(None, args[1].expression), args[2..]);
      Fluent(args[0].expression, methodName, None, [Argument(None, args[1].expression)] + args[2..])
  }

  /** `FluentActions.Invoking(action)`; None when FluentActions does not resolve (TypeExpression(null) throws). */
  function InvokeFluentActionsInvoking(c: Compilation, action: Expr): (e: Option<Expr>)
    ensures e.Some? <==> GetTypeByMetadataName(c, FluentActionsClass).Some?
  {
    var fluentActions := GetTypeByMetadataName(c, FluentActionsClass);
    if fluentActions.None? then None
    else Some(Invocation(MemberAccess(TypeName(fluentActions.value), "Invoking", None), [Argument(None, action)]))
  }

  /** `FluentActions.Invoking(action).Should().M<exception>(rest)`; a missing FluentActions or exception type throws. */
  function ThrowFix(c: Compilation, action: Expr, methodName: string, exception: Option<TypeSymbol>, rest: seq<Argument>): (f: Fix)
    ensures f.Fault? <==> GetTypeByMetadataName(c, FluentActionsClass).None? || exception.None?
    ensures !f.Fault? ==> IsFluentCall(f, InvokeFluentActionsInvoking(c, action).value, methodName, exception, Expressions(rest))
    ensures FluentOutcome(f)
  {
    var invoking := InvokeFluentActionsInvoking(c, action);
    if invoking.None? || exception.None? then Fault
    else Fluent(invoking.value, methodName, exception, rest)
  }

  /** GetConstantTypeValue: the operand of a `typeof` expression, else null. */
  function GetConstantTypeValue(model: SemanticModel, e: Expr): (t: Option<TypeSymbol>)
    ensures t.Some? <==> GetOperation(model, e).Some? && GetOperation(model, e).value.kind.TypeOfOp?
  {
    var op := GetOperation(model, e);
    if op.Some? && op.value.kind.TypeOfOp? then Some(op.value.kind.typeOperand) else None
  }

  // ---------------------------------------------------------------------
  // Assert

  predicate IsAsyncName(s: string)
  {
    |s| >= 5 && s[|s| - 5..] == "Async"
  }

  /**
   * The FluentAssertions method for each NUnit exception assertion: an
   * assertion that accepts derived exceptions (Catch) becomes a Throw, one
   * that demands the exact type (Throws) a ThrowExactly, and the Async forms
   * stay Async.
   */
  function ExceptionMethod(name: string): (r: Option<string>)
    ensures r.Some? <==> name in {"Catch", "CatchAsync", "Throws", "ThrowsAsync"}
  {
    if name == "Catch" then Some("Throw")
    else if name == "CatchAsync" then Some("ThrowAsync")
    else if name == "Throws" then Some("ThrowExactly")
    else if name == "ThrowsAsync" then Some("ThrowExactlyAsync")
    else None
  }

  /** Every exception assertion maps to a Throw method; exactly the Throws forms demand the exact type, and Async stays Async. */
  lemma ExceptionMethodNames(name: string)
    requires ExceptionMethod(name).Some?
    ensures var r := ExceptionMethod(name).value;
            "Throw" <= r && ("Throws" <= name <==> "ThrowExactly" <= r) && (IsAsyncName(name) <==> IsAsyncName(r))
  {
    if name == "Catch" {
      CatchNames();
    } else if name == "CatchAsync" {
      CatchAsyncNames();
    } else if name == "Throws" {
      ThrowsNames();
    } else {
      ThrowsAsyncNames();
    }
  }

  lemma CatchNames()
    ensures ExceptionMethod("Catch") == Some("Throw")
    ensures !("Throws" <= "Catch") && !("ThrowExactly" <= "Throw") && !IsAsyncName("Catch") && !IsAsyncName("Throw")
  {
    assert "Catch"[0] != "Throws"[0] && "Catch"[0] != "Async"[0];
  }

  lemma CatchAsyncNames()
    ensures ExceptionMethod("CatchAsync") == Some("ThrowAsync")
    ensures !("Throws" <= "CatchAsync") && !("ThrowExactly" <= "ThrowAsync") && IsAsyncName("CatchAsync") && IsAsyncName("ThrowAsync")
  {
    assert "CatchAsync"[0] != "Throws"[0] && "ThrowAsync"[5] != "ThrowExactly"[5];
    assert "CatchAsync"[5..] == "ThrowAsync"[5..] == "Async";
  }

  lemma ThrowsNames()
    ensures ExceptionMethod("Throws") == Some("ThrowExactly")
    ensures "Throws" <= "Throws" && "ThrowExactly" <= "ThrowExactly" && !IsAsyncName("Throws") && !IsAsyncName("ThrowExactly")
  {
    assert "Throws"[1] != "Async"[1] && "ThrowExactly"[7] != "Async"[0];
  }

  lemma ThrowsAsyncNames()
    ensures ExceptionMethod("ThrowsAsync") == Some("ThrowExactlyAsync")
    ensures "Throws" <= "ThrowsAsync" && "ThrowExactly" <= "ThrowExactlyAsync" && IsAsyncName("ThrowsAsync") && IsAsyncName("ThrowExactlyAsync")
  {
    assert "ThrowsAsync"[6..] == "ThrowExactlyAsync"[12..] == "Async";
  }

  /**
   * Catch/CatchAsync/Throws/ThrowsAsync. The exception type is the type
   * argument of the generic form, System.Exception for the delegate-only form,
   * and the `typeof` operand for the form taking a System.Type first (which
   * leaves the document unchanged when that argument is not a `typeof`).
   */
  function ExceptionFix(c: Compilation, model: SemanticModel, m: MethodSymbol, args: seq<Argument>, methodName: string): (f: Fix)
    ensures FluentOutcome(f)
  {
    if |m.typeArguments| == 1 then
      if |args| < 1 then Fault else ThrowFix(c, args[0].expression, methodName, Some(m.typeArguments[0]), args[1..])
    else if |m.typeArguments| != 0 then NoChange
    else if |m.parameters| == 0 then Fault
    else if Some(m.parameters[0].paramType) != GetTypeByMetadataName(c, "System.Type") then
      if |args| < 1 then Fault
      else ThrowFix(c, args[0].expression, methodName, GetTypeByMetadataName(c, "System.Exception"), args[1..])
    else if |args| < 1 then Fault
    else
      var exceptionType := GetConstantTypeValue(model, args[0].expression);
      if exceptionType.None? then NoChange
      else if |args| < 2 then Fault
      else ThrowFix(c, args[1].expression, methodName, exceptionType, args[2..])
  }

  /** DoesNotThrow/DoesNotThrowAsync: `FluentActions.Invoking(arguments[0]).Should().M(arguments[1..])`. */
  function NoThrowFix(c: Compilation, args: seq<Argument>, methodName: string): (f: Fix)
    ensures f.Fault? <==> |args| < 1 || GetTypeByMetadataName(c, FluentActionsClass).None?
    ensures !f.Fault? ==> IsFluentCall(f, InvokeFluentActionsInvoking(c, args[0].expression).value, methodName, None, Expressions(args[1..]))
    ensures FluentOutcome(f)
  {
    if |args| < 1 then Fault
    else
      var invoking := InvokeFluentActionsInvoking(c, args[0].expression);
      if invoking.None? then Fault else Fluent(invoking.value, methodName, None, args[1..])
  }

  /** `arguments[0].Should().M(expected, arguments[2..])` with the expected value a chain matcher extracted (null throws). */
  function ExtractedFix(args: seq<Argument>, methodName: string, m: ChainMatch): (f: Fix)
    requires |args| >= 2
    ensures f.Fault? <==> !(m.Match? && m.extracted.Some? && m.extracted.value.ExtractedSyntax?)
    ensures !f.Fault? ==> IsFluentCall(f, args[0].expression, methodName, None, [m.extracted.value.syntax] + Expressions(args[2..]))
    ensures FluentOutcome(f)
  {
    if m.Match? && m.extracted.Some? && m.extracted.value.ExtractedSyntax? then
      ExpressionsCons(Argument(None, m.extracted.value.syntax), args[2..]);
      Fluent(args[0].expression, methodName, None, [Argument(None, m.extracted.value.syntax)] + args[2..])
    else Fault
  }

  /** `IsMethod(out e, root, a) || IsMethod(out e, root, b)`: the second chain is tried only when the first fails. */
  function Either(first: ChainMatch, second: ChainMatch): ChainMatch
  {
    if first.Match? then first else second
  }

  function MethodMatch(op: Operation, root: Option<TypeSymbol>, names: seq<string>): ChainMatch
  {
    Chain(Some(op), root, names, ArgumentSyntax, None)
  }

  function GenericMatch(op: Operation, root: Option<TypeSymbol>, names: seq<string>): ChainMatch
  {
    Chain(Some(op), root, names, FirstTypeArgument, None)
  }

  /** The constraint forms of `Assert.That(actual, constraint, ...)`; `op` is the constraint with implicit conversions removed. */
  function ConstraintFix(c: Compilation, model: SemanticModel, subjectType: TypeSymbol, args: seq<Argument>, op: Operation): (f: Fix)
    requires |args| >= 2
    ensures FluentOutcome(f)
  {
    var isClass := GetTypeByMetadataName(c, "NUnit.Framework.Is");
    var boolean := subjectType.special == SystemBoolean;
    var nullableBoolean := subjectType == NullableBoolean(c);
    var subject := args[0].expression;
    if boolean && ChainIs(op, isClass, ["True"]) then Fluent(subject, "BeTrue", None, [])
    else if boolean && ChainIs(op, isClass, ["False"]) then Fluent(subject, "BeFalse", None, [])
    else if boolean && ChainIs(op, isClass, ["Not", "True"]) then Fluent(subject, "BeFalse", None, [])
    else if boolean && ChainIs(op, isClass, ["Not", "False"]) then Fluent(subject, "BeTrue", None, [])
    else if nullableBoolean && ChainIs(op, isClass, ["True"]) then Fluent(subject, "BeTrue", None, [])
    else if nullableBoolean && ChainIs(op, isClass, ["False"]) then Fluent(subject, "BeFalse", None, [])
    else if nullableBoolean && ChainIs(op, isClass, ["Not", "True"]) then Fluent(subject, "NotBeTrue", None, [])
    else if nullableBoolean && ChainIs(op, isClass, ["Not", "False"]) then Fluent(subject, "NotBeFalse", None, [])
    else ConstraintMemberFix(c, model, args, op)
  }

  /** ConstraintFix continued: the other constraints read as a chain of members (`Is.Empty`, `Has.One.Items`, ...). */
  function ConstraintMemberFix(c: Compilation, model: SemanticModel, args: seq<Argument>, op: Operation): (f: Fix)
    requires |args| >= 2
    ensures FluentOutcome(f)
  {
    var isClass := GetTypeByMetadataName(c, "NUnit.Framework.Is");
    var hasClass := GetTypeByMetadataName(c, "NUnit.Framework.Has");
    var subject := args[0].expression;
    var rest := args[2..];
    if ChainIs(op, isClass, ["Empty"]) then Fluent(subject, "BeEmpty", None, rest)
    else if ChainIs(op, isClass, ["Not", "Empty"]) then Fluent(subject, "NotBeEmpty", None, rest)
    else if ChainIs(op, isClass, ["Null"]) then Fluent(subject, "BeNull", None, rest)
    else if ChainIs(op, isClass, ["Not", "Null"]) then Fluent(subject, "NotBeNull", None, rest)
    else if ChainIs(op, isClass, ["Null", "Or", "Empty"]) || ChainIs(op, isClass, ["Empty", "Or", "Null"]) then
      Fluent(subject, "BeNullOrEmpty", None, rest)
    else if ChainIs(op, isClass, ["Not", "Null", "Or", "Empty"]) || ChainIs(op, isClass, ["Not", "Empty", "Or", "Null"]) then
      Fluent(subject, "NotBeNullOrEmpty", None, rest)
    else if ChainIs(op, hasClass, ["One", "Items"]) then Fluent(subject, "HaveCount", None, [Argument(None, NumericLiteral(1))] + rest)
    else if ChainIs(op, hasClass, ["Count", "Zero"]) || ChainIs(op, hasClass, ["Length", "Zero"]) then Fluent(subject, "BeEmpty", None, rest)
    else ConstraintMethodFix(c, model, args, op)
  }

  /** ConstraintFix continued: the constraints built by a method call (`Is.EqualTo(x)`, `Does.Contain(x)`, ...). */
  function ConstraintMethodFix(c: Compilation, model: SemanticModel, args: seq<Argument>, op: Operation): (f: Fix)
    requires |args| >= 2
    ensures FluentOutcome(f)
  {
    var isClass := GetTypeByMetadataName(c, "NUnit.Framework.Is");
    var hasClass := GetTypeByMetadataName(c, "NUnit.Framework.Has");
    var doesClass := GetTypeByMetadataName(c, "NUnit.Framework.Does");
    var containsClass := GetTypeByMetadataName(c, "NUnit.Framework.Contains");
    var throwsClass := GetTypeByMetadataName(c, "NUnit.Framework.Throws");
    var subject := args[0].expression;
    var rest := args[2..];
    if MethodMatch(op, isClass, ["EqualTo"]).Match? then ExtractedFix(args, "Be", MethodMatch(op, isClass, ["EqualTo"]))
    else if MethodMatch(op, isClass, ["Not", "EqualTo"]).Match? then ExtractedFix(args, "NotBe", MethodMatch(op, isClass, ["Not", "EqualTo"]))
    else if Either(MethodMatch(op, hasClass, ["Count", "EqualTo"]), MethodMatch(op, hasClass, ["Length", "EqualTo"])).Match? then
      ExtractedFix(args, "HaveCount", Either(MethodMatch(op, hasClass, ["Count", "EqualTo"]), MethodMatch(op, hasClass, ["Length", "EqualTo"])))
    else if MethodMatch(op, hasClass, ["Exactly", "Items"]).Match? then ExtractedFix(args, "HaveCount", MethodMatch(op, hasClass, ["Exactly", "Items"]))
    else if MethodMatch(op, containsClass, ["Substring"]).Match? then ExtractedFix(args, "Contain", MethodMatch(op, containsClass, ["Substring"]))
    else if MethodMatch(op, doesClass, ["Contain"]).Match? then ExtractedFix(args, "Contain", MethodMatch(op, doesClass, ["Contain"]))
    else if MethodMatch(op, doesClass, ["Not", "Contain"]).Match? then ExtractedFix(args, "NotContain", MethodMatch(op, doesClass, ["Not", "Contain"]))
    else if MethodMatch(op, doesClass, ["EndWith"]).Match? then ExtractedFix(args, "EndWith", MethodMatch(op, doesClass, ["EndWith"]))
    else if Either(MethodMatch(op, doesClass, ["Not", "EndWith"]), MethodMatch(op, doesClass, ["Not", "EndsWith"])).Match? then
      ExtractedFix(args, "NotEndWith", Either(MethodMatch(op, doesClass, ["Not", "EndWith"]), MethodMatch(op, doesClass, ["Not", "EndsWith"])))
    else if MethodMatch(op, doesClass, ["StartWith"]).Match? then ExtractedFix(args, "StartWith", MethodMatch(op, doesClass, ["StartWith"]))
    else if Either(MethodMatch(op, doesClass, ["Not", "StartWith"]), MethodMatch(op, doesClass, ["Not", "StartsWith"])).Match? then
      ExtractedFix(args, "NotStartWith", Either(MethodMatch(op, doesClass, ["Not", "StartWith"]), MethodMatch(op, doesClass, ["Not", "StartsWith"])))
    else if MethodMatch(op, isClass, ["InstanceOf"]).Match? then ExtractedFix(args, "BeOfType", MethodMatch(op, isClass, ["InstanceOf"]))
    else if GenericMatch(op, isClass, ["InstanceOf"]).Match? then
      var t := GenericMatch(op, isClass, ["InstanceOf"]).extracted;
      if t.Some? && t.value.ExtractedType? then Fluent(subject, "BeOfType", Some(t.value.typeArgument), rest) else Fault
    else if MethodMatch(op, throwsClass, ["InstanceOf"]) == Match(None) then Fault
    else if ThrowsInstanceOfTypeof(model, op, throwsClass) then
      var expected := MethodMatch(op, throwsClass, ["InstanceOf"]).extracted.value.syntax;
      ThrowFix(c, subject, "Throw", Some(GetOperation(model, expected).value.kind.typeOperand), rest)
    else if GenericMatch(op, throwsClass, ["InstanceOf"]).Match? then
      var t := GenericMatch(op, throwsClass, ["InstanceOf"]).extracted;
      if t.Some? && t.value.ExtractedType? then ThrowFix(c, subject, "Throw", Some(t.value.typeArgument), rest) else Fault
    else NoChange
  }

  /**
   * `IsMethod(out expected, Throws, "InstanceOf") && GetOperation(expected) is ITypeOfOperation`
   * for a match that extracted an argument (one that extracted nothing passes
   * null to GetOperation, which throws).
   */
  function ThrowsInstanceOfTypeof(model: SemanticModel, op: Operation, throws: Option<TypeSymbol>): (r: bool)
    ensures r <==> var m := MethodMatch(op, throws, ["InstanceOf"]);
                   m.Match? && m.extracted.Some? && m.extracted.value.ExtractedSyntax? &&
                   GetConstantTypeValue(model, m.extracted.value.syntax).Some?
  {
    var m := MethodMatch(op, throws, ["InstanceOf"]);
    m.Match? && m.extracted.Some? && m.extracted.value.ExtractedSyntax? &&
    var e := GetOperation(model, m.extracted.value.syntax);
    e.Some? && e.value.kind.TypeOfOp?
  }

  /** Assert.That: a bare condition (optionally with a message) becomes BeTrue; a constraint is read by ConstraintFix. */
  function ThatFix(c: Compilation, model: SemanticModel, m: MethodSymbol, args: seq<Argument>): (f: Fix)
    ensures FluentOutcome(f)
  {
    var ps := m.parameters;
    if |ps| == 1 || (|ps| >= 2 && Some(ps[1].paramType) == GetTypeByMetadataName(c, "System.String")) then
      OnFirst(args, "BeTrue", None)
    else if |ps| >= 2 && Some(ps[1].paramType) == GetTypeByMetadataName(c, "NUnit.Framework.Constraints.IResolveConstraint") then
      if |args| < 2 then Fault
      else
        var op := GetOperation(model, args[1].expression);
        if op.None? then NoChange
        else ConstraintFix(c, model, ps[0].paramType, args, StripImplicit(op.value))
    else NoChange
  }

  /** The Assert methods AssertRule reads before it hands over to AssertValueRule. */
  predicate IsComparisonRuleName(name: string)
  {
    name == "AreEqual" || name == "AreNotEqual" || name == "AreSame" || name == "AreNotSame" || name == "IsEmpty" ||
    name == "IsNotEmpty" || name == "IsInstanceOf" || name == "IsNotInstanceOf" || name == "IsNaN"
  }

  /** The Assert methods AssertValueRule reads before it hands over to AssertActionRule. */
  predicate IsValueRuleName(name: string)
  {
    name == "False" || name == "IsFalse" || name == "Greater" || name == "GreaterOrEqual" || name == "Less" ||
    name == "LessOrEqual" || name == "Negative" || name == "Null" || name == "IsNull" || name == "NotNull" ||
    name == "IsNotNull" || name == "NotZero" || name == "Positive" || name == "True" || name == "IsTrue" || name == "Zero"
  }

  /** The Assert methods AssertActionRule reads. */
  predicate IsActionRuleName(name: string)
  {
    ExceptionMethod(name).Some? || name == "DoesNotThrow" || name == "DoesNotThrowAsync" || name == "That"
  }

  /** The rules for `NUnit.Framework.Assert` other than Pass, in their order (continued in AssertValueRule and AssertActionRule). */
  function AssertRule(c: Compilation, model: SemanticModel, m: MethodSymbol, args: seq<Argument>): (f: Fix)
    ensures FluentOutcome(f)
  {
    var name := m.name;
    var ps := m.parameters;
    if name == "AreEqual" then
      if |ps| == 0 then Fault
      else if ps[0].paramType.special == SystemDouble then Swapped(args, "BeApproximately")
      else Swapped(args, "Be")
    else if name == "AreNotEqual" then Swapped(args, "NotBe")
    else if name == "AreSame" then Swapped(args, "BeSameAs")
    else if name == "AreNotSame" then Swapped(args, "NotBeSameAs")
    else if name == "IsEmpty" then (if |ps| == 0 then Fault else OnFirst(args, "BeEmpty", None))
    else if name == "IsNotEmpty" then (if |ps| == 0 then Fault else OnFirst(args, "NotBeEmpty", None))
    else if name == "IsInstanceOf" then
      if |m.typeArguments| == 0 then Swapped(args, "BeOfType")
      else if |m.typeArguments| == 1 then OnFirst(args, "BeOfType", Some(m.typeArguments[0]))
      else NoChange
    else if name == "IsNotInstanceOf" then
      if |m.typeArguments| == 0 then Swapped(args, "NotBeOfType")
      else if |m.typeArguments| == 1 then OnFirst(args, "NotBeOfType", Some(m.typeArguments[0]))
      else NoChange
    else if name == "IsNaN" then WithExpected(args, "Be", MemberAccess(PredefinedType("double"), "NaN", None))
    else AssertValueRule(c, model, m, args)
  }

  /** AssertRule continued: the rules on one value, from False to Zero. */
  function AssertValueRule(c: Compilation, model: SemanticModel, m: MethodSymbol, args: seq<Argument>): (f: Fix)
    ensures FluentOutcome(f)
  {
    var name := m.name;
    if name == "False" || name == "IsFalse" then OnFirst(args, "BeFalse", None)
    else if name == "Greater" then Swapped(args, "BeGreaterThan")
    else if name == "GreaterOrEqual" then Swapped(args, "BeGreaterThanOrEqualTo")
    else if name == "Less" then Swapped(args, "BeLessThan")
    else if name == "LessOrEqual" then Swapped(args, "BeLessThanOrEqualTo")
    else if name == "Negative" then OnFirst(args, "BeNegative", None)
    else if name == "Null" || name == "IsNull" then OnFirst(args, "BeNull", None)
    else if name == "NotNull" || name == "IsNotNull" then OnFirst(args, "NotBeNull", None)
    else if name == "NotZero" then WithExpected(args, "NotBe", NumericLiteral(0))
    else if name == "Positive" then OnFirst(args, "BePositive", None)
    else if name == "True" || name == "IsTrue" then OnFirst(args, "BeTrue", None)
    else if name == "Zero" then WithExpected(args, "Be", NumericLiteral(0))
    else AssertActionRule(c, model, m, args)
  }

  /** AssertRule continued: the rules on a delegate, then Assert.That. */
  function AssertActionRule(c: Compilation, model: SemanticModel, m: MethodSymbol, args: seq<Argument>): (f: Fix)
    ensures FluentOutcome(f)
  {
    var name := m.name;
    if ExceptionMethod(name).Some? then ExceptionFix(c, model, m, args, ExceptionMethod(name).value)
    else if name == "DoesNotThrow" then NoThrowFix(c, args, "NotThrow")
    else if name == "DoesNotThrowAsync" then NoThrowFix(c, args, "NotThrowAsync")
    else if name == "That" then ThatFix(c, model, m, args)
    else NoChange
  }

  /**
   * `Assert.Pass()` with no argument, as a statement, becomes `return;` and
   * adds no using; in any other position it is left alone. Every other Assert
   * method goes through AssertRule.
   */
  function AssertFix(c: Compilation, model: SemanticModel, m: MethodSymbol, args: seq<Argument>, parentIsExpressionStatement: bool): (r: Rewritten)
    ensures !r.addImports <==> r.fix == Replace(ReturnStatement)
    ensures r.addImports ==> FluentOutcome(r.fix)
  {
    if m.name == "Pass" then
      if |args| == 0 && parentIsExpressionStatement then Rewritten(Replace(ReturnStatement), false)
      else Rewritten(NoChange, true)
    else Rewritten(AssertRule(c, model, m, args), true)
  }

  // ---------------------------------------------------------------------
  // StringAssert and CollectionAssert

  /** StringAssert: every rule takes the subject from the second argument. */
  function StringAssertFix(name: string, args: seq<Argument>): (f: Fix)
    ensures FluentOutcome(f)
  {
    if name == "AreEqualIgnoringCase" then Swapped(args, "BeEquivalentTo")
    else if name == "AreNotEqualIgnoringCase" then Swapped(args, "NotBeEquivalentTo")
    else if name == "Contains" then Swapped(args, "Contain")
    else if name == "DoesNotContain" then Swapped(args, "NotContain")
    else if name == "DoesNotEndWith" then Swapped(args, "NotEndWith")
    else if name == "DoesNotMatch" then Swapped(args, "NotMatchRegex")
    else if name == "DoesNotStartWith" then Swapped(args, "NotStartWith")
    else if name == "EndsWith" then Swapped(args, "EndWith")
    else if name == "IsMatch" then Swapped(args, "MatchRegex")
    else if name == "StartsWith" then Swapped(args, "StartWith")
    else NoChange
  }

  /** The comparer guard: the parameter at `index` is not the looked-up comparer type (vacuous when it does not resolve). */
  function NoComparerAt(c: Compilation, m: MethodSymbol, index: nat): (r: bool)
    ensures !r <==> index < |m.parameters| && GetTypeByMetadataName(c, GuardComparerName) == Some(m.parameters[index].paramType)
  {
    |m.parameters| <= index || Some(m.parameters[index].paramType) != GetTypeByMetadataName(c, GuardComparerName)
  }

  /** The CollectionAssert methods some rule names. */
  const CollectionAssertMethods: set<string> := {"AllItemsAreInstancesOfType", "AllItemsAreNotNull", "AllItemsAreUnique", "AreEqual",
    "AreNotEqual", "AreEquivalent", "AreNotEquivalent", "Contains", "DoesNotContain", "IsNotEmpty", "IsEmpty", "IsSubsetOf",
    "IsNotSubsetOf", "IsOrdered"}

  /**
   * CollectionAssert: a rule throws only when the call has fewer arguments than
   * it reads, and a method no rule names is left alone.
   */
  function CollectionAssertFix(c: Compilation, m: MethodSymbol, args: seq<Argument>): (f: Fix)
    ensures FluentOutcome(f)
    ensures f.Fault? ==> |args| < 2
    ensures m.name !in CollectionAssertMethods ==> f == NoChange
  {
    var name := m.name;
    if name == "AllItemsAreInstancesOfType" then InOrder(args, "AllBeOfType")
    else if name == "AllItemsAreNotNull" then OnFirst(args, "NotContainNulls", None)
    else if name == "AllItemsAreUnique" then OnFirst(args, "OnlyHaveUniqueItems", None)
    else if name == "AreEqual" && NoComparerAt(c, m, 2) then Swapped(args, "Equal")
    else if name == "AreNotEqual" && NoComparerAt(c, m, 2) then Swapped(args, "NotEqual")
    else if name == "AreEquivalent" then Swapped(args, "BeEquivalentTo")
    else if name == "AreNotEquivalent" then Swapped(args, "NotBeEquivalentTo")
    else if name == "Contains" then InOrder(args, "Contain")
    else if name == "DoesNotContain" then InOrder(args, "NotContain")
    else if name == "IsNotEmpty" then OnFirst(args, "NotBeEmpty", None)
    else if name == "IsEmpty" then OnFirst(args, "BeEmpty", None)
    else if name == "IsSubsetOf" then Swapped(args, "BeSubsetOf")
    else if name == "IsNotSubsetOf" then Swapped(args, "NotBeSubsetOf")
    else if name == "IsOrdered" && NoComparerAt(c, m, 1) then OnFirst(args, "BeInAscendingOrder", None)
    else NoChange
  }

  // ---------------------------------------------------------------------
  // The fix

  /**
   * Rewrite: a node that is not an invocation, or whose symbol does not
   * resolve, is left alone; otherwise the containing type picks the table.
   */
  function Rewrite(node: Expr, parentIsExpressionStatement: bool, model: SemanticModel, c: Compilation): (r: Rewritten)
    ensures !node.Invocation? || GetSymbol(model, node).None? ==> r == Rewritten(NoChange, true)
    ensures !r.addImports <==> r.fix == Replace(ReturnStatement)
    ensures r.addImports ==> FluentOutcome(r.fix)
  {
    if !node.Invocation? then Rewritten(NoChange, true)
    else
      var symbol := GetSymbol(model, node);
      if symbol.None? then Rewritten(NoChange, true)
      else
        var m := symbol.value;
        var owner := Some(m.containingType);
        if owner == GetTypeByMetadataName(c, AssertClass) then AssertFix(c, model, m, node.arguments, parentIsExpressionStatement)
        else if owner == GetTypeByMetadataName(c, StringAssertClass) then Rewritten(StringAssertFix(m.name, node.arguments), true)
        else if owner == GetTypeByMetadataName(c, CollectionAssertClass) then Rewritten(CollectionAssertFix(c, m, node.arguments), true)
        else Rewritten(NoChange, true)
  }

  /** The document after the fix: the rewritten node, and `using FluentAssertions;` added unless present or turned off. */
  function FixDocument(node: Expr, parentIsExpressionStatement: bool, model: SemanticModel, c: Compilation, usings: seq<string>): (d: FixedDocument)
    ensures d.Changed? && d.replacement.NewExpression? ==> FluentAssertionsNamespace in d.usings && AsAssertion(d.replacement.expression).Some?
    ensures d.Changed? && d.replacement.ReturnStatement? ==> d.usings == usings
    ensures d.Changed? ==> forall u :: u in usings ==> u in d.usings
  {
    var r := Rewrite(node, parentIsExpressionStatement, model, c);
    Apply(r.fix, usings, r.addImports)
  }

  /** RegisterCodeFixesAsync: no fix is offered when no node is found at the diagnostic's span. */
  function CodeFix(nodeAtSpan: Option<Expr>, parentIsExpressionStatement: bool, model: SemanticModel, c: Compilation, usings: seq<string>): (d: Option<FixedDocument>)
    ensures d.None? <==> nodeAtSpan.None?
  {
    if nodeAtSpan.None? then None else Some(FixDocument(nodeAtSpan.value, parentIsExpressionStatement, model, c, usings))
  }

  // ---------------------------------------------------------------------
  // Properties

  /** The node calls `m`, a method of the class named `cls`, which is none of the other two assert classes. */
  predicate CallsInto(node: Expr, model: SemanticModel, c: Compilation, m: MethodSymbol, cls: string)
  {
    var owner := Some(m.containingType);
    node.Invocation? && GetSymbol(model, node) == Some(m) && GetTypeByMetadataName(c, cls) == owner &&
    (cls == AssertClass || GetTypeByMetadataName(c, AssertClass) != owner) &&
    (cls == StringAssertClass || GetTypeByMetadataName(c, StringAssertClass) != owner) &&
    (cls == CollectionAssertClass || GetTypeByMetadataName(c, CollectionAssertClass) != owner)
  }

  /**
   * The two-operand Assert rules: `M(arg1, arg2, rest...)` becomes
   * `arg2.Should().M'(arg1, rest...)`. For `AreNotEqual` and the `Same` pair
   * that is (expected, actual); for `Greater`, `GreaterOrEqual`, `Less` and
   * `LessOrEqual`, whose NUnit meaning is "arg1 compared with arg2", the
   * rewritten assertion compares arg2 with arg1 instead.
   */
  lemma AssertTwoOperandRules(node: Expr, parent: bool, model: SemanticModel, c: Compilation, m: MethodSymbol, fluentName: string)
    requires CallsInto(node, model, c, m, AssertClass)
    requires (m.name, fluentName) in {("AreNotEqual", "NotBe"), ("AreSame", "BeSameAs"), ("AreNotSame", "NotBeSameAs"),
      ("Greater", "BeGreaterThan"), ("GreaterOrEqual", "BeGreaterThanOrEqualTo"), ("Less", "BeLessThan"), ("LessOrEqual", "BeLessThanOrEqualTo")}
    ensures var args := node.arguments;
            var r := Rewrite(node, parent, model, c);
            r.addImports && (r.fix.Fault? <==> |args| < 2) &&
            (|args| >= 2 ==> IsFluentCall(r.fix, args[1].expression, fluentName, None, [args[0].expression] + Expressions(args[2..])))
  {
    RewriteByAssertRule(node, parent, model, c, m);
  }

  /** True/IsTrue and False/IsFalse: `Assert.M(condition, rest...)` becomes `condition.Should().BeTrue(rest...)` or `BeFalse`. */
  lemma AssertBooleanRules(node: Expr, parent: bool, model: SemanticModel, c: Compilation, m: MethodSymbol, fluentName: string)
    requires CallsInto(node, model, c, m, AssertClass)
    requires (m.name, fluentName) in {("True", "BeTrue"), ("IsTrue", "BeTrue"), ("False", "BeFalse"), ("IsFalse", "BeFalse")}
    ensures var args := node.arguments;
            var r := Rewrite(node, parent, model, c);
            r.addImports && (r.fix.Fault? <==> |args| < 1) &&
            (|args| >= 1 ==> IsFluentCall(r.fix, args[0].expression, fluentName, None, Expressions(args[1..])))
  {
    RewriteByValueRule(node, parent, model, c, m);
  }

  /** Null/IsNull and NotNull/IsNotNull become BeNull and NotBeNull on the first argument. */
  lemma AssertNullRules(node: Expr, parent: bool, model: SemanticModel, c: Compilation, m: MethodSymbol, fluentName: string)
    requires CallsInto(node, model, c, m, AssertClass)
    requires (m.name, fluentName) in {("Null", "BeNull"), ("IsNull", "BeNull"), ("NotNull", "NotBeNull"), ("IsNotNull", "NotBeNull")}
    ensures var args := node.arguments;
            var r := Rewrite(node, parent, model, c);
            r.addImports && (r.fix.Fault? <==> |args| < 1) &&
            (|args| >= 1 ==> IsFluentCall(r.fix, args[0].expression, fluentName, None, Expressions(args[1..])))
  {
    RewriteByValueRule(node, parent, model, c, m);
  }

  /** Positive and Negative become BePositive and BeNegative on the first argument. */
  lemma AssertSignRules(node: Expr, parent: bool, model: SemanticModel, c: Compilation, m: MethodSymbol, fluentName: string)
    requires CallsInto(node, model, c, m, AssertClass)
    requires (m.name, fluentName) in {("Positive", "BePositive"), ("Negative", "BeNegative")}
    ensures var args := node.arguments;
            var r := Rewrite(node, parent, model, c);
            r.addImports && (r.fix.Fault? <==> |args| < 1) &&
            (|args| >= 1 ==> IsFluentCall(r.fix, args[0].expression, fluentName, None, Expressions(args[1..])))
  {
    RewriteByValueRule(node, parent, model, c, m);
  }

  /** IsEmpty/IsNotEmpty become BeEmpty/NotBeEmpty on the first argument; an overload without parameters throws. */
  lemma AssertEmptinessRules(node: Expr, parent: bool, model: SemanticModel, c: Compilation, m: MethodSymbol, fluentName: string)
    requires CallsInto(node, model, c, m, AssertClass)
    requires (m.name, fluentName) in {("IsEmpty", "BeEmpty"), ("IsNotEmpty", "NotBeEmpty")}
    ensures var args := node.arguments;
            var r := Rewrite(node, parent, model, c);
            r.addImports && (r.fix.Fault? <==> |m.parameters| == 0 || |args| < 1) &&
            (|m.parameters| > 0 && |args| >= 1 ==> IsFluentCall(r.fix, args[0].expression, fluentName, None, Expressions(args[1..])))
  {
    RewriteByAssertRule(node, parent, model, c, m);
  }

  /**
   * IsInstanceOf/IsNotInstanceOf: the form taking a System.Type swaps its
   * operands, the generic form keeps its type argument on the first argument,
   * and a form with more type arguments is left alone.
   */
  lemma InstanceOfRules(node: Expr, parent: bool, model: SemanticModel, c: Compilation, m: MethodSymbol, fluentName: string)
    requires CallsInto(node, model, c, m, AssertClass)
    requires (m.name, fluentName) in {("IsInstanceOf", "BeOfType"), ("IsNotInstanceOf", "NotBeOfType")}
    ensures var args := node.arguments;
            var r := Rewrite(node, parent, model, c);
            var typeArguments := m.typeArguments;
            r.addImports &&
            (|typeArguments| == 0 ==>
               (r.fix.Fault? <==> |args| < 2) &&
               (|args| >= 2 ==> IsFluentCall(r.fix, args[1].expression, fluentName, None, [args[0].expression] + Expressions(args[2..])))) &&
            (|typeArguments| == 1 ==>
               (r.fix.Fault? <==> |args| < 1) &&
               (|args| >= 1 ==> IsFluentCall(r.fix, args[0].expression, fluentName, Some(typeArguments[0]), Expressions(args[1..])))) &&
            (|typeArguments| > 1 ==> r.fix == NoChange)
  {
    RewriteByAssertRule(node, parent, model, c, m);
  }

  /** DoesNotThrow/DoesNotThrowAsync become NotThrow/NotThrowAsync on `FluentActions.Invoking(code)`. */
  lemma NoThrowRules(node: Expr, parent: bool, model: SemanticModel, c: Compilation, m: MethodSymbol, fluentName: string)
    requires CallsInto(node, model, c, m, AssertClass)
    requires (m.name, fluentName) in {("DoesNotThrow", "NotThrow"), ("DoesNotThrowAsync", "NotThrowAsync")}
    ensures var args := node.arguments;
            var r := Rewrite(node, parent, model, c);
            r.addImports && (r.fix.Fault? <==> |args| < 1 || GetTypeByMetadataName(c, FluentActionsClass).None?) &&
            (!r.fix.Fault? ==> IsFluentCall(r.fix, InvokeFluentActionsInvoking(c, args[0].expression).value, fluentName, None, Expressions(args[1..])))
  {
    RewriteByActionRule(node, parent, model, c, m);
  }

  /** AreEqual: BeApproximately when the first parameter is a double, Be otherwise; the operands are swapped either way. */
  lemma AreEqualRule(node: Expr, parent: bool, model: SemanticModel, c: Compilation, m: MethodSymbol)
    requires CallsInto(node, model, c, m, AssertClass) && m.name == "AreEqual"
    requires |m.parameters| >= 1 && |node.arguments| >= 2
    ensures var args := node.arguments;
            var fluentName := if m.parameters[0].paramType.special == SystemDouble then "BeApproximately" else "Be";
            IsFluentCall(Rewrite(node, parent, model, c).fix, args[1].expression, fluentName, None, [args[0].expression] + Expressions(args[2..]))
  {
    RewriteByAssertRule(node, parent, model, c, m);
  }

  /** StringAssert: every rule swaps its operands. */
  lemma StringAssertRules(node: Expr, parent: bool, model: SemanticModel, c: Compilation, m: MethodSymbol, fluentName: string)
    requires CallsInto(node, model, c, m, StringAssertClass)
    requires (m.name, fluentName) in {("AreEqualIgnoringCase", "BeEquivalentTo"), ("AreNotEqualIgnoringCase", "NotBeEquivalentTo"),
      ("Contains", "Contain"), ("DoesNotContain", "NotContain"), ("DoesNotEndWith", "NotEndWith"), ("DoesNotMatch", "NotMatchRegex"),
      ("DoesNotStartWith", "NotStartWith"), ("EndsWith", "EndWith"), ("IsMatch", "MatchRegex"), ("StartsWith", "StartWith")}
    ensures var args := node.arguments;
            var r := Rewrite(node, parent, model, c);
            r.addImports && (r.fix.Fault? <==> |args| < 2) &&
            (|args| >= 2 ==> IsFluentCall(r.fix, args[1].expression, fluentName, None, [args[0].expression] + Expressions(args[2..])))
  {
  }

  /** CollectionAssert equality, equivalence and subset rules swap their operands (equality only without a comparer). */
  lemma CollectionAssertTwoOperandRules(node: Expr, parent: bool, model: SemanticModel, c: Compilation, m: MethodSymbol, fluentName: string)
    requires CallsInto(node, model, c, m, CollectionAssertClass)
    requires (m.name, fluentName) in {("AreEqual", "Equal"), ("AreNotEqual", "NotEqual"), ("AreEquivalent", "BeEquivalentTo"),
      ("AreNotEquivalent", "NotBeEquivalentTo"), ("IsSubsetOf", "BeSubsetOf"), ("IsNotSubsetOf", "NotBeSubsetOf")}
    requires NoComparerAt(c, m, 2)
    ensures var args := node.arguments;
            var r := Rewrite(node, parent, model, c);
            r.addImports && (r.fix.Fault? <==> |args| < 2) &&
            (|args| >= 2 ==> IsFluentCall(r.fix, args[1].expression, fluentName, None, [args[0].expression] + Expressions(args[2..])))
  {
  }

  /** The CollectionAssert rules on the collection alone (IsOrdered only without a comparer). */
  lemma CollectionAssertOneOperandRules(node: Expr, parent: bool, model: SemanticModel, c: Compilation, m: MethodSymbol, fluentName: string)
    requires CallsInto(node, model, c, m, CollectionAssertClass)
    requires (m.name, fluentName) in {("AllItemsAreNotNull", "NotContainNulls"), ("AllItemsAreUnique", "OnlyHaveUniqueItems"),
      ("IsNotEmpty", "NotBeEmpty"), ("IsEmpty", "BeEmpty"), ("IsOrdered", "BeInAscendingOrder")}
    requires NoComparerAt(c, m, 1)
    ensures var args := node.arguments;
            var r := Rewrite(node, parent, model, c);
            r.addImports && (r.fix.Fault? <==> |args| < 1) &&
            (|args| >= 1 ==> IsFluentCall(r.fix, args[0].expression, fluentName, None, Expressions(args[1..])))
  {
  }

  /** The CollectionAssert rules whose collection comes first keep their operands in order. */
  lemma CollectionAssertInOrderRules(node: Expr, parent: bool, model: SemanticModel, c: Compilation, m: MethodSymbol, fluentName: string)
    requires CallsInto(node, model, c, m, CollectionAssertClass)
    requires (m.name, fluentName) in {("AllItemsAreInstancesOfType", "AllBeOfType"), ("Contains", "Contain"), ("DoesNotContain", "NotContain")}
    ensures var args := node.arguments;
            var r := Rewrite(node, parent, model, c);
            r.addImports && (r.fix.Fault? <==> |args| < 2) &&
            (|args| >= 2 ==> IsFluentCall(r.fix, args[0].expression, fluentName, None, [args[1].expression] + Expressions(args[2..])))
  {
  }

  /** AreEqual/AreNotEqual with the comparer at the third parameter, and IsOrdered with it at the second, are left alone. */
  lemma CollectionAssertComparerUnchanged(node: Expr, parent: bool, model: SemanticModel, c: Compilation, m: MethodSymbol, usings: seq<string>)
    requires CallsInto(node, model, c, m, CollectionAssertClass)
    requires (m.name in {"AreEqual", "AreNotEqual"} && !NoComparerAt(c, m, 2)) || (m.name == "IsOrdered" && !NoComparerAt(c, m, 1))
    ensures FixDocument(node, parent, model, c, usings) == Unchanged
  {
  }

  /**
   * The comparer guard looks up a type name that does not exist in the .NET
   * libraries; where it does not resolve, the guard never blocks and
   * CollectionAssert.AreEqual/AreNotEqual/IsOrdered with a comparer are
   * rewritten as if the comparer were absent.
   */
  lemma ComparerGuardVacuous(c: Compilation, m: MethodSymbol)
    requires GetTypeByMetadataName(c, GuardComparerName).None?
    ensures NoComparerAt(c, m, 1) && NoComparerAt(c, m, 2)
  {
  }

  /** Zero and NotZero write the literal 0 as the expected value, IsNaN writes `double.NaN`. */
  lemma LiteralInjection(node: Expr, parent: bool, model: SemanticModel, c: Compilation, m: MethodSymbol)
    requires CallsInto(node, model, c, m, AssertClass) && m.name in {"Zero", "NotZero", "IsNaN"}
    requires |node.arguments| >= 1
    ensures var args := node.arguments;
            var expected := if m.name == "IsNaN" then MemberAccess(PredefinedType("double"), "NaN", None) else NumericLiteral(0);
            var fluentName := if m.name == "NotZero" then "NotBe" else "Be";
            IsFluentCall(Rewrite(node, parent, model, c).fix, args[0].expression, fluentName, None, [expected] + Expressions(args[1..]))
  {
    if m.name == "IsNaN" {
      RewriteByAssertRule(node, parent, model, c, m);
    } else {
      RewriteByValueRule(node, parent, model, c, m);
    }
  }

  /**
   * `Assert.Pass()` as a statement becomes `return;` with the usings left as
   * they are; with arguments, or anywhere else, the document is unchanged.
   */
  lemma PassRule(node: Expr, parent: bool, model: SemanticModel, c: Compilation, m: MethodSymbol, usings: seq<string>)
    requires CallsInto(node, model, c, m, AssertClass) && m.name == "Pass"
    ensures FixDocument(node, parent, model, c, usings) ==
      if |node.arguments| == 0 && parent then Changed(ReturnStatement, usings) else Unchanged
  {
  }

  /**
   * The exception assertions: Catch→Throw, CatchAsync→ThrowAsync,
   * Throws→ThrowExactly, ThrowsAsync→ThrowExactlyAsync, on
   * `FluentActions.Invoking(code)`. The exception type comes from the type
   * argument, from System.Exception, or from the `typeof` operand of the first
   * argument; anything but a `typeof` there leaves the document unchanged.
   */
  lemma ExceptionRules(node: Expr, parent: bool, model: SemanticModel, c: Compilation, m: MethodSymbol)
    requires CallsInto(node, model, c, m, AssertClass) && m.name in {"Catch", "CatchAsync", "Throws", "ThrowsAsync"}
    requires GetTypeByMetadataName(c, FluentActionsClass).Some?
    ensures ExceptionMethod("Catch") == Some("Throw") && ExceptionMethod("CatchAsync") == Some("ThrowAsync")
    ensures ExceptionMethod("Throws") == Some("ThrowExactly") && ExceptionMethod("ThrowsAsync") == Some("ThrowExactlyAsync")
    ensures var args := node.arguments;
            var fix := Rewrite(node, parent, model, c).fix;
            var fluentName := ExceptionMethod(m.name).value;
            var typeForm := |m.parameters| > 0 && Some(m.parameters[0].paramType) == GetTypeByMetadataName(c, "System.Type");
            (|m.typeArguments| == 1 && |args| >= 1 ==>
              IsFluentCall(fix, InvokeFluentActionsInvoking(c, args[0].expression).value, fluentName, Some(m.typeArguments[0]), Expressions(args[1..]))) &&
            (|m.typeArguments| == 0 && |m.parameters| > 0 && !typeForm && |args| >= 1 && GetTypeByMetadataName(c, "System.Exception").Some? ==>
              IsFluentCall(fix, InvokeFluentActionsInvoking(c, args[0].expression).value, fluentName,
                           GetTypeByMetadataName(c, "System.Exception"), Expressions(args[1..]))) &&
            (|m.typeArguments| == 0 && typeForm && |args| >= 2 ==>
              var t := GetConstantTypeValue(model, args[0].expression);
              (t.None? ==> fix == NoChange) &&
              (t.Some? ==> IsFluentCall(fix, InvokeFluentActionsInvoking(c, args[1].expression).value, fluentName, t, Expressions(args[2..]))))
  {
    RewriteByActionRule(node, parent, model, c, m);
    var args := node.arguments;
    if m.name == "Catch" {
      ActionRuleCatch(c, model, m, args);
    } else if m.name == "CatchAsync" {
      ActionRuleCatchAsync(c, model, m, args);
    } else if m.name == "Throws" {
      ActionRuleThrows(c, model, m, args);
    } else {
      ActionRuleThrowsAsync(c, model, m, args);
    }
  }

  /** An Assert method no rule names is left alone, and so is a call on any other class. */
  lemma UnhandledCallsUnchanged(node: Expr, parent: bool, model: SemanticModel, c: Compilation, m: MethodSymbol, usings: seq<string>)
    requires node.Invocation? && GetSymbol(model, node) == Some(m)
    requires
      (GetTypeByMetadataName(c, AssertClass) == Some(m.containingType) && m.name != "Pass" &&
       !IsComparisonRuleName(m.name) && !IsValueRuleName(m.name) && !IsActionRuleName(m.name)) ||
      (Some(m.containingType) !in {GetTypeByMetadataName(c, AssertClass), GetTypeByMetadataName(c, StringAssertClass),
                                   GetTypeByMetadataName(c, CollectionAssertClass)})
    ensures FixDocument(node, parent, model, c, usings) == Unchanged
  {
    if GetTypeByMetadataName(c, AssertClass) == Some(m.containingType) {
      AssertRuleByValueRule(c, model, m, node.arguments);
      ValueRuleByActionRule(c, model, m, node.arguments);
    }
  }

  // ---------------------------------------------------------------------
  // Assert.That

  /** A member reference `instance.name` (or a static `name` when there is no instance) of type `containing`. */
  function MemberRef(name: string, containing: TypeSymbol, instance: Option<Operation>): Operation
  {
    Operation(Identifier(name), None, None, MemberReferenceOp(name, containing, instance))
  }

  /** `Assert.That(actual, constraint, ...)` resolved to an overload taking an IResolveConstraint, with `op` as the constraint. */
  predicate ConstraintCall(node: Expr, model: SemanticModel, c: Compilation, m: MethodSymbol, op: Operation)
  {
    CallsInto(node, model, c, m, AssertClass) && m.name == "That" &&
    |m.parameters| >= 2 && |node.arguments| >= 2 &&
    Some(m.parameters[1].paramType) != GetTypeByMetadataName(c, "System.String") &&
    Some(m.parameters[1].paramType) == GetTypeByMetadataName(c, "NUnit.Framework.Constraints.IResolveConstraint") &&
    GetOperation(model, node.arguments[1].expression) == Some(op) && !IsImplicitConversion(op)
  }

  /** Every Assert method other than Pass is rewritten by AssertRule, with imports on. */
  lemma RewriteByAssertRule(node: Expr, parent: bool, model: SemanticModel, c: Compilation, m: MethodSymbol)
    requires CallsInto(node, model, c, m, AssertClass) && m.name != "Pass"
    ensures Rewrite(node, parent, model, c) == Rewritten(AssertRule(c, model, m, node.arguments), true)
  {
  }

  /** A name outside the comparison rules passes AssertRule on to AssertValueRule. */
  lemma AssertRuleByValueRule(c: Compilation, model: SemanticModel, m: MethodSymbol, args: seq<Argument>)
    requires !IsComparisonRuleName(m.name)
    ensures AssertRule(c, model, m, args) == AssertValueRule(c, model, m, args)
  {
  }

  /** A name outside the value rules passes AssertValueRule on to AssertActionRule. */
  lemma ValueRuleByActionRule(c: Compilation, model: SemanticModel, m: MethodSymbol, args: seq<Argument>)
    requires !IsValueRuleName(m.name)
    ensures AssertValueRule(c, model, m, args) == AssertActionRule(c, model, m, args)
  {
  }

  /** The three groups of names are disjoint. */
  lemma RuleNamesDisjoint(name: string)
    ensures IsValueRuleName(name) ==> !IsComparisonRuleName(name)
    ensures IsActionRuleName(name) ==> !IsComparisonRuleName(name) && !IsValueRuleName(name)
  {
  }

  /** An Assert method of the value rules is rewritten by AssertValueRule. */
  lemma RewriteByValueRule(node: Expr, parent: bool, model: SemanticModel, c: Compilation, m: MethodSymbol)
    requires CallsInto(node, model, c, m, AssertClass) && IsValueRuleName(m.name)
    ensures Rewrite(node, parent, model, c) == Rewritten(AssertValueRule(c, model, m, node.arguments), true)
  {
    RuleNamesDisjoint(m.name);
    RewriteByAssertRule(node, parent, model, c, m);
    AssertRuleByValueRule(c, model, m, node.arguments);
  }

  /** An Assert method of the action rules is rewritten by AssertActionRule. */
  lemma RewriteByActionRule(node: Expr, parent: bool, model: SemanticModel, c: Compilation, m: MethodSymbol)
    requires CallsInto(node, model, c, m, AssertClass) && IsActionRuleName(m.name)
    ensures Rewrite(node, parent, model, c) == Rewritten(AssertActionRule(c, model, m, node.arguments), true)
  {
    RuleNamesDisjoint(m.name);
    RewriteByAssertRule(node, parent, model, c, m);
    AssertRuleByValueRule(c, model, m, node.arguments);
    ValueRuleByActionRule(c, model, m, node.arguments);
  }

  /** Each exception assertion is rewritten by ExceptionFix with its FluentAssertions method. */
  lemma ActionRuleCatch(c: Compilation, model: SemanticModel, m: MethodSymbol, args: seq<Argument>)
    requires m.name == "Catch"
    ensures AssertActionRule(c, model, m, args) == ExceptionFix(c, model, m, args, "Throw")
  {
  }

  lemma ActionRuleCatchAsync(c: Compilation, model: SemanticModel, m: MethodSymbol, args: seq<Argument>)
    requires m.name == "CatchAsync"
    ensures AssertActionRule(c, model, m, args) == ExceptionFix(c, model, m, args, "ThrowAsync")
  {
  }

  lemma ActionRuleThrows(c: Compilation, model: SemanticModel, m: MethodSymbol, args: seq<Argument>)
    requires m.name == "Throws"
    ensures AssertActionRule(c, model, m, args) == ExceptionFix(c, model, m, args, "ThrowExactly")
  {
  }

  lemma ActionRuleThrowsAsync(c: Compilation, model: SemanticModel, m: MethodSymbol, args: seq<Argument>)
    requires m.name == "ThrowsAsync"
    ensures AssertActionRule(c, model, m, args) == ExceptionFix(c, model, m, args, "ThrowExactlyAsync")
  {
  }

  /** `Assert.That` with a resolved constraint argument is read by ConstraintFix, on the constraint without implicit conversions. */
  lemma ThatByConstraint(node: Expr, model: SemanticModel, c: Compilation, m: MethodSymbol, op: Operation)
    requires ConstraintCall(node, model, c, m, op)
    ensures AssertActionRule(c, model, m, node.arguments) == ConstraintFix(c, model, m.parameters[0].paramType, node.arguments, op)
  {
    assert ThatFix(c, model, m, node.arguments) == ConstraintFix(c, model, m.parameters[0].paramType, node.arguments, op);
  }

  /** A constraint whose last member is neither `True` nor `False` is none of the boolean forms. */
  lemma ConstraintFixByMemberForms(c: Compilation, model: SemanticModel, subjectType: TypeSymbol, args: seq<Argument>, op: Operation)
    requires |args| >= 2
    requires op.kind.MemberReferenceOp? ==> op.kind.memberName != "True" && op.kind.memberName != "False"
    ensures ConstraintFix(c, model, subjectType, args, op) == ConstraintMemberFix(c, model, args, op)
  {
  }

  /** A constraint that is not a member reference is none of the member-chain forms. */
  lemma ConstraintFixByMethodForms(c: Compilation, model: SemanticModel, subjectType: TypeSymbol, args: seq<Argument>, op: Operation)
    requires |args| >= 2 && !op.kind.MemberReferenceOp?
    ensures ConstraintFix(c, model, subjectType, args, op) == ConstraintMethodFix(c, model, args, op)
  {
    ConstraintFixByMemberForms(c, model, subjectType, args, op);
  }

  /** `Assert.That(condition)` and `Assert.That(condition, message)` become `condition.Should().BeTrue(message)`. */
  lemma ThatCondition(node: Expr, parent: bool, model: SemanticModel, c: Compilation, m: MethodSymbol)
    requires CallsInto(node, model, c, m, AssertClass) && m.name == "That" && |node.arguments| >= 1
    requires |m.parameters| == 1 || (|m.parameters| >= 2 && Some(m.parameters[1].paramType) == GetTypeByMetadataName(c, "System.String"))
    ensures var args := node.arguments;
            IsFluentCall(Rewrite(node, parent, model, c).fix, args[0].expression, "BeTrue", None, Expressions(args[1..]))
   {
    RewriteByActionRule(node, parent, model, c, m);
  }

  /**
   * `Is.Not.True` and `Is.Not.False` negate on a bool (BeFalse, BeTrue) but
   * keep null apart on a bool? (NotBeTrue, NotBeFalse); the message is dropped.
   */
  lemma ThatNegatedBoolean(node: Expr, parent: bool, model: SemanticModel, c: Compilation, m: MethodSymbol, constraint: TypeSymbol, value: string)
    requires value in {"True", "False"}
    requires GetTypeByMetadataName(c, "NUnit.Framework.Is").Some? && GetTypeByMetadataName(c, "NUnit.Framework.Is") != Some(constraint)
    requires ConstraintCall(node, model, c, m, MemberRef(value, constraint, Some(MemberRef("Not", GetTypeByMetadataName(c, "NUnit.Framework.Is").value, None))))
    ensures var args := node.arguments;
            var fix := Rewrite(node, parent, model, c).fix;
            var subjectType := m.parameters[0].paramType;
            (subjectType.special == SystemBoolean ==> IsFluentCall(fix, args[0].expression, if value == "True" then "BeFalse" else "BeTrue", None, [])) &&
            (subjectType == NullableBoolean(c) ==> IsFluentCall(fix, args[0].expression, if value == "True" then "NotBeTrue" else "NotBeFalse", None, []))
  {
    var isClass := GetTypeByMetadataName(c, "NUnit.Framework.Is");
    var op := MemberRef(value, constraint, Some(MemberRef("Not", isClass.value, None)));
    assert !ChainIs(op, isClass, [value]);
    assert ChainIs(op, isClass, ["Not", value]);
    ThatByConstraint(node, model, c, m, op);
    RewriteByActionRule(node, parent, model, c, m);
  }

  /** The constraints `Is.Null.Or.Empty` and `Is.Empty.Or.Null` are read as `BeNullOrEmpty(...)`: no earlier form matches them. */
  lemma NullOrEmptyConstraint(c: Compilation, model: SemanticModel, subjectType: TypeSymbol, args: seq<Argument>, constraint: TypeSymbol, first: string, last: string)
    requires |args| >= 2 && (first, last) in {("Null", "Empty"), ("Empty", "Null")}
    requires GetTypeByMetadataName(c, "NUnit.Framework.Is").Some? && GetTypeByMetadataName(c, "NUnit.Framework.Is") != Some(constraint)
    ensures var op := MemberRef(last, constraint, Some(MemberRef("Or", constraint, Some(MemberRef(first, GetTypeByMetadataName(c, "NUnit.Framework.Is").value, None)))));
            ConstraintFix(c, model, subjectType, args, op) == Fluent(args[0].expression, "BeNullOrEmpty", None, args[2..])
  {
    var isClass := GetTypeByMetadataName(c, "NUnit.Framework.Is");
    var op := MemberRef(last, constraint, Some(MemberRef("Or", constraint, Some(MemberRef(first, isClass.value, None)))));
    ConstraintFixByMemberForms(c, model, subjectType, args, op);
    assert !ChainIs(op, isClass, [last]);
    assert ChainIs(op, isClass, [first, "Or", last]);
  }

  /** `Is.Null.Or.Empty` and `Is.Empty.Or.Null` both become BeNullOrEmpty. */
  lemma ThatNullOrEmpty(node: Expr, parent: bool, model: SemanticModel, c: Compilation, m: MethodSymbol, constraint: TypeSymbol, first: string, last: string)
    requires (first, last) in {("Null", "Empty"), ("Empty", "Null")}
    requires GetTypeByMetadataName(c, "NUnit.Framework.Is").Some? && GetTypeByMetadataName(c, "NUnit.Framework.Is") != Some(constraint)
    requires ConstraintCall(node, model, c, m,
      MemberRef(last, constraint, Some(MemberRef("Or", constraint, Some(MemberRef(first, GetTypeByMetadataName(c, "NUnit.Framework.Is").value, None))))))
    ensures var args := node.arguments;
            IsFluentCall(Rewrite(node, parent, model, c).fix, args[0].expression, "BeNullOrEmpty", None, Expressions(args[2..]))
  {
    var isClass := GetTypeByMetadataName(c, "NUnit.Framework.Is");
    var op := MemberRef(last, constraint, Some(MemberRef("Or", constraint, Some(MemberRef(first, isClass.value, None)))));
    NullOrEmptyConstraint(c, model, m.parameters[0].paramType, node.arguments, constraint, first, last);
    ThatByConstraint(node, model, c, m, op);
    RewriteByActionRule(node, parent, model, c, m);
  }

  /** The constraint `Has.One.Items` is read as `HaveCount(1, ...)`: no earlier form matches it. */
  lemma HasOneItemConstraint(c: Compilation, model: SemanticModel, subjectType: TypeSymbol, args: seq<Argument>, constraint: TypeSymbol)
    requires |args| >= 2 && GetTypeByMetadataName(c, "NUnit.Framework.Has").Some?
    ensures var op := MemberRef("Items", constraint, Some(MemberRef("One", GetTypeByMetadataName(c, "NUnit.Framework.Has").value, None)));
            ConstraintFix(c, model, subjectType, args, op) ==
            Fluent(args[0].expression, "HaveCount", None, [Argument(None, NumericLiteral(1))] + args[2..])
  {
    var hasClass := GetTypeByMetadataName(c, "NUnit.Framework.Has");
    var op := MemberRef("Items", constraint, Some(MemberRef("One", hasClass.value, None)));
    ConstraintFixByMemberForms(c, model, subjectType, args, op);
    assert ChainIs(op, hasClass, ["One", "Items"]);
    forall root, names | |names| > 0 && names[|names| - 1] != "Items"
      ensures !ChainIs(op, root, names)
    {
    }
  }

  /** `Has.One.Items` becomes `HaveCount(1, ...)`. */
  lemma ThatHasOneItem(node: Expr, parent: bool, model: SemanticModel, c: Compilation, m: MethodSymbol, constraint: TypeSymbol)
    requires GetTypeByMetadataName(c, "NUnit.Framework.Has").Some?
    requires ConstraintCall(node, model, c, m,
      MemberRef("Items", constraint, Some(MemberRef("One", GetTypeByMetadataName(c, "NUnit.Framework.Has").value, None))))
    ensures var args := node.arguments;
            IsFluentCall(Rewrite(node, parent, model, c).fix, args[0].expression, "HaveCount", None, [NumericLiteral(1)] + Expressions(args[2..]))
  {
    var args := node.arguments;
    var expected := Fluent(args[0].expression, "HaveCount", None, [Argument(None, NumericLiteral(1))] + args[2..]);
    HasOneItemConstraint(c, model, m.parameters[0].paramType, args, constraint);
    ThatByConstraint(node, model, c, m, MemberRef("Items", constraint, Some(MemberRef("One", GetTypeByMetadataName(c, "NUnit.Framework.Has").value, None))));
    RewriteByActionRule(node, parent, model, c, m);
    ExpressionsCons(Argument(None, NumericLiteral(1)), args[2..]);
  }

  /** `Is.EqualTo(x)` becomes `Be(x, ...)`: the matcher hands over the invocation's single argument. */
  lemma ThatEqualTo(node: Expr, parent: bool, model: SemanticModel, c: Compilation, m: MethodSymbol, equalTo: MethodSymbol, x: Operation, syntax: Expr)
    requires equalTo.name == "EqualTo" && GetTypeByMetadataName(c, "NUnit.Framework.Is") == Some(equalTo.containingType)
    requires ConstraintCall(node, model, c, m, Operation(syntax, None, None, InvocationOp(equalTo, None, [x])))
    ensures var args := node.arguments;
            IsFluentCall(Rewrite(node, parent, model, c).fix, args[0].expression, "Be", None, [x.syntax] + Expressions(args[2..]))
  {
    var op := Operation(syntax, None, None, InvocationOp(equalTo, None, [x]));
    ThatByConstraint(node, model, c, m, op);
    ConstraintFixByMethodForms(c, model, m.parameters[0].paramType, node.arguments, op);
    RewriteByActionRule(node, parent, model, c, m);
  }
}
