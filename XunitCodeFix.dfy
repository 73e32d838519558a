/**
 * The xUnit code fix (MFA001): rewrites a call on xUnit's `Assert` into a
 * FluentAssertions chain. xUnit's "expected, actual" order becomes
 * `actual.Should().M(expected)`; the overload (number and types of the
 * parameters) picks the FluentAssertions method, and an overload no rule knows
 * leaves the document as it was. The first rule that applies wins.
 */
module XunitCodeFix {
  import opened Wrappers
  import opened Symbols
  import opened Syntax
  import opened Operations
  import opened Extensions
  import opened CodeFixes

  const EnumerableName := "System.Collections.Generic.IEnumerable`1"
  const PredicateName := "System.Predicate`1"
  const StringComparisonName := "System.StringComparison"

  // ---------------------------------------------------------------------
  // Building blocks

  /** The qualified name `first.names[0].names[1]...`, built from the left. */
  function DottedName(first: string, names: seq<string>): Expr
    decreases |names|
  {
    if names == [] then Identifier(first)
    else MemberAccess(DottedName(first, names[..|names| - 1]), names[|names| - 1], None)
  }

  /** Reads a qualified name back into its identifiers, if the expression is one. */
  function NameParts(e: Expr): Option<seq<string>>
  {
    match e
    case Identifier(n) => Some([n])
    case MemberAccess(receiver, n, None) =>
      var p := NameParts(receiver);
      if p.None? then None else Some(p.value + [n])
    case _ => None
  }

  /** A qualified name reads back as the identifiers it was built from. */
  lemma {:induction false} NamePartsOfDottedName(first: string, names: seq<string>)
    ensures NameParts(DottedName(first, names)) == Some([first] + names)
    decreases |names|
  {
    if names != [] {
      var init := names[..|names| - 1];
      NamePartsOfDottedName(first, init);
      assert DottedName(first, names) == MemberAccess(DottedName(first, init), names[|names| - 1], None);
      assert NameParts(DottedName(first, names)) == Some(([first] + init) + [names[|names| - 1]]);
      assert names == init + [names[|names| - 1]];
      assert [first] + names == ([first] + init) + [names[|names| - 1]];
    } else {
      assert [first] + names == [first];
    }
  }

  /** MemberAccessExpression(expression, memberName, memberNames...): each name is accessed on the expression built so far. */
  method MemberAccessPath(expression: string, memberName: string, memberNames: seq<string>) returns (result: Expr)
    ensures result == DottedName(expression, [memberName] + memberNames)
  {
    assert ([memberName] + memberNames[..0])[..0] == [];
    result := MemberAccess(Identifier(expression), memberName, None);
    for i := 0 to |memberNames|
      invariant result == DottedName(expression, [memberName] + memberNames[..i])
    {
      assert ([memberName] + memberNames[..i + 1])[..i + 1] == [memberName] + memberNames[..i];
      result := MemberAccess(result, memberNames[i], None);
    }
    assert memberNames[..|memberNames|] == memberNames;
  }

  /** `System.Math.Round(expression, precision)`: reads back as exactly the value and the precision it rounds to. */
  function MathRound(expression: Expr, precision: Expr): (e: Expr)
    ensures AsMathRound(e) == Some((expression, precision))
  {
    NamePartsOfDottedName("System", ["Math", "Round"]);
    assert ["System"] + ["Math", "Round"] == ["System", "Math", "Round"];
    var args := Positional([expression, precision]);
    assert args[0] == Argument(None, expression) && args[1] == Argument(None, precision);
    Invocation(DottedName("System", ["Math", "Round"]), args)
  }

  /** Reads a call `System.Math.Round(x, p)` back into its value and precision. */
  function AsMathRound(e: Expr): Option<(Expr, Expr)>
  {
    if e.Invocation? && NameParts(e.callee) == Some(["System", "Math", "Round"]) &&
       |e.arguments| == 2 && e.arguments[0].nameColon.None? && e.arguments[1].nameColon.None?
    then Some((e.arguments[0].expression, e.arguments[1].expression))
    else None
  }

  /**
   * WrapLambdaExpressionIfNeeded: a lambda or anonymous method becomes
   * `new T(lambda)` for the delegate type T of the parameter it was passed to;
   * any other expression is kept.
   */
  function WrapLambda(e: Expr, delegateType: TypeSymbol): (w: Expr)
    ensures e.AnonymousFunction? ==> w.ObjectCreation? && w.createdType == delegateType && w.creationArguments == [Argument(None, e)]
    ensures !e.AnonymousFunction? ==> w == e
  {
    if e.AnonymousFunction? then ObjectCreation(delegateType, Positional([e])) else e
  }

  /** `subject.Should().M(expected)` with the arguments `actual` = args[1] and `expected` = args[0]. */
  function Swapped(args: seq<Argument>, methodName: string): (f: Fix)
    ensures f.Fault? <==> |args| < 2
    ensures |args| >= 2 ==> IsFluentCall(f, args[1].expression, methodName, None, [args[0].expression])
    ensures FluentOutcome(f)
  {
    if |args| < 2 then Fault else FluentCall(args[1].expression, methodName, None, [args[0].expression])
  }

  /** `args[0].Should().M(args[1])` */
  function InOrder(args: seq<Argument>, methodName: string): (f: Fix)
    ensures f.Fault? <==> |args| < 2
    ensures |args| >= 2 ==> IsFluentCall(f, args[0].expression, methodName, None, [args[1].expression])
    ensures FluentOutcome(f)
  {
    if |args| < 2 then Fault else FluentCall(args[0].expression, methodName, None, [args[1].expression])
  }

  /** `args[0].Should().M<T>()` */
  function OnFirst(args: seq<Argument>, methodName: string, typeArgument: Option<TypeSymbol>): (f: Fix)
    ensures f.Fault? <==> |args| < 1
    ensures |args| >= 1 ==> IsFluentCall(f, args[0].expression, methodName, typeArgument, [])
    ensures FluentOutcome(f)
  {
    if |args| < 1 then Fault else FluentCall(args[0].expression, methodName, typeArgument, [])
  }

  /**
   * RewriteTrueOrFalse: `args[0].Should().BeTrue()` or `BeFalse()`; exactly two
   * arguments carry the message over as it was written, label included.
   */
  function TrueOrFalse(args: seq<Argument>, methodName: string): (f: Fix)
    ensures f.Fault? <==> |args| < 1
    ensures f.Replace? ==> f.replacement.NewExpression? && AsAssertion(f.replacement.expression).Some?
    ensures |args| >= 1 ==>
              f.Replace? && f.replacement.NewExpression? && AsAssertion(f.replacement.expression).Some? &&
              var a := AsAssertion(f.replacement.expression).value;
              a.subject == args[0].expression && a.methodName == "Be" + methodName && a.typeArgument.None? &&
              a.arguments == if |args| == 2 then [args[1]] else []
  {
    if |args| < 1 then Fault
    else Replace(NewExpression(ShouldCall(args[0].expression, "Be" + methodName, None, if |args| == 2 then [args[1]] else [])))
  }

  /**
   * IsStringComparisonOrdinal: the expression is a reference to the member
   * `Ordinal` of System.StringComparison. Any other member (OrdinalIgnoreCase,
   * say), a member of another type, or a StringComparison that does not
   * resolve, fails.
   */
  function IsStringComparisonOrdinal(e: Expr, model: SemanticModel, c: Compilation): (r: bool)
    ensures r ==> GetOperation(model, e).Some? && GetOperation(model, e).value.kind.MemberReferenceOp?
    ensures r ==> GetOperation(model, e).value.kind.memberName == "Ordinal"
    ensures r ==> GetTypeByMetadataName(c, StringComparisonName) == Some(GetOperation(model, e).value.kind.memberContainingType)
    ensures GetTypeByMetadataName(c, StringComparisonName).None? ==> !r
  {
    var op := GetOperation(model, e);
    op.Some? && op.value.kind.MemberReferenceOp? &&
    op.value.kind.memberName == "Ordinal" && IsType(Some(op.value.kind.memberContainingType), c, StringComparisonName)
  }

  // ---------------------------------------------------------------------
  // The rules, by xUnit method

  /** The FluentAssertions method for each string assertion. */
  function StringMethod(name: string): (r: Option<string>)
    ensures r.Some? <==> name in {"StartsWith", "EndsWith", "Contains", "DoesNotContain"}
  {
    if name == "StartsWith" then Some("StartWith")
    else if name == "EndsWith" then Some("EndWith")
    else if name == "Contains" then Some("Contain")
    else if name == "DoesNotContain" then Some("NotContain")
    else None
  }

  /** The FluentAssertions method for each type assertion. */
  function TypeMethod(name: string): (r: Option<string>)
    ensures r.Some? <==> name in {"IsAssignableFrom", "IsType", "IsNotType"}
  {
    if name == "IsAssignableFrom" then Some("BeAssignableTo")
    else if name == "IsType" then Some("BeOfType")
    else if name == "IsNotType" then Some("NotBeOfType")
    else None
  }

  /** The FluentAssertions method for each exception assertion. */
  function ThrowsMethod(name: string): (r: Option<string>)
    ensures r.Some? <==> name in {"Throws", "ThrowsAny", "ThrowsAsync", "ThrowsAnyAsync"}
  {
    if name == "Throws" then Some("ThrowExactly")
    else if name == "ThrowsAny" then Some("Throw")
    else if name == "ThrowsAsync" then Some("ThrowExactlyAsync")
    else if name == "ThrowsAnyAsync" then Some("ThrowAsync")
    else None
  }

  /**
   * StartsWith/EndsWith/Contains/DoesNotContain on strings: the two-parameter
   * overload, and the one taking a StringComparison only when the comparison
   * passed is `StringComparison.Ordinal`.
   */
  function StringFix(c: Compilation, model: SemanticModel, m: MethodSymbol, args: seq<Argument>, methodName: string): (f: Fix)
    ensures FluentOutcome(f)
    ensures |m.parameters| == 2 ==>
      (f.Fault? <==> |args| < 2) && (|args| >= 2 ==> IsFluentCall(f, args[1].expression, methodName, None, [args[0].expression]))
    ensures |m.parameters| == 3 ==> (f.Fault? <==> |args| < 3)
    ensures |m.parameters| == 3 && |args| >= 3 && IsStringComparisonOrdinal(args[2].expression, model, c) ==>
      IsFluentCall(f, args[1].expression, methodName, None, [args[0].expression])
    ensures |m.parameters| == 3 && |args| >= 3 && !IsStringComparisonOrdinal(args[2].expression, model, c) ==> f == NoChange
    ensures |m.parameters| !in {2, 3} ==> f == NoChange
  {
    if |m.parameters| == 2 then Swapped(args, methodName)
    else if |m.parameters| != 3 then NoChange
    else if |args| < 3 then Fault
    else if IsStringComparisonOrdinal(args[2].expression, model, c) then Swapped(args, methodName)
    else NoChange
  }

  /**
   * Contains/DoesNotContain: an item in a collection (the first parameter of
   * the generic definition is a type parameter or a plain type), a predicate
   * over a collection, then the string overloads.
   */
  function ContainsFix(c: Compilation, model: SemanticModel, m: MethodSymbol, args: seq<Argument>, methodName: string): (f: Fix)
    ensures FluentOutcome(f)
  {
    var ps := m.parameters;
    if |ps| == 2 && IsDefinition(ps[0].definitionType) then Swapped(args, methodName)
    else if |ps| == 2 && IsType(Some(OriginalDefinition(ps[1].paramType)), c, PredicateName) then InOrder(args, methodName)
    else StringFix(c, model, m, args, methodName)
  }

  /** Single: `ContainSingle()`, or `ContainSingle(predicate)` for the overload taking a Predicate<T>. */
  function SingleFix(c: Compilation, m: MethodSymbol, args: seq<Argument>): (f: Fix)
    ensures FluentOutcome(f)
    ensures |m.parameters| == 1 ==>
      (f.Fault? <==> |args| < 1) && (|args| >= 1 ==> IsFluentCall(f, args[0].expression, "ContainSingle", None, []))
    ensures |m.parameters| == 2 && IsType(Some(OriginalDefinition(m.parameters[1].definitionType)), c, PredicateName) ==>
      (f.Fault? <==> |args| < 2) && (|args| >= 2 ==> IsFluentCall(f, args[0].expression, "ContainSingle", None, [args[1].expression]))
    ensures |m.parameters| == 2 && !IsType(Some(OriginalDefinition(m.parameters[1].definitionType)), c, PredicateName) ==> f == NoChange
    ensures |m.parameters| !in {1, 2} ==> f == NoChange
  {
    var ps := m.parameters;
    if |ps| == 1 then OnFirst(args, "ContainSingle", None)
    else if |ps| == 2 && IsType(Some(OriginalDefinition(ps[1].definitionType)), c, PredicateName) then InOrder(args, "ContainSingle")
    else NoChange
  }

  /**
   * Both parameters are sequences (and the first is not a string): a sequence
   * comparison. It needs IEnumerable`1 to resolve, and a string first
   * parameter never qualifies, although System.String implements it.
   */
  function ComparesSequences(c: Compilation, ps: seq<Parameter>): (r: bool)
    requires |ps| == 2
    ensures ps[0].paramType.special == SystemString ==> !r
    ensures GetTypeByMetadataName(c, EnumerableName).None? ==> !r
    ensures r ==> forall k :: 0 <= k < 2 ==> Implements(Some(OriginalDefinition(ps[k].paramType)), GetTypeByMetadataName(c, EnumerableName))
  {
    ps[0].paramType.special != SystemString &&
    Implements(Some(OriginalDefinition(ps[0].paramType)), GetTypeByMetadataName(c, EnumerableName)) &&
    Implements(Some(OriginalDefinition(ps[1].paramType)), GetTypeByMetadataName(c, EnumerableName))
  }

  /**
   * Equal/NotEqual: Equal/NotEqual for two sequences, Be/NotBe for two values;
   * with a third parameter, rounding both sides to an int precision, a
   * tolerance (BeApproximately), or a DateTime window (BeCloseTo).
   */
  function EqualityFix(c: Compilation, m: MethodSymbol, args: seq<Argument>): (f: Fix)
    ensures FluentOutcome(f)
  {
    var equal := m.name == "Equal";
    var ps := m.parameters;
    if |ps| == 2 && ComparesSequences(c, ps) then Swapped(args, if equal then "Equal" else "NotEqual")
    else if |ps| == 2 then Swapped(args, if equal then "Be" else "NotBe")
    else if |ps| != 3 then NoChange
    else if ps[0].paramType.special in {SystemDouble, SystemDecimal} && ps[2].paramType.special == SystemInt32 then
      if |args| < 3 then Fault
      else FluentCall(MathRound(args[1].expression, args[2].expression), if equal then "Be" else "NotBe", None,
                      [MathRound(args[0].expression, args[2].expression)])
    else if ps[0].paramType.special in {SystemDouble, SystemDecimal, SystemSingle} &&
            ps[2].paramType.special in {SystemDouble, SystemDecimal, SystemSingle} then
      if |args| < 3 then Fault
      else FluentCall(args[1].expression, if equal then "BeApproximately" else "NotBeApproximately", None,
                      [args[0].expression, args[2].expression])
    else if ps[0].paramType.special == SystemDateTime then
      if |args| < 3 then Fault
      else FluentCall(args[1].expression, if equal then "BeCloseTo" else "NotBeCloseTo", None,
                      [args[0].expression, args[2].expression])
    else NoChange
  }

  /** IsAssignableFrom/IsType/IsNotType: `BeOfType<T>()` for the generic form, `BeOfType(type)` for the one taking a Type. */
  function TypeFix(m: MethodSymbol, args: seq<Argument>, methodName: string): (f: Fix)
    ensures FluentOutcome(f)
    ensures |m.parameters| == 1 ==> (f.Fault? <==> |args| < 1 || |m.typeArguments| < 1)
    ensures |m.parameters| == 1 && |args| >= 1 && |m.typeArguments| >= 1 ==>
      IsFluentCall(f, args[0].expression, methodName, Some(m.typeArguments[0]), [])
    ensures |m.parameters| == 2 ==>
      (f.Fault? <==> |args| < 2) && (|args| >= 2 ==> IsFluentCall(f, args[1].expression, methodName, None, [args[0].expression]))
    ensures |m.parameters| !in {1, 2} ==> f == NoChange
  {
    if |m.parameters| == 1 then
      if |args| < 1 || |m.typeArguments| < 1 then Fault else OnFirst(args, methodName, Some(m.typeArguments[0]))
    else if |m.parameters| == 2 then Swapped(args, methodName)
    else NoChange
  }

  /** InRange/NotInRange: `actual.Should().BeInRange(low, high)`. */
  function RangeFix(m: MethodSymbol, args: seq<Argument>, methodName: string): (f: Fix)
    ensures FluentOutcome(f)
  {
    if |m.parameters| != 3 then NoChange
    else if |args| < 3 then Fault
    else FluentCall(args[0].expression, methodName, None, [args[1].expression, args[2].expression])
  }

  /** Throws/ThrowsAny/ThrowsAsync/ThrowsAnyAsync with the delegate only: `delegate.Should().ThrowExactly<T>()` and so on. */
  function ThrowsFix(m: MethodSymbol, args: seq<Argument>, methodName: string): (f: Fix)
    ensures FluentOutcome(f)
  {
    if |m.parameters| != 1 then NoChange
    else if |args| < 1 || |m.typeArguments| < 1 then Fault
    else FluentCall(WrapLambda(args[0].expression, m.parameters[0].paramType), methodName, Some(m.typeArguments[0]), [])
  }

  /** The rule table: the method's name, then its overload, picks the rewrite. */
  function RuleFor(c: Compilation, model: SemanticModel, m: MethodSymbol, args: seq<Argument>): (f: Fix)
    ensures f.Replace? ==> f.replacement.NewExpression? && AsAssertion(f.replacement.expression).Some?
    ensures m.name !in {"True", "False"} ==> FluentOutcome(f)
  {
    var name := m.name;
    var n := |m.parameters|;
    if name == "True" || name == "False" then TrueOrFalse(args, name)
    else if name == "Null" then OnFirst(args, "BeNull", None)
    else if name == "NotNull" then OnFirst(args, "NotBeNull", None)
    else if name == "Collection" then
      if |args| < 1 then Fault else FluentCall(args[0].expression, "SatisfyRespectively", None, Expressions(args[1..]))
    else if name == "Contains" || name == "DoesNotContain" then ContainsFix(c, model, m, args, StringMethod(name).value)
    else if name == "Empty" then OnFirst(args, "BeEmpty", None)
    else if name == "NotEmpty" then OnFirst(args, "NotBeEmpty", None)
    else if name == "Single" then SingleFix(c, m, args)
    else if name == "Equal" || name == "NotEqual" then EqualityFix(c, m, args)
    else if name == "Same" then Swapped(args, "BeSameAs")
    else if name == "NotSame" then Swapped(args, "NotBeSameAs")
    else if TypeMethod(name).Some? then TypeFix(m, args, TypeMethod(name).value)
    else if name == "StartsWith" || name == "EndsWith" then StringFix(c, model, m, args, StringMethod(name).value)
    else if name == "Matches" then if n == 2 then Swapped(args, "MatchRegex") else NoChange
    else if name == "DoesNotMatch" then if n == 2 then Swapped(args, "NotMatchRegex") else NoChange
    else if name == "InRange" then RangeFix(m, args, "BeInRange")
    else if name == "NotInRange" then RangeFix(m, args, "NotBeInRange")
    else if name == "Subset" then if n == 2 then Swapped(args, "BeSubsetOf") else NoChange
    else if name == "Superset" then if n == 2 then InOrder(args, "BeSubsetOf") else NoChange
    else if ThrowsMethod(name).Some? then ThrowsFix(m, args, ThrowsMethod(name).value)
    else NoChange
  }

  // ---------------------------------------------------------------------
  // The fix

  /** Rewrite: the node must be an invocation (the cast throws otherwise); an unresolved symbol leaves the document alone. */
  function Rewrite(node: Expr, model: SemanticModel, c: Compilation): (f: Fix)
    ensures !node.Invocation? ==> f == Fault
    ensures node.Invocation? && GetSymbol(model, node).None? ==> f == NoChange
    ensures f.Replace? ==> f.replacement.NewExpression? && AsAssertion(f.replacement.expression).Some?
  {
    if !node.Invocation? then Fault
    else
      var symbol := GetSymbol(model, node);
      if symbol.None? then NoChange else RuleFor(c, model, symbol.value, node.arguments)
  }

  /** The document after the fix: the rewritten node, and `using FluentAssertions;` added when it is not there yet. */
  function FixDocument(node: Expr, model: SemanticModel, c: Compilation, usings: seq<string>): (d: FixedDocument)
    ensures d.Changed? ==> d.replacement.NewExpression? && FluentAssertionsNamespace in d.usings && AsAssertion(d.replacement.expression).Some?
    ensures d.Changed? ==> (d.usings == usings <==> FluentAssertionsNamespace in usings)
    ensures d.Changed? ==> forall u :: u in d.usings ==> u in usings || u == FluentAssertionsNamespace
    ensures d.Unchanged? <==> Rewrite(node, model, c).NoChange?
  {
    Apply(Rewrite(node, model, c), usings, true)
  }

  /** RegisterCodeFixesAsync: no fix is offered when no node is found at the diagnostic's span. */
  function CodeFix(nodeAtSpan: Option<Expr>, model: SemanticModel, c: Compilation, usings: seq<string>): (d: Option<FixedDocument>)
    ensures d.None? <==> nodeAtSpan.None?
  {
    if nodeAtSpan.None? then None else Some(FixDocument(nodeAtSpan.value, model, c, usings))
  }

  // ---------------------------------------------------------------------
  // Properties

  /** The node is a call resolved to `m`. */
  predicate Calls(node: Expr, model: SemanticModel, m: MethodSymbol)
  {
    node.Invocation? && GetSymbol(model, node) == Some(m)
  }

  /** True/False: the message is carried over, label and all, only when the call has exactly two arguments. */
  lemma TrueFalseMessage(node: Expr, model: SemanticModel, c: Compilation, m: MethodSymbol)
    requires Calls(node, model, m) && m.name in {"True", "False"} && |node.arguments| >= 1
    ensures var f := Rewrite(node, model, c);
            var args := node.arguments;
            f.Replace? && f.replacement.NewExpression? &&
            AsAssertion(f.replacement.expression) ==
              Some(Assertion(args[0].expression, if m.name == "True" then "BeTrue" else "BeFalse", None,
                             if |args| == 2 then [args[1]] else []))
  {
    assert "Be" + "True" == "BeTrue" && "Be" + "False" == "BeFalse";
  }

  /** Equal/NotEqual on two parameters: a sequence comparison for two sequences, value equality otherwise. */
  lemma EqualTwoParameters(node: Expr, model: SemanticModel, c: Compilation, m: MethodSymbol)
    requires Calls(node, model, m) && m.name in {"Equal", "NotEqual"} && |m.parameters| == 2 && |node.arguments| >= 2
    ensures var args := node.arguments;
            var sequences := ComparesSequences(c, m.parameters);
            var methodName := if m.name == "Equal" then (if sequences then "Equal" else "Be")
                              else (if sequences then "NotEqual" else "NotBe");
            IsFluentCall(Rewrite(node, model, c), args[1].expression, methodName, None, [args[0].expression])
  {
  }

  /** Equal/NotEqual with an int precision rounds both sides to that same precision with System.Math.Round. */
  lemma EqualWithPrecision(node: Expr, model: SemanticModel, c: Compilation, m: MethodSymbol)
    requires Calls(node, model, m) && m.name in {"Equal", "NotEqual"} && |m.parameters| == 3 && |node.arguments| >= 3
    requires m.parameters[0].paramType.special in {SystemDouble, SystemDecimal}
    requires m.parameters[2].paramType.special == SystemInt32
    ensures var args := node.arguments;
            var f := Rewrite(node, model, c);
            var a := AsAssertion(f.replacement.expression).value;
            f.Replace? && a.methodName == (if m.name == "Equal" then "Be" else "NotBe") && |a.arguments| == 1 &&
            AsMathRound(a.subject) == Some((args[1].expression, args[2].expression)) &&
            AsMathRound(a.arguments[0].expression) == Some((args[0].expression, args[2].expression))
  {
  }

  /** Equal/NotEqual with a floating-point tolerance becomes BeApproximately(expected, tolerance). */
  lemma EqualWithTolerance(node: Expr, model: SemanticModel, c: Compilation, m: MethodSymbol)
    requires Calls(node, model, m) && m.name in {"Equal", "NotEqual"} && |m.parameters| == 3 && |node.arguments| >= 3
    requires m.parameters[0].paramType.special in {SystemDouble, SystemDecimal, SystemSingle}
    requires m.parameters[2].paramType.special in {SystemDouble, SystemDecimal, SystemSingle}
    ensures var args := node.arguments;
            IsFluentCall(Rewrite(node, model, c), args[1].expression,
                         if m.name == "Equal" then "BeApproximately" else "NotBeApproximately", None,
                         [args[0].expression, args[2].expression])
  {
  }

  /** Equal/NotEqual on DateTime with a third argument becomes BeCloseTo(expected, precision). */
  lemma EqualWithinWindow(node: Expr, model: SemanticModel, c: Compilation, m: MethodSymbol)
    requires Calls(node, model, m) && m.name in {"Equal", "NotEqual"} && |m.parameters| == 3 && |node.arguments| >= 3
    requires m.parameters[0].paramType.special == SystemDateTime
    ensures var args := node.arguments;
            IsFluentCall(Rewrite(node, model, c), args[1].expression,
                         if m.name == "Equal" then "BeCloseTo" else "NotBeCloseTo", None,
                         [args[0].expression, args[2].expression])
  {
  }

  /** Equal/NotEqual with three parameters of any other types (a comparer, say) is left alone. */
  lemma EqualOtherOverloadUnchanged(node: Expr, model: SemanticModel, c: Compilation, m: MethodSymbol)
    requires Calls(node, model, m) && m.name in {"Equal", "NotEqual"} && |m.parameters| == 3
    requires m.parameters[0].paramType.special !in {SystemDouble, SystemDecimal, SystemSingle, SystemDateTime}
    ensures Rewrite(node, model, c) == NoChange
  {
  }

  /** Subset(expected, actual) and Superset(expected, actual) both become BeSubsetOf, with the roles of the two sets exchanged. */
  lemma SubsetAndSuperset(node: Expr, model: SemanticModel, c: Compilation, m: MethodSymbol)
    requires Calls(node, model, m) && m.name in {"Subset", "Superset"} && |m.parameters| == 2 && |node.arguments| >= 2
    ensures var args := node.arguments;
            var subset := if m.name == "Subset" then args[1] else args[0];
            var superset := if m.name == "Subset" then args[0] else args[1];
            IsFluentCall(Rewrite(node, model, c), subset.expression, "BeSubsetOf", None, [superset.expression])
  {
  }

  /** InRange(actual, low, high) becomes `actual.Should().BeInRange(low, high)`. */
  lemma RangeRule(node: Expr, model: SemanticModel, c: Compilation, m: MethodSymbol)
    requires Calls(node, model, m) && m.name in {"InRange", "NotInRange"} && |m.parameters| == 3 && |node.arguments| >= 3
    ensures var args := node.arguments;
            IsFluentCall(Rewrite(node, model, c), args[0].expression,
                         if m.name == "InRange" then "BeInRange" else "NotBeInRange", None,
                         [args[1].expression, args[2].expression])
  {
  }

  /** The string assertions taking a StringComparison are rewritten only for `StringComparison.Ordinal`, which is what FluentAssertions compares with. */
  lemma StringComparisonRule(node: Expr, model: SemanticModel, c: Compilation, m: MethodSymbol)
    requires Calls(node, model, m) && StringMethod(m.name).Some? && |m.parameters| == 3 && |node.arguments| >= 3
    ensures var args := node.arguments;
            var f := Rewrite(node, model, c);
            (IsStringComparisonOrdinal(args[2].expression, model, c) ==>
               IsFluentCall(f, args[1].expression, StringMethod(m.name).value, None, [args[0].expression])) &&
            (!IsStringComparisonOrdinal(args[2].expression, model, c) ==> f == NoChange)
  {
  }

  /** Contains/DoesNotContain of an item in a collection: `collection.Should().Contain(item)`. */
  lemma ContainsItem(node: Expr, model: SemanticModel, c: Compilation, m: MethodSymbol)
    requires Calls(node, model, m) && m.name in {"Contains", "DoesNotContain"} && |m.parameters| == 2 && |node.arguments| >= 2
    requires IsDefinition(m.parameters[0].definitionType)
    ensures var args := node.arguments;
            IsFluentCall(Rewrite(node, model, c), args[1].expression,
                         if m.name == "Contains" then "Contain" else "NotContain", None, [args[0].expression])
  {
  }

  /** Contains/DoesNotContain(collection, predicate): `collection.Should().Contain(predicate)`. */
  lemma ContainsMatching(node: Expr, model: SemanticModel, c: Compilation, m: MethodSymbol)
    requires Calls(node, model, m) && m.name in {"Contains", "DoesNotContain"} && |m.parameters| == 2 && |node.arguments| >= 2
    requires !IsDefinition(m.parameters[0].definitionType)
    requires IsType(Some(OriginalDefinition(m.parameters[1].paramType)), c, PredicateName)
    ensures var args := node.arguments;
            IsFluentCall(Rewrite(node, model, c), args[0].expression,
                         if m.name == "Contains" then "Contain" else "NotContain", None, [args[1].expression])
  {
  }

  /**
   * Throws<T>/ThrowsAny<T>/ThrowsAsync<T>/ThrowsAnyAsync<T> map to
   * ThrowExactly/Throw/ThrowExactlyAsync/ThrowAsync with the same exception
   * type; a lambda subject is first made a delegate of the parameter's type.
   */
  lemma ThrowsRule(node: Expr, model: SemanticModel, c: Compilation, m: MethodSymbol)
    requires Calls(node, model, m) && ThrowsMethod(m.name).Some? && |m.parameters| == 1
    requires |node.arguments| >= 1 && |m.typeArguments| >= 1
    ensures var args := node.arguments;
            var methodName := if m.name == "Throws" then "ThrowExactly"
                              else if m.name == "ThrowsAny" then "Throw"
                              else if m.name == "ThrowsAsync" then "ThrowExactlyAsync"
                              else "ThrowAsync";
            var f := Rewrite(node, model, c);
            var a := AsAssertion(f.replacement.expression).value;
            IsFluentCall(f, a.subject, methodName, Some(m.typeArguments[0]), []) &&
            (args[0].expression.AnonymousFunction? ==>
               a.subject == ObjectCreation(m.parameters[0].paramType, [Argument(None, args[0].expression)])) &&
            (!args[0].expression.AnonymousFunction? ==> a.subject == args[0].expression)
  {
  }

  /** Null/NotNull/Empty/NotEmpty assert on the first argument and keep no other argument. */
  lemma SubjectOnlyRules(node: Expr, model: SemanticModel, c: Compilation, m: MethodSymbol, fluentName: string)
    requires Calls(node, model, m)
    requires (m.name, fluentName) in {("Null", "BeNull"), ("NotNull", "NotBeNull"), ("Empty", "BeEmpty"), ("NotEmpty", "NotBeEmpty")}
    ensures var args := node.arguments;
            var f := Rewrite(node, model, c);
            (f.Fault? <==> |args| < 1) && (|args| >= 1 ==> IsFluentCall(f, args[0].expression, fluentName, None, []))
  {
  }

  /** Collection(collection, inspectors...) becomes `collection.Should().SatisfyRespectively(inspectors...)`. */
  lemma CollectionRule(node: Expr, model: SemanticModel, c: Compilation, m: MethodSymbol)
    requires Calls(node, model, m) && m.name == "Collection" && |node.arguments| >= 1
    ensures var args := node.arguments;
            IsFluentCall(Rewrite(node, model, c), args[0].expression, "SatisfyRespectively", None, Expressions(args[1..]))
  {
  }

  /** Single(collection) becomes ContainSingle(); Single(collection, predicate) becomes ContainSingle(predicate); other overloads are left alone. */
  lemma SingleRule(node: Expr, model: SemanticModel, c: Compilation, m: MethodSymbol)
    requires Calls(node, model, m) && m.name == "Single"
    ensures var args := node.arguments;
            var f := Rewrite(node, model, c);
            var ps := m.parameters;
            var takesPredicate := |ps| == 2 && IsType(Some(OriginalDefinition(ps[1].definitionType)), c, PredicateName);
            (|ps| == 1 && |args| >= 1 ==> IsFluentCall(f, args[0].expression, "ContainSingle", None, [])) &&
            (takesPredicate && |args| >= 2 ==> IsFluentCall(f, args[0].expression, "ContainSingle", None, [args[1].expression])) &&
            (|ps| != 1 && !takesPredicate ==> f == NoChange)
  {
  }

  /**
   * IsAssignableFrom/IsType/IsNotType become BeAssignableTo/BeOfType/NotBeOfType:
   * the generic form keeps its type argument, the form taking a Type swaps its operands.
   */
  lemma TypeRule(node: Expr, model: SemanticModel, c: Compilation, m: MethodSymbol, fluentName: string)
    requires Calls(node, model, m)
    requires (m.name, fluentName) in {("IsAssignableFrom", "BeAssignableTo"), ("IsType", "BeOfType"), ("IsNotType", "NotBeOfType")}
    ensures var args := node.arguments;
            var f := Rewrite(node, model, c);
            (|m.parameters| == 1 && |args| >= 1 && |m.typeArguments| >= 1 ==>
               IsFluentCall(f, args[0].expression, fluentName, Some(m.typeArguments[0]), [])) &&
            (|m.parameters| == 2 && |args| >= 2 ==> IsFluentCall(f, args[1].expression, fluentName, None, [args[0].expression])) &&
            (|m.parameters| !in {1, 2} ==> f == NoChange)
  {
  }

  /** Same/NotSame, and Matches/DoesNotMatch on two parameters, swap their operands. */
  lemma SwappedPairRules(node: Expr, model: SemanticModel, c: Compilation, m: MethodSymbol, fluentName: string)
    requires Calls(node, model, m)
    requires (m.name, fluentName) in {("Same", "BeSameAs"), ("NotSame", "NotBeSameAs"), ("Matches", "MatchRegex"), ("DoesNotMatch", "NotMatchRegex")}
    requires m.name in {"Matches", "DoesNotMatch"} ==> |m.parameters| == 2
    ensures var args := node.arguments;
            var f := Rewrite(node, model, c);
            (f.Fault? <==> |args| < 2) && (|args| >= 2 ==> IsFluentCall(f, args[1].expression, fluentName, None, [args[0].expression]))
  {
  }

  /** StartsWith(expected, actual) and EndsWith(expected, actual) become `actual.Should().StartWith(expected)` and `EndWith`. */
  lemma StartsEndsWithTwoParameters(node: Expr, model: SemanticModel, c: Compilation, m: MethodSymbol)
    requires Calls(node, model, m) && m.name in {"StartsWith", "EndsWith"} && |m.parameters| == 2 && |node.arguments| >= 2
    ensures var args := node.arguments;
            IsFluentCall(Rewrite(node, model, c), args[1].expression, if m.name == "StartsWith" then "StartWith" else "EndWith",
                         None, [args[0].expression])
  {
  }

  /** Only the listed xUnit assertions are rewritten; any other call is left alone. */
  lemma UnknownAssertionUnchanged(node: Expr, model: SemanticModel, c: Compilation, m: MethodSymbol, usings: seq<string>)
    requires Calls(node, model, m)
    requires m.name !in {"True", "False", "Null", "NotNull", "Collection", "Contains", "DoesNotContain", "Empty", "NotEmpty",
                         "Single", "Equal", "NotEqual", "Same", "NotSame", "IsAssignableFrom", "IsType", "IsNotType",
                         "StartsWith", "EndsWith", "Matches", "DoesNotMatch", "InRange", "NotInRange", "Subset", "Superset",
                         "Throws", "ThrowsAny", "ThrowsAsync", "ThrowsAnyAsync"}
    ensures FixDocument(node, model, c, usings) == Unchanged
  {
  }

  /** Every argument re-created by a rule other than True/False loses its `name:` label. */
  lemma LabelsDropped(node: Expr, model: SemanticModel, c: Compilation, m: MethodSymbol)
    requires Calls(node, model, m) && m.name !in {"True", "False"}
    ensures var f := Rewrite(node, model, c);
            f.Replace? ==> forall i :: 0 <= i < |AsAssertion(f.replacement.expression).value.arguments| ==>
                             AsAssertion(f.replacement.expression).value.arguments[i].nameColon.None?
  {
  }
}
