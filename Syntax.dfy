/**
 * The C# syntax the code fixes read and build. An expression taken from the
 * user's code is carried through a rewrite unchanged, so its inner shape is not
 * modelled (`Source`); the shapes the fixes build are.
 */
module Syntax {
  import opened Wrappers
  import opened Symbols

  datatype Expr =
    | Source(text: string)
    | AnonymousFunction(text: string)
    | NumericLiteral(value: int)
    | PredefinedType(keyword: string)
    | TypeName(symbol: TypeSymbol)
    | Identifier(name: string)
    | MemberAccess(receiver: Expr, member: string, typeArgument: Option<TypeSymbol>)
    | Invocation(callee: Expr, arguments: seq<Argument>)
    | ObjectCreation(createdType: TypeSymbol, creationArguments: seq<Argument>)
    | Parenthesized(inner: Expr)

  /** An argument with its optional `name:` label. */
  datatype Argument = Argument(nameColon: Option<string>, expression: Expr)

  function Expressions(args: seq<Argument>): (es: seq<Expr>)
    ensures |es| == |args|
    ensures forall i :: 0 <= i < |args| ==> es[i] == args[i].expression
  {
    if args == [] then [] else [args[0].expression] + Expressions(args[1..])
  }

  lemma ExpressionsCons(a: Argument, rest: seq<Argument>)
    ensures Expressions([a] + rest) == [a.expression] + Expressions(rest)
  {
    assert ([a] + rest)[1..] == rest;
  }

  /** SyntaxFactory.Argument(e) for each expression: no labels. */
  function Positional(es: seq<Expr>): (args: seq<Argument>)
    ensures |args| == |es|
    ensures forall i :: 0 <= i < |es| ==> args[i] == Argument(None, es[i])
  {
    if es == [] then [] else [Argument(None, es[0])] + Positional(es[1..])
  }

  /** Re-wrapping every argument as Argument(arg.Expression) drops its label and keeps its expression. */
  function Unlabelled(args: seq<Argument>): seq<Argument>
  {
    Positional(Expressions(args))
  }

  /** `(subject).Should()`: InvokeShould parenthesizes the subject (the simplifier later drops redundant parentheses). */
  function Should(subject: Expr): Expr
  {
    Invocation(MemberAccess(Parenthesized(subject), "Should", None), [])
  }

  /** `(subject).Should().method<typeArgument>(arguments)` */
  function ShouldCall(subject: Expr, methodName: string, typeArgument: Option<TypeSymbol>, arguments: seq<Argument>): Expr
  {
    Invocation(MemberAccess(Should(subject), methodName, typeArgument), arguments)
  }

  /** The parts of a FluentAssertions call `(subject).Should().method<T>(arguments)`. */
  datatype Assertion = Assertion(subject: Expr, methodName: string, typeArgument: Option<TypeSymbol>, arguments: seq<Argument>)

  /** Reads an expression back as a FluentAssertions call, if it is one. */
  function AsAssertion(e: Expr): Option<Assertion>
  {
    match e
    case Invocation(MemberAccess(Invocation(MemberAccess(Parenthesized(s), "Should", None), shouldArgs), m, t), args) =>
      if shouldArgs == [] then Some(Assertion(s, m, t, args)) else None
    case _ => None
  }

  lemma AssertionRoundTrip(subject: Expr, methodName: string, typeArgument: Option<TypeSymbol>, arguments: seq<Argument>)
    ensures AsAssertion(ShouldCall(subject, methodName, typeArgument, arguments)) == Some(Assertion(subject, methodName, typeArgument, arguments))
  {
  }
}
