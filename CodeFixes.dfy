/** What a code fix does to a document. */
module CodeFixes {
  import opened Wrappers
  import Symbols
  import opened Syntax

  /** The node a fix puts in place of the one it fixes: a new expression, or `return;` for the enclosing statement. */
  datatype Replacement = NewExpression(expression: Expr) | ReturnStatement

  /**
   * The decision of a rewrite: replace the node, leave the document as it was,
   * or fail with an exception (an argument index past the end of the list, a
   * failed cast or a null passed to a syntax factory) — the host then offers
   * nothing.
   */
  datatype Fix = Replace(replacement: Replacement) | NoChange | Fault

  /** The document after a fix: its new node and its using directives. */
  datatype FixedDocument = Changed(replacement: Replacement, usings: seq<string>) | Unchanged | Faulted

  /**
   * The fix puts in place the FluentAssertions call `(subject).Should().M<T>(...)`
   * whose arguments are `expected`, in order, each without a `name:` label.
   */
  predicate IsFluentCall(f: Fix, subject: Expr, methodName: string, typeArgument: Option<Symbols.TypeSymbol>, expected: seq<Expr>)
  {
    f.Replace? && f.replacement.NewExpression? &&
    var a := AsAssertion(f.replacement.expression);
    a.Some? && a.value.subject == subject && a.value.methodName == methodName && a.value.typeArgument == typeArgument &&
    |a.value.arguments| == |expected| &&
    forall i :: 0 <= i < |expected| ==> a.value.arguments[i] == Argument(None, expected[i])
  }

  /** A replacement is a FluentAssertions call `(s).Should().M(args)` whose arguments carry no `name:` label. */
  predicate FluentOutcome(f: Fix)
  {
    f.Replace? ==>
      f.replacement.NewExpression? &&
      var a := AsAssertion(f.replacement.expression);
      a.Some? && forall i :: 0 <= i < |a.value.arguments| ==> a.value.arguments[i].nameColon.None?
  }

  /** `(subject).Should().M<T>(e0, e1, ...)`, each argument created without a label. */
  function FluentCall(subject: Expr, methodName: string, typeArgument: Option<Symbols.TypeSymbol>, expected: seq<Expr>): (f: Fix)
    ensures IsFluentCall(f, subject, methodName, typeArgument, expected)
    ensures FluentOutcome(f)
  {
    Replace(NewExpression(ShouldCall(subject, methodName, typeArgument, Positional(expected))))
  }

  const FluentAssertionsNamespace := "FluentAssertions"

  /** Adds `using ns;` unless a using directive with that name is already there. */
  function AddUsing(usings: seq<string>, ns: string): (r: seq<string>)
    ensures ns in r
    ensures forall u :: u in usings ==> u in r
    ensures forall u :: u in r ==> u in usings || u == ns
    ensures ns in usings ==> r == usings
  {
    if ns in usings then usings else usings + [ns]
  }

  /** Applies a rewrite's decision to a document whose using directives are `usings`. */
  function Apply(fix: Fix, usings: seq<string>, addImports: bool): (d: FixedDocument)
    ensures fix.NoChange? <==> d.Unchanged?
    ensures fix.Fault? <==> d.Faulted?
    ensures d.Changed? ==> d.replacement == fix.replacement
    ensures d.Changed? ==> (d.usings == usings <==> !addImports || FluentAssertionsNamespace in usings)
  {
    match fix
    case Replace(r) => Changed(r, if addImports then AddUsing(usings, FluentAssertionsNamespace) else usings)
    case NoChange => Unchanged
    case Fault => Faulted
  }
}
