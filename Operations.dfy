/**
 * The part of Roslyn's IOperation model the rules look at. Every operation
 * knows the syntax it was bound from, its type (null for typeless operations)
 * and its compile-time constant value, if it has one.
 */
module Operations {
  import opened Wrappers
  import opened Symbols
  import opened Syntax

  datatype ConstantValue =
    | NullConstant
    | BoolConstant(boolValue: bool)
    | StringConstant(stringValue: string)
    | IntConstant(intValue: int)
    | OtherConstant

  datatype Operation = Operation(syntax: Expr, resultType: Option<TypeSymbol>, constant: Option<ConstantValue>, kind: OperationKind)

  datatype OperationKind =
    | MemberReferenceOp(memberName: string, memberContainingType: TypeSymbol, instance: Option<Operation>)
    | InvocationOp(targetMethod: MethodSymbol, receiver: Option<Operation>, arguments: seq<Operation>)
    | ConversionOp(isImplicit: bool, operand: Operation)
    | TypeOfOp(typeOperand: TypeSymbol)
    | DynamicMemberReferenceOp(dynamicContainingType: Option<TypeSymbol>)
    | DynamicInvocationOp(dynamicTarget: Operation, dynamicArguments: seq<Operation>)
    | ThrowOp(exception: Option<Operation>)
    | OtherOp

  /** What the semantic model answers for a piece of syntax: GetOperation and GetSymbolInfo(...).Symbol. */
  datatype SemanticModel = SemanticModel(operations: map<Expr, Operation>, symbols: map<Expr, MethodSymbol>)

  function GetOperation(m: SemanticModel, e: Expr): Option<Operation>
  {
    if e in m.operations then Some(m.operations[e]) else None
  }

  function GetSymbol(m: SemanticModel, e: Expr): Option<MethodSymbol>
  {
    if e in m.symbols then Some(m.symbols[e]) else None
  }
}
