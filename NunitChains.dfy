/**
 * The constraint-chain matchers of the NUnit fix. A constraint such as
 * `Is.Not.Null` or `Has.Count.EqualTo(x)` binds to a chain of operations whose
 * outermost link is the last name; the matchers walk it from the last name
 * back to the first, stepping to each link's instance, and the first name's
 * link must be a member of the expected root type (`Is`, `Has`, `Does`, ...).
 */
module NunitChains {
  import opened Wrappers
  import opened Symbols
  import opened Syntax
  import opened Operations

  // ---------------------------------------------------------------------
  // Is(root, names): member references only

  /** Every link, from the last name back to the first, is a member reference of that name, and the first is a member of `root`. */
  predicate ChainIs(op: Operation, root: Option<TypeSymbol>, names: seq<string>)
    decreases |names|
  {
    |names| > 0 &&
    op.kind.MemberReferenceOp? && op.kind.memberName == names[|names| - 1] &&
    if |names| == 1 then Some(op.kind.memberContainingType) == root
    else op.kind.instance.Some? && ChainIs(op.kind.instance.value, root, names[..|names| - 1])
  }

  method Is(op: Operation, root: Option<TypeSymbol>, names: seq<string>) returns (r: bool)
    ensures r == ChainIs(op, root, names)
  {
    var current := op;
    var i := |names| - 1;
    assert names[..i + 1] == names;
    while i >= 0
      invariant -1 <= i < |names|
      invariant ChainIs(op, root, names) == (i >= 0 && ChainIs(current, root, names[..i + 1]))
      decreases i + 1
    {
      if !current.kind.MemberReferenceOp? || current.kind.memberName != names[i] {
        return false;
      }
      if i == 0 {
        return Some(current.kind.memberContainingType) == root;
      }
      if current.kind.instance.None? {
        break;
      }
      assert names[..i + 1][..i] == names[..i];
      current := current.kind.instance.value;
      i := i - 1;
    }
    return false;
  }

  /** The operations reached from `op` by following the instances of member references. */
  function Links(op: Operation): (links: seq<Operation>)
    ensures |links| >= 1 && links[0] == op
    decreases op
  {
    if op.kind.MemberReferenceOp? && op.kind.instance.Some? then [op] + Links(op.kind.instance.value) else [op]
  }

  /** The first |names| links are member references carrying the names, the last name first. */
  predicate NamedLinks(links: seq<Operation>, names: seq<string>)
    requires |names| <= |links|
  {
    forall j :: 0 <= j < |names| ==> links[j].kind.MemberReferenceOp? && links[j].kind.memberName == names[|names| - 1 - j]
  }

  lemma NamedLinksCons(op: Operation, tail: seq<Operation>, names: seq<string>)
    requires 1 < |names| <= 1 + |tail|
    ensures NamedLinks([op] + tail, names) <==>
      op.kind.MemberReferenceOp? && op.kind.memberName == names[|names| - 1] && NamedLinks(tail, names[..|names| - 1])
  {
    var n := |names|;
    var links := [op] + tail;
    var rest := names[..n - 1];
    if NamedLinks(links, names) {
      forall j | 0 <= j < n - 1
        ensures tail[j].kind.MemberReferenceOp? && tail[j].kind.memberName == rest[n - 2 - j]
      {
        assert links[j + 1] == tail[j];
      }
      assert links[0] == op;
    }
    if op.kind.MemberReferenceOp? && op.kind.memberName == names[n - 1] && NamedLinks(tail, rest) {
      forall j | 0 <= j < n
        ensures links[j].kind.MemberReferenceOp? && links[j].kind.memberName == names[n - 1 - j]
      {
        if j > 0 {
          assert links[j] == tail[j - 1];
        }
      }
    }
  }

  /** The matched chain, read link by link: the j-th link carries the j-th name from the end, and a chain that ends early fails. */
  lemma {:induction false} ChainIsOnLinks(op: Operation, root: Option<TypeSymbol>, names: seq<string>)
    ensures ChainIs(op, root, names) <==>
      var links := Links(op);
      1 <= |names| <= |links| && NamedLinks(links, names) &&
      Some(links[|names| - 1].kind.memberContainingType) == root
    decreases |names|
  {
    var n := |names|;
    var links := Links(op);
    if n == 1 {
      assert links[0] == op;
    } else if n > 1 && op.kind.MemberReferenceOp? && op.kind.instance.Some? {
      var inner := op.kind.instance.value;
      ChainIsOnLinks(inner, root, names[..n - 1]);
      assert links == [op] + Links(inner);
      if n <= |links| {
        NamedLinksCons(op, Links(inner), names);
        assert links[n - 1] == Links(inner)[n - 2];
      }
    }
  }

  // ---------------------------------------------------------------------
  // IsMethod and IsGenericMethod: at most one invocation link

  /** What an invocation link yields: its single argument's syntax (IsMethod) or its first type argument (IsGenericMethod). */
  datatype Extraction = ArgumentSyntax | FirstTypeArgument

  datatype Extracted = ExtractedSyntax(syntax: Expr) | ExtractedType(typeArgument: TypeSymbol)

  /** The outcome of a chain match: no match, or a match with what the invocation link yielded (None when there was none). */
  datatype ChainMatch = NoMatch | Match(extracted: Option<Extracted>)

  /** What an invocation link yields; None when it has not exactly one argument (IsMethod) or no type argument (IsGenericMethod). */
  function Extract(extraction: Extraction, target: MethodSymbol, arguments: seq<Operation>): (e: Option<Extracted>)
    ensures extraction == ArgumentSyntax ==> (e.Some? <==> |arguments| == 1) && (e.Some? ==> e.value == ExtractedSyntax(arguments[0].syntax))
    ensures extraction == FirstTypeArgument ==> (e.Some? <==> |target.typeArguments| > 0) && (e.Some? ==> e.value == ExtractedType(target.typeArguments[0]))
  {
    match extraction
    case ArgumentSyntax => if |arguments| == 1 then Some(ExtractedSyntax(arguments[0].syntax)) else None
    case FirstTypeArgument => if |target.typeArguments| > 0 then Some(ExtractedType(target.typeArguments[0])) else None
  }

  /**
   * The chain from `cur` matched against `names`, having already extracted
   * `found` from a later link. An invocation link is accepted only while
   * nothing was extracted yet; a null link fails.
   */
  function Chain(cur: Option<Operation>, root: Option<TypeSymbol>, names: seq<string>, extraction: Extraction, found: Option<Extracted>): ChainMatch
    decreases |names|
  {
    if |names| == 0 || cur.None? then NoMatch
    else
      var op := cur.value;
      var last := |names| - 1;
      if op.kind.InvocationOp? then
        var e := Extract(extraction, op.kind.targetMethod, op.kind.arguments);
        if found.Some? || e.None? || op.kind.targetMethod.name != names[last] then NoMatch
        else if last == 0 then (if Some(op.kind.targetMethod.containingType) == root then Match(e) else NoMatch)
        else Chain(op.kind.receiver, root, names[..last], extraction, e)
      else if op.kind.MemberReferenceOp? then
        if op.kind.memberName != names[last] then NoMatch
        else if last == 0 then (if Some(op.kind.memberContainingType) == root then Match(found) else NoMatch)
        else if op.kind.instance.None? then NoMatch
        else Chain(op.kind.instance, root, names[..last], extraction, found)
      else NoMatch
  }

  function SyntaxFound(argument: Option<Expr>): Option<Extracted>
  {
    if argument.Some? then Some(ExtractedSyntax(argument.value)) else None
  }

  function TypeFound(typeArgument: Option<TypeSymbol>): Option<Extracted>
  {
    if typeArgument.Some? then Some(ExtractedType(typeArgument.value)) else None
  }

  /** IsMethod(out argument, root, names); `argument` is null (None) when no invocation link was met. */
  method IsMethod(op: Operation, root: Option<TypeSymbol>, names: seq<string>) returns (matched: bool, argument: Option<Expr>)
    ensures matched <==> Chain(Some(op), root, names, ArgumentSyntax, None).Match?
    ensures matched ==> Chain(Some(op), root, names, ArgumentSyntax, None) == Match(SyntaxFound(argument))
  {
    argument := None;
    var current := Some(op);
    var i := |names| - 1;
    assert names[..i + 1] == names;
    while i >= 0
      invariant -1 <= i < |names|
      invariant Chain(Some(op), root, names, ArgumentSyntax, None) ==
        (if i >= 0 then Chain(current, root, names[..i + 1], ArgumentSyntax, SyntaxFound(argument)) else NoMatch)
      decreases i + 1
    {
      assert names[..i + 1][..i] == names[..i];
      if current.Some? && current.value.kind.InvocationOp? {
        var invocation := current.value.kind;
        if argument.Some? || |invocation.arguments| != 1 {
          return false, argument;
        }
        if invocation.targetMethod.name != names[i] {
          return false, argument;
        }
        argument := Some(invocation.arguments[0].syntax);
        if i == 0 {
          return Some(invocation.targetMethod.containingType) == root, argument;
        }
        current := invocation.receiver;
      } else {
        if current.None? || !current.value.kind.MemberReferenceOp? {
          return false, argument;
        }
        var member := current.value.kind;
        if member.memberName != names[i] {
          return false, argument;
        }
        if i == 0 {
          return Some(member.memberContainingType) == root, argument;
        }
        if member.instance.None? {
          break;
        }
        current := member.instance;
      }
      i := i - 1;
    }
    return false, argument;
  }

  /** IsGenericMethod(out typeArgument, root, names); `typeArgument` is null (None) when no invocation link was met. */
  method IsGenericMethod(op: Operation, root: Option<TypeSymbol>, names: seq<string>) returns (matched: bool, typeArgument: Option<TypeSymbol>)
    ensures matched <==> Chain(Some(op), root, names, FirstTypeArgument, None).Match?
    ensures matched ==> Chain(Some(op), root, names, FirstTypeArgument, None) == Match(TypeFound(typeArgument))
  {
    typeArgument := None;
    var current := Some(op);
    var i := |names| - 1;
    assert names[..i + 1] == names;
    while i >= 0
      invariant -1 <= i < |names|
      invariant Chain(Some(op), root, names, FirstTypeArgument, None) ==
        (if i >= 0 then Chain(current, root, names[..i + 1], FirstTypeArgument, TypeFound(typeArgument)) else NoMatch)
      decreases i + 1
    {
      assert names[..i + 1][..i] == names[..i];
      if current.Some? && current.value.kind.InvocationOp? {
        var invocation := current.value.kind;
        if typeArgument.Some? || |invocation.targetMethod.typeArguments| == 0 {
          return false, typeArgument;
        }
        if invocation.targetMethod.name != names[i] {
          return false, typeArgument;
        }
        typeArgument := Some(invocation.targetMethod.typeArguments[0]);
        if i == 0 {
          return Some(invocation.targetMethod.containingType) == root, typeArgument;
        }
        current := invocation.receiver;
      } else {
        if current.None? || !current.value.kind.MemberReferenceOp? {
          return false, typeArgument;
        }
        var member := current.value.kind;
        if member.memberName != names[i] {
          return false, typeArgument;
        }
        if i == 0 {
          return Some(member.memberContainingType) == root, typeArgument;
        }
        if member.instance.None? {
          break;
        }
        current := member.instance;
      }
      i := i - 1;
    }
    return false, typeArgument;
  }

  /**
   * Once something was extracted, the rest of the chain must be member
   * references only: a chain holds at most one invocation link, and what it
   * yields is what the match reports.
   */
  lemma {:induction false} ChainAfterExtraction(cur: Option<Operation>, root: Option<TypeSymbol>, names: seq<string>, extraction: Extraction, x: Extracted)
    ensures Chain(cur, root, names, extraction, Some(x)) ==
      (if cur.Some? && ChainIs(cur.value, root, names) then Match(Some(x)) else NoMatch)
    decreases |names|
  {
    if |names| > 1 && cur.Some? && cur.value.kind.MemberReferenceOp? && cur.value.kind.instance.Some? {
      ChainAfterExtraction(cur.value.kind.instance, root, names[..|names| - 1], extraction, x);
    }
  }

  /** A match that extracted nothing is exactly a chain of member references, as Is sees it. */
  lemma {:induction false} MatchWithoutExtraction(op: Operation, root: Option<TypeSymbol>, names: seq<string>, extraction: Extraction)
    ensures Chain(Some(op), root, names, extraction, None) == Match(None) <==> ChainIs(op, root, names)
    decreases |names|
  {
    var n := |names|;
    if n > 1 {
      if op.kind.MemberReferenceOp? && op.kind.instance.Some? {
        MatchWithoutExtraction(op.kind.instance.value, root, names[..n - 1], extraction);
      } else if op.kind.InvocationOp? {
        var e := Extract(extraction, op.kind.targetMethod, op.kind.arguments);
        if e.Some? {
          ChainAfterExtraction(op.kind.receiver, root, names[..n - 1], extraction, e.value);
        }
      }
    }
  }
}
