/**
 * The analyzer that flags xUnit (MFA001), MSTest (MFA002) and NUnit (MFA003)
 * assertions. A compilation enables each family by its own marker type; a call
 * can be switched off per file by the `mfa_excluded_methods` option, a
 * `;`-separated list of documentation comment ids.
 */
module AssertAnalyzer {
  import opened Wrappers
  import opened Symbols
  import opened Syntax
  import opened Operations
  import opened Diagnostics
  import opened Extensions

  // ---------------------------------------------------------------------
  // Registration

  /** The symbols the analyzer resolves once per compilation. */
  datatype AnalyzerContext = AnalyzerContext(
    compilation: Compilation,
    xunitAssert: Option<TypeSymbol>,
    msTestsAssert: Option<TypeSymbol>,
    msTestsStringAssert: Option<TypeSymbol>,
    msTestsCollectionAssert: Option<TypeSymbol>,
    msTestsUnitTestAssertException: Option<TypeSymbol>,
    nunitAssertionException: Option<TypeSymbol>,
    nunitAssert: Option<TypeSymbol>,
    nunitCollectionAssert: Option<TypeSymbol>,
    nunitDirectoryAssert: Option<TypeSymbol>,
    nunitFileAssert: Option<TypeSymbol>,
    nunitStringAssert: Option<TypeSymbol>,
    nunitClassicAssert: Option<TypeSymbol>,
    nunitResultStateException: Option<TypeSymbol>)

  /** `t` is what looking up `name` gives: present iff the name resolves, and then exactly that type. */
  predicate ResolvedAs(t: Option<TypeSymbol>, c: Compilation, name: string)
  {
    (t.Some? <==> GetTypeByMetadataName(c, name).Some?) && (t.Some? ==> IsType(t, c, name))
  }

  /**
   * The context resolves every framework type once by name; a family is
   * available exactly when its marker type resolves.
   */
  function NewAnalyzerContext(c: Compilation): (ctx: AnalyzerContext)
    ensures ctx.compilation == c
    ensures ResolvedAs(ctx.xunitAssert, c, "Xunit.Assert")
    ensures ResolvedAs(ctx.msTestsAssert, c, "Microsoft.VisualStudio.TestTools.UnitTesting.Assert")
    ensures ResolvedAs(ctx.msTestsStringAssert, c, "Microsoft.VisualStudio.TestTools.UnitTesting.StringAssert")
    ensures ResolvedAs(ctx.msTestsCollectionAssert, c, "Microsoft.VisualStudio.TestTools.UnitTesting.CollectionAssert")
    ensures ResolvedAs(ctx.msTestsUnitTestAssertException, c, "Microsoft.VisualStudio.TestTools.UnitTesting.UnitTestAssertException")
    ensures ResolvedAs(ctx.nunitAssertionException, c, "NUnit.Framework.AssertionException")
    ensures ResolvedAs(ctx.nunitAssert, c, "NUnit.Framework.Assert")
    ensures ResolvedAs(ctx.nunitCollectionAssert, c, "NUnit.Framework.CollectionAssert")
    ensures ResolvedAs(ctx.nunitDirectoryAssert, c, "NUnit.Framework.DirectoryAssert")
    ensures ResolvedAs(ctx.nunitFileAssert, c, "NUnit.Framework.FileAssert")
    ensures ResolvedAs(ctx.nunitStringAssert, c, "NUnit.Framework.StringAssert")
    ensures ResolvedAs(ctx.nunitClassicAssert, c, "NUnit.Framework.Legacy.ClassicAssert")
    ensures ResolvedAs(ctx.nunitResultStateException, c, "NUnit.Framework.ResultStateException")
  {
    AnalyzerContext(
      c,
      GetTypeByMetadataName(c, "Xunit.Assert"),
      GetTypeByMetadataName(c, "Microsoft.VisualStudio.TestTools.UnitTesting.Assert"),
      GetTypeByMetadataName(c, "Microsoft.VisualStudio.TestTools.UnitTesting.StringAssert"),
      GetTypeByMetadataName(c, "Microsoft.VisualStudio.TestTools.UnitTesting.CollectionAssert"),
      GetTypeByMetadataName(c, "Microsoft.VisualStudio.TestTools.UnitTesting.UnitTestAssertException"),
      GetTypeByMetadataName(c, "NUnit.Framework.AssertionException"),
      GetTypeByMetadataName(c, "NUnit.Framework.Assert"),
      GetTypeByMetadataName(c, "NUnit.Framework.CollectionAssert"),
      GetTypeByMetadataName(c, "NUnit.Framework.DirectoryAssert"),
      GetTypeByMetadataName(c, "NUnit.Framework.FileAssert"),
      GetTypeByMetadataName(c, "NUnit.Framework.StringAssert"),
      GetTypeByMetadataName(c, "NUnit.Framework.Legacy.ClassicAssert"),
      GetTypeByMetadataName(c, "NUnit.Framework.ResultStateException"))
  }

  /** The operation actions registered at compilation start. */
  datatype Action =
    | XunitInvocation
    | MsTestInvocation
    | MsTestThrow
    | NunitInvocation
    | NunitDynamicInvocation
    | NunitThrow

  function Registrations(c: Compilation): (actions: set<Action>)
    ensures GetTypeByMetadataName(c, "FluentAssertions.ObjectAssertionsExtensions").None? ==> actions == {}
    ensures GetTypeByMetadataName(c, "FluentAssertions.ObjectAssertionsExtensions").Some? ==>
      && (XunitInvocation in actions <==> GetTypeByMetadataName(c, "Xunit.Assert").Some?)
      && (MsTestInvocation in actions <==> GetTypeByMetadataName(c, "Microsoft.VisualStudio.TestTools.UnitTesting.Assert").Some?)
      && (MsTestThrow in actions <==> MsTestInvocation in actions)
      && (NunitInvocation in actions <==> GetTypeByMetadataName(c, "NUnit.Framework.AssertionException").Some?)
      && (NunitDynamicInvocation in actions <==> NunitInvocation in actions)
      && (NunitThrow in actions <==> NunitInvocation in actions)
  {
    if GetTypeByMetadataName(c, "FluentAssertions.ObjectAssertionsExtensions").None? then {}
    else
      var ctx := NewAnalyzerContext(c);
      (if ctx.xunitAssert.Some? then {XunitInvocation} else {})
      + (if ctx.msTestsAssert.Some? then {MsTestInvocation, MsTestThrow} else {})
      + (if ctx.nunitAssertionException.Some? then {NunitInvocation, NunitDynamicInvocation, NunitThrow} else {})
  }

  // ---------------------------------------------------------------------
  // The exclusion list

  const ExcludedMethodsKey := "mfa_excluded_methods"
  const Separator := ';'

  /** Index of the first `sep` in `s`, or |s| when there is none. */
  function IndexOf(s: string, sep: char): (i: nat)
    ensures i <= |s| && sep !in s[..i] && (i < |s| ==> s[i] == sep)
  {
    if s == [] then 0
    else if s[0] == sep then 0
    else assert s[1..][..IndexOf(s[1..], sep)] == s[1..1 + IndexOf(s[1..], sep)];
         1 + IndexOf(s[1..], sep)
  }

  /** String.Split with one separator and StringSplitOptions.RemoveEmptyEntries. */
  function Split(s: string, sep: char): (parts: seq<string>)
    decreases |s|
    ensures forall k :: 0 <= k < |parts| ==> parts[k] != [] && sep !in parts[k]
  {
    var i := IndexOf(s, sep);
    (if i == 0 then [] else [s[..i]]) + (if i < |s| then Split(s[i + 1..], sep) else [])
  }

  /** The inverse of Split on lists of non-empty, separator-free pieces. */
  function Join(parts: seq<string>, sep: char): string
  {
    if parts == [] then []
    else if |parts| == 1 then parts[0]
    else parts[0] + [sep] + Join(parts[1..], sep)
  }

  function Concat(parts: seq<string>): string
  {
    if parts == [] then [] else parts[0] + Concat(parts[1..])
  }

  /** The characters of `s` other than `sep`, in order. */
  function WithoutSeparators(s: string, sep: char): string
  {
    if s == [] then [] else (if s[0] == sep then [] else [s[0]]) + WithoutSeparators(s[1..], sep)
  }

  lemma {:induction false} WithoutSeparatorsAppend(a: string, b: string, sep: char)
    ensures WithoutSeparators(a + b, sep) == WithoutSeparators(a, sep) + WithoutSeparators(b, sep)
  {
    if a == [] {
      assert a + b == b;
    } else {
      assert (a + b)[1..] == a[1..] + b;
      WithoutSeparatorsAppend(a[1..], b, sep);
    }
  }

  lemma {:induction false} WithoutSeparatorsFree(s: string, sep: char)
    requires sep !in s
    ensures WithoutSeparators(s, sep) == s
  {
    if s != [] {
      WithoutSeparatorsFree(s[1..], sep);
    }
  }

  /** Splitting loses nothing but separators: the pieces, put together, are the value without its separators. */
  lemma {:induction false} SplitKeepsEverythingElse(s: string, sep: char)
    ensures Concat(Split(s, sep)) == WithoutSeparators(s, sep)
    decreases |s|
  {
    var i := IndexOf(s, sep);
    var piece := if i == 0 then [] else [s[..i]];
    var rest := if i < |s| then Split(s[i + 1..], sep) else [];
    assert Split(s, sep) == piece + rest;
    ConcatAppend(piece, rest);
    assert Concat(piece) == s[..i] by {
      if i != 0 {
        assert Concat(piece) == s[..i] + Concat([]);
      }
    }
    assert s == s[..i] + s[i..];
    WithoutSeparatorsAppend(s[..i], s[i..], sep);
    WithoutSeparatorsFree(s[..i], sep);
    if i < |s| {
      assert s[i..][1..] == s[i + 1..];
      assert WithoutSeparators(s[i..], sep) == WithoutSeparators(s[i + 1..], sep);
      SplitKeepsEverythingElse(s[i + 1..], sep);
    } else {
      assert s[i..] == [];
    }
  }

  lemma {:induction false} ConcatAppend(a: seq<string>, b: seq<string>)
    ensures Concat(a + b) == Concat(a) + Concat(b)
  {
    if a == [] {
      assert a + b == b;
    } else {
      assert (a + b)[1..] == a[1..] + b;
      ConcatAppend(a[1..], b);
    }
  }

  lemma {:induction false} IndexOfPrefix(p: string, rest: string, sep: char)
    requires sep !in p
    requires rest == [] || rest[0] == sep
    ensures IndexOf(p + rest, sep) == |p|
  {
    if p == [] {
      assert p + rest == rest;
    } else {
      assert (p + rest)[1..] == p[1..] + rest;
      IndexOfPrefix(p[1..], rest, sep);
    }
  }

  /** Splitting a joined list of non-empty, separator-free pieces gives the pieces back. */
  lemma {:induction false} SplitJoin(parts: seq<string>, sep: char)
    requires forall k :: 0 <= k < |parts| ==> parts[k] != [] && sep !in parts[k]
    ensures Split(Join(parts, sep), sep) == parts
  {
    if parts == [] {
    } else if |parts| == 1 {
      IndexOfPrefix(parts[0], [], sep);
      assert parts[0] + [] == parts[0];
    } else {
      var s := Join(parts, sep);
      var tail := [sep] + Join(parts[1..], sep);
      assert s == parts[0] + tail;
      IndexOfPrefix(parts[0], tail, sep);
      assert s[..|parts[0]|] == parts[0];
      assert s[|parts[0]| + 1..] == Join(parts[1..], sep);
      SplitJoin(parts[1..], sep);
    }
  }

  lemma {:induction false} IndexOfExtend(a: string, b: string, sep: char)
    requires IndexOf(a, sep) < |a|
    ensures IndexOf(a + b, sep) == IndexOf(a, sep)
  {
    if a[0] != sep {
      assert (a + b)[1..] == a[1..] + b;
      IndexOfExtend(a[1..], b, sep);
    }
  }

  /** Split, unfolded once at the first separator. */
  lemma SplitStep(s: string, sep: char)
    ensures var i := IndexOf(s, sep);
            Split(s, sep) == (if i == 0 then [] else [s[..i]]) + (if i < |s| then Split(s[i + 1..], sep) else [])
  {
  }

  /** Split at a known first separator `i`. */
  lemma SplitAtSeparator(s: string, sep: char, i: nat)
    requires i == IndexOf(s, sep) && i < |s|
    ensures Split(s, sep) == (if i == 0 then [] else [s[..i]]) + Split(s[i + 1..], sep)
  {
  }

  lemma SlicesAround(a: string, b: string, sep: char, i: nat)
    requires i < |a|
    ensures (a + [sep] + b)[..i] == a[..i]
    ensures (a + [sep] + b)[i + 1..] == a[i + 1..] + [sep] + b
  {
  }

  /** Splitting `a;b` where `a` holds a separator cuts at that separator first. */
  lemma SplitAppendFirstCut(a: string, b: string, sep: char)
    requires IndexOf(a, sep) < |a|
    ensures var i := IndexOf(a, sep);
            Split(a + [sep] + b, sep) == (if i == 0 then [] else [a[..i]]) + Split(a[i + 1..] + [sep] + b, sep)
  {
    var s := a + [sep] + b;
    var i := IndexOf(a, sep);
    assert s == a + ([sep] + b);
    IndexOfExtend(a, [sep] + b, sep);
    SlicesAround(a, b, sep, i);
    SplitAtSeparator(s, sep, i);
  }

  lemma SplitAppendFound(a: string, b: string, sep: char)
    requires IndexOf(a, sep) < |a|
    requires Split(a[IndexOf(a, sep) + 1..] + [sep] + b, sep) == Split(a[IndexOf(a, sep) + 1..], sep) + Split(b, sep)
    ensures Split(a + [sep] + b, sep) == Split(a, sep) + Split(b, sep)
  {
    var i := IndexOf(a, sep);
    var piece: seq<string> := if i == 0 then [] else [a[..i]];
    var t := Split(a[i + 1..], sep);
    SplitAtSeparator(a, sep, i);
    SplitAppendFirstCut(a, b, sep);
    AppendRegroup(piece, t, Split(b, sep), Split(a + [sep] + b, sep), Split(a, sep));
  }

  lemma AppendRegroup(x: seq<string>, y: seq<string>, z: seq<string>, whole: seq<string>, front: seq<string>)
    requires whole == x + (y + z) && front == x + y
    ensures whole == front + z
  {
  }

  /** The last step of SplitAppend: `a` has no separator, so it is the whole first piece (or nothing, when empty). */
  lemma SplitAppendNotFound(a: string, b: string, sep: char)
    requires IndexOf(a, sep) == |a|
    ensures Split(a + [sep] + b, sep) == Split(a, sep) + Split(b, sep)
  {
    var s := a + ([sep] + b);
    assert a + [sep] + b == s;
    IndexOfPrefix(a, [sep] + b, sep);
    SlicesAtEnd(a, b, sep);
    SplitAtSeparator(s, sep, |a|);
    SplitWithoutSeparator(a, sep);
  }

  /** A value without a separator is one piece, or none when it is empty. */
  lemma SplitWithoutSeparator(a: string, sep: char)
    requires IndexOf(a, sep) == |a|
    ensures Split(a, sep) == if a == [] then [] else [a]
  {
    assert a[..|a|] == a;
    SplitStep(a, sep);
  }

  lemma SlicesAtEnd(a: string, b: string, sep: char)
    ensures (a + ([sep] + b))[..|a|] == a
    ensures (a + ([sep] + b))[|a| + 1..] == b
  {
  }

  /** Every separator is a boundary between pieces, doubled separators included: `"A;;B"` splits as `"A"` and `";B"` do. */
  lemma {:induction false} SplitAppend(a: string, b: string, sep: char)
    ensures Split(a + [sep] + b, sep) == Split(a, sep) + Split(b, sep)
    decreases |a|
  {
    var i := IndexOf(a, sep);
    if i < |a| {
      SplitAppend(a[i + 1..], b, sep);
      SplitAppendFound(a, b, sep);
    } else {
      SplitAppendNotFound(a, b, sep);
    }
  }

  /** `"A;;B"` gives the two pieces `"A"` and `"B"`: the empty piece between the separators is dropped. */
  lemma SplitDoubledSeparator(x: char, y: char, sep: char)
    requires x != sep && y != sep
    ensures Split([x, sep, sep, y], sep) == [[x], [y]]
  {
    SplitAppend([x], [sep, y], sep);
    assert [x] + [sep] + [sep, y] == [x, sep, sep, y];
    SplitLeadingSeparator(y, sep);
    SplitOneChar(x, sep);
  }

  /** A separator at the start yields no empty piece. */
  lemma SplitLeadingSeparator(y: char, sep: char)
    requires y != sep
    ensures Split([sep, y], sep) == [[y]]
  {
    SplitAppend([], [y], sep);
    assert [] + [sep] + [y] == [sep, y];
    SplitOneChar(y, sep);
  }

  lemma SplitOneChar(c: char, sep: char)
    requires c != sep
    ensures Split([c], sep) == [[c]]
  {
    IndexOfPrefix([c], [], sep);
    assert [c] + [] == [c];
    SplitWithoutSeparator([c], sep);
  }


  /** Per-file analyzer options, keyed by syntax tree; a tree with no entry has no options. */
  datatype AnalyzerOptions = AnalyzerOptions(perTree: map<string, map<string, string>>)

  /** The value of `mfa_excluded_methods` for the file, if the tree, its options and the key all exist. */
  function ExcludedMethodsValue(options: AnalyzerOptions, tree: Option<string>): Option<string>
  {
    if tree.Some? && tree.value in options.perTree && ExcludedMethodsKey in options.perTree[tree.value]
    then Some(options.perTree[tree.value][ExcludedMethodsKey])
    else None
  }

  /** Some piece of the exclusion list resolves to a symbol equal to the target method. */
  predicate Excluded(c: Compilation, options: AnalyzerOptions, tree: Option<string>, target: MethodSymbol)
  {
    var value := ExcludedMethodsValue(options, tree);
    value.Some? &&
    exists part :: part in Split(value.value, Separator) && target in GetSymbolsForDeclarationId(c, part)
  }

  method IsMethodExcluded(c: Compilation, options: AnalyzerOptions, tree: Option<string>, target: MethodSymbol) returns (r: bool)
    ensures r == Excluded(c, options, tree, target)
  {
    if tree.None? {
      return false;
    }
    if tree.value !in options.perTree {
      return false;
    }
    var fileOptions := options.perTree[tree.value];
    if ExcludedMethodsKey !in fileOptions {
      return false;
    }
    var parts := Split(fileOptions[ExcludedMethodsKey], Separator);
    var i := 0;
    while i < |parts|
      invariant 0 <= i <= |parts|
      invariant forall k :: 0 <= k < i ==> target !in GetSymbolsForDeclarationId(c, parts[k])
    {
      var symbols := GetSymbolsForDeclarationId(c, parts[i]);
      var j := 0;
      while j < |symbols|
        invariant 0 <= j <= |symbols|
        invariant forall k :: 0 <= k < j ==> symbols[k] != target
      {
        if symbols[j] == target {
          return true;
        }
        j := j + 1;
      }
      i := i + 1;
    }
    return false;
  }

  /**
   * Exclusion is by exact symbol: with a single id in the option, a call is
   * excluded exactly when its target is one of the symbols that id stands for.
   */
  lemma ExclusionIsOverloadExact(c: Compilation, options: AnalyzerOptions, tree: Option<string>, id: string, target: MethodSymbol)
    requires ExcludedMethodsValue(options, tree) == Some(id)
    requires id != [] && Separator !in id
    ensures Excluded(c, options, tree, target) <==> target in GetSymbolsForDeclarationId(c, id)
  {
    SplitJoin([id], Separator);
  }

  /** With two ids, a call is excluded when either id stands for its target. */
  lemma ExclusionListOfTwo(c: Compilation, options: AnalyzerOptions, tree: Option<string>, id1: string, id2: string, target: MethodSymbol)
    requires ExcludedMethodsValue(options, tree) == Some(id1 + [Separator] + id2)
    requires id1 != [] && Separator !in id1 && id2 != [] && Separator !in id2
    ensures Excluded(c, options, tree, target) <==>
      target in GetSymbolsForDeclarationId(c, id1) || target in GetSymbolsForDeclarationId(c, id2)
  {
    SplitJoin([id1, id2], Separator);
    assert Join([id1, id2], Separator) == id1 + [Separator] + id2;
  }

  const FailId := "M:NUnit.Framework.Assert.Fail"
  const FailWithMessageId := "M:NUnit.Framework.Assert.Fail(System.String)"

  /**
   * The documented example: `M:NUnit.Framework.Assert.Fail` stands for the
   * parameterless `Fail()` only, so it suppresses that call and not
   * `Fail("dummy")`.
   */
  lemma FailExclusionExample(c: Compilation, options: AnalyzerOptions, tree: Option<string>, fail: MethodSymbol, failWithMessage: MethodSymbol)
    requires GetSymbolsForDeclarationId(c, FailId) == [fail]
    requires fail != failWithMessage
    requires ExcludedMethodsValue(options, tree) == Some(FailId)
    ensures Excluded(c, options, tree, fail) && !Excluded(c, options, tree, failWithMessage)
  {
    assert forall k :: 0 <= k < |FailId| ==> FailId[k] != Separator;
    ExclusionIsOverloadExact(c, options, tree, FailId, fail);
    ExclusionIsOverloadExact(c, options, tree, FailId, failWithMessage);
  }

  /** Listing both ids suppresses both overloads. */
  lemma FailBothExclusionExample(c: Compilation, options: AnalyzerOptions, tree: Option<string>, fail: MethodSymbol, failWithMessage: MethodSymbol)
    requires GetSymbolsForDeclarationId(c, FailId) == [fail]
    requires GetSymbolsForDeclarationId(c, FailWithMessageId) == [failWithMessage]
    requires ExcludedMethodsValue(options, tree) == Some(FailId + [Separator] + FailWithMessageId)
    ensures Excluded(c, options, tree, fail) && Excluded(c, options, tree, failWithMessage)
  {
    assert forall k :: 0 <= k < |FailId| ==> FailId[k] != Separator;
    assert forall k :: 0 <= k < |FailWithMessageId| ==> FailWithMessageId[k] != Separator;
    ExclusionListOfTwo(c, options, tree, FailId, FailWithMessageId, fail);
    ExclusionListOfTwo(c, options, tree, FailId, FailWithMessageId, failWithMessage);
  }

  // ---------------------------------------------------------------------
  // Classification

  /** Null is no assert class; in the context the analyzer builds, the MSTest assert classes are exactly Assert, StringAssert and CollectionAssert. */
  function IsMsTestAssertClass(ctx: AnalyzerContext, t: Option<TypeSymbol>): (r: bool)
    ensures t.None? ==> !r
    ensures ctx == NewAnalyzerContext(ctx.compilation) ==>
      (r <==> IsType(t, ctx.compilation, "Microsoft.VisualStudio.TestTools.UnitTesting.Assert") ||
              IsType(t, ctx.compilation, "Microsoft.VisualStudio.TestTools.UnitTesting.StringAssert") ||
              IsType(t, ctx.compilation, "Microsoft.VisualStudio.TestTools.UnitTesting.CollectionAssert"))
  {
    t.Some? && (t == ctx.msTestsAssert || t == ctx.msTestsStringAssert || t == ctx.msTestsCollectionAssert)
  }

  /** Null is no assert class; in the context the analyzer builds, the NUnit assert classes are exactly the six named ones. */
  function IsNunitAssertClass(ctx: AnalyzerContext, t: Option<TypeSymbol>): (r: bool)
    ensures t.None? ==> !r
    ensures ctx == NewAnalyzerContext(ctx.compilation) ==>
      (r <==> IsType(t, ctx.compilation, "NUnit.Framework.Assert") ||
              IsType(t, ctx.compilation, "NUnit.Framework.CollectionAssert") ||
              IsType(t, ctx.compilation, "NUnit.Framework.DirectoryAssert") ||
              IsType(t, ctx.compilation, "NUnit.Framework.FileAssert") ||
              IsType(t, ctx.compilation, "NUnit.Framework.StringAssert") ||
              IsType(t, ctx.compilation, "NUnit.Framework.Legacy.ClassicAssert"))
  {
    t.Some? &&
    (t == ctx.nunitAssert || t == ctx.nunitCollectionAssert || t == ctx.nunitDirectoryAssert ||
     t == ctx.nunitFileAssert || t == ctx.nunitStringAssert || t == ctx.nunitClassicAssert)
  }

  method AnalyzeXunitInvocation(ctx: AnalyzerContext, options: AnalyzerOptions, tree: Option<string>, op: Operation)
    returns (d: Option<Diagnostic>)
    requires op.kind.InvocationOp?
    ensures d.Some? <==>
      Some(op.kind.targetMethod.containingType) == ctx.xunitAssert &&
      !Excluded(ctx.compilation, options, tree, op.kind.targetMethod)
    ensures d.Some? ==> d.value == Diagnostic(MFA001, op.syntax)
  {
    d := None;
    if Some(op.kind.targetMethod.containingType) == ctx.xunitAssert {
      var excluded := IsMethodExcluded(ctx.compilation, options, tree, op.kind.targetMethod);
      if !excluded {
        d := Some(Diagnostic(MFA001, op.syntax));
      }
    }
  }

  method AnalyzeMsTestInvocation(ctx: AnalyzerContext, options: AnalyzerOptions, tree: Option<string>, op: Operation)
    returns (d: Option<Diagnostic>)
    requires op.kind.InvocationOp?
    ensures d.Some? <==>
      IsMsTestAssertClass(ctx, Some(op.kind.targetMethod.containingType)) &&
      !Excluded(ctx.compilation, options, tree, op.kind.targetMethod)
    ensures d.Some? ==> d.value == Diagnostic(MFA002, op.syntax)
  {
    d := None;
    if IsMsTestAssertClass(ctx, Some(op.kind.targetMethod.containingType)) {
      var excluded := IsMethodExcluded(ctx.compilation, options, tree, op.kind.targetMethod);
      if !excluded {
        d := Some(Diagnostic(MFA002, op.syntax));
      }
    }
  }

  /** A `throw` of an exception whose type is or derives from the framework's assertion exception. */
  function ThrowsAssertionException(op: Operation, exceptionType: Option<TypeSymbol>): (r: bool)
    requires op.kind.ThrowOp?
    ensures r <==>
      op.kind.exception.Some? && exceptionType.Some? &&
      var thrown := StripImplicit(op.kind.exception.value).resultType;
      thrown.Some? && exceptionType.value in BaseChain(thrown.value)
  {
    op.kind.exception.Some? &&
    var thrown := StripImplicit(op.kind.exception.value).resultType;
    thrown.Some? && exceptionType.Some? &&
    (InheritsFromIsOnChain(thrown.value, exceptionType.value); InheritsFromSymbol(thrown, exceptionType))
  }

  method AnalyzeThrow(op: Operation, exceptionType: Option<TypeSymbol>, id: DiagnosticId) returns (d: Option<Diagnostic>)
    requires op.kind.ThrowOp?
    ensures d.Some? <==> ThrowsAssertionException(op, exceptionType)
    ensures d.Some? ==> d.value == Diagnostic(id, op.syntax)
    ensures op.kind.exception.None? ==> d.None?
  {
    d := None;
    if op.kind.exception.Some? {
      var thrown := RemoveImplicitConversion(op.kind.exception.value);
      var derived := IsOrInheritsFrom(thrown.resultType, exceptionType);
      if derived {
        d := Some(Diagnostic(id, op.syntax));
      }
    }
  }

  method AnalyzeMsTestThrow(ctx: AnalyzerContext, op: Operation) returns (d: Option<Diagnostic>)
    requires op.kind.ThrowOp?
    ensures d.Some? <==> ThrowsAssertionException(op, ctx.msTestsUnitTestAssertException)
    ensures d.Some? ==> d.value.id == MFA002
  {
    d := AnalyzeThrow(op, ctx.msTestsUnitTestAssertException, MFA002);
  }

  method AnalyzeNunitInvocation(ctx: AnalyzerContext, options: AnalyzerOptions, tree: Option<string>, op: Operation)
    returns (d: Option<Diagnostic>)
    requires op.kind.InvocationOp?
    ensures d.Some? <==>
      IsNunitAssertClass(ctx, Some(op.kind.targetMethod.containingType)) &&
      !Excluded(ctx.compilation, options, tree, op.kind.targetMethod) &&
      !(op.kind.targetMethod.name in {"Inconclusive", "Ignore"} && Some(op.kind.targetMethod.containingType) == ctx.nunitAssert)
    ensures d.Some? ==> d.value == Diagnostic(MFA003, op.syntax)
  {
    d := None;
    var m := op.kind.targetMethod;
    if IsNunitAssertClass(ctx, Some(m.containingType)) {
      var excluded := IsMethodExcluded(ctx.compilation, options, tree, m);
      if !excluded {
        if (m.name == "Inconclusive" || m.name == "Ignore") && Some(m.containingType) == ctx.nunitAssert {
          return;
        }
        d := Some(Diagnostic(MFA003, op.syntax));
      }
    }
  }

  /** The containing type of the dynamically bound member the invocation calls, if any. */
  function DynamicContainingType(op: Operation): (t: Option<TypeSymbol>)
    requires op.kind.DynamicInvocationOp?
    ensures t.Some? ==> op.kind.dynamicTarget.kind.DynamicMemberReferenceOp? && t == op.kind.dynamicTarget.kind.dynamicContainingType
    ensures !op.kind.dynamicTarget.kind.DynamicMemberReferenceOp? ==> t.None?
  {
    var target := op.kind.dynamicTarget;
    if target.kind.DynamicMemberReferenceOp? then target.kind.dynamicContainingType else None
  }

  method AnalyzeNunitDynamicInvocation(ctx: AnalyzerContext, op: Operation) returns (d: Option<Diagnostic>)
    requires op.kind.DynamicInvocationOp?
    ensures d.Some? <==> |op.kind.dynamicArguments| >= 2 && IsNunitAssertClass(ctx, DynamicContainingType(op))
    ensures d.Some? ==> d.value == Diagnostic(MFA003, op.syntax)
  {
    if |op.kind.dynamicArguments| < 2 {
      return None;
    }
    var containingType := DynamicContainingType(op);
    d := if IsNunitAssertClass(ctx, containingType) then Some(Diagnostic(MFA003, op.syntax)) else None;
  }

  method AnalyzeNunitThrow(ctx: AnalyzerContext, op: Operation) returns (d: Option<Diagnostic>)
    requires op.kind.ThrowOp?
    ensures d.Some? <==> ThrowsAssertionException(op, ctx.nunitResultStateException)
    ensures d.Some? ==> d.value.id == MFA003
  {
    d := AnalyzeThrow(op, ctx.nunitResultStateException, MFA003);
  }
}
