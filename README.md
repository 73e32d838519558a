# Meziantou.FluentAssertionsAnalyzers in Dafny

This project models the core of Meziantou.FluentAssertionsAnalyzers. The package is a set of Roslyn
analyzers and code fixes. They find assertions written with xUnit, MSTest or NUnit and rewrite them
into FluentAssertions chains of the form `subject.Should().M(args)`. The model covers these parts:

- **The analyzers.**
  - `AssertAnalyzer` reports MFA001 (xUnit), MFA002 (MSTest) and MFA003 (NUnit) for test-framework assertions, including `throw`s of the frameworks' assertion exceptions.
  - The three "simplify `Should()`" analyzers report MFA004–MFA013: `Be(true)`, `Be(null)`, `Be("")` and their variants.
  - `DoNotValidateConstantValueAnalyzer` reports MFA014 when a compile-time constant is asserted on.
- **The rewrites.**
  - The NUnit code fix, with its constraint-chain matchers.
  - The xUnit code fix.
  - The shared "rename the method and drop the first argument" fix with its provider table.
- **The helpers.** Type identity, "is or implements", "is or inherits from" and removal of implicit conversions.

How Roslyn is represented:

- **Symbols and operations** are plain datatypes. Two symbols are the same symbol exactly when their values are equal, and a symbol that may be null is an `Option`.
  - `Symbols`: type symbols with their base type, interfaces and original definition; method symbols; the compilation's name lookups.
  - `Operations`: the operation tree and the semantic model's `GetOperation`/`GetSymbolInfo`.
- **Syntax** (`Syntax`) covers only the shapes a fix builds; an expression taken from the user's code is carried along unchanged.
- **The outcome of a fix** (`CodeFixes`) is one of three things: a replacement node, the document left as it was, or `Fault`.
  - `Fault` stands for the C# exception the fix would throw: an argument index past the end, a failed cast, or a null handed to a syntax factory.
  - The host then offers no change.

Code shape follows the source:

- The rule tables are first-match `if` chains, written as functions.
- The loops of the source are methods with loop invariants, each proved equal to a specification function that the tables use. These are:
  - the constraint-chain matchers `Is`/`IsMethod`/`IsGenericMethod`;
  - `IsOrImplements`, both `IsOrInheritsFrom`, `RemoveImplicitConversion`;
  - the exclusion-list scan `IsMethodExcluded`;
  - the xUnit `MemberAccessExpression(string, string, params string[])` fold.

Three behaviours of the code are easy to miss:

- The NUnit fix does not try to tell which operand is a constant. Every two-operand rule takes `arguments[1]` as the subject and `arguments[0]` as the expected value. For `Greater`, `GreaterOrEqual`, `Less`, `LessOrEqual`, `CollectionAssert.IsSubsetOf` and `IsNotSubsetOf` this reverses the comparison: `Assert.Greater(5, 3)` holds, but its rewrite `3.Should().BeGreaterThan(5)` does not. The model keeps the code's operand order.
- The CollectionAssert comparer guard looks up `System.Collection.IComparer`, a name that does not exist. It is modelled as written, and `NunitCodeFix.ComparerGuardVacuous` shows the guard never blocks where the name does not resolve.
- xUnit `True`/`False` carry the message argument over with its `name:` label, unlike every other copied argument.

## Model

| member | source | states |
|---|---|---|
| Symbols.Construct | Meziantou.FluentAssertionsAnalyzers/BooleanShouldBeAnalyzer.cs:43 | a constructed type keeps its original definition, has the given type arguments, and is not its own definition |
| Syntax.Expressions | Meziantou.FluentAssertionsAnalyzers/NunitAssertAnalyzerCodeFixProvider.cs:825-830 | the expressions of an argument list, one per argument, in order |
| Syntax.Positional | Meziantou.FluentAssertionsAnalyzers/XUnitAssertAnalyzerCodeFixProvider.cs:439-442 | `Argument(e)` for each expression: same length, same expressions, no labels |
| Syntax.AssertionRoundTrip | Meziantou.FluentAssertionsAnalyzers/NunitAssertAnalyzerCodeFixProvider.cs:825-843 | a built `(s).Should().M<T>(args)` reads back as exactly its subject, method, type argument and arguments |
| CodeFixes.FluentCall | Meziantou.FluentAssertionsAnalyzers/NunitAssertAnalyzerCodeFixProvider.cs:825-830 | the replacement is the FluentAssertions call on the subject with the given expressions as unlabelled arguments |
| CodeFixes.AddUsing | Meziantou.FluentAssertionsAnalyzers/NunitAssertAnalyzerCodeFixProvider.cs:770-775 | `FluentAssertions` is among the usings afterwards, no using is lost, nothing else is added, and a present using leaves the list as it was |
| CodeFixes.Apply | Meziantou.FluentAssertionsAnalyzers/NunitAssertAnalyzerCodeFixProvider.cs:756-781 | no rewrite means an unchanged document; a rewrite replaces the node, and the usings change iff imports are on and `FluentAssertions` is missing |
| Extensions.IsType | Meziantou.FluentAssertionsAnalyzers/Extensions.cs:8-14 | a match needs a non-null symbol and a resolving name, and an exact match also passes `IsOrImplements` and `IsOrInheritsFrom` against the same type |
| Extensions.IsTypeUnique | Meziantou.FluentAssertionsAnalyzers/Extensions.cs:8-14 | two symbols that both match one name are the same type |
| Extensions.IsOrImplements | Meziantou.FluentAssertionsAnalyzers/Extensions.cs:16-32 | the loop answers exactly `Implements`: the symbol is the target, or some interface's original definition is |
| Extensions.BaseClassIsNotConsulted | Meziantou.FluentAssertionsAnalyzers/Extensions.cs:25-31 | a class whose base class is the target does not implement it: base classes are not consulted |
| Extensions.BaseChain | Meziantou.FluentAssertionsAnalyzers/Extensions.cs:59-65 | the type followed by its base types, starting at the type, one per level |
| Extensions.IsOrInheritsFrom | Meziantou.FluentAssertionsAnalyzers/Extensions.cs:54-68 | the do-while walk answers `InheritsFrom`, false for a null symbol or a null base |
| Extensions.IsOrInheritsFromName | Meziantou.FluentAssertionsAnalyzers/Extensions.cs:34-52 | the same walk against the type a name resolves to; an unresolved name is inherited by nothing |
| Extensions.InheritsFromIsOnChain | Meziantou.FluentAssertionsAnalyzers/Extensions.cs:54-68 | a type inherits from `b` iff `b` is on its base-type chain |
| Extensions.InheritsFromTransitive | Meziantou.FluentAssertionsAnalyzers/Extensions.cs:54-68 | inheritance is transitive |
| Extensions.InheritsFromLowersDepth | Meziantou.FluentAssertionsAnalyzers/Extensions.cs:59-65 | a base type sits no lower than the type, and strictly higher unless it is the type |
| Extensions.InheritsFromAntisymmetric | Meziantou.FluentAssertionsAnalyzers/Extensions.cs:54-68 | two types that inherit from each other are the same type |
| Extensions.StripImplicit | Meziantou.FluentAssertionsAnalyzers/Extensions.cs:70-78 | the result is not an implicit conversion, is the operation itself when that is not one, and lies inside it |
| Extensions.RemoveImplicitConversion | Meziantou.FluentAssertionsAnalyzers/Extensions.cs:70-78 | the while loop computes `StripImplicit` |
| Extensions.StripImplicitIdempotent | Meziantou.FluentAssertionsAnalyzers/Extensions.cs:72-75 | stripping twice is stripping once |
| AssertAnalyzer.Registrations | Meziantou.FluentAssertionsAnalyzers/AssertAnalyzer.cs:45-69 | nothing is registered without `ObjectAssertionsExtensions`; otherwise each family's actions are registered iff its marker type resolves |
| AssertAnalyzer.IndexOf | Meziantou.FluentAssertionsAnalyzers/AssertAnalyzer.cs:109 | the position of the first separator, or the length when there is none |
| AssertAnalyzer.Split | Meziantou.FluentAssertionsAnalyzers/AssertAnalyzer.cs:109 | every piece is non-empty and free of the separator |
| AssertAnalyzer.WithoutSeparatorsAppend | Meziantou.FluentAssertionsAnalyzers/AssertAnalyzer.cs:109 | dropping separators distributes over concatenation |
| AssertAnalyzer.WithoutSeparatorsFree | Meziantou.FluentAssertionsAnalyzers/AssertAnalyzer.cs:109 | a string without separators is left as it is |
| AssertAnalyzer.SplitKeepsEverythingElse | Meziantou.FluentAssertionsAnalyzers/AssertAnalyzer.cs:109 | the pieces put together are the value with its separators removed: splitting loses nothing else |
| AssertAnalyzer.ConcatAppend | Meziantou.FluentAssertionsAnalyzers/AssertAnalyzer.cs:109 | concatenating pieces distributes over appending lists of pieces |
| AssertAnalyzer.IndexOfPrefix | Meziantou.FluentAssertionsAnalyzers/AssertAnalyzer.cs:109 | the first separator after a separator-free prefix is at the prefix's length |
| AssertAnalyzer.SplitJoin | Meziantou.FluentAssertionsAnalyzers/AssertAnalyzer.cs:109 | splitting a joined list of non-empty, separator-free ids gives the ids back |
| AssertAnalyzer.IndexOfExtend | Meziantou.FluentAssertionsAnalyzers/AssertAnalyzer.cs:109 | appending text after a separator does not move the first separator |
| AssertAnalyzer.SplitAppend | Meziantou.FluentAssertionsAnalyzers/AssertAnalyzer.cs:109 | every separator is a boundary: splitting `a;b` gives the pieces of `a` followed by the pieces of `b`, with empty entries dropped |
| AssertAnalyzer.SplitDoubledSeparator | Meziantou.FluentAssertionsAnalyzers/AssertAnalyzer.cs:109 | a doubled separator between two non-separator characters yields exactly those two one-character pieces, so `A;;B` gives `A` and `B` |
| AssertAnalyzer.IsMethodExcluded | Meziantou.FluentAssertionsAnalyzers/AssertAnalyzer.cs:96-121 | the nested loops answer `Excluded`: a missing tree, options or key excludes nothing, otherwise some id resolves to the target method |
| AssertAnalyzer.ExclusionIsOverloadExact | Meziantou.FluentAssertionsAnalyzers/AssertAnalyzer.cs:109-120 | with one id, a call is excluded iff its target is among the symbols that id stands for |
| AssertAnalyzer.ExclusionListOfTwo | Meziantou.FluentAssertionsAnalyzers/AssertAnalyzer.cs:109-120 | with two ids, a call is excluded iff either id stands for its target |
| AssertAnalyzer.FailExclusionExample | Meziantou.FluentAssertionsAnalyzers.Tests/NUnit3ToFluentAssertionsAnalyzerUnitTests.cs:91-149 | `M:NUnit.Framework.Assert.Fail` suppresses `Fail()` but not `Fail(string)` |
| AssertAnalyzer.FailBothExclusionExample | Meziantou.FluentAssertionsAnalyzers.Tests/NUnit3ToFluentAssertionsAnalyzerUnitTests.cs:91-149 | listing both ids suppresses both overloads |
| AssertAnalyzer.NewAnalyzerContext | Meziantou.FluentAssertionsAnalyzers/AssertAnalyzer.cs:71-88 | each assert class and exception is present iff its metadata name resolves, and then is exactly that type |
| AssertAnalyzer.IsMsTestAssertClass | Meziantou.FluentAssertionsAnalyzers/AssertAnalyzer.cs:188-196 | false for a null type; for a fresh context, true iff the type is MSTest's `Assert`, `StringAssert` or `CollectionAssert` |
| AssertAnalyzer.IsNunitAssertClass | Meziantou.FluentAssertionsAnalyzers/AssertAnalyzer.cs:198-209 | false for a null type; for a fresh context, true iff the type is one of NUnit's `Assert`, `CollectionAssert`, `DirectoryAssert`, `FileAssert`, `StringAssert` or `ClassicAssert` |
| AssertAnalyzer.ThrowsAssertionException | Meziantou.FluentAssertionsAnalyzers/AssertAnalyzer.cs:141-148 | true iff the throw has an operand with a type and the exception type lies on that type's base-type chain |
| AssertAnalyzer.DynamicContainingType | Meziantou.FluentAssertionsAnalyzers/AssertAnalyzer.cs:162-177 | the containing type of a dynamic member reference target, and null for any other target |
| AssertAnalyzer.AnalyzeXunitInvocation | Meziantou.FluentAssertionsAnalyzers/AssertAnalyzer.cs:123-130 | MFA001 on the call iff the containing type is exactly `Xunit.Assert` and the call is not excluded |
| AssertAnalyzer.AnalyzeMsTestInvocation | Meziantou.FluentAssertionsAnalyzers/AssertAnalyzer.cs:132-139 | MFA002 iff the containing type is MSTest's `Assert`, `StringAssert` or `CollectionAssert` and the call is not excluded |
| AssertAnalyzer.AnalyzeThrow | Meziantou.FluentAssertionsAnalyzers/AssertAnalyzer.cs:141-148 | a diagnostic iff the thrown operand, under its implicit conversions, has a type inheriting from the assertion exception; never for `throw;` |
| AssertAnalyzer.AnalyzeMsTestThrow | Meziantou.FluentAssertionsAnalyzers/AssertAnalyzer.cs:141-148 | MFA002 iff the thrown type inherits from `UnitTestAssertException` |
| AssertAnalyzer.AnalyzeNunitInvocation | Meziantou.FluentAssertionsAnalyzers/AssertAnalyzer.cs:150-160 | MFA003 iff the call is on one of the six NUnit assert classes, is not excluded, and is not `Inconclusive`/`Ignore` on `Assert` itself |
| AssertAnalyzer.AnalyzeNunitDynamicInvocation | Meziantou.FluentAssertionsAnalyzers/AssertAnalyzer.cs:162-177 | MFA003 iff the call has at least two arguments and the dynamic member's containing type is an NUnit assert class; no exclusion check |
| AssertAnalyzer.AnalyzeNunitThrow | Meziantou.FluentAssertionsAnalyzers/AssertAnalyzer.cs:179-186 | MFA003 iff the thrown type inherits from `ResultStateException` |
| BooleanShouldBeAnalyzer.AnalyzeInvocation | Meziantou.FluentAssertionsAnalyzers/BooleanShouldBeAnalyzer.cs:36-67 | off without both BooleanAssertions types; a diagnostic iff `Be`/`NotBe` on `BooleanAssertions<BooleanAssertions>` has a constant bool first argument; `(Be,false)`/`(NotBe,true)` give MFA005 and `(Be,true)`/`(NotBe,false)` give MFA004 |
| NullableBooleanShouldBeAnalyzer.AnalyzeInvocation | Meziantou.FluentAssertionsAnalyzers/NullableBooleanShouldBeAnalyzer.cs:75-129 | off without both types; `Be` with null/false/true gives MFA012/MFA009/MFA008 and `NotBe` gives MFA013/MFA011/MFA010, the constant read under implicit conversions; no constant means no diagnostic |
| StringShouldBeAnalyzer.AnalyzeInvocation | Meziantou.FluentAssertionsAnalyzers/StringShouldBeAnalyzer.cs:36-79 | off without the StringAssertions types; `Be` gives MFA006 and `NotBe` gives MFA007 iff the first argument is the constant `""` or a member `Empty` of System.String |
| StringShouldBeAnalyzer.OtherValuesNotReported | Meziantou.FluentAssertionsAnalyzers/StringShouldBeAnalyzer.cs:58-65 | a non-empty string constant is not reported |
| StringShouldBeAnalyzer.OtherEmptyMemberNotReported | Meziantou.FluentAssertionsAnalyzers/StringShouldBeAnalyzer.cs:58-65 | a member named `Empty` on a type other than string, with no constant value, is not reported |
| DoNotValidateConstantValueAnalyzer.AnalyzeInvocation | Meziantou.FluentAssertionsAnalyzers/DoNotValidateConstantValueAnalyzer.cs:27-48 | off without AssertionExtensions; MFA014 iff a `Should` call on AssertionExtensions has a first argument that is constant under its implicit conversions, reported on that argument |
| SimpleCodeFix.ProvidersTable | Meziantou.FluentAssertionsAnalyzers/CodeFixers/ShouldBeTrueCodeFixProvider.cs:11-13 | MFA004/MFA008→BeTrue, MFA005/MFA009→BeFalse, MFA006→BeEmpty, MFA007→NotBeEmpty, MFA011→NotBeFalse, MFA012→NotHaveValue, MFA013→HaveValue, MFA010 has no fix, and every provider of an id agrees |
| SimpleCodeFix.Rewrite | Meziantou.FluentAssertionsAnalyzers/CodeFixers/SimpleCodeFixProvider.cs:32-45 | same receiver, only the member name replaced, arguments `args[1..]` in order; a node of another shape or with no argument throws |
| SimpleCodeFix.CodeFix | Meziantou.FluentAssertionsAnalyzers/CodeFixers/SimpleCodeFixProvider.cs:16-30 | no fix without a node at the span, otherwise the provider's rewrite |
| SimpleCodeFix.BooleanFixKeepsMeaning | Meziantou.FluentAssertionsAnalyzers/BooleanShouldBeTrueCodeFixProvider.cs:42-44 | the fixed `BeTrue()`/`BeFalse()` accepts exactly the values the reported `Be`/`NotBe` call accepted |
| SimpleCodeFix.NullableBooleanFixKeepsMeaning | Meziantou.FluentAssertionsAnalyzers/CodeFixers/ShouldNotHaveValueCodeFixProvider.cs:11-13 | for every fixable `bool?` diagnostic the new method accepts exactly the values the old call did |
| SimpleCodeFix.StringFixKeepsMeaning | Meziantou.FluentAssertionsAnalyzers/StringShouldNotBeEmptyCodeFixProvider.cs:42-44 | `BeEmpty()`/`NotBeEmpty()` accept exactly the strings `Be("")`/`NotBe("")` did |
| NunitChains.Is | Meziantou.FluentAssertionsAnalyzers/NunitAssertAnalyzerCodeFixProvider.cs:542-563 | the count-down loop answers `ChainIs` |
| NunitChains.Links | Meziantou.FluentAssertionsAnalyzers/NunitAssertAnalyzerCodeFixProvider.cs:542-563 | the member-reference chain from the outermost link inward, starting at the operation |
| NunitChains.NamedLinksCons | Meziantou.FluentAssertionsAnalyzers/NunitAssertAnalyzerCodeFixProvider.cs:542-563 | naming the links of a chain peels one link at a time |
| NunitChains.ChainIsOnLinks | Meziantou.FluentAssertionsAnalyzers/NunitAssertAnalyzerCodeFixProvider.cs:542-563 | `Is(root, n0..nk)` holds iff the chain has at least k+1 member-reference links named nk down to n0 and the n0 link's containing type is root; a chain that ends early fails |
| NunitChains.Extract | Meziantou.FluentAssertionsAnalyzers/NunitAssertAnalyzerCodeFixProvider.cs:571-583 | an invocation link yields its single argument's syntax, or its first type argument; otherwise nothing |
| NunitChains.IsMethod | Meziantou.FluentAssertionsAnalyzers/NunitAssertAnalyzerCodeFixProvider.cs:565-606 | the loop matches iff `Chain` does with argument extraction, and then returns the extracted argument |
| NunitChains.IsGenericMethod | Meziantou.FluentAssertionsAnalyzers/NunitAssertAnalyzerCodeFixProvider.cs:608-649 | the loop matches iff `Chain` does with type-argument extraction, and then returns the extracted type |
| NunitChains.ChainAfterExtraction | Meziantou.FluentAssertionsAnalyzers/NunitAssertAnalyzerCodeFixProvider.cs:571-574 | after one extraction, the rest of the chain must be member references: at most one invocation link |
| NunitChains.MatchWithoutExtraction | Meziantou.FluentAssertionsAnalyzers/NunitAssertAnalyzerCodeFixProvider.cs:565-606 | a match that extracted nothing is exactly an `Is` match |
| NunitCodeFix.Fluent | Meziantou.FluentAssertionsAnalyzers/NunitAssertAnalyzerCodeFixProvider.cs:825-830 | `RewriteUsingShould`: the subject, method and type argument as given, every argument re-created without its label |
| NunitCodeFix.Swapped | Meziantou.FluentAssertionsAnalyzers/NunitAssertAnalyzerCodeFixProvider.cs:797-808 | throws iff fewer than two arguments; otherwise subject `args[1]`, then `args[0]`, then `args[2..]` in order |
| NunitCodeFix.OnFirst | Meziantou.FluentAssertionsAnalyzers/NunitAssertAnalyzerCodeFixProvider.cs:810-813 | throws iff there is no argument; otherwise subject `args[0]` followed by `args[1..]` |
| NunitCodeFix.WithExpected | Meziantou.FluentAssertionsAnalyzers/NunitAssertAnalyzerCodeFixProvider.cs:289-292 | the injected expected value first, then `args[1..]`, on `args[0]` |
| NunitCodeFix.InOrder | Meziantou.FluentAssertionsAnalyzers/NunitAssertAnalyzerCodeFixProvider.cs:698-701 | subject `args[0]`, then `args[1]`, then `args[2..]` |
| NunitCodeFix.InvokeFluentActionsInvoking | Meziantou.FluentAssertionsAnalyzers/NunitAssertAnalyzerCodeFixProvider.cs:845-850 | present iff `FluentAssertions.FluentActions` resolves |
| NunitCodeFix.ThrowFix | Meziantou.FluentAssertionsAnalyzers/NunitAssertAnalyzerCodeFixProvider.cs:293-298 | throws iff FluentActions or the exception type is missing; otherwise `FluentActions.Invoking(code).Should().M<T>(rest)` |
| NunitCodeFix.ExceptionMethod | Meziantou.FluentAssertionsAnalyzers/NunitAssertAnalyzerCodeFixProvider.cs:293-380 | a FluentAssertions method exactly for Catch, CatchAsync, Throws and ThrowsAsync |
| NunitCodeFix.ExceptionMethodNames | Meziantou.FluentAssertionsAnalyzers/NunitAssertAnalyzerCodeFixProvider.cs:293-380 | each maps to a Throw method; exactly Throws/ThrowsAsync become ThrowExactly, and exactly the Async forms stay Async |
| NunitCodeFix.GetConstantTypeValue | Meziantou.FluentAssertionsAnalyzers/NunitAssertAnalyzerCodeFixProvider.cs:783-790 | a type iff the expression's operation is a `typeof` |
| NunitCodeFix.ExceptionFix | Meziantou.FluentAssertionsAnalyzers/NunitAssertAnalyzerCodeFixProvider.cs:293-380 | every outcome is an unlabelled FluentAssertions call, an unchanged document or a throw |
| NunitCodeFix.NoThrowFix | Meziantou.FluentAssertionsAnalyzers/NunitAssertAnalyzerCodeFixProvider.cs:381-390 | throws iff there is no argument or FluentActions does not resolve; otherwise `FluentActions.Invoking(args[0]).Should().M(args[1..])` |
| NunitCodeFix.ExtractedFix | Meziantou.FluentAssertionsAnalyzers/NunitAssertAnalyzerCodeFixProvider.cs:475-518 | throws iff the matcher extracted no argument syntax; otherwise `args[0].Should().M(extracted, args[2..])` |
| NunitCodeFix.ConstraintFix | Meziantou.FluentAssertionsAnalyzers/NunitAssertAnalyzerCodeFixProvider.cs:411-442 | the boolean constraint forms: every outcome is an unlabelled FluentAssertions call, an unchanged document or a throw |
| NunitCodeFix.ConstraintMemberFix | Meziantou.FluentAssertionsAnalyzers/NunitAssertAnalyzerCodeFixProvider.cs:443-474 | the other member-chain constraint forms: every outcome is an unlabelled FluentAssertions call, an unchanged document or a throw |
| NunitCodeFix.ConstraintMethodFix | Meziantou.FluentAssertionsAnalyzers/NunitAssertAnalyzerCodeFixProvider.cs:475-534 | the constraint forms built by a method call: every outcome is an unlabelled FluentAssertions call, an unchanged document or a throw |
| NunitCodeFix.ThrowsInstanceOfTypeof | Meziantou.FluentAssertionsAnalyzers/NunitAssertAnalyzerCodeFixProvider.cs:528-533 | true iff `Throws.InstanceOf(x)` matched with an argument x whose operation is a `typeof` |
| NunitCodeFix.ThatFix | Meziantou.FluentAssertionsAnalyzers/NunitAssertAnalyzerCodeFixProvider.cs:391-540 | every outcome is an unlabelled FluentAssertions call, an unchanged document or a throw |
| NunitCodeFix.AssertRule | Meziantou.FluentAssertionsAnalyzers/NunitAssertAnalyzerCodeFixProvider.cs:174-234 | AreEqual to IsNaN: every outcome is an unlabelled FluentAssertions call, an unchanged document or a throw |
| NunitCodeFix.AssertValueRule | Meziantou.FluentAssertionsAnalyzers/NunitAssertAnalyzerCodeFixProvider.cs:235-292 | False to Zero (Pass apart): every outcome is an unlabelled FluentAssertions call, an unchanged document or a throw |
| NunitCodeFix.AssertActionRule | Meziantou.FluentAssertionsAnalyzers/NunitAssertAnalyzerCodeFixProvider.cs:293-395 | the exception assertions, DoesNotThrow and That: every outcome is an unlabelled FluentAssertions call, an unchanged document or a throw |
| NunitCodeFix.AssertFix | Meziantou.FluentAssertionsAnalyzers/NunitAssertAnalyzerCodeFixProvider.cs:279-288 | imports are off exactly when the node becomes `return;`; every other replacement is a FluentAssertions call |
| NunitCodeFix.StringAssertFix | Meziantou.FluentAssertionsAnalyzers/NunitAssertAnalyzerCodeFixProvider.cs:653-695 | every outcome is an unlabelled FluentAssertions call, an unchanged document or a throw |
| NunitCodeFix.NoComparerAt | Meziantou.FluentAssertionsAnalyzers/NunitAssertAnalyzerCodeFixProvider.cs:710-714 | false iff the overload has a parameter at that index whose type is the type the comparer name resolves to |
| NunitCodeFix.CollectionAssertFix | Meziantou.FluentAssertionsAnalyzers/NunitAssertAnalyzerCodeFixProvider.cs:696-754 | a throw only with fewer than two arguments; a method no rule names is left alone |
| NunitCodeFix.Rewrite | Meziantou.FluentAssertionsAnalyzers/NunitAssertAnalyzerCodeFixProvider.cs:148-172 | a non-invocation or an unresolved symbol changes nothing; imports are off only for `return;` |
| NunitCodeFix.FixDocument | Meziantou.FluentAssertionsAnalyzers/NunitAssertAnalyzerCodeFixProvider.cs:756-781 | a new expression comes with `using FluentAssertions;` and is a FluentAssertions call; `return;` leaves the usings alone; no using is lost |
| NunitCodeFix.CodeFix | Meziantou.FluentAssertionsAnalyzers/NunitAssertAnalyzerCodeFixProvider.cs:16-37 | no fix iff no node at the span |
| NunitCodeFix.AssertTwoOperandRules | Meziantou.FluentAssertionsAnalyzers/NunitAssertAnalyzerCodeFixProvider.cs:185-253 | AreNotEqual, AreSame, AreNotSame, Greater, GreaterOrEqual, Less, LessOrEqual: subject `args[1]`, then `args[0]`, then `args[2..]`; fewer than two arguments throws |
| NunitCodeFix.AssertBooleanRules | Meziantou.FluentAssertionsAnalyzers/NunitAssertAnalyzerCodeFixProvider.cs:235-277 | True/IsTrue and False/IsFalse become `BeTrue`/`BeFalse` on `args[0]`, then `args[1..]`; no argument throws |
| NunitCodeFix.AssertNullRules | Meziantou.FluentAssertionsAnalyzers/NunitAssertAnalyzerCodeFixProvider.cs:259-265 | Null/IsNull and NotNull/IsNotNull become `BeNull`/`NotBeNull` on `args[0]`, then `args[1..]`; no argument throws |
| NunitCodeFix.AssertSignRules | Meziantou.FluentAssertionsAnalyzers/NunitAssertAnalyzerCodeFixProvider.cs:255-273 | Positive and Negative become `BePositive`/`BeNegative` on `args[0]`, then `args[1..]`; no argument throws |
| NunitCodeFix.AssertEmptinessRules | Meziantou.FluentAssertionsAnalyzers/NunitAssertAnalyzerCodeFixProvider.cs:197-212 | IsEmpty/IsNotEmpty give BeEmpty/NotBeEmpty on `args[0]`; an overload without parameters or a call without arguments throws |
| NunitCodeFix.InstanceOfRules | Meziantou.FluentAssertionsAnalyzers/NunitAssertAnalyzerCodeFixProvider.cs:213-230 | the Type form swaps the operands, the generic form puts its type argument on `args[0]`, more type arguments change nothing |
| NunitCodeFix.NoThrowRules | Meziantou.FluentAssertionsAnalyzers/NunitAssertAnalyzerCodeFixProvider.cs:381-390 | DoesNotThrow/DoesNotThrowAsync give NotThrow/NotThrowAsync on `FluentActions.Invoking(args[0])`; throws iff no argument or no FluentActions |
| NunitCodeFix.AreEqualRule | Meziantou.FluentAssertionsAnalyzers/NunitAssertAnalyzerCodeFixProvider.cs:174-184 | `BeApproximately` when the first parameter is a double, `Be` otherwise, operands swapped |
| NunitCodeFix.StringAssertRules | Meziantou.FluentAssertionsAnalyzers/NunitAssertAnalyzerCodeFixProvider.cs:653-695 | all ten StringAssert rules swap the operands and keep the rest in order |
| NunitCodeFix.CollectionAssertTwoOperandRules | Meziantou.FluentAssertionsAnalyzers/NunitAssertAnalyzerCodeFixProvider.cs:710-747 | the equality, equivalence and subset rules swap the operands and keep the rest in order |
| NunitCodeFix.CollectionAssertOneOperandRules | Meziantou.FluentAssertionsAnalyzers/NunitAssertAnalyzerCodeFixProvider.cs:702-754 | AllItemsAreNotNull, AllItemsAreUnique, IsNotEmpty, IsEmpty and comparer-free IsOrdered act on `args[0]` and keep `args[1..]` |
| NunitCodeFix.CollectionAssertInOrderRules | Meziantou.FluentAssertionsAnalyzers/NunitAssertAnalyzerCodeFixProvider.cs:698-733 | AllItemsAreInstancesOfType, Contains, DoesNotContain: subject `args[0]`, then `args[1]`, then `args[2..]` |
| NunitCodeFix.CollectionAssertComparerUnchanged | Meziantou.FluentAssertionsAnalyzers/NunitAssertAnalyzerCodeFixProvider.cs:710-754 | AreEqual/AreNotEqual/IsOrdered with the comparer parameter leave the document unchanged |
| NunitCodeFix.ComparerGuardVacuous | Meziantou.FluentAssertionsAnalyzers/NunitAssertAnalyzerCodeFixProvider.cs:710-714 | where the misspelt comparer name does not resolve, the guard never blocks |
| NunitCodeFix.LiteralInjection | Meziantou.FluentAssertionsAnalyzers/NunitAssertAnalyzerCodeFixProvider.cs:231-292 | Zero gives `Be(0, rest)`, NotZero gives `NotBe(0, rest)`, IsNaN gives `Be(double.NaN, rest)` |
| NunitCodeFix.PassRule | Meziantou.FluentAssertionsAnalyzers/NunitAssertAnalyzerCodeFixProvider.cs:279-288 | `Pass()` as a statement becomes `return;` with the usings untouched; otherwise the document is unchanged |
| NunitCodeFix.ExceptionRules | Meziantou.FluentAssertionsAnalyzers/NunitAssertAnalyzerCodeFixProvider.cs:293-380 | Catch→Throw, CatchAsync→ThrowAsync, Throws→ThrowExactly, ThrowsAsync→ThrowExactlyAsync; the type comes from the type argument, System.Exception or the `typeof` operand; no `typeof` leaves the document unchanged |
| NunitCodeFix.UnhandledCallsUnchanged | Meziantou.FluentAssertionsAnalyzers/NunitAssertAnalyzerCodeFixProvider.cs:756-758 | an Assert method no rule names, or a call on another class, leaves the document unchanged |
| NunitCodeFix.ThatCondition | Meziantou.FluentAssertionsAnalyzers/NunitAssertAnalyzerCodeFixProvider.cs:393-396 | one parameter or a string second parameter gives `BeTrue(rest)` |
| NunitCodeFix.ThatNegatedBoolean | Meziantou.FluentAssertionsAnalyzers/NunitAssertAnalyzerCodeFixProvider.cs:419-442 | `Is.Not.True`/`Is.Not.False` give BeFalse/BeTrue on a bool and NotBeTrue/NotBeFalse on a bool? |
| NunitCodeFix.ThatNullOrEmpty | Meziantou.FluentAssertionsAnalyzers/NunitAssertAnalyzerCodeFixProvider.cs:459-462 | `Is.Null.Or.Empty` and `Is.Empty.Or.Null` both give BeNullOrEmpty |
| NunitCodeFix.HasOneItemConstraint | Meziantou.FluentAssertionsAnalyzers/NunitAssertAnalyzerCodeFixProvider.cs:395-470 | no earlier constraint form matches `Has.One.Items`, which is read as `HaveCount(1, rest)` on `arguments[0]` |
| NunitCodeFix.ThatHasOneItem | Meziantou.FluentAssertionsAnalyzers/NunitAssertAnalyzerCodeFixProvider.cs:467-470 | `Has.One.Items` gives `HaveCount(1, rest)` |
| NunitCodeFix.ThatEqualTo | Meziantou.FluentAssertionsAnalyzers/NunitAssertAnalyzerCodeFixProvider.cs:475-478 | `Is.EqualTo(x)` gives `Be(x, rest)` with x the invocation's one argument |
| XunitCodeFix.NamePartsOfDottedName | Meziantou.FluentAssertionsAnalyzers/XUnitAssertAnalyzerCodeFixProvider.cs:421-430 | a built qualified name reads back as the identifiers it was built from |
| XunitCodeFix.MemberAccessPath | Meziantou.FluentAssertionsAnalyzers/XUnitAssertAnalyzerCodeFixProvider.cs:421-430 | the foreach fold builds `DottedName` of the first identifier and all member names in order |
| XunitCodeFix.MathRound | Meziantou.FluentAssertionsAnalyzers/XUnitAssertAnalyzerCodeFixProvider.cs:134-135 | `System.Math.Round(x, p)` reads back as exactly x and p |
| XunitCodeFix.WrapLambda | Meziantou.FluentAssertionsAnalyzers/XUnitAssertAnalyzerCodeFixProvider.cs:372-381 | a lambda becomes `new T(lambda)` for the parameter's type; any other expression is kept |
| XunitCodeFix.Swapped | Meziantou.FluentAssertionsAnalyzers/XUnitAssertAnalyzerCodeFixProvider.cs:444-447 | throws iff fewer than two arguments; otherwise subject `args[1]` with the single argument `args[0]` |
| XunitCodeFix.InOrder | Meziantou.FluentAssertionsAnalyzers/XUnitAssertAnalyzerCodeFixProvider.cs:78-84 | subject `args[0]` with the single argument `args[1]` |
| XunitCodeFix.OnFirst | Meziantou.FluentAssertionsAnalyzers/XUnitAssertAnalyzerCodeFixProvider.cs:85-94 | subject `args[0]` with no argument |
| XunitCodeFix.TrueOrFalse | Meziantou.FluentAssertionsAnalyzers/XUnitAssertAnalyzerCodeFixProvider.cs:384-392 | `Be<name>` on `args[0]`, with `args[1]` as written only when there are exactly two arguments |
| XunitCodeFix.IsStringComparisonOrdinal | Meziantou.FluentAssertionsAnalyzers/XUnitAssertAnalyzerCodeFixProvider.cs:449-459 | only a reference to the member `Ordinal` of the resolved System.StringComparison passes |
| XunitCodeFix.ComparesSequences | Meziantou.FluentAssertionsAnalyzers/XUnitAssertAnalyzerCodeFixProvider.cs:106-116 | never for a string first parameter or without IEnumerable`1; when true, both parameters implement it |
| XunitCodeFix.StringMethod | Meziantou.FluentAssertionsAnalyzers/XUnitAssertAnalyzerCodeFixProvider.cs:200-247 | a FluentAssertions method exactly for StartsWith, EndsWith, Contains and DoesNotContain |
| XunitCodeFix.TypeMethod | Meziantou.FluentAssertionsAnalyzers/XUnitAssertAnalyzerCodeFixProvider.cs:167-199 | a FluentAssertions method exactly for IsAssignableFrom, IsType and IsNotType |
| XunitCodeFix.ThrowsMethod | Meziantou.FluentAssertionsAnalyzers/XUnitAssertAnalyzerCodeFixProvider.cs:284-307 | a FluentAssertions method exactly for the four Throws assertions |
| XunitCodeFix.StringFix | Meziantou.FluentAssertionsAnalyzers/XUnitAssertAnalyzerCodeFixProvider.cs:200-247 | two parameters swap the operands; three rewrite iff the comparison is `Ordinal`, else nothing changes; other overloads are left alone |
| XunitCodeFix.ContainsFix | Meziantou.FluentAssertionsAnalyzers/XUnitAssertAnalyzerCodeFixProvider.cs:71-84 | every outcome is an unlabelled FluentAssertions call, an unchanged document or a throw |
| XunitCodeFix.SingleFix | Meziantou.FluentAssertionsAnalyzers/XUnitAssertAnalyzerCodeFixProvider.cs:95-105 | one parameter gives `ContainSingle()` on `args[0]`, a Predicate<T> second parameter `ContainSingle(args[1])`; anything else is left alone |
| XunitCodeFix.EqualityFix | Meziantou.FluentAssertionsAnalyzers/XUnitAssertAnalyzerCodeFixProvider.cs:106-154 | every outcome is an unlabelled FluentAssertions call, an unchanged document or a throw |
| XunitCodeFix.TypeFix | Meziantou.FluentAssertionsAnalyzers/XUnitAssertAnalyzerCodeFixProvider.cs:167-199 | the generic form keeps its type argument on `args[0]` (none throws), the Type form swaps the operands, other overloads are left alone |
| XunitCodeFix.RangeFix | Meziantou.FluentAssertionsAnalyzers/XUnitAssertAnalyzerCodeFixProvider.cs:260-271 | every outcome is an unlabelled FluentAssertions call, an unchanged document or a throw |
| XunitCodeFix.ThrowsFix | Meziantou.FluentAssertionsAnalyzers/XUnitAssertAnalyzerCodeFixProvider.cs:284-307 | every outcome is an unlabelled FluentAssertions call, an unchanged document or a throw |
| XunitCodeFix.RuleFor | Meziantou.FluentAssertionsAnalyzers/XUnitAssertAnalyzerCodeFixProvider.cs:55-351 | a replacement is always a FluentAssertions call, and outside True/False none of its arguments has a label |
| XunitCodeFix.Rewrite | Meziantou.FluentAssertionsAnalyzers/XUnitAssertAnalyzerCodeFixProvider.cs:39-51 | a non-invocation node throws (the cast); an unresolved symbol changes nothing |
| XunitCodeFix.FixDocument | Meziantou.FluentAssertionsAnalyzers/XUnitAssertAnalyzerCodeFixProvider.cs:353-370 | a changed document has `using FluentAssertions;`; the usings change iff it was missing; nothing else is added |
| XunitCodeFix.CodeFix | Meziantou.FluentAssertionsAnalyzers/XUnitAssertAnalyzerCodeFixProvider.cs:23-37 | no fix iff no node at the span |
| XunitCodeFix.TrueFalseMessage | Meziantou.FluentAssertionsAnalyzers/XUnitAssertAnalyzerCodeFixProvider.cs:55-58 | True/False give BeTrue/BeFalse on `args[0]`; the message is carried over, label and all, only with exactly two arguments |
| XunitCodeFix.EqualTwoParameters | Meziantou.FluentAssertionsAnalyzers/XUnitAssertAnalyzerCodeFixProvider.cs:106-123 | two sequences (first not a string) give Equal/NotEqual, anything else Be/NotBe; subject `args[1]`, expected `args[0]` |
| XunitCodeFix.EqualWithPrecision | Meziantou.FluentAssertionsAnalyzers/XUnitAssertAnalyzerCodeFixProvider.cs:124-136 | `Equal(double or decimal, ..., int)` rounds both sides with `System.Math.Round` to the same precision expression, then Be/NotBe |
| XunitCodeFix.EqualWithTolerance | Meziantou.FluentAssertionsAnalyzers/XUnitAssertAnalyzerCodeFixProvider.cs:137-147 | a floating-point tolerance gives `BeApproximately(expected, tolerance)` on `args[1]` |
| XunitCodeFix.EqualWithinWindow | Meziantou.FluentAssertionsAnalyzers/XUnitAssertAnalyzerCodeFixProvider.cs:148-154 | DateTime with a third argument gives `BeCloseTo(expected, third)` on `args[1]` |
| XunitCodeFix.EqualOtherOverloadUnchanged | Meziantou.FluentAssertionsAnalyzers/XUnitAssertAnalyzerCodeFixProvider.cs:308-351 | three-parameter Equal/NotEqual of any other type (a comparer overload) is left alone |
| XunitCodeFix.SubsetAndSuperset | Meziantou.FluentAssertionsAnalyzers/XUnitAssertAnalyzerCodeFixProvider.cs:272-283 | `Subset(e, a)` gives `a.Should().BeSubsetOf(e)` and `Superset(e, a)` gives `e.Should().BeSubsetOf(a)` |
| XunitCodeFix.RangeRule | Meziantou.FluentAssertionsAnalyzers/XUnitAssertAnalyzerCodeFixProvider.cs:260-271 | `InRange(a, lo, hi)` gives `a.Should().BeInRange(lo, hi)`, NotInRange likewise |
| XunitCodeFix.StringComparisonRule | Meziantou.FluentAssertionsAnalyzers/XUnitAssertAnalyzerCodeFixProvider.cs:200-247 | the three-argument string assertions are rewritten, dropping the comparison, iff it is `StringComparison.Ordinal`; otherwise unchanged |
| XunitCodeFix.ContainsItem | Meziantou.FluentAssertionsAnalyzers/XUnitAssertAnalyzerCodeFixProvider.cs:71-77 | an item in a collection gives `collection.Should().Contain(item)` |
| XunitCodeFix.ContainsMatching | Meziantou.FluentAssertionsAnalyzers/XUnitAssertAnalyzerCodeFixProvider.cs:78-84 | a collection and a Predicate<T> give `collection.Should().Contain(predicate)` |
| XunitCodeFix.ThrowsRule | Meziantou.FluentAssertionsAnalyzers/XUnitAssertAnalyzerCodeFixProvider.cs:284-307 | Throws→ThrowExactly, ThrowsAny→Throw, ThrowsAsync→ThrowExactlyAsync, ThrowsAnyAsync→ThrowAsync with the same type argument; a lambda is wrapped as `new ParamType(lambda)`, any other expression is used as-is |
| XunitCodeFix.SubjectOnlyRules | Meziantou.FluentAssertionsAnalyzers/XUnitAssertAnalyzerCodeFixProvider.cs:59-64 | Null, NotNull, Empty, NotEmpty give BeNull, NotBeNull, BeEmpty, NotBeEmpty on `args[0]`; no argument throws |
| XunitCodeFix.CollectionRule | Meziantou.FluentAssertionsAnalyzers/XUnitAssertAnalyzerCodeFixProvider.cs:65-70 | `Collection(c, inspectors...)` gives `c.Should().SatisfyRespectively(inspectors...)` |
| XunitCodeFix.SingleRule | Meziantou.FluentAssertionsAnalyzers/XUnitAssertAnalyzerCodeFixProvider.cs:95-105 | `ContainSingle()` or `ContainSingle(predicate)` on `args[0]`; other overloads are left alone |
| XunitCodeFix.TypeRule | Meziantou.FluentAssertionsAnalyzers/XUnitAssertAnalyzerCodeFixProvider.cs:167-199 | IsAssignableFrom, IsType, IsNotType give BeAssignableTo, BeOfType, NotBeOfType, generic or swapped |
| XunitCodeFix.SwappedPairRules | Meziantou.FluentAssertionsAnalyzers/XUnitAssertAnalyzerCodeFixProvider.cs:155-166 | Same, NotSame, and two-parameter Matches and DoesNotMatch give `args[1].Should().M(args[0])` |
| XunitCodeFix.StartsEndsWithTwoParameters | Meziantou.FluentAssertionsAnalyzers/XUnitAssertAnalyzerCodeFixProvider.cs:200-219 | `StartsWith(e, a)` gives `a.Should().StartWith(e)`, EndsWith likewise |
| XunitCodeFix.UnknownAssertionUnchanged | Meziantou.FluentAssertionsAnalyzers/XUnitAssertAnalyzerCodeFixProvider.cs:308-351 | an assertion no rule names leaves the document unchanged |
| XunitCodeFix.LabelsDropped | Meziantou.FluentAssertionsAnalyzers/XUnitAssertAnalyzerCodeFixProvider.cs:444-447 | outside True/False, no argument of the replacement keeps a `name:` label |

## Left out

- Roslyn host plumbing is not modelled: the document editor, syntax roots, code-action registration, the batch fixer, and simplifier and formatter annotations. Syntax trivia is not modelled either.
- `Formatter.OrganizeImportsAsync` is not modelled. The model appends the new using at the end instead of sorting the list.
- Symbol resolution is an input: `GetTypeByMetadataName`, `DocumentationCommentId.GetSymbolsForDeclarationId`, `GetSymbolInfo` and `GetOperation` are map lookups.
- A constructed generic type keeps its definition's base type and interfaces unsubstituted. The rules only compare such types for identity.
- `GetSymbolInfo` is assumed to return a method symbol. The `(IMethodSymbol)` cast on another kind of symbol is not modelled.
- Concurrent execution is the host's concern and is left out. Each rule is modelled as one sequential call.
- Diagnostic titles, messages and severities are left out; only the ids and the locations are modelled.
- Floating point is left out: `BeApproximately`, `Math.Round` and `double.NaN` appear only as the syntax the fixes write.
- `Parenthesize` is a `Parenthesized` node; the simplifier's later removal of redundant parentheses is not modelled.
- The legacy `XUnitToFluentAssertionsAnalyzer/` project is not part of this model. It duplicates the current analyzer and fixer with older outputs.
- AssertAnalyzer.DynamicContainingType: reads the dynamic invocation from the operation itself. The source reaches it as the parent of the operation's second argument; the model takes that parent to be the invocation itself, as Roslyn sets it. Parent links are not modelled.
- AssertionMeaning models what a FluentAssertions call accepts for `bool?` subjects and non-null strings only. It exists to state that the simplifying fixes keep the meaning of an assertion.
- NunitCodeFix.AssertRule: its own contract states only the shape of the outcome. Each rule is stated by a lemma at the level of `Rewrite`, from `AssertTwoOperandRules` to `NoThrowRules`; the `Assert.That` constraint forms are covered only as far as ConstraintFix below.
- NunitCodeFix.AssertValueRule and NunitCodeFix.AssertActionRule continue the chain of AssertRule and are stated in the same way.
- NunitCodeFix.ExceptionFix: its contract states only that every outcome is an unlabelled call, an unchanged document or a throw. The rule table itself is stated by `NunitCodeFix.ExceptionRules`.
- NunitCodeFix.ConstraintFix: its contract states only the shape of the outcome. The constraint-by-constraint results are stated by the `That*` lemmas for the forms named above; the remaining forms are not stated one by one:
  - the other `Is`, `Has`, `Does` and `Contains` forms;
  - `Is.InstanceOf` and `Throws.InstanceOf`.
- NunitCodeFix.ConstraintMemberFix and NunitCodeFix.ConstraintMethodFix continue the chain of ConstraintFix and are stated in the same way.
- XunitCodeFix.RuleFor: its own contract states only the shape of the outcome. Each rule is stated by a lemma at the level of `Rewrite`.
