/**
 * What a FluentAssertions boolean or string assertion checks, as the set of
 * subject values it lets pass. The simplifying analyzers and their fixes are
 * proved against this meaning: the simpler call checks the same thing.
 */
module AssertionMeaning {
  import opened Wrappers
  import opened Operations

  /** A value of a `bool?` subject. */
  datatype NullableBool = NullValue | FalseValue | TrueValue

  const AllNullableBools: set<NullableBool> := {NullValue, FalseValue, TrueValue}
  const PlainBools: set<NullableBool> := {FalseValue, TrueValue}

  function FromBool(b: bool): NullableBool
  {
    if b then TrueValue else FalseValue
  }

  /** A constant argument read as a `bool?` value: null, false or true. */
  function AsNullableBool(k: ConstantValue): Option<NullableBool>
  {
    match k
    case NullConstant => Some(NullValue)
    case BoolConstant(b) => Some(FromBool(b))
    case _ => None
  }

  /** The subject values `subject.Should().methodName(expected)` accepts, for a `bool?` (or `bool`) subject. */
  function Accepted(methodName: string, expected: Option<NullableBool>): set<NullableBool>
  {
    if methodName == "Be" && expected.Some? then {expected.value}
    else if methodName == "NotBe" && expected.Some? then AllNullableBools - {expected.value}
    else if methodName == "BeTrue" then {TrueValue}
    else if methodName == "BeFalse" then {FalseValue}
    else if methodName == "HaveValue" then {FalseValue, TrueValue}
    else if methodName == "NotHaveValue" then {NullValue}
    else if methodName == "NotBeTrue" then {NullValue, FalseValue}
    else if methodName == "NotBeFalse" then {NullValue, TrueValue}
    else {}
  }

  /** Whether `subject.Should().methodName(expected)` accepts the non-null string `s`. */
  predicate AcceptsString(methodName: string, expected: Option<string>, s: string)
  {
    if methodName == "Be" && expected.Some? then s == expected.value
    else if methodName == "NotBe" && expected.Some? then s != expected.value
    else if methodName == "BeEmpty" then s == ""
    else if methodName == "NotBeEmpty" then s != ""
    else false
  }
}
