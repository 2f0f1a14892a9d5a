/**
  The argument-type system (slash_slack/arg_types.py): a closed set of
  validators, each with optional inclusive bounds, turning one raw token into
  a typed value or a uniform failure (`None`).

  Python's `float()` is not written out: every parse takes a `RealReader`
  standing for it, and only the bounds logic around it is modelled.
 */
module ArgTypes {
  import opened Common
  import opened PyStr

  /** A declared argument type. `help` text is not modelled. */
  datatype ArgType =
    | FloatType(realMinimum: Option<real>, realMaximum: Option<real>)
    | IntType(minimum: Option<int>, maximum: Option<int>)
    | StringType(minimumLength: Option<int>, maximumLength: Option<int>)
    | EnumType(values: set<string>)
    | UnknownLengthListType(argType: ArgType)

  /** A parsed argument value. */
  datatype Value =
    | FloatValue(r: real)
    | IntValue(i: int)
    | StrValue(s: string)
    | ListValue(items: seq<Value>)

  /** Python's `float(s)` on a str: the number it denotes, or None where it raises ValueError. */
  type RealReader = string -> Option<real>

  /** The bounds test shared by the numeric types: an absent bound constrains nothing. */
  predicate IntInBounds(v: int, minimum: Option<int>, maximum: Option<int>) {
    !((maximum.Some? && v > maximum.value) || (minimum.Some? && v < minimum.value))
  }

  predicate RealInBounds(v: real, minimum: Option<real>, maximum: Option<real>) {
    !((maximum.Some? && v > maximum.value) || (minimum.Some? && v < minimum.value))
  }

  /** The one-character strings obtained by iterating over a Python str. */
  function Chars(s: string): (r: seq<string>)
    ensures |r| == |s|
    ensures forall i :: 0 <= i < |s| ==> r[i] == [s[i]]
  {
    seq(|s|, i requires 0 <= i < |s| => [s[i]])
  }

  /**
    `arg_type.parse(value)` for a str `value`. A list type iterates over the
    characters of the string, as Python's `for arg in value` does.
   */
  function Parse(t: ArgType, s: string, rd: RealReader): Option<Value>
    decreases t, 0
  {
    match t
    case FloatType(minimum, maximum) =>
      (match rd(s)
       case None => None
       case Some(x) => if RealInBounds(x, minimum, maximum) then Some(FloatValue(x)) else None)
    case IntType(minimum, maximum) =>
      (match ParseInt(s)
       case None => None
       case Some(v) => if IntInBounds(v, minimum, maximum) then Some(IntValue(v)) else None)
    case StringType(minimumLength, maximumLength) =>
      if IntInBounds(|s|, minimumLength, maximumLength) then Some(StrValue(s)) else None
    case EnumType(values) =>
      if s in values then Some(StrValue(s)) else None
    case UnknownLengthListType(e) =>
      ParseList(e, Chars(s), rd)
  }

  /**
    `UnknownLengthListType(e).parse(xs)` for a list `xs` of str: the list of the
    element parses, or None as soon as one of them fails.
   */
  function ParseList(e: ArgType, xs: seq<string>, rd: RealReader): (r: Option<Value>)
    decreases e, 1, |xs|
    ensures r.Some? <==> forall i :: 0 <= i < |xs| ==> Parse(e, xs[i], rd).Some?
    ensures r.Some? ==> r.value.ListValue? && |r.value.items| == |xs|
    ensures r.Some? ==> forall i :: 0 <= i < |xs| ==> Parse(e, xs[i], rd) == Some(r.value.items[i])
  {
    if xs == [] then Some(ListValue([]))
    else
      match Parse(e, xs[0], rd)
      case None => None
      case Some(v) =>
        match ParseList(e, xs[1..], rd)
        case None =>
          assert forall i :: 0 <= i < |xs| - 1 ==> xs[1..][i] == xs[i + 1];
          None
        case Some(rest) =>
          assert forall i :: 1 <= i < |xs| ==> xs[i] == xs[1..][i - 1];
          Some(ListValue([v] + rest.items))
  }

  /**
    The loop of `UnknownLengthListType.parse`: append every element's parse to
    `l`, then fail if any of them failed.
   */
  method ParseUnknownLengthList(e: ArgType, xs: seq<string>, rd: RealReader) returns (r: Option<Value>)
    ensures r.Some? <==> forall i :: 0 <= i < |xs| ==> Parse(e, xs[i], rd).Some?
    ensures r.Some? ==> r.value.ListValue? && |r.value.items| == |xs|
    ensures r.Some? ==> forall i :: 0 <= i < |xs| ==> Parse(e, xs[i], rd) == Some(r.value.items[i])
  {
    var l: seq<Option<Value>> := [];
    for k := 0 to |xs|
      invariant |l| == k
      invariant forall i :: 0 <= i < k ==> l[i] == Parse(e, xs[i], rd)
    {
      l := l + [Parse(e, xs[k], rd)];
    }
    if None in l {
      var j :| 0 <= j < |l| && l[j] == None;
      assert Parse(e, xs[j], rd).None?;
      return None;
    }
    var items := seq(|l|, i requires 0 <= i < |l| => l[i].value);
    r := Some(ListValue(items));
  }

  // ---------------------------------------------------------------------------
  // Properties of the individual validators

  /** An Int argument accepts exactly the integer literals whose value lies within its inclusive bounds. */
  lemma IntParse(minimum: Option<int>, maximum: Option<int>, s: string, rd: RealReader)
    ensures Parse(IntType(minimum, maximum), s, rd).Some?
        <==> ParseInt(s).Some? && IntInBounds(ParseInt(s).value, minimum, maximum)
    ensures Parse(IntType(minimum, maximum), s, rd).Some? ==>
        Parse(IntType(minimum, maximum), s, rd).value == IntValue(ParseInt(s).value)
  {
  }

  /** For every bound and every integer `v`: `parse(str(v)) == v` inside the bounds, and a failure outside them. */
  lemma IntBoundsRoundTrip(minimum: Option<int>, maximum: Option<int>, v: int, rd: RealReader)
    ensures (minimum.None? || minimum.value <= v) && (maximum.None? || v <= maximum.value)
        ==> Parse(IntType(minimum, maximum), IntToString(v), rd) == Some(IntValue(v))
    ensures (minimum.Some? && v < minimum.value) || (maximum.Some? && v > maximum.value)
        ==> Parse(IntType(minimum, maximum), IntToString(v), rd) == None
  {
    IntRoundTrip(v);
  }

  /** A Float argument applies the same inclusive bounds to whatever `float()` produced. */
  lemma FloatParse(minimum: Option<real>, maximum: Option<real>, s: string, rd: RealReader)
    ensures Parse(FloatType(minimum, maximum), s, rd).Some?
        <==> rd(s).Some? && RealInBounds(rd(s).value, minimum, maximum)
    ensures Parse(FloatType(minimum, maximum), s, rd).Some? ==>
        Parse(FloatType(minimum, maximum), s, rd).value == FloatValue(rd(s).value)
  {
  }

  /** The largest magnitude up to which every integer is a double: 2^53. */
  const ExactIntegers: int := 0x20_0000_0000_0000

  /**
    `float()` reads the decimal text of every integer up to 2^53 in magnitude
    as that integer, as Python's does; beyond it, reading rounds.
   */
  ghost predicate ReadsIntegers(rd: RealReader) {
    forall v: int :: -ExactIntegers <= v <= ExactIntegers ==> rd(IntToString(v)) == Some(v as real)
  }

  /** For every bound and every integer `v` up to 2^53 in magnitude: `parse(str(v))` gives `float(v)` inside the bounds, and a failure outside them. */
  lemma FloatBoundsRoundTrip(minimum: Option<real>, maximum: Option<real>, v: int, rd: RealReader)
    requires ReadsIntegers(rd) && -ExactIntegers <= v <= ExactIntegers
    ensures (minimum.None? || minimum.value <= v as real) && (maximum.None? || v as real <= maximum.value)
        ==> Parse(FloatType(minimum, maximum), IntToString(v), rd) == Some(FloatValue(v as real))
    ensures (minimum.Some? && v as real < minimum.value) || (maximum.Some? && v as real > maximum.value)
        ==> Parse(FloatType(minimum, maximum), IntToString(v), rd) == None
  {
    assert rd(IntToString(v)) == Some(v as real);
  }

  /** A String argument returns its input unchanged exactly when the length is within the inclusive bounds. */
  lemma StringParse(minimumLength: Option<int>, maximumLength: Option<int>, s: string, rd: RealReader)
    ensures Parse(StringType(minimumLength, maximumLength), s, rd) ==
      if (minimumLength.None? || minimumLength.value <= |s|) && (maximumLength.None? || |s| <= maximumLength.value)
      then Some(StrValue(s)) else None
    ensures Parse(StringType(None, None), s, rd) == Some(StrValue(s))
  {
  }

  /** An Enum argument accepts exactly its members, compared case-sensitively, and returns the input. */
  lemma EnumParse(values: set<string>, s: string, rd: RealReader)
    ensures Parse(EnumType(values), s, rd) == Some(StrValue(s)) <==> s in values
    ensures s !in values ==> Parse(EnumType(values), s, rd) == None
  {
  }

  /** Values of the test suite: `"1.0"` is not an Int, and an empty list is not a failure. */
  lemma ParseExamples(rd: RealReader)
    ensures Parse(IntType(None, None), "1.0", rd) == None
    ensures Parse(IntType(None, None), "-100", rd) == Some(IntValue(-100))
    ensures Parse(IntType(Some(10), None), "-10", rd) == None
    ensures Parse(StringType(Some(10), None), "123456789", rd) == None
    ensures ParseList(StringType(None, None), [], rd) == Some(ListValue([]))
    ensures Parse(EnumType({"test"}), "", rd) == None
  {
    assert ParseInt("-100") == Some(-100) by {
      assert "-100"[1..] == "100";
      assert "100"[..2] == "10" && "10"[..1] == "1" && "1"[..0] == "";
    }
    assert ParseInt("-10") == Some(-10) by {
      assert "-10"[1..] == "10";
      assert "10"[..1] == "1" && "1"[..0] == "";
    }
    assert !IsDecimal("1.0") by { assert !IsDigit("1.0"[1]); }
  }

  /**
    The test suite expects `parse("one")` on a list of strings to give
    `["one"]`; the list validator iterates over the characters instead.
   */
  lemma ListOfStringIteratesCharacters(rd: RealReader)
    ensures Parse(UnknownLengthListType(StringType(None, None)), "one", rd)
         == Some(ListValue([StrValue("o"), StrValue("n"), StrValue("e")]))
  {
    var r := Parse(UnknownLengthListType(StringType(None, None)), "one", rd);
    assert Chars("one") == ["o", "n", "e"];
    assert r.Some?;
    assert r.value.items == [StrValue("o"), StrValue("n"), StrValue("e")];
  }
}
