/**
  A registered command (slash_slack/slash_slack_command.py): binding the
  residual argument string of a command line to the declared positional
  arguments (`parse_args`), and filling the handler's argument array by
  ordinal before it is called (the start of `execute`).

  `parse_args` is modelled twice: as written (`ParseArgsAsWritten`), and as
  tests/test_slash_slack_command.test.py:105-106 expects it to behave
  (`ParseArgs`, binding `["test", ["a", "b", "c"]]`), where a trailing
  unknown-length list takes all remaining tokens as one argument. The router
  uses the second.
 */
module SlashCommand {
  import opened Common
  import opened PyStr
  import opened ArgTypes
  import opened FuncParams

  /** `[arg for arg in args.split(" ") if arg != ""]`. */
  function Tokens(args: string): (r: seq<string>)
    ensures forall k :: 0 <= k < |r| ==> r[k] != [] && ' ' !in r[k]
  {
    NonEmpty(Split(args, ' '))
  }

  /** `[args_type[i].parse(tok) for i, tok in enumerate(toks)]`, then None if any element failed. */
  function ParsePairwise(params: seq<Positional>, toks: seq<string>, rd: RealReader): (r: Option<seq<Value>>)
    requires |params| == |toks|
    ensures r.Some? <==> forall i :: 0 <= i < |toks| ==> Parse(params[i].argType, toks[i], rd).Some?
    ensures r.Some? ==> |r.value| == |toks|
    ensures r.Some? ==> forall i :: 0 <= i < |toks| ==> Parse(params[i].argType, toks[i], rd) == Some(r.value[i])
  {
    if toks == [] then Some([])
    else
      match Parse(params[0].argType, toks[0], rd)
      case None => None
      case Some(v) =>
        match ParsePairwise(params[1..], toks[1..], rd)
        case None =>
          assert forall i :: 0 <= i < |toks| - 1 ==> toks[1..][i] == toks[i + 1] && params[1..][i] == params[i + 1];
          None
        case Some(rest) =>
          assert forall i :: 1 <= i < |toks| ==> toks[i] == toks[1..][i - 1] && params[i] == params[1..][i - 1];
          Some([v] + rest)
  }

  predicate SoleString(params: seq<Positional>) {
    |params| == 1 && params[0].argType.StringType?
  }

  predicate SoleList(params: seq<Positional>) {
    |params| == 1 && params[0].argType.UnknownLengthListType?
  }

  /**
    `parse_args` as written: a sole String argument takes the whole unsplit
    string; a sole list argument returns the list parse of the tokens itself,
    not wrapped in a one-element argument list; otherwise the token count must
    equal the argument count and each token is parsed by its own argument type.
   */
  function ParseArgsAsWritten(params: seq<Positional>, args: string, rd: RealReader): Option<seq<Value>>
  {
    if SoleString(params) then
      match Parse(params[0].argType, args, rd)
      case None => None
      case Some(p) => Some([p])
    else
      var toks := Tokens(args);
      if SoleList(params) then
        match ParseList(params[0].argType.argType, toks, rd)
        case None => None
        case Some(l) => Some(l.items)
      else if |toks| != |params| then None
      else ParsePairwise(params, toks, rd)
  }

  // ---------------------------------------------------------------------------
  // Properties of parse_args as written

  /** A sole String argument receives the whole argument string, spaces included, or the parse fails. */
  lemma AsWrittenSoleString(name: string, minimumLength: Option<int>, maximumLength: Option<int>, index: nat,
                            args: string, rd: RealReader)
    ensures var r := ParseArgsAsWritten([Positional(name, StringType(minimumLength, maximumLength), index)], args, rd);
      && (r.Some? <==> IntInBounds(|args|, minimumLength, maximumLength))
      && (r.Some? ==> r.value == [StrValue(args)])
  {
  }

  /** A sole list argument yields the element values themselves, one per non-empty token. */
  lemma AsWrittenSoleList(p: Positional, args: string, rd: RealReader)
    requires p.argType.UnknownLengthListType?
    ensures var r := ParseArgsAsWritten([p], args, rd); var toks := Tokens(args);
      && (r.Some? <==> forall i :: 0 <= i < |toks| ==> Parse(p.argType.argType, toks[i], rd).Some?)
      && (r.Some? ==> |r.value| == |toks|
                      && forall i :: 0 <= i < |toks| ==> Parse(p.argType.argType, toks[i], rd) == Some(r.value[i]))
  {
  }

  /** Otherwise, a token count different from the argument count fails. */
  lemma AsWrittenCountMismatch(params: seq<Positional>, args: string, rd: RealReader)
    requires !SoleString(params) && !SoleList(params)
    requires |Tokens(args)| != |params|
    ensures ParseArgsAsWritten(params, args, rd) == None
  {
  }

  /** Otherwise, element `i` is the parse of token `i` by argument `i`, and one failure fails the whole. */
  lemma AsWrittenPairwise(params: seq<Positional>, args: string, rd: RealReader)
    requires !SoleString(params) && !SoleList(params)
    requires |Tokens(args)| == |params|
    ensures var r := ParseArgsAsWritten(params, args, rd); var toks := Tokens(args);
      && (r.Some? <==> forall i :: 0 <= i < |toks| ==> Parse(params[i].argType, toks[i], rd).Some?)
      && (r.Some? ==> |r.value| == |params|
                      && forall i :: 0 <= i < |toks| ==> Parse(params[i].argType, toks[i], rd) == Some(r.value[i]))
  {
  }

  /** A command without arguments accepts exactly the argument strings without tokens, binding nothing. */
  lemma AsWrittenNoArguments(args: string, rd: RealReader)
    ensures ParseArgsAsWritten([], args, rd).Some? <==> Tokens(args) == []
    ensures ParseArgsAsWritten([], args, rd).Some? ==> ParseArgsAsWritten([], args, rd).value == []
  {
  }

  /** A non-empty token without spaces. */
  predicate Word(w: string) {
    w != [] && ' ' !in w
  }

  lemma TokensOfTwo(a: string, b: string)
    requires Word(a) && Word(b)
    ensures Tokens(a + " " + b) == [a, b]
  {
    assert a + " " + b == a + [' '] + b;
    SplitAround(a, b, ' ');
    SplitNoSep(a, ' ');
    SplitNoSep(b, ' ');
    assert Split(a + " " + b, ' ') == [a, b];
    NonEmptyOfNonEmpty([a, b]);
  }

  lemma TokensOfFour(a: string, b: string, c: string, d: string)
    requires Word(a) && Word(b) && Word(c) && Word(d)
    ensures Tokens(a + " " + b + " " + c + " " + d) == [a, b, c, d]
  {
    SplitNoSep(d, ' ');
    SplitCons(c, d);
    assert b + " " + c + " " + d == b + " " + (c + " " + d);
    SplitCons(b, c + " " + d);
    assert a + " " + b + " " + c + " " + d == a + " " + (b + " " + c + " " + d);
    SplitCons(a, b + " " + c + " " + d);
    assert Split(a + " " + b + " " + c + " " + d, ' ') == [a] + ([b] + ([c] + [d]));
    assert [a] + ([b] + ([c] + [d])) == [a, b, c, d];
    NonEmptyOfNonEmpty([a, b, c, d]);
  }

  /** A word and a space in front of a string add that word as the first piece. */
  lemma SplitCons(w: string, s: string)
    requires Word(w)
    ensures Split(w + " " + s, ' ') == [w] + Split(s, ' ')
  {
    assert w + " " + s == w + [' '] + s;
    SplitAround(w, s, ' ');
    SplitNoSep(w, ' ');
  }

  /**
    Finding: a sole list argument binds every token as a separate value. With
    two or more tokens the result has more elements than there are declared
    arguments, so the hydration loop in `execute` looks up a declared argument
    that does not exist.
   */
  lemma SoleListUnwrapped(name: string, index: nat, args: string, rd: RealReader)
    requires |Tokens(args)| >= 2
    ensures var params := [Positional(name, UnknownLengthListType(StringType(None, None)), index)];
      var r := ParseArgsAsWritten(params, args, rd);
      r.Some? && |r.value| == |Tokens(args)| > |params|
  {
    AsWrittenSoleList(Positional(name, UnknownLengthListType(StringType(None, None)), index), args, rd);
  }

  /** The one-character strings of `w`, each bound as a String value. */
  function CharValues(w: string): (r: seq<Value>)
    ensures |r| == |w| && forall i :: 0 <= i < |w| ==> r[i] == StrValue([w[i]])
  {
    seq(|w|, i requires 0 <= i < |w| => StrValue([w[i]]))
  }

  /** The schema of the test suite's handler `d(s: str, u=UnknownLengthListType(StringType()))`. */
  const StringThenList: seq<Positional> :=
    [Positional("s", StringType(None, None), 0), Positional("u", UnknownLengthListType(StringType(None, None)), 1)]

  /**
    Finding: a list after a String argument is given a single token and binds
    the characters of that token (`"x abc"` gives `["x", ["a", "b", "c"]]`).
   */
  lemma TrailingListGetsOneToken(x: string, y: string, rd: RealReader)
    requires Word(x) && Word(y)
    ensures ParseArgsAsWritten(StringThenList, x + " " + y, rd)
         == Some([StrValue(x), ListValue(CharValues(y))])
  {
    var params := StringThenList;
    TokensOfTwo(x, y);
    AsWrittenPairwise(params, x + " " + y, rd);
    var r := ParseArgsAsWritten(params, x + " " + y, rd);
    var l := ParseList(StringType(None, None), Chars(y), rd);
    assert r.Some? && |r.value| == 2;
    assert r.value[0] == StrValue(x);
    assert r.value[1] == l.value;
    assert l.value.items == CharValues(y);
    assert r.value == [r.value[0], r.value[1]];
  }

  /**
    Finding, continued: the test suite's `"test a b c"` for the same schema
    fails, because four tokens do not match two declared arguments.
   */
  lemma TrailingListRejectsSeveral(t: string, a: string, b: string, c: string, rd: RealReader)
    requires Word(t) && Word(a) && Word(b) && Word(c)
    ensures ParseArgsAsWritten(StringThenList, t + " " + a + " " + b + " " + c, rd) == None
  {
    TokensOfFour(t, a, b, c);
  }

  // ---------------------------------------------------------------------------
  // parse_args as intended

  predicate LastIsListType(params: seq<Positional>) {
    |params| > 0 && params[|params| - 1].argType.UnknownLengthListType?
  }

  /**
    `parse_args` as intended: like the code, except that a trailing list
    argument takes all tokens left after the preceding arguments and binds them
    as one list value. A list that follows other arguments needs at least one
    token; a sole list accepts none.
   */
  function ParseArgs(params: seq<Positional>, args: string, rd: RealReader): (r: Option<seq<Value>>)
    ensures r.Some? ==> |r.value| == |params|
  {
    if SoleString(params) then
      match Parse(params[0].argType, args, rd)
      case None => None
      case Some(p) => Some([p])
    else
      var toks := Tokens(args);
      if LastIsListType(params) then BindTrailingList(params, toks, rd)
      else if |toks| != |params| then None
      else ParsePairwise(params, toks, rd)
  }

  /** The leading arguments take one token each and the trailing list takes the rest. */
  function BindTrailingList(params: seq<Positional>, toks: seq<string>, rd: RealReader): (r: Option<seq<Value>>)
    requires LastIsListType(params)
    ensures r.Some? ==> |r.value| == |params|
  {
    var n := |params| - 1;
    if n > 0 && |toks| <= n then None
    else
      match ParsePairwise(params[..n], toks[..n], rd)
      case None => None
      case Some(front) =>
        match ParseList(params[n].argType.argType, toks[n..], rd)
        case None => None
        case Some(l) => Some(front + [l])
  }

  /**
    What a binding with a trailing list means: it succeeds exactly when there
    are enough tokens and every token parses, with the leading arguments taking
    one token each and the list receiving every remaining token.
   */
  predicate TrailingBinding(params: seq<Positional>, toks: seq<string>, rd: RealReader, r: Option<seq<Value>>)
    requires LastIsListType(params)
  {
    var n := |params| - 1;
    var e := params[n].argType.argType;
    && (r.Some? <==>
         && (n == 0 || |toks| > n)
         && (forall i :: 0 <= i < n && i < |toks| ==> Parse(params[i].argType, toks[i], rd).Some?)
         && (forall i :: n <= i < |toks| ==> Parse(e, toks[i], rd).Some?))
    && (r.Some? ==>
         && |r.value| == |params| && |toks| >= n
         && (forall i :: 0 <= i < n ==> Parse(params[i].argType, toks[i], rd) == Some(r.value[i]))
         && r.value[n].ListValue? && |r.value[n].items| == |toks| - n
         && (forall i :: n <= i < |toks| ==> Parse(e, toks[i], rd) == Some(r.value[n].items[i - n])))
  }

  lemma BindTrailingListMeaning(params: seq<Positional>, toks: seq<string>, rd: RealReader)
    requires LastIsListType(params)
    ensures TrailingBinding(params, toks, rd, BindTrailingList(params, toks, rd))
  {
    var n := |params| - 1;
    var e := params[n].argType.argType;
    var r := BindTrailingList(params, toks, rd);
    if n > 0 && |toks| <= n {
      assert r == None;
    } else {
      PrefixPairwise(params, toks, n, rd);
      SuffixList(e, toks, n, rd);
      var front := ParsePairwise(params[..n], toks[..n], rd);
      var l := ParseList(e, toks[n..], rd);
      if front.None? || l.None? {
        assert r == None;
      } else {
        var v := front.value + [l.value];
        assert r == Some(v);
        assert forall i :: 0 <= i < n ==> v[i] == front.value[i];
        assert v[n] == l.value;
      }
    }
  }

  /** Pairwise parsing of the first `n` tokens, stated on the whole token sequence. */
  lemma PrefixPairwise(params: seq<Positional>, toks: seq<string>, n: nat, rd: RealReader)
    requires n <= |params| && n <= |toks|
    ensures var r := ParsePairwise(params[..n], toks[..n], rd);
      && (r.Some? <==> forall i :: 0 <= i < n ==> Parse(params[i].argType, toks[i], rd).Some?)
      && (r.Some? ==> |r.value| == n && forall i :: 0 <= i < n ==> Parse(params[i].argType, toks[i], rd) == Some(r.value[i]))
  {
    assert forall i :: 0 <= i < n ==> toks[..n][i] == toks[i] && params[..n][i] == params[i];
  }

  /** The list parse of the tokens from `n` on, stated on the whole token sequence. */
  lemma SuffixList(e: ArgType, toks: seq<string>, n: nat, rd: RealReader)
    requires n <= |toks|
    ensures var l := ParseList(e, toks[n..], rd);
      && (l.Some? <==> forall i :: n <= i < |toks| ==> Parse(e, toks[i], rd).Some?)
      && (l.Some? ==> l.value.ListValue? && |l.value.items| == |toks| - n
                      && forall i :: n <= i < |toks| ==> Parse(e, toks[i], rd) == Some(l.value.items[i - n]))
  {
    assert forall i :: n <= i < |toks| ==> toks[n..][i - n] == toks[i];
  }

  /** With a trailing list, the intended parser binds the tokens of the argument string as `TrailingBinding` says. */
  lemma ParseArgsTrailingList(params: seq<Positional>, args: string, rd: RealReader)
    requires LastIsListType(params)
    ensures TrailingBinding(params, Tokens(args), rd, ParseArgs(params, args, rd))
  {
    BindTrailingListMeaning(params, Tokens(args), rd);
  }

  /** Without a list argument the intended binding is the code's. */
  lemma ParseArgsWithoutList(params: seq<Positional>, args: string, rd: RealReader)
    requires forall i :: 0 <= i < |params| ==> !params[i].argType.UnknownLengthListType?
    ensures ParseArgs(params, args, rd) == ParseArgsAsWritten(params, args, rd)
  {
  }

  /** The test suite's leading string and trailing list: `"test a b c"` binds `["test", ["a", "b", "c"]]`. */
  lemma ParseArgsTrailingListExample(t: string, a: string, b: string, c: string, rd: RealReader)
    requires Word(t) && Word(a) && Word(b) && Word(c)
    ensures ParseArgs(StringThenList, t + " " + a + " " + b + " " + c, rd)
         == Some([StrValue(t), ListValue([StrValue(a), StrValue(b), StrValue(c)])])
  {
    TokensOfFour(t, a, b, c);
    BindStringThenList(t, [a, b, c], rd);
    assert StrValues([a, b, c]) == [StrValue(a), StrValue(b), StrValue(c)];
  }

  /** The same schema rejects a single token (`"test"`): the trailing list needs a token of its own. */
  lemma ParseArgsTrailingListTooFew(t: string, rd: RealReader)
    requires Word(t)
    ensures ParseArgs(StringThenList, t, rd) == None
  {
    SplitNoSep(t, ' ');
  }

  /** Each word bound as a String value. */
  function StrValues(ws: seq<string>): (r: seq<Value>)
    ensures |r| == |ws| && forall i :: 0 <= i < |ws| ==> r[i] == StrValue(ws[i])
  {
    seq(|ws|, i requires 0 <= i < |ws| => StrValue(ws[i]))
  }

  /** Under `(String, List(String))` the first token is bound alone and the others form the list. */
  lemma BindStringThenList(t: string, rest: seq<string>, rd: RealReader)
    requires rest != []
    ensures BindTrailingList(StringThenList, [t] + rest, rd) == Some([StrValue(t), ListValue(StrValues(rest))])
  {
    var toks := [t] + rest;
    assert toks[..1] == [t] && toks[1..] == rest;
    var front := ParsePairwise(StringThenList[..1], [t], rd);
    assert Parse(StringType(None, None), t, rd) == Some(StrValue(t));
    assert front.Some? && front.value == [front.value[0]] && front.value[0] == StrValue(t);
    var l := ParseList(StringType(None, None), rest, rd);
    assert forall i :: 0 <= i < |rest| ==> Parse(StringType(None, None), rest[i], rd) == Some(StrValue(rest[i]));
    assert l.Some? && l.value == ListValue(StrValues(rest));
    assert StringThenList[1].argType.argType == StringType(None, None);
    assert BindTrailingList(StringThenList, toks, rd) == Some(front.value + [l.value]);
    assert front.value + [l.value] == [StrValue(t), ListValue(StrValues(rest))];
  }

  /** A sole list argument binds all tokens as one list value (`"a b"` gives `[["a", "b"]]`). */
  lemma ParseArgsSoleListExample(a: string, b: string, rd: RealReader)
    requires Word(a) && Word(b)
    ensures ParseArgs([Positional("u", UnknownLengthListType(StringType(None, None)), 0)], a + " " + b, rd)
         == Some([ListValue([StrValue(a), StrValue(b)])])
  {
    TokensOfTwo(a, b);
    var params := [Positional("u", UnknownLengthListType(StringType(None, None)), 0)];
    BindTrailingListMeaning(params, [a, b], rd);
    var r := BindTrailingList(params, [a, b], rd);
    var items := r.value[0].items;
    assert |items| == 2 && items[0] == StrValue(a) && items[1] == StrValue(b);
    assert items == [StrValue(a), StrValue(b)];
    assert r.value == [r.value[0]];
  }

  // ---------------------------------------------------------------------------
  // Hydration of the handler's arguments

  /** One slot of the handler's argument array; `Empty` is Python's None. */
  datatype Slot = Empty | ArgSlot(value: Value) | FlagSlot(set_: bool)

  /**
    The indices a schema names lie below the handler's arity and are pairwise
    distinct: positional and flag indices are each strictly increasing and
    never coincide.
   */
  predicate WellIndexed(s: Schema, arity: nat) {
    && (forall i :: 0 <= i < |s.params| ==> s.params[i].index < arity)
    && (forall j :: 0 <= j < |s.flags| ==> s.flags[j].index < arity)
    && (forall i, i' :: 0 <= i < i' < |s.params| ==> s.params[i].index < s.params[i'].index)
    && (forall j, j' :: 0 <= j < j' < |s.flags| ==> s.flags[j].index < s.flags[j'].index)
    && (forall i, j :: 0 <= i < |s.params| && 0 <= j < |s.flags| ==> s.params[i].index != s.flags[j].index)
  }

  /** The schema built from a handler indexes that handler's parameters. */
  lemma SchemaIndicesDistinct(ps: seq<Param>, s: Schema)
    requires Describes(ps, s)
    ensures WellIndexed(s, |ps|)
  {
    IndicesOfMeaning(ps, |ps|, PositionalRole);
    IndicesOfMeaning(ps, |ps|, FlagRole);
    var pi := PositionalIndices(s.params);
    var fi := FlagIndices(s.flags);
    assert forall i :: 0 <= i < |s.params| ==> pi[i] in pi;
    assert forall j :: 0 <= j < |s.flags| ==> fi[j] in fi;
  }

  /**
    The argument array built at the start of `execute`: `arity` slots of None,
    the i-th parsed value at the index of the i-th positional argument, then
    every flag slot set to whether its name was given. More values than
    positional arguments raise an IndexError, modelled as None.
   */
  method HydrateFuncArgs(arity: nat, s: Schema, values: seq<Value>, flags: set<string>)
    returns (r: Option<seq<Slot>>)
    requires WellIndexed(s, arity)
    ensures r.Some? <==> |values| <= |s.params|
    ensures r.Some? ==> |r.value| == arity
    ensures r.Some? ==> forall i :: 0 <= i < |values| ==> r.value[s.params[i].index] == ArgSlot(values[i])
    ensures r.Some? ==> forall j :: 0 <= j < |s.flags| ==> r.value[s.flags[j].index] == FlagSlot(s.flags[j].name in flags)
    ensures r.Some? ==> forall k :: 0 <= k < arity && Untouched(s, |values|, |s.flags|, k) ==> r.value[k] == Empty
  {
    var fArgs := new Slot[arity](_ => Empty);
    // The IndexError is raised on the first value without a positional
    // argument; the partly filled array is then discarded.
    if |values| > |s.params| {
      return None;
    }
    FillValues(fArgs, s, values);
    FillFlags(fArgs, s, |values|, flags);
    r := Some(fArgs[..]);
  }

  /** Writes each value into the slot of its positional argument. */
  method FillValues(fArgs: array<Slot>, s: Schema, values: seq<Value>)
    requires WellIndexed(s, fArgs.Length) && |values| <= |s.params|
    requires forall k :: 0 <= k < fArgs.Length ==> fArgs[k] == Empty
    modifies fArgs
    ensures forall i :: 0 <= i < |values| ==> fArgs[s.params[i].index] == ArgSlot(values[i])
    ensures forall k :: 0 <= k < fArgs.Length && Untouched(s, |values|, 0, k) ==> fArgs[k] == Empty
  {
    for i := 0 to |values|
      invariant forall i' :: 0 <= i' < i ==> fArgs[s.params[i'].index] == ArgSlot(values[i'])
      invariant forall k :: 0 <= k < fArgs.Length && Untouched(s, i, 0, k) ==> fArgs[k] == Empty
    {
      fArgs[s.params[i].index] := ArgSlot(values[i]);
    }
  }

  /** Writes each flag's presence into its slot, leaving the values in place. */
  method FillFlags(fArgs: array<Slot>, s: Schema, nv: nat, flags: set<string>)
    requires WellIndexed(s, fArgs.Length) && nv <= |s.params|
    modifies fArgs
    ensures forall i :: 0 <= i < nv ==> fArgs[s.params[i].index] == old(fArgs[s.params[i].index])
    ensures forall j :: 0 <= j < |s.flags| ==> fArgs[s.flags[j].index] == FlagSlot(s.flags[j].name in flags)
    ensures forall k :: 0 <= k < fArgs.Length && Untouched(s, 0, |s.flags|, k) ==> fArgs[k] == old(fArgs[k])
  {
    for j := 0 to |s.flags|
      invariant forall i :: 0 <= i < nv ==> fArgs[s.params[i].index] == old(fArgs[s.params[i].index])
      invariant forall j' :: 0 <= j' < j ==> fArgs[s.flags[j'].index] == FlagSlot(s.flags[j'].name in flags)
      invariant forall k :: 0 <= k < fArgs.Length && Untouched(s, 0, j, k) ==> fArgs[k] == old(fArgs[k])
    {
      fArgs[s.flags[j].index] := FlagSlot(s.flags[j].name in flags);
    }
  }

  /** Slot `k` is written neither by the first `nv` values nor by the first `nf` flags. */
  predicate Untouched(s: Schema, nv: nat, nf: nat, k: int)
    requires nv <= |s.params| && nf <= |s.flags|
  {
    && (forall i :: 0 <= i < nv ==> s.params[i].index != k)
    && (forall j :: 0 <= j < nf ==> s.flags[j].index != k)
  }
}
