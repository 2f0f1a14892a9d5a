/**
  The schema builder `_parse_func_params` (slash_slack/slash_slack.py): it walks
  a handler's parameter list once, at registration, and classifies every
  parameter as the request-context parameter, a flag or a positional argument
  with a resolved argument type, keeping each parameter's original index.

  A handler parameter is given as a descriptor (name, annotation kind, default
  kind) instead of being read by reflection.
 */
module FuncParams {
  import opened Common
  import opened ArgTypes

  /** The annotation of a parameter, as far as the builder distinguishes it. */
  datatype Annotation =
    | Unannotated
    | RequestAnnotation   // annotated with the request class
    | StrAnnotation
    | FloatAnnotation
    | IntAnnotation
    | OtherAnnotation

  /**
    The default of a parameter. `NoDefault` also stands for an explicit default
    of `None`, which the builder treats the same way; `IntDefault` also covers
    `bool` defaults, which are Python ints.
   */
  datatype Default =
    | NoDefault
    | FlagDefault
    | ArgTypeDefault(argType: ArgType)
    | StrDefault
    | FloatDefault
    | IntDefault
    | OtherDefault

  datatype Param = Param(name: string, annotation: Annotation, default: Default)

  datatype Positional = Positional(name: string, argType: ArgType, index: nat)
  datatype FlagParam = FlagParam(name: string, index: nat)
  datatype RequestParam = RequestParam(name: string, index: nat)

  /** What the builder returns: `(params, flags, request_arg)`. */
  datatype Schema = Schema(params: seq<Positional>, flags: seq<FlagParam>, requestArg: Option<RequestParam>)

  // ---------------------------------------------------------------------------
  // Classification of one parameter

  predicate IsRequest(p: Param) {
    p.annotation == RequestAnnotation
  }

  predicate IsFlag(p: Param) {
    !IsRequest(p) && p.default == FlagDefault
  }

  predicate IsPositional(p: Param) {
    !IsRequest(p) && p.default != FlagDefault
  }

  /**
    The argument type of a positional parameter: an argument-type default
    first, then the type of a str, float or int default (any other default is
    invalid), then a str, float or int annotation (any other is invalid), and a
    string when there is neither.
   */
  function ResolveType(p: Param): Result<ArgType, Error>
  {
    match p.default
    case ArgTypeDefault(t) => Success(t)
    case StrDefault => Success(StringType(None, None))
    case FloatDefault => Success(FloatType(None, None))
    case IntDefault => Success(IntType(None, None))
    case OtherDefault | FlagDefault => Failure(InvalidDefaultValue)
    case NoDefault =>
      match p.annotation
      case StrAnnotation => Success(StringType(None, None))
      case FloatAnnotation => Success(FloatType(None, None))
      case IntAnnotation => Success(IntType(None, None))
      case Unannotated => Success(StringType(None, None))
      case OtherAnnotation | RequestAnnotation => Failure(InvalidAnnotation)
  }

  /** A positional parameter whose default is an unknown-length list. */
  predicate OpensList(p: Param) {
    IsPositional(p) && p.default.ArgTypeDefault? && p.default.argType.UnknownLengthListType?
  }

  predicate RequestBefore(ps: seq<Param>, k: int)
    requires 0 <= k <= |ps|
  {
    exists j :: 0 <= j < k && IsRequest(ps[j])
  }

  predicate ListBefore(ps: seq<Param>, k: int)
    requires 0 <= k <= |ps|
  {
    exists j :: 0 <= j < k && OpensList(ps[j])
  }

  /**
    The error parameter `k` raises when every parameter before it was accepted:
    a second request parameter, a positional parameter after an unknown-length
    list, or a type that cannot be resolved.
   */
  function ErrorAt(ps: seq<Param>, k: int): Option<Error>
    requires 0 <= k < |ps|
  {
    var p := ps[k];
    if IsRequest(p) then
      if RequestBefore(ps, k) then Some(MultipleSlashSlackRequestParameters) else None
    else if IsFlag(p) then None
    else if ListBefore(ps, k) then Some(ParamAfterUnknownLengthList)
    else if ResolveType(p).Failure? then Some(ResolveType(p).error)
    else None
  }

  /** The role the builder gives a parameter; the request role takes precedence over a flag default. */
  datatype Role = PositionalRole | FlagRole | RequestRole

  function RoleOf(p: Param): (r: Role)
    ensures r == RequestRole <==> IsRequest(p)
    ensures r == FlagRole <==> IsFlag(p)
    ensures r == PositionalRole <==> IsPositional(p)
  {
    if IsRequest(p) then RequestRole
    else if p.default == FlagDefault then FlagRole
    else PositionalRole
  }

  /** The indices, in increasing order, of the parameters among the first `n` that have `role`. */
  function IndicesOf(ps: seq<Param>, n: int, role: Role): seq<nat>
    requires 0 <= n <= |ps|
  {
    if n == 0 then []
    else IndicesOf(ps, n - 1, role) + (if RoleOf(ps[n - 1]) == role then [n - 1] else [])
  }

  // ---------------------------------------------------------------------------
  // What a successful result says about the parameters

  function PositionalIndices(params: seq<Positional>): (r: seq<nat>)
    ensures |r| == |params| && forall j :: 0 <= j < |params| ==> r[j] == params[j].index
  {
    seq(|params|, j requires 0 <= j < |params| => params[j].index)
  }

  function FlagIndices(flags: seq<FlagParam>): (r: seq<nat>)
    ensures |r| == |flags| && forall j :: 0 <= j < |flags| ==> r[j] == flags[j].index
  {
    seq(|flags|, j requires 0 <= j < |flags| => flags[j].index)
  }

  function RequestIndices(req: Option<RequestParam>): seq<nat> {
    if req.Some? then [req.value.index] else []
  }

  /** Each entry carries the name of the parameter it stands for, and a positional one its resolved type. */
  predicate Entries(ps: seq<Param>, s: Schema) {
    && (forall j :: 0 <= j < |s.params| ==>
          && s.params[j].index < |ps|
          && s.params[j].name == ps[s.params[j].index].name
          && ResolveType(ps[s.params[j].index]) == Success(s.params[j].argType))
    && (forall j :: 0 <= j < |s.flags| ==>
          s.flags[j].index < |ps| && s.flags[j].name == ps[s.flags[j].index].name)
    && (s.requestArg.Some? ==>
          s.requestArg.value.index < |ps| && s.requestArg.value.name == ps[s.requestArg.value.index].name)
  }

  /** The schema lists, in order, exactly the parameters among the first `n` of each role. */
  predicate Classifies(ps: seq<Param>, n: int, s: Schema)
    requires 0 <= n <= |ps|
  {
    && PositionalIndices(s.params) == IndicesOf(ps, n, PositionalRole)
    && FlagIndices(s.flags) == IndicesOf(ps, n, FlagRole)
    && RequestIndices(s.requestArg) == IndicesOf(ps, n, RequestRole)
    && Entries(ps, s)
  }

  /** An unknown-length list can only be the last positional argument. */
  predicate ListOnlyLast(params: seq<Positional>) {
    forall j :: 0 <= j < |params| - 1 ==> !params[j].argType.UnknownLengthListType?
  }

  predicate Describes(ps: seq<Param>, s: Schema) {
    Classifies(ps, |ps|, s) && ListOnlyLast(s.params)
  }

  // ---------------------------------------------------------------------------
  // The builder

  predicate LastIsList(params: seq<Positional>) {
    |params| > 0 && params[|params| - 1].argType.UnknownLengthListType?
  }

  /** What the builder has established after accepting the first `n` parameters. */
  predicate Built(ps: seq<Param>, n: int, s: Schema)
    requires 0 <= n <= |ps|
  {
    && (forall j :: 0 <= j < n ==> ErrorAt(ps, j).None?)
    && Classifies(ps, n, s)
    && ListOnlyLast(s.params)
    && (ListBefore(ps, n) <==> LastIsList(s.params))
  }

  lemma RequestBeforeStep(ps: seq<Param>, n: int)
    requires 0 <= n < |ps|
    ensures RequestBefore(ps, n + 1) <==> RequestBefore(ps, n) || IsRequest(ps[n])
  {
    if RequestBefore(ps, n + 1) && !IsRequest(ps[n]) {
      var j :| 0 <= j < n + 1 && IsRequest(ps[j]);
      assert j < n;
    }
  }

  lemma ListBeforeStep(ps: seq<Param>, n: int)
    requires 0 <= n < |ps|
    ensures ListBefore(ps, n + 1) <==> ListBefore(ps, n) || OpensList(ps[n])
  {
    if ListBefore(ps, n + 1) && !OpensList(ps[n]) {
      var j :| 0 <= j < n + 1 && OpensList(ps[j]);
      assert j < n;
    }
  }

  /** The request parameter is recorded exactly when one has been seen. */
  lemma {:induction false} RequestIndicesBefore(ps: seq<Param>, n: int)
    requires 0 <= n <= |ps|
    ensures IndicesOf(ps, n, RequestRole) != [] <==> RequestBefore(ps, n)
  {
    if n > 0 {
      RequestIndicesBefore(ps, n - 1);
      RequestBeforeStep(ps, n - 1);
    }
  }

  lemma StepRequest(ps: seq<Param>, n: int, s: Schema)
    requires 0 <= n < |ps| && Built(ps, n, s)
    requires IsRequest(ps[n]) && s.requestArg.None?
    ensures Built(ps, n + 1, s.(requestArg := Some(RequestParam(ps[n].name, n))))
  {
    RequestIndicesBefore(ps, n);
    ListBeforeStep(ps, n);
  }

  lemma StepFlag(ps: seq<Param>, n: int, s: Schema)
    requires 0 <= n < |ps| && Built(ps, n, s)
    requires IsFlag(ps[n])
    ensures Built(ps, n + 1, s.(flags := s.flags + [FlagParam(ps[n].name, n)]))
  {
    ListBeforeStep(ps, n);
    var s' := s.(flags := s.flags + [FlagParam(ps[n].name, n)]);
    assert FlagIndices(s'.flags) == FlagIndices(s.flags) + [n];
  }

  lemma StepPositional(ps: seq<Param>, n: int, s: Schema, t: ArgType)
    requires 0 <= n < |ps| && Built(ps, n, s)
    requires IsPositional(ps[n]) && !ListBefore(ps, n) && ResolveType(ps[n]) == Success(t)
    ensures Built(ps, n + 1, s.(params := s.params + [Positional(ps[n].name, t, n)]))
  {
    ListBeforeStep(ps, n);
    assert OpensList(ps[n]) <==> t.UnknownLengthListType?;
    var s' := s.(params := s.params + [Positional(ps[n].name, t, n)]);
    assert PositionalIndices(s'.params) == PositionalIndices(s.params) + [n];
  }

  /** The first offending parameter is the one the builder reports. */
  lemma FirstErrorDecides(ps: seq<Param>, k: int)
    requires 0 <= k < |ps| && ErrorAt(ps, k).Some? && forall j :: 0 <= j < k ==> ErrorAt(ps, j).None?
    ensures exists k' :: 0 <= k' < |ps| && ErrorAt(ps, k').Some?
    ensures exists k' :: 0 <= k' < |ps| && ErrorAt(ps, k') == ErrorAt(ps, k)
                         && forall j :: 0 <= j < k' ==> ErrorAt(ps, j).None?
  {
  }

  /**
    `_parse_func_params`: the first offending parameter decides the error;
    otherwise every parameter is classified, in order, with its index.
   */
  method ParseFuncParams(ps: seq<Param>) returns (r: Result<Schema, Error>)
    ensures r.Failure? <==> exists k :: 0 <= k < |ps| && ErrorAt(ps, k).Some?
    ensures r.Failure? ==> exists k :: 0 <= k < |ps| && ErrorAt(ps, k) == Some(r.error)
                                      && forall j :: 0 <= j < k ==> ErrorAt(ps, j).None?
    ensures r.Success? ==> Describes(ps, r.value)
  {
    var hasEncounteredUnknownLengthList := false;
    var params: seq<Positional> := [];
    var flags: seq<FlagParam> := [];
    var requestArg: Option<RequestParam> := None;
    for index := 0 to |ps|
      invariant Built(ps, index, Schema(params, flags, requestArg))
      invariant hasEncounteredUnknownLengthList <==> LastIsList(params)
    {
      var err;
      err, params, flags, requestArg, hasEncounteredUnknownLengthList :=
        ClassifyParam(ps, index, params, flags, requestArg, hasEncounteredUnknownLengthList);
      if err.Some? {
        FirstErrorDecides(ps, index);
        return Failure(err.value);
      }
    }
    r := Success(Schema(params, flags, requestArg));
  }

  /**
    One turn of the loop of `_parse_func_params`, on the parameter at `index`:
    a request parameter or a flag is recorded, a positional parameter is
    recorded with its resolved type, and a parameter that raises reports its
    error instead.
   */
  method ClassifyParam(ps: seq<Param>, index: int, params: seq<Positional>, flags: seq<FlagParam>,
                       requestArg: Option<RequestParam>, hasEncounteredUnknownLengthList: bool)
    returns (err: Option<Error>, params': seq<Positional>, flags': seq<FlagParam>,
             requestArg': Option<RequestParam>, hasList': bool)
    requires 0 <= index < |ps| && Built(ps, index, Schema(params, flags, requestArg))
    requires hasEncounteredUnknownLengthList <==> LastIsList(params)
    ensures err == ErrorAt(ps, index)
    ensures err.None? ==> Built(ps, index + 1, Schema(params', flags', requestArg'))
    ensures err.None? ==> (hasList' <==> LastIsList(params'))
  {
    params', flags', requestArg', hasList' := params, flags, requestArg, hasEncounteredUnknownLengthList;
    var p := ps[index];
    if p.annotation == RequestAnnotation {
      if requestArg.Some? {
        RequestIndicesBefore(ps, index);
        return Some(MultipleSlashSlackRequestParameters), params', flags', requestArg', hasList';
      }
      StepRequest(ps, index, Schema(params, flags, requestArg));
      requestArg' := Some(RequestParam(p.name, index));
      return None, params', flags', requestArg', hasList';
    }
    if p.default == FlagDefault {
      StepFlag(ps, index, Schema(params, flags, requestArg));
      flags' := flags + [FlagParam(p.name, index)];
      return None, params', flags', requestArg', hasList';
    }
    if hasEncounteredUnknownLengthList {
      return Some(ParamAfterUnknownLengthList), params', flags', requestArg', hasList';
    }
    var t := ResolveType(p);
    if t.Failure? {
      return Some(t.error), params', flags', requestArg', hasList';
    }
    StepPositional(ps, index, Schema(params, flags, requestArg), t.value);
    params' := params + [Positional(p.name, t.value, index)];
    if t.value.UnknownLengthListType? {
      hasList' := true;
    }
    err := None;
  }

  // ---------------------------------------------------------------------------
  // Properties of a built schema

  predicate Increasing(xs: seq<nat>) {
    forall i, j :: 0 <= i < j < |xs| ==> xs[i] < xs[j]
  }

  /** `IndicesOf` lists, in strictly increasing order, exactly the indices below `n` with the role. */
  lemma {:induction false} IndicesOfMeaning(ps: seq<Param>, n: int, role: Role)
    requires 0 <= n <= |ps|
    ensures forall i :: i in IndicesOf(ps, n, role) <==> 0 <= i < n && RoleOf(ps[i]) == role
    ensures Increasing(IndicesOf(ps, n, role))
  {
    if n > 0 {
      IndicesOfMeaning(ps, n - 1, role);
      var xs := IndicesOf(ps, n - 1, role);
      var ys := IndicesOf(ps, n, role);
      assert ys == xs + (if RoleOf(ps[n - 1]) == role then [n - 1] else []);
      forall i | 0 <= i < |xs| ensures xs[i] < n - 1 {
        assert xs[i] in xs;
      }
      forall i, j | 0 <= i < j < |ys| ensures ys[i] < ys[j] {
        assert ys[i] == xs[i];
        if j < |xs| {
          assert ys[j] == xs[j];
        }
      }
    }
  }

  /**
    A schema built from the parameters partitions their indices: every index
    lies in exactly one of the positional list, the flag list and the request
    slot, according to the parameter's role, and the lists are in order.
   */
  lemma Partition(ps: seq<Param>, s: Schema, i: int)
    requires Describes(ps, s)
    requires 0 <= i < |ps|
    ensures i in PositionalIndices(s.params) <==> IsPositional(ps[i])
    ensures i in FlagIndices(s.flags) <==> IsFlag(ps[i])
    ensures i in RequestIndices(s.requestArg) <==> IsRequest(ps[i])
    ensures Increasing(PositionalIndices(s.params)) && Increasing(FlagIndices(s.flags))
  {
    IndicesOfMeaning(ps, |ps|, PositionalRole);
    IndicesOfMeaning(ps, |ps|, FlagRole);
    IndicesOfMeaning(ps, |ps|, RequestRole);
  }

  /** The description determines the schema: two schemas that both describe the parameters are equal. */
  lemma DescribesUnique(ps: seq<Param>, s1: Schema, s2: Schema)
    requires Describes(ps, s1) && Describes(ps, s2)
    ensures s1 == s2
  {
    assert |s1.params| == |s2.params| && |s1.flags| == |s2.flags|;
    forall j | 0 <= j < |s1.params| ensures s1.params[j] == s2.params[j] {
      assert PositionalIndices(s1.params)[j] == PositionalIndices(s2.params)[j];
    }
    forall j | 0 <= j < |s1.flags| ensures s1.flags[j] == s2.flags[j] {
      assert FlagIndices(s1.flags)[j] == FlagIndices(s2.flags)[j];
    }
  }

  /** The handler `t(s=String(), f=Flag(), s2=String(), f2=Flag())` of the test suite. */
  method FlagExample() returns (r: Result<Schema, Error>)
    ensures r == Success(Schema([Positional("s", StringType(None, None), 0), Positional("s2", StringType(None, None), 2)],
                                [FlagParam("f", 1), FlagParam("f2", 3)], None))
  {
    r := ParseFuncParams(FlagHandler);
    FlagHandlerAccepted();
    FlagHandlerDescribed();
    DescribesUnique(FlagHandler, r.value, FlagSchema);
  }

  /** `t(s=StringType(), f=FlagType(), s2=StringType(), f2=FlagType())`. */
  const FlagHandler: seq<Param> :=
    [Param("s", Unannotated, ArgTypeDefault(StringType(None, None))), Param("f", Unannotated, FlagDefault),
     Param("s2", Unannotated, ArgTypeDefault(StringType(None, None))), Param("f2", Unannotated, FlagDefault)]

  const FlagSchema: Schema :=
    Schema([Positional("s", StringType(None, None), 0), Positional("s2", StringType(None, None), 2)],
           [FlagParam("f", 1), FlagParam("f2", 3)], None)

  lemma FlagHandlerAccepted()
    ensures forall k :: 0 <= k < |FlagHandler| ==> ErrorAt(FlagHandler, k).None?
  {
    assert ErrorAt(FlagHandler, 0).None?;
    assert ErrorAt(FlagHandler, 1).None?;
    assert ErrorAt(FlagHandler, 2).None?;
    assert ErrorAt(FlagHandler, 3).None?;
  }

  lemma FlagHandlerDescribed()
    ensures Describes(FlagHandler, FlagSchema)
  {
    FlagHandlerIndices();
    assert PositionalIndices(FlagSchema.params) == [0, 2];
    assert FlagIndices(FlagSchema.flags) == [1, 3];
  }

  /** The handler's parameters alternate between positional arguments and flags. */
  lemma FlagHandlerRoles()
    ensures RoleOf(FlagHandler[0]) == PositionalRole && RoleOf(FlagHandler[1]) == FlagRole
    ensures RoleOf(FlagHandler[2]) == PositionalRole && RoleOf(FlagHandler[3]) == FlagRole
  {
  }

  lemma FlagHandlerIndices()
    ensures IndicesOf(FlagHandler, 4, PositionalRole) == [0, 2]
    ensures IndicesOf(FlagHandler, 4, FlagRole) == [1, 3]
    ensures IndicesOf(FlagHandler, 4, RequestRole) == []
  {
    var ps := FlagHandler;
    FlagHandlerRoles();
    assert IndicesOf(ps, 1, PositionalRole) == [0] && IndicesOf(ps, 1, FlagRole) == [] && IndicesOf(ps, 1, RequestRole) == [];
    assert IndicesOf(ps, 2, PositionalRole) == [0] && IndicesOf(ps, 2, FlagRole) == [1] && IndicesOf(ps, 2, RequestRole) == [];
    assert IndicesOf(ps, 3, PositionalRole) == [0, 2] && IndicesOf(ps, 3, FlagRole) == [1] && IndicesOf(ps, 3, RequestRole) == [];
  }
}
