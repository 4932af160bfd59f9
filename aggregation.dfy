/**
 * The aggregate functions of the executor: the factory NewAggFunction and one class,
 * AggFunction, standing for aggFunction together with the six variants that embed it
 * (the variant is a tag fixed at construction). Each function owns a map from group key
 * to evaluation context for the grouped protocol and a single context slot for the
 * streaming protocol. Contexts are values here: the map and the slot are reassigned
 * where the source mutates a context it holds by reference.
 */
module Aggregation {
  import opened Common
  import opened Types
  import opened AggSteps

  /** The function names of the ast package that the factory recognises. */
  const AGG_FUNC_SUM: string := "sum"
  const AGG_FUNC_COUNT: string := "count"
  const AGG_FUNC_AVG: string := "avg"
  const AGG_FUNC_GROUP_CONCAT: string := "group_concat"
  const AGG_FUNC_MAX: string := "max"
  const AGG_FUNC_MIN: string := "min"
  const AGG_FUNC_FIRST_ROW: string := "firstrow"

  function LowerChar(ch: char): char
  {
    if 'A' <= ch <= 'Z' then (ch as int + 32) as char else ch
  }

  /** strings.ToLower on the ASCII letters. */
  function ToLower(s: string): (r: string)
    ensures |r| == |s| && forall i :: 0 <= i < |s| ==> r[i] == LowerChar(s[i])
  {
    if s == [] then [] else [LowerChar(s[0])] + ToLower(s[1..])
  }

  /** The switch of NewAggFunction on the lower-cased name; None where it returns nil. */
  function VariantOf(tp: string): Option<Variant>
  {
    if tp == AGG_FUNC_SUM then Some(Sum)
    else if tp == AGG_FUNC_COUNT then Some(Count)
    else if tp == AGG_FUNC_AVG then Some(Avg)
    else if tp == AGG_FUNC_GROUP_CONCAT then Some(Concat)
    else if tp == AGG_FUNC_MAX then Some(MaxMin(true))
    else if tp == AGG_FUNC_MIN then Some(MaxMin(false))
    else if tp == AGG_FUNC_FIRST_ROW then Some(FirstRow)
    else None
  }

  /** The factory recognises exactly seven names, whatever their letter case; max and min differ only in isMax. */
  lemma FactoryNames(funcType: string)
    ensures VariantOf(ToLower(funcType)).Some? <==>
      ToLower(funcType) in {AGG_FUNC_SUM, AGG_FUNC_COUNT, AGG_FUNC_AVG, AGG_FUNC_GROUP_CONCAT,
                            AGG_FUNC_MAX, AGG_FUNC_MIN, AGG_FUNC_FIRST_ROW}
    ensures VariantOf(ToLower(funcType)) == Some(MaxMin(true)) <==> ToLower(funcType) == AGG_FUNC_MAX
    ensures VariantOf(ToLower(funcType)) == Some(MaxMin(false)) <==> ToLower(funcType) == AGG_FUNC_MIN
  {
  }

  /** The results of evaluating every argument against the row, in order. */
  function EvalArgs(args: seq<Expr>, row: Row): (vals: seq<Result<Datum, string>>)
    ensures |vals| == |args| && forall i :: 0 <= i < |args| ==> vals[i] == args[i](row)
  {
    seq(|args|, i requires 0 <= i < |args| => args[i](row))
  }

  /**
   * The argument loop and the tail of countFunction.Update and StreamUpdate (final is
   * false on the streaming path): evaluates the arguments in order and stops at the first
   * failing or null one.
   */
  method CountUpdate(ops: DatumOps, final: bool, distinct: bool, c: Ctx, args: seq<Expr>, row: Row)
    returns (r: Step)
    requires distinct && FirstStop(EvalArgs(args, row)) == |args| ==> c.checker.Some?
    ensures r == CountStep(ops, final, distinct, c, EvalArgs(args, row))
  {
    ghost var evals := EvalArgs(args, row);
    var ctx := c;
    var vals: seq<Datum> := [];
    var i := 0;
    while i < |args|
      invariant i <= |args| && i <= FirstStop(evals)
      invariant vals == Values(evals[..i])
      invariant ctx == if final then c.(count := c.count + SumInt64(ops, vals)) else c
    {
      var value := args[i](row);
      if !value.Ok? || value.value.Null? {
        CountStepStopsAt(ops, final, distinct, c, evals, i);
        return Step(ctx, StopError(value));
      }
      if final {
        ctx := ctx.(count := ctx.count + GetInt64(ops, value.value));
      }
      CountAdvance(ops, evals, i, vals, value.value);
      vals := vals + [value.value];
      i := i + 1;
    }
    assert evals[..i] == evals;
    r := CountTail(ops, final, distinct, c, evals, ctx, vals);
  }

  /**
   * The tail of countFunction.Update and StreamUpdate once every argument is non-null:
   * the DISTINCT check of the tuple, then Count++ unless the mode is Final.
   */
  method CountTail(ops: DatumOps, final: bool, distinct: bool, c: Ctx, ghost evals: seq<Result<Datum, string>>,
                   ctx: Ctx, vals: seq<Datum>)
    returns (r: Step)
    requires FirstStop(evals) == |evals| && vals == Values(evals)
    requires distinct ==> c.checker.Some?
    requires ctx == if final then c.(count := c.count + SumInt64(ops, vals)) else c
    ensures r == CountStep(ops, final, distinct, c, evals)
  {
    assert evals[..|evals|] == evals;
    var next := ctx;
    if distinct {
      var check := Check(ops, ctx.checker.value, vals);
      if check.Err? {
        return Step(ctx, Some(Traced(check.error)));
      }
      if !check.value.0 {
        return Step(ctx, None);
      }
      next := ctx.(checker := Some(check.value.1));
    }
    if !final {
      next := next.(count := next.count + 1);
    }
    return Step(next, None);
  }

  /**
   * The argument loop, the DISTINCT check and the buffer writes of concatFunction.Update
   * and StreamUpdate; text formats one value.
   */
  method ConcatUpdate(ops: DatumOps, text: Datum -> string, distinct: bool, c: Ctx, args: seq<Expr>, row: Row)
    returns (r: Step)
    requires distinct && FirstStop(EvalArgs(args, row)) == |args| ==> c.checker.Some?
    ensures r == ConcatStep(ops, text, distinct, c, EvalArgs(args, row))
  {
    ghost var evals := EvalArgs(args, row);
    var vals: seq<Datum> := [];
    var i := 0;
    while i < |args|
      invariant i <= |args| && i <= FirstStop(evals)
      invariant vals == Values(evals[..i])
    {
      var value := args[i](row);
      if value.Err? {
        return Step(c, Some(Traced(value.error)));
      }
      if value.value.Null? {
        return Step(c, None);
      }
      ValuesNext(evals, i);
      vals := vals + [value.value];
      i := i + 1;
    }
    assert evals[..i] == evals;
    var ctx := c;
    if distinct {
      var check := Check(ops, ctx.checker.value, vals);
      if check.Err? {
        return Step(ctx, Some(Traced(check.error)));
      }
      if !check.value.0 {
        return Step(ctx, None);
      }
      ctx := ctx.(checker := Some(check.value.1));
    }
    var buffer := WriteRow(ctx.buffer, text, vals);
    return Step(ctx.(buffer := Some(buffer)), None);
  }

  /** The buffer writes for one accepted row: a comma unless the buffer is new, then each value's text. */
  method WriteRow(buffer: Option<string>, text: Datum -> string, vals: seq<Datum>) returns (b: string)
    ensures b == Extend(buffer, Texts(text, vals))
  {
    b := if buffer.None? then "" else buffer.value + ",";
    ghost var start := b;
    var k := 0;
    while k < |vals|
      invariant k <= |vals| && b == start + Texts(text, vals[..k])
    {
      TextsNext(text, vals, k);
      b := b + text(vals[k]);
      k := k + 1;
    }
    assert vals[..k] == vals;
    ExtendFrom(buffer, Texts(text, vals));
  }

  class AggFunction {
    const ops: DatumOps
    const variant: Variant
    const name: string
    const distinct: bool
    var mode: Mode
    var args: seq<Expr>
    var resultMapper: map<seq<byte>, Ctx>
    var streamCtx: Option<Ctx>

    /** newAggFunc, wrapped in the variant: an empty map, no stream context, Complete mode. */
    constructor (ops: DatumOps, variant: Variant, name: string, args: seq<Expr>, distinct: bool)
      ensures this.ops == ops && this.variant == variant && this.name == name
      ensures this.args == args && this.distinct == distinct && mode == Complete
      ensures resultMapper == map[] && streamCtx == None && StreamReady()
    {
      this.ops := ops;
      this.variant := variant;
      this.name := name;
      this.distinct := distinct;
      this.args := args;
      mode := Complete;
      resultMapper := map[];
      streamCtx := None;
    }

    function IsDistinct(): bool
      reads this
    {
      distinct
    }

    function GetName(): string
      reads this
    {
      name
    }

    function GetArgs(): seq<Expr>
      reads this
    {
      args
    }

    method SetMode(m: Mode)
      modifies this`mode
      ensures mode == m
    {
      mode := m;
    }

    method SetArgs(a: seq<Expr>)
      modifies this`args
      ensures args == a
    {
      args := a;
    }

    /** Clear: back to the state the constructor leaves, apart from mode and arguments. */
    method Clear()
      modifies this`resultMapper, this`streamCtx
      ensures resultMapper == map[] && streamCtx == None && StreamReady()
    {
      resultMapper := map[];
      streamCtx := None;
    }

    /** SetContext: the map is replaced by the caller's. */
    method SetContext(m: map<seq<byte>, Ctx>)
      modifies this`resultMapper
      ensures resultMapper == m
    {
      resultMapper := m;
    }

    /** getContext: the key's context, created (with a checker iff DISTINCT) and stored on first use. */
    method GetContext(groupKey: seq<byte>) returns (c: Ctx)
      modifies this`resultMapper
      ensures (c, resultMapper) == GetOrCreate(old(resultMapper), groupKey, distinct)
    {
      if groupKey in resultMapper {
        c := resultMapper[groupKey];
      } else {
        c := NewCtx(distinct);
        resultMapper := resultMapper[groupKey := c];
      }
    }

    /** getStreamedContext: the stream's context, created (with a checker iff DISTINCT) when the slot is nil. */
    method GetStreamedContext() returns (c: Ctx)
      modifies this`streamCtx
      ensures c == StreamedContext(old(streamCtx), distinct) && streamCtx == Some(c)
    {
      if streamCtx.None? {
        streamCtx := Some(NewCtx(distinct));
      }
      c := streamCtx.value;
    }

    /**
     * The accumulation shared by Update and StreamUpdate once the context is found:
     * the variant's step on that context, with the path deciding the mode-dependent choices.
     */
    method Accumulate(c: Ctx, row: Row, path: Path) returns (s: Step)
      requires |args| >= MinArgs(variant, path)
      requires distinct && ReachesCheck(variant, path, EvalArgs(args, row)) ==> c.checker.Some?
      ensures s == AggStep(ops, variant, path, distinct, c, EvalArgs(args, row))
    {
      match variant
      case Sum =>
        s := SumStep(ops, distinct, c, args[0](row));
      case Count =>
        s := CountUpdate(ops, path == Grouped(Final), distinct, c, args, row);
      case Avg =>
        if path == Grouped(Final) {
          s := AvgFinalStep(ops, distinct, c, EvalArgs(args, row));
        } else {
          s := SumStep(ops, distinct, c, args[0](row));
        }
      case Concat =>
        s := ConcatUpdate(ops, Formatter(ops, path), distinct, c, args, row);
      case MaxMin(isMax) =>
        s := MaxMinStep(ops, isMax, c, EvalArgs(args, row));
      case FirstRow =>
        s := FirstRowStep(c, EvalArgs(args, row));
    }

    /**
     * Update: the group's context is fetched (and stored, if new) before anything can
     * fail, so even a failing call leaves the key in the map, holding whatever the step
     * left in the context.
     */
    method Update(row: Row, groupKey: seq<byte>) returns (err: Option<AggError>)
      requires |args| >= MinArgs(variant, Grouped(mode))
      requires distinct && ReachesCheck(variant, Grouped(mode), EvalArgs(args, row)) && groupKey in resultMapper
        ==> resultMapper[groupKey].checker.Some?
      modifies this`resultMapper
      ensures var c := GetOrCreate(old(resultMapper), groupKey, distinct).0;
        var s := AggStep(ops, variant, Grouped(mode), distinct, c, EvalArgs(args, row));
        resultMapper == old(resultMapper)[groupKey := s.ctx] && err == s.err
    {
      var c := GetContext(groupKey);
      var s := Accumulate(c, row, Grouped(mode));
      resultMapper := resultMapper[groupKey := s.ctx];
      err := s.err;
    }

    /** StreamUpdate: the same accumulation on the stream's context. */
    method StreamUpdate(row: Row) returns (err: Option<AggError>)
      requires |args| >= MinArgs(variant, Streamed)
      requires distinct && ReachesCheck(variant, Streamed, EvalArgs(args, row)) && streamCtx.Some?
        ==> streamCtx.value.checker.Some?
      modifies this`streamCtx
      ensures var s := AggStep(ops, variant, Streamed, distinct, StreamedContext(old(streamCtx), distinct), EvalArgs(args, row));
        streamCtx == Some(s.ctx) && err == s.err
      ensures old(StreamReady()) ==> StreamReady()
    {
      var c := GetStreamedContext();
      var s := Accumulate(c, row, Streamed);
      streamCtx := Some(s.ctx);
      err := s.err;
    }

    /** GetGroupResult: the finalized value of the group's context, which is created if the key is new. */
    method GetGroupResult(groupKey: seq<byte>) returns (d: Datum)
      modifies this`resultMapper
      ensures var (c, m) := GetOrCreate(old(resultMapper), groupKey, distinct);
        resultMapper == m && d == Finalize(ops, variant, c)
    {
      var c := GetContext(groupKey);
      d := Finalize(ops, variant, c);
    }

    /**
     * The stream slot is empty or holds a context with a distinct checker exactly when the
     * function is DISTINCT; then StreamUpdate can never reach a missing checker.
     */
    predicate StreamReady()
      reads this
    {
      streamCtx.Some? ==> (streamCtx.value.checker.Some? <==> distinct)
    }

    /**
     * GetStreamResult: the finalized value of the stream's context (a bare one if there is
     * none), after which the slot holds a bare context: one without a distinct checker.
     */
    method GetStreamResult() returns (d: Datum)
      modifies this`streamCtx
      ensures d == Finalize(ops, variant, if old(streamCtx).Some? then old(streamCtx).value else BARE_CTX)
      ensures streamCtx == Some(BARE_CTX)
      ensures distinct ==> !StreamReady()
    {
      if streamCtx.None? {
        streamCtx := Some(BARE_CTX);
      }
      d := Finalize(ops, variant, streamCtx.value);
      streamCtx := Some(BARE_CTX);
    }

    /**
     * GetStreamResult with the reset it evidently intends: the slot is emptied, so the next
     * stream starts from a context getStreamedContext makes, with a checker when DISTINCT.
     */
    method GetStreamResultCorrected() returns (d: Datum)
      modifies this`streamCtx
      ensures d == Finalize(ops, variant, if old(streamCtx).Some? then old(streamCtx).value else BARE_CTX)
      ensures streamCtx == None && StreamReady()
      ensures StreamedContext(streamCtx, distinct) == NewCtx(distinct)
    {
      var c := if streamCtx.Some? then streamCtx.value else BARE_CTX;
      d := Finalize(ops, variant, c);
      streamCtx := None;
    }
  }

  /**
   * NewAggFunction: nil for an unknown name; otherwise a fresh function of the named
   * variant, named by the lower-cased name, with the given arguments and DISTINCT flag.
   */
  method NewAggFunction(ops: DatumOps, funcType: string, funcArgs: seq<Expr>, distinct: bool)
    returns (f: AggFunction?)
    ensures f == null <==> VariantOf(ToLower(funcType)).None?
    ensures f != null ==> fresh(f) && f.ops == ops && f.variant == VariantOf(ToLower(funcType)).value
    ensures f != null ==> f.name == ToLower(funcType) && f.args == funcArgs && f.distinct == distinct
    ensures f != null ==> f.mode == Complete && f.resultMapper == map[] && f.streamCtx == None
  {
    var tp := ToLower(funcType);
    var variant := VariantOf(tp);
    if variant.None? {
      return null;
    }
    f := new AggFunction(ops, variant.value, tp, funcArgs, distinct);
  }
}
