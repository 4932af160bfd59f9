/**
 * What one Update or StreamUpdate call does to the context it works on, per aggregate
 * function. Each step takes the results of evaluating the function's arguments against
 * the row (evaluation is a pure function of the row, so the results are the same
 * whether an argument is evaluated or not) and returns the context after the call
 * together with the error the call returns. The context is returned also on error,
 * because the source updates it in place and a failing call may already have changed it.
 */
module AggSteps {
  import opened Common
  import opened Types

  /** The context after one call, and the error the call returned. */
  datatype Step = Step(ctx: Ctx, err: Option<AggError>)

  /** Which evaluation protocol a call belongs to: grouped in a given mode, or streaming. */
  datatype Mode = Complete | Final
  datatype Path = Grouped(mode: Mode) | Streamed

  /** The closed set of aggregate functions. MaxMin carries isMax. */
  datatype Variant = Sum | Count | Avg | Concat | MaxMin(isMax: bool) | FirstRow

  /** An argument that evaluated without error to a non-null value. */
  predicate Accepted(v: Result<Datum, string>)
  {
    v.Ok? && !v.value.Null?
  }

  /** The index at which a loop over the arguments stops: the first failing or null argument. */
  function FirstStop(vals: seq<Result<Datum, string>>): (j: nat)
    ensures j <= |vals|
    ensures forall k :: 0 <= k < j ==> Accepted(vals[k])
    ensures j < |vals| ==> !Accepted(vals[j])
  {
    if vals == [] || !Accepted(vals[0]) then 0 else 1 + FirstStop(vals[1..])
  }

  /** The values of arguments that all evaluated without error. */
  function Values(vals: seq<Result<Datum, string>>): (ds: seq<Datum>)
    requires forall k :: 0 <= k < |vals| ==> vals[k].Ok?
    ensures |ds| == |vals| && forall k :: 0 <= k < |vals| ==> ds[k] == vals[k].value
  {
    if vals == [] then [] else [vals[0].value] + Values(vals[1..])
  }

  /** The sum of GetInt64 over partial counts. */
  function SumInt64(ops: DatumOps, ds: seq<Datum>): int
  {
    if ds == [] then 0 else SumInt64(ops, ds[..|ds| - 1]) + GetInt64(ops, ds[|ds| - 1])
  }

  /** The error of a stopped argument loop: the evaluation error, or none for a null value. */
  function StopError(v: Result<Datum, string>): Option<AggError>
  {
    if v.Err? then Some(Traced(v.error)) else None
  }

  /** Adds d to the running value; the sum is stored even when CalculateSum fails, and only a success is counted. */
  function AddToSum(ops: DatumOps, c: Ctx, d: Datum): (r: Step)
    ensures r.ctx.checker == c.checker && r.ctx.buffer == c.buffer
    ensures r.ctx.value == ops.calculateSum(c.value, d).0
    ensures r.err.None? <==> ops.calculateSum(c.value, d).1.None?
    ensures r.ctx.count == if r.err.None? then c.count + 1 else c.count
  {
    var (sum, err) := ops.calculateSum(c.value, d);
    if err.Some? then Step(c.(value := sum), Some(Traced(err.value)))
    else Step(c.(value := sum, count := c.count + 1), None)
  }

  /**
   * updateSum and streamUpdateSum after the context is found (also Avg in Complete mode
   * and Avg's streaming update). A null value, or under DISTINCT a value already seen,
   * changes nothing; otherwise the value is added and counted.
   */
  function SumStep(ops: DatumOps, distinct: bool, c: Ctx, v: Result<Datum, string>): (r: Step)
    requires distinct && Accepted(v) ==> c.checker.Some?
    ensures r.ctx.checker.Some? == c.checker.Some? && r.ctx.buffer == c.buffer
  {
    match v
    case Err(e) => Step(c, Some(Traced(e)))
    case Ok(d) =>
      if d.Null? then Step(c, None)
      else if distinct then
        match Check(ops, c.checker.value, [d])
        case Err(e) => Step(c, Some(Traced(e)))
        case Ok((isNew, seen)) =>
          if !isNew then Step(c, None) else AddToSum(ops, c.(checker := Some(seen)), d)
      else AddToSum(ops, c, d)
  }

  /**
   * countFunction.Update and StreamUpdate after the context is found. The argument loop
   * stops at the first failing or null argument; in Final mode each argument's integer is
   * added to Count inside the loop, before the loop knows whether a later argument stops
   * it. Then the DISTINCT check of the whole tuple, and in Complete mode Count++.
   */
  function CountStep(ops: DatumOps, final: bool, distinct: bool, c: Ctx, vals: seq<Result<Datum, string>>): (r: Step)
    requires distinct && FirstStop(vals) == |vals| ==> c.checker.Some?
    ensures r.ctx.checker.Some? == c.checker.Some? && r.ctx.buffer == c.buffer && r.ctx.value == c.value
  {
    var j := FirstStop(vals);
    var loopCtx := if final then c.(count := c.count + SumInt64(ops, Values(vals[..j]))) else c;
    var bump := if final then 0 else 1;
    if j < |vals| then Step(loopCtx, StopError(vals[j]))
    else if distinct then
      match Check(ops, c.checker.value, Values(vals))
      case Err(e) => Step(loopCtx, Some(Traced(e)))
      case Ok((isNew, seen)) =>
        if !isNew then Step(loopCtx, None)
        else Step(loopCtx.(checker := Some(seen), count := loopCtx.count + bump), None)
    else Step(loopCtx.(count := loopCtx.count + bump), None)
  }

  /** One more accepted argument adds its value to the values of the prefix. */
  lemma ValuesNext(vals: seq<Result<Datum, string>>, i: nat)
    requires i < |vals| && forall k :: 0 <= k <= i ==> vals[k].Ok?
    ensures Values(vals[..i + 1]) == Values(vals[..i]) + [vals[i].value]
  {
  }

  /** SumInt64 over one more value. */
  lemma SumInt64Next(ops: DatumOps, ds: seq<Datum>, d: Datum)
    ensures SumInt64(ops, ds + [d]) == SumInt64(ops, ds) + GetInt64(ops, d)
  {
    assert (ds + [d])[..|ds|] == ds;
  }

  /** One more accepted argument in the count loop: the loop may go on, and the value joins the prefix and its sum. */
  lemma CountAdvance(ops: DatumOps, vals: seq<Result<Datum, string>>, i: nat, ds: seq<Datum>, d: Datum)
    requires i < |vals| && i <= FirstStop(vals) && vals[i] == Ok(d) && !d.Null?
    requires ds == Values(vals[..i])
    ensures i + 1 <= FirstStop(vals)
    ensures ds + [d] == Values(vals[..i + 1])
    ensures SumInt64(ops, ds + [d]) == SumInt64(ops, ds) + GetInt64(ops, d)
  {
    ValuesNext(vals, i);
    SumInt64Next(ops, ds, d);
  }

  /** A loop over the arguments that meets a failing or null argument at i stops the count step there. */
  lemma CountStepStopsAt(ops: DatumOps, final: bool, distinct: bool, c: Ctx, vals: seq<Result<Datum, string>>, i: nat)
    requires i < |vals| && !Accepted(vals[i])
    requires forall k :: 0 <= k < i ==> Accepted(vals[k])
    ensures FirstStop(vals) == i
    ensures CountStep(ops, final, distinct, c, vals)
      == Step(if final then c.(count := c.count + SumInt64(ops, Values(vals[..i]))) else c, StopError(vals[i]))
  {
  }

  /**
   * avgFunction.updateAvg (Final mode): arg1 is a partial sum, arg0 a partial count. The
   * sum is added before arg0 is evaluated, so a failing arg0 leaves the new Value with
   * the old Count.
   */
  function AvgFinalStep(ops: DatumOps, distinct: bool, c: Ctx, vals: seq<Result<Datum, string>>): (r: Step)
    requires |vals| >= 2
    requires distinct && Accepted(vals[1]) ==> c.checker.Some?
    ensures r.ctx.checker.Some? == c.checker.Some? && r.ctx.buffer == c.buffer
  {
    match vals[1]
    case Err(e) => Step(c, Some(Traced(e)))
    case Ok(s) =>
      if s.Null? then Step(c, None)
      else if distinct then
        match Check(ops, c.checker.value, [s])
        case Err(e) => Step(c, Some(Traced(e)))
        case Ok((isNew, seen)) =>
          if !isNew then Step(c, None) else AddPartial(ops, c.(checker := Some(seen)), s, vals[0])
      else AddPartial(ops, c, s, vals[0])
  }

  /** The tail of updateAvg: add the partial sum, then the partial count. */
  function AddPartial(ops: DatumOps, c: Ctx, s: Datum, n: Result<Datum, string>): (r: Step)
    ensures r.ctx.checker == c.checker && r.ctx.buffer == c.buffer
    ensures r.ctx.value == ops.calculateSum(c.value, s).0
  {
    var (sum, err) := ops.calculateSum(c.value, s);
    var c1 := c.(value := sum);
    if err.Some? then Step(c1, Some(Traced(err.value)))
    else match n
      case Err(e) => Step(c1, Some(Traced(e)))
      case Ok(count) => Step(c1.(count := c1.count + GetInt64(ops, count)), None)
  }

  /** The texts of one row's values, written one after the other with no separator. */
  function Texts(text: Datum -> string, ds: seq<Datum>): string
  {
    if ds == [] then [] else Texts(text, ds[..|ds| - 1]) + text(ds[|ds| - 1])
  }

  /** The texts of one more value are the texts so far followed by its text. */
  lemma TextsNext(text: Datum -> string, ds: seq<Datum>, k: nat)
    requires k < |ds|
    ensures Texts(text, ds[..k + 1]) == Texts(text, ds[..k]) + text(ds[k])
  {
    assert ds[..k + 1][..k] == ds[..k];
  }

  /** The buffer after one more accepted row: created empty on the first, a comma before each later one. */
  function Extend(buffer: Option<string>, t: string): (b: string)
    ensures buffer.None? ==> b == t
    ensures buffer.Some? ==> b == buffer.value + "," + t
  {
    match buffer
    case None => t
    case Some(prev) => prev + "," + t
  }

  /** Writing t after the buffer's start (empty when new, the old text and a comma otherwise) extends it. */
  lemma ExtendFrom(buffer: Option<string>, t: string)
    ensures (if buffer.None? then "" else buffer.value + ",") + t == Extend(buffer, t)
  {
    if buffer.None? {
      assert "" + t == t;
    }
  }

  /**
   * concatFunction.Update and StreamUpdate after the context is found. A row with a
   * failing or null argument is skipped; under DISTINCT so is a tuple already seen;
   * otherwise the row's texts are written. The grouped path formats raw values, the
   * streaming path whole datums: text is the formatter of the path.
   */
  function ConcatStep(ops: DatumOps, text: Datum -> string, distinct: bool, c: Ctx, vals: seq<Result<Datum, string>>): (r: Step)
    requires distinct && FirstStop(vals) == |vals| ==> c.checker.Some?
    ensures r.ctx.checker.Some? == c.checker.Some? && r.ctx.value == c.value && r.ctx.count == c.count
    ensures c.buffer.Some? ==> r.ctx.buffer.Some?
  {
    var j := FirstStop(vals);
    if j < |vals| then Step(c, StopError(vals[j]))
    else
      var written := c.(buffer := Some(Extend(c.buffer, Texts(text, Values(vals)))));
      if distinct then
        match Check(ops, c.checker.value, Values(vals))
        case Err(e) => Step(c, Some(Traced(e)))
        case Ok((isNew, seen)) =>
          if !isNew then Step(c, None) else Step(written.(checker := Some(seen)), None)
      else Step(written, None)
  }

  /**
   * maxMinFunction.Update and StreamUpdate after the context is found; DISTINCT plays no
   * part. A null stored Value first takes the new value (even a null one); a null new
   * value then stops; otherwise the new value replaces the stored one when it compares
   * strictly greater (max) or strictly smaller (min).
   */
  function MaxMinStep(ops: DatumOps, isMax: bool, c: Ctx, vals: seq<Result<Datum, string>>): (r: Step)
    ensures r.ctx.checker == c.checker && r.ctx.buffer == c.buffer && r.ctx.count == c.count
    ensures |vals| != 1 ==> r == Step(c, Some(WrongNumberOfArgs(WRONG_ARGS_MESSAGE)))
  {
    if |vals| != 1 then Step(c, Some(WrongNumberOfArgs(WRONG_ARGS_MESSAGE)))
    else match vals[0]
      case Err(e) => Step(c, Some(Traced(e)))
      case Ok(d) =>
        var seeded := if c.value.Null? then c.(value := d) else c;
        if d.Null? then Step(seeded, None)
        else match ops.compare(seeded.value, d)
          case Err(e) => Step(seeded, Some(Traced(e)))
          case Ok(cmp) =>
            if (isMax && cmp == -1) || (!isMax && cmp == 1) then Step(seeded.(value := d), None)
            else Step(seeded, None)
  }

  /**
   * firstRowFunction.Update and StreamUpdate after the context is found: nothing happens
   * once Value is non-null (not even the arity check); otherwise the one argument's value
   * is stored, null or not.
   */
  function FirstRowStep(c: Ctx, vals: seq<Result<Datum, string>>): (r: Step)
    ensures r.ctx.checker == c.checker && r.ctx.buffer == c.buffer && r.ctx.count == c.count
    ensures !c.value.Null? ==> r == Step(c, None)
  {
    if !c.value.Null? then Step(c, None)
    else if |vals| != 1 then Step(c, Some(WrongNumberOfArgs(WRONG_ARGS_MESSAGE)))
    else match vals[0]
      case Err(e) => Step(c, Some(Traced(e)))
      case Ok(d) => Step(c.(value := d), None)
  }

  /** The formatter of concatenated values: raw values on the grouped path, whole datums on the streaming path. */
  function Formatter(ops: DatumOps, path: Path): Datum -> string
  {
    if path.Grouped? then ops.valueText else ops.datumText
  }

  /** The argument count below which the source indexes past the end of Args. */
  function MinArgs(variant: Variant, path: Path): nat
  {
    match variant
    case Sum => 1
    case Avg => if path == Grouped(Final) then 2 else 1
    case _ => 0
  }

  /** Whether the row gets as far as the distinct checker, which must then exist. */
  predicate ReachesCheck(variant: Variant, path: Path, vals: seq<Result<Datum, string>>)
    requires |vals| >= MinArgs(variant, path)
  {
    match variant
    case Sum => Accepted(vals[0])
    case Avg => if path == Grouped(Final) then Accepted(vals[1]) else Accepted(vals[0])
    case Count => FirstStop(vals) == |vals|
    case Concat => FirstStop(vals) == |vals|
    case _ => false
  }

  /**
   * One Update (grouped path) or StreamUpdate (streaming path) of the given variant on the
   * context it works on. Count's streaming update ignores the mode; Avg's streaming update
   * always takes the sum path.
   */
  function AggStep(ops: DatumOps, variant: Variant, path: Path, distinct: bool, c: Ctx, vals: seq<Result<Datum, string>>): (r: Step)
    requires |vals| >= MinArgs(variant, path)
    requires distinct && ReachesCheck(variant, path, vals) ==> c.checker.Some?
    ensures r.ctx.checker.Some? == c.checker.Some?
  {
    match variant
    case Sum => SumStep(ops, distinct, c, vals[0])
    case Count => CountStep(ops, path == Grouped(Final), distinct, c, vals)
    case Avg =>
      if path == Grouped(Final) then AvgFinalStep(ops, distinct, c, vals) else SumStep(ops, distinct, c, vals[0])
    case Concat => ConcatStep(ops, Formatter(ops, path), distinct, c, vals)
    case MaxMin(isMax) => MaxMinStep(ops, isMax, c, vals)
    case FirstRow => FirstRowStep(c, vals)
  }

  /** avgFunction.calculateResult: float division, decimal division rounded to Frac + 4 digits, or empty. */
  function CalculateResult(ops: DatumOps, c: Ctx): (d: Datum)
    ensures !c.value.Float64? && !c.value.Decimal? ==> d.Null?
    ensures c.value.Float64? ==> d == ops.floatDiv(c.value, c.count)
    ensures c.value.Decimal? ==> d == ops.decimalDivRound(c.value, c.count, c.value.frac + DIV_FRAC_INCR)
  {
    match c.value
    case Float64(_) => ops.floatDiv(c.value, c.count)
    case Decimal(_, frac) => ops.decimalDivRound(c.value, c.count, frac + DIV_FRAC_INCR)
    case _ => Null
  }

  /** What GetGroupResult and GetStreamResult return for a context. */
  function Finalize(ops: DatumOps, variant: Variant, c: Ctx): Datum
  {
    match variant
    case Count => Int64(c.count)
    case Avg => CalculateResult(ops, c)
    case Concat => if c.buffer.Some? then Str(c.buffer.value) else Null
    case _ => c.value
  }

  /** The result of a context nothing was accumulated into: zero for count, null for the others. */
  lemma EmptyResult(ops: DatumOps, variant: Variant, distinct: bool)
    ensures Finalize(ops, variant, BARE_CTX) == Finalize(ops, variant, NewCtx(distinct))
    ensures Finalize(ops, variant, BARE_CTX) == if variant == Count then Int64(0) else Null
  {
  }

  /**
   * COUNT in Final mode: arguments before the first null one have already been added
   * when the null one ends the call, which returns no error.
   */
  lemma {:induction false} CountFinalStopsAfterAdding(ops: DatumOps, distinct: bool, c: Ctx,
                                                       before: seq<Result<Datum, string>>, after: seq<Result<Datum, string>>)
    requires forall k :: 0 <= k < |before| ==> Accepted(before[k])
    ensures FirstStop(before + [Ok(Null)] + after) == |before|
    ensures forall k :: 0 <= k < |before| ==> before[k].Ok?
    ensures var r := CountStep(ops, true, distinct, c, before + [Ok(Null)] + after);
      r == Step(c.(count := c.count + SumInt64(ops, Values(before))), None)
  {
    var vals := before + [Ok(Null)] + after;
    FirstStopAt(before, Ok(Null), after);
    assert vals[..|before|] == before;
  }

  /** The loop over arguments stops at the first one that is not accepted, wherever it is. */
  lemma {:induction false} FirstStopAt(before: seq<Result<Datum, string>>, stop: Result<Datum, string>, after: seq<Result<Datum, string>>)
    requires forall k :: 0 <= k < |before| ==> Accepted(before[k])
    requires !Accepted(stop)
    ensures FirstStop(before + [stop] + after) == |before|
  {
    var vals := before + [stop] + after;
    if before == [] {
      assert vals[0] == stop;
    } else {
      assert vals[0] == before[0];
      assert vals[1..] == before[1..] + [stop] + after;
      FirstStopAt(before[1..], stop, after);
    }
  }

  /**
   * AVG in Final mode is not all-or-nothing: when the partial count fails to evaluate,
   * the partial sum has already been added to Value, and Count is unchanged.
   */
  lemma AvgFinalSumBeforeCount(ops: DatumOps, c: Ctx, s: Datum, e: string)
    requires !s.Null? && ops.calculateSum(c.value, s).1.None?
    ensures AvgFinalStep(ops, false, c, [Err(e), Ok(s)])
         == Step(c.(value := ops.calculateSum(c.value, s).0), Some(Traced(e)))
  {
  }

  /** MAX and MIN ignore DISTINCT. */
  lemma MaxMinIgnoresDistinct(ops: DatumOps, isMax: bool, path: Path, c: Ctx, vals: seq<Result<Datum, string>>)
    ensures AggStep(ops, MaxMin(isMax), path, true, c, vals) == AggStep(ops, MaxMin(isMax), path, false, c, vals)
  {
  }

  /**
   * Under DISTINCT, feeding a row again right after it was accepted changes nothing, for
   * Sum, Avg, Concat, and Count outside Final mode.
   */
  lemma DistinctRepeat(ops: DatumOps, variant: Variant, path: Path, c: Ctx, vals: seq<Result<Datum, string>>)
    requires variant.Sum? || variant.Avg? || variant.Concat? || (variant.Count? && path != Grouped(Final))
    requires |vals| >= MinArgs(variant, path) && c.checker.Some?
    requires AggStep(ops, variant, path, true, c, vals).err.None?
    ensures var first := AggStep(ops, variant, path, true, c, vals).ctx;
      AggStep(ops, variant, path, true, first, vals) == Step(first, None)
  {
  }

  /** Under DISTINCT, a sum argument whose key the checker already holds leaves the context as it was. */
  lemma SumSeenUnchanged(ops: DatumOps, c: Ctx, d: Datum)
    requires c.checker.Some? && ops.distinctKey([d]).Ok? && ops.distinctKey([d]).value in c.checker.value
    ensures SumStep(ops, true, c, Ok(d)) == Step(c, None)
  {
  }

  /** Under DISTINCT in Final mode, a partial sum whose key the checker already holds leaves the context as it was. */
  lemma AvgFinalSeenUnchanged(ops: DatumOps, c: Ctx, vals: seq<Result<Datum, string>>)
    requires |vals| >= 2 && vals[1].Ok? && c.checker.Some?
    requires ops.distinctKey([vals[1].value]).Ok? && ops.distinctKey([vals[1].value]).value in c.checker.value
    ensures AvgFinalStep(ops, true, c, vals) == Step(c, None)
  {
  }

  /** Under DISTINCT, a group_concat tuple whose key the checker already holds leaves the context as it was. */
  lemma ConcatSeenUnchanged(ops: DatumOps, text: Datum -> string, c: Ctx, vals: seq<Result<Datum, string>>)
    requires c.checker.Some? && FirstStop(vals) == |vals|
    requires ops.distinctKey(Values(vals)).Ok? && ops.distinctKey(Values(vals)).value in c.checker.value
    ensures ConcatStep(ops, text, true, c, vals) == Step(c, None)
  {
  }

  /**
   * COUNT(DISTINCT) in Final mode is not idempotent: the partial counts are added inside the
   * argument loop, before the checker rejects the repeated tuple.
   */
  lemma CountFinalDistinctRepeat(ops: DatumOps, c: Ctx, vals: seq<Result<Datum, string>>)
    requires c.checker.Some? && FirstStop(vals) == |vals|
    requires CountStep(ops, true, true, c, vals).err.None?
    ensures var first := CountStep(ops, true, true, c, vals).ctx;
      CountStep(ops, true, true, first, vals) == Step(first.(count := first.count + SumInt64(ops, Values(vals))), None)
  {
    assert vals[..|vals|] == vals;
  }
}
