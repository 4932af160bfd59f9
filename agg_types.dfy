/**
 * The values the aggregate functions work on, the foreign operations on them, and the
 * evaluation context each group (or the stream) accumulates into.
 *
 * A Datum is the executor's typed value. Its arithmetic, ordering, text formatting and
 * the distinct checker's key encoding belong to other packages; they are the fields of
 * a DatumOps record that every aggregate function is built with.
 */
module Types {
  import opened Common

  type byte = x: int | 0 <= x < 0x100

  /** A typed value. Float64 keeps the IEEE-754 bits; Decimal is digits * 10^-frac. */
  datatype Datum =
    | Null
    | Int64(i: int)
    | Uint64(u: nat)
    | Float64(bits: nat)
    | Decimal(digits: int, frac: nat)
    | Str(s: string)
    | Bytes(b: seq<byte>)

  /** One row fed to the executor. */
  type Row = seq<Datum>

  /** An argument expression: evaluates against a row to a value, or fails with a message. */
  type Expr = Row -> Result<Datum, string>

  /**
   * The operations of the Datum package that the aggregate functions call.
   * calculateSum returns the new sum together with its error, because the caller
   * stores the returned value even when an error comes with it.
   */
  datatype DatumOps = DatumOps(
    calculateSum: (Datum, Datum) -> (Datum, Option<string>),   // types.CalculateSum
    compare: (Datum, Datum) -> Result<int, string>,            // Datum.CompareDatum
    rawInt64: Datum -> int,                                    // Datum.GetInt64 of a non-integer
    valueText: Datum -> string,                                // %v of Datum.GetValue()
    datumText: Datum -> string,                                // %v of the Datum itself
    distinctKey: seq<Datum> -> Result<seq<byte>, string>,      // the checker's encoding of a tuple
    floatDiv: (Datum, int) -> Datum,                           // float64 sum / float64(count)
    decimalDivRound: (Datum, int, nat) -> Datum)               // DecimalDiv, then Round to frac digits

  /** Datum.GetInt64: the integer payload of an Int64; for other kinds whatever bits the datum holds. */
  function GetInt64(ops: DatumOps, d: Datum): int
  {
    if d.Int64? then d.i else ops.rawInt64(d)
  }

  /** The increment of fractional digits for decimal division (mysql.DivFracIncr). */
  const DIV_FRAC_INCR: nat := 4

  /** The error returned by max, min and firstrow when they do not have exactly one argument. */
  const WRONG_ARGS_MESSAGE: string := "Wrong number of args for AggFuncMaxMin"

  datatype AggError =
    | Traced(cause: string)           // an error of an expression, the checker, or the Datum package
    | WrongNumberOfArgs(message: string)

  /** The set of tuple keys a distinct checker has recorded. */
  type Seen = set<seq<byte>>

  /**
   * An evaluation context (ast.AggEvaluateContext): the running value, the running count,
   * the concatenation buffer (None while nil) and the distinct checker (None while nil).
   */
  datatype Ctx = Ctx(value: Datum, count: int, buffer: Option<string>, checker: Option<Seen>)

  /** &ast.AggEvaluateContext{}: every field at its zero value, no checker. */
  const BARE_CTX := Ctx(Null, 0, None, None)

  /** A context as getContext and getStreamedContext create it: a fresh checker iff distinct. */
  function NewCtx(distinct: bool): (c: Ctx)
    ensures c.value.Null? && c.count == 0 && c.buffer.None?
    ensures c.checker.Some? <==> distinct
    ensures c.checker.Some? ==> c.checker.value == {}
  {
    Ctx(Null, 0, None, if distinct then Some({}) else None)
  }

  /**
   * DistinctChecker.Check: encodes the tuple; answers true and records the key when it is
   * new, false (recording nothing) when it was seen. An encoding error records nothing.
   */
  function Check(ops: DatumOps, seen: Seen, tuple: seq<Datum>): (r: Result<(bool, Seen), string>)
    ensures r.Ok? ==> ops.distinctKey(tuple).Ok?
    ensures r.Ok? ==> r.value.1 == seen + {ops.distinctKey(tuple).value}
    ensures r.Ok? ==> (r.value.0 <==> ops.distinctKey(tuple).value !in seen)
    ensures r.Err? <==> ops.distinctKey(tuple).Err?
  {
    match ops.distinctKey(tuple)
    case Err(e) => Err(e)
    case Ok(key) => if key in seen then Ok((false, seen)) else Ok((true, seen + {key}))
  }

  /** A tuple the checker has seen is answered false, and the checker does not change. */
  lemma CheckSeenAgain(ops: DatumOps, seen: Seen, tuple: seq<Datum>)
    requires Check(ops, seen, tuple).Ok?
    ensures var again := Check(ops, Check(ops, seen, tuple).value.1, tuple);
      again == Ok((false, Check(ops, seen, tuple).value.1))
  {
  }

  /**
   * getContext on a map: the context stored under the key, or a new one, which is then
   * stored under the key. Returns the context and the map after the call.
   */
  function GetOrCreate(m: map<seq<byte>, Ctx>, key: seq<byte>, distinct: bool): (r: (Ctx, map<seq<byte>, Ctx>))
    ensures key in r.1 && r.1[key] == r.0
    ensures r.1.Keys == m.Keys + {key}
    ensures forall k :: k in m ==> r.1[k] == m[k]
    ensures key !in m ==> r.0 == NewCtx(distinct)
  {
    if key in m then (m[key], m) else (NewCtx(distinct), m[key := NewCtx(distinct)])
  }

  /** getContext is idempotent: a second call returns the same context and changes nothing. */
  lemma GetOrCreateIdempotent(m: map<seq<byte>, Ctx>, key: seq<byte>, distinct: bool)
    ensures var (c, m') := GetOrCreate(m, key, distinct);
      GetOrCreate(m', key, distinct) == (c, m')
  {
  }

  /** getStreamedContext on the single slot: the current context, or a new one stored in the slot. */
  function StreamedContext(slot: Option<Ctx>, distinct: bool): (c: Ctx)
    ensures slot.Some? ==> c == slot.value
    ensures slot.None? ==> c == NewCtx(distinct)
  {
    if slot.Some? then slot.value else NewCtx(distinct)
  }

  /**
   * getStreamedContext stores what it returns, so a second call on the slot it leaves
   * returns the same context: one stream accumulates into one context.
   */
  lemma StreamedContextIdempotent(slot: Option<Ctx>, distinct: bool)
    ensures var c := StreamedContext(slot, distinct);
      StreamedContext(Some(c), distinct) == c
  {
  }
}
