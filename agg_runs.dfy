/**
 * What the aggregate functions compute over a whole sequence of rows. A run feeds the
 * rows one by one through the step of one variant, as repeated Update calls with one
 * group key (or repeated StreamUpdate calls) do, and the lemmas state the run's result
 * independently of the steps: counts of rows, sets of distinct tuples, the maximum,
 * the first non-null value, the comma-joined texts, and the two-phase merge.
 */
module AggRuns {
  import opened Common
  import opened Types
  import opened AggSteps

  /** The evaluated arguments of one row. */
  type Args = seq<Result<Datum, string>>

  predicate Fits(variant: Variant, path: Path, rows: seq<Args>)
  {
    forall i :: 0 <= i < |rows| ==> |rows[i]| >= MinArgs(variant, path)
  }

  /** The context after the rows, each fed to the step in order; a failing row leaves what its step left. */
  function Run(ops: DatumOps, variant: Variant, path: Path, distinct: bool, c: Ctx, rows: seq<Args>): (r: Ctx)
    requires Fits(variant, path, rows)
    requires distinct ==> c.checker.Some?
    ensures r.checker.Some? == c.checker.Some?
    decreases |rows|
  {
    if rows == [] then c
    else
      var before := Run(ops, variant, path, distinct, c, rows[..|rows| - 1]);
      AggStep(ops, variant, path, distinct, before, rows[|rows| - 1]).ctx
  }

  /** Splitting the rows into two batches changes nothing: the second batch continues from the first. */
  lemma {:induction false} RunAppend(ops: DatumOps, variant: Variant, path: Path, distinct: bool, c: Ctx, a: seq<Args>, b: seq<Args>)
    requires Fits(variant, path, a) && Fits(variant, path, b)
    requires distinct ==> c.checker.Some?
    ensures Fits(variant, path, a + b)
    ensures Run(ops, variant, path, distinct, c, a + b)
         == Run(ops, variant, path, distinct, Run(ops, variant, path, distinct, c, a), b)
    decreases |b|
  {
    assert Fits(variant, path, a + b) by {
      forall i | 0 <= i < |a + b| ensures |(a + b)[i]| >= MinArgs(variant, path) {
        if i >= |a| {
          assert (a + b)[i] == b[i - |a|];
        }
      }
    }
    if b == [] {
      assert a + b == a;
    } else {
      var n := |b| - 1;
      assert (a + b)[..|a + b| - 1] == a + b[..n];
      assert (a + b)[|a + b| - 1] == b[n];
      RunAppend(ops, variant, path, distinct, c, a, b[..n]);
      var mid := Run(ops, variant, path, distinct, c, a);
      assert Run(ops, variant, path, distinct, mid, b)
          == AggStep(ops, variant, path, distinct, Run(ops, variant, path, distinct, mid, b[..n]), b[n]).ctx;
    }
  }

  /** A row whose arguments all evaluate to non-null values. */
  predicate AllPresent(row: Args)
  {
    FirstStop(row) == |row|
  }

  /** How many rows have all their arguments non-null and without error. */
  function CompleteRows(rows: seq<Args>): nat
  {
    if rows == [] then 0
    else CompleteRows(rows[..|rows| - 1]) + (if AllPresent(rows[|rows| - 1]) then 1 else 0)
  }

  lemma {:induction false} CompleteRowsAppend(a: seq<Args>, b: seq<Args>)
    ensures CompleteRows(a + b) == CompleteRows(a) + CompleteRows(b)
    decreases |b|
  {
    if b == [] {
      assert a + b == a;
    } else {
      var n := |b| - 1;
      assert (a + b)[..|a + b| - 1] == a + b[..n];
      assert (a + b)[|a + b| - 1] == b[n];
      CompleteRowsAppend(a, b[..n]);
    }
  }

  /**
   * COUNT(args) outside Final mode: each row whose arguments are all non-null adds one;
   * a row with a null or failing argument adds nothing.
   */
  lemma {:induction false} CountRows(ops: DatumOps, path: Path, c: Ctx, rows: seq<Args>)
    requires path != Grouped(Final)
    ensures Run(ops, Count, path, false, c, rows).count == c.count + CompleteRows(rows)
    decreases |rows|
  {
    if rows != [] {
      CountRows(ops, path, c, rows[..|rows| - 1]);
    }
  }

  /** The checker keys of the rows whose arguments are all non-null and whose tuple encodes. */
  function KeysOf(ops: DatumOps, rows: seq<Args>): Seen
  {
    if rows == [] then {}
    else
      var last := rows[|rows| - 1];
      KeysOf(ops, rows[..|rows| - 1]) +
        if AllPresent(last) && ops.distinctKey(Values(last)).Ok? then {ops.distinctKey(Values(last)).value} else {}
  }

  /**
   * COUNT(DISTINCT args) outside Final mode: the checker holds exactly the keys of the
   * complete rows, and the count is the number of different keys.
   */
  lemma {:induction false} DistinctCountRows(ops: DatumOps, path: Path, rows: seq<Args>)
    requires path != Grouped(Final)
    ensures var r := Run(ops, Count, path, true, NewCtx(true), rows);
      r.checker == Some(KeysOf(ops, rows)) && r.count == |KeysOf(ops, rows)|
    decreases |rows|
  {
    if rows != [] {
      DistinctCountRows(ops, path, rows[..|rows| - 1]);
    }
  }

  /** The rows of all partitions, one partition after the other. */
  function Flatten(parts: seq<seq<Args>>): seq<Args>
  {
    if parts == [] then [] else Flatten(parts[..|parts| - 1]) + parts[|parts| - 1]
  }

  /** The partial result of one Complete-mode COUNT over a partition. */
  function PartialCount(ops: DatumOps, part: seq<Args>): int
  {
    Run(ops, Count, Grouped(Complete), false, NewCtx(false), part).count
  }

  /** The rows a Final-mode COUNT receives: one partial count per partition. */
  function CountPartials(ops: DatumOps, parts: seq<seq<Args>>): (rows: seq<Args>)
    ensures |rows| == |parts|
    ensures forall i :: 0 <= i < |parts| ==> rows[i] == [Ok(Int64(PartialCount(ops, parts[i])))]
  {
    if parts == [] then []
    else CountPartials(ops, parts[..|parts| - 1]) + [[Ok(Int64(PartialCount(ops, parts[|parts| - 1])))]]
  }

  /** Final mode adds the partial count carried by a row's one argument. */
  lemma CountFinalAdds(ops: DatumOps, c: Ctx, n: int)
    ensures CountStep(ops, true, false, c, [Ok(Int64(n))]) == Step(c.(count := c.count + n), None)
  {
    var vals: Args := [Ok(Int64(n))];
    assert FirstStop(vals) == 1;
    assert Values(vals[..1]) == [Int64(n)];
    assert SumInt64(ops, [Int64(n)]) == n by {
      assert [Int64(n)][..0] == [];
    }
  }

  /**
   * Two-phase COUNT: counting each partition in Complete mode and adding the partial
   * counts in Final mode gives the count of a single Complete-mode run over all rows.
   */
  lemma {:induction false} CountTwoPhase(ops: DatumOps, parts: seq<seq<Args>>)
    ensures Run(ops, Count, Grouped(Final), false, NewCtx(false), CountPartials(ops, parts)).count
         == Run(ops, Count, Grouped(Complete), false, NewCtx(false), Flatten(parts)).count
    decreases |parts|
  {
    CountRows(ops, Grouped(Complete), NewCtx(false), Flatten(parts));
    if parts != [] {
      var n := |parts| - 1;
      var partials := CountPartials(ops, parts);
      assert partials[..n] == CountPartials(ops, parts[..n]);
      CountTwoPhase(ops, parts[..n]);
      CountRows(ops, Grouped(Complete), NewCtx(false), Flatten(parts[..n]));
      CountRows(ops, Grouped(Complete), NewCtx(false), parts[n]);
      CompleteRowsAppend(Flatten(parts[..n]), parts[n]);
      var prefix := Run(ops, Count, Grouped(Final), false, NewCtx(false), partials[..n]);
      assert Run(ops, Count, Grouped(Final), false, NewCtx(false), partials) == CountStep(ops, true, false, prefix, partials[n]).ctx;
      CountFinalAdds(ops, prefix, PartialCount(ops, parts[n]));
    }
  }

  /** Rows that each have at least one argument. */
  predicate Unary(rows: seq<Args>)
  {
    forall i :: 0 <= i < |rows| ==> |rows[i]| >= 1
  }

  /** The non-null values the rows' first arguments evaluated to, in row order; failing and null ones are dropped. */
  function Presents(rows: seq<Args>): (ds: seq<Datum>)
    requires Unary(rows)
    ensures forall k :: 0 <= k < |ds| ==> !ds[k].Null?
    ensures |ds| <= |rows|
  {
    if rows == [] then []
    else
      var last := rows[|rows| - 1];
      Presents(rows[..|rows| - 1]) + if Accepted(last[0]) then [last[0].value] else []
  }

  /** CalculateSum never reports an error (no overflow, no conversion failure). */
  ghost predicate SumNeverFails(ops: DatumOps)
  {
    forall a, b :: ops.calculateSum(a, b).1.None?
  }

  /** Adding the values one after the other to a starting sum. */
  function SumFold(ops: DatumOps, acc: Datum, ds: seq<Datum>): Datum
  {
    if ds == [] then acc else ops.calculateSum(SumFold(ops, acc, ds[..|ds| - 1]), ds[|ds| - 1]).0
  }

  /**
   * SUM, and AVG outside Final mode, without DISTINCT: when CalculateSum does not fail, Value
   * is the sum of the non-null argument values and Count is how many there were; nothing
   * else in the context changes.
   */
  lemma {:induction false} SumRows(ops: DatumOps, variant: Variant, path: Path, c: Ctx, rows: seq<Args>)
    requires variant == Sum || (variant == Avg && path != Grouped(Final))
    requires SumNeverFails(ops) && Unary(rows)
    ensures Run(ops, variant, path, false, c, rows)
         == c.(value := SumFold(ops, c.value, Presents(rows)), count := c.count + |Presents(rows)|)
    decreases |rows|
  {
    if rows != [] {
      var n := |rows| - 1;
      SumRows(ops, variant, path, c, rows[..n]);
      var before := Run(ops, variant, path, false, c, rows[..n]);
      assert AggStep(ops, variant, path, false, before, rows[n]) == SumStep(ops, false, before, rows[n][0]);
      SumNext(ops, c, Presents(rows[..n]), rows[n][0]);
    }
  }

  /** One more argument value: a non-null one is added to the sum and counted, a null one changes nothing. */
  lemma SumNext(ops: DatumOps, c: Ctx, ds: seq<Datum>, v: Result<Datum, string>)
    requires SumNeverFails(ops)
    ensures var before := c.(value := SumFold(ops, c.value, ds), count := c.count + |ds|);
      var ds' := ds + if Accepted(v) then [v.value] else [];
      SumStep(ops, false, before, v).ctx == c.(value := SumFold(ops, c.value, ds'), count := c.count + |ds'|)
  {
    if Accepted(v) {
      assert (ds + [v.value])[..|ds|] == ds;
    } else {
      assert ds + [] == ds;
    }
  }

  /**
   * The algebra under which a two-phase AVG equals a one-phase one: CalculateSum never
   * fails, adding null changes nothing, a non-null addend gives a non-null sum, and
   * addition is associative (as for exact decimal sums, not for floating point).
   */
  ghost predicate ExactSum(ops: DatumOps)
  {
    && SumNeverFails(ops)
    && (forall a :: ops.calculateSum(a, Null).0 == a)
    && (forall a, b: Datum :: !b.Null? ==> !ops.calculateSum(a, b).0.Null?)
    && (forall a, b, d :: ops.calculateSum(ops.calculateSum(a, b).0, d).0 == ops.calculateSum(a, ops.calculateSum(b, d).0).0)
  }

  /** Summing values onto a running total is adding their separate sum to it. */
  lemma {:induction false} SumFoldShift(ops: DatumOps, a: Datum, ds: seq<Datum>)
    requires ExactSum(ops) && ds != []
    ensures SumFold(ops, a, ds) == ops.calculateSum(a, SumFold(ops, Null, ds)).0
    decreases |ds|
  {
    var n := |ds| - 1;
    if n == 0 {
      assert ds[..n] == [];
      assert ops.calculateSum(ops.calculateSum(a, Null).0, ds[0]).0 == ops.calculateSum(a, ops.calculateSum(Null, ds[0]).0).0;
    } else {
      SumFoldShift(ops, a, ds[..n]);
      var s := SumFold(ops, Null, ds[..n]);
      assert ops.calculateSum(ops.calculateSum(a, s).0, ds[n]).0 == ops.calculateSum(a, ops.calculateSum(s, ds[n]).0).0;
    }
  }

  /** The partial result of one Complete-mode AVG over a partition: its count, then its sum. */
  function AvgPartial(ops: DatumOps, part: seq<Args>): (row: Args)
    requires Unary(part)
    ensures |row| == 2
  {
    var r := Run(ops, Avg, Grouped(Complete), false, NewCtx(false), part);
    [Ok(Int64(r.count)), Ok(r.value)]
  }

  /** The rows a Final-mode AVG receives: one (count, sum) pair per partition. */
  function AvgPartials(ops: DatumOps, parts: seq<seq<Args>>): (rows: seq<Args>)
    requires forall i :: 0 <= i < |parts| ==> Unary(parts[i])
    ensures |rows| == |parts|
    ensures forall i :: 0 <= i < |parts| ==> rows[i] == AvgPartial(ops, parts[i])
  {
    if parts == [] then []
    else AvgPartials(ops, parts[..|parts| - 1]) + [AvgPartial(ops, parts[|parts| - 1])]
  }

  lemma {:induction false} FlattenUnary(parts: seq<seq<Args>>)
    requires forall i :: 0 <= i < |parts| ==> Unary(parts[i])
    ensures Unary(Flatten(parts))
    decreases |parts|
  {
    if parts != [] {
      var n := |parts| - 1;
      FlattenUnary(parts[..n]);
      var a, b := Flatten(parts[..n]), parts[n];
      assert Unary(parts[n]);
      forall i | 0 <= i < |a + b| ensures |(a + b)[i]| >= 1 {
        if i < |a| { assert (a + b)[i] == a[i]; } else { assert (a + b)[i] == b[i - |a|]; }
      }
    }
  }

  /**
   * Two-phase AVG: averaging each partition in Complete mode and merging the (count, sum)
   * pairs in Final mode leaves the same context, and so the same average, as one
   * Complete-mode run over all rows.
   */
  lemma {:induction false} AvgTwoPhase(ops: DatumOps, parts: seq<seq<Args>>)
    requires ExactSum(ops)
    requires forall i :: 0 <= i < |parts| ==> Unary(parts[i])
    ensures Unary(Flatten(parts))
    ensures Run(ops, Avg, Grouped(Final), false, NewCtx(false), AvgPartials(ops, parts))
         == Run(ops, Avg, Grouped(Complete), false, NewCtx(false), Flatten(parts))
    decreases |parts|
  {
    FlattenUnary(parts);
    if parts != [] {
      var n := |parts| - 1;
      var partials := AvgPartials(ops, parts);
      assert partials[..n] == AvgPartials(ops, parts[..n]);
      AvgTwoPhase(ops, parts[..n]);
      var w := Run(ops, Avg, Grouped(Complete), false, NewCtx(false), Flatten(parts[..n]));
      RunAppend(ops, Avg, Grouped(Complete), false, NewCtx(false), Flatten(parts[..n]), parts[n]);
      AvgMergeOne(ops, w, parts[n]);
    }
  }

  /** Merging one partition's (count, sum) pair in Final mode continues a Complete-mode run over its rows. */
  lemma AvgMergeOne(ops: DatumOps, acc: Ctx, part: seq<Args>)
    requires ExactSum(ops) && Unary(part)
    ensures AggStep(ops, Avg, Grouped(Final), false, acc, AvgPartial(ops, part)).ctx
         == Run(ops, Avg, Grouped(Complete), false, acc, part)
  {
    SumRows(ops, Avg, Grouped(Complete), acc, part);
    SumRows(ops, Avg, Grouped(Complete), NewCtx(false), part);
    var ds := Presents(part);
    if ds != [] {
      SumFoldShift(ops, acc.value, ds);
      assert !SumFold(ops, Null, ds).Null?;
    }
  }


  /** a is not greater than b. */
  predicate Le(ops: DatumOps, a: Datum, b: Datum)
  {
    ops.compare(a, b) != Ok(1)
  }

  /** CompareDatum is a total order on the values in s: it never fails, and -1, 0, 1 mean less, equal, greater. */
  ghost predicate TotalOrderOn(ops: DatumOps, s: set<Datum>)
  {
    && (forall a, b :: a in s && b in s ==> ops.compare(a, b) in {Ok(-1), Ok(0), Ok(1)})
    && (forall a :: a in s ==> ops.compare(a, a) == Ok(0))
    && (forall a, b :: a in s && b in s ==> (ops.compare(a, b) == Ok(-1) <==> ops.compare(b, a) == Ok(1)))
    && (forall a, b, d :: a in s && b in s && d in s && Le(ops, a, b) && Le(ops, b, d) ==> Le(ops, a, d))
  }

  /** m is at least v for MAX, at most v for MIN. */
  predicate Dominates(ops: DatumOps, isMax: bool, m: Datum, v: Datum)
  {
    if isMax then Le(ops, v, m) else Le(ops, m, v)
  }

  /** r is null exactly when there are no values; otherwise one of them, dominating all. */
  predicate IsExtreme(ops: DatumOps, isMax: bool, r: Datum, ds: seq<Datum>)
  {
    && (r.Null? <==> ds == [])
    && (!r.Null? ==> r in ds)
    && forall k :: 0 <= k < |ds| ==> Dominates(ops, isMax, r, ds[k])
  }

  /**
   * MAX and MIN over the rows of a total order: the result is null exactly when no row has
   * a non-null value; otherwise it is one of the values and dominates all of them.
   */
  lemma {:induction false} MaxMinRows(ops: DatumOps, isMax: bool, path: Path, distinct: bool, s: set<Datum>, rows: seq<Args>)
    requires forall i :: 0 <= i < |rows| ==> |rows[i]| == 1
    requires TotalOrderOn(ops, s) && forall k :: 0 <= k < |Presents(rows)| ==> Presents(rows)[k] in s
    ensures IsExtreme(ops, isMax, Run(ops, MaxMin(isMax), path, distinct, NewCtx(distinct), rows).value, Presents(rows))
    decreases |rows|
  {
    if rows != [] {
      var n := |rows| - 1;
      var before := Presents(rows[..n]);
      var ds := Presents(rows);
      assert ds[..|before|] == before;
      MaxMinRows(ops, isMax, path, distinct, s, rows[..n]);
      var prev := Run(ops, MaxMin(isMax), path, distinct, NewCtx(distinct), rows[..n]);
      if Accepted(rows[n][0]) {
        assert ds[|before|] == rows[n][0].value;
      }
      MaxMinNext(ops, isMax, s, prev, before, rows[n]);
    }
  }

  /** One MAX or MIN step keeps the running value the extreme of the values so far. */
  lemma MaxMinNext(ops: DatumOps, isMax: bool, s: set<Datum>, c: Ctx, before: seq<Datum>, row: Args)
    requires |row| == 1 && TotalOrderOn(ops, s)
    requires forall k :: 0 <= k < |before| ==> before[k] in s
    requires Accepted(row[0]) ==> row[0].value in s
    requires IsExtreme(ops, isMax, c.value, before)
    ensures IsExtreme(ops, isMax, MaxMinStep(ops, isMax, c, row).ctx.value,
                      before + if Accepted(row[0]) then [row[0].value] else [])
  {
    var r := MaxMinStep(ops, isMax, c, row).ctx.value;
    if Accepted(row[0]) {
      var d := row[0].value;
      var ds := before + [d];
      if !c.value.Null? {
        assert c.value in s;
        assert r == c.value || r == d;
        forall k | 0 <= k < |ds| ensures Dominates(ops, isMax, r, ds[k]) {
          if k < |before| {
            assert ds[k] == before[k] && ds[k] in s;
          }
        }
      }
    }
  }

  /** FIRSTROW: the value of the first row whose argument is non-null, or null when there is none. */
  lemma {:induction false} FirstRowRows(ops: DatumOps, path: Path, distinct: bool, rows: seq<Args>)
    requires forall i :: 0 <= i < |rows| ==> |rows[i]| == 1
    ensures Run(ops, FirstRow, path, distinct, NewCtx(distinct), rows).value
         == if Presents(rows) == [] then Null else Presents(rows)[0]
    decreases |rows|
  {
    if rows != [] {
      var n := |rows| - 1;
      FirstRowRows(ops, path, distinct, rows[..n]);
      var prev := Run(ops, FirstRow, path, distinct, NewCtx(distinct), rows[..n]);
      FirstRowNext(prev, Presents(rows[..n]), rows[n]);
    }
  }

  /** One FIRSTROW step keeps the first non-null value seen so far. */
  lemma FirstRowNext(c: Ctx, before: seq<Datum>, row: Args)
    requires |row| == 1 && forall k :: 0 <= k < |before| ==> !before[k].Null?
    requires c.value == if before == [] then Null else before[0]
    ensures var ds := before + if Accepted(row[0]) then [row[0].value] else [];
      FirstRowStep(c, row).ctx.value == if ds == [] then Null else ds[0]
  {
  }


  /** The texts of the rows whose arguments are all non-null, in row order. */
  function RowTexts(text: Datum -> string, rows: seq<Args>): (ts: seq<string>)
    ensures |ts| == CompleteRows(rows)
  {
    if rows == [] then []
    else
      var last := rows[|rows| - 1];
      RowTexts(text, rows[..|rows| - 1]) + if AllPresent(last) then [Texts(text, Values(last))] else []
  }

  /** The texts with a comma between each two, built from the front. */
  function Join(ts: seq<string>): string
    requires ts != []
  {
    if |ts| == 1 then ts[0] else ts[0] + "," + Join(ts[1..])
  }

  lemma {:induction false} JoinSnoc(ts: seq<string>, t: string)
    requires ts != []
    ensures Join(ts + [t]) == Join(ts) + "," + t
    decreases |ts|
  {
    var us := ts + [t];
    if |ts| == 1 {
      assert us[1..] == [t];
    } else {
      assert us[1..] == ts[1..] + [t];
      JoinSnoc(ts[1..], t);
      assert Join(us) == ts[0] + "," + (Join(ts[1..]) + "," + t);
      assert ts[0] + "," + (Join(ts[1..]) + "," + t) == (ts[0] + "," + Join(ts[1..])) + "," + t;
    }
  }

  /** The buffer is nil when there are no texts, and otherwise holds them joined by commas. */
  predicate Joined(buffer: Option<string>, ts: seq<string>)
  {
    if ts == [] then buffer.None? else buffer == Some(Join(ts))
  }

  /**
   * GROUP_CONCAT without DISTINCT: the buffer stays nil until a row has all its arguments
   * non-null; then it holds the texts of exactly those rows, joined by commas.
   */
  lemma {:induction false} ConcatRows(ops: DatumOps, path: Path, rows: seq<Args>)
    ensures Joined(Run(ops, Concat, path, false, NewCtx(false), rows).buffer, RowTexts(Formatter(ops, path), rows))
    decreases |rows|
  {
    if rows != [] {
      var n := |rows| - 1;
      ConcatRows(ops, path, rows[..n]);
      var prev := Run(ops, Concat, path, false, NewCtx(false), rows[..n]);
      ConcatNext(ops, Formatter(ops, path), prev, RowTexts(Formatter(ops, path), rows[..n]), rows[n]);
    }
  }

  /** One GROUP_CONCAT step appends the row's text, after a comma unless it is the first. */
  lemma ConcatNext(ops: DatumOps, text: Datum -> string, c: Ctx, before: seq<string>, row: Args)
    requires Joined(c.buffer, before)
    ensures Joined(ConcatStep(ops, text, false, c, row).ctx.buffer,
                   before + if AllPresent(row) then [Texts(text, Values(row))] else [])
  {
    if AllPresent(row) {
      var t := Texts(text, Values(row));
      if before != [] {
        JoinSnoc(before, t);
      } else {
        assert Join(before + [t]) == t;
      }
    } else {
      assert before + [] == before;
    }
  }

  /** The key of the one-value tuple of a row's first argument, when it is non-null and encodes. */
  predicate SumKeyed(ops: DatumOps, v: Result<Datum, string>)
  {
    Accepted(v) && ops.distinctKey([v.value]).Ok?
  }

  /** The keys a DISTINCT sum's checker records: those of the rows' non-null first arguments. */
  function SumKeys(ops: DatumOps, rows: seq<Args>): Seen
    requires Unary(rows)
  {
    if rows == [] then {}
    else
      var v := rows[|rows| - 1][0];
      SumKeys(ops, rows[..|rows| - 1]) + if SumKeyed(ops, v) then {ops.distinctKey([v.value]).value} else {}
  }

  /**
   * The non-null first-argument values whose key no earlier row produced, in row order:
   * each distinct value at its first occurrence.
   */
  function FirstOccurrences(ops: DatumOps, rows: seq<Args>): seq<Datum>
    requires Unary(rows)
  {
    if rows == [] then []
    else
      var prefix := rows[..|rows| - 1];
      var v := rows[|rows| - 1][0];
      FirstOccurrences(ops, prefix) +
        if SumKeyed(ops, v) && ops.distinctKey([v.value]).value !in SumKeys(ops, prefix) then [v.value] else []
  }

  /**
   * SUM(DISTINCT), and AVG(DISTINCT) outside Final mode: when CalculateSum does not fail,
   * the checker holds the keys of the non-null values, Value is the sum of each distinct
   * value once, at its first occurrence, and Count is the number of distinct keys.
   */
  lemma {:induction false} DistinctSumRows(ops: DatumOps, variant: Variant, path: Path, rows: seq<Args>)
    requires variant == Sum || (variant == Avg && path != Grouped(Final))
    requires SumNeverFails(ops) && Unary(rows)
    ensures Run(ops, variant, path, true, NewCtx(true), rows)
         == Ctx(SumFold(ops, Null, FirstOccurrences(ops, rows)), |FirstOccurrences(ops, rows)|, None, Some(SumKeys(ops, rows)))
    ensures |FirstOccurrences(ops, rows)| == |SumKeys(ops, rows)|
    decreases |rows|
  {
    if rows != [] {
      var n := |rows| - 1;
      DistinctSumRows(ops, variant, path, rows[..n]);
      var before := Run(ops, variant, path, true, NewCtx(true), rows[..n]);
      assert AggStep(ops, variant, path, true, before, rows[n]) == SumStep(ops, true, before, rows[n][0]);
      DistinctSumNext(ops, FirstOccurrences(ops, rows[..n]), SumKeys(ops, rows[..n]), rows[n][0]);
    }
  }

  /** One more DISTINCT sum row: a value with a new key is added and counted, any other row changes nothing. */
  lemma DistinctSumNext(ops: DatumOps, ds: seq<Datum>, seen: Seen, v: Result<Datum, string>)
    requires SumNeverFails(ops) && |ds| == |seen|
    ensures var c := Ctx(SumFold(ops, Null, ds), |ds|, None, Some(seen));
      var isNew := SumKeyed(ops, v) && ops.distinctKey([v.value]).value !in seen;
      var ds' := ds + if isNew then [v.value] else [];
      var seen' := seen + if SumKeyed(ops, v) then {ops.distinctKey([v.value]).value} else {};
      SumStep(ops, true, c, v).ctx == Ctx(SumFold(ops, Null, ds'), |ds'|, None, Some(seen')) && |ds'| == |seen'|
  {
    if SumKeyed(ops, v) {
      var k := ops.distinctKey([v.value]).value;
      if k !in seen {
        assert (ds + [v.value])[..|ds|] == ds;
      } else {
        assert seen + {k} == seen;
        assert ds + [] == ds;
      }
    } else {
      assert ds + [] == ds;
      assert seen + {} == seen;
    }
  }

  /** The texts of the complete rows whose tuple key no earlier complete row produced, in row order. */
  function DistinctRowTexts(ops: DatumOps, text: Datum -> string, rows: seq<Args>): seq<string>
  {
    if rows == [] then []
    else
      var prefix := rows[..|rows| - 1];
      var last := rows[|rows| - 1];
      DistinctRowTexts(ops, text, prefix) +
        if AllPresent(last) && ops.distinctKey(Values(last)).Ok? && ops.distinctKey(Values(last)).value !in KeysOf(ops, prefix)
        then [Texts(text, Values(last))] else []
  }

  /**
   * GROUP_CONCAT(DISTINCT): the checker holds the keys of the complete rows, and the buffer
   * holds the texts of the first row of each key, joined by commas, one text per key.
   */
  lemma {:induction false} DistinctConcatRows(ops: DatumOps, path: Path, rows: seq<Args>)
    ensures var r := Run(ops, Concat, path, true, NewCtx(true), rows);
      && r.checker == Some(KeysOf(ops, rows))
      && Joined(r.buffer, DistinctRowTexts(ops, Formatter(ops, path), rows))
      && r.value == Null && r.count == 0
    ensures |DistinctRowTexts(ops, Formatter(ops, path), rows)| == |KeysOf(ops, rows)|
    decreases |rows|
  {
    if rows != [] {
      var n := |rows| - 1;
      DistinctConcatRows(ops, path, rows[..n]);
      var prev := Run(ops, Concat, path, true, NewCtx(true), rows[..n]);
      DistinctConcatNext(ops, Formatter(ops, path), prev, DistinctRowTexts(ops, Formatter(ops, path), rows[..n]),
                         KeysOf(ops, rows[..n]), rows[n]);
    }
  }

  /** One more GROUP_CONCAT(DISTINCT) row: a complete row with a new key appends its text, any other row changes nothing. */
  lemma DistinctConcatNext(ops: DatumOps, text: Datum -> string, c: Ctx, ts: seq<string>, seen: Seen, row: Args)
    requires c.checker == Some(seen) && Joined(c.buffer, ts) && |ts| == |seen|
    ensures var keyed := AllPresent(row) && ops.distinctKey(Values(row)).Ok?;
      var isNew := keyed && ops.distinctKey(Values(row)).value !in seen;
      var ts' := ts + if isNew then [Texts(text, Values(row))] else [];
      var seen' := seen + if keyed then {ops.distinctKey(Values(row)).value} else {};
      var r := ConcatStep(ops, text, true, c, row).ctx;
      r.checker == Some(seen') && Joined(r.buffer, ts') && |ts'| == |seen'|
  {
    if AllPresent(row) && ops.distinctKey(Values(row)).Ok? {
      var k := ops.distinctKey(Values(row)).value;
      if k !in seen {
        var t := Texts(text, Values(row));
        if ts != [] {
          JoinSnoc(ts, t);
        } else {
          assert Join(ts + [t]) == t;
        }
      } else {
        assert seen + {k} == seen;
        assert ts + [] == ts;
      }
    } else {
      assert ts + [] == ts;
      assert seen + {} == seen;
    }
  }

  /** The stream slot GetStreamResult leaves behind: a bare context, without a distinct checker. */
  const WRITTEN_RESET: Option<Ctx> := Some(BARE_CTX)

  /** The slot a corrected GetStreamResult would leave: empty, so that getStreamedContext makes a new context with a checker. */
  const CORRECTED_RESET: Option<Ctx> := None

  /**
   * As written, a DISTINCT function whose stream result was taken has no checker for the
   * next stream: the first COUNT(DISTINCT x) row with a non-null x reaches the checker,
   * and the context getStreamedContext hands out has none.
   */
  lemma StreamResetLosesChecker()
    ensures ReachesCheck(Count, Streamed, [Ok(Int64(1))])
    ensures StreamedContext(WRITTEN_RESET, true).checker.None?
  {
  }

  /**
   * With the slot reset to empty, the next COUNT(DISTINCT) stream starts with an empty
   * checker and counts exactly the distinct tuples of its own rows.
   */
  lemma {:induction false} CorrectedStreamReset(ops: DatumOps, rows: seq<Args>)
    ensures StreamedContext(CORRECTED_RESET, true).checker == Some({})
    ensures Run(ops, Count, Streamed, true, StreamedContext(CORRECTED_RESET, true), rows).count == |KeysOf(ops, rows)|
  {
    DistinctCountRows(ops, Streamed, rows);
  }
}
