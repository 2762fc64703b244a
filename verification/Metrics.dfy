/**
 The incremental averages of `MetricsSerializer`: "Avg Duration" (in minutes, three places) and
 "Avg Cost" (two places). Floats are reals here, and rounding is to the nearest, ties to even.
 */
module Metrics {
  import opened Wrappers

  /** A call log as an average sees it: its duration or cost, if it has one, and its `calculated` flag. */
  datatype Log = Log(amount: Option<real>, calculated: bool)

  function HalfEven(x: real): int {
    var f := x.Floor;
    if x - f as real < 0.5 then f
    else if x - f as real > 0.5 then f + 1
    else if f % 2 == 0 then f else f + 1
  }

  /** "Avg Duration" is rounded to three places, "Avg Cost" to two. */
  datatype Precision = ThreePlaces | TwoPlaces {
    /** A value in units of the last kept place. */
    function InUnits(x: real): real {
      if ThreePlaces? then x * 1000.0 else x * 100.0
    }

    function HalfUnit(): real {
      if ThreePlaces? then 0.0005 else 0.005
    }
  }

  /** `round(x, places)`. */
  function RoundTo(x: real, p: Precision): (r: real)
    ensures Abs(r - x) <= p.HalfUnit()
  {
    if p.ThreePlaces? then HalfEven(x * 1000.0) as real / 1000.0
    else HalfEven(x * 100.0) as real / 100.0
  }

  function Abs(x: real): real {
    if x < 0.0 then -x else x
  }

  function Uncalculated(logs: seq<Log>): seq<Log> {
    if logs == [] then []
    else Uncalculated(logs[..|logs| - 1]) + if logs[|logs| - 1].calculated then [] else [logs[|logs| - 1]]
  }

  function Amounts(logs: seq<Log>): seq<real> {
    if logs == [] then []
    else Amounts(logs[..|logs| - 1]) + if logs[|logs| - 1].amount.Some? then [logs[|logs| - 1].amount.value] else []
  }

  function Sum(xs: seq<real>): real {
    if xs == [] then 0.0 else Sum(xs[..|xs| - 1]) + xs[|xs| - 1]
  }

  function Mean(xs: seq<real>): real {
    if xs == [] then 0.0 else Sum(xs) / |xs| as real
  }

  /** SQL's `Avg`, which skips logs without an amount; no amount at all counts as 0. */
  function NewAverage(logs: seq<Log>): real {
    Mean(Amounts(Uncalculated(logs)))
  }

  /** The weighted combination of the stored average with the average of the new logs. */
  function Combine(oldAvg: real, oldCount: nat, newAvg: real, newCount: nat): real
    requires oldCount + newCount > 0
  {
    (oldAvg * oldCount as real + newAvg * newCount as real) / (oldCount + newCount) as real
  }

  /** The average a read comes to, before rounding. */
  function ExactRead(value: real, logs: seq<Log>): real
  {
    var newCount := |Uncalculated(logs)|;
    UncalculatedIsShorter(logs);
    if logs == [] then 0.0
    else if newCount == 0 then value
    else if newCount == |logs| then NewAverage(logs)
    else Combine(value, |logs| - newCount, NewAverage(logs), newCount)
  }

  /** The value a read stores and returns; without new logs it is not rounded again. */
  function ReadValue(value: real, logs: seq<Log>, p: Precision): real
  {
    if Uncalculated(logs) == [] then ExactRead(value, logs) else RoundTo(ExactRead(value, logs), p)
  }

  lemma {:induction false} UncalculatedIsShorter(logs: seq<Log>)
    ensures |Uncalculated(logs)| <= |logs|
  {
    if logs != [] {
      UncalculatedIsShorter(logs[..|logs| - 1]);
    }
  }

  /** The text stored as a metric's value: nothing, what a number is written as, or what `float()` refuses. */
  datatype Text = Empty | Numeral(number: real) | Garbled

  datatype Error = ValueError

  /** `float(value) if value else 0`. */
  function OldAverage(value: Text): Result<real, Error> {
    match value
    case Empty => Ok(0.0)
    case Numeral(number) => Ok(number)
    case Garbled => Err(ValueError)
  }

  class Metric {
    var value: Text
    var unit: string

    constructor (value: Text, unit: string)
      ensures this.value == value && this.unit == unit
    {
      this.value := value;
      this.unit := unit;
    }

    /** The "Avg Duration" branch at three places and the "Avg Cost" branch at two. */
    method ReadAverage(logs: seq<Log>, p: Precision, unitName: string) returns (data: Result<real, Error>)
      modifies this
      ensures logs == [] ==> data == Ok(0.0) && value == Numeral(0.0) && unit == old(unit)
      ensures logs != [] && old(value).Garbled? ==> data == Err(ValueError) && unchanged(this)
      ensures logs != [] && old(value).Numeral? ==>
                data == Ok(ReadValue(old(value).number, logs, p)) && value == Numeral(data.value) && unit == unitName
      ensures logs != [] && old(value).Empty? ==>
                data == Ok(ReadValue(0.0, logs, p)) && value == Numeral(data.value) && unit == unitName
    {
      UncalculatedIsShorter(logs);
      if |logs| == 0 {
        value := Numeral(0.0);
        return Ok(0.0);
      }
      var parsed := OldAverage(value);
      if parsed.Err? {
        return Err(parsed.error);
      }
      var oldAvg := parsed.value;
      var newLogs := Uncalculated(logs);
      var newCount := |newLogs|;
      var avg: real;
      if newCount > 0 {
        var newAvg := Mean(Amounts(newLogs));
        var totalCount := |logs|;
        var oldCount := totalCount - newCount;
        if oldCount > 0 {
          avg := Combine(oldAvg, oldCount, newAvg, newCount);
        } else {
          avg := newAvg;
        }
        avg := RoundTo(avg, p);
      } else {
        avg := oldAvg;
      }
      value := Numeral(avg);
      unit := unitName;
      return Ok(avg);
    }
  }

  // ---------- Read once, then mark: the stored value tracks the true mean ----------

  function Marked(amounts: seq<real>, calculated: bool): seq<Log> {
    seq(|amounts|, i requires 0 <= i < |amounts| => Log(Some(amounts[i]), calculated))
  }

  /** The logs when `before` have been marked and `arrivals` have not. */
  function LogsOf(before: seq<real>, arrivals: seq<real>): seq<Log> {
    Marked(before, true) + Marked(arrivals, false)
  }

  function Flatten(batches: seq<seq<real>>): seq<real> {
    if batches == [] then [] else Flatten(batches[..|batches| - 1]) + batches[|batches| - 1]
  }

  /** The value after rounds of: a batch of complete logs arrives, one read, all of them marked. */
  function AfterRounds(value: real, before: seq<real>, batches: seq<seq<real>>, p: Precision): real
  {
    if batches == [] then value
    else
      var earlier := batches[..|batches| - 1];
      ReadValue(AfterRounds(value, before, earlier, p),
                LogsOf(before + Flatten(earlier), batches[|batches| - 1]), p)
  }

  lemma {:induction false} MarkedUncalculated(before: seq<real>, arrivals: seq<real>)
    ensures Uncalculated(LogsOf(before, arrivals)) == Marked(arrivals, false)
    decreases |before| + |arrivals|
  {
    var logs := LogsOf(before, arrivals);
    if arrivals != [] {
      assert logs[..|logs| - 1] == LogsOf(before, arrivals[..|arrivals| - 1]);
      MarkedUncalculated(before, arrivals[..|arrivals| - 1]);
      assert Marked(arrivals, false) == Marked(arrivals[..|arrivals| - 1], false) + [logs[|logs| - 1]];
    } else if before != [] {
      assert logs[..|logs| - 1] == LogsOf(before[..|before| - 1], arrivals);
      MarkedUncalculated(before[..|before| - 1], arrivals);
    }
  }

  lemma {:induction false} AmountsOfMarked(amounts: seq<real>, calculated: bool)
    ensures Amounts(Marked(amounts, calculated)) == amounts
  {
    if amounts != [] {
      var logs := Marked(amounts, calculated);
      assert logs[..|logs| - 1] == Marked(amounts[..|amounts| - 1], calculated);
      AmountsOfMarked(amounts[..|amounts| - 1], calculated);
    }
  }

  lemma {:induction false} SumConcat(a: seq<real>, b: seq<real>)
    ensures Sum(a + b) == Sum(a) + Sum(b)
    decreases |b|
  {
    if b == [] {
      assert a + b == a;
    } else {
      assert (a + b)[..|a + b| - 1] == a + b[..|b| - 1];
      SumConcat(a, b[..|b| - 1]);
    }
  }

  lemma MeanTimesCount(xs: seq<real>)
    requires xs != []
    ensures Mean(xs) * |xs| as real == Sum(xs)
  {
  }

  /** Combining the two means by their counts is the mean of everything. */
  lemma CombineOfMeans(a: seq<real>, b: seq<real>)
    requires a != [] && b != []
    ensures Combine(Mean(a), |a|, Mean(b), |b|) == Mean(a + b)
  {
    SumConcat(a, b);
    MeanTimesCount(a);
    MeanTimesCount(b);
  }

  /** Combining damps an error in the old average by the share of old logs. */
  lemma CombineDampsError(x: real, y: real, oldCount: nat, newAvg: real, newCount: nat)
    requires newCount > 0
    ensures var ratio := oldCount as real / (oldCount + newCount) as real;
            0.0 <= ratio < 1.0
            && Combine(x, oldCount, newAvg, newCount) - Combine(y, oldCount, newAvg, newCount) == (x - y) * ratio
  {
    var o, n := oldCount as real, newCount as real;
    var t := (oldCount + newCount) as real;
    var ratio := o / t;
    assert t == o + n && ratio * t == o;
    assert ratio >= 1.0 ==> ratio * t >= t;
    var cx, cy := Combine(x, oldCount, newAvg, newCount), Combine(y, oldCount, newAvg, newCount);
    assert cx * t == x * o + newAvg * n && cy * t == y * o + newAvg * n;
    assert (cx - cy) * t == (x - y) * o;
    DivideOut(cx - cy, x - y, o, t);
  }

  lemma DivideOut(d: real, e: real, o: real, t: real)
    requires t > 0.0 && d * t == e * o
    ensures d == e * (o / t)
  {
    var ratio := o / t;
    assert ratio * t == o;
    assert (e * ratio) * t == e * o;
    assert (d - e * ratio) * t == 0.0;
  }

  lemma NextMultiple(n: nat, h: real)
    requires n >= 1
    ensures n as real * h == (n - 1) as real * h + h
  {
    assert n as real == (n - 1) as real + 1.0;
  }

  lemma ShrunkAbs(e: real, ratio: real)
    requires 0.0 <= ratio <= 1.0
    ensures Abs(e * ratio) <= Abs(e)
  {
    assert Abs(e) * ratio <= Abs(e);
    assert Abs(e * ratio) == Abs(e) * ratio;
  }

  lemma CombineErrorShrinks(x: real, y: real, oldCount: nat, newAvg: real, newCount: nat)
    requires newCount > 0
    ensures Abs(Combine(x, oldCount, newAvg, newCount) - Combine(y, oldCount, newAvg, newCount)) <= Abs(x - y)
  {
    CombineDampsError(x, y, oldCount, newAvg, newCount);
    ShrunkAbs(x - y, oldCount as real / (oldCount + newCount) as real);
  }

  lemma Triangle(a: real, b: real, c: real)
    ensures Abs(a - c) <= Abs(a - b) + Abs(b - c)
  {
  }

  /** What one read after an arrival stores, in terms of the batches. */
  lemma ReadOfArrival(value: real, before: seq<real>, arrivals: seq<real>, p: Precision)
    ensures ReadValue(value, LogsOf(before, arrivals), p)
         == if arrivals == [] then (if before == [] then 0.0 else value)
            else if before == [] then RoundTo(Mean(arrivals), p)
            else RoundTo(Combine(value, |before|, Mean(arrivals), |arrivals|), p)
  {
    MarkedUncalculated(before, arrivals);
    AmountsOfMarked(arrivals, false);
  }

  lemma RoundedCombineError(value: real, mean: real, oldCount: nat, newAvg: real, newCount: nat, p: Precision)
    requires newCount > 0
    ensures Abs(RoundTo(Combine(value, oldCount, newAvg, newCount), p) - Combine(mean, oldCount, newAvg, newCount))
         <= Abs(value - mean) + p.HalfUnit()
  {
    var c, m := Combine(value, oldCount, newAvg, newCount), Combine(mean, oldCount, newAvg, newCount);
    CombineErrorShrinks(value, mean, oldCount, newAvg, newCount);
    Triangle(RoundTo(c, p), c, m);
  }

  lemma RoundedNearCombined(
    rounded: real, combined: real, value: real, exact: real, oldCount: nat, newAvg: real, newCount: nat, p: Precision)
    requires newCount > 0
    requires rounded == RoundTo(Combine(value, oldCount, newAvg, newCount), p)
    requires combined == Combine(exact, oldCount, newAvg, newCount)
    ensures Abs(rounded - combined) <= Abs(value - exact) + p.HalfUnit()
  {
    RoundedCombineError(value, exact, oldCount, newAvg, newCount, p);
  }

  /** A read brings two values no farther apart, but for its rounding. */
  lemma ReadNearExactRead(value: real, exact: real, logs: seq<Log>, p: Precision)
    ensures Abs(ReadValue(value, logs, p) - ExactRead(exact, logs)) <= Abs(value - exact) + p.HalfUnit()
  {
    var newCount := |Uncalculated(logs)|;
    UncalculatedIsShorter(logs);
    if 0 < newCount < |logs| {
      RoundedNearCombined(ReadValue(value, logs, p), ExactRead(exact, logs), value, exact,
                          |logs| - newCount, NewAverage(logs), newCount, p);
    }
  }

  lemma OneRound(value: real, before: seq<real>, arrivals: seq<real>, p: Precision)
    requires before == [] ==> value == 0.0
    ensures Abs(ReadValue(value, LogsOf(before, arrivals), p) - Mean(before + arrivals))
         <= Abs(value - Mean(before)) + p.HalfUnit()
  {
    ReadOfArrival(value, before, arrivals, p);
    if arrivals == [] {
      assert before + arrivals == before;
    } else if before == [] {
      assert before + arrivals == arrivals;
    } else {
      CombineOfMeans(before, arrivals);
      RoundedCombineError(value, Mean(before), |before|, Mean(arrivals), |arrivals|, p);
    }
  }

  lemma Associate<T>(a: seq<T>, b: seq<T>, c: seq<T>)
    ensures a + (b + c) == (a + b) + c
  {
  }

  lemma FlattenStep(before: seq<real>, batches: seq<seq<real>>)
    requires batches != []
    ensures before + Flatten(batches) == (before + Flatten(batches[..|batches| - 1])) + batches[|batches| - 1]
  {
    Associate(before, Flatten(batches[..|batches| - 1]), batches[|batches| - 1]);
  }

  lemma {:induction false} NoLogsNoValue(before: seq<real>, batches: seq<seq<real>>, p: Precision)
    requires before + Flatten(batches) == []
    ensures AfterRounds(Mean(before), before, batches, p) == 0.0
  {
    if batches != [] {
      var earlier := batches[..|batches| - 1];
      FlattenStep(before, batches);
      NoLogsNoValue(before, earlier, p);
      ReadOfArrival(0.0, before + Flatten(earlier), batches[|batches| - 1], p);
    }
  }

  /** n half-units. */
  function Slack(n: nat, p: Precision): real {
    if n == 0 then 0.0 else Slack(n - 1, p) + p.HalfUnit()
  }

  lemma {:induction false} SlackIsProduct(n: nat, p: Precision)
    ensures Slack(n, p) == n as real * p.HalfUnit()
  {
    if n > 0 {
      SlackIsProduct(n - 1, p);
      NextMultiple(n, p.HalfUnit());
    }
  }

  /** What the n-th round adds to a bound of (n - 1) half-units. */
  lemma OneMoreRound(value: real, before: seq<real>, arrivals: seq<real>, p: Precision, n: nat)
    requires n >= 1 && (before == [] ==> value == 0.0)
    requires Abs(value - Mean(before)) <= Slack(n - 1, p)
    ensures Abs(ReadValue(value, LogsOf(before, arrivals), p) - Mean(before + arrivals)) <= Slack(n, p)
  {
    OneRound(value, before, arrivals, p);
  }

  lemma {:induction false} ValueStaysNear(before: seq<real>, batches: seq<seq<real>>, p: Precision)
    ensures Abs(AfterRounds(Mean(before), before, batches, p) - Mean(before + Flatten(batches))) <= Slack(|batches|, p)
  {
    if batches == [] {
      assert before + Flatten(batches) == before;
    } else {
      var earlier := batches[..|batches| - 1];
      var value := AfterRounds(Mean(before), before, earlier, p);
      ValueStaysNear(before, earlier, p);
      if before + Flatten(earlier) == [] {
        NoLogsNoValue(before, earlier, p);
      }
      OneMoreRound(value, before + Flatten(earlier), batches[|batches| - 1], p, |batches|);
      FlattenStep(before, batches);
    }
  }

  /**
   From a value that is the mean of the calculated logs, n rounds of arrival, one read and marking
   keep the stored average within n half-units of the last kept place of the true mean: for
   "Avg Duration", within n * 0.0005.
   */
  lemma {:induction false} ValueTracksMean(before: seq<real>, batches: seq<seq<real>>, p: Precision)
    ensures Abs(AfterRounds(Mean(before), before, batches, p) - Mean(before + Flatten(batches)))
         <= |batches| as real * p.HalfUnit()
  {
    ValueStaysNear(before, batches, p);
    SlackIsProduct(|batches|, p);
  }

  lemma {:induction false} DurationBound(before: seq<real>, batches: seq<seq<real>>)
    ensures Abs(AfterRounds(Mean(before), before, batches, ThreePlaces) - Mean(before + Flatten(batches)))
         <= |batches| as real * 0.0005
  {
    ValueTracksMean(before, batches, ThreePlaces);
  }

  lemma {:induction false} CostBound(before: seq<real>, batches: seq<seq<real>>)
    ensures Abs(AfterRounds(Mean(before), before, batches, TwoPlaces) - Mean(before + Flatten(batches)))
         <= |batches| as real * 0.005
  {
    ValueTracksMean(before, batches, TwoPlaces);
  }

  // ---------- Logs without an amount ----------

  /** New logs of which `missing` have no duration or no cost. */
  function Incomplete(missing: nat): seq<Log> {
    seq(missing, _ => Log(None, false))
  }

  lemma AppendIncomplete(logs: seq<Log>)
    ensures Uncalculated(logs + [Log(None, false)]) == Uncalculated(logs) + [Log(None, false)]
    ensures Amounts(logs + [Log(None, false)]) == Amounts(logs)
  {
    assert (logs + [Log(None, false)])[..|logs|] == logs;
    assert Amounts(logs) + [] == Amounts(logs);
  }

  lemma {:induction false} IncompleteAdds(logs: seq<Log>, missing: nat)
    ensures Uncalculated(logs + Incomplete(missing)) == Uncalculated(logs) + Incomplete(missing)
    ensures Amounts(logs + Incomplete(missing)) == Amounts(logs)
    decreases missing
  {
    if missing == 0 {
      assert logs + Incomplete(0) == logs;
      assert Uncalculated(logs) + Incomplete(0) == Uncalculated(logs);
    } else {
      var fewer := Incomplete(missing - 1);
      assert Incomplete(missing) == fewer + [Log(None, false)];
      IncompleteAdds(logs, missing - 1);
      AppendIncomplete(logs + fewer);
      Associate(logs, fewer, [Log(None, false)]);
      Associate(Uncalculated(logs), fewer, [Log(None, false)]);
    }
  }

  lemma IncompleteLogs(before: seq<real>, arrivals: seq<real>, missing: nat)
    ensures var logs := LogsOf(before, arrivals) + Incomplete(missing);
            && |logs| == |before| + (|arrivals| + missing)
            && |Uncalculated(logs)| == |arrivals| + missing
            && NewAverage(logs) == Mean(arrivals)
  {
    MarkedUncalculated(before, arrivals);
    AmountsOfMarked(arrivals, false);
    IncompleteAdds(LogsOf(before, arrivals), missing);
    IncompleteAdds(Marked(arrivals, false), missing);
  }

  lemma ReadIsCombine(value: real, logs: seq<Log>, oldCount: nat, newAvg: real, newCount: nat, p: Precision)
    requires oldCount > 0 && newCount > 0
    requires |logs| == oldCount + newCount && |Uncalculated(logs)| == newCount && NewAverage(logs) == newAvg
    ensures ReadValue(value, logs, p) == RoundTo(Combine(value, oldCount, newAvg, newCount), p)
  {
    assert ExactRead(value, logs) == Combine(value, oldCount, newAvg, newCount);
  }

  /**
   New logs without an amount do not enter the new average but do enter its weight: a read counts
   each of them as if its amount were the average of the complete ones, or 0 if there are none.
   */
  lemma ReadWithIncompleteLogs(value: real, before: seq<real>, arrivals: seq<real>, missing: nat, p: Precision)
    requires before != [] && |arrivals| + missing > 0
    ensures ReadValue(value, LogsOf(before, arrivals) + Incomplete(missing), p)
         == RoundTo(Combine(value, |before|, Mean(arrivals), |arrivals| + missing), p)
  {
    IncompleteLogs(before, arrivals, missing);
    ReadIsCombine(value, LogsOf(before, arrivals) + Incomplete(missing), |before|, Mean(arrivals),
                  |arrivals| + missing, p);
  }

  // ---------- Reads without marking: the new logs are folded in again and again ----------

  function Power(x: real, k: nat): real {
    if k == 0 then 1.0 else x * Power(x, k - 1)
  }

  /** The value after k reads without a mark, before any rounding. */
  function ExactReads(value: real, oldCount: nat, newAvg: real, newCount: nat, k: nat): real
    requires newCount > 0
  {
    if k == 0 then value
    else Combine(ExactReads(value, oldCount, newAvg, newCount, k - 1), oldCount, newAvg, newCount)
  }

  /** The stored value after k reads without a mark. */
  function StoredReads(value: real, logs: seq<Log>, p: Precision, k: nat): real
  {
    if k == 0 then value else ReadValue(StoredReads(value, logs, p, k - 1), logs, p)
  }

  lemma CombineFixesNewAverage(oldCount: nat, newAvg: real, newCount: nat)
    requires newCount > 0
    ensures Combine(newAvg, oldCount, newAvg, newCount) == newAvg
  {
    assert newAvg * oldCount as real + newAvg * newCount as real == newAvg * (oldCount + newCount) as real;
  }

  /** k reads carry the value geometrically from the old average to the average of the new logs alone. */
  lemma {:induction false} ExactReadsClosedForm(value: real, oldCount: nat, newAvg: real, newCount: nat, k: nat)
    requires newCount > 0
    ensures ExactReads(value, oldCount, newAvg, newCount, k)
         == newAvg + (value - newAvg) * Power(oldCount as real / (oldCount + newCount) as real, k)
  {
    var ratio := oldCount as real / (oldCount + newCount) as real;
    if k > 0 {
      var x := ExactReads(value, oldCount, newAvg, newCount, k - 1);
      ExactReadsClosedForm(value, oldCount, newAvg, newCount, k - 1);
      CombineDampsError(x, newAvg, oldCount, newAvg, newCount);
      CombineFixesNewAverage(oldCount, newAvg, newCount);
      assert ((value - newAvg) * Power(ratio, k - 1)) * ratio == (value - newAvg) * Power(ratio, k);
    }
  }

  /** With rounding, k reads without a mark stay within k half-units of the unrounded ones. */
  lemma {:induction false} StoredReadsNearExactReads(value: real, logs: seq<Log>, p: Precision, k: nat)
    requires 0 < |Uncalculated(logs)| < |logs|
    ensures var newCount := |Uncalculated(logs)|;
            Abs(StoredReads(value, logs, p, k) - ExactReads(value, |logs| - newCount, NewAverage(logs), newCount, k))
            <= k as real * p.HalfUnit()
  {
    if k > 0 {
      var newCount := |Uncalculated(logs)|;
      var oldCount: nat := |logs| - newCount;
      var newAvg := NewAverage(logs);
      StoredReadsNearExactReads(value, logs, p, k - 1);
      var x := StoredReads(value, logs, p, k - 1);
      var y := ExactReads(value, oldCount, newAvg, newCount, k - 1);
      assert StoredReads(value, logs, p, k) == RoundTo(Combine(x, oldCount, newAvg, newCount), p);
      assert ExactReads(value, oldCount, newAvg, newCount, k) == Combine(y, oldCount, newAvg, newCount);
      RoundedCombineError(x, y, oldCount, newAvg, newCount, p);
      NextMultiple(k, p.HalfUnit());
    }
  }

  /**
   Before rounding, a second read leaves the first one's value alone exactly when there is no old
   log or the old average already was the new logs' average.
   */
  lemma UnroundedReadsAgreeExactly(value: real, oldCount: nat, newAvg: real, newCount: nat)
    requires newCount > 0
    ensures ExactReads(value, oldCount, newAvg, newCount, 2) == ExactReads(value, oldCount, newAvg, newCount, 1)
        <==> oldCount == 0 || value == newAvg
  {
    var ratio := oldCount as real / (oldCount + newCount) as real;
    var d := value - newAvg;
    ExactReadsClosedForm(value, oldCount, newAvg, newCount, 1);
    ExactReadsClosedForm(value, oldCount, newAvg, newCount, 2);
    CombineDampsError(value, newAvg, oldCount, newAvg, newCount);
    assert Power(ratio, 1) == ratio * Power(ratio, 0) == ratio;
    assert Power(ratio, 2) == ratio * ratio;
    assert ratio == 0.0 <==> oldCount == 0 by {
      assert ratio * (oldCount + newCount) as real == oldCount as real;
    }
    assert d * (ratio * ratio) - d * ratio == d * (ratio * (ratio - 1.0));
    if oldCount != 0 && d != 0.0 {
      assert ratio * (ratio - 1.0) != 0.0;
      assert d * (ratio * (ratio - 1.0)) != 0.0;
    }
  }

  /** Reads of one metric, one after the other: its stored number goes through the values of `StoredReads`. */
  method ReadRepeatedly(metric: Metric, logs: seq<Log>, p: Precision, unitName: string, k: nat)
    requires metric.value.Numeral?
    modifies metric
    ensures metric.value == Numeral(StoredReads(old(metric.value.number), logs, p, k))
  {
    ghost var v := metric.value.number;
    for i := 0 to k
      invariant metric.value == Numeral(StoredReads(v, logs, p, i))
    {
      var data := metric.ReadAverage(logs, p, unitName);
      assert data == Ok(ReadValue(StoredReads(v, logs, p, i), logs, p));
    }
  }

  // ---------- Reading the stored value again ----------

  /** `HalfEven` yields m exactly for the numbers within a half of m, and at a distance of a half if m is even. */
  lemma HalfEvenExactly(y: real, m: int)
    ensures HalfEven(y) == m <==>
            Abs(y - m as real) < 0.5 || (Abs(y - m as real) == 0.5 && m % 2 == 0)
  {
    var f := y.Floor;
    assert f as real <= y < f as real + 1.0;
    if m < f {
      assert y - m as real >= (f - m) as real >= 1.0;
    } else if m > f + 1 {
      assert m as real - y > (m - f - 1) as real >= 1.0;
    }
  }

  lemma RoundToUnits(x: real, p: Precision)
    ensures p.InUnits(RoundTo(x, p)) == HalfEven(p.InUnits(x)) as real
  {
  }

  /** The share of new logs in the gap between a value and the new average. */
  function ShareOfGap(x: real, newAvg: real, newCount: nat, total: nat): real
    requires total > 0
  {
    (newAvg - x) * (newCount as real / total as real)
  }

  lemma CombineMovesByShare(
    combined: real, x: real, oldCount: nat, newAvg: real, newCount: nat, total: nat, move: real)
    requires total == oldCount + newCount > 0 && combined == Combine(x, oldCount, newAvg, newCount)
    requires move == ShareOfGap(x, newAvg, newCount, total)
    ensures combined - x == move
  {
    var o, n, t := oldCount as real, newCount as real, total as real;
    assert combined * t == x * o + newAvg * n;
    assert (combined - x) * t == (newAvg - x) * n;
    DivideOut(combined - x, newAvg - x, n, t);
  }

  /** A read moves the value towards the new average, by the share of new logs in the gap. */
  lemma ReadMovesByShare(x: real, logs: seq<Log>)
    requires 0 < |Uncalculated(logs)| < |logs|
    ensures ExactRead(x, logs) - x == ShareOfGap(x, NewAverage(logs), |Uncalculated(logs)|, |logs|)
  {
    var newCount := |Uncalculated(logs)|;
    CombineMovesByShare(ExactRead(x, logs), x, |logs| - newCount, NewAverage(logs), newCount, |logs|,
                        ShareOfGap(x, NewAverage(logs), newCount, |logs|));
  }

  /** A move too small to show: less than half a unit of the last kept place, or half a unit off an even digit. */
  predicate TooSmall(move: real, x: real, p: Precision) {
    Abs(p.InUnits(move)) < 0.5 || (Abs(p.InUnits(move)) == 0.5 && p.InUnits(x).Floor % 2 == 0)
  }

  predicate WholeUnits(x: real, p: Precision) {
    p.InUnits(x) == p.InUnits(x).Floor as real
  }

  lemma RoundedStaysExactly(rounded: real, x: real, moved: real, p: Precision)
    requires rounded == RoundTo(moved, p) && WholeUnits(x, p)
    ensures rounded == x <==> TooSmall(moved - x, x, p)
  {
    HalfEvenExactly(p.InUnits(moved), p.InUnits(x).Floor);
    RoundToUnits(moved, p);
  }

  lemma RoundedIsWhole(rounded: real, x: real, p: Precision)
    requires rounded == RoundTo(x, p)
    ensures WholeUnits(rounded, p)
  {
    RoundToUnits(x, p);
  }

  lemma FirstTwoReads(value: real, logs: seq<Log>, p: Precision)
    ensures StoredReads(value, logs, p, 1) == ReadValue(value, logs, p)
    ensures StoredReads(value, logs, p, 2) == ReadValue(ReadValue(value, logs, p), logs, p)
  {
    assert StoredReads(value, logs, p, 0) == value;
    assert StoredReads(value, logs, p, 1) == ReadValue(value, logs, p);
  }

  lemma NextReadAgrees(value: real, logs: seq<Log>, p: Precision)
    requires Uncalculated(logs) == [] || |Uncalculated(logs)| == |logs|
    ensures ReadValue(ReadValue(value, logs, p), logs, p) == ReadValue(value, logs, p)
  {
  }

  /**
   Reading twice without a mark stores the same value, for any logs and any value before, exactly
   when no log is new, or all of them are, or the new logs' share of the gap between the value and
   their average is too small to show.
   */
  lemma SecondReadAgreesExactly(value: real, logs: seq<Log>, p: Precision)
    ensures var x := StoredReads(value, logs, p, 1);
            StoredReads(value, logs, p, 2) == x
            <==> || Uncalculated(logs) == []
                 || |Uncalculated(logs)| == |logs|
                 || (logs != [] && TooSmall(ShareOfGap(x, NewAverage(logs), |Uncalculated(logs)|, |logs|), x, p))
  {
    FirstTwoReads(value, logs, p);
    UncalculatedIsShorter(logs);
    if Uncalculated(logs) == [] || |Uncalculated(logs)| == |logs| {
      NextReadAgrees(value, logs, p);
    } else {
      var x := ReadValue(value, logs, p);
      RoundedIsWhole(x, ExactRead(value, logs), p);
      ReadMovesByShare(x, logs);
      RoundedStaysExactly(ReadValue(x, logs, p), x, ExactRead(x, logs), p);
    }
  }

  lemma MeanOfOne()
    ensures Mean([1.0]) == 1.0
  {
    assert [1.0][..0] == [];
    assert Sum([]) == 0.0;
  }

  lemma HalvesAreKept(p: Precision)
    ensures RoundTo(0.5, p) == 0.5 && RoundTo(0.75, p) == 0.75
  {
  }

  lemma ReadsOfOneAndOne(value: real, p: Precision)
    requires value == 0.0 || value == 0.5
    ensures ReadValue(value, LogsOf([0.0], [1.0]), p) == (value + 1.0) / 2.0
  {
    ReadOfArrival(value, [0.0], [1.0], p);
    MeanOfOne();
    assert Combine(value, 1, 1.0, 1) == (value + 1.0) / 2.0;
    HalvesAreKept(p);
  }

  /** Reading is not idempotent: one old log of 0 and one new log of 1 read as 0.5 and then as 0.75. */
  lemma SecondReadCanDiffer(p: Precision)
    ensures var logs := LogsOf([0.0], [1.0]);
            StoredReads(0.0, logs, p, 1) == 0.5 && StoredReads(0.0, logs, p, 2) == 0.75
  {
    FirstTwoReads(0.0, LogsOf([0.0], [1.0]), p);
    ReadsOfOneAndOne(0.0, p);
    ReadsOfOneAndOne(0.5, p);
  }
}
