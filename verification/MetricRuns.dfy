/**
 Any interleaving of arrivals, reads and marks. Before rounding, the stored average is a weighted
 mean of the logs' amounts, with weights that the order of the events alone decides.
 */
module MetricRuns {
  import opened Wrappers
  import opened Metrics

  /** A complete log arrives, the metric is read, or the logs of some indices are marked as calculated. */
  datatype Event = Arrive | Read | Mark(which: set<nat>)

  /** The `calculated` flags after the events, in order of arrival. */
  function Flags(events: seq<Event>): seq<bool> {
    if events == [] then []
    else
      var flags := Flags(events[..|events| - 1]);
      match events[|events| - 1]
      case Arrive => flags + [false]
      case Read => flags
      case Mark(which) => seq(|flags|, i requires 0 <= i < |flags| => flags[i] || i in which)
  }

  lemma {:induction false} FlagsOnlyGrow(events: seq<Event>)
    requires events != []
    ensures |Flags(events[..|events| - 1])| <= |Flags(events)|
  {
  }

  /** The table when log i has amount `a[i]`. */
  function Table(a: seq<real>, flags: seq<bool>): seq<Log>
    requires |flags| <= |a|
  {
    seq(|flags|, i requires 0 <= i < |flags| => Log(Some(a[i]), flags[i]))
  }

  /** The stored average after the events, before any rounding; log i arrives with amount `a[i]`. */
  function ValueAfter(v0: real, a: seq<real>, events: seq<Event>): real
    requires |Flags(events)| <= |a|
  {
    if events == [] then v0
    else
      FlagsOnlyGrow(events);
      var earlier := events[..|events| - 1];
      var value := ValueAfter(v0, a, earlier);
      if events[|events| - 1].Read? then ExactRead(value, Table(a, Flags(earlier))) else value
  }

  /** The stored average as it is, rounded at every read. */
  function StoredAfter(v0: real, a: seq<real>, events: seq<Event>, p: Precision): real
    requires |Flags(events)| <= |a|
  {
    if events == [] then v0
    else
      FlagsOnlyGrow(events);
      var earlier := events[..|events| - 1];
      var value := StoredAfter(v0, a, earlier, p);
      if events[|events| - 1].Read? then ReadValue(value, Table(a, Flags(earlier)), p) else value
  }

  function Reads(events: seq<Event>): nat {
    if events == [] then 0 else Reads(events[..|events| - 1]) + if events[|events| - 1].Read? then 1 else 0
  }

  /** Rounding puts the stored average off by half a unit of the last place per read at most, in any interleaving. */
  lemma {:induction false} StoredNearValue(v0: real, a: seq<real>, events: seq<Event>, p: Precision)
    requires |Flags(events)| <= |a|
    ensures Abs(StoredAfter(v0, a, events, p) - ValueAfter(v0, a, events)) <= Slack(Reads(events), p)
  {
    if events != [] {
      FlagsOnlyGrow(events);
      var earlier := events[..|events| - 1];
      StoredNearValue(v0, a, earlier, p);
      if events[|events| - 1].Read? {
        ReadNearExactRead(StoredAfter(v0, a, earlier, p), ValueAfter(v0, a, earlier), Table(a, Flags(earlier)), p);
      }
    }
  }

  // ---------- Shares ----------

  function Marked(flags: seq<bool>): (n: nat)
    ensures n <= |flags|
  {
    if flags == [] then 0 else Marked(flags[..|flags| - 1]) + if flags[|flags| - 1] then 1 else 0
  }

  /** What a read keeps of the value before it: the share of marked logs. */
  function Kept(flags: seq<bool>): real
    requires flags != []
  {
    Marked(flags) as real / |flags| as real
  }

  /** What a read gives to each unmarked log. */
  function Given(flags: seq<bool>): real
    requires flags != []
  {
    1.0 / |flags| as real
  }

  function Times(x: real, y: real): real {
    x * y
  }

  /** A share after a read: what it keeps and, for an unmarked log, what the read gives. */
  function Blended(share: real, marked: bool, kept: real, given: real): real {
    if marked then kept * share else kept * share + given
  }

  function Blend(shares: seq<real>, flags: seq<bool>, kept: real, given: real): (r: seq<real>)
    requires |shares| == |flags|
    ensures |r| == |flags|
  {
    if flags == [] then []
    else
      var n := |flags| - 1;
      Blend(shares[..n], flags[..n], kept, given) + [Blended(shares[n], flags[n], kept, given)]
  }

  /** The share of each log in the value. Only the order of the events enters, no amount does. */
  function Shares(events: seq<Event>): (r: seq<real>)
    ensures |r| == |Flags(events)|
  {
    if events == [] then []
    else
      var earlier := events[..|events| - 1];
      match events[|events| - 1]
      case Arrive => Shares(earlier) + [0.0]
      case Mark(_) => Shares(earlier)
      case Read =>
        var flags := Flags(earlier);
        if flags == [] then [] else Blend(Shares(earlier), flags, Kept(flags), Given(flags))
  }

  /** The share of the value before the first event. */
  function Rest(events: seq<Event>): real {
    if events == [] then 1.0
    else
      var earlier := events[..|events| - 1];
      var flags := Flags(earlier);
      if events[|events| - 1].Read? && flags != [] then Times(Kept(flags), Rest(earlier)) else Rest(earlier)
  }

  /** That value; a read of an empty table replaces it by 0. */
  function Start(v0: real, events: seq<Event>): real {
    if events == [] then v0
    else
      var earlier := events[..|events| - 1];
      if events[|events| - 1].Read? && Flags(earlier) == [] then 0.0 else Start(v0, earlier)
  }

  function Dot(shares: seq<real>, a: seq<real>): real
    requires |shares| <= |a|
  {
    if shares == [] then 0.0
    else Dot(shares[..|shares| - 1], a) + Times(shares[|shares| - 1], a[|shares| - 1])
  }

  /** The weighted sum that the shares stand for. */
  function Shared(rest: real, start: real, shares: seq<real>, a: seq<real>): real
    requires |shares| <= |a|
  {
    Times(rest, start) + Dot(shares, a)
  }

  function UnmarkedSum(a: seq<real>, flags: seq<bool>): real
    requires |flags| <= |a|
  {
    if flags == [] then 0.0
    else UnmarkedSum(a, flags[..|flags| - 1]) + if flags[|flags| - 1] then 0.0 else a[|flags| - 1]
  }

  function Unmarked(flags: seq<bool>): real {
    if flags == [] then 0.0 else Unmarked(flags[..|flags| - 1]) + if flags[|flags| - 1] then 0.0 else 1.0
  }

  // ---------- A read, in terms of the flags ----------

  lemma AmountsAppend(logs: seq<Log>, log: Log)
    requires log.amount.Some?
    ensures Amounts(logs + [log]) == Amounts(logs) + [log.amount.value]
    ensures Sum(Amounts(logs) + [log.amount.value]) == Sum(Amounts(logs)) + log.amount.value
  {
    assert (logs + [log])[..|logs|] == logs;
    SumAppend(Amounts(logs), log.amount.value);
  }

  lemma SumAppend(xs: seq<real>, x: real)
    ensures Sum(xs + [x]) == Sum(xs) + x
  {
    assert (xs + [x])[..|xs|] == xs;
  }

  lemma {:induction false} UncalculatedOfTable(a: seq<real>, flags: seq<bool>)
    requires |flags| <= |a|
    ensures var u := Uncalculated(Table(a, flags));
            && |u| == |Amounts(u)| == |flags| - Marked(flags)
            && Sum(Amounts(u)) == UnmarkedSum(a, flags)
  {
    if flags != [] {
      var n := |flags| - 1;
      var table := Table(a, flags);
      UncalculatedOfTable(a, flags[..n]);
      assert table[..n] == Table(a, flags[..n]);
      var u := Uncalculated(table[..n]);
      if !flags[n] {
        AmountsAppend(u, table[n]);
        assert Uncalculated(table) == u + [table[n]];
      } else {
        assert Uncalculated(table) == u;
      }
    }
  }

  lemma {:induction false} AllMarkedSum(a: seq<real>, flags: seq<bool>)
    requires |flags| <= |a| && Marked(flags) == |flags|
    ensures UnmarkedSum(a, flags) == 0.0
  {
    if flags != [] {
      AllMarkedSum(a, flags[..|flags| - 1]);
    }
  }

  /** `r` is what `total` logs make when each of `marked` ones counts as `value` and the others sum to `sum`. */
  predicate Averages(r: real, total: nat, value: real, marked: nat, sum: real) {
    r * total as real == value * marked as real + sum
  }

  lemma CombineWeighs(value: real, oldCount: nat, newAvg: real, newCount: nat, sum: real, total: nat)
    requires total == oldCount + newCount > 0 && Averages(newAvg, newCount, 0.0, 0, sum)
    ensures Averages(Combine(value, oldCount, newAvg, newCount), total, value, oldCount, sum)
  {
  }

  lemma MeanWeighs(xs: seq<real>, sum: real, count: nat)
    requires xs != [] && |xs| == count && Sum(xs) == sum
    ensures Averages(Mean(xs), count, 0.0, 0, sum)
  {
    MeanTimesCount(xs);
  }

  lemma NoneMarked(r: real, total: nat, value: real, sum: real)
    requires Averages(r, total, 0.0, 0, sum)
    ensures Averages(r, total, value, 0, sum)
  {
  }

  lemma AllMarked(r: real, total: nat, value: real, sum: real)
    requires r == value && sum == 0.0
    ensures Averages(r, total, value, total, sum)
  {
  }

  lemma ReadAveragesLogs(value: real, logs: seq<Log>, newCount: nat, sum: real)
    requires logs != [] && newCount == |Uncalculated(logs)| <= |logs|
    requires if newCount == 0 then sum == 0.0 else Averages(NewAverage(logs), newCount, 0.0, 0, sum)
    ensures Averages(ExactRead(value, logs), |logs|, value, |logs| - newCount, sum)
  {
    if newCount == 0 {
      AllMarked(ExactRead(value, logs), |logs|, value, sum);
    } else if newCount == |logs| {
      NoneMarked(ExactRead(value, logs), |logs|, value, sum);
    } else {
      CombineWeighs(value, |logs| - newCount, NewAverage(logs), newCount, sum, |logs|);
    }
  }

  /** After a read every marked log counts as the value before it, and every other one as its own amount. */
  lemma ReadAverages(value: real, a: seq<real>, flags: seq<bool>)
    requires flags != [] && |flags| <= |a|
    ensures Averages(ExactRead(value, Table(a, flags)), |flags|, value, Marked(flags), UnmarkedSum(a, flags))
  {
    var table := Table(a, flags);
    var u := Uncalculated(table);
    UncalculatedOfTable(a, flags);
    if u == [] {
      AllMarkedSum(a, flags);
    } else {
      MeanWeighs(Amounts(u), UnmarkedSum(a, flags), |u|);
    }
    ReadAveragesLogs(value, table, |u|, UnmarkedSum(a, flags));
  }

  function Mix(kept: real, value: real, given: real, sum: real): real {
    kept * value + given * sum
  }

  lemma DivideThrough(r: real, value: real, sum: real, marked: nat, total: nat, kept: real, given: real)
    requires total > 0 && Averages(r, total, value, marked, sum)
    requires kept == marked as real / total as real && given == 1.0 / total as real
    ensures r == Mix(kept, value, given, sum)
  {
    var t := total as real;
    assert kept * t == marked as real && given * t == 1.0;
    assert (kept * value) * t == value * marked as real;
    assert (given * sum) * t == sum;
    var d := r - Mix(kept, value, given, sum);
    assert d * t == 0.0;
  }

  lemma ReadMixes(value: real, a: seq<real>, flags: seq<bool>)
    requires flags != [] && |flags| <= |a|
    ensures ExactRead(value, Table(a, flags)) == Mix(Kept(flags), value, Given(flags), UnmarkedSum(a, flags))
  {
    ReadAverages(value, a, flags);
    DivideThrough(ExactRead(value, Table(a, flags)), value, UnmarkedSum(a, flags),
                  Marked(flags), |flags|, Kept(flags), Given(flags));
  }

  // ---------- The value is shared ----------

  lemma MixTerm(kept: real, given: real, dot: real, sum: real, share: real, marked: bool, amount: real)
    ensures Mix(kept, dot, given, sum) + Times(Blended(share, marked, kept, given), amount)
         == Mix(kept, dot + Times(share, amount), given, sum + if marked then 0.0 else amount)
  {
  }

  lemma DotAppend(shares: seq<real>, share: real, a: seq<real>)
    requires |shares| < |a|
    ensures Dot(shares + [share], a) == Dot(shares, a) + Times(share, a[|shares|])
  {
    assert (shares + [share])[..|shares|] == shares;
  }

  lemma {:induction false} DotOfBlend(shares: seq<real>, flags: seq<bool>, kept: real, given: real, a: seq<real>)
    requires |shares| == |flags| <= |a|
    ensures Dot(Blend(shares, flags, kept, given), a) == Mix(kept, Dot(shares, a), given, UnmarkedSum(a, flags))
    decreases |flags|
  {
    if flags == [] {
      assert Mix(kept, 0.0, given, 0.0) == 0.0;
    } else {
      var n := |flags| - 1;
      DotOfBlend(shares[..n], flags[..n], kept, given, a);
      DotAppend(Blend(shares[..n], flags[..n], kept, given), Blended(shares[n], flags[n], kept, given), a);
      MixTerm(kept, given, Dot(shares[..n], a), UnmarkedSum(a, flags[..n]), shares[n], flags[n], a[n]);
    }
  }

  lemma Regroup(kept: real, given: real, rest: real, start: real, dot: real, sum: real)
    ensures Mix(kept, Times(rest, start) + dot, given, sum)
         == Times(Times(kept, rest), start) + Mix(kept, dot, given, sum)
  {
  }

  lemma ReadKeepsShared(value: real, rest: real, start: real, shares: seq<real>, a: seq<real>, flags: seq<bool>)
    requires flags != [] && |shares| == |flags| <= |a| && value == Shared(rest, start, shares, a)
    ensures ExactRead(value, Table(a, flags))
         == Shared(Times(Kept(flags), rest), start, Blend(shares, flags, Kept(flags), Given(flags)), a)
  {
    ReadMixes(value, a, flags);
    DotOfBlend(shares, flags, Kept(flags), Given(flags), a);
    Regroup(Kept(flags), Given(flags), rest, start, Dot(shares, a), UnmarkedSum(a, flags));
  }

  lemma AppendKeepsShared(rest: real, start: real, shares: seq<real>, a: seq<real>)
    requires |shares| < |a|
    ensures Shared(rest, start, shares + [0.0], a) == Shared(rest, start, shares, a)
  {
    DotAppend(shares, 0.0, a);
  }

  lemma NothingShared(rest: real, a: seq<real>)
    ensures Shared(rest, 0.0, [], a) == 0.0
  {
  }

  /** After any events the value is the shares' weighted sum of the amounts and of the value at the start. */
  lemma {:induction false} ValueIsShared(v0: real, a: seq<real>, events: seq<Event>)
    requires |Flags(events)| <= |a|
    ensures ValueAfter(v0, a, events) == Shared(Rest(events), Start(v0, events), Shares(events), a)
  {
    if events == [] {
      assert Shared(1.0, v0, [], a) == v0;
    } else {
      FlagsOnlyGrow(events);
      var earlier := events[..|events| - 1];
      ValueIsShared(v0, a, earlier);
      match events[|events| - 1] {
        case Arrive => AppendKeepsShared(Rest(earlier), Start(v0, earlier), Shares(earlier), a);
        case Mark(_) =>
        case Read =>
          if Flags(earlier) == [] {
            NothingShared(Rest(events), a);
          } else {
            ReadKeepsShared(ValueAfter(v0, a, earlier), Rest(earlier), Start(v0, earlier), Shares(earlier), a,
                            Flags(earlier));
          }
      }
    }
  }

  // ---------- The shares are a weighting ----------

  lemma SumTerm(kept: real, given: real, sum: real, unmarked: real, share: real, marked: bool)
    ensures Mix(kept, sum, given, unmarked) + Blended(share, marked, kept, given)
         == Mix(kept, sum + share, given, unmarked + if marked then 0.0 else 1.0)
  {
  }

  lemma {:induction false} SumOfBlend(shares: seq<real>, flags: seq<bool>, kept: real, given: real)
    requires |shares| == |flags|
    ensures Sum(Blend(shares, flags, kept, given)) == Mix(kept, Sum(shares), given, Unmarked(flags))
    decreases |flags|
  {
    if flags == [] {
      assert Mix(kept, 0.0, given, 0.0) == 0.0;
    } else {
      var n := |flags| - 1;
      SumOfBlend(shares[..n], flags[..n], kept, given);
      SumAppend(Blend(shares[..n], flags[..n], kept, given), Blended(shares[n], flags[n], kept, given));
      SumTerm(kept, given, Sum(shares[..n]), Unmarked(flags[..n]), shares[n], flags[n]);
    }
  }

  lemma {:induction false} UnmarkedIsRest(flags: seq<bool>)
    ensures Unmarked(flags) == |flags| as real - Marked(flags) as real
  {
    if flags != [] {
      UnmarkedIsRest(flags[..|flags| - 1]);
    }
  }

  lemma MixKeepsOne(kept: real, given: real, rest: real, sum: real, marked: nat, total: nat, unmarked: real)
    requires total > 0 && marked <= total && rest + sum == 1.0 && unmarked == total as real - marked as real
    requires kept == marked as real / total as real && given == 1.0 / total as real
    ensures Times(kept, rest) + Mix(kept, sum, given, unmarked) == 1.0
    ensures kept >= 0.0 && given >= 0.0
  {
    var t, m := total as real, marked as real;
    assert kept * t == m && given * t == 1.0;
    assert kept == given * m by {
      assert (kept - given * m) * t == 0.0;
    }
    assert kept * rest + kept * sum == kept * (rest + sum);
    assert given * unmarked == 1.0 - given * m;
  }

  lemma NonNegativeProduct(x: real, y: real)
    requires x >= 0.0 && y >= 0.0
    ensures Times(x, y) >= 0.0
  {
  }

  predicate NonNegative(shares: seq<real>) {
    forall i :: 0 <= i < |shares| ==> shares[i] >= 0.0
  }

  lemma {:induction false} BlendIsNonNegative(shares: seq<real>, flags: seq<bool>, kept: real, given: real)
    requires |shares| == |flags| && kept >= 0.0 && given >= 0.0 && NonNegative(shares)
    ensures NonNegative(Blend(shares, flags, kept, given))
    decreases |flags|
  {
    if flags != [] {
      var n := |flags| - 1;
      BlendIsNonNegative(shares[..n], flags[..n], kept, given);
      NonNegativeProduct(kept, shares[n]);
    }
  }

  /** No share is negative, and together with the rest they make one. */
  predicate MakeOne(rest: real, shares: seq<real>) {
    rest + Sum(shares) == 1.0 && rest >= 0.0 && NonNegative(shares)
  }

  lemma ReadKeepsOne(rest: real, shares: seq<real>, flags: seq<bool>)
    requires flags != [] && |shares| == |flags| && MakeOne(rest, shares)
    ensures MakeOne(Times(Kept(flags), rest), Blend(shares, flags, Kept(flags), Given(flags)))
  {
    SumOfBlend(shares, flags, Kept(flags), Given(flags));
    UnmarkedIsRest(flags);
    MixKeepsOne(Kept(flags), Given(flags), rest, Sum(shares), Marked(flags), |flags|, Unmarked(flags));
    BlendIsNonNegative(shares, flags, Kept(flags), Given(flags));
    NonNegativeProduct(Kept(flags), rest);
  }

  /** The value is a weighted mean, in which the value at the start has a weight too. */
  lemma {:induction false} SharesMakeOne(events: seq<Event>)
    ensures MakeOne(Rest(events), Shares(events))
  {
    if events != [] {
      var earlier := events[..|events| - 1];
      SharesMakeOne(earlier);
      match events[|events| - 1] {
        case Arrive => SumAppend(Shares(earlier), 0.0);
        case Mark(_) =>
        case Read =>
          if Flags(earlier) != [] {
            ReadKeepsOne(Rest(earlier), Shares(earlier), Flags(earlier));
          }
      }
    }
  }

  // ---------- Logs marked before they are read ----------

  lemma {:induction false} BlendAt(shares: seq<real>, flags: seq<bool>, kept: real, given: real, i: nat)
    requires |shares| == |flags| && i < |flags|
    ensures Blend(shares, flags, kept, given)[i] == Blended(shares[i], flags[i], kept, given)
    decreases |flags|
  {
    var n := |flags| - 1;
    if i < n {
      BlendAt(shares[..n], flags[..n], kept, given, i);
    }
  }

  /** A log that is marked before any read gave it a share never counts, whatever happens later. */
  lemma {:induction false} UnreadMarkedNeverCounts(events: seq<Event>, k: nat, i: nat)
    requires k <= |events| && i < |Flags(events[..k])|
    requires Flags(events[..k])[i] && Shares(events[..k])[i] == 0.0
    ensures i < |Flags(events)| && Flags(events)[i] && Shares(events)[i] == 0.0
    decreases |events|
  {
    if k == |events| {
      assert events[..k] == events;
    } else {
      var earlier := events[..|events| - 1];
      assert earlier[..k] == events[..k];
      UnreadMarkedNeverCounts(earlier, k, i);
      FlagsOnlyGrow(events);
      if events[|events| - 1].Read? {
        var flags := Flags(earlier);
        BlendAt(Shares(earlier), flags, Kept(flags), Given(flags), i);
      }
    }
  }

  // ---------- Exactly when the value is the true mean ----------

  lemma EqualTerm(share: real, sum: real, amount: real)
    ensures Times(share, sum) + Times(share, amount) == Times(share, sum + amount)
    ensures Times(share, 1.0) == share && Times(share, 0.0) == 0.0
  {
  }

  lemma {:induction false} DotOfEqual(shares: seq<real>, a: seq<real>, share: real)
    requires |shares| <= |a| && forall i :: 0 <= i < |shares| ==> shares[i] == share
    ensures Dot(shares, a) == Times(share, Sum(a[..|shares|]))
    ensures Sum(shares) == Times(share, |shares| as real)
  {
    EqualTerm(share, 0.0, 0.0);
    if shares != [] {
      var n := |shares| - 1;
      DotOfEqual(shares[..n], a, share);
      assert a[..n + 1][..n] == a[..n];
      EqualTerm(share, Sum(a[..n]), a[n]);
      EqualTerm(share, n as real, 1.0);
    }
  }

  /** The amounts of which only log i's is not 0, but 1. */
  function Single(n: nat, i: nat): seq<real> {
    seq(n, k => if k == i then 1.0 else 0.0)
  }

  lemma {:induction false} DotOfSingle(shares: seq<real>, n: nat, i: nat)
    requires |shares| <= n
    ensures Dot(shares, Single(n, i)) == if i < |shares| then shares[i] else 0.0
  {
    if shares != [] {
      DotOfSingle(shares[..|shares| - 1], n, i);
      EqualTerm(shares[|shares| - 1], 0.0, 0.0);
    }
  }

  lemma {:induction false} SumOfSingle(n: nat, i: nat)
    ensures Sum(Single(n, i)) == if i < n then 1.0 else 0.0
  {
    if n > 0 {
      assert Single(n, i)[..n - 1] == Single(n - 1, i);
      SumOfSingle(n - 1, i);
    }
  }

  lemma {:induction false} StartsAtZero(events: seq<Event>)
    ensures Start(0.0, events) == 0.0
  {
    if events != [] {
      StartsAtZero(events[..|events| - 1]);
    }
  }

  ghost predicate AlwaysMean(events: seq<Event>) {
    forall v0: real, a: seq<real> :: |a| == |Flags(events)| ==> ValueAfter(v0, a, events) == Mean(a)
  }

  predicate EqualShares(events: seq<Event>) {
    forall i :: 0 <= i < |Shares(events)| ==> Shares(events)[i] == 1.0 / |Shares(events)| as real
  }

  lemma EqualMakesMean(share: real, a: seq<real>, rest: real, start: real, sum: real)
    requires a != [] && share == 1.0 / |a| as real && rest + sum == 1.0 && sum == Times(share, |a| as real)
    ensures Times(rest, start) + Times(share, Sum(a)) == Mean(a)
  {
    var t := |a| as real;
    assert share * t == 1.0;
    assert rest == 0.0;
    MeanTimesCount(a);
    assert (Mean(a) - share * Sum(a)) * t == 0.0;
  }

  lemma EqualSharesGiveMean(events: seq<Event>, v0: real, a: seq<real>)
    requires |a| == |Flags(events)| > 0 && EqualShares(events)
    ensures ValueAfter(v0, a, events) == Mean(a)
  {
    var share := 1.0 / |a| as real;
    ValueIsShared(v0, a, events);
    SharesMakeOne(events);
    DotOfEqual(Shares(events), a, share);
    assert a[..|a|] == a;
    EqualMakesMean(share, a, Rest(events), Start(v0, events), Sum(Shares(events)));
  }

  lemma MeanGivesShare(events: seq<Event>, i: nat)
    requires i < |Shares(events)| && AlwaysMean(events)
    ensures Shares(events)[i] == 1.0 / |Shares(events)| as real
  {
    var n := |Flags(events)|;
    ValueIsShared(0.0, Single(n, i), events);
    StartsAtZero(events);
    DotOfSingle(Shares(events), n, i);
    SumOfSingle(n, i);
  }

  /** Events give the true mean of all logs, whatever their amounts, exactly when they give the logs equal shares. */
  lemma MeanExactlyWhenSharesEqual(events: seq<Event>)
    requires Flags(events) != []
    ensures AlwaysMean(events) <==> EqualShares(events)
  {
    if EqualShares(events) {
      forall v0: real, a: seq<real> | |a| == |Flags(events)|
        ensures ValueAfter(v0, a, events) == Mean(a)
      {
        EqualSharesGiveMean(events, v0, a);
      }
    }
    if AlwaysMean(events) {
      forall i | 0 <= i < |Shares(events)|
        ensures Shares(events)[i] == 1.0 / |Shares(events)| as real
      {
        MeanGivesShare(events, i);
      }
    }
  }
}
