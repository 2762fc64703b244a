/** The cron job that runs pending trigger events, at most ten a run, and counts their failed attempts. */
module RetryCron {

  /** What a handler's first result is worth: "wait" is a non-empty string, hence as true as `True`. */
  datatype Success = Yes | Wait | No {
    predicate Truthy() {
      this != No
    }
  }

  datatype Event = Event(status: bool, retry: int) {
    predicate Pending() {
      !status && retry <= 3
    }
  }

  const BATCH: nat := 10

  function PendingCount(events: seq<Event>): nat {
    if events == [] then 0
    else PendingCount(events[..|events| - 1]) + if events[|events| - 1].Pending() then 1 else 0
  }

  /** What one attempt does to its event's row. */
  function Attempt(e: Event, success: Success): Event {
    if success.Truthy() then e.(status := true) else e.(retry := e.retry + 1)
  }

  /** The table after the chosen events, by index, have been attempted; `results[i]` is what event i's handler says. */
  function RunCron(events: seq<Event>, chosen: seq<nat>, results: seq<Success>): (r: seq<Event>)
    requires |results| == |events| && forall k :: 0 <= k < |chosen| ==> chosen[k] < |events|
    ensures |r| == |events|
  {
    if chosen == [] then events
    else
      var earlier := RunCron(events, chosen[..|chosen| - 1], results);
      var i := chosen[|chosen| - 1];
      earlier[i := Attempt(events[i], results[i])]
  }

  /** A slice the unordered query may return: distinct pending events, ten of them if there are ten. */
  predicate Slice(events: seq<Event>, chosen: seq<nat>) {
    && (forall k :: 0 <= k < |chosen| ==> chosen[k] < |events| && events[chosen[k]].Pending())
    && (forall j, k :: 0 <= j < k < |chosen| ==> chosen[j] != chosen[k])
    && |chosen| == (if PendingCount(events) < BATCH then PendingCount(events) else BATCH)
  }

  class EventTable {
    var events: seq<Event>

    method ProcessEventCron(chosen: seq<nat>, results: seq<Success>) returns (processed: nat)
      requires |results| == |events| && Slice(events, chosen)
      modifies this
      ensures events == RunCron(old(events), chosen, results)
      ensures processed == if PendingCount(old(events)) < 10 then PendingCount(old(events)) else 10
    {
      var snapshot := events;
      for k := 0 to |chosen|
        invariant |events| == |snapshot|
        invariant events == RunCron(snapshot, chosen[..k], results)
      {
        assert chosen[..k + 1][..k] == chosen[..k];
        var i := chosen[k];
        var event := snapshot[i];
        UntouchedRow(snapshot, chosen[..k], results, i);
        if results[i].Truthy() {
          events := events[i := events[i].(status := true)];
        } else if results[i] == Wait {
          assert false;
        } else {
          var retry := event.retry + 1;
          events := events[i := events[i].(retry := retry)];
        }
      }
      assert chosen[..|chosen|] == chosen;
      processed := |chosen|;
    }
  }

  lemma {:induction false} UntouchedRow(events: seq<Event>, chosen: seq<nat>, results: seq<Success>, i: nat)
    requires |results| == |events| && i < |events|
    requires forall k :: 0 <= k < |chosen| ==> chosen[k] < |events| && chosen[k] != i
    ensures RunCron(events, chosen, results)[i] == events[i]
  {
    if chosen != [] {
      UntouchedRow(events, chosen[..|chosen| - 1], results, i);
    }
  }

  lemma {:induction false} AttemptedRow(events: seq<Event>, chosen: seq<nat>, results: seq<Success>, k: nat)
    requires |results| == |events| && k < |chosen|
    requires forall j :: 0 <= j < |chosen| ==> chosen[j] < |events|
    requires forall j, l :: 0 <= j < l < |chosen| ==> chosen[j] != chosen[l]
    ensures RunCron(events, chosen, results)[chosen[k]] == Attempt(events[chosen[k]], results[chosen[k]])
  {
    if k < |chosen| - 1 {
      AttemptedRow(events, chosen[..|chosen| - 1], results, k);
    }
  }

  /** "wait" settles the event; the branch meant to leave a waiting event pending is never reached. */
  lemma {:induction false} WaitingEventIsSettled(events: seq<Event>, chosen: seq<nat>, results: seq<Success>, k: nat)
    requires |results| == |events| && Slice(events, chosen) && k < |chosen|
    ensures RunCron(events, chosen, results)[chosen[k]].status <==> results[chosen[k]] != No
  {
    AttemptedRow(events, chosen, results, k);
  }

  // ---------- Attempts left ----------

  function AttemptsLeft(e: Event): nat {
    if e.Pending() then 4 - e.retry else 0
  }

  function TotalLeft(events: seq<Event>): nat {
    if events == [] then 0 else TotalLeft(events[..|events| - 1]) + AttemptsLeft(events[|events| - 1])
  }

  lemma {:induction false} UpdateTotal(events: seq<Event>, i: nat, e: Event)
    requires i < |events|
    ensures TotalLeft(events[i := e]) + AttemptsLeft(events[i]) == TotalLeft(events) + AttemptsLeft(e)
  {
    var n := |events| - 1;
    if i < n {
      assert events[i := e][..n] == events[..n][i := e];
      UpdateTotal(events[..n], i, e);
    } else {
      assert events[i := e][..n] == events[..n];
    }
  }

  lemma {:induction false} EachAttemptCosts(events: seq<Event>, chosen: seq<nat>, results: seq<Success>)
    requires |results| == |events|
    requires forall k :: 0 <= k < |chosen| ==> chosen[k] < |events| && events[chosen[k]].Pending()
    requires forall j, k :: 0 <= j < k < |chosen| ==> chosen[j] != chosen[k]
    ensures TotalLeft(RunCron(events, chosen, results)) + |chosen| <= TotalLeft(events)
  {
    if chosen != [] {
      var shorter := chosen[..|chosen| - 1];
      var i := chosen[|chosen| - 1];
      EachAttemptCosts(events, shorter, results);
      UntouchedRow(events, shorter, results, i);
      UpdateTotal(RunCron(events, shorter, results), i, Attempt(events[i], results[i]));
    }
  }

  lemma {:induction false} TotalBounds(events: seq<Event>)
    requires forall i :: 0 <= i < |events| ==> events[i].retry >= 0
    ensures PendingCount(events) <= TotalLeft(events) <= 4 * PendingCount(events)
  {
    if events != [] {
      TotalBounds(events[..|events| - 1]);
    }
  }

  /** Every run uses up at least as many attempts as there are pending events, up to ten. */
  lemma RunUsesAttempts(events: seq<Event>, chosen: seq<nat>, results: seq<Success>)
    requires |results| == |events| && Slice(events, chosen)
    ensures TotalLeft(RunCron(events, chosen, results))
         <= TotalLeft(events) - (if PendingCount(events) < BATCH then PendingCount(events) else BATCH)
  {
    EachAttemptCosts(events, chosen, results);
  }

  // ---------- Runs ----------

  /** A cron run and, before it, the events created since the previous one. */
  datatype Cron = Cron(arrivals: seq<Event>, chosen: seq<nat>, results: seq<Success>)

  /** The table that the last of the runs finds. */
  function Found(events: seq<Event>, runs: seq<Cron>): (r: seq<Event>)
    requires runs != [] && Legal(events, runs[..|runs| - 1])
    ensures |r| == |Created(events, runs)|
    decreases |runs|, 0
  {
    After(events, runs[..|runs| - 1]) + runs[|runs| - 1].arrivals
  }

  /** Every run takes a slice that the query may return. */
  predicate Legal(events: seq<Event>, runs: seq<Cron>)
    decreases |runs|, 1
  {
    runs == [] ||
    var run := runs[|runs| - 1];
    && Legal(events, runs[..|runs| - 1])
    && |run.results| == |Found(events, runs)|
    && Slice(Found(events, runs), run.chosen)
  }

  /** The table after the runs. Rows are only ever added at its end, so an event keeps its index. */
  function After(events: seq<Event>, runs: seq<Cron>): (r: seq<Event>)
    requires Legal(events, runs)
    ensures |r| == |Created(events, runs)|
    decreases |runs|, 2
  {
    if runs == [] then events
    else RunCron(Found(events, runs), runs[|runs| - 1].chosen, runs[|runs| - 1].results)
  }

  /** Every event of the table, as it was when it was created. */
  function Created(events: seq<Event>, runs: seq<Cron>): (r: seq<Event>)
    ensures |r| >= |events|
  {
    if runs == [] then events else Created(events, runs[..|runs| - 1]) + runs[|runs| - 1].arrivals
  }

  /** How often event i is attempted over the runs. */
  function Attempts(runs: seq<Cron>, i: nat): nat {
    if runs == [] then 0
    else Attempts(runs[..|runs| - 1], i) + if i in runs[|runs| - 1].chosen then 1 else 0
  }

  /** A run attempts event i only if it is pending, at the cost of one attempt at least. */
  lemma RowStep(events: seq<Event>, run: Cron, i: nat)
    requires |run.results| == |events| && Slice(events, run.chosen) && i < |events|
    ensures i in run.chosen ==> events[i].Pending()
    ensures var e := RunCron(events, run.chosen, run.results)[i];
            && AttemptsLeft(e) + (if i in run.chosen then 1 else 0) <= AttemptsLeft(events[i])
            && (!events[i].Pending() ==> e == events[i])
            && events[i].retry <= e.retry
  {
    if i in run.chosen {
      var k :| 0 <= k < |run.chosen| && run.chosen[k] == i;
      AttemptedRow(events, run.chosen, run.results, k);
    } else {
      UntouchedRow(events, run.chosen, run.results, i);
    }
  }

  /** No run attempts an event before it is created. */
  lemma {:induction false} NotBeforeCreation(events: seq<Event>, runs: seq<Cron>, i: nat)
    requires Legal(events, runs) && i >= |Created(events, runs)|
    ensures Attempts(runs, i) == 0
  {
    if runs != [] {
      NotBeforeCreation(events, runs[..|runs| - 1], i);
    }
  }

  /**
   Whatever the handlers do, whichever events each run picks and whichever are created in between,
   the attempts made at an event and those left to it never exceed what it was created with.
   */
  lemma {:induction false} AttemptsAreBounded(events: seq<Event>, runs: seq<Cron>, i: nat)
    requires Legal(events, runs) && i < |Created(events, runs)|
    ensures Attempts(runs, i) + AttemptsLeft(After(events, runs)[i]) <= AttemptsLeft(Created(events, runs)[i])
  {
    if runs != [] {
      var earlier := runs[..|runs| - 1];
      if i < |Created(events, earlier)| {
        AttemptsAreBounded(events, earlier, i);
      } else {
        NotBeforeCreation(events, earlier, i);
      }
      RowStep(Found(events, runs), runs[|runs| - 1], i);
    }
  }

  /** A run leaves settled events alone and adds one retry to each failed attempt. */
  lemma RowRetries(events: seq<Event>, run: Cron, i: nat)
    requires |run.results| == |events| && Slice(events, run.chosen) && i < |events|
    ensures var e := RunCron(events, run.chosen, run.results)[i];
            if e.status then e.retry == events[i].retry
            else !events[i].status && e.retry == events[i].retry + if i in run.chosen then 1 else 0
  {
    if i in run.chosen {
      var k :| 0 <= k < |run.chosen| && run.chosen[k] == i;
      AttemptedRow(events, run.chosen, run.results, k);
    } else {
      UntouchedRow(events, run.chosen, run.results, i);
    }
  }

  /** As long as an event is not settled its counter is the one it was created with plus its attempts so far. */
  lemma {:induction false} RetryCountsAttempts(events: seq<Event>, runs: seq<Cron>, i: nat)
    requires Legal(events, runs) && i < |Created(events, runs)| && !After(events, runs)[i].status
    ensures After(events, runs)[i].retry == Created(events, runs)[i].retry + Attempts(runs, i)
    ensures !Created(events, runs)[i].status
  {
    if runs != [] {
      var earlier := runs[..|runs| - 1];
      RowRetries(Found(events, runs), runs[|runs| - 1], i);
      if i < |Created(events, earlier)| {
        RetryCountsAttempts(events, earlier, i);
      } else {
        NotBeforeCreation(events, earlier, i);
      }
    }
  }

  /** So an event created pending with no retries is given up exactly after its fourth failed attempt. */
  lemma GivenUpAfterFour(events: seq<Event>, runs: seq<Cron>, i: nat)
    requires Legal(events, runs) && i < |Created(events, runs)|
    requires Created(events, runs)[i].retry == 0 && !After(events, runs)[i].status
    ensures After(events, runs)[i].Pending() <==> Attempts(runs, i) < 4
    ensures Attempts(runs, i) <= 4
  {
    RetryCountsAttempts(events, runs, i);
    AttemptsAreBounded(events, runs, i);
  }

  /** So an event created with no retries is attempted at most four times, whenever it was created. */
  lemma AtMostFourAttempts(events: seq<Event>, runs: seq<Cron>, i: nat)
    requires Legal(events, runs) && i < |Created(events, runs)| && Created(events, runs)[i].retry >= 0
    ensures Attempts(runs, i) <= 4
  {
    AttemptsAreBounded(events, runs, i);
  }

  /**
   Settled or exhausted is for good: from the first k runs after which an event is no longer
   pending, its row never changes and it is never attempted again.
   */
  lemma {:induction false} NeverAfterSettling(events: seq<Event>, runs: seq<Cron>, k: nat, i: nat)
    requires Legal(events, runs) && k <= |runs| && Legal(events, runs[..k]) && i < |Created(events, runs[..k])|
    requires !After(events, runs[..k])[i].Pending()
    ensures i < |Created(events, runs)| && After(events, runs)[i] == After(events, runs[..k])[i]
    ensures Attempts(runs, i) == Attempts(runs[..k], i)
    decreases |runs|
  {
    if k == |runs| {
      assert runs[..k] == runs;
    } else {
      var earlier := runs[..|runs| - 1];
      assert earlier[..k] == runs[..k];
      NeverAfterSettling(events, earlier, k, i);
      RowStep(Found(events, runs), runs[|runs| - 1], i);
    }
  }

  // ---------- Runs without arrivals come to an end ----------

  predicate NoArrivals(runs: seq<Cron>) {
    runs == [] || (runs[|runs| - 1].arrivals == [] && NoArrivals(runs[..|runs| - 1]))
  }

  /** The runs that find fewer than ten events pending. */
  function ShortRuns(events: seq<Event>, runs: seq<Cron>): (n: nat)
    requires Legal(events, runs)
    ensures n <= |runs|
  {
    if runs == [] then 0
    else ShortRuns(events, runs[..|runs| - 1]) + if PendingCount(Found(events, runs)) < BATCH then 1 else 0
  }

  lemma {:induction false} UpdatePending(events: seq<Event>, i: nat, e: Event)
    requires i < |events|
    ensures PendingCount(events[i := e]) + (if events[i].Pending() then 1 else 0)
         == PendingCount(events) + (if e.Pending() then 1 else 0)
  {
    var n := |events| - 1;
    if i < n {
      assert events[i := e][..n] == events[..n][i := e];
      UpdatePending(events[..n], i, e);
    } else {
      assert events[i := e][..n] == events[..n];
    }
  }

  lemma {:induction false} PendingIsCounted(events: seq<Event>, i: nat)
    requires i < |events| && events[i].Pending()
    ensures PendingCount(events) >= 1
  {
    if i < |events| - 1 {
      PendingIsCounted(events[..|events| - 1], i);
    }
  }

  /** Settling distinct pending events takes each of them off the count. */
  lemma {:induction false} SettlingCounts(events: seq<Event>, chosen: seq<nat>, results: seq<Success>)
    requires |results| == |events| && forall i :: 0 <= i < |results| ==> results[i] == Yes
    requires forall k :: 0 <= k < |chosen| ==> chosen[k] < |events| && events[chosen[k]].Pending()
    requires forall j, k :: 0 <= j < k < |chosen| ==> chosen[j] != chosen[k]
    ensures PendingCount(RunCron(events, chosen, results)) + |chosen| == PendingCount(events)
  {
    if chosen != [] {
      var shorter := chosen[..|chosen| - 1];
      var i := chosen[|chosen| - 1];
      SettlingCounts(events, shorter, results);
      UntouchedRow(events, shorter, results, i);
      UpdatePending(RunCron(events, shorter, results), i, Attempt(events[i], results[i]));
    }
  }

  /** A run that finds fewer than ten events pending attempts all of them. */
  lemma ShortRunTakesAll(events: seq<Event>, chosen: seq<nat>, i: nat)
    requires Slice(events, chosen) && PendingCount(events) < BATCH && i < |events| && events[i].Pending()
    ensures i in chosen
  {
    var results := seq(|events|, _ => Yes);
    SettlingCounts(events, chosen, results);
    if i !in chosen {
      UntouchedRow(events, chosen, results, i);
      PendingIsCounted(RunCron(events, chosen, results), i);
    }
  }

  /** Long runs use up ten attempts each; short ones one of every pending event. */
  lemma {:induction false} RunsUseAttempts(events: seq<Event>, runs: seq<Cron>)
    requires Legal(events, runs) && NoArrivals(runs) && forall i :: 0 <= i < |events| ==> events[i].retry >= 0
    ensures TotalLeft(After(events, runs)) + 10 * (|runs| - ShortRuns(events, runs)) <= TotalLeft(events)
    ensures forall i :: 0 <= i < |After(events, runs)| ==>
              && After(events, runs)[i].retry >= 0
              && AttemptsLeft(After(events, runs)[i]) <= Remaining(ShortRuns(events, runs))
  {
    if runs != [] {
      var earlier := runs[..|runs| - 1];
      var found, run := Found(events, runs), runs[|runs| - 1];
      assert found == After(events, earlier);
      RunsUseAttempts(events, earlier);
      RunUsesAttempts(found, run.chosen, run.results);
      forall i | 0 <= i < |found|
        ensures After(events, runs)[i].retry >= 0
        ensures AttemptsLeft(After(events, runs)[i]) <= Remaining(ShortRuns(events, runs))
      {
        RowStep(found, run, i);
        if found[i].Pending() && PendingCount(found) < BATCH {
          ShortRunTakesAll(found, run.chosen, i);
        }
      }
    }
  }

  function Remaining(shortRuns: nat): nat {
    if shortRuns >= 4 then 0 else 4 - shortRuns
  }

  lemma {:induction false} NonePending(events: seq<Event>)
    requires forall i :: 0 <= i < |events| ==> AttemptsLeft(events[i]) == 0
    ensures PendingCount(events) == 0
  {
    if events != [] {
      NonePending(events[..|events| - 1]);
    }
  }

  /** With no arrivals, n pending events are all settled or exhausted after 4n / 10 + 4 runs, rounded down. */
  lemma {:induction false} AllDoneByTens(events: seq<Event>, runs: seq<Cron>)
    requires Legal(events, runs) && NoArrivals(runs) && forall i :: 0 <= i < |events| ==> events[i].retry >= 0
    requires |runs| >= 4 * PendingCount(events) / 10 + 4
    ensures PendingCount(After(events, runs)) == 0
  {
    RunsUseAttempts(events, runs);
    TotalBounds(events);
    NonePending(After(events, runs));
  }

  lemma {:induction false} NoneStaysNone(events: seq<Event>, runs: seq<Cron>)
    requires Legal(events, runs) && NoArrivals(runs) && forall i :: 0 <= i < |events| ==> !events[i].Pending()
    ensures After(events, runs) == events
  {
    if runs != [] {
      NoneStaysNone(events, runs[..|runs| - 1]);
      assert Found(events, runs) == events;
      forall i | 0 <= i < |events|
        ensures After(events, runs)[i] == events[i]
      {
        RowStep(events, runs[|runs| - 1], i);
      }
    }
  }

  lemma {:induction false} CountedIsPending(events: seq<Event>)
    requires PendingCount(events) == 0
    ensures forall i :: 0 <= i < |events| ==> !events[i].Pending()
  {
    forall i | 0 <= i < |events|
      ensures !events[i].Pending()
    {
      if events[i].Pending() {
        PendingIsCounted(events, i);
      }
    }
  }

  /** In particular after 4n runs. */
  lemma {:induction false} AllDoneAfterFourRunsEach(events: seq<Event>, runs: seq<Cron>)
    requires Legal(events, runs) && NoArrivals(runs) && forall i :: 0 <= i < |events| ==> events[i].retry >= 0
    requires |runs| >= 4 * PendingCount(events)
    ensures PendingCount(After(events, runs)) == 0
  {
    if PendingCount(events) == 0 {
      CountedIsPending(events);
      NoneStaysNone(events, runs);
    } else {
      AllDoneByTens(events, runs);
    }
  }
}
