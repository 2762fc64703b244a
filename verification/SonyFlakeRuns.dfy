/** Runs of many generators that start, issue ids, stop and start again, in any interleaving. */
module SonyFlakeRuns {
  import opened Wrappers
  import opened SonyFlake

  /**
   `Start`: a generator for `machine` is constructed, replacing any earlier one of that machine.
   `Call`: its `next_id`, with the machine's clock at the read, inside `sleep_time`, and at the return.
   */
  datatype Event =
    | Start(machine: int, now: real)
    | Call(machine: int, now: real, asleep: real, done: real)

  /** One id handed out: the machine and the generator state it packs. */
  datatype Issue = Issue(machine: int, state: State) {
    predicate Valid() {
      MachineId(machine) && state.Valid() && ToId(machine, state).Ok?
    }

    function Id(): int
      requires Valid()
    {
      ToId(machine, state).value
    }
  }

  type System = map<int, State>

  function Tick(startTime: int, now: real): int {
    ToSonyflakeTime(now) - startTime
  }

  function Apply(startTime: int, sys: System, e: Event): System {
    match e
    case Start(m, now) => sys[m := Fresh(startTime, now)]
    case Call(m, now, _, _) => if m in sys then sys[m := NextState(sys[m], Tick(startTime, now))] else sys
  }

  function RunSystem(startTime: int, events: seq<Event>): System {
    if events == [] then map[]
    else Apply(startTime, RunSystem(startTime, events[..|events| - 1]), events[|events| - 1])
  }

  /** The ids returned so far, oldest first; a call past the time limit returns none. */
  function Issued(startTime: int, events: seq<Event>): seq<Issue> {
    if events == [] then []
    else
      var before := events[..|events| - 1];
      var e := events[|events| - 1];
      var sys := RunSystem(startTime, events);
      Issued(startTime, before)
      + if e.Call? && e.machine in sys && ToId(e.machine, sys[e.machine]).Ok?
        then [Issue(e.machine, sys[e.machine])] else []
  }

  /** Every event names a 16-bit machine, and no restart reads a clock behind the generator it replaces. */
  predicate Admissible(startTime: int, events: seq<Event>) {
    events == [] ||
    var e := events[|events| - 1];
    var sys := RunSystem(startTime, events[..|events| - 1]);
    && Admissible(startTime, events[..|events| - 1])
    && MachineId(e.machine)
    && (e.Start? && e.machine in sys ==> sys[e.machine].elapsed <= Tick(startTime, e.now))
  }

  ghost predicate LogBelowSystem(sys: System, log: seq<Issue>) {
    && (forall m <- sys :: sys[m].Valid())
    && (forall i :: 0 <= i < |log| ==>
          log[i].Valid() && log[i].machine in sys && log[i].state.Rank() <= sys[log[i].machine].Rank())
    && (forall i, j :: 0 <= i < j < |log| && log[i].machine == log[j].machine ==>
          log[i].state.Rank() < log[j].state.Rank())
  }

  /** A machine moving to a state of higher rank, or no lower one, keeps the log below the system. */
  lemma RaiseKeepsLogBelow(sys: System, log: seq<Issue>, m: int, s: State)
    requires LogBelowSystem(sys, log) && s.Valid() && (m in sys ==> sys[m].Rank() <= s.Rank())
    ensures LogBelowSystem(sys[m := s], log)
  {
  }

  lemma IssueKeepsLogBelow(sys: System, log: seq<Issue>, m: int, s: State)
    requires LogBelowSystem(sys, log) && m in sys && sys[m].Rank() < s.Rank() && Issue(m, s).Valid()
    ensures LogBelowSystem(sys[m := s], log + [Issue(m, s)])
  {
    RaiseKeepsLogBelow(sys, log, m, s);
  }

  lemma {:induction false} LogStaysBelowSystem(startTime: int, events: seq<Event>)
    requires Admissible(startTime, events)
    ensures LogBelowSystem(RunSystem(startTime, events), Issued(startTime, events))
  {
    if events != [] {
      var before := events[..|events| - 1];
      var e := events[|events| - 1];
      var sys, log := RunSystem(startTime, before), Issued(startTime, before);
      LogStaysBelowSystem(startTime, before);
      if e.Start? {
        RaiseKeepsLogBelow(sys, log, e.machine, Fresh(startTime, e.now));
      } else if e.machine in sys {
        var s := NextState(sys[e.machine], Tick(startTime, e.now));
        NextStateIncreases(sys[e.machine], Tick(startTime, e.now));
        RaiseKeepsLogBelow(sys, log, e.machine, s);
        if ToId(e.machine, s).Ok? {
          IssueKeepsLogBelow(sys, log, e.machine, s);
        }
      }
    }
  }

  /**
   Global uniqueness, under any clocks: in an admissible run the ids are pairwise distinct over all
   machines, and on each machine they only grow, restarts included.
   */
  lemma IdsAreUnique(startTime: int, events: seq<Event>)
    requires Admissible(startTime, events)
    ensures var log := Issued(startTime, events);
            forall i, j :: 0 <= i < j < |log| ==>
              log[i].Valid() && log[j].Valid() && log[i].Id() != log[j].Id()
              && (log[i].machine == log[j].machine ==> log[i].Id() < log[j].Id())
  {
    LogStaysBelowSystem(startTime, events);
    var log := Issued(startTime, events);
    forall i, j | 0 <= i < j < |log|
      ensures log[i].Valid() && log[j].Valid() && log[i].Id() != log[j].Id()
      ensures log[i].machine == log[j].machine ==> log[i].Id() < log[j].Id()
    {
      IdOrderIsFieldOrder(log[i].machine, log[i].state, log[j].machine, log[j].state);
    }
  }

  // ---------- Restart safety under a clock that does not step back ----------

  /** The last reading of a machine's clock. */
  function LastClock(events: seq<Event>, m: int): Option<real> {
    if events == [] then None
    else
      var e := events[|events| - 1];
      if e.machine == m then Some(if e.Start? then e.now else e.done)
      else LastClock(events[..|events| - 1], m)
  }

  /** A call's three clock readings do not decrease, and a rollover sleep really passes that much time. */
  predicate SleepsAsAsked(startTime: int, s: State, e: Event)
    requires e.Call?
  {
    && e.now <= e.asleep <= e.done
    && (RollsOver(s, Tick(startTime, e.now)) ==>
          e.done >= e.asleep + SleepTime(s.elapsed + 1 - Tick(startTime, e.now), e.asleep))
  }

  predicate SteadyClocks(startTime: int, events: seq<Event>) {
    events == [] ||
    var before := events[..|events| - 1];
    var e := events[|events| - 1];
    var sys := RunSystem(startTime, before);
    && SteadyClocks(startTime, before)
    && MachineId(e.machine)
    && (LastClock(before, e.machine).Some? ==> LastClock(before, e.machine).value <= e.now)
    && (e.Call? && e.machine in sys ==> SleepsAsAsked(startTime, sys[e.machine], e))
    && (e.Call? ==> e.now <= e.done)
  }

  lemma TickMonotone(a: real, b: real)
    requires a <= b
    ensures ToSonyflakeTime(a) <= ToSonyflakeTime(b)
  {
  }

  /** Sleeping as asked always carries the clock to the tick borrowed by the rollover. */
  lemma SleepReachesBorrowedTick(overtime: int, now: real, asleep: real, done: real)
    requires overtime >= 1 && now <= asleep && done >= asleep + SleepTime(overtime, asleep)
    ensures ToSonyflakeTime(done) >= ToSonyflakeTime(now) + overtime
  {
    var floor := (asleep * 100.0).Floor;
    assert done * 100.0 >= (floor + 10 * overtime) as real;
    assert ToSonyflakeTime(done) >= floor + 10 * overtime;
    assert ToSonyflakeTime(now) <= floor + 1;
  }

  /** No call returns while its generator is ahead of the clock. */
  lemma NeverAheadOfClock(startTime: int, s: State, last: real, e: Event)
    requires s.Valid() && s.elapsed <= Tick(startTime, last)
    requires e.Call? && last <= e.now && SleepsAsAsked(startTime, s, e)
    ensures NextState(s, Tick(startTime, e.now)).elapsed <= Tick(startTime, e.done)
  {
    TickMonotone(last, e.now);
    TickMonotone(e.now, e.done);
    if RollsOver(s, Tick(startTime, e.now)) {
      SleepReachesBorrowedTick(s.elapsed + 1 - Tick(startTime, e.now), e.now, e.asleep, e.done);
    }
  }

  /** With steady clocks no generator is ever ahead of its machine's last clock reading ... */
  lemma {:induction false} SteadyNeverAhead(startTime: int, events: seq<Event>)
    requires SteadyClocks(startTime, events)
    ensures forall m <- RunSystem(startTime, events) ::
              && RunSystem(startTime, events)[m].Valid()
              && LastClock(events, m).Some?
              && RunSystem(startTime, events)[m].elapsed <= Tick(startTime, LastClock(events, m).value)
  {
    if events != [] {
      var before := events[..|events| - 1];
      var e := events[|events| - 1];
      SteadyNeverAhead(startTime, before);
      var sys := RunSystem(startTime, before);
      if e.Call? && e.machine in sys {
        NextStateIncreases(sys[e.machine], Tick(startTime, e.now));
        NeverAheadOfClock(startTime, sys[e.machine], LastClock(before, e.machine).value, e);
      }
    }
  }

  lemma {:induction false} SteadyPrefix(startTime: int, events: seq<Event>, k: nat)
    requires SteadyClocks(startTime, events) && k <= |events|
    ensures SteadyClocks(startTime, events[..k])
    decreases |events|
  {
    if k == |events| {
      assert events[..k] == events;
    } else {
      assert events[..|events| - 1][..k] == events[..k];
      SteadyPrefix(startTime, events[..|events| - 1], k);
    }
  }

  lemma LatestCallIsCurrent(startTime: int, before: seq<Event>, e: Event)
    requires SteadyClocks(startTime, before + [e]) && e.Call? && e.machine in RunSystem(startTime, before)
    ensures var sys := RunSystem(startTime, before + [e]);
            e.machine in sys && Tick(startTime, e.now) <= sys[e.machine].elapsed <= Tick(startTime, e.done)
  {
    assert (before + [e])[..|before|] == before;
    var sys := RunSystem(startTime, before);
    SteadyNeverAhead(startTime, before);
    NextStateTakesUpClock(sys[e.machine], Tick(startTime, e.now));
    NeverAheadOfClock(startTime, sys[e.machine], LastClock(before, e.machine).value, e);
  }

  /**
   With steady clocks, the tick that a call puts into its id lies between the clock's ticks at the
   call and at its return: ids carry the time at which they were made.
   */
  lemma IdsCarryTheirTime(startTime: int, events: seq<Event>, k: nat)
    requires SteadyClocks(startTime, events) && k < |events|
    requires events[k].Call? && events[k].machine in RunSystem(startTime, events[..k])
    ensures var e, sys := events[k], RunSystem(startTime, events[..k + 1]);
            e.machine in sys && Tick(startTime, e.now) <= sys[e.machine].elapsed <= Tick(startTime, e.done)
  {
    SteadyPrefix(startTime, events, k + 1);
    assert events[..k + 1] == events[..k] + [events[k]];
    LatestCallIsCurrent(startTime, events[..k], events[k]);
  }

  /** ... so every restart is admissible, and `IdsAreUnique` covers runs with any number of restarts. */
  lemma {:induction false} SteadyClocksAreAdmissible(startTime: int, events: seq<Event>)
    requires SteadyClocks(startTime, events)
    ensures Admissible(startTime, events)
  {
    if events != [] {
      var before := events[..|events| - 1];
      var e := events[|events| - 1];
      SteadyClocksAreAdmissible(startTime, before);
      SteadyNeverAhead(startTime, before);
      if e.Start? && e.machine in RunSystem(startTime, before) {
        TickMonotone(LastClock(before, e.machine).value, e.now);
      }
    }
  }

  /**
   Restart safety: with steady clocks, ids returned after a restart exceed every id that
   machine returned before it.
   */
  lemma {:induction false} RestartSafety(startTime: int, events: seq<Event>, i: nat, j: nat)
    requires SteadyClocks(startTime, events)
    requires i < j < |Issued(startTime, events)|
    requires Issued(startTime, events)[i].machine == Issued(startTime, events)[j].machine
    ensures var log := Issued(startTime, events);
            log[i].Valid() && log[j].Valid() && log[i].Id() < log[j].Id()
  {
    SteadyClocksAreAdmissible(startTime, events);
    IdsAreUnique(startTime, events);
  }

  /**
   The guard in `Admissible` is exact: a replacement generator's first state lies beyond the old
   one for every later clock reading if and only if it was constructed at or after the old tick.
   */
  lemma RestartGuardIsExact(startTime: int, previous: State, now: real)
    requires previous.Valid()
    ensures (forall current: int :: NextState(Fresh(startTime, now), current).Rank() > previous.Rank())
        <==> previous.elapsed <= Tick(startTime, now)
  {
    var next := Fresh(startTime, now);
    forall current: int
      ensures next.Rank() < NextState(next, current).Rank()
    {
      NextStateIncreases(next, current);
    }
    SequenceWraps(next);
    assert NextState(next, next.elapsed) == State(next.elapsed + 1, 0);
  }
}
