/**
 The distributed unique id generator: its state machine, its 39/8/16-bit packing, and what
 runs of generators promise. A clock reading is a POSIX timestamp in seconds; a tick is 10 ms.
 */
module SonyFlake {
  import opened Wrappers
  import opened Bits
  import Decimal

  const BIT_LEN_TIME: nat := 39
  const BIT_LEN_SEQUENCE: nat := 8
  const BIT_LEN_MACHINE_ID: nat := 63 - (BIT_LEN_TIME + BIT_LEN_SEQUENCE)
  const SONYFLAKE_EPOCH := 1367366400 // 2013-05-01 00:00:00 UTC

  datatype Error = TimeoutError

  /** The two fields that `next_id` updates. */
  datatype State = State(elapsed: int, sequence: int) {
    predicate Valid() {
      0 <= sequence < 256
    }

    /** Position of the state in the order of issued ids. */
    function Rank(): int {
      elapsed * 256 + sequence
    }
  }

  // ---------- Clock arithmetic ----------

  /** Python's `int(x)` on a float: truncation toward zero. */
  function Truncate(x: real): int {
    if x < 0.0 then -((-x).Floor) else x.Floor
  }

  function ToSonyflakeTime(seconds: real): int {
    Truncate(seconds * 100.0)
  }

  /** `sleep_time`: seconds to sleep; `now` is the clock as read inside it. */
  function SleepTime(duration: int, now: real): real {
    var hundredths := now * 100.0;
    ((duration * 10) as real - (hundredths - hundredths.Floor as real)) / 100.0
  }

  /** A rollover borrows at least one tick, so its sleep is never negative, wherever in its tick the clock is. */
  lemma SleepIsPositive(overtime: int, now: real)
    requires overtime >= 1
    ensures 0.09 * overtime as real < SleepTime(overtime, now) <= 0.1 * overtime as real
  {
  }

  // ---------- One step of the generator ----------

  function Fresh(startTime: int, now: real): (s: State)
    ensures s.Valid()
  {
    State(ToSonyflakeTime(now) - startTime, 255)
  }

  predicate RollsOver(s: State, current: int) {
    current <= s.elapsed && BitAnd(s.sequence + 1, ShiftLeft(1, BIT_LEN_SEQUENCE) - 1) == 0
  }

  function NextState(s: State, current: int): State {
    if s.elapsed < current then
      State(current, 0)
    else if RollsOver(s, current) then
      State(s.elapsed + 1, 0)
    else
      State(s.elapsed, BitAnd(s.sequence + 1, ShiftLeft(1, BIT_LEN_SEQUENCE) - 1))
  }

  function TimeToId(machineId: int, time: int, sequence: int): Result<int, Error> {
    if time >= ShiftLeft(1, BIT_LEN_TIME) then Err(TimeoutError)
    else Ok(BitOr(BitOr(ShiftLeft(time, BIT_LEN_SEQUENCE + BIT_LEN_MACHINE_ID),
                        ShiftLeft(sequence, BIT_LEN_MACHINE_ID)),
                  machineId))
  }

  function ToId(machineId: int, s: State): Result<int, Error> {
    TimeToId(machineId, s.elapsed, s.sequence)
  }

  predicate MachineId(m: int) {
    0 <= m < 65536
  }

  class SonyFlake {
    const startTime: int
    const machineId: int
    var elapsedTime: int
    var sequence: int

    ghost predicate Valid()
      reads this
    {
      Current().Valid() && MachineId(machineId)
    }

    ghost function Current(): State
      reads this
    {
      State(elapsedTime, sequence)
    }

    constructor (startTime: int, machineId: int, now: real)
      requires MachineId(machineId)
      ensures Valid() && Current() == Fresh(startTime, now)
      ensures this.startTime == startTime && this.machineId == machineId
    {
      this.startTime := startTime;
      this.machineId := machineId;
      elapsedTime := ToSonyflakeTime(now) - startTime;
      sequence := ShiftLeft(1, BIT_LEN_SEQUENCE) - 1;
      new;
      PowersOfTwo();
    }

    /** `now` and `nowAsleep` are the clock when `next_id` and `sleep_time` read it; `slept` is the sleep made. */
    method NextId(now: real, nowAsleep: real) returns (id: Result<int, Error>, slept: Option<real>)
      requires Valid()
      modifies this
      ensures Valid()
      ensures Current() == NextState(old(Current()), ToSonyflakeTime(now) - startTime)
      ensures old(Current()).Rank() < Current().Rank()
      ensures elapsedTime >= ToSonyflakeTime(now) - startTime
      ensures id == ToId(machineId, Current())
      ensures slept == if RollsOver(old(Current()), ToSonyflakeTime(now) - startTime)
                       then Some(SleepTime(elapsedTime - (ToSonyflakeTime(now) - startTime), nowAsleep))
                       else None
      ensures slept.Some? ==> slept.value > 0.0
    {
      NextStateIncreases(Current(), ToSonyflakeTime(now) - startTime);
      NextStateTakesUpClock(Current(), ToSonyflakeTime(now) - startTime);
      var maskSequence := ShiftLeft(1, BIT_LEN_SEQUENCE) - 1;
      var currentTime := ToSonyflakeTime(now) - startTime;
      slept := None;
      if elapsedTime < currentTime {
        elapsedTime := currentTime;
        sequence := 0;
      } else {
        sequence := BitAnd(sequence + 1, maskSequence);
        if sequence == 0 {
          elapsedTime := elapsedTime + 1;
          var overtime := elapsedTime - currentTime;
          slept := Some(SleepTime(overtime, nowAsleep));
          SleepIsPositive(overtime, nowAsleep);
        }
      }
      id := TimeToId(machineId, elapsedTime, sequence);
    }
  }

  // ---------- Monotonicity under any clock ----------

  lemma PowersOfTwo()
    ensures Pow2(8) == 256 && Pow2(16) == 65536 && Pow2(24) == 16777216
    ensures Pow2(39) == 549755813888 && Pow2(63) == 9223372036854775808
  {
    assert Pow2(4) == 16;
    assert Pow2(8) == 256;
    assert Pow2(12) == 4096;
    assert Pow2(16) == 65536;
    assert Pow2(20) == 1048576;
    assert Pow2(24) == 16777216;
    assert Pow2(28) == 268435456;
    assert Pow2(32) == 4294967296;
    assert Pow2(36) == 68719476736;
    assert Pow2(39) == 549755813888;
    assert Pow2(43) == 8796093022208;
    assert Pow2(47) == 140737488355328;
    assert Pow2(51) == 2251799813685248;
    assert Pow2(55) == 36028797018963968;
    assert Pow2(59) == 576460752303423488;
  }

  /** The mask keeps the successor modulo 256, so rolling over happens exactly at 255. */
  lemma SequenceWraps(s: State)
    requires s.Valid()
    ensures BitAnd(s.sequence + 1, ShiftLeft(1, BIT_LEN_SEQUENCE) - 1) == (s.sequence + 1) % 256
  {
    PowersOfTwo();
    AndMask(s.sequence + 1, 8);
  }

  /** Whatever the clock says, a call moves strictly forward and never past the next fresh tick. */
  lemma NextStateIncreases(s: State, current: int)
    requires s.Valid()
    ensures NextState(s, current).Valid()
    ensures s.Rank() < NextState(s, current).Rank()
    ensures NextState(s, current).Rank() == s.Rank() + 1
         || (current > s.elapsed && NextState(s, current) == State(current, 0))
  {
    SequenceWraps(s);
  }

  /** A call takes up the clock's tick: it is never left behind what it read, and a fresh tick starts at sequence 0. */
  lemma NextStateTakesUpClock(s: State, current: int)
    requires s.Valid()
    ensures NextState(s, current).elapsed >= current
    ensures current > s.elapsed ==> NextState(s, current) == State(current, 0)
    ensures current <= s.elapsed ==> NextState(s, current).Rank() == s.Rank() + 1
  {
    SequenceWraps(s);
  }

  /** The state after calls that read the given ticks, oldest first. */
  function RunTicks(s: State, ticks: seq<int>): State {
    if ticks == [] then s
    else NextState(RunTicks(s, ticks[..|ticks| - 1]), ticks[|ticks| - 1])
  }

  lemma {:induction false} RunTicksAdvances(s: State, ticks: seq<int>)
    requires s.Valid()
    ensures RunTicks(s, ticks).Valid()
    ensures RunTicks(s, ticks).Rank() >= s.Rank() + |ticks|
  {
    if ticks != [] {
      var before := ticks[..|ticks| - 1];
      RunTicksAdvances(s, before);
      NextStateIncreases(RunTicks(s, before), ticks[|ticks| - 1]);
    }
  }

  /** N calls on a new generator advance its time by at least ceil(N / 256) ticks, under any clock. */
  lemma RateBound(startTime: int, now: real, ticks: seq<int>)
    ensures var s := Fresh(startTime, now);
            RunTicks(s, ticks).elapsed - s.elapsed >= (|ticks| + 255) / 256
  {
    RunTicksAdvances(Fresh(startTime, now), ticks);
  }

  // ---------- Packing ----------

  lemma ShiftedFields(time: int, sequence: int)
    ensures ShiftLeft(time, 24) == time * 16777216 && ShiftLeft(sequence, 16) == sequence * 65536
    ensures ShiftLeft(time * 256 + sequence, 16) == time * 16777216 + sequence * 65536
  {
    PowersOfTwo();
  }

  /** The three shifted fields never overlap: the id is their weighted sum. */
  lemma IdIsWeightedSum(m: int, time: int, sequence: int)
    requires MachineId(m) && 0 <= sequence < 256
    ensures TimeToId(m, time, sequence) ==
            if time >= 549755813888 then Err(TimeoutError)
            else Ok(time * 16777216 + sequence * 65536 + m)
  {
    PowersOfTwo();
    ShiftedFields(time, sequence);
    OrDisjoint(time, 24, ShiftLeft(sequence, 16));
    OrDisjoint(time * 256 + sequence, 16, m);
  }

  /** The weighted sum of in-range fields determines each field. */
  lemma FieldsOfSum(time: int, sequence: int, m: int)
    requires MachineId(m) && 0 <= sequence < 256
    ensures var id := time * 16777216 + sequence * 65536 + m;
            id / 16777216 == time && (id / 65536) % 256 == sequence && id % 65536 == m
  {
    var id := time * 16777216 + sequence * 65536 + m;
    assert id / 65536 == time * 256 + sequence;
  }

  lemma SumOfFields(id: int)
    ensures id == (id / 16777216) * 16777216 + ((id / 65536) % 256) * 65536 + id % 65536
    ensures 0 <= id < 9223372036854775808 ==> id / 9223372036854775808 == 0 && id / 16777216 < 549755813888
  {
    assert (id / 65536) / 256 == id / 16777216;
  }

  lemma SumOrder(r: int, m: int, r': int, m': int)
    requires MachineId(m) && MachineId(m')
    ensures r * 65536 + m < r' * 65536 + m' <==> r < r' || (r == r' && m < m')
    ensures r * 65536 + m == r' * 65536 + m' <==> r == r' && m == m'
  {
  }

  datatype Parts = Parts(msb: int, time: int, sequence: int, machineId: int, timestamp: int)

  function Decompose(id: int): Parts {
    var maskSequence := ShiftLeft(ShiftLeft(1, BIT_LEN_SEQUENCE) - 1, BIT_LEN_MACHINE_ID);
    var maskMachineId := ShiftLeft(1, BIT_LEN_MACHINE_ID) - 1;
    var time := ShiftRight(id, BIT_LEN_SEQUENCE + BIT_LEN_MACHINE_ID);
    Parts(
      ShiftRight(id, 63),
      time,
      ShiftRight(BitAnd(id, maskSequence), BIT_LEN_MACHINE_ID),
      BitAnd(id, maskMachineId),
      SONYFLAKE_EPOCH + Truncate(time as real / 100.0))
  }

  lemma {:induction false} DecomposeFields(id: int)
    ensures var p := Decompose(id);
            p.msb == id / 9223372036854775808 && p.time == id / 16777216
            && p.sequence == (id / 65536) % 256 && p.machineId == id % 65536
  {
    PowersOfTwo();
    AndShiftedMask(id, 8, 16);
    AndMask(id, 16);
  }

  lemma SignOfSum(time: int, sequence: int, m: int)
    requires MachineId(m) && 0 <= sequence < 256 && time < 549755813888
    ensures (time * 16777216 + sequence * 65536 + m) / 9223372036854775808 == 0 <==> 0 <= time
  {
  }

  /** Decomposing an issued id gives back exactly the fields it was made of. */
  lemma {:induction false} DecomposeUndoesPacking(m: int, time: int, sequence: int)
    requires MachineId(m) && 0 <= sequence < 256 && time < 549755813888
    ensures TimeToId(m, time, sequence).Ok?
    ensures var p := Decompose(TimeToId(m, time, sequence).value);
            p.time == time && p.sequence == sequence && p.machineId == m
            && (p.msb == 0 <==> 0 <= time)
  {
    IdIsWeightedSum(m, time, sequence);
    var id := time * 16777216 + sequence * 65536 + m;
    DecomposeFields(id);
    FieldsOfSum(time, sequence, m);
    SignOfSum(time, sequence, m);
  }

  /** Packing the parts of any 63-bit id rebuilds the id. */
  lemma {:induction false} PackingUndoesDecompose(id: int)
    requires 0 <= id < 9223372036854775808
    ensures var p := Decompose(id);
            p.msb == 0 && TimeToId(p.machineId, p.time, p.sequence) == Ok(id)
  {
    DecomposeFields(id);
    SumOfFields(id);
    IdIsWeightedSum(id % 65536, id / 16777216, (id / 65536) % 256);
  }

  predicate FieldsBelow(m: int, s: State, m': int, s': State) {
    s.Rank() < s'.Rank() || (s.Rank() == s'.Rank() && m < m')
  }

  lemma IdIsRank(m: int, s: State)
    requires MachineId(m) && s.Valid() && ToId(m, s).Ok?
    ensures ToId(m, s).value == s.Rank() * 65536 + m
  {
    IdIsWeightedSum(m, s.elapsed, s.sequence);
  }

  lemma RankIsState(s: State, s': State)
    requires s.Valid() && s'.Valid()
    ensures s.Rank() == s'.Rank() <==> s == s'
  {
  }

  /** Ids are ordered as their (time, sequence, machine) fields are, so equal ids have equal fields. */
  lemma {:induction false} IdOrderIsFieldOrder(m: int, s: State, m': int, s': State)
    requires MachineId(m) && MachineId(m') && s.Valid() && s'.Valid()
    requires ToId(m, s).Ok? && ToId(m', s').Ok?
    ensures ToId(m, s).value < ToId(m', s').value <==> FieldsBelow(m, s, m', s')
    ensures ToId(m, s).value == ToId(m', s').value <==> m == m' && s == s'
  {
    IdIsRank(m, s);
    IdIsRank(m', s');
    RankIsState(s, s');
    SumOrder(s.Rank(), m, s'.Rank(), m');
  }

  /** `get_elapsed_time`: a timestamp of more than ten characters is cut to its first ten. */
  function GetElapsedTime(startTime: int, timestamp: int): int {
    ToSonyflakeTime(CutToTen(timestamp) as real) - startTime
  }

  function CutToTen(timestamp: int): int {
    var text := Decimal.Str(timestamp);
    if |text| <= 10 then timestamp
    else if timestamp >= 0 then Decimal.ParseNat(text[..10])
    else 0 - Decimal.ParseNat(text[1..10])
  }

  /** A longer timestamp loses its digits beyond the tenth: one in milliseconds is taken to whole seconds. */
  lemma LongTimestampIsCut(timestamp: int, extra: nat)
    requires timestamp >= 0 && |Decimal.StrNat(timestamp)| == 10 + extra
    ensures CutToTen(timestamp) == timestamp / Decimal.Pow10(extra)
  {
    if extra > 0 {
      Decimal.LeadingDigits(timestamp, 10);
    } else {
      assert Decimal.Pow10(0) == 1;
    }
  }

  lemma TruncateInt(n: int)
    ensures Truncate(n as real) == n
  {
  }

  lemma HundredthFloor(n: int)
    requires n >= 0
    ensures Truncate(n as real / 100.0) == n / 100
  {
    var q := n / 100;
    assert q as real <= n as real / 100.0 < (q + 1) as real;
  }

  /** Timestamps of issued ids have at most ten digits, so the cut never fires on them. */
  lemma IssuedTimestampIsShort(time: int)
    requires 0 <= time < 549755813888
    ensures CutToTen(SONYFLAKE_EPOCH + time / 100) == SONYFLAKE_EPOCH + time / 100
  {
    assert Decimal.Pow10(5) == 100000;
    assert Decimal.Pow10(10) == 10000000000;
    Decimal.StrNatLength(SONYFLAKE_EPOCH + time / 100, 10);
  }

  lemma DecodedTimestamp(m: int, time: int, sequence: int)
    requires MachineId(m) && 0 <= sequence < 256 && 0 <= time < 549755813888
    ensures TimeToId(m, time, sequence).Ok?
    ensures Decompose(TimeToId(m, time, sequence).value).timestamp == SONYFLAKE_EPOCH + time / 100
  {
    DecomposeUndoesPacking(m, time, sequence);
    HundredthFloor(time);
  }

  /**
   `get_elapsed_time` of a decoded timestamp is the id's time without its last two digits, shifted
   by the distance between the generator's start and the default epoch.
   */
  lemma ElapsedTimeOfDecoded(startTime: int, m: int, time: int, sequence: int)
    requires MachineId(m) && 0 <= sequence < 256 && 0 <= time < 549755813888
    ensures TimeToId(m, time, sequence).Ok?
    ensures GetElapsedTime(startTime, Decompose(TimeToId(m, time, sequence).value).timestamp)
         == time - time % 100 + (100 * SONYFLAKE_EPOCH - startTime)
  {
    DecodedTimestamp(m, time, sequence);
    IssuedTimestampIsShort(time);
    var stamp := SONYFLAKE_EPOCH + time / 100;
    assert stamp as real * 100.0 == (stamp * 100) as real;
    TruncateInt(stamp * 100);
  }

  /** So it is within 99 ticks below the id's time for every id exactly when the start is the default epoch. */
  lemma ElapsedTimeIsCloseExactlyAtEpoch(startTime: int)
    ensures (forall m, time, sequence ::
               MachineId(m) && 0 <= sequence < 256 && 0 <= time < 549755813888 ==>
                 var id := TimeToId(m, time, sequence);
                 id.Ok? && time - 99 <= GetElapsedTime(startTime, Decompose(id.value).timestamp) <= time)
        <==> startTime == 100 * SONYFLAKE_EPOCH
  {
    forall m, time, sequence | MachineId(m) && 0 <= sequence < 256 && 0 <= time < 549755813888
      ensures TimeToId(m, time, sequence).Ok?
      ensures GetElapsedTime(startTime, Decompose(TimeToId(m, time, sequence).value).timestamp)
           == time - time % 100 + (100 * SONYFLAKE_EPOCH - startTime)
    {
      ElapsedTimeOfDecoded(startTime, m, time, sequence);
    }
    assert TimeToId(0, 0, 0).Ok? && TimeToId(0, 99, 0).Ok?;
  }
}
