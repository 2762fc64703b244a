/** The background job that marks call logs as calculated, a batch of the oldest ones per call. */
module BatchMarking {
  import opened Wrappers

  datatype CallLog = CallLog(id: int, organization: Option<int>, productId: Option<string>, calculated: bool)

  predicate Owned(log: CallLog) {
    log.organization.Some?
  }

  /** The logs not yet calculated, oldest first; the table itself is kept in creation order. */
  function Uncalculated(logs: seq<CallLog>): seq<CallLog> {
    if logs == [] then []
    else (if logs[0].calculated then [] else [logs[0]]) + Uncalculated(logs[1..])
  }

  function Batch(logs: seq<CallLog>, batchSize: nat): seq<CallLog> {
    var u := Uncalculated(logs);
    if |u| <= batchSize then u else u[..batchSize]
  }

  function OwnedIds(logs: seq<CallLog>): seq<int> {
    if logs == [] then []
    else OwnedIds(logs[..|logs| - 1]) + if Owned(logs[|logs| - 1]) then [logs[|logs| - 1].id] else []
  }

  /** `.filter(id__in=ids).update(calculated=True)`. */
  function MarkIds(logs: seq<CallLog>, ids: seq<int>): (r: seq<CallLog>)
    ensures |r| == |logs|
    ensures forall i :: 0 <= i < |logs| ==> r[i] == if logs[i].id in ids then logs[i].(calculated := true) else logs[i]
  {
    seq(|logs|, i requires 0 <= i < |logs| => if logs[i].id in ids then logs[i].(calculated := true) else logs[i])
  }

  predicate DistinctIds(logs: seq<CallLog>) {
    forall i, j :: 0 <= i < j < |logs| ==> logs[i].id != logs[j].id
  }

  /**
   The table after a call that does not abort, log by log: walk the table, spending the batch on
   uncalculated logs.
   */
  function MarkBatch(logs: seq<CallLog>, batchSize: nat): (r: seq<CallLog>)
    ensures |r| == |logs|
    decreases |logs|
  {
    if logs == [] || batchSize == 0 then logs
    else if logs[0].calculated then [logs[0]] + MarkBatch(logs[1..], batchSize)
    else [logs[0].(calculated := Owned(logs[0]))] + MarkBatch(logs[1..], batchSize - 1)
  }

  class CallLogTable {
    var logs: seq<CallLog>

    /** `aborts`: an exception escapes before the final update. The pairs are those whose metrics are recalculated. */
    method ProcessUncalculatedCallLogs(batchSize: nat, aborts: bool) returns (pairs: set<(int, Option<string>)>)
      requires DistinctIds(logs)
      modifies this
      ensures logs == if aborts then old(logs) else MarkBatch(old(logs), batchSize)
      ensures DistinctIds(logs)
      ensures pairs == set log | log in Batch(old(logs), batchSize) && Owned(log) ::
                         (log.organization.value, log.productId)
    {
      var batch := Batch(logs, batchSize);
      pairs := {};
      var logIds: seq<int> := [];
      for i := 0 to |batch|
        invariant logIds == OwnedIds(batch[..i])
        invariant pairs == set log | log in batch[..i] && Owned(log) :: (log.organization.value, log.productId)
      {
        var log := batch[i];
        assert batch[..i + 1][..i] == batch[..i];
        assert batch[..i + 1] == batch[..i] + [log];
        if log.organization.Some? {
          pairs := pairs + {(log.organization.value, log.productId)};
          logIds := logIds + [log.id];
        }
      }
      assert batch[..|batch|] == batch;
      if !aborts {
        MarkIdsIsMarkBatch(logs, batchSize);
        MarkIdsKeepsIds(logs, logIds);
        logs := MarkIds(logs, logIds);
      }
    }
  }

  // ---------- The update by ids marks exactly the owned logs of the batch ----------

  lemma {:induction false} UncalculatedAreRows(logs: seq<CallLog>, log: CallLog)
    requires log in Uncalculated(logs)
    ensures log in logs && !log.calculated
    decreases |logs|
  {
    if logs[0].calculated || log != logs[0] {
      UncalculatedAreRows(logs[1..], log);
    }
  }

  lemma {:induction false} OwnedIdsOf(logs: seq<CallLog>, id: int)
    ensures id in OwnedIds(logs) <==> exists log :: log in logs && Owned(log) && log.id == id
  {
    if logs != [] {
      var shorter := logs[..|logs| - 1];
      OwnedIdsOf(shorter, id);
      assert logs == shorter + [logs[|logs| - 1]];
    }
  }

  lemma {:induction false} OwnedIdsCons(log: CallLog, logs: seq<CallLog>)
    ensures OwnedIds([log] + logs) == (if Owned(log) then [log.id] else []) + OwnedIds(logs)
  {
    if logs == [] {
      assert [log] + logs == [log] && [log][..0] == [];
    } else {
      OwnedIdsCons(log, logs[..|logs| - 1]);
      assert ([log] + logs)[..|logs|] == [log] + logs[..|logs| - 1];
    }
  }

  lemma BatchStep(logs: seq<CallLog>, batchSize: nat)
    requires logs != [] && batchSize > 0
    ensures Batch(logs, batchSize)
         == if logs[0].calculated then Batch(logs[1..], batchSize) else [logs[0]] + Batch(logs[1..], batchSize - 1)
  {
  }

  lemma MarkUnrelatedId(logs: seq<CallLog>, id: int, ids: seq<int>)
    requires forall i :: 0 <= i < |logs| ==> logs[i].id != id
    ensures MarkIds(logs, [id] + ids) == MarkIds(logs, ids)
  {
  }

  lemma {:induction false} MarkIdsIsMarkBatch(logs: seq<CallLog>, batchSize: nat)
    requires DistinctIds(logs)
    ensures MarkIds(logs, OwnedIds(Batch(logs, batchSize))) == MarkBatch(logs, batchSize)
    decreases |logs|
  {
    var ids := OwnedIds(Batch(logs, batchSize));
    if logs == [] || batchSize == 0 {
      assert Batch(logs, batchSize) == [];
    } else {
      var rest := logs[1..];
      var left := if logs[0].calculated then batchSize else batchSize - 1;
      var restIds := OwnedIds(Batch(rest, left));
      MarkIdsIsMarkBatch(rest, left);
      BatchStep(logs, batchSize);
      HeadIsNotInRest(logs, left);
      if !logs[0].calculated {
        OwnedIdsCons(logs[0], Batch(rest, left));
        if Owned(logs[0]) {
          MarkUnrelatedId(rest, logs[0].id, restIds);
        }
      }
      assert MarkIds(logs, ids)[1..] == MarkIds(rest, ids);
    }
  }

  lemma MarkIdsKeepsIds(logs: seq<CallLog>, ids: seq<int>)
    requires DistinctIds(logs)
    ensures DistinctIds(MarkIds(logs, ids))
  {
  }

  lemma HeadIsNotInRest(logs: seq<CallLog>, left: nat)
    requires logs != [] && DistinctIds(logs)
    ensures logs[0].id !in OwnedIds(Batch(logs[1..], left))
  {
    OwnedIdsOf(Batch(logs[1..], left), logs[0].id);
    if log :| log in Batch(logs[1..], left) && log.id == logs[0].id {
      UncalculatedAreRows(logs[1..], log);
    }
  }

  function CountUncalculated(logs: seq<CallLog>): nat {
    if logs == [] then 0
    else (if logs[0].calculated then 0 else 1) + CountUncalculated(logs[1..])
  }

  /**
   Log by log: a call sets `calculated` on exactly the owned logs among the oldest `batchSize`
   uncalculated ones, reverts none, and changes nothing else.
   */
  lemma {:induction false} MarksExactlyOwnedOldest(logs: seq<CallLog>, batchSize: nat, i: nat)
    requires i < |logs|
    ensures MarkBatch(logs, batchSize)[i]
         == logs[i].(calculated := logs[i].calculated || (Owned(logs[i]) && CountUncalculated(logs[..i]) < batchSize))
    decreases |logs|
  {
    if batchSize > 0 {
      if i == 0 {
        assert logs[..0] == [];
      } else {
        assert logs[..i][1..] == logs[1..][..i - 1];
        MarksExactlyOwnedOldest(logs[1..], if logs[0].calculated then batchSize else batchSize - 1, i - 1);
      }
    }
  }

  // ---------- Progress ----------

  function OwnedLeft(logs: seq<CallLog>): nat {
    if logs == [] then 0
    else (if !logs[0].calculated && Owned(logs[0]) then 1 else 0) + OwnedLeft(logs[1..])
  }

  function OwnerlessLeft(logs: seq<CallLog>): nat {
    if logs == [] then 0
    else (if !logs[0].calculated && !Owned(logs[0]) then 1 else 0) + OwnerlessLeft(logs[1..])
  }

  function Minus(a: int, b: int): nat {
    if a <= b then 0 else a - b
  }

  /** A call marks all but at most the batch places that ownerless logs take up. */
  lemma {:induction false} CallProgress(logs: seq<CallLog>, batchSize: nat)
    ensures OwnerlessLeft(MarkBatch(logs, batchSize)) == OwnerlessLeft(logs)
    ensures OwnedLeft(MarkBatch(logs, batchSize)) <= Minus(OwnedLeft(logs), Minus(batchSize, OwnerlessLeft(logs)))
    decreases |logs|
  {
    if logs != [] && batchSize > 0 {
      var left := if logs[0].calculated then batchSize else batchSize - 1;
      CallProgress(logs[1..], left);
      assert MarkBatch(logs, batchSize)[1..] == MarkBatch(logs[1..], left);
    }
  }

  /** The table after several calls, given for each whether it aborts. */
  function Calls(logs: seq<CallLog>, batchSize: nat, aborts: seq<bool>): seq<CallLog> {
    if aborts == [] then logs
    else
      var before := Calls(logs, batchSize, aborts[..|aborts| - 1]);
      if aborts[|aborts| - 1] then before else MarkBatch(before, batchSize)
  }

  function Completed(aborts: seq<bool>): nat {
    if aborts == [] then 0
    else Completed(aborts[..|aborts| - 1]) + if aborts[|aborts| - 1] then 0 else 1
  }

  lemma {:induction false} CallsProgress(logs: seq<CallLog>, batchSize: nat, aborts: seq<bool>)
    requires OwnerlessLeft(logs) < batchSize
    ensures OwnerlessLeft(Calls(logs, batchSize, aborts)) == OwnerlessLeft(logs)
    ensures OwnedLeft(Calls(logs, batchSize, aborts))
         <= Minus(OwnedLeft(logs), Completed(aborts) * (batchSize - OwnerlessLeft(logs)))
  {
    if aborts != [] {
      var earlier := aborts[..|aborts| - 1];
      CallsProgress(logs, batchSize, earlier);
      CallProgress(Calls(logs, batchSize, earlier), batchSize);
      NextMultiple(Completed(earlier), batchSize - OwnerlessLeft(logs));
    }
  }

  lemma NextMultiple(c: nat, step: nat)
    ensures (c + 1) * step == c * step + step
  {
  }

  /**
   With fewer ownerless logs than the batch size and no arrivals, every owned log is marked after
   at most ceil(k / (batchSize - m)) completed calls, k owned and m ownerless logs being left at the start.
   */
  lemma AllOwnedAreMarked(logs: seq<CallLog>, batchSize: nat, aborts: seq<bool>)
    requires OwnerlessLeft(logs) < batchSize
    requires var step := batchSize - OwnerlessLeft(logs);
             Completed(aborts) >= (OwnedLeft(logs) + step - 1) / step
    ensures OwnedLeft(Calls(logs, batchSize, aborts)) == 0
  {
    CallsProgress(logs, batchSize, aborts);
    EnoughCalls(Completed(aborts), OwnedLeft(logs), batchSize - OwnerlessLeft(logs));
  }

  lemma EnoughCalls(calls: nat, k: nat, step: nat)
    requires step > 0 && calls >= (k + step - 1) / step
    ensures calls * step >= k
  {
    var q := (k + step - 1) / step;
    assert k + step - 1 == q * step + (k + step - 1) % step;
    assert (calls - q) * step >= 0;
    assert calls * step == q * step + (calls - q) * step;
  }

  // ---------- Exactly when everything owned is marked in the end ----------

  predicate OwnedUnmarked(logs: seq<CallLog>, i: nat)
    requires i < |logs|
  {
    Owned(logs[i]) && !logs[i].calculated
  }

  /** Fewer ownerless logs than the batch size are older than any owned log still to be marked. */
  predicate Reachable(logs: seq<CallLog>, batchSize: nat) {
    forall i :: 0 <= i < |logs| && OwnedUnmarked(logs, i) ==> OwnerlessLeft(logs[..i]) < batchSize
  }

  lemma MarkAll(logs: seq<CallLog>, batchSize: nat)
    ensures forall i :: 0 <= i < |logs| ==>
              MarkBatch(logs, batchSize)[i]
              == logs[i].(calculated :=
                            logs[i].calculated || (Owned(logs[i]) && CountUncalculated(logs[..i]) < batchSize))
  {
    forall i | 0 <= i < |logs|
      ensures MarkBatch(logs, batchSize)[i]
           == logs[i].(calculated := logs[i].calculated || (Owned(logs[i]) && CountUncalculated(logs[..i]) < batchSize))
    {
      MarksExactlyOwnedOldest(logs, batchSize, i);
    }
  }

  /** Marking owned logs leaves the ownerless ones uncalculated. */
  lemma {:induction false} SameOwnerless(a: seq<CallLog>, b: seq<CallLog>)
    requires |a| == |b|
    requires forall i :: 0 <= i < |a| ==>
               Owned(a[i]) == Owned(b[i]) && (Owned(a[i]) || a[i].calculated == b[i].calculated)
    ensures OwnerlessLeft(a) == OwnerlessLeft(b)
    decreases |a|
  {
    if a != [] {
      SameOwnerless(a[1..], b[1..]);
    }
  }

  lemma CallKeepsOwnerless(logs: seq<CallLog>, batchSize: nat, i: nat)
    requires i <= |logs|
    ensures OwnerlessLeft(MarkBatch(logs, batchSize)[..i]) == OwnerlessLeft(logs[..i])
  {
    MarkAll(logs, batchSize);
    SameOwnerless(MarkBatch(logs, batchSize)[..i], logs[..i]);
  }

  lemma CallKeepsReachable(logs: seq<CallLog>, batchSize: nat)
    requires Reachable(logs, batchSize)
    ensures Reachable(MarkBatch(logs, batchSize), batchSize)
  {
    MarkAll(logs, batchSize);
    forall i | 0 <= i < |logs| && OwnedUnmarked(MarkBatch(logs, batchSize), i)
      ensures OwnerlessLeft(MarkBatch(logs, batchSize)[..i]) < batchSize
    {
      CallKeepsOwnerless(logs, batchSize, i);
      assert OwnedUnmarked(logs, i);
    }
  }

  lemma {:induction false} UncalculatedSplit(logs: seq<CallLog>)
    ensures CountUncalculated(logs) == OwnedLeft(logs) + OwnerlessLeft(logs)
  {
    if logs != [] {
      UncalculatedSplit(logs[1..]);
    }
  }

  /** The oldest owned log still to be marked. */
  lemma {:induction false} OldestOwned(logs: seq<CallLog>) returns (i: nat)
    requires OwnedLeft(logs) > 0
    ensures i < |logs| && OwnedUnmarked(logs, i) && OwnedLeft(logs[..i]) == 0
    decreases |logs|
  {
    if OwnedUnmarked(logs, 0) {
      i := 0;
    } else {
      var j := OldestOwned(logs[1..]);
      i := j + 1;
      assert logs[..i][1..] == logs[1..][..j];
    }
  }

  lemma {:induction false} OwnedLeftIsCounted(logs: seq<CallLog>, i: nat)
    requires i < |logs| && OwnedUnmarked(logs, i)
    ensures OwnedLeft(logs) > 0
    decreases |logs|
  {
    if i > 0 {
      OwnedLeftIsCounted(logs[1..], i - 1);
    }
  }

  /** Marking never adds to the owned logs left, and one log newly marked is one fewer. */
  lemma {:induction false} OwnedFalls(a: seq<CallLog>, b: seq<CallLog>, i: nat)
    requires |a| == |b| && i <= |a|
    requires forall j :: 0 <= j < |a| ==> Owned(b[j]) == Owned(a[j]) && (a[j].calculated ==> b[j].calculated)
    requires i < |a| ==> OwnedUnmarked(a, i) && b[i].calculated
    ensures OwnedLeft(b) + (if i < |a| then 1 else 0) <= OwnedLeft(a)
    decreases |a|
  {
    if a != [] {
      OwnedFalls(a[1..], b[1..], if i == 0 then |a| - 1 else i - 1);
    }
  }

  /** While an owned log is left within reach, a call marks the oldest of them at least. */
  lemma CallMarksOne(logs: seq<CallLog>, batchSize: nat)
    requires Reachable(logs, batchSize) && OwnedLeft(logs) > 0
    ensures OwnedLeft(MarkBatch(logs, batchSize)) < OwnedLeft(logs)
  {
    var i := OldestOwned(logs);
    UncalculatedSplit(logs[..i]);
    MarkAll(logs, batchSize);
    OwnedFalls(logs, MarkBatch(logs, batchSize), i);
  }

  lemma {:induction false} CallsMarkOneEach(logs: seq<CallLog>, batchSize: nat, aborts: seq<bool>)
    requires Reachable(logs, batchSize)
    ensures Reachable(Calls(logs, batchSize, aborts), batchSize)
    ensures OwnedLeft(Calls(logs, batchSize, aborts)) <= Minus(OwnedLeft(logs), Completed(aborts))
  {
    if aborts != [] {
      var before := Calls(logs, batchSize, aborts[..|aborts| - 1]);
      CallsMarkOneEach(logs, batchSize, aborts[..|aborts| - 1]);
      if !aborts[|aborts| - 1] {
        CallKeepsReachable(before, batchSize);
        if OwnedLeft(before) > 0 {
          CallMarksOne(before, batchSize);
        } else {
          MarkAll(before, batchSize);
          OwnedFalls(before, MarkBatch(before, batchSize), |before|);
        }
      }
    }
  }

  /** An owned log behind a full batch of ownerless ones stays there, however many calls are made. */
  lemma {:induction false} BlockedStays(logs: seq<CallLog>, batchSize: nat, aborts: seq<bool>, i: nat)
    requires i < |logs| && OwnedUnmarked(logs, i) && OwnerlessLeft(logs[..i]) >= batchSize
    ensures var after := Calls(logs, batchSize, aborts);
            && |after| == |logs| && OwnedUnmarked(after, i) && OwnerlessLeft(after[..i]) >= batchSize
  {
    if aborts != [] {
      var before := Calls(logs, batchSize, aborts[..|aborts| - 1]);
      BlockedStays(logs, batchSize, aborts[..|aborts| - 1], i);
      UncalculatedSplit(before[..i]);
      CallKeepsOwnerless(before, batchSize, i);
      MarksExactlyOwnedOldest(before, batchSize, i);
    }
  }

  lemma {:induction false} NoAborts(n: nat) returns (aborts: seq<bool>)
    ensures Completed(aborts) == n
  {
    if n == 0 {
      aborts := [];
    } else {
      var fewer := NoAborts(n - 1);
      aborts := fewer + [false];
      assert aborts[..|aborts| - 1] == fewer;
    }
  }

  /** Some number of calls marks every owned log if and only if every one is within reach. */
  lemma AllMarkedExactlyWhenReachable(logs: seq<CallLog>, batchSize: nat)
    ensures (exists aborts: seq<bool> :: OwnedLeft(Calls(logs, batchSize, aborts)) == 0) <==> Reachable(logs, batchSize)
  {
    if Reachable(logs, batchSize) {
      var aborts := NoAborts(OwnedLeft(logs));
      CallsMarkOneEach(logs, batchSize, aborts);
    } else {
      var i :| 0 <= i < |logs| && OwnedUnmarked(logs, i) && OwnerlessLeft(logs[..i]) >= batchSize;
      forall aborts: seq<bool>
        ensures OwnedLeft(Calls(logs, batchSize, aborts)) > 0
      {
        BlockedStays(logs, batchSize, aborts, i);
        OwnedLeftIsCounted(Calls(logs, batchSize, aborts), i);
      }
    }
  }

  /** Then as many completed calls as there are owned logs are enough, whatever calls abort in between. */
  lemma ReachableAreMarked(logs: seq<CallLog>, batchSize: nat, aborts: seq<bool>)
    requires Reachable(logs, batchSize) && Completed(aborts) >= OwnedLeft(logs)
    ensures OwnedLeft(Calls(logs, batchSize, aborts)) == 0
  {
    CallsMarkOneEach(logs, batchSize, aborts);
  }

  // ---------- Starvation ----------

  /** No owned log is among the oldest `batchSize` uncalculated ones. */
  predicate HeadOwnerless(logs: seq<CallLog>, batchSize: nat) {
    forall i :: 0 <= i < |logs| && !logs[i].calculated && Owned(logs[i]) ==> CountUncalculated(logs[..i]) >= batchSize
  }

  /** A call changes nothing exactly when no owned log is within its batch. */
  lemma StuckExactlyWhenHeadOwnerless(logs: seq<CallLog>, batchSize: nat)
    ensures MarkBatch(logs, batchSize) == logs <==> HeadOwnerless(logs, batchSize)
  {
    MarkAll(logs, batchSize);
    if HeadOwnerless(logs, batchSize) {
      assert forall i :: 0 <= i < |logs| ==> MarkBatch(logs, batchSize)[i] == logs[i];
    }
  }

  lemma {:induction false} CountGrows(a: seq<CallLog>, b: seq<CallLog>)
    ensures CountUncalculated(a + b) == CountUncalculated(a) + CountUncalculated(b)
    decreases |a|
  {
    if a == [] {
      assert a + b == b;
    } else {
      assert (a + b)[1..] == a[1..] + b;
      CountGrows(a[1..], b);
    }
  }

  /** An owned log that arrives behind the given ones. */
  const NEW_OWNED := CallLog(0, Some(0), None, false)

  /**
   No call marks anything ever again, whatever arrives later, if and only if the oldest uncalculated
   logs are a full batch of ownerless ones.
   */
  lemma StarvedForEverExactly(logs: seq<CallLog>, batchSize: nat)
    ensures (forall arrivals: seq<CallLog> :: MarkBatch(logs + arrivals, batchSize) == logs + arrivals)
        <==> HeadOwnerless(logs, batchSize) && CountUncalculated(logs) >= batchSize
  {
    if HeadOwnerless(logs, batchSize) && CountUncalculated(logs) >= batchSize {
      forall arrivals: seq<CallLog>
        ensures MarkBatch(logs + arrivals, batchSize) == logs + arrivals
      {
        StarvedForEver(logs, batchSize, arrivals);
      }
    } else if !HeadOwnerless(logs, batchSize) {
      assert logs + [] == logs;
      StuckExactlyWhenHeadOwnerless(logs, batchSize);
    } else {
      var all := logs + [NEW_OWNED];
      assert all[..|logs|] == logs;
      MarksExactlyOwnedOldest(all, batchSize, |logs|);
      assert MarkBatch(all, batchSize) != all;
    }
  }

  /** Once a full batch of ownerless logs is at the head, no call marks anything ever again, whatever arrives later. */
  lemma StarvedForEver(logs: seq<CallLog>, batchSize: nat, arrivals: seq<CallLog>)
    requires HeadOwnerless(logs, batchSize) && CountUncalculated(logs) >= batchSize
    ensures MarkBatch(logs + arrivals, batchSize) == logs + arrivals
  {
    var all := logs + arrivals;
    forall i | 0 <= i < |all| && !all[i].calculated && Owned(all[i])
      ensures CountUncalculated(all[..i]) >= batchSize
    {
      if i < |logs| {
        assert all[..i] == logs[..i];
      } else {
        assert all[..i] == logs + arrivals[..i - |logs|];
        CountGrows(logs, arrivals[..i - |logs|]);
      }
    }
    StuckExactlyWhenHeadOwnerless(all, batchSize);
  }
}
