/**
 The sliding-window rate limiter. The inherited parts (rate parsing, `throttle_success`,
 `throttle_failure`) are those of Django REST framework's `SimpleRateThrottle`.
 */
module Throttling {
  import opened Wrappers

  datatype Rate = Rate(numRequests: nat, duration: real)

  /** `get_rate`: "10/day". */
  const DEFAULT_RATE := Rate(10, 86400.0)

  /** A cached history, newest first, and the time from which the cache no longer returns it. */
  datatype Entry = Entry(history: seq<real>, expiry: real)

  /** The clock at the cache read, at `timer()` and at the cache write, and whether `return_bool` is set. */
  datatype Request = Request(readAt: real, now: real, storedAt: real, probe: bool)

  function Lookup(entry: Option<Entry>, readAt: real, expires: bool): seq<real> {
    if entry.Some? && (readAt < entry.value.expiry || !expires) then entry.value.history else []
  }

  /** Drops entries at or before the cutoff from the tail, stopping at the first that is after it. */
  function Prune(history: seq<real>, cutoff: real): seq<real> {
    if history != [] && history[|history| - 1] <= cutoff then Prune(history[..|history| - 1], cutoff)
    else history
  }

  function Allows(rate: Rate, entry: Option<Entry>, r: Request, expires: bool): bool {
    |Prune(Lookup(entry, r.readAt, expires), r.now - rate.duration)| < rate.numRequests
  }

  function NextEntry(rate: Rate, entry: Option<Entry>, r: Request, expires: bool): Option<Entry> {
    if Allows(rate, entry, r, expires) && !r.probe then
      Some(Entry([r.now] + Prune(Lookup(entry, r.readAt, expires), r.now - rate.duration), r.storedAt + rate.duration))
    else entry
  }

  class UnpodRateThrottler {
    const rate: Option<Rate>
    var cache: map<string, Entry>
    var key: Option<string>
    var history: seq<real>
    var now: real

    /** A throttler is made for each request; the cache is the one all of them share. */
    constructor (rate: Option<Rate>, cache: map<string, Entry>)
      ensures this.rate == rate && this.cache == cache
    {
      this.rate := rate;
      this.cache := cache;
      key, history, now := None, [], 0.0;
    }

    function EntryOf(k: string): Option<Entry>
      reads this`cache
    {
      if k in cache then Some(cache[k]) else None
    }

    method AllowRequest(cacheKey: Option<string>, r: Request) returns (allowed: bool)
      modifies this
      ensures rate.None? || cacheKey.None? ==> allowed && cache == old(cache)
      ensures rate.Some? && cacheKey.Some? ==>
                && allowed == Allows(rate.value, old(EntryOf(cacheKey.value)), r, true)
                && EntryOf(cacheKey.value) == NextEntry(rate.value, old(EntryOf(cacheKey.value)), r, true)
                && cache - {cacheKey.value} == old(cache) - {cacheKey.value}
      ensures rate.Some? && cacheKey.Some? && allowed && !r.probe ==>
                && cacheKey.value in cache && cache[cacheKey.value].expiry == r.storedAt + rate.value.duration
                && cache[cacheKey.value].history != [] && cache[cacheKey.value].history[0] == r.now
      ensures !allowed || r.probe ==> cache == old(cache)
    {
      if rate.None? {
        return true;
      }
      key := cacheKey;
      if key.None? {
        return true;
      }
      history := Lookup(EntryOf(key.value), r.readAt, true);
      now := r.now;
      ghost var cutoff := now - rate.value.duration;
      ghost var pruned := Prune(history, cutoff);
      while history != [] && history[|history| - 1] <= now - rate.value.duration
        invariant Prune(history, cutoff) == pruned
        invariant unchanged(this`cache) && now == r.now && key == cacheKey
        decreases |history|
      {
        history := history[..|history| - 1];
      }
      if |history| >= rate.value.numRequests {
        return false;
      }
      if !r.probe {
        history := [now] + history;
        cache := cache[key.value := Entry(history, r.storedAt + rate.value.duration)];
      }
      return true;
    }
  }

  // ---------- Runs on one key ----------

  function EntryAfter(rate: Rate, requests: seq<Request>, expires: bool): Option<Entry> {
    if requests == [] then None
    else NextEntry(rate, EntryAfter(rate, requests[..|requests| - 1], expires), requests[|requests| - 1], expires)
  }

  /** The answer to the last request of a run. */
  function LastAnswer(rate: Rate, requests: seq<Request>, expires: bool): bool
    requires requests != []
  {
    Allows(rate, EntryAfter(rate, requests[..|requests| - 1], expires), requests[|requests| - 1], expires)
  }

  /** The time of the request, if it is accepted and no probe. */
  function NewlyAccepted(rate: Rate, entry: Option<Entry>, r: Request, expires: bool): seq<real> {
    if Allows(rate, entry, r, expires) && !r.probe then [r.now] else []
  }

  /** The times of all requests accepted in a run, newest first, whatever the cache has kept of them. */
  function Accepted(rate: Rate, requests: seq<Request>, expires: bool): seq<real> {
    if requests == [] then []
    else
      var before := requests[..|requests| - 1];
      NewlyAccepted(rate, EntryAfter(rate, before, expires), requests[|requests| - 1], expires)
      + Accepted(rate, before, expires)
  }

  /** A clock that never steps back: within a request, and from one request to the next. */
  predicate SteadyTimer(requests: seq<Request>) {
    requests == [] ||
    var before := requests[..|requests| - 1];
    var r := requests[|requests| - 1];
    && SteadyTimer(before)
    && r.readAt <= r.now <= r.storedAt
    && (before != [] ==> before[|before| - 1].storedAt <= r.readAt)
  }

  /** How many of the given times lie in the window (lo, hi]. */
  function CountWithin(times: seq<real>, lo: real, hi: real): nat {
    if times == [] then 0
    else (if lo < times[0] <= hi then 1 else 0) + CountWithin(times[1..], lo, hi)
  }

  predicate Descending(times: seq<real>) {
    forall i, j :: 0 <= i < j < |times| ==> times[i] >= times[j]
  }

  lemma {:induction false} PruneIsPrefix(times: seq<real>, cutoff: real)
    ensures Prune(times, cutoff) <= times
    ensures forall i :: |Prune(times, cutoff)| <= i < |times| ==> times[i] <= cutoff
    ensures Prune(times, cutoff) == [] || Prune(times, cutoff)[|Prune(times, cutoff)| - 1] > cutoff
  {
    if times != [] && times[|times| - 1] <= cutoff {
      PruneIsPrefix(times[..|times| - 1], cutoff);
    }
  }

  lemma {:induction false} CountOfDescending(times: seq<real>, k: nat, lo: real, hi: real)
    requires k <= |times|
    requires forall i :: 0 <= i < k ==> lo < times[i] <= hi
    requires forall i :: k <= i < |times| ==> times[i] <= lo
    ensures CountWithin(times, lo, hi) == k
    decreases |times|
  {
    if times != [] {
      CountOfDescending(times[1..], if k == 0 then 0 else k - 1, lo, hi);
    }
  }

  /** Pruning the tail of a descending list keeps exactly the times of the window. */
  lemma PruneCountsWindow(times: seq<real>, lo: real, hi: real)
    requires Descending(times) && forall i :: 0 <= i < |times| ==> times[i] <= hi
    ensures |Prune(times, lo)| == CountWithin(times, lo, hi)
  {
    PruneIsPrefix(times, lo);
    CountOfDescending(times, |Prune(times, lo)|, lo, hi);
  }

  lemma {:induction false} PrunedPrefix(times: seq<real>, k: nat, cutoff: real)
    requires k <= |times| && forall i :: k <= i < |times| ==> times[i] <= cutoff
    ensures Prune(times, cutoff) == Prune(times[..k], cutoff)
    decreases |times|
  {
    if k < |times| {
      assert times[..|times| - 1][..k] == times[..k];
      PrunedPrefix(times[..|times| - 1], k, cutoff);
    } else {
      assert times[..k] == times;
    }
  }

  /** The cache holds the accepted times that could still matter, and expires no earlier than they do. */
  ghost predicate Represents(duration: real, entry: Option<Entry>, accepted: seq<real>) {
    match entry
    case None => accepted == []
    case Some(e) =>
      && 1 <= |e.history| <= |accepted|
      && e.history == accepted[..|e.history|]
      && (forall i :: |e.history| <= i < |accepted| ==> accepted[i] <= accepted[0] - duration)
      && accepted[0] + duration <= e.expiry
  }

  lemma LookupPrunesAlike(duration: real, entry: Option<Entry>, accepted: seq<real>, r: Request, expires: bool)
    requires Represents(duration, entry, accepted) && Descending(accepted)
    requires accepted != [] ==> accepted[0] <= r.now
    requires r.readAt <= r.now
    ensures Prune(Lookup(entry, r.readAt, expires), r.now - duration) == Prune(accepted, r.now - duration)
  {
    if Lookup(entry, r.readAt, expires) == [] {
      assert accepted != [] ==> accepted[0] <= r.now - duration;
      PrunedPrefix(accepted, 0, r.now - duration);
    } else {
      PrunedPrefix(accepted, |entry.value.history|, r.now - duration);
    }
  }

  /** What holds between requests: the entry represents the accepted times, none of them after `clock`. */
  ghost predicate Good(duration: real, entry: Option<Entry>, accepted: seq<real>, clock: real) {
    && Represents(duration, entry, accepted)
    && Descending(accepted)
    && (accepted != [] ==> accepted[0] <= clock)
  }

  lemma PrependKeepsGood(duration: real, accepted: seq<real>, kept: seq<real>, now: real, storedAt: real)
    requires duration > 0.0 && Descending(accepted) && (accepted != [] ==> accepted[0] <= now <= storedAt)
    requires now <= storedAt && kept <= accepted
    requires forall i :: |kept| <= i < |accepted| ==> accepted[i] <= now - duration
    ensures Good(duration, Some(Entry([now] + kept, storedAt + duration)), [now] + accepted, storedAt)
  {
  }

  lemma AcceptKeepsGood(rate: Rate, entry: Option<Entry>, accepted: seq<real>, r: Request, expires: bool)
    requires rate.duration > 0.0 && r.readAt <= r.now <= r.storedAt
    requires Good(rate.duration, entry, accepted, r.readAt)
    requires Allows(rate, entry, r, expires) && !r.probe
    ensures Good(rate.duration, NextEntry(rate, entry, r, expires), [r.now] + accepted, r.storedAt)
  {
    LookupPrunesAlike(rate.duration, entry, accepted, r, expires);
    PruneIsPrefix(accepted, r.now - rate.duration);
    PrependKeepsGood(rate.duration, accepted, Prune(accepted, r.now - rate.duration), r.now, r.storedAt);
  }

  lemma LaterClockKeepsGood(duration: real, entry: Option<Entry>, accepted: seq<real>, clock: real, later: real)
    requires Good(duration, entry, accepted, clock) && clock <= later
    ensures Good(duration, entry, accepted, later)
  {
  }

  lemma StepKeepsGood(
    rate: Rate, entry: Option<Entry>, accepted: seq<real>, r: Request, expires: bool, clock: real)
    requires rate.duration > 0.0 && Good(rate.duration, entry, accepted, r.readAt)
    requires r.readAt <= r.now <= r.storedAt <= clock
    ensures Good(rate.duration, NextEntry(rate, entry, r, expires),
                 NewlyAccepted(rate, entry, r, expires) + accepted, clock)
  {
    if Allows(rate, entry, r, expires) && !r.probe {
      AcceptKeepsGood(rate, entry, accepted, r, expires);
      LaterClockKeepsGood(rate.duration, NextEntry(rate, entry, r, expires), [r.now] + accepted, r.storedAt, clock);
    } else {
      assert [] + accepted == accepted;
      LaterClockKeepsGood(rate.duration, entry, accepted, r.readAt, clock);
    }
  }

  lemma {:induction false} RunsAreGood(rate: Rate, requests: seq<Request>, expires: bool, clock: real)
    requires rate.duration > 0.0 && SteadyTimer(requests)
    requires requests != [] ==> requests[|requests| - 1].storedAt <= clock
    ensures Good(rate.duration, EntryAfter(rate, requests, expires), Accepted(rate, requests, expires), clock)
  {
    if requests != [] {
      var before := requests[..|requests| - 1];
      var r := requests[|requests| - 1];
      RunsAreGood(rate, before, expires, r.readAt);
      StepKeepsGood(rate, EntryAfter(rate, before, expires), Accepted(rate, before, expires), r, expires, clock);
    }
  }

  lemma AnswerCountsWindow(rate: Rate, entry: Option<Entry>, accepted: seq<real>, r: Request, expires: bool)
    requires Good(rate.duration, entry, accepted, r.readAt) && r.readAt <= r.now
    ensures Allows(rate, entry, r, expires)
        <==> CountWithin(accepted, r.now - rate.duration, r.now) < rate.numRequests
  {
    LookupPrunesAlike(rate.duration, entry, accepted, r, expires);
    PruneCountsWindow(accepted, r.now - rate.duration, r.now);
  }

  lemma NextAnswerCountsWindow(rate: Rate, requests: seq<Request>, r: Request, expires: bool)
    requires rate.duration > 0.0 && SteadyTimer(requests) && r.readAt <= r.now
    requires requests != [] ==> requests[|requests| - 1].storedAt <= r.readAt
    ensures Allows(rate, EntryAfter(rate, requests, expires), r, expires)
        <==> CountWithin(Accepted(rate, requests, expires), r.now - rate.duration, r.now) < rate.numRequests
  {
    RunsAreGood(rate, requests, expires, r.readAt);
    AnswerCountsWindow(rate, EntryAfter(rate, requests, expires), Accepted(rate, requests, expires), r, expires);
  }

  /**
   A request is refused exactly when its own window is already full of accepted requests: the
   cached, pruned list answers as a count over everything ever accepted would.
   */
  lemma RefusedExactlyWhenFull(rate: Rate, requests: seq<Request>, expires: bool)
    requires rate.duration > 0.0 && SteadyTimer(requests) && requests != []
    ensures var r := requests[|requests| - 1];
            var before := Accepted(rate, requests[..|requests| - 1], expires);
            LastAnswer(rate, requests, expires)
            <==> CountWithin(before, r.now - rate.duration, r.now) < rate.numRequests
  {
    NextAnswerCountsWindow(rate, requests[..|requests| - 1], requests[|requests| - 1], expires);
  }

  lemma {:induction false} LaterWindowCountsFewer(times: seq<real>, duration: real, now: real, t: real)
    requires now <= t && forall i :: 0 <= i < |times| ==> times[i] <= now
    ensures CountWithin(times, t - duration, t) <= CountWithin(times, now - duration, now)
  {
    if times != [] {
      LaterWindowCountsFewer(times[1..], duration, now, t);
    }
  }

  lemma AcceptedNotAfter(rate: Rate, requests: seq<Request>, expires: bool, clock: real)
    requires rate.duration > 0.0 && SteadyTimer(requests)
    requires requests != [] ==> requests[|requests| - 1].storedAt <= clock
    ensures forall i :: 0 <= i < |Accepted(rate, requests, expires)| ==> Accepted(rate, requests, expires)[i] <= clock
  {
    RunsAreGood(rate, requests, expires, clock);
  }

  lemma AcceptKeepsBound(accepted: seq<real>, duration: real, now: real, limit: nat, t: real)
    requires forall i :: 0 <= i < |accepted| ==> accepted[i] <= now
    requires CountWithin(accepted, now - duration, now) < limit
    requires CountWithin(accepted, t - duration, t) <= limit
    ensures CountWithin([now] + accepted, t - duration, t) <= limit
  {
    assert ([now] + accepted)[1..] == accepted;
    if now <= t {
      LaterWindowCountsFewer(accepted, duration, now, t);
    }
  }

  /**
   No window of the given duration, wherever it lies, ever holds more than the permitted number of
   accepted requests.
   */
  lemma {:induction false} WindowBound(rate: Rate, requests: seq<Request>, expires: bool, t: real)
    requires rate.duration > 0.0 && SteadyTimer(requests)
    ensures CountWithin(Accepted(rate, requests, expires), t - rate.duration, t) <= rate.numRequests
    decreases |requests|
  {
    if requests != [] {
      var before := requests[..|requests| - 1];
      var r := requests[|requests| - 1];
      var accepted := Accepted(rate, before, expires);
      WindowBound(rate, before, expires, t);
      if LastAnswer(rate, requests, expires) && !r.probe {
        RefusedExactlyWhenFull(rate, requests, expires);
        AcceptedNotAfter(rate, before, expires, r.now);
        AcceptKeepsBound(accepted, rate.duration, r.now, rate.numRequests, t);
      } else {
        assert Accepted(rate, requests, expires) == accepted;
      }
    }
  }

  /** Cache expiry never changes an answer: a cache that kept every entry for ever would accept the same requests. */
  lemma {:induction false} ExpiryChangesNothing(rate: Rate, requests: seq<Request>)
    requires rate.duration > 0.0 && SteadyTimer(requests)
    ensures Accepted(rate, requests, true) == Accepted(rate, requests, false)
    ensures requests != [] ==> LastAnswer(rate, requests, true) == LastAnswer(rate, requests, false)
  {
    if requests != [] {
      ExpiryChangesNothing(rate, requests[..|requests| - 1]);
      RefusedExactlyWhenFull(rate, requests, true);
      RefusedExactlyWhenFull(rate, requests, false);
    }
  }

  function WithoutProbes(requests: seq<Request>): seq<Request> {
    if requests == [] then []
    else
      var r := requests[|requests| - 1];
      WithoutProbes(requests[..|requests| - 1]) + if r.probe then [] else [r]
  }

  /**
   From its expiry on an entry is forgotten: the request is judged, and stored, as the key's first,
   under any clock.
   */
  lemma ExpiredIsForgotten(rate: Rate, e: Entry, r: Request)
    requires r.readAt >= e.expiry
    ensures Allows(rate, Some(e), r, true) <==> rate.numRequests > 0
    ensures Allows(rate, Some(e), r, true) && !r.probe ==>
              NextEntry(rate, Some(e), r, true) == Some(Entry([r.now], r.storedAt + rate.duration))
  {
    assert Prune([], r.now - rate.duration) == [];
    assert [r.now] + [] == [r.now];
  }

  /** Probes leave no trace, under any clock: without them every later request finds the same cache entry. */
  lemma {:induction false} ProbesLeaveNoTrace(rate: Rate, requests: seq<Request>, expires: bool)
    ensures EntryAfter(rate, requests, expires) == EntryAfter(rate, WithoutProbes(requests), expires)
    ensures Accepted(rate, requests, expires) == Accepted(rate, WithoutProbes(requests), expires)
  {
    if requests != [] {
      var before := requests[..|requests| - 1];
      var r := requests[|requests| - 1];
      ProbesLeaveNoTrace(rate, before, expires);
      if r.probe {
        assert WithoutProbes(requests) == WithoutProbes(before);
      } else {
        assert WithoutProbes(requests)[..|WithoutProbes(requests)| - 1] == WithoutProbes(before);
      }
    }
  }

  /** `get_rate`: at most ten accepted requests in any 24 hours. */
  lemma TenPerDay(requests: seq<Request>, t: real)
    requires SteadyTimer(requests)
    ensures CountWithin(Accepted(DEFAULT_RATE, requests, true), t - 86400.0, t) <= 10
  {
    WindowBound(DEFAULT_RATE, requests, true, t);
  }

  // ---------- The condition on the clock is exact ----------

  /** A request that is no probe, made at a single reading of the clock. */
  function At(now: real): Request {
    Request(now, now, now, false)
  }

  function Plain(ts: seq<real>): seq<Request> {
    seq(|ts|, i requires 0 <= i < |ts| => At(ts[i]))
  }

  /** The n-th request is answered as its window asks. */
  predicate AnsweredByWindow(rate: Rate, ts: seq<real>, n: nat)
    requires 0 < n <= |ts|
  {
    var now := ts[n - 1];
    LastAnswer(rate, Plain(ts[..n]), true)
    <==> CountWithin(Accepted(rate, Plain(ts[..n - 1]), true), now - rate.duration, now) < rate.numRequests
  }

  predicate NeverDecreases(ts: seq<real>) {
    forall i, j :: 0 <= i < j < |ts| ==> ts[i] <= ts[j]
  }

  lemma PlainStep(ts: seq<real>)
    requires ts != []
    ensures Plain(ts)[..|ts| - 1] == Plain(ts[..|ts| - 1])
  {
  }

  lemma {:induction false} PlainIsSteady(ts: seq<real>)
    requires NeverDecreases(ts)
    ensures SteadyTimer(Plain(ts))
  {
    if ts != [] {
      PlainStep(ts);
      PlainIsSteady(ts[..|ts| - 1]);
    }
  }

  function Reversed(ts: seq<real>): (r: seq<real>)
    ensures |r| == |ts|
  {
    if ts == [] then [] else [ts[|ts| - 1]] + Reversed(ts[..|ts| - 1])
  }

  lemma {:induction false} LastOfReversed(ts: seq<real>)
    requires ts != []
    ensures Reversed(ts)[|ts| - 1] == ts[0]
  {
    if |ts| > 1 {
      LastOfReversed(ts[..|ts| - 1]);
    }
  }

  lemma {:induction false} CountAtMost(times: seq<real>, lo: real, hi: real)
    ensures CountWithin(times, lo, hi) <= |times|
  {
    if times != [] {
      CountAtMost(times[1..], lo, hi);
    }
  }

  lemma KeepOne(rate: Rate, history: seq<real>, expiry: real, now: real)
    requires history != [] && |history| < rate.numRequests
    requires now < expiry && history[|history| - 1] > now - rate.duration
    ensures Allows(rate, Some(Entry(history, expiry)), At(now), true)
    ensures NextEntry(rate, Some(Entry(history, expiry)), At(now), true)
         == Some(Entry([now] + history, now + rate.duration))
  {
    assert Prune(history, now - rate.duration) == history;
  }

  /** With room for all of them in one window, requests at non-decreasing times are all accepted and all kept. */
  lemma {:induction false} AllKept(rate: Rate, ts: seq<real>)
    requires ts != [] && NeverDecreases(ts) && |ts| <= rate.numRequests && ts[|ts| - 1] - ts[0] < rate.duration
    ensures EntryAfter(rate, Plain(ts), true) == Some(Entry(Reversed(ts), ts[|ts| - 1] + rate.duration))
    ensures Accepted(rate, Plain(ts), true) == Reversed(ts)
  {
    var n := |ts| - 1;
    var earlier, now := ts[..n], ts[n];
    PlainStep(ts);
    if n == 0 {
      assert Plain(earlier) == [];
      assert Prune([], now - rate.duration) == [];
      assert [now] + [] == [now];
      assert Reversed(ts) == [now];
    } else {
      assert earlier[n - 1] <= now;
      AllKept(rate, earlier);
      LastOfReversed(earlier);
      KeepOne(rate, Reversed(earlier), earlier[n - 1] + rate.duration, now);
    }
  }

  /** The request at time `ts[d]` is refused although its window is not full. */
  predicate RefusedEarly(rate: Rate, ts: seq<real>, d: nat)
    requires d < |ts|
  {
    && !LastAnswer(rate, Plain(ts[..d + 1]), true)
    && CountWithin(Accepted(rate, Plain(ts[..d]), true), ts[d] - rate.duration, ts[d]) < rate.numRequests
  }

  lemma FullHistoryRefuses(rate: Rate, history: seq<real>, expiry: real, now: real)
    requires history != [] && |history| >= rate.numRequests
    requires now < expiry && history[|history| - 1] > now - rate.duration
    ensures !Allows(rate, Some(Entry(history, expiry)), At(now), true)
  {
    assert Prune(history, now - rate.duration) == history;
  }

  /** A rate for as many requests as come before time `ts[d]`, over a time longer than they span. */
  predicate WideRate(rate: Rate, ts: seq<real>, d: nat)
    requires 0 < d < |ts|
  {
    rate.numRequests == d && rate.duration > 0.0 && ts[d - 1] - ts[0] < rate.duration && ts[d] - ts[0] < rate.duration
  }

  lemma WideRateRefuses(rate: Rate, ts: seq<real>, d: nat)
    requires 0 < d < |ts| && NeverDecreases(ts[..d]) && ts[d] < ts[d - 1] && WideRate(rate, ts, d)
    ensures !LastAnswer(rate, Plain(ts[..d + 1]), true)
  {
    var earlier, now := ts[..d], ts[d];
    AllKept(rate, earlier);
    LastOfReversed(earlier);
    PlainStep(ts[..d + 1]);
    assert ts[..d + 1][..d] == earlier;
    FullHistoryRefuses(rate, Reversed(earlier), ts[d - 1] + rate.duration, now);
  }

  lemma WideRateLeavesRoom(rate: Rate, ts: seq<real>, d: nat)
    requires 0 < d < |ts| && NeverDecreases(ts[..d]) && ts[d] < ts[d - 1] && WideRate(rate, ts, d)
    ensures CountWithin(Accepted(rate, Plain(ts[..d]), true), ts[d] - rate.duration, ts[d]) < d
  {
    var times := Reversed(ts[..d]);
    AllKept(rate, ts[..d]);
    assert times[0] == ts[d - 1];
    CountAtMost(times[1..], ts[d] - rate.duration, ts[d]);
  }

  /** The request at the first step back is refused, at a suitable rate, although its window is not full. */
  lemma SteppingBackRefusesEarly(ts: seq<real>, d: nat) returns (rate: Rate)
    requires 0 < d < |ts| && NeverDecreases(ts[..d]) && ts[d] < ts[d - 1]
    ensures rate.duration > 0.0 && RefusedEarly(rate, ts, d)
  {
    assert ts[..d][0] <= ts[..d][d - 1];
    rate := Rate(d, ts[d - 1] - ts[0] + 1.0);
    WideRateRefuses(rate, ts, d);
    WideRateLeavesRoom(rate, ts, d);
  }

  lemma RefusedIsNotByWindow(rate: Rate, ts: seq<real>, d: nat)
    requires d < |ts| && RefusedEarly(rate, ts, d)
    ensures !AnsweredByWindow(rate, ts, d + 1)
  {
    assert ts[..d + 1 - 1] == ts[..d];
  }

  lemma {:induction false} FirstStepBack(ts: seq<real>) returns (d: nat)
    requires !NeverDecreases(ts)
    ensures 0 < d < |ts| && NeverDecreases(ts[..d]) && ts[d] < ts[d - 1]
  {
    var n := |ts| - 1;
    if NeverDecreases(ts[..n]) {
      var i, j :| 0 <= i < j < |ts| && ts[i] > ts[j];
      assert j == n;
      assert ts[..n][i] <= ts[..n][n - 1];
      d := n;
    } else {
      d := FirstStepBack(ts[..n]);
      assert ts[..n][..d] == ts[..d];
    }
  }

  lemma SteadyAnswersByWindow(rate: Rate, ts: seq<real>, n: nat)
    requires NeverDecreases(ts) && rate.duration > 0.0 && 0 < n <= |ts|
    ensures AnsweredByWindow(rate, ts, n)
  {
    PlainStep(ts[..n]);
    assert ts[..n][..n - 1] == ts[..n - 1];
    PlainIsSteady(ts[..n]);
    RefusedExactlyWhenFull(rate, Plain(ts[..n]), true);
  }

  /**
   Every request is refused exactly when its window is full, at whatever rate, if and only if the
   clock never steps back.
   */
  lemma WindowExactWhenClockSteady(ts: seq<real>)
    ensures (forall rate: Rate, n: nat :: rate.duration > 0.0 && 0 < n <= |ts| ==> AnsweredByWindow(rate, ts, n))
        <==> NeverDecreases(ts)
  {
    if NeverDecreases(ts) {
      forall rate: Rate, n: nat | rate.duration > 0.0 && 0 < n <= |ts|
        ensures AnsweredByWindow(rate, ts, n)
      {
        SteadyAnswersByWindow(rate, ts, n);
      }
    } else {
      var d := FirstStepBack(ts);
      var rate := SteppingBackRefusesEarly(ts, d);
      RefusedIsNotByWindow(rate, ts, d);
    }
  }
}
