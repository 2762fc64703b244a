/** One-time codes and their resend counters, kept in the cache under a key per number and device. */
module Otp {
  import opened Wrappers

  const OTP_TTL := 600.0
  const RESENDS := 3

  /** A cached code; the cache returns it at times before `expiry`, and `ttl(key)` is the time left. */
  datatype Entry = Entry(resend: int, otp: string, expiry: real)

  type Cache = map<string, Entry>

  /** Whether a code may be sent, the seconds its key has left, and the code. */
  datatype Status = Status(ok: bool, ttl: real, otp: Option<string>)

  predicate Live(cache: Cache, key: string, now: real) {
    key in cache && now < cache[key].expiry
  }

  function RedisKey(number: string, deviceId: string, prefix: string, env: string): string {
    prefix + "__" + "otp_verify__" + number + "__" + deviceId + "__" + env
  }

  // ---------- The machine of a single key ----------

  /** One `get_status` call on the key's entry as the cache returns it; `code` is a newly generated one. */
  function Step(entry: Option<Entry>, now: real, ttl: real, resend: bool, code: string): (Entry, Status) {
    match entry
    case None => (Entry(RESENDS, code, now + ttl), Status(true, ttl, Some(code)))
    case Some(e) =>
      if e.resend > 0 && resend then (e.(resend := e.resend - 1), Status(true, e.expiry - now, Some(e.otp)))
      else (e, Status(false, e.expiry - now, None))
  }

  function Visible(cache: Cache, key: string, now: real): Option<Entry> {
    if Live(cache, key, now) then Some(cache[key]) else None
  }

  /** A single-key call as an update of the whole cache. */
  function StepCache(cache: Cache, key: string, now: real, ttl: real, resend: bool, code: string): (Cache, Status) {
    var (e, status) := Step(Visible(cache, key, now), now, ttl, resend, code);
    (cache[key := e], status)
  }

  class OtpCache {
    var cache: Cache

    method GetStatus(key: string, now: real, ttl: real, resend: bool, code: string) returns (status: Status)
      modifies this
      ensures (cache, status) == StepCache(old(cache), key, now, ttl, resend, code)
    {
      if Live(cache, key, now) {
        var entry := cache[key];
        if entry.resend > 0 && resend {
          var left := cache[key].expiry - now;
          cache := cache[key := Entry(entry.resend - 1, entry.otp, now + left)];
          return Status(true, cache[key].expiry - now, Some(entry.otp));
        } else {
          assert cache == cache[key := cache[key]];
          return Status(false, cache[key].expiry - now, None);
        }
      } else {
        cache := cache[key := Entry(RESENDS, code, now + ttl)];
        return Status(true, ttl, Some(code));
      }
    }

    method SetCacheHelper(entry: Entry, key: string, now: real) returns (status: Status)
      requires key in cache
      modifies this
      ensures cache == old(cache)[key := if entry.resend > 0
                                         then Entry(entry.resend - 1, entry.otp, old(cache)[key].expiry)
                                         else old(cache)[key]]
      ensures status == if entry.resend > 0 then Status(true, old(cache)[key].expiry - now, Some(entry.otp))
                        else Status(false, old(cache)[key].expiry - now, None)
    {
      if entry.resend > 0 {
        var left := cache[key].expiry - now;
        cache := cache[key := Entry(entry.resend - 1, entry.otp, now + left)];
        return Status(true, cache[key].expiry - now, Some(entry.otp));
      } else {
        assert cache == cache[key := cache[key]];
        return Status(false, cache[key].expiry - now, None);
      }
    }

    /** The four branches of `get_status_phone_email`. For distinct keys they are two independent single-key calls. */
    method GetStatusPhoneEmail(emailKey: string, phoneKey: string, now: real, emailCode: string, phoneCode: string)
      returns (email: Status, phone: Status)
      modifies this
      ensures (cache, email, phone) == Both(old(cache), emailKey, phoneKey, now, emailCode, phoneCode)
      ensures emailKey != phoneKey ==>
                (cache, email, phone) == InTurn(old(cache), emailKey, phoneKey, now, emailCode, phoneCode)
    {
      ghost var before := cache;
      var emailSet := Visible(cache, emailKey, now);
      var phoneSet := Visible(cache, phoneKey, now);
      if emailSet.Some? && phoneSet.Some? {
        email := SetCacheHelper(emailSet.value, emailKey, now);
        phone := SetCacheHelper(phoneSet.value, phoneKey, now);
      } else if emailSet.Some? {
        cache := cache[phoneKey := Entry(RESENDS, phoneCode, now + OTP_TTL)];
        phone := Status(true, OTP_TTL, Some(phoneCode));
        email := SetCacheHelper(emailSet.value, emailKey, now);
      } else if phoneSet.Some? {
        cache := cache[emailKey := Entry(RESENDS, emailCode, now + OTP_TTL)];
        email := Status(true, OTP_TTL, Some(emailCode));
        phone := SetCacheHelper(phoneSet.value, phoneKey, now);
      } else {
        cache := cache[emailKey := Entry(RESENDS, emailCode, now + OTP_TTL)];
        cache := cache[phoneKey := Entry(RESENDS, phoneCode, now + OTP_TTL)];
        email := Status(true, OTP_TTL, Some(emailCode));
        phone := Status(true, OTP_TTL, Some(phoneCode));
      }
      ghost var both := Both(before, emailKey, phoneKey, now, emailCode, phoneCode);
      assert cache == both.0 && email == both.1 && phone == both.2;
      if emailKey != phoneKey {
        BothIsInTurn(before, emailKey, phoneKey, now, emailCode, phoneCode);
      }
    }
  }

  // ---------- One lifetime of a key ----------

  datatype Call = Call(now: real, resend: bool)

  /** The entry after a creation at time `created` and the given calls. */
  function EntryAfter(created: real, ttl: real, code: string, calls: seq<Call>): Entry {
    if calls == [] then Step(None, created, ttl, true, code).0
    else
      var c := calls[|calls| - 1];
      Step(Some(EntryAfter(created, ttl, code, calls[..|calls| - 1])), c.now, ttl, c.resend, code).0
  }

  /** The answer to the last call, or to the creation if there is none. */
  function LastStatus(created: real, ttl: real, code: string, calls: seq<Call>): Status {
    if calls == [] then Step(None, created, ttl, true, code).1
    else
      var c := calls[|calls| - 1];
      Step(Some(EntryAfter(created, ttl, code, calls[..|calls| - 1])), c.now, ttl, c.resend, code).1
  }

  function Successes(created: real, ttl: real, code: string, calls: seq<Call>): nat {
    (if LastStatus(created, ttl, code, calls).ok then 1 else 0)
    + if calls == [] then 0 else Successes(created, ttl, code, calls[..|calls| - 1])
  }

  function ResendCalls(calls: seq<Call>): nat {
    if calls == [] then 0 else ResendCalls(calls[..|calls| - 1]) + if calls[|calls| - 1].resend then 1 else 0
  }

  function Min(a: int, b: int): int {
    if a <= b then a else b
  }

  /**
   Within one lifetime: the first call and then exactly the first three resends succeed, always
   with the same code; the counter stays in 0..3, and no call moves the expiry.
   */
  lemma {:induction false} OneLifetime(created: real, ttl: real, code: string, calls: seq<Call>)
    ensures var e := EntryAfter(created, ttl, code, calls);
            && e.otp == code && e.expiry == created + ttl && 0 <= e.resend <= 3
            && e.resend == 3 - Min(3, ResendCalls(calls))
    ensures Successes(created, ttl, code, calls) == 1 + Min(3, ResendCalls(calls)) <= 4
    ensures var s := LastStatus(created, ttl, code, calls);
            && s.ttl == created + ttl - (if calls == [] then created else calls[|calls| - 1].now)
            && s.otp == if s.ok then Some(code) else None
  {
    if calls != [] {
      OneLifetime(created, ttl, code, calls[..|calls| - 1]);
    }
  }

  // ---------- Two keys ----------

  /** The e-mail key's call and then the phone key's, each through the single-key machine. */
  function InTurn(cache: Cache, emailKey: string, phoneKey: string, now: real, emailCode: string, phoneCode: string)
    : (Cache, Status, Status)
  {
    var (c1, email) := StepCache(cache, emailKey, now, OTP_TTL, true, emailCode);
    var (c2, phone) := StepCache(c1, phoneKey, now, OTP_TTL, true, phoneCode);
    (c2, email, phone)
  }

  /** Both calls decided on the entries as they were before either. */
  function Both(cache: Cache, emailKey: string, phoneKey: string, now: real, emailCode: string, phoneCode: string)
    : (Cache, Status, Status)
  {
    var (e, email) := Step(Visible(cache, emailKey, now), now, OTP_TTL, true, emailCode);
    var (p, phone) := Step(Visible(cache, phoneKey, now), now, OTP_TTL, true, phoneCode);
    (cache[emailKey := e][phoneKey := p], email, phone)
  }

  lemma BothIsInTurn(cache: Cache, emailKey: string, phoneKey: string, now: real, emailCode: string, phoneCode: string)
    requires emailKey != phoneKey
    ensures Both(cache, emailKey, phoneKey, now, emailCode, phoneCode)
         == InTurn(cache, emailKey, phoneKey, now, emailCode, phoneCode)
  {
  }

  /** The two-key call refines two single-key machines, whatever the cache holds, exactly when the keys differ. */
  lemma IndependentExactlyWhenDistinct(emailKey: string, phoneKey: string)
    ensures (forall cache: Cache, now: real, emailCode: string, phoneCode: string ::
               Both(cache, emailKey, phoneKey, now, emailCode, phoneCode)
               == InTurn(cache, emailKey, phoneKey, now, emailCode, phoneCode))
        <==> emailKey != phoneKey
  {
    if emailKey != phoneKey {
      forall cache: Cache, now: real, emailCode: string, phoneCode: string
        ensures Both(cache, emailKey, phoneKey, now, emailCode, phoneCode)
             == InTurn(cache, emailKey, phoneKey, now, emailCode, phoneCode)
      {
        BothIsInTurn(cache, emailKey, phoneKey, now, emailCode, phoneCode);
      }
    } else {
      SameKeyIsNotInTurn(emailKey);
    }
  }

  lemma SameKeyIsNotInTurn(key: string)
    ensures Both(map[], key, key, 0.0, "", "") != InTurn(map[], key, key, 0.0, "", "")
  {
    assert Both(map[], key, key, 0.0, "", "").0[key].resend == 3;
    assert InTurn(map[], key, key, 0.0, "", "").0[key].resend == 2;
  }

  /** For one device, prefix and environment the keys differ exactly when the e-mail and the phone number do. */
  lemma KeysDifferWithNumbers(email: string, phone: string, deviceId: string, prefix: string, env: string)
    ensures RedisKey(email, deviceId, prefix, env) == RedisKey(phone, deviceId, prefix, env) <==> email == phone
  {
    var head := prefix + "__" + "otp_verify__";
    var tail := "__" + deviceId + "__" + env;
    assert RedisKey(email, deviceId, prefix, env) == head + email + tail;
    assert RedisKey(phone, deviceId, prefix, env) == head + phone + tail;
    var a, b := head + email + tail, head + phone + tail;
    assert a[|head|..|head| + |email|] == email;
    assert b[|head|..|head| + |phone|] == phone;
  }

  /** Nor do two devices, two prefixes or two environments share a key, the other parts being equal. */
  lemma KeysDifferWithOtherParts(
    number: string, deviceId: string, prefix: string, env: string, deviceId': string, prefix': string, env': string)
    ensures RedisKey(number, deviceId, prefix, env) == RedisKey(number, deviceId', prefix, env)
        <==> deviceId == deviceId'
    ensures RedisKey(number, deviceId, prefix, env) == RedisKey(number, deviceId, prefix', env) <==> prefix == prefix'
    ensures RedisKey(number, deviceId, prefix, env) == RedisKey(number, deviceId, prefix, env') <==> env == env'
  {
    var head := prefix + "__" + "otp_verify__" + number + "__";
    Middle(head, deviceId, deviceId', "__" + env);
    Middle("", prefix, prefix', "__" + "otp_verify__" + number + "__" + deviceId + "__" + env);
    Middle(head + deviceId + "__", env, env', "");
    KeyParts(number, deviceId, prefix, env);
    KeyParts(number, deviceId', prefix, env);
    KeyParts(number, deviceId, prefix', env);
    KeyParts(number, deviceId, prefix, env');
  }

  lemma KeyParts(number: string, deviceId: string, prefix: string, env: string)
    ensures var key := RedisKey(number, deviceId, prefix, env);
            var head := prefix + "__" + "otp_verify__" + number + "__";
            && key == head + deviceId + ("__" + env)
            && key == "" + prefix + ("__" + "otp_verify__" + number + "__" + deviceId + "__" + env)
            && key == head + deviceId + "__" + env + ""
  {
  }

  lemma Middle(head: string, a: string, b: string, tail: string)
    ensures head + a + tail == head + b + tail <==> a == b
  {
    var x, y := head + a + tail, head + b + tail;
    assert x[|head|..|head| + |a|] == a;
    assert y[|head|..|head| + |b|] == b;
  }

  // ---------- A lifetime in the whole cache ----------

  /** A `get_status` or `get_status_phone_email` call on the cache, with the keys it uses and newly generated codes. */
  datatype Op =
    | Single(key: string, now: real, ttl: real, resend: bool, code: string)
    | Pair(emailKey: string, phoneKey: string, now: real, emailCode: string, phoneCode: string)
  {
    predicate Touches(k: string) {
      if Single? then key == k else emailKey == k || phoneKey == k
    }

    predicate DistinctKeys() {
      Pair? ==> emailKey != phoneKey
    }

    function TtlFor(k: string): real
      requires Touches(k)
    {
      if Single? then ttl else OTP_TTL
    }

    function CodeFor(k: string): string
      requires Touches(k)
    {
      if Single? then code else if emailKey == k then emailCode else phoneCode
    }

    function CallOn(k: string): Call
      requires Touches(k)
    {
      Call(now, Pair? || resend)
    }
  }

  function Apply(cache: Cache, op: Op): Cache {
    match op
    case Single(key, now, ttl, resend, code) => StepCache(cache, key, now, ttl, resend, code).0
    case Pair(emailKey, phoneKey, now, emailCode, phoneCode) =>
      Both(cache, emailKey, phoneKey, now, emailCode, phoneCode).0
  }

  /** What the call answers about a key it touches. */
  function AnswerOn(cache: Cache, op: Op, k: string): Status
    requires op.Touches(k)
  {
    match op
    case Single(key, now, ttl, resend, code) => StepCache(cache, key, now, ttl, resend, code).1
    case Pair(emailKey, phoneKey, now, emailCode, phoneCode) =>
      var both := Both(cache, emailKey, phoneKey, now, emailCode, phoneCode);
      if emailKey == k then both.1 else both.2
  }

  function Run(cache: Cache, ops: seq<Op>): Cache {
    if ops == [] then cache else Apply(Run(cache, ops[..|ops| - 1]), ops[|ops| - 1])
  }

  /** The answers about one key over a run of calls on any keys. */
  function Answers(cache: Cache, ops: seq<Op>, k: string): seq<Status> {
    if ops == [] then []
    else
      var op := ops[|ops| - 1];
      Answers(cache, ops[..|ops| - 1], k)
      + if op.Touches(k) then [AnswerOn(Run(cache, ops[..|ops| - 1]), op, k)] else []
  }

  function CallsOn(ops: seq<Op>, k: string): seq<Call> {
    if ops == [] then []
    else
      var op := ops[|ops| - 1];
      CallsOn(ops[..|ops| - 1], k) + if op.Touches(k) then [op.CallOn(k)] else []
  }

  function Granted(answers: seq<Status>): nat {
    if answers == [] then 0 else Granted(answers[..|answers| - 1]) + if answers[|answers| - 1].ok then 1 else 0
  }

  /** A call on distinct keys does to each of them what the single-key machine does, and nothing to others. */
  lemma ApplyIsStep(cache: Cache, op: Op, k: string)
    requires op.DistinctKeys()
    ensures if op.Touches(k) then
              var step := Step(Visible(cache, k, op.now), op.now, op.TtlFor(k), op.CallOn(k).resend, op.CodeFor(k));
              k in Apply(cache, op) && Apply(cache, op)[k] == step.0 && AnswerOn(cache, op, k) == step.1
            else
              (k in Apply(cache, op) <==> k in cache) && (k in cache ==> Apply(cache, op)[k] == cache[k])
  {
  }

  /** Every call that touches the key comes while its entry is live. */
  predicate Within(ops: seq<Op>, k: string, expiry: real) {
    forall i :: 0 <= i < |ops| ==> ops[i].DistinctKeys() && (ops[i].Touches(k) ==> ops[i].now < expiry)
  }

  /** While the key is live, a call on the cache, single or two-key, is one step of the lifetime machine. */
  lemma LiveCallIsStep(cache: Cache, op: Op, k: string, created: real, ttl: real, code: string, calls: seq<Call>)
    requires k in cache && cache[k] == EntryAfter(created, ttl, code, calls)
    requires op.DistinctKeys() && op.Touches(k) && op.now < created + ttl
    ensures k in Apply(cache, op) && Apply(cache, op)[k] == EntryAfter(created, ttl, code, calls + [op.CallOn(k)])
    ensures AnswerOn(cache, op, k) == LastStatus(created, ttl, code, calls + [op.CallOn(k)])
  {
    var c := op.CallOn(k);
    assert Visible(cache, k, op.now) == Some(cache[k]) by {
      OneLifetime(created, ttl, code, calls);
    }
    ApplyIsStep(cache, op, k);
    MachineStep(created, ttl, code, calls, c, op.TtlFor(k), op.CodeFor(k));
  }

  /** On an existing entry the time to live and the new code of a call do not matter. */
  lemma MachineStep(created: real, ttl: real, code: string, calls: seq<Call>, c: Call, ttl': real, code': string)
    ensures Step(Some(EntryAfter(created, ttl, code, calls)), c.now, ttl', c.resend, code')
         == (EntryAfter(created, ttl, code, calls + [c]), LastStatus(created, ttl, code, calls + [c]))
  {
    assert (calls + [c])[..|calls|] == calls;
  }

  /** The answers in a lifetime are those of the machine, call by call. */
  function MachineAnswers(created: real, ttl: real, code: string, calls: seq<Call>): seq<Status> {
    if calls == [] then []
    else MachineAnswers(created, ttl, code, calls[..|calls| - 1]) + [LastStatus(created, ttl, code, calls)]
  }

  /** Calls on other keys and two-key calls may come in between: the key follows the machine of `OneLifetime`. */
  lemma {:induction false} CacheRunsMachine(
    cache: Cache, ops: seq<Op>, k: string, created: real, ttl: real, code: string)
    requires k in cache && cache[k] == EntryAfter(created, ttl, code, []) && Within(ops, k, created + ttl)
    ensures k in Run(cache, ops) && Run(cache, ops)[k] == EntryAfter(created, ttl, code, CallsOn(ops, k))
    ensures Answers(cache, ops, k) == MachineAnswers(created, ttl, code, CallsOn(ops, k))
  {
    if ops != [] {
      var op, earlier := ops[|ops| - 1], ops[..|ops| - 1];
      var calls := CallsOn(earlier, k);
      CacheRunsMachine(cache, earlier, k, created, ttl, code);
      if op.Touches(k) {
        LiveCallIsStep(Run(cache, earlier), op, k, created, ttl, code, calls);
        assert (calls + [op.CallOn(k)])[..|calls|] == calls;
      } else {
        ApplyIsStep(Run(cache, earlier), op, k);
        assert CallsOn(ops, k) == calls;
        assert Answers(cache, ops, k) == Answers(cache, earlier, k);
      }
    }
  }

  lemma {:induction false} MachineGrants(created: real, ttl: real, code: string, calls: seq<Call>)
    ensures var answers := MachineAnswers(created, ttl, code, calls);
            && 1 + Granted(answers) == Successes(created, ttl, code, calls)
            && forall i :: 0 <= i < |answers| && answers[i].ok ==> answers[i].otp == Some(code)
  {
    if calls != [] {
      var shorter := calls[..|calls| - 1];
      var last := LastStatus(created, ttl, code, calls);
      MachineGrants(created, ttl, code, shorter);
      OneLifetime(created, ttl, code, calls);
      var before := MachineAnswers(created, ttl, code, shorter);
      assert (before + [last])[..|before|] == before;
    }
  }

  /** A call that finds no entry, or finds it at its expiry or later, grants the new code for a whole time to live. */
  lemma ExpiredGrantsNew(cache: Cache, op: Op, k: string)
    requires op.DistinctKeys() && op.Touches(k) && (k in cache ==> cache[k].expiry <= op.now)
    ensures var ttl := if op.Single? then op.ttl else 600.0;
            && AnswerOn(cache, op, k) == Status(true, ttl, Some(op.CodeFor(k)))
            && k in Apply(cache, op) && Apply(cache, op)[k] == Entry(3, op.CodeFor(k), op.now + ttl)
  {
    ApplyIsStep(cache, op, k);
  }

  /**
   From the call that creates a key's entry, over any calls on any keys until it expires: a code is
   granted once at the creation and then for exactly the first three resends, at most four times in
   all and always the same one; the counter stays in 0..3 and the expiry never moves.
   */
  lemma OneLifetimeInCache(cache: Cache, first: Op, ops: seq<Op>, k: string)
    requires first.DistinctKeys() && first.Touches(k) && (k in cache ==> cache[k].expiry <= first.now)
    requires Within(ops, k, first.now + first.TtlFor(k))
    ensures var start := Apply(cache, first);
            var answers := [AnswerOn(cache, first, k)] + Answers(start, ops, k);
            && Granted(answers) == 1 + Min(3, ResendCalls(CallsOn(ops, k))) <= 4
            && (forall i :: 0 <= i < |answers| && answers[i].ok ==> answers[i].otp == Some(first.CodeFor(k)))
            && k in Run(start, ops)
            && var e := Run(start, ops)[k];
               0 <= e.resend <= 3 && e.otp == first.CodeFor(k) && e.expiry == first.now + first.TtlFor(k)
  {
    var start := Apply(cache, first);
    var created, ttl, code := first.now, first.TtlFor(k), first.CodeFor(k);
    ApplyIsStep(cache, first, k);
    CacheRunsMachine(start, ops, k, created, ttl, code);
    MachineGrants(created, ttl, code, CallsOn(ops, k));
    OneLifetime(created, ttl, code, CallsOn(ops, k));
    GrantedCons(AnswerOn(cache, first, k), Answers(start, ops, k));
  }

  lemma {:induction false} GrantedCons(a: Status, answers: seq<Status>)
    ensures Granted([a] + answers) == (if a.ok then 1 else 0) + Granted(answers)
  {
    if answers == [] {
      assert [a] + answers == [a] && [a][..0] == [];
    } else {
      GrantedCons(a, answers[..|answers| - 1]);
      assert ([a] + answers)[..|answers|] == [a] + answers[..|answers| - 1];
    }
  }
}
