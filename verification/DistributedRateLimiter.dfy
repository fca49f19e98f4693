/**
The Redis token bucket: the Lua script on one hash per key, the key's expiry, and the
two acquisition modes. Time is Redis' clock in whole milliseconds. Numbers are reals.
 */
module DistributedRateLimiter {
  import opened Wrappers
  import opened RateLimiter

  /** The stored hash with its expiry instant. */
  datatype Entry = Entry(tokens: real, updatedMs: int, expiresMs: int)

  datatype Reply = Reply(allowed: bool, waitMs: int)

  function Ceil(x: real): (n: int)
    ensures x <= n as real < x + 1.0
  {
    -((-x).Floor)
  }

  /** How long an idle bucket is kept: a minute, or two full refill windows. */
  function TtlMs(p: Params): int
    requires p.rate > 0.0
  {
    Ceil(Max(60.0, Seconds(p.capacity, p.rate) * 2.0) * 1000.0)
  }

  function ElapsedSeconds(updatedMs: int, nowMs: int): real {
    (if nowMs < updatedMs then 0 else nowMs - updatedMs) as real / 1000.0
  }

  function Tokens(e: Option<Entry>, p: Params, nowMs: int): real {
    match e
    case None => p.initial
    case Some(b) => Min(p.capacity, b.tokens + Gained(ElapsedSeconds(b.updatedMs, nowMs), p.rate))
  }

  /** The script on the entry it finds. */
  function Script(e: Option<Entry>, p: Params, ttlMs: int, nowMs: int): (Entry, Reply)
    requires p.rate > 0.0
  {
    var tokens := Tokens(e, p, nowMs);
    if tokens >= 1.0 then (Entry(tokens - 1.0, nowMs, nowMs + ttlMs), Reply(true, 0))
    else (Entry(tokens, nowMs, nowMs + ttlMs), Reply(false, Ceil(Seconds(1.0 - tokens, p.rate) * 1000.0)))
  }

  /** What a read of the key finds: a key is gone after its expiry instant. */
  function Live(e: Option<Entry>, nowMs: int): Option<Entry> {
    if e.Some? && nowMs <= e.value.expiresMs then e else None
  }

  // ---------------------------------------------------------------- runs on one key

  /** The script at the given instants; with `expiring`, as Redis runs it, otherwise on a
      store that never forgets. */
  function Final(e: Option<Entry>, p: Params, ttlMs: int, times: seq<int>, expiring: bool): Option<Entry>
    requires p.rate > 0.0
  {
    if times == [] then e
    else
      var n := |times| - 1;
      var before := Final(e, p, ttlMs, times[..n], expiring);
      Some(Script(if expiring then Live(before, times[n]) else before, p, ttlMs, times[n]).0)
  }

  /** Whether the last of the given instants was granted. */
  function LastGranted(e: Option<Entry>, p: Params, ttlMs: int, times: seq<int>, expiring: bool): bool
    requires p.rate > 0.0 && times != []
  {
    var n := |times| - 1;
    var before := Final(e, p, ttlMs, times[..n], expiring);
    Script(if expiring then Live(before, times[n]) else before, p, ttlMs, times[n]).1.allowed
  }

  function Grants(e: Option<Entry>, p: Params, ttlMs: int, times: seq<int>, expiring: bool): nat
    requires p.rate > 0.0
  {
    if times == [] then 0
    else
      Grants(e, p, ttlMs, times[..|times| - 1], expiring)
      + if LastGranted(e, p, ttlMs, times, expiring) then 1 else 0
  }

  // ---------------------------------------------------------------- the server and its two callers

  /** The Redis server. Each script run is given the instant it reads. */
  class Redis {
    var entries: map<string, Entry>

    constructor ()
      ensures entries == map[]
    {
      entries := map[];
    }

    /** Running the script once; no reply when the connection fails, in which case it
        may or may not have run. */
    method Eval(key: string, p: Params, ttlMs: int, nowMs: int) returns (reply: Option<Reply>)
      requires p.rate > 0.0
      modifies this
      ensures var (e, r) := Script(Live(Lookup(old(entries), key), nowMs), p, ttlMs, nowMs);
              && (reply.Some? ==> reply.value == r && entries == old(entries)[key := e])
              && (entries == old(entries) || entries == old(entries)[key := e])
    {
      hide Gained, Seconds, Ceil;
      var reached: bool, answered: bool := *, *;
      if !reached {
        return None;
      }
      var tokens := p.initial;
      if key in entries && nowMs <= entries[key].expiresMs {
        var b := entries[key];
        var elapsed := Max(0.0, (nowMs - b.updatedMs) as real) / 1000.0;
        assert elapsed == ElapsedSeconds(b.updatedMs, nowMs);
        tokens := Min(p.capacity, b.tokens + Gained(elapsed, p.rate));
      }
      var allowed, waitMs := false, 0;
      if tokens >= 1.0 {
        tokens, allowed := tokens - 1.0, true;
      } else {
        waitMs := Ceil(Seconds(1.0 - tokens, p.rate) * 1000.0);
      }
      entries := entries[key := Entry(tokens, nowMs, nowMs + ttlMs)];
      return if answered then Some(Reply(allowed, waitMs)) else None;
    }
  }

  /** A name without the colons at its end. */
  function TrimColons(name: string): (r: string)
    ensures r <= name && forall i :: |r| <= i < |name| ==> name[i] == ':'
    ensures r == [] || r[|r| - 1] != ':'
  {
    if name != [] && name[|name| - 1] == ':' then TrimColons(name[..|name| - 1]) else name
  }

  /** How a wait ends: with a token, with Redis' error, or still waiting after the last of
      the rounds it was given. */
  datatype Waited = Acquired | RedisError | StillWaiting

  /** The most, in milliseconds, by which a steady clock lets a sleep or a call overshoot. */
  const SLACK_MS := 15_000

  /** Redis' clock as the waiting worker meets it. A steady one never steps back and runs on
      by no more than the slack; any other may do anything. */
  class ServerClock {
    var nowMs: int

    constructor (t: int)
      ensures nowMs == t
    {
      nowMs := t;
    }

    method Read(steady: bool) returns (t: int)
      modifies this
      ensures t == nowMs
      ensures steady ==> old(nowMs) <= nowMs <= old(nowMs) + SLACK_MS
    {
      var d: int := *;
      if !steady || 0 <= d <= SLACK_MS {
        nowMs := nowMs + d;
      }
      t := nowMs;
    }

    method Sleep(ms: int, steady: bool)
      modifies this
      ensures steady ==> old(nowMs) + ms <= nowMs <= old(nowMs) + ms + SLACK_MS
    {
      var d: int := *;
      nowMs := nowMs + ms;
      if !steady || 0 <= d <= SLACK_MS {
        nowMs := nowMs + d;
      }
    }
  }

  class RedisTokenBucketRateLimiter {
    const redis: Redis
    const namespace: string

    constructor (redis: Redis, namespace: string)
      ensures this.redis == redis && this.namespace == TrimColons(namespace)
    {
      this.redis, this.namespace := redis, TrimColons(namespace);
    }

    /** Different keys have different entries, all of them in the namespace. */
    function RedisKey(key: string): (k: string)
      ensures namespace + ":" <= k && k[|namespace| + 1..] == key
    {
      namespace + ":" + key
    }

    /** Take a token if one is there; allow when Redis does not answer. Only the key's own
        entry can change. */
    method TryAcquire(key: string, rate: real, capacity: Option<real>, nowMs: int) returns (ok: bool, answered: bool)
      modifies redis
      ensures rate <= 0.0 ==> ok && redis.entries == old(redis.entries)
      ensures rate > 0.0 ==>
        var p := Resolve(rate, capacity);
        var k := RedisKey(key);
        var (e, reply) := Script(Live(Lookup(old(redis.entries), k), nowMs), p, TtlMs(p), nowMs);
        && (answered ==> ok == reply.allowed && redis.entries == old(redis.entries)[k := e])
        && (!answered ==> ok)
        && (redis.entries == old(redis.entries) || redis.entries == old(redis.entries)[k := e])
    {
      hide Gained, Seconds, Ceil, Script;
      if rate <= 0.0 {
        return true, false;
      }
      var p := Resolve(rate, capacity);
      var reply := redis.Eval(RedisKey(key), p, TtlMs(p), nowMs);
      return reply.None? || reply.value.allowed, reply.Some?;
    }

    /** Try, and sleep as long as the script says, until a token is taken, nobody else using
        the key, for at most `patience` rounds: every round but the last is refused, and a
        wait that ends well has taken exactly one token. On a steady clock, with a bucket
        that can hold a token, there is no third round: the sleep is long enough, and the
        key has not expired. A bucket whose capacity is below one never gives a token. */
    method Acquire(key: string, rate: real, capacity: Option<real>, clock: ServerClock, patience: nat, steady: bool)
      returns (outcome: Waited, rounds: nat, ghost instants: seq<int>)
      modifies redis, clock
      ensures rate <= 0.0 ==> outcome == Acquired && rounds == 0 && redis.entries == old(redis.entries)
      ensures rate > 0.0 ==>
        var p := Resolve(rate, capacity);
        var k := RedisKey(key);
        var e := Lookup(old(redis.entries), k);
        && |instants| == rounds <= patience
        && (outcome != RedisError ==>
              && Grants(e, p, TtlMs(p), instants, true) == (if outcome == Acquired then 1 else 0)
              && Lookup(redis.entries, k) == Final(e, p, TtlMs(p), instants, true))
        && (outcome == Acquired ==> rounds > 0 && LastGranted(e, p, TtlMs(p), instants, true))
        && (outcome == StillWaiting ==> rounds == patience)
        && (steady && CanHold(e, p) && patience >= 2 ==> outcome != StillWaiting && rounds <= 2)
        && (p.capacity < 1.0 ==> outcome != Acquired)
    {
      hide Gained, Seconds, Ceil, Script, CanHold, TtlMs, Resolve, Live, Final, Grants, LastGranted, DueMs, Sensible;
      outcome, rounds, instants := Acquired, 0, [];
      if rate <= 0.0 {
        return;
      }
      var p := Resolve(rate, capacity);
      ResolvedIsSensible(rate, capacity);
      var k := RedisKey(key);
      ghost var e := Lookup(redis.entries, k);
      NoRounds(e, p, TtlMs(p));
      while rounds < patience
        invariant |instants| == rounds <= patience
        invariant Grants(e, p, TtlMs(p), instants, true) == 0
        invariant Lookup(redis.entries, k) == Final(e, p, TtlMs(p), instants, true)
        invariant steady && CanHold(e, p) ==> rounds <= 1
        invariant steady && CanHold(e, p) && rounds == 1 ==>
          DueMs(e, p, instants[0]) <= clock.nowMs <= DueMs(e, p, instants[0]) + SLACK_MS
      {
        var now := clock.Read(steady);
        var reply := redis.Eval(k, p, TtlMs(p), now);
        RoundSnoc(e, p, TtlMs(p), instants, now);
        if p.capacity < 1.0 {
          NeverGranted(e, p, TtlMs(p), instants + [now], true);
        }
        if steady && CanHold(e, p) && rounds == 1 {
          assert instants == [instants[0]];
          SecondRoundIsGranted(e, p, instants[0], now);
        }
        instants := instants + [now];
        rounds := rounds + 1;
        if reply.None? {
          return RedisError, rounds, instants;
        }
        if reply.value.allowed {
          return;
        }
        if CanHold(e, p) && rounds == 1 {
          assert instants == [now];
          RefusalWaits(e, p, now);
        }
        clock.Sleep(if reply.value.waitMs < 1 then 1 else reply.value.waitMs, steady);
      }
      outcome := StillWaiting;
    }
  }

  /** When the wait that follows a refusal at `t` is over. */
  function DueMs(e: Option<Entry>, p: Params, t: int): int
    requires p.rate > 0.0
  {
    t + Script(Live(e, t), p, TtlMs(p), t).1.waitMs
  }

  lemma NoRounds(e: Option<Entry>, p: Params, ttl: int)
    requires p.rate > 0.0
    ensures Grants(e, p, ttl, [], true) == 0 && Final(e, p, ttl, [], true) == e
  {
  }

  /** A bucket below one token grants nothing, whatever it held before and whenever asked. */
  lemma {:induction false} NeverGranted(e: Option<Entry>, p: Params, ttl: int, times: seq<int>, expiring: bool)
    requires Sensible(p) && p.capacity < 1.0
    ensures Grants(e, p, ttl, times, expiring) == 0
    ensures times != [] ==> !LastGranted(e, p, ttl, times, expiring)
    decreases |times|
  {
    hide TtlMs, Ceil, Live, Final;
    if times != [] {
      NeverGranted(e, p, ttl, times[..|times| - 1], expiring);
    }
  }

  lemma RoundSnoc(e: Option<Entry>, p: Params, ttl: int, front: seq<int>, t: int)
    requires p.rate > 0.0
    ensures var (e', r) := Script(Live(Final(e, p, ttl, front, true), t), p, ttl, t);
            && Final(e, p, ttl, front + [t], true) == Some(e')
            && LastGranted(e, p, ttl, front + [t], true) == r.allowed
            && Grants(e, p, ttl, front + [t], true) ==
               (if r.allowed then Grants(e, p, ttl, front, true) + 1 else Grants(e, p, ttl, front, true))
  {
    hide Script, Live;
    assert (front + [t])[..|front|] == front;
  }

  /** A bucket that can hold a whole token, with a number of tokens that it can have. */
  predicate CanHold(e: Option<Entry>, p: Params) {
    p.capacity >= 1.0 && (e.Some? ==> InRange(e.value.tokens, p))
  }

  lemma RefusalWaits(e: Option<Entry>, p: Params, t: int)
    requires Sensible(p) && CanHold(e, p) && !Script(Live(e, t), p, TtlMs(p), t).1.allowed
    ensures DueMs(e, p, t) == t + Script(Live(e, t), p, TtlMs(p), t).1.waitMs > t
  {
    hide Gained, Seconds, Ceil, TtlMs, Script;
    RetryAfterWaitIsGranted(Live(e, t), p, t, t);
  }

  /** After a refusal at `t1`, a try as much later as the script said, give or take the
      slack of a sleep and of a call, is granted. */
  lemma SecondRoundIsGranted(e: Option<Entry>, p: Params, t1: int, t2: int)
    requires Sensible(p) && CanHold(e, p) && Grants(e, p, TtlMs(p), [t1], true) == 0
    requires DueMs(e, p, t1) <= t2 <= DueMs(e, p, t1) + 2 * SLACK_MS
    ensures Script(Live(Final(e, p, TtlMs(p), [t1], true), t2), p, TtlMs(p), t2).1.allowed
  {
    hide Gained, Seconds, Ceil, TtlMs, Script;
    assert Final(e, p, TtlMs(p), [], true) == e;
    RoundSnoc(e, p, TtlMs(p), [], t1);
    assert [] + [t1] == [t1];
    RetryAfterWaitIsGranted(Live(e, t1), p, t1, t2);
  }

  predicate Ordered(times: seq<int>) {
    forall i, j :: 0 <= i < j < |times| ==> times[i] <= times[j]
  }

  // ---------------------------------------------------------------- refinement

  /** The same bucket in seconds. */
  predicate Same(b: Option<Bucket>, e: Option<Entry>) {
    match (b, e)
    case (None, None) => true
    case (Some(x), Some(y)) => x.tokens == y.tokens && x.last == y.updatedMs as real / 1000.0
    case _ => false
  }

  /** Step for step, on an instant no earlier than the last one, the script grants exactly
      when the in-process bucket does and leaves the same bucket. */
  lemma ScriptRefinesBucket(b: Option<Bucket>, e: Option<Entry>, p: Params, ttlMs: int, nowMs: int)
    requires p.rate > 0.0 && p.initial <= p.capacity && Same(b, e)
    requires e.Some? ==> e.value.updatedMs <= nowMs
    ensures var (b', ok) := TryOnce(b, p, nowMs as real / 1000.0);
            var (e', reply) := Script(e, p, ttlMs, nowMs);
            Same(Some(b'), Some(e')) && ok == reply.allowed
  {
    hide Gained, Seconds, Ceil;
    if e.Some? {
      var u := e.value.updatedMs;
      assert (nowMs - u) as real / 1000.0 == nowMs as real / 1000.0 - u as real / 1000.0;
    }
  }

  function BucketAfter(p: Params, times: seq<int>): Option<Bucket> {
    if times == [] then None
    else Some(TryOnce(BucketAfter(p, times[..|times| - 1]), p, times[|times| - 1] as real / 1000.0).0)
  }

  function BucketGranted(p: Params, times: seq<int>): bool
    requires times != []
  {
    TryOnce(BucketAfter(p, times[..|times| - 1]), p, times[|times| - 1] as real / 1000.0).1
  }

  /** Whole runs: at every call of every run from an absent key, the never-forgetting
      script and the in-process bucket give the same answer. */
  lemma {:induction false} RunRefines(rate: real, capacity: Option<real>, ttlMs: int, times: seq<int>)
    requires rate > 0.0 && Ordered(times)
    ensures var p := Resolve(rate, capacity);
            && Same(BucketAfter(p, times), Final(None, p, ttlMs, times, false))
            && (times != [] ==> BucketGranted(p, times) == LastGranted(None, p, ttlMs, times, false)
                                && Final(None, p, ttlMs, times, false).value.updatedMs == times[|times| - 1])
  {
    if times != [] {
      var p := Resolve(rate, capacity);
      var n := |times| - 1;
      RunRefines(rate, capacity, ttlMs, times[..n]);
      ScriptRefinesBucket(BucketAfter(p, times[..n]), Final(None, p, ttlMs, times[..n], false), p, ttlMs, times[n]);
    }
  }

  // ---------------------------------------------------------------- expiry

  /** Parameters as `Resolve` produces them. */
  predicate Sensible(p: Params) {
    p.rate > 0.0 && p.initial <= p.capacity && (if p.capacity < 0.0 then p.initial == p.capacity else p.initial >= 0.0)
  }

  lemma ResolvedIsSensible(rate: real, capacity: Option<real>)
    requires rate > 0.0
    ensures Sensible(Resolve(rate, capacity))
  {
  }

  predicate InRange(tokens: real, p: Params) {
    tokens <= p.capacity && (if p.capacity < 0.0 then tokens == p.capacity else tokens >= 0.0)
  }

  /** The time-to-live covers two full refills. */
  lemma TtlCoversRefill(p: Params, ms: int)
    requires p.rate > 0.0 && TtlMs(p) <= ms
    ensures ms >= 60000
    ensures Gained(ms as real / 1000.0, p.rate) >= 2.0 * p.capacity
  {
    hide Gained, Seconds;
    var window := Seconds(p.capacity, p.rate);
    GainedInSeconds(p.capacity, p.rate);
    GainedAdds(window, window, p.rate);
    GainedMonotone(window + window, ms as real / 1000.0, p.rate);
  }

  /** It is the least whole number of milliseconds that is no less than a minute and than
      twice the time a whole refill takes. */
  lemma TtlIsLeast(p: Params, ms: int)
    requires p.rate > 0.0
    ensures TtlMs(p) <= ms <==> ms >= 60_000 && ms as real >= 2.0 * (p.capacity / p.rate) * 1000.0
  {
    var x := Max(60.0, Seconds(p.capacity, p.rate) * 2.0) * 1000.0;
    assert TtlMs(p) == Ceil(x);
    CeilIsLeast(x, ms);
  }

  lemma CeilIsLeast(x: real, n: int)
    ensures Ceil(x) <= n <==> x <= n as real
  {
  }

  /** Untouched for its time-to-live, a bucket that is never forgotten is full. */
  lemma FullAfterTtl(b: Entry, p: Params, nowMs: int)
    requires Sensible(p) && InRange(b.tokens, p) && nowMs - b.updatedMs >= TtlMs(p)
    ensures Tokens(Some(b), p, nowMs) == p.capacity
  {
    hide Gained, TtlMs;
    TtlCoversRefill(p, nowMs - b.updatedMs);
    GainedMonotone(0.0, ElapsedSeconds(b.updatedMs, nowMs), p.rate);
  }

  lemma StaysInRange(e: Option<Entry>, p: Params, ttlMs: int, nowMs: int)
    requires Sensible(p) && (e.Some? ==> InRange(e.value.tokens, p))
    ensures InRange(Script(e, p, ttlMs, nowMs).0.tokens, p)
    ensures e.Some? ==> Tokens(e, p, nowMs) >= Min(p.capacity, e.value.tokens)
  {
    hide Gained, Seconds, Ceil;
    if e.Some? {
      GainedMonotone(0.0, ElapsedSeconds(e.value.updatedMs, nowMs), p.rate);
    }
  }

  /** `low` is ahead of `high` in tokens by at most the grants it is behind. */
  predicate Behind(low: Option<Entry>, gl: nat, high: Option<Entry>, gh: nat, p: Params, ttlMs: int) {
    && gl <= gh
    && (low.None? <==> high.None?)
    && (low.Some? ==>
          && low.value.updatedMs == high.value.updatedMs
          && low.value.expiresMs == low.value.updatedMs + ttlMs
          && InRange(low.value.tokens, p) && InRange(high.value.tokens, p)
          && low.value.tokens - high.value.tokens <= (gh - gl) as real)
  }

  lemma ConsumeStep(tl: real, gl: nat, th: real, gh: nat)
    requires gl <= gh && tl - th <= (gh - gl) as real
    ensures var (gl', tl') := if tl >= 1.0 then (gl + 1, tl - 1.0) else (gl, tl);
            var (gh', th') := if th >= 1.0 then (gh + 1, th - 1.0) else (gh, th);
            gl' <= gh' && tl' - th' <= (gh' - gl') as real
  {
  }

  lemma TokensStep(low: Option<Entry>, gl: nat, high: Option<Entry>, gh: nat, p: Params, nowMs: int)
    requires Sensible(p) && Behind(low, gl, high, gh, p, TtlMs(p))
    requires low.Some? ==> low.value.updatedMs <= nowMs
    ensures Tokens(Live(low, nowMs), p, nowMs) - Tokens(high, p, nowMs) <= (gh - gl) as real
  {
    hide Gained, TtlMs;
    if low.Some? && Live(low, nowMs).None? {
      FullAfterTtl(high.value, p, nowMs);
    }
  }

  lemma BehindStep(low: Option<Entry>, gl: nat, high: Option<Entry>, gh: nat, p: Params, nowMs: int)
    requires Sensible(p) && Behind(low, gl, high, gh, p, TtlMs(p))
    requires low.Some? ==> low.value.updatedMs <= nowMs
    ensures var (l, rl) := Script(Live(low, nowMs), p, TtlMs(p), nowMs);
            var (h, rh) := Script(high, p, TtlMs(p), nowMs);
            Behind(Some(l), if rl.allowed then gl + 1 else gl, Some(h), if rh.allowed then gh + 1 else gh, p, TtlMs(p))
  {
    hide Gained, Seconds, TtlMs, Ceil, Tokens;
    StaysInRange(Live(low, nowMs), p, TtlMs(p), nowMs);
    StaysInRange(high, p, TtlMs(p), nowMs);
    TokensStep(low, gl, high, gh, p, nowMs);
    ConsumeStep(Tokens(Live(low, nowMs), p, nowMs), gl, Tokens(high, p, nowMs), gh);
  }

  /** Expiry never grants more: at every point of every run on ordered instants, the
      forgetting store has granted at most what a never-forgetting one has. */
  lemma {:induction false} ExpiryNeverGrantsMore(p: Params, times: seq<int>)
    requires Sensible(p) && Ordered(times)
    ensures Grants(None, p, TtlMs(p), times, true) <= Grants(None, p, TtlMs(p), times, false)
    ensures Behind(Final(None, p, TtlMs(p), times, true), Grants(None, p, TtlMs(p), times, true),
                   Final(None, p, TtlMs(p), times, false), Grants(None, p, TtlMs(p), times, false), p, TtlMs(p))
    ensures times != [] ==> Final(None, p, TtlMs(p), times, true).value.updatedMs == times[|times| - 1]
  {
    if times != [] {
      var n := |times| - 1;
      var ttl := TtlMs(p);
      ExpiryNeverGrantsMore(p, times[..n]);
      BehindStep(Final(None, p, ttl, times[..n], true), Grants(None, p, ttl, times[..n], true),
                 Final(None, p, ttl, times[..n], false), Grants(None, p, ttl, times[..n], false), p, times[n]);
    }
  }

  /** A key that starts full cannot be told from one that never expires. */
  lemma {:induction false} FullStartHidesExpiry(p: Params, times: seq<int>)
    requires Sensible(p) && p.initial == p.capacity && Ordered(times)
    ensures Final(None, p, TtlMs(p), times, true) == Final(None, p, TtlMs(p), times, false)
    ensures times != [] ==>
              && LastGranted(None, p, TtlMs(p), times, true) == LastGranted(None, p, TtlMs(p), times, false)
              && Final(None, p, TtlMs(p), times, true).value.updatedMs == times[|times| - 1]
              && Final(None, p, TtlMs(p), times, true).value.expiresMs == times[|times| - 1] + TtlMs(p)
              && InRange(Final(None, p, TtlMs(p), times, true).value.tokens, p)
  {
    if times != [] {
      var n := |times| - 1;
      var ttl := TtlMs(p);
      FullStartHidesExpiry(p, times[..n]);
      var before := Final(None, p, ttl, times[..n], true);
      StaysInRange(before, p, ttl, times[n]);
      if n > 0 && Live(before, times[n]).None? {
        FullAfterTtl(before.value, p, times[n]);
      }
    }
  }

  /** Expiry is invisible on every ordered run exactly for the callers who pass a
      capacity or a rate of at least one. */
  lemma ExpiryInvisibleIff(rate: real, capacity: Option<real>)
    requires rate > 0.0
    ensures var p := Resolve(rate, capacity);
            (forall times :: Ordered(times) && times != [] ==>
               LastGranted(None, p, TtlMs(p), times, true) == LastGranted(None, p, TtlMs(p), times, false))
            <==> capacity.Some? || rate >= 1.0
  {
    var p := Resolve(rate, capacity);
    var ttl := TtlMs(p);
    if capacity.Some? || rate >= 1.0 {
      forall times | Ordered(times) && times != []
        ensures LastGranted(None, p, ttl, times, true) == LastGranted(None, p, ttl, times, false)
      {
        FullStartHidesExpiry(p, times);
      }
    } else {
      SlowKeyForgets(p);
    }
  }

  /** A slow key with the default capacity: rejected at first, and rejected again once it
      has expired, when a bucket that was not forgotten would be full. */
  lemma SlowKeyForgets(p: Params)
    requires 0.0 < p.rate < 1.0 && p.capacity == 1.0 && p.initial == p.rate
    ensures Ordered([0, TtlMs(p) + 1])
    ensures !LastGranted(None, p, TtlMs(p), [0, TtlMs(p) + 1], true)
    ensures LastGranted(None, p, TtlMs(p), [0, TtlMs(p) + 1], false)
  {
    hide Gained, Seconds, Ceil;
    var ttl := TtlMs(p);
    var times := [0, ttl + 1];
    assert times[..1] == [0] && [0][..0] == [];
    var first := Entry(p.rate, 0, ttl);
    assert Script(None, p, ttl, 0).0 == first;
    assert Final(None, p, ttl, [], true) == None && Final(None, p, ttl, [], false) == None;
    assert Final(None, p, ttl, times[..1], true) == Some(first);
    assert Final(None, p, ttl, times[..1], false) == Some(first);
    TtlCoversRefill(p, ttl);
    FullAfterTtl(first, p, ttl + 1);
  }

  // ---------------------------------------------------------------- waiting

  /** After a rejection, an undisturbed retry before the key expires is granted exactly if it
      comes at least the returned wait later; and the wait does end before the expiry. */
  lemma RetryAfterWaitIsGranted(e: Option<Entry>, p: Params, t1: int, t2: int)
    requires Sensible(p) && p.capacity >= 1.0 && (e.Some? ==> InRange(e.value.tokens, p))
    requires !Script(e, p, TtlMs(p), t1).1.allowed
    ensures var (b, reply) := Script(e, p, TtlMs(p), t1);
            && 1 <= reply.waitMs && reply.waitMs + 2 * SLACK_MS <= TtlMs(p)
            && (t1 <= t2 <= t1 + TtlMs(p) ==>
                  (Script(Live(Some(b), t2), p, TtlMs(p), t2).1.allowed <==> t1 + reply.waitMs <= t2))
  {
    hide Gained, Seconds, TtlMs, Ceil;
    var (b, reply) := Script(e, p, TtlMs(p), t1);
    StaysInRange(e, p, TtlMs(p), t1);
    WaitIsShort(b.tokens, p);
    if t1 <= t2 <= t1 + TtlMs(p) {
      WaitIsExact(b.tokens, p, t2 - t1);
    }
  }

  lemma WaitIsExact(tokens: real, p: Params, ms: int)
    requires p.rate > 0.0
    ensures tokens + Gained(ms as real / 1000.0, p.rate) >= 1.0 <==> Ceil(Seconds(1.0 - tokens, p.rate) * 1000.0) <= ms
  {
    hide Gained, Seconds;
    CeilIsLeast(Seconds(1.0 - tokens, p.rate) * 1000.0, ms);
    var need := Seconds(1.0 - tokens, p.rate);
    GainedInSeconds(1.0 - tokens, p.rate);
    GainedMonotone(need, ms as real / 1000.0, p.rate);
  }

  lemma WaitIsShort(tokens: real, p: Params)
    requires p.rate > 0.0 && p.capacity >= 1.0 && 0.0 <= tokens < 1.0
    ensures 1 <= Ceil(Seconds(1.0 - tokens, p.rate) * 1000.0)
    ensures Ceil(Seconds(1.0 - tokens, p.rate) * 1000.0) + 2 * SLACK_MS <= TtlMs(p)
  {
    hide Gained, Seconds;
    var need := Seconds(1.0 - tokens, p.rate);
    var window := Seconds(p.capacity, p.rate);
    GainedInSeconds(1.0 - tokens, p.rate);
    GainedInSeconds(p.capacity, p.rate);
    GainedMonotone(need, window, p.rate);
    GainedMonotone(need, 0.0, p.rate);
    assert need * 1000.0 + 30000.0 <= Max(60.0, window * 2.0) * 1000.0;
  }

  // ---------------------------------------------------------------- the window bound

  /** The forward steps of a clock, in seconds. */
  function Forward(times: seq<int>): real {
    if |times| <= 1 then 0.0
    else Forward(times[..|times| - 1]) + ElapsedSeconds(times[|times| - 2], times[|times| - 1])
  }

  /** Tokens left and tokens granted stay within one full bucket plus `refill`. */
  predicate Within(tokens: real, g: nat, p: Params, refill: real) {
    tokens + g as real <= p.capacity + refill && g as real <= p.capacity + refill
  }

  lemma SpendWithin(tokens: real, g: nat, p: Params, refill: real)
    requires Within(tokens, g, p, refill)
    ensures if tokens >= 1.0 then Within(tokens - 1.0, g + 1, p, refill) else Within(tokens, g, p, refill)
  {
  }

  /** A time-to-live long enough to refill the bucket. */
  predicate Covers(ttlMs: int, p: Params) {
    ttlMs > 0 && Gained(ttlMs as real / 1000.0, p.rate) >= p.capacity
  }

  /** What Redis does on one key: the script runs, or Redis looks at its clock on its own
      account and deletes the key if it has expired. */
  datatype Instant = Call(ms: int) | Sweep(ms: int)

  function Swept(e: Option<Entry>, p: Params, ttlMs: int, xs: seq<Instant>): Option<Entry>
    requires p.rate > 0.0
  {
    if xs == [] then e
    else
      var before := Swept(e, p, ttlMs, xs[..|xs| - 1]);
      match xs[|xs| - 1]
      case Call(t) => Some(Script(Live(before, t), p, ttlMs, t).0)
      case Sweep(t) => Live(before, t)
  }

  function SweptGrants(e: Option<Entry>, p: Params, ttlMs: int, xs: seq<Instant>): nat
    requires p.rate > 0.0
  {
    if xs == [] then 0
    else
      var front := xs[..|xs| - 1];
      SweptGrants(e, p, ttlMs, front) +
      match xs[|xs| - 1]
      case Call(t) => if Script(Live(Swept(e, p, ttlMs, front), t), p, ttlMs, t).1.allowed then 1 else 0
      case Sweep(_) => 0
  }

  /** The instants of the calls alone. */
  function Calls(xs: seq<Instant>): seq<int> {
    if xs == [] then []
    else Calls(xs[..|xs| - 1]) + if xs[|xs| - 1].Call? then [xs[|xs| - 1].ms] else []
  }

  /** A clock that never steps back. */
  predicate Forwards(xs: seq<Instant>) {
    |xs| > 1 ==> Forwards(xs[..|xs| - 1]) && xs[|xs| - 2].ms <= xs[|xs| - 1].ms
  }

  /** On a clock that never steps back nobody can tell when, or whether, Redis deletes an
      expired key before it is next used. */
  lemma {:induction false} SweepsAreUnseen(e: Option<Entry>, p: Params, ttlMs: int, xs: seq<Instant>, t: int)
    requires p.rate > 0.0 && Forwards(xs) && (xs != [] ==> xs[|xs| - 1].ms <= t)
    ensures SweptGrants(e, p, ttlMs, xs) == Grants(e, p, ttlMs, Calls(xs), true)
    ensures Live(Swept(e, p, ttlMs, xs), t) == Live(Final(e, p, ttlMs, Calls(xs), true), t)
    decreases |xs|
  {
    hide Script, Live, Grants, Final;
    if xs == [] {
      NoRounds(e, p, ttlMs);
    } else {
      var front, x := xs[..|xs| - 1], xs[|xs| - 1];
      SweepsAreUnseen(e, p, ttlMs, front, x.ms);
      SweepsAreUnseen(e, p, ttlMs, front, t);
      if x.Call? {
        assert Calls(xs) == Calls(front) + [x.ms];
        RoundSnoc(e, p, ttlMs, Calls(front), x.ms);
      } else {
        assert Calls(xs) == Calls(front);
        LiveTwice(Swept(e, p, ttlMs, front), x.ms, t);
      }
    }
  }

  lemma LiveTwice(e: Option<Entry>, sooner: int, later: int)
    requires sooner <= later
    ensures Live(Live(e, sooner), later) == Live(e, later)
  {
  }

  /** `g` grants are covered by the refill so far, or are within a full bucket and the refill
      up to when the stored bucket was written. */
  predicate Covered(e: Option<Entry>, g: nat, p: Params, ttlMs: int, nowMs: int, refill: real) {
    && (e.Some? ==> InRange(e.value.tokens, p))
    && (|| g as real <= refill
        || (&& e.Some? && e.value.expiresMs == e.value.updatedMs + ttlMs
            && Within(e.value.tokens, g, p, refill - Gained(ElapsedSeconds(e.value.updatedMs, nowMs), p.rate))))
  }

  lemma ElapsedTriangle(u: int, v: int, w: int)
    ensures 0.0 <= ElapsedSeconds(u, w) <= ElapsedSeconds(u, v) + ElapsedSeconds(v, w)
  {
  }

  /** The clock moves on, or back. */
  lemma ClockKeepsCovered(e: Option<Entry>, g: nat, p: Params, ttlMs: int, v: int, w: int, refill: real)
    requires p.rate > 0.0 && Covered(e, g, p, ttlMs, v, refill)
    ensures Covered(e, g, p, ttlMs, w, refill + Gained(ElapsedSeconds(v, w), p.rate))
  {
    hide Gained, ElapsedSeconds;
    ElapsedTriangle(v, v, w);
    GainedMonotone(0.0, ElapsedSeconds(v, w), p.rate);
    if e.Some? {
      var u := e.value.updatedMs;
      ElapsedTriangle(u, v, w);
      GainedAdds(ElapsedSeconds(u, v), ElapsedSeconds(v, w), p.rate);
      GainedMonotone(ElapsedSeconds(u, w), ElapsedSeconds(u, v) + ElapsedSeconds(v, w), p.rate);
    }
  }

  /** A key that has expired has had the time to refill. */
  lemma ExpiryKeepsCovered(e: Option<Entry>, g: nat, p: Params, ttlMs: int, nowMs: int, refill: real)
    requires p.rate > 0.0 && p.capacity >= 0.0 && Covers(ttlMs, p) && Covered(e, g, p, ttlMs, nowMs, refill)
    ensures Covered(Live(e, nowMs), g, p, ttlMs, nowMs, refill)
  {
    hide Gained;
    if e.Some? && Live(e, nowMs).None? && !(g as real <= refill) {
      GainedMonotone(ttlMs as real / 1000.0, ElapsedSeconds(e.value.updatedMs, nowMs), p.rate);
    }
  }

  lemma CallKeepsCovered(found: Option<Entry>, g: nat, p: Params, ttlMs: int, nowMs: int, refill: real)
    requires Sensible(p) && p.capacity >= 0.0 && refill >= 0.0 && Covered(found, g, p, ttlMs, nowMs, refill)
    ensures var (e, r) := Script(found, p, ttlMs, nowMs);
            Covered(Some(e), if r.allowed then g + 1 else g, p, ttlMs, nowMs, refill)
  {
    hide Gained, Seconds, Ceil;
    StaysInRange(found, p, ttlMs, nowMs);
    if found.Some? {
      GainedMonotone(0.0, ElapsedSeconds(found.value.updatedMs, nowMs), p.rate);
    }
    GainedMonotone(0.0, 0.0, p.rate);
    SpendWithin(Tokens(found, p, nowMs), g, p, refill);
  }

  function Moments(xs: seq<Instant>): seq<int> {
    seq(|xs|, i requires 0 <= i < |xs| => xs[i].ms)
  }

  /** What the clock's forward steps refill. */
  function RefillOver(p: Params, xs: seq<Instant>): real {
    Gained(Forward(Moments(xs)), p.rate)
  }

  lemma RefillSnoc(p: Params, xs: seq<Instant>)
    requires p.rate > 0.0 && xs != []
    ensures RefillOver(p, xs) ==
              if |xs| == 1 then 0.0
              else RefillOver(p, xs[..|xs| - 1]) + Gained(ElapsedSeconds(xs[|xs| - 2].ms, xs[|xs| - 1].ms), p.rate)
  {
    hide Gained, ElapsedSeconds;
    var n := |xs| - 1;
    assert Moments(xs)[..n] == Moments(xs[..n]);
    GainedMonotone(0.0, 0.0, p.rate);
    if n > 0 {
      GainedAdds(Forward(Moments(xs[..n])), ElapsedSeconds(xs[n - 1].ms, xs[n].ms), p.rate);
    }
  }

  lemma {:induction false} ForwardIsForward(times: seq<int>)
    ensures Forward(times) >= 0.0
  {
    if |times| > 1 {
      ForwardIsForward(times[..|times| - 1]);
    }
  }

  /** Reading the clock, then the script or Redis' own deletion. */
  lemma InstantKeepsCovered(e: Option<Entry>, g: nat, p: Params, ttlMs: int, x: Instant, refill: real)
    requires Sensible(p) && p.capacity >= 0.0 && refill >= 0.0 && Covers(ttlMs, p)
    requires Covered(e, g, p, ttlMs, x.ms, refill)
    ensures match x
            case Call(t) =>
              var (e', r) := Script(Live(e, t), p, ttlMs, t);
              Covered(Some(e'), if r.allowed then g + 1 else g, p, ttlMs, t, refill)
            case Sweep(t) => Covered(Live(e, t), g, p, ttlMs, t, refill)
  {
    hide Script, Covered, Covers, Live;
    ExpiryKeepsCovered(e, g, p, ttlMs, x.ms, refill);
    if x.Call? {
      CallKeepsCovered(Live(e, x.ms), g, p, ttlMs, x.ms, refill);
    }
  }

  lemma {:induction false} RunKeepsCovered(e: Option<Entry>, p: Params, ttlMs: int, xs: seq<Instant>)
    requires Sensible(p) && p.capacity >= 0.0 && Covers(ttlMs, p) && xs != []
    requires e.Some? ==> InRange(e.value.tokens, p)
    ensures Covered(Swept(e, p, ttlMs, xs), SweptGrants(e, p, ttlMs, xs), p, ttlMs, xs[|xs| - 1].ms, RefillOver(p, xs))
  {
    hide Script, Live, Covers, RefillOver, Covered;
    var n := |xs| - 1;
    var front := xs[..n];
    RefillIsNotNegative(p, xs);
    RefillSnoc(p, xs);
    if n == 0 {
      assert front == [];
      NothingGranted(e, p, ttlMs, xs[0].ms);
      InstantKeepsCovered(e, 0, p, ttlMs, xs[0], 0.0);
    } else {
      RunKeepsCovered(e, p, ttlMs, front);
      var before, g := Swept(e, p, ttlMs, front), SweptGrants(e, p, ttlMs, front);
      ClockKeepsCovered(before, g, p, ttlMs, xs[n - 1].ms, xs[n].ms, RefillOver(p, front));
      InstantKeepsCovered(before, g, p, ttlMs, xs[n], RefillOver(p, xs));
    }
  }

  lemma NothingGranted(e: Option<Entry>, p: Params, ttlMs: int, nowMs: int)
    requires e.Some? ==> InRange(e.value.tokens, p)
    ensures Covered(e, 0, p, ttlMs, nowMs, 0.0)
  {
  }

  lemma RefillIsNotNegative(p: Params, xs: seq<Instant>)
    requires p.rate > 0.0
    ensures RefillOver(p, xs) >= 0.0
  {
    hide Gained, Forward;
    ForwardIsForward(Moments(xs));
    GainedMonotone(0.0, Forward(Moments(xs)), p.rate);
  }

  lemma CapacityBound(e: Option<Entry>, p: Params, xs: seq<Instant>)
    requires Sensible(p) && p.capacity >= 0.0 && xs != []
    requires e.Some? ==> InRange(e.value.tokens, p)
    ensures SweptGrants(e, p, TtlMs(p), xs) as real <= p.capacity + Gained(Forward(Moments(xs)), p.rate)
  {
    hide Gained, Script, Live, TtlMs, Swept, SweptGrants, Forward;
    TtlCoversRefill(p, TtlMs(p));
    RunKeepsCovered(e, p, TtlMs(p), xs);
    var left := Swept(e, p, TtlMs(p), xs);
    if left.Some? {
      var since := ElapsedSeconds(left.value.updatedMs, xs[|xs| - 1].ms);
      GainedMonotone(0.0, since, p.rate);
    }
  }

  lemma {:induction false} SweptNeverGranted(e: Option<Entry>, p: Params, ttl: int, xs: seq<Instant>)
    requires Sensible(p) && p.capacity < 1.0
    ensures SweptGrants(e, p, ttl, xs) == 0
    decreases |xs|
  {
    hide TtlMs, Ceil, Live, Swept;
    if xs != [] {
      SweptNeverGranted(e, p, ttl, xs[..|xs| - 1]);
    }
  }

  /** Whatever the clock does, including stepping back, and whenever Redis looks at it and
      deletes an expired key: the grants of one key at fixed rate and capacity in any window
      are at most the burst, which is the capacity given or else the rate and at least one,
      plus the rate times the sum of the clock's forward steps. */
  lemma ForwardWindowBound(e: Option<Entry>, rate: real, capacity: Option<real>, xs: seq<Instant>)
    requires rate > 0.0 && xs != [] && (e.Some? ==> InRange(e.value.tokens, Resolve(rate, capacity)))
    ensures var burst := match capacity case None => (if rate < 1.0 then 1.0 else rate)
                                        case Some(c) => (if c < 0.0 then 0.0 else c);
            var p := Resolve(rate, capacity);
            SweptGrants(e, p, TtlMs(p), xs) as real <= burst + Forward(Moments(xs)) * rate
  {
    hide Gained, TtlMs, Swept, SweptGrants, Forward;
    var p := Resolve(rate, capacity);
    ResolvedIsSensible(rate, capacity);
    GainedIs(Forward(Moments(xs)), rate);
    RefillIsNotNegative(p, xs);
    if p.capacity >= 0.0 {
      CapacityBound(e, p, xs);
    } else {
      SweptNeverGranted(e, p, TtlMs(p), xs);
    }
  }

  lemma {:induction false} OnlyCalls(e: Option<Entry>, p: Params, ttlMs: int, times: seq<int>)
    returns (xs: seq<Instant>)
    requires p.rate > 0.0
    ensures Moments(xs) == times
    ensures Swept(e, p, ttlMs, xs) == Final(e, p, ttlMs, times, true)
    ensures SweptGrants(e, p, ttlMs, xs) == Grants(e, p, ttlMs, times, true)
  {
    hide Script, Live;
    if times == [] {
      xs := [];
    } else {
      var n := |times| - 1;
      var front := OnlyCalls(e, p, ttlMs, times[..n]);
      xs := front + [Instant.Call(times[n])];
      assert xs[..n] == front;
      assert Moments(xs) == Moments(front) + [times[n]];
    }
  }

  /** In particular for a Redis that deletes a key only when it is used. */
  lemma LazyWindowBound(e: Option<Entry>, rate: real, capacity: Option<real>, times: seq<int>)
    requires rate > 0.0 && times != [] && (e.Some? ==> InRange(e.value.tokens, Resolve(rate, capacity)))
    ensures var burst := match capacity case None => (if rate < 1.0 then 1.0 else rate)
                                        case Some(c) => (if c < 0.0 then 0.0 else c);
            var p := Resolve(rate, capacity);
            Grants(e, p, TtlMs(p), times, true) as real <= burst + Forward(times) * rate
  {
    hide Gained, TtlMs, Swept, SweptGrants, Forward, Grants, Final;
    var xs := OnlyCalls(e, Resolve(rate, capacity), TtlMs(Resolve(rate, capacity)), times);
    ForwardWindowBound(e, rate, capacity, xs);
  }

  function Repeat(t: int, n: nat): (times: seq<int>)
    ensures |times| == n && forall i :: 0 <= i < n ==> times[i] == t
  {
    seq(n, i => t)
  }

  /** After `g` grants at instant `t` on a key that was absent. */
  predicate Cold(e: Option<Entry>, g: nat, p: Params, t: int)
    requires p.rate > 0.0
  {
    match e
    case None => g == 0
    case Some(b) => b.tokens == p.initial - g as real && b.updatedMs == t && b.expiresMs == t + TtlMs(p)
  }

  lemma ColdStep(e: Option<Entry>, g: nat, p: Params, t: int)
    requires p.rate > 0.0 && p.initial <= p.capacity && Cold(e, g, p, t)
    ensures var (b, r) := Script(Live(e, t), p, TtlMs(p), t);
            && (r.allowed <==> (g + 1) as real <= p.initial)
            && Cold(Some(b), if r.allowed then g + 1 else g, p, t)
  {
    hide TtlMs, Gained, Seconds, Ceil;
    TtlCoversRefill(p, TtlMs(p));
    GainedMonotone(0.0, 0.0, p.rate);
  }

  lemma {:induction false} StaysCold(p: Params, t: int, n: nat)
    requires p.rate > 0.0 && p.initial <= p.capacity
    ensures var g := Grants(None, p, TtlMs(p), Repeat(t, n), true);
            && Cold(Final(None, p, TtlMs(p), Repeat(t, n), true), g, p, t)
            && g == (if n as real <= p.initial then n else if p.initial < 0.0 then 0 else p.initial.Floor)
            && (LastGranted(None, p, TtlMs(p), Repeat(t, n + 1), true) <==> (n + 1) as real <= p.initial)
  {
    hide TtlMs, Script, Live, Final, Grants, LastGranted, Cold;
    if n == 0 {
      assert Repeat(t, 0) == [];
      NoRounds(None, p, TtlMs(p));
      NothingYet(p, t);
    } else {
      var front := Repeat(t, n - 1);
      StaysCold(p, t, n - 1);
      assert front + [t] == Repeat(t, n);
      RoundSnoc(None, p, TtlMs(p), front, t);
      ColdStep(Final(None, p, TtlMs(p), front, true), Grants(None, p, TtlMs(p), front, true), p, t);
    }
    assert Repeat(t, n) + [t] == Repeat(t, n + 1);
    RoundSnoc(None, p, TtlMs(p), Repeat(t, n), t);
    ColdStep(Final(None, p, TtlMs(p), Repeat(t, n), true), Grants(None, p, TtlMs(p), Repeat(t, n), true), p, t);
  }

  lemma NothingYet(p: Params, t: int)
    requires p.rate > 0.0
    ensures Cold(None, 0, p, t)
  {
  }

  /** The cold start in Redis: of any number of calls at one instant on an absent key, exactly
      those are granted that the start covers (the rate without a capacity, otherwise the
      capacity), and they are the first ones. */
  lemma RedisColdStart(rate: real, capacity: Option<real>, t: int, n: nat)
    requires rate > 0.0
    ensures var start := match capacity case None => rate case Some(c) => c;
            var p := Resolve(rate, capacity);
            && (LastGranted(None, p, TtlMs(p), Repeat(t, n + 1), true) <==> (n + 1) as real <= start)
            && Grants(None, p, TtlMs(p), Repeat(t, n), true) ==
               (if n as real <= start then n else if start < 0.0 then 0 else start.Floor)
  {
    hide TtlMs, Script, Live, Final, Grants, LastGranted, Cold;
    StaysCold(Resolve(rate, capacity), t, n);
  }
}
