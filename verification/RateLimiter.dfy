/**
The in-process token bucket. Numbers are real numbers; the monotonic clock is a
parameter of each call, or a `Clock` object where the code sleeps.
 */
module RateLimiter {
  import opened Wrappers

  datatype Bucket = Bucket(tokens: real, last: real)

  /** Refill rate, burst capacity, and what a never-seen key starts with. */
  datatype Params = Params(rate: real, capacity: real, initial: real)

  function Min(x: real, y: real): real { if x < y then x else y }

  function Max(x: real, y: real): real { if x < y then y else x }

  /** The caller's rate and optional capacity, resolved: without a capacity a cold key
      starts with `rate` tokens of max(rate, 1), with one it starts full. */
  function Resolve(rate: real, capacity: Option<real>): Params {
    match capacity
    case None => Params(rate, Max(rate, 1.0), rate)
    case Some(c) => Params(rate, c, c)
  }

  /** Tokens refilled in so many seconds. The lemmas below are all that is used of it;
      elsewhere its definition is hidden from the solver. */
  function Gained(seconds: real, rate: real): real {
    seconds * rate
  }

  lemma GainedAdds(a: real, b: real, rate: real)
    ensures Gained(a, rate) + Gained(b, rate) == Gained(a + b, rate)
  {
  }

  lemma GainedMonotone(a: real, b: real, rate: real)
    requires rate > 0.0
    ensures a <= b <==> Gained(a, rate) <= Gained(b, rate)
    ensures Gained(0.0, rate) == 0.0
  {
    assert Gained(b, rate) - Gained(a, rate) == (b - a) * rate;
  }

  /** The seconds it takes to gain `tokens`. */
  function Seconds(tokens: real, rate: real): real
    requires rate > 0.0
  {
    tokens / rate
  }

  lemma GainedInSeconds(tokens: real, rate: real)
    requires rate > 0.0
    ensures Gained(Seconds(tokens, rate), rate) == tokens
  {
  }

  function Refilled(b: Option<Bucket>, p: Params, now: real): Bucket {
    match b
    case None => Bucket(Min(p.capacity, p.initial), now)
    case Some(Bucket(tokens, last)) => Bucket(Min(p.capacity, tokens + Gained(now - last, p.rate)), now)
  }

  /** Refill to `now`, then take one token if there is one. */
  function TryOnce(b: Option<Bucket>, p: Params, now: real): (Bucket, bool) {
    var r := Refilled(b, p, now);
    if r.tokens >= 1.0 then (r.(tokens := r.tokens - 1.0), true) else (r, false)
  }

  function Lookup<V>(m: map<string, V>, key: string): Option<V> {
    if key in m then Some(m[key]) else None
  }

  class Clock {
    var now: real

    constructor (t: real)
      ensures now == t
    {
      now := t;
    }

    /** Reading the clock takes time. */
    method Monotonic() returns (t: real)
      modifies this
      ensures t == now >= old(now)
    {
      var d: real := *;
      if d > 0.0 {
        now := now + d;
      }
      t := now;
    }

    /** Sleeping takes at least as long as asked. */
    method Sleep(seconds: real)
      modifies this
      ensures now >= old(now) + seconds && now >= old(now)
    {
      var d: real := *;
      now := now + Max(Max(seconds, 0.0), d);
    }
  }

  class TokenBucketRateLimiter {
    var buckets: map<string, Bucket>

    constructor ()
      ensures buckets == map[]
    {
      buckets := map[];
    }

    /** Advance the bucket of `key` to `now` without consuming. */
    method Refill(key: string, p: Params, now: real) returns (tokens: real)
      modifies this
      ensures buckets == old(buckets)[key := Refilled(Lookup(old(buckets), key), p, now)]
      ensures tokens == buckets[key].tokens
    {
      var b := if key in buckets then buckets[key] else Bucket(p.initial, now);
      var elapsed := now - b.last;
      tokens := Min(p.capacity, b.tokens + elapsed * p.rate);
      buckets := buckets[key := Bucket(tokens, now)];
    }

    /** Take a token if one is there; a rate of zero or less means no limit. */
    method TryAcquire(key: string, rate: real, capacity: Option<real>, now: real) returns (ok: bool)
      modifies this
      ensures rate <= 0.0 ==> ok && buckets == old(buckets)
      ensures rate > 0.0 ==>
        var (b, granted) := TryOnce(Lookup(old(buckets), key), Resolve(rate, capacity), now);
        ok == granted && buckets == old(buckets)[key := b]
    {
      if rate <= 0.0 {
        return true;
      }
      var p := Resolve(rate, capacity);
      var tokens := Refill(key, p, now);
      if tokens < 1.0 {
        return false;
      }
      var stored := buckets[key];
      buckets := buckets[key := Bucket(stored.tokens - 1.0, stored.last)];
      return true;
    }

    /** Wait for a token and take it, with no other caller on this key meanwhile and for at
        most `patience` rounds, after which the caller is taken to have been cancelled. With
        a capacity of at least one the second round always succeeds; with a smaller one none
        does, however many there are. */
    method Acquire(key: string, rate: real, capacity: Option<real>, clock: Clock, patience: nat)
      returns (acquired: bool, rounds: nat, ghost t1: real, ghost t2: real)
      modifies this, clock
      ensures rate <= 0.0 ==> acquired && rounds == 0 && buckets == old(buckets)
      ensures !acquired ==> rounds == patience
      ensures rate > 0.0 && rounds > 0 ==> key in buckets && buckets == old(buckets)[key := buckets[key]]
      ensures rate > 0.0 && Resolve(rate, capacity).capacity < 1.0 ==> !acquired
      ensures rate > 0.0 && Resolve(rate, capacity).capacity >= 1.0 && patience >= 2 ==>
        var p := Resolve(rate, capacity);
        var first := TryOnce(Lookup(old(buckets), key), p, t1);
        && acquired && old(clock.now) <= t1
        && if first.1 then rounds == 1 && buckets == old(buckets)[key := first.0]
           else && rounds == 2 && t2 >= t1 + Seconds(1.0 - first.0.tokens, rate)
                && TryOnce(Some(first.0), p, t2).1
                && buckets == old(buckets)[key := TryOnce(Some(first.0), p, t2).0]
    {
      hide Gained, Seconds;
      acquired, rounds, t1, t2 := true, 0, clock.now, clock.now;
      if rate <= 0.0 {
        return;
      }
      var p := Resolve(rate, capacity);
      ghost var before := buckets;
      while rounds < patience
        invariant rounds <= patience && clock.now >= old(clock.now)
        invariant rounds == 0 ==> buckets == before
        invariant rounds > 0 ==> key in buckets && buckets == before[key := buckets[key]]
        invariant rounds == 1 ==>
          && old(clock.now) <= t1
          && !TryOnce(Lookup(before, key), p, t1).1
          && buckets == before[key := TryOnce(Lookup(before, key), p, t1).0]
          && clock.now >= t1 + Seconds(1.0 - buckets[key].tokens, rate)
        invariant rounds >= 2 ==> p.capacity < 1.0
      {
        var now := clock.Monotonic();
        if rounds == 0 { t1 := now; } else if rounds == 1 { t2 := now; }
        if rounds == 1 && p.capacity >= 1.0 {
          GrantedExactlyAfterWait(Lookup(before, key), p, t1, t2);
        }
        var tokens := Refill(key, p, now);
        rounds := rounds + 1;
        if tokens >= 1.0 {
          var stored := buckets[key];
          buckets := buckets[key := Bucket(stored.tokens - 1.0, stored.last)];
          return;
        }
        var wait := Seconds(1.0 - tokens, rate);
        clock.Sleep(wait);
      }
      acquired := false;
    }
  }

  // ---------------------------------------------------------------- liveness and neutrality

  /** After a rejection at `t1`, an undisturbed later try succeeds exactly from the
      computed wait on. */
  lemma GrantedExactlyAfterWait(b: Option<Bucket>, p: Params, t1: real, t2: real)
    requires p.rate > 0.0 && p.capacity >= 1.0 && !TryOnce(b, p, t1).1
    ensures var rejected := TryOnce(b, p, t1).0;
            TryOnce(Some(rejected), p, t2).1 <==> t2 >= t1 + Seconds(1.0 - rejected.tokens, p.rate)
  {
    hide Gained, Seconds;
    var wait := Seconds(1.0 - TryOnce(b, p, t1).0.tokens, p.rate);
    GainedInSeconds(1.0 - TryOnce(b, p, t1).0.tokens, p.rate);
    GainedMonotone(wait, t2 - t1, p.rate);
  }

  /** A capacity below one never grants, so waiting for it never ends. */
  lemma NoTokenBelowOne(b: Option<Bucket>, p: Params, now: real)
    requires p.capacity < 1.0
    ensures !TryOnce(b, p, now).1
  {
  }

  /** Outcomes of tries on one key at the given instants, oldest first. */
  function Outcomes(b: Option<Bucket>, p: Params, times: seq<real>): seq<bool>
    decreases |times|
  {
    if times == [] then []
    else
      var (b', ok) := TryOnce(b, p, times[0]);
      [ok] + Outcomes(Some(b'), p, times[1..])
  }

  /** Refilling composes over time. */
  lemma RefillComposes(b: Bucket, p: Params, t1: real, t2: real)
    requires p.rate > 0.0 && b.last <= t1 <= t2
    ensures Refilled(Some(Refilled(Some(b), p, t1)), p, t2) == Refilled(Some(b), p, t2)
  {
    hide Gained;
    GainedMonotone(0.0, t1 - b.last, p.rate);
    GainedMonotone(0.0, t2 - t1, p.rate);
    GainedAdds(t1 - b.last, t2 - t1, p.rate);
  }

  /** A rejected try on a present bucket changes no later outcome. */
  lemma RejectionIsNeutral(b: Bucket, p: Params, t: real, times: seq<real>)
    requires p.rate > 0.0 && b.last <= t && (times != [] ==> t <= times[0])
    requires !TryOnce(Some(b), p, t).1
    ensures Outcomes(Some(TryOnce(Some(b), p, t).0), p, times) == Outcomes(Some(b), p, times)
  {
    if times != [] {
      RefillComposes(b, p, t, times[0]);
    }
  }

  /** Later outcomes on a key that is absent are the same whether or not a try was rejected
      at `t`. */
  ghost predicate RejectionIsUnseen(p: Params, t: real) {
    forall times: seq<real> :: times != [] && t <= times[0] ==>
      Outcomes(Some(TryOnce(None, p, t).0), p, times) == Outcomes(None, p, times)
  }

  lemma {:induction false} NothingBelowOne(b: Option<Bucket>, p: Params, times: seq<real>)
    requires p.capacity < 1.0
    ensures |Outcomes(b, p, times)| == |times| && forall i :: 0 <= i < |times| ==> !Outcomes(b, p, times)[i]
    decreases |times|
  {
    if times != [] {
      NoTokenBelowOne(b, p, times[0]);
      NothingBelowOne(Some(TryOnce(b, p, times[0]).0), p, times[1..]);
    }
  }

  /** On an absent bucket a rejected try changes no later outcome exactly if the caller gave
      a capacity: then the bucket starts full, is rejected for being too small, and never
      grants. Without one, a slow key's clock starts with the rejected try. */
  lemma RejectionOnAbsentIff(rate: real, capacity: Option<real>, t: real)
    requires rate > 0.0 && !TryOnce(None, Resolve(rate, capacity), t).1
    ensures RejectionIsUnseen(Resolve(rate, capacity), t) <==> capacity.Some?
  {
    var p := Resolve(rate, capacity);
    if capacity.Some? {
      forall times: seq<real> | times != [] && t <= times[0]
        ensures Outcomes(Some(TryOnce(None, p, t).0), p, times) == Outcomes(None, p, times)
      {
        NothingBelowOne(Some(TryOnce(None, p, t).0), p, times);
        NothingBelowOne(None, p, times);
      }
    } else {
      var later := SlowKeyIsGranted(rate, t);
      assert Outcomes(Some(TryOnce(None, p, t).0), p, [later])[0] != Outcomes(None, p, [later])[0];
    }
  }

  /** A slow key that was rejected at `t` is granted later, when an absent one would not be. */
  lemma SlowKeyIsGranted(rate: real, t: real) returns (later: real)
    requires 0.0 < rate < 1.0
    ensures var p := Resolve(rate, None);
            && t <= later && TryOnce(Some(TryOnce(None, p, t).0), p, later).1 && !TryOnce(None, p, later).1
  {
    hide Gained, Seconds;
    later := t + Seconds(1.0, rate);
    GainedInSeconds(1.0, rate);
    GainedMonotone(0.0, Seconds(1.0, rate), rate);
  }

  // ---------------------------------------------------------------- the window bound

  datatype Call = Call(key: string, rate: real, capacity: Option<real>, now: real)

  function Serve(m: map<string, Bucket>, c: Call): (map<string, Bucket>, bool) {
    if c.rate <= 0.0 then (m, true)
    else
      var (b, ok) := TryOnce(Lookup(m, c.key), Resolve(c.rate, c.capacity), c.now);
      (m[c.key := b], ok)
  }

  /** All buckets after a sequence of calls on any keys. */
  function After(m: map<string, Bucket>, calls: seq<Call>): map<string, Bucket> {
    if calls == [] then m else Serve(After(m, calls[..|calls| - 1]), calls[|calls| - 1]).0
  }

  /** How many of the calls on `key` were granted. */
  function Granted(m: map<string, Bucket>, calls: seq<Call>, key: string): nat {
    if calls == [] then 0
    else
      var c := calls[|calls| - 1];
      var front := calls[..|calls| - 1];
      Granted(m, front, key) + (if c.key == key && Serve(After(m, front), c).1 then 1 else 0)
  }

  /** The calls on one key. */
  function Only(calls: seq<Call>, key: string): seq<Call> {
    if calls == [] then []
    else Only(calls[..|calls| - 1], key) + (if calls[|calls| - 1].key == key then [calls[|calls| - 1]] else [])
  }

  /** A key's bucket and grants depend on the calls on that key alone. */
  lemma {:induction false} KeysAreIndependent(m: map<string, Bucket>, calls: seq<Call>, key: string)
    ensures Lookup(After(m, calls), key) == Lookup(After(m, Only(calls, key)), key)
    ensures Granted(m, calls, key) == Granted(m, Only(calls, key), key)
  {
    if calls != [] {
      var c := calls[|calls| - 1];
      var front := calls[..|calls| - 1];
      KeysAreIndependent(m, front, key);
      ServeIsLocal(After(m, front), After(m, Only(front, key)), c, key);
      if c.key == key {
        assert Only(calls, key) == Only(front, key) + [c];
        Snoc(m, Only(front, key), c, key);
      } else {
        assert Only(calls, key) == Only(front, key);
      }
    }
  }

  lemma ServeIsLocal(x: map<string, Bucket>, y: map<string, Bucket>, c: Call, key: string)
    requires Lookup(x, key) == Lookup(y, key)
    ensures c.key != key ==> Lookup(Serve(x, c).0, key) == Lookup(x, key)
    ensures c.key == key ==> Lookup(Serve(x, c).0, key) == Lookup(Serve(y, c).0, key) && Serve(x, c).1 == Serve(y, c).1
  {
  }

  lemma Snoc(m: map<string, Bucket>, calls: seq<Call>, c: Call, key: string)
    ensures After(m, calls + [c]) == Serve(After(m, calls), c).0
    ensures Granted(m, calls + [c], key) ==
            Granted(m, calls, key) + (if c.key == key && Serve(After(m, calls), c).1 then 1 else 0)
  {
    assert (calls + [c])[..|calls|] == calls;
  }

  /** Calls in time order; those on `key` all carry this rate and capacity. */
  predicate Steady(calls: seq<Call>, key: string, rate: real, capacity: Option<real>) {
    if calls == [] then true
    else
      var n := |calls| - 1;
      && Steady(calls[..n], key, rate, capacity)
      && (calls[n].key == key ==> calls[n].rate == rate && calls[n].capacity == capacity)
      && (n > 0 ==> calls[n - 1].now <= calls[n].now)
  }

  predicate Served(calls: seq<Call>, key: string) {
    if calls == [] then false else calls[|calls| - 1].key == key || Served(calls[..|calls| - 1], key)
  }

  /** What a key may be granted between `t0` and `t1`: one burst, plus the refill. */
  function Allowance(p: Params, t0: real, t1: real): real {
    Max(p.capacity, 0.0) + Gained(t1 - t0, p.rate)
  }

  /** `b` left and `g` granted stay within one full bucket plus the refill since `t0`. */
  predicate WithinBudget(b: Bucket, g: nat, p: Params, t0: real) {
    && b.tokens + g as real <= p.capacity + Gained(b.last - t0, p.rate)
    && g as real <= Allowance(p, t0, b.last)
  }

  lemma BudgetBase(b: Option<Bucket>, p: Params, t0: real, now: real)
    requires p.rate > 0.0 && t0 <= now
    ensures var (b', ok) := TryOnce(b, p, now);
            WithinBudget(b', if ok then 1 else 0, p, t0)
  {
    hide Gained;
    GainedMonotone(0.0, now - t0, p.rate);
  }

  lemma BudgetStep(b: Bucket, g: nat, p: Params, t0: real, now: real)
    requires p.rate > 0.0 && b.last <= now && WithinBudget(b, g, p, t0)
    ensures var (b', ok) := TryOnce(Some(b), p, now);
            WithinBudget(b', if ok then g + 1 else g, p, t0)
  {
    hide Gained;
    GainedAdds(b.last - t0, now - b.last, p.rate);
    GainedMonotone(0.0, now - b.last, p.rate);
  }

  /** The same for the bucket a key has in the limiter, last refilled no later than `t1`. */
  predicate KeyWithin(m: map<string, Bucket>, key: string, g: nat, p: Params, t0: real, t1: real) {
    key in m && m[key].last <= t1 && WithinBudget(m[key], g, p, t0)
  }

  lemma ServeWithin(m: map<string, Bucket>, c: Call, key: string, g: nat, rate: real, capacity: Option<real>,
                    t0: real, t1: real)
    requires rate > 0.0 && (c.key == key ==> c.rate == rate && c.capacity == capacity)
    requires t1 <= c.now && KeyWithin(m, key, g, Resolve(rate, capacity), t0, t1)
    ensures KeyWithin(Serve(m, c).0, key, if c.key == key && Serve(m, c).1 then g + 1 else g,
                      Resolve(rate, capacity), t0, c.now)
  {
    hide WithinBudget;
    if c.key == key {
      BudgetStep(m[key], g, Resolve(rate, capacity), t0, c.now);
    }
  }

  lemma ServeFirst(m: map<string, Bucket>, c: Call, rate: real, capacity: Option<real>, t0: real)
    requires rate > 0.0 && c.rate == rate && c.capacity == capacity && t0 <= c.now
    ensures KeyWithin(Serve(m, c).0, c.key, if Serve(m, c).1 then 1 else 0, Resolve(rate, capacity), t0, c.now)
  {
    hide WithinBudget;
    BudgetBase(Lookup(m, c.key), Resolve(rate, capacity), t0, c.now);
  }

  lemma {:induction false} KeyBudget(m: map<string, Bucket>, calls: seq<Call>, key: string, rate: real,
                                     capacity: Option<real>)
    requires rate > 0.0 && calls != [] && Steady(calls, key, rate, capacity)
    ensures calls[0].now <= calls[|calls| - 1].now
    ensures !Served(calls, key) ==> Granted(m, calls, key) == 0
    ensures Served(calls, key) ==>
              KeyWithin(After(m, calls), key, Granted(m, calls, key), Resolve(rate, capacity),
                        calls[0].now, calls[|calls| - 1].now)
  {
    hide KeyWithin, Resolve, Serve;
    var n := |calls| - 1;
    var front := calls[..n];
    if n > 0 {
      KeyBudget(m, front, key, rate, capacity);
    } else {
      assert front == [];
    }
    var t0, t1 := calls[0].now, if n > 0 then calls[n - 1].now else calls[0].now;
    if Served(front, key) {
      ServeWithin(After(m, front), calls[n], key, Granted(m, front, key), rate, capacity, t0, t1);
    } else if calls[n].key == key {
      ServeFirst(After(m, front), calls[n], rate, capacity, t0);
    }
  }

  /** From the first call to the last. */
  function Elapsed(calls: seq<Call>): real
    requires calls != []
  {
    calls[|calls| - 1].now - calls[0].now
  }

  /** In any window of calls on any keys, from any state of the limiter, the grants for
      one key at fixed rate and capacity are at most the burst, which is the capacity given
      or else the rate and at least one, plus the rate times the time elapsed. */
  lemma WindowBound(m: map<string, Bucket>, calls: seq<Call>, key: string, rate: real, capacity: Option<real>)
    requires rate > 0.0 && calls != [] && Steady(calls, key, rate, capacity)
    ensures var burst := match capacity case None => (if rate < 1.0 then 1.0 else rate)
                                        case Some(c) => (if c < 0.0 then 0.0 else c);
            Granted(m, calls, key) as real <= burst + Elapsed(calls) * rate
  {
    hide *;
    WithinAllowance(m, calls, key, rate, capacity);
    AllowanceIs(rate, capacity, calls);
  }

  lemma WithinAllowance(m: map<string, Bucket>, calls: seq<Call>, key: string, rate: real, capacity: Option<real>)
    requires rate > 0.0 && calls != [] && Steady(calls, key, rate, capacity)
    ensures Granted(m, calls, key) as real <= Allowance(Resolve(rate, capacity), calls[0].now, calls[|calls| - 1].now)
  {
    hide Gained, After, Granted, Steady;
    KeyBudget(m, calls, key, rate, capacity);
    var t0, t1 := calls[0].now, calls[|calls| - 1].now;
    GainedMonotone(0.0, t1 - t0, rate);
    if Served(calls, key) {
      GainedMonotone(After(m, calls)[key].last - t0, t1 - t0, rate);
    }
  }

  lemma AllowanceIs(rate: real, capacity: Option<real>, calls: seq<Call>)
    requires calls != []
    ensures var burst := match capacity case None => (if rate < 1.0 then 1.0 else rate)
                                        case Some(c) => (if c < 0.0 then 0.0 else c);
            var p := Resolve(rate, capacity);
            Allowance(p, calls[0].now, calls[|calls| - 1].now) == burst + Elapsed(calls) * rate
  {
    hide Gained, Elapsed;
    ElapsedIs(calls);
    GainedIs(Elapsed(calls), rate);
  }

  lemma ElapsedIs(calls: seq<Call>)
    requires calls != []
    ensures Elapsed(calls) == calls[|calls| - 1].now - calls[0].now
  {
  }

  lemma GainedIs(seconds: real, rate: real)
    ensures Gained(seconds, rate) == seconds * rate
  {
  }

  // ---------------------------------------------------------------- exactly the calls that conform

  /** The grants for `key` among calls `i` up to, and not including, `n`. */
  function Between(m: map<string, Bucket>, calls: seq<Call>, key: string, i: nat, n: nat): int
    requires i <= n <= |calls|
  {
    Granted(m, calls[..n], key) - Granted(m, calls[..i], key)
  }

  /** What is left at `t` of `start` tokens at call `i`, after the grants up to call `n`, if
      nothing has overflowed since. */
  function Left(m: map<string, Bucket>, calls: seq<Call>, key: string, i: nat, n: nat, start: real, t: real,
                rate: real): real
    requires i <= n <= |calls| && i < |calls|
  {
    start + Gained(t - calls[i].now, rate) - Between(m, calls, key, i, n) as real
  }

  /** `f` is the first call on `key`. */
  predicate IsFirst(calls: seq<Call>, key: string, f: nat) {
    f < |calls| && calls[f].key == key && forall i :: 0 <= i < f ==> calls[i].key != key
  }

  /** `tokens` at `t` is the least that is left since the first call, of what the key starts
      with, or since any call on the key, of a full bucket. */
  ghost predicate IsLeast(tokens: real, m: map<string, Bucket>, calls: seq<Call>, key: string, f: nat, p: Params,
                          last: nat, n: nat, t: real)
    requires f <= last < |calls| && last <= n <= |calls|
  {
    && tokens <= Left(m, calls, key, f, n, p.initial, t, p.rate)
    && (forall i :: f <= i <= last && calls[i].key == key ==>
          tokens <= Left(m, calls, key, i, n, p.capacity, t, p.rate))
    && (|| tokens == Left(m, calls, key, f, n, p.initial, t, p.rate)
        || exists i :: f <= i <= last && calls[i].key == key
                       && tokens == Left(m, calls, key, i, n, p.capacity, t, p.rate))
  }

  lemma BetweenSnoc(m: map<string, Bucket>, calls: seq<Call>, key: string, i: nat, n: nat)
    requires i <= n < |calls|
    ensures Between(m, calls, key, n, n) == 0
    ensures Between(m, calls, key, i, n + 1) == Between(m, calls, key, i, n) +
              if calls[n].key == key && Serve(After(m, calls[..n]), calls[n]).1 then 1 else 0
  {
    hide Serve, After, Granted;
    assert calls[..n + 1] == calls[..n] + [calls[n]];
    Snoc(m, calls[..n], calls[n], key);
  }

  /** The bucket is refilled for call `n`. */
  lemma RefillIsLeast(m: map<string, Bucket>, calls: seq<Call>, key: string, f: nat, p: Params, last: nat, n: nat,
                      b: Bucket)
    requires f <= last < n < |calls| && calls[n].key == key && p.rate > 0.0 && b.last <= calls[n].now
    requires forall i :: last < i < n ==> calls[i].key != key
    requires IsLeast(b.tokens, m, calls, key, f, p, last, n, b.last)
    ensures IsLeast(Refilled(Some(b), p, calls[n].now).tokens, m, calls, key, f, p, n, n, calls[n].now)
  {
    hide Gained, Granted;
    var now := calls[n].now;
    var r := Refilled(Some(b), p, now);
    GainedAdds(b.last - calls[f].now, now - b.last, p.rate);
    GainedMonotone(0.0, 0.0, p.rate);
    forall i | f <= i <= n && calls[i].key == key
      ensures r.tokens <= Left(m, calls, key, i, n, p.capacity, now, p.rate)
    {
      if i <= last {
        GainedAdds(b.last - calls[i].now, now - b.last, p.rate);
      }
    }
    if r.tokens == p.capacity {
      assert r.tokens == Left(m, calls, key, n, n, p.capacity, now, p.rate);
    } else if b.tokens != Left(m, calls, key, f, n, p.initial, b.last, p.rate) {
      var i :| f <= i <= last && calls[i].key == key
               && b.tokens == Left(m, calls, key, i, n, p.capacity, b.last, p.rate);
      GainedAdds(b.last - calls[i].now, now - b.last, p.rate);
      assert r.tokens == Left(m, calls, key, i, n, p.capacity, now, p.rate);
    }
  }

  /** Grants since then count against what is left. */
  lemma GrantsCount(m: map<string, Bucket>, calls: seq<Call>, key: string, f: nat, p: Params, last: nat, n: nat,
                    t: real, tokens: real)
    requires f <= last <= n < |calls| && IsLeast(tokens, m, calls, key, f, p, last, n, t)
    ensures var granted := calls[n].key == key && Serve(After(m, calls[..n]), calls[n]).1;
            IsLeast(if granted then tokens - 1.0 else tokens, m, calls, key, f, p, last, n + 1, t)
  {
    hide Gained, Granted, Serve, After, Between;
    var granted := calls[n].key == key && Serve(After(m, calls[..n]), calls[n]).1;
    var tokens' := if granted then tokens - 1.0 else tokens;
    BetweenSnoc(m, calls, key, f, n);
    forall i | f <= i <= last && calls[i].key == key
      ensures Left(m, calls, key, i, n + 1, p.capacity, t, p.rate) - tokens' ==
              Left(m, calls, key, i, n, p.capacity, t, p.rate) - tokens
    {
      BetweenSnoc(m, calls, key, i, n);
    }
  }

  lemma FirstIsLeast(m: map<string, Bucket>, calls: seq<Call>, key: string, f: nat, p: Params)
    requires f < |calls| && calls[f].key == key && p.rate > 0.0 && p.initial <= p.capacity
    ensures IsLeast(Refilled(None, p, calls[f].now).tokens, m, calls, key, f, p, f, f, calls[f].now)
  {
    hide Gained, Granted;
    GainedMonotone(0.0, 0.0, p.rate);
  }

  lemma OffKey(m: map<string, Bucket>, calls: seq<Call>, key: string, n: nat)
    requires n < |calls|
    ensures After(m, calls[..n + 1]) == Serve(After(m, calls[..n]), calls[n]).0
    ensures calls[n].key != key ==> Lookup(After(m, calls[..n + 1]), key) == Lookup(After(m, calls[..n]), key)
  {
    hide After, Granted;
    assert calls[..n + 1] == calls[..n] + [calls[n]];
    Snoc(m, calls[..n], calls[n], key);
  }

  lemma {:induction false} StillAbsent(m: map<string, Bucket>, calls: seq<Call>, key: string, n: nat)
    requires key !in m && n <= |calls| && forall i :: 0 <= i < n ==> calls[i].key != key
    ensures Lookup(After(m, calls[..n]), key).None?
  {
    if n > 0 {
      StillAbsent(m, calls, key, n - 1);
      OffKey(m, calls, key, n - 1);
    }
  }

  lemma {:induction false} SteadyAt(calls: seq<Call>, key: string, rate: real, capacity: Option<real>, i: nat, n: nat)
    requires Steady(calls, key, rate, capacity) && i <= n < |calls|
    ensures calls[i].now <= calls[n].now
    ensures calls[n].key == key ==> calls[n].rate == rate && calls[n].capacity == capacity
    decreases |calls|
  {
    var front := calls[..|calls| - 1];
    if n < |front| {
      SteadyAt(front, key, rate, capacity, i, n);
    } else if i < n {
      SteadyAt(front, key, rate, capacity, i, n - 1);
    }
  }

  /** The bucket after the first `n` calls, `last` being the last of them on the key. */
  lemma {:induction false} BucketIsLeast(m: map<string, Bucket>, calls: seq<Call>, key: string, rate: real,
                                         capacity: Option<real>, f: nat, n: nat) returns (last: nat)
    requires rate > 0.0 && Steady(calls, key, rate, capacity) && key !in m
    requires IsFirst(calls, key, f) && f < n <= |calls|
    ensures f <= last < n && calls[last].key == key && forall i :: last < i < n ==> calls[i].key != key
    ensures var b := Lookup(After(m, calls[..n]), key);
            && b.Some? && b.value.last == calls[last].now
            && IsLeast(b.value.tokens, m, calls, key, f, Resolve(rate, capacity), last, n, b.value.last)
    decreases n
  {
    hide Steady, After, Granted, IsLeast;
    var p := Resolve(rate, capacity);
    SteadyAt(calls, key, rate, capacity, n - 1, n - 1);
    OffKey(m, calls, key, n - 1);
    var now := calls[n - 1].now;
    if n - 1 == f {
      last := f;
      StillAbsent(m, calls, key, f);
      FirstIsLeast(m, calls, key, f, p);
      GrantsCount(m, calls, key, f, p, f, f, now, Refilled(None, p, now).tokens);
    } else {
      last := BucketIsLeast(m, calls, key, rate, capacity, f, n - 1);
      var b := Lookup(After(m, calls[..n - 1]), key).value;
      if calls[n - 1].key == key {
        SteadyAt(calls, key, rate, capacity, last, n - 1);
        RefillIsLeast(m, calls, key, f, p, last, n - 1, b);
        last := n - 1;
        GrantsCount(m, calls, key, f, p, last, n - 1, now, Refilled(Some(b), p, now).tokens);
      } else {
        GrantsCount(m, calls, key, f, p, last, n - 1, b.last, b.tokens);
      }
    }
  }

  /** Granting call `n` as well keeps within `start` and the refill since call `f`, and
      within `burst` and the refill since any call on the key from then on. */
  ghost predicate Conforms(m: map<string, Bucket>, calls: seq<Call>, key: string, f: nat, n: nat, start: real,
                           burst: real, rate: real)
    requires f <= n < |calls|
  {
    && (Between(m, calls, key, f, n) + 1) as real <= start + Gained(calls[n].now - calls[f].now, rate)
    && forall i :: f <= i <= n && calls[i].key == key ==>
         (Between(m, calls, key, i, n) + 1) as real <= burst + Gained(calls[n].now - calls[i].now, rate)
  }

  /** Exactly the calls that conform are granted, among any calls on any keys: call `n` on a
      key that was absent at first is granted if and only if one more grant keeps within the
      refill since the first call, on top of what the key starts with (the rate without a
      capacity, otherwise the capacity), and within the refill since any call on the key so
      far, itself included, on top of the burst. */
  lemma GrantedIffConforming(m: map<string, Bucket>, calls: seq<Call>, key: string, rate: real,
                             capacity: Option<real>, f: nat, n: nat)
    requires rate > 0.0 && Steady(calls, key, rate, capacity) && key !in m
    requires IsFirst(calls, key, f) && f <= n < |calls| && calls[n].key == key
    ensures var start := match capacity case None => rate case Some(c) => c;
            var burst := match capacity case None => (if rate < 1.0 then 1.0 else rate) case Some(c) => c;
            Serve(After(m, calls[..n]), calls[n]).1 <==> Conforms(m, calls, key, f, n, start, burst, rate)
  {
    hide Gained, Steady, After, Granted, IsLeast, Serve, Refilled, Conforms;
    var start := match capacity case None => rate case Some(c) => c;
    var burst := match capacity case None => (if rate < 1.0 then 1.0 else rate) case Some(c) => c;
    var p := Resolve(rate, capacity);
    var now := calls[n].now;
    var before := After(m, calls[..n]);
    SteadyAt(calls, key, rate, capacity, n, n);
    ServedIff(before, calls[n]);
    if n == f {
      StillAbsent(m, calls, key, f);
      FirstIsLeast(m, calls, key, f, p);
    } else {
      var last := BucketIsLeast(m, calls, key, rate, capacity, f, n);
      SteadyAt(calls, key, rate, capacity, last, n);
      RefillIsLeast(m, calls, key, f, p, last, n, Lookup(before, key).value);
    }
    ConformsIff(m, calls, key, f, rate, burst, start, n, Refilled(Lookup(before, key), p, now).tokens);
  }

  lemma ServedIff(m: map<string, Bucket>, c: Call)
    requires c.rate > 0.0
    ensures Serve(m, c).1 <==> Refilled(Lookup(m, c.key), Resolve(c.rate, c.capacity), c.now).tokens >= 1.0
  {
    hide Refilled, Resolve;
  }

  lemma ConformsIff(m: map<string, Bucket>, calls: seq<Call>, key: string, f: nat, rate: real, burst: real,
                    start: real, n: nat, tokens: real)
    requires f <= n < |calls|
    requires IsLeast(tokens, m, calls, key, f, Params(rate, burst, start), n, n, calls[n].now)
    ensures tokens >= 1.0 <==> Conforms(m, calls, key, f, n, start, burst, rate)
  {
    hide Gained, Between;
    var now := calls[n].now;
    forall i | f <= i <= n && calls[i].key == key
      ensures Left(m, calls, key, i, n, burst, now, rate) ==
              burst + Gained(now - calls[i].now, rate) - Between(m, calls, key, i, n) as real
    {
    }
  }

  function Same(c: Call, n: nat): (calls: seq<Call>)
    ensures |calls| == n && forall i :: 0 <= i < n ==> calls[i] == c
  {
    seq(n, i => c)
  }

  lemma {:induction false} SameIsSteady(c: Call, n: nat)
    ensures Steady(Same(c, n), c.key, c.rate, c.capacity)
  {
    if n > 0 {
      SameIsSteady(c, n - 1);
      assert Same(c, n)[..n - 1] == Same(c, n - 1);
    }
  }

  /** At one instant only the start counts. */
  lemma NextAtOnce(m: map<string, Bucket>, c: Call, n: nat)
    requires c.rate > 0.0 && c.key !in m
    ensures var start := match c.capacity case None => c.rate case Some(x) => x;
            Serve(After(m, Same(c, n)), c).1 <==> (Granted(m, Same(c, n), c.key) + 1) as real <= start
  {
    hide Steady, Serve, After, Granted, Conforms;
    var calls := Same(c, n + 1);
    var start := match c.capacity case None => c.rate case Some(x) => x;
    var burst := match c.capacity case None => (if c.rate < 1.0 then 1.0 else c.rate) case Some(x) => x;
    assert calls[..n] == Same(c, n);
    SameIsSteady(c, n + 1);
    GrantedIffConforming(m, calls, c.key, c.rate, c.capacity, 0, n);
    ConformsAtOnce(m, calls, c.key, n, start, burst, c.rate);
  }

  lemma ConformsAtOnce(m: map<string, Bucket>, calls: seq<Call>, key: string, n: nat, start: real, burst: real,
                       rate: real)
    requires n < |calls| && start <= burst && forall i :: 0 <= i <= n ==> calls[i] == calls[n]
    ensures Conforms(m, calls, key, 0, n, start, burst, rate) <==>
            (Granted(m, calls[..n], key) + 1) as real <= start
  {
    hide Granted, Between, Gained;
    AllOfThem(m, calls, key, n);
    GainedIs(0.0, rate);
    forall i: nat | i <= n ensures Between(m, calls, key, i, n) <= Granted(m, calls[..n], key) {
      GrantsGrow(m, calls, key, i, n);
    }
    assert calls[0] == calls[n];
  }

  lemma AllOfThem(m: map<string, Bucket>, calls: seq<Call>, key: string, n: nat)
    requires n <= |calls|
    ensures Between(m, calls, key, 0, n) == Granted(m, calls[..n], key)
  {
    assert calls[..0] == [];
  }

  /** The cold start: of any number of calls at one instant on an absent key, exactly those
      are granted that the start covers, and they are the first ones. */
  lemma {:induction false} ColdStart(m: map<string, Bucket>, c: Call, n: nat)
    requires c.rate > 0.0 && c.key !in m
    ensures var start := match c.capacity case None => c.rate case Some(x) => x;
            && (Serve(After(m, Same(c, n)), c).1 <==> (n + 1) as real <= start)
            && Granted(m, Same(c, n), c.key) ==
               (if n as real <= start then n else if start < 0.0 then 0 else start.Floor)
  {
    hide Serve, After, Resolve;
    NextAtOnce(m, c, n);
    if n > 0 {
      ColdStart(m, c, n - 1);
      NextAtOnce(m, c, n - 1);
      Snoc(m, Same(c, n - 1), c, c.key);
      assert Same(c, n - 1) + [c] == Same(c, n);
    }
  }

  lemma {:induction false} GrantsGrow(m: map<string, Bucket>, calls: seq<Call>, key: string, i: nat, n: nat)
    requires i <= n <= |calls|
    ensures 0 <= Between(m, calls, key, i, n) <= Granted(m, calls[..n], key)
    decreases n
  {
    hide Granted;
    if i < n {
      GrantsGrow(m, calls, key, i, n - 1);
      BetweenSnoc(m, calls, key, i, n - 1);
    }
  }
}
