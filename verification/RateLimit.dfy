/**
 pkg/ratelimit/limiter.go: a leaky bucket per key, kept in a cache whose entries expire a
 minute after they were last written. Durations and times are nanoseconds, and one call reads
 the clock once.
 */
module RateLimit {
  import opened Wrappers

  const MILLISECOND: int := 1_000_000
  const MINUTE: int := 60_000 * MILLISECOND

  datatype Config = Config(enable: bool, burst: nat, rate: int, whiteList: set<string>, blackList: set<string>)

  /** What `NewRateLimiter` needs: a zero rate divides by zero. */
  predicate ValidConfig(c: Config) { c.rate > 0 }

  function TimeStep(c: Config): (t: int)
    requires ValidConfig(c)
    ensures t >= 0
  {
    (60000 / c.rate) * MILLISECOND
  }

  function MaxTime(c: Config): (t: int)
    requires ValidConfig(c)
    ensures t >= 0
  {
    TimeStep(c) * c.burst
  }

  /** A cached bucket; go-cache serves it while `now <= expires`. */
  datatype Limiter = Limiter(size: int, lastUpdate: int, expires: int)

  // ----- One bucket -----

  /** limiter.go:71-82, a bucket that is found. */
  function Touch(c: Config, l: Limiter, now: int): (r: (bool, Limiter))
    requires ValidConfig(c)
  {
    var drained := l.size - (now - l.lastUpdate);
    var size := if drained < 0 then 0 else drained;
    if size > MaxTime(c) then (false, Limiter(size, now, now + MINUTE))
    else (true, Limiter(size + TimeStep(c), now, now + MINUTE))
  }

  function Fresh(c: Config, now: int): (r: Limiter)
    requires ValidConfig(c)
  {
    Limiter(TimeStep(c), now, now + MINUTE)
  }

  /** One request, with the cache forgetting expired buckets or never forgetting. */
  function Request(c: Config, evict: bool, l: Option<Limiter>, now: int): (r: (bool, Limiter))
    requires ValidConfig(c)
  {
    if l.Some? && (!evict || now <= l.value.expires) then Touch(c, l.value, now)
    else (true, Fresh(c, now))
  }

  /** limiter.go:10 and :51. `times` records when each key was asked for, as far as a bucket decided. */
  class RateLimiter {
    const config: Config
    var limiters: map<string, Limiter>
    ghost var times: map<string, seq<int>>

    /** Every bucket is what the trace of its key leaves behind. */
    ghost predicate Valid()
      reads this
    {
      && ValidConfig(config)
      && limiters.Keys == times.Keys
      && forall key :: key in limiters ==>
           times[key] != [] && Before(config, true, times[key], |times[key]|) == Some(limiters[key])
    }

    constructor (config: Config)
      requires ValidConfig(config)
      ensures Valid() && this.config == config && limiters == map[]
    {
      this.config := config;
      limiters, times := map[], map[];
    }

    /** The requests for `key` so far. */
    ghost function Trace(key: string): (r: seq<int>)
      reads this
    {
      if key in times then times[key] else []
    }

    ghost function Lookup(key: string): (r: Option<Limiter>)
      reads this
    {
      if key in limiters then Some(limiters[key]) else None
    }

    /** limiter.go:66-93: the bucket of one key. */
    method TouchBucket(key: string, now: int) returns (res: bool)
      requires ValidConfig(config)
      modifies this`limiters
      ensures res == Request(config, true, old(Lookup(key)), now).0
      ensures limiters == old(limiters)[key := Request(config, true, old(Lookup(key)), now).1]
    {
      if key in limiters && now <= limiters[key].expires {
        var l := limiters[key];
        l := l.(size := l.size - (now - l.lastUpdate), lastUpdate := now);
        if l.size < 0 { l := l.(size := 0); }
        if l.size > MaxTime(config) {
          res := false;
        } else {
          l := l.(size := l.size + TimeStep(config));
          res := true;
        }
        limiters := limiters[key := l.(expires := now + MINUTE)];
      } else {
        res := true;
        limiters := limiters[key := Limiter(TimeStep(config), now, now + MINUTE)];
      }
    }

    /** The lists decide first; any other request extends its key's trace, and no other, by one decision. */
    method CanHandle(key: string, now: int) returns (res: bool)
      requires Valid()
      modifies this
      ensures Valid()
      ensures !config.enable || key in config.blackList || key in config.whiteList ==>
                && limiters == old(limiters) && times == old(times)
                && res == (!config.enable || key !in config.blackList)
      ensures config.enable && key !in config.blackList && key !in config.whiteList ==>
                && times == old(times)[key := old(Trace(key)) + [now]]
                && limiters - {key} == old(limiters) - {key}
                && res == Accepts(config, true, Trace(key), |Trace(key)| - 1)
    {
      hide Request, Before, Accepts;
      if !config.enable { return true; }
      if key in config.blackList { return false; }
      if key in config.whiteList { return true; }
      ghost var before := Trace(key);
      NothingBefore(config, []);
      assert Lookup(key) == Before(config, true, before, |before|);
      BeforeExtends(config, before, now);
      res := TouchBucket(key, now);
      times := times[key := before + [now]];
    }
  }

  lemma {:induction false} NothingBefore(c: Config, times: seq<int>)
    requires ValidConfig(c)
    ensures Before(c, true, times, 0) == None
  {
  }

  lemma {:induction false} BeforeExtends(c: Config, times: seq<int>, now: int)
    requires ValidConfig(c)
    ensures var n, longer := |times|, times + [now];
            && Accepts(c, true, longer, n) == Request(c, true, Before(c, true, times, n), now).0
            && Before(c, true, longer, n + 1) == Some(Request(c, true, Before(c, true, times, n), now).1)
  {
    BeforePrefix(c, times, now, |times|);
  }

  lemma {:induction false} BeforePrefix(c: Config, times: seq<int>, now: int, i: nat)
    requires ValidConfig(c) && i <= |times|
    ensures Before(c, true, times + [now], i) == Before(c, true, times, i)
  {
    hide Request;
    if i > 0 { BeforePrefix(c, times, now, i - 1); }
  }

  // ----- Request traces of one key -----

  predicate Nondecreasing(times: seq<int>) {
    forall i :: 0 <= i < |times| - 1 ==> times[i] <= times[i + 1]
  }

  /** The bucket before request `i` of a trace that starts with nothing cached. */
  function Before(c: Config, evict: bool, times: seq<int>, i: nat): (r: Option<Limiter>)
    requires ValidConfig(c) && i <= |times|
  {
    if i == 0 then None else Some(Request(c, evict, Before(c, evict, times, i - 1), times[i - 1]).1)
  }

  function Accepts(c: Config, evict: bool, times: seq<int>, i: nat): (r: bool)
    requires ValidConfig(c) && i < |times|
  {
    Request(c, evict, Before(c, evict, times, i), times[i]).0
  }

  /** How many of the requests `i..j` are accepted. */
  function Accepted(c: Config, evict: bool, times: seq<int>, i: nat, j: nat): (k: nat)
    requires ValidConfig(c) && i <= j <= |times|
    ensures k <= j - i
    decreases j
  {
    if i == j then 0
    else Accepted(c, evict, times, i, j - 1) + if Accepts(c, evict, times, j - 1) then 1 else 0
  }

  /** Every bucket holds at most one step more than the maximum, was last touched in the past, and expires a minute later. */
  lemma {:induction false} BucketBounds(c: Config, evict: bool, times: seq<int>, i: nat)
    requires ValidConfig(c) && Nondecreasing(times) && 0 < i <= |times|
    ensures var b := Before(c, evict, times, i);
            b.Some? && 0 <= b.value.size <= MaxTime(c) + TimeStep(c)
            && b.value.lastUpdate == times[i - 1] && b.value.expires == times[i - 1] + MINUTE
  {
    if i > 1 { BucketBounds(c, evict, times, i - 1); }
  }

  lemma {:induction false} OneMore(k: int, step: int)
    ensures (k + 1) * step == k * step + step
    ensures 0 * step == 0
  {
  }

  /** A request at least one step after the previous one is always accepted, evicting or not. */
  lemma {:induction false} SpacedRequestAccepted(c: Config, evict: bool, times: seq<int>, i: nat)
    requires ValidConfig(c) && Nondecreasing(times) && i < |times|
    requires i > 0 ==> times[i] - times[i - 1] >= TimeStep(c)
    ensures Accepts(c, evict, times, i)
  {
    if i > 0 { BucketBounds(c, evict, times, i); }
  }

  // ----- The exact law -----

  /** No gap between requests `j` and `i` was long enough for the cache to forget the bucket. */
  ghost predicate Remembered(evict: bool, times: seq<int>, j: nat, i: nat)
    requires i < |times|
  {
    j <= i && (evict ==> forall k :: j < k <= i ==> times[k] - times[k - 1] <= MINUTE)
  }

  /** What request `i` finds in the bucket after draining; nothing if it finds no bucket. */
  function Found(c: Config, evict: bool, times: seq<int>, i: nat): (l: int)
    requires ValidConfig(c) && i < |times|
    ensures l >= 0
  {
    var b := Before(c, evict, times, i);
    if b.None? || (evict && times[i] > b.value.expires) then 0
    else var drained := b.value.size - (times[i] - b.value.lastUpdate);
         if drained < 0 then 0 else drained
  }

  lemma {:induction false} AcceptsByFound(c: Config, evict: bool, times: seq<int>, i: nat)
    requires ValidConfig(c) && i < |times|
    ensures Accepts(c, evict, times, i) <==> Found(c, evict, times, i) <= MaxTime(c)
  {
    hide TimeStep, MaxTime;
  }

  lemma {:induction false} FoundNext(c: Config, evict: bool, times: seq<int>, i: nat)
    requires ValidConfig(c) && Nondecreasing(times) && i + 1 < |times|
    ensures var left := Found(c, evict, times, i) + (if Accepts(c, evict, times, i) then TimeStep(c) else 0)
                        - (times[i + 1] - times[i]);
            Found(c, evict, times, i + 1)
              == if (evict && times[i + 1] - times[i] > MINUTE) || left < 0 then 0 else left
  {
    BucketBounds(c, evict, times, i + 1);
    if i > 0 { BucketBounds(c, evict, times, i); }
    hide TimeStep, MaxTime;
  }

  /** What the accepted requests of a window have paid in and the clock has not drained. */
  function Unpaid(c: Config, evict: bool, times: seq<int>, j: nat, i: nat): (n: int)
    requires ValidConfig(c) && j <= i < |times|
  {
    Accepted(c, evict, times, j, i) * TimeStep(c) - (times[i] - times[j])
  }

  lemma {:induction false} UnpaidNext(c: Config, evict: bool, times: seq<int>, j: nat, i: nat)
    requires ValidConfig(c) && j <= i && i + 1 < |times|
    ensures Unpaid(c, evict, times, j, i + 1)
              == Unpaid(c, evict, times, j, i) + (if Accepts(c, evict, times, i) then TimeStep(c) else 0)
                 - (times[i + 1] - times[i])
  {
    hide TimeStep, Accepts;
    OneMore(Accepted(c, evict, times, j, i), TimeStep(c));
  }

  /** No window holds more than the bucket. */
  lemma {:induction false} WindowInBucket(c: Config, evict: bool, times: seq<int>, j: nat, i: nat)
    requires ValidConfig(c) && Nondecreasing(times) && i < |times| && Remembered(evict, times, j, i)
    ensures Unpaid(c, evict, times, j, i) <= Found(c, evict, times, i)
    decreases i
  {
    hide Accepted, Accepts, Found, TimeStep, Unpaid;
    if j < i {
      WindowInBucket(c, evict, times, j, i - 1);
      FoundNext(c, evict, times, i - 1);
      UnpaidNext(c, evict, times, j, i - 1);
    } else {
      NothingUnpaid(c, evict, times, i);
    }
  }

  lemma {:induction false} NothingUnpaid(c: Config, evict: bool, times: seq<int>, i: nat)
    requires ValidConfig(c) && i < |times|
    ensures Unpaid(c, evict, times, i, i) == 0
  {
    hide TimeStep;
    OneMore(0, TimeStep(c));
  }

  /** And some window holds as much. */
  lemma {:induction false} SomeWindowFills(c: Config, evict: bool, times: seq<int>, i: nat) returns (j: nat)
    requires ValidConfig(c) && Nondecreasing(times) && i < |times|
    ensures Remembered(evict, times, j, i) && Unpaid(c, evict, times, j, i) == Found(c, evict, times, i)
    decreases i
  {
    hide Accepted, Accepts, Found, TimeStep, Unpaid;
    NothingUnpaid(c, evict, times, i);
    j := i;
    if i == 0 {
      NothingFound(c, evict, times);
    } else {
      FoundNext(c, evict, times, i - 1);
      if Found(c, evict, times, i) != 0 {
        j := SomeWindowFills(c, evict, times, i - 1);
        UnpaidNext(c, evict, times, j, i - 1);
      }
    }
  }

  lemma {:induction false} NothingFound(c: Config, evict: bool, times: seq<int>)
    requires ValidConfig(c) && times != []
    ensures Found(c, evict, times, 0) == 0
  {
  }

  /**
   Every decision, from the requests and the clock alone: a request is accepted exactly when on no
   window that ends with it, and across which the bucket was not forgotten, have the accepted
   requests before it used up the burst and the time that passed. With a cache that never
   forgets every window counts.
   */
  lemma {:induction false} AcceptedIff(c: Config, evict: bool, times: seq<int>, i: nat)
    requires ValidConfig(c) && Nondecreasing(times) && i < |times|
    ensures var step := (60000 / c.rate) * MILLISECOND;
            Accepts(c, evict, times, i) <==>
              forall j: nat :: Remembered(evict, times, j, i) ==>
                Accepted(c, evict, times, j, i) * step <= step * c.burst + (times[i] - times[j])
  {
    AcceptsByFound(c, evict, times, i);
    var full := SomeWindowFills(c, evict, times, i);
    forall j: nat | Remembered(evict, times, j, i) ensures Unpaid(c, evict, times, j, i) <= Found(c, evict, times, i) {
      WindowInBucket(c, evict, times, j, i);
    }
    hide Accepts, Accepted, Found, Remembered;
  }

  /**
   The rate bound, for any window of any trace and a limiter that never forgets: `k` accepted
   requests spanning time T satisfy k * TimeStep <= MaxTime + TimeStep + T.
   */
  lemma {:induction false} RateBound(c: Config, times: seq<int>, i: nat, j: nat)
    requires ValidConfig(c) && Nondecreasing(times) && i < j <= |times|
    ensures Accepted(c, false, times, i, j) * TimeStep(c) <= MaxTime(c) + TimeStep(c) + (times[j - 1] - times[i])
  {
    WindowInBucket(c, false, times, i, j - 1);
    AcceptsByFound(c, false, times, j - 1);
    FoundIsBounded(c, times, j - 1);
    OneMore(Accepted(c, false, times, i, j - 1), TimeStep(c));
    hide TimeStep, MaxTime, Found, Accepts;
  }

  lemma {:induction false} FoundIsBounded(c: Config, times: seq<int>, i: nat)
    requires ValidConfig(c) && Nondecreasing(times) && i < |times|
    ensures Found(c, false, times, i) <= MaxTime(c) + TimeStep(c)
  {
    hide TimeStep, MaxTime;
    if i > 0 { BucketBounds(c, false, times, i); }
  }

  // ----- Expiry -----

  /** No bucket can outlive its entry: a full one has drained by the time the cache forgets it. */
  predicate DrainsBeforeExpiry(c: Config)
    requires ValidConfig(c)
  {
    MaxTime(c) + TimeStep(c) <= MINUTE + 1
  }

  lemma {:induction false} SensibleRatesDrain(c: Config)
    requires ValidConfig(c) && c.burst + 1 <= c.rate <= 60000
    ensures DrainsBeforeExpiry(c)
  {
    var q := 60000 / c.rate;
    assert q * c.rate <= 60000;
    MulMonotone(q, c.burst + 1, c.rate);
    assert q * (c.burst + 1) <= 60000;
    assert MaxTime(c) + TimeStep(c) == (q * (c.burst + 1)) * MILLISECOND by { Scale(q, MILLISECOND, c.burst); }
  }

  lemma {:induction false} MulMonotone(q: int, a: int, b: int)
    requires 0 <= q && a <= b
    ensures q * a <= q * b
  {
  }

  lemma {:induction false} Scale(q: int, m: int, b: int)
    ensures (q * m) * b + q * m == (q * (b + 1)) * m
  {
  }

  lemma {:induction false} SameBuckets(c: Config, times: seq<int>, i: nat)
    requires ValidConfig(c) && DrainsBeforeExpiry(c) && Nondecreasing(times) && i <= |times|
    ensures Before(c, true, times, i) == Before(c, false, times, i)
  {
    if i > 0 {
      SameBuckets(c, times, i - 1);
      if i > 1 { BucketBounds(c, true, times, i - 1); }
    }
  }

  /** Within a burst the bucket takes one more step. */
  lemma {:induction false} BurstRequest(c: Config, evict: bool, t: int, m: nat)
    requires ValidConfig(c) && m <= c.burst
    ensures Request(c, evict, Some(Limiter(m * TimeStep(c), t, t + MINUTE)), t)
              == (true, Limiter((m + 1) * TimeStep(c), t, t + MINUTE))
  {
    var step := TimeStep(c);
    hide TimeStep;
    OneMore(m, step);
    MulMonotone(step, m, c.burst);
    assert 0 <= m * step == step * m <= MaxTime(c);
  }

  /** From an empty start, up to Burst + 1 simultaneous requests are all accepted. */
  lemma {:induction false} BurstFills(c: Config, evict: bool, times: seq<int>, s: nat, m: nat)
    requires ValidConfig(c) && 1 <= m <= c.burst + 1 && s + m <= |times|
    requires forall k :: s <= k < s + m ==> times[k] == times[s]
    requires Request(c, evict, Before(c, evict, times, s), times[s]) == (true, Fresh(c, times[s]))
    ensures Before(c, evict, times, s + m) == Some(Limiter(m * TimeStep(c), times[s], times[s] + MINUTE))
    ensures Accepted(c, evict, times, s, s + m) == m
    decreases m
  {
    hide TimeStep, Request;
    assert times[s + m - 1] == times[s];
    if m == 1 {
      assert Accepted(c, evict, times, s, s) == 0;
      OneMore(0, TimeStep(c));
    } else {
      BurstFills(c, evict, times, s, m - 1);
      BurstRequest(c, evict, times[s], m - 1);
    }
  }

  /** The bound is tight: Burst + 1 requests at one moment meet it exactly, and the next one is refused. */
  lemma {:induction false} BoundIsReached(c: Config, evict: bool, t: int)
    requires ValidConfig(c)
    ensures var n := c.burst + 1;
            var times := seq(n + 1, _ => t);
            && Accepted(c, evict, times, 0, n) * TimeStep(c) == MaxTime(c) + TimeStep(c)
            && (Accepts(c, evict, times, n) <==> TimeStep(c) == 0)
  {
    var n := c.burst + 1;
    var times := seq(n + 1, _ => t);
    BurstFills(c, evict, times, 0, n);
    OneMore(c.burst, TimeStep(c));
    assert MaxTime(c) == c.burst * TimeStep(c);
    assert times[n] == t;
  }

  /** `n` requests at 0, then `n` at the first moment the cache has forgotten the first ones. */
  function TwoBursts(n: nat): (r: seq<int>) {
    seq(2 * n, i => if i < n then 0 else MINUTE + 1)
  }

  lemma {:induction false} BothBurstsAccepted(c: Config)
    requires ValidConfig(c)
    ensures var n := c.burst + 1; Accepted(c, true, TwoBursts(n), 0, 2 * n) == 2 * n
  {
    hide TimeStep, MaxTime, Accepted, Before;
    var n := c.burst + 1;
    var times := TwoBursts(n);
    NothingBefore(c, times);
    BurstFills(c, true, times, 0, n);
    BurstFills(c, true, times, n, n);
    AcceptedSplits(c, true, times, 0, n, 2 * n);
  }

  lemma {:induction false} AcceptedSplits(c: Config, evict: bool, times: seq<int>, i: nat, j: nat, k: nat)
    requires ValidConfig(c) && i <= j <= k <= |times|
    ensures Accepted(c, evict, times, i, k) == Accepted(c, evict, times, i, j) + Accepted(c, evict, times, j, k)
    decreases k
  {
    if j < k { AcceptedSplits(c, evict, times, i, j, k - 1); }
  }

  lemma {:induction false} SameCounts(c: Config, times: seq<int>, i: nat, j: nat)
    requires ValidConfig(c) && i <= j <= |times|
    requires forall k :: 0 <= k < |times| ==> Accepts(c, true, times, k) == Accepts(c, false, times, k)
    ensures Accepted(c, true, times, i, j) == Accepted(c, false, times, i, j)
    decreases j
  {
    if i < j { SameCounts(c, times, i, j - 1); }
  }

  ghost predicate ExpiryInvisible(c: Config)
    requires ValidConfig(c)
  {
    forall times: seq<int>, i: nat :: Nondecreasing(times) && i < |times| ==>
      Accepts(c, true, times, i) == Accepts(c, false, times, i)
  }

  ghost predicate RateBounded(c: Config)
    requires ValidConfig(c)
  {
    forall times: seq<int>, i: nat, j: nat :: Nondecreasing(times) && i < j <= |times| ==>
      Accepted(c, true, times, i, j) * TimeStep(c) <= MaxTime(c) + TimeStep(c) + (times[j - 1] - times[i])
  }

  /** Two bursts a minute apart break the bound unless the first has drained. */
  lemma {:induction false} TwoBurstsNeedDrain(c: Config)
    requires ValidConfig(c)
    requires var n := c.burst + 1;
             Accepted(c, true, TwoBursts(n), 0, 2 * n) * TimeStep(c) <= MaxTime(c) + TimeStep(c) + (MINUTE + 1)
    ensures DrainsBeforeExpiry(c)
  {
    BothBurstsAccepted(c);
    TwiceMinusOnce(c.burst, TimeStep(c));
  }

  lemma {:induction false} TwiceMinusOnce(b: int, step: int)
    ensures (2 * (b + 1)) * step == 2 * (step * b + step)
  {
  }

  lemma {:induction false} SameDecision(c: Config, times: seq<int>, i: nat)
    requires ValidConfig(c) && DrainsBeforeExpiry(c) && Nondecreasing(times) && i < |times|
    ensures Accepts(c, true, times, i) == Accepts(c, false, times, i)
  {
    SameBuckets(c, times, i);
    if i > 0 { BucketBounds(c, true, times, i); }
  }

  lemma {:induction false} DrainedIsInvisible(c: Config)
    requires ValidConfig(c) && DrainsBeforeExpiry(c)
    ensures ExpiryInvisible(c)
  {
    forall times: seq<int>, i: nat | Nondecreasing(times) && i < |times|
      ensures Accepts(c, true, times, i) == Accepts(c, false, times, i)
    {
      SameDecision(c, times, i);
    }
  }

  lemma {:induction false} InvisibleIsBounded(c: Config)
    requires ValidConfig(c) && ExpiryInvisible(c)
    ensures RateBounded(c)
  {
    hide TimeStep, MaxTime, Accepts;
    forall times: seq<int>, i: nat, j: nat | Nondecreasing(times) && i < j <= |times|
      ensures Accepted(c, true, times, i, j) * TimeStep(c) <= MaxTime(c) + TimeStep(c) + (times[j - 1] - times[i])
    {
      SameCounts(c, times, i, j);
      RateBound(c, times, i, j);
    }
  }

  lemma {:induction false} BoundedIsDrained(c: Config)
    requires ValidConfig(c) && RateBounded(c)
    ensures DrainsBeforeExpiry(c)
  {
    hide TimeStep, MaxTime, Accepted;
    var n := c.burst + 1;
    var times := TwoBursts(n);
    TwoBurstsSpan(n);
    var zero: nat, end: nat := 0, 2 * n;
    assert Accepted(c, true, times, zero, end) * TimeStep(c)
             <= MaxTime(c) + TimeStep(c) + (times[end - 1] - times[zero]);
    TwoBurstsNeedDrain(c);
  }

  /**
   The eviction of idle buckets is invisible on every trace, and with it the rate bound holds
   on every window of every trace, exactly when a full bucket drains within the cache's minute.
   */
  lemma {:induction false} ExpiryIsHarmlessIff(c: Config)
    requires ValidConfig(c)
    ensures ExpiryInvisible(c) <==> DrainsBeforeExpiry(c)
    ensures RateBounded(c) <==> DrainsBeforeExpiry(c)
  {
    hide ExpiryInvisible, RateBounded, DrainsBeforeExpiry;
    if DrainsBeforeExpiry(c) { DrainedIsInvisible(c); }
    if ExpiryInvisible(c) { InvisibleIsBounded(c); }
    if RateBounded(c) { BoundedIsDrained(c); }
  }

  /**
   A limiter that forgets too soon: a request a second with bursts of a hundred. Two bursts of 101
   requests a minute apart are all accepted, which no limiter that remembers would do.
   */
  lemma {:induction false} ForgottenTooSoon()
    ensures var c, times := Config(true, 100, 60, {}, {}), TwoBursts(101);
            && ValidConfig(c) && !DrainsBeforeExpiry(c)
            && Nondecreasing(times) && times[0] == 0 && times[201] == MINUTE + 1
            && Accepted(c, true, times, 0, 202) == 202 && Accepted(c, false, times, 0, 202) < 202
            && 202 * TimeStep(c) > MaxTime(c) + TimeStep(c) + (MINUTE + 1)
  {
    hide Accepted, TwoBursts, TimeStep, MaxTime;
    var c, times := Config(true, 100, 60, {}, {}), TwoBursts(101);
    OneASecond(c);
    TwoBurstsSpan(101);
    BothBurstsAccepted(c);
    RateBound(c, times, 0, 202);
  }

  lemma {:induction false} OneASecond(c: Config)
    requires c.rate == 60 && c.burst == 100
    ensures ValidConfig(c) && TimeStep(c) == 1000 * MILLISECOND && MaxTime(c) == 100_000 * MILLISECOND
  {
  }

  lemma {:induction false} TwoBurstsSpan(n: nat)
    requires n > 0
    ensures var times := TwoBursts(n);
            |times| == 2 * n && Nondecreasing(times) && times[0] == 0 && times[2 * n - 1] == MINUTE + 1
  {
  }
}
