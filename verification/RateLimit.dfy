/** The two budget algorithms as arithmetic on what the cache holds. */
module RateRules {
  import opened Options
  import opened RealBounds

  datatype RateLimitResult = RateLimitResult(allowed: bool, remaining: real, limit: real, retryAfter: real)

  /** The number of the window that t falls into. */
  function WindowIndex(t: real, window: real): int
    requires window != 0.0
  {
    (t / window).Floor
  }

  function FixedResult(limit: int, window: real, count: int, now: real): RateLimitResult
    requires window != 0.0
  {
    var remaining := Max(0.0, (limit - count) as real);
    if count > limit then
      RateLimitResult(false, remaining, limit as real, window - (now - window * WindowIndex(now, window) as real))
    else RateLimitResult(true, remaining, limit as real, 0.0)
  }

  /** What a bucket key holds: the tokens left at the last check, and its time. */
  datatype Held = Held(tokens: real, ts: real)

  /** A bucket's size, refill rate, how long it is kept after a check, and what to say when it never refills. */
  datatype Bucket = Bucket(capacity: real, rate: real, keep: real, never: real) {
    /** Tokens on hand at time now, given the entry that is still there. */
    function Refilled(seen: Option<Held>, now: real): real {
      if seen.None? then capacity
      else Min(capacity, seen.value.tokens + Max(0.0, now - seen.value.ts) * rate)
    }

    function Admits(seen: Option<Held>, cost: int, now: real): bool {
      Refilled(seen, now) >= cost as real
    }

    function Left(seen: Option<Held>, cost: int, now: real): real {
      if Admits(seen, cost, now) then Refilled(seen, now) - cost as real else Refilled(seen, now)
    }

    function RetryAfter(seen: Option<Held>, cost: int, now: real): real {
      if rate > 0.0 then (cost as real - Refilled(seen, now)) / rate else never
    }

    function Result(seen: Option<Held>, cost: int, now: real): RateLimitResult {
      if Admits(seen, cost, now) then RateLimitResult(true, Left(seen, cost, now), capacity, 0.0)
      else RateLimitResult(false, Left(seen, cost, now), capacity, RetryAfter(seen, cost, now))
    }
  }
}

/** The limiter object over a shared cache. */
module RateLimit {
  import opened Options
  import opened RealBounds
  import opened RateRules
  import opened TimedMap
  import opened MemoryCache

  datatype Stored = Count(n: int) | Tokens(held: Held)

  function AsNumber(): Numbers<Stored> {
    Numbers((v: Stored) => match v case Count(n) => Some(n) case Tokens(_) => None, (n: int) => Count(n))
  }

  /** The bucket under key that has not expired. */
  function Seen(data: Table<Stored>, key: string, now: real): Option<Held> {
    match Live(data, key, now)
    case Some(e) => (match e.value case Tokens(h) => Some(h) case Count(_) => None)
    case None => None
  }

  class RateLimiter {
    const cache: MemoryCache<Stored>
    const limit: int
    const window: real
    const burst: Option<int>
    /** Hashes of (identity, window number) and of the identity alone, under different prefixes. */
    const windowKey: (string, int) -> string
    const bucketKey: string -> string

    constructor (cache: MemoryCache<Stored>, limit: int, window: real, burst: Option<int>,
                 windowKey: (string, int) -> string, bucketKey: string -> string)
      ensures this.cache == cache && this.limit == limit && this.window == window && this.burst == burst
      ensures this.windowKey == windowKey && this.bucketKey == bucketKey
    {
      this.cache, this.limit, this.window, this.burst := cache, limit, window, burst;
      this.windowKey, this.bucketKey := windowKey, bucketKey;
    }

    /** The counter of the current window has been charged, and r says how that came out. */
    ghost predicate Counted(before: Table<Stored>, identity: string, cost: int, now: real, r: Option<RateLimitResult>)
      requires window != 0.0
      reads cache
    {
      var op := Op.Incr(windowKey(identity, WindowIndex(now, window)), cost, Some(window));
      var a := StepAnswer(cache.ns, before, 0, 0, op, now);
      && cache.data == StepData(cache.ns, before, op, now)
      && r == if a.Counted? then Some(FixedResult(limit, window, a.n, now)) else None
    }

    /** Charges the counter of the current window, whether or not the request is then admitted.
        None is the error of a window of length zero, or of a counter that is not a number. */
    method CheckFixedWindow(identity: string, cost: int, now: real) returns (r: Option<RateLimitResult>)
      modifies cache
      ensures window == 0.0 ==> r.None? && cache.data == old(cache.data)
      ensures window != 0.0 ==> Counted(old(cache.data), identity, cost, now, r)
    {
      if window == 0.0 { return None; }
      var key := windowKey(identity, WindowIndex(now, window));
      var count := cache.Incr(key, cost, Some(window), now);
      if count.None? { return None; }
      var remaining := limit - count.value;
      if count.value > limit {
        var retry := window - (now - window * WindowIndex(now, window) as real);
        return Some(RateLimitResult(false, Max(0.0, remaining as real), limit as real, retry));
      }
      r := Some(RateLimitResult(true, Max(0.0, remaining as real), limit as real, 0.0));
    }

    /** Reads the bucket without changing what anyone will see. */
    method Recall(key: string, now: real) returns (held: Option<Held>)
      requires HoldsBucket(cache.data, key, now)
      modifies cache
      ensures held == Seen(old(cache.data), key, now)
      ensures Unseen(old(cache.data), cache.data, now)
    {
      var found := cache.Get(key, now);
      held := if found.Some? then Some(found.value.held) else None;
    }

    /** The tokens on hand, as the last check left them and time has refilled them. */
    method Refill(key: string, now: real) returns (tokens: real)
      requires burst.Some? && HoldsBucket(cache.data, key, now)
      modifies cache
      ensures tokens == Rule().Refilled(Seen(old(cache.data), key, now), now)
      ensures Unseen(old(cache.data), cache.data, now)
    {
      var capacity := burst.value as real;
      var rate := if window != 0.0 then limit as real / window else limit as real;
      var found := Recall(key, now);
      var state := if found.Some? then found.value else Held(capacity, now);
      var elapsed := Max(0.0, now - state.ts);
      tokens := Min(capacity, state.tokens + elapsed * rate);
    }

    method Remember(key: string, held: Held, now: real)
      modifies cache
      ensures Stores(old(cache.data), cache.data, key, Entry(Tokens(held), Some(now + window * 4.0)), now)
    {
      cache.Set(key, Tokens(held), Some(window * 4.0), now);
    }

    /** Refills the bucket, charges it if the cost fits, and stores it again for four windows.  Nothing else in the
        cache looks different afterwards. */
    method CheckTokenBucket(identity: string, cost: int, now: real) returns (r: RateLimitResult)
      requires burst.Some? && HoldsBucket(cache.data, bucketKey(identity), now)
      modifies cache
      ensures r == Rule().Result(Seen(old(cache.data), bucketKey(identity), now), cost, now)
      ensures Stores(old(cache.data), cache.data, bucketKey(identity),
                     Kept(Rule(), Seen(old(cache.data), bucketKey(identity), now), cost, now), now)
    {
      var capacity := burst.value as real;
      var rate := if window != 0.0 then limit as real / window else limit as real;
      var key := bucketKey(identity);
      var tokens := Refill(key, now);
      ghost var mid := cache.data;
      if tokens >= cost as real {
        tokens := tokens - cost as real;
        r := RateLimitResult(true, tokens, capacity, 0.0);
      } else {
        var retry := if rate > 0.0 then (cost as real - tokens) / rate else window;
        r := RateLimitResult(false, tokens, capacity, retry);
      }
      Remember(key, Held(tokens, now), now);
      StoresSince(old(cache.data), mid, cache.data, key,
                  Entry(Tokens(Held(tokens, now)), Some(now + window * 4.0)), now);
    }

    function Rule(): Bucket
      requires burst.Some?
    {
      BucketOf(limit, window, burst.value)
    }

    /** One entry point: an empty identity counts as anonymous, and a burst selects the token bucket. */
    method Check(identity: string, cost: int, now: real) returns (r: Option<RateLimitResult>)
      requires burst.Some? ==> HoldsBucket(cache.data, bucketKey(Named(identity)), now)
      modifies cache
      ensures burst.Some? ==>
                r == Some(Rule().Result(Seen(old(cache.data), bucketKey(Named(identity)), now), cost, now))
      ensures burst.Some? ==>
                Stores(old(cache.data), cache.data, bucketKey(Named(identity)),
                       Kept(Rule(), Seen(old(cache.data), bucketKey(Named(identity)), now), cost, now), now)
      ensures burst.None? && window == 0.0 ==> r.None? && cache.data == old(cache.data)
      ensures burst.None? && window != 0.0 ==> Counted(old(cache.data), Named(identity), cost, now, r)
    {
      var who := Named(identity);
      if burst.Some? {
        var b := CheckTokenBucket(who, cost, now);
        r := Some(b);
      } else {
        r := CheckFixedWindow(who, cost, now);
      }
    }
  }

  function BucketOf(limit: int, window: real, burst: int): Bucket {
    Bucket(burst as real, if window != 0.0 then limit as real / window else limit as real, window * 4.0, window)
  }

  function Named(identity: string): string {
    if identity == "" then "anonymous" else identity
  }

  /** Whatever lives under key is a bucket. */
  predicate HoldsBucket(data: Table<Stored>, key: string, now: real) {
    Live(data, key, now).Some? ==> Live(data, key, now).value.value.Tokens?
  }

  /** The entry a check leaves behind. */
  function Kept(b: Bucket, seen: Option<Held>, cost: int, now: real): Entry<Stored> {
    Entry(Tokens(Held(b.Left(seen, cost, now), now)), Some(now + b.keep))
  }

  /** Nobody can tell the two apart from now on. */
  ghost predicate Unseen(before: Table<Stored>, after: Table<Stored>, now: real) {
    forall k: string, t: real :: now <= t ==> Live(after, k, t) == Live(before, k, t)
  }

  lemma StoresSince(before: Table<Stored>, mid: Table<Stored>, after: Table<Stored>, key: string, e: Entry<Stored>,
                    now: real)
    requires Unseen(before, mid, now) && Stores(mid, after, key, e, now)
    ensures Stores(before, after, key, e, now)
  {}

  /** From now on key holds e, until it expires, and nothing else has changed for anyone. */
  ghost predicate Stores(before: Table<Stored>, after: Table<Stored>, key: string, e: Entry<Stored>, now: real) {
    forall k: string, t: real :: now <= t ==>
      Live(after, k, t) == if k != key then Live(before, k, t) else if Expired(e, t) then None else Some(e)
  }
}

/** Token buckets over whole runs. */
module TokenBucketRuns {
  import opened Options
  import opened RealBounds
  import opened RealProducts
  import opened RateRules

  datatype Check = Check(cost: nat, time: real)

  ghost predicate Ok(b: Bucket) {
    b.capacity >= 0.0 && b.rate > 0.0 && b.keep > 0.0
  }

  /** What a later check finds: nothing once the entry has been kept long enough. */
  function StillHeld(b: Bucket, h: Option<Held>, now: real): Option<Held> {
    if h.Some? && now < h.value.ts + b.keep then h else None
  }

  function Tokens(b: Bucket, h: Option<Held>, now: real): real {
    b.Refilled(StillHeld(b, h, now), now)
  }

  function Admitted(b: Bucket, h: Option<Held>, c: Check): nat {
    if b.Admits(StillHeld(b, h, c.time), c.cost, c.time) then c.cost else 0
  }

  function Next(b: Bucket, h: Option<Held>, c: Check): Held {
    Held(b.Left(StillHeld(b, h, c.time), c.cost, c.time), c.time)
  }

  ghost predicate InOrder(checks: seq<Check>, from: real) {
    && (forall i :: 0 <= i < |checks| ==> from <= checks[i].time)
    && (forall i, j :: 0 <= i < j < |checks| ==> checks[i].time <= checks[j].time)
  }

  /** What came of a check: the cost admitted, and the tokens left. */
  datatype Done = Done(time: real, admitted: nat, left: real)

  function Run(b: Bucket, h: Option<Held>, checks: seq<Check>): seq<Done>
    decreases |checks|
  {
    if checks == [] then []
    else
      [Done(checks[0].time, Admitted(b, h, checks[0]), Next(b, h, checks[0]).tokens)]
      + Run(b, Some(Next(b, h, checks[0])), checks[1..])
  }

  /** The cost admitted between times s and t, both included. */
  function SumBetween(run: seq<Done>, s: real, t: real): nat {
    if run == [] then 0
    else (if s <= run[0].time <= t then run[0].admitted else 0) + SumBetween(run[1..], s, t)
  }

  /** Stored tokens lie between nothing and the capacity, stored no later than now. */
  ghost predicate HeldOk(b: Bucket, h: Option<Held>, now: real) {
    h.Some? ==> 0.0 <= h.value.tokens <= b.capacity && h.value.ts <= now
  }

  lemma Scale(x: real, y: real, rate: real)
    requires rate >= 0.0 && x <= y
    ensures x * rate <= y * rate
  {}

  lemma Passes(from: real, to: real, rate: real)
    requires rate >= 0.0 && from <= to
    ensures 0.0 <= (to - from) * rate
  {}

  /** Every check keeps the stored tokens within bounds. */
  lemma NextOk(b: Bucket, h: Option<Held>, c: Check)
    requires Ok(b) && HeldOk(b, h, c.time)
    ensures HeldOk(b, Some(Next(b, h, c)), c.time) && Next(b, h, c).ts == c.time
    ensures 0.0 <= Tokens(b, h, c.time) <= b.capacity
    ensures Next(b, h, c).tokens == Tokens(b, h, c.time) - Admitted(b, h, c) as real
  {
    if h.Some? { Passes(h.value.ts, c.time, b.rate); }
  }

  /** Tokens on hand can only have grown at the refill rate: even an entry that expired had, by then, been refilled. */
  lemma TokensGrow(b: Bucket, h: Held, now: real)
    requires Ok(b) && b.capacity <= b.keep * b.rate && HeldOk(b, Some(h), now)
    ensures Tokens(b, Some(h), now) <= h.tokens + (now - h.ts) * b.rate
  {
    var gain := (now - h.ts) * b.rate;
    if now < h.ts + b.keep { RefillGrows(b, h, now, gain); } else { ForgottenIsRefilled(b, h, now, gain); }
  }

  lemma RefillGrows(b: Bucket, h: Held, now: real, gain: real)
    requires h.ts <= now && gain == (now - h.ts) * b.rate
    ensures b.Refilled(Some(h), now) <= h.tokens + gain
  {
    assert Max(0.0, now - h.ts) == now - h.ts;
  }

  lemma ForgottenIsRefilled(b: Bucket, h: Held, now: real, gain: real)
    requires Ok(b) && b.capacity <= b.keep * b.rate && h.ts + b.keep <= now && gain == (now - h.ts) * b.rate
    ensures b.capacity <= gain
  {
    Scale(b.keep, now - h.ts, b.rate);
  }

  /** What a bucket of that rate gains between two times. */
  function GainOf(rate: real): (real, real) -> real {
    (from: real, to: real) => (to - from) * rate
  }

  /** All that matters about gains: they are never negative, and they add up. */
  ghost predicate Steady(gain: (real, real) -> real) {
    && (forall a: real, u: real :: a <= u ==> 0.0 <= gain(a, u))
    && (forall a: real, u: real, t: real {:trigger gain(a, u), gain(u, t)} :: gain(a, u) + gain(u, t) == gain(a, t))
  }

  lemma GainIsSteady(rate: real)
    requires rate >= 0.0
    ensures Steady(GainOf(rate))
  {
    var gain := GainOf(rate);
    forall a: real, u: real | a <= u ensures 0.0 <= gain(a, u) { Passes(a, u, rate); }
    forall a: real, u: real, t: real ensures gain(a, u) + gain(u, t) == gain(a, t) { Elapse(a, u, t, rate); }
  }

  lemma Elapse(a: real, u: real, t: real, rate: real)
    ensures (u - a) * rate + (t - u) * rate == (t - a) * rate
  {}

  /** d can follow a check at time ts that left so many tokens: it shares out what was left and what was gained. */
  ghost predicate Follows(capacity: real, gain: (real, real) -> real, left: real, ts: real, d: Done) {
    && ts <= d.time && 0.0 <= d.left
    && d.left + d.admitted as real <= capacity
    && d.left + d.admitted as real <= left + gain(ts, d.time)
  }

  ghost predicate Chain(capacity: real, gain: (real, real) -> real, left: real, ts: real, run: seq<Done>)
    decreases |run|
  {
    run == [] ||
    (Follows(capacity, gain, left, ts, run[0]) && Chain(capacity, gain, run[0].left, run[0].time, run[1..]))
  }

  lemma {:induction false} NoneAfter(capacity: real, gain: (real, real) -> real, left: real, ts: real, run: seq<Done>,
                                     s: real, t: real)
    requires Chain(capacity, gain, left, ts, run) && t < ts
    ensures SumBetween(run, s, t) == 0
    decreases |run|
  {
    if run != [] { NoneAfter(capacity, gain, run[0].left, run[0].time, run[1..], s, t); }
  }

  /** From a check on, at most the tokens it left and what is gained can be admitted. */
  lemma {:induction false} ChainBound(capacity: real, gain: (real, real) -> real, left: real, ts: real, run: seq<Done>,
                                      s: real, t: real)
    requires Steady(gain) && Chain(capacity, gain, left, ts, run) && 0.0 <= left && ts <= t
    ensures SumBetween(run, s, t) as real <= left + gain(ts, t)
    decreases |run|
  {
    if run != [] {
      var d := run[0];
      if d.time > t {
        NoneAfter(capacity, gain, d.left, d.time, run[1..], s, t);
      } else {
        ChainBound(capacity, gain, d.left, d.time, run[1..], s, t);
        assert gain(ts, d.time) + gain(d.time, t) == gain(ts, t);
      }
    }
  }

  /** Over an interval, at most a full bucket and what is gained meanwhile. */
  lemma {:induction false} ChainBetween(capacity: real, gain: (real, real) -> real, left: real, ts: real,
                                        run: seq<Done>, s: real, t: real)
    requires Steady(gain) && Chain(capacity, gain, left, ts, run) && capacity >= 0.0 && s <= t
    ensures SumBetween(run, s, t) as real <= capacity + gain(s, t)
    decreases |run|
  {
    if run != [] {
      var d := run[0];
      if d.time > t {
        NoneAfter(capacity, gain, d.left, d.time, run[1..], s, t);
      } else if d.time < s {
        ChainBetween(capacity, gain, d.left, d.time, run[1..], s, t);
      } else {
        ChainBound(capacity, gain, d.left, d.time, run[1..], s, t);
        assert gain(s, d.time) + gain(d.time, t) == gain(s, t);
      }
    }
  }

  lemma RestInOrder(checks: seq<Check>, from: real)
    requires checks != [] && InOrder(checks, from)
    ensures InOrder(checks[1..], checks[0].time) && from <= checks[0].time
  {
    forall i | 0 <= i < |checks[1..]| ensures checks[0].time <= checks[1..][i].time {
      assert checks[0].time <= checks[i + 1].time;
    }
  }

  lemma HeldStep(b: Bucket, h: Held, c: Check)
    requires Ok(b) && b.capacity <= b.keep * b.rate && HeldOk(b, Some(h), c.time)
    ensures Follows(b.capacity, GainOf(b.rate), h.tokens, h.ts,
                    Done(c.time, Admitted(b, Some(h), c), Next(b, Some(h), c).tokens))
  {
    NextOk(b, Some(h), c);
    TokensGrow(b, h, c.time);
  }

  lemma {:induction false} RunIsChain(b: Bucket, h: Held, checks: seq<Check>)
    requires Ok(b) && b.capacity <= b.keep * b.rate && HeldOk(b, Some(h), h.ts) && InOrder(checks, h.ts)
    ensures Chain(b.capacity, GainOf(b.rate), h.tokens, h.ts, Run(b, Some(h), checks))
    decreases |checks|
  {
    if checks != [] {
      RestInOrder(checks, h.ts);
      HeldStep(b, h, checks[0]);
      NextOk(b, Some(h), checks[0]);
      RunIsChain(b, Next(b, Some(h), checks[0]), checks[1..]);
      assert Run(b, Some(h), checks)[1..] == Run(b, Some(Next(b, Some(h), checks[0])), checks[1..]);
    }
  }

  /** A run on an empty cache starts with a full bucket. */
  lemma FreshRun(b: Bucket, checks: seq<Check>, from: real)
    requires Ok(b) && b.capacity <= b.keep * b.rate && InOrder(checks, from)
    ensures Chain(b.capacity, GainOf(b.rate), b.capacity, from, Run(b, None, checks))
  {
    if checks != [] {
      var c := checks[0];
      RestInOrder(checks, from);
      FreshStep(b, c, from);
      NextOk(b, None, c);
      RunIsChain(b, Next(b, None, c), checks[1..]);
      assert Run(b, None, checks)[1..] == Run(b, Some(Next(b, None, c)), checks[1..]);
    }
  }

  lemma FreshStep(b: Bucket, c: Check, from: real)
    requires Ok(b) && from <= c.time
    ensures Follows(b.capacity, GainOf(b.rate), b.capacity, from,
                    Done(c.time, Admitted(b, None, c), Next(b, None, c).tokens))
  {
    NextOk(b, None, c);
    Passes(from, c.time, b.rate);
  }

  /** No run from an empty cache ever admits more than a full bucket and (t - s) * rate between s and t. */
  ghost predicate RateBounded(b: Bucket) {
    forall checks: seq<Check>, from: real, s: real, t: real :: InOrder(checks, from) && s <= t ==>
      SumBetween(Run(b, None, checks), s, t) as real <= b.capacity + (t - s) * b.rate
  }

  lemma RunBounded(b: Bucket, checks: seq<Check>, from: real, s: real, t: real)
    requires Ok(b) && b.capacity <= b.keep * b.rate && InOrder(checks, from) && s <= t
    ensures SumBetween(Run(b, None, checks), s, t) as real <= b.capacity + (t - s) * b.rate
  {
    var gain, run := SteadyRun(b, checks, from, s, t);
    ChainBetween(b.capacity, gain, b.capacity, from, run, s, t);
  }

  lemma SteadyRun(b: Bucket, checks: seq<Check>, from: real, s: real, t: real)
    returns (gain: (real, real) -> real, run: seq<Done>)
    requires Ok(b) && b.capacity <= b.keep * b.rate && InOrder(checks, from)
    ensures Steady(gain) && gain(s, t) == (t - s) * b.rate
    ensures run == Run(b, None, checks) && Chain(b.capacity, gain, b.capacity, from, run)
  {
    gain, run := GainOf(b.rate), Run(b, None, checks);
    GainIsSteady(b.rate);
    FreshRun(b, checks, from);
  }

  /** The promised rate holds exactly when the bucket can refill within the time it is kept. */
  lemma BoundedExactly(b: Bucket, burst: nat)
    requires Ok(b) && b.capacity == burst as real
    ensures RateBounded(b) <==> b.capacity <= b.keep * b.rate
  {
    if b.capacity <= b.keep * b.rate {
      forall checks: seq<Check>, from: real, s: real, t: real | InOrder(checks, from) && s <= t
        ensures SumBetween(Run(b, None, checks), s, t) as real <= b.capacity + (t - s) * b.rate
      {
        RunBounded(b, checks, from, s, t);
      }
    } else {
      DrainWaitDrain(b, burst);
    }
  }

  /** Empty a large bucket, wait until it is forgotten, and empty it again. */
  lemma DrainWaitDrain(b: Bucket, burst: nat)
    requires Ok(b) && b.capacity == burst as real && b.capacity > b.keep * b.rate
    ensures !RateBounded(b)
  {
    var first, second := Check(burst, 0.0), Check(burst, b.keep);
    var checks := [first, second];
    assert InOrder(checks, 0.0);
    DrainTwice(b, burst, first, second);
    assert (b.keep - 0.0) * b.rate == b.keep * b.rate;
  }

  lemma DrainTwice(b: Bucket, burst: nat, first: Check, second: Check)
    requires Ok(b) && b.capacity == burst as real && first == Check(burst, 0.0) && second == Check(burst, b.keep)
    ensures SumBetween(Run(b, None, [first, second]), 0.0, b.keep) == 2 * burst
  {
    var h := Next(b, None, first);
    assert Admitted(b, None, first) == burst && Admitted(b, Some(h), second) == burst;
    assert [first, second][1..] == [second] && [second][1..] == [];
    var last := Done(b.keep, burst, Next(b, Some(h), second).tokens);
    assert Run(b, Some(h), [second]) == [last];
    assert Run(b, None, [first, second]) == [Done(0.0, burst, h.tokens), last];
    SumOfTwo(Done(0.0, burst, h.tokens), last, 0.0, b.keep);
  }

  lemma SumOfTwo(a: Done, c: Done, s: real, t: real)
    requires s <= a.time <= t && s <= c.time <= t
    ensures SumBetween([a, c], s, t) == a.admitted + c.admitted
  {
    assert [a, c][1..] == [c] && [c][1..] == [];
    assert SumBetween([c], s, t) == c.admitted;
  }

  // --- retry_after ---------------------------------------------------------------------------------

  /** A refused request that fits the bucket is admitted when retried alone from retry_after on, and not before;
      only the forgetting of the bucket can make it earlier. */
  lemma RetryAfterIsExact(b: Bucket, h: Option<Held>, c: Check, delay: real)
    requires Ok(b) && HeldOk(b, h, c.time) && c.cost as real <= b.capacity && delay >= 0.0
    requires !b.Admits(StillHeld(b, h, c.time), c.cost, c.time)
    ensures b.Admits(StillHeld(b, Some(Next(b, h, c)), c.time + delay), c.cost, c.time + delay) <==>
            delay >= b.RetryAfter(StillHeld(b, h, c.time), c.cost, c.time) || delay >= b.keep
  {
    NextOk(b, h, c);
    var x := Tokens(b, h, c.time);
    WaitIs(b.rate, x, c.cost as real, b.RetryAfter(StillHeld(b, h, c.time), c.cost, c.time), delay);
    Retried(b, Next(b, h, c), x, c, delay);
  }

  /** When the bucket can refill within the time it is kept, retry_after never exceeds that time, so it is exact. */
  lemma RetryAfterWithinKeep(b: Bucket, h: Option<Held>, c: Check)
    requires Ok(b) && HeldOk(b, h, c.time) && c.cost as real <= b.capacity <= b.keep * b.rate
    requires !b.Admits(StillHeld(b, h, c.time), c.cost, c.time)
    ensures 0.0 < b.RetryAfter(StillHeld(b, h, c.time), c.cost, c.time) <= b.keep
  {
    NextOk(b, h, c);
    WaitWithin(b, Tokens(b, h, c.time), c.cost as real, b.RetryAfter(StillHeld(b, h, c.time), c.cost, c.time));
  }

  lemma WaitWithin(b: Bucket, x: real, cost: real, wait: real)
    requires b.rate > 0.0 && 0.0 <= x < cost <= b.capacity <= b.keep * b.rate && wait == (cost - x) / b.rate
    ensures 0.0 < wait <= b.keep
  {
    WaitIs(b.rate, x, cost, wait, b.keep);
  }

  /** A request retried alone meets the tokens left, refilled for the delay, or a full bucket. */
  lemma Retried(b: Bucket, h: Held, x: real, c: Check, delay: real)
    requires Ok(b) && h == Held(x, c.time) && 0.0 <= x <= b.capacity && c.cost as real <= b.capacity && delay >= 0.0
    ensures b.Admits(StillHeld(b, Some(h), c.time + delay), c.cost, c.time + delay) <==>
            delay >= b.keep || x + delay * b.rate >= c.cost as real
  {
    var elapsed := (c.time + delay) - h.ts;
    assert elapsed == delay && Max(0.0, elapsed) == delay;
    Passes(0.0, delay, b.rate);
    if delay < b.keep {
      assert b.Refilled(StillHeld(b, Some(h), c.time + delay), c.time + delay) == Min(b.capacity, x + delay * b.rate);
    }
  }

  lemma WaitIs(rate: real, x: real, cost: real, wait: real, delay: real)
    requires rate > 0.0 && x < cost && wait == (cost - x) / rate
    ensures wait > 0.0
    ensures x + delay * rate >= cost <==> delay >= wait
  {
    assert wait * rate == cost - x;
    Sign(wait, rate);
    Sign(delay - wait, rate);
    assert (delay - wait) * rate == delay * rate - wait * rate;
  }

  /** A request larger than the bucket is refused at any time. */
  lemma TooLargeIsRefused(b: Bucket, h: Option<Held>, c: Check)
    requires Ok(b) && HeldOk(b, h, c.time) && c.cost as real > b.capacity
    ensures Admitted(b, h, c) == 0 && !b.Admits(StillHeld(b, h, c.time), c.cost, c.time)
  {
    NextOk(b, h, c);
  }
}

/** What that means for the limiter's own buckets, which are kept for four windows. */
module LimiterBuckets {
  import opened Options
  import opened RealProducts
  import opened RateRules
  import opened TimedMap
  import opened RateLimit
  import opened TokenBucketRuns

  lemma FourWindows(limit: int, window: real)
    requires window > 0.0
    ensures (window * 4.0) * (limit as real / window) == 4.0 * limit as real
  {
    var rate := limit as real / window;
    assert rate * window == limit as real;
    assert (window * 4.0) * rate == 4.0 * (rate * window);
  }

  /** A token bucket keeps its promised rate over every interval of every run exactly when burst <= 4 * limit. */
  lemma RateHoldsExactly(limit: nat, window: real, burst: nat)
    requires limit > 0 && window > 0.0
    ensures RateBounded(BucketOf(limit, window, burst)) <==> burst <= 4 * limit
  {
    var b := BucketOf(limit, window, burst);
    FourWindows(limit, window);
    PositiveQuotient(limit as real, window);
    BoundedExactly(b, burst);
  }

  /** A check on the limiter is a step of the run: what the next check will find under the key is what the run holds. */
  lemma CheckIsStep(before: Table<Stored>, after: Table<Stored>, key: string, b: Bucket, h: Option<Held>, c: Check,
                    later: real)
    requires Seen(before, key, c.time) == StillHeld(b, h, c.time) && c.time <= later
    requires Stores(before, after, key, Kept(b, Seen(before, key, c.time), c.cost, c.time), c.time)
    ensures Seen(after, key, later) == StillHeld(b, Some(Next(b, h, c)), later)
  {
    assert Live(after, key, later) ==
           if Expired(Kept(b, Seen(before, key, c.time), c.cost, c.time), later) then None
           else Some(Kept(b, Seen(before, key, c.time), c.cost, c.time));
  }
}

/** Fixed windows over whole runs of any number of clients on one cache; incr is atomic and each check reads the clock
    once, so a run is a sequence of checks. */
module FixedWindowRuns {
  import opened Options
  import opened RealProducts
  import opened RateRules
  import opened TimedMap
  import opened RateLimit
  import MC = MemoryCache

  datatype Check = Check(identity: string, cost: nat, time: real)

  datatype Limiter = Limiter(limit: int, window: real, key: (string, int) -> string)

  /** Windows have a length, and keys do not collide. */
  ghost predicate Ok(p: Limiter) {
    && p.window > 0.0
    && forall a: string, v: int, b: string, w: int {:trigger p.key(a, v), p.key(b, w)} ::
         p.key(a, v) == p.key(b, w) ==> a == b && v == w
  }

  function Slot(p: Limiter, c: Check): int
    requires Ok(p)
  {
    WindowIndex(c.time, p.window)
  }

  /** A check as an operation on the timed map that the cache refines. */
  function Charge(p: Limiter, c: Check): Op<Stored>
    requires Ok(p)
  {
    Op.Incr(p.key(c.identity, Slot(p, c)), c.cost, Some(p.window))
  }

  function Next(p: Limiter, s: Plain<Stored>, c: Check): Plain<Stored>
    requires Ok(p)
  {
    PlainStep(AsNumber(), s, Charge(p, c), c.time).0
  }

  predicate Allowed(p: Limiter, s: Plain<Stored>, c: Check)
    requires Ok(p)
  {
    var a := PlainStep(AsNumber(), s, Charge(p, c), c.time).1;
    a.Counted? && a.n <= p.limit
  }

  function Run(p: Limiter, s: Plain<Stored>, checks: seq<Check>): (r: seq<bool>)
    requires Ok(p)
    ensures |r| == |checks|
    decreases |checks|
  {
    if checks == [] then [] else [Allowed(p, s, checks[0])] + Run(p, Next(p, s, checks[0]), checks[1..])
  }

  predicate Matches(p: Limiter, c: Check, id: string, w: int)
    requires Ok(p)
  {
    c.identity == id && Slot(p, c) == w
  }

  /** Everything a client has asked for in a window, admitted or not. */
  function Requested(p: Limiter, checks: seq<Check>, id: string, w: int): nat
    requires Ok(p)
  {
    if checks == [] then 0
    else (if Matches(p, checks[0], id, w) then checks[0].cost else 0) + Requested(p, checks[1..], id, w)
  }

  function Calls(p: Limiter, checks: seq<Check>): (calls: seq<MC.Call<Stored>>)
    requires Ok(p)
    ensures |calls| == |checks|
  {
    seq(|checks|, i requires 0 <= i < |checks| => MC.Call(Charge(p, checks[i]), checks[i].time))
  }

  predicate Admits(p: Limiter, a: Answer<Stored>) {
    a.Counted? && a.n <= p.limit
  }

  lemma {:induction false} RunIsPlain(p: Limiter, s: Plain<Stored>, checks: seq<Check>, i: nat)
    requires Ok(p) && i < |checks|
    ensures Run(p, s, checks)[i] == Admits(p, MC.PlainAnswers(AsNumber(), s, Calls(p, checks))[i])
    decreases |checks|
  {
    var calls := Calls(p, checks);
    assert calls[1..] == Calls(p, checks[1..]);
    if i > 0 { RunIsPlain(p, Next(p, s, checks[0]), checks[1..], i - 1); }
  }

  /** With checks at non-decreasing times, the cache with its lazy drops and purges decides like the timed map. */
  lemma RunOnTheCache(p: Limiter, checks: seq<Check>, from: real, i: nat)
    requires Ok(p) && i < |checks| && MC.InOrder(Calls(p, checks), from)
    ensures Run(p, Plain(map[], 0, 0), checks)[i] ==
            Admits(p, MC.Answers(AsNumber(), MC.State(map[], 0, 0), Calls(p, checks))[i])
  {
    MC.CacheRefinesMap(AsNumber(), MC.State(map[], 0, 0), Plain(map[], 0, 0), Calls(p, checks), from);
    RunIsPlain(p, Plain(map[], 0, 0), checks, i);
    assert MC.AgreesAt(AsNumber(), MC.State(map[], 0, 0), Plain(map[], 0, 0), Calls(p, checks), i);
  }

  // --- a counter lives as long as its window ---------------------------------------------------------

  /** The counter of window w, if there is one, is a number and will not expire before the window is over. */
  ghost predicate CounterOk(p: Limiter, s: Plain<Stored>, id: string, w: int) {
    p.key(id, w) in s.entries ==>
      var e := s.entries[p.key(id, w)];
      e.value.Count? && e.value.n >= 0 && e.expires.Some? && e.expires.value >= Start(w, p.window) + p.window
  }

  ghost predicate CountersOk(p: Limiter, s: Plain<Stored>) {
    forall id: string, w: int :: CounterOk(p, s, id, w)
  }

  function Base(p: Limiter, s: Plain<Stored>, id: string, w: int): int {
    if p.key(id, w) in s.entries && s.entries[p.key(id, w)].value.Count? then s.entries[p.key(id, w)].value.n else 0
  }

  /** When window number w begins. */
  function Start(w: int, window: real): real {
    w as real * window
  }

  lemma ProductOfSum(x: real, y: real, w: real)
    ensures Product(x + y, w) == Product(x, w) + Product(y, w)
  {}

  lemma ProductOfFraction(f: real, w: real)
    requires w > 0.0 && 0.0 <= f < 1.0
    ensures 0.0 <= Product(f, w) < w
  {}

  lemma IndexBounds(t: real, window: real)
    requires window > 0.0
    ensures Start(WindowIndex(t, window), window) <= t < Start(WindowIndex(t, window), window) + window
  {
    assert Product(t / window, window) == t;
    FloorBounds(t, window, t / window, (t / window).Floor);
  }

  lemma FloorBounds(t: real, window: real, q: real, w: int)
    requires window > 0.0 && Product(q, window) == t && w as real <= q < w as real + 1.0
    ensures Start(w, window) <= t < Start(w, window) + window
  {
    var f := q - w as real;
    ProductOfSum(w as real, f, window);
    ProductOfFraction(f, window);
    assert Product(w as real, window) == Start(w, window);
    assert w as real + f == q;
  }

  lemma Scale(x: real, y: real, w: real)
    requires w > 0.0 && x <= y
    ensures x * w <= y * w
  {}

  lemma Below(x: real, y: real, w: real)
    requires w > 0.0 && x < y
    ensures x * w < y * w
  {}

  /** Every check finds its counter unexpired, adds its cost, and leaves all counters good for their windows. */
  lemma CheckCounts(p: Limiter, s: Plain<Stored>, c: Check)
    requires Ok(p) && CountersOk(p, s)
    ensures CountersOk(p, Next(p, s, c))
    ensures Allowed(p, s, c) <==> Base(p, s, c.identity, Slot(p, c)) + c.cost <= p.limit
    ensures forall id: string, w: int :: Base(p, Next(p, s, c), id, w) ==
              Base(p, s, id, w) + if Matches(p, c, id, w) then c.cost else 0
  {
    var v := Slot(p, c);
    IndexBounds(c.time, p.window);
    assert CounterOk(p, s, c.identity, v);
    forall id: string, w: int
      ensures CounterOk(p, Next(p, s, c), id, w)
      ensures Base(p, Next(p, s, c), id, w) == Base(p, s, id, w) + if Matches(p, c, id, w) then c.cost else 0
    {
      assert CounterOk(p, s, id, w);
    }
  }

  /** The index is the only number whose window t lies in. */
  lemma IndexIs(t: real, window: real, w: int)
    requires window > 0.0 && Start(w, window) <= t < Start(w, window) + window
    ensures WindowIndex(t, window) == w
  {
    IndexBounds(t, window);
    Apart(w, WindowIndex(t, window), window);
    Apart(WindowIndex(t, window), w, window);
  }

  lemma NextStart(w: int, window: real)
    ensures Start(w + 1, window) == Start(w, window) + window == window * w as real + window
  {
    assert (w + 1) as real == w as real + 1.0;
    assert (w as real + 1.0) * window == w as real * window + window;
  }

  /** A refusal names the wait until the first instant of the next window, which is positive and at most one window. */
  lemma RetryAfterIsNextWindow(limit: int, window: real, count: int, now: real)
    requires window > 0.0 && count > limit
    ensures var r, w := FixedResult(limit, window, count, now), WindowIndex(now, window);
            && !r.allowed && 0.0 < r.retryAfter <= window && now + r.retryAfter == Start(w + 1, window)
            && WindowIndex(now + r.retryAfter, window) == w + 1
            && forall t: real :: now <= t < now + r.retryAfter ==> WindowIndex(t, window) == w
  {
    var r, w := FixedResult(limit, window, count, now), WindowIndex(now, window);
    IndexBounds(now, window);
    NextStart(w, window);
    IndexIs(now + r.retryAfter, window, w + 1);
    forall t: real | now <= t < now + r.retryAfter ensures WindowIndex(t, window) == w { IndexIs(t, window, w); }
  }

  /** A check on the limiter object is one step of such a run: it is admitted exactly when the run admits it, and
      leaves a cache that nobody can tell from what the run holds. */
  lemma CheckIsStep(l: RateLimiter, p: Limiter, before: Table<Stored>, s: Plain<Stored>, c: Check,
                    r: Option<RateLimitResult>)
    requires Ok(p) && CountersOk(p, s) && Alike(before, s.entries, c.time)
    requires l.cache.ns == AsNumber() && p == Limiter(l.limit, l.window, l.windowKey)
    requires l.Counted(before, c.identity, c.cost, c.time, r)
    ensures r.Some? && (r.value.allowed <==> Allowed(p, s, c))
    ensures Alike(l.cache.data, Next(p, s, c).entries, c.time)
  {
    var key := p.key(c.identity, Slot(p, c));
    assert CounterOk(p, s, c.identity, Slot(p, c));
    assert Live(before, key, c.time) == Live(s.entries, key, c.time);
    MC.DataRefines(AsNumber(), before, s, Charge(p, c), c.time);
  }

  /** A check is allowed exactly when all the client has asked for in that window, this check included, fits the limit;
      refused requests count. */
  lemma {:induction false} AllowedExactly(p: Limiter, s: Plain<Stored>, checks: seq<Check>, i: nat)
    requires Ok(p) && CountersOk(p, s) && i < |checks|
    ensures Run(p, s, checks)[i] <==>
            Base(p, s, checks[i].identity, Slot(p, checks[i]))
            + Requested(p, checks[..i + 1], checks[i].identity, Slot(p, checks[i])) <= p.limit
    decreases |checks|
  {
    CheckCounts(p, s, checks[0]);
    var all, c := checks[..i + 1], checks[i];
    if i == 0 {
      assert all[1..] == [];
    } else {
      AllowedExactly(p, Next(p, s, checks[0]), checks[1..], i - 1);
      assert all[1..] == checks[1..][..i - 1 + 1];
    }
  }

  // --- what is admitted --------------------------------------------------------------------------------

  /** The cost admitted for a client in window w. */
  function AdmittedIn(p: Limiter, s: Plain<Stored>, checks: seq<Check>, id: string, w: int): nat
    requires Ok(p)
    decreases |checks|
  {
    if checks == [] then 0
    else
      (if Allowed(p, s, checks[0]) && Matches(p, checks[0], id, w) then checks[0].cost else 0)
      + AdmittedIn(p, Next(p, s, checks[0]), checks[1..], id, w)
  }

  /** The cost admitted for a client from time a for the length of one window. */
  function AdmittedFrom(p: Limiter, s: Plain<Stored>, checks: seq<Check>, id: string, a: real): nat
    requires Ok(p)
    decreases |checks|
  {
    if checks == [] then 0
    else
      (if Allowed(p, s, checks[0]) && checks[0].identity == id && a <= checks[0].time < a + p.window
       then checks[0].cost else 0)
      + AdmittedFrom(p, Next(p, s, checks[0]), checks[1..], id, a)
  }

  function Room(p: Limiter, s: Plain<Stored>, id: string, w: int): int {
    if Base(p, s, id, w) <= p.limit then p.limit - Base(p, s, id, w) else 0
  }

  /** No window ever admits more than the limit leaves room for. */
  lemma {:induction false} WindowBound(p: Limiter, s: Plain<Stored>, checks: seq<Check>, id: string, w: int)
    requires Ok(p) && CountersOk(p, s)
    ensures AdmittedIn(p, s, checks, id, w) <= Room(p, s, id, w)
    decreases |checks|
  {
    if checks != [] {
      CheckCounts(p, s, checks[0]);
      WindowBound(p, Next(p, s, checks[0]), checks[1..], id, w);
    }
  }

  /** Any stretch of one window length meets at most two windows. */
  lemma TwoSlots(t: real, a: real, window: real)
    requires window > 0.0 && a <= t < a + window
    ensures WindowIndex(t, window) == WindowIndex(a, window) || WindowIndex(t, window) == WindowIndex(a, window) + 1
  {
    IndexBounds(t, window);
    IndexBounds(a, window);
    var v, w := WindowIndex(a, window), WindowIndex(t, window);
    Apart(w, v, window);
    Apart(v, v + 1, window);
    Apart(v + 1, w, window);
  }

  lemma Apart(v: int, w: int, window: real)
    requires window > 0.0
    ensures v < w ==> Start(v, window) + window <= Start(w, window)
  {
    if v < w {
      Scale(v as real + 1.0, w as real, window);
      assert (v as real + 1.0) * window == v as real * window + window;
    }
  }

  lemma {:induction false} SplitAtWindow(p: Limiter, s: Plain<Stored>, checks: seq<Check>, id: string, a: real)
    requires Ok(p)
    ensures var w := WindowIndex(a, p.window);
            AdmittedFrom(p, s, checks, id, a) <= AdmittedIn(p, s, checks, id, w) + AdmittedIn(p, s, checks, id, w + 1)
    decreases |checks|
  {
    if checks != [] {
      var c := checks[0];
      SplitAtWindow(p, Next(p, s, c), checks[1..], id, a);
      if a <= c.time < a + p.window { TwoSlots(c.time, a, p.window); }
    }
  }

  /** Over any stretch of one window length, a fresh limiter admits at most twice the limit. */
  lemma AnyStretchBound(p: Limiter, checks: seq<Check>, id: string, a: real)
    requires Ok(p) && p.limit >= 0
    ensures AdmittedFrom(p, Plain(map[], 0, 0), checks, id, a) <= 2 * p.limit
  {
    var s: Plain<Stored> := Plain(map[], 0, 0);
    var w := WindowIndex(a, p.window);
    SplitAtWindow(p, s, checks, id, a);
    WindowBound(p, s, checks, id, w);
    WindowBound(p, s, checks, id, w + 1);
  }

  lemma HalfAndOne(window: real)
    requires window > 0.0
    ensures WindowIndex(window / 2.0, window) == 0 && WindowIndex(window, window) == 1
  {
    var half, one := window / 2.0 / window, window / window;
    assert half * window == 0.5 * window && one * window == 1.0 * window;
    Same(half, 0.5, window);
    Same(one, 1.0, window);
  }

  lemma Same(x: real, y: real, w: real)
    requires w > 0.0 && x * w == y * w
    ensures x == y
  {
    if x < y { Below(x, y, w); } else if y < x { Below(y, x, w); }
  }

  /** Twice the limit does happen: all of it at the end of one window and all of it again at the start of the next. */
  lemma TwiceTheLimitHappens(p: Limiter, id: string)
    requires Ok(p) && p.limit >= 0
    ensures var checks := [Check(id, p.limit, p.window / 2.0), Check(id, p.limit, p.window)];
            AdmittedFrom(p, Plain(map[], 0, 0), checks, id, p.window / 2.0) == 2 * p.limit
  {
    var first, second := Check(id, p.limit, p.window / 2.0), Check(id, p.limit, p.window);
    var s: Plain<Stored> := Plain(map[], 0, 0);
    var after := Next(p, s, first);
    CheckCounts(p, s, first);
    CheckCounts(p, after, second);
    HalfAndOne(p.window);
    assert Base(p, after, id, 1) == 0;
    assert Allowed(p, s, first) && Allowed(p, after, second);
    assert [first, second][1..] == [second] && [second][1..] == [];
    assert AdmittedFrom(p, after, [second], id, p.window / 2.0) == p.limit;
  }
}
