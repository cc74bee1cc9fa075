// The account-shared adaptive token bucket. Time is an integer count of
// nanoseconds, tokens and rates are reals; a zero time is before every reading
// of the clock.

module TokenBucket {

  const SECOND: int := 1_000_000_000
  const MILLISECOND: int := 1_000_000

  type Time = int

  datatype Bucket = Bucket(
    tokens: real, maxTokens: real,
    rate: real, baseRate: real, minRate: real,
    pauseUntil: Time, lastBackoffEnd: Time,
    recoveryCooldown: int, recoveryStep: real, recoveryInterval: int,
    lastRefill: Time)

  datatype LimiterConfig = LimiterConfig(
    baseRate: real, minRateFraction: real, maxBurst: real,
    recoveryCooldown: int, recoveryStep: real, recoveryInterval: int)

  // Non-positive settings take their defaults.
  function NewBucket(cfg: LimiterConfig, now: Time): Bucket {
    var base := if cfg.baseRate <= 0.0 then 20.0 else cfg.baseRate;
    var fraction := if cfg.minRateFraction <= 0.0 then 0.1 else cfg.minRateFraction;
    var burst := if cfg.maxBurst <= 0.0 then base else cfg.maxBurst;
    Bucket(burst, burst, base, base, base * fraction, 0, 0,
           if cfg.recoveryCooldown <= 0 then 5 * SECOND else cfg.recoveryCooldown,
           if cfg.recoveryStep <= 0.0 then 1.0 else cfg.recoveryStep,
           if cfg.recoveryInterval <= 0 then 2 * SECOND else cfg.recoveryInterval,
           now)
  }

  function Seconds(d: int): real {
    d as real / SECOND as real
  }

  // What a rate yields in d nanoseconds.
  function Yield(rate: real, d: int): real {
    Seconds(d) * rate
  }

  lemma YieldAdds(rate: real, a: int, b: int)
    ensures Yield(rate, a + b) == Yield(rate, a) + Yield(rate, b)
  {
    assert Seconds(a + b) == Seconds(a) + Seconds(b);
  }

  lemma YieldMonotone(rate: real, ceiling: real, d: int)
    requires 0.0 <= rate <= ceiling && d >= 0
    ensures 0.0 <= Yield(rate, d) <= Yield(ceiling, d)
  {
    assert Seconds(d) >= 0.0;
    assert Seconds(d) * (ceiling - rate) >= 0.0;
  }

  function Least(a: real, b: real): real {
    if a < b then a else b
  }

  function Backoff(b: Bucket, d: int, now: Time): Bucket {
    var end := now + d;
    b.(rate := if b.rate / 2.0 < b.minRate then b.minRate else b.rate / 2.0,
       tokens := if b.tokens > 1.0 then 1.0 else b.tokens,
       pauseUntil := if end > b.pauseUntil then end else b.pauseUntil,
       lastBackoffEnd := if end > b.lastBackoffEnd then end else b.lastBackoffEnd)
  }

  function Refill(b: Bucket, now: Time): Bucket {
    if now - b.lastRefill <= 0 then b.(lastRefill := now)
    else b.(tokens := Least(b.tokens + Yield(b.rate, now - b.lastRefill), b.maxTokens), lastRefill := now)
  }

  // Whole recovery intervals since recovery became eligible.
  function Intervals(b: Bucket, now: Time): int
    requires b.recoveryInterval > 0
  {
    (now - (b.lastBackoffEnd + b.recoveryCooldown)) / b.recoveryInterval
  }

  function Recover(b: Bucket, now: Time): Bucket
    requires b.recoveryInterval > 0
  {
    if b.rate >= b.baseRate || now < b.lastBackoffEnd + b.recoveryCooldown || Intervals(b, now) < 1 then b
    else b.(rate := Least(b.rate + Intervals(b, now) as real * b.recoveryStep, b.baseRate))
  }

  // How long to sleep for the missing part of a token, truncated to nanoseconds.
  function RefillWait(b: Bucket): int
    requires b.rate > 0.0
  {
    var wait := ((1.0 - b.tokens) / b.rate * SECOND as real).Floor;
    if wait < MILLISECOND then MILLISECOND else wait
  }

  // The bucket after one attempt, and how long to sleep: 0 is a grant.
  function TryAcquire(b: Bucket, now: Time): (Bucket, int)
    requires Sane(b)
  {
    if now < b.pauseUntil then (b, b.pauseUntil - now)
    else
      var r := Recover(Refill(b, now), now);
      if r.tokens >= 1.0 then (r.(tokens := r.tokens - 1.0), 0) else (r, RefillWait(r))
  }

  // The fastest the bucket may ever refill.
  function Ceiling(b: Bucket): real {
    if b.minRate > b.baseRate then b.minRate else b.baseRate
  }

  predicate Sane(b: Bucket) {
    && 0.0 <= b.tokens <= b.maxTokens && 0.0 < b.maxTokens
    && 0.0 < b.baseRate && 0.0 < b.minRate
    && (b.minRate <= b.rate || b.baseRate <= b.rate) && b.rate <= Ceiling(b)
    && b.recoveryCooldown > 0 && b.recoveryStep > 0.0 && b.recoveryInterval > 0
    && b.pauseUntil == b.lastBackoffEnd
  }

  // The settings never change.
  predicate SameSettings(a: Bucket, b: Bucket) {
    a.maxTokens == b.maxTokens && a.baseRate == b.baseRate && a.minRate == b.minRate
    && a.recoveryCooldown == b.recoveryCooldown && a.recoveryStep == b.recoveryStep
    && a.recoveryInterval == b.recoveryInterval
  }

  lemma NewBucketSane(cfg: LimiterConfig, now: Time)
    ensures var b := NewBucket(cfg, now);
            && Sane(b) && b.tokens == b.maxTokens && b.rate == b.baseRate && b.lastRefill == now
            && (b.minRate <= b.baseRate <==> cfg.minRateFraction <= 1.0)
  {
    var base := if cfg.baseRate <= 0.0 then 20.0 else cfg.baseRate;
    var fraction := if cfg.minRateFraction <= 0.0 then 0.1 else cfg.minRateFraction;
    Scale(base, fraction);
  }

  lemma Scale(base: real, fraction: real)
    requires base > 0.0 && fraction > 0.0
    ensures base * fraction > 0.0
    ensures base * fraction <= base <==> fraction <= 1.0
  {
    if fraction > 1.0 {
      assert base * (fraction - 1.0) > 0.0;
    } else {
      assert base * (1.0 - fraction) >= 0.0;
    }
  }

  // ---- one operation ---------------------------------------------------------------

  datatype Op = Attempt | Throttled(d: int)

  // One call on the limiter, with the clock reading it takes.
  datatype Event = Event(at: Time, op: Op)

  function After(b: Bucket, ev: Event): Bucket
    requires Sane(b)
  {
    match ev.op
    case Attempt => TryAcquire(b, ev.at).0
    case Throttled(d) => Backoff(b, d, ev.at)
  }

  predicate Granted(b: Bucket, ev: Event)
    requires Sane(b)
  {
    ev.op.Attempt? && TryAcquire(b, ev.at).1 == 0
  }

  lemma RefillSane(b: Bucket, now: Time)
    requires Sane(b)
    ensures Sane(Refill(b, now)) && SameSettings(b, Refill(b, now))
    ensures Refill(b, now).tokens >= b.tokens
  {
    if now > b.lastRefill {
      YieldMonotone(b.rate, b.rate, now - b.lastRefill);
    }
  }

  lemma RecoverSane(b: Bucket, now: Time)
    requires Sane(b)
    ensures Sane(Recover(b, now)) && SameSettings(b, Recover(b, now)) && b.rate <= Recover(b, now).rate
  {
    if b.rate < b.baseRate && now >= b.lastBackoffEnd + b.recoveryCooldown && Intervals(b, now) >= 1 {
      assert Intervals(b, now) as real * b.recoveryStep >= 0.0;
    }
  }

  // Every call keeps 0 <= tokens <= maxTokens and the rate in its band; a wait of
  // 0 is exactly a token taken; a paused attempt changes nothing.
  lemma AfterSane(b: Bucket, ev: Event)
    requires Sane(b)
    ensures Sane(After(b, ev)) && SameSettings(b, After(b, ev))
    ensures ev.op.Attempt? ==>
              && TryAcquire(b, ev.at).1 >= 0
              && (Granted(b, ev) <==> ev.at >= b.pauseUntil && Refill(b, ev.at).tokens >= 1.0)
              && (if ev.at < b.pauseUntil then After(b, ev) == b
                  else After(b, ev).lastRefill == ev.at
                       && After(b, ev).tokens == Refill(b, ev.at).tokens - (if Granted(b, ev) then 1.0 else 0.0))
    ensures ev.op.Throttled? ==> After(b, ev).lastRefill == b.lastRefill && After(b, ev).tokens <= b.tokens
  {
    if ev.op.Attempt? {
      RefillSane(b, ev.at);
      RecoverSane(Refill(b, ev.at), ev.at);
    }
  }

  // ---- whole runs ---------------------------------------------------------------------

  function Run(b: Bucket, evs: seq<Event>): Bucket
    requires Sane(b)
    decreases |evs|
  {
    AfterAlwaysSane();
    if evs == [] then b else Run(After(b, evs[0]), evs[1..])
  }

  lemma AfterAlwaysSane()
    ensures forall b: Bucket, ev: Event {:trigger After(b, ev)} :: Sane(b) ==> Sane(After(b, ev))
  {
    forall b: Bucket, ev: Event {:trigger After(b, ev)} | Sane(b) ensures Sane(After(b, ev)) {
      AfterSane(b, ev);
    }
  }

  // Calls granted at times up to `until`.
  function Grants(b: Bucket, evs: seq<Event>, from: Time, until: Time): nat
    requires Sane(b)
    decreases |evs|
  {
    AfterAlwaysSane();
    if evs == [] then 0
    else (if Granted(b, evs[0]) && from <= evs[0].at <= until then 1 else 0) + Grants(After(b, evs[0]), evs[1..], from, until)
  }

  // The clock never goes back.
  ghost predicate InOrder(start: Time, evs: seq<Event>) {
    (forall i :: 0 <= i < |evs| ==> start <= evs[i].at)
    && (forall i, j :: 0 <= i < j < |evs| ==> evs[i].at <= evs[j].at)
  }

  // Tokens the bucket could hold at time t if it refilled at this rate.
  function Credit(b: Bucket, rate: real, t: Time): real {
    Least(b.tokens + Yield(rate, t - b.lastRefill), b.maxTokens)
  }

  // The rate is at most this, now and after every event.
  ghost predicate StaysBelow(b: Bucket, evs: seq<Event>, rate: real)
    requires Sane(b)
    decreases |evs|
  {
    AfterAlwaysSane();
    b.rate <= rate && (evs == [] || StaysBelow(After(b, evs[0]), evs[1..], rate))
  }

  lemma {:induction false} CeilingHolds(b: Bucket, evs: seq<Event>)
    requires Sane(b)
    ensures StaysBelow(b, evs, Ceiling(b))
    decreases |evs|
  {
    if evs != [] {
      AfterSane(b, evs[0]);
      CeilingHolds(After(b, evs[0]), evs[1..]);
      assert Ceiling(After(b, evs[0])) == Ceiling(b);
    }
  }

  // One call spends its grant out of the credit, which grows no faster than a rate
  // the bucket's own does not exceed.
  lemma CreditPays(b: Bucket, ev: Event, rate: real, t0: Time)
    requires Sane(b) && b.lastRefill <= t0 <= ev.at && b.rate <= rate
    ensures var b' := After(b, ev);
            && b'.lastRefill <= ev.at
            && (if Granted(b, ev) then 1.0 else 0.0) + Credit(b', rate, ev.at) <= Credit(b, rate, t0) + Yield(rate, ev.at - t0)
  {
    AfterSane(b, ev);
    var t := ev.at;
    YieldAdds(rate, t0 - b.lastRefill, t - t0);
    assert Yield(rate, t - b.lastRefill) == Yield(rate, t0 - b.lastRefill) + Yield(rate, t - t0);
    YieldMonotone(rate, rate, t - t0);
    YieldMonotone(b.rate, rate, t - b.lastRefill);
    YieldAdds(rate, 0, 0);
    hide Yield, TryAcquire, Backoff;
  }

  lemma {:induction false} GrantsWithinCredit(b: Bucket, evs: seq<Event>, rate: real, t0: Time, t1: Time)
    requires Sane(b) && b.lastRefill <= t0 <= t1 && InOrder(t0, evs) && StaysBelow(b, evs, rate)
    ensures Grants(b, evs, t0, t1) as real <= Credit(b, rate, t0) + Yield(rate, t1 - t0)
    decreases |evs|
  {
    YieldMonotone(rate, rate, t0 - b.lastRefill);
    YieldMonotone(rate, rate, t1 - t0);
    if evs == [] {
    } else if evs[0].at > t1 {
      NoGrantsLater(b, evs, t0, t1);
      hide *;
    } else {
      var t := evs[0].at;
      var b' := After(b, evs[0]);
      AfterSane(b, evs[0]);
      CreditPays(b, evs[0], rate, t0);
      assert StaysBelow(b', evs[1..], rate);
      GrantsWithinCredit(b', evs[1..], rate, t, t1);
      GrantsFromLater(b', evs[1..], t0, t, t1);
      YieldAdds(rate, t - t0, t1 - t);
      hide Yield, Credit, TryAcquire, Backoff, After, Granted, StaysBelow;
    }
  }

  lemma {:induction false} NoGrantsLater(b: Bucket, evs: seq<Event>, from: Time, until: Time)
    requires Sane(b) && forall i :: 0 <= i < |evs| ==> evs[i].at > until
    ensures Grants(b, evs, from, until) == 0
    decreases |evs|
  {
    if evs != [] {
      AfterSane(b, evs[0]);
      NoGrantsLater(After(b, evs[0]), evs[1..], from, until);
    }
  }

  lemma {:induction false} GrantsFromLater(b: Bucket, evs: seq<Event>, from: Time, later: Time, until: Time)
    requires Sane(b) && from <= later && InOrder(later, evs)
    ensures Grants(b, evs, from, until) == Grants(b, evs, later, until)
    decreases |evs|
  {
    if evs != [] {
      AfterSane(b, evs[0]);
      GrantsFromLater(After(b, evs[0]), evs[1..], from, later, until);
    }
  }

  // The token-bucket theorem, for a bucket at any point of its life: in every
  // window [t0, t1] the grants are at most the bucket's size plus what the
  // ceiling rate yields in t1 - t0, whatever attempts and backoffs are made.
  lemma TokenBucketTheorem(b: Bucket, evs: seq<Event>, t0: Time, t1: Time)
    requires Sane(b) && t0 <= t1 && InOrder(b.lastRefill, evs)
    ensures Grants(b, evs, t0, t1) as real <= b.maxTokens + Yield(Ceiling(b), t1 - t0)
  {
    CeilingHolds(b, evs);
    GrantsAtRate(b, evs, Ceiling(b), t0, t1);
  }

  // The same with any rate that the bucket's stays below.
  lemma {:induction false} GrantsAtRate(b: Bucket, evs: seq<Event>, rate: real, t0: Time, t1: Time)
    requires Sane(b) && t0 <= t1 && InOrder(b.lastRefill, evs) && StaysBelow(b, evs, rate)
    ensures Grants(b, evs, t0, t1) as real <= b.maxTokens + Yield(rate, t1 - t0)
    decreases |evs|
  {
    if evs == [] || t0 <= evs[0].at {
      WindowFromHere(b, evs, rate, t0, t1);
    } else {
      AfterSane(b, evs[0]);
      var b' := After(b, evs[0]);
      assert b'.lastRefill <= evs[0].at && StaysBelow(b', evs[1..], rate);
      assert InOrder(b'.lastRefill, evs[1..]);
      hide After, Yield, StaysBelow;
      GrantsAtRate(b', evs[1..], rate, t0, t1);
    }
  }

  lemma WindowFromHere(b: Bucket, evs: seq<Event>, rate: real, t0: Time, t1: Time)
    requires Sane(b) && t0 <= t1 && InOrder(b.lastRefill, evs) && (evs != [] ==> t0 <= evs[0].at) && StaysBelow(b, evs, rate)
    ensures Grants(b, evs, t0, t1) as real <= b.maxTokens + Yield(rate, t1 - t0)
  {
    assert b.rate <= rate;
    YieldMonotone(rate, rate, t1 - t0);
    var start := if t0 < b.lastRefill then b.lastRefill else t0;
    if start > t1 {
      NoGrantsLater(b, evs, t0, t1);
    } else {
      assert InOrder(start, evs);
      GrantsFromLater(b, evs, t0, start, t1);
      GrantsWithinCredit(b, evs, rate, start, t1);
      YieldAdds(rate, start - t0, t1 - start);
      YieldMonotone(rate, rate, start - t0);
      hide Yield, Grants, StaysBelow;
    }
  }

  // For a fresh limiter: the ceiling is the base rate exactly when the configured
  // minimum fraction is at most 1; beyond that one backoff already overshoots.
  lemma FreshBucketTheorem(cfg: LimiterConfig, now: Time, evs: seq<Event>, t0: Time, t1: Time)
    requires t0 <= t1 && InOrder(now, evs)
    ensures var b := NewBucket(cfg, now);
            && Sane(b)
            && (cfg.minRateFraction <= 1.0 ==>
                  Grants(b, evs, t0, t1) as real <= b.maxTokens + Yield(b.baseRate, t1 - t0)
                  && b.minRate <= Run(b, evs).rate <= b.baseRate)
            && (forall d, at :: (Backoff(b, d, at).rate <= b.baseRate <==> cfg.minRateFraction <= 1.0))
  {
    NewBucketSane(cfg, now);
    var b := NewBucket(cfg, now);
    TokenBucketTheorem(b, evs, t0, t1);
    RunSane(b, evs);
    hide Yield, Grants, Run;
  }

  lemma {:induction false} RunSane(b: Bucket, evs: seq<Event>)
    requires Sane(b)
    ensures Sane(Run(b, evs)) && SameSettings(b, Run(b, evs))
    decreases |evs|
  {
    if evs != [] {
      AfterSane(b, evs[0]);
      RunSane(After(b, evs[0]), evs[1..]);
    }
  }

  // ---- pauses and recovery --------------------------------------------------------------

  // After Backoff(d) at time s no later call on the limiter is granted before
  // s + d, whatever happens in between and whatever the clock does.
  lemma {:induction false} PauseHolds(b: Bucket, s: Time, d: int, evs: seq<Event>, ev: Event)
    requires Sane(b) && ev.at < s + d
    ensures Sane(Backoff(b, d, s)) && Run(Backoff(b, d, s), evs).pauseUntil >= s + d
    ensures Sane(Run(Backoff(b, d, s), evs)) && !Granted(Run(Backoff(b, d, s), evs), ev)
  {
    AfterSane(b, Event(s, Throttled(d)));
    PauseNeverShrinks(Backoff(b, d, s), evs);
    RunSane(Backoff(b, d, s), evs);
  }

  lemma {:induction false} PauseNeverShrinks(b: Bucket, evs: seq<Event>)
    requires Sane(b)
    ensures Run(b, evs).pauseUntil >= b.pauseUntil
    decreases |evs|
  {
    if evs != [] {
      AfterSane(b, evs[0]);
      PauseNeverShrinks(After(b, evs[0]), evs[1..]);
    }
  }

  // The rate rises in an attempt alone (for a fraction of at most 1), and not
  // before the end of the latest pause plus the cooldown plus a whole interval.
  lemma RateRisesOnlyWhenRecovered(b: Bucket, ev: Event)
    requires Sane(b) && b.minRate <= b.baseRate && After(b, ev).rate > b.rate
    ensures ev.op.Attempt? && ev.at >= b.pauseUntil + b.recoveryCooldown + b.recoveryInterval
  {
    if ev.op.Attempt? {
      var r := Refill(b, ev.at);
      RefillSane(b, ev.at);
      var since := ev.at - (b.lastBackoffEnd + b.recoveryCooldown);
      assert Intervals(r, ev.at) >= 1;
      WholeInterval(since, b.recoveryInterval);
    }
  }

  lemma WholeInterval(since: int, interval: int)
    requires interval > 0 && since / interval >= 1
    ensures since >= interval
  {
  }

  // ---- nothing lost, nothing made -------------------------------------------------------

  // A rate of r a second makes r tokens in 1000000000 nanoseconds.
  lemma YieldIs(rate: real, d: int)
    ensures Yield(rate, d) * 1_000_000_000.0 == rate * d as real
  {
  }

  // Attempts out of any pause, at full speed, that never find the bucket full.
  ghost predicate Flowing(b: Bucket, evs: seq<Event>)
    requires Sane(b)
    decreases |evs|
  {
    AfterAlwaysSane();
    && b.rate >= b.baseRate
    && (evs == []
        || (evs[0].op.Attempt? && evs[0].at >= b.pauseUntil && evs[0].at >= b.lastRefill
            && b.tokens + Yield(b.rate, evs[0].at - b.lastRefill) <= b.maxTokens
            && Flowing(After(b, evs[0]), evs[1..])))
  }

  // Tokens granted and tokens left are the tokens there were and what the rate made
  // in the time that passed.
  lemma {:induction false} TokensConserved(b: Bucket, evs: seq<Event>, from: Time, until: Time)
    requires Sane(b) && Flowing(b, evs) && forall i :: 0 <= i < |evs| ==> from <= evs[i].at <= until
    ensures Sane(Run(b, evs)) && Run(b, evs).rate == b.rate
    ensures var end := Run(b, evs);
            Grants(b, evs, from, until) as real + end.tokens == b.tokens + Yield(b.rate, end.lastRefill - b.lastRefill)
    decreases |evs|
  {
    YieldIs(b.rate, 0);
    if evs != [] {
      AfterSane(b, evs[0]);
      var b' := After(b, evs[0]);
      FlowsOn(b, evs[0]);
      TokensConserved(b', evs[1..], from, until);
      YieldAdds(b.rate, b'.lastRefill - b.lastRefill, Run(b, evs).lastRefill - b'.lastRefill);
      hide After, TryAcquire, Granted, Yield, Flowing;
    }
  }

  lemma FlowsOn(b: Bucket, ev: Event)
    requires Sane(b) && b.rate >= b.baseRate && ev.op.Attempt? && ev.at >= b.pauseUntil && ev.at >= b.lastRefill
    requires b.tokens + Yield(b.rate, ev.at - b.lastRefill) <= b.maxTokens
    ensures var b' := After(b, ev);
            && b'.lastRefill == ev.at && b'.rate == b.rate
            && b'.tokens + (if Granted(b, ev) then 1.0 else 0.0) == b.tokens + Yield(b.rate, ev.at - b.lastRefill)
  {
    AfterSane(b, ev);
    YieldIs(b.rate, 0);
    hide Yield;
  }

  // How long an attempt says to sleep: the rest of the pause, or what the missing part
  // of a token takes to the nanosecond below, a millisecond at least.
  lemma WaitIs(b: Bucket, at: Time)
    requires Sane(b) && TryAcquire(b, at).1 > 0
    ensures var (after, wait) := TryAcquire(b, at);
            if at < b.pauseUntil then wait == b.pauseUntil - at
            else
              && wait >= 1_000_000 && after.tokens < 1.0 && after.lastRefill == at
              && (wait > 1_000_000 ==> after.tokens + Yield(after.rate, wait) <= 1.0)
              && after.tokens + Yield(after.rate, wait + 1) > 1.0
  {
    if at >= b.pauseUntil {
      AfterSane(b, Event(at, Attempt));
      var after := TryAcquire(b, at).0;
      WaitAtMost(after);
      WaitYields(after);
      YieldAdds(after.rate, RefillWait(after), 1);
      hide Yield, RefillWait;
    }
  }

  lemma WaitAtMost(b: Bucket)
    requires b.rate > 0.0 && b.tokens < 1.0
    ensures RefillWait(b) > MILLISECOND ==> b.tokens + Yield(b.rate, RefillWait(b)) <= 1.0
  {
    var x := (1.0 - b.tokens) / b.rate * SECOND as real;
    FloorBound(x);
    var w := RefillWait(b);
    if w > MILLISECOND {
      assert Seconds(w) <= (1.0 - b.tokens) / b.rate;
      assert ((1.0 - b.tokens) / b.rate - Seconds(w)) * b.rate >= 0.0;
      assert (1.0 - b.tokens) / b.rate * b.rate == 1.0 - b.tokens;
    }
  }

  // Settings left out: 20 requests a second with a burst of as many, never below 2;
  // recovery after 5 seconds by 1 a second every 2.
  lemma Defaults(now: Time)
    ensures NewBucket(LimiterConfig(0.0, 0.0, 0.0, 0, 0.0, 0), now)
         == Bucket(20.0, 20.0, 20.0, 20.0, 2.0, 0, 0, 5_000_000_000, 1.0, 2_000_000_000, now)
  {
  }

  // ---- backing off -------------------------------------------------------------------

  // A backoff halves the rate, down to the minimum; leaves one token at most; moves
  // the end of the pause to s + d unless it is later already; and that is all.
  lemma BackoffIs(b: Bucket, d: int, s: Time)
    requires Sane(b)
    ensures var p := Backoff(b, d, s);
            && (if b.rate >= 2.0 * b.minRate then 2.0 * p.rate == b.rate else p.rate == b.minRate)
            && (if b.tokens >= 1.0 then p.tokens == 1.0 else p.tokens == b.tokens)
            && p.pauseUntil >= s + d && p.pauseUntil >= b.pauseUntil && (p.pauseUntil == s + d || p.pauseUntil == b.pauseUntil)
            && p.lastBackoffEnd == p.pauseUntil && p.lastRefill == b.lastRefill && SameSettings(b, p)
  {
  }

  // No attempt comes late enough for the rate to recover.
  ghost predicate Unrecovered(b: Bucket, evs: seq<Event>)
    requires Sane(b)
    decreases |evs|
  {
    AfterAlwaysSane();
    evs == []
    || ((evs[0].op.Attempt? ==> evs[0].at < b.pauseUntil + b.recoveryCooldown + b.recoveryInterval)
        && Unrecovered(After(b, evs[0]), evs[1..]))
  }

  function Backoffs(evs: seq<Event>): nat {
    if evs == [] then 0 else (if evs[0].op.Throttled? then 1 else 0) + Backoffs(evs[1..])
  }

  function PowerOf2(n: nat): real {
    if n == 0 then 1.0 else 2.0 * PowerOf2(n - 1)
  }

  lemma UnrecoveredStep(b: Bucket, ev: Event)
    requires Sane(b) && (ev.op.Attempt? ==> ev.at < b.pauseUntil + b.recoveryCooldown + b.recoveryInterval)
    ensures ev.op.Attempt? ==> After(b, ev).rate == b.rate
  {
    if ev.op.Attempt? {
      RefillSane(b, ev.at);
      var since := ev.at - (b.lastBackoffEnd + b.recoveryCooldown);
      if since >= 0 {
        assert since / b.recoveryInterval < 1;
      }
    }
  }

  // Divided by the power, or the least if that is more.
  predicate Scaled(rate: real, least: real, power: real, end: real) {
    if rate >= least * power then end * power == rate else end == least
  }

  // n backoffs in a row, with any attempts between them but none that recovers, leave
  // the rate divided by 2 to the n, or the minimum if that is more.
  lemma {:induction false} BackoffsHalve(b: Bucket, evs: seq<Event>)
    requires Sane(b) && Unrecovered(b, evs) && b.minRate <= b.rate
    ensures Scaled(b.rate, b.minRate, PowerOf2(Backoffs(evs)), Run(b, evs).rate)
    decreases |evs|
  {
    if evs == [] {
      assert PowerOf2(0) == 1.0;
    } else {
      RateGoesDown(b, evs[0]);
      var b', n := After(b, evs[0]), Backoffs(evs[1..]);
      BackoffsHalve(b', evs[1..]);
      PowerPositive(n);
      hide After, Unrecovered;
      if evs[0].op.Throttled? {
        assert PowerOf2(Backoffs(evs)) == 2.0 * PowerOf2(n);
        hide PowerOf2, Run;
        HalvedOnce(b.rate, b'.rate, b.minRate, Run(b, evs).rate, PowerOf2(n));
      }
      hide Scaled;
    }
  }

  // One event of such a run.
  lemma RateGoesDown(b: Bucket, ev: Event)
    requires Sane(b) && (ev.op.Attempt? ==> ev.at < b.pauseUntil + b.recoveryCooldown + b.recoveryInterval)
    requires b.minRate <= b.rate
    ensures Sane(After(b, ev)) && b.minRate == After(b, ev).minRate <= After(b, ev).rate <= b.rate
    ensures ev.op.Attempt? ==> After(b, ev).rate == b.rate
    ensures ev.op.Throttled? ==>
              if b.rate >= 2.0 * b.minRate then 2.0 * After(b, ev).rate == b.rate else After(b, ev).rate == b.minRate
  {
    AfterSane(b, ev);
    UnrecoveredStep(b, ev);
  }

  lemma {:induction false} UnrecoveredStaysBelow(b: Bucket, evs: seq<Event>)
    requires Sane(b) && Unrecovered(b, evs) && b.minRate <= b.rate
    ensures StaysBelow(b, evs, b.rate)
    decreases |evs|
  {
    if evs != [] {
      RateGoesDown(b, evs[0]);
      var b' := After(b, evs[0]);
      UnrecoveredStaysBelow(b', evs[1..]);
      BelowMore(b', evs[1..], b'.rate, b.rate);
    }
  }

  lemma {:induction false} PowerPositive(n: nat)
    ensures PowerOf2(n) >= 1.0
  {
    if n > 0 {
      PowerPositive(n - 1);
    }
  }

  lemma HalvedOnce(rate: real, half: real, least: real, end: real, power: real)
    requires 0.0 < least <= rate && power >= 1.0
    requires if rate >= 2.0 * least then 2.0 * half == rate else half == least
    requires Scaled(half, least, power, end)
    ensures Scaled(rate, least, 2.0 * power, end)
  {
    assert least * (2.0 * power) == 2.0 * (least * power);
    assert end * (2.0 * power) == 2.0 * (end * power);
    assert least * power >= least by {
      assert least * (power - 1.0) >= 0.0;
    }
    if half == least && half >= least * power {
      assert least * power == least;
      assert least * (power - 1.0) == 0.0;
      assert power == 1.0;
    }
  }

  lemma {:induction false} BelowMore(b: Bucket, evs: seq<Event>, rate: real, more: real)
    requires Sane(b) && StaysBelow(b, evs, rate) && rate <= more
    ensures StaysBelow(b, evs, more)
    decreases |evs|
  {
    if evs != [] {
      AfterSane(b, evs[0]);
      BelowMore(After(b, evs[0]), evs[1..], rate, more);
    }
  }

  // After a backoff, and until the rate recovers, the grants in any window are at
  // most the bucket's size plus what the lowered rate yields.
  lemma BackoffSlowsGrants(b: Bucket, d: int, s: Time, evs: seq<Event>, t0: Time, t1: Time)
    requires Sane(b) && b.minRate <= b.rate && t0 <= t1 && InOrder(b.lastRefill, evs)
    requires Sane(Backoff(b, d, s)) && Unrecovered(Backoff(b, d, s), evs)
    ensures var p := Backoff(b, d, s);
            && (if b.rate >= 2.0 * b.minRate then 2.0 * p.rate == b.rate else p.rate == b.minRate)
            && Grants(p, evs, t0, t1) as real <= b.maxTokens + Yield(p.rate, t1 - t0)
  {
    var p := Backoff(b, d, s);
    BackoffIs(b, d, s);
    UnrecoveredStaysBelow(p, evs);
    GrantsAtRate(p, evs, p.rate, t0, t1);
  }

  // ---- recovering --------------------------------------------------------------------

  // An attempt after n whole intervals past the pause and the cooldown raises the rate
  // by n steps, or to the base rate if that is less.
  lemma RecoversBy(b: Bucket, at: Time, n: nat)
    requires Sane(b) && b.rate < b.baseRate && n >= 1
    requires var eligible := b.pauseUntil + b.recoveryCooldown;
             eligible + n * b.recoveryInterval <= at < eligible + (n + 1) * b.recoveryInterval
    ensures After(b, Event(at, Attempt)).rate
         == if b.rate + n as real * b.recoveryStep <= b.baseRate then b.rate + n as real * b.recoveryStep else b.baseRate
  {
    var since := at - (b.pauseUntil + b.recoveryCooldown);
    WholeIntervals(since, b.recoveryInterval, n);
    PastPause(b, at, n);
    RefillSane(b, at);
    assert Intervals(Refill(b, at), at) == n;
  }

  lemma PastPause(b: Bucket, at: Time, n: nat)
    requires Sane(b) && b.pauseUntil + b.recoveryCooldown + n * b.recoveryInterval <= at
    ensures b.pauseUntil + b.recoveryCooldown <= at && b.pauseUntil <= at
  {
    assert n * b.recoveryInterval >= 0;
  }

  lemma WholeIntervals(since: int, interval: int, n: nat)
    requires interval > 0 && n * interval <= since < (n + 1) * interval
    ensures since / interval == n
  {
    var q := since / interval;
    assert q * interval <= since < q * interval + interval;
    Multiples(q - n, interval);
    assert (q - n) * interval == q * interval - n * interval;
  }

  lemma Multiples(e: int, interval: int)
    requires interval > 0
    ensures e >= 1 ==> e * interval >= interval
    ensures e <= -1 ==> e * interval <= -interval
  {
    if e >= 1 {
      assert (e - 1) * interval >= 0;
    } else {
      assert -e * interval >= 0;
      assert e * interval == -(-e * interval);
      if e <= -1 {
        assert (-e - 1) * interval >= 0;
      }
    }
  }

  // ---- a lone caller's progress ----------------------------------------------------------

  // The clock readings of one Acquire loop: it starts no earlier than the last
  // refill, and a timer fires no sooner than the wait it was set to.
  ghost predicate Wakes(b: Bucket, clock: seq<Time>)
    requires Sane(b)
    decreases |clock|
  {
    AfterAlwaysSane();
    clock == [] ||
    (b.lastRefill <= clock[0]
     && (|clock| > 1 ==> clock[1] >= clock[0] + TryAcquire(b, clock[0]).1)
     && Wakes(After(b, Event(clock[0], Attempt)), clock[1..]))
  }

  // Attempts up to and including the first grant; |clock| + 1 when none is granted.
  function AttemptsNeeded(b: Bucket, clock: seq<Time>): nat
    requires Sane(b)
    decreases |clock|
  {
    AfterAlwaysSane();
    if clock == [] || Granted(b, Event(clock[0], Attempt)) then 1
    else 1 + AttemptsNeeded(After(b, Event(clock[0], Attempt)), clock[1..])
  }

  const NANOSECOND: int := 1

  // A bucket short of a token by less than what its rate yields in a nanosecond.
  predicate AlmostFull(b: Bucket) {
    b.tokens + Yield(b.rate, NANOSECOND) > 1.0
  }

  lemma FloorBound(x: real)
    ensures x - 1.0 < x.Floor as real <= x
  {
  }

  // Truncating the wait loses less than one nanosecond's yield.
  lemma WaitYields(b: Bucket)
    requires b.rate > 0.0 && b.tokens < 1.0
    ensures RefillWait(b) >= MILLISECOND
    ensures b.tokens + Yield(b.rate, RefillWait(b)) + Yield(b.rate, NANOSECOND) > 1.0
  {
    var x := (1.0 - b.tokens) / b.rate * SECOND as real;
    FloorBound(x);
    var w := RefillWait(b);
    assert w as real + 1.0 > x;
    YieldAdds(b.rate, w, NANOSECOND);
    assert Seconds(w + 1) > (1.0 - b.tokens) / b.rate;
    Cancel(Seconds(w + 1), 1.0 - b.tokens, b.rate);
  }

  lemma Cancel(s: real, need: real, rate: real)
    requires rate > 0.0 && s > need / rate
    ensures s * rate > need
  {
    assert (s - need / rate) * rate > 0.0;
    assert need / rate * rate == need;
  }

  // An unpaused attempt that is not granted leaves a bucket which, after the wait
  // it returned, is almost full, and grants if it was almost full before.
  lemma FailedAttempt(b: Bucket, t: Time, later: Time)
    requires Sane(b) && b.maxTokens >= 1.0 && b.lastRefill <= t && b.pauseUntil <= t
    requires TryAcquire(b, t).1 > 0 && later >= t + TryAcquire(b, t).1
    ensures var b' := After(b, Event(t, Attempt));
            && Sane(b') && b'.rate >= b.rate && b'.tokens >= b.tokens && b'.maxTokens == b.maxTokens
            && b'.lastRefill == t && b'.pauseUntil <= later
            && AlmostFull(Refill(b', later))
            && (AlmostFull(Refill(b, t)) ==> Granted(b', Event(later, Attempt)))
  {
    var ev := Event(t, Attempt);
    AfterSane(b, ev);
    RefillSane(b, t);
    RecoverSane(Refill(b, t), t);
    var b' := After(b, ev);
    var wait := TryAcquire(b, t).1;
    assert wait == RefillWait(b') && b'.tokens < 1.0;
    WaitYields(b');
    YieldAdds(b'.rate, wait, later - t - wait);
    YieldMonotone(b'.rate, b'.rate, later - t - wait);
    YieldMonotone(b'.rate, b'.rate, NANOSECOND);
    YieldPositive(b'.rate);
    assert AlmostFull(Refill(b', later));
    if AlmostFull(Refill(b, t)) {
      YieldMonotone(b.rate, b'.rate, NANOSECOND);
      YieldAdds(b'.rate, NANOSECOND, later - t - NANOSECOND);
      YieldMonotone(b'.rate, b'.rate, later - t - NANOSECOND);
      AfterSane(b', Event(later, Attempt));
    }
  }

  lemma YieldPositive(rate: real)
    requires rate > 0.0
    ensures Yield(rate, NANOSECOND) > 0.0
  {
    assert Seconds(NANOSECOND) > 0.0;
  }

  lemma {:induction false} AttemptsShift(b: Bucket, clock: seq<Time>)
    requires Sane(b) && Wakes(b, clock) && clock != []
    ensures b.lastRefill <= clock[0] && (|clock| > 1 ==> clock[1] >= clock[0] + TryAcquire(b, clock[0]).1)
    ensures !Granted(b, Event(clock[0], Attempt)) ==>
              var b' := After(b, Event(clock[0], Attempt));
              Sane(b') && Wakes(b', clock[1..]) && AttemptsNeeded(b, clock) == 1 + AttemptsNeeded(b', clock[1..])
  {
    AfterSane(b, Event(clock[0], Attempt));
  }

  // Once no pause is in force a lone caller sleeps at most twice: for the refill,
  // and for what truncating that wait to nanoseconds lost.
  lemma {:induction false} UnpausedProgress(b: Bucket, clock: seq<Time>)
    requires Sane(b) && b.maxTokens >= 1.0 && |clock| >= 3 && Wakes(b, clock) && b.pauseUntil <= clock[0]
    ensures AttemptsNeeded(b, clock) <= 3
  {
    AttemptsShift(b, clock);
    if !Granted(b, Event(clock[0], Attempt)) {
      AfterSane(b, Event(clock[0], Attempt));
      FailedAttempt(b, clock[0], clock[1]);
      var b1 := After(b, Event(clock[0], Attempt));
      AttemptsShift(b1, clock[1..]);
      if !Granted(b1, Event(clock[1], Attempt)) {
        AfterSane(b1, Event(clock[1], Attempt));
        FailedAttempt(b1, clock[1], clock[2]);
        var b2 := After(b1, Event(clock[1], Attempt));
        AttemptsShift(b2, clock[1..][1..]);
        assert clock[1..][1..][0] == clock[2];
      }
    }
  }

  // A bucket that can hold a token grants a lone caller after at most three
  // sleeps: the rest of a pause, and the two above.
  lemma AcquireProgress(b: Bucket, clock: seq<Time>)
    requires Sane(b) && b.maxTokens >= 1.0 && |clock| >= 4 && Wakes(b, clock)
    ensures AttemptsNeeded(b, clock) <= 4
  {
    AttemptsShift(b, clock);
    AfterSane(b, Event(clock[0], Attempt));
    UnpausedProgress(b, if b.pauseUntil <= clock[0] then clock else clock[1..]);
  }

  // Three sleeps may be needed. At 3 tokens a second, in a bucket of one: a pause
  // of a nanosecond, a wait for 0.999999997 of a token, and one for the billionth
  // that truncating that wait left out.
  function Slow(tokens: real, lastRefill: Time): Bucket {
    Bucket(tokens, 1.0, 3.0, 3.0, 0.3, 1, 1, 1, 1.0, 1, lastRefill)
  }

  lemma SlowRefill(tokens: real, last: Time, now: Time)
    requires 0.0 <= tokens && last < now
    ensures Refill(Slow(tokens, last), now) == Slow(Least(tokens + (now - last) as real * 0.000000003, 1.0), now)
    ensures forall t: real {:trigger Slow(t, now)} :: Recover(Slow(t, now), now) == Slow(t, now)
  {
    assert Yield(3.0, now - last) == (now - last) as real * 0.000000003;
  }

  lemma SlowWait(tokens: real, last: Time, wait: int)
    requires 0.0 <= tokens < 1.0
    requires wait as real * 0.000000003 <= 1.0 - tokens < (wait + 1) as real * 0.000000003
    ensures RefillWait(Slow(tokens, last)) == if wait < MILLISECOND then MILLISECOND else wait
  {
    var x := (1.0 - tokens) / 3.0 * SECOND as real;
    assert wait as real <= x < (wait + 1) as real;
    FloorBound(x);
  }

  lemma SlowMiss(tokens: real, last: Time, now: Time, wait: int)
    requires 0.0 <= tokens && last < now && 1 <= now
    requires var t := tokens + (now - last) as real * 0.000000003;
             t < 1.0 && wait as real * 0.000000003 <= 1.0 - t < (wait + 1) as real * 0.000000003
    ensures var t := tokens + (now - last) as real * 0.000000003;
            TryAcquire(Slow(tokens, last), now) == (Slow(t, now), if wait < MILLISECOND then MILLISECOND else wait)
  {
    var t := tokens + (now - last) as real * 0.000000003;
    SlowRefill(tokens, last, now);
    SlowWait(t, now, wait);
    hide Refill, Recover, RefillWait;
    assert Least(t, 1.0) == t;
  }

  lemma ThreeSleepsNeeded()
    ensures var b := Slow(0.0, 0);
            var clock := [0, 1, 333_333_333, 334_333_333];
            Sane(b) && Wakes(b, clock) && AttemptsNeeded(b, clock) == |clock|
  {
    var b, b1, b2 := Slow(0.0, 0), Slow(0.000000003, 1), Slow(0.999999999, 333_333_333);
    var clock := [0, 1, 333_333_333, 334_333_333];
    assert TryAcquire(b, 0) == (b, 1);
    SlowMiss(0.0, 0, 1, 333_333_332);
    SlowMiss(0.000000003, 1, 333_333_333, 0);
    SlowRefill(0.999999999, 333_333_333, 334_333_333);
    AfterSane(b2, Event(334_333_333, Attempt));
    hide TryAcquire, Refill;
    var c1, c2, c3 := [1, 333_333_333, 334_333_333], [333_333_333, 334_333_333], [334_333_333];
    assert clock[1..] == c1 && c1[1..] == c2 && c2[1..] == c3 && c3[1..] == [];
    assert Wakes(b2, c3) && AttemptsNeeded(b2, c3) == 1;
    assert Wakes(b1, c2) && AttemptsNeeded(b1, c2) == 2;
    assert Wakes(b, c1) && AttemptsNeeded(b, c1) == 3;
  }

  // A smaller one never grants, to anybody: together, a limiter serves exactly
  // when its burst setting is at least one token.
  lemma TinyBucketNeverGrants(b: Bucket, evs: seq<Event>, ev: Event)
    requires Sane(b) && b.maxTokens < 1.0
    ensures Sane(Run(b, evs)) && !Granted(Run(b, evs), ev)
  {
    RunSane(b, evs);
    AfterSane(Run(b, evs), ev);
    RefillSane(Run(b, evs), ev.at);
  }

  // ---- what a pause is worth ---------------------------------------------------------

  // Attempts made in a pause, before it lifts.
  ghost predicate InPause(b: Bucket, evs: seq<Event>) {
    forall i :: 0 <= i < |evs| ==> evs[i].op.Attempt? && evs[i].at < b.pauseUntil
  }

  lemma {:induction false} PauseIdles(b: Bucket, evs: seq<Event>)
    requires Sane(b) && InPause(b, evs)
    ensures Run(b, evs) == b
    decreases |evs|
  {
    if evs != [] {
      AfterSane(b, evs[0]);
      PauseIdles(b, evs[1..]);
    }
  }

  // Against the comment on Limiter, tokens accrue in a pause: whatever attempts it
  // turns away, it lifts on more tokens than there were to have when it began
  // exactly when the bucket had room then and the pause reaches beyond both its
  // beginning and the last refill. It lifts on more than Backoff left exactly when
  // there is room and it reaches beyond the last refill; and on more than the one
  // token Backoff allows exactly when the bucket holds more and the time since the
  // last refill yields it.
  lemma PauseCreditedIff(b: Bucket, d: int, s: Time, evs: seq<Event>)
    requires Sane(b) && InPause(Backoff(b, d, s), evs)
    ensures var p := Backoff(b, d, s);
            && Sane(p) && Run(p, evs) == p && p.lastRefill == b.lastRefill && p.tokens <= 1.0
            && (Refill(p, p.pauseUntil).tokens > Refill(p, s).tokens
                <==> Refill(p, s).tokens < p.maxTokens && p.pauseUntil > s && p.pauseUntil > p.lastRefill)
            && (Refill(p, p.pauseUntil).tokens > p.tokens <==> p.tokens < p.maxTokens && p.pauseUntil > p.lastRefill)
            && (Refill(p, p.pauseUntil).tokens > 1.0
                <==> p.maxTokens > 1.0 && p.tokens + Yield(p.rate, p.pauseUntil - p.lastRefill) > 1.0)
  {
    var p := Backoff(b, d, s);
    AfterSane(b, Event(s, Throttled(d)));
    PauseIdles(p, evs);
    LaterRefill(p, s, p.pauseUntil);
    YieldSign(p.rate, p.pauseUntil - p.lastRefill);
    hide Yield, Run, InPause;
  }

  // Refilling at t2 yields more than at t1 exactly when there was room at t1 and t2
  // is later than both t1 and the last refill.
  lemma LaterRefill(b: Bucket, t1: Time, t2: Time)
    requires Sane(b)
    ensures Refill(b, t2).tokens > Refill(b, t1).tokens
            <==> Refill(b, t1).tokens < b.maxTokens && t2 > t1 && t2 > b.lastRefill
  {
    YieldAdds(b.rate, t1 - b.lastRefill, t2 - t1);
    YieldSign(b.rate, t2 - t1);
    YieldSign(b.rate, t1 - b.lastRefill);
    YieldSign(b.rate, t2 - b.lastRefill);
    YieldSign(b.rate, t1 - t2);
    YieldAdds(b.rate, t2 - b.lastRefill, t1 - t2);
    hide Yield;
  }

  lemma YieldSign(rate: real, d: int)
    requires rate > 0.0
    ensures Yield(rate, d) > 0.0 <==> d > 0
  {
    if d > 0 {
      assert Seconds(d) > 0.0;
    } else {
      assert Seconds(d) <= 0.0;
    }
  }

  function AtOnce(t: Time, n: nat): seq<Event> {
    seq(n, _ => Event(t, Attempt))
  }

  // Of n attempts at one instant outside a pause, as many are granted as there are
  // whole tokens after the refill.
  lemma {:induction false} GrantsAtOnce(b: Bucket, t: Time, n: nat)
    requires Sane(b) && b.pauseUntil <= t
    ensures Sane(Refill(b, t)) && Refill(b, t).tokens.Floor >= 0
    ensures Grants(b, AtOnce(t, n), t, t) == if n <= Refill(b, t).tokens.Floor then n else Refill(b, t).tokens.Floor
    decreases n
  {
    RefillSane(b, t);
    if n > 0 {
      var ev := Event(t, Attempt);
      assert AtOnce(t, n)[0] == ev && AtOnce(t, n)[1..] == AtOnce(t, n - 1);
      AfterSane(b, ev);
      var b' := After(b, ev);
      assert Refill(b', t).tokens == b'.tokens;
      assert b'.pauseUntil <= t;
      hide Refill, After, Granted, AtOnce;
      GrantsAtOnce(b', t, n - 1);
    }
  }

  // So a pause ends in a burst of more than one grant exactly when the bucket has
  // room for two tokens and the time since the last refill makes up for them.
  lemma PauseBurstIff(b: Bucket, d: int, s: Time, n: nat)
    requires Sane(b) && n >= 2
    ensures var p := Backoff(b, d, s);
            Sane(p)
            && (Grants(p, AtOnce(p.pauseUntil, n), p.pauseUntil, p.pauseUntil) > 1
                <==> p.maxTokens >= 2.0 && p.tokens + Yield(p.rate, p.pauseUntil - p.lastRefill) >= 2.0)
  {
    var p := Backoff(b, d, s);
    AfterSane(b, Event(s, Throttled(d)));
    GrantsAtOnce(p, p.pauseUntil, n);
    YieldSign(p.rate, p.pauseUntil - p.lastRefill);
    hide Yield, Grants, AtOnce;
  }

  // For instance, a ten-second pause ends in a full bucket of 20 tokens.
  lemma PausedTimeIsCredited(now: Time)
    ensures var b := Backoff(NewBucket(LimiterConfig(20.0, 0.1, 20.0, 0, 0.0, 0), now), 10 * SECOND, now);
            b.tokens == 1.0 && Refill(b, now + 10 * SECOND).tokens == b.maxTokens == 20.0
  {
    var b := Backoff(NewBucket(LimiterConfig(20.0, 0.1, 20.0, 0, 0.0, 0), now), 10 * SECOND, now);
    assert Yield(b.rate, 10 * SECOND) == 100.0;
  }
}

// The limiter object: the fields its mutex guards, updated in place.
module RateLimiter {
  import opened TokenBucket

  class Limiter {
    var tokens: real
    const maxTokens: real
    var rate: real
    const baseRate: real
    const minRate: real
    var pauseUntil: Time
    var lastBackoffEnd: Time
    const recoveryCooldown: int
    const recoveryStep: real
    const recoveryInterval: int
    var lastRefill: Time

    ghost function State(): Bucket
      reads this
    {
      Bucket(tokens, maxTokens, rate, baseRate, minRate, pauseUntil, lastBackoffEnd,
             recoveryCooldown, recoveryStep, recoveryInterval, lastRefill)
    }

    constructor (cfg: LimiterConfig, now: Time)
      ensures State() == NewBucket(cfg, now) && Sane(State())
    {
      var base := if cfg.baseRate <= 0.0 then 20.0 else cfg.baseRate;
      var fraction := if cfg.minRateFraction <= 0.0 then 0.1 else cfg.minRateFraction;
      var burst := if cfg.maxBurst <= 0.0 then base else cfg.maxBurst;
      tokens, maxTokens := burst, burst;
      rate, baseRate, minRate := base, base, base * fraction;
      pauseUntil, lastBackoffEnd := 0, 0;
      recoveryCooldown := if cfg.recoveryCooldown <= 0 then 5 * SECOND else cfg.recoveryCooldown;
      recoveryStep := if cfg.recoveryStep <= 0.0 then 1.0 else cfg.recoveryStep;
      recoveryInterval := if cfg.recoveryInterval <= 0 then 2 * SECOND else cfg.recoveryInterval;
      lastRefill := now;
      new;
      NewBucketSane(cfg, now);
    }

    method Backoff(d: int, now: Time)
      modifies this
      ensures State() == TokenBucket.Backoff(old(State()), d, now)
    {
      rate := rate / 2.0;
      if rate < minRate {
        rate := minRate;
      }
      if tokens > 1.0 {
        tokens := 1.0;
      }
      var end := now + d;
      if end > pauseUntil {
        pauseUntil := end;
      }
      if end > lastBackoffEnd {
        lastBackoffEnd := end;
      }
    }

    method Refill(now: Time)
      modifies this
      ensures State() == TokenBucket.Refill(old(State()), now)
    {
      var elapsed := now - lastRefill;
      if elapsed <= 0 {
        lastRefill := now;
        return;
      }
      tokens := tokens + Yield(rate, elapsed);
      if tokens > maxTokens {
        tokens := maxTokens;
      }
      lastRefill := now;
    }

    method ApplyRecovery(now: Time)
      requires recoveryInterval > 0
      modifies this
      ensures State() == Recover(old(State()), now)
    {
      if rate >= baseRate {
        return;
      }
      var eligible := lastBackoffEnd + recoveryCooldown;
      if now < eligible {
        return;
      }
      var intervals := (now - eligible) / recoveryInterval;
      if intervals < 1 {
        return;
      }
      rate := rate + intervals as real * recoveryStep;
      if rate > baseRate {
        rate := baseRate;
      }
    }

    method TryAcquire(now: Time) returns (wait: int)
      requires Sane(State())
      modifies this
      ensures (State(), wait) == TokenBucket.TryAcquire(old(State()), now)
      ensures Sane(State())
    {
      AfterSane(State(), Event(now, Attempt));
      if now < pauseUntil {
        return pauseUntil - now;
      }
      RefillSane(State(), now);
      RecoverSane(TokenBucket.Refill(State(), now), now);
      Refill(now);
      ApplyRecovery(now);
      if tokens >= 1.0 {
        tokens := tokens - 1.0;
        return 0;
      }
      var needed := 1.0 - tokens;
      wait := (needed / rate * SECOND as real).Floor;
      if wait < MILLISECOND {
        wait := MILLISECOND;
      }
    }

    // Block until granted or the context is done. `clock` holds the readings the
    // attempts take; the context is done when they run out.
    method Acquire(clock: seq<Time>) returns (granted: bool, attempts: nat)
      requires Sane(State())
      modifies this
      ensures Sane(State())
      ensures granted <==> AttemptsNeeded(old(State()), clock) <= |clock|
      ensures attempts == if granted then AttemptsNeeded(old(State()), clock) else |clock|
      ensures State() == Run(old(State()), Attempts(clock[..attempts]))
    {
      ghost var start := State();
      attempts := 0;
      assert clock[0..] == clock;
      while attempts < |clock|
        invariant attempts <= |clock| && Sane(State())
        invariant AttemptsNeeded(start, clock) == attempts + AttemptsNeeded(State(), clock[attempts..])
        invariant State() == Run(start, Attempts(clock[..attempts]))
        invariant AttemptsNeeded(State(), clock[attempts..]) >= 1
      {
        ghost var now := clock[attempts];
        ghost var before := State();
        assert clock[attempts..][0] == now && clock[attempts..][1..] == clock[attempts + 1..];
        assert Attempts(clock[..attempts + 1]) == Attempts(clock[..attempts]) + [Event(now, Attempt)];
        RunExtends(start, Attempts(clock[..attempts]), Event(now, Attempt));
        var wait := TryAcquire(clock[attempts]);
        attempts := attempts + 1;
        if wait == 0 {
          return true, attempts;
        }
      }
      return false, attempts;
    }
  }

  ghost function Attempts(clock: seq<Time>): seq<Event> {
    seq(|clock|, i requires 0 <= i < |clock| => Event(clock[i], Attempt))
  }

  lemma {:induction false} RunExtends(b: Bucket, evs: seq<Event>, ev: Event)
    requires Sane(b)
    ensures Sane(Run(b, evs)) && Run(b, evs + [ev]) == After(Run(b, evs), ev)
    decreases |evs|
  {
    RunSane(b, evs);
    if evs != [] {
      AfterSane(b, evs[0]);
      RunExtends(After(b, evs[0]), evs[1..], ev);
      assert (evs + [ev])[1..] == evs[1..] + [ev];
    }
  }
}
