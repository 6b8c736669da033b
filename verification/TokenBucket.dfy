/** RateLimiter: a token bucket whose acquire sleeps while it holds the lock, and sets
    last_update before the sleep, so the time slept is credited once more by the next refill. */
module TokenBucket {
  import opened Extrema

  datatype Bucket = Bucket(tokens: real, lastUpdate: real)

  /** One acquire: when it got the lock, and when it completed and released it. */
  datatype Grant = Grant(now: real, done: real)

  function Refilled(rate: real, b: Bucket, now: real): real {
    MinReal(rate, b.tokens + Earned(rate, now - b.lastUpdate))
  }

  /** How long acquire sleeps. */
  function Wait(rate: real, b: Bucket, now: real): real
    requires rate > 0.0
  {
    var tokens := Refilled(rate, b, now);
    if tokens < 1.0 then (1.0 - tokens) / rate else 0.0
  }

  function AfterAcquire(rate: real, b: Bucket, now: real): Bucket {
    var tokens := Refilled(rate, b, now);
    Bucket(if tokens < 1.0 then 0.0 else tokens - 1.0, now)
  }

  /** The bucket after a run of grants; it starts full. */
  function After(rate: real, start: real, gs: seq<Grant>): Bucket {
    if gs == [] then Bucket(rate, start)
    else AfterAcquire(rate, After(rate, start, gs[..|gs| - 1]), gs[|gs| - 1].now)
  }

  function LastDone(start: real, gs: seq<Grant>): real {
    if gs == [] then start else gs[|gs| - 1].done
  }

  /** The lock serialises acquires, and a sleep lasts at least as long as asked for. */
  ghost predicate Legal(rate: real, start: real, gs: seq<Grant>)
    requires rate > 0.0
  {
    gs == []
    || var front, g := gs[..|gs| - 1], gs[|gs| - 1];
       Legal(rate, start, front)
       && g.now >= LastDone(start, front)
       && g.done >= g.now + Wait(rate, After(rate, start, front), g.now)
  }

  /** The time spent sleeping. */
  function Slept(rate: real, start: real, gs: seq<Grant>): real
    requires rate > 0.0
  {
    if gs == [] then 0.0
    else
      var front := gs[..|gs| - 1];
      Slept(rate, start, front) + Wait(rate, After(rate, start, front), gs[|gs| - 1].now)
  }

  /** Tokens credited by all refills, before the cap. */
  function Credited(rate: real, start: real, gs: seq<Grant>): real {
    if gs == [] then 0.0
    else
      var front := gs[..|gs| - 1];
      Credited(rate, start, front) + Earned(rate, gs[|gs| - 1].now - After(rate, start, front).lastUpdate)
  }

  function Earned(rate: real, time: real): real { time * rate }

  lemma EarnedAdds(rate: real, x: real, y: real)
    ensures Earned(rate, x + y) == Earned(rate, x) + Earned(rate, y)
  {
  }

  lemma EarnedMonotone(rate: real, x: real, y: real)
    requires rate > 0.0 && x <= y
    ensures Earned(rate, x) <= Earned(rate, y)
  {
    assert (y - x) * rate >= 0.0;
  }

  /** The tokens present and the sleep together pay for exactly one token, unless the cap cuts. */
  lemma OneTokenPaid(rate: real, b: Bucket, now: real)
    requires rate > 0.0
    ensures Wait(rate, b, now) >= 0.0
    ensures 1.0 + AfterAcquire(rate, b, now).tokens <= b.tokens + Earned(rate, now - b.lastUpdate) + Earned(rate, Wait(rate, b, now))
    ensures AfterAcquire(rate, b, now).tokens >= 0.0
    ensures AfterAcquire(rate, b, now).tokens <= rate
  {
    var tokens := Refilled(rate, b, now);
    if tokens < 1.0 {
      assert (1.0 - tokens) / rate * rate == 1.0 - tokens;
      assert (1.0 - tokens) / rate > 0.0;
    }
  }

  /** The level never leaves [0, rate], and time only moves forward. */
  lemma {:induction false} LevelBounds(rate: real, start: real, gs: seq<Grant>)
    requires rate > 0.0 && Legal(rate, start, gs)
    ensures var b := After(rate, start, gs);
            0.0 <= b.tokens <= rate && start <= b.lastUpdate <= LastDone(start, gs)
  {
    if gs != [] {
      var front := gs[..|gs| - 1];
      LevelBounds(rate, start, front);
      OneTokenPaid(rate, After(rate, start, front), gs[|gs| - 1].now);
    }
  }

  /** Sleeps of different acquires do not overlap. */
  lemma {:induction false} SleepsFitInElapsedTime(rate: real, start: real, gs: seq<Grant>)
    requires rate > 0.0 && Legal(rate, start, gs)
    ensures Slept(rate, start, gs) <= LastDone(start, gs) - start
  {
    if gs != [] {
      SleepsFitInElapsedTime(rate, start, gs[..|gs| - 1]);
    }
  }

  /** Refills credit exactly the time up to the last update. */
  lemma {:induction false} CreditIsElapsed(rate: real, start: real, gs: seq<Grant>)
    ensures Credited(rate, start, gs) == Earned(rate, After(rate, start, gs).lastUpdate - start)
  {
    if gs != [] {
      var front := gs[..|gs| - 1];
      CreditIsElapsed(rate, start, front);
      var last := After(rate, start, front).lastUpdate;
      EarnedAdds(rate, last - start, gs[|gs| - 1].now - last);
    }
  }

  /** Every grant is paid for by the initial burst, credited time, or slept time. */
  lemma {:induction false} GrantsArePaidFor(rate: real, start: real, gs: seq<Grant>)
    requires rate > 0.0 && Legal(rate, start, gs)
    ensures |gs| as real + After(rate, start, gs).tokens
         <= rate + Credited(rate, start, gs) + Earned(rate, Slept(rate, start, gs))
  {
    if gs != [] {
      var front, now := gs[..|gs| - 1], gs[|gs| - 1].now;
      GrantsArePaidFor(rate, start, front);
      var b := After(rate, start, front);
      OneTokenPaid(rate, b, now);
      EarnedAdds(rate, Slept(rate, start, front), Wait(rate, b, now));
      assert |gs| as real == |front| as real + 1.0;
    }
  }

  /** Twice the time: last_update is set before the sleep, so slept time is credited again. */
  function Allowance(rate: real, elapsed: real): real { rate + 2.0 * Earned(rate, elapsed) }

  /** The n-th grant, completing at time c, satisfies n <= rate + 2 * rate * (c - start). */
  lemma GrantsBounded(rate: real, start: real, gs: seq<Grant>)
    requires rate > 0.0 && Legal(rate, start, gs)
    ensures |gs| as real <= Allowance(rate, LastDone(start, gs) - start)
  {
    LevelBounds(rate, start, gs);
    GrantsArePaidFor(rate, start, gs);
    SleepsFitInElapsedTime(rate, start, gs);
    CreditIsElapsed(rate, start, gs);
    var elapsed := LastDone(start, gs) - start;
    EarnedMonotone(rate, After(rate, start, gs).lastUpdate - start, elapsed);
    EarnedMonotone(rate, Slept(rate, start, gs), elapsed);
  }

  lemma LegalAppend(rate: real, start: real, gs: seq<Grant>, g: Grant)
    requires rate > 0.0 && Legal(rate, start, gs)
    requires g.now >= LastDone(start, gs) && g.done >= g.now + Wait(rate, After(rate, start, gs), g.now)
    ensures Legal(rate, start, gs + [g])
    ensures After(rate, start, gs + [g]) == AfterAcquire(rate, After(rate, start, gs), g.now)
    ensures LastDone(start, gs + [g]) == g.done
  {
    assert (gs + [g])[..|gs|] == gs;
  }

  /** n acquires at the start, which the full bucket grants at once. */
  function Burst(start: real, n: nat): (gs: seq<Grant>)
    ensures |gs| == n
  {
    if n == 0 then [] else Burst(start, n - 1) + [Grant(start, start)]
  }

  lemma TakeAtOnce(rate: real, start: real, gs: seq<Grant>, level: real)
    requires 1.0 <= level <= rate
    requires Legal(rate, start, gs) && After(rate, start, gs) == Bucket(level, start) && LastDone(start, gs) == start
    ensures var gs' := gs + [Grant(start, start)];
            Legal(rate, start, gs') && After(rate, start, gs') == Bucket(level - 1.0, start) && LastDone(start, gs') == start
  {
    assert Earned(rate, start - start) == 0.0;
    LegalAppend(rate, start, gs, Grant(start, start));
  }

  lemma {:induction false} BurstRuns(rate: real, start: real, n: nat)
    requires rate > 0.0 && n as real <= rate
    ensures var gs := Burst(start, n);
            && Legal(rate, start, gs) && LastDone(start, gs) == start
            && After(rate, start, gs) == Bucket(rate - n as real, start)
  {
    if n > 0 {
      BurstRuns(rate, start, n - 1);
      TakeAtOnce(rate, start, Burst(start, n - 1), rate - (n - 1) as real);
    }
  }

  /** When k further pairs of acquires are done, each taking the time of one token. */
  function PairsDone(rate: real, start: real, k: nat): real
    requires rate > 0.0
  {
    if k == 0 then start else PairsDone(rate, start, k - 1) + 1.0 / rate
  }

  lemma {:induction false} PairsTakeTime(rate: real, start: real, k: nat)
    requires rate > 0.0
    ensures Earned(rate, PairsDone(rate, start, k) - start) == k as real
  {
    if k > 0 {
      PairsTakeTime(rate, start, k - 1);
      EarnedAdds(rate, PairsDone(rate, start, k - 1) - start, 1.0 / rate);
      assert Earned(rate, 1.0 / rate) == 1.0;
    }
  }

  /** The burst, and then back-to-back acquires: one that sleeps for a token, and one that finds
      the slept time credited. */
  function BackToBack(rate: nat, start: real, k: nat): (gs: seq<Grant>)
    requires rate > 0
    ensures |gs| == rate + 2 * k
  {
    if k == 0 then Burst(start, rate)
    else
      var t, u := PairsDone(rate as real, start, k - 1), PairsDone(rate as real, start, k);
      BackToBack(rate, start, k - 1) + [Grant(t, u), Grant(u, u)]
  }

  lemma OneMorePair(rate: real, start: real, gs: seq<Grant>, t: real, u: real)
    requires rate >= 1.0 && u == t + 1.0 / rate
    requires Legal(rate, start, gs) && After(rate, start, gs) == Bucket(0.0, t) && LastDone(start, gs) == t
    ensures var gs' := gs + [Grant(t, u), Grant(u, u)];
            Legal(rate, start, gs') && After(rate, start, gs') == Bucket(0.0, u) && LastDone(start, gs') == u
  {
    assert 1.0 / rate * rate == 1.0 && 1.0 / rate > 0.0;
    assert Earned(rate, t - t) == 0.0 && Earned(rate, u - t) == 1.0;
    LegalAppend(rate, start, gs, Grant(t, u));
    LegalAppend(rate, start, gs + [Grant(t, u)], Grant(u, u));
    assert gs + [Grant(t, u)] + [Grant(u, u)] == gs + [Grant(t, u), Grant(u, u)];
  }

  lemma {:induction false} BackToBackRuns(rate: nat, start: real, k: nat)
    requires rate > 0
    ensures var gs, r := BackToBack(rate, start, k), rate as real;
            && Legal(r, start, gs)
            && After(r, start, gs) == Bucket(0.0, PairsDone(r, start, k))
            && LastDone(start, gs) == PairsDone(r, start, k)
  {
    var r := rate as real;
    if k == 0 {
      BurstRuns(r, start, rate);
    } else {
      BackToBackRuns(rate, start, k - 1);
      OneMorePair(r, start, BackToBack(rate, start, k - 1), PairsDone(r, start, k - 1), PairsDone(r, start, k));
    }
  }

  /** At every whole rate the bound is met with equality by runs of any length, so no factor
      smaller than two would do. */
  lemma FactorTwoIsExact(rate: nat, start: real, k: nat)
    requires rate > 0
    ensures var gs, r := BackToBack(rate, start, k), rate as real;
            && Legal(r, start, gs)
            && |gs| == rate + 2 * k
            && |gs| as real == Allowance(r, LastDone(start, gs) - start)
  {
    BackToBackRuns(rate, start, k);
    PairsTakeTime(rate as real, start, k);
  }

  class RateLimiter {
    const requestsPerSecond: real
    var tokens: real
    var lastUpdate: real
    /** When the limiter was created, and every grant since. */
    ghost const start: real
    ghost var grants: seq<Grant>

    ghost predicate Valid()
      reads this
    {
      && requestsPerSecond > 0.0
      && Legal(requestsPerSecond, start, grants)
      && Bucket(tokens, lastUpdate) == After(requestsPerSecond, start, grants)
    }

    constructor (requestsPerSecond: real, now: real)
      requires requestsPerSecond > 0.0
      ensures Valid() && this.requestsPerSecond == requestsPerSecond && start == now && grants == []
    {
      this.requestsPerSecond := requestsPerSecond;
      tokens, lastUpdate := requestsPerSecond, now;
      start, grants := now, [];
    }

    /** The lock's critical section up to the sleep: refill, then take a token or say how long
        to wait for one. */
    method TakeOrWait(now: real) returns (waitTime: real)
      requires requestsPerSecond > 0.0
      modifies this`tokens, this`lastUpdate
      ensures Bucket(tokens, lastUpdate) == AfterAcquire(requestsPerSecond, Bucket(old(tokens), old(lastUpdate)), now)
      ensures waitTime == Wait(requestsPerSecond, Bucket(old(tokens), old(lastUpdate)), now)
      ensures var earned := old(tokens) + (now - old(lastUpdate)) * requestsPerSecond;
              var level := if earned < requestsPerSecond then earned else requestsPerSecond;
              && lastUpdate == now
              && (level >= 1.0 ==> waitTime == 0.0 && tokens == level - 1.0)
              && (level < 1.0 ==> waitTime > 0.0 && waitTime * requestsPerSecond == 1.0 - level && tokens == 0.0)
    {
      var timePassed := now - lastUpdate;
      tokens := MinReal(requestsPerSecond, tokens + Earned(requestsPerSecond, timePassed));
      lastUpdate := now;
      waitTime := 0.0;
      if tokens < 1.0 {
        waitTime := (1.0 - tokens) / requestsPerSecond;
        assert waitTime * requestsPerSecond == 1.0 - tokens;
        tokens := 0.0;
      } else {
        tokens := tokens - 1.0;
      }
    }

    /** acquire, entered at now; its sleep, if any, overruns by delay. done is when it returns. */
    method Acquire(now: real, delay: real) returns (done: real)
      requires Valid() && now >= LastDone(start, grants) && delay >= 0.0
      modifies this
      ensures Valid() && grants == old(grants) + [Grant(now, done)]
      ensures done == now + Wait(requestsPerSecond, Bucket(old(tokens), old(lastUpdate)), now) + delay
    {
      var waitTime := TakeOrWait(now);
      done := now + waitTime + delay;
      LegalAppend(requestsPerSecond, start, grants, Grant(now, done));
      grants := grants + [Grant(now, done)];
    }

    /** What every client can rely on: the level stays in range and the grants made so far
        are within the allowance for the time they took. */
    lemma RateIsLimited()
      requires Valid()
      ensures 0.0 <= tokens <= requestsPerSecond
      ensures |grants| as real <= Allowance(requestsPerSecond, LastDone(start, grants) - start)
    {
      LevelBounds(requestsPerSecond, start, grants);
      GrantsBounded(requestsPerSecond, start, grants);
    }
  }
}
