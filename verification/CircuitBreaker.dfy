/** The RPC circuit breaker: a failure list pruned to the last minute, a trip at five, and
    half a minute of refusals after a trip. */
module CircuitBreaker {
  import opened RecentTimes

  const MAX_FAILURES := 5
  const FAILURE_WINDOW := 60.0
  const OPEN_DURATION := 30.0

  datatype CircuitState = Closed | Open | HalfOpen

  datatype Breaker = Breaker(state: CircuitState, failures: seq<real>, openedAt: real)

  /** What the breaker is told or asked, with the clock reading. */
  datatype Op = Failure(at: real) | Success(at: real) | Ask(at: real)

  const FRESH := Breaker(Closed, [], 0.0)

  function RecordFailure(b: Breaker, now: real): Breaker {
    var failures := Recent(b.failures + [now], now - FAILURE_WINDOW);
    if |failures| >= MAX_FAILURES then Breaker(Open, failures, now) else b.(failures := failures)
  }

  function RecordSuccess(b: Breaker): Breaker {
    b.(failures := [], state := Closed)
  }

  predicate Allows(b: Breaker, now: real) {
    b.state != Open || now - b.openedAt >= OPEN_DURATION
  }

  function AfterAsk(b: Breaker, now: real): Breaker {
    if b.state == Open && now - b.openedAt >= OPEN_DURATION then b.(state := HalfOpen) else b
  }

  function Step(b: Breaker, op: Op): Breaker {
    match op
    case Failure(now) => RecordFailure(b, now)
    case Success(_) => RecordSuccess(b)
    case Ask(now) => AfterAsk(b, now)
  }

  function Exec(b: Breaker, ops: seq<Op>): Breaker {
    if ops == [] then b else Step(Exec(b, ops[..|ops| - 1]), ops[|ops| - 1])
  }

  ghost predicate InTimeOrder(ops: seq<Op>) {
    forall i, j :: 0 <= i < j < |ops| ==> ops[i].at <= ops[j].at
  }

  // ---------------------------------------------------------------- the pruned list

  /** Every failure since the last success, unpruned. */
  function FailuresSinceSuccess(ops: seq<Op>): seq<real> {
    if ops == [] then []
    else
      var front := FailuresSinceSuccess(ops[..|ops| - 1]);
      match ops[|ops| - 1]
      case Failure(now) => front + [now]
      case Success(_) => []
      case Ask(_) => front
  }

  /** The failures since the last success that lie within a minute of the latest one. */
  function WindowOfFailures(ops: seq<Op>): seq<real> {
    var all := FailuresSinceSuccess(ops);
    if all == [] then [] else Recent(all, all[|all| - 1] - FAILURE_WINDOW)
  }

  lemma {:induction false} FailuresOrdered(ops: seq<Op>)
    requires InTimeOrder(ops)
    ensures Sorted(FailuresSinceSuccess(ops))
    ensures ops != [] ==> AtMost(FailuresSinceSuccess(ops), ops[|ops| - 1].at)
  {
    if ops != [] {
      FailuresOrdered(ops[..|ops| - 1]);
    }
  }

  /** Pruning the pruned list again with a later cutoff is pruning everything. */
  lemma PruneTwice(all: seq<real>, now: real)
    requires all != [] ==> all[|all| - 1] <= now
    ensures var pruned := if all == [] then [] else Recent(all, all[|all| - 1] - FAILURE_WINDOW);
            Recent(pruned + [now], now - FAILURE_WINDOW) == Recent(all + [now], now - FAILURE_WINDOW)
  {
    var cutoff := now - FAILURE_WINDOW;
    RecentAppend(all, now, cutoff);
    if all != [] {
      var before := all[|all| - 1] - FAILURE_WINDOW;
      RecentOfRecent(all, before, cutoff);
      RecentAppend(Recent(all, before), now, cutoff);
    }
  }

  lemma WindowNext(ops: seq<Op>, now: real)
    requires InTimeOrder(ops) && (ops != [] ==> ops[|ops| - 1].at <= now)
    ensures WindowOfFailures(ops + [Failure(now)]) == Recent(WindowOfFailures(ops) + [now], now - FAILURE_WINDOW)
  {
    FailuresOrdered(ops);
    assert (ops + [Failure(now)])[..|ops|] == ops;
    PruneTwice(FailuresSinceSuccess(ops), now);
  }

  lemma WindowAfter(ops: seq<Op>, op: Op)
    requires InTimeOrder(ops) && (ops != [] ==> ops[|ops| - 1].at <= op.at)
    ensures WindowOfFailures(ops + [op])
         == (match op
             case Failure(now) => Recent(WindowOfFailures(ops) + [now], now - FAILURE_WINDOW)
             case Success(_) => []
             case Ask(_) => WindowOfFailures(ops))
  {
    assert (ops + [op])[..|ops|] == ops;
    if op.Failure? {
      WindowNext(ops, op.at);
    }
  }

  lemma StepKeepsWindow(b: Breaker, w: seq<real>, op: Op)
    requires b.failures == w && (b.state == Closed ==> |w| < MAX_FAILURES)
    ensures var w' := match op
                      case Failure(now) => Recent(w + [now], now - FAILURE_WINDOW)
                      case Success(_) => []
                      case Ask(_) => w;
            Step(b, op).failures == w' && (Step(b, op).state == Closed ==> |w'| < MAX_FAILURES)
  {
  }

  /** The pruned list is always that window, and a closed breaker has fewer than five in it. */
  lemma {:induction false} ListIsWindow(ops: seq<Op>)
    requires InTimeOrder(ops)
    ensures Exec(FRESH, ops).failures == WindowOfFailures(ops)
    ensures Exec(FRESH, ops).state == Closed ==> |WindowOfFailures(ops)| < MAX_FAILURES
  {
    if ops != [] {
      var front, op := ops[..|ops| - 1], ops[|ops| - 1];
      assert ops == front + [op];
      ListIsWindow(front);
      assert Exec(FRESH, ops) == Step(Exec(FRESH, front), op);
      StepKeepsWindow(Exec(FRESH, front), WindowOfFailures(front), op);
      WindowAfter(front, op);
    }
  }

  /** A failure trips the breaker exactly when the window then holds five. */
  lemma TripsExactlyAtFive(ops: seq<Op>, now: real)
    requires InTimeOrder(ops + [Failure(now)])
    ensures var before, after := Exec(FRESH, ops), Exec(FRESH, ops + [Failure(now)]);
            if |WindowOfFailures(ops + [Failure(now)])| >= MAX_FAILURES
            then after.state == Open && after.openedAt == now
            else after.state == before.state && after.openedAt == before.openedAt
  {
    ListIsWindow(ops + [Failure(now)]);
    assert (ops + [Failure(now)])[..|ops|] == ops;
  }

  // ---------------------------------------------------------------- open means closed to requests

  /** Once open since openedAt, and without a success, it stays open and refuses every
      request for thirty seconds, whatever else fails meanwhile. */
  lemma {:induction false} RefusesAfterTrip(b: Breaker, tripped: real, ops: seq<Op>)
    requires b.state == Open && b.openedAt >= tripped
    requires forall i :: 0 <= i < |ops| ==> !ops[i].Success? && tripped <= ops[i].at < tripped + OPEN_DURATION
    ensures Exec(b, ops).state == Open && Exec(b, ops).openedAt >= tripped
    ensures forall now :: now < tripped + OPEN_DURATION ==> !Allows(Exec(b, ops), now)
  {
    if ops != [] {
      RefusesAfterTrip(b, tripped, ops[..|ops| - 1]);
    }
  }

  lemma {:induction false} ExecConcat(b: Breaker, x: seq<Op>, y: seq<Op>)
    ensures Exec(b, x + y) == Exec(Exec(b, x), y)
  {
    if y == [] {
      assert x + y == x;
    } else {
      assert (x + y)[..|x + y| - 1] == x + y[..|y| - 1];
      ExecConcat(b, x, y[..|y| - 1]);
    }
  }

  /** Over whole runs: a failure that completes a window of five is followed by thirty seconds
      without an allowed request unless a success is recorded in between. */
  lemma NoRequestForThirtySeconds(ops: seq<Op>, trip: real, later: seq<Op>, now: real)
    requires InTimeOrder(ops + [Failure(trip)])
    requires |WindowOfFailures(ops + [Failure(trip)])| >= MAX_FAILURES
    requires forall i :: 0 <= i < |later| ==> !later[i].Success? && trip <= later[i].at <= now
    requires now < trip + OPEN_DURATION
    ensures !Allows(Exec(FRESH, ops + [Failure(trip)] + later), now)
  {
    TripsExactlyAtFive(ops, trip);
    ExecConcat(FRESH, ops + [Failure(trip)], later);
    RefusesAfterTrip(Exec(FRESH, ops + [Failure(trip)]), trip, later);
  }

  /** A failed probe reopens a half-open breaker exactly when, with it, five failures lie in
      the last minute; otherwise requests stay allowed. */
  lemma FailedProbe(ops: seq<Op>, now: real)
    requires InTimeOrder(ops + [Failure(now)]) && Exec(FRESH, ops).state == HalfOpen
    ensures Allows(Exec(FRESH, ops + [Failure(now)]), now) <==> |WindowOfFailures(ops + [Failure(now)])| < MAX_FAILURES
  {
    TripsExactlyAtFive(ops, now);
  }

  function Repeat<T>(x: T, n: nat): (r: seq<T>)
    ensures |r| == n
  {
    if n == 0 then [] else Repeat(x, n - 1) + [x]
  }

  lemma {:induction false} FailuresAtOnce(n: nat)
    requires n <= MAX_FAILURES
    ensures Exec(FRESH, Repeat(Failure(0.0), n)) == Breaker(if n < MAX_FAILURES then Closed else Open, Repeat(0.0, n), 0.0)
    ensures Recent(Repeat(0.0, n), 0.0 - FAILURE_WINDOW) == Repeat(0.0, n) && Recent(Repeat(0.0, n), 0.0) == []
  {
    if n > 0 {
      FailuresAtOnce(n - 1);
      assert Repeat(Failure(0.0), n)[..n - 1] == Repeat(Failure(0.0), n - 1);
      assert Repeat(0.0, n)[..n - 1] == Repeat(0.0, n - 1);
    }
  }

  lemma {:induction false} AllAtOnce(n: nat, i: nat)
    requires i < n
    ensures Repeat(Failure(0.0), n)[i] == Failure(0.0)
  {
    if i < n - 1 { AllAtOnce(n - 1, i); }
  }

  lemma ThenAMinuteLater(ops: seq<Op>, x: Op, y: Op)
    requires forall i :: 0 <= i < |ops| ==> ops[i] == Failure(0.0)
    requires x.at == y.at == 60.0
    ensures InTimeOrder(ops + [x] + [y])
    ensures Exec(FRESH, ops + [x]) == Step(Exec(FRESH, ops), x)
    ensures Exec(FRESH, ops + [x] + [y]) == Step(Exec(FRESH, ops + [x]), y)
  {
    assert (ops + [x])[..|ops|] == ops && (ops + [x] + [y])[..|ops| + 1] == ops + [x];
  }

  /** Such a probe: after a quiet minute the old failures are pruned, so one failed probe
      leaves the breaker half-open and every further request is let through. */
  lemma ProbeNeedNotReopen() returns (ops: seq<Op>, now: real)
    ensures InTimeOrder(ops + [Failure(now)]) && Exec(FRESH, ops).state == HalfOpen
    ensures Exec(FRESH, ops + [Failure(now)]).state == HalfOpen && Allows(Exec(FRESH, ops + [Failure(now)]), now)
  {
    var five := Repeat(Failure(0.0), 5);
    ops, now := five + [Ask(60.0)], 60.0;
    FailuresAtOnce(5);
    forall i | 0 <= i < 5 ensures five[i] == Failure(0.0) { AllAtOnce(5, i); }
    ThenAMinuteLater(five, Ask(60.0), Failure(60.0));
    RecentAppend(Repeat(0.0, 5), 60.0, 0.0);
  }

  // ---------------------------------------------------------------- the object and its driver

  datatype Provider = Primary | Fallback | PrimaryUnchecked | Unavailable

  class Circuit {
    var state: CircuitState
    var failures: seq<real>
    var openedAt: real

    function View(): Breaker
      reads this
    {
      Breaker(state, failures, openedAt)
    }

    constructor ()
      ensures View() == FRESH
    {
      state, failures, openedAt := Closed, [], 0.0;
    }

    method OnFailure(now: real)
      modifies this
      ensures View() == Step(old(View()), Failure(now))
      ensures if |failures| >= 5 then state == Open && openedAt == now else state == old(state) && openedAt == old(openedAt)
    {
      failures := failures + [now];
      failures := Prune(failures, now - FAILURE_WINDOW);
      if |failures| >= MAX_FAILURES {
        state := Open;
        openedAt := now;
      }
    }

    method OnSuccess(now: real)
      modifies this
      ensures View() == Step(old(View()), Success(now))
      ensures state == Closed && failures == [] && openedAt == old(openedAt)
    {
      failures := [];
      state := Closed;
    }

    method AllowRequest(now: real) returns (allowed: bool)
      modifies this
      ensures View() == Step(old(View()), Ask(now))
      ensures allowed == Allows(old(View()), now)
      ensures allowed <==> old(state) != Open || now - openedAt >= 30.0
      ensures failures == old(failures) && openedAt == old(openedAt)
      ensures state == if old(state) == Open && now - openedAt >= 30.0 then HalfOpen else old(state)
    {
      if state == Closed {
        return true;
      }
      if state == Open {
        if now - openedAt >= OPEN_DURATION {
          state := HalfOpen;
          return true;
        }
        return false;
      }
      allowed := true;
    }

    /** get_web3_provider: primaryUp and fallbackUp are the connection checks; fallback is
        None when no second URL is configured. asked and answered are the clock readings. */
    method GetProvider(primaryUp: bool, hasFallback: bool, fallbackUp: bool, asked: real, answered: real) returns (p: Provider)
      modifies this
      ensures View() == (var b := Step(old(View()), Ask(asked));
                         if !Allows(old(View()), asked) then b
                         else Step(b, if primaryUp then Success(answered) else Failure(answered)))
      ensures p == Primary <==> Allows(old(View()), asked) && primaryUp
      ensures p != Primary ==>
                p == if hasFallback && fallbackUp then Fallback else if state == Open then Unavailable else PrimaryUnchecked
      ensures old(state) == Open && asked - old(openedAt) < 30.0 ==> View() == old(View()) && p != Primary && p != PrimaryUnchecked
      ensures p == Primary ==> state == Closed && failures == []
    {
      var allowed := AllowRequest(asked);
      if allowed {
        if primaryUp {
          OnSuccess(answered);
          return Primary;
        }
        OnFailure(answered);
      }
      if hasFallback && fallbackUp {
        return Fallback;
      }
      if state == Open {
        return Unavailable;
      }
      p := PrimaryUnchecked;
    }
  }
}
