/** The webhook retry queue: stored events in created_at order, a sweep that takes the
    oldest fifty pending ones, at most three attempts each, then dead letter. */
module WebhookQueue {
  import opened Sets
  import opened Wrappers

  const BATCH_SIZE: nat := 50
  const MAX_ATTEMPTS: nat := 3
  const INLINE_FAILURE := "Initial processing failed \U{2014} queued for retry"

  datatype EventStatus = Pending | Processed | DeadLettered

  datatype Event = Event(status: EventStatus, attempts: nat, lastError: Option<string>, processedAt: Option<real>)

  /** One sweep's environment: which events (by position) are handled without an exception. */
  datatype Sweeping = Sweeping(succeeds: set<nat>, now: real, error: string)

  /** A delivery is stored and first tried inline; an admin may queue an unprocessed event again. */
  datatype Action =
    | Sweep(w: Sweeping)
    | Arrive(handledInline: bool, now: real)
    | Replay(i: nat)

  /** The positions before e that are still pending: what a sweep takes before e. */
  function Older(events: seq<Event>, e: nat): set<nat> {
    set i: nat | i < e && i < |events| && events[i].status == Pending
  }

  predicate InBatch(events: seq<Event>, i: nat) {
    i < |events| && events[i].status == Pending && |Older(events, i)| < BATCH_SIZE
  }

  /** What the loop body does to one event. */
  function Attempt(e: Event, ok: bool, w: Sweeping): Event {
    if e.attempts >= MAX_ATTEMPTS then e.(status := DeadLettered)
    else if ok then e.(status := Processed, processedAt := Some(w.now))
    else
      e.(attempts := e.attempts + 1, lastError := Some(w.error),
         status := if e.attempts + 1 >= MAX_ATTEMPTS then DeadLettered else e.status)
  }

  function SweepAll(events: seq<Event>, w: Sweeping): (r: seq<Event>)
    ensures |r| == |events|
  {
    seq(|events|, i requires 0 <= i < |events| =>
      if InBatch(events, i) then Attempt(events[i], i in w.succeeds, w) else events[i])
  }

  function Delivered(handledInline: bool, now: real): Event {
    if handledInline then Event(Processed, 1, None, Some(now))
    else Event(Pending, 1, Some(INLINE_FAILURE), None)
  }

  function Step(events: seq<Event>, a: Action): seq<Event> {
    match a
    case Sweep(w) => SweepAll(events, w)
    case Arrive(ok, now) => events + [Delivered(ok, now)]
    case Replay(i) =>
      if i < |events| && events[i].status != Processed
      then events[i := events[i].(status := Pending, attempts := 0, lastError := None)]
      else events
  }

  function Exec(events: seq<Event>, run: seq<Action>): seq<Event>
    decreases run
  {
    if run == [] then events else Exec(Step(events, run[0]), run[1..])
  }

  function Sweeps(run: seq<Action>): nat {
    if run == [] then 0 else (if run[0].Sweep? then 1 else 0) + Sweeps(run[1..])
  }

  // ---------------------------------------------------------------- attempts stay below three

  /** A pending event has been tried at most twice, so the pre-loop dead-letter branch never runs. */
  ghost predicate Retryable(events: seq<Event>) {
    forall i :: 0 <= i < |events| && events[i].status == Pending ==> events[i].attempts < MAX_ATTEMPTS
  }

  lemma StepRetryable(events: seq<Event>, a: Action)
    requires Retryable(events)
    ensures Retryable(Step(events, a))
  {
  }

  lemma {:induction false} ReachableRetryable(events: seq<Event>, run: seq<Action>)
    requires Retryable(events)
    ensures Retryable(Exec(events, run))
    decreases run
  {
    if run != [] {
      StepRetryable(events, run[0]);
      ReachableRetryable(Step(events, run[0]), run[1..]);
    }
  }

  // ---------------------------------------------------------------- what becomes of an event

  lemma {:induction false} ExecConcat(events: seq<Event>, a: seq<Action>, b: seq<Action>)
    ensures Exec(events, a + b) == Exec(Exec(events, a), b)
    decreases a
  {
    if a == [] {
      assert a + b == b;
    } else {
      assert (a + b)[1..] == a[1..] + b;
      ExecConcat(Step(events, a[0]), a[1..], b);
    }
  }

  lemma {:induction false} ExecLast(events: seq<Event>, run: seq<Action>)
    requires run != []
    ensures Exec(events, run) == Step(Exec(events, run[..|run| - 1]), run[|run| - 1])
    decreases run
  {
    var front := run[..|run| - 1];
    if front == [] {
      assert run[1..] == [];
    } else {
      ExecLast(Step(events, run[0]), run[1..]);
      assert front[1..] == run[1..][..|run| - 2] && front[0] == run[0];
    }
  }

  /** The sweep tries event i: it is one of the fifty oldest pending ones. */
  predicate Tries(events: seq<Event>, i: nat) {
    i < |events| && events[i].status == Pending && |Older(events, i)| < 50
  }

  /** How often handling event i has failed since it was delivered or last replayed. */
  function Failures(run: seq<Action>, i: nat): nat {
    if run == [] then 0
    else
      var front, events := run[..|run| - 1], Exec([], run[..|run| - 1]);
      match run[|run| - 1]
      case Sweep(w) => Failures(front, i) + if Tries(events, i) && i !in w.succeeds then 1 else 0
      case Arrive(ok, _) => if i == |events| && !ok then 1 else Failures(front, i)
      case Replay(j) => if j == i && i < |events| && events[i].status != Processed then 0 else Failures(front, i)
  }

  /** From an empty queue: a pending event has failed as often as it counts, fewer than three times,
      and an event is dead-lettered only when handling it has failed three times since it was
      delivered or last replayed. */
  lemma {:induction false} DeadLetterMeansThreeFailures(run: seq<Action>, i: nat)
    ensures var events := Exec([], run);
            && (i >= |events| ==> Failures(run, i) == 0)
            && (i < |events| && events[i].status == Pending ==> Failures(run, i) == events[i].attempts < 3)
            && (i < |events| && events[i].status == DeadLettered ==> Failures(run, i) == 3)
  {
    if run != [] {
      DeadLetterMeansThreeFailures(run[..|run| - 1], i);
      ExecLast([], run);
    }
  }

  /** A sweep that tries an event whose handler succeeds leaves it processed, with the time. */
  lemma SuccessIsProcessed(events: seq<Event>, w: Sweeping, i: nat)
    requires Tries(events, i) && events[i].attempts < 3 && i in w.succeeds
    ensures SweepAll(events, w)[i].status == Processed && SweepAll(events, w)[i].processedAt == Some(w.now)
    ensures SweepAll(events, w)[i].attempts == events[i].attempts
  {
  }

  /** A processed event stays as it is, whatever follows. */
  lemma {:induction false} ProcessedStays(events: seq<Event>, run: seq<Action>, i: nat)
    requires i < |events| && events[i].status == Processed
    ensures i < |Exec(events, run)| && Exec(events, run)[i] == events[i]
    decreases run
  {
    if run != [] {
      ProcessedStays(Step(events, run[0]), run[1..], i);
    }
  }

  // ---------------------------------------------------------------- every sweep makes progress

  /** Attempts still owed to the pending events. */
  function Debt(events: seq<Event>): nat {
    if events == [] then 0
    else
      var e := events[|events| - 1];
      Debt(events[..|events| - 1])
      + if e.status == Pending && e.attempts < MAX_ATTEMPTS then MAX_ATTEMPTS - e.attempts else 0
  }

  lemma {:induction false} DebtPointwise(a: seq<Event>, b: seq<Event>)
    requires |a| == |b|
    requires forall i :: 0 <= i < |a| ==> Debt([b[i]]) <= Debt([a[i]])
    ensures Debt(b) <= Debt(a)
    ensures (exists i :: 0 <= i < |a| && Debt([b[i]]) < Debt([a[i]])) ==> Debt(b) < Debt(a)
  {
    if a != [] {
      var n := |a| - 1;
      DebtPointwise(a[..n], b[..n]);
      assert [a[n]][..0] == [] && [b[n]][..0] == [];
      assert Debt([a[n]]) == Debt(a) - Debt(a[..n]);
      assert Debt([b[n]]) == Debt(b) - Debt(b[..n]);
      if i :| 0 <= i < |a| && Debt([b[i]]) < Debt([a[i]]) {
        if i < n { assert a[..n][i] == a[i] && b[..n][i] == b[i]; }
      }
    }
  }

  /** The oldest pending event is always in the batch. */
  lemma {:induction false} OldestInBatch(events: seq<Event>, j: nat) returns (i: nat)
    requires j < |events| && events[j].status == Pending
    ensures InBatch(events, i)
    decreases j
  {
    i := j;
    if Older(events, j) != {} {
      var k :| k in Older(events, j);
      i := OldestInBatch(events, k);
    }
  }

  lemma AttemptPays(e: Event, ok: bool, w: Sweeping)
    requires e.status == Pending
    ensures Debt([Attempt(e, ok, w)]) <= Debt([e])
    ensures e.attempts < MAX_ATTEMPTS ==> Debt([Attempt(e, ok, w)]) < Debt([e])
  {
    assert [e][..0] == [] && [Attempt(e, ok, w)][..0] == [];
  }

  /** A sweep that finds any pending event strictly reduces the attempts still owed,
      whichever calls fail: without new deliveries the queue drains. */
  lemma SweepReducesDebt(events: seq<Event>, w: Sweeping)
    requires Retryable(events)
    requires exists j :: 0 <= j < |events| && events[j].status == Pending
    ensures Debt(SweepAll(events, w)) < Debt(events)
  {
    var r := SweepAll(events, w);
    forall i | 0 <= i < |events|
      ensures Debt([r[i]]) <= Debt([events[i]])
    {
      if InBatch(events, i) { AttemptPays(events[i], i in w.succeeds, w); }
    }
    var p :| 0 <= p < |events| && events[p].status == Pending;
    var j := OldestInBatch(events, p);
    AttemptPays(events[j], j in w.succeeds, w);
    assert Debt([r[j]]) < Debt([events[j]]);
    DebtPointwise(events, r);
  }

  // ---------------------------------------------------------------- fairness

  /** Nobody queues an event at or before e again during the run. */
  ghost predicate NoReplayUpTo(run: seq<Action>, e: nat) {
    forall a :: a in run && a.Replay? ==> a.i > e
  }

  predicate Resolved(events: seq<Event>, e: nat) {
    e < |events| && events[e].status != Pending
  }

  /** Behind e nothing becomes pending, so its place in the queue only improves. */
  lemma StepKeepsPlace(events: seq<Event>, a: Action, e: nat)
    requires e < |events| && (a.Replay? ==> a.i > e)
    ensures e < |Step(events, a)|
    ensures Older(Step(events, a), e) <= Older(events, e)
    ensures |Older(Step(events, a), e)| <= |Older(events, e)|
    ensures Resolved(events, e) ==> Resolved(Step(events, a), e)
  {
    SubsetSize(Older(Step(events, a), e), Older(events, e));
  }

  lemma {:induction false} RunKeepsPlace(events: seq<Event>, run: seq<Action>, e: nat)
    requires e < |events| && NoReplayUpTo(run, e)
    ensures e < |Exec(events, run)|
    ensures Older(Exec(events, run), e) <= Older(events, e)
    ensures Resolved(events, e) ==> Resolved(Exec(events, run), e)
    decreases run
  {
    if run != [] {
      StepKeepsPlace(events, run[0], e);
      RunKeepsPlace(Step(events, run[0]), run[1..], e);
    }
  }

  /** An event within the first fifty stays there, so it is tried in every sweep. */
  lemma {:induction false} FrontResolves(events: seq<Event>, run: seq<Action>, e: nat)
    requires Retryable(events) && e < |events| && NoReplayUpTo(run, e)
    requires |Older(events, e)| < BATCH_SIZE
    requires events[e].status == Pending ==> Sweeps(run) + events[e].attempts >= MAX_ATTEMPTS
    ensures Resolved(Exec(events, run), e)
    decreases run
  {
    if Resolved(events, e) {
      RunKeepsPlace(events, run, e);
    } else {
      var next := Step(events, run[0]);
      StepKeepsPlace(events, run[0], e);
      StepRetryable(events, run[0]);
      FrontResolves(next, run[1..], e);
    }
  }

  function Front(events: seq<Event>, e: nat): set<nat> {
    set i | i in Older(events, e) && |Older(events, i)| < BATCH_SIZE
  }

  lemma OlderGrows(events: seq<Event>, e: nat)
    requires e < |events|
    ensures Older(events, e + 1) == if events[e].status == Pending then Older(events, e) + {e} else Older(events, e)
  {
  }

  lemma FrontGrows(events: seq<Event>, e: nat)
    requires e < |events|
    ensures Front(events, e + 1) == if InBatch(events, e) then Front(events, e) + {e} else Front(events, e)
  {
    OlderGrows(events, e);
  }

  /** If at least fifty are older than e, exactly fifty of them are in the batch. */
  lemma {:induction false} FrontSize(events: seq<Event>, e: nat)
    requires e <= |events|
    ensures |Front(events, e)| == if |Older(events, e)| < BATCH_SIZE then |Older(events, e)| else BATCH_SIZE
  {
    if e == 0 {
      assert Older(events, e) == {} && Front(events, e) == {};
    } else {
      FrontSize(events, e - 1);
      OlderGrows(events, e - 1);
      FrontGrows(events, e - 1);
      assert e - 1 !in Older(events, e - 1) && e - 1 !in Front(events, e - 1);
    }
  }

  /** Three sweeps clear the fifty oldest from in front of e. */
  lemma ThreeSweepsAdvance(events: seq<Event>, run: seq<Action>, e: nat)
    requires Retryable(events) && e < |events| && NoReplayUpTo(run, e) && Sweeps(run) >= 3
    requires |Older(events, e)| >= BATCH_SIZE
    ensures |Older(Exec(events, run), e)| <= |Older(events, e)| - BATCH_SIZE
  {
    var after := Exec(events, run);
    RunKeepsPlace(events, run, e);
    forall i | i in Front(events, e)
      ensures i !in Older(after, e)
    {
      FrontResolves(events, run, i);
    }
    FrontSize(events, e);
    SubsetSize(Older(after, e), Older(events, e) - Front(events, e));
  }

  /** The shortest prefix of the run with n sweeps. */
  lemma {:induction false} SplitAtSweeps(run: seq<Action>, n: nat) returns (first: seq<Action>, rest: seq<Action>)
    requires Sweeps(run) >= n
    ensures run == first + rest && Sweeps(first) == n && Sweeps(rest) == Sweeps(run) - n
    decreases run
  {
    if n == 0 {
      first, rest := [], run;
    } else {
      var k := if run[0].Sweep? then n - 1 else n;
      first, rest := SplitAtSweeps(run[1..], k);
      first := [run[0]] + first;
      assert first[1..] + rest == run[1..];
    }
  }

  /** Fairness: a pending event with k older pending ones is processed or dead-lettered
      within 3 * (k / 50 + 1) sweeps, whatever arrives meanwhile and whichever calls fail. */
  lemma {:induction false} Fairness(events: seq<Event>, run: seq<Action>, e: nat)
    requires Retryable(events) && e < |events| && NoReplayUpTo(run, e)
    requires Sweeps(run) >= 3 * (|Older(events, e)| / BATCH_SIZE + 1)
    ensures Resolved(Exec(events, run), e)
    decreases |Older(events, e)|
  {
    if |Older(events, e)| < BATCH_SIZE {
      FrontResolves(events, run, e);
    } else {
      var first, rest := SplitAtSweeps(run, 3);
      ThreeSweepsAdvance(events, first, e);
      RunKeepsPlace(events, first, e);
      ReachableRetryable(events, first);
      Fairness(Exec(events, first), rest, e);
      ExecConcat(events, first, rest);
    }
  }

  const NEW_EVENT := Event(Pending, 0, None, None)

  /** n new events after 3 * q + r sweeps in which every call failed: q batches are
      dead-lettered and the next has been tried r times. */
  function Failing(n: nat, q: nat, r: nat, error: string): (events: seq<Event>)
    ensures |events| == n
  {
    seq(n, i requires 0 <= i < n =>
      if i < BATCH_SIZE * q then Event(DeadLettered, MAX_ATTEMPTS, Some(error), None)
      else if i < BATCH_SIZE * (q + 1) && r > 0 then Event(Pending, r, Some(error), None)
      else NEW_EVENT)
  }

  lemma {:induction false} FailingOlder(n: nat, q: nat, r: nat, error: string, i: nat)
    requires i <= n
    ensures |Older(Failing(n, q, r, error), i)| == if i < BATCH_SIZE * q then 0 else i - BATCH_SIZE * q
  {
    var events := Failing(n, q, r, error);
    if i == 0 {
      assert Older(events, 0) == {};
    } else {
      FailingOlder(n, q, r, error, i - 1);
      OlderGrows(events, i - 1);
      assert i - 1 !in Older(events, i - 1);
    }
  }

  lemma FailingSweep(n: nat, q: nat, r: nat, w: Sweeping)
    requires w.succeeds == {} && r < MAX_ATTEMPTS
    ensures SweepAll(Failing(n, q, r, w.error), w)
         == if r + 1 < MAX_ATTEMPTS then Failing(n, q, r + 1, w.error) else Failing(n, q + 1, 0, w.error)
  {
    var events := Failing(n, q, r, w.error);
    var next := if r + 1 < MAX_ATTEMPTS then Failing(n, q, r + 1, w.error) else Failing(n, q + 1, 0, w.error);
    forall i | 0 <= i < n
      ensures SweepAll(events, w)[i] == next[i]
    {
      FailingOlder(n, q, r, w.error, i);
      assert InBatch(events, i) <==> BATCH_SIZE * q <= i < BATCH_SIZE * (q + 1);
    }
  }

  function Repeated(w: Sweeping, m: nat): (run: seq<Action>)
    ensures Sweeps(run) == m && NoReplayUpTo(run, 0)
  {
    if m == 0 then [] else [Sweep(w)] + Repeated(w, m - 1)
  }

  lemma ExecFirst(events: seq<Event>, run: seq<Action>)
    requires run != []
    ensures Exec(events, run) == Exec(Step(events, run[0]), run[1..])
  {
  }

  lemma OneFailingSweep(n: nat, q: nat, r: nat, w: Sweeping, m: nat, more: nat)
    requires w.succeeds == {} && r < MAX_ATTEMPTS && m == more + 1
    ensures r + 1 < MAX_ATTEMPTS ==>
              Exec(Failing(n, q, r, w.error), Repeated(w, m)) == Exec(Failing(n, q, r + 1, w.error), Repeated(w, more))
    ensures r + 1 == MAX_ATTEMPTS ==>
              Exec(Failing(n, q, r, w.error), Repeated(w, m)) == Exec(Failing(n, q + 1, 0, w.error), Repeated(w, more))
  {
    var run := Repeated(w, m);
    assert run[0] == Sweep(w) && run[1..] == Repeated(w, more);
    ExecFirst(Failing(n, q, r, w.error), run);
    FailingSweep(n, q, r, w);
  }

  lemma {:induction false} FailingRun(n: nat, q: nat, r: nat, w: Sweeping, m: nat, q': nat, r': nat)
    requires w.succeeds == {} && r < MAX_ATTEMPTS && r' < MAX_ATTEMPTS && 3 * q' + r' == 3 * q + r + m
    ensures Exec(Failing(n, q, r, w.error), Repeated(w, m)) == Failing(n, q', r', w.error)
    decreases m
  {
    if m == 0 {
      assert q == q' && r == r';
    } else {
      var more := m - 1;
      OneFailingSweep(n, q, r, w, m, more);
      if r + 1 < MAX_ATTEMPTS {
        FailingRun(n, q, r + 1, w, more, q', r');
      } else {
        FailingRun(n, q + 1, 0, w, more, q', r');
      }
    }
  }

  function NewEvents(n: nat): seq<Event> { seq(n, _ => NEW_EVENT) }

  lemma NoneTried(n: nat, error: string)
    ensures NewEvents(n) == Failing(n, 0, 0, error)
  {
  }

  lemma NextBatchIsPending(events: seq<Event>, n: nat, b: nat, error: string, k: nat)
    requires events == Failing(n, b, 2, error) && k < n && BATCH_SIZE * b <= k < BATCH_SIZE * (b + 1)
    ensures !Resolved(events, k)
  {
  }

  lemma AllFailed(n: nat, b: nat, w: Sweeping, m: nat, k: nat)
    requires w.succeeds == {} && m == 3 * b + 2
    requires k < n && BATCH_SIZE * b <= k < BATCH_SIZE * (b + 1)
    ensures !Resolved(Exec(NewEvents(n), Repeated(w, m)), k)
  {
    NoneTried(n, w.error);
    FailingRun(n, 0, 0, w, m, b, 2);
    NextBatchIsPending(Failing(n, b, 2, w.error), n, b, w.error, k);
  }

  lemma {:induction false} AllOlder(n: nat, k: nat)
    requires k <= n
    ensures |Older(NewEvents(n), k)| == k
  {
    if k == 0 {
      assert Older(NewEvents(n), 0) == {};
    } else {
      AllOlder(n, k - 1);
      OlderGrows(NewEvents(n), k - 1);
    }
  }

  /** One sweep fewer than Fairness asks for. */
  function AlmostEnough(k: nat): nat { 3 * (k / BATCH_SIZE + 1) - 1 }

  /** For every k the bound is met with equality: behind k others, an event is still pending one
      sweep earlier when every call fails. */
  lemma FairnessIsExact(k: nat, w: Sweeping)
    requires w.succeeds == {}
    ensures |Older(NewEvents(k + 1), k)| == k && Sweeps(Repeated(w, AlmostEnough(k))) == AlmostEnough(k)
    ensures !Resolved(Exec(NewEvents(k + 1), Repeated(w, AlmostEnough(k))), k)
  {
    AllOlder(k + 1, k);
    AllFailed(k + 1, k / BATCH_SIZE, w, AlmostEnough(k), k);
  }

  // ---------------------------------------------------------------- the task

  /** SELECT ... WHERE status = 'pending' ORDER BY created_at LIMIT 50. */
  function Batch(events: seq<Event>, n: nat): (ids: seq<nat>)
    requires n <= |events|
    ensures forall i: nat :: i in ids <==> i < n && InBatch(events, i)
    ensures forall a, b :: 0 <= a < b < |ids| ==> ids[a] < ids[b]
  {
    if n == 0 then []
    else
      var front := Batch(events, n - 1);
      assert forall a :: 0 <= a < |front| ==> front[a] in front;
      if InBatch(events, n - 1) then front + [n - 1] else front
  }

  /** The events a sweep moved from pending to processed. */
  function NewlyProcessed(was: seq<Event>, now: seq<Event>): set<nat> {
    set i: nat | i < |was| && i < |now| && was[i].status == Pending && now[i].status == Processed
  }

  /** The queue after the loop has visited the events in ids. */
  function Visited(events: seq<Event>, ids: seq<nat>, w: Sweeping): (r: seq<Event>)
    ensures |r| == |events|
  {
    seq(|events|, i requires 0 <= i < |events| => if i in ids then Attempt(events[i], i in w.succeeds, w) else events[i])
  }

  lemma VisitOne(was: seq<Event>, ids: seq<nat>, i: nat, w: Sweeping)
    requires i < |was| && i !in ids && was[i].status == Pending
    ensures Visited(was, ids + [i], w) == Visited(was, ids, w)[i := Attempt(was[i], i in w.succeeds, w)]
    ensures Visited(was, ids, w)[i] == was[i]
  {
  }

  /** Rewriting one event that is still pending. */
  lemma CountOne(was: seq<Event>, now: seq<Event>, i: nat, e: Event)
    requires i < |was| == |now| && was[i].status == Pending && now[i] == was[i]
    ensures |NewlyProcessed(was, now[i := e])| == |NewlyProcessed(was, now)| + if e.status == Processed then 1 else 0
  {
    var before, after := NewlyProcessed(was, now), NewlyProcessed(was, now[i := e]);
    assert i !in before;
    assert after == if e.status == Processed then before + {i} else before;
  }

  lemma VisitBatch(events: seq<Event>, w: Sweeping)
    ensures Visited(events, Batch(events, |events|), w) == SweepAll(events, w)
    ensures Visited(events, [], w) == events && NewlyProcessed(events, events) == {}
  {
    var ids := Batch(events, |events|);
    forall i | 0 <= i < |events|
      ensures Visited(events, ids, w)[i] == SweepAll(events, w)[i]
    {
      assert i in ids <==> InBatch(events, i);
    }
  }

  class WebhookTask {
    var events: seq<Event>

    constructor ()
      ensures events == []
    {
      events := [];
    }

    /** The loop body: dead-letter, process, or count a failed attempt. */
    method TryEvent(i: nat, w: Sweeping) returns (ok: bool)
      requires i < |events| && events[i].status == Pending
      modifies this
      ensures events == old(events)[i := Attempt(old(events)[i], i in w.succeeds, w)]
      ensures ok <==> events[i].status == Processed
      ensures var e := old(events)[i];
              events == old(events)[i := if e.attempts >= 3 then e.(status := DeadLettered)
                                         else if i in w.succeeds then e.(status := Processed, processedAt := Some(w.now))
                                         else if e.attempts == 2 then e.(attempts := 3, lastError := Some(w.error), status := DeadLettered)
                                         else e.(attempts := e.attempts + 1, lastError := Some(w.error))]
    {
      var e := events[i];
      ok := false;
      if e.attempts >= MAX_ATTEMPTS {
        e := e.(status := DeadLettered);
      } else if i in w.succeeds {
        e := e.(status := Processed, processedAt := Some(w.now));
        ok := true;
      } else {
        e := e.(attempts := e.attempts + 1, lastError := Some(w.error));
        if e.attempts >= MAX_ATTEMPTS {
          e := e.(status := DeadLettered);
        }
      }
      events := events[i := e];
    }

    /** The webhook endpoint: the delivery is stored as pending and handled at once; if that
        fails it stays pending with one attempt used. */
    method Receive(handledInline: bool, now: real)
      modifies this
      ensures events == Step(old(events), Arrive(handledInline, now))
      ensures events == old(events) + [if handledInline then Event(Processed, 1, None, Some(now))
                                       else Event(Pending, 1, Some(INLINE_FAILURE), None)]
    {
      var e := Event(Pending, 0, None, None);
      if handledInline {
        e := e.(status := Processed, attempts := 1, processedAt := Some(now));
      } else {
        e := e.(attempts := 1, lastError := Some(INLINE_FAILURE));
      }
      events := events + [e];
    }

    /** replay_webhook; false when there is no such event. */
    method ReplayWebhook(i: nat) returns (found: bool)
      modifies this
      ensures events == Step(old(events), Replay(i)) && found == (i < |old(events)|)
      ensures !found || old(events)[i].status == Processed ==> events == old(events)
      ensures found && old(events)[i].status != Processed ==>
                events == old(events)[i := old(events)[i].(status := Pending, attempts := 0, lastError := None)]
    {
      found := i < |events|;
      if found && events[i].status != Processed {
        events := events[i := events[i].(status := Pending, attempts := 0, lastError := None)];
      }
    }

    /** task_process_webhooks; returns how many events it processed. */
    method ProcessWebhooks(w: Sweeping) returns (processed: nat)
      modifies this
      ensures events == SweepAll(old(events), w)
      ensures processed == |NewlyProcessed(old(events), events)|
      ensures |events| == |old(events)| && forall i :: 0 <= i < |events| ==>
                var e := old(events)[i];
                events[i] == if e.status != Pending || |Older(old(events), i)| >= 50 then e
                             else if e.attempts >= 3 then e.(status := DeadLettered)
                             else if i in w.succeeds then e.(status := Processed, processedAt := Some(w.now))
                             else if e.attempts == 2 then e.(attempts := 3, lastError := Some(w.error), status := DeadLettered)
                             else e.(attempts := e.attempts + 1, lastError := Some(w.error))
    {
      ghost var was := events;
      var ids := BatchList(was, w);
      processed := 0;
      var k := 0;
      while k < |ids|
        invariant 0 <= k <= |ids|
        invariant events == Visited(was, ids[..k], w)
        invariant processed == |NewlyProcessed(was, events)|
      {
        var i := ids[k];
        assert i !in ids[..k] && ids[..k + 1] == ids[..k] + [i];
        VisitOne(was, ids[..k], i, w);
        CountOne(was, events, i, Attempt(was[i], i in w.succeeds, w));
        var ok := TryEvent(i, w);
        if ok {
          processed := processed + 1;
        }
        k := k + 1;
      }
      assert ids[..k] == ids;
    }

    method BatchList(ghost was: seq<Event>, ghost w: Sweeping) returns (ids: seq<nat>)
      requires was == events
      ensures forall a :: 0 <= a < |ids| ==> ids[a] < |was| && was[ids[a]].status == Pending
      ensures forall a, b :: 0 <= a < b < |ids| ==> ids[a] < ids[b]
      ensures Visited(was, ids, w) == SweepAll(was, w) && Visited(was, [], w) == was && NewlyProcessed(was, was) == {}
    {
      ids := Batch(events, |events|);
      VisitBatch(events, w);
      forall a | 0 <= a < |ids| ensures InBatch(was, ids[a]) { assert ids[a] in ids; }
    }
  }
}
