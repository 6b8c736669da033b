/** The sliding-window rate limiter: pruned timestamp lists that must decide like the full
    admission history, and the choice of the key a request is charged to. */
module RateLimit {
  import opened RecentTimes

  /** One is_allowed call on a key. */
  datatype Charge = Charge(now: real, limit: int, burst: int)

  type Windows = map<string, seq<real>>

  type ChargeLog = map<string, seq<Charge>>

  /** The admissions in the half-open window (x - w, x]. */
  function InWindow(h: seq<real>, w: real, x: real): seq<real> {
    if h == [] then []
    else
      var t := h[|h| - 1];
      InWindow(h[..|h| - 1], w, x) + if x - w < t <= x then [t] else []
  }

  /** The decision the full history calls for, with the requests that remain. */
  function Decide(h: seq<real>, w: real, c: Charge): (bool, int) {
    var count := |Recent(h, c.now - w)|;
    if count < c.limit + c.burst then (true, c.limit + c.burst - count - 1) else (false, 0)
  }

  /** Everything ever admitted on a key, given every charge to it. */
  function Admissions(w: real, cs: seq<Charge>): seq<real> {
    if cs == [] then []
    else
      var h, c := Admissions(w, cs[..|cs| - 1]), cs[|cs| - 1];
      h + if Decide(h, w, c).0 then [c.now] else []
  }

  /** The clock never runs back between one charge and the next. */
  ghost predicate InOrder(cs: seq<Charge>) {
    cs == []
    || (InOrder(cs[..|cs| - 1]) && (|cs| > 1 ==> cs[|cs| - 2].now <= cs[|cs| - 1].now))
  }

  // ---------------------------------------------------------------- the window bound

  lemma {:induction false} AdmissionsSorted(w: real, cs: seq<Charge>)
    requires InOrder(cs)
    ensures Sorted(Admissions(w, cs))
    ensures if cs == [] then Admissions(w, cs) == [] else AtMost(Admissions(w, cs), cs[|cs| - 1].now)
  {
    if cs != [] {
      AdmissionsSorted(w, cs[..|cs| - 1]);
    }
  }

  /** Admissions l places apart are at least a window apart. */
  ghost predicate Spaced(h: seq<real>, w: real, l: nat) {
    forall i :: 0 <= i < |h| - l ==> h[i] + w <= h[i + l]
  }

  lemma AppendSpaced(h: seq<real>, w: real, l: nat, now: real)
    requires Sorted(h) && Spaced(h, w, l) && |Recent(h, now - w)| < l
    ensures Spaced(h + [now], w, l)
  {
    RecentIsSuffix(h, now - w);
    var h' := h + [now];
    forall i | 0 <= i < |h'| - l
      ensures h'[i] + w <= h'[i + l]
    {
      if i + l == |h| {
        assert h[i] <= now - w;
      } else {
        assert h[i] + w <= h[i + l];
      }
    }
  }

  lemma OneMore(w: real, cs: seq<Charge>, c: Charge)
    ensures Admissions(w, cs + [c]) == Admissions(w, cs) + if Decide(Admissions(w, cs), w, c).0 then [c.now] else []
  {
    assert (cs + [c])[..|cs|] == cs;
  }

  lemma {:induction false} AdmissionsSpaced(w: real, cs: seq<Charge>, l: nat)
    requires w > 0.0 && InOrder(cs)
    requires forall i :: 0 <= i < |cs| ==> cs[i].limit + cs[i].burst <= l
    ensures l == 0 ==> Admissions(w, cs) == []
    ensures l > 0 ==> Spaced(Admissions(w, cs), w, l)
  {
    if cs != [] {
      var front, c := cs[..|cs| - 1], cs[|cs| - 1];
      AdmissionsSpaced(w, front, l);
      AdmissionsSorted(w, front);
      var h := Admissions(w, front);
      if |Recent(h, c.now - w)| < l {
        AppendSpaced(h, w, l, c.now);
      }
      assert h + [] == h;
    }
  }

  lemma SpacedAt(h: seq<real>, w: real, l: nat, k: nat)
    requires Spaced(h, w, l) && k + l < |h|
    ensures h[k] + w <= h[k + l]
  {
  }

  /** A spaced list has at most l entries in any window. */
  lemma {:induction false} SpacedBoundsWindow(h: seq<real>, w: real, l: nat, x: real)
    requires w > 0.0 && l > 0 && Sorted(h) && Spaced(h, w, l)
    ensures |InWindow(h, w, x)| <= l
  {
    if h != [] {
      var front := h[..|h| - 1];
      SpacedBoundsWindow(front, w, l, x);
      if h[|h| - 1] <= x {
        WindowIsRecent(h, w, x);
        RecentIsSuffix(h, x - w);
        var k := |h| - |Recent(h, x - w)|;
        if k + l < |h| { SpacedAt(h, w, l, k); }
      } else {
        assert InWindow(h, w, x) == InWindow(front, w, x) + [];
      }
    }
  }

  lemma {:induction false} WindowIsRecent(h: seq<real>, w: real, x: real)
    requires AtMost(h, x)
    ensures InWindow(h, w, x) == Recent(h, x - w)
  {
    if h != [] {
      WindowIsRecent(h[..|h| - 1], w, x);
    }
  }

  /** Over any run of charges whose limit plus burst never exceeds l, every window of length
      w holds at most l admissions. */
  lemma WindowBound(w: real, cs: seq<Charge>, l: nat, x: real)
    requires w > 0.0 && InOrder(cs)
    requires forall i :: 0 <= i < |cs| ==> cs[i].limit + cs[i].burst <= l
    ensures |InWindow(Admissions(w, cs), w, x)| <= l
  {
    AdmissionsSorted(w, cs);
    AdmissionsSpaced(w, cs, l);
    if l > 0 {
      SpacedBoundsWindow(Admissions(w, cs), w, l, x);
    }
  }

  /** The reported remaining count is exact: what is left of the allowance once this
      admission itself is counted in the window ending now. */
  lemma RemainingIsExact(w: real, cs: seq<Charge>, c: Charge)
    requires w > 0.0 && InOrder(cs) && (cs != [] ==> cs[|cs| - 1].now <= c.now)
    ensures var (allowed, remaining) := Decide(Admissions(w, cs), w, c);
            var used := |InWindow(Admissions(w, cs + [c]), w, c.now)|;
            if allowed then remaining == c.limit + c.burst - used else remaining == 0 && used >= c.limit + c.burst
  {
    AdmissionsSorted(w, cs);
    OneMore(w, cs, c);
    RemainingAfter(w, Admissions(w, cs), c);
  }

  lemma RemainingAfter(w: real, h: seq<real>, c: Charge)
    requires w > 0.0 && AtMost(h, c.now)
    ensures var (allowed, remaining) := Decide(h, w, c);
            var used := |InWindow(h + if allowed then [c.now] else [], w, c.now)|;
            if allowed then remaining == c.limit + c.burst - used else remaining == 0 && used >= c.limit + c.burst
  {
    if Decide(h, w, c).0 {
      RecentAppend(h, c.now, c.now - w);
      WindowIsRecent(h + [c.now], w, c.now);
    } else {
      assert h + [] == h;
      WindowIsRecent(h, w, c.now);
    }
  }

  // ---------------------------------------------------------------- pruning and cleanup

  /** cleanup deletes a key when its list is empty or its newest entry is older than max_age. */
  predicate Stale(v: seq<real>, now: real, maxAge: real) {
    v == [] || v[|v| - 1] < now - maxAge
  }

  /** Forgetting a stale list can change no decision taken now or later: those count the
      entries newer than some cutoff from now - w on. */
  ghost predicate CleanupHarmless(w: real, maxAge: real) {
    forall v, now, cutoff :: Sorted(v) && Stale(v, now, maxAge) && now - w <= cutoff ==> Recent(v, cutoff) == []
  }

  lemma StaleIsOld(v: seq<real>, now: real, maxAge: real, cutoff: real)
    requires Sorted(v) && Stale(v, now, maxAge) && now - maxAge <= cutoff
    ensures Recent(v, cutoff) == []
  {
    RecentOfOld(v, cutoff);
  }

  /** Exactly the cleanups whose max_age covers the window are harmless. */
  lemma CleanupHarmlessIff(w: real, maxAge: real)
    ensures CleanupHarmless(w, maxAge) <==> w <= maxAge
  {
    if w <= maxAge {
      forall v, now, cutoff | Sorted(v) && Stale(v, now, maxAge) && now - w <= cutoff
        ensures Recent(v, cutoff) == []
      {
        StaleIsOld(v, now, maxAge, cutoff);
      }
    } else {
      var v := [0.0 - (w + maxAge) / 2.0];
      assert v[..0] == [];
      assert Recent(v, 0.0 - w) == v;
      assert Sorted(v) && Stale(v, 0.0, maxAge) && 0.0 - w <= 0.0 - w;
    }
  }

  /** The pruned list v is what some cutoff no later than the window start leaves of the
      full history of its charges. */
  ghost predicate Agrees(v: seq<real>, w: real, cs: seq<Charge>, clock: real) {
    && InOrder(cs) && (cs != [] ==> cs[|cs| - 1].now <= clock)
    && exists start :: start <= clock - w && v == Recent(Admissions(w, cs), start)
  }

  lemma AgreesLater(v: seq<real>, w: real, cs: seq<Charge>, clock: real, now: real)
    requires Agrees(v, w, cs, clock) && clock <= now
    ensures Agrees(v, w, cs, now)
  {
  }

  lemma NeverCharged(w: real, now: real)
    ensures Agrees([], w, [], now)
  {
    assert Recent(Admissions(w, []), now - w) == [];
  }

  /** Pruning v at the window start gives the recent part of the full history. */
  lemma AgreesPrunes(v: seq<real>, w: real, cs: seq<Charge>, now: real)
    requires Agrees(v, w, cs, now)
    ensures Recent(v, now - w) == Recent(Admissions(w, cs), now - w)
  {
    var start :| start <= now - w && v == Recent(Admissions(w, cs), start);
    RecentOfRecent(Admissions(w, cs), start, now - w);
  }

  /** Recording an admission in the history and then pruning is pruning and then recording. */
  lemma RecordThenPrune(h: seq<real>, w: real, c: Charge)
    requires w > 0.0
    ensures var r, free := Recent(h, c.now - w), c.limit + c.burst - |Recent(h, c.now - w)|;
            && Recent(h + if free > 0 then [c.now] else [], c.now - w) == (if free > 0 then r + [c.now] else r)
            && Decide(h, w, c) == if free > 0 then (true, free - 1) else (false, 0)
  {
    RecentAppend(h, c.now, c.now - w);
    assert h + [] == h;
  }

  lemma JudgedAsHistory(w: real, cs: seq<Charge>, c: Charge)
    requires w > 0.0
    ensures var r := Recent(Admissions(w, cs), c.now - w);
            var free := c.limit + c.burst - |r|;
            && Recent(Admissions(w, cs + [c]), c.now - w) == (if free > 0 then r + [c.now] else r)
            && Decide(Admissions(w, cs), w, c) == if free > 0 then (true, free - 1) else (false, 0)
  {
    OneMore(w, cs, c);
    RecordThenPrune(Admissions(w, cs), w, c);
  }

  /** The list a charge leaves agrees with the history that has the charge in it. */
  lemma AgreesNext(v: seq<real>, w: real, cs: seq<Charge>, c: Charge, v': seq<real>)
    requires Agrees(v, w, cs, c.now) && v' == Recent(Admissions(w, cs + [c]), c.now - w)
    ensures Agrees(v', w, cs + [c], c.now)
  {
  }

  lemma AgreesSorted(v: seq<real>, w: real, cs: seq<Charge>, now: real)
    requires Agrees(v, w, cs, now)
    ensures Sorted(v)
  {
    var start :| start <= now - w && v == Recent(Admissions(w, cs), start);
    AdmissionsSorted(w, cs);
    RecentIsSuffix(Admissions(w, cs), start);
  }

  /** A stale list may be forgotten. */
  lemma AgreesForgotten(v: seq<real>, w: real, cs: seq<Charge>, now: real, maxAge: real)
    requires Agrees(v, w, cs, now) && Stale(v, now, maxAge) && w <= maxAge
    ensures Agrees([], w, cs, now)
  {
    AgreesSorted(v, w, cs, now);
    AgreesPrunes(v, w, cs, now);
    StaleIsOld(v, now, maxAge, now - w);
    assert now - w <= now - w && [] == Recent(Admissions(w, cs), now - w);
  }

  /** defaultdict(list) */
  function ListOf<T>(m: map<string, seq<T>>, key: string): seq<T> { if key in m then m[key] else [] }

  ghost predicate KeyAgrees(windows: Windows, w: real, charges: ChargeLog, clock: real, key: string) {
    Agrees(ListOf(windows, key), w, ListOf(charges, key), clock)
  }

  ghost predicate AllAgree(windows: Windows, w: real, charges: ChargeLog, clock: real) {
    forall key :: KeyAgrees(windows, w, charges, clock, key)
  }

  lemma AllAgreeLater(windows: Windows, w: real, charges: ChargeLog, clock: real, now: real)
    requires AllAgree(windows, w, charges, clock) && clock <= now
    ensures AllAgree(windows, w, charges, now)
  {
    forall key ensures KeyAgrees(windows, w, charges, now, key) {
      assert KeyAgrees(windows, w, charges, clock, key);
      AgreesLater(ListOf(windows, key), w, ListOf(charges, key), clock, now);
    }
  }

  /** Agreement of a key depends on its own lists only. */
  lemma KeyAgreesCopy(windows: Windows, w: real, charges: ChargeLog, clock: real, key: string, windows': Windows, charges': ChargeLog)
    requires KeyAgrees(windows, w, charges, clock, key)
    requires ListOf(windows', key) == ListOf(windows, key) && ListOf(charges', key) == ListOf(charges, key)
    ensures KeyAgrees(windows', w, charges', clock, key)
  {
  }

  lemma KeyAgreesWritten(windows: Windows, w: real, charges: ChargeLog, clock: real, key: string, v: seq<real>, cs: seq<Charge>)
    requires Agrees(v, w, cs, clock)
    ensures KeyAgrees(windows[key := v], w, charges[key := cs], clock, key)
  {
  }

  lemma AllAgreeNext(windows: Windows, w: real, charges: ChargeLog, clock: real, key: string, v: seq<real>, cs: seq<Charge>)
    requires AllAgree(windows, w, charges, clock) && Agrees(v, w, cs, clock)
    ensures AllAgree(windows[key := v], w, charges[key := cs], clock)
  {
    var windows', charges' := windows[key := v], charges[key := cs];
    KeyAgreesWritten(windows, w, charges, clock, key, v, cs);
    forall k ensures KeyAgrees(windows', w, charges', clock, k) {
      if k != key {
        assert KeyAgrees(windows, w, charges, clock, k);
        KeyAgreesCopy(windows, w, charges, clock, k, windows', charges');
      }
    }
  }

  /** What is_allowed makes of one list. */
  function Charged(v: seq<real>, w: real, c: Charge): seq<real> {
    var r := Recent(v, c.now - w);
    if |r| < c.limit + c.burst then r + [c.now] else r
  }

  lemma ChargedFromRecent(v: seq<real>, w: real, cs: seq<Charge>, c: Charge)
    requires w > 0.0 && Recent(v, c.now - w) == Recent(Admissions(w, cs), c.now - w)
    ensures Charged(v, w, c) == Recent(Admissions(w, cs + [c]), c.now - w)
    ensures Decide(v, w, c) == Decide(Admissions(w, cs), w, c)
  {
    JudgedAsHistory(w, cs, c);
  }

  /** It decides like the full history and leaves the recent part of the history that its own
      decision has been added to. */
  lemma ChargedLikeHistory(v: seq<real>, w: real, cs: seq<Charge>, c: Charge)
    requires w > 0.0 && Agrees(v, w, cs, c.now)
    ensures Agrees(Charged(v, w, c), w, cs + [c], c.now)
    ensures Charged(v, w, c) == Recent(Admissions(w, cs + [c]), c.now - w)
    ensures Decide(v, w, c) == Decide(Admissions(w, cs), w, c)
  {
    AgreesPrunes(v, w, cs, c.now);
    ChargedFromRecent(v, w, cs, c);
    AgreesNext(v, w, cs, c, Charged(v, w, c));
  }

  /** The log with one more charge to the key. */
  function Logged(charges: ChargeLog, key: string, c: Charge): ChargeLog {
    charges[key := ListOf(charges, key) + [c]]
  }

  lemma ChargedKey(windows: Windows, w: real, charges: ChargeLog, clock: real, key: string, c: Charge)
    requires w > 0.0 && AllAgree(windows, w, charges, clock) && clock <= c.now
    ensures var v, charges' := Charged(ListOf(windows, key), w, c), Logged(charges, key, c);
            && AllAgree(windows[key := v], w, charges', c.now)
            && v == Recent(Admissions(w, ListOf(charges', key)), c.now - w)
            && Decide(ListOf(windows, key), w, c) == Decide(Admissions(w, ListOf(charges, key)), w, c)
  {
    AllAgreeLater(windows, w, charges, clock, c.now);
    assert KeyAgrees(windows, w, charges, c.now, key);
    ChargedLikeHistory(ListOf(windows, key), w, ListOf(charges, key), c);
    AllAgreeNext(windows, w, charges, c.now, key, Charged(ListOf(windows, key), w, c), ListOf(charges, key) + [c]);
  }

  /** Forgetting stale keys. */
  lemma AllAgreeForgetting(windows: Windows, w: real, charges: ChargeLog, stale: set<string>, now: real, maxAge: real)
    requires AllAgree(windows, w, charges, now) && w <= maxAge
    requires forall k :: k in stale ==> Stale(ListOf(windows, k), now, maxAge)
    ensures AllAgree(windows - stale, w, charges, now)
  {
    forall k ensures KeyAgrees(windows - stale, w, charges, now, k) {
      assert KeyAgrees(windows, w, charges, now, k);
      if k in stale {
        AgreesForgotten(ListOf(windows, k), w, ListOf(charges, k), now, maxAge);
      } else {
        assert ListOf(windows - stale, k) == ListOf(windows, k);
      }
    }
  }

  class SlidingWindowCounter {
    const windowSize: real
    var windows: Windows
    /** Every charge ever made, and the last clock reading. */
    ghost var charges: ChargeLog
    ghost var clock: real

    function Window(key: string): seq<real>
      reads this
    {
      ListOf(windows, key)
    }

    ghost function Charges(key: string): seq<Charge>
      reads this
    {
      ListOf(charges, key)
    }

    /** Everything ever admitted on the key. */
    ghost function History(key: string): seq<real>
      reads this
    {
      Admissions(windowSize, Charges(key))
    }

    ghost predicate Valid()
      reads this
    {
      windowSize > 0.0 && AllAgree(windows, windowSize, charges, clock)
    }

    constructor (windowSize: real, now: real)
      requires windowSize > 0.0
      ensures Valid() && this.windowSize == windowSize && clock == now && charges == map[]
    {
      this.windowSize := windowSize;
      windows, charges, clock := map[], map[], now;
      new;
      NeverCharged(windowSize, now);
    }

    /** What is_allowed does to one list. */
    static method Judge(v: seq<real>, w: real, c: Charge) returns (v': seq<real>, allowed: bool, remaining: int)
      ensures v' == Charged(v, w, c)
      ensures (allowed, remaining) == Decide(v, w, c)
    {
      v' := Prune(v, c.now - w);
      var count := |v'|;
      var effectiveLimit := c.limit + c.burst;
      remaining := if effectiveLimit - count > 0 then effectiveLimit - count else 0;
      if count < effectiveLimit {
        v' := v' + [c.now];
        allowed, remaining := true, remaining - 1;
      } else {
        allowed, remaining := false, 0;
      }
    }

    method IsAllowed(key: string, limit: int, burst: int, now: real) returns (allowed: bool, remaining: int)
      requires Valid() && now >= clock
      modifies this
      ensures Valid() && clock == now
      ensures (allowed, remaining) == Decide(old(History(key)), windowSize, Charge(now, limit, burst))
      ensures charges == Logged(old(charges), key, Charge(now, limit, burst))
      ensures windows == old(windows)[key := Recent(History(key), now - windowSize)]
    {
      var c := Charge(now, limit, burst);
      ChargedKey(windows, windowSize, charges, clock, key, c);
      var v: seq<real>;
      v, allowed, remaining := Judge(Window(key), windowSize, c);
      windows, charges, clock := windows[key := v], Logged(charges, key, c), now;
    }

    /** cleanup: keys with nothing newer than max_age are forgotten. */
    method Cleanup(maxAge: real, now: real)
      requires Valid() && now >= clock
      modifies this
      ensures windows.Keys == set k | k in old(windows) && !Stale(old(windows)[k], now, maxAge)
      ensures forall k :: k in windows ==> windows[k] == old(windows)[k]
      ensures charges == old(charges) && clock == now
      ensures windowSize <= maxAge ==> Valid()
    {
      ghost var was := windows;
      AllAgreeLater(windows, windowSize, charges, clock, now);
      var staleKeys := set k | k in windows && Stale(windows[k], now, maxAge);
      var left := staleKeys;
      while left != {}
        invariant left <= staleKeys && windows == was - (staleKeys - left)
        invariant charges == old(charges)
        decreases left
      {
        var key :| key in left;
        windows := windows - {key};
        left := left - {key};
      }
      clock := now;
      if windowSize <= maxAge {
        AllAgreeForgetting(was, windowSize, charges, staleKeys, now, maxAge);
        assert windows == was - staleKeys;
      }
    }
  }
}
