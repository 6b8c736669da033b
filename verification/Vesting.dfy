/** Linear vesting with a cliff. claimable_amount reads the clock twice, once in
    cliff_passed and once for the progress, so a reading is a pair of times. round stands
    for the Decimal rounding of the vested product; the identity gives the exact law. */
module Vesting {
  import opened Extrema
  import opened Wrappers

  datatype Terms = Terms(total: real, cliffEnd: real, vestingEnd: real, round: real -> real)

  /** The two clock readings of one claim. */
  datatype Reading = Reading(checked: real, now: real)

  datatype ClaimError = NotAuthorized | NothingToClaim

  /** total_amount * vesting_ratio, before rounding. */
  function Progress(t: Terms, elapsed: real, duration: real): real
    requires duration != 0.0
  {
    t.total * (elapsed / duration)
  }

  /** claimable_amount, branch by branch. */
  function Claimable(t: Terms, claimed: real, r: Reading): real {
    if r.checked < t.cliffEnd then 0.0
    else if r.now >= t.vestingEnd then t.total - claimed
    else
      var duration := t.vestingEnd - t.cliffEnd;
      var elapsed := r.now - t.cliffEnd;
      if duration <= 0.0 then t.total - claimed
      else MaxReal(0.0, t.round(Progress(t, elapsed, duration)) - claimed)
  }

  /** claim_tranche on claimed_amount: refused unless something is claimable. */
  function ClaimOnce(t: Terms, claimed: real, r: Reading): real {
    var c := Claimable(t, claimed, r);
    if c <= 0.0 then claimed else claimed + c
  }

  function ClaimAll(t: Terms, claimed: real, rs: seq<Reading>): real {
    if rs == [] then claimed
    else ClaimOnce(t, ClaimAll(t, claimed, rs[..|rs| - 1]), rs[|rs| - 1])
  }

  /** What has vested by a reading, independently of any claim. */
  function Vested(t: Terms, r: Reading): real {
    if r.checked < t.cliffEnd then 0.0
    else if r.now >= t.vestingEnd || t.vestingEnd <= t.cliffEnd then t.total
    else t.round(Progress(t, r.now - t.cliffEnd, t.vestingEnd - t.cliffEnd))
  }

  /** Between cliff and end vesting is linear: the share that has vested, before rounding, is to the
      total as the time since the cliff is to the whole time from cliff to end. */
  lemma VestedIsLinear(t: Terms, r: Reading) returns (share: real)
    requires t.cliffEnd <= r.checked && t.cliffEnd <= r.now < t.vestingEnd
    ensures share * (t.vestingEnd - t.cliffEnd) == t.total * (r.now - t.cliffEnd)
    ensures Vested(t, r) == t.round(share)
  {
    var duration, elapsed := t.vestingEnd - t.cliffEnd, r.now - t.cliffEnd;
    share := Progress(t, elapsed, duration);
    assert elapsed / duration * duration == elapsed;
  }

  // ---------------------------------------------------------------- claims take the maximum

  lemma ClaimIsMax(t: Terms, claimed: real, r: Reading)
    requires claimed >= 0.0
    ensures ClaimOnce(t, claimed, r) == MaxReal(claimed, Vested(t, r))
  {
  }

  /** For any claims at any times, in any order, the claimed amount ends as the maximum of its
      start and of what was vested at each claim: it is at least all of them and equals one. */
  lemma {:induction false} ClaimsTakeMaximum(t: Terms, start: real, rs: seq<Reading>)
    requires start >= 0.0
    ensures var end := ClaimAll(t, start, rs);
            && end >= start
            && (forall i :: 0 <= i < |rs| ==> end >= Vested(t, rs[i]))
            && (end == start || exists i :: 0 <= i < |rs| && end == Vested(t, rs[i]))
  {
    if rs != [] {
      var front := rs[..|rs| - 1];
      ClaimsTakeMaximum(t, start, front);
      ClaimIsMax(t, ClaimAll(t, start, front), rs[|rs| - 1]);
      var end := ClaimAll(t, start, rs);
      assert Vested(t, rs[|rs| - 1]) <= end;
      forall i | 0 <= i < |rs|
        ensures end >= Vested(t, rs[i])
      {
        if i < |front| { assert rs[i] == front[i]; }
      }
      if end != start && end == ClaimAll(t, start, front) {
        var i :| 0 <= i < |front| && end == Vested(t, front[i]);
        assert rs[i] == front[i];
      }
    }
  }

  /** Path independence: two runs that claim at the same readings, in whatever order and
      however often, end with the same claimed amount. */
  lemma ClaimOrderIrrelevant(t: Terms, start: real, rs: seq<Reading>, qs: seq<Reading>)
    requires start >= 0.0
    requires forall r :: r in rs <==> r in qs
    ensures ClaimAll(t, start, rs) == ClaimAll(t, start, qs)
  {
    ClaimsTakeMaximum(t, start, rs);
    ClaimsTakeMaximum(t, start, qs);
    SameReadings(t, start, rs, qs);
    SameReadings(t, start, qs, rs);
  }

  lemma SameReadings(t: Terms, start: real, rs: seq<Reading>, qs: seq<Reading>)
    requires forall r :: r in rs ==> r in qs
    requires var end := ClaimAll(t, start, rs);
             end == start || exists i :: 0 <= i < |rs| && end == Vested(t, rs[i])
    requires var end := ClaimAll(t, start, qs);
             end >= start && forall i :: 0 <= i < |qs| ==> end >= Vested(t, qs[i])
    ensures ClaimAll(t, start, rs) <= ClaimAll(t, start, qs)
  {
    if ClaimAll(t, start, rs) != start {
      var i :| 0 <= i < |rs| && ClaimAll(t, start, rs) == Vested(t, rs[i]);
      assert rs[i] in qs;
      var j :| 0 <= j < |qs| && qs[j] == rs[i];
    }
  }

  /** Nothing is paid twice: the tranches handed out sum to the growth of claimed_amount. */
  lemma {:induction false} TranchesSumToGrowth(t: Terms, start: real, rs: seq<Reading>)
    ensures start + Paid(t, start, rs) == ClaimAll(t, start, rs)
  {
    if rs != [] {
      TranchesSumToGrowth(t, start, rs[..|rs| - 1]);
    }
  }

  /** The sum of the tranches that the claims returned. */
  function Paid(t: Terms, start: real, rs: seq<Reading>): real {
    if rs == [] then 0.0
    else
      var c := Claimable(t, ClaimAll(t, start, rs[..|rs| - 1]), rs[|rs| - 1]);
      Paid(t, start, rs[..|rs| - 1]) + if c <= 0.0 then 0.0 else c
  }

  // ---------------------------------------------------------------- bounds

  /** A rounding that is monotone and leaves nothing and everything alone. */
  ghost predicate FairRounding(t: Terms) {
    && (forall x, y :: x <= y ==> t.round(x) <= t.round(y))
    && t.round(0.0) == 0.0 && t.round(t.total) == t.total
  }

  predicate ClockRunsForward(r: Reading) { r.checked <= r.now }

  /** Once the cliff has passed and vesting has not ended, vesting has a positive duration: the
      zero-duration guard of claimable_amount is unreachable. */
  lemma ZeroDurationUnreachable(t: Terms, r: Reading)
    requires ClockRunsForward(r) && r.checked >= t.cliffEnd && r.now < t.vestingEnd
    ensures t.vestingEnd - t.cliffEnd > r.now - t.cliffEnd >= 0.0
  {
  }

  lemma QuotientMonotone(a: real, b: real, d: real)
    requires d > 0.0 && a <= b
    ensures a / d <= b / d
  {
    assert b / d - a / d == (b - a) / d;
  }

  lemma ProgressMonotone(t: Terms, elapsed: real, later: real, duration: real)
    requires t.total >= 0.0 && duration > 0.0 && elapsed <= later
    ensures Progress(t, elapsed, duration) <= Progress(t, later, duration)
  {
    QuotientMonotone(elapsed, later, duration);
    var x, y := elapsed / duration, later / duration;
    assert t.total * (y - x) >= 0.0;
  }

  lemma RoundMonotone(t: Terms, x: real, y: real)
    requires FairRounding(t) && x <= y
    ensures t.round(x) <= t.round(y)
  {
  }

  lemma LinearBounds(t: Terms, elapsed: real, duration: real)
    requires FairRounding(t) && t.total >= 0.0 && 0.0 <= elapsed <= duration && duration > 0.0
    ensures 0.0 <= t.round(Progress(t, elapsed, duration)) <= t.total
  {
    ProgressMonotone(t, 0.0, elapsed, duration);
    ProgressMonotone(t, elapsed, duration, duration);
    assert duration / duration == 1.0;
    assert Progress(t, 0.0, duration) == 0.0 && Progress(t, duration, duration) == t.total;
    RoundMonotone(t, 0.0, Progress(t, elapsed, duration));
    RoundMonotone(t, Progress(t, elapsed, duration), t.total);
  }

  lemma VestedBounds(t: Terms, r: Reading)
    requires FairRounding(t) && t.total >= 0.0 && ClockRunsForward(r)
    ensures 0.0 <= Vested(t, r) <= t.total
  {
    if r.checked >= t.cliffEnd && r.now < t.vestingEnd {
      LinearBounds(t, r.now - t.cliffEnd, t.vestingEnd - t.cliffEnd);
    }
  }

  /** What has vested never shrinks as both readings move on. */
  lemma VestedMonotone(t: Terms, r: Reading, q: Reading)
    requires FairRounding(t) && t.total >= 0.0 && ClockRunsForward(r) && ClockRunsForward(q)
    requires r.checked <= q.checked && r.now <= q.now
    ensures Vested(t, r) <= Vested(t, q)
  {
    VestedBounds(t, r);
    VestedBounds(t, q);
    if r.checked >= t.cliffEnd && q.now < t.vestingEnd {
      var duration := t.vestingEnd - t.cliffEnd;
      ProgressMonotone(t, r.now - t.cliffEnd, q.now - t.cliffEnd, duration);
      RoundMonotone(t, Progress(t, r.now - t.cliffEnd, duration), Progress(t, q.now - t.cliffEnd, duration));
    }
  }

  /** A schedule that starts within its total never pays more than the total, and is fully
      paid after any claim made once both the cliff and the vesting end have passed. */
  lemma ClaimsStayWithinTotal(t: Terms, start: real, rs: seq<Reading>)
    requires FairRounding(t) && 0.0 <= start <= t.total
    requires forall i :: 0 <= i < |rs| ==> ClockRunsForward(rs[i])
    ensures start <= ClaimAll(t, start, rs) <= t.total
    ensures (exists i :: 0 <= i < |rs| && rs[i].checked >= t.cliffEnd && rs[i].now >= t.vestingEnd)
              ==> ClaimAll(t, start, rs) == t.total
  {
    ClaimsTakeMaximum(t, start, rs);
    forall i | 0 <= i < |rs|
      ensures Vested(t, rs[i]) <= t.total
      ensures rs[i].checked >= t.cliffEnd && rs[i].now >= t.vestingEnd ==> Vested(t, rs[i]) == t.total
    {
      VestedBounds(t, rs[i]);
    }
  }

  /** Claiming early or often changes nothing: at non-decreasing times, the outcome is what a
      single claim at the last reading would have given. */
  lemma OnlyLatestClaimMatters(t: Terms, start: real, rs: seq<Reading>)
    requires FairRounding(t) && t.total >= 0.0 && start >= 0.0 && rs != []
    requires forall i :: 0 <= i < |rs| ==> ClockRunsForward(rs[i])
    requires forall i :: 0 <= i < |rs| ==> rs[i].checked <= rs[|rs| - 1].checked && rs[i].now <= rs[|rs| - 1].now
    ensures ClaimAll(t, start, rs) == ClaimOnce(t, start, rs[|rs| - 1])
  {
    var last := rs[|rs| - 1];
    ClaimsTakeMaximum(t, start, rs);
    ClaimIsMax(t, start, last);
    forall i | 0 <= i < |rs|
      ensures Vested(t, rs[i]) <= Vested(t, last)
    {
      VestedMonotone(t, rs[i], last);
    }
  }

  // ---------------------------------------------------------------- the schedule

  class VestingSchedule {
    const terms: Terms
    const userId: nat
    var claimedAmount: real
    var lastClaimAt: Option<real>

    constructor (terms: Terms, userId: nat)
      ensures this.terms == terms && this.userId == userId
      ensures claimedAmount == 0.0 && lastClaimAt == None
    {
      this.terms, this.userId := terms, userId;
      claimedAmount, lastClaimAt := 0.0, None;
    }

    /** claim_tranche; stamp is the clock reading stored as last_claim_at. */
    method ClaimTranche(user: nat, r: Reading, stamp: real) returns (tranche: Result<real, ClaimError>)
      modifies this
      ensures tranche == (if user != userId then Err(NotAuthorized)
                          else if Claimable(terms, old(claimedAmount), r) <= 0.0 then Err(NothingToClaim)
                          else Ok(Claimable(terms, old(claimedAmount), r)))
      ensures tranche.Ok? ==> claimedAmount == ClaimOnce(terms, old(claimedAmount), r) && lastClaimAt == Some(stamp)
      ensures tranche.Ok? ==> tranche.value > 0.0 && claimedAmount == old(claimedAmount) + tranche.value
      ensures tranche.Err? ==> unchanged(this)
      ensures user == userId && old(claimedAmount) >= 0.0 ==> claimedAmount == MaxReal(old(claimedAmount), Vested(terms, r))
      ensures user == userId && r.checked < terms.cliffEnd ==> tranche == Err(NothingToClaim)
      ensures user == userId && old(claimedAmount) >= 0.0 && terms.cliffEnd <= r.checked <= r.now < terms.vestingEnd ==>
                exists share :: share * (terms.vestingEnd - terms.cliffEnd) == terms.total * (r.now - terms.cliffEnd)
                                && claimedAmount == MaxReal(old(claimedAmount), terms.round(share))
      ensures user == userId && 0.0 <= old(claimedAmount) <= terms.total && terms.cliffEnd <= r.checked && terms.vestingEnd <= r.now ==>
                claimedAmount == terms.total
    {
      if terms.cliffEnd <= r.checked <= r.now < terms.vestingEnd {
        ghost var share := VestedIsLinear(terms, r);
      }
      if user != userId {
        return Err(NotAuthorized);
      }
      var claimable := Claimable(terms, claimedAmount, r);
      if claimable <= 0.0 {
        if claimedAmount >= 0.0 { ClaimIsMax(terms, claimedAmount, r); }
        return Err(NothingToClaim);
      }
      if claimedAmount >= 0.0 { ClaimIsMax(terms, claimedAmount, r); }
      claimedAmount := claimedAmount + claimable;
      lastClaimAt := Some(stamp);
      tranche := Ok(claimable);
    }
  }
}
