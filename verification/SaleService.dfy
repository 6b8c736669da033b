/** The sale services as one request sees them: an object over the committed tables whose
    methods run a whole transaction each. Their postconditions are the transactions of
    SaleLedger; the lemmas at the end show that such a call is the run of the protocol in
    which the session's steps follow each other directly. */
module SaleService {
  import opened Wrappers
  import opened SaleLedger
  import opened SaleProtocol

  /** contribute, with nobody else connected. */
  function ContributeAlone(db: Db, q: Request): (Db, Result<nat, Refusal>) {
    match Admission(db, q)
    case Some(e) => (db, Err(e))
    case None =>
      match Validate(db, q)
      case Err(e) => (db, Err(e))
      case Ok(row) =>
        if row.saleId !in db.sales then (db, Err(SaleNotFound))
        else (Insert(db, row, db.sales[row.saleId].totalRaised + row.amount), Ok(|db.rows|))
  }

  function FinalizeAlone(db: Db, user: UserId, id: SaleId): (Db, Result<SaleStatus, Refusal>) {
    match FinalizeCheck(db, user, id)
    case Err(e) => (db, Err(e))
    case Ok(status) =>
      var pending := if status == Finalized then Select(db.rows, PendingOf(id)) else {};
      (if id in db.sales then SetStatus(db, id, status).(rows := MarkRows(db.rows, pending, MarkConfirmed)) else db,
       Ok(status))
  }

  /** A claim or refund of the selected rows, once the chain accepted the transaction. */
  function MarkAlone(db: Db, selected: Result<set<nat>, Refusal>, accepted: bool, m: Mark): (Db, Result<set<nat>, Refusal>) {
    if selected.Err? then (db, selected)
    else if !accepted then (db, Err(ChainRejected))
    else (db.(rows := MarkRows(db.rows, selected.value, m)), selected)
  }

  function ToSet(ids: seq<nat>): set<nat> { set i | i in ids }

  /** The rows a query returns, as the list the service loops over. */
  function SelectList(rows: seq<Contribution>, f: Filter): (ids: seq<nat>)
    ensures ToSet(ids) == Select(rows, f)
    ensures forall a, b :: 0 <= a < b < |ids| ==> ids[a] < ids[b]
    ensures forall a :: 0 <= a < |ids| ==> ids[a] < |rows|
  {
    if rows == [] then []
    else
      var n := |rows| - 1;
      var front := SelectList(rows[..n], f);
      assert forall i: nat :: i < n ==> rows[..n][i] == rows[i];
      assert forall i :: i in front <==> i in Select(rows[..n], f) by {
        forall i ensures i in front <==> i in Select(rows[..n], f) {
          assert i in front <==> i in ToSet(front);
        }
      }
      if Matches(rows[n], f) then front + [n] else front
  }

  /** A contribution is recorded exactly when the request is well formed, the user is eligible, the
      hash is new, the sale is active and the phase the request goes to admits it. Then one row is
      appended that records the request, and the raised total of its sale grows by the amount of
      that row; otherwise nothing changes, and the refusal names the first of these that fails. */
  ghost predicate ContributesAsAsked(before: Db, after: Db, r: Result<nat, Refusal>, q: Request) {
    && (r.Ok? <==>
          && q.amount > 0.0 && |q.txHash| == 66
          && q.preflight == Eligible && !q.verification.ContributorMismatch? && !HasTx(before.rows, q.txHash)
          && Sells(before, q))
    && (r.Ok? ==> r.value == |before.rows| && RecordsContribution(before, after, q))
    && (r.Err? ==> after == before)
    && (if q.amount <= 0.0 || |q.txHash| != 66 then r == Err(InvalidRequest)
        else if q.preflight != Eligible then r == Err(NotEligible(q.preflight))
        else if HasTx(before.rows, q.txHash) then r == Err(DuplicateTxHash)
        else if q.verification.ContributorMismatch? then r == Err(ContributorDiffers)
        else ForTheFirstReason(Reason(r), before, q))
  }

  ghost predicate RecordsContribution(before: Db, after: Db, q: Request) {
    && q.saleId in before.sales
    && exists p, row :: Records(row, q, p) && TakesPhase(before.sales[q.saleId].phases, q, p)
         && after.rows == before.rows + [row]
         && after.sales == before.sales[q.saleId := before.sales[q.saleId].(totalRaised := before.sales[q.saleId].totalRaised + row.amount)]
  }

  lemma AcceptedIsRecorded(db: Db, q: Request)
    requires Validate(db, q).Ok?
    ensures var row := Validate(db, q).value;
            row.saleId in db.sales && RecordsContribution(db, Insert(db, row, db.sales[row.saleId].totalRaised + row.amount), q)
  {
    var p := ValidateAccepts(db, q);
    assert Records(Validate(db, q).value, q, p);
  }

  lemma ContributeMeans(db: Db, q: Request)
    ensures var (after, r) := ContributeAlone(db, q); ContributesAsAsked(db, after, r, q)
  {
    AcceptedExactlyWhenAdmitted(db, q);
    RefusedForTheFirstReason(db, q);
    if Validate(db, q).Ok? { AcceptedIsRecorded(db, q); }
  }

  lemma NoneSelected(rows: seq<Contribution>, user: UserId, id: SaleId, statuses: set<ContributionStatus>)
    ensures Select(rows, Filter(id, statuses, Some(user), None)) == {}
       <==> forall i :: 0 <= i < |rows| ==> !(rows[i].userId == user && rows[i].saleId == id && rows[i].status in statuses)
  {
    var ids := Select(rows, Filter(id, statuses, Some(user), None));
    forall i | 0 <= i < |rows|
      ensures rows[i].userId == user && rows[i].saleId == id && rows[i].status in statuses <==> i in ids
    {
    }
  }

  class SaleContributeService {
    var rows: seq<Contribution>
    var sales: map<SaleId, Sale>

    function Committed(): Db
      reads this
    {
      Db(rows, sales)
    }

    constructor (db: Db)
      ensures Committed() == db
    {
      rows, sales := db.rows, db.sales;
    }

    /** for phase in sale.phases: if phase.is_active: ...; break */
    method FindActivePhase(phases: seq<Phase>, now: real) returns (active: Option<Phase>)
      ensures active == FirstActive(phases, now)
      ensures active.Some? ==>
                (exists k :: 0 <= k < |phases| && active.value == phases[k] && phases[k].startTime <= now <= phases[k].endTime
                             && forall j :: 0 <= j < k ==> now < phases[j].startTime || now > phases[j].endTime)
      ensures active.None? ==> forall j :: 0 <= j < |phases| ==> now < phases[j].startTime || now > phases[j].endTime
    {
      active := None;
      var i := 0;
      while i < |phases|
        invariant 0 <= i <= |phases|
        invariant FirstActive(phases, now) == FirstActive(phases[i..], now)
        invariant forall j :: 0 <= j < i ==> !phases[j].IsActive(now)
      {
        if phases[i].IsActive(now) {
          active := Some(phases[i]);
          return;
        }
        i := i + 1;
      }
    }

    method Contribute(q: Request) returns (r: Result<nat, Refusal>)
      modifies this
      ensures (Committed(), r) == ContributeAlone(old(Committed()), q)
      ensures ContributesAsAsked(old(Committed()), Committed(), r, q)
    {
      ContributeMeans(Committed(), q);
      var refusal := Admission(Committed(), q);
      if refusal.Some? {
        return Err(refusal.value);
      }
      r := ContributeLocked(q);
    }

    /** What contribute does while it holds the sale row. */
    method ContributeLocked(q: Request) returns (r: Result<nat, Refusal>)
      modifies this
      ensures match Validate(old(Committed()), q)
              case Err(e) => Committed() == old(Committed()) && r == Err(e)
              case Ok(row) =>
                && row.saleId in old(sales) && r == Ok(|old(rows)|)
                && Committed() == Insert(old(Committed()), row, old(sales)[row.saleId].totalRaised + row.amount)
    {
      if q.saleId !in sales {
        return Err(SaleNotFound);
      }
      var sale := sales[q.saleId];
      if sale.status != Active {
        return Err(SaleNotActive);
      }
      var phase: Option<Phase>;
      if q.verification.Verified? && q.verification.event.phaseIndex < |sale.phases| {
        phase := Some(sale.phases[q.verification.event.phaseIndex]);
      } else {
        phase := FindActivePhase(sale.phases, q.now);
      }
      if phase.None? {
        return Err(NoActivePhase);
      }
      var v := ValidateInPhase(Committed(), sale, phase.value, q);
      if v.Err? {
        return Err(v.error);
      }
      rows := rows + [v.value];
      sales := sales[q.saleId := sale.(totalRaised := sale.totalRaised + v.value.amount)];
      r := Ok(|rows| - 1);
    }

    method FinalizeSale(user: UserId, id: SaleId) returns (r: Result<SaleStatus, Refusal>)
      modifies this
      ensures (Committed(), r) == FinalizeAlone(old(Committed()), user, id)
      ensures r == (if id !in old(sales) then Err(SaleNotFound)
                    else if old(sales)[id].issuer != user then Err(NotAuthorized)
                    else if old(sales)[id].status != Active then Err(SaleNotActive)
                    else Ok(if old(sales)[id].totalRaised >= old(sales)[id].softCap then Finalized else Failed))
      ensures r.Err? ==> rows == old(rows) && sales == old(sales)
      ensures r.Ok? ==> sales == old(sales)[id := old(sales)[id].(status := r.value)] && |rows| == |old(rows)|
      ensures r.Ok? ==> forall i :: 0 <= i < |rows| ==>
                rows[i] == if r.value == Finalized && old(rows)[i].saleId == id && old(rows)[i].status == Pending
                           then old(rows)[i].(status := Confirmed) else old(rows)[i]
    {
      r := FinalizeCheck(Committed(), user, id);
      if r.Err? {
        return;
      }
      var pending: set<nat> := {};
      if sales[id].SoftCapReached() {
        pending := Select(rows, PendingOf(id));
      }
      sales := sales[id := sales[id].(status := r.value)];
      rows := MarkRows(rows, pending, MarkConfirmed);
    }

    /** The loop both claim_tokens and claim_refund run over the selected rows. */
    method MarkEach(ids: seq<nat>, m: Mark)
      requires forall a, b :: 0 <= a < b < |ids| ==> ids[a] < ids[b]
      requires forall a :: 0 <= a < |ids| ==> ids[a] < |rows|
      modifies this`rows
      ensures rows == MarkRows(old(rows), ToSet(ids), m)
    {
      ghost var was := rows;
      var k := 0;
      while k < |ids|
        invariant 0 <= k <= |ids| && |rows| == |was|
        invariant rows == MarkRows(was, ToSet(ids[..k]), m)
      {
        var i := ids[k];
        assert i !in ids[..k];
        rows := rows[i := m.Apply(rows[i])];
        assert ids[..k + 1] == ids[..k] + [i];
        k := k + 1;
      }
      assert ids[..k] == ids;
    }

    method ClaimTokens(user: UserId, id: SaleId, tx: Option<TxHash>, accepted: bool, now: real) returns (r: Result<set<nat>, Refusal>)
      modifies this
      ensures (Committed(), r)
           == MarkAlone(old(Committed()), ClaimCheck(old(Committed()), user, id), accepted, MarkClaimed(now, tx))
      ensures sales == old(sales) && |rows| == |old(rows)| && (r.Err? ==> rows == old(rows))
      ensures r == Err(NothingToClaim) <==> forall i :: 0 <= i < |rows| ==>
                !(old(rows)[i].userId == user && old(rows)[i].saleId == id && old(rows)[i].status == Confirmed)
      ensures r.Err? ==> r == Err(NothingToClaim) || (r == Err(ChainRejected) && !accepted)
      ensures !accepted ==> r.Err?
      ensures r.Ok? ==> forall i :: 0 <= i < |rows| ==>
                && (i in r.value <==> old(rows)[i].userId == user && old(rows)[i].saleId == id && old(rows)[i].status == Confirmed)
                && rows[i] == if i in r.value
                              then old(rows)[i].(status := Claimed, claimedAt := Some(now),
                                                 claimTxHash := if tx.Some? && tx.value != "" then tx else old(rows)[i].claimTxHash)
                              else old(rows)[i]
    {
      NoneSelected(rows, user, id, {Confirmed});
      r := ClaimCheck(Committed(), user, id);
      if r.Err? {
        return;
      }
      if !accepted {
        return Err(ChainRejected);
      }
      MarkEach(SelectList(rows, ClaimableBy(user, id)), MarkClaimed(now, tx));
    }

    method ClaimRefund(user: UserId, id: SaleId, tx: Option<TxHash>, accepted: bool) returns (r: Result<set<nat>, Refusal>)
      modifies this
      ensures (Committed(), r)
           == MarkAlone(old(Committed()), RefundCheck(old(Committed()), user, id), accepted, MarkRefunded(tx))
      ensures sales == old(sales) && |rows| == |old(rows)| && (r.Err? ==> rows == old(rows))
      ensures id !in sales ==> r == Err(SaleNotFound)
      ensures id in sales && sales[id].status != Failed && sales[id].status != RefundsEnabled ==> r == Err(SaleNotRefundable)
      ensures id in sales && (sales[id].status == Failed || sales[id].status == RefundsEnabled) ==>
                && (r == Err(NothingToRefund) <==> forall i :: 0 <= i < |rows| ==>
                      !(old(rows)[i].userId == user && old(rows)[i].saleId == id && old(rows)[i].status in {Pending, Confirmed}))
                && (r.Err? ==> r == Err(NothingToRefund) || (r == Err(ChainRejected) && !accepted))
                && (!accepted ==> r.Err?)
      ensures r.Ok? ==> forall i :: 0 <= i < |rows| ==>
                && (i in r.value <==> old(rows)[i].userId == user && old(rows)[i].saleId == id && old(rows)[i].status in {Pending, Confirmed})
                && rows[i] == if i in r.value
                              then old(rows)[i].(status := Refunded,
                                                 claimTxHash := if tx.Some? && tx.value != "" then tx else old(rows)[i].claimTxHash)
                              else old(rows)[i]
    {
      NoneSelected(rows, user, id, {Pending, Confirmed});
      r := RefundCheck(Committed(), user, id);
      if r.Err? {
        return;
      }
      if !accepted {
        return Err(ChainRejected);
      }
      MarkEach(SelectList(rows, RefundableBy(user, id)), MarkRefunded(tx));
    }
  }

  /** A contribute call that nobody interrupts does what the method does. */
  lemma ContributeIsSerial(s: State, sid: SessionId, q: Request)
    requires s.locks == map[] && sid !in s.sessions
    ensures var t := Step(Step(Step(s, Begin(sid, q)), LockAndValidate(sid)), Commit(sid));
            var (db, r) := ContributeAlone(s.db, q);
            && t.db == db && t.locks == map[]
            && t.sessions == s.sessions[sid := match r case Ok(i) => Recorded(q, i) case Err(e) => Refused(e)]
  {
  }

  /** So does a finalize call. */
  lemma FinalizeIsSerial(s: State, sid: SessionId, user: UserId, id: SaleId)
    requires id !in s.locks && sid !in s.sessions
    ensures var t := Step(Step(Step(s, FinalizeRead(sid, user, id)), FinalizeConfirm(sid)), FinalizeCommit(sid));
            var (db, r) := FinalizeAlone(s.db, user, id);
            t.db == db && t.sessions == s.sessions[sid := match r case Ok(_) => Done case Err(e) => Refused(e)]
  {
  }

  /** And so do a claim and a refund. */
  lemma ClaimIsSerial(s: State, sid: SessionId, user: UserId, id: SaleId, tx: Option<TxHash>, accepted: bool, now: real)
    requires sid !in s.sessions
    ensures var t := Step(Step(s, ClaimRead(sid, user, id, tx)), ClaimCommit(sid, accepted, now));
            var (db, r) := MarkAlone(s.db, ClaimCheck(s.db, user, id), accepted, MarkClaimed(now, tx));
            t.db == db && t.sessions == s.sessions[sid := match r case Ok(_) => Done case Err(e) => Refused(e)]
  {
  }

  lemma RefundIsSerial(s: State, sid: SessionId, user: UserId, id: SaleId, tx: Option<TxHash>, accepted: bool)
    requires sid !in s.sessions
    ensures var t := Step(Step(s, RefundRead(sid, user, id, tx)), RefundCommit(sid, accepted));
            var (db, r) := MarkAlone(s.db, RefundCheck(s.db, user, id), accepted, MarkRefunded(tx));
            t.db == db && t.sessions == s.sessions[sid := match r case Ok(_) => Done case Err(e) => Refused(e)]
  {
  }
}
