/** Concrete runs, with inputs the services accept, in which the two properties that hold only
    under a condition fail. */
module SaleCounterexamples {
  import opened Wrappers
  import opened SaleLedger
  import opened SaleProtocol
  import opened SaleTheorems
  import SalePhases

  const OPEN_SALE := Sale(7, Active, 10.0, 20.0, 0.0, 0.0, false, [Phase(0, 1.0, 0.0, 0.0, 0.0, 9.0, false, {})])
  const OPEN_STATE := State(Db([], map[0 := OPEN_SALE]), map[], map[])

  /** Such a sale can be created. */
  lemma OpenSaleIsValid(zoned: bool)
    ensures SalePhases.ValidateSale(OPEN_SALE.softCap, OPEN_SALE.hardCap, OPEN_SALE.phases, zoned, 0.0) == None
  {
    SalePhases.AcceptedSale(OPEN_SALE.softCap, OPEN_SALE.hardCap, OPEN_SALE.phases, zoned, 0.0);
  }

  /** A transaction hash of the demanded length. */
  function Hash(digit: char): (h: TxHash)
    ensures |h| == TX_HASH_LENGTH && h[2] == digit
  {
    "0x" + seq(64, _ => digit)
  }

  function Buy(tx: TxHash): Request {
    Request(1, 0, 10.0, tx, None, None, Eligible, Unavailable, None, 5.0)
  }

  function Bought(tx: TxHash): Contribution {
    Contribution(1, 0, 0, 10.0, 10.0, tx, None, Pending, None, None)
  }

  lemma BuyIsAccepted(db: Db, raised: real, tx: TxHash)
    requires db.sales == map[0 := OPEN_SALE.(totalRaised := raised)] && raised <= 10.0
    ensures Validate(db, Buy(tx)) == Ok(Bought(tx))
  {
    var phases := OPEN_SALE.phases;
    assert phases[0].IsActive(5.0);
    assert FirstActive(phases, 5.0) == Some(phases[0]);
    assert ValidateInPhase(db, db.sales[0], phases[0], Buy(tx)) == Ok(Bought(tx));
  }

  ghost predicate Reachable(s: State, t: State) {
    exists run :: Exec(s, run) == t
  }

  lemma ReachStep(s: State, t: State, a: Action)
    requires Reachable(s, t)
    ensures Reachable(s, Step(t, a))
  {
    var run :| Exec(s, run) == t;
    ExecSnoc(s, run, a);
  }

  function Raised(amount: real, status: SaleStatus): map<SaleId, Sale> {
    map[0 := OPEN_SALE.(totalRaised := amount, status := status)]
  }

  /** A contribute call by session sid reaches the validated, not yet committed state. */
  lemma Locks(s: State, t: State, sid: SessionId, q: Request, row: Contribution, raised: real)
    requires Reachable(s, t)
    requires t.locks == map[] && sid !in t.sessions && q.saleId == 0 && t.db.sales == Raised(raised, Active)
    requires BeginOutcome(t.db, q) == Checked(q) && Validate(t.db, q) == Ok(row)
    ensures Reachable(s, State(t.db, map[0 := sid], t.sessions[sid := Holding(q, row, raised + row.amount)]))
  {
    var t1 := Put(t, sid, Checked(q));
    assert Step(t, Begin(sid, q)) == t1;
    ReachStep(s, t, Begin(sid, q));
    var x := Holding(q, row, raised + row.amount);
    assert Step(t1, LockAndValidate(sid)) == State(t.db, map[0 := sid], t1.sessions[sid := x]);
    assert t1.sessions[sid := x] == t.sessions[sid := x];
    ReachStep(s, t1, LockAndValidate(sid));
  }

  lemma Records(s: State, t: State, sid: SessionId, q: Request, row: Contribution, raised: real)
    requires Reachable(s, t)
    requires t.locks == map[0 := sid] && FindTx(t.db.rows, row.txHash).None? && t.db.sales == Raised(raised, Active)
    requires row.saleId == 0 && q.saleId == 0
    requires sid in t.sessions && t.sessions[sid] == Holding(q, row, raised + row.amount)
    ensures Reachable(s, State(Db(t.db.rows + [row], Raised(raised + row.amount, Active)), map[],
                               t.sessions[sid := Recorded(q, |t.db.rows|)]))
  {
    var u := Step(t, Commit(sid));
    assert u.locks == map[] && u.db.sales == Raised(raised + row.amount, Active);
    ReachStep(s, t, Commit(sid));
  }

  lemma FinalizeReads(s: State, t: State, sid: SessionId, decision: SaleStatus)
    requires Reachable(s, t)
    requires sid !in t.sessions && 0 in t.db.sales && FinalizeCheck(t.db, 7, 0) == Ok(decision)
    ensures Reachable(s, Put(t, sid, Finalizing(0, decision)))
  {
    ReachStep(s, t, FinalizeRead(sid, 7, 0));
  }

  lemma Confirms(s: State, t: State, sid: SessionId, decision: SaleStatus, pending: set<nat>)
    requires Reachable(s, t)
    requires sid in t.sessions && t.sessions[sid] == Finalizing(0, decision)
    requires pending == if decision == Finalized then Select(t.db.rows, PendingOf(0)) else {}
    ensures Reachable(s, Put(t, sid, Confirming(0, decision, pending)))
  {
    ReachStep(s, t, FinalizeConfirm(sid));
  }

  lemma Commits(s: State, t: State, sid: SessionId, decision: SaleStatus, pending: set<nat>, raised: real, status: SaleStatus)
    requires Reachable(s, t)
    requires sid in t.sessions && t.sessions[sid] == Confirming(0, decision, pending)
    requires t.locks == map[] && t.db.sales == Raised(raised, status)
    ensures var u := State(Db(MarkRows(t.db.rows, pending, MarkConfirmed), Raised(raised, decision)), map[], t.sessions[sid := Done]);
            Step(t, FinalizeCommit(sid)) == u && Reachable(s, u)
  {
    var u := Step(t, FinalizeCommit(sid));
    assert u.db.sales == Raised(raised, decision);
    ReachStep(s, t, FinalizeCommit(sid));
  }

  lemma Refunds(s: State, t: State, sid: SessionId)
    requires Reachable(s, t)
    requires t.db == Db([Bought(Hash('a'))], Raised(10.0, Failed)) && sid !in t.sessions
    ensures Reachable(s, Put(t, sid, Done).(db := Db([Bought(Hash('a')).(status := Refunded)], Raised(10.0, Failed))))
  {
    assert Select(t.db.rows, RefundableBy(1, 0)) == {0};
    ReachStep(s, t, RefundRead(sid, 1, 0, None));
    var t1 := Put(t, sid, Refunding(0, {0}, None));
    ReachStep(s, t1, RefundCommit(sid, true));
    assert MarkRows(t.db.rows, {0}, MarkRefunded(None)) == [Bought(Hash('a')).(status := Refunded)];
    assert t1.sessions[sid := Done] == t.sessions[sid := Done];
  }

  /** One purchase, from an empty ledger with other sessions open. */
  lemma FirstPurchase(s: State, t: State, sid: SessionId)
    requires Reachable(s, t)
    requires t == State(Db([], Raised(0.0, Active)), map[], t.sessions) && sid !in t.sessions
    ensures Reachable(s, State(Db([Bought(Hash('a'))], Raised(10.0, Active)), map[], t.sessions[sid := Recorded(Buy(Hash('a')), 0)]))
  {
    BuyIsAccepted(t.db, 0.0, Hash('a'));
    Locks(s, t, sid, Buy(Hash('a')), Bought(Hash('a')), 0.0);
    var x := Holding(Buy(Hash('a')), Bought(Hash('a')), 10.0);
    var t1 := State(t.db, map[0 := sid], t.sessions[sid := x]);
    Records(s, t1, sid, Buy(Hash('a')), Bought(Hash('a')), 0.0);
    assert t.db.rows + [Bought(Hash('a'))] == [Bought(Hash('a'))];
    assert t1.sessions[sid := Recorded(Buy(Hash('a')), 0)] == t.sessions[sid := Recorded(Buy(Hash('a')), 0)];
  }

  lemma OpenIsInitial()
    ensures Initial(OPEN_STATE) && Reachable(OPEN_STATE, OPEN_STATE)
    ensures OPEN_STATE == State(Db([], Raised(0.0, Active)), map[], map[])
  {
    assert Exec(OPEN_STATE, []) == OPEN_STATE;
    assert OPEN_STATE.db.sales == Raised(0.0, Active);
  }

  /** Two finalizations read the sale as active, session 1 before and session 3 after the
      soft cap was reached. */
  lemma TwoDecisions() returns (t: State)
    ensures Reachable(OPEN_STATE, t)
    ensures t.db == Db([Bought(Hash('a'))], Raised(10.0, Active)) && t.locks == map[] && t.sessions.Keys == {1, 2, 3}
    ensures t.sessions[1] == Finalizing(0, Failed) && t.sessions[3] == Finalizing(0, Finalized)
  {
    OpenIsInitial();
    var s := OPEN_STATE;
    FinalizeReads(s, s, 1, Failed);
    FirstPurchase(s, Put(s, 1, Finalizing(0, Failed)), 2);
    t := State(Db([Bought(Hash('a'))], Raised(10.0, Active)), map[], map[1 := Finalizing(0, Failed)][2 := Recorded(Buy(Hash('a')), 0)]);
    FinalizeReads(s, t, 3, Finalized);
    t := Put(t, 3, Finalizing(0, Finalized));
  }

  /** Session 1 commits FAILED and the contribution is refunded. */
  lemma FirstFails() returns (t: State)
    ensures Reachable(OPEN_STATE, t)
    ensures t.db == Db([Bought(Hash('a')).(status := Refunded)], Raised(10.0, Failed)) && t.locks == map[]
    ensures 3 in t.sessions && t.sessions[3] == Finalizing(0, Finalized)
  {
    t := TwoDecisions();
    Confirms(OPEN_STATE, t, 1, Failed, {});
    t := Put(t, 1, Confirming(0, Failed, {}));
    Commits(OPEN_STATE, t, 1, Failed, {}, 10.0, Active);
    assert MarkRows(t.db.rows, {}, MarkConfirmed) == t.db.rows;
    t := State(Db(t.db.rows, Raised(10.0, Failed)), map[], t.sessions[1 := Done]);
    Refunds(OPEN_STATE, t, 4);
    t := Put(t, 4, Done).(db := Db([Bought(Hash('a')).(status := Refunded)], Raised(10.0, Failed)));
  }

  /** Session 3 is about to commit FINALIZED over FAILED. */
  lemma SecondIsStale() returns (t: State, u: State)
    ensures Reachable(OPEN_STATE, t) && Crosses(t, FinalizeCommit(3)) && u == Step(t, FinalizeCommit(3))
    ensures u.db == Db([Bought(Hash('a')).(status := Refunded)], Raised(10.0, Finalized)) && u.locks == map[]
  {
    t := FirstFails();
    assert Select(t.db.rows, PendingOf(0)) == {};
    Confirms(OPEN_STATE, t, 3, Finalized, {});
    t := Put(t, 3, Confirming(0, Finalized, {}));
    Commits(OPEN_STATE, t, 3, Finalized, {}, 10.0, Failed);
    assert MarkRows(t.db.rows, {}, MarkConfirmed) == t.db.rows;
    u := State(Db(t.db.rows, Raised(10.0, Finalized)), map[], t.sessions[3 := Done]);
  }

  /** The guard of Solvent cannot be dropped: after a stale finalization the issuer can
      withdraw what was already refunded. */
  lemma CrossingBreaksSolvency() returns (t: State, stale: Action, u: State)
    ensures Initial(OPEN_STATE) && Reachable(OPEN_STATE, t) && Crosses(t, stale)
    ensures u == Step(Step(t, stale), Withdraw(7, 0, 10.0, true)) && 0 in u.db.sales
    ensures u.db.sales[0].totalWithdrawn + Sum(u.db.rows, InSale(0, {Refunded})) > u.db.sales[0].totalRaised
  {
    OpenIsInitial();
    stale := FinalizeCommit(3);
    t, u := SecondIsStale();
    var rows := u.db.rows;
    u := Step(u, Withdraw(7, 0, 10.0, true));
    assert rows[..0] == [];
    assert Sum(rows, InSale(0, {Refunded})) == 10.0;
  }

  const PAYER: string := "0x" + seq(40, _ => '1')
  const PAID_ON_CHAIN := Buy(Hash('c')).(verification := Verified(ChainEvent(5.0, 5.0, PAYER, 0)))
  const PAID_ROW := Contribution(1, 0, 0, 5.0, 5.0, Hash('c'), Some(PAYER), Confirmed, None, None)

  /** A contribution confirmed on chain. */
  lemma PaidPurchase() returns (t: State)
    ensures Reachable(OPEN_STATE, t)
    ensures t == State(Db([PAID_ROW], Raised(5.0, Active)), map[], map[1 := Recorded(PAID_ON_CHAIN, 0)])
  {
    OpenIsInitial();
    assert ValidateInPhase(OPEN_STATE.db, OPEN_SALE, OPEN_SALE.phases[0], PAID_ON_CHAIN) == Ok(PAID_ROW);
    Locks(OPEN_STATE, OPEN_STATE, 1, PAID_ON_CHAIN, PAID_ROW, 0.0);
    t := State(Db([], Raised(0.0, Active)), map[0 := 1], map[1 := Holding(PAID_ON_CHAIN, PAID_ROW, 5.0)]);
    Records(OPEN_STATE, t, 1, PAID_ON_CHAIN, PAID_ROW, 0.0);
    assert [] + [PAID_ROW] == [PAID_ROW];
    t := State(Db([PAID_ROW], Raised(5.0, Active)), map[], map[1 := Recorded(PAID_ON_CHAIN, 0)]);
  }

  /** The sale then misses its soft cap. */
  lemma ConfirmedInFailedSale() returns (t: State)
    ensures Reachable(OPEN_STATE, t)
    ensures t.db == Db([PAID_ROW], Raised(5.0, Failed)) && t.locks == map[] && t.sessions.Keys == {1, 2}
  {
    t := PaidPurchase();
    FinalizeReads(OPEN_STATE, t, 2, Failed);
    t := Put(t, 2, Finalizing(0, Failed));
    Confirms(OPEN_STATE, t, 2, Failed, {});
    t := Put(t, 2, Confirming(0, Failed, {}));
    Commits(OPEN_STATE, t, 2, Failed, {}, 5.0, Active);
    assert MarkRows(t.db.rows, {}, MarkConfirmed) == t.db.rows;
    t := State(Db([PAID_ROW], Raised(5.0, Failed)), map[], t.sessions[2 := Done]);
  }

  /** There a claim and a refund can both select the row. */
  lemma BothSelect() returns (t: State)
    ensures Reachable(OPEN_STATE, t)
    ensures t.db == Db([PAID_ROW], Raised(5.0, Failed)) && t.sessions.Keys == {1, 2, 3, 4}
    ensures t.sessions[3] == Claiming(0, {0}, None) && t.sessions[4] == Refunding(0, {0}, None)
  {
    t := ConfirmedInFailedSale();
    assert Select(t.db.rows, ClaimableBy(1, 0)) == {0};
    ReachStep(OPEN_STATE, t, ClaimRead(3, 1, 0, None));
    t := Put(t, 3, Claiming(0, {0}, None));
    assert Select(t.db.rows, RefundableBy(1, 0)) == {0};
    ReachStep(OPEN_STATE, t, RefundRead(4, 1, 0, None));
    t := Put(t, 4, Refunding(0, {0}, None));
  }

  const CLAIMED_ROW := PAID_ROW.(status := Claimed, claimedAt := Some(6.0))

  /** The claim commits first. */
  lemma ClaimedFirst() returns (t: State)
    ensures Reachable(OPEN_STATE, t)
    ensures t.db == Db([CLAIMED_ROW], Raised(5.0, Failed)) && 4 in t.sessions && t.sessions[4] == Refunding(0, {0}, None)
  {
    t := BothSelect();
    ReachStep(OPEN_STATE, t, ClaimCommit(3, true, 6.0));
    assert MarkRows(t.db.rows, {0}, MarkClaimed(6.0, None)) == [CLAIMED_ROW];
    t := DoMark(t, 3, {0}, MarkClaimed(6.0, None));
  }

  /** Whichever commits second overwrites the other: here the status goes from claimed to refunded. */
  lemma RefundOverwritesClaim() returns (t: State, refund: Action)
    ensures Initial(OPEN_STATE) && Reachable(OPEN_STATE, t) && EndedMeanwhile(t, refund)
    ensures |t.db.rows| == 1 && t.db.rows[0].status == Claimed && Step(t, refund).db.rows[0].status == Refunded
  {
    OpenIsInitial();
    refund := RefundCommit(4, true);
    t := ClaimedFirst();
    StepRewrites(t, refund, 0);
  }

  /** Session 2's purchase is validated but not yet committed. */
  lemma SecondHeld() returns (t: State)
    ensures Reachable(OPEN_STATE, t)
    ensures t.db == Db([Bought(Hash('a'))], Raised(10.0, Active)) && t.locks == map[0 := 2] && t.sessions.Keys == {1, 2}
    ensures t.sessions[2] == Holding(Buy(Hash('b')), Bought(Hash('b')), 20.0)
  {
    OpenIsInitial();
    FirstPurchase(OPEN_STATE, OPEN_STATE, 1);
    t := State(Db([Bought(Hash('a'))], Raised(10.0, Active)), map[], map[1 := Recorded(Buy(Hash('a')), 0)]);
    BuyIsAccepted(t.db, 10.0, Hash('b'));
    Locks(OPEN_STATE, t, 2, Buy(Hash('b')), Bought(Hash('b')), 10.0);
    t := State(t.db, map[0 := 2], t.sessions[2 := Holding(Buy(Hash('b')), Bought(Hash('b')), 20.0)]);
  }

  /** Session 3 then bulk-confirms without seeing it. */
  lemma BulkMissesHeldRow() returns (t: State)
    ensures Reachable(OPEN_STATE, t)
    ensures t.db == Db([Bought(Hash('a'))], Raised(10.0, Active)) && t.locks == map[0 := 2] && t.sessions.Keys == {1, 2, 3}
    ensures t.sessions[2] == Holding(Buy(Hash('b')), Bought(Hash('b')), 20.0) && t.sessions[3] == Confirming(0, Finalized, {0})
  {
    t := SecondHeld();
    FinalizeReads(OPEN_STATE, t, 3, Finalized);
    t := Put(t, 3, Finalizing(0, Finalized));
    assert Select(t.db.rows, PendingOf(0)) == {0};
    Confirms(OPEN_STATE, t, 3, Finalized, {0});
    t := Put(t, 3, Confirming(0, Finalized, {0}));
  }

  const CONFIRMED_AND_PENDING := [Bought(Hash('a')).(status := Confirmed), Bought(Hash('b'))]

  /** The purchase commits, and then the finalization. */
  lemma LateCommit() returns (t: State)
    ensures Reachable(OPEN_STATE, t) && t.db == Db(CONFIRMED_AND_PENDING, Raised(20.0, Finalized))
  {
    t := BulkMissesHeldRow();
    Records(OPEN_STATE, t, 2, Buy(Hash('b')), Bought(Hash('b')), 10.0);
    t := State(Db(t.db.rows + [Bought(Hash('b'))], Raised(20.0, Active)), map[], t.sessions[2 := Recorded(Buy(Hash('b')), 1)]);
    Commits(OPEN_STATE, t, 3, Finalized, {0}, 20.0, Active);
    assert MarkRows(t.db.rows, {0}, MarkConfirmed) == CONFIRMED_AND_PENDING;
    t := State(Db(CONFIRMED_AND_PENDING, Raised(20.0, Finalized)), map[], t.sessions[3 := Done]);
  }

  /** A reachable finalized sale with a contribution that is still pending, because it was
      validated before the bulk confirmation and committed after it: the investor can claim
      the other one, but this one can be neither claimed nor refunded. */
  lemma LateCommitStrandsContribution() returns (t: State)
    ensures Initial(OPEN_STATE) && Reachable(OPEN_STATE, t)
    ensures var db := t.db;
            && 0 in db.sales && db.sales[0].status == Finalized
            && |db.rows| == 2 && db.rows[1].status == Pending
            && ClaimCheck(db, db.rows[1].userId, 0) == Ok({0})
            && RefundCheck(db, db.rows[1].userId, 0) == Err(SaleNotRefundable)
  {
    OpenIsInitial();
    t := LateCommit();
    assert Select(CONFIRMED_AND_PENDING, ClaimableBy(1, 0)) == {0};
  }
}
