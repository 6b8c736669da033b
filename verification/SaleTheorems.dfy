/** What holds of every run of the sale protocol, and exactly which interleavings break
    the two properties that need more than the row lock. */
module SaleTheorems {
  import opened Wrappers
  import opened SaleLedger
  import opened SaleProtocol

  lemma ExecSnoc(s: State, run: seq<Action>, a: Action)
    ensures Exec(s, run + [a]) == Step(Exec(s, run), a)
  {
    assert (run + [a])[..|run|] == run;
  }

  // ---------------------------------------------------------------- all interleavings

  /** Pending, confirmed, claimed and refunded amounts partition what was raised. */
  lemma StatusesPartition(rows: seq<Contribution>, id: SaleId)
    ensures Sum(rows, InSale(id, ANY_STATUS))
         == Sum(rows, InSale(id, {Pending})) + Sum(rows, InSale(id, {Confirmed}))
          + Sum(rows, InSale(id, {Claimed})) + Sum(rows, InSale(id, {Refunded}))
  {
    SumSplit(rows, id, {Pending}, {Confirmed});
    SumSplit(rows, id, {Pending} + {Confirmed}, {Claimed});
    SumSplit(rows, id, {Pending} + {Confirmed} + {Claimed}, {Refunded});
    assert {Pending} + {Confirmed} + {Claimed} + {Refunded} == ANY_STATUS;
  }

  /** Whatever the interleaving: one row per transaction hash; total_raised is the sum of
      the sale's rows and splits by status; a non-zero hard cap is never exceeded; and no
      more is withdrawn than was raised. */
  lemma LedgerSound(s: State, run: seq<Action>, id: SaleId)
    requires Initial(s) && id in s.db.sales
    ensures var db := Exec(s, run).db;
            && UniqueTx(db.rows)
            && id in db.sales
            && var sale := db.sales[id];
               && sale.totalRaised == Sum(db.rows, InSale(id, ANY_STATUS))
               && sale.totalRaised == Sum(db.rows, InSale(id, {Pending})) + Sum(db.rows, InSale(id, {Confirmed}))
                                    + Sum(db.rows, InSale(id, {Claimed})) + Sum(db.rows, InSale(id, {Refunded}))
               && (sale.hardCap != 0.0 ==> sale.totalRaised <= sale.hardCap)
               && 0.0 <= sale.totalWithdrawn <= sale.totalRaised
  {
    ReachableInv(s, run);
    SalesStay(s, run);
    assert SaleInv(Exec(s, run).db, id);
    StatusesPartition(Exec(s, run).db.rows, id);
  }

  lemma {:induction false} SalesStay(s: State, run: seq<Action>)
    ensures Exec(s, run).db.sales.Keys == s.db.sales.Keys
    ensures forall id :: id in s.db.sales ==>
              Exec(s, run).db.sales[id].phases == s.db.sales[id].phases
              && Exec(s, run).db.sales[id].hardCap == s.db.sales[id].hardCap
  {
    if run != [] {
      SalesStay(s, run[..|run| - 1]);
      StepKeepsColumns(Exec(s, run[..|run| - 1]), run[|run| - 1]);
    }
  }

  /** No step drops a sale or touches its phases and caps. */
  lemma StepKeepsColumns(s: State, a: Action)
    ensures var t := Step(s, a).db.sales;
            && t.Keys == s.db.sales.Keys
            && forall id :: id in t ==> t[id].phases == s.db.sales[id].phases && t[id].hardCap == s.db.sales[id].hardCap
  {
    if Step(s, a).db.sales != s.db.sales {
      match a {
        case Withdraw(_, _, _, _) =>
        case Commit(_) =>
        case FinalizeCommit(_) =>
        case _ =>
      }
    }
  }

  /** A session whose commit hit the unique index always finds the row that beat it, so it
      returns that contribution and never the conflict error; and whatever a session
      reports as its contribution carries its transaction hash. */
  lemma ConflictFindsTheWinner(s: State, run: seq<Action>, sid: SessionId)
    requires Initial(s)
    ensures var t := Exec(s, run);
            sid in t.sessions ==>
              var x := t.sessions[sid];
              && x != Refused(LostAfterConflict)
              && (x.RolledBack? ==>
                    var y := Step(t, LookUp(sid)).sessions[sid];
                    y.Existing? && y.q == x.q && y.index < |t.db.rows| && t.db.rows[y.index].txHash == x.q.txHash)
              && ((x.Recorded? || x.Existing?) ==> x.index < |t.db.rows| && t.db.rows[x.index].txHash == x.q.txHash)
  {
    ReachableInv(s, run);
    var t := Exec(s, run);
    if sid in t.sessions {
      assert SessionInv(t, sid, t.sessions[sid]);
    }
  }

  // ---------------------------------------------------------------- the per-user maximum

  /** Only the database sum, never an on-chain total, limits contributions to this sale. */
  ghost predicate FallbackOnly(run: seq<Action>, id: SaleId) {
    forall a :: a in run && a.Begin? && a.q.saleId == id ==> a.q.chainTotal.None?
  }

  ghost predicate DistinctPhases(phases: seq<Phase>) {
    forall i, j :: 0 <= i < j < |phases| ==> phases[i].id != phases[j].id
  }

  ghost predicate WithinMaximum(rows: seq<Contribution>, id: SaleId, p: Phase, user: UserId, extra: real) {
    p.maxContribution > 0.0 ==> Sum(rows, ByUserAndPhase(id, user, p.id)) + extra <= p.maxContribution
  }

  ghost predicate BoundedSession(db: Db, id: SaleId, x: Session)
    requires id in db.sales
  {
    && ((x.Checked? || x.Holding?) && x.q.saleId == id ==> x.q.chainTotal.None?)
    && (x.Holding? && x.q.saleId == id ==>
          forall p :: p in db.sales[id].phases && p.id == x.row.phaseId ==>
            WithinMaximum(db.rows, id, p, x.row.userId, x.row.amount))
  }

  ghost predicate MaximumInv(s: State, id: SaleId) {
    && id in s.db.sales
    && DistinctPhases(s.db.sales[id].phases)
    && (forall p, user :: p in s.db.sales[id].phases ==> WithinMaximum(s.db.rows, id, p, user, 0.0))
    && (forall sid :: sid in s.sessions ==> BoundedSession(s.db, id, s.sessions[sid]))
  }

  /** The step inserts a row into sale id. */
  predicate InsertsInto(s: State, a: Action, id: SaleId) {
    && a.Commit? && a.sid in s.sessions
    && var x := s.sessions[a.sid];
       x.Holding? && x.row.saleId == id && id in s.db.sales && FindTx(s.db.rows, x.row.txHash).None?
  }

  /** Any other step leaves the sale's status-blind sums alone. */
  lemma OtherStepsKeepSums(s: State, a: Action, f: Filter)
    requires f.statuses == ANY_STATUS && !InsertsInto(s, a, f.saleId)
    ensures Sum(Step(s, a).db.rows, f) == Sum(s.db.rows, f)
  {
    if Step(s, a).db.rows != s.db.rows {
      match a {
        case Commit(sid) => SumAppend(s.db.rows, s.sessions[sid].row, f);
        case FinalizeCommit(sid) => MarkKeepsTotals(s.db.rows, s.sessions[sid].pending, MarkConfirmed, f);
        case ClaimCommit(sid, _, now) =>
          MarkKeepsTotals(s.db.rows, s.sessions[sid].ids, MarkClaimed(now, s.sessions[sid].tx), f);
        case RefundCommit(sid, _) =>
          MarkKeepsTotals(s.db.rows, s.sessions[sid].ids, MarkRefunded(s.sessions[sid].tx), f);
        case _ =>
      }
    }
  }

  lemma InsertKeepsMaximum(s: State, sid: SessionId, id: SaleId)
    requires Inv(s) && MaximumInv(s, id) && InsertsInto(s, Commit(sid), id)
    ensures MaximumInv(Step(s, Commit(sid)), id)
  {
    var x, s' := s.sessions[sid], Step(s, Commit(sid));
    assert SessionInv(s, sid, x) && BoundedSession(s.db, id, x);
    assert s'.db.sales[id].phases == s.db.sales[id].phases;
    forall p, user | p in s.db.sales[id].phases
      ensures WithinMaximum(s'.db.rows, id, p, user, 0.0)
    {
      assert WithinMaximum(s.db.rows, id, p, user, 0.0);
      SumAppend(s.db.rows, x.row, ByUserAndPhase(id, user, p.id));
      InAnyStatus(x.row.status);
    }
    forall o | o in s'.sessions
      ensures BoundedSession(s'.db, id, s'.sessions[o])
    {
      if o != sid {
        assert SessionInv(s, o, s.sessions[o]) && BoundedSession(s.db, id, s.sessions[o]);
      }
    }
  }

  lemma LockKeepsBound(s: State, sid: SessionId, id: SaleId)
    requires MaximumInv(s, id)
    requires sid in s.sessions && s.sessions[sid].Checked? && s.sessions[sid].q.saleId !in s.locks
    ensures BoundedSession(s.db, id, DoLock(s, sid, s.sessions[sid].q).sessions[sid])
  {
    var q := s.sessions[sid].q;
    assert BoundedSession(s.db, id, s.sessions[sid]);
    if q.saleId == id && Validate(s.db, q).Ok? {
      var row := Validate(s.db, q).value;
      var p := ValidateAccepts(s.db, q);
      var phases := s.db.sales[id].phases;
      forall p' | p' in phases && p'.id == row.phaseId
        ensures WithinMaximum(s.db.rows, id, p', row.userId, row.amount)
      {
        var i :| 0 <= i < |phases| && phases[i] == p;
        var j :| 0 <= j < |phases| && phases[j] == p';
        assert i == j;
      }
    }
  }

  /** The sessions a step opens or moves stay bounded in the database they read. */
  lemma MovedSessionBounded(s: State, a: Action, id: SaleId, o: SessionId)
    requires MaximumInv(s, id)
    requires a.Begin? && a.q.saleId == id ==> a.q.chainTotal.None?
    requires o in Step(s, a).sessions
    ensures BoundedSession(s.db, id, Step(s, a).sessions[o])
  {
    var x' := Step(s, a).sessions[o];
    if o in s.sessions && s.sessions[o] == x' {
      assert BoundedSession(s.db, id, x');
    } else if a.LockAndValidate? && x'.Holding? {
      LockKeepsBound(s, o, id);
    }
  }

  lemma StepKeepsMaximum(s: State, a: Action, id: SaleId)
    requires Inv(s) && MaximumInv(s, id)
    requires a.Begin? && a.q.saleId == id ==> a.q.chainTotal.None?
    ensures MaximumInv(Step(s, a), id)
  {
    if InsertsInto(s, a, id) {
      InsertKeepsMaximum(s, a.sid, id);
    } else {
      var s' := Step(s, a);
      StepKeepsColumns(s, a);
      forall p, user | p in s.db.sales[id].phases
        ensures WithinMaximum(s'.db.rows, id, p, user, 0.0)
      {
        assert WithinMaximum(s.db.rows, id, p, user, 0.0);
        OtherStepsKeepSums(s, a, ByUserAndPhase(id, user, p.id));
      }
      forall o | o in s'.sessions
        ensures BoundedSession(s'.db, id, s'.sessions[o])
      {
        MovedSessionBounded(s, a, id, o);
        BoundFollowsSums(s, a, id, s'.sessions[o]);
      }
    }
  }

  lemma BoundFollowsSums(s: State, a: Action, id: SaleId, x: Session)
    requires id in s.db.sales && !InsertsInto(s, a, id)
    requires BoundedSession(s.db, id, x)
    ensures id in Step(s, a).db.sales && BoundedSession(Step(s, a).db, id, x)
  {
    StepKeepsColumns(s, a);
    if x.Holding? && x.q.saleId == id {
      forall p | p in s.db.sales[id].phases && p.id == x.row.phaseId
        ensures WithinMaximum(Step(s, a).db.rows, id, p, x.row.userId, x.row.amount)
      {
        assert WithinMaximum(s.db.rows, id, p, x.row.userId, x.row.amount);
        OtherStepsKeepSums(s, a, ByUserAndPhase(id, x.row.userId, p.id));
      }
    }
  }

  lemma {:induction false} ReachableMaximum(s: State, run: seq<Action>, id: SaleId)
    requires Initial(s) && id in s.db.sales && DistinctPhases(s.db.sales[id].phases) && FallbackOnly(run, id)
    ensures MaximumInv(Exec(s, run), id)
  {
    if run == [] {
      forall p, user | p in s.db.sales[id].phases
        ensures WithinMaximum(s.db.rows, id, p, user, 0.0)
      {
        assert Sum([], ByUserAndPhase(id, user, p.id)) == 0.0;
      }
    } else {
      var front, a := run[..|run| - 1], run[|run| - 1];
      assert a in run && forall b :: b in front ==> b in run;
      ReachableMaximum(s, front, id);
      ReachableInv(s, front);
      StepKeepsMaximum(Exec(s, front), a, id);
    }
  }

  /** Where only the database fallback limits contributions, no interleaving lets a user's
      rows in one phase sum to more than the phase's maximum. */
  lemma UserMaximumHolds(s: State, run: seq<Action>, id: SaleId, p: Phase, user: UserId)
    requires Initial(s) && id in s.db.sales && DistinctPhases(s.db.sales[id].phases) && FallbackOnly(run, id)
    requires p in s.db.sales[id].phases && p.maxContribution > 0.0
    ensures Sum(Exec(s, run).db.rows, ByUserAndPhase(id, user, p.id)) <= p.maxContribution
  {
    ReachableMaximum(s, run, id);
    SalesStay(s, run);
    assert WithinMaximum(Exec(s, run).db.rows, id, p, user, 0.0);
  }

  // ---------------------------------------------------------------- statuses only climb

  /** The rows a committing step rewrites and the status it gives them. */
  function Writes(s: State, a: Action): (set<nat>, ContributionStatus) {
    if a.Withdraw? || a.sid !in s.sessions then ({}, Pending)
    else
      var x := s.sessions[a.sid];
      if a.FinalizeCommit? && x.Confirming? && x.saleId in s.db.sales && x.saleId !in s.locks then (x.pending, Confirmed)
      else if a.ClaimCommit? && x.Claiming? && a.accepted then (x.ids, Claimed)
      else if a.RefundCommit? && x.Refunding? && a.accepted then (x.ids, Refunded)
      else ({}, Pending)
  }

  predicate Ended(st: ContributionStatus) { st == Claimed || st == Refunded }

  /** A row this step is about to rewrite was claimed or refunded after the session selected it. */
  ghost predicate EndedMeanwhile(s: State, a: Action) {
    var (ids, target) := Writes(s, a);
    exists i :: i in ids && i < |s.db.rows| && Ended(s.db.rows[i].status) && s.db.rows[i].status != target
  }

  ghost predicate StatusesClimb(a: seq<Contribution>, b: seq<Contribution>) {
    |a| <= |b| && forall i :: 0 <= i < |a| ==> Climbs(a[i].status, b[i].status)
  }

  lemma StepRewrites(s: State, a: Action, i: nat)
    requires i < |s.db.rows|
    ensures |s.db.rows| <= |Step(s, a).db.rows|
    ensures Step(s, a).db.rows[i].status == if i in Writes(s, a).0 then Writes(s, a).1 else s.db.rows[i].status
  {
  }

  /** A step keeps every status climbing exactly when no row it rewrites has ended
      differently since it was selected. */
  lemma StepClimbsIff(s: State, a: Action)
    ensures StatusesClimb(s.db.rows, Step(s, a).db.rows) <==> !EndedMeanwhile(s, a)
  {
    var (ids, target) := Writes(s, a);
    var rows' := Step(s, a).db.rows;
    assert ids != {} ==> target in {Confirmed, Claimed, Refunded};
    assert |s.db.rows| <= |rows'| by {
      if |s.db.rows| > 0 { StepRewrites(s, a, 0); }
    }
    forall i | 0 <= i < |s.db.rows|
      ensures Climbs(s.db.rows[i].status, rows'[i].status)
          <==> !(i in ids && Ended(s.db.rows[i].status) && s.db.rows[i].status != target)
    {
      StepRewrites(s, a, i);
    }
  }

  lemma ClimbFurther(a: seq<Contribution>, b: seq<Contribution>, c: seq<Contribution>)
    requires StatusesClimb(a, b) && StatusesClimb(b, c)
    ensures StatusesClimb(a, c)
  {
    forall i | 0 <= i < |a| ensures Climbs(a[i].status, c[i].status) {
      ClimbsTransitive(a[i].status, b[i].status, c[i].status);
    }
  }

  ghost predicate NeverOverwrites(s: State, run: seq<Action>) {
    forall k :: 0 <= k < |run| ==> !EndedMeanwhile(Exec(s, run[..k]), run[k])
  }

  /** Statuses climb from moment j of the run to moment k. */
  ghost predicate ClimbsBetween(s: State, run: seq<Action>, j: nat, k: nat)
    requires j <= k <= |run|
  {
    StatusesClimb(Exec(s, run[..j]).db.rows, Exec(s, run[..k]).db.rows)
  }

  lemma ClimbsOnce(s: State, run: seq<Action>, k: nat)
    requires k < |run| && NeverOverwrites(s, run)
    ensures ClimbsBetween(s, run, k, k + 1)
  {
    assert run[..k + 1][..k] == run[..k] && run[..k + 1][k] == run[k];
    StepClimbsIff(Exec(s, run[..k]), run[k]);
  }

  lemma {:induction false} ChainClimbs(history: seq<seq<Contribution>>, j: nat, k: nat)
    requires j <= k < |history|
    requires forall i :: 0 <= i < |history| - 1 ==> StatusesClimb(history[i], history[i + 1])
    ensures StatusesClimb(history[j], history[k])
    decreases k
  {
    if j < k {
      ChainClimbs(history, j, k - 1);
      assert StatusesClimb(history[k - 1], history[k - 1 + 1]);
      ClimbFurther(history[j], history[k - 1], history[k]);
    }
  }

  lemma ClimbsUpTo(s: State, run: seq<Action>, j: nat, k: nat)
    requires j <= k <= |run| && NeverOverwrites(s, run)
    ensures ClimbsBetween(s, run, j, k)
  {
    var history := seq(|run| + 1, i requires 0 <= i <= |run| => Exec(s, run[..i]).db.rows);
    forall i | 0 <= i < |history| - 1
      ensures StatusesClimb(history[i], history[i + 1])
    {
      ClimbsOnce(s, run, i);
    }
    ChainClimbs(history, j, k);
  }

  /** Over a whole run the status of each row climbs between any two moments if and only if no
      step of it rewrites a row that ended after it was selected. */
  lemma RunClimbsIff(s: State, run: seq<Action>)
    ensures NeverOverwrites(s, run) <==> forall j: nat, k: nat :: j <= k <= |run| ==> ClimbsBetween(s, run, j, k)
  {
    if NeverOverwrites(s, run) {
      forall j: nat, k: nat | j <= k <= |run| ensures ClimbsBetween(s, run, j, k) { ClimbsUpTo(s, run, j, k); }
    }
    if forall j: nat, k: nat :: j <= k <= |run| ==> ClimbsBetween(s, run, j, k) {
      forall k | 0 <= k < |run|
        ensures !EndedMeanwhile(Exec(s, run[..k]), run[k])
      {
        assert ClimbsBetween(s, run, k, k + 1);
        assert run[..k + 1][..k] == run[..k];
        StepClimbsIff(Exec(s, run[..k]), run[k]);
      }
    }
  }

  /** A claim that commits in the state it read overwrites nothing. */
  lemma ImmediateClaimClimbs(s: State, sid: SessionId, user: UserId, id: SaleId, tx: Option<TxHash>, accepted: bool, now: real)
    requires sid !in s.sessions
    ensures !EndedMeanwhile(Step(s, ClaimRead(sid, user, id, tx)), ClaimCommit(sid, accepted, now))
  {
  }

  /** Nor does such a refund. */
  lemma ImmediateRefundClimbs(s: State, sid: SessionId, user: UserId, id: SaleId, tx: Option<TxHash>, accepted: bool)
    requires sid !in s.sessions
    ensures !EndedMeanwhile(Step(s, RefundRead(sid, user, id, tx)), RefundCommit(sid, accepted))
  {
  }

  /** Nor does such a finalization. */
  lemma ImmediateFinalizeClimbs(s: State, sid: SessionId, user: UserId, id: SaleId)
    requires sid !in s.sessions
    ensures !EndedMeanwhile(Step(Step(s, FinalizeRead(sid, user, id)), FinalizeConfirm(sid)), FinalizeCommit(sid))
  {
  }

  // ---------------------------------------------------------------- solvency

  /** Refunds and withdrawals never meet on one sale. */
  ghost predicate NoRefunds(rows: seq<Contribution>, id: SaleId) {
    forall i :: 0 <= i < |rows| && rows[i].saleId == id ==> rows[i].status != Refunded
  }

  ghost predicate Exclusive(db: Db, id: SaleId)
    requires id in db.sales
  {
    && (!db.sales[id].Refundable() ==> NoRefunds(db.rows, id))
    && (db.sales[id].status != Finalized ==> db.sales[id].totalWithdrawn == 0.0)
  }

  ghost predicate RefundSessionsInv(s: State) {
    forall sid :: sid in s.sessions && s.sessions[sid].Refunding? ==>
      s.sessions[sid].saleId in s.db.sales && s.db.sales[s.sessions[sid].saleId].Refundable()
  }

  ghost predicate SolvencyInv(s: State) {
    RefundSessionsInv(s) && forall id :: id in s.db.sales ==> Exclusive(s.db, id)
  }

  /** The step commits a finalization. */
  predicate Finalizes(s: State, a: Action) {
    && a.FinalizeCommit? && a.sid in s.sessions
    && var x := s.sessions[a.sid];
       x.Confirming? && x.saleId in s.db.sales && x.saleId !in s.locks
  }

  /** A refunded contribution of the sale outlasts the bulk confirmation. */
  ghost predicate RefundStays(rows: seq<Contribution>, id: SaleId, pending: set<nat>) {
    exists i :: 0 <= i < |rows| && i !in pending && rows[i].saleId == id && rows[i].status == Refunded
  }

  ghost predicate RefundOpen(s: State, id: SaleId) {
    exists sid :: sid in s.sessions && s.sessions[sid].Refunding? && s.sessions[sid].saleId == id
  }

  /** A finalization is about to let refunds and withdrawals meet: it finalizes a sale with a
      refund made or under way, or fails one that money was withdrawn from. */
  ghost predicate Crosses(s: State, a: Action) {
    && Finalizes(s, a)
    && var x := s.sessions[a.sid];
       if x.decision == Finalized then RefundStays(s.db.rows, x.saleId, x.pending) || RefundOpen(s, x.saleId)
       else s.db.sales[x.saleId].totalWithdrawn != 0.0
  }

  /** Only a finalization that no longer finds its sale active can do that. */
  lemma CrossingIsStale(s: State, a: Action)
    requires SolvencyInv(s) && Crosses(s, a)
    ensures s.db.sales[s.sessions[a.sid].saleId].status != Active
  {
    assert Exclusive(s.db, s.sessions[a.sid].saleId);
  }

  /** Every other step leaves the statuses of the sales alone, and withdraws from finalized ones. */
  lemma StatusKept(s: State, a: Action, id: SaleId)
    requires id in s.db.sales && !Finalizes(s, a)
    ensures id in Step(s, a).db.sales
    ensures var sale, sale' := s.db.sales[id], Step(s, a).db.sales[id];
            && sale'.status == sale.status
            && (sale'.totalWithdrawn != sale.totalWithdrawn ==> sale.status == Finalized)
  {
  }

  lemma StepKeepsSaleOfRow(s: State, a: Action, i: nat)
    requires i < |s.db.rows|
    ensures |s.db.rows| <= |Step(s, a).db.rows| && Step(s, a).db.rows[i].saleId == s.db.rows[i].saleId
  {
  }

  lemma NewRowsAreOpen(s: State, a: Action, i: nat)
    requires Inv(s)
    requires |s.db.rows| <= i < |Step(s, a).db.rows|
    ensures Step(s, a).db.rows[i].status in {Pending, Confirmed}
  {
    assert a.Commit?;
    assert SessionInv(s, a.sid, s.sessions[a.sid]);
  }

  /** A row becomes refunded only through a refund session of its own sale. */
  lemma RefundsComeFromSessions(s: State, a: Action, i: nat)
    requires Inv(s)
    requires i < |Step(s, a).db.rows| && Step(s, a).db.rows[i].status == Refunded
    ensures (i < |s.db.rows| && s.db.rows[i].status == Refunded && s.db.rows[i].saleId == Step(s, a).db.rows[i].saleId)
         || (a.RefundCommit? && a.sid in s.sessions && s.sessions[a.sid].Refunding?
             && s.sessions[a.sid].saleId == Step(s, a).db.rows[i].saleId)
  {
    if i < |s.db.rows| {
      StepRewrites(s, a, i);
      StepKeepsSaleOfRow(s, a, i);
      if i in Writes(s, a).0 {
        assert SessionInv(s, a.sid, s.sessions[a.sid]);
      }
    } else {
      NewRowsAreOpen(s, a, i);
    }
  }

  lemma StepKeepsExclusive(s: State, a: Action, id: SaleId)
    requires Inv(s) && SolvencyInv(s) && !Finalizes(s, a)
    requires id in s.db.sales
    ensures id in Step(s, a).db.sales && Exclusive(Step(s, a).db, id)
  {
    var s' := Step(s, a);
    assert Exclusive(s.db, id);
    StatusKept(s, a, id);
    if !s'.db.sales[id].Refundable() {
      forall i | 0 <= i < |s'.db.rows| && s'.db.rows[i].saleId == id
        ensures s'.db.rows[i].status != Refunded
      {
        if s'.db.rows[i].status == Refunded {
          RefundsComeFromSessions(s, a, i);
        }
      }
    }
  }

  lemma RefundSessionSource(s: State, a: Action, sid: SessionId)
    requires RefundSessionsInv(s)
    requires sid in Step(s, a).sessions && Step(s, a).sessions[sid].Refunding?
    ensures var id := Step(s, a).sessions[sid].saleId; id in s.db.sales && s.db.sales[id].Refundable()
  {
    if sid in s.sessions && s.sessions[sid] == Step(s, a).sessions[sid] {
    } else {
      assert a.RefundRead?;
    }
  }

  lemma OtherStepsKeepSolvency(s: State, a: Action)
    requires Inv(s) && SolvencyInv(s) && !Finalizes(s, a)
    ensures SolvencyInv(Step(s, a))
  {
    var s' := Step(s, a);
    StepKeepsColumns(s, a);
    forall id | id in s'.db.sales
      ensures Exclusive(s'.db, id)
    {
      StepKeepsExclusive(s, a, id);
    }
    forall sid | sid in s'.sessions && s'.sessions[sid].Refunding?
      ensures s'.sessions[sid].saleId in s'.db.sales && s'.db.sales[s'.sessions[sid].saleId].Refundable()
    {
      RefundSessionSource(s, a, sid);
      StatusKept(s, a, s'.sessions[sid].saleId);
    }
  }

  /** A finalization touches no other sale. */
  lemma FinalizeKeepsOthers(s: State, a: Action, id: SaleId)
    requires Inv(s) && Finalizes(s, a) && id in s.db.sales && id != s.sessions[a.sid].saleId && Exclusive(s.db, id)
    ensures Exclusive(Step(s, a).db, id)
  {
    assert SessionInv(s, a.sid, s.sessions[a.sid]);
  }

  lemma ConfirmedRefunds(rows: seq<Contribution>, id: SaleId, pending: set<nat>)
    ensures NoRefunds(MarkRows(rows, pending, MarkConfirmed), id) <==> !RefundStays(rows, id, pending)
  {
    var rows' := MarkRows(rows, pending, MarkConfirmed);
    forall i | 0 <= i < |rows|
      ensures rows'[i].saleId == rows[i].saleId
      ensures rows'[i].status == Refunded <==> i !in pending && rows[i].status == Refunded
    {
    }
  }

  lemma FinalizeResult(s: State, a: Action)
    requires Finalizes(s, a)
    ensures var x := s.sessions[a.sid];
            && Step(s, a).db == Db(MarkRows(s.db.rows, x.pending, MarkConfirmed),
                                   s.db.sales[x.saleId := s.db.sales[x.saleId].(status := x.decision)])
            && Step(s, a).sessions == s.sessions[a.sid := Done]
  {
  }

  lemma FinalizeExclusiveIff(s: State, a: Action)
    requires SolvencyInv(s) && Finalizes(s, a) && s.sessions[a.sid].decision in {Finalized, Failed}
    ensures var x := s.sessions[a.sid];
            Exclusive(Step(s, a).db, x.saleId)
            <==> if x.decision == Finalized then !RefundStays(s.db.rows, x.saleId, x.pending)
                 else s.db.sales[x.saleId].totalWithdrawn == 0.0
  {
    var x := s.sessions[a.sid];
    FinalizeResult(s, a);
    ConfirmedRefunds(s.db.rows, x.saleId, x.pending);
  }

  lemma FinalizeSessionsIff(s: State, a: Action)
    requires SolvencyInv(s) && Finalizes(s, a) && s.sessions[a.sid].decision in {Finalized, Failed}
    ensures var x := s.sessions[a.sid];
            RefundSessionsInv(Step(s, a)) <==> !(x.decision == Finalized && RefundOpen(s, x.saleId))
  {
    var x, s' := s.sessions[a.sid], Step(s, a);
    FinalizeResult(s, a);
    forall sid | sid in s'.sessions && s'.sessions[sid].Refunding?
      ensures s'.db.sales[s'.sessions[sid].saleId].Refundable() <==> !(x.decision == Finalized && s'.sessions[sid].saleId == x.saleId)
    {
      assert s'.sessions[sid] == s.sessions[sid];
    }
    if x.decision == Finalized && RefundOpen(s, x.saleId) {
      var sid :| sid in s.sessions && s.sessions[sid].Refunding? && s.sessions[sid].saleId == x.saleId;
      assert s'.sessions[sid] == s.sessions[sid];
    }
  }

  /** A step keeps refunds and withdrawals apart if and only if it is no such finalization. */
  lemma StepSolvencyIff(s: State, a: Action)
    requires Inv(s) && SolvencyInv(s)
    ensures SolvencyInv(Step(s, a)) <==> !Crosses(s, a)
  {
    if Finalizes(s, a) {
      var s' := Step(s, a);
      StepKeepsColumns(s, a);
      assert SessionInv(s, a.sid, s.sessions[a.sid]);
      FinalizeExclusiveIff(s, a);
      FinalizeSessionsIff(s, a);
      forall id | id in s.db.sales && id != s.sessions[a.sid].saleId
        ensures Exclusive(s'.db, id)
      {
        FinalizeKeepsOthers(s, a, id);
      }
    } else {
      OtherStepsKeepSolvency(s, a);
    }
  }

  ghost predicate NeverCrosses(s: State, run: seq<Action>) {
    forall k :: 0 <= k < |run| ==> !Crosses(Exec(s, run[..k]), run[k])
  }

  lemma InitialSolvency(s: State)
    requires Initial(s)
    ensures SolvencyInv(s)
  {
  }

  lemma {:induction false} ReachableSolvency(s: State, run: seq<Action>)
    requires Initial(s) && NeverCrosses(s, run)
    ensures SolvencyInv(Exec(s, run))
  {
    if run == [] {
      InitialSolvency(s);
    } else {
      var front, a := run[..|run| - 1], run[|run| - 1];
      forall k | 0 <= k < |front|
        ensures !Crosses(Exec(s, front[..k]), front[k])
      {
        assert front[..k] == run[..k];
      }
      ReachableSolvency(s, front);
      ReachableInv(s, front);
      assert !Crosses(Exec(s, front), a);
      StepSolvencyIff(Exec(s, front), a);
    }
  }

  /** Kept apart on every sale, the two payouts never exceed what was raised. */
  lemma SolventState(s: State, id: SaleId)
    requires Inv(s) && SolvencyInv(s) && id in s.db.sales
    ensures s.db.sales[id].totalWithdrawn + Sum(s.db.rows, InSale(id, {Refunded})) <= s.db.sales[id].totalRaised
  {
    var db := s.db;
    assert SaleInv(db, id) && Exclusive(db, id);
    StatusesPartition(db.rows, id);
    if db.sales[id].Refundable() {
      SumNonNegative(db.rows, InSale(id, {Pending}));
      SumNonNegative(db.rows, InSale(id, {Confirmed}));
      SumNonNegative(db.rows, InSale(id, {Claimed}));
    } else {
      SumOfNone(db.rows, InSale(id, {Refunded}));
    }
  }

  /** As long as no finalization crosses, whatever else interleaves, what was withdrawn and what
      was refunded together never exceed what was raised. */
  lemma Solvent(s: State, run: seq<Action>, id: SaleId)
    requires Initial(s) && id in s.db.sales && NeverCrosses(s, run)
    ensures var db := Exec(s, run).db;
            id in db.sales
            && db.sales[id].totalWithdrawn + Sum(db.rows, InSale(id, {Refunded})) <= db.sales[id].totalRaised
  {
    SalesStay(s, run);
    ReachableInv(s, run);
    ReachableSolvency(s, run);
    SolventState(Exec(s, run), id);
  }

  // ---------------------------------------------------------------- uninterrupted calls

  /** A contribute step of any session, a withdrawal, or a whole finalize, claim or refund. */
  datatype Call =
    | Plain(a: Action)
    | FinalizeCall(sid: SessionId, user: UserId, saleId: SaleId)
    | ClaimCall(sid: SessionId, user: UserId, saleId: SaleId, tx: Option<TxHash>, accepted: bool, now: real)
    | RefundCall(sid: SessionId, user: UserId, saleId: SaleId, tx: Option<TxHash>, accepted: bool)

  predicate IsPlain(a: Action) {
    a.Begin? || a.LockAndValidate? || a.Commit? || a.Abort? || a.LookUp? || a.Withdraw?
  }

  /** A finalization waits for the lock on the sale row. */
  function Perform(s: State, c: Call): State {
    match c
    case Plain(a) => if IsPlain(a) then Step(s, a) else s
    case FinalizeCall(sid, user, id) =>
      if sid in s.sessions || id in s.locks then s
      else Step(Step(Step(s, FinalizeRead(sid, user, id)), FinalizeConfirm(sid)), FinalizeCommit(sid))
    case ClaimCall(sid, user, id, tx, accepted, now) =>
      if sid in s.sessions then s else Step(Step(s, ClaimRead(sid, user, id, tx)), ClaimCommit(sid, accepted, now))
    case RefundCall(sid, user, id, tx, accepted) =>
      if sid in s.sessions then s else Step(Step(s, RefundRead(sid, user, id, tx)), RefundCommit(sid, accepted))
  }

  function PerformAll(s: State, calls: seq<Call>): State {
    if calls == [] then s else Perform(PerformAll(s, calls[..|calls| - 1]), calls[|calls| - 1])
  }

  lemma PlainNeverOverwrites(s: State, a: Action)
    requires IsPlain(a)
    ensures !EndedMeanwhile(s, a) && !Finalizes(s, a)
  {
  }

  lemma OpeningChangesNothing(s: State, a: Action)
    requires a.FinalizeRead? || a.FinalizeConfirm? || a.ClaimRead? || a.RefundRead?
    ensures Step(s, a).db == s.db
  {
  }

  lemma CallClimbs(s: State, c: Call)
    ensures StatusesClimb(s.db.rows, Perform(s, c).db.rows)
  {
    match c
    case Plain(a) =>
      if IsPlain(a) { PlainNeverOverwrites(s, a); StepClimbsIff(s, a); }
    case FinalizeCall(sid, user, id) =>
      if sid !in s.sessions {
        var t := Step(s, FinalizeRead(sid, user, id));
        OpeningChangesNothing(s, FinalizeRead(sid, user, id));
        OpeningChangesNothing(t, FinalizeConfirm(sid));
        ImmediateFinalizeClimbs(s, sid, user, id);
        StepClimbsIff(Step(t, FinalizeConfirm(sid)), FinalizeCommit(sid));
      }
    case ClaimCall(sid, user, id, tx, accepted, now) =>
      if sid !in s.sessions {
        OpeningChangesNothing(s, ClaimRead(sid, user, id, tx));
        ImmediateClaimClimbs(s, sid, user, id, tx, accepted, now);
        StepClimbsIff(Step(s, ClaimRead(sid, user, id, tx)), ClaimCommit(sid, accepted, now));
      }
    case RefundCall(sid, user, id, tx, accepted) =>
      if sid !in s.sessions {
        OpeningChangesNothing(s, RefundRead(sid, user, id, tx));
        ImmediateRefundClimbs(s, sid, user, id, tx, accepted);
        StepClimbsIff(Step(s, RefundRead(sid, user, id, tx)), RefundCommit(sid, accepted));
      }
  }

  /** In every run of uninterrupted calls, among any contribute sessions in any interleaving, the
      status of each contribution only climbs, between any two moments. */
  lemma {:induction false} CallsOnlyClimb(s: State, calls: seq<Call>, k: nat)
    requires k <= |calls|
    ensures StatusesClimb(PerformAll(s, calls[..k]).db.rows, PerformAll(s, calls).db.rows)
  {
    if k == |calls| {
      assert calls[..k] == calls;
    } else {
      var front := calls[..|calls| - 1];
      assert front[..k] == calls[..k];
      CallsOnlyClimb(s, front, k);
      CallClimbs(PerformAll(s, front), calls[|calls| - 1]);
      ClimbFurther(PerformAll(s, calls[..k]).db.rows, PerformAll(s, front).db.rows, PerformAll(s, calls).db.rows);
    }
  }

  lemma StepKeepsBoth(s: State, a: Action)
    requires Inv(s) && SolvencyInv(s) && !Crosses(s, a)
    ensures Inv(Step(s, a)) && SolvencyInv(Step(s, a))
  {
    StepKeepsInv(s, a);
    StepSolvencyIff(s, a);
  }

  /** A finalization that commits in the state it read still finds its sale active. */
  lemma ImmediateFinalizeIsFresh(s: State, sid: SessionId, user: UserId, id: SaleId)
    requires sid !in s.sessions
    ensures var t := Step(Step(s, FinalizeRead(sid, user, id)), FinalizeConfirm(sid));
            Finalizes(t, FinalizeCommit(sid)) ==> t.db.sales[t.sessions[sid].saleId].status == Active
  {
  }

  lemma CallKeepsBoth(s: State, c: Call)
    requires Inv(s) && SolvencyInv(s)
    ensures Inv(Perform(s, c)) && SolvencyInv(Perform(s, c))
  {
    match c
    case Plain(a) =>
      if IsPlain(a) { PlainNeverOverwrites(s, a); StepKeepsBoth(s, a); }
    case FinalizeCall(sid, user, id) =>
      if sid !in s.sessions && id !in s.locks {
        var t := Step(s, FinalizeRead(sid, user, id));
        var u := Step(t, FinalizeConfirm(sid));
        StepKeepsBoth(s, FinalizeRead(sid, user, id));
        StepKeepsBoth(t, FinalizeConfirm(sid));
        ImmediateFinalizeIsFresh(s, sid, user, id);
        if Crosses(u, FinalizeCommit(sid)) { CrossingIsStale(u, FinalizeCommit(sid)); }
        StepKeepsBoth(u, FinalizeCommit(sid));
      }
    case ClaimCall(sid, user, id, tx, accepted, now) =>
      if sid !in s.sessions {
        StepKeepsBoth(s, ClaimRead(sid, user, id, tx));
        StepKeepsBoth(Step(s, ClaimRead(sid, user, id, tx)), ClaimCommit(sid, accepted, now));
      }
    case RefundCall(sid, user, id, tx, accepted) =>
      if sid !in s.sessions {
        StepKeepsBoth(s, RefundRead(sid, user, id, tx));
        StepKeepsBoth(Step(s, RefundRead(sid, user, id, tx)), RefundCommit(sid, accepted));
      }
  }

  lemma {:induction false} CallsKeepBoth(s: State, calls: seq<Call>)
    requires Initial(s)
    ensures Inv(PerformAll(s, calls)) && SolvencyInv(PerformAll(s, calls))
  {
    if calls == [] {
      InitialInv(s);
      InitialSolvency(s);
    } else {
      CallsKeepBoth(s, calls[..|calls| - 1]);
      CallKeepsBoth(PerformAll(s, calls[..|calls| - 1]), calls[|calls| - 1]);
    }
  }

  /** And withdrawn plus refunded never exceeds raised. */
  lemma CallsSolvent(s: State, calls: seq<Call>, id: SaleId)
    requires Initial(s) && id in PerformAll(s, calls).db.sales
    ensures var db := PerformAll(s, calls).db;
            db.sales[id].totalWithdrawn + Sum(db.rows, InSale(id, {Refunded})) <= db.sales[id].totalRaised
  {
    CallsKeepBoth(s, calls);
    SolventState(PerformAll(s, calls), id);
  }

  /** After a successful finalization the pending contributions of the sale are exactly those
      that the bulk confirmation did not see: the ones committed after it. */
  lemma FinalizeLeavesUnseenPending(s: State, sid: SessionId)
    requires sid in s.sessions && s.sessions[sid].Confirming?
    requires var x := s.sessions[sid]; x.saleId in s.db.sales && x.saleId !in s.locks
    ensures var x, rows, rows' := s.sessions[sid], s.db.rows, Step(s, FinalizeCommit(sid)).db.rows;
            Select(rows', PendingOf(x.saleId)) == Select(rows, PendingOf(x.saleId)) - x.pending
  {
    var x, rows := s.sessions[sid], s.db.rows;
    var rows' := Step(s, FinalizeCommit(sid)).db.rows;
    forall i: nat
      ensures i in Select(rows', PendingOf(x.saleId)) <==> i in Select(rows, PendingOf(x.saleId)) && i !in x.pending
    {
      if i < |rows| { assert rows'[i].saleId == rows[i].saleId; }
    }
  }
}
