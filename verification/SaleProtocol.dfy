/** Any number of concurrent sessions over the sale ledger. contribute checks for a
    duplicate tx_hash outside the row lock, locks and validates, and commits against the
    unique index; finalize, claim and refund read without a lock and write when they
    commit. Step is total: an action that is not enabled leaves the state unchanged, so a
    run is any sequence of actions. */
module SaleProtocol {
  import opened Wrappers
  import opened SaleLedger

  type SessionId = nat

  datatype Session =
    | Checked(q: Request)
    | Holding(q: Request, row: Contribution, newTotal: real)
    | RolledBack(q: Request)
    | Recorded(q: Request, index: nat)
    | Existing(q: Request, index: nat)
    | Finalizing(saleId: SaleId, decision: SaleStatus)
    | Confirming(saleId: SaleId, decision: SaleStatus, pending: set<nat>)
    | Claiming(saleId: SaleId, ids: set<nat>, tx: Option<TxHash>)
    | Refunding(saleId: SaleId, ids: set<nat>, tx: Option<TxHash>)
    | Done
    | Refused(why: Refusal)

  /** locks holds the SELECT ... FOR UPDATE owners of the sale rows. */
  datatype State = State(db: Db, locks: map<SaleId, SessionId>, sessions: map<SessionId, Session>)

  datatype Action =
    | Begin(sid: SessionId, q: Request)
    | LockAndValidate(sid: SessionId)
    | Commit(sid: SessionId)
    | Abort(sid: SessionId)
    | LookUp(sid: SessionId)
    | FinalizeRead(sid: SessionId, user: UserId, saleId: SaleId)
    | FinalizeConfirm(sid: SessionId)
    | FinalizeCommit(sid: SessionId)
    | ClaimRead(sid: SessionId, user: UserId, saleId: SaleId, tx: Option<TxHash>)
    | ClaimCommit(sid: SessionId, accepted: bool, now: real)
    | RefundRead(sid: SessionId, user: UserId, saleId: SaleId, tx: Option<TxHash>)
    | RefundCommit(sid: SessionId, accepted: bool)
    | Withdraw(issuer: UserId, saleId: SaleId, amount: real, transferOk: bool)

  // ---------------------------------------------------------------- the step function

  function Put(s: State, sid: SessionId, x: Session): State {
    s.(sessions := s.sessions[sid := x])
  }

  function Unlock(s: State, id: SaleId): State {
    s.(locks := s.locks - {id})
  }

  function BeginOutcome(db: Db, q: Request): Session {
    match Admission(db, q)
    case Some(e) => Refused(e)
    case None => Checked(q)
  }

  function FinalizeOutcome(db: Db, user: UserId, id: SaleId): Session {
    match FinalizeCheck(db, user, id)
    case Ok(d) => Finalizing(id, d)
    case Err(e) => Refused(e)
  }

  function ClaimOutcome(db: Db, user: UserId, id: SaleId, tx: Option<TxHash>): Session {
    match ClaimCheck(db, user, id)
    case Ok(ids) => Claiming(id, ids, tx)
    case Err(e) => Refused(e)
  }

  function RefundOutcome(db: Db, user: UserId, id: SaleId, tx: Option<TxHash>): Session {
    match RefundCheck(db, user, id)
    case Ok(ids) => Refunding(id, ids, tx)
    case Err(e) => Refused(e)
  }

  function ConfirmOutcome(db: Db, x: Session): Session
    requires x.Finalizing?
  {
    Confirming(x.saleId, x.decision, if x.decision == Finalized then Select(db.rows, PendingOf(x.saleId)) else {})
  }

  function LookUpOutcome(db: Db, q: Request): Session {
    match FindTx(db.rows, q.txHash)
    case Some(i) => Existing(q, i)
    case None => Refused(LostAfterConflict)
  }

  function DoLock(s: State, sid: SessionId, q: Request): State {
    match Validate(s.db, q)
    case Err(e) => Put(s, sid, Refused(e))
    case Ok(row) =>
      var total := s.db.sales[q.saleId].totalRaised + row.amount;
      Put(s, sid, Holding(q, row, total)).(locks := s.locks[q.saleId := sid])
  }

  function DoCommit(s: State, sid: SessionId, x: Session): State
    requires x.Holding? && x.row.saleId in s.db.sales
  {
    if FindTx(s.db.rows, x.row.txHash).Some?
    then Unlock(Put(s, sid, RolledBack(x.q)), x.q.saleId)
    else Unlock(Put(s, sid, Recorded(x.q, |s.db.rows|)), x.q.saleId).(db := Insert(s.db, x.row, x.newTotal))
  }

  function DoFinalizeCommit(s: State, sid: SessionId, x: Session): State
    requires x.Confirming? && x.saleId in s.db.sales
  {
    var db := SetStatus(s.db, x.saleId, x.decision);
    Put(s, sid, Done).(db := db.(rows := MarkRows(db.rows, x.pending, MarkConfirmed)))
  }

  function DoMark(s: State, sid: SessionId, ids: set<nat>, m: Mark): State {
    Put(s, sid, Done).(db := s.db.(rows := MarkRows(s.db.rows, ids, m)))
  }

  function Step(s: State, a: Action): State {
    match a
    case Begin(sid, q) =>
      if sid in s.sessions then s else Put(s, sid, BeginOutcome(s.db, q))
    case FinalizeRead(sid, user, id) =>
      if sid in s.sessions then s else Put(s, sid, FinalizeOutcome(s.db, user, id))
    case ClaimRead(sid, user, id, tx) =>
      if sid in s.sessions then s else Put(s, sid, ClaimOutcome(s.db, user, id, tx))
    case RefundRead(sid, user, id, tx) =>
      if sid in s.sessions then s else Put(s, sid, RefundOutcome(s.db, user, id, tx))
    case Withdraw(issuer, id, amount, transferOk) =>
      if id in s.locks || WithdrawCheck(s.db, issuer, id, amount, transferOk).Some? then s
      else s.(db := RecordWithdrawal(s.db, id, amount))
    case _ =>
      if a.sid !in s.sessions then s else Advance(s, a, s.sessions[a.sid])
  }

  /** The actions that continue an open session x. */
  function Advance(s: State, a: Action, x: Session): State
    requires !a.Withdraw?
  {
    match a
    case LockAndValidate(sid) =>
      if x.Checked? && x.q.saleId !in s.locks then DoLock(s, sid, x.q) else s
    case Commit(sid) =>
      if x.Holding? && x.row.saleId in s.db.sales then DoCommit(s, sid, x) else s
    case Abort(sid) =>
      if x.Holding? then Unlock(Put(s, sid, Refused(ServerError)), x.q.saleId)
      else if x.Recorded? || x.Existing? || x.Done? || x.Refused? then s
      else Put(s, sid, Refused(ServerError))
    case LookUp(sid) =>
      if x.RolledBack? then Put(s, sid, LookUpOutcome(s.db, x.q)) else s
    case FinalizeConfirm(sid) =>
      if x.Finalizing? then Put(s, sid, ConfirmOutcome(s.db, x)) else s
    case FinalizeCommit(sid) =>
      if x.Confirming? && x.saleId in s.db.sales && x.saleId !in s.locks then DoFinalizeCommit(s, sid, x) else s
    case ClaimCommit(sid, accepted, now) =>
      if !x.Claiming? then s
      else if accepted then DoMark(s, sid, x.ids, MarkClaimed(now, x.tx))
      else Put(s, sid, Refused(ChainRejected))
    case RefundCommit(sid, accepted) =>
      if !x.Refunding? then s
      else if accepted then DoMark(s, sid, x.ids, MarkRefunded(x.tx))
      else Put(s, sid, Refused(ChainRejected))
    case _ => s
  }

  function Exec(s: State, run: seq<Action>): State {
    if run == [] then s else Step(Exec(s, run[..|run| - 1]), run[|run| - 1])
  }

  // ---------------------------------------------------------------- the invariant

  /** No rows yet, nothing raised or withdrawn, nobody connected. */
  ghost predicate Initial(s: State) {
    && s.db.rows == [] && s.locks == map[] && s.sessions == map[]
    && forall id :: id in s.db.sales ==>
         var sale := s.db.sales[id];
         sale.totalRaised == 0.0 && sale.totalWithdrawn == 0.0 && sale.hardCap >= 0.0
  }

  ghost predicate RowsInv(db: Db) {
    && UniqueTx(db.rows)
    && forall i :: 0 <= i < |db.rows| ==> db.rows[i].saleId in db.sales && db.rows[i].amount >= 0.0
  }

  ghost predicate SaleInv(db: Db, id: SaleId)
    requires id in db.sales
  {
    var sale := db.sales[id];
    && sale.totalRaised == Sum(db.rows, InSale(id, ANY_STATUS))
    && (sale.hardCap != 0.0 ==> sale.totalRaised <= sale.hardCap)
    && 0.0 <= sale.totalWithdrawn <= sale.totalRaised
  }

  ghost predicate LedgerInv(db: Db) {
    RowsInv(db) && forall id :: id in db.sales ==> SaleInv(db, id)
  }

  ghost predicate IdsInSale(rows: seq<Contribution>, ids: set<nat>, id: SaleId) {
    forall i :: i in ids ==> i < |rows| && rows[i].saleId == id
  }

  /** A session that holds a sale row still sees the row as it read it. */
  ghost predicate HoldingInv(s: State, sid: SessionId, x: Session)
    requires x.Holding?
  {
    && x.q.saleId in s.db.sales
    && x.q.saleId in s.locks && s.locks[x.q.saleId] == sid
    && x.row.saleId == x.q.saleId && x.row.txHash == x.q.txHash && x.row.userId == x.q.userId
    && x.row.amount >= 0.0 && x.row.status in {Pending, Confirmed}
    && var sale := s.db.sales[x.q.saleId];
       && sale.status == Active
       && x.newTotal == sale.totalRaised + x.row.amount
       && (sale.hardCap != 0.0 ==> x.newTotal <= sale.hardCap)
  }

  ghost predicate SessionInv(s: State, sid: SessionId, x: Session) {
    match x
    case Checked(q) => q.amount > 0.0
    case Holding(_, _, _) => HoldingInv(s, sid, x)
    case RolledBack(q) => HasTx(s.db.rows, q.txHash)
    case Recorded(q, i) => i < |s.db.rows| && s.db.rows[i].txHash == q.txHash
    case Existing(q, i) => i < |s.db.rows| && s.db.rows[i].txHash == q.txHash
    case Finalizing(id, d) => id in s.db.sales && d in {Finalized, Failed}
    case Confirming(id, d, ids) => id in s.db.sales && d in {Finalized, Failed} && IdsInSale(s.db.rows, ids, id)
    case Claiming(id, ids, _) => IdsInSale(s.db.rows, ids, id)
    case Refunding(id, ids, _) => id in s.db.sales && IdsInSale(s.db.rows, ids, id)
    case Done => true
    case Refused(why) => why != LostAfterConflict
  }

  ghost predicate LocksInv(s: State) {
    forall id :: id in s.locks ==>
      && s.locks[id] in s.sessions
      && s.sessions[s.locks[id]].Holding?
      && s.sessions[s.locks[id]].q.saleId == id
  }

  ghost predicate SessionsInv(s: State) {
    && LocksInv(s)
    && forall sid :: sid in s.sessions ==> SessionInv(s, sid, s.sessions[sid])
  }

  ghost predicate Inv(s: State) {
    LedgerInv(s.db) && SessionsInv(s)
  }

  /** Rows are only ever appended, and only their status columns are rewritten. */
  ghost predicate Extends(a: seq<Contribution>, b: seq<Contribution>) {
    && |a| <= |b|
    && forall i :: 0 <= i < |a| ==>
         && a[i].txHash == b[i].txHash && a[i].saleId == b[i].saleId && a[i].amount == b[i].amount
         && a[i].userId == b[i].userId && a[i].phaseId == b[i].phaseId
  }

  lemma MarkExtends(rows: seq<Contribution>, ids: set<nat>, m: Mark)
    ensures Extends(rows, MarkRows(rows, ids, m))
  {
  }

  lemma InitialInv(s: State)
    requires Initial(s)
    ensures Inv(s)
  {
    forall id | id in s.db.sales
      ensures SaleInv(s.db, id)
    {
      assert Sum([], InSale(id, ANY_STATUS)) == 0.0;
    }
  }

  lemma MarkKeepsTotals(rows: seq<Contribution>, ids: set<nat>, m: Mark, f: Filter)
    requires f.statuses == ANY_STATUS
    ensures Sum(MarkRows(rows, ids, m), f) == Sum(rows, f)
  {
    var rows' := MarkRows(rows, ids, m);
    forall i | 0 <= i < |rows|
      ensures Matches(rows[i], f) <==> Matches(rows'[i], f)
    {
      InAnyStatus(rows[i].status);
      InAnyStatus(rows'[i].status);
    }
    SumPointwise(rows, rows', f);
  }

  lemma MarkKeepsLedger(db: Db, ids: set<nat>, m: Mark)
    requires LedgerInv(db)
    ensures LedgerInv(db.(rows := MarkRows(db.rows, ids, m)))
  {
    var db' := db.(rows := MarkRows(db.rows, ids, m));
    forall id | id in db'.sales
      ensures SaleInv(db', id)
    {
      assert SaleInv(db, id);
      MarkKeepsTotals(db.rows, ids, m, InSale(id, ANY_STATUS));
    }
  }

  lemma InsertKeepsLedger(db: Db, row: Contribution)
    requires LedgerInv(db)
    requires row.saleId in db.sales && row.amount >= 0.0 && !HasTx(db.rows, row.txHash)
    requires var sale := db.sales[row.saleId];
             sale.hardCap != 0.0 ==> sale.totalRaised + row.amount <= sale.hardCap
    ensures LedgerInv(Insert(db, row, db.sales[row.saleId].totalRaised + row.amount))
  {
    var db' := Insert(db, row, db.sales[row.saleId].totalRaised + row.amount);
    forall id | id in db'.sales
      ensures SaleInv(db', id)
    {
      assert SaleInv(db, id);
      InAnyStatus(row.status);
      SumAppend(db.rows, row, InSale(id, ANY_STATUS));
    }
  }

  lemma SaleFieldsKeepLedger(db: Db, id: SaleId, sale: Sale)
    requires LedgerInv(db) && id in db.sales
    requires sale.totalRaised == db.sales[id].totalRaised && sale.hardCap == db.sales[id].hardCap
    requires 0.0 <= sale.totalWithdrawn <= sale.totalRaised
    ensures LedgerInv(db.(sales := db.sales[id := sale]))
  {
    var db' := db.(sales := db.sales[id := sale]);
    forall k | k in db'.sales
      ensures SaleInv(db', k)
    {
      assert SaleInv(db, k);
    }
  }

  /** What a step of session sid may change: its own session, its own locks, the sale rows
      nobody else holds, and the contribution rows by extension. */
  ghost predicate OnlyOwn(s: State, s': State, sid: SessionId) {
    && Extends(s.db.rows, s'.db.rows)
    && s'.db.sales.Keys == s.db.sales.Keys
    && s'.sessions.Keys == s.sessions.Keys + {sid}
    && (forall o :: o != sid && o in s.sessions ==> s'.sessions[o] == s.sessions[o])
    && (forall id :: id in s.locks && s.locks[id] != sid ==>
          && id in s'.locks && s'.locks[id] == s.locks[id]
          && id in s.db.sales && s'.db.sales[id] == s.db.sales[id])
    && (forall id :: id in s'.locks && s'.locks[id] != sid ==> id in s.locks && s.locks[id] == s'.locks[id])
  }

  lemma OthersKept(s: State, s': State, sid: SessionId, o: SessionId)
    requires SessionsInv(s) && OnlyOwn(s, s', sid)
    requires o != sid && o in s'.sessions
    ensures SessionInv(s', o, s'.sessions[o])
  {
    assert SessionInv(s, o, s.sessions[o]);
    if s.sessions[o].RolledBack? {
      var i :| 0 <= i < |s.db.rows| && s.db.rows[i].txHash == s.sessions[o].q.txHash;
      assert s'.db.rows[i].txHash == s.sessions[o].q.txHash;
    }
  }

  /** Enough to check the acting session: the others are framed. */
  lemma Frame(s: State, s': State, sid: SessionId)
    requires SessionsInv(s) && OnlyOwn(s, s', sid)
    requires SessionInv(s', sid, s'.sessions[sid])
    requires forall id :: id in s'.locks && s'.locks[id] == sid ==>
               s'.sessions[sid].Holding? && s'.sessions[sid].q.saleId == id
    ensures SessionsInv(s')
  {
    forall o | o in s'.sessions
      ensures SessionInv(s', o, s'.sessions[o])
    {
      if o != sid {
        OthersKept(s, s', sid, o);
      }
    }
    forall id | id in s'.locks && s'.locks[id] != sid
      ensures s'.locks[id] in s'.sessions && s'.sessions[s'.locks[id]].Holding?
              && s'.sessions[s'.locks[id]].q.saleId == id
    {
      assert id in s.locks;
    }
  }

  /** The sale row that a lock owner holds exists. */
  lemma LockedSaleExists(s: State, id: SaleId)
    requires SessionsInv(s) && id in s.locks
    ensures id in s.db.sales
  {
    assert SessionInv(s, s.locks[id], s.sessions[s.locks[id]]);
  }

  /** Steps that write nothing but their own session. */
  lemma PutKeeps(s: State, sid: SessionId, x: Session)
    requires SessionsInv(s)
    requires sid in s.sessions ==> !s.sessions[sid].Holding?
    requires !x.Holding? && SessionInv(s, sid, x)
    ensures SessionsInv(Put(s, sid, x))
  {
    forall id | id in s.locks ensures id in s.db.sales { LockedSaleExists(s, id); }
    Frame(s, Put(s, sid, x), sid);
  }

  lemma LockKeeps(s: State, sid: SessionId, q: Request)
    requires SessionsInv(s)
    requires sid in s.sessions && s.sessions[sid] == Checked(q) && q.saleId !in s.locks
    ensures SessionsInv(DoLock(s, sid, q))
  {
    assert SessionInv(s, sid, s.sessions[sid]);
    var v := Validate(s.db, q);
    if v.Err? {
      PutKeeps(s, sid, Refused(v.error));
    } else {
      var p := ValidateAccepts(s.db, q);
      HoldKeeps(s, sid, q, v.value);
    }
  }

  lemma HoldKeeps(s: State, sid: SessionId, q: Request, row: Contribution)
    requires SessionsInv(s)
    requires sid in s.sessions && s.sessions[sid] == Checked(q) && q.saleId !in s.locks
    requires q.saleId in s.db.sales && s.db.sales[q.saleId].status == Active
    requires row.saleId == q.saleId && row.txHash == q.txHash && row.userId == q.userId && row.amount >= 0.0
    requires row.status in {Pending, Confirmed}
    requires var sale := s.db.sales[q.saleId]; sale.hardCap != 0.0 ==> sale.totalRaised + row.amount <= sale.hardCap
    ensures var x := Holding(q, row, s.db.sales[q.saleId].totalRaised + row.amount);
            SessionsInv(Put(s, sid, x).(locks := s.locks[q.saleId := sid]))
  {
    var x := Holding(q, row, s.db.sales[q.saleId].totalRaised + row.amount);
    var s' := Put(s, sid, x).(locks := s.locks[q.saleId := sid]);
    forall id | id in s.locks ensures id in s.db.sales { LockedSaleExists(s, id); }
    Frame(s, s', sid);
  }

  /** Giving up a held row, by rollback or by commit. */
  lemma ReleaseKeeps(s: State, s': State, sid: SessionId, x: Session, rows: seq<Contribution>, sale: Sale)
    requires SessionsInv(s)
    requires sid in s.sessions && s.sessions[sid].Holding?
    requires Extends(s.db.rows, rows)
    requires var id := s.sessions[sid].q.saleId;
             s' == State(Db(rows, s.db.sales[id := sale]), s.locks - {id}, s.sessions[sid := x])
    requires !x.Holding? && SessionInv(s', sid, x)
    ensures SessionsInv(s')
  {
    assert SessionInv(s, sid, s.sessions[sid]);
    forall id | id in s.locks
      ensures id in s.db.sales
      ensures s.locks[id] == sid ==> id == s.sessions[sid].q.saleId
    {
      LockedSaleExists(s, id);
    }
    Frame(s, s', sid);
  }

  lemma CommitKeeps(s: State, sid: SessionId)
    requires SessionsInv(s)
    requires sid in s.sessions && s.sessions[sid].Holding?
    requires s.sessions[sid].row.saleId in s.db.sales
    ensures SessionsInv(DoCommit(s, sid, s.sessions[sid]))
  {
    var x := s.sessions[sid];
    assert SessionInv(s, sid, x);
    var sale := s.db.sales[x.q.saleId];
    var s' := DoCommit(s, sid, x);
    if FindTx(s.db.rows, x.row.txHash).Some? {
      assert s.db.sales[x.q.saleId := sale] == s.db.sales;
      ReleaseKeeps(s, s', sid, RolledBack(x.q), s.db.rows, sale);
    } else {
      ReleaseKeeps(s, s', sid, Recorded(x.q, |s.db.rows|), s.db.rows + [x.row], sale.(totalRaised := x.newTotal));
    }
  }

  lemma MarkKeeps(s: State, sid: SessionId, ids: set<nat>, m: Mark)
    requires SessionsInv(s)
    requires sid in s.sessions && !s.sessions[sid].Holding?
    ensures SessionsInv(DoMark(s, sid, ids, m))
  {
    MarkExtends(s.db.rows, ids, m);
    forall id | id in s.locks ensures id in s.db.sales { LockedSaleExists(s, id); }
    Frame(s, DoMark(s, sid, ids, m), sid);
  }

  /** A sale row nobody holds may be rewritten. */
  lemma SaleWriteKeeps(s: State, id: SaleId, sale: Sale)
    requires SessionsInv(s) && id in s.db.sales && id !in s.locks
    ensures SessionsInv(s.(db := s.db.(sales := s.db.sales[id := sale])))
  {
    var s' := s.(db := s.db.(sales := s.db.sales[id := sale]));
    forall o | o in s'.sessions
      ensures SessionInv(s', o, s'.sessions[o])
    {
      assert SessionInv(s, o, s.sessions[o]);
    }
  }

  lemma SelectInSale(rows: seq<Contribution>, f: Filter)
    ensures IdsInSale(rows, Select(rows, f), f.saleId)
  {
  }

  lemma OpenKeeps(s: State, a: Action)
    requires SessionsInv(s)
    requires a.Begin? || a.FinalizeRead? || a.ClaimRead? || a.RefundRead?
    ensures SessionsInv(Step(s, a))
  {
    if a.sid !in s.sessions {
      match a {
        case Begin(sid, q) => PutKeeps(s, sid, BeginOutcome(s.db, q));
        case FinalizeRead(sid, user, id) => PutKeeps(s, sid, FinalizeOutcome(s.db, user, id));
        case ClaimRead(sid, user, id, tx) =>
          SelectInSale(s.db.rows, ClaimableBy(user, id));
          PutKeeps(s, sid, ClaimOutcome(s.db, user, id, tx));
        case RefundRead(sid, user, id, tx) =>
          SelectInSale(s.db.rows, RefundableBy(user, id));
          PutKeeps(s, sid, RefundOutcome(s.db, user, id, tx));
      }
    }
  }

  lemma AdvanceKeeps(s: State, a: Action)
    requires Inv(s)
    requires !a.Withdraw? && a.sid in s.sessions
    ensures SessionsInv(Advance(s, a, s.sessions[a.sid]))
  {
    var sid, x := a.sid, s.sessions[a.sid];
    assert SessionInv(s, sid, x);
    match a {
      case LockAndValidate(_) =>
        if x.Checked? && x.q.saleId !in s.locks { LockKeeps(s, sid, x.q); }
      case Commit(_) =>
        if x.Holding? { CommitKeeps(s, sid); }
      case Abort(_) =>
        if x.Holding? {
          var sale := s.db.sales[x.q.saleId];
          assert s.db.sales[x.q.saleId := sale] == s.db.sales;
          ReleaseKeeps(s, Advance(s, a, x), sid, Refused(ServerError), s.db.rows, sale);
        } else {
          PutKeeps(s, sid, Refused(ServerError));
        }
      case LookUp(_) =>
        if x.RolledBack? { PutKeeps(s, sid, LookUpOutcome(s.db, x.q)); }
      case FinalizeConfirm(_) =>
        if x.Finalizing? {
          SelectInSale(s.db.rows, PendingOf(x.saleId));
          PutKeeps(s, sid, ConfirmOutcome(s.db, x));
        }
      case FinalizeCommit(_) =>
        if x.Confirming? && x.saleId !in s.locks {
          var sale := s.db.sales[x.saleId].(status := x.decision);
          SaleWriteKeeps(s, x.saleId, sale);
          MarkKeeps(s.(db := SetStatus(s.db, x.saleId, x.decision)), sid, x.pending, MarkConfirmed);
        }
      case ClaimCommit(_, accepted, now) =>
        if x.Claiming? && accepted { MarkKeeps(s, sid, x.ids, MarkClaimed(now, x.tx)); }
        else if x.Claiming? { PutKeeps(s, sid, Refused(ChainRejected)); }
      case RefundCommit(_, accepted) =>
        if x.Refunding? && accepted { MarkKeeps(s, sid, x.ids, MarkRefunded(x.tx)); }
        else if x.Refunding? { PutKeeps(s, sid, Refused(ChainRejected)); }
      case _ =>
    }
  }

  lemma StepKeepsSessions(s: State, a: Action)
    requires Inv(s)
    ensures SessionsInv(Step(s, a))
  {
    if a.Withdraw? {
      if Step(s, a) != s {
        var sale := s.db.sales[a.saleId];
        SaleWriteKeeps(s, a.saleId, sale.(totalWithdrawn := sale.totalWithdrawn + a.amount));
      }
    } else if a.Begin? || a.FinalizeRead? || a.ClaimRead? || a.RefundRead? {
      OpenKeeps(s, a);
    } else if a.sid in s.sessions {
      AdvanceKeeps(s, a);
    }
  }

  /** A commit that is about to insert satisfies what InsertKeepsLedger asks for. */
  lemma CommitKeepsLedger(s: State, sid: SessionId)
    requires Inv(s)
    requires sid in s.sessions && s.sessions[sid].Holding?
    requires s.sessions[sid].row.saleId in s.db.sales
    ensures LedgerInv(DoCommit(s, sid, s.sessions[sid]).db)
  {
    assert SessionInv(s, sid, s.sessions[sid]);
    if FindTx(s.db.rows, s.sessions[sid].row.txHash).None? {
      InsertKeepsLedger(s.db, s.sessions[sid].row);
    }
  }

  lemma StepKeepsLedger(s: State, a: Action)
    requires Inv(s)
    ensures LedgerInv(Step(s, a).db)
  {
    if Step(s, a).db != s.db {
      match a {
        case Withdraw(_, id, amount, _) =>
          assert SaleInv(s.db, id);
          SaleFieldsKeepLedger(s.db, id, Step(s, a).db.sales[id]);
        case Commit(sid) =>
          CommitKeepsLedger(s, sid);
        case FinalizeCommit(sid) =>
          var x := s.sessions[sid];
          assert SaleInv(s.db, x.saleId);
          SaleFieldsKeepLedger(s.db, x.saleId, s.db.sales[x.saleId].(status := x.decision));
          MarkKeepsLedger(SetStatus(s.db, x.saleId, x.decision), x.pending, MarkConfirmed);
        case ClaimCommit(sid, _, now) =>
          MarkKeepsLedger(s.db, s.sessions[sid].ids, MarkClaimed(now, s.sessions[sid].tx));
        case RefundCommit(sid, _) =>
          MarkKeepsLedger(s.db, s.sessions[sid].ids, MarkRefunded(s.sessions[sid].tx));
        case _ =>
      }
    }
  }

  /** Every step keeps the invariant, whatever the other sessions are doing. */
  lemma StepKeepsInv(s: State, a: Action)
    requires Inv(s)
    ensures Inv(Step(s, a))
  {
    StepKeepsLedger(s, a);
    StepKeepsSessions(s, a);
  }

  lemma {:induction false} ReachableInv(s: State, run: seq<Action>)
    requires Initial(s)
    ensures Inv(Exec(s, run))
  {
    if run == [] {
      InitialInv(s);
    } else {
      ReachableInv(s, run[..|run| - 1]);
      StepKeepsInv(Exec(s, run[..|run| - 1]), run[|run| - 1]);
    }
  }

  /** While a session holds a sale row nobody else writes it or takes it: contribute, finalize and
      withdraw all wait for the lock. */
  lemma LockedSaleUntouched(s: State, a: Action, id: SaleId)
    requires SessionsInv(s) && id in s.locks && id in s.db.sales
    requires a.Withdraw? || a.sid != s.locks[id]
    ensures var s' := Step(s, a); id in s'.db.sales && s'.db.sales[id] == s.db.sales[id]
    ensures var s' := Step(s, a); id in s'.locks && s'.locks[id] == s.locks[id]
  {
    if !a.Withdraw? && a.sid in s.sessions {
      assert SessionInv(s, a.sid, s.sessions[a.sid]);
    }
  }
}
