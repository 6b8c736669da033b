/** The token-sale ledger: contribution rows, sale rows, and what each database
    transaction of the sale services does to them, written as functions on the
    committed database. SaleProtocol interleaves these transactions; SaleService
    runs them one after the other. */
module SaleLedger {
  import opened Wrappers
  import AsciiText

  type UserId = nat
  type SaleId = nat
  type PhaseId = nat
  type TxHash = string

  /** Amounts read from chain events are unsigned integers scaled down. */
  type Unsigned = r: real | 0.0 <= r witness 0.0

  datatype ContributionStatus = Pending | Confirmed | Claimed | Refunded

  datatype SaleStatus =
    | Draft
    | Active
    | Paused
    | FinalizedSuccess
    | FinalizedFailed
    | TokensDistributed
    | RefundsEnabled
    | Finalized
    | Failed

  datatype Contribution = Contribution(
    userId: UserId,
    saleId: SaleId,
    phaseId: PhaseId,
    amount: real,
    tokens: real,
    txHash: TxHash,
    wallet: Option<string>,
    status: ContributionStatus,
    claimedAt: Option<real>,
    claimTxHash: Option<TxHash>)

  datatype Phase = Phase(
    id: PhaseId,
    pricePerToken: real,
    minContribution: real,
    maxContribution: real,
    startTime: real,
    endTime: real,
    whitelistOnly: bool,
    whitelist: set<string>)
  {
    predicate IsActive(now: real) { startTime <= now <= endTime }
  }

  /** phases are held in phase_number order, as the relationship loads them. */
  datatype Sale = Sale(
    issuer: UserId,
    status: SaleStatus,
    softCap: real,
    hardCap: real,
    totalRaised: real,
    totalWithdrawn: real,
    deployed: bool,
    phases: seq<Phase>)
  {
    predicate SoftCapReached() { totalRaised >= softCap }

    predicate Refundable() { status == Failed || status == RefundsEnabled }
  }

  datatype Db = Db(rows: seq<Contribution>, sales: map<SaleId, Sale>)

  /** The checks contribute makes on the user and the wallet before it looks at tx_hash. */
  datatype Preflight = Eligible | UserNotFound | KycRequired | KycExpired | WalletBlocked

  datatype ChainEvent = ChainEvent(amount: Unsigned, tokens: Unsigned, contributor: string, phaseIndex: nat)

  /** What on-chain verification of the transaction answered. */
  datatype Verification = Unavailable | ContributorMismatch | Verified(event: ChainEvent)

  /** One contribute call: its arguments, and what the user table, the clock and the
      chain answer while it runs. chainTotal is the wallet's on-chain total, if readable. */
  datatype Request = Request(
    userId: UserId,
    saleId: SaleId,
    amount: real,
    txHash: TxHash,
    wallet: Option<string>,
    primaryWallet: Option<string>,
    preflight: Preflight,
    verification: Verification,
    chainTotal: Option<Unsigned>,
    now: real)

  datatype Refusal =
    | InvalidRequest
    | NotEligible(why: Preflight)
    | DuplicateTxHash
    | ContributorDiffers
    | SaleNotFound
    | SaleNotActive
    | NoActivePhase
    | NoWallet
    | NotWhitelisted
    | BelowMinimum
    | AboveMaximum
    | PriceIsZero
    | ExceedsHardCap
    | NotAuthorized
    | NothingToClaim
    | NothingToRefund
    | SaleNotRefundable
    | ChainRejected
    | InvalidWithdrawal
    | LostAfterConflict
    | ServerError

  // ---------------------------------------------------------------- sums over rows

  /** Which rows a SUM query ranges over; an absent user or phase means any. */
  datatype Filter = Filter(
    saleId: SaleId,
    statuses: set<ContributionStatus>,
    userId: Option<UserId>,
    phaseId: Option<PhaseId>)

  const ANY_STATUS := {Pending, Confirmed, Claimed, Refunded}

  lemma InAnyStatus(st: ContributionStatus)
    ensures st in ANY_STATUS
  {
    match st {
      case Pending => case Confirmed => case Claimed => case Refunded =>
    }
  }

  predicate Matches(r: Contribution, f: Filter) {
    && r.saleId == f.saleId
    && r.status in f.statuses
    && (f.userId.None? || f.userId.value == r.userId)
    && (f.phaseId.None? || f.phaseId.value == r.phaseId)
  }

  function Sum(rows: seq<Contribution>, f: Filter): real {
    if rows == [] then 0.0
    else
      var r := rows[|rows| - 1];
      Sum(rows[..|rows| - 1], f) + if Matches(r, f) then r.amount else 0.0
  }

  function InSale(id: SaleId, statuses: set<ContributionStatus>): Filter {
    Filter(id, statuses, None, None)
  }

  function ByUserAndPhase(id: SaleId, user: UserId, phase: PhaseId): Filter {
    Filter(id, ANY_STATUS, Some(user), Some(phase))
  }

  /** The sum of the amounts of the rows that satisfy a condition. */
  function Total(rows: seq<Contribution>, keep: Contribution -> bool): real {
    if rows == [] then 0.0
    else Total(rows[..|rows| - 1], keep) + if keep(rows[|rows| - 1]) then rows[|rows| - 1].amount else 0.0
  }

  function OfSale(id: SaleId, statuses: set<ContributionStatus>): Contribution -> bool {
    (r: Contribution) => r.saleId == id && r.status in statuses
  }

  function OfUserInPhase(id: SaleId, user: UserId, phase: PhaseId): Contribution -> bool {
    (r: Contribution) => r.userId == user && r.saleId == id && r.phaseId == phase
  }

  /** What the sum over a sale and a set of statuses adds up. */
  lemma {:induction false} SaleSumMeans(rows: seq<Contribution>, id: SaleId, statuses: set<ContributionStatus>)
    ensures Sum(rows, InSale(id, statuses)) == Total(rows, OfSale(id, statuses))
  {
    if rows != [] { SaleSumMeans(rows[..|rows| - 1], id, statuses); }
  }

  /** What the sum of a user's contributions to one phase adds up, whatever their status. */
  lemma {:induction false} UserSumMeans(rows: seq<Contribution>, id: SaleId, user: UserId, phase: PhaseId)
    ensures Sum(rows, ByUserAndPhase(id, user, phase)) == Total(rows, OfUserInPhase(id, user, phase))
  {
    if rows != [] {
      UserSumMeans(rows[..|rows| - 1], id, user, phase);
      InAnyStatus(rows[|rows| - 1].status);
    }
  }

  lemma SumAppend(rows: seq<Contribution>, r: Contribution, f: Filter)
    ensures Sum(rows + [r], f) == Sum(rows, f) + if Matches(r, f) then r.amount else 0.0
  {
    assert (rows + [r])[..|rows|] == rows;
  }

  /** Only amounts and membership matter to a sum. */
  lemma {:induction false} SumPointwise(a: seq<Contribution>, b: seq<Contribution>, f: Filter)
    requires |a| == |b|
    requires forall i :: 0 <= i < |a| ==> a[i].amount == b[i].amount
    requires forall i :: 0 <= i < |a| ==> (Matches(a[i], f) <==> Matches(b[i], f))
    ensures Sum(a, f) == Sum(b, f)
  {
    if a != [] {
      SumPointwise(a[..|a| - 1], b[..|b| - 1], f);
    }
  }

  /** Splitting the statuses splits the sum. */
  lemma {:induction false} SumSplit(rows: seq<Contribution>, id: SaleId, s: set<ContributionStatus>, t: set<ContributionStatus>)
    requires s !! t
    ensures Sum(rows, InSale(id, s + t)) == Sum(rows, InSale(id, s)) + Sum(rows, InSale(id, t))
  {
    if rows != [] {
      SumSplit(rows[..|rows| - 1], id, s, t);
    }
  }

  lemma {:induction false} SumNonNegative(rows: seq<Contribution>, f: Filter)
    requires forall r :: r in rows ==> r.amount >= 0.0
    ensures Sum(rows, f) >= 0.0
  {
    if rows != [] {
      var front := rows[..|rows| - 1];
      assert forall r :: r in front ==> r in rows;
      SumNonNegative(front, f);
    }
  }

  lemma {:induction false} SumOfNone(rows: seq<Contribution>, f: Filter)
    requires forall r :: r in rows ==> !Matches(r, f)
    ensures Sum(rows, f) == 0.0
  {
    if rows != [] {
      var front := rows[..|rows| - 1];
      assert forall r :: r in front ==> r in rows;
      assert rows[|rows| - 1] in rows;
      SumOfNone(front, f);
    }
  }

  // ---------------------------------------------------------------- contribute

  predicate Truthy(o: Option<string>) { o.Some? && o.value != "" }

  function FirstActive(phases: seq<Phase>, now: real): (r: Option<Phase>)
    ensures r.Some? ==> r.value in phases && r.value.IsActive(now)
    ensures r.None? ==> forall p :: p in phases ==> !p.IsActive(now)
  {
    if phases == [] then None
    else if phases[0].IsActive(now) then Some(phases[0])
    else FirstActive(phases[1..], now)
  }

  /** It is the first in list order, and the only way to find none is that none is active. */
  lemma {:induction false} FirstActiveIsFirst(phases: seq<Phase>, now: real, k: nat)
    requires k < |phases| && phases[k].IsActive(now)
    requires forall j :: 0 <= j < k ==> !phases[j].IsActive(now)
    ensures FirstActive(phases, now) == Some(phases[k])
  {
    if k > 0 {
      FirstActiveIsFirst(phases[1..], now, k - 1);
    }
  }

  /** The on-chain phase index wins when it names a phase; otherwise the first active one. */
  function ChoosePhase(phases: seq<Phase>, v: Verification, now: real): (r: Option<Phase>)
    ensures r.Some? ==> r.value in phases
  {
    if v.Verified? && v.event.phaseIndex < |phases| then Some(phases[v.event.phaseIndex])
    else FirstActive(phases, now)
  }

  function ResolvedAmount(q: Request): real {
    if q.verification.Verified? then q.verification.event.amount else q.amount
  }

  function ResolvedWallet(q: Request): Option<string> {
    if q.verification.Verified? then Some(q.verification.event.contributor) else q.wallet
  }

  function WhitelistWallet(q: Request): Option<string> {
    if Truthy(ResolvedWallet(q)) then ResolvedWallet(q)
    else if Truthy(q.wallet) then q.wallet
    else q.primaryWallet
  }

  function WhitelistRefusal(p: Phase, q: Request): Option<Refusal> {
    if !p.whitelistOnly then None
    else if !Truthy(WhitelistWallet(q)) then Some(NoWallet)
    else if AsciiText.Lower(WhitelistWallet(q).value) !in p.whitelist then Some(NotWhitelisted)
    else None
  }

  /** The on-chain cumulative total is used only for a deployed sale and a known wallet. */
  predicate UsesDbFallback(sale: Sale, q: Request) {
    !Truthy(ResolvedWallet(q)) || !sale.deployed || q.chainTotal.None?
  }

  predicate ExceedsMaximum(db: Db, sale: Sale, p: Phase, q: Request) {
    && p.maxContribution > 0.0
    && (if UsesDbFallback(sale, q)
        then Sum(db.rows, ByUserAndPhase(q.saleId, q.userId, p.id)) + ResolvedAmount(q)
        else q.chainTotal.value + ResolvedAmount(q)) > p.maxContribution
  }

  function TokensFor(p: Phase, q: Request): Result<real, Refusal> {
    if q.verification.Verified? && q.verification.event.tokens != 0.0
    then Ok(q.verification.event.tokens)
    else if p.pricePerToken == 0.0 then Err(PriceIsZero)
    else Ok(ResolvedAmount(q) / p.pricePerToken)
  }

  /** Everything contribute decides while it holds the sale row: the row to insert, or a refusal. */
  function Validate(db: Db, q: Request): (r: Result<Contribution, Refusal>)
    ensures r.Err? ==> r.error != LostAfterConflict
  {
    if q.saleId !in db.sales then Err(SaleNotFound)
    else
      var sale := db.sales[q.saleId];
      if sale.status != Active then Err(SaleNotActive)
      else
        match ChoosePhase(sale.phases, q.verification, q.now)
        case None => Err(NoActivePhase)
        case Some(p) => ValidateInPhase(db, sale, p, q)
  }

  function ValidateInPhase(db: Db, sale: Sale, p: Phase, q: Request): (r: Result<Contribution, Refusal>)
    ensures r.Err? ==> r.error != LostAfterConflict
  {
    var amount := ResolvedAmount(q);
    var refusal := WhitelistRefusal(p, q);
    if refusal.Some? then Err(refusal.value)
    else if p.minContribution > 0.0 && amount < p.minContribution then Err(BelowMinimum)
    else if ExceedsMaximum(db, sale, p, q) then Err(AboveMaximum)
    else
      var tokens := TokensFor(p, q);
      if tokens.Err? then Err(tokens.error)
      else if sale.hardCap != 0.0 && sale.totalRaised + amount > sale.hardCap then Err(ExceedsHardCap)
      else
        Ok(Contribution(q.userId, q.saleId, p.id, amount, tokens.value, q.txHash, ResolvedWallet(q),
          if q.verification.Verified? then Confirmed else Pending, None, None))
  }

  // ---------------------------------------------------------------- what an accepted request means

  /** The phase a request goes to: the one its on-chain event names, if there is such a phase, or
      else the first whose dates include the present. */
  ghost predicate TakesPhase(phases: seq<Phase>, q: Request, p: Phase) {
    if q.verification.Verified? && q.verification.event.phaseIndex < |phases| then p == phases[q.verification.event.phaseIndex]
    else exists k :: 0 <= k < |phases| && p == phases[k] && p.startTime <= q.now <= p.endTime
                     && forall j :: 0 <= j < k ==> q.now < phases[j].startTime || q.now > phases[j].endTime
  }

  /** What is recorded for a request in phase p: amount and wallet as the chain has them, or else as
      the request does, and tokens that are worth the amount unless the chain says how many. */
  ghost predicate Records(row: Contribution, q: Request, p: Phase) {
    && row.userId == q.userId && row.saleId == q.saleId && row.txHash == q.txHash && row.phaseId == p.id
    && row.claimedAt == None && row.claimTxHash == None
    && (match q.verification
        case Verified(event) => row.amount == event.amount && row.wallet == Some(event.contributor) && row.status == Confirmed
        case _ => row.amount == q.amount && row.wallet == q.wallet && row.status == Pending)
    && (if q.verification.Verified? && q.verification.event.tokens != 0.0 then row.tokens == q.verification.event.tokens
        else p.pricePerToken != 0.0 && row.tokens * p.pricePerToken == row.amount)
  }

  function AskedAmount(q: Request): real {
    match q.verification
    case Verified(event) => event.amount
    case _ => q.amount
  }

  /** The wallet of the whitelist is the contributor on chain, or the one given, or the primary one. */
  function AskedWallet(q: Request): string {
    if q.verification.Verified? && q.verification.event.contributor != "" then q.verification.event.contributor
    else if q.wallet.Some? && q.wallet.value != "" then q.wallet.value
    else if q.primaryWallet.Some? then q.primaryWallet.value
    else ""
  }

  predicate OnWhitelist(p: Phase, q: Request) {
    p.whitelistOnly ==> AskedWallet(q) != "" && AsciiText.Lower(AskedWallet(q)) in p.whitelist
  }

  predicate MeetsMinimum(p: Phase, q: Request) { p.minContribution > 0.0 ==> AskedAmount(q) >= p.minContribution }

  /** The total on chain replaces the database sum if the sale is deployed and the wallet is known. */
  predicate WithinMaximum(db: Db, sale: Sale, p: Phase, q: Request) {
    var wallet := if q.verification.Verified? then Some(q.verification.event.contributor) else q.wallet;
    p.maxContribution > 0.0 ==>
      p.maxContribution >= AskedAmount(q)
        + if sale.deployed && wallet.Some? && wallet.value != "" && q.chainTotal.Some? then q.chainTotal.value
          else Sum(db.rows, ByUserAndPhase(q.saleId, q.userId, p.id))
  }

  predicate HasPrice(p: Phase, q: Request) {
    p.pricePerToken != 0.0 || (q.verification.Verified? && q.verification.event.tokens != 0.0)
  }

  predicate UnderHardCap(sale: Sale, q: Request) { sale.hardCap != 0.0 ==> sale.totalRaised + AskedAmount(q) <= sale.hardCap }

  /** The request respects every limit of the sale and the phase, and can be priced. */
  predicate Admits(db: Db, sale: Sale, p: Phase, q: Request) {
    OnWhitelist(p, q) && MeetsMinimum(p, q) && WithinMaximum(db, sale, p, q) && HasPrice(p, q) && UnderHardCap(sale, q)
  }

  /** The sale is active, and the request goes to a phase that admits it. */
  ghost predicate Sells(db: Db, q: Request) {
    && q.saleId in db.sales && db.sales[q.saleId].status == Active
    && exists p :: TakesPhase(db.sales[q.saleId].phases, q, p) && Admits(db, db.sales[q.saleId], p, q)
  }

  /** A refusal names the first limit that the request does not respect. */
  ghost predicate NamesFirst(refusal: Option<Refusal>, db: Db, sale: Sale, p: Phase, q: Request) {
    if !OnWhitelist(p, q) then refusal == Some(if AskedWallet(q) == "" then NoWallet else NotWhitelisted)
    else if !MeetsMinimum(p, q) then refusal == Some(BelowMinimum)
    else if !WithinMaximum(db, sale, p, q) then refusal == Some(AboveMaximum)
    else if !HasPrice(p, q) then refusal == Some(PriceIsZero)
    else if !UnderHardCap(sale, q) then refusal == Some(ExceedsHardCap)
    else refusal.None?
  }

  /** The first reason not to sell: the sale, then the phase, then the limits in the order they are
      checked; none if there is no reason. */
  ghost predicate ForTheFirstReason(refusal: Option<Refusal>, db: Db, q: Request) {
    if q.saleId !in db.sales then refusal == Some(SaleNotFound)
    else if db.sales[q.saleId].status != Active then refusal == Some(SaleNotActive)
    else if forall p :: !TakesPhase(db.sales[q.saleId].phases, q, p) then refusal == Some(NoActivePhase)
    else exists p :: TakesPhase(db.sales[q.saleId].phases, q, p) && NamesFirst(refusal, db, db.sales[q.saleId], p, q)
  }

  function Reason<T>(r: Result<T, Refusal>): Option<Refusal> { if r.Err? then Some(r.error) else None }

  lemma {:induction false} FirstActiveAt(phases: seq<Phase>, now: real) returns (k: nat)
    requires FirstActive(phases, now).Some?
    ensures k < |phases| && FirstActive(phases, now) == Some(phases[k]) && phases[k].IsActive(now)
    ensures forall j :: 0 <= j < k ==> !phases[j].IsActive(now)
  {
    if phases[0].IsActive(now) {
      k := 0;
    } else {
      k := FirstActiveAt(phases[1..], now);
      assert forall j :: 0 < j <= k ==> phases[j] == phases[1..][j - 1];
      k := k + 1;
    }
  }

  /** The phase that is chosen is the one the request goes to, and there is no other. */
  lemma ChosenPhase(phases: seq<Phase>, q: Request, p: Phase)
    ensures ChoosePhase(phases, q.verification, q.now) == Some(p) <==> TakesPhase(phases, q, p)
  {
    if !(q.verification.Verified? && q.verification.event.phaseIndex < |phases|) {
      if FirstActive(phases, q.now) == Some(p) {
        var k := FirstActiveAt(phases, q.now);
      }
      if TakesPhase(phases, q, p) {
        var k :| 0 <= k < |phases| && p == phases[k] && p.startTime <= q.now <= p.endTime
                 && forall j :: 0 <= j < k ==> q.now < phases[j].startTime || q.now > phases[j].endTime;
        FirstActiveIsFirst(phases, q.now, k);
      }
    }
  }

  lemma PricedRight(amount: real, price: real)
    requires price != 0.0
    ensures amount / price * price == amount
  {
  }

  /** What an accepted validation guarantees about the row that will be inserted. */
  lemma ValidateAccepts(db: Db, q: Request) returns (p: Phase)
    requires Validate(db, q).Ok?
    ensures q.saleId in db.sales && db.sales[q.saleId].status == Active
    ensures var sale, row := db.sales[q.saleId], Validate(db, q).value;
            p in sale.phases && TakesPhase(sale.phases, q, p) && Records(row, q, p) && Admits(db, sale, p, q)
  {
    var sale := db.sales[q.saleId];
    p := ChoosePhase(sale.phases, q.verification, q.now).value;
    ChosenPhase(sale.phases, q, p);
    assert ValidateInPhase(db, sale, p, q).Ok?;
    if p.pricePerToken != 0.0 { PricedRight(ResolvedAmount(q), p.pricePerToken); }
  }

  /** A request is accepted exactly when the sale is active, it goes to some phase, and that phase
      admits it: no check refuses more than its limit says. */
  lemma AcceptedExactlyWhenAdmitted(db: Db, q: Request)
    ensures Validate(db, q).Ok? <==> Sells(db, q)
  {
    if q.saleId in db.sales && db.sales[q.saleId].status == Active {
      var sale := db.sales[q.saleId];
      if Validate(db, q).Ok? {
        var p := ValidateAccepts(db, q);
      }
      if p :| TakesPhase(sale.phases, q, p) && Admits(db, sale, p, q) {
        ChosenPhase(sale.phases, q, p);
        assert ValidateInPhase(db, sale, p, q).Ok?;
      }
    }
  }

  /** Why a request is refused. */
  lemma RefusedForTheFirstReason(db: Db, q: Request)
    ensures ForTheFirstReason(Reason(Validate(db, q)), db, q)
  {
    if q.saleId in db.sales && db.sales[q.saleId].status == Active {
      var sale := db.sales[q.saleId];
      if p :| TakesPhase(sale.phases, q, p) {
        ChosenPhase(sale.phases, q, p);
        assert Validate(db, q) == ValidateInPhase(db, sale, p, q);
        LimitsInOrder(db, sale, p, q);
      } else if ChoosePhase(sale.phases, q.verification, q.now).Some? {
        ChosenPhase(sale.phases, q, ChoosePhase(sale.phases, q.verification, q.now).value);
      }
    }
  }

  lemma LimitsInOrder(db: Db, sale: Sale, p: Phase, q: Request)
    ensures NamesFirst(Reason(ValidateInPhase(db, sale, p, q)), db, sale, p, q)
  {
  }

  ghost predicate HasTx(rows: seq<Contribution>, tx: TxHash) {
    exists i :: 0 <= i < |rows| && rows[i].txHash == tx
  }

  /** The unique index on contributions.tx_hash. */
  ghost predicate UniqueTx(rows: seq<Contribution>) {
    forall i, j :: 0 <= i < j < |rows| ==> rows[i].txHash != rows[j].txHash
  }

  /** SELECT ... WHERE tx_hash = tx. */
  function FindTx(rows: seq<Contribution>, tx: TxHash): (r: Option<nat>)
    ensures r.None? <==> !HasTx(rows, tx)
    ensures r.Some? ==> r.value < |rows| && rows[r.value].txHash == tx
  {
    if rows == [] then None
    else
      var front := FindTx(rows[..|rows| - 1], tx);
      if front.Some? then front
      else if rows[|rows| - 1].txHash == tx then Some(|rows| - 1)
      else None
  }

  /** 0x and 64 hex digits. */
  const TX_HASH_LENGTH := 66

  /** The checks on the request itself, and those contribute makes before it asks for the sale row. */
  function Admission(db: Db, q: Request): Option<Refusal> {
    if q.amount <= 0.0 || |q.txHash| != TX_HASH_LENGTH then Some(InvalidRequest)
    else if q.preflight != Eligible then Some(NotEligible(q.preflight))
    else if FindTx(db.rows, q.txHash).Some? then Some(DuplicateTxHash)
    else if q.verification.ContributorMismatch? then Some(ContributorDiffers)
    else None
  }

  /** The commit of a contribution: one row appended, total_raised set to the value the
      transaction computed from the sale row it read. */
  function Insert(db: Db, row: Contribution, newTotal: real): Db
    requires row.saleId in db.sales
  {
    Db(db.rows + [row], db.sales[row.saleId := db.sales[row.saleId].(totalRaised := newTotal)])
  }

  lemma AcceptedAsAsked(db: Db, q: Request) returns (p: Phase)
    requires Validate(db, q).Ok? && !q.verification.Verified?
    ensures q.saleId in db.sales && db.sales[q.saleId].status == Active
    ensures var sale, row := db.sales[q.saleId], Validate(db, q).value;
            && FirstActive(sale.phases, q.now) == Some(p) && Admits(db, sale, p, q)
            && row.saleId == q.saleId && row.userId == q.userId && row.phaseId == p.id && row.amount == q.amount
  {
    p := ValidateAccepts(db, q);
    ChosenPhase(db.sales[q.saleId].phases, q, p);
  }

  lemma SplitAdmits(db: Db, after: Db, sale: Sale, p: Phase, q: Request, more: real)
    requires !q.verification.Verified? && UsesDbFallback(sale, q) && q.amount > 0.0 && more > 0.0
    requires Admits(db, sale, p, q)
    requires Sum(after.rows, ByUserAndPhase(q.saleId, q.userId, p.id))
          == Sum(db.rows, ByUserAndPhase(q.saleId, q.userId, p.id)) + q.amount
    ensures Admits(after, sale.(totalRaised := sale.totalRaised + q.amount), p, q.(amount := more))
       <==> Admits(db, sale, p, q.(amount := q.amount + more)) && (p.minContribution > 0.0 ==> more >= p.minContribution)
  {
  }

  lemma InsertAddsToSum(db: Db, row: Contribution, total: real)
    requires row.saleId in db.sales
    ensures var f := ByUserAndPhase(row.saleId, row.userId, row.phaseId);
            Sum(Insert(db, row, total).rows, f) == Sum(db.rows, f) + row.amount
  {
    var f := ByUserAndPhase(row.saleId, row.userId, row.phaseId);
    InAnyStatus(row.status);
    SumAppend(db.rows, row, f);
  }

  /** Splitting a contribution gains nothing and costs nothing: after an accepted contribution a
      second one to the same phase is accepted exactly when the two together would have been
      accepted as one, unless the second alone is below the minimum. This is where contributions
      are not verified on chain and the database sum is what limits them. */
  lemma SplittingGainsNothing(db: Db, q: Request, more: real) returns (p: Phase)
    requires Validate(db, q).Ok? && q.amount > 0.0 && more > 0.0
    requires !q.verification.Verified? && UsesDbFallback(db.sales[q.saleId], q)
    ensures FirstActive(db.sales[q.saleId].phases, q.now) == Some(p)
    ensures var row := Validate(db, q).value;
            var after := Insert(db, row, db.sales[q.saleId].totalRaised + row.amount);
            Validate(after, q.(amount := more)).Ok?
            <==> Validate(db, q.(amount := q.amount + more)).Ok? && (p.minContribution > 0.0 ==> more >= p.minContribution)
  {
    var sale := db.sales[q.saleId];
    var row := Validate(db, q).value;
    var after := Insert(db, row, sale.totalRaised + row.amount);
    p := AcceptedAsAsked(db, q);
    InsertAddsToSum(db, row, sale.totalRaised + row.amount);
    SplitAdmits(db, after, sale, p, q, more);
    AcceptedIn(after, sale.(totalRaised := sale.totalRaised + q.amount), q.(amount := more), p);
    AcceptedIn(db, sale, q.(amount := q.amount + more), p);
  }

  lemma AcceptedIn(db: Db, sale: Sale, q: Request, p: Phase)
    requires q.saleId in db.sales && db.sales[q.saleId] == sale && sale.status == Active
    requires ChoosePhase(sale.phases, q.verification, q.now) == Some(p)
    ensures Validate(db, q).Ok? <==> Admits(db, sale, p, q)
  {
    assert ValidateInPhase(db, sale, p, q).Ok? <==> Admits(db, sale, p, q);
  }

  // ---------------------------------------------------------------- finalize, claim, refund, withdraw

  function FinalStatus(sale: Sale): SaleStatus {
    if sale.SoftCapReached() then Finalized else Failed
  }

  function FinalizeCheck(db: Db, user: UserId, id: SaleId): Result<SaleStatus, Refusal> {
    if id !in db.sales then Err(SaleNotFound)
    else if db.sales[id].issuer != user then Err(NotAuthorized)
    else if db.sales[id].status != Active then Err(SaleNotActive)
    else Ok(FinalStatus(db.sales[id]))
  }

  /** The rows a query by sale, status set and (optionally) user selects. */
  function Select(rows: seq<Contribution>, f: Filter): set<nat> {
    set i: nat | i < |rows| && Matches(rows[i], f)
  }

  function PendingOf(id: SaleId): Filter { InSale(id, {Pending}) }

  function ClaimableBy(user: UserId, id: SaleId): Filter { Filter(id, {Confirmed}, Some(user), None) }

  function RefundableBy(user: UserId, id: SaleId): Filter { Filter(id, {Pending, Confirmed}, Some(user), None) }

  /** How one selected row is rewritten. */
  datatype Mark = MarkConfirmed | MarkClaimed(at: real, claimTx: Option<TxHash>) | MarkRefunded(refundTx: Option<TxHash>)
  {
    function Apply(r: Contribution): Contribution {
      match this
      case MarkConfirmed => r.(status := Confirmed)
      case MarkClaimed(at, tx) =>
        r.(status := Claimed, claimedAt := Some(at), claimTxHash := if Truthy(tx) then tx else r.claimTxHash)
      case MarkRefunded(tx) =>
        r.(status := Refunded, claimTxHash := if Truthy(tx) then tx else r.claimTxHash)
    }
  }

  function MarkRows(rows: seq<Contribution>, ids: set<nat>, m: Mark): (r: seq<Contribution>)
    ensures |r| == |rows|
  {
    seq(|rows|, i requires 0 <= i < |rows| => if i in ids then m.Apply(rows[i]) else rows[i])
  }

  function SetStatus(db: Db, id: SaleId, status: SaleStatus): Db
    requires id in db.sales
  {
    db.(sales := db.sales[id := db.sales[id].(status := status)])
  }

  function ClaimCheck(db: Db, user: UserId, id: SaleId): Result<set<nat>, Refusal> {
    var ids := Select(db.rows, ClaimableBy(user, id));
    if ids == {} then Err(NothingToClaim) else Ok(ids)
  }

  function RefundCheck(db: Db, user: UserId, id: SaleId): Result<set<nat>, Refusal> {
    if id !in db.sales then Err(SaleNotFound)
    else if !db.sales[id].Refundable() then Err(SaleNotRefundable)
    else
      var ids := Select(db.rows, RefundableBy(user, id));
      if ids == {} then Err(NothingToRefund) else Ok(ids)
  }

  /** The withdrawal query selects the issuer's own sale in status finalized; transferOk
      is false when an attempted on-chain transfer failed. */
  function WithdrawCheck(db: Db, issuer: UserId, id: SaleId, amount: real, transferOk: bool): Option<Refusal> {
    if id !in db.sales || db.sales[id].issuer != issuer || db.sales[id].status != Finalized then Some(SaleNotFound)
    else if amount <= 0.0 || amount > db.sales[id].totalRaised - db.sales[id].totalWithdrawn then Some(InvalidWithdrawal)
    else if !transferOk then Some(ChainRejected)
    else None
  }

  function RecordWithdrawal(db: Db, id: SaleId, amount: real): Db
    requires id in db.sales
  {
    var sale := db.sales[id];
    db.(sales := db.sales[id := sale.(totalWithdrawn := sale.totalWithdrawn + amount)])
  }

  /** A contribution's status may only climb: pending to confirmed to claimed, or from
      pending or confirmed to refunded. */
  predicate Climbs(from: ContributionStatus, to: ContributionStatus) {
    from == to || from == Pending || (from == Confirmed && (to == Claimed || to == Refunded))
  }

  lemma ClimbsTransitive(a: ContributionStatus, b: ContributionStatus, c: ContributionStatus)
    requires Climbs(a, b) && Climbs(b, c)
    ensures Climbs(a, c)
  {
  }
}
