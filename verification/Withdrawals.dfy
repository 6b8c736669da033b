/** Issuer withdrawals: the ledger records the requested amount, the chain pays whole
    micro-USDC. */
module Withdrawals {
  import opened Wrappers
  import opened SaleLedger

  /** int(amount * 10**6): USDC has six decimals, what is below one micro-USDC is dropped. */
  function Micro(amount: real): int { (amount * 1000000.0).Floor }

  /** One request. onChain says that the issuer has a wallet and the sale a payment token, so
      that a transfer is made; transferOk is what the chain then answers. */
  datatype Call = Call(issuer: UserId, sale: SaleId, amount: real, onChain: bool, transferOk: bool)

  function Check(db: Db, c: Call): Option<Refusal> {
    WithdrawCheck(db, c.issuer, c.sale, c.amount, c.onChain ==> c.transferOk)
  }

  function Apply(db: Db, c: Call): Db {
    if Check(db, c).Some? then db else RecordWithdrawal(db, c.sale, c.amount)
  }

  /** What an accepted call transfers. */
  function Payout(c: Call): int { if c.onChain then Micro(c.amount) else 0 }

  // ---------------------------------------------------------------- runs

  function Final(db: Db, run: seq<Call>): Db {
    if run == [] then db else Apply(Final(db, run[..|run| - 1]), run[|run| - 1])
  }

  predicate LastCounts(db: Db, run: seq<Call>, id: SaleId)
    requires run != []
  {
    var c := run[|run| - 1];
    c.sale == id && Check(Final(db, run[..|run| - 1]), c).None?
  }

  /** Micro-USDC paid out for sale id over a run, and the number of withdrawals that paid it. */
  function Paid(db: Db, run: seq<Call>, id: SaleId): int {
    if run == [] then 0
    else Paid(db, run[..|run| - 1], id) + if LastCounts(db, run, id) then Payout(run[|run| - 1]) else 0
  }

  function Succeeded(db: Db, run: seq<Call>, id: SaleId): nat {
    if run == [] then 0
    else Succeeded(db, run[..|run| - 1], id) + if LastCounts(db, run, id) then 1 else 0
  }

  predicate Funded(db: Db, id: SaleId) {
    id in db.sales && 0.0 <= db.sales[id].totalWithdrawn <= db.sales[id].totalRaised
  }

  lemma MicroBounds(amount: real)
    requires amount > 0.0
    ensures 0 <= Micro(amount)
    ensures Micro(amount) as real <= amount * 1000000.0 < Micro(amount) as real + 1.0
  {
  }

  lemma MicroBelow(paid: int, amount: real)
    requires paid as real <= amount * 1000000.0
    ensures paid <= Micro(amount)
  {
  }

  lemma ApplyKeepsFunded(db: Db, c: Call, id: SaleId)
    requires Funded(db, id)
    ensures Funded(Apply(db, c), id)
    ensures Apply(db, c).sales[id].totalRaised == db.sales[id].totalRaised
    ensures Apply(db, c).sales[id].totalWithdrawn
         == db.sales[id].totalWithdrawn + if c.sale == id && Check(db, c).None? then c.amount else 0.0
  {
  }

  /** What the ledger records over a run, in micro-USDC, less what was paid. */
  function Unpaid(db: Db, run: seq<Call>, id: SaleId): real
    requires id in db.sales && id in Final(db, run).sales
  {
    (Final(db, run).sales[id].totalWithdrawn - db.sales[id].totalWithdrawn) * 1000000.0 - Paid(db, run, id) as real
  }

  /** The ledger never records less than was paid, and when every call transfers on-chain it
      records less than one micro-USDC too much a withdrawal. */
  lemma {:induction false} UnpaidBounds(db: Db, run: seq<Call>, id: SaleId)
    requires Funded(db, id)
    ensures Funded(Final(db, run), id)
    ensures Final(db, run).sales[id].totalRaised == db.sales[id].totalRaised
    ensures 0.0 <= Unpaid(db, run, id)
    ensures (forall i :: 0 <= i < |run| ==> run[i].onChain) ==>
              && Unpaid(db, run, id) <= Succeeded(db, run, id) as real
              && (Succeeded(db, run, id) > 0 ==> Unpaid(db, run, id) < Succeeded(db, run, id) as real)
  {
    if run != [] {
      var front, c := run[..|run| - 1], run[|run| - 1];
      UnpaidBounds(db, front, id);
      ApplyKeepsFunded(Final(db, front), c, id);
      if LastCounts(db, run, id) { MicroBounds(c.amount); }
    }
  }

  /** After any run of withdrawals from a sale nothing had been withdrawn from, the truncated
      payouts sum to at most the recorded total, which is at most what was raised, all in
      whole micro-USDC; and when every call transfers on-chain the recorded total exceeds what
      was paid by less than one micro-USDC for each successful withdrawal. */
  lemma PayoutsCovered(db: Db, run: seq<Call>, id: SaleId)
    requires Funded(db, id) && db.sales[id].totalWithdrawn == 0.0
    ensures Funded(Final(db, run), id)
    ensures Final(db, run).sales[id].totalRaised == db.sales[id].totalRaised
    ensures Paid(db, run, id) <= Micro(Final(db, run).sales[id].totalWithdrawn) <= Micro(db.sales[id].totalRaised)
    ensures (forall i :: 0 <= i < |run| ==> run[i].onChain) && Succeeded(db, run, id) > 0 ==>
              Final(db, run).sales[id].totalWithdrawn * 1000000.0 - Paid(db, run, id) as real < Succeeded(db, run, id) as real
  {
    UnpaidBounds(db, run, id);
    MicroBelow(Paid(db, run, id), Final(db, run).sales[id].totalWithdrawn);
  }

  // ---------------------------------------------------------------- the endpoint

  class IssuerWithdrawals {
    var db: Db

    constructor (start: Db)
      ensures db == start
    {
      db := start;
    }

    /** One call of execute_withdrawal, which holds the lock on the sale row throughout; the
        result is the number of micro-USDC transferred. */
    method ExecuteWithdrawal(c: Call) returns (r: Result<int, Refusal>)
      modifies this
      ensures db == Apply(old(db), c)
      ensures r == match Check(old(db), c) case Some(e) => Err(e) case None => Ok(Payout(c))
      ensures r == Err(SaleNotFound) <==>
                !(c.sale in old(db).sales && old(db).sales[c.sale].issuer == c.issuer && old(db).sales[c.sale].status == Finalized)
      ensures r.Ok? <==>
                && c.sale in old(db).sales && old(db).sales[c.sale].issuer == c.issuer && old(db).sales[c.sale].status == Finalized
                && 0.0 < c.amount && old(db).sales[c.sale].totalWithdrawn + c.amount <= old(db).sales[c.sale].totalRaised
                && (c.onChain ==> c.transferOk)
      ensures r.Err? ==> db == old(db)
      ensures r.Ok? ==>
                && db == old(db).(sales := old(db).sales[c.sale := old(db).sales[c.sale].(
                                    totalWithdrawn := old(db).sales[c.sale].totalWithdrawn + c.amount)])
                && (if c.onChain then r.value as real <= c.amount * 1000000.0 < r.value as real + 1.0 else r.value == 0)
    {
      if c.sale !in db.sales || db.sales[c.sale].issuer != c.issuer || db.sales[c.sale].status != Finalized {
        return Err(SaleNotFound);
      }
      var sale := db.sales[c.sale];
      var available := sale.totalRaised - sale.totalWithdrawn;
      if c.amount <= 0.0 || c.amount > available {
        return Err(InvalidWithdrawal);
      }
      var amountInt := 0;
      if c.onChain {
        amountInt := Micro(c.amount);
        if !c.transferOk {
          return Err(ChainRejected);
        }
      }
      db := db.(sales := db.sales[c.sale := sale.(totalWithdrawn := sale.totalWithdrawn + c.amount)]);
      return Ok(amountInt);
    }
  }
}
