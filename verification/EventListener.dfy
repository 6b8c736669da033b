/** The chain event listener: a block cursor that is polled in ranges of at most fifty, and
    the effect of the logs of a range on contributions and sales. */
module EventListener {
  import opened Wrappers
  import opened SaleLedger
  import AsciiText

  const POLL_BLOCK_RANGE: nat := 50

  datatype Event =
    | ContributionMade
    | TokensClaimed(claimer: string)
    | RefundClaimed(claimer: string)
    | SaleFinalized(success: bool)
    | Transfer
    | FractionsMinted
    | FractionsBurned

  /** A log of the contract at address. */
  datatype Log = Log(address: string, block: nat, txHash: TxHash, event: Event)

  /** Sale status by contract address, each address belonging to one sale. */
  datatype Tables = Tables(rows: seq<Contribution>, sales: map<string, SaleStatus>)

  // ---------------------------------------------------------------- the effect of one log

  predicate OwnedBy(r: Contribution, claimer: string) { r.wallet == Some(AsciiText.Lower(claimer)) }

  /** The log ends the row: it is selected by wallet and status, whatever its sale. */
  predicate Ends(l: Log, r: Contribution) {
    match l.event
    case TokensClaimed(claimer) => OwnedBy(r, claimer) && r.status == Confirmed
    case RefundClaimed(claimer) => OwnedBy(r, claimer) && (r.status == Pending || r.status == Confirmed)
    case _ => false
  }

  function RowAfter(r: Contribution, l: Log): Contribution {
    if Ends(l, r)
    then r.(status := if l.event.TokensClaimed? then Claimed else Refunded, claimTxHash := Some(l.txHash))
    else r
  }

  function SalesAfter(sales: map<string, SaleStatus>, l: Log): map<string, SaleStatus> {
    if l.event.SaleFinalized? && l.address in sales
    then sales[l.address := if l.event.success then Finalized else Failed]
    else sales
  }

  function RowsAfter(rows: seq<Contribution>, l: Log): (r: seq<Contribution>)
    ensures |r| == |rows|
  {
    seq(|rows|, i requires 0 <= i < |rows| => RowAfter(rows[i], l))
  }

  function Handle(t: Tables, l: Log): Tables {
    Tables(RowsAfter(t.rows, l), SalesAfter(t.sales, l))
  }

  function Fold(t: Tables, logs: seq<Log>): Tables {
    if logs == [] then t else Handle(Fold(t, logs[..|logs| - 1]), logs[|logs| - 1])
  }

  /** A claim or refund log of one sale changes a contribution to another sale if and only if its
      wallet has one there in an open status: the contract that logged it plays no part. */
  lemma LogReachesOtherSales(t: Tables, l: Log, id: SaleId)
    ensures (exists i :: 0 <= i < |t.rows| && t.rows[i].saleId != id && Handle(t, l).rows[i] != t.rows[i])
       <==> (exists i :: 0 <= i < |t.rows| && t.rows[i].saleId != id && Ends(l, t.rows[i]))
    ensures forall address :: Handle(t, l.(address := address)).rows == Handle(t, l).rows
  {
    forall i | 0 <= i < |t.rows|
      ensures Handle(t, l).rows[i] != t.rows[i] <==> Ends(l, t.rows[i])
    {
    }
    forall address
      ensures Handle(t, l.(address := address)).rows == Handle(t, l).rows
    {
      var other := l.(address := address);
      forall i | 0 <= i < |t.rows| ensures RowAfter(t.rows[i], other) == RowAfter(t.rows[i], l) {}
    }
  }

  // ---------------------------------------------------------------- rows and sales evolve on their own

  function RowFold(r: Contribution, logs: seq<Log>): Contribution {
    if logs == [] then r else RowAfter(RowFold(r, logs[..|logs| - 1]), logs[|logs| - 1])
  }

  lemma {:induction false} FoldIsRowwise(t: Tables, logs: seq<Log>)
    ensures |Fold(t, logs).rows| == |t.rows|
    ensures forall i :: 0 <= i < |t.rows| ==> Fold(t, logs).rows[i] == RowFold(t.rows[i], logs)
  {
    if logs != [] {
      FoldIsRowwise(t, logs[..|logs| - 1]);
    }
  }

  predicate Ended(r: Contribution) { r.status == Claimed || r.status == Refunded }

  /** A row moves at most once: afterwards it is claimed or refunded and stays so. */
  lemma {:induction false} RowMovesOnce(r: Contribution, logs: seq<Log>)
    ensures RowFold(r, logs) == r || Ended(RowFold(r, logs))
    ensures Ended(r) ==> RowFold(r, logs) == r
  {
    if logs != [] {
      RowMovesOnce(r, logs[..|logs| - 1]);
    }
  }

  predicate FinalizesSale(l: Log, address: string) { l.address == address && l.event.SaleFinalized? }

  function StatusFold(st: SaleStatus, address: string, logs: seq<Log>): SaleStatus {
    if logs == [] then st
    else
      var l := logs[|logs| - 1];
      if FinalizesSale(l, address) then (if l.event.success then Finalized else Failed)
      else StatusFold(st, address, logs[..|logs| - 1])
  }

  lemma {:induction false} FoldIsSalewise(t: Tables, logs: seq<Log>)
    ensures Fold(t, logs).sales.Keys == t.sales.Keys
    ensures forall k :: k in t.sales ==> Fold(t, logs).sales[k] == StatusFold(t.sales[k], k, logs)
  {
    if logs != [] {
      FoldIsSalewise(t, logs[..|logs| - 1]);
    }
  }

  ghost predicate Decided(address: string, logs: seq<Log>) {
    exists i :: 0 <= i < |logs| && FinalizesSale(logs[i], address)
  }

  /** The last finalization log of an address decides its sale, whatever was there before. */
  lemma {:induction false} LastFinalizationDecides(a: SaleStatus, b: SaleStatus, address: string, logs: seq<Log>)
    ensures Decided(address, logs) ==> StatusFold(a, address, logs) == StatusFold(b, address, logs)
    ensures !Decided(address, logs) ==> StatusFold(a, address, logs) == a
  {
    if logs != [] {
      LastFinalizationDecides(a, b, address, logs[..|logs| - 1]);
    }
  }

  lemma {:induction false} FoldConcat(t: Tables, a: seq<Log>, b: seq<Log>)
    ensures Fold(t, a + b) == Fold(Fold(t, a), b)
  {
    if b == [] {
      assert a + b == a;
    } else {
      assert (a + b)[..|a + b| - 1] == a + b[..|b| - 1];
      FoldConcat(t, a, b[..|b| - 1]);
    }
  }

  // ---------------------------------------------------------------- the cursor

  /** Where, in the list of contracts and their events, an exception ends a loop over logs, and
      after how many of them; the poll swallows it and goes on. */
  type Faults = map<(nat, nat), nat>

  /** One poll: the head block it reads, whether storing the new cursor succeeds, and the
      exceptions it swallows. */
  datatype Poll = Poll(latest: nat, stored: bool, faults: Faults)

  /** Blocks from..to, both included. */
  datatype Range = Range(from: nat, to: nat)
  {
    predicate Has(b: nat) { from <= b <= to }
  }

  function PollRange(cursor: nat, latest: nat): Option<Range> {
    if cursor >= latest then None
    else Some(Range(cursor + 1, if cursor + POLL_BLOCK_RANGE < latest then cursor + POLL_BLOCK_RANGE else latest))
  }

  function NextCursor(cursor: nat, p: Poll): nat {
    var r := PollRange(cursor, p.latest);
    if r.Some? && p.stored then r.value.to else cursor
  }

  function Cursor(c0: nat, polls: seq<Poll>): nat {
    if polls == [] then c0 else NextCursor(Cursor(c0, polls[..|polls| - 1]), polls[|polls| - 1])
  }

  /** The ranges a run of polls scans, in order. */
  function Ranges(c0: nat, polls: seq<Poll>): seq<Range> {
    if polls == [] then []
    else
      var front := polls[..|polls| - 1];
      var r := PollRange(Cursor(c0, front), polls[|polls| - 1].latest);
      Ranges(c0, front) + if r.Some? then [r.value] else []
  }

  /** How many of the ranges contain block b. */
  function Times(ranges: seq<Range>, b: nat): nat {
    if ranges == [] then 0
    else Times(ranges[..|ranges| - 1], b) + if ranges[|ranges| - 1].Has(b) then 1 else 0
  }

  predicate AllStored(polls: seq<Poll>) {
    forall i :: 0 <= i < |polls| ==> polls[i].stored
  }

  lemma TimesAppend(ranges: seq<Range>, r: Range, b: nat)
    ensures Times(ranges + [r], b) == Times(ranges, b) + if r.Has(b) then 1 else 0
  {
    assert (ranges + [r])[..|ranges|] == ranges;
  }

  /** Every block between the starting cursor and the current one was scanned at least once,
      and exactly once, with nothing scanned beyond, if every cursor write succeeded; nothing
      at or below the starting cursor is ever scanned. */
  lemma {:induction false} CursorCoversBlocks(c0: nat, polls: seq<Poll>, b: nat)
    ensures c0 <= Cursor(c0, polls)
    ensures b <= c0 ==> Times(Ranges(c0, polls), b) == 0
    ensures c0 < b <= Cursor(c0, polls) ==> Times(Ranges(c0, polls), b) >= 1
    ensures AllStored(polls) ==> Times(Ranges(c0, polls), b) == if c0 < b <= Cursor(c0, polls) then 1 else 0
  {
    if polls != [] {
      var front, p := polls[..|polls| - 1], polls[|polls| - 1];
      CursorCoversBlocks(c0, front, b);
      var r := PollRange(Cursor(c0, front), p.latest);
      if r.Some? {
        TimesAppend(Ranges(c0, front), r.value, b);
      } else {
        assert Ranges(c0, polls) == Ranges(c0, front);
      }
    }
  }

  /** A range is never empty, never longer than fifty blocks, and ends at the head or fifty
      blocks after the cursor, whichever is first. */
  lemma PollRangeBounds(cursor: nat, latest: nat)
    ensures var r := PollRange(cursor, latest);
            r.Some? ==> r.value.from <= r.value.to <= latest && r.value.to - r.value.from + 1 <= POLL_BLOCK_RANGE
  {
  }

  /** Each range of a run belongs to one of its polls: it starts after the cursor that poll found
      and passes neither the head that poll saw nor fifty blocks. */
  lemma {:induction false} RangesAreBounded(c0: nat, polls: seq<Poll>, i: nat)
    requires i < |Ranges(c0, polls)|
    ensures exists j :: 0 <= j < |polls| && PollRange(Cursor(c0, polls[..j]), polls[j].latest) == Some(Ranges(c0, polls)[i])
    ensures var r := Ranges(c0, polls)[i]; r.from <= r.to && r.to - r.from + 1 <= POLL_BLOCK_RANGE
  {
    var n := |polls| - 1;
    var front := polls[..n];
    if i < |Ranges(c0, front)| {
      RangesAreBounded(c0, front, i);
      var j :| 0 <= j < |front| && PollRange(Cursor(c0, front[..j]), front[j].latest) == Some(Ranges(c0, front)[i]);
      assert polls[..j] == front[..j] && polls[j] == front[j];
    } else {
      assert PollRange(Cursor(c0, polls[..n]), polls[n].latest) == Some(Ranges(c0, polls)[i]);
      PollRangeBounds(Cursor(c0, front), polls[n].latest);
    }
  }

  function StoredPolls(polls: seq<Poll>): nat {
    if polls == [] then 0
    else StoredPolls(polls[..|polls| - 1]) + if polls[|polls| - 1].stored then 1 else 0
  }

  /** Against a fixed head, n polls whose cursor writes succeed advance the cursor by fifty
      blocks each until the head is reached, however many others fail in between. */
  lemma {:induction false} CatchUpProgress(c0: nat, polls: seq<Poll>, head: nat)
    requires c0 <= head
    requires forall i :: 0 <= i < |polls| ==> polls[i].latest == head
    ensures var target := c0 + POLL_BLOCK_RANGE * StoredPolls(polls);
            Cursor(c0, polls) == if target < head then target else head
  {
    if polls != [] {
      CatchUpProgress(c0, polls[..|polls| - 1], head);
    }
  }

  /** So it has caught up exactly when there were at least ceil((head - c0) / 50) of them. */
  lemma CatchUpTime(c0: nat, polls: seq<Poll>, head: nat)
    requires c0 <= head
    requires forall i :: 0 <= i < |polls| ==> polls[i].latest == head
    ensures Cursor(c0, polls) == head <==> StoredPolls(polls) >= (head - c0 + POLL_BLOCK_RANGE - 1) / POLL_BLOCK_RANGE
  {
    CatchUpProgress(c0, polls, head);
  }

  // ---------------------------------------------------------------- the logs of a poll

  datatype Kind = KContributionMade | KTokensClaimed | KRefundClaimed | KSaleFinalized | KTransfer | KFractionsMinted | KFractionsBurned

  function KindOf(e: Event): Kind {
    match e
    case ContributionMade => KContributionMade
    case TokensClaimed(_) => KTokensClaimed
    case RefundClaimed(_) => KRefundClaimed
    case SaleFinalized(_) => KSaleFinalized
    case Transfer => KTransfer
    case FractionsMinted => KFractionsMinted
    case FractionsBurned => KFractionsBurned
  }

  /** A contract and the events polled from it, in order. */
  datatype Contract = Contract(address: string, kinds: seq<Kind>)

  const SALE_KINDS := [KContributionMade, KTokensClaimed, KRefundClaimed, KSaleFinalized]
  const TOKEN_KINDS := [KTransfer]
  const FRACTION_KINDS := [KFractionsMinted, KFractionsBurned]

  function Each(addresses: seq<string>, kinds: seq<Kind>): seq<Contract> {
    seq(|addresses|, i requires 0 <= i < |addresses| => Contract(addresses[i], kinds))
  }

  function Contracts(sales: seq<string>, tokens: seq<string>, fractions: seq<string>): seq<Contract> {
    Each(sales, SALE_KINDS) + Each(tokens, TOKEN_KINDS) + Each(fractions, FRACTION_KINDS)
  }

  /** get_logs for one event of one contract. */
  function GetLogs(chain: seq<Log>, address: string, kind: Kind, r: Range): seq<Log> {
    if chain == [] then []
    else
      var l := chain[|chain| - 1];
      GetLogs(chain[..|chain| - 1], address, kind, r)
      + if l.address == address && KindOf(l.event) == kind && r.Has(l.block) then [l] else []
  }

  /** The logs of some events of one contract, event by event. */
  function KindsLogs(chain: seq<Log>, address: string, kinds: seq<Kind>, r: Range): seq<Log> {
    if kinds == [] then []
    else KindsLogs(chain, address, kinds[..|kinds| - 1], r) + GetLogs(chain, address, kinds[|kinds| - 1], r)
  }

  /** All logs of a range in the order they are handled: contract by contract, event by event. */
  function RangeLogs(chain: seq<Log>, contracts: seq<Contract>, r: Range): seq<Log> {
    if contracts == [] then []
    else
      var x := contracts[|contracts| - 1];
      RangeLogs(chain, contracts[..|contracts| - 1], r) + KindsLogs(chain, x.address, x.kinds, r)
  }

  /** What of the logs is handled before an exception, if any. */
  function Taken(logs: seq<Log>, faults: Faults, c: nat, k: nat): (r: seq<Log>)
    ensures r <= logs
    ensures |r| == |logs| || ((c, k) in faults && |r| == faults[(c, k)])
    ensures (c, k) in faults ==> |r| <= faults[(c, k)]
  {
    if (c, k) in faults && faults[(c, k)] < |logs| then logs[..faults[(c, k)]] else logs
  }

  /** The logs handled for the first n events of contract c of the list. */
  function KindsHandled(chain: seq<Log>, r: Range, x: Contract, faults: Faults, c: nat, n: nat): seq<Log>
    requires n <= |x.kinds|
  {
    if n == 0 then []
    else KindsHandled(chain, r, x, faults, c, n - 1) + Taken(GetLogs(chain, x.address, x.kinds[n - 1], r), faults, c, n - 1)
  }

  lemma HandledNext(t: Tables, chain: seq<Log>, r: Range, x: Contract, faults: Faults, c: nat, k: nat)
    requires k < |x.kinds|
    ensures var done, taken := KindsHandled(chain, r, x, faults, c, k), Taken(GetLogs(chain, x.address, x.kinds[k], r), faults, c, k);
            && Fold(Fold(t, done), taken) == Fold(t, KindsHandled(chain, r, x, faults, c, k + 1))
            && |done| + |taken| == |KindsHandled(chain, r, x, faults, c, k + 1)|
  {
    FoldConcat(t, KindsHandled(chain, r, x, faults, c, k), Taken(GetLogs(chain, x.address, x.kinds[k], r), faults, c, k));
  }

  /** The logs handled for a list of contracts. */
  function Handled(chain: seq<Log>, r: Range, contracts: seq<Contract>, faults: Faults): seq<Log> {
    if contracts == [] then []
    else
      var c := |contracts| - 1;
      Handled(chain, r, contracts[..c], faults) + KindsHandled(chain, r, contracts[c], faults, c, |contracts[c].kinds|)
  }

  /** An exception cuts short some loop over the logs of the range. */
  ghost predicate Cuts(chain: seq<Log>, r: Range, x: Contract, faults: Faults, c: nat, k: nat)
    requires k < |x.kinds|
  {
    (c, k) in faults && faults[(c, k)] < |GetLogs(chain, x.address, x.kinds[k], r)|
  }

  ghost predicate NoCut(chain: seq<Log>, r: Range, x: Contract, faults: Faults, c: nat, n: nat)
    requires n <= |x.kinds|
  {
    forall k: nat :: k < n ==> !Cuts(chain, r, x, faults, c, k)
  }

  ghost predicate NoCuts(chain: seq<Log>, r: Range, contracts: seq<Contract>, faults: Faults) {
    forall c: nat :: c < |contracts| ==> NoCut(chain, r, contracts[c], faults, c, |contracts[c].kinds|)
  }

  lemma {:induction false} KindsComplete(chain: seq<Log>, r: Range, x: Contract, faults: Faults, c: nat, n: nat)
    requires n <= |x.kinds|
    ensures var all, done := KindsLogs(chain, x.address, x.kinds[..n], r), KindsHandled(chain, r, x, faults, c, n);
            if NoCut(chain, r, x, faults, c, n) then done == all else |done| < |all|
  {
    if n > 0 {
      KindsComplete(chain, r, x, faults, c, n - 1);
      assert x.kinds[..n][..n - 1] == x.kinds[..n - 1];
      assert NoCut(chain, r, x, faults, c, n) <==> NoCut(chain, r, x, faults, c, n - 1) && !Cuts(chain, r, x, faults, c, n - 1);
    }
  }

  lemma NoCutsLast(chain: seq<Log>, r: Range, contracts: seq<Contract>, faults: Faults)
    requires contracts != []
    ensures var c := |contracts| - 1;
            NoCuts(chain, r, contracts, faults)
            <==> NoCuts(chain, r, contracts[..c], faults) && NoCut(chain, r, contracts[c], faults, c, |contracts[c].kinds|)
  {
    var front := contracts[..|contracts| - 1];
    assert forall c: nat :: c < |front| ==> front[c] == contracts[c];
  }

  lemma {:induction false} HandledComplete(chain: seq<Log>, r: Range, contracts: seq<Contract>, faults: Faults)
    ensures var all, done := RangeLogs(chain, contracts, r), Handled(chain, r, contracts, faults);
            if NoCuts(chain, r, contracts, faults) then done == all else |done| < |all|
  {
    if contracts != [] {
      var c := |contracts| - 1;
      var x := contracts[c];
      HandledComplete(chain, r, contracts[..c], faults);
      assert x.kinds[..|x.kinds|] == x.kinds;
      KindsComplete(chain, r, x, faults, c, |x.kinds|);
      NoCutsLast(chain, r, contracts, faults);
    }
  }

  /** A poll handles every log of its range if and only if no swallowed exception cuts a loop
      short; the cursor passes the range in either case, and nothing it skipped is polled again. */
  lemma NothingSkippedIff(chain: seq<Log>, contracts: seq<Contract>, cursor: nat, p: Poll, r: Range)
    requires PollRange(cursor, p.latest) == Some(r)
    ensures Handled(chain, r, contracts, p.faults) == RangeLogs(chain, contracts, r) <==> NoCuts(chain, r, contracts, p.faults)
    ensures p.stored ==> NextCursor(cursor, p) == r.to
  {
    HandledComplete(chain, r, contracts, p.faults);
  }

  // ---------------------------------------------------------------- the service

  class EventListenerService {
    var rows: seq<Contribution>
    var sales: map<string, SaleStatus>
    var cursor: nat

    function State(): Tables
      reads this
    {
      Tables(rows, sales)
    }

    constructor (t: Tables, cursor: nat)
      ensures State() == t && this.cursor == cursor
    {
      rows, sales := t.rows, t.sales;
      this.cursor := cursor;
    }

    method HandleSaleEvent(l: Log)
      modifies this`rows, this`sales
      ensures State() == Handle(old(State()), l)
      ensures |rows| == |old(rows)| && forall i :: 0 <= i < |rows| ==>
                var was := old(rows)[i];
                rows[i] == if l.event.TokensClaimed? && was.wallet == Some(AsciiText.Lower(l.event.claimer)) && was.status == Confirmed
                           then was.(status := Claimed, claimTxHash := Some(l.txHash))
                           else if l.event.RefundClaimed? && was.wallet == Some(AsciiText.Lower(l.event.claimer)) && was.status in {Pending, Confirmed}
                           then was.(status := Refunded, claimTxHash := Some(l.txHash))
                           else was
      ensures sales == if l.event.SaleFinalized? && l.address in old(sales)
                       then old(sales)[l.address := if l.event.success then Finalized else Failed] else old(sales)
    {
      ghost var was := rows;
      match l.event {
        case TokensClaimed(_) => UpdateRows(l);
        case RefundClaimed(_) => UpdateRows(l);
        case SaleFinalized(success) =>
          if l.address in sales {
            sales := sales[l.address := if success then Finalized else Failed];
          }
          assert RowsAfter(was, l) == was;
        case _ =>
          assert RowsAfter(was, l) == was;
      }
    }

    /** for contrib in result.scalars().all(): ... */
    method UpdateRows(l: Log)
      modifies this`rows
      ensures rows == RowsAfter(old(rows), l)
      ensures forall i :: 0 <= i < |rows| && rows[i] != old(rows)[i] ==>
                && rows[i] == old(rows)[i].(status := rows[i].status, claimTxHash := Some(l.txHash))
                && (rows[i].status == Claimed <==> l.event.TokensClaimed?) && (rows[i].status == Refunded <==> l.event.RefundClaimed?)
    {
      var i := 0;
      while i < |rows|
        invariant 0 <= i <= |rows| == |old(rows)|
        invariant forall k :: 0 <= k < i ==> rows[k] == RowAfter(old(rows)[k], l)
        invariant forall k :: i <= k < |rows| ==> rows[k] == old(rows)[k]
      {
        var contrib := rows[i];
        if l.event.TokensClaimed? && OwnedBy(contrib, l.event.claimer) && contrib.status == Confirmed {
          contrib := contrib.(status := Claimed, claimTxHash := Some(l.txHash));
        } else if l.event.RefundClaimed? && OwnedBy(contrib, l.event.claimer) && contrib.status in {Pending, Confirmed} {
          contrib := contrib.(status := Refunded, claimTxHash := Some(l.txHash));
        }
        rows := rows[i := contrib];
        i := i + 1;
      }
    }

    /** The loop over the logs of one event; an exception in handling one of them ends it. */
    method HandleAll(logs: seq<Log>, faults: Faults, c: nat, k: nat) returns (count: nat)
      modifies this`rows, this`sales
      ensures State() == Fold(old(State()), Taken(logs, faults, c, k))
      ensures count == |Taken(logs, faults, c, k)|
    {
      count := 0;
      while count < |logs|
        invariant count <= |logs| && ((c, k) in faults ==> count <= faults[(c, k)])
        invariant State() == Fold(old(State()), logs[..count])
      {
        if (c, k) in faults && faults[(c, k)] == count { break; }
        assert logs[..count + 1][..count] == logs[..count];
        HandleSaleEvent(logs[count]);
        count := count + 1;
      }
      assert logs[..count] == Taken(logs, faults, c, k);
    }

    /** _poll_sale_events, _poll_transfer_events and _poll_fraction_events for contract c of the
        list: an exception ends the loop over the logs of one event and is swallowed. */
    method PollContract(chain: seq<Log>, x: Contract, r: Range, faults: Faults, c: nat) returns (count: nat)
      modifies this`rows, this`sales
      ensures State() == Fold(old(State()), KindsHandled(chain, r, x, faults, c, |x.kinds|))
      ensures count == |KindsHandled(chain, r, x, faults, c, |x.kinds|)|
    {
      ghost var was := State();
      count := 0;
      for k := 0 to |x.kinds|
        invariant State() == Fold(was, KindsHandled(chain, r, x, faults, c, k))
        invariant count == |KindsHandled(chain, r, x, faults, c, k)|
      {
        var logs := GetLogs(chain, x.address, x.kinds[k], r);
        HandledNext(was, chain, r, x, faults, c, k);
        var n := HandleAll(logs, faults, c, k);
        count := count + n;
      }
    }

    /** The loops over sale, token and fraction addresses, one after the other. */
    method PollAll(chain: seq<Log>, contracts: seq<Contract>, r: Range, faults: Faults) returns (processed: nat)
      modifies this`rows, this`sales
      ensures State() == Fold(old(State()), Handled(chain, r, contracts, faults))
      ensures processed == |Handled(chain, r, contracts, faults)|
    {
      ghost var was := State();
      processed := 0;
      for c := 0 to |contracts|
        invariant State() == Fold(was, Handled(chain, r, contracts[..c], faults))
        invariant processed == |Handled(chain, r, contracts[..c], faults)|
      {
        var x := contracts[c];
        assert contracts[..c + 1][..c] == contracts[..c];
        FoldConcat(was, Handled(chain, r, contracts[..c], faults), KindsHandled(chain, r, x, faults, c, |x.kinds|));
        var n := PollContract(chain, x, r, faults, c);
        processed := processed + n;
      }
      assert contracts[..|contracts|] == contracts;
    }

    method PollEvents(chain: seq<Log>, saleAddresses: seq<string>, tokenAddresses: seq<string>, fractionAddresses: seq<string>, p: Poll)
      returns (processed: nat)
      modifies this
      ensures var r := PollRange(old(cursor), p.latest);
              var contracts := Contracts(saleAddresses, tokenAddresses, fractionAddresses);
              var logs := if r.Some? then Handled(chain, r.value, contracts, p.faults) else [];
              && State() == Fold(old(State()), logs) && processed == |logs|
              && cursor == NextCursor(old(cursor), p)
      ensures old(cursor) >= p.latest || !p.stored ==> cursor == old(cursor)
      ensures old(cursor) < p.latest && p.stored ==> cursor == if old(cursor) + 50 < p.latest then old(cursor) + 50 else p.latest
      ensures old(cursor) >= p.latest ==> State() == old(State()) && processed == 0
    {
      processed := 0;
      if cursor >= p.latest {
        return;
      }
      var toBlock := if cursor + POLL_BLOCK_RANGE < p.latest then cursor + POLL_BLOCK_RANGE else p.latest;
      var contracts := Contracts(saleAddresses, tokenAddresses, fractionAddresses);
      processed := PollAll(chain, contracts, Range(cursor + 1, toBlock), p.faults);
      if p.stored {
        cursor := toBlock;
      }
    }
  }
}
