/** What replaying blocks does to the tables. A poll that crashes, or whose cursor write fails,
    leaves the cursor behind the logs it handled; the next poll starts from there again, but
    may reach further, because the head has moved on. Within a range logs are handled contract
    by contract and claims before refunds, so a log in the added blocks can come before one that
    has been handled already. */
module ListenerReplay {
  import opened Wrappers
  import opened SaleLedger
  import opened EventListener
  import opened Extrema
  import AsciiText

  /** The log is a claim or refund by the wallet of the row. */
  predicate Concerns(l: Log, r: Contribution) {
    match l.event
    case TokensClaimed(claimer) => OwnedBy(r, claimer)
    case RefundClaimed(claimer) => OwnedBy(r, claimer)
    case _ => false
  }

  // ---------------------------------------------------------------- the first log that ends a row

  function FirstEnding(r: Contribution, logs: seq<Log>): Option<Log> {
    if logs == [] then None
    else
      var front := FirstEnding(r, logs[..|logs| - 1]);
      if front.Some? then front
      else if Ends(logs[|logs| - 1], r) then Some(logs[|logs| - 1])
      else None
  }

  lemma {:induction false} FirstEndingIn(r: Contribution, logs: seq<Log>)
    ensures var f := FirstEnding(r, logs); f.Some? ==> f.value in logs && Ends(f.value, r)
    ensures (exists i :: 0 <= i < |logs| && Ends(logs[i], r)) <==> FirstEnding(r, logs).Some?
  {
    if logs != [] {
      FirstEndingIn(r, logs[..|logs| - 1]);
    }
  }

  /** It alone decides what becomes of the row. */
  lemma {:induction false} FirstEndingDecides(r: Contribution, logs: seq<Log>)
    ensures RowFold(r, logs) == match FirstEnding(r, logs) case None => r case Some(l) => RowAfter(r, l)
  {
    if logs != [] {
      var front := logs[..|logs| - 1];
      FirstEndingDecides(r, front);
      FirstEndingIn(r, front);
    }
  }

  /** Over any logs, a row that moves is claimed if the first log that ends it is a claim and
      refunded if that is a refund; it takes that log's hash and keeps everything else. A claim
      ends the confirmed rows of its wallet, a refund the pending and the confirmed ones. */
  lemma FirstEndingMeans(r: Contribution, logs: seq<Log>)
    ensures RowFold(r, logs) != r ==>
              exists i :: 0 <= i < |logs|
                && RowFold(r, logs) == r.(status := RowFold(r, logs).status, claimTxHash := Some(logs[i].txHash))
                && ((logs[i].event.TokensClaimed? && r.status == Confirmed && r.wallet == Some(AsciiText.Lower(logs[i].event.claimer))
                       && RowFold(r, logs).status == Claimed)
                    || (logs[i].event.RefundClaimed? && r.status in {Pending, Confirmed} && r.wallet == Some(AsciiText.Lower(logs[i].event.claimer))
                       && RowFold(r, logs).status == Refunded))
                && (forall j :: 0 <= j < i && r.status == Confirmed ==> !Concerns(logs[j], r))
                && (forall j :: 0 <= j < i && r.status == Pending && logs[j].event.RefundClaimed? ==> !Concerns(logs[j], r))
    ensures RowFold(r, logs) == r ==>
              forall i :: 0 <= i < |logs| && Concerns(logs[i], r) ==> r.status != Confirmed && (r.status == Pending ==> logs[i].event.TokensClaimed?)
  {
    FirstEndingDecides(r, logs);
    if FirstEnding(r, logs).Some? {
      var i := FirstEndingAt(r, logs);
    } else {
      FirstEndingIn(r, logs);
    }
  }

  lemma {:induction false} FirstEndingAt(r: Contribution, logs: seq<Log>) returns (i: nat)
    requires FirstEnding(r, logs).Some?
    ensures i < |logs| && FirstEnding(r, logs) == Some(logs[i]) && Ends(logs[i], r)
    ensures forall j :: 0 <= j < i ==> !Ends(logs[j], r)
  {
    var front := logs[..|logs| - 1];
    if FirstEnding(r, front).Some? {
      i := FirstEndingAt(r, front);
    } else {
      i := |logs| - 1;
      FirstEndingIn(r, front);
      assert forall j :: 0 <= j < i ==> logs[j] == front[j];
    }
  }

  lemma {:induction false} FirstEndingConcat(r: Contribution, a: seq<Log>, b: seq<Log>)
    ensures FirstEnding(r, a + b) == if FirstEnding(r, a).Some? then FirstEnding(r, a) else FirstEnding(r, b)
  {
    if b == [] {
      assert a + b == a;
    } else {
      FirstEndingConcat(r, a, b[..|b| - 1]);
      assert (a + b)[..|a + b| - 1] == a + b[..|b| - 1];
    }
  }

  lemma FirstEndingPrefix(r: Contribution, logs: seq<Log>, n: nat)
    requires n <= |logs|
    ensures FirstEnding(r, logs[..n]).Some? ==> FirstEnding(r, logs) == FirstEnding(r, logs[..n])
  {
    FirstEndingConcat(r, logs[..n], logs[n..]);
    assert logs == logs[..n] + logs[n..];
  }

  // ---------------------------------------------------------------- the same range again

  /** Stopping after any number of logs and then handling all of them again leaves the same
      contribution statuses, claim hashes and sale statuses as one clean pass. */
  lemma CrashAndReplay(t: Tables, logs: seq<Log>, n: nat)
    requires n <= |logs|
    ensures Fold(Fold(t, logs[..n]), logs) == Fold(t, logs)
  {
    forall r: Contribution
      ensures RowFold(RowFold(r, logs[..n]), logs) == RowFold(r, logs)
    {
      FirstEndingDecides(r, logs[..n]);
      FirstEndingDecides(r, logs);
      FirstEndingPrefix(r, logs, n);
      RowMovesOnce(r, logs[..n]);
      RowMovesOnce(RowFold(r, logs[..n]), logs);
    }
    forall address, st
      ensures StatusFold(StatusFold(st, address, logs[..n]), address, logs) == StatusFold(st, address, logs)
    {
      LastFinalizationDecides(StatusFold(st, address, logs[..n]), st, address, logs);
      LastFinalizationDecides(st, st, address, logs[..n]);
    }
    FoldsEqual(t, logs[..n], logs);
  }

  /** The tables after attempts that each stopped after the given number of logs. */
  function Partial(t: Tables, logs: seq<Log>, crashes: seq<nat>): Tables
    requires forall i :: 0 <= i < |crashes| ==> crashes[i] <= |logs|
  {
    if crashes == [] then t
    else Fold(Partial(t, logs, crashes[..|crashes| - 1]), logs[..crashes[|crashes| - 1]])
  }

  /** So do any number of crashes and full replays, in particular handling the range twice. */
  lemma {:induction false} RepeatedCrashes(t: Tables, logs: seq<Log>, crashes: seq<nat>)
    requires forall i :: 0 <= i < |crashes| ==> crashes[i] <= |logs|
    ensures Fold(Partial(t, logs, crashes), logs) == Fold(t, logs)
  {
    if crashes != [] {
      var front := crashes[..|crashes| - 1];
      RepeatedCrashes(t, logs, front);
      CrashAndReplay(Partial(t, logs, front), logs, crashes[|crashes| - 1]);
    }
  }

  /** Tables that agree row by row and sale by sale are equal. */
  lemma FoldsEqual(t: Tables, first: seq<Log>, logs: seq<Log>)
    requires forall i :: 0 <= i < |t.rows| ==> RowFold(RowFold(t.rows[i], first), logs) == RowFold(t.rows[i], logs)
    requires forall k :: k in t.sales ==> StatusFold(StatusFold(t.sales[k], k, first), k, logs) == StatusFold(t.sales[k], k, logs)
    ensures Fold(Fold(t, first), logs) == Fold(t, logs)
  {
    FoldIsRowwise(t, first);
    FoldIsRowwise(t, logs);
    FoldIsRowwise(Fold(t, first), logs);
    FoldIsSalewise(t, first);
    FoldIsSalewise(t, logs);
    FoldIsSalewise(Fold(t, first), logs);
    assert Fold(Fold(t, first), logs).rows == Fold(t, logs).rows;
    assert Fold(Fold(t, first), logs).sales == Fold(t, logs).sales;
  }

  // ---------------------------------------------------------------- a longer range

  /** The logs up to block b, in the order they have in the longer list. */
  function Part(logs: seq<Log>, b: nat): seq<Log> {
    if logs == [] then []
    else
      var l := logs[|logs| - 1];
      Part(logs[..|logs| - 1], b) + if l.block <= b then [l] else []
  }

  lemma {:induction false} PartConcat(x: seq<Log>, y: seq<Log>, b: nat)
    ensures Part(x + y, b) == Part(x, b) + Part(y, b)
  {
    if y == [] {
      assert x + y == x;
    } else {
      PartConcat(x, y[..|y| - 1], b);
      assert (x + y)[..|x + y| - 1] == x + y[..|y| - 1];
    }
  }

  lemma {:induction false} GetLogsPart(chain: seq<Log>, address: string, kind: Kind, r: Range, b: nat)
    requires b <= r.to
    ensures GetLogs(chain, address, kind, Range(r.from, b)) == Part(GetLogs(chain, address, kind, r), b)
  {
    if chain != [] {
      var l := chain[|chain| - 1];
      var front := GetLogs(chain[..|chain| - 1], address, kind, r);
      GetLogsPart(chain[..|chain| - 1], address, kind, r, b);
      if l.address == address && KindOf(l.event) == kind && r.Has(l.block) {
        assert (front + [l])[..|front|] == front;
      } else {
        assert front + [] == front;
      }
    }
  }

  lemma {:induction false} KindsLogsPart(chain: seq<Log>, address: string, kinds: seq<Kind>, r: Range, b: nat)
    requires b <= r.to
    ensures KindsLogs(chain, address, kinds, Range(r.from, b)) == Part(KindsLogs(chain, address, kinds, r), b)
  {
    if kinds != [] {
      var front, kind := kinds[..|kinds| - 1], kinds[|kinds| - 1];
      KindsLogsPart(chain, address, front, r, b);
      GetLogsPart(chain, address, kind, r, b);
      PartConcat(KindsLogs(chain, address, front, r), GetLogs(chain, address, kind, r), b);
    }
  }

  /** A shorter range from the same block has the logs of the longer one up to its end, in the
      same order. */
  lemma {:induction false} RangePart(chain: seq<Log>, contracts: seq<Contract>, r: Range, b: nat)
    requires b <= r.to
    ensures RangeLogs(chain, contracts, Range(r.from, b)) == Part(RangeLogs(chain, contracts, r), b)
  {
    if contracts != [] {
      var front, x := contracts[..|contracts| - 1], contracts[|contracts| - 1];
      RangePart(chain, front, r, b);
      KindsLogsPart(chain, x.address, x.kinds, r, b);
      PartConcat(RangeLogs(chain, front, r), KindsLogs(chain, x.address, x.kinds, r), b);
    }
  }

  /** Once fifty blocks are there, a repeated poll scans the same range however far the head has
      moved on. */
  lemma FullRangeRepeats(cursor: nat, latest: nat, later: nat)
    requires cursor + POLL_BLOCK_RANGE <= latest <= later
    ensures PollRange(cursor, latest) == PollRange(cursor, later)
  {
  }

  /** A transaction is in one block. */
  ghost predicate OneBlockPerTx(logs: seq<Log>) {
    forall i, j :: 0 <= i < |logs| && 0 <= j < |logs| && logs[i].txHash == logs[j].txHash ==> logs[i].block == logs[j].block
  }

  /** Of the logs up to block b the first n have been handled, one of them ended the row, and yet
      the first log of the whole list that ends it lies in the added blocks. */
  predicate Overtaken(r: Contribution, logs: seq<Log>, b: nat, n: nat)
    requires n <= |Part(logs, b)|
  {
    && FirstEnding(r, Part(logs, b)[..n]).Some?
    && FirstEnding(r, logs).Some? && FirstEnding(r, logs).value.block > b
  }

  lemma {:induction false} PartIn(logs: seq<Log>, b: nat, i: nat)
    requires i < |Part(logs, b)|
    ensures Part(logs, b)[i].block <= b && Part(logs, b)[i] in logs
  {
    if logs != [] {
      if i < |Part(logs[..|logs| - 1], b)| { PartIn(logs[..|logs| - 1], b, i); }
    }
  }

  lemma {:induction false} FirstEndingOfPart(r: Contribution, logs: seq<Log>, b: nat)
    ensures var f, p := FirstEnding(r, logs), FirstEnding(r, Part(logs, b));
            && (p.Some? ==> f.Some?)
            && (f.Some? && f.value.block <= b ==> p == f)
  {
    if logs != [] {
      var front, l := logs[..|logs| - 1], logs[|logs| - 1];
      FirstEndingOfPart(r, front, b);
      FirstEndingConcat(r, Part(front, b), if l.block <= b then [l] else []);
      assert [l][..0] == [];
    }
  }

  /** Replaying the longer list leaves a row as one pass over it does, if and only if the row is
      not overtaken. */
  lemma RowReplayIff(r: Contribution, logs: seq<Log>, b: nat, n: nat)
    requires OneBlockPerTx(logs) && n <= |Part(logs, b)|
    ensures RowFold(RowFold(r, Part(logs, b)[..n]), logs) == RowFold(r, logs) <==> !Overtaken(r, logs, b, n)
  {
    var part := Part(logs, b)[..n];
    var f, p := FirstEnding(r, logs), FirstEnding(r, part);
    FirstEndingDecides(r, part);
    FirstEndingDecides(r, logs);
    if p.Some? {
      FirstEndingPrefix(r, Part(logs, b), n);
      FirstEndingOfPart(r, logs, b);
      RowMovesOnce(RowFold(r, part), logs);
      FirstEndingIn(r, part);
      FirstEndingIn(r, logs);
      if f.value.block > b {
        var i :| 0 <= i < |part| && part[i] == p.value;
        PartIn(logs, b, i);
        var j :| 0 <= j < |logs| && logs[j] == p.value;
        var k :| 0 <= k < |logs| && logs[k] == f.value;
        assert logs[j].txHash != logs[k].txHash;
      }
    }
  }

  lemma {:induction false} DecidedByPart(address: string, logs: seq<Log>, b: nat)
    ensures Decided(address, Part(logs, b)) ==> Decided(address, logs)
  {
    if Decided(address, Part(logs, b)) {
      var i :| 0 <= i < |Part(logs, b)| && FinalizesSale(Part(logs, b)[i], address);
      PartIn(logs, b, i);
      var j :| 0 <= j < |logs| && logs[j] == Part(logs, b)[i];
    }
  }

  lemma StatusReplays(st: SaleStatus, address: string, logs: seq<Log>, b: nat, n: nat)
    requires n <= |Part(logs, b)|
    ensures StatusFold(StatusFold(st, address, Part(logs, b)[..n]), address, logs) == StatusFold(st, address, logs)
  {
    var part := Part(logs, b)[..n];
    LastFinalizationDecides(StatusFold(st, address, part), st, address, logs);
    LastFinalizationDecides(st, st, address, part);
    DecidedByPart(address, logs, b);
    if Decided(address, part) {
      var i :| 0 <= i < |part| && FinalizesSale(part[i], address);
      assert FinalizesSale(Part(logs, b)[i], address);
    }
  }

  // ---------------------------------------------------------------- any number of attempts

  /** A poll that read this head and handled only the first logs of its range before it crashed;
      with all of them handled, it is one whose cursor write failed. */
  datatype Attempt = Attempt(latest: nat, handled: nat)

  /** The block the attempt's range ends at; the cursor itself, if it had no range. */
  function End(cursor: nat, latest: nat): nat {
    var r := PollRange(cursor, latest);
    if r.Some? then r.value.to else cursor
  }

  /** What an attempt handles of the logs of the range that is finally stored. */
  function Tried(logs: seq<Log>, cursor: nat, a: Attempt): seq<Log> {
    var part := Part(logs, End(cursor, a.latest));
    part[..Min(a.handled, |part|)]
  }

  predicate OvertakenBy(r: Contribution, logs: seq<Log>, cursor: nat, a: Attempt) {
    var b := End(cursor, a.latest);
    Overtaken(r, logs, b, Min(a.handled, |Part(logs, b)|))
  }

  function AfterAttempts(t: Tables, logs: seq<Log>, cursor: nat, attempts: seq<Attempt>): Tables {
    if attempts == [] then t
    else Fold(AfterAttempts(t, logs, cursor, attempts[..|attempts| - 1]), Tried(logs, cursor, attempts[|attempts| - 1]))
  }

  function RowAfterAttempts(r: Contribution, logs: seq<Log>, cursor: nat, attempts: seq<Attempt>): Contribution {
    if attempts == [] then r
    else RowFold(RowAfterAttempts(r, logs, cursor, attempts[..|attempts| - 1]), Tried(logs, cursor, attempts[|attempts| - 1]))
  }

  /** The head never falls back. */
  ghost predicate HeadsRise(attempts: seq<Attempt>, latest: nat) {
    && (forall i, j :: 0 <= i < j < |attempts| ==> attempts[i].latest <= attempts[j].latest)
    && (forall i :: 0 <= i < |attempts| ==> attempts[i].latest <= latest)
  }

  ghost predicate SomeOvertakes(r: Contribution, logs: seq<Log>, cursor: nat, attempts: seq<Attempt>) {
    exists i :: 0 <= i < |attempts| && OvertakenBy(r, logs, cursor, attempts[i])
  }

  /** Either no attempt has touched the row, or one that saw a head no later than the last did. */
  lemma {:induction false} TouchedOnce(r: Contribution, logs: seq<Log>, cursor: nat, attempts: seq<Attempt>)
    ensures var x := RowAfterAttempts(r, logs, cursor, attempts);
            || x == r
            || (Ended(x) && exists i :: 0 <= i < |attempts| && FirstEnding(r, Tried(logs, cursor, attempts[i])).Some?)
  {
    if attempts != [] {
      var front, last := attempts[..|attempts| - 1], Tried(logs, cursor, attempts[|attempts| - 1]);
      TouchedOnce(r, logs, cursor, front);
      var x := RowAfterAttempts(r, logs, cursor, front);
      RowMovesOnce(x, last);
      FirstEndingDecides(r, last);
      if x != r {
        var i :| 0 <= i < |front| && FirstEnding(r, Tried(logs, cursor, front[i])).Some?;
        assert attempts[i] == front[i];
      }
    }
  }

  /** After any attempts and the poll that is stored, a row is as one pass leaves it if and only
      if no attempt let it be overtaken. */
  lemma {:induction false} RowAttemptsIff(r: Contribution, logs: seq<Log>, cursor: nat, attempts: seq<Attempt>, latest: nat)
    requires OneBlockPerTx(logs) && HeadsRise(attempts, latest)
    ensures RowFold(RowAfterAttempts(r, logs, cursor, attempts), logs) == RowFold(r, logs) <==> !SomeOvertakes(r, logs, cursor, attempts)
  {
    if attempts != [] {
      var front, a := attempts[..|attempts| - 1], attempts[|attempts| - 1];
      RowAttemptsIff(r, logs, cursor, front, latest);
      TouchedOnce(r, logs, cursor, front);
      SomeOvertakesLast(r, logs, cursor, attempts);
      var x := RowAfterAttempts(r, logs, cursor, front);
      var b := End(cursor, a.latest);
      if x == r {
        RowReplayIff(r, logs, b, Min(a.handled, |Part(logs, b)|));
      } else {
        RowMovesOnce(x, Tried(logs, cursor, a));
        if !SomeOvertakes(r, logs, cursor, front) { NotOvertakenLater(r, logs, cursor, attempts, latest); }
      }
    }
  }

  lemma SomeOvertakesLast(r: Contribution, logs: seq<Log>, cursor: nat, attempts: seq<Attempt>)
    requires attempts != []
    ensures var n := |attempts| - 1;
            SomeOvertakes(r, logs, cursor, attempts)
            <==> SomeOvertakes(r, logs, cursor, attempts[..n]) || OvertakenBy(r, logs, cursor, attempts[n])
  {
    var front := attempts[..|attempts| - 1];
    assert forall i :: 0 <= i < |front| ==> attempts[i] == front[i];
    if SomeOvertakes(r, logs, cursor, front) {
      var i :| 0 <= i < |front| && OvertakenBy(r, logs, cursor, front[i]);
      assert OvertakenBy(r, logs, cursor, attempts[i]);
    }
  }

  /** If an earlier attempt touched the row unharmed, the last cannot let it be overtaken. */
  lemma NotOvertakenLater(r: Contribution, logs: seq<Log>, cursor: nat, attempts: seq<Attempt>, latest: nat)
    requires attempts != [] && HeadsRise(attempts, latest)
    requires var front := attempts[..|attempts| - 1];
             !SomeOvertakes(r, logs, cursor, front) && exists i :: 0 <= i < |front| && FirstEnding(r, Tried(logs, cursor, front[i])).Some?
    ensures !OvertakenBy(r, logs, cursor, attempts[|attempts| - 1])
  {
    var front := attempts[..|attempts| - 1];
    var i :| 0 <= i < |front| && FirstEnding(r, Tried(logs, cursor, front[i])).Some?;
    assert !OvertakenBy(r, logs, cursor, front[i]) && front[i] == attempts[i];
    assert attempts[i].latest <= attempts[|attempts| - 1].latest;
    assert End(cursor, front[i].latest) <= End(cursor, attempts[|attempts| - 1].latest);
  }

  // ---------------------------------------------------------------- whole runs

  datatype Listener = Listener(tables: Tables, cursor: nat)

  datatype Visit = Broken(a: Attempt) | Stored(latest: nat)

  function Visited(chain: seq<Log>, contracts: seq<Contract>, x: Listener, v: Visit): Listener {
    match v
    case Broken(a) =>
      var logs := RoundLogs(chain, contracts, x.cursor, a.latest);
      x.(tables := Fold(x.tables, logs[..Min(a.handled, |logs|)]))
    case Stored(latest) =>
      Listener(Fold(x.tables, RoundLogs(chain, contracts, x.cursor, latest)), End(x.cursor, latest))
  }

  function RoundLogs(chain: seq<Log>, contracts: seq<Contract>, cursor: nat, latest: nat): seq<Log> {
    match PollRange(cursor, latest)
    case None => []
    case Some(r) => RangeLogs(chain, contracts, r)
  }

  function VisitAll(chain: seq<Log>, contracts: seq<Contract>, x: Listener, visits: seq<Visit>): Listener {
    if visits == [] then x
    else Visited(chain, contracts, VisitAll(chain, contracts, x, visits[..|visits| - 1]), visits[|visits| - 1])
  }

  /** The postcondition of EventListenerService.PollEvents. */
  function Polled(chain: seq<Log>, contracts: seq<Contract>, x: Listener, p: Poll): Listener {
    var r := PollRange(x.cursor, p.latest);
    var logs := if r.Some? then Handled(chain, r.value, contracts, p.faults) else [];
    Listener(Fold(x.tables, logs), NextCursor(x.cursor, p))
  }

  /** A poll that swallows no exception is such a visit, broken when its cursor write fails. */
  lemma PollIsVisit(chain: seq<Log>, contracts: seq<Contract>, x: Listener, p: Poll)
    requires p.faults == map[]
    ensures var all := |RoundLogs(chain, contracts, x.cursor, p.latest)|;
            var visit := if p.stored then Stored(p.latest) else Broken(Attempt(p.latest, all));
            Polled(chain, contracts, x, p) == Visited(chain, contracts, x, visit)
  {
    var logs, r := RoundLogs(chain, contracts, x.cursor, p.latest), PollRange(x.cursor, p.latest);
    assert logs[..|logs|] == logs;
    if r.Some? { NothingSkippedIff(chain, contracts, x.cursor, p, r.value); }
  }

  /** Attempts that leave the cursor where it is, and then a poll that moves it. */
  datatype Round = Round(attempts: seq<Attempt>, latest: nat)

  function BrokenVisits(attempts: seq<Attempt>): (visits: seq<Visit>)
    ensures |visits| == |attempts|
  {
    seq(|attempts|, i requires 0 <= i < |attempts| => Broken(attempts[i]))
  }

  function Visits(rounds: seq<Round>): seq<Visit> {
    if rounds == [] then []
    else
      var last := rounds[|rounds| - 1];
      Visits(rounds[..|rounds| - 1]) + BrokenVisits(last.attempts) + [Stored(last.latest)]
  }

  /** One pass over the blocks up to the cursor: the stored polls alone. */
  function CleanPass(chain: seq<Log>, contracts: seq<Contract>, x: Listener, rounds: seq<Round>): Listener {
    if rounds == [] then x
    else Visited(chain, contracts, CleanPass(chain, contracts, x, rounds[..|rounds| - 1]), Stored(rounds[|rounds| - 1].latest))
  }

  lemma {:induction false} VisitConcat(chain: seq<Log>, contracts: seq<Contract>, x: Listener, a: seq<Visit>, b: seq<Visit>)
    ensures VisitAll(chain, contracts, x, a + b) == VisitAll(chain, contracts, VisitAll(chain, contracts, x, a), b)
  {
    if b == [] {
      assert a + b == a;
    } else {
      var front, v := b[..|b| - 1], b[|b| - 1];
      VisitConcat(chain, contracts, x, a, front);
      assert (a + b)[..|a + b| - 1] == a + front && (a + b)[|a + b| - 1] == v;
    }
  }

  // ---------------------------------------------------------------- where the logs come from

  lemma {:induction false} GetLogsIn(chain: seq<Log>, address: string, kind: Kind, r: Range, i: nat)
    requires i < |GetLogs(chain, address, kind, r)|
    ensures var l := GetLogs(chain, address, kind, r)[i]; l in chain && r.Has(l.block)
  {
    if chain != [] {
      var front := chain[..|chain| - 1];
      if i < |GetLogs(front, address, kind, r)| { GetLogsIn(front, address, kind, r, i); }
    }
  }

  lemma {:induction false} KindsLogsIn(chain: seq<Log>, address: string, kinds: seq<Kind>, r: Range, i: nat)
    requires i < |KindsLogs(chain, address, kinds, r)|
    ensures var l := KindsLogs(chain, address, kinds, r)[i]; l in chain && r.Has(l.block)
  {
    if kinds != [] {
      var front := kinds[..|kinds| - 1];
      var k := |KindsLogs(chain, address, front, r)|;
      if i < k { KindsLogsIn(chain, address, front, r, i); } else { GetLogsIn(chain, address, kinds[|kinds| - 1], r, i - k); }
    }
  }

  lemma {:induction false} RangeLogsIn(chain: seq<Log>, contracts: seq<Contract>, r: Range, i: nat)
    requires i < |RangeLogs(chain, contracts, r)|
    ensures var l := RangeLogs(chain, contracts, r)[i]; l in chain && r.Has(l.block)
  {
    if contracts != [] {
      var front, x := contracts[..|contracts| - 1], contracts[|contracts| - 1];
      var k := |RangeLogs(chain, front, r)|;
      if i < k { RangeLogsIn(chain, front, r, i); } else { KindsLogsIn(chain, x.address, x.kinds, r, i - k); }
    }
  }

  lemma {:induction false} GetLogsAll(chain: seq<Log>, address: string, kind: Kind, r: Range, l: Log)
    ensures l in GetLogs(chain, address, kind, r) <==> l in chain && l.address == address && KindOf(l.event) == kind && r.Has(l.block)
  {
    if chain != [] { GetLogsAll(chain[..|chain| - 1], address, kind, r, l); }
  }

  lemma {:induction false} KindsLogsAll(chain: seq<Log>, address: string, kinds: seq<Kind>, r: Range, l: Log)
    ensures l in KindsLogs(chain, address, kinds, r)
       <==> l in chain && l.address == address && KindOf(l.event) in kinds && r.Has(l.block)
  {
    if kinds != [] {
      KindsLogsAll(chain, address, kinds[..|kinds| - 1], r, l);
      GetLogsAll(chain, address, kinds[|kinds| - 1], r, l);
    }
  }

  ghost predicate Watched(contracts: seq<Contract>, l: Log) {
    exists c :: 0 <= c < |contracts| && contracts[c].address == l.address && KindOf(l.event) in contracts[c].kinds
  }

  lemma {:induction false} RangeLogsAll(chain: seq<Log>, contracts: seq<Contract>, r: Range, l: Log)
    ensures l in RangeLogs(chain, contracts, r) <==> l in chain && r.Has(l.block) && Watched(contracts, l)
  {
    if contracts != [] {
      var n := |contracts| - 1;
      var front := contracts[..n];
      RangeLogsAll(chain, front, r, l);
      KindsLogsAll(chain, contracts[n].address, contracts[n].kinds, r, l);
      if Watched(front, l) {
        var c :| 0 <= c < |front| && front[c].address == l.address && KindOf(l.event) in front[c].kinds;
        assert contracts[c] == front[c];
      }
      if Watched(contracts, l) {
        var c :| 0 <= c < |contracts| && contracts[c].address == l.address && KindOf(l.event) in contracts[c].kinds;
        assert c < n ==> front[c] == contracts[c];
      }
    }
  }

  /** A poll handles exactly the logs of its blocks that are one of the four sale events of a sale
      address, a transfer of a token address, or a mint or burn of a fraction address. */
  lemma PolledLogs(chain: seq<Log>, sales: seq<string>, tokens: seq<string>, fractions: seq<string>, r: Range, l: Log)
    ensures l in RangeLogs(chain, Contracts(sales, tokens, fractions), r)
       <==> l in chain && r.from <= l.block <= r.to
            && ((l.address in sales && (l.event.ContributionMade? || l.event.TokensClaimed? || l.event.RefundClaimed? || l.event.SaleFinalized?))
                || (l.address in tokens && l.event.Transfer?)
                || (l.address in fractions && (l.event.FractionsMinted? || l.event.FractionsBurned?)))
  {
    RangeLogsAll(chain, Contracts(sales, tokens, fractions), r, l);
    WatchedConcat(Each(sales, SALE_KINDS) + Each(tokens, TOKEN_KINDS), Each(fractions, FRACTION_KINDS), l);
    WatchedConcat(Each(sales, SALE_KINDS), Each(tokens, TOKEN_KINDS), l);
    WatchedEach(sales, SALE_KINDS, l);
    WatchedEach(tokens, TOKEN_KINDS, l);
    WatchedEach(fractions, FRACTION_KINDS, l);
  }

  lemma WatchedConcat(a: seq<Contract>, b: seq<Contract>, l: Log)
    ensures Watched(a + b, l) <==> Watched(a, l) || Watched(b, l)
  {
    if Watched(a, l) {
      var c :| 0 <= c < |a| && a[c].address == l.address && KindOf(l.event) in a[c].kinds;
      assert (a + b)[c] == a[c];
    }
    if Watched(b, l) {
      var c :| 0 <= c < |b| && b[c].address == l.address && KindOf(l.event) in b[c].kinds;
      assert (a + b)[|a| + c] == b[c];
    }
  }

  lemma WatchedEach(addresses: seq<string>, kinds: seq<Kind>, l: Log)
    ensures Watched(Each(addresses, kinds), l) <==> l.address in addresses && KindOf(l.event) in kinds
  {
    if l.address in addresses && KindOf(l.event) in kinds {
      var c :| 0 <= c < |addresses| && addresses[c] == l.address;
      assert Each(addresses, kinds)[c].address == l.address;
    }
  }

  lemma RoundLogsIn(chain: seq<Log>, contracts: seq<Contract>, cursor: nat, latest: nat)
    ensures var logs := RoundLogs(chain, contracts, cursor, latest);
            forall i :: 0 <= i < |logs| ==> logs[i] in chain && logs[i].block > cursor
  {
    var logs := RoundLogs(chain, contracts, cursor, latest);
    forall i | 0 <= i < |logs|
      ensures logs[i] in chain && logs[i].block > cursor
    {
      RangeLogsIn(chain, contracts, PollRange(cursor, latest).value, i);
    }
  }

  lemma RoundOneBlockPerTx(chain: seq<Log>, contracts: seq<Contract>, cursor: nat, latest: nat)
    requires OneBlockPerTx(chain)
    ensures OneBlockPerTx(RoundLogs(chain, contracts, cursor, latest))
  {
    var logs := RoundLogs(chain, contracts, cursor, latest);
    RoundLogsIn(chain, contracts, cursor, latest);
    forall i, j | 0 <= i < |logs| && 0 <= j < |logs| && logs[i].txHash == logs[j].txHash
      ensures logs[i].block == logs[j].block
    {
      var a :| 0 <= a < |chain| && chain[a] == logs[i];
      var b :| 0 <= b < |chain| && chain[b] == logs[j];
    }
  }

  lemma {:induction false} NothingBelow(logs: seq<Log>, b: nat)
    requires forall i :: 0 <= i < |logs| ==> logs[i].block > b
    ensures Part(logs, b) == []
  {
    if logs != [] { NothingBelow(logs[..|logs| - 1], b); }
  }

  /** An attempt handles the first logs of a part of what the round's stored poll handles. */
  lemma AttemptIsTried(chain: seq<Log>, contracts: seq<Contract>, cursor: nat, latest: nat, a: Attempt)
    requires a.latest <= latest
    ensures var logs := RoundLogs(chain, contracts, cursor, a.latest);
            logs[..Min(a.handled, |logs|)] == Tried(RoundLogs(chain, contracts, cursor, latest), cursor, a)
  {
    var logs := RoundLogs(chain, contracts, cursor, latest);
    if cursor < a.latest {
      RangePart(chain, contracts, PollRange(cursor, latest).value, End(cursor, a.latest));
    } else {
      RoundLogsIn(chain, contracts, cursor, latest);
      NothingBelow(logs, cursor);
    }
  }

  lemma {:induction false} AttemptsRun(chain: seq<Log>, contracts: seq<Contract>, x: Listener, attempts: seq<Attempt>, latest: nat)
    requires HeadsRise(attempts, latest)
    ensures VisitAll(chain, contracts, x, BrokenVisits(attempts))
         == Listener(AfterAttempts(x.tables, RoundLogs(chain, contracts, x.cursor, latest), x.cursor, attempts), x.cursor)
  {
    if attempts != [] {
      var front, a := attempts[..|attempts| - 1], attempts[|attempts| - 1];
      var visits, logs := BrokenVisits(attempts), RoundLogs(chain, contracts, x.cursor, latest);
      AttemptsRun(chain, contracts, x, front, latest);
      AttemptIsTried(chain, contracts, x.cursor, latest, a);
      assert visits[..|visits| - 1] == BrokenVisits(front) && visits[|visits| - 1] == Broken(a);
      var before := Listener(AfterAttempts(x.tables, logs, x.cursor, front), x.cursor);
      assert VisitAll(chain, contracts, x, visits) == Visited(chain, contracts, before, Broken(a));
    }
  }

  // ---------------------------------------------------------------- a run against one pass

  lemma {:induction false} AttemptsRowwise(t: Tables, logs: seq<Log>, cursor: nat, attempts: seq<Attempt>)
    ensures var u := AfterAttempts(t, logs, cursor, attempts);
            && |u.rows| == |t.rows|
            && (forall i :: 0 <= i < |t.rows| ==> u.rows[i] == RowAfterAttempts(t.rows[i], logs, cursor, attempts))
            && u.sales.Keys == t.sales.Keys
            && (forall k :: k in t.sales ==> StatusFold(u.sales[k], k, logs) == StatusFold(t.sales[k], k, logs))
  {
    if attempts != [] {
      var front, a := attempts[..|attempts| - 1], attempts[|attempts| - 1];
      AttemptsRowwise(t, logs, cursor, front);
      var u := AfterAttempts(t, logs, cursor, front);
      FoldIsRowwise(u, Tried(logs, cursor, a));
      FoldIsSalewise(u, Tried(logs, cursor, a));
      var part := Part(logs, End(cursor, a.latest));
      forall k | k in t.sales
        ensures StatusFold(AfterAttempts(t, logs, cursor, attempts).sales[k], k, logs) == StatusFold(t.sales[k], k, logs)
      {
        StatusReplays(u.sales[k], k, logs, End(cursor, a.latest), Min(a.handled, |part|));
      }
    }
  }

  /** No attempt of the round lets a row be overtaken, as one pass leaves the rows before it. */
  ghost predicate Harmless(chain: seq<Log>, contracts: seq<Contract>, x: Listener, round: Round) {
    forall i :: 0 <= i < |x.tables.rows| ==>
      !SomeOvertakes(x.tables.rows[i], RoundLogs(chain, contracts, x.cursor, round.latest), x.cursor, round.attempts)
  }

  ghost predicate AllHarmless(chain: seq<Log>, contracts: seq<Contract>, x: Listener, rounds: seq<Round>) {
    forall j :: 0 <= j < |rounds| ==> Harmless(chain, contracts, CleanPass(chain, contracts, x, rounds[..j]), rounds[j])
  }

  /** Some row has ended in two different ways. */
  ghost predicate Diverged(t: Tables, u: Tables) {
    |t.rows| == |u.rows| && exists i :: 0 <= i < |t.rows| && t.rows[i] != u.rows[i] && Ended(t.rows[i]) && Ended(u.rows[i])
  }

  lemma DivergedStays(t: Tables, u: Tables, a: seq<Log>, b: seq<Log>)
    requires Diverged(t, u)
    ensures Diverged(Fold(t, a), Fold(u, b))
  {
    FoldIsRowwise(t, a);
    FoldIsRowwise(u, b);
    var i :| 0 <= i < |t.rows| && t.rows[i] != u.rows[i] && Ended(t.rows[i]) && Ended(u.rows[i]);
    RowMovesOnce(t.rows[i], a);
    RowMovesOnce(u.rows[i], b);
    assert Fold(t, a).rows[i] == t.rows[i] && Fold(u, b).rows[i] == u.rows[i];
  }

  lemma {:induction false} DivergedAfterAttempts(t: Tables, u: Tables, logs: seq<Log>, cursor: nat, attempts: seq<Attempt>)
    requires Diverged(t, u)
    ensures Diverged(AfterAttempts(t, logs, cursor, attempts), u)
  {
    if attempts != [] {
      DivergedAfterAttempts(t, u, logs, cursor, attempts[..|attempts| - 1]);
      DivergedStays(AfterAttempts(t, logs, cursor, attempts[..|attempts| - 1]), u, Tried(logs, cursor, attempts[|attempts| - 1]), []);
    }
  }

  /** One round from equal tables. */
  lemma RoundIff(t: Tables, logs: seq<Log>, cursor: nat, attempts: seq<Attempt>, latest: nat)
    requires OneBlockPerTx(logs) && HeadsRise(attempts, latest)
    ensures var harmless := forall i :: 0 <= i < |t.rows| ==> !SomeOvertakes(t.rows[i], logs, cursor, attempts);
            var u := Fold(AfterAttempts(t, logs, cursor, attempts), logs);
            (harmless ==> u == Fold(t, logs)) && (!harmless ==> Diverged(u, Fold(t, logs)))
  {
    var v := AfterAttempts(t, logs, cursor, attempts);
    AttemptsRowwise(t, logs, cursor, attempts);
    FoldIsRowwise(v, logs);
    FoldIsRowwise(t, logs);
    forall i | 0 <= i < |t.rows|
      ensures Fold(v, logs).rows[i] == Fold(t, logs).rows[i] <==> !SomeOvertakes(t.rows[i], logs, cursor, attempts)
    {
      RowAttemptsIff(t.rows[i], logs, cursor, attempts, latest);
    }
    if forall i :: 0 <= i < |t.rows| ==> !SomeOvertakes(t.rows[i], logs, cursor, attempts) {
      FoldIsSalewise(v, logs);
      FoldIsSalewise(t, logs);
      assert Fold(v, logs).rows == Fold(t, logs).rows && Fold(v, logs).sales == Fold(t, logs).sales;
    } else {
      var i :| 0 <= i < |t.rows| && SomeOvertakes(t.rows[i], logs, cursor, attempts);
      BothEnded(t.rows[i], logs, cursor, attempts);
      assert Fold(v, logs).rows[i] != Fold(t, logs).rows[i];
    }
  }

  lemma BothEnded(r: Contribution, logs: seq<Log>, cursor: nat, attempts: seq<Attempt>)
    requires SomeOvertakes(r, logs, cursor, attempts)
    ensures Ended(RowFold(r, logs)) && Ended(RowFold(RowAfterAttempts(r, logs, cursor, attempts), logs))
  {
    FirstEndingDecides(r, logs);
    FirstEndingIn(r, logs);
    var x := RowAfterAttempts(r, logs, cursor, attempts);
    TouchedOnce(r, logs, cursor, attempts);
    RowMovesOnce(x, logs);
  }

  /** A run of polls, of which some crashed or could not store the cursor, ends where one pass
      over the same blocks ends: the cursor always does, and the tables do if and only if no
      attempt let a row be overtaken. */
  lemma {:induction false} RunIsCleanPassIff(chain: seq<Log>, contracts: seq<Contract>, x: Listener, rounds: seq<Round>)
    requires OneBlockPerTx(chain)
    requires forall j :: 0 <= j < |rounds| ==> HeadsRise(rounds[j].attempts, rounds[j].latest)
    ensures var run, clean := VisitAll(chain, contracts, x, Visits(rounds)), CleanPass(chain, contracts, x, rounds);
            && run.cursor == clean.cursor
            && (AllHarmless(chain, contracts, x, rounds) ==> run.tables == clean.tables)
            && (!AllHarmless(chain, contracts, x, rounds) ==> Diverged(run.tables, clean.tables) && run.tables != clean.tables)
  {
    if rounds != [] {
      var n := |rounds| - 1;
      var front, last := rounds[..n], rounds[n];
      RunIsCleanPassIff(chain, contracts, x, front);
      var run, clean := VisitAll(chain, contracts, x, Visits(front)), CleanPass(chain, contracts, x, front);
      var logs := RoundLogs(chain, contracts, clean.cursor, last.latest);
      LastRoundRuns(chain, contracts, x, rounds);
      RoundOneBlockPerTx(chain, contracts, clean.cursor, last.latest);
      HarmlessFront(chain, contracts, x, rounds);
      if AllHarmless(chain, contracts, x, front) {
        RoundIff(clean.tables, logs, clean.cursor, last.attempts, last.latest);
      } else {
        DivergedAfterAttempts(run.tables, clean.tables, logs, clean.cursor, last.attempts);
        DivergedStays(AfterAttempts(run.tables, logs, clean.cursor, last.attempts), clean.tables, logs, logs);
      }
    }
  }

  lemma HarmlessFront(chain: seq<Log>, contracts: seq<Contract>, x: Listener, rounds: seq<Round>)
    requires rounds != []
    ensures var n := |rounds| - 1;
            AllHarmless(chain, contracts, x, rounds)
            <==> AllHarmless(chain, contracts, x, rounds[..n]) && Harmless(chain, contracts, CleanPass(chain, contracts, x, rounds[..n]), rounds[n])
  {
    var n := |rounds| - 1;
    assert forall j :: 0 <= j <= n ==> rounds[..n][..j] == rounds[..j];
    assert forall j :: 0 <= j < n ==> rounds[..n][j] == rounds[j];
  }

  lemma LastRoundRuns(chain: seq<Log>, contracts: seq<Contract>, x: Listener, rounds: seq<Round>)
    requires rounds != [] && HeadsRise(rounds[|rounds| - 1].attempts, rounds[|rounds| - 1].latest)
    ensures var n := |rounds| - 1;
            var before, last := VisitAll(chain, contracts, x, Visits(rounds[..n])), rounds[n];
            var logs := RoundLogs(chain, contracts, before.cursor, last.latest);
            var after := Listener(Fold(AfterAttempts(before.tables, logs, before.cursor, last.attempts), logs), End(before.cursor, last.latest));
            VisitAll(chain, contracts, x, Visits(rounds)) == after
  {
    var n := |rounds| - 1;
    var front, failed, last := Visits(rounds[..n]), BrokenVisits(rounds[n].attempts), Stored(rounds[n].latest);
    VisitConcat(chain, contracts, x, front, failed);
    AttemptsRun(chain, contracts, VisitAll(chain, contracts, x, front), rounds[n].attempts, rounds[n].latest);
    assert (front + failed + [last])[..|front + failed|] == front + failed;
  }

  /** Every run that ends with a stored poll is made of such rounds. */
  lemma {:induction false} EveryRunIsRounds(visits: seq<Visit>) returns (rounds: seq<Round>)
    requires visits != [] ==> visits[|visits| - 1].Stored?
    ensures Visits(rounds) == visits
    decreases |visits|
  {
    if visits == [] {
      rounds := [];
    } else {
      var n := |visits| - 1;
      var k := n;
      while k > 0 && visits[k - 1].Broken?
        invariant 0 <= k <= n
        invariant forall i :: k <= i < n ==> visits[i].Broken?
      {
        k := k - 1;
      }
      rounds := EveryRunIsRounds(visits[..k]);
      var attempts := seq(n - k, i requires 0 <= i < n - k => visits[k + i].a);
      var round := Round(attempts, visits[n].latest);
      assert BrokenVisits(attempts) == visits[k..n];
      assert visits == visits[..k] + visits[k..n] + [visits[n]];
      assert (rounds + [round])[..|rounds|] == rounds;
      rounds := rounds + [round];
    }
  }

  // ---------------------------------------------------------------- one sale

  /** Logs are returned in chain order. */
  ghost predicate InBlockOrder(logs: seq<Log>) {
    forall i, j :: 0 <= i < j < |logs| ==> logs[i].block <= logs[j].block
  }

  predicate Matching(l: Log, address: string, kind: Kind, r: Contribution, blocks: Range) {
    l.address == address && KindOf(l.event) == kind && Concerns(l, r) && blocks.Has(l.block)
  }

  /** The wallet of the row has a log of this kind from the contract in these blocks. */
  ghost predicate LoggedIn(chain: seq<Log>, address: string, kind: Kind, r: Contribution, blocks: Range) {
    exists i :: 0 <= i < |chain| && Matching(chain[i], address, kind, r, blocks)
  }

  predicate Endable(kind: Kind, r: Contribution) {
    (kind == KTokensClaimed && r.status == Confirmed) || (kind == KRefundClaimed && (r.status == Pending || r.status == Confirmed))
  }

  lemma LoggedInLast(chain: seq<Log>, address: string, kind: Kind, r: Contribution, blocks: Range)
    requires chain != []
    ensures var n := |chain| - 1;
            LoggedIn(chain, address, kind, r, blocks)
            <==> LoggedIn(chain[..n], address, kind, r, blocks) || Matching(chain[n], address, kind, r, blocks)
  {
    var front := chain[..|chain| - 1];
    if LoggedIn(front, address, kind, r, blocks) {
      var i :| 0 <= i < |front| && Matching(front[i], address, kind, r, blocks);
      assert chain[i] == front[i];
    }
    if LoggedIn(chain, address, kind, r, blocks) {
      var i :| 0 <= i < |chain| && Matching(chain[i], address, kind, r, blocks);
      assert i < |front| ==> front[i] == chain[i];
    }
  }

  lemma FirstEndingOfOne(r: Contribution, l: Log)
    ensures FirstEnding(r, [l]) == if Endable(KindOf(l.event), r) && Concerns(l, r) then Some(l) else None
  {
    assert [l][..0] == [];
  }

  lemma {:induction false} FirstEndingOfKind(chain: seq<Log>, address: string, kind: Kind, r: Contribution, blocks: Range)
    ensures FirstEnding(r, GetLogs(chain, address, kind, blocks)).Some?
       <==> Endable(kind, r) && LoggedIn(chain, address, kind, r, blocks)
  {
    if chain != [] {
      var front, l := chain[..|chain| - 1], chain[|chain| - 1];
      FirstEndingOfKind(front, address, kind, r, blocks);
      LoggedInLast(chain, address, kind, r, blocks);
      if l.address == address && KindOf(l.event) == kind && blocks.Has(l.block) {
        FirstEndingConcat(r, GetLogs(front, address, kind, blocks), [l]);
        FirstEndingOfOne(r, l);
      } else {
        assert GetLogs(chain, address, kind, blocks) == GetLogs(front, address, kind, blocks);
      }
    }
  }

  lemma {:induction false} GetLogsInOrder(chain: seq<Log>, address: string, kind: Kind, r: Range)
    requires InBlockOrder(chain)
    ensures InBlockOrder(GetLogs(chain, address, kind, r))
  {
    if chain != [] {
      var front := chain[..|chain| - 1];
      GetLogsInOrder(front, address, kind, r);
      forall i | 0 <= i < |GetLogs(front, address, kind, r)|
        ensures GetLogs(front, address, kind, r)[i].block <= chain[|chain| - 1].block
      {
        GetLogsIn(front, address, kind, r, i);
      }
    }
  }

  /** In chain order the first log that ends a row is also the earliest. */
  lemma {:induction false} FirstIsEarliest(r: Contribution, logs: seq<Log>, b: nat)
    requires InBlockOrder(logs) && FirstEnding(r, Part(logs, b)).Some?
    ensures FirstEnding(r, logs).Some? && FirstEnding(r, logs).value.block <= b
  {
    if logs != [] {
      var front, l := logs[..|logs| - 1], logs[|logs| - 1];
      FirstEndingConcat(r, Part(front, b), if l.block <= b then [l] else []);
      assert [l][..0] == [];
      if FirstEnding(r, Part(front, b)).Some? {
        FirstIsEarliest(r, front, b);
      } else {
        FirstEndingIn(r, front);
      }
    }
  }

  /** One poll of a sale handles its logs in four groups. */
  lemma LogsOfOneSale(chain: seq<Log>, address: string, r: Range)
    ensures RangeLogs(chain, [Contract(address, SALE_KINDS)], r)
         == GetLogs(chain, address, KContributionMade, r) + GetLogs(chain, address, KTokensClaimed, r)
          + GetLogs(chain, address, KRefundClaimed, r) + GetLogs(chain, address, KSaleFinalized, r)
  {
    var ks := SALE_KINDS;
    assert ks[..4] == ks && ks[..3][..2] == ks[..2] && ks[..2][..1] == ks[..1] && ks[..1][..0] == [];
    assert KindsLogs(chain, address, ks[..1], r) == GetLogs(chain, address, KContributionMade, r);
    assert KindsLogs(chain, address, ks[..2], r) == KindsLogs(chain, address, ks[..1], r) + GetLogs(chain, address, KTokensClaimed, r);
    assert KindsLogs(chain, address, ks[..3], r) == KindsLogs(chain, address, ks[..2], r) + GetLogs(chain, address, KRefundClaimed, r);
    assert [Contract(address, SALE_KINDS)][..0] == [];
  }

  /** So that a claim, if any, ends a row before a refund. */
  lemma FirstEndingInOneSale(chain: seq<Log>, address: string, r: Contribution, blocks: Range)
    ensures var claim := FirstEnding(r, GetLogs(chain, address, KTokensClaimed, blocks));
            FirstEnding(r, RangeLogs(chain, [Contract(address, SALE_KINDS)], blocks))
            == if claim.Some? then claim else FirstEnding(r, GetLogs(chain, address, KRefundClaimed, blocks))
  {
    var c, t := GetLogs(chain, address, KContributionMade, blocks), GetLogs(chain, address, KTokensClaimed, blocks);
    var f, s := GetLogs(chain, address, KRefundClaimed, blocks), GetLogs(chain, address, KSaleFinalized, blocks);
    LogsOfOneSale(chain, address, blocks);
    FirstEndingOfKind(chain, address, KContributionMade, r, blocks);
    FirstEndingOfKind(chain, address, KSaleFinalized, r, blocks);
    FirstEndingConcat(r, c + t + f, s);
    FirstEndingConcat(r, c + t, f);
    FirstEndingConcat(r, c, t);
  }

  lemma FirstOfKindIn(chain: seq<Log>, address: string, kind: Kind, r: Contribution, blocks: Range, b: nat)
    requires InBlockOrder(chain) && b <= blocks.to
    ensures var f := FirstEnding(r, GetLogs(chain, address, kind, blocks));
            f.Some? ==> (f.value.block <= b <==> FirstEnding(r, GetLogs(chain, address, kind, Range(blocks.from, b))).Some?)
  {
    var logs := GetLogs(chain, address, kind, blocks);
    GetLogsPart(chain, address, kind, blocks, b);
    GetLogsInOrder(chain, address, kind, blocks);
    FirstEndingOfPart(r, logs, b);
    if FirstEnding(r, Part(logs, b)).Some? { FirstIsEarliest(r, logs, b); }
  }

  /** With one sale, a row is overtaken between polling up to block b and polling further exactly
      when it is confirmed and its wallet has a refund log up to b, no claim log up to b, and a
      claim log in the added blocks. */
  lemma OvertakenInOneSale(chain: seq<Log>, address: string, r: Contribution, blocks: Range, b: nat)
    requires InBlockOrder(chain) && blocks.from <= b <= blocks.to
    ensures var logs, before := RangeLogs(chain, [Contract(address, SALE_KINDS)], blocks), Range(blocks.from, b);
            Overtaken(r, logs, b, |Part(logs, b)|)
            <==> r.status == Confirmed
                 && LoggedIn(chain, address, KRefundClaimed, r, before)
                 && !LoggedIn(chain, address, KTokensClaimed, r, before)
                 && LoggedIn(chain, address, KTokensClaimed, r, Range(b + 1, blocks.to))
  {
    var contracts, before := [Contract(address, SALE_KINDS)], Range(blocks.from, b);
    var logs := RangeLogs(chain, contracts, blocks);
    RangePart(chain, contracts, blocks, b);
    assert Part(logs, b)[..|Part(logs, b)|] == Part(logs, b);
    FirstEndingInOneSale(chain, address, r, blocks);
    FirstEndingInOneSale(chain, address, r, before);
    FirstEndingOfKind(chain, address, KTokensClaimed, r, blocks);
    FirstEndingOfKind(chain, address, KTokensClaimed, r, before);
    FirstEndingOfKind(chain, address, KRefundClaimed, r, blocks);
    FirstEndingOfKind(chain, address, KRefundClaimed, r, before);
    FirstOfKindIn(chain, address, KTokensClaimed, r, blocks, b);
    FirstOfKindIn(chain, address, KRefundClaimed, r, blocks, b);
    LoggedInSplit(chain, address, KTokensClaimed, r, blocks, b);
  }

  lemma LoggedInSplit(chain: seq<Log>, address: string, kind: Kind, r: Contribution, blocks: Range, b: nat)
    requires blocks.from <= b <= blocks.to
    ensures LoggedIn(chain, address, kind, r, blocks)
       <==> LoggedIn(chain, address, kind, r, Range(blocks.from, b)) || LoggedIn(chain, address, kind, r, Range(b + 1, blocks.to))
  {
    assert forall l :: Matching(l, address, kind, r, blocks)
                  <==> Matching(l, address, kind, r, Range(blocks.from, b)) || Matching(l, address, kind, r, Range(b + 1, blocks.to));
  }

  // ---------------------------------------------------------------- where it happens

  const WALLET: string := "0x" + seq(40, _ => '1')
  const SALE: string := "0x" + seq(40, _ => '2')
  const REFUND_LOG := Log(SALE, 10, "0x" + seq(64, _ => 'a'), RefundClaimed(WALLET))
  const CLAIM_LOG := Log(SALE, 40, "0x" + seq(64, _ => 'b'), TokensClaimed(WALLET))
  const HOLDER := Contribution(1, 0, 0, 5.0, 5.0, "0x" + seq(64, _ => 'c'), Some(WALLET), Confirmed, None, None)

  /** A refund in block 10 is handled when the head is 30, the cursor is not stored, and by the
      next poll the same wallet has a claim in block 40: one pass leaves it claimed, this run
      refunded. */
  lemma LongerReplayMayDiffer() returns (chain: seq<Log>, contracts: seq<Contract>, x: Listener, rounds: seq<Round>)
    ensures OneBlockPerTx(chain) && forall j :: 0 <= j < |rounds| ==> HeadsRise(rounds[j].attempts, rounds[j].latest)
    ensures VisitAll(chain, contracts, x, Visits(rounds)).tables != CleanPass(chain, contracts, x, rounds).tables
  {
    chain, contracts := [REFUND_LOG, CLAIM_LOG], [Contract(SALE, SALE_KINDS)];
    x := Listener(Tables([HOLDER], map[]), 0);
    var logs := RangeLogs(chain, contracts, Range(1, 50));
    var a := Attempt(30, |Part(logs, 30)|);
    rounds := [Round([a], 60)];
    assert AsciiText.Lower(WALLET) == WALLET;
    assert chain[0].txHash[2] != chain[1].txHash[2];
    assert Concerns(chain[0], HOLDER) && Concerns(chain[1], HOLDER);
    OvertakenInOneSale(chain, SALE, HOLDER, Range(1, 50), 30);
    assert RoundLogs(chain, contracts, 0, 60) == logs && rounds[..0] == [];
    assert Matching(chain[0], SALE, KRefundClaimed, HOLDER, Range(1, 30));
    assert Matching(chain[1], SALE, KTokensClaimed, HOLDER, Range(31, 50));
    assert OvertakenBy(HOLDER, logs, 0, rounds[0].attempts[0]);
    assert SomeOvertakes(x.tables.rows[0], logs, 0, rounds[0].attempts);
    assert !Harmless(chain, contracts, CleanPass(chain, contracts, x, rounds[..0]), rounds[0]);
    RunIsCleanPassIff(chain, contracts, x, rounds);
  }
}
