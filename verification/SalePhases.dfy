/** Validation of a new sale: the phases must not overlap, which the code checks between
    neighbours after sorting by start time, and what that means for the phase that
    contribute finds active. */
module SalePhases {
  import opened Wrappers
  import opened SaleLedger

  /** Field validation of one phase; a start_time without a time zone skips the future check. */
  predicate ValidPhase(p: Phase, zoned: bool, now: real) {
    && p.startTime < p.endTime
    && (zoned ==> p.startTime >= now)
    && (p.maxContribution > 0.0 ==> p.minContribution <= p.maxContribution)
  }

  // ---------------------------------------------------------------- the check in the code

  /** Where sorted() puts p: before the first phase that starts strictly later. */
  function Insert(p: Phase, sorted: seq<Phase>): (r: seq<Phase>)
    ensures multiset(r) == multiset(sorted) + multiset{p}
  {
    if sorted == [] then [p]
    else if p.startTime < sorted[0].startTime then
      assert [p] + sorted == [p] + sorted;
      [p] + sorted
    else
      assert sorted == [sorted[0]] + sorted[1..];
      [sorted[0]] + Insert(p, sorted[1..])
  }

  /** sorted(phases, key=start_time), stable. */
  function SortByStart(ps: seq<Phase>): (r: seq<Phase>)
    ensures multiset(r) == multiset(ps)
  {
    if ps == [] then []
    else
      assert ps == ps[..|ps| - 1] + [ps[|ps| - 1]];
      Insert(ps[|ps| - 1], SortByStart(ps[..|ps| - 1]))
  }

  /** No phase starts before its predecessor has ended. */
  predicate NeighboursApart(ps: seq<Phase>) {
    forall i :: 0 < i < |ps| ==> ps[i].startTime >= ps[i - 1].endTime
  }

  predicate AcceptsPhases(ps: seq<Phase>) { NeighboursApart(SortByStart(ps)) }

  datatype SaleError = NoPhases | InvalidPhase | CapNotPositive | SoftCapAboveHardCap | PhasesOverlap

  /** Each phase, then the caps, then the overlap check. */
  function ValidateSale(softCap: real, hardCap: real, ps: seq<Phase>, zoned: bool, now: real): Option<SaleError> {
    if exists i :: 0 <= i < |ps| && !ValidPhase(ps[i], zoned, now) then Some(InvalidPhase)
    else if ps == [] then Some(NoPhases)
    else if softCap <= 0.0 || hardCap <= 0.0 then Some(CapNotPositive)
    else if softCap > hardCap then Some(SoftCapAboveHardCap)
    else if !AcceptsPhases(ps) then Some(PhasesOverlap)
    else None
  }

  // ---------------------------------------------------------------- what it should mean

  /** Two phases share at most an end point. */
  predicate Apart(p: Phase, q: Phase) { p.endTime <= q.startTime || q.endTime <= p.startTime }

  /** Any two of the listed phases, in the order given, are apart. */
  ghost predicate PairwiseApart(ps: seq<Phase>) {
    forall i, j :: 0 <= i < j < |ps| ==> Apart(ps[i], ps[j])
  }

  ghost predicate Proper(ps: seq<Phase>) {
    forall i :: 0 <= i < |ps| ==> ps[i].startTime < ps[i].endTime
  }

  ghost predicate StartsInOrder(ps: seq<Phase>) {
    forall i, j :: 0 <= i < j < |ps| ==> ps[i].startTime <= ps[j].startTime
  }

  lemma {:induction false} InsertKeepsOrder(p: Phase, sorted: seq<Phase>)
    requires StartsInOrder(sorted)
    ensures StartsInOrder(Insert(p, sorted))
  {
    if sorted != [] && p.startTime >= sorted[0].startTime {
      var rest := Insert(p, sorted[1..]);
      InsertKeepsOrder(p, sorted[1..]);
      forall q | q in rest
        ensures sorted[0].startTime <= q.startTime
      {
        assert q in multiset(rest);
        assert q == p || q in sorted[1..];
      }
    }
  }

  lemma {:induction false} SortOrders(ps: seq<Phase>)
    ensures StartsInOrder(SortByStart(ps))
  {
    if ps != [] {
      SortOrders(ps[..|ps| - 1]);
      InsertKeepsOrder(ps[|ps| - 1], SortByStart(ps[..|ps| - 1]));
    }
  }

  /** Among proper phases in start order, neighbours suffice. */
  lemma NeighboursSuffice(ps: seq<Phase>)
    requires StartsInOrder(ps) && Proper(ps)
    ensures NeighboursApart(ps) <==> PairwiseApart(ps)
  {
    if NeighboursApart(ps) {
      forall i, j | 0 <= i < j < |ps|
        ensures Apart(ps[i], ps[j])
      {
        assert ps[i].endTime <= ps[i + 1].startTime <= ps[j].startTime;
      }
    }
    if PairwiseApart(ps) {
      forall i | 0 < i < |ps|
        ensures ps[i].startTime >= ps[i - 1].endTime
      {
        assert Apart(ps[i - 1], ps[i]) && ps[i - 1].startTime <= ps[i].startTime;
      }
    }
  }

  // ---------------------------------------------------------------- sorting changes nothing else

  ghost predicate ApartFromAll(p: Phase, ps: seq<Phase>) {
    forall q :: q in ps ==> Apart(p, q)
  }

  lemma SameMembers(a: seq<Phase>, b: seq<Phase>)
    requires multiset(a) == multiset(b)
    ensures forall q :: q in a <==> q in b
  {
    forall q ensures q in a <==> q in b { assert q in multiset(a) <==> q in multiset(b); }
  }

  lemma PairwiseSplit(a: seq<Phase>, p: Phase, b: seq<Phase>)
    ensures PairwiseApart(a + [p] + b) <==> PairwiseApart(a + b) && ApartFromAll(p, a + b)
  {
    var all, rest := a + [p] + b, a + b;
    if PairwiseApart(all) {
      forall i, j | 0 <= i < j < |rest| ensures Apart(rest[i], rest[j]) {
        var i', j' := if i < |a| then i else i + 1, if j < |a| then j else j + 1;
        assert all[i'] == rest[i] && all[j'] == rest[j] && Apart(all[i'], all[j']);
      }
      forall q | q in rest ensures Apart(p, q) {
        var i :| 0 <= i < |rest| && rest[i] == q;
        assert all[|a|] == p;
        if i < |a| { assert Apart(all[i], all[|a|]); } else { assert Apart(all[|a|], all[i + 1]); }
      }
    }
    if PairwiseApart(rest) && ApartFromAll(p, rest) {
      forall i, j | 0 <= i < j < |all| ensures Apart(all[i], all[j]) {
        if i == |a| {
          assert all[j] == rest[j - 1] && rest[j - 1] in rest;
        } else if j == |a| {
          assert all[i] == rest[i] && rest[i] in rest;
        } else {
          var i', j' := if i < |a| then i else i - 1, if j < |a| then j else j - 1;
          assert all[i] == rest[i'] && all[j] == rest[j'];
        }
      }
    }
  }

  lemma TakingOneOut(a: seq<Phase>, p: Phase, b: seq<Phase>)
    ensures multiset(a + [p] + b) == multiset(a + b) + multiset{p}
  {
  }

  lemma Cancel(a: multiset<Phase>, b: multiset<Phase>, p: Phase)
    requires a + multiset{p} == b + multiset{p}
    ensures a == b
  {
    assert a == (a + multiset{p}) - multiset{p};
    assert b == (b + multiset{p}) - multiset{p};
  }

  /** Where an element of one list stands in a permutation of it, and what is left. */
  lemma FindInPermutation(front: seq<Phase>, p: Phase, qs: seq<Phase>) returns (k: nat)
    requires multiset(front + [p]) == multiset(qs)
    ensures k < |qs| && qs == qs[..k] + [p] + qs[k + 1..]
    ensures multiset(front) == multiset(qs[..k] + qs[k + 1..])
  {
    assert front + [p] + [] == front + [p] && front + [] == front;
    TakingOneOut(front, p, []);
    assert p in multiset(qs);
    k :| 0 <= k < |qs| && qs[k] == p;
    assert qs == qs[..k] + [p] + qs[k + 1..];
    TakingOneOut(qs[..k], p, qs[k + 1..]);
    Cancel(multiset(front), multiset(qs[..k] + qs[k + 1..]), p);
  }

  /** Being pairwise apart does not depend on the order of the list. */
  lemma {:induction false} PairwiseOrderIrrelevant(ps: seq<Phase>, qs: seq<Phase>)
    requires multiset(ps) == multiset(qs)
    ensures PairwiseApart(ps) <==> PairwiseApart(qs)
  {
    if ps == [] {
      assert |multiset(qs)| == |qs|;
    } else {
      var front, p := ps[..|ps| - 1], ps[|ps| - 1];
      assert ps == front + [p] == front + [p] + [] && front + [] == front;
      var k := FindInPermutation(front, p, qs);
      var rest := qs[..k] + qs[k + 1..];
      PairwiseOrderIrrelevant(front, rest);
      SameMembers(front, rest);
      PairwiseSplit(front, p, []);
      PairwiseSplit(qs[..k], p, qs[k + 1..]);
    }
  }

  /** The check on neighbours after sorting accepts exactly the lists, in any order, whose
      phases are pairwise apart, provided each phase ends after it starts. */
  lemma AcceptsExactlyNonOverlapping(ps: seq<Phase>)
    requires Proper(ps)
    ensures AcceptsPhases(ps) <==> PairwiseApart(ps)
  {
    var sorted := SortByStart(ps);
    SortOrders(ps);
    SameMembers(ps, sorted);
    forall i | 0 <= i < |sorted|
      ensures sorted[i].startTime < sorted[i].endTime
    {
      assert sorted[i] in sorted;
      var k :| 0 <= k < |ps| && ps[k] == sorted[i];
    }
    NeighboursSuffice(sorted);
    PairwiseOrderIrrelevant(ps, sorted);
  }

  // ---------------------------------------------------------------- which phase is active

  /** At a boundary instant one phase ends and another starts. */
  ghost predicate Boundary(ps: seq<Phase>, now: real) {
    exists i, j :: 0 <= i < |ps| && 0 <= j < |ps| && ps[i].endTime == now && ps[j].startTime == now
  }

  /** In an accepted list two phases are active together only while one ends and the other
      starts, and three are never active together. */
  lemma ActiveTogether(ps: seq<Phase>, now: real, i: nat, j: nat)
    requires Proper(ps) && AcceptsPhases(ps)
    requires i < j < |ps| && ps[i].IsActive(now) && ps[j].IsActive(now)
    ensures (ps[i].endTime == now == ps[j].startTime) || (ps[j].endTime == now == ps[i].startTime)
    ensures forall k :: 0 <= k < |ps| && k != i && k != j ==> !ps[k].IsActive(now)
  {
    AcceptsExactlyNonOverlapping(ps);
    assert Apart(ps[i], ps[j]);
    forall k | 0 <= k < |ps| && k != i && k != j
      ensures !ps[k].IsActive(now)
    {
      assert if k < i then Apart(ps[k], ps[i]) else Apart(ps[i], ps[k]);
      assert if k < j then Apart(ps[k], ps[j]) else Apart(ps[j], ps[k]);
    }
  }

  /** Away from a boundary, the phase contribute picks does not depend on the order in which
      the phases are listed. */
  lemma PickedPhaseIsUnique(ps: seq<Phase>, qs: seq<Phase>, now: real)
    requires Proper(ps) && AcceptsPhases(ps) && multiset(ps) == multiset(qs) && !Boundary(ps, now)
    ensures FirstActive(ps, now) == FirstActive(qs, now)
  {
    SameMembers(ps, qs);
    var a, b := FirstActive(ps, now), FirstActive(qs, now);
    if a.Some? && b.Some? && a != b {
      var i :| 0 <= i < |ps| && ps[i] == a.value;
      var j :| 0 <= j < |ps| && ps[j] == b.value;
      if i < j { ActiveTogether(ps, now, i, j); } else { ActiveTogether(ps, now, j, i); }
    }
  }

  /** What an accepted request guarantees: positive caps in order, and proper phases that are
      pairwise apart. */
  lemma AcceptedSale(softCap: real, hardCap: real, ps: seq<Phase>, zoned: bool, now: real)
    ensures ValidateSale(softCap, hardCap, ps, zoned, now) == None
       <==> ps != [] && 0.0 < softCap <= hardCap && PairwiseApart(ps)
            && forall i :: 0 <= i < |ps| ==>
                 && ps[i].startTime < ps[i].endTime
                 && (zoned ==> now <= ps[i].startTime)
                 && (ps[i].maxContribution <= 0.0 || ps[i].minContribution <= ps[i].maxContribution)
    ensures ValidateSale(softCap, hardCap, ps, zoned, now) == Some(PhasesOverlap) ==> !PairwiseApart(ps) && 0.0 < softCap <= hardCap
    ensures ValidateSale(softCap, hardCap, ps, zoned, now) == Some(SoftCapAboveHardCap) ==> softCap > hardCap > 0.0
    ensures ValidateSale(softCap, hardCap, ps, zoned, now) == Some(CapNotPositive) ==> softCap <= 0.0 || hardCap <= 0.0
  {
    if forall i :: 0 <= i < |ps| ==> ValidPhase(ps[i], zoned, now) {
      forall i | 0 <= i < |ps| ensures ps[i].startTime < ps[i].endTime { assert ValidPhase(ps[i], zoned, now); }
      AcceptsExactlyNonOverlapping(ps);
    }
  }
}
