/** Linked wallets: each user who has wallets has exactly one primary wallet. */
module Wallets {
  import opened Wrappers

  type UserId = nat
  type Address = string

  datatype Wallet = Wallet(user: UserId, checksum: Address, isPrimary: bool, isSafe: bool, tag: Option<string>, riskScore: real)

  /** The outcome of the signature check and of the screening come with the request; an address
      without a checksum form is None. */
  datatype Request =
    | Link(user: UserId, address: Option<Address>, signed: bool, screening: Option<real>, isSafe: bool, tag: Option<string>)
    | Unlink(user: UserId, address: Option<Address>)
    | SetPrimary(user: UserId, address: Option<Address>)

  datatype Refusal = InvalidSignature | InvalidAddress | WalletExists | ScreeningRefused | WalletNotFound | IsPrimaryWallet

  // ---------------------------------------------------------------- one request on the table

  /** The last row that holds address c, and belongs to the user if one is given. */
  function Row(ws: seq<Wallet>, user: Option<UserId>, c: Address): (k: Option<nat>)
    ensures k.Some? ==> k.value < |ws| && ws[k.value].checksum == c && (user.Some? ==> ws[k.value].user == user.value)
    ensures k.None? ==> forall i :: 0 <= i < |ws| && ws[i].checksum == c ==> user.Some? && ws[i].user != user.value
  {
    if ws == [] then None
    else
      var n := |ws| - 1;
      if ws[n].checksum == c && (user.Some? ==> ws[n].user == user.value) then Some(n) else Row(ws[..n], user, c)
  }

  predicate HasWallet(ws: seq<Wallet>, user: UserId) { exists i :: 0 <= i < |ws| && ws[i].user == user }

  function Check(ws: seq<Wallet>, r: Request): Option<Refusal> {
    if r.Link? && !r.signed then Some(InvalidSignature)
    else if r.address.None? then Some(InvalidAddress)
    else
      var c := r.address.value;
      match r
      case Link(_, _, _, screening, _, _) =>
        if Row(ws, None, c).Some? then Some(WalletExists)
        else if screening.None? then Some(ScreeningRefused)
        else None
      case Unlink(user, _) =>
        var k := Row(ws, Some(user), c);
        if k.None? then Some(WalletNotFound)
        else if ws[k.value].isPrimary then Some(IsPrimaryWallet)
        else None
      case SetPrimary(user, _) =>
        if Row(ws, Some(user), c).None? then Some(WalletNotFound) else None
  }

  /** The rows of a user with only row k primary. */
  function Flagged(ws: seq<Wallet>, user: UserId, k: nat): (r: seq<Wallet>)
    ensures |r| == |ws|
  {
    seq(|ws|, i requires 0 <= i < |ws| => if ws[i].user == user then ws[i].(isPrimary := i == k) else ws[i])
  }

  function Apply(ws: seq<Wallet>, r: Request): seq<Wallet> {
    if Check(ws, r).Some? then ws
    else
      match r
      case Link(user, c, _, screening, isSafe, tag) =>
        ws + [Wallet(user, c.value, !HasWallet(ws, user), isSafe, tag, screening.value)]
      case Unlink(user, c) =>
        var k := Row(ws, Some(user), c.value).value;
        ws[..k] + ws[k + 1..]
      case SetPrimary(user, c) =>
        Flagged(ws, user, Row(ws, Some(user), c.value).value)
  }

  // ---------------------------------------------------------------- runs

  /** The table after a run of requests, one at a time, from an empty table. */
  function Table(run: seq<Request>): seq<Wallet> {
    if run == [] then [] else Apply(Table(run[..|run| - 1]), run[|run| - 1])
  }

  ghost predicate NoAddressTwice(ws: seq<Wallet>) {
    forall i, j :: 0 <= i < j < |ws| ==> ws[i].checksum != ws[j].checksum
  }

  /** c is the address of the one primary wallet of user; None, when the user has no wallet. */
  ghost predicate PrimaryIs(ws: seq<Wallet>, user: UserId, c: Option<Address>) {
    match c
    case None => !HasWallet(ws, user)
    case Some(a) =>
      && (exists i :: 0 <= i < |ws| && ws[i].user == user && ws[i].checksum == a)
      && (forall i :: 0 <= i < |ws| && ws[i].user == user ==> (ws[i].isPrimary <==> ws[i].checksum == a))
  }

  /** What a user's requests say the primary wallet should be: the one last made primary, or
      else the first one linked. */
  function Chosen(run: seq<Request>, user: UserId): Option<Address> {
    if run == [] then None
    else
      var front, r := run[..|run| - 1], run[|run| - 1];
      var before := Chosen(front, user);
      if r.user != user || Check(Table(front), r).Some? then before
      else if r.SetPrimary? || (r.Link? && before.None?) then r.address
      else before
  }

  lemma ApplyKeepsAddresses(ws: seq<Wallet>, r: Request)
    requires NoAddressTwice(ws)
    ensures NoAddressTwice(Apply(ws, r))
  {
  }

  lemma LinkKeepsPrimary(ws: seq<Wallet>, r: Request, user: UserId, c: Option<Address>)
    requires r.Link? && Check(ws, r).None? && PrimaryIs(ws, user, c)
    ensures PrimaryIs(Apply(ws, r), user, if r.user == user && c.None? then r.address else c)
  {
    var after := Apply(ws, r);
    assert after[|ws|].user == r.user && after[..|ws|] == ws;
    if c.Some? {
      var i :| 0 <= i < |ws| && ws[i].user == user && ws[i].checksum == c.value;
      assert after[i] == ws[i];
    }
  }

  lemma UnlinkKeepsPrimary(ws: seq<Wallet>, r: Request, user: UserId, c: Option<Address>)
    requires r.Unlink? && Check(ws, r).None? && PrimaryIs(ws, user, c)
    ensures PrimaryIs(Apply(ws, r), user, c)
  {
    var after, k := Apply(ws, r), Row(ws, Some(r.user), r.address.value).value;
    if c.Some? {
      var i :| 0 <= i < |ws| && ws[i].user == user && ws[i].checksum == c.value;
      assert i != k;
      assert after[if i < k then i else i - 1] == ws[i];
    }
  }

  lemma SetPrimaryMovesPrimary(ws: seq<Wallet>, r: Request, user: UserId, c: Option<Address>)
    requires r.SetPrimary? && Check(ws, r).None? && NoAddressTwice(ws) && PrimaryIs(ws, user, c)
    ensures PrimaryIs(Apply(ws, r), user, if r.user == user then r.address else c)
  {
    var after, k := Apply(ws, r), Row(ws, Some(r.user), r.address.value).value;
    if r.user == user {
      assert after[k].user == user && after[k].checksum == r.address.value;
    } else if c.Some? {
      var i :| 0 <= i < |ws| && ws[i].user == user && ws[i].checksum == c.value;
      assert after[i] == ws[i];
    }
  }

  /** In every sequential run of link, unlink and set-primary over any users no address is
      stored twice, and each user who has a wallet has exactly one primary wallet: the one last
      made primary, or else the first one linked. */
  lemma {:induction false} OnePrimaryEach(run: seq<Request>, user: UserId)
    ensures NoAddressTwice(Table(run))
    ensures PrimaryIs(Table(run), user, Chosen(run, user))
  {
    if run != [] {
      var front, r := run[..|run| - 1], run[|run| - 1];
      var ws, c := Table(front), Chosen(front, user);
      OnePrimaryEach(front, user);
      ApplyKeepsAddresses(ws, r);
      if Check(ws, r).None? {
        match r
        case Link(_, _, _, _, _, _) => LinkKeepsPrimary(ws, r, user, c);
        case Unlink(_, _) => UnlinkKeepsPrimary(ws, r, user, c);
        case SetPrimary(_, _) => SetPrimaryMovesPrimary(ws, r, user, c);
      }
    }
  }

  /** Once a user has linked a wallet the user always has one. */
  lemma NeverWithoutWalletAgain(run: seq<Request>, more: seq<Request>, user: UserId)
    requires HasWallet(Table(run), user)
    ensures HasWallet(Table(run + more), user)
  {
    OnePrimaryEach(run, user);
    ChosenStays(run, more, user);
    OnePrimaryEach(run + more, user);
  }

  lemma {:induction false} ChosenStays(run: seq<Request>, more: seq<Request>, user: UserId)
    requires Chosen(run, user).Some?
    ensures Chosen(run + more, user).Some?
  {
    if more == [] {
      assert run + more == run;
    } else {
      ChosenStays(run, more[..|more| - 1], user);
      assert (run + more)[..|run + more| - 1] == run + more[..|more| - 1];
    }
  }

  predicate Owns(w: Wallet, user: UserId, c: Address) { w.user == user && w.checksum == c }

  ghost predicate Unlinked(ws: seq<Wallet>, c: Address) { forall i :: 0 <= i < |ws| ==> ws[i].checksum != c }

  ghost predicate NotLinkedTo(ws: seq<Wallet>, user: UserId, c: Address) { forall i :: 0 <= i < |ws| ==> !Owns(ws[i], user, c) }

  // ---------------------------------------------------------------- the service

  /** One database session: the methods work on its own copy of the rows, which a commit
      publishes and an exception throws away. */
  class WalletService {
    var committed: seq<Wallet>
    var rows: seq<Wallet>

    constructor ()
      ensures committed == [] && rows == committed
    {
      committed, rows := [], [];
    }

    method LinkWallet(r: Request) returns (reply: Result<Wallet, Refusal>)
      requires r.Link? && rows == committed
      modifies this
      ensures rows == committed == Apply(old(committed), r)
      ensures if reply.Ok? then committed == old(committed) + [reply.value] else Check(old(committed), r) == Some(reply.error)
      ensures reply.Ok? <==> r.signed && r.address.Some? && r.screening.Some? && Unlinked(old(committed), r.address.value)
      ensures reply.Err? ==>
                reply.error == if !r.signed then InvalidSignature else if r.address.None? then InvalidAddress
                               else if !Unlinked(old(committed), r.address.value) then WalletExists else ScreeningRefused
      ensures reply.Err? ==> committed == old(committed)
      ensures reply.Ok? ==> reply.value == Wallet(r.user, r.address.value, forall i :: 0 <= i < |old(committed)| ==> old(committed)[i].user != r.user,
                                                  r.isSafe, r.tag, r.screening.value)
    {
      if !r.signed { return Err(InvalidSignature); }
      if r.address.None? { return Err(InvalidAddress); }
      if Row(rows, None, r.address.value).Some? { return Err(WalletExists); }
      var current := ListWallets(r.user);
      assert |current| > 0 ==> rows[current[0]].user == r.user;
      if r.screening.None? { return Err(ScreeningRefused); }
      var wallet := Wallet(r.user, r.address.value, |current| == 0, r.isSafe, r.tag, r.screening.value);
      rows := rows + [wallet];
      committed := rows;
      return Ok(wallet);
    }

    /** The indices of the user's rows, in order. */
    method ListWallets(user: UserId) returns (mine: seq<nat>)
      ensures forall i :: 0 <= i < |mine| ==> mine[i] < |rows| && rows[mine[i]].user == user
      ensures forall i, j :: 0 <= i < j < |mine| ==> mine[i] < mine[j]
      ensures forall k :: 0 <= k < |rows| && rows[k].user == user ==> k in mine
    {
      mine := [];
      for n := 0 to |rows|
        invariant forall i :: 0 <= i < |mine| ==> mine[i] < n && rows[mine[i]].user == user
        invariant forall i, j :: 0 <= i < j < |mine| ==> mine[i] < mine[j]
        invariant forall k :: 0 <= k < n && rows[k].user == user ==> k in mine
      {
        if rows[n].user == user { mine := mine + [n]; }
      }
    }

    method UnlinkWallet(r: Request) returns (refusal: Option<Refusal>)
      requires r.Unlink? && rows == committed
      modifies this
      ensures rows == committed == Apply(old(committed), r)
      ensures refusal == Check(old(committed), r)
      ensures refusal.Some? ==> committed == old(committed)
      ensures refusal.None? ==>
                && r.address.Some?
                && exists k :: 0 <= k < |old(committed)| && Owns(old(committed)[k], r.user, r.address.value) && !old(committed)[k].isPrimary
                     && committed == old(committed)[..k] + old(committed)[k + 1..]
      ensures refusal == Some(InvalidAddress) <==> r.address.None?
      ensures refusal == Some(WalletNotFound) <==> r.address.Some? && NotLinkedTo(old(committed), r.user, r.address.value)
      ensures refusal.Some? ==> refusal.value in {InvalidAddress, WalletNotFound, IsPrimaryWallet}
      ensures refusal == Some(IsPrimaryWallet) ==>
                exists k :: 0 <= k < |committed| && Owns(committed[k], r.user, r.address.value) && committed[k].isPrimary
    {
      if r.address.None? { return Some(InvalidAddress); }
      var k := Row(rows, Some(r.user), r.address.value);
      if k.None? { return Some(WalletNotFound); }
      if rows[k.value].isPrimary { return Some(IsPrimaryWallet); }
      rows := rows[..k.value] + rows[k.value + 1..];
      committed := rows;
      return None;
    }

    /** Clears every flag of the user before it knows whether the target exists; when it does
        not, the rollback keeps the cleared flags from being committed. */
    method SetPrimaryWallet(r: Request) returns (refusal: Option<Refusal>)
      requires r.SetPrimary? && rows == committed
      modifies this
      ensures rows == committed == Apply(old(committed), r)
      ensures refusal == Check(old(committed), r)
      ensures refusal.Some? ==> committed == old(committed)
      ensures refusal == if r.address.None? then Some(InvalidAddress)
                         else if NotLinkedTo(old(committed), r.user, r.address.value) then Some(WalletNotFound) else None
      ensures refusal.None? && NoAddressTwice(old(committed)) ==>
                && |committed| == |old(committed)|
                && forall i :: 0 <= i < |committed| ==>
                     committed[i] == if old(committed)[i].user == r.user
                                     then old(committed)[i].(isPrimary := old(committed)[i].checksum == r.address.value)
                                     else old(committed)[i]
    {
      if r.address.None? { return Some(InvalidAddress); }
      ghost var before := rows;
      var target: Option<nat> := None;
      for n := 0 to |rows|
        invariant |rows| == |before|
        invariant committed == before
        invariant target == Row(before[..n], Some(r.user), r.address.value)
        invariant forall i :: 0 <= i < |rows| ==>
            rows[i] == if i < n && before[i].user == r.user then before[i].(isPrimary := false) else before[i]
      {
        assert before[..n + 1][..n] == before[..n];
        if rows[n].user == r.user {
          if rows[n].checksum == r.address.value { target := Some(n); }
          rows := rows[n := rows[n].(isPrimary := false)];
        }
      }
      assert before[..|before|] == before;
      if target.None? {
        rows := committed;
        return Some(WalletNotFound);
      }
      rows := rows[target.value := rows[target.value].(isPrimary := true)];
      assert rows == Flagged(before, r.user, target.value);
      committed := rows;
      return None;
    }
  }
}
