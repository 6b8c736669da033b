/** Login brute-force lockout: five wrong passwords lock the account for fifteen minutes,
    and the counter is cleared only by a successful login or a password reset. */
module LoginLockout {
  import opened Wrappers

  const MAX_ATTEMPTS: int := 5
  /** Seconds. */
  const LOCKOUT: real := 900.0

  datatype Account = Account(failedLoginAttempts: int, lockedUntil: Option<real>)

  /** One login: when the lock was checked, when a failure would be recorded, and whether the
      password matched. */
  datatype Attempt = Attempt(check: real, record: real, correct: bool)

  predicate Locked(a: Account, now: real) {
    a.lockedUntil.Some? && now < a.lockedUntil.value
  }

  /** The login sequence on the account row. */
  function Login(a: Account, t: Attempt): Account {
    if Locked(a, t.check) then a
    else if t.correct then Account(0, None)
    else
      var n := a.failedLoginAttempts + 1;
      Account(n, if n >= MAX_ATTEMPTS then Some(t.record + LOCKOUT) else a.lockedUntil)
  }

  function After(a: Account, ts: seq<Attempt>): Account {
    if ts == [] then a else Login(After(a, ts[..|ts| - 1]), ts[|ts| - 1])
  }

  /** How many passwords were actually compared. */
  function Evaluated(a: Account, ts: seq<Attempt>): nat {
    if ts == [] then 0
    else
      var front := ts[..|ts| - 1];
      Evaluated(a, front) + if Locked(After(a, front), ts[|ts| - 1].check) then 0 else 1
  }

  /** Sequential wrong logins inside the interval from..to. */
  ghost predicate WrongLogins(ts: seq<Attempt>, from: real, to: real) {
    && (forall i :: 0 <= i < |ts| ==> from <= ts[i].check <= ts[i].record <= to && !ts[i].correct)
    && (forall i, j :: 0 <= i < j < |ts| ==> ts[i].record <= ts[j].check)
  }

  /** From the fifth evaluation on, the lock reaches past the time those already made need. */
  lemma {:induction false} LockReaches(a: Account, ts: seq<Attempt>, from: real, to: real)
    requires a.failedLoginAttempts >= 0 && WrongLogins(ts, from, to) && from <= to
    ensures var n := Evaluated(a, ts);
            && After(a, ts).failedLoginAttempts >= n
            && (n >= 5 ==> After(a, ts).lockedUntil.Some? && After(a, ts).lockedUntil.value >= from + (n - 4) as real * LOCKOUT)
            && (n >= 5 ==> from + (n - 5) as real * LOCKOUT <= to)
  {
    if ts != [] {
      LockReaches(a, ts[..|ts| - 1], from, to);
    }
  }

  /** In any interval of length T without a successful login or reset, sequential logins
      compare at most 5 + floor(T / 15 min) wrong passwords, whatever the account's state. */
  lemma WrongPasswordsBounded(a: Account, ts: seq<Attempt>, from: real, to: real)
    requires a.failedLoginAttempts >= 0 && WrongLogins(ts, from, to) && from <= to
    ensures Evaluated(a, ts) <= 5 + ((to - from) / LOCKOUT).Floor
  {
    LockReaches(a, ts, from, to);
    var n := Evaluated(a, ts);
    assert (to - from) / LOCKOUT * LOCKOUT == to - from;
    if n >= 5 {
      assert (n - 5) as real <= (to - from) / LOCKOUT;
    }
  }

  /** Five wrong passwords at once, then one whenever the lock runs out. */
  function Persistent(n: nat): (ts: seq<Attempt>)
    ensures |ts| == n
  {
    if n == 0 then []
    else
      var at := if n <= 5 then 0.0 else (n - 5) as real * LOCKOUT;
      Persistent(n - 1) + [Attempt(at, at, false)]
  }

  lemma {:induction false} PersistentTimes(n: nat)
    ensures forall i :: 0 <= i < n ==>
              var at := if i < 5 then 0.0 else (i - 4) as real * LOCKOUT;
              Persistent(n)[i] == Attempt(at, at, false)
  {
    if n > 0 {
      PersistentTimes(n - 1);
    }
  }

  lemma {:induction false} PersistentRuns(n: nat)
    ensures Evaluated(Account(0, None), Persistent(n)) == n
    ensures After(Account(0, None), Persistent(n))
         == Account(n, if n < 5 then None else Some((n - 4) as real * LOCKOUT))
  {
    if n > 0 {
      PersistentRuns(n - 1);
      assert Persistent(n)[..n - 1] == Persistent(n - 1);
    }
  }

  /** The bound is attained: in k lockout periods a fresh account has 5 + k wrong passwords
      compared. */
  lemma BoundIsAttained(k: nat)
    ensures var ts, to := Persistent(5 + k), k as real * LOCKOUT;
            && WrongLogins(ts, 0.0, to)
            && Evaluated(Account(0, None), ts) == 5 + (to / LOCKOUT).Floor
  {
    PersistentTimes(5 + k);
    PersistentRuns(5 + k);
    assert k as real * LOCKOUT / LOCKOUT == k as real;
  }

  /** Only a lock refuses a login unseen, and only for the time it was set for. */
  lemma LockedOnlyAfterFive(a: Account, ts: seq<Attempt>, now: real)
    requires a == Account(0, None)
    requires Locked(After(a, ts), now)
    ensures exists i :: 0 <= i < |ts| && !ts[i].correct && now < ts[i].record + LOCKOUT
    ensures Evaluated(a, ts) >= 5
  {
    LockSource(ts);
  }

  lemma {:induction false} LockSource(ts: seq<Attempt>)
    ensures var b := After(Account(0, None), ts);
            && 0 <= b.failedLoginAttempts <= Evaluated(Account(0, None), ts)
            && (b.lockedUntil.Some? ==> b.failedLoginAttempts >= 5)
            && (b.lockedUntil.Some? ==> exists i :: 0 <= i < |ts| && !ts[i].correct && b.lockedUntil.value == ts[i].record + LOCKOUT)
  {
    if ts != [] {
      var front := ts[..|ts| - 1];
      LockSource(front);
      var b, b' := After(Account(0, None), front), After(Account(0, None), ts);
      if b'.lockedUntil.Some? {
        if b'.lockedUntil == b.lockedUntil {
          var i :| 0 <= i < |front| && !front[i].correct && b.lockedUntil.value == front[i].record + LOCKOUT;
          assert ts[i] == front[i];
        } else {
          assert b'.lockedUntil.value == ts[|ts| - 1].record + LOCKOUT;
        }
      }
    }
  }

  datatype LoginOutcome = AccountLocked | InvalidCredentials | LoggedIn

  class User {
    var failedLoginAttempts: int
    var lockedUntil: Option<real>

    function Row(): Account
      reads this
    {
      Account(failedLoginAttempts, lockedUntil)
    }

    constructor ()
      ensures Row() == Account(0, None)
    {
      failedLoginAttempts, lockedUntil := 0, None;
    }

    method RecordFailedLogin(now: real)
      modifies this
      ensures failedLoginAttempts == old(failedLoginAttempts) + 1
      ensures lockedUntil == if failedLoginAttempts >= 5 then Some(now + 900.0) else old(lockedUntil)
    {
      failedLoginAttempts := failedLoginAttempts + 1;
      if failedLoginAttempts >= MAX_ATTEMPTS {
        lockedUntil := Some(now + LOCKOUT);
      }
    }

    /** The login endpoint for an existing account. */
    method TryLogin(t: Attempt) returns (r: LoginOutcome)
      modifies this
      ensures Row() == Login(old(Row()), t)
      ensures r == (if Locked(old(Row()), t.check) then AccountLocked
                    else if t.correct then LoggedIn else InvalidCredentials)
      ensures r == AccountLocked <==> old(lockedUntil).Some? && t.check < old(lockedUntil).value
      ensures r == AccountLocked ==> unchanged(this)
      ensures r == LoggedIn ==> t.correct && failedLoginAttempts == 0 && lockedUntil == None
      ensures r == InvalidCredentials ==>
                && !t.correct && failedLoginAttempts == old(failedLoginAttempts) + 1
                && lockedUntil == if failedLoginAttempts >= 5 then Some(t.record + 900.0) else old(lockedUntil)
    {
      if lockedUntil.Some? && t.check < lockedUntil.value {
        return AccountLocked;
      }
      if !t.correct {
        RecordFailedLogin(t.record);
        return InvalidCredentials;
      }
      failedLoginAttempts, lockedUntil := 0, None;
      r := LoggedIn;
    }
  }
}
