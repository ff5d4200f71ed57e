/**
  The login lockout: how fast passwords can be guessed against one account.

  Times are milliseconds; whether the password matches is an input of the attempt.
*/
module Lockout {
  import opened Wrappers

  type Time = int

  const MAX_FAILED_ATTEMPTS: nat := 5
  const LOCKOUT: Time := 15 * 60 * 1000

  datatype Account = Account(failedLoginAttempts: nat, lockedUntil: Option<Time>)

  /** One request: when, whether the account is active then, and whether the password is right. */
  datatype Attempt = Attempt(now: Time, active: bool, matches: bool)

  datatype Outcome = Deactivated | Locked | WrongPassword | LoggedIn

  const NEW_ACCOUNT := Account(0, None)

  predicate LockedAt(a: Account, now: Time) { a.lockedUntil.Some? && a.lockedUntil.value > now }

  function OutcomeOf(a: Account, t: Attempt): Outcome {
    if !t.active then Deactivated
    else if LockedAt(a, t.now) then Locked
    else if t.matches then LoggedIn
    else WrongPassword
  }

  function After(a: Account, t: Attempt): Account {
    match OutcomeOf(a, t)
    case WrongPassword =>
      var failures := a.failedLoginAttempts + 1;
      Account(failures, if failures >= MAX_FAILED_ATTEMPTS then Some(t.now + LOCKOUT) else a.lockedUntil)
    case LoggedIn => NEW_ACCOUNT
    case _ => a
  }

  function Run(attempts: seq<Attempt>): Account {
    if attempts == [] then NEW_ACCOUNT else After(Run(attempts[..|attempts| - 1]), attempts[|attempts| - 1])
  }

  /** The lock that five or more failures in a row have set is still in the future. */
  predicate StillLocked(failures: seq<Time>, now: Time) {
    |failures| >= MAX_FAILED_ATTEMPTS && now < failures[|failures| - 1] + LOCKOUT
  }

  /**
    The times of the failures since the last login, told from the attempts alone: an attempt on
    an inactive account or before the lock has run out counts for nothing, a right password
    starts over, a wrong one is a failure.
  */
  function Streak(attempts: seq<Attempt>): seq<Time> {
    if attempts == [] then []
    else
      var failures, last := Streak(attempts[..|attempts| - 1]), attempts[|attempts| - 1];
      if !last.active || StillLocked(failures, last.now) then failures
      else if last.matches then []
      else failures + [last.now]
  }

  /** The stored fields are what the streak says, and from the sixth on failures keep their distance. */
  lemma {:induction false} AccountReflectsStreak(attempts: seq<Attempt>)
    ensures var a, s := Run(attempts), Streak(attempts);
            && a.failedLoginAttempts == |s|
            && a.lockedUntil == (if |s| < MAX_FAILED_ATTEMPTS then None else Some(s[|s| - 1] + LOCKOUT))
            && (forall k | MAX_FAILED_ATTEMPTS <= k < |s| :: s[k] >= s[k - 1] + LOCKOUT)
  {
    if attempts != [] { AccountReflectsStreak(attempts[..|attempts| - 1]); }
  }

  /** An attempt with a wrong password on an active account, at that time. */
  predicate FailsAt(t: Attempt, now: Time) { t.active && !t.matches && t.now == now }

  /** Every failure of the streak is such an attempt. */
  lemma {:induction false} StreakIsOfFailures(attempts: seq<Attempt>)
    ensures |Streak(attempts)| <= |attempts|
    ensures forall k | 0 <= k < |Streak(attempts)| ::
              exists i | 0 <= i < |attempts| :: FailsAt(attempts[i], Streak(attempts)[k])
  {
    if attempts != [] {
      var n := |attempts| - 1;
      var s := Streak(attempts);
      StreakIsOfFailures(attempts[..n]);
      forall k | 0 <= k < |s| ensures exists i | 0 <= i < |attempts| :: FailsAt(attempts[i], s[k]) {
        if k < |Streak(attempts[..n])| {
          var i :| 0 <= i < n && FailsAt(attempts[..n][i], Streak(attempts[..n])[k]);
          assert FailsAt(attempts[i], s[k]);
        } else {
          assert FailsAt(attempts[n], s[k]);
        }
      }
    }
  }

  /**
    The rate bound: over any run, the n-th consecutive failure with n > 5 comes no earlier
    than 15 * (n - 5) minutes after the fifth.
  */
  lemma {:induction false} RateBound(attempts: seq<Attempt>, n: nat)
    requires MAX_FAILED_ATTEMPTS < n <= |Streak(attempts)|
    ensures Streak(attempts)[n - 1] >= Streak(attempts)[MAX_FAILED_ATTEMPTS - 1] + LOCKOUT * (n - MAX_FAILED_ATTEMPTS)
    decreases n
  {
    AccountReflectsStreak(attempts);
    var s := Streak(attempts);
    assert s[n - 1] >= s[n - 2] + LOCKOUT;
    if n > MAX_FAILED_ATTEMPTS + 1 { RateBound(attempts, n - 1); }
  }

  /**
    What every attempt of every run is answered: with the right password a login and with a
    wrong one a failure, exactly when the account is active and fewer than five failures, or
    fifteen minutes since the last, lie behind.
  */
  lemma OutcomeIsExact(attempts: seq<Attempt>, t: Attempt)
    ensures var s, outcome := Streak(attempts), OutcomeOf(Run(attempts), t);
            var open := |s| < MAX_FAILED_ATTEMPTS || t.now >= s[|s| - 1] + LOCKOUT;
            && (outcome == LoggedIn <==> t.active && open && t.matches)
            && (outcome == WrongPassword <==> t.active && open && !t.matches)
            && (outcome == Locked <==> t.active && !open)
            && (outcome == Deactivated <==> !t.active)
  {
    AccountReflectsStreak(attempts);
  }

  /** A refused or locked attempt, right password or not, leaves no trace and does not extend the lock. */
  lemma BlockedAttemptsDoNotCount(attempts: seq<Attempt>, t: Attempt)
    requires !t.active || StillLocked(Streak(attempts), t.now)
    ensures Run(attempts + [t]) == Run(attempts) && Streak(attempts + [t]) == Streak(attempts)
  {
    assert (attempts + [t])[..|attempts|] == attempts;
    AccountReflectsStreak(attempts);
  }

  class LoginService {
    var account: Account
    ghost var history: seq<Attempt>

    ghost predicate Valid()
      reads this
    {
      account == Run(history)
    }

    constructor ()
      ensures Valid() && history == []
    {
      account, history := NEW_ACCOUNT, [];
    }

    method ValidateUser(t: Attempt) returns (outcome: Outcome)
      requires Valid()
      modifies this
      ensures Valid() && history == old(history) + [t]
      ensures outcome == LoggedIn <==> t.active && t.matches && !StillLocked(Streak(old(history)), t.now)
      ensures outcome == WrongPassword <==> t.active && !t.matches && !StillLocked(Streak(old(history)), t.now)
      ensures outcome == Locked <==> t.active && StillLocked(Streak(old(history)), t.now)
    {
      assert (history + [t])[..|history|] == history;
      OutcomeIsExact(history, t);
      history := history + [t];
      if !t.active {
        return Deactivated;
      }
      if account.lockedUntil.Some? && account.lockedUntil.value > t.now {
        return Locked;
      }
      if !t.matches {
        HandleFailedLogin(account.failedLoginAttempts, t.now);
        return WrongPassword;
      }
      account := account.(failedLoginAttempts := 0, lockedUntil := None);
      return LoggedIn;
    }

    /** `currentFailedAttempts` was read before; the stored counter is incremented. */
    method HandleFailedLogin(currentFailedAttempts: nat, now: Time)
      modifies this`account
      ensures account.failedLoginAttempts == old(account).failedLoginAttempts + 1
      ensures account.lockedUntil ==
        if currentFailedAttempts + 1 >= MAX_FAILED_ATTEMPTS then Some(now + LOCKOUT) else old(account).lockedUntil
    {
      var nextFailedAttempts := currentFailedAttempts + 1;
      account := account.(failedLoginAttempts := account.failedLoginAttempts + 1);
      if nextFailedAttempts >= MAX_FAILED_ATTEMPTS {
        account := account.(lockedUntil := Some(now + LOCKOUT));
      }
    }
  }
}
