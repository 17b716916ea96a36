/**
 The account lockout, over whole runs: how many wrong passwords can be checked against one account
 in a span of time. Bookkeeping is taken to succeed, and the two limits are fixed for the run.
 */
module Lockout {
  import opened Common
  import opened AuthTables
  import opened SessionRuns
  import opened Accounts

  /** All logins of the run use these limits, as read from the environment. */
  ghost predicate FixedLimits(es: seq<Event>, maxFailures: int, lockMinutes: int) {
    forall i :: 0 <= i < |es| && es[i].DoLogin? ==> es[i].maxFailures == maxFailures && es[i].lockMinutes == lockMinutes
  }

  /** A lock time is stored exactly when the failure count has reached the limit. */
  ghost predicate LockConsistent(users: seq<User>, maxFailures: int) {
    forall i :: 0 <= i < |users| ==> (users[i].lockedUntil.Some? <==> users[i].failures >= Max(1, maxFailures))
  }

  lemma StepLockConsistent(p: Policy, w: World, e: Event, maxFailures: int)
    requires LockConsistent(w.db.users, maxFailures)
    requires e.DoLogin? ==> e.maxFailures == maxFailures
    ensures LockConsistent(Step(p, w, e).db.users, maxFailures)
  {
  }

  /** Along every run the lock time and the failure count stay in step. */
  lemma {:induction false} RunLockConsistent(p: Policy, w: World, es: seq<Event>, maxFailures: int, lockMinutes: int)
    requires LockConsistent(w.db.users, maxFailures) && FixedLimits(es, maxFailures, lockMinutes)
    ensures LockConsistent(Exec(p, w, es).db.users, maxFailures)
    decreases |es|
  {
    if es != [] {
      StepLockConsistent(p, w, es[0], maxFailures);
      RunLockConsistent(p, Step(p, w, es[0]), es[1..], maxFailures, lockMinutes);
    }
  }

  /** The step has a password checked against this account: it is found by its address, active and not locked. */
  predicate Checks(p: Policy, w: World, e: Event, user: nat) {
    && e.DoLogin? && user < |w.db.users| && FindUser(w.db.users, p.norm(e.email)) == Some(user)
    && Open(w.db.users[user], w.now)
  }

  predicate WrongPassword(p: Policy, w: World, e: Event, user: nat) {
    Checks(p, w, e, user) && w.db.users[user].password != Hashed(e.password)
  }

  predicate RightPassword(p: Policy, w: World, e: Event, user: nat) {
    Checks(p, w, e, user) && w.db.users[user].password == Hashed(e.password)
  }

  ghost function FailedChecks(p: Policy, w: World, es: seq<Event>, user: nat): nat
    decreases |es|
  {
    if es == [] then 0
    else (if WrongPassword(p, w, es[0], user) then 1 else 0) + FailedChecks(p, Step(p, w, es[0]), es[1..], user)
  }

  ghost predicate NoSuccess(p: Policy, w: World, es: seq<Event>, user: nat)
    decreases |es|
  {
    es == [] || (!RightPassword(p, w, es[0], user) && NoSuccess(p, Step(p, w, es[0]), es[1..], user))
  }

  /** The account can take `n` more failed checks from `now` and be done by `end`. */
  ghost predicate Room(u: User, now: int, end: int, m: int, span: int, n: nat)
    requires u.lockedUntil.Some? <==> u.failures >= m
  {
    if u.failures < m then
      var extra := n - (m - u.failures);
      extra <= 0 || extra * span <= end - now
    else
      var free := Max(u.lockedUntil.value, now);
      n == 0 || (n - 1) * span <= end - free
  }

  /** A failed check at an unlocked account needs one more unit of room than what follows it. */
  lemma FailureTakesRoom(u: User, now: int, end: int, maxFailures: int, lockMinutes: int, n: nat)
    requires now <= end
    requires u.lockedUntil.Some? <==> u.failures >= Max(1, maxFailures)
    requires u.lockedUntil.Some? ==> u.lockedUntil.value <= now
    requires Room(WithFailure(u, maxFailures, lockMinutes, now), now, end,
                  Max(1, maxFailures), Max(1, lockMinutes) * MINUTE, n)
    ensures Room(u, now, end, Max(1, maxFailures), Max(1, lockMinutes) * MINUTE, n + 1)
  {
    var span := Max(1, lockMinutes) * MINUTE;
    if u.failures + 1 >= Max(1, maxFailures) {
      assert n == 0 || (n - 1) * span <= end - (now + span);
      assert (n - 1) * span == n * span - span;
    }
  }

  /** Room left later was there earlier. */
  lemma WaitingKeepsRoom(u: User, u': User, now: int, later: int, end: int, m: int, span: int, n: nat)
    requires now <= later <= end
    requires u'.failures == u.failures && u'.lockedUntil == u.lockedUntil
    requires u.lockedUntil.Some? <==> u.failures >= m
    requires Room(u', later, end, m, span, n)
    ensures Room(u, now, end, m, span, n)
  {
  }

  lemma NothingNeedsNoRoom(u: User, now: int, m: int, span: int)
    requires span >= 0 && (u.lockedUntil.Some? <==> u.failures >= m)
    ensures Room(u, now, now, m, span, 0)
  {
  }

  lemma RoomIsBounded(u: User, now: int, end: int, m: int, span: int, n: nat)
    requires m >= 1 && span >= 0 && now <= end
    requires u.lockedUntil.Some? <==> u.failures >= m
    requires Room(u, now, end, m, span, n)
    ensures n <= m || (n - m) * span <= end - now
  {
    if n > m {
      Scale(n - m, if u.failures < m then n - (m - u.failures) else n - 1, span);
    }
  }

  lemma {:induction false} ClockGoesForward(p: Policy, w: World, es: seq<Event>)
    ensures w.now <= Exec(p, w, es).now
    decreases |es|
  {
    if es != [] { ClockGoesForward(p, Step(p, w, es[0]), es[1..]); }
  }

  /** Nothing but its own logins moves an account's failure count and lock time. */
  lemma StepLock(p: Policy, w: World, e: Event, user: nat)
    requires user < |w.db.users| && !RightPassword(p, w, e, user)
    ensures user < |Step(p, w, e).db.users| && w.now <= Step(p, w, e).now
    ensures WrongPassword(p, w, e, user) ==> Step(p, w, e).now == w.now
    ensures var u, u' := w.db.users[user], Step(p, w, e).db.users[user];
      if WrongPassword(p, w, e, user) then
        && u' == WithFailure(u, e.maxFailures, e.lockMinutes, w.now)
        && !(u.lockedUntil.Some? && u.lockedUntil.value > w.now)
      else u'.failures == u.failures && u'.lockedUntil == u.lockedUntil
  {
  }

  lemma {:induction false} FailuresHaveRoom(p: Policy, w: World, es: seq<Event>, user: nat,
                                            maxFailures: int, lockMinutes: int)
    requires user < |w.db.users| && LockConsistent(w.db.users, maxFailures)
    requires FixedLimits(es, maxFailures, lockMinutes) && NoSuccess(p, w, es, user)
    ensures Room(w.db.users[user], w.now, Exec(p, w, es).now, Max(1, maxFailures), Max(1, lockMinutes) * MINUTE,
                 FailedChecks(p, w, es, user))
    decreases |es|
  {
    hide Step, Serve, Room, WithFailure, RightPassword, FindUser, Login, Register, OAuthGoogle;
    if es == [] {
      NothingNeedsNoRoom(w.db.users[user], w.now, Max(1, maxFailures), Max(1, lockMinutes) * MINUTE);
    } else {
      var e, w' := es[0], Step(p, w, es[0]);
      StepLockConsistent(p, w, e, maxFailures);
      StepLock(p, w, e, user);
      ClockGoesForward(p, w', es[1..]);
      FailuresHaveRoom(p, w', es[1..], user, maxFailures, lockMinutes);
      if WrongPassword(p, w, e, user) {
        FailureTakesRoom(w.db.users[user], w.now, Exec(p, w, es).now, maxFailures, lockMinutes,
          FailedChecks(p, w', es[1..], user));
      } else {
        WaitingKeepsRoom(w.db.users[user], w'.db.users[user], w.now, w'.now, Exec(p, w, es).now,
          Max(1, maxFailures), Max(1, lockMinutes) * MINUTE, FailedChecks(p, w', es[1..], user));
      }
    }
  }

  /**
   In any stretch of any run without a success, at most m + floor(T / L) wrong passwords are checked against an
   account, T being the time the stretch lasts: the checks beyond m times L fit into T.
   */
  lemma LockoutBound(p: Policy, w: World, es: seq<Event>, user: nat, maxFailures: int, lockMinutes: int)
    requires user < |w.db.users| && LockConsistent(w.db.users, maxFailures)
    requires FixedLimits(es, maxFailures, lockMinutes) && NoSuccess(p, w, es, user)
    ensures var n, m := FailedChecks(p, w, es, user), Max(1, maxFailures);
      n <= m || (n - m) * (60 * Max(1, lockMinutes)) <= Exec(p, w, es).now - w.now
  {
    hide Step, Serve, Room, FindUser;
    FailuresHaveRoom(p, w, es, user, maxFailures, lockMinutes);
    ClockGoesForward(p, w, es);
    RoomIsBounded(w.db.users[user], w.now, Exec(p, w, es).now, Max(1, maxFailures), Max(1, lockMinutes) * MINUTE,
      FailedChecks(p, w, es, user));
  }
}
