/**
 What becomes of a user's row over whole runs, and with which password a user can sign in: told from the rows
 and from what was presented, field by field, not route by route.
 */
module Accounts {
  import opened Common
  import opened AuthTables
  import opened SessionRuns

  /* ---- what the lookups find ---- */

  lemma AddressFound(p: Policy, users: seq<User>, u: nat)
    requires EmailsOk(p, users) && u < |users|
    ensures FindUser(users, users[u].email) == Some(u)
  {
  }

  /** The one-time token presented is that of row `id`, for this purpose, not yet used or run out. */
  ghost predicate Redeems(w: World, presented: string, purpose: Purpose, id: nat) {
    && presented != ""
    && id < |w.db.oneTime|
    && w.db.oneTime[id].hash == Sha(presented)
    && w.db.oneTime[id].purpose == purpose
    && w.db.oneTime[id].consumedAt.None?
    && w.now < w.db.oneTime[id].expiresAt
    && w.db.oneTime[id].user.Some?
  }

  lemma RedeemableIff(w: World, presented: string, purpose: Purpose, id: nat)
    requires OneTimeOk(w.db.oneTime, |w.db.users|)
    ensures Redeemable(w.db, presented, purpose, w.now) == Some(id) <==> Redeems(w, presented, purpose, id)
  {
  }

  /* ---- one step and one user ---- */

  /** The step resets this user's password. */
  ghost predicate Resets(p: Policy, w: World, e: Event, u: nat) {
    && e.DoResetPassword? && p.strong(e.password)
    && exists id: nat :: Redeems(w, e.presented, PasswordReset, id) && w.db.oneTime[id].user == Some(u)
  }

  /** The step verifies this user's address. */
  ghost predicate Verifies(w: World, e: Event, u: nat) {
    && e.DoVerifyEmail?
    && exists id: nat :: Redeems(w, e.presented, VerifyAddress, id) && w.db.oneTime[id].user == Some(u)
  }

  /** The step gives this user another address. */
  ghost predicate Moves(p: Policy, w: World, e: Event, u: nat) {
    && e.DoChangeEmail? && e.subject == u && p.norm(e.email) != ""
    && forall i :: 0 <= i < |w.db.users| && i != u ==> w.db.users[i].email != p.norm(e.email)
  }

  lemma RedeemedFor(w: World, presented: string, purpose: Purpose, u: nat)
    requires OneTimeOk(w.db.oneTime, |w.db.users|)
    ensures var r := Redeemable(w.db, presented, purpose, w.now);
      (exists id: nat :: Redeems(w, presented, purpose, id) && w.db.oneTime[id].user == Some(u))
      <==> r.Some? && w.db.oneTime[r.value].user == Some(u)
  {
    var r := Redeemable(w.db, presented, purpose, w.now);
    if r.Some? { RedeemableIff(w, presented, purpose, r.value); }
    hide OneTimeOk, Redeemable;
    if id: nat :| Redeems(w, presented, purpose, id) && w.db.oneTime[id].user == Some(u) {
      RedeemableIff(w, presented, purpose, id);
    }
  }

  lemma RedeemedUser(p: Policy, w: World, e: Event, u: nat)
    requires OneTimeOk(w.db.oneTime, |w.db.users|)
    ensures Verifies(w, e, u) <==> e.DoVerifyEmail? && Serve(p, w, e).1 == Changed(u)
    ensures Resets(p, w, e, u) <==> e.DoResetPassword? && Serve(p, w, e).1 == Changed(u)
  {
    hide OneTimeOk, Redeems, FindOneTime, RevokeAll;
    if e.DoVerifyEmail? {
      RedeemedFor(w, e.presented, VerifyAddress, u);
    } else if e.DoResetPassword? {
      RedeemedFor(w, e.presented, PasswordReset, u);
    }
  }

  /** What one step does to one user, whichever route it takes. */
  lemma UserAfterStep(p: Policy, w: World, e: Event, u: nat)
    requires Inv(p, w) && u < |w.db.users|
    ensures u < |Step(p, w, e).db.users|
    ensures var old', new' := w.db.users[u], Step(p, w, e).db.users[u];
      && new'.password == (if Resets(p, w, e, u) then Hashed(e.password) else old'.password)
      && new'.email == (if Moves(p, w, e, u) then p.norm(e.email) else old'.email)
      && new'.verified == (if Verifies(w, e, u) then true else !Moves(p, w, e, u) && old'.verified)
      && new'.active == (if e.DoSetActive? && e.user == u then e.active else old'.active)
  {
    RedeemedUser(p, w, e, u);
    hide Inv, Resets, Verifies, FindUser, FindRefresh, FindOneTime, FindOAuth, RevokeAll, Redeemable;
  }

  /** The step creates a user: a registration, or a Google sign-in without a link, with an address nobody has. */
  ghost predicate Joins(p: Policy, w: World, e: Event) {
    && ((e.DoRegister? && p.strong(e.password)) || (e.DoOAuth? && !exists u: nat :: Linked(w.db, e.account, u)))
    && forall i :: 0 <= i < |w.db.users| ==> w.db.users[i].email != p.norm(e.email)
  }

  /** The Google account is linked to this user. */
  ghost predicate Linked(db: Db, account: string, u: nat) {
    exists i :: 0 <= i < |db.oauth| && db.oauth[i] == OAuthRow(u, "google", account)
  }

  lemma LinkFound(db: Db, account: string)
    requires OAuthOk(db.oauth, |db.users|)
    ensures var id := FindOAuth(db.oauth, "google", account);
      forall u: nat :: Linked(db, account, u) <==> id.Some? && db.oauth[id.value].user == u
  {
    var id := FindOAuth(db.oauth, "google", account);
    if id.Some? {
      assert db.oauth[id.value] == OAuthRow(db.oauth[id.value].user, "google", account);
    }
  }

  /** And what it does to the list of users. */
  lemma NewUserAfterStep(p: Policy, w: World, e: Event)
    requires Inv(p, w)
    ensures var n, users' := |w.db.users|, Step(p, w, e).db.users;
      if Joins(p, w, e) then
        && |users'| == n + 1
        && users'[n] == User(p.norm(e.email), if e.DoRegister? then Hashed(e.password) else Unusable, true,
                             e.DoOAuth? && e.emailVerified, 0, None)
      else |users'| == n
  {
    if e.DoOAuth? {
      LinkFound(w.db, e.account);
      var id := FindOAuth(w.db.oauth, "google", e.account);
      assert id.Some? ==> Linked(w.db, e.account, w.db.oauth[id.value].user);
    }
    hide RefreshOk, OneTimeOk, Linked, FindRefresh, FindOneTime, FindOAuth, RevokeAll, Redeemable, Issue;
  }

  /* ---- over runs ---- */

  /** The password that the run's last reset of this user set, if there was one. */
  ghost function LastReset(p: Policy, w: World, es: seq<Event>, u: nat): Option<string>
    decreases |es|
  {
    if es == [] then None
    else
      var later := LastReset(p, Step(p, w, es[0]), es[1..], u);
      if later.Some? then later else if Resets(p, w, es[0], u) then Some(es[0].password) else None
  }

  /** A user's password is the one last set by a reset, else the one there was: nothing else changes it. */
  lemma {:induction false} PasswordByHistory(p: Policy, w: World, es: seq<Event>, u: nat)
    requires Normalising(p) && Inv(p, w) && Legal(p, w, es) && u < |w.db.users|
    ensures u < |Exec(p, w, es).db.users|
    ensures var last := LastReset(p, w, es, u);
      Exec(p, w, es).db.users[u].password == if last.Some? then Hashed(last.value) else w.db.users[u].password
    decreases |es|
  {
    hide Inv, Step, Drawn, Resets, Verifies, Moves, Normalising;
    if es != [] {
      StepKeeps(p, w, es[0]);
      UserAfterStep(p, w, es[0], u);
      PasswordByHistory(p, Step(p, w, es[0]), es[1..], u);
    }
  }

  /** What the run last said of this user's address: verified, or changed and so no longer. */
  ghost function LastVerdict(p: Policy, w: World, es: seq<Event>, u: nat): Option<bool>
    decreases |es|
  {
    if es == [] then None
    else
      var later := LastVerdict(p, Step(p, w, es[0]), es[1..], u);
      if later.Some? then later
      else if Verifies(w, es[0], u) then Some(true)
      else if Moves(p, w, es[0], u) then Some(false) else None
  }

  /** An address is verified exactly when it has been verified, or was to begin with, and not changed since. */
  lemma {:induction false} VerifiedByHistory(p: Policy, w: World, es: seq<Event>, u: nat)
    requires Normalising(p) && Inv(p, w) && Legal(p, w, es) && u < |w.db.users|
    ensures u < |Exec(p, w, es).db.users|
    ensures var last := LastVerdict(p, w, es, u);
      Exec(p, w, es).db.users[u].verified == if last.Some? then last.value else w.db.users[u].verified
    decreases |es|
  {
    hide Inv, Step, Drawn, Resets, Verifies, Moves, Normalising;
    if es != [] {
      StepKeeps(p, w, es[0]);
      UserAfterStep(p, w, es[0], u);
      VerifiedByHistory(p, Step(p, w, es[0]), es[1..], u);
    }
  }

  /* ---- signing in ---- */

  /** The user may be asked for a password: active, and not locked any more. */
  predicate Open(user: User, now: int) {
    user.active && (user.lockedUntil.None? || user.lockedUntil.value <= now)
  }

  /** This is the user at the address, and the password is the user's. */
  ghost predicate CanSignIn(p: Policy, w: World, e: Event, u: nat)
    requires e.DoLogin?
  {
    && u < |w.db.users| && w.db.users[u].email == p.norm(e.email)
    && Open(w.db.users[u], w.now) && w.db.users[u].password == Hashed(e.password)
  }

  /**
   What a login answers and leaves behind for the user at the address: a session for the right password, one more
   failure, and from the limit on a lock, for a wrong one.
   */
  lemma LoginAnswer(p: Policy, w: World, e: Event, u: nat)
    requires Inv(p, w) && e.DoLogin? && u < |w.db.users| && w.db.users[u].email == p.norm(e.email)
    ensures var user, (db', out) := w.db.users[u], Serve(p, w, e);
      if CanSignIn(p, w, e, u) then
        && out == Session(u, |w.db.refresh|)
        && db' == w.db.(
          users := w.db.users[u := user.(failures := 0, lockedUntil := None)],
          refresh := w.db.refresh +
            [RefreshRow(u, Sha(e.raw), w.now, w.now + 86400 * e.ttlDays, None, None)])
      else if Open(user, w.now) then
        && out == Refused(BadPassword)
        && db' == w.db.(users := w.db.users[u := user.(
          failures := user.failures + 1,
          lockedUntil := if user.failures + 1 >= Max(1, e.maxFailures)
                         then Some(w.now + 60 * Max(1, e.lockMinutes)) else user.lockedUntil)])
      else out == Refused(if user.active then Locked else Inactive) && db' == w.db
  {
    AddressFound(p, w.db.users, u);
  }

  /** In every state of every run a login opens a session exactly when some user can sign in so, and that user's. */
  lemma LoginOpensIff(p: Policy, w: World, es: seq<Event>, e: Event)
    requires Normalising(p) && Inv(p, w) && Legal(p, w, es) && e.DoLogin?
    ensures var w' := Exec(p, w, es);
      && (Serve(p, w', e).1.Session? <==> exists u: nat :: CanSignIn(p, w', e, u))
      && (forall u: nat :: CanSignIn(p, w', e, u) ==> Serve(p, w', e).1 == Session(u, |w'.db.refresh|))
  {
    hide Inv, Exec, Legal, Normalising;
    RunKeeps(p, w, es);
    var w' := Exec(p, w, es);
    forall u: nat | u < |w'.db.users| && w'.db.users[u].email == p.norm(e.email)
      ensures Serve(p, w', e).1.Session? <==> CanSignIn(p, w', e, u)
      ensures CanSignIn(p, w', e, u) ==> Serve(p, w', e).1 == Session(u, |w'.db.refresh|)
    {
      LoginAnswer(p, w', e, u);
    }
  }

  /**
   After any run, a login at a user's address opens a session if and only if the account is open and the password is the
   one last set by a reset or, without a reset, the one there was.
   */
  lemma SignsInWithTheLastPassword(p: Policy, w: World, es: seq<Event>, e: Event, u: nat)
    requires Normalising(p) && Inv(p, w) && Legal(p, w, es) && u < |w.db.users| && e.DoLogin?
    requires u < |Exec(p, w, es).db.users| && Exec(p, w, es).db.users[u].email == p.norm(e.email)
    ensures var w', last := Exec(p, w, es), LastReset(p, w, es, u);
      Serve(p, w', e).1.Session? <==>
        && Open(w'.db.users[u], w'.now)
        && if last.Some? then last.value == e.password else w.db.users[u].password == Hashed(e.password)
  {
    hide Inv, Exec, Legal, Normalising, Step;
    RunKeeps(p, w, es);
    PasswordByHistory(p, w, es, u);
    LoginAnswer(p, Exec(p, w, es), e, u);
  }

  /** The password given at registration signs in until a reset replaces it, and no other one does. */
  lemma RegisteredPasswordSignsIn(p: Policy, w: World, r: Event, es: seq<Event>, e: Event)
    requires Normalising(p) && Inv(p, w) && Drawn(w.db, r) && Legal(p, Step(p, w, r), es)
    requires r.DoRegister? && Serve(p, w, r).1.Session? && e.DoLogin?
    requires var u, w' := |w.db.users|, Exec(p, Step(p, w, r), es);
      u < |w'.db.users| && w'.db.users[u].email == p.norm(e.email)
    ensures var u, w', last := |w.db.users|, Exec(p, Step(p, w, r), es), LastReset(p, Step(p, w, r), es, |w.db.users|);
      Serve(p, w', e).1.Session? <==>
        Open(w'.db.users[u], w'.now) && e.password == if last.Some? then last.value else r.password
  {
    StepKeeps(p, w, r);
    assert Step(p, w, r).db.users[|w.db.users|].password == Hashed(r.password);
    hide Inv, Exec, Legal, Normalising, Step, Drawn;
    SignsInWithTheLastPassword(p, Step(p, w, r), es, e, |w.db.users|);
  }

  /** After a reset, until the next one, the new password signs in and no other one does, the old one included. */
  lemma ResetReplacesThePassword(p: Policy, w: World, r: Event, es: seq<Event>, e: Event, u: nat)
    requires Normalising(p) && Inv(p, w) && Legal(p, Step(p, w, r), es)
    requires r.DoResetPassword? && Serve(p, w, r).1 == Changed(u) && e.DoLogin?
    requires LastReset(p, Step(p, w, r), es, u).None?
    requires var w' := Exec(p, Step(p, w, r), es); u < |w'.db.users| && w'.db.users[u].email == p.norm(e.email)
    ensures var w' := Exec(p, Step(p, w, r), es);
      Serve(p, w', e).1.Session? <==> Open(w'.db.users[u], w'.now) && e.password == r.password
  {
    StepKeeps(p, w, r);
    RedeemedUser(p, w, r, u);
    assert u < |w.db.users|;
    UserAfterStep(p, w, r, u);
    hide Inv, Exec, Legal, Normalising, Step, Drawn;
    SignsInWithTheLastPassword(p, Step(p, w, r), es, e, u);
  }
}
