/**
 The credential service as it runs: row statements that update the tables in place, and service
 calls that issue them one after another with early exits. Every call is proved to take the tables
 exactly where the specification in AuthTables says.
 */
module AuthStore {
  import opened Common
  import opened AuthTables
  import opened SessionRuns

  /** A step of a whole run, as one fact about the tables before and after it. */
  lemma CallKeeps(p: Policy, w: World, e: Event)
    ensures Normalising(p) && Inv(p, w) && Drawn(w.db, e) ==> Inv(p, Step(p, w, e))
  {
    hide Inv, Step, Drawn, Normalising;
    if Normalising(p) && Inv(p, w) && Drawn(w.db, e) {
      StepKeeps(p, w, e);
    }
  }

  /** The bulk revocation row by row. */
  lemma RevokeAllAt(rows: seq<RefreshRow>, user: nat, keep: Option<nat>, now: int)
    ensures forall i :: 0 <= i < |rows| ==>
      RevokeAll(rows, user, keep, now)[i]
      == (if rows[i].user == user && rows[i].revokedAt.None? && keep != Some(i)
          then rows[i].(revokedAt := Some(now)) else rows[i])
  {
  }

  lemma ClockIsIrrelevant(p: Policy, db: Db, family: seq<nat>, now: int, later: int)
    ensures Inv(p, World(db, now, family)) == Inv(p, World(db, later, family))
  {
  }

  class Store {
    const policy: Policy
    var users: seq<User>
    var refresh: seq<RefreshRow>
    var oneTime: seq<OneTimeRow>
    var oauth: seq<OAuthRow>
    ghost var family: seq<nat>  // the login each refresh token descends from

    /** The invariant of whole runs, on the tables as they are. */
    ghost predicate Valid()
      reads this
    {
      Normalising(policy) && Inv(policy, World(Snapshot(), 0, family))
    }

    function Snapshot(): Db
      reads this
    {
      Db(users, refresh, oneTime, oauth)
    }

    constructor (policy: Policy)
      ensures this.policy == policy && Snapshot() == Db([], [], [], [])
      ensures Normalising(policy) ==> Valid()
    {
      this.policy := policy;
      users, refresh, oneTime, oauth, family := [], [], [], [], [];
    }

    /* ---- row statements ---- */

    method CreateUser(email: string, password: PasswordHash, verified: bool) returns (id: nat)
      modifies this`users
      ensures id == |old(users)|
      ensures users == old(users) + [User(policy.norm(email), password, true, verified, 0, None)]
    {
      id := |users|;
      users := users + [User(policy.norm(email), password, true, verified, 0, None)];
    }

    method CreateRefreshToken(user: nat, hash: TokenHash, ttlDays: int, now: int) returns (id: nat)
      modifies this`refresh
      ensures id == |old(refresh)|
      ensures refresh == Issue(old(refresh), user, hash.raw, ttlDays, now)
    {
      id := |refresh|;
      refresh := refresh + [RefreshRow(user, hash, now, now + ttlDays * DAY, None, None)];
    }

    method RevokeRefreshToken(id: nat, replacement: Option<nat>, now: int)
      requires id < |refresh|
      modifies this`refresh
      ensures refresh == Revoke(old(refresh), id, replacement, now)
    {
      refresh := refresh[id := refresh[id].(revokedAt := Some(now), replacedBy := replacement)];
    }

    /** One bulk UPDATE over the user's unrevoked rows. */
    method RevokeAllRefreshTokens(user: nat, keep: Option<nat>, now: int)
      modifies this`refresh
      ensures refresh == RevokeAll(old(refresh), user, keep, now)
    {
      ghost var all := RevokeAll(refresh, user, keep, now);
      RevokeAllAt(refresh, user, keep, now);
      hide RevokeAll;
      var i := 0;
      while i < |refresh|
        invariant 0 <= i <= |refresh| == |all| == |old(refresh)|
        invariant forall k :: 0 <= k < i ==> refresh[k] == all[k]
        invariant forall k :: i <= k < |refresh| ==> refresh[k] == old(refresh)[k]
      {
        if refresh[i].user == user && refresh[i].revokedAt.None? && keep != Some(i) {
          refresh := refresh[i := refresh[i].(revokedAt := Some(now))];
        }
        i := i + 1;
      }
    }

    method RegisterLoginFailure(id: nat, maxFailures: int, lockMinutes: int, now: int)
      requires id < |users|
      modifies this`users
      ensures users == old(users)[id := WithFailure(old(users)[id], maxFailures, lockMinutes, now)]
    {
      var limit := Max(1, maxFailures);
      var minutes := Max(1, lockMinutes);
      var count := users[id].failures + 1;
      var until := users[id].lockedUntil;
      if count >= limit {
        until := Some(now + minutes * MINUTE);
      }
      users := users[id := users[id].(failures := count, lockedUntil := until)];
    }

    method ResetLoginFailures(id: nat)
      requires id < |users|
      modifies this`users
      ensures users == old(users)[id := old(users)[id].(failures := 0, lockedUntil := None)]
    {
      users := users[id := users[id].(failures := 0, lockedUntil := None)];
    }

    method ConsumeOneTimeToken(id: nat, now: int)
      requires id < |oneTime|
      modifies this`oneTime
      ensures oneTime == Consume(old(oneTime), id, now)
    {
      if oneTime[id].consumedAt.None? {
        oneTime := oneTime[id := oneTime[id].(consumedAt := Some(now))];
      }
    }

    method CreateOAuthAccount(user: nat, account: string)
      modifies this`oauth
      ensures oauth == Link(old(oauth), FindOAuth(old(oauth), "google", account), user, account)
    {
      if FindOAuth(oauth, "google", account).None? {
        oauth := oauth + [OAuthRow(user, "google", account)];
      }
    }

    /* ---- service calls ---- */

    /** Notes the step that a call is about to take and the login its new token, if any, will belong to. */
    ghost method Begin(e: Event, now: int)
      modifies this`family
      ensures var w := old(World(Snapshot(), now, family));
        && family == Step(policy, w, e).family
        && (old(Valid()) && Drawn(w.db, e) ==>
          Normalising(policy) && Inv(policy, World(Serve(policy, w, e).0, 0, family)))
      ensures
        || Drawn(old(Snapshot()), e)
        || e.DoRegister? || e.DoLogin? || e.DoOAuth? || e.DoRefresh? || e.DoIssueOneTime?
    {
      ghost var w := World(Snapshot(), now, family);
      family := Step(policy, w, e).family;
      assert Step(policy, w, e).db == Serve(policy, w, e).0;
      hide Normalising, Step;
      CallKeeps(policy, w, e);
      ClockIsIrrelevant(policy, w.db, w.family, 0, now);
      ClockIsIrrelevant(policy, Step(policy, w, e).db, family, 0, Step(policy, w, e).now);
    }

    method RegisterUser(email: string, password: string, raw: string, ttlDays: int, now: int) returns (out: Outcome)
      modifies this
      ensures (Snapshot(), out) == Register(policy, old(Snapshot()), email, password, raw, ttlDays, now)
      ensures old(Valid()) && Drawn(old(Snapshot()), DoRegister(email, password, raw, ttlDays)) ==> Valid()
    {
      Begin(DoRegister(email, password, raw, ttlDays), now);
      hide Inv, Drawn, Normalising, Step, RevokeAll, FindUser, FindRefresh, FindOneTime, FindOAuth;
      if !policy.strong(password) {
        return Refused(WeakPassword);
      }
      if FindUser(users, policy.norm(email)).Some? {
        return Refused(EmailTaken);
      }
      var user := CreateUser(email, Hashed(password), false);
      var token := CreateRefreshToken(user, Sha(raw), ttlDays, now);
      return Session(user, token);
    }

    method LoginUser(email: string, password: string, raw: string, ttlDays: int, maxFailures: int, lockMinutes: int,
                     now: int) returns (out: Outcome)
      modifies this
      ensures (Snapshot(), out) ==
        Login(policy, old(Snapshot()), email, password, raw, ttlDays, maxFailures, lockMinutes, now)
      ensures
        old(Valid()) && Drawn(old(Snapshot()), DoLogin(email, password, raw, ttlDays, maxFailures, lockMinutes)) ==>
          Valid()
    {
      Begin(DoLogin(email, password, raw, ttlDays, maxFailures, lockMinutes), now);
      hide Inv, Drawn, Normalising, Step, RevokeAll, FindUser, FindRefresh, FindOneTime, FindOAuth;
      var found := FindUser(users, policy.norm(email));
      if found.None? {
        return Refused(NoSuchUser);
      }
      var id := found.value;
      if !users[id].active {
        return Refused(Inactive);
      }
      var until := users[id].lockedUntil;
      if until.Some? && until.value > now {
        return Refused(Locked);
      }
      if users[id].password != Hashed(password) {
        RegisterLoginFailure(id, maxFailures, lockMinutes, now);
        return Refused(BadPassword);
      }
      var token := CreateRefreshToken(id, Sha(raw), ttlDays, now);
      ResetLoginFailures(id);
      return Session(id, token);
    }

    method Refresh(presented: string, raw: string, ttlDays: int, now: int) returns (out: Outcome)
      modifies this
      ensures (Snapshot(), out) == RefreshTokens(old(Snapshot()), presented, raw, ttlDays, now)
      ensures old(Valid()) && Drawn(old(Snapshot()), DoRefresh(presented, raw, ttlDays)) ==> Valid()
    {
      Begin(DoRefresh(presented, raw, ttlDays), now);
      hide Inv, Drawn, Normalising, Step, RevokeAll, FindUser, FindRefresh, FindOneTime, FindOAuth;
      if presented == "" {
        return Refused(NotAuthenticated);
      }
      var found := FindRefresh(refresh, Sha(presented));
      if found.None? {
        return Refused(UnknownToken);
      }
      var row := refresh[found.value];
      if row.revokedAt.Some? {
        return Refused(RevokedToken);
      }
      if row.expiresAt <= now {
        return Refused(ExpiredToken);
      }
      if row.user >= |users| {
        return Refused(UnknownToken);
      }
      var token := CreateRefreshToken(row.user, Sha(raw), ttlDays, now);
      RevokeRefreshToken(found.value, Some(token), now);
      return Session(row.user, token);
    }

    method LogoutSession(presented: string, now: int) returns (out: Outcome)
      modifies this
      ensures (Snapshot(), out) == Logout(old(Snapshot()), presented, now)
      ensures old(Valid()) ==> Valid()
    {
      Begin(DoLogout(presented), now);
      hide Inv, Drawn, Normalising, Step, RevokeAll, FindUser, FindRefresh, FindOneTime, FindOAuth;
      if presented != "" {
        var found := FindRefresh(refresh, Sha(presented));
        if found.Some? {
          RevokeRefreshToken(found.value, None, now);
        }
      }
      return Quiet;
    }

    method RevokeOtherSessions(subject: nat, presented: string, now: int) returns (out: Outcome)
      modifies this
      ensures (Snapshot(), out) == RevokeOthers(old(Snapshot()), subject, presented, now)
      ensures old(Valid()) ==> Valid()
    {
      Begin(DoRevokeOthers(subject, presented), now);
      hide Inv, Drawn, Normalising, Step, RevokeAll, FindUser, FindRefresh, FindOneTime, FindOAuth;
      if presented == "" {
        return Refused(NotAuthenticated);
      }
      var found := FindRefresh(refresh, Sha(presented));
      if found.None? || refresh[found.value].user != subject {
        return Refused(NotAuthenticated);
      }
      RevokeAllRefreshTokens(subject, found, now);
      return Changed(subject);
    }

    /** issue_verify_email and issue_password_reset, which differ only in the account they skip. */
    method IssueOneTimeToken(purpose: Purpose, email: string, raw: string, ttlMinutes: int, now: int)
      returns (out: Outcome)
      modifies this
      ensures (Snapshot(), out) == IssueOneTime(policy, old(Snapshot()), purpose, email, raw, ttlMinutes, now)
      ensures old(Valid()) && Drawn(old(Snapshot()), DoIssueOneTime(purpose, email, raw, ttlMinutes)) ==> Valid()
    {
      Begin(DoIssueOneTime(purpose, email, raw, ttlMinutes), now);
      hide Inv, Drawn, Normalising, Step, RevokeAll, FindUser, FindRefresh, FindOneTime, FindOAuth;
      var found := FindUser(users, policy.norm(email));
      if found.None? {
        return Quiet;
      }
      var user := users[found.value];
      if (purpose.VerifyAddress? && user.verified) || (purpose.PasswordReset? && !user.active) {
        return Quiet;
      }
      var expiresAt := now + Max(1, ttlMinutes) * MINUTE;
      oneTime := oneTime + [OneTimeRow(found, Sha(raw), purpose, expiresAt, None)];
      return Quiet;
    }

    method VerifyEmailToken(presented: string, now: int) returns (out: Outcome)
      modifies this
      ensures (Snapshot(), out) == VerifyEmail(old(Snapshot()), presented, now)
      ensures old(Valid()) ==> Valid()
    {
      Begin(DoVerifyEmail(presented), now);
      hide Inv, Drawn, Normalising, Step, RevokeAll, FindUser, FindRefresh, FindOneTime, FindOAuth;
      var found := Redeemable(Snapshot(), presented, VerifyAddress, now);
      if found.None? {
        return Refused(UnknownToken);
      }
      var user := oneTime[found.value].user.value;
      if user < |users| {
        users := users[user := users[user].(verified := true)];
      }
      ConsumeOneTimeToken(found.value, now);
      return Changed(user);
    }

    /** The statements of an accepted reset. */
    method ApplyReset(id: nat, password: string, now: int)
      requires id < |oneTime| && oneTime[id].user.Some?
      modifies this`users, this`oneTime, this`refresh
      ensures Snapshot() == Reset(old(Snapshot()), id, password, now)
    {
      hide RevokeAll, Consume;
      var user := oneTime[id].user.value;
      if user < |users| {
        users := users[user := users[user].(password := Hashed(password))];
      }
      ConsumeOneTimeToken(id, now);
      RevokeAllRefreshTokens(user, None, now);
    }

    method ResetPasswordWithToken(presented: string, password: string, now: int) returns (out: Outcome)
      modifies this
      ensures (Snapshot(), out) == ResetPassword(policy, old(Snapshot()), presented, password, now)
      ensures old(Valid()) ==> Valid()
    {
      Begin(DoResetPassword(presented, password), now);
      hide Inv, Drawn, Normalising, Step, Reset, FindOneTime, Redeemable;
      if presented == "" {
        return Refused(UnknownToken);
      }
      if !policy.strong(password) {
        return Refused(WeakPassword);
      }
      var found := Redeemable(Snapshot(), presented, PasswordReset, now);
      if found.None? {
        return Refused(UnknownToken);
      }
      out := Changed(oneTime[found.value].user.value);
      ApplyReset(found.value, password, now);
    }

    method UpdateUserEmail(subject: nat, email: string) returns (out: Outcome)
      modifies this
      ensures (Snapshot(), out) == ChangeEmail(policy, old(Snapshot()), subject, email)
      ensures old(Valid()) ==> Valid()
    {
      Begin(DoChangeEmail(subject, email), 0);
      hide Inv, Drawn, Normalising, Step, RevokeAll, FindUser, FindRefresh, FindOneTime, FindOAuth;
      var normalized := policy.norm(email);
      if normalized == "" {
        return Refused(InvalidEmail);
      }
      if OtherHolds(users, subject, normalized) {
        return Refused(EmailTaken);
      }
      if subject >= |users| {
        return Refused(NoSuchUser);
      }
      users := users[subject := users[subject].(email := normalized, verified := false)];
      return Changed(subject);
    }

    method SignInWithGoogle(account: string, email: string, emailVerified: bool, raw: string, ttlDays: int, now: int)
      returns (out: Outcome)
      modifies this
      ensures (Snapshot(), out) ==
        OAuthGoogle(policy, old(Snapshot()), account, email, emailVerified, raw, ttlDays, now)
      ensures old(Valid()) && Drawn(old(Snapshot()), DoOAuth(account, email, emailVerified, raw, ttlDays)) ==> Valid()
    {
      Begin(DoOAuth(account, email, emailVerified, raw, ttlDays), now);
      hide Inv, Drawn, Normalising, Step, RevokeAll, FindUser, FindRefresh, FindOneTime, FindOAuth, Link, Issue;
      var linked := FindOAuth(oauth, "google", account);
      var user: Option<nat> := None;
      if linked.Some? && oauth[linked.value].user < |users| {
        user := Some(oauth[linked.value].user);
      }
      if user.None? {
        var existing := FindUser(users, policy.norm(email));
        if existing.Some? {
          if !users[existing.value].verified && !emailVerified {
            return Refused(LinkRejected);
          }
          CreateOAuthAccount(existing.value, account);
          user := existing;
        } else {
          var id := CreateUser(email, Unusable, emailVerified);
          CreateOAuthAccount(id, account);
          user := Some(id);
        }
      }
      if !users[user.value].active {
        return Refused(Inactive);
      }
      var token := CreateRefreshToken(user.value, Sha(raw), ttlDays, now);
      return Session(user.value, token);
    }
  }
}
