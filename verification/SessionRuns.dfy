/**
 Whole runs of the credential service: every route is one atomic step on the tables, any number of
 them in any order, under one clock that never goes back.
 */
module SessionRuns {
  import opened Common
  import opened AuthTables

  datatype Event =
    | DoRegister(email: string, password: string, raw: string, ttlDays: int)
    | DoLogin(email: string, password: string, raw: string, ttlDays: int, maxFailures: int, lockMinutes: int)
    | DoOAuth(account: string, email: string, emailVerified: bool, raw: string, ttlDays: int)
    | DoRefresh(presented: string, raw: string, ttlDays: int)
    | DoLogout(presented: string)
    | DoRevokeOthers(subject: nat, presented: string)
    | DoIssueOneTime(purpose: Purpose, email: string, raw: string, ttlMinutes: int)
    | DoVerifyEmail(presented: string)
    | DoResetPassword(presented: string, password: string)
    | DoChangeEmail(subject: nat, email: string)
    | DoSetActive(user: nat, active: bool)
    | DoWait(seconds: nat)

  /** `family[i]` is the login that refresh token `i` descends from; the tables do not record it. */
  datatype World = World(db: Db, now: int, family: seq<nat>)

  function Serve(p: Policy, w: World, e: Event): (Db, Outcome) {
    match e
    case DoRegister(email, password, raw, ttl) => Register(p, w.db, email, password, raw, ttl, w.now)
    case DoLogin(email, password, raw, ttl, m, l) => Login(p, w.db, email, password, raw, ttl, m, l, w.now)
    case DoOAuth(account, email, ok, raw, ttl) => OAuthGoogle(p, w.db, account, email, ok, raw, ttl, w.now)
    case DoRefresh(presented, raw, ttl) => RefreshTokens(w.db, presented, raw, ttl, w.now)
    case DoLogout(presented) => Logout(w.db, presented, w.now)
    case DoRevokeOthers(subject, presented) => RevokeOthers(w.db, subject, presented, w.now)
    case DoIssueOneTime(purpose, email, raw, ttl) => IssueOneTime(p, w.db, purpose, email, raw, ttl, w.now)
    case DoVerifyEmail(presented) => VerifyEmail(w.db, presented, w.now)
    case DoResetPassword(presented, password) => ResetPassword(p, w.db, presented, password, w.now)
    case DoChangeEmail(subject, email) => ChangeEmail(p, w.db, subject, email)
    case DoSetActive(user, active) =>
      if user >= |w.db.users| then (w.db, Quiet)
      else (w.db.(users := w.db.users[user := w.db.users[user].(active := active)]), Quiet)
    case DoWait(_) => (w.db, Quiet)
  }

  /** The login a newly issued token belongs to: the presented token's for a rotation, else its own. */
  function FamilyOfNew(w: World, e: Event): nat {
    if e.DoRefresh? then
      var id := FindRefresh(w.db.refresh, Sha(e.presented));
      if id.Some? && id.value < |w.family| then w.family[id.value] else |w.db.refresh|
    else |w.db.refresh|
  }

  function Step(p: Policy, w: World, e: Event): World {
    var db := Serve(p, w, e).0;
    var family := if |db.refresh| > |w.db.refresh| then w.family + [FamilyOfNew(w, e)] else w.family;
    World(db, if e.DoWait? then w.now + e.seconds else w.now, family)
  }

  /** Freshly drawn secrets are non-empty and collide with nothing stored. */
  ghost predicate Drawn(db: Db, e: Event) {
    match e
    case DoRegister(_, _, raw, _) => FreshRefresh(db, raw)
    case DoLogin(_, _, raw, _, _, _) => FreshRefresh(db, raw)
    case DoOAuth(_, _, _, raw, _) => FreshRefresh(db, raw)
    case DoRefresh(_, raw, _) => FreshRefresh(db, raw)
    case DoIssueOneTime(_, _, raw, _) =>
      raw != "" && forall i :: 0 <= i < |db.oneTime| ==> db.oneTime[i].hash != Sha(raw)
    case _ => true
  }

  ghost predicate FreshRefresh(db: Db, raw: string) {
    raw != "" && forall i :: 0 <= i < |db.refresh| ==> db.refresh[i].hash != Sha(raw)
  }

  ghost function Exec(p: Policy, w: World, es: seq<Event>): World
    decreases |es|
  {
    if es == [] then w else Exec(p, Step(p, w, es[0]), es[1..])
  }

  ghost predicate Legal(p: Policy, w: World, es: seq<Event>)
    decreases |es|
  {
    es == [] || (Drawn(w.db, es[0]) && Legal(p, Step(p, w, es[0]), es[1..]))
  }

  /* ---- what every step keeps ---- */

  ghost predicate RefreshOk(rows: seq<RefreshRow>, family: seq<nat>, users: nat) {
    && |family| == |rows|
    && (forall i :: 0 <= i < |rows| ==> family[i] <= i && rows[i].user < users)
    && (forall i, j :: 0 <= i < j < |rows| ==> rows[i].hash != rows[j].hash)
    && (forall i, j :: 0 <= i < j < |rows| && family[i] == family[j] ==> rows[i].user == rows[j].user)
    && OneLivePerLogin(rows, family)
  }

  ghost predicate OneLivePerLogin(rows: seq<RefreshRow>, family: seq<nat>)
    requires |family| == |rows|
  {
    forall i, j :: 0 <= i < j < |rows| && family[i] == family[j] ==> rows[i].revokedAt.Some? || rows[j].revokedAt.Some?
  }

  ghost predicate OneTimeOk(rows: seq<OneTimeRow>, users: nat) {
    && (forall i :: 0 <= i < |rows| && rows[i].user.Some? ==> rows[i].user.value < users)
    && (forall i, j :: 0 <= i < j < |rows| ==> rows[i].hash != rows[j].hash)
  }

  ghost predicate EmailsOk(p: Policy, users: seq<User>) {
    && (forall i :: 0 <= i < |users| ==> p.norm(users[i].email) == users[i].email)
    && (forall i, j :: 0 <= i < j < |users| ==> users[i].email != users[j].email)
  }

  ghost predicate OAuthOk(rows: seq<OAuthRow>, users: nat) {
    && (forall i :: 0 <= i < |rows| ==> rows[i].user < users)
    && (forall i, j :: 0 <= i < j < |rows| ==>
          rows[i].provider != rows[j].provider || rows[i].account != rows[j].account)
  }

  ghost predicate Inv(p: Policy, w: World) {
    && RefreshOk(w.db.refresh, w.family, |w.db.users|)
    && OneTimeOk(w.db.oneTime, |w.db.users|)
    && EmailsOk(p, w.db.users)
    && OAuthOk(w.db.oauth, |w.db.users|)
  }

  /** Normalising twice is normalising once, as for stripping and lower-casing. */
  ghost predicate Normalising(p: Policy) {
    forall s :: p.norm(p.norm(s)) == p.norm(s)
  }

  lemma InitInv(p: Policy, now: int)
    ensures Inv(p, World(Db([], [], [], []), now, []))
  {
  }

  lemma IssueKeeps(rows: seq<RefreshRow>, family: seq<nat>, users: nat, user: nat, raw: string, ttl: int, now: int,
                   users': nat)
    requires RefreshOk(rows, family, users) && user < users' && users <= users'
    requires forall i :: 0 <= i < |rows| ==> rows[i].hash != Sha(raw)
    ensures RefreshOk(Issue(rows, user, raw, ttl, now), family + [|rows|], users')
  {
  }

  lemma RevokeAllKeeps(rows: seq<RefreshRow>, family: seq<nat>, users: nat, user: nat, keep: Option<nat>, now: int)
    requires RefreshOk(rows, family, users)
    ensures RefreshOk(RevokeAll(rows, user, keep, now), family, users)
  {
    hide RevokeAll;
  }

  lemma RevokeOneKeeps(rows: seq<RefreshRow>, family: seq<nat>, users: nat, id: nat, now: int)
    requires RefreshOk(rows, family, users) && id < |rows|
    ensures RefreshOk(Revoke(rows, id, None, now), family, users)
  {
  }

  /** The rotation: the presented token dies in the same step that gives its login a new one. */
  lemma RotateKeeps(rows: seq<RefreshRow>, family: seq<nat>, users: nat, id: nat, raw: string, ttl: int, now: int)
    requires RefreshOk(rows, family, users) && id < |rows| && rows[id].revokedAt.None?
    requires forall i :: 0 <= i < |rows| ==> rows[i].hash != Sha(raw)
    ensures var rows' := Revoke(Issue(rows, rows[id].user, raw, ttl, now), id, Some(|rows|), now);
      RefreshOk(rows', family + [family[id]], users)
  {
  }

  lemma NewUserKeeps(p: Policy, users: seq<User>, email: string, u: User)
    requires Normalising(p) && EmailsOk(p, users)
    requires u.email == p.norm(email) && FindUser(users, u.email).None?
    ensures EmailsOk(p, users + [u])
  {
  }

  lemma SameEmailKeeps(p: Policy, users: seq<User>, i: nat, u: User)
    requires EmailsOk(p, users) && i < |users| && u.email == users[i].email
    ensures EmailsOk(p, users[i := u])
  {
  }

  lemma LinkKeeps(rows: seq<OAuthRow>, users: nat, user: nat, account: string, users': nat)
    requires OAuthOk(rows, users) && user < users' && users <= users'
    ensures OAuthOk(Link(rows, FindOAuth(rows, "google", account), user, account), users')
  {
  }

  /** What refers to users still does when there are more of them. */
  lemma MoreUsers(db: Db, users: nat)
    requires |db.users| <= users
    ensures OneTimeOk(db.oneTime, |db.users|) ==> OneTimeOk(db.oneTime, users)
    ensures OAuthOk(db.oauth, |db.users|) ==> OAuthOk(db.oauth, users)
  {
  }

  lemma RegisterKeeps(p: Policy, w: World, e: Event)
    requires Normalising(p) && Inv(p, w) && Drawn(w.db, e) && e.DoRegister?
    ensures Inv(p, Step(p, w, e))
  {
    hide EmailsOk, RefreshOk, OneTimeOk, OAuthOk, FindUser;
    MoreUsers(w.db, |w.db.users| + 1);
    if Serve(p, w, e).1.Session? {
      var n := |w.db.users|;
      NewUserKeeps(p, w.db.users, e.email, User(p.norm(e.email), Hashed(e.password), true, false, 0, None));
      IssueKeeps(w.db.refresh, w.family, n, n, e.raw, e.ttlDays, w.now, n + 1);
    }
  }

  lemma LoginKeeps(p: Policy, w: World, e: Event)
    requires Inv(p, w) && Drawn(w.db, e) && e.DoLogin?
    ensures Inv(p, Step(p, w, e))
  {
    hide EmailsOk, RefreshOk, OneTimeOk, OAuthOk;
    var n := |w.db.users|;
    var (db, out) := Serve(p, w, e);
    var u := FindUser(w.db.users, p.norm(e.email));
    if u.Some? {
      SameEmailKeeps(p, w.db.users, u.value, db.users[u.value]);
      IssueKeeps(w.db.refresh, w.family, n, u.value, e.raw, e.ttlDays, w.now, n);
    }
  }

  lemma OpenSessionKeeps(p: Policy, w: World, db: Db, user: nat, raw: string, ttl: int)
    requires RefreshOk(w.db.refresh, w.family, |w.db.users|) && FreshRefresh(w.db, raw)
    requires db.refresh == w.db.refresh && user < |db.users| && |w.db.users| <= |db.users|
    requires OneTimeOk(db.oneTime, |db.users|) && EmailsOk(p, db.users) && OAuthOk(db.oauth, |db.users|)
    ensures var db' := OpenSession(db, user, raw, ttl, w.now).0;
      Inv(p, World(db', w.now, if |db'.refresh| > |w.db.refresh| then w.family + [|w.db.refresh|] else w.family))
  {
    IssueKeeps(w.db.refresh, w.family, |w.db.users|, user, raw, ttl, w.now, |db.users|);
    hide OneTimeOk, EmailsOk, OAuthOk;
  }

  lemma OAuthKeeps(p: Policy, w: World, e: Event)
    requires Normalising(p) && Inv(p, w) && Drawn(w.db, e) && e.DoOAuth?
    ensures Inv(p, Step(p, w, e))
  {
    var n, linked := |w.db.users|, FindOAuth(w.db.oauth, "google", e.account);
    assert linked.Some? ==> w.db.oauth[linked.value].user < n;
    hide OneTimeOk, EmailsOk, OAuthOk, RefreshOk, FreshRefresh, Link, OpenSession;
    if linked.Some? {
      OpenSessionKeeps(p, w, w.db, w.db.oauth[linked.value].user, e.raw, e.ttlDays);
    } else {
      match FindUser(w.db.users, p.norm(e.email))
      case Some(u) =>
        LinkKeeps(w.db.oauth, n, u, e.account, n);
        OpenSessionKeeps(p, w, w.db.(oauth := Link(w.db.oauth, linked, u, e.account)), u, e.raw, e.ttlDays);
      case None =>
        var user := User(p.norm(e.email), Unusable, true, e.emailVerified, 0, None);
        NewUserKeeps(p, w.db.users, e.email, user);
        LinkKeeps(w.db.oauth, n, n, e.account, n + 1);
        MoreUsers(w.db, n + 1);
        OpenSessionKeeps(p, w, w.db.(users := w.db.users + [user], oauth := Link(w.db.oauth, linked, n, e.account)),
          n, e.raw, e.ttlDays);
    }
  }

  lemma RefreshKeeps(p: Policy, w: World, e: Event)
    requires Inv(p, w) && Drawn(w.db, e) && e.DoRefresh?
    ensures Inv(p, Step(p, w, e))
  {
    hide EmailsOk, RefreshOk, OneTimeOk, OAuthOk;
    if Serve(p, w, e).1.Session? {
      var id := FindRefresh(w.db.refresh, Sha(e.presented)).value;
      RotateKeeps(w.db.refresh, w.family, |w.db.users|, id, e.raw, e.ttlDays, w.now);
    }
  }

  lemma IssueOneTimeKeeps(p: Policy, w: World, e: Event)
    requires Inv(p, w) && Drawn(w.db, e) && e.DoIssueOneTime?
    ensures Inv(p, Step(p, w, e))
  {
  }

  lemma ConsumeKeeps(rows: seq<OneTimeRow>, users: nat, id: nat, now: int)
    requires OneTimeOk(rows, users) && id < |rows|
    ensures OneTimeOk(Consume(rows, id, now), users)
  {
  }

  lemma VerifyEmailKeeps(p: Policy, w: World, e: Event)
    requires Inv(p, w) && e.DoVerifyEmail?
    ensures Inv(p, Step(p, w, e))
  {
    hide EmailsOk, RefreshOk, OAuthOk;
    var id := Redeemable(w.db, e.presented, VerifyAddress, w.now);
    if id.Some? {
      var u := w.db.oneTime[id.value].user.value;
      ConsumeKeeps(w.db.oneTime, |w.db.users|, id.value, w.now);
      SameEmailKeeps(p, w.db.users, u, w.db.users[u].(verified := true));
    }
  }

  lemma ResetPasswordKeeps(p: Policy, w: World, e: Event)
    requires Inv(p, w) && e.DoResetPassword?
    ensures Inv(p, Step(p, w, e))
  {
    hide EmailsOk, RefreshOk, OAuthOk, RevokeAll;
    var id := Redeemable(w.db, e.presented, PasswordReset, w.now);
    if id.Some? && p.strong(e.password) {
      var u := w.db.oneTime[id.value].user.value;
      ConsumeKeeps(w.db.oneTime, |w.db.users|, id.value, w.now);
      SameEmailKeeps(p, w.db.users, u, w.db.users[u].(password := Hashed(e.password)));
      RevokeAllKeeps(w.db.refresh, w.family, |w.db.users|, u, None, w.now);
    }
  }

  lemma NewEmailKeeps(p: Policy, users: seq<User>, subject: nat, email: string, u: User)
    requires Normalising(p) && EmailsOk(p, users) && subject < |users|
    requires u.email == p.norm(email) && !OtherHolds(users, subject, u.email)
    ensures EmailsOk(p, users[subject := u])
  {
  }

  lemma ChangeEmailKeeps(p: Policy, w: World, e: Event)
    requires Normalising(p) && Inv(p, w) && e.DoChangeEmail?
    ensures Inv(p, Step(p, w, e))
  {
    hide EmailsOk, RefreshOk, OneTimeOk, OAuthOk;
    if Serve(p, w, e).1.Changed? {
      NewEmailKeeps(p, w.db.users, e.subject, e.email,
        w.db.users[e.subject].(email := p.norm(e.email), verified := false));
    }
  }

  lemma LogoutKeeps(p: Policy, w: World, e: Event)
    requires Inv(p, w) && e.DoLogout?
    ensures Inv(p, Step(p, w, e))
  {
    hide EmailsOk, RefreshOk, OneTimeOk, OAuthOk;
    var id := FindRefresh(w.db.refresh, Sha(e.presented));
    if id.Some? { RevokeOneKeeps(w.db.refresh, w.family, |w.db.users|, id.value, w.now); }
  }

  lemma RevokeOthersKeeps(p: Policy, w: World, e: Event)
    requires Inv(p, w) && e.DoRevokeOthers?
    ensures Inv(p, Step(p, w, e))
  {
    hide EmailsOk, RefreshOk, OneTimeOk, OAuthOk, RevokeAll;
    RevokeAllKeeps(w.db.refresh, w.family, |w.db.users|, e.subject, FindRefresh(w.db.refresh, Sha(e.presented)), w.now);
  }

  lemma SetActiveKeeps(p: Policy, w: World, e: Event)
    requires Inv(p, w) && (e.DoSetActive? || e.DoWait?)
    ensures Inv(p, Step(p, w, e))
  {
    hide EmailsOk, RefreshOk, OneTimeOk, OAuthOk;
    if e.DoSetActive? && e.user < |w.db.users| {
      SameEmailKeeps(p, w.db.users, e.user, w.db.users[e.user].(active := e.active));
    }
  }

  lemma StepKeeps(p: Policy, w: World, e: Event)
    requires Normalising(p) && Inv(p, w) && Drawn(w.db, e)
    ensures Inv(p, Step(p, w, e))
  {
    hide Inv, Step, Drawn, Normalising;
    match e {
      case DoRegister(_, _, _, _) => RegisterKeeps(p, w, e);
      case DoLogin(_, _, _, _, _, _) => LoginKeeps(p, w, e);
      case DoOAuth(_, _, _, _, _) => OAuthKeeps(p, w, e);
      case DoRefresh(_, _, _) => RefreshKeeps(p, w, e);
      case DoLogout(_) => LogoutKeeps(p, w, e);
      case DoRevokeOthers(_, _) => RevokeOthersKeeps(p, w, e);
      case DoIssueOneTime(_, _, _, _) => IssueOneTimeKeeps(p, w, e);
      case DoVerifyEmail(_) => VerifyEmailKeeps(p, w, e);
      case DoResetPassword(_, _) => ResetPasswordKeeps(p, w, e);
      case DoChangeEmail(_, _) => ChangeEmailKeeps(p, w, e);
      case DoSetActive(_, _) => SetActiveKeeps(p, w, e);
      case DoWait(_) => SetActiveKeeps(p, w, e);
    }
  }

  /** Every reachable state satisfies the invariant. */
  lemma {:induction false} RunKeeps(p: Policy, w: World, es: seq<Event>)
    requires Normalising(p) && Inv(p, w) && Legal(p, w, es)
    ensures Inv(p, Exec(p, w, es))
    decreases |es|
  {
    if es != [] {
      StepKeeps(p, w, es[0]);
      RunKeeps(p, Step(p, w, es[0]), es[1..]);
    }
  }

  /* ---- what never comes back ---- */

  ghost predicate Later(a: Db, b: Db) {
    && |a.refresh| <= |b.refresh|
    && |a.oneTime| <= |b.oneTime|
    && (forall i :: 0 <= i < |a.refresh| ==>
      && b.refresh[i].hash == a.refresh[i].hash
      && b.refresh[i].user == a.refresh[i].user
      && b.refresh[i].expiresAt == a.refresh[i].expiresAt
      && (a.refresh[i].revokedAt.Some? ==> b.refresh[i].revokedAt.Some?))
    && (forall i :: 0 <= i < |a.oneTime| ==>
      && b.oneTime[i].hash == a.oneTime[i].hash
      && b.oneTime[i].purpose == a.oneTime[i].purpose
      && b.oneTime[i].user == a.oneTime[i].user
      && b.oneTime[i].expiresAt == a.oneTime[i].expiresAt
      && (a.oneTime[i].consumedAt.Some? ==> b.oneTime[i].consumedAt.Some?))
  }

  lemma StepLater(p: Policy, w: World, e: Event)
    ensures Later(w.db, Step(p, w, e).db)
  {
    hide RevokeAll, FindUser, FindRefresh, FindOneTime, FindOAuth, OtherHolds;
  }

  lemma {:induction false} RunLater(p: Policy, w: World, es: seq<Event>)
    ensures Later(w.db, Exec(p, w, es).db)
    decreases |es|
  {
    if es != [] {
      var w' := Step(p, w, es[0]);
      StepLater(p, w, es[0]);
      RunLater(p, w', es[1..]);
      LaterTransitive(w.db, w'.db, Exec(p, w, es).db);
    }
  }

  lemma LaterTransitive(a: Db, b: Db, c: Db)
    requires Later(a, b) && Later(b, c)
    ensures Later(a, c)
  {
  }

  /** A token whose row is revoked is turned away as revoked for the rest of the run. */
  lemma RevokedForever(p: Policy, w: World, es: seq<Event>, id: nat, presented: string, raw: string, ttl: int)
    requires Normalising(p) && Inv(p, w) && Legal(p, w, es)
    requires id < |w.db.refresh| && w.db.refresh[id].revokedAt.Some? && w.db.refresh[id].hash == Sha(presented)
    requires presented != ""
    ensures var w' := Exec(p, w, es);
      RefreshTokens(w'.db, presented, raw, ttl, w'.now) == (w'.db, Refused(RevokedToken))
  {
    RunKeeps(p, w, es);
    RunLater(p, w, es);
    PresentedRevoked(Exec(p, w, es), id, presented, raw, ttl);
  }

  /** With distinct hashes the lookup finds the one row there is. */
  lemma FoundIs(rows: seq<RefreshRow>, family: seq<nat>, users: nat, id: nat, presented: string)
    requires RefreshOk(rows, family, users) && id < |rows| && rows[id].hash == Sha(presented)
    ensures FindRefresh(rows, Sha(presented)) == Some(id)
  {
  }

  lemma PresentedRevoked(w: World, id: nat, presented: string, raw: string, ttl: int)
    requires RefreshOk(w.db.refresh, w.family, |w.db.users|)
    requires id < |w.db.refresh| && w.db.refresh[id].revokedAt.Some? && w.db.refresh[id].hash == Sha(presented)
    requires presented != ""
    ensures RefreshTokens(w.db, presented, raw, ttl, w.now) == (w.db, Refused(RevokedToken))
  {
    hide RefreshOk;
    FoundIs(w.db.refresh, w.family, |w.db.users|, id, presented);
  }

  lemma Spent(p: Policy, db: Db, id: nat, presented: string, password: string, now: int)
    requires OneTimeOk(db.oneTime, |db.users|)
    requires id < |db.oneTime| && db.oneTime[id].hash == Sha(presented) && db.oneTime[id].consumedAt.Some?
    ensures VerifyEmail(db, presented, now).1.Refused? && ResetPassword(p, db, presented, password, now).1.Refused?
  {
  }

  /** Each refresh token is accepted at most once, however long the run goes on. */
  lemma AcceptedAtMostOnce(p: Policy, w: World, e: Event, es: seq<Event>, raw': string, ttl': int)
    requires Normalising(p) && Inv(p, w) && Drawn(w.db, e) && Legal(p, Step(p, w, e), es)
    requires e.DoRefresh? && Serve(p, w, e).1.Session?
    ensures var w' := Exec(p, Step(p, w, e), es);
      RefreshTokens(w'.db, e.presented, raw', ttl', w'.now) == (w'.db, Refused(RevokedToken))
  {
    hide RefreshOk, OneTimeOk, EmailsOk, OAuthOk, Exec, Legal;
    StepKeeps(p, w, e);
    RevokedForever(p, Step(p, w, e), es, FindRefresh(w.db.refresh, Sha(e.presented)).value, e.presented, raw', ttl');
  }

  /**
   After a password reset no refresh token the user held before it works again, and the reset itself
   leaves every other user's tokens exactly as they were.
   */
  lemma ResetEndsEverySession(p: Policy, w: World, e: Event, es: seq<Event>, id: nat, presented: string,
                              raw: string, ttl: int)
    requires Normalising(p) && Inv(p, w) && Drawn(w.db, e) && Legal(p, Step(p, w, e), es)
    requires e.DoResetPassword? && Serve(p, w, e).1.Changed?
    requires id < |w.db.refresh| && w.db.refresh[id].hash == Sha(presented) && presented != ""
    ensures w.db.refresh[id].user != Serve(p, w, e).1.user ==> Step(p, w, e).db.refresh[id] == w.db.refresh[id]
    ensures w.db.refresh[id].user == Serve(p, w, e).1.user ==>
      var w' := Exec(p, Step(p, w, e), es);
      RefreshTokens(w'.db, presented, raw, ttl, w'.now) == (w'.db, Refused(RevokedToken))
  {
    hide RefreshOk, OneTimeOk, EmailsOk, OAuthOk, RevokeAll, Exec, Legal;
    StepKeeps(p, w, e);
    if w.db.refresh[id].user == Serve(p, w, e).1.user {
      RevokedForever(p, Step(p, w, e), es, id, presented, raw, ttl);
    }
  }

  /** The same for "revoke my other sessions": all of the caller's tokens but the one presented. */
  lemma RevokeOthersEndsTheRest(p: Policy, w: World, e: Event, es: seq<Event>, id: nat, presented: string,
                                raw: string, ttl: int)
    requires Normalising(p) && Inv(p, w) && Drawn(w.db, e) && Legal(p, Step(p, w, e), es)
    requires e.DoRevokeOthers? && Serve(p, w, e).1.Changed?
    requires id < |w.db.refresh| && w.db.refresh[id].hash == Sha(presented) && presented != ""
    ensures w.db.refresh[id].user != e.subject || presented == e.presented ==>
      Step(p, w, e).db.refresh[id] == w.db.refresh[id]
    ensures w.db.refresh[id].user == e.subject && presented != e.presented ==>
      var w' := Exec(p, Step(p, w, e), es);
      RefreshTokens(w'.db, presented, raw, ttl, w'.now) == (w'.db, Refused(RevokedToken))
  {
    hide RefreshOk, OneTimeOk, EmailsOk, OAuthOk, RevokeAll, Exec, Legal;
    StepKeeps(p, w, e);
    FoundIs(w.db.refresh, w.family, |w.db.users|, id, presented);
    if w.db.refresh[id].user == e.subject && presented != e.presented {
      RevokedForever(p, Step(p, w, e), es, id, presented, raw, ttl);
    }
  }

  /** A one-time token works at most once, and only for the purpose it was issued for. */
  lemma OneTimeMeansOnce(p: Policy, w: World, e: Event, es: seq<Event>, password: string)
    requires Normalising(p) && Inv(p, w) && Drawn(w.db, e) && Legal(p, Step(p, w, e), es)
    requires (e.DoVerifyEmail? || e.DoResetPassword?) && Serve(p, w, e).1.Changed?
    ensures var w' := Exec(p, Step(p, w, e), es);
      && VerifyEmail(w'.db, e.presented, w'.now).1.Refused?
      && ResetPassword(p, w'.db, e.presented, password, w'.now).1.Refused?
    ensures e.DoVerifyEmail? ==> ResetPassword(p, w.db, e.presented, password, w.now).1.Refused?
    ensures e.DoResetPassword? ==> VerifyEmail(w.db, e.presented, w.now).1.Refused?
  {
    hide RefreshOk, OneTimeOk, EmailsOk, OAuthOk, Exec, Legal, Step, FindOneTime;
    StepKeeps(p, w, e);
    var id := RedeemConsumes(p, w, e);
    var w1 := Step(p, w, e);
    RunKeeps(p, w1, es);
    RunLater(p, w1, es);
    Spent(p, Exec(p, w1, es).db, id, e.presented, password, Exec(p, w1, es).now);
  }

  lemma RedeemConsumes(p: Policy, w: World, e: Event) returns (id: nat)
    requires OneTimeOk(w.db.oneTime, |w.db.users|)
    requires (e.DoVerifyEmail? || e.DoResetPassword?) && Serve(p, w, e).1.Changed?
    ensures id < |w.db.oneTime| <= |Step(p, w, e).db.oneTime|
    ensures w.db.oneTime[id].hash == Sha(e.presented)
    ensures w.db.oneTime[id].purpose == if e.DoVerifyEmail? then VerifyAddress else PasswordReset
    ensures Step(p, w, e).db.oneTime[id] == w.db.oneTime[id].(consumedAt := Some(w.now))
    ensures e.DoVerifyEmail? ==> Redeemable(w.db, e.presented, PasswordReset, w.now).None?
    ensures e.DoResetPassword? ==> Redeemable(w.db, e.presented, VerifyAddress, w.now).None?
  {
    hide FindOneTime, RevokeAll;
    id := Redeemable(w.db, e.presented, if e.DoVerifyEmail? then VerifyAddress else PasswordReset, w.now).value;
  }

  /* ---- the session list ---- */

  lemma {:induction false} CountAppend(rows: seq<RefreshRow>, row: RefreshRow, user: nat, now: int)
    ensures ActiveSessions(rows + [row], user, now) ==
      ActiveSessions(rows, user, now) + (if row.user == user && Live(row, now) then 1 else 0)
  {
    assert (rows + [row])[..|rows|] == rows;
  }

  lemma {:induction false} CountUpdate(rows: seq<RefreshRow>, id: nat, row: RefreshRow, user: nat, now: int)
    requires id < |rows| && rows[id].user == row.user
    ensures ActiveSessions(rows[id := row], user, now) ==
      ActiveSessions(rows, user, now)
        - (if row.user == user && Live(rows[id], now) then 1 else 0)
        + (if row.user == user && Live(row, now) then 1 else 0)
  {
    var front := rows[..|rows| - 1];
    if id == |rows| - 1 {
      assert rows[id := row][..|rows| - 1] == front;
    } else {
      CountUpdate(front, id, row, user, now);
      assert rows[id := row][..|rows| - 1] == front[id := row];
    }
  }

  /**
   A successful refresh swaps one session for another: nobody else's session count moves, and the
   user's own count is unchanged exactly when the configured lifetime is positive.
   */
  lemma RefreshSwapsOneSession(db: Db, presented: string, raw: string, ttl: int, now: int, user: nat)
    requires RefreshTokens(db, presented, raw, ttl, now).1.Session?
    ensures var (db', out) := RefreshTokens(db, presented, raw, ttl, now);
      ActiveSessions(db'.refresh, user, now) == ActiveSessions(db.refresh, user, now) <==> (user != out.user || ttl > 0)
  {
    var id := FindRefresh(db.refresh, Sha(presented)).value;
    var row := db.refresh[id];
    var rows := Issue(db.refresh, row.user, raw, ttl, now);
    CountAppend(db.refresh, rows[|db.refresh|], user, now);
    CountUpdate(rows, id, rows[id].(revokedAt := Some(now), replacedBy := Some(|db.refresh|)), user, now);
  }
}
