/**
 The rows behind the API's credentials and what each service call does to them.

 A table is a sequence of rows in creation order: rows are appended and updated, never deleted,
 and a row's position stands for its random id. SHA-256 with the pepper and the password hash are
 injective constructors. Times are seconds of one clock, handed to every call as `now`.
 */
module AuthTables {
  import opened Common

  const MINUTE := 60
  const DAY := 86400

  datatype TokenHash = Sha(raw: string)
  datatype PasswordHash = Unusable | Hashed(password: string)

  datatype User = User(
    email: string,
    password: PasswordHash,
    active: bool,
    verified: bool,
    failures: nat,
    lockedUntil: Option<int>)

  datatype RefreshRow = RefreshRow(
    user: nat,
    hash: TokenHash,
    createdAt: int,
    expiresAt: int,
    revokedAt: Option<int>,
    replacedBy: Option<nat>)

  datatype Purpose = VerifyAddress | PasswordReset

  datatype OneTimeRow = OneTimeRow(
    user: Option<nat>,
    hash: TokenHash,
    purpose: Purpose,
    expiresAt: int,
    consumedAt: Option<int>)

  datatype OAuthRow = OAuthRow(user: nat, provider: string, account: string)

  datatype Db = Db(
    users: seq<User>,
    refresh: seq<RefreshRow>,
    oneTime: seq<OneTimeRow>,
    oauth: seq<OAuthRow>)

  /** The two text functions the service depends on: address normalisation and the password rule. */
  datatype Policy = Policy(norm: string -> string, strong: string -> bool)

  datatype Refusal =
    | EmailTaken | WeakPassword | NoSuchUser | Inactive | Locked | BadPassword
    | UnknownToken | RevokedToken | ExpiredToken | LinkRejected | InvalidEmail | NotAuthenticated

  datatype Outcome =
    | Session(user: nat, token: nat)   // a new refresh token row was issued
    | Changed(user: nat)               // an account update succeeded
    | Refused(why: Refusal)
    | Quiet                            // success that tells the caller nothing

  /* ---- queries ---- */

  function FindUser(users: seq<User>, email: string): (r: Option<nat>)
    ensures r.Some? ==> r.value < |users| && users[r.value].email == email
    ensures r.None? ==> forall i :: 0 <= i < |users| ==> users[i].email != email
  {
    if users == [] then None
    else if users[|users| - 1].email == email then Some(|users| - 1)
    else FindUser(users[..|users| - 1], email)
  }

  function FindRefresh(rows: seq<RefreshRow>, hash: TokenHash): (r: Option<nat>)
    ensures r.Some? ==> r.value < |rows| && rows[r.value].hash == hash
    ensures r.None? ==> forall i :: 0 <= i < |rows| ==> rows[i].hash != hash
  {
    if rows == [] then None
    else if rows[|rows| - 1].hash == hash then Some(|rows| - 1)
    else FindRefresh(rows[..|rows| - 1], hash)
  }

  function FindOneTime(rows: seq<OneTimeRow>, hash: TokenHash, purpose: Purpose): (r: Option<nat>)
    ensures r.Some? ==> r.value < |rows| && rows[r.value].hash == hash && rows[r.value].purpose == purpose
    ensures r.None? ==> forall i :: 0 <= i < |rows| ==> rows[i].hash != hash || rows[i].purpose != purpose
  {
    if rows == [] then None
    else
      var last := rows[|rows| - 1];
      if last.hash == hash && last.purpose == purpose then Some(|rows| - 1)
      else FindOneTime(rows[..|rows| - 1], hash, purpose)
  }

  function FindOAuth(rows: seq<OAuthRow>, provider: string, account: string): (r: Option<nat>)
    ensures r.Some? ==> r.value < |rows| && rows[r.value].provider == provider && rows[r.value].account == account
    ensures r.None? ==> forall i :: 0 <= i < |rows| ==> rows[i].provider != provider || rows[i].account != account
  {
    if rows == [] then None
    else
      var last := rows[|rows| - 1];
      if last.provider == provider && last.account == account then Some(|rows| - 1)
      else FindOAuth(rows[..|rows| - 1], provider, account)
  }

  function Live(row: RefreshRow, now: int): bool {
    row.revokedAt.None? && row.expiresAt > now
  }

  /** How many sessions the session list shows for a user. */
  function ActiveSessions(rows: seq<RefreshRow>, user: nat, now: int): nat {
    if rows == [] then 0
    else
      var last := rows[|rows| - 1];
      ActiveSessions(rows[..|rows| - 1], user, now) + (if last.user == user && Live(last, now) then 1 else 0)
  }

  /* ---- row updates ---- */

  function Issue(rows: seq<RefreshRow>, user: nat, raw: string, ttlDays: int, now: int): seq<RefreshRow> {
    rows + [RefreshRow(user, Sha(raw), now, now + ttlDays * DAY, None, None)]
  }

  function Revoke(rows: seq<RefreshRow>, id: nat, replacement: Option<nat>, now: int): seq<RefreshRow>
    requires id < |rows|
  {
    rows[id := rows[id].(revokedAt := Some(now), replacedBy := replacement)]
  }

  /** Revoke every unrevoked token of a user, except possibly one. */
  function RevokeAll(rows: seq<RefreshRow>, user: nat, keep: Option<nat>, now: int): (r: seq<RefreshRow>)
    ensures |r| == |rows|
    ensures forall i :: 0 <= i < |rows| ==>
      && r[i] == rows[i].(revokedAt := r[i].revokedAt)
      && (rows[i].revokedAt.Some? ==> r[i] == rows[i])
      && (r[i].revokedAt == rows[i].revokedAt || r[i].revokedAt == Some(now))
      && (r[i].revokedAt.Some? <==> rows[i].revokedAt.Some? || (rows[i].user == user && keep != Some(i)))
  {
    seq(|rows|, i requires 0 <= i < |rows| =>
      if rows[i].user == user && rows[i].revokedAt.None? && keep != Some(i)
      then rows[i].(revokedAt := Some(now)) else rows[i])
  }

  function WithFailure(u: User, maxFailures: int, lockMinutes: int, now: int): User {
    var limit := Max(1, maxFailures);
    var minutes := Max(1, lockMinutes);
    u.(failures := u.failures + 1,
       lockedUntil := if u.failures + 1 >= limit then Some(now + minutes * MINUTE) else u.lockedUntil)
  }

  function Consume(rows: seq<OneTimeRow>, id: nat, now: int): seq<OneTimeRow>
    requires id < |rows|
  {
    if rows[id].consumedAt.None? then rows[id := rows[id].(consumedAt := Some(now))] else rows
  }

  /* ---- service calls ---- */

  function Register(p: Policy, db: Db, email: string, password: string, raw: string, ttlDays: int, now: int)
    : (Db, Outcome)
  {
    if !p.strong(password) then (db, Refused(WeakPassword))
    else if FindUser(db.users, p.norm(email)).Some? then (db, Refused(EmailTaken))
    else
      var u := |db.users|;
      var users := db.users + [User(p.norm(email), Hashed(password), true, false, 0, None)];
      (db.(users := users, refresh := Issue(db.refresh, u, raw, ttlDays, now)), Session(u, |db.refresh|))
  }

  function Login(p: Policy, db: Db, email: string, password: string, raw: string, ttlDays: int,
                 maxFailures: int, lockMinutes: int, now: int): (Db, Outcome)
  {
    match FindUser(db.users, p.norm(email))
    case None => (db, Refused(NoSuchUser))
    case Some(u) =>
      var user := db.users[u];
      if !user.active then (db, Refused(Inactive))
      else if user.lockedUntil.Some? && user.lockedUntil.value > now then (db, Refused(Locked))
      else if user.password != Hashed(password) then
        (db.(users := db.users[u := WithFailure(user, maxFailures, lockMinutes, now)]), Refused(BadPassword))
      else
        (db.(users := db.users[u := user.(failures := 0, lockedUntil := None)],
             refresh := Issue(db.refresh, u, raw, ttlDays, now)),
         Session(u, |db.refresh|))
  }

  function RefreshTokens(db: Db, presented: string, raw: string, ttlDays: int, now: int): (Db, Outcome) {
    if presented == "" then (db, Refused(NotAuthenticated))
    else
      match FindRefresh(db.refresh, Sha(presented))
      case None => (db, Refused(UnknownToken))
      case Some(id) =>
        var row := db.refresh[id];
        if row.revokedAt.Some? then (db, Refused(RevokedToken))
        else if row.expiresAt <= now then (db, Refused(ExpiredToken))
        else if row.user >= |db.users| then (db, Refused(UnknownToken))
        else
          var successor := |db.refresh|;
          var rows := Issue(db.refresh, row.user, raw, ttlDays, now);
          (db.(refresh := Revoke(rows, id, Some(successor), now)), Session(row.user, successor))
  }

  function Logout(db: Db, presented: string, now: int): (Db, Outcome) {
    if presented == "" then (db, Quiet)
    else
      match FindRefresh(db.refresh, Sha(presented))
      case None => (db, Quiet)
      case Some(id) => (db.(refresh := Revoke(db.refresh, id, None, now)), Quiet)
  }

  /** `subject` is the user id carried by the caller's verified access token. */
  function RevokeOthers(db: Db, subject: nat, presented: string, now: int): (Db, Outcome) {
    if presented == "" then (db, Refused(NotAuthenticated))
    else
      match FindRefresh(db.refresh, Sha(presented))
      case None => (db, Refused(NotAuthenticated))
      case Some(id) =>
        if db.refresh[id].user != subject then (db, Refused(NotAuthenticated))
        else (db.(refresh := RevokeAll(db.refresh, subject, Some(id), now)), Changed(subject))
  }

  function IssueOneTime(p: Policy, db: Db, purpose: Purpose, email: string, raw: string, ttlMinutes: int, now: int)
    : (Db, Outcome)
  {
    match FindUser(db.users, p.norm(email))
    case None => (db, Quiet)
    case Some(u) =>
      if (purpose.VerifyAddress? && db.users[u].verified) || (purpose.PasswordReset? && !db.users[u].active)
      then (db, Quiet)
      else
        var row := OneTimeRow(Some(u), Sha(raw), purpose, now + Max(1, ttlMinutes) * MINUTE, None);
        (db.(oneTime := db.oneTime + [row]), Quiet)
  }

  /** The checks both one-time flows make before acting: unknown, consumed, expired, no user. */
  function Redeemable(db: Db, presented: string, purpose: Purpose, now: int): (r: Option<nat>)
    ensures r.Some? ==>
      && r.value < |db.oneTime|
      && db.oneTime[r.value].hash == Sha(presented)
      && db.oneTime[r.value].purpose == purpose
      && db.oneTime[r.value].consumedAt.None?
      && db.oneTime[r.value].expiresAt > now
      && db.oneTime[r.value].user.Some?
  {
    if presented == "" then None
    else
      match FindOneTime(db.oneTime, Sha(presented), purpose)
      case None => None
      case Some(id) =>
        var row := db.oneTime[id];
        if row.consumedAt.Some? || row.expiresAt <= now || row.user.None? then None else Some(id)
  }

  function VerifyEmail(db: Db, presented: string, now: int): (Db, Outcome) {
    match Redeemable(db, presented, VerifyAddress, now)
    case None => (db, Refused(UnknownToken))
    case Some(id) =>
      var u := db.oneTime[id].user.value;
      var users := if u < |db.users| then db.users[u := db.users[u].(verified := true)] else db.users;
      (db.(users := users, oneTime := Consume(db.oneTime, id, now)), Changed(u))
  }

  /** What a reset does once its token is accepted. */
  function Reset(db: Db, id: nat, password: string, now: int): Db
    requires id < |db.oneTime| && db.oneTime[id].user.Some?
  {
    var u := db.oneTime[id].user.value;
    var users := if u < |db.users| then db.users[u := db.users[u].(password := Hashed(password))] else db.users;
    db.(users := users, oneTime := Consume(db.oneTime, id, now), refresh := RevokeAll(db.refresh, u, None, now))
  }

  function ResetPassword(p: Policy, db: Db, presented: string, password: string, now: int): (Db, Outcome) {
    if presented == "" then (db, Refused(UnknownToken))
    else if !p.strong(password) then (db, Refused(WeakPassword))
    else
      match Redeemable(db, presented, PasswordReset, now)
      case None => (db, Refused(UnknownToken))
      case Some(id) => (Reset(db, id, password, now), Changed(db.oneTime[id].user.value))
  }

  function ChangeEmail(p: Policy, db: Db, subject: nat, email: string): (Db, Outcome) {
    var n := p.norm(email);
    if n == "" then (db, Refused(InvalidEmail))
    else if OtherHolds(db.users, subject, n) then (db, Refused(EmailTaken))
    else if subject < |db.users| then
      (db.(users := db.users[subject := db.users[subject].(email := n, verified := false)]), Changed(subject))
    else (db, Refused(NoSuchUser))
  }

  predicate OtherHolds(users: seq<User>, subject: nat, email: string) {
    exists i :: 0 <= i < |users| && i != subject && users[i].email == email
  }

  /** Google sign-in with an identity whose signature was already verified. */
  function OAuthGoogle(p: Policy, db: Db, account: string, email: string, emailVerified: bool, raw: string,
                       ttlDays: int, now: int): (Db, Outcome)
  {
    var linked := FindOAuth(db.oauth, "google", account);
    var signedIn := if linked.Some? && db.oauth[linked.value].user < |db.users|
                    then Some(db.oauth[linked.value].user) else None;
    if signedIn.Some? then OpenSession(db, signedIn.value, raw, ttlDays, now)
    else
      match FindUser(db.users, p.norm(email))
      case Some(u) =>
        if db.users[u].verified || emailVerified
        then OpenSession(db.(oauth := Link(db.oauth, linked, u, account)), u, raw, ttlDays, now)
        else (db, Refused(LinkRejected))
      case None =>
        var u := |db.users|;
        var users := db.users + [User(p.norm(email), Unusable, true, emailVerified, 0, None)];
        OpenSession(db.(users := users, oauth := Link(db.oauth, linked, u, account)), u, raw, ttlDays, now)
  }

  /** Insert an account row; a row already there violates the unique key and the error is swallowed. */
  function Link(rows: seq<OAuthRow>, existing: Option<nat>, user: nat, account: string): seq<OAuthRow> {
    if existing.Some? then rows else rows + [OAuthRow(user, "google", account)]
  }

  function OpenSession(db: Db, user: nat, raw: string, ttlDays: int, now: int): (Db, Outcome)
    requires user < |db.users|
  {
    if !db.users[user].active then (db, Refused(Inactive))
    else (db.(refresh := Issue(db.refresh, user, raw, ttlDays, now)), Session(user, |db.refresh|))
  }

  /* ---- fresh secrets ---- */

  function LongerThan(rows: seq<RefreshRow>): (raw: string)
    ensures raw != "" && forall i :: 0 <= i < |rows| ==> |rows[i].hash.raw| < |raw|
  {
    if rows == [] then "x"
    else
      var last := rows[|rows| - 1].hash.raw;
      var front := LongerThan(rows[..|rows| - 1]);
      if |last| < |front| then front else last + "x"
  }

  /** There is always a secret that no row holds. */
  lemma FreshSecret(rows: seq<RefreshRow>) returns (raw: string)
    ensures raw != "" && forall i :: 0 <= i < |rows| ==> rows[i].hash != Sha(raw)
  {
    raw := LongerThan(rows);
  }
}
