# Verified model of base2's stateful core

A Dafny model of the parts of the base2 web stack that carry state or an algorithm worth proving things about,
with proofs that hold for every input, every run and every interleaving. `dafny verify dfyconfig.toml` checks
the whole project.

## What is modelled

* **Sessions and credentials** (`AuthTables`, `AuthStore`, `SessionRuns`, `Accounts`, `GoogleSignIn`, `TokenLife`,
  `Lockout`). The API's user, refresh token, one-time token and OAuth account tables, and every service call that
  changes them. `AuthStore.Store` updates the tables in place, statement by statement, and each call is proved equal to
  a function of `AuthTables`; the other modules prove what arbitrary runs of those functions keep, and what they answer,
  told from the rows and the history: who can sign in and with which password, whom Google signs in, how long a token
  lives and what ends it, how many wrong passwords can be tried. A table is a
  sequence of rows and a row's position stands for its UUID; the token hash and the password hash are injective
  constructors; email normalisation (strip and lower-case) is any function that is idempotent; one clock never
  goes back. Which login a token descends from is tracked beside the tables, since logging out overwrites the
  replacement link.
* **Interleaved statements** (`RefreshInterleaving`, `OneTimeInterleaving`, `AddressInterleaving`). One refresh, and
  one redemption of a one-time token, is three separate SQL statements; taking an address, by registering, by a first
  Google sign-in or by changing it, is a lookup and a write. Any number of calls interleave them with each other;
  refreshes also with sign-ins and with revocations.
* **The browser client** (`ApiClient`, `ClientRetries`) and **client and server together** (`ComposedRefresh`,
  `LostResponses`). A client step is the code between two awaits. The composition puts one client, one login, the
  network and the tables in one state, with the refresh token in the body or in a cookie. The client may be failed on
  any request or response, and the service may still take up a request that the client has given up on.
* **Rate limiters** (`CounterStore`, `AlignedLimiter`, `TenantLimiter`, `Decimal`). Redis is a map of counters
  with expiry times. The aligned limiter is proved to agree with a plain list of its calls; the tenant limiter
  has its time-to-live read and its pipeline as separate steps.
* **Deployment** (`EnvTemplates`, `References`, `StrayDollars`, `DnsReconcile`, `DnsAddresses`). The `${NAME}` expander
  and the DNS reconcile loop, which can be cut off at any write.
* **OAuth state and user names** (`Base64Url`, `OAuthState`, `StateJson`, `Usernames`). Base64url follows section 5
  of RFC 4648; decoding is the lenient decoder of the Python standard library. The signature and the JSON codec
  are parameters of `OAuthState`; `StateJson` writes and reads the payload's JSON and instantiates the results.
* **Logging and metrics** (`LogRedaction`, `UrlRedaction`, `RedactedText`, `HiddenSecrets`, `ShownTexts`,
  `SensitiveKeys`, `LogValues`, `ApiMetrics`). The three regular-expression substitutions scan character by character,
  with Unicode's character classes as a parameter; the recursive redaction and the record filter build on them.

The classes update their fields in place. Every method is proved equal to a function, and the classes with a
protocol behind them (`AuthStore.Store`, `ApiClient.Session`) keep that protocol's invariant as `Valid()`.

## Where the code does not do what one would expect

Each of these is proved, with the exact condition under which the expected behaviour does hold.

* **Overlapping refreshes.** A find statement overlaps when the login of the token it takes already has another
  heir: a call that has yet to create its token, or an unrevoked token that no call is rotating. From any state
  where no login has two heirs, letting the calls under way finish leaves every login at most one unrevoked token,
  wherever a run is stopped, if and only if no find in the run overlaps (`RefreshInterleaving.SafeIffNoOverlap`).
* **Resets during a refresh.** A reset ends all of a user's logins for good if and only if no refresh has found a
  token of theirs and has yet to create its successor (`RefreshInterleaving.ResetEndsAllIffNoneUnderWay`). What
  is alive after a reset or a revoke-others once the calls under way are done, including a kept token that was
  just being rotated and dies with its successor, is `RefreshInterleaving.RevokedWithCallsUnderWay`.
* **Overlapping redemptions.** A one-time token is accepted at most once, wherever a run is stopped, if and only if
  no lookup finds a token that another call has looked up and not yet consumed
  (`OneTimeInterleaving.OnceIffNoOverlap`).
* **Shared addresses.** With the unique constraint that the table has no two users ever share an address
  (`AddressInterleaving.ConstraintKeepsDistinct`). A write whose lookup had succeeded is turned down by it, or without
  it two users come to share an address, if and only if a lookup in the run finds an address free that another call
  under way is about to give to another user (`AddressInterleaving.WellIffNoOverlap`).
* **Lost messages.** With the refresh token in a cookie, a refresh that the client waits for is refused as revoked if
  and only if an earlier one was granted whose answer did not reach the client, because it was lost or because the
  client had given up on the request (`LostResponses.CookieRevokedIffOrphaned`); a request that is taken up late, if
  and only if that happened before it was made or any refresh was granted since (`LostResponses.LateRequestRevokedIff`).
  With the token in storage the failed refresh's handler clears it, and in a browser, where that handler runs before
  any other response is looked at, no revoked token is ever presented, whatever is lost and however late a request is
  taken up (`LostResponses.StorageNeverMeetsARevokedToken`). `LostResponses.SafeIffInStorage` joins the two.
* **Session count.** A refresh leaves the user's active-session count alone exactly when the configured lifetime
  is positive (`SessionRuns.RefreshSwapsOneSession`).
* **DNS restart.** A run that was cut off and run again ends like one complete run for every zone and every cut
  exactly when no created name answers for a later required name; pairwise distinct labels are not enough
  (`DnsReconcile.RestartIffNoAlias`, `DnsReconcile.AllLabelsDistinctAndNotRestartable`).
* **Template depth.** Five passes give the full expansion exactly when references nest at most five deep
  (`EnvTemplates.FivePassesExpandFully`). With a `$` that starts no reference passes can differ from recursion: they
  agree for all well-formed environments and all depths if and only if no such `$` begins a reference, be it `$`, `${`
  or `${` and part of a name, that runs right up to where another starts (`StrayDollars.PassesAgreeIffNoJoin`). The
  bound of five is exact for all those texts too (`StrayDollars.FivePassesExpandFullyWhenNoJoin`).
* **Sensitive keys.** `_is_sensitive_key` turns underscores into hyphens before comparing, so its fragment
  `api_key` matches nothing: a key is masked exactly when it contains one of the other ten fragments
  (`SensitiveKeys.SensitiveIffFlagged`), and naming an API key, as in `api_key` or `X-API-Key`, adds nothing to
  that (`SensitiveKeys.ApiKeyAddsNothing`).

The limiters' keys are joined with colons. Calls of two scopes can share a key exactly when one scope is the other
followed by a colon and more (`AlignedLimiter.CollideIffExtends`). No caller comes near that: every scope passed is
a constant without a colon (api/routes/auth.py:150, 198, 277, 290-295 and 625).

## Model

| member | source | states |
|---|---|---|
| AuthStore.Store.CreateUser | api/auth/repo.py:28-54 | appends one active, unlocked user under the normalised address and returns its id |
| AuthStore.Store.CreateRefreshToken | api/auth/repo.py:237-259 | appends one unrevoked, unreplaced row expiring `ttl_days` from now; no other row changes |
| AuthStore.Store.RevokeRefreshToken | api/auth/repo.py:349-360 | sets the row's revocation time and overwrites its replacement link, with nothing when none is given |
| AuthStore.Store.RevokeAllRefreshTokens | api/auth/repo.py:335-374 | revokes the user's unrevoked rows except the kept one; already revoked rows and other users' rows are as they were |
| AuthStore.Store.RegisterLoginFailure | api/auth/repo.py:180-203 | counts one failure and, once the count reaches the limit (at least 1), locks for the configured minutes (at least 1) |
| AuthStore.Store.ResetLoginFailures | api/auth/repo.py:206-219 | clears the failure count and the lock of one user only |
| AuthStore.Store.ConsumeOneTimeToken | api/auth/repo.py:471-482 | stamps an unconsumed token, leaves a consumed one's stamp alone |
| AuthStore.Store.CreateOAuthAccount | api/auth/repo.py:509-522 | links the account unless it is already linked, when the unique key fails the insert and the route ignores it |
| AuthStore.Store.RegisterUser | api/auth/service.py:163-186 | the whole new state and outcome of registering: password rule first, then the taken address, then the user and its first token; `Valid()` is kept |
| AuthStore.Store.LoginUser | api/auth/service.py:189-246 | the whole new state and outcome of signing in: unknown, inactive, locked, wrong password (counted), right password (token issued, failures cleared); `Valid()` is kept |
| AuthStore.Store.Refresh | api/auth/service.py:260-301 | the whole new state and outcome of a rotation, with its five refusals changing nothing; `Valid()` is kept |
| AuthStore.Store.LogoutSession | api/routes/auth.py:362-397 | revokes the presented token if there is one, dropping its link, and never fails; `Valid()` is kept |
| AuthStore.Store.RevokeOtherSessions | api/routes/auth.py:572-619 | only for a token of the caller: revokes every other unrevoked token of the caller; `Valid()` is kept |
| AuthStore.Store.IssueOneTimeToken | api/auth/service.py:37-130 | one new token for a known user, except a verified user's verification and an inactive user's reset; silent in every case; `Valid()` is kept |
| AuthStore.Store.VerifyEmailToken | api/auth/service.py:72-96 | redeems an unconsumed, unexpired verification token: verifies its user and consumes it, else changes nothing; `Valid()` is kept |
| AuthStore.Store.ApplyReset | api/auth/service.py:156-158 | the three statements of an accepted reset, as one change of the tables |
| AuthStore.Store.ResetPasswordWithToken | api/auth/service.py:133-160 | sets the password, consumes the token and revokes all of the user's refresh tokens, else changes nothing; the lockout is left as it is; `Valid()` is kept |
| AuthStore.Store.UpdateUserEmail | api/auth/repo.py:405-425 | stores the normalised address, unverified, unless it is empty or another user's; `Valid()` is kept |
| AuthStore.Store.SignInWithGoogle | api/routes/auth.py:622-735 | linked user, else link by address when either side verified it, else new user; then a session if the user is active; `Valid()` is kept |
| SessionRuns.RotateKeeps | api/auth/service.py:285-295 | a rotation keeps at most one unrevoked token per login, distinct token hashes and one user per login |
| SessionRuns.OAuthKeeps | api/routes/auth.py:654-735 | Google sign-in keeps addresses normalised and distinct and every account linked to at most one user |
| SessionRuns.ChangeEmailKeeps | api/auth/repo.py:405-425 | changing an address keeps addresses normalised and pairwise distinct without the database's constraint |
| SessionRuns.StepKeeps | api/auth/service.py:37-301 | every route keeps the whole invariant |
| SessionRuns.RunKeeps | api/auth/service.py:37-301 | in every reachable state: at most one unrevoked token per login, distinct token hashes, one user per login, normalised distinct addresses, each provider account linked to at most one user, all references valid |
| SessionRuns.RunLater | api/auth/repo.py:335-482 | no run deletes a refresh or one-time token row, changes its hash, user, expiry or purpose, or brings a revoked or consumed one back |
| SessionRuns.RevokedForever | api/auth/service.py:266-269 | once a token's row is revoked, presenting it is refused as revoked after any further run, and changes nothing |
| SessionRuns.AcceptedAtMostOnce | api/auth/service.py:260-301 | a refresh token that was accepted once is refused as revoked after any further run |
| SessionRuns.ResetEndsEverySession | api/auth/service.py:133-160 | after a reset no earlier refresh token of that user is ever accepted again; other users' rows are untouched |
| SessionRuns.RevokeOthersEndsTheRest | api/auth/repo.py:335-346 | after revoke-others no earlier token of the caller but the presented one is ever accepted again; that one and other users' are untouched |
| SessionRuns.OneTimeMeansOnce | api/auth/repo.py:446-482 | a one-time token succeeds at most once in any run, and only for its own purpose |
| SessionRuns.RedeemConsumes | api/auth/service.py:72-96 | a successful redemption was of an unconsumed token with the presented hash and the right purpose, and stamps exactly it |
| SessionRuns.CountUpdate | api/auth/repo.py:305-332 | how the active-session count moves when one row changes |
| SessionRuns.RefreshSwapsOneSession | api/auth/repo.py:305-332 | a successful refresh leaves every user's active-session count as it was, except the caller's own when the lifetime is not positive |
| Accounts.UserAfterStep | api/auth/repo.py:377-425 | what any one step does to any one user: the password changes exactly by an accepted reset, the address by an accepted change, verification by an accepted token and back by a change of address |
| Accounts.NewUserAfterStep | api/auth/repo.py:28-54 | a step adds at most one user, exactly by a registration with a strong password or a Google sign-in without a link, at an address nobody has, with these fields |
| Accounts.PasswordByHistory | api/auth/service.py:133-160 | after any run a user's password is the one its last reset set, else the one there was |
| Accounts.VerifiedByHistory | api/auth/repo.py:377-425 | after any run an address is verified exactly when it was verified, or was to begin with, and not changed since |
| Accounts.LoginAnswer | api/auth/service.py:189-246 | for the user at the address, the session, row and cleared count of the right password, the counted failure and the lock of a wrong one, and the two refusals before any password is looked at |
| Accounts.LoginOpensIff | api/auth/service.py:189-246 | in every state of every run a login opens a session if and only if a user has the normalised address, is active, is not locked any more and has the hash of the password presented; the session is that user's |
| Accounts.SignsInWithTheLastPassword | api/auth/service.py:133-246 | after any run exactly the password last set signs in to an open account |
| Accounts.RegisteredPasswordSignsIn | api/auth/service.py:163-246 | the password of the registration signs in until a reset replaces it, and no other does |
| Accounts.ResetReplacesThePassword | api/auth/service.py:133-246 | after a reset, until the next, the new password signs in and the old one does not |
| GoogleSignIn.LinkedSignsIn | api/routes/auth.py:654-659 | a linked account signs its user in, if active, whatever address it comes with, and changes no user and no link |
| GoogleSignIn.UnlinkedMerges | api/routes/auth.py:661-682 | an account without a link is linked to the user at its address if the user or Google verified that, and refused if neither did |
| GoogleSignIn.UnlinkedJoins | api/routes/auth.py:683-706 | with a new address it gets a user of its own, verified as Google says, a link and a session |
| GoogleSignIn.LinksExistingIff | api/routes/auth.py:661-682 | in every state of every run a sign-in comes to be linked to a user who was there exactly by the merge rule |
| GoogleSignIn.GoogleOpensIff | api/routes/auth.py:654-735 | in every state of every run it opens a session exactly for a linked active user, an active user by the merge rule, or a new address |
| GoogleSignIn.SameUserEverAfter | api/routes/auth.py:654-735 | an account that has signed a user in signs in that user and no other after any run, exactly while the user is active |
| TokenLife.StepEnds | api/auth/repo.py:335-374 | a step revokes an unrevoked token exactly when it rotates it in time, logs it out, revokes its user's others by another token of the user's, or resets its user's password |
| TokenLife.RevokedByHistory | api/auth/repo.py:335-374 | after any run a token is revoked exactly when some step has ended it |
| TokenLife.TokenAnswer | api/auth/service.py:260-301 | after any run a token that was unrevoked is granted, refused as revoked, or refused as expired, exactly by its history and the clock |
| TokenLife.RotationLinks | api/auth/service.py:279-301 | a rotation stamps the token presented with the time and its successor, adds the successor, and changes nothing else |
| TokenLife.StrangeToken | api/auth/service.py:260-268 | an unknown secret and no secret are refused as such and change nothing |
| TokenLife.SessionIssues | api/auth/repo.py:237-259 | every session comes with a row for its user and secret that expires the configured number of days from now |
| TokenLife.IssuedTokenLives | api/auth/service.py:163-301 | the secret handed out with any session refreshes it for its user, for exactly that long and until a step ends it |
| TokenLife.LogoutEndsTheToken | api/routes/auth.py:362-397 | a logged-out token is refused as revoked after any run, and no other token changes |
| TokenLife.ConsumedByHistory | api/auth/repo.py:446-482 | after any run a one-time token is consumed exactly when some step has redeemed it |
| TokenLife.OneTimeAnswer | api/auth/service.py:72-160 | after any run an unused one-time token is accepted exactly by its own flow, before it runs out, unless redeemed, and for a reset with a strong password |
| TokenLife.OneTimeIssued | api/auth/service.py:37-130 | asking for a token stores one, with its exact lifetime, for the user at the address unless verified, or for a reset not active, and never tells |
| TokenLife.SentTokenLives | api/auth/service.py:37-160 | the secret sent works for its user and purpose for exactly that long, once |
| Lockout.StepLockConsistent | api/auth/repo.py:180-219 | every step keeps: a lock time is stored exactly when the failure count has reached the limit |
| Lockout.RunLockConsistent | api/auth/repo.py:180-219 | the same along every run |
| Lockout.StepLock | api/auth/service.py:200-226 | only a wrong password at an unlocked account counts a failure; nothing else but a success moves the count or the lock |
| Lockout.FailureTakesRoom | api/auth/repo.py:180-203 | a failed check uses up one of the checks the limit allows, or a whole lock time |
| Lockout.LockoutBound | api/auth/service.py:200-226 | a stretch of length T without the right password has at most m + floor(T / L) checks of a wrong one, a check being of the account found by the address, active and not locked |
| RefreshInterleaving.ThreeActionsAreOneRefresh | api/auth/service.py:260-301 | find, create and revoke run without interruption are exactly one atomic refresh, on every input |
| RefreshInterleaving.ActionKeepsLinks | api/auth/service.py:285-295 | each single statement of each call keeps the link invariant |
| RefreshInterleaving.RunKeepsLinks | api/auth/service.py:285-295 | in every interleaving a token with a replacement is revoked; the replacement exists, is the same user's, was created later and replaces nothing else |
| RefreshInterleaving.LinksAcyclic | api/auth/repo.py:349-360 | following n links from a token leads at least n rows forward, so the links never loop |
| RefreshInterleaving.InitLinks | api/auth/repo.py:237-259 | before the first sign-in both invariants hold |
| RefreshInterleaving.RunKeepsHeir | api/auth/service.py:260-301 | along a run without overlaps each login keeps at most one heir: an unrevoked token that no call rotates, or a call yet to create one |
| RefreshInterleaving.QuietMeansOneLive | api/auth/service.py:260-301 | after a run without overlaps, whenever no call is under way every login has at most one unrevoked token |
| RefreshInterleaving.OverlapLeavesTwoLive | api/auth/service.py:285-295 | after any overlapping find the calls under way can all finish, with fresh secrets, and leave a login with two unrevoked tokens |
| RefreshInterleaving.SafeIffNoOverlap | api/auth/service.py:260-301 | a run is free of overlapping finds if and only if, wherever it is stopped, letting the calls finish leaves every login at most one unrevoked token |
| RefreshInterleaving.HeirsDecide | api/auth/service.py:285-295 | once the calls under way are done, the logins with an unrevoked token are exactly those that had an heir |
| RefreshInterleaving.RevokedWithCallsUnderWay | api/auth/repo.py:335-374 | which logins survive a reset or a revoke-others that finds calls under way: those with a call yet to create its token, and the kept token's if no call was rotating it |
| RefreshInterleaving.ResetEndsAllIffNoneUnderWay | api/auth/repo.py:363-374 | a reset leaves the user without an unrevoked token in every run without a new sign-in if and only if no call has found a token of theirs and has yet to create one |
| OneTimeInterleaving.ThreeActionsAreOneRedemption | api/auth/service.py:72-160 | lookup, effect and consumption run without interruption are exactly one verification or reset |
| OneTimeInterleaving.RunKeepsOnce | api/auth/service.py:72-160 | along a run without overlapping lookups every token is accepted at most once |
| OneTimeInterleaving.OverlapIsAcceptedTwice | api/auth/service.py:76-94 | after an overlapping lookup the calls under way can have the token accepted twice |
| OneTimeInterleaving.OnceIffNoOverlap | api/auth/repo.py:446-482 | a run is free of overlapping lookups if and only if, wherever it is stopped, letting the calls finish accepts no token twice |
| AddressInterleaving.TwoActionsRegister | api/auth/service.py:166-170 | lookup and insert run without interruption are what registering does to the users |
| AddressInterleaving.TwoActionsCreate | api/routes/auth.py:661-700 | and what a first Google sign-in with a new address does |
| AddressInterleaving.TwoActionsChange | api/auth/repo.py:405-425 | and what changing an address does, refusals included |
| AddressInterleaving.ConstraintKeepsDistinct | api/migrations/sql/001_create_auth_tables.sql:9-11 | with the unique constraint addresses stay pairwise distinct in every interleaving |
| AddressInterleaving.RunKeepsApart | api/auth/repo.py:413-425 | along a run without overlapping lookups addresses stay distinct without the constraint, and every address a call is about to write is still free |
| AddressInterleaving.OverlapEndsBadly | api/auth/repo.py:413-425 | after an overlapping lookup the calls under way can write so that two users share an address or, with the constraint, a write is turned down |
| AddressInterleaving.WellIffNoOverlap | api/auth/repo.py:405-425 | a run is free of overlapping lookups if and only if, wherever it is stopped, letting the calls write shares no address and, with the constraint, has no write turned down |
| ApiClient.InitInv | react-app/src/lib/apiClient.js:6-6 | a freshly loaded client satisfies the invariant, whatever is in storage |
| ApiClient.RunKeeps | react-app/src/lib/apiClient.js:77-165 | every interleaving of handlers, replies and awaits keeps the client invariant |
| ApiClient.SingleFlight | react-app/src/lib/apiClient.js:77-165 | at most one refresh is in flight, every request is sent once or twice, and an authentication endpoint is sent once and starts no refresh |
| ApiClient.OnlyTheOwnerClears | react-app/src/lib/apiClient.js:106-110 | the shared promise is set only when empty and cleared only by the request that set it, after it settled |
| ApiClient.StepUsesWork | react-app/src/lib/apiClient.js:135-165 | every step that changes anything lowers the measure; only a new request raises it |
| ApiClient.WorkIsBounded | react-app/src/lib/apiClient.js:135-165 | a run changes the client at most six times per request made, whatever the server answers |
| ApiClient.NoRequestIsStuck | react-app/src/lib/apiClient.js:77-165 | until a request is done some event other than a new request still changes the client |
| ClientRetries.ResponseAnswer | react-app/src/lib/apiClient.js:135-156 | a response ends its request, as often sent as before, unless it is a first 401 at no authentication endpoint; a 401 after the retry also forgets the tokens; a curable one waits for the shared refresh, started if there is none |
| ClientRetries.RetriedIff | react-app/src/lib/apiClient.js:156-164 | along every run, once its handler is done a request that met a curable 401 was sent twice if and only if the refresh it waited for brought an access token, and was sent once and ended if not |
| ClientRetries.HandlerEnds | react-app/src/lib/apiClient.js:156-164 | the step that ends the waiting sends the request again with the tokens as stored, or ends it and forgets both |
| ClientRetries.RetryCarriesTheNewToken | react-app/src/lib/apiClient.js:77-160 | in a browser the tokens stored when a request goes out again are those that its refresh has brought, whatever else went on |
| ApiClient.Session.constructor | react-app/src/lib/apiClient.js:6-6 | the module's variables before the first request |
| ApiClient.Session.ClearAuthStorage | react-app/src/lib/apiClient.js:56-64 | both stored tokens go, nothing else changes |
| ApiClient.Session.SetTokensFromResponse | react-app/src/lib/apiClient.js:40-54 | stores each token the reply carries and keeps the other |
| ApiClient.Session.RefreshSingleFlight | react-app/src/lib/apiClient.js:77-111 | joins the refresh in flight unchanged, or starts exactly one and owns it |
| ApiClient.Session.SendRequest | react-app/src/lib/apiClient.js:113-133 | one more request in flight, sent once and not yet retried |
| ApiClient.Session.HandleResponse | react-app/src/lib/apiClient.js:135-157 | the response interceptor up to its first await: pass on, give up and clear, or await a refresh with the retry flag set |
| ApiClient.Session.HandleRefreshReply | react-app/src/lib/apiClient.js:92-104 | tokens are stored first; the promise fails when the reply has no access token |
| ApiClient.Session.FinishAwait | react-app/src/lib/apiClient.js:106-110 | the awaiting request learns the outcome, and its owner clears the shared promise |
| ApiClient.Session.RetryOrGiveUp | react-app/src/lib/apiClient.js:157-164 | the request is sent a second time, or the stored tokens are cleared |
| ComposedRefresh.HeadIsAccepted | api/auth/service.py:260-301 | presenting a login's only live token is granted, and its successor is then the only live one |
| ComposedRefresh.ClientStepEffect | react-app/src/lib/apiClient.js:77-165 | apart from a delivered reply a client step starts at most one refresh or forgets the stored token |
| ComposedRefresh.StepKeeps | react-app/src/lib/apiClient.js:77-166 | every step of client, network or service that drops no token keeps the composed invariant; a step drops one when it fails the client on a request that carries a token or on the response to a granted refresh |
| ComposedRefresh.RunKeeps | api/auth/service.py:260-301 | every composed run without a drop keeps it, the login's rows being the first one and all issued since |
| ComposedRefresh.RefreshNeverMeetsARevokedToken | react-app/src/lib/apiClient.js:77-166 | in every interleaving without a drop a refresh that carries a token is granted, with the next row as its token, and one that carries none is refused for that, so the reuse branch is never reached |
| ComposedRefresh.HeldTokenIsTheLiveOne | react-app/src/lib/apiClient.js:77-111 | in every state reached without a drop the login has exactly one live token, and what the client holds or awaits, if anything, is it |
| LostResponses.TasksArePrompt | react-app/src/lib/apiClient.js:103-165 | where responses are handled only when no continuation is due, as in a browser, no refresh starts while an earlier failure is still being handled |
| LostResponses.DeadIsRefused | api/auth/service.py:266-269 | presenting a revoked token is refused as reuse and changes nothing |
| LostResponses.CookieStep | react-app/src/lib/apiClient.js:77-166 | in cookie mode every step, losses and late requests included, keeps: each token held, awaited or sent is the login's live one or revoked; and the browser is cut off from the live one exactly by a step that orphans a grant, that is, keeps the answer to a granted refresh from the client |
| LostResponses.CookieRun | react-app/src/lib/apiClient.js:77-166 | the same along every run |
| LostResponses.CookieRevokedIffOrphaned | api/auth/service.py:266-269 | in every cookie-mode run a refresh that the client waits for is refused as revoked if and only if an earlier grant did not reach the client, and is granted otherwise |
| LostResponses.GrantsKillCurrent | api/auth/service.py:285-295 | in cookie mode a stretch of the run either issues no token and leaves the tables alone or leaves the token that was live before it revoked |
| LostResponses.LateRequestRevokedIff | api/auth/service.py:260-301 | a cookie-mode request taken up however late is refused as revoked if and only if a grant was orphaned before it was made or any refresh was granted since, and is granted otherwise |
| LostResponses.DropMakesGone | react-app/src/lib/apiClient.js:161-163 | in storage mode a drop leaves storage that the failed refresh's handler has yet to clear, and at most one abandoned request that carries the live token |
| LostResponses.PromptStorageIsSafe | react-app/src/lib/apiClient.js:156-164 | in storage mode, if no refresh starts while an earlier failure is still being handled, every request that carries a token is granted, whatever is lost and however late it is taken up |
| LostResponses.StorageNeverMeetsARevokedToken | react-app/src/lib/apiClient.js:77-166 | in every storage-mode run a browser can have, every request that carries a token is granted and one that carries none is refused for that |
| LostResponses.StorageForgetsALostLogin | react-app/src/lib/apiClient.js:161-163 | after a drop, whenever no continuation is due, storage holds no token and no request on its way carries one |
| LostResponses.HasteMeetsARevokedToken | react-app/src/lib/apiClient.js:106-163 | what running to completion is needed for: an order of steps that no browser has, with a second 401 handled before the failed refresh's continuation, would present the revoked token in either mode |
| LostResponses.CookieMeetsARevokedToken | react-app/src/lib/apiClient.js:135-165 | in cookie mode a run that a browser can have does present it |
| LostResponses.SafeIffInStorage | react-app/src/lib/apiClient.js:77-166 | no run that a browser can have presents a revoked token if and only if the token is kept in storage |
| AlignedLimiter.SameKeySameText | api/redis_client.py:24-25 | equal keys are of one window and of one text cut at two colons |
| AlignedLimiter.KeyInjective | api/redis_client.py:24-25 | keys of two scopes, neither of which is the other with a colon and more, are equal only for the same scope, identifier and window |
| AlignedLimiter.ColonInScopeCollides | api/redis_client.py:24-25 | with a colon in a scope two different calls share a key |
| AlignedLimiter.CollideIffExtends | api/redis_client.py:24-25 | different calls of two scopes can share a key if and only if one scope is the other followed by a colon and more |
| AlignedLimiter.CounterIsLive | api/security/rate_limit.py:86-93 | the counter a call meets is live exactly when its window has earlier calls, and then holds their number |
| AlignedLimiter.HitKeepsMirror | api/security/rate_limit.py:86-93 | one call keeps the store a mirror of the history, each counter outliving its window |
| AlignedLimiter.StoreMirrorsHistory | api/security/rate_limit.py:78-97 | the store after any history holds for each window its number of calls, and nothing else |
| AlignedLimiter.CountIsHistory | api/security/rate_limit.py:78-97 | the count returned is exactly one more than the earlier calls with the same scope, identifier and window |
| AlignedLimiter.Limiter.IncrAndCheck | api/security/rate_limit.py:78-104 | one increment with its expiry renewed, and the verdict on the new count |
| AlignedLimiter.WindowAdmits | api/security/rate_limit.py:95-97 | of a window's calls exactly the first `max_requests` are admitted |
| AlignedLimiter.SpanAdmitsTwice | api/security/rate_limit.py:31-32 | any span of one window length, both ends included, admits at most twice the limit |
| AlignedLimiter.RetryAfterIsLeast | api/security/rate_limit.py:78-104 | a call is over the limit exactly when its count exceeds it, and is then told the least whole seconds that reach a later window of the clock |
| TenantLimiter.BareCallSetsExpiry | api/security/tenant_limits.py:67-70 | a call that read no time to live leaves its counter with one, whatever happened in between |
| TenantLimiter.WhenEndless | api/security/tenant_limits.py:64-70 | a pipeline leaves a counter without expiry exactly when the call had read a time to live and the key has since gone or was endless already |
| TenantLimiter.EndlessIsShortLived | api/security/tenant_limits.py:58-70 | in every interleaving a counter without expiry does not outlive the next complete call on its key |
| TenantLimiter.StepUsesLeft | api/security/tenant_limits.py:64-70 | every read, pipeline and passing of time uses up what a span can still admit: what the counter has left, and one more limit if it can end within the span |
| TenantLimiter.SpanAdmitsTwice | api/security/tenant_limits.py:46-83 | in every interleaving of reads and pipelines with one window a closed span of the window's length admits at most twice the limit |
| TenantLimiter.AnchorIsACall | api/security/tenant_limits.py:46-51 | a window starts at a call, and every call so far is before its end |
| TenantLimiter.CounterCountsSinceAnchor | api/security/tenant_limits.py:58-75 | with atomic calls the counter is the number of calls since its window's first, and expires one window after that |
| TenantLimiter.WindowsAreDisjoint | api/security/tenant_limits.py:46-51 | later calls stay in the window or start one no earlier than its end, at a call |
| TenantLimiter.AtomicSpanAdmitsTwice | api/security/tenant_limits.py:46-83 | the same bound for the calls of a history without interruption |
| TenantLimiter.RateKeyInjective | api/security/tenant_limits.py:46-64 | rate keys of scopes without a colon are equal only for the same scope, window and tenant |
| TenantLimiter.QuotaKeyInjective | api/security/tenant_limits.py:86-87 | quota keys of quotas without a colon are equal only for the same quota and tenant |
| TenantLimiter.RateIsNoQuota | api/security/tenant_limits.py:46-87 | no rate key is a quota key |
| TenantLimiter.TenantsHaveTheirOwnCounters | api/security/tenant_limits.py:46-75 | in every interleaving one tenant's calls leave another tenant's counter as it is |
| TenantLimiter.Service.Count | api/security/tenant_limits.py:64-71 | the shared increment: one more, with an expiry set exactly when there was none |
| TenantLimiter.Service.IncrAndCheck | api/security/tenant_limits.py:46-83 | a blank tenant is over the limit and touches nothing; else the count, the verdict and the least whole seconds to the window's end |
| TenantLimiter.Service.CheckQuota | api/security/tenant_limits.py:86-112 | a blank tenant is exhausted and touches nothing; else the count, the verdict and the seconds to the reset, being the nearest whole number with a half rounding up, or the window's length when that is none |
| EnvTemplates.ExpandEnvTemplates | digital_ocean/scripts/python/orchestrate_deploy.py:20-38 | stopping at the first pass without a change gives what five unconditional passes give, for every text and environment |
| EnvTemplates.PassAppend | digital_ocean/scripts/python/orchestrate_deploy.py:34-34 | on well-formed text a pass works piece by piece: no reference forms across a joint |
| EnvTemplates.PassesAreNesting | digital_ocean/scripts/python/orchestrate_deploy.py:33-37 | n whole-text passes equal recursive expansion n deep |
| EnvTemplates.DeepEnoughIsFull | digital_ocean/scripts/python/orchestrate_deploy.py:26-26 | expansion at least as deep as the references nest is the full expansion |
| EnvTemplates.TooShallowLeavesRefs | digital_ocean/scripts/python/orchestrate_deploy.py:33-37 | expansion less deep than the references nest leaves a known reference standing |
| EnvTemplates.FullIsFinal | digital_ocean/scripts/python/orchestrate_deploy.py:20-38 | the full expansion has no known reference left |
| EnvTemplates.FivePassesExpandFully | digital_ocean/scripts/python/orchestrate_deploy.py:20-38 | for well-formed, acyclic environments the result is the full expansion exactly when references nest at most five deep |
| EnvTemplates.StrayDollarJoins | digital_ocean/scripts/python/orchestrate_deploy.py:33-37 | a text with a stray dollar sign on which passes and recursion differ |
| References.PassOnReference | digital_ocean/scripts/python/orchestrate_deploy.py:17-34 | for every name of letters, digits and underscores that does not start with a digit, a pass on a reference gives the variable's value, or the reference if there is none, and goes on after it |
| References.PassCopies | digital_ocean/scripts/python/orchestrate_deploy.py:17-34 | where no such reference starts it copies one character |
| References.ObeyingIsPassing | digital_ocean/scripts/python/orchestrate_deploy.py:17-34 | any function that obeys these laws is the pass |
| StrayDollars.PassKeepsNoJoin | digital_ocean/scripts/python/orchestrate_deploy.py:33-37 | a pass with well-formed values keeps a text free of a stray dollar sign's beginning of a reference that runs up to another |
| StrayDollars.PassesAreNestingWhenNoJoin | digital_ocean/scripts/python/orchestrate_deploy.py:33-37 | on such texts n whole-text passes equal recursive expansion n deep |
| StrayDollars.JoinDiffers | digital_ocean/scripts/python/orchestrate_deploy.py:33-37 | on every other text some well-formed environment makes two passes differ from recursion two deep |
| StrayDollars.PassesAgreeIffNoJoin | digital_ocean/scripts/python/orchestrate_deploy.py:33-37 | passes agree with recursion for all well-formed environments and depths if and only if no stray dollar sign begins a reference that runs right up to another |
| StrayDollars.TooShallowLeavesRefsWhenNoJoin | digital_ocean/scripts/python/orchestrate_deploy.py:33-37 | on such texts expansion less deep than the references nest leaves a known reference standing |
| StrayDollars.FivePassesExpandFullyWhenNoJoin | digital_ocean/scripts/python/orchestrate_deploy.py:20-38 | on such texts the result is the full expansion exactly when references nest at most five deep |
| DnsReconcile.FullIs | digital_ocean/scripts/python/orchestrate_deploy.py:232-383 | a complete run fixes the old records in place and appends the missing ones |
| DnsReconcile.EveryRequiredNameIsServed | digital_ocean/scripts/python/orchestrate_deploy.py:365-383 | after a complete run every required name has an A record at the droplet's address, and an AAAA record (except www) when the IPv6 address is known |
| DnsReconcile.OldRecordsAfterARun | digital_ocean/scripts/python/orchestrate_deploy.py:232-341 | every record there was is still there: matched ones at the droplet's address, all others exactly as before |
| DnsReconcile.SecondRunIsIdle | digital_ocean/scripts/python/orchestrate_deploy.py:187-389 | a second complete run creates nothing and changes nothing |
| DnsReconcile.CutWhileUpdating | digital_ocean/scripts/python/orchestrate_deploy.py:232-341 | a run cut off among its updates and rerun ends like a complete run, always |
| DnsReconcile.RestartIsSafe | digital_ocean/scripts/python/orchestrate_deploy.py:187-389 | without aliases a run cut off after any write and rerun ends like a complete run |
| DnsReconcile.AliasBreaksRestart | digital_ocean/scripts/python/orchestrate_deploy.py:343-383 | with an alias, a run from an empty zone cut off after the early name and rerun ends with fewer records |
| DnsReconcile.RestartIffNoAlias | digital_ocean/scripts/python/orchestrate_deploy.py:187-389 | restarting is harmless for every zone and every cut exactly when no created name answers for a later required one |
| DnsReconcile.DistinctLabelsCanAlias | digital_ocean/scripts/python/orchestrate_deploy.py:262-265 | one label being another written with the domain makes a restart lose a record |
| DnsReconcile.AllLabelsDistinctAndNotRestartable | digital_ocean/scripts/python/orchestrate_deploy.py:365-383 | a configuration whose seven labels are pairwise distinct and which a restart breaks |
| DnsAddresses.OldRecordsAddresses | digital_ocean/scripts/python/orchestrate_deploy.py:235-343 | after a run an A record of a listed name, a name with the domain in it or a wildcard has the IPv4 address, such an AAAA record (www aside) the IPv6 address if there is one, and every other record is as it was |
| DnsAddresses.RequiredAddresses | digital_ocean/scripts/python/orchestrate_deploy.py:345-383 | after a run the domain, www and the five labels have A records, all at the IPv4 address, and all but www AAAA records, all at the IPv6 address if there is one |
| DnsAddresses.EmptyZoneGetsAll | digital_ocean/scripts/python/orchestrate_deploy.py:345-383 | an empty zone gets exactly the seven or thirteen records, in order, with these names and addresses |
| DnsAddresses.AddedOnlyIfMissing | digital_ocean/scripts/python/orchestrate_deploy.py:345-366 | in any zone a record is added only when no old one of its kind has one of its label's names |
| DnsReconcile.Provider.UpdateRecord | digital_ocean/scripts/python/orchestrate_deploy.py:282-286 | changes the one record of that id |
| DnsReconcile.Provider.CreateRecord | digital_ocean/scripts/python/orchestrate_deploy.py:350-350 | appends one record with a new id |
| DnsReconcile.Provider.EnsureDnsRecords | digital_ocean/scripts/python/orchestrate_deploy.py:187-389 | the zone after the run, however many writes the API accepts: none on a dry run or without a required IPv6 address, else the updates and creations in order up to the first failing one |
| Decimal.DigitsReadBack | django/users/api_views.py:285-286 | a printed number reads back as itself |
| Decimal.DigitsInjective | django/users/api_views.py:285-286 | two numbers never print alike |
| Usernames.CandidatesDistinct | django/users/api_views.py:282-286 | the names tried are pairwise distinct |
| Usernames.FreeUsername | django/users/api_views.py:282-286 | after at most N + 1 lookups among N names, the base itself if unused, else the base followed by the smallest number from 1 up in decimal that makes an unused name |
| Base64Url.PaddingRecomputed | django/users/api_views.py:75-81 | the encoded text is URL-safe symbols only, and padding it by its length gives back the padded form |
| Base64Url.ScanUndoesPadded | django/users/api_views.py:79-81 | the decoder gives back the bytes from their padded form |
| Base64Url.DecodeUndoesEncode | django/users/api_views.py:75-81 | decoding undoes encoding for every byte string |
| Base64Url.EncodeInjective | django/users/api_views.py:75-76 | no two byte strings encode alike |
| Base64Url.SymbolCode | django/users/api_views.py:75-76 | the alphabet by character code, as in table 2 of RFC 4648 |
| Base64Url.GroupIsANumber | django/users/api_views.py:75-76 | four symbols are the base-64 digits of three bytes read as one number |
| Base64Url.EncodeByGroups | django/users/api_views.py:75-76 | text is encoded three bytes at a time, what is left over as if zeros followed, cut short |
| OAuthState.Session.Mint | django/users/api_views.py:104-115 | returns the signed text of exactly this nonce, time and path, and binds the nonce to the session, replacing an earlier one |
| OAuthState.Session.Validate | django/users/api_views.py:118-152 | the verdict in the source's order of checks, the session unchanged |
| OAuthState.SplitAtFirstDot | django/users/api_views.py:119-122 | splitting at the first dot recovers both parts when the first has none |
| OAuthState.StateTextSplits | django/users/api_views.py:104-122 | a minted state splits into its payload and signature, and has only characters that URLs and stripping leave alone |
| OAuthState.MintedIsJudgedOnItsPayload | django/users/api_views.py:104-152 | a minted state is judged on its payload, the session and the time alone when the signing keys agree on it, and refused when they do not |
| OAuthState.MintedRoundTrip | django/users/api_views.py:104-152 | in its own session a minted state for an allowlisted path is accepted exactly until 600 seconds have passed, and yields the minted path and time |
| OAuthState.SignatureBindsPayload | django/users/api_views.py:124-127 | any text carrying a minted signature is refused or judged as the minted state, or the signature function has a collision |
| OAuthState.AcceptedIff | django/users/api_views.py:118-152 | any text is accepted if and only if it is bytes and their right signature joined by its first dot, and their payload has this session's nonce, a time at most 600 seconds back and the dashboard or no path |
| StateJson.StringReadsBack | django/users/api_views.py:107-108 | reading a written JSON string gives the string back, for every string, and what follows it |
| StateJson.BytesReadBack | django/users/api_views.py:107-132 | reading the payload's JSON bytes gives the payload back, for every nonce, time and path |
| StateJson.StateIsJudgedOnItsPayload | django/users/api_views.py:104-152 | with that codec a minted state is judged on its payload once the keys agree on it, with nothing assumed |
| StateJson.StateRoundTrip | django/users/api_views.py:104-152 | with that codec the round trip holds with nothing assumed: accepted in its own session exactly until 600 seconds have passed, with the minted path and time |
| StateJson.StateIsBound | django/users/api_views.py:124-127 | with that codec a minted signature vouches for one payload unless the signature function has a collision |
| StateJson.PlainPayload | django/users/api_views.py:107-108 | the signed text for a nonce and a path of plain characters: the three members in alphabetical order, without spaces |
| StateJson.EscapesByCode | django/users/api_views.py:107-108 | how every other character is escaped |
| StateJson.UnicodeByCode | django/users/api_views.py:107-108 | a unit is escaped as its four hexadecimal digits in small letters |
| LogRedaction.Words | api/logging.py:30-34 | every text is words and the space around them |
| LogRedaction.KeywordByWords | api/logging.py:30-31 | on words, substituting a keyword pattern is relabelling each word that ends with the keyword and masking the next |
| LogRedaction.UrlByWords | api/logging.py:32-34 | the URL pattern never reaches across a space: substituting it works word by word |
| LogRedaction.MaskNextMasks | api/logging.py:43-44 | after the substitution every keyword with a word after it is relabelled and the word masked |
| LogRedaction.MaskedIsFixed | api/logging.py:43-44 | such a text is not changed again |
| LogRedaction.MaskNextKeeps | api/logging.py:43-44 | the Basic rewrite does not undo the Bearer one |
| UrlRedaction.CredentialMasked | api/logging.py:45-48 | a service URL with credentials keeps its scheme and user name and nothing else before the '@' |
| UrlRedaction.PasswordHidden | api/logging.py:45-48 | the masked URL is the same for every password, with or without a user name |
| UrlRedaction.MatchIsCredential | api/logging.py:32-34 | every match of the pattern is a scheme, a non-empty body without '@' or spaces, and the '@' |
| UrlRedaction.StartKept | api/logging.py:45-48 | masking makes and breaks no start of a URL |
| UrlRedaction.MaskUrlAgain | api/logging.py:45-48 | masking the URLs of a word twice is masking them once |
| UrlRedaction.EndsKept | api/logging.py:42-49 | masking URLs does not change which words end with a keyword |
| RedactedText.MaskUrlsKeepMasked | api/logging.py:42-49 | the URL rewrite keeps what the keyword rewrites did |
| RedactedText.NothingLeftToMask | api/logging.py:42-49 | in the result every keyword with a word after it is relabelled with that word masked, and every URL has its password masked |
| RedactedText.RedactTextTwice | api/logging.py:42-49 | redacting twice equals redacting once, for every string |
| RedactedText.MaskNextAt | api/logging.py:30-44 | which words a keyword rewrite masks, which it relabels and which it leaves: a word is masked exactly when the one before ends with the keyword and is not masked itself |
| RedactedText.TokenHidden | api/logging.py:42-49 | a text redacts to the same text whatever word stands where "bearer" has one masked; and the Basic rewrite gives the same text whatever word it masks |
| HiddenSecrets.BasicTokenHidden | api/logging.py:42-49 | the whole redaction gives the same text whatever word stands where "basic" has one masked, as long as neither word ends with "bearer" |
| HiddenSecrets.BodyHiddenAfter | api/logging.py:45-48 | a word's masked form depends on no more of what precedes the '@' of a service URL than its user name, wherever in the word the URL begins, even where an earlier match runs through it |
| HiddenSecrets.UrlBodyHidden | api/logging.py:42-49 | nor does the whole redaction of a text, for a service URL in any of its words |
| HiddenSecrets.UrlPasswordHidden | api/logging.py:42-49 | the whole redaction of a text does not depend on the password of a service URL in any of its words |
| ShownTexts.BearerShown | api/logging.py:30-43 | "bearer" in any case, any spaces and any word become `Bearer [REDACTED]` |
| ShownTexts.BasicShown | api/logging.py:31-44 | "basic" in any case, any spaces and any word become `Basic [REDACTED]` |
| ShownTexts.ServiceUrlShown | api/logging.py:32-48 | a URL of each of the four schemes keeps everything but its password, for which `[REDACTED]` stands |
| LogValues.RedactCleans | api/logging.py:52-71 | what recursive redaction returns is clean at every depth: no credential in a string, no raw bytes, the marker at every sensitive key |
| LogValues.CleanIsKept | api/logging.py:52-71 | a clean value is returned as it is |
| LogValues.RedactIsIdempotent | api/logging.py:52-71 | redaction changes exactly the values that are not clean, and twice is once |
| LogValues.KeysKept | api/logging.py:60-67 | a redacted dictionary has exactly the texts of the original's keys |
| LogValues.PartsShown | api/logging.py:52-71 | strings show their redaction, bytes the marker, other scalars themselves; lists and tuples keep every place |
| LogValues.EntryShown | api/logging.py:60-67 | an entry of a redacted dictionary shows the last of the original's entries with that key text: redacted or, under a sensitive key, as the marker |
| SensitiveKeys.UnderscoreFragmentNeverFits | api/logging.py:37-39 | the fragment written with an underscore is contained in no key |
| SensitiveKeys.SensitiveIffFlagged | api/logging.py:37-39 | a key is sensitive if and only if, in lower case and with hyphens, it contains one of the ten other fragments |
| SensitiveKeys.ApiKeyAddsNothing | api/logging.py:15-39 | a key that names an API key, with an underscore or a hyphen, is sensitive if and only if the text before or after the name contains one of the ten |
| SensitiveKeys.ApiKeyIsNotSensitive | api/logging.py:37-39 | the key `api_key` is not sensitive |
| SensitiveKeys.HeaderNameIsNotSensitive | api/logging.py:37-39 | nor is a key that lower-cases to `x-api-key` |
| LogValues.Record.Filter | api/logging.py:74-89 | every field is replaced in place by its redaction or, under a sensitive name, by the marker; no field is added or dropped, and the record is always let through |
| LogValues.FilterIsIdempotent | api/logging.py:74-89 | filtering a filtered record changes nothing, and what is left is clean |
| ApiMetrics.Metrics.constructor | api/metrics.py:9-16 | all counters zero, for an empty history |
| ApiMetrics.Metrics.Observe | api/metrics.py:18-26 | one more request, its latency added, its status counted in its hundreds from 1 to 5 and the window moved on by one; after any history the totals are the history's and the window is its last 1024 latencies |
| ApiMetrics.Metrics.WindowP95 | api/metrics.py:28-35 | the gauge is the percentile of the history's last 1024 latencies |
| ApiMetrics.SortKeeps | api/metrics.py:31-31 | sorting orders the samples and keeps each as often as it was |
| ApiMetrics.SortedIsUnique | api/metrics.py:31-31 | the samples have only one sorted order |
| ApiMetrics.P95IgnoresOrder | api/metrics.py:28-35 | the gauge depends only on the multiset of the samples |
| ApiMetrics.P95IsAQuantile | api/metrics.py:28-35 | the gauge is a sample with at least idx + 1 samples at most it and at least k - idx at least it, where 20 * idx is within 10 of 19 * (k - 1) |

## Left out

- Postgres, Redis, Celery, axios, the DNS provider's client, SSH, FastAPI and Django plumbing: row sequences, an expiring-counter map, step relations and parameters stand for them.
- Cryptography and randomness: hashing and signing are injective or arbitrary functions, and drawn secrets are assumed non-empty and new.
- Access tokens (JWT), cookies other than the refresh cookie, and the CSRF and origin checks: in `ComposedRefresh` a request they turn away is a rejection step.
- Audit events, `last_seen_at`, IP address and user-agent columns, profile fields and the email outbox: nothing the proofs speak of reads them.
- Database errors in the middle of a call: in the interleaving modules a call that fails is one that takes no further action; elsewhere a call runs to its end. `Lockout` takes the lock bookkeeping to succeed and the two limits to be fixed.
- Row ids are creation positions, so ids are comparable here while the database's UUIDs are not; the creation order is what `LinksAcyclic` is about.
- Other browser tabs writing the same localStorage; and the Authorization header itself, which the request interceptor sets to the token stored at that moment.
- RefreshInterleaving.QuietMeansOneLive: the condition on overlaps is on the run's schedule, since the code has no guard that would enforce it; `SafeIffNoOverlap` shows that the condition is exact.
- OneTimeInterleaving.RunKeepsOnce: likewise for lookups. The password rule, checked before a reset's lookup, plays no part there.
- AddressInterleaving.WellIffNoOverlap: the users table and the statements on addresses alone; the sessions, account links and audit rows of the same calls are not in that state.
- LostResponses.CookieRevokedIffOrphaned: a client that sees a network error gets neither the answer's body nor its cookie, then or later.
- OneTimeInterleaving.ThreeActionsAreOneRedemption: consuming the token and a reset's revocation of refresh tokens are one action here.
- Configuration: the limiters' environment lookups are a fixed function of the scope, and windows are positive, as a non-positive window makes the remainder or the expiry command fail.
- AlignedLimiter.CountIsHistory: call times and key expiry follow one clock, with no skew between the API process and Redis; a call's expiry is later than its window's end, so a store clock that is not ahead would do.
- TenantLimiter.RateKeyInjective: scopes and quotas with a colon, which no caller passes, could share keys like the aligned limiter's.
- TenantLimiter.SpanAdmitsTwice: all calls of the key have one window. The rate limiter's key contains its window; a quota's is whatever its caller passes.
- ApiMetrics.P95IsAQuantile: the floating-point product and its rounding are any function within half of 0.95 * (k - 1), so which way an exact half goes is left open. The text rendering of the metrics is left out.
- Usernames.FreeUsername: how the base name is cut from the address (letters, digits, `_`, `.` and `-`, at most 30) is left out; the search starts from any base, and the name table does not change while it goes on.
- OAuthState.MintedIsJudgedOnItsPayload: for any JSON codec that reads back what it writes; `StateJson.StateIsJudgedOnItsPayload` has the codec and no hypothesis.
- OAuthState.MintedRoundTrip: likewise, with `StateJson.StateRoundTrip`.
- OAuthState.SignatureBindsPayload: likewise, with `StateJson.StateIsBound`.
- StateJson.BytesReadBack: the reader takes the one shape that the program writes; other JSON texts, which carry no signature of the program's, are refused here whatever Python's parser would make of them. The checks of the callback around the validation are left out.
- LogValues.Redact: subclasses whose constructor does not take one sequence, such as named tuples, and cyclic containers; the filter's catch-all for exceptions has nothing to catch here.
- LogRedaction.RedactText: the character classes are parameters that satisfy `Usual`, which the Unicode classes do: word characters are not spaces, characters that match an ASCII letter are word characters, brackets and the URL punctuation are neither.
- HiddenSecrets.BasicTokenHidden: words that end with "bearer" are excluded, since the Bearer rewrite, which comes first, then masks the next word too.
- HiddenSecrets.UrlPasswordHidden: the URL does not start right after a word character, where the pattern does not match.
- The wait for an IPv6 address in `DnsReconcile` is the address being known or not; records come back from the provider with the names they were created under.
- The duplicates `django/project/logging.py`, `digital_ocean/orchestrate_teardown.py` and `django/users/tokens.py`, which repeat code modelled here.
- React pages, settings validation, Django models and migrations, the migration runner, droplet creation and the retry scripts: shallow branching around I/O.
