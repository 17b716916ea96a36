/**
 The client and the service when messages are lost: the client sees a network error on a refresh that the
 service has granted, or may yet take up. What follows depends on where the client keeps the token. Storage is
 cleared by the failed refresh's handler; a cookie is not.
 */
module LostResponses {
  import opened Common
  import opened AuthTables
  import opened ComposedRefresh
  import C = ApiClient

  /* ---- the browser's schedule ---- */

  /** A response, or its failure, is a task of its own: it is handled when no continuation is due. */
  ghost predicate InTask(s: Sys, e: Event) {
    (e.Client? && e.e.Respond?) || e.Arrive? || e.Lose? ==> C.Drained(s.client)
  }

  ghost predicate InTasks(s: Sys, es: seq<Event>)
    decreases |es|
  {
    es == [] || (InTask(s, es[0]) && InTasks(Step(s, es[0]), es[1..]))
  }

  /** A failed refresh whose own request has not yet finished handling the failure. */
  ghost predicate Unfinished(c: C.Client) {
    exists p :: p in c.exchanges && FailedAt(c, p)
  }

  ghost predicate FailedAt(c: C.Client, p: nat)
    requires p in c.exchanges
  {
    && c.exchanges[p] == C.Settled(false)
    && p < |c.requests|
    && (c.requests[p].phase == C.Awaiting(p, true) || c.requests[p].phase == C.Resolved(false))
  }

  /** The step handles a 401 by starting a refresh while an earlier failure is still being handled. */
  ghost predicate Hasty(s: Sys, e: Event) {
    && Unfinished(s.client)
    && e.Client? && e.e.Respond?
    && Step(s, e).client.exchanges != s.client.exchanges
  }

  ghost predicate Prompt(s: Sys, es: seq<Event>)
    decreases |es|
  {
    es == [] || (!Hasty(s, es[0]) && Prompt(Step(s, es[0]), es[1..]))
  }

  /** Since continuations run to completion between responses, every run in a browser is prompt. */
  lemma {:induction false} TasksArePrompt(s: Sys, es: seq<Event>)
    requires InTasks(s, es)
    ensures Prompt(s, es)
    decreases |es|
  {
    if es != [] {
      assert C.Drained(s.client) ==> !Unfinished(s.client);
      hide Step;
      TasksArePrompt(Step(s, es[0]), es[1..]);
    }
  }

  /* ---- facts about one step ---- */

  ghost predicate DistinctHashes(db: Db) {
    forall i, j :: 0 <= i < j < |db.refresh| ==> db.refresh[i].hash != db.refresh[j].hash
  }

  lemma DeadIsRefused(db: Db, raw: string, fresh': string, ttl: int, now: int)
    requires DistinctHashes(db) && Dead(db, raw)
    ensures RefreshTokens(db, raw, fresh', ttl, now) == (db, Refused(RevokedToken))
  {
    var i :| 0 <= i < |db.refresh| && db.refresh[i].hash == Sha(raw) && db.refresh[i].revokedAt.Some?;
    assert FindRefresh(db.refresh, Sha(raw)) == Some(i);
  }

  lemma DeadStaysDead(s: Sys, e: Event, raw: string)
    requires Dead(s.db, raw)
    ensures Dead(Step(s, e).db, raw)
  {
    var i :| 0 <= i < |s.db.refresh| && s.db.refresh[i].hash == Sha(raw) && s.db.refresh[i].revokedAt.Some?;
    assert Step(s, e).db.refresh[i].hash == Sha(raw) && Step(s, e).db.refresh[i].revokedAt.Some?;
  }

  lemma {:induction false} DeadForGood(s: Sys, es: seq<Event>, raw: string)
    requires Dead(s.db, raw)
    ensures Dead(Exec(s, es).db, raw)
    decreases |es|
  {
    hide Dead, Step;
    if es != [] {
      DeadStaysDead(s, es[0], raw);
      DeadForGood(Step(s, es[0]), es[1..], raw);
    }
  }

  lemma LiveIsNotDead(db: Db, mine: set<nat>, head: nat, current: string)
    requires OnlyHeadLives(db, mine, head, current)
    ensures !Dead(db, current)
  {
  }

  lemma StepKeepsMode(s: Sys, e: Event)
    ensures Step(s, e).cookieMode == s.cookieMode
  {
  }

  /** The token, presented, is either the login's live one or refused as revoked. */
  ghost predicate LiveOrDead(db: Db, token: Option<string>, current: string) {
    token.Some? && (token.value == current || Dead(db, token.value))
  }

  /** A granted refresh leaves every token that was live or dead dead. */
  lemma GrantKills(db: Db, mine: set<nat>, head: nat, current: string, raw: string, ttl: int, now: int, token: string)
    requires OnlyHeadLives(db, mine, head, current) && (token == current || Dead(db, token))
    requires raw != "" && forall i :: 0 <= i < |db.refresh| ==> db.refresh[i].hash != Sha(raw)
    requires db.refresh[head].expiresAt > now
    ensures Dead(RefreshTokens(db, current, raw, ttl, now).0, token) && token != raw
  {
    var db' := RefreshTokens(db, current, raw, ttl, now).0;
    if token == current {
      HeadIsAccepted(db, mine, head, current, raw, ttl, now);
    } else {
      var i :| 0 <= i < |db.refresh| && db.refresh[i].hash == Sha(token) && db.refresh[i].revokedAt.Some?;
      assert db'.refresh[i].hash == Sha(token) && db'.refresh[i].revokedAt.Some?;
    }
  }

  /* ---- cookie mode ---- */

  /**
   Every token that the browser holds, awaits or has sent is the login's live one or revoked; and while a new one is
   on its way the cookie is a revoked one.
   */
  ghost predicate CookieInv(s: Sys, mine: set<nat>, head: nat, current: string) {
    && s.cookieMode
    && C.Inv(s.client)
    && OnlyHeadLives(s.db, mine, head, current)
    && (forall p :: p in s.wire <==> (p in s.client.exchanges && s.client.exchanges[p].Posted?))
    && s.client.refresh.None?
    && LiveOrDead(s.db, s.jar, current)
    && (forall p :: p in s.wire ==> CookieWire(s.db, s.jar, s.wire[p], current))
    && (forall p :: p in s.late ==> LiveOrDead(s.db, s.late[p], current) && p in s.client.exchanges && p !in s.wire)
  }

  ghost predicate CookieWire(db: Db, jar: Option<string>, w: Wire, current: string)
    requires jar.Some?
  {
    match w
    case Asked(presented) => presented == jar
    case Answered(Failed, cookie) => cookie.None?
    case Answered(Tokens(_, refresh), cookie) => refresh.None? && LiveOrDead(db, cookie, current) && Dead(db, jar.value)
  }

  /** The browser has the live token as its cookie, or that cookie is on its way. */
  ghost predicate Reaches(s: Sys, current: string) {
    s.jar == Some(current) || exists p :: p in s.wire && InTransit(s.wire[p]) == Some(current)
  }

  /** A refresh is granted and the client does not get the answer: it is lost, or the client has given up. */
  ghost predicate Orphans(s: Sys, e: Event) {
    || (e.Lose? && e.p in s.wire && InTransit(s.wire[e.p]).Some?)
    || (e.ServeLate? && e.p in s.late && Verdict(s, e).Session?)
  }

  ghost predicate Orphaned(s: Sys, es: seq<Event>)
    decreases |es|
  {
    es != [] && (Orphans(s, es[0]) || Orphaned(Step(s, es[0]), es[1..]))
  }

  lemma CookieServe(s: Sys, e: Event, mine: set<nat>, head: nat, current: string)
    requires CookieInv(s, mine, head, current) && Legal(s, e) && e.Serve?
    ensures CookieInv(Step(s, e), NextMine(s, e, mine), NextHead(s, e, head), NextCurrent(s, e, current))
    ensures Reaches(s, current) <==> Reaches(Step(s, e), NextCurrent(s, e, current))
  {
    hide OnlyHeadLives, Dead, C.Inv;
    if e.p in s.wire && s.wire[e.p].Asked? {
      OnlyOneWire(s, e.p);
      assert CookieWire(s.db, s.jar, s.wire[e.p], current);
      CookieVerdict(s, e, mine, head, current, s.jar);
    }
  }

  /** What the service makes of a token that is live or dead, and what becomes of the other ones. */
  lemma CookieVerdict(s: Sys, e: Event, mine: set<nat>, head: nat, current: string, token: Option<string>)
    requires OnlyHeadLives(s.db, mine, head, current) && LiveOrDead(s.db, token, current)
    requires (e.Serve? || e.ServeLate?) && Legal(s, e) && Request(s, e) == Some(token)
    ensures Step(s, e).db == RefreshTokens(s.db, token.value, e.raw, e.ttlDays, e.now).0
    ensures if token == Some(current) then
        && Verdict(s, e).Session?
        && |Step(s, e).db.refresh| == |s.db.refresh| + 1
        && OnlyHeadLives(Step(s, e).db, mine + {|s.db.refresh|}, |s.db.refresh|, e.raw)
        && forall t :: LiveOrDead(s.db, t, current) ==> Dead(Step(s, e).db, t.value) && t.value != e.raw
      else Verdict(s, e) == Refused(RevokedToken) && Step(s, e).db == s.db
  {
    if token == Some(current) {
      forall t | LiveOrDead(s.db, t, current) ensures Dead(Step(s, e).db, t.value) && t.value != e.raw {
        GrantKills(s.db, mine, head, current, e.raw, e.ttlDays, e.now, t.value);
      }
      HeadIsAccepted(s.db, mine, head, current, e.raw, e.ttlDays, e.now);
    } else {
      DeadIsRefused(s.db, token.value, e.raw, e.ttlDays, e.now);
    }
  }

  lemma CookieServeLate(s: Sys, e: Event, mine: set<nat>, head: nat, current: string)
    requires CookieInv(s, mine, head, current) && Legal(s, e) && e.ServeLate?
    ensures CookieInv(Step(s, e), NextMine(s, e, mine), NextHead(s, e, head), NextCurrent(s, e, current))
    ensures Reaches(Step(s, e), NextCurrent(s, e, current)) <==> Reaches(s, current) && !Orphans(s, e)
  {
    hide OnlyHeadLives, Dead, C.Inv;
    if e.p in s.late {
      CookieVerdict(s, e, mine, head, current, s.late[e.p]);
    }
  }

  lemma CookieReject(s: Sys, e: Event, mine: set<nat>, head: nat, current: string)
    requires CookieInv(s, mine, head, current) && e.Reject?
    ensures CookieInv(Step(s, e), mine, head, current)
    ensures Reaches(Step(s, e), current) <==> Reaches(s, current)
  {
    hide OnlyHeadLives, Dead, C.Inv;
    if e.p in s.wire {
      OnlyOneWire(s, e.p);
    }
  }

  lemma CookieArrive(s: Sys, e: Event, mine: set<nat>, head: nat, current: string)
    requires CookieInv(s, mine, head, current) && e.Arrive?
    ensures CookieInv(Step(s, e), mine, head, current)
    ensures Reaches(Step(s, e), current) <==> Reaches(s, current)
  {
    hide OnlyHeadLives, Dead, C.Inv;
    if e.p in s.wire && s.wire[e.p].Answered? {
      OnlyOneWire(s, e.p);
      LiveIsNotDead(s.db, mine, head, current);
      C.DeliverKeeps(s.client, e.p, s.wire[e.p].reply);
      assert CookieWire(s.db, s.jar, s.wire[e.p], current);
      assert InTransit(s.wire[e.p]) == s.wire[e.p].cookie;
      assert Step(s, e).wire == map[];
    }
  }

  lemma CookieLose(s: Sys, e: Event, mine: set<nat>, head: nat, current: string)
    requires CookieInv(s, mine, head, current) && e.Lose?
    ensures CookieInv(Step(s, e), mine, head, current)
    ensures Reaches(Step(s, e), current) <==> Reaches(s, current) && !Orphans(s, e)
  {
    hide OnlyHeadLives, Dead, C.Inv;
    if e.p in s.wire {
      OnlyOneWire(s, e.p);
      LiveIsNotDead(s.db, mine, head, current);
      C.DeliverKeeps(s.client, e.p, C.Failed);
      assert CookieWire(s.db, s.jar, s.wire[e.p], current);
      assert Step(s, e).wire == map[];
    }
  }

  lemma CookieClient(s: Sys, e: Event, mine: set<nat>, head: nat, current: string)
    requires CookieInv(s, mine, head, current) && e.Client?
    ensures CookieInv(Step(s, e), mine, head, current)
    ensures Reaches(Step(s, e), current) <==> Reaches(s, current)
  {
    hide OnlyHeadLives, Dead, C.Inv, C.Step;
    if !e.e.Deliver? {
      C.StepKeeps(s.client, e.e);
      ClientStepEffect(s.client, e.e);
      if C.Step(s.client, e.e).exchanges != s.client.exchanges {
        NoPostedNoWire(s);
      }
    }
  }

  lemma CookieStep(s: Sys, e: Event, mine: set<nat>, head: nat, current: string)
    requires CookieInv(s, mine, head, current) && Legal(s, e)
    ensures CookieInv(Step(s, e), NextMine(s, e, mine), NextHead(s, e, head), NextCurrent(s, e, current))
    ensures Reaches(Step(s, e), NextCurrent(s, e, current)) <==> Reaches(s, current) && !Orphans(s, e)
  {
    match e {
      case Serve(_, _, _, _, _) => CookieServe(s, e, mine, head, current);
      case ServeLate(_, _, _, _, _) => CookieServeLate(s, e, mine, head, current);
      case Client(_) => CookieClient(s, e, mine, head, current);
      case Reject(_) => CookieReject(s, e, mine, head, current);
      case Arrive(_) => CookieArrive(s, e, mine, head, current);
      case Lose(_) => CookieLose(s, e, mine, head, current);
    }
  }

  /** Along every legal run the browser is cut off from the live token exactly when a grant was orphaned. */
  lemma {:induction false} CookieRun(s: Sys, es: seq<Event>, mine: set<nat>, head: nat, current: string)
    returns (mine': set<nat>, head': nat, current': string)
    requires CookieInv(s, mine, head, current) && LegalRun(s, es)
    ensures CookieInv(Exec(s, es), mine', head', current')
    ensures Reaches(Exec(s, es), current') <==> Reaches(s, current) && !Orphaned(s, es)
    decreases |es|
  {
    hide CookieInv, Reaches, Step, Legal, Orphans, NextMine, NextHead, NextCurrent;
    mine', head', current' := mine, head, current;
    if es != [] {
      var e := es[0];
      CookieStep(s, e, mine, head, current);
      mine', head', current' :=
        CookieRun(Step(s, e), es[1..], NextMine(s, e, mine), NextHead(s, e, head), NextCurrent(s, e, current));
    }
  }

  lemma SignedInCookie(s: Sys, head: nat, current: string)
    requires JustSignedIn(s, head, current) && s.cookieMode
    ensures CookieInv(s, {head}, head, current) && Reaches(s, current)
  {
    C.InitInv(s.client.access, s.client.refresh);
  }

  /**
   With the token in a cookie, a refresh that the client is waiting for is refused as revoked exactly when an
   earlier one was granted and its answer did not reach the client; otherwise it is granted.
   */
  lemma CookieRevokedIffOrphaned(s: Sys, es: seq<Event>, head: nat, current: string, e: Event)
    requires JustSignedIn(s, head, current) && s.cookieMode && Asks(s, es, e) && e.Serve?
    ensures Verdict(Exec(s, es), e) == Refused(RevokedToken) <==> Orphaned(s, es)
    ensures Verdict(Exec(s, es), e).Session? <==> !Orphaned(s, es)
  {
    hide OnlyHeadLives, Dead, C.Inv, Step, Legal, Orphaned, LegalRun, JustSignedIn;
    SignedInCookie(s, head, current);
    var mine', head', current' := CookieRun(s, es, {head}, head, current);
    var t := Exec(s, es);
    OnlyOneWire(t, e.p);
    assert CookieWire(t.db, t.jar, t.wire[e.p], current');
    CookieVerdict(t, e, mine', head', current', t.jar);
  }

  /** Request `p` has been posted, and as long as the service has yet to take it up it carries `presented`. */
  ghost predicate Carries(s: Sys, p: nat, presented: Option<string>) {
    && p in s.client.exchanges
    && (p in s.wire && s.wire[p].Asked? ==> s.wire[p].presented == presented)
    && (p in s.late ==> s.late[p] == presented)
  }

  lemma StepCarries(s: Sys, e: Event, p: nat, presented: Option<string>)
    requires Carries(s, p, presented)
    ensures Carries(Step(s, e), p, presented)
  {
    hide RefreshTokens;
  }

  lemma {:induction false} RunCarries(s: Sys, es: seq<Event>, p: nat, presented: Option<string>)
    requires Carries(s, p, presented)
    ensures Carries(Exec(s, es), p, presented)
    decreases |es|
  {
    hide Carries, Step;
    if es != [] {
      StepCarries(s, es[0], p, presented);
      RunCarries(Step(s, es[0]), es[1..], p, presented);
    }
  }

  lemma GrowthKillsCurrent(s: Sys, e: Event, mine: set<nat>, head: nat, current: string)
    requires CookieInv(s, mine, head, current) && Legal(s, e)
    ensures if |Step(s, e).db.refresh| > |s.db.refresh| then Dead(Step(s, e).db, current) else Step(s, e).db == s.db
  {
    hide OnlyHeadLives, Dead, C.Inv, C.Step;
    if Request(s, e).Some? {
      var token := Request(s, e).value;
      assert e.Serve? ==> CookieWire(s.db, s.jar, s.wire[e.p], current);
      CookieVerdict(s, e, mine, head, current, token);
      assert LiveOrDead(s.db, Some(current), current);
    }
  }

  lemma {:induction false} GrantsKillCurrent(s: Sys, es: seq<Event>, mine: set<nat>, head: nat, current: string)
    requires CookieInv(s, mine, head, current) && LegalRun(s, es)
    ensures |Exec(s, es).db.refresh| >= |s.db.refresh|
    ensures if |Exec(s, es).db.refresh| > |s.db.refresh| then Dead(Exec(s, es).db, current) else Exec(s, es).db == s.db
    decreases |es|
  {
    hide CookieInv, Step, Legal, Dead;
    if es != [] {
      var e := es[0];
      CookieStep(s, e, mine, head, current);
      GrowthKillsCurrent(s, e, mine, head, current);
      StepAddsAtMostOneRow(s, e, mine);
      if Step(s, e).db != s.db { DeadForGood(Step(s, e), es[1..], current); }
      GrantsKillCurrent(Step(s, e), es[1..],
        NextMine(s, e, mine), NextHead(s, e, head), NextCurrent(s, e, current));
    }
  }

  /**
   However late the service takes up a request that carries the cookie, and whether or not the client still waits
   for it: it is refused as revoked exactly when a grant was orphaned before the request was made, or any
   refresh was granted since. Otherwise it is granted.
   */
  lemma LateRequestRevokedIff(s: Sys, es1: seq<Event>, es2: seq<Event>, head: nat, current: string, e: Event)
    requires JustSignedIn(s, head, current) && s.cookieMode && LegalRun(s, es1)
    requires Asks(Exec(s, es1), es2, e) && e.p in Exec(s, es1).wire && Exec(s, es1).wire[e.p].Asked?
    ensures var t, t' := Exec(s, es1), Exec(Exec(s, es1), es2);
      && (Verdict(t', e) == Refused(RevokedToken) <==> Orphaned(s, es1) || |t'.db.refresh| > |t.db.refresh|)
      && (Verdict(t', e).Session? <==> !Orphaned(s, es1) && |t'.db.refresh| == |t.db.refresh|)
  {
    hide OnlyHeadLives, Dead, C.Inv, Step, Legal, Orphaned, LegalRun, JustSignedIn;
    SignedInCookie(s, head, current);
    var mine1, head1, current1 := CookieRun(s, es1, {head}, head, current);
    var t, t' := Exec(s, es1), Exec(Exec(s, es1), es2);
    OnlyOneWire(t, e.p);
    assert CookieWire(t.db, t.jar, t.wire[e.p], current1);
    RunCarries(t, es2, e.p, t.jar);
    GrantsKillCurrent(t, es2, mine1, head1, current1);
    if t.jar != Some(current1) { DeadForGood(t, es2, t.jar.value); }
    var mine2, head2, current2 := CookieRun(t, es2, mine1, head1, current1);
    if t'.db == t.db {
      CookieVerdict(t', e, mine1, head1, current1, t.jar);
    } else {
      LiveIsNotDead(t'.db, mine2, head2, current2);
      CookieVerdict(t', e, mine2, head2, current2, t.jar);
    }
  }

  /* ---- storage ---- */

  /**
   After a drop: storage is empty, except until the failed refresh's own handler is done, and nothing on the
   wire carries a token. One request that was given up on may still carry the live one.
   */
  ghost predicate Gone(s: Sys, mine: set<nat>, head: nat, current: string) {
    && !s.cookieMode && s.jar.None?
    && C.Inv(s.client)
    && OnlyHeadLives(s.db, mine, head, current)
    && (forall p :: p in s.wire <==> (p in s.client.exchanges && s.client.exchanges[p].Posted?))
    && (forall p :: p in s.wire ==> s.wire[p] in {Asked(None), Answered(C.Failed, None)})
    && (s.client.refresh.Some? ==> Unfinished(s.client) && s.wire == map[])
    && (forall p :: p in s.late ==> s.late[p] in {None, Some(current)})
    && (forall p, q :: p in s.late && q in s.late && s.late[p].Some? && s.late[q].Some? ==> p == q)
  }

  lemma DropMakesGone(s: Sys, e: Event, mine: set<nat>, head: nat, current: string)
    requires Good(s, mine, head, current) && Drops(s, e) && !s.cookieMode
    ensures Gone(Step(s, e), mine, head, current)
  {
    C.DeliverKeeps(s.client, e.p, C.Failed);
    OnlyOneWire(s, e.p);
    assert FailedAt(Step(s, e).client, e.p);
    hide OnlyHeadLives, C.Inv;
    assert Step(s, e).wire == map[];
  }

  lemma GoneServe(s: Sys, e: Event, mine: set<nat>, head: nat, current: string)
    requires Gone(s, mine, head, current) && Legal(s, e) && e.Serve?
    ensures Gone(Step(s, e), mine, head, current) && Step(s, e).db == s.db
  {
    hide OnlyHeadLives, C.Inv;
    if e.p in s.wire && s.wire[e.p].Asked? {
      assert s.wire[e.p] == Asked(None);
      assert Step(s, e).wire == s.wire[e.p := Answered(C.Failed, None)];
    }
  }

  lemma GoneServeLate(s: Sys, e: Event, mine: set<nat>, head: nat, current: string)
    requires Gone(s, mine, head, current) && Legal(s, e) && e.ServeLate?
    ensures Gone(Step(s, e), NextMine(s, e, mine), NextHead(s, e, head), NextCurrent(s, e, current))
  {
    if e.p in s.late {
      if s.late[e.p].Some? {
        HeadIsAccepted(s.db, mine, head, current, e.raw, e.ttlDays, e.now);
      }
      hide OnlyHeadLives, C.Inv;
      assert e.p !in Step(s, e).late;
    }
  }

  lemma GoneDelivery(s: Sys, e: Event, mine: set<nat>, head: nat, current: string)
    requires Gone(s, mine, head, current) && (e.Reject? || e.Arrive? || e.Lose?)
    ensures Gone(Step(s, e), mine, head, current)
  {
    hide OnlyHeadLives, C.Inv;
    if e.p in s.wire {
      OnlyOneWire(s, e.p);
      C.DeliverKeeps(s.client, e.p, C.Failed);
      assert s.wire[e.p] in {Asked(None), Answered(C.Failed, None)};
    }
  }

  /** What a client step does to an unfinished failure: nothing, or its storage is cleared. */
  lemma FailureIsFinished(c: C.Client, e: C.Event)
    requires C.Inv(c) && Unfinished(c) && !e.Deliver?
    requires C.Step(c, e).exchanges == c.exchanges
    ensures var d := C.Step(c, e); d.refresh.None? || (d.refresh == c.refresh && Unfinished(d))
  {
    var p :| p in c.exchanges && FailedAt(c, p);
    assert C.RequestOk(c, p);
    var d := C.Step(c, e);
    if d.refresh.Some? {
      assert FailedAt(d, p);
    }
  }

  lemma GoneClient(s: Sys, e: Event, mine: set<nat>, head: nat, current: string)
    requires Gone(s, mine, head, current) && e.Client? && !Hasty(s, e)
    ensures Gone(Step(s, e), mine, head, current)
  {
    hide OnlyHeadLives, C.Inv, C.Step, Unfinished;
    if !e.e.Deliver? {
      C.StepKeeps(s.client, e.e);
      ClientStepEffect(s.client, e.e);
      var d := C.Step(s.client, e.e);
      if d.exchanges != s.client.exchanges {
        NoPostedNoWire(s);
      } else if s.client.refresh.Some? {
        FailureIsFinished(s.client, e.e);
      }
    }
  }

  lemma GoneStep(s: Sys, e: Event, mine: set<nat>, head: nat, current: string)
    requires Gone(s, mine, head, current) && Legal(s, e) && !Hasty(s, e)
    ensures Gone(Step(s, e), NextMine(s, e, mine), NextHead(s, e, head), NextCurrent(s, e, current))
  {
    match e {
      case Serve(_, _, _, _, _) => GoneServe(s, e, mine, head, current);
      case ServeLate(_, _, _, _, _) => GoneServeLate(s, e, mine, head, current);
      case Client(_) => GoneClient(s, e, mine, head, current);
      case _ => GoneDelivery(s, e, mine, head, current);
    }
  }

  lemma {:induction false} GoneRun(s: Sys, es: seq<Event>, mine: set<nat>, head: nat, current: string)
    returns (mine': set<nat>, head': nat, current': string)
    requires Gone(s, mine, head, current) && LegalRun(s, es) && Prompt(s, es)
    ensures Gone(Exec(s, es), mine', head', current')
    decreases |es|
  {
    hide Gone, Step, Legal, Hasty, NextMine, NextHead, NextCurrent;
    mine', head', current' := mine, head, current;
    if es != [] {
      var e := es[0];
      GoneStep(s, e, mine, head, current);
      mine', head', current' :=
        GoneRun(Step(s, e), es[1..], NextMine(s, e, mine), NextHead(s, e, head), NextCurrent(s, e, current));
    }
  }

  lemma {:induction false} StorageRun(s: Sys, es: seq<Event>, mine: set<nat>, head: nat, current: string)
    returns (mine': set<nat>, head': nat, current': string)
    requires Good(s, mine, head, current) && !s.cookieMode && LegalRun(s, es) && Prompt(s, es) && Dropped(s, es)
    ensures Gone(Exec(s, es), mine', head', current')
    decreases |es|
  {
    hide Good, Gone, Step, Legal, Hasty, Drops, NextMine, NextHead, NextCurrent;
    var e := es[0];
    StepKeepsMode(s, e);
    if Drops(s, e) {
      DropMakesGone(s, e, mine, head, current);
      mine', head', current' := GoneRun(Step(s, e), es[1..], mine, head, current);
    } else {
      StepKeeps(s, e, mine, head, current);
      mine', head', current' :=
        StorageRun(Step(s, e), es[1..], NextMine(s, e, mine), NextHead(s, e, head), NextCurrent(s, e, current));
    }
  }

  /**
   With the token in storage and every settled refresh acted on before the next one starts, a request that carries
   a token is granted, whatever was lost and however late the service takes it up.
   */
  lemma PromptStorageIsSafe(s: Sys, es: seq<Event>, head: nat, current: string, e: Event)
    requires JustSignedIn(s, head, current) && !s.cookieMode && Asks(s, es, e) && Prompt(s, es)
    ensures var t := Exec(s, es);
      if Request(t, e).value.Some? then Verdict(t, e).Session? else Verdict(t, e) == Refused(NotAuthenticated)
  {
    if Dropped(s, es) {
      C.InitInv(s.client.access, s.client.refresh);
      var mine', head', current' := StorageRun(s, es, {head}, head, current);
      var t := Exec(s, es);
      if e.Serve? {
        assert t.wire[e.p] in {Asked(None), Answered(C.Failed, None)};
      } else if t.late[e.p].Some? {
        HeadIsAccepted(t.db, mine', head', current', e.raw, e.ttlDays, e.now);
      }
    } else {
      RefreshNeverMeetsARevokedToken(s, es, head, current, e);
    }
  }

  /** In a browser, a client that keeps its token in storage never presents a revoked one, whatever is lost. */
  lemma StorageNeverMeetsARevokedToken(s: Sys, es: seq<Event>, head: nat, current: string, e: Event)
    requires JustSignedIn(s, head, current) && !s.cookieMode && Asks(s, es, e) && InTasks(s, es)
    ensures var t := Exec(s, es);
      if Request(t, e).value.Some? then Verdict(t, e).Session? else Verdict(t, e) == Refused(NotAuthenticated)
  {
    hide JustSignedIn, Asks, Verdict, Request;
    TasksArePrompt(s, es);
    PromptStorageIsSafe(s, es, head, current, e);
  }

  /**
   Once a request that carries a token or a granted response was lost and no continuation is due, storage holds no
   token and no request on its way carries one, for the rest of the run.
   */
  lemma StorageForgetsALostLogin(s: Sys, es: seq<Event>, head: nat, current: string)
    requires JustSignedIn(s, head, current) && !s.cookieMode && LegalRun(s, es) && InTasks(s, es)
    requires Dropped(s, es) && C.Drained(Exec(s, es).client)
    ensures var t := Exec(s, es);
      Credential(t).None? && forall p :: p in t.wire && t.wire[p].Asked? ==> t.wire[p].presented.None?
  {
    C.InitInv(s.client.access, s.client.refresh);
    TasksArePrompt(s, es);
    var mine', head', current' := StorageRun(s, es, {head}, head, current);
    var t := Exec(s, es);
    assert !Unfinished(t.client);
    forall p | p in t.wire && t.wire[p].Asked? ensures t.wire[p].presented.None? {
      assert t.wire[p] in {Asked(None), Answered(C.Failed, None)};
    }
  }

  /* ---- runs that do present a revoked token ---- */

  /** The run ends with the service refusing a revoked token that this client presents. */
  ghost predicate MeetsRevoked(s: Sys, es: seq<Event>, e: Event) {
    Asks(s, es, e) && Verdict(Exec(s, es), e) == Refused(RevokedToken)
  }

  lemma {:induction false} Extend(s: Sys, es: seq<Event>, e: Event)
    ensures Exec(s, es + [e]) == Step(Exec(s, es), e)
    ensures LegalRun(s, es + [e]) <==> LegalRun(s, es) && Legal(Exec(s, es), e)
    ensures InTasks(s, es + [e]) <==> InTasks(s, es) && InTask(Exec(s, es), e)
    ensures Prompt(s, es + [e]) <==> Prompt(s, es) && !Hasty(Exec(s, es), e)
    decreases |es|
  {
    hide Step, Legal, InTask, Hasty;
    if es == [] {
      assert ([e] + [])[1..] == [];
      assert es + [e] == [e];
      assert Exec(Step(s, e), []) == Step(s, e);
      assert Prompt(Step(s, e), []) && LegalRun(Step(s, e), []) && InTasks(Step(s, e), []);
    } else {
      assert (es + [e])[1..] == es[1..] + [e];
      Extend(Step(s, es[0]), es[1..], e);
    }
  }

  lemma NoPathNoEndpoint()
    ensures !C.IsAuthEndpoint("")
  {
  }

  /** The run from `s` along `es` is one a browser can have, and it ends in `t`. */
  ghost predicate Leads(s: Sys, es: seq<Event>, t: Sys) {
    LegalRun(s, es) && InTasks(s, es) && t == Exec(s, es)
  }

  lemma LeadsOn(s: Sys, es: seq<Event>, t: Sys, e: Event)
    requires Leads(s, es, t) && Legal(t, e) && InTask(t, e)
    ensures Leads(s, es + [e], Step(t, e))
  {
    Extend(s, es, e);
  }

  /** Two requests have been sent; the first one is in `phase`, and its refresh in `exchange`. */
  function TwoSent(s: Sys, phase: C.Phase, promise: Option<nat>, exchange: C.Exchange): C.Client {
    s.client.(
      promise := promise,
      requests := [C.Request("", phase, true, 1), C.Request("", C.InFlight, false, 1)],
      exchanges := map[0 := exchange])
  }

  /** Two requests are sent and the first one's 401 starts a refresh. */
  lemma AskOnce(s: Sys, head: nat, current: string) returns (es: seq<Event>, t: Sys)
    requires JustSignedIn(s, head, current)
    ensures Leads(s, es, t)
    ensures t ==
      s.(wire := map[0 := Asked(Some(current))], client := TwoSent(s, C.Awaiting(0, true), Some(0), C.Posted))
  {
    NoPathNoEndpoint();
    var send, respond := Client(C.Send("")), Client(C.Respond(0, 401));
    var s1 := Step(s, send);
    var s2 := Step(s1, send);
    assert s2.client.requests == [C.Request("", C.InFlight, false, 1), C.Request("", C.InFlight, false, 1)];
    t := Step(s2, respond);
    assert t.wire == map[0 := Asked(Some(current))];
    LeadsOn(s, [], s, send);
    LeadsOn(s, [] + [send], s1, send);
    LeadsOn(s, [] + [send] + [send], s2, respond);
    es := [] + [send] + [send] + [respond];
  }

  /** The refresh is granted. */
  lemma Grant(s: Sys, t: Sys, es: seq<Event>, head: nat, current: string) returns (e: Event, t': Sys)
    requires JustSignedIn(s, head, current) && Leads(s, es, t)
    requires t ==
      s.(wire := map[0 := Asked(Some(current))], client := TwoSent(s, C.Awaiting(0, true), Some(0), C.Posted))
    ensures Leads(s, es + [e], t') && DistinctHashes(t'.db) && Dead(t'.db, current)
    ensures t' == t.(db := t'.db, wire := t'.wire) && t'.wire.Keys == {0} && t'.wire[0].Answered?
    ensures e.Serve? && Unexpired(t'.db, current, e.now)
  {
    var raw := FreshSecret(s.db.refresh);
    var now := s.db.refresh[head].expiresAt - 1;
    e := Serve(0, raw, "a", 1, now);
    HeadIsAccepted(t.db, {head}, head, current, raw, 1, now);
    t' := Step(t, e);
    assert t'.wire == map[0 := Answer(RefreshTokens(t.db, current, raw, 1, now).1, raw, "a", s.cookieMode)];
    assert FindRefresh(t.db.refresh, Sha(current)) == Some(head);
    LeadsOn(s, es, t, e);
  }

  ghost predicate Unexpired(db: Db, current: string, now: int) {
    forall i :: 0 <= i < |db.refresh| && db.refresh[i].hash == Sha(current) ==> db.refresh[i].expiresAt > now
  }

  /** Its response is lost, and the first request learns that it failed. */
  lemma LoseIt(s: Sys, t: Sys, es: seq<Event>, head: nat, current: string) returns (es': seq<Event>, t': Sys)
    requires JustSignedIn(s, head, current) && Leads(s, es, t) && t.wire.Keys == {0} && t.wire[0].Answered?
    requires t.client == TwoSent(s, C.Awaiting(0, true), Some(0), C.Posted)
    ensures Leads(s, es', t')
    ensures t' == t.(wire := map[], client := TwoSent(s, C.Resolved(false), None, C.Settled(false)))
  {
    hide OnlyHeadLives;
    var lose, wake := Lose(0), Client(C.Wake(0));
    var t1 := Step(t, lose);
    assert t1.wire == map[] && t1.client.exchanges == map[0 := C.Settled(false)];
    t' := Step(t1, wake);
    LeadsOn(s, es, t, lose);
    LeadsOn(s, es + [lose], t1, wake);
    es' := es + [lose] + [wake];
  }

  /** The two requests are sent, the refresh of the first is granted, and its answer is lost. */
  lemma OrphanOne(s: Sys, head: nat, current: string) returns (es: seq<Event>, t: Sys, now: int)
    requires JustSignedIn(s, head, current)
    ensures Leads(s, es, t) && Dead(t.db, current) && DistinctHashes(t.db) && Unexpired(t.db, current, now)
    ensures t == s.(db := t.db, wire := map[], client := TwoSent(s, C.Resolved(false), None, C.Settled(false)))
  {
    hide Dead, DistinctHashes, Unexpired, Step, OnlyHeadLives;
    es, t := AskOnce(s, head, current);
    var serve, t1 := Grant(s, t, es, head, current);
    now := serve.now;
    es, t := LoseIt(s, t1, es + [serve], head, current);
  }

  /** Presenting the revoked token in a state the run has reached. */
  lemma Present(s: Sys, es: seq<Event>, current: string, now: int) returns (e: Event)
    requires LegalRun(s, es) && Dead(Exec(s, es).db, current)
    requires var t := Exec(s, es);
      1 in t.wire && t.wire[1] == Asked(Some(current)) && DistinctHashes(t.db) && Unexpired(t.db, current, now)
    ensures MeetsRevoked(s, es, e)
  {
    var t := Exec(s, es);
    var raw := FreshSecret(t.db.refresh);
    e := Serve(1, raw, "b", 1, now);
    DeadIsRefused(t.db, current, raw, 1, now);
  }

  /**
   Were the second 401 handled before the failed refresh's continuation, which no browser does, the revoked token
   would be presented in either mode.
   */
  lemma HasteMeetsARevokedToken(s: Sys, head: nat, current: string) returns (es: seq<Event>, e: Event)
    requires JustSignedIn(s, head, current)
    ensures MeetsRevoked(s, es, e) && !Prompt(s, es) && !InTasks(s, es)
  {
    hide Dead, DistinctHashes, Unexpired, OnlyHeadLives;
    NoPathNoEndpoint();
    var t, now;
    es, t, now := OrphanOne(s, head, current);
    var respond := Client(C.Respond(1, 401));
    assert FailedAt(t.client, 0);
    var t' := Step(t, respond);
    assert t'.client.exchanges == map[0 := C.Settled(false), 1 := C.Posted];
    assert t'.wire == map[1 := Asked(Some(current))];
    Extend(s, es, respond);
    es := es + [respond];
    e := Present(s, es, current, now);
  }

  /** With the token in a cookie a browser's run presents it too. */
  lemma CookieMeetsARevokedToken(s: Sys, head: nat, current: string) returns (es: seq<Event>, e: Event)
    requires JustSignedIn(s, head, current) && s.cookieMode
    ensures MeetsRevoked(s, es, e) && InTasks(s, es)
  {
    hide Dead, DistinctHashes, Unexpired, OnlyHeadLives;
    NoPathNoEndpoint();
    var t, now;
    es, t, now := OrphanOne(s, head, current);
    var giveUp, respond := Client(C.Continue(0)), Client(C.Respond(1, 401));
    var t1 := Step(t, giveUp);
    assert t1.client.requests[0].phase.Done? && t1.client.exchanges == map[0 := C.Settled(false)];
    var t2 := Step(t1, respond);
    assert t2.wire == map[1 := Asked(Some(current))];
    LeadsOn(s, es, t, giveUp);
    LeadsOn(s, es + [giveUp], t1, respond);
    es := es + [giveUp] + [respond];
    e := Present(s, es, current, now);
  }

  /** No run that a browser can have ends with this client presenting a revoked token. */
  ghost predicate SafeInBrowser(s: Sys) {
    forall es: seq<Event>, e: Event :: InTasks(s, es) ==> !MeetsRevoked(s, es, e)
  }

  /**
   What losing messages does, exactly: it never leads a browser to present a revoked token if and only if the
   client keeps the token in storage.
   */
  lemma SafeIffInStorage(s: Sys, head: nat, current: string)
    requires JustSignedIn(s, head, current)
    ensures SafeInBrowser(s) <==> !s.cookieMode
  {
    if s.cookieMode {
      var es, e := CookieMeetsARevokedToken(s, head, current);
    } else {
      forall es: seq<Event>, e: Event | InTasks(s, es) ensures !MeetsRevoked(s, es, e) {
        if Asks(s, es, e) {
          StorageNeverMeetsARevokedToken(s, es, head, current, e);
        }
      }
    }
  }
}
