/**
 The life of a token over whole runs: when one is issued, how long it is accepted, and exactly which steps end
 it before its time.
 */
module TokenLife {
  import opened Common
  import opened AuthTables
  import opened SessionRuns
  import opened Accounts

  /* ---- refresh tokens ---- */

  /**
   The step ends this refresh token: it is rotated away in time or logged out, its user revokes all but another one of
   theirs, or its user's password is reset.
   */
  ghost predicate Ends(p: Policy, w: World, e: Event, id: nat)
    requires id < |w.db.refresh|
  {
    var row := w.db.refresh[id];
    || (e.DoRefresh? && e.presented != "" && Sha(e.presented) == row.hash && w.now < row.expiresAt)
    || (e.DoLogout? && e.presented != "" && Sha(e.presented) == row.hash)
    || (e.DoRevokeOthers? && e.presented != "" && Sha(e.presented) != row.hash && e.subject == row.user &&
        Owns(w.db, e.subject, e.presented))
    || Resets(p, w, e, row.user)
  }

  /** The user has a refresh token of this secret, revoked or not. */
  ghost predicate Owns(db: Db, user: nat, presented: string) {
    exists i :: 0 <= i < |db.refresh| && db.refresh[i].hash == Sha(presented) && db.refresh[i].user == user
  }

  lemma RefreshEnds(p: Policy, w: World, e: Event, id: nat)
    requires Inv(p, w) && id < |w.db.refresh| && w.db.refresh[id].revokedAt.None?
    requires e.DoRefresh? || e.DoLogout? || e.DoRevokeOthers?
    ensures Step(p, w, e).db.refresh[id].revokedAt.Some? <==> Ends(p, w, e, id)
  {
    if w.db.refresh[id].hash == Sha(e.presented) {
      FoundIs(w.db.refresh, w.family, |w.db.users|, id, e.presented);
    }
    OwnerFound(w, w.db.refresh[id].user, e.presented);
    hide FindRefresh, RevokeAll, RefreshOk, OneTimeOk, EmailsOk, OAuthOk, Owns;
  }

  lemma OwnerFound(w: World, user: nat, presented: string)
    requires RefreshOk(w.db.refresh, w.family, |w.db.users|)
    ensures var found := FindRefresh(w.db.refresh, Sha(presented));
      Owns(w.db, user, presented) <==> found.Some? && w.db.refresh[found.value].user == user
  {
    if Owns(w.db, user, presented) {
      var i :| 0 <= i < |w.db.refresh| && w.db.refresh[i].hash == Sha(presented) && w.db.refresh[i].user == user;
      FoundIs(w.db.refresh, w.family, |w.db.users|, i, presented);
    }
  }

  lemma StepEnds(p: Policy, w: World, e: Event, id: nat)
    requires Inv(p, w) && id < |w.db.refresh| && w.db.refresh[id].revokedAt.None?
    ensures id < |Step(p, w, e).db.refresh|
    ensures Step(p, w, e).db.refresh[id].revokedAt.Some? <==> Ends(p, w, e, id)
  {
    StepLater(p, w, e);
    if e.DoRefresh? || e.DoLogout? || e.DoRevokeOthers? {
      RefreshEnds(p, w, e, id);
    } else {
      RedeemedUser(p, w, e, w.db.refresh[id].user);
      hide Inv, Resets, Owns, FindUser, FindRefresh, FindOneTime, FindOAuth, RevokeAll;
    }
  }

  ghost predicate Ended(p: Policy, w: World, es: seq<Event>, id: nat)
    requires id < |w.db.refresh|
    decreases |es|
  {
    es != [] && (Ends(p, w, es[0], id) || (StepLater(p, w, es[0]); Ended(p, Step(p, w, es[0]), es[1..], id)))
  }

  /** A token is revoked exactly when some step of the run has ended it. */
  lemma {:induction false} RevokedByHistory(p: Policy, w: World, es: seq<Event>, id: nat)
    requires Normalising(p) && Inv(p, w) && Legal(p, w, es)
    requires id < |w.db.refresh| && w.db.refresh[id].revokedAt.None?
    ensures id < |Exec(p, w, es).db.refresh|
    ensures Exec(p, w, es).db.refresh[id].revokedAt.Some? <==> Ended(p, w, es, id)
    decreases |es|
  {
    hide Inv, Step, Drawn, Normalising, Ends;
    if es != [] {
      var w' := Step(p, w, es[0]);
      StepLater(p, w, es[0]);
      RunLater(p, w', es[1..]);
      StepKeeps(p, w, es[0]);
      StepEnds(p, w, es[0], id);
      if !Ends(p, w, es[0], id) { RevokedByHistory(p, w', es[1..], id); }
    }
  }

  /** After any run an unrevoked token is granted until it runs out or some step has ended it. */
  lemma TokenAnswer(p: Policy, w: World, es: seq<Event>, id: nat, e: Event)
    requires Normalising(p) && Inv(p, w) && Legal(p, w, es) && e.DoRefresh? && e.presented != ""
    requires id < |w.db.refresh| && w.db.refresh[id].revokedAt.None? && w.db.refresh[id].hash == Sha(e.presented)
    ensures var w', row := Exec(p, w, es), w.db.refresh[id];
      Serve(p, w', e).1 ==
        if Ended(p, w, es, id) then Refused(RevokedToken)
        else if w'.now < row.expiresAt then Session(row.user, |w'.db.refresh|)
        else Refused(ExpiredToken)
  {
    hide Normalising, Legal, Exec, Ended, OneTimeOk, EmailsOk, OAuthOk, FindRefresh;
    RunKeeps(p, w, es);
    RunLater(p, w, es);
    RevokedByHistory(p, w, es, id);
    var w' := Exec(p, w, es);
    FoundIs(w'.db.refresh, w'.family, |w'.db.users|, id, e.presented);
    assert w'.db.refresh[id].user < |w'.db.users|;
    hide RefreshOk;
  }

  /** A rotation stamps the token presented, names its successor in it, and changes no other row. */
  lemma RotationLinks(p: Policy, w: World, e: Event, id: nat)
    requires Inv(p, w) && e.DoRefresh? && Serve(p, w, e).1.Session?
    requires id < |w.db.refresh| && w.db.refresh[id].hash == Sha(e.presented)
    ensures var n, row := |w.db.refresh|, w.db.refresh[id];
      Serve(p, w, e).0 == w.db.(refresh :=
        w.db.refresh[id := row.(revokedAt := Some(w.now), replacedBy := Some(n))] +
        [RefreshRow(row.user, Sha(e.raw), w.now, w.now + 86400 * e.ttlDays, None, None)])
  {
    FoundIs(w.db.refresh, w.family, |w.db.users|, id, e.presented);
    hide Inv, FindRefresh;
    var n := |w.db.refresh|;
    var rows := Issue(w.db.refresh, w.db.refresh[id].user, e.raw, e.ttlDays, w.now);
    assert Revoke(rows, id, Some(n), w.now)[..n] ==
      w.db.refresh[id := w.db.refresh[id].(revokedAt := Some(w.now), replacedBy := Some(n))];
  }

  /** A secret that no row has, and none at all, are turned away as such and change nothing. */
  lemma StrangeToken(p: Policy, w: World, e: Event)
    requires e.DoRefresh? && forall i :: 0 <= i < |w.db.refresh| ==> w.db.refresh[i].hash != Sha(e.presented)
    ensures Serve(p, w, e) == (w.db, Refused(if e.presented == "" then NotAuthenticated else UnknownToken))
  {
  }

  /** Every session opened comes with a token of the user's for the secret drawn, good for the configured days. */
  lemma SessionIssues(p: Policy, w: World, e: Event)
    requires Inv(p, w) && Serve(p, w, e).1.Session?
    ensures e.DoRegister? || e.DoLogin? || e.DoOAuth? || e.DoRefresh?
    ensures var (db', out) := Serve(p, w, e);
      && out.token == |w.db.refresh| && |db'.refresh| == |w.db.refresh| + 1
      && db'.refresh[out.token] == RefreshRow(out.user, Sha(e.raw), w.now, w.now + 86400 * e.ttlDays, None, None)
  {
    hide Inv, FindUser, FindRefresh, FindOneTime, FindOAuth, RevokeAll, Redeemable, Link;
  }

  /** So the secret handed out with a session refreshes it, for its user, for that long and until a step ends it. */
  lemma IssuedTokenLives(p: Policy, w: World, s: Event, es: seq<Event>, e: Event)
    requires Normalising(p) && Inv(p, w) && Drawn(w.db, s) && Legal(p, Step(p, w, s), es)
    requires Serve(p, w, s).1.Session? && e.DoRefresh?
    requires (s.DoRegister? || s.DoLogin? || s.DoOAuth? || s.DoRefresh?) && e.presented == s.raw
    ensures var id, user, w' := |w.db.refresh|, Serve(p, w, s).1.user, Exec(p, Step(p, w, s), es);
      && id < |Step(p, w, s).db.refresh|
      && Serve(p, w', e).1 ==
        if Ended(p, Step(p, w, s), es, id) then Refused(RevokedToken)
        else if w'.now < w.now + 86400 * s.ttlDays then Session(user, |w'.db.refresh|)
        else Refused(ExpiredToken)
  {
    StepKeeps(p, w, s);
    SessionIssues(p, w, s);
    assert s.raw != "";
    hide Normalising, Legal, Exec, Ended, Inv, Drawn;
    assert Step(p, w, s).db == Serve(p, w, s).0;
    hide Step;
    TokenAnswer(p, Step(p, w, s), es, |w.db.refresh|, e);
  }

  /** Logging out ends the token presented for good and leaves every other token as it was. */
  lemma LogoutEndsTheToken(p: Policy, w: World, o: Event, es: seq<Event>, id: nat, e: Event)
    requires Normalising(p) && Inv(p, w) && Legal(p, Step(p, w, o), es)
    requires o.DoLogout? && o.presented != "" && e.DoRefresh? && e.presented == o.presented
    requires id < |w.db.refresh| && w.db.refresh[id].hash == Sha(o.presented)
    ensures Serve(p, Exec(p, Step(p, w, o), es), e).1 == Refused(RevokedToken)
    ensures forall i :: 0 <= i < |w.db.refresh| && i != id ==>
      i < |Step(p, w, o).db.refresh| && Step(p, w, o).db.refresh[i] == w.db.refresh[i]
  {
    FoundIs(w.db.refresh, w.family, |w.db.users|, id, o.presented);
    StepKeeps(p, w, o);
    hide Inv, Legal, Exec, Normalising, FindRefresh;
    RevokedForever(p, Step(p, w, o), es, id, o.presented, e.raw, e.ttlDays);
  }

  /* ---- one-time tokens ---- */

  /** The step redeems this one-time token. */
  ghost predicate Uses(p: Policy, w: World, e: Event, id: nat) {
    || (e.DoVerifyEmail? && Redeems(w, e.presented, VerifyAddress, id))
    || (e.DoResetPassword? && p.strong(e.password) && Redeems(w, e.presented, PasswordReset, id))
  }

  lemma StepUses(p: Policy, w: World, e: Event, id: nat)
    requires Inv(p, w) && id < |w.db.oneTime| && w.db.oneTime[id].consumedAt.None?
    ensures id < |Step(p, w, e).db.oneTime|
    ensures Step(p, w, e).db.oneTime[id].consumedAt.Some? <==> Uses(p, w, e, id)
  {
    StepLater(p, w, e);
    if e.DoVerifyEmail? || e.DoResetPassword? {
      RedeemableIff(w, e.presented, if e.DoVerifyEmail? then VerifyAddress else PasswordReset, id);
      hide Redeems, Redeemable, Inv, RevokeAll;
    } else {
      hide Redeems, Inv, FindUser, FindRefresh, FindOneTime, FindOAuth, RevokeAll, Redeemable;
    }
  }

  ghost predicate Used(p: Policy, w: World, es: seq<Event>, id: nat)
    decreases |es|
  {
    es != [] && (Uses(p, w, es[0], id) || Used(p, Step(p, w, es[0]), es[1..], id))
  }

  lemma {:induction false} ConsumedByHistory(p: Policy, w: World, es: seq<Event>, id: nat)
    requires Normalising(p) && Inv(p, w) && Legal(p, w, es)
    requires id < |w.db.oneTime| && w.db.oneTime[id].consumedAt.None?
    ensures id < |Exec(p, w, es).db.oneTime|
    ensures Exec(p, w, es).db.oneTime[id].consumedAt.Some? <==> Used(p, w, es, id)
    decreases |es|
  {
    hide Inv, Step, Drawn, Normalising, Uses;
    if es != [] {
      var w' := Step(p, w, es[0]);
      StepLater(p, w, es[0]);
      RunLater(p, w', es[1..]);
      StepKeeps(p, w, es[0]);
      StepUses(p, w, es[0], id);
      if !Uses(p, w, es[0], id) { ConsumedByHistory(p, w', es[1..], id); }
    }
  }

  /** After any run an unused one-time token is accepted by its own flow until it runs out or has been redeemed. */
  lemma OneTimeAnswer(p: Policy, w: World, es: seq<Event>, id: nat, e: Event)
    requires Normalising(p) && Inv(p, w) && Legal(p, w, es)
    requires (e.DoVerifyEmail? || e.DoResetPassword?) && e.presented != ""
    requires id < |w.db.oneTime| && w.db.oneTime[id].consumedAt.None? && w.db.oneTime[id].user.Some?
    requires w.db.oneTime[id].hash == Sha(e.presented)
    ensures var w', row := Exec(p, w, es), w.db.oneTime[id];
      Serve(p, w', e).1.Changed? <==>
        && row.purpose == (if e.DoVerifyEmail? then VerifyAddress else PasswordReset)
        && (e.DoResetPassword? ==> p.strong(e.password))
        && !Used(p, w, es, id) && w'.now < row.expiresAt
    ensures Serve(p, Exec(p, w, es), e).1.Changed? ==> Serve(p, Exec(p, w, es), e).1.user == w.db.oneTime[id].user.value
  {
    hide Normalising, Legal, Exec, Used;
    RunKeeps(p, w, es);
    RunLater(p, w, es);
    ConsumedByHistory(p, w, es, id);
    RedeemsOnly(p, Exec(p, w, es), e, id);
  }

  lemma RedeemsOnly(p: Policy, w: World, e: Event, id: nat)
    requires Inv(p, w) && (e.DoVerifyEmail? || e.DoResetPassword?) && e.presented != ""
    requires id < |w.db.oneTime| && w.db.oneTime[id].user.Some? && w.db.oneTime[id].hash == Sha(e.presented)
    ensures Serve(p, w, e).1.Changed? <==> Uses(p, w, e, id)
    ensures Uses(p, w, e, id) ==> Serve(p, w, e).1.user == w.db.oneTime[id].user.value
  {
    var purpose := if e.DoVerifyEmail? then VerifyAddress else PasswordReset;
    RedeemableIff(w, e.presented, purpose, id);
    var r := Redeemable(w.db, e.presented, purpose, w.now);
    if r.Some? { RedeemableIff(w, e.presented, purpose, r.value); }
    hide RefreshOk, EmailsOk, OAuthOk, FindOneTime, Redeemable, RevokeAll;
  }

  /** The user at the address is sent a token: unless verified already, or for a reset not active. */
  ghost predicate IsSent(p: Policy, w: World, e: Event, u: nat)
    requires e.DoIssueOneTime?
  {
    && u < |w.db.users| && w.db.users[u].email == p.norm(e.email)
    && if e.purpose.VerifyAddress? then !w.db.users[u].verified else w.db.users[u].active
  }

  /** What asking for a token does, and that the answer never tells. */
  lemma OneTimeIssued(p: Policy, w: World, e: Event)
    requires Inv(p, w) && e.DoIssueOneTime?
    ensures Serve(p, w, e).1 == Quiet
    ensures forall u: nat :: IsSent(p, w, e, u) ==>
      Serve(p, w, e).0 == w.db.(oneTime := w.db.oneTime +
        [OneTimeRow(Some(u), Sha(e.raw), e.purpose, w.now + 60 * Max(1, e.ttlMinutes), None)])
    ensures (forall u: nat :: !IsSent(p, w, e, u)) ==> Serve(p, w, e).0 == w.db
  {
    var found := FindUser(w.db.users, p.norm(e.email));
    assert found.Some? && Serve(p, w, e).0 != w.db ==> IsSent(p, w, e, found.value);
    forall u: nat | IsSent(p, w, e, u) ensures found == Some(u) { AddressFound(p, w.db.users, u); }
    hide Inv, FindUser;
  }

  /** So the secret sent works for its user and purpose for that long, once. */
  lemma SentTokenLives(p: Policy, w: World, s: Event, u: nat, es: seq<Event>, e: Event)
    requires Normalising(p) && Inv(p, w) && Drawn(w.db, s) && Legal(p, Step(p, w, s), es)
    requires s.DoIssueOneTime? && IsSent(p, w, s, u)
    requires (e.DoVerifyEmail? || e.DoResetPassword?) && e.presented == s.raw
    ensures var id, w' := |w.db.oneTime|, Exec(p, Step(p, w, s), es);
      && (Serve(p, w', e).1.Changed? <==>
        && s.purpose == (if e.DoVerifyEmail? then VerifyAddress else PasswordReset)
        && (e.DoResetPassword? ==> p.strong(e.password))
        && !Used(p, Step(p, w, s), es, id) && w'.now < w.now + 60 * Max(1, s.ttlMinutes))
      && (Serve(p, w', e).1.Changed? ==> Serve(p, w', e).1.user == u)
  {
    StepKeeps(p, w, s);
    OneTimeIssued(p, w, s);
    hide Inv, Exec, Legal, Normalising, Used;
    OneTimeAnswer(p, Step(p, w, s), es, |w.db.oneTime|, e);
  }
}
