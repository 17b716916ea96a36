/**
 Who a Google sign-in signs in, in every state a run can reach: the user the account is linked to, else the user at
 the address if either side has verified it, else a new one; and the same user ever after.
 */
module GoogleSignIn {
  import opened Common
  import opened AuthTables
  import opened SessionRuns
  import opened Accounts

  /** The account is linked to no user. */
  ghost predicate Unlinked(db: Db, account: string) {
    forall u: nat :: !Linked(db, account, u)
  }

  ghost predicate Holds(p: Policy, db: Db, email: string, u: nat) {
    u < |db.users| && db.users[u].email == p.norm(email)
  }

  ghost predicate Unheld(p: Policy, db: Db, email: string) {
    forall u: nat :: !Holds(p, db, email, u)
  }

  /** The merge rule: a user has the address of an account without a link, and the user or Google has verified it. */
  ghost predicate Merges(p: Policy, w: World, e: Event, u: nat)
    requires e.DoOAuth?
  {
    Unlinked(w.db, e.account) && Holds(p, w.db, e.email, u) && (w.db.users[u].verified || e.emailVerified)
  }

  /** Who gets a session: a linked active user, an active user by the merge rule, and whoever has a new address. */
  ghost predicate Opens(p: Policy, w: World, e: Event)
    requires e.DoOAuth?
  {
    || (exists u: nat :: u < |w.db.users| && Linked(w.db, e.account, u) && w.db.users[u].active)
    || (exists u: nat :: Merges(p, w, e, u) && w.db.users[u].active)
    || (Unlinked(w.db, e.account) && Unheld(p, w.db, e.email))
  }

  lemma NotFoundIsUnlinked(db: Db, account: string)
    requires OAuthOk(db.oauth, |db.users|)
    ensures FindOAuth(db.oauth, "google", account).None? <==> Unlinked(db, account)
  {
    LinkFound(db, account);
    var id := FindOAuth(db.oauth, "google", account);
    assert id.Some? ==> Linked(db, account, db.oauth[id.value].user);
  }

  /** A linked account signs its user in, if active, whatever address it comes with; nothing else changes. */
  lemma LinkedSignsIn(p: Policy, w: World, e: Event, u: nat)
    requires Inv(p, w) && e.DoOAuth? && Linked(w.db, e.account, u)
    ensures u < |w.db.users|
    ensures Serve(p, w, e) ==
      if w.db.users[u].active then
        (w.db.(refresh := w.db.refresh + [RefreshRow(u, Sha(e.raw), w.now, w.now + 86400 * e.ttlDays, None, None)]),
         Session(u, |w.db.refresh|))
      else (w.db, Refused(Inactive))
  {
    LinkFound(w.db, e.account);
    hide Linked, FindOAuth, FindUser, EmailsOk, OneTimeOk, RefreshOk;
  }

  /** An account without a link gets one to the user at its address, and the session, if either side verified it. */
  lemma UnlinkedMerges(p: Policy, w: World, e: Event, u: nat)
    requires Inv(p, w) && e.DoOAuth? && Unlinked(w.db, e.account) && Holds(p, w.db, e.email, u)
    ensures var (db', out) := Serve(p, w, e);
      if w.db.users[u].verified || e.emailVerified then
        && db'.users == w.db.users && db'.oauth == w.db.oauth + [OAuthRow(u, "google", e.account)]
        && out == if w.db.users[u].active then Session(u, |w.db.refresh|) else Refused(Inactive)
      else db' == w.db && out == Refused(LinkRejected)
  {
    NotFoundIsUnlinked(w.db, e.account);
    AddressFound(p, w.db.users, u);
    hide Linked, FindOAuth, FindUser, EmailsOk, OneTimeOk, RefreshOk;
  }

  /** With an address that nobody has it gets a user of its own. */
  lemma UnlinkedJoins(p: Policy, w: World, e: Event)
    requires Inv(p, w) && e.DoOAuth? && Unlinked(w.db, e.account) && Unheld(p, w.db, e.email)
    ensures var n, (db', out) := |w.db.users|, Serve(p, w, e);
      && out == Session(n, |w.db.refresh|)
      && db'.users == w.db.users + [User(p.norm(e.email), Unusable, true, e.emailVerified, 0, None)]
      && db'.oauth == w.db.oauth + [OAuthRow(n, "google", e.account)]
  {
    NotFoundIsUnlinked(w.db, e.account);
    var found := FindUser(w.db.users, p.norm(e.email));
    assert found.Some? ==> Holds(p, w.db, e.email, found.value);
    hide Linked, FindOAuth, FindUser, EmailsOk, OneTimeOk, RefreshOk;
  }

  /**
   In every state of every run, a sign-in comes to be linked to a user who was there before exactly when the account
   has no link, the user has its address, and the user or Google has verified that address.
   */
  lemma LinksExistingIff(p: Policy, w: World, es: seq<Event>, e: Event, u: nat)
    requires Normalising(p) && Inv(p, w) && Legal(p, w, es) && e.DoOAuth?
    requires u < |Exec(p, w, es).db.users|
    ensures var w' := Exec(p, w, es);
      !Linked(w'.db, e.account, u) && Linked(Serve(p, w', e).0, e.account, u) <==> Merges(p, w', e, u)
  {
    hide Exec, Legal, Normalising;
    RunKeeps(p, w, es);
    OneLinkMore(p, Exec(p, w, es), e, u);
  }

  lemma OneLinkMore(p: Policy, w: World, e: Event, u: nat)
    requires Inv(p, w) && e.DoOAuth? && u < |w.db.users|
    ensures !Linked(w.db, e.account, u) && Linked(Serve(p, w, e).0, e.account, u) <==> Merges(p, w, e, u)
  {
    var db' := Serve(p, w, e).0;
    if v: nat :| Linked(w.db, e.account, v) {
      LinkedSignsIn(p, w, e, v);
    } else if v: nat :| Holds(p, w.db, e.email, v) {
      UnlinkedMerges(p, w, e, v);
      LinkAdded(w.db, db', e.account, v, u);
      AddressFound(p, w.db.users, v);
    } else {
      UnlinkedJoins(p, w, e);
      LinkAdded(w.db, db', e.account, |w.db.users|, u);
    }
  }

  lemma LinkAdded(db: Db, db': Db, account: string, v: nat, u: nat)
    requires Unlinked(db, account)
    ensures db'.oauth == db.oauth + [OAuthRow(v, "google", account)] ==> (Linked(db', account, u) <==> u == v)
    ensures db'.oauth == db.oauth ==> !Linked(db', account, u)
  {
    assert !Linked(db, account, u);
    if db'.oauth == db.oauth + [OAuthRow(v, "google", account)] {
      assert db'.oauth[|db.oauth|] == OAuthRow(v, "google", account);
    }
  }

  /**
   In every state of every run, a sign-in opens a session exactly when the account is linked to an active user, or is
   not linked and the user at the address is active and the address verified on either side, or nobody has the address.
   */
  lemma GoogleOpensIff(p: Policy, w: World, es: seq<Event>, e: Event)
    requires Normalising(p) && Inv(p, w) && Legal(p, w, es) && e.DoOAuth?
    ensures Serve(p, Exec(p, w, es), e).1.Session? <==> Opens(p, Exec(p, w, es), e)
  {
    hide Exec, Legal, Normalising;
    RunKeeps(p, w, es);
    OpensIff(p, Exec(p, w, es), e);
  }

  lemma OpensIff(p: Policy, w: World, e: Event)
    requires Inv(p, w) && e.DoOAuth?
    ensures Serve(p, w, e).1.Session? <==> Opens(p, w, e)
  {
    if v: nat :| Linked(w.db, e.account, v) {
      LinkedSignsIn(p, w, e, v);
      LinkFound(w.db, e.account);
      hide Serve, Linked, Inv;
    } else if v: nat :| Holds(p, w.db, e.email, v) {
      UnlinkedMerges(p, w, e, v);
      forall u: nat | Holds(p, w.db, e.email, u) ensures u == v {
        AddressFound(p, w.db.users, u);
        AddressFound(p, w.db.users, v);
      }
      hide Serve, Linked, Inv, Holds;
    } else {
      UnlinkedJoins(p, w, e);
      hide Serve, Linked, Inv, Holds;
    }
  }

  /* ---- links are for good ---- */

  lemma LinksStay(p: Policy, w: World, e: Event, account: string, u: nat)
    requires Linked(w.db, account, u)
    ensures Linked(Step(p, w, e).db, account, u)
  {
    var i :| 0 <= i < |w.db.oauth| && w.db.oauth[i] == OAuthRow(u, "google", account);
    hide FindUser, FindRefresh, FindOneTime, FindOAuth, RevokeAll, Redeemable, OtherHolds;
    assert Step(p, w, e).db.oauth[i] == w.db.oauth[i];
  }

  lemma {:induction false} LinksStayAlong(p: Policy, w: World, es: seq<Event>, account: string, u: nat)
    requires Linked(w.db, account, u)
    ensures Linked(Exec(p, w, es).db, account, u)
    decreases |es|
  {
    hide Linked, Step;
    if es != [] {
      LinksStay(p, w, es[0], account, u);
      LinksStayAlong(p, Step(p, w, es[0]), es[1..], account, u);
    }
  }

  /** A session comes with a link. */
  lemma SessionLinks(p: Policy, w: World, e: Event)
    requires Inv(p, w) && e.DoOAuth? && Serve(p, w, e).1.Session?
    ensures Linked(Step(p, w, e).db, e.account, Serve(p, w, e).1.user)
  {
    var db' := Serve(p, w, e).0;
    if v: nat :| Linked(w.db, e.account, v) {
      LinkedSignsIn(p, w, e, v);
      LinksStay(p, w, e, e.account, v);
    } else if v: nat :| Holds(p, w.db, e.email, v) {
      UnlinkedMerges(p, w, e, v);
      LinkAdded(w.db, db', e.account, v, v);
    } else {
      UnlinkedJoins(p, w, e);
      LinkAdded(w.db, db', e.account, |w.db.users|, |w.db.users|);
    }
  }

  /**
   Once a Google account has signed a user in, it signs in that user and no other after any run, exactly while the user
   is active, whoever has the address by then.
   */
  lemma SameUserEverAfter(p: Policy, w: World, e: Event, es: seq<Event>, e': Event)
    requires Normalising(p) && Inv(p, w) && Drawn(w.db, e) && Legal(p, Step(p, w, e), es)
    requires e.DoOAuth? && Serve(p, w, e).1.Session? && e'.DoOAuth? && e'.account == e.account
    ensures var u, w' := Serve(p, w, e).1.user, Exec(p, Step(p, w, e), es);
      && u < |w'.db.users|
      && Serve(p, w', e').1 == if w'.db.users[u].active then Session(u, |w'.db.refresh|) else Refused(Inactive)
  {
    StepKeeps(p, w, e);
    SessionLinks(p, w, e);
    hide Inv, Exec, Legal, Normalising, Step, Drawn, Linked;
    RunKeeps(p, Step(p, w, e), es);
    LinksStayAlong(p, Step(p, w, e), es, e.account, Serve(p, w, e).1.user);
    LinkedSignsIn(p, Exec(p, Step(p, w, e), es), e', Serve(p, w, e).1.user);
  }
}
