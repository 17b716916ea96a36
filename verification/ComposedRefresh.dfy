/**
 The browser client and the credential service together, for one client and one login.

 The refresh token travels in the request body and localStorage, or, in cookie mode, in a cookie that
 the browser stores when the response arrives. Between any two steps the other side may take any
 number of its own. The network may fail the client on a request or a response; a request that it failed
 on may still be taken up by the service later, with nobody to receive the answer. The run has no other
 sign-in, sign-out, reset or expiry for this login.
 */
module ComposedRefresh {
  import opened Common
  import opened AuthTables
  import C = ApiClient

  /** A refresh request on its way to the server, or its response on the way back. */
  datatype Wire =
    | Asked(presented: Option<string>)
    | Answered(reply: C.Reply, cookie: Option<string>)

  datatype Sys = Sys(
    client: C.Client,
    jar: Option<string>,
    wire: map<nat, Wire>,
    late: map<nat, Option<string>>,  // requests the client has given up on, by what they carry
    db: Db,
    cookieMode: bool)

  datatype Event =
    | Client(e: C.Event)
    | Serve(p: nat, raw: string, access: string, ttlDays: int, now: int)
    | Reject(p: nat)
    | Arrive(p: nat)
    | Lose(p: nat)
    | ServeLate(p: nat, raw: string, access: string, ttlDays: int, now: int)

  /** The credential a refresh request carries: the cookie if there is one, else the stored token. */
  function Credential(s: Sys): Option<string> {
    if s.jar.Some? then s.jar else s.client.refresh
  }

  function Answer(out: Outcome, raw: string, access: string, cookieMode: bool): Wire {
    if !out.Session? then Answered(C.Failed, None)
    else if cookieMode then Answered(C.Tokens(Some(access), None), Some(raw))
    else Answered(C.Tokens(Some(access), Some(raw)), None)
  }

  /** The token as the service reads it; a request without one carries the empty string. */
  function Carried(presented: Option<string>): string {
    if presented.Some? then presented.value else ""
  }

  function Step(s: Sys, e: Event): Sys {
    match e
    case Client(ce) =>
      if ce.Deliver? then s
      else
        var c := C.Step(s.client, ce);
        if ce.Respond? && ce.i in c.exchanges && ce.i !in s.client.exchanges
        then s.(client := c, wire := s.wire[ce.i := Asked(Credential(s))])
        else s.(client := c)
    case Serve(p, raw, access, ttl, now) =>
      if p !in s.wire || !s.wire[p].Asked? then s
      else
        var (db, out) := RefreshTokens(s.db, Carried(s.wire[p].presented), raw, ttl, now);
        s.(db := db, wire := s.wire[p := Answer(out, raw, access, s.cookieMode)])
    case Reject(p) =>  // turned away before the service is reached
      if p !in s.wire || !s.wire[p].Asked? then s
      else s.(wire := s.wire[p := Answered(C.Failed, None)])
    case Arrive(p) =>
      if p !in s.wire || !s.wire[p].Answered? then s
      else s.(client := C.OnDeliver(s.client, p, s.wire[p].reply),
              jar := if s.wire[p].cookie.Some? then s.wire[p].cookie else s.jar,
              wire := s.wire - {p})
    case Lose(p) =>  // the client sees a network error, whichever way the message was going
      if p !in s.wire then s
      else s.(client := C.OnDeliver(s.client, p, C.Failed),
              wire := s.wire - {p},
              late := if s.wire[p].Asked? then s.late[p := s.wire[p].presented] else s.late)
    case ServeLate(p, raw, _, ttl, now) =>
      if p !in s.late then s
      else s.(db := RefreshTokens(s.db, Carried(s.late[p]), raw, ttl, now).0, late := s.late - {p})
  }

  /** What the service is asked to refresh by this event, if it is asked at all. */
  function Request(s: Sys, e: Event): Option<Option<string>> {
    match e
    case Serve(p, _, _, _, _) => if p in s.wire && s.wire[p].Asked? then Some(s.wire[p].presented) else None
    case ServeLate(p, _, _, _, _) => if p in s.late then Some(s.late[p]) else None
    case _ => None
  }

  /** Drawn secrets are new, and the token presented has not run out. */
  ghost predicate Legal(s: Sys, e: Event) {
    e.Serve? || e.ServeLate? ==>
      && e.raw != ""
      && (forall i :: 0 <= i < |s.db.refresh| ==> s.db.refresh[i].hash != Sha(e.raw))
      && (Request(s, e).Some? ==>
        forall i :: 0 <= i < |s.db.refresh| && s.db.refresh[i].hash == Sha(Carried(Request(s, e).value)) ==>
          s.db.refresh[i].expiresAt > e.now)
  }

  /** The token a wire is about to hand to the client, if any. */
  function InTransit(w: Wire): Option<string> {
    if w.Asked? || w.reply.Failed? then None
    else if w.cookie.Some? then w.cookie else w.reply.refresh
  }

  /**
   `mine` are the login's rows and `head` the one unrevoked among them, whose secret is `current`.
   The client holds that secret, or it is on its way to the client, or (storage cleared) neither.
   */
  ghost predicate Good(s: Sys, mine: set<nat>, head: nat, current: string) {
    && C.Inv(s.client)
    && OnlyHeadLives(s.db, mine, head, current)
    && (forall p :: p in s.wire <==> (p in s.client.exchanges && s.client.exchanges[p].Posted?))
    && (if s.cookieMode then s.client.refresh.None? && s.jar.Some? else s.jar.None?)
    && (forall p :: p in s.wire && s.wire[p].Asked? ==> s.wire[p].presented in {None, Some(current)})
    && (forall p :: p in s.wire && s.wire[p].Answered? ==> WireOk(s.wire[p], s.cookieMode, current))
    && ((forall p :: p in s.wire ==> InTransit(s.wire[p]).None?) ==> Credential(s) in {None, Some(current)})
    && (forall p :: p in s.wire && InTransit(s.wire[p]).Some? && Credential(s).Some? ==>
          Dead(s.db, Credential(s).value))
    && (forall p :: p in s.late ==> s.late[p].None?)
  }

  /** A secret whose token is revoked. */
  ghost predicate Dead(db: Db, raw: string) {
    raw != "" && exists i :: 0 <= i < |db.refresh| && db.refresh[i].hash == Sha(raw) && db.refresh[i].revokedAt.Some?
  }

  ghost predicate WireOk(w: Wire, cookieMode: bool, current: string)
    requires w.Answered?
  {
    if w.reply.Failed? then w.cookie.None?
    else if cookieMode then w.cookie == Some(current) && w.reply.refresh.None?
    else w.cookie.None? && w.reply.refresh == Some(current)
  }

  ghost predicate OnlyHeadLives(db: Db, mine: set<nat>, head: nat, current: string) {
    && current != ""
    && (forall i, j :: 0 <= i < j < |db.refresh| ==> db.refresh[i].hash != db.refresh[j].hash)
    && head in mine && head < |db.refresh|
    && db.refresh[head].hash == Sha(current)
    && db.refresh[head].user < |db.users|
    && (forall i :: i in mine ==> i < |db.refresh| && (db.refresh[i].revokedAt.None? <==> i == head))
  }

  /** What presenting the login's live token does: it is accepted and its successor takes its place. */
  lemma HeadIsAccepted(db: Db, mine: set<nat>, head: nat, current: string, raw: string, ttl: int, now: int)
    requires OnlyHeadLives(db, mine, head, current)
    requires raw != "" && forall i :: 0 <= i < |db.refresh| ==> db.refresh[i].hash != Sha(raw)
    requires db.refresh[head].expiresAt > now
    ensures var (db', out) := RefreshTokens(db, current, raw, ttl, now);
      && out == Session(db.refresh[head].user, |db.refresh|)
      && OnlyHeadLives(db', mine + {|db.refresh|}, |db.refresh|, raw)
      && Dead(db', current)
  {
    assert FindRefresh(db.refresh, Sha(current)) == Some(head);
    var db' := RefreshTokens(db, current, raw, ttl, now).0;
    assert db'.refresh[head].hash == Sha(current) && db'.refresh[head].revokedAt.Some?;
  }

  /** The invariant's witnesses after a step: only a successful refresh moves them. */
  function NextMine(s: Sys, e: Event, mine: set<nat>): set<nat> {
    if |Step(s, e).db.refresh| > |s.db.refresh| then mine + {|s.db.refresh|} else mine
  }

  function NextHead(s: Sys, e: Event, head: nat): nat {
    if |Step(s, e).db.refresh| > |s.db.refresh| then |s.db.refresh| else head
  }

  function NextCurrent(s: Sys, e: Event, current: string): string {
    if |Step(s, e).db.refresh| > |s.db.refresh| then e.raw else current
  }

  lemma HeadUnexpired(s: Sys, e: Event, mine: set<nat>, head: nat, current: string)
    requires OnlyHeadLives(s.db, mine, head, current) && Legal(s, e) && Request(s, e) == Some(Some(current))
    ensures current != "" && head < |s.db.refresh| && s.db.refresh[head].expiresAt > e.now
  {
  }

  /** At most one refresh is on the wire: the one that the shared promise stands for. */
  lemma OnlyOneWire(s: Sys, p: nat)
    requires C.Inv(s.client) && p in s.wire
    requires forall q :: q in s.wire <==> (q in s.client.exchanges && s.client.exchanges[q].Posted?)
    ensures s.wire - {p} == map[] && s.client.promise == Some(p) && forall q :: q in s.wire ==> q == p
  {
    assert forall q :: q in s.wire ==> s.client.promise == Some(q);
  }

  lemma NoPostedNoWire(s: Sys)
    requires C.Inv(s.client) && s.client.promise.None?
    requires forall q :: q in s.wire <==> (q in s.client.exchanges && s.client.exchanges[q].Posted?)
    ensures s.wire == map[]
  {
    assert forall q :: q in s.wire ==> s.client.promise == Some(q);
  }

  lemma ServeKeeps(s: Sys, e: Event, mine: set<nat>, head: nat, current: string)
    requires Good(s, mine, head, current) && Legal(s, e) && e.Serve?
    ensures Good(Step(s, e), NextMine(s, e, mine), NextHead(s, e, head), NextCurrent(s, e, current))
  {
    hide OnlyHeadLives, Dead, C.Inv;
    if e.p in s.wire && s.wire[e.p].Asked? {
      OnlyOneWire(s, e.p);
      if s.wire[e.p].presented == Some(current) {
        GrantKeeps(s, e, mine, head, current);
      }
    }
  }

  lemma GrantKeeps(s: Sys, e: Event, mine: set<nat>, head: nat, current: string)
    requires Good(s, mine, head, current) && Legal(s, e) && e.Serve?
    requires Request(s, e) == Some(Some(current)) && forall q :: q in s.wire ==> q == e.p
    ensures Good(Step(s, e), NextMine(s, e, mine), NextHead(s, e, head), NextCurrent(s, e, current))
  {
    hide OnlyHeadLives, Dead, C.Inv;
    HeadUnexpired(s, e, mine, head, current);
    HeadIsAccepted(s.db, mine, head, current, e.raw, e.ttlDays, e.now);
    assert Step(s, e).wire[e.p] == Answer(Verdict(s, e), e.raw, e.access, s.cookieMode);
  }

  lemma RejectKeeps(s: Sys, e: Event, mine: set<nat>, head: nat, current: string)
    requires Good(s, mine, head, current) && e.Reject?
    ensures Good(Step(s, e), mine, head, current)
  {
    hide OnlyHeadLives, Dead, C.Inv;
    if e.p in s.wire && s.wire[e.p].Asked? {
      OnlyOneWire(s, e.p);
    }
  }

  lemma ArriveKeeps(s: Sys, e: Event, mine: set<nat>, head: nat, current: string)
    requires Good(s, mine, head, current) && e.Arrive?
    ensures Good(Step(s, e), mine, head, current)
  {
    hide OnlyHeadLives, Dead, C.Inv;
    if e.p in s.wire && s.wire[e.p].Answered? {
      OnlyOneWire(s, e.p);
      C.DeliverKeeps(s.client, e.p, s.wire[e.p].reply);
      assert WireOk(s.wire[e.p], s.cookieMode, current);
    }
  }

  lemma LoseKeeps(s: Sys, e: Event, mine: set<nat>, head: nat, current: string)
    requires Good(s, mine, head, current) && e.Lose? && !Drops(s, e)
    ensures Good(Step(s, e), mine, head, current)
  {
    hide OnlyHeadLives, Dead, C.Inv;
    if e.p in s.wire {
      OnlyOneWire(s, e.p);
      C.DeliverKeeps(s.client, e.p, C.Failed);
    }
  }

  lemma ServeLateKeeps(s: Sys, e: Event, mine: set<nat>, head: nat, current: string)
    requires Good(s, mine, head, current) && e.ServeLate?
    ensures Good(Step(s, e), mine, head, current)
  {
    if e.p in s.late {
      assert s.late[e.p].None?;
    }
  }

  /** The step fails the client on a request that carries a token or on the response that carries the new one. */
  predicate Drops(s: Sys, e: Event) {
    && e.Lose? && e.p in s.wire
    && (if s.wire[e.p].Asked? then s.wire[e.p].presented.Some? else InTransit(s.wire[e.p]).Some?)
  }

  /** What a client step can do to the shared state: start one refresh, or forget the stored tokens. */
  lemma ClientStepEffect(c: C.Client, e: C.Event)
    requires C.Inv(c) && !e.Deliver?
    ensures var d := C.Step(c, e);
      && (d.refresh == c.refresh || d.refresh == None)
      && (d.exchanges == c.exchanges ||
          (e.Respond? && e.i !in c.exchanges && d.exchanges == c.exchanges[e.i := C.Posted] &&
           c.promise.None? && d.refresh == c.refresh))
  {
    if e.Respond? && e.i < |c.requests| { assert C.RequestOk(c, e.i); }
  }

  lemma ClientKeeps(s: Sys, e: Event, mine: set<nat>, head: nat, current: string)
    requires Good(s, mine, head, current) && e.Client?
    ensures Good(Step(s, e), mine, head, current)
  {
    hide OnlyHeadLives, Dead, C.Inv, C.Step;
    if !e.e.Deliver? {
      C.StepKeeps(s.client, e.e);
      ClientStepEffect(s.client, e.e);
      var d := C.Step(s.client, e.e);
      if d.exchanges != s.client.exchanges {
        NoPostedNoWire(s);
        StartKeeps(s, d, e.e.i, mine, head, current);
      }
    }
  }

  lemma StartKeeps(s: Sys, d: C.Client, i: nat, mine: set<nat>, head: nat, current: string)
    requires Good(s, mine, head, current) && C.Inv(d) && s.wire == map[]
    requires i !in s.client.exchanges && d.exchanges == s.client.exchanges[i := C.Posted]
    requires d.refresh == s.client.refresh
    ensures Good(s.(client := d, wire := s.wire[i := Asked(Credential(s))]), mine, head, current)
  {
    hide OnlyHeadLives, Dead, C.Inv;
    assert forall p :: p in s.client.exchanges && s.client.exchanges[p].Posted? ==> p in s.wire;
  }

  lemma StepKeeps(s: Sys, e: Event, mine: set<nat>, head: nat, current: string)
    requires Good(s, mine, head, current) && Legal(s, e) && !Drops(s, e)
    ensures Good(Step(s, e), NextMine(s, e, mine), NextHead(s, e, head), NextCurrent(s, e, current))
  {
    match e {
      case Client(_) => ClientKeeps(s, e, mine, head, current);
      case Serve(_, _, _, _, _) => ServeKeeps(s, e, mine, head, current);
      case Reject(_) => RejectKeeps(s, e, mine, head, current);
      case Arrive(_) => ArriveKeeps(s, e, mine, head, current);
      case Lose(_) => LoseKeeps(s, e, mine, head, current);
      case ServeLate(_, _, _, _, _) => ServeLateKeeps(s, e, mine, head, current);
    }
  }

  ghost function Exec(s: Sys, es: seq<Event>): Sys
    decreases |es|
  {
    if es == [] then s else Exec(Step(s, es[0]), es[1..])
  }

  ghost predicate LegalRun(s: Sys, es: seq<Event>)
    decreases |es|
  {
    es == [] || (Legal(s, es[0]) && LegalRun(Step(s, es[0]), es[1..]))
  }

  /** Somewhere in the run the client is failed on a request that carries a token or on a granted response. */
  ghost predicate Dropped(s: Sys, es: seq<Event>)
    decreases |es|
  {
    es != [] && (Drops(s, es[0]) || Dropped(Step(s, es[0]), es[1..]))
  }

  /** The row numbers from `lo` up to but not including `hi`. */
  ghost function Rows(lo: nat, hi: nat): set<nat>
    decreases hi - lo
  {
    if lo >= hi then {} else {lo} + Rows(lo + 1, hi)
  }

  lemma StepAddsAtMostOneRow(s: Sys, e: Event, mine: set<nat>)
    ensures
      || (|Step(s, e).db.refresh| == |s.db.refresh| && NextMine(s, e, mine) == mine)
      || (|Step(s, e).db.refresh| == |s.db.refresh| + 1 && NextMine(s, e, mine) == mine + {|s.db.refresh|})
  {
  }

  lemma {:induction false} RunKeeps(s: Sys, es: seq<Event>, mine: set<nat>, head: nat, current: string)
    returns (mine': set<nat>, head': nat, current': string)
    requires Good(s, mine, head, current) && LegalRun(s, es) && !Dropped(s, es)
    ensures |s.db.refresh| <= |Exec(s, es).db.refresh|
    ensures mine' == mine + Rows(|s.db.refresh|, |Exec(s, es).db.refresh|) && Good(Exec(s, es), mine', head', current')
    decreases |es|
  {
    hide Good, Step, Legal, Drops, NextMine, NextHead, NextCurrent;
    mine', head', current' := mine, head, current;
    if es != [] {
      StepKeeps(s, es[0], mine, head, current);
      StepAddsAtMostOneRow(s, es[0], mine);
      mine', head', current' := RunKeeps(Step(s, es[0]), es[1..],
        NextMine(s, es[0], mine), NextHead(s, es[0], head), NextCurrent(s, es[0], current));
    }
  }

  /** Right after signing in: the client holds the login's only token. */
  ghost predicate JustSignedIn(s: Sys, head: nat, current: string) {
    && s.client.requests == [] && s.client.exchanges == map[] && s.client.promise.None?
    && s.wire == map[] && s.late == map[]
    && OnlyHeadLives(s.db, {head}, head, current)
    && (if s.cookieMode then s.jar == Some(current) && s.client.refresh.None?
        else s.jar.None? && s.client.refresh == Some(current))
  }

  /** A legal run after which the service takes up a refresh request, late or not. */
  ghost predicate Asks(s: Sys, es: seq<Event>, e: Event) {
    LegalRun(s, es) && Legal(Exec(s, es), e) && Request(Exec(s, es), e).Some?
  }

  /** What the service answers to that request. */
  function Verdict(t: Sys, e: Event): Outcome
    requires Request(t, e).Some?
  {
    RefreshTokens(t.db, Carried(Request(t, e).value), e.raw, e.ttlDays, e.now).1
  }

  /**
   However the requests, refreshes and deliveries interleave, as long as no request that carries a token and no
   granted response is lost, the service never sees a revoked token from this client: a refresh that carries a
   token is granted, and one that carries none (the storage was cleared) is turned away for carrying none.
   */
  lemma RefreshNeverMeetsARevokedToken(s: Sys, es: seq<Event>, head: nat, current: string, e: Event)
    requires JustSignedIn(s, head, current) && Asks(s, es, e) && !Dropped(s, es)
    ensures var t := Exec(s, es);
      if Request(t, e).value.Some? then Verdict(t, e).Session? && Verdict(t, e).token == |t.db.refresh|
      else Verdict(t, e) == Refused(NotAuthenticated)
  {
    C.InitInv(s.client.access, s.client.refresh);
    var mine', head', current' := RunKeeps(s, es, {head}, head, current);
    var t := Exec(s, es);
    if Request(t, e).value.Some? {
      HeadIsAccepted(t.db, mine', head', current', e.raw, e.ttlDays, e.now);
    }
  }

  /**
   And at every moment the login, its first token and every one issued since, has exactly one live
   token, which the client holds or awaits if it holds or awaits any.
   */
  lemma HeldTokenIsTheLiveOne(s: Sys, es: seq<Event>, head: nat, current: string) returns (head': nat, current': string)
    requires JustSignedIn(s, head, current) && LegalRun(s, es) && !Dropped(s, es)
    ensures HoldsOrAwaits(Exec(s, es), {head} + Rows(|s.db.refresh|, |Exec(s, es).db.refresh|), head', current')
  {
    C.InitInv(s.client.access, s.client.refresh);
    var mine';
    mine', head', current' := RunKeeps(s, es, {head}, head, current);
    var t := Exec(s, es);
    forall p | p in t.wire && InTransit(t.wire[p]).Some? ensures InTransit(t.wire[p]) == Some(current') {
      assert WireOk(t.wire[p], t.cookieMode, current');
    }
  }

  /** The client holds the one live token, or it is on its way to it, or neither has any. */
  ghost predicate HoldsOrAwaits(t: Sys, mine: set<nat>, head: nat, current: string) {
    && OnlyHeadLives(t.db, mine, head, current)
    && (forall p :: p in t.wire && InTransit(t.wire[p]).Some? ==> InTransit(t.wire[p]) == Some(current))
    && ((forall p :: p in t.wire ==> InTransit(t.wire[p]).None?) ==> Credential(t) in {None, Some(current)})
  }
}
