/**
 What becomes of a request that is answered with 401: when it is sent again, with which token stored, and when
 it fails for good.
 */
module ClientRetries {
  import opened Common
  import opened ApiClient

  /* ---- the answer to a request ---- */

  /** The URL has one of the five authentication endpoints in it. */
  ghost predicate NamesEndpoint(url: string) {
    exists i: nat ::
      || Occurs(url, "/auth/login", i) || Occurs(url, "/auth/register", i) || Occurs(url, "/auth/refresh", i)
      || Occurs(url, "/auth/logout", i) || Occurs(url, "/auth/oauth/google", i)
  }

  lemma EndpointIff(url: string)
    ensures IsAuthEndpoint(url) <==> NamesEndpoint(url)
  {
    ContainsIffOccurs(url, "/auth/login");
    ContainsIffOccurs(url, "/auth/register");
    ContainsIffOccurs(url, "/auth/refresh");
    ContainsIffOccurs(url, "/auth/logout");
    ContainsIffOccurs(url, "/auth/oauth/google");
    hide Contains, Occurs;
  }

  /** The answer is a 401 that a new token might cure. */
  ghost predicate Curable(r: Request, status: nat) {
    status == 401 && !r.retried && !NamesEndpoint(r.url)
  }

  /**
   A response ends its request, as often sent as before, unless it is a curable 401; a 401 after the retry
   also forgets the stored tokens. A curable one leaves the tokens and waits for the shared refresh, which it
   starts if there is none.
   */
  lemma ResponseAnswer(c: Client, i: nat, status: nat)
    requires i < |c.requests| && c.requests[i].phase.InFlight?
    ensures var r, d := c.requests[i], OnRespond(c, i, status);
      if !Curable(r, status) then
        && d.requests == c.requests[i := r.(phase := Done)]
        && d.promise == c.promise && d.exchanges == c.exchanges
        && (if status == 401 && r.retried then d.access.None? && d.refresh.None?
            else d.access == c.access && d.refresh == c.refresh)
      else
        var p := if c.promise.Some? then c.promise.value else i;
        && d.requests == c.requests[i := r.(retried := true, phase := Awaiting(p, c.promise.None?))]
        && d.promise == Some(p) && d.access == c.access && d.refresh == c.refresh
        && d.exchanges == if c.promise.Some? then c.exchanges else c.exchanges[i := Posted]
  {
    EndpointIff(c.requests[i].url);
    hide IsAuthEndpoint, NamesEndpoint;
  }

  /* ---- the request after a curable 401 ---- */

  /** The reply to refresh `p` in these events. */
  function FirstReply(es: seq<Event>, p: nat): Option<Reply> {
    if es == [] then None
    else if es[0].Deliver? && es[0].p == p then Some(es[0].reply)
    else FirstReply(es[1..], p)
  }

  predicate HasAccess(reply: Reply) {
    reply.Tokens? && reply.access.Some?
  }

  /** Refresh `p` has brought an access token, or does in these events. */
  predicate Brings(c: Client, es: seq<Event>, p: nat) {
    p in c.exchanges &&
    if c.exchanges[p].Settled? then c.exchanges[p].ok
    else var reply := FirstReply(es, p); reply.Some? && HasAccess(reply.value)
  }

  /** Request `i` waits for refresh `p`, or has waited for it and acted on its outcome. */
  ghost predicate Waits(c: Client, i: nat, p: nat) {
    && i < |c.requests| && p in c.exchanges && c.requests[i].retried
    && match c.requests[i].phase
       case Awaiting(q, _) => q == p && c.requests[i].sends == 1
       case Resolved(ok) => c.exchanges[p] == Settled(ok) && c.requests[i].sends == 1
       case InFlight => c.exchanges[p] == Settled(true) && c.requests[i].sends == 2
       case Done => c.exchanges[p] == Settled(c.requests[i].sends == 2) && 1 <= c.requests[i].sends <= 2
  }

  /** Some step has yet to be taken on the outcome of the refresh. */
  predicate Unhandled(r: Request) {
    r.phase.Awaiting? || r.phase.Resolved?
  }

  lemma StepWaits(c: Client, e: Event, i: nat, p: nat)
    requires Inv(c) && Waits(c, i, p)
    ensures Waits(Step(c, e), i, p)
    ensures c.exchanges[p].Settled? ==> Step(c, e).exchanges[p] == c.exchanges[p]
    ensures c.exchanges[p].Posted? ==>
      Step(c, e).exchanges[p] == if e.Deliver? && e.p == p then Settled(HasAccess(e.reply)) else Posted
  {
    hide IsAuthEndpoint;
  }

  lemma {:induction false} RunWaits(c: Client, es: seq<Event>, i: nat, p: nat)
    requires Inv(c) && Waits(c, i, p)
    ensures Waits(Exec(c, es), i, p)
    ensures Exec(c, es).exchanges[p].Settled? ==> (Exec(c, es).exchanges[p].ok <==> Brings(c, es, p))
    ensures Exec(c, es).exchanges[p].Posted? ==> !Brings(c, es, p)
    decreases |es|
  {
    hide Inv, Step, HasAccess;
    if es != [] {
      StepKeeps(c, es[0]);
      StepWaits(c, es[0], i, p);
      RunWaits(Step(c, es[0]), es[1..], i, p);
    }
  }

  /**
   Along every run: once its handler is done, a request that met a curable 401 has been sent twice if the refresh it
   waited for brought an access token, and once, and failed, if not.
   */
  lemma RetriedIff(c: Client, i: nat, es: seq<Event>)
    requires Inv(c) && i < |c.requests| && c.requests[i].phase.InFlight? && Curable(c.requests[i], 401)
    requires var d := Exec(OnRespond(c, i, 401), es); i < |d.requests| && !Unhandled(d.requests[i])
    ensures var c', d := OnRespond(c, i, 401), Exec(OnRespond(c, i, 401), es);
      var p := if c.promise.Some? then c.promise.value else i;
      && (d.requests[i].sends == 2 <==> Brings(c', es, p))
      && (d.requests[i].sends == 1 <==> !Brings(c', es, p))
      && (!Brings(c', es, p) ==> d.requests[i].phase.Done?)
  {
    var c', p := OnRespond(c, i, 401), if c.promise.Some? then c.promise.value else i;
    RespondKeeps(c, i, 401);
    ResponseAnswer(c, i, 401);
    assert RequestOk(c, i);
    assert Waits(c', i, p) by {
      if c.promise.Some? { assert RequestOk(c, p); }
    }
    hide Inv, Step, Brings, Curable, RequestOk, IsAuthEndpoint;
    RunWaits(c', es, i, p);
  }

  /**
   The step with which the handler is done: it sends the request again with the stored tokens as they are, or ends it
   and forgets both.
   */
  lemma HandlerEnds(c: Client, e: Event, i: nat)
    requires Inv(c) && i < |c.requests| && Unhandled(c.requests[i]) && !Unhandled(Step(c, e).requests[i])
    ensures var r, d := c.requests[i], Step(c, e);
      && e == Continue(i) && r.phase.Resolved? && r.sends == 1
      && if r.phase.ok then
           && d.requests[i] == r.(phase := InFlight, sends := 2)
           && d.access == c.access && d.refresh == c.refresh
         else d.requests[i] == r.(phase := Done) && d.access.None? && d.refresh.None?
  {
    assert RequestOk(c, i);
  }

  /* ---- in a browser: with which token ---- */

  /** A response, or a refresh's reply, is handled when no continuation is due. */
  ghost predicate InTasks(c: Client, es: seq<Event>)
    decreases |es|
  {
    es == [] || ((es[0].Respond? || es[0].Deliver? ==> Drained(c)) && InTasks(Step(c, es[0]), es[1..]))
  }

  /** What the handlers of a successful refresh find: its tokens stored, and nothing failed among what is due. */
  ghost predicate Brought(c: Client, p: nat, reply: Reply) {
    && HasAccess(reply) && c.access == reply.access && (reply.refresh.Some? ==> c.refresh == reply.refresh)
    && p in c.exchanges && c.exchanges[p] == Settled(true)
    && (forall j :: 0 <= j < |c.requests| && c.requests[j].phase.Resolved? ==> c.requests[j].phase.ok)
    && (forall j :: 0 <= j < |c.requests| && c.requests[j].phase.Awaiting? ==>
          var q := c.requests[j].phase.promise;
          q in c.exchanges ==> c.exchanges[q].Posted? || c.exchanges[q].ok)
  }

  lemma DeliveryBrings(c: Client, p: nat, reply: Reply)
    requires Inv(c) && Drained(c) && HasAccess(reply) && p in c.exchanges && c.exchanges[p].Posted?
    ensures Brought(OnDeliver(c, p, reply), p, reply)
  {
  }

  lemma TaskGoesOn(c: Client, e: Event, i: nat, p: nat, reply: Reply)
    requires Inv(c) && Brought(c, p, reply) && Waits(c, i, p) && Unhandled(c.requests[i])
    requires e.Respond? || e.Deliver? ==> Drained(c)
    requires i < |Step(c, e).requests| && Unhandled(Step(c, e).requests[i])
    ensures Brought(Step(c, e), p, reply)
  {
    assert !Drained(c);
  }

  lemma {:induction false} TaskKeepsTokens(c: Client, es: seq<Event>, i: nat, p: nat, reply: Reply)
    requires Inv(c) && Brought(c, p, reply) && Waits(c, i, p) && InTasks(c, es)
    requires i < |Exec(c, es).requests| && Unhandled(Exec(c, es).requests[i])
    ensures Brought(Exec(c, es), p, reply)
    decreases |es|
  {
    hide Inv, Step, Brought, Drained;
    if es != [] {
      StepWaits(c, es[0], i, p);
      StepKeeps(c, es[0]);
      UnhandledBefore(c, es, i, p);
      TaskGoesOn(c, es[0], i, p, reply);
      TaskKeepsTokens(Step(c, es[0]), es[1..], i, p, reply);
    }
  }

  lemma DoneStaysDone(c: Client, e: Event, i: nat, p: nat)
    requires Inv(c) && Waits(c, i, p) && !Unhandled(c.requests[i])
    ensures i < |Step(c, e).requests| && !Unhandled(Step(c, e).requests[i])
  {
    assert RequestOk(c, i);
    hide IsAuthEndpoint;
  }

  /** A handler that is not done was not done before. */
  lemma {:induction false} UnhandledBefore(c: Client, es: seq<Event>, i: nat, p: nat)
    requires Inv(c) && Waits(c, i, p) && i < |Exec(c, es).requests| && Unhandled(Exec(c, es).requests[i])
    ensures Unhandled(c.requests[i])
    ensures es != [] ==> i < |Step(c, es[0]).requests| && Unhandled(Step(c, es[0]).requests[i])
    decreases |es|
  {
    hide Inv, Step, Unhandled;
    if es != [] {
      StepWaits(c, es[0], i, p);
      StepKeeps(c, es[0]);
      UnhandledBefore(Step(c, es[0]), es[1..], i, p);
      if !Unhandled(c.requests[i]) { DoneStaysDone(c, es[0], i, p); }
    }
  }

  /** Refresh `p` is still out, and in the end its outcome is that the request goes out again. */
  lemma {:induction false} FromPosted(c: Client, es: seq<Event>, i: nat, p: nat)
    requires Inv(c) && Waits(c, i, p) && c.exchanges[p].Posted? && InTasks(c, es)
    requires i < |Exec(c, es).requests| && Exec(c, es).requests[i].phase == Resolved(true)
    ensures FirstReply(es, p).Some? && Brought(Exec(c, es), p, FirstReply(es, p).value)
    decreases |es|
  {
    RunWaits(c, es, i, p);
    hide Inv, Step, Brought, Drained, HasAccess;
    if es != [] {
      var e, c' := es[0], Step(c, es[0]);
      StepWaits(c, e, i, p);
      StepKeeps(c, e);
      if e.Deliver? && e.p == p {
        assert Brings(c, es, p);
        DeliveryBrings(c, p, e.reply);
        assert c' == OnDeliver(c, p, e.reply) by { StepDelivers(c, p, e.reply); }
        TaskKeepsTokens(c', es[1..], i, p, e.reply);
      } else {
        FromPosted(c', es[1..], i, p);
      }
    }
  }

  lemma StepDelivers(c: Client, p: nat, reply: Reply)
    ensures Step(c, Deliver(p, reply)) == OnDeliver(c, p, reply)
  {
  }

  /**
   In a browser, when a request is about to go out again, the tokens stored are those that the refresh it waited for
   has brought, whatever else went on meanwhile.
   */
  lemma RetryCarriesTheNewToken(c: Client, i: nat, es: seq<Event>)
    requires Inv(c) && Drained(c)
    requires i < |c.requests| && c.requests[i].phase.InFlight? && Curable(c.requests[i], 401)
    requires var c' := OnRespond(c, i, 401);
      InTasks(c', es) && i < |Exec(c', es).requests| && Exec(c', es).requests[i].phase == Resolved(true)
    ensures var d := Exec(OnRespond(c, i, 401), es);
      var reply := FirstReply(es, if c.promise.Some? then c.promise.value else i);
      && reply.Some? && HasAccess(reply.value) && d.access == reply.value.access
      && (reply.value.refresh.Some? ==> d.refresh == reply.value.refresh)
  {
    var c', p := OnRespond(c, i, 401), if c.promise.Some? then c.promise.value else i;
    RespondKeeps(c, i, 401);
    ResponseAnswer(c, i, 401);
    assert RequestOk(c, i);
    assert Waits(c', i, p) && c'.exchanges[p].Posted? by {
      if c.promise.Some? { assert RequestOk(c, p); }
    }
    hide Inv, Step, Curable, RequestOk, IsAuthEndpoint, Drained;
    FromPosted(c', es, i, p);
  }
}
