/**
 The browser's API client: any number of requests in flight, at most one token refresh shared by all
 of them, and one retry each. A step is what runs between two awaits, so steps of different requests
 interleave freely. A promise is named by the request whose handler created it.
 */
module ApiClient {
  import opened Common

  datatype Phase =
    | InFlight
    | Awaiting(promise: nat, owner: bool)  // a 401 was met; waiting for that refresh
    | Resolved(ok: bool)                   // the refresh is over; the handler has yet to act on it
    | Done

  datatype Request = Request(url: string, phase: Phase, retried: bool, sends: nat)

  /** What the refresh endpoint sent back; JavaScript's missing or empty fields are None. */
  datatype Reply = Tokens(access: Option<string>, refresh: Option<string>) | Failed

  datatype Exchange = Posted | Settled(ok: bool)

  datatype Client = Client(
    promise: Option<nat>,
    access: Option<string>,
    refresh: Option<string>,
    requests: seq<Request>,
    exchanges: map<nat, Exchange>)

  datatype Event =
    | Send(url: string)
    | Respond(i: nat, status: nat)
    | Deliver(p: nat, reply: Reply)
    | Wake(i: nat)
    | Continue(i: nat)

  predicate IsAuthEndpoint(url: string) {
    || Contains(url, "/auth/login")
    || Contains(url, "/auth/register")
    || Contains(url, "/auth/refresh")
    || Contains(url, "/auth/logout")
    || Contains(url, "/auth/oauth/google")
  }

  function Cleared(c: Client): Client {
    c.(access := None, refresh := None)
  }

  function WithTokens(c: Client, reply: Reply): Client {
    match reply
    case Failed => c
    case Tokens(a, r) => c.(access := if a.Some? then a else c.access, refresh := if r.Some? then r else c.refresh)
  }

  function SetRequest(c: Client, i: nat, r: Request): Client
    requires i < |c.requests|
  {
    c.(requests := c.requests[i := r])
  }

  function OnSend(c: Client, url: string): Client {
    c.(requests := c.requests + [Request(url, InFlight, false, 1)])
  }

  /** The response interceptor, up to its first await. */
  function OnRespond(c: Client, i: nat, status: nat): Client {
    if i >= |c.requests| || !c.requests[i].phase.InFlight? then c
    else
      var r := c.requests[i];
      if status != 401 then SetRequest(c, i, r.(phase := Done))
      else if r.retried then Cleared(SetRequest(c, i, r.(phase := Done)))
      else if IsAuthEndpoint(r.url) then SetRequest(c, i, r.(phase := Done))
      else if c.promise.Some? then SetRequest(c, i, r.(retried := true, phase := Awaiting(c.promise.value, false)))
      else
        SetRequest(c, i, r.(retried := true, phase := Awaiting(i, true))).(
          promise := Some(i), exchanges := c.exchanges[i := Posted])
  }

  /** The refresh response arrives: tokens are stored first, then the access token is demanded. */
  function OnDeliver(c: Client, p: nat, reply: Reply): Client {
    if p !in c.exchanges || !c.exchanges[p].Posted? then c
    else WithTokens(c, reply).(exchanges := c.exchanges[p := Settled(reply.Tokens? && reply.access.Some?)])
  }

  /** The awaited promise has settled; its owner's `finally` clears the shared variable. */
  function OnWake(c: Client, i: nat): Client {
    if i >= |c.requests| || !c.requests[i].phase.Awaiting? then c
    else
      var r := c.requests[i];
      if r.phase.promise !in c.exchanges || !c.exchanges[r.phase.promise].Settled? then c
      else
        SetRequest(c, i, r.(phase := Resolved(c.exchanges[r.phase.promise].ok))).(
          promise := if r.phase.owner then None else c.promise)
  }

  /** The handler retries the request, or gives up and forgets the tokens. */
  function OnContinue(c: Client, i: nat): Client {
    if i >= |c.requests| || !c.requests[i].phase.Resolved? then c
    else
      var r := c.requests[i];
      if r.phase.ok then SetRequest(c, i, r.(phase := InFlight, sends := r.sends + 1))
      else Cleared(SetRequest(c, i, r.(phase := Done)))
  }

  function Step(c: Client, e: Event): Client {
    match e
    case Send(url) => OnSend(c, url)
    case Respond(i, status) => OnRespond(c, i, status)
    case Deliver(p, reply) => OnDeliver(c, p, reply)
    case Wake(i) => OnWake(c, i)
    case Continue(i) => OnContinue(c, i)
  }

  ghost function Exec(c: Client, es: seq<Event>): Client
    decreases |es|
  {
    if es == [] then c else Exec(Step(c, es[0]), es[1..])
  }

  /* ---- the protocol's invariant ---- */

  ghost predicate RequestOk(c: Client, i: nat)
    requires i < |c.requests|
  {
    var r := c.requests[i];
    && (r.retried ==> !IsAuthEndpoint(r.url))
    && (r.sends == 1 || (r.sends == 2 && r.retried && !r.phase.Awaiting? && !r.phase.Resolved?))
    && (r.phase.InFlight? ==> (r.retried <==> r.sends == 2))
    && (r.phase.Resolved? ==> r.retried)
    && (r.phase.Awaiting? ==>
      && r.retried
      && r.phase.promise in c.exchanges
      && (r.phase.owner <==> r.phase.promise == i)
      && (r.phase.owner ==> c.promise == Some(i)))
  }

  ghost predicate Inv(c: Client) {
    && (forall i :: 0 <= i < |c.requests| ==> RequestOk(c, i))
    && (forall p :: p in c.exchanges ==> p < |c.requests| && c.requests[p].retried)
    && (forall p :: p in c.exchanges && c.exchanges[p].Posted? ==> c.promise == Some(p))
    && (c.promise.Some? ==>
      c.promise.value < |c.requests| && c.requests[c.promise.value].phase == Awaiting(c.promise.value, true))
  }

  lemma InitInv(access: Option<string>, refresh: Option<string>)
    ensures Inv(Client(None, access, refresh, [], map[]))
  {
  }

  lemma SendKeeps(c: Client, url: string)
    requires Inv(c)
    ensures Inv(OnSend(c, url))
  {
    forall i | 0 <= i < |c.requests| ensures RequestOk(OnSend(c, url), i) { assert RequestOk(c, i); }
  }

  lemma RespondKeeps(c: Client, i: nat, status: nat)
    requires Inv(c)
    ensures Inv(OnRespond(c, i, status))
  {
    hide IsAuthEndpoint, Contains;
    assert c.promise.Some? ==> RequestOk(c, c.promise.value);
    forall j | 0 <= j < |c.requests| ensures RequestOk(OnRespond(c, i, status), j) { assert RequestOk(c, j); }
  }

  lemma DeliverKeeps(c: Client, p: nat, reply: Reply)
    requires Inv(c)
    ensures Inv(OnDeliver(c, p, reply))
  {
    forall j | 0 <= j < |c.requests| ensures RequestOk(OnDeliver(c, p, reply), j) { assert RequestOk(c, j); }
  }

  lemma WakeKeeps(c: Client, i: nat)
    requires Inv(c)
    ensures Inv(OnWake(c, i))
  {
    assert i < |c.requests| ==> RequestOk(c, i);
    forall j | 0 <= j < |c.requests| ensures RequestOk(OnWake(c, i), j) { assert RequestOk(c, j); }
  }

  lemma ContinueKeeps(c: Client, i: nat)
    requires Inv(c)
    ensures Inv(OnContinue(c, i))
  {
    forall j | 0 <= j < |c.requests| ensures RequestOk(OnContinue(c, i), j) { assert RequestOk(c, j); }
  }

  lemma StepKeeps(c: Client, e: Event)
    requires Inv(c)
    ensures Inv(Step(c, e))
  {
    match e {
      case Send(url) => SendKeeps(c, url);
      case Respond(i, status) => RespondKeeps(c, i, status);
      case Deliver(p, reply) => DeliverKeeps(c, p, reply);
      case Wake(i) => WakeKeeps(c, i);
      case Continue(i) => ContinueKeeps(c, i);
    }
  }

  lemma {:induction false} RunKeeps(c: Client, es: seq<Event>)
    requires Inv(c)
    ensures Inv(Exec(c, es))
    decreases |es|
  {
    if es != [] {
      StepKeeps(c, es[0]);
      RunKeeps(Step(c, es[0]), es[1..]);
    }
  }

  /**
   In every reachable state: one refresh at most is in flight and it is the shared one; no request
   was sent more than twice; an authentication endpoint was sent once and never started a refresh.
   */
  lemma SingleFlight(c: Client, es: seq<Event>, p: nat, q: nat, i: nat)
    requires Inv(c)
    ensures var c' := Exec(c, es);
      && (p in c'.exchanges && q in c'.exchanges && c'.exchanges[p].Posted? && c'.exchanges[q].Posted? ==> p == q)
      && (i < |c'.requests| ==> 1 <= c'.requests[i].sends <= 2)
      && (i < |c'.requests| && IsAuthEndpoint(c'.requests[i].url) ==> c'.requests[i].sends == 1 && i !in c'.exchanges)
  {
    RunKeeps(c, es);
    assert i < |Exec(c, es).requests| ==> RequestOk(Exec(c, es), i);
  }

  /** The shared promise is set only when empty, and emptied only by the request that set it, once it has settled. */
  lemma OnlyTheOwnerClears(c: Client, e: Event)
    requires Inv(c) && Step(c, e).promise != c.promise
    ensures match c.promise
      case None => e.Respond? && Step(c, e).promise == Some(e.i)
      case Some(p) => e == Wake(p) && Step(c, e).promise == None && p in c.exchanges && c.exchanges[p].Settled?
  {
    if e.Wake? && e.i < |c.requests| { assert RequestOk(c, e.i); }
  }

  /** No continuation is due: whatever settled has been acted on. */
  ghost predicate Drained(c: Client) {
    forall i :: 0 <= i < |c.requests| ==>
      && !c.requests[i].phase.Resolved?
      && (c.requests[i].phase.Awaiting? ==>
        c.requests[i].phase.promise in c.exchanges ==> c.exchanges[c.requests[i].phase.promise].Posted?)
  }

  /* ---- bounded work ---- */

  function Weight(c: Client, i: nat): nat
    requires i < |c.requests|
  {
    var r := c.requests[i];
    (match r.phase
     case InFlight => if r.retried then 1 else 6
     case Awaiting(_, _) => 4
     case Resolved(_) => 3
     case Done => 0)
    + (if i in c.exchanges && c.exchanges[i].Posted? then 1 else 0)
  }

  function WorkUpTo(c: Client, n: nat): nat
    requires n <= |c.requests|
  {
    if n == 0 then 0 else WorkUpTo(c, n - 1) + Weight(c, n - 1)
  }

  function Work(c: Client): nat {
    WorkUpTo(c, |c.requests|)
  }

  lemma {:induction false} WorkMoves(c: Client, d: Client, n: nat, i: nat)
    requires n <= |c.requests| && n <= |d.requests| && i < |c.requests| && i < |d.requests|
    requires forall j :: 0 <= j < n && j != i ==> Weight(c, j) == Weight(d, j)
    ensures WorkUpTo(d, n) == WorkUpTo(c, n) + (if i < n then Weight(d, i) - Weight(c, i) else 0)
  {
    if n > 0 { WorkMoves(c, d, n - 1, i); }
  }

  lemma RespondUsesWork(c: Client, i: nat, status: nat)
    requires Inv(c)
    ensures var d := OnRespond(c, i, status); |d.requests| == |c.requests| && (d == c || Work(d) < Work(c))
  {
    var d := OnRespond(c, i, status);
    if d != c {
      assert RequestOk(c, i);
      WorkMoves(c, d, |c.requests|, i);
    }
  }

  lemma DeliverUsesWork(c: Client, p: nat, reply: Reply)
    requires Inv(c)
    ensures var d := OnDeliver(c, p, reply); |d.requests| == |c.requests| && (d == c || Work(d) < Work(c))
  {
    var d := OnDeliver(c, p, reply);
    if p in c.exchanges && c.exchanges[p].Posted? {
      WorkMoves(c, d, |c.requests|, p);
    }
  }

  lemma WakeUsesWork(c: Client, i: nat)
    requires Inv(c)
    ensures var d := OnWake(c, i); |d.requests| == |c.requests| && (d == c || Work(d) < Work(c))
  {
    var d := OnWake(c, i);
    if d != c {
      WorkMoves(c, d, |c.requests|, i);
    }
  }

  lemma ContinueUsesWork(c: Client, i: nat)
    requires Inv(c)
    ensures var d := OnContinue(c, i); |d.requests| == |c.requests| && (d == c || Work(d) < Work(c))
  {
    var d := OnContinue(c, i);
    if d != c {
      assert RequestOk(c, i);
      WorkMoves(c, d, |c.requests|, i);
    }
  }

  /** Every step that changes anything uses up work; only a new request brings some. */
  lemma StepUsesWork(c: Client, e: Event)
    requires Inv(c)
    ensures e.Send? ==> Work(Step(c, e)) == Work(c) + 6 && |Step(c, e).requests| == |c.requests| + 1
    ensures !e.Send? ==> |Step(c, e).requests| == |c.requests| && (Step(c, e) == c || Work(Step(c, e)) < Work(c))
  {
    match e {
      case Send(url) => SameWork(c, Step(c, e), |c.requests|);
      case Respond(i, status) => RespondUsesWork(c, i, status);
      case Deliver(p, reply) => DeliverUsesWork(c, p, reply);
      case Wake(i) => WakeUsesWork(c, i);
      case Continue(i) => ContinueUsesWork(c, i);
    }
  }

  lemma {:induction false} SameWork(c: Client, d: Client, n: nat)
    requires n <= |c.requests| && n <= |d.requests|
    requires forall j :: 0 <= j < n ==> Weight(c, j) == Weight(d, j)
    ensures WorkUpTo(d, n) == WorkUpTo(c, n)
  {
    if n > 0 { SameWork(c, d, n - 1); }
  }

  ghost function Changes(c: Client, es: seq<Event>): nat
    decreases |es|
  {
    if es == [] then 0
    else (if !es[0].Send? && Step(c, es[0]) != c then 1 else 0) + Changes(Step(c, es[0]), es[1..])
  }

  /** A run changes the client at most six times for each request made, whatever the server does. */
  lemma {:induction false} WorkIsBounded(c: Client, es: seq<Event>)
    requires Inv(c)
    ensures |c.requests| <= |Exec(c, es).requests|
    ensures Changes(c, es) + Work(Exec(c, es)) <= Work(c) + 6 * (|Exec(c, es).requests| - |c.requests|)
    decreases |es|
  {
    if es != [] {
      StepKeeps(c, es[0]);
      StepUsesWork(c, es[0]);
      WorkIsBounded(Step(c, es[0]), es[1..]);
    }
  }

  /** No request hangs: until it is done, some event still moves it or the refresh it waits for. */
  lemma NoRequestIsStuck(c: Client, i: nat)
    requires Inv(c) && i < |c.requests| && !c.requests[i].phase.Done?
    ensures exists e: Event :: !e.Send? && Step(c, e) != c
  {
    assert RequestOk(c, i);
    var r := c.requests[i];
    match r.phase {
      case InFlight =>
        assert Step(c, Respond(i, 200)).requests[i].phase == Done;
      case Awaiting(p, _) =>
        if c.exchanges[p].Posted? {
          assert Step(c, Deliver(p, Failed)).exchanges[p] == Settled(false);
        } else {
          assert Step(c, Wake(i)).requests[i].phase.Resolved?;
        }
      case Resolved(_) =>
        assert Step(c, Continue(i)).requests[i].phase != r.phase;
    }
  }

  /** The module's variables as they are, updated in place. */
  class Session {
    var refreshPromise: Option<nat>
    var accessToken: Option<string>
    var refreshToken: Option<string>
    var requests: seq<Request>
    var exchanges: map<nat, Exchange>

    function Snapshot(): Client
      reads this
    {
      Client(refreshPromise, accessToken, refreshToken, requests, exchanges)
    }

    /** The protocol's invariant, on the variables as they are between two handlers. */
    ghost predicate Valid()
      reads this
    {
      Inv(Snapshot())
    }

    constructor (access: Option<string>, refresh: Option<string>)
      ensures Snapshot() == Client(None, access, refresh, [], map[]) && Valid()
    {
      refreshPromise, accessToken, refreshToken, requests, exchanges := None, access, refresh, [], map[];
    }

    method ClearAuthStorage()
      modifies this`accessToken, this`refreshToken
      ensures Snapshot() == Cleared(old(Snapshot()))
    {
      accessToken := None;
      refreshToken := None;
    }

    method SetTokensFromResponse(reply: Reply)
      modifies this`accessToken, this`refreshToken
      ensures Snapshot() == WithTokens(old(Snapshot()), reply)
    {
      if reply.Tokens? {
        if reply.access.Some? { accessToken := reply.access; }
        if reply.refresh.Some? { refreshToken := reply.refresh; }
      }
    }

    /** Join the refresh in flight, or start one; returns the promise and whether it is the caller's own. */
    method RefreshSingleFlight(i: nat) returns (p: nat, owner: bool)
      modifies this`refreshPromise, this`exchanges
      ensures old(refreshPromise).Some? ==>
        p == old(refreshPromise).value && !owner && refreshPromise == old(refreshPromise) && exchanges == old(exchanges)
      ensures old(refreshPromise).None? ==>
        p == i && owner && refreshPromise == Some(i) && exchanges == old(exchanges)[i := Posted]
    {
      if refreshPromise.Some? {
        return refreshPromise.value, false;
      }
      refreshPromise := Some(i);
      exchanges := exchanges[i := Posted];
      return i, true;
    }

    method SendRequest(url: string)
      modifies this`requests
      ensures Snapshot() == OnSend(old(Snapshot()), url)
      ensures old(Valid()) ==> Valid()
    {
      if Valid() { SendKeeps(Snapshot(), url); }
      hide Inv;
      requests := requests + [Request(url, InFlight, false, 1)];
    }

    method HandleResponse(i: nat, status: nat)
      requires i < |requests| && requests[i].phase.InFlight?
      modifies this
      ensures Snapshot() == OnRespond(old(Snapshot()), i, status)
      ensures old(Valid()) ==> Valid()
    {
      if Valid() { RespondKeeps(Snapshot(), i, status); }
      hide Inv;
      if status != 401 {
        requests := requests[i := requests[i].(phase := Done)];
        return;
      }
      if requests[i].retried {
        ClearAuthStorage();
        requests := requests[i := requests[i].(phase := Done)];
        return;
      }
      if IsAuthEndpoint(requests[i].url) {
        requests := requests[i := requests[i].(phase := Done)];
        return;
      }
      requests := requests[i := requests[i].(retried := true)];
      var p, owner := RefreshSingleFlight(i);
      requests := requests[i := requests[i].(phase := Awaiting(p, owner))];
    }

    method HandleRefreshReply(p: nat, reply: Reply)
      requires p in exchanges && exchanges[p].Posted?
      modifies this
      ensures Snapshot() == OnDeliver(old(Snapshot()), p, reply)
      ensures old(Valid()) ==> Valid()
    {
      if Valid() { DeliverKeeps(Snapshot(), p, reply); }
      hide Inv;
      SetTokensFromResponse(reply);
      exchanges := exchanges[p := Settled(reply.Tokens? && reply.access.Some?)];
    }

    method FinishAwait(i: nat)
      requires i < |requests| && requests[i].phase.Awaiting?
      requires requests[i].phase.promise in exchanges && exchanges[requests[i].phase.promise].Settled?
      modifies this
      ensures Snapshot() == OnWake(old(Snapshot()), i)
      ensures old(Valid()) ==> Valid()
    {
      if Valid() { WakeKeeps(Snapshot(), i); }
      hide Inv;
      var phase := requests[i].phase;
      if phase.owner {
        refreshPromise := None;
      }
      requests := requests[i := requests[i].(phase := Resolved(exchanges[phase.promise].ok))];
    }

    method RetryOrGiveUp(i: nat)
      requires i < |requests| && requests[i].phase.Resolved?
      modifies this
      ensures Snapshot() == OnContinue(old(Snapshot()), i)
      ensures old(Valid()) ==> Valid()
    {
      if Valid() { ContinueKeeps(Snapshot(), i); }
      hide Inv;
      if requests[i].phase.ok {
        requests := requests[i := requests[i].(phase := InFlight, sends := requests[i].sends + 1)];
      } else {
        ClearAuthStorage();
        requests := requests[i := requests[i].(phase := Done)];
      }
    }
  }
}
