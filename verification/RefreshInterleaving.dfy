/**
 Token rotation as the database sees it: find, create and revoke are three separate statements, and
 any number of refresh calls interleave them with one another, with sign-ins and with revocations.
 A call that fails half-way is one that takes no further action.
 */
module RefreshInterleaving {
  import opened Common
  import opened AuthTables

  datatype Call = Found(source: nat) | Created(source: nat, successor: nat)

  datatype Sys = Sys(db: Db, family: seq<nat>, calls: map<nat, Call>, now: int)

  datatype Action =
    | Find(call: nat, presented: string)
    | Create(call: nat, raw: string, ttlDays: int)
    | Finish(call: nat)
    | SignIn(user: nat, raw: string, ttlDays: int)
    | RevokeOne(id: nat)
    | RevokeMany(user: nat, keep: Option<nat>)
    | Wait(seconds: nat)

  /** The checks of the find statement's result: known, unrevoked, unexpired, of an existing user. */
  function Acceptable(db: Db, presented: string, now: int): (r: Option<nat>)
    ensures r.Some? ==>
      && r.value < |db.refresh|
      && Live(db.refresh[r.value], now)
      && db.refresh[r.value].user < |db.users|
  {
    match FindRefresh(db.refresh, Sha(presented))
    case None => None
    case Some(id) =>
      if presented != "" && Live(db.refresh[id], now) && db.refresh[id].user < |db.users| then Some(id) else None
  }

  function Do(s: Sys, a: Action): Sys {
    match a
    case Find(c, presented) =>
      var id := Acceptable(s.db, presented, s.now);
      if c in s.calls || id.None? then s else s.(calls := s.calls[c := Found(id.value)])
    case Create(c, raw, ttl) =>
      if c !in s.calls || !s.calls[c].Found? then s
      else if s.calls[c].source >= |s.db.refresh| || s.calls[c].source >= |s.family| then s
      else
        var id := s.calls[c].source;
        s.(db := s.db.(refresh := Issue(s.db.refresh, s.db.refresh[id].user, raw, ttl, s.now)),
           family := s.family + [s.family[id]],
           calls := s.calls[c := Created(id, |s.db.refresh|)])
    case Finish(c) =>
      if c !in s.calls || !s.calls[c].Created? || s.calls[c].source >= |s.db.refresh| then s
      else
        var rows := Revoke(s.db.refresh, s.calls[c].source, Some(s.calls[c].successor), s.now);
        s.(db := s.db.(refresh := rows), calls := s.calls - {c})
    case SignIn(user, raw, ttl) =>
      if user >= |s.db.users| then s
      else s.(db := s.db.(refresh := Issue(s.db.refresh, user, raw, ttl, s.now)), family := s.family + [|s.db.refresh|])
    case RevokeOne(id) =>
      if id >= |s.db.refresh| then s else s.(db := s.db.(refresh := Revoke(s.db.refresh, id, None, s.now)))
    case RevokeMany(user, keep) =>
      s.(db := s.db.(refresh := RevokeAll(s.db.refresh, user, keep, s.now)))
    case Wait(n) => s.(now := s.now + n)
  }

  ghost function Exec(s: Sys, acts: seq<Action>): Sys
    decreases |acts|
  {
    if acts == [] then s else Exec(Do(s, acts[0]), acts[1..])
  }

  /** Run without interruption, the three actions are exactly one atomic refresh. */
  lemma ThreeActionsAreOneRefresh(s: Sys, c: nat, presented: string, raw: string, ttl: int)
    requires c !in s.calls && |s.family| == |s.db.refresh|
    ensures var s' := Do(Do(Do(s, Find(c, presented)), Create(c, raw, ttl)), Finish(c));
      s'.db == RefreshTokens(s.db, presented, raw, ttl, s.now).0 && s'.calls == s.calls
  {
    if Acceptable(s.db, presented, s.now).Some? {
      assert s.calls[c := Found(0)] - {c} == s.calls;
    }
  }

  /* ---- replacement links, under every interleaving ---- */

  ghost predicate LinkOk(rows: seq<RefreshRow>, i: nat, j: nat)
    requires i < |rows|
  {
    i < j < |rows| && rows[j].user == rows[i].user && rows[i].createdAt <= rows[j].createdAt
  }

  ghost predicate RowLinks(rows: seq<RefreshRow>, now: int) {
    && (forall i :: 0 <= i < |rows| ==> rows[i].createdAt <= now)
    && (forall i :: 0 <= i < |rows| && rows[i].replacedBy.Some? ==>
          rows[i].revokedAt.Some? && LinkOk(rows, i, rows[i].replacedBy.value))
    && (forall i, j :: 0 <= i < j < |rows| && rows[i].replacedBy.Some? ==> rows[i].replacedBy != rows[j].replacedBy)
  }

  ghost predicate CallLinks(rows: seq<RefreshRow>, family: seq<nat>, calls: map<nat, Call>) {
    && |family| == |rows|
    && (forall i :: 0 <= i < |rows| ==> family[i] <= i && rows[i].user == rows[family[i]].user)
    && (forall c :: c in calls ==>
          calls[c].source < |rows| && (calls[c].Created? ==> Unclaimed(rows, family, calls[c])))
    && (forall c, d :: c in calls && d in calls && c != d && calls[c].Created? && calls[d].Created? ==>
          calls[c].successor != calls[d].successor)
  }

  /** A successor that was created but is not yet anybody's replacement. */
  ghost predicate Unclaimed(rows: seq<RefreshRow>, family: seq<nat>, call: Call)
    requires call.Created? && call.source < |rows| && |family| == |rows|
  {
    && LinkOk(rows, call.source, call.successor)
    && family[call.successor] == family[call.source]
    && forall i :: 0 <= i < |rows| ==> rows[i].replacedBy != Some(call.successor)
  }

  ghost predicate Links(s: Sys) {
    RowLinks(s.db.refresh, s.now) && CallLinks(s.db.refresh, s.family, s.calls)
  }

  lemma IssueKeepsLinks(rows: seq<RefreshRow>, family: seq<nat>, calls: map<nat, Call>, now: int,
                        user: nat, raw: string, ttl: int, f: nat)
    requires RowLinks(rows, now) && CallLinks(rows, family, calls)
    requires f == |rows| || (f < |rows| && rows[f].user == user)
    ensures RowLinks(Issue(rows, user, raw, ttl, now), now)
    ensures CallLinks(Issue(rows, user, raw, ttl, now), family + [f], calls)
  {
    var rows' := Issue(rows, user, raw, ttl, now);
    forall c | c in calls && calls[c].Created? ensures Unclaimed(rows', family + [f], calls[c]) {
      assert Unclaimed(rows, family, calls[c]);
    }
  }

  lemma RevokeAllKeepsLinks(rows: seq<RefreshRow>, family: seq<nat>, calls: map<nat, Call>, now: int,
                            user: nat, keep: Option<nat>)
    requires RowLinks(rows, now) && CallLinks(rows, family, calls)
    ensures RowLinks(RevokeAll(rows, user, keep, now), now)
    ensures CallLinks(RevokeAll(rows, user, keep, now), family, calls)
  {
    var rows' := RevokeAll(rows, user, keep, now);
    forall c | c in calls && calls[c].Created? ensures Unclaimed(rows', family, calls[c]) {
      assert Unclaimed(rows, family, calls[c]);
    }
  }

  lemma RevokeOneKeepsLinks(rows: seq<RefreshRow>, family: seq<nat>, calls: map<nat, Call>, now: int, id: nat)
    requires RowLinks(rows, now) && CallLinks(rows, family, calls) && id < |rows|
    ensures RowLinks(Revoke(rows, id, None, now), now)
    ensures CallLinks(Revoke(rows, id, None, now), family, calls)
  {
    var rows' := Revoke(rows, id, None, now);
    forall c | c in calls && calls[c].Created? ensures Unclaimed(rows', family, calls[c]) {
      assert Unclaimed(rows, family, calls[c]);
    }
  }

  /** The last statement of a refresh hands its unclaimed successor to the old row. */
  lemma FinishKeepsLinks(rows: seq<RefreshRow>, family: seq<nat>, calls: map<nat, Call>, now: int, c: nat)
    requires RowLinks(rows, now) && CallLinks(rows, family, calls) && c in calls && calls[c].Created?
    ensures RowLinks(Revoke(rows, calls[c].source, Some(calls[c].successor), now), now)
    ensures CallLinks(Revoke(rows, calls[c].source, Some(calls[c].successor), now), family, calls - {c})
  {
    var rows' := Revoke(rows, calls[c].source, Some(calls[c].successor), now);
    assert Unclaimed(rows, family, calls[c]);
    forall d | d in calls && d != c && calls[d].Created? ensures Unclaimed(rows', family, calls[d]) {
      assert Unclaimed(rows, family, calls[d]);
    }
  }

  /** Before the first sign-in there is nothing to link. */
  lemma InitLinks(users: seq<User>, oneTime: seq<OneTimeRow>, oauth: seq<OAuthRow>, now: int)
    ensures var s := Sys(Db(users, [], oneTime, oauth), [], map[], now); Links(s) && OneHeir(s)
  {
  }

  lemma ActionKeepsLinks(s: Sys, a: Action)
    requires Links(s)
    ensures Links(Do(s, a))
  {
    match a {
      case Create(c, raw, ttl) =>
        if Do(s, a) != s {
          var id := s.calls[c].source;
          IssueKeepsLinks(s.db.refresh, s.family, s.calls, s.now, s.db.refresh[id].user, raw, ttl, s.family[id]);
          assert Unclaimed(Do(s, a).db.refresh, Do(s, a).family, Created(id, |s.db.refresh|));
        }
      case SignIn(user, raw, ttl) =>
        IssueKeepsLinks(s.db.refresh, s.family, s.calls, s.now, user, raw, ttl, |s.db.refresh|);
      case Finish(c) =>
        if Do(s, a) != s { FinishKeepsLinks(s.db.refresh, s.family, s.calls, s.now, c); }
      case RevokeOne(id) =>
        if id < |s.db.refresh| { RevokeOneKeepsLinks(s.db.refresh, s.family, s.calls, s.now, id); }
      case RevokeMany(user, keep) =>
        RevokeAllKeepsLinks(s.db.refresh, s.family, s.calls, s.now, user, keep);
      case _ =>
    }
  }

  /**
   In every reachable state a token with a replacement is revoked, and its replacement exists, is of
   the same user, was created later and replaces nothing else.
   */
  lemma {:induction false} RunKeepsLinks(s: Sys, acts: seq<Action>)
    requires Links(s)
    ensures Links(Exec(s, acts))
    decreases |acts|
  {
    if acts != [] {
      ActionKeepsLinks(s, acts[0]);
      RunKeepsLinks(Do(s, acts[0]), acts[1..]);
    }
  }

  /** The token reached by following `n` replacement links. */
  ghost function Follow(rows: seq<RefreshRow>, i: nat, n: nat): Option<nat>
    decreases n
  {
    if i >= |rows| then None
    else if n == 0 then Some(i)
    else match rows[i].replacedBy case None => None case Some(j) => Follow(rows, j, n - 1)
  }

  /** The links are acyclic: following any positive number of them leads strictly forward. */
  lemma {:induction false} LinksAcyclic(s: Sys, i: nat, n: nat)
    requires Links(s) && Follow(s.db.refresh, i, n).Some?
    ensures i + n <= Follow(s.db.refresh, i, n).value < |s.db.refresh|
    decreases n
  {
    if n > 0 {
      LinksAcyclic(s, s.db.refresh[i].replacedBy.value, n - 1);
    }
  }

  /* ---- one live token per login, and what it takes ---- */

  /** An unrevoked token that no call is rotating. */
  ghost predicate Idle(s: Sys, id: nat) {
    && id < |s.db.refresh|
    && s.db.refresh[id].revokedAt.None?
    && forall c :: c in s.calls ==> s.calls[c].source != id
  }

  /** A call that has yet to create a token for this login. */
  ghost predicate Promises(s: Sys, c: nat, login: nat) {
    c in s.calls && s.calls[c].Found? && s.calls[c].source < |s.family| && s.family[s.calls[c].source] == login
  }

  /** What a login's live tokens will be once its calls are done: its idle tokens, and one for each promise. */
  ghost predicate HasHeir(s: Sys, login: nat) {
    (exists i: nat :: Idle(s, i) && i < |s.family| && s.family[i] == login) || exists c :: Promises(s, c, login)
  }

  /** No login has two heirs. */
  ghost predicate OneHeir(s: Sys) {
    && |s.family| == |s.db.refresh|
    && (forall i, j :: 0 <= i < j < |s.db.refresh| && s.family[i] == s.family[j] ==> !(Idle(s, i) && Idle(s, j)))
    && (forall c, i :: 0 <= i < |s.db.refresh| && Promises(s, c, s.family[i]) ==> !Idle(s, i))
    && (forall c, d, login :: c != d && Promises(s, c, login) ==> !Promises(s, d, login))
  }

  /** The token that a find statement hands to its call. */
  ghost predicate Takes(s: Sys, a: Action, id: nat) {
    a.Find? && a.call !in s.calls && Acceptable(s.db, a.presented, s.now) == Some(id)
  }

  /** The find takes a token whose login has another heir: some call is already seeing to the login's next token. */
  ghost predicate Overlaps(s: Sys, a: Action)
    requires |s.family| == |s.db.refresh|
  {
    exists id: nat :: Takes(s, a, id) &&
      ((exists c :: Promises(s, c, s.family[id])) ||
       exists i: nat :: Idle(s, i) && i != id && s.family[i] == s.family[id])
  }

  ghost predicate NoOverlap(s: Sys, acts: seq<Action>)
    decreases |acts|
  {
    |s.family| == |s.db.refresh| && (acts == [] || (!Overlaps(s, acts[0]) && NoOverlap(Do(s, acts[0]), acts[1..])))
  }

  lemma FindKeepsHeir(s: Sys, a: Action)
    requires Links(s) && OneHeir(s) && !Overlaps(s, a) && a.Find?
    ensures OneHeir(Do(s, a))
  {
    var s' := Do(s, a);
    if s' != s {
      var x := Acceptable(s.db, a.presented, s.now).value;
      assert Takes(s, a, x);
      assert forall i :: Idle(s', i) ==> Idle(s, i) && i != x by {
        forall i | Idle(s', i) ensures Idle(s, i) && i != x {
          assert s'.calls[a.call].source == x;
          forall c | c in s.calls ensures s.calls[c].source != i { assert s'.calls[c] == s.calls[c]; }
        }
      }
      assert forall c, login :: Promises(s', c, login) && c != a.call ==> Promises(s, c, login);
    }
  }

  lemma CreateKeepsHeir(s: Sys, a: Action)
    requires Links(s) && OneHeir(s) && a.Create?
    ensures OneHeir(Do(s, a))
  {
    var s' := Do(s, a);
    if s' != s {
      var x, n := s.calls[a.call].source, |s.db.refresh|;
      assert Promises(s, a.call, s.family[x]);
      assert forall i :: Idle(s', i) && i != n ==> Idle(s, i) by {
        forall i | Idle(s', i) && i != n ensures Idle(s, i) {
          forall c | c in s.calls ensures s.calls[c].source != i { assert s'.calls[c].source == s.calls[c].source; }
        }
      }
      assert forall c, login :: Promises(s', c, login) ==> Promises(s, c, login) && c != a.call;
    }
  }

  lemma FinishKeepsHeir(s: Sys, a: Action)
    requires Links(s) && OneHeir(s) && a.Finish?
    ensures OneHeir(Do(s, a))
  {
    var s' := Do(s, a);
    if s' != s {
      assert forall i :: Idle(s', i) ==> Idle(s, i) by {
        forall i | Idle(s', i) ensures Idle(s, i) {
          forall c | c in s.calls ensures s.calls[c].source != i {
            if c != a.call { assert s'.calls[c] == s.calls[c]; }
          }
        }
      }
      assert forall c, login :: Promises(s', c, login) ==> Promises(s, c, login);
    }
  }

  lemma RevokingKeepsHeir(s: Sys, a: Action)
    requires Links(s) && OneHeir(s) && (a.RevokeOne? || a.RevokeMany? || a.Wait?)
    ensures OneHeir(Do(s, a))
  {
    var s' := Do(s, a);
    assert forall i :: Idle(s', i) ==> Idle(s, i);
    assert forall c, login :: Promises(s', c, login) ==> Promises(s, c, login);
  }

  lemma SignInKeepsHeir(s: Sys, a: Action)
    requires Links(s) && OneHeir(s) && a.SignIn?
    ensures OneHeir(Do(s, a))
  {
    var s' := Do(s, a);
    assert forall i: nat :: Idle(s', i) && i < |s.db.refresh| ==> Idle(s, i);
    assert forall c, login: nat :: Promises(s', c, login) ==> Promises(s, c, login) && login < |s.db.refresh|;
  }

  lemma ActionKeepsHeir(s: Sys, a: Action)
    requires Links(s) && OneHeir(s) && !Overlaps(s, a)
    ensures Links(Do(s, a)) && OneHeir(Do(s, a))
  {
    ActionKeepsLinks(s, a);
    match a {
      case Find(_, _) => FindKeepsHeir(s, a);
      case Create(_, _, _) => CreateKeepsHeir(s, a);
      case Finish(_) => FinishKeepsHeir(s, a);
      case SignIn(_, _, _) => SignInKeepsHeir(s, a);
      case _ => RevokingKeepsHeir(s, a);
    }
  }

  lemma {:induction false} RunKeepsHeir(s: Sys, acts: seq<Action>)
    requires Links(s) && OneHeir(s) && NoOverlap(s, acts)
    ensures Links(Exec(s, acts)) && OneHeir(Exec(s, acts))
    decreases |acts|
  {
    hide Links, OneHeir, Do, Overlaps;
    if acts != [] {
      ActionKeepsHeir(s, acts[0]);
      RunKeepsHeir(Do(s, acts[0]), acts[1..]);
    }
  }

  ghost predicate TwoLive(s: Sys, i: nat, j: nat) {
    && |s.family| == |s.db.refresh|
    && i < j < |s.db.refresh| && s.family[i] == s.family[j]
    && s.db.refresh[i].revokedAt.None? && s.db.refresh[j].revokedAt.None?
  }

  /** Without overlap, whenever no call is under way every login has at most one unrevoked token. */
  lemma QuietMeansOneLive(s: Sys, acts: seq<Action>, i: nat, j: nat)
    requires Links(s) && OneHeir(s) && NoOverlap(s, acts)
    requires Exec(s, acts).calls == map[]
    ensures !TwoLive(Exec(s, acts), i, j)
  {
    RunKeepsHeir(s, acts);
    var t := Exec(s, acts);
    if TwoLive(t, i, j) {
      assert Idle(t, i) && Idle(t, j);
    }
  }

  /* ---- letting the calls finish ---- */

  /** Calls that are under way go on; nothing else happens. */
  ghost predicate OnlyFinishes(acts: seq<Action>) {
    forall i :: 0 <= i < |acts| ==> acts[i].Create? || acts[i].Finish?
  }

  /** The secrets drawn for new tokens are non-empty and new. */
  ghost predicate Drawn(s: Sys, acts: seq<Action>)
    decreases |acts|
  {
    acts == [] || (DrawnFor(s, acts[0]) && Drawn(Do(s, acts[0]), acts[1..]))
  }

  ghost predicate DrawnFor(s: Sys, a: Action) {
    a.Create? ==> a.raw != "" && forall i :: 0 <= i < |s.db.refresh| ==> s.db.refresh[i].hash != Sha(a.raw)
  }

  /** The calls under way finish, and that leaves two unrevoked tokens in one login with no call to revoke either. */
  ghost predicate EndsWithTwoLive(s: Sys, es: seq<Action>, i: nat, j: nat) {
    OnlyFinishes(es) && Drawn(s, es) && Exec(s, es).calls == map[] && TwoLive(Exec(s, es), i, j)
  }

  lemma Before(s: Sys, a: Action, es: seq<Action>, i: nat, j: nat)
    requires EndsWithTwoLive(Do(s, a), es, i, j) && (a.Create? || a.Finish?) && DrawnFor(s, a)
    ensures EndsWithTwoLive(s, [a] + es, i, j)
  {
    var acts := [a] + es;
    assert acts[1..] == es;
    hide Do, TwoLive, DrawnFor;
    assert Exec(s, acts) == Exec(Do(s, a), es);
  }

  /** Taking one call to its end. */
  lemma FinishOne(s: Sys, c: nat, raw: string, i: nat, j: nat) returns (acts: seq<Action>)
    requires Links(s) && TwoLive(s, i, j) && Idle(s, i) && Idle(s, j) && c in s.calls
    requires raw != "" && forall k :: 0 <= k < |s.db.refresh| ==> s.db.refresh[k].hash != Sha(raw)
    ensures |acts| <= 1 && (forall k :: 0 <= k < |acts| ==> acts[k].Create? && DrawnFor(s, acts[k]))
    ensures var t := if acts == [] then s else Do(s, acts[0]);
      && Links(t) && TwoLive(t, i, j) && Idle(t, i) && Idle(t, j)
      && c in t.calls && t.calls[c].Created? && t.calls.Keys == s.calls.Keys
  {
    if s.calls[c].Found? {
      acts := [Create(c, raw, 1)];
      CreateMakesIdle(s, c, raw, 1);
    } else {
      acts := [];
    }
  }

  lemma FinishLast(s: Sys, c: nat, i: nat, j: nat)
    requires Links(s) && TwoLive(s, i, j) && Idle(s, i) && Idle(s, j) && c in s.calls && s.calls[c].Created?
    ensures var t := Do(s, Finish(c));
      Links(t) && TwoLive(t, i, j) && Idle(t, i) && Idle(t, j) && t.calls == s.calls - {c}
  {
    ActionKeepsLinks(s, Finish(c));
  }

  lemma {:induction false} FinishAll(s: Sys, i: nat, j: nat) returns (es: seq<Action>)
    requires Links(s) && TwoLive(s, i, j) && Idle(s, i) && Idle(s, j)
    ensures EndsWithTwoLive(s, es, i, j)
    decreases s.calls.Keys
  {
    if s.calls == map[] {
      es := [];
    } else {
      var c :| c in s.calls;
      var raw := FreshSecret(s.db.refresh);
      hide *;
      var acts := FinishOne(s, c, raw, i, j);
      var t := if acts == [] then s else Do(s, acts[0]);
      FinishLast(t, c, i, j);
      es := FinishAll(Do(t, Finish(c)), i, j);
      FinishIsDrawn(t, c);
      Before(t, Finish(c), es, i, j);
      es := [Finish(c)] + es;
      if acts != [] {
        Before(s, acts[0], es, i, j);
        es := [acts[0]] + es;
      }
    }
  }

  lemma FinishIsDrawn(s: Sys, c: nat)
    ensures DrawnFor(s, Finish(c))
  {
  }

  /** A call that creates its token: the login then has that token, idle. */
  lemma CreateMakesIdle(s: Sys, c: nat, raw: string, ttl: int)
    requires Links(s) && c in s.calls && s.calls[c].Found?
    ensures var t, n := Do(s, Create(c, raw, ttl)), |s.db.refresh|;
      && Links(t) && Idle(t, n) && t.family == s.family + [s.family[s.calls[c].source]]
      && t.calls == s.calls[c := Created(s.calls[c].source, n)]
      && forall i :: Idle(s, i) ==> Idle(t, i)
  {
    ActionKeepsLinks(s, Create(c, raw, ttl));
  }

  /** A promise beside an idle token of the same login. */
  lemma FinishBeside(s: Sys, c: nat, y: nat) returns (es: seq<Action>, n: nat)
    requires Links(s) && Idle(s, y) && Promises(s, c, s.family[y])
    ensures EndsWithTwoLive(s, es, y, n)
  {
    n := |s.db.refresh|;
    var raw := FreshSecret(s.db.refresh);
    CreateMakesIdle(s, c, raw, 1);
    hide Links, Idle, Do, Promises;
    es := FinishAll(Do(s, Create(c, raw, 1)), y, n);
    Before(s, Create(c, raw, 1), es, y, n);
    es := [Create(c, raw, 1)] + es;
  }

  /** Two promises of the same login. */
  lemma FinishBoth(s: Sys, c: nat, d: nat, login: nat) returns (es: seq<Action>, i: nat, j: nat)
    requires Links(s) && c != d && Promises(s, c, login) && Promises(s, d, login)
    ensures EndsWithTwoLive(s, es, i, j)
  {
    i := |s.db.refresh|;
    var raw := FreshSecret(s.db.refresh);
    CreateMakesIdle(s, c, raw, 1);
    var t := Do(s, Create(c, raw, 1));
    assert Promises(t, d, t.family[i]);
    hide Links, Idle, Do, Promises;
    es, j := FinishBeside(t, d, i);
    Before(s, Create(c, raw, 1), es, i, j);
    es := [Create(c, raw, 1)] + es;
  }

  /** An overlap is all it takes: once the calls under way have finished, a login has two unrevoked tokens. */
  lemma OverlapLeavesTwoLive(s: Sys, a: Action) returns (es: seq<Action>, i: nat, j: nat)
    requires Links(s) && Overlaps(s, a)
    ensures EndsWithTwoLive(Do(s, a), es, i, j)
  {
    var x: nat :| Takes(s, a, x) &&
      ((exists c :: Promises(s, c, s.family[x])) ||
       exists i: nat :: Idle(s, i) && i != x && s.family[i] == s.family[x]);
    var t := Do(s, a);
    ActionKeepsLinks(s, a);
    assert Promises(t, a.call, s.family[x]);
    if exists c :: Promises(s, c, s.family[x]) {
      var c :| Promises(s, c, s.family[x]);
      assert Promises(t, c, s.family[x]);
      es, i, j := FinishBoth(t, a.call, c, s.family[x]);
    } else {
      var y: nat :| Idle(s, y) && y != x && s.family[y] == s.family[x];
      assert Idle(t, y);
      i := y;
      es, j := FinishBeside(t, a.call, y);
    }
  }

  lemma {:induction false} FinishingOverlapsNothing(s: Sys, es: seq<Action>)
    requires Links(s) && OnlyFinishes(es)
    ensures NoOverlap(s, es)
    decreases |es|
  {
    if es != [] {
      ActionKeepsLinks(s, es[0]);
      assert OnlyFinishes(es[1..]);
      FinishingOverlapsNothing(Do(s, es[0]), es[1..]);
    }
  }

  /** Wherever the run is stopped, letting the calls under way finish leaves every login at most one unrevoked token. */
  ghost predicate SafeThroughout(s: Sys, acts: seq<Action>) {
    forall k: nat, es, i, j :: k <= |acts| ==> !EndsWithTwoLive(Exec(s, acts[..k]), es, i, j)
  }

  lemma {:induction false} NoOverlapPrefix(s: Sys, acts: seq<Action>, k: nat)
    requires NoOverlap(s, acts) && k <= |acts|
    ensures NoOverlap(s, acts[..k])
    decreases k
  {
    hide Do, Overlaps;
    if k > 0 {
      assert acts[..k][1..] == acts[1..][..k - 1];
      NoOverlapPrefix(Do(s, acts[0]), acts[1..], k - 1);
    }
  }

  lemma {:induction false} FirstOverlap(s: Sys, acts: seq<Action>) returns (k: nat)
    requires Links(s) && !NoOverlap(s, acts)
    ensures k < |acts| && Links(Exec(s, acts[..k])) && Overlaps(Exec(s, acts[..k]), acts[k])
    ensures Exec(s, acts[..k + 1]) == Do(Exec(s, acts[..k]), acts[k])
    decreases |acts|
  {
    hide Do, Overlaps;
    if Overlaps(s, acts[0]) {
      k := 0;
      assert acts[..0] == [] && acts[..1][1..] == [];
      assert Exec(Do(s, acts[0]), []) == Do(s, acts[0]);
    } else {
      ActionKeepsLinks(s, acts[0]);
      k := FirstOverlap(Do(s, acts[0]), acts[1..]);
      k := k + 1;
      assert acts[..k][1..] == acts[1..][..k - 1] && acts[..k + 1][1..] == acts[1..][..k];
    }
  }

  /** Overlapping finds are exactly what can leave a login with two live tokens. */
  lemma SafeIffNoOverlap(s: Sys, acts: seq<Action>)
    requires Links(s) && OneHeir(s)
    ensures SafeThroughout(s, acts) <==> NoOverlap(s, acts)
  {
    if NoOverlap(s, acts) {
      forall k: nat, es, i, j | k <= |acts| ensures !EndsWithTwoLive(Exec(s, acts[..k]), es, i, j) {
        NoOverlapPrefix(s, acts, k);
        RunKeepsHeir(s, acts[..k]);
        if EndsWithTwoLive(Exec(s, acts[..k]), es, i, j) {
          FinishingOverlapsNothing(Exec(s, acts[..k]), es);
          QuietMeansOneLive(Exec(s, acts[..k]), es, i, j);
        }
      }
    } else {
      var k := FirstOverlap(s, acts);
      var es, i, j := OverlapLeavesTwoLive(Exec(s, acts[..k]), acts[k]);
      assert EndsWithTwoLive(Exec(s, acts[..k + 1]), es, i, j);
    }
  }

  /* ---- resets and revoke-others while calls are under way ---- */

  lemma FinishingKeepsIdle(s: Sys, a: Action, i: nat)
    requires Links(s) && (a.Create? || a.Finish?) && i < |s.db.refresh|
    ensures Idle(Do(s, a), i) == Idle(s, i)
  {
    var t := Do(s, a);
    if t != s {
      var c := a.call;
      assert forall d :: d in s.calls && d != c ==> d in t.calls && t.calls[d] == s.calls[d];
      assert forall d :: d in t.calls && d != c ==> t.calls[d] == s.calls[d];
      assert a.Create? ==> t.calls[c].source == s.calls[c].source;
    }
  }

  /** Finishing calls neither gives a login an heir nor takes its last one. */
  lemma FinishingKeepsHeirs(s: Sys, a: Action, login: nat)
    requires Links(s) && (a.Create? || a.Finish?)
    ensures HasHeir(Do(s, a), login) == HasHeir(s, login)
  {
    var t, n := Do(s, a), |s.db.refresh|;
    ActionKeepsLinks(s, a);
    if t != s {
      forall i: nat | i < n ensures Idle(t, i) == Idle(s, i) {
        FinishingKeepsIdle(s, a, i);
      }
      forall d: nat | d != a.call ensures Promises(t, d, login) == Promises(s, d, login) {
      }
      if a.Create? {
        CreateMakesIdle(s, a.call, a.raw, a.ttlDays);
        hide HasHeir, Links;
        CreateSwapsHeir(s, a, login);
      } else {
        assert !Promises(s, a.call, login) && !Promises(t, a.call, login);
        assert forall i: nat :: Idle(s, i) || Idle(t, i) ==> i < n;
        hide Links, Idle, Promises;
      }
    }
  }

  lemma CreateSwapsHeir(s: Sys, a: Action, login: nat)
    requires Links(s) && a.Create? && Do(s, a) != s
    requires var t, n := Do(s, a), |s.db.refresh|;
      && Idle(t, n) && |t.family| == n + 1 && t.family[..n] == s.family
      && t.family[n] == s.family[s.calls[a.call].source]
      && t.calls[a.call].Created?
      && (forall i: nat :: i < n ==> Idle(t, i) == Idle(s, i))
      && (forall d: nat :: d != a.call ==> Promises(t, d, login) == Promises(s, d, login))
    ensures HasHeir(Do(s, a), login) == HasHeir(s, login)
  {
    var t, n := Do(s, a), |s.db.refresh|;
    assert forall i: nat :: Idle(t, i) ==> i < n || i == n;
    assert forall i: nat :: i < n ==> t.family[i] == s.family[i] by {
      assert forall i: nat :: i < n ==> t.family[..n][i] == t.family[i];
    }
    assert !Promises(t, a.call, login) && (Promises(s, a.call, login) <==> t.family[n] == login);
    if HasHeir(s, login) {
      if i: nat :| Idle(s, i) && i < |s.family| && s.family[i] == login {
        assert Idle(t, i) && t.family[i] == login;
      } else {
        var c :| Promises(s, c, login);
        if c == a.call {
          assert Idle(t, n) && t.family[n] == login;
        } else {
          assert Promises(t, c, login);
        }
      }
    }
    if HasHeir(t, login) {
      if i: nat :| Idle(t, i) && i < |t.family| && t.family[i] == login {
        if i < n {
          assert Idle(s, i) && s.family[i] == login;
        } else {
          assert Promises(s, a.call, login);
        }
      } else {
        var c :| Promises(t, c, login);
        assert Promises(s, c, login);
      }
    }
  }

  ghost predicate LiveIn(s: Sys, login: nat) {
    exists i: nat :: i < |s.db.refresh| && i < |s.family| && s.family[i] == login && s.db.refresh[i].revokedAt.None?
  }

  /** Once the calls under way have finished, the logins with a live token are those that had an heir. */
  lemma {:induction false} HeirsDecide(s: Sys, es: seq<Action>, login: nat)
    requires Links(s) && OnlyFinishes(es) && Exec(s, es).calls == map[]
    ensures LiveIn(Exec(s, es), login) <==> HasHeir(s, login)
    decreases |es|
  {
    if es == [] {
      assert forall c :: !Promises(s, c, login);
      assert forall i: nat :: i < |s.db.refresh| ==> (Idle(s, i) <==> s.db.refresh[i].revokedAt.None?);
    } else {
      assert OnlyFinishes(es[1..]);
      ActionKeepsLinks(s, es[0]);
      FinishingKeepsHeirs(s, es[0], login);
      hide Links, Do, HasHeir, LiveIn;
      HeirsDecide(Do(s, es[0]), es[1..], login);
    }
  }

  /**
   A reset (`keep` is None) or a revoke-others with calls under way: when those have finished, a login of the
   user is alive exactly if some call had yet to create its token, or it is the kept token's and no call was
   rotating that.
   */
  lemma RevokedWithCallsUnderWay(s: Sys, user: nat, keep: Option<nat>, es: seq<Action>, login: nat)
    requires Links(s) && login < |s.db.refresh| && s.db.refresh[login].user == user
    requires OnlyFinishes(es) && Exec(Do(s, RevokeMany(user, keep)), es).calls == map[]
    ensures LiveIn(Exec(Do(s, RevokeMany(user, keep)), es), login) <==>
      || (exists c :: Promises(s, c, login))
      || (keep.Some? && Idle(s, keep.value) && s.family[keep.value] == login)
  {
    var t := Do(s, RevokeMany(user, keep));
    ActionKeepsLinks(s, RevokeMany(user, keep));
    HeirsDecide(t, es, login);
    assert forall c :: Promises(t, c, login) == Promises(s, c, login);
    forall i: nat | i < |s.db.refresh| && s.family[i] == login ensures Idle(t, i) <==> Idle(s, i) && keep == Some(i) {
      assert s.db.refresh[i].user == user;
    }
  }

  /** The user has no unrevoked token and no call that has yet to create one. */
  ghost predicate SignedOut(s: Sys, user: nat) {
    && (forall i :: 0 <= i < |s.db.refresh| && s.db.refresh[i].user == user ==> s.db.refresh[i].revokedAt.Some?)
    && !Underway(s, user)
  }

  ghost predicate Underway(s: Sys, user: nat) {
    exists c :: c in s.calls && s.calls[c].Found? && s.calls[c].source < |s.db.refresh| &&
      s.db.refresh[s.calls[c].source].user == user
  }

  lemma {:induction false} StaysSignedOut(s: Sys, acts: seq<Action>, user: nat)
    requires Links(s) && SignedOut(s, user) && NoSignIn(acts, user)
    ensures SignedOut(Exec(s, acts), user)
    decreases |acts|
  {
    if acts != [] {
      ActionKeepsLinks(s, acts[0]);
      SignedOutStep(s, acts[0], user);
      assert NoSignIn(acts[1..], user);
      StaysSignedOut(Do(s, acts[0]), acts[1..], user);
    }
  }

  ghost predicate NoSignIn(acts: seq<Action>, user: nat) {
    forall i :: 0 <= i < |acts| ==> !(acts[i].SignIn? && acts[i].user == user)
  }

  lemma SignedOutStep(s: Sys, a: Action, user: nat)
    requires Links(s) && SignedOut(s, user) && !(a.SignIn? && a.user == user)
    ensures SignedOut(Do(s, a), user)
  {
    var t := Do(s, a);
    if t != s {
      forall c | c in t.calls && t.calls[c].Found? ensures t.db.refresh[t.calls[c].source].user != user {
        if c in s.calls && s.calls[c] == t.calls[c] {
          assert s.db.refresh[s.calls[c].source].user != user;
        }
      }
      if a.Create? {
        assert s.db.refresh[s.calls[a.call].source].user != user;
      }
    }
  }

  /** Whatever happens next, short of signing in again, the user has no unrevoked token. */
  ghost predicate OutForGood(s: Sys, user: nat) {
    forall acts :: NoSignIn(acts, user) ==> NoneLive(Exec(s, acts), user)
  }

  ghost predicate NoneLive(s: Sys, user: nat) {
    forall i :: 0 <= i < |s.db.refresh| && s.db.refresh[i].user == user ==> s.db.refresh[i].revokedAt.Some?
  }

  /**
   A reset ends all of a user's logins for good exactly when no refresh has found a token of theirs and has yet
   to create its successor.
   */
  lemma ResetEndsAllIffNoneUnderWay(s: Sys, user: nat)
    requires Links(s)
    ensures OutForGood(Do(s, RevokeMany(user, None)), user) <==> !Underway(s, user)
  {
    var t := Do(s, RevokeMany(user, None));
    ActionKeepsLinks(s, RevokeMany(user, None));
    if Underway(s, user) {
      var c :| c in s.calls && s.calls[c].Found? && s.db.refresh[s.calls[c].source].user == user;
      var raw := FreshSecret(t.db.refresh);
      var acts := [Create(c, raw, 1)];
      CreateMakesIdle(t, c, raw, 1);
      assert acts[1..] == [];
      assert Exec(t, acts) == Do(t, Create(c, raw, 1));
      assert NoSignIn(acts, user) && !NoneLive(Exec(t, acts), user);
    } else {
      forall acts | NoSignIn(acts, user) ensures NoneLive(Exec(t, acts), user) {
        StaysSignedOut(t, acts, user);
      }
    }
  }
}
