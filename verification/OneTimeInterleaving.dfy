/**
 Redeeming one-time tokens as the database sees it: looking the token up, acting on the account and consuming
 the token are separate statements, and any number of redemptions interleave them.
 */
module OneTimeInterleaving {
  import opened Common
  import opened AuthTables

  datatype Call = Looked(id: nat) | Acted(id: nat)

  /** `accepted` counts, for each token, the redemptions that took effect; the tables do not record it. */
  datatype Sys = Sys(db: Db, calls: map<nat, Call>, accepted: multiset<nat>, now: int)

  datatype Action =
    | Look(call: nat, presented: string, purpose: Purpose)
    | Act(call: nat, password: string)
    | Finish(call: nat)
    | Issue(row: OneTimeRow)
    | Wait(seconds: nat)

  /** Verifying the address, or setting the password, of the token's user. */
  function Effect(db: Db, id: nat, password: string): Db
    requires id < |db.oneTime|
  {
    var row := db.oneTime[id];
    if row.user.None? || row.user.value >= |db.users| then db
    else
      var u := row.user.value;
      db.(users := db.users[u := if row.purpose.VerifyAddress? then db.users[u].(verified := true)
                                 else db.users[u].(password := Hashed(password))])
  }

  /** Consuming the token, and for a reset revoking the user's refresh tokens. */
  function Cleanup(db: Db, id: nat, now: int): Db
    requires id < |db.oneTime|
  {
    var row := db.oneTime[id];
    db.(oneTime := Consume(db.oneTime, id, now),
        refresh := if row.purpose.PasswordReset? && row.user.Some? then RevokeAll(db.refresh, row.user.value, None, now)
                   else db.refresh)
  }

  function Do(s: Sys, a: Action): Sys {
    match a
    case Look(c, presented, purpose) =>
      var id := Redeemable(s.db, presented, purpose, s.now);
      if c in s.calls || id.None? then s else s.(calls := s.calls[c := Looked(id.value)])
    case Act(c, password) =>
      if c !in s.calls || !s.calls[c].Looked? || s.calls[c].id >= |s.db.oneTime| then s
      else
        var id := s.calls[c].id;
        s.(db := Effect(s.db, id, password), calls := s.calls[c := Acted(id)], accepted := s.accepted + multiset{id})
    case Finish(c) =>
      if c !in s.calls || !s.calls[c].Acted? || s.calls[c].id >= |s.db.oneTime| then s
      else s.(db := Cleanup(s.db, s.calls[c].id, s.now), calls := s.calls - {c})
    case Issue(row) =>
      if row.consumedAt.Some? then s else s.(db := s.db.(oneTime := s.db.oneTime + [row]))
    case Wait(n) => s.(now := s.now + n)
  }

  ghost function Exec(s: Sys, acts: seq<Action>): Sys
    decreases |acts|
  {
    if acts == [] then s else Exec(Do(s, acts[0]), acts[1..])
  }

  /** Run without interruption, the three actions are exactly one redemption. */
  lemma ThreeActionsAreOneRedemption(p: Policy, s: Sys, c: nat, presented: string, purpose: Purpose, password: string)
    requires c !in s.calls && p.strong(password)
    ensures var t := Do(Do(Do(s, Look(c, presented, purpose)), Act(c, password)), Finish(c));
      && t.calls == s.calls
      && t.db == if purpose.VerifyAddress? then VerifyEmail(s.db, presented, s.now).0
                 else ResetPassword(p, s.db, presented, password, s.now).0
  {
    if Redeemable(s.db, presented, purpose, s.now).Some? {
      assert s.calls[c := Looked(0)] - {c} == s.calls;
      assert s.calls[c := Acted(0)] - {c} == s.calls;
    }
  }

  /* ---- how often a token is accepted ---- */

  ghost predicate Consumed(s: Sys, id: nat) {
    id < |s.db.oneTime| && s.db.oneTime[id].consumedAt.Some?
  }

  /** Each token was accepted at most once, and one that was is consumed or about to be. */
  ghost predicate Once(s: Sys) {
    && (forall c :: c in s.calls ==> s.calls[c].id < |s.db.oneTime|)
    && (forall c, d :: c in s.calls && d in s.calls && c != d ==> s.calls[c].id != s.calls[d].id)
    && (forall c :: c in s.calls ==> s.accepted[s.calls[c].id] == if s.calls[c].Looked? then 0 else 1)
    && (forall id: nat :: s.accepted[id] <= 1)
    && (forall id: nat :: s.accepted[id] == 1 ==>
          id < |s.db.oneTime| && (Consumed(s, id) || exists c :: c in s.calls && s.calls[c] == Acted(id)))
  }

  /** The lookup finds a token that another call has looked up and not yet consumed. */
  ghost predicate Overlaps(s: Sys, a: Action) {
    && a.Look? && a.call !in s.calls
    && exists c :: c in s.calls && Redeemable(s.db, a.presented, a.purpose, s.now) == Some(s.calls[c].id)
  }

  ghost predicate NoOverlap(s: Sys, acts: seq<Action>)
    decreases |acts|
  {
    acts == [] || (!Overlaps(s, acts[0]) && NoOverlap(Do(s, acts[0]), acts[1..]))
  }

  lemma InitOnce(db: Db, now: int)
    ensures Once(Sys(db, map[], multiset{}, now))
  {
  }

  lemma LookKeepsOnce(s: Sys, a: Action)
    requires Once(s) && a.Look? && !Overlaps(s, a)
    ensures Once(Do(s, a))
  {
    var t := Do(s, a);
    if t != s {
      var id := Redeemable(s.db, a.presented, a.purpose, s.now).value;
      forall i: nat | s.accepted[i] == 1 ensures Consumed(t, i) || exists c :: c in t.calls && t.calls[c] == Acted(i) {
        if !Consumed(s, i) {
          var c :| c in s.calls && s.calls[c] == Acted(i);
          assert t.calls[c] == Acted(i);
        }
      }
    }
  }

  lemma ActKeepsOnce(s: Sys, a: Action)
    requires Once(s) && a.Act?
    ensures Once(Do(s, a))
  {
    var t := Do(s, a);
    if t != s {
      var id := s.calls[a.call].id;
      assert t.calls[a.call] == Acted(id);
      forall i: nat | t.accepted[i] == 1 ensures Consumed(t, i) || exists c :: c in t.calls && t.calls[c] == Acted(i) {
        if i != id && !Consumed(s, i) {
          var c :| c in s.calls && s.calls[c] == Acted(i);
          assert t.calls[c] == Acted(i);
        }
      }
    }
  }

  lemma FinishKeepsOnce(s: Sys, a: Action)
    requires Once(s) && a.Finish?
    ensures Once(Do(s, a))
  {
    var t := Do(s, a);
    if t != s {
      var id := s.calls[a.call].id;
      forall i: nat | t.accepted[i] == 1 ensures Consumed(t, i) || exists c :: c in t.calls && t.calls[c] == Acted(i) {
        if i != id && !Consumed(s, i) {
          var c :| c in s.calls && s.calls[c] == Acted(i);
          assert t.calls[c] == Acted(i);
        }
      }
    }
  }

  lemma ActionKeepsOnce(s: Sys, a: Action)
    requires Once(s) && !Overlaps(s, a)
    ensures Once(Do(s, a))
  {
    match a {
      case Look(_, _, _) => LookKeepsOnce(s, a);
      case Act(_, _) => ActKeepsOnce(s, a);
      case Finish(_) => FinishKeepsOnce(s, a);
      case _ =>
        var t := Do(s, a);
        assert forall i: nat :: Consumed(s, i) ==> Consumed(t, i);
    }
  }

  /** Without overlapping lookups every token is accepted at most once. */
  lemma {:induction false} RunKeepsOnce(s: Sys, acts: seq<Action>)
    requires Once(s) && NoOverlap(s, acts)
    ensures Once(Exec(s, acts))
    decreases |acts|
  {
    hide Once, Do, Overlaps;
    if acts != [] {
      ActionKeepsOnce(s, acts[0]);
      RunKeepsOnce(Do(s, acts[0]), acts[1..]);
    }
  }

  /** Redemptions under way go on; nothing else happens. */
  ghost predicate OnlyFinishes(acts: seq<Action>) {
    forall i :: 0 <= i < |acts| ==> acts[i].Act? || acts[i].Finish?
  }

  ghost predicate EndsTwice(s: Sys, es: seq<Action>, id: nat) {
    OnlyFinishes(es) && Exec(s, es).accepted[id] >= 2
  }

  /** An overlap is all it takes: when both redemptions act the token is accepted twice. */
  lemma OverlapIsAcceptedTwice(s: Sys, a: Action) returns (es: seq<Action>, id: nat)
    requires Once(s) && Overlaps(s, a)
    ensures EndsTwice(Do(s, a), es, id)
  {
    var c :| c in s.calls && Redeemable(s.db, a.presented, a.purpose, s.now) == Some(s.calls[c].id);
    id := s.calls[c].id;
    var t := Do(s, a);
    assert t.calls[a.call] == Looked(id) && t.calls[c] == s.calls[c];
    es := [Act(c, ""), Act(a.call, "")];
    assert es[1..] == [Act(a.call, "")] && es[1..][1..] == [];
    var t1 := Do(t, es[0]);
    assert t1.accepted[id] >= 1 && t1.calls[a.call] == Looked(id);
    assert Exec(t, es) == Do(t1, es[1]) by {
      assert Exec(Do(t1, es[1]), []) == Do(t1, es[1]);
      assert Exec(t1, es[1..]) == Exec(Do(t1, es[1]), es[1..][1..]);
    }
  }

  lemma {:induction false} FinishingOverlapsNothing(s: Sys, es: seq<Action>)
    requires OnlyFinishes(es)
    ensures NoOverlap(s, es)
    decreases |es|
  {
    if es != [] {
      assert OnlyFinishes(es[1..]);
      FinishingOverlapsNothing(Do(s, es[0]), es[1..]);
    }
  }

  lemma {:induction false} NoOverlapPrefix(s: Sys, acts: seq<Action>, k: nat)
    requires NoOverlap(s, acts) && k <= |acts|
    ensures NoOverlap(s, acts[..k])
    decreases k
  {
    hide Do, Overlaps;
    if k > 0 {
      assert acts[..k][1..] == acts[1..][..k - 1];
      NoOverlapPrefix(Do(s, acts[0]), acts[1..], k - 1);
    }
  }

  lemma {:induction false} FirstOverlap(s: Sys, acts: seq<Action>) returns (k: nat)
    requires Once(s) && !NoOverlap(s, acts)
    ensures k < |acts| && Once(Exec(s, acts[..k])) && Overlaps(Exec(s, acts[..k]), acts[k])
    ensures Exec(s, acts[..k + 1]) == Do(Exec(s, acts[..k]), acts[k])
    decreases |acts|
  {
    hide Do, Overlaps, Once;
    if Overlaps(s, acts[0]) {
      k := 0;
      assert acts[..0] == [] && acts[..1][1..] == [];
      assert Exec(Do(s, acts[0]), []) == Do(s, acts[0]);
    } else {
      ActionKeepsOnce(s, acts[0]);
      k := FirstOverlap(Do(s, acts[0]), acts[1..]);
      k := k + 1;
      assert acts[..k][1..] == acts[1..][..k - 1] && acts[..k + 1][1..] == acts[1..][..k];
    }
  }

  /** Wherever the run is stopped, letting the redemptions under way finish accepts no token twice. */
  ghost predicate OnceThroughout(s: Sys, acts: seq<Action>) {
    forall k: nat, es, id :: k <= |acts| ==> !EndsTwice(Exec(s, acts[..k]), es, id)
  }

  /** Overlapping lookups are exactly what can accept a one-time token twice. */
  lemma OnceIffNoOverlap(s: Sys, acts: seq<Action>)
    requires Once(s)
    ensures OnceThroughout(s, acts) <==> NoOverlap(s, acts)
  {
    if NoOverlap(s, acts) {
      forall k: nat, es, id | k <= |acts| ensures !EndsTwice(Exec(s, acts[..k]), es, id) {
        NoOverlapPrefix(s, acts, k);
        RunKeepsOnce(s, acts[..k]);
        if OnlyFinishes(es) {
          FinishingOverlapsNothing(Exec(s, acts[..k]), es);
          RunKeepsOnce(Exec(s, acts[..k]), es);
        }
      }
    } else {
      var k := FirstOverlap(s, acts);
      var es, id := OverlapIsAcceptedTwice(Exec(s, acts[..k]), acts[k]);
      assert EndsTwice(Exec(s, acts[..k + 1]), es, id);
    }
  }
}
