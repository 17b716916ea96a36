/**
 Taking an address as the database sees it: registering, creating an account at a first Google sign-in and changing
 an address each look the address up and write it in a later statement, and any number of them interleave. The
 table may or may not have a unique constraint on the address.
 */
module AddressInterleaving {
  import opened Common
  import opened AuthTables

  /** A call whose lookup found the address free; without a target it is about to insert a user. */
  datatype Pending = Pending(target: Option<nat>, address: string)

  datatype Sys = Sys(users: seq<User>, calls: map<nat, Pending>, unique: bool)

  datatype Action =
    | Check(call: nat, target: Option<nat>, email: string)
    | Write(call: nat, password: PasswordHash, verified: bool)
    | Touch(id: nat, user: User)  // any other statement on a user's row

  /** Some user other than the target has the address. */
  predicate Taken(users: seq<User>, target: Option<nat>, address: string) {
    exists i :: 0 <= i < |users| && Some(i) != target && users[i].email == address
  }

  function Written(users: seq<User>, p: Pending, password: PasswordHash, verified: bool): seq<User> {
    match p.target
    case None => users + [User(p.address, password, true, verified, 0, None)]
    case Some(u) => if u < |users| then users[u := users[u].(email := p.address, verified := false)] else users
  }

  function Do(norm: string -> string, s: Sys, a: Action): Sys {
    match a
    case Check(c, target, email) =>
      if c in s.calls || Taken(s.users, target, norm(email)) then s
      else if target.Some? && (target.value >= |s.users| || norm(email) == "") then s
      else s.(calls := s.calls[c := Pending(target, norm(email))])
    case Write(c, password, verified) =>
      if c !in s.calls then s
      else if s.unique && Taken(s.users, s.calls[c].target, s.calls[c].address) then s.(calls := s.calls - {c})
      else s.(users := Written(s.users, s.calls[c], password, verified), calls := s.calls - {c})
    case Touch(id, user) =>
      if id >= |s.users| then s else s.(users := s.users[id := user.(email := s.users[id].email)])
  }

  ghost function Exec(norm: string -> string, s: Sys, acts: seq<Action>): Sys
    decreases |acts|
  {
    if acts == [] then s else Exec(norm, Do(norm, s, acts[0]), acts[1..])
  }

  /* ---- without interruption ---- */

  lemma NotFoundIsFree(users: seq<User>, address: string)
    ensures FindUser(users, address).None? <==> !Taken(users, None, address)
  {
  }

  /** Run without interruption, the two statements are the address part of a registration. */
  lemma TwoActionsRegister(p: Policy, db: Db, unique: bool, c: nat, email: string, password: string, raw: string,
      ttlDays: int, now: int)
    requires p.strong(password)
    ensures var s := Sys(db.users, map[], unique);
      var t := Do(p.norm, Do(p.norm, s, Check(c, None, email)), Write(c, Hashed(password), false));
      t == s.(users := Register(p, db, email, password, raw, ttlDays, now).0.users)
  {
    NotFoundIsFree(db.users, p.norm(email));
    assert map[c := Pending(None, p.norm(email))] - {c} == map[];
  }

  /** And of a first Google sign-in with an address that no user has. */
  lemma TwoActionsCreate(p: Policy, db: Db, unique: bool, c: nat, account: string, email: string, emailVerified: bool,
      raw: string, ttlDays: int, now: int)
    requires FindOAuth(db.oauth, "google", account).None? && FindUser(db.users, p.norm(email)).None?
    ensures var s := Sys(db.users, map[], unique);
      var t := Do(p.norm, Do(p.norm, s, Check(c, None, email)), Write(c, Unusable, emailVerified));
      t == s.(users := OAuthGoogle(p, db, account, email, emailVerified, raw, ttlDays, now).0.users)
  {
    NotFoundIsFree(db.users, p.norm(email));
    assert map[c := Pending(None, p.norm(email))] - {c} == map[];
  }

  /** And of a change of address. */
  lemma TwoActionsChange(p: Policy, db: Db, unique: bool, c: nat, subject: nat, email: string)
    ensures var s := Sys(db.users, map[], unique);
      var t := Do(p.norm, Do(p.norm, s, Check(c, Some(subject), email)), Write(c, Unusable, false));
      t == s.(users := ChangeEmail(p, db, subject, email).0.users)
  {
    assert OtherHolds(db.users, subject, p.norm(email)) <==> Taken(db.users, Some(subject), p.norm(email));
    assert map[c := Pending(Some(subject), p.norm(email))] - {c} == map[];
  }

  /* ---- with the constraint ---- */

  ghost predicate Distinct(users: seq<User>) {
    forall i, j :: 0 <= i < j < |users| ==> users[i].email != users[j].email
  }

  lemma WriteKeepsDistinct(users: seq<User>, p: Pending, password: PasswordHash, verified: bool)
    requires Distinct(users) && !Taken(users, p.target, p.address)
    ensures Distinct(Written(users, p, password, verified))
  {
  }

  /** With the constraint no two users ever have the same address, however the calls interleave. */
  lemma {:induction false} ConstraintKeepsDistinct(norm: string -> string, s: Sys, acts: seq<Action>)
    requires s.unique && Distinct(s.users)
    ensures Distinct(Exec(norm, s, acts).users)
    decreases |acts|
  {
    if acts != [] {
      var a := acts[0];
      if a.Write? && a.call in s.calls && !Taken(s.users, s.calls[a.call].target, s.calls[a.call].address) {
        WriteKeepsDistinct(s.users, s.calls[a.call], a.password, a.verified);
      }
      hide Written, Taken;
      ConstraintKeepsDistinct(norm, Do(norm, s, a), acts[1..]);
    }
  }

  /* ---- without it ---- */

  /** Two calls that would give two users the same address. */
  predicate Clash(p: Pending, q: Pending) {
    p.address == q.address && (p.target != q.target || p.target.None?)
  }

  /** The lookup finds an address free that another call under way is about to give to another user. */
  ghost predicate Overlaps(norm: string -> string, s: Sys, a: Action) {
    && a.Check? && a.call !in s.calls && a.call in Do(norm, s, a).calls
    && exists c :: c in s.calls && Clash(s.calls[c], Pending(a.target, norm(a.email)))
  }

  ghost predicate NoOverlap(norm: string -> string, s: Sys, acts: seq<Action>)
    decreases |acts|
  {
    acts == [] || (!Overlaps(norm, s, acts[0]) && NoOverlap(norm, Do(norm, s, acts[0]), acts[1..]))
  }

  /** Addresses are distinct and every call under way still has its own to itself. */
  ghost predicate Apart(s: Sys) {
    && Distinct(s.users)
    && (forall c :: c in s.calls ==> s.calls[c].target.Some? ==> s.calls[c].target.value < |s.users|)
    && (forall c :: c in s.calls ==> !Taken(s.users, s.calls[c].target, s.calls[c].address))
    && (forall c, d :: c in s.calls && d in s.calls && c != d ==> !Clash(s.calls[c], s.calls[d]))
  }

  lemma InitApart(users: seq<User>, unique: bool)
    requires Distinct(users)
    ensures Apart(Sys(users, map[], unique))
  {
  }

  lemma WriteLeavesFree(users: seq<User>, p: Pending, password: PasswordHash, verified: bool, q: Pending)
    requires !Clash(p, q) && !Taken(users, p.target, p.address) && !Taken(users, q.target, q.address)
    ensures !Taken(Written(users, p, password, verified), q.target, q.address)
  {
  }

  lemma CheckKeepsApart(norm: string -> string, s: Sys, a: Action)
    requires Apart(s) && a.Check? && !Overlaps(norm, s, a)
    ensures Apart(Do(norm, s, a))
  {
    hide Distinct, Taken;
  }

  lemma WriteKeepsApart(norm: string -> string, s: Sys, a: Action)
    requires Apart(s) && a.Write?
    ensures Apart(Do(norm, s, a))
  {
    if a.call in s.calls {
      var t, p := Do(norm, s, a), s.calls[a.call];
      WriteKeepsDistinct(s.users, p, a.password, a.verified);
      forall d | d in t.calls ensures !Taken(t.users, t.calls[d].target, t.calls[d].address) {
        WriteLeavesFree(s.users, p, a.password, a.verified, s.calls[d]);
      }
      hide Distinct, Taken;
    }
  }

  lemma ActionKeepsApart(norm: string -> string, s: Sys, a: Action)
    requires Apart(s) && !Overlaps(norm, s, a)
    ensures Apart(Do(norm, s, a))
  {
    match a {
      case Check(_, _, _) => CheckKeepsApart(norm, s, a);
      case Write(_, _, _) => WriteKeepsApart(norm, s, a);
      case Touch(_, _) =>
        assert forall i :: 0 <= i < |s.users| ==> Do(norm, s, a).users[i].email == s.users[i].email;
    }
  }

  lemma {:induction false} RunKeepsApart(norm: string -> string, s: Sys, acts: seq<Action>)
    requires Apart(s) && NoOverlap(norm, s, acts)
    ensures Apart(Exec(norm, s, acts))
    decreases |acts|
  {
    hide Apart, Do, Overlaps;
    if acts != [] {
      ActionKeepsApart(norm, s, acts[0]);
      RunKeepsApart(norm, Do(norm, s, acts[0]), acts[1..]);
    }
  }

  /** The calls under way go on; nothing else happens. */
  ghost predicate OnlyWrites(acts: seq<Action>) {
    forall i :: 0 <= i < |acts| ==> acts[i].Write?
  }

  lemma {:induction false} WritingOverlapsNothing(norm: string -> string, s: Sys, es: seq<Action>)
    requires OnlyWrites(es)
    ensures NoOverlap(norm, s, es)
    decreases |es|
  {
    if es != [] {
      assert OnlyWrites(es[1..]);
      WritingOverlapsNothing(norm, Do(norm, s, es[0]), es[1..]);
    }
  }

  /** The constraint turns the step's write down. */
  ghost predicate Refuses(s: Sys, a: Action) {
    s.unique && a.Write? && a.call in s.calls && Taken(s.users, s.calls[a.call].target, s.calls[a.call].address)
  }

  ghost predicate Refused(norm: string -> string, s: Sys, acts: seq<Action>)
    decreases |acts|
  {
    acts != [] && (Refuses(s, acts[0]) || Refused(norm, Do(norm, s, acts[0]), acts[1..]))
  }

  lemma {:induction false} ApartIsNotRefused(norm: string -> string, s: Sys, es: seq<Action>)
    requires Apart(s) && OnlyWrites(es)
    ensures !Refused(norm, s, es)
    decreases |es|
  {
    if es != [] {
      assert OnlyWrites(es[1..]);
      WriteKeepsApart(norm, s, es[0]);
      hide Do;
      ApartIsNotRefused(norm, Do(norm, s, es[0]), es[1..]);
    }
  }

  /**
   What goes wrong when the calls under way are left to write: with the constraint a write is turned down, and
   without it two users share an address.
   */
  ghost predicate EndsBadly(norm: string -> string, s: Sys, es: seq<Action>) {
    OnlyWrites(es) && if s.unique then Refused(norm, s, es) else !Distinct(Exec(norm, s, es).users)
  }

  lemma WrittenShares(users: seq<User>, p: Pending, q: Pending, pw: PasswordHash, verified: bool)
    requires Clash(p, q)
    requires p.target.Some? ==> p.target.value < |users|
    requires q.target.Some? ==> q.target.value < |users|
    ensures var users' := Written(users, p, pw, verified);
      Taken(users', q.target, q.address) && !Distinct(Written(users', q, pw, verified))
  {
    var users' := Written(users, p, pw, verified);
    var i := if p.target.Some? then p.target.value else |users|;
    var j := if q.target.Some? then q.target.value else |users'|;
    assert users'[i].email == q.address && Some(i) != q.target;
    var users'' := Written(users', q, pw, verified);
    assert users''[i].email == users''[j].email && i != j;
    assert i < j || j < i;
  }

  /** An overlap is all it takes. */
  lemma OverlapEndsBadly(norm: string -> string, s: Sys, a: Action) returns (es: seq<Action>)
    requires Apart(s) && Overlaps(norm, s, a)
    ensures EndsBadly(norm, Do(norm, s, a), es)
  {
    var c :| c in s.calls && Clash(s.calls[c], Pending(a.target, norm(a.email)));
    var t := Do(norm, s, a);
    var p, q := s.calls[c], Pending(a.target, norm(a.email));
    assert t.calls[c] == p && t.calls[a.call] == q && t.users == s.users;
    var w1, w2 := Write(c, Unusable, false), Write(a.call, Unusable, false);
    WrittenShares(s.users, p, q, Unusable, false);
    hide Distinct, Taken, Clash, Overlaps, Written;
    var t1 := Do(norm, t, w1);
    assert t1.users == Written(s.users, p, Unusable, false) && t1.calls[a.call] == q;
    es := [w1, w2];
    assert es[1..] == [w2] && es[1..][1..] == [];
    var t2 := Do(norm, t1, w2);
    assert Exec(norm, t, es) == Exec(norm, t1, [w2]) == Exec(norm, t2, []) == t2;
    assert Refused(norm, t, es) <== Refused(norm, t1, [w2]);
  }

  lemma {:induction false} NoOverlapPrefix(norm: string -> string, s: Sys, acts: seq<Action>, k: nat)
    requires NoOverlap(norm, s, acts) && k <= |acts|
    ensures NoOverlap(norm, s, acts[..k])
    decreases k
  {
    hide Do, Overlaps;
    if k > 0 {
      assert acts[..k][1..] == acts[1..][..k - 1];
      NoOverlapPrefix(norm, Do(norm, s, acts[0]), acts[1..], k - 1);
    }
  }

  lemma {:induction false} FirstOverlap(norm: string -> string, s: Sys, acts: seq<Action>) returns (k: nat)
    requires Apart(s) && !NoOverlap(norm, s, acts)
    ensures k < |acts| && Apart(Exec(norm, s, acts[..k])) && Overlaps(norm, Exec(norm, s, acts[..k]), acts[k])
    ensures Exec(norm, s, acts[..k + 1]) == Do(norm, Exec(norm, s, acts[..k]), acts[k])
    decreases |acts|
  {
    hide Do, Overlaps, Apart;
    if Overlaps(norm, s, acts[0]) {
      k := 0;
      assert acts[..0] == [] && acts[..1][1..] == [];
      assert Exec(norm, Do(norm, s, acts[0]), []) == Do(norm, s, acts[0]);
    } else {
      ActionKeepsApart(norm, s, acts[0]);
      k := FirstOverlap(norm, Do(norm, s, acts[0]), acts[1..]);
      k := k + 1;
      assert acts[..k][1..] == acts[1..][..k - 1] && acts[..k + 1][1..] == acts[1..][..k];
    }
  }

  /** Wherever the run is stopped, letting the calls under way write goes well. */
  ghost predicate WellThroughout(norm: string -> string, s: Sys, acts: seq<Action>) {
    forall k: nat, es :: k <= |acts| ==> !EndsBadly(norm, Exec(norm, s, acts[..k]), es)
  }

  /**
   Overlapping lookups are exactly what can give two users one address or, with the constraint, make a write fail
   whose lookup had succeeded.
   */
  lemma WellIffNoOverlap(norm: string -> string, s: Sys, acts: seq<Action>)
    requires Apart(s)
    ensures WellThroughout(norm, s, acts) <==> NoOverlap(norm, s, acts)
  {
    hide Apart, Do, Overlaps;
    if NoOverlap(norm, s, acts) {
      forall k: nat, es | k <= |acts| ensures !EndsBadly(norm, Exec(norm, s, acts[..k]), es) {
        NoOverlapPrefix(norm, s, acts, k);
        RunKeepsApart(norm, s, acts[..k]);
        var t := Exec(norm, s, acts[..k]);
        if OnlyWrites(es) {
          WritingOverlapsNothing(norm, t, es);
          RunKeepsApart(norm, t, es);
          ApartIsDistinct(Exec(norm, t, es));
          ApartIsNotRefused(norm, t, es);
        }
      }
    } else {
      var k := FirstOverlap(norm, s, acts);
      var es := OverlapEndsBadly(norm, Exec(norm, s, acts[..k]), acts[k]);
      assert EndsBadly(norm, Exec(norm, s, acts[..k + 1]), es);
    }
  }

  lemma ApartIsDistinct(s: Sys)
    requires Apart(s)
    ensures Distinct(s.users)
  {
  }
}
