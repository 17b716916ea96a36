/**
 Bringing a domain's A and AAAA records in line with a droplet's addresses: every record that belongs
 to the deployment is rewritten, and the required names that have none are created. The run can stop
 at any write, when the provider's API raises.
 */
module DnsReconcile {
  import opened Common

  datatype Record = Record(id: nat, kind: string, name: string, data: string)

  /** The zone as the provider holds it; ids are handed out in creation order. */
  datatype Zone = Zone(records: seq<Record>, nextId: nat)

  datatype Key = Root | Www | Traefik | Pgadmin | DjangoAdmin | Flower | Swagger

  datatype Config = Config(
    domain: string,
    traefik: string,
    pgadmin: string,
    djangoAdmin: string,
    flower: string,
    swagger: string,
    ipv4: string,
    ipv6: Option<string>)

  datatype Write =
    | Update(id: nat, kind: string, name: string, data: string)
    | Create(kind: string, name: string, data: string)

  /** The name a record is created under. */
  function Label(cfg: Config, key: Key): string {
    match key
    case Root => "@"
    case Www => "www"
    case Traefik => cfg.traefik
    case Pgadmin => cfg.pgadmin
    case DjangoAdmin => cfg.djangoAdmin
    case Flower => cfg.flower
    case Swagger => cfg.swagger
  }

  /** Whether a record of this name counts as the required one. */
  predicate Answers(cfg: Config, key: Key, name: string) {
    || name == Label(cfg, key)
    || (key.Root? && (name == cfg.domain || name == ""))
    || (!key.Root? && name == Label(cfg, key) + "." + cfg.domain)
  }

  predicate AnswersAny(cfg: Config, name: string) {
    || Answers(cfg, Root, name) || Answers(cfg, Traefik, name) || Answers(cfg, Pgadmin, name)
    || Answers(cfg, DjangoAdmin, name) || Answers(cfg, Flower, name) || Answers(cfg, Swagger, name)
  }

  /** Records the run rewrites: the required names, anything containing the domain, wildcards. */
  predicate Matched(cfg: Config, r: Record) {
    var ours := AnswersAny(cfg, r.name) || Contains(r.name, cfg.domain) || "*" <= r.name;
    (r.kind == "A" && (ours || Answers(cfg, Www, r.name))) || (r.kind == "AAAA" && ours && cfg.ipv6.Some?)
  }

  function Target(cfg: Config, kind: string): string {
    if kind == "AAAA" && cfg.ipv6.Some? then cfg.ipv6.value else cfg.ipv4
  }

  /** The required records, in the order they are created. */
  function Plan(cfg: Config): seq<(string, Key)> {
    if cfg.ipv6.Some? then
      [("A", Root), ("A", Www), ("AAAA", Root),
       ("A", Traefik), ("AAAA", Traefik), ("A", Pgadmin), ("AAAA", Pgadmin),
       ("A", DjangoAdmin), ("AAAA", DjangoAdmin), ("A", Flower), ("AAAA", Flower),
       ("A", Swagger), ("AAAA", Swagger)]
    else
      [("A", Root), ("A", Www), ("A", Traefik), ("A", Pgadmin), ("A", DjangoAdmin), ("A", Flower), ("A", Swagger)]
  }

  predicate Serves(cfg: Config, r: Record, item: (string, Key)) {
    r.kind == item.0 && Answers(cfg, item.1, r.name)
  }

  predicate Found(cfg: Config, rs: seq<Record>, item: (string, Key)) {
    exists i :: 0 <= i < |rs| && Serves(cfg, rs[i], item)
  }

  function Updates(cfg: Config, rs: seq<Record>): seq<Write> {
    if rs == [] then []
    else
      var r := rs[|rs| - 1];
      Updates(cfg, rs[..|rs| - 1])
      + (if Matched(cfg, r) then [Update(r.id, r.kind, r.name, Target(cfg, r.kind))] else [])
  }

  function Creates(cfg: Config, rs: seq<Record>, plan: seq<(string, Key)>): (ws: seq<Write>)
    ensures forall i :: 0 <= i < |ws| ==> ws[i].Create?
  {
    if plan == [] then []
    else
      var item := plan[|plan| - 1];
      Creates(cfg, rs, plan[..|plan| - 1])
        + (if Found(cfg, rs, item) then [] else [Create(item.0, Label(cfg, item.1), Target(cfg, item.0))])
  }

  function Writes(cfg: Config, rs: seq<Record>): seq<Write> {
    Updates(cfg, rs) + Creates(cfg, rs, Plan(cfg))
  }

  function Apply(z: Zone, w: Write): Zone {
    match w
    case Update(id, kind, name, data) =>
      z.(records := seq(|z.records|, i requires 0 <= i < |z.records| =>
        if z.records[i].id == id then Record(id, kind, name, data) else z.records[i]))
    case Create(kind, name, data) =>
      Zone(z.records + [Record(z.nextId, kind, name, data)], z.nextId + 1)
  }

  function ApplyAll(z: Zone, ws: seq<Write>): Zone {
    if ws == [] then z else Apply(ApplyAll(z, ws[..|ws| - 1]), ws[|ws| - 1])
  }

  /** The zone after a run that gets as far as its first `n` writes. */
  function Cut(cfg: Config, z: Zone, n: nat): Zone
    requires n <= |Writes(cfg, z.records)|
  {
    ApplyAll(z, Writes(cfg, z.records)[..n])
  }

  function Full(cfg: Config, z: Zone): Zone {
    ApplyAll(z, Writes(cfg, z.records))
  }

  ghost predicate Valid(z: Zone) {
    && (forall i :: 0 <= i < |z.records| ==> z.records[i].id < z.nextId)
    && (forall i, j :: 0 <= i < j < |z.records| ==> z.records[i].id != z.records[j].id)
  }

  /* ---- the outcome, stated without the writes ---- */

  function FixOne(cfg: Config, r: Record): Record {
    if Matched(cfg, r) then r.(data := Target(cfg, r.kind)) else r
  }

  function Fix(cfg: Config, rs: seq<Record>): seq<Record> {
    seq(|rs|, i requires 0 <= i < |rs| => FixOne(cfg, rs[i]))
  }

  /** The records that a list of creations adds. */
  function Added(ws: seq<Write>, nextId: nat): seq<Record>
    requires forall i :: 0 <= i < |ws| ==> ws[i].Create?
  {
    seq(|ws|, i requires 0 <= i < |ws| => Record(nextId + i, ws[i].kind, ws[i].name, ws[i].data))
  }

  lemma {:induction false} ApplyAllAppend(z: Zone, a: seq<Write>, b: seq<Write>)
    ensures ApplyAll(z, a + b) == ApplyAll(ApplyAll(z, a), b)
    decreases |b|
  {
    if b == [] {
      assert a + b == a;
    } else {
      assert (a + b)[..|a + b| - 1] == a + b[..|b| - 1];
      ApplyAllAppend(z, a, b[..|b| - 1]);
    }
  }

  lemma ApplyNext(z: Zone, ws: seq<Write>, w: Write)
    ensures ApplyAll(z, []) == z
    ensures ApplyAll(z, ws + [w]) == Apply(ApplyAll(z, ws), w)
  {
    assert (ws + [w])[..|ws|] == ws;
  }

  /** With distinct ids an update reaches the one record it names. */
  lemma UpdateReachesOne(z: Zone, i: nat, data: string)
    requires i < |z.records| && forall k :: 0 <= k < |z.records| && k != i ==> z.records[k].id != z.records[i].id
    ensures var r := z.records[i];
      Apply(z, Update(r.id, r.kind, r.name, data)) == z.(records := z.records[i := r.(data := data)])
  {
  }

  /** The records when the first `i` have been looked at. */
  function PartFixed(cfg: Config, rs: seq<Record>, i: nat): (ps: seq<Record>)
    requires i <= |rs|
    ensures |ps| == |rs|
    ensures forall k :: 0 <= k < |rs| ==> ps[k] == if k < i then FixOne(cfg, rs[k]) else rs[k]
  {
    Fix(cfg, rs[..i]) + rs[i..]
  }

  /** Looking at record `i` takes the partly fixed records one further. */
  lemma FixNext(cfg: Config, z: Zone, i: nat)
    requires Valid(z) && i < |z.records|
    ensures var r, part := z.records[i], z.(records := PartFixed(cfg, z.records, i));
      z.(records := PartFixed(cfg, z.records, i + 1)) ==
        if Matched(cfg, r) then Apply(part, Update(r.id, r.kind, r.name, Target(cfg, r.kind))) else part
  {
    hide Answers, AnswersAny, Contains, Target, Matched, PartFixed, Apply;
    var r, part := z.records[i], PartFixed(cfg, z.records, i);
    if Matched(cfg, r) {
      UpdateReachesOne(z.(records := part), i, Target(cfg, r.kind));
      assert part[i := r.(data := Target(cfg, r.kind))] == PartFixed(cfg, z.records, i + 1);
    } else {
      assert part == PartFixed(cfg, z.records, i + 1);
    }
  }

  /** Updating as far as record `i` fixes exactly the records before it. */
  lemma {:induction false} UpdatesFix(cfg: Config, z: Zone, i: nat)
    requires Valid(z) && i <= |z.records|
    ensures ApplyAll(z, Updates(cfg, z.records[..i])) == z.(records := PartFixed(cfg, z.records, i))
    decreases i
  {
    hide Matched, Target, Apply, Updates, ApplyAll, Valid, FixOne, PartFixed;
    if i > 0 {
      UpdatesFix(cfg, z, i - 1);
      UpdatesNext(cfg, z.records, i - 1);
      FixNext(cfg, z, i - 1);
      var r := z.records[i - 1];
      ApplyNext(z, Updates(cfg, z.records[..i - 1]), Update(r.id, r.kind, r.name, Target(cfg, r.kind)));
    } else {
      RunStarts(cfg, z);
      assert PartFixed(cfg, z.records, 0) == z.records;
    }
  }

  lemma AllFixed(cfg: Config, z: Zone)
    requires Valid(z)
    ensures ApplyAll(z, Updates(cfg, z.records)) == z.(records := Fix(cfg, z.records))
  {
    hide Matched;
    assert z.records[..|z.records|] == z.records;
    UpdatesFix(cfg, z, |z.records|);
    assert PartFixed(cfg, z.records, |z.records|) == Fix(cfg, z.records);
  }

  lemma {:induction false} CreatesAdd(z: Zone, ws: seq<Write>)
    requires forall i :: 0 <= i < |ws| ==> ws[i].Create?
    ensures ApplyAll(z, ws) == Zone(z.records + Added(ws, z.nextId), z.nextId + |ws|)
  {
    if ws == [] {
      assert z.records + Added(ws, z.nextId) == z.records;
    } else {
      var front := ws[..|ws| - 1];
      CreatesAdd(z, front);
      assert z.records + Added(front, z.nextId) + [Added(ws, z.nextId)[|ws| - 1]] == z.records + Added(ws, z.nextId);
    }
  }

  /** A complete run: every old record fixed in place, then the missing ones added. */
  lemma FullIs(cfg: Config, z: Zone)
    requires Valid(z)
    ensures var cs := Creates(cfg, z.records, Plan(cfg));
      Full(cfg, z) == Zone(Fix(cfg, z.records) + Added(cs, z.nextId), z.nextId + |cs|)
  {
    hide Plan, Answers, Label, Matched, Contains, Target;
    var cs := Creates(cfg, z.records, Plan(cfg));
    ApplyAllAppend(z, Updates(cfg, z.records), cs);
    AllFixed(cfg, z);
    CreatesAdd(z.(records := Fix(cfg, z.records)), cs);
  }

  lemma FixKeepsNames(cfg: Config, rs: seq<Record>, item: (string, Key))
    ensures Found(cfg, Fix(cfg, rs), item) == Found(cfg, rs, item)
    ensures Fix(cfg, Fix(cfg, rs)) == Fix(cfg, rs)
  {
    hide Plan, Answers, Label, Matched, Contains, Target;
    var fs := Fix(cfg, rs);
    if Found(cfg, rs, item) {
      var i :| 0 <= i < |rs| && Serves(cfg, rs[i], item);
      assert Serves(cfg, fs[i], item);
    }
    if Found(cfg, fs, item) {
      var i :| 0 <= i < |fs| && Serves(cfg, fs[i], item);
      assert Serves(cfg, rs[i], item);
    }
  }

  lemma PlanKinds(cfg: Config, item: (string, Key))
    requires item in Plan(cfg)
    ensures item.0 == "A" || (item.0 == "AAAA" && cfg.ipv6.Some? && !item.1.Www?)
  {
  }

  /** A record that serves a required name is one the run keeps at the droplet's address. */
  lemma ServingIsMatched(cfg: Config, r: Record, item: (string, Key))
    requires item in Plan(cfg) && Serves(cfg, r, item)
    ensures Matched(cfg, r)
  {
    PlanKinds(cfg, item);
  }

  lemma CreatedServes(cfg: Config, r: Record, item: (string, Key))
    requires r.kind == item.0 && r.name == Label(cfg, item.1)
    ensures Serves(cfg, r, item)
  {
  }

  lemma {:induction false} MissingIsCreated(cfg: Config, rs: seq<Record>, plan: seq<(string, Key)>, item: (string, Key))
    requires item in plan && !Found(cfg, rs, item)
    ensures Create(item.0, Label(cfg, item.1), Target(cfg, item.0)) in Creates(cfg, rs, plan)
  {
    if item != plan[|plan| - 1] { MissingIsCreated(cfg, rs, plan[..|plan| - 1], item); }
  }

  /** After a complete run every required name has a record at the droplet's address. */
  lemma EveryRequiredNameIsServed(cfg: Config, z: Zone, item: (string, Key))
    requires Valid(z) && item in Plan(cfg)
    ensures exists r :: r in Full(cfg, z).records && Serves(cfg, r, item) && r.data == Target(cfg, item.0)
  {
    hide Plan, Answers, Label, Matched, Contains, Target;
    FullIs(cfg, z);
    var cs := Creates(cfg, z.records, Plan(cfg));
    if Found(cfg, z.records, item) {
      var i :| 0 <= i < |z.records| && Serves(cfg, z.records[i], item);
      ServingIsMatched(cfg, z.records[i], item);
      var r := Full(cfg, z).records[i];
      assert r == FixOne(cfg, z.records[i]);
      assert r in Full(cfg, z).records && Serves(cfg, r, item);
    } else {
      MissingIsCreated(cfg, z.records, Plan(cfg), item);
      var j :| 0 <= j < |cs| && cs[j] == Create(item.0, Label(cfg, item.1), Target(cfg, item.0));
      var r := Full(cfg, z).records[|z.records| + j];
      assert r == Added(cs, z.nextId)[j];
      CreatedServes(cfg, r, item);
      assert r in Full(cfg, z).records && Serves(cfg, r, item);
    }
  }

  /** And every record there was is still there: matched ones at the droplet's address, the others untouched. */
  lemma OldRecordsAfterARun(cfg: Config, z: Zone, i: nat)
    requires Valid(z) && i < |z.records|
    ensures i < |Full(cfg, z).records|
    ensures var r := z.records[i];
      Full(cfg, z).records[i] == if Matched(cfg, r) then r.(data := Target(cfg, r.kind)) else r
  {
    hide Plan, Answers, Label, Matched, Contains, Target;
    FullIs(cfg, z);
  }

  /* ---- running again ---- */

  lemma {:induction false} NothingMissing(cfg: Config, rs: seq<Record>, plan: seq<(string, Key)>)
    requires forall i :: 0 <= i < |plan| ==> Found(cfg, rs, plan[i])
    ensures Creates(cfg, rs, plan) == []
  {
    if plan != [] { NothingMissing(cfg, rs, plan[..|plan| - 1]); }
  }

  lemma {:induction false} CreatedAreFixed(cfg: Config, rs: seq<Record>, plan: seq<(string, Key)>, nextId: nat)
    requires forall i :: 0 <= i < |plan| ==> plan[i] in Plan(cfg)
    ensures var cs := Creates(cfg, rs, plan); Fix(cfg, Added(cs, nextId)) == Added(cs, nextId)
  {
    hide Plan, Answers, Label, Matched, Contains, Target;
    if plan != [] {
      var front, item, cs := plan[..|plan| - 1], plan[|plan| - 1], Creates(cfg, rs, plan);
      CreatedAreFixed(cfg, rs, front, nextId);
      var before := Creates(cfg, rs, front);
      assert forall i :: 0 <= i < |before| ==>
        Added(cs, nextId)[i] == Added(before, nextId)[i] == Fix(cfg, Added(before, nextId))[i];
      if !Found(cfg, rs, item) {
        var r := Added(cs, nextId)[|before|];
        CreatedServes(cfg, r, item);
        ServingIsMatched(cfg, r, item);
      }
    }
  }

  lemma FullIsValid(cfg: Config, z: Zone)
    requires Valid(z)
    ensures Valid(Full(cfg, z))
  {
    hide Plan, Full, Creates, Matched;
    FullIs(cfg, z);
  }

  lemma NoneMissingAfter(cfg: Config, z: Zone)
    requires Valid(z)
    ensures forall i :: 0 <= i < |Plan(cfg)| ==> Found(cfg, Full(cfg, z).records, Plan(cfg)[i])
  {
    hide Plan, Answers, Label, Matched, Contains, Target, Full;
    forall i | 0 <= i < |Plan(cfg)| ensures Found(cfg, Full(cfg, z).records, Plan(cfg)[i]) {
      EveryRequiredNameIsServed(cfg, z, Plan(cfg)[i]);
      var r :| r in Full(cfg, z).records && Serves(cfg, r, Plan(cfg)[i]);
    }
  }

  /** A second complete run creates nothing and changes nothing. */
  lemma SecondRunIsIdle(cfg: Config, z: Zone)
    requires Valid(z)
    ensures var z' := Full(cfg, z);
      Valid(z') && Creates(cfg, z'.records, Plan(cfg)) == [] && Full(cfg, z') == z'
  {
    hide Plan, Fix, Full, Creates, Found, Valid;
    var z', cs := Full(cfg, z), Creates(cfg, z.records, Plan(cfg));
    FullIs(cfg, z);
    FullIsValid(cfg, z);
    NoneMissingAfter(cfg, z);
    NothingMissing(cfg, z'.records, Plan(cfg));
    FullIs(cfg, z');
    FixKeepsNames(cfg, z.records, ("A", Root));
    CreatedAreFixed(cfg, z.records, Plan(cfg), z.nextId);
    FixAppend(cfg, Fix(cfg, z.records), Added(cs, z.nextId));
    assert z'.records + Added([], z'.nextId) == z'.records;
  }

  lemma FixAppend(cfg: Config, a: seq<Record>, b: seq<Record>)
    ensures Fix(cfg, a + b) == Fix(cfg, a) + Fix(cfg, b)
  {
  }

  /* ---- being cut off and run again ---- */

  /** No name that is created early counts as a record that is still to be created. */
  ghost predicate NoAlias(cfg: Config) {
    forall i, j :: 0 <= i < j < |Plan(cfg)| && Plan(cfg)[i].0 == Plan(cfg)[j].0 ==>
      !Answers(cfg, Plan(cfg)[j].1, Label(cfg, Plan(cfg)[i].1))
  }

  lemma {:induction false} UpdatesPrefix(cfg: Config, rs: seq<Record>, n: nat) returns (i: nat)
    requires n <= |Updates(cfg, rs)|
    ensures i <= |rs| && Updates(cfg, rs[..i]) == Updates(cfg, rs)[..n]
    decreases |rs|
  {
    if n == |Updates(cfg, rs)| {
      i := |rs|;
      assert rs[..i] == rs;
    } else {
      i := UpdatesPrefix(cfg, rs[..|rs| - 1], n);
      assert rs[..|rs| - 1][..i] == rs[..i];
    }
  }

  lemma {:induction false} CreatesPrefix(cfg: Config, rs: seq<Record>, plan: seq<(string, Key)>, n: nat)
    returns (t: nat)
    requires n <= |Creates(cfg, rs, plan)|
    ensures t <= |plan| && Creates(cfg, rs, plan[..t]) == Creates(cfg, rs, plan)[..n]
    decreases |plan|
  {
    if n == |Creates(cfg, rs, plan)| {
      t := |plan|;
      assert plan[..t] == plan;
    } else {
      t := CreatesPrefix(cfg, rs, plan[..|plan| - 1], n);
      assert plan[..|plan| - 1][..t] == plan[..t];
    }
  }

  lemma {:induction false} CreatesAppend(cfg: Config, rs: seq<Record>, p: seq<(string, Key)>, q: seq<(string, Key)>)
    ensures Creates(cfg, rs, p + q) == Creates(cfg, rs, p) + Creates(cfg, rs, q)
    decreases |q|
  {
    if q == [] {
      assert p + q == p;
    } else {
      assert (p + q)[..|p + q| - 1] == p + q[..|q| - 1];
      CreatesAppend(cfg, rs, p, q[..|q| - 1]);
    }
  }

  lemma {:induction false} SameFoundSameCreates(cfg: Config, rs: seq<Record>, rs': seq<Record>,
                                                plan: seq<(string, Key)>)
    requires forall i :: 0 <= i < |plan| ==> Found(cfg, rs, plan[i]) == Found(cfg, rs', plan[i])
    ensures Creates(cfg, rs, plan) == Creates(cfg, rs', plan)
  {
    if plan != [] { SameFoundSameCreates(cfg, rs, rs', plan[..|plan| - 1]); }
  }

  lemma PartFixedFixes(cfg: Config, rs: seq<Record>, i: nat, item: (string, Key))
    requires i <= |rs|
    ensures var ps := PartFixed(cfg, rs, i);
      Fix(cfg, ps) == Fix(cfg, rs) && Found(cfg, ps, item) == Found(cfg, rs, item)
  {
    var ps := PartFixed(cfg, rs, i);
    FixKeepsNames(cfg, rs, item);
    FixKeepsNames(cfg, ps, item);
    FixOneTwice(cfg, rs);
    hide Plan, Answers, Label, Matched, Contains, Target, PartFixed, FixOne;
    assert Fix(cfg, ps) == Fix(cfg, rs);
  }

  lemma FixOneTwice(cfg: Config, rs: seq<Record>)
    ensures forall k :: 0 <= k < |rs| ==> FixOne(cfg, FixOne(cfg, rs[k])) == FixOne(cfg, rs[k])
  {
    hide Answers, AnswersAny, Contains, Target;
  }

  /** Cut off while updating: the rerun ends where a complete run would have. */
  lemma CutWhileUpdating(cfg: Config, z: Zone, n: nat)
    requires Valid(z) && n <= |Updates(cfg, z.records)|
    ensures Valid(Cut(cfg, z, n)) && Full(cfg, Cut(cfg, z, n)) == Full(cfg, z)
  {
    hide Plan, Answers, Label, Matched, Contains, Target, Updates, Creates, ApplyAll, Full, Found, Fix, PartFixed;
    var i := UpdatesPrefix(cfg, z.records, n);
    UpdatesFix(cfg, z, i);
    assert Writes(cfg, z.records)[..n] == Updates(cfg, z.records)[..n];
    var c := Cut(cfg, z, n);
    assert c == z.(records := PartFixed(cfg, z.records, i));
    forall k | 0 <= k < |Plan(cfg)| ensures Found(cfg, c.records, Plan(cfg)[k]) == Found(cfg, z.records, Plan(cfg)[k]) {
      PartFixedFixes(cfg, z.records, i, Plan(cfg)[k]);
    }
    PartFixedFixes(cfg, z.records, i, ("A", Root));
    SameFoundSameCreates(cfg, c.records, z.records, Plan(cfg));
    FullIs(cfg, z);
    FullIs(cfg, c);
  }

  /** The zone of a run cut off while creating: everything fixed, the plan's first `t` items served. */
  lemma CutWhileCreating(cfg: Config, z: Zone, n: nat) returns (t: nat)
    requires Valid(z) && |Updates(cfg, z.records)| <= n <= |Writes(cfg, z.records)|
    ensures t <= |Plan(cfg)|
    ensures Creates(cfg, z.records, Plan(cfg)[..t])
         == Creates(cfg, z.records, Plan(cfg))[..n - |Updates(cfg, z.records)|]
    ensures var done := Creates(cfg, z.records, Plan(cfg)[..t]);
      && Cut(cfg, z, n) == Zone(Fix(cfg, z.records) + Added(done, z.nextId), z.nextId + |done|)
      && Fix(cfg, Cut(cfg, z, n).records) == Cut(cfg, z, n).records
  {
    hide Plan, Answers, Label, Matched, Contains, Target;
    var us, cs := Updates(cfg, z.records), Creates(cfg, z.records, Plan(cfg));
    var m := n - |us|;
    t := CreatesPrefix(cfg, z.records, Plan(cfg), m);
    assert Writes(cfg, z.records)[..n] == us + cs[..m];
    ApplyAllAppend(z, us, cs[..m]);
    AllFixed(cfg, z);
    CreatesAdd(z.(records := Fix(cfg, z.records)), cs[..m]);
    FixKeepsNames(cfg, z.records, ("A", Root));
    CreatedAreFixed(cfg, z.records, Plan(cfg)[..t], z.nextId);
    FixAppend(cfg, Fix(cfg, z.records), Added(cs[..m], z.nextId));
  }

  lemma {:induction false} CreatedComeFrom(cfg: Config, rs: seq<Record>, plan: seq<(string, Key)>, k: nat)
    returns (i: nat)
    requires k < |Creates(cfg, rs, plan)|
    ensures i < |plan| && Creates(cfg, rs, plan)[k] == Create(plan[i].0, Label(cfg, plan[i].1), Target(cfg, plan[i].0))
  {
    if k < |Creates(cfg, rs, plan[..|plan| - 1])| {
      i := CreatedComeFrom(cfg, rs, plan[..|plan| - 1], k);
    } else {
      i := |plan| - 1;
    }
  }

  /** With the first `t` items served, which items are served now. */
  lemma FoundAfterCut(cfg: Config, z: Zone, t: nat, j: nat)
    requires t <= |Plan(cfg)| && j < |Plan(cfg)|
    ensures var done := Creates(cfg, z.records, Plan(cfg)[..t]);
      var rs := Fix(cfg, z.records) + Added(done, z.nextId);
      && (j < t || Found(cfg, z.records, Plan(cfg)[j]) ==> Found(cfg, rs, Plan(cfg)[j]))
      && (NoAlias(cfg) && j >= t && Found(cfg, rs, Plan(cfg)[j]) ==> Found(cfg, z.records, Plan(cfg)[j]))
  {
    hide Plan, Answers, Label, Matched, Contains, Target;
    var plan, item := Plan(cfg), Plan(cfg)[j];
    var done := Creates(cfg, z.records, plan[..t]);
    var fixed, added := Fix(cfg, z.records), Added(done, z.nextId);
    var rs := fixed + added;
    FixKeepsNames(cfg, z.records, item);
    if Found(cfg, z.records, item) {
      var i :| 0 <= i < |fixed| && Serves(cfg, fixed[i], item);
      assert rs[i] == fixed[i];
    } else if j < t {
      assert item == plan[..t][j];
      MissingIsCreated(cfg, z.records, plan[..t], item);
      var k :| 0 <= k < |done| && done[k] == Create(item.0, Label(cfg, item.1), Target(cfg, item.0));
      assert rs[|fixed| + k] == added[k];
      CreatedServes(cfg, rs[|fixed| + k], item);
    } else if NoAlias(cfg) {
      forall k | 0 <= k < |rs| ensures !Serves(cfg, rs[k], item) {
        if k < |fixed| {
          assert rs[k] == fixed[k] && !Found(cfg, fixed, item);
        } else {
          var i := CreatedComeFrom(cfg, z.records, plan[..t], k - |fixed|);
          assert plan[..t][i] == plan[i] && rs[k] == added[k - |fixed|];
        }
      }
    }
  }

  lemma AddingKeepsValid(cfg: Config, z: Zone, ws: seq<Write>)
    requires Valid(z) && forall i :: 0 <= i < |ws| ==> ws[i].Create?
    ensures Valid(Zone(Fix(cfg, z.records) + Added(ws, z.nextId), z.nextId + |ws|))
  {
    hide Matched;
  }

  lemma AddedAppend(a: seq<Write>, b: seq<Write>, nextId: nat)
    requires (forall i :: 0 <= i < |a| ==> a[i].Create?) && (forall i :: 0 <= i < |b| ==> b[i].Create?)
    ensures Added(a + b, nextId) == Added(a, nextId) + Added(b, nextId + |a|)
  {
  }

  lemma CutWhileCreatingRestarts(cfg: Config, z: Zone, n: nat)
    requires Valid(z) && NoAlias(cfg) && |Updates(cfg, z.records)| <= n <= |Writes(cfg, z.records)|
    ensures Valid(Cut(cfg, z, n)) && Full(cfg, Cut(cfg, z, n)) == Full(cfg, z)
  {
    hide Plan, Answers, Label, Matched, Contains, Target, Updates, Creates, ApplyAll, Full, Found, Fix, Added, Valid;
    var t := CutWhileCreating(cfg, z, n);
    var plan, c := Plan(cfg), Cut(cfg, z, n);
    var done, rest := Creates(cfg, z.records, plan[..t]), Creates(cfg, z.records, plan[t..]);
    assert plan == plan[..t] + plan[t..];
    CreatesAppend(cfg, z.records, plan[..t], plan[t..]);
    CreatesAppend(cfg, c.records, plan[..t], plan[t..]);
    forall j | 0 <= j < |plan|
      ensures j < t ==> Found(cfg, c.records, plan[j])
      ensures j >= t ==> Found(cfg, c.records, plan[j]) == Found(cfg, z.records, plan[j])
    {
      FoundAfterCut(cfg, z, t, j);
    }
    NothingMissing(cfg, c.records, plan[..t]);
    SameFoundSameCreates(cfg, c.records, z.records, plan[t..]);
    AddingKeepsValid(cfg, z, done);
    FullIs(cfg, z);
    FullIs(cfg, c);
    assert done + rest == Creates(cfg, z.records, plan);
    AddedAppend(done, rest, z.nextId);
    assert Creates(cfg, c.records, plan) == [] + rest == rest;
    assert (Fix(cfg, z.records) + Added(done, z.nextId)) + Added(rest, z.nextId + |done|)
      == Fix(cfg, z.records) + Added(done + rest, z.nextId);
  }

  /** With no aliases, a run cut off after any write and then run again ends where one complete run would. */
  lemma RestartIsSafe(cfg: Config, z: Zone, n: nat)
    requires Valid(z) && NoAlias(cfg) && n <= |Writes(cfg, z.records)|
    ensures Full(cfg, Cut(cfg, z, n)) == Full(cfg, z)
  {
    hide Plan, Answers, Label, Matched, Contains, Target;
    if n <= |Updates(cfg, z.records)| {
      CutWhileUpdating(cfg, z, n);
    } else {
      CutWhileCreatingRestarts(cfg, z, n);
    }
  }

  lemma {:induction false} AtMostThePlan(cfg: Config, rs: seq<Record>, plan: seq<(string, Key)>)
    ensures |Creates(cfg, rs, plan)| <= |plan|
    ensures (exists j :: 0 <= j < |plan| && Found(cfg, rs, plan[j])) ==> |Creates(cfg, rs, plan)| < |plan|
    ensures rs == [] ==> |Creates(cfg, rs, plan)| == |plan|
  {
    hide Plan, Answers, Label, Matched, Contains, Target;
    if plan != [] { AtMostThePlan(cfg, rs, plan[..|plan| - 1]); }
  }

  /** From an empty zone the first `t` writes create the plan's first `t` names. */
  lemma FirstNames(cfg: Config, t: nat)
    requires t <= |Plan(cfg)|
    ensures var z := Zone([], 0); var done := Creates(cfg, [], Plan(cfg)[..t]);
      && t == |done| <= |Writes(cfg, [])|
      && Cut(cfg, z, t) == Zone(Added(done, 0), t)
  {
    hide Plan, Answers, Label, Matched, Contains, Target, Creates, ApplyAll, Found;
    var z, plan := Zone([], 0), Plan(cfg);
    var done := Creates(cfg, [], plan[..t]);
    assert Updates(cfg, []) == [];
    AtMostThePlan(cfg, [], plan[..t]);
    assert plan == plan[..t] + plan[t..];
    CreatesAppend(cfg, [], plan[..t], plan[t..]);
    assert Writes(cfg, [])[..t] == done;
    CreatesAdd(z, done);
    assert [] + Added(done, 0) == Added(done, 0);
  }

  /** Item `i`'s record answers item `j` in the zone that has the plan's first `i + 1` names. */
  lemma AliasIsFound(cfg: Config, i: nat, j: nat)
    requires i < j < |Plan(cfg)| && Plan(cfg)[i].0 == Plan(cfg)[j].0
    requires Answers(cfg, Plan(cfg)[j].1, Label(cfg, Plan(cfg)[i].1))
    ensures Found(cfg, Added(Creates(cfg, [], Plan(cfg)[..i + 1]), 0), Plan(cfg)[j])
  {
    hide Plan, Answers, Label, Matched, Contains, Target;
    var plan := Plan(cfg);
    var done := Creates(cfg, [], plan[..i + 1]);
    assert plan[..i + 1][..i] == plan[..i];
    AtMostThePlan(cfg, [], plan[..i]);
    assert done[i] == Create(plan[i].0, Label(cfg, plan[i].1), Target(cfg, plan[i].0));
    assert Serves(cfg, Added(done, 0)[i], plan[j]);
  }

  lemma FirstNamesAreServed(cfg: Config, t: nat)
    requires t <= |Plan(cfg)|
    ensures Creates(cfg, Added(Creates(cfg, [], Plan(cfg)[..t]), 0), Plan(cfg)[..t]) == []
  {
    hide Plan, Answers, Label, Matched, Contains, Target, Updates, Creates, Found;
    var plan := Plan(cfg);
    var rs := Added(Creates(cfg, [], plan[..t]), 0);
    forall k | 0 <= k < t ensures Found(cfg, rs, plan[..t][k]) {
      FoundAfterCut(cfg, Zone([], 0), t, k);
      assert Fix(cfg, []) + rs == rs;
    }
    NothingMissing(cfg, rs, plan[..t]);
  }

  /** With an alias it does not: from an empty zone, stopping right after the early name, one record stays missing. */
  lemma AliasBreaksRestart(cfg: Config, i: nat, j: nat)
    requires i < j < |Plan(cfg)| && Plan(cfg)[i].0 == Plan(cfg)[j].0
    requires Answers(cfg, Plan(cfg)[j].1, Label(cfg, Plan(cfg)[i].1))
    ensures var z := Zone([], 0);
      i + 1 <= |Writes(cfg, z.records)| && |Full(cfg, Cut(cfg, z, i + 1)).records| < |Full(cfg, z).records|
  {
    hide Plan, Answers, Label, Matched, Contains, Target, Updates, Creates, ApplyAll, Full, Found, Cut, Writes, Fix;
    var z, plan, t := Zone([], 0), Plan(cfg), i + 1;
    FirstNames(cfg, t);
    FirstNamesAreServed(cfg, t);
    AliasIsFound(cfg, i, j);
    var c := Cut(cfg, z, t);
    assert plan[t..][j - t] == plan[j];
    AtMostThePlan(cfg, c.records, plan[t..]);
    AtMostThePlan(cfg, [], plan);
    assert plan == plan[..t] + plan[t..];
    CreatesAppend(cfg, c.records, plan[..t], plan[t..]);
    FullCount(cfg, z);
    FullCount(cfg, c);
  }

  lemma FullCount(cfg: Config, z: Zone)
    requires Valid(z)
    ensures |Full(cfg, z).records| == |z.records| + |Creates(cfg, z.records, Plan(cfg))|
  {
    FullIs(cfg, z);
  }

  ghost predicate Restartable(cfg: Config) {
    forall z, n :: Valid(z) && 0 <= n <= |Writes(cfg, z.records)| ==> Full(cfg, Cut(cfg, z, n)) == Full(cfg, z)
  }

  /** Cutting off and rerunning is harmless for every zone and every cut exactly when there is no alias. */
  lemma RestartIffNoAlias(cfg: Config)
    ensures Restartable(cfg) <==> NoAlias(cfg)
  {
    hide Plan, Answers, Label, Matched, Contains, Target;
    if NoAlias(cfg) {
      forall z, n | Valid(z) && 0 <= n <= |Writes(cfg, z.records)| ensures Full(cfg, Cut(cfg, z, n)) == Full(cfg, z) {
        RestartIsSafe(cfg, z, n);
      }
    } else {
      var i, j :| 0 <= i < j < |Plan(cfg)| && Plan(cfg)[i].0 == Plan(cfg)[j].0
        && Answers(cfg, Plan(cfg)[j].1, Label(cfg, Plan(cfg)[i].1));
      AliasBreaksRestart(cfg, i, j);
      assert Valid(Zone([], 0));
    }
  }

  /** Labels can be pairwise distinct and still alias: one may be another written with the domain. */
  lemma DistinctLabelsCanAlias(cfg: Config)
    requires cfg.traefik == cfg.pgadmin + "." + cfg.domain && cfg.ipv6.None?
    ensures cfg.traefik != cfg.pgadmin && !Restartable(cfg)
  {
    assert Plan(cfg)[2] == ("A", Traefik) && Plan(cfg)[3] == ("A", Pgadmin);
    assert |cfg.traefik| > |cfg.pgadmin|;
    RestartIffNoAlias(cfg);
  }

  ghost predicate LabelsDistinct(cfg: Config) {
    forall k, l :: k != l ==> Label(cfg, k) != Label(cfg, l)
  }

  /** A configuration whose seven labels are pairwise distinct and which a restart nevertheless breaks. */
  lemma AllLabelsDistinctAndNotRestartable() returns (cfg: Config)
    ensures LabelsDistinct(cfg) && !Restartable(cfg)
  {
    cfg := Config("d.org", "pg.d.org", "pg", "dj", "fl", "sw", "10.0.0.1", None);
    assert "pg" + "." + "d.org" == "pg.d.org";
    DistinctLabelsCanAlias(cfg);
    assert LabelsDistinct(cfg) by {
      assert |"pg.d.org"| == 8 && |"www"| == 3 && |"@"| == 1;
      assert "pg"[0] == 'p' && "dj"[0] == 'd' && "fl"[0] == 'f' && "sw"[0] == 's';
    }
  }

  /* ---- the run itself ---- */

  class Provider {
    var records: seq<Record>
    var nextId: nat

    function Snapshot(): Zone
      reads this
    {
      Zone(records, nextId)
    }

    constructor (zone: Zone)
      ensures Snapshot() == zone
    {
      records, nextId := zone.records, zone.nextId;
    }

    method UpdateRecord(id: nat, kind: string, name: string, data: string)
      modifies this
      ensures Snapshot() == Apply(old(Snapshot()), Update(id, kind, name, data))
    {
      ghost var updated := Apply(Snapshot(), Update(id, kind, name, data)).records;
      var i := 0;
      while i < |records|
        invariant 0 <= i <= |records| == |updated| && nextId == old(nextId)
        invariant |records| == |old(records)|
        invariant forall k :: 0 <= k < i ==> records[k] == updated[k]
        invariant forall k :: i <= k < |records| ==> records[k] == old(records)[k]
      {
        if records[i].id == id {
          records := records[i := Record(id, kind, name, data)];
        }
        i := i + 1;
      }
    }

    method CreateRecord(kind: string, name: string, data: string)
      modifies this
      ensures Snapshot() == Apply(old(Snapshot()), Create(kind, name, data))
    {
      records := records + [Record(nextId, kind, name, data)];
      nextId := nextId + 1;
    }

    /**
     `budget` is how many writes the API accepts before it raises; `ok` is false when the run raised.
     With IPv6 enabled and no address assigned the run raises before its first write.
     */
    method EnsureDnsRecords(cfg: Config, ipv6Enabled: bool, dryRun: bool, budget: nat) returns (ok: bool)
      modifies this
      ensures ipv6Enabled && cfg.ipv6.None? ==> !ok && Snapshot() == old(Snapshot())
      ensures !(ipv6Enabled && cfg.ipv6.None?) && dryRun ==> ok && Snapshot() == old(Snapshot())
      ensures !(ipv6Enabled && cfg.ipv6.None?) && !dryRun ==>
        var ws := Writes(cfg, old(records));
        && (ok <==> |ws| <= budget)
        && Snapshot() == if ok then Full(cfg, old(Snapshot())) else ApplyAll(old(Snapshot()), ws[..budget])
    {
      hide Plan, Answers, Label, Matched, Contains, Target, Apply, Updates, Creates, ApplyAll, Found;
      if ipv6Enabled && cfg.ipv6.None? {
        return false;
      }
      var listed := records;
      var found: set<(string, Key)> := {};
      var left := budget;
      ghost var start, ws := Snapshot(), Writes(cfg, listed);
      RunStarts(cfg, start);
      for i := 0 to |listed|
        invariant dryRun ==> Snapshot() == start
        invariant !dryRun ==> Snapshot() == ApplyAll(start, Updates(cfg, listed[..i]))
        invariant !dryRun ==> left == budget - |Updates(cfg, listed[..i])|
        invariant !dryRun ==> Updates(cfg, listed[..i]) <= Updates(cfg, listed)
        invariant forall item :: item in Plan(cfg) ==> (item in found <==> Found(cfg, listed[..i], item))
      {
        var r := listed[i];
        found := found + set item | item in Plan(cfg) && Serves(cfg, r, item);
        FoundNext(cfg, listed, i);
        UpdatesNext(cfg, listed, i);
        if Matched(cfg, r) && !dryRun {
          if left == 0 {
            assert ws[..budget] == Updates(cfg, listed[..i]);
            return false;
          }
          UpdateRecord(r.id, r.kind, r.name, Target(cfg, r.kind));
          left := left - 1;
          ApplyNext(start, Updates(cfg, listed[..i]), Update(r.id, r.kind, r.name, Target(cfg, r.kind)));
        }
      }
      assert listed[..|listed|] == listed;
      if dryRun {
        return true;
      }
      var plan := Plan(cfg);
      ghost var updated := Snapshot();
      CreatingStarts(cfg, updated, listed, plan);
      for i := 0 to |plan|
        invariant Snapshot() == ApplyAll(updated, Creates(cfg, listed, plan[..i]))
        invariant left == budget - |Updates(cfg, listed)| - |Creates(cfg, listed, plan[..i])|
        invariant Creates(cfg, listed, plan[..i]) <= Creates(cfg, listed, plan)
      {
        CreatesNext(cfg, listed, plan, i);
        if plan[i] !in found {
          if left == 0 {
            ApplyAllAppend(start, Updates(cfg, listed), Creates(cfg, listed, plan[..i]));
            assert ws[..budget] == Updates(cfg, listed) + Creates(cfg, listed, plan[..i]);
            return false;
          }
          ghost var w := Create(plan[i].0, Label(cfg, plan[i].1), Target(cfg, plan[i].0));
          CreateRecord(plan[i].0, Label(cfg, plan[i].1), Target(cfg, plan[i].0));
          left := left - 1;
          ApplyNext(updated, Creates(cfg, listed, plan[..i]), w);
        }
      }
      assert plan[..|plan|] == plan;
      ApplyAllAppend(start, Updates(cfg, listed), Creates(cfg, listed, plan));
      return true;
    }
  }

  lemma RunStarts(cfg: Config, z: Zone)
    ensures Updates(cfg, z.records[..0]) == [] && ApplyAll(z, []) == z
    ensures forall item :: item in Plan(cfg) ==> !Found(cfg, z.records[..0], item)
  {
  }

  lemma CreatingStarts(cfg: Config, z: Zone, rs: seq<Record>, plan: seq<(string, Key)>)
    ensures Creates(cfg, rs, plan[..0]) == [] && ApplyAll(z, []) == z
  {
  }

  lemma UpdatesNext(cfg: Config, rs: seq<Record>, i: nat)
    requires i < |rs|
    ensures var r := rs[i];
      Updates(cfg, rs[..i + 1]) ==
        if Matched(cfg, r) then Updates(cfg, rs[..i]) + [Update(r.id, r.kind, r.name, Target(cfg, r.kind))]
        else Updates(cfg, rs[..i])
    ensures Updates(cfg, rs[..i + 1]) <= Updates(cfg, rs)
    decreases |rs|
  {
    hide Plan, Answers, Label, Matched, Contains, Target;
    assert rs[..i + 1][..i] == rs[..i];
    if i + 1 < |rs| {
      UpdatesNext(cfg, rs[..|rs| - 1], i);
      assert rs[..|rs| - 1][..i + 1] == rs[..i + 1] && rs[..|rs| - 1][..i] == rs[..i];
    } else {
      assert rs[..i + 1] == rs;
    }
  }

  lemma CreatesNext(cfg: Config, rs: seq<Record>, plan: seq<(string, Key)>, i: nat)
    requires i < |plan|
    ensures Creates(cfg, rs, plan[..i + 1]) ==
      if Found(cfg, rs, plan[i]) then Creates(cfg, rs, plan[..i])
      else Creates(cfg, rs, plan[..i]) + [Create(plan[i].0, Label(cfg, plan[i].1), Target(cfg, plan[i].0))]
    ensures Creates(cfg, rs, plan[..i + 1]) <= Creates(cfg, rs, plan)
  {
    hide Plan, Answers, Label, Matched, Contains, Target;
    assert plan[..i + 1][..i] == plan[..i];
    assert plan == plan[..i + 1] + plan[i + 1..];
    CreatesAppend(cfg, rs, plan[..i + 1], plan[i + 1..]);
  }

  lemma FoundNext(cfg: Config, rs: seq<Record>, i: nat)
    requires i < |rs|
    ensures forall item :: item in Plan(cfg) ==>
      (Found(cfg, rs[..i + 1], item) <==> Found(cfg, rs[..i], item) || Serves(cfg, rs[i], item))
  {
    hide Plan, Answers, Label, Matched, Contains, Target;
    forall item | item in Plan(cfg)
      ensures Found(cfg, rs[..i + 1], item) <==> Found(cfg, rs[..i], item) || Serves(cfg, rs[i], item)
    {
      if Found(cfg, rs[..i], item) {
        var k :| 0 <= k < i && Serves(cfg, rs[..i][k], item);
        assert rs[..i + 1][k] == rs[..i][k];
      }
      if Serves(cfg, rs[i], item) { assert rs[..i + 1][i] == rs[i]; }
      if Found(cfg, rs[..i + 1], item) {
        var k :| 0 <= k < i + 1 && Serves(cfg, rs[..i + 1][k], item);
        if k < i { assert rs[..i][k] == rs[..i + 1][k]; }
      }
    }
  }
}
