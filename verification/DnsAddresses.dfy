/**
 What the DNS run leaves in the zone, told from the configuration's own fields: which records have which address
 afterwards, which records are added, and which are as they were.
 */
module DnsAddresses {
  import opened Common
  import opened DnsReconcile

  /* ---- names ---- */

  ghost predicate Within(name: string, domain: string) {
    exists i: nat :: Occurs(name, domain, i)
  }

  /** The names under which a record counts as the domain's own. */
  function Apex(cfg: Config): set<string> {
    {"@", cfg.domain, ""}
  }

  /** The names under which a record counts as the label's. */
  function Sub(cfg: Config, name: string): set<string> {
    {name, name + "." + cfg.domain}
  }

  function NamesOf(cfg: Config, key: Key): set<string> {
    match key
    case Root => Apex(cfg)
    case Www => Sub(cfg, "www")
    case Traefik => Sub(cfg, cfg.traefik)
    case Pgadmin => Sub(cfg, cfg.pgadmin)
    case DjangoAdmin => Sub(cfg, cfg.djangoAdmin)
    case Flower => Sub(cfg, cfg.flower)
    case Swagger => Sub(cfg, cfg.swagger)
  }

  /** The names that IPv6 records are looked after for; IPv4 records also for www. */
  function Listed(cfg: Config): set<string> {
    Apex(cfg) + Sub(cfg, cfg.traefik) + Sub(cfg, cfg.pgadmin) + Sub(cfg, cfg.djangoAdmin) + Sub(cfg, cfg.flower)
    + Sub(cfg, cfg.swagger)
  }

  /** The record's name is listed, or has the domain in it, or is a wildcard. */
  ghost predicate Ours(cfg: Config, name: string) {
    name in Listed(cfg) || Within(name, cfg.domain) || (name != "" && name[0] == '*')
  }

  lemma MatchedIff(cfg: Config, r: Record)
    ensures Matched(cfg, r) <==>
      || (r.kind == "A" && (Ours(cfg, r.name) || r.name in Sub(cfg, "www")))
      || (r.kind == "AAAA" && cfg.ipv6.Some? && Ours(cfg, r.name))
  {
    ContainsIffOccurs(r.name, cfg.domain);
    StarIff(r.name);
    AnswersIff(cfg, r.name);
    hide Contains, Occurs, AnswersAny, Answers, Listed, Sub;
  }

  lemma StarIff(name: string)
    ensures "*" <= name <==> name != "" && name[0] == '*'
  {
  }

  lemma AnswersOne(cfg: Config, key: Key, name: string)
    ensures Answers(cfg, key, name) <==> name in NamesOf(cfg, key)
  {
  }

  lemma AnswersIff(cfg: Config, name: string)
    ensures AnswersAny(cfg, name) <==> name in Listed(cfg)
    ensures Answers(cfg, Www, name) <==> name in Sub(cfg, "www")
  {
    AnswersOne(cfg, Root, name);
    AnswersOne(cfg, Www, name);
    AnswersOne(cfg, Traefik, name);
    AnswersOne(cfg, Pgadmin, name);
    AnswersOne(cfg, DjangoAdmin, name);
    AnswersOne(cfg, Flower, name);
    AnswersOne(cfg, Swagger, name);
    hide Answers, Sub, Apex;
  }

  /* ---- records that were there ---- */

  /**
   An old record keeps its id, kind and name. An A record that is the run's business gets the IPv4 address, such an
   AAAA record the IPv6 address if there is one, and every other record is as it was.
   */
  lemma OldRecordsAddresses(cfg: Config, z: Zone, i: nat)
    requires Valid(z) && i < |z.records|
    ensures i < |Full(cfg, z).records|
    ensures var r := z.records[i];
      Full(cfg, z).records[i] ==
        if r.kind == "A" && (Ours(cfg, r.name) || r.name in Sub(cfg, "www")) then r.(data := cfg.ipv4)
        else if r.kind == "AAAA" && cfg.ipv6.Some? && Ours(cfg, r.name) then r.(data := cfg.ipv6.value)
        else r
  {
    OldRecordsAfterARun(cfg, z, i);
    MatchedIff(cfg, z.records[i]);
    hide Matched, Ours, Full;
  }

  /* ---- records that are required ---- */

  /** There is a record of this kind under one of the names, and all there are have this address. */
  ghost predicate Serving(rs: seq<Record>, kind: string, names: set<string>, data: string) {
    && (exists r :: r in rs && r.kind == kind && r.name in names)
    && (forall r :: r in rs && r.kind == kind && r.name in names ==> r.data == data)
  }

  lemma ServesIff(cfg: Config, r: Record, item: (string, Key))
    ensures Serves(cfg, r, item) <==> r.kind == item.0 && r.name in NamesOf(cfg, item.1)
  {
  }

  lemma ServedRecord(cfg: Config, z: Zone, item: (string, Key), r: Record)
    requires Valid(z) && item in Plan(cfg) && r in Full(cfg, z).records && Serves(cfg, r, item)
    ensures r.data == Target(cfg, item.0)
  {
    FullIs(cfg, z);
    SecondRunIsIdle(cfg, z);
    ServingIsMatched(cfg, r, item);
    var j :| 0 <= j < |Full(cfg, z).records| && Full(cfg, z).records[j] == r;
    OldRecordsAfterARun(cfg, Full(cfg, z), j);
    hide Full, Plan, Serves, Matched;
  }

  lemma ItemServing(cfg: Config, z: Zone, item: (string, Key))
    requires Valid(z) && item in Plan(cfg)
    ensures Serving(Full(cfg, z).records, item.0, NamesOf(cfg, item.1), Target(cfg, item.0))
  {
    EveryRequiredNameIsServed(cfg, z, item);
    forall r | r in Full(cfg, z).records
      ensures Serves(cfg, r, item) <==> r.kind == item.0 && r.name in NamesOf(cfg, item.1)
    {
      ServesIff(cfg, r, item);
    }
    forall r | r in Full(cfg, z).records && Serves(cfg, r, item) ensures r.data == Target(cfg, item.0) {
      ServedRecord(cfg, z, item, r);
    }
  }

  lemma KeyServing(cfg: Config, z: Zone, key: Key)
    requires Valid(z)
    ensures Serving(Full(cfg, z).records, "A", NamesOf(cfg, key), cfg.ipv4)
    ensures key != Www && cfg.ipv6.Some? ==> Serving(Full(cfg, z).records, "AAAA", NamesOf(cfg, key), cfg.ipv6.value)
  {
    hide Serving, Full, NamesOf;
    Planned(cfg, key);
    ItemServing(cfg, z, ("A", key));
    if key != Www && cfg.ipv6.Some? { ItemServing(cfg, z, ("AAAA", key)); }
  }

  lemma Planned(cfg: Config, key: Key)
    ensures ("A", key) in Plan(cfg) && (key != Www && cfg.ipv6.Some? ==> ("AAAA", key) in Plan(cfg))
  {
    var plan := Plan(cfg);
    if cfg.ipv6.Some? {
      assert plan[0] == ("A", Root) && plan[1] == ("A", Www) && plan[2] == ("AAAA", Root);
      assert plan[3] == ("A", Traefik) && plan[4] == ("AAAA", Traefik);
      assert plan[5] == ("A", Pgadmin) && plan[6] == ("AAAA", Pgadmin);
      assert plan[7] == ("A", DjangoAdmin) && plan[8] == ("AAAA", DjangoAdmin);
      assert plan[9] == ("A", Flower) && plan[10] == ("AAAA", Flower);
      assert plan[11] == ("A", Swagger) && plan[12] == ("AAAA", Swagger);
    } else {
      assert plan[0] == ("A", Root) && plan[1] == ("A", Www) && plan[2] == ("A", Traefik);
      assert plan[3] == ("A", Pgadmin) && plan[4] == ("A", DjangoAdmin);
      assert plan[5] == ("A", Flower) && plan[6] == ("A", Swagger);
    }
  }

  /**
   After a complete run the domain, www and the five labels have A records at the IPv4 address and, if the droplet has
   an IPv6 address, all but www have AAAA records there.
   */
  lemma RequiredAddresses(cfg: Config, z: Zone)
    requires Valid(z)
    ensures var rs := Full(cfg, z).records;
      && Serving(rs, "A", Apex(cfg), cfg.ipv4)
      && Serving(rs, "A", Sub(cfg, "www"), cfg.ipv4)
      && Serving(rs, "A", Sub(cfg, cfg.traefik), cfg.ipv4)
      && Serving(rs, "A", Sub(cfg, cfg.pgadmin), cfg.ipv4)
      && Serving(rs, "A", Sub(cfg, cfg.djangoAdmin), cfg.ipv4)
      && Serving(rs, "A", Sub(cfg, cfg.flower), cfg.ipv4)
      && Serving(rs, "A", Sub(cfg, cfg.swagger), cfg.ipv4)
    ensures var rs := Full(cfg, z).records;
      cfg.ipv6.Some? ==>
        && Serving(rs, "AAAA", Apex(cfg), cfg.ipv6.value)
        && Serving(rs, "AAAA", Sub(cfg, cfg.traefik), cfg.ipv6.value)
        && Serving(rs, "AAAA", Sub(cfg, cfg.pgadmin), cfg.ipv6.value)
        && Serving(rs, "AAAA", Sub(cfg, cfg.djangoAdmin), cfg.ipv6.value)
        && Serving(rs, "AAAA", Sub(cfg, cfg.flower), cfg.ipv6.value)
        && Serving(rs, "AAAA", Sub(cfg, cfg.swagger), cfg.ipv6.value)
  {
    hide Serving, Full, Apex, Sub;
    KeyServing(cfg, z, Root);
    KeyServing(cfg, z, Www);
    KeyServing(cfg, z, Traefik);
    KeyServing(cfg, z, Pgadmin);
    KeyServing(cfg, z, DjangoAdmin);
    KeyServing(cfg, z, Flower);
    KeyServing(cfg, z, Swagger);
  }

  /* ---- records that are added ---- */

  /** The labels of the records required, in the order in which missing ones are added. */
  function Wanted(cfg: Config): seq<(string, string, string)> {
    var four := cfg.ipv4;
    if cfg.ipv6.None? then
      [("A", "@", four), ("A", "www", four), ("A", cfg.traefik, four), ("A", cfg.pgadmin, four),
       ("A", cfg.djangoAdmin, four), ("A", cfg.flower, four), ("A", cfg.swagger, four)]
    else
      var six := cfg.ipv6.value;
      [("A", "@", four), ("A", "www", four), ("AAAA", "@", six),
       ("A", cfg.traefik, four), ("AAAA", cfg.traefik, six), ("A", cfg.pgadmin, four), ("AAAA", cfg.pgadmin, six),
       ("A", cfg.djangoAdmin, four), ("AAAA", cfg.djangoAdmin, six), ("A", cfg.flower, four),
       ("AAAA", cfg.flower, six), ("A", cfg.swagger, four), ("AAAA", cfg.swagger, six)]
  }

  lemma WantedIsPlan(cfg: Config)
    ensures |Wanted(cfg)| == |Plan(cfg)|
    ensures forall k :: 0 <= k < |Plan(cfg)| ==>
      Wanted(cfg)[k] == (Plan(cfg)[k].0, Label(cfg, Plan(cfg)[k].1), Target(cfg, Plan(cfg)[k].0))
  {
  }

  /** In an empty zone the run adds exactly those, in that order, numbered on from the zone's next id. */
  lemma EmptyZoneGetsAll(cfg: Config, nextId: nat)
    ensures var rs := Full(cfg, Zone([], nextId)).records;
      && |rs| == |Wanted(cfg)|
      && forall k :: 0 <= k < |rs| ==> rs[k] == Record(nextId + k, Wanted(cfg)[k].0, Wanted(cfg)[k].1, Wanted(cfg)[k].2)
  {
    FullIs(cfg, Zone([], nextId));
    WantedIsPlan(cfg);
    hide Plan, Wanted, Label, Target, Full;
    AllCreated(cfg, Plan(cfg));
  }

  lemma {:induction false} AllCreated(cfg: Config, plan: seq<(string, Key)>)
    ensures |Creates(cfg, [], plan)| == |plan|
    ensures forall k :: 0 <= k < |plan| ==>
      Creates(cfg, [], plan)[k] == Create(plan[k].0, Label(cfg, plan[k].1), Target(cfg, plan[k].0))
  {
    hide Label, Target, Plan, Serves;
    if plan != [] { AllCreated(cfg, plan[..|plan| - 1]); }
  }

  /** In any zone a record is added only when the old ones have none of its kind under its label's names. */
  lemma AddedOnlyIfMissing(cfg: Config, z: Zone, i: nat) returns (key: Key)
    requires Valid(z) && |z.records| <= i < |Full(cfg, z).records|
    ensures var r := Full(cfg, z).records[i];
      && (r.kind, r.name, r.data) in Wanted(cfg)
      && r.name in NamesOf(cfg, key)
      && forall j :: 0 <= j < |z.records| && z.records[j].kind == r.kind ==> z.records[j].name !in NamesOf(cfg, key)
  {
    FullIs(cfg, z);
    var cs := Creates(cfg, z.records, Plan(cfg));
    var k := CreatedFor(cfg, z.records, Plan(cfg), i - |z.records|);
    WantedIsPlan(cfg);
    var item := Plan(cfg)[k];
    key := item.1;
    assert Wanted(cfg)[k] in Wanted(cfg);
    CreatedServes(cfg, Full(cfg, z).records[i], item);
    ServesIff(cfg, Full(cfg, z).records[i], item);
    forall j | 0 <= j < |z.records| && z.records[j].kind == item.0 ensures z.records[j].name !in NamesOf(cfg, key) {
      ServesIff(cfg, z.records[j], item);
    }
    hide Plan, Wanted, Label, Target, Full, NamesOf, Serves;
  }

  lemma {:induction false} CreatedFor(cfg: Config, rs: seq<Record>, plan: seq<(string, Key)>, i: nat) returns (k: nat)
    requires i < |Creates(cfg, rs, plan)|
    ensures k < |plan| && !Found(cfg, rs, plan[k])
    ensures Creates(cfg, rs, plan)[i] == Create(plan[k].0, Label(cfg, plan[k].1), Target(cfg, plan[k].0))
  {
    hide Label, Target, Plan, Found;
    var front := plan[..|plan| - 1];
    if i < |Creates(cfg, rs, front)| {
      k := CreatedFor(cfg, rs, front, i);
    } else {
      k := |plan| - 1;
    }
  }
}
