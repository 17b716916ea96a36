/**
 The tenant limiter and the tenant quota: a counter whose window starts with its first call and ends
 when its key expires. The time to live is read before, and apart from, the pipeline that increments
 the counter and, if there was none, sets it.
 */
module TenantLimiter {
  import opened Common
  import opened CounterStore
  import opened Decimal

  /** A call that has read the time to live and not yet run its pipeline. */
  datatype Pending = Pending(key: string, windowMs: int, bare: bool)

  datatype Sys = Sys(store: Store, calls: map<nat, Pending>, now: int)

  datatype Action =
    | Read(call: nat, key: string, windowMs: int)
    | Run(call: nat)
    | Wait(ms: nat)

  function Pipeline(s: Store, k: string, windowMs: int, bare: bool, now: int): Store {
    if bare then PExpire(Incr(s, k, now), k, windowMs, now) else Incr(s, k, now)
  }

  function Do(s: Sys, a: Action): Sys {
    match a
    case Read(c, k, w) =>
      if c in s.calls then s else s.(calls := s.calls[c := Pending(k, w, PTtl(s.store, k, s.now) < 0)])
    case Run(c) =>
      if c !in s.calls then s
      else
        var p := s.calls[c];
        s.(store := Pipeline(s.store, p.key, p.windowMs, p.bare, s.now), calls := s.calls - {c})
    case Wait(ms) => s.(now := s.now + ms)
  }

  ghost function Exec(s: Sys, acts: seq<Action>): Sys
    decreases |acts|
  {
    if acts == [] then s else Exec(Do(s, acts[0]), acts[1..])
  }

  /** The counter exists and would never expire. */
  predicate Endless(s: Sys, k: string) {
    k in s.store && s.store[k].expiresAt.None?
  }

  /** A call that read no time to live leaves its counter with one. */
  lemma BareCallSetsExpiry(s: Sys, c: nat)
    requires c in s.calls && s.calls[c].bare && s.calls[c].windowMs > 0
    ensures var k := s.calls[c].key;
      k in Do(s, Run(c)).store && Do(s, Run(c)).store[k].expiresAt == Some(s.now + s.calls[c].windowMs)
  {
  }

  /**
   Exactly when a pipeline leaves an endless counter behind: the call had read a time to live, and by
   now the key is gone (it expired in between) or was endless already.
   */
  lemma WhenEndless(s: Sys, c: nat)
    requires c in s.calls && s.calls[c].windowMs > 0
    ensures var k := s.calls[c].key;
      Endless(Do(s, Run(c)), k) <==> !s.calls[c].bare && (!Live(s.store, k, s.now) || Endless(s, k))
  {
  }

  ghost predicate Undisturbed(acts: seq<Action>, c: nat) {
    forall i :: 0 <= i < |acts| ==> acts[i] != Run(c)
  }

  lemma {:induction false} PendingStays(s: Sys, acts: seq<Action>, c: nat)
    requires c in s.calls && Undisturbed(acts, c)
    ensures c in Exec(s, acts).calls && Exec(s, acts).calls[c] == s.calls[c]
    decreases |acts|
  {
    if acts != [] {
      assert acts[0] != Run(c);
      PendingStays(Do(s, acts[0]), acts[1..], c);
    }
  }

  lemma {:induction false} ExecAppend(s: Sys, a: seq<Action>, b: seq<Action>)
    ensures Exec(s, a + b) == Exec(Exec(s, a), b)
    decreases |a|
  {
    if a == [] {
      assert a + b == b;
    } else {
      assert (a + b)[1..] == a[1..] + b;
      ExecAppend(Do(s, a[0]), a[1..], b);
    }
  }

  /**
   However calls interleave and keys expire between their two halves, an endless counter does not
   outlive the next complete call: it has ended before that call reads, or ends when it runs.
   */
  lemma EndlessIsShortLived(s: Sys, before: seq<Action>, c: nat, k: string, windowMs: int, between: seq<Action>)
    requires windowMs > 0 && c !in Exec(s, before).calls && Undisturbed(between, c)
    ensures
      || !Endless(Exec(s, before), k)
      || !Endless(Exec(s, before + [Read(c, k, windowMs)] + between + [Run(c)]), k)
  {
    var s1 := Exec(s, before);
    var s2 := Do(s1, Read(c, k, windowMs));
    var s3 := Exec(s2, between);
    PendingStays(s2, between, c);
    ExecAppend(s, before, [Read(c, k, windowMs)]);
    ExecAppend(s, before + [Read(c, k, windowMs)], between);
    ExecAppend(s, before + [Read(c, k, windowMs)] + between, [Run(c)]);
    assert Exec(s1, [Read(c, k, windowMs)]) == s2;
    assert Exec(s3, [Run(c)]) == Do(s3, Run(c));
    if Endless(s1, k) {
      BareCallSetsExpiry(s3, c);
    }
  }

  /* ---- how many calls a window's length of time admits ---- */

  /** The step completes a call of this key and the call is within the limit. */
  ghost predicate Admits(s: Sys, a: Action, k: string, max: int) {
    a.Run? && a.call in s.calls && s.calls[a.call].key == k && Do(s, a).store[k].count <= max
  }

  /** The admitted calls of this key that complete from `lo` to `hi`, both included. */
  ghost function Admitted(s: Sys, acts: seq<Action>, k: string, max: int, lo: int, hi: int): nat
    decreases |acts|
  {
    if acts == [] then 0
    else
      (if Admits(s, acts[0], k, max) && lo <= s.now <= hi then 1 else 0)
      + Admitted(Do(s, acts[0]), acts[1..], k, max, lo, hi)
  }

  /** Every call of this key, under way or to come, has this window. */
  ghost predicate OneWindow(s: Sys, acts: seq<Action>, k: string, windowMs: int) {
    && (forall c :: c in s.calls && s.calls[c].key == k ==> s.calls[c].windowMs == windowMs)
    && (forall i :: 0 <= i < |acts| && acts[i].Read? && acts[i].key == k ==> acts[i].windowMs == windowMs)
  }

  /** The counter has no more than one window left. */
  ghost predicate Timely(s: Sys, k: string, windowMs: int) {
    k in s.store && s.store[k].expiresAt.Some? ==> s.store[k].expiresAt.value <= s.now + windowMs
  }

  /**
   How many more calls can be admitted from `lo` to `lo + windowMs`: what the counter has left, and a further
   limit when it can still end within that time.
   */
  ghost function Left(s: Sys, k: string, windowMs: int, max: int, lo: int): nat {
    var m := Max(0, max);
    if s.now < lo then 2 * m
    else if s.now > lo + windowMs then 0
    else if !Live(s.store, k, s.now) then (if s.now == lo then 2 * m else m)
    else
      Max(0, max - s.store[k].count) +
      (if s.store[k].expiresAt.None? then (if s.now == lo then m else 0)
       else if s.store[k].expiresAt.value <= lo + windowMs then m else 0)
  }

  lemma StepUsesLeft(s: Sys, a: Action, k: string, windowMs: int, max: int, lo: int)
    requires windowMs > 0 && OneWindow(s, [a], k, windowMs) && Timely(s, k, windowMs)
    ensures Timely(Do(s, a), k, windowMs)
    ensures (if Admits(s, a, k, max) && lo <= s.now <= lo + windowMs then 1 else 0)
          + Left(Do(s, a), k, windowMs, max, lo) <= Left(s, k, windowMs, max, lo)
  {
    assert [a][0] == a;
  }

  lemma {:induction false} RunUsesLeft(s: Sys, acts: seq<Action>, k: string, windowMs: int, max: int, lo: int)
    requires windowMs > 0 && OneWindow(s, acts, k, windowMs) && Timely(s, k, windowMs)
    ensures Admitted(s, acts, k, max, lo, lo + windowMs) <= Left(s, k, windowMs, max, lo)
    decreases |acts|
  {
    if acts != [] {
      assert [acts[0]][0] == acts[0];
      StepUsesLeft(s, acts[0], k, windowMs, max, lo);
      RunUsesLeft(Do(s, acts[0]), acts[1..], k, windowMs, max, lo);
    }
  }

  /**
   However the reads and pipelines of the calls interleave, no span of one window's length, both ends included,
   admits more than twice the limit: a counter ends only by expiring, a whole window after its expiry was set.
   */
  lemma SpanAdmitsTwice(s: Sys, acts: seq<Action>, k: string, windowMs: int, max: int, lo: int)
    requires windowMs > 0 && OneWindow(s, acts, k, windowMs) && Timely(s, k, windowMs)
    ensures Admitted(s, acts, k, max, lo, lo + windowMs) <= 2 * Max(0, max)
  {
    RunUsesLeft(s, acts, k, windowMs, max, lo);
  }

  /* ---- calls that are not interrupted ---- */

  function Hit(s: Store, k: string, windowMs: int, now: int): Store {
    Pipeline(s, k, windowMs, PTtl(s, k, now) < 0, now)
  }

  ghost function StoreAfter(k: string, windowMs: int, h: seq<int>): Store {
    if h == [] then map[] else Hit(StoreAfter(k, windowMs, h[..|h| - 1]), k, windowMs, h[|h| - 1])
  }

  ghost predicate Ordered(h: seq<int>) {
    forall i, j :: 0 <= i < j < |h| ==> h[i] <= h[j]
  }

  /** When the current window started: with its first call, the first after the last window's end. */
  ghost function Anchor(h: seq<int>, windowMs: int): int
    requires h != []
  {
    if |h| == 1 then h[0]
    else
      var a := Anchor(h[..|h| - 1], windowMs);
      if h[|h| - 1] >= a + windowMs then h[|h| - 1] else a
  }

  ghost function CallsSince(h: seq<int>, t: int): nat {
    if h == [] then 0 else CallsSince(h[..|h| - 1], t) + (if h[|h| - 1] >= t then 1 else 0)
  }

  lemma {:induction false} NoneSince(h: seq<int>, t: int)
    requires forall i :: 0 <= i < |h| ==> h[i] < t
    ensures CallsSince(h, t) == 0
  {
    if h != [] { NoneSince(h[..|h| - 1], t); }
  }

  lemma {:induction false} AnchorIsACall(h: seq<int>, windowMs: int)
    requires h != [] && Ordered(h) && windowMs > 0
    ensures Anchor(h, windowMs) in h
    ensures forall i :: 0 <= i < |h| ==> h[i] < Anchor(h, windowMs) + windowMs
  {
    if |h| > 1 { AnchorIsACall(h[..|h| - 1], windowMs); }
  }

  /** The counter is the number of calls since its window's first, and expires with that window. */
  lemma {:induction false} CounterCountsSinceAnchor(k: string, windowMs: int, h: seq<int>)
    requires h != [] && Ordered(h) && windowMs > 0
    ensures var a := Anchor(h, windowMs); var s := StoreAfter(k, windowMs, h);
      k in s && s[k] == Counter(CallsSince(h, a), Some(a + windowMs))
  {
    var front, t := h[..|h| - 1], h[|h| - 1];
    if front != [] {
      CounterCountsSinceAnchor(k, windowMs, front);
      AnchorIsACall(front, windowMs);
      if t >= Anchor(front, windowMs) + windowMs { NoneSince(front, t); }
    }
  }

  /** Windows do not overlap: the next starts, with a call, no earlier than the last one ends. */
  lemma {:induction false} WindowsAreDisjoint(h: seq<int>, more: seq<int>, windowMs: int)
    requires h != [] && Ordered(h + more) && windowMs > 0
    ensures var a, b := Anchor(h, windowMs), Anchor(h + more, windowMs);
      b == a || (b >= a + windowMs && b in more)
    decreases |more|
  {
    if more == [] {
      assert h + more == h;
    } else {
      var rest, t := more[..|more| - 1], more[|more| - 1];
      assert (h + more)[..|h + more| - 1] == h + rest;
      WindowsAreDisjoint(h, rest, windowMs);
    }
  }

  /** The uninterrupted calls that are within the limit, from `lo` to `hi`. */
  ghost function AtomicAdmitted(k: string, windowMs: int, max: int, h: seq<int>, lo: int, hi: int): nat {
    if h == [] then 0
    else
      var s := StoreAfter(k, windowMs, h);
      AtomicAdmitted(k, windowMs, max, h[..|h| - 1], lo, hi)
      + (if k in s && s[k].count <= max && lo <= h[|h| - 1] <= hi then 1 else 0)
  }

  ghost function SysAfter(k: string, windowMs: int, h: seq<int>): Sys
    requires h != []
  {
    Sys(StoreAfter(k, windowMs, h), map[], h[|h| - 1])
  }

  lemma AtomicStep(s: Sys, k: string, windowMs: int, max: int, lo: int, t: int)
    requires windowMs > 0 && s.calls == map[] && s.now <= t && Timely(s, k, windowMs)
    ensures var s' := Sys(Hit(s.store, k, windowMs, t), map[], t);
      && Timely(s', k, windowMs) && k in s'.store
      && (if s'.store[k].count <= max && lo <= t <= lo + windowMs then 1 else 0) + Left(s', k, windowMs, max, lo)
         <= Left(s, k, windowMs, max, lo)
  {
    var wait, read, run := Wait(t - s.now), Read(0, k, windowMs), Run(0);
    var s1 := Do(s, wait);
    var s2 := Do(s1, read);
    assert s2.calls - {0} == map[];
    assert Do(s2, run) == Sys(Hit(s.store, k, windowMs, t), map[], t);
    hide Left, Timely;
    StepUsesLeft(s, wait, k, windowMs, max, lo);
    StepUsesLeft(s1, read, k, windowMs, max, lo);
    StepUsesLeft(s2, run, k, windowMs, max, lo);
  }

  lemma {:induction false} AtomicUsesLeft(k: string, windowMs: int, max: int, h: seq<int>, lo: int)
    requires h != [] && Ordered(h) && windowMs > 0
    ensures Timely(SysAfter(k, windowMs, h), k, windowMs)
    ensures AtomicAdmitted(k, windowMs, max, h, lo, lo + windowMs)
          + Left(SysAfter(k, windowMs, h), k, windowMs, max, lo) <= 2 * Max(0, max)
  {
    var front, t := h[..|h| - 1], h[|h| - 1];
    assert StoreAfter(k, windowMs, h) == Hit(StoreAfter(k, windowMs, front), k, windowMs, t);
    if front == [] {
      AtomicStep(Sys(map[], map[], t), k, windowMs, max, lo, t);
    } else {
      AtomicUsesLeft(k, windowMs, max, front, lo);
      AtomicStep(SysAfter(k, windowMs, front), k, windowMs, max, lo, t);
    }
  }

  /** In particular when no call is interrupted. */
  lemma AtomicSpanAdmitsTwice(k: string, windowMs: int, max: int, h: seq<int>, lo: int)
    requires Ordered(h) && windowMs > 0
    ensures AtomicAdmitted(k, windowMs, max, h, lo, lo + windowMs) <= 2 * Max(0, max)
  {
    if h != [] { AtomicUsesLeft(k, windowMs, max, h, lo); }
  }

  /** What a scope's settings resolve to, the key prefix, and whitespace stripping. */
  datatype Config = Config(prefix: string, limits: string -> (nat, int), strip: string -> string)

  function RateKey(cfg: Config, scope: string, windowMs: nat, tenant: string): string {
    cfg.prefix + ":tenant_rl:" + scope + ":" + Digits(windowMs) + ":" + tenant
  }

  function QuotaKey(cfg: Config, tenant: string, quota: string): string {
    cfg.prefix + ":tenant_quota:" + cfg.strip(quota) + ":" + cfg.strip(tenant)
  }

  /* ---- whose counter ---- */

  lemma SplitAtFirstColon(a: string, b: string, c: string, d: string)
    requires a + (":" + b) == c + (":" + d) && ':' !in a && ':' !in c
    ensures a == c && b == d
  {
    var s := a + (":" + b);
    assert s == c + (":" + d);
    assert |a| == |c| by {
      assert s[|a|] == ':' && s[|c|] == ':';
      assert forall i :: 0 <= i < |a| ==> s[i] == a[i];
      assert forall i :: 0 <= i < |c| ==> s[i] == c[i];
    }
    assert a == s[..|a|] && c == s[..|c|] && b == s[|a| + 1..] && d == s[|c| + 1..];
  }

  lemma AfterPrefix(p: string, a: string, b: string)
    requires p + a == p + b
    ensures a == b
  {
    assert (p + a)[|p|..] == a && (p + b)[|p|..] == b;
  }

  /** Rate keys of scopes without a colon are equal only for the same scope, window and tenant, whatever is in that. */
  lemma RateKeyInjective(cfg: Config, scope: string, windowMs: nat, tenant: string,
                         scope': string, windowMs': nat, tenant': string)
    requires ':' !in scope && ':' !in scope'
    requires RateKey(cfg, scope, windowMs, tenant) == RateKey(cfg, scope', windowMs', tenant')
    ensures scope == scope' && windowMs == windowMs' && tenant == tenant'
  {
    var p, w, w' := cfg.prefix + ":tenant_rl:", Digits(windowMs), Digits(windowMs');
    assert RateKey(cfg, scope, windowMs, tenant) == p + (scope + (":" + (w + (":" + tenant))));
    assert RateKey(cfg, scope', windowMs', tenant') == p + (scope' + (":" + (w' + (":" + tenant'))));
    AfterPrefix(p, scope + (":" + (w + (":" + tenant))), scope' + (":" + (w' + (":" + tenant'))));
    SplitAtFirstColon(scope, w + (":" + tenant), scope', w' + (":" + tenant'));
    SplitAtFirstColon(w, tenant, w', tenant');
    DigitsInjective(windowMs, windowMs');
  }

  /** Quota keys of quotas without a colon are equal only for the same quota and tenant, space around them aside. */
  lemma QuotaKeyInjective(cfg: Config, tenant: string, quota: string, tenant': string, quota': string)
    requires ':' !in cfg.strip(quota) && ':' !in cfg.strip(quota')
    requires QuotaKey(cfg, tenant, quota) == QuotaKey(cfg, tenant', quota')
    ensures cfg.strip(tenant) == cfg.strip(tenant') && cfg.strip(quota) == cfg.strip(quota')
  {
    var p, q, q' := cfg.prefix + ":tenant_quota:", cfg.strip(quota), cfg.strip(quota');
    var t, t' := cfg.strip(tenant), cfg.strip(tenant');
    assert QuotaKey(cfg, tenant, quota) == p + (q + (":" + t));
    assert QuotaKey(cfg, tenant', quota') == p + (q' + (":" + t'));
    AfterPrefix(p, q + (":" + t), q' + (":" + t'));
    SplitAtFirstColon(q, t, q', t');
  }

  /** No rate key is a quota key. */
  lemma RateIsNoQuota(cfg: Config, scope: string, windowMs: nat, tenant: string, tenant': string, quota: string)
    ensures RateKey(cfg, scope, windowMs, tenant) != QuotaKey(cfg, tenant', quota)
  {
    var n := |cfg.prefix|;
    assert RateKey(cfg, scope, windowMs, tenant)[n + 8] == 'r';
    assert QuotaKey(cfg, tenant', quota)[n + 8] == 'q';
  }

  /** So the calls of one tenant, whenever their two halves run, leave another tenant's counter as it is. */
  lemma TenantsHaveTheirOwnCounters(cfg: Config, s: Sys, a: Action, scope: string, windowMs: nat, tenant: string,
                                    tenant': string)
    requires tenant != tenant' && ':' !in scope
    requires a.Run? && a.call in s.calls ==> s.calls[a.call].key == RateKey(cfg, scope, windowMs, tenant')
    ensures var k := RateKey(cfg, scope, windowMs, tenant);
      && (k in Do(s, a).store <==> k in s.store)
      && (k in s.store ==> Do(s, a).store[k] == s.store[k])
  {
    if RateKey(cfg, scope, windowMs, tenant) == RateKey(cfg, scope, windowMs, tenant') {
      RateKeyInjective(cfg, scope, windowMs, tenant, scope, windowMs, tenant');
    }
    hide RateKey;
  }

  /** What the two services return, run without interruption. */
  class Service {
    const cfg: Config
    var store: Store

    constructor (cfg: Config)
      ensures this.cfg == cfg && store == map[]
    {
      this.cfg := cfg;
      store := map[];
    }

    /** The increment both services share: read the time to live, then run the pipeline. */
    method Count(k: string, windowMs: int, now: int) returns (count: nat)
      requires windowMs > 0
      modifies this
      ensures store == Hit(old(store), k, windowMs, now)
      ensures k in store && store[k].count == count
      ensures Live(store, k, now) && store[k].expiresAt.Some?
    {
      var ttl := PTtl(store, k, now);
      store := Incr(store, k, now);
      if ttl < 0 {
        store := PExpire(store, k, windowMs, now);
      }
      count := store[k].count;
    }

    /** A retry-after is the least whole number of seconds that reaches the window's end. */
    method IncrAndCheck(tenantId: string, scope: string, now: int) returns (count: nat, over: bool, retryAfter: int)
      requires cfg.limits(scope).0 > 0
      modifies this
      ensures cfg.strip(tenantId) == "" ==> store == old(store) && count == 0 && over && retryAfter == 1
      ensures cfg.strip(tenantId) != "" ==>
        var key := RateKey(cfg, scope, cfg.limits(scope).0, cfg.strip(tenantId));
        && store == Hit(old(store), key, cfg.limits(scope).0, now)
        && key in store && count == store[key].count && store[key].expiresAt.Some?
        && (over <==> count > cfg.limits(scope).1)
        && (!over ==> retryAfter == 0)
        && (over ==> retryAfter >= 1 && 1000 * (retryAfter - 1) < store[key].expiresAt.value - now <= 1000 * retryAfter)
    {
      var tenant := cfg.strip(tenantId);
      if tenant == "" {
        return 0, true, 1;
      }
      var (windowMs, maxRequests) := cfg.limits(scope);
      var key := RateKey(cfg, scope, windowMs, tenant);
      count := Count(key, windowMs, now);
      over := count > maxRequests;
      if !over {
        return count, false, 0;
      }
      var ttl := PTtl(store, key, now);
      var remainingMs := if ttl > 0 then ttl else windowMs;
      retryAfter := (remainingMs + 999) / 1000;
      if retryAfter < 1 {
        retryAfter := 1;
      }
    }

    /** Redis reports a time to live in milliseconds as the nearest second, a half rounding up. */
    method CheckQuota(tenantId: string, quota: string, limit: int, windowSeconds: int, now: int)
      returns (count: nat, exhausted: bool, untilReset: int)
      requires windowSeconds > 0
      modifies this
      ensures cfg.strip(tenantId) == "" ==>
        store == old(store) && count == 0 && exhausted && untilReset == windowSeconds
      ensures cfg.strip(tenantId) != "" ==>
        var key := QuotaKey(cfg, cfg.strip(tenantId), quota);
        && store == Hit(old(store), key, 1000 * windowSeconds, now)
        && key in store && count == store[key].count && store[key].expiresAt.Some?
        && (exhausted <==> count > limit)
        && untilReset > 0
        && (store[key].expiresAt.value - now >= 500 ==>
              -500 < 1000 * untilReset - (store[key].expiresAt.value - now) <= 500)
        && (store[key].expiresAt.value - now < 500 ==> untilReset == windowSeconds)
    {
      var tenant := cfg.strip(tenantId);
      if tenant == "" {
        return 0, true, windowSeconds;
      }
      var key := QuotaKey(cfg, tenant, quota);
      count := Count(key, 1000 * windowSeconds, now);
      var ttl := (PTtl(store, key, now) + 500) / 1000;
      exhausted := count > limit;
      untilReset := if ttl > 0 then ttl else windowSeconds;
    }
  }
}
