/** The clock-aligned fixed-window limiter, against a plain history of the calls made to it. */
module AlignedLimiter {
  import opened Common
  import opened CounterStore
  import opened Decimal

  datatype Limit = Limit(windowMs: int, maxRequests: int)

  /** What a scope's settings resolve to; fixed for the run. */
  datatype Config = Config(prefix: string, limits: string -> Limit)

  datatype Call = Call(scope: string, identifier: string, ts: nat)

  datatype Verdict = Verdict(count: nat, over: bool, retryAfter: int)

  ghost predicate Valid(cfg: Config) {
    forall s :: cfg.limits(s).windowMs > 0
  }

  function BucketStart(ts: nat, windowMs: int): (start: nat)
    requires windowMs > 0
    ensures start <= ts < start + windowMs
  {
    ts - ts % windowMs
  }

  function Window(cfg: Config, c: Call): (start: nat)
    requires cfg.limits(c.scope).windowMs > 0
  {
    BucketStart(c.ts, cfg.limits(c.scope).windowMs)
  }

  function Key(prefix: string, scope: string, identifier: string, start: nat): string {
    prefix + ":rl:" + (scope + ":" + (identifier + ":" + Digits(start)))
  }

  function KeyOf(cfg: Config, c: Call): string
    requires cfg.limits(c.scope).windowMs > 0
  {
    Key(cfg.prefix, c.scope, c.identifier, Window(cfg, c))
  }

  function Hit(cfg: Config, s: Store, c: Call): Store
    requires cfg.limits(c.scope).windowMs > 0
  {
    PExpire(Incr(s, KeyOf(cfg, c), c.ts), KeyOf(cfg, c), cfg.limits(c.scope).windowMs, c.ts)
  }

  /* ---- keys ---- */

  lemma SplitAtLastColon(a: string, b: string, c: string, d: string)
    requires a + ":" + b == c + ":" + d && ':' !in b && ':' !in d
    ensures a == c && b == d
  {
    var s := a + ":" + b;
    assert s == c + ":" + d;
    assert |a| == |c| by {
      assert s[|a|] == ':' && s[|c|] == ':';
      assert forall i :: |a| < i < |s| ==> s[i] == b[i - |a| - 1];
      assert forall i :: |c| < i < |s| ==> s[i] == d[i - |c| - 1];
    }
    assert a == s[..|a|] && c == s[..|c|] && b == s[|a| + 1..] && d == s[|c| + 1..];
  }

  /** Equal keys are of the same window, and of one text cut at one colon or at two. */
  lemma SameKeySameText(prefix: string, scope: string, identifier: string, start: nat,
                        scope': string, identifier': string, start': nat)
    requires Key(prefix, scope, identifier, start) == Key(prefix, scope', identifier', start')
    ensures start == start' && scope + ":" + identifier == scope' + ":" + identifier'
  {
    var head, text, text' := prefix + ":rl:", scope + ":" + identifier, scope' + ":" + identifier';
    assert Key(prefix, scope, identifier, start) == head + (text + ":" + Digits(start));
    assert Key(prefix, scope', identifier', start') == head + (text' + ":" + Digits(start'));
    assert Key(prefix, scope, identifier, start)[|head|..] == text + ":" + Digits(start);
    assert Key(prefix, scope', identifier', start')[|head|..] == text' + ":" + Digits(start');
    SplitAtLastColon(text, Digits(start), text', Digits(start'));
    DigitsInjective(start, start');
  }

  /** The one scope followed by a colon starts the other. */
  predicate Extends(scope: string, scope': string) {
    scope + ":" <= scope'
  }

  /** Keys of two scopes, neither of which extends the other, are equal only for the same call and window. */
  lemma KeyInjective(prefix: string, scope: string, identifier: string, start: nat,
                     scope': string, identifier': string, start': nat)
    requires !Extends(scope, scope') && !Extends(scope', scope)
    requires Key(prefix, scope, identifier, start) == Key(prefix, scope', identifier', start')
    ensures scope == scope' && identifier == identifier' && start == start'
  {
    SameKeySameText(prefix, scope, identifier, start, scope', identifier', start');
    if |scope| < |scope'| {
      LongerExtends(scope, identifier, scope', identifier');
    } else if |scope'| < |scope| {
      LongerExtends(scope', identifier', scope, identifier);
    } else {
      var s := scope + ":" + identifier;
      assert scope == s[..|scope|] == scope';
      assert identifier == s[|scope| + 1..] == identifier';
    }
  }

  lemma LongerExtends(scope: string, identifier: string, scope': string, identifier': string)
    requires scope + ":" + identifier == scope' + ":" + identifier' && |scope| < |scope'|
    ensures Extends(scope, scope')
  {
    var s := scope + ":" + identifier;
    assert s[..|scope| + 1] == scope + ":";
    assert s == scope' + (":" + identifier') && s[..|scope'|] == scope';
    assert scope'[..|scope| + 1] == s[..|scope| + 1];
  }

  lemma ColonFreeExtendsNothing(scope: string, scope': string)
    requires ':' !in scope'
    ensures !Extends(scope, scope')
  {
    assert (scope + ":")[|scope|] == ':';
  }

  /** With a colon in a scope they can collide: the part after it may as well be the identifier's. */
  lemma ColonInScopeCollides(prefix: string, x: string, y: string, z: string, start: nat)
    ensures Key(prefix, x + ":" + y, z, start) == Key(prefix, x, y + ":" + z, start)
  {
    assert (x + ":" + y) + ":" + (z + ":" + Digits(start)) == x + ":" + ((y + ":" + z) + ":" + Digits(start));
  }

  /** Some call in one scope and some other call in the other share a key. */
  ghost predicate Collide(prefix: string, scope: string, scope': string) {
    exists identifier, start, identifier', start' ::
      (scope != scope' || identifier != identifier' || start != start') &&
      Key(prefix, scope, identifier, start) == Key(prefix, scope', identifier', start')
  }

  /** Exactly when calls of two scopes can share a key: one scope is the other followed by a colon and more. */
  lemma CollideIffExtends(prefix: string, scope: string, scope': string)
    ensures Collide(prefix, scope, scope') <==> Extends(scope, scope') || Extends(scope', scope)
  {
    if Collide(prefix, scope, scope') && !Extends(scope, scope') && !Extends(scope', scope) {
      var identifier, start, identifier', start' :|
        (scope != scope' || identifier != identifier' || start != start') &&
        Key(prefix, scope, identifier, start) == Key(prefix, scope', identifier', start');
      KeyInjective(prefix, scope, identifier, start, scope', identifier', start');
    }
    if Extends(scope, scope') {
      var y := scope'[|scope| + 1..];
      assert scope' == scope + ":" + y;
      ColonInScopeCollides(prefix, scope, y, "", 0);
      assert Key(prefix, scope, y + ":" + "", 0) == Key(prefix, scope', "", 0);
    }
    if Extends(scope', scope) {
      var y := scope[|scope'| + 1..];
      assert scope == scope' + ":" + y;
      ColonInScopeCollides(prefix, scope', y, "", 0);
      assert Key(prefix, scope, "", 0) == Key(prefix, scope', y + ":" + "", 0);
    }
  }

  /* ---- the counters are the history ---- */

  ghost predicate ColonFree(h: seq<Call>) {
    forall i :: 0 <= i < |h| ==> ':' !in h[i].scope
  }

  predicate SameWindow(cfg: Config, a: Call, b: Call)
    requires cfg.limits(a.scope).windowMs > 0 && cfg.limits(b.scope).windowMs > 0
  {
    a.scope == b.scope && a.identifier == b.identifier && Window(cfg, a) == Window(cfg, b)
  }

  /** How many calls of the history fall in this call's scope, identifier and window. */
  ghost function Prior(cfg: Config, h: seq<Call>, c: Call): nat
    requires Valid(cfg)
  {
    if h == [] then 0
    else Prior(cfg, h[..|h| - 1], c) + (if SameWindow(cfg, h[|h| - 1], c) then 1 else 0)
  }

  ghost function StoreAfter(cfg: Config, h: seq<Call>): Store
    requires Valid(cfg)
  {
    if h == [] then map[] else Hit(cfg, StoreAfter(cfg, h[..|h| - 1]), h[|h| - 1])
  }

  /** Each counter is its window's calls, and outlives that window; there are no other counters. */
  ghost predicate Mirrors(cfg: Config, s: Store, h: seq<Call>)
    requires Valid(cfg)
  {
    && (forall c: Call :: ':' !in c.scope && Prior(cfg, h, c) > 0 ==>
          && KeyOf(cfg, c) in s
          && s[KeyOf(cfg, c)].count == Prior(cfg, h, c)
          && s[KeyOf(cfg, c)].expiresAt.Some?
          && s[KeyOf(cfg, c)].expiresAt.value >= Window(cfg, c) + cfg.limits(c.scope).windowMs)
    && (forall c: Call :: ':' !in c.scope && Prior(cfg, h, c) == 0 ==> KeyOf(cfg, c) !in s)
  }

  lemma {:induction false} PriorSame(cfg: Config, h: seq<Call>, a: Call, b: Call)
    requires Valid(cfg) && SameWindow(cfg, a, b)
    ensures Prior(cfg, h, a) == Prior(cfg, h, b)
  {
    if h != [] { PriorSame(cfg, h[..|h| - 1], a, b); }
  }

  /** The counter this call meets: live with the window's count so far, or absent if there was none. */
  lemma CounterIsLive(cfg: Config, s: Store, h: seq<Call>, c: Call)
    requires Valid(cfg) && Mirrors(cfg, s, h) && ':' !in c.scope
    ensures Live(s, KeyOf(cfg, c), c.ts) <==> Prior(cfg, h, c) > 0
    ensures Hit(cfg, s, c)[KeyOf(cfg, c)] == Counter(Prior(cfg, h, c) + 1, Some(c.ts + cfg.limits(c.scope).windowMs))
  {
  }

  lemma SameKeyIffSameWindow(cfg: Config, c: Call, d: Call)
    requires Valid(cfg) && ':' !in c.scope && ':' !in d.scope
    ensures SameWindow(cfg, c, d) <==> KeyOf(cfg, d) == KeyOf(cfg, c)
  {
    hide Key;
    if KeyOf(cfg, d) == KeyOf(cfg, c) {
      ColonFreeExtendsNothing(c.scope, d.scope);
      ColonFreeExtendsNothing(d.scope, c.scope);
      KeyInjective(cfg.prefix, c.scope, c.identifier, Window(cfg, c), d.scope, d.identifier, Window(cfg, d));
    }
  }

  /** How one more call bears on the count of any other. */
  lemma OneMoreCall(cfg: Config, h: seq<Call>, c: Call, d: Call)
    requires Valid(cfg) && ':' !in c.scope && ':' !in d.scope
    ensures KeyOf(cfg, d) == KeyOf(cfg, c) ==>
      && Prior(cfg, h, d) == Prior(cfg, h, c)
      && cfg.limits(d.scope) == cfg.limits(c.scope)
      && Window(cfg, d) == Window(cfg, c)
    ensures Prior(cfg, h + [c], d) == Prior(cfg, h, d) + (if KeyOf(cfg, d) == KeyOf(cfg, c) then 1 else 0)
  {
    assert (h + [c])[..|h|] == h;
    SameKeyIffSameWindow(cfg, c, d);
    if SameWindow(cfg, c, d) { PriorSame(cfg, h, c, d); }
  }

  lemma HitKeepsMirror(cfg: Config, s: Store, h: seq<Call>, c: Call)
    requires Valid(cfg) && Mirrors(cfg, s, h) && ':' !in c.scope
    ensures Mirrors(cfg, Hit(cfg, s, c), h + [c])
  {
    var s' := Hit(cfg, s, c);
    CounterIsLive(cfg, s, h, c);
    assert forall k :: k != KeyOf(cfg, c) ==> (k in s' <==> k in s) && (k in s ==> s'[k] == s[k]);
    hide Key, KeyOf, Prior, SameWindow, BucketStart, Hit;
    forall d: Call | ':' !in d.scope
      ensures KeyOf(cfg, d) == KeyOf(cfg, c) ==>
        && Prior(cfg, h, d) == Prior(cfg, h, c)
        && cfg.limits(d.scope) == cfg.limits(c.scope)
        && Window(cfg, d) == Window(cfg, c)
      ensures Prior(cfg, h + [c], d) == Prior(cfg, h, d) + (if KeyOf(cfg, d) == KeyOf(cfg, c) then 1 else 0)
    {
      OneMoreCall(cfg, h, c, d);
    }
  }

  lemma {:induction false} StoreMirrorsHistory(cfg: Config, h: seq<Call>)
    requires Valid(cfg) && ColonFree(h)
    ensures Mirrors(cfg, StoreAfter(cfg, h), h)
  {
    if h != [] {
      StoreMirrorsHistory(cfg, h[..|h| - 1]);
      HitKeepsMirror(cfg, StoreAfter(cfg, h[..|h| - 1]), h[..|h| - 1], h[|h| - 1]);
      assert h[..|h| - 1] + [h[|h| - 1]] == h;
    }
  }

  /** The count returned is exactly this call's number within its scope, identifier and window. */
  lemma CountIsHistory(cfg: Config, h: seq<Call>, c: Call)
    requires Valid(cfg) && ColonFree(h + [c])
    ensures Hit(cfg, StoreAfter(cfg, h), c)[KeyOf(cfg, c)].count == Prior(cfg, h, c) + 1
  {
    assert forall i :: 0 <= i < |h| ==> h[i] == (h + [c])[i];
    StoreMirrorsHistory(cfg, h);
    assert c == (h + [c])[|h|];
    CounterIsLive(cfg, StoreAfter(cfg, h), h, c);
  }

  class Limiter {
    const cfg: Config
    var store: Store

    constructor (cfg: Config)
      ensures this.cfg == cfg && store == map[]
    {
      this.cfg := cfg;
      store := map[];
    }

    method IncrAndCheck(identifier: string, scope: string, ts: nat) returns (v: Verdict)
      requires cfg.limits(scope).windowMs > 0
      modifies this
      ensures store == Hit(cfg, old(store), Call(scope, identifier, ts))
      ensures v == Judge(cfg, Call(scope, identifier, ts), store[KeyOf(cfg, Call(scope, identifier, ts))].count)
    {
      var limit := cfg.limits(scope);
      var start := BucketStart(ts, limit.windowMs);
      var k := Key(cfg.prefix, scope, identifier, start);
      store := Incr(store, k, ts);
      var count := store[k].count;
      store := PExpire(store, k, limit.windowMs, ts);
      var over := count > limit.maxRequests;
      if !over {
        return Verdict(count, false, 0);
      }
      var remainingMs := start + limit.windowMs - ts;
      var retryAfter := (remainingMs + 999) / 1000;
      if retryAfter < 1 {
        retryAfter := 1;
      }
      return Verdict(count, true, retryAfter);
    }
  }

  function Judge(cfg: Config, c: Call, count: nat): Verdict
    requires cfg.limits(c.scope).windowMs > 0
  {
    var limit := cfg.limits(c.scope);
    if count > limit.maxRequests then Verdict(count, true, RetryAfter(Window(cfg, c) + limit.windowMs - c.ts))
    else Verdict(count, false, 0)
  }

  /* ---- what gets through ---- */

  ghost predicate Admitted(cfg: Config, h: seq<Call>, c: Call)
    requires Valid(cfg)
  {
    !Judge(cfg, c, Hit(cfg, StoreAfter(cfg, h), c)[KeyOf(cfg, c)].count).over
  }

  /** Admitted calls of one scope and identifier made from `lo` up to but not at `hi`. */
  ghost function AdmittedCalls(cfg: Config, h: seq<Call>, scope: string, identifier: string, lo: int, hi: int): nat
    requires Valid(cfg)
  {
    if h == [] then 0
    else
      var c := h[|h| - 1];
      AdmittedCalls(cfg, h[..|h| - 1], scope, identifier, lo, hi)
        + (if c.scope == scope && c.identifier == identifier && lo <= c.ts < hi && Admitted(cfg, h[..|h| - 1], c)
           then 1 else 0)
  }

  lemma InWindow(at: nat, ts: nat, w: int)
    requires w > 0
    ensures BucketStart(ts, w) == BucketStart(at, w) <==> BucketStart(at, w) <= ts < BucketStart(at, w) + w
  {
    if BucketStart(at, w) <= ts < BucketStart(at, w) + w {
      DivUnique(ts, w, at / w, ts - at / w * w);
    }
  }

  /** Of a window's calls the first `maxRequests` are admitted and the rest are not. */
  lemma {:induction false} WindowAdmits(cfg: Config, h: seq<Call>, c: Call)
    requires Valid(cfg) && ColonFree(h) && ':' !in c.scope
    ensures var limit := cfg.limits(c.scope);
      AdmittedCalls(cfg, h, c.scope, c.identifier, Window(cfg, c), Window(cfg, c) + limit.windowMs)
        == Min(Prior(cfg, h, c), Max(0, limit.maxRequests))
  {
    if h != [] {
      var front, d := h[..|h| - 1], h[|h| - 1];
      WindowAdmits(cfg, front, c);
      assert front + [d] == h;
      CountIsHistory(cfg, front, d);
      InWindow(c.ts, d.ts, cfg.limits(c.scope).windowMs);
      if SameWindow(cfg, d, c) { PriorSame(cfg, front, d, c); }
    }
  }

  lemma {:induction false} SpanSplits(cfg: Config, h: seq<Call>, scope: string, identifier: string,
                                      lo: int, hi: int, a: int, mid: int, b: int)
    requires Valid(cfg) && a <= lo && hi <= b
    ensures AdmittedCalls(cfg, h, scope, identifier, lo, hi) <=
      AdmittedCalls(cfg, h, scope, identifier, a, mid) + AdmittedCalls(cfg, h, scope, identifier, mid, b)
  {
    if h != [] { SpanSplits(cfg, h[..|h| - 1], scope, identifier, lo, hi, a, mid, b); }
  }

  /** Any span as long as the window, both ends included, admits at most twice the limit. */
  lemma SpanAdmitsTwice(cfg: Config, h: seq<Call>, scope: string, identifier: string, lo: nat)
    requires Valid(cfg) && ColonFree(h) && ':' !in scope
    ensures var limit := cfg.limits(scope);
      AdmittedCalls(cfg, h, scope, identifier, lo, lo + limit.windowMs + 1) <= 2 * Max(0, limit.maxRequests)
  {
    var w := cfg.limits(scope).windowMs;
    var b := BucketStart(lo, w);
    InWindow(lo, b, w);
    DivUnique(b + w, w, lo / w + 1, 0);
    SpanSplits(cfg, h, scope, identifier, lo, lo + w + 1, b, b + w, b + w + w);
    WindowAdmits(cfg, h, Call(scope, identifier, b));
    WindowAdmits(cfg, h, Call(scope, identifier, b + w));
  }

  /**
   A call is turned away when its count exceeds the limit, and then told the least whole number of seconds after which
   it is in a later window of the clock.
   */
  lemma RetryAfterIsLeast(cfg: Config, c: Call, count: nat, seconds: nat)
    requires Valid(cfg)
    ensures var w, v := cfg.limits(c.scope).windowMs, Judge(cfg, c, count);
      && v.count == count
      && (v.over <==> count > cfg.limits(c.scope).maxRequests)
      && (!v.over ==> v.retryAfter == 0)
      && (v.over ==> v.retryAfter >= 1 && ((c.ts + 1000 * seconds) / w > c.ts / w <==> seconds >= v.retryAfter))
  {
    InWindow(c.ts, c.ts + 1000 * seconds, cfg.limits(c.scope).windowMs);
  }
}
