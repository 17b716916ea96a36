/** Request counters and the rolling latency window behind the API's metrics endpoint. */
module ApiMetrics {
  import opened Common

  const WINDOW := 1024

  datatype Observation = Observation(status: int, latencyMs: int)

  function LatencySum(h: seq<Observation>): int {
    if h == [] then 0 else LatencySum(h[..|h| - 1]) + h[|h| - 1].latencyMs
  }

  /** Observations whose status is in the hundreds of `c`. */
  function InClass(h: seq<Observation>, c: int): nat {
    if h == [] then 0
    else InClass(h[..|h| - 1], c) + (if h[|h| - 1].status != 0 && h[|h| - 1].status / 100 == c then 1 else 0)
  }

  function Latencies(h: seq<Observation>): (r: seq<int>)
    ensures |r| == |h|
  {
    seq(|h|, i requires 0 <= i < |h| => h[i].latencyMs)
  }

  function Last(s: seq<int>, n: nat): seq<int> {
    if |s| <= n then s else s[|s| - n..]
  }

  /** What one more observation does to the totals. */
  lemma OneMore(h: seq<Observation>, o: Observation)
    ensures LatencySum(h + [o]) == LatencySum(h) + o.latencyMs
    ensures forall c :: InClass(h + [o], c) == InClass(h, c) + (if o.status != 0 && o.status / 100 == c then 1 else 0)
    ensures Latencies(h + [o]) == Latencies(h) + [o.latencyMs]
  {
    assert (h + [o])[..|h|] == h;
  }

  /** The window moves on by one. */
  lemma Slide(s: seq<int>, x: int)
    ensures var w := Last(s, WINDOW);
      Last(s + [x], WINDOW) == (if |w| == WINDOW then w[1..] else w) + [x]
  {
  }

  class Metrics {
    var requestsTotal: nat
    var responsesByClass: map<int, nat>
    var latencySum: int
    var latencyCount: nat
    var recent: seq<int>
    ghost var history: seq<Observation>

    /** The counters are the whole history's, and the window is its latest latencies. */
    ghost predicate Valid()
      reads this
    {
      && requestsTotal == latencyCount == |history|
      && latencySum == LatencySum(history)
      && responsesByClass.Keys == {1, 2, 3, 4, 5}
      && (forall c :: c in responsesByClass ==> responsesByClass[c] == InClass(history, c))
      && recent == Last(Latencies(history), WINDOW)
    }

    constructor ()
      ensures Valid() && history == []
    {
      requestsTotal, latencySum, latencyCount, recent := 0, 0, 0, [];
      responsesByClass := map[1 := 0, 2 := 0, 3 := 0, 4 := 0, 5 := 0];
      history := [];
    }

    method Observe(status: int, latencyMs: int)
      requires Valid()
      modifies this
      ensures Valid() && history == old(history) + [Observation(status, latencyMs)]
      ensures requestsTotal == old(requestsTotal) + 1 && latencyCount == old(latencyCount) + 1
      ensures latencySum == old(latencySum) + latencyMs
      ensures forall c :: 1 <= c <= 5 ==>
        responsesByClass[c] == old(responsesByClass[c]) + if 100 * c <= status < 100 * c + 100 then 1 else 0
      ensures recent == (if |old(recent)| == 1024 then old(recent)[1..] else old(recent)) + [latencyMs]
    {
      hide LatencySum, InClass, Latencies, Last;
      requestsTotal := requestsTotal + 1;
      if status != 0 && status / 100 in responsesByClass {
        responsesByClass := responsesByClass[status / 100 := responsesByClass[status / 100] + 1];
      }
      latencySum := latencySum + latencyMs;
      latencyCount := latencyCount + 1;
      if |recent| == WINDOW {
        recent := recent[1..];
      }
      recent := recent + [latencyMs];
      history := history + [Observation(status, latencyMs)];
      OneMore(old(history), Observation(status, latencyMs));
      Slide(old(Latencies(history)), latencyMs);
    }

    /** The percentile gauge: a copy of the window is sorted and read at a clamped index. */
    method WindowP95(rank: nat -> int) returns (r: Option<int>)
      requires Valid()
      ensures r == P95(rank, Last(Latencies(history), 1024))
    {
      var samples := recent;
      if samples == [] {
        return None;
      }
      SortLength(samples);
      samples := Sort(samples);
      var idx := rank(|samples|);
      idx := Max(0, Min(idx, |samples| - 1));
      r := Some(samples[idx]);
    }
  }

  /* ---- the percentile ---- */

  function Insert(x: int, s: seq<int>): seq<int> {
    if s == [] || x <= s[0] then [x] + s else [s[0]] + Insert(x, s[1..])
  }

  function Sort(s: seq<int>): seq<int> {
    if s == [] then [] else Insert(s[0], Sort(s[1..]))
  }

  ghost predicate Sorted(s: seq<int>) {
    forall i, j :: 0 <= i < j < |s| ==> s[i] <= s[j]
  }

  /**
   `rank(k)` is round(0.95 * (k - 1)) as floating point computes it: which way it rounds a half is left
   open, everything else is fixed.
   */
  ghost predicate RoundsTo95(rank: nat -> int) {
    forall k: nat :: k > 0 ==> -10 <= 20 * rank(k) - 19 * (k - 1) <= 10
  }

  function Index(rank: nat -> int, k: nat): (i: nat)
    requires k > 0
    ensures i < k
  {
    Max(0, Min(rank(k), k - 1))
  }

  function P95(rank: nat -> int, samples: seq<int>): Option<int> {
    if samples == [] then None
    else
      SortLength(samples);
      Some(Sort(samples)[Index(rank, |samples|)])
  }

  lemma {:induction false} InsertAdds(x: int, s: seq<int>)
    ensures multiset(Insert(x, s)) == multiset(s) + multiset{x}
  {
    if s != [] && x > s[0] {
      InsertAdds(x, s[1..]);
      assert s == [s[0]] + s[1..];
    }
  }

  lemma {:induction false} InsertKeeps(x: int, s: seq<int>)
    requires Sorted(s)
    ensures Sorted(Insert(x, s))
  {
    if s != [] && x > s[0] {
      InsertKeeps(x, s[1..]);
      var rest := Insert(x, s[1..]);
      assert Sorted(rest);
      forall i | 0 <= i < |rest| ensures s[0] <= rest[i] {
        hide Sorted, Insert;
        InsertAdds(x, s[1..]);
        assert rest[i] in multiset(s[1..]) + multiset{x};
        SortedHead(s, rest[i]);
      }
      PrependKeeps(s[0], rest);
    }
  }

  lemma PrependKeeps(x: int, s: seq<int>)
    requires Sorted(s) && forall i :: 0 <= i < |s| ==> x <= s[i]
    ensures Sorted([x] + s)
  {
  }

  lemma SortedHead(s: seq<int>, y: int)
    requires Sorted(s) && s != []
    ensures y in s[1..] ==> s[0] <= y
  {
  }

  lemma {:induction false} SortKeeps(s: seq<int>)
    ensures Sorted(Sort(s)) && multiset(Sort(s)) == multiset(s)
  {
    if s != [] {
      SortKeeps(s[1..]);
      InsertKeeps(s[0], Sort(s[1..]));
      InsertAdds(s[0], Sort(s[1..]));
      assert s == [s[0]] + s[1..];
    }
  }

  lemma SortLength(s: seq<int>)
    ensures |Sort(s)| == |s|
  {
    SortKeeps(s);
    assert |multiset(Sort(s))| == |Sort(s)| && |multiset(s)| == |s|;
  }

  /** The first element of a sorted sequence is its least. */
  lemma LeastFirst(a: seq<int>, y: int)
    requires Sorted(a) && y in a
    ensures a[0] <= y
  {
    var i :| 0 <= i < |a| && a[i] == y;
    assert i == 0 || a[0] <= a[i];
  }

  lemma SameLeast(a: seq<int>, b: seq<int>)
    requires Sorted(a) && Sorted(b) && multiset(a) == multiset(b) && a != [] && b != []
    ensures a[0] == b[0]
  {
    assert a[0] in multiset(b) && b[0] in multiset(a);
    hide Sorted;
    LeastFirst(a, b[0]);
    LeastFirst(b, a[0]);
  }

  lemma WithoutFirst(a: seq<int>)
    requires a != []
    ensures multiset(a[1..]) == multiset(a) - multiset{a[0]} && a == [a[0]] + a[1..]
  {
    assert a == [a[0]] + a[1..];
  }

  lemma {:induction false} SortedIsUnique(a: seq<int>, b: seq<int>)
    requires Sorted(a) && Sorted(b) && multiset(a) == multiset(b)
    ensures a == b
  {
    assert |multiset(a)| == |a| && |multiset(b)| == |b|;
    if a != [] {
      assert Sorted(a[1..]) && Sorted(b[1..]);
      hide Sorted;
      SameLeast(a, b);
      WithoutFirst(a);
      WithoutFirst(b);
      SortedIsUnique(a[1..], b[1..]);
    }
  }

  /** The order in which the samples arrived makes no difference. */
  lemma P95IgnoresOrder(rank: nat -> int, a: seq<int>, b: seq<int>)
    requires multiset(a) == multiset(b)
    ensures P95(rank, a) == P95(rank, b)
  {
    assert |multiset(a)| == |a| && |multiset(b)| == |b|;
    SortKeeps(a);
    SortKeeps(b);
    SortedIsUnique(Sort(a), Sort(b));
  }

  function AtMost(s: seq<int>, x: int): nat {
    if s == [] then 0 else (if s[0] <= x then 1 else 0) + AtMost(s[1..], x)
  }

  function AtLeast(s: seq<int>, x: int): nat {
    if s == [] then 0 else (if s[0] >= x then 1 else 0) + AtLeast(s[1..], x)
  }

  lemma {:induction false} InsertCounts(y: int, s: seq<int>, x: int)
    ensures AtMost(Insert(y, s), x) == AtMost(s, x) + (if y <= x then 1 else 0)
    ensures AtLeast(Insert(y, s), x) == AtLeast(s, x) + (if y >= x then 1 else 0)
  {
    if s == [] || y <= s[0] {
      assert ([y] + s)[1..] == s;
    } else {
      InsertCounts(y, s[1..], x);
      assert ([s[0]] + Insert(y, s[1..]))[1..] == Insert(y, s[1..]);
    }
  }

  lemma {:induction false} SortCounts(s: seq<int>, x: int)
    ensures AtMost(Sort(s), x) == AtMost(s, x) && AtLeast(Sort(s), x) == AtLeast(s, x)
  {
    if s != [] {
      SortCounts(s[1..], x);
      InsertCounts(s[0], Sort(s[1..]), x);
    }
  }

  lemma {:induction false} SortedCounts(s: seq<int>, i: nat, x: int)
    requires Sorted(s) && i < |s|
    ensures x >= s[i] ==> AtMost(s, x) >= i + 1
    ensures x <= s[i] ==> AtLeast(s, x) >= |s| - i
  {
    if i > 0 {
      SortedCounts(s[1..], i - 1, x);
    } else if |s| > 1 {
      SortedCounts(s[1..], 0, x);
    }
  }

  /**
   The gauge is one of the samples, with at least idx + 1 of them at most it and at least k - idx at
   least it, where idx is within half of 0.95 * (k - 1).
   */
  lemma P95IsAQuantile(rank: nat -> int, samples: seq<int>)
    requires RoundsTo95(rank) && samples != []
    ensures var k := |samples|; var idx, v := Index(rank, k), P95(rank, samples).value;
      && -10 <= 20 * idx - 19 * (k - 1) <= 10
      && v in samples
      && AtMost(samples, v) >= idx + 1
      && AtLeast(samples, v) >= k - idx
  {
    SortLength(samples);
    SortKeeps(samples);
    var i, v := Index(rank, |samples|), P95(rank, samples).value;
    assert v in multiset(Sort(samples));
    SortedCounts(Sort(samples), i, v);
    SortCounts(samples, v);
  }
}
