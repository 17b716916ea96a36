/** The Redis commands the limiters use, over a map of expiring counters. Times are milliseconds. */
module CounterStore {
  import opened Common

  datatype Counter = Counter(count: nat, expiresAt: Option<int>)

  type Store = map<string, Counter>

  /** A key is there until its expiry time; one without an expiry time is there for good. */
  predicate Live(s: Store, k: string, now: int) {
    k in s && (s[k].expiresAt.None? || now < s[k].expiresAt.value)
  }

  function Incr(s: Store, k: string, now: int): Store {
    if Live(s, k, now) then s[k := s[k].(count := s[k].count + 1)] else s[k := Counter(1, None)]
  }

  function PExpire(s: Store, k: string, ms: int, now: int): Store {
    if Live(s, k, now) then s[k := s[k].(expiresAt := Some(now + ms))] else s
  }

  /** -2 for a missing key, -1 for one without an expiry time, else what is left of it. */
  function PTtl(s: Store, k: string, now: int): int {
    if !Live(s, k, now) then -2
    else if s[k].expiresAt.None? then -1
    else s[k].expiresAt.value - now
  }

  /** Whole seconds covering `ms` milliseconds, and never less than one. */
  function RetryAfter(ms: int): int {
    Max(1, (ms + 999) / 1000)
  }
}
