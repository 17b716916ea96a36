/** The free-username search made when a Google sign-in creates a local account. */
module Usernames {
  import opened Decimal

  /** The names tried, in order: the base itself, then the base with 1, 2, 3, ... appended. */
  function Candidate(base: string, suffix: nat): string {
    if suffix == 0 then base else base + Digits(suffix)
  }

  lemma CandidatesDistinct(base: string, i: nat, j: nat)
    requires Candidate(base, i) == Candidate(base, j)
    ensures i == j
  {
    if i > 0 && j > 0 {
      assert Candidate(base, i)[|base|..] == Digits(i) && Candidate(base, j)[|base|..] == Digits(j);
      DigitsInjective(i, j);
    } else {
      assert i == 0 || |Candidate(base, i)| > |base|;
      assert j == 0 || |Candidate(base, j)| > |base|;
    }
  }

  /** The search ends after at most N + 1 lookups among N names, with the smallest free suffix. */
  method FreeUsername(base: string, taken: set<string>) returns (candidate: string, ghost suffix: nat, lookups: nat)
    ensures candidate == (if suffix == 0 then base else base + Digits(suffix)) && candidate !in taken
    ensures suffix > 0 ==> base in taken
    ensures forall j :: 0 < j < suffix ==> base + Digits(j) in taken
    ensures lookups == suffix + 1 <= |taken| + 1
  {
    candidate := base;
    var n := 0;
    lookups := 1;
    ghost var tried: set<string> := {};
    while candidate in taken
      invariant candidate == Candidate(base, n) && lookups == n + 1
      invariant forall j :: 0 <= j < n ==> Candidate(base, j) in taken
      invariant forall s :: s in tried ==> s in taken && exists j :: 0 <= j < n && s == Candidate(base, j)
      invariant |tried| == n <= |taken|
      decreases |taken| - n
    {
      if candidate in tried {
        var j :| 0 <= j < n && candidate == Candidate(base, j);
        CandidatesDistinct(base, j, n);
      }
      tried := tried + {candidate};
      SubsetSize(tried, taken);
      n := n + 1;
      candidate := base + Digits(n);
      lookups := lookups + 1;
    }
    suffix := n;
    assert forall j :: 0 < j < n ==> Candidate(base, j) == base + Digits(j);
    assert n > 0 ==> Candidate(base, 0) == base;
  }

  lemma {:induction false} SubsetSize(a: set<string>, b: set<string>)
    requires a <= b
    ensures |a| <= |b|
  {
    if a != {} {
      var x :| x in a;
      SubsetSize(a - {x}, b - {x});
    }
  }
}
