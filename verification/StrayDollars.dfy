/**
 Dollar signs that start no reference. A pass leaves one where it is, but a value put in after it can complete
 it to a reference that recursive expansion never sees. Which texts that can happen to can be seen beforehand.
 */
module StrayDollars {
  import opened Common
  import opened EnvTemplates

  /** A text that starts with a dollar sign which starts no reference. */
  predicate Stray(s: string) {
    s != "" && s[0] == '$' && RefLen(s) == 0
  }

  /** How long a beginning of a reference (a dollar sign, a brace, part of a name) the text starts with. */
  function OpenLen(s: string): (k: nat)
    requires Stray(s)
    ensures 1 <= k <= |s|
    ensures forall i :: 1 <= i < k ==> s[i] != '$'
  {
    if |s| < 2 || s[1] != '{' then 1
    else if |s| < 3 || !IsNameStart(s[2]) then 2
    else
      NameRunChars(s[2..]);
      2 + NameRun(s[2..])
  }

  lemma {:induction false} NameRunChars(s: string)
    ensures forall i :: 0 <= i < NameRun(s) ==> IsNameChar(s[i])
    ensures NameRun(s) < |s| ==> !IsNameChar(s[NameRun(s)])
  {
    if s != "" && IsNameChar(s[0]) {
      NameRunChars(s[1..]);
      forall i | 0 <= i < NameRun(s) ensures IsNameChar(s[i]) {
        if i > 0 { assert s[i] == s[1..][i - 1]; }
      }
    }
  }

  /** The beginning of a reference runs right up to a reference, whose value may complete it. */
  predicate Joins(s: string) {
    Stray(s) && RefLen(s[OpenLen(s)..]) > 0
  }

  /** No stray dollar sign that the scanner meets can be completed by a value. */
  predicate NoJoin(s: string)
    decreases |s|
  {
    s == "" || (!Joins(s) && NoJoin(s[Cut(s)..]))
  }

  lemma {:induction false} WellFormedNoJoin(s: string)
    requires WellFormed(s)
    ensures NoJoin(s)
    decreases |s|
  {
    if s != "" {
      WellFormedNoJoin(s[Cut(s)..]);
    }
  }

  /* ---- what is stray stays stray ---- */

  /** The text starts like `s` up to and including the character that stops its beginning of a reference. */
  lemma SameOpening(s: string, t: string)
    requires Stray(s) && OpenLen(s) <= |t| && t[..OpenLen(s)] == s[..OpenLen(s)]
    requires OpenLen(s) == |s| ==> |t| == |s|
    requires OpenLen(s) < |s| ==> |t| > OpenLen(s) && t[OpenLen(s)] == s[OpenLen(s)]
    ensures Stray(t) && OpenLen(t) == OpenLen(s)
  {
    var k := OpenLen(s);
    assert forall i :: 0 <= i < k ==> t[i] == s[i];
    if k > 2 {
      NameRunChars(s[2..]);
      assert forall i :: 0 <= i < k - 2 ==> t[2..][i] == s[2..][i];
      assert k < |t| ==> t[2..][k - 2] == t[k] && s[2..][k - 2] == s[k];
      NameRunIs(t[2..], k - 2);
      assert s[2] == t[2];
    }
  }

  lemma {:induction false} NameRunIs(s: string, n: nat)
    requires n <= |s| && (forall i :: 0 <= i < n ==> IsNameChar(s[i])) && (n < |s| ==> !IsNameChar(s[n]))
    ensures NameRun(s) == n
  {
    if n > 0 {
      NameRunIs(s[1..], n - 1);
    }
  }

  lemma PassOne(env: Env, s: string)
    requires s != "" && RefLen(s) == 0
    ensures Pass(env, s) == [s[0]] + Pass(env, s[1..])
  {
    hide RefLen;
    assert s[..1] == [s[0]];
  }

  /** A pass takes characters that start no reference as they are. */
  lemma {:induction false} PassTakes(env: Env, s: string, k: nat)
    requires k <= |s| && forall i :: 0 <= i < k ==> RefLen(s[i..]) == 0
    ensures Pass(env, s) == s[..k] + Pass(env, s[k..])
    decreases k
  {
    hide RefLen, Pass;
    assert s[0..] == s;
    if k > 0 {
      forall i | 0 <= i < k - 1 ensures RefLen(s[1..][i..]) == 0 {
        assert s[1..][i..] == s[i + 1..];
      }
      PassOne(env, s);
      PassTakes(env, s[1..], k - 1);
      TakenApart(s, k, Pass(env, s[k..]));
    }
  }

  lemma TakenApart(s: string, k: nat, rest: string)
    requires 0 < k <= |s|
    ensures s[1..][k - 1..] == s[k..] && [s[0]] + (s[1..][..k - 1] + rest) == s[..k] + rest
  {
    assert [s[0]] + s[1..][..k - 1] == s[..k];
  }

  lemma OpeningHasNoRefs(s: string)
    requires Stray(s)
    ensures forall i :: 0 <= i < OpenLen(s) ==> RefLen(s[i..]) == 0
  {
    assert s[0..] == s;
    forall i | 0 <= i < OpenLen(s) ensures RefLen(s[i..]) == 0 {
      if i > 0 { assert s[i..][0] == s[i] != '$'; }
    }
  }

  /** A stray dollar sign that cannot be completed is still stray after a pass. */
  lemma StrayStays(env: Env, s: string)
    requires Stray(s) && !Joins(s)
    ensures Stray(Pass(env, s)) && OpenLen(Pass(env, s)) == OpenLen(s)
    ensures Pass(env, s) == s[..OpenLen(s)] + Pass(env, s[OpenLen(s)..])
  {
    var k := OpenLen(s);
    OpeningHasNoRefs(s);
    PassTakes(env, s, k);
    var t := Pass(env, s);
    if k < |s| {
      assert Pass(env, s[k..])[0] == s[k];
    }
    SameOpening(s, t);
  }

  lemma {:induction false} WellFormedNoJoinAppend(a: string, b: string)
    requires WellFormed(a) && NoJoin(b)
    ensures NoJoin(a + b)
    decreases |a|
  {
    if a == "" {
      assert a + b == b;
    } else {
      CutPrefix(map[], a, b);
      WellFormedNoJoinAppend(a[Cut(a)..], b);
    }
  }

  lemma {:induction false} PassKeepsNoJoin(env: Env, s: string)
    requires NoJoin(s) && WellFormedEnv(env)
    ensures NoJoin(Pass(env, s))
    decreases |s|
  {
    if s != "" {
      PassKeepsNoJoin(env, s[Cut(s)..]);
      if Stray(s) {
        StrayStays(env, s);
        var k, t := OpenLen(s), Pass(env, s);
        assert t[k..] == Pass(env, s[k..]);
        if k < |s| && Stray(s[k..]) {
          NoJoinLater(s, k);
          StrayStays(env, s[k..]);
        }
        assert t[1..] == Pass(env, s[1..]);
      } else {
        PieceOnce(env, s);
        WellFormedNoJoinAppend(
          if Known(env, s) then env[RefName(s)] else s[..Cut(s)], Pass(env, s[Cut(s)..]));
      }
    }
  }

  lemma {:induction false} NoJoinLater(s: string, k: nat)
    requires NoJoin(s) && k <= |s| && forall i :: 0 <= i < k ==> RefLen(s[i..]) == 0
    ensures NoJoin(s[k..])
    decreases k
  {
    assert s[0..] == s;
    if k > 0 {
      forall i | 0 <= i < k - 1 ensures RefLen(s[1..][i..]) == 0 {
        assert s[1..][i..] == s[i + 1..];
      }
      NoJoinLater(s[1..], k - 1);
      assert s[1..][k - 1..] == s[k..];
    }
  }

  /* ---- no joining: passes and recursion agree ---- */

  lemma {:induction false} StrayLeads(env: Env, s: string, n: nat)
    requires NoJoin(s) && WellFormedEnv(env) && Stray(s)
    ensures PassTimes(env, s, n) == "$" + PassTimes(env, s[1..], n)
    decreases n
  {
    if n > 0 {
      PassOne(env, s);
      PassKeepsNoJoin(env, s);
      StrayStays(env, s);
      hide RefLen, Pass, NoJoin, OpenLen;
      assert Pass(env, s)[1..] == Pass(env, s[1..]);
      StrayLeads(env, Pass(env, s), n - 1);
    } else {
      assert s == "$" + s[1..];
    }
  }

  /** The first piece of a text that does not start with a stray dollar sign goes its own way. */
  lemma PieceLeads(env: Env, s: string, n: nat)
    requires s != "" && StartsWell(s) && WellFormedEnv(env) && n > 0
    ensures PassTimes(env, s, n) ==
      (if Known(env, s) then Nested(env, env[RefName(s)], n - 1) else s[..Cut(s)]) + PassTimes(env, s[Cut(s)..], n)
  {
    hide RefLen, RefName, Pass, Nested, Cut, StartsWell, WellFormed;
    var head, rest := s[..Cut(s)], s[Cut(s)..];
    assert s == head + rest;
    PieceAlone(env, s);
    PieceOnce(env, s);
    if Known(env, s) {
      PassesAreNesting(env, env[RefName(s)], n - 1);
    } else {
      FixpointStays(env, head, n);
    }
    PassTimesAppend(env, head, rest, n);
  }

  lemma {:induction false} PassesAreNestingWhenNoJoin(env: Env, s: string, n: nat)
    requires NoJoin(s) && WellFormedEnv(env)
    ensures PassTimes(env, s, n) == Nested(env, s, n)
    decreases |s|
  {
    NestedUnfolds(env, s, n);
    if n == 0 {
    } else if s == "" {
      FixpointStays(env, s, n);
    } else {
      PassesAreNestingWhenNoJoin(env, s[Cut(s)..], n);
      if Stray(s) {
        StrayLeads(env, s, n);
        assert s[..1] == "$";
      } else {
        hide RefName, Pass, Nested, NoJoin;
        PieceLeads(env, s, n);
      }
    }
  }

  /* ---- joining: an environment in which they differ ---- */

  /** The first text, from left to right, at which a beginning of a reference meets a reference. */
  function FirstJoin(s: string): (t: string)
    requires !NoJoin(s)
    ensures Joins(t) && |t| <= |s|
    decreases |s|
  {
    if Joins(s) then s else FirstJoin(s[Cut(s)..])
  }

  function Long(n: nat): (s: string)
    ensures |s| == n && forall i :: 0 <= i < n ==> s[i] == 'a'
  {
    seq(n, i => 'a')
  }

  /** The name that the beginning is completed to, and the value that completes it; both longer than `n`. */
  function Completed(t: string, n: nat): string
    requires Joins(t)
  {
    (if OpenLen(t) <= 2 then "" else t[2..OpenLen(t)]) + Long(n + 1)
  }

  function Completion(t: string, n: nat): string
    requires Joins(t)
  {
    (if OpenLen(t) == 1 then "{" else "") + Long(n + 1) + "}"
  }

  predicate IsName(name: string) {
    name != "" && IsNameStart(name[0]) && forall i :: 0 <= i < |name| ==> IsNameChar(name[i])
  }

  lemma ReferenceTo(name: string, tail: string)
    requires IsName(name)
    ensures var s := Ref(name) + tail; RefLen(s) == |name| + 3 && RefName(s) == name && s[RefLen(s)..] == tail
  {
    var s := Ref(name) + tail;
    assert s == "${" + (name + ("}" + tail));
    assert s[2..] == name + ("}" + tail);
    assert forall i :: 0 <= i < |name| ==> s[2..][i] == name[i];
    NameRunIs(s[2..], |name|);
    assert s[2] == name[0] && s[2 + |name|] == '}';
    assert s[2..|name| + 2] == name;
  }

  lemma CompletionCompletes(t: string, n: nat)
    requires Joins(t)
    ensures t[..OpenLen(t)] + Completion(t, n) == Ref(Completed(t, n))
    ensures IsName(Completed(t, n)) && |Completed(t, n)| > n && '$' !in Completion(t, n)
  {
    var k := OpenLen(t);
    if k > 2 {
      NameRunChars(t[2..]);
      assert forall i :: 0 <= i < k - 2 ==> t[2..k][i] == t[2..][i];
      assert t[..k] == "${" + t[2..k];
    } else if k == 2 {
      assert t[..2] == "${";
    } else {
      assert t[..1] == "$";
    }
  }

  /** The references of a short text are to no name that is as long. */
  ghost predicate OnlyKnows(env: Env, name: string, n: nat) {
    forall k :: k in env && |k| <= n ==> k == name
  }

  /** A pass puts the completion in, and the completed reference is there. */
  lemma {:induction false} Formed(env: Env, s: string, n: nat)
    requires !NoJoin(s) && |s| <= n
    requires var t := FirstJoin(s); var x := RefName(t[OpenLen(t)..]);
      x in env && env[x] == Completion(t, n) && Completed(t, n) in env && OnlyKnows(env, x, n)
    ensures Completed(FirstJoin(s), n) in Refs(env, Pass(env, s))
    decreases |s|
  {
    var t := FirstJoin(s);
    CompletionCompletes(t, n);
    hide RefLen, RefName, OpenLen, Completed, Completion, WellFormed, IsName;
    if Joins(s) {
      FormedHere(env, s, n);
    } else {
      Formed(env, s[Cut(s)..], n);
      if Stray(s) {
        StrayStays(env, s);
        PassOne(env, s);
        assert Pass(env, s)[1..] == Pass(env, s[1..]);
      } else {
        PieceOnce(env, s);
        var piece := if Known(env, s) then env[RefName(s)] else s[..Cut(s)];
        if Known(env, s) {
          PlainIsWellFormed(Completion(t, n));
        }
        RefsAppend(env, piece, Pass(env, s[Cut(s)..]));
      }
    }
  }

  lemma FormedHere(env: Env, s: string, n: nat)
    requires Joins(s)
    requires var x := RefName(s[OpenLen(s)..]); x in env && env[x] == Completion(s, n) && Completed(s, n) in env
    ensures Completed(s, n) in Refs(env, Pass(env, s))
  {
    var k, name := OpenLen(s), Completed(s, n);
    OpeningHasNoRefs(s);
    CompletionCompletes(s, n);
    assert Known(env, s[k..]);
    hide *;
    PassTakes(env, s, k);
    FormedAt(env, s, k, name);
  }

  lemma FormedAt(env: Env, s: string, k: nat, name: string)
    requires k <= |s| && Pass(env, s) == s[..k] + Pass(env, s[k..]) && Known(env, s[k..])
    requires IsName(name) && name in env && s[..k] + env[RefName(s[k..])] == Ref(name)
    ensures name in Refs(env, Pass(env, s))
  {
    hide Pass, Refs, Ref, IsName;
    var value, tail := env[RefName(s[k..])], Pass(env, s[k..][Cut(s[k..])..]);
    PassKnown(env, s[k..]);
    assert s[..k] + (value + tail) == (s[..k] + value) + tail;
    FirstReference(env, name, tail);
  }

  lemma PassKnown(env: Env, s: string)
    requires Known(env, s)
    ensures Pass(env, s) == env[RefName(s)] + Pass(env, s[Cut(s)..])
  {
  }

  lemma FirstReference(env: Env, name: string, tail: string)
    requires IsName(name) && name in env
    ensures name in Refs(env, Ref(name) + tail)
  {
    ReferenceTo(name, tail);
    hide RefLen, RefName, Ref;
  }

  lemma {:induction false} PlainIsWellFormed(s: string)
    requires '$' !in s
    ensures WellFormed(s)
  {
    if s != "" {
      PlainIsWellFormed(s[1..]);
    }
  }

  /** Entering two deep where values have no references is one pass. */
  lemma {:induction false} TwoDeepIsOnePass(env: Env, fewer: Env, s: string, n: nat)
    requires forall k :: k in env && |k| <= n <==> k in fewer
    requires forall k :: k in fewer ==> k in env && env[k] == fewer[k] && '$' !in env[k]
    requires |s| <= n
    ensures Nested(env, s, 2) == Pass(fewer, s) == Pass(env, s)
    decreases |s|
  {
    NestedUnfolds(env, s, 2);
    if s != "" {
      TwoDeepIsOnePass(env, fewer, s[Cut(s)..], n);
      if Known(env, s) {
        assert |RefName(s)| <= n;
        Literal(env, env[RefName(s)]);
      }
    }
  }

  lemma {:induction false} KnownIsPutIn(env: Env, s: string, name: string)
    requires name in Refs(env, s)
    ensures name in env && |Pass(env, s)| >= |env[name]|
    decreases |s|
  {
    if !(Known(env, s) && RefName(s) == name) {
      KnownIsPutIn(env, s[Cut(s)..], name);
    }
  }

  /** Where a join is possible, some environment makes two passes differ from entering two deep. */
  lemma JoinDiffers(s: string) returns (env: Env)
    requires !NoJoin(s)
    ensures WellFormedEnv(env) && PassTimes(env, s, 2) != Nested(env, s, 2)
  {
    var n, t := |s|, FirstJoin(s);
    var x, name := RefName(t[OpenLen(t)..]), Completed(t, n);
    CompletionCompletes(t, n);
    var fewer: Env := map[x := Completion(t, n)];
    var value := Long(|Pass(fewer, s)| + 1);
    env := fewer[name := value];
    assert |x| <= n && |name| > n;
    TwoDeepIsOnePass(env, fewer, s, n);
    Formed(env, s, n);
    KnownIsPutIn(env, Pass(env, s), name);
    TwoPasses(env, s, 0);
    PlainIsWellFormed(Completion(t, n));
    PlainIsWellFormed(value);
  }

  ghost predicate PassesAgree(s: string) {
    forall env, n: nat :: WellFormedEnv(env) ==> PassTimes(env, s, n) == Nested(env, s, n)
  }

  /**
   Exactly for which texts passes do what recursion does, whatever the values as long as each is well formed: no
   stray dollar sign begins a reference that runs right up to another.
   */
  lemma PassesAgreeIffNoJoin(s: string)
    ensures PassesAgree(s) <==> NoJoin(s)
  {
    if NoJoin(s) {
      forall env, n: nat | WellFormedEnv(env) ensures PassTimes(env, s, n) == Nested(env, s, n) {
        PassesAreNestingWhenNoJoin(env, s, n);
      }
    } else {
      var env := JoinDiffers(s);
    }
  }

  /* ---- five passes on such texts ---- */

  lemma {:induction false} StrayForGood(env: Env, s: string, n: nat)
    requires NoJoin(s) && WellFormedEnv(env) && Stray(s)
    ensures Stray(PassTimes(env, s, n))
    decreases n
  {
    if n > 0 {
      PassKeepsNoJoin(env, s);
      StrayStays(env, s);
      StrayForGood(env, Pass(env, s), n - 1);
    }
  }

  /** A stray dollar sign at the front adds nothing to what the expansion still refers to. */
  lemma StrayHidesNothing(env: Env, s: string, n: nat)
    requires NoJoin(s) && WellFormedEnv(env) && Stray(s)
    ensures Refs(env, Nested(env, s, n)) == Refs(env, Nested(env, s[1..], n))
  {
    PassesAreNestingWhenNoJoin(env, s, n);
    PassesAreNestingWhenNoJoin(env, s[1..], n);
    StrayForGood(env, s, n);
    StrayLeads(env, s, n);
    hide RefLen, Nested, PassTimes;
    assert ("$" + PassTimes(env, s[1..], n))[1..] == PassTimes(env, s[1..], n);
  }

  lemma NoJoinPiece(s: string)
    requires s != "" && NoJoin(s)
    ensures NoJoin(s[Cut(s)..]) && if Stray(s) then Cut(s) == 1 else StartsWell(s)
  {
  }

  lemma {:induction false} TooShallowLeavesRefsWhenNoJoin(env: Env, rank: map<string, nat>, s: string, bound: nat,
                                                          n: nat)
    requires Acyclic(env, rank) && Below(env, rank, s, bound) && NoJoin(s) && WellFormedEnv(env)
    requires Depth(env, rank, s, bound) > n
    ensures Refs(env, Nested(env, s, n)) != {}
    decreases |s|
  {
    hide RefLen, NameRun, RefName, WellFormed, StartsWell, Stray, NoJoin, Cut;
    if n == 0 {
      DepthHasRefs(env, rank, s, bound);
    } else {
      BelowPiece(env, rank, s, bound);
      NoJoinPiece(s);
      var rest := s[Cut(s)..];
      if Stray(s) {
        StrayIsUnknown(env, s);
        TooShallowLeavesRefsWhenNoJoin(env, rank, rest, bound, n);
        StrayHidesNothing(env, s, n);
      } else {
        var first := if Known(env, s) then Nested(env, env[RefName(s)], n - 1) else s[..Cut(s)];
        UnknownPieceHasNoRefs(env, s);
        if Known(env, s) { NestedIsWellFormed(env, env[RefName(s)], n - 1); }
        RefsAppend(env, first, Nested(env, rest, n));
        if Depth(env, rank, rest, bound) > n {
          TooShallowLeavesRefsWhenNoJoin(env, rank, rest, bound, n);
        } else {
          TooShallowLeavesRefs(env, rank, env[RefName(s)], rank[RefName(s)], n - 1);
        }
      }
    }
  }

  lemma StrayIsUnknown(env: Env, s: string)
    requires Stray(s)
    ensures !Known(env, s)
  {
  }

  lemma {:induction false} FullIsFinalWhenNoJoin(env: Env, rank: map<string, nat>, s: string, bound: nat)
    requires Acyclic(env, rank) && Below(env, rank, s, bound) && NoJoin(s) && WellFormedEnv(env)
    ensures Refs(env, Full(env, rank, s, bound)) == {}
    decreases |s|
  {
    if s != "" {
      BelowPiece(env, rank, s, bound);
      var rest := s[Cut(s)..];
      FullIsFinalWhenNoJoin(env, rank, rest, bound);
      if Stray(s) {
        var n := Depth(env, rank, s, bound);
        DeepEnoughIsFull(env, rank, s, bound, n);
        DeepEnoughIsFull(env, rank, rest, bound, n);
        StrayHidesNothing(env, s, n);
      } else {
        var first := if Known(env, s) then Full(env, rank, env[RefName(s)], rank[RefName(s)]) else s[..Cut(s)];
        UnknownPieceHasNoRefs(env, s);
        if Known(env, s) { FullIsFinal(env, rank, env[RefName(s)], rank[RefName(s)]); }
        RefsAppend(env, first, Full(env, rank, rest, bound));
      }
    }
  }

  /** Five passes are full expansion exactly when references nest at most five deep, on every text that cannot join. */
  lemma FivePassesExpandFullyWhenNoJoin(env: Env, rank: map<string, nat>, s: string, bound: nat)
    requires Acyclic(env, rank) && Below(env, rank, s, bound) && NoJoin(s) && WellFormedEnv(env)
    ensures PassTimes(env, s, 5) == Full(env, rank, s, bound) <==> Depth(env, rank, s, bound) <= 5
  {
    PassesAreNestingWhenNoJoin(env, s, PASSES);
    if Depth(env, rank, s, bound) <= PASSES {
      DeepEnoughIsFull(env, rank, s, bound, PASSES);
    } else {
      TooShallowLeavesRefsWhenNoJoin(env, rank, s, bound, PASSES);
      FullIsFinalWhenNoJoin(env, rank, s, bound);
    }
  }
}
