/**
 Expansion of ${NAME} templates from environment variables: a left-to-right substitution pass,
 repeated until nothing changes and at most five times, so that values may refer to other values.
 */
module EnvTemplates {
  import opened Common

  type Env = map<string, string>

  const PASSES := 5

  predicate IsNameStart(c: char) {
    'a' <= c <= 'z' || 'A' <= c <= 'Z' || c == '_'
  }

  predicate IsNameChar(c: char) {
    IsNameStart(c) || '0' <= c <= '9'
  }

  function NameRun(s: string): (n: nat)
    ensures n <= |s|
  {
    if s == "" || !IsNameChar(s[0]) then 0 else 1 + NameRun(s[1..])
  }

  /** The length of the reference that `s` starts with, or 0 if it starts with none. */
  function RefLen(s: string): (n: nat)
    ensures n <= |s|
    ensures n > 0 ==> n >= 4 && s[0] == '$'
  {
    if |s| < 4 || s[0] != '$' || s[1] != '{' || !IsNameStart(s[2]) then 0
    else
      var n := NameRun(s[2..]);
      if 2 + n < |s| && s[2 + n] == '}' then n + 3 else 0
  }

  function RefName(s: string): string
    requires RefLen(s) > 0
  {
    s[2..RefLen(s) - 1]
  }

  /** Whether `s` starts with a reference to a variable that has a value. */
  predicate Known(env: Env, s: string) {
    RefLen(s) > 0 && RefName(s) in env
  }

  /** How much of `s` the scanner takes at once: a whole reference, or one character. */
  function Cut(s: string): (n: nat)
    requires s != ""
    ensures 0 < n <= |s|
  {
    if RefLen(s) > 0 then RefLen(s) else 1
  }

  /** One substitution pass; a reference to no variable stands as it is. */
  function Pass(env: Env, s: string): string
    decreases |s|
  {
    if s == "" then ""
    else (if Known(env, s) then env[RefName(s)] else s[..Cut(s)]) + Pass(env, s[Cut(s)..])
  }

  function PassTimes(env: Env, s: string, n: nat): string
    decreases n
  {
    if n == 0 then s else PassTimes(env, Pass(env, s), n - 1)
  }

  lemma {:induction false} FixpointStays(env: Env, s: string, n: nat)
    requires Pass(env, s) == s
    ensures PassTimes(env, s, n) == s
    decreases n
  {
    if n > 0 { FixpointStays(env, s, n - 1); }
  }

  lemma {:induction false} OneMorePass(env: Env, s: string, n: nat)
    ensures PassTimes(env, s, n + 1) == Pass(env, PassTimes(env, s, n))
    decreases n
  {
    if n > 0 { OneMorePass(env, Pass(env, s), n - 1); }
  }

  /** Stopping at the first pass that changes nothing gives what five unconditional passes give. */
  method ExpandEnvTemplates(value: Option<string>, given: Env, process: Env) returns (r: Option<string>)
    ensures value.None? ==> r.None?
    ensures value.Some? ==>
      r == Some(PassTimes(if given == map[] then process else given, value.value, 5))
  {
    hide Pass;
    if value.None? {
      return None;
    }
    var env := if given == map[] then process else given;
    var current := value.value;
    for i := 0 to PASSES
      invariant current == PassTimes(env, value.value, i)
    {
      var next := Pass(env, current);
      OneMorePass(env, value.value, i);
      if next == current {
        FixpointStays(env, current, PASSES - i);
        PassesAdd(env, value.value, i, PASSES - i);
        break;
      }
      current := next;
    }
    return Some(current);
  }

  lemma {:induction false} PassesAdd(env: Env, s: string, m: nat, n: nat)
    ensures PassTimes(env, s, m + n) == PassTimes(env, PassTimes(env, s, m), n)
    decreases m
  {
    if m > 0 { PassesAdd(env, Pass(env, s), m - 1, n); }
  }

  /* ---- texts in which every dollar sign starts a reference ---- */

  predicate WellFormed(s: string)
    decreases |s|
  {
    s == "" || (StartsWell(s) && WellFormed(s[Cut(s)..]))
  }

  predicate StartsWell(s: string)
    requires s != ""
  {
    s[0] == '$' ==> RefLen(s) > 0
  }

  ghost predicate WellFormedEnv(env: Env) {
    forall k :: k in env ==> WellFormed(env[k])
  }

  lemma {:induction false} NameRunPrefix(a: string, b: string)
    requires NameRun(a) < |a|
    ensures NameRun(a + b) == NameRun(a)
  {
    if IsNameChar(a[0]) {
      assert (a + b)[1..] == a[1..] + b;
      NameRunPrefix(a[1..], b);
    }
  }

  /** What follows a piece does not change how it is read. */
  lemma CutPrefix(env: Env, a: string, b: string)
    requires a != "" && StartsWell(a)
    ensures Cut(a + b) == Cut(a) && StartsWell(a + b)
    ensures (a + b)[..Cut(a)] == a[..Cut(a)] && (a + b)[Cut(a)..] == a[Cut(a)..] + b
    ensures Known(env, a + b) == Known(env, a) && (Known(env, a) ==> RefName(a + b) == RefName(a))
  {
    if a[0] == '$' {
      assert (a + b)[2..] == a[2..] + b;
      NameRunPrefix(a[2..], b);
      assert RefLen(a + b) == RefLen(a);
      assert (a + b)[2..RefLen(a) - 1] == a[2..RefLen(a) - 1];
    }
  }

  lemma {:induction false} NameRunCut(s: string, n: nat)
    requires NameRun(s) < n <= |s|
    ensures NameRun(s[..n]) == NameRun(s)
  {
    if IsNameChar(s[0]) {
      assert s[..n][1..] == s[1..][..n - 1];
      NameRunCut(s[1..], n - 1);
    }
  }

  /** A piece by itself is read as it is within the text. */
  lemma PieceAlone(env: Env, s: string)
    requires s != "" && StartsWell(s)
    ensures var p := s[..Cut(s)];
      && StartsWell(p) && Cut(p) == Cut(s) && p[..Cut(p)] == p && p[Cut(p)..] == ""
      && Known(env, p) == Known(env, s) && (Known(env, s) ==> RefName(p) == RefName(s))
  {
    if s[0] == '$' {
      var p := s[..RefLen(s)];
      NameRunCut(s[2..], RefLen(s) - 2);
      assert p[2..] == s[2..][..RefLen(s) - 2];
      assert RefLen(p) == RefLen(s);
      assert p[2..RefLen(s) - 1] == s[2..RefLen(s) - 1];
    }
  }

  /** A pass works piece by piece on well-formed text: nothing forms across the joint. */
  lemma {:induction false} PassAppend(env: Env, a: string, b: string)
    requires WellFormed(a)
    ensures Pass(env, a + b) == Pass(env, a) + Pass(env, b)
    decreases |a|
  {
    hide RefLen, NameRun, RefName;
    if a == "" {
      assert a + b == b;
    } else {
      CutPrefix(env, a, b);
      PassAppend(env, a[Cut(a)..], b);
      var piece, rest := if Known(env, a) then env[RefName(a)] else a[..Cut(a)], a[Cut(a)..];
      calc {
        Pass(env, a + b);
        piece + Pass(env, rest + b);
        piece + (Pass(env, rest) + Pass(env, b));
        (piece + Pass(env, rest)) + Pass(env, b);
        Pass(env, a) + Pass(env, b);
      }
    }
  }

  lemma {:induction false} WellFormedAppend(a: string, b: string)
    requires WellFormed(a) && WellFormed(b)
    ensures WellFormed(a + b)
    decreases |a|
  {
    if a == "" {
      assert a + b == b;
    } else {
      CutPrefix(map[], a, b);
      WellFormedAppend(a[Cut(a)..], b);
    }
  }

  lemma {:induction false} PassKeepsWellFormed(env: Env, s: string)
    requires WellFormed(s) && WellFormedEnv(env)
    ensures WellFormed(Pass(env, s))
    decreases |s|
  {
    if s != "" {
      PassKeepsWellFormed(env, s[Cut(s)..]);
      PieceAlone(env, s);
      WellFormedAppend(if Known(env, s) then env[RefName(s)] else s[..Cut(s)], Pass(env, s[Cut(s)..]));
    }
  }

  lemma {:induction false} PassTimesAppend(env: Env, a: string, b: string, n: nat)
    requires WellFormed(a) && WellFormedEnv(env)
    ensures PassTimes(env, a + b, n) == PassTimes(env, a, n) + PassTimes(env, b, n)
    decreases n
  {
    hide Pass, WellFormed, WellFormedEnv;
    if n > 0 {
      PassAppend(env, a, b);
      PassKeepsWellFormed(env, a);
      PassTimesAppend(env, Pass(env, a), Pass(env, b), n - 1);
    }
  }

  /* ---- passes against recursion ---- */

  /** Recursive expansion, entering at most `n` values deep. */
  function Nested(env: Env, s: string, n: nat): string
    decreases n, |s|
  {
    if s == "" || n == 0 then s
    else (if Known(env, s) then Nested(env, env[RefName(s)], n - 1) else s[..Cut(s)]) + Nested(env, s[Cut(s)..], n)
  }

  lemma PieceOnce(env: Env, s: string)
    requires s != "" && StartsWell(s)
    ensures Pass(env, s[..Cut(s)]) == if Known(env, s) then env[RefName(s)] else s[..Cut(s)]
    ensures WellFormed(s[..Cut(s)])
  {
    PieceAlone(env, s);
    assert Pass(env, "") == "" && WellFormed("");
  }

  lemma WellFormedPiece(s: string)
    requires s != "" && WellFormed(s)
    ensures StartsWell(s) && WellFormed(s[Cut(s)..])
  {
  }

  lemma NestedUnfolds(env: Env, s: string, n: nat)
    ensures n == 0 || s == "" ==> Nested(env, s, n) == s && Pass(env, "") == ""
    ensures n > 0 && s != "" ==>
      var piece := if Known(env, s) then Nested(env, env[RefName(s)], n - 1) else s[..Cut(s)];
      Nested(env, s, n) == piece + Nested(env, s[Cut(s)..], n)
  {
  }

  /** `n` passes over the whole text do what entering every reference `n` deep does. */
  lemma {:induction false} PassesAreNesting(env: Env, s: string, n: nat)
    requires WellFormed(s) && WellFormedEnv(env)
    ensures PassTimes(env, s, n) == Nested(env, s, n)
    decreases n, |s|
  {
    hide RefLen, NameRun, RefName, Cut, StartsWell, WellFormed, Pass, Nested;
    if n == 0 || s == "" {
      NestedUnfolds(env, s, n);
      if s == "" { FixpointStays(env, s, n); }
    } else {
      NestedUnfolds(env, s, n);
      WellFormedPiece(s);
      var head, rest := s[..Cut(s)], s[Cut(s)..];
      assert s == head + rest;
      PieceAlone(env, s);
      PieceOnce(env, s);
      if Known(env, s) {
        PassesAreNesting(env, env[RefName(s)], n - 1);
      } else {
        FixpointStays(env, head, n);
      }
      PassTimesAppend(env, head, rest, n);
      PassesAreNesting(env, rest, n);
    }
  }

  /** The variables the text refers to that have a value. */
  function Refs(env: Env, s: string): set<string>
    decreases |s|
  {
    if s == "" then {}
    else (if Known(env, s) then {RefName(s)} else {}) + Refs(env, s[Cut(s)..])
  }

  /** No variable refers to itself through others: `rank` falls along every reference. */
  ghost predicate Acyclic(env: Env, rank: map<string, nat>) {
    && env.Keys <= rank.Keys
    && forall k :: k in env ==> Below(env, rank, env[k], rank[k])
  }

  ghost predicate Below(env: Env, rank: map<string, nat>, s: string, bound: nat) {
    forall r :: r in Refs(env, s) ==> r in rank && rank[r] < bound
  }

  lemma BelowPiece(env: Env, rank: map<string, nat>, s: string, bound: nat)
    requires Below(env, rank, s, bound) && s != ""
    ensures Below(env, rank, s[Cut(s)..], bound)
    ensures Known(env, s) ==> RefName(s) in rank && rank[RefName(s)] < bound
  {
    if Known(env, s) { assert RefName(s) in Refs(env, s); }
  }

  /** Full recursive expansion: every known reference replaced by its own full expansion. */
  ghost function Full(env: Env, rank: map<string, nat>, s: string, bound: nat): string
    requires Acyclic(env, rank) && Below(env, rank, s, bound)
    decreases bound, |s|
  {
    if s == "" then ""
    else
      BelowPiece(env, rank, s, bound);
      (if Known(env, s) then Full(env, rank, env[RefName(s)], rank[RefName(s)]) else s[..Cut(s)])
        + Full(env, rank, s[Cut(s)..], bound)
  }

  /** How deep references nest: 0 with no known reference, 1 if their values have none, and so on. */
  ghost function Depth(env: Env, rank: map<string, nat>, s: string, bound: nat): nat
    requires Acyclic(env, rank) && Below(env, rank, s, bound)
    decreases bound, |s|
  {
    if s == "" then 0
    else
      BelowPiece(env, rank, s, bound);
      Max(if Known(env, s) then 1 + Depth(env, rank, env[RefName(s)], rank[RefName(s)]) else 0,
          Depth(env, rank, s[Cut(s)..], bound))
  }

  lemma {:induction false} DeepEnoughIsFull(env: Env, rank: map<string, nat>, s: string, bound: nat, n: nat)
    requires Acyclic(env, rank) && Below(env, rank, s, bound)
    requires Depth(env, rank, s, bound) <= n
    ensures Nested(env, s, n) == Full(env, rank, s, bound)
    decreases bound, |s|
  {
    hide RefLen, NameRun, RefName;
    if s != "" {
      BelowPiece(env, rank, s, bound);
      DeepEnoughIsFull(env, rank, s[Cut(s)..], bound, n);
      if Known(env, s) {
        DeepEnoughIsFull(env, rank, env[RefName(s)], rank[RefName(s)], n - 1);
      }
      assert s == s[..Cut(s)] + s[Cut(s)..];
    }
  }

  lemma {:induction false} RefsAppend(env: Env, a: string, b: string)
    requires WellFormed(a)
    ensures Refs(env, a + b) == Refs(env, a) + Refs(env, b)
    decreases |a|
  {
    if a == "" {
      assert a + b == b;
    } else {
      CutPrefix(env, a, b);
      RefsAppend(env, a[Cut(a)..], b);
    }
  }

  lemma {:induction false} DepthHasRefs(env: Env, rank: map<string, nat>, s: string, bound: nat)
    requires Acyclic(env, rank) && Below(env, rank, s, bound)
    ensures Depth(env, rank, s, bound) > 0 ==> Refs(env, s) != {}
    decreases |s|
  {
    if s != "" {
      BelowPiece(env, rank, s, bound);
      DepthHasRefs(env, rank, s[Cut(s)..], bound);
    }
  }

  lemma UnknownPieceHasNoRefs(env: Env, s: string)
    requires s != "" && StartsWell(s)
    ensures WellFormed(s[..Cut(s)])
    ensures !Known(env, s) ==> Refs(env, s[..Cut(s)]) == {}
  {
    PieceAlone(env, s);
    assert Refs(env, "") == {} && WellFormed("");
  }

  lemma {:induction false} NestedIsWellFormed(env: Env, s: string, n: nat)
    requires WellFormed(s) && WellFormedEnv(env)
    ensures WellFormed(Nested(env, s, n))
    decreases n, |s|
  {
    if s != "" && n > 0 {
      NestedIsWellFormed(env, s[Cut(s)..], n);
      UnknownPieceHasNoRefs(env, s);
      if Known(env, s) { NestedIsWellFormed(env, env[RefName(s)], n - 1); }
      WellFormedAppend(
        if Known(env, s) then Nested(env, env[RefName(s)], n - 1) else s[..Cut(s)], Nested(env, s[Cut(s)..], n));
    }
  }

  /** Entering too shallowly leaves a known reference standing. */
  lemma {:induction false} TooShallowLeavesRefs(env: Env, rank: map<string, nat>, s: string, bound: nat, n: nat)
    requires Acyclic(env, rank) && Below(env, rank, s, bound) && WellFormed(s) && WellFormedEnv(env)
    requires Depth(env, rank, s, bound) > n
    ensures Refs(env, Nested(env, s, n)) != {}
    decreases bound, |s|
  {
    hide RefLen, NameRun, RefName, WellFormed, StartsWell, Cut;
    if n == 0 {
      DepthHasRefs(env, rank, s, bound);
    } else {
      BelowPiece(env, rank, s, bound);
      WellFormedPiece(s);
      var rest := s[Cut(s)..];
      var first := if Known(env, s) then Nested(env, env[RefName(s)], n - 1) else s[..Cut(s)];
      UnknownPieceHasNoRefs(env, s);
      if Known(env, s) { NestedIsWellFormed(env, env[RefName(s)], n - 1); }
      RefsAppend(env, first, Nested(env, rest, n));
      if Depth(env, rank, rest, bound) > n {
        TooShallowLeavesRefs(env, rank, rest, bound, n);
      } else {
        TooShallowLeavesRefs(env, rank, env[RefName(s)], rank[RefName(s)], n - 1);
      }
    }
  }

  /** The full expansion has no known reference left, and unknown ones stand as they were. */
  lemma {:induction false} FullIsFinal(env: Env, rank: map<string, nat>, s: string, bound: nat)
    requires Acyclic(env, rank) && Below(env, rank, s, bound) && WellFormed(s) && WellFormedEnv(env)
    ensures WellFormed(Full(env, rank, s, bound)) && Refs(env, Full(env, rank, s, bound)) == {}
    decreases bound, |s|
  {
    if s != "" {
      BelowPiece(env, rank, s, bound);
      var rest := s[Cut(s)..];
      var first := if Known(env, s) then Full(env, rank, env[RefName(s)], rank[RefName(s)]) else s[..Cut(s)];
      FullIsFinal(env, rank, rest, bound);
      UnknownPieceHasNoRefs(env, s);
      if Known(env, s) { FullIsFinal(env, rank, env[RefName(s)], rank[RefName(s)]); }
      RefsAppend(env, first, Full(env, rank, rest, bound));
      WellFormedAppend(first, Full(env, rank, rest, bound));
    }
  }

  /** Five passes are full expansion exactly when references nest at most five deep. */
  lemma FivePassesExpandFully(env: Env, rank: map<string, nat>, s: string, bound: nat)
    requires Acyclic(env, rank) && Below(env, rank, s, bound) && WellFormed(s) && WellFormedEnv(env)
    ensures PassTimes(env, s, 5) == Full(env, rank, s, bound) <==> Depth(env, rank, s, bound) <= 5
  {
    PassesAreNesting(env, s, PASSES);
    if Depth(env, rank, s, bound) <= PASSES {
      DeepEnoughIsFull(env, rank, s, bound, PASSES);
    } else {
      TooShallowLeavesRefs(env, rank, s, bound, PASSES);
      FullIsFinal(env, rank, s, bound);
    }
  }

  /** A stray dollar sign can join with a value into a reference that recursion never sees. */
  lemma StrayDollarJoins(env: Env)
    requires "A" in env && env["A"] == "{B}" && "B" in env && env["B"] == "x"
    ensures PassTimes(env, "$" + Ref("A"), PASSES) == "x"
    ensures Nested(env, "$" + Ref("A"), PASSES) == Ref("B")
  {
    hide RefLen, NameRun, RefName, Pass, Nested, PassTimes;
    OneRef(env, "A");
    OneRef(env, "B");
    Literal(env, "{B}");
    Literal(env, "x");
    LoneDollar(env, Ref("A"));
    assert "$" + "{B}" == Ref("B");
    TwoPasses(env, "$" + Ref("A"), 3);
    FixpointStays(env, "x", 3);
  }

  function Ref(name: string): string {
    "${" + name + "}"
  }

  lemma TwoPasses(env: Env, s: string, n: nat)
    ensures PassTimes(env, s, n + 2) == PassTimes(env, Pass(env, Pass(env, s)), n)
  {
    assert PassTimes(env, s, n + 2) == PassTimes(env, Pass(env, s), n + 1);
  }

  /** A dollar sign not followed by a brace is a character like any other. */
  lemma LoneDollar(env: Env, s: string)
    requires s != "" && s[0] != '{'
    ensures Pass(env, "$" + s) == "$" + Pass(env, s)
    ensures forall n: nat :: n > 0 ==> Nested(env, "$" + s, n) == "$" + Nested(env, s, n)
  {
    var t := "$" + s;
    assert RefLen(t) == 0 && t[1..] == s && t[..1] == "$";
  }

  /** Text without dollar signs is left alone. */
  lemma {:induction false} Literal(env: Env, s: string)
    requires '$' !in s
    ensures Pass(env, s) == s && forall n: nat :: Nested(env, s, n) == s
  {
    if s != "" {
      Literal(env, s[1..]);
      assert RefLen(s) == 0 && s == s[..1] + s[1..];
    }
  }

  /** A text that is one reference with a one-letter name. */
  lemma OneRef(env: Env, name: string)
    requires |name| == 1 && IsNameStart(name[0]) && name in env
    ensures var s := Ref(name);
      && Pass(env, s) == env[name]
      && forall n: nat :: n > 0 ==> Nested(env, s, n) == Nested(env, env[name], n - 1)
  {
    var s := Ref(name);
    assert s[2..] == [name[0], '}'] && s[2..][1..] == "}";
    assert NameRun(s[2..]) == 1;
    assert RefLen(s) == 4 && RefName(s) == s[2..3] == name && s[4..] == "";
    assert Pass(env, s) == env[name] + "";
    forall n: nat | n > 0 ensures Nested(env, s, n) == Nested(env, env[name], n - 1) {
      assert Nested(env, s, n) == Nested(env, env[name], n - 1) + "";
    }
  }
}
