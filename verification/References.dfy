/**
 What the expander takes for a reference, told without its scanner: a dollar sign, a name of letters, digits and
 underscores that does not start with a digit, in braces. These laws leave a pass no freedom.
 */
module References {
  import opened Common
  import opened EnvTemplates

  predicate LetterOrUnderscore(c: char) {
    'A' <= c <= 'Z' || 'a' <= c <= 'z' || c == '_'
  }

  predicate Identifier(name: string) {
    && name != "" && LetterOrUnderscore(name[0])
    && forall i :: 0 <= i < |name| ==> LetterOrUnderscore(name[i]) || '0' <= name[i] <= '9'
  }

  lemma SameChars(name: string)
    requires name != ""
    ensures Identifier(name) <==> IsNameStart(name[0]) && forall i :: 0 <= i < |name| ==> IsNameChar(name[i])
  {
  }

  lemma {:induction false} RunIs(s: string, n: nat)
    requires n <= |s| && (forall i :: 0 <= i < n ==> IsNameChar(s[i])) && (n < |s| ==> !IsNameChar(s[n]))
    ensures NameRun(s) == n
  {
    if n > 0 { RunIs(s[1..], n - 1); }
  }

  lemma {:induction false} RunChars(s: string)
    ensures forall i :: 0 <= i < NameRun(s) ==> IsNameChar(s[i])
  {
    if s != "" && IsNameChar(s[0]) {
      RunChars(s[1..]);
      assert forall i :: 0 < i < NameRun(s) ==> s[i] == s[1..][i - 1];
    }
  }

  lemma ReferenceShape(name: string, rest: string)
    requires Identifier(name)
    ensures var s := Ref(name) + rest; RefLen(s) == |name| + 3 && RefName(s) == name && s[RefLen(s)..] == rest
  {
    var s := Ref(name) + rest;
    SameChars(name);
    hide Identifier, IsNameStart, IsNameChar;
    ReferenceParts(name, rest);
    assert !IsNameChar('}') by { BraceIsNoNameChar(); }
    RunIs(s[2..], |name|);
  }

  lemma BraceIsNoNameChar()
    ensures !IsNameChar('}')
  {
  }

  lemma ReferenceParts(name: string, rest: string)
    requires name != ""
    ensures var s := Ref(name) + rest;
      && |s| == |name| + 3 + |rest| && s[0] == '$' && s[1] == '{' && s[2] == name[0] && s[2 + |name|] == '}'
      && s[2..|name| + 2] == name && s[|name| + 3..] == rest && s[2..] == name + ("}" + rest)
  {
    var s := Ref(name) + rest;
    assert s == "${" + (name + ("}" + rest));
    assert s[2..] == name + ("}" + rest);
  }

  /** A pass puts a variable's value for a reference to it, and lets a reference to no variable stand. */
  lemma PassOnReference(env: Env, name: string, rest: string)
    requires Identifier(name)
    ensures Pass(env, "${" + name + "}" + rest)
         == (if name in env then env[name] else "${" + name + "}") + Pass(env, rest)
  {
    var s := Ref(name) + rest;
    ReferenceShape(name, rest);
    hide RefLen, RefName, Identifier;
    assert s[..|name| + 3] == Ref(name);
  }

  /** The text starts with a reference. */
  ghost predicate StartsReference(s: string) {
    exists name :: Identifier(name) && "${" + name + "}" <= s
  }

  lemma ScannedIsReference(s: string)
    requires RefLen(s) > 0
    ensures StartsReference(s)
  {
    var name := RefName(s);
    RunChars(s[2..]);
    assert forall i :: 0 <= i < |name| ==> name[i] == s[2..][i];
    SameChars(name);
    hide Identifier, IsNameStart, IsNameChar;
    assert s[..RefLen(s)] == "${" + name + "}";
    assert "${" + name + "}" <= s;
  }

  /** Anywhere else it copies one character. */
  lemma PassCopies(env: Env, s: string)
    requires s != "" && !StartsReference(s)
    ensures Pass(env, s) == [s[0]] + Pass(env, s[1..])
  {
    if RefLen(s) > 0 { ScannedIsReference(s); }
    hide RefLen, StartsReference;
    assert s[..1] == [s[0]];
  }

  /** Anything that obeys these laws is the pass: they say all there is to say about it. */
  ghost predicate Obeys(f: (Env, string) -> string, env: Env) {
    && f(env, "") == ""
    && (forall name, rest :: Identifier(name) ==>
          f(env, "${" + name + "}" + rest) == (if name in env then env[name] else "${" + name + "}") + f(env, rest))
    && (forall s :: s != "" && !StartsReference(s) ==> f(env, s) == [s[0]] + f(env, s[1..]))
  }

  lemma PassObeys(env: Env)
    ensures Obeys(Pass, env)
  {
    forall name, rest | Identifier(name)
      ensures Pass(env, "${" + name + "}" + rest)
           == (if name in env then env[name] else "${" + name + "}") + Pass(env, rest)
    {
      PassOnReference(env, name, rest);
    }
    forall s | s != "" && !StartsReference(s) ensures Pass(env, s) == [s[0]] + Pass(env, s[1..]) {
      PassCopies(env, s);
    }
  }

  lemma ObeyedOnReference(f: (Env, string) -> string, env: Env, name: string, rest: string)
    requires Obeys(f, env) && Identifier(name)
    ensures f(env, "${" + name + "}" + rest) == (if name in env then env[name] else "${" + name + "}") + f(env, rest)
  {
    hide Identifier, StartsReference;
  }

  lemma ReferenceAhead(s: string) returns (name: string, rest: string)
    requires StartsReference(s)
    ensures Identifier(name) && s == "${" + name + "}" + rest && |rest| < |s|
  {
    hide Identifier;
    name :| Identifier(name) && "${" + name + "}" <= s;
    rest := s[|name| + 3..];
  }

  lemma {:induction false} ObeyingIsPassing(f: (Env, string) -> string, env: Env, s: string)
    requires Obeys(f, env)
    ensures f(env, s) == Pass(env, s)
    decreases |s|
  {
    if s == "" {
    } else if StartsReference(s) {
      hide *;
      var name, rest := ReferenceAhead(s);
      ObeyedOnReference(f, env, name, rest);
      PassOnReference(env, name, rest);
      ObeyingIsPassing(f, env, rest);
    } else {
      assert f(env, s) == [s[0]] + f(env, s[1..]);
      hide *;
      PassCopies(env, s);
      ObeyingIsPassing(f, env, s[1..]);
    }
  }
}
