/** Which names a log field or a dictionary key may have for its value to be shown. */
module SensitiveKeys {
  import opened Common

  /** Lower-casing, of which nothing is assumed. */
  type Lower = string -> string

  function Hyphenated(s: string): (r: string)
    ensures |r| == |s| && forall i :: 0 <= i < |s| ==> r[i] == if s[i] == '_' then '-' else s[i]
  {
    if s == "" then "" else [if s[0] == '_' then '-' else s[0]] + Hyphenated(s[1..])
  }

  /** Whether a key, in lower case and with its underscores made hyphens, contains one of the listed fragments. */
  predicate Sensitive(lower: Lower, key: string) {
    var k := Hyphenated(lower(key));
    || Contains(k, "authorization")
    || Contains(k, "cookie")
    || Contains(k, "set-cookie")
    || Contains(k, "password")
    || Contains(k, "secret")
    || Contains(k, "token")
    || Contains(k, "api_key")
    || Contains(k, "apikey")
    || Contains(k, "jwt")
    || Contains(k, "session")
    || Contains(k, "csrf")
  }

  lemma {:induction false} ContainedInside(s: string, t: string, c: char)
    requires Contains(s, t) && c in t
    ensures c in s
  {
    if t <= s {
    } else {
      ContainedInside(s[1..], t, c);
    }
  }

  /** Underscores are replaced before the comparison, so the one fragment written with an underscore never fits. */
  lemma UnderscoreFragmentNeverFits(lower: Lower, key: string)
    ensures !Contains(Hyphenated(lower(key)), "api_key")
  {
    if Contains(Hyphenated(lower(key)), "api_key") {
      assert "api_key"[3] == '_';
      ContainedInside(Hyphenated(lower(key)), "api_key", '_');
      assert false;
    }
  }

  /** The fragments that are written without an underscore. */
  predicate Flagged(k: string) {
    || Contains(k, "authorization")
    || Contains(k, "cookie")
    || Contains(k, "set-cookie")
    || Contains(k, "password")
    || Contains(k, "secret")
    || Contains(k, "token")
    || Contains(k, "apikey")
    || Contains(k, "jwt")
    || Contains(k, "session")
    || Contains(k, "csrf")
  }

  /** A key is sensitive exactly when it contains one of those ten. */
  lemma SensitiveIffFlagged(lower: Lower, key: string)
    ensures Sensitive(lower, key) <==> Flagged(Hyphenated(lower(key)))
  {
    UnderscoreFragmentNeverFits(lower, key);
  }

  /* ---- what naming an API key does to a key: nothing ---- */

  /** The text cannot overlap "api-key": neither an 'a' in it nor its first letter fits there. */
  predicate Apart(t: string) {
    && t != ""
    && (forall j: nat :: j < |t| && t[j] == 'a' ==> BreaksOff(t, j))
    && (t[0] in "pi-key" ==> t[0] == 'p' && |t| > 1 && t[1] == 'a')
  }

  predicate BreaksOff(t: string, j: nat) {
    j + 1 < |t| && (t[j + 1] != 'p' || (j + 3 < |t| && t[j + 3] != '-'))
  }

  lemma OccursLeft(a: string, b: string, t: string, i: nat)
    requires Occurs(a + b, t, i) && i + |t| <= |a|
    ensures Occurs(a, t, i)
  {
    assert (a + b)[i..i + |t|] == a[i..i + |t|];
  }

  lemma OccursRight(a: string, b: string, t: string, i: nat)
    requires Occurs(a + b, t, i) && i >= |a|
    ensures Occurs(b, t, i - |a|)
  {
    assert (a + b)[i..i + |t|] == b[i - |a|..i - |a| + |t|];
  }

  lemma OccursBeside(a: string, m: string, b: string, t: string, i: nat)
    requires m == "api-key" && Apart(t) && Occurs(a + m + b, t, i)
    ensures Contains(a, t) || Contains(b, t)
  {
    hide Apart, Contains;
    if i + |t| <= |a| {
      assert a + m + b == a + (m + b);
      OccursLeft(a, m + b, t, i);
      OccursContains(a, t, i);
    } else if i >= |a| + 7 {
      OccursRight(a + m, b, t, i);
      OccursContains(b, t, i - |a| - 7);
    } else {
      OccursAcross(a, m, b, t, i);
    }
  }

  lemma OccursAcross(a: string, m: string, b: string, t: string, i: nat)
    requires m == "api-key" && Apart(t) && |a| - |t| < i < |a| + 7
    ensures !Occurs(a + m + b, t, i)
  {
    hide Apart;
    var k := Mismatch(m, t, |a| - i);
    var s := a + m + b;
    assert s[|a| + k] == m[k] && |a| + k == i + (|a| - i + k);
  }

  /** Such a text laid over "api-key", `d` characters before it, differs from it somewhere. */
  lemma Mismatch(m: string, t: string, d: int) returns (k: nat)
    requires m == "api-key" && Apart(t) && -7 < d < |t|
    ensures k < 7 && 0 <= d + k < |t| && t[d + k] != m[k]
  {
    if d >= 0 {
      assert t[d] == 'a' ==> BreaksOff(t, d);
      k := if t[d] != 'a' then 0 else if t[d + 1] != 'p' then 1 else 3;
    } else {
      k := if t[0] != m[-d] then -d else 1 - d;
      assert m[-d] in "pi-key";
    }
  }

  lemma OccursIn(a: string, s: string, b: string, t: string, i: nat)
    requires Occurs(s, t, i)
    ensures Occurs(a + s + b, t, |a| + i)
  {
    assert (a + s + b)[|a| + i..|a| + i + |t|] == s[i..i + |t|];
  }

  lemma ContainsInPart(a: string, m: string, b: string, t: string)
    ensures Contains(a, t) || Contains(b, t) ==> Contains(a + m + b, t)
  {
    ContainsOccurs(a, t);
    ContainsOccurs(b, t);
    if Contains(a, t) {
      var i: nat :| Occurs(a, t, i);
      OccursIn("", a, m + b, t, i);
      assert "" + a + (m + b) == a + m + b;
      OccursContains(a + m + b, t, i);
    } else if Contains(b, t) {
      var i: nat :| Occurs(b, t, i);
      OccursIn(a + m, b, "", t, i);
      assert a + m + b + "" == a + m + b;
      OccursContains(a + m + b, t, |a + m| + i);
    }
  }

  lemma ContainedBeside(a: string, b: string, t: string)
    requires Apart(t)
    ensures Contains(a + "api-key" + b, t) <==> Contains(a, t) || Contains(b, t)
  {
    var m := "api-key";
    ContainsOccurs(a + m + b, t);
    ContainsInPart(a, m, b, t);
    if Contains(a + m + b, t) {
      var i: nat :| Occurs(a + m + b, t, i);
      OccursBeside(a, m, b, t, i);
    }
  }

  lemma FragmentsApart()
    ensures Apart("authorization") && Apart("cookie") && Apart("set-cookie") && Apart("password") && Apart("secret")
  {
  }

  lemma ShortFragmentsApart()
    ensures Apart("token") && Apart("apikey") && Apart("jwt") && Apart("session") && Apart("csrf")
  {
  }

  lemma FlaggedBeside(a: string, b: string)
    ensures Flagged(a + "api-key" + b) <==> Flagged(a) || Flagged(b)
  {
    hide Contains, Apart;
    FragmentsApart();
    ShortFragmentsApart();
    ContainedBeside(a, b, "authorization");
    ContainedBeside(a, b, "cookie");
    ContainedBeside(a, b, "set-cookie");
    ContainedBeside(a, b, "password");
    ContainedBeside(a, b, "secret");
    ContainedBeside(a, b, "token");
    ContainedBeside(a, b, "apikey");
    ContainedBeside(a, b, "jwt");
    ContainedBeside(a, b, "session");
    ContainedBeside(a, b, "csrf");
  }

  lemma HyphenatedAppend(a: string, b: string)
    ensures Hyphenated(a + b) == Hyphenated(a) + Hyphenated(b)
  {
    hide Hyphenated;
    var whole, parts := Hyphenated(a + b), Hyphenated(a) + Hyphenated(b);
    forall i | 0 <= i < |whole| ensures whole[i] == parts[i] {
      if i < |a| {
        assert (a + b)[i] == a[i];
      } else {
        assert (a + b)[i] == b[i - |a|];
      }
    }
  }

  lemma NameHyphenated(name: string)
    requires name == "api_key" || name == "api-key"
    ensures Hyphenated(name) == "api-key"
  {
    hide Hyphenated;
    assert |name| == 7;
  }

  /**
   Naming an API key, with an underscore or a hyphen, never makes a key sensitive: it is sensitive exactly when
   the text before or after the name is. In particular "api_key" and "x-api-key" are not.
   */
  lemma ApiKeyAddsNothing(lower: Lower, key: string, a: string, b: string)
    requires lower(key) == a + "api_key" + b || lower(key) == a + "api-key" + b
    ensures Sensitive(lower, key) <==> Flagged(Hyphenated(a)) || Flagged(Hyphenated(b))
  {
    hide *;
    var name := if lower(key) == a + "api_key" + b then "api_key" else "api-key";
    HyphenatedAppend(a, name);
    HyphenatedAppend(a + name, b);
    NameHyphenated(name);
    SensitiveIffFlagged(lower, key);
    FlaggedBeside(Hyphenated(a), Hyphenated(b));
  }

  /** The key "api_key" is therefore not sensitive. */
  lemma ApiKeyIsNotSensitive(lower: Lower)
    requires lower("api_key") == "api_key"
    ensures !Sensitive(lower, "api_key")
  {
    ApiKeyAddsNothing(lower, "api_key", "", "");
    NothingShort("");
  }

  /** Nor is the header name "X-API-Key", which lower-cases to "x-api-key". */
  lemma HeaderNameIsNotSensitive(lower: Lower, key: string)
    requires lower(key) == "x-api-key"
    ensures !Sensitive(lower, key)
  {
    assert "x-" + "api-key" + "" == "x-api-key";
    ApiKeyAddsNothing(lower, key, "x-", "");
    NothingShort("");
    NothingShort(Hyphenated("x-"));
  }

  lemma {:induction false} TooLong(s: string, t: string)
    requires |t| > |s|
    ensures !Contains(s, t)
  {
    if s != "" {
      TooLong(s[1..], t);
    }
  }

  lemma NothingShort(s: string)
    requires |s| < 3
    ensures !Flagged(s)
  {
    hide Contains;
    TooLong(s, "authorization");
    TooLong(s, "cookie");
    TooLong(s, "set-cookie");
    TooLong(s, "password");
    TooLong(s, "secret");
    TooLong(s, "token");
    TooLong(s, "apikey");
    TooLong(s, "jwt");
    TooLong(s, "session");
    TooLong(s, "csrf");
  }
}
