/** The URL rule inside one run of non-space characters: what it keeps, and that once is enough. */
module UrlRedaction {
  import opened LogRedaction

  function MaskUrl(cls: Classes, prev: bool, s: string): string {
    Substitute(cls, UrlPassword, prev, s)
  }

  const AT := "@"
  const HIDDEN := ":" + MASK + AT

  /** A scheme with its "://" and nothing after. */
  predicate IsHead(cls: Classes, s: string) {
    s != "" && SchemeLength(cls, s) == |s|
  }

  predicate IsBody(cls: Classes, s: string) {
    s != "" && forall i :: 0 <= i < |s| ==> PasswordChar(cls)(s[i])
  }

  function Credential(head: string, body: string, rest: string): string {
    head + (body + (AT + rest))
  }

  lemma HeadShape(cls: Classes, head: string)
    requires IsHead(cls, head)
    ensures |head| >= 7 && head[|head| - 3] == ':'
    ensures Scheme(SchemeAt(cls, head)) && Starts(cls, head, SchemeAt(cls, head))
  {
    var w := SchemeAt(cls, head);
    SchemeShape(w);
    assert Same(cls, head[|w| - 3], w[|w| - 3]);
  }

  lemma SchemeOfHead(cls: Classes, head: string, y: string)
    requires Usual(cls) && IsHead(cls, head)
    ensures SchemeLength(cls, head + y) == |head|
  {
    HeadShape(cls, head);
    var w := SchemeAt(cls, head);
    hide SchemeLength;
    assert Starts(cls, head + y, w);
    SchemeFound(cls, head + y, w);
  }

  lemma CredentialMatches(cls: Classes, head: string, body: string, rest: string)
    requires Usual(cls) && IsHead(cls, head) && IsBody(cls, body)
    ensures UrlLength(cls, Credential(head, body, rest)) == |head| + |body| + 1
  {
    var s, tail := Credential(head, body, rest), body + (AT + rest);
    SchemeOfHead(cls, head, tail);
    assert s[|head|..] == tail;
    LeadIs(PasswordChar(cls), tail, |body|);
    assert s[|head| + |body|] == '@';
  }

  lemma HiddenParts(a: string, b: string, c: string, d: string, e: string)
    ensures a + b + c + d + e == a + (b + (c + d + e))
  {
  }

  lemma CredentialReplaced(cls: Classes, head: string, body: string)
    requires Usual(cls) && IsHead(cls, head) && IsBody(cls, body)
    ensures Replacement(cls, UrlPassword, Credential(head, body, "")) == head + (UserOf(cls, body) + HIDDEN)
  {
    hide SchemeLength, UserOf, IsHead, IsBody, Usual;
    var m := Credential(head, body, "");
    SchemeOfHead(cls, head, body + (AT + ""));
    assert m[..|head|] == head && m[|head|..|m| - 1] == body;
    HiddenParts(head, UserOf(cls, body), ":", MASK, "@");
  }

  lemma CredentialEnds(head: string, body: string, rest: string)
    ensures var m := Credential(head, body, "");
      && |m| == |head| + |body| + 1 && m[|m| - 1] == '@' && Credential(head, body, rest) == m + rest
  {
    var m := Credential(head, body, "");
    assert |m| == |head| + |body| + 1 && m[|head| + |body|] == '@';
  }

  /** The masked form keeps the scheme and the user name and says nothing else of the body. */
  lemma CredentialMasked(cls: Classes, head: string, body: string, rest: string)
    requires Usual(cls) && IsHead(cls, head) && IsBody(cls, body)
    ensures MaskUrl(cls, false, Credential(head, body, rest))
         == head + (UserOf(cls, body) + HIDDEN) + MaskUrl(cls, false, rest)
  {
    assert !cls.word('@');
    hide Usual, IsHead, IsBody, Credential, Substitute, Replacement, UserOf, UrlLength;
    var m := Credential(head, body, "");
    CredentialEnds(head, body, rest);
    CredentialMatches(cls, head, body, rest);
    CredentialReplaced(cls, head, body);
    Matched(cls, UrlPassword, false, m, rest);
  }

  /** Whatever the password, and with or without a user name, the masked URL shows only the user name. */
  lemma PasswordHidden(cls: Classes, head: string, user: string, password: string, rest: string)
    requires Usual(cls) && IsHead(cls, head) && IsBody(cls, password)
    requires forall i :: 0 <= i < |user| ==> UserChar(cls)(user[i])
    ensures MaskUrl(cls, false, Credential(head, user + (":" + password), rest))
         == head + (user + HIDDEN) + MaskUrl(cls, false, rest)
  {
    var body := user + (":" + password);
    LeadIs(UserChar(cls), body, |user|);
    assert body[..|user|] == user;
    assert UserOf(cls, body) == user;
    hide UserOf, IsHead;
    assert IsBody(cls, body);
    CredentialMasked(cls, head, body, rest);
  }

  lemma HeadOf(cls: Classes, s: string)
    requires Usual(cls) && SchemeLength(cls, s) > 0
    ensures IsHead(cls, s[..SchemeLength(cls, s)])
  {
    var w := SchemeAt(cls, s);
    var head := s[..|w|];
    hide SchemeLength;
    assert Starts(cls, head, w);
    SchemeFound(cls, head, w);
  }

  /** Every match is a credential. */
  lemma MatchIsCredential(cls: Classes, s: string) returns (head: string, body: string, rest: string)
    requires Usual(cls) && UrlLength(cls, s) > 0
    ensures s == Credential(head, body, rest) && IsHead(cls, head) && IsBody(cls, body)
  {
    var k := SchemeLength(cls, s);
    HeadOf(cls, s);
    hide SchemeLength, Usual, IsHead;
    var n := Lead(PasswordChar(cls), s[k..]);
    head, body, rest := s[..k], s[k..][..n], s[k + n + 1..];
    assert IsBody(cls, body);
    assert s[k + n] == '@';
    hide *;
    CutCredential(s, k, n);
  }

  lemma CutCredential(s: string, k: nat, n: nat)
    requires k + n < |s| && s[k + n] == '@'
    ensures s == Credential(s[..k], s[k..][..n], s[k + n + 1..])
  {
    assert s[k..] == s[k..][..n] + (AT + s[k + n + 1..]);
  }

  lemma NoMatchStep(cls: Classes, prev: bool, s: string)
    requires s != "" && (prev || UrlLength(cls, s) == 0)
    ensures MaskUrl(cls, prev, s) == [s[0]] + MaskUrl(cls, cls.word(s[0]), s[1..])
  {
    hide UrlLength;
  }

  lemma {:induction false} NoAtNoChange(cls: Classes, prev: bool, s: string)
    requires '@' !in s
    ensures MaskUrl(cls, prev, s) == s
    decreases |s|
  {
    if s != "" {
      assert UrlLength(cls, s) == 0;
      NoMatchStep(cls, prev, s);
      NoAtNoChange(cls, cls.word(s[0]), s[1..]);
      assert s == [s[0]] + s[1..];
    }
  }

  lemma {:induction false} AtKept(cls: Classes, prev: bool, s: string)
    requires Usual(cls) && '@' in s
    ensures '@' in MaskUrl(cls, prev, s)
    decreases |s|
  {
    hide Substitute, UrlLength, Usual;
    if prev || UrlLength(cls, s) == 0 {
      NoMatchStep(cls, prev, s);
      var t := MaskUrl(cls, cls.word(s[0]), s[1..]);
      if s[0] != '@' {
        AtKept(cls, cls.word(s[0]), s[1..]);
      }
      assert '@' in [s[0]] + t;
    } else {
      var head, body, rest := MatchIsCredential(cls, s);
      CredentialMasked(cls, head, body, rest);
      assert HIDDEN[11] == '@' && '@' in HIDDEN;
    }
  }

  lemma {:induction false} SpacelessKept(cls: Classes, prev: bool, s: string)
    requires Usual(cls) && NoSpace(cls, s)
    ensures NoSpace(cls, MaskUrl(cls, prev, s)) && (s != "" ==> MaskUrl(cls, prev, s) != "")
    decreases |s|
  {
    if s == "" {
    } else if prev || UrlLength(cls, s) == 0 {
      hide *;
      NoMatchStep(cls, prev, s);
      NoSpaceRest(cls, s, 1);
      SpacelessKept(cls, cls.word(s[0]), s[1..]);
      NoSpaceOne(cls, s, MaskUrl(cls, cls.word(s[0]), s[1..]));
    } else {
      hide *;
      var head, body, rest := MatchIsCredential(cls, s);
      CredentialMasked(cls, head, body, rest);
      SpacelessParts(cls, head, body, rest);
      SpacelessKept(cls, false, rest);
      NoSpaceBoth(cls, head + (UserOf(cls, body) + HIDDEN), MaskUrl(cls, false, rest));
    }
  }

  lemma NoSpaceOne(cls: Classes, s: string, t: string)
    requires s != "" && NoSpace(cls, s) && NoSpace(cls, t)
    ensures NoSpace(cls, [s[0]] + t)
  {
  }

  lemma NoSpaceBoth(cls: Classes, a: string, b: string)
    requires NoSpace(cls, a) && NoSpace(cls, b)
    ensures NoSpace(cls, a + b)
  {
  }

  lemma SpacelessParts(cls: Classes, head: string, body: string, rest: string)
    requires Usual(cls) && NoSpace(cls, Credential(head, body, rest))
    ensures NoSpace(cls, head + (UserOf(cls, body) + HIDDEN)) && NoSpace(cls, rest)
  {
    var s := Credential(head, body, rest);
    assert NoSpace(cls, HIDDEN);
    assert NoSpace(cls, head) by {
      assert forall i :: 0 <= i < |head| ==> head[i] == s[i];
    }
    assert NoSpace(cls, body) by {
      assert forall i :: 0 <= i < |body| ==> body[i] == s[|head| + i];
    }
    assert NoSpace(cls, rest) by {
      assert forall i :: 0 <= i < |rest| ==> rest[i] == s[|head| + |body| + 1 + i];
    }
  }

  /* ---- masking neither makes nor breaks the start of a URL ---- */

  /** A pattern of letters with up to `e` other characters at its end. */
  predicate Pattern(w: string, e: nat) {
    forall i :: 0 <= i < |w| - e ==> 'a' <= w[i] <= 'z'
  }

  lemma PatternAcross(cls: Classes, head: string, x: string, w: string, e: nat)
    requires Usual(cls) && IsHead(cls, head) && 3 <= e <= 4 && Pattern(w, e)
    requires Starts(cls, head + x, w)
    ensures |w| <= |head| + e - 3
  {
    HeadShape(cls, head);
    if |w| > |head| + e - 3 {
      assert Same(cls, (head + x)[|head| - 3], w[|head| - 3]);
      SameAsLetter(cls, ':', w[|head| - 3]);
      assert false;
    }
  }

  lemma {:induction false} StartKept(cls: Classes, prev: bool, s: string, w: string)
    requires Usual(cls) && Pattern(w, 3)
    ensures Starts(cls, MaskUrl(cls, prev, s), w) <==> Starts(cls, s, w)
    decreases |s|
  {
    if w == "" || s == "" {
    } else if prev || UrlLength(cls, s) == 0 {
      assert Pattern(w[1..], 3);
      hide UrlLength, Usual, Substitute, Starts, Pattern;
      NoMatchStep(cls, prev, s);
      StartKept(cls, cls.word(s[0]), s[1..], w[1..]);
      StartsStep(cls, s[0], s[1..], w);
      StartsStep(cls, s[0], MaskUrl(cls, cls.word(s[0]), s[1..]), w);
      assert s == [s[0]] + s[1..];
    } else {
      hide UrlLength, Substitute, IsHead, IsBody, Usual, Pattern, Starts;
      var head, body, rest := MatchIsCredential(cls, s);
      StartOfCredential(cls, head, body, rest, w);
    }
  }

  lemma StartOfCredential(cls: Classes, head: string, body: string, rest: string, w: string)
    requires Usual(cls) && IsHead(cls, head) && IsBody(cls, body) && Pattern(w, 3)
    ensures Starts(cls, MaskUrl(cls, false, Credential(head, body, rest)), w)
       <==> Starts(cls, Credential(head, body, rest), w)
  {
    hide Substitute, IsHead, IsBody, Usual, Pattern, Starts, UserOf;
    CredentialMasked(cls, head, body, rest);
    var t := (UserOf(cls, body) + HIDDEN) + MaskUrl(cls, false, rest);
    assert MaskUrl(cls, false, Credential(head, body, rest)) == head + t;
    HeadDecides(cls, head, body + (AT + rest), t, w);
  }

  lemma StartsStep(cls: Classes, c: char, s: string, w: string)
    requires w != ""
    ensures Starts(cls, [c] + s, w) <==> Same(cls, c, w[0]) && Starts(cls, s, w[1..])
  {
    if Starts(cls, [c] + s, w) {
      assert Same(cls, ([c] + s)[0], w[0]);
      forall i | 0 <= i < |w[1..]| ensures Same(cls, s[i], w[1..][i]) {
        assert ([c] + s)[i + 1] == s[i];
      }
    }
    if Same(cls, c, w[0]) && Starts(cls, s, w[1..]) {
      forall i | 0 <= i < |w| ensures Same(cls, ([c] + s)[i], w[i]) {
        if i > 0 {
          assert ([c] + s)[i] == s[i - 1] && w[i] == w[1..][i - 1];
        }
      }
    }
  }

  lemma HeadDecides(cls: Classes, head: string, x: string, y: string, w: string)
    requires Usual(cls) && IsHead(cls, head) && Pattern(w, 3)
    ensures Starts(cls, head + x, w) <==> Starts(cls, head + y, w)
  {
    if Starts(cls, head + x, w) {
      PatternAcross(cls, head, x, w, 3);
      assert forall i :: 0 <= i < |w| ==> (head + x)[i] == (head + y)[i];
    }
    if Starts(cls, head + y, w) {
      PatternAcross(cls, head, y, w, 3);
      assert forall i :: 0 <= i < |w| ==> (head + x)[i] == (head + y)[i];
    }
  }

  /** An '@' straight after a scheme stays there. */
  lemma {:induction false} EmptyBodyKept(cls: Classes, prev: bool, s: string, w: string)
    requires Usual(cls) && Pattern(w, 4) && w != "" && w[|w| - 1] == '@' && Starts(cls, s, w)
    ensures Starts(cls, MaskUrl(cls, prev, s), w)
    decreases |s|
  {
    if prev || UrlLength(cls, s) == 0 {
      assert Pattern(w[1..], 4);
      hide UrlLength, Usual, Substitute, Pattern;
      NoMatchStep(cls, prev, s);
      assert s == [s[0]] + s[1..];
      hide Starts;
      StartsStep(cls, s[0], s[1..], w);
      StartsStep(cls, s[0], MaskUrl(cls, cls.word(s[0]), s[1..]), w);
      if |w| > 1 {
        EmptyBodyKept(cls, cls.word(s[0]), s[1..], w[1..]);
      } else {
        EmptyStarts(cls, MaskUrl(cls, cls.word(s[0]), s[1..]), w[1..]);
      }
    } else {
      hide UrlLength, Substitute, IsHead, IsBody, Usual, Pattern, Starts;
      var head, body, rest := MatchIsCredential(cls, s);
      EmptyBodyDiffers(cls, head, body, rest, w);
    }
  }

  lemma EmptyStarts(cls: Classes, s: string, w: string)
    requires w == ""
    ensures Starts(cls, s, w)
  {
  }

  lemma EmptyBodyDiffers(cls: Classes, head: string, body: string, rest: string, w: string)
    requires Usual(cls) && IsHead(cls, head) && IsBody(cls, body)
    requires Pattern(w, 4) && w != "" && w[|w| - 1] == '@' && Starts(cls, Credential(head, body, rest), w)
    ensures Starts(cls, MaskUrl(cls, false, Credential(head, body, rest)), w)
  {
    hide Substitute, IsHead, IsBody, Usual, Pattern, UserOf, Starts;
    PatternAcross(cls, head, body + (AT + rest), w, 4);
    BodyIsNoAt(cls, head, body, rest, w);
    CredentialMasked(cls, head, body, rest);
    var t := (UserOf(cls, body) + HIDDEN) + MaskUrl(cls, false, rest);
    assert MaskUrl(cls, false, Credential(head, body, rest)) == head + t;
    WithinHead(cls, head, body + (AT + rest), t, w);
  }

  lemma WithinHead(cls: Classes, head: string, x: string, y: string, w: string)
    requires Starts(cls, head + x, w) && |w| <= |head|
    ensures Starts(cls, head + y, w)
  {
    assert forall i :: 0 <= i < |w| ==> (head + x)[i] == (head + y)[i];
  }

  lemma BodyIsNoAt(cls: Classes, head: string, body: string, rest: string, w: string)
    requires IsBody(cls, body) && w != "" && w[|w| - 1] == '@'
    requires |w| <= |head| + 1 && Starts(cls, Credential(head, body, rest), w)
    ensures |w| <= |head|
  {
    var s := Credential(head, body, rest);
    assert s[|head|] == body[0] != '@';
    assert Same(cls, s[|w| - 1], w[|w| - 1]);
  }

  lemma SchemeKept(cls: Classes, prev: bool, s: string)
    requires Usual(cls)
    ensures SchemeLength(cls, MaskUrl(cls, prev, s)) == SchemeLength(cls, s)
  {
    var t := MaskUrl(cls, prev, s);
    forall w | Scheme(w) ensures Starts(cls, t, w) <==> Starts(cls, s, w) {
      hide Usual, Starts, Substitute;
      SchemeShape(w);
      StartKept(cls, prev, s, w);
    }
    hide *;
    SameScheme(cls, t, s);
  }

  /** In a run holding an '@', a scheme without a match has its '@' at once. */
  lemma EmptyBody(cls: Classes, s: string)
    requires Usual(cls) && NoSpace(cls, s) && '@' in s && SchemeLength(cls, s) > 0 && UrlLength(cls, s) == 0
    ensures SchemeLength(cls, s) < |s| && s[SchemeLength(cls, s)] == '@'
  {
    var n, i :| n == SchemeLength(cls, s) && 0 <= i < |s| && s[i] == '@';
    NoAtInScheme(cls, s, i);
    hide SchemeLength, Usual;
    assert s[n..][i - n] == '@' && !PasswordChar(cls)('@');
    var e := Lead(PasswordChar(cls), s[n..]);
    assert s[n..][e] == s[n + e];
  }

  lemma NoAtInScheme(cls: Classes, s: string, i: nat)
    requires Usual(cls) && SchemeLength(cls, s) > 0 && i < |s| && s[i] == '@'
    ensures i >= SchemeLength(cls, s)
  {
    var w := SchemeAt(cls, s);
    if i < |w| {
      hide SchemeLength;
      SchemeShape(w);
      assert Same(cls, s[i], w[i]);
      SameAsLetter(cls, s[i], w[i]);
      assert false;
    }
  }

  lemma StaysUnmatched(cls: Classes, prev: bool, s: string)
    requires Usual(cls) && NoSpace(cls, s) && UrlLength(cls, s) == 0
    ensures UrlLength(cls, MaskUrl(cls, prev, s)) == 0
  {
    hide Usual, NoSpace, Substitute;
    var n := SchemeLength(cls, s);
    var t := MaskUrl(cls, prev, s);
    SchemeKept(cls, prev, s);
    if '@' !in s {
      NoAtNoChange(cls, prev, s);
    } else if n > 0 {
      EmptyBody(cls, s);
      AtStays(cls, prev, s);
      hide SchemeLength;
      assert !PasswordChar(cls)(t[n..][0]);
      LeadIs(PasswordChar(cls), t[n..], 0);
    }
  }

  lemma AtStays(cls: Classes, prev: bool, s: string)
    requires Usual(cls) && SchemeLength(cls, s) > 0
    requires SchemeLength(cls, s) < |s| && s[SchemeLength(cls, s)] == '@'
    ensures var n, t := SchemeLength(cls, s), MaskUrl(cls, prev, s); n < |t| && t[n] == '@'
  {
    var w := SchemeAt(cls, s);
    hide SchemeLength, Substitute;
    var v := w + AT;
    SchemeShape(w);
    assert Pattern(v, 4);
    assert Starts(cls, s, v) by {
      assert forall i :: 0 <= i < |w| ==> Same(cls, s[i], w[i]);
    }
    EmptyBodyKept(cls, prev, s, v);
    assert Same(cls, MaskUrl(cls, prev, s)[|w|], v[|w|]);
  }

  lemma UserAgain(cls: Classes, body: string)
    requires Usual(cls) && IsBody(cls, body)
    ensures var masked := UserOf(cls, body) + (":" + MASK);
      IsBody(cls, masked) && UserOf(cls, masked) == UserOf(cls, body)
  {
    var user := UserOf(cls, body);
    var masked := user + (":" + MASK);
    assert IsBody(cls, ":" + MASK);
    assert forall i :: 0 <= i < |user| ==> user[i] == body[i];
    assert forall i :: 0 <= i < |user| ==> UserChar(cls)(user[i]);
    LeadIs(UserChar(cls), masked, |user|);
    assert masked[..|user|] == user;
  }

  /** Masking a run twice is masking it once. */
  lemma {:induction false} MaskUrlAgain(cls: Classes, prev: bool, s: string)
    requires Usual(cls) && NoSpace(cls, s)
    ensures MaskUrl(cls, prev, MaskUrl(cls, prev, s)) == MaskUrl(cls, prev, s)
    decreases |s|
  {
    if s == "" {
    } else if prev || UrlLength(cls, s) == 0 {
      assert NoSpace(cls, s[1..]);
      hide UrlLength, Usual, Substitute, NoSpace;
      if !prev { StaysUnmatched(cls, prev, s); }
      NoMatchStep(cls, prev, s);
      var t := MaskUrl(cls, cls.word(s[0]), s[1..]);
      NoMatchStep(cls, prev, [s[0]] + t);
      assert ([s[0]] + t)[1..] == t;
      MaskUrlAgain(cls, cls.word(s[0]), s[1..]);
    } else {
      hide UrlLength, Usual, Substitute, IsHead, IsBody, UserOf;
      var head, body, rest := MatchIsCredential(cls, s);
      CredentialMasked(cls, head, body, rest);
      SpacelessParts(cls, head, body, rest);
      MaskUrlAgain(cls, false, rest);
      CredentialAgain(cls, head, body, MaskUrl(cls, false, rest));
    }
  }

  lemma CredentialAgain(cls: Classes, head: string, body: string, t: string)
    requires Usual(cls) && IsHead(cls, head) && IsBody(cls, body) && MaskUrl(cls, false, t) == t
    ensures var masked := head + (UserOf(cls, body) + HIDDEN) + t;
      MaskUrl(cls, false, masked) == masked
  {
    hide Usual, Substitute, IsHead, IsBody, UserOf;
    UserAgain(cls, body);
    var user, b := UserOf(cls, body), UserOf(cls, body) + (":" + MASK);
    CredentialMasked(cls, head, b, t);
    assert Credential(head, b, t) == head + (user + HIDDEN) + t;
  }

  /* ---- masking a URL does not touch the end of a run ---- */

  lemma SpellsNoAt(cls: Classes, r: string, w: string)
    requires Usual(cls) && Pattern(w, 0) && Spells(cls, r, w)
    ensures '@' !in r
  {
    if '@' in r {
      var i :| 0 <= i < |r| && r[i] == '@';
      assert Same(cls, r[i], w[i]);
      SameAsLetter(cls, r[i], w[i]);
      assert false;
    }
  }

  lemma {:induction false} EndsAfterAt(cls: Classes, prev: bool, m: string, x: string, w: string)
    requires Usual(cls) && Pattern(w, 0) && m != "" && m[|m| - 1] == '@'
    ensures Ends(cls, prev, m + x, w) == Ends(cls, false, x, w)
    decreases |m|
  {
    assert (m + x)[|m| - 1] == '@' && '@' in m + x;
    if Spells(cls, m + x, w) { SpellsNoAt(cls, m + x, w); }
    assert (m + x)[1..] == m[1..] + x;
    assert !cls.word('@');
    hide Usual, Spells;
    if |m| == 1 {
      assert m[1..] + x == x;
    } else {
      EndsAfterAt(cls, cls.word(m[0]), m[1..], x, w);
    }
  }

  lemma {:induction false} EndsKept(cls: Classes, prev: bool, r: string, w: string)
    requires Usual(cls) && Pattern(w, 0)
    ensures Ends(cls, prev, MaskUrl(cls, prev, r), w) == Ends(cls, prev, r, w)
    decreases |r|
  {
    if '@' !in r {
      NoAtNoChange(cls, prev, r);
    } else if prev || UrlLength(cls, r) == 0 {
      hide UrlLength, Usual, Substitute, Pattern;
      var t := MaskUrl(cls, prev, r);
      NoMatchStep(cls, prev, r);
      AtKept(cls, prev, r);
      EndsKept(cls, cls.word(r[0]), r[1..], w);
      assert t[1..] == MaskUrl(cls, cls.word(r[0]), r[1..]);
      if Spells(cls, r, w) { SpellsNoAt(cls, r, w); }
      if Spells(cls, t, w) { SpellsNoAt(cls, t, w); }
    } else {
      hide UrlLength, Usual, Substitute, Pattern, IsHead, IsBody, UserOf, Ends;
      var head, body, rest := MatchIsCredential(cls, r);
      CredentialMasked(cls, head, body, rest);
      EndsKept(cls, false, rest, w);
      CredentialEnds(head, body, rest);
      EndsAfterAt(cls, prev, Credential(head, body, ""), rest, w);
      HiddenEnds(head, UserOf(cls, body));
      EndsAfterAt(cls, prev, head + (UserOf(cls, body) + HIDDEN), MaskUrl(cls, false, rest), w);
    }
  }

  lemma HiddenEnds(head: string, user: string)
    ensures var m := head + (user + HIDDEN); m != "" && m[|m| - 1] == '@'
  {
    assert HIDDEN[|HIDDEN| - 1] == '@';
  }

  /** The text after the last '@' stays at the end. */
  lemma {:induction false} SuffixKept(cls: Classes, prev: bool, p: string, q: string) returns (p': string)
    requires Usual(cls) && '@' !in q
    ensures MaskUrl(cls, prev, p + q) == p' + q
    decreases |p|
  {
    var r := p + q;
    if '@' !in p {
      hide *;
      assert forall c :: c in r ==> c in p || c in q;
      NoAtNoChange(cls, prev, r);
      p' := p;
    } else if prev || UrlLength(cls, r) == 0 {
      hide *;
      NoMatchStep(cls, prev, r);
      assert r[0] == p[0] && r[1..] == p[1..] + q;
      var t := SuffixKept(cls, cls.word(p[0]), p[1..], q);
      p' := [p[0]] + t;
      Associate([p[0]], t, q);
    } else {
      hide *;
      var head, body, rest := MatchIsCredential(cls, r);
      CredentialMasked(cls, head, body, rest);
      var n := PastAt(head, body, rest, p, q);
      var t := SuffixKept(cls, false, p[n..], q);
      p' := head + (UserOf(cls, body) + HIDDEN) + t;
      Associate(head + (UserOf(cls, body) + HIDDEN), t, q);
    }
  }

  lemma Associate(a: string, b: string, c: string)
    ensures a + (b + c) == (a + b) + c
  {
  }

  /** A credential at the head of `p + q` ends within `p` when `q` has no '@'. */
  lemma PastAt(head: string, body: string, rest: string, p: string, q: string) returns (n: nat)
    requires Credential(head, body, rest) == p + q && '@' !in q
    ensures 0 < n <= |p| && rest == p[n..] + q
  {
    n := |head| + |body| + 1;
    CredentialEnds(head, body, rest);
    assert (p + q)[n - 1] == '@';
    if n > |p| {
      assert false;
    }
    assert rest == (p + q)[n..];
  }
}
