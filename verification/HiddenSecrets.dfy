/**
 What the whole redaction hides, all three rewrites together: the word masked after "basic", and the password of
 a service URL anywhere in a text.
 */
module HiddenSecrets {
  import opened LogRedaction
  import opened UrlRedaction
  import opened RedactedText

  /* ---- two texts whose words differ in one place ---- */

  /** Which words are masked depends only on which words end with the keyword. */
  lemma {:induction false} TakenAlike(cls: Classes, rule: Rule, ws: seq<Word>, ws': seq<Word>, j: nat)
    requires rule.Keyword? && j <= |ws| == |ws'|
    requires forall i :: 0 <= i < |ws| ==>
      Ends(cls, false, ws[i].run, rule.name) == Ends(cls, false, ws'[i].run, rule.name)
    ensures Taken(cls, rule, ws, j) == Taken(cls, rule, ws', j)
    decreases j
  {
    hide Ends;
    if j > 0 {
      TakenAlike(cls, rule, ws, ws', j - 1);
    }
  }

  lemma MaskNextApart(cls: Classes, rule: Rule, ws: seq<Word>, i: nat, other: Word, j: nat)
    requires Usual(cls) && IsKeyword(rule) && i < |ws| && j < |ws| && j != i
    requires Ends(cls, false, ws[i].run, rule.name) == Ends(cls, false, other.run, rule.name)
    ensures |MaskNext(cls, rule, ws)| == |MaskNext(cls, rule, ws[i := other])| == |ws|
    ensures MaskNext(cls, rule, ws)[j] == MaskNext(cls, rule, ws[i := other])[j]
  {
    hide Usual, MaskNext, Ends, Relabelled;
    MaskNextAt(cls, rule, ws, j);
    MaskNextAt(cls, rule, ws[i := other], j);
    TakenAlike(cls, rule, ws, ws[i := other], j);
  }

  /* ---- the word after "basic" ---- */

  /**
   A word that the second rule masks does not show in what the whole redaction leaves: any other word in its place
   gives the same text, as long as neither ends with "bearer", which would call for the next word too.
   */
  lemma BasicTokenHidden(cls: Classes, ws: seq<Word>, i: nat, other: Word, tail: string)
    requires Usual(cls) && i < |ws| && Separated(cls, ws, tail) && Separated(cls, ws[i := other], tail)
    requires Taken(cls, BASIC, MaskNext(cls, BEARER, ws), i)
    requires !Ends(cls, false, ws[i].run, "bearer") && !Ends(cls, false, other.run, "bearer")
    ensures RedactText(cls, Join(ws, tail)) == RedactText(cls, Join(ws[i := other], tail))
  {
    hide Usual, Substitute, Join, Separated, MaskNext, Ends, Relabelled, Taken;
    var ws' := ws[i := other];
    var us, us' := MaskNext(cls, BEARER, ws), MaskNext(cls, BEARER, ws');
    MaskNextAt(cls, BEARER, ws, i);
    MaskNextAt(cls, BEARER, ws', i);
    forall j | 0 <= j < |ws| && j != i ensures us[j] == us'[j] {
      MaskNextApart(cls, BEARER, ws, i, other, j);
    }
    assert us' == us[i := us'[i]];
    MaskNextSeparated(cls, BEARER, ws, tail);
    MaskNextSeparated(cls, BEARER, ws', tail);
    TokenHidden(cls, BASIC, us, i, us'[i], tail);
    KeywordByWords(cls, BEARER, ws, tail);
    KeywordByWords(cls, BEARER, ws', tail);
  }

  /* ---- a URL's password: inside one word ---- */

  lemma HeadIsSolid(cls: Classes, head: string)
    requires Usual(cls) && IsHead(cls, head)
    ensures forall i :: 0 <= i < |head| ==> PasswordChar(cls)(head[i])
    ensures cls.word(head[0])
  {
    var w := SchemeAt(cls, head);
    hide SchemeLength;
    SchemeShape(w);
    forall i | 0 <= i < |head| ensures PasswordChar(cls)(head[i]) && (i == 0 ==> cls.word(head[i])) {
      assert Same(cls, head[i], w[i]);
      SameAsLetter(cls, head[i], w[i]);
    }
  }

  /** A scheme does not reach past a text that has a ':' three characters before its end. */
  lemma ColonDecides(cls: Classes, z: string, a: string, b: string, w: string)
    requires Usual(cls) && |z| >= 3 && z[|z| - 3] == ':' && Pattern(w, 3) && Starts(cls, z + a, w)
    ensures Starts(cls, z + b, w) && |w| <= |z|
  {
    if |w| > |z| {
      assert Same(cls, (z + a)[|z| - 3], w[|z| - 3]);
      SameAsLetter(cls, ':', w[|z| - 3]);
      assert false;
    }
    assert forall i :: 0 <= i < |w| ==> (z + a)[i] == (z + b)[i];
  }

  lemma SchemeDecided(cls: Classes, x: string, head: string, a: string, b: string)
    requires Usual(cls) && IsHead(cls, head) && x != "" && !cls.word(x[|x| - 1])
    ensures SchemeLength(cls, (x + head) + a) == SchemeLength(cls, (x + head) + b) <= |x|
  {
    var z := x + head;
    HeadShape(cls, head);
    forall w | Scheme(w) ensures Starts(cls, z + a, w) <==> Starts(cls, z + b, w) {
      SchemeShape(w);
      if Starts(cls, z + a, w) { ColonDecides(cls, z, a, b, w); }
      if Starts(cls, z + b, w) { ColonDecides(cls, z, b, a, w); }
    }
    SameScheme(cls, z + a, z + b);
    if SchemeLength(cls, z + a) > 0 {
      var w := SchemeAt(cls, z + a);
      hide SchemeLength;
      SchemeInside(cls, x, head, a, w);
    }
  }

  /** Nor past a character that is no word character when a word character follows. */
  lemma SchemeInside(cls: Classes, x: string, head: string, a: string, w: string)
    requires Usual(cls) && IsHead(cls, head) && x != "" && !cls.word(x[|x| - 1])
    requires Scheme(w) && Starts(cls, (x + head) + a, w)
    ensures |w| <= |x|
  {
    var s, k := (x + head) + a, |x|;
    HeadIsSolid(cls, head);
    SchemeShape(w);
    if k < |w| {
      assert s[k - 1] == x[k - 1] && s[k] == head[0];
      assert Same(cls, s[k - 1], w[k - 1]) && Same(cls, s[k], w[k]);
      SameAsLetter(cls, s[k - 1], w[k - 1]);
      SchemeEnd(w, k);
      assert false;
    }
  }

  lemma SchemeEnd(w: string, k: nat)
    requires Scheme(w) && 0 < k < |w| && !('a' <= w[k - 1] <= 'z')
    ensures w[k] == '/'
  {
  }

  /** Where a match ends that starts with `k` characters of scheme, at `x` and before a credential. */
  function MatchEnd(cls: Classes, x: string, head: string, body: string, k: nat): nat
    requires k <= |x|
  {
    var e := Lead(PasswordChar(cls), x[k..]);
    if k == 0 then 0
    else if k + e == |x| then |x| + |head| + |body| + 1
    else if e == 0 || x[k + e] != '@' then 0 else k + e + 1
  }

  lemma MatchEnds(cls: Classes, x: string, head: string, body: string, rest: string)
    requires Usual(cls) && IsHead(cls, head) && IsBody(cls, body)
    requires SchemeLength(cls, x + Credential(head, body, rest)) <= |x|
    ensures var s := x + Credential(head, body, rest);
      UrlLength(cls, s) == MatchEnd(cls, x, head, body, SchemeLength(cls, s))
  {
    var s := x + Credential(head, body, rest);
    var k := SchemeLength(cls, s);
    HeadIsSolid(cls, head);
    hide Usual, SchemeLength, IsHead;
    if k > 0 {
      var e := Lead(PasswordChar(cls), x[k..]);
      if k + e == |x| {
        RunsThrough(cls, x, head, body, rest, k);
      } else {
        DropBefore(x, Credential(head, body, rest), k);
        LeadIs(PasswordChar(cls), s[k..], e);
        assert s[k + e] == x[k + e];
      }
    }
  }

  lemma RunsThrough(cls: Classes, x: string, head: string, body: string, rest: string, k: nat)
    requires k <= |x| && IsBody(cls, body)
    requires forall i :: 0 <= i < |head| ==> PasswordChar(cls)(head[i])
    requires forall i :: 0 <= i < |x[k..]| ==> PasswordChar(cls)(x[k..][i])
    ensures var s, n := x + Credential(head, body, rest), |x| - k + |head| + |body|;
      Lead(PasswordChar(cls), s[k..]) == n && k + n < |s| && s[k + n] == '@'
  {
    var s, n := x + Credential(head, body, rest), |x| - k + |head| + |body|;
    var y := x[k..] + (head + body);
    assert s[k..] == y + (AT + rest);
    assert forall i :: 0 <= i < n ==> PasswordChar(cls)(y[i]);
    assert (y + (AT + rest))[n] == '@';
    hide Credential, IsBody;
    LeadIs(PasswordChar(cls), s[k..], n);
    assert s[k..][n] == s[k + n];
  }

  /** What counts as the user name is settled by the first ':' there is. */
  lemma UserSettled(cls: Classes, z: string, a: string, b: string)
    requires |z| >= 3 && z[|z| - 3] == ':'
    ensures UserOf(cls, z + a) == UserOf(cls, z + b)
  {
    var n := Lead(UserChar(cls), z);
    assert n < |z| by {
      assert !UserChar(cls)(z[|z| - 3]);
    }
    assert forall i :: 0 <= i < |z| ==> (z + a)[i] == z[i] == (z + b)[i];
    LeadIs(UserChar(cls), z + a, n);
    LeadIs(UserChar(cls), z + b, n);
    assert n <= |z| - 3;
    assert (z + a)[..n] == (z + b)[..n];
  }

  /** A match that starts before a credential and runs through it is masked the same whatever the password. */
  lemma SwallowedCredential(cls: Classes, x: string, head: string, b1: string, b2: string, rest: string, k: nat)
    requires Usual(cls) && IsHead(cls, head) && IsBody(cls, b1) && IsBody(cls, b2)
    requires k <= |x| && IsHead(cls, x[..k])
    requires forall i :: 0 <= i < |x[k..]| ==> PasswordChar(cls)(x[k..][i])
    ensures MaskUrl(cls, false, x + Credential(head, b1, rest)) == MaskUrl(cls, false, x + Credential(head, b2, rest))
  {
    var z := x[k..] + head;
    HeadShape(cls, head);
    assert |z| >= 3 && z[|z| - 3] == ':';
    hide *;
    SwallowedBody(cls, x[k..], head, b1);
    SwallowedBody(cls, x[k..], head, b2);
    RegroupCredential(x, head, b1, rest, k);
    RegroupCredential(x, head, b2, rest, k);
    UserSettled(cls, z, b1, b2);
    CredentialMasked(cls, x[..k], z + b1, rest);
    CredentialMasked(cls, x[..k], z + b2, rest);
  }

  lemma SwallowedBody(cls: Classes, y: string, head: string, body: string)
    requires Usual(cls) && IsHead(cls, head) && IsBody(cls, body)
    requires forall i :: 0 <= i < |y| ==> PasswordChar(cls)(y[i])
    ensures IsBody(cls, (y + head) + body)
  {
    HeadIsSolid(cls, head);
  }

  lemma RegroupCredential(x: string, head: string, body: string, rest: string, k: nat)
    requires k <= |x|
    ensures x + Credential(head, body, rest) == Credential(x[..k], (x[k..] + head) + body, rest)
  {
    assert x == x[..k] + x[k..];
    assert ((x[k..] + head) + body) + (AT + rest) == x[k..] + (head + (body + (AT + rest)));
  }

  /** The credential starts where a word does not go on. */
  predicate AtBoundary(cls: Classes, prev: bool, x: string) {
    if x == "" then !prev else !cls.word(x[|x| - 1])
  }

  /**
   Wherever in a run of characters a service URL begins, the masked run depends on no more of what is before its '@'
   than the user name.
   */
  lemma {:induction false} BodyHiddenAfter(cls: Classes, prev: bool, x: string, head: string, b1: string, b2: string,
      rest: string)
    requires Usual(cls) && IsHead(cls, head) && AtBoundary(cls, prev, x)
    requires IsBody(cls, b1) && IsBody(cls, b2) && UserOf(cls, b1) == UserOf(cls, b2)
    ensures MaskUrl(cls, prev, x + Credential(head, b1, rest)) == MaskUrl(cls, prev, x + Credential(head, b2, rest))
    decreases |x|
  {
    var c1, c2 := Credential(head, b1, rest), Credential(head, b2, rest);
    if x == "" {
      assert !prev;
      hide *;
      CredentialMasked(cls, head, b1, rest);
      CredentialMasked(cls, head, b2, rest);
      NothingBefore(c1);
      NothingBefore(c2);
    } else {
      BoundaryLater(cls, prev, x);
      hide *;
      SameMatch(cls, x, head, b1, b2, rest);
      var n := UrlLength(cls, x + c1);
      if prev || n == 0 {
        UnmatchedBefore(cls, prev, x, c1);
        UnmatchedBefore(cls, prev, x, c2);
        BodyHiddenAfter(cls, cls.word(x[0]), x[1..], head, b1, b2, rest);
      } else if n <= |x| {
        MatchBefore(cls, x, c1, n);
        MatchBefore(cls, x, c2, n);
        BodyHiddenAfter(cls, false, x[n..], head, b1, b2, rest);
      } else {
        SwallowedCredential(cls, x, head, b1, b2, rest, SchemeLength(cls, x + c1));
      }
    }
  }

  lemma NothingBefore(c: string)
    ensures "" + c == c
  {
  }

  lemma BoundaryLater(cls: Classes, prev: bool, x: string)
    requires x != "" && AtBoundary(cls, prev, x)
    ensures !cls.word(x[|x| - 1])
    ensures AtBoundary(cls, cls.word(x[0]), x[1..]) && forall n :: 0 < n <= |x| ==> AtBoundary(cls, false, x[n..])
  {
  }

  lemma UnmatchedBefore(cls: Classes, prev: bool, x: string, c: string)
    requires x != "" && (prev || UrlLength(cls, x + c) == 0)
    ensures MaskUrl(cls, prev, x + c) == [x[0]] + MaskUrl(cls, cls.word(x[0]), x[1..] + c)
  {
    hide UrlLength, Substitute;
    NoMatchStep(cls, prev, x + c);
    assert (x + c)[1..] == x[1..] + c;
  }

  /** Two credentials after the same text are matched alike: not at all, before them, or through them. */
  lemma SameMatch(cls: Classes, x: string, head: string, b1: string, b2: string, rest: string)
    requires Usual(cls) && IsHead(cls, head) && IsBody(cls, b1) && IsBody(cls, b2)
    requires x != "" && !cls.word(x[|x| - 1])
    ensures !cls.word('@')
    ensures var s1, s2 := x + Credential(head, b1, rest), x + Credential(head, b2, rest);
      var n, k := UrlLength(cls, s1), SchemeLength(cls, s1);
      && (n <= |x| ==> UrlLength(cls, s2) == n && (n > 0 ==> x[n - 1] == '@'))
      && (n > |x| ==>
        && k <= |x| && IsHead(cls, x[..k])
        && forall i :: 0 <= i < |x[k..]| ==> PasswordChar(cls)(x[k..][i]))
  {
    assert !cls.word('@');
    hide Usual, IsHead, IsBody, Credential, UrlLength, SchemeLength, Lead;
    SchemeBefore(cls, x, head, b1, b2, rest);
    MatchEnds(cls, x, head, b1, rest);
    MatchEnds(cls, x, head, b2, rest);
    var k := SchemeLength(cls, x + Credential(head, b1, rest));
    if k > 0 { HeadBefore(cls, x, Credential(head, b1, rest), k); }
  }

  lemma HeadBefore(cls: Classes, x: string, c: string, k: nat)
    requires Usual(cls) && SchemeLength(cls, x + c) == k && 0 < k <= |x|
    ensures IsHead(cls, x[..k])
  {
    HeadOf(cls, x + c);
    assert (x + c)[..k] == x[..k];
  }

  lemma SchemeBefore(cls: Classes, x: string, head: string, b1: string, b2: string, rest: string)
    requires Usual(cls) && IsHead(cls, head) && x != "" && !cls.word(x[|x| - 1])
    ensures SchemeLength(cls, x + Credential(head, b1, rest))
         == SchemeLength(cls, x + Credential(head, b2, rest)) <= |x|
  {
    hide Usual, IsHead, SchemeLength;
    var a, b := b1 + (AT + rest), b2 + (AT + rest);
    SchemeDecided(cls, x, head, a, b);
    assert x + Credential(head, b1, rest) == (x + head) + a;
    assert x + Credential(head, b2, rest) == (x + head) + b;
  }

  /** A match that ends before the credential. */
  lemma MatchBefore(cls: Classes, x: string, c: string, n: nat)
    requires UrlLength(cls, x + c) == n && 0 < n <= |x| && x[n - 1] == '@' && !cls.word('@')
    ensures MaskUrl(cls, false, x + c) == Replacement(cls, UrlPassword, x[..n]) + MaskUrl(cls, false, x[n..] + c)
  {
    hide UrlLength, Replacement, Substitute;
    assert x + c == x[..n] + (x[n..] + c);
    Matched(cls, UrlPassword, false, x[..n], x[n..] + c);
  }

  /* ---- a URL's password: anywhere in a text ---- */

  /** The two words are the same, or the same but for what they start with up to an '@'. */
  predicate Alike(m1: string, m2: string, v: Word, w: Word) {
    v == w || (v.gap == w.gap && m1 <= v.run && m2 <= w.run && v.run[|m1|..] == w.run[|m2|..])
  }

  lemma AlikeEnds(cls: Classes, rule: Rule, m1: string, m2: string, v: Word, w: Word)
    requires Usual(cls) && IsKeyword(rule) && Alike(m1, m2, v, w)
    requires m1 != "" && m2 != "" && m1[|m1| - 1] == m2[|m2| - 1] == '@'
    ensures Ends(cls, false, v.run, rule.name) == Ends(cls, false, w.run, rule.name)
    ensures Ends(cls, false, v.run, rule.name) ==>
      Alike(m1, m2, Word(v.gap, Relabelled(rule, v.run)), Word(w.gap, Relabelled(rule, w.run)))
  {
    if v != w {
      var rest := v.run[|m1|..];
      assert v.run == m1 + rest && w.run == m2 + rest;
      KeywordPattern(rule);
      hide Usual, Ends, Pattern;
      EndsAfterAt(cls, false, m1, rest, rule.name);
      EndsAfterAt(cls, false, m2, rest, rule.name);
      if Ends(cls, false, rest, rule.name) {
        RelabelledAfter(rule, m1, rest);
        RelabelledAfter(rule, m2, rest);
      }
    }
  }

  lemma RelabelledAfter(rule: Rule, m: string, rest: string)
    requires rule.Keyword? && |rest| >= |rule.name|
    ensures Relabelled(rule, m + rest) == m + Relabelled(rule, rest)
  {
    assert (m + rest)[..|m + rest| - |rule.name|] == m + rest[..|rest| - |rule.name|];
  }

  /** A keyword rule keeps two texts alike. */
  lemma MaskNextAlike(cls: Classes, rule: Rule, m1: string, m2: string, ws: seq<Word>, i: nat, w: Word)
    returns (w': Word)
    requires Usual(cls) && IsKeyword(rule) && i < |ws| && Alike(m1, m2, ws[i], w)
    requires m1 != "" && m2 != "" && m1[|m1| - 1] == m2[|m2| - 1] == '@'
    ensures |MaskNext(cls, rule, ws)| == |ws|
    ensures MaskNext(cls, rule, ws[i := w]) == MaskNext(cls, rule, ws)[i := w']
    ensures Alike(m1, m2, MaskNext(cls, rule, ws)[i], w')
  {
    hide Usual, MaskNext, Ends, Relabelled, Alike, Taken;
    AlikeEnds(cls, rule, m1, m2, ws[i], w);
    var us, us' := MaskNext(cls, rule, ws), MaskNext(cls, rule, ws[i := w]);
    MaskNextAt(cls, rule, ws, i);
    MaskNextAt(cls, rule, ws[i := w], i);
    TakenAlike(cls, rule, ws, ws[i := w], i);
    w' := us'[i];
    forall j | 0 <= j < |ws| && j != i ensures us[j] == us'[j] {
      MaskNextApart(cls, rule, ws, i, w, j);
    }
    assert us' == us[i := w'];
    SameAlike(m1, m2, us[i]);
  }

  lemma SameAlike(m1: string, m2: string, w: Word)
    ensures Alike(m1, m2, w, w)
  {
  }

  lemma MaskUrlsAlike(cls: Classes, m1: string, m2: string, ws: seq<Word>, i: nat, w: Word)
    requires i < |ws| && Alike(m1, m2, ws[i], w)
    requires forall rest :: MaskUrl(cls, false, m1 + rest) == MaskUrl(cls, false, m2 + rest)
    ensures MaskUrls(cls, ws[i := w]) == MaskUrls(cls, ws)
  {
    hide Substitute;
    var v := ws[i];
    if v != w {
      var rest := v.run[|m1|..];
      assert v.run == m1 + rest && w.run == m2 + rest;
      assert MaskUrl(cls, false, m1 + rest) == MaskUrl(cls, false, m2 + rest);
    }
    forall j | 0 <= j < |ws| ensures MaskUrls(cls, ws[i := w])[j] == MaskUrls(cls, ws)[j] {
    }
  }

  /** Two texts that are alike but for what is masked in one word are redacted to the same text. */
  lemma RedactedAlike(cls: Classes, m1: string, m2: string, ws: seq<Word>, i: nat, w: Word, tail: string)
    requires Usual(cls) && i < |ws| && Alike(m1, m2, ws[i], w)
    requires m1 != "" && m2 != "" && m1[|m1| - 1] == m2[|m2| - 1] == '@'
    requires forall rest :: MaskUrl(cls, false, m1 + rest) == MaskUrl(cls, false, m2 + rest)
    requires Separated(cls, ws, tail) && Separated(cls, ws[i := w], tail)
    ensures RedactText(cls, Join(ws, tail)) == RedactText(cls, Join(ws[i := w], tail))
  {
    hide Usual, Substitute, Join, Separated, MaskNext, MaskUrls, Alike;
    var us, vs := MaskNext(cls, BEARER, ws), MaskNext(cls, BASIC, MaskNext(cls, BEARER, ws));
    var u := MaskNextAlike(cls, BEARER, m1, m2, ws, i, w);
    var v := MaskNextAlike(cls, BASIC, m1, m2, us, i, u);
    MaskUrlsAlike(cls, m1, m2, vs, i, v);
    KeywordByWords(cls, BEARER, ws, tail);
    KeywordByWords(cls, BEARER, ws[i := w], tail);
    MaskNextSeparated(cls, BEARER, ws, tail);
    MaskNextSeparated(cls, BEARER, ws[i := w], tail);
    KeywordByWords(cls, BASIC, us, tail);
    KeywordByWords(cls, BASIC, us[i := u], tail);
    MaskNextSeparated(cls, BASIC, us, tail);
    MaskNextSeparated(cls, BASIC, us[i := u], tail);
    UrlByWords(cls, vs, tail);
    UrlByWords(cls, vs[i := v], tail);
  }

  /** A word with a service URL in it, from after `x`. */
  function UrlWord(gap: string, x: string, head: string, body: string, rest: string): Word {
    Word(gap, x + Credential(head, body, rest))
  }

  /**
   What a service URL says before its '@', but for the user name, does not show in what the whole redaction leaves:
   wherever in whichever word the URL begins, at a place where a word does not go on, anything else with the same
   user name gives the same text.
   */
  lemma UrlBodyHidden(cls: Classes, ws: seq<Word>, i: nat, x: string, head: string, b1: string, b2: string,
      rest: string, tail: string)
    requires Usual(cls) && IsHead(cls, head) && AtBoundary(cls, false, x)
    requires IsBody(cls, b1) && IsBody(cls, b2) && UserOf(cls, b1) == UserOf(cls, b2)
    requires Separated(cls, ws, tail) && i < |ws| && ws[i] == UrlWord(ws[i].gap, x, head, b1, rest)
    ensures RedactText(cls, Join(ws, tail))
         == RedactText(cls, Join(ws[i := UrlWord(ws[i].gap, x, head, b2, rest)], tail))
  {
    var w := UrlWord(ws[i].gap, x, head, b2, rest);
    var m1, m2 := x + Credential(head, b1, ""), x + Credential(head, b2, "");
    StillSeparated(cls, ws, i, x, head, b1, b2, rest, tail);
    UptoCredential(x, head, b1, rest);
    UptoCredential(x, head, b2, rest);
    hide *;
    assert Word(ws[i].gap, ws[i].run) == ws[i];
    AlikeAfter(m1, m2, ws[i].gap, rest);
    SameHidden(cls, x, head, b1, b2);
    RedactedAlike(cls, m1, m2, ws, i, w, tail);
  }

  lemma AlikeAfter(m1: string, m2: string, gap: string, rest: string)
    ensures Alike(m1, m2, Word(gap, m1 + rest), Word(gap, m2 + rest))
  {
  }

  lemma SameHidden(cls: Classes, x: string, head: string, b1: string, b2: string)
    requires Usual(cls) && IsHead(cls, head) && AtBoundary(cls, false, x)
    requires IsBody(cls, b1) && IsBody(cls, b2) && UserOf(cls, b1) == UserOf(cls, b2)
    ensures var m1, m2 := x + Credential(head, b1, ""), x + Credential(head, b2, "");
      forall t :: MaskUrl(cls, false, m1 + t) == MaskUrl(cls, false, m2 + t)
  {
    var m1, m2 := x + Credential(head, b1, ""), x + Credential(head, b2, "");
    hide *;
    forall t ensures MaskUrl(cls, false, m1 + t) == MaskUrl(cls, false, m2 + t) {
      BodyHiddenAfter(cls, false, x, head, b1, b2, t);
      UptoCredential(x, head, b1, t);
      UptoCredential(x, head, b2, t);
    }
  }

  lemma UptoCredential(x: string, head: string, body: string, rest: string)
    ensures var m := x + Credential(head, body, "");
      m != "" && m[|m| - 1] == '@' && m + rest == x + Credential(head, body, rest)
  {
    hide Credential;
    CredentialEnds(head, body, rest);
    Associate(x, Credential(head, body, ""), rest);
  }

  lemma StillSeparated(cls: Classes, ws: seq<Word>, i: nat, x: string, head: string, b1: string, b2: string,
      rest: string, tail: string)
    requires Usual(cls) && IsBody(cls, b2)
    requires Separated(cls, ws, tail) && i < |ws| && ws[i] == UrlWord(ws[i].gap, x, head, b1, rest)
    ensures Separated(cls, ws[i := UrlWord(ws[i].gap, x, head, b2, rest)], tail)
  {
    NoSpaceSwapped(cls, x + head, b1, b2, AT + rest);
    assert ws[i].run == (x + head) + (b1 + (AT + rest));
    assert UrlWord(ws[i].gap, x, head, b2, rest).run == (x + head) + (b2 + (AT + rest));
  }

  lemma NoSpaceSwapped(cls: Classes, a: string, b1: string, b2: string, b: string)
    requires IsBody(cls, b2)
    ensures NoSpace(cls, a + (b1 + b)) ==> NoSpace(cls, a + (b2 + b))
  {
    var s := a + (b1 + b);
    assert forall i :: 0 <= i < |a| ==> s[i] == a[i];
    assert forall i :: 0 <= i < |b| ==> s[|a| + |b1| + i] == b[i];
  }

  lemma UserBeforePassword(cls: Classes, user: string, password: string)
    requires Usual(cls) && IsBody(cls, password) && forall i :: 0 <= i < |user| ==> UserChar(cls)(user[i])
    ensures IsBody(cls, user + (":" + password)) && UserOf(cls, user + (":" + password)) == user
  {
    var body := user + (":" + password);
    LeadIs(UserChar(cls), body, |user|);
    assert body[..|user|] == user;
  }

  /** In particular its password does not: any other gives the same text. */
  lemma UrlPasswordHidden(cls: Classes, ws: seq<Word>, i: nat, x: string, head: string, user: string, p1: string,
      p2: string, rest: string, tail: string)
    requires Usual(cls) && IsHead(cls, head) && AtBoundary(cls, false, x)
    requires IsBody(cls, p1) && IsBody(cls, p2) && forall j :: 0 <= j < |user| ==> UserChar(cls)(user[j])
    requires Separated(cls, ws, tail) && i < |ws|
    requires ws[i] == UrlWord(ws[i].gap, x, head, user + (":" + p1), rest)
    ensures RedactText(cls, Join(ws, tail))
         == RedactText(cls, Join(ws[i := UrlWord(ws[i].gap, x, head, user + (":" + p2), rest)], tail))
  {
    hide *;
    UserBeforePassword(cls, user, p1);
    UserBeforePassword(cls, user, p2);
    UrlBodyHidden(cls, ws, i, x, head, user + (":" + p1), user + (":" + p2), rest, tail);
  }
}
