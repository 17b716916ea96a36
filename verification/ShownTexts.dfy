/** What redaction makes of the texts it is for, letter by letter: an Authorization value and a service URL. */
module ShownTexts {
  import opened LogRedaction
  import opened UrlRedaction
  import opened RedactedText

  /** The text spells the word in any case. */
  predicate SpeltLike(cls: Classes, s: string, w: string) {
    |s| == |w| && forall i :: 0 <= i < |s| ==> cls.fold(s[i]) == w[i]
  }

  lemma TwoWords(cls: Classes, r: string, gap: string, token: string)
    requires Blank(cls, gap) && gap != "" && r != "" && NoSpace(cls, r) && token != "" && NoSpace(cls, token)
    ensures var ws := [Word("", r), Word(gap, token)]; Separated(cls, ws, "") && Join(ws, "") == r + gap + token
  {
    var ws := [Word("", r), Word(gap, token)];
    assert ws[1..] == [Word(gap, token)] && ws[1..][1..] == [];
    assert Join(ws[1..], "") == gap + (token + "");
    assert Join(ws, "") == "" + (r + (gap + (token + "")));
  }

  lemma SpeltIsSpelled(cls: Classes, rule: Rule, r: string)
    requires Usual(cls) && IsKeyword(rule) && SpeltLike(cls, r, rule.name)
    ensures Spells(cls, r, rule.name) && NoSpace(cls, r) && r != ""
  {
    forall i | 0 <= i < |r| ensures Same(cls, r[i], rule.name[i]) && !cls.space(r[i]) {
      SameAsLetter(cls, r[i], rule.name[i]);
    }
  }

  lemma OtherKeyword(cls: Classes, rule: Rule, other: Rule, r: string)
    requires Usual(cls) && IsKeyword(rule) && IsKeyword(other) && rule != other && SpeltLike(cls, r, rule.name)
    ensures !Ends(cls, false, r, other.name)
  {
    var a, b := rule.name[|rule.name| - 1], other.name[|other.name| - 1];
    assert {a, b} == {'r', 'c'};
    assert cls.fold(r[|r| - 1]) == a && r[|r| - 1] != b;
    if Ends(cls, false, r, other.name) {
      EndsLast(cls, false, r, other.name);
      assert false;
    }
  }

  /** The keyword rule on a keyword and a word. */
  lemma Masks(cls: Classes, rule: Rule, r: string, gap: string, token: string)
    requires Usual(cls) && IsKeyword(rule) && SpeltLike(cls, r, rule.name)
    ensures MaskNext(cls, rule, [Word("", r), Word(gap, token)]) == [Word("", rule.shown), Word(" ", MASK)]
  {
    SpeltIsSpelled(cls, rule, r);
    var ws := [Word("", r), Word(gap, token)];
    assert Ends(cls, false, r, rule.name);
    assert ws[2..] == [] && r[..0] + rule.shown == rule.shown;
    hide Usual, Ends;
  }

  /** The other rule leaves both alone. */
  lemma Leaves(cls: Classes, rule: Rule, v: Word, w: Word)
    requires rule.Keyword? && !Ends(cls, false, v.run, rule.name)
    ensures MaskNext(cls, rule, [v, w]) == [v, w]
  {
    assert [v, w][1..] == [w];
  }

  lemma ShownIsSpelt(cls: Classes, rule: Rule)
    requires Usual(cls) && IsKeyword(rule)
    ensures SpeltLike(cls, rule.shown, rule.name) && NoSpace(cls, rule.shown) && NoSpace(cls, MASK) && Blank(cls, " ")
  {
    assert rule.name[..0] + rule.shown == rule.shown;
    forall i | 0 <= i < |rule.name| ensures !cls.space(rule.name[i]) { SameAsLetter(cls, rule.name[i], rule.name[i]); }
    MaskIsWord(cls, rule, rule.name);
  }

  lemma ShownHasNoAt(rule: Rule)
    requires IsKeyword(rule)
    ensures '@' !in rule.shown + " " + MASK
  {
    assert '@' !in rule.shown && '@' !in " " && '@' !in MASK;
    var a, b, c := rule.shown, " ", MASK;
    assert forall x :: x in a + b + c ==> x in a || x in b || x in c;
  }

  lemma KeywordShown(cls: Classes, rule: Rule, r: string, gap: string, token: string)
    requires Usual(cls) && IsKeyword(rule) && SpeltLike(cls, r, rule.name)
    requires Blank(cls, gap) && gap != "" && token != "" && NoSpace(cls, token)
    ensures RedactText(cls, r + gap + token) == rule.shown + " " + MASK
  {
    var other := if rule == BEARER then BASIC else BEARER;
    var ws, out := [Word("", r), Word(gap, token)], [Word("", rule.shown), Word(" ", MASK)];
    SpeltIsSpelled(cls, rule, r);
    ShownIsSpelt(cls, rule);
    ShownHasNoAt(rule);
    OtherKeyword(cls, rule, other, r);
    OtherKeyword(cls, rule, other, rule.shown);
    hide Usual, SpeltLike, Substitute, Ends, MaskNext, Join, Separated, Blank, NoSpace, Relabelled;
    TwoWords(cls, r, gap, token);
    TwoWords(cls, rule.shown, " ", MASK);
    Masks(cls, rule, r, gap, token);
    Leaves(cls, other, ws[0], ws[1]);
    Leaves(cls, other, out[0], out[1]);
    KeywordByWords(cls, rule, ws, "");
    KeywordByWords(cls, other, ws, "");
    KeywordByWords(cls, other, out, "");
    NoAtNoChange(cls, false, rule.shown + " " + MASK);
  }

  /** A bearer token, however the keyword is capitalised and spaced, leaves this text. */
  lemma BearerShown(cls: Classes, r: string, gap: string, token: string)
    requires Usual(cls) && SpeltLike(cls, r, "bearer")
    requires Blank(cls, gap) && gap != "" && token != "" && NoSpace(cls, token)
    ensures RedactText(cls, r + gap + token) == "Bearer" + " " + "[REDACTED]"
  {
    KeywordShown(cls, BEARER, r, gap, token);
  }

  /** And basic credentials this. */
  lemma BasicShown(cls: Classes, r: string, gap: string, token: string)
    requires Usual(cls) && SpeltLike(cls, r, "basic")
    requires Blank(cls, gap) && gap != "" && token != "" && NoSpace(cls, token)
    ensures RedactText(cls, r + gap + token) == "Basic" + " " + "[REDACTED]"
  {
    KeywordShown(cls, BASIC, r, gap, token);
  }

  lemma OneWord(cls: Classes, r: string)
    requires r != "" && NoSpace(cls, r)
    ensures Separated(cls, [Word("", r)], "") && Join([Word("", r)], "") == r
  {
    assert [Word("", r)][1..] == [];
    assert "" + (r + "") == r;
  }

  /** A service URL with a user and a password, and with nothing to hide after its '@', keeps all but the password. */
  lemma ServiceUrlShown(cls: Classes, scheme: string, user: string, password: string, rest: string)
    requires Usual(cls) && scheme in {"redis://", "postgres://", "postgresql://", "amqp://"}
    requires forall i :: 0 <= i < |user| ==> user[i] !in ":/@" && !cls.space(user[i])
    requires password != "" && '@' !in password && NoSpace(cls, password) && '@' !in rest && NoSpace(cls, rest)
    ensures RedactText(cls, scheme + (user + (":" + password) + ("@" + rest)))
         == scheme + (user + ":[REDACTED]@") + rest
  {
    var s := Credential(scheme, user + (":" + password), rest);
    SchemeIsHead(cls, scheme);
    BodyIsOneWord(cls, scheme, user, password, rest);
    assert HIDDEN == ":[REDACTED]@";
    hide Usual, IsHead, Substitute, MaskNext, Join, Separated, NoSpace;
    OneWord(cls, s);
    KeywordByWords(cls, BEARER, [Word("", s)], "");
    KeywordByWords(cls, BASIC, [Word("", s)], "");
    Alone(cls, BEARER, Word("", s));
    Alone(cls, BASIC, Word("", s));
    PasswordHidden(cls, scheme, user, password, rest);
    NoAtNoChange(cls, false, rest);
  }

  lemma Alone(cls: Classes, rule: Rule, w: Word)
    requires rule.Keyword?
    ensures MaskNext(cls, rule, [w]) == [w]
  {
  }

  lemma SchemeIsHead(cls: Classes, scheme: string)
    requires Usual(cls) && scheme in {"redis://", "postgres://", "postgresql://", "amqp://"}
    ensures IsHead(cls, scheme) && NoSpace(cls, scheme)
  {
    SchemeShape(scheme);
    assert Starts(cls, scheme, scheme);
    SchemeFound(cls, scheme, scheme);
    hide SchemeLength;
    forall i | 0 <= i < |scheme| ensures !cls.space(scheme[i]) { SameAsLetter(cls, scheme[i], scheme[i]); }
  }

  lemma BodyIsOneWord(cls: Classes, scheme: string, user: string, password: string, rest: string)
    requires Usual(cls) && NoSpace(cls, scheme) && scheme != ""
    requires forall i :: 0 <= i < |user| ==> user[i] !in ":/@" && !cls.space(user[i])
    requires password != "" && '@' !in password && NoSpace(cls, password) && NoSpace(cls, rest)
    ensures IsBody(cls, password) && forall i :: 0 <= i < |user| ==> UserChar(cls)(user[i])
    ensures var s := Credential(scheme, user + (":" + password), rest);
      && s != "" && NoSpace(cls, s) && s == scheme + (user + (":" + password) + ("@" + rest))
  {
    assert NoSpace(cls, ":") && NoSpace(cls, "@");
    forall i | 0 <= i < |user| ensures UserChar(cls)(user[i]) {
      assert user[i] !in ":/@";
      assert ':' in ":/@" && '/' in ":/@" && '@' in ":/@";
    }
    NoSpaceBoth(cls, ":", password);
    NoSpaceBoth(cls, user, ":" + password);
    NoSpaceBoth(cls, "@", rest);
    NoSpaceBoth(cls, user + (":" + password), "@" + rest);
    NoSpaceBoth(cls, scheme, user + (":" + password) + ("@" + rest));
  }
}
