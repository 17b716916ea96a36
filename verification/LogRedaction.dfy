/**
 The rewriting of log text: three regular-expression substitutions applied in order, which mask the word
 after "bearer" or "basic" and the password in a service URL. What Unicode calls a space, a word character or
 the same letter is a parameter.
 */
module LogRedaction {
  /** `fold` sends each character that matches an ASCII letter, ignoring case, to that lower-case letter. */
  datatype Classes = Classes(space: char -> bool, word: char -> bool, fold: char -> char)

  const MASK := "[REDACTED]"

  /** What the proofs need to know of the character classes. */
  ghost predicate Usual(cls: Classes) {
    && (forall c :: cls.word(c) ==> !cls.space(c))
    && (forall c :: 'a' <= cls.fold(c) <= 'z' ==> cls.word(c))
    && (forall c :: 'a' <= c <= 'z' ==> cls.fold(c) == c)
    && (forall c :: 'A' <= c <= 'Z' ==> cls.fold(c) as int == c as int + 32)
    && cls.space(' ')
    && (forall c :: c in "[]:/@" ==> !cls.word(c) && !cls.space(c))
  }

  datatype Rule = Keyword(name: string, shown: string) | UrlPassword

  const BEARER := Keyword("bearer", "Bearer")
  const BASIC := Keyword("basic", "Basic")

  /* ---- matching ---- */

  /** Whether `c` matches the pattern character `k`, ignoring case. */
  predicate Same(cls: Classes, c: char, k: char) {
    c == k || ('a' <= k <= 'z' && cls.fold(c) == k)
  }

  predicate Starts(cls: Classes, s: string, w: string) {
    |s| >= |w| && forall i :: 0 <= i < |w| ==> Same(cls, s[i], w[i])
  }

  /** The length of the longest prefix whose characters all satisfy `p`. */
  function Lead(p: char -> bool, s: string): (n: nat)
    ensures n <= |s| && (forall i :: 0 <= i < n ==> p(s[i])) && (n < |s| ==> !p(s[n]))
  {
    if s != "" && p(s[0]) then 1 + Lead(p, s[1..]) else 0
  }

  function Solid(cls: Classes): char -> bool {
    c => !cls.space(c)
  }

  function PasswordChar(cls: Classes): char -> bool {
    c => c != '@' && !cls.space(c)
  }

  /** The length of a service scheme and its "://" at the head of `s`, or 0. */
  function SchemeLength(cls: Classes, s: string): (n: nat)
    ensures n <= |s| && (n == 0 || n >= 7)
  {
    if Starts(cls, s, "redis://") then 8
    else if Starts(cls, s, "postgres://") then 11
    else if Starts(cls, s, "postgresql://") then 13
    else if Starts(cls, s, "amqp://") then 7
    else 0
  }

  /** A keyword, spaces and the word after them: their length at the head of `s`, or 0. */
  function KeywordLength(cls: Classes, name: string, s: string): (n: nat)
    ensures n <= |s|
  {
    if !Starts(cls, s, name) then 0
    else
      var gap := Lead(cls.space, s[|name|..]);
      var token := Lead(Solid(cls), s[|name| + gap..]);
      if gap == 0 || token == 0 then 0 else |name| + gap + token
  }

  /** A scheme, a non-empty body and its '@': their length at the head of `s`, or 0. */
  function UrlLength(cls: Classes, s: string): (n: nat)
    ensures n <= |s|
  {
    var n := SchemeLength(cls, s);
    var body := Lead(PasswordChar(cls), s[n..]);
    if n == 0 || body == 0 || n + body == |s| || s[n + body] != '@' then 0 else n + body + 1
  }

  /**
   The length of the match at the head of `s`, or 0; `prev` says whether the character before `s` is a word
   character, which decides whether a word starts here.
   */
  function MatchAt(cls: Classes, rule: Rule, prev: bool, s: string): (n: nat)
    ensures n <= |s|
  {
    if prev then 0
    else match rule
      case Keyword(name, _) => KeywordLength(cls, name, s)
      case UrlPassword => UrlLength(cls, s)
  }

  function UserChar(cls: Classes): char -> bool {
    c => c != ':' && c != '/' && c != '@' && !cls.space(c)
  }

  /** The part before the first ':' when it can be read as a user name, else nothing. */
  function UserOf(cls: Classes, body: string): string {
    var i := Lead(UserChar(cls), body);
    if 0 < i < |body| - 1 && body[i] == ':' then body[..i] else ""
  }

  function Replacement(cls: Classes, rule: Rule, m: string): string {
    match rule
    case Keyword(_, shown) => shown + " " + MASK
    case UrlPassword =>
      var n := SchemeLength(cls, m);
      m[..n] + UserOf(cls, if n < |m| then m[n..|m| - 1] else "") + ":" + MASK + "@"
  }

  /** Every match, from left to right, replaced. */
  function Substitute(cls: Classes, rule: Rule, prev: bool, s: string): string
    decreases |s|
  {
    if s == "" then ""
    else
      var n := MatchAt(cls, rule, prev, s);
      if n == 0 then [s[0]] + Substitute(cls, rule, cls.word(s[0]), s[1..])
      else Replacement(cls, rule, s[..n]) + Substitute(cls, rule, cls.word(s[n - 1]), s[n..])
  }

  function RedactText(cls: Classes, text: string): string {
    Substitute(cls, UrlPassword, false, Substitute(cls, BASIC, false, Substitute(cls, BEARER, false, text)))
  }

  /* ---- text as a list of words, each with the space before it ---- */

  datatype Word = Word(gap: string, run: string)

  ghost predicate Blank(cls: Classes, s: string) {
    forall i :: 0 <= i < |s| ==> cls.space(s[i])
  }

  ghost predicate NoSpace(cls: Classes, s: string) {
    forall i :: 0 <= i < |s| ==> !cls.space(s[i])
  }

  ghost predicate Separated(cls: Classes, ws: seq<Word>, tail: string) {
    && (forall i :: 0 <= i < |ws| ==> Blank(cls, ws[i].gap) && ws[i].run != "" && NoSpace(cls, ws[i].run))
    && (forall i :: 0 < i < |ws| ==> ws[i].gap != "")
    && Blank(cls, tail)
  }

  ghost function Join(ws: seq<Word>, tail: string): string {
    if ws == [] then tail else ws[0].gap + (ws[0].run + Join(ws[1..], tail))
  }

  lemma PrependWord(cls: Classes, w: Word, ws: seq<Word>, tail: string)
    requires Separated(cls, ws, tail) && (ws != [] ==> ws[0].gap != "")
    requires Blank(cls, w.gap) && w.run != "" && NoSpace(cls, w.run)
    ensures Separated(cls, [w] + ws, tail) && Join([w] + ws, tail) == w.gap + (w.run + Join(ws, tail))
  {
    var all := [w] + ws;
    assert all[1..] == ws;
    forall i | 0 < i < |all|
      ensures Blank(cls, all[i].gap) && all[i].run != "" && NoSpace(cls, all[i].run) && all[i].gap != ""
    {
      assert all[i] == ws[i - 1];
    }
  }

  lemma FirstWord(cls: Classes, s: string) returns (w: Word, rest: string)
    requires Lead(cls.space, s) < |s|
    ensures s == w.gap + (w.run + rest) && Blank(cls, w.gap) && w.run != "" && NoSpace(cls, w.run)
    ensures w.gap == s[..Lead(cls.space, s)] && (rest == "" || cls.space(rest[0]))
  {
    var g := Lead(cls.space, s);
    var t := s[g..];
    assert t[0] == s[g];
    var n := Lead(Solid(cls), t);
    hide Lead;
    w, rest := Word(s[..g], t[..n]), t[n..];
  }

  /** Every text is a list of words. */
  lemma {:induction false} Words(cls: Classes, s: string) returns (ws: seq<Word>, tail: string)
    ensures Separated(cls, ws, tail) && Join(ws, tail) == s
    ensures s != "" && cls.space(s[0]) && ws != [] ==> ws[0].gap != ""
    decreases |s|
  {
    var g := Lead(cls.space, s);
    if g == |s| {
      ws, tail := [], s;
    } else {
      assert s != "" && cls.space(s[0]) ==> g > 0;
      hide Lead, Separated, Join, Blank, NoSpace;
      var w, rest := FirstWord(cls, s);
      ws, tail := Words(cls, rest);
      FirstGap(cls, ws, tail, rest);
      PrependWord(cls, w, ws, tail);
      ws := [w] + ws;
    }
  }

  lemma FirstGap(cls: Classes, ws: seq<Word>, tail: string, s: string)
    requires Separated(cls, ws, tail) && Join(ws, tail) == s && (s == "" || cls.space(s[0]))
    ensures ws != [] ==> ws[0].gap != ""
  {
    if ws != [] {
      assert s == ws[0].gap + (ws[0].run + Join(ws[1..], tail));
    }
  }

  /* ---- spaces are never touched, and end every match ---- */

  /** A rule that starts with a letter. */
  predicate Lettered(rule: Rule) {
    rule == BEARER || rule == BASIC || rule == UrlPassword
  }

  lemma SameAsLetter(cls: Classes, c: char, k: char)
    requires Usual(cls) && Same(cls, c, k) && ('a' <= k <= 'z' || k in ":/")
    ensures !cls.space(c) && ('a' <= k <= 'z' ==> cls.word(c))
  {
    assert cls.fold(k) == k || k in ":/";
  }

  lemma NotAtSpace(cls: Classes, s: string, w: string)
    requires Usual(cls) && s != "" && cls.space(s[0]) && w != "" && 'a' <= w[0] <= 'z'
    ensures !Starts(cls, s, w)
  {
    if Starts(cls, s, w) {
      SameAsLetter(cls, s[0], w[0]);
      assert false;
    }
  }

  lemma NoMatchAtSpace(cls: Classes, rule: Rule, prev: bool, s: string)
    requires Usual(cls) && Lettered(rule) && s != "" && cls.space(s[0])
    ensures MatchAt(cls, rule, prev, s) == 0
  {
    hide Usual, Starts, Lead;
    match rule
    case Keyword(name, _) =>
      NotAtSpace(cls, s, name);
    case UrlPassword =>
      NotAtSpace(cls, s, "redis://");
      NotAtSpace(cls, s, "postgres://");
      NotAtSpace(cls, s, "postgresql://");
      NotAtSpace(cls, s, "amqp://");
  }

  lemma Unmatched(cls: Classes, rule: Rule, prev: bool, c: char, s: string)
    requires MatchAt(cls, rule, prev, [c] + s) == 0
    ensures Substitute(cls, rule, prev, [c] + s) == [c] + Substitute(cls, rule, cls.word(c), s)
  {
    hide MatchAt;
    assert ([c] + s)[1..] == s;
  }

  lemma Matched(cls: Classes, rule: Rule, prev: bool, m: string, s: string)
    requires m != "" && MatchAt(cls, rule, prev, m + s) == |m|
    ensures Substitute(cls, rule, prev, m + s)
         == Replacement(cls, rule, m) + Substitute(cls, rule, cls.word(m[|m| - 1]), s)
  {
    hide MatchAt, Replacement;
    assert (m + s)[..|m|] == m && (m + s)[|m|..] == s;
  }

  lemma {:induction false} SpacesKept(cls: Classes, rule: Rule, prev: bool, gap: string, t: string)
    requires Usual(cls) && Lettered(rule) && Blank(cls, gap) && (gap == "" ==> !prev)
    ensures Substitute(cls, rule, prev, gap + t) == gap + Substitute(cls, rule, false, t)
  {
    hide MatchAt, Substitute;
    if gap == "" {
      assert gap + t == t;
    } else {
      NoMatchAtSpace(cls, rule, prev, gap + t);
      assert gap + t == [gap[0]] + (gap[1..] + t);
      Unmatched(cls, rule, prev, gap[0], gap[1..] + t);
      SpacesKept(cls, rule, false, gap[1..], t);
      assert [gap[0]] + gap[1..] == gap;
    }
  }

  /** Before a space, or at the end, it does not matter what came before. */
  lemma FlagForgotten(cls: Classes, rule: Rule, prev: bool, t: string)
    requires Usual(cls) && Lettered(rule) && (t == "" || cls.space(t[0]))
    ensures Substitute(cls, rule, prev, t) == Substitute(cls, rule, false, t)
  {
    if t != "" {
      NoMatchAtSpace(cls, rule, prev, t);
      NoMatchAtSpace(cls, rule, false, t);
    }
  }

  lemma {:induction false} LeadIs(p: char -> bool, s: string, n: nat)
    requires n <= |s| && (forall i :: 0 <= i < n ==> p(s[i])) && (n < |s| ==> !p(s[n]))
    ensures Lead(p, s) == n
  {
    if n > 0 {
      LeadIs(p, s[1..], n - 1);
    }
  }

  /* ---- the keyword rules, word by word ---- */

  predicate Spells(cls: Classes, s: string, w: string) {
    |s| == |w| && Starts(cls, s, w)
  }

  /** Whether the run ends with the keyword, at a word boundary. */
  predicate Ends(cls: Classes, prev: bool, r: string, w: string)
    ensures Ends(cls, prev, r, w) ==> |r| >= |w|
    decreases r
  {
    (!prev && Spells(cls, r, w)) || (r != "" && Ends(cls, cls.word(r[0]), r[1..], w))
  }

  function Relabelled(rule: Rule, r: string): string
    requires rule.Keyword? && |r| >= |rule.name|
  {
    r[..|r| - |rule.name|] + rule.shown
  }

  /** The keyword rule on words: a word ending with the keyword is relabelled and the next one masked. */
  function MaskNext(cls: Classes, rule: Rule, ws: seq<Word>): (out: seq<Word>)
    requires rule.Keyword?
    ensures |out| == |ws|
  {
    if |ws| < 2 then ws
    else if Ends(cls, false, ws[0].run, rule.name) then
      [Word(ws[0].gap, Relabelled(rule, ws[0].run)), Word(" ", MASK)] + MaskNext(cls, rule, ws[2..])
    else [ws[0]] + MaskNext(cls, rule, ws[1..])
  }

  predicate IsKeyword(rule: Rule) {
    rule == BEARER || rule == BASIC
  }

  /** A pattern without spaces fits the text at a run exactly when it fits the run by itself. */
  lemma StartsWithin(cls: Classes, w: string, r: string, t: string)
    requires Usual(cls) && NoSpace(cls, r) && (t == "" || cls.space(t[0]))
    requires forall i :: 0 <= i < |w| ==> 'a' <= w[i] <= 'z' || w[i] in ":/"
    ensures Starts(cls, r + t, w) <==> Starts(cls, r, w)
  {
    if Starts(cls, r + t, w) && |r| < |w| {
      SameAsLetter(cls, (r + t)[|r|], w[|r|]);
      assert false;
    }
    assert forall i :: 0 <= i < |r| ==> (r + t)[i] == r[i];
  }

  lemma MatchInRun(cls: Classes, rule: Rule, prev: bool, r: string, gap: string, token: string, u: string)
    requires Usual(cls) && IsKeyword(rule) && NoSpace(cls, r) && r != ""
    requires Blank(cls, gap) && gap != "" && NoSpace(cls, token) && token != "" && (u == "" || cls.space(u[0]))
    ensures MatchAt(cls, rule, prev, r + (gap + (token + u)))
         == if !prev && Spells(cls, r, rule.name) then |r| + |gap| + |token| else 0
  {
    hide Usual, Lead;
    var t := gap + (token + u);
    var w := rule.name;
    StartsWithin(cls, w, r, t);
    if Starts(cls, r, w) {
      hide Starts;
      if |r| > |w| {
        assert (r + t)[|w|..][0] == r[|w|];
        LeadIs(cls.space, (r + t)[|w|..], 0);
      } else {
        Dropped(r, gap, token + u);
        LeadIs(cls.space, t, |gap|);
        LeadIs(Solid(cls), token + u, |token|);
      }
    }
  }

  lemma Dropped(a: string, b: string, c: string)
    ensures (a + (b + c))[|a|..] == b + c && (a + (b + c))[|a| + |b|..] == c
  {
  }

  lemma Regroup(a: string, b: string, c: string, d: string)
    ensures a + b + c + d == a + (b + (c + d))
  {
  }

  lemma KeywordHere(cls: Classes, rule: Rule, r: string, gap: string, token: string, u: string)
    requires Usual(cls) && IsKeyword(rule) && NoSpace(cls, r) && Spells(cls, r, rule.name)
    requires Blank(cls, gap) && gap != "" && NoSpace(cls, token) && token != "" && (u == "" || cls.space(u[0]))
    ensures Substitute(cls, rule, false, r + (gap + (token + u)))
         == Relabelled(rule, r) + (" " + (MASK + Substitute(cls, rule, false, u)))
  {
    hide MatchAt, Substitute, Usual, Starts, Blank, NoSpace;
    MatchInRun(cls, rule, false, r, gap, token, u);
    var m := r + gap + token;
    assert r + (gap + (token + u)) == m + u;
    Matched(cls, rule, false, m, u);
    FlagForgotten(cls, rule, cls.word(m[|m| - 1]), u);
    assert Relabelled(rule, r) == rule.shown;
    Regroup(rule.shown, " ", MASK, Substitute(cls, rule, false, u));
  }

  /** How a run followed by another one is rewritten, whatever part of it has already been passed. */
  lemma {:induction false} KeywordInRun(cls: Classes, rule: Rule, prev: bool, r: string, gap: string, token: string,
                                        u: string)
    requires Usual(cls) && IsKeyword(rule) && NoSpace(cls, r)
    requires Blank(cls, gap) && gap != "" && NoSpace(cls, token) && token != "" && (u == "" || cls.space(u[0]))
    ensures Substitute(cls, rule, prev, r + (gap + (token + u)))
         == if Ends(cls, prev, r, rule.name) then Relabelled(rule, r) + (" " + (MASK + Substitute(cls, rule, false, u)))
            else r + Substitute(cls, rule, false, gap + (token + u))
    decreases r
  {
    hide MatchAt, Substitute, Usual, Starts;
    var t := gap + (token + u);
    if r == "" {
      assert r + t == t;
      FlagForgotten(cls, rule, prev, t);
    } else if !prev && Spells(cls, r, rule.name) {
      KeywordHere(cls, rule, r, gap, token, u);
    } else {
      assert NoSpace(cls, r[1..]);
      assert Ends(cls, prev, r, rule.name) == Ends(cls, cls.word(r[0]), r[1..], rule.name);
      hide *;
      MatchInRun(cls, rule, prev, r, gap, token, u);
      KeywordInRun(cls, rule, cls.word(r[0]), r[1..], gap, token, u);
      KeywordLater(cls, rule, prev, r, t, Substitute(cls, rule, false, t),
        " " + (MASK + Substitute(cls, rule, false, u)));
    }
  }

  /** Passing one character of a run on to the result. */
  lemma KeywordLater(cls: Classes, rule: Rule, prev: bool, r: string, t: string, plain: string, masked: string)
    requires rule.Keyword? && r != "" && MatchAt(cls, rule, prev, r + t) == 0
    requires Ends(cls, prev, r, rule.name) == Ends(cls, cls.word(r[0]), r[1..], rule.name)
    requires Substitute(cls, rule, cls.word(r[0]), r[1..] + t)
          == if Ends(cls, cls.word(r[0]), r[1..], rule.name) then Relabelled(rule, r[1..]) + masked else r[1..] + plain
    ensures Substitute(cls, rule, prev, r + t)
         == if Ends(cls, prev, r, rule.name) then Relabelled(rule, r) + masked else r + plain
  {
    hide MatchAt, Substitute, Ends;
    assert r + t == [r[0]] + (r[1..] + t);
    Unmatched(cls, rule, prev, r[0], r[1..] + t);
    hide Relabelled;
    PrependRelabelled(rule, r);
    if Ends(cls, prev, r, rule.name) {
      Regroup([r[0]], Relabelled(rule, r[1..]), masked, "");
    } else {
      Regroup([r[0]], r[1..], plain, "");
    }
  }

  lemma PrependRelabelled(rule: Rule, r: string)
    requires rule.Keyword? && r != ""
    ensures |r| > |rule.name| ==> Relabelled(rule, r) == [r[0]] + Relabelled(rule, r[1..])
    ensures [r[0]] + r[1..] == r
  {
  }

  lemma {:induction false} KeywordAtEnd(cls: Classes, rule: Rule, prev: bool, r: string, tail: string)
    requires Usual(cls) && IsKeyword(rule) && NoSpace(cls, r) && Blank(cls, tail)
    ensures Substitute(cls, rule, prev, r + tail) == r + tail
    decreases r
  {
    assert Substitute(cls, rule, false, "") == "";
    hide MatchAt, Substitute, Usual, Starts;
    if r == "" {
      assert r + tail == tail == tail + "";
      FlagForgotten(cls, rule, prev, tail);
      SpacesKept(cls, rule, false, tail, "");
    } else {
      NoNextWord(cls, rule, prev, r, tail);
      assert r + tail == [r[0]] + (r[1..] + tail);
      Unmatched(cls, rule, prev, r[0], r[1..] + tail);
      KeywordAtEnd(cls, rule, cls.word(r[0]), r[1..], tail);
    }
  }

  lemma NoNextWord(cls: Classes, rule: Rule, prev: bool, r: string, tail: string)
    requires Usual(cls) && IsKeyword(rule) && NoSpace(cls, r) && r != "" && Blank(cls, tail)
    ensures MatchAt(cls, rule, prev, r + tail) == 0
  {
    hide Usual, Lead;
    var w := rule.name;
    StartsWithin(cls, w, r, tail);
    if Starts(cls, r, w) {
      hide Starts;
      if |r| > |w| {
        assert (r + tail)[|w|..][0] == r[|w|];
        LeadIs(cls.space, (r + tail)[|w|..], 0);
      } else {
        assert (r + tail)[|w|..] == tail;
        LeadIs(cls.space, tail, |tail|);
        assert (r + tail)[|w| + |tail|..] == "";
        LeadIs(Solid(cls), "", 0);
      }
    }
  }

  lemma SeparatedRest(cls: Classes, ws: seq<Word>, tail: string)
    requires Separated(cls, ws, tail) && ws != []
    ensures Separated(cls, ws[1..], tail) && (|ws| > 1 ==> ws[1].gap != "")
    ensures var t := Join(ws[1..], tail); t == "" || cls.space(t[0])
  {
    if |ws| > 1 {
      var t := Join(ws[1..], tail);
      assert t[0] == ws[1].gap[0];
    }
  }

  /** On words, the keyword rule is the substitution. */
  lemma {:induction false} KeywordByWords(cls: Classes, rule: Rule, ws: seq<Word>, tail: string)
    requires Usual(cls) && IsKeyword(rule) && Separated(cls, ws, tail)
    ensures Substitute(cls, rule, false, Join(ws, tail)) == Join(MaskNext(cls, rule, ws), tail)
    decreases |ws|
  {
    if ws == [] {
      KeywordAtEnd(cls, rule, false, "", tail);
      assert "" + tail == tail;
    } else {
      var w, t := ws[0], Join(ws[1..], tail);
      SeparatedRest(cls, ws, tail);
      SpacesKept(cls, rule, false, w.gap, w.run + t);
      if |ws| == 1 {
        KeywordAtEnd(cls, rule, false, w.run, tail);
      } else {
        var u := Join(ws[2..], tail);
        assert ws[1..][1..] == ws[2..];
        SeparatedRest(cls, ws[1..], tail);
        KeywordInRun(cls, rule, false, w.run, ws[1].gap, ws[1].run, u);
        if Ends(cls, false, w.run, rule.name) {
          KeywordByWords(cls, rule, ws[2..], tail);
          JoinTwo(Word(w.gap, Relabelled(rule, w.run)), Word(" ", MASK), MaskNext(cls, rule, ws[2..]), tail);
        } else {
          KeywordByWords(cls, rule, ws[1..], tail);
          JoinOne(w, MaskNext(cls, rule, ws[1..]), tail);
        }
      }
    }
  }

  lemma JoinOne(w: Word, ws: seq<Word>, tail: string)
    ensures Join([w] + ws, tail) == w.gap + (w.run + Join(ws, tail))
  {
    assert ([w] + ws)[1..] == ws;
  }

  lemma JoinTwo(v: Word, w: Word, ws: seq<Word>, tail: string)
    ensures Join([v, w] + ws, tail) == v.gap + (v.run + (w.gap + (w.run + Join(ws, tail))))
  {
    assert [v, w] + ws == [v] + ([w] + ws);
    JoinOne(v, [w] + ws, tail);
    JoinOne(w, ws, tail);
  }

  /* ---- what each keyword rule leaves alone ---- */

  /** Every keyword that has a word after it is already relabelled and that word masked. */
  ghost predicate Masked(cls: Classes, rule: Rule, ws: seq<Word>)
    requires rule.Keyword?
  {
    forall i :: 0 <= i < |ws| - 1 && Ends(cls, false, ws[i].run, rule.name) ==>
      Relabelled(rule, ws[i].run) == ws[i].run && ws[i + 1] == Word(" ", MASK)
  }

  lemma {:induction false} EndsLast(cls: Classes, prev: bool, r: string, w: string)
    requires Ends(cls, prev, r, w) && w != ""
    ensures r != "" && Same(cls, r[|r| - 1], w[|w| - 1])
    decreases r
  {
    if prev || !Spells(cls, r, w) {
      EndsLast(cls, cls.word(r[0]), r[1..], w);
    }
  }

  lemma MaskIsNoKeyword(cls: Classes, rule: Rule, prev: bool)
    requires Usual(cls) && IsKeyword(rule)
    ensures !Ends(cls, prev, MASK, rule.name)
  {
    hide Ends;
    if Ends(cls, prev, MASK, rule.name) {
      EndsLast(cls, prev, MASK, rule.name);
      SameAsLetter(cls, ']', rule.name[|rule.name| - 1]);
      assert false;
    }
  }

  lemma LabelsDiffer(cls: Classes, rule: Rule, other: Rule, r: string)
    requires Usual(cls) && IsKeyword(rule) && IsKeyword(other) && rule != other && |r| >= |rule.name|
    ensures !Ends(cls, false, Relabelled(rule, r), other.name)
  {
    hide Ends;
    var s := Relabelled(rule, r);
    assert s[|s| - 1] == rule.name[|rule.name| - 1];
    if Ends(cls, false, s, other.name) {
      EndsLast(cls, false, s, other.name);
      assert false;
    }
  }

  lemma {:induction false} MaskNextMasks(cls: Classes, rule: Rule, ws: seq<Word>)
    requires Usual(cls) && IsKeyword(rule)
    ensures Masked(cls, rule, MaskNext(cls, rule, ws)) && |MaskNext(cls, rule, ws)| == |ws|
    decreases |ws|
  {
    hide Usual, Ends, Relabelled;
    MaskIsNoKeyword(cls, rule, false);
    if |ws| >= 2 {
      var w := ws[0];
      if Ends(cls, false, w.run, rule.name) {
        var rest := MaskNext(cls, rule, ws[2..]);
        MaskNextMasks(cls, rule, ws[2..]);
        RelabelTwice(rule, w.run);
        PrependMasked(cls, rule, Word(" ", MASK), rest);
        PrependMasked(cls, rule, Word(w.gap, Relabelled(rule, w.run)), [Word(" ", MASK)] + rest);
        assert MaskNext(cls, rule, ws)
            == [Word(w.gap, Relabelled(rule, w.run))] + ([Word(" ", MASK)] + rest);
      } else {
        MaskNextMasks(cls, rule, ws[1..]);
        PrependMasked(cls, rule, w, MaskNext(cls, rule, ws[1..]));
      }
    }
  }

  lemma RelabelTwice(rule: Rule, r: string)
    requires IsKeyword(rule) && |r| >= |rule.name|
    ensures |Relabelled(rule, r)| == |r| && Relabelled(rule, Relabelled(rule, r)) == Relabelled(rule, r)
  {
  }

  lemma PrependMasked(cls: Classes, rule: Rule, w: Word, ws: seq<Word>)
    requires rule.Keyword? && Masked(cls, rule, ws)
    requires ws != [] && Ends(cls, false, w.run, rule.name) ==>
      Relabelled(rule, w.run) == w.run && ws[0] == Word(" ", MASK)
    ensures Masked(cls, rule, [w] + ws)
  {
    hide Ends, Relabelled;
    var all := [w] + ws;
    forall i | 0 <= i < |all| - 1 && Ends(cls, false, all[i].run, rule.name)
      ensures Relabelled(rule, all[i].run) == all[i].run && all[i + 1] == Word(" ", MASK)
    {
      if i > 0 {
        assert all[i] == ws[i - 1] && all[i + 1] == ws[i];
      }
    }
  }

  lemma MaskedRest(cls: Classes, rule: Rule, ws: seq<Word>)
    requires rule.Keyword? && Masked(cls, rule, ws) && ws != []
    ensures Masked(cls, rule, ws[1..])
  {
    hide Ends, Relabelled;
    var rest := ws[1..];
    forall i | 0 <= i < |rest| - 1 && Ends(cls, false, rest[i].run, rule.name)
      ensures Relabelled(rule, rest[i].run) == rest[i].run && rest[i + 1] == Word(" ", MASK)
    {
      assert rest[i] == ws[i + 1] && rest[i + 1] == ws[i + 2];
    }
  }

  lemma {:induction false} MaskedIsFixed(cls: Classes, rule: Rule, ws: seq<Word>)
    requires rule.Keyword? && Masked(cls, rule, ws)
    ensures MaskNext(cls, rule, ws) == ws
    decreases |ws|
  {
    if |ws| >= 2 {
      MaskedRest(cls, rule, ws);
      hide Ends, Relabelled;
      if Ends(cls, false, ws[0].run, rule.name) {
        MaskedRest(cls, rule, ws[1..]);
        assert ws[1..][1..] == ws[2..];
        MaskedIsFixed(cls, rule, ws[2..]);
        assert ws == [ws[0], ws[1]] + ws[2..];
      } else {
        MaskedIsFixed(cls, rule, ws[1..]);
        assert ws == [ws[0]] + ws[1..];
      }
    }
  }

  /** One keyword's rule does not undo the other's. */
  lemma {:induction false} MaskNextKeeps(cls: Classes, rule: Rule, other: Rule, ws: seq<Word>)
    requires Usual(cls) && IsKeyword(rule) && IsKeyword(other) && rule != other && Masked(cls, other, ws)
    ensures Masked(cls, other, MaskNext(cls, rule, ws))
    decreases |ws|
  {
    if |ws| >= 2 {
      hide Usual, Ends, Relabelled;
      MaskedRest(cls, other, ws);
      if Ends(cls, false, ws[0].run, rule.name) {
        MaskedRest(cls, other, ws[1..]);
        assert ws[1..][1..] == ws[2..];
        MaskNextKeeps(cls, rule, other, ws[2..]);
        hide Masked;
        MaskNextKeepsTwo(cls, rule, other, ws[0], MaskNext(cls, rule, ws[2..]));
      } else {
        MaskNextKeeps(cls, rule, other, ws[1..]);
        MaskKept(cls, rule, ws[1..]);
        PrependMasked(cls, other, ws[0], MaskNext(cls, rule, ws[1..]));
      }
    }
  }

  lemma MaskNextKeepsTwo(cls: Classes, rule: Rule, other: Rule, w: Word, rest: seq<Word>)
    requires Usual(cls) && IsKeyword(rule) && IsKeyword(other) && rule != other && Masked(cls, other, rest)
    requires |w.run| >= |rule.name|
    ensures Masked(cls, other, [Word(w.gap, Relabelled(rule, w.run)), Word(" ", MASK)] + rest)
  {
    hide Usual, Ends, Relabelled, Masked;
    LabelsDiffer(cls, rule, other, w.run);
    MaskIsNoKeyword(cls, other, false);
    var v, m := Word(w.gap, Relabelled(rule, w.run)), Word(" ", MASK);
    PrependMasked(cls, other, m, rest);
    PrependMasked(cls, other, v, [m] + rest);
    assert [v, m] + rest == [v] + ([m] + rest);
  }

  lemma MaskKept(cls: Classes, rule: Rule, ws: seq<Word>)
    requires Usual(cls) && IsKeyword(rule) && ws != []
    ensures MaskNext(cls, rule, ws) != []
    ensures ws[0] == Word(" ", MASK) ==> MaskNext(cls, rule, ws)[0] == ws[0]
  {
    MaskIsNoKeyword(cls, rule, false);
  }

  /* ---- the URL rule works inside one run ---- */

  predicate Scheme(w: string) {
    w == "redis://" || w == "postgres://" || w == "postgresql://" || w == "amqp://"
  }

  lemma SchemeShape(w: string)
    requires Scheme(w)
    ensures 7 <= |w| <= 13 && w[|w| - 3] == ':' && (forall i :: 0 <= i < |w| - 3 ==> 'a' <= w[i] <= 'z')
    ensures forall i :: 0 <= i < |w| ==> 'a' <= w[i] <= 'z' || w[i] in ":/"
  {
  }

  /** After "://" has begun, no longer scheme fits. */
  lemma ColonStops(cls: Classes, s: string, k: nat, w: string)
    requires Usual(cls) && k < |w| - 3 && Scheme(w) && k < |s| && s[k] == ':'
    ensures !Starts(cls, s, w)
  {
    SchemeShape(w);
    if Starts(cls, s, w) {
      SameAsLetter(cls, ':', w[k]);
      assert false;
    }
  }

  lemma SchemeUnique(cls: Classes, s: string, v: string, w: string)
    requires Usual(cls) && Scheme(v) && Scheme(w) && Starts(cls, s, v) && Starts(cls, s, w)
    ensures v == w
  {
    SchemeShape(v);
    SchemeShape(w);
    assert |v| == |w| ==> v == w;
    assert Same(cls, s[|v| - 3], ':') && Same(cls, s[|w| - 3], ':');
    hide Usual, Starts;
    if |v| < |w| {
      ColonStops(cls, s, |v| - 3, w);
    } else if |w| < |v| {
      ColonStops(cls, s, |w| - 3, v);
    }
  }

  lemma SchemeFound(cls: Classes, s: string, w: string)
    requires Usual(cls) && Scheme(w) && Starts(cls, s, w)
    ensures SchemeLength(cls, s) == |w|
  {
    hide Usual, Starts;
    if Starts(cls, s, "redis://") { SchemeUnique(cls, s, w, "redis://"); }
    if Starts(cls, s, "postgres://") { SchemeUnique(cls, s, w, "postgres://"); }
    if Starts(cls, s, "postgresql://") { SchemeUnique(cls, s, w, "postgresql://"); }
    if Starts(cls, s, "amqp://") { SchemeUnique(cls, s, w, "amqp://"); }
  }

  ghost function SchemeAt(cls: Classes, s: string): (w: string)
    requires SchemeLength(cls, s) > 0
    ensures Scheme(w) && Starts(cls, s, w) && |w| == SchemeLength(cls, s)
  {
    if Starts(cls, s, "redis://") then "redis://"
    else if Starts(cls, s, "postgres://") then "postgres://"
    else if Starts(cls, s, "postgresql://") then "postgresql://"
    else "amqp://"
  }

  /** Two texts that start alike with every scheme have the same scheme length. */
  lemma SameScheme(cls: Classes, s: string, t: string)
    requires forall w :: Scheme(w) ==> (Starts(cls, s, w) <==> Starts(cls, t, w))
    ensures SchemeLength(cls, s) == SchemeLength(cls, t)
  {
    hide Starts;
    assert Scheme("redis://") && Scheme("postgres://") && Scheme("postgresql://") && Scheme("amqp://");
  }

  lemma SchemeWithin(cls: Classes, r: string, t: string)
    requires Usual(cls) && NoSpace(cls, r) && (t == "" || cls.space(t[0]))
    ensures SchemeLength(cls, r + t) == SchemeLength(cls, r)
  {
    forall w | Scheme(w) ensures Starts(cls, r + t, w) <==> Starts(cls, r, w) {
      SchemeShape(w);
      StartsWithin(cls, w, r, t);
    }
    SameScheme(cls, r + t, r);
  }

  lemma LeadWithin(p: char -> bool, r: string, t: string)
    requires t == "" || !p(t[0])
    ensures Lead(p, r + t) == Lead(p, r)
  {
    LeadIs(p, r + t, Lead(p, r));
  }

  lemma UrlMatchWithin(cls: Classes, prev: bool, r: string, t: string)
    requires Usual(cls) && NoSpace(cls, r) && r != "" && (t == "" || cls.space(t[0]))
    ensures MatchAt(cls, UrlPassword, prev, r + t) == MatchAt(cls, UrlPassword, prev, r)
  {
    hide UrlLength, Usual, NoSpace;
    UrlLengthWithin(cls, r, t);
  }

  lemma UrlLengthWithin(cls: Classes, r: string, t: string)
    requires Usual(cls) && NoSpace(cls, r) && r != "" && (t == "" || cls.space(t[0]))
    ensures UrlLength(cls, r + t) == UrlLength(cls, r)
  {
    assert t == "" || t[0] != '@';
    hide Usual, SchemeLength, Lead, NoSpace;
    SchemeWithin(cls, r, t);
    var n := SchemeLength(cls, r);
    DropBefore(r, t, n);
    LeadWithin(PasswordChar(cls), r[n..], t);
    var m := n + Lead(PasswordChar(cls), r[n..]);
    assert if m < |r| then (r + t)[m] == r[m] else t == "" || (r + t)[m] == t[0];
  }

  lemma DropBefore(r: string, t: string, n: nat)
    requires n <= |r|
    ensures (r + t)[n..] == r[n..] + t
  {
  }

  lemma UnmatchedBoth(cls: Classes, prev: bool, r: string, t: string)
    requires r != "" && MatchAt(cls, UrlPassword, prev, r) == MatchAt(cls, UrlPassword, prev, r + t) == 0
    requires Substitute(cls, UrlPassword, cls.word(r[0]), r[1..] + t)
          == Substitute(cls, UrlPassword, cls.word(r[0]), r[1..]) + Substitute(cls, UrlPassword, false, t)
    ensures Substitute(cls, UrlPassword, prev, r + t)
         == Substitute(cls, UrlPassword, prev, r) + Substitute(cls, UrlPassword, false, t)
  {
    hide *;
    var c, s := r[0], r[1..];
    assert r == [c] + s;
    assert r + t == [c] + (s + t);
    Unmatched(cls, UrlPassword, prev, c, s);
    Unmatched(cls, UrlPassword, prev, c, s + t);
  }

  lemma MatchedBoth(cls: Classes, prev: bool, r: string, t: string, n: nat)
    requires 0 < n <= |r|
    requires MatchAt(cls, UrlPassword, prev, r) == MatchAt(cls, UrlPassword, prev, r + t) == n
    requires Substitute(cls, UrlPassword, cls.word(r[n - 1]), r[n..] + t)
          == Substitute(cls, UrlPassword, cls.word(r[n - 1]), r[n..]) + Substitute(cls, UrlPassword, false, t)
    ensures Substitute(cls, UrlPassword, prev, r + t)
         == Substitute(cls, UrlPassword, prev, r) + Substitute(cls, UrlPassword, false, t)
  {
    hide *;
    var m, s := r[..n], r[n..];
    assert r == m + s && m[n - 1] == r[n - 1];
    assert r + t == m + (s + t);
    Matched(cls, UrlPassword, prev, m, s);
    Matched(cls, UrlPassword, prev, m, s + t);
  }

  lemma NoSpaceRest(cls: Classes, r: string, n: nat)
    requires NoSpace(cls, r) && n <= |r|
    ensures NoSpace(cls, r[n..])
  {
  }

  lemma {:induction false} UrlByRuns(cls: Classes, prev: bool, r: string, t: string)
    requires Usual(cls) && NoSpace(cls, r) && (t == "" || cls.space(t[0]))
    ensures Substitute(cls, UrlPassword, prev, r + t)
         == Substitute(cls, UrlPassword, prev, r) + Substitute(cls, UrlPassword, false, t)
    decreases |r|
  {
    if r == "" {
      hide MatchAt;
      assert r + t == t && Substitute(cls, UrlPassword, prev, r) == "";
      FlagForgotten(cls, UrlPassword, prev, t);
    } else {
      var n := MatchAt(cls, UrlPassword, prev, r);
      hide *;
      NoSpaceRest(cls, r, 1);
      NoSpaceRest(cls, r, n);
      UrlMatchWithin(cls, prev, r, t);
      if n == 0 {
        UrlByRuns(cls, cls.word(r[0]), r[1..], t);
        UnmatchedBoth(cls, prev, r, t);
      } else {
        UrlByRuns(cls, cls.word(r[n - 1]), r[n..], t);
        MatchedBoth(cls, prev, r, t, n);
      }
    }
  }

  function MaskUrls(cls: Classes, ws: seq<Word>): (out: seq<Word>)
    ensures |out| == |ws|
    ensures forall i :: 0 <= i < |ws| ==> out[i] == Word(ws[i].gap, Substitute(cls, UrlPassword, false, ws[i].run))
  {
    seq(|ws|, i requires 0 <= i < |ws| => Word(ws[i].gap, Substitute(cls, UrlPassword, false, ws[i].run)))
  }

  /** On words, the URL rule is the substitution. */
  lemma {:induction false} UrlByWords(cls: Classes, ws: seq<Word>, tail: string)
    requires Usual(cls) && Separated(cls, ws, tail)
    ensures Substitute(cls, UrlPassword, false, Join(ws, tail)) == Join(MaskUrls(cls, ws), tail)
    decreases |ws|
  {
    if ws == [] {
      assert Substitute(cls, UrlPassword, false, "") == "";
      SpacesKept(cls, UrlPassword, false, tail, "");
      assert tail + "" == tail;
    } else {
      SeparatedRest(cls, ws, tail);
      var w, t := ws[0], Join(ws[1..], tail);
      assert Blank(cls, w.gap) && NoSpace(cls, w.run);
      assert Join(ws, tail) == w.gap + (w.run + t);
      assert ws == [w] + ws[1..];
      hide *;
      UrlByWords(cls, ws[1..], tail);
      SpacesKept(cls, UrlPassword, false, w.gap, w.run + t);
      UrlByRuns(cls, false, w.run, t);
      MaskUrlsJoin(cls, w, ws[1..], tail);
    }
  }

  lemma MaskUrlsJoin(cls: Classes, w: Word, ws: seq<Word>, tail: string)
    ensures Join(MaskUrls(cls, [w] + ws), tail)
         == w.gap + (Substitute(cls, UrlPassword, false, w.run) + Join(MaskUrls(cls, ws), tail))
  {
    hide Substitute;
    var v := Word(w.gap, Substitute(cls, UrlPassword, false, w.run));
    assert MaskUrls(cls, [w] + ws) == [v] + MaskUrls(cls, ws);
    JoinOne(v, MaskUrls(cls, ws), tail);
  }
}
