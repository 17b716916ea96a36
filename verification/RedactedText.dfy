/** The three rewrites together: what is left of a text, and that redacting it again changes nothing. */
module RedactedText {
  import opened LogRedaction
  import opened UrlRedaction

  lemma {:induction false} MaskNextSeparated(cls: Classes, rule: Rule, ws: seq<Word>, tail: string)
    requires Usual(cls) && IsKeyword(rule) && Separated(cls, ws, tail)
    ensures Separated(cls, MaskNext(cls, rule, ws), tail)
    ensures ws != [] ==> MaskNext(cls, rule, ws) != [] && MaskNext(cls, rule, ws)[0].gap == ws[0].gap
    decreases |ws|
  {
    if |ws| >= 2 {
      SeparatedRest(cls, ws, tail);
      var w := ws[0];
      assert Blank(cls, w.gap) && w.run != "" && NoSpace(cls, w.run);
      if Ends(cls, false, w.run, rule.name) {
        SeparatedRest(cls, ws[1..], tail);
        assert ws[1..][1..] == ws[2..];
        MaskIsWord(cls, rule, w.run);
        hide Usual, Ends, Relabelled, Separated;
        MaskNextSeparated(cls, rule, ws[2..], tail);
        var v, m, rest := Word(w.gap, Relabelled(rule, w.run)), Word(" ", MASK), MaskNext(cls, rule, ws[2..]);
        PrependWord(cls, m, rest, tail);
        PrependWord(cls, v, [m] + rest, tail);
        assert [v] + ([m] + rest) == [v, m] + rest;
      } else {
        hide Usual, Ends, Relabelled, Separated;
        MaskNextSeparated(cls, rule, ws[1..], tail);
        PrependWord(cls, w, MaskNext(cls, rule, ws[1..]), tail);
      }
    }
  }

  lemma MaskIsWord(cls: Classes, rule: Rule, r: string)
    requires Usual(cls) && IsKeyword(rule) && NoSpace(cls, r) && |r| >= |rule.name|
    ensures NoSpace(cls, MASK) && Blank(cls, " ")
    ensures NoSpace(cls, Relabelled(rule, r)) && Relabelled(rule, r) != ""
  {
    forall c | 'A' <= c <= 'Z' || 'a' <= c <= 'z' || c in "[]" ensures !cls.space(c) {
      assert 'a' <= cls.fold(c) <= 'z' || c in "[]";
    }
    assert NoSpace(cls, rule.shown);
  }

  lemma MaskUrlsSeparated(cls: Classes, ws: seq<Word>, tail: string)
    requires Usual(cls) && Separated(cls, ws, tail)
    ensures Separated(cls, MaskUrls(cls, ws), tail)
  {
    forall i | 0 <= i < |ws|
      ensures var w := MaskUrls(cls, ws)[i]; Blank(cls, w.gap) && w.run != "" && NoSpace(cls, w.run)
    {
      hide Usual, Substitute;
      SpacelessKept(cls, false, ws[i].run);
    }
    hide Usual, Substitute;
  }

  lemma MaskUrlsTwice(cls: Classes, ws: seq<Word>, tail: string)
    requires Usual(cls) && Separated(cls, ws, tail)
    ensures MaskUrls(cls, MaskUrls(cls, ws)) == MaskUrls(cls, ws)
  {
    forall i | 0 <= i < |ws| ensures MaskUrls(cls, MaskUrls(cls, ws))[i] == MaskUrls(cls, ws)[i] {
      hide Usual, Substitute;
      MaskUrlAgain(cls, false, ws[i].run);
    }
    hide Usual, Substitute;
  }

  lemma LabelKept(cls: Classes, rule: Rule, r: string)
    requires Usual(cls) && IsKeyword(rule) && |r| >= |rule.name| && Relabelled(rule, r) == r
    ensures var out := MaskUrl(cls, false, r); |out| >= |rule.name| && Relabelled(rule, out) == out
  {
    assert '@' !in rule.shown;
    hide Usual, Substitute;
    var p := SuffixKept(cls, false, r[..|r| - |rule.name|], rule.shown);
    var out := MaskUrl(cls, false, r);
    assert out == p + rule.shown;
  }

  lemma MaskUnchanged(cls: Classes)
    ensures MaskUrl(cls, false, MASK) == MASK
  {
    NoAtNoChange(cls, false, MASK);
  }

  lemma KeywordPattern(rule: Rule)
    requires IsKeyword(rule)
    ensures Pattern(rule.name, 0)
  {
  }

  lemma MaskUrlsKeepAt(cls: Classes, rule: Rule, ws: seq<Word>, i: nat)
    requires Usual(cls) && IsKeyword(rule) && Masked(cls, rule, ws)
    requires i < |ws| - 1 && Ends(cls, false, MaskUrl(cls, false, ws[i].run), rule.name)
    ensures var r := MaskUrl(cls, false, ws[i].run); Relabelled(rule, r) == r
    ensures ws[i + 1].gap == " " && MaskUrl(cls, false, ws[i + 1].run) == MASK
  {
    hide Usual, Substitute, Ends, Relabelled, Pattern;
    MaskUnchanged(cls);
    KeywordPattern(rule);
    EndsKept(cls, false, ws[i].run, rule.name);
    LabelKept(cls, rule, ws[i].run);
  }

  /** The URL rule leaves what the keyword rules did. */
  lemma MaskUrlsKeepMasked(cls: Classes, rule: Rule, ws: seq<Word>)
    requires Usual(cls) && IsKeyword(rule) && Masked(cls, rule, ws)
    ensures Masked(cls, rule, MaskUrls(cls, ws))
  {
    hide Usual, Substitute, Ends, Relabelled;
    var out := MaskUrls(cls, ws);
    forall i | 0 <= i < |out| - 1 && Ends(cls, false, out[i].run, rule.name)
      ensures Relabelled(rule, out[i].run) == out[i].run && out[i + 1] == Word(" ", MASK)
    {
      MaskUrlsKeepAt(cls, rule, ws, i);
    }
  }

  /**
   What is left: every keyword followed by a word is relabelled with the word masked, and every URL in every
   word has its password masked.
   */
  lemma NothingLeftToMask(cls: Classes, text: string) returns (ws: seq<Word>, tail: string)
    requires Usual(cls)
    ensures Separated(cls, ws, tail) && Join(ws, tail) == RedactText(cls, text)
    ensures Masked(cls, BEARER, ws) && Masked(cls, BASIC, ws) && MaskUrls(cls, ws) == ws
  {
    hide Usual, Substitute, Join, Separated, Masked, MaskNext, MaskUrls;
    var ws0;
    ws0, tail := Words(cls, text);
    KeywordByWords(cls, BEARER, ws0, tail);
    MaskNextSeparated(cls, BEARER, ws0, tail);
    MaskNextMasks(cls, BEARER, ws0);
    var ws1 := MaskNext(cls, BEARER, ws0);
    KeywordByWords(cls, BASIC, ws1, tail);
    MaskNextSeparated(cls, BASIC, ws1, tail);
    MaskNextMasks(cls, BASIC, ws1);
    MaskNextKeeps(cls, BASIC, BEARER, ws1);
    var ws2 := MaskNext(cls, BASIC, ws1);
    UrlByWords(cls, ws2, tail);
    MaskUrlsSeparated(cls, ws2, tail);
    MaskUrlsKeepMasked(cls, BEARER, ws2);
    MaskUrlsKeepMasked(cls, BASIC, ws2);
    MaskUrlsTwice(cls, ws2, tail);
    ws := MaskUrls(cls, ws2);
  }

  /** Redacting a redacted text changes nothing. */
  lemma RedactTextTwice(cls: Classes, text: string)
    requires Usual(cls)
    ensures RedactText(cls, RedactText(cls, text)) == RedactText(cls, text)
  {
    hide Usual, Substitute, Join, Separated, Masked, MaskNext, MaskUrls;
    var ws, tail := NothingLeftToMask(cls, text);
    KeywordByWords(cls, BEARER, ws, tail);
    MaskedIsFixed(cls, BEARER, ws);
    KeywordByWords(cls, BASIC, ws, tail);
    MaskedIsFixed(cls, BASIC, ws);
    UrlByWords(cls, ws, tail);
  }

  /* ---- which words are masked, and that they do not show ---- */

  /** The word before ends with the keyword, and is not itself masked as the word after a keyword. */
  predicate Taken(cls: Classes, rule: Rule, ws: seq<Word>, i: nat)
    requires rule.Keyword? && i <= |ws|
  {
    i > 0 && Ends(cls, false, ws[i - 1].run, rule.name) && !Taken(cls, rule, ws, i - 1)
  }

  lemma {:induction false} TakenLater(cls: Classes, rule: Rule, ws: seq<Word>, k: nat, i: nat)
    requires rule.Keyword? && k + i <= |ws| && !Taken(cls, rule, ws, k)
    ensures Taken(cls, rule, ws[k..], i) == Taken(cls, rule, ws, k + i)
    decreases i
  {
    hide Ends;
    if i > 0 {
      TakenLater(cls, rule, ws, k, i - 1);
      assert ws[k..][i - 1] == ws[k + i - 1];
    }
  }

  /** What the keyword rule does to each word: mask it, relabel it, or leave it. */
  lemma {:induction false} MaskNextAt(cls: Classes, rule: Rule, ws: seq<Word>, i: nat)
    requires Usual(cls) && IsKeyword(rule) && i < |ws|
    ensures |MaskNext(cls, rule, ws)| == |ws|
    ensures MaskNext(cls, rule, ws)[i] ==
      if Taken(cls, rule, ws, i) then Word(" ", MASK)
      else if i + 1 < |ws| && Ends(cls, false, ws[i].run, rule.name) then Word(ws[i].gap, Relabelled(rule, ws[i].run))
      else ws[i]
    decreases |ws|
  {
    hide Usual, Ends, Relabelled;
    MaskNextMasks(cls, rule, ws);
    if |ws| >= 2 {
      var k := if Ends(cls, false, ws[0].run, rule.name) then 2 else 1;
      assert !Taken(cls, rule, ws, 0) && Taken(cls, rule, ws, 1) == Ends(cls, false, ws[0].run, rule.name);
      if i >= k {
        MaskNextAt(cls, rule, ws[k..], i - k);
        TakenLater(cls, rule, ws, k, i - k);
        assert ws[k..][i - k] == ws[i];
      }
    }
  }

  lemma {:induction false} TakenAnyway(cls: Classes, rule: Rule, ws: seq<Word>, i: nat, other: Word, j: nat)
    requires rule.Keyword? && i < |ws| && j <= |ws| && Taken(cls, rule, ws, i)
    ensures Taken(cls, rule, ws[i := other], j) == Taken(cls, rule, ws, j)
    decreases j
  {
    hide Ends;
    if j > 0 {
      TakenAnyway(cls, rule, ws, i, other, j - 1);
    }
  }

  /** A masked word does not show: with any other word in its place the text is redacted to the same text. */
  lemma TokenHidden(cls: Classes, rule: Rule, ws: seq<Word>, i: nat, other: Word, tail: string)
    requires Usual(cls) && IsKeyword(rule) && i < |ws| && Taken(cls, rule, ws, i)
    requires Separated(cls, ws, tail) && Separated(cls, ws[i := other], tail)
    ensures var s, t := Join(ws, tail), Join(ws[i := other], tail);
      Substitute(cls, rule, false, s) == Substitute(cls, rule, false, t)
      && (rule == BEARER ==> RedactText(cls, s) == RedactText(cls, t))
  {
    hide Usual, Substitute, Join, Separated, MaskNext, Ends, Relabelled;
    var ws' := ws[i := other];
    MaskNextAt(cls, rule, ws, i);
    MaskNextAt(cls, rule, ws', i);
    forall j | 0 <= j < |ws| ensures MaskNext(cls, rule, ws)[j] == MaskNext(cls, rule, ws')[j] {
      MaskNextAt(cls, rule, ws, j);
      MaskNextAt(cls, rule, ws', j);
      TakenAnyway(cls, rule, ws, i, other, j);
    }
    assert MaskNext(cls, rule, ws) == MaskNext(cls, rule, ws');
    KeywordByWords(cls, rule, ws, tail);
    KeywordByWords(cls, rule, ws', tail);
  }
}
