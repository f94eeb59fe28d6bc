/**
 The score header of the reply format the prompt asks the model for (the
 first five lines of the template in `build_prompt`), and the round trip:
 parsing a reply that starts with a rendered header, whatever follows it,
 gives back the five scores that were rendered.
 */
module ReplyTemplate {
  import opened Wrappers
  import opened Chars
  import opened Decimal
  import opened ScorePatterns
  import opened ReplyParser

  const AtsLabel := "Overall ATS Score"
  const KeywordLabel := "Keyword Match"
  const SkillLabel := "Skill Match"
  const ExpEduLabel := "Experience & Education Match"
  const FormattingLabel := "Formatting Quality"

  /** One header line: the label, a colon, a space, the number in decimal
      and what the template puts after it. */
  function ScoreLine(name: string, v: nat, suffix: string): string {
    name + ": " + NatToDecimal(v) + suffix
  }

  /** The five header lines, one per line: the last ends at its percent
      sign, where the rest of the reply follows. */
  function RenderScores(ats: nat, keyword: nat, skill: nat, expEdu: nat, formatting: nat): string {
    ScoreLine(AtsLabel, ats, "/100\n")
    + ScoreLine(KeywordLabel, keyword, "%\n")
    + ScoreLine(SkillLabel, skill, "%\n")
    + ScoreLine(ExpEduLabel, expEdu, "%\n")
    + ScoreLine(FormattingLabel, formatting, "%")
  }

  // ---------------------------------------------------------------------
  // The scanner on a rendered line
  // ---------------------------------------------------------------------

  lemma DigitRunExact(t: string, i: nat, cap: nat, n: nat)
    requires i + n <= |t| && n <= cap
    requires forall k :: i <= k < i + n ==> IsDigit(t[k])
    requires n < cap ==> i + n < |t| && !IsDigit(t[i + n])
    ensures DigitRun(t, i, cap) == n
    decreases n
  {
    if n > 0 {
      DigitRunExact(t, i + 1, cap - 1, n - 1);
    }
  }

  /** A literal found in a piece of t is found in t. */
  lemma LitInSlice(t: string, j: nat, u: string, i: nat, w: string)
    requires j + |u| <= |t| && t[j..j + |u|] == u && LitAt(u, i, w)
    ensures LitAt(t, j + i, w)
  {
    forall k | 0 <= k < |w| ensures FoldEq(t[j + i + k], w[k]) {
      assert t[j + i + k] == u[i + k];
    }
  }

  /** A label token written with its first alternative and followed by one
      space, then the rest of the label. */
  lemma TokenThenSpace(t: string, j: nat, alts: seq<string>, tail: seq<seq<string>>)
    requires |tail| > 0 && |alts| > 0 && LitAt(t, j, alts[0])
    requires j + |alts[0]| + 1 < |t| && IsSpace(t[j + |alts[0]|]) && !IsSpace(t[j + |alts[0]| + 1])
    ensures LabelEnd(t, j, [alts] + tail) == LabelEnd(t, j + |alts[0]| + 1, tail)
  {
    var toks := [alts] + tail;
    var m := j + |alts[0]|;
    assert toks[0] == alts && toks[1..] == tail;
    assert AltEnd(t, j, alts) == Some(m);
    assert Spaces(t, m, m + 1);
    SkipSpacesStopsAt(t, m, m + 1);
    LabelEndStep(t, j, m, toks);
  }

  /** The last label token written with its first alternative. */
  lemma LastToken(t: string, j: nat, alts: seq<string>)
    requires j <= |t| && |alts| > 0 && LitAt(t, j, alts[0])
    ensures LabelEnd(t, j, [alts]) == Some(j + |alts[0]|)
  {
    assert AltEnd(t, j, alts) == Some(j + |alts[0]|);
  }

  /** At e, t holds ": ", the digits d and then the character c. */
  predicate AfterLabel(t: string, e: nat, d: string, c: char) {
    e + 3 + |d| <= |t| && t[e] == ':' && t[e + 1] == ' '
    && t[e + 2..e + 2 + |d|] == d && t[e + 2 + |d|] == c
  }

  /** What follows a label on a rendered line: ": ", the digits d and then
      c, a suffix character. */
  lemma LineTail(t: string, p: ScorePattern, j: nat, e: nat, d: string, c: char)
    requires j <= |t| && LabelEnd(t, j, p.tokens) == Some(e)
    requires AfterLabel(t, e, d, c)
    requires 1 <= |d| <= 3 && AllDigits(d) && (|d| < 3 ==> !IsDigit(c))
    requires p.percent ==> c == '%'
    ensures MatchFrom(t, p, j) == Some(Group(e + 2, e + 2 + |d|))
  {
    var ds := e + 2;
    assert t[ds] == d[0];
    assert SepEnd(t, e) == ds by {
      assert SkipSpaces(t, e) == e;
      assert Spaces(t, e + 1, ds);
      SkipSpacesStopsAt(t, e + 1, ds);
    }
    forall k | ds <= k < ds + |d| ensures IsDigit(t[k]) {
      assert t[k] == d[k - ds];
    }
    DigitRunExact(t, ds, 3, |d|);
    if p.percent {
      assert SkipSpaces(t, ds + |d|) == ds + |d|;
      assert LitAt(t, ds + |d|, "%");
    }
  }

  /** Where the search stops: no match before o, and one at o. */
  lemma {:induction false} SearchFromFirst(s: string, p: ScorePattern, i: nat, o: nat, g: Group)
    requires i <= o <= |s|
    requires forall j :: i <= j < o ==> MatchAt(s[j..], p).None?
    requires MatchAt(s[o..], p) == Some(g)
    ensures SearchFrom(s, p, i) == Some(Found(o, g))
    decreases o - i
  {
    if i < o {
      SearchFromFirst(s, p, i + 1, o, g);
    }
  }

  /** What the search returns when its first match is at o. */
  lemma SearchAt(s: string, p: ScorePattern, o: nat, g: Group)
    requires o <= |s|
    requires forall j :: 0 <= j < o ==> MatchAt(s[j..], p).None?
    requires MatchAt(s[o..], p) == Some(g)
    ensures g.start < g.end <= |s[o..]| && Search(s, p) == Some(s[o..][g.start..g.end])
  {
    SearchFromFirst(s, p, 0, o, g);
  }

  /** A field's score, when its search finds the decimal writing of v: v
      itself when it is at most 100, otherwise 0. */
  lemma ScoreFromSearch(s: string, f: Field, v: nat)
    requires Search(s, PatternOf(f)) == Some(NatToDecimal(v))
    ensures FieldScore(s, f) == if v <= 100 then v else 0
  {
    SafeIntOfNumber(v);
  }

  /** The pieces of a rendered line followed by more text. */
  lemma LineParts(t: string, name: string, d: string, suffix: string, rest: string)
    requires |suffix| > 0 && t == name + ": " + d + suffix + rest
    ensures t[..|name| + 2] == name + ": "
    ensures AfterLabel(t, |name|, d, suffix[0])
  {
    assert t == (name + ": ") + (d + (suffix + rest));
  }

  /** A rendered line matches from j once its label is found to end where
      the name ends. */
  lemma LineMatchFrom(t: string, p: ScorePattern, j: nat, name: string, d: string, suffix: string, rest: string)
    requires 1 <= |d| <= 3 && AllDigits(d)
    requires |suffix| > 0 && !IsDigit(suffix[0]) && (p.percent ==> suffix[0] == '%')
    requires t == name + ": " + d + suffix + rest
    requires j <= |t| && LabelEnd(t, j, p.tokens) == Some(|name|)
    ensures MatchFrom(t, p, j) == Some(Group(|name| + 2, |name| + 2 + |d|))
  {
    LineParts(t, name, d, suffix, rest);
    LineTail(t, p, j, |name|, d, suffix[0]);
  }

  /** A label of two one-literal tokens, written as u: the first literal,
      one space and the second literal. */
  lemma TwoTokenLabel(t: string, j: nat, u: string, w1: string, w2: string)
    requires j + |u| <= |t| && t[j..j + |u|] == u
    requires |u| == |w1| + 1 + |w2| && |w2| > 0 && PatternChar(w2[0])
    requires LitAt(u, 0, w1) && u[|w1|] == ' ' && LitAt(u, |w1| + 1, w2)
    ensures LabelEnd(t, j, [[w1], [w2]]) == Some(j + |u|)
  {
    LitInSlice(t, j, u, 0, w1);
    LitInSlice(t, j, u, |w1| + 1, w2);
    assert t[j + |w1|] == u[|w1|];
    assert FoldEq(t[j + |w1| + 1 + 0], w2[0]);
    PatternCharIsPlain(t[j + |w1| + 1], w2[0]);
    TokenThenSpace(t, j, [w1], [[w2]]);
    LastToken(t, j + |w1| + 1, [w2]);
    assert [[w1], [w2]] == [[w1]] + [[w2]];
  }

  /** The label of a line that starts t. */
  lemma LabelOfLine(t: string, name: string, d: string, suffix: string, rest: string, n: nat)
    requires |suffix| > 0 && t == name + ": " + d + suffix + rest && n <= |name|
    ensures t[..n] == name[..n]
  {
    LineParts(t, name, d, suffix, rest);
    assert t[..n] == t[..|name| + 2][..n];
  }

  /** Where the words of the keyword label lie. */
  lemma KeywordLabelText()
    ensures |KeywordLabel| == 13 && LitAt(KeywordLabel, 0, "keyword")
    ensures KeywordLabel[7] == ' ' && LitAt(KeywordLabel, 8, "match")
  {
  }

  /** The keyword line matches with the number as group 1. */
  lemma KeywordLineMatch(t: string, d: string, rest: string)
    requires 1 <= |d| <= 3 && AllDigits(d) && t == KeywordLabel + ": " + d + "%\n" + rest
    ensures MatchAt(t, PatternOf(KeywordMatch)) == Some(Group(15, 15 + |d|))
  {
    LabelOfLine(t, KeywordLabel, d, "%\n", rest, 13);
    KeywordLabelText();
    TwoTokenLabel(t, 0, KeywordLabel, "keyword", "match");
    LineMatchFrom(t, PatternOf(KeywordMatch), 0, KeywordLabel, d, "%\n", rest);
  }

  /** Where the words of the skill label lie. */
  lemma SkillLabelText()
    ensures |SkillLabel| == 11 && LitAt(SkillLabel, 0, "skill")
    ensures SkillLabel[5] == ' ' && LitAt(SkillLabel, 6, "match")
  {
  }

  /** The skill line matches with the number as group 1. */
  lemma SkillLineMatch(t: string, d: string, rest: string)
    requires 1 <= |d| <= 3 && AllDigits(d) && t == SkillLabel + ": " + d + "%\n" + rest
    ensures MatchAt(t, PatternOf(SkillMatch)) == Some(Group(13, 13 + |d|))
  {
    LabelOfLine(t, SkillLabel, d, "%\n", rest, 11);
    SkillLabelText();
    TwoTokenLabel(t, 0, SkillLabel, "skill", "match");
    LineMatchFrom(t, PatternOf(SkillMatch), 0, SkillLabel, d, "%\n", rest);
  }

  /** Where the words of the formatting label lie. */
  lemma FormattingLabelText()
    ensures |FormattingLabel| == 18 && LitAt(FormattingLabel, 0, "formatting")
    ensures FormattingLabel[10] == ' ' && LitAt(FormattingLabel, 11, "quality")
  {
  }

  /** The formatting line matches with the number as group 1. */
  lemma FormattingLineMatch(t: string, d: string, rest: string)
    requires 1 <= |d| <= 3 && AllDigits(d) && t == FormattingLabel + ": " + d + "%" + rest
    ensures MatchAt(t, PatternOf(FormattingQuality)) == Some(Group(20, 20 + |d|))
  {
    LabelOfLine(t, FormattingLabel, d, "%", rest, 18);
    FormattingLabelText();
    TwoTokenLabel(t, 0, FormattingLabel, "formatting", "quality");
    LineMatchFrom(t, PatternOf(FormattingQuality), 0, FormattingLabel, d, "%", rest);
  }

  /** Where the words of the experience and education label lie. */
  lemma ExpEduLabelText()
    ensures |ExpEduLabel| == 28
    ensures LitAt(ExpEduLabel, 0, "experience") && ExpEduLabel[10] == ' '
    ensures LitAt(ExpEduLabel, 11, "&") && ExpEduLabel[12] == ' '
    ensures LitAt(ExpEduLabel, 13, "education") && ExpEduLabel[22] == ' '
    ensures LitAt(ExpEduLabel, 23, "match")
  {
    ExperienceWordAt();
    EducationWordAt();
  }

  lemma ExperienceWordAt()
    ensures LitAt(ExpEduLabel, 0, "experience") && ExpEduLabel[10] == ' '
  {
  }

  lemma EducationWordAt()
    ensures LitAt(ExpEduLabel, 13, "education") && ExpEduLabel[22] == ' '
  {
  }

  /** The experience and education label at the start of t. */
  lemma ExpEduLabelEnd(t: string)
    requires |t| > 28 && t[..28] == ExpEduLabel
    ensures LabelEnd(t, 0, PatternOf(ExperienceEducationMatch).tokens) == Some(28)
  {
    var u := ExpEduLabel;
    var amp := ["&", "and", "/"];
    ExpEduLabelText();
    LitInSlice(t, 0, u, 0, "experience");
    LitInSlice(t, 0, u, 11, "&");
    LitInSlice(t, 0, u, 13, "education");
    LitInSlice(t, 0, u, 23, "match");
    assert t[10] == ' ' && t[11] == '&' && t[12] == ' ' && t[22] == ' ' by {
      assert t[10] == u[10] && t[12] == u[12] && t[22] == u[22];
      assert FoldEq(t[11 + 0], "&"[0]);
    }
    assert FoldEq(t[13 + 0], "education"[0]) && FoldEq(t[23 + 0], "match"[0]);
    PatternCharIsPlain(t[13], 'e');
    PatternCharIsPlain(t[23], 'm');
    LastToken(t, 23, ["match"]);
    TokenThenSpace(t, 13, ["education"], [["match"]]);
    TokenThenSpace(t, 11, amp, [["education"]] + [["match"]]);
    TokenThenSpace(t, 0, ["experience"], [amp] + ([["education"]] + [["match"]]));
    assert PatternOf(ExperienceEducationMatch).tokens == [["experience"]] + ([amp] + ([["education"]] + [["match"]]));
  }

  /** The experience and education line matches with the number as group 1. */
  lemma ExpEduLineMatch(t: string, d: string, rest: string)
    requires 1 <= |d| <= 3 && AllDigits(d) && t == ExpEduLabel + ": " + d + "%\n" + rest
    ensures MatchAt(t, PatternOf(ExperienceEducationMatch)) == Some(Group(30, 30 + |d|))
  {
    LabelOfLine(t, ExpEduLabel, d, "%\n", rest, 28);
    ExpEduLabelEnd(t);
    LineMatchFrom(t, PatternOf(ExperienceEducationMatch), 0, ExpEduLabel, d, "%\n", rest);
  }

  /** Where the words of the overall score label lie. */
  lemma AtsLabelText()
    ensures |AtsLabel| == 17 && LitAt(AtsLabel, 0, "overall") && AtsLabel[7] == ' ' && AtsLabel[8] == 'A'
    ensures |AtsLabel[8..]| == 9 && LitAt(AtsLabel[8..], 0, "ats")
    ensures AtsLabel[8..][3] == ' ' && LitAt(AtsLabel[8..], 4, "score")
  {
  }

  /** The overall score line matches, through its "Overall" prefix, with the
      number as group 1.  Any character may follow three digits; fewer
      digits must be followed by a non-digit. */
  lemma AtsLineMatch(t: string, d: string, suffix: string, rest: string)
    requires 1 <= |d| <= 3 && AllDigits(d) && |suffix| > 0 && (|d| < 3 ==> !IsDigit(suffix[0]))
    requires t == AtsLabel + ": " + d + suffix + rest
    ensures MatchAt(t, PatternOf(AtsScore)) == Some(Group(19, 19 + |d|))
  {
    LabelOfLine(t, AtsLabel, d, suffix, rest, 17);
    AtsHead(t);
    LineParts(t, AtsLabel, d, suffix, rest);
    LineTail(t, PatternOf(AtsScore), 8, 17, d, suffix[0]);
  }

  /** The overall score label at the start of t: the prefix is there, and
      the label proper follows it after one space. */
  lemma AtsHead(t: string)
    requires |t| >= 17 && t[..17] == AtsLabel
    ensures LitAt(t, 0, "overall") && SkipSpaces(t, 7) == 8
    ensures LabelEnd(t, 8, PatternOf(AtsScore).tokens) == Some(17)
  {
    AtsLabelText();
    LitInSlice(t, 0, AtsLabel, 0, "overall");
    assert t[7] == AtsLabel[7] && t[8] == AtsLabel[8];
    assert Spaces(t, 7, 8);
    SkipSpacesStopsAt(t, 7, 8);
    assert t[8..17] == AtsLabel[8..];
    TwoTokenLabel(t, 8, AtsLabel[8..], "ats", "score");
  }

  // ---------------------------------------------------------------------
  // No match before a line
  // ---------------------------------------------------------------------

  /** No character of w folds to the pattern letter c. */
  predicate Avoids(w: string, c: char) {
    forall k :: 0 <= k < |w| ==> !FoldEq(w[k], c)
  }

  lemma AvoidsLetter(w: string, c: char)
    requires 'a' <= c <= 'z' && c !in w && ((c as int - 32) as char) !in w
    requires c == 'i' ==> '\U{0130}' !in w && '\U{0131}' !in w
    requires c == 's' ==> '\U{017F}' !in w
    requires c == 'k' ==> '\U{212A}' !in w
    ensures Avoids(w, c)
  {
    forall k | 0 <= k < |w| ensures !FoldEq(w[k], c) {
      assert w[k] in w;
    }
  }

  lemma AvoidsConcat(u: string, w: string, c: char)
    requires Avoids(u, c) && Avoids(w, c)
    ensures Avoids(u + w, c)
  {
    forall k | 0 <= k < |u + w| ensures !FoldEq((u + w)[k], c) {
      if k >= |u| {
        assert (u + w)[k] == w[k - |u|];
      }
    }
  }

  /** A rendered line has no character folding to c when its label and
      suffix have none: the rest is a colon, a space and digits. */
  lemma LineAvoids(name: string, v: nat, suffix: string, c: char)
    requires 'a' <= c <= 'z' && Avoids(name, c) && Avoids(suffix, c)
    ensures Avoids(ScoreLine(name, v, suffix), c)
  {
    var d := NatToDecimal(v);
    assert Avoids(": ", c);
    assert Avoids(d, c);
    AvoidsConcat(name, ": ", c);
    AvoidsConcat(name + ": ", d, c);
    AvoidsConcat(name + ": " + d, suffix, c);
  }

  /** A pattern with no prefix and a one-literal first token matches only
      where that literal occurs. */
  lemma MatchAtNeedsFirst(t: string, p: ScorePattern)
    requires p.prefix.None? && |p.tokens| > 0 && |p.tokens[0]| == 1
    ensures MatchAt(t, p).Some? ==> LitAt(t, 0, p.tokens[0][0])
  {
    var alts := p.tokens[0];
    if MatchAt(t, p).Some? {
      assert LabelEnd(t, 0, p.tokens).Some?;
      assert AltEnd(t, 0, alts).Some?;
      assert alts[1..] == [];
      assert AltEnd(t, 0, alts[1..]) == None;
    }
  }

  /** Nothing matches before position o when the q-th letter of the pattern's
      first literal is avoided by s up to position o + q. */
  lemma NoMatchBefore(s: string, p: ScorePattern, o: nat, q: nat)
    requires p.prefix.None? && |p.tokens| > 0 && |p.tokens[0]| == 1 && q < |p.tokens[0][0]|
    requires o + q <= |s| && Avoids(s[..o + q], p.tokens[0][0][q])
    ensures forall j :: 0 <= j < o ==> MatchAt(s[j..], p).None?
  {
    var w := p.tokens[0][0];
    forall j | 0 <= j < o ensures MatchAt(s[j..], p).None? {
      assert s[j..][0 + q] == s[..o + q][j + q];
      assert !FoldEq(s[j..][0 + q], w[q]);
      MatchAtNeedsFirst(s[j..], p);
    }
  }

  /** The first word of each percentage pattern, and the letter of it that
      the lines before that field's line do not contain. */
  lemma KeywordFirstWord()
    ensures var p := PatternOf(KeywordMatch);
      p.prefix.None? && |p.tokens| > 0 && p.tokens[0] == ["keyword"] && p.tokens[0][0][0] == 'k'
  {
  }

  lemma SkillFirstWord()
    ensures var p := PatternOf(SkillMatch);
      p.prefix.None? && |p.tokens| > 0 && p.tokens[0] == ["skill"] && p.tokens[0][0][2] == 'i'
  {
  }

  lemma ExpEduFirstWord()
    ensures var p := PatternOf(ExperienceEducationMatch);
      p.prefix.None? && |p.tokens| > 0 && p.tokens[0] == ["experience"] && p.tokens[0][0][1] == 'x'
  {
  }

  lemma FormattingFirstWord()
    ensures var p := PatternOf(FormattingQuality);
      p.prefix.None? && |p.tokens| > 0 && p.tokens[0] == ["formatting"] && p.tokens[0][0][0] == 'f'
  {
  }

  /** The text before a line is what precedes it in s. */
  lemma Before(a: string, b: string, k: nat)
    requires k <= |b|
    ensures (a + b)[..|a| + k] == a + b[..k] && (a + b)[|a|..] == b
  {
  }

  /** No match of a pattern starts inside a text a that a line follows,
      when a and the line's first q characters hold no character that folds
      to letter q of the pattern's first word. */
  lemma NotBefore(a: string, line: string, p: ScorePattern, q: nat)
    requires p.prefix.None? && |p.tokens| > 0 && |p.tokens[0]| == 1 && q < |p.tokens[0][0]|
    requires q <= |line| && Avoids(a + line[..q], p.tokens[0][0][q])
    ensures forall j :: 0 <= j < |a| ==> MatchAt((a + line)[j..], p).None?
  {
    Before(a, line, q);
    NoMatchBefore(a + line, p, |a|, q);
  }

  /** A rendered line whose pattern matches with the number's span as its
      group has that number as the group. */
  lemma LineGroupAt(line: string, p: ScorePattern, name: string, d: string, suffix: string, tail: string)
    requires |suffix| > 0 && line == name + ": " + d + suffix + tail
    requires MatchAt(line, p) == Some(Group(|name| + 2, |name| + 2 + |d|))
    ensures GroupAt(line, p, |name| + 2, d)
  {
    LineParts(line, name, d, suffix, tail);
  }

  /** The search over a + line finds the group of a match at the start of
      the line when letter q of the pattern's first word occurs nowhere in
      a or in the line's first q characters. */
  lemma SearchOfLine(a: string, line: string, p: ScorePattern, q: nat, n: nat, d: string)
    requires GroupAt(line, p, n, d) && FirstLetterAvoided(a, line, p, q)
    ensures Search(a + line, p) == Some(d)
  {
    FirstFoundAt(a, line, p, q, Group(n, n + |d|));
    Before(a, line, 0);
    FoundGroup(a + line, p, |a|, Group(n, n + |d|), d);
  }

  /** The search's first match in a + line is the one at the line's start. */
  lemma FirstFoundAt(a: string, line: string, p: ScorePattern, q: nat, g: Group)
    requires MatchAt(line, p) == Some(g) && FirstLetterAvoided(a, line, p, q)
    ensures SearchFrom(a + line, p, 0) == Some(Found(|a|, g))
  {
    NotBefore(a, line, p, q);
    Before(a, line, 0);
    SearchFromFirst(a + line, p, 0, |a|, g);
  }

  /** What the search returns once its first match is known. */
  lemma FoundGroup(s: string, p: ScorePattern, o: nat, g: Group, d: string)
    requires o <= |s| && SearchFrom(s, p, 0) == Some(Found(o, g))
    requires g.start <= g.end <= |s[o..]| && s[o..][g.start..g.end] == d
    ensures Search(s, p) == Some(d)
  {
  }

  /** The range-checked group of a pattern in a + line when the pattern
      matches at the start of the line with the decimal writing of v as its
      group, and letter q of the pattern's first word occurs nowhere in a or
      in the line's first q characters: v when it is at most 100, else 0. */
  lemma ScoreOfLine(a: string, line: string, p: ScorePattern, d: string, v: nat, q: nat, n: nat)
    requires d == NatToDecimal(v)
    requires GroupAt(line, p, n, d) && FirstLetterAvoided(a, line, p, q)
    ensures SafeInt(Search(a + line, p)) == if v <= 100 then v else 0
  {
    SearchOfLine(a, line, p, q, n, d);
    SafeIntOfNumber(v);
  }

  /** The pattern matches at the start of the line with d, at n, as its
      group. */
  predicate GroupAt(line: string, p: ScorePattern, n: nat, d: string) {
    MatchAt(line, p) == Some(Group(n, n + |d|)) && n + |d| <= |line| && line[n..n + |d|] == d
  }

  /** Letter q of the pattern's first word, a pattern with no prefix and a
      one-literal first token, occurs nowhere in a or in the line's first q
      characters. */
  predicate FirstLetterAvoided(a: string, line: string, p: ScorePattern, q: nat) {
    p.prefix.None? && |p.tokens| > 0 && |p.tokens[0]| == 1 && q < |p.tokens[0][0]|
    && q <= |line| && Avoids(a + line[..q], p.tokens[0][0][q])
  }

  /** A reply that starts with the overall score line, its number below
      1000 and followed by anything but a digit: its number is the overall
      score when it is at most 100, and 0 otherwise. */
  lemma AtsField(v: nat, suffix: string, tail: string)
    requires v < 1000 && |suffix| > 0 && !IsDigit(suffix[0])
    ensures FieldScore(ScoreLine(AtsLabel, v, suffix) + tail, AtsScore) == if v <= 100 then v else 0
  {
    var s := ScoreLine(AtsLabel, v, suffix) + tail;
    var d := NatToDecimal(v);
    NatToDecimalLength(v);
    assert s[0..] == s;
    AtsLineMatch(s, d, suffix, tail);
    LineParts(s, AtsLabel, d, suffix, tail);
    SearchAt(s, PatternOf(AtsScore), 0, Group(|AtsLabel| + 2, |AtsLabel| + 2 + |d|));
    ScoreFromSearch(s, AtsScore, v);
  }

  /** The keyword line after a text a with no letter k, its number below
      1000: the keyword score is that number when it is at most 100, and 0
      otherwise. */
  lemma KeywordField(a: string, v: nat, tail: string)
    requires v < 1000 && Avoids(a, 'k')
    ensures FieldScore(a + (ScoreLine(KeywordLabel, v, "%\n") + tail), KeywordMatch) == if v <= 100 then v else 0
  {
    var line := ScoreLine(KeywordLabel, v, "%\n") + tail;
    KeywordLineGroup(v, tail);
    KeywordLineAfter(a, v, tail);
    ScoreOfLine(a, line, PatternOf(KeywordMatch), NatToDecimal(v), v, 0, |KeywordLabel| + 2);
  }

  lemma KeywordLineGroup(v: nat, tail: string)
    requires v < 1000
    ensures GroupAt(ScoreLine(KeywordLabel, v, "%\n") + tail, PatternOf(KeywordMatch), |KeywordLabel| + 2, NatToDecimal(v))
  {
    var line := ScoreLine(KeywordLabel, v, "%\n") + tail;
    var d := NatToDecimal(v);
    NatToDecimalLength(v);
    KeywordLineMatch(line, d, tail);
    LineGroupAt(line, PatternOf(KeywordMatch), KeywordLabel, d, "%\n", tail);
  }

  lemma KeywordLineAfter(a: string, v: nat, tail: string)
    requires Avoids(a, 'k')
    ensures FirstLetterAvoided(a, ScoreLine(KeywordLabel, v, "%\n") + tail, PatternOf(KeywordMatch), 0)
  {
    var line := ScoreLine(KeywordLabel, v, "%\n") + tail;
    KeywordFirstWord();
    assert a + line[..0] == a;
  }

  /** The skill line after a text a with no letter i, its number below
      1000: the skill score is that number when it is at most 100, and 0
      otherwise. */
  lemma SkillField(a: string, v: nat, tail: string)
    requires v < 1000 && Avoids(a + "Sk", 'i')
    ensures FieldScore(a + (ScoreLine(SkillLabel, v, "%\n") + tail), SkillMatch) == if v <= 100 then v else 0
  {
    var line := ScoreLine(SkillLabel, v, "%\n") + tail;
    SkillLineGroup(v, tail);
    SkillLineAfter(a, v, tail);
    ScoreOfLine(a, line, PatternOf(SkillMatch), NatToDecimal(v), v, 2, |SkillLabel| + 2);
  }

  lemma SkillLineGroup(v: nat, tail: string)
    requires v < 1000
    ensures GroupAt(ScoreLine(SkillLabel, v, "%\n") + tail, PatternOf(SkillMatch), |SkillLabel| + 2, NatToDecimal(v))
  {
    var line := ScoreLine(SkillLabel, v, "%\n") + tail;
    var d := NatToDecimal(v);
    NatToDecimalLength(v);
    SkillLineMatch(line, d, tail);
    LineGroupAt(line, PatternOf(SkillMatch), SkillLabel, d, "%\n", tail);
  }

  lemma SkillLineAfter(a: string, v: nat, tail: string)
    requires Avoids(a + "Sk", 'i')
    ensures FirstLetterAvoided(a, ScoreLine(SkillLabel, v, "%\n") + tail, PatternOf(SkillMatch), 2)
  {
    var line := ScoreLine(SkillLabel, v, "%\n") + tail;
    LabelOfLine(line, SkillLabel, NatToDecimal(v), "%\n", tail, 2);
    assert SkillLabel[..2] == "Sk";
    SkillFirstWord();
  }

  /** The experience and education line after a text a with no letter x,
      its number below 1000: the experience and education score is that
      number when it is at most 100, and 0 otherwise. */
  lemma ExpEduField(a: string, v: nat, tail: string)
    requires v < 1000 && Avoids(a + "E", 'x')
    ensures FieldScore(a + (ScoreLine(ExpEduLabel, v, "%\n") + tail), ExperienceEducationMatch) == if v <= 100 then v else 0
  {
    var line := ScoreLine(ExpEduLabel, v, "%\n") + tail;
    ExpEduLineGroup(v, tail);
    ExpEduLineAfter(a, v, tail);
    ScoreOfLine(a, line, PatternOf(ExperienceEducationMatch), NatToDecimal(v), v, 1, |ExpEduLabel| + 2);
  }

  lemma ExpEduLineGroup(v: nat, tail: string)
    requires v < 1000
    ensures GroupAt(ScoreLine(ExpEduLabel, v, "%\n") + tail, PatternOf(ExperienceEducationMatch), |ExpEduLabel| + 2, NatToDecimal(v))
  {
    var line := ScoreLine(ExpEduLabel, v, "%\n") + tail;
    var d := NatToDecimal(v);
    NatToDecimalLength(v);
    ExpEduLineMatch(line, d, tail);
    LineGroupAt(line, PatternOf(ExperienceEducationMatch), ExpEduLabel, d, "%\n", tail);
  }

  lemma ExpEduLineAfter(a: string, v: nat, tail: string)
    requires Avoids(a + "E", 'x')
    ensures FirstLetterAvoided(a, ScoreLine(ExpEduLabel, v, "%\n") + tail, PatternOf(ExperienceEducationMatch), 1)
  {
    var line := ScoreLine(ExpEduLabel, v, "%\n") + tail;
    LabelOfLine(line, ExpEduLabel, NatToDecimal(v), "%\n", tail, 1);
    assert ExpEduLabel[..1] == "E";
    ExpEduFirstWord();
  }

  /** The formatting line after a text a with no letter f, its number below
      1000: the formatting score is that number when it is at most 100, and
      0 otherwise. */
  lemma FormattingField(a: string, v: nat, tail: string)
    requires v < 1000 && Avoids(a, 'f')
    ensures FieldScore(a + (ScoreLine(FormattingLabel, v, "%") + tail), FormattingQuality) == if v <= 100 then v else 0
  {
    var line := ScoreLine(FormattingLabel, v, "%") + tail;
    FormattingLineGroup(v, tail);
    FormattingLineAfter(a, v, tail);
    ScoreOfLine(a, line, PatternOf(FormattingQuality), NatToDecimal(v), v, 0, |FormattingLabel| + 2);
  }

  lemma FormattingLineGroup(v: nat, tail: string)
    requires v < 1000
    ensures GroupAt(ScoreLine(FormattingLabel, v, "%") + tail, PatternOf(FormattingQuality), |FormattingLabel| + 2, NatToDecimal(v))
  {
    var line := ScoreLine(FormattingLabel, v, "%") + tail;
    var d := NatToDecimal(v);
    NatToDecimalLength(v);
    FormattingLineMatch(line, d, tail);
    LineGroupAt(line, PatternOf(FormattingQuality), FormattingLabel, d, "%", tail);
  }

  lemma FormattingLineAfter(a: string, v: nat, tail: string)
    requires Avoids(a, 'f')
    ensures FirstLetterAvoided(a, ScoreLine(FormattingLabel, v, "%") + tail, PatternOf(FormattingQuality), 0)
  {
    var line := ScoreLine(FormattingLabel, v, "%") + tail;
    FormattingFirstWord();
    assert a + line[..0] == a;
  }

  // ---------------------------------------------------------------------
  // The whole header
  // ---------------------------------------------------------------------

  /** The first-word letters that the labels and suffixes before each line
      do not contain, ignoring case: one lemma per label and letter keeps
      each fact about a literal small. */
  lemma AtsLabelAvoidsK()
    ensures Avoids(AtsLabel, 'k')
  {
    AvoidsLetter(AtsLabel, 'k');
  }

  lemma AtsLabelAvoidsI()
    ensures Avoids(AtsLabel, 'i')
  {
    AvoidsLetter(AtsLabel, 'i');
  }

  lemma AtsLabelAvoidsX()
    ensures Avoids(AtsLabel, 'x')
  {
    AvoidsLetter(AtsLabel, 'x');
  }

  lemma AtsLabelAvoidsF()
    ensures Avoids(AtsLabel, 'f')
  {
    AvoidsLetter(AtsLabel, 'f');
  }

  lemma KeywordLabelAvoidsI()
    ensures Avoids(KeywordLabel, 'i')
  {
    AvoidsLetter(KeywordLabel, 'i');
  }

  lemma KeywordLabelAvoidsX()
    ensures Avoids(KeywordLabel, 'x')
  {
    AvoidsLetter(KeywordLabel, 'x');
  }

  lemma KeywordLabelAvoidsF()
    ensures Avoids(KeywordLabel, 'f')
  {
    AvoidsLetter(KeywordLabel, 'f');
  }

  lemma SkillLabelAvoidsX()
    ensures Avoids(SkillLabel, 'x')
  {
    AvoidsLetter(SkillLabel, 'x');
  }

  lemma SkillLabelAvoidsF()
    ensures Avoids(SkillLabel, 'f')
  {
    AvoidsLetter(SkillLabel, 'f');
  }

  lemma ExpEduLabelAvoidsF()
    ensures Avoids(ExpEduLabel, 'f')
  {
    AvoidsLetter(ExpEduLabel, 'f');
  }

  lemma LabelHeadLetters()
    ensures Avoids("Sk", 'i') && Avoids("E", 'x')
  {
    AvoidsLetter("Sk", 'i');
    AvoidsLetter("E", 'x');
  }

  lemma SuffixLetters()
    ensures Avoids("/100\n", 'k') && Avoids("/100\n", 'i') && Avoids("/100\n", 'x') && Avoids("/100\n", 'f')
    ensures Avoids("%\n", 'i') && Avoids("%\n", 'x') && Avoids("%\n", 'f')
  {
    AvoidsLetter("/100\n", 'k');
    AvoidsLetter("/100\n", 'i');
    AvoidsLetter("/100\n", 'x');
    AvoidsLetter("/100\n", 'f');
    AvoidsLetter("%\n", 'i');
    AvoidsLetter("%\n", 'x');
    AvoidsLetter("%\n", 'f');
  }

  /** The lines before the skill line hold no i before its "Sk". */
  lemma NoIBeforeSkill(ats: nat, keyword: nat)
    ensures Avoids(ScoreLine(AtsLabel, ats, "/100\n") + ScoreLine(KeywordLabel, keyword, "%\n") + "Sk", 'i')
  {
    var h1 := ScoreLine(AtsLabel, ats, "/100\n");
    var h2 := ScoreLine(KeywordLabel, keyword, "%\n");
    AtsLabelAvoidsI();
    KeywordLabelAvoidsI();
    LabelHeadLetters();
    SuffixLetters();
    LineAvoids(AtsLabel, ats, "/100\n", 'i');
    LineAvoids(KeywordLabel, keyword, "%\n", 'i');
    AvoidsConcat(h1, h2, 'i');
    AvoidsConcat(h1 + h2, "Sk", 'i');
  }

  /** The lines before the experience and education line hold no x. */
  lemma NoXBeforeExpEdu(ats: nat, keyword: nat, skill: nat)
    ensures Avoids(ScoreLine(AtsLabel, ats, "/100\n") + ScoreLine(KeywordLabel, keyword, "%\n")
                   + ScoreLine(SkillLabel, skill, "%\n") + "E", 'x')
  {
    var h1 := ScoreLine(AtsLabel, ats, "/100\n");
    var h2 := ScoreLine(KeywordLabel, keyword, "%\n");
    var h3 := ScoreLine(SkillLabel, skill, "%\n");
    AtsLabelAvoidsX();
    KeywordLabelAvoidsX();
    SkillLabelAvoidsX();
    LabelHeadLetters();
    SuffixLetters();
    LineAvoids(AtsLabel, ats, "/100\n", 'x');
    LineAvoids(KeywordLabel, keyword, "%\n", 'x');
    LineAvoids(SkillLabel, skill, "%\n", 'x');
    AvoidsConcat(h1, h2, 'x');
    AvoidsConcat(h1 + h2, h3, 'x');
    AvoidsConcat(h1 + h2 + h3, "E", 'x');
  }

  /** The lines before the formatting line hold no f. */
  lemma NoFBeforeFormatting(ats: nat, keyword: nat, skill: nat, expEdu: nat)
    ensures Avoids(ScoreLine(AtsLabel, ats, "/100\n") + ScoreLine(KeywordLabel, keyword, "%\n")
                   + ScoreLine(SkillLabel, skill, "%\n") + ScoreLine(ExpEduLabel, expEdu, "%\n"), 'f')
  {
    var h1 := ScoreLine(AtsLabel, ats, "/100\n");
    var h2 := ScoreLine(KeywordLabel, keyword, "%\n");
    var h3 := ScoreLine(SkillLabel, skill, "%\n");
    var h4 := ScoreLine(ExpEduLabel, expEdu, "%\n");
    AtsLabelAvoidsF();
    KeywordLabelAvoidsF();
    SkillLabelAvoidsF();
    ExpEduLabelAvoidsF();
    SuffixLetters();
    LineAvoids(AtsLabel, ats, "/100\n", 'f');
    LineAvoids(KeywordLabel, keyword, "%\n", 'f');
    LineAvoids(SkillLabel, skill, "%\n", 'f');
    LineAvoids(ExpEduLabel, expEdu, "%\n", 'f');
    AvoidsConcat(h1, h2, 'f');
    AvoidsConcat(h1 + h2, h3, 'f');
    AvoidsConcat(h1 + h2 + h3, h4, 'f');
  }

  /** Where each line of a header of five lines begins. */
  lemma Regroup(h1: string, h2: string, h3: string, h4: string, h5: string, rest: string)
    ensures h1 + h2 + h3 + h4 + h5 + rest == h1 + (h2 + (h3 + h4 + h5 + rest))
    ensures h1 + h2 + h3 + h4 + h5 + rest == h1 + h2 + (h3 + (h4 + h5 + rest))
    ensures h1 + h2 + h3 + h4 + h5 + rest == h1 + h2 + h3 + (h4 + (h5 + rest))
    ensures h1 + h2 + h3 + h4 + h5 + rest == h1 + h2 + h3 + h4 + (h5 + rest)
  {
  }

  /** The round trip of the reply format: five scores in [0, 100] written
      as the five header lines, followed by any text at all, are parsed
      back as exactly those five scores. */
  lemma TemplateRoundTrip(ats: nat, keyword: nat, skill: nat, expEdu: nat, formatting: nat, rest: string)
    requires ats <= 100 && keyword <= 100 && skill <= 100 && expEdu <= 100 && formatting <= 100
    ensures ParseAiResponse(RenderScores(ats, keyword, skill, expEdu, formatting) + rest)
         == ScoreMap(ats, keyword, skill, expEdu, formatting)
  {
    var h1 := ScoreLine(AtsLabel, ats, "/100\n");
    var h2 := ScoreLine(KeywordLabel, keyword, "%\n");
    var h3 := ScoreLine(SkillLabel, skill, "%\n");
    var h4 := ScoreLine(ExpEduLabel, expEdu, "%\n");
    var h5 := ScoreLine(FormattingLabel, formatting, "%");
    var s := RenderScores(ats, keyword, skill, expEdu, formatting) + rest;
    Regroup(h1, h2, h3, h4, h5, rest);
    AtsField(ats, "/100\n", h2 + (h3 + h4 + h5 + rest));
    AtsLabelAvoidsK();
    SuffixLetters();
    LineAvoids(AtsLabel, ats, "/100\n", 'k');
    KeywordField(h1, keyword, h3 + h4 + h5 + rest);
    NoIBeforeSkill(ats, keyword);
    SkillField(h1 + h2, skill, h4 + h5 + rest);
    NoXBeforeExpEdu(ats, keyword, skill);
    ExpEduField(h1 + h2 + h3, expEdu, h5 + rest);
    NoFBeforeFormatting(ats, keyword, skill, expEdu);
    FormattingField(h1 + h2 + h3 + h4, formatting, rest);
  }
}
