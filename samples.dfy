/**
 Replies the parser is meant to handle, and a few it is not: the reply of
 the template, a number out of range, the label without "Overall", four
 digits where at most three are read, a percentage without its sign, letter
 case, and the three ways of joining "Experience" and "Education".
 */
module ReplySamples {
  import opened Wrappers
  import opened Chars
  import opened Decimal
  import opened ScorePatterns
  import opened ReplyParser
  import opened ReplyTemplate

  // ---------------------------------------------------------------------
  // Lines of the form "<label>: <digits><suffix>" at the start of a reply
  // ---------------------------------------------------------------------

  /** A label token found at j through any of its alternatives, followed by
      a run of spaces up to n, then the rest of the label. */
  lemma TokenStep(t: string, j: nat, alts: seq<string>, w: string, n: nat, tail: seq<seq<string>>)
    requires WellFormedToken(alts) && w in alts && LitAt(t, j, w)
    requires Spaces(t, j + |w|, n) && n < |t| && !IsSpace(t[n]) && |tail| > 0
    ensures LabelEnd(t, j, [alts] + tail) == LabelEnd(t, n, tail)
  {
    var toks := [alts] + tail;
    assert toks[0] == alts && toks[1..] == tail;
    AltEndComplete(t, j, alts, w);
    SkipSpacesStopsAt(t, j + |w|, n);
    LabelEndStep(t, j, j + |w|, toks);
  }

  /** The match at t's start, once the label ends at e and is followed by
      ": ", the digits d and the character c. */
  lemma MatchAfterLabel(t: string, p: ScorePattern, e: nat, d: string, c: char)
    requires 1 <= |d| <= 3 && AllDigits(d) && AfterLabel(t, e, d, c)
    requires |d| < 3 ==> !IsDigit(c)
    requires p.percent ==> c == '%'
    requires p.prefix.Some? ==> !LitAt(t, 0, p.prefix.value)
    requires LabelEnd(t, 0, p.tokens) == Some(e)
    ensures MatchAt(t, p) == Some(Group(e + 2, e + 2 + |d|))
    ensures t[e + 2..e + 2 + |d|] == d
  {
    LineTail(t, p, 0, e, d, c);
    MatchAtWithoutPrefix(t, p);
  }

  /** Where the optional prefix does not start t, the match at t's start is
      the match of the rest of the pattern there. */
  lemma MatchAtWithoutPrefix(t: string, p: ScorePattern)
    requires p.prefix.Some? ==> !LitAt(t, 0, p.prefix.value)
    ensures MatchAt(t, p) == MatchFrom(t, p, 0)
  {
  }

  /** A line at the start of t whose label, as the pattern reads it, ends
      at e and is followed by ": ", the digits d and the character c, where
      the pattern's optional prefix does not start t: the search returns d.
      A c that is a digit is allowed after three digits, since `\d{1,3}`
      stops there. */
  lemma LineSearch(t: string, p: ScorePattern, e: nat, d: string, c: char)
    requires 1 <= |d| <= 3 && AllDigits(d) && AfterLabel(t, e, d, c)
    requires |d| < 3 ==> !IsDigit(c)
    requires p.percent ==> c == '%'
    requires p.prefix.Some? ==> !LitAt(t, 0, p.prefix.value)
    requires LabelEnd(t, 0, p.tokens) == Some(e)
    ensures Search(t, p) == Some(d)
  {
    MatchAfterLabel(t, p, e, d, c);
    SearchAtStart(t, p, Group(e + 2, e + 2 + |d|), d);
  }

  /** A match at the start of the text is the one the search returns. */
  lemma SearchAtStart(t: string, p: ScorePattern, g: Group, d: string)
    requires MatchAt(t, p) == Some(g) && g.start <= g.end <= |t| && t[g.start..g.end] == d
    ensures Search(t, p) == Some(d)
  {
    assert t[0..] == t;
    SearchAt(t, p, 0, g);
  }


  /** The percentage patterns read at most three digits and then need the
      suffix: where the label is followed by four digits, the pattern does
      not match there, and the number is not cut to its first three digits
      as it is for the overall score. */
  lemma FourDigitsNoMatch(t: string, p: ScorePattern, j: nat, e: nat)
    requires p.percent && j <= |t| && LabelEnd(t, j, p.tokens) == Some(e)
    requires SepEnd(t, e) + 4 <= |t|
    requires forall k :: SepEnd(t, e) <= k < SepEnd(t, e) + 4 ==> IsDigit(t[k])
    ensures MatchFrom(t, p, j).None?
  {
    var ds := SepEnd(t, e);
    DigitRunExact(t, ds, 3, 3);
    assert SkipSpaces(t, ds + 3) == ds + 3;
    assert !LitAt(t, ds + 3, "%") by {
      assert !FoldEq(t[ds + 3 + 0], "%"[0]);
    }
    assert !LitAt(t, ds + 3, "percent") by {
      assert !FoldEq(t[ds + 3 + 0], "percent"[0]);
    }
  }

  /** A field whose pattern the scanner matches at no position scores 0. */
  lemma NoMatchAnywhere(s: string, f: Field)
    requires forall j :: 0 <= j <= |s| ==> MatchAt(s[j..], PatternOf(f)).None?
    ensures FieldScore(s, f) == 0
  {
    PatternWellFormed(f);
    forall j, g | 0 <= j <= |s| ensures !PatternMatch(s[j..], PatternOf(f), g) {
      NoMatchAt(s[j..], PatternOf(f));
    }
    MissingFieldIsZero(s, f);
  }

  // ---------------------------------------------------------------------
  // Sample replies
  // ---------------------------------------------------------------------

  /** The reply exactly as the template asks for it, one line at a time. */
  lemma TemplateReply(t: string)
    requires t == "Overall ATS Score: 92/100\n" + "Keyword Match: 80%\n" + "Skill Match: 75%\n"
                  + "Experience & Education Match: 60%\n" + "Formatting Quality: 90%"
    ensures ParseAiResponse(t) == ScoreMap(92, 80, 75, 60, 90)
  {
    TemplateRoundTrip(92, 80, 75, 60, 90, "");
    TemplateReplyLines();
    assert RenderScores(92, 80, 75, 60, 90) + "" == t;
  }

  /** The lines of the template reply are the renderings of its scores. */
  lemma TemplateReplyLines()
    ensures ScoreLine(AtsLabel, 92, "/100\n") == "Overall ATS Score: 92/100\n"
    ensures ScoreLine(KeywordLabel, 80, "%\n") == "Keyword Match: 80%\n"
    ensures ScoreLine(SkillLabel, 75, "%\n") == "Skill Match: 75%\n"
    ensures ScoreLine(ExpEduLabel, 60, "%\n") == "Experience & Education Match: 60%\n"
    ensures ScoreLine(FormattingLabel, 90, "%") == "Formatting Quality: 90%"
  {
    assert NatToDecimal(92) == "92" && NatToDecimal(80) == "80" && NatToDecimal(75) == "75";
    assert NatToDecimal(60) == "60" && NatToDecimal(90) == "90";
  }

  /** A score above 100 becomes 0, not 100. */
  lemma OverallScoreOutOfRange(t: string)
    requires t == "Overall ATS Score: 150/100"
    ensures ParseAiResponse(t)[Key(AtsScore)] == 0
  {
    AtsField(150, "/100", "");
    OutOfRangeText();
  }

  lemma OutOfRangeText()
    ensures ScoreLine(AtsLabel, 150, "/100") + "" == "Overall ATS Score: 150/100"
  {
    assert NatToDecimal(150) == "150";
  }

  /** The decimal writings the samples use. */
  lemma SampleDecimals()
    ensures NatToDecimal(60) == "60" && NatToDecimal(80) == "80" && NatToDecimal(87) == "87"
    ensures NatToDecimal(100) == "100"
  {
  }

  /** The overall score written without "Overall": the prefix is optional. */
  lemma ShortOverallLabel(t: string)
    requires t == "ATS Score: 87/100"
    ensures ParseAiResponse(t)[Key(AtsScore)] == 87
  {
    ShortOverallText();
    ShortAtsLine(t, "87", "/100", "");
    SampleDecimals();
    ScoreFromSearch(t, AtsScore, 87);
  }

  lemma ShortOverallText()
    ensures "ATS Score: 87/100" == "ATS Score" + ": " + "87" + "/100" + ""
    ensures "ATS Score: 1000" == "ATS Score" + ": " + "100" + "0" + ""
  {
  }

  /** Four digits after the overall label: `\d{1,3}` takes the first three
      and, with no suffix required, the match stands. */
  lemma FourDigitOverallScore(t: string)
    requires t == "ATS Score: 1000"
    ensures ParseAiResponse(t)[Key(AtsScore)] == 100
  {
    ShortOverallText();
    ShortAtsLine(t, "100", "0", "");
    SampleDecimals();
    ScoreFromSearch(t, AtsScore, 100);
  }

  /** A line "ATS Score: <d><suffix>" at the start of t. */
  lemma ShortAtsLine(t: string, d: string, suffix: string, rest: string)
    requires 1 <= |d| <= 3 && AllDigits(d) && |suffix| > 0 && (|d| < 3 ==> !IsDigit(suffix[0]))
    requires t == "ATS Score" + ": " + d + suffix + rest
    ensures Search(t, PatternOf(AtsScore)) == Some(d)
  {
    var p := PatternOf(AtsScore);
    LabelOfLine(t, "ATS Score", d, suffix, rest, 9);
    assert t[..9] == "ATS Score";
    assert !LitAt(t, 0, "overall") by {
      assert !FoldEq(t[0 + 0], "overall"[0]);
    }
    assert LitAt("ATS Score", 0, "ats") && "ATS Score"[3] == ' ' && LitAt("ATS Score", 4, "score");
    TwoTokenLabel(t, 0, "ATS Score", "ats", "score");
    LineParts(t, "ATS Score", d, suffix, rest);
    LineSearch(t, p, 9, d, suffix[0]);
  }

  /** Four digits before the percent sign: the keyword pattern matches
      nowhere, so the keyword score is 0 rather than 100. */
  lemma FourDigitPercentage(t: string)
    requires t == "Keyword Match: 1000%"
    ensures ParseAiResponse(t)[Key(KeywordMatch)] == 0
  {
    var p := PatternOf(KeywordMatch);
    FourDigitPercentageText(t);
    KeywordLineNoMatch(t, "1000", "%");
    KeywordFirstWord();
    NoMatchFrom(t, p, 1);
    assert t[0..] == t;
    NoMatchAnywhere(t, KeywordMatch);
  }

  lemma FourDigitPercentageText(t: string)
    requires t == "Keyword Match: 1000%"
    ensures t == KeywordLabel + ": " + "1000" + "%" && AllDigits("1000")
    ensures Avoids(t[1..], 'k')
  {
    assert t[1..] == "eyword Match: 1000%";
    NoKAfterFirst();
  }

  lemma NoKAfterFirst()
    ensures Avoids("eyword Match: 1000%", 'k')
  {
    AvoidsLetter("eyword Match: 1000%", 'k');
  }

  /** The keyword line with four digits or more has no match at its start. */
  lemma KeywordLineNoMatch(t: string, d: string, rest: string)
    requires |d| >= 4 && AllDigits(d) && t == KeywordLabel + ": " + d + rest
    ensures MatchAt(t, PatternOf(KeywordMatch)).None?
  {
    var p := PatternOf(KeywordMatch);
    assert t == (KeywordLabel + ": ") + (d + rest);
    KeywordLabelText();
    assert t[..13] == KeywordLabel;
    TwoTokenLabel(t, 0, KeywordLabel, "keyword", "match");
    assert t[13] == ':' && t[14] == ' ';
    assert SepEnd(t, 13) == 15 by {
      assert SkipSpaces(t, 13) == 13;
      assert Spaces(t, 14, 15);
      SkipSpacesStopsAt(t, 14, 15);
    }
    forall k | 15 <= k < 19 ensures IsDigit(t[k]) {
      assert t[k] == d[k - 15];
    }
    FourDigitsNoMatch(t, p, 0, 13);
  }

  /** No match starts at or after i when s[i..] has no character folding to
      the first letter of the pattern's first word. */
  lemma NoMatchFrom(s: string, p: ScorePattern, i: nat)
    requires p.prefix.None? && |p.tokens| > 0 && |p.tokens[0]| == 1 && |p.tokens[0][0]| > 0
    requires i <= |s| && Avoids(s[i..], p.tokens[0][0][0])
    ensures forall j :: i <= j <= |s| ==> MatchAt(s[j..], p).None?
  {
    var w := p.tokens[0][0];
    forall j | i <= j <= |s| ensures MatchAt(s[j..], p).None? {
      if j < |s| {
        assert s[j..][0] == s[i..][j - i];
        assert !FoldEq(s[j..][0 + 0], w[0]);
      }
      MatchAtNeedsFirst(s[j..], p);
    }
  }

  /** A percentage with no percent sign: the keyword score is 0. */
  lemma BarePercentage(t: string)
    requires t == "Keyword Match: 80"
    ensures ParseAiResponse(t)[Key(KeywordMatch)] == 0
  {
    assert '%' !in t && 'p' !in t && 'P' !in t;
    forall k | 0 <= k < |t| ensures t[k] !in {'%', 'p', 'P'} {
      assert t[k] in t;
    }
    BareNumbersScoreZero(t, KeywordMatch);
  }

  /** Letter case in labels does not matter. */
  lemma UpperCaseLabel(t: string)
    requires t == "KEYWORD MATCH: 80%"
    ensures ParseAiResponse(t)[Key(KeywordMatch)] == 80
  {
    UpperCaseText();
    TwoWordLine(t, PatternOf(KeywordMatch), "KEYWORD MATCH", "keyword", "match", "80", "%", "");
    SampleDecimals();
    ScoreFromSearch(t, KeywordMatch, 80);
  }

  lemma UpperCaseText()
    ensures "KEYWORD MATCH: 80%" == "KEYWORD MATCH" + ": " + "80" + "%" + ""
    ensures LitAt("KEYWORD MATCH", 0, "keyword") && "KEYWORD MATCH"[7] == ' ' && LitAt("KEYWORD MATCH", 8, "match")
  {
  }

  /** A line "<name>: <d><suffix>" at the start of t whose name is the two
      words of a two-word label, one space apart, in any letter case. */
  lemma TwoWordLine(t: string, p: ScorePattern, name: string, w1: string, w2: string,
                    d: string, suffix: string, rest: string)
    requires p.prefix.None? && p.percent && p.tokens == [[w1], [w2]]
    requires |name| == |w1| + 1 + |w2| && |w2| > 0 && PatternChar(w2[0])
    requires LitAt(name, 0, w1) && name[|w1|] == ' ' && LitAt(name, |w1| + 1, w2)
    requires 1 <= |d| <= 3 && AllDigits(d) && |suffix| > 0 && suffix[0] == '%'
    requires t == name + ": " + d + suffix + rest
    ensures Search(t, p) == Some(d)
  {
    LabelOfLine(t, name, d, suffix, rest, |name|);
    assert t[..|name|] == name;
    TwoTokenLabel(t, 0, name, w1, w2);
    LineParts(t, name, d, suffix, rest);
    LineSearch(t, p, |name|, d, suffix[0]);
  }

  /** "and" joins experience and education as well as "&". */
  lemma ExperienceAndEducation(t: string)
    requires t == "Experience and Education Match: 60%"
    ensures ParseAiResponse(t)[Key(ExperienceEducationMatch)] == 60
  {
    var u := "Experience and Education Match";
    AndLabelText();
    JoinedLabelLine(t, u, "and", 11, 15, 25, "60", "%", "");
    SampleDecimals();
    ScoreFromSearch(t, ExperienceEducationMatch, 60);
  }

  lemma AndLabelText()
    ensures "Experience and Education Match: 60%" == "Experience and Education Match" + ": " + "60" + "%" + ""
    ensures var u := "Experience and Education Match";
      && |u| == 30 && LitAt(u, 0, "experience") && Spaces(u, 10, 11) && LitAt(u, 11, "and")
      && Spaces(u, 14, 15) && LitAt(u, 15, "education") && Spaces(u, 24, 25) && LitAt(u, 25, "match")
  {
    AndLabelHead();
    AndLabelTail();
  }

  lemma AndLabelHead()
    ensures var u := "Experience and Education Match";
      LitAt(u, 0, "experience") && Spaces(u, 10, 11) && LitAt(u, 11, "and") && Spaces(u, 14, 15)
  {
  }

  lemma AndLabelTail()
    ensures var u := "Experience and Education Match";
      LitAt(u, 15, "education") && Spaces(u, 24, 25) && LitAt(u, 25, "match")
  {
  }

  /** "/" joins them too, and the spaces around the join may be left out. */
  lemma ExperienceSlashEducation(t: string)
    requires t == "Experience/Education Match: 60%"
    ensures ParseAiResponse(t)[Key(ExperienceEducationMatch)] == 60
  {
    var u := "Experience/Education Match";
    SlashLabelText();
    JoinedLabelLine(t, u, "/", 10, 11, 21, "60", "%", "");
    SampleDecimals();
    ScoreFromSearch(t, ExperienceEducationMatch, 60);
  }

  lemma SlashLabelText()
    ensures "Experience/Education Match: 60%" == "Experience/Education Match" + ": " + "60" + "%" + ""
    ensures var u := "Experience/Education Match";
      && |u| == 26 && LitAt(u, 0, "experience") && Spaces(u, 10, 10) && LitAt(u, 10, "/")
      && Spaces(u, 11, 11) && LitAt(u, 11, "education") && Spaces(u, 20, 21) && LitAt(u, 21, "match")
  {
    SlashLabelHead();
    SlashLabelTail();
  }

  lemma SlashLabelHead()
    ensures var u := "Experience/Education Match";
      LitAt(u, 0, "experience") && Spaces(u, 10, 10) && LitAt(u, 10, "/") && Spaces(u, 11, 11)
  {
  }

  lemma SlashLabelTail()
    ensures var u := "Experience/Education Match";
      LitAt(u, 11, "education") && Spaces(u, 20, 21) && LitAt(u, 21, "match")
  {
  }

  /** A line whose name is the experience and education label with the join
      word at a, "education" at b and "match" at c, any spaces between. */
  lemma JoinedLabelLine(t: string, u: string, join: string, a: nat, b: nat, c: nat,
                        d: string, suffix: string, rest: string)
    requires join in ["&", "and", "/"] && 10 <= a && a + |join| <= b && b + 9 <= c && |u| == c + 5
    requires LitAt(u, 0, "experience") && Spaces(u, 10, a) && LitAt(u, a, join)
    requires Spaces(u, a + |join|, b) && LitAt(u, b, "education") && Spaces(u, b + 9, c) && LitAt(u, c, "match")
    requires 1 <= |d| <= 3 && AllDigits(d) && |suffix| > 0 && suffix[0] == '%'
    requires t == u + ": " + d + suffix + rest
    ensures Search(t, PatternOf(ExperienceEducationMatch)) == Some(d)
  {
    LabelOfLine(t, u, d, suffix, rest, |u|);
    assert t[..|u|] == u;
    JoinedLabelEnd(t, u, join, a, b, c);
    LineParts(t, u, d, suffix, rest);
    LineSearch(t, PatternOf(ExperienceEducationMatch), |u|, d, suffix[0]);
  }

  lemma JoinedLabelEnd(t: string, u: string, join: string, a: nat, b: nat, c: nat)
    requires join in ["&", "and", "/"] && 10 <= a && a + |join| <= b && b + 9 <= c && |u| == c + 5
    requires LitAt(u, 0, "experience") && Spaces(u, 10, a) && LitAt(u, a, join)
    requires Spaces(u, a + |join|, b) && LitAt(u, b, "education") && Spaces(u, b + 9, c) && LitAt(u, c, "match")
    requires |u| < |t| && t[..|u|] == u
    ensures LabelEnd(t, 0, PatternOf(ExperienceEducationMatch).tokens) == Some(|u|)
  {
    JoinedLabelInText(t, u, join, a, b, c);
    JoinedLabelSteps(t, join, a, b, c);
  }

  /** The words of the label u, found in t where u starts t. */
  lemma JoinedLabelInText(t: string, u: string, join: string, a: nat, b: nat, c: nat)
    requires 10 <= a && a + |join| <= b && b + 9 <= c && |u| == c + 5
    requires LitAt(u, 0, "experience") && Spaces(u, 10, a) && LitAt(u, a, join)
    requires Spaces(u, a + |join|, b) && LitAt(u, b, "education") && Spaces(u, b + 9, c) && LitAt(u, c, "match")
    requires |u| < |t| && t[..|u|] == u
    ensures LitAt(t, 0, "experience") && Spaces(t, 10, a) && LitAt(t, a, join)
    ensures Spaces(t, a + |join|, b) && LitAt(t, b, "education") && Spaces(t, b + 9, c) && LitAt(t, c, "match")
  {
    LitInSlice(t, 0, u, 0, "experience");
    LitInSlice(t, 0, u, a, join);
    LitInSlice(t, 0, u, b, "education");
    LitInSlice(t, 0, u, c, "match");
    SpacesInPrefix(t, u, 10, a);
    SpacesInPrefix(t, u, a + |join|, b);
    SpacesInPrefix(t, u, b + 9, c);
  }

  /** A run of spaces in a prefix of t is one in t. */
  lemma SpacesInPrefix(t: string, u: string, x: nat, y: nat)
    requires |u| <= |t| && t[..|u|] == u && Spaces(u, x, y)
    ensures Spaces(t, x, y)
  {
    forall k | x <= k < y ensures IsSpace(t[k]) {
      assert t[k] == t[..|u|][k];
    }
  }

  /** The token list of the experience and education pattern, split for
      TokenStep, and the facts about its join token. */
  lemma ExpEduTokens()
    ensures var amp := ["&", "and", "/"];
      && WellFormedToken(amp) && WellFormedToken(["experience"]) && WellFormedToken(["education"])
      && PatternOf(ExperienceEducationMatch).tokens == [["experience"]] + ([amp] + ([["education"]] + [["match"]]))
      && forall w :: w in amp ==> PatternLiteral(w)
  {
    PatternWellFormed(ExperienceEducationMatch);
    var amp := ["&", "and", "/"];
    assert PatternOf(ExperienceEducationMatch).tokens[1] == amp;
  }

  lemma JoinedLabelSteps(t: string, join: string, a: nat, b: nat, c: nat)
    requires join in ["&", "and", "/"] && 10 <= a && a + |join| <= b && b + 9 <= c && c + 5 < |t|
    requires LitAt(t, 0, "experience") && Spaces(t, 10, a) && LitAt(t, a, join)
    requires Spaces(t, a + |join|, b) && LitAt(t, b, "education") && Spaces(t, b + 9, c) && LitAt(t, c, "match")
    ensures LabelEnd(t, 0, PatternOf(ExperienceEducationMatch).tokens) == Some(c + 5)
  {
    var amp := ["&", "and", "/"];
    ExpEduTokens();
    assert FoldEq(t[a + 0], join[0]);
    PatternCharIsPlain(t[a], join[0]);
    assert FoldEq(t[b + 0], "education"[0]) && FoldEq(t[c + 0], "match"[0]);
    PatternCharIsPlain(t[b], 'e');
    PatternCharIsPlain(t[c], 'm');
    LastToken(t, c, ["match"]);
    TokenStep(t, b, ["education"], "education", c, [["match"]]);
    TokenStep(t, a, amp, join, b, [["education"]] + [["match"]]);
    TokenStep(t, 0, ["experience"], "experience", a, [amp] + ([["education"]] + [["match"]]));
  }
}
