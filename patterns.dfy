// The five score patterns of the reply parser, each searched for with
// `re.search(pattern, text, re.IGNORECASE)`:
//
//   overall score  (?:Overall\s*)?ATS\s*Score\s*[:\-]?\s*(\d{1,3})(?:\s*/\s*\d{1,3})?
//   keyword match  Keyword\s*Match\s*[:\-]?\s*(\d{1,3})\s*(?:%|percent)
//   skill match    Skill\s*Match\s*[:\-]?\s*(\d{1,3})\s*(?:%|percent)
//   exp./education (?:Experience\s*(?:&|and|\/)\s*Education\s*Match)\s*[:\-]?\s*(\d{1,3})\s*(?:%|percent)
//   formatting     Formatting\s*Quality\s*[:\-]?\s*(\d{1,3})\s*(?:%|percent)
//
/**
 Two descriptions of each pattern are given and proved to agree:
 - a scanner (MatchAt) that decides, the way the backtracking matcher does,
   whether the pattern matches at the start of a text and where group 1 lies;
 - a declarative reference (PatternMatch) that says which split of the text
   into the pattern's pieces is a match, with no search order at all.
 Search then tries every start position from the left, as `re.search` does.
 None of the patterns looks behind its start position, so whether it matches
 at position i of s depends on s[i..] alone.
 */
module ScorePatterns {
  import opened Wrappers
  import opened Chars

  datatype Field = AtsScore | KeywordMatch | SkillMatch | ExperienceEducationMatch | FormattingQuality

  /** Where group 1 lies in a match that starts at the beginning of a text. */
  datatype Group = Group(start: nat, end: nat)

  /** A match found by the search: its start in the text and its group 1,
      relative to that start. */
  datatype Found = Found(at: nat, group: Group)

  /** The shape shared by the five patterns:
        [prefix\s*]? label \s*[:\-]?\s* (\d{1,3}) [\s*(?:%|percent)]
      where the label is tokens separated by `\s*`, each token listing its
      alternatives in the pattern's order, and the percentage suffix is
      required when `percent` holds. */
  datatype ScorePattern = ScorePattern(prefix: Option<string>, tokens: seq<seq<string>>, percent: bool)

  function PatternOf(f: Field): ScorePattern {
    match f
    case AtsScore => ScorePattern(Some("overall"), [["ats"], ["score"]], false)
    case KeywordMatch => ScorePattern(None, [["keyword"], ["match"]], true)
    case SkillMatch => ScorePattern(None, [["skill"], ["match"]], true)
    case ExperienceEducationMatch =>
      ScorePattern(None, [["experience"], ["&", "and", "/"], ["education"], ["match"]], true)
    case FormattingQuality => ScorePattern(None, [["formatting"], ["quality"]], true)
  }

  predicate PatternLiteral(w: string) {
    |w| > 0 && forall k :: 0 <= k < |w| ==> PatternChar(w[k])
  }

  /** Every alternative is a non-empty pattern literal, and the alternatives
      of one token start with different characters, so at most one of them
      occurs at any position. */
  predicate WellFormedToken(alts: seq<string>) {
    && |alts| > 0
    && (forall q :: 0 <= q < |alts| ==> PatternLiteral(alts[q]))
    && (forall p, q :: 0 <= p < q < |alts| ==> alts[p][0] != alts[q][0])
  }

  predicate WellFormedLabel(toks: seq<seq<string>>) {
    |toks| > 0 && forall q :: 0 <= q < |toks| ==> WellFormedToken(toks[q])
  }

  /** A well-formed pattern also has a prefix that cannot occur where its
      label starts. */
  predicate WellFormed(p: ScorePattern) {
    && WellFormedLabel(p.tokens)
    && (p.prefix.Some? ==>
          PatternLiteral(p.prefix.value)
          && forall q :: 0 <= q < |p.tokens[0]| ==> p.tokens[0][q][0] != p.prefix.value[0])
  }

  lemma PatternWellFormed(f: Field)
    ensures WellFormed(PatternOf(f))
  {
    match f
    case AtsScore =>
      TwoTokens("ats", "score");
      assert PatternLiteral("overall");
    case KeywordMatch => TwoTokens("keyword", "match");
    case SkillMatch => TwoTokens("skill", "match");
    case ExperienceEducationMatch =>
      var amp := ["&", "and", "/"];
      assert WellFormedToken(amp) by {
        assert amp[0][0] == '&' && amp[1][0] == 'a' && amp[2][0] == '/';
      }
      assert WellFormedToken(["experience"]) && WellFormedToken(["education"]) && WellFormedToken(["match"]);
      var toks := [["experience"], amp, ["education"], ["match"]];
      assert forall q :: 0 <= q < |toks| ==> WellFormedToken(toks[q]);
    case FormattingQuality => TwoTokens("formatting", "quality");
  }

  /** A label of two single-literal tokens is well formed. */
  lemma TwoTokens(u: string, v: string)
    requires PatternLiteral(u) && PatternLiteral(v)
    ensures WellFormedLabel([[u], [v]])
  {
    assert WellFormedToken([u]) && WellFormedToken([v]);
  }

  lemma WellFormedTail(toks: seq<seq<string>>)
    requires WellFormedLabel(toks) && |toks| > 1
    ensures WellFormedLabel(toks[1..])
  {
    forall q | 0 <= q < |toks[1..]| ensures WellFormedToken(toks[1..][q]) {
      assert toks[1..][q] == toks[q + 1];
    }
  }

  // ---------------------------------------------------------------------
  // The scanner
  // ---------------------------------------------------------------------

  /** End of the greedy `\s*` that starts at i: the first position from i on
      that does not hold a space. */
  function SkipSpaces(s: string, i: nat): (j: nat)
    requires i <= |s|
    ensures i <= j <= |s|
    ensures forall k :: i <= k < j ==> IsSpace(s[k])
    ensures j < |s| ==> !IsSpace(s[j])
    decreases |s| - i
  {
    if i < |s| && IsSpace(s[i]) then SkipSpaces(s, i + 1) else i
  }

  /** One token: its alternatives tried in order; the end of the first that
      occurs at i. */
  function AltEnd(s: string, i: nat, alts: seq<string>): (r: Option<nat>)
    ensures r.Some? ==> i <= r.value <= |s|
    decreases |alts|
  {
    if alts == [] then None
    else if LitAt(s, i, alts[0]) then Some(i + |alts[0]|)
    else AltEnd(s, i, alts[1..])
  }

  /** The label's tokens matched from i, with greedy `\s*` between them. */
  function LabelEnd(s: string, i: nat, toks: seq<seq<string>>): (r: Option<nat>)
    requires i <= |s|
    ensures r.Some? ==> i <= r.value <= |s|
    decreases |toks|
  {
    if toks == [] then None
    else
      match AltEnd(s, i, toks[0])
      case None => None
      case Some(m) =>
        if |toks| == 1 then Some(m) else LabelEnd(s, SkipSpaces(s, m), toks[1..])
  }

  /** `\s*[:\-]?\s*` from i, every quantifier greedy: where the group's
      digits have to start. */
  function SepEnd(s: string, i: nat): (j: nat)
    requires i <= |s|
    ensures i <= j <= |s|
  {
    var k := SkipSpaces(s, i);
    if k < |s| && IsSep(s[k]) then SkipSpaces(s, k + 1) else k
  }

  /** Length of the run of digits starting at i, counting at most cap of them
      (the greedy `\d{1,3}` with cap 3). */
  function DigitRun(s: string, i: nat, cap: nat): (n: nat)
    requires i <= |s|
    ensures n <= cap && i + n <= |s|
    ensures forall k :: i <= k < i + n ==> IsDigit(s[k])
    ensures n < cap && i + n < |s| ==> !IsDigit(s[i + n])
    decreases cap
  {
    if cap > 0 && i < |s| && IsDigit(s[i]) then 1 + DigitRun(s, i + 1, cap - 1) else 0
  }

  /** The percentage suffix `(?:%|percent)` at i. */
  predicate PercentAt(s: string, i: nat) {
    LitAt(s, i, "%") || LitAt(s, i, "percent")
  }

  /** The pattern without its optional prefix, tried from position j of t.
      Once the label has matched, the place of the digits is forced; the
      greedy `\d{1,3}` takes up to three of them.  Without a required suffix
      nothing that follows the group matters, so that first choice stands.
      With the percentage suffix, it must follow after optional spaces;
      giving digits back cannot help, since the character after the shorter
      group would be a digit, neither a space nor a suffix. */
  function MatchFrom(t: string, p: ScorePattern, j: nat): (r: Option<Group>)
    requires j <= |t|
    ensures r.Some? ==> r.value.start < r.value.end <= |t|
  {
    match LabelEnd(t, j, p.tokens)
    case None => None
    case Some(e) =>
      var ds := SepEnd(t, e);
      var n := DigitRun(t, ds, 3);
      if n == 0 then None
      else if !p.percent then Some(Group(ds, ds + n))
      else
        var b := SkipSpaces(t, ds + n);
        if PercentAt(t, b) then Some(Group(ds, ds + n)) else None
  }

  /** The whole pattern tried at the start of t.  An optional prefix such as
      `(?:Overall\s*)?` is tried first with the prefix and, when the rest then
      fails, without it, as the backtracking matcher does. */
  function MatchAt(t: string, p: ScorePattern): (r: Option<Group>)
    ensures r.Some? ==> r.value.start < r.value.end <= |t|
  {
    if p.prefix.Some? && LitAt(t, 0, p.prefix.value) then
      var viaPrefix := MatchFrom(t, p, SkipSpaces(t, |p.prefix.value|));
      if viaPrefix.Some? then viaPrefix else MatchFrom(t, p, 0)
    else MatchFrom(t, p, 0)
  }

  /** `re.search`: the first start position, from i on, at which the pattern
      matches. */
  function SearchFrom(s: string, p: ScorePattern, i: nat): (r: Option<Found>)
    requires i <= |s|
    ensures r.Some? ==> i <= r.value.at <= |s| && MatchAt(s[r.value.at..], p) == Some(r.value.group)
    decreases |s| - i
  {
    match MatchAt(s[i..], p)
    case Some(g) => Some(Found(i, g))
    case None => if i == |s| then None else SearchFrom(s, p, i + 1)
  }

  /** `match.group(1)` of `re.search(pattern, s, re.IGNORECASE)`, or None
      when the search finds nothing: one to three digits. */
  function Search(s: string, p: ScorePattern): (r: Option<string>)
    ensures r.Some? ==> 1 <= |r.value| <= 3 && AllDigits(r.value)
  {
    match SearchFrom(s, p, 0)
    case None => None
    case Some(m) =>
      var t := s[m.at..];
      MatchAtSound(t, p);
      Some(t[m.group.start..m.group.end])
  }

  // ---------------------------------------------------------------------
  // The declarative reference
  // ---------------------------------------------------------------------

  /** s[a..b] is a run of spaces (a possible `\s*`). */
  predicate Spaces(s: string, a: nat, b: nat) {
    a <= b <= |s| && forall k :: a <= k < b ==> IsSpace(s[k])
  }

  /** s[a..b] is one of the token's alternatives. */
  ghost predicate TokenSpan(s: string, a: nat, b: nat, alts: seq<string>) {
    exists w :: w in alts && LitAt(s, a, w) && b == a + |w|
  }

  /** s[a..b] is the label: its tokens, with any run of spaces between them. */
  ghost predicate LabelSpan(s: string, a: nat, b: nat, toks: seq<seq<string>>)
    decreases |toks|
  {
    && |toks| > 0
    && if |toks| == 1 then TokenSpan(s, a, b, toks[0])
       else exists m, n :: TokenSpan(s, a, m, toks[0]) && Spaces(s, m, n) && LabelSpan(s, n, b, toks[1..])
  }

  /** t[..e] is the pattern's head: the label, preceded by the optional
      prefix and spaces. */
  ghost predicate HeadSpan(t: string, p: ScorePattern, e: nat) {
    || LabelSpan(t, 0, e, p.tokens)
    || (p.prefix.Some? && LitAt(t, 0, p.prefix.value)
        && exists m :: Spaces(t, |p.prefix.value|, m) && LabelSpan(t, m, e, p.tokens))
  }

  /** s[a..b] is `\s*[:\-]?\s*`: spaces with at most one separator among them. */
  ghost predicate SepSpan(s: string, a: nat, b: nat) {
    exists x: nat, y: nat :: Spaces(s, a, x) && (y == x || (y == x + 1 && x < |s| && IsSep(s[x]))) && Spaces(s, y, b)
  }

  /** s[a..b] is `\d{1,3}`. */
  predicate GroupSpan(s: string, a: nat, b: nat) {
    a < b <= a + 3 && b <= |s| && forall k :: a <= k < b ==> IsDigit(s[k])
  }

  /** `\s*(?:%|percent)` can follow position a. */
  ghost predicate PercentSpan(s: string, a: nat) {
    exists b :: Spaces(s, a, b) && PercentAt(s, b)
  }

  /** The pattern can match at the start of t with g as group 1.  The overall
      score's optional tail (a slash and one to three digits) is left out:
      being optional and last, it never decides whether there is a match or
      where the group lies. */
  ghost predicate PatternMatch(t: string, p: ScorePattern, g: Group) {
    && (exists e :: HeadSpan(t, p, e) && SepSpan(t, e, g.start))
    && GroupSpan(t, g.start, g.end)
    && (!p.percent || PercentSpan(t, g.end))
  }

  /** What `re.search` returns: the match that starts leftmost in s and, at
      that start, has the longest group 1 (the greedy `\d{1,3}`; everything
      before the group is forced, so that is the backtracking matcher's first
      success). */
  ghost predicate Leftmost(s: string, p: ScorePattern, at: nat, g: Group) {
    && at <= |s|
    && PatternMatch(s[at..], p, g)
    && (forall j, g' :: 0 <= j < at ==> !PatternMatch(s[j..], p, g'))
    && (forall g' :: PatternMatch(s[at..], p, g') ==> g'.start == g.start && g'.end <= g.end)
  }

  // ---------------------------------------------------------------------
  // Scanner and reference agree
  // ---------------------------------------------------------------------

  /** The token AltEnd finds occurs at i; when it finds none, no
      alternative occurs there. */
  lemma {:induction false} AltEndSound(s: string, i: nat, alts: seq<string>)
    ensures AltEnd(s, i, alts).Some? ==> TokenSpan(s, i, AltEnd(s, i, alts).value, alts)
    ensures AltEnd(s, i, alts).None? ==> forall w :: w in alts ==> !LitAt(s, i, w)
    decreases |alts|
  {
    if alts != [] && !LitAt(s, i, alts[0]) {
      AltEndSound(s, i, alts[1..]);
      if AltEnd(s, i, alts[1..]).Some? {
        var w :| w in alts[1..] && LitAt(s, i, w) && AltEnd(s, i, alts).value == i + |w|;
        assert w in alts;
      } else {
        forall w | w in alts ensures !LitAt(s, i, w) {
          if w != alts[0] {
            var q :| 0 <= q < |alts| && alts[q] == w;
            assert alts[1..][q - 1] == w;
          }
        }
      }
    }
  }

  /** The label LabelEnd finds occurs at i. */
  lemma {:induction false} LabelEndSound(s: string, i: nat, toks: seq<seq<string>>)
    requires i <= |s| && LabelEnd(s, i, toks).Some?
    ensures LabelSpan(s, i, LabelEnd(s, i, toks).value, toks)
    decreases |toks|
  {
    AltEndSound(s, i, toks[0]);
    var m := AltEnd(s, i, toks[0]).value;
    if |toks| > 1 {
      var n := SkipSpaces(s, m);
      LabelEndSound(s, n, toks[1..]);
      assert TokenSpan(s, i, m, toks[0]) && Spaces(s, m, n);
    }
  }

  /** What SepEnd skips is spaces with at most one separator. */
  lemma SepEndSound(s: string, i: nat)
    requires i <= |s|
    ensures SepSpan(s, i, SepEnd(s, i))
  {
    var k := SkipSpaces(s, i);
    assert Spaces(s, i, k);
    if k < |s| && IsSep(s[k]) {
      assert Spaces(s, k + 1, SkipSpaces(s, k + 1));
    } else {
      assert Spaces(s, k, k);
    }
  }

  /** Whatever MatchFrom finds is a match of the label from j followed by the
      rest of the pattern. */
  lemma MatchFromSound(t: string, p: ScorePattern, j: nat)
    requires j <= |t| && MatchFrom(t, p, j).Some?
    ensures var g := MatchFrom(t, p, j).value;
      && (exists e :: LabelSpan(t, j, e, p.tokens) && SepSpan(t, e, g.start))
      && GroupSpan(t, g.start, g.end)
      && (!p.percent || PercentSpan(t, g.end))
  {
    var e := LabelEnd(t, j, p.tokens).value;
    var g := MatchFrom(t, p, j).value;
    LabelEndSound(t, j, p.tokens);
    SepEndSound(t, e);
    assert g.start == SepEnd(t, e);
    if p.percent {
      assert Spaces(t, g.end, SkipSpaces(t, g.end));
    }
  }

  /** Scanner soundness: whatever MatchAt finds is a match of the pattern. */
  lemma MatchAtSound(t: string, p: ScorePattern)
    requires MatchAt(t, p).Some?
    ensures PatternMatch(t, p, MatchAt(t, p).value)
  {
    var g := MatchAt(t, p).value;
    if p.prefix.Some? && LitAt(t, 0, p.prefix.value) && MatchFrom(t, p, SkipSpaces(t, |p.prefix.value|)).Some? {
      var m := SkipSpaces(t, |p.prefix.value|);
      MatchFromSound(t, p, m);
      assert Spaces(t, |p.prefix.value|, m);
      var e :| LabelSpan(t, m, e, p.tokens) && SepSpan(t, e, g.start);
      assert HeadSpan(t, p, e);
    } else {
      MatchFromSound(t, p, 0);
      var e :| LabelSpan(t, 0, e, p.tokens) && SepSpan(t, e, g.start);
      assert HeadSpan(t, p, e);
    }
  }

  lemma SkipSpacesStopsAt(s: string, i: nat, j: nat)
    requires Spaces(s, i, j) && j < |s| && !IsSpace(s[j])
    ensures SkipSpaces(s, i) == j
  {
  }

  /** A token occurring at a position is found by AltEnd. */
  lemma {:induction false} AltEndComplete(s: string, i: nat, alts: seq<string>, w: string)
    requires WellFormedToken(alts) && w in alts && LitAt(s, i, w)
    ensures AltEnd(s, i, alts) == Some(i + |w|)
    decreases |alts|
  {
    var q :| 0 <= q < |alts| && alts[q] == w;
    if LitAt(s, i, alts[0]) {
      if q != 0 {
        FoldEqUnique(s[i], alts[0][0], w[0]);
        assert false;
      }
    } else {
      assert q != 0;
      assert alts[1..][q - 1] == w;
      AltEndComplete(s, i, alts[1..], w);
    }
  }

  /** A token starts with one of its alternatives, a pattern literal. */
  lemma TokenSpanStart(s: string, a: nat, m: nat, alts: seq<string>)
    requires WellFormedToken(alts) && TokenSpan(s, a, m, alts)
    ensures a < |s| && !IsSpace(s[a]) && !IsDigit(s[a])
    ensures exists q :: 0 <= q < |alts| && FoldEq(s[a], alts[q][0])
  {
    var w :| w in alts && LitAt(s, a, w) && m == a + |w|;
    var q :| 0 <= q < |alts| && alts[q] == w;
    assert FoldEq(s[a + 0], w[0]);
    PatternCharIsPlain(s[a], w[0]);
  }

  /** A label starts with its first token. */
  lemma LabelSpanStart(s: string, a: nat, b: nat, toks: seq<seq<string>>)
    requires WellFormedLabel(toks) && LabelSpan(s, a, b, toks)
    ensures a < |s| && !IsSpace(s[a]) && !IsDigit(s[a])
    ensures exists q :: 0 <= q < |toks[0]| && FoldEq(s[a], toks[0][q][0])
  {
    assert WellFormedToken(toks[0]);
    if |toks| == 1 {
      TokenSpanStart(s, a, b, toks[0]);
    } else {
      var m, n :| TokenSpan(s, a, m, toks[0]) && Spaces(s, m, n) && LabelSpan(s, n, b, toks[1..]);
      TokenSpanStart(s, a, m, toks[0]);
    }
  }

  /** A token occurring at a position is found by AltEnd, with the same end. */
  lemma TokenEndComplete(s: string, a: nat, m: nat, alts: seq<string>)
    requires WellFormedToken(alts) && TokenSpan(s, a, m, alts)
    ensures AltEnd(s, a, alts) == Some(m)
  {
    var w :| w in alts && LitAt(s, a, w) && m == a + |w|;
    AltEndComplete(s, a, alts, w);
  }

  /** The spaces between two tokens are exactly what SkipSpaces skips. */
  lemma GapComplete(s: string, m: nat, n: nat, b: nat, toks: seq<seq<string>>)
    requires Spaces(s, m, n) && WellFormedLabel(toks) && LabelSpan(s, n, b, toks)
    ensures SkipSpaces(s, m) == n
  {
    LabelSpanStart(s, n, b, toks);
    SkipSpacesStopsAt(s, m, n);
  }

  /** A label occurring at a position is found by LabelEnd, with the same end. */
  lemma {:induction false} LabelEndComplete(s: string, a: nat, b: nat, toks: seq<seq<string>>)
    requires a <= |s| && WellFormedLabel(toks) && LabelSpan(s, a, b, toks)
    ensures LabelEnd(s, a, toks) == Some(b)
    decreases |toks|
  {
    assert WellFormedToken(toks[0]);
    if |toks| == 1 {
      TokenEndComplete(s, a, b, toks[0]);
    } else {
      var m, n :| TokenSpan(s, a, m, toks[0]) && Spaces(s, m, n) && LabelSpan(s, n, b, toks[1..]);
      TokenEndComplete(s, a, m, toks[0]);
      WellFormedTail(toks);
      GapComplete(s, m, n, b, toks[1..]);
      LabelEndComplete(s, n, b, toks[1..]);
      LabelEndStep(s, a, m, toks);
    }
  }

  /** LabelEnd past the first token. */
  lemma LabelEndStep(s: string, a: nat, m: nat, toks: seq<seq<string>>)
    requires a <= |s| && |toks| > 1 && AltEnd(s, a, toks[0]) == Some(m)
    ensures LabelEnd(s, a, toks) == LabelEnd(s, SkipSpaces(s, m), toks[1..])
  {
  }

  /** The separator part ending just before a digit is the one SepEnd finds. */
  lemma SepEndComplete(s: string, e: nat, ds: nat)
    requires e <= |s| && SepSpan(s, e, ds) && ds < |s| && IsDigit(s[ds])
    ensures SepEnd(s, e) == ds
  {
    var x: nat, y: nat :| Spaces(s, e, x) && (y == x || (y == x + 1 && x < |s| && IsSep(s[x]))) && Spaces(s, y, ds);
    if y == x {
      assert Spaces(s, e, ds);
      SkipSpacesStopsAt(s, e, ds);
    } else {
      SkipSpacesStopsAt(s, e, x);
      SkipSpacesStopsAt(s, x + 1, ds);
    }
  }

  /** A `\d{1,3}` group ends no later than the greedy run of digits. */
  lemma GroupWithinRun(t: string, ds: nat, de: nat)
    requires GroupSpan(t, ds, de)
    ensures de <= ds + DigitRun(t, ds, 3)
  {
  }

  /** A group followed by the percentage suffix is the whole greedy run of
      digits, and the suffix is where the scanner looks for it. */
  lemma GroupBeforePercent(t: string, ds: nat, de: nat)
    requires GroupSpan(t, ds, de) && PercentSpan(t, de)
    ensures de == ds + DigitRun(t, ds, 3)
    ensures PercentAt(t, SkipSpaces(t, de))
  {
    var b: nat :| Spaces(t, de, b) && PercentAt(t, b);
    if LitAt(t, b, "%") {
      assert FoldEq(t[b + 0], "%"[0]);
      PatternCharIsPlain(t[b], '%');
    } else {
      assert FoldEq(t[b + 0], "percent"[0]);
      PatternCharIsPlain(t[b], 'p');
    }
    SkipSpacesStopsAt(t, de, b);
    GroupWithinRun(t, ds, de);
  }

  /** Any match with its label starting at j is found by MatchFrom, with the
      group at the same place and at least as long; with the percentage
      suffix it is the same group. */
  lemma MatchFromComplete(t: string, p: ScorePattern, j: nat, e: nat, g: Group)
    requires WellFormed(p)
    requires j <= |t| && LabelSpan(t, j, e, p.tokens) && SepSpan(t, e, g.start)
    requires GroupSpan(t, g.start, g.end)
    requires !p.percent || PercentSpan(t, g.end)
    ensures MatchFrom(t, p, j).Some?
    ensures MatchFrom(t, p, j).value.start == g.start && g.end <= MatchFrom(t, p, j).value.end
    ensures p.percent ==> MatchFrom(t, p, j) == Some(g)
  {
    assert LabelEnd(t, j, p.tokens) == Some(e) by {
      LabelEndComplete(t, j, e, p.tokens);
    }
    assert SepEnd(t, e) == g.start by {
      SepEndComplete(t, e, g.start);
    }
    assert g.end <= g.start + DigitRun(t, g.start, 3) by {
      GroupWithinRun(t, g.start, g.end);
    }
    assert p.percent ==> g.end == g.start + DigitRun(t, g.start, 3) && PercentAt(t, SkipSpaces(t, g.end)) by {
      if p.percent {
        GroupBeforePercent(t, g.start, g.end);
      }
    }
    MatchFromFound(t, p, j, e, g);
  }

  /** MatchFrom once its label, separator and digits are known. */
  lemma MatchFromFound(t: string, p: ScorePattern, j: nat, e: nat, g: Group)
    requires j <= |t| && LabelEnd(t, j, p.tokens) == Some(e) && SepEnd(t, e) == g.start
    requires g.start < g.end <= g.start + DigitRun(t, g.start, 3)
    requires p.percent ==> g.end == g.start + DigitRun(t, g.start, 3) && PercentAt(t, SkipSpaces(t, g.end))
    ensures MatchFrom(t, p, j).Some?
    ensures MatchFrom(t, p, j).value.start == g.start && g.end <= MatchFrom(t, p, j).value.end
    ensures p.percent ==> MatchFrom(t, p, j) == Some(g)
  {
    var n := DigitRun(t, g.start, 3);
    assert n > 0;
    if p.percent {
      assert g == Group(g.start, g.start + n);
    }
  }

  /** Scanner completeness: whenever the pattern can match at the start of t,
      MatchAt finds a match there, with the group at the same place and at
      least as long (the same group, with the percentage suffix). */
  lemma MatchAtComplete(t: string, p: ScorePattern, g: Group)
    requires WellFormed(p) && PatternMatch(t, p, g)
    ensures MatchAt(t, p).Some?
    ensures MatchAt(t, p).value.start == g.start && g.end <= MatchAt(t, p).value.end
    ensures p.percent ==> MatchAt(t, p) == Some(g)
  {
    var e :| HeadSpan(t, p, e) && SepSpan(t, e, g.start);
    if LabelSpan(t, 0, e, p.tokens) {
      MatchFromComplete(t, p, 0, e, g);
      if p.prefix.Some? && LitAt(t, 0, p.prefix.value) {
        LabelSpanStart(t, 0, e, p.tokens);
        var q :| 0 <= q < |p.tokens[0]| && FoldEq(t[0], p.tokens[0][q][0]);
        assert FoldEq(t[0 + 0], p.prefix.value[0]);
        FoldEqUnique(t[0], p.prefix.value[0], p.tokens[0][q][0]);
        assert false;
      }
    } else {
      var m :| Spaces(t, |p.prefix.value|, m) && LabelSpan(t, m, e, p.tokens);
      LabelSpanStart(t, m, e, p.tokens);
      SkipSpacesStopsAt(t, |p.prefix.value|, m);
      MatchFromComplete(t, p, m, e, g);
    }
  }

  /** Python's choice at one start position: every possible match there has
      its group at the place MatchAt's has, and no longer. */
  lemma MatchAtIsLongest(t: string, p: ScorePattern)
    requires WellFormed(p) && MatchAt(t, p).Some?
    ensures forall g :: PatternMatch(t, p, g) ==> g.start == MatchAt(t, p).value.start && g.end <= MatchAt(t, p).value.end
  {
    forall g | PatternMatch(t, p, g)
      ensures g.start == MatchAt(t, p).value.start && g.end <= MatchAt(t, p).value.end
    {
      MatchAtComplete(t, p, g);
    }
  }

  /** No match at a start position means the pattern cannot match there. */
  lemma NoMatchAt(t: string, p: ScorePattern)
    requires WellFormed(p) && MatchAt(t, p).None?
    ensures forall g :: !PatternMatch(t, p, g)
  {
    forall g | PatternMatch(t, p, g) ensures false {
      MatchAtComplete(t, p, g);
    }
  }

  /** SearchFrom skips exactly the start positions where nothing matches. */
  lemma {:induction false} SearchFromSkips(s: string, p: ScorePattern, i: nat)
    requires i <= |s|
    ensures SearchFrom(s, p, i).Some? ==>
      forall j {:trigger MatchAt(s[j..], p)} :: i <= j < SearchFrom(s, p, i).value.at ==> MatchAt(s[j..], p).None?
    ensures SearchFrom(s, p, i).None? ==>
      forall j {:trigger MatchAt(s[j..], p)} :: i <= j <= |s| ==> MatchAt(s[j..], p).None?
    decreases |s| - i
  {
    var here := MatchAt(s[i..], p);
    if here.None? && i < |s| {
      var r := SearchFrom(s, p, i);
      assert r == SearchFrom(s, p, i + 1);
      SearchFromSkips(s, p, i + 1);
      if r.Some? {
        forall j | i <= j < r.value.at ensures MatchAt(s[j..], p).None? {
          if j == i {
            assert MatchAt(s[j..], p) == here;
          }
        }
      } else {
        forall j | i <= j <= |s| ensures MatchAt(s[j..], p).None? {
          if j == i {
            assert MatchAt(s[j..], p) == here;
          }
        }
      }
    }
  }

  /** The search result is exactly `re.search`'s: the leftmost start at which
      the pattern can match, with Python's group there; and the search finds
      nothing exactly when the pattern can match nowhere in s. */
  lemma SearchIsLeftmost(s: string, p: ScorePattern)
    requires WellFormed(p)
    ensures SearchFrom(s, p, 0).Some? ==>
      Leftmost(s, p, SearchFrom(s, p, 0).value.at, SearchFrom(s, p, 0).value.group)
    ensures SearchFrom(s, p, 0).None? <==>
      forall j, g :: 0 <= j <= |s| ==> !PatternMatch(s[j..], p, g)
  {
    SearchFromSkips(s, p, 0);
    match SearchFrom(s, p, 0)
    case Some(m) =>
      MatchAtSound(s[m.at..], p);
      forall j, g' | 0 <= j < m.at ensures !PatternMatch(s[j..], p, g') {
        NoMatchAt(s[j..], p);
      }
      MatchAtIsLongest(s[m.at..], p);
    case None =>
      forall j, g | 0 <= j <= |s| ensures !PatternMatch(s[j..], p, g) {
        NoMatchAt(s[j..], p);
      }
  }

  /** Two leftmost matches are the same match. */
  lemma LeftmostUnique(s: string, p: ScorePattern, at1: nat, g1: Group, at2: nat, g2: Group)
    requires Leftmost(s, p, at1, g1) && Leftmost(s, p, at2, g2)
    ensures at1 == at2 && g1 == g2
  {
  }
}
