/**
 The reply parser: the five scores read from the model's reply.  Each score
 is group 1 of its pattern's leftmost match, read as a decimal number and
 kept only when it lies in [0, 100]; a missing match or an out-of-range
 number gives 0.  The keyword, tip and feedback blocks the parser also
 extracts are never part of its result, so they do not appear here.
 */
module ReplyParser {
  import opened Wrappers
  import opened Chars
  import opened Decimal
  import opened ScorePatterns

  /** The key under which each score is returned. */
  function Key(f: Field): string {
    match f
    case AtsScore => "ATS Score"
    case KeywordMatch => "Keyword Match"
    case SkillMatch => "Skill Match"
    case ExperienceEducationMatch => "Experience and Education Match"
    case FormattingQuality => "Formatting Quality"
  }

  const ScoreKeys: set<string> :=
    {"ATS Score", "Keyword Match", "Skill Match", "Experience and Education Match", "Formatting Quality"}

  /** The range check on a captured group: a non-empty group whose decimal
      value lies in [0, 100] gives that value; anything else gives 0, never
      a clamped value. */
  function SafeInt(group: Option<string>): (r: nat)
    requires group.Some? ==> AllDigits(group.value)
    ensures r <= 100
    ensures r > 0 ==> group.Some? && DecimalValue(group.value) == r
    ensures group.Some? && |group.value| > 0 && DecimalValue(group.value) <= 100 ==> r == DecimalValue(group.value)
  {
    match group
    case None => 0
    case Some(d) =>
      if |d| == 0 then 0
      else
        var v := DecimalValue(d);
        if v <= 100 then v else 0
  }

  /** The score of one field of the reply. */
  function FieldScore(text: string, f: Field): (r: nat)
    ensures r <= 100
  {
    SafeInt(Search(text, PatternOf(f)))
  }

  /** The parser's result: exactly the five score keys, each bound to its
      field's score. */
  function ParseAiResponse(text: string): (r: map<string, nat>)
    ensures r.Keys == ScoreKeys
    ensures forall f: Field :: Key(f) in r && r[Key(f)] == FieldScore(text, f)
    ensures forall k :: k in r ==> r[k] <= 100
  {
    FieldsInMap(text);
    ScoreMap(FieldScore(text, AtsScore), FieldScore(text, KeywordMatch), FieldScore(text, SkillMatch),
             FieldScore(text, ExperienceEducationMatch), FieldScore(text, FormattingQuality))
  }

  lemma FieldsInMap(text: string)
    ensures var r := ScoreMap(FieldScore(text, AtsScore), FieldScore(text, KeywordMatch), FieldScore(text, SkillMatch),
                              FieldScore(text, ExperienceEducationMatch), FieldScore(text, FormattingQuality));
      forall f: Field :: Key(f) in r && r[Key(f)] == FieldScore(text, f)
  {
    var r := ScoreMap(FieldScore(text, AtsScore), FieldScore(text, KeywordMatch), FieldScore(text, SkillMatch),
                      FieldScore(text, ExperienceEducationMatch), FieldScore(text, FormattingQuality));
    forall f: Field ensures Key(f) in r && r[Key(f)] == FieldScore(text, f) {
      match f
      case AtsScore =>
      case KeywordMatch =>
      case SkillMatch =>
      case ExperienceEducationMatch =>
      case FormattingQuality =>
    }
  }

  /** The result map for five given scores. */
  function ScoreMap(ats: nat, keyword: nat, skill: nat, expEdu: nat, formatting: nat): (r: map<string, nat>)
    ensures r.Keys == ScoreKeys
    ensures r[Key(AtsScore)] == ats && r[Key(KeywordMatch)] == keyword && r[Key(SkillMatch)] == skill
    ensures r[Key(ExperienceEducationMatch)] == expEdu && r[Key(FormattingQuality)] == formatting
    ensures forall k :: k in r ==> r[k] in {ats, keyword, skill, expEdu, formatting}
  {
    map[
      Key(AtsScore) := ats,
      Key(KeywordMatch) := keyword,
      Key(SkillMatch) := skill,
      Key(ExperienceEducationMatch) := expEdu,
      Key(FormattingQuality) := formatting
    ]
  }

  /** A number in [0, 100] written in decimal is read back as itself; a
      larger one gives 0, not 100. */
  lemma SafeIntOfNumber(n: nat)
    ensures SafeInt(Some(NatToDecimal(n))) == if n <= 100 then n else 0
  {
    DecimalRoundTrip(n);
  }

  /** The value of the digits t[a..b]. */
  function GroupValue(t: string, a: nat, b: nat): nat
    requires GroupSpan(t, a, b)
  {
    DecimalValue(t[a..b])
  }

  /** A field's score is read from the leftmost match of its pattern: its
      group's value when that is at most 100, otherwise 0. */
  lemma ScoreOfLeftmost(text: string, f: Field, at: nat, g: Group)
    requires Leftmost(text, PatternOf(f), at, g)
    ensures GroupSpan(text[at..], g.start, g.end)
    ensures var v := GroupValue(text[at..], g.start, g.end);
      FieldScore(text, f) == if v <= 100 then v else 0
  {
    var p := PatternOf(f);
    PatternWellFormed(f);
    SearchIsLeftmost(text, p);
    var m := SearchFrom(text, p, 0).value;
    LeftmostUnique(text, p, at, g, m.at, m.group);
  }

  /** A field whose pattern matches nowhere in the text scores 0. */
  lemma MissingFieldIsZero(text: string, f: Field)
    requires forall j, g :: 0 <= j <= |text| ==> !PatternMatch(text[j..], PatternOf(f), g)
    ensures FieldScore(text, f) == 0
  {
    PatternWellFormed(f);
    SearchIsLeftmost(text, PatternOf(f));
  }

  /** A non-zero score is the value of the leftmost match's group, and for
      a percentage field that match has the percentage suffix. */
  lemma ScoreComesFromMatch(text: string, f: Field)
    requires FieldScore(text, f) > 0
    ensures exists at: nat, g: Group ::
      && Leftmost(text, PatternOf(f), at, g)
      && GroupValue(text[at..], g.start, g.end) == FieldScore(text, f)
      && (f != AtsScore ==> PercentSpan(text[at..], g.end))
  {
    var p := PatternOf(f);
    PatternWellFormed(f);
    SearchIsLeftmost(text, p);
    var m := SearchFrom(text, p, 0).value;
    ScoreOfLeftmost(text, f, m.at, m.group);
  }

  /** Where neither '%' nor a letter p follows position a, the percentage
      suffix cannot follow a. */
  lemma NoPercentWithoutMark(t: string, a: nat)
    requires forall k :: a <= k < |t| ==> t[k] !in {'%', 'p', 'P'}
    ensures !PercentSpan(t, a)
  {
    forall b: nat | Spaces(t, a, b) ensures !PercentAt(t, b) {
      if b < |t| {
        assert !FoldEq(t[b + 0], "%"[0]) && !FoldEq(t[b + 0], "percent"[0]);
      }
    }
  }

  /** The four percentage fields need the suffix: a text with neither '%'
      nor the letter p scores 0 on all of them, whatever numbers it holds. */
  lemma BareNumbersScoreZero(text: string, f: Field)
    requires f != AtsScore
    requires forall k :: 0 <= k < |text| ==> text[k] !in {'%', 'p', 'P'}
    ensures FieldScore(text, f) == 0
  {
    forall j, g | 0 <= j <= |text| ensures !PatternMatch(text[j..], PatternOf(f), g) {
      forall k | g.end <= k < |text[j..]| ensures text[j..][k] !in {'%', 'p', 'P'} {
        assert text[j..][k] == text[j + k];
      }
      NoPercentWithoutMark(text[j..], g.end);
    }
    MissingFieldIsZero(text, f);
  }
}
