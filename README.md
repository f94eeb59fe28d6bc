# JobFit ATS API — reply parser, list cleaner and resume check

This project models the part of the JobFit ATS API that turns a language
model's free-text evaluation of a resume into numbers, together with the two
small text operations around it:

- **The reply parser** (`parse_ai_response`). Five case-insensitive regular
  expressions each look for one score label in the model's reply: the overall
  ATS score, keyword match, skill match, experience-and-education match and
  formatting quality. The parser takes group 1 of each pattern's leftmost
  match, a run of one to three digits. It keeps that value when it lies in
  [0, 100] and gives 0 otherwise. A missing match also gives 0. The result is
  a map with exactly five keys.
- **The list cleaner** (`clean_list`). It splits a block of text at newlines,
  commas and hyphens (a hyphen takes the whitespace around it with it). It
  drops the pieces that are blank. It strips bullet characters and then
  whitespace from the rest.
- **The resume check** in the analyze endpoint. Text extraction reports a
  failure in-band as a string that starts with `Error reading PDF: `. The
  endpoint answers 400 whenever the extracted text contains `Error`
  anywhere.

Each regular expression is modelled twice:

- a deterministic scanner (`ScorePatterns.MatchAt`, `Search`). It is written
  the way Python's backtracking matcher resolves these patterns: leftmost
  start, greedy `\s*` and `\d{1,3}`, alternatives tried in order;
- a declarative reference (`ScorePatterns.PatternMatch`, `Leftmost`). This
  says only which spans the pattern allows.

Soundness and completeness lemmas connect the two. The general properties
of the parser (`ReplyParser.ScoreOfLeftmost`, `MissingFieldIsZero`,
`ScoreComesFromMatch`, `BareNumbersScoreZero`) are stated against the
reference. The sample replies and the template round trip are stated on the
scanner and the parser's result, which the same lemmas tie to the reference.
The regex split in the list cleaner and `str.strip` are modelled in the same
way:

- scanners `ListCleaner.Pieces` and `StripBy`;
- references `IsSeparator`, `Rejoin` and `StrippedOf`.

Case-insensitive matching follows Python's Unicode case folding for the
letters that occur in the patterns. For example, `k` also matches the Kelvin
sign and `i` also matches dotted capital I and dotless i. `\s` and
`str.strip()` use the set of characters for which `str.isspace()` holds.

A few points of the code's behaviour are easy to miss, and the model
follows the code on each:

- The four percentage fields need a `%` or `percent` after the number. It is
  not optional.
- A reply that merely contains `ATS Score: 87/100` scores 87 only if no other
  match of the overall-score pattern comes before it.
- The cleaned keyword lists are computed but never returned.
- `clean_list` can return an empty item, for a piece made only of bullet
  characters such as `•`.

## Model

| member | source | states |
|---|---|---|
| Chars.FoldEqUnique | ATS_API/main.py:103-107 | under IGNORECASE a text character matches at most one of the lower-case pattern letters |
| Chars.PatternCharIsPlain | ATS_API/main.py:103-107 | a character that matches a pattern letter is neither whitespace, a digit, `:` nor `-` |
| Decimal.DecimalRoundTrip | ATS_API/main.py:118 | `int()` of the decimal writing of n is n |
| Decimal.NatToDecimalLength | ATS_API/main.py:103-107 | a number has at most three decimal digits exactly when it is below 1000, the reach of `\d{1,3}` |
| ScorePatterns.PatternWellFormed | ATS_API/main.py:103-107 | the five patterns' label words are non-empty letter strings; alternatives differ in their first letter; the optional `Overall` does not start like `ATS` |
| ScorePatterns.SkipSpaces | ATS_API/main.py:103-107 | greedy `\s*`: the end it returns has only whitespace before it and is followed by a non-space or the end of the text |
| ScorePatterns.DigitRun | ATS_API/main.py:103-107 | greedy `\d{1,3}`: at most three digits, all digits, stopping short of three only at a non-digit or the end |
| ScorePatterns.AltEndSound | ATS_API/main.py:106 | the alternative among `&`, `and` and `/` that the scanner takes occurs at that position; when none is taken, none occurs |
| ScorePatterns.AltEndComplete | ATS_API/main.py:106 | any alternative that occurs at the position is the one the scanner takes |
| ScorePatterns.LabelEndSound | ATS_API/main.py:103-107 | a label end the scanner finds is a span of the label words separated by whitespace |
| ScorePatterns.LabelEndComplete | ATS_API/main.py:103-107 | every span of the label words is found by the scanner, with the same end |
| ScorePatterns.SepEndSound | ATS_API/main.py:103-107 | the scanner's `\s*[:\-]?\s*` span is one the pattern allows |
| ScorePatterns.SepEndComplete | ATS_API/main.py:103-107 | any allowed separator span that is followed by a digit ends where the scanner ends |
| ScorePatterns.GroupBeforePercent | ATS_API/main.py:104-107 | a group followed by `%`/`percent` is the whole greedy digit run, and the suffix starts after greedy `\s*` |
| ScorePatterns.MatchFromSound | ATS_API/main.py:103-107 | a match the scanner reports after the label has a label span, a separator span, a 1–3 digit group and, for percentage fields, the suffix |
| ScorePatterns.MatchAtSound | ATS_API/main.py:103-107 | every match the scanner reports at a position satisfies the reference pattern |
| ScorePatterns.MatchFromComplete | ATS_API/main.py:103-107 | whenever the reference allows a match after the label, the scanner finds one with the same group start, its group at least as long, and exactly the same group for percentage fields |
| ScorePatterns.MatchAtComplete | ATS_API/main.py:103-107 | whenever the reference pattern matches at a position, the scanner matches there, with the same group start and a group at least as long |
| ScorePatterns.MatchAtIsLongest | ATS_API/main.py:103 | the scanner's group is the longest the pattern allows at that start, as greedy `\d{1,3}` makes it in Python |
| ScorePatterns.NoMatchAt | ATS_API/main.py:103-107 | when the scanner finds no match at a position, the reference pattern has none there |
| ScorePatterns.SearchFromSkips | ATS_API/main.py:103-107 | the search passes over only positions where nothing matches |
| ScorePatterns.SearchIsLeftmost | ATS_API/main.py:103-107 | `re.search`: the search's result is the reference's leftmost match, and it finds nothing exactly when no position matches |
| ScorePatterns.LeftmostUnique | ATS_API/main.py:103-107 | the leftmost match and its group are unique |
| ScorePatterns.Search | ATS_API/main.py:103-107 | a group found is one to three digits |
| ReplyParser.SafeInt | ATS_API/main.py:116-120 | the result is in [0, 100]; a non-empty group whose value is at most 100 gives that value; a non-zero result is always the group's value, so a missing group, an empty one or one over 100 gives 0 |
| ReplyParser.SafeIntOfNumber | ATS_API/main.py:116-120 | a number at most 100 is read back as itself; a larger one gives 0, not 100 |
| ReplyParser.FieldScore | ATS_API/main.py:103-120 | every field's score is in [0, 100] |
| ReplyParser.ParseAiResponse | ATS_API/main.py:128-134 | the result has exactly the five keys; each is bound to its field's score; every value is in [0, 100] |
| ReplyParser.ScoreMap | ATS_API/main.py:128-134 | the result map's keys are exactly the five score keys, each bound to its own score |
| ReplyParser.ScoreOfLeftmost | ATS_API/main.py:103-120 | a field's score is the value of the leftmost match's group when that is at most 100, otherwise 0 |
| ReplyParser.MissingFieldIsZero | ATS_API/main.py:117-120 | a field whose pattern matches nowhere scores 0 |
| ReplyParser.ScoreComesFromMatch | ATS_API/main.py:103-120 | a non-zero score is the group value of the leftmost match, and for a percentage field that match carries the suffix |
| ReplyParser.NoPercentWithoutMark | ATS_API/main.py:104-107 | without a `%` or a letter p after the digits, the percentage suffix cannot follow |
| ReplyParser.BareNumbersScoreZero | ATS_API/main.py:104-107 | a reply with neither `%` nor `p`/`P` scores 0 on all four percentage fields |
| ReplyTemplate.ScoreFromSearch | ATS_API/main.py:116-120 | a search that finds the decimal writing of v gives the score v when v ≤ 100, otherwise 0 |
| ReplyTemplate.ScoreOfLine | ATS_API/main.py:103-120 | a field line after text that cannot start the label is what the search finds, read through the range check |
| ReplyTemplate.AtsField | ATS_API/main.py:42 | a reply that starts `Overall ATS Score: <v>` with v < 1000 scores v on the overall field when v ≤ 100, otherwise 0 |
| ReplyTemplate.KeywordField | ATS_API/main.py:43 | the template's keyword line with v < 1000, after any text without a letter k, scores v when v ≤ 100, otherwise 0 |
| ReplyTemplate.SkillField | ATS_API/main.py:44 | the same for the skill line, after text in which the label's `i` cannot match earlier |
| ReplyTemplate.ExpEduField | ATS_API/main.py:45 | the same for `Experience & Education Match`, after text in which its `x` cannot match earlier |
| ReplyTemplate.FormattingField | ATS_API/main.py:46 | the same for the formatting line, after text without a letter f |
| ReplyTemplate.TemplateRoundTrip | ATS_API/main.py:42-46 | rendering five scores in [0, 100] in the reply template, followed by any text, parses back to exactly those five scores |
| ReplySamples.LineSearch | ATS_API/main.py:103-107 | a label followed by `: `, one to three digits and a non-digit (or three digits and anything) is found by the search, and the digits are the group |
| ReplySamples.FourDigitsNoMatch | ATS_API/main.py:104-107 | after a percentage label, four digits in a row leave no match there |
| ReplySamples.KeywordLineNoMatch | ATS_API/main.py:104 | `Keyword Match: ` followed by four or more digits does not match |
| ReplySamples.NoMatchAnywhere | ATS_API/main.py:117-120 | a field whose scanner matches at no position scores 0 |
| ReplySamples.NoMatchFrom | ATS_API/main.py:104-107 | text without the label's first letter has no match anywhere |
| ReplySamples.TemplateReply | ATS_API/main.py:42-46 | the well-formed reply with 92, 80, 75, 60 and 90 parses to exactly those scores |
| ReplySamples.ShortOverallLabel | ATS_API/main.py:103 | `ATS Score: 87/100` gives an overall score of 87: the `Overall` prefix is optional |
| ReplySamples.OverallScoreOutOfRange | ATS_API/main.py:119 | `Overall ATS Score: 150/100` gives 0, not 100 |
| ReplySamples.FourDigitOverallScore | ATS_API/main.py:103 | `ATS Score: 1000` gives 100: `\d{1,3}` stops after three digits and the tail is optional |
| ReplySamples.FourDigitPercentage | ATS_API/main.py:104 | `Keyword Match: 1000%` gives 0: three digits must be followed by the suffix |
| ReplySamples.BarePercentage | ATS_API/main.py:104 | `Keyword Match: 80` without a suffix gives 0 |
| ReplySamples.UpperCaseLabel | ATS_API/main.py:104 | `KEYWORD MATCH: 80%` gives 80: the labels are matched in any case |
| ReplySamples.ExperienceAndEducation | ATS_API/main.py:106 | `Experience and Education Match: 60%` gives 60 |
| ReplySamples.ExperienceSlashEducation | ATS_API/main.py:106 | `Experience/Education Match: 60%` gives 60 |
| ListCleaner.SeparatorAt | ATS_API/main.py:97 | a separator found at i ends after i; a newline, comma or hyphen always starts one; at a newline or comma the first alternative wins and the separator is that one character |
| ListCleaner.SeparatorAtComplete | ATS_API/main.py:97 | wherever the separator pattern can match any text, the scanner finds a separator, including at whitespace that runs up to a hyphen |
| ListCleaner.SeparatorAtSound | ATS_API/main.py:97 | the separator found is a newline, a comma or a hyphen with only whitespace around it, and greedy `\s*` leaves no whitespace after it |
| ListCleaner.FirstCut | ATS_API/main.py:97 | `re.split` cuts at the leftmost separator: the scanner finds none before the cut it finds |
| ListCleaner.FirstCutLeftmost | ATS_API/main.py:97 | no match of the separator pattern, of any length, starts before the cut: it is the leftmost match |
| ListCleaner.PiecesRebuild | ATS_API/main.py:97 | the split has one more piece than separators, every separator is one the pattern allows, and pieces and separators rejoin to the text |
| ListCleaner.PiecesFree | ATS_API/main.py:97 | no piece holds a newline, comma or hyphen |
| ListCleaner.PiecesWithin | ATS_API/main.py:97 | every character of a piece comes from the text |
| ListCleaner.KeptFrom | ATS_API/main.py:97 | `strip` from the left: everything skipped is removable, and the character where it stops is not |
| ListCleaner.KeptUntil | ATS_API/main.py:97 | `strip` from the right: everything cut is removable, and the last character kept is not |
| ListCleaner.StripBy | ATS_API/main.py:97 | `strip` keeps a contiguous middle; everything removed before and after is removable; the kept text neither starts nor ends with a removable character |
| ListCleaner.StripWithin | ATS_API/main.py:97 | stripping only removes characters |
| ListCleaner.CleanItemShape | ATS_API/main.py:97 | a cleaned item's characters come from its piece, and it has no whitespace at either end |
| ListCleaner.CleanItemFree | ATS_API/main.py:97 | cleaning a piece without separator characters leaves none |
| ListCleaner.KeepItemsFrom | ATS_API/main.py:97 | the filter keeps at most one item per piece; every item is the cleaning of a non-blank piece |
| ListCleaner.KeepItemsExact | ATS_API/main.py:97 | the comprehension keeps exactly the non-blank pieces, cleaned and in order: as many items as non-blank pieces, and the non-blank piece at index i gives the item at the index equal to the number of non-blank pieces before it |
| ListCleaner.NonBlankPieceKept | ATS_API/main.py:97 | every non-blank piece's cleaned form is among the items |
| ListCleaner.CleanListExact | ATS_API/main.py:94-97 | for any text, the empty one included, the items are the non-blank pieces of the split, cleaned, one per piece and in order |
| ListCleaner.CleanListItems | ATS_API/main.py:94-97 | every item comes from a non-blank piece of the split; it holds no newline, comma or hyphen and has no whitespace at either end; there are no more items than pieces |
| ListCleaner.BlankTextGivesNoItems | ATS_API/main.py:95-97 | empty or all-whitespace text gives no items |
| ListCleaner.BulletListRoundTrip | ATS_API/main.py:48-50 | a `- <item>` list, one item per line, cleans back to exactly its items when each is non-empty, trimmed and free of separators and bullets |
| ListCleaner.LoneBulletGivesEmptyItem | ATS_API/main.py:97 | a piece made only of `•` is not blank, so it is kept and cleans to an empty item |
| ListCleaner.CommaListItems | ATS_API/main.py:97 | `Python,SQL` cleans to the two items `Python` and `SQL` |
| ListCleaner.HyphenSplitsWord | ATS_API/main.py:97 | a hyphenated keyword such as `front-end` is split into two items |
| ResumeScreen.Screen | ATS_API/main.py:153-154 | a rejection carries the text as its error; an acceptance passes the text on |
| ResumeScreen.ScreenRejectsErrorWord | ATS_API/main.py:153 | the text is rejected exactly when `Error` occurs in it |
| ResumeScreen.FailedReadIsRejected | ATS_API/main.py:35 | every failed extraction is answered with 400 and its prefixed message |
| ResumeScreen.StripKeepsErrorWord | ATS_API/main.py:33 | stripping the page text keeps any occurrence of `Error` |
| ResumeScreen.NoCapitalEIsAccepted | ATS_API/main.py:153 | the test is case-sensitive: text without a capital E is accepted |
| ResumeScreen.ReadResumeWithErrorWordIsRejected | ATS_API/main.py:153-154 | a resume that was read correctly but mentions `Error` is rejected like a failed read |
| ResumeScreen.ScreenExtraction | ATS_API/main.py:153-154 | the outcome-based check: its answer carries the extracted text |
| ResumeScreen.ScreenExtractionRejectsOnlyFailures | ATS_API/main.py:153-154 | the outcome-based check rejects exactly the failed reads, and agrees with the text check on every failed read and on every text without `Error` |

## Left out

- PDF extraction (`extract_text_from_pdf`, ATS_API/main.py:25-35): the page loop and the PDF library are not modelled. Its outcome is an input of type `ResumeScreen.Extraction`: the page text, or the exception's message.
- The call to the language model (ATS_API/main.py:70-85) and the client setup (ATS_API/main.py:19-22) are not modelled. They are network I/O, and the reply is an input of the parser.
- The web application (ATS_API/main.py:9-17, 136-171) is not modelled. This covers the CORS set-up, the `/ping` and `/` endpoints, form handling, building and sending the response, and the 500 answer to an exception. Only the 400 check at lines 153-154 is modelled.
- `build_prompt` (ATS_API/main.py:38-67) is used only as the format of a well-formed reply, through `ReplyTemplate.RenderScores` and `ListCleaner.BulletList`.
- The debug `print` calls (ATS_API/main.py:100, 110-114) are not modelled; they have no effect on the result.
- `extract_block` (ATS_API/main.py:89-92) and the four blocks it extracts (ATS_API/main.py:123-126) are not modelled. Their values never reach the result. `clean_list` is modelled on any text block instead.
- ScorePatterns.DigitRun: treats only ASCII 0-9 as digits. Python's `\d` on a text pattern also matches other Unicode decimal digits, and `int()` reads them.
- ScorePatterns.MatchAtIsLongest: the overall-score pattern's optional `/\d{1,3}` tail is not part of the reference pattern. It comes after group 1 and is optional, so it never changes whether the pattern matches or what the group holds.
- Chars.FoldEqUnique: case folding is modelled only for the letters that occur in the five patterns, and not as Python's full case-insensitive comparison.

## Findings

| source | as written | input that shows it | evidently intended | confidence | as-written member | corrected member |
|---|---|---|---|---|---|---|
| ATS_API/main.py:153-154 | any extracted text containing `Error` is answered with 400, as if reading the PDF had failed | a resume that was read correctly and mentions `Reduced Error rates by 30%` | reject only a failed extraction, whose text starts with `Error reading PDF: ` | high; not executed | `ResumeScreen.ReadResumeWithErrorWordIsRejected` | `ResumeScreen.ScreenExtractionRejectsOnlyFailures` |
