/**
 The check the analyze endpoint makes on the resume text before it builds
 the prompt.  PDF extraction reports a failure in-band, as a text that
 starts with "Error reading PDF: ", and the endpoint answers 400 with the
 text as its error whenever the text contains "Error" anywhere (a
 case-sensitive substring test).  A resume that was read correctly and
 happens to contain the word is therefore rejected as well.
 */
module ResumeScreen {
  import opened Wrappers
  import opened Chars
  import ListCleaner

  const ErrorWord: string := "Error"
  const ReadFailurePrefix: string := "Error reading PDF: "

  /** Whether sub occurs in s at position i. */
  predicate OccursAt(sub: string, s: string, i: nat) {
    i + |sub| <= |s| && s[i..i + |sub|] == sub
  }

  /** Python's `sub in s` on strings. */
  predicate Occurs(sub: string, s: string) {
    exists i: nat | i <= |s| :: OccursAt(sub, s, i)
  }

  /** What the PDF reader produced: the text of its pages, or the message
      of the exception it raised. */
  datatype Extraction = Read(pagesText: string) | Failed(message: string)

  /** The string the extraction step hands back: the page text with the
      surrounding whitespace stripped, or the failure message behind its
      fixed prefix. */
  function ExtractedText(e: Extraction): string {
    match e
    case Read(t) => ListCleaner.StripBy(t, ListCleaner.Whitespace)
    case Failed(m) => ReadFailurePrefix + m
  }

  /** The endpoint's answer at this point: 400 with the text as the error,
      or on to the prompt with the text. */
  datatype Screening = Rejected(error: string) | Accepted(resumeText: string)

  /** The status code the check itself decides: 400 for a rejection.  An
      accepted text goes on to the model call and the parser, and the status
      is settled there (200, or 500 when anything raises). */
  function Status(s: Screening): Option<nat> {
    match s
    case Rejected(_) => Some(400)
    case Accepted(_) => None
  }

  /** The check as the endpoint makes it: on the text alone. */
  function Screen(resumeText: string): (r: Screening)
    ensures r.Rejected? ==> r.error == resumeText
    ensures r.Accepted? ==> r.resumeText == resumeText
  {
    if Occurs(ErrorWord, resumeText) then Rejected(resumeText) else Accepted(resumeText)
  }

  /** The text is rejected exactly when it can be written as some text,
      then "Error", then some text. */
  lemma ScreenRejectsErrorWord(t: string)
    ensures Screen(t).Rejected? <==> exists u, v :: t == u + ErrorWord + v
  {
    if Screen(t).Rejected? {
      var i: nat :| i <= |t| && OccursAt(ErrorWord, t, i);
      assert t == t[..i] + ErrorWord + t[i + 5..];
    }
    if exists u, v :: t == u + ErrorWord + v {
      var u, v :| t == u + ErrorWord + v;
      assert t[|u|..|u| + 5] == ErrorWord;
      assert OccursAt(ErrorWord, t, |u|);
    }
  }

  /** Every failed extraction is answered with 400 and its own message. */
  lemma FailedReadIsRejected(m: string)
    ensures Screen(ExtractedText(Failed(m))) == Rejected(ReadFailurePrefix + m)
    ensures Status(Screen(ExtractedText(Failed(m)))) == Some(400)
  {
    var t := ReadFailurePrefix + m;
    assert t[0..5] == ErrorWord;
    assert OccursAt(ErrorWord, t, 0);
  }

  /** Stripping whitespace keeps every occurrence of "Error", since the
      word holds no whitespace. */
  lemma StripKeepsErrorWord(t: string, i: nat)
    requires i + 5 <= |t| && t[i..i + 5] == ErrorWord
    ensures Occurs(ErrorWord, ListCleaner.StripBy(t, ListCleaner.Whitespace))
  {
    var r := ListCleaner.StripBy(t, ListCleaner.Whitespace);
    var a := ListCleaner.KeptFrom(t, 0, ListCleaner.Whitespace);
    var b := ListCleaner.KeptUntil(t, a, |t|, ListCleaner.Whitespace);
    assert r == t[a..b];
    assert t[i..i + 5][0] == t[i] && t[i..i + 5][4] == t[i + 4];
    assert !IsSpace(t[i]) && !IsSpace(t[i + 4]);
    assert a <= i && i + 5 <= b;
    forall k | 0 <= k < 5 ensures r[i - a + k] == ErrorWord[k] {
      assert t[i..i + 5][k] == t[i + k];
    }
    assert r[i - a..i - a + 5] == ErrorWord;
    assert OccursAt(ErrorWord, r, i - a);
  }

  /** The misclassification: a resume that was read correctly but mentions
      "Error" anywhere is rejected as if the reader had failed. */
  lemma ReadResumeWithErrorWordIsRejected(u: string, v: string)
    ensures Screen(ExtractedText(Read(u + ErrorWord + v))).Rejected?
  {
    var t := u + ErrorWord + v;
    assert t[|u|..|u| + 5] == ErrorWord;
    StripKeepsErrorWord(t, |u|);
  }

  /** The test is case-sensitive: a text with no capital E is never
      rejected, whatever spelling of "error" it holds. */
  lemma NoCapitalEIsAccepted(t: string)
    requires forall k :: 0 <= k < |t| ==> t[k] != 'E'
    ensures Screen(t) == Accepted(t)
  {
    forall i: nat | i + 5 <= |t| ensures !OccursAt(ErrorWord, t, i) {
      assert t[i..i + 5][0] == t[i];
    }
  }

  /** The check on the extraction's outcome rather than on its text: only
      a failed read is rejected. */
  function ScreenExtraction(e: Extraction): (r: Screening)
    ensures r.Rejected? ==> r.error == ExtractedText(e)
    ensures r.Accepted? ==> r.resumeText == ExtractedText(e)
  {
    match e
    case Failed(_) => Rejected(ExtractedText(e))
    case Read(_) => Accepted(ExtractedText(e))
  }

  /** The outcome-based check rejects exactly the failed reads, and agrees
      with the text-based one on every outcome whose text lacks "Error". */
  lemma ScreenExtractionRejectsOnlyFailures(e: Extraction)
    ensures ScreenExtraction(e).Rejected? <==> e.Failed?
    ensures e.Failed? ==> ScreenExtraction(e) == Screen(ExtractedText(e))
    ensures !Occurs(ErrorWord, ExtractedText(e)) ==> ScreenExtraction(e) == Screen(ExtractedText(e))
  {
    if e.Failed? {
      FailedReadIsRejected(e.message);
    }
  }
}
