/**
 * The response handling of `analyze_cv`: how the chat model's reply becomes a
 * (score, feedback) pair, with its fixed fallbacks. The request itself is not
 * modelled; its outcome is an input (`ApiCall`), and so is Python's `float()`
 * (`parseFloat`, which gives `None` where `float()` raises `ValueError`).
 */
module OpenAiAnalysis {
  import opened Wrappers
  import opened Text

  /** What the chat-completion request gave back: the reply text, or the message of the exception it raised. */
  datatype ApiCall = Replied(content: string) | Raised(message: string)

  /** `(score, feedback)` as `analyze_cv` returns it. */
  datatype Analysis = Analysis(score: real, feedback: string)

  const MockScore: real := 7.5
  const MockFeedback: string :=
    "This is mock feedback for your CV. In production, we would use OpenAI's API to provide detailed analysis of your resume."
  const DefaultScore: real := 5.0
  const ErrorScore: real := 0.0
  const ErrorPrefix: string := "Error analyzing CV: "
  const ScoreMarker: string := "SCORE:"
  const FeedbackMarker: string := "FEEDBACK:"

  /** `settings.openai_api_key` is truthy: present and non-empty. */
  predicate HasKey(apiKey: Option<string>) {
    apiKey.Some? && apiKey.value != ""
  }

  /** The first line of the reply that begins with `SCORE:`, if any. */
  function ScoreLine(text: string): (r: Option<string>)
    ensures r.Some? ==> StartsWith(r.value, ScoreMarker) && '\n' !in r.value
    ensures r.None? ==> forall k :: 0 <= k < |Split(text, '\n')| ==> !StartsWith(Split(text, '\n')[k], ScoreMarker)
  {
    var lines := Split(text, '\n');
    match FirstWithPrefix(lines, ScoreMarker)
    case None => None
    case Some(k) => Some(lines[k])
  }

  /** The score line is the first line of the reply, in order, that begins with `SCORE:`. */
  lemma ScoreLineFirst(text: string) returns (k: nat)
    requires ScoreLine(text).Some?
    ensures k < |Split(text, '\n')| && ScoreLine(text).value == Split(text, '\n')[k]
    ensures forall j :: 0 <= j < k ==> !StartsWith(Split(text, '\n')[j], ScoreMarker)
  {
    k := FirstWithPrefix(Split(text, '\n'), ScoreMarker).value;
  }

  /** `score_line.replace('SCORE:', '').strip()`: the text handed to `float()`. */
  function ScoreText(line: string): (r: string)
    ensures IsStripped(r) && |r| <= |line|
  {
    var removed := ReplaceAll(line, ScoreMarker, "");
    RemoveAllNoLonger(line, ScoreMarker);
    Strip(removed)
  }

  /** The feedback kept alongside a parsed score. */
  function FeedbackOf(text: string, line: string): (r: string)
    requires line != []
    ensures IsStripped(r)
  {
    match Find(text, FeedbackMarker)
    case Some(i) => Strip(text[i + |FeedbackMarker|..])
    case None => Strip(ReplaceAll(text, line, ""))
  }

  /**
   * Parsing a reply never fails: without a score line, or with one `float()` rejects,
   * the result is the default score with the whole reply as feedback. Otherwise the score
   * is exactly the parsed number (no range check) and the feedback is the one
   * `FeedbackOf` picks (see ReplyFeedback).
   */
  function ParseReply(text: string, parseFloat: string -> Option<real>): (r: Analysis)
    ensures ScoreLine(text).None? ==> r == Analysis(DefaultScore, text)
    ensures ScoreLine(text).Some? && parseFloat(ScoreText(ScoreLine(text).value)).None? ==>
              r == Analysis(DefaultScore, text)
    ensures ScoreLine(text).Some? && parseFloat(ScoreText(ScoreLine(text).value)).Some? ==>
              && r.score == parseFloat(ScoreText(ScoreLine(text).value)).value
              && r.feedback == FeedbackOf(text, ScoreLine(text).value)
              && IsStripped(r.feedback)
  {
    var line := ScoreLine(text);
    if line.None? then Analysis(DefaultScore, text)
    else
      var score := parseFloat(ScoreText(line.value));
      if score.None? then Analysis(DefaultScore, text)
      else Analysis(score.value, FeedbackOf(text, line.value))
  }

  /**
   * The feedback beside a parsed score is the stripped text after the first `FEEDBACK:`,
   * or, with no such marker, the reply with the score line taken out, which is shorter
   * by at least that line.
   */
  lemma ReplyFeedback(text: string)
    requires ScoreLine(text).Some?
    ensures Find(text, FeedbackMarker).Some? ==>
              FeedbackOf(text, ScoreLine(text).value) == Strip(text[Find(text, FeedbackMarker).value + |FeedbackMarker|..])
    ensures Find(text, FeedbackMarker).None? ==>
              && FeedbackOf(text, ScoreLine(text).value) == Strip(ReplaceAll(text, ScoreLine(text).value, ""))
              && |FeedbackOf(text, ScoreLine(text).value)| <= |text| - |ScoreLine(text).value|
  {
    if Find(text, FeedbackMarker).None? {
      RemovingScoreLineShrinks(text);
    }
  }

  /** The score line is a piece of the reply: it occurs in it at some index. */
  lemma ScoreLineOccurs(text: string) returns (j: int)
    requires ScoreLine(text).Some?
    ensures OccursAt(text, ScoreLine(text).value, j)
  {
    var lines := Split(text, '\n');
    var k := FirstWithPrefix(lines, ScoreMarker).value;
    j := SplitPartOccurs(text, '\n', k);
  }

  /** Taking the score line out of the reply removes at least its own length. */
  lemma RemovingScoreLineShrinks(text: string)
    requires ScoreLine(text).Some?
    ensures |ReplaceAll(text, ScoreLine(text).value, "")| <= |text| - |ScoreLine(text).value|
  {
    var j := ScoreLineOccurs(text);
    RemoveAllShrinks(text, ScoreLine(text).value, j);
  }

  /** Every part of a split occurs in the split string. */
  lemma {:induction false} SplitPartOccurs(s: string, sep: char, k: nat) returns (j: int)
    requires k < |Split(s, sep)|
    ensures OccursAt(s, Split(s, sep)[k], j)
    decreases |s|
  {
    if s == [] {
      j := 0;
    } else {
      var rest := Split(s[1..], sep);
      if s[0] == sep {
        if k == 0 {
          j := 0;
        } else {
          var j' := SplitPartOccurs(s[1..], sep, k - 1);
          OccursInTail(s, rest[k - 1], j');
          j := j' + 1;
        }
      } else if k == 0 {
        SplitFirstPartIsPrefix(s[1..], sep);
        j := 0;
        assert s[..1 + |rest[0]|] == [s[0]] + s[1..][..|rest[0]|];
      } else {
        var j' := SplitPartOccurs(s[1..], sep, k);
        OccursInTail(s, rest[k], j');
        j := j' + 1;
      }
    }
  }

  lemma {:induction false} SplitFirstPartIsPrefix(s: string, sep: char)
    ensures StartsWith(s, Split(s, sep)[0])
    decreases |s|
  {
    if s != [] && s[0] != sep {
      SplitFirstPartIsPrefix(s[1..], sep);
      var p := Split(s[1..], sep)[0];
      assert s[..1 + |p|] == [s[0]] + s[1..][..|p|];
    }
  }

  /**
   * `analyze_cv` never raises: without an API key it answers with the fixed mock
   * result, an exception from the request becomes score 0 and an error message, and
   * a reply is parsed by ParseReply.
   */
  function AnalyzeCv(apiKey: Option<string>, call: ApiCall, parseFloat: string -> Option<real>): (r: Analysis)
    ensures !HasKey(apiKey) ==> r == Analysis(MockScore, MockFeedback)
    ensures HasKey(apiKey) && call.Raised? ==> r == Analysis(ErrorScore, ErrorPrefix + call.message)
    ensures HasKey(apiKey) && call.Replied? ==> r == ParseReply(call.content, parseFloat)
  {
    if !HasKey(apiKey) then Analysis(MockScore, MockFeedback)
    else
      match call
      case Raised(m) => Analysis(ErrorScore, ErrorPrefix + m)
      case Replied(text) => ParseReply(text, parseFloat)
  }

  /** A score as the model is asked to write it: digits, a decimal point, a sign. */
  predicate IsNumeral(s: string) {
    s != [] && forall i :: 0 <= i < |s| ==> s[i] in "0123456789.+-"
  }

  /** The reply layout the system prompt asks for: `SCORE: <n>`, a blank line, `FEEDBACK:` and the feedback. */
  function FormatReply(scoreText: string, feedback: string): string {
    ScoreMarker + " " + scoreText + "\n\n" + FeedbackMarker + "\n" + feedback
  }

  /** No numeral contains a line break, a letter or whitespace. */
  lemma NumeralChars(s: string, i: int)
    requires IsNumeral(s) && 0 <= i < |s|
    ensures s[i] != '\n' && s[i] != 'S' && s[i] != 'F' && !IsSpace(s[i])
  {
    assert s[i] in "0123456789.+-";
  }

  /** In the requested layout the first line is the score line. */
  lemma {:induction false} FormattedScoreLine(scoreText: string, feedback: string)
    requires IsNumeral(scoreText)
    ensures ScoreLine(FormatReply(scoreText, feedback)) == Some(ScoreMarker + " " + scoreText)
  {
    var text := FormatReply(scoreText, feedback);
    var line0 := ScoreMarker + " " + scoreText;
    var tail := "\n" + FeedbackMarker + "\n" + feedback;
    assert text == line0 + ['\n'] + tail;
    assert '\n' !in line0 by {
      forall i | 0 <= i < |line0| ensures line0[i] != '\n' {
        if i >= 7 {
          assert line0[i] == scoreText[i - 7];
          NumeralChars(scoreText, i - 7);
        }
      }
    }
    SplitFirstLine(line0, tail, '\n');
    assert StartsWith(line0, ScoreMarker) by { assert line0[..6] == ScoreMarker; }
  }

  /** The score line of the requested layout hands exactly the numeral to `float()`. */
  lemma FormattedScoreText(scoreText: string)
    requires IsNumeral(scoreText)
    ensures ScoreText(ScoreMarker + " " + scoreText) == scoreText
  {
    var rest := " " + scoreText;
    SpacedNumeralUnmarked(scoreText);
    assert ScoreMarker + " " + scoreText == ScoreMarker + rest;
    ScoreTextOfMarked(rest);
    StripSpacedNumeral(scoreText);
  }

  /** A numeral after a space strips to the numeral. */
  lemma StripSpacedNumeral(scoreText: string)
    requires IsNumeral(scoreText)
    ensures Strip(" " + scoreText) == scoreText
  {
    NumeralChars(scoreText, 0);
    NumeralChars(scoreText, |scoreText| - 1);
    StripAfterSpaces(" ", scoreText);
  }

  /** A space followed by a numeral holds no `SCORE:`. */
  lemma SpacedNumeralUnmarked(scoreText: string)
    requires IsNumeral(scoreText)
    ensures forall j :: !OccursAt(" " + scoreText, ScoreMarker, j)
  {
    var rest := " " + scoreText;
    forall j | 0 <= j && j + 6 <= |rest| ensures !OccursAt(rest, ScoreMarker, j) {
      if j > 0 {
        assert rest[j] == scoreText[j - 1];
        NumeralChars(scoreText, j - 1);
      }
      assert rest[j..j + 6][0] == rest[j] != 'S';
    }
  }

  /**
   * A score line is `SCORE:` followed by text without another `SCORE:`: the
   * text handed to `float()` is that text, stripped.
   */
  lemma ScoreTextOfMarked(rest: string)
    requires forall j :: !OccursAt(rest, ScoreMarker, j)
    ensures ScoreText(ScoreMarker + rest) == Strip(rest)
  {
    ReplaceAllAtStart(ScoreMarker, rest, "");
    ReplaceAllAbsent(rest, ScoreMarker, "");
    assert "" + rest == rest;
  }

  /** In the requested layout the first `FEEDBACK:` is the one after the blank line. */
  lemma {:induction false} FormattedFeedbackMarker(scoreText: string, feedback: string)
    requires IsNumeral(scoreText)
    ensures Find(FormatReply(scoreText, feedback), FeedbackMarker) == Some(|scoreText| + 9)
  {
    var text := FormatReply(scoreText, feedback);
    var idx := |scoreText| + 9;
    assert text[idx..] == FeedbackMarker + "\n" + feedback;
    assert OccursAt(text, FeedbackMarker, idx);
    forall j | 0 <= j < idx ensures !OccursAt(text, FeedbackMarker, j) {
      FeedbackMarkerNotAt(scoreText, feedback, j);
    }
  }

  /** No `FEEDBACK:` starts inside the score line or the blank line of the requested layout. */
  lemma FeedbackMarkerNotAt(scoreText: string, feedback: string, j: int)
    requires IsNumeral(scoreText) && 0 <= j < |scoreText| + 9
    ensures !OccursAt(FormatReply(scoreText, feedback), FeedbackMarker, j)
  {
    var text := FormatReply(scoreText, feedback);
    if 7 <= j < |scoreText| + 7 {
      assert text[j] == scoreText[j - 7];
      NumeralChars(scoreText, j - 7);
    }
    assert text[j..j + 9][0] == text[j] != 'F';
  }

  /** In the requested layout the feedback is everything after `FEEDBACK:` and its line break. */
  lemma {:induction false} FormattedFeedback(scoreText: string, feedback: string)
    requires IsNumeral(scoreText) && IsStripped(feedback)
    ensures FeedbackOf(FormatReply(scoreText, feedback), ScoreMarker + " " + scoreText) == feedback
  {
    var text := FormatReply(scoreText, feedback);
    FormattedFeedbackMarker(scoreText, feedback);
    assert text[|scoreText| + 9 + |FeedbackMarker|..] == "\n" + feedback;
    StripAfterSpaces("\n", feedback);
  }

  /** A reply in the requested layout is read back as exactly the score and feedback it carries. */
  lemma {:induction false} ParseFormattedReply(scoreText: string, feedback: string, parseFloat: string -> Option<real>)
    requires IsNumeral(scoreText) && IsStripped(feedback)
    requires parseFloat(scoreText).Some?
    ensures ParseReply(FormatReply(scoreText, feedback), parseFloat) == Analysis(parseFloat(scoreText).value, feedback)
  {
    FormattedScoreLine(scoreText, feedback);
    FormattedScoreText(scoreText);
    FormattedFeedback(scoreText, feedback);
  }
}
