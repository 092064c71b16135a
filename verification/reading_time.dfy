/** The repository's reading-time estimators.
    - `EstimateReadingTime` (src/utils/reading-time.ts) trims, splits on
      whitespace runs, drops empty pieces and clamps the result to 1.
    - `CalculateReadingTime` (src/lib/posts.ts, and the identical expression
      in the content-collection transform) counts the raw pieces of
      `split(/\s+/)`, so leading and trailing whitespace each add a piece. */
module ReadingTime {
  import opened Base
  import opened Text

  const WordsPerMinute: nat := 200

  /** `estimateReadingTime(content)`. */
  function EstimateReadingTime(content: String): (minutes: nat)
    ensures minutes >= 1
    ensures minutes == Max(1, CeilDiv(Words(content), WordsPerMinute))
  {
    var wordCount := |Filter(Split(Trim(content)), NonEmpty)|;
    SplitNonEmptyPiecesAreWords(Trim(content));
    WordsOfTrim(content);
    Max(1, CeilDiv(wordCount, WordsPerMinute))
  }

  /** `calculateReadingTime(content)`: `Math.ceil(split(/\s+/).length / 200)`.
      The piece count is never 0, so neither is the result, and the empty
      string (one empty piece) reads in one minute. */
  function CalculateReadingTime(content: String): (minutes: nat)
    ensures minutes >= 1
    ensures |content| == 0 ==> minutes == 1
    ensures |content| > 0 ==>
      minutes == CeilDiv(Words(content) + B(IsWs(content[0])) + B(IsWs(content[|content| - 1])), WordsPerMinute)
  {
    var wordCount := |Split(content)|;
    SplitPieceCount(content);
    CeilDiv(wordCount, WordsPerMinute)
  }

  /** Leading and trailing whitespace never change the clamped estimate. */
  lemma EstimateIgnoresPadding(l: String, t: String, r: String)
    requires AllWs(l) && AllWs(r)
    ensures EstimateReadingTime(l + t + r) == EstimateReadingTime(t)
  {
    WordsIgnoresPadding(l, t, r);
  }

  /** The thresholds of the clamped estimate: up to 200 words is one
      minute, 201 is two, and more words never read faster. */
  lemma EstimateThresholds(a: String, b: String)
    ensures 1 <= Words(a) <= 200 ==> EstimateReadingTime(a) == 1
    ensures Words(a) == 201 ==> EstimateReadingTime(a) == 2
    ensures Words(a) <= Words(b) ==> EstimateReadingTime(a) <= EstimateReadingTime(b)
  {
  }

  /** The naive count is never below the clamped estimate and exceeds it by
      at most one minute. */
  lemma NaiveWithinOneMinute(s: String)
    ensures EstimateReadingTime(s) <= CalculateReadingTime(s) <= EstimateReadingTime(s) + 1
  {
  }

  /** On a string without surrounding whitespace the two estimators agree. */
  lemma NaiveAgreesOnTrimmedText(s: String)
    requires |s| == 0 || (!IsWs(s[0]) && !IsWs(s[|s| - 1]))
    ensures CalculateReadingTime(s) == EstimateReadingTime(s)
  {
    if |s| > 0 {
      WordsPositive(s, 0);
    }
  }

  /** Where they part: 200 words followed by a newline (the usual end of a
      markdown file) is two minutes for the naive count and one for the
      clamped estimate. */
  lemma NaiveCountsTrailingNewline(s: String)
    requires Words(s) == 200 && |s| > 0 && !IsWs(s[0]) && IsWs(s[|s| - 1])
    ensures CalculateReadingTime(s) == 2
    ensures EstimateReadingTime(s) == 1
  {
  }
}
