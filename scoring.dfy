/**
 * Per-review scoring, aggregation into a 0-10 trust score, and the clamping
 * of that score between thresholds that widen with the number of reviews.
 *
 * The natural exponential and logarithm are parameters (`exp`, `ln`); the
 * only facts used about them are collected in ExpLaws and LnLaws.
 */
module Scoring {

  /** The one failure of the aggregation: a zero sum of maximum scores. */
  datatype Error = ZeroDivisionError

  datatype Result<T> = Success(value: T) | Failure(error: Error)

  /** Facts assumed of the exponential function: exp(0) = 1, positive, strictly increasing. */
  ghost predicate ExpLaws(exp: real -> real)
  {
    && exp(0.0) == 1.0
    && (forall x :: exp(x) > 0.0)
    && (forall x, y :: x < y ==> exp(x) < exp(y))
  }

  /** Facts assumed of the natural logarithm: ln(1) = 0, strictly increasing on the positives. */
  ghost predicate LnLaws(ln: real -> real)
  {
    && ln(1.0) == 0.0
    && (forall x, y :: 0.0 < x < y ==> ln(x) < ln(y))
  }

  /** Both thresholds start from this score when there is a single review. */
  const StartingScore: real := 6.0

  /** Base of the logarithm that shapes the minimum threshold. */
  const MinThresholdBase: real := 1.5

  /** The logistic decay curve: its maximum value L, steepness k and midpoint x0 (days). */
  const CurveMax: real := 1.0
  const Steepness: real := 0.004
  const Midpoint: real := 365.0 * 0.5

  /**
   * Star score: the five star ratings evenly spaced over [0, 1], 0.25 apart.
   */
  function ScoreStars(stars: int): (r: real)
    ensures 1 <= stars <= 5 ==> 0.0 <= r <= 1.0
    ensures stars == 1 ==> r == 0.0
    ensures stars == 3 ==> r == 0.5
    ensures stars == 5 ==> r == 1.0
  {
    (stars - 1) as real * 0.25
  }

  /** Each extra star adds exactly 0.25, so the star score is strictly increasing. */
  lemma ScoreStarsStrictlyIncreasing(a: int, b: int)
    requires a < b
    ensures ScoreStars(a) < ScoreStars(b)
    ensures ScoreStars(a + 1) - ScoreStars(a) == 0.25
  {
  }

  /**
   * Date score: one minus the logistic curve at the review's age, so a new
   * review scores close to 1 and an old one close to 0.
   */
  function ScoreDate(exp: real -> real, ageDays: int): (r: real)
    requires ExpLaws(exp)
    ensures 0.0 < r < 1.0
  {
    var logistic := CurveMax / (1.0 + exp(-Steepness * (ageDays as real - Midpoint)));
    -logistic + 1.0
  }

  /** 1 / (1 + e) falls as e grows. */
  lemma ReciprocalShrinks(e1: real, e2: real)
    requires 0.0 < e1 < e2
    ensures 1.0 / (1.0 + e2) < 1.0 / (1.0 + e1)
  {
    var d1, d2 := 1.0 + e1, 1.0 + e2;
    var a, b := 1.0 / d1, 1.0 / d2;
    assert a * d1 == 1.0 && b * d2 == 1.0;
    assert a > 0.0 && b > 0.0;
    assert a * b * d1 == b by { assert (a * d1) * b == b; }
    assert a * b * d2 == a by { assert (b * d2) * a == a; }
    assert a - b == (a * b) * (d2 - d1);
    assert (a * b) * (d2 - d1) > 0.0;
  }

  /** An older review always has a strictly smaller date score. */
  lemma ScoreDateStrictlyDecreasing(exp: real -> real, younger: int, older: int)
    requires ExpLaws(exp)
    requires younger < older
    ensures ScoreDate(exp, older) < ScoreDate(exp, younger)
  {
    var xYoung := -Steepness * (younger as real - Midpoint);
    var xOld := -Steepness * (older as real - Midpoint);
    assert xOld < xYoung;
    ReciprocalShrinks(exp(xOld), exp(xYoung));
  }

  /** Half-life of six months: above one half up to day 182, below it from day 183. */
  lemma ScoreDateHalfLife(exp: real -> real)
    requires ExpLaws(exp)
    ensures ScoreDate(exp, 182) > 0.5 > ScoreDate(exp, 183)
  {
    var x182 := -Steepness * (182 as real - Midpoint);
    var x183 := -Steepness * (183 as real - Midpoint);
    assert x183 < 0.0 < x182;
    ReciprocalShrinks(exp(0.0), exp(x182));
    ReciprocalShrinks(exp(x183), exp(0.0));
  }

  /**
   * One review's (score, maximum score): the maximum is its date score and
   * the score is the star score aged by that date score.
   */
  function ScoreReview(exp: real -> real, stars: int, ageDays: int): (r: (real, real))
    requires ExpLaws(exp)
    ensures r.1 == ScoreDate(exp, ageDays)
    ensures 1 <= stars <= 5 ==> 0.0 <= r.0 <= r.1
    ensures stars == 1 ==> r.0 == 0.0
    ensures stars == 5 ==> r.0 == r.1
  {
    var totalScore := ScoreStars(stars);
    var dateScore := ScoreDate(exp, ageDays);
    var agedScore := totalScore * dateScore;
    assert 1 <= stars <= 5 ==> agedScore <= 1.0 * dateScore;
    (agedScore, dateScore)
  }

  /** Python's `sum` of a list of reals, added from the left. */
  function Sum(s: seq<real>): real
  {
    if s == [] then 0.0 else Sum(s[..|s| - 1]) + s[|s| - 1]
  }

  /** Termwise 0 <= s[i] <= t[i] gives 0 <= Sum(s) <= Sum(t). */
  lemma {:induction false} SumBounds(s: seq<real>, t: seq<real>)
    requires |s| == |t|
    requires forall i :: 0 <= i < |s| ==> 0.0 <= s[i] <= t[i]
    ensures 0.0 <= Sum(s) <= Sum(t)
  {
    if s != [] {
      SumBounds(s[..|s| - 1], t[..|t| - 1]);
    }
  }

  /** A non-empty sum of positive terms is positive. */
  lemma {:induction false} SumPositive(s: seq<real>)
    requires |s| > 0
    requires forall i :: 0 <= i < |s| ==> s[i] > 0.0
    ensures Sum(s) > 0.0
  {
    if |s| > 1 {
      SumPositive(s[..|s| - 1]);
    }
  }

  /** `math.log(x, base)`: the logarithm of x to the given base. */
  function Log(ln: real -> real, x: real, base: real): real
    requires ln(base) != 0.0
  {
    ln(x) / ln(base)
  }

  /** The maximum threshold: a natural logarithm of the review count, shifted to start at 6. */
  function MaxScoreThreshold(ln: real -> real, numberOfReviews: int): (r: real)
    requires LnLaws(ln)
    requires numberOfReviews > 0
    ensures numberOfReviews == 1 ==> r == StartingScore
    ensures r >= StartingScore
  {
    var xTranslation := 0;
    var yTranslation := StartingScore - ln((xTranslation + 1) as real);
    ln((numberOfReviews + xTranslation) as real) + yTranslation
  }

  /** The minimum threshold: minus a base-1.5 logarithm of the review count plus 5, shifted to start at 6. */
  function MinScoreThreshold(ln: real -> real, numberOfReviews: int): (r: real)
    requires LnLaws(ln)
    requires numberOfReviews + 5 > 0
    ensures numberOfReviews == 1 ==> r == StartingScore
    ensures numberOfReviews >= 1 ==> r <= StartingScore
  {
    assert ln(1.0) < ln(MinThresholdBase);
    var xTranslation := 5;
    var yTranslation := StartingScore - Log(ln, (xTranslation + 1) as real, MinThresholdBase) * -1.0;
    var minScore := Log(ln, (numberOfReviews + xTranslation) as real, MinThresholdBase) * -1.0 + yTranslation;
    assert numberOfReviews >= 1 ==> minScore <= StartingScore by {
      if numberOfReviews >= 1 {
        LogMonotone(ln, (xTranslation + 1) as real, (numberOfReviews + xTranslation) as real, MinThresholdBase);
      }
    }
    minScore
  }

  /** The logarithm to a base above 1 is non-decreasing. */
  lemma LogMonotone(ln: real -> real, x: real, y: real, base: real)
    requires LnLaws(ln)
    requires 0.0 < x <= y && 1.0 < base
    ensures ln(1.0) < ln(base)
    ensures Log(ln, x, base) <= Log(ln, y, base)
  {
    var c := ln(base);
    assert 0.0 < c;
    var a, b := ln(x) / c, ln(y) / c;
    var d := ln(y) - ln(x);
    assert d >= 0.0;
    assert b - a == d / c;
    assert d / c >= 0.0;
  }

  /** The maximum threshold strictly grows with the number of reviews. */
  lemma MaxScoreThresholdIncreasing(ln: real -> real, n: int, m: int)
    requires LnLaws(ln)
    requires 0 < n < m
    ensures MaxScoreThreshold(ln, n) < MaxScoreThreshold(ln, m)
  {
  }

  /** The minimum threshold never grows with the number of reviews. */
  lemma MinScoreThresholdNonIncreasing(ln: real -> real, n: int, m: int)
    requires LnLaws(ln)
    requires 0 < n <= m
    ensures MinScoreThreshold(ln, m) <= MinScoreThreshold(ln, n)
  {
    LogMonotone(ln, (n + 5) as real, (m + 5) as real, MinThresholdBase);
  }

  /** The distance between two reals. */
  function Distance(a: real, b: real): real
  {
    if a < b then b - a else a - b
  }

  /**
   * The quality check: the score moved to the nearest point of
   * [min threshold, max threshold], and left alone when already inside.
   */
  function CheckScoreThreshold(ln: real -> real, score: real, numberOfReviews: int): (r: real)
    requires LnLaws(ln)
    requires numberOfReviews > 0
    ensures MinScoreThreshold(ln, numberOfReviews) <= r <= MaxScoreThreshold(ln, numberOfReviews)
    ensures MinScoreThreshold(ln, numberOfReviews) <= score <= MaxScoreThreshold(ln, numberOfReviews) ==> r == score
    ensures forall y :: MinScoreThreshold(ln, numberOfReviews) <= y <= MaxScoreThreshold(ln, numberOfReviews) ==>
      Distance(r, score) <= Distance(y, score)
  {
    var minScore := MinScoreThreshold(ln, numberOfReviews);
    var maxScore := MaxScoreThreshold(ln, numberOfReviews);
    if minScore <= score <= maxScore then score
    else if score < minScore then minScore
    else maxScore
  }

  /** Checking a checked score changes nothing. */
  lemma CheckScoreThresholdIdempotent(ln: real -> real, score: real, numberOfReviews: int)
    requires LnLaws(ln)
    requires numberOfReviews > 0
    ensures var once := CheckScoreThreshold(ln, score, numberOfReviews);
      CheckScoreThreshold(ln, once, numberOfReviews) == once
  {
  }

  /** The check only ever pulls a score towards the starting score 6, never past it. */
  lemma CheckScoreThresholdTowardsStart(ln: real -> real, score: real, numberOfReviews: int)
    requires LnLaws(ln)
    requires numberOfReviews > 0
    ensures var r := CheckScoreThreshold(ln, score, numberOfReviews);
      (score <= StartingScore ==> score <= r <= StartingScore) &&
      (StartingScore <= score ==> StartingScore <= r <= score)
  {
  }

  /**
   * The trust score: the sum of scores over the sum of maximum scores, on a
   * 0-10 scale, then checked against the thresholds for the review count.
   */
  function CalculateTrustScore(ln: real -> real, scores: seq<real>, maxScores: seq<real>): (r: Result<real>)
    requires LnLaws(ln)
    requires |scores| == |maxScores|
    ensures r.Failure? <==> Sum(maxScores) == 0.0
    ensures r.Success? ==>
      |scores| > 0 && MinScoreThreshold(ln, |scores|) <= r.value <= MaxScoreThreshold(ln, |scores|)
  {
    if Sum(maxScores) == 0.0 then Failure(ZeroDivisionError)
    else
      var trustscore := Sum(scores) / Sum(maxScores) * 10.0;
      Success(CheckScoreThreshold(ln, trustscore, |scores|))
  }

  /**
   * Full marks on every review: the ratio is 1, so the trust score is 10
   * capped by the maximum threshold for that many reviews.
   */
  lemma FullMarksReachCeiling(ln: real -> real, scores: seq<real>)
    requires LnLaws(ln)
    requires Sum(scores) != 0.0
    ensures |scores| > 0
    ensures CalculateTrustScore(ln, scores, scores) ==
      var ceiling := MaxScoreThreshold(ln, |scores|);
      Success(if ceiling < 10.0 then ceiling else 10.0)
  {
    assert Sum(scores) / Sum(scores) == 1.0;
    assert |scores| > 0;
  }

  /** When every score lies in [0, its maximum], the unchecked ratio lies in [0, 10]. */
  lemma RawTrustScoreOnScale(scores: seq<real>, maxScores: seq<real>)
    requires |scores| == |maxScores|
    requires forall i :: 0 <= i < |scores| ==> 0.0 <= scores[i] <= maxScores[i]
    requires Sum(maxScores) != 0.0
    ensures 0.0 <= Sum(scores) / Sum(maxScores) * 10.0 <= 10.0
  {
    SumBounds(scores, maxScores);
    RatioOnScale(Sum(scores), Sum(maxScores));
  }

  /** 0 <= part <= whole and whole > 0 give part / whole in [0, 1]. */
  lemma RatioOnScale(part: real, whole: real)
    requires 0.0 <= part <= whole && whole != 0.0
    ensures 0.0 <= part / whole * 10.0 <= 10.0
  {
    var q := part / whole;
    assert q * whole == part;
    assert (1.0 - q) * whole == whole - part;
  }

  /** Under the same condition the checked trust score lies in [0, 10] as well. */
  lemma TrustScoreOnScale(ln: real -> real, scores: seq<real>, maxScores: seq<real>)
    requires LnLaws(ln)
    requires |scores| == |maxScores|
    requires forall i :: 0 <= i < |scores| ==> 0.0 <= scores[i] <= maxScores[i]
    ensures var r := CalculateTrustScore(ln, scores, maxScores);
      r.Success? ==> 0.0 <= r.value <= 10.0
  {
    if Sum(maxScores) != 0.0 {
      RawTrustScoreOnScale(scores, maxScores);
      CheckScoreThresholdTowardsStart(ln, Sum(scores) / Sum(maxScores) * 10.0, |scores|);
    }
  }
}
