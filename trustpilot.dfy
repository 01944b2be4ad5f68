/**
 * The trust-score run of one business unit: walk the review pages,
 * score each review that counts until the limit is reached, then aggregate.
 */
module TrustPilot {
  import opened Reviews
  import opened Scoring

  /**
   * How many reviews the run counts at most. The limit is checked only after
   * a review has been counted, so a limit below 1 still lets one through.
   */
  function EffectiveLimit(limit: int): nat
  {
    if limit < 1 then 1 else limit
  }

  /** The first `n` elements of `s`, or all of `s` when it is shorter. */
  function Take<T>(s: seq<T>, n: nat): seq<T>
  {
    if |s| <= n then s else s[..n]
  }

  /** Taking from a concatenation whose first part is long enough. */
  lemma TakeAppendLong<T>(a: seq<T>, b: seq<T>, n: nat)
    requires n <= |a|
    ensures Take(a + b, n) == Take(a, n)
  {
    assert (a + b)[..n] == a[..n];
  }

  lemma AppendAssoc<T>(a: seq<T>, b: seq<T>, c: seq<T>)
    ensures (a + b) + c == a + (b + c)
  {
  }

  /**
   * `walk` is a walk along the next-page links from `first` that the run
   * ends on: its last page has no next-page link, or its pages already hold
   * the effective limit of qualifying reviews. Pages may repeat, so a feed
   * whose links cycle is covered whenever the cycle holds a review that counts.
   */
  ghost predicate IsScoringWalk(fetch: Url -> Page, first: Url, limit: int, walk: seq<Url>)
  {
    && IsLinkWalk(fetch, first, walk)
    && (|| NextPageUrl(fetch(walk[|walk| - 1]).links).None?
        || |Qualifying(PagesReviews(fetch, walk))| >= EffectiveLimit(limit))
  }

  /**
   * The reviews the run counts, in feed order: the qualifying reviews of the
   * pages of the walk, cut off at the effective limit.
   */
  ghost function Counted(fetch: Url -> Page, walk: seq<Url>, limit: int): seq<Review>
  {
    Take(Qualifying(PagesReviews(fetch, walk)), EffectiveLimit(limit))
  }

  /**
   * What the run counts: only reviews that count towards the trust score,
   * a prefix of all of them in feed order, never more than the effective
   * limit, and exactly the limit whenever the feed holds that many.
   */
  lemma CountedIsCappedPrefix(fetch: Url -> Page, walk: seq<Url>, limit: int)
    ensures var q := Qualifying(PagesReviews(fetch, walk));
      var c := Counted(fetch, walk, limit);
      && c == q[..|c|]
      && (forall r :: r in c ==> r.countsTowardsTrustScore)
      && |c| <= EffectiveLimit(limit)
      && (|c| == EffectiveLimit(limit) <==> |q| >= EffectiveLimit(limit))
  {
    var q := Qualifying(PagesReviews(fetch, walk));
    var c := Counted(fetch, walk, limit);
    QualifyingMembers(PagesReviews(fetch, walk));
    assert forall r :: r in c ==> r in q;
  }

  /**
   * The per-review scorer of a run: `_score_review` with the run's fixed
   * "now", mapping a review to its (score, maximum score).
   */
  function Scorer(exp: real -> real): (score: Review -> (real, real))
    requires ExpLaws(exp)
    ensures forall r :: score(r) == ScoreReview(exp, r.stars, r.ageDays)
  {
    (r: Review) => ScoreReview(exp, r.stars, r.ageDays)
  }

  /** The per-review scores of `rs`, in order (the source's `scores_list`). */
  function ScoresOf(score: Review -> (real, real), rs: seq<Review>): (s: seq<real>)
    ensures |s| == |rs|
  {
    if rs == [] then []
    else ScoresOf(score, rs[..|rs| - 1]) + [score(rs[|rs| - 1]).0]
  }

  /** The per-review maximum scores of `rs`, in order (the source's `max_scores_list`). */
  function MaxScoresOf(score: Review -> (real, real), rs: seq<Review>): (s: seq<real>)
    ensures |s| == |rs|
  {
    if rs == [] then []
    else MaxScoresOf(score, rs[..|rs| - 1]) + [score(rs[|rs| - 1]).1]
  }

  /** The i-th entries of both lists are the score and the maximum score of the i-th review. */
  lemma {:induction false} ScoresOfAt(score: Review -> (real, real), rs: seq<Review>)
    ensures forall i :: 0 <= i < |rs| ==> ScoresOf(score, rs)[i] == score(rs[i]).0
    ensures forall i :: 0 <= i < |rs| ==> MaxScoresOf(score, rs)[i] == score(rs[i]).1
  {
    if rs != [] {
      ScoresOfAt(score, rs[..|rs| - 1]);
    }
  }

  /**
   * The scan of a page's links (classes.py:73-77): `hasNext` tells whether
   * there is a next-page link, and `nextUrl` is the last one's href, or the
   * current url when there is none.
   */
  method ScanLinks(links: seq<Link>, url: Url) returns (hasNext: bool, nextUrl: Url)
    ensures hasNext == NextPageUrl(links).Some?
    ensures nextUrl == if hasNext then NextPageUrl(links).value else url
  {
    hasNext, nextUrl := false, url;
    var i := 0;
    while i < |links|
      invariant 0 <= i <= |links|
      invariant hasNext == NextPageUrl(links[..i]).Some?
      invariant nextUrl == if hasNext then NextPageUrl(links[..i]).value else url
    {
      assert links[..i + 1][..i] == links[..i];
      if links[i].rel == NextPageRel {
        hasNext := true;
        nextUrl := links[i].href;
      }
      i := i + 1;
    }
    assert links[..i] == links;
  }

  /** Scoring one more review appends its score and its maximum score. */
  lemma ScoresOfSnoc(score: Review -> (real, real), rs: seq<Review>, r: Review)
    ensures ScoresOf(score, rs + [r]) == ScoresOf(score, rs) + [score(r).0]
    ensures MaxScoresOf(score, rs + [r]) == MaxScoresOf(score, rs) + [score(r).1]
  {
    assert (rs + [r])[..|rs|] == rs;
  }

  /** One more review of a page extends its qualifying reviews by that review, if it counts. */
  lemma QualifyingStep(counted: seq<Review>, reviews: seq<Review>, j: nat)
    requires j < |reviews|
    ensures reviews[j].countsTowardsTrustScore ==>
      counted + Qualifying(reviews[..j + 1]) == (counted + Qualifying(reviews[..j])) + [reviews[j]]
    ensures !reviews[j].countsTowardsTrustScore ==>
      counted + Qualifying(reviews[..j + 1]) == counted + Qualifying(reviews[..j])
  {
    assert reviews[..j + 1][..j] == reviews[..j];
    assert Qualifying(reviews[..j]) + [] == Qualifying(reviews[..j]);
  }

  /**
   * Once the first `k` reviews of a page bring the count to `n`, the reviews
   * counted so far are the first `n` of those before the page and on it.
   */
  lemma TakeAtCut(counted: seq<Review>, reviews: seq<Review>, k: nat, n: nat)
    requires k <= |reviews|
    requires |counted + Qualifying(reviews[..k])| == n
    ensures Take(counted + Qualifying(reviews), n) == counted + Qualifying(reviews[..k])
  {
    assert reviews == reviews[..k] + reviews[k..];
    QualifyingAppend(reviews[..k], reviews[k..]);
    AppendAssoc(counted, Qualifying(reviews[..k]), Qualifying(reviews[k..]));
    TakeAppendLong(counted + Qualifying(reviews[..k]), Qualifying(reviews[k..]), n);
  }

  /**
   * The scan of one page's reviews (classes.py:49-70): every review that
   * counts is scored and appended to both lists until the count reaches the
   * limit, which stops the scan at that review. `counted` holds the reviews
   * the lists already stand for; `reached` tells whether the limit was hit.
   */
  method ScorePage(score: Review -> (real, real), reviews: seq<Review>, limit: int,
                   scores: seq<real>, maxScores: seq<real>, reviewCount: int, ghost counted: seq<Review>)
    returns (scores': seq<real>, maxScores': seq<real>, reviewCount': int, reached: bool)
    requires reviewCount == |counted| < EffectiveLimit(limit)
    requires scores == ScoresOf(score, counted) && maxScores == MaxScoresOf(score, counted)
    ensures var now := Take(counted + Qualifying(reviews), EffectiveLimit(limit));
      && scores' == ScoresOf(score, now)
      && maxScores' == MaxScoresOf(score, now)
      && reviewCount' == |now|
    ensures reached <==> |counted + Qualifying(reviews)| >= EffectiveLimit(limit)
  {
    scores', maxScores', reviewCount', reached := scores, maxScores, reviewCount, false;
    ghost var cap := EffectiveLimit(limit);
    var j := 0;
    ghost var sofar := counted;
    assert counted + Qualifying(reviews[..j]) == counted;
    while j < |reviews|
      invariant 0 <= j <= |reviews|
      invariant sofar == counted + Qualifying(reviews[..j])
      invariant |sofar| < cap && reviewCount' == |sofar|
      invariant scores' == ScoresOf(score, sofar) && maxScores' == MaxScoresOf(score, sofar)
    {
      var review := reviews[j];
      QualifyingStep(counted, reviews, j);
      if review.countsTowardsTrustScore {
        var (reviewScore, maxScore) := score(review);
        ScoresOfSnoc(score, sofar, review);
        scores' := scores' + [reviewScore];
        maxScores' := maxScores' + [maxScore];
        reviewCount' := reviewCount' + 1;
        sofar := sofar + [review];
        if reviewCount' >= limit {
          reached := true;
          TakeAtCut(counted, reviews, j + 1, cap);
          break;
        }
      }
      j := j + 1;
    }
    if !reached {
      assert reviews[..j] == reviews;
    }
  }

  /** Fetching one more page adds that page's qualifying reviews at the end. */
  lemma QualifyingNextPage(fetch: Url -> Page, before: seq<Url>, url: Url)
    ensures Qualifying(PagesReviews(fetch, before + [url])) ==
      Qualifying(PagesReviews(fetch, before)) + Qualifying(fetch(url).reviews)
  {
    assert (before + [url])[..|before|] == before;
    QualifyingAppend(PagesReviews(fetch, before), fetch(url).reviews);
  }

  /**
   * When the first `k` pages of the walk are all of it, or already hold the
   * effective limit of qualifying reviews, they decide what is counted.
   */
  lemma CountedFromVisited(fetch: Url -> Page, walk: seq<Url>, k: nat, limit: int)
    requires k <= |walk|
    requires k < |walk| ==> |Qualifying(PagesReviews(fetch, walk[..k]))| >= EffectiveLimit(limit)
    ensures Counted(fetch, walk, limit) == Take(Qualifying(PagesReviews(fetch, walk[..k])), EffectiveLimit(limit))
  {
    var q := Qualifying(PagesReviews(fetch, walk[..k]));
    assert walk == walk[..k] + walk[k..];
    PagesReviewsAppend(fetch, walk[..k], walk[k..]);
    QualifyingAppend(PagesReviews(fetch, walk[..k]), PagesReviews(fetch, walk[k..]));
    if k < |walk| {
      TakeAppendLong(q, Qualifying(PagesReviews(fetch, walk[k..])), EffectiveLimit(limit));
    }
  }

  /**
   * One round of the pagination loop (classes.py:45-77): fetch the page at
   * `url`, score its reviews that count until the limit is reached, and read
   * its next-page link. `before` lists the pages fetched earlier.
   */
  method ScoreNextPage(score: Review -> (real, real), fetch: Url -> Page, url: Url, limit: int,
                       scores: seq<real>, maxScores: seq<real>, reviewCount: int, ghost before: seq<Url>)
    returns (scores': seq<real>, maxScores': seq<real>, reviewCount': int, reached: bool,
             hasNext: bool, nextUrl: Url)
    requires var q := Qualifying(PagesReviews(fetch, before));
      && reviewCount == |q| < EffectiveLimit(limit)
      && scores == ScoresOf(score, q) && maxScores == MaxScoresOf(score, q)
    ensures var q := Qualifying(PagesReviews(fetch, before + [url]));
      && scores' == ScoresOf(score, Take(q, EffectiveLimit(limit)))
      && maxScores' == MaxScoresOf(score, Take(q, EffectiveLimit(limit)))
      && reviewCount' == |Take(q, EffectiveLimit(limit))|
      && (reached <==> |q| >= EffectiveLimit(limit))
    ensures hasNext == NextPageUrl(fetch(url).links).Some?
    ensures nextUrl == if hasNext then NextPageUrl(fetch(url).links).value else url
  {
    var page := fetch(url);
    QualifyingNextPage(fetch, before, url);
    scores', maxScores', reviewCount', reached :=
      ScorePage(score, page.reviews, limit, scores, maxScores, reviewCount, Qualifying(PagesReviews(fetch, before)));
    hasNext, nextUrl := ScanLinks(page.links, url);
  }

  /**
   * After the first `k` pages of a scoring walk, the k-th page links on to
   * the next page of the walk; at the walk's end it has no next-page link
   * unless the limit has been reached.
   */
  lemma WalkStep(fetch: Url -> Page, first: Url, limit: int, walk: seq<Url>, k: nat)
    requires IsScoringWalk(fetch, first, limit, walk)
    requires 0 < k <= |walk|
    ensures k < |walk| ==> NextPageUrl(fetch(walk[k - 1]).links) == Some(walk[k])
    ensures k == |walk| && |Qualifying(PagesReviews(fetch, walk[..k]))| < EffectiveLimit(limit) ==>
      NextPageUrl(fetch(walk[k - 1]).links).None?
  {
    if k < |walk| {
      assert LinksTo(fetch, walk[k - 1], walk[k]);
    } else {
      assert walk[..k] == walk;
    }
  }

  /**
   * The pagination loop of `get_trustscore` (classes.py:34-77): fetch pages
   * along the next-page links, scoring the reviews that count, until the
   * limit is reached or a page has no next-page link.
   *
   * `visited` lists the page locators fetched, in order. `walk` is the walk
   * along the links on which the run ends: a page without a next-page link,
   * or the page where the qualifying reviews reach the effective limit.
   */
  method CollectReviewScores(score: Review -> (real, real), fetch: Url -> Page, firstPage: Url, limit: int,
                             ghost walk: seq<Url>)
    returns (scores: seq<real>, maxScores: seq<real>, reviewCount: int, visited: seq<Url>)
    requires IsScoringWalk(fetch, firstPage, limit, walk)
    ensures reviewCount == |scores| == |maxScores| == |Counted(fetch, walk, limit)|
    ensures scores == ScoresOf(score, Counted(fetch, walk, limit))
    ensures maxScores == MaxScoresOf(score, Counted(fetch, walk, limit))
    ensures 0 < |visited| <= |walk| && visited == walk[..|visited|]
    ensures |visited| < |walk| ==> reviewCount == EffectiveLimit(limit)
    ensures reviewCount == EffectiveLimit(limit) ==>
      |Qualifying(PagesReviews(fetch, visited[..|visited| - 1]))| < EffectiveLimit(limit)
  {
    var url := firstPage;
    scores, maxScores, reviewCount := [], [], 0;
    var reviewCountReached := false;
    var hasNext := true;
    visited := [];
    ghost var cap := EffectiveLimit(limit);
    ghost var q: seq<Review> := [];
    ghost var qBefore: seq<Review> := [];
    while !reviewCountReached && hasNext
      invariant |visited| <= |walk| && visited == walk[..|visited|]
      invariant !reviewCountReached && hasNext ==> |visited| < |walk| && url == walk[|visited|]
      invariant !hasNext ==> |visited| == |walk|
      invariant q == Qualifying(PagesReviews(fetch, visited))
      invariant scores == ScoresOf(score, Take(q, cap)) && maxScores == MaxScoresOf(score, Take(q, cap))
      invariant reviewCount == |Take(q, cap)|
      invariant reviewCountReached <==> |q| >= cap
      invariant reviewCountReached ==>
        && visited != []
        && qBefore == Qualifying(PagesReviews(fetch, visited[..|visited| - 1]))
        && |qBefore| < cap
      decreases |walk| - |visited|
    {
      ghost var before := visited;
      qBefore := q;
      visited := visited + [url];
      assert visited[..|visited| - 1] == before;
      assert visited == walk[..|visited|];
      WalkStep(fetch, firstPage, limit, walk, |visited|);
      scores, maxScores, reviewCount, reviewCountReached, hasNext, url :=
        ScoreNextPage(score, fetch, url, limit, scores, maxScores, reviewCount, before);
      q := Qualifying(PagesReviews(fetch, visited));
    }
    CountedFromVisited(fetch, walk, |visited|, limit);
  }

  /**
   * A page whose next-page link points back at itself: the run still ends
   * once the limit is reached, having counted the page's review once per
   * visit.
   */
  lemma SelfLinkedPageRecounted(fetch: Url -> Page, url: Url, r: Review)
    requires r.countsTowardsTrustScore
    requires fetch(url) == Page([r], [Link(NextPageRel, url)])
    ensures IsScoringWalk(fetch, url, 2, [url, url])
    ensures Counted(fetch, [url, url], 2) == [r, r]
  {
    assert [url, url][..1] == [url];
    assert [url][..0] == [];
    assert PagesReviews(fetch, []) == [];
    assert PagesReviews(fetch, [url]) == [] + [r] == [r];
    assert PagesReviews(fetch, [url, url]) == [r] + [r] == [r, r];
    assert [r, r][..1] == [r];
    assert [r][..0] == [];
  }

  /** `r` is a multiple of 0.1. */
  predicate OnTenthGrid(r: real)
  {
    (r * 10.0).Floor as real == r * 10.0
  }

  /**
   * The final `round(trustscore, 1)`: the nearest multiple of 0.1, and on a
   * tie the one whose count of tenths is even (Python's rounding of a value
   * to a number of decimal places).
   */
  function RoundToTenth(x: real): (r: real)
    ensures OnTenthGrid(r)
    ensures -0.05 <= r - x <= 0.05
    ensures (r - x == 0.05 || r - x == -0.05) ==> (r * 10.0).Floor % 2 == 0
  {
    var y := x * 10.0;
    var f := y.Floor;
    var frac := y - f as real;
    var n := if frac < 0.5 then f else if frac > 0.5 then f + 1 else if f % 2 == 0 then f else f + 1;
    assert (n as real / 10.0) * 10.0 == n as real;
    n as real / 10.0
  }

  /** No multiple of 0.1 is closer to `x` than its rounding. */
  lemma RoundToTenthNearest(x: real, k: int)
    ensures Distance(RoundToTenth(x), x) <= Distance(k as real / 10.0, x)
  {
    var y := x * 10.0;
    var n := (RoundToTenth(x) * 10.0).Floor;
    assert RoundToTenth(x) == n as real / 10.0;
    assert n == y.Floor || n == y.Floor + 1;
    assert k <= y.Floor || k >= y.Floor + 1;
  }

  /**
   * Ties go to the even tenth: 7.25 rounds down to 7.2, while 7.75 rounds up
   * to 7.8 (both ties are exact binary fractions).
   */
  lemma RoundToTenthTiesToEven()
    ensures RoundToTenth(7.25) == 7.2
    ensures RoundToTenth(7.75) == 7.8
  {
  }

  /** Rounding leaves a multiple of 0.1 as it is. */
  lemma RoundToTenthIdempotent(x: real)
    ensures RoundToTenth(RoundToTenth(x)) == RoundToTenth(x)
  {
    var r := RoundToTenth(x);
    var n := (r * 10.0).Floor;
    assert r * 10.0 == n as real;
    assert (r * 10.0).Floor == n;
  }

  /** Rounding preserves order. */
  lemma RoundToTenthMonotone(x: real, y: real)
    requires x <= y
    ensures RoundToTenth(x) <= RoundToTenth(y)
  {
    var fx, fy := (x * 10.0).Floor, (y * 10.0).Floor;
    assert fx <= fy;
  }

  /**
   * The trust score the run computes from the reviews it counted, before
   * rounding.
   */
  ghost function TrustScore(exp: real -> real, ln: real -> real, counted: seq<Review>): Result<real>
    requires ExpLaws(exp) && LnLaws(ln)
  {
    CalculateTrustScore(ln, ScoresOf(Scorer(exp), counted), MaxScoresOf(Scorer(exp), counted))
  }

  /**
   * `get_trustscore` (classes.py:13-87): the checked trust score of the
   * counted reviews rounded to one decimal place, or ZeroDivisionError when
   * the feed holds no review that counts.
   */
  method GetTrustScore(exp: real -> real, ln: real -> real, fetch: Url -> Page, firstPage: Url,
                       limit: int, ghost walk: seq<Url>)
    returns (r: Result<real>)
    requires ExpLaws(exp) && LnLaws(ln)
    requires IsScoringWalk(fetch, firstPage, limit, walk)
    ensures var t := TrustScore(exp, ln, Counted(fetch, walk, limit));
      && r.Failure? == t.Failure?
      && (r.Success? ==> r.value == RoundToTenth(t.value))
    ensures r.Failure? <==> Qualifying(PagesReviews(fetch, walk)) == []
    ensures r.Success? ==>
      var n := |Counted(fetch, walk, limit)|;
      MinScoreThreshold(ln, n) - 0.05 <= r.value <= MaxScoreThreshold(ln, n) + 0.05
  {
    var scores, maxScores, reviewCount, visited := CollectReviewScores(Scorer(exp), fetch, firstPage, limit, walk);
    var trustscore := CalculateTrustScore(ln, scores, maxScores);
    TrustScoreFailsIffNoReviews(exp, ln, Counted(fetch, walk, limit));
    match trustscore {
      case Failure(e) => r := Failure(e);
      case Success(t) => r := Success(RoundToTenth(t));
    }
  }

  /** The aggregation fails exactly when no review was counted. */
  lemma TrustScoreFailsIffNoReviews(exp: real -> real, ln: real -> real, counted: seq<Review>)
    requires ExpLaws(exp) && LnLaws(ln)
    ensures TrustScore(exp, ln, counted).Failure? <==> counted == []
  {
    if counted != [] {
      var maxScores := MaxScoresOf(Scorer(exp), counted);
      ScoresOfAt(Scorer(exp), counted);
      forall i | 0 <= i < |maxScores|
        ensures maxScores[i] > 0.0
      {
        assert maxScores[i] == ScoreReview(exp, counted[i].stars, counted[i].ageDays).1;
      }
      SumPositive(maxScores);
    }
  }

  /** With star ratings from 1 to 5, the trust score is on the 0-10 scale. */
  lemma TrustScoreInRange(exp: real -> real, ln: real -> real, counted: seq<Review>)
    requires ExpLaws(exp) && LnLaws(ln)
    requires forall r :: r in counted ==> 1 <= r.stars <= 5
    ensures var t := TrustScore(exp, ln, counted);
      t.Success? ==> 0.0 <= t.value <= 10.0
  {
    var scores, maxScores := ScoresOf(Scorer(exp), counted), MaxScoresOf(Scorer(exp), counted);
    ScoresOfAt(Scorer(exp), counted);
    forall i | 0 <= i < |scores|
      ensures 0.0 <= scores[i] <= maxScores[i]
    {
      var r := counted[i];
      assert r in counted;
      assert scores[i] == ScoreReview(exp, r.stars, r.ageDays).0;
      assert maxScores[i] == ScoreReview(exp, r.stars, r.ageDays).1;
    }
    TrustScoreOnScale(ln, scores, maxScores);
  }

  /** Rounding keeps a trust score on the 0-10 scale there. */
  lemma RoundedTrustScoreInRange(exp: real -> real, ln: real -> real, counted: seq<Review>)
    requires ExpLaws(exp) && LnLaws(ln)
    requires forall r :: r in counted ==> 1 <= r.stars <= 5
    ensures var t := TrustScore(exp, ln, counted);
      t.Success? ==> 0.0 <= RoundToTenth(t.value) <= 10.0
  {
    var t := TrustScore(exp, ln, counted);
    if t.Success? {
      TrustScoreInRange(exp, ln, counted);
      RoundToTenthMonotone(0.0, t.value);
      RoundToTenthMonotone(t.value, 10.0);
      assert RoundToTenth(0.0) == 0.0;
      assert RoundToTenth(10.0) == 10.0;
    }
  }

  /**
   * Only five-star reviews: the ratio is exactly 10, so the trust score is
   * the maximum threshold for the count, or 10 once that threshold exceeds 10.
   */
  lemma FiveStarsReachCeiling(exp: real -> real, ln: real -> real, counted: seq<Review>)
    requires ExpLaws(exp) && LnLaws(ln)
    requires counted != []
    requires forall r :: r in counted ==> r.stars == 5
    ensures TrustScore(exp, ln, counted) ==
      var ceiling := MaxScoreThreshold(ln, |counted|);
      Success(if ceiling < 10.0 then ceiling else 10.0)
  {
    var scores, maxScores := ScoresOf(Scorer(exp), counted), MaxScoresOf(Scorer(exp), counted);
    ScoresOfAt(Scorer(exp), counted);
    forall i | 0 <= i < |scores|
      ensures scores[i] == maxScores[i]
    {
      var r := counted[i];
      assert r in counted;
      assert scores[i] == ScoreReview(exp, r.stars, r.ageDays).0;
      assert maxScores[i] == ScoreReview(exp, r.stars, r.ageDays).1;
    }
    assert scores == maxScores;
    TrustScoreFailsIffNoReviews(exp, ln, counted);
    FullMarksReachCeiling(ln, scores);
  }
}
