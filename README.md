# Trust-score computation, modelled in Dafny

This project models how the `TrustPilot` class in `lambda/trustpilot/classes.py`
computes a business unit's trust score:

- **Collection.** `get_trustscore` walks from review page to review page along their
  `next-page` links. It skips the reviews that do not count towards the trust
  score and scores the rest. It stops once `limit` reviews have been counted,
  or after a page without a `next-page` link.
- **Per-review scoring.** `_score_review`, `_score_stars` and `_score_date`:
  - star score = (stars - 1) × 0.25;
  - date score = one minus a logistic curve in the review's age;
  - score = star score × date score;
  - maximum score = the date score.
- **Aggregation.** `_calculate_trustscore` computes
  sum(scores) / sum(maximum scores) × 10. `_check_score_threshold` then clamps
  that value between `_min_score_threshold` and `_max_score_threshold`. Both
  thresholds start at 6 for a single review and move apart as the review count
  grows. The result is rounded to one decimal place.

The project has three modules:

- `Reviews` (reviews.dfy): the review feed.
  - Entities: reviews, pages, links.
  - The reviews that count (`Qualifying`).
  - The next-page locator of a page (`NextPageUrl`).
  - The reviews of a run of pages (`PagesReviews`).
  - `IsLinkWalk`: a walk from page to page along the next-page links; pages
    may repeat when the links cycle.
- `Scoring` (scoring.dfy): the pure functions of the class.
  - The per-review scores, the thresholds, the clamping and the aggregation.
  - `CalculateTrustScore` returns a `Result`. Its `Failure(ZeroDivisionError)`
    stands for the exception raised at line 178 when the sum of maximum
    scores is zero.
- `TrustPilot` (trustpilot.dfy): the imperative loop of `get_trustscore`.
  - `CollectReviewScores` is the outer `while` loop over pages.
  - `ScorePage` is the inner `for` loop over one page's reviews.
  - `ScanLinks` is the `for` loop over the links.
  - `GetTrustScore` is the whole method, rounding included.
  - Each loop is proved against a specification function. `Counted` is the
    first max(limit, 1) qualifying reviews of the walk, in feed order.
    `ScoresOf` and `MaxScoresOf` give the two lists those reviews produce.

The class's fields (`domain`, `business_unit`) are set once in `__init__` and
never updated, so the model has no class. The first page's locator is a
parameter of the run.

Outside calls become parameters:

- **Page fetch.** `fetch: Url -> Page` gives the page at a locator.
- **Exponential and logarithm.** `exp` and `ln` are functions `real -> real`.
  The only facts used about them are stated as preconditions:
  - `ExpLaws`: exp(0) = 1, exp is positive and strictly increasing;
  - `LnLaws`: ln(1) = 0, ln is strictly increasing on the positive reals.
  `Log(ln, x, b)` = ln(x) / ln(b) stands for `math.log(x, b)`.
- **Review age.** `Review.ageDays` is the review's age in whole days at the
  start of the run.

Some of the code's behaviour differs from what its comments or a reader might
expect; the model follows the code:

- **Limits below 1 are accepted.** The limit is compared only after a review
  has been counted (line 67), so `limit <= 0` still counts one review.
  `EffectiveLimit(limit)` = max(limit, 1) captures this.
- **Rounding is half-to-even.** The comment at line 84 promises that .5
  rounds up (7.25 to 7.3). But the `decimal` context set on lines 85-86 does
  not affect the built-in `round` applied to a float, so a tie that is
  exactly representable in binary goes to the even tenth.
  `RoundToTenthTiesToEven` shows 7.25 going to 7.2 and 7.75 going to 7.8.
- **Zero counted reviews is an error.** With no review counted, the division
  at line 178 divides by zero. The model returns `Failure(ZeroDivisionError)`.
- **Cyclic feeds can end.** The `while` at line 44 also stops when the limit
  is reached (lines 67-70). So a feed whose next-page links cycle ends once
  enough reviews are counted, re-counting the cycle's reviews on every lap.
  The loop methods take any walk along the links that ends at a page without
  a next-page link or at the page where the limit is reached
  (`IsScoringWalk`). `SelfLinkedPageRecounted` shows a page linking to
  itself being counted twice.

## Model

| member | source | states |
|---|---|---|
| Reviews.QualifyingMembers | lambda/trustpilot/classes.py:49-51 | a review is kept by the filter exactly when it is in the input and its `countsTowardsTrustScore` is true |
| Reviews.QualifyingAppend | lambda/trustpilot/classes.py:44-51 | filtering page after page equals filtering the concatenation, so the feed order is kept |
| Reviews.NextPageUrlIsLastNextLink | lambda/trustpilot/classes.py:72-77 | there is no next page exactly when no link has rel "next-page"; otherwise the next page is the href of the last such link |
| Reviews.PagesReviewsAppend | lambda/trustpilot/classes.py:44-49 | the reviews of two runs of pages are the first run's reviews followed by the second's |
| Scoring.ScoreStars | lambda/trustpilot/classes.py:124-132 | for 1-5 stars the score lies in [0, 1]; 1 star gives 0, 3 stars give 0.5, 5 stars give 1 |
| Scoring.ScoreStarsStrictlyIncreasing | lambda/trustpilot/classes.py:124-132 | more stars give a strictly higher score, and each extra star adds exactly 0.25 |
| Scoring.ScoreDate | lambda/trustpilot/classes.py:134-164 | the date score lies strictly between 0 and 1 |
| Scoring.ScoreDateStrictlyDecreasing | lambda/trustpilot/classes.py:148-164 | an older review has a strictly smaller date score |
| Scoring.ScoreDateHalfLife | lambda/trustpilot/classes.py:148-164 | the curve's midpoint at half a year: the date score is above 0.5 at 182 days and below 0.5 at 183 days |
| Scoring.ScoreReview | lambda/trustpilot/classes.py:108-122 | the maximum score is the date score; for 1-5 stars 0 <= score <= maximum; 1 star scores 0 and 5 stars score the maximum |
| Scoring.SumBounds | lambda/trustpilot/classes.py:178 | termwise 0 <= s[i] <= t[i] gives 0 <= sum(s) <= sum(t) |
| Scoring.SumPositive | lambda/trustpilot/classes.py:178 | a non-empty sum of positive terms is positive |
| Scoring.MaxScoreThreshold | lambda/trustpilot/classes.py:196-207 | the maximum threshold is 6 for one review and never below 6 |
| Scoring.MinScoreThreshold | lambda/trustpilot/classes.py:209-221 | the minimum threshold is 6 for one review and never above 6 for one review or more |
| Scoring.LogMonotone | lambda/trustpilot/classes.py:218-220 | the logarithm to base 1.5 is non-decreasing on the positive reals |
| Scoring.MaxScoreThresholdIncreasing | lambda/trustpilot/classes.py:196-207 | more reviews give a strictly higher maximum threshold |
| Scoring.MinScoreThresholdNonIncreasing | lambda/trustpilot/classes.py:209-221 | more reviews never give a higher minimum threshold |
| Scoring.CheckScoreThreshold | lambda/trustpilot/classes.py:182-194 | the result lies in [min, max]; a score already inside is returned unchanged; otherwise the result is the point of [min, max] nearest the score, i.e. the violated bound |
| Scoring.CheckScoreThresholdIdempotent | lambda/trustpilot/classes.py:182-194 | checking a checked score changes nothing |
| Scoring.CheckScoreThresholdTowardsStart | lambda/trustpilot/classes.py:182-221 | the check moves a score towards 6 and never past it |
| Scoring.CalculateTrustScore | lambda/trustpilot/classes.py:166-180 | the division fails exactly when the maximum scores sum to zero; otherwise there is at least one score and the result lies between the two thresholds for that count |
| Scoring.FullMarksReachCeiling | lambda/trustpilot/classes.py:178-179 | when every score equals its maximum, the trust score is the smaller of 10 and the maximum threshold |
| Scoring.RawTrustScoreOnScale | lambda/trustpilot/classes.py:178 | if every score lies in [0, its maximum], sum(scores) / sum(maxima) × 10 lies in [0, 10] |
| Scoring.TrustScoreOnScale | lambda/trustpilot/classes.py:178-179 | under the same condition, the checked trust score also lies in [0, 10] |
| TrustPilot.CountedIsCappedPrefix | lambda/trustpilot/classes.py:44-70 | the counted reviews all count towards the trust score; they form a prefix of the feed's qualifying reviews in feed order; there are at most max(limit, 1) of them, and exactly that many whenever the feed holds that many |
| TrustPilot.ScoresOfAt | lambda/trustpilot/classes.py:53-61 | entry i of the score list and of the maximum-score list is the score and the maximum score of counted review i |
| TrustPilot.ScanLinks | lambda/trustpilot/classes.py:72-77 | `has_next` is true exactly when a next-page link exists; the url becomes the last such link's href, or stays unchanged when there is none |
| TrustPilot.ScorePage | lambda/trustpilot/classes.py:49-70 | scanning a page appends the scores of that page's qualifying reviews until the count reaches the effective limit; both lists and the count stay in lockstep; `review_count_reached` is set exactly when the limit is hit |
| TrustPilot.ScoreNextPage | lambda/trustpilot/classes.py:45-77 | one round of the loop: the lists and the count become those of the first max(limit, 1) qualifying reviews of the pages so far, with this page added; the limit flag is set exactly when they reach it; `has_next` and the next url come from the page's last next-page link |
| TrustPilot.SelfLinkedPageRecounted | lambda/trustpilot/classes.py:44-77 | a page whose next-page link points at itself, scored with limit 2, is a walk the run ends on and its one qualifying review is counted twice |
| TrustPilot.CollectReviewScores | lambda/trustpilot/classes.py:34-77 | the counter equals both list lengths and the number of counted reviews; the lists are the scores and maximum scores of those reviews in order; the fetched pages are a prefix of the walk. The loop stops early only when the limit was reached, and the last page fetched was needed to reach it |
| TrustPilot.RoundToTenth | lambda/trustpilot/classes.py:87 | the result is a multiple of 0.1 within 0.05 of the input, and on a tie its count of tenths is even |
| TrustPilot.RoundToTenthNearest | lambda/trustpilot/classes.py:87 | no multiple of 0.1 is nearer the input than its rounding |
| TrustPilot.RoundToTenthTiesToEven | lambda/trustpilot/classes.py:84-87 | the exactly representable ties 7.25 and 7.75 round to the even tenth, 7.2 and 7.8, not half-up |
| TrustPilot.RoundToTenthIdempotent | lambda/trustpilot/classes.py:87 | rounding a rounded value changes nothing |
| TrustPilot.RoundToTenthMonotone | lambda/trustpilot/classes.py:87 | rounding preserves order |
| TrustPilot.GetTrustScore | lambda/trustpilot/classes.py:13-87 | the result is the rounded, checked trust score of the counted reviews. It fails (division by zero) exactly when the feed holds no qualifying review. On success it lies within 0.05 of the thresholds for the count |
| TrustPilot.TrustScoreFailsIffNoReviews | lambda/trustpilot/classes.py:166-180 | aggregation over the counted reviews fails exactly when no review was counted |
| TrustPilot.TrustScoreInRange | lambda/trustpilot/classes.py:166-180 | with star ratings from 1 to 5, the trust score lies on the 0-10 scale |
| TrustPilot.RoundedTrustScoreInRange | lambda/trustpilot/classes.py:84-87 | rounding keeps that trust score in [0, 10] |
| TrustPilot.FiveStarsReachCeiling | lambda/trustpilot/classes.py:108-180 | when every counted review has five stars, the trust score is the smaller of 10 and the maximum threshold for the count |

## Left out

- HTTP access is not modelled. This covers `_get_json` and `_get_business_unit` (classes.py:89-106), the lookup in `__init__` (classes.py:9-11) and the first page's URL template with `perPage=100` (classes.py:21-28). Pages come from the `fetch` parameter, and the first page's locator is a parameter.
- Parsing the JSON into review and link records is not modelled. A record missing a field (a `KeyError` in the source) is not represented.
- The clock and date parsing are not modelled: `datetime.now()` (classes.py:32), `strptime` and `.days` (classes.py:156-157). Each review carries its age in whole days.
- The exact floating-point values of `math.exp` and `math.log` are not modelled. Both become parameters constrained by the laws above, and all arithmetic is over exact reals.
- TrustPilot.TrustScoreFailsIffNoReviews: holds over exact reals, where every date score is positive. With floats, `exp` at the curve becomes so small for reviews older than about 26 years that 1 / (1 + exp(...)) is exactly 1.0. Their date score is then 0.0, and the division can fail even with reviews counted.
- TrustPilot.RoundToTenth: rounds the exact real value. Python rounds the binary double, so a decimal tie such as 7.35, which is not exactly representable, goes whichever way its nearest double lies (7.35 gives 7.3 there, 7.4 in the model).
- TrustPilot.RoundToTenthTiesToEven: its examples are exact binary fractions, so only ties of that kind follow the even-tenth rule in the source as well.
- TrustPilot.GetTrustScore, TrustPilot.CollectReviewScores: require a walk along the next-page links on which the run ends (`IsScoringWalk`). What this leaves out is exactly the feeds on which the source never stops: the next-page links go on forever, through a cycle or through ever new pages, and the pages never supply max(limit, 1) qualifying reviews.
- Scoring.MaxScoreThreshold: requires at least one review. `math.log` raises a domain error for a count of 0, but the only caller reaches the thresholds only after a successful division, which implies at least one review.
- `deploy.py` (packaging and cloud deployment) is not part of this model.
- The default limit of 300 is not modelled. `get_trustscore` has it as its own default (classes.py:13), and the request handler in `lambda/lambda_function.py`, which is not part of this model, also uses 300. `GetTrustScore` takes the limit as a plain argument.
