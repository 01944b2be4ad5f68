/**
 * The review feed as the trust-score loop sees it: reviews, pages of
 * reviews, and the links that chain one page to the next.
 */
module Reviews {

  datatype Option<T> = None | Some(value: T)

  /** A page locator: the `href` of a link. */
  type Url = string

  /**
   * One review record. `ageDays` is the review's age in whole days at the
   * moment the scoring run started (the source derives it from `createdAt`).
   */
  datatype Review = Review(stars: int, ageDays: int, countsTowardsTrustScore: bool)

  datatype Link = Link(rel: string, href: Url)

  /** One page of the feed: its reviews in feed order and its links. */
  datatype Page = Page(reviews: seq<Review>, links: seq<Link>)

  /** The `rel` of the link that locates the following page. */
  const NextPageRel: string := "next-page"

  /** The reviews of `rs` that count towards the trust score, in feed order. */
  function Qualifying(rs: seq<Review>): (q: seq<Review>)
    ensures |q| <= |rs|
  {
    if rs == [] then []
    else
      var last := rs[|rs| - 1];
      Qualifying(rs[..|rs| - 1]) + if last.countsTowardsTrustScore then [last] else []
  }

  /** Exactly the reviews that count are kept. */
  lemma {:induction false} QualifyingMembers(rs: seq<Review>)
    ensures forall r :: r in Qualifying(rs) <==> r in rs && r.countsTowardsTrustScore
  {
    if rs != [] {
      assert rs == rs[..|rs| - 1] + [rs[|rs| - 1]];
      QualifyingMembers(rs[..|rs| - 1]);
    }
  }

  /** Filtering distributes over concatenation, so feed order is kept. */
  lemma {:induction false} QualifyingAppend(a: seq<Review>, b: seq<Review>)
    ensures Qualifying(a + b) == Qualifying(a) + Qualifying(b)
    decreases |b|
  {
    if b == [] {
      assert a + b == a;
    } else {
      var b' := b[..|b| - 1];
      var last := b[|b| - 1];
      assert (a + b)[..|a + b| - 1] == a + b';
      QualifyingAppend(a, b');
      assert Qualifying(a + b) == Qualifying(a + b') + if last.countsTowardsTrustScore then [last] else [];
    }
  }

  /**
   * The locator of the following page: the `href` of the LAST link whose
   * `rel` is "next-page", or None when the page has no such link.
   */
  function NextPageUrl(links: seq<Link>): Option<Url>
  {
    if links == [] then None
    else if links[|links| - 1].rel == NextPageRel then Some(links[|links| - 1].href)
    else NextPageUrl(links[..|links| - 1])
  }

  /** True when `links[i]` is a next-page link and no later link is one. */
  ghost predicate IsLastNextLink(links: seq<Link>, i: int)
  {
    && 0 <= i < |links|
    && links[i].rel == NextPageRel
    && forall j :: i < j < |links| ==> links[j].rel != NextPageRel
  }

  /** NextPageUrl finds the last next-page link, and finds none only when there is none. */
  lemma {:induction false} NextPageUrlIsLastNextLink(links: seq<Link>)
    ensures NextPageUrl(links).None? <==> forall i :: 0 <= i < |links| ==> links[i].rel != NextPageRel
    ensures NextPageUrl(links).Some? ==>
      exists i :: IsLastNextLink(links, i) && links[i].href == NextPageUrl(links).value
  {
    if links != [] && links[|links| - 1].rel != NextPageRel {
      var init := links[..|links| - 1];
      NextPageUrlIsLastNextLink(init);
      if NextPageUrl(init).Some? {
        var i :| IsLastNextLink(init, i) && init[i].href == NextPageUrl(init).value;
        assert IsLastNextLink(links, i);
      }
    } else if links != [] {
      assert IsLastNextLink(links, |links| - 1);
    }
  }

  /** All reviews on the pages at `urls`, page after page, in feed order. */
  function PagesReviews(fetch: Url -> Page, urls: seq<Url>): seq<Review>
  {
    if urls == [] then []
    else PagesReviews(fetch, urls[..|urls| - 1]) + fetch(urls[|urls| - 1]).reviews
  }

  lemma {:induction false} PagesReviewsAppend(fetch: Url -> Page, a: seq<Url>, b: seq<Url>)
    ensures PagesReviews(fetch, a + b) == PagesReviews(fetch, a) + PagesReviews(fetch, b)
    decreases |b|
  {
    if b == [] {
      assert a + b == a;
    } else {
      var b' := b[..|b| - 1];
      assert (a + b)[..|a + b| - 1] == a + b';
      PagesReviewsAppend(fetch, a, b');
      assert PagesReviews(fetch, a + b) == PagesReviews(fetch, a + b') + fetch(b[|b| - 1]).reviews;
    }
  }

  /** The page at `from` has `to` as its next-page locator. */
  ghost predicate LinksTo(fetch: Url -> Page, from: Url, to: Url)
  {
    NextPageUrl(fetch(from).links) == Some(to)
  }

  /**
   * `walk` is a sequence of pages reached from `first` by following
   * next-page links: each page links on to the one after it. Pages may
   * repeat when the links cycle.
   */
  ghost predicate IsLinkWalk(fetch: Url -> Page, first: Url, walk: seq<Url>)
  {
    && |walk| > 0
    && walk[0] == first
    && (forall i :: 0 <= i < |walk| - 1 ==> LinksTo(fetch, walk[i], walk[i + 1]))
  }
}
