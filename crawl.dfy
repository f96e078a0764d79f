/**
 * `crawl_one_type` and the review-type loop of `main`: pages are requested one
 * after another until a page has no review cards or the page limit is passed.
 */
module Crawl {
  import opened Markup
  import opened Review

  const ProductReviews: string := "product-reviews"
  const Both: string := "both"

  /**
   * What fetching one page and extracting its `.jdgm-rev` cards gives: the
   * cards in document order, or `Failed` when the request raised (a non-2xx
   * status, or a JSON body that does not parse), which ends the whole run.
   */
  datatype Response = Cards(cards: seq<Card>) | Failed

  /** `extract_reviews(fetch_page(p, rtype))`, as a function of the review type and the page. */
  type Fetcher = (string, int) -> Response

  /** The rows collected, or the request that raised. */
  datatype Outcome = Done(rows: seq<Record>) | Aborted(rtype: string, page: int)

  /** A page that continues the crawl: it was fetched and holds at least one card. */
  predicate HasCards(r: Response)
  {
    r.Cards? && |r.cards| > 0
  }

  /** Rows gathered so far, followed by what comes after; an abort discards them. */
  function Prepend(rows: seq<Record>, rest: Outcome): Outcome
  {
    match rest
    case Done(more) => Done(rows + more)
    case Aborted(t, p) => rest
  }

  /** Prepending twice is prepending the concatenation. */
  lemma PrependTwice(a: seq<Record>, b: seq<Record>, rest: Outcome)
    ensures Prepend(a, Prepend(b, rest)) == Prepend(a + b, rest)
  {
    if rest.Done? {
      assert a + (b + rest.rows) == (a + b) + rest.rows;
    }
  }

  /** Prepending to an empty collection gives just the rows. */
  lemma PrependNothing(a: seq<Record>)
    ensures Prepend(a, Done([])) == Done(a)
  {
    assert a + [] == a;
  }

  /** `[parse_review(n, rtype) for n in nodes]`. */
  function ParseAll(cards: seq<Card>, rtype: string): (rows: seq<Record>)
    ensures |rows| == |cards|
    ensures forall i | 0 <= i < |rows| :: rows[i] == ParseReview(cards[i], rtype)
  {
    seq(|cards|, i requires 0 <= i < |cards| => ParseReview(cards[i], rtype))
  }

  /** How many pages `range(start, limit + 1)` holds. */
  function PageBudget(start: int, limit: int): nat
  {
    if limit < start then 0 else limit - start + 1
  }

  /**
   * What `crawl_one_type` collects from page `p` on: nothing past the limit or
   * at the first page without cards; the parsed rows of a page with cards
   * followed by what the later pages give; an abort at a page that fails.
   */
  function CrawlFrom(fetch: Fetcher, rtype: string, p: int, limit: int): (r: Outcome)
    ensures r.Aborted? ==> r.rtype == rtype && p <= r.page <= limit && fetch(rtype, r.page).Failed?
    ensures r.Done? ==> forall i | 0 <= i < |r.rows| :: r.rows[i].kind == KindOf(rtype)
    decreases PageBudget(p, limit)
  {
    if p > limit then Done([])
    else match fetch(rtype, p)
      case Failed => Aborted(rtype, p)
      case Cards(cards) =>
        if |cards| == 0 then Done([])
        else Prepend(ParseAll(cards, rtype), CrawlFrom(fetch, rtype, p + 1, limit))
  }

  /**
   * `crawl_one_type(rtype)`: `requested` lists the pages fetched, in order.
   * They are consecutive from `start`, no more than the page range holds,
   * every one but the last had cards, and a crawl that ends before the page
   * range is used up ends at a page without cards or one that failed.
   */
  method CrawlOneType(fetch: Fetcher, rtype: string, start: int, limit: int)
    returns (res: Outcome, requested: seq<int>)
    ensures res == CrawlFrom(fetch, rtype, start, limit)
    ensures |requested| <= PageBudget(start, limit)
    ensures forall k | 0 <= k < |requested| :: requested[k] == start + k
    ensures forall k | 0 <= k < |requested| - 1 :: HasCards(fetch(rtype, requested[k]))
    ensures |requested| < PageBudget(start, limit) ==>
              |requested| > 0 && !HasCards(fetch(rtype, requested[|requested| - 1]))
  {
    var allrows: seq<Record> := [];
    requested := [];
    var p := start;
    while p <= limit
      invariant p == start + |requested|
      invariant |requested| <= PageBudget(start, limit)
      invariant forall k | 0 <= k < |requested| :: requested[k] == start + k
      invariant forall k | 0 <= k < |requested| :: HasCards(fetch(rtype, requested[k]))
      invariant CrawlFrom(fetch, rtype, start, limit) == Prepend(allrows, CrawlFrom(fetch, rtype, p, limit))
      decreases PageBudget(p, limit)
    {
      var response := fetch(rtype, p);
      requested := requested + [p];
      if response.Failed? {
        return Aborted(rtype, p), requested;
      }
      if |response.cards| == 0 {
        break;
      }
      var parsed := ParseAll(response.cards, rtype);
      PrependTwice(allrows, parsed, CrawlFrom(fetch, rtype, p + 1, limit));
      allrows := allrows + parsed;
      p := p + 1;
    }
    PrependNothing(allrows);
    res := Done(allrows);
  }

  /** The cards of a fetched page; none for a failed one. */
  function CardsOf(r: Response): seq<Card>
  {
    if r.Cards? then r.cards else []
  }

  /** The parsed cards of pages `start` to `start + n - 1`, page after page, each page in card order. */
  function PagesRows(fetch: Fetcher, rtype: string, start: int, n: nat): seq<Record>
    decreases n
  {
    if n == 0 then []
    else ParseAll(CardsOf(fetch(rtype, start)), rtype) + PagesRows(fetch, rtype, start + 1, n - 1)
  }

  /**
   * Against a site whose pages `start` to `start + n - 1` have cards and whose
   * page `start + n` is empty, the crawl collects the parsed cards of those
   * pages in page-then-card order, when the limit lets it reach the empty page.
   */
  lemma {:induction false} CrawlRowsInPageOrder(fetch: Fetcher, rtype: string, start: int, limit: int, n: nat)
    requires start + n <= limit + 1
    requires forall p | start <= p < start + n :: HasCards(fetch(rtype, p))
    requires start + n <= limit ==> fetch(rtype, start + n) == Cards([])
    ensures CrawlFrom(fetch, rtype, start, limit) == Done(PagesRows(fetch, rtype, start, n))
    decreases n
  {
    if n > 0 {
      assert HasCards(fetch(rtype, start));
      CrawlRowsInPageOrder(fetch, rtype, start + 1, limit, n - 1);
    }
  }

  /**
   * A request that fails ends the crawl: when pages `start` to `start + n - 1`
   * have cards and page `start + n`, still within the limit, fails, the crawl
   * aborts there and none of the rows gathered before it survive.
   */
  lemma {:induction false} CrawlAbortsAtFailedPage(fetch: Fetcher, rtype: string, start: int, limit: int, n: nat)
    requires start + n <= limit
    requires forall p | start <= p < start + n :: HasCards(fetch(rtype, p))
    requires fetch(rtype, start + n).Failed?
    ensures CrawlFrom(fetch, rtype, start, limit) == Aborted(rtype, start + n)
    decreases n
  {
    if n > 0 {
      assert HasCards(fetch(rtype, start));
      CrawlAbortsAtFailedPage(fetch, rtype, start + 1, limit, n - 1);
    }
  }

  /**
   * Against a site whose pages `start` to `start + n - 1` hold `size` cards
   * each and whose page `start + n` is empty, the crawl collects exactly
   * `n * size` rows, when the limit lets it reach the empty page.
   */
  lemma {:induction false} CrawlCount(fetch: Fetcher, rtype: string, start: int, limit: int, n: nat, size: nat)
    requires start + n <= limit + 1
    requires forall p | start <= p < start + n :: fetch(rtype, p).Cards? && |fetch(rtype, p).cards| == size
    requires start + n <= limit ==> fetch(rtype, start + n) == Cards([])
    ensures CrawlFrom(fetch, rtype, start, limit).Done?
    ensures |CrawlFrom(fetch, rtype, start, limit).rows| == n * size
    decreases n
  {
    if n > 0 {
      assert fetch(rtype, start).Cards?;
      CrawlCount(fetch, rtype, start + 1, limit, n - 1, size);
      if size == 0 {
        assert CrawlFrom(fetch, rtype, start, limit) == Done([]);
      }
    }
  }

  /**
   * The crawl does not look past the first page without cards: two sites that
   * agree up to that page give the same outcome.
   */
  lemma {:induction false} CrawlStopsAtEmptyPage(fetch: Fetcher, other: Fetcher, rtype: string, p: int, stop: int, limit: int)
    requires p <= stop <= limit
    requires !HasCards(fetch(rtype, stop))
    requires forall q | p <= q <= stop :: fetch(rtype, q) == other(rtype, q)
    ensures CrawlFrom(fetch, rtype, p, limit) == CrawlFrom(other, rtype, p, limit)
    decreases stop - p
  {
    if p < stop {
      CrawlStopsAtEmptyPage(fetch, other, rtype, p + 1, stop, limit);
    }
  }

  // ----- main: one or two review types -----

  /** `["product-reviews", "shop-reviews"] if REVIEW_TYPE == "both" else [REVIEW_TYPE]`. */
  function ReviewTypes(reviewType: string): seq<string>
  {
    if reviewType == Both then [ProductReviews, ShopReviews] else [reviewType]
  }

  /** The rows of the crawls of `types`, one type fully before the next; the first abort ends it. */
  function CollectAll(fetch: Fetcher, types: seq<string>, start: int, limit: int): Outcome
  {
    if types == [] then Done([])
    else match CrawlFrom(fetch, types[0], start, limit)
      case Aborted(t, p) => Aborted(t, p)
      case Done(rows) => Prepend(rows, CollectAll(fetch, types[1..], start, limit))
  }

  /** The loop of `main` that extends `allrows` with each review type's crawl. */
  method CrawlAll(fetch: Fetcher, reviewType: string, start: int, limit: int) returns (res: Outcome)
    ensures res == CollectAll(fetch, ReviewTypes(reviewType), start, limit)
  {
    var types := ReviewTypes(reviewType);
    var allrows: seq<Record> := [];
    for i := 0 to |types|
      invariant CollectAll(fetch, types, start, limit) == Prepend(allrows, CollectAll(fetch, types[i..], start, limit))
    {
      var rows, _ := CrawlOneType(fetch, types[i], start, limit);
      assert types[i..][1..] == types[i + 1..];
      if rows.Aborted? {
        return rows;
      }
      PrependTwice(allrows, rows.rows, CollectAll(fetch, types[i + 1..], start, limit));
      allrows := allrows + rows.rows;
    }
    PrependNothing(allrows);
    res := Done(allrows);
  }

  /**
   * With `both`, product reviews are crawled in full first, then shop reviews,
   * and the rows are the product rows followed by the shop rows; when the
   * product crawl fails, that failure is the outcome and the shop crawl does
   * not affect it.
   */
  lemma BothCrawlsProductThenShop(fetch: Fetcher, start: int, limit: int)
    ensures var product := CrawlFrom(fetch, ProductReviews, start, limit);
            var shop := CrawlFrom(fetch, ShopReviews, start, limit);
            var all := CollectAll(fetch, ReviewTypes(Both), start, limit);
            (product.Aborted? ==> all == product)
            && (product.Done? && shop.Aborted? ==> all == shop)
            && (product.Done? && shop.Done? ==> all == Done(product.rows + shop.rows))
  {
    var types := ReviewTypes(Both);
    assert types[1..] == [ShopReviews] && types[1..][1..] == [];
    var shop := CrawlFrom(fetch, ShopReviews, start, limit);
    assert CollectAll(fetch, [], start, limit) == Done([]);
    if shop.Done? {
      PrependNothing(shop.rows);
      assert CollectAll(fetch, types[1..], start, limit) == shop;
    }
  }

  /** No product row comes after a shop row. */
  predicate ProductRowsFirst(rows: seq<Record>)
  {
    forall i, j | 0 <= i < j < |rows| && rows[i].kind == Shop :: rows[j].kind == Shop
  }

  /** Product rows followed by shop rows have no product row after a shop row. */
  lemma ConcatKeepsProductRowsFirst(product: seq<Record>, shop: seq<Record>)
    requires forall i | 0 <= i < |product| :: product[i].kind == Product
    requires forall i | 0 <= i < |shop| :: shop[i].kind == Shop
    ensures ProductRowsFirst(product + shop)
  {
    var rows, m := product + shop, |product|;
    assert forall k | 0 <= k < m :: rows[k] == product[k];
    assert forall k | m <= k < |rows| :: rows[k] == shop[k - m];
  }

  /** With `both`, every product row comes before every shop row. */
  lemma BothKeepsProductRowsFirst(fetch: Fetcher, start: int, limit: int)
    ensures var all := CollectAll(fetch, ReviewTypes(Both), start, limit);
            all.Done? ==> ProductRowsFirst(all.rows)
  {
    BothCrawlsProductThenShop(fetch, start, limit);
    var product := CrawlFrom(fetch, ProductReviews, start, limit);
    var shop := CrawlFrom(fetch, ShopReviews, start, limit);
    if CollectAll(fetch, ReviewTypes(Both), start, limit).Done? {
      assert KindOf(ProductReviews) == Product;
      ConcatKeepsProductRowsFirst(product.rows, shop.rows);
    }
  }

  /** Any other review type is crawled on its own, and names the type of every row. */
  lemma SingleTypeCrawl(fetch: Fetcher, reviewType: string, start: int, limit: int)
    requires reviewType != Both
    ensures CollectAll(fetch, ReviewTypes(reviewType), start, limit) == CrawlFrom(fetch, reviewType, start, limit)
  {
    var types := ReviewTypes(reviewType);
    assert types[1..] == [];
    var crawl := CrawlFrom(fetch, reviewType, start, limit);
    if crawl.Done? {
      PrependNothing(crawl.rows);
    }
  }
}
