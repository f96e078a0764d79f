# jdgm-reviews-xml, modelled in Dafny

`build_xml.py` is a batch job. It pages through the Judge.me "all reviews"
widget API for one or both review types. It turns every `.jdgm-rev` card
into a review record and writes all records into one XML file. This project
models the logic that sits between the library calls:

- `parse_review`: how one card becomes a record. This covers the rating
  rule (a `data-rating` attribute first, then the regular expression
  `([1-5])\s*star` on the card's `aria-label`), the "first non-empty
  selector alias wins" text lookup, the product link and the photo list.
- `crawl_one_type`: the page loop. It runs from `PAGE_START` to `PAGE_LIMIT`
  and stops at the first page without cards.
- The review-type loop of `main`. `both` crawls product reviews, then shop
  reviews.
- `build_xml`: the shape of the element tree, including its `total`, one
  `review` per row and the optional `photos` container.

The HTTP request and the HTML parser are given as inputs:

- A `Fetcher` maps a review type and a page number to the cards found
  there, or to a failure.
- A `Card` holds what the parser would return for that card: its own
  attributes, the element each selector finds, and its `img` elements.

Files, one module each:

- `wrappers.dfy`: `Option`.
- `text.dfy`: Python's `isspace`, `strip`, `join`, and `str(n)` with its
  inverse.
- `markup.dfy`: elements, cards and `get_text(sep, strip=True)`.
- `review.dfy`: `parse_review`.
- `crawl.dfy`: `crawl_one_type` and the review-type loop.
- `xml.dfy`: `build_xml`, plus a reader that turns the tree back into rows.
- `pipeline.dfy`: `main` up to the file write.

Behaviour of the script that the model keeps as written:

- A `data-rating` value is not checked to be 1 to 5. Any non-empty stripped
  value is the rating.
- The product title and link are read for shop reviews too. They are not
  forced to be empty.
- Text is joined from the stripped text strings with single spaces.
  Whitespace inside one string is kept as it is.
- `fetch_page` takes the HTML from the JSON `html`, `widget` or `data`
  field and reads no review objects from the JSON. That choice is part of
  the fetch oracle.

## Model

| member | source | states |
|---|---|---|
| `Text.Strip` | build_xml.py:67 | `s.strip()`: the infix left after removing leading and trailing whitespace (Python's `isspace` set); it is empty exactly when `s` is all whitespace |
| `Text.NatToString` | build_xml.py:111 | `str(len(rows))` is a non-empty run of decimal digits with no leading zero |
| `Text.ParseNatToString` | build_xml.py:111 | the `total` string reads back as the count it was made from |
| `Markup.Pieces` | build_xml.py:61-62 | `get_text(strip=True)` keeps no empty string and never more strings than there are |
| `Markup.PiecesEmpty` | build_xml.py:61-62 | no string is kept exactly when every text string of the element is whitespace |
| `Markup.GetTextNoPieces` | build_xml.py:61-62 | `get_text(sep, strip=True)` is empty exactly when no string is kept, for any separator |
| `Markup.GetTextEmpty` | build_xml.py:61-62 | the emptiness test `el.get_text(strip=True)` and the text returned by `el.get_text(" ", strip=True)` agree: both are empty exactly when the element has only whitespace text |
| `Review.KindOf` | build_xml.py:85 | `type` is `shop` exactly when `rtype == "shop-reviews"`, otherwise `product` |
| `Review.FirstText` | build_xml.py:58-63 | `text(sels)` is "" exactly when no alias finds an element with non-empty stripped text |
| `Review.FirstTextPriority` | build_xml.py:58-63 | earlier aliases win: the first alias that qualifies supplies the space-joined text |
| `Review.SkipSpaces` | build_xml.py:72 | the greedy `\s*` consumes the whole whitespace run after the digit and stops at a non-space character or the end |
| `Review.MatchAtIsRegexMatch` | build_xml.py:72 | the greedy reading of `([1-5])\s*star` at a position matches exactly when the regular expression matches there with some whitespace run |
| `Review.FirstMatch` | build_xml.py:72 | `re.search` finds the leftmost matching position, or none when no position matches |
| `Review.AriaRating` | build_xml.py:68-73 | the aria fallback is "" exactly when nothing matches, otherwise the single digit 1 to 5 of the leftmost match |
| `Review.AriaRatingExamples` | build_xml.py:72-73 | "Rated 5 stars" gives "5", "4 STAR" gives "4", "10 stars" gives "" |
| `Review.RatingChoice` | build_xml.py:64-73 | a non-empty stripped `data-rating` is the rating whatever the aria label says (not checked to be 1 to 5); otherwise the rating is the aria fallback, "" or one digit 1 to 5 |
| `Review.ProductTitle` | build_xml.py:78-79 | `product_title` is "" when no product element is found, and otherwise is "" exactly when all of that element's text is whitespace |
| `Review.ProductUrl` | build_xml.py:80-82 | `product_url` is the `href` of the `.jdgm-rev__prod-link` element whenever that element has one, and "" otherwise |
| `Review.Photos` | build_xml.py:83 | no photo is empty and there are no more photos than `img` elements |
| `Review.PhotosAppend` | build_xml.py:83 | the photo list follows document order: the photos of two runs of images are those of the first run followed by those of the second, duplicates kept |
| `Review.PhotosOfOne` | build_xml.py:83 | one image contributes its `src` exactly when the `src` is present and non-empty |
| `Review.ParseReview` | build_xml.py:56-90 | each field comes from its own rule: rating from the rating rule, title from `.jdgm-rev__title`, body from `.jdgm-rev__body` then `.jdgm-rev__content`, author from `.jdgm-rev__author`, created_at from `.jdgm-rev__timestamp` then `.jdgm-rev__date`, photos from the `img` list; the record's type follows `rtype`; its rating is "", the stripped `data-rating`, or one digit 1 to 5; its product title and URL depend on the card alone, not on the review type, so shop reviews get them too; its product URL needs a linked `href`; its photos are non-empty and at most one per image |
| `Review.EmptyCardGivesEmptyRecord` | build_xml.py:56-90 | a card with nothing in it still gives a record, with every field empty |
| `Crawl.ParseAll` | build_xml.py:105 | one record per node, in node order |
| `Crawl.CrawlFrom` | build_xml.py:92-108 | a crawl either aborts at a page of this range whose request failed, or collects rows that all carry the type of `rtype` |
| `Crawl.CrawlOneType` | build_xml.py:92-108 | returns the rows described by `CrawlFrom`; pages are requested consecutively from `PAGE_START`, at most `max(0, PAGE_LIMIT - PAGE_START + 1)` of them, and every requested page but the last had cards; a crawl that stops early stops at a page without cards or a failed one |
| `Crawl.CrawlRowsInPageOrder` | build_xml.py:94-108 | when pages `start` to `start + n - 1` have cards and the next page is empty, the crawl's rows are the parsed cards of those pages, page after page and each page in card order; the empty page adds nothing |
| `Crawl.CrawlAbortsAtFailedPage` | build_xml.py:94-95 | when pages `start` to `start + n - 1` have cards and page `start + n`, within the limit, fails (build_xml.py:37-40 raises), the crawl aborts at that page and keeps no rows |
| `Crawl.CrawlCount` | build_xml.py:94-106 | with `n` pages of `size` cards and then an empty page, the crawl collects exactly `n * size` rows |
| `Crawl.CrawlStopsAtEmptyPage` | build_xml.py:103-104 | nothing after the first page without cards affects the outcome |
| `Crawl.CrawlAll` | build_xml.py:126-130 | the loop of `main` collects the crawls of the selected types in order, and stops at the first crawl that fails |
| `Crawl.BothCrawlsProductThenShop` | build_xml.py:126-130 | `both` gives the product rows followed by the shop rows; when the product crawl fails, that failure is the outcome and the shop crawl does not affect it |
| `Crawl.BothKeepsProductRowsFirst` | build_xml.py:126-130 | with `both`, no product row follows a shop row |
| `Crawl.SingleTypeCrawl` | build_xml.py:126 | any other review type is crawled on its own |
| `Xml.BuildReview` | build_xml.py:113-119 | one `review` element: `type` and `rating` attributes, the six text children, and a `photos` child only when there are photos |
| `Xml.BuildXml` | build_xml.py:110-120 | the root `reviews` carries `generated_at` and `total`, with one `review` child per row in row order |
| `Xml.DocumentShape` | build_xml.py:111-119 | `total` reads back as the row count; one `review` per row in order with `type`/`rating`; the six text children title, body, author, created_at, product_title, product_url in that order; a seventh child `photos`, with one `photo` per URL in order, exactly when the row has photos |
| `Xml.ReadReviewNode` | build_xml.py:113-119 | a `review` element reads back as the row it came from |
| `Xml.ReadReviewNodes` | build_xml.py:112-119 | the `review` elements read back as the rows, in order |
| `Xml.ReadDocumentRoundTrip` | build_xml.py:110-120 | the tree loses nothing: the document reads back as exactly the rows, in order |
| `Pipeline.Run` | build_xml.py:126-133 | a run either builds the document from everything collected, or builds nothing when a request failed |

## Left out

- `fetch_page` (build_xml.py:30-45) is left out. It covers the HTTP request, the status check, content-type sniffing and the choice among the JSON `html`/`widget`/`data` fields. This is network I/O. The `Fetcher` oracle stands for it together with extraction. A request that raises is the oracle's `Failed`.
- `extract_reviews` and BeautifulSoup's HTML parsing and CSS selector engine are left out. These are a foreign library. What `select_one`, `select` and `get` return for a card is given as data.
- The group selector `.jdgm-rev__prod-link, .jdgm-rev__product` is its own entry in a card's `found` map. It is not derived from the entries of the two selectors it combines, because document order is not modelled.
- `Review.LetterMatches` models case-insensitive matching only for the four letters of `star`. Python's `re.I` lets `s` also match U+017F. The other three letters have only their ASCII case pair.
- Reading the environment is left out: `PAGE_START`, `PAGE_LIMIT` and the review type are parameters. The `PAGE_DELAY` parsing, `time.sleep`, the exit on missing configuration and the debug prints are left out too. These are configuration, floating point and timing.
- The debug dump of page 1, directory creation, writing the XML file and the `ZERO_REVIEWS.txt` marker are left out. These are file I/O.
- `datetime.utcnow()` is a clock. It is the parameter `generatedAt`.
- ElementTree's byte serialisation and escaping are left out. A text of `None` and a text of `""` are both modelled as `""`, since both serialise alike. `str(r["rating"])` and `val or ""` are identities on the strings the model carries.
- `Xml.BuildReview` builds values instead of mutating objects. ElementTree's `SubElement` mutates elements in place, and `photos` is attached to `review` before its `photo` children are added. The model fills the container first and then appends it. The final tree is the same. The aliasing between the attached element and the local variable is not modelled.
