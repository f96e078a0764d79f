/**
 * `parse_review`: one review card becomes one canonical review record.
 */
module Review {
  import opened Wrappers
  import opened Text
  import opened Markup

  /** The review-type value that makes a record a shop review. */
  const ShopReviews: string := "shop-reviews"

  /** Selectors and attribute names the parser asks the card about. */
  const RatingSelector: string := "[data-rating]"
  const RatingAttr: string := "data-rating"
  const AriaLabelAttr: string := "aria-label"
  const SrcAttr: string := "src"
  const HrefAttr: string := "href"
  const ProductSelector: string := ".jdgm-rev__prod-link, .jdgm-rev__product"
  const ProductLinkSelector: string := ".jdgm-rev__prod-link"

  /** The alias lists of the four text fields, in priority order. */
  const TitleSelectors: seq<string> := [".jdgm-rev__title"]
  const BodySelectors: seq<string> := [".jdgm-rev__body", ".jdgm-rev__content"]
  const AuthorSelectors: seq<string> := [".jdgm-rev__author"]
  const DateSelectors: seq<string> := [".jdgm-rev__timestamp", ".jdgm-rev__date"]

  datatype Kind = Product | Shop

  /** The record's `type` as written into the output. */
  function KindName(k: Kind): string
  {
    match k
    case Product => "product"
    case Shop => "shop"
  }

  /** The canonical record `parse_review` returns. */
  datatype Record = Record(
    kind: Kind,
    rating: string,
    title: string,
    body: string,
    author: string,
    createdAt: string,
    productTitle: string,
    productUrl: string,
    photos: seq<string>)

  /** `"shop" if rtype == "shop-reviews" else "product"`. */
  function KindOf(rtype: string): (k: Kind)
    ensures k == Shop <==> rtype == ShopReviews
  {
    if rtype == ShopReviews then Shop else Product
  }

  // ----- text fields: the inner `text(sel_list)` helper -----

  /** A selector qualifies when it finds an element whose stripped text is not empty. */
  predicate Qualifies(card: Card, sel: string)
  {
    sel in card.found && GetText(card.found[sel], "") != []
  }

  /** `sels[k]` is the first alias in `sels` that qualifies. */
  predicate FirstQualifier(card: Card, sels: seq<string>, k: int)
  {
    0 <= k < |sels| && Qualifies(card, sels[k]) && forall j | 0 <= j < k :: !Qualifies(card, sels[j])
  }

  /**
   * The text of the first alias that qualifies, its strings joined by single
   * spaces; the empty string when no alias qualifies.
   */
  function FirstText(card: Card, sels: seq<string>): (r: string)
    ensures (forall k | 0 <= k < |sels| :: !Qualifies(card, sels[k])) <==> r == []
  {
    if sels == [] then ""
    else if Qualifies(card, sels[0]) then
      GetTextNoPieces(card.found[sels[0]], "");
      GetTextNoPieces(card.found[sels[0]], " ");
      GetText(card.found[sels[0]], " ")
    else
      var r := FirstText(card, sels[1..]);
      assert forall k | 1 <= k < |sels| :: sels[k] == sels[1..][k - 1];
      r
  }

  /** Earlier aliases take priority: the first alias that qualifies supplies the text. */
  lemma {:induction false} FirstTextPriority(card: Card, sels: seq<string>, k: int)
    requires FirstQualifier(card, sels, k)
    ensures FirstText(card, sels) == GetText(card.found[sels[k]], " ")
  {
    if k > 0 {
      assert !Qualifies(card, sels[0]);
      assert forall j | 0 <= j < k - 1 :: sels[1..][j] == sels[j + 1];
      FirstTextPriority(card, sels[1..], k - 1);
    }
  }

  // ----- rating -----

  /** `el["data-rating"].strip()` for `el = node.select_one("[data-rating]")`, or "" when there is none. */
  function DataRating(card: Card): string
  {
    if RatingSelector in card.found && RatingAttr in card.found[RatingSelector].attrs
    then Strip(card.found[RatingSelector].attrs[RatingAttr])
    else ""
  }

  /** `node.get("aria-label") or ""`. */
  function AriaLabel(card: Card): string
  {
    AttrOrEmpty(card.attrs, AriaLabelAttr)
  }

  /** The character class `[1-5]`. */
  predicate IsRatingDigit(c: char)
  {
    '1' <= c <= '5'
  }

  /** The word the regular expression looks for after the digit. */
  const Star: string := "star"

  /**
   * Whether `c` matches the pattern letter `p` of `Star` under `re.I`. Python's
   * case-insensitive matching also lets `s` match U+017F (long s).
   */
  predicate LetterMatches(c: char, p: char)
  {
    c == p
    || ('a' <= p <= 'z' && c as int == p as int - 32)
    || (p == 's' && c == '\U{17F}')
  }

  /** `star`, case-insensitively, begins at position `j` of `s`. */
  predicate StarAt(s: string, j: int)
  {
    0 <= j && j + |Star| <= |s| && forall i | 0 <= i < |Star| :: LetterMatches(s[j + i], Star[i])
  }

  /** The position after the longest run of whitespace starting at `i`: what the greedy `\s*` consumes. */
  function SkipSpaces(s: string, i: nat): (j: nat)
    requires i <= |s|
    ensures i <= j <= |s|
    ensures forall k | i <= k < j :: IsSpace(s[k])
    ensures j == |s| || !IsSpace(s[j])
    decreases |s| - i
  {
    if i < |s| && IsSpace(s[i]) then SkipSpaces(s, i + 1) else i
  }

  /** `([1-5])\s*star` matches at position `k`, the greedy `\s*` taking the whole whitespace run. */
  predicate MatchAt(s: string, k: int)
  {
    0 <= k < |s| && IsRatingDigit(s[k]) && StarAt(s, SkipSpaces(s, k + 1))
  }

  /** The regular expression's own reading: some whitespace run of any length, then `star`. */
  predicate RegexMatchAt(s: string, k: int)
  {
    0 <= k < |s| && IsRatingDigit(s[k])
    && exists j | k + 1 <= j <= |s| :: AllSpace(s[k + 1..j]) && StarAt(s, j)
  }

  /** Backtracking cannot help the greedy `\s*`: no letter of `star` is whitespace. */
  lemma MatchAtIsRegexMatch(s: string, k: int)
    ensures MatchAt(s, k) <==> RegexMatchAt(s, k)
  {
    if 0 <= k < |s| && IsRatingDigit(s[k]) {
      var e := SkipSpaces(s, k + 1);
      if MatchAt(s, k) {
        assert AllSpace(s[k + 1..e]);
      }
      if RegexMatchAt(s, k) {
        var j :| k + 1 <= j <= |s| && AllSpace(s[k + 1..j]) && StarAt(s, j);
        forall m | k + 1 <= m < j
          ensures IsSpace(s[m])
        {
          assert s[k + 1..j][m - (k + 1)] == s[m];
        }
        assert !IsSpace(s[j]) by {
          assert LetterMatches(s[j + 0], Star[0]) && Star[0] == 's';
        }
        assert j == e;
      }
    }
  }

  /** `re.search`: the leftmost position at or after `from` where the pattern matches. */
  function FirstMatch(s: string, from: nat): (r: Option<nat>)
    requires from <= |s|
    ensures r.None? ==> forall k | from <= k < |s| :: !MatchAt(s, k)
    ensures r.Some? ==> from <= r.value < |s| && MatchAt(s, r.value)
    ensures r.Some? ==> forall k | from <= k < r.value :: !MatchAt(s, k)
    decreases |s| - from
  {
    if from == |s| then None
    else if MatchAt(s, from) then Some(from)
    else FirstMatch(s, from + 1)
  }

  /**
   * `m.group(1) if m else ""` for `m = re.search(r"([1-5])\s*star", aria, re.I)`:
   * the digit of the leftmost match, or "" when nothing matches.
   */
  function AriaRating(aria: string): (r: string)
    ensures r == [] <==> forall k | 0 <= k < |aria| :: !MatchAt(aria, k)
    ensures r == [] || (|r| == 1 && IsRatingDigit(r[0]))
    ensures forall k | 0 <= k < |aria| && MatchAt(aria, k) ::
              (forall j | 0 <= j < k :: !MatchAt(aria, j)) ==> r == [aria[k]]
  {
    match FirstMatch(aria, 0)
    case None => ""
    case Some(k) => [aria[k]]
  }

  /** "Rated 5 stars" gives "5"; "10 stars" gives "", the `1` being followed by `0`, not by `star`. */
  lemma AriaRatingExamples()
    ensures AriaRating("Rated 5 stars") == "5"
    ensures AriaRating("4 STAR") == "4"
    ensures AriaRating("10 stars") == ""
  {
    var rated := "Rated 5 stars";
    assert forall k | 0 <= k < 6 :: !IsRatingDigit(rated[k]);
    assert SkipSpaces(rated, 7) == 8;
    assert MatchAt(rated, 6);
    var upper := "4 STAR";
    assert SkipSpaces(upper, 1) == 2;
    assert MatchAt(upper, 0);
    var ten := "10 stars";
    assert SkipSpaces(ten, 1) == 1;
    assert !LetterMatches(ten[1 + 0], Star[0]);
    assert !MatchAt(ten, 0);
    assert forall k | 1 <= k < |ten| :: !IsRatingDigit(ten[k]);
  }

  /** The rating rule: a non-empty stripped `data-rating` wins, else the aria label's star phrase. */
  function Rating(card: Card): string
  {
    var fromAttr := DataRating(card);
    if fromAttr != [] then fromAttr
    else
      var aria := AriaLabel(card);
      if aria != [] then AriaRating(aria) else ""
  }

  /**
   * A non-empty `data-rating` is the rating, whatever the aria label says and
   * even if it is not a digit 1 to 5; otherwise the rating is the aria label's
   * leftmost star digit, or "".
   */
  lemma RatingChoice(card: Card, otherAttrs: map<string, string>)
    ensures DataRating(card) != [] ==> Rating(card) == DataRating(card)
    ensures DataRating(card) != [] ==> Rating(card.(attrs := otherAttrs)) == Rating(card)
    ensures DataRating(card) == [] ==> Rating(card) == AriaRating(AriaLabel(card))
    ensures DataRating(card) == [] ==> Rating(card) == [] || (|Rating(card)| == 1 && IsRatingDigit(Rating(card)[0]))
  {
  }

  // ----- product and photos -----

  /**
   * `prod.get_text(" ", strip=True) if prod else ""`: empty when no product
   * element is found or its text is all whitespace, whatever the review type.
   */
  function ProductTitle(card: Card): (r: string)
    ensures ProductSelector !in card.found ==> r == []
    ensures ProductSelector in card.found ==>
              (r == [] <==> forall k | 0 <= k < |card.found[ProductSelector].strings| ::
                              AllSpace(card.found[ProductSelector].strings[k]))
  {
    if ProductSelector in card.found then
      GetTextEmpty(card.found[ProductSelector], " ");
      GetText(card.found[ProductSelector], " ")
    else ""
  }

  /** The `href` of the `.jdgm-rev__prod-link` element, or "" when there is none. */
  function ProductUrl(card: Card): (r: string)
    ensures r != [] ==> ProductLinkSelector in card.found && HrefAttr in card.found[ProductLinkSelector].attrs
    ensures r != [] ==> r == card.found[ProductLinkSelector].attrs[HrefAttr]
    ensures ProductLinkSelector in card.found && HrefAttr in card.found[ProductLinkSelector].attrs ==>
              r == card.found[ProductLinkSelector].attrs[HrefAttr]
  {
    if ProductLinkSelector in card.found && HrefAttr in card.found[ProductLinkSelector].attrs
    then card.found[ProductLinkSelector].attrs[HrefAttr]
    else ""
  }

  /** `[img.get("src", "") for img in node.select("img") if img.get("src")]`. */
  function Photos(images: seq<Element>): (r: seq<string>)
    ensures |r| <= |images|
    ensures forall k | 0 <= k < |r| :: r[k] != []
  {
    if images == [] then []
    else
      var src := AttrOrEmpty(images[0].attrs, SrcAttr);
      (if src != [] then [src] else []) + Photos(images[1..])
  }

  /**
   * The photo list follows document order: the photos of two runs of images
   * are the photos of the first run followed by those of the second, so every
   * image with a non-empty `src` contributes, in place, duplicates kept.
   */
  lemma {:induction false} PhotosAppend(a: seq<Element>, b: seq<Element>)
    ensures Photos(a + b) == Photos(a) + Photos(b)
  {
    if a != [] {
      var src := AttrOrEmpty(a[0].attrs, SrcAttr);
      var head := if src != [] then [src] else [];
      assert (a + b)[0] == a[0] && (a + b)[1..] == a[1..] + b;
      PhotosAppend(a[1..], b);
      calc {
        Photos(a + b);
        head + Photos(a[1..] + b);
        head + (Photos(a[1..]) + Photos(b));
        (head + Photos(a[1..])) + Photos(b);
        Photos(a) + Photos(b);
      }
    } else {
      assert a + b == b;
    }
  }

  /** An image counts once exactly when its `src` is present and not empty. */
  lemma PhotosOfOne(img: Element)
    ensures Photos([img]) == if SrcAttr in img.attrs && img.attrs[SrcAttr] != [] then [img.attrs[SrcAttr]] else []
  {
    assert [img][1..] == [];
  }

  // ----- the record -----

  /** `parse_review(node, rtype)`. */
  function ParseReview(card: Card, rtype: string): (r: Record)
    ensures r.kind == Shop <==> rtype == ShopReviews
    ensures r.rating == [] || r.rating == DataRating(card) || (|r.rating| == 1 && IsRatingDigit(r.rating[0]))
    ensures r.rating == Rating(card) && r.photos == Photos(card.images)
    ensures r.title == FirstText(card, TitleSelectors) && r.body == FirstText(card, BodySelectors)
    ensures r.author == FirstText(card, AuthorSelectors) && r.createdAt == FirstText(card, DateSelectors)
    ensures r.productTitle == ProductTitle(card) && r.productUrl == ProductUrl(card)
    ensures r.productUrl != [] ==> ProductLinkSelector in card.found && HrefAttr in card.found[ProductLinkSelector].attrs
    ensures |r.photos| <= |card.images| && forall k | 0 <= k < |r.photos| :: r.photos[k] != []
  {
    Record(
      KindOf(rtype),
      Rating(card),
      FirstText(card, TitleSelectors),
      FirstText(card, BodySelectors),
      FirstText(card, AuthorSelectors),
      FirstText(card, DateSelectors),
      ProductTitle(card),
      ProductUrl(card),
      Photos(card.images))
  }

  /** A card with nothing in it still gives a record, with every field empty: normalisation never fails. */
  lemma EmptyCardGivesEmptyRecord(rtype: string)
    ensures var r := ParseReview(Card(map[], map[], []), rtype);
            r.rating == [] && r.title == [] && r.body == [] && r.author == [] && r.createdAt == []
            && r.productTitle == [] && r.productUrl == [] && r.photos == []
  {
  }
}
