/**
 * An abstract view of the parsed HTML the review script reads. The parser and
 * CSS selector engine are not modelled: what `select_one`, `select` and `get`
 * return for one review card is given as data.
 */
module Markup {
  import opened Text

  /**
   * One element: the text strings found beneath it, in document order, and its
   * attributes.
   */
  datatype Element = Element(strings: seq<string>, attrs: map<string, string>)

  /**
   * One review card (`.jdgm-rev`): its own attributes (read by `node.get`),
   * the element `node.select_one(sel)` returns for each selector that matches
   * something (a selector absent from `found` gives `None`), and the elements
   * `node.select("img")` returns, in document order.
   */
  datatype Card = Card(attrs: map<string, string>, found: map<string, Element>, images: seq<Element>)

  /** `d.get(name) or ""`: an attribute's value, or the empty string when it is missing. */
  function AttrOrEmpty(attrs: map<string, string>, name: string): (v: string)
    ensures name in attrs ==> v == attrs[name]
    ensures name !in attrs ==> v == ""
  {
    if name in attrs then attrs[name] else ""
  }

  /** The strings that `get_text(strip=True)` keeps: each one stripped, the empty ones dropped. */
  function Pieces(strings: seq<string>): (r: seq<string>)
    ensures |r| <= |strings|
    ensures forall k | 0 <= k < |r| :: r[k] != []
  {
    if strings == [] then []
    else if Strip(strings[0]) == [] then Pieces(strings[1..])
    else [Strip(strings[0])] + Pieces(strings[1..])
  }

  /** No string is kept exactly when every string is whitespace. */
  lemma {:induction false} PiecesEmpty(strings: seq<string>)
    ensures Pieces(strings) == [] <==> forall k | 0 <= k < |strings| :: AllSpace(strings[k])
  {
    if strings != [] {
      PiecesEmpty(strings[1..]);
      assert forall k | 1 <= k < |strings| :: strings[k] == strings[1..][k - 1];
    }
  }

  /** `el.get_text(sep, strip=True)`: the kept strings joined with `sep`. */
  function GetText(e: Element, sep: string): string
  {
    Join(sep, Pieces(e.strings))
  }

  /** `get_text` comes out empty exactly when no string is kept, whatever the separator. */
  lemma GetTextNoPieces(e: Element, sep: string)
    ensures GetText(e, sep) == [] <==> Pieces(e.strings) == []
  {
    JoinEmpty(sep, Pieces(e.strings));
  }

  /**
   * Whether `get_text` comes out empty does not depend on the separator: it is
   * empty exactly when every string beneath the element is whitespace.
   */
  lemma GetTextEmpty(e: Element, sep: string)
    ensures GetText(e, sep) == [] <==> forall k | 0 <= k < |e.strings| :: AllSpace(e.strings[k])
  {
    JoinEmpty(sep, Pieces(e.strings));
    PiecesEmpty(e.strings);
  }
}
