/**
 * `build_xml`: the review rows become an element tree. The tree is modelled
 * as values; the bytes ElementTree writes for it are not.
 */
module Xml {
  import opened Wrappers
  import opened Text
  import opened Review

  /** An element: tag, attributes, text ("" for none) and children in order. */
  datatype Node = Node(tag: string, attrs: map<string, string>, text: string, children: seq<Node>)

  /** The tags of the six text children of a `review`, in the order they are added. */
  const FieldTags: seq<string> := ["title", "body", "author", "created_at", "product_title", "product_url"]

  /** The six text fields of a row, in the order of `FieldTags`. */
  function Fields(r: Record): seq<string>
  {
    [r.title, r.body, r.author, r.createdAt, r.productTitle, r.productUrl]
  }

  /** An element with text and nothing beneath it. */
  function Leaf(tag: string, text: string): Node
  {
    Node(tag, map[], text, [])
  }

  /** `parent` with `child` appended as its last child: `ET.SubElement`. */
  function AddChild(parent: Node, child: Node): Node
  {
    parent.(children := parent.children + [child])
  }

  /** One `photo` element per URL, in order. */
  function PhotoNodes(urls: seq<string>): seq<Node>
  {
    seq(|urls|, i requires 0 <= i < |urls| => Leaf("photo", urls[i]))
  }

  /** The `review` element of one row. */
  function ReviewNode(r: Record): Node
  {
    Node("review", map["type" := KindName(r.kind), "rating" := r.rating], "",
      seq(6, i requires 0 <= i < 6 => Leaf(FieldTags[i], Fields(r)[i]))
      + (if r.photos == [] then [] else [Node("photos", map[], "", PhotoNodes(r.photos))]))
  }

  /** The root element for `rows`, stamped with `generatedAt`. */
  function Document(generatedAt: string, rows: seq<Record>): Node
  {
    Node("reviews", map["generated_at" := generatedAt, "total" := NatToString(|rows|)], "",
      seq(|rows|, i requires 0 <= i < |rows| => ReviewNode(rows[i])))
  }

  /** The body of the `for r in rows` loop: one `review` element with its children. */
  method BuildReview(r: Record) returns (rev: Node)
    ensures rev == ReviewNode(r)
  {
    rev := Node("review", map["type" := KindName(r.kind), "rating" := r.rating], "", []);
    rev := AddChild(rev, Leaf("title", r.title));
    rev := AddChild(rev, Leaf("body", r.body));
    rev := AddChild(rev, Leaf("author", r.author));
    rev := AddChild(rev, Leaf("created_at", r.createdAt));
    rev := AddChild(rev, Leaf("product_title", r.productTitle));
    rev := AddChild(rev, Leaf("product_url", r.productUrl));
    assert rev.children == seq(6, i requires 0 <= i < 6 => Leaf(FieldTags[i], Fields(r)[i]));
    if r.photos != [] {
      var photos := Node("photos", map[], "", []);
      for i := 0 to |r.photos|
        invariant photos.tag == "photos" && photos.attrs == map[] && photos.text == ""
        invariant |photos.children| == i
        invariant forall k | 0 <= k < i :: photos.children[k] == Leaf("photo", r.photos[k])
      {
        photos := AddChild(photos, Leaf("photo", r.photos[i]));
      }
      assert photos.children == PhotoNodes(r.photos);
      rev := AddChild(rev, photos);
    }
  }

  /** `build_xml(rows)`, with the clock's reading passed in as `generatedAt`. */
  method BuildXml(generatedAt: string, rows: seq<Record>) returns (root: Node)
    ensures root == Document(generatedAt, rows)
  {
    root := Node("reviews", map["generated_at" := generatedAt, "total" := NatToString(|rows|)], "", []);
    for i := 0 to |rows|
      invariant root.tag == "reviews" && root.text == ""
      invariant root.attrs == map["generated_at" := generatedAt, "total" := NatToString(|rows|)]
      invariant |root.children| == i
      invariant forall k | 0 <= k < i :: root.children[k] == ReviewNode(rows[k])
    {
      var rev := BuildReview(rows[i]);
      root := AddChild(root, rev);
    }
  }

  /**
   * The shape of the output: the root's `total` reads back as the number of
   * rows, there is one `review` per row in row order carrying `type` and
   * `rating`, its first six children are the text fields in a fixed order,
   * and a seventh child `photos`, with one `photo` per URL in order, exists
   * exactly when the row has photos.
   */
  lemma DocumentShape(generatedAt: string, rows: seq<Record>)
    ensures var doc := Document(generatedAt, rows);
            doc.tag == "reviews" && doc.attrs.Keys == {"generated_at", "total"}
            && ParseNat(doc.attrs["total"]) == Some(|rows|)
            && |doc.children| == |rows|
    ensures var doc := Document(generatedAt, rows);
            forall i | 0 <= i < |rows| ::
              var rev := doc.children[i];
              rev.tag == "review"
              && rev.attrs == map["type" := KindName(rows[i].kind), "rating" := rows[i].rating]
              && (|rev.children| == 7 <==> rows[i].photos != [])
              && (|rev.children| == 6 <==> rows[i].photos == [])
              && (forall f | 0 <= f < 6 :: rev.children[f] == Leaf(FieldTags[f], Fields(rows[i])[f]))
              && (|rev.children| == 7 ==>
                    (rev.children[6].tag == "photos"
                     && |rev.children[6].children| == |rows[i].photos|
                     && forall k | 0 <= k < |rows[i].photos| :: rev.children[6].children[k] == Leaf("photo", rows[i].photos[k])))
  {
    ParseNatToString(|rows|);
  }

  // ----- reading the tree back -----

  /** The row kind a `type` attribute names. */
  function ReadKind(name: string): Option<Kind>
  {
    if name == "product" then Some(Product)
    else if name == "shop" then Some(Shop)
    else None
  }

  /** The texts of the `photo` children of a `photos` element. */
  function ReadPhotos(photos: seq<Node>): seq<string>
  {
    seq(|photos|, i requires 0 <= i < |photos| => photos[i].text)
  }

  /** The text of child `i` when it carries the expected field tag. */
  function ReadField(children: seq<Node>, i: nat): Option<string>
    requires i < 6 <= |children|
  {
    if children[i].tag == FieldTags[i] then Some(children[i].text) else None
  }

  /** The row a `review` element stands for, when it has the shape `BuildReview` gives. */
  function ReadReview(n: Node): Option<Record>
  {
    if n.tag != "review" || "type" !in n.attrs || "rating" !in n.attrs
       || !(6 <= |n.children| <= 7) then None
    else
      var kind := ReadKind(n.attrs["type"]);
      var c := n.children;
      var f := seq(6, i requires 0 <= i < 6 => ReadField(c, i));
      if kind.None? || exists i | 0 <= i < 6 :: f[i].None? then None
      else if |c| == 7 && (c[6].tag != "photos" || c[6].children == []) then None
      else
        var photos := if |c| == 7 then ReadPhotos(c[6].children) else [];
        Some(Record(kind.value, n.attrs["rating"], f[0].value, f[1].value, f[2].value, f[3].value,
                    f[4].value, f[5].value, photos))
  }

  /** The rows of a sequence of `review` elements, in order. */
  function ReadReviews(nodes: seq<Node>): Option<seq<Record>>
  {
    if nodes == [] then Some([])
    else match (ReadReview(nodes[0]), ReadReviews(nodes[1..]))
      case (Some(r), Some(rest)) => Some([r] + rest)
      case _ => None
  }

  /** The rows a `reviews` document stands for, when its `total` agrees with its children. */
  function ReadDocument(doc: Node): Option<seq<Record>>
  {
    if doc.tag != "reviews" || "total" !in doc.attrs then None
    else match ParseNat(doc.attrs["total"])
      case None => None
      case Some(total) => if total != |doc.children| then None else ReadReviews(doc.children)
  }

  /** A `review` element reads back as the row it was built from. */
  lemma ReadReviewNode(r: Record)
    ensures ReadReview(ReviewNode(r)) == Some(r)
  {
    var n := ReviewNode(r);
    assert forall i | 0 <= i < 6 :: ReadField(n.children, i) == Some(Fields(r)[i]);
    if r.photos != [] {
      assert ReadPhotos(n.children[6].children) == r.photos;
    }
  }

  /** `review` elements built from rows read back as those rows. */
  lemma {:induction false} ReadReviewNodes(rows: seq<Record>)
    ensures ReadReviews(seq(|rows|, i requires 0 <= i < |rows| => ReviewNode(rows[i]))) == Some(rows)
  {
    var nodes := seq(|rows|, i requires 0 <= i < |rows| => ReviewNode(rows[i]));
    if rows != [] {
      ReadReviewNode(rows[0]);
      assert nodes[1..] == seq(|rows[1..]|, i requires 0 <= i < |rows[1..]| => ReviewNode(rows[1..][i]));
      ReadReviewNodes(rows[1..]);
      assert [rows[0]] + rows[1..] == rows;
    }
  }

  /** Nothing is lost in the tree: the document reads back as exactly the rows, in order. */
  lemma ReadDocumentRoundTrip(generatedAt: string, rows: seq<Record>)
    ensures ReadDocument(Document(generatedAt, rows)) == Some(rows)
  {
    ParseNatToString(|rows|);
    ReadReviewNodes(rows);
  }
}
