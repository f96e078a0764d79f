/**
 * `main` up to the point where it writes the file: crawl the configured
 * review types, then build the tree from everything collected.
 */
module Pipeline {
  import opened Wrappers
  import opened Crawl
  import opened Xml

  /**
   * The tree `main` writes, or `None` when a request raised: there is no
   * partial output, and a run that collects no rows still gives a document.
   */
  method Run(fetch: Fetcher, reviewType: string, start: int, limit: int, generatedAt: string)
    returns (doc: Option<Node>)
    ensures var collected := CollectAll(fetch, ReviewTypes(reviewType), start, limit);
            (collected.Aborted? ==> doc == None)
            && (collected.Done? ==> doc == Some(Document(generatedAt, collected.rows)))
  {
    var outcome := CrawlAll(fetch, reviewType, start, limit);
    if outcome.Aborted? {
      return None;
    }
    var tree := BuildXml(generatedAt, outcome.rows);
    doc := Some(tree);
  }
}
