/**
 * The two crawls as instances of the shared loop: `crawl()` of the header-only
 * script, whose page step is `parseHeader` and whose record is the page's
 * `pages.csv` line, and `crawlSite()` of the region script, whose page step is
 * `processPage` and whose record is the page's CSV line. The network is the
 * parameter `fetch`: the outcome of fetching each URL.
 */
module HeaderCrawl {
  import opened Url
  import opened Scope
  import opened Dom
  import opened HeaderPage
  import Frontier

  /** Visiting one page: parse its header, record it, and offer its links
      unless it failed. */
  function PageVisit(c: Codec, cfg: Config, fetch: string -> Response, u: string): Frontier.Visit<PageRecord> {
    var p := ParseHeader(c, cfg, u, fetch(u));
    Frontier.Visit(Record(p), p.error != "", p.next)
  }

  function Visit(c: Codec, cfg: Config, fetch: string -> Response): string -> Frontier.Visit<PageRecord> {
    u => PageVisit(c, cfg, fetch, u)
  }

  function Key(c: Codec, cfg: Config): string -> string {
    u => Norm(c, cfg, u)
  }

  function Limits(cfg: Config): Frontier.Limits {
    Frontier.Limits(cfg.maxDepth, cfg.maxPages)
  }

  function Crawled(c: Codec, cfg: Config, fetch: string -> Response): Frontier.State<PageRecord> {
    Frontier.Crawled(Limits(cfg), Visit(c, cfg, fetch), Key(c, cfg), cfg.startUrl)
  }

  /**
   * `crawl()`: one record per processed page, never more than `maxPages`, the
   * start page's record first, and every record that of `parseHeader` on a
   * processed URL.
   */
  method Crawl(c: Codec, cfg: Config, fetch: string -> Response) returns (pages: seq<PageRecord>)
    ensures pages == Crawled(c, cfg, fetch).records
    ensures cfg.maxPages <= 0 ==> pages == []
    ensures cfg.maxPages > 0 ==>
              1 <= |pages| <= cfg.maxPages
              && pages[0] == Record(ParseHeader(c, cfg, cfg.startUrl, fetch(cfg.startUrl)))
    ensures forall i :: 0 <= i < |pages| ==>
              exists u :: pages[i] == Record(ParseHeader(c, cfg, u, fetch(u)))
  {
    var s := Frontier.CrawlSpec(Limits(cfg), Visit(c, cfg, fetch), Key(c, cfg), cfg.startUrl);
    var visited, exhausted;
    pages, visited, exhausted := Frontier.Crawl(Limits(cfg), Visit(c, cfg, fetch), Key(c, cfg), cfg.startUrl);
    forall i | 0 <= i < |pages| ensures exists u :: pages[i] == Record(ParseHeader(c, cfg, u, fetch(u))) {
      assert pages[i] == PageVisit(c, cfg, fetch, visited[i].url).record;
    }
  }

  /**
   * Every page the crawl processes after the start page was a link of an
   * earlier page that parsed without error and lay above the depth limit
   * (`Frontier.CrawlSpec`), so it is in scope and already normalised.
   */
  lemma CrawlStaysInScope(c: Codec, cfg: Config, fetch: string -> Response)
    requires ValidCodec(c)
    ensures var s := Crawled(c, cfg, fetch);
            forall j :: 1 <= j < |s.visited| ==>
              InScope(c, cfg.policy, s.visited[j].url, cfg.startUrl) && Norm(c, cfg, s.visited[j].url) == s.visited[j].url
  {
    var s := Frontier.CrawlSpec(Limits(cfg), Visit(c, cfg, fetch), Key(c, cfg), cfg.startUrl);
    forall j | 1 <= j < |s.visited|
      ensures InScope(c, cfg.policy, s.visited[j].url, cfg.startUrl) && Norm(c, cfg, s.visited[j].url) == s.visited[j].url
    {
      assert Frontier.HasParent(Limits(cfg), Visit(c, cfg, fetch), s.visited, j);
      var i :| 0 <= i < j && Frontier.Spawned(Limits(cfg), Visit(c, cfg, fetch), s.visited[j], s.visited[i]);
      ChildInScope(c, cfg, fetch, s.visited[i], s.visited[j]);
    }
  }

  /** A task queued from the links of a processed page is in scope and
      already normalised. */
  lemma ChildInScope(c: Codec, cfg: Config, fetch: string -> Response, parent: Frontier.Task, child: Frontier.Task)
    requires ValidCodec(c)
    requires Frontier.Spawned(Limits(cfg), Visit(c, cfg, fetch), child, parent)
    ensures InScope(c, cfg.policy, child.url, cfg.startUrl) && Norm(c, cfg, child.url) == child.url
  {
    assert child.url in ParseHeader(c, cfg, parent.url, fetch(parent.url)).next;
    NextInScope(c, cfg, parent.url, fetch(parent.url));
  }

  /** No URL is processed twice: processed URLs have distinct normalised
      forms. */
  lemma CrawlVisitsOnce(c: Codec, cfg: Config, fetch: string -> Response)
    ensures var s := Crawled(c, cfg, fetch);
            forall i, j :: 0 <= i < j < |s.visited| ==>
              Norm(c, cfg, s.visited[i].url) != Norm(c, cfg, s.visited[j].url) && s.visited[i].url != s.visited[j].url
  {
    var s := Frontier.CrawlSpec(Limits(cfg), Visit(c, cfg, fetch), Key(c, cfg), cfg.startUrl);
    forall i, j | 0 <= i < j < |s.visited|
      ensures Norm(c, cfg, s.visited[i].url) != Norm(c, cfg, s.visited[j].url)
    {
      assert Key(c, cfg)(s.visited[i].url) != Key(c, cfg)(s.visited[j].url);
    }
  }

  /**
   * When the crawl ends because the queue ran empty, every link of every
   * processed page that parsed without error and lay above the depth limit
   * is the normalised URL of a processed page.
   */
  lemma CrawlCovers(c: Codec, cfg: Config, fetch: string -> Response, i: nat, n: string)
    requires ValidCodec(c)
    requires var s := Crawled(c, cfg, fetch);
             && s.queue == [] && i < |s.visited|
             && ParseHeader(c, cfg, s.visited[i].url, fetch(s.visited[i].url)).error == ""
             && s.visited[i].depth < cfg.maxDepth
             && n in ParseHeader(c, cfg, s.visited[i].url, fetch(s.visited[i].url)).next
    ensures var s := Crawled(c, cfg, fetch);
            exists j :: 0 <= j < |s.visited| && Norm(c, cfg, s.visited[j].url) == n
  {
    var s := Crawled(c, cfg, fetch);
    var u := s.visited[i].url;
    NextInScope(c, cfg, u, fetch(u));
    Frontier.Covers(Limits(cfg), Visit(c, cfg, fetch), Key(c, cfg), cfg.startUrl, i, n);
  }
}

module RegionCrawl {
  import opened Url
  import opened Scope
  import opened Dom
  import opened RegionPage
  import Frontier

  /** The links a processed page offers: its candidates, or none on error. */
  function NextOf(p: PageResult): seq<string> {
    if p.PageDone? then p.next else []
  }

  /** Visiting one page: process it, record its line, and offer its
      candidates unless it failed. */
  function PageVisit(c: Codec, cfg: Config, fetch: string -> Response, u: string): Frontier.Visit<PageRow> {
    var p := ProcessPage(c, cfg, u, fetch(u));
    Frontier.Visit(RowOf(p), p.PageFailed?, NextOf(p))
  }

  function Visit(c: Codec, cfg: Config, fetch: string -> Response): string -> Frontier.Visit<PageRow> {
    u => PageVisit(c, cfg, fetch, u)
  }

  function Key(c: Codec, cfg: Config): string -> string {
    u => Norm(c, cfg, u)
  }

  function Limits(cfg: Config): Frontier.Limits {
    Frontier.Limits(cfg.maxDepth, cfg.maxPages)
  }

  function Crawled(c: Codec, cfg: Config, fetch: string -> Response): Frontier.State<PageRow> {
    Frontier.Crawled(Limits(cfg), Visit(c, cfg, fetch), Key(c, cfg), cfg.startUrl)
  }

  /**
   * `crawlSite()`: one line per processed page, never more than `maxPages`,
   * the start page's line first, and every line that of `processPage` on a
   * processed URL; a failed page's line has zero counts.
   */
  method CrawlSite(c: Codec, cfg: Config, fetch: string -> Response) returns (out: seq<PageRow>)
    ensures out == Crawled(c, cfg, fetch).records
    ensures cfg.maxPages <= 0 ==> out == []
    ensures cfg.maxPages > 0 ==>
              1 <= |out| <= cfg.maxPages
              && out[0] == RowOf(ProcessPage(c, cfg, cfg.startUrl, fetch(cfg.startUrl)))
    ensures forall i :: 0 <= i < |out| ==>
              exists u :: out[i] == RowOf(ProcessPage(c, cfg, u, fetch(u)))
  {
    var s := Frontier.CrawlSpec(Limits(cfg), Visit(c, cfg, fetch), Key(c, cfg), cfg.startUrl);
    var visited, exhausted;
    out, visited, exhausted := Frontier.Crawl(Limits(cfg), Visit(c, cfg, fetch), Key(c, cfg), cfg.startUrl);
    forall i | 0 <= i < |out| ensures exists u :: out[i] == RowOf(ProcessPage(c, cfg, u, fetch(u))) {
      assert out[i] == PageVisit(c, cfg, fetch, visited[i].url).record;
    }
  }

  /**
   * Every page the crawl processes after the start page was a candidate of
   * an earlier page that did not fail and lay above the depth limit; it is in
   * scope and already normalised.
   */
  lemma CrawlStaysInScope(c: Codec, cfg: Config, fetch: string -> Response)
    requires ValidCodec(c)
    ensures var s := Crawled(c, cfg, fetch);
            forall j :: 1 <= j < |s.visited| ==>
              InScope(c, cfg.policy, s.visited[j].url, cfg.startUrl) && Norm(c, cfg, s.visited[j].url) == s.visited[j].url
  {
    var s := Frontier.CrawlSpec(Limits(cfg), Visit(c, cfg, fetch), Key(c, cfg), cfg.startUrl);
    forall j | 1 <= j < |s.visited|
      ensures InScope(c, cfg.policy, s.visited[j].url, cfg.startUrl) && Norm(c, cfg, s.visited[j].url) == s.visited[j].url
    {
      assert Frontier.HasParent(Limits(cfg), Visit(c, cfg, fetch), s.visited, j);
      var i :| 0 <= i < j && Frontier.Spawned(Limits(cfg), Visit(c, cfg, fetch), s.visited[j], s.visited[i]);
      ChildInScope(c, cfg, fetch, s.visited[i], s.visited[j]);
    }
  }

  /** A task queued from the links of a processed page is in scope and
      already normalised. */
  lemma ChildInScope(c: Codec, cfg: Config, fetch: string -> Response, parent: Frontier.Task, child: Frontier.Task)
    requires ValidCodec(c)
    requires Frontier.Spawned(Limits(cfg), Visit(c, cfg, fetch), child, parent)
    ensures InScope(c, cfg.policy, child.url, cfg.startUrl) && Norm(c, cfg, child.url) == child.url
  {
    var p := ProcessPage(c, cfg, parent.url, fetch(parent.url));
    assert p.PageDone? && child.url in p.next;
    NextInScope(c, cfg, parent.url, fetch(parent.url));
  }

  /** No URL is processed twice: processed URLs have distinct normalised
      forms. */
  lemma CrawlVisitsOnce(c: Codec, cfg: Config, fetch: string -> Response)
    ensures var s := Crawled(c, cfg, fetch);
            forall i, j :: 0 <= i < j < |s.visited| ==>
              Norm(c, cfg, s.visited[i].url) != Norm(c, cfg, s.visited[j].url) && s.visited[i].url != s.visited[j].url
  {
    var s := Frontier.CrawlSpec(Limits(cfg), Visit(c, cfg, fetch), Key(c, cfg), cfg.startUrl);
    forall i, j | 0 <= i < j < |s.visited|
      ensures Norm(c, cfg, s.visited[i].url) != Norm(c, cfg, s.visited[j].url)
    {
      assert Key(c, cfg)(s.visited[i].url) != Key(c, cfg)(s.visited[j].url);
    }
  }

  /**
   * When the crawl ends because the queue ran empty, every candidate of every
   * processed page that did not fail and lay above the depth limit is the
   * normalised URL of a processed page.
   */
  lemma CrawlCovers(c: Codec, cfg: Config, fetch: string -> Response, i: nat, n: string)
    requires ValidCodec(c)
    requires var s := Crawled(c, cfg, fetch);
             && s.queue == [] && i < |s.visited|
             && ProcessPage(c, cfg, s.visited[i].url, fetch(s.visited[i].url)).PageDone?
             && s.visited[i].depth < cfg.maxDepth
             && n in ProcessPage(c, cfg, s.visited[i].url, fetch(s.visited[i].url)).next
    ensures var s := Crawled(c, cfg, fetch);
            exists j :: 0 <= j < |s.visited| && Norm(c, cfg, s.visited[j].url) == n
  {
    var s := Crawled(c, cfg, fetch);
    var u := s.visited[i].url;
    NextInScope(c, cfg, u, fetch(u));
    Frontier.Covers(Limits(cfg), Visit(c, cfg, fetch), Key(c, cfg), cfg.startUrl, i, n);
  }
}
