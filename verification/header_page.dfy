/**
 * The header crawler's page step: `parseHeader` (fetch outcome checks, the
 * header element, row enrichment with type and scope, per-page dedup by
 * normalised URL, the links to follow), `collectNextLinks` for the whole
 * page, and the per-page record with its type and scope counts.
 */
module HeaderPage {
  import opened Wrappers
  import opened Text
  import opened Url
  import opened Scope
  import opened Resource
  import opened Dom
  import opened HeaderRows
  import Seqs
  import Counts

  /** The asset extensions of the header crawler's `looksLikeHtml`
      (`woff2?` is both `woff` and `woff2`). */
  const AssetExts: seq<string> :=
    ["jpg", "jpeg", "png", "gif", "webp", "svg", "ico", "pdf", "zip", "rar", "7z", "gz", "tar",
     "mp4", "webm", "mp3", "wav", "ogg", "css", "js", "mjs", "woff", "woff2", "ttf", "otf", "eot",
     "json", "xml"]

  /** The settings the crawl logic reads. The header selector list is
      applied by the HTML parser and arrives as `Document.headerMatches`. */
  datatype Config = Config(startUrl: string, maxDepth: int, maxPages: int, policy: Policy,
                           dedupByUrl: bool, followFromHeaderOnly: bool, paramIgnore: seq<string>)

  /** An enriched row: label, raw attribute text, absolute URL, type tag, scope. */
  datatype Row = Row(text: string, href: string, url: string, typ: string, scope: ScopeClass)

  /** What `parseHeader` returns. */
  datatype PageData = PageData(pageUrl: string, rows: seq<Row>, next: seq<string>, error: string)

  function Norm(c: Codec, cfg: Config, s: string): string {
    NormUrl(c, cfg.paramIgnore, s)
  }

  /**
   * Step 5: the type from the raw value and the absolute URL; the scope from
   * `classifyScope` for http(s) URLs and OTHER for every other scheme. A row is
   * INTERN exactly when its URL is http(s) and in scope.
   */
  function Enrich(c: Codec, cfg: Config, r: RawRow): (row: Row)
    ensures row.text == r.text && row.href == r.raw && row.url == r.url
    ensures row.scope == Intern <==> HasHttpScheme(r.url) && InScope(c, cfg.policy, r.url, cfg.startUrl)
    ensures !HasHttpScheme(r.url) ==> row.scope == OtherScope
    ensures HasHttpScheme(r.url) ==> row.scope == ClassifyScope(c, cfg.policy, r.url, cfg.startUrl)
    ensures row.typ == ClassifyResourceType(c, r.raw, r.url)
  {
    var scope := if HasHttpScheme(r.url) then ClassifyScope(c, cfg.policy, r.url, cfg.startUrl) else OtherScope;
    Row(r.text, r.raw, r.url, ClassifyResourceType(c, r.raw, r.url), scope)
  }

  function EnrichAll(c: Codec, cfg: Config, rs: seq<RawRow>): (r: seq<Row>)
    ensures |r| == |rs| && forall i :: 0 <= i < |rs| ==> r[i] == Enrich(c, cfg, rs[i])
  {
    Seqs.Map(rs, (x: RawRow) => Enrich(c, cfg, x))
  }

  /** The dedup key of a row. */
  function RowKey(c: Codec, cfg: Config): Row -> string {
    (r: Row) => Norm(c, cfg, r.url)
  }

  /**
   * Step 6: with `dedupByUrl`, one row per non-empty normalised URL (the first
   * in document order wins, rows without a key are dropped); otherwise every
   * row.
   */
  function Dedup(c: Codec, cfg: Config, rows: seq<Row>): (r: seq<Row>)
    ensures Seqs.Subseq(r, rows)
    ensures !cfg.dedupByUrl ==> r == rows
    ensures cfg.dedupByUrl ==>
              (forall i, j :: 0 <= i < j < |r| ==> Norm(c, cfg, r[i].url) != Norm(c, cfg, r[j].url))
              && (forall i :: 0 <= i < |r| ==> Norm(c, cfg, r[i].url) != "")
              && (forall i ::
                    0 <= i < |rows| && Norm(c, cfg, rows[i].url) != "" && Seqs.FirstWithKey(rows, RowKey(c, cfg), i)
                    ==> rows[i] in r)
  {
    if cfg.dedupByUrl then Seqs.DedupBy(rows, RowKey(c, cfg))
    else
      Seqs.SubseqRefl(rows);
      rows
  }

  /** The links step 7 follows: internal HTML rows, normalised. */
  predicate FollowedRow(r: Row) {
    r.typ == "HTML" && r.scope == Intern
  }

  /**
   * Step 7 with `followFromHeaderOnly`: the distinct non-empty normalised URLs
   * of the internal HTML rows, in order of first appearance.
   */
  function HeaderNext(c: Codec, cfg: Config, rows: seq<Row>): (r: seq<string>)
    ensures Seqs.Distinct(r)
    ensures forall u :: u in r <==> u != "" && exists row :: row in rows && FollowedRow(row) && Norm(c, cfg, row.url) == u
  {
    var html := Seqs.Filter(rows, FollowedRow);
    var norm := Seqs.Map(html, (row: Row) => Norm(c, cfg, row.url));
    var keys := Seqs.Filter(norm, (u: string) => u != "");
    assert forall u :: u in norm <==> exists row :: row in html && Norm(c, cfg, row.url) == u by {
      forall u ensures u in norm <==> exists row :: row in html && Norm(c, cfg, row.url) == u {
        Seqs.MapMember(html, (row: Row) => Norm(c, cfg, row.url), u);
      }
    }
    Seqs.Unique(keys)
  }

  /** The URL an anchor points at, resolved and normalised. */
  function AnchorTarget(c: Codec, cfg: Config, d: Document, base: string, k: nat): string {
    Norm(c, cfg, ToAbs(c, AttrOr(d, k, "href"), base))
  }

  /** The filters of `collectNextLinks`: non-empty, http(s), no asset
      extension, in scope. */
  predicate Followable(c: Codec, cfg: Config, u: string) {
    u != "" && HasHttpScheme(u) && LooksLikeHtml(AssetExts, u) && InScope(c, cfg.policy, u, cfg.startUrl)
  }

  /**
   * `collectNextLinks($, baseUrl, startUrl)`: the distinct normalised targets
   * of the page's anchors that pass the filters, in order of first appearance.
   */
  function CollectNextLinks(c: Codec, cfg: Config, d: Document, base: string): (r: seq<string>)
    ensures Seqs.Distinct(r)
    ensures forall u :: u in r <==>
              Followable(c, cfg, u) && exists k :: k in Anchors(d) && AnchorTarget(c, cfg, d, base, k) == u
  {
    var targets := Seqs.Map(Anchors(d), k => AnchorTarget(c, cfg, d, base, k));
    var kept := Seqs.Filter(targets, u => Followable(c, cfg, u));
    assert forall u :: u in targets <==> exists k :: k in Anchors(d) && AnchorTarget(c, cfg, d, base, k) == u by {
      forall u ensures u in targets <==> exists k :: k in Anchors(d) && AnchorTarget(c, cfg, d, base, k) == u {
        Seqs.MapMember(Anchors(d), k => AnchorTarget(c, cfg, d, base, k), u);
      }
    }
    Seqs.Unique(kept)
  }

  /** The rows of header element `h` on a page at `base`, enriched and deduplicated. */
  function HeaderRowsOf(c: Codec, cfg: Config, d: Document, base: string, h: nat): seq<Row> {
    Dedup(c, cfg, EnrichAll(c, cfg, HeaderRawRows(c, d, base, h)))
  }

  /** Whether a fetch outcome is an HTML page the parser reads. */
  predicate IsHtmlPage(res: Response) {
    res.Fetched? && res.ok && Contains(res.contentType, "text/html")
  }

  /**
   * `parseHeader(url, startUrl)` on the fetch outcome `res`. A failed fetch,
   * a response that is not ok, or a content type without `text/html` gives an
   * error and nothing else; a page without a header element gives no rows but
   * the whole page's links; otherwise the header's rows and the links to follow.
   */
  function ParseHeader(c: Codec, cfg: Config, url: string, res: Response): (r: PageData)
    ensures r.error != "" <==> !IsHtmlPage(res)
    ensures r.error != "" ==> r.rows == [] && r.next == []
    ensures res.FetchFailed? ==> r.pageUrl == url && r.error == "FETCH_ERROR: " + res.message
    ensures res.Fetched? ==> r.pageUrl == OrElse(res.finalUrl, url)
    ensures res.Fetched? && !IsHtmlPage(res) ==> r.error == "NON_HTML: " + res.contentType
    ensures IsHtmlPage(res) && HeaderEl(res.doc).None? ==>
              r.rows == [] && r.next == CollectNextLinks(c, cfg, res.doc, r.pageUrl)
    ensures IsHtmlPage(res) && HeaderEl(res.doc).Some? ==>
              && r.rows == HeaderRowsOf(c, cfg, res.doc, r.pageUrl, HeaderEl(res.doc).value)
              && r.next == (if cfg.followFromHeaderOnly then HeaderNext(c, cfg, r.rows)
                            else CollectNextLinks(c, cfg, res.doc, r.pageUrl))
    ensures Seqs.Distinct(r.next)
  {
    match res
    case FetchFailed(msg) => PageData(url, [], [], "FETCH_ERROR: " + msg)
    case Fetched(finalUrl, ok, ct, doc) =>
      if !ok || !Contains(ct, "text/html") then PageData(OrElse(finalUrl, url), [], [], "NON_HTML: " + ct)
      else
        var base := OrElse(finalUrl, url);
        match HeaderEl(doc)
        case None => PageData(base, [], CollectNextLinks(c, cfg, doc, base), "")
        case Some(h) =>
          var rows := HeaderRowsOf(c, cfg, doc, base, h);
          var next := if cfg.followFromHeaderOnly then HeaderNext(c, cfg, rows)
                      else CollectNextLinks(c, cfg, doc, base);
          PageData(base, rows, next, "")
  }

  /** A link followed from the header's rows is in scope and normalised. */
  lemma HeaderNextInScope(c: Codec, cfg: Config, rows: seq<Row>, u: string)
    requires ValidCodec(c)
    requires forall row :: row in rows && row.scope == Intern ==> InScope(c, cfg.policy, row.url, cfg.startUrl)
    requires u in HeaderNext(c, cfg, rows)
    ensures InScope(c, cfg.policy, u, cfg.startUrl) && Norm(c, cfg, u) == u
  {
    var row :| row in rows && FollowedRow(row) && Norm(c, cfg, row.url) == u;
    NormKeepsScope(c, cfg.policy, cfg.paramIgnore, row.url, cfg.startUrl);
    NormIdempotent(c, cfg.paramIgnore, row.url);
  }

  /** A link collected from the whole page is in scope and normalised. */
  lemma CollectedInScope(c: Codec, cfg: Config, d: Document, base: string, u: string)
    requires ValidCodec(c)
    requires u in CollectNextLinks(c, cfg, d, base)
    ensures InScope(c, cfg.policy, u, cfg.startUrl) && Norm(c, cfg, u) == u
  {
    var k :| k in Anchors(d) && AnchorTarget(c, cfg, d, base, k) == u;
    var t := ToAbs(c, AttrOr(d, k, "href"), base);
    ToAbsSpec(c, AttrOr(d, k, "href"), base);
    assert t != "";
    NormIdempotent(c, cfg.paramIgnore, t);
  }

  /** The enriched, deduplicated rows keep the enrichment's scope rule. */
  lemma RowsScope(c: Codec, cfg: Config, d: Document, base: string, h: nat)
    ensures forall row :: row in HeaderRowsOf(c, cfg, d, base, h) && row.scope == Intern ==>
              InScope(c, cfg.policy, row.url, cfg.startUrl)
  {
    var enriched := EnrichAll(c, cfg, HeaderRawRows(c, d, base, h));
    Seqs.SubseqMembership(HeaderRowsOf(c, cfg, d, base, h), enriched);
  }

  /**
   * Every link `parseHeader` returns is non-empty, in scope and already
   * normalised, so the crawl's visited-set test on it compares keys with keys.
   */
  lemma NextInScope(c: Codec, cfg: Config, url: string, res: Response)
    requires ValidCodec(c)
    ensures forall u :: u in ParseHeader(c, cfg, url, res).next ==>
              u != "" && InScope(c, cfg.policy, u, cfg.startUrl) && Norm(c, cfg, u) == u
  {
    var r := ParseHeader(c, cfg, url, res);
    forall u | u in r.next
      ensures u != "" && InScope(c, cfg.policy, u, cfg.startUrl) && Norm(c, cfg, u) == u
    {
      var doc := res.doc;
      if HeaderEl(doc).Some? && cfg.followFromHeaderOnly {
        RowsScope(c, cfg, doc, r.pageUrl, HeaderEl(doc).value);
        HeaderNextInScope(c, cfg, r.rows, u);
      } else {
        CollectedInScope(c, cfg, doc, r.pageUrl, u);
      }
    }
  }

  /** Every row of a parsed page came from inside its header and resolves. */
  lemma RowsFromHeader(c: Codec, cfg: Config, url: string, res: Response)
    ensures var r := ParseHeader(c, cfg, url, res);
            forall row :: row in r.rows ==>
              IsHtmlPage(res) && HeaderEl(res.doc).Some?
              && row.url != "" && row.url == ToAbs(c, row.href, r.pageUrl)
              && exists k :: k in Descendants(res.doc, HeaderEl(res.doc).value)
                             && RawRow(row.text, row.href, row.url) in ElementRows(c, res.doc, r.pageUrl, k)
  {
    var r := ParseHeader(c, cfg, url, res);
    if IsHtmlPage(res) && HeaderEl(res.doc).Some? {
      var h := HeaderEl(res.doc).value;
      var raw := HeaderRawRows(c, res.doc, r.pageUrl, h);
      var enriched := EnrichAll(c, cfg, raw);
      Seqs.SubseqMembership(r.rows, enriched);
      forall row | row in r.rows
        ensures row.url != "" && row.url == ToAbs(c, row.href, r.pageUrl)
        ensures exists k :: k in Descendants(res.doc, h) && RawRow(row.text, row.href, row.url) in ElementRows(c, res.doc, r.pageUrl, k)
      {
        var i :| 0 <= i < |enriched| && enriched[i] == row;
        assert RawRow(row.text, row.href, row.url) == raw[i];
        assert raw[i] in raw;
      }
    }
  }

  /**
   * Conversely, every reference of every element inside the header reaches
   * the rows: enriched as it is when dedup is off, and through a row with the
   * same normalised URL when dedup is on and that URL is non-empty.
   */
  lemma RowsCoverHeader(c: Codec, cfg: Config, url: string, res: Response, k: nat, raw: RawRow)
    requires IsHtmlPage(res) && HeaderEl(res.doc).Some?
    requires k in Descendants(res.doc, HeaderEl(res.doc).value)
    requires raw in ElementRows(c, res.doc, OrElse(res.finalUrl, url), k)
    ensures var rows := ParseHeader(c, cfg, url, res).rows;
            && (!cfg.dedupByUrl ==> Enrich(c, cfg, raw) in rows)
            && (cfg.dedupByUrl && Norm(c, cfg, raw.url) != "" ==>
                  exists row :: row in rows && Norm(c, cfg, row.url) == Norm(c, cfg, raw.url))
  {
    var base := OrElse(res.finalUrl, url);
    var h := HeaderEl(res.doc).value;
    var raws := HeaderRawRows(c, res.doc, base, h);
    var enriched := EnrichAll(c, cfg, raws);
    assert raw in raws;
    var i :| 0 <= i < |raws| && raws[i] == raw;
    assert enriched[i] == Enrich(c, cfg, raw);
    if cfg.dedupByUrl && Norm(c, cfg, raw.url) != "" {
      Seqs.DedupCovers(enriched, RowKey(c, cfg), i);
    }
  }

  /** One line of `pages.csv`: counts per type and per scope, in first-seen order. */
  datatype PageRecord = PageRecord(pageUrl: string, total: nat, unique: nat,
                                   types: seq<(string, nat)>, scopes: seq<(ScopeClass, nat)>,
                                   error: string)

  function TypeOf(r: Row): string { r.typ }
  function ScopeOf(r: Row): ScopeClass { r.scope }

  /** The record the crawl pushes for a parsed page; `unique` equals `total`
      because the rows are already deduplicated. */
  function Record(p: PageData): PageRecord {
    PageRecord(p.pageUrl, |p.rows|, |p.rows|,
               Counts.Tally(Seqs.Map(p.rows, TypeOf)), Counts.Tally(Seqs.Map(p.rows, ScopeOf)),
               p.error)
  }

  /**
   * The record's type counts and scope counts each add up to the number of
   * rows, count every type (scope) as often as rows carry it, and list each
   * key once.
   */
  lemma RecordCounts(p: PageData, t: string, s: ScopeClass)
    ensures var r := Record(p);
            && r.total == r.unique == |p.rows|
            && Counts.Total(r.types) == r.total && Counts.Total(r.scopes) == r.total
            && Counts.Lookup(r.types, t) == Counts.Occ(Seqs.Map(p.rows, TypeOf), t)
            && Counts.Lookup(r.scopes, s) == Counts.Occ(Seqs.Map(p.rows, ScopeOf), s)
            && Seqs.Distinct(Counts.Keys(r.types)) && Seqs.Distinct(Counts.Keys(r.scopes))
  {
    Counts.TallySpec(Seqs.Map(p.rows, TypeOf));
    Counts.TallySpec(Seqs.Map(p.rows, ScopeOf));
  }

  /** A page that failed has a record with no rows and no counts. */
  lemma ErrorRecordEmpty(c: Codec, cfg: Config, url: string, res: Response)
    requires !IsHtmlPage(res)
    ensures var r := Record(ParseHeader(c, cfg, url, res));
            r.total == 0 && r.types == [] && r.scopes == [] && r.error != ""
  {
  }
}
