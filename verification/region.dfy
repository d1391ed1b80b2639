/**
 * The header/main/footer crawler's page step `processPage`: the page's
 * anchors are split into the header region (inside the first header match),
 * the footer region (inside the last footer match) and the main region
 * (everything else); each region's links become records with a coarse link
 * type, deduplicated by normalised URL; and the in-scope HTML targets of all
 * anchors are the candidates to crawl next.
 */
module RegionPage {
  import opened Wrappers
  import opened Text
  import opened Url
  import opened Scope
  import opened Resource
  import opened Dom
  import Seqs
  import Counts

  /** The asset extensions of this crawler's `looksLikeHtml`: fonts, `webm`,
      `mjs`, `json` and `xml` are not among them. */
  const AssetExts: seq<string> :=
    ["jpg", "jpeg", "png", "gif", "webp", "svg", "ico", "pdf", "zip", "rar", "7z", "gz", "tar",
     "mp4", "mp3", "wav", "ogg", "css", "js"]

  datatype Config = Config(startUrl: string, maxDepth: int, maxPages: int, policy: Policy,
                           dedupByUrl: bool, paramIgnore: seq<string>)

  /** The link types TEL, MAIL, PDF, INTERN, EXTERN and UNBEKANNT. */
  datatype LinkType = Tel | Mail | Pdf | Internal | External | Unknown

  datatype Region = InHeader | InMain | InFooter

  /** A link record: collapsed link text, trimmed `href`, absolute URL, type. */
  datatype Record = Record(text: string, href: string, url: string, typ: LinkType)

  /** The records of one region and their deduplicated subset. */
  datatype RegionData = RegionData(all: seq<Record>, unique: seq<Record>)

  /** What `processPage` returns: an error, or the three regions and the
      candidates to crawl next. */
  datatype PageResult =
    | PageFailed(pageUrl: string, error: string)
    | PageDone(pageUrl: string, header: RegionData, main: RegionData, footer: RegionData,
               next: seq<string>)

  function Norm(c: Codec, cfg: Config, s: string): string {
    NormUrl(c, cfg.paramIgnore, s)
  }

  /** Neither `tel:`, `mailto:` nor a `.pdf` link: the type goes by host. */
  predicate ByHost(href: string) {
    var low := Lower(href);
    !StartsWith(low, "tel:") && !StartsWith(low, "mailto:") && !MatchesAssetExt(["pdf"], low)
  }

  predicate BothParse(c: Codec, a: string, b: string) {
    c.parse(a).Some? && c.parse(b).Some?
  }

  /**
   * The link type of a trimmed `href` resolved to `abs`: `tel:` before
   * `mailto:` before a `.pdf` extension (all on the lower-cased `href`), then
   * INTERN or EXTERN by hostname alone, and UNBEKANNT when either URL does not
   * parse.
   */
  function TypeOf(c: Codec, href: string, abs: string, start: string): (t: LinkType)
    ensures t == Tel <==> StartsWith(Lower(href), "tel:")
    ensures t == Mail <==> !StartsWith(Lower(href), "tel:") && StartsWith(Lower(href), "mailto:")
    ensures t == Pdf <==> !StartsWith(Lower(href), "tel:") && !StartsWith(Lower(href), "mailto:")
                          && MatchesAssetExt(["pdf"], Lower(href))
    ensures t == Internal <==> ByHost(href) && BothParse(c, abs, start)
                               && c.parse(abs).value.host == c.parse(start).value.host
    ensures t == External <==> ByHost(href) && BothParse(c, abs, start)
                               && c.parse(abs).value.host != c.parse(start).value.host
    ensures t == Unknown <==> ByHost(href) && !BothParse(c, abs, start)
  {
    var low := Lower(href);
    if StartsWith(low, "tel:") then Tel
    else if StartsWith(low, "mailto:") then Mail
    else if MatchesAssetExt(["pdf"], low) then Pdf
    else match (c.parse(abs), c.parse(start))
      case (Some(u), Some(s)) => if u.host == s.host then Internal else External
      case _ => Unknown
  }

  /** The record of anchor `k` on a page at `base`. */
  function MakeRecord(c: Codec, cfg: Config, d: Document, base: string, k: nat): (r: Record)
    ensures r.href == Trim(AttrOr(d, k, "href")) && r.url == ToAbs(c, r.href, base)
    ensures Trimmed(r.href)
    ensures HasText(TextOf(d, k)) ==> Tidied(r.text, TextOf(d, k))
    ensures r.text == Tidy(TextOf(d, k))
    ensures !HasText(TextOf(d, k)) ==> r.text == ""
    ensures r.typ == TypeOf(c, r.href, r.url, cfg.startUrl)
  {
    var href := Trim(AttrOr(d, k, "href"));
    var abs := ToAbs(c, href, base);
    Record(Tidy(TextOf(d, k)), href, abs, TypeOf(c, href, abs, cfg.startUrl))
  }

  function RecordKey(c: Codec, cfg: Config): Record -> string {
    (r: Record) => Norm(c, cfg, r.url)
  }

  /**
   * `makeRecords(list)`: a record per link in order, and the unique records:
   * with `dedupByUrl` the first record per non-empty normalised URL
   * (`UniqueRecords`), without it every record.
   */
  function MakeRecords(c: Codec, cfg: Config, d: Document, base: string, links: seq<nat>): (r: RegionData)
    ensures |r.all| == |links| && forall i :: 0 <= i < |links| ==> r.all[i] == MakeRecord(c, cfg, d, base, links[i])
    ensures Seqs.Subseq(r.unique, r.all) && |r.unique| <= |r.all|
    ensures !cfg.dedupByUrl ==> r.unique == r.all
  {
    var all := Seqs.Map(links, k => MakeRecord(c, cfg, d, base, k));
    var unique := if cfg.dedupByUrl then Seqs.DedupBy(all, RecordKey(c, cfg)) else all;
    assert Seqs.Subseq(unique, all) by {
      if !cfg.dedupByUrl { Seqs.SubseqRefl(all); }
    }
    Seqs.SubseqLength(unique, all);
    RegionData(all, unique)
  }

  /** With `dedupByUrl`, the unique records have distinct non-empty
      normalised URLs, the first record of every such URL is kept, and a
      record whose href did not resolve (empty url) stays in `all` only. */
  lemma UniqueRecords(c: Codec, cfg: Config, d: Document, base: string, links: seq<nat>)
    requires cfg.dedupByUrl
    ensures var r := MakeRecords(c, cfg, d, base, links);
            && (forall i, j :: 0 <= i < j < |r.unique| ==> Norm(c, cfg, r.unique[i].url) != Norm(c, cfg, r.unique[j].url))
            && (forall i :: 0 <= i < |r.unique| ==> Norm(c, cfg, r.unique[i].url) != "")
            && (forall i ::
                  0 <= i < |r.all| && Norm(c, cfg, r.all[i].url) != "" && Seqs.FirstWithKey(r.all, RecordKey(c, cfg), i)
                  ==> r.all[i] in r.unique)
            && (forall i :: 0 <= i < |r.all| && r.all[i].url == "" ==> r.all[i] !in r.unique)
  {
    var r := MakeRecords(c, cfg, d, base, links);
    var key := RecordKey(c, cfg);
    assert r.unique == Seqs.DedupBy(r.all, key);
    forall i, j | 0 <= i < j < |r.unique| ensures Norm(c, cfg, r.unique[i].url) != Norm(c, cfg, r.unique[j].url) {
      assert key(r.unique[i]) != key(r.unique[j]);
    }
    forall i | 0 <= i < |r.unique| ensures Norm(c, cfg, r.unique[i].url) != "" {
      assert key(r.unique[i]) != "";
    }
    forall i | 0 <= i < |r.all| && Norm(c, cfg, r.all[i].url) != "" && Seqs.FirstWithKey(r.all, key, i)
      ensures r.all[i] in r.unique
    {
      assert key(r.all[i]) != "";
    }
    forall i | 0 <= i < |r.all| && r.all[i].url == "" ensures r.all[i] !in r.unique {
      assert key(r.all[i]) == "";
    }
  }

  /** The region of anchor `k`: the header wins over the footer, and a link
      in neither is in the main region. */
  function RegionOf(d: Document, k: nat): Region {
    if IsInside(d, Some(k), HeaderEl(d)) then InHeader
    else if IsInside(d, Some(k), FooterEl(d)) then InFooter
    else InMain
  }

  /** The links of one region, in document order (the reference definition of
      the split). */
  function InRegion(d: Document, links: seq<nat>, g: Region): seq<nat> {
    Seqs.Filter(links, k => RegionOf(d, k) == g)
  }

  /** One more link extends its own region's list and leaves the others. */
  lemma RegionStep(d: Document, links: seq<nat>, i: nat, g: Region)
    requires i < |links|
    ensures InRegion(d, links[..i + 1], g)
            == InRegion(d, links[..i], g) + (if RegionOf(d, links[i]) == g then [links[i]] else [])
  {
    assert links[..i + 1] == links[..i] + [links[i]];
    Seqs.FilterAppend(links[..i], [links[i]], k => RegionOf(d, k) == g);
    assert [links[i]][1..] == [];
  }

  /**
   * The loop of step 7: each link goes to the first region it is inside. The
   * three lists are the links of each region in their original order, and
   * together they hold every link exactly once.
   */
  method Partition(d: Document, links: seq<nat>) returns (header: seq<nat>, main: seq<nat>, footer: seq<nat>)
    ensures header == InRegion(d, links, InHeader)
    ensures main == InRegion(d, links, InMain)
    ensures footer == InRegion(d, links, InFooter)
    ensures |header| + |main| + |footer| == |links|
  {
    header, main, footer := [], [], [];
    var i := 0;
    while i < |links|
      invariant 0 <= i <= |links|
      invariant header == InRegion(d, links[..i], InHeader)
      invariant main == InRegion(d, links[..i], InMain)
      invariant footer == InRegion(d, links[..i], InFooter)
      invariant |header| + |main| + |footer| == i
    {
      var el := links[i];
      RegionStep(d, links, i, InHeader);
      RegionStep(d, links, i, InMain);
      RegionStep(d, links, i, InFooter);
      if IsInside(d, Some(el), HeaderEl(d)) {
        header := header + [el];
      } else if IsInside(d, Some(el), FooterEl(d)) {
        footer := footer + [el];
      } else {
        main := main + [el];
      }
      i := i + 1;
    }
    assert links[..|links|] == links;
  }

  /** A link is in the header region exactly when it is inside the header
      element, and in the footer region exactly when it is inside the footer
      element but not the header element. */
  lemma RegionMembership(d: Document, links: seq<nat>, k: nat)
    ensures k in InRegion(d, links, InHeader) <==> k in links && IsInside(d, Some(k), HeaderEl(d))
    ensures k in InRegion(d, links, InFooter) <==>
              k in links && !IsInside(d, Some(k), HeaderEl(d)) && IsInside(d, Some(k), FooterEl(d))
    ensures k in InRegion(d, links, InMain) <==>
              k in links && !IsInside(d, Some(k), HeaderEl(d)) && !IsInside(d, Some(k), FooterEl(d))
  {
  }

  /** The URL an anchor resolves to (the untrimmed `href`). */
  function RawTarget(c: Codec, d: Document, base: string, k: nat): string {
    ToAbs(c, AttrOr(d, k, "href"), base)
  }

  predicate Candidate(c: Codec, cfg: Config, u: string) {
    u != "" && LooksLikeHtml(AssetExts, u) && InScope(c, cfg.policy, u, cfg.startUrl)
  }

  /**
   * Step 9, `nextCandidates`: of the anchors' absolute URLs, those starting
   * with `http://` or `https://`, normalised, non-empty, without an asset
   * extension and in scope, each once in order of first appearance.
   */
  function NextCandidates(c: Codec, cfg: Config, d: Document, base: string): (r: seq<string>)
    ensures Seqs.Distinct(r)
    ensures forall u :: u in r <==>
              Candidate(c, cfg, u)
              && exists k :: k in Anchors(d) && HasHttpSlashes(RawTarget(c, d, base, k))
                             && Norm(c, cfg, RawTarget(c, d, base, k)) == u
  {
    var kept := Seqs.Filter(NormTargets(c, cfg, d, base), u => Candidate(c, cfg, u));
    Seqs.Unique(kept)
  }

  /** The anchors' absolute URLs that start with `http://` or `https://`, in
      document order. */
  function HttpTargets(c: Codec, d: Document, base: string): (r: seq<string>)
    ensures forall a :: a in r <==> HasHttpSlashes(a) && exists k :: k in Anchors(d) && RawTarget(c, d, base, k) == a
  {
    var abs := Seqs.Map(Anchors(d), k => RawTarget(c, d, base, k));
    forall a ensures a in abs <==> exists k :: k in Anchors(d) && RawTarget(c, d, base, k) == a {
      Seqs.MapMember(Anchors(d), k => RawTarget(c, d, base, k), a);
    }
    Seqs.Filter(abs, HasHttpSlashes)
  }

  /** Those URLs normalised, in document order. */
  function NormTargets(c: Codec, cfg: Config, d: Document, base: string): (r: seq<string>)
    ensures forall u :: u in r <==>
              exists k :: k in Anchors(d) && HasHttpSlashes(RawTarget(c, d, base, k))
                          && Norm(c, cfg, RawTarget(c, d, base, k)) == u
  {
    var http := HttpTargets(c, d, base);
    var norm := Seqs.Map(http, v => Norm(c, cfg, v));
    forall u ensures u in norm <==>
        exists k :: k in Anchors(d) && HasHttpSlashes(RawTarget(c, d, base, k))
                    && Norm(c, cfg, RawTarget(c, d, base, k)) == u
    {
      Seqs.MapMember(http, v => Norm(c, cfg, v), u);
    }
    norm
  }

  /** Whether a fetch outcome is processed: any fetched response with an HTML
      content type, whatever its status. */
  predicate IsHtmlResponse(res: Response) {
    res.Fetched? && Contains(res.contentType, "text/html")
  }

  /**
   * `processPage(url, startUrl)` on the fetch outcome `res`: a failed fetch or
   * a content type without `text/html` is an error; otherwise the three
   * regions' records and the candidates, resolved against the final URL.
   */
  function ProcessPage(c: Codec, cfg: Config, url: string, res: Response): (r: PageResult)
    ensures r.PageFailed? <==> !IsHtmlResponse(res)
    ensures r.PageFailed? ==> r.error != ""
    ensures res.FetchFailed? ==> r.pageUrl == url
    ensures res.Fetched? ==> r.pageUrl == OrElse(res.finalUrl, url)
    ensures r.PageDone? ==>
              var links := Anchors(res.doc);
              && r.header == MakeRecords(c, cfg, res.doc, r.pageUrl, InRegion(res.doc, links, InHeader))
              && r.main == MakeRecords(c, cfg, res.doc, r.pageUrl, InRegion(res.doc, links, InMain))
              && r.footer == MakeRecords(c, cfg, res.doc, r.pageUrl, InRegion(res.doc, links, InFooter))
              && |r.header.all| + |r.main.all| + |r.footer.all| == |links|
              && r.next == NextCandidates(c, cfg, res.doc, r.pageUrl)
  {
    match res
    case FetchFailed(msg) => PageFailed(url, "FETCH_ERROR: " + msg)
    case Fetched(finalUrl, ok, ct, doc) =>
      if !Contains(ct, "text/html") then PageFailed(OrElse(finalUrl, url), "NON_HTML: " + ct)
      else
        var base := OrElse(finalUrl, url);
        var links := Anchors(doc);
        var h := InRegion(doc, links, InHeader);
        var m := InRegion(doc, links, InMain);
        var f := InRegion(doc, links, InFooter);
        RegionSizes(doc, links);
        PageDone(base, MakeRecords(c, cfg, doc, base, h), MakeRecords(c, cfg, doc, base, m),
                 MakeRecords(c, cfg, doc, base, f), NextCandidates(c, cfg, doc, base))
  }

  lemma {:induction false} RegionSizes(d: Document, links: seq<nat>)
    ensures |InRegion(d, links, InHeader)| + |InRegion(d, links, InMain)| + |InRegion(d, links, InFooter)| == |links|
    decreases |links|
  {
    if links != [] {
      RegionSizes(d, links[1..]);
    }
  }

  /** Every candidate is in scope, already normalised, and still starts with
      `http://` or `https://` after normalisation. */
  lemma CandidatesInScope(c: Codec, cfg: Config, d: Document, base: string, u: string)
    requires ValidCodec(c)
    requires u in NextCandidates(c, cfg, d, base)
    ensures InScope(c, cfg.policy, u, cfg.startUrl) && Norm(c, cfg, u) == u
    ensures HasHttpSlashes(u)
  {
    var k :| k in Anchors(d) && HasHttpSlashes(RawTarget(c, d, base, k))
             && Norm(c, cfg, RawTarget(c, d, base, k)) == u;
    var raw := RawTarget(c, d, base, k);
    NormIdempotent(c, cfg.paramIgnore, raw);
    var v := c.resolve(AttrOr(d, k, "href"), base).value;
    assert RoundTrips(c, v);
    assert RoundTrips(c, Strip(v, cfg.paramIgnore));
  }

  /** Every link `processPage` returns is non-empty, starts with `http://` or
      `https://`, is in scope and is already normalised. */
  lemma NextInScope(c: Codec, cfg: Config, url: string, res: Response)
    requires ValidCodec(c)
    ensures var r := ProcessPage(c, cfg, url, res);
            r.PageDone? ==>
              forall u :: u in r.next ==>
                u != "" && HasHttpSlashes(u) && InScope(c, cfg.policy, u, cfg.startUrl) && Norm(c, cfg, u) == u
  {
    var r := ProcessPage(c, cfg, url, res);
    if r.PageDone? {
      forall u | u in r.next
        ensures u != "" && HasHttpSlashes(u) && InScope(c, cfg.policy, u, cfg.startUrl) && Norm(c, cfg, u) == u
      {
        CandidatesInScope(c, cfg, res.doc, r.pageUrl, u);
      }
    }
  }

  /** The counts of one region: all records, deduplicated records, and the
      types of the deduplicated records. */
  datatype RegionCounts = RegionCounts(total: nat, unique: nat, types: seq<(LinkType, nat)>)

  /** One line of the result file. */
  datatype PageRow = PageRow(pageUrl: string, header: RegionCounts, main: RegionCounts,
                             footer: RegionCounts, error: string)

  function TypeTag(r: Record): LinkType { r.typ }

  function CountRegion(r: RegionData): RegionCounts {
    RegionCounts(|r.all|, |r.unique|, Counts.Tally(Seqs.Map(r.unique, TypeTag)))
  }

  const NoCounts: RegionCounts := RegionCounts(0, 0, [])

  /** The line `crawlSite` pushes: zero counts and the error for a failed page. */
  function RowOf(p: PageResult): PageRow {
    match p
    case PageFailed(u, e) => PageRow(u, NoCounts, NoCounts, NoCounts, e)
    case PageDone(u, h, m, f, _) => PageRow(u, CountRegion(h), CountRegion(m), CountRegion(f), "")
  }

  /**
   * A region's type counts add up to its deduplicated records, which are at
   * most all its records, and count each type as often as the deduplicated
   * records carry it.
   */
  lemma RegionCountsAdd(r: RegionData, t: LinkType)
    requires Seqs.Subseq(r.unique, r.all)
    ensures var n := CountRegion(r);
            && n.unique <= n.total
            && Counts.Total(n.types) == n.unique
            && Counts.Lookup(n.types, t) == Counts.Occ(Seqs.Map(r.unique, TypeTag), t)
            && Seqs.Distinct(Counts.Keys(n.types))
  {
    Seqs.SubseqLength(r.unique, r.all);
    Counts.TallySpec(Seqs.Map(r.unique, TypeTag));
  }

  /** A page's line: every region's types add up to its unique count, and a
      failed page has all-zero counts and its error. */
  lemma PageRowCounts(c: Codec, cfg: Config, url: string, res: Response)
    ensures var row := RowOf(ProcessPage(c, cfg, url, res));
            && Counts.Total(row.header.types) == row.header.unique <= row.header.total
            && Counts.Total(row.main.types) == row.main.unique <= row.main.total
            && Counts.Total(row.footer.types) == row.footer.unique <= row.footer.total
            && (row.error != "" <==> !IsHtmlResponse(res))
            && (row.error != "" ==> row.header == row.main == row.footer == NoCounts)
  {
    var p := ProcessPage(c, cfg, url, res);
    if p.PageDone? {
      RegionCountsAdd(p.header, Tel);
      RegionCountsAdd(p.main, Tel);
      RegionCountsAdd(p.footer, Tel);
    }
  }
}
