/**
 * Where the two crawlers treat the same input differently: their asset
 * lists, their response checks, and their notions of "internal".
 */
module Differences {
  import opened Wrappers
  import opened Text
  import opened Url
  import opened Scope
  import opened Resource
  import opened Dom
  import HeaderPage
  import RegionPage

  /** No listed extension contains a dot. */
  predicate DotFree(exts: seq<string>) {
    forall k :: 0 <= k < |exts| ==> '.' !in exts[k]
  }

  /**
   * For a URL without a query whose last segment is `.e`, the asset test
   * looks at `e` alone: a listed extension can only match at the last dot,
   * since it must run to the end of the string.
   */
  lemma LastDotDecides(exts: seq<string>, p: string, e: string)
    requires DotFree(exts)
    requires '?' !in p && '?' !in e && '.' !in e
    ensures MatchesAssetExt(exts, p + "." + e) <==> Lower(e) in exts
  {
    var s := p + "." + e;
    assert s[|p|] == '.';
    assert s[|p| + 1..] == e;
    if MatchesAssetExt(exts, s) {
      var i, k :| 0 <= i < |s| && 0 <= k < |exts| && ExtAt(s, i, exts[k]);
      var x := exts[k];
      assert i + 1 + |x| == |s|;
      assert i == |p|;
      assert Lower(e) == x;
    }
    if Lower(e) in exts {
      var k :| 0 <= k < |exts| && exts[k] == Lower(e);
      assert ExtAt(s, |p|, exts[k]);
    }
  }

  /** Every asset extension of the region crawler is one of the header
      crawler's, so the header crawler's HTML test is the stricter one. */
  lemma HtmlTestsNested(s: string)
    requires LooksLikeHtml(HeaderPage.AssetExts, s)
    ensures LooksLikeHtml(RegionPage.AssetExts, s)
  {
    assert forall e :: e in RegionPage.AssetExts ==> e in HeaderPage.AssetExts;
    LooksLikeHtmlAntitone(RegionPage.AssetExts, HeaderPage.AssetExts, s);
  }

  /** No extension of the region crawler's list contains a dot. */
  lemma RegionDotFree()
    ensures DotFree(RegionPage.AssetExts)
  {
  }

  /** The extensions only the header crawler counts as assets. */
  const ExtraExts: seq<string> := ["woff", "woff2", "ttf", "otf", "eot", "json", "xml", "mjs", "webm"]

  /** Every extra extension is on the header crawler's list and not on the
      region crawler's. */
  lemma ExtraInHeader(x: string)
    requires x in ExtraExts
    ensures x in HeaderPage.AssetExts
  {
  }

  lemma ExtraNotInRegion(x: string)
    requires x in ExtraExts
    ensures x !in RegionPage.AssetExts
  {
  }

  /**
   * A link to a web font (`.woff`, `.woff2`, `.ttf`, `.otf`, `.eot`), a `.json`,
   * `.xml`, `.mjs` or `.webm` file passes the region crawler's HTML test and
   * fails the header crawler's.
   */
  lemma ExtraAssetsDiffer(p: string, e: string)
    requires '?' !in p && '?' !in e && '.' !in e
    requires Lower(e) in ExtraExts
    ensures !LooksLikeHtml(HeaderPage.AssetExts, p + "." + e)
    ensures LooksLikeHtml(RegionPage.AssetExts, p + "." + e)
  {
    ExtraInHeader(Lower(e));
    ExtraNotInRegion(Lower(e));
    RegionDotFree();
    LastDotDecides(RegionPage.AssetExts, p, e);
    var s := p + "." + e;
    var k :| 0 <= k < |HeaderPage.AssetExts| && HeaderPage.AssetExts[k] == Lower(e);
    assert s[|s| - |e|..] == e;
    EndingExtIsAsset(HeaderPage.AssetExts, s, k);
  }

  /**
   * A response with an HTML content type but an error status is an error
   * for the header crawler (no rows, no links) and a processed page for the
   * region crawler.
   */
  lemma ErrorStatusDiffers(c: Codec, hcfg: HeaderPage.Config, rcfg: RegionPage.Config,
                           url: string, finalUrl: string, ct: string, doc: Document)
    requires Contains(ct, "text/html")
    ensures var res := Fetched(finalUrl, false, ct, doc);
            && HeaderPage.ParseHeader(c, hcfg, url, res).error == "NON_HTML: " + ct
            && RegionPage.ProcessPage(c, rcfg, url, res).PageDone?
  {
  }

  /**
   * A link to the start page's host on another port is INTERN for the
   * region crawler, which compares host names only, and EXTERN for the
   * header crawler under its same-origin policy.
   */
  lemma OtherPortDiffers(c: Codec, href: string, abs: string, start: string, u: Url, s: Url)
    requires RegionPage.ByHost(href)
    requires c.parse(abs) == Some(u) && c.parse(start) == Some(s)
    requires IsHttpScheme(u.scheme) && u.scheme == s.scheme && u.host == s.host && u.port != s.port
    ensures RegionPage.TypeOf(c, href, abs, start) == RegionPage.Internal
    ensures ClassifyScope(c, Policy(true, false), abs, start) == Extern
  {
    OtherPortIsExtern(c, abs, start, u, s);
  }

  lemma ZipNotInTable()
    ensures ExtType("zip") == None
  {
  }

  /** The type table does not know the extension of a `.zip` path. */
  lemma ZipUnknown(c: Codec, target: string, u: Url, q: string)
    requires c.parse(target) == Some(u) && u.path == q + ".zip"
    ensures ExtType(GetExt(c, target)).None?
  {
    PathExtOf(q, "zip");
    assert q + "." + "zip" == q + ".zip";
    assert Lower("zip") == "zip";
    ZipNotInTable();
  }

  /**
   * An http(s) link to a file with an extension the type table does not
   * know, such as `.zip`, is typed HTML by the header crawler (so links from
   * the header follow it when it is internal) although its asset test
   * rejects it (so links from the whole page do not).
   */
  lemma ZipTypedHtml(c: Codec, href: string, absUrl: string, u: Url, q: string)
    requires !IsMail(href) && !IsTel(href)
    requires HasHttpScheme(OrElse(absUrl, href))
    requires c.parse(OrElse(absUrl, href)) == Some(u) && u.path == q + ".zip"
    requires EndsWith(OrElse(absUrl, href), ".zip")
    ensures ClassifyResourceType(c, href, absUrl) == "HTML"
    ensures !LooksLikeHtml(HeaderPage.AssetExts, OrElse(absUrl, href))
  {
    ZipUnknown(c, OrElse(absUrl, href), u, q);
    ClassifyHtmlIff(c, href, absUrl);
    ZipIsAsset(OrElse(absUrl, href));
  }

  /** A URL ending in `.zip` fails the header crawler's HTML test. */
  lemma ZipIsAsset(target: string)
    requires EndsWith(target, ".zip")
    ensures !LooksLikeHtml(HeaderPage.AssetExts, target)
  {
    var tail := target[|target| - 3..];
    assert tail == "zip" && target[|target| - 4] == '.';
    assert Lower("zip") == "zip";
    assert HeaderPage.AssetExts[8] == "zip";
    EndingExtIsAsset(HeaderPage.AssetExts, target, 8);
  }
}
