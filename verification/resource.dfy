/**
 * Resource classification: the asset-extension test `looksLikeHtml` (its
 * extension list differs between the two scripts and is a parameter here),
 * the path extension `getExt`, and `classifyResourceType`, which decides a
 * reference's type tag by scheme first, then extension, then the HTML
 * fallback. Type tags are the script's strings ("IMAGE", "HTML", ...): a
 * scheme the script upper-cases can coincide with a fixed tag.
 */
module Resource {
  import opened Wrappers
  import opened Text
  import opened Url

  /** `\.(ext)(\?|$)` matches at position `i` with alternative `e`
      (`e` lower-case, compared case-insensitively). */
  predicate ExtAt(s: string, i: int, e: string) {
    0 <= i && i + 1 + |e| <= |s| && s[i] == '.'
    && Lower(s[i + 1..i + 1 + |e|]) == e
    && (i + 1 + |e| == |s| || s[i + 1 + |e|] == '?')
  }

  /** `/\.(e1|e2|...)(\?|$)/i.test(s)`: the pattern is not anchored, so it may
      match anywhere, query string included. */
  predicate MatchesAssetExt(exts: seq<string>, s: string) {
    exists i, k :: 0 <= i < |s| && 0 <= k < |exts| && ExtAt(s, i, exts[k])
  }

  /** `looksLikeHtml`: no asset extension followed by `?` or the end. */
  predicate LooksLikeHtml(exts: seq<string>, s: string) {
    !MatchesAssetExt(exts, s)
  }

  /** A shorter extension list lets more URLs through. */
  lemma LooksLikeHtmlAntitone(narrow: seq<string>, wide: seq<string>, s: string)
    requires forall e :: e in narrow ==> e in wide
    requires LooksLikeHtml(wide, s)
    ensures LooksLikeHtml(narrow, s)
  {
    forall i, k | 0 <= i < |s| && 0 <= k < |narrow|
      ensures !ExtAt(s, i, narrow[k])
    {
      assert narrow[k] in narrow;
      var k' :| 0 <= k' < |wide| && wide[k'] == narrow[k];
      assert !ExtAt(s, i, wide[k']);
    }
  }

  /** A URL ending in `.` + a listed extension (any case) is not HTML. */
  lemma EndingExtIsAsset(exts: seq<string>, s: string, k: int)
    requires 0 <= k < |exts|
    requires |exts[k] | + 1 <= |s| && s[|s| - |exts[k]| - 1] == '.'
    requires Lower(s[|s| - |exts[k]|..]) == exts[k]
    ensures !LooksLikeHtml(exts, s)
  {
    assert ExtAt(s, |s| - |exts[k]| - 1, exts[k]);
  }

  /** Length of the longest all-alphanumeric suffix of `p`. */
  function TrailingAlnum(p: string): (n: nat)
    ensures n <= |p|
    ensures forall i :: |p| - n <= i < |p| ==> IsAlnum(p[i])
    ensures n < |p| ==> !IsAlnum(p[|p| - n - 1])
    decreases |p|
  {
    if p != [] && IsAlnum(p[|p| - 1]) then 1 + TrailingAlnum(p[..|p| - 1]) else 0
  }

  /** `pathname.match(/\.([a-z0-9]+)$/i)`, lower-cased, or "" without a match. */
  function PathExt(p: string): (r: string)
    ensures r != "" ==> |r| < |p| && p[|p| - |r| - 1] == '.' && r == Lower(p[|p| - |r|..])
    ensures forall i :: 0 <= i < |r| ==> IsAlnum(r[i]) && !('A' <= r[i] <= 'Z')
  {
    var n := TrailingAlnum(p);
    if n > 0 && n < |p| && p[|p| - n - 1] == '.' then Lower(p[|p| - n..]) else ""
  }

  /** The extension of `q.e` is `e`, lower-cased, for any non-empty alphanumeric `e`. */
  lemma PathExtOf(q: string, e: string)
    requires e != [] && forall i :: 0 <= i < |e| ==> IsAlnum(e[i])
    ensures PathExt(q + "." + e) == Lower(e)
  {
    var p := q + "." + e;
    assert p[|p| - |e|..] == e;
    assert p[|p| - |e| - 1] == '.';
    assert TrailingAlnum(p) == |e|;
  }

  /** `getExt(u)`: the extension of the parsed URL's pathname, "" when `u`
      does not parse. */
  function GetExt(c: Codec, u: string): string {
    match c.parse(u)
    case Some(x) => PathExt(x.path)
    case None => ""
  }

  /** The extension table of `classifyResourceType`. The image pattern
      `(jpe?g|png|gif|webp)$` is anchored at the end only. */
  function ExtType(ext: string): (r: Option<string>)
    ensures r.Some? ==> r.value in DocumentTypes && r.value != "HTML"
  {
    if EndsWith(ext, "jpg") || EndsWith(ext, "jpeg") || EndsWith(ext, "png")
       || EndsWith(ext, "gif") || EndsWith(ext, "webp") then Some("IMAGE")
    else if ext == "svg" then Some("SVG")
    else if ext == "pdf" then Some("PDF")
    else if ext == "css" then Some("CSS")
    else if ext == "js" || ext == "mjs" then Some("JS")
    else if ext in ["woff", "woff2", "ttf", "otf", "eot"] then Some("FONT")
    else if ext in ["mp4", "webm"] then Some("VIDEO")
    else if ext in ["mp3", "wav", "ogg"] then Some("AUDIO")
    else if ext == "json" then Some("JSON")
    else if ext == "xml" then Some("XML")
    else if ext == "ico" then Some("ICON")
    else None
  }

  /** The tags an http(s) reference can get. */
  const DocumentTypes: set<string> :=
    {"IMAGE", "SVG", "PDF", "CSS", "JS", "FONT", "VIDEO", "AUDIO", "JSON", "XML", "ICON", "HTML"}

  /** `(absUrl || href).split(':')[0].toLowerCase()`. */
  function Proto(target: string): string {
    Lower(BeforeFirst(target, ':'))
  }

  /** The tag of a non-http(s) scheme. */
  function SchemeTag(proto: string): string {
    if proto == "data" then "DATA"
    else if proto == "blob" then "BLOB"
    else if proto == "ftp" then "FTP"
    else Upper(proto)
  }

  predicate IsMail(href: string) { StartsWith(Lower(href), "mailto:") }
  predicate IsTel(href: string) { StartsWith(Lower(href), "tel:") }

  /**
   * `classifyResourceType(href, absUrl)`. The raw href's `mailto:`/`tel:`
   * prefix decides first, whatever the resolved URL; then a non-http(s)
   * scheme; then the extension; then HTML for http(s) and OTHER otherwise.
   */
  function ClassifyResourceType(c: Codec, href: string, absUrl: string): (r: string)
    ensures IsMail(href) ==> r == "MAIL"
    ensures !IsMail(href) && IsTel(href) ==> r == "TEL"
    ensures !IsMail(href) && !IsTel(href) ==>
              var target := OrElse(absUrl, href);
              var p := Proto(target);
              var t := ExtType(GetExt(c, target));
              (p != "" && !IsHttpScheme(p) ==> r == SchemeTag(p))
              && ((p == "" || IsHttpScheme(p)) && t.Some? ==> r == t.value)
              && ((p == "" || IsHttpScheme(p)) && t.None? ==>
                    (r == "HTML" <==> HasHttpScheme(target)) && (r == "OTHER" <==> !HasHttpScheme(target)))
              && (HasHttpScheme(target) ==> r in DocumentTypes)
  {
    var low := Lower(href);
    if StartsWith(low, "mailto:") then "MAIL"
    else if StartsWith(low, "tel:") then "TEL"
    else
      var target := OrElse(absUrl, href);
      var proto := Proto(target);
      assert HasHttpScheme(target) ==> IsHttpScheme(proto) by {
        if HasHttpScheme(target) { HttpProto(target); }
      }
      if proto != "" && !IsHttpScheme(proto) then SchemeTag(proto)
      else match ExtType(GetExt(c, target))
        case Some(t) => t
        case None => if HasHttpScheme(target) then "HTML" else "OTHER"
  }

  /** The scheme test of a string starting with `http:`/`https:` sees http(s). */
  lemma HttpProto(target: string)
    requires HasHttpScheme(target)
    ensures Proto(target) == "http" || Proto(target) == "https"
  {
    var l := Lower(target);
    if StartsWith(l, "http:") {
      assert target[4] == ':' && ':' !in target[..4];
      BeforeFirstUnique(target, ':', 4);
      assert Lower(target[..4]) == l[..4];
    } else {
      assert target[5] == ':' && ':' !in target[..5];
      BeforeFirstUnique(target, ':', 5);
      assert Lower(target[..5]) == l[..5];
    }
  }

  /**
   * For an http(s) target (and a raw href that is not `mailto:`/`tel:`), the
   * type is the extension's tag, or HTML when the extension is unknown.
   */
  lemma ClassifyHttp(c: Codec, href: string, absUrl: string)
    requires !IsMail(href) && !IsTel(href)
    requires HasHttpScheme(OrElse(absUrl, href))
    ensures ClassifyResourceType(c, href, absUrl) ==
              match ExtType(GetExt(c, OrElse(absUrl, href)))
              case Some(t) => t
              case None => "HTML"
  {
    HttpProto(OrElse(absUrl, href));
  }

  /** Only the scheme `html` gets the tag HTML from the scheme branch. */
  lemma SchemeTagHtml(raw: string)
    ensures SchemeTag(Lower(raw)) == "HTML" <==> Lower(raw) == "html"
  {
    var p := Lower(raw);
    if SchemeTag(p) == "HTML" {
      assert Upper(p) == "HTML";
      assert |p| == 4;
      assert forall i :: 0 <= i < 4 ==> UpperChar(p[i]) == "HTML"[i] && p[i] == LowerChar(raw[i]);
      assert p == "html";
    }
    if p == "html" {
      assert Upper(p) == "HTML";
    }
  }

  /**
   * HTML exactly when the raw href is not `mailto:`/`tel:` and either the
   * target is http(s) with no known extension, or its scheme is literally
   * `html` (upper-cased to the same tag).
   */
  lemma ClassifyHtmlIff(c: Codec, href: string, absUrl: string)
    ensures ClassifyResourceType(c, href, absUrl) == "HTML" <==>
              !IsMail(href) && !IsTel(href) &&
              var target := OrElse(absUrl, href);
              (Proto(target) == "html"
               || (HasHttpScheme(target) && ExtType(GetExt(c, target)).None?))
  {
    var target := OrElse(absUrl, href);
    var p := Proto(target);
    if HasHttpScheme(target) { HttpProto(target); }
    SchemeTagHtml(BeforeFirst(target, ':'));
  }

  /** `mailto:` links are MAIL even though they have no extension. */
  lemma MailExample(c: Codec)
    ensures ClassifyResourceType(c, "mailto:a@b.com", "mailto:a@b.com") == "MAIL"
  {
    assert Lower("mailto:a@b.com")[..7] == "mailto:";
  }

  /** The extension test is case-insensitive: an http(s) URL whose path ends
      in `.PDF` is a PDF. */
  lemma PdfByPath(c: Codec, href: string, absUrl: string, u: Url, q: string)
    requires !IsMail(href) && !IsTel(href)
    requires HasHttpScheme(OrElse(absUrl, href))
    requires c.parse(OrElse(absUrl, href)) == Some(u) && u.path == q + ".PDF"
    ensures ClassifyResourceType(c, href, absUrl) == "PDF"
  {
    PathExtOf(q, "PDF");
    assert q + "." + "PDF" == q + ".PDF";
    assert Lower("PDF") == "pdf";
    assert ExtType("pdf") == Some("PDF");
    ClassifyHttp(c, href, absUrl);
  }
}
