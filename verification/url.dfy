/**
 * URLs as the crawler sees them: a parsed URL record, the foreign WHATWG
 * parser, resolver and serialiser (`new URL(s)`, `new URL(href, base)`,
 * `.href`) as the three functions of a `Codec`, and the normaliser `normUrl`
 * that produces the keys of the visited set and of every per-page dedup.
 */
module Url {
  import opened Wrappers
  import opened Text
  import Seqs

  /** One `name=value` pair of `url.searchParams`. */
  datatype Param = Param(name: string, value: string)

  /** The parts of a parsed URL the crawler reads: `protocol` (without the
      colon), `hostname`, `port`, `pathname`, the search parameters in order,
      and the fragment (`None` is the empty `hash`). */
  datatype Url = Url(scheme: string, host: string, port: string, path: string,
                     query: seq<Param>, fragment: Option<string>)

  /** `url.origin` for the URLs the crawlers compare: a (scheme, host, port)
      tuple for the special schemes with a host, the opaque origin (serialised
      as "null") for the others. A `blob:` URL, whose real origin is that of
      the URL inside it, also gets the opaque origin here; every scope test
      is reached only for `http:`/`https:` URLs, so only a `blob:` start URL
      could tell the difference. */
  datatype Origin = TupleOrigin(scheme: string, host: string, port: string) | OpaqueOrigin

  function OriginOf(u: Url): Origin {
    if u.scheme in ["http", "https", "ws", "wss", "ftp"] then TupleOrigin(u.scheme, u.host, u.port)
    else OpaqueOrigin
  }

  predicate IsHttpScheme(scheme: string) {
    scheme == "http" || scheme == "https"
  }

  /**
   * The foreign URL machinery: `parse(s)` is `new URL(s)` (`None` when it
   * throws), `resolve(h, b)` is `new URL(h, b)`, `href(u)` is `u.href`.
   */
  datatype Codec = Codec(parse: string -> Option<Url>,
                         resolve: (string, string) -> Option<Url>,
                         href: Url -> string)

  function DropFragment(o: Option<Url>): Option<Url> {
    match o
    case None => None
    case Some(u) => Some(u.(fragment := None))
  }

  /** The input with any `#...` suffix cut off. */
  function Unfragmented(s: string): string {
    BeforeFirst(s, '#')
  }

  /** What the serialiser promises for a record the parser or resolver
      produced: reparsing its `href` gives the record back, and the `href`
      starts with `http:`/`https:` (then followed by `//`) exactly for the
      http(s) schemes. */
  ghost predicate RoundTrips(c: Codec, u: Url) {
    && c.parse(c.href(u)) == Some(u)
    && (HasHttpScheme(c.href(u)) <==> IsHttpScheme(u.scheme))
    && (HasHttpSlashes(c.href(u)) <==> IsHttpScheme(u.scheme))
  }

  /**
   * The properties of the WHATWG parser and serialiser the model relies on:
   * the empty string does not parse; `href` is never empty; every record
   * `new URL(h, b)` returns round-trips, and so does every record `new URL(s)`
   * returns once its fragment and any set of its parameters are removed
   * (what `normUrl` serialises). Records no parser call produces (an
   * upper-case host, an http URL without a host) are not constrained.
   */
  ghost predicate ValidCodec(c: Codec) {
    && c.parse("") == None
    && (forall u :: c.href(u) != "")
    && (forall s, ignore :: c.parse(s).Some? ==> RoundTrips(c, Strip(c.parse(s).value, ignore)))
    && (forall h, b :: c.resolve(h, b).Some? ==> RoundTrips(c, c.resolve(h, b).value))
  }

  /** The text before the first `#` does not end in a C0 control or a space
      (or there is no `#`). The parser strips such characters only at the two
      ends of its whole input, so one just before the `#` survives in the
      parsed record but not in the cut text: `https://a.test/a #x` has path
      `/a%20`, `https://a.test/a ` has path `/a`. */
  predicate CleanCut(s: string) {
    var b := Unfragmented(s);
    |b| == |s| || (b != "" && b[|b| - 1] > ' ')
  }

  /**
   * The parser's treatment of `#`: for input whose text before the first `#`
   * is a clean cut, everything from the `#` on affects only the fragment of
   * the result (or nothing, when parsing fails).
   */
  ghost predicate CutsFragments(c: Codec) {
    forall s {:trigger Unfragmented(s)} :: CleanCut(s) ==>
      DropFragment(c.parse(s)) == DropFragment(c.parse(Unfragmented(s)))
  }

  /** `toAbs(href, base)`: the resolved absolute URL, or "" when resolution fails. */
  function ToAbs(c: Codec, href: string, base: string): string {
    match c.resolve(href, base)
    case Some(u) => c.href(u)
    case None => ""
  }

  /** `toAbs` returns "" exactly when resolution fails, and otherwise a string
      that parses back to the resolved URL. */
  lemma ToAbsSpec(c: Codec, href: string, base: string)
    requires ValidCodec(c)
    ensures ToAbs(c, href, base) == "" <==> c.resolve(href, base).None?
    ensures c.resolve(href, base).Some? ==>
              c.parse(ToAbs(c, href, base)) == c.resolve(href, base)
  {
  }

  /** Whether a query parameter name, lower-cased, starts with one of the
      lower-cased ignore prefixes. */
  predicate IsIgnored(ignore: seq<string>, name: string) {
    exists i :: 0 <= i < |ignore| && StartsWith(Lower(name), Lower(ignore[i]))
  }

  predicate Keep(ignore: seq<string>, p: Param) {
    !IsIgnored(ignore, p.name)
  }

  /** `url.hash = ''` followed by deleting every ignored parameter. */
  function Strip(u: Url, ignore: seq<string>): Url {
    u.(fragment := None, query := Seqs.Filter(u.query, p => Keep(ignore, p)))
  }

  /**
   * `normUrl(s, ignore)`: "" for "", the serialisation of the stripped record
   * when `s` parses, and otherwise `s` cut at its first `#`.
   */
  function NormUrl(c: Codec, ignore: seq<string>, s: string): (r: string)
    ensures s == "" ==> r == ""
    ensures s != "" && c.parse(s).None? ==>
              '#' !in r && StartsWith(s, r) && (|r| == |s| || s[|r|] == '#')
  {
    if s == "" then ""
    else match c.parse(s)
      case Some(u) => c.href(Strip(u, ignore))
      case None => BeforeFirst(s, '#')
  }

  /**
   * For parseable input the normalised URL parses to the same URL with no
   * fragment, whose parameters are exactly the non-ignored ones, in their
   * original relative order.
   */
  lemma NormParsed(c: Codec, ignore: seq<string>, s: string, u: Url)
    requires ValidCodec(c)
    requires s != "" && c.parse(s) == Some(u)
    ensures NormUrl(c, ignore, s) != ""
    ensures c.parse(NormUrl(c, ignore, s)).Some?
    ensures var v := c.parse(NormUrl(c, ignore, s)).value;
            && v.fragment.None?
            && v.scheme == u.scheme && v.host == u.host && v.port == u.port && v.path == u.path
            && v.query == Seqs.Filter(u.query, p => Keep(ignore, p))
            && (forall q :: q in v.query <==> q in u.query && !IsIgnored(ignore, q.name))
  {
    assert RoundTrips(c, Strip(u, ignore));
  }

  lemma StripIdempotent(u: Url, ignore: seq<string>)
    ensures Strip(Strip(u, ignore), ignore) == Strip(u, ignore)
  {
    Seqs.FilterAll(Strip(u, ignore).query, p => Keep(ignore, p));
  }

  /**
   * Normalising twice. Parseable input gives its own key back. Unparseable
   * input was only cut at its first `#`, and the cut text is normalised
   * afresh: it may parse (`https://a.test #x` is cut to `https://a.test `,
   * which normalises to `https://a.test/`). It is its own key whenever the
   * cut is clean.
   */
  lemma NormIdempotent(c: Codec, ignore: seq<string>, s: string)
    requires ValidCodec(c)
    ensures c.parse(s).Some? ==> NormUrl(c, ignore, NormUrl(c, ignore, s)) == NormUrl(c, ignore, s)
    ensures c.parse(s).None? ==>
              NormUrl(c, ignore, NormUrl(c, ignore, s)) == NormUrl(c, ignore, Unfragmented(s))
    ensures CutsFragments(c) && CleanCut(s) ==>
              NormUrl(c, ignore, NormUrl(c, ignore, s)) == NormUrl(c, ignore, s)
  {
    var r := NormUrl(c, ignore, s);
    if s == "" {
      assert Unfragmented(s) == "" by { BeforeFirstUnique(s, '#', 0); }
    } else {
      match c.parse(s)
      case Some(u) =>
        assert RoundTrips(c, Strip(u, ignore));
        StripIdempotent(u, ignore);
      case None =>
        assert Unfragmented(s) == r;
        if CutsFragments(c) && CleanCut(s) && r != "" {
          assert DropFragment(c.parse(s)) == DropFragment(c.parse(Unfragmented(s)));
          assert Unfragmented(r) == r by { BeforeFirstUnique(r, '#', |r|); }
        }
    }
  }

  /** Everything from the first `#` on is irrelevant to `normUrl` when the
      cut is clean. */
  lemma NormUnfragmented(c: Codec, ignore: seq<string>, s: string)
    requires ValidCodec(c) && CutsFragments(c)
    ensures CleanCut(s) ==> NormUrl(c, ignore, s) == NormUrl(c, ignore, Unfragmented(s))
  {
    var b := Unfragmented(s);
    if CleanCut(s) {
      assert DropFragment(c.parse(s)) == DropFragment(c.parse(b));
      if s != "" {
        match c.parse(s)
        case Some(u) =>
          var w := c.parse(b).value;
          assert u.(fragment := None) == w.(fragment := None);
          assert Strip(u, ignore) == Strip(u.(fragment := None), ignore);
          assert Strip(w, ignore) == Strip(w.(fragment := None), ignore);
        case None =>
          if b != "" {
            assert Unfragmented(b) == b by { BeforeFirstUnique(b, '#', |b|); }
          }
      }
    }
  }

  /** `normUrl(u + '#' + x) == normUrl(u)` when the text before the first
      `#` is a clean cut. */
  lemma NormIgnoresFragment(c: Codec, ignore: seq<string>, s: string, x: string)
    requires ValidCodec(c) && CutsFragments(c)
    ensures CleanCut(s + "#" + x) ==> NormUrl(c, ignore, s + "#" + x) == NormUrl(c, ignore, s)
  {
    var t := s + "#" + x;
    var b := Unfragmented(s);
    assert t == s + ['#'] + x;
    if '#' in s {
      assert t[..|b|] == b;
      assert t[|b|] == s[|b|];
      BeforeFirstUnique(t, '#', |b|);
    } else {
      BeforeFirstOfJoin(s, '#', x);
      BeforeFirstUnique(s, '#', |s|);
    }
    assert Unfragmented(t) == b;
    if CleanCut(t) {
      assert CleanCut(s);
      NormUnfragmented(c, ignore, t);
      NormUnfragmented(c, ignore, s);
    }
  }

  /** Adding an ignored parameter anywhere in the query does not change the
      normalised URL (e.g. `?utm_source=x&id=1` and `?id=1` with prefix `utm_`). */
  lemma NormIgnoresIgnoredParam(c: Codec, ignore: seq<string>, s1: string, s2: string,
                                u: Url, a: seq<Param>, b: seq<Param>, p: Param)
    requires s1 != "" && s2 != ""
    requires c.parse(s1) == Some(u.(query := a + b))
    requires c.parse(s2) == Some(u.(query := a + [p] + b))
    requires IsIgnored(ignore, p.name)
    ensures NormUrl(c, ignore, s1) == NormUrl(c, ignore, s2)
  {
    Seqs.FilterSkips(a, b, p, q => Keep(ignore, q));
    assert Strip(u.(query := a + b), ignore) == Strip(u.(query := a + [p] + b), ignore);
  }
}
