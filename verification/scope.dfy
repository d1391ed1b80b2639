/**
 * Scope: whether a URL belongs to the crawled site. `inScope` gates
 * recursion; `classifyScope` labels reference rows INTERN/EXTERN/OTHER. Both
 * compare the URL with the start URL under the same policy.
 */
module Scope {
  import opened Wrappers
  import opened Text
  import opened Url

  /** The two scope switches of the configuration. */
  datatype Policy = Policy(sameOriginOnly: bool, includeSubdomains: bool)

  /** The INTERN / EXTERN / OTHER labels of a reference row. */
  datatype ScopeClass = Intern | Extern | OtherScope

  /** The host rule: origin equality when `sameOriginOnly`; otherwise equal
      hostnames, or with `includeSubdomains` also a `.`-suffix of the start
      hostname. */
  predicate SameSite(policy: Policy, u: Url, start: Url) {
    if policy.sameOriginOnly then OriginOf(u) == OriginOf(start)
    else if policy.includeSubdomains then
      u.host == start.host || EndsWith(u.host, "." + start.host)
    else u.host == start.host
  }

  /** `inScope(urlStr, start, policy)`: false when either URL fails to parse. */
  predicate InScope(c: Codec, policy: Policy, urlStr: string, start: string) {
    match (c.parse(urlStr), c.parse(start))
    case (Some(u), Some(s)) => SameSite(policy, u, s)
    case _ => false
  }

  /**
   * `classifyScope(absUrl, startUrl)`: OTHER exactly when one of the two
   * fails to parse, and INTERN exactly when `inScope` holds.
   */
  function ClassifyScope(c: Codec, policy: Policy, absUrl: string, start: string): (r: ScopeClass)
    ensures r == Intern <==> InScope(c, policy, absUrl, start)
    ensures r == OtherScope <==> c.parse(absUrl).None? || c.parse(start).None?
  {
    match (c.parse(absUrl), c.parse(start))
    case (Some(u), Some(s)) => if SameSite(policy, u, s) then Intern else Extern
    case _ => OtherScope
  }

  /** Under `sameOriginOnly`, a link to another port of the start host is EXTERN. */
  lemma OtherPortIsExtern(c: Codec, absUrl: string, start: string, u: Url, s: Url)
    requires c.parse(absUrl) == Some(u) && c.parse(start) == Some(s)
    requires IsHttpScheme(u.scheme) && u.scheme == s.scheme && u.host == s.host && u.port != s.port
    ensures ClassifyScope(c, Policy(true, false), absUrl, start) == Extern
  {
  }

  /** With subdomains included, a host is in scope exactly when it is the start
      host or ends with `.` followed by it; the start host's own subdomains are
      never in scope under plain hostname equality. */
  lemma SubdomainRule(c: Codec, urlStr: string, start: string, u: Url, s: Url, sub: string)
    requires c.parse(urlStr) == Some(u) && c.parse(start) == Some(s)
    requires u.host == sub + "." + s.host
    ensures InScope(c, Policy(false, true), urlStr, start)
    ensures !InScope(c, Policy(false, false), urlStr, start)
  {
    assert u.host[|u.host| - |"." + s.host|..] == "." + s.host;
  }

  /** Normalising a URL keeps it in scope: `normUrl` changes neither scheme,
      host nor port. */
  lemma NormKeepsScope(c: Codec, policy: Policy, ignore: seq<string>, s: string, start: string)
    requires ValidCodec(c)
    requires InScope(c, policy, s, start)
    ensures InScope(c, policy, NormUrl(c, ignore, s), start)
  {
    var u := c.parse(s).value;
    NormParsed(c, ignore, s, u);
  }
}
