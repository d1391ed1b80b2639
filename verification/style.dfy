/**
 * `urlsFromStyle`: the references of an inline `style` attribute, found by
 * the global regular expression `url\(\s*(['"]?)(.*?)\1\s*\)`. The matcher is
 * written out as the backtracking search visits it: leading whitespace, then
 * the quoted alternative before the unquoted one, then the shortest content
 * (never crossing a line terminator) after which the same quote, optional
 * whitespace and `)` follow. Each content is trimmed; empty ones are dropped.
 */
module Style {
  import opened Wrappers
  import opened Text

  /** The end of the whitespace run that starts at `i`. */
  function SkipSpace(s: string, i: nat): (k: nat)
    requires i <= |s|
    ensures i <= k <= |s|
    ensures forall m :: i <= m < k ==> IsSpace(s[m])
    ensures k < |s| ==> !IsSpace(s[k])
    decreases |s| - i
  {
    if i < |s| && IsSpace(s[i]) then SkipSpace(s, i + 1) else i
  }

  /** `\1\s*\)` at `j`, with `q` the captured quote (possibly empty): the
      position just after the `)`. Backtracking into `\s*` cannot help, since
      `)` is not whitespace. */
  function CloseAt(s: string, j: nat, q: string): (r: Option<nat>)
    requires j <= |s|
    ensures r.Some? ==> j + |q| < r.value <= |s| && s[r.value - 1] == ')'
    ensures r.Some? ==> s[j..j + |q|] == q
    ensures r.Some? ==> forall m :: j + |q| <= m < r.value - 1 ==> IsSpace(s[m])
  {
    if j + |q| <= |s| && s[j..j + |q|] == q then
      var k := SkipSpace(s, j + |q|);
      if k < |s| && s[k] == ')' then Some(k + 1) else None
    else None
  }

  /** No line terminator in `s[i..j]`: the range `.` can span. */
  predicate NoLineBreak(s: string, i: nat, j: nat)
    requires i <= j <= |s|
  {
    forall m :: i <= m < j ==> !IsLineTerminator(s[m])
  }

  /**
   * The lazy `(.*?)` starting at `j`: the first content end `m` from which
   * the closing part matches, or `None` when a line terminator or the end of
   * the text comes first.
   */
  function LazyClose(s: string, j: nat, q: string): (r: Option<(nat, nat)>)
    requires j <= |s|
    ensures r.Some? ==> j <= r.value.0 <= |s| && NoLineBreak(s, j, r.value.0)
                        && CloseAt(s, r.value.0, q) == Some(r.value.1)
    ensures r.Some? ==> forall m :: j <= m < r.value.0 ==> CloseAt(s, m, q).None?
    ensures r.None? ==> forall m :: j <= m <= |s| && NoLineBreak(s, j, m) ==> CloseAt(s, m, q).None?
    decreases |s| - j
  {
    match CloseAt(s, j, q)
    case Some(e) => Some((j, e))
    case None =>
      if j < |s| && !IsLineTerminator(s[j]) then LazyClose(s, j + 1, q) else None
  }

  /** One match of the expression: content `s[contentStart..contentEnd]`,
      the match ending just before `end`. */
  datatype UrlMatch = UrlMatch(contentStart: nat, contentEnd: nat, end: nat)

  /** The match of the expression that starts exactly at `p`, if any. */
  function MatchAt(s: string, p: nat): (r: Option<UrlMatch>)
    requires p <= |s|
    ensures r.Some? ==> p + 4 <= |s| && s[p..p + 4] == "url("
    ensures r.Some? ==> p + 4 <= r.value.contentStart <= r.value.contentEnd < r.value.end <= |s|
    ensures r.Some? ==> s[r.value.end - 1] == ')'
    ensures r.Some? ==> NoLineBreak(s, r.value.contentStart, r.value.contentEnd)
  {
    if p + 4 <= |s| && s[p..p + 4] == "url(" then AfterOpen(s, SkipSpace(s, p + 4)) else None
  }

  /** The rest of the expression after `url(` and the whitespace ending at
      `a`: the quoted alternative first, then the unquoted one. */
  function AfterOpen(s: string, a: nat): (r: Option<UrlMatch>)
    requires a <= |s|
    ensures r.Some? ==> a <= r.value.contentStart <= r.value.contentEnd < r.value.end <= |s|
    ensures r.Some? ==> s[r.value.end - 1] == ')'
    ensures r.Some? ==> NoLineBreak(s, r.value.contentStart, r.value.contentEnd)
  {
    match QuotedClose(s, a)
    case Some((j, e)) => Some(UrlMatch(a + 1, j, e))
    case None =>
      match LazyClose(s, a, "")
      case Some((j, e)) => Some(UrlMatch(a, j, e))
      case None => None
  }

  /** The quoted alternative: a quote at `a`, then the lazy content up to the
      same quote. */
  function QuotedClose(s: string, a: nat): (r: Option<(nat, nat)>)
    requires a <= |s|
    ensures r.Some? ==> a < |s| && (s[a] == '"' || s[a] == '\'') && r == LazyClose(s, a + 1, [s[a]])
  {
    if a < |s| && (s[a] == '"' || s[a] == '\'') then LazyClose(s, a + 1, [s[a]]) else None
  }

  /** A reference as pushed: non-empty, no whitespace at either end. */
  predicate Clean(x: string) {
    x != "" && Trimmed(x)
  }

  /** The `re.exec` loop from `p` on: try each position in turn, resume after
      each match, keep the non-empty trimmed contents. */
  function UrlsFrom(s: string, p: nat): (r: seq<string>)
    requires p <= |s|
    ensures forall k :: 0 <= k < |r| ==> Clean(r[k])
    decreases |s| - p
  {
    if p == |s| then []
    else match MatchAt(s, p)
      case Some(m) =>
        Keep(Trim(s[m.contentStart..m.contentEnd]), UrlsFrom(s, m.end))
      case None => UrlsFrom(s, p + 1)
  }

  /** Push a trimmed content in front of the later references unless it is
      empty. */
  function Keep(raw: string, rest: seq<string>): (r: seq<string>)
    requires Trimmed(raw) && forall k :: 0 <= k < |rest| ==> Clean(rest[k])
    ensures forall k :: 0 <= k < |r| ==> Clean(r[k])
  {
    if raw != "" then [raw] + rest else rest
  }

  /** `urlsFromStyle(styleValue)`: every reference is non-empty and has no
      surrounding whitespace. */
  function UrlsFromStyle(style: string): (r: seq<string>)
    ensures forall k :: 0 <= k < |r| ==> Clean(r[k])
  {
    if style == "" then [] else UrlsFrom(style, 0)
  }

  /** The ensures of `SkipSpace` determine it. */
  lemma {:induction false} SkipSpaceUnique(s: string, i: nat, k: nat)
    requires i <= k <= |s|
    requires forall m :: i <= m < k ==> IsSpace(s[m])
    requires k < |s| ==> !IsSpace(s[k])
    ensures SkipSpace(s, i) == k
    decreases k - i
  {
    if i < k {
      SkipSpaceUnique(s, i + 1, k);
    }
  }

  /** The lazy search stops at the first closing position. */
  lemma LazyCloseFirst(s: string, j: nat, q: string, j0: nat, e: nat)
    requires j <= j0 <= |s| && NoLineBreak(s, j, j0)
    requires CloseAt(s, j0, q) == Some(e)
    requires forall m :: j <= m < j0 ==> CloseAt(s, m, q).None?
    ensures LazyClose(s, j, q) == Some((j0, e))
  {
  }

  /** A text that is one match from its start to its end yields that
      match's trimmed content, if non-empty. */
  lemma WholeMatch(s: string, m: UrlMatch, raw: string)
    requires s != [] && MatchAt(s, 0) == Some(m) && m.end == |s|
    requires m.contentStart <= m.contentEnd <= |s| && Trim(s[m.contentStart..m.contentEnd]) == raw
    ensures UrlsFromStyle(s) == if raw == "" then [] else [raw]
  {
    assert UrlsFrom(s, |s|) == [];
  }

  lemma {:induction false} ContainsAt(s: string, p: nat, t: string)
    requires p + |t| <= |s| && s[p..p + |t|] == t
    ensures Contains(s, t)
    decreases p
  {
    if p > 0 {
      assert s[1..][p - 1..p - 1 + |t|] == t;
      ContainsAt(s[1..], p - 1, t);
    }
  }

  /** Without the text `url(` there are no style references. */
  lemma {:induction false} NoUrlNoRefs(s: string, p: nat)
    requires p <= |s|
    requires !Contains(s, "url(")
    ensures UrlsFrom(s, p) == []
    decreases |s| - p
  {
    if p < |s| {
      if MatchAt(s, p).Some? {
        ContainsAt(s, p, "url(");
      } else {
        NoUrlNoRefs(s, p + 1);
      }
    }
  }

  /** `url("x")` yields `x`, trimmed, whatever else `x` holds (spaces,
      parentheses, the other quote): the quoted alternative is tried first. */
  lemma QuotedUrl(x: string)
    requires '"' !in x
    requires forall i :: 0 <= i < |x| ==> !IsLineTerminator(x[i])
    ensures UrlsFromStyle("url(\"" + x + "\")") ==
              (if Trim(x) == "" then [] else [Trim(x)])
  {
    var s := "url(\"" + x + "\")";
    var j0 := 5 + |x|;
    assert s[..4] == "url(";
    assert s[5..j0] == x;
    forall m | 5 <= m < j0 ensures s[m] == x[m - 5] { }
    SkipSpaceUnique(s, 4, 4);
    assert s[j0..j0 + 1] == "\"";
    SkipSpaceUnique(s, j0 + 1, j0 + 1);
    assert CloseAt(s, j0, "\"") == Some(j0 + 2);
    forall m | 5 <= m < j0 ensures CloseAt(s, m, "\"").None? {
      assert x[m - 5] in x;
      assert s[m..m + 1][0] == s[m];
    }
    LazyCloseFirst(s, 5, "\"", j0, j0 + 2);
    MatchQuoted(s, 0, 4, j0, |s|);
    WholeMatch(s, UrlMatch(5, j0, |s|), Trim(x));
  }

  /** `url(x)` without quotes yields `x` trimmed when `x` holds no quote,
      no `)` and no line break. */
  lemma PlainUrl(x: string)
    requires '"' !in x && '\'' !in x && ')' !in x
    requires forall i :: 0 <= i < |x| ==> !IsLineTerminator(x[i])
    ensures UrlsFromStyle("url(" + x + ")") == (if Trim(x) == "" then [] else [Trim(x)])
  {
    var m := PlainMatch(x);
    TrimIdempotent(x);
    WholeMatch("url(" + x + ")", m, Trim(x));
  }

  /** The single match of `url(x)`: its content is `x` without surrounding
      whitespace. */
  lemma PlainMatch(x: string) returns (m: UrlMatch)
    requires '"' !in x && '\'' !in x && ')' !in x
    requires forall i :: 0 <= i < |x| ==> !IsLineTerminator(x[i])
    ensures var s := "url(" + x + ")";
            && MatchAt(s, 0) == Some(m) && m.end == |s|
            && m.contentStart <= m.contentEnd <= |s|
            && s[m.contentStart..m.contentEnd] == Trim(x)
  {
    var s := "url(" + x + ")";
    var i, n := TrimSpan(x);
    m := UrlMatch(4 + i, 4 + n, |s|);
    WrapsUrl(x);
    assert TrimBounds(x, i, n);
    PlainMatchSpan(s, x, i, n);
    InnerSlice(x, i, n - i);
  }

  /** The match of `url(x)` given where the whitespace around `x` ends. */
  lemma PlainMatchSpan(s: string, x: string, i: nat, n: nat)
    requires Wraps(s, x) && PlainText(x) && TrimBounds(x, i, n)
    ensures MatchAt(s, 0) == Some(UrlMatch(4 + i, 4 + n, |s|))
  {
    PlainStart(s, x, i, n);
    PlainClose(s, x, i, n);
    MatchUnquoted(s, 0, 4 + i, 4 + n, |s|);
  }

  lemma InnerSlice(x: string, i: nat, n: nat)
    requires i + n <= |x|
    ensures ("url(" + x + ")")[4 + i..4 + i + n] == x[i..i + n]
  {
  }

  /** The leading whitespace of `url(x)` ends where `x` stops being
      whitespace, at a character that is not a quote. */
  lemma PlainStart(s: string, x: string, lead: nat, n: nat)
    requires Wraps(s, x) && PlainText(x) && TrimBounds(x, lead, n)
    ensures SkipSpace(s, 4) == 4 + lead && s[4 + lead] != '"' && s[4 + lead] != '\''
  {
    forall k | 4 <= k < 4 + lead ensures IsSpace(s[k]) {
      assert s[k] == x[k - 4];
    }
    if lead < |x| {
      assert s[4 + lead] == x[lead] && x[lead] in x;
    }
    SkipSpaceUnique(s, 4, 4 + lead);
  }

  /** A reference `x` the unquoted alternative reads whole: no quote, no
      `)`, no line break. */
  predicate PlainText(x: string) {
    '"' !in x && '\'' !in x && ')' !in x && forall k :: 0 <= k < |x| ==> !IsLineTerminator(x[k])
  }

  /** `x[i..n]` is `x` without its surrounding whitespace. */
  predicate TrimBounds(x: string, i: nat, n: nat) {
    && i <= n <= |x|
    && (forall k :: 0 <= k < i ==> IsSpace(x[k]))
    && (forall k :: n <= k < |x| ==> IsSpace(x[k]))
    && (i < |x| ==> !IsSpace(x[i]))
    && (i < n ==> !IsSpace(x[n - 1]))
  }

  /** `s` is `x` wrapped as `url(x)`, as far as the closing search needs. */
  predicate Wraps(s: string, x: string) {
    && |s| == |x| + 5 && s[0..4] == "url(" && s[|s| - 1] == ')'
    && forall k :: 0 <= k < |x| ==> s[k + 4] == x[k]
  }

  lemma WrapsUrl(x: string)
    ensures Wraps("url(" + x + ")", x)
  {
  }

  /** The closing search of `url(x)` from `x[i]` on: the content ends at
      `x[n]`, after the last non-space character before the final `)`. */
  lemma PlainClose(s: string, x: string, i: nat, n: nat)
    requires Wraps(s, x) && PlainText(x) && TrimBounds(x, i, n)
    ensures LazyClose(s, 4 + i, "") == Some((4 + n, |s|))
  {
    PlainCloseAtEnd(s, x, n);
    forall m | 4 + i <= m < 4 + n ensures CloseAt(s, m, "").None? {
      PlainNoCloseBefore(s, x, n, m);
    }
    forall m | 4 + i <= m < 4 + n ensures !IsLineTerminator(s[m]) {
      assert s[m] == x[m - 4];
    }
    LazyCloseFirst(s, 4 + i, "", 4 + n, |s|);
  }

  /** In `url(x)`, the closing part matches right after `x[..n]` when only
      whitespace follows it in `x`. */
  lemma PlainCloseAtEnd(s: string, x: string, n: nat)
    requires Wraps(s, x)
    requires n <= |x| && forall k :: n <= k < |x| ==> IsSpace(x[k])
    ensures CloseAt(s, 4 + n, "") == Some(|s|)
  {
    forall k | 4 + n <= k < |s| - 1 ensures IsSpace(s[k]) {
      assert s[k] == x[k - 4];
    }
    SkipSpaceUnique(s, 4 + n, |s| - 1);
  }

  /** In `url(x)`, the closing part cannot match inside `x` before its last
      non-space character, since `x` holds no `)`. */
  lemma PlainNoCloseBefore(s: string, x: string, n: nat, m: nat)
    requires Wraps(s, x)
    requires ')' !in x && 0 < n <= |x| && !IsSpace(x[n - 1])
    requires 4 <= m < 4 + n
    ensures CloseAt(s, m, "").None?
  {
    var k := SkipSpace(s, m);
    assert s[3 + n] == x[n - 1];
    assert k <= 3 + n;
    assert s[k] == x[k - 4];
    assert x[k - 4] in x;
  }

  /** How `MatchAt` takes the unquoted alternative. */
  lemma MatchUnquoted(s: string, p: nat, a: nat, j: nat, e: nat)
    requires p + 4 <= |s| && s[p..p + 4] == "url("
    requires SkipSpace(s, p + 4) == a
    requires a < |s| ==> s[a] != '"' && s[a] != '\''
    requires LazyClose(s, a, "") == Some((j, e))
    ensures MatchAt(s, p) == Some(UrlMatch(a, j, e))
  {
  }

  /** How `MatchAt` takes the quoted alternative. */
  lemma MatchQuoted(s: string, p: nat, a: nat, j: nat, e: nat)
    requires p + 4 <= |s| && s[p..p + 4] == "url("
    requires SkipSpace(s, p + 4) == a && a < |s| && (s[a] == '"' || s[a] == '\'')
    requires LazyClose(s, a + 1, [s[a]]) == Some((j, e))
    ensures MatchAt(s, p) == Some(UrlMatch(a + 1, j, e))
  {
  }
}
