/**
 * Step 4 of the header crawler's page parser: every URL source inside the
 * header element becomes a raw row `{ text, raw, url }`. Per element, in
 * document order: the attributes `href`, `src`, `poster`, `data`; then the
 * candidates of `srcset`; then the `url(...)` references of `style`. A value
 * whose resolution against the page URL fails is dropped.
 */
module HeaderRows {
  import opened Wrappers
  import opened Text
  import opened Url
  import opened Dom
  import Style
  import Seqs

  /** One collected reference: its label, the attribute text, and the absolute URL. */
  datatype RawRow = RawRow(text: string, raw: string, url: string)

  /** The attributes read as URLs, in reading order. */
  const UrlAttrs: seq<string> := ["href", "src", "poster", "data"]

  /** The label `[tag@source]` of a row without link text. */
  function Placeholder(tag: string, source: string): string {
    "[" + tag + "@" + source + "]"
  }

  /** A row's raw value is non-empty and resolves against `base` to its
      (non-empty) URL. */
  predicate Resolved(c: Codec, base: string, row: RawRow) {
    row.raw != "" && row.url != "" && row.url == ToAbs(c, row.raw, base)
  }

  /**
   * The label of a row read from attribute `attr`: for an anchor with text,
   * that text trimmed with every whitespace run made one space (so it keeps
   * all the non-whitespace characters, has no whitespace at either end and no
   * two spaces in a row); otherwise the `[tag@attr]` placeholder.
   */
  function Label(d: Document, k: nat, attr: string): (r: string)
    ensures TagOf(d, k) == "a" && HasText(TextOf(d, k)) ==> Tidied(r, TextOf(d, k)) && r == Tidy(TextOf(d, k))
    ensures !(TagOf(d, k) == "a" && HasText(TextOf(d, k))) ==> r == Placeholder(TagOf(d, k), attr)
  {
    var tag := TagOf(d, k);
    if tag == "a" then OrElse(Tidy(TextOf(d, k)), Placeholder(tag, attr))
    else Placeholder(tag, attr)
  }

  /** The row of one URL attribute, when it is set and resolves. */
  function AttrRow(c: Codec, d: Document, base: string, k: nat, attr: string): Option<RawRow> {
    var v := AttrOr(d, k, attr);
    if v != "" && ToAbs(c, v, base) != "" then Some(RawRow(Label(d, k, attr), v, ToAbs(c, v, base)))
    else None
  }

  /** Attribute `a` of element `k` is set and resolves against `base`. */
  predicate AttrResolves(c: Codec, d: Document, base: string, k: nat, a: string) {
    HasValue(d, k, a) && ToAbs(c, AttrOr(d, k, a), base) != ""
  }

  /** The row attribute `a` of element `k` gives when it resolves. */
  function AttrRawRow(c: Codec, d: Document, base: string, k: nat, a: string): RawRow {
    RawRow(Label(d, k, a), AttrOr(d, k, a), ToAbs(c, AttrOr(d, k, a), base))
  }

  /**
   * The rows of the URL attributes of element `k`: one for every attribute
   * that is set and resolves, in the order `href`, `src`, `poster`, `data`,
   * each resolved and labelled for the attribute it came from.
   */
  function AttrRows(c: Codec, d: Document, base: string, k: nat): (r: seq<RawRow>)
    ensures |r| <= |UrlAttrs|
    ensures forall row :: row in r ==>
              Resolved(c, base, row)
              && exists a :: a in UrlAttrs && row.raw == AttrOr(d, k, a) && row.text == Label(d, k, a)
    ensures forall a :: a in UrlAttrs && HasValue(d, k, a) && ToAbs(c, AttrOr(d, k, a), base) != "" ==>
              RawRow(Label(d, k, a), AttrOr(d, k, a), ToAbs(c, AttrOr(d, k, a), base)) in r
  {
    var opts := Seqs.Map(UrlAttrs, a => AttrRow(c, d, base, k, a));
    assert forall a :: a in UrlAttrs ==> AttrRow(c, d, base, k, a) in opts by {
      forall a | a in UrlAttrs ensures AttrRow(c, d, base, k, a) in opts {
        Seqs.MapMember(UrlAttrs, a => AttrRow(c, d, base, k, a), AttrRow(c, d, base, k, a));
      }
    }
    assert forall o :: o in opts ==> exists a :: a in UrlAttrs && AttrRow(c, d, base, k, a) == o by {
      forall o | o in opts ensures exists a :: a in UrlAttrs && AttrRow(c, d, base, k, a) == o {
        Seqs.MapMember(UrlAttrs, a => AttrRow(c, d, base, k, a), o);
      }
    }
    Seqs.Somes(opts)
  }

  /** The rows of the references `us`, all labelled `text`: one per reference
      that resolves, in order. */
  function ResolveAll(c: Codec, base: string, text: string, us: seq<string>): (r: seq<RawRow>)
    ensures |r| <= |us|
    ensures forall row :: row in r ==>
              row.url != "" && row.url == ToAbs(c, row.raw, base) && row.text == text && row.raw in us
    ensures forall u :: u in us && ToAbs(c, u, base) != "" ==> RawRow(text, u, ToAbs(c, u, base)) in r
    decreases |us|
  {
    if us == [] then []
    else
      var rest := ResolveAll(c, base, text, us[1..]);
      assert forall u :: u in us ==> u == us[0] || u in us[1..];
      var abs := ToAbs(c, us[0], base);
      if abs != "" then [RawRow(text, us[0], abs)] + rest else rest
  }

  /** The URL of one `srcset` part: the trimmed part up to its first
      whitespace. */
  function CandidateUrl(part: string): string {
    FirstToken(Trim(part))
  }

  /** A candidate URL is a run of non-whitespace characters of its part. */
  lemma CandidateUrlIn(part: string)
    ensures ',' !in part ==> ',' !in CandidateUrl(part)
    ensures forall i :: 0 <= i < |CandidateUrl(part)| ==> !IsSpace(CandidateUrl(part)[i])
  {
    var i, n := TrimSpan(part);
    var t := Trim(part);
    var u := FirstToken(t);
    if ',' !in part {
      forall j | 0 <= j < |u| ensures u[j] != ',' {
        assert u[j] == t[j] == part[i + j];
        assert part[i + j] in part;
      }
    }
  }

  /** `srcset.split(',')`, each part reduced to its URL, the empty ones
      skipped. */
  function Candidates(parts: seq<string>): (r: seq<string>)
    ensures |r| <= |parts|
    decreases |parts|
  {
    if parts == [] then []
    else
      var u := CandidateUrl(parts[0]);
      (if u != "" then [u] else []) + Candidates(parts[1..])
  }

  /** The candidate URLs of a `srcset` value: non-empty, without whitespace
      and without commas. */
  function SrcsetUrls(srcset: string): (r: seq<string>)
    ensures forall u :: u in r ==> u != "" && ',' !in u && forall i :: 0 <= i < |u| ==> !IsSpace(u[i])
  {
    var parts := SplitOn(srcset, ',');
    CandidatesClean(parts);
    Candidates(parts)
  }

  lemma {:induction false} CandidatesClean(parts: seq<string>)
    requires forall i :: 0 <= i < |parts| ==> ',' !in parts[i]
    ensures forall u :: u in Candidates(parts) ==>
              u != "" && ',' !in u && forall i :: 0 <= i < |u| ==> !IsSpace(u[i])
    decreases |parts|
  {
    if parts != [] {
      CandidateUrlIn(parts[0]);
      CandidatesClean(parts[1..]);
    }
  }

  /** One `srcset` candidate as written: whitespace, the URL, and an optional
      descriptor that starts with whitespace (`" img.png 2x"`). */
  datatype Candidate = Candidate(lead: string, url: string, descriptor: string)

  predicate WellWritten(x: Candidate) {
    && x.url != ""
    && (forall i :: 0 <= i < |x.lead| ==> IsSpace(x.lead[i]))
    && (forall i :: 0 <= i < |x.url| ==> !IsSpace(x.url[i]))
    && ',' !in x.lead && ',' !in x.url && ',' !in x.descriptor
    && (x.descriptor == "" || IsSpace(x.descriptor[0]))
  }

  function Written(x: Candidate): string {
    x.lead + x.url + x.descriptor
  }

  function UrlOf(x: Candidate): string {
    x.url
  }

  /** Where the parts of a well-written candidate sit in its text. */
  lemma WrittenLayout(x: Candidate)
    requires WellWritten(x)
    ensures var s, l, u := Written(x), |x.lead|, |x.url|;
            && l + u <= |s| && s[l..l + u] == x.url
            && (forall k :: 0 <= k < l ==> IsSpace(s[k]))
            && (forall k :: l <= k < l + u ==> !IsSpace(s[k]))
            && (l + u < |s| ==> IsSpace(s[l + u]))
  {
    var s, l, u := Written(x), |x.lead|, |x.url|;
    assert s[l..l + u] == x.url;
    assert forall k :: l <= k < l + u ==> s[k] == x.url[k - l];
    assert forall k :: 0 <= k < l ==> s[k] == x.lead[k];
    if l + u < |s| {
      assert s[l + u] == x.descriptor[0];
    }
  }

  /** A slice that starts with a whitespace-free run ending at whitespace or
      at the slice's end has that run as its first token. */
  lemma TokenOfSlice(s: string, l: nat, n: nat, u: nat)
    requires l + u <= n <= |s|
    requires forall k :: l <= k < l + u ==> !IsSpace(s[k])
    requires l + u == n || IsSpace(s[l + u])
    ensures FirstToken(s[l..n]) == s[l..l + u]
  {
    var t := s[l..n];
    assert forall i :: 0 <= i < u ==> t[i] == s[l + i];
    assert u < |t| ==> t[u] == s[l + u];
    FirstTokenUnique(t, u);
    assert t[..u] == s[l..l + u];
  }

  /** The first token of the trimmed text is the first whitespace-free run. */
  lemma TokenAfterTrim(s: string, l: nat, u: nat)
    requires 0 < u && l + u <= |s|
    requires forall k :: 0 <= k < l ==> IsSpace(s[k])
    requires forall k :: l <= k < l + u ==> !IsSpace(s[k])
    requires l + u < |s| ==> IsSpace(s[l + u])
    ensures FirstToken(Trim(s)) == s[l..l + u]
  {
    var n := TrimFrom(s, l, l + u);
    TokenOfSlice(s, l, n, u);
  }

  /** The URL of a well-written candidate is read back. */
  lemma CandidateRoundTrip(x: Candidate)
    requires WellWritten(x)
    ensures CandidateUrl(Written(x)) == x.url
  {
    WrittenLayout(x);
    TokenAfterTrim(Written(x), |x.lead|, |x.url|);
  }

  lemma {:induction false} CandidatesOf(xs: seq<Candidate>)
    requires forall i :: 0 <= i < |xs| ==> WellWritten(xs[i])
    ensures Candidates(Seqs.Map(xs, Written)) == Seqs.Map(xs, UrlOf)
    decreases |xs|
  {
    if xs != [] {
      Seqs.MapTail(xs, Written);
      Seqs.MapTail(xs, UrlOf);
      CandidateRoundTrip(xs[0]);
      CandidatesOf(xs[1..]);
    }
  }

  /** A `srcset` written as comma-separated well-written candidates yields
      exactly their URLs, in order. */
  lemma SrcsetRoundTrip(xs: seq<Candidate>)
    requires |xs| >= 1
    requires forall i :: 0 <= i < |xs| ==> WellWritten(xs[i])
    ensures SrcsetUrls(Join(Seqs.Map(xs, Written), ',')) == Seqs.Map(xs, UrlOf)
  {
    var parts := Seqs.Map(xs, Written);
    assert forall i :: 0 <= i < |parts| ==> ',' !in parts[i] by {
      forall i | 0 <= i < |parts| ensures ',' !in parts[i] {
        assert parts[i] == xs[i].lead + xs[i].url + xs[i].descriptor;
      }
    }
    SplitJoin(parts, ',');
    CandidatesOf(xs);
  }

  /** The rows of the `srcset` attribute of element `k`: one for every
      candidate URL that resolves, and none when the attribute is unset. */
  function SrcsetRows(c: Codec, d: Document, base: string, k: nat): (r: seq<RawRow>)
    ensures forall row :: row in r ==>
              row.url != "" && row.url == ToAbs(c, row.raw, base)
              && row.text == Placeholder(TagOf(d, k), "srcset")
              && row.raw in SrcsetUrls(AttrOr(d, k, "srcset"))
    ensures HasValue(d, k, "srcset") ==>
              forall u :: u in SrcsetUrls(AttrOr(d, k, "srcset")) && ToAbs(c, u, base) != "" ==>
                RawRow(Placeholder(TagOf(d, k), "srcset"), u, ToAbs(c, u, base)) in r
    ensures !HasValue(d, k, "srcset") ==> r == []
  {
    if HasValue(d, k, "srcset")
    then ResolveAll(c, base, Placeholder(TagOf(d, k), "srcset"), SrcsetUrls(AttrOr(d, k, "srcset")))
    else []
  }

  /** The rows of the `url(...)` references in the `style` attribute of
      element `k`: one for every reference that resolves, and none when the
      attribute is unset. */
  function StyleRows(c: Codec, d: Document, base: string, k: nat): (r: seq<RawRow>)
    ensures forall row :: row in r ==>
              row.url != "" && row.url == ToAbs(c, row.raw, base)
              && row.text == Placeholder(TagOf(d, k), "style-url")
              && row.raw in Style.UrlsFromStyle(AttrOr(d, k, "style"))
    ensures HasValue(d, k, "style") ==>
              forall u :: u in Style.UrlsFromStyle(AttrOr(d, k, "style")) && ToAbs(c, u, base) != "" ==>
                RawRow(Placeholder(TagOf(d, k), "style-url"), u, ToAbs(c, u, base)) in r
    ensures !HasValue(d, k, "style") ==> r == []
  {
    if HasValue(d, k, "style")
    then ResolveAll(c, base, Placeholder(TagOf(d, k), "style-url"), Style.UrlsFromStyle(AttrOr(d, k, "style")))
    else []
  }

  /** All rows of element `k`: attributes, then `srcset`, then `style`. */
  function ElementRows(c: Codec, d: Document, base: string, k: nat): (r: seq<RawRow>)
    ensures forall row :: row in r ==> Resolved(c, base, row)
    ensures forall row :: row in r <==>
              row in AttrRows(c, d, base, k) || row in SrcsetRows(c, d, base, k) || row in StyleRows(c, d, base, k)
    ensures |r| == |AttrRows(c, d, base, k)| + |SrcsetRows(c, d, base, k)| + |StyleRows(c, d, base, k)|
  {
    var s := SrcsetRows(c, d, base, k);
    var y := StyleRows(c, d, base, k);
    assert forall row :: row in s ==> row.raw != "";
    assert forall row :: row in y ==> row.raw != "" by {
      forall row | row in y ensures row.raw != "" {
        assert Style.Clean(row.raw);
      }
    }
    AttrRows(c, d, base, k) + s + y
  }

  /** The rows of each element of `ks`, one block per element: block `i` is
      `ElementRows` of `ks[i]`. */
  function ElementBlocks(c: Codec, d: Document, base: string, ks: seq<nat>): seq<seq<RawRow>> {
    Seqs.Map(ks, k => ElementRows(c, d, base, k))
  }

  /**
   * The raw rows of header element `h`: the rows of every element inside it,
   * in document order. Each row is resolved and comes from an element inside
   * the header, and every row of every element inside the header is there.
   */
  function HeaderRawRows(c: Codec, d: Document, base: string, h: nat): (r: seq<RawRow>)
    ensures forall row :: row in r ==>
              Resolved(c, base, row)
              && exists k :: k in Descendants(d, h) && row in ElementRows(c, d, base, k)
    ensures forall k, row :: k in Descendants(d, h) && row in ElementRows(c, d, base, k) ==> row in r
  {
    var ks := Descendants(d, h);
    var bs := ElementBlocks(c, d, base, ks);
    forall row ensures row in Seqs.Flatten(bs) <==> exists k :: k in ks && row in ElementRows(c, d, base, k) {
      Seqs.FlattenMap(ks, k => ElementRows(c, d, base, k), row);
    }
    Seqs.Flatten(bs)
  }

  /** The attribute rows follow the order `href`, `src`, `poster`, `data`:
      one row per attribute that is set and resolves. */
  lemma AttrRowsInOrder(c: Codec, d: Document, base: string, k: nat)
    ensures AttrRows(c, d, base, k) ==
              Seqs.Map(Seqs.Filter(UrlAttrs, a => AttrResolves(c, d, base, k, a)), a => AttrRawRow(c, d, base, k, a))
  {
    Seqs.SomesOfMap(UrlAttrs, a => AttrRow(c, d, base, k, a), a => AttrResolves(c, d, base, k, a),
                    a => AttrRawRow(c, d, base, k, a));
  }

  /** One row per reference that resolves, in the order of `us`, repeated
      references included. */
  lemma {:induction false} ResolveAllInOrder(c: Codec, base: string, text: string, us: seq<string>)
    ensures ResolveAll(c, base, text, us) ==
              Seqs.Map(Seqs.Filter(us, u => ToAbs(c, u, base) != ""), u => RawRow(text, u, ToAbs(c, u, base)))
    decreases |us|
  {
    if us != [] {
      ResolveAllInOrder(c, base, text, us[1..]);
      var kept := Seqs.Filter(us, u => ToAbs(c, u, base) != "");
      if ToAbs(c, us[0], base) != "" {
        Seqs.MapTail(kept, u => RawRow(text, u, ToAbs(c, u, base)));
        assert kept[1..] == Seqs.Filter(us[1..], u => ToAbs(c, u, base) != "");
      }
    }
  }

  /** One row per `srcset` candidate that resolves, in order: `a.png 1x,
      a.png 2x` gives two rows. */
  lemma SrcsetRowsInOrder(c: Codec, d: Document, base: string, k: nat)
    ensures HasValue(d, k, "srcset") ==>
              SrcsetRows(c, d, base, k) ==
                Seqs.Map(Seqs.Filter(SrcsetUrls(AttrOr(d, k, "srcset")), u => ToAbs(c, u, base) != ""),
                         u => RawRow(Placeholder(TagOf(d, k), "srcset"), u, ToAbs(c, u, base)))
  {
    ResolveAllInOrder(c, base, Placeholder(TagOf(d, k), "srcset"), SrcsetUrls(AttrOr(d, k, "srcset")));
  }

  /** One row per `url(...)` reference of `style` that resolves, in order. */
  lemma StyleRowsInOrder(c: Codec, d: Document, base: string, k: nat)
    ensures HasValue(d, k, "style") ==>
              StyleRows(c, d, base, k) ==
                Seqs.Map(Seqs.Filter(Style.UrlsFromStyle(AttrOr(d, k, "style")), u => ToAbs(c, u, base) != ""),
                         u => RawRow(Placeholder(TagOf(d, k), "style-url"), u, ToAbs(c, u, base)))
  {
    ResolveAllInOrder(c, base, Placeholder(TagOf(d, k), "style-url"), Style.UrlsFromStyle(AttrOr(d, k, "style")));
  }

  /** The rows of an element: its attribute rows, then its `srcset` rows,
      then its `style` rows. */
  lemma ElementRowsInOrder(c: Codec, d: Document, base: string, k: nat)
    ensures var r, a, y := ElementRows(c, d, base, k), AttrRows(c, d, base, k), StyleRows(c, d, base, k);
            && r[..|a|] == a && r[|a|..|r| - |y|] == SrcsetRows(c, d, base, k) && r[|r| - |y|..] == y
  {
    Seqs.Concat3(AttrRows(c, d, base, k), SrcsetRows(c, d, base, k), StyleRows(c, d, base, k));
  }

  /** The rows of the `i`-th element inside the header form one block, right
      after the blocks of the elements before it: document order, with every
      element's rows counted in full. */
  lemma HeaderRawRowsInOrder(c: Codec, d: Document, base: string, h: nat)
    ensures var r, bs := HeaderRawRows(c, d, base, h), ElementBlocks(c, d, base, Descendants(d, h));
            && |r| == Seqs.TotalLength(bs)
            && forall i :: 0 <= i < |bs| ==>
                 var o := Seqs.TotalLength(bs[..i]);
                 o + |bs[i]| <= |r| && r[o..o + |bs[i]|] == bs[i]
  {
    var bs := ElementBlocks(c, d, base, Descendants(d, h));
    Seqs.FlattenBlocks(bs);
  }
}
