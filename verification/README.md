# Website crawler core in Dafny

This project models the crawl engine of two Node.js website crawlers and proves properties of the model:

- `crawlHeaderOnly_cheerio.js` crawls a site breadth-first. It catalogues every URL referenced inside each page's header: `href`/`src`/`poster`/`data` attributes, `srcset` candidates and `url(...)` references in inline styles. Each reference is classified by resource type (IMAGE, PDF, HTML, MAIL, ...) and by scope (INTERN, EXTERN, OTHER). The crawl follows the header's internal HTML links, or the whole page's links.
- `crawlHeaderMainFooter_cheerio.js` splits each page's anchors into header, main and footer regions. It gives each anchor a link type (TEL, MAIL, PDF, INTERN, EXTERN, UNBEKANNT) and deduplicates per region. The crawl follows the page's internal HTML candidates.

Both scripts use the same loop: a FIFO queue of `{url, depth}` tasks and a visited set of normalised URLs. They emit one record per processed page and stop at `maxPages` or when the queue is empty.

The modules follow the scripts' structure:

- **Text** (`text.dfy`): the JavaScript string operations the crawlers rely on. These are `toLowerCase`, `trim`, `split`, the whitespace collapse `replace(/\s+/g, ' ')` and the scheme tests.
- **Seqs** (`seqs.dfy`) holds sequence helpers: filter, map, `[...new Set(xs)]`, and the first-wins `Map` dedup by key. **Wrappers** (also `seqs.dfy`) holds the `Option` type.
- **Url** (`url.dfy`):
  - `toAbs` and `normUrl`;
  - the WHATWG URL parser, resolver and serialiser, as the three functions of a `Codec` value;
  - `ValidCodec`, the properties assumed of that parser. They are stated only for the records the parser and resolver return, and for those records with their fragment and some parameters removed;
  - `CutsFragments`, the parser's treatment of `#`, assumed only for input whose text before the first `#` does not end in a control character or space (`CleanCut`). Only the fragment lemmas require it.
- **Scope** (`scope.dfy`): `inScope` and `classifyScope` under the `sameOriginOnly` / `includeSubdomains` policy.
- **Resource** (`resource.dfy`): `looksLikeHtml`, `getExt` and `classifyResourceType`.
- **Style** (`style.dfy`): the regular expression `/url\(\s*(['"]?)(.*?)\1\s*\)/g` of `urlsFromStyle`, as a scan. It covers the lazy capture and both alternatives of the optional quote.
- **Dom** (`dom.dfy`) is the parsed page, an arena of elements with parent indices. It also holds the selector results, `isInside`, `$('a[href]')`, `find('*')` and the fetch outcome `Response`.
- **Counts** (`counts.dfy`): the `reduce` tallies into a JavaScript object. They are modelled as association lists in key insertion order.
- **HeaderRows**, **HeaderPage** (`header_rows.dfy`, `header_page.dfy`): `parseHeader` and `collectNextLinks` of the header crawler, and its per-page record.
- **RegionPage** (`region.dfy`): `processPage` of the region crawler and its per-page CSV line.
- **Frontier** (`frontier.dfy`): the shared crawl loop, with the page step as a parameter. It is written both as a recursive function and as a `while` loop, and carries its invariants.
- **HeaderCrawl**, **RegionCrawl** (`crawl.dfy`): `crawl()` and `crawlSite()` as instances of the loop.
- **Differences** (`differences.dfy`): inputs on which the two crawlers disagree.

The network is a parameter `fetch: string -> Response`: the outcome of fetching each URL. The HTML parser is replaced by its result, a `Document`.

## Model

| member | source | states |
|---|---|---|
| Text.LowerHasNoUpper | HeaderCrawler/crawlHeaderOnly_cheerio.js:98 | No upper-case ASCII letter survives `toLowerCase`. |
| Text.LowerAppend | HeaderCrawler/crawlHeaderOnly_cheerio.js:98 | `toLowerCase` distributes over concatenation: `(a + b).toLowerCase() == a.toLowerCase() + b.toLowerCase()`. |
| Text.LowerIdempotent | HeaderCrawler/crawlHeaderOnly_cheerio.js:98 | Lower-casing twice is lower-casing once. |
| Text.BeforeFirst | HeaderCrawler/crawlHeaderOnly_cheerio.js:55 | `split(c)[0]` is the longest prefix free of `c`; it stops at the first `c` or the end (`BeforeFirstUnique` shows that this determines it). |
| Text.SplitOn | HeaderCrawler/crawlHeaderOnly_cheerio.js:216 | `split(',')` gives at least one part, no part contains the separator, and joining the parts with it gives back the input. |
| Text.SplitJoin | HeaderCrawler/crawlHeaderOnly_cheerio.js:216 | Splitting a join of separator-free parts returns those parts (the round trip in the other direction). |
| Text.Trim | HeaderCrawler/crawlHeaderOnly_cheerio.js:157 | `trim` leaves no whitespace at either end, and is empty exactly when the input is all whitespace. |
| Text.TrimSpan | HeaderCrawler/crawlHeaderOnly_cheerio.js:217 | `trim` returns one contiguous slice of its input, with only whitespace cut on either side. |
| Text.TrimKeepsText | HeaderCrawler/crawlHeaderOnly_cheerio.js:205 | `trim` removes whitespace only: the non-whitespace characters survive in order. |
| Text.TrimIdempotent | HeaderCrawler/crawlHeaderOnly_cheerio.js:157 | Trimming twice is trimming once. |
| Text.Collapse | crawlHeaderMainFooter_cheerio.js:148 | `replace(/\s+/g, ' ')` leaves only single plain spaces as whitespace, never two in a row, and keeps whitespace at an end exactly where the input had it. |
| Text.CollapseKeepsText | crawlHeaderMainFooter_cheerio.js:148 | Collapsing whitespace keeps every non-whitespace character in order. |
| Text.FirstToken | HeaderCrawler/crawlHeaderOnly_cheerio.js:217 | `split(/\s+/)[0]` is a whitespace-free prefix that stops at whitespace or at the end. |
| Text.FirstTokenUnique | HeaderCrawler/crawlHeaderOnly_cheerio.js:217 | Any whitespace-free prefix that stops at whitespace or at the end is the first token. |
| Text.Tidy | crawlHeaderMainFooter_cheerio.js:148 | Link text after trim and collapse: empty for all-whitespace text; otherwise it has no outer whitespace, single spaces only, and the same visible characters. |
| Text.CollapseAppend | crawlHeaderMainFooter_cheerio.js:148 | After a non-whitespace character the collapse splits: both sides are collapsed on their own and concatenated. |
| Text.CollapseSplit | crawlHeaderMainFooter_cheerio.js:148 | A maximal whitespace run between two texts becomes exactly one space at that place. |
| Text.CollapseWord | crawlHeaderMainFooter_cheerio.js:148 | Text without whitespace is unchanged by the collapse. |
| Text.TrimEdges | HeaderCrawler/crawlHeaderOnly_cheerio.js:205 | `trim` of `w1 + s + w2` is `trim` of `s` for whitespace `w1`, `w2`. |
| Text.TidyEdges | HeaderCrawler/crawlHeaderOnly_cheerio.js:204-206 | Whitespace around the text does not change the label: `tidy(w1 + s + w2) == tidy(s)`. |
| Text.TidySplit | HeaderCrawler/crawlHeaderOnly_cheerio.js:204-206 | Between two trimmed texts a whitespace run becomes one space: `tidy(a + w + b) == tidy(a) + ' ' + tidy(b)`. |
| Text.TidyWord | crawlHeaderMainFooter_cheerio.js:148 | A word without whitespace is its own tidy form. |
| Text.TidyTwoWords | crawlHeaderMainFooter_cheerio.js:148 | Two words with any whitespace around and between them come out as the words joined by one space (`' a \n b '` gives `'a b'`). |
| Url.ToAbsSpec | HeaderCrawler/crawlHeaderOnly_cheerio.js:37-39 | `toAbs` is "" exactly when resolution throws; otherwise it returns a string that parses back to the resolved URL. |
| Url.NormUrl | HeaderCrawler/crawlHeaderOnly_cheerio.js:42-57 | `normUrl` of "" is ""; for unparseable input it is the input cut at its first `#` (a prefix with no `#`). |
| Url.NormParsed | HeaderCrawler/crawlHeaderOnly_cheerio.js:44-53 | For parseable input the result is non-empty and parses to the same scheme, host, port and path, with no fragment. Its parameter list is the original one with the ignored parameters filtered out, in order and with repeats kept. |
| Url.NormIdempotent | crawlHeaderMainFooter_cheerio.js:54-69 | Normalising parseable input a second time changes nothing. For unparseable input the second pass normalises the cut text afresh, and that text may parse (`https://a.test #x` is cut to `https://a.test `). Such input is its own key when the text before its first `#` does not end in a control character or space. |
| Url.NormUnfragmented | HeaderCrawler/crawlHeaderOnly_cheerio.js:42-57 | When the text before the first `#` does not end in a control character or space, cutting the input there before normalising changes nothing. |
| Url.NormIgnoresFragment | HeaderCrawler/crawlHeaderOnly_cheerio.js:42-57 | `normUrl(u + '#x') == normUrl(u)` whenever the text before the first `#` does not end in a control character or space. |
| Url.NormIgnoresIgnoredParam | HeaderCrawler/crawlHeaderOnly_cheerio.js:47-52 | Two URLs that differ by one parameter whose name starts (case-insensitively) with an ignore prefix normalise to the same key. |
| Url.StripIdempotent | HeaderCrawler/crawlHeaderOnly_cheerio.js:46-52 | Dropping the fragment and the ignored parameters a second time changes nothing. |
| Scope.ClassifyScope | HeaderCrawler/crawlHeaderOnly_cheerio.js:131-147 | INTERN exactly when `inScope` holds under the same policy. OTHER exactly when either URL fails to parse. EXTERN otherwise. |
| Scope.OtherPortIsExtern | HeaderCrawler/crawlHeaderOnly_cheerio.js:136-137 | Under same-origin policy, an http(s) link to the start host on another port is EXTERN. |
| Scope.SubdomainRule | HeaderCrawler/crawlHeaderOnly_cheerio.js:139-143 | A subdomain of the start host is in scope when subdomains are included and out of scope when only the host counts. |
| Scope.NormKeepsScope | crawlHeaderMainFooter_cheerio.js:183-184 | Normalising an in-scope URL keeps it in scope. |
| Resource.LooksLikeHtmlAntitone | crawlHeaderMainFooter_cheerio.js:85-87 | A shorter asset list accepts every URL a longer one accepts as HTML. |
| Resource.EndingExtIsAsset | HeaderCrawler/crawlHeaderOnly_cheerio.js:73-75 | A URL ending in `.` plus a listed extension (any case) fails the HTML test. |
| Resource.TrailingAlnum | HeaderCrawler/crawlHeaderOnly_cheerio.js:91 | Counts the run of letters and digits at the end of a path: all of it alphanumeric, and bounded by a non-alphanumeric character or the start. |
| Resource.PathExt | HeaderCrawler/crawlHeaderOnly_cheerio.js:91-92 | A non-empty extension is the lower-cased alphanumeric tail after a dot that ends the path. |
| Resource.PathExtOf | HeaderCrawler/crawlHeaderOnly_cheerio.js:88-94 | The extension of `q.e`, for an alphanumeric `e`, is `e` lower-cased. |
| Resource.ExtType | HeaderCrawler/crawlHeaderOnly_cheerio.js:111-122 | A tag from the extension table is one of the document types and never HTML. |
| Resource.ClassifyResourceType | HeaderCrawler/crawlHeaderOnly_cheerio.js:97-128 | `mailto:` gives MAIL before `tel:` gives TEL, whatever the resolved URL. A non-http(s) scheme gives its own tag. Otherwise a known extension gives its tag, and an unknown one gives HTML for an http(s) target and OTHER for the rest (an empty scheme, or `http` without the colon). |
| Resource.HttpProto | HeaderCrawler/crawlHeaderOnly_cheerio.js:102-103 | A target starting `http:`/`https:` has scheme http or https, so it skips the scheme branch. |
| Resource.ClassifyHttp | HeaderCrawler/crawlHeaderOnly_cheerio.js:110-125 | For an http(s) target, the type is the extension's tag, or HTML when the extension is not in the table. |
| Resource.SchemeTagHtml | HeaderCrawler/crawlHeaderOnly_cheerio.js:103-107 | Only the scheme `html` reaches the tag HTML through the scheme branch. |
| Resource.ClassifyHtmlIff | HeaderCrawler/crawlHeaderOnly_cheerio.js:97-128 | HTML exactly when the href is neither `mailto:` nor `tel:` and either the scheme is `html` or the target is http(s) with no known extension. |
| Resource.MailExample | HeaderCrawler/crawlHeaderOnly_cheerio.js:100 | `classifyResourceType('mailto:a@b.com', 'mailto:a@b.com')` is MAIL although there is no extension. |
| Resource.PdfByPath | HeaderCrawler/crawlHeaderOnly_cheerio.js:111-114 | An http(s) target whose path ends in `.PDF` is PDF: the extension test ignores case. |
| Style.SkipSpace | HeaderCrawler/crawlHeaderOnly_cheerio.js:154 | `\s*`: the first non-whitespace position at or after `i`, with only whitespace skipped. |
| Style.CloseAt | HeaderCrawler/crawlHeaderOnly_cheerio.js:154 | `\1\s*\)` at `j`: the closing quote, then whitespace, then `)`. |
| Style.LazyClose | HeaderCrawler/crawlHeaderOnly_cheerio.js:154 | `(.*?)` stops at the first position from which the closing part matches, without crossing a line break. With no match, no such position exists. |
| Style.LazyCloseFirst | HeaderCrawler/crawlHeaderOnly_cheerio.js:154 | The first closing position found by a scan is the one the lazy match takes. |
| Style.MatchAt | HeaderCrawler/crawlHeaderOnly_cheerio.js:154-156 | A match at `p` starts with `url(`, ends with `)`, and its captured content has no line break. |
| Style.QuotedClose | HeaderCrawler/crawlHeaderOnly_cheerio.js:154 | The quoted alternative: an opening `'` or `"` whose content runs lazily up to the same quote. |
| Style.UrlsFrom | HeaderCrawler/crawlHeaderOnly_cheerio.js:156-159 | Every reference the scan collects is non-empty and trimmed. |
| Style.UrlsFromStyle | HeaderCrawler/crawlHeaderOnly_cheerio.js:150-161 | Every reference taken from a style value is non-empty and trimmed. |
| Style.NoUrlNoRefs | HeaderCrawler/crawlHeaderOnly_cheerio.js:150-160 | A style value without `url(` yields no references. |
| Style.WholeMatch | HeaderCrawler/crawlHeaderOnly_cheerio.js:156-158 | A style value that is one whole match yields its trimmed content, unless that is empty. |
| Style.QuotedUrl | HeaderCrawler/crawlHeaderOnly_cheerio.js:153-158 | `url("x")` yields `x` trimmed, even when `x` holds spaces, parentheses or the other quote. |
| Style.PlainUrl | HeaderCrawler/crawlHeaderOnly_cheerio.js:153-158 | `url(x)` without quotes yields `x` trimmed, when `x` holds no quote, no `)` and no line break. |
| Style.MatchUnquoted | HeaderCrawler/crawlHeaderOnly_cheerio.js:154 | Without an opening quote, the match is the unquoted alternative up to the first `)`. |
| Style.MatchQuoted | HeaderCrawler/crawlHeaderOnly_cheerio.js:154 | After an opening quote, the match is the quoted alternative up to the matching quote. |
| Dom.ParentOf | crawlHeaderMainFooter_cheerio.js:123 | A node's parent, when there is one, comes strictly before it, so every upward walk ends. |
| Dom.InsideIff | crawlHeaderMainFooter_cheerio.js:121-129 | `isInside(el, c)` holds exactly when `c` is a strict ancestor of `el`, some number (at least one) of levels up. |
| Dom.InsideBefore | crawlHeaderMainFooter_cheerio.js:121-129 | A container precedes what it contains, so no element is inside itself. |
| Dom.InsideTransitive | crawlHeaderMainFooter_cheerio.js:121-129 | Containment is transitive. |
| Dom.Anchors | crawlHeaderMainFooter_cheerio.js:118 | `$('a[href]')`: exactly the `a` elements with an `href` attribute, in document order. |
| Dom.Descendants | HeaderCrawler/crawlHeaderOnly_cheerio.js:187 | `$(h).find('*')`: exactly the elements strictly inside `h`, in document order. |
| Dom.HeaderEl | crawlHeaderMainFooter_cheerio.js:114 | The first header match, absent exactly when nothing matches. |
| Dom.FooterEl | crawlHeaderMainFooter_cheerio.js:115 | The last footer match, absent exactly when nothing matches. |
| Seqs.Unique | HeaderCrawler/crawlHeaderOnly_cheerio.js:263 | `[...new Set(xs)]`: the same members, each once, ordered by the position of their first occurrence. |
| Seqs.DedupBy | HeaderCrawler/crawlHeaderOnly_cheerio.js:243-251 | First-wins dedup by key: an ordered subsequence whose keys are distinct and non-empty, ordered by where each key first occurs. It keeps the first element of every non-empty key. |
| Seqs.KeyIndexFinds | HeaderCrawler/crawlHeaderOnly_cheerio.js:248 | The first position carrying a key that occurs is found, and no earlier element carries that key. |
| Seqs.DedupCovers | HeaderCrawler/crawlHeaderOnly_cheerio.js:243-251 | Dedup loses no key: every non-empty key of the input is the key of a kept element. |
| Seqs.DedupKeepsFirst | HeaderCrawler/crawlHeaderOnly_cheerio.js:248 | The element kept for a key is the first one with that key. |
| Counts.BumpSpec | HeaderCrawler/crawlHeaderOnly_cheerio.js:301 | `a[k] = (a[k] || 0) + 1` adds one to `k` and the total, leaves other keys alone, and appends a new key at the end. |
| Counts.TallySpec | HeaderCrawler/crawlHeaderOnly_cheerio.js:301-302 | A tally lists each distinct value once, in order of first appearance, with its number of occurrences. The counts sum to the input length. |
| HeaderRows.Label | HeaderCrawler/crawlHeaderOnly_cheerio.js:204-206 | An anchor with visible text is labelled by that text, and the label is exactly `Tidy` of that text, so `Text.TidySplit`, `Text.TidyEdges` and `Text.TidyWord` fix where its spaces go. Any other element, or an anchor without text, gets `[tag@attr]`. |
| HeaderRows.AttrRows | HeaderCrawler/crawlHeaderOnly_cheerio.js:198-210 | Each row comes from a set URL attribute that resolves. Every such attribute gives a row. |
| HeaderRows.ResolveAll | HeaderCrawler/crawlHeaderOnly_cheerio.js:228-231 | Exactly the references that resolve give rows, with the shared label. |
| HeaderRows.ResolveAllInOrder | HeaderCrawler/crawlHeaderOnly_cheerio.js:216-221 | One row per reference that resolves, in the order of the references, repeated references included. |
| HeaderRows.CandidateUrlIn | HeaderCrawler/crawlHeaderOnly_cheerio.js:217 | A srcset candidate URL has no whitespace, and no comma when its part has none. |
| HeaderRows.SrcsetUrls | HeaderCrawler/crawlHeaderOnly_cheerio.js:216-218 | srcset candidates are non-empty, comma-free and whitespace-free. |
| HeaderRows.CandidateRoundTrip | HeaderCrawler/crawlHeaderOnly_cheerio.js:217 | A candidate written as whitespace, URL, optional descriptor reads back as its URL. |
| HeaderRows.CandidatesOf | HeaderCrawler/crawlHeaderOnly_cheerio.js:216-218 | Reading a list of written candidates gives their URLs in order. |
| HeaderRows.SrcsetRoundTrip | HeaderCrawler/crawlHeaderOnly_cheerio.js:213-223 | A srcset written as comma-separated candidates yields exactly their URLs, in order. |
| HeaderRows.SrcsetRows | HeaderCrawler/crawlHeaderOnly_cheerio.js:213-223 | srcset rows are labelled `[tag@srcset]`, resolve, and come from the srcset candidates; every candidate that resolves gives a row; an unset srcset gives none. |
| HeaderRows.StyleRows | HeaderCrawler/crawlHeaderOnly_cheerio.js:226-232 | Style rows are labelled `[tag@style-url]`, resolve, and come from the style's `url(...)` references; every reference that resolves gives a row; an unset style gives none. |
| HeaderRows.ElementRows | HeaderCrawler/crawlHeaderOnly_cheerio.js:193-233 | Every row of an element has a non-empty raw value that resolves to its URL. The rows are exactly the attribute, srcset and style rows of the element, all of them. |
| HeaderRows.HeaderRawRows | HeaderCrawler/crawlHeaderOnly_cheerio.js:187-233 | Every raw row of the header resolves and belongs to an element strictly inside the header, and every row of every such element is present. |
| HeaderRows.AttrRowsInOrder | HeaderCrawler/crawlHeaderOnly_cheerio.js:190-210 | The attribute rows are, in the order `href`, `src`, `poster`, `data`, one row per attribute that is set and resolves. |
| HeaderRows.SrcsetRowsInOrder | HeaderCrawler/crawlHeaderOnly_cheerio.js:213-223 | A set `srcset` gives one row per candidate that resolves, in order (`a.png 1x, a.png 2x` gives two rows). |
| HeaderRows.StyleRowsInOrder | HeaderCrawler/crawlHeaderOnly_cheerio.js:226-232 | A set `style` gives one row per `url(...)` reference that resolves, in order. |
| HeaderRows.ElementRowsInOrder | HeaderCrawler/crawlHeaderOnly_cheerio.js:193-233 | An element's rows are its attribute rows, then its srcset rows, then its style rows. |
| HeaderRows.HeaderRawRowsInOrder | HeaderCrawler/crawlHeaderOnly_cheerio.js:187-233 | The rows of the i-th element inside the header form one block right after the blocks of the elements before it: document order, every element's rows in full. |
| HeaderPage.Enrich | HeaderCrawler/crawlHeaderOnly_cheerio.js:236-240 | A row keeps its label, raw text and URL and gets its resource type. Its scope is INTERN exactly for an http(s) in-scope URL, and OTHER for any non-http(s) URL. An http(s) URL gets `classifyScope`'s answer: EXTERN when both URLs parse and it is out of scope, OTHER only when a parse fails. |
| HeaderPage.Dedup | HeaderCrawler/crawlHeaderOnly_cheerio.js:243-251 | With dedup on: an ordered subset with distinct, non-empty keys that keeps the first row of every key. With dedup off: all rows. |
| HeaderPage.HeaderNext | HeaderCrawler/crawlHeaderOnly_cheerio.js:255-263 | The links followed from the header are the distinct non-empty normalised URLs of internal HTML rows. |
| HeaderPage.CollectNextLinks | HeaderCrawler/crawlHeaderOnly_cheerio.js:273-283 | The distinct normalised anchor targets that are non-empty, http(s), not assets and in scope; only those. |
| HeaderPage.ParseHeader | HeaderCrawler/crawlHeaderOnly_cheerio.js:164-270 | Gives an error, with no rows or links, exactly when the fetch failed, is not ok, or is not `text/html`. With no header: no rows, whole-page links. Otherwise: the header's rows, and the internal HTML rows' links or the whole page's links as `followFromHeaderOnly` says. Links are always distinct. |
| HeaderPage.HeaderNextInScope | HeaderCrawler/crawlHeaderOnly_cheerio.js:256-263 | A link followed from the header is in scope and already normalised. |
| HeaderPage.CollectedInScope | HeaderCrawler/crawlHeaderOnly_cheerio.js:273-283 | A link collected from the page is in scope and already normalised. |
| HeaderPage.RowsScope | HeaderCrawler/crawlHeaderOnly_cheerio.js:238 | An INTERN row of a page's header is in scope. |
| HeaderPage.NextInScope | HeaderCrawler/crawlHeaderOnly_cheerio.js:164-283 | Every link `parseHeader` returns is non-empty, in scope and already normalised. |
| HeaderPage.RowsFromHeader | HeaderCrawler/crawlHeaderOnly_cheerio.js:185-251 | Every row of a parsed page resolves against the final URL and comes from an element inside the first header match. |
| HeaderPage.RowsCoverHeader | HeaderCrawler/crawlHeaderOnly_cheerio.js:185-251 | Every reference inside the header reaches the rows: enriched as is without dedup, and through a row with the same non-empty key with dedup. |
| HeaderPage.RecordCounts | HeaderCrawler/crawlHeaderOnly_cheerio.js:301-312 | A page line counts each type and each scope as often as rows carry it. Each count map adds up to the rows, and `unique` equals `total`. |
| HeaderPage.ErrorRecordEmpty | HeaderCrawler/crawlHeaderOnly_cheerio.js:168-170 | A failed page's line has no rows, no counts and an error. |
| RegionPage.TypeOf | crawlHeaderMainFooter_cheerio.js:150-160 | TEL, then MAIL, then PDF, all on the lower-cased href. Then INTERN or EXTERN by host name alone, or UNBEKANNT when either URL fails to parse. Each tag has an exact condition. |
| RegionPage.MakeRecord | crawlHeaderMainFooter_cheerio.js:144-161 | A record has the trimmed href and its resolution, link text that is exactly `Tidy` of the anchor's text ("" when none, spaces placed as `Text.TidySplit` states), and the type of the trimmed href. |
| RegionPage.MakeRecords | crawlHeaderMainFooter_cheerio.js:143-172 | One record per link, in order. The unique records are an ordered subset of them, all of them when dedup is off. |
| RegionPage.UniqueRecords | crawlHeaderMainFooter_cheerio.js:164-171 | With dedup on, the unique records have distinct non-empty keys and keep the first record of every key; a record whose href did not resolve is in `all` and never in `unique`. |
| RegionPage.RegionStep | crawlHeaderMainFooter_cheerio.js:136-140 | One more link extends its own region's list and leaves the other two unchanged. |
| RegionPage.Partition | crawlHeaderMainFooter_cheerio.js:131-140 | The loop gives each region's links in document order, and the three lists together hold every link once. |
| RegionPage.RegionMembership | crawlHeaderMainFooter_cheerio.js:136-140 | A link is HEADER exactly when inside the header element. It is FOOTER exactly when inside the footer element and not the header. Otherwise it is MAIN. |
| RegionPage.RegionSizes | crawlHeaderMainFooter_cheerio.js:131-140 | The three region sizes add up to the number of links. |
| RegionPage.HttpTargets | crawlHeaderMainFooter_cheerio.js:180-182 | The anchors' resolved URLs that start with `http://` or `https://`, and nothing else. |
| RegionPage.NormTargets | crawlHeaderMainFooter_cheerio.js:183 | The normalised forms of those URLs, and nothing else. |
| RegionPage.NextCandidates | crawlHeaderMainFooter_cheerio.js:179-188 | Exactly the distinct normalised http(s) anchor targets that are non-empty, not assets and in scope. |
| RegionPage.CandidatesInScope | crawlHeaderMainFooter_cheerio.js:181-187 | A candidate is in scope, already normalised, and still starts with `http://` or `https://`. |
| RegionPage.ProcessPage | crawlHeaderMainFooter_cheerio.js:90-197 | Fails exactly when the fetch threw or the content type lacks `text/html` (status not checked); the error is never empty. Otherwise each region's data is the records of the anchors `InRegion` assigns to it (so every anchor falls in one region), and the candidates are `nextCandidates` of the page. |
| RegionPage.NextInScope | crawlHeaderMainFooter_cheerio.js:179-197 | Every candidate of a processed page is non-empty, starts with `http://` or `https://`, is in scope and is normalised. |
| RegionPage.RegionCountsAdd | crawlHeaderMainFooter_cheerio.js:226-230 | A region's type counts add up to its unique count, which is at most its total. Each type is counted as often as the unique records carry it. |
| RegionPage.PageRowCounts | crawlHeaderMainFooter_cheerio.js:213-232 | A page line's types add up per region. It has an error exactly when the page failed, and then all-zero counts. |
| Frontier.Enqueue | HeaderCrawler/crawlHeaderOnly_cheerio.js:316-318 | Only unseen links are queued, all one level deeper, and every unseen link is queued. |
| Frontier.KeysMember | HeaderCrawler/crawlHeaderOnly_cheerio.js:294-296 | A key is in the visited set exactly when some processed task has it. |
| Frontier.StepSeen | HeaderCrawler/crawlHeaderOnly_cheerio.js:294-296 | One iteration keeps the visited set equal to the keys of the processed tasks, with no key processed twice. |
| Frontier.StepRecords | HeaderCrawler/crawlHeaderOnly_cheerio.js:298-312 | One iteration keeps one record per processed task, the record of that task's visit. |
| Frontier.StepDepth | HeaderCrawler/crawlHeaderOnly_cheerio.js:315-317 | One iteration keeps every task at depth 0 or within 1..maxDepth. |
| Frontier.StepBfs | HeaderCrawler/crawlHeaderOnly_cheerio.js:293 | One iteration keeps breadth-first order: queue and processed tasks sorted by depth, spanning two adjacent depths at most. |
| Frontier.BfsPush | HeaderCrawler/crawlHeaderOnly_cheerio.js:316-318 | Processing the head and queueing its children one level deeper keeps breadth-first order. |
| Frontier.StepSpawn | HeaderCrawler/crawlHeaderOnly_cheerio.js:315-319 | One iteration keeps provenance: every queued task was spawned by a processed page. |
| Frontier.VisitedSpawned | HeaderCrawler/crawlHeaderOnly_cheerio.js:293 | A processed task other than the start was spawned by an earlier processed page. |
| Frontier.StepClosed | HeaderCrawler/crawlHeaderOnly_cheerio.js:315-319 | One iteration keeps closure: every link of an expanding processed page is processed or still queued. |
| Frontier.StepInv | HeaderCrawler/crawlHeaderOnly_cheerio.js:292-320 | One loop iteration preserves all the invariants. |
| Frontier.StepProgress | HeaderCrawler/crawlHeaderOnly_cheerio.js:292 | Each iteration brings the page limit closer or shortens the queue, so the loop ends. |
| Frontier.Finish | HeaderCrawler/crawlHeaderOnly_cheerio.js:292 | When the loop stops, the invariants give the crawl's guarantees. |
| Frontier.RunInv | HeaderCrawler/crawlHeaderOnly_cheerio.js:292-320 | The invariants hold wherever the loop ends. |
| Frontier.CrawlSpec | HeaderCrawler/crawlHeaderOnly_cheerio.js:286-323 | The start is processed first. One record per task; at most maxPages records, fewer only when the queue empties. Keys never repeat; depths stay bounded and never decrease. Later tasks have a parent. An empty queue means every link was covered. |
| Frontier.Covers | HeaderCrawler/crawlHeaderOnly_cheerio.js:292-319 | When the queue ran empty, a link of an expanding page, or its key, is the key of a processed page. |
| Frontier.Crawl | HeaderCrawler/crawlHeaderOnly_cheerio.js:286-323 | The while loop computes the records and processed tasks of the recursive definition. |
| HeaderCrawl.Crawl | HeaderCrawler/crawlHeaderOnly_cheerio.js:286-323 | `crawl()` returns at most maxPages records; the start page's comes first; each is `parseHeader` of a processed URL. |
| HeaderCrawl.CrawlStaysInScope | HeaderCrawler/crawlHeaderOnly_cheerio.js:315-319 | Every page processed after the start page is in scope and already normalised. |
| HeaderCrawl.ChildInScope | HeaderCrawler/crawlHeaderOnly_cheerio.js:315-319 | A task queued from a page's links is in scope and normalised. |
| HeaderCrawl.CrawlVisitsOnce | HeaderCrawler/crawlHeaderOnly_cheerio.js:294-296 | No two processed pages share a normalised URL. |
| HeaderCrawl.CrawlCovers | HeaderCrawler/crawlHeaderOnly_cheerio.js:315-318 | When the queue runs empty, every link of an error-free page above the depth limit has been processed. |
| RegionCrawl.CrawlSite | crawlHeaderMainFooter_cheerio.js:200-242 | `crawlSite()` returns at most maxPages lines; the start page's comes first; each is the line of `processPage` on a processed URL. |
| RegionCrawl.CrawlStaysInScope | crawlHeaderMainFooter_cheerio.js:235-239 | Every page processed after the start page is in scope and already normalised. |
| RegionCrawl.ChildInScope | crawlHeaderMainFooter_cheerio.js:235-239 | A task queued from a page's candidates is in scope and normalised. |
| RegionCrawl.CrawlVisitsOnce | crawlHeaderMainFooter_cheerio.js:206-210 | No two processed pages share a normalised URL. |
| RegionCrawl.CrawlCovers | crawlHeaderMainFooter_cheerio.js:235-238 | When the queue runs empty, every candidate of a processed page above the depth limit has been processed. |
| Differences.LastDotDecides | crawlHeaderMainFooter_cheerio.js:85-87 | For a URL without a query, the asset test looks only at the text after the last dot. |
| Differences.HtmlTestsNested | crawlHeaderMainFooter_cheerio.js:85-87 | A URL the header crawler's HTML test accepts, the region crawler's accepts too. |
| Differences.ExtraAssetsDiffer | HeaderCrawler/crawlHeaderOnly_cheerio.js:74 | Font, `.json`, `.xml`, `.mjs` and `.webm` links pass the region crawler's HTML test and fail the header crawler's. |
| Differences.ErrorStatusDiffers | crawlHeaderMainFooter_cheerio.js:100-103 | An HTML response with an error status is NON_HTML for the header crawler and a processed page for the region crawler. |
| Differences.OtherPortDiffers | crawlHeaderMainFooter_cheerio.js:155-158 | A link to the start host on another port is INTERN for the region crawler and EXTERN for the header crawler. |
| Differences.ZipUnknown | HeaderCrawler/crawlHeaderOnly_cheerio.js:111-122 | The type table has no entry for a `.zip` path. |
| Differences.ZipIsAsset | HeaderCrawler/crawlHeaderOnly_cheerio.js:74 | A URL ending in `.zip` fails the header crawler's HTML test. |
| Differences.ZipTypedHtml | HeaderCrawler/crawlHeaderOnly_cheerio.js:124-125 | An http(s) `.zip` link is typed HTML, though the HTML test rejects it. |

## Behaviour worth knowing

The model follows the code in each case:

- The region crawler does not check the response status (`crawlHeaderMainFooter_cheerio.js:100-103`). An HTML page with an error status is processed, while the header crawler reports it as NON_HTML (`Differences.ErrorStatusDiffers`).
- The region crawler's link type compares host names only (`crawlHeaderMainFooter_cheerio.js:155-158`) and ignores the scope policy. A link to another port of the start host is INTERN there, but is not followed under the same-origin policy (`Differences.OtherPortDiffers`).
- The two crawlers' asset lists differ. The region crawler lacks fonts, `json`, `xml`, `mjs` and `webm` (`Differences.ExtraAssetsDiffer`).
- The image test `(jpe?g|png|gif|webp)$` is anchored only at the end, so any extension ending in one of those names is IMAGE: `xjpg` is IMAGE too.
- The file-type fallback makes an http(s) link with an extension missing from the table (such as `.zip`) HTML, although the asset test would not follow it (`Differences.ZipTypedHtml`).
- The start page is processed at depth 0 even when `maxDepth` is negative. With `maxPages <= 0` nothing is processed at all.
- Placeholder labels are written `[tag@attr]`, with brackets.

## Left out

- Network access (`fetchPage`, `node-fetch`, user agent, redirects): becomes the `fetch` parameter. Its result carries the final URL, the `ok` flag, the content type and the parsed page. Asynchrony is irrelevant because the loop awaits each page in turn.
- HTML parsing and CSS selector matching (cheerio): become the `Document` value and its `headerMatches` / `footerMatches` lists. The HTML parser is not part of this model.
- The WHATWG URL parser, resolver and serialiser are the abstract `Codec`. Only the properties listed in `Url.ValidCodec` are assumed, and only in lemmas. Concrete examples such as `https://a.test/?utm_source=x&id=1` are therefore stated over parsed URL records (`Url.NormIgnoresIgnoredParam`), not over literal strings.
- `Url.ValidCodec`: assumes that every record the parser or resolver returns, and every such record with its fragment and some parameters removed, reparses to itself from its `href`. It also assumes that such an `href` starts with `http:`/`https:` (then `//`) exactly for the http(s) schemes. These are properties of the WHATWG parser and serialiser, assumed rather than derived. Records no parser call returns, such as one with an upper-case host, are not constrained.
- `Url.CutsFragments`: assumes that everything after the first `#` affects only the fragment. This is assumed only when the text before that `#` does not end in a C0 control or a space. The parser strips those characters at the two ends of its whole input only, so `https://a.test/a #x` has path `/a%20` while `https://a.test/a ` has path `/a`, and `https://a.test #x` does not parse at all. No crawl-level lemma depends on it.
- `Url.NormIdempotent`: idempotence is promised for parseable input and for input whose text before the first `#` is a clean cut. For other unparseable input the lemma states what happens instead: the second pass normalises the cut text afresh, so `https://a.test #x` becomes `https://a.test ` and then `https://a.test/`. `Url.NormUnfragmented` and `Url.NormIgnoresFragment` are limited to clean cuts for the same reason.
- `Url.NormUrl`: the serialised query is a function of the parsed parameters here. After deleting a parameter, the program's `href` rewrites the whole query in form encoding: `~` becomes `%7E`, a space becomes `+`, and an empty query loses its `?`. Without a deletion the original query text is kept. So `https://a.test/?utm_source=x&q=a~b` and `https://a.test/?q=a~b` are two keys in the program but one key in the model (`Url.NormIgnoresIgnoredParam`). The same holds for `https://a.test/?` and `https://a.test/?utm_source=x`. Query-encoding differences are not distinguished.
- Configuration from environment variables (`toBool`, `toInt`, the `CONFIG` defaults) becomes the `Config` value passed in. The default values themselves are not modelled.
- CSV writing (`savePagesCsv`, `saveSummaryCsv`, `saveCsv`), the summary totals, the start-up code and console logging are left out. They are output formatting, not crawl logic.
- `res.error` of the header crawler's fetch wrapper: a thrown fetch gives `FETCH_ERROR: <message>` directly, which is the only way `res.error` is set.
- Case mapping covers ASCII letters only; `toLowerCase` of other scripts is not modelled.
- The ordering of JavaScript object keys is modelled as insertion order. This is exact for the tallied keys, because type tags, scopes and link types never look like array indices.
- The order in which the header's rows are collected is document order of `find('*')`. cheerio's traversal is not part of this model.
- The third script variant and the summary aggregation are outside this core.
