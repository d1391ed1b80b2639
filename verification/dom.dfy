/**
 * The parsed page as the crawler reads it: an arena of element nodes in
 * document order, each with its tag name, parent index, attributes and text
 * content (`$el.text()`), plus the element lists the header and footer
 * selectors match. A parent link is followed only when it points to an
 * earlier node, so every upward walk ends; a node without a (usable) parent
 * hangs directly below the document root.
 */
module Dom {
  import opened Wrappers
  import opened Text
  import Seqs

  datatype Node = Node(tag: string, parent: Option<nat>, attrs: map<string, string>, text: string)

  /** A parsed page: its elements, and the results of the header and footer
      selector lists, in document order. */
  datatype Document = Document(nodes: seq<Node>, headerMatches: seq<nat>, footerMatches: seq<nat>)

  /** `el.parent`, as an element of the arena. */
  function ParentOf(d: Document, k: nat): (r: Option<nat>)
    ensures r.Some? ==> r.value < k
  {
    if k < |d.nodes| && d.nodes[k].parent.Some? && d.nodes[k].parent.value < k
    then d.nodes[k].parent else None
  }

  /** The ancestor `n` levels above `k` (`k` itself for `n == 0`). */
  function Up(d: Document, k: nat, n: nat): Option<nat>
    decreases n
  {
    if n == 0 then Some(k)
    else match ParentOf(d, k)
      case None => None
      case Some(p) => Up(d, p, n - 1)
  }

  function Rank(cur: Option<nat>): nat {
    match cur
    case None => 0
    case Some(k) => k + 1
  }

  /** The loop of `isInside`: walk up from `cur` until `c` or the root. */
  predicate Walk(d: Document, cur: Option<nat>, c: nat)
    decreases Rank(cur)
  {
    match cur
    case None => false
    case Some(k) => k == c || Walk(d, ParentOf(d, k), c)
  }

  /** `isInside(el, container)`: false when either is missing; otherwise
      whether `container` is met walking up from the parent of `el`. */
  predicate IsInside(d: Document, el: Option<nat>, c: Option<nat>) {
    el.Some? && c.Some? && Walk(d, ParentOf(d, el.value), c.value)
  }

  /** A walk that meets `c` went up some number of levels. */
  lemma {:induction false} WalkFound(d: Document, k: nat, c: nat) returns (n: nat)
    requires Walk(d, Some(k), c)
    ensures Up(d, k, n) == Some(c)
    decreases k
  {
    if k == c {
      n := 0;
    } else {
      var p := ParentOf(d, k).value;
      var m := WalkFound(d, p, c);
      n := m + 1;
    }
  }

  /** An ancestor any number of levels up is met by the walk. */
  lemma {:induction false} UpWalk(d: Document, k: nat, c: nat, n: nat)
    requires Up(d, k, n) == Some(c)
    ensures Walk(d, Some(k), c)
    decreases n
  {
    if n > 0 {
      var p := ParentOf(d, k).value;
      UpWalk(d, p, c, n - 1);
    }
  }

  /** `isInside` holds exactly when the container is a strict ancestor. */
  lemma InsideIff(d: Document, el: nat, c: nat)
    ensures IsInside(d, Some(el), Some(c)) <==> exists n: nat :: 1 <= n && Up(d, el, n) == Some(c)
  {
    if IsInside(d, Some(el), Some(c)) {
      var p := ParentOf(d, el).value;
      var m := WalkFound(d, p, c);
      assert Up(d, el, m + 1) == Some(c);
      assert exists n: nat :: 1 <= n && Up(d, el, n) == Some(c);
    }
    if exists n: nat :: 1 <= n && Up(d, el, n) == Some(c) {
      var n: nat :| 1 <= n && Up(d, el, n) == Some(c);
      var p := ParentOf(d, el).value;
      UpWalk(d, p, c, n - 1);
      assert IsInside(d, Some(el), Some(c));
    }
  }

  lemma {:induction false} UpBelow(d: Document, k: nat, n: nat)
    requires Up(d, k, n).Some?
    ensures Up(d, k, n).value <= k
    ensures n > 0 ==> Up(d, k, n).value < k
    decreases n
  {
    if n > 0 {
      var p := ParentOf(d, k).value;
      UpBelow(d, p, n - 1);
    }
  }

  /** A container lies strictly before what it contains, so no element is
      inside itself. */
  lemma InsideBefore(d: Document, el: nat, c: nat)
    requires IsInside(d, Some(el), Some(c))
    ensures c < el
  {
    InsideIff(d, el, c);
    var n: nat :| 1 <= n && Up(d, el, n) == Some(c);
    UpBelow(d, el, n);
  }

  lemma {:induction false} UpAdd(d: Document, k: nat, m: nat, n: nat)
    requires Up(d, k, m).Some?
    ensures Up(d, Up(d, k, m).value, n) == Up(d, k, m + n)
    decreases m
  {
    if m > 0 {
      UpAdd(d, ParentOf(d, k).value, m - 1, n);
    }
  }

  /** Containment is transitive. */
  lemma InsideTransitive(d: Document, a: nat, b: nat, c: nat)
    requires IsInside(d, Some(a), Some(b)) && IsInside(d, Some(b), Some(c))
    ensures IsInside(d, Some(a), Some(c))
  {
    InsideIff(d, a, b);
    InsideIff(d, b, c);
    var m: nat :| 1 <= m && Up(d, a, m) == Some(b);
    var n: nat :| 1 <= n && Up(d, b, n) == Some(c);
    UpAdd(d, a, m, n);
    InsideIff(d, a, c);
  }

  /** `$el.attr(name)`: `None` when the attribute is absent. */
  function Attr(d: Document, k: nat, name: string): Option<string> {
    if k < |d.nodes| && name in d.nodes[k].attrs then Some(d.nodes[k].attrs[name]) else None
  }

  /** `$el.attr(name) || ''`. */
  function AttrOr(d: Document, k: nat, name: string): string {
    match Attr(d, k, name)
    case Some(v) => v
    case None => ""
  }

  /** `if (val)`: the attribute is present and not empty. */
  predicate HasValue(d: Document, k: nat, name: string) {
    AttrOr(d, k, name) != ""
  }

  /** `($el.prop('tagName') || '').toLowerCase()`. */
  function TagOf(d: Document, k: nat): string {
    if k < |d.nodes| then Lower(d.nodes[k].tag) else ""
  }

  /** `$el.text() || ''`. */
  function TextOf(d: Document, k: nat): string {
    if k < |d.nodes| then d.nodes[k].text else ""
  }

  /** The indices `0 .. n-1`, the document order of the arena. */
  function Indices(n: nat): (r: seq<nat>)
    ensures |r| == n && forall i :: 0 <= i < n ==> r[i] == i
    ensures forall k: nat :: k in r <==> k < n
  {
    var r := seq(n, i requires 0 <= i < n => i);
    forall k: nat ensures k in r <==> k < n {
      if k < n { assert r[k] == k; }
      if k in r { var i :| 0 <= i < |r| && r[i] == k; }
    }
    r
  }

  predicate IsAnchor(d: Document, k: nat) {
    k < |d.nodes| && TagOf(d, k) == "a" && "href" in d.nodes[k].attrs
  }

  /** `$('a[href]')`: the anchors with an `href` attribute, in document order. */
  function Anchors(d: Document): (r: seq<nat>)
    ensures forall k: nat :: k in r <==> IsAnchor(d, k)
    ensures Seqs.Subseq(r, Indices(|d.nodes|))
  {
    Seqs.Filter(Indices(|d.nodes|), (k: nat) => IsAnchor(d, k))
  }

  /** `$(h).find('*')`: every element strictly inside `h`, in document order. */
  function Descendants(d: Document, h: nat): (r: seq<nat>)
    ensures forall k: nat :: k in r <==> k < |d.nodes| && IsInside(d, Some(k), Some(h))
    ensures Seqs.Subseq(r, Indices(|d.nodes|))
  {
    Seqs.Filter(Indices(|d.nodes|), (k: nat) => k < |d.nodes| && IsInside(d, Some(k), Some(h)))
  }

  /** The header element: the first header-selector match, absent only when
      nothing matches. */
  function HeaderEl(d: Document): (r: Option<nat>)
    ensures r.None? <==> d.headerMatches == []
    ensures r.Some? ==> r.value == d.headerMatches[0]
  {
    if |d.headerMatches| > 0 then Some(d.headerMatches[0]) else None
  }

  /** The footer element: the last footer-selector match, absent only when
      nothing matches. */
  function FooterEl(d: Document): (r: Option<nat>)
    ensures r.None? <==> d.footerMatches == []
    ensures r.Some? ==> r.value == d.footerMatches[|d.footerMatches| - 1]
  {
    if |d.footerMatches| > 0 then Some(d.footerMatches[|d.footerMatches| - 1]) else None
  }

  /**
   * What fetching a page yields: either the request threw (with the error's
   * message), or a response with its final URL after redirects (`res.url`,
   * possibly empty), `res.ok`, the `content-type` header ("" when absent),
   * and the parsed body.
   */
  datatype Response =
    | FetchFailed(message: string)
    | Fetched(finalUrl: string, ok: bool, contentType: string, doc: Document)
}
