/**
 * The JavaScript string operations the crawler relies on: case mapping,
 * `startsWith`/`endsWith`/`includes`, `split`, `trim`, the whitespace
 * collapse `replace(/\s+/g, ' ')`, and the scheme tests `/^https?:/i` and
 * `/^https?:\/\//i`. Strings are sequences of characters.
 */
module Text {
  import Seqs

  /** `\s` in a JavaScript regular expression, and what `trim` removes:
      WhiteSpace and LineTerminator characters of ECMAScript. */
  predicate IsSpace(c: char) {
    c == '\t' || c == '\n' || c == '\U{000B}' || c == '\U{000C}' || c == '\r' || c == ' '
    || c == '\U{00A0}' || c == '\U{1680}' || ('\U{2000}' <= c <= '\U{200A}')
    || c == '\U{2028}' || c == '\U{2029}' || c == '\U{202F}' || c == '\U{205F}'
    || c == '\U{3000}' || c == '\U{FEFF}'
  }

  /** The characters `.` in a regular expression does not match. */
  predicate IsLineTerminator(c: char) {
    c == '\n' || c == '\r' || c == '\U{2028}' || c == '\U{2029}'
  }

  /** `[a-z0-9]` under the `i` flag. */
  predicate IsAlnum(c: char) {
    ('a' <= c <= 'z') || ('A' <= c <= 'Z') || ('0' <= c <= '9')
  }

  function LowerChar(c: char): char {
    if 'A' <= c <= 'Z' then (c as int + 32) as char else c
  }

  function UpperChar(c: char): char {
    if 'a' <= c <= 'z' then (c as int - 32) as char else c
  }

  /** `toLowerCase`, on the ASCII letters. */
  function Lower(s: string): (r: string)
    ensures |r| == |s|
    ensures forall i :: 0 <= i < |s| ==> r[i] == LowerChar(s[i])
  {
    seq(|s|, i requires 0 <= i < |s| => LowerChar(s[i]))
  }

  /** `toUpperCase`, on the ASCII letters. */
  function Upper(s: string): (r: string)
    ensures |r| == |s|
    ensures forall i :: 0 <= i < |s| ==> r[i] == UpperChar(s[i])
  {
    seq(|s|, i requires 0 <= i < |s| => UpperChar(s[i]))
  }

  /** No upper-case ASCII letter survives `toLowerCase`. */
  lemma LowerHasNoUpper(s: string)
    ensures forall i :: 0 <= i < |Lower(s)| ==> !('A' <= Lower(s)[i] <= 'Z')
  {
  }

  /** `toLowerCase` works character by character, so it distributes over
      concatenation. */
  lemma LowerAppend(a: string, b: string)
    ensures Lower(a + b) == Lower(a) + Lower(b)
  {
  }

  /** Lower-casing twice is lower-casing once. */
  lemma LowerIdempotent(s: string)
    ensures Lower(Lower(s)) == Lower(s)
  {
  }

  lemma LowerPrefix(s: string, n: nat)
    requires n <= |s|
    ensures Lower(s)[..n] == Lower(s[..n])
  {
  }

  predicate StartsWith(s: string, p: string) {
    |p| <= |s| && s[..|p|] == p
  }

  predicate EndsWith(s: string, p: string) {
    |p| <= |s| && s[|s| - |p|..] == p
  }

  /** `String.prototype.includes`. */
  predicate Contains(s: string, t: string)
    decreases |s|
  {
    StartsWith(s, t) || (s != [] && Contains(s[1..], t))
  }

  /** `a || b` on strings: `a` unless it is empty. */
  function OrElse(a: string, b: string): string {
    if a != "" then a else b
  }

  /** `/^https?:/i`. */
  predicate HasHttpScheme(s: string) {
    StartsWith(Lower(s), "http:") || StartsWith(Lower(s), "https:")
  }

  /** `/^https?:\/\//i`. */
  predicate HasHttpSlashes(s: string) {
    StartsWith(Lower(s), "http://") || StartsWith(Lower(s), "https://")
  }

  lemma SlashesImplyScheme(s: string)
    ensures HasHttpSlashes(s) ==> HasHttpScheme(s)
  {
    var l := Lower(s);
    if StartsWith(l, "http://") { assert l[..5] == l[..7][..5]; }
    if StartsWith(l, "https://") { assert l[..6] == l[..8][..6]; }
  }

  /** `s.split(c)[0]`: the text before the first `c`, or all of `s`. */
  function BeforeFirst(s: string, c: char): (r: string)
    ensures |r| <= |s| && r == s[..|r|]
    ensures c !in r
    ensures |r| < |s| ==> s[|r|] == c
    decreases |s|
  {
    if s == [] then []
    else if s[0] == c then []
    else [s[0]] + BeforeFirst(s[1..], c)
  }

  /** The three ensures of `BeforeFirst` determine it: a prefix free of `c`
      that stops at a `c` or at the end is the one `BeforeFirst` returns. */
  lemma BeforeFirstUnique(s: string, c: char, n: nat)
    requires n <= |s| && c !in s[..n] && (n == |s| || s[n] == c)
    ensures BeforeFirst(s, c) == s[..n]
  {
  }

  lemma BeforeFirstOfJoin(a: string, c: char, b: string)
    requires c !in a
    ensures BeforeFirst(a + [c] + b, c) == a
  {
    var s := a + [c] + b;
    assert s[..|a|] == a;
    BeforeFirstUnique(s, c, |a|);
  }

  /** `s.split(c)` for a single-character separator. */
  function SplitOn(s: string, c: char): (r: seq<string>)
    ensures |r| >= 1
    ensures forall i :: 0 <= i < |r| ==> c !in r[i]
    ensures Join(r, c) == s
    decreases |s|
  {
    var h := BeforeFirst(s, c);
    if |h| == |s| then
      assert h == s;
      [s]
    else
      var rest := SplitOn(s[|h| + 1..], c);
      assert s == h + [c] + s[|h| + 1..];
      [h] + rest
  }

  /** `parts.join(c)`. */
  function Join(parts: seq<string>, c: char): string
    decreases |parts|
  {
    if parts == [] then ""
    else if |parts| == 1 then parts[0]
    else parts[0] + [c] + Join(parts[1..], c)
  }

  /** Splitting undoes joining when no part contains the separator. */
  lemma {:induction false} SplitJoin(parts: seq<string>, c: char)
    requires |parts| >= 1
    requires forall i :: 0 <= i < |parts| ==> c !in parts[i]
    ensures SplitOn(Join(parts, c), c) == parts
    decreases |parts|
  {
    if |parts| > 1 {
      var s := Join(parts, c);
      var tail := Join(parts[1..], c);
      assert s == parts[0] + [c] + tail;
      BeforeFirstOfJoin(parts[0], c, tail);
      assert s[|parts[0]| + 1..] == tail;
      SplitJoin(parts[1..], c);
    }
  }

  /** Leading whitespace removed. */
  function TrimStart(s: string): (r: string)
    ensures |r| <= |s| && r == s[|s| - |r|..]
    ensures r != [] ==> !IsSpace(r[0])
    ensures forall i :: 0 <= i < |s| - |r| ==> IsSpace(s[i])
    decreases |s|
  {
    if s != [] && IsSpace(s[0]) then TrimStart(s[1..]) else s
  }

  /** Trailing whitespace removed. */
  function TrimEnd(s: string): (r: string)
    ensures |r| <= |s| && r == s[..|r|]
    ensures r != [] ==> !IsSpace(r[|r| - 1])
    ensures forall i :: |r| <= i < |s| ==> IsSpace(s[i])
    decreases |s|
  {
    if s != [] && IsSpace(s[|s| - 1]) then TrimEnd(s[..|s| - 1]) else s
  }

  /** No whitespace at either end. */
  predicate Trimmed(s: string) {
    s == [] || (!IsSpace(s[0]) && !IsSpace(s[|s| - 1]))
  }

  /** `String.prototype.trim`: the text between the leading and the trailing
      whitespace, empty exactly when the text is all whitespace. */
  function Trim(s: string): (r: string)
    ensures Trimmed(r)
    ensures r == [] <==> forall i :: 0 <= i < |s| ==> IsSpace(s[i])
    ensures |r| <= |s|
  {
    var t := TrimStart(s);
    var r := TrimEnd(t);
    assert r == [] ==> forall i :: 0 <= i < |s| ==> IsSpace(s[i]) by {
      if r == [] {
        forall i | 0 <= i < |s| ensures IsSpace(s[i]) {
        }
      }
    }
    assert (forall i :: 0 <= i < |s| ==> IsSpace(s[i])) ==> r == [] by {
      if r != [] {
        assert r[0] == s[|s| - |t|];
      }
    }
    r
  }

  /** `trim` returns a slice `s[i..n]`, with only whitespace outside it. */
  lemma TrimSpan(s: string) returns (i: nat, n: nat)
    ensures i <= n <= |s| && Trim(s) == s[i..n]
    ensures forall k :: 0 <= k < i ==> IsSpace(s[k])
    ensures forall k :: n <= k < |s| ==> IsSpace(s[k])
    ensures i < |s| ==> !IsSpace(s[i])
    ensures i < n ==> !IsSpace(s[n - 1])
  {
    var t := TrimStart(s);
    var u := TrimEnd(t);
    i := |s| - |t|;
    n := i + |u|;
    assert Trim(s) == u;
    assert u == s[i..n] && (i < |s| ==> s[i] == t[0]) by {
      assert t == s[i..];
    }
    assert forall k :: n <= k < |s| ==> IsSpace(s[k]) by {
      forall k | n <= k < |s| ensures IsSpace(s[k]) {
        assert t == s[i..];
        assert s[k] == t[k - i];
      }
    }
  }

  /** When `s[l]` is the first non-whitespace character and `s[m - 1]` is not
      whitespace, `trim` keeps `s[l..m]` and possibly more after it. */
  lemma TrimFrom(s: string, l: nat, m: nat) returns (n: nat)
    requires l < m <= |s|
    requires forall k :: 0 <= k < l ==> IsSpace(s[k])
    requires !IsSpace(s[l]) && !IsSpace(s[m - 1])
    ensures m <= n <= |s| && Trim(s) == s[l..n]
    ensures forall k :: n <= k < |s| ==> IsSpace(s[k])
  {
    var i: nat;
    i, n := TrimSpan(s);
    assert i == l;
    assert m <= n;
  }

  /** Text without whitespace at either end is its own trim. */
  lemma TrimOfTrimmed(s: string)
    requires Trimmed(s)
    ensures Trim(s) == s
  {
    assert TrimStart(s) == s;
    assert TrimEnd(s) == s;
  }

  /** `trim` is idempotent. */
  lemma TrimIdempotent(s: string)
    ensures Trim(Trim(s)) == Trim(s)
  {
    TrimOfTrimmed(Trim(s));
  }

  /** The whitespace-free characters of `s`, in order. */
  function NonSpace(s: string): string {
    Seqs.Filter(s, (c: char) => !IsSpace(c))
  }

  lemma {:induction false} NonSpaceOfSpaces(a: string, b: string)
    requires forall i :: 0 <= i < |a| ==> IsSpace(a[i])
    ensures NonSpace(a + b) == NonSpace(b)
    decreases |a|
  {
    if a != [] {
      assert (a + b)[1..] == a[1..] + b;
      NonSpaceOfSpaces(a[1..], b);
    } else {
      assert a + b == b;
    }
  }

  lemma {:induction false} NonSpaceAppend(a: string, b: string)
    ensures NonSpace(a + b) == NonSpace(a) + NonSpace(b)
    decreases |a|
  {
    if a == [] {
      assert a + b == b;
    } else {
      assert (a + b)[1..] == a[1..] + b;
      NonSpaceAppend(a[1..], b);
    }
  }

  lemma {:induction false} NonSpaceEmpty(a: string)
    requires forall i :: 0 <= i < |a| ==> IsSpace(a[i])
    ensures NonSpace(a) == []
    decreases |a|
  {
    if a != [] {
      NonSpaceEmpty(a[1..]);
    }
  }

  /** Leading whitespace contributes nothing. */
  lemma {:induction false} NonSpaceDropFront(s: string, i: nat)
    requires i <= |s| && forall k :: 0 <= k < i ==> IsSpace(s[k])
    ensures NonSpace(s[i..]) == NonSpace(s)
    decreases i
  {
    if i > 0 {
      assert s[1..][i - 1..] == s[i..];
      NonSpaceDropFront(s[1..], i - 1);
    }
  }

  /** Trailing whitespace contributes nothing. */
  lemma NonSpaceDropBack(s: string, n: nat)
    requires n <= |s| && forall k :: n <= k < |s| ==> IsSpace(s[k])
    ensures NonSpace(s[..n]) == NonSpace(s)
  {
    var b := s[n..];
    assert forall k :: 0 <= k < |b| ==> IsSpace(b[k]) by {
      forall k | 0 <= k < |b| ensures IsSpace(b[k]) {
        assert b[k] == s[n + k];
      }
    }
    NonSpaceEmpty(b);
    assert s == s[..n] + b;
    NonSpaceAppend(s[..n], b);
  }

  /** Whitespace outside `s[i..n]` contributes nothing. */
  lemma NonSpaceInner(s: string, i: nat, n: nat)
    requires i <= n <= |s|
    requires forall k :: 0 <= k < i ==> IsSpace(s[k])
    requires forall k :: n <= k < |s| ==> IsSpace(s[k])
    ensures NonSpace(s[i..n]) == NonSpace(s)
  {
    var t := s[i..];
    NonSpaceDropFront(s, i);
    assert t[..n - i] == s[i..n];
    assert forall k :: n - i <= k < |t| ==> IsSpace(t[k]) by {
      forall k | n - i <= k < |t| ensures IsSpace(t[k]) {
        assert t[k] == s[i + k];
      }
    }
    NonSpaceDropBack(t, n - i);
  }

  /** `trim` removes whitespace only. */
  lemma TrimKeepsText(s: string)
    ensures NonSpace(Trim(s)) == NonSpace(s)
  {
    var i, n := TrimSpan(s);
    NonSpaceInner(s, i, n);
  }

  /** `s.replace(/\s+/g, ' ')`: every maximal run of whitespace becomes one
      space; the other characters are kept in order (`CollapseKeepsText`). */
  function Collapse(s: string): (r: string)
    ensures |r| <= |s|
    ensures r == [] <==> s == []
    ensures forall i :: 0 <= i < |r| && IsSpace(r[i]) ==> r[i] == ' '
    ensures forall i :: 0 <= i < |r| - 1 ==> !(IsSpace(r[i]) && IsSpace(r[i + 1]))
    ensures s != [] ==> (IsSpace(r[0]) <==> IsSpace(s[0]))
    ensures s != [] ==> (IsSpace(r[|r| - 1]) <==> IsSpace(s[|s| - 1]))
    decreases |s|
  {
    if s == [] then []
    else if IsSpace(s[0]) then
      var t := TrimStart(s);
      assert |t| < |s|;
      [' '] + Collapse(t)
    else
      [s[0]] + Collapse(s[1..])
  }

  lemma {:induction false} CollapseKeepsText(s: string)
    ensures NonSpace(Collapse(s)) == NonSpace(s)
    decreases |s|
  {
    if s != [] {
      if IsSpace(s[0]) {
        var t := TrimStart(s);
        assert |t| < |s|;
        CollapseKeepsText(t);
        assert s == s[..|s| - |t|] + t;
        NonSpaceOfSpaces(s[..|s| - |t|], t);
        NonSpaceOfSpaces([' '], Collapse(t));
      } else {
        CollapseKeepsText(s[1..]);
        var rest := Collapse(s[1..]);
        assert Collapse(s) == [s[0]] + rest;
        assert ([s[0]] + rest)[1..] == rest;
      }
    }
  }

  /** Every character is whitespace. */
  predicate AllSpace(w: string) {
    forall i :: 0 <= i < |w| ==> IsSpace(w[i])
  }

  /** Leading whitespace in front of a non-whitespace start is all that
      `TrimStart` removes. */
  lemma {:induction false} TrimStartSkips(w: string, b: string)
    requires AllSpace(w)
    requires b == [] || !IsSpace(b[0])
    ensures TrimStart(w + b) == b
    decreases |w|
  {
    if w == [] {
      assert w + b == b;
    } else {
      assert (w + b)[1..] == w[1..] + b;
      TrimStartSkips(w[1..], b);
    }
  }

  /** What follows the leading whitespace is untouched by `TrimStart`. */
  lemma {:induction false} TrimStartAppend(a: string, b: string)
    requires TrimStart(a) != []
    ensures TrimStart(a + b) == TrimStart(a) + b
    decreases |a|
  {
    assert (a + b)[0] == a[0];
    if IsSpace(a[0]) {
      assert (a + b)[1..] == a[1..] + b;
      TrimStartAppend(a[1..], b);
    }
  }

  /** Collapsing splits after a non-whitespace character: the runs on either
      side of that point are collapsed separately. */
  lemma {:induction false} CollapseAppend(a: string, b: string)
    requires a == [] || !IsSpace(a[|a| - 1])
    ensures Collapse(a + b) == Collapse(a) + Collapse(b)
    decreases |a|
  {
    if a == [] {
      assert a + b == b;
    } else if !IsSpace(a[0]) {
      var tail := a[1..];
      assert (a + b)[1..] == tail + b;
      CollapseAppend(tail, b);
      assert Collapse(a + b) == [a[0]] + Collapse(tail + b);
      SeqAssoc([a[0]], Collapse(tail), Collapse(b));
    } else {
      var t := TrimStart(a);
      assert t != [] && t[|t| - 1] == a[|a| - 1] by { assert !IsSpace(a[|a| - 1]); }
      assert TrimStart(a + b) == t + b by { TrimStartAppend(a, b); }
      CollapseAppend(t, b);
      assert Collapse(a + b) == [' '] + Collapse(t + b) by { assert (a + b)[0] == a[0]; }
      SeqAssoc([' '], Collapse(t), Collapse(b));
    }
  }

  /** A run of whitespace in front of a non-whitespace start becomes one space. */
  lemma CollapseSpaces(w: string, b: string)
    requires w != [] && AllSpace(w)
    requires b == [] || !IsSpace(b[0])
    ensures Collapse(w + b) == [' '] + Collapse(b)
  {
    TrimStartSkips(w, b);
  }

  /**
   * Where the spaces go: a maximal whitespace run `w` between `a` and `b`
   * becomes exactly one space at that place, and each side is collapsed on
   * its own (`'a \n b'` gives `'a b'`).
   */
  lemma CollapseSplit(a: string, w: string, b: string)
    requires a == [] || !IsSpace(a[|a| - 1])
    requires w != [] && AllSpace(w)
    requires b == [] || !IsSpace(b[0])
    ensures Collapse(a + w + b) == Collapse(a) + " " + Collapse(b)
  {
    var wb := w + b;
    var ca, cb := Collapse(a), Collapse(b);
    assert Collapse(wb) == [' '] + cb by { CollapseSpaces(w, b); }
    assert Collapse(a + wb) == ca + ([' '] + cb) by { CollapseAppend(a, wb); }
    SeqAssoc(a, w, b);
    SeqAssoc(ca, " ", cb);
  }

  lemma SeqAssoc(x: string, y: string, z: string)
    ensures x + y + z == x + (y + z)
  {
  }

  /** Text without whitespace is left as it is. */
  lemma {:induction false} CollapseWord(s: string)
    requires forall i :: 0 <= i < |s| ==> !IsSpace(s[i])
    ensures Collapse(s) == s
    decreases |s|
  {
    if s != [] {
      CollapseWord(s[1..]);
    }
  }

  /** `s.split(/\s+/)[0]`: the text before the first whitespace character. */
  function FirstToken(s: string): (r: string)
    ensures |r| <= |s| && r == s[..|r|]
    ensures forall i :: 0 <= i < |r| ==> !IsSpace(r[i])
    ensures |r| < |s| ==> IsSpace(s[|r|])
    decreases |s|
  {
    if s == [] || IsSpace(s[0]) then [] else [s[0]] + FirstToken(s[1..])
  }

  /** A whitespace-free prefix that stops at whitespace or the end is the
      first token. */
  lemma {:induction false} FirstTokenUnique(s: string, k: nat)
    requires k <= |s|
    requires forall i :: 0 <= i < k ==> !IsSpace(s[i])
    requires k == |s| || IsSpace(s[k])
    ensures FirstToken(s) == s[..k]
    decreases k
  {
    if k > 0 {
      FirstTokenUnique(s[1..], k - 1);
      assert s[..k] == [s[0]] + s[1..][..k - 1];
    }
  }

  /** Some character of `s` is not whitespace. */
  predicate HasText(s: string) {
    exists i :: 0 <= i < |s| && !IsSpace(s[i])
  }

  /** `r` is `s` cleaned up: non-empty, no whitespace at either end, every
      whitespace character a plain space, no two in a row, and the same
      non-whitespace characters as `s` in the same order. */
  predicate Tidied(r: string, s: string) {
    && r != ""
    && !IsSpace(r[0]) && !IsSpace(r[|r| - 1])
    && (forall i :: 0 <= i < |r| && IsSpace(r[i]) ==> r[i] == ' ')
    && (forall i :: 0 <= i < |r| - 1 ==> !(IsSpace(r[i]) && IsSpace(r[i + 1])))
    && NonSpace(r) == NonSpace(s)
  }

  /** `s.trim().replace(/\s+/g, ' ')`: empty when `s` is all whitespace,
      otherwise `s` cleaned up. */
  function Tidy(s: string): (r: string)
    ensures !HasText(s) ==> r == ""
    ensures HasText(s) ==> Tidied(r, s)
  {
    var t := Trim(s);
    assert NonSpace(Collapse(t)) == NonSpace(s) by {
      CollapseKeepsText(t);
      TrimKeepsText(s);
    }
    Collapse(t)
  }

  /** Whitespace around the text changes nothing: `tidy` of `w1 + s + w2`
      is `tidy` of `s` when `w1` and `w2` are whitespace. */
  lemma TidyEdges(w1: string, s: string, w2: string)
    requires AllSpace(w1) && AllSpace(w2)
    ensures Tidy(w1 + s + w2) == Tidy(s)
  {
    TrimEdges(w1, s, w2);
  }

  /** `trim` of `w1 + s + w2` is `trim` of `s` when `w1` and `w2` are
      whitespace. */
  lemma TrimEdges(w1: string, s: string, w2: string)
    requires AllSpace(w1) && AllSpace(w2)
    ensures Trim(w1 + s + w2) == Trim(s)
  {
    var y := s + w2;
    assert w1 + s + w2 == w1 + y;
    TrimStartSpaces(w1, y);
    if TrimStart(s) != [] {
      TrimStartAppend(s, w2);
      TrimEndSpaces(TrimStart(s), w2);
    } else {
      assert AllSpace(s);
      TrimStartSpaces(s, w2);
      TrimStartSpaces(w2, []);
      assert w2 + [] == w2;
    }
  }

  /** Whitespace in front changes nothing once leading whitespace is cut. */
  lemma {:induction false} TrimStartSpaces(w: string, y: string)
    requires AllSpace(w)
    ensures TrimStart(w + y) == TrimStart(y)
    decreases |w|
  {
    if w == [] {
      assert w + y == y;
    } else {
      assert (w + y)[1..] == w[1..] + y;
      TrimStartSpaces(w[1..], y);
    }
  }

  /** Whitespace behind changes nothing once trailing whitespace is cut. */
  lemma {:induction false} TrimEndSpaces(y: string, w: string)
    requires AllSpace(w)
    ensures TrimEnd(y + w) == TrimEnd(y)
    decreases |w|
  {
    if w == [] {
      assert y + w == y;
    } else {
      var v := w[..|w| - 1];
      assert (y + w)[..|y + w| - 1] == y + v;
      TrimEndSpaces(y, v);
    }
  }

  /** Between two trimmed, non-empty texts a whitespace run becomes one
      space, and nothing else moves. */
  lemma TidySplit(a: string, w: string, b: string)
    requires a != [] && Trimmed(a) && b != [] && Trimmed(b)
    requires w != [] && AllSpace(w)
    ensures Tidy(a + w + b) == Tidy(a) + " " + Tidy(b)
  {
    var x := a + w + b;
    assert x[0] == a[0] && x[|x| - 1] == b[|b| - 1];
    TrimOfTrimmed(x);
    TrimOfTrimmed(a);
    TrimOfTrimmed(b);
    CollapseSplit(a, w, b);
  }

  /** A word without whitespace is its own tidy form. */
  lemma TidyWord(s: string)
    requires forall i :: 0 <= i < |s| ==> !IsSpace(s[i])
    ensures Tidy(s) == s
  {
    if s != [] { TrimOfTrimmed(s); }
    CollapseWord(s);
  }

  /** Two words with whitespace around and between them come out as the
      words joined by one space (`' a \n b '` gives `'a b'`). */
  lemma TidyTwoWords(w0: string, a: string, w: string, b: string, w2: string)
    requires AllSpace(w0) && AllSpace(w2)
    requires w != [] && AllSpace(w)
    requires a != [] && forall i :: 0 <= i < |a| ==> !IsSpace(a[i])
    requires b != [] && forall i :: 0 <= i < |b| ==> !IsSpace(b[i])
    ensures Tidy(w0 + a + w + b + w2) == a + " " + b
  {
    var mid := a + w + b;
    assert w0 + a + w + b + w2 == w0 + mid + w2;
    TidyEdges(w0, mid, w2);
    TidySplit(a, w, b);
    TidyWord(a);
    TidyWord(b);
  }
}
