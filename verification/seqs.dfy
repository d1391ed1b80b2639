/** Optional values: the model's stand-in for JavaScript's `null`/`undefined`. */
module Wrappers {
  datatype Option<+T> = None | Some(value: T)
}

/**
 * Sequence helpers shared by the crawler model: order-preserving filtering,
 * duplicate removal with first-occurrence-wins (the semantics of a JavaScript
 * `Set` or `Map` built by insertion), and the subsequence relation used to
 * state that an operation preserves document order.
 */
module Seqs {
  import opened Wrappers

  /** `a` can be obtained from `b` by deleting elements (order is preserved). */
  predicate Subseq<T(==)>(a: seq<T>, b: seq<T>)
    decreases |b|
  {
    if a == [] then true
    else if b == [] then false
    else if a[0] == b[0] then Subseq(a[1..], b[1..])
    else Subseq(a, b[1..])
  }

  lemma {:induction false} SubseqRefl<T>(a: seq<T>)
    ensures Subseq(a, a)
    decreases |a|
  {
    if a != [] {
      SubseqRefl(a[1..]);
    }
  }

  lemma {:induction false} SubseqMembership<T>(a: seq<T>, b: seq<T>)
    requires Subseq(a, b)
    ensures forall x :: x in a ==> x in b
    decreases |b|
  {
    if a != [] && b != [] {
      if a[0] == b[0] {
        SubseqMembership(a[1..], b[1..]);
        assert forall x :: x in a ==> x == a[0] || x in a[1..];
      } else {
        SubseqMembership(a, b[1..]);
      }
    }
  }

  lemma {:induction false} SubseqLength<T>(a: seq<T>, b: seq<T>)
    requires Subseq(a, b)
    ensures |a| <= |b|
    decreases |b|
  {
    if a != [] && b != [] {
      if a[0] == b[0] {
        SubseqLength(a[1..], b[1..]);
      } else {
        SubseqLength(a, b[1..]);
      }
    }
  }

  /** No element occurs twice. */
  predicate Distinct<T(==)>(s: seq<T>) {
    forall i, j :: 0 <= i < j < |s| ==> s[i] != s[j]
  }

  /** `Array.prototype.map`. */
  function Map<T, U>(s: seq<T>, f: T -> U): (r: seq<U>)
    ensures |r| == |s|
    ensures forall i :: 0 <= i < |s| ==> r[i] == f(s[i])
  {
    seq(|s|, i requires 0 <= i < |s| => f(s[i]))
  }

  /** Mapping a non-empty sequence maps its head, then its tail. */
  lemma MapTail<T, U>(s: seq<T>, f: T -> U)
    requires s != []
    ensures Map(s, f) == [f(s[0])] + Map(s[1..], f)
  {
    assert Map(s, f)[1..] == Map(s[1..], f);
  }

  /** Mapping yields exactly the images of the elements. */
  lemma MapMember<T, U>(s: seq<T>, f: T -> U, y: U)
    ensures y in Map(s, f) <==> exists x :: x in s && f(x) == y
  {
    if y in Map(s, f) {
      var i :| 0 <= i < |s| && Map(s, f)[i] == y;
      assert s[i] in s;
    }
    if exists x :: x in s && f(x) == y {
      var x :| x in s && f(x) == y;
      var i :| 0 <= i < |s| && s[i] == x;
      assert Map(s, f)[i] == y;
    }
  }

  /** `Array.prototype.filter`: keeps exactly the elements satisfying `p`, in order. */
  function Filter<T(==,!new)>(s: seq<T>, p: T -> bool): (r: seq<T>)
    ensures forall x :: x in r <==> x in s && p(x)
    ensures Subseq(r, s)
    ensures |r| <= |s|
    decreases |s|
  {
    if s == [] then []
    else if p(s[0]) then [s[0]] + Filter(s[1..], p)
    else Filter(s[1..], p)
  }

  lemma {:induction false} FilterAppend<T(!new)>(a: seq<T>, b: seq<T>, p: T -> bool)
    ensures Filter(a + b, p) == Filter(a, p) + Filter(b, p)
    decreases |a|
  {
    if a != [] {
      assert (a + b)[0] == a[0];
      assert (a + b)[1..] == a[1..] + b;
      FilterAppend(a[1..], b, p);
      if p(a[0]) {
        assert Filter(a + b, p) == [a[0]] + Filter(a[1..] + b, p);
      }
    } else {
      assert a + b == b;
    }
  }

  /** Filtering removes an element the predicate rejects, wherever it stands. */
  lemma FilterSkips<T(!new)>(a: seq<T>, b: seq<T>, x: T, p: T -> bool)
    requires !p(x)
    ensures Filter(a + [x] + b, p) == Filter(a + b, p)
  {
    assert Filter([x], p) == [] by { assert [x][1..] == []; }
    calc {
      Filter(a + [x] + b, p);
      { FilterAppend(a + [x], b, p); }
      Filter(a + [x], p) + Filter(b, p);
      { FilterAppend(a, [x], p); }
      Filter(a, p) + Filter([x], p) + Filter(b, p);
      Filter(a, p) + Filter(b, p);
      { FilterAppend(a, b, p); }
      Filter(a + b, p);
    }
  }

  /** Filtering keeps everything when every element satisfies the predicate. */
  lemma {:induction false} FilterAll<T(!new)>(s: seq<T>, p: T -> bool)
    requires forall x :: x in s ==> p(x)
    ensures Filter(s, p) == s
    decreases |s|
  {
    if s != [] {
      FilterAll(s[1..], p);
    }
  }

  /** Sequence concatenation of a sequence of sequences (`Array.prototype.flat`). */
  function Flatten<T>(ss: seq<seq<T>>): (r: seq<T>)
    ensures |ss| == 0 ==> r == []
    decreases |ss|
  {
    if ss == [] then [] else ss[0] + Flatten(ss[1..])
  }

  /** Flattening keeps exactly the elements of the parts. */
  lemma {:induction false} FlattenMember<T>(ss: seq<seq<T>>, x: T)
    ensures x in Flatten(ss) <==> exists i :: 0 <= i < |ss| && x in ss[i]
    decreases |ss|
  {
    if ss != [] {
      FlattenMember(ss[1..], x);
      if exists i :: 0 <= i < |ss| && x in ss[i] {
        var i :| 0 <= i < |ss| && x in ss[i];
        if i > 0 { assert x in ss[1..][i - 1]; }
      }
      if exists i :: 0 <= i < |ss[1..]| && x in ss[1..][i] {
        var i :| 0 <= i < |ss[1..]| && x in ss[1..][i];
        assert x in ss[i + 1];
      }
    }
  }

  /** Flattening the images of `ks` keeps exactly the members of the images. */
  lemma FlattenMap<T, U>(ks: seq<T>, f: T -> seq<U>, x: U)
    ensures x in Flatten(Map(ks, f)) <==> exists k :: k in ks && x in f(k)
  {
    var parts := Map(ks, f);
    FlattenMember(parts, x);
    if exists i :: 0 <= i < |parts| && x in parts[i] {
      var i :| 0 <= i < |parts| && x in parts[i];
      assert ks[i] in ks;
    }
    if exists k :: k in ks && x in f(k) {
      var k :| k in ks && x in f(k);
      var i :| 0 <= i < |ks| && ks[i] == k;
      assert x in parts[i];
    }
  }

  /** The three parts of a concatenation sit in order and keep their members. */
  lemma Concat3<T>(a: seq<T>, b: seq<T>, c: seq<T>)
    ensures var r := a + b + c;
            && r[..|a|] == a && r[|a|..|a| + |b|] == b && r[|a| + |b|..] == c
            && forall x :: x in r <==> x in a || x in b || x in c
  {
  }

  /** The combined length of the parts. */
  function TotalLength<T>(ss: seq<seq<T>>): nat
    decreases |ss|
  {
    if ss == [] then 0 else |ss[0]| + TotalLength(ss[1..])
  }

  /** Part `i` of a flattened sequence occupies the block right after the
      parts before it, so the parts keep their order and their multiplicity. */
  lemma {:induction false} FlattenBlocks<T>(ss: seq<seq<T>>)
    ensures |Flatten(ss)| == TotalLength(ss)
    ensures forall i :: 0 <= i < |ss| ==>
              var o := TotalLength(ss[..i]);
              o + |ss[i]| <= |Flatten(ss)| && Flatten(ss)[o..o + |ss[i]|] == ss[i]
    decreases |ss|
  {
    if ss != [] {
      var t := Flatten(ss[1..]);
      FlattenBlocks(ss[1..]);
      assert Flatten(ss) == ss[0] + t;
      forall i | 0 <= i < |ss|
        ensures var o := TotalLength(ss[..i]);
                o + |ss[i]| <= |Flatten(ss)| && Flatten(ss)[o..o + |ss[i]|] == ss[i]
      {
        if i == 0 {
          assert ss[..0] == [];
          assert (ss[0] + t)[0..|ss[0]|] == ss[0];
        } else {
          var o' := TotalLength(ss[1..][..i - 1]);
          assert ss[1..][i - 1] == ss[i];
          assert ss[..i][1..] == ss[1..][..i - 1];
          assert TotalLength(ss[..i]) == |ss[0]| + o';
          assert (ss[0] + t)[|ss[0]| + o'..|ss[0]| + o' + |ss[i]|] == t[o'..o' + |ss[i]|];
        }
      }
    }
  }

  /** Keeping the present values of `g`'s images, when `g` yields `Some(h(x))`
      exactly for the `x` that satisfy `p`, is mapping `h` over the elements
      `p` keeps. */
  lemma {:induction false} SomesOfMap<T(!new), U(!new)>(s: seq<T>, g: T -> Option<U>, p: T -> bool, h: T -> U)
    requires forall x :: g(x) == (if p(x) then Some(h(x)) else None)
    ensures Somes(Map(s, g)) == Map(Filter(s, p), h)
    decreases |s|
  {
    if s != [] {
      MapTail(s, g);
      assert Map(s, g)[1..] == Map(s[1..], g);
      SomesOfMap(s[1..], g, p, h);
      if p(s[0]) {
        MapTail(Filter(s, p), h);
        assert Filter(s, p)[1..] == Filter(s[1..], p);
      }
    }
  }

  /** The present values, in order (`.filter(Boolean)` after an optional step). */
  function Somes<T(!new)>(s: seq<Option<T>>): (r: seq<T>)
    ensures |r| <= |s|
    ensures forall x :: x in r <==> Some(x) in s
    decreases |s|
  {
    if s == [] then []
    else match s[0]
      case Some(x) => [x] + Somes(s[1..])
      case None => Somes(s[1..])
  }

  /** The position of the first occurrence of `x` in `s` (`|s|` when absent). */
  function FirstIndex<T(==)>(s: seq<T>, x: T): (i: nat)
    ensures i <= |s|
    decreases |s|
  {
    if s == [] || s[0] == x then 0 else 1 + FirstIndex(s[1..], x)
  }

  /**
   * `[...new Set(s)]`: the first occurrence of every value, in order, where
   * `seen` holds the values already inserted.
   */
  function UniqueFrom<T(==,!new)>(s: seq<T>, seen: set<T>): (r: seq<T>)
    ensures Distinct(r)
    ensures Subseq(r, s)
    ensures forall x :: x in r <==> x in s && x !in seen
    ensures forall i, j :: 0 <= i < j < |r| ==> FirstIndex(s, r[i]) < FirstIndex(s, r[j])
    decreases |s|
  {
    if s == [] then []
    else if s[0] in seen then UniqueFrom(s[1..], seen)
    else [s[0]] + UniqueFrom(s[1..], seen + {s[0]})
  }

  /** `[...new Set(s)]`: every value once, ordered by where it first occurs. */
  function Unique<T(==,!new)>(s: seq<T>): (r: seq<T>)
    ensures Distinct(r)
    ensures Subseq(r, s)
    ensures forall x :: x in r <==> x in s
    ensures forall i, j :: 0 <= i < j < |r| ==> FirstIndex(s, r[i]) < FirstIndex(s, r[j])
  {
    UniqueFrom(s, {})
  }

  /** The position of the first element of `s` whose key is `k` (`|s|` when
      there is none). */
  function KeyIndex<T>(s: seq<T>, key: T -> string, k: string): (i: nat)
    ensures i <= |s|
    decreases |s|
  {
    if s == [] || key(s[0]) == k then 0 else 1 + KeyIndex(s[1..], key, k)
  }

  /**
   * Dedup through a `Map` keyed by `key`, keeping the first element per key
   * and skipping elements whose key is empty; `seen` holds the keys inserted
   * so far.
   */
  function DedupFrom<T(==)>(s: seq<T>, key: T -> string, seen: set<string>): (r: seq<T>)
    ensures Subseq(r, s)
    ensures forall i :: 0 <= i < |r| ==> key(r[i]) != "" && key(r[i]) !in seen
    ensures forall i, j :: 0 <= i < j < |r| ==> key(r[i]) != key(r[j])
    ensures forall i :: (0 <= i < |s| && key(s[i]) != "" && key(s[i]) !in seen
                         && FirstWithKey(s, key, i)) ==> s[i] in r
    ensures forall i, j :: 0 <= i < j < |r| ==> KeyIndex(s, key, key(r[i])) < KeyIndex(s, key, key(r[j]))
    decreases |s|
  {
    if s == [] then []
    else if key(s[0]) != "" && key(s[0]) !in seen then
      var rest := DedupFrom(s[1..], key, seen + {key(s[0])});
      SubseqMembership(rest, s[1..]);
      FirstShift(s, key);
      [s[0]] + rest
    else
      FirstShift(s, key);
      DedupFrom(s[1..], key, seen)
  }

  /** No element before position `i` has the key of `s[i]`. */
  predicate FirstWithKey<T>(s: seq<T>, key: T -> string, i: int)
    requires 0 <= i < |s|
  {
    forall k :: 0 <= k < i ==> key(s[k]) != key(s[i])
  }

  lemma FirstShift<T>(s: seq<T>, key: T -> string)
    requires s != []
    ensures forall i :: 1 <= i < |s| && FirstWithKey(s, key, i) ==>
              FirstWithKey(s[1..], key, i - 1) && key(s[i]) != key(s[0])
  {
    forall i | 1 <= i < |s| && FirstWithKey(s, key, i)
      ensures FirstWithKey(s[1..], key, i - 1) && key(s[i]) != key(s[0])
    {
      assert key(s[0]) != key(s[i]);
      forall k | 0 <= k < i - 1
        ensures key(s[1..][k]) != key(s[1..][i - 1])
      {
        assert s[1..][k] == s[k + 1];
      }
    }
  }

  /**
   * Dedup by key with first occurrence wins: the result keeps document order,
   * has pairwise-distinct non-empty keys, and keeps every element that is the
   * first one carrying its (non-empty) key, ordered by where each key first
   * occurs (a `Map` iterates in insertion order).
   */
  function DedupBy<T(==)>(s: seq<T>, key: T -> string): (r: seq<T>)
    ensures Subseq(r, s)
    ensures forall i :: 0 <= i < |r| ==> key(r[i]) != ""
    ensures forall i, j :: 0 <= i < j < |r| ==> key(r[i]) != key(r[j])
    ensures forall i :: 0 <= i < |s| && key(s[i]) != "" && FirstWithKey(s, key, i) ==> s[i] in r
    ensures forall i, j :: 0 <= i < j < |r| ==> KeyIndex(s, key, key(r[i])) < KeyIndex(s, key, key(r[j]))
  {
    DedupFrom(s, key, {})
  }

  /** When some element has key `k`, `KeyIndex` finds the first of them. */
  lemma {:induction false} KeyIndexFinds<T>(s: seq<T>, key: T -> string, i: nat)
    requires i < |s|
    ensures KeyIndex(s, key, key(s[i])) <= i
    ensures key(s[KeyIndex(s, key, key(s[i]))]) == key(s[i])
    ensures FirstWithKey(s, key, KeyIndex(s, key, key(s[i])))
    decreases i
  {
    if key(s[0]) != key(s[i]) {
      KeyIndexFinds(s[1..], key, i - 1);
      var j := KeyIndex(s[1..], key, key(s[i]));
      assert s[1..][j] == s[j + 1];
      forall m | 0 <= m < j + 1 ensures key(s[m]) != key(s[j + 1]) {
        if m > 0 { assert s[1..][m - 1] == s[m]; }
      }
    }
  }

  /** Dedup by key loses no key: every non-empty key of the input is the key
      of some kept element. */
  lemma DedupCovers<T>(s: seq<T>, key: T -> string, i: nat)
    requires i < |s| && key(s[i]) != ""
    ensures exists x :: x in DedupBy(s, key) && key(x) == key(s[i])
  {
    KeyIndexFinds(s, key, i);
    var j := KeyIndex(s, key, key(s[i]));
    assert s[j] in DedupBy(s, key);
  }

  /** Every kept element is the first element of the input carrying its key. */
  lemma DedupKeepsFirst<T>(s: seq<T>, key: T -> string, i: int, x: T)
    requires 0 <= i < |s| && key(s[i]) != "" && FirstWithKey(s, key, i)
    requires x in DedupBy(s, key) && key(x) == key(s[i])
    ensures x == s[i]
  {
    var r := DedupBy(s, key);
    assert s[i] in r;
    var a :| 0 <= a < |r| && r[a] == x;
    var b :| 0 <= b < |r| && r[b] == s[i];
    assert key(r[a]) == key(r[b]);
  }
}
