/**
 * The `reduce((a, r) => (a[k(r)] = (a[k(r)] || 0) + 1, a), {})` tallies of
 * both scripts. A JavaScript object keeps its (non-numeric) string keys in
 * insertion order, so a tally is an association list in order of first
 * appearance.
 */
module Counts {
  import Seqs

  function Keys<K>(c: seq<(K, nat)>): (r: seq<K>)
    ensures |r| == |c| && forall i :: 0 <= i < |c| ==> r[i] == c[i].0
  {
    Seqs.Map(c, (e: (K, nat)) => e.0)
  }

  /** `a[k] || 0`. */
  function Lookup<K(==)>(c: seq<(K, nat)>, k: K): nat
    decreases |c|
  {
    if c == [] then 0
    else if c[0].0 == k then c[0].1
    else Lookup(c[1..], k)
  }

  /** The sum of the counts. */
  function Total<K>(c: seq<(K, nat)>): nat
    decreases |c|
  {
    if c == [] then 0 else c[0].1 + Total(c[1..])
  }

  /** `a[k] = (a[k] || 0) + 1`: an existing key is bumped in place, a new one
      is appended with count 1. */
  function Bump<K(==)>(c: seq<(K, nat)>, k: K): (r: seq<(K, nat)>)
    ensures |r| == |c| || |r| == |c| + 1
    decreases |c|
  {
    if c == [] then [(k, 1)]
    else if c[0].0 == k then [(k, c[0].1 + 1)] + c[1..]
    else [c[0]] + Bump(c[1..], k)
  }

  /** The `reduce` from an accumulator. */
  function TallyFrom<K(==)>(acc: seq<(K, nat)>, s: seq<K>): seq<(K, nat)>
    decreases |s|
  {
    if s == [] then acc else TallyFrom(Bump(acc, s[0]), s[1..])
  }

  /** The count object of `s`, starting from `{}`. */
  function Tally<K(==)>(s: seq<K>): seq<(K, nat)> {
    TallyFrom([], s)
  }

  /** How often `k` occurs in `s`. */
  function Occ<K(==)>(s: seq<K>, k: K): nat
    decreases |s|
  {
    if s == [] then 0 else (if s[0] == k then 1 else 0) + Occ(s[1..], k)
  }

  lemma {:induction false} BumpKeys<K>(c: seq<(K, nat)>, k: K)
    ensures Keys(Bump(c, k)) == if k in Keys(c) then Keys(c) else Keys(c) + [k]
    decreases |c|
  {
    if c != [] && c[0].0 != k {
      BumpKeys(c[1..], k);
      assert Keys(c) == [c[0].0] + Keys(c[1..]);
      assert Keys(Bump(c, k)) == [c[0].0] + Keys(Bump(c[1..], k));
    } else if c != [] {
      assert Keys(Bump(c, k)) == Keys(c);
    }
  }

  lemma {:induction false} BumpCounts<K>(c: seq<(K, nat)>, k: K)
    ensures Lookup(Bump(c, k), k) == Lookup(c, k) + 1
    ensures forall j :: j != k ==> Lookup(Bump(c, k), j) == Lookup(c, j)
    ensures Total(Bump(c, k)) == Total(c) + 1
    decreases |c|
  {
    if c != [] && c[0].0 != k {
      BumpCounts(c[1..], k);
    }
  }

  /** `a[k] = (a[k] || 0) + 1` adds one to `k`'s count and to the total,
      leaves every other count alone, and appends `k` to the keys when it is
      new. */
  lemma BumpSpec<K>(c: seq<(K, nat)>, k: K)
    ensures Lookup(Bump(c, k), k) == Lookup(c, k) + 1
    ensures forall j :: j != k ==> Lookup(Bump(c, k), j) == Lookup(c, j)
    ensures Total(Bump(c, k)) == Total(c) + 1
    ensures Keys(Bump(c, k)) == if k in Keys(c) then Keys(c) else Keys(c) + [k]
  {
    BumpKeys(c, k);
    BumpCounts(c, k);
  }

  lemma {:induction false} BumpPositive<K>(c: seq<(K, nat)>, k: K)
    requires forall i :: 0 <= i < |c| ==> c[i].1 >= 1
    ensures forall i :: 0 <= i < |Bump(c, k)| ==> Bump(c, k)[i].1 >= 1
    decreases |c|
  {
    if c != [] && c[0].0 != k {
      BumpPositive(c[1..], k);
    }
  }

  lemma {:induction false} TallyFromLookup<K>(acc: seq<(K, nat)>, s: seq<K>, k: K)
    ensures Lookup(TallyFrom(acc, s), k) == Lookup(acc, k) + Occ(s, k)
    decreases |s|
  {
    if s != [] {
      BumpCounts(acc, s[0]);
      TallyFromLookup(Bump(acc, s[0]), s[1..], k);
    }
  }

  lemma {:induction false} TallyFromTotal<K>(acc: seq<(K, nat)>, s: seq<K>)
    ensures Total(TallyFrom(acc, s)) == Total(acc) + |s|
    decreases |s|
  {
    if s != [] {
      BumpCounts(acc, s[0]);
      TallyFromTotal(Bump(acc, s[0]), s[1..]);
    }
  }

  lemma {:induction false} TallyFromPositive<K>(acc: seq<(K, nat)>, s: seq<K>)
    requires forall i :: 0 <= i < |acc| ==> acc[i].1 >= 1
    ensures forall i :: 0 <= i < |TallyFrom(acc, s)| ==> TallyFrom(acc, s)[i].1 >= 1
    decreases |s|
  {
    if s != [] {
      BumpPositive(acc, s[0]);
      TallyFromPositive(Bump(acc, s[0]), s[1..]);
    }
  }

  lemma {:induction false} TallyFromKeys<K(!new)>(acc: seq<(K, nat)>, s: seq<K>, seen: set<K>)
    requires forall k :: k in seen <==> k in Keys(acc)
    ensures Keys(TallyFrom(acc, s)) == Keys(acc) + Seqs.UniqueFrom(s, seen)
    decreases |s|, 1
  {
    if s != [] {
      if s[0] in seen {
        TallyKeysOld(acc, s, seen);
      } else {
        TallyKeysNew(acc, s, seen);
      }
    }
  }

  /** A value already counted keeps the keys as they are. */
  lemma {:induction false} TallyKeysOld<K(!new)>(acc: seq<(K, nat)>, s: seq<K>, seen: set<K>)
    requires s != [] && s[0] in seen
    requires forall k :: k in seen <==> k in Keys(acc)
    ensures Keys(TallyFrom(acc, s)) == Keys(acc) + Seqs.UniqueFrom(s, seen)
    decreases |s|, 0
  {
    BumpKeys(acc, s[0]);
    TallyFromKeys(Bump(acc, s[0]), s[1..], seen);
  }

  lemma AppendAssoc<K>(a: seq<K>, b: seq<K>, c: seq<K>)
    ensures (a + b) + c == a + (b + c)
  {
  }

  lemma KeysGrow<K>(keys: seq<K>, seen: set<K>, x: K)
    requires forall k :: k in seen <==> k in keys
    ensures forall k :: k in seen + {x} <==> k in keys + [x]
  {
  }

  /** A new value is appended to the keys. */
  lemma {:induction false} TallyKeysNew<K(!new)>(acc: seq<(K, nat)>, s: seq<K>, seen: set<K>)
    requires s != [] && s[0] !in seen
    requires forall k :: k in seen <==> k in Keys(acc)
    ensures Keys(TallyFrom(acc, s)) == Keys(acc) + Seqs.UniqueFrom(s, seen)
    decreases |s|, 0
  {
    var b := Bump(acc, s[0]);
    BumpKeys(acc, s[0]);
    KeysGrow(Keys(acc), seen, s[0]);
    TallyFromKeys(b, s[1..], seen + {s[0]});
    var rest := Seqs.UniqueFrom(s[1..], seen + {s[0]});
    assert Seqs.UniqueFrom(s, seen) == [s[0]] + rest;
    AppendAssoc(Keys(acc), [s[0]], rest);
  }

  /**
   * The count object of `s`: its keys are the distinct values of `s` in order
   * of first appearance, each mapped to its number of occurrences (at least
   * one), so the counts add up to `|s|`.
   */
  lemma TallySpec<K(!new)>(s: seq<K>)
    ensures Keys(Tally(s)) == Seqs.Unique(s)
    ensures Seqs.Distinct(Keys(Tally(s)))
    ensures forall k :: Lookup(Tally(s), k) == Occ(s, k)
    ensures Total(Tally(s)) == |s|
    ensures forall i :: 0 <= i < |Tally(s)| ==> Tally(s)[i].1 >= 1
  {
    var empty: seq<(K, nat)> := [];
    forall k ensures Lookup(Tally(s), k) == Occ(s, k) {
      TallyFromLookup(empty, s, k);
    }
    TallyFromTotal(empty, s);
    TallyFromPositive(empty, s);
    TallyFromKeys(empty, s, {});
  }
}
