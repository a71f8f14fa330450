/** `Array.prototype.sort` with a comparator that compares one string key per element.
    The sort is stable, so its result is fully determined: `StableSort` is the insertion
    sort that defines it, and `SortInPlace` is the in-place array algorithm proved to
    compute exactly that sequence. */
module Sorting {
  import opened Text

  predicate SortedBy<T>(s: seq<T>, key: T -> string) {
    forall i, j :: 0 <= i < j < |s| ==> LexLe(key(s[i]), key(s[j]))
  }

  /** The elements of `s` whose key is `k`, in their order in `s`. */
  function WithKey<T>(s: seq<T>, key: T -> string, k: string): seq<T> {
    if s == [] then []
    else WithKey(s[..|s| - 1], key, k) + (if key(s[|s| - 1]) == k then [s[|s| - 1]] else [])
  }

  /** Insert `x` behind every element of `t` that is not greater than it. */
  function InsertLast<T>(t: seq<T>, x: T, key: T -> string): (r: seq<T>)
    ensures |r| == |t| + 1
  {
    if t == [] || LexLe(key(t[|t| - 1]), key(x)) then t + [x]
    else InsertLast(t[..|t| - 1], x, key) + [t[|t| - 1]]
  }

  /** The stable sort of `s` by `key`. */
  function StableSort<T>(s: seq<T>, key: T -> string): (r: seq<T>)
    ensures |r| == |s|
  {
    if s == [] then [] else InsertLast(StableSort(s[..|s| - 1], key), s[|s| - 1], key)
  }

  // ---------------------------------------------------------------- properties

  lemma {:induction false} WithKeyAppend<T>(a: seq<T>, b: seq<T>, key: T -> string, k: string)
    ensures WithKey(a + b, key, k) == WithKey(a, key, k) + WithKey(b, key, k)
  {
    if b != [] {
      var b' := b[..|b| - 1];
      assert (a + b)[..|a + b| - 1] == a + b';
      WithKeyAppend(a, b', key, k);
    } else {
      assert a + b == a;
    }
  }

  /** An element is in its key's slice exactly when it is in the sequence. */
  lemma {:induction false} WithKeyMembers<T>(s: seq<T>, key: T -> string, k: string, x: T)
    ensures x in WithKey(s, key, k) <==> x in s && key(x) == k
  {
    if s != [] {
      var s' := s[..|s| - 1];
      WithKeyMembers(s', key, k, x);
      assert s == s' + [s[|s| - 1]];
    }
  }

  lemma {:induction false} InsertLastMultiset<T>(t: seq<T>, x: T, key: T -> string)
    ensures multiset(InsertLast(t, x, key)) == multiset(t) + multiset{x}
  {
    if !(t == [] || LexLe(key(t[|t| - 1]), key(x))) {
      var t' := t[..|t| - 1];
      InsertLastMultiset(t', x, key);
      assert t == t' + [t[|t| - 1]];
    }
  }

  lemma {:induction false} InsertLastSorted<T>(t: seq<T>, x: T, key: T -> string)
    requires SortedBy(t, key)
    ensures SortedBy(InsertLast(t, x, key), key)
  {
    if t == [] || LexLe(key(t[|t| - 1]), key(x)) {
      var r := t + [x];
      forall i, j | 0 <= i < j < |r| ensures LexLe(key(r[i]), key(r[j])) {
        if j == |t| && i < |t| - 1 {
          LexLeTransitive(key(t[i]), key(t[|t| - 1]), key(x));
        }
      }
    } else {
      var t', l := t[..|t| - 1], t[|t| - 1];
      var a := InsertLast(t', x, key);
      InsertLastSorted(t', x, key);
      InsertLastMultiset(t', x, key);
      LexLeTotal(key(l), key(x));
      var r := a + [l];
      forall i, j | 0 <= i < j < |r| ensures LexLe(key(r[i]), key(r[j])) {
        if j == |a| {
          assert r[i] in multiset(a);
          assert r[i] in multiset(t') || r[i] == x;
          if r[i] != x {
            var k :| 0 <= k < |t'| && t'[k] == r[i];
            assert t[k] == r[i];
          }
        }
      }
    }
  }

  lemma {:induction false} InsertLastWithKey<T>(t: seq<T>, x: T, key: T -> string, k: string)
    ensures WithKey(InsertLast(t, x, key), key, k) ==
            WithKey(t, key, k) + (if key(x) == k then [x] else [])
  {
    var r := InsertLast(t, x, key);
    if t == [] || LexLe(key(t[|t| - 1]), key(x)) {
      assert r[..|r| - 1] == t;
    } else {
      var t', l := t[..|t| - 1], t[|t| - 1];
      var a := InsertLast(t', x, key);
      assert r[..|r| - 1] == a;
      InsertLastWithKey(t', x, key, k);
      LexLeReflexive(key(x));
      assert key(l) != key(x);
    }
  }

  /** The sort puts its keys in ascending order. */
  lemma {:induction false} StableSortSorted<T>(s: seq<T>, key: T -> string)
    ensures SortedBy(StableSort(s, key), key)
  {
    if s != [] {
      StableSortSorted(s[..|s| - 1], key);
      InsertLastSorted(StableSort(s[..|s| - 1], key), s[|s| - 1], key);
    }
  }

  /** The sort neither loses nor adds nor duplicates an element. */
  lemma {:induction false} StableSortMultiset<T>(s: seq<T>, key: T -> string)
    ensures multiset(StableSort(s, key)) == multiset(s)
  {
    if s != [] {
      StableSortMultiset(s[..|s| - 1], key);
      InsertLastMultiset(StableSort(s[..|s| - 1], key), s[|s| - 1], key);
      assert s == s[..|s| - 1] + [s[|s| - 1]];
    }
  }

  /** Stability: the elements sharing a key keep their relative order. */
  lemma {:induction false} StableSortWithKey<T>(s: seq<T>, key: T -> string, k: string)
    ensures WithKey(StableSort(s, key), key, k) == WithKey(s, key, k)
  {
    if s != [] {
      StableSortWithKey(s[..|s| - 1], key, k);
      InsertLastWithKey(StableSort(s[..|s| - 1], key), s[|s| - 1], key, k);
    }
  }

  predicate Distinct<T(==)>(s: seq<T>) {
    forall i, j :: 0 <= i < j < |s| ==> s[i] != s[j]
  }

  lemma {:induction false} DistinctCount<T>(s: seq<T>, x: T)
    requires Distinct(s)
    ensures multiset(s)[x] <= 1
  {
    if s != [] {
      var s', l := s[..|s| - 1], s[|s| - 1];
      assert s == s' + [l];
      DistinctCount(s', x);
      assert l == x ==> x !in s';
    }
  }

  lemma DistinctMultiset<T>(s: seq<T>, t: seq<T>)
    requires multiset(s) == multiset(t) && Distinct(s)
    ensures Distinct(t)
  {
    forall i, j | 0 <= i < j < |t| ensures t[i] != t[j] {
      DistinctCount(s, t[i]);
      assert t == t[..i] + [t[i]] + t[i + 1..j] + [t[j]] + t[j + 1..];
      assert multiset([t[i], t[j]]) <= multiset(t);
    }
  }

  // ---------------------------------------------------------------- the in-place algorithm

  /** Move `a[i]` left past every strictly greater element of the sorted prefix `a[..i]`. */
  method InsertAt<T>(a: array<T>, i: nat, key: T -> string)
    requires i < a.Length
    modifies a
    ensures a[..i + 1] == InsertLast(old(a[..i]), old(a[i]), key)
    ensures a[i + 1..] == old(a[i + 1..])
  {
    ghost var sorted := a[..i];
    var x := a[i];
    var j := i;
    while j > 0 && !LexLe(key(a[j - 1]), key(x))
      invariant 0 <= j <= i
      invariant a[j] == x
      invariant InsertLast(sorted, x, key) == InsertLast(a[..j], x, key) + a[j + 1..i + 1]
      invariant a[i + 1..] == old(a[i + 1..])
    {
      ghost var p := a[..j];
      ghost var rest := a[j + 1..i + 1];
      assert InsertLast(p, x, key) == InsertLast(p[..j - 1], x, key) + [p[j - 1]];
      a[j - 1], a[j] := a[j], a[j - 1];
      assert a[..j - 1] == p[..j - 1];
      assert a[j..i + 1] == [p[j - 1]] + rest;
      j := j - 1;
    }
    assert InsertLast(a[..j], x, key) == a[..j] + [x];
    assert a[..i + 1] == a[..j] + [x] + a[j + 1..i + 1];
  }

  /** Insertion sort by adjacent swaps; an element only moves past a strictly greater one. */
  method SortInPlace<T>(a: array<T>, key: T -> string)
    modifies a
    ensures a[..] == StableSort(old(a[..]), key)
  {
    ghost var s := a[..];
    var i := 0;
    while i < a.Length
      invariant 0 <= i <= a.Length
      invariant a[..i] == StableSort(s[..i], key)
      invariant a[i..] == s[i..]
    {
      InsertAt(a, i, key);
      assert s[..i + 1][..i] == s[..i];
      i := i + 1;
    }
    assert a[..] == a[..a.Length];
    assert s == s[..a.Length];
  }
}
