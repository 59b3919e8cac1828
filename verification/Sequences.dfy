/**
 * Sequence helpers the layout relies on: concatenating groups, and the stable
 * sort behind `Array.prototype.sort`. JavaScript's `Array.prototype.sort`
 * with a numeric comparator `(a, b) => key(a) - key(b)` is stable: it orders
 * by ascending key and keeps elements with equal keys in their original order.
 * `StableSortBy` is that sort, written as an insertion sort.
 */
module Sequences {

  /** The keys never decrease from left to right. */
  ghost predicate SortedBy<T>(s: seq<T>, key: T -> int) {
    forall i, j :: 0 <= i < j < |s| ==> key(s[i]) <= key(s[j])
  }

  /** The elements of `s` whose key is `v`, in their order in `s`. */
  function WithKey<T>(s: seq<T>, key: T -> int, v: int): seq<T> {
    if s == [] then []
    else WithKey(s[..|s| - 1], key, v) + (if key(s[|s| - 1]) == v then [s[|s| - 1]] else [])
  }

  lemma {:induction false} WithKeyAppend<T>(s: seq<T>, t: seq<T>, key: T -> int, v: int)
    ensures WithKey(s + t, key, v) == WithKey(s, key, v) + WithKey(t, key, v)
    decreases |t|
  {
    if t == [] {
      assert s + t == s;
    } else {
      var n := |t| - 1;
      assert (s + t)[..|s + t| - 1] == s + t[..n];
      WithKeyAppend(s, t[..n], key, v);
    }
  }

  /**
   * Inserts `x` into a sorted sequence after every element whose key is at
   * most `x`'s key, which is what keeps the sort stable.
   */
  function InsertBy<T>(x: T, s: seq<T>, key: T -> int): (r: seq<T>)
    requires SortedBy(s, key)
    ensures SortedBy(r, key)
    ensures multiset(r) == multiset(s) + multiset{x}
  {
    if s == [] then [x]
    else if key(s[|s| - 1]) <= key(x) then s + [x]
    else
      var n := |s| - 1;
      var r' := InsertBy(x, s[..n], key);
      assert s == s[..n] + [s[n]];
      SortedBelowLast(s, key);
      BoundKept(s[..n], x, r', key, key(s[n]));
      SortedAppend(r', s[n], key);
      r' + [s[n]]
  }

  /** Every element before the last of a sorted sequence has a key at most the last one's. */
  lemma SortedBelowLast<T>(s: seq<T>, key: T -> int)
    requires SortedBy(s, key) && s != []
    ensures forall y :: y in s[..|s| - 1] ==> key(y) <= key(s[|s| - 1])
  {
    forall y | y in s[..|s| - 1] ensures key(y) <= key(s[|s| - 1]) {
      var i :| 0 <= i < |s| - 1 && s[..|s| - 1][i] == y;
    }
  }

  /** A bound on every key of `s` and on `x` bounds the keys of any rearrangement of `s` and `x`. */
  lemma BoundKept<T>(s: seq<T>, x: T, r: seq<T>, key: T -> int, bound: int)
    requires multiset(r) == multiset(s) + multiset{x}
    requires key(x) <= bound && forall y :: y in s ==> key(y) <= bound
    ensures forall y :: y in r ==> key(y) <= bound
  {
    forall y | y in r ensures key(y) <= bound {
      assert y in multiset(r);
      if y != x {
        assert y in multiset(s);
      }
    }
  }

  /** An element whose key bounds every key of a sorted sequence can be appended to it. */
  lemma SortedAppend<T>(r: seq<T>, z: T, key: T -> int)
    requires SortedBy(r, key) && forall y :: y in r ==> key(y) <= key(z)
    ensures SortedBy(r + [z], key)
  {
    forall i, j | 0 <= i < j < |r| + 1 ensures key((r + [z])[i]) <= key((r + [z])[j]) {
      if j == |r| {
        assert (r + [z])[i] == r[i] && r[i] in r;
      }
    }
  }

  /** Inserting `x` appends it to the elements that share its key and changes no other key's elements. */
  lemma {:induction false} InsertByStable<T>(x: T, s: seq<T>, key: T -> int, v: int)
    requires SortedBy(s, key)
    ensures WithKey(InsertBy(x, s, key), key, v) == WithKey(s, key, v) + WithKey([x], key, v)
  {
    WithKeySingle(x, key, v);
    if s == [] {
    } else if key(s[|s| - 1]) <= key(x) {
      WithKeyAppend(s, [x], key, v);
    } else {
      var n := |s| - 1;
      assert s == s[..n] + [s[n]];
      assert InsertBy(x, s, key) == InsertBy(x, s[..n], key) + [s[n]];
      InsertByStable(x, s[..n], key, v);
      KeptBeforeLast(InsertBy(x, s[..n], key), s[..n], x, s[n], key, v);
    }
  }

  /**
   * The step of `InsertByStable` where `x` goes before the last element
   * `last`, whose key is larger: `x` and `last` never both have key `v`.
   */
  lemma KeptBeforeLast<T>(front: seq<T>, prefix: seq<T>, x: T, last: T, key: T -> int, v: int)
    requires key(x) < key(last)
    requires WithKey(front, key, v) == WithKey(prefix, key, v) + WithKey([x], key, v)
    ensures WithKey(front + [last], key, v) == WithKey(prefix + [last], key, v) + WithKey([x], key, v)
  {
    WithKeySingle(x, key, v);
    WithKeySingle(last, key, v);
    var kept, bx, bn := WithKey(prefix, key, v), WithKey([x], key, v), WithKey([last], key, v);
    calc {
      WithKey(front + [last], key, v);
      { WithKeyAppend(front, [last], key, v); }
      (kept + bx) + bn;
      { assert bx == [] || bn == []; }
      (kept + bn) + bx;
      { WithKeyAppend(prefix, [last], key, v); }
      WithKey(prefix + [last], key, v) + bx;
    }
  }

  lemma WithKeySingle<T>(y: T, key: T -> int, v: int)
    ensures WithKey([y], key, v) == if key(y) == v then [y] else []
  {
    assert [y][..0] == [];
  }

  /**
   * The stable sort by ascending key: the result is sorted and is a
   * permutation of the input.
   */
  function StableSortBy<T>(s: seq<T>, key: T -> int): (r: seq<T>)
    ensures |r| == |s|
    ensures SortedBy(r, key)
    ensures multiset(r) == multiset(s)
  {
    if s == [] then []
    else
      var n := |s| - 1;
      assert s == s[..n] + [s[n]];
      var r := InsertBy(s[n], StableSortBy(s[..n], key), key);
      assert |r| == |multiset(r)|;
      r
  }

  /** The sort is stable: the elements of each key keep their input order. */
  lemma {:induction false} SortIsStable<T>(s: seq<T>, key: T -> int, v: int)
    ensures WithKey(StableSortBy(s, key), key, v) == WithKey(s, key, v)
  {
    if s != [] {
      var n := |s| - 1;
      assert s == s[..n] + [s[n]];
      SortIsStable(s[..n], key, v);
      InsertByStable(s[n], StableSortBy(s[..n], key), key, v);
      WithKeyAppend(s[..n], [s[n]], key, v);
    }
  }

  /** `f`'s results for the elements of `s`, one after another (`s.flatMap(f)`). */
  function ConcatMap<T, U>(f: T -> seq<U>, s: seq<T>): seq<U> {
    if s == [] then [] else ConcatMap(f, s[..|s| - 1]) + f(s[|s| - 1])
  }

  /** One more element of `s` taken. */
  lemma ConcatMapPrefix<T, U>(f: T -> seq<U>, s: seq<T>, i: int)
    requires 0 <= i < |s|
    ensures ConcatMap(f, s[..i + 1]) == ConcatMap(f, s[..i]) + f(s[i])
  {
    assert s[..i + 1][..i] == s[..i];
  }

  lemma {:induction false} ConcatMapAppend<T, U>(f: T -> seq<U>, a: seq<T>, b: seq<T>)
    ensures ConcatMap(f, a + b) == ConcatMap(f, a) + ConcatMap(f, b)
    decreases |b|
  {
    if b == [] {
      assert a + b == a;
    } else {
      var n := |b| - 1;
      assert (a + b)[..|a + b| - 1] == a + b[..n];
      ConcatMapAppend(f, a, b[..n]);
    }
  }

  /** Taking the element at `k` out of `b` takes its image out of the concatenation. */
  lemma ConcatMapSplit<T, U>(f: T -> seq<U>, b: seq<T>, k: int)
    requires 0 <= k < |b|
    ensures multiset(ConcatMap(f, b)) == multiset(ConcatMap(f, b[..k] + b[k + 1..])) + multiset(f(b[k]))
  {
    RemoveAt(b, k);
    ConcatMapMiddle(f, b[..k], b[k], b[k + 1..]);
  }

  lemma ConcatMapMiddle<T, U>(f: T -> seq<U>, front: seq<T>, x: T, back: seq<T>)
    ensures multiset(ConcatMap(f, front + [x] + back)) == multiset(ConcatMap(f, front + back)) + multiset(f(x))
  {
    ConcatMapAppend(f, front + [x], back);
    ConcatMapAppend(f, front, [x]);
    ConcatMapAppend(f, front, back);
    assert ConcatMap(f, [x]) == f(x) by { assert [x][..0] == []; }
  }

  /** Reordering the elements reorders, and so keeps, the concatenated images. */
  lemma {:induction false} ConcatMapPermutation<T, U>(f: T -> seq<U>, a: seq<T>, b: seq<T>)
    requires multiset(a) == multiset(b)
    ensures multiset(ConcatMap(f, a)) == multiset(ConcatMap(f, b))
    decreases |a|
  {
    if a == [] {
      assert |b| == |multiset(b)| == 0;
    } else {
      var n := |a| - 1;
      var x := a[n];
      assert x in multiset(b) by { assert x in multiset(a); }
      var k :| 0 <= k < |b| && b[k] == x;
      var rest := b[..k] + b[k + 1..];
      assert multiset(a[..n]) == multiset(rest) by {
        RemoveAt(a, n);
        RemoveAt(b, k);
        assert a[..n] + a[n + 1..] == a[..n];
      }
      calc {
        multiset(ConcatMap(f, a));
        multiset(ConcatMap(f, a[..n]) + f(x));
        multiset(ConcatMap(f, a[..n])) + multiset(f(x));
        { ConcatMapPermutation(f, a[..n], rest); }
        multiset(ConcatMap(f, rest)) + multiset(f(x));
        { ConcatMapSplit(f, b, k); }
        multiset(ConcatMap(f, b));
      }
    }
  }

  /** The groups' elements one after another (`groups.flat()`). */
  function Flatten<T>(gs: seq<seq<T>>): seq<T> {
    ConcatMap(g => g, gs)
  }

  /** Appending a group appends its elements. */
  lemma FlattenPush<T>(gs: seq<seq<T>>, g: seq<T>)
    ensures Flatten(gs + [g]) == Flatten(gs) + g
  {
    assert (gs + [g])[..|gs|] == gs;
  }

  /** The sum of `f` over the elements of `s`, added from left to right. */
  function SumOf<T>(f: T -> real, s: seq<T>): real {
    if s == [] then 0.0 else SumOf(f, s[..|s| - 1]) + f(s[|s| - 1])
  }

  lemma {:induction false} SumOfAppend<T>(f: T -> real, a: seq<T>, b: seq<T>)
    ensures SumOf(f, a + b) == SumOf(f, a) + SumOf(f, b)
    decreases |b|
  {
    if b == [] {
      assert a + b == a;
    } else {
      var n := |b| - 1;
      assert (a + b)[..|a + b| - 1] == a + b[..n];
      SumOfAppend(f, a, b[..n]);
    }
  }

  /** A sum does not depend on the order of its terms. */
  lemma {:induction false} SumOfPermutation<T>(f: T -> real, a: seq<T>, b: seq<T>)
    requires multiset(a) == multiset(b)
    ensures SumOf(f, a) == SumOf(f, b)
    decreases |a|
  {
    if a == [] {
      assert |b| == |multiset(b)| == 0;
    } else {
      var n := |a| - 1;
      var x := a[n];
      assert x in multiset(b) by { assert x in multiset(a); }
      var k :| 0 <= k < |b| && b[k] == x;
      var rest := b[..k] + b[k + 1..];
      assert multiset(a[..n]) == multiset(rest) by {
        RemoveAt(a, n);
        RemoveAt(b, k);
        assert a[..n] + a[n + 1..] == a[..n];
      }
      calc {
        SumOf(f, a);
        SumOf(f, a[..n]) + f(x);
        { SumOfPermutation(f, a[..n], rest); }
        SumOf(f, rest) + f(x);
        { SumOfSplit(f, b, k); }
        SumOf(f, b);
      }
    }
  }

  /** Taking the element at `k` out of `b` takes its term out of the sum. */
  lemma SumOfSplit<T>(f: T -> real, b: seq<T>, k: int)
    requires 0 <= k < |b|
    ensures SumOf(f, b) == SumOf(f, b[..k] + b[k + 1..]) + f(b[k])
  {
    RemoveAt(b, k);
    SumOfMiddle(f, b[..k], b[k], b[k + 1..]);
  }

  lemma SumOfMiddle<T>(f: T -> real, front: seq<T>, x: T, back: seq<T>)
    ensures SumOf(f, front + [x] + back) == SumOf(f, front + back) + f(x)
  {
    SumOfAppend(f, front + [x], back);
    SumOfAppend(f, front, [x]);
    SumOfAppend(f, front, back);
    assert SumOf(f, [x]) == f(x) by { assert [x][..0] == []; }
  }

  /** Removing the element at `k` removes one occurrence of it. */
  lemma RemoveAt<T>(b: seq<T>, k: int)
    requires 0 <= k < |b|
    ensures b == b[..k] + [b[k]] + b[k + 1..]
    ensures multiset(b[..k] + b[k + 1..]) == multiset(b) - multiset{b[k]}
  {
    assert b == b[..k] + [b[k]] + b[k + 1..];
    assert multiset(b) == multiset(b[..k]) + multiset{b[k]} + multiset(b[k + 1..]);
  }

  /** A value that occurs twice occurs at two positions. */
  lemma {:induction false} TwoPositions<T>(s: seq<T>, x: T)
    requires multiset(s)[x] >= 2
    ensures exists a, b :: 0 <= a < b < |s| && s[a] == x && s[b] == x
  {
    var n := |s| - 1;
    assert s == s[..n] + [s[n]];
    if s[n] == x {
      assert x in multiset(s[..n]);
      var a :| 0 <= a < n && s[..n][a] == x;
      assert s[a] == x;
    } else {
      TwoPositions(s[..n], x);
      var a, b :| 0 <= a < b < n && s[..n][a] == x && s[..n][b] == x;
      assert s[a] == x && s[b] == x;
    }
  }

  /** Two positions holding the same value make it occur twice. */
  lemma SameAtTwoPositions<T>(s: seq<T>, i: int, j: int)
    requires 0 <= i < j < |s| && s[i] == s[j]
    ensures multiset(s)[s[i]] >= 2
  {
    assert s == s[..j] + [s[j]] + s[j + 1..];
    assert s[i] in multiset(s[..j]) by { assert s[..j][i] == s[i]; }
  }
}
