/**
 * Python's `sorted(items, key=k, reverse=True)` on integer keys. Python's sort
 * is stable, and with `reverse=True` items with equal keys still keep their
 * original order. Both the merged activity lists and the ranked lists of the
 * feed are built from this one sort.
 */
module Sorting {

  /** The items of `s` whose key is `k`, in their order in `s`. */
  function WithKey<T>(s: seq<T>, key: T -> int, k: int): seq<T>
  {
    if s == [] then [] else (if key(s[0]) == k then [s[0]] else []) + WithKey(s[1..], key, k)
  }

  ghost predicate NonIncreasing<T>(s: seq<T>, key: T -> int)
  {
    forall i, j :: 0 <= i < j < |s| ==> key(s[i]) >= key(s[j])
  }

  /** Every item's key is at most `bound`. */
  ghost predicate KeysAtMost<T>(s: seq<T>, key: T -> int, bound: int)
  {
    forall i :: 0 <= i < |s| ==> key(s[i]) <= bound
  }

  /** Puts `x` in front of the first item whose key is not greater than its own. */
  function Insert<T>(x: T, s: seq<T>, key: T -> int): seq<T>
  {
    if s == [] then [x]
    else if key(x) >= key(s[0]) then [x] + s
    else [s[0]] + Insert(x, s[1..], key)
  }

  /** Stable sort, greatest key first. */
  function SortDesc<T>(s: seq<T>, key: T -> int): seq<T>
  {
    if s == [] then [] else Insert(s[0], SortDesc(s[1..], key), key)
  }

  lemma {:induction false} InsertPermutes<T>(x: T, s: seq<T>, key: T -> int)
    ensures multiset(Insert(x, s, key)) == multiset(s) + multiset{x}
  {
    if s != [] && key(x) < key(s[0]) {
      InsertPermutes(x, s[1..], key);
      assert s == [s[0]] + s[1..];
    }
  }

  /** Sorting is a permutation: the sorted list has the same items, each as often. */
  lemma {:induction false} SortPermutes<T>(s: seq<T>, key: T -> int)
    ensures multiset(SortDesc(s, key)) == multiset(s)
  {
    if s != [] {
      SortPermutes(s[1..], key);
      InsertPermutes(s[0], SortDesc(s[1..], key), key);
      assert s == [s[0]] + s[1..];
    }
  }

  /** Sorting neither adds nor drops an item. */
  lemma SortKeepsMembers<T>(s: seq<T>, key: T -> int)
    ensures forall x :: x in SortDesc(s, key) <==> x in s
  {
    SortPermutes(s, key);
    forall x
      ensures x in SortDesc(s, key) <==> x in s
    {
      assert x in SortDesc(s, key) <==> x in multiset(SortDesc(s, key));
    }
  }

  lemma {:induction false} InsertKeysAtMost<T>(x: T, s: seq<T>, key: T -> int, bound: int)
    requires KeysAtMost(s, key, bound) && key(x) <= bound
    ensures KeysAtMost(Insert(x, s, key), key, bound)
  {
    if s != [] && key(x) < key(s[0]) {
      InsertKeysAtMost(x, s[1..], key, bound);
    }
  }

  lemma {:induction false} InsertSorted<T>(x: T, s: seq<T>, key: T -> int)
    requires NonIncreasing(s, key)
    ensures NonIncreasing(Insert(x, s, key), key)
  {
    if s != [] && key(x) < key(s[0]) {
      InsertSorted(x, s[1..], key);
      InsertKeysAtMost(x, s[1..], key, key(s[0]));
    }
  }

  /** The sorted list has the greatest key first. */
  lemma {:induction false} SortSorted<T>(s: seq<T>, key: T -> int)
    ensures NonIncreasing(SortDesc(s, key), key)
  {
    if s != [] {
      SortSorted(s[1..], key);
      InsertSorted(s[0], SortDesc(s[1..], key), key);
    }
  }

  /** Inserting `x` places it before every item with the same key. */
  lemma {:induction false} InsertWithKey<T>(x: T, s: seq<T>, key: T -> int, k: int)
    ensures WithKey(Insert(x, s, key), key, k) == (if key(x) == k then [x] else []) + WithKey(s, key, k)
  {
    if s == [] {
      assert [x][1..] == [];
    } else if key(x) >= key(s[0]) {
      assert ([x] + s)[1..] == s;
    } else {
      var t := Insert(x, s[1..], key);
      InsertWithKey(x, s[1..], key, k);
      assert ([s[0]] + t)[1..] == t;
      if key(x) == k {
        assert WithKey([s[0]] + t, key, k) == WithKey(t, key, k);
        assert WithKey(s, key, k) == WithKey(s[1..], key, k);
      } else {
        assert WithKey(t, key, k) == WithKey(s[1..], key, k);
      }
    }
  }

  /** Stability: the sort keeps the relative order of the items that share a key. */
  lemma {:induction false} SortStable<T>(s: seq<T>, key: T -> int, k: int)
    ensures WithKey(SortDesc(s, key), key, k) == WithKey(s, key, k)
  {
    if s != [] {
      SortStable(s[1..], key, k);
      InsertWithKey(s[0], SortDesc(s[1..], key), key, k);
    }
  }

  lemma {:induction false} WithKeyAppend<T>(a: seq<T>, b: seq<T>, key: T -> int, k: int)
    ensures WithKey(a + b, key, k) == WithKey(a, key, k) + WithKey(b, key, k)
  {
    if a != [] {
      WithKeyAppend(a[1..], b, key, k);
      var h := if key(a[0]) == k then [a[0]] else [];
      assert (a + b)[0] == a[0];
      assert (a + b)[1..] == a[1..] + b;
      assert WithKey(a + b, key, k) == h + WithKey(a[1..] + b, key, k);
    } else {
      assert a + b == b;
    }
  }

  lemma {:induction false} WithKeyMembers<T>(s: seq<T>, key: T -> int, k: int)
    ensures forall x :: x in WithKey(s, key, k) <==> x in s && key(x) == k
  {
    if s != [] {
      WithKeyMembers(s[1..], key, k);
      assert s == [s[0]] + s[1..];
    }
  }

  lemma WithKeyHead<T>(s: seq<T>, key: T -> int)
    requires s != []
    ensures WithKey(s, key, key(s[0])) != [] && WithKey(s, key, key(s[0]))[0] == s[0]
  {
  }

  /** The greatest key of a non-increasing list is that of its head. */
  lemma HeadKeyIsGreatest<T>(s: seq<T>, key: T -> int, x: T)
    requires NonIncreasing(s, key) && x in s
    ensures key(x) <= key(s[0])
  {
    var j :| 0 <= j < |s| && s[j] == x;
    if j > 0 {
      assert key(s[0]) >= key(s[j]);
    }
  }

  /** Two non-increasing lists that agree key by key have the same head. */
  lemma HeadsAgree<T>(a: seq<T>, b: seq<T>, key: T -> int)
    requires a != [] && b != []
    requires NonIncreasing(a, key) && NonIncreasing(b, key)
    requires forall k :: WithKey(a, key, k) == WithKey(b, key, k)
    ensures a[0] == b[0]
  {
    var m, n := key(a[0]), key(b[0]);
    WithKeyHead(a, key);
    WithKeyHead(b, key);
    WithKeyMembers(b, key, m);
    WithKeyMembers(a, key, n);
    assert WithKey(a, key, m) == WithKey(b, key, m);
    assert WithKey(a, key, n) == WithKey(b, key, n);
    assert a[0] in WithKey(b, key, m);
    assert b[0] in WithKey(a, key, n);
    HeadKeyIsGreatest(b, key, a[0]);
    HeadKeyIsGreatest(a, key, b[0]);
  }

  lemma TailsAgree<T>(a: seq<T>, b: seq<T>, key: T -> int, k: int)
    requires a != [] && b != [] && a[0] == b[0]
    requires WithKey(a, key, k) == WithKey(b, key, k)
    ensures WithKey(a[1..], key, k) == WithKey(b[1..], key, k)
  {
    var h := if key(a[0]) == k then [a[0]] else [];
    assert WithKey(a, key, k) == h + WithKey(a[1..], key, k);
    assert WithKey(b, key, k) == h + WithKey(b[1..], key, k);
    assert WithKey(a[1..], key, k) == (h + WithKey(a[1..], key, k))[|h|..];
    assert WithKey(b[1..], key, k) == (h + WithKey(b[1..], key, k))[|h|..];
  }

  /**
   * The sort is the only non-increasing arrangement that keeps every key's
   * items in their original order: two such arrangements are equal.
   */
  lemma {:induction false} StableArrangementUnique<T>(a: seq<T>, b: seq<T>, key: T -> int)
    requires NonIncreasing(a, key) && NonIncreasing(b, key)
    requires forall k :: WithKey(a, key, k) == WithKey(b, key, k)
    ensures a == b
    decreases |a|
  {
    EmptyIffNoKeys(a, key, b);
    EmptyIffNoKeys(b, key, a);
    if a != [] && b != [] {
      HeadsAgree(a, b, key);
      forall k
        ensures WithKey(a[1..], key, k) == WithKey(b[1..], key, k)
      {
        TailsAgree(a, b, key, k);
      }
      StableArrangementUnique(a[1..], b[1..], key);
      assert a == [a[0]] + a[1..];
      assert b == [b[0]] + b[1..];
    }
  }

  /** A list that agrees key by key with the empty list is empty. */
  lemma EmptyIffNoKeys<T>(s: seq<T>, key: T -> int, t: seq<T>)
    requires forall k :: WithKey(s, key, k) == WithKey(t, key, k)
    ensures t == [] ==> s == []
  {
    if s != [] {
      WithKeyHead(s, key);
      assert WithKey(s, key, key(s[0])) == WithKey(t, key, key(s[0]));
    }
  }

  /** No two items of `s` share a value of `proj`. */
  ghost predicate DistinctBy<T, U>(s: seq<T>, proj: T -> U)
  {
    forall i, j :: 0 <= i < j < |s| ==> proj(s[i]) != proj(s[j])
  }

  lemma {:induction false} InsertKeepsDistinct<T, U>(x: T, s: seq<T>, key: T -> int, proj: T -> U)
    requires DistinctBy(s, proj)
    requires forall i :: 0 <= i < |s| ==> proj(s[i]) != proj(x)
    ensures DistinctBy(Insert(x, s, key), proj)
  {
    if s != [] && key(x) < key(s[0]) {
      InsertKeepsDistinct(x, s[1..], key, proj);
      var r := Insert(x, s[1..], key);
      InsertPermutes(x, s[1..], key);
      forall j | 0 <= j < |r| ensures proj(s[0]) != proj(r[j]) {
        assert r[j] in multiset(r);
        assert r[j] == x || r[j] in multiset(s[1..]);
      }
    }
  }

  /** Sorting never makes two items share a projected value. */
  lemma {:induction false} SortKeepsDistinct<T, U>(s: seq<T>, key: T -> int, proj: T -> U)
    requires DistinctBy(s, proj)
    ensures DistinctBy(SortDesc(s, key), proj)
  {
    if s != [] {
      SortKeepsDistinct(s[1..], key, proj);
      var r := SortDesc(s[1..], key);
      SortPermutes(s[1..], key);
      forall i | 0 <= i < |r| ensures proj(r[i]) != proj(s[0]) {
        assert r[i] in multiset(s[1..]);
      }
      InsertKeepsDistinct(s[0], r, key, proj);
    }
  }

  function SumOf<T>(s: seq<T>, f: T -> int): int
  {
    if s == [] then 0 else f(s[0]) + SumOf(s[1..], f)
  }

  lemma {:induction false} SumOfAppend<T>(a: seq<T>, b: seq<T>, f: T -> int)
    ensures SumOf(a + b, f) == SumOf(a, f) + SumOf(b, f)
  {
    if a != [] {
      SumOfAppend(a[1..], b, f);
      assert (a + b)[0] == a[0];
      assert (a + b)[1..] == a[1..] + b;
      assert SumOf(a + b, f) == f(a[0]) + SumOf(a[1..] + b, f);
    } else {
      assert a + b == b;
    }
  }

  lemma MultisetRemoveAt<T>(b: seq<T>, i: nat)
    requires i < |b|
    ensures multiset(b[..i] + b[i + 1..]) == multiset(b) - multiset{b[i]}
  {
    assert b == b[..i] + [b[i]] + b[i + 1..];
  }

  /** Taking out the item at `i` takes its term out of the sum. */
  lemma SumRemoveAt<T>(b: seq<T>, i: nat, f: T -> int)
    requires i < |b|
    ensures SumOf(b, f) == SumOf(b[..i] + b[i + 1..], f) + f(b[i])
  {
    var left, right := b[..i], b[i + 1..];
    assert b == left + ([b[i]] + right);
    SumOfAppend(left, [b[i]] + right, f);
    SumOfAppend(left, right, f);
    assert ([b[i]] + right)[1..] == right;
  }

  /** A sum does not depend on the order of its terms. */
  lemma {:induction false} SumOfPermutation<T>(a: seq<T>, b: seq<T>, f: T -> int)
    requires multiset(a) == multiset(b)
    ensures SumOf(a, f) == SumOf(b, f)
    decreases |a|
  {
    if a == [] {
      assert |b| == |multiset(b)| == 0;
    } else {
      assert a[0] in multiset(b);
      var i :| 0 <= i < |b| && b[i] == a[0];
      MultisetRemoveAt(b, i);
      SumRemoveAt(b, i, f);
      assert a == [a[0]] + a[1..];
      assert multiset(a[1..]) == multiset(a) - multiset{a[0]};
      SumOfPermutation(a[1..], b[..i] + b[i + 1..], f);
    }
  }

  /** The first `n` items, or all of them when there are fewer: a `[:n]` slice. */
  function Take<T>(s: seq<T>, n: nat): seq<T>
  {
    if |s| <= n then s else s[..n]
  }

  /**
   * Cutting a non-increasing list to its first `n` items leaves out only
   * items that all `n` kept items match or beat.
   */
  lemma LeftOutIsOutranked<T>(s: seq<T>, key: T -> int, n: nat, x: T)
    requires NonIncreasing(s, key) && x in s && x !in Take(s, n)
    ensures |Take(s, n)| == n
    ensures forall i :: 0 <= i < n ==> key(Take(s, n)[i]) >= key(x)
  {
    var j :| 0 <= j < |s| && s[j] == x;
    TakeKeeps(s, n, j);
  }

  lemma TakeKeeps<T>(s: seq<T>, n: nat, j: nat)
    requires j < |s|
    ensures j < n ==> s[j] in Take(s, n)
  {
    if j < n {
      assert Take(s, n)[j] == s[j];
    }
  }
}
