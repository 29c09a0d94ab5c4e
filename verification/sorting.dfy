/** Python's `list.sort(key=...)`: a stable sort by an integer key. A sort with
    `reverse=True` is the same stable sort by the negated key. */
module Sorting {

  /** Keys never decrease along `s`. */
  predicate SortedBy<T>(s: seq<T>, key: T -> int)
  {
    forall i, j :: 0 <= i < j < |s| ==> key(s[i]) <= key(s[j])
  }

  /** The elements of `s` whose key is `k`, in their order in `s`. */
  function WithKey<T>(s: seq<T>, key: T -> int, k: int): seq<T>
  {
    if s == [] then [] else (if key(s[0]) == k then [s[0]] else []) + WithKey(s[1..], key, k)
  }

  /** `x` placed before the first element whose key is not smaller. */
  function Insert<T>(x: T, s: seq<T>, key: T -> int): (r: seq<T>)
    ensures |r| == |s| + 1
    ensures multiset(r) == multiset(s) + multiset{x}
  {
    if s == [] || key(x) <= key(s[0]) then [x] + s
    else
      assert s == [s[0]] + s[1..];
      [s[0]] + Insert(x, s[1..], key)
  }

  /** Stable insertion sort. */
  function Sort<T>(s: seq<T>, key: T -> int): (r: seq<T>)
    ensures |r| == |s|
    ensures multiset(r) == multiset(s)
  {
    if s == [] then []
    else
      assert s == [s[0]] + s[1..];
      Insert(s[0], Sort(s[1..], key), key)
  }

  /** A bound below `x` and every element of `s` bounds every element after inserting. */
  lemma {:induction false} InsertLowerBound<T>(x: T, s: seq<T>, key: T -> int, lo: int)
    requires lo <= key(x)
    requires forall i :: 0 <= i < |s| ==> lo <= key(s[i])
    ensures forall i :: 0 <= i < |s| + 1 ==> lo <= key(Insert(x, s, key)[i])
  {
    if s != [] && key(x) > key(s[0]) {
      InsertLowerBound(x, s[1..], key, lo);
    }
  }

  lemma {:induction false} InsertSorted<T>(x: T, s: seq<T>, key: T -> int)
    requires SortedBy(s, key)
    ensures SortedBy(Insert(x, s, key), key)
  {
    if s != [] && key(x) > key(s[0]) {
      var t := s[1..];
      assert SortedBy(t, key) by {
        forall i, j | 0 <= i < j < |t| ensures key(t[i]) <= key(t[j]) {
          assert t[i] == s[i + 1] && t[j] == s[j + 1];
        }
      }
      InsertSorted(x, t, key);
      assert forall i :: 0 <= i < |t| ==> key(s[0]) <= key(t[i]) by {
        forall i | 0 <= i < |t| ensures key(s[0]) <= key(t[i]) {
          assert t[i] == s[i + 1];
        }
      }
      InsertLowerBound(x, t, key, key(s[0]));
    }
  }

  /** The sort's result is in key order. */
  lemma {:induction false} SortSorted<T>(s: seq<T>, key: T -> int)
    ensures SortedBy(Sort(s, key), key)
  {
    if s != [] {
      SortSorted(s[1..], key);
      InsertSorted(s[0], Sort(s[1..], key), key);
    }
  }

  lemma {:induction false} WithKeyAppend<T>(a: seq<T>, b: seq<T>, key: T -> int, k: int)
    ensures WithKey(a + b, key, k) == WithKey(a, key, k) + WithKey(b, key, k)
  {
    if a == [] {
      assert a + b == b;
    } else {
      var head := if key(a[0]) == k then [a[0]] else [];
      assert (a + b)[0] == a[0] && (a + b)[1..] == a[1..] + b;
      assert WithKey(a + b, key, k) == head + WithKey(a[1..] + b, key, k);
      WithKeyAppend(a[1..], b, key, k);
      assert WithKey(a, key, k) == head + WithKey(a[1..], key, k);
    }
  }

  /** Inserting `x` puts it in front of the elements that share its key. */
  lemma {:induction false} InsertWithKey<T>(x: T, s: seq<T>, key: T -> int, k: int)
    ensures WithKey(Insert(x, s, key), key, k) == (if key(x) == k then [x] else []) + WithKey(s, key, k)
  {
    if s == [] || key(x) <= key(s[0]) {
      assert Insert(x, s, key) == [x] + s;
      WithKeyAppend([x], s, key, k);
    } else {
      InsertWithKey(x, s[1..], key, k);
      assert Insert(x, s, key) == [s[0]] + Insert(x, s[1..], key);
      WithKeyAppend([s[0]], Insert(x, s[1..], key), key, k);
      WithKeyAppend([s[0]], s[1..], key, k);
      assert [s[0]] + s[1..] == s;
      if key(x) == k {
        assert key(s[0]) != k;
      }
    }
  }

  /** The sort is stable: the elements sharing a key keep their order. */
  lemma {:induction false} SortStable<T>(s: seq<T>, key: T -> int, k: int)
    ensures WithKey(Sort(s, key), key, k) == WithKey(s, key, k)
  {
    if s != [] {
      SortStable(s[1..], key, k);
      InsertWithKey(s[0], Sort(s[1..], key), key, k);
    }
  }

  /** Sorting a sequence that is already in key order leaves it as it is. */
  lemma {:induction false} SortSortedIdentity<T>(s: seq<T>, key: T -> int)
    requires SortedBy(s, key)
    ensures Sort(s, key) == s
  {
    if s != [] {
      assert SortedBy(s[1..], key) by {
        forall i, j | 0 <= i < j < |s[1..]| ensures key(s[1..][i]) <= key(s[1..][j]) {
          assert s[1..][i] == s[i + 1] && s[1..][j] == s[j + 1];
        }
      }
      SortSortedIdentity(s[1..], key);
      assert s == [s[0]] + s[1..];
    }
  }

  /** No two elements of `s` share a key. */
  predicate DistinctKeys<T>(s: seq<T>, key: T -> int)
  {
    forall i, j :: 0 <= i < j < |s| ==> key(s[i]) != key(s[j])
  }

  lemma {:induction false} WithKeyNone<T>(s: seq<T>, key: T -> int, k: int)
    requires forall i :: 0 <= i < |s| ==> key(s[i]) != k
    ensures WithKey(s, key, k) == []
  {
    if s != [] {
      WithKeyNone(s[1..], key, k);
    }
  }

  lemma {:induction false} WithKeyAtMostOne<T>(s: seq<T>, key: T -> int, k: int)
    requires DistinctKeys(s, key)
    ensures |WithKey(s, key, k)| <= 1
  {
    if s != [] {
      WithKeyAtMostOne(s[1..], key, k);
      if key(s[0]) == k {
        WithKeyNone(s[1..], key, k);
      }
    }
  }

  lemma {:induction false} WithKeySome<T>(s: seq<T>, key: T -> int, j: nat)
    requires j < |s|
    ensures |WithKey(s, key, key(s[j]))| >= 1
  {
    if j > 0 {
      WithKeySome(s[1..], key, j - 1);
    }
  }

  lemma {:induction false} WithKeyTwo<T>(s: seq<T>, key: T -> int, i: nat, j: nat)
    requires i < j < |s| && key(s[i]) == key(s[j])
    ensures |WithKey(s, key, key(s[i]))| >= 2
  {
    if i == 0 {
      WithKeySome(s[1..], key, j - 1);
    } else {
      WithKeyTwo(s[1..], key, i - 1, j - 1);
    }
  }

  /** Sorting elements with distinct keys puts the keys in strictly increasing order. */
  lemma {:induction false} SortStrict<T>(s: seq<T>, key: T -> int)
    requires DistinctKeys(s, key)
    ensures forall i, j :: 0 <= i < j < |Sort(s, key)| ==> key(Sort(s, key)[i]) < key(Sort(s, key)[j])
  {
    var r := Sort(s, key);
    SortSorted(s, key);
    forall i, j | 0 <= i < j < |r| ensures key(r[i]) < key(r[j]) {
      if key(r[i]) == key(r[j]) {
        WithKeyTwo(r, key, i, j);
        SortStable(s, key, key(r[i]));
        WithKeyAtMostOne(s, key, key(r[i]));
      }
    }
  }
}
