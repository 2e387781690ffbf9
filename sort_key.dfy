/**
 * The stable sort the program gets from `sort_by_key(|item| item.sort_order)`.
 * It is library code, so it is modelled by what it promises: the result is
 * ordered by key, is a permutation of the input, and items with equal keys
 * keep their input order. The definition is an insertion sort; the three
 * promises are proved about it.
 */
module SortKey {
  import opened Models

  predicate SortedByKey(s: seq<TodoItem>) {
    forall i, j :: 0 <= i < j < |s| ==> s[i].sortOrder <= s[j].sortOrder
  }

  /** The items of `s` whose key is `k`, in the order of `s`. */
  function WithKey(s: seq<TodoItem>, k: int): seq<TodoItem>
  {
    if s == [] then []
    else (if s[0].sortOrder == k then [s[0]] else []) + WithKey(s[1..], k)
  }

  /** Puts `x` in front of the first item whose key is not smaller than its own. */
  function InsertByKey(x: TodoItem, s: seq<TodoItem>): seq<TodoItem>
  {
    if s == [] || x.sortOrder <= s[0].sortOrder then [x] + s
    else [s[0]] + InsertByKey(x, s[1..])
  }

  function SortByKey(s: seq<TodoItem>): seq<TodoItem>
  {
    if s == [] then [] else InsertByKey(s[0], SortByKey(s[1..]))
  }

  lemma {:induction false} InsertByKeyMultiset(x: TodoItem, s: seq<TodoItem>)
    ensures multiset(InsertByKey(x, s)) == multiset(s) + multiset{x}
  {
    if !(s == [] || x.sortOrder <= s[0].sortOrder) {
      InsertByKeyMultiset(x, s[1..]);
      assert s == [s[0]] + s[1..];
    }
  }

  lemma {:induction false} InsertByKeyMembers(x: TodoItem, s: seq<TodoItem>)
    ensures forall y :: y in InsertByKey(x, s) <==> y == x || y in s
  {
    if !(s == [] || x.sortOrder <= s[0].sortOrder) {
      InsertByKeyMembers(x, s[1..]);
      assert s == [s[0]] + s[1..];
    }
  }

  /** A head no larger than any key of a sorted tail keeps the sequence sorted. */
  lemma SortedCons(y: TodoItem, t: seq<TodoItem>)
    requires SortedByKey(t)
    requires forall z :: z in t ==> y.sortOrder <= z.sortOrder
    ensures SortedByKey([y] + t)
  {
    var r := [y] + t;
    forall i, j | 0 <= i < j < |r| ensures r[i].sortOrder <= r[j].sortOrder {
      assert r[j] == t[j - 1];
      if i > 0 {
        assert r[i] == t[i - 1];
      }
    }
  }

  lemma {:induction false} InsertByKeySorted(x: TodoItem, s: seq<TodoItem>)
    requires SortedByKey(s)
    ensures SortedByKey(InsertByKey(x, s))
  {
    if s == [] || x.sortOrder <= s[0].sortOrder {
      SortedCons(x, s);
    } else {
      assert SortedByKey(s[1..]);
      InsertByKeySorted(x, s[1..]);
      InsertByKeyMembers(x, s[1..]);
      SortedCons(s[0], InsertByKey(x, s[1..]));
    }
  }

  /** The result of sorting is ordered by key. */
  lemma {:induction false} SortByKeySorted(s: seq<TodoItem>)
    ensures SortedByKey(SortByKey(s))
  {
    if s != [] {
      SortByKeySorted(s[1..]);
      InsertByKeySorted(s[0], SortByKey(s[1..]));
    }
  }

  /** The result of sorting is a permutation of the input. */
  lemma {:induction false} SortByKeyPermutation(s: seq<TodoItem>)
    ensures multiset(SortByKey(s)) == multiset(s)
  {
    if s != [] {
      SortByKeyPermutation(s[1..]);
      InsertByKeyMultiset(s[0], SortByKey(s[1..]));
      assert s == [s[0]] + s[1..];
    }
  }

  /** Sorting neither adds nor drops nor duplicates items. */
  lemma SortByKeyMembers(s: seq<TodoItem>)
    ensures |SortByKey(s)| == |s|
    ensures forall x :: x in SortByKey(s) <==> x in s
  {
    var r := SortByKey(s);
    SortByKeyPermutation(s);
    assert |r| == |multiset(r)| == |multiset(s)| == |s|;
    forall x ensures x in r <==> x in s {
      assert x in r <==> x in multiset(r);
      assert x in s <==> x in multiset(s);
    }
  }

  lemma WithKeyCons(x: TodoItem, t: seq<TodoItem>, k: int)
    ensures WithKey([x] + t, k) == (if x.sortOrder == k then [x] else []) + WithKey(t, k)
  {
    assert ([x] + t)[1..] == t;
  }

  lemma {:induction false} InsertByKeyWithKey(x: TodoItem, s: seq<TodoItem>, k: int)
    requires SortedByKey(s)
    ensures WithKey(InsertByKey(x, s), k) == (if x.sortOrder == k then [x] else []) + WithKey(s, k)
  {
    if s == [] || x.sortOrder <= s[0].sortOrder {
      WithKeyCons(x, s, k);
    } else {
      assert SortedByKey(s[1..]);
      InsertByKeyWithKey(x, s[1..], k);
      WithKeyCons(s[0], InsertByKey(x, s[1..]), k);
    }
  }

  /** Stability: for every key, the items carrying it appear in their input order. */
  lemma {:induction false} SortByKeyStable(s: seq<TodoItem>, k: int)
    ensures WithKey(SortByKey(s), k) == WithKey(s, k)
  {
    if s != [] {
      SortByKeyStable(s[1..], k);
      SortByKeySorted(s[1..]);
      InsertByKeyWithKey(s[0], SortByKey(s[1..]), k);
    }
  }

  /** Sorting an already sorted sequence changes nothing; in particular sorting is idempotent. */
  lemma {:induction false} SortByKeyOfSorted(s: seq<TodoItem>)
    requires SortedByKey(s)
    ensures SortByKey(s) == s
  {
    if s != [] {
      SortByKeyOfSorted(s[1..]);
    }
  }

  lemma SortByKeyIdempotent(s: seq<TodoItem>)
    ensures SortByKey(SortByKey(s)) == SortByKey(s)
  {
    SortByKeySorted(s);
    SortByKeyOfSorted(SortByKey(s));
  }

  lemma {:induction false} InsertByKeyBeforeLargest(y: TodoItem, t: seq<TodoItem>, x: TodoItem)
    requires y.sortOrder < x.sortOrder
    ensures InsertByKey(y, t + [x]) == InsertByKey(y, t) + [x]
  {
    if t == [] {
      assert InsertByKey(y, [x]) == [y] + [x];
    } else {
      assert (t + [x])[0] == t[0] && (t + [x])[1..] == t[1..] + [x];
      if y.sortOrder > t[0].sortOrder {
        InsertByKeyBeforeLargest(y, t[1..], x);
      }
    }
  }

  /**
   * An item whose key is larger than every other key lands last, whatever
   * the order of the rest.
   */
  lemma {:induction false} SortByKeyAppendLargest(s: seq<TodoItem>, x: TodoItem)
    requires forall y :: y in s ==> y.sortOrder < x.sortOrder
    ensures SortByKey(s + [x]) == SortByKey(s) + [x]
  {
    if s == [] {
      assert SortByKey([x]) == InsertByKey(x, []);
    } else {
      assert (s + [x])[0] == s[0] && (s + [x])[1..] == s[1..] + [x];
      assert s[0] in s;
      SortByKeyAppendLargest(s[1..], x);
      InsertByKeyBeforeLargest(s[0], SortByKey(s[1..]), x);
    }
  }

  /** Pairwise distinct ids among the items that have one. */
  predicate DistinctIds(s: seq<TodoItem>) {
    forall i, j :: 0 <= i < j < |s| && s[i].id.Some? ==> s[i].id != s[j].id
  }

  /** A sequence with a head has distinct ids when its tail does and the head's id is new. */
  lemma DistinctIdsCons(y: TodoItem, t: seq<TodoItem>)
    ensures DistinctIds([y] + t) <==> DistinctIds(t) && (y.id.Some? ==> forall z :: z in t ==> z.id != y.id)
  {
    var r := [y] + t;
    if DistinctIds(r) {
      forall i, j | 0 <= i < j < |t| && t[i].id.Some? ensures t[i].id != t[j].id {
        assert t[i] == r[i + 1] && t[j] == r[j + 1];
      }
      forall z | z in t ensures y.id.Some? ==> z.id != y.id {
        var m :| 0 <= m < |t| && t[m] == z;
        assert r[0] == y && r[m + 1] == z;
      }
    }
    if DistinctIds(t) && (y.id.Some? ==> forall z :: z in t ==> z.id != y.id) {
      forall i, j | 0 <= i < j < |r| && r[i].id.Some? ensures r[i].id != r[j].id {
        if i == 0 {
          assert r[j] == t[j - 1];
        } else {
          assert r[i] == t[i - 1] && r[j] == t[j - 1];
        }
      }
    }
  }

  lemma DistinctIdsTail(s: seq<TodoItem>)
    requires s != [] && DistinctIds(s)
    ensures DistinctIds(s[1..])
    ensures s[0].id.Some? ==> forall y :: y in s[1..] ==> y.id != s[0].id
  {
    assert s == [s[0]] + s[1..];
    DistinctIdsCons(s[0], s[1..]);
  }

  lemma {:induction false} InsertByKeyDistinct(x: TodoItem, s: seq<TodoItem>)
    requires DistinctIds(s)
    requires x.id.Some? ==> forall y :: y in s ==> y.id != x.id
    ensures DistinctIds(InsertByKey(x, s))
  {
    if s == [] || x.sortOrder <= s[0].sortOrder {
      DistinctIdsCons(x, s);
    } else {
      DistinctIdsTail(s);
      InsertByKeyDistinct(x, s[1..]);
      InsertByKeyMultiset(x, s[1..]);
      var rest := InsertByKey(x, s[1..]);
      assert s[0] in s;
      forall z | z in rest ensures s[0].id.Some? ==> z.id != s[0].id {
        assert z in multiset(rest);
      }
      DistinctIdsCons(s[0], rest);
    }
  }

  /** Sorting keeps ids pairwise distinct. */
  lemma {:induction false} SortByKeyDistinct(s: seq<TodoItem>)
    requires DistinctIds(s)
    ensures DistinctIds(SortByKey(s))
  {
    if s != [] {
      DistinctIdsTail(s);
      SortByKeyDistinct(s[1..]);
      SortByKeyMembers(s[1..]);
      InsertByKeyDistinct(s[0], SortByKey(s[1..]));
    }
  }
}
