/**
 * Ordering a sequence by a sort key, largest key first, the way both the
 * "top services" query and the backup list order their entries. The key may
 * be SQL NULL, which compares below every number, so a descending order puts
 * it last (as MySQL and SQLite do for ORDER BY ... DESC).
 */
module Ranking {

  datatype Key = Null | Val(v: int)

  /** `a` sorts no later than `b` in ascending order: NULL first, then numbers. */
  predicate KeyLe(a: Key, b: Key) {
    a.Null? || (b.Val? && a.v <= b.v)
  }

  predicate SortedDesc<T>(s: seq<T>, key: T -> Key) {
    forall i, j :: 0 <= i < j < |s| ==> KeyLe(key(s[j]), key(s[i]))
  }

  /** Places `x` in front of the first element whose key is not larger than its own. */
  function Insert<T>(x: T, s: seq<T>, key: T -> Key): seq<T> {
    if s == [] || KeyLe(key(s[0]), key(x)) then [x] + s
    else [s[0]] + Insert(x, s[1..], key)
  }

  /** Insertion sort, descending by key; elements with equal keys keep their input order. */
  function SortDesc<T>(s: seq<T>, key: T -> Key): seq<T> {
    if s == [] then [] else Insert(s[0], SortDesc(s[1..], key), key)
  }

  /** The elements of `s` whose key is `k`, in order. */
  function WithKey<T>(s: seq<T>, key: T -> Key, k: Key): seq<T> {
    if s == [] then []
    else (if key(s[0]) == k then [s[0]] else []) + WithKey(s[1..], key, k)
  }

  /** The first `n` elements, or all of them when there are fewer (SQL's LIMIT n). */
  function Take<T>(s: seq<T>, n: nat): (r: seq<T>)
    ensures |r| == if |s| < n then |s| else n
    ensures r <= s
  {
    if |s| <= n then s else s[..n]
  }

  lemma {:induction false} InsertPermutes<T>(x: T, s: seq<T>, key: T -> Key)
    ensures multiset(Insert(x, s, key)) == multiset(s) + multiset{x}
  {
    if s != [] && !KeyLe(key(s[0]), key(x)) {
      InsertPermutes(x, s[1..], key);
      assert s == [s[0]] + s[1..];
    }
  }

  lemma {:induction false} InsertSorted<T>(x: T, s: seq<T>, key: T -> Key)
    requires SortedDesc(s, key)
    ensures SortedDesc(Insert(x, s, key), key)
  {
    if s != [] && !KeyLe(key(s[0]), key(x)) {
      InsertSorted(x, s[1..], key);
      var r := Insert(x, s[1..], key);
      InsertPermutes(x, s[1..], key);
      forall j | 0 <= j < |r|
        ensures KeyLe(key(r[j]), key(s[0]))
      {
        assert r[j] in multiset(r);
        assert r[j] in multiset(s[1..]) || r[j] == x;
        if r[j] != x {
          var m :| 0 <= m < |s[1..]| && s[1..][m] == r[j];
          assert s[m + 1] == r[j];
        }
      }
    }
  }

  lemma {:induction false} InsertWithKey<T>(x: T, s: seq<T>, key: T -> Key, k: Key)
    ensures WithKey(Insert(x, s, key), key, k) == (if key(x) == k then [x] else []) + WithKey(s, key, k)
  {
    if s != [] && !KeyLe(key(s[0]), key(x)) {
      InsertWithKey(x, s[1..], key, k);
      assert Insert(x, s, key)[1..] == Insert(x, s[1..], key);
    }
  }

  /** The result of SortDesc is ordered by key, largest first. */
  lemma {:induction false} SortDescSorted<T>(s: seq<T>, key: T -> Key)
    ensures SortedDesc(SortDesc(s, key), key)
  {
    if s != [] {
      SortDescSorted(s[1..], key);
      InsertSorted(s[0], SortDesc(s[1..], key), key);
    }
  }

  /** SortDesc only reorders: nothing is added, dropped or duplicated. */
  lemma {:induction false} SortDescPermutes<T>(s: seq<T>, key: T -> Key)
    ensures multiset(SortDesc(s, key)) == multiset(s)
  {
    if s != [] {
      SortDescPermutes(s[1..], key);
      InsertPermutes(s[0], SortDesc(s[1..], key), key);
      assert s == [s[0]] + s[1..];
    }
  }

  /** SortDesc is stable: the elements sharing one key appear in their input order. */
  lemma {:induction false} SortDescStable<T>(s: seq<T>, key: T -> Key, k: Key)
    ensures WithKey(SortDesc(s, key), key, k) == WithKey(s, key, k)
  {
    if s != [] {
      SortDescStable(s[1..], key, k);
      InsertWithKey(s[0], SortDesc(s[1..], key), key, k);
    }
  }

  /**
   * Taking the first `n` of a sequence sorted by key leaves behind only
   * elements whose key is no larger than that of any element taken.
   */
  lemma TakeOfSortedIsTop<T>(s: seq<T>, n: nat, key: T -> Key)
    requires SortedDesc(s, key)
    ensures forall x, i :: x in multiset(s) - multiset(Take(s, n)) && 0 <= i < |Take(s, n)| ==> KeyLe(key(x), key(Take(s, n)[i]))
  {
    var t := Take(s, n);
    if |s| > n {
      assert s == t + s[n..];
      assert multiset(s) - multiset(t) == multiset(s[n..]);
      forall x, i | x in multiset(s[n..]) && 0 <= i < |t|
        ensures KeyLe(key(x), key(t[i]))
      {
        var m :| 0 <= m < |s[n..]| && s[n..][m] == x;
        assert s[n + m] == x;
      }
    } else {
      assert multiset(s) - multiset(t) == multiset{};
    }
  }

  /** Prefixes of a sorted sequence are sorted. */
  lemma TakeSorted<T>(s: seq<T>, n: nat, key: T -> Key)
    requires SortedDesc(s, key)
    ensures SortedDesc(Take(s, n), key)
  {
    var t := Take(s, n);
    forall i, j | 0 <= i < j < |t|
      ensures KeyLe(key(t[j]), key(t[i]))
    {
      assert t[i] == s[i] && t[j] == s[j];
    }
  }

  /** Taking the first `n` elements is a sub-multiset. */
  lemma TakeSub<T>(s: seq<T>, n: nat)
    ensures multiset(Take(s, n)) <= multiset(s)
  {
    var t := Take(s, n);
    assert s == t + s[|t|..];
  }

  /**
   * The first `n` of a descending sort (ORDER BY key DESC LIMIT n): as many
   * elements as there are, up to `n`, in descending order, drawn from the
   * input, and no element left out has a larger key than one taken.
   */
  lemma TopOfSortDesc<T>(all: seq<T>, n: nat, key: T -> Key)
    ensures var r := Take(SortDesc(all, key), n);
      && |r| == (if |all| < n then |all| else n)
      && SortedDesc(r, key)
      && multiset(r) <= multiset(all)
      && (forall x, i :: x in multiset(all) - multiset(r) && 0 <= i < |r| ==> KeyLe(key(x), key(r[i])))
  {
    var sorted := SortDesc(all, key);
    SortDescSorted(all, key);
    SortDescPermutes(all, key);
    TakeOfSortedIsTop(sorted, n, key);
    TakeSorted(sorted, n, key);
    TakeSub(sorted, n);
    assert multiset(sorted) == multiset(all);
    assert |sorted| == |multiset(sorted)| == |multiset(all)| == |all|;
  }
}
