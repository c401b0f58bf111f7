/** A stable sort by a natural-number key, the behaviour ES2019 requires of
    `Array.prototype.sort` with a comparator `(a, b) => key(a) - key(b)`. It
    is written as an insertion sort; what makes it THE stable sort is its
    contract: the result is sorted, and for every key value the entries
    carrying that key appear in the same order as in the input. */
module Sorting {

  ghost predicate SortedBy<T>(key: T -> nat, s: seq<T>) {
    forall i, j :: 0 <= i < j < |s| ==> key(s[i]) <= key(s[j])
  }

  /** The entries of `s` whose key is `k`, in their order in `s`. */
  function WithKey<T>(key: T -> nat, s: seq<T>, k: nat): (r: seq<T>)
    ensures |r| <= |s|
    ensures forall x :: x in r ==> x in s && key(x) == k
  {
    if s == [] then []
    else (if key(s[0]) == k then [s[0]] else []) + WithKey(key, s[1..], k)
  }

  /** Places `x` in front of the first entry whose key is not smaller than
      its own, so that `x` precedes the entries it ties with. */
  function InsertBy<T>(key: T -> nat, x: T, s: seq<T>): (r: seq<T>)
    ensures multiset(r) == multiset(s) + multiset{x}
  {
    if s == [] || key(x) <= key(s[0]) then [x] + s
    else
      assert s == [s[0]] + s[1..];
      [s[0]] + InsertBy(key, x, s[1..])
  }

  lemma {:induction false} InsertKeepsSorted<T>(key: T -> nat, x: T, s: seq<T>)
    requires SortedBy(key, s)
    ensures SortedBy(key, InsertBy(key, x, s))
    decreases |s|
  {
    if s != [] && key(x) > key(s[0]) {
      var t := InsertBy(key, x, s[1..]);
      InsertKeepsSorted(key, x, s[1..]);
      var r := [s[0]] + t;
      forall j | 0 < j < |r| ensures key(r[0]) <= key(r[j]) {
        assert r[j] in multiset(t);
        if r[j] != x {
          assert r[j] in multiset(s[1..]);
          assert r[j] in s[1..];
        }
      }
    }
  }

  lemma {:induction false} InsertWithKey<T>(key: T -> nat, x: T, s: seq<T>, k: nat)
    ensures WithKey(key, InsertBy(key, x, s), k) == (if key(x) == k then [x] else []) + WithKey(key, s, k)
    decreases |s|
  {
    if s == [] || key(x) <= key(s[0]) {
      assert ([x] + s)[1..] == s;
    } else {
      var t := InsertBy(key, x, s[1..]);
      InsertWithKey(key, x, s[1..], k);
      assert ([s[0]] + t)[1..] == t;
    }
  }

  /** The stable sort: the input's head is inserted in front of its ties in
      the sorted tail. */
  function SortBy<T>(key: T -> nat, s: seq<T>): (r: seq<T>)
    ensures SortedBy(key, r)
    ensures multiset(r) == multiset(s)
    ensures forall k :: WithKey(key, r, k) == WithKey(key, s, k)
  {
    if s == [] then []
    else
      var t := SortBy(key, s[1..]);
      assert s == [s[0]] + s[1..];
      InsertKeepsSorted(key, s[0], t);
      assert forall k :: WithKey(key, InsertBy(key, s[0], t), k) == WithKey(key, s, k) by {
        forall k { InsertWithKey(key, s[0], t, k); }
      }
      InsertBy(key, s[0], t)
  }

  lemma SortByCons<T>(key: T -> nat, x: T, s: seq<T>)
    ensures SortBy(key, [x] + s) == InsertBy(key, x, SortBy(key, s))
  {
    assert ([x] + s)[1..] == s;
  }

  lemma InsertByCons<T>(key: T -> nat, x: T, y: T, s: seq<T>)
    ensures InsertBy(key, x, [y] + s) ==
      if key(x) <= key(y) then [x, y] + s else [y] + InsertBy(key, x, s)
  {
    assert ([y] + s)[1..] == s;
  }

  /** An entry whose key is at most every key of `s` goes to the front. */
  lemma {:induction false} InsertSmallest<T>(key: T -> nat, x: T, s: seq<T>)
    requires forall i :: 0 <= i < |s| ==> key(x) <= key(s[i])
    ensures InsertBy(key, x, s) == [x] + s
  {
  }

  /** Sorting an already sorted sequence changes nothing. */
  lemma {:induction false} SortSortedIsIdentity<T>(key: T -> nat, s: seq<T>)
    requires SortedBy(key, s)
    ensures SortBy(key, s) == s
    decreases |s|
  {
    if s != [] {
      SortSortedIsIdentity(key, s[1..]);
      InsertSmallest(key, s[0], s[1..]);
      assert s == [s[0]] + s[1..];
    }
  }

  lemma HeadIsLeast<T>(key: T -> nat, s: seq<T>, y: T)
    requires SortedBy(key, s) && y in s
    ensures key(s[0]) <= key(y)
  {
    var j :| 0 <= j < |s| && s[j] == y;
    if j > 0 { assert key(s[0]) <= key(s[j]); }
  }

  /** Dropping the head from the per-key listing. */
  lemma WithKeyTail<T>(key: T -> nat, s: seq<T>, k: nat)
    requires s != []
    ensures WithKey(key, s, k) == (if key(s[0]) == k then [s[0]] + WithKey(key, s[1..], k) else WithKey(key, s[1..], k))
  {
  }

  /** Two non-empty sorted sequences with the same per-key listing start
      with the same entry. */
  lemma SameHead<T>(key: T -> nat, a: seq<T>, b: seq<T>)
    requires a != [] && b != [] && SortedBy(key, a) && SortedBy(key, b)
    requires WithKey(key, a, key(a[0])) == WithKey(key, b, key(a[0]))
    requires WithKey(key, a, key(b[0])) == WithKey(key, b, key(b[0]))
    ensures a[0] == b[0]
  {
    var ka, kb := key(a[0]), key(b[0]);
    WithKeyTail(key, a, ka);
    assert a[0] in WithKey(key, b, ka);
    HeadIsLeast(key, b, a[0]);
    WithKeyTail(key, b, kb);
    assert b[0] in WithKey(key, a, kb);
    HeadIsLeast(key, a, b[0]);
    WithKeyTail(key, b, ka);
    assert WithKey(key, a, ka)[0] == WithKey(key, b, ka)[0];
  }

  lemma SameTailListing<T>(key: T -> nat, a: seq<T>, b: seq<T>, k: nat)
    requires a != [] && b != [] && a[0] == b[0]
    requires WithKey(key, a, k) == WithKey(key, b, k)
    ensures WithKey(key, a[1..], k) == WithKey(key, b[1..], k)
  {
    WithKeyTail(key, a, k);
    WithKeyTail(key, b, k);
    if key(a[0]) == k {
      assert WithKey(key, a[1..], k) == WithKey(key, a, k)[1..];
    }
  }

  lemma EmptyListing<T>(key: T -> nat, b: seq<T>)
    requires b != []
    ensures WithKey(key, b, key(b[0])) != []
  {
    WithKeyTail(key, b, key(b[0]));
  }

  /** Sortedness plus per-key order determine a sequence: two sorted
      sequences that list the entries of every key in the same order are
      equal. So `SortBy` is the one stable sort of its input. */
  lemma {:induction false} SortedStableUnique<T>(key: T -> nat, a: seq<T>, b: seq<T>)
    requires SortedBy(key, a) && SortedBy(key, b)
    requires forall k :: WithKey(key, a, k) == WithKey(key, b, k)
    ensures a == b
    decreases |a| + |b|
  {
    if a == [] && b == [] {
    } else if a == [] {
      EmptyListing(key, b);
    } else if b == [] {
      EmptyListing(key, a);
    } else {
      SameHead(key, a, b);
      forall k ensures WithKey(key, a[1..], k) == WithKey(key, b[1..], k) {
        SameTailListing(key, a, b, k);
      }
      SortedStableUnique(key, a[1..], b[1..]);
      assert a == [a[0]] + a[1..] && b == [b[0]] + b[1..];
    }
  }
}
