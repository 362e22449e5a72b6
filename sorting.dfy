/**
 * Stable sorting by a two-component key.
 *
 * Both sorts of the core go through `Array.prototype.sort`, which is stable:
 * the waitlist ranking (referral count descending, then creation time
 * ascending) and the tier table (referrals required ascending). `SortBy` is a
 * stable insertion sort; `SortByIsStableSort` states what it computes and
 * `StableSortUnique` shows that every stable sort computes the same sequence,
 * so the choice of algorithm is not observable.
 */
module Sorting {

  /** A sort key, compared lexicographically. */
  datatype Key = Key(primary: int, secondary: int)

  predicate KeyLe(a: Key, b: Key) {
    a.primary < b.primary || (a.primary == b.primary && a.secondary <= b.secondary)
  }

  predicate SortedBy<T>(s: seq<T>, key: T -> Key) {
    forall i, j :: 0 <= i < j < |s| ==> KeyLe(key(s[i]), key(s[j]))
  }

  /** The elements of `s` whose key is `k`, in their order in `s`. */
  function WithKey<T>(s: seq<T>, key: T -> Key, k: Key): (r: seq<T>)
    ensures |r| <= |s|
  {
    if s == [] then []
    else WithKey(s[..|s| - 1], key, k) + (if key(s[|s| - 1]) == k then [s[|s| - 1]] else [])
  }

  /**
   * `r` is `s` stably sorted: sorted by key, and for every key the elements
   * carrying it appear in `r` in the order they have in `s`.
   */
  ghost predicate StableSortOf<T>(r: seq<T>, s: seq<T>, key: T -> Key) {
    && SortedBy(r, key)
    && (forall k :: WithKey(r, key, k) == WithKey(s, key, k))
  }

  /** Inserts `x` after every element of `s` whose key is not larger than its own. */
  function Insert<T>(x: T, s: seq<T>, key: T -> Key): (r: seq<T>)
    ensures |r| == |s| + 1
  {
    if s == [] || KeyLe(key(s[|s| - 1]), key(x)) then s + [x]
    else Insert(x, s[..|s| - 1], key) + [s[|s| - 1]]
  }

  function SortBy<T>(s: seq<T>, key: T -> Key): (r: seq<T>)
    ensures |r| == |s|
  {
    if s == [] then [] else Insert(s[|s| - 1], SortBy(s[..|s| - 1], key), key)
  }

  // ---------------------------------------------------------------------------
  // Properties of WithKey

  lemma {:induction false} WithKeyMembers<T>(s: seq<T>, key: T -> Key, k: Key, x: T)
    ensures x in WithKey(s, key, k) <==> x in s && key(x) == k
  {
    if s != [] {
      WithKeyMembers(s[..|s| - 1], key, k, x);
      assert s == s[..|s| - 1] + [s[|s| - 1]];
    }
  }

  lemma WithKeyAppend<T>(s: seq<T>, x: T, key: T -> Key, k: Key)
    ensures WithKey(s + [x], key, k) == WithKey(s, key, k) + (if key(x) == k then [x] else [])
  {
    assert (s + [x])[..|s|] == s;
  }

  lemma LastKeyOccurs<T>(s: seq<T>, key: T -> Key)
    requires s != []
    ensures WithKey(s, key, key(s[|s| - 1])) != []
  {
  }

  // ---------------------------------------------------------------------------
  // Properties of Insert

  lemma {:induction false} InsertPermutes<T>(x: T, s: seq<T>, key: T -> Key)
    ensures multiset(Insert(x, s, key)) == multiset(s) + multiset{x}
  {
    if s != [] && !KeyLe(key(s[|s| - 1]), key(x)) {
      InsertPermutes(x, s[..|s| - 1], key);
      assert s == s[..|s| - 1] + [s[|s| - 1]];
    }
  }

  /** Insert splices `x` into `s` at some position. */
  lemma {:induction false} InsertSplices<T>(x: T, s: seq<T>, key: T -> Key) returns (p: nat)
    ensures p <= |s| && Insert(x, s, key) == s[..p] + [x] + s[p..]
  {
    if s == [] || KeyLe(key(s[|s| - 1]), key(x)) {
      p := |s|;
    } else {
      var init, last := s[..|s| - 1], s[|s| - 1];
      p := InsertSplices(x, init, key);
      assert s[..p] == init[..p];
      assert s[p..] == init[p..] + [last];
    }
  }

  lemma {:induction false} InsertSorted<T>(x: T, s: seq<T>, key: T -> Key)
    requires SortedBy(s, key)
    ensures SortedBy(Insert(x, s, key), key)
  {
    if s != [] && !KeyLe(key(s[|s| - 1]), key(x)) {
      var init, last := s[..|s| - 1], s[|s| - 1];
      InsertSorted(x, init, key);
      InsertPermutes(x, init, key);
      var r' := Insert(x, init, key);
      forall i | 0 <= i < |r'| ensures KeyLe(key(r'[i]), key(last)) {
        assert r'[i] in multiset(init) + multiset{x};
        if r'[i] != x {
          assert r'[i] in init;
        }
      }
    }
  }

  lemma {:induction false} InsertWithKey<T>(x: T, s: seq<T>, key: T -> Key, k: Key)
    requires SortedBy(s, key)
    ensures WithKey(Insert(x, s, key), key, k) == WithKey(s, key, k) + (if key(x) == k then [x] else [])
  {
    if s == [] || KeyLe(key(s[|s| - 1]), key(x)) {
      WithKeyAppend(s, x, key, k);
    } else {
      var init, last := s[..|s| - 1], s[|s| - 1];
      InsertWithKey(x, init, key, k);
      WithKeyAppend(Insert(x, init, key), last, key, k);
      assert s == init + [last];
      WithKeyAppend(init, last, key, k);
    }
  }

  // ---------------------------------------------------------------------------
  // What SortBy computes

  lemma {:induction false} SortByIsStableSort<T>(s: seq<T>, key: T -> Key)
    ensures SortedBy(SortBy(s, key), key)
    ensures multiset(SortBy(s, key)) == multiset(s)
    ensures forall k :: WithKey(SortBy(s, key), key, k) == WithKey(s, key, k)
  {
    if s != [] {
      var init, last := s[..|s| - 1], s[|s| - 1];
      SortByIsStableSort(init, key);
      InsertSorted(last, SortBy(init, key), key);
      InsertPermutes(last, SortBy(init, key), key);
      assert s == init + [last];
      forall k ensures WithKey(SortBy(s, key), key, k) == WithKey(s, key, k) {
        InsertWithKey(last, SortBy(init, key), key, k);
        WithKeyAppend(init, last, key, k);
      }
    }
  }

  /** A sequence with the same elements per key as the empty sequence is empty. */
  lemma NoKeysMeansEmpty<T>(s: seq<T>, key: T -> Key)
    requires forall k :: WithKey(s, key, k) == []
    ensures s == []
  {
    if s != [] {
      LastKeyOccurs(s, key);
      assert false;
    }
  }

  /** The last element of a sorted sequence carries its largest key. */
  lemma LastKeyIsLargest<T>(s: seq<T>, key: T -> Key, z: T)
    requires SortedBy(s, key) && z in s
    ensures KeyLe(key(z), key(s[|s| - 1]))
  {
    var i :| 0 <= i < |s| && s[i] == z;
    if i < |s| - 1 { }
  }

  /**
   * The last elements of two stable sorts of one sequence coincide, and what
   * precedes them again agrees key by key.
   */
  lemma StableSortsShareLast<T>(a: seq<T>, x: T, b: seq<T>, y: T, key: T -> Key)
    requires SortedBy(a + [x], key) && SortedBy(b + [y], key)
    requires forall k :: WithKey(a + [x], key, k) == WithKey(b + [y], key, k)
    ensures x == y
    ensures forall k :: WithKey(a, key, k) == WithKey(b, key, k)
  {
    WithKeyAppend(a, x, key, key(x));
    WithKeyAppend(b, y, key, key(x));
    WithKeyMembers(b + [y], key, key(x), x);
    LastKeyIsLargest(b + [y], key, x);
    WithKeyAppend(a, x, key, key(y));
    WithKeyAppend(b, y, key, key(y));
    WithKeyMembers(a + [x], key, key(y), y);
    LastKeyIsLargest(a + [x], key, y);
    assert key(x) == key(y);
    var wa := WithKey(a, key, key(x)) + [x];
    var wb := WithKey(b, key, key(x)) + [y];
    assert wa[|wa| - 1] == x && wb[|wb| - 1] == y;
    forall k ensures WithKey(a, key, k) == WithKey(b, key, k) {
      var pa, pb := WithKey(a, key, k), WithKey(b, key, k);
      var tail := if key(x) == k then [x] else [];
      WithKeyAppend(a, x, key, k);
      WithKeyAppend(b, y, key, k);
      assert pa == (pa + tail)[..|pa|];
      assert pb == (pb + tail)[..|pb|];
    }
  }

  /** Two stable sorts of the same sequence are the same sequence. */
  lemma {:induction false} StableSortUnique<T>(a: seq<T>, b: seq<T>, key: T -> Key)
    requires SortedBy(a, key) && SortedBy(b, key)
    requires forall k :: WithKey(a, key, k) == WithKey(b, key, k)
    ensures a == b
    decreases |a|
  {
    if a == [] {
      NoKeysMeansEmpty(b, key);
    } else if b == [] {
      NoKeysMeansEmpty(a, key);
    } else {
      var a', b' := a[..|a| - 1], b[..|b| - 1];
      assert a == a' + [a[|a| - 1]];
      assert b == b' + [b[|b| - 1]];
      StableSortsShareLast(a', a[|a| - 1], b', b[|b| - 1], key);
      StableSortUnique(a', b', key);
    }
  }

  /** `SortBy` is a stable sort, and every stable sort of `s` equals it. */
  lemma SortByCharacterized<T>(s: seq<T>, r: seq<T>, key: T -> Key)
    ensures StableSortOf(r, s, key) <==> r == SortBy(s, key)
  {
    SortByIsStableSort(s, key);
    if StableSortOf(r, s, key) {
      StableSortUnique(r, SortBy(s, key), key);
    }
  }
}
