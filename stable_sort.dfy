/** A stable sort, highest key first. Python's `list.sort` and `sorted` are
    stable also with `reverse=True`: elements with equal keys keep their
    original order. Keys are pairs compared lexicographically, the way Python
    compares the tuples and numbers the sorts in this system use as keys. */
module StableSort {

  /** A sort key: `major` decides, `minor` breaks ties. */
  datatype Key = Key(major: int, minor: real)

  predicate AtLeast(a: Key, b: Key)
  {
    a.major > b.major || (a.major == b.major && a.minor >= b.minor)
  }

  /** Highest key first: no element's key is above an earlier element's key. */
  ghost predicate SortedBy<T>(s: seq<T>, key: T -> Key)
  {
    forall i, j :: 0 <= i < j < |s| ==> AtLeast(key(s[i]), key(s[j]))
  }

  /** The elements of `s` whose key is `k`, in their order in `s`. A sort is
      stable when it keeps this subsequence for every `k`. */
  function WithKey<T>(s: seq<T>, key: T -> Key, k: Key): seq<T>
  {
    if s == [] then []
    else (if key(s[0]) == k then [s[0]] else []) + WithKey(s[1..], key, k)
  }

  /** Puts `x` in front of the first element whose key is not above its own. */
  function Insert<T>(x: T, s: seq<T>, key: T -> Key): (r: seq<T>)
    ensures multiset(r) == multiset(s) + multiset{x}
  {
    if s == [] then [x]
    else if AtLeast(key(x), key(s[0])) then [x] + s
    else
      assert s == [s[0]] + s[1..];
      [s[0]] + Insert(x, s[1..], key)
  }

  /** Stable insertion sort, highest key first. */
  function Sort<T>(s: seq<T>, key: T -> Key): (r: seq<T>)
    ensures multiset(r) == multiset(s)
  {
    if s == [] then []
    else
      assert s == [s[0]] + s[1..];
      Insert(s[0], Sort(s[1..], key), key)
  }

  /** Every key in `s` is at most `k`. */
  ghost predicate Below<T>(s: seq<T>, key: T -> Key, k: Key)
  {
    forall i :: 0 <= i < |s| ==> AtLeast(k, key(s[i]))
  }

  lemma {:induction false} InsertBelow<T>(x: T, s: seq<T>, key: T -> Key, k: Key)
    requires AtLeast(k, key(x)) && Below(s, key, k)
    ensures Below(Insert(x, s, key), key, k)
  {
    if s != [] && !AtLeast(key(x), key(s[0])) {
      InsertBelow(x, s[1..], key, k);
      var u := Insert(x, s[1..], key);
      var r := [s[0]] + u;
      assert Insert(x, s, key) == r;
      forall i | 0 <= i < |r|
        ensures AtLeast(k, key(r[i]))
      {
        if i > 0 {
          assert r[i] == u[i - 1];
        }
      }
    } else if s == [] {
      assert Insert(x, s, key) == [x];
    } else {
      var r := [x] + s;
      assert Insert(x, s, key) == r;
      forall i | 0 <= i < |r|
        ensures AtLeast(k, key(r[i]))
      {
        if i > 0 {
          assert r[i] == s[i - 1];
        }
      }
    }
  }

  lemma {:induction false} InsertSorted<T>(x: T, s: seq<T>, key: T -> Key)
    requires SortedBy(s, key)
    ensures SortedBy(Insert(x, s, key), key)
  {
    if s != [] && !AtLeast(key(x), key(s[0])) {
      var t := s[1..];
      InsertSorted(x, t, key);
      InsertBelow(x, t, key, key(s[0]));
      var u := Insert(x, t, key);
      var r := [s[0]] + u;
      assert Insert(x, s, key) == r;
      forall i, j | 0 <= i < j < |r|
        ensures AtLeast(key(r[i]), key(r[j]))
      {
        assert r[j] == u[j - 1];
        if i > 0 {
          assert r[i] == u[i - 1];
        }
      }
    }
  }

  /** The result is ordered highest key first. */
  lemma {:induction false} SortSorted<T>(s: seq<T>, key: T -> Key)
    ensures SortedBy(Sort(s, key), key)
  {
    if s != [] {
      SortSorted(s[1..], key);
      InsertSorted(s[0], Sort(s[1..], key), key);
    }
  }

  lemma WithKeyCons<T>(a: T, t: seq<T>, key: T -> Key, k: Key)
    ensures WithKey([a] + t, key, k) == (if key(a) == k then [a] else []) + WithKey(t, key, k)
  {
    assert ([a] + t)[1..] == t;
  }

  lemma {:induction false} InsertWithKey<T>(x: T, s: seq<T>, key: T -> Key, k: Key)
    ensures WithKey(Insert(x, s, key), key, k)
         == (if key(x) == k then [x] else []) + WithKey(s, key, k)
  {
    if s == [] {
      WithKeyCons(x, [], key, k);
    } else if AtLeast(key(x), key(s[0])) {
      WithKeyCons(x, s, key, k);
    } else {
      var s0, t := s[0], s[1..];
      assert s == [s0] + t;
      var u := Insert(x, t, key);
      assert Insert(x, s, key) == [s0] + u;
      InsertWithKey(x, t, key, k);
      WithKeyCons(s0, u, key, k);
      WithKeyCons(s0, t, key, k);
      // s0's key is strictly above x's, so at most one of them has key k
      if key(s0) == k {
        assert key(x) != k;
      }
    }
  }

  /** The sort is stable: for every key, the elements with that key keep
      their relative order. */
  lemma {:induction false} SortStable<T>(s: seq<T>, key: T -> Key, k: Key)
    ensures WithKey(Sort(s, key), key, k) == WithKey(s, key, k)
  {
    if s != [] {
      SortStable(s[1..], key, k);
      InsertWithKey(s[0], Sort(s[1..], key), key, k);
    }
  }
}
