/** Stable sorting by a key. Python's `list.sort(key=...)` orders by the key
    and keeps the input order of equal keys; JavaScript's
    `Array.prototype.sort` (stable since ES2019) with a comparator of the form
    `(a, b) => rank(a) - rank(b)` is the same sort with an integer key. */
module Sorting {
  import opened Common

  /** `le` orders any two keys, transitively. */
  ghost predicate TotalPreorder<K(!new)>(le: (K, K) -> bool) {
    && (forall a, b :: le(a, b) || le(b, a))
    && (forall a, b, c :: le(a, b) && le(b, c) ==> le(a, c))
  }

  /** Keys never decrease along `s`. */
  predicate SortedByKey<T, K>(s: seq<T>, key: T -> K, le: (K, K) -> bool) {
    forall i, j :: 0 <= i < j < |s| ==> le(key(s[i]), key(s[j]))
  }

  /** The elements of `s` whose key is `k`, in order. */
  function WithKey<T(!new), K(==)>(s: seq<T>, key: T -> K, k: K): (r: seq<T>)
    ensures forall x :: x in r <==> x in s && key(x) == k
  {
    if s == [] then []
    else (if key(s[0]) == k then [s[0]] else []) + WithKey(s[1..], key, k)
  }

  /** Puts `x` in front of the first element whose key it may precede. */
  function Insert<T, K(!new)>(x: T, s: seq<T>, key: T -> K, le: (K, K) -> bool): (r: seq<T>)
    requires TotalPreorder(le) && SortedByKey(s, key, le)
    ensures multiset(r) == multiset(s) + multiset{x}
    ensures SortedByKey(r, key, le)
  {
    if s == [] || le(key(x), key(s[0])) then
      InsertFront(x, s, key, le);
      [x] + s
    else
      var rest := Insert(x, s[1..], key, le);
      InsertBehind(x, s, rest, key, le);
      [s[0]] + rest
  }

  /** The step of `Insert` that puts `x` first. */
  lemma InsertFront<T, K(!new)>(x: T, s: seq<T>, key: T -> K, le: (K, K) -> bool)
    requires TotalPreorder(le) && SortedByKey(s, key, le)
    requires s == [] || le(key(x), key(s[0]))
    ensures SortedByKey([x] + s, key, le)
  {
    var r := [x] + s;
    forall i, j | 0 <= i < j < |r|
      ensures le(key(r[i]), key(r[j]))
    {
      if i == 0 {
        assert r[j] == s[j - 1];
        if j > 1 {
          assert le(key(s[0]), key(s[j - 1]));
        }
      } else {
        assert r[i] == s[i - 1] && r[j] == s[j - 1];
      }
    }
  }

  /** The step of `Insert` that keeps the head of `s` in front. */
  lemma InsertBehind<T, K(!new)>(x: T, s: seq<T>, rest: seq<T>, key: T -> K, le: (K, K) -> bool)
    requires TotalPreorder(le) && SortedByKey(s, key, le)
    requires s != [] && !le(key(x), key(s[0]))
    requires multiset(rest) == multiset(s[1..]) + multiset{x}
    requires SortedByKey(rest, key, le)
    ensures multiset([s[0]] + rest) == multiset(s) + multiset{x}
    ensures SortedByKey([s[0]] + rest, key, le)
  {
    HeadTail(s);
    forall y | y in rest
      ensures le(key(s[0]), key(y))
    {
      assert y in multiset(rest);
      if y != x {
        var j :| 1 <= j < |s| && s[j] == y;
      }
    }
    var r := [s[0]] + rest;
    forall i, j | 0 <= i < j < |r|
      ensures le(key(r[i]), key(r[j]))
    {
      assert r[j] == rest[j - 1];
      if i > 0 {
        assert r[i] == rest[i - 1];
      } else {
        assert rest[j - 1] in rest;
      }
    }
  }

  /** Insertion sort by key: sorted and a permutation of its input. */
  function SortByKey<T, K(!new)>(s: seq<T>, key: T -> K, le: (K, K) -> bool): (r: seq<T>)
    requires TotalPreorder(le)
    ensures multiset(r) == multiset(s)
    ensures SortedByKey(r, key, le)
  {
    if s == [] then []
    else
      HeadTail(s);
      Insert(s[0], SortByKey(s[1..], key, le), key, le)
  }

  /** Inserting into a sorted sequence keeps the relative order of the
      elements of each key, with `x` ahead of the elements sharing its key. */
  lemma {:induction false} InsertStable<T(!new), K(!new)>(x: T, s: seq<T>, key: T -> K, le: (K, K) -> bool, k: K)
    requires TotalPreorder(le) && SortedByKey(s, key, le)
    ensures WithKey(Insert(x, s, key, le), key, k) == WithKey([x] + s, key, k)
  {
    if s != [] && !le(key(x), key(s[0])) {
      InsertStable(x, s[1..], key, le, k);
      InsertStableStep(x, s, key, le, k);
    }
  }

  lemma InsertStableStep<T(!new), K(!new)>(x: T, s: seq<T>, key: T -> K, le: (K, K) -> bool, k: K)
    requires TotalPreorder(le) && SortedByKey(s, key, le)
    requires s != [] && !le(key(x), key(s[0]))
    requires WithKey(Insert(x, s[1..], key, le), key, k) == WithKey([x] + s[1..], key, k)
    ensures WithKey(Insert(x, s, key, le), key, k) == WithKey([x] + s, key, k)
  {
    var hs := if key(s[0]) == k then [s[0]] else [];
    var hx := if key(x) == k then [x] else [];
    var w := WithKey(s[1..], key, k);
    InsertedBehind(x, s, key, le, k);
    WithKeyTwo(x, s, key, k);
    // le is reflexive, so the keys of x and s[0] differ and one head is empty
    assert le(key(x), key(x));
    SwapHeads(hs, hx, w);
  }

  lemma InsertedBehind<T(!new), K(!new)>(x: T, s: seq<T>, key: T -> K, le: (K, K) -> bool, k: K)
    requires TotalPreorder(le) && SortedByKey(s, key, le)
    requires s != [] && !le(key(x), key(s[0]))
    requires WithKey(Insert(x, s[1..], key, le), key, k) == WithKey([x] + s[1..], key, k)
    ensures WithKey(Insert(x, s, key, le), key, k) ==
      (if key(s[0]) == k then [s[0]] else []) +
      ((if key(x) == k then [x] else []) + WithKey(s[1..], key, k))
  {
    var ins := Insert(x, s[1..], key, le);
    InsertUnfold(x, s, key, le);
    WithKeyCons(s[0], ins, key, k);
    WithKeyCons(x, s[1..], key, k);
  }

  lemma InsertUnfold<T, K(!new)>(x: T, s: seq<T>, key: T -> K, le: (K, K) -> bool)
    requires TotalPreorder(le) && SortedByKey(s, key, le)
    requires s != [] && !le(key(x), key(s[0]))
    ensures Insert(x, s, key, le) == [s[0]] + Insert(x, s[1..], key, le)
  {
  }

  lemma WithKeyTwo<T(!new), K>(x: T, s: seq<T>, key: T -> K, k: K)
    requires s != []
    ensures WithKey([x] + s, key, k) ==
      (if key(x) == k then [x] else []) +
      ((if key(s[0]) == k then [s[0]] else []) + WithKey(s[1..], key, k))
  {
    HeadTail(s);
    WithKeyCons(s[0], s[1..], key, k);
    WithKeyCons(x, s, key, k);
  }

  lemma SwapHeads<T>(a: seq<T>, b: seq<T>, w: seq<T>)
    requires a == [] || b == []
    ensures a + (b + w) == b + (a + w)
  {
    if a == [] {
      EmptyFront(b + w);
      EmptyFront(w);
    } else {
      EmptyFront(a + w);
      EmptyFront(w);
    }
  }

  lemma WithKeyCons<T(!new), K>(x: T, s: seq<T>, key: T -> K, k: K)
    ensures WithKey([x] + s, key, k) == (if key(x) == k then [x] else []) + WithKey(s, key, k)
  {
    assert ([x] + s)[1..] == s;
  }

  /** The sort is stable: within each key the input order is kept. */
  lemma {:induction false} SortByKeyStable<T(!new), K(!new)>(s: seq<T>, key: T -> K, le: (K, K) -> bool, k: K)
    requires TotalPreorder(le)
    ensures WithKey(SortByKey(s, key, le), key, k) == WithKey(s, key, k)
  {
    if s != [] {
      SortByKeyStable(s[1..], key, le, k);
      InsertStable(s[0], SortByKey(s[1..], key, le), key, le, k);
      WithKeyCons(s[0], SortByKey(s[1..], key, le), key, k);
      WithKeyCons(s[0], s[1..], key, k);
      HeadTail(s);
    }
  }

  // ---------------------------------------------------------------------------
  // Integer ranks
  // ---------------------------------------------------------------------------

  function IntLe(a: int, b: int): bool {
    a <= b
  }

  lemma IntLeTotal()
    ensures TotalPreorder(IntLe)
  {
  }

  /** Ranks never decrease along `s`. */
  predicate SortedBy<T>(s: seq<T>, rank: T -> int) {
    forall i, j :: 0 <= i < j < |s| ==> rank(s[i]) <= rank(s[j])
  }

  /** Sorting by a rank: sorted and a permutation of its input. */
  function SortByRank<T>(s: seq<T>, rank: T -> int): (r: seq<T>)
    ensures multiset(r) == multiset(s)
    ensures SortedBy(r, rank)
  {
    IntLeTotal();
    var r := SortByKey(s, rank, IntLe);
    assert forall i, j :: 0 <= i < j < |r| ==> IntLe(rank(r[i]), rank(r[j]));
    r
  }

  /** Sorting by rank is stable: within each rank the input order is kept. */
  lemma SortByRankStable<T(!new)>(s: seq<T>, rank: T -> int, k: int)
    ensures WithKey(SortByRank(s, rank), rank, k) == WithKey(s, rank, k)
  {
    IntLeTotal();
    SortByKeyStable(s, rank, IntLe, k);
  }
}
