/**
 * Python list operations used throughout riparr: comprehension filters, slices with
 * Python's bounds, and `sorted(xs, key=...)`, a stable sort by an integer key.
 * `reverse=True` is the same stable sort by the negated key (Python keeps equal elements
 * in their original order in both directions).
 */
module Lists {

  /** `[x for x in s if p(x)]`. */
  function Filter<T>(s: seq<T>, p: T -> bool): (r: seq<T>)
    ensures |r| <= |s|
    ensures forall i :: 0 <= i < |r| ==> p(r[i]) && r[i] in s
    ensures forall x :: x in s && p(x) ==> x in r
    ensures multiset(r) <= multiset(s)
  {
    if s == [] then []
    else
      var init := s[..|s| - 1];
      assert s == init + [s[|s| - 1]];
      Filter(init, p) + (if p(s[|s| - 1]) then [s[|s| - 1]] else [])
  }

  lemma {:induction false} FilterAppend<T>(s: seq<T>, t: seq<T>, p: T -> bool)
    ensures Filter(s + t, p) == Filter(s, p) + Filter(t, p)
    decreases |t|
  {
    if t == [] {
      AppendEmpty(s);
      AppendEmpty(Filter(s, p));
    } else {
      var t0, x := t[..|t| - 1], t[|t| - 1];
      var last: seq<T> := if p(x) then [x] else [];
      DropLastAppend(s, t);
      FilterAppend(s, t0, p);
      AppendAssoc(Filter(s, p), Filter(t0, p), last);
    }
  }

  lemma {:induction false} FilterAll<T>(s: seq<T>, p: T -> bool)
    requires forall i :: 0 <= i < |s| ==> p(s[i])
    ensures Filter(s, p) == s
    decreases |s|
  {
    if s != [] {
      FilterAll(s[..|s| - 1], p);
      FrontLast(s);
    }
  }

  lemma AppendEmpty<T>(s: seq<T>)
    ensures s + [] == s
  {
  }

  /** The front and last element of a concatenation whose second part is not empty. */
  lemma DropLastAppend<T>(a: seq<T>, b: seq<T>)
    requires |b| > 0
    ensures (a + b)[..|a + b| - 1] == a + b[..|b| - 1]
    ensures (a + b)[|a + b| - 1] == b[|b| - 1]
  {
  }

  lemma FilterEmpty<T>(s: seq<T>, p: T -> bool)
    ensures Filter(s, p) == [] <==> forall i :: 0 <= i < |s| ==> !p(s[i])
  {
    if Filter(s, p) != [] {
      var x := Filter(s, p)[0];
      var i :| 0 <= i < |s| && s[i] == x;
    }
  }

  /** Narrowing a filter whose test implies the first one's is the same as filtering once. */
  lemma {:induction false} FilterNarrow<T>(s: seq<T>, p: T -> bool, q: T -> bool)
    requires forall x :: q(x) ==> p(x)
    ensures Filter(Filter(s, p), q) == Filter(s, q)
    decreases |s|
  {
    if s != [] {
      var init, x := s[..|s| - 1], s[|s| - 1];
      var last: seq<T> := if p(x) then [x] else [];
      assert Filter(s, p) == Filter(init, p) + last;
      FilterNarrow(init, p, q);
      FilterAppend(Filter(init, p), last, q);
      FilterSingle(x, q);
      assert Filter(last, q) == if q(x) then [x] else [];
    }
  }

  lemma FilterSingle<T>(x: T, p: T -> bool)
    ensures Filter([x], p) == if p(x) then [x] else []
  {
    assert [x][..0] == [];
  }

  /** One more element of a prefix: the filter grows by it exactly when it passes. */
  lemma FilterStep<T>(s: seq<T>, i: int, p: T -> bool)
    requires 0 <= i < |s|
    ensures Filter(s[..i + 1], p) == Filter(s[..i], p) + (if p(s[i]) then [s[i]] else [])
  {
    assert s[..i + 1] == s[..i] + [s[i]];
    FilterAppend(s[..i], [s[i]], p);
    FilterSingle(s[i], p);
  }

  /** `a` is `b` with some elements left out, the rest in their order. */
  predicate Subseq<T(==)>(a: seq<T>, b: seq<T>)
    decreases |b|
  {
    a == [] ||
    (b != [] &&
     ((a[|a| - 1] == b[|b| - 1] && Subseq(a[..|a| - 1], b[..|b| - 1])) || Subseq(a, b[..|b| - 1])))
  }

  lemma {:induction false} SubseqMultiset<T>(a: seq<T>, b: seq<T>)
    requires Subseq(a, b)
    ensures multiset(a) <= multiset(b)
    decreases |b|
  {
    if a != [] {
      assert b == b[..|b| - 1] + [b[|b| - 1]];
      if a[|a| - 1] == b[|b| - 1] && Subseq(a[..|a| - 1], b[..|b| - 1]) {
        SubseqMultiset(a[..|a| - 1], b[..|b| - 1]);
        assert a == a[..|a| - 1] + [a[|a| - 1]];
      } else {
        SubseqMultiset(a, b[..|b| - 1]);
      }
    }
  }

  lemma {:induction false} SubseqRefl<T>(s: seq<T>)
    ensures Subseq(s, s)
    decreases |s|
  {
    if s != [] {
      SubseqRefl(s[..|s| - 1]);
    }
  }

  lemma {:induction false} SubseqTrans<T>(a: seq<T>, b: seq<T>, c: seq<T>)
    requires Subseq(a, b) && Subseq(b, c)
    ensures Subseq(a, c)
    decreases |c|
  {
    if a != [] {
      var a0, b0, c0 := a[..|a| - 1], b[..|b| - 1], c[..|c| - 1];
      if b[|b| - 1] == c[|c| - 1] && Subseq(b0, c0) {
        if a[|a| - 1] == b[|b| - 1] && Subseq(a0, b0) {
          SubseqTrans(a0, b0, c0);
        } else {
          SubseqTrans(a, b0, c0);
        }
      } else {
        SubseqTrans(a, b, c0);
      }
    }
  }

  /** What a sub-multiset holds, the larger one holds too. */
  lemma Members<T>(a: seq<T>, b: seq<T>)
    requires multiset(a) <= multiset(b)
    ensures forall x :: x in a ==> x in b
  {
    forall x | x in a ensures x in b {
      assert x in multiset(a);
    }
  }

  lemma SameMembers<T>(a: seq<T>, b: seq<T>)
    requires multiset(a) == multiset(b)
    ensures forall x :: x in a <==> x in b
  {
    Members(a, b);
    Members(b, a);
  }

  lemma {:induction false} FilterSubseq<T>(s: seq<T>, p: T -> bool)
    ensures Subseq(Filter(s, p), s)
    decreases |s|
  {
    if s != [] {
      var init, x := s[..|s| - 1], s[|s| - 1];
      FilterSubseq(init, p);
      var r := Filter(s, p);
      if p(x) {
        assert r[..|r| - 1] == Filter(init, p);
      } else {
        assert r == Filter(init, p);
      }
    }
  }

  /** No two elements share a key. */
  predicate DistinctBy<T, K(==)>(s: seq<T>, key: T -> K)
  {
    forall i, j :: 0 <= i < j < |s| ==> key(s[i]) != key(s[j])
  }

  lemma Twice<T>(s: seq<T>, i: int, j: int)
    requires 0 <= i < j < |s| && s[i] == s[j]
    ensures multiset(s)[s[i]] >= 2
  {
    assert s == s[..j] + s[j..];
    assert s[i] == s[..j][i];
    assert s[j] == s[j..][0];
  }

  lemma TwoPlaces<T>(s: seq<T>, x: T)
    requires multiset(s)[x] >= 2
    ensures exists i, j :: 0 <= i < j < |s| && s[i] == x && s[j] == x
  {
    assert x in multiset(s);
    var a :| 0 <= a < |s| && s[a] == x;
    assert s == s[..a] + [x] + s[a + 1..];
    assert multiset(s[..a])[x] + multiset(s[a + 1..])[x] >= 1;
    if x in s[..a] {
      var b :| 0 <= b < a && s[..a][b] == x;
      assert s[b] == x;
    } else {
      assert x in s[a + 1..];
      var b :| 0 <= b < |s| - a - 1 && s[a + 1..][b] == x;
      assert s[a + 1 + b] == x;
    }
  }

  /** Taking some of the elements of a list whose keys are distinct, in any order, keeps them distinct. */
  lemma DistinctBySub<T, K>(r: seq<T>, d: seq<T>, key: T -> K)
    requires multiset(r) <= multiset(d) && DistinctBy(d, key)
    ensures DistinctBy(r, key)
  {
    forall i, j | 0 <= i < j < |r|
      ensures key(r[i]) != key(r[j])
    {
      if r[i] == r[j] {
        Twice(r, i, j);
        TwoPlaces(d, r[i]);
      } else {
        assert r[i] in multiset(d) && r[j] in multiset(d);
        var a :| 0 <= a < |d| && d[a] == r[i];
        var b :| 0 <= b < |d| && d[b] == r[j];
        assert a < b || b < a;
      }
    }
  }

  /** In a sorted list, what a prefix leaves behind has keys no smaller than the prefix's. */
  lemma SortedPrefixFirst<T>(sorted: seq<T>, key: T -> int, n: nat)
    requires SortedBy(sorted, key) && n <= |sorted|
    ensures multiset(sorted) - multiset(sorted[..n]) == multiset(sorted[n..])
    ensures forall x, y :: x in sorted[..n] && y in multiset(sorted) - multiset(sorted[..n]) ==> key(x) <= key(y)
  {
    assert sorted == sorted[..n] + sorted[n..];
    assert multiset(sorted) - multiset(sorted[..n]) == multiset(sorted[n..]);
    forall x, y | x in sorted[..n] && y in multiset(sorted[n..])
      ensures key(x) <= key(y)
    {
      var i :| 0 <= i < n && sorted[..n][i] == x;
      assert y in sorted[n..];
      var j :| 0 <= j < |sorted| - n && sorted[n..][j] == y;
      assert sorted[i] == x && sorted[n + j] == y;
    }
  }

  /** `s[:n]` with Python's treatment of a negative or too large bound. */
  function PyTake<T>(s: seq<T>, n: int): (r: seq<T>)
    ensures 0 <= n ==> |r| == if n < |s| then n else |s|
    ensures n < 0 ==> |r| == if |s| + n < 0 then 0 else |s| + n
    ensures r == s[..|r|]
  {
    if n >= 0 then (if n < |s| then s[..n] else s)
    else if |s| + n < 0 then [] else s[..|s| + n]
  }

  /** `s[n:]` with Python's treatment of a negative or too large bound. */
  function PyDrop<T>(s: seq<T>, n: int): (r: seq<T>)
    ensures PyTake(s, n) + r == s
  {
    var k := |PyTake(s, n)|;
    assert s == s[..k] + s[k..];
    s[k..]
  }

  lemma TakeSub<T>(s: seq<T>, n: int)
    ensures multiset(PyTake(s, n)) <= multiset(s)
  {
    var k := |PyTake(s, n)|;
    assert s == s[..k] + s[k..];
  }

  /** Ascending by `key`. */
  predicate SortedBy<T>(s: seq<T>, key: T -> int)
  {
    forall i, j :: 0 <= i < j < |s| ==> key(s[i]) <= key(s[j])
  }

  /** The elements of `s` whose key is `k`, in their order in `s`. */
  function WithKey<T>(s: seq<T>, key: T -> int, k: int): seq<T>
  {
    if s == [] then [] else (if key(s[0]) == k then [s[0]] else []) + WithKey(s[1..], key, k)
  }

  lemma {:induction false} WithKeyAppend<T>(s: seq<T>, x: T, key: T -> int, k: int)
    ensures WithKey(s + [x], key, k) == WithKey(s, key, k) + (if key(x) == k then [x] else [])
    decreases |s|
  {
    if s == [] {
      assert [] + [x] == [x];
    } else {
      assert (s + [x])[1..] == s[1..] + [x];
      WithKeyAppend(s[1..], x, key, k);
    }
  }

  lemma {:induction false} WithKeyAbsent<T>(s: seq<T>, key: T -> int, k: int)
    requires forall i :: 0 <= i < |s| ==> key(s[i]) != k
    ensures WithKey(s, key, k) == []
    decreases |s|
  {
    if s != [] {
      WithKeyAbsent(s[1..], key, k);
    }
  }

  lemma SortedTail<T>(s: seq<T>, key: T -> int)
    requires |s| > 0 && SortedBy(s, key)
    ensures SortedBy(s[1..], key)
    ensures forall i :: 0 <= i < |s| ==> key(s[0]) <= key(s[i])
  {
    forall i, j | 0 <= i < j < |s| - 1
      ensures key(s[1..][i]) <= key(s[1..][j])
    {
      assert s[1..][i] == s[i + 1] && s[1..][j] == s[j + 1];
    }
  }

  /** Puts `x` after every element whose key is not greater than its own. */
  function Insert<T>(x: T, s: seq<T>, key: T -> int): (r: seq<T>)
    requires SortedBy(s, key)
    ensures SortedBy(r, key)
    ensures multiset(r) == multiset(s) + multiset{x}
    ensures |r| == |s| + 1
    decreases |s|
  {
    if s == [] then [x]
    else if key(x) < key(s[0]) then
      InsertFront(x, s, key);
      [x] + s
    else
      SortedTail(s, key);
      var rest := Insert(x, s[1..], key);
      InsertLater(x, s, rest, key);
      [s[0]] + rest
  }

  lemma InsertFront<T>(x: T, s: seq<T>, key: T -> int)
    requires SortedBy(s, key) && |s| > 0 && key(x) < key(s[0])
    ensures SortedBy([x] + s, key) && multiset([x] + s) == multiset(s) + multiset{x}
  {
    SortedTail(s, key);
    var r := [x] + s;
    forall i, j | 0 <= i < j < |r|
      ensures key(r[i]) <= key(r[j])
    {
      if i > 0 {
        assert r[i] == s[i - 1];
      }
      assert r[j] == s[j - 1];
    }
  }

  /** Keeping the head in front of a sorted insertion into the tail keeps the order. */
  lemma InsertLater<T>(x: T, s: seq<T>, rest: seq<T>, key: T -> int)
    requires SortedBy(s, key) && |s| > 0 && key(s[0]) <= key(x)
    requires SortedBy(rest, key) && multiset(rest) == multiset(s[1..]) + multiset{x}
    ensures SortedBy([s[0]] + rest, key) && multiset([s[0]] + rest) == multiset(s) + multiset{x}
  {
    SortedTail(s, key);
    HeadTail(s);
    forall i | 0 <= i < |rest|
      ensures key(s[0]) <= key(rest[i])
    {
      assert rest[i] in multiset(rest);
      assert rest[i] == x || rest[i] in multiset(s[1..]);
      if rest[i] != x {
        assert rest[i] in s[1..];
      }
    }
    var r := [s[0]] + rest;
    forall i, j | 0 <= i < j < |r|
      ensures key(r[i]) <= key(r[j])
    {
      assert r[j] == rest[j - 1];
      if i > 0 {
        assert r[i] == rest[i - 1];
      }
    }
  }

  lemma WithKeyCons<T>(y: T, r: seq<T>, key: T -> int, k: int)
    ensures WithKey([y] + r, key, k) == (if key(y) == k then [y] else []) + WithKey(r, key, k)
  {
    assert ([y] + r)[1..] == r;
  }

  lemma InsertStableFront<T>(x: T, s: seq<T>, key: T -> int, k: int)
    requires SortedBy(s, key) && |s| > 0 && key(x) < key(s[0])
    ensures WithKey([x] + s, key, k) == WithKey(s, key, k) + (if key(x) == k then [x] else [])
  {
    if key(x) == k {
      SortedTail(s, key);
      WithKeyAbsent(s, key, k);
    }
    WithKeyCons(x, s, key, k);
  }

  /** A non-empty list is its head followed by its tail. */
  lemma HeadTail<T>(s: seq<T>)
    requires |s| > 0
    ensures s == [s[0]] + s[1..]
  {
  }

  /** A non-empty list is its front followed by its last element. */
  lemma FrontLast<T>(s: seq<T>)
    requires |s| > 0
    ensures s == s[..|s| - 1] + [s[|s| - 1]]
  {
  }

  /** Dropping the head of a concatenation drops the head of its first part. */
  lemma TailAppend<T>(a: seq<T>, b: seq<T>)
    requires |a| > 0
    ensures a[1..] + b == (a + b)[1..]
  {
  }

  /** Concatenation is associative. */
  lemma AppendAssoc<T>(a: seq<T>, b: seq<T>, c: seq<T>)
    ensures a + (b + c) == (a + b) + c
  {
  }

  lemma InsertStableLater<T>(x: T, s: seq<T>, key: T -> int, k: int)
    requires SortedBy(s, key) && |s| > 0 && key(s[0]) <= key(x)
    requires SortedBy(s[1..], key)
    requires WithKey(Insert(x, s[1..], key), key, k) == WithKey(s[1..], key, k) + (if key(x) == k then [x] else [])
    ensures WithKey(Insert(x, s, key), key, k) == WithKey(s, key, k) + (if key(x) == k then [x] else [])
  {
    var rest := Insert(x, s[1..], key);
    assert Insert(x, s, key) == [s[0]] + rest;
    HeadTail(s);
    WithKeyConsBoth(s[0], rest, s[1..], if key(x) == k then [x] else [], key, k);
  }

  /** Putting the same element in front of two lists keeps what their keyed parts differ by. */
  lemma WithKeyConsBoth<T>(y: T, a: seq<T>, b: seq<T>, tail: seq<T>, key: T -> int, k: int)
    requires WithKey(a, key, k) == WithKey(b, key, k) + tail
    ensures WithKey([y] + a, key, k) == WithKey([y] + b, key, k) + tail
  {
    var head: seq<T> := if key(y) == k then [y] else [];
    WithKeyCons(y, a, key, k);
    WithKeyCons(y, b, key, k);
    AppendAssoc(head, WithKey(b, key, k), tail);
  }

  lemma {:induction false} InsertStable<T>(x: T, s: seq<T>, key: T -> int, k: int)
    requires SortedBy(s, key)
    ensures WithKey(Insert(x, s, key), key, k) == WithKey(s, key, k) + (if key(x) == k then [x] else [])
    decreases |s|
  {
    if s == [] {
    } else if key(x) < key(s[0]) {
      InsertStableFront(x, s, key, k);
    } else {
      SortedTail(s, key);
      InsertStable(x, s[1..], key, k);
      InsertStableLater(x, s, key, k);
    }
  }

  /**
   * `sorted(s, key=key)`: ascending, a permutation of `s`, and stable: the elements that
   * share a key keep their relative order.
   */
  function SortBy<T>(s: seq<T>, key: T -> int): (r: seq<T>)
    ensures SortedBy(r, key)
    ensures multiset(r) == multiset(s)
    ensures |r| == |s|
    decreases |s|
  {
    if s == [] then []
    else
      assert s == s[..|s| - 1] + [s[|s| - 1]];
      Insert(s[|s| - 1], SortBy(s[..|s| - 1], key), key)
  }

  /** Sorting keeps, for every key, the subsequence of elements carrying it. */
  lemma {:induction false} SortByStable<T>(s: seq<T>, key: T -> int, k: int)
    ensures WithKey(SortBy(s, key), key, k) == WithKey(s, key, k)
    decreases |s|
  {
    if s != [] {
      var init, x := s[..|s| - 1], s[|s| - 1];
      var tail: seq<T> := if key(x) == k then [x] else [];
      SortByStable(init, key, k);
      InsertStable(x, SortBy(init, key), key, k);
      FrontLast(s);
      WithKeyAppend(init, x, key, k);
      calc {
        WithKey(SortBy(s, key), key, k);
        WithKey(Insert(x, SortBy(init, key), key), key, k);
        WithKey(SortBy(init, key), key, k) + tail;
        WithKey(init, key, k) + tail;
        WithKey(s, key, k);
      }
    }
  }

  /** Sorting a list that is already in key order leaves it unchanged. */
  lemma {:induction false} SortBySorted<T>(s: seq<T>, key: T -> int)
    requires SortedBy(s, key)
    ensures SortBy(s, key) == s
    decreases |s|
  {
    if s != [] {
      var init, x := s[..|s| - 1], s[|s| - 1];
      FrontLast(s);
      assert SortedBy(init, key) by {
        forall i, j | 0 <= i < j < |init| ensures key(init[i]) <= key(init[j]) {
          assert init[i] == s[i] && init[j] == s[j];
        }
      }
      assert forall i :: 0 <= i < |init| ==> key(init[i]) <= key(x) by {
        forall i | 0 <= i < |init| ensures key(init[i]) <= key(x) {
          assert init[i] == s[i];
        }
      }
      SortBySorted(init, key);
      InsertAtEnd(x, init, key);
      assert SortBy(s, key) == Insert(x, SortBy(init, key), key);
    }
  }

  lemma {:induction false} InsertAtEnd<T>(x: T, s: seq<T>, key: T -> int)
    requires SortedBy(s, key)
    requires forall i :: 0 <= i < |s| ==> key(s[i]) <= key(x)
    ensures Insert(x, s, key) == s + [x]
    decreases |s|
  {
    if s != [] {
      SortedTail(s, key);
      InsertAtEnd(x, s[1..], key);
      HeadTail(s);
    }
  }

  /**
   * Cutting a list sorted by `key` down to `n` elements keeps elements whose keys are no
   * greater than those of the elements it drops.
   */
  lemma TakeSorted<T>(d: seq<T>, key: T -> int, n: int)
    ensures multiset(PyTake(SortBy(d, key), n)) <= multiset(d)
    ensures forall x, y :: x in PyTake(SortBy(d, key), n) && y in multiset(d) - multiset(PyTake(SortBy(d, key), n)) ==>
      key(x) <= key(y)
  {
    var sorted := SortBy(d, key);
    var kept := PyTake(sorted, n);
    assert kept == sorted[..|kept|];
    SortedPrefixFirst(sorted, key, |kept|);
    TakeSub(sorted, n);
  }

  // ---------------------------------------------------------------------------
  // The first element of each key
  // ---------------------------------------------------------------------------

  /** The keys of the elements of `s`. */
  function KeysOf<T, K(==)>(s: seq<T>, key: T -> K): set<K>
  {
    if s == [] then {} else KeysOf(s[..|s| - 1], key) + {key(s[|s| - 1])}
  }

  /** The first element of `s` of every key, in their order in `s`. */
  function Dedup<T, K(==)>(s: seq<T>, key: T -> K): seq<T>
  {
    if s == [] then []
    else
      var init, x := s[..|s| - 1], s[|s| - 1];
      Dedup(init, key) + (if key(x) in KeysOf(init, key) then [] else [x])
  }

  lemma {:induction false} KeysOfMeaning<T, K>(s: seq<T>, key: T -> K)
    ensures forall i :: 0 <= i < |s| ==> key(s[i]) in KeysOf(s, key)
    ensures forall k :: k in KeysOf(s, key) ==> exists i :: 0 <= i < |s| && key(s[i]) == k
  {
    if s != [] {
      var init := s[..|s| - 1];
      KeysOfMeaning(init, key);
      assert KeysOf(s, key) == KeysOf(init, key) + {key(s[|s| - 1])};
      forall k | k in KeysOf(s, key)
        ensures exists i :: 0 <= i < |s| && key(s[i]) == k
      {
        if k in KeysOf(init, key) {
          var i :| 0 <= i < |init| && key(init[i]) == k;
          assert s[i] == init[i];
        } else {
          assert key(s[|s| - 1]) == k;
        }
      }
      forall i | 0 <= i < |s|
        ensures key(s[i]) in KeysOf(s, key)
      {
        if i < |s| - 1 {
          assert init[i] == s[i];
        }
      }
    }
  }

  lemma {:induction false} KeysOfAppend<T, K>(a: seq<T>, b: seq<T>, key: T -> K)
    ensures KeysOf(a + b, key) == KeysOf(a, key) + KeysOf(b, key)
    decreases |b|
  {
    if b == [] {
      assert a + b == a;
    } else {
      assert (a + b)[..|a + b| - 1] == a + b[..|b| - 1];
      KeysOfAppend(a, b[..|b| - 1], key);
    }
  }

  lemma {:induction false} DedupSubseq<T, K>(s: seq<T>, key: T -> K)
    ensures Subseq(Dedup(s, key), s)
    decreases |s|
  {
    if s != [] {
      var init, x := s[..|s| - 1], s[|s| - 1];
      DedupSubseq(init, key);
      var d := Dedup(s, key);
      if key(x) in KeysOf(init, key) {
        assert d == Dedup(init, key);
      } else {
        assert d[..|d| - 1] == Dedup(init, key);
      }
    }
  }

  lemma {:induction false} DedupKeys<T, K>(s: seq<T>, key: T -> K)
    ensures KeysOf(Dedup(s, key), key) == KeysOf(s, key)
    decreases |s|
  {
    if s != [] {
      var init, x := s[..|s| - 1], s[|s| - 1];
      DedupKeys(init, key);
      var last: seq<T> := if key(x) in KeysOf(init, key) then [] else [x];
      KeysOfAppend(Dedup(init, key), last, key);
      assert KeysOf([x], key) == {key(x)} by {
        assert [x][..0] == [];
      }
    }
  }

  lemma {:induction false} DedupDistinct<T, K>(s: seq<T>, key: T -> K)
    ensures DistinctBy(Dedup(s, key), key)
    decreases |s|
  {
    if s != [] {
      var init, x := s[..|s| - 1], s[|s| - 1];
      DedupDistinct(init, key);
      DedupKeys(init, key);
      var d0 := Dedup(init, key);
      KeysOfMeaning(d0, key);
      var d := Dedup(s, key);
      forall i, j | 0 <= i < j < |d|
        ensures key(d[i]) != key(d[j])
      {
        assert d[i] == d0[i];
        if j < |d0| {
          assert d[j] == d0[j];
        } else {
          assert d[j] == x && key(x) !in KeysOf(d0, key);
          assert key(d0[i]) in KeysOf(d0, key);
        }
      }
    }
  }

  /** An element whose key no earlier element has is kept. */
  lemma {:induction false} DedupKeepsFirst<T, K>(s: seq<T>, key: T -> K, i: int)
    requires 0 <= i < |s| && key(s[i]) !in KeysOf(s[..i], key)
    ensures s[i] in Dedup(s, key)
    decreases |s|
  {
    var init := s[..|s| - 1];
    if i < |s| - 1 {
      assert s[..i] == init[..i] && s[i] == init[i];
      DedupKeepsFirst(init, key, i);
    } else {
      assert s[..i] == init;
    }
  }

  /** Every element kept is at a place where its key has not occurred before. */
  lemma {:induction false} DedupOnlyFirst<T, K>(s: seq<T>, key: T -> K, x: T)
    requires x in Dedup(s, key)
    ensures exists i :: 0 <= i < |s| && s[i] == x && key(x) !in KeysOf(s[..i], key)
    decreases |s|
  {
    var init := s[..|s| - 1];
    if x in Dedup(init, key) {
      DedupOnlyFirst(init, key, x);
      var i :| 0 <= i < |init| && init[i] == x && key(x) !in KeysOf(init[..i], key);
      assert s[..i] == init[..i] && s[i] == init[i];
    } else {
      assert x == s[|s| - 1] && s[..|s| - 1] == init;
    }
  }
}
