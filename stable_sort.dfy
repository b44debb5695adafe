/**
 * `Enumerable.OrderBy(key).ToList()`: an ascending, stable sort by a key.
 * The key of each element is given as a map, so that the key may be a
 * field of an object (a price per litre) read once before sorting.
 * Stability is stated as: for every key value, the elements with that key
 * keep their relative order.
 */
module StableSort {

  /** Every element of `s` has a key. */
  predicate Keyed<T>(s: seq<T>, key: map<T, real>) {
    forall x | x in s :: x in key
  }

  predicate Ascending<T>(s: seq<T>, key: map<T, real>)
    requires Keyed(s, key)
  {
    forall i, j | 0 <= i < j < |s| :: key[s[i]] <= key[s[j]]
  }

  /** The elements of `s` whose key is `v`, in their order in `s`. */
  function WithKey<T>(s: seq<T>, key: map<T, real>, v: real): (r: seq<T>)
    requires Keyed(s, key)
  {
    if s == [] then []
    else (if key[s[0]] == v then [s[0]] else []) + WithKey(s[1..], key, v)
  }

  lemma {:induction false} WithAbsentKey<T>(s: seq<T>, key: map<T, real>, v: real)
    requires Keyed(s, key)
    requires forall x | x in s :: key[x] != v
    ensures WithKey(s, key, v) == []
  {
    if s != [] {
      WithAbsentKey(s[1..], key, v);
    }
  }

  lemma WithKeyCons<T>(x: T, s: seq<T>, key: map<T, real>, v: real)
    requires Keyed(s, key) && x in key
    ensures Keyed([x] + s, key)
    ensures WithKey([x] + s, key, v) == (if key[x] == v then [x] else []) + WithKey(s, key, v)
  {
    assert ([x] + s)[1..] == s;
  }

  /** Inserts `x` before the first element of `s` whose key is not smaller
      than that of `x`, so that `x` precedes the elements with the same key. */
  function Insert<T>(s: seq<T>, key: map<T, real>, x: T): (r: seq<T>)
    requires Keyed(s, key) && x in key
    ensures Keyed(r, key) && |r| == |s| + 1
  {
    if s == [] || key[x] <= key[s[0]] then [x] + s
    else [s[0]] + Insert(s[1..], key, x)
  }

  /** Inserting into an ascending sequence keeps it ascending, adds `x` to the
      elements, and puts `x` first among the elements with its key. */
  lemma {:induction false} InsertSpec<T>(s: seq<T>, key: map<T, real>, x: T)
    requires Keyed(s, key) && x in key && Ascending(s, key)
    ensures Ascending(Insert(s, key, x), key)
    ensures multiset(Insert(s, key, x)) == multiset(s) + multiset{x}
    ensures forall v :: WithKey(Insert(s, key, x), key, v) == (if key[x] == v then [x] else []) + WithKey(s, key, v)
  {
    if s == [] || key[x] <= key[s[0]] {
      forall v ensures WithKey([x] + s, key, v) == (if key[x] == v then [x] else []) + WithKey(s, key, v) {
        WithKeyCons(x, s, key, v);
      }
    } else {
      InsertSpec(s[1..], key, x);
      InsertBehind(s, key, x, Insert(s[1..], key, x));
    }
  }

  /** The step of Insert that passes over the first element `s[0]`, whose key
      is below that of `x`. */
  lemma InsertBehind<T>(s: seq<T>, key: map<T, real>, x: T, rest: seq<T>)
    requires Keyed(s, key) && x in key && Ascending(s, key)
    requires s != [] && key[s[0]] < key[x]
    requires Keyed(rest, key) && Ascending(rest, key)
    requires multiset(rest) == multiset(s[1..]) + multiset{x}
    requires forall v :: WithKey(rest, key, v) == (if key[x] == v then [x] else []) + WithKey(s[1..], key, v)
    ensures Keyed([s[0]] + rest, key) && Ascending([s[0]] + rest, key)
    ensures multiset([s[0]] + rest) == multiset(s) + multiset{x}
    ensures forall v :: WithKey([s[0]] + rest, key, v) == (if key[x] == v then [x] else []) + WithKey(s, key, v)
  {
    assert s == [s[0]] + s[1..];
    AscendingBehind(s, key, x, rest);
    WithKeyBehind(s, key, x, rest);
  }

  lemma WithKeyBehind<T>(s: seq<T>, key: map<T, real>, x: T, rest: seq<T>)
    requires Keyed(s, key) && x in key && s != [] && key[s[0]] < key[x] && Keyed(rest, key)
    requires forall v :: WithKey(rest, key, v) == (if key[x] == v then [x] else []) + WithKey(s[1..], key, v)
    ensures Keyed([s[0]] + rest, key)
    ensures forall v :: WithKey([s[0]] + rest, key, v) == (if key[x] == v then [x] else []) + WithKey(s, key, v)
  {
    forall v ensures WithKey([s[0]] + rest, key, v) == (if key[x] == v then [x] else []) + WithKey(s, key, v) {
      WithKeyCons(s[0], rest, key, v);
      WithKeyCons(s[0], s[1..], key, v);
      assert s == [s[0]] + s[1..];
      var w := WithKey(s[1..], key, v);
      if key[s[0]] == v {
        assert WithKey(rest, key, v) == w;
        assert WithKey(s, key, v) == [s[0]] + w;
      } else {
        assert WithKey([s[0]] + rest, key, v) == WithKey(rest, key, v);
        assert WithKey(s, key, v) == w;
      }
    }
  }

  lemma AscendingBehind<T>(s: seq<T>, key: map<T, real>, x: T, rest: seq<T>)
    requires Keyed(s, key) && x in key && Ascending(s, key)
    requires s != [] && key[s[0]] < key[x]
    requires Keyed(rest, key) && Ascending(rest, key)
    requires multiset(rest) == multiset(s[1..]) + multiset{x}
    ensures Keyed([s[0]] + rest, key) && Ascending([s[0]] + rest, key)
  {
    var y := s[0];
    var r := [y] + rest;
    forall z | z in rest ensures key[y] <= key[z] {
      assert z in multiset(rest);
      if z != x {
        assert z in multiset(s[1..]);
        var k :| 0 <= k < |s[1..]| && s[1..][k] == z;
        assert s[k + 1] == z;
      }
    }
    forall i, j | 0 <= i < j < |r| ensures key[r[i]] <= key[r[j]] {
      assert r[j] == rest[j - 1];
      if i > 0 { assert r[i] == rest[i - 1]; }
    }
  }

  /** The stable sort of `s` by `key`, by insertion. */
  function SortByKey<T>(s: seq<T>, key: map<T, real>): (r: seq<T>)
    requires Keyed(s, key)
    ensures |r| == |s| && Keyed(r, key)
  {
    if s == [] then [] else Insert(SortByKey(s[1..], key), key, s[0])
  }

  /** The sort is ascending, a permutation of `s`, and keeps equal-key
      elements in their original order. */
  lemma {:induction false} SortByKeySpec<T>(s: seq<T>, key: map<T, real>)
    requires Keyed(s, key)
    ensures multiset(SortByKey(s, key)) == multiset(s)
    ensures Ascending(SortByKey(s, key), key)
    ensures forall v :: WithKey(SortByKey(s, key), key, v) == WithKey(s, key, v)
  {
    if s != [] {
      SortByKeySpec(s[1..], key);
      InsertSpec(SortByKey(s[1..], key), key, s[0]);
      assert s == [s[0]] + s[1..];
      forall v ensures WithKey(SortByKey(s, key), key, v) == WithKey(s, key, v) {
        WithKeyCons(s[0], s[1..], key, v);
      }
    }
  }

  /** No element occurs twice. */
  predicate Distinct<T(==)>(s: seq<T>) {
    forall i, j | 0 <= i < j < |s| :: s[i] != s[j]
  }

  lemma {:induction false} DistinctOccursOnce<T>(s: seq<T>, x: T)
    requires Distinct(s)
    ensures multiset(s)[x] <= 1
  {
    if s != [] {
      assert s == [s[0]] + s[1..];
      assert s[0] !in s[1..];
      DistinctOccursOnce(s[1..], x);
    }
  }

  /** A permutation of a sequence without duplicates has none either; in
      particular the sort of such a sequence (see SortByKeySpec). */
  lemma PermutationKeepsDistinct<T>(s: seq<T>, t: seq<T>)
    requires multiset(s) == multiset(t) && Distinct(s)
    ensures Distinct(t)
  {
    forall i, j | 0 <= i < j < |t| ensures t[i] != t[j] {
      DistinctOccursOnce(s, t[i]);
      assert t == t[..j] + t[j..];
      assert t[..j][i] == t[i];
      assert multiset(t)[t[i]] == multiset(t[..j])[t[i]] + multiset(t[j..])[t[i]];
      assert t[j..][0] == t[j];
    }
  }

  /** Every element of `s` has a rank, and ranks increase along `s`. */
  predicate RankIncreasing<T>(s: seq<T>, rank: map<T, int>) {
    (forall x | x in s :: x in rank)
    && forall i, j | 0 <= i < j < |s| :: rank[s[i]] < rank[s[j]]
  }

  lemma {:induction false} WithKeyMembers<T>(s: seq<T>, key: map<T, real>, v: real)
    requires Keyed(s, key)
    ensures forall x :: x in WithKey(s, key, v) <==> x in s && key[x] == v
  {
    if s != [] {
      WithKeyMembers(s[1..], key, v);
      assert s == [s[0]] + s[1..];
    }
  }

  /** The elements of one key, taken from a rank-increasing sequence, are
      rank-increasing. */
  lemma {:induction false} WithKeyRanked<T>(s: seq<T>, key: map<T, real>, rank: map<T, int>, v: real)
    requires Keyed(s, key) && RankIncreasing(s, rank)
    ensures RankIncreasing(WithKey(s, key, v), rank)
  {
    if s != [] {
      WithKeyRanked(s[1..], key, rank, v);
      WithKeyMembers(s[1..], key, v);
      var w := WithKey(s[1..], key, v);
      forall x | x in w ensures rank[s[0]] < rank[x] {
        var k :| 0 <= k < |s[1..]| && s[1..][k] == x;
        assert s[k + 1] == x;
      }
    }
  }

  lemma DropFirstRanked<T>(w: seq<T>, rank: map<T, int>)
    requires w != [] && RankIncreasing(w, rank)
    ensures RankIncreasing(w[1..], rank)
  {
    forall i, j | 0 <= i < j < |w| - 1 ensures rank[w[1..][i]] < rank[w[1..][j]] {
      assert w[1..][i] == w[i + 1] && w[1..][j] == w[j + 1];
    }
  }

  lemma WithKeyTailRanked<T>(r: seq<T>, key: map<T, real>, rank: map<T, int>, v: real)
    requires r != [] && Keyed(r, key) && RankIncreasing(WithKey(r, key, v), rank)
    ensures RankIncreasing(WithKey(r[1..], key, v), rank)
  {
    assert r == [r[0]] + r[1..];
    WithKeyCons(r[0], r[1..], key, v);
    if key[r[0]] == v {
      DropFirstRanked(WithKey(r, key, v), rank);
      assert WithKey(r, key, v)[1..] == WithKey(r[1..], key, v);
    } else {
      assert WithKey(r, key, v) == WithKey(r[1..], key, v);
    }
  }

  lemma HeadRankedFirst<T>(r: seq<T>, key: map<T, real>, rank: map<T, int>, j: int)
    requires Keyed(r, key) && 0 < j < |r| && key[r[0]] == key[r[j]]
    requires forall x | x in r :: x in rank
    requires RankIncreasing(WithKey(r, key, key[r[0]]), rank)
    ensures rank[r[0]] < rank[r[j]]
  {
    var v := key[r[0]];
    var t := r[1..];
    assert r == [r[0]] + t;
    WithKeyCons(r[0], t, key, v);
    WithKeyMembers(t, key, v);
    var w := WithKey(r, key, v);
    assert r[j] == t[j - 1];
    var k :| 0 <= k < |WithKey(t, key, v)| && WithKey(t, key, v)[k] == r[j];
    assert w[0] == r[0] && w[k + 1] == r[j];
  }

  /** When every key's elements are rank-increasing, two elements with the
      same key appear in rank order. */
  lemma {:induction false} EqualKeysRanked<T>(r: seq<T>, key: map<T, real>, rank: map<T, int>)
    requires Keyed(r, key) && forall x | x in r :: x in rank
    requires forall v :: RankIncreasing(WithKey(r, key, v), rank)
    ensures forall i, j | 0 <= i < j < |r| && key[r[i]] == key[r[j]] :: rank[r[i]] < rank[r[j]]
  {
    if r != [] {
      forall v ensures RankIncreasing(WithKey(r[1..], key, v), rank) {
        WithKeyTailRanked(r, key, rank, v);
      }
      EqualKeysRanked(r[1..], key, rank);
      forall i, j | 0 <= i < j < |r| && key[r[i]] == key[r[j]] ensures rank[r[i]] < rank[r[j]] {
        if i == 0 {
          HeadRankedFirst(r, key, rank, j);
        } else {
          assert r[i] == r[1..][i - 1] && r[j] == r[1..][j - 1];
        }
      }
    }
  }

  /** A sequence that keeps each key's elements of a rank-increasing `s` in
      their order (as the stable sort of `s` does) has its equal-key elements
      in rank order. */
  lemma EqualKeysKeepRank<T>(s: seq<T>, r: seq<T>, key: map<T, real>, rank: map<T, int>)
    requires Keyed(s, key) && Keyed(r, key) && RankIncreasing(s, rank)
    requires forall v :: WithKey(r, key, v) == WithKey(s, key, v)
    requires forall x | x in r :: x in s
    ensures forall i, j | 0 <= i < j < |r| && key[r[i]] == key[r[j]] :: rank[r[i]] < rank[r[j]]
  {
    forall v ensures RankIncreasing(WithKey(r, key, v), rank) {
      WithKeyRanked(s, key, rank, v);
    }
    EqualKeysRanked(r, key, rank);
  }
  /** The sort keeps elements with equal keys in the order of any rank that
      increases along its input. */
  lemma SortKeepsRank<T>(s: seq<T>, key: map<T, real>, rank: map<T, int>)
    requires Keyed(s, key) && RankIncreasing(s, rank)
    ensures forall x | x in SortByKey(s, key) :: x in s
    ensures var r := SortByKey(s, key);
            forall i, j | 0 <= i < j < |r| && key[r[i]] == key[r[j]] :: rank[r[i]] < rank[r[j]]
  {
    var r := SortByKey(s, key);
    SortByKeySpec(s, key);
    forall x | x in r ensures x in s {
      assert x in multiset(r);
    }
    EqualKeysKeepRank(s, r, key, rank);
  }


  /** Sorting what is already ascending changes nothing, so sorting twice is
      sorting once. */
  lemma {:induction false} SortAscendingIsIdentity<T>(s: seq<T>, key: map<T, real>)
    requires Keyed(s, key) && Ascending(s, key)
    ensures SortByKey(s, key) == s
  {
    if s != [] {
      SortAscendingIsIdentity(s[1..], key);
      assert s == [s[0]] + s[1..];
    }
  }

  /** Sorting is idempotent. */
  lemma SortByKeyTwice<T>(s: seq<T>, key: map<T, real>)
    requires Keyed(s, key)
    ensures Keyed(SortByKey(s, key), key)
    ensures SortByKey(SortByKey(s, key), key) == SortByKey(s, key)
  {
    SortByKeySpec(s, key);
    SortAscendingIsIdentity(SortByKey(s, key), key);
  }

  /** Which elements have key `v` depends only on the keys of the elements of `s`. */
  lemma {:induction false} WithKeyAgrees<T>(s: seq<T>, key: map<T, real>, other: map<T, real>, v: real)
    requires Keyed(s, key) && Keyed(s, other)
    requires forall x | x in s :: key[x] == other[x]
    ensures WithKey(s, key, v) == WithKey(s, other, v)
  {
    if s != [] {
      WithKeyAgrees(s[1..], key, other, v);
    }
  }

  /** The sort depends only on the keys of the elements being sorted. */
  lemma SortByKeyAgrees<T>(s: seq<T>, key: map<T, real>, other: map<T, real>)
    requires Keyed(s, key) && Keyed(s, other)
    requires forall x | x in s :: key[x] == other[x]
    ensures SortByKey(s, key) == SortByKey(s, other)
  {
    var r, t := SortByKey(s, key), SortByKey(s, other);
    SortByKeySpec(s, key);
    SortByKeySpec(s, other);
    AgreeingOrder(s, t, key, other);
    forall v ensures WithKey(r, key, v) == WithKey(t, key, v) {
      WithKeyAgrees(t, key, other, v);
      WithKeyAgrees(s, key, other, v);
    }
    StableSortIsUnique(r, t, key);
  }

  lemma AgreeingOrder<T>(s: seq<T>, t: seq<T>, key: map<T, real>, other: map<T, real>)
    requires Keyed(s, key) && Keyed(s, other) && Keyed(t, other) && Ascending(t, other)
    requires forall x | x in s :: key[x] == other[x]
    requires multiset(t) == multiset(s)
    ensures Keyed(t, key) && Ascending(t, key)
    ensures forall x | x in t :: key[x] == other[x]
  {
    forall x | x in t ensures x in s {
      assert x in multiset(t);
    }
  }

  /** The two properties determine the result: any ascending sequence with the
      same elements per key is the stable sort. */
  lemma {:induction false} StableSortIsUnique<T>(s: seq<T>, t: seq<T>, key: map<T, real>)
    requires Keyed(s, key) && Keyed(t, key)
    requires Ascending(s, key) && Ascending(t, key)
    requires forall v :: WithKey(s, key, v) == WithKey(t, key, v)
    ensures s == t
  {
    EmptyTogether(s, t, key);
    if s != [] {
      SameHead(s, t, key);
      TailsAgree(s, t, key);
      StableSortIsUnique(s[1..], t[1..], key);
      assert s == [s[0]] + s[1..] && t == [t[0]] + t[1..];
    }
  }

  lemma EmptyTogether<T>(s: seq<T>, t: seq<T>, key: map<T, real>)
    requires Keyed(s, key) && Keyed(t, key)
    requires forall v :: WithKey(s, key, v) == WithKey(t, key, v)
    ensures s == [] <==> t == []
  {
    assert s != [] ==> WithKey(s, key, key[s[0]]) != [];
    assert t != [] ==> WithKey(t, key, key[t[0]]) != [];
  }

  /** Two ascending sequences with the same elements per key start alike: the
      smallest key is the same, and its first element is the same. */
  lemma SameHead<T>(s: seq<T>, t: seq<T>, key: map<T, real>)
    requires Keyed(s, key) && Keyed(t, key)
    requires Ascending(s, key) && Ascending(t, key)
    requires forall v :: WithKey(s, key, v) == WithKey(t, key, v)
    requires s != [] && t != []
    ensures s[0] == t[0]
  {
    var v := key[s[0]];
    var w := key[t[0]];
    assert WithKey(s, key, v) != [];
    assert WithKey(t, key, w) != [];
    if v < w {
      WithAbsentKey(t, key, v);
      assert false;
    } else if w < v {
      WithAbsentKey(s, key, w);
      assert false;
    }
    assert s[0] == WithKey(s, key, v)[0] == WithKey(t, key, v)[0] == t[0];
  }

  /** Removing a common head keeps the elements per key equal. */
  lemma TailsAgree<T>(s: seq<T>, t: seq<T>, key: map<T, real>)
    requires Keyed(s, key) && Keyed(t, key)
    requires forall v :: WithKey(s, key, v) == WithKey(t, key, v)
    requires s != [] && t != [] && s[0] == t[0]
    ensures forall u :: WithKey(s[1..], key, u) == WithKey(t[1..], key, u)
  {
    forall u ensures WithKey(s[1..], key, u) == WithKey(t[1..], key, u) {
      var p := if key[s[0]] == u then [s[0]] else [];
      assert WithKey(s, key, u) == p + WithKey(s[1..], key, u);
      assert WithKey(t, key, u) == p + WithKey(t[1..], key, u);
      assert WithKey(s[1..], key, u) == (p + WithKey(s[1..], key, u))[|p|..];
      assert WithKey(t[1..], key, u) == (p + WithKey(t[1..], key, u))[|p|..];
    }
  }
}
