/**
 * The running-candidate scans of findMostExpensiveBeerPerLitre,
 * findCheapestBeerPerLitre and findMostBottlesPerProduct, on values.
 *
 * `keys[i]` lists the keys (price per litre, or bottle count) of the
 * articles of product `i` in order. The scans walk every article of every
 * product and compare its key with the FIRST key of the product holding the
 * candidate, not with the best key seen so far; the candidate moves on a
 * strict comparison only, so ties keep the earlier product.
 */
module Selection {
  import opened Wrappers

  /** Which way a scan looks. */
  datatype Goal = Highest | Lowest

  /** The replacement test: key `k` of the current article against `held`,
      the first key of the candidate product. */
  predicate Beats(goal: Goal, k: real, held: real) {
    match goal
    case Highest => held < k
    case Lowest => held > k
  }

  /** The first key of candidate `h` can be read at every comparison the scan
      makes: there is no candidate, or it has a key, or no product has any
      key (so no comparison ever happens). */
  predicate Readable(keys: seq<seq<real>>, h: Option<nat>) {
    match h
    case None => true
    case Some(j) => j < |keys| && (keys[j] != [] || forall i | 0 <= i < |keys| :: keys[i] == [])
  }

  /** The candidate after the first `k` articles of product `i`, entered with
      candidate `h`. Without a candidate, the first article makes `i` the
      candidate. With one, `i` takes over as soon as one of its keys beats the
      candidate's first key; later comparisons are against `i`'s own first
      key and keep `i` whatever they decide. */
  function Visit(keys: seq<seq<real>>, goal: Goal, h: Option<nat>, i: nat, k: nat): (r: Option<nat>)
    requires i < |keys| && k <= |keys[i]| && Readable(keys, h)
    ensures Readable(keys, r)
    ensures r == h || (r == Some(i) && k > 0)
  {
    match h
    case None => if k == 0 then None else Some(i)
    case Some(j) =>
      if exists m | 0 <= m < k :: Beats(goal, keys[i][m], keys[j][0]) then Some(i) else h
  }

  /** The candidate after the products `0..n-1`, starting from `start`. */
  function Holder(keys: seq<seq<real>>, goal: Goal, start: Option<nat>, n: nat): (h: Option<nat>)
    requires n <= |keys| && Readable(keys, start)
    ensures Readable(keys, h)
    ensures start.Some? ==> h.Some?
    ensures h.Some? && h != start ==> h.value < n && keys[h.value] != []
  {
    if n == 0 then start
    else Visit(keys, goal, Holder(keys, goal, start, n - 1), n - 1, |keys[n - 1]|)
  }

  /** `products.FirstOrDefault()` as an index. */
  function FirstOrNone(keys: seq<seq<real>>): (h: Option<nat>) {
    if keys == [] then None else Some(0)
  }

  /** `e` is the earliest of the products `0..n-1` with the best first key. */
  ghost predicate EarliestBest(keys: seq<seq<real>>, goal: Goal, e: nat, n: nat)
    requires n <= |keys| && forall i | 0 <= i < |keys| :: keys[i] != []
  {
    e < n
    && (forall j | 0 <= j < n :: !Beats(goal, keys[j][0], keys[e][0]))
    && (forall j | 0 <= j < e :: Beats(goal, keys[e][0], keys[j][0]))
  }

  /** Starting without a candidate (the bottle scan), the scan ends without one
      exactly when no product has a key. */
  lemma {:induction false} NoHolderIffNoKeys(keys: seq<seq<real>>, goal: Goal, n: nat)
    requires n <= |keys|
    ensures Holder(keys, goal, None, n) == None <==> forall i | 0 <= i < n :: keys[i] == []
  {
    if n > 0 {
      NoHolderIffNoKeys(keys, goal, n - 1);
    }
  }

  /** No article of a product after the final candidate beats the candidate's
      first key: every one of them was compared with it and lost. */
  lemma {:induction false} HolderUnbeatenAfter(keys: seq<seq<real>>, goal: Goal, start: Option<nat>, n: nat)
    requires n <= |keys| && Readable(keys, start)
    requires Holder(keys, goal, start, n).Some? && keys[Holder(keys, goal, start, n).value] != []
    ensures var e := Holder(keys, goal, start, n).value;
            forall i, k | e < i < n && 0 <= k < |keys[i]| :: !Beats(goal, keys[i][k], keys[e][0])
  {
    if n > 0 {
      var h := Holder(keys, goal, start, n - 1);
      var e := Holder(keys, goal, start, n).value;
      if e != n - 1 {
        assert h == Some(e);
        HolderUnbeatenAfter(keys, goal, start, n - 1);
      }
    }
  }

  /** When every product has exactly one article, the scan finds the earliest
      product with the best key, whether it starts from the first product or
      from no candidate. */
  lemma {:induction false} HolderIsEarliestBest(keys: seq<seq<real>>, goal: Goal, start: Option<nat>, n: nat)
    requires 0 < n <= |keys|
    requires forall i | 0 <= i < |keys| :: |keys[i]| == 1
    requires start == None || start == Some(0)
    ensures Readable(keys, start)
    ensures Holder(keys, goal, start, n).Some?
    ensures EarliestBest(keys, goal, Holder(keys, goal, start, n).value, n)
  {
    if n == 1 {
      assert Holder(keys, goal, start, 1) == Some(0);
    } else {
      HolderIsEarliestBest(keys, goal, start, n - 1);
      var e := Holder(keys, goal, start, n - 1).value;
      if Beats(goal, keys[n - 1][0], keys[e][0]) {
        assert Holder(keys, goal, start, n) == Some(n - 1);
      } else {
        assert Holder(keys, goal, start, n) == Some(e);
      }
    }
  }

  /** The scan is not a maximum search: on keys [[3], [1, 5], [2]] the highest
      key is 5 (product 1), but the scan ends on product 2, whose 2 beats the
      first key 1 of product 1. */
  lemma FirstKeyScanMissesBestKey()
    ensures Holder([[3.0], [1.0, 5.0], [2.0]], Highest, Some(0), 3) == Some(2)
  {
    var keys := [[3.0], [1.0, 5.0], [2.0]];
    assert Holder(keys, Highest, Some(0), 1) == Some(0);
    assert Beats(Highest, keys[1][1], keys[0][0]);
    assert Holder(keys, Highest, Some(0), 2) == Some(1);
    assert Beats(Highest, keys[2][0], keys[1][0]);
  }

  /** The scan depends on the order of a product's articles: on bottle counts
      [[6, 20], [10]] the bottle scan ends on product 1 (10 beats the first
      key 6), but with the first product's articles in price order [[20, 6],
      [10]] it ends on product 0. */
  lemma ScanDependsOnArticleOrder()
    ensures Holder([[6.0, 20.0], [10.0]], Highest, None, 2) == Some(1)
    ensures Holder([[20.0, 6.0], [10.0]], Highest, None, 2) == Some(0)
  {
    var before := [[6.0, 20.0], [10.0]];
    assert Holder(before, Highest, None, 1) == Some(0);
    assert Beats(Highest, before[1][0], before[0][0]);
    var after := [[20.0, 6.0], [10.0]];
    assert Holder(after, Highest, None, 1) == Some(0);
    assert !Beats(Highest, after[1][0], after[0][0]);
  }
}
