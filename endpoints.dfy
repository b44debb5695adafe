/**
 * The four HTTP endpoints of the controller, as compositions of the helpers.
 * Each takes the list ReadJSONFromUrl produced (already normalised; `None`
 * when the fetch failed or the payload decoded to `null`) instead of a URL.
 */
module Endpoints {
  import opened Wrappers
  import opened Model
  import opened Selection
  import opened StableSort
  import opened BierController

  /** `BadRequest(message)` or `Ok(body)`. */
  datatype Response<T> = BadRequest(message: string) | Ok(body: T)

  /** Default of the `targetPrice` query parameter. */
  const DefaultTargetPrice: real := 17.99

  const PriceRangeFailure: string := "Irgendwas ist schiefgelaufen"
  const FetchFailure: string := "Unable to fetch products"

  /** The anonymous object `{ MostExpensive, Cheapest }`. */
  datatype PriceRange = PriceRange(mostExpensive: Product?, cheapest: Product?)

  /** The anonymous object of GET all. */
  datatype Summary = Summary(mostExpensive: Product?, cheapest: Product?,
                             matchingPricesSorted: seq<Product>, mostBottlesProduct: Product?)

  /** The first entry of each row of `table`. */
  function Firsts(table: seq<seq<real>>): (r: seq<real>)
    requires forall i | 0 <= i < |table| :: table[i] != []
    ensures |r| == |table| && forall i | 0 <= i < |table| :: r[i] == table[i][0]
  {
    seq(|table|, i requires 0 <= i < |table| => table[i][0])
  }

  /** The price per litre of the first article of each product of `ms`. */
  ghost function FirstPrices(ms: seq<Product>): (firsts: seq<real>)
    requires forall p | p in ms :: p.articles != []
    reads ms`articles, ArticlesOf(ms)`pricePerUnit
    ensures |firsts| == |ms|
    ensures forall i | 0 <= i < |ms| :: firsts[i] == ms[i].articles[0].pricePerUnit
  {
    Firsts(UnitPrices(ms))
  }

  /** `ms` lists distinct products of `ps` whose keys `firsts` ascend, products
      with equal keys in their catalogue order. */
  predicate PriceRanked(ms: seq<Product>, ps: seq<Product>, firsts: seq<real>) {
    |firsts| == |ms|
    && (forall p | p in ms :: p in ps)
    && Distinct(ms)
    && (forall i, j | 0 <= i < j < |ms| :: firsts[i] <= firsts[j])
    && forall i, j | 0 <= i < j < |ms| && firsts[i] == firsts[j] :: FirstIndex(ps, ms[i]) < FirstIndex(ps, ms[j])
  }

  /** `ms` lists distinct products of `ps`, each with an article, by
      ascending price per litre of its first article, products with the same
      first price in their catalogue order. */
  ghost predicate InPriceOrder(ms: seq<Product>, ps: seq<Product>)
    reads ms`articles, ArticlesOf(ms)`pricePerUnit
  {
    (forall p | p in ms :: p.articles != []) && PriceRanked(ms, ps, FirstPrices(ms))
  }

  /** Price order leaves no freedom: two lists in price order over the same
      products are the same list. */
  lemma InPriceOrderIsUnique(a: seq<Product>, b: seq<Product>, ps: seq<Product>)
    requires InPriceOrder(a, ps) && InPriceOrder(b, ps)
    requires forall p :: p in a <==> p in b
    ensures a == b
  {
    PriceRankedIsUnique(a, b, ps, FirstPrices(a), FirstPrices(b));
  }

  /** Two price-ranked lists with the same products, whose keys agree on
      every shared product, are equal. */
  lemma {:induction false} PriceRankedIsUnique(a: seq<Product>, b: seq<Product>, ps: seq<Product>,
                                               fa: seq<real>, fb: seq<real>)
    requires PriceRanked(a, ps, fa) && PriceRanked(b, ps, fb)
    requires forall p :: p in a <==> p in b
    requires forall i, j | 0 <= i < |a| && 0 <= j < |b| && a[i] == b[j] :: fa[i] == fb[j]
    ensures a == b
  {
    assert a != [] ==> a[0] in b;
    assert b != [] ==> b[0] in a;
    if a != [] {
      PriceRankedSameHead(a, b, ps, fa, fb);
      PriceRankedTails(a, b, ps, fa, fb);
      PriceRankedIsUnique(a[1..], b[1..], ps, fa[1..], fb[1..]);
      assert a == [a[0]] + a[1..] && b == [b[0]] + b[1..];
    }
  }

  /** The head of each list has the least key and, among equal keys, the
      least catalogue position, so both lists start with the same product. */
  lemma PriceRankedSameHead(a: seq<Product>, b: seq<Product>, ps: seq<Product>,
                            fa: seq<real>, fb: seq<real>)
    requires PriceRanked(a, ps, fa) && PriceRanked(b, ps, fb)
    requires forall p :: p in a <==> p in b
    requires forall i, j | 0 <= i < |a| && 0 <= j < |b| && a[i] == b[j] :: fa[i] == fb[j]
    requires a != [] && b != []
    ensures a[0] == b[0]
  {
    assert b[0] in a && a[0] in b;
    var i :| 0 <= i < |a| && a[i] == b[0];
    var j :| 0 <= j < |b| && b[j] == a[0];
    assert fa[0] <= fa[i] == fb[0] <= fb[j] == fa[0];
  }

  /** Dropping a common head leaves price-ranked lists with the same
      products. */
  lemma PriceRankedTails(a: seq<Product>, b: seq<Product>, ps: seq<Product>,
                         fa: seq<real>, fb: seq<real>)
    requires PriceRanked(a, ps, fa) && PriceRanked(b, ps, fb)
    requires forall p :: p in a <==> p in b
    requires a != [] && b != [] && a[0] == b[0]
    ensures PriceRanked(a[1..], ps, fa[1..]) && PriceRanked(b[1..], ps, fb[1..])
    ensures forall p :: p in a[1..] <==> p in b[1..]
  {
    forall p ensures p in a[1..] <==> p in b[1..] {
      if p in a[1..] {
        var k :| 1 <= k < |a| && a[k] == p;
        assert a[0] != a[k] && p in a;
        var m :| 0 <= m < |b| && b[m] == p;
        assert m != 0;
        assert b[1..][m - 1] == p;
      }
      if p in b[1..] {
        var k :| 1 <= k < |b| && b[k] == p;
        assert b[0] != b[k] && p in b;
        var m :| 0 <= m < |a| && a[m] == p;
        assert m != 0;
        assert a[1..][m - 1] == p;
      }
    }
  }

  /** The products findSpecificPrice returns, sorted by first price, are in
      price order. */
  lemma SortedMatchesInPriceOrder(products: seq<Product>, matches: seq<Product>, r: seq<Product>)
    requires forall p | p in matches :: p in products && p.articles != []
    requires Distinct(matches)
    requires forall i, j | 0 <= i < j < |matches| ::
               FirstIndex(products, matches[i]) < FirstIndex(products, matches[j])
    requires r == SortByKey(matches, FirstArticleKeys(matches))
    ensures forall p :: p in r <==> p in matches
    ensures InPriceOrder(r, products)
  {
    SortedMatchesSpec(matches, r);
    SortedMatchesOrder(products, matches, r);
  }

  /** The article list `p` has once the matching list is sorted: sorted by
      price per litre when `p` has an article at `price`, as it was
      otherwise. */
  ghost function ArticlesAfterSort(p: Product, price: real): (r: seq<Article>)
    reads p`articles, p.articles`price, p.articles`pricePerUnit
    ensures |r| == |p.articles|
  {
    if HasArticlePriced(p, price) then SortedArticles(p.articles) else p.articles
  }

  /** The answer of GET priceRange on catalogue `ps`: the products the
      highest and the lowest price-per-litre scans end on. Both scans start
      from the first product, so both are `null` exactly when the catalogue
      is empty. */
  ghost function PriceRangeOf(ps: seq<Product>): (r: PriceRange)
    requires FirstArticleReadable(ps)
    reads ps`articles, ArticlesOf(ps)`pricePerUnit
    ensures r.mostExpensive == null <==> ps == []
    ensures r.cheapest == null <==> ps == []
    ensures r.mostExpensive != null ==> r.mostExpensive in ps
    ensures r.cheapest != null ==> r.cheapest in ps
  {
    var keys := UnitPrices(ps);
    PriceRange(ProductAt(ps, Holder(keys, Highest, FirstOrNone(keys), |ps|)),
               ProductAt(ps, Holder(keys, Lowest, FirstOrNone(keys), |ps|)))
  }

  /** The answer of GET mostBottles on catalogue `ps`: the product the
      bottle scan ends on, `null` exactly when no product has an article. */
  ghost function MostBottlesOf(ps: seq<Product>): (m: Product?)
    reads ps`articles, ArticlesOf(ps)`amountOfBottles
    ensures m == null <==> forall i | 0 <= i < |ps| :: ps[i].articles == []
    ensures m != null ==> m in ps && m.articles != []
  {
    var keys := BottleCounts(ps);
    NoHolderIffNoKeys(keys, Highest, |ps|);
    ProductAt(ps, Holder(keys, Highest, None, |ps|))
  }

  /** The two price-per-litre scans both GET priceRange and GET all run, one
      after the other; neither changes an article, so the range they find is
      the one of the catalogue as it was before them. */
  method PriceScans(products: seq<Product>) returns (mostExpensive: Product?, cheapest: Product?)
    requires FirstArticleReadable(products)
    ensures PriceRangeOf(products) == old(PriceRangeOf(products))
    ensures PriceRange(mostExpensive, cheapest) == PriceRangeOf(products)
  {
    mostExpensive := FindMostExpensiveBeerPerLitre(products);
    cheapest := FindCheapestBeerPerLitre(products);
  }

  /** GET priceRange. */
  method GetPriceRange(fetched: Option<seq<Product>>) returns (resp: Response<PriceRange>)
    requires fetched.Some? ==> FirstArticleReadable(fetched.value)
    ensures fetched.None? <==> resp == BadRequest(PriceRangeFailure)
    ensures resp.Ok? ==> resp.body == PriceRangeOf(fetched.value)
  {
    if fetched.None? {
      return BadRequest(PriceRangeFailure);
    }
    var mostExpensive, cheapest := PriceScans(fetched.value);
    resp := Ok(PriceRange(mostExpensive, cheapest));
  }

  /** The products of `products` with an article at `targetPrice`, each
      with its articles sorted, in the order of the price per litre of their
      (new) first article; products with the same first price keep their
      catalogue order, so this is the stable sort of what findSpecificPrice
      returns. Every product findSpecificPrice returns has an article, so the
      sort's precondition holds; the other products keep their article
      lists. */
  method MatchingSorted(products: seq<Product>, targetPrice: real) returns (sorted: seq<Product>)
    modifies products`articles
    ensures forall p :: p in sorted <==> p in products && old(HasArticlePriced(p, targetPrice))
    ensures InPriceOrder(sorted, products)
    ensures var m := old(PricedAmong(products, targetPrice, |products|));
            (forall p | p in m :: p.articles != []) && sorted == SortByKey(m, FirstArticleKeys(m))
    ensures forall i | 0 <= i < |products| :: products[i].articles == old(ArticlesAfterSort(products[i], targetPrice))
  {
    var matches := FindSpecificPrice(products, targetPrice);
    assert forall i | 0 <= i < |matches| :: matches[i] in products;
    assert forall p | p in products :: HasArticlePriced(p, targetPrice) == old(HasArticlePriced(p, targetPrice));
    assert forall p | p in products :: ArticlesAfterSort(p, targetPrice) == old(ArticlesAfterSort(p, targetPrice));
    ghost var after := map p | p in products :: ArticlesAfterSort(p, targetPrice);
    sorted := SortProductListByArticlePrice(matches);
    assert forall p | p in products :: p.articles == after[p];
    SortedMatchesInPriceOrder(products, matches, sorted);
  }

  /** GET priceExactly. */
  method GetBeersWithPrice(fetched: Option<seq<Product>>, targetPrice: real := DefaultTargetPrice)
    returns (resp: Response<seq<Product>>)
    modifies ListOrEmpty(fetched)`articles
    ensures fetched.None? <==> resp == BadRequest(FetchFailure)
    ensures resp.Ok? ==> forall p :: p in resp.body <==> p in fetched.value && old(HasArticlePriced(p, targetPrice))
    ensures resp.Ok? ==> InPriceOrder(resp.body, fetched.value)
    ensures resp.Ok? ==>
              var m := old(PricedAmong(fetched.value, targetPrice, |fetched.value|));
              (forall p | p in m :: p.articles != []) && resp.body == SortByKey(m, FirstArticleKeys(m))
    ensures resp.Ok? ==>
              forall i | 0 <= i < |fetched.value| ::
                fetched.value[i].articles == old(ArticlesAfterSort(fetched.value[i], targetPrice))
  {
    if fetched.None? {
      return BadRequest(FetchFailure);
    }
    var matching := MatchingSorted(fetched.value, targetPrice);
    resp := Ok(matching);
  }

  /** GET mostBottles. */
  method GetProductWithMostBottles(fetched: Option<seq<Product>>) returns (resp: Response<Product?>)
    ensures fetched.None? <==> resp == BadRequest(FetchFailure)
    ensures resp.Ok? ==> resp.body == MostBottlesOf(fetched.value)
  {
    if fetched.None? {
      return BadRequest(FetchFailure);
    }
    var mostBottles := FindMostBottlesPerProduct(fetched.value);
    resp := Ok(mostBottles);
  }

  /** The bottle scan of GET all, over the catalogue as the sort left it. It
      changes nothing, so the sorted matching list stays in price order. */
  method MostBottlesAfterSort(products: seq<Product>, matching: seq<Product>) returns (mostBottles: Product?)
    requires InPriceOrder(matching, products)
    ensures InPriceOrder(matching, products)
    ensures mostBottles == MostBottlesOf(products)
  {
    ghost var firsts := FirstPrices(matching);
    mostBottles := FindMostBottlesPerProduct(products);
    assert FirstPrices(matching) == firsts;
  }

  /** GET all. The two price scans read the catalogue as fetched; the bottle
      scan runs after the sort has reordered the articles of the matching
      products (see Selection.ScanDependsOnArticleOrder). */
  method GetAll(fetched: Option<seq<Product>>, targetPrice: real := DefaultTargetPrice)
    returns (resp: Response<Summary>)
    requires fetched.Some? ==> FirstArticleReadable(fetched.value)
    modifies ListOrEmpty(fetched)`articles
    ensures fetched.None? <==> resp == BadRequest(FetchFailure)
    ensures resp.Ok? ==> PriceRange(resp.body.mostExpensive, resp.body.cheapest) == old(PriceRangeOf(fetched.value))
    ensures resp.Ok? ==>
              forall p :: p in resp.body.matchingPricesSorted <==> p in fetched.value && old(HasArticlePriced(p, targetPrice))
    ensures resp.Ok? ==> InPriceOrder(resp.body.matchingPricesSorted, fetched.value)
    ensures resp.Ok? ==>
              forall i | 0 <= i < |fetched.value| ::
                fetched.value[i].articles == old(ArticlesAfterSort(fetched.value[i], targetPrice))
    ensures resp.Ok? ==> resp.body.mostBottlesProduct == MostBottlesOf(fetched.value)
  {
    if fetched.None? {
      return BadRequest(FetchFailure);
    }
    var products := fetched.value;
    var mostExpensive, cheapest := PriceScans(products);
    assert forall p | p in products :: HasArticlePriced(p, targetPrice) == old(HasArticlePriced(p, targetPrice));
    assert forall p | p in products :: ArticlesAfterSort(p, targetPrice) == old(ArticlesAfterSort(p, targetPrice));
    var matching := MatchingSorted(products, targetPrice);
    var mostBottles := MostBottlesAfterSort(products, matching);
    resp := Ok(Summary(mostExpensive, cheapest, matching, mostBottles));
  }
}
