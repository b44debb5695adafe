/**
 * The private helpers of the controller (Controllers/BierController.cs):
 * normalisation of the fetched product list, the four aggregations and the
 * two-level sort, plus the composition the HTTP endpoints make of them.
 * The helpers work on shared `Product` and `Article` objects, as the source
 * does; what they compute is stated against the value-level models in
 * Extract, Selection and StableSort.
 */
module BierController {
  import opened Wrappers
  import opened Model
  import opened Extract
  import opened Selection
  import opened StableSort

  /** The decoded list, or the empty list for `null`. */
  function ListOrEmpty(products: Option<seq<Product>>): (ps: seq<Product>) {
    if products.Some? then products.value else []
  }

  // ---------------------------------------------------------------------
  // Normalisation

  /** `int.Parse` accepts the leading count of every article's short description. */
  ghost predicate CountsFit(ps: seq<Product>)
    reads ps, ArticlesOf(ps)
  {
    forall a {:trigger CountFits(a.shortDescription)} | a in ArticlesOf(ps) :: CountFits(a.shortDescription)
  }

  /** The derived fields of `a` are what the extractors make of its text fields. */
  ghost predicate Normalized(a: Article)
    reads a
  {
    CountFits(a.shortDescription)
    && a.pricePerUnit == ExtractDoubleValueFromStringPricePerUnitText(a.pricePerUnitText)
    && a.amountOfBottles == ExtractIntValueFromShortDescription(a.shortDescription)
  }

  ghost predicate AllNormalized(ps: seq<Product>)
    reads ps, ArticlesOf(ps)
  {
    forall a {:trigger Normalized(a)} | a in ArticlesOf(ps) :: Normalized(a)
  }

  /** `want[a]` is the pair of values normalisation derives from the text fields of `a`. */
  ghost predicate Derives(want: map<Article, (real, int)>, a: Article)
    reads a`shortDescription, a`pricePerUnitText
  {
    CountFits(a.shortDescription) && a in want
    && want[a] == (ExtractDoubleValueFromStringPricePerUnitText(a.pricePerUnitText),
                   ExtractIntValueFromShortDescription(a.shortDescription))
  }

  /** A table of the derived values of every article of `arts`, computed
      from the text fields, which normalisation does not change. */
  lemma DerivedTable(arts: set<Article>) returns (want: map<Article, (real, int)>)
    requires forall a {:trigger CountFits(a.shortDescription)} | a in arts :: CountFits(a.shortDescription)
    ensures forall a | a in arts :: a in want
    ensures forall a {:trigger Derives(want, a)} | a in arts :: Derives(want, a)
  {
    want := map a | a in arts :: (ExtractDoubleValueFromStringPricePerUnitText(a.pricePerUnitText),
                                  if CountFits(a.shortDescription) then ExtractIntValueFromShortDescription(a.shortDescription) else 0);
  }

  /** The loop body for one article: overwrite the two derived fields. */
  method NormalizeArticle(article: Article, ghost want: map<Article, (real, int)>, ghost arts: set<Article>)
    requires article in arts && article in want
    requires forall a {:trigger Derives(want, a)} | a in arts :: Derives(want, a)
    modifies article`pricePerUnit, article`amountOfBottles
    ensures article.pricePerUnit == want[article].0 && article.amountOfBottles == want[article].1
  {
    assert Derives(want, article);
    article.pricePerUnit := ExtractDoubleValueFromStringPricePerUnitText(article.pricePerUnitText);
    article.amountOfBottles := ExtractIntValueFromShortDescription(article.shortDescription);
  }

  /** The inner loop, over the articles of one product. */
  method NormalizeProduct(product: Product, ghost want: map<Article, (real, int)>, ghost arts: set<Article>)
    requires forall a | a in product.articles :: a in arts && a in want
    requires forall a {:trigger Derives(want, a)} | a in arts :: Derives(want, a)
    modifies product.articles`pricePerUnit, product.articles`amountOfBottles
    ensures forall a | a in product.articles :: a.pricePerUnit == want[a].0 && a.amountOfBottles == want[a].1
  {
    for k := 0 to |product.articles|
      invariant forall m | 0 <= m < k ::
                  product.articles[m].pricePerUnit == want[product.articles[m]].0
                  && product.articles[m].amountOfBottles == want[product.articles[m]].1
    {
      NormalizeArticle(product.articles[k], want, arts);
    }
  }

  /** Holding the table's values is being normalised. */
  lemma NormalizedByTable(ps: seq<Product>, want: map<Article, (real, int)>)
    requires forall a | a in ArticlesOf(ps) :: a in want && a.pricePerUnit == want[a].0 && a.amountOfBottles == want[a].1
    requires forall a {:trigger Derives(want, a)} | a in ArticlesOf(ps) :: Derives(want, a)
    ensures AllNormalized(ps)
  {
    forall a | a in ArticlesOf(ps) ensures Normalized(a) {
      assert Derives(want, a);
    }
  }

  /** Derives `pricePerUnit` and `amountOfBottles` of every article of every
      product from its own text fields, in place; a `null` list stays `null`. */
  method PricePerUnitFromPricePerUnitText(jsonObject: Option<seq<Product>>) returns (r: Option<seq<Product>>)
    requires CountsFit(ListOrEmpty(jsonObject))
    modifies ArticlesOf(ListOrEmpty(jsonObject))`pricePerUnit, ArticlesOf(ListOrEmpty(jsonObject))`amountOfBottles
    ensures r == jsonObject
    ensures AllNormalized(ListOrEmpty(jsonObject))
    ensures forall a | a in ArticlesOf(ListOrEmpty(jsonObject)) ::
              old(Normalized(a)) ==> a.pricePerUnit == old(a.pricePerUnit) && a.amountOfBottles == old(a.amountOfBottles)
  {
    var products := ListOrEmpty(jsonObject);
    ghost var arts := ArticlesOf(products);
    ghost var want := DerivedTable(arts);
    for i := 0 to |products|
      invariant forall j, a | 0 <= j < i && a in products[j].articles ::
                  a.pricePerUnit == want[a].0 && a.amountOfBottles == want[a].1
    {
      NormalizeProduct(products[i], want, arts);
    }
    NormalizedByTable(products, want);
    forall a | a in arts
      ensures old(Normalized(a)) ==> a.pricePerUnit == old(a.pricePerUnit) && a.amountOfBottles == old(a.amountOfBottles)
    {
      assert Derives(want, a);
    }
    r := jsonObject;
  }

  // ---------------------------------------------------------------------
  // The running-candidate scans

  /** Price per litre of each article of `arts`. */
  ghost function ArticleUnitPrices(arts: seq<Article>): (keys: seq<real>)
    reads arts`pricePerUnit
    ensures |keys| == |arts| && forall k | 0 <= k < |arts| :: keys[k] == arts[k].pricePerUnit
  {
    if arts == [] then [] else [arts[0].pricePerUnit] + ArticleUnitPrices(arts[1..])
  }

  /** Bottle count of each article of `arts`. */
  ghost function ArticleBottleCounts(arts: seq<Article>): (keys: seq<real>)
    reads arts`amountOfBottles
    ensures |keys| == |arts| && forall k | 0 <= k < |arts| :: keys[k] == arts[k].amountOfBottles as real
  {
    if arts == [] then [] else [arts[0].amountOfBottles as real] + ArticleBottleCounts(arts[1..])
  }

  /** Price per litre of each article, product by product. */
  ghost function UnitPrices(ps: seq<Product>): (keys: seq<seq<real>>)
    reads ps`articles, ArticlesOf(ps)`pricePerUnit
    ensures |keys| == |ps|
    ensures forall i | 0 <= i < |ps| :: |keys[i]| == |ps[i].articles|
    ensures forall i, k | 0 <= i < |ps| && 0 <= k < |ps[i].articles| :: keys[i][k] == ps[i].articles[k].pricePerUnit
  {
    if ps == [] then []
    else
      var rest := UnitPrices(ps[1..]);
      assert forall i | 1 <= i < |ps| :: ps[i] == ps[1..][i - 1];
      [ArticleUnitPrices(ps[0].articles)] + rest
  }

  /** Bottle count of each article, product by product. */
  ghost function BottleCounts(ps: seq<Product>): (keys: seq<seq<real>>)
    reads ps`articles, ArticlesOf(ps)`amountOfBottles
    ensures |keys| == |ps|
    ensures forall i | 0 <= i < |ps| :: |keys[i]| == |ps[i].articles|
    ensures forall i, k | 0 <= i < |ps| && 0 <= k < |ps[i].articles| :: keys[i][k] == ps[i].articles[k].amountOfBottles as real
  {
    if ps == [] then []
    else
      var rest := BottleCounts(ps[1..]);
      assert forall i | 1 <= i < |ps| :: ps[i] == ps[1..][i - 1];
      [ArticleBottleCounts(ps[0].articles)] + rest
  }

  /** The product a candidate index stands for; `null` for no candidate. */
  function ProductAt(ps: seq<Product>, h: Option<nat>): (p: Product?)
    requires h.Some? ==> h.value < |ps|
  {
    if h.None? then null else ps[h.value]
  }

  /** The price scans start from the first product and read the first article
      of the candidate at every comparison: the first product has an article,
      or no product has one and no comparison happens. */
  predicate FirstArticleReadable(ps: seq<Product>)
    reads ps`articles
  {
    ps != [] && ps[0].articles == [] ==> forall i | 0 <= i < |ps| :: ps[i].articles == []
  }

  method FindMostExpensiveBeerPerLitre(products: seq<Product>) returns (mostExpensive: Product?)
    requires FirstArticleReadable(products)
    ensures mostExpensive == null <==> products == []
    ensures mostExpensive != null ==> mostExpensive in products
    ensures mostExpensive == ProductAt(products,
              Holder(UnitPrices(products), Highest, FirstOrNone(UnitPrices(products)), |products|))
    ensures UnitPrices(products) == old(UnitPrices(products))
  {
    ghost var keys := UnitPrices(products);
    ghost var start := FirstOrNone(keys);
    mostExpensive := if products == [] then null else products[0];
    ghost var h := start;
    for i := 0 to |products|
      invariant h == Holder(keys, Highest, start, i)
      invariant mostExpensive == ProductAt(products, h)
      invariant products != [] ==> mostExpensive != null
      invariant mostExpensive != null && mostExpensive.articles == [] ==> forall j | 0 <= j < |products| :: products[j].articles == []
    {
      var product := products[i];
      ghost var entered := h;
      for k := 0 to |product.articles|
        invariant h == Visit(keys, Highest, entered, i, k)
        invariant mostExpensive == ProductAt(products, h)
        invariant mostExpensive != null
        invariant mostExpensive.articles == [] ==> forall j | 0 <= j < |products| :: products[j].articles == []
      {
        var article := product.articles[k];
        if mostExpensive.articles[0].pricePerUnit < article.pricePerUnit {
          assert Beats(Highest, keys[i][k], keys[h.value][0]);
          mostExpensive := product;
          h := Some(i);
        }
      }
    }
    assert UnitPrices(products) == keys;
  }

  method FindCheapestBeerPerLitre(products: seq<Product>) returns (cheapest: Product?)
    requires FirstArticleReadable(products)
    ensures cheapest == null <==> products == []
    ensures cheapest != null ==> cheapest in products
    ensures cheapest == ProductAt(products,
              Holder(UnitPrices(products), Lowest, FirstOrNone(UnitPrices(products)), |products|))
    ensures UnitPrices(products) == old(UnitPrices(products))
  {
    ghost var keys := UnitPrices(products);
    ghost var start := FirstOrNone(keys);
    cheapest := if products == [] then null else products[0];
    ghost var h := start;
    for i := 0 to |products|
      invariant h == Holder(keys, Lowest, start, i)
      invariant cheapest == ProductAt(products, h)
      invariant products != [] ==> cheapest != null
      invariant cheapest != null && cheapest.articles == [] ==> forall j | 0 <= j < |products| :: products[j].articles == []
    {
      var product := products[i];
      ghost var entered := h;
      for k := 0 to |product.articles|
        invariant h == Visit(keys, Lowest, entered, i, k)
        invariant cheapest == ProductAt(products, h)
        invariant cheapest != null
        invariant cheapest.articles == [] ==> forall j | 0 <= j < |products| :: products[j].articles == []
      {
        var article := product.articles[k];
        if cheapest.articles[0].pricePerUnit > article.pricePerUnit {
          assert Beats(Lowest, keys[i][k], keys[h.value][0]);
          cheapest := product;
          h := Some(i);
        }
      }
    }
    assert UnitPrices(products) == keys;
  }

  method FindMostBottlesPerProduct(products: seq<Product>) returns (matched: Product?)
    ensures matched == null <==> forall i | 0 <= i < |products| :: products[i].articles == []
    ensures matched != null ==> matched in products && matched.articles != []
    ensures matched == ProductAt(products, Holder(BottleCounts(products), Highest, None, |products|))
  {
    ghost var keys := BottleCounts(products);
    matched := null;
    ghost var h: Option<nat> := None;
    for i := 0 to |products|
      invariant h == Holder(keys, Highest, None, i)
      invariant matched == ProductAt(products, h)
      invariant matched != null ==> matched.articles != []
    {
      var product := products[i];
      ghost var entered := h;
      for k := 0 to |product.articles|
        invariant h == Visit(keys, Highest, entered, i, k)
        invariant matched == ProductAt(products, h)
        invariant matched != null ==> matched.articles != []
      {
        var article := product.articles[k];
        assert keys[i][k] == article.amountOfBottles as real;
        if matched != null && article.amountOfBottles > matched.articles[0].amountOfBottles {
          assert Beats(Highest, keys[i][k], keys[h.value][0]);
          matched := product;
          h := Some(i);
        } else if matched == null {
          matched := product;
          h := Some(i);
        }
      }
    }
    assert keys == BottleCounts(products);
    NoHolderIffNoKeys(keys, Highest, |products|);
  }

  // ---------------------------------------------------------------------
  // Exact-price filter

  /** Some article of `p` is listed at exactly `price`. */
  predicate HasArticlePriced(p: Product, price: real)
    reads p`articles, p.articles`price
  {
    exists a | a in p.articles :: a.price == price
  }

  /** Position of the first occurrence of `p` in `ps`. */
  function FirstIndex(ps: seq<Product>, p: Product): (i: nat)
    requires p in ps
    ensures i < |ps| && ps[i] == p && p !in ps[..i]
  {
    if ps[0] == p then 0 else 1 + FirstIndex(ps[1..], p)
  }

  /** What the loops of findSpecificPrice collect from the first `n` products:
      each product with an article listed at `price`, once, when it is first
      reached. */
  function PricedAmong(ps: seq<Product>, price: real, n: nat): (r: seq<Product>)
    requires n <= |ps|
    reads ps`articles, ArticlesOf(ps)`price
    ensures |r| <= n && forall p | p in r :: p in ps
  {
    if n == 0 then []
    else
      var m := PricedAmong(ps, price, n - 1);
      if HasArticlePriced(ps[n - 1], price) && ps[n - 1] !in m then m + [ps[n - 1]] else m
  }

  /** The collected products are distinct, are exactly the products with an
      article at `price`, and keep the order of their first occurrence. */
  lemma {:induction false} PricedAmongSpec(ps: seq<Product>, price: real, n: nat)
    requires n <= |ps|
    ensures var r := PricedAmong(ps, price, n);
            (forall i, j | 0 <= i < j < |r| :: r[i] != r[j])
            && (forall p :: p in r <==> p in ps[..n] && HasArticlePriced(p, price))
            && (forall p | p in r :: FirstIndex(ps, p) < n)
            && (forall i, j | 0 <= i < j < |r| :: FirstIndex(ps, r[i]) < FirstIndex(ps, r[j]))
  {
    if n > 0 {
      PricedAmongSpec(ps, price, n - 1);
      var m := PricedAmong(ps, price, n - 1);
      var p := ps[n - 1];
      assert ps[..n] == ps[..n - 1] + [p];
      if HasArticlePriced(p, price) && p !in m {
        assert p !in ps[..n - 1];
        assert FirstIndex(ps, p) == n - 1;
      }
    }
  }

  method FindSpecificPrice(products: seq<Product>, price: real) returns (matches: seq<Product>)
    ensures matches == PricedAmong(products, price, |products|)
    ensures matches == old(PricedAmong(products, price, |products|))
    ensures forall i, j | 0 <= i < j < |matches| :: matches[i] != matches[j]
    ensures forall p :: p in matches <==> p in products && HasArticlePriced(p, price)
    ensures forall i, j | 0 <= i < j < |matches| ::
              FirstIndex(products, matches[i]) < FirstIndex(products, matches[j])
  {
    matches := [];
    for i := 0 to |products|
      invariant matches == PricedAmong(products, price, i)
    {
      var product := products[i];
      ghost var before := matches;
      for k := 0 to |product.articles|
        invariant matches == if (exists m | 0 <= m < k :: product.articles[m].price == price) && product !in before
                             then before + [product] else before
      {
        var article := product.articles[k];
        if article.price == price {
          if product !in matches {
            matches := matches + [product];
          }
        }
      }
    }
    PricedAmongSpec(products, price, |products|);
    assert products[..|products|] == products;
  }

  // ---------------------------------------------------------------------
  // Two-level sort

  /** Keys of `OrderBy(a => a.pricePerUnit)`. */
  function UnitPriceKeys(arts: seq<Article>): (key: map<Article, real>)
    reads arts`pricePerUnit
    ensures Keyed(arts, key)
    ensures forall a | a in key :: key[a] == a.pricePerUnit
  {
    if arts == [] then map[]
    else UnitPriceKeys(arts[1..])[arts[0] := arts[0].pricePerUnit]
  }

  /** Keys of `OrderBy(p => p.articles.FirstOrDefault().pricePerUnit)`. */
  function FirstArticleKeys(ps: seq<Product>): (key: map<Product, real>)
    requires forall p | p in ps :: p.articles != []
    reads ps`articles, ArticlesOf(ps)`pricePerUnit
    ensures Keyed(ps, key)
    ensures forall p | p in ps :: key[p] == p.articles[0].pricePerUnit
  {
    if ps == [] then map[]
    else FirstArticleKeys(ps[1..])[ps[0] := ps[0].articles[0].pricePerUnit]
  }

  /** `articles.OrderBy(a => a.pricePerUnit).ToList()`. */
  function SortedArticles(arts: seq<Article>): (r: seq<Article>)
    reads arts`pricePerUnit
    ensures |r| == |arts|
  {
    SortByKey(arts, UnitPriceKeys(arts))
  }

  /** A table of the price per litre of every article of every product in `ps`,
      and the articles of every product. */
  lemma SortInputs(ps: seq<Product>) returns (key: map<Article, real>, src: map<Product, seq<Article>>)
    ensures forall p | p in ps :: p in src && src[p] == p.articles && Keyed(src[p], key)
    ensures forall a | a in key :: key[a] == a.pricePerUnit
  {
    key := map a | a in ArticlesOf(ps) :: a.pricePerUnit;
    src := map p | p in ps :: p.articles;
  }

  /** Sorting with the prices read into a table is sorting by the prices. */
  lemma SortedByTable(arts: seq<Article>, key: map<Article, real>)
    requires Keyed(arts, key)
    requires forall a | a in key :: key[a] == a.pricePerUnit
    ensures SortByKey(arts, key) == SortedArticles(arts)
  {
    SortByKeyAgrees(arts, key, UnitPriceKeys(arts));
  }

  /** `product.articles = product.articles.OrderBy(a => a.pricePerUnit).ToList()`,
      with the prices read beforehand into `key`. The articles are `src`, or
      already sorted when the product is listed twice. */
  method SortArticlesOf(product: Product, ghost key: map<Article, real>, ghost src: seq<Article>)
    requires Keyed(src, key)
    requires forall a | a in key :: key[a] == a.pricePerUnit
    requires product.articles == src || product.articles == SortByKey(src, key)
    modifies product`articles
    ensures product.articles == SortByKey(src, key)
  {
    SortByKeyTwice(src, key);
    SortedByTable(product.articles, key);
    product.articles := SortedArticles(product.articles);
  }

  /** The first loop of sortProductListByArticlePrice: every product's
      articles end up sorted by price per litre. */
  method SortEachProduct(products: seq<Product>)
    modifies products`articles
    ensures forall p | p in products :: p.articles == SortedArticles(old(p.articles))
  {
    ghost var key, src := SortInputs(products);
    ghost var done: set<Product> := {};
    for i := 0 to |products|
      invariant forall m | 0 <= m < i :: products[m] in done
      invariant forall p | p in products :: p.articles == if p in done then SortByKey(src[p], key) else src[p]
    {
      var product := products[i];
      SortArticlesOf(product, key, src[product]);
      done := done + {product};
    }
    AllSortedByTable(products, key, src);
  }

  lemma AllSortedByTable(ps: seq<Product>, key: map<Article, real>, src: map<Product, seq<Article>>)
    requires forall p | p in ps :: p in src && Keyed(src[p], key)
    requires forall a | a in key :: key[a] == a.pricePerUnit
    ensures forall p | p in ps :: SortByKey(src[p], key) == SortedArticles(src[p])
  {
    forall p | p in ps ensures SortByKey(src[p], key) == SortedArticles(src[p]) {
      SortedByTable(src[p], key);
    }
  }

  /** The articles sorted by price per litre are a permutation of the input,
      non-decreasing in price per litre, with articles of equal price in
      their input order. */
  lemma SortedArticlesSpec(arts: seq<Article>)
    ensures var r := SortedArticles(arts);
            multiset(r) == multiset(arts)
            && (forall i, j | 0 <= i < j < |r| :: r[i].pricePerUnit <= r[j].pricePerUnit)
            && forall v :: WithKey(r, UnitPriceKeys(arts), v) == WithKey(arts, UnitPriceKeys(arts), v)
  {
    var key := UnitPriceKeys(arts);
    var r := SortByKey(arts, key);
    SortByKeySpec(arts, key);
    forall i, j | 0 <= i < j < |r| ensures r[i].pricePerUnit <= r[j].pricePerUnit {
      assert r[i] in key && r[j] in key;
    }
  }

  /** The products sorted by the price per litre of their first article are a
      permutation of the input, non-decreasing in that price, with products
      of equal first price in their input order. */
  lemma SortedProductsSpec(ps: seq<Product>)
    requires forall p | p in ps :: p.articles != []
    ensures var r := SortByKey(ps, FirstArticleKeys(ps));
            |r| == |ps| && multiset(r) == multiset(ps)
            && (forall p :: p in r <==> p in ps)
            && (forall i | 0 <= i < |r| :: r[i].articles != [])
            && (forall i, j | 0 <= i < j < |r| :: r[i].articles[0].pricePerUnit <= r[j].articles[0].pricePerUnit)
            && forall v :: WithKey(r, FirstArticleKeys(ps), v) == WithKey(ps, FirstArticleKeys(ps), v)
  {
    var key := FirstArticleKeys(ps);
    var r := SortByKey(ps, key);
    SortByKeySpec(ps, key);
    forall p ensures p in r <==> p in ps {
      assert p in r <==> p in multiset(r);
    }
    forall i, j | 0 <= i < j < |r| ensures r[i].articles[0].pricePerUnit <= r[j].articles[0].pricePerUnit {
      assert r[i] in ps && r[j] in ps;
    }
  }

  /** Sorting the products findSpecificPrice returns (distinct) by their
      first price gives each matching product once, by ascending first
      price. */
  lemma SortedMatchesSpec(matches: seq<Product>, r: seq<Product>)
    requires forall p | p in matches :: p.articles != []
    requires Distinct(matches)
    requires r == SortByKey(matches, FirstArticleKeys(matches))
    ensures forall p :: p in r <==> p in matches
    ensures Distinct(r)
    ensures forall p | p in r :: p.articles != []
    ensures forall i, j | 0 <= i < j < |r| :: r[i].articles[0].pricePerUnit <= r[j].articles[0].pricePerUnit
  {
    SortedProductsSpec(matches);
    PermutationKeepsDistinct(matches, r);
  }

  /** Products findSpecificPrice returns in catalogue order keep that order
      among equal first prices once sorted: the sort is stable. */
  lemma SortedMatchesOrder(products: seq<Product>, matches: seq<Product>, r: seq<Product>)
    requires forall p | p in matches :: p in products && p.articles != []
    requires forall i, j | 0 <= i < j < |matches| ::
               FirstIndex(products, matches[i]) < FirstIndex(products, matches[j])
    requires r == SortByKey(matches, FirstArticleKeys(matches))
    requires forall p | p in r :: p in matches && p.articles != []
    ensures forall i, j | 0 <= i < j < |r| && r[i].articles[0].pricePerUnit == r[j].articles[0].pricePerUnit ::
              FirstIndex(products, r[i]) < FirstIndex(products, r[j])
  {
    var key := FirstArticleKeys(matches);
    var rank := map p | p in matches :: FirstIndex(products, p);
    SortKeepsRank(matches, key, rank);
    forall i, j | 0 <= i < j < |r| && r[i].articles[0].pricePerUnit == r[j].articles[0].pricePerUnit
      ensures FirstIndex(products, r[i]) < FirstIndex(products, r[j])
    {
      assert key[r[i]] == key[r[j]];
    }
  }

  method SortProductListByArticlePrice(products: seq<Product>) returns (sorted: seq<Product>)
    requires forall p | p in products :: p.articles != []
    modifies products`articles
    ensures forall p | p in products :: p.articles == SortedArticles(old(p.articles))
    ensures forall p | p in products :: p.articles != []
    ensures sorted == SortByKey(products, FirstArticleKeys(products))
  {
    SortEachProduct(products);
    sorted := SortByKey(products, FirstArticleKeys(products));
  }
}
