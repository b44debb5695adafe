# BierProdukteFPCS — a verified model of the beer-price controller

BierProdukteFPCS is an ASP.NET controller. It fetches a product catalogue
(products, each owning an ordered list of articles) as JSON and answers four
queries on it:

- the products with the most and the least expensive price per litre;
- the products with an article at an exact price, sorted by price per litre;
- the product with the most bottles;
- all of the above at once.

This project models the logic of the controller's private helpers and of the
endpoints that compose them, and proves what they compute.

- `model.dfy` (module `Model`): the `Article` record and the `Product` entity
  as classes. Normalisation overwrites article fields in place, the sort
  reassigns a product's article list, and the exact-price filter compares
  products by reference.
- `extract.dfy` (module `Extract`): the two text extractors, on strings.
  - `ExtractDoubleValueFromStringPricePerUnitText` finds the leftmost match of
    `\(([\d,]+) €/Liter\)`, turns commas into periods and parses the group as
    a decimal. It yields 0 when there is no match or the parse fails.
  - `ExtractIntValueFromShortDescription` reads the digits matched by `^\d+`.
    It yields 0 when the description does not start with a digit.
  - The regexes are written as scanners and proved against a declarative
    description of a match.
- `selection.dfy` (module `Selection`): the running-candidate scan shared by
  the three "find" helpers, as a function over a table of keys.
- `stable_sort.dfy` (module `StableSort`): `OrderBy(key).ToList()` as a stable
  insertion sort. It is proved to be ascending, a permutation, and
  order-preserving among equal keys, and to be the only sequence with those
  properties.
- `bier_controller.dfy` (module `BierController`): the helpers themselves, as
  methods on the shared objects, with their loops. Each is proved equal to the
  value-level model.
- `endpoints.dfy` (module `Endpoints`): the four GET endpoints. Each takes the
  already fetched and normalised list as a parameter, with `None` standing for
  `null`, and returns `BadRequest(message)` or `Ok(body)`. `PriceRangeOf` and
  `MostBottlesOf` state what the scans answer on a catalogue. `InPriceOrder`
  states the order of the matching list: distinct catalogue products,
  ascending by the price per litre of their first article, with equal prices
  in catalogue order. Two lists in price order with the same products are
  equal. The `targetPrice` parameter defaults to 17.99, as in
  the source.
- `wrappers.dfy` (module `Wrappers`): the `Option` type.

How the helpers behave, as the code is written:

- **The price scans are not a maximum or minimum search.**
  `findMostExpensiveBeerPerLitre` and `findCheapestBeerPerLitre` start from
  the first product. They compare each article with the *first article of the
  current candidate*, not with the best price seen so far. When every product
  has exactly one article, this is the earliest product with the best price
  (`Selection.HolderIsEarliestBest`). In general it is not: with keys
  `[[3], [1, 5], [2]]` the scan ends on the third product
  (`Selection.FirstKeyScanMissesBestKey`).
- **The bottle scan** starts without a candidate. The first product that has
  an article becomes the candidate. After that it follows the same
  first-article rule.
- **In GET all, the bottle scan sees the reordered articles.** It runs after
  the sort has reordered the articles of the matching products, so its answer
  can differ from GET mostBottles on the same catalogue
  (`Selection.ScanDependsOnArticleOrder`).
- **None of the three scans looks for the article with the strictly greatest
  (least) value.** Each compares against the candidate's first article.

## Model

| member | source | states |
|---|---|---|
| Model.Article.constructor | BierProdukteFPCS/Model/Article.cs:3-13 | An article holds the eight fields of the record. When the payload does not set the two derived fields, they start at 0. |
| Extract.ExtractDoubleValueFromStringPricePerUnitText | BierProdukteFPCS/Controllers/BierController.cs:82-98 | The price per litre is never negative. It is 0 when the text holds no `(digits-and-commas €/Liter)` match. |
| Extract.PriceFromLeftmostMatch | BierProdukteFPCS/Controllers/BierController.cs:84-97 | The leftmost match decides the result: its group, commas read as periods, when that parses, and 0 when it does not. |
| Extract.PriceOfStatedNumber | BierProdukteFPCS/Controllers/BierController.cs:84-95 | A text with `(whole,frac €/Liter)` and no earlier parenthesis yields the decimal `whole.frac`. |
| Extract.PriceWithSeveralCommasIsZero | BierProdukteFPCS/Controllers/BierController.cs:90-97 | When the leftmost group holds two or more commas, it does not parse, and the result is 0. |
| Extract.ParseDecimalSucceeds | BierProdukteFPCS/Controllers/BierController.cs:92-95 | A string of digits and periods parses exactly when it has at most one period and at least one digit. |
| Extract.CommasBecomePoints | BierProdukteFPCS/Controllers/BierController.cs:90 | After the comma replacement, the text has as many periods as the group had commas. |
| Extract.ExtractIntValueFromShortDescription | BierProdukteFPCS/Controllers/BierController.cs:99-112 | The bottle count lies between 0 and the largest C# `int`. It is 0 when the description does not start with a digit. |
| Extract.BottleCountRoundTrip | BierProdukteFPCS/Controllers/BierController.cs:101-106 | A description that starts with the numeral of `n`, followed by a non-digit, yields `n`. This is the inverse of writing the count. |
| Extract.LeadingCountIsMaximalRun | BierProdukteFPCS/Controllers/BierController.cs:101-106 | The count is the value of the maximal leading run of digits. |
| BierController.NormalizeProduct | BierProdukteFPCS/Controllers/BierController.cs:66-70 | Every article of the product gets the two values derived from its own text fields. |
| BierController.PricePerUnitFromPricePerUnitText | BierProdukteFPCS/Controllers/BierController.cs:60-79 | `null` stays `null`, and otherwise the same list comes back. Every article's price per litre and bottle count become the extractors' values of its own text. An article that was already normalised is unchanged, so the operation is idempotent. |
| BierController.FindMostExpensiveBeerPerLitre | BierProdukteFPCS/Controllers/BierController.cs:113-129 | The result is `null` exactly for the empty list, and otherwise an element of the list. It equals the first-article scan `Selection.Holder` for the highest price per litre, starting from the first product. It changes no price, so the price table after the scan is the one before it. |
| BierController.FindCheapestBeerPerLitre | BierProdukteFPCS/Controllers/BierController.cs:130-146 | The same as the most-expensive scan, for the lowest price per litre. It changes no price either. |
| Selection.HolderIsEarliestBest | BierProdukteFPCS/Controllers/BierController.cs:115-128 | When every product has one article, the scan ends on the earliest product with the best key: no product beats it, and it beats every earlier one. |
| Selection.HolderUnbeatenAfter | BierProdukteFPCS/Controllers/BierController.cs:117-125 | No article of a product after the final candidate beats the candidate's first key. |
| Selection.FirstKeyScanMissesBestKey | BierProdukteFPCS/Controllers/BierController.cs:119-124 | On keys `[[3], [1, 5], [2]]`, the highest-key scan ends on product 2, not on product 1, which holds the highest key. |
| BierController.FindMostBottlesPerProduct | BierProdukteFPCS/Controllers/BierController.cs:169-189 | The result is `null` exactly when no product has an article. Otherwise it is an element of the list with at least one article. It equals the first-article scan for the most bottles, starting without a candidate. |
| Selection.NoHolderIffNoKeys | BierProdukteFPCS/Controllers/BierController.cs:171-186 | A scan that starts without a candidate ends without one exactly when no product has an article. |
| BierController.FindSpecificPrice | BierProdukteFPCS/Controllers/BierController.cs:148-167 | A product is in the result exactly when it is in the list and has an article at exactly `price`. The result holds no duplicates and keeps the order of first occurrence in the input. It is the exact-price filter of the catalogue as it was at the call. |
| BierController.PricedAmongSpec | BierProdukteFPCS/Controllers/BierController.cs:152-164 | What the loops collect from the first `n` products is distinct, is exactly the priced products among them, and is ordered by first occurrence. |
| BierController.SortEachProduct | BierProdukteFPCS/Controllers/BierController.cs:194-197 | Every product's article list becomes its `OrderBy(pricePerUnit)` ordering. |
| BierController.SortProductListByArticlePrice | BierProdukteFPCS/Controllers/BierController.cs:191-201 | The articles of every product are reordered by price per litre and stay nonempty. The result is the stable sort of the products by the price per litre of their (new) first article. |
| BierController.SortedArticlesSpec | BierProdukteFPCS/Controllers/BierController.cs:196 | The article ordering is a permutation, non-decreasing in price per litre, and keeps articles of equal price in their input order. |
| BierController.SortedProductsSpec | BierProdukteFPCS/Controllers/BierController.cs:200 | The product ordering is a permutation with the same members and length. It is non-decreasing in first-article price per litre and keeps products of equal key in input order. |
| StableSort.SortByKeySpec | BierProdukteFPCS/Controllers/BierController.cs:196 | Sorting by a key is ascending, a permutation, and keeps the elements of each key in their input order. |
| StableSort.StableSortIsUnique | BierProdukteFPCS/Controllers/BierController.cs:200 | Two ascending sequences with the same elements, in the same order, for every key are equal. So the stable sort is fully determined. |
| StableSort.SortByKeyTwice | BierProdukteFPCS/Controllers/BierController.cs:196 | Sorting an already sorted list changes nothing. |
| StableSort.SortByKeyAgrees | BierProdukteFPCS/Controllers/BierController.cs:196 | The ordering depends only on the keys of the elements sorted. |
| StableSort.SortKeepsRank | BierProdukteFPCS/Controllers/BierController.cs:200 | Sorting keeps the elements of each key in the order of any rank that increases along the input. |
| BierController.SortedMatchesSpec | BierProdukteFPCS/Controllers/BierController.cs:199-200 | The sorted product list has the same members as its input and no duplicates when the input has none. Every member has an article, and the list ascends by the price per litre of the first article. |
| BierController.SortedMatchesOrder | BierProdukteFPCS/Controllers/BierController.cs:199-200 | Sorted products with the same first price keep the catalogue order they had in the input. |
| Endpoints.SortedMatchesInPriceOrder | BierProdukteFPCS/Controllers/BierController.cs:225-227 | The stable sort of what findSpecificPrice returns has the same members and is in price order. |
| Endpoints.InPriceOrderIsUnique | BierProdukteFPCS/Controllers/BierController.cs:225-227 | Two lists in price order over the same products are the same list. So price order and membership fix the matching list completely. |
| Endpoints.PriceRankedIsUnique | BierProdukteFPCS/Controllers/BierController.cs:225-227 | Two lists of distinct catalogue products that ascend by key, with equal keys in catalogue order, are equal when they have the same products and the keys agree. |
| Endpoints.PriceRangeOf | BierProdukteFPCS/Controllers/BierController.cs:209-210 | The answer of the two price scans: the products the highest and the lowest first-article scans end on. Each is `null` exactly for an empty catalogue, and otherwise a member of it. |
| Endpoints.PriceScans | BierProdukteFPCS/Controllers/BierController.cs:209-210 | The two scans, run one after the other, answer `PriceRangeOf` the catalogue. They change nothing that answer depends on. |
| Endpoints.GetPriceRange | BierProdukteFPCS/Controllers/BierController.cs:203-217 | A failed fetch gives `BadRequest("Irgendwas ist schiefgelaufen")`, and only a failed fetch does. Otherwise the body is `PriceRangeOf` the catalogue. |
| Endpoints.MatchingSorted | BierProdukteFPCS/Controllers/BierController.cs:225-227 | The result holds exactly the products that had an article at the target price before the call, and it is `InPriceOrder`. It equals the stable sort, by the price per litre of the first article, of what findSpecificPrice returns on the catalogue at the call. Each matching product's article list becomes its price-sorted list. Every other product keeps its list. |
| Endpoints.GetBeersWithPrice | BierProdukteFPCS/Controllers/BierController.cs:219-230 | A failed fetch gives `BadRequest("Unable to fetch products")`, and only a failed fetch does. Otherwise the body is the stable sort, by first-article price per litre, of the products findSpecificPrice returns on the catalogue as fetched. It holds exactly the products with an article at the target price and is `InPriceOrder`. The new article lists are those of `MatchingSorted`. |
| Endpoints.MostBottlesOf | BierProdukteFPCS/Controllers/BierController.cs:238 | The answer of the bottle scan: `null` exactly when no product has an article, and otherwise a catalogue product with an article. |
| Endpoints.GetProductWithMostBottles | BierProdukteFPCS/Controllers/BierController.cs:232-241 | A failed fetch gives `BadRequest("Unable to fetch products")`, and only a failed fetch does. Otherwise the body is `MostBottlesOf` the catalogue. |
| Endpoints.MostBottlesAfterSort | BierProdukteFPCS/Controllers/BierController.cs:254-256 | The bottle scan after the sort answers `MostBottlesOf` the catalogue as the sort left it. The sorted list stays `InPriceOrder`. |
| Endpoints.GetAll | BierProdukteFPCS/Controllers/BierController.cs:243-265 | A failed fetch gives `BadRequest("Unable to fetch products")`, and only a failed fetch does. Otherwise the two price fields are `PriceRangeOf` the catalogue as fetched. The matching list holds exactly the products with an article at the target price and is `InPriceOrder`; by `InPriceOrderIsUnique` that fixes it as the list `MatchingSorted` gives. The new article lists are those of `MatchingSorted`. The bottle field is `MostBottlesOf` the catalogue after the sort. |
| Selection.ScanDependsOnArticleOrder | BierProdukteFPCS/Controllers/BierController.cs:252-256 | Reordering one product's articles changes the bottle scan's answer, as the sort in GET all does before the bottle scan runs. |

## Left out

- Fetching over HTTP and the async plumbing (`ReadJSONFromUrl`, lines 26-42) are left out. The endpoints take the fetched list as a parameter, with `None` for a failed fetch or a `null` payload.
- JSON deserialisation (lines 44-58) is left out. Its result enters the model as already decoded objects, and normalisation runs on it.
- Floating point is not modelled. Prices are exact `real` numbers, so `double` rounding and the `==` comparison of two doubles in `findSpecificPrice` are exact here.
- Extract.ExtractDoubleValueFromStringPricePerUnitText: `double.TryParse` with `NumberStyles.Any` is modelled only on the strings the regex group can produce (digits and periods). On those it accepts one optional period with a digit somewhere. Its other leniencies (signs, exponents, currency symbols) cannot arise from that group.
- `\d` is modelled as the ASCII digits `0`-`9`. .NET also matches other Unicode decimal digits.
- Extract.ExtractIntValueFromShortDescription: `int.Parse` throws when the leading count exceeds the largest `int`. The model makes that a precondition (`CountFits`, and `CountsFit` for normalisation) instead of modelling the exception.
- BierController.FindMostExpensiveBeerPerLitre, BierController.FindCheapestBeerPerLitre: the source throws a `NullReferenceException` when the candidate has no articles but a later product has some. The precondition `FirstArticleReadable` excludes that input instead of modelling the exception.
- BierController.SortProductListByArticlePrice: the source throws when a product has no articles (`FirstOrDefault()` is `null`). The precondition requires nonempty article lists, which every product the exact-price filter returns has.
- A `null` `articles` list, and a `null` element of the product or article list, are not modelled. Lists are sequences of non-null objects.
- A `null` `pricePerUnitText` or `shortDescription` is not modelled. On it `Regex.Match` throws `ArgumentNullException` (lines 86 and 102). Text fields are strings.
- Article and product fields that the helpers never read (`id`, `unit`, `image`, and the product's other catalogue fields) are carried but have no behaviour. Product fields other than `articles` are not modelled.
- `OrderBy` is modelled as a stable insertion sort. Only its result is modelled; `StableSort.StableSortIsUnique` shows that the result is determined by the ascending and stable properties. The allocation of a new list by `ToList()` is modelled as a new sequence value.
- The HTTP response encoding (status codes and JSON serialisation of the anonymous objects) is left out. Responses are the `Response` datatype.
