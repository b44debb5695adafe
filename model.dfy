/**
 * The two entities the controller works on. `Article` is the record of
 * Model/Article.cs; `Product` owns an ordered list of articles. Both are
 * reference types in the source: normalisation overwrites article fields
 * in place, the sort reassigns a product's article list, and the exact-price
 * filter compares products by reference.
 */
module Model {

  /** One purchasable offering. `amountOfBottles` and `pricePerUnit` are
      derived from `shortDescription` and `pricePerUnitText` by normalisation. */
  class Article {
    var id: int
    var shortDescription: string
    var amountOfBottles: int
    var price: real
    var unit: string
    var pricePerUnitText: string
    var pricePerUnit: real
    var image: string

    /** An article as JSON decoding leaves it when the payload does not carry
        the two derived fields: both start at zero. */
    constructor (id: int, shortDescription: string, price: real, unit: string,
                 pricePerUnitText: string, image: string)
      ensures this.id == id && this.shortDescription == shortDescription
      ensures this.price == price && this.unit == unit
      ensures this.pricePerUnitText == pricePerUnitText && this.image == image
      ensures amountOfBottles == 0 && pricePerUnit == 0.0
    {
      this.id := id;
      this.shortDescription := shortDescription;
      this.amountOfBottles := 0;
      this.price := price;
      this.unit := unit;
      this.pricePerUnitText := pricePerUnitText;
      this.pricePerUnit := 0.0;
      this.image := image;
    }
  }

  /** A catalogue entry; only its article list takes part in the controller's logic. */
  class Product {
    var articles: seq<Article>

    constructor (articles: seq<Article>)
      ensures this.articles == articles
    {
      this.articles := articles;
    }
  }

  /** Every article of every product in `ps`. */
  ghost function ArticlesOf(ps: seq<Product>): (r: set<Article>)
    reads ps`articles
    ensures forall p, a | p in ps && a in p.articles :: a in r
  {
    set p, a | p in ps && a in p.articles :: a
  }
}
