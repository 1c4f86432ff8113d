/** The catalog item's identity record (scrapper/src/domain/Product.ts). */
module Products {
  import opened Wrappers
  import opened JsonValues

  /** A point in time. The model never inspects timestamps; it only tells null from non-null. */
  type Timestamp = nat

  /** A `{url, title}` pair as the homepage listing produces it. */
  datatype ScrapedProduct = ScrapedProduct(url: string, title: string)

  /** A product row: `removedAt` is null while the product is on the homepage.
      Omitting `removedAt` gives null, as the TypeScript constructor's default does. */
  datatype Product = Product(url: string, title: string, removedAt: Option<Timestamp> := None) {

    /** Available exactly when no removal time is recorded; a product is available or removed,
        never both. */
    predicate IsAvailable()
      ensures IsAvailable() <==> removedAt == None
      ensures IsAvailable() != removedAt.Some?
    {
      removedAt.None?
    }

    /** The JSON object `{url, title, removedAt}`, in that order. */
    function ToJson(): (j: Json)
      ensures j.JObj? && Keys(j.members) == ["url", "title", "removedAt"]
      ensures ProductFromJson(j) == Some(this)
    {
      JObj([("url", JStr(url)), ("title", JStr(title)), ("removedAt", OptTime(removedAt))])
    }
  }

  /** JSON encoding of a nullable timestamp. */
  function OptTime(o: Option<Timestamp>): Json {
    match o
    case None => JNull
    case Some(t) => JTime(t)
  }

  /** A product built from homepage data: same url and title, not removed. */
  function FromScrapedData(data: ScrapedProduct): (p: Product)
    ensures p.url == data.url && p.title == data.title
    ensures p.IsAvailable()
  {
    Product(data.url, data.title, None)
  }

  /** Reads back a product from the object `ToJson` writes; None for any other shape. */
  function ProductFromJson(j: Json): Option<Product> {
    match j
    case JObj(ms) =>
      if |ms| == 3 && ms[0].0 == "url" && ms[1].0 == "title" && ms[2].0 == "removedAt"
         && ms[0].1.JStr? && ms[1].1.JStr?
      then
        match ms[2].1
        case JNull => Some(Product(ms[0].1.s, ms[1].1.s, None))
        case JTime(t) => Some(Product(ms[0].1.s, ms[1].1.s, Some(t)))
        case _ => None
      else None
    case _ => None
  }

  /** Omitting `removedAt` gives an available product. */
  lemma DefaultIsAvailable(url: string, title: string)
    ensures Product(url, title).removedAt == None
    ensures Product(url, title).IsAvailable()
  {
  }
}
