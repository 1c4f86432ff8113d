/** One point-in-time observation of a product (scrapper/src/domain/ProductCheck.ts). */
module ProductChecks {
  import opened Wrappers
  import opened JsonValues
  import opened Products

  /** The raw fields a product page yields; every field may be absent. */
  datatype ProductCheckData = ProductCheckData(
    price: Option<real>,
    originalPrice: Option<real>,
    inStock: Option<bool>,
    rating: Option<real>,
    reviewCount: Option<int>,
    additionalData: Option<seq<(string, Json)>>)

  /** An observation. `hasPromotion` and `discountPercentage` are derived once, by `NewProductCheck`. */
  datatype ProductCheck = ProductCheck(
    productUrl: string,
    price: Option<real>,
    originalPrice: Option<real>,
    hasPromotion: bool,
    discountPercentage: Option<int>,
    inStock: bool,
    rating: Option<real>,
    reviewCount: Option<int>,
    additionalData: seq<(string, Json)>,
    checkedAt: Timestamp)

  /** JavaScript truthiness of a nullable number (NaN is not modelled): present and non-zero. */
  predicate Truthy(x: Option<real>) {
    x.Some? && x.value != 0.0
  }

  /** `Math.round`: the integer nearest to `x`, halves rounded up. */
  function JsRound(x: real): (r: int)
    ensures r as real - 0.5 <= x < r as real + 0.5
  {
    (x + 0.5).Floor
  }

  /** The percentage by which `price` undercuts `originalPrice`. */
  function DiscountRatio(price: real, originalPrice: real): real
    requires originalPrice != 0.0
  {
    (originalPrice - price) / originalPrice * 100.0
  }

  /** The `!!(originalPrice && price && price < originalPrice)` conjunction: both prices present and
      non-zero, and the price below the original one. */
  predicate PromotionFlag(price: Option<real>, originalPrice: Option<real>)
    ensures PromotionFlag(price, originalPrice)
            <==> && price.Some? && originalPrice.Some?
                 && price.value != 0.0 && originalPrice.value != 0.0
                 && price.value < originalPrice.value
  {
    Truthy(originalPrice) && Truthy(price) && price.value < originalPrice.value
  }

  /** `calculateDiscountPercentage`: null unless there is a promotion and both prices are truthy. */
  function CalculateDiscountPercentage(hasPromotion: bool, price: Option<real>, originalPrice: Option<real>): (d: Option<int>)
    ensures d.Some? <==> hasPromotion && Truthy(price) && Truthy(originalPrice)
    ensures d.Some? ==> d.value as real - 0.5 <= DiscountRatio(price.value, originalPrice.value) < d.value as real + 0.5
  {
    if !hasPromotion || !Truthy(price) || !Truthy(originalPrice) then None
    else Some(JsRound(DiscountRatio(price.value, originalPrice.value)))
  }

  /** The `ProductCheck` constructor, with `now` the reading of the clock. */
  function NewProductCheck(productUrl: string, data: ProductCheckData, now: Timestamp): (c: ProductCheck)
    ensures c.productUrl == productUrl && c.checkedAt == now
    ensures c.price == data.price && c.originalPrice == data.originalPrice
    ensures c.rating == data.rating && c.reviewCount == data.reviewCount
    ensures c.inStock == (data.inStock != Some(false))
    ensures c.additionalData == (if data.additionalData.Some? then data.additionalData.value else [])
  {
    var hasPromotion := PromotionFlag(data.price, data.originalPrice);
    ProductCheck(
      productUrl,
      data.price,
      data.originalPrice,
      hasPromotion,
      CalculateDiscountPercentage(hasPromotion, data.price, data.originalPrice),
      data.inStock.GetOr(true),
      data.rating,
      data.reviewCount,
      data.additionalData.GetOr([]),
      now)
  }

  /** A check is a promotion exactly when both prices are present and non-zero and the price is below
      the original price; only a promotion carries a discount, and that discount is the relative
      saving in per cent, rounded to the nearest whole number. */
  lemma PromotionDerived(productUrl: string, data: ProductCheckData, now: Timestamp)
    ensures var c := NewProductCheck(productUrl, data, now);
      && (c.hasPromotion <==>
            data.price.Some? && data.originalPrice.Some? && data.price.value != 0.0
            && data.originalPrice.value != 0.0 && data.price.value < data.originalPrice.value)
      && (!c.hasPromotion ==> c.discountPercentage == None)
      && (c.hasPromotion ==>
            c.discountPercentage.Some?
            && var pct := (data.originalPrice.value - data.price.value) / data.originalPrice.value * 100.0;
                 c.discountPercentage.value as real - 0.5 <= pct < c.discountPercentage.value as real + 0.5)
  {
    var c := NewProductCheck(productUrl, data, now);
    if c.hasPromotion {
      var pct := DiscountRatio(data.price.value, data.originalPrice.value);
      assert c.discountPercentage == Some(JsRound(pct));
    }
  }

  /** With a positive price, a promotion's discount lies between 0 and 100 per cent. */
  lemma DiscountWithinPercentRange(productUrl: string, data: ProductCheckData, now: Timestamp)
    requires data.price.Some? && data.price.value > 0.0
    ensures var c := NewProductCheck(productUrl, data, now);
            c.hasPromotion ==> 0 <= c.discountPercentage.value <= 100
  {
    var c := NewProductCheck(productUrl, data, now);
    PromotionDerived(productUrl, data, now);
    if c.hasPromotion {
      var p, op := data.price.value, data.originalPrice.value;
      var d := c.discountPercentage.value;
      var pct := DiscountRatio(p, op);
      assert 0.0 < p < op;
      RatioBelowOne(p, op);
      assert 0.0 < pct < 100.0;
      assert d as real - 0.5 <= pct < d as real + 0.5;
    }
  }

  /** A strictly smaller positive amount is a proper fraction of the larger one. */
  lemma RatioBelowOne(a: real, b: real)
    requires 0.0 < a < b
    ensures 0.0 < (b - a) / b < 1.0
  {
    var r := (b - a) / b;
    assert r * b == b - a;
    if r >= 1.0 {
      assert false;
    }
  }

  /** Without an original price there is no promotion and no discount. */
  lemma NoOriginalPriceNoPromotion(productUrl: string, data: ProductCheckData, now: Timestamp)
    requires data.originalPrice.None?
    ensures NewProductCheck(productUrl, data, now).hasPromotion == false
    ensures NewProductCheck(productUrl, data, now).discountPercentage == None
  {
  }

  /** 80 against an original 100 is a 20 per cent promotion. */
  lemma EightyOfHundredIsTwentyPercent(productUrl: string, now: Timestamp)
    ensures var c := NewProductCheck(productUrl, ProductCheckData(Some(80.0), Some(100.0), None, None, None, None), now);
            c.hasPromotion && c.discountPercentage == Some(20)
  {
    var x := DiscountRatio(80.0, 100.0);
    assert x == 20.0;
    assert JsRound(x) == 20;
  }

  /** A price above the original price is no promotion. */
  lemma PriceAboveOriginalIsNoPromotion(productUrl: string, now: Timestamp)
    ensures var c := NewProductCheck(productUrl, ProductCheckData(Some(100.0), Some(80.0), None, None, None, None), now);
            !c.hasPromotion && c.discountPercentage == None
  {
  }

  /** A check with no reported stock and no extra data is in stock and carries an empty map. */
  lemma Defaults(productUrl: string, data: ProductCheckData, now: Timestamp)
    requires data.inStock.None? && data.additionalData.None?
    ensures NewProductCheck(productUrl, data, now).inStock
    ensures NewProductCheck(productUrl, data, now).additionalData == []
  {
  }

  /** The member names of `toJSON`'s object, in the order of its object literal (`checkedAt` comes
      second there, though the class declares it last). */
  const CheckFields: seq<string> := ["productUrl", "checkedAt", "price", "originalPrice", "hasPromotion",
                                     "discountPercentage", "inStock", "rating", "reviewCount", "additionalData"]

  /** `toJSON`: every field, in the order of `toJSON`'s object literal, `checkedAt` as its ISO string. */
  function CheckToJson(c: ProductCheck): (j: Json)
    ensures j.JObj? && Keys(j.members) == CheckFields
  {
    JObj([
      ("productUrl", JStr(c.productUrl)),
      ("checkedAt", JTime(c.checkedAt)),
      ("price", OptNum(c.price)),
      ("originalPrice", OptNum(c.originalPrice)),
      ("hasPromotion", JBool(c.hasPromotion)),
      ("discountPercentage", OptInt(c.discountPercentage)),
      ("inStock", JBool(c.inStock)),
      ("rating", OptNum(c.rating)),
      ("reviewCount", OptInt(c.reviewCount)),
      ("additionalData", JObj(c.additionalData))])
  }

  /** JSON encoding of a nullable integer. */
  function OptInt(o: Option<int>): Json {
    match o
    case None => JNull
    case Some(i) => JNum(i as real)
  }

  /** Reads back an observation from the object `CheckToJson` writes; None for any other shape. */
  function CheckFromJson(j: Json): Option<ProductCheck> {
    if !j.JObj? || Keys(j.members) != CheckFields then None
    else
      var ms := j.members;
      if !ms[0].1.JStr? || !ms[1].1.JTime? || !ms[4].1.JBool? || !ms[6].1.JBool? || !ms[9].1.JObj? then None
      else
        var price := AsOptNum(ms[2].1);
        var originalPrice := AsOptNum(ms[3].1);
        var discount := AsOptInt(ms[5].1);
        var rating := AsOptNum(ms[7].1);
        var reviews := AsOptInt(ms[8].1);
        if price.None? || originalPrice.None? || discount.None? || rating.None? || reviews.None? then None
        else Some(ProductCheck(ms[0].1.s, price.value, originalPrice.value, ms[4].1.b, discount.value,
                               ms[6].1.b, rating.value, reviews.value, ms[9].1.members, ms[1].1.t))
  }

  /** `toJSON` reproduces every field unchanged: reading its object back gives the same observation. */
  lemma CheckJsonRoundTrip(c: ProductCheck)
    ensures CheckFromJson(CheckToJson(c)) == Some(c)
  {
    var ms := CheckToJson(c).members;
    assert AsOptNum(ms[2].1) == Some(c.price) && AsOptNum(ms[3].1) == Some(c.originalPrice);
    assert AsOptNum(ms[7].1) == Some(c.rating);
    IntRoundTrip(c.discountPercentage);
    IntRoundTrip(c.reviewCount);
  }

  /** Decoding undoes the encoding of a nullable integer. */
  lemma IntRoundTrip(o: Option<int>)
    ensures AsOptInt(OptInt(o)) == Some(o)
  {
    if o.Some? {
      assert (o.value as real).Floor == o.value;
    }
  }
}
