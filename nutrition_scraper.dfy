/**
 * The multi-source nutrition lookup: Open Food Facts first, then the optional
 * USDA client. The Open Food Facts client is a provider whose answer for the
 * call at hand is an input value; the USDA client is the model of `UsdaApi`
 * over its two services.
 */
module NutritionScraper {
  import opened Wrappers
  import opened Records
  import opened Sequences
  import UsdaApi

  /** An Open Food Facts product: its top-level fields and its `nutriments` dictionary, if any. */
  datatype Product = Product(fields: Record, nutriments: Option<Record>)

  const OffSource: string := "Open Food Facts"

  /** The scraper: the country preference passed to Open Food Facts, and the USDA client if one was set up. */
  datatype Scraper = Scraper(countryCode: Option<string>, usda: Option<UsdaApi.UsdaClient>)

  /**
   * The constructor. The USDA client is created only when its module could be
   * imported (`usdaAvailable`) and a truthy key was given.
   */
  function NewScraper(usdaApiKey: Option<string>, countryCode: Option<string>, usdaAvailable: bool): (s: Scraper)
    ensures s.usda.Some? <==> usdaAvailable && UsdaApi.Given(usdaApiKey)
    ensures s.usda.Some? ==> UsdaApi.HasKey(s.usda.value) && s.usda.value.apiKey == usdaApiKey
    ensures s.countryCode == countryCode
  {
    Scraper(countryCode, if usdaAvailable && UsdaApi.Given(usdaApiKey) then Some(UsdaApi.UsdaClient(usdaApiKey)) else None)
  }

  /** `nutrition and nutrition.get('calories', 0) > 0`, where the comparison holds. */
  predicate Usable(r: Option<Record>) {
    r.Some? && HasPositiveCalories(r.value)
  }

  /** A non-empty record whose calories cannot be compared with 0. */
  predicate Raises(r: Option<Record>) {
    Truthy(r) && NonNumericCalories(r.value)
  }

  /**
   * `nutrition and nutrition.get('calories', 0) > 0`: a missing or empty record
   * is not usable without any comparison; otherwise the comparison decides, or
   * raises.
   */
  function CheckCalories(r: Option<Record>): (res: Result<bool, Raised>)
    ensures res.Failure? <==> Raises(r)
    ensures res == Success(true) <==> Usable(r)
  {
    if Truthy(r) then CaloriesAboveZero(r.value) else Success(false)
  }

  // ---------------------------------------------------------------------------
  // Nutrition and detailed lookups
  // ---------------------------------------------------------------------------

  /**
   * `get_nutrition_info`: the Open Food Facts record when it has positive
   * calories, else the USDA record when the client exists and its record has
   * positive calories, else nothing. A calorie value that is a string or
   * `None` makes the comparison raise `TypeError`, which nothing catches.
   */
  function NutritionInfo(s: Scraper, foodName: string, off: Option<Record>,
                         usdaSearch: UsdaApi.SearchService): (r: Result<Option<Record>, Raised>)
    ensures r.Failure? <==> Raises(off)
    ensures r.Success? && r.value.Some? ==> Usable(r.value) && (r.value == off || s.usda.Some?)
  {
    match CheckCalories(off)
    case Failure(e) => Failure(e)
    case Success(found) =>
      if found then Success(off)
      else if s.usda.Some? then
        var u := UsdaApi.NutritionInfo(s.usda.value, foodName, usdaSearch);
        match CheckCalories(u)
        case Failure(e) => Failure(e)
        case Success(ok) => Success(if ok then u else None)
      else Success(None)
  }

  /** A detailed record from one of the two providers, as that provider built it. */
  datatype DetailedResult = FromOff(record: Record) | FromUsda(detail: UsdaApi.Detailed)

  /** `get_detailed_info`: any non-empty Open Food Facts record, else the USDA record if there is one. */
  function DetailedInfo(s: Scraper, foodName: string, off: Option<Record>,
                        usdaSearch: UsdaApi.SearchService, usdaFood: UsdaApi.FoodService): (r: Option<DetailedResult>)
    ensures r.Some? && r.value.FromOff? ==> off == Some(r.value.record) && |r.value.record| > 0
    ensures r.Some? && r.value.FromUsda? ==> !Truthy(off) && s.usda.Some?
  {
    if Truthy(off) then Some(FromOff(off.value))
    else if s.usda.Some? then
      match UsdaApi.DetailedInfo(s.usda.value, foodName, usdaSearch, usdaFood)
      case None => None
      case Some(d) => Some(FromUsda(d))
    else None
  }

  // ---------------------------------------------------------------------------
  // Search
  // ---------------------------------------------------------------------------

  /** The summary of an Open Food Facts product. */
  function OffSummary(p: Product): Record {
    map["name" := Get(p.fields, "product_name", Str("")), "brand" := Get(p.fields, "brands", Str("")), "source" := Str(OffSource)]
  }

  /** The summary of a USDA search hit. */
  function UsdaSummary(h: UsdaApi.SearchHit): Record {
    map["name" := Str(h.description.GetOr("")), "brand" := Str(h.brandOwner.GetOr("")), "source" := Str(UsdaApi.SourceName)]
  }

  function OffSummaries(ps: seq<Product>): (r: seq<Record>)
    ensures |r| == |ps| && forall i :: 0 <= i < |ps| ==> r[i] == OffSummary(ps[i])
  {
    seq(|ps|, i requires 0 <= i < |ps| => OffSummary(ps[i]))
  }

  function UsdaSummaries(hs: seq<UsdaApi.SearchHit>): (r: seq<Record>)
    ensures |r| == |hs| && forall i :: 0 <= i < |hs| ==> r[i] == UsdaSummary(hs[i])
  {
    seq(|hs|, i requires 0 <= i < |hs| => UsdaSummary(hs[i]))
  }

  /** USDA is asked only when Open Food Facts gave fewer than `limit` products and the client exists. */
  predicate AsksUsda(s: Scraper, limit: int, offProducts: seq<Product>) {
    |offProducts| < limit && s.usda.Some?
  }

  /** The USDA hits the search adds, asking for the missing number of items. */
  function UsdaPart(s: Scraper, query: string, limit: int, offProducts: seq<Product>,
                    usdaSearch: UsdaApi.SearchService): seq<UsdaApi.SearchHit> {
    if AsksUsda(s, limit, offProducts)
    then UsdaApi.SearchFoods(s.usda.value, query, 1, limit - |offProducts|, None, usdaSearch)
    else []
  }

  /** `search_foods`: Open Food Facts summaries, then USDA summaries, cut to `limit`. */
  function SearchResults(s: Scraper, query: string, limit: int, offProducts: seq<Product>,
                         usdaSearch: UsdaApi.SearchService): (r: seq<Record>)
    ensures limit >= 0 ==> |r| <= limit
    ensures |r| <= |offProducts| + |UsdaPart(s, query, limit, offProducts, usdaSearch)|
  {
    Take(OffSummaries(offProducts) + UsdaSummaries(UsdaPart(s, query, limit, offProducts, usdaSearch)), limit)
  }

  /** The append loops of `search_foods`. */
  method SearchFoods(s: Scraper, query: string, limit: int, offProducts: seq<Product>,
                     usdaSearch: UsdaApi.SearchService) returns (results: seq<Record>)
    ensures results == SearchResults(s, query, limit, offProducts, usdaSearch)
  {
    var all: seq<Record> := [];
    for i := 0 to |offProducts|
      invariant all == OffSummaries(offProducts[..i])
    {
      all := all + [OffSummary(offProducts[i])];
    }
    assert offProducts[..|offProducts|] == offProducts;
    if |all| < limit && s.usda.Some? {
      var hits := UsdaApi.SearchFoods(s.usda.value, query, 1, limit - |all|, None, usdaSearch);
      var before := all;
      for j := 0 to |hits|
        invariant all == before + UsdaSummaries(hits[..j])
      {
        all := all + [UsdaSummary(hits[j])];
      }
      assert hits[..|hits|] == hits;
    }
    results := Take(all, limit);
  }

  // ---------------------------------------------------------------------------
  // Barcode
  // ---------------------------------------------------------------------------

  /** Python's truth value of a product dictionary: it has some field. */
  predicate ProductTruthy(p: Option<Product>) {
    p.Some? && (|p.value.fields| > 0 || p.value.nutriments.Some?)
  }

  /** The nutrient fields of the barcode record with the `nutriments` key each is read from. */
  const BarcodeNutriments: seq<(string, string)> := [
    ("calories", "energy-kcal_100g"),
    ("protein", "proteins_100g"),
    ("carbs", "carbohydrates_100g"),
    ("fats", "fat_100g"),
    ("fiber", "fiber_100g"),
    ("sugars", "sugars_100g")
  ]

  function BarcodeRecord(p: Product): Record {
    var n := p.nutriments.GetOr(map[]);
    map[
      "name" := Get(p.fields, "product_name", Str("")),
      "brand" := Get(p.fields, "brands", Str("")),
      "quantity" := Get(p.fields, "quantity", Str("")),
      "calories" := Get(n, "energy-kcal_100g", Num(0.0)),
      "protein" := Get(n, "proteins_100g", Num(0.0)),
      "carbs" := Get(n, "carbohydrates_100g", Num(0.0)),
      "fats" := Get(n, "fat_100g", Num(0.0)),
      "fiber" := Get(n, "fiber_100g", Num(0.0)),
      "sugars" := Get(n, "sugars_100g", Num(0.0)),
      "image_url" := Get(p.fields, "image_url", Str("")),
      "source" := Str(OffSource)
    ]
  }

  /** `get_product_by_barcode`, given the provider's product for the barcode. */
  function ProductByBarcode(product: Option<Product>): (r: Option<Record>)
    ensures r.Some? <==> ProductTruthy(product)
    ensures r.Some? ==> "source" in r.value && r.value["source"] == Str(OffSource)
  {
    if ProductTruthy(product) then Some(BarcodeRecord(product.value)) else None
  }

  // ---------------------------------------------------------------------------
  // Properties
  // ---------------------------------------------------------------------------

  /** An Open Food Facts record with positive calories is the answer, whatever USDA would say. */
  lemma OffFirst(s: Scraper, foodName: string, off: Option<Record>, usdaSearch: UsdaApi.SearchService)
    requires Usable(off)
    ensures NutritionInfo(s, foodName, off, usdaSearch) == Success(off)
  {
  }

  /**
   * An Open Food Facts record whose calories are a string or `None` makes the
   * lookup raise `TypeError` before USDA is consulted.
   */
  lemma OffCaloriesRaise(s: Scraper, foodName: string, off: Option<Record>, usdaSearch: UsdaApi.SearchService)
    requires Raises(off)
    ensures NutritionInfo(s, foodName, off, usdaSearch) == Failure(TypeError)
  {
  }

  /**
   * USDA is consulted only when Open Food Facts gave nothing usable and the
   * client exists; otherwise the answer does not depend on the USDA service.
   */
  lemma UsdaOnlyAsFallBack(s: Scraper, foodName: string, off: Option<Record>,
                           search1: UsdaApi.SearchService, search2: UsdaApi.SearchService)
    requires Usable(off) || Raises(off) || s.usda.None?
    ensures NutritionInfo(s, foodName, off, search1) == NutritionInfo(s, foodName, off, search2)
  {
  }

  /** The USDA record always holds numeric calories, so its check never raises. */
  lemma UsdaNeverRaises(c: UsdaApi.UsdaClient, foodName: string, usdaSearch: UsdaApi.SearchService)
    ensures CheckCalories(UsdaApi.NutritionInfo(c, foodName, usdaSearch)).Success?
  {
  }

  /**
   * When USDA is consulted, that is when the Open Food Facts record is missing,
   * empty or has calories of at most 0, the USDA record is the answer exactly
   * when it has positive calories.
   */
  lemma UsdaFallBack(s: Scraper, foodName: string, off: Option<Record>, usdaSearch: UsdaApi.SearchService)
    requires !Usable(off) && !Raises(off) && s.usda.Some?
    ensures var u := UsdaApi.NutritionInfo(s.usda.value, foodName, usdaSearch);
      NutritionInfo(s, foodName, off, usdaSearch) == Success(if Usable(u) then u else None)
  {
  }

  /**
   * A zero-calorie record is never returned: the answer is a record with
   * positive calories, and there is none exactly when neither consulted
   * provider gave one; the lookup raises exactly when the Open Food Facts
   * calories cannot be compared.
   */
  lemma NeverZeroCalories(s: Scraper, foodName: string, off: Option<Record>, usdaSearch: UsdaApi.SearchService)
    ensures var r := NutritionInfo(s, foodName, off, usdaSearch);
      r.Success? && r.value.Some? ==> Usable(r.value)
    ensures NutritionInfo(s, foodName, off, usdaSearch).Failure? <==> Raises(off)
    ensures NutritionInfo(s, foodName, off, usdaSearch) == Success(None) <==>
      !Usable(off) && !Raises(off) && (s.usda.None? || !Usable(UsdaApi.NutritionInfo(s.usda.value, foodName, usdaSearch)))
  {
    if s.usda.Some? {
      UsdaNeverRaises(s.usda.value, foodName, usdaSearch);
    }
  }

  /** Through the scraper, a USDA record counts only when its 'Energy' nutrient is positive. */
  lemma UsdaCaloriesFromEnergy(hit: UsdaApi.SearchHit)
    ensures Usable(Some(UsdaApi.NutritionRecord(hit))) <==> UsdaApi.Amount(UsdaApi.NutrientMap(hit), "Energy") > 0.0
  {
  }

  /** Any non-empty Open Food Facts record is the detailed answer, even one with no calories. */
  lemma DetailedOffFirst(s: Scraper, foodName: string, off: Option<Record>,
                         usdaSearch: UsdaApi.SearchService, usdaFood: UsdaApi.FoodService)
    requires Truthy(off)
    ensures DetailedInfo(s, foodName, off, usdaSearch, usdaFood) == Some(FromOff(off.value))
  {
  }

  /** Without a usable Open Food Facts record the detailed answer is USDA's, or nothing without a client. */
  lemma DetailedFallBack(s: Scraper, foodName: string, off: Option<Record>,
                         usdaSearch: UsdaApi.SearchService, usdaFood: UsdaApi.FoodService)
    requires !Truthy(off)
    ensures s.usda.None? ==> DetailedInfo(s, foodName, off, usdaSearch, usdaFood).None?
    ensures s.usda.Some? ==>
      (DetailedInfo(s, foodName, off, usdaSearch, usdaFood).Some? <==>
       UsdaApi.DetailedInfo(s.usda.value, foodName, usdaSearch, usdaFood).Some?)
    ensures DetailedInfo(s, foodName, off, usdaSearch, usdaFood).Some? ==>
      DetailedInfo(s, foodName, off, usdaSearch, usdaFood).value.FromUsda?
  {
  }

  /** The search never returns more than `limit` summaries. */
  lemma SearchBounded(s: Scraper, query: string, limit: int, offProducts: seq<Product>,
                      usdaSearch: UsdaApi.SearchService)
    requires limit >= 0
    ensures |SearchResults(s, query, limit, offProducts, usdaSearch)| <= limit
  {
  }

  /**
   * Open Food Facts summaries come first, in the provider's order; every later
   * summary is a USDA one, in the USDA order.
   */
  lemma SearchOrder(s: Scraper, query: string, limit: int, offProducts: seq<Product>,
                    usdaSearch: UsdaApi.SearchService)
    ensures var r := SearchResults(s, query, limit, offProducts, usdaSearch);
      forall i :: 0 <= i < |r| && i < |offProducts| ==> r[i] == OffSummary(offProducts[i])
    ensures var r := SearchResults(s, query, limit, offProducts, usdaSearch);
      var hits := UsdaPart(s, query, limit, offProducts, usdaSearch);
      forall i :: |offProducts| <= i < |r| ==> r[i] == UsdaSummary(hits[i - |offProducts|])
  {
  }

  /**
   * Without the need for more results USDA is not asked: the search gives the
   * Open Food Facts summaries alone, cut to `limit`.
   */
  lemma SearchWithoutUsda(s: Scraper, query: string, limit: int, offProducts: seq<Product>,
                          search1: UsdaApi.SearchService, search2: UsdaApi.SearchService)
    requires !AsksUsda(s, limit, offProducts)
    ensures SearchResults(s, query, limit, offProducts, search1) == Take(OffSummaries(offProducts), limit)
    ensures SearchResults(s, query, limit, offProducts, search1) == SearchResults(s, query, limit, offProducts, search2)
  {
  }

  /**
   * When USDA is asked, the request is for the missing number of items
   * (clamped to the USDA page size), and the request's answer becomes the
   * USDA part.
   */
  lemma SearchAsksForTheRest(s: Scraper, query: string, limit: int, offProducts: seq<Product>,
                             usdaSearch: UsdaApi.SearchService)
    requires AsksUsda(s, limit, offProducts) && UsdaApi.HasKey(s.usda.value)
    ensures var req := UsdaApi.SearchRequestFor(s.usda.value, query, 1, limit - |offProducts|, None);
      && req.Some?
      && req.value.query == query
      && req.value.pageSize == (if limit - |offProducts| < UsdaApi.MaxPageSize then limit - |offProducts| else UsdaApi.MaxPageSize)
      && UsdaPart(s, query, limit, offProducts, usdaSearch) ==
         (if usdaSearch(req.value).Some? then usdaSearch(req.value).value.foods.GetOr([]) else [])
  {
  }

  /** A missing product gives no record. */
  lemma BarcodeAbsent(product: Option<Product>)
    requires !ProductTruthy(product)
    ensures ProductByBarcode(product) == None
  {
  }

  /**
   * A found product gives a record whose nutrient fields are the product's
   * nutriments, 0.0 where missing, and whose source is Open Food Facts.
   */
  lemma BarcodeNutrients(p: Product, f: int)
    requires 0 <= f < |BarcodeNutriments|
    ensures ProductByBarcode(Some(p)).Some? <==> ProductTruthy(Some(p))
    ensures var r := BarcodeRecord(p);
      var n := p.nutriments.GetOr(map[]);
      && BarcodeNutriments[f].0 in r
      && r[BarcodeNutriments[f].0] == (if BarcodeNutriments[f].1 in n then n[BarcodeNutriments[f].1] else Num(0.0))
      && r["source"] == Str(OffSource)
  {
  }
}
