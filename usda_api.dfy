/**
 * The USDA FoodData Central client: the no-key guard and page-size clamp of a
 * search, and the normalisation of a search hit or a full food description
 * into a flat nutrition record (nutrient list folded into a dictionary, field
 * defaults, the sugars fallback and the milligram-to-gram scaling). The HTTP
 * service is a function parameter that answers a request, or fails.
 */
module UsdaApi {
  import opened Wrappers
  import opened Records
  import Text

  // ---------------------------------------------------------------------------
  // Payloads
  // ---------------------------------------------------------------------------

  /** One entry of a search hit's `foodNutrients` list; `None` is a missing key. */
  datatype FoodNutrient = FoodNutrient(nutrientName: Option<string>, value: Option<real>)

  /** One element of the `foods` list of a search answer. */
  datatype SearchHit = SearchHit(
    description: Option<string>,
    brandOwner: Option<string>,
    fdcId: Option<int>,
    dataType: Option<string>,
    foodNutrients: Option<seq<FoodNutrient>>)

  datatype NutrientInfo = NutrientInfo(name: Option<string>, unitName: Option<string>)

  /** One entry of a full food description's `foodNutrients` list. */
  datatype DetailNutrient = DetailNutrient(nutrient: Option<NutrientInfo>, amount: Option<real>)

  /** The answer of `/food/{fdcId}`. */
  datatype FoodDetail = FoodDetail(
    description: Option<string>,
    brandOwner: Option<string>,
    dataType: Option<string>,
    ingredients: Option<string>,
    foodNutrients: Option<seq<DetailNutrient>>)

  datatype SearchRequest = SearchRequest(
    apiKey: string, query: string, pageNumber: int, pageSize: int, dataType: Option<string>)

  datatype SearchAnswer = SearchAnswer(foods: Option<seq<SearchHit>>)

  /** The search service; `None` stands for a request that raised. */
  type SearchService = SearchRequest -> Option<SearchAnswer>

  /**
   * The food service, given the id of the hit (`None` when the hit had none);
   * `None` stands for a request that raised or an empty answer.
   */
  type FoodService = Option<int> -> Option<FoodDetail>

  const MaxPageSize: int := 200
  const SourceName: string := "USDA FoodData Central"

  // ---------------------------------------------------------------------------
  // Client and search
  // ---------------------------------------------------------------------------

  datatype UsdaClient = UsdaClient(apiKey: Option<string>)

  predicate Given(key: Option<string>) {
    key.Some? && key.value != ""
  }

  /** The constructor: the given key when it is truthy, else the environment's `USDA_API_KEY`. */
  function NewClient(apiKey: Option<string>, environmentKey: Option<string>): UsdaClient {
    UsdaClient(if Given(apiKey) then apiKey else environmentKey)
  }

  predicate HasKey(c: UsdaClient) {
    Given(c.apiKey)
  }

  /** The request `search_foods` sends; none at all without a key. */
  function SearchRequestFor(c: UsdaClient, query: string, pageNumber: int, pageSize: int,
                            dataTypes: Option<seq<string>>): (r: Option<SearchRequest>)
    ensures r.Some? <==> HasKey(c)
    ensures r.Some? ==> r.value.pageSize <= MaxPageSize && r.value.pageSize <= pageSize
    ensures r.Some? ==> (r.value.pageSize == MaxPageSize || r.value.pageSize == pageSize)
    ensures r.Some? ==> r.value.query == query && r.value.pageNumber == pageNumber
  {
    if !HasKey(c) then None
    else
      var size := if pageSize < MaxPageSize then pageSize else MaxPageSize;
      var kinds := if dataTypes.Some? && |dataTypes.value| > 0 then Some(Text.Join(dataTypes.value, ',')) else None;
      Some(SearchRequest(c.apiKey.value, query, pageNumber, size, kinds))
  }

  /** `search_foods`: the answer's `foods`, or `[]` without a key, on a failed request or a missing list. */
  function SearchFoods(c: UsdaClient, query: string, pageNumber: int, pageSize: int,
                       dataTypes: Option<seq<string>>, search: SearchService): (r: seq<SearchHit>)
    ensures !HasKey(c) ==> r == []
    ensures var req := SearchRequestFor(c, query, pageNumber, pageSize, dataTypes);
      req.Some? && search(req.value).None? ==> r == []
    ensures var req := SearchRequestFor(c, query, pageNumber, pageSize, dataTypes);
      req.Some? && search(req.value).Some? ==> r == search(req.value).value.foods.GetOr([])
  {
    match SearchRequestFor(c, query, pageNumber, pageSize, dataTypes)
    case None => []
    case Some(req) =>
      match search(req)
      case None => []
      case Some(answer) => answer.foods.GetOr([])
  }

  /** `get_food_by_id`: nothing without a key. */
  function FoodById(c: UsdaClient, id: Option<int>, food: FoodService): Option<FoodDetail> {
    if HasKey(c) then food(id) else None
  }

  // ---------------------------------------------------------------------------
  // Nutrition record from a search hit
  // ---------------------------------------------------------------------------

  function NutrientName(n: FoodNutrient): string {
    n.nutrientName.GetOr("")
  }

  function NutrientValue(n: FoodNutrient): real {
    n.value.GetOr(0.0)
  }

  function Nutrients(hit: SearchHit): seq<FoodNutrient> {
    hit.foodNutrients.GetOr([])
  }

  /** The `nutrients_dict` of `get_nutrition_info`. */
  function NutrientMap(hit: SearchHit): map<string, real> {
    LastWins(Nutrients(hit), NutrientName, NutrientValue)
  }

  /** `nutrients_dict.get(name, 0.0)`. */
  function Amount(m: map<string, real>, name: string): real {
    if name in m then m[name] else 0.0
  }

  const Nlea: string := "Sugars, total including NLEA"
  const TotalSugars: string := "Sugars, Total"

  /** The numeric fields of the record: field name, nutrient name, divisor. */
  const RecordFields: seq<(string, string, real)> := [
    ("calories", "Energy", 1.0),
    ("protein", "Protein", 1.0),
    ("carbs", "Carbohydrate, by difference", 1.0),
    ("fats", "Total lipid (fat)", 1.0),
    ("fiber", "Fiber, total dietary", 1.0),
    ("sodium", "Sodium, Na", 1000.0),
    ("cholesterol", "Cholesterol", 1000.0)
  ]

  function IdValue(id: Option<int>): Value {
    if id.Some? then Int(id.value) else Null
  }

  /** The record `get_nutrition_info` builds from the first hit. */
  function NutritionRecord(hit: SearchHit): (r: Record)
    ensures "calories" in r && r["calories"].Num? && "sugars" in r && r["sugars"].Num?
    ensures "source" in r && r["source"] == Str(SourceName)
  {
    var m := NutrientMap(hit);
    map[
      "name" := Str(hit.description.GetOr("")),
      "brand" := Str(hit.brandOwner.GetOr("")),
      "fdc_id" := IdValue(hit.fdcId),
      "data_type" := Str(hit.dataType.GetOr("")),
      "calories" := Num(Amount(m, "Energy")),
      "protein" := Num(Amount(m, "Protein")),
      "carbs" := Num(Amount(m, "Carbohydrate, by difference")),
      "fats" := Num(Amount(m, "Total lipid (fat)")),
      "fiber" := Num(Amount(m, "Fiber, total dietary")),
      "sugars" := Num(if Nlea in m then m[Nlea] else Amount(m, TotalSugars)),
      "sodium" := Num(Amount(m, "Sodium, Na") / 1000.0),
      "cholesterol" := Num(Amount(m, "Cholesterol") / 1000.0),
      "source" := Str(SourceName)
    ]
  }

  /** `get_nutrition_info`: the record of the first hit of a one-item search, if any. */
  function NutritionInfo(c: UsdaClient, foodName: string, search: SearchService): (r: Option<Record>)
    ensures !HasKey(c) ==> r.None?
    ensures r.Some? ==> "calories" in r.value && r.value["calories"].Num?
  {
    var foods := SearchFoods(c, foodName, 1, 1, None, search);
    if |foods| > 0 then Some(NutritionRecord(foods[0])) else None
  }

  // ---------------------------------------------------------------------------
  // Detailed record from a full food description
  // ---------------------------------------------------------------------------

  /** A value of the detailed `nutrients_dict`: a `{'value', 'unit'}` dictionary, or anything else. */
  datatype Slot = Entry(value: Option<real>, unit: Option<string>) | NotADict

  /** `_get_nutrient_value`. */
  function NutrientValueOf(d: map<string, Slot>, name: string): (r: real)
    ensures r == 0.0 || (name in d && d[name].Entry? && d[name].value == Some(r))
  {
    if name in d && d[name].Entry? then d[name].value.GetOr(0.0) else 0.0
  }

  function DetailName(n: DetailNutrient): string {
    if n.nutrient.Some? then n.nutrient.value.name.GetOr("") else ""
  }

  function DetailSlot(n: DetailNutrient): Slot {
    Entry(Some(n.amount.GetOr(0.0)), Some(if n.nutrient.Some? then n.nutrient.value.unitName.GetOr("") else ""))
  }

  function DetailNutrients(full: FoodDetail): seq<DetailNutrient> {
    full.foodNutrients.GetOr([])
  }

  /** The `nutrients_dict` of `get_detailed_info`. */
  function DetailMap(full: FoodDetail): map<string, Slot> {
    LastWins(DetailNutrients(full), DetailName, DetailSlot)
  }

  /** The dictionary `get_detailed_info` returns, one field per key; amounts are per 100 g. */
  datatype Detailed = Detailed(
    name: string, brand: string, fdcId: Option<int>, dataType: string, ingredients: string,
    calories: real, protein: real, carbs: real, fats: real, fiber: real, sugars: real,
    saturatedFats: real, monounsaturatedFats: real, polyunsaturatedFats: real, transFats: real,
    cholesterol: real,
    vitaminA: real, vitaminC: real, vitaminD: real, vitaminE: real, vitaminK: real,
    thiamin: real, riboflavin: real, niacin: real, vitaminB6: real, folate: real, vitaminB12: real,
    calcium: real, iron: real, magnesium: real, phosphorus: real, potassium: real, sodium: real, zinc: real,
    source: string)

  /** The record `get_detailed_info` builds; cholesterol and the minerals are scaled from mg to g. */
  function DetailedRecord(id: Option<int>, full: FoodDetail): Detailed {
    var d := DetailMap(full);
    Detailed(
      full.description.GetOr(""), full.brandOwner.GetOr(""), id, full.dataType.GetOr(""), full.ingredients.GetOr(""),
      NutrientValueOf(d, "Energy"),
      NutrientValueOf(d, "Protein"),
      NutrientValueOf(d, "Carbohydrate, by difference"),
      NutrientValueOf(d, "Total lipid (fat)"),
      NutrientValueOf(d, "Fiber, total dietary"),
      NutrientValueOf(d, Nlea),
      NutrientValueOf(d, "Fatty acids, total saturated"),
      NutrientValueOf(d, "Fatty acids, total monounsaturated"),
      NutrientValueOf(d, "Fatty acids, total polyunsaturated"),
      NutrientValueOf(d, "Fatty acids, total trans"),
      NutrientValueOf(d, "Cholesterol") / 1000.0,
      NutrientValueOf(d, "Vitamin A, RAE"),
      NutrientValueOf(d, "Vitamin C, total ascorbic acid"),
      NutrientValueOf(d, "Vitamin D (D2 + D3)"),
      NutrientValueOf(d, "Vitamin E (alpha-tocopherol)"),
      NutrientValueOf(d, "Vitamin K (phylloquinone)"),
      NutrientValueOf(d, "Thiamin"),
      NutrientValueOf(d, "Riboflavin"),
      NutrientValueOf(d, "Niacin"),
      NutrientValueOf(d, "Vitamin B-6"),
      NutrientValueOf(d, "Folate, total"),
      NutrientValueOf(d, "Vitamin B-12"),
      NutrientValueOf(d, "Calcium, Ca") / 1000.0,
      NutrientValueOf(d, "Iron, Fe") / 1000.0,
      NutrientValueOf(d, "Magnesium, Mg") / 1000.0,
      NutrientValueOf(d, "Phosphorus, P") / 1000.0,
      NutrientValueOf(d, "Potassium, K") / 1000.0,
      NutrientValueOf(d, "Sodium, Na") / 1000.0,
      NutrientValueOf(d, "Zinc, Zn") / 1000.0,
      SourceName)
  }

  /** `get_detailed_info`: search for one hit, fetch its full description by id, build the record. */
  function DetailedInfo(c: UsdaClient, foodName: string, search: SearchService, food: FoodService): (r: Option<Detailed>)
    ensures !HasKey(c) ==> r.None?
    ensures r.Some? ==> var foods := SearchFoods(c, foodName, 1, 1, None, search);
      |foods| > 0 && r.value.fdcId == foods[0].fdcId && r.value.source == SourceName
  {
    var foods := SearchFoods(c, foodName, 1, 1, None, search);
    if |foods| == 0 then None
    else
      var id := foods[0].fdcId;
      match FoodById(c, id, food)
      case None => None
      case Some(full) => Some(DetailedRecord(id, full))
  }

  // ---------------------------------------------------------------------------
  // Loops
  // ---------------------------------------------------------------------------

  /** The loop of `get_nutrition_info` that fills `nutrients_dict`. */
  method CollectNutrients(hit: SearchHit) returns (m: map<string, real>)
    ensures m == NutrientMap(hit)
  {
    m := CollectLastWins(Nutrients(hit), NutrientName, NutrientValue);
  }

  /** The loop of `get_detailed_info` that fills `nutrients_dict`. */
  method CollectDetailNutrients(full: FoodDetail) returns (d: map<string, Slot>)
    ensures d == DetailMap(full)
  {
    d := CollectLastWins(DetailNutrients(full), DetailName, DetailSlot);
  }

  // ---------------------------------------------------------------------------
  // Properties
  // ---------------------------------------------------------------------------

  /** Without a key nothing is searched or fetched, whatever the services would answer. */
  lemma NoKeyNoResults(c: UsdaClient, foodName: string, search: SearchService, food: FoodService)
    requires !HasKey(c)
    ensures forall pageNumber, pageSize, dataTypes ::
      SearchFoods(c, foodName, pageNumber, pageSize, dataTypes, search) == []
    ensures NutritionInfo(c, foodName, search) == None
    ensures DetailedInfo(c, foodName, search, food) == None
  {
  }

  /** A record exists exactly when the one-item search found something. */
  lemma NutritionInfoFound(c: UsdaClient, foodName: string, search: SearchService)
    ensures NutritionInfo(c, foodName, search).Some? <==> |SearchFoods(c, foodName, 1, 1, None, search)| > 0
    ensures NutritionInfo(c, foodName, search).Some? ==>
      NutritionInfo(c, foodName, search).value["source"] == Str(SourceName)
  {
  }

  /** A numeric field holds the value of the last nutrient of its name, scaled by the field's divisor. */
  lemma FieldFromLast(hit: SearchHit, f: int, i: int)
    requires 0 <= f < |RecordFields|
    requires LastAt(Nutrients(hit), NutrientName, i)
    requires NutrientName(Nutrients(hit)[i]) == RecordFields[f].1
    ensures RecordFields[f].0 in NutritionRecord(hit)
    ensures NutritionRecord(hit)[RecordFields[f].0] == Num(NutrientValue(Nutrients(hit)[i]) / RecordFields[f].2)
  {
    LastWinsAt(Nutrients(hit), NutrientName, NutrientValue, i);
  }

  /** A numeric field whose nutrient is not listed is 0.0. */
  lemma FieldAbsent(hit: SearchHit, f: int)
    requires 0 <= f < |RecordFields|
    requires forall j :: 0 <= j < |Nutrients(hit)| ==> NutrientName(Nutrients(hit)[j]) != RecordFields[f].1
    ensures RecordFields[f].0 in NutritionRecord(hit)
    ensures NutritionRecord(hit)[RecordFields[f].0] == Num(0.0)
  {
    LastWinsAbsent(Nutrients(hit), NutrientName, NutrientValue, RecordFields[f].1);
  }

  /** Sugars come from the NLEA total when it is listed. */
  lemma SugarsPreferNlea(hit: SearchHit, i: int)
    requires LastAt(Nutrients(hit), NutrientName, i)
    requires NutrientName(Nutrients(hit)[i]) == Nlea
    ensures NutritionRecord(hit)["sugars"] == Num(NutrientValue(Nutrients(hit)[i]))
  {
    LastWinsAt(Nutrients(hit), NutrientName, NutrientValue, i);
  }

  /** Without the NLEA total, sugars come from 'Sugars, Total'. */
  lemma SugarsFallBack(hit: SearchHit, i: int)
    requires forall j :: 0 <= j < |Nutrients(hit)| ==> NutrientName(Nutrients(hit)[j]) != Nlea
    requires LastAt(Nutrients(hit), NutrientName, i)
    requires NutrientName(Nutrients(hit)[i]) == TotalSugars
    ensures NutritionRecord(hit)["sugars"] == Num(NutrientValue(Nutrients(hit)[i]))
  {
    LastWinsAbsent(Nutrients(hit), NutrientName, NutrientValue, Nlea);
    LastWinsAt(Nutrients(hit), NutrientName, NutrientValue, i);
  }

  /** With neither sugar total listed, sugars are 0.0. */
  lemma SugarsDefault(hit: SearchHit)
    requires forall j :: 0 <= j < |Nutrients(hit)| ==>
      NutrientName(Nutrients(hit)[j]) != Nlea && NutrientName(Nutrients(hit)[j]) != TotalSugars
    ensures NutritionRecord(hit)["sugars"] == Num(0.0)
  {
    LastWinsAbsent(Nutrients(hit), NutrientName, NutrientValue, Nlea);
    LastWinsAbsent(Nutrients(hit), NutrientName, NutrientValue, TotalSugars);
  }

  /** `_get_nutrient_value` reads the value of the last listed nutrient of that name. */
  lemma DetailValueFromLast(full: FoodDetail, i: int)
    requires LastAt(DetailNutrients(full), DetailName, i)
    ensures NutrientValueOf(DetailMap(full), DetailName(DetailNutrients(full)[i]))
         == DetailNutrients(full)[i].amount.GetOr(0.0)
  {
    LastWinsAt(DetailNutrients(full), DetailName, DetailSlot, i);
  }

  /** `_get_nutrient_value` gives 0.0 for a nutrient not listed. */
  lemma DetailValueAbsent(full: FoodDetail, name: string)
    requires forall j :: 0 <= j < |DetailNutrients(full)| ==> DetailName(DetailNutrients(full)[j]) != name
    ensures NutrientValueOf(DetailMap(full), name) == 0.0
  {
    LastWinsAbsent(DetailNutrients(full), DetailName, DetailSlot, name);
  }

  /** `_get_nutrient_value` gives 0.0 for an entry that is not a dictionary or has no value. */
  lemma DetailValueOfOther(d: map<string, Slot>, name: string)
    requires name in d && (d[name].NotADict? || d[name].value.None?)
    ensures NutrientValueOf(d, name) == 0.0
  {
  }

  /** The detailed record carries the id of the search hit, not one of the full description. */
  lemma DetailedRecordId(id: Option<int>, full: FoodDetail)
    ensures DetailedRecord(id, full).fdcId == id
    ensures DetailedRecord(id, full).source == SourceName
  {
  }

  /** The detailed record is absent exactly when the search is empty or the full description cannot be fetched. */
  lemma DetailedInfoFound(c: UsdaClient, foodName: string, search: SearchService, food: FoodService)
    ensures var foods := SearchFoods(c, foodName, 1, 1, None, search);
      DetailedInfo(c, foodName, search, food).Some? <==>
        |foods| > 0 && FoodById(c, foods[0].fdcId, food).Some?
    ensures var foods := SearchFoods(c, foodName, 1, 1, None, search);
      DetailedInfo(c, foodName, search, food).Some? ==>
        DetailedInfo(c, foodName, search, food).value == DetailedRecord(foods[0].fdcId, FoodById(c, foods[0].fdcId, food).value)
  {
  }

  /** The client has a key exactly when a truthy key was given or the environment holds one; a given key wins. */
  lemma ClientKey(apiKey: Option<string>, environmentKey: Option<string>)
    ensures HasKey(NewClient(apiKey, environmentKey)) <==> Given(apiKey) || Given(environmentKey)
    ensures Given(apiKey) ==> NewClient(apiKey, environmentKey).apiKey == apiKey
  {
  }

  /** The detailed fields that are scaled from milligrams to grams, with their nutrient names. */
  const MilligramFields: seq<(string, string)> := [
    ("cholesterol", "Cholesterol"),
    ("calcium", "Calcium, Ca"),
    ("iron", "Iron, Fe"),
    ("magnesium", "Magnesium, Mg"),
    ("phosphorus", "Phosphorus, P"),
    ("potassium", "Potassium, K"),
    ("sodium", "Sodium, Na"),
    ("zinc", "Zinc, Zn")
  ]

  /** The value of the `f`-th field of `MilligramFields`. */
  function MilligramField(r: Detailed, f: int): real
    requires 0 <= f < |MilligramFields|
  {
    if f == 0 then r.cholesterol
    else if f == 1 then r.calcium
    else if f == 2 then r.iron
    else if f == 3 then r.magnesium
    else if f == 4 then r.phosphorus
    else if f == 5 then r.potassium
    else if f == 6 then r.sodium
    else r.zinc
  }

  /** Cholesterol and the minerals of the detailed record are the listed amounts divided by 1000. */
  lemma DetailedMilligrams(id: Option<int>, full: FoodDetail, f: int, i: int)
    requires 0 <= f < |MilligramFields|
    requires LastAt(DetailNutrients(full), DetailName, i)
    requires DetailName(DetailNutrients(full)[i]) == MilligramFields[f].1
    ensures MilligramField(DetailedRecord(id, full), f) == DetailNutrients(full)[i].amount.GetOr(0.0) / 1000.0
  {
    MilligramOf(id, full, f);
    DetailValueFromLast(full, i);
  }

  lemma MilligramOf(id: Option<int>, full: FoodDetail, f: int)
    requires 0 <= f < |MilligramFields|
    ensures MilligramField(DetailedRecord(id, full), f) == NutrientValueOf(DetailMap(full), MilligramFields[f].1) / 1000.0
  {
  }

  /** The detailed record takes sugars from the NLEA total only: without it, sugars are 0.0. */
  lemma DetailedSugarsNoFallBack(id: Option<int>, full: FoodDetail)
    requires forall j :: 0 <= j < |DetailNutrients(full)| ==> DetailName(DetailNutrients(full)[j]) != Nlea
    ensures DetailedRecord(id, full).sugars == 0.0
  {
    DetailValueAbsent(full, Nlea);
  }

  /**
   * The two records disagree on a food that lists only 'Sugars, Total': the
   * search record reports it, the detailed record reports 0.0.
   */
  lemma SugarsDisagree(v: real)
    ensures NutritionRecord(SearchHit(None, None, None, None, Some([FoodNutrient(Some(TotalSugars), Some(v))])))["sugars"] == Num(v)
    ensures DetailedRecord(None, FoodDetail(None, None, None, None,
              Some([DetailNutrient(Some(NutrientInfo(Some(TotalSugars), Some("G"))), Some(v))]))).sugars == 0.0
  {
    var hit := SearchHit(None, None, None, None, Some([FoodNutrient(Some(TotalSugars), Some(v))]));
    SugarsFallBack(hit, 0);
    var full := FoodDetail(None, None, None, None,
                           Some([DetailNutrient(Some(NutrientInfo(Some(TotalSugars), Some("G"))), Some(v))]));
    DetailedSugarsNoFallBack(None, full);
  }
}
