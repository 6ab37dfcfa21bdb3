# Foodler core, modelled in Dafny

Foodler is a food-management tool. It keeps a fridge inventory in SQLite and looks up nutrition facts from
several sources: Open Food Facts, USDA FoodData Central and a kaloricketabulky.cz page scraper. It reads
discounts from kupi.cz and computes personalised daily needs, meal balances, food suggestions and shopping
lists. This project models the logic of that core in Dafny and proves what the code promises about it.

There is one module per source file, plus a few shared modules:

- `NutritionCalculator` with `NutritionCalculatorFacts` and `ShoppingLists`: the calculator. It is a class
  whose field `dailyNeeds` is replaced by `SetCustomNeeds`. Its loops (meal totals, the shopping list) are
  methods proved against functions.
- `NutritionScraper`: the Open Food Facts → USDA fallback chain, the merged search and the barcode lookup.
- `UsdaApi`: the USDA client's key guard, page-size clamp and record building.
- `KupiScraper`: reading the discount percentage and ranking discounts.
- `KalorickeTabulky`: the scraper's number extraction, label-to-field mapping, id extraction, item parsing,
  category walk and CSV header.
- `FridgeDb`: the inventory table. It is a class over the table's rows in key order, with add, update and
  delete methods and query functions.
- `Cli`: how `calculate meal` parses the selection and builds the food entries.
- Shared modules:
  - `Wrappers`: `Option` and `Result`;
  - `Text`: Python string primitives over `seq<char>`;
  - `Sequences`: slicing and a stable descending sort;
  - `Dicts`: ordered string → number dictionaries;
  - `Records`: JSON-like dictionaries, and the "later key overwrites" loop.

External answers are inputs to the model: HTTP services, the kupi library, HTML elements, prompts and the
clock. An exception the code catches is a `Failure` or `None` result. The `TypeError` that `get_nutrition_info`
raises, uncaught, for string or `None` Open Food Facts calories is `Failure(TypeError)`. A JSON `null` inside a
USDA answer is not modelled (see "Left out").
Numbers are exact `real`s. Python's `round(x, 2)` is modelled as rounding to the nearest hundredth with
ties to even.

## Model

| member | source | states |
|---|---|---|
| NutritionCalculator.Round2 | foodler/calculator/nutrition_calculator.py:68-71 | the result is a whole number of hundredths within 0.005 of the input |
| NutritionCalculator.Round2Idempotent | foodler/calculator/nutrition_calculator.py:68-71 | rounding a rounded value changes nothing |
| NutritionCalculator.ActivityMultiplier | foodler/calculator/nutrition_calculator.py:51-59 | the multiplier always lies between 1.2 and 1.9 |
| NutritionCalculator.CustomNeeds | foodler/calculator/nutrition_calculator.py:67-73 | the needs hold exactly five entries, keyed calories, protein, carbs, fats, fiber in that order |
| NutritionCalculator.TotalSnoc | foodler/calculator/nutrition_calculator.py:96-102 | one more food adds exactly its contribution, quantity/100 × content, to every nutrient total |
| NutritionCalculator.Totals | foodler/calculator/nutrition_calculator.py:89-102 | the totals have exactly the four meal nutrients as keys |
| NutritionCalculator.Percentages | foodler/calculator/nutrition_calculator.py:105-108 | with no zero need, the percentages have exactly the four meal nutrients as keys |
| NutritionCalculator.IsBalanced | foodler/calculator/nutrition_calculator.py:117-132 | with a negative tolerance, only an empty set of percentages is balanced |
| NutritionCalculator.SumTotals | foodler/calculator/nutrition_calculator.py:89-102 | the nested accumulation loop computes the totals, Σ content × quantity/100 with missing keys as 0 |
| NutritionCalculator.AddFood | foodler/calculator/nutrition_calculator.py:101-102 | the inner loop turns totals over the earlier foods into totals over them plus one more food |
| NutritionCalculator.Deficits | foodler/calculator/nutrition_calculator.py:148-151 | one deficit per need, same key, same order, never negative |
| NutritionCalculator.FirstMaxIndex | foodler/calculator/nutrition_calculator.py:157 | the index `max` picks: its value is largest and strictly larger than every earlier one |
| NutritionCalculator.Primary | foodler/calculator/nutrition_calculator.py:154-157 | when some deficit is positive: the first nutrient with the largest deficit, and that positive deficit |
| NutritionCalculator.Ranked | foodler/calculator/nutrition_calculator.py:160-164 | a permutation of the foods in non-increasing content of the nutrient, foods of equal content in input order |
| NutritionCalculator.MakeSuggestion | foodler/calculator/nutrition_calculator.py:168-181 | a suggestion names the food and the nutrient and records the food's content |
| NutritionCalculator.SuggestFrom | foodler/calculator/nutrition_calculator.py:167-181 | at most one suggestion per food tried, each for the nutrient asked about and a positive content |
| NutritionCalculator.SuggestionsFor | foodler/calculator/nutrition_calculator.py:160-181 | at most three suggestions and no more than the foods, each for the nutrient asked about and a positive content |
| NutritionCalculator.Suggestions | foodler/calculator/nutrition_calculator.py:134-183 | at most three suggestions and no more than the foods, each for a positive content |
| NutritionCalculator.NeededItems | foodler/calculator/nutrition_calculator.py:199-207 | the loop builds `needed_items`: the requirements summed per key in first-seen order |
| NutritionCalculator.MissingItems | foodler/calculator/nutrition_calculator.py:215-224 | the loop emits the shortfalls of the needs against the stock |
| NutritionCalculator.Calculator.constructor | foodler/calculator/nutrition_calculator.py:11-26 | the needs are the ones given, or the defaults when none or an empty dictionary is given |
| NutritionCalculator.Calculator.SetCustomNeeds | foodler/calculator/nutrition_calculator.py:28-75 | the field becomes the personalised needs, and those needs are returned |
| NutritionCalculator.Calculator.MealBalance | foodler/calculator/nutrition_calculator.py:77-115 | fails (ZeroDivisionError) exactly when a meal nutrient's need is 0; otherwise returns totals, percentages, the needs and the balance verdict |
| NutritionCalculator.Calculator.SuggestFoods | foodler/calculator/nutrition_calculator.py:134-183 | returns the suggestions for the stored needs, intake and foods |
| NutritionCalculator.Calculator.CreateShoppingList | foodler/calculator/nutrition_calculator.py:185-226 | returns the shopping list for the plan and inventory |
| NutritionCalculatorFacts.BmrBySex | foodler/calculator/nutrition_calculator.py:45-48 | male constants exactly when the lower-cased gender is "male", female constants for every other value |
| NutritionCalculatorFacts.ActivityCaseInsensitive | foodler/calculator/nutrition_calculator.py:59 | the activity level is looked up in lower case |
| NutritionCalculatorFacts.ActivityLevels | foodler/calculator/nutrition_calculator.py:51-59 | each of the five levels gets its own multiplier |
| NutritionCalculatorFacts.UnknownActivity | foodler/calculator/nutrition_calculator.py:59 | a level outside the table gets 1.2 |
| NutritionCalculatorFacts.MacroTargets | foodler/calculator/nutrition_calculator.py:60-71 | calories = BMR × multiplier, protein = cal·0.175/4, carbs = cal·0.55/4, fats = cal·0.275/9, each within rounding; the macro energy adds back up to the calories |
| NutritionCalculatorFacts.FiberTarget | foodler/calculator/nutrition_calculator.py:72 | fiber is 25 exactly when the lower-cased gender is "female", 38 otherwise |
| NutritionCalculatorFacts.OtherGenderMixesTables | foodler/calculator/nutrition_calculator.py:45-72 | a gender that is neither male nor female gets the female BMR but the male fiber target |
| NutritionCalculatorFacts.ReferenceProfile | foodler/calculator/nutrition_calculator.py:44-73 | a 30-year-old, 70 kg, 175 cm, moderately active man gets 2628.28 kcal, 114.99 g protein, 361.39 g carbs, 80.31 g fats, 38 g fiber |
| NutritionCalculatorFacts.ReferenceBmr | foodler/calculator/nutrition_calculator.py:44-45 | the male Harris-Benedict BMR of a 30-year-old, 70 kg, 175 cm man is 1695.667 |
| NutritionCalculatorFacts.ModerateMultiplier | foodler/calculator/nutrition_calculator.py:53-59 | "moderate" activity multiplies by 1.55 |
| NutritionCalculatorFacts.ReferenceCalories | foodler/calculator/nutrition_calculator.py:44-60 | that man, moderately active, needs 2628.28385 kcal before rounding |
| NutritionCalculatorFacts.ReferenceShares | foodler/calculator/nutrition_calculator.py:66-71 | 2628.28385 kcal rounds to 2628.28 kcal, 114.99 g protein, 361.39 g carbs, 80.31 g fats |
| NutritionCalculatorFacts.TotalAppend | foodler/calculator/nutrition_calculator.py:96-102 | the total over two lists of foods is the sum of their totals |
| NutritionCalculatorFacts.TotalSwap | foodler/calculator/nutrition_calculator.py:96-102 | the order of the foods does not change a total |
| NutritionCalculatorFacts.EmptyMealUnbalanced | foodler/calculator/nutrition_calculator.py:89-132 | an empty meal has all-zero totals, 0 % everywhere, and is not balanced |
| NutritionCalculatorFacts.MealToleranceBand | foodler/calculator/nutrition_calculator.py:117-132 | a meal is balanced exactly when each of its four nutrients is within the tolerance of 33.33 %; no meal is balanced for a negative tolerance; a wider tolerance accepts every meal a narrower one does |
| NutritionCalculatorFacts.NothingToSuggestIff | foodler/calculator/nutrition_calculator.py:148-155 | there is nothing to suggest exactly when the intake meets every need |
| NutritionCalculatorFacts.SuggestFromSource | foodler/calculator/nutrition_calculator.py:167-181 | each suggestion comes from a food tried that has positive content |
| NutritionCalculatorFacts.SuggestFromComplete | foodler/calculator/nutrition_calculator.py:167-168 | every tried food with positive content of the nutrient yields its suggestion |
| NutritionCalculatorFacts.SuggestFromHead | foodler/calculator/nutrition_calculator.py:167-181 | when the first food has positive content, the first suggestion is for it |
| NutritionCalculatorFacts.SuggestFromOrdered | foodler/calculator/nutrition_calculator.py:160-181 | suggestions made from ranked foods come in non-increasing content |
| NutritionCalculatorFacts.SuggestionsForSource | foodler/calculator/nutrition_calculator.py:160-181 | at most three suggestions, each for an available food with positive content of the nutrient |
| NutritionCalculatorFacts.SuggestionsForComplete | foodler/calculator/nutrition_calculator.py:160-181 | each of the three richest foods with positive content is suggested; with at most three foods, every food containing the nutrient is |
| NutritionCalculatorFacts.RankedHeadRichest | foodler/calculator/nutrition_calculator.py:160-164 | no available food is richer than the first ranked one |
| NutritionCalculatorFacts.TopRanked | foodler/calculator/nutrition_calculator.py:160-167 | the top three stay in non-increasing content |
| NutritionCalculatorFacts.SuggestionsForOrdered | foodler/calculator/nutrition_calculator.py:160-181 | suggestions come richest first |
| NutritionCalculatorFacts.SuggestionsForRichest | foodler/calculator/nutrition_calculator.py:160-181 | there is a suggestion exactly when some food has positive content, and the first is the richest food |
| NutritionCalculatorFacts.SuggestionsShape | foodler/calculator/nutrition_calculator.py:145-183 | `[]` when every need is met; otherwise ≤ 3 suggestions for the first largest deficit, each with reason "High in n", positive content and quantity deficit/content × 100 within rounding |
| NutritionCalculatorFacts.SuggestionsComplete | foodler/calculator/nutrition_calculator.py:134-183 | each of the three foods richest in the most deficient nutrient that contain it is suggested |
| ShoppingLists.MealRequirements | foodler/calculator/nutrition_calculator.py:200-207 | one requirement per ingredient of the meal |
| ShoppingLists.Aggregate | foodler/calculator/nutrition_calculator.py:199-207 | `needed_items` is empty exactly when no ingredient is required |
| ShoppingLists.Stock | foodler/calculator/nutrition_calculator.py:210-213 | the key of every inventory entry is in `inventory_dict` |
| ShoppingLists.Shortfalls | foodler/calculator/nutrition_calculator.py:216-224 | every purchase is for a positive amount |
| ShoppingLists.ShoppingList | foodler/calculator/nutrition_calculator.py:185-226 | a plan without ingredients buys nothing; every purchase is for a positive amount |
| ShoppingLists.LastIndex | foodler/calculator/nutrition_calculator.py:219 | the position of the last occurrence of the character, if any |
| ShoppingLists.SplitKey | foodler/calculator/nutrition_calculator.py:219 | `rsplit('_', 1)`: the unit has no underscore and name + "_" + unit is the key |
| ShoppingLists.RequirementsKeyed | foodler/calculator/nutrition_calculator.py:206 | every requirement key holds the underscore between name and unit |
| ShoppingLists.AggregateSums | foodler/calculator/nutrition_calculator.py:199-207 | `needed_items` has distinct keys, and each key holds the sum of its required quantities |
| ShoppingLists.AggregateDistinct | foodler/calculator/nutrition_calculator.py:199-207 | `needed_items` never holds a key twice |
| ShoppingLists.AggregateLookup | foodler/calculator/nutrition_calculator.py:199-207 | a key of `needed_items` is present exactly when some requirement has it, and then holds the sum of their quantities |
| ShoppingLists.AggregateKeyed | foodler/calculator/nutrition_calculator.py:206-207 | keys built as name + "_" + unit stay so in `needed_items` |
| ShoppingLists.SumForAbsent | foodler/calculator/nutrition_calculator.py:207 | a key never required sums to 0 |
| ShoppingLists.BuyKey | foodler/calculator/nutrition_calculator.py:219-224 | a purchase rejoins to its key and buys the amount asked |
| ShoppingLists.AggregateSnoc | foodler/calculator/nutrition_calculator.py:207 | one more requirement is one more `get(key, 0) + quantity` |
| ShoppingLists.RequirementsSnoc | foodler/calculator/nutrition_calculator.py:200-201 | one more meal appends its requirements |
| ShoppingLists.ShortfallsSound | foodler/calculator/nutrition_calculator.py:216-224 | each purchase is for a needed entry the stock does not cover, for needed − available |
| ShoppingLists.ShortfallsComplete | foodler/calculator/nutrition_calculator.py:216-224 | every needed entry the stock does not cover gets a purchase |
| ShoppingLists.ShortfallsDistinct | foodler/calculator/nutrition_calculator.py:216-224 | no key is bought twice |
| ShoppingLists.ShoppingListMeaning | foodler/calculator/nutrition_calculator.py:196-226 | the list buys exactly the keys whose summed need exceeds the stock, each once, for the difference; covered items are omitted |
| ShoppingLists.StockLastWins | foodler/calculator/nutrition_calculator.py:210-213 | the stock of a key is the quantity of the last inventory entry with that key |
| ShoppingLists.StockAbsent | foodler/calculator/nutrition_calculator.py:217 | a key with no inventory entry has 0 in stock |
| ShoppingLists.KeyRoundTrip | foodler/calculator/nutrition_calculator.py:206-219 | splitting a key gives back the ingredient's name and unit (default 'g') when the unit has no underscore |
| ShoppingLists.UnderscoreInUnit | foodler/calculator/nutrition_calculator.py:206-219 | a unit with an underscore is split at its own underscore: "fl_oz" milk is bought as "milk_fl" in "oz" |
| ShoppingLists.ExampleRequirements | example_usage.py:112-121 | the example lunch requires 300 g chicken, 200 g rice, 150 g tomatoes |
| ShoppingLists.ExampleAggregate | example_usage.py:112-121 | three distinct keys aggregate to themselves |
| ShoppingLists.ExampleStock | example_usage.py:123-126 | the example fridge holds 600 g chicken and 100 g rice |
| ShoppingLists.ExampleBuys | example_usage.py:112-128 | the example's keys split back into names and grams |
| ShoppingLists.ExampleShortfalls | example_usage.py:112-128 | against that stock, rice is 100 g short and tomatoes 150 g |
| ShoppingLists.ExampleShoppingList | example_usage.py:112-128 | the example's shopping list is exactly [Rice 100 g, Tomatoes 150 g] |
| Dicts.AddTo | foodler/calculator/nutrition_calculator.py:207 | every existing key keeps its place, and at most the new entry (key, q) is appended |
| Dicts.AddToDistinct | foodler/calculator/nutrition_calculator.py:207 | adding never duplicates a key |
| Dicts.AddToLookup | foodler/calculator/nutrition_calculator.py:207 | after adding q under a key it holds its old value (0 when missing) + q; other keys are unchanged |
| NutritionScraper.NewScraper | foodler/scrapers/nutrition_scraper.py:26-44 | a USDA client exists exactly when the module is available and the key is truthy, and then it carries that key |
| Records.CaloriesAboveZero | foodler/scrapers/nutrition_scraper.py:77 | `TypeError` exactly for string or `None` calories; otherwise true exactly for positive numeric calories, a missing field counting as 0 |
| NutritionScraper.CheckCalories | foodler/scrapers/nutrition_scraper.py:77 | raises exactly for a non-empty record with string or `None` calories; true exactly for a record with positive numeric calories |
| NutritionScraper.NutritionInfo | foodler/scrapers/nutrition_scraper.py:48-91 | raises exactly when the Open Food Facts calories are a string or `None`; a returned record has positive calories and is the Open Food Facts one or comes from the USDA client |
| NutritionScraper.DetailedInfo | foodler/scrapers/nutrition_scraper.py:93-120 | an Open Food Facts answer is the given non-empty record; a USDA answer comes only when Open Food Facts gave nothing and a client exists |
| NutritionScraper.SearchResults | foodler/scrapers/nutrition_scraper.py:122-160 | at most `limit` results, and no more than both providers gave |
| NutritionScraper.ProductByBarcode | foodler/scrapers/nutrition_scraper.py:162-195 | a record exactly when the product is truthy, with source 'Open Food Facts' |
| NutritionScraper.OffSummaries | foodler/scrapers/nutrition_scraper.py:140-145 | one summary per Open Food Facts product, in order |
| NutritionScraper.UsdaSummaries | foodler/scrapers/nutrition_scraper.py:152-157 | one summary per USDA hit, in order |
| NutritionScraper.SearchFoods | foodler/scrapers/nutrition_scraper.py:122-160 | the append loops give the merged results cut to the limit |
| NutritionScraper.OffFirst | foodler/scrapers/nutrition_scraper.py:75-79 | an Open Food Facts record with positive calories is returned, whatever USDA would answer |
| NutritionScraper.OffCaloriesRaise | foodler/scrapers/nutrition_scraper.py:75-77 | Open Food Facts calories that are a string or `None` raise `TypeError` before USDA is consulted |
| NutritionScraper.UsdaNeverRaises | foodler/scrapers/nutrition_scraper.py:86 | the calorie check of a USDA record never raises, because its calories are numeric |
| NutritionScraper.UsdaOnlyAsFallBack | foodler/scrapers/nutrition_scraper.py:77-84 | with a usable or a raising first record, or no client, the USDA answer does not matter |
| NutritionScraper.UsdaFallBack | foodler/scrapers/nutrition_scraper.py:77-88 | when the Open Food Facts record is missing, empty or has calories of at most 0 and a client exists, the USDA record is returned exactly when its calories are positive |
| NutritionScraper.NeverZeroCalories | foodler/scrapers/nutrition_scraper.py:73-91 | a returned record always has positive calories; the lookup raises exactly when the Open Food Facts calories are a string or `None`; `None` exactly when neither consulted source gives positive calories |
| NutritionScraper.UsdaCaloriesFromEnergy | foodler/scrapers/nutrition_scraper.py:86 | a USDA record counts exactly when its 'Energy' nutrient is positive |
| NutritionScraper.DetailedOffFirst | foodler/scrapers/nutrition_scraper.py:104-108 | any non-empty Open Food Facts record is the detailed answer, without a calorie check |
| NutritionScraper.DetailedFallBack | foodler/scrapers/nutrition_scraper.py:110-120 | otherwise the answer is USDA's, or `None` without a client |
| NutritionScraper.SearchBounded | foodler/scrapers/nutrition_scraper.py:160 | the search returns at most `limit` results |
| NutritionScraper.SearchOrder | foodler/scrapers/nutrition_scraper.py:140-157 | Open Food Facts summaries come first, in order, then the USDA summaries |
| NutritionScraper.SearchWithoutUsda | foodler/scrapers/nutrition_scraper.py:147-160 | when USDA is not asked, the result is the first `limit` Open Food Facts summaries, whatever USDA would answer |
| NutritionScraper.SearchAsksForTheRest | foodler/scrapers/nutrition_scraper.py:148-150 | when asked, USDA gets the same query with page size limit − found (clamped to 200) |
| NutritionScraper.BarcodeAbsent | foodler/scrapers/nutrition_scraper.py:174-195 | a missing product gives `None` |
| NutritionScraper.BarcodeNutrients | foodler/scrapers/nutrition_scraper.py:176-192 | a product gives a record whose nutriment fields default to 0.0 and whose source is 'Open Food Facts' |
| UsdaApi.SearchRequestFor | foodler/scrapers/usda_api.py:49-63 | a request exists exactly when there is a key; it keeps query and page, and its page size is min(page_size, 200) |
| UsdaApi.SearchFoods | foodler/scrapers/usda_api.py:35-73 | `[]` without a key and when the request fails; otherwise the answer's `foods`, or `[]` when it has none |
| UsdaApi.NutritionRecord | foodler/scrapers/usda_api.py:132-153 | calories and sugars are numbers and the source is 'USDA FoodData Central' |
| UsdaApi.NutritionInfo | foodler/scrapers/usda_api.py:101-160 | nothing without a key; a returned record has numeric calories |
| UsdaApi.DetailedInfo | foodler/scrapers/usda_api.py:162-239 | nothing without a key; a returned record carries the search hit's id and the USDA source |
| UsdaApi.NutrientValueOf | foodler/scrapers/usda_api.py:242-247 | 0.0, or the `value` of a dictionary entry stored under that name |
| UsdaApi.CollectNutrients | foodler/scrapers/usda_api.py:126-130 | the loop builds the nutrient dictionary of a search hit |
| UsdaApi.CollectDetailNutrients | foodler/scrapers/usda_api.py:183-188 | the loop builds the nutrient dictionary of a full description |
| UsdaApi.NoKeyNoResults | foodler/scrapers/usda_api.py:49-86 | without a key, search gives `[]` and both record lookups give `None`, whatever the services answer |
| UsdaApi.NutritionInfoFound | foodler/scrapers/usda_api.py:120-160 | a record exists exactly when the one-item search found a hit, and its source is USDA |
| UsdaApi.FieldFromLast | foodler/scrapers/usda_api.py:126-151 | each numeric field holds the last listed value of its nutrient, divided by 1000 for sodium and cholesterol |
| UsdaApi.FieldAbsent | foodler/scrapers/usda_api.py:139-151 | a field whose nutrient is not listed is 0.0 |
| UsdaApi.SugarsPreferNlea | foodler/scrapers/usda_api.py:146-147 | sugars come from 'Sugars, total including NLEA' when listed |
| UsdaApi.SugarsFallBack | foodler/scrapers/usda_api.py:146-147 | otherwise from 'Sugars, Total' |
| UsdaApi.SugarsDefault | foodler/scrapers/usda_api.py:146-147 | otherwise 0.0 |
| UsdaApi.DetailValueFromLast | foodler/scrapers/usda_api.py:183-188 | `_get_nutrient_value` reads the amount of the last listed nutrient of that name |
| UsdaApi.DetailValueAbsent | foodler/scrapers/usda_api.py:244-247 | it gives 0.0 for a nutrient not listed |
| UsdaApi.DetailValueOfOther | foodler/scrapers/usda_api.py:244-247 | it gives 0.0 for an entry that is not a dictionary or has no value |
| UsdaApi.DetailedRecordId | foodler/scrapers/usda_api.py:175-193 | the detailed record carries the search hit's id and the USDA source |
| UsdaApi.DetailedInfoFound | foodler/scrapers/usda_api.py:171-180 | the detailed record is absent exactly when the search is empty or the fetch by id fails |
| UsdaApi.ClientKey | foodler/scrapers/usda_api.py:16-23 | the client has a key exactly when a truthy key was given or the environment holds one; a given key wins |
| UsdaApi.DetailedMilligrams | foodler/scrapers/usda_api.py:210-232 | cholesterol and the minerals are the listed amounts divided by 1000 |
| UsdaApi.DetailedSugarsNoFallBack | foodler/scrapers/usda_api.py:203 | the detailed record's sugars are 0.0 without the NLEA total |
| UsdaApi.SugarsDisagree | foodler/scrapers/usda_api.py:146-203 | with only 'Sugars, Total' listed, the summary record has the sugars and the detailed one has 0.0 |
| Records.LastWinsAt | foodler/scrapers/usda_api.py:126-130 | a key holds the value of the last element with that key |
| Records.LastWinsAbsent | foodler/scrapers/usda_api.py:126-130 | a key no element has is absent |
| Records.LastWinsOrigin | foodler/scrapers/usda_api.py:126-130 | every key present comes from the last element carrying it |
| Records.CollectLastWins | foodler/scrapers/usda_api.py:126-130 | the loop builds that dictionary |
| KupiScraper.Clean | foodler/scrapers/kupi_scraper.py:141 | the cleaned text holds only digits, '.' and '-' |
| KupiScraper.PercentText | foodler/scrapers/kupi_scraper.py:137 | the text of one of the fields, or "0%" when neither key is present |
| KupiScraper.ExtractPercent | foodler/scrapers/kupi_scraper.py:127-144 | the value `float` gives for the cleaned text, and 0.0 when the text is empty or does not parse |
| KupiScraper.BestDeals | foodler/scrapers/kupi_scraper.py:97-124 | min(limit, n) deals for limit ≥ 0, and Python's slice length for a negative limit |
| KupiScraper.FirstDot | foodler/scrapers/kupi_scraper.py:142 | the first '.' of the text, if any |
| KupiScraper.ParseFloat | foodler/scrapers/kupi_scraper.py:142 | a parsed text holds a digit |
| KupiScraper.CleanAppend | foodler/scrapers/kupi_scraper.py:141 | cleaning works character by character |
| KupiScraper.CleanCount | foodler/scrapers/kupi_scraper.py:141 | each kept character occurs as often as in the source, and no other character occurs |
| KupiScraper.CleanKeepsKept | foodler/scrapers/kupi_scraper.py:141 | a text of kept characters is left as it is |
| KupiScraper.DigitsParse | foodler/scrapers/kupi_scraper.py:142 | a digit string parses to its value, and with a minus to its negation |
| KupiScraper.Unparseable | foodler/scrapers/kupi_scraper.py:139-144 | "1.2.3", "-", "." and "1-2" do not parse |
| KupiScraper.ParseableDecimal | foodler/scrapers/kupi_scraper.py:142 | "12.5" parses to 12.5 |
| KupiScraper.ParseableNegative | foodler/scrapers/kupi_scraper.py:142 | "-0.25" parses to -0.25 |
| KupiScraper.ParseableBarePoint | foodler/scrapers/kupi_scraper.py:142 | ".5" and "5." parse |
| KupiScraper.WholePercent | foodler/scrapers/kupi_scraper.py:137-142 | "N%" reads as N |
| KupiScraper.DiscountFirst | foodler/scrapers/kupi_scraper.py:137 | 'discount' is read before 'discount_percent' |
| KupiScraper.DiscountPercentSecond | foodler/scrapers/kupi_scraper.py:137 | 'discount_percent' is read when 'discount' is missing |
| KupiScraper.NegativeDiscount | foodler/scrapers/kupi_scraper.py:137-142 | the minus sign is kept, so "-25%" reads as -25 |
| KupiScraper.DecimalCommaDiscount | foodler/scrapers/kupi_scraper.py:137-142 | the comma is dropped, so "12,5 %" reads as 125 |
| KupiScraper.MissingPercent | foodler/scrapers/kupi_scraper.py:137-142 | with neither field the percentage is 0 |
| KupiScraper.UnparseableIsZero | foodler/scrapers/kupi_scraper.py:142-144 | a text that does not parse gives 0.0 instead of raising |
| KupiScraper.BestDealsEmpty | foodler/scrapers/kupi_scraper.py:106-109 | no discounts, no deals |
| KupiScraper.BestDealsRanked | foodler/scrapers/kupi_scraper.py:112-120 | exactly min(limit, n) deals for limit ≥ 0, the prefix of the stable ranking by non-increasing percentage: no discount left out has a higher percentage than one returned, and ties keep input order |
| KupiScraper.BestDealsUnsorted | foodler/scrapers/kupi_scraper.py:122-124 | when sorting raises, the first `limit` discounts are returned as they are |
| Sequences.Take | foodler/scrapers/kupi_scraper.py:118 | Python's `s[:n]`: the prefix of length min(n, len), or len + n for a negative n |
| Sequences.InsertPermutes | foodler/scrapers/kupi_scraper.py:113-117 | inserting into the sorted list adds exactly that element |
| Sequences.InsertOrdered | foodler/scrapers/kupi_scraper.py:113-117 | inserting keeps the list in non-increasing key order |
| Sequences.InsertStable | foodler/scrapers/kupi_scraper.py:113-117 | inserting keeps the relative order of elements of each key, the inserted one ahead of those of equal key |
| Sequences.SortDesc | foodler/scrapers/kupi_scraper.py:113-117 | `sorted(reverse=True)`: a stable permutation in non-increasing key order |
| KalorickeTabulky.Normalise | foodler/scrapers/kaloricketabulky_scraper.py:383 | the normalised text has no comma and no space and is no longer |
| KalorickeTabulky.DigitRun | foodler/scrapers/kaloricketabulky_scraper.py:384 | the longest run of digits at the front |
| KalorickeTabulky.FirstDigit | foodler/scrapers/kaloricketabulky_scraper.py:384 | the first digit's position; none exactly when there is no digit |
| KalorickeTabulky.ExtractNumber | foodler/scrapers/kaloricketabulky_scraper.py:379-390 | the number read is never negative |
| KalorickeTabulky.ZeroesComplete | foodler/scrapers/kaloricketabulky_scraper.py:205-214 | the initial record has every field |
| KalorickeTabulky.TableValues | foodler/scrapers/kaloricketabulky_scraper.py:205-241 | every field has a value |
| KalorickeTabulky.ParseNutritionTable | foodler/scrapers/kaloricketabulky_scraper.py:216-243 | the row loop produces the page's name and the table's values |
| KalorickeTabulky.IdAt | foodler/scrapers/kaloricketabulky_scraper.py:405 | an id matched at a position is a non-empty digit string |
| KalorickeTabulky.IdFrom | foodler/scrapers/kaloricketabulky_scraper.py:405 | an id found in a link is a non-empty digit string |
| KalorickeTabulky.Parsed | foodler/scrapers/kaloricketabulky_scraper.py:305-315 | no more foods than items |
| KalorickeTabulky.Classify | foodler/scrapers/kaloricketabulky_scraper.py:228-241 | a chosen field comes from a matching rule with no earlier rule matching |
| KalorickeTabulky.ExtractId | foodler/scrapers/kaloricketabulky_scraper.py:392-411 | `None` only when no id attribute is present; an id taken from the link is a non-empty digit string |
| KalorickeTabulky.FoodRecord | foodler/scrapers/kaloricketabulky_scraper.py:130-135 | exactly the keys name, food_id, calories and source; calories a non-negative number; food_id `None` exactly when no id was found |
| KalorickeTabulky.ParseFoodItem | foodler/scrapers/kaloricketabulky_scraper.py:121-140 | a record exactly when a name was found, holding that name |
| KalorickeTabulky.Cut | foodler/scrapers/kaloricketabulky_scraper.py:305-307 | the number of items looked at never exceeds the number of items |
| KalorickeTabulky.ScrapeCategory | foodler/scrapers/kaloricketabulky_scraper.py:305-315 | the loop with its counted break returns the parsed items among the first `limit` ones (all with a falsy limit) |
| KalorickeTabulky.InsertSorted | foodler/scrapers/kaloricketabulky_scraper.py:346 | inserting a new key keeps the header ascending and adds exactly that key |
| KalorickeTabulky.CsvHeader | foodler/scrapers/kaloricketabulky_scraper.py:338-346 | no header for no foods; otherwise an ascending list holding exactly the union of all keys |
| KalorickeTabulky.NormaliseAppend | foodler/scrapers/kaloricketabulky_scraper.py:383 | normalising works character by character |
| KalorickeTabulky.NormaliseNoDigit | foodler/scrapers/kaloricketabulky_scraper.py:383 | normalising adds no digit |
| KalorickeTabulky.NoDigitIsZero | foodler/scrapers/kaloricketabulky_scraper.py:384-390 | a text without a digit gives 0.0 |
| KalorickeTabulky.NormaliseDigits | foodler/scrapers/kaloricketabulky_scraper.py:383 | digits are left alone |
| KalorickeTabulky.DigitRunOfDigits | foodler/scrapers/kaloricketabulky_scraper.py:384 | the run ends at the first non-digit |
| KalorickeTabulky.WholeNumberFirst | foodler/scrapers/kaloricketabulky_scraper.py:383-390 | a text starting with a whole number N not followed by a digit or a point reads as N |
| KalorickeTabulky.ReadFromFront | foodler/scrapers/kaloricketabulky_scraper.py:383-387 | a text normalised to start with a digit reads as the match at its front |
| KalorickeTabulky.LeadingDigits | foodler/scrapers/kaloricketabulky_scraper.py:384-387 | digits alone read as their value |
| KalorickeTabulky.LeadingDecimal | foodler/scrapers/kaloricketabulky_scraper.py:384-387 | digits, a point and digits read as that decimal |
| KalorickeTabulky.NormaliseSpace | foodler/scrapers/kaloricketabulky_scraper.py:383 | a space between digit groups is removed |
| KalorickeTabulky.NormaliseComma | foodler/scrapers/kaloricketabulky_scraper.py:383 | a comma between digit groups becomes a point |
| KalorickeTabulky.SpaceInNumber | foodler/scrapers/kaloricketabulky_scraper.py:383-387 | digit groups separated by a space read as one number |
| KalorickeTabulky.CommaInNumber | foodler/scrapers/kaloricketabulky_scraper.py:383-387 | a decimal comma reads as a decimal point |
| KalorickeTabulky.ThousandsExample | foodler/scrapers/kaloricketabulky_scraper.py:383-387 | "1 200" reads as 1200 |
| KalorickeTabulky.DecimalCommaExample | foodler/scrapers/kaloricketabulky_scraper.py:383-387 | "12,5 g" reads as 12.5 |
| KalorickeTabulky.SignIgnored | foodler/scrapers/kaloricketabulky_scraper.py:384-387 | "-N" reads as N: the sign is not part of the match |
| KalorickeTabulky.FirstMatchIs | foodler/scrapers/kaloricketabulky_scraper.py:228-241 | the field chosen is that of the first matching rule |
| KalorickeTabulky.FirstMatchNone | foodler/scrapers/kaloricketabulky_scraper.py:228-241 | a label no rule matches selects no field |
| KalorickeTabulky.FirstMatchOrigin | foodler/scrapers/kaloricketabulky_scraper.py:228-241 | a chosen field comes from a matching rule with no matching rule before it |
| KalorickeTabulky.AnyOfTwo | foodler/scrapers/kaloricketabulky_scraper.py:228 | `a in label or b in label` |
| KalorickeTabulky.RuleFields | foodler/scrapers/kaloricketabulky_scraper.py:228-241 | the rules come in the order energy, protein, carbs, fats, fiber, sugars, salt |
| KalorickeTabulky.EnergyFirst | foodler/scrapers/kaloricketabulky_scraper.py:228-229 | a label with "energie" or "kalorie" sets the calories |
| KalorickeTabulky.FatsLabel | foodler/scrapers/kaloricketabulky_scraper.py:228-235 | a label with "tuk" and without "nenasycen" sets the fats unless an earlier rule's word occurs in it |
| KalorickeTabulky.UnsaturatedNeverFats | foodler/scrapers/kaloricketabulky_scraper.py:234-235 | a label with "nenasycen" never sets the fats |
| KalorickeTabulky.TableLastRowWins | foodler/scrapers/kaloricketabulky_scraper.py:218-241 | a field holds the value of the last row selecting it |
| KalorickeTabulky.TableUnsetIsZero | foodler/scrapers/kaloricketabulky_scraper.py:205-214 | a field no row selects stays 0.0 |
| KalorickeTabulky.AttributeStep | foodler/scrapers/kaloricketabulky_scraper.py:395-397 | attributes are tried one at a time, in list order |
| KalorickeTabulky.AttributeOrder | foodler/scrapers/kaloricketabulky_scraper.py:395-397 | data-id, then data-food-id, then id wins |
| KalorickeTabulky.LinkFallBack | foodler/scrapers/kaloricketabulky_scraper.py:399-409 | without those attributes the id comes from the link, and without a link there is none |
| KalorickeTabulky.LeftmostMatch | foodler/scrapers/kaloricketabulky_scraper.py:405 | the link's id is that of the leftmost match |
| KalorickeTabulky.NoMatch | foodler/scrapers/kaloricketabulky_scraper.py:405-409 | a link with no match gives no id |
| KalorickeTabulky.PotravinyLink | foodler/scrapers/kaloricketabulky_scraper.py:405-407 | "/potraviny/N…" gives N |
| KalorickeTabulky.FoodLink | foodler/scrapers/kaloricketabulky_scraper.py:405-407 | "/food/N…" gives N |
| KalorickeTabulky.ParsedItem | foodler/scrapers/kaloricketabulky_scraper.py:130-140 | an item parses exactly when its name is non-empty, into name, food_id, calories and this site as source |
| KalorickeTabulky.ParsedAppend | foodler/scrapers/kaloricketabulky_scraper.py:305-312 | items are parsed one by one |
| KalorickeTabulky.ParsedNamed | foodler/scrapers/kaloricketabulky_scraper.py:137-140 | every collected food has a non-empty name |
| KalorickeTabulky.NoLimit | foodler/scrapers/kaloricketabulky_scraper.py:306 | a limit of 0 or none looks at every item |
| KalorickeTabulky.LimitBounds | foodler/scrapers/kaloricketabulky_scraper.py:305-307 | a positive limit gives at most that many foods, from the first `limit` items |
| KalorickeTabulky.NegativeLimit | foodler/scrapers/kaloricketabulky_scraper.py:306-307 | a negative limit is truthy and stops before the first item |
| KalorickeTabulky.AllKeysMeaning | foodler/scrapers/kaloricketabulky_scraper.py:343-345 | a key is in the union exactly when some record has it |
| KalorickeTabulky.IncreasingUnique | foodler/scrapers/kaloricketabulky_scraper.py:346 | an ascending list is fixed by its elements, so the header is the one `sorted` gives |
| KalorickeTabulky.IncreasingDistinct | foodler/scrapers/kaloricketabulky_scraper.py:346 | the header names each column once |
| Text.LessTransitive | foodler/scrapers/kaloricketabulky_scraper.py:346 | the string order `sorted` uses is transitive |
| Text.LessTotal | foodler/scrapers/kaloricketabulky_scraper.py:346 | and total on distinct strings |
| FridgeDb.IndexOf | foodler/database/fridge_db.py:104 | the position of the row with that key, none exactly when no row has it |
| FridgeDb.Where | foodler/database/fridge_db.py:92 | the filter keeps exactly the rows satisfying the condition |
| FridgeDb.FridgeDatabase.constructor | foodler/database/fridge_db.py:33-42 | the database opens on the stored table |
| FridgeDb.FridgeDatabase.AddItem | foodler/database/fridge_db.py:61-73 | one new row with exactly the given fields and the next free key is appended and returned; the other rows are unchanged |
| FridgeDb.FridgeDatabase.GetAllItems | foodler/database/fridge_db.py:81 | exactly the stored rows, in key order, the order the command line numbers them by |
| FridgeDb.FridgeDatabase.GetItemByName | foodler/database/fridge_db.py:92 | exactly the rows whose name contains the query |
| FridgeDb.FridgeDatabase.UpdateQuantity | foodler/database/fridge_db.py:104-108 | only the matching row's quantity changes and the row is returned; `None` and no change for an unknown key |
| FridgeDb.FridgeDatabase.DeleteItem | foodler/database/fridge_db.py:119-124 | true and that row removed exactly when the key exists; otherwise false and no change |
| FridgeDb.FridgeDatabase.GetExpiringSoon | foodler/database/fridge_db.py:136-141 | exactly the rows with now ≤ expiry ≤ now + days, none without an expiry date |
| FridgeDb.NextIdFresh | foodler/database/fridge_db.py:15 | the next key exceeds every key in use, so appending keeps keys ascending |
| FridgeDb.KeysUnique | foodler/database/fridge_db.py:15 | a key identifies at most one row |
| FridgeDb.RemovePreserves | foodler/database/fridge_db.py:119-124 | deleting keeps keys ascending and leaves exactly the rows with another key |
| FridgeDb.UpdatePreserves | foodler/database/fridge_db.py:104-108 | changing a quantity keeps every key and every other row |
| FridgeDb.DeleteMeaning | foodler/database/fridge_db.py:119-124 | a delete succeeds exactly for a key in use, and then no row keeps that key |
| FridgeDb.WhereOrdered | foodler/database/fridge_db.py:92 | a query returns its rows in key order |
| FridgeDb.NegativeWindowEmpty | foodler/database/fridge_db.py:136-141 | a negative window holds nothing |
| FridgeDb.WindowMonotone | foodler/database/fridge_db.py:136-141 | looking further ahead only adds items |
| FridgeDb.NoExpiryNeverExpiring | foodler/database/fridge_db.py:138-141 | an item without an expiry date is never reported |
| FridgeDb.EmptyQueryMatchesAll | foodler/database/fridge_db.py:92 | the empty query matches every item |
| Cli.Digits | foodler/cli.py:246 | the numeral's digits without underscores |
| Cli.Magnitude | foodler/cli.py:246 | only a numeral has a value |
| Cli.ParseInt | foodler/cli.py:246 | `int()` accepts only a text holding a digit |
| Cli.TokenIndex | foodler/cli.py:246 | an index only for a token holding a digit |
| Cli.ParseSelection | foodler/cli.py:245-250 | a failure is always "Invalid selection"; no more items than comma-separated tokens |
| Cli.AllOf | foodler/cli.py:246 | a value for every token, or none |
| Cli.Pick | foodler/cli.py:247 | no more items than indices |
| Cli.Entries | foodler/cli.py:255-267 | no more entries than chosen items |
| Cli.Entry | foodler/cli.py:257-264 | the item's name, and exactly the keys quantity, calories, protein, carbs and fats, with the entered quantity |
| Cli.CollectEntries | foodler/cli.py:254-267 | the quantity loop builds the entries of the chosen items whose prompt was answered |
| Cli.CalculateMeal | foodler/cli.py:229-271 | an empty fridge stops first; a bad selection stops with "Invalid selection"; the balance is computed only when some food was collected, with the default needs |
| Cli.DefaultNeedsNonZero | foodler/calculator/nutrition_calculator.py:11-17 | no default meal need is 0, so the default calculator never fails |
| Cli.ParseIntRoundTrip | foodler/cli.py:246 | a decimal rendering, with or without sign, parses back to its number |
| Cli.SignedForms | foodler/cli.py:246 | a numeral parses to its value bare or after "+", and to its negation after "-" |
| Cli.NotIntegers | foodler/cli.py:246-249 | "", "-", "1__0", "1_" and "x" are not integers |
| Cli.UnderscoreGrouping | foodler/cli.py:246 | "1_0" is 10 |
| Cli.AllOfAppend | foodler/cli.py:246 | token lists are parsed part by part |
| Cli.AllOfMeaning | foodler/cli.py:246-248 | values exist exactly when every token has one, and they are the tokens' values in order |
| Cli.IndicesMeaning | foodler/cli.py:246 | the indices exist exactly when every stripped token is an integer, and are those integers less one, in order |
| Cli.InvalidTokenRejects | foodler/cli.py:245-251 | any non-integer token rejects the whole selection |
| Cli.PickAppend | foodler/cli.py:247 | picking works index by index |
| Cli.PickInRange | foodler/cli.py:247 | in-range indices pick their items in order, repeats kept |
| Cli.PickOutOfRange | foodler/cli.py:247 | out-of-range indices are dropped silently |
| Cli.PickFromItems | foodler/cli.py:247 | chosen items come from the fridge |
| Cli.EntryFields | foodler/cli.py:258-265 | an entry copies the name and the entered quantity, with missing nutrients as 0 |
| Cli.AllAnswered | foodler/cli.py:255-265 | with every prompt answered there is one entry per chosen item, in order |
| Cli.NoneAnswered | foodler/cli.py:255-269 | with no prompt answered there are no entries and no analysis |

## Left out

- HTTP, HTML and JSON plumbing are not modelled. This covers `requests` sessions, timeouts, `raise_for_status`, BeautifulSoup element lookup and the `_safe_extract` selector helpers. Services are functions or input values, and elements are attribute maps with an optional link and cell texts.
- Rate limiting is left out because it depends on the clock and on sleeping.
- foodler/scrapers/openfoodfacts_api.py is not part of this model. Its answer for a call is an input.
- The kupi library is a foreign call. Its discount list is an input.
- kaloricketabulky's `search`, `get_food_details` and `get_nutrition_info` only fetch pages and call the modelled parsers. They are left out.
- SQLAlchemy's engine, session and database file are left out. The table is a sequence of rows in key order, and the clock is a parameter.
- FridgeDb.FridgeDatabase.GetItemByName: SQLite's `LIKE` is read as a case-sensitive substring test. ASCII case folding is not modelled, and neither are the `%` and `_` wildcards inside the query.
- FridgeDb.FridgeDatabase.GetExpiringSoon: timestamps are integer seconds without time zones.
- FridgeDb.FridgeDatabase.UpdateQuantity: the returned item is a value, not an ORM object that aliases the session's row.
- Inventory rotation is not modelled because fridge_db.py does not define it. This covers `get_items_to_use`, `mark_as_used` and `meals_without`, which the CLI and the examples call.
- Floating point is modelled with exact reals, and `round(x, 2)` is exact rounding to hundredths with ties to even. Binary rounding error is not modelled.
- The rest of the CLI is left out: the click commands, the echo output, and the prompts themselves.
- Cli.CalculateMeal: a quantity answer is a number or an aborted prompt. Click's own float parsing and re-prompting are not modelled.
- Cli.ParseInt: only ASCII digits are digits. Python's `int` also accepts other Unicode decimal digits and surrounding whitespace, but the code has stripped the token already.
- Only ASCII digits are digits in `isdigit`, `\d` and `float` either. Lower-casing covers ASCII, Latin-1 and Latin Extended-A.
- Logging, JSON export and writing the CSV file are left out. Only the CSV header is modelled.
- The detailed USDA answer is a typed record rather than a dictionary, because it has about thirty fixed keys.
- UsdaApi.FoodNutrient: a nutrient's `value` and a detailed nutrient's `amount` are numbers or missing. A JSON `null` or a string there is not modelled. In the code a `null` reaches `/ 1000` or the calorie comparison and raises `TypeError`.
- Only an Open Food Facts record can carry non-numeric calories in this model, so it is the only `TypeError` the nutrition lookup raises.
- ShoppingLists.Ingredient: `None` in a field means the key is missing, so the `.get` default applies. A key present with the value `None` is not modelled. In the code an explicit `None` unit gives the key "name_None" rather than "name_g", and an explicit `None` quantity raises `TypeError` in the `needed_items.get(key, 0) + quantity` sum.
- ShoppingLists.StockItem: likewise, an entry whose quantity is present but `None` is not modelled; the code would raise `TypeError` comparing it with the need for the same key.
- ShoppingLists.Meal: an "ingredients" key holding `None` is not modelled; the code would raise `TypeError` iterating it.
- UsdaApi.SearchAnswer: a `"foods": null` answer is not modelled. `data.get('foods', [])` would then return `None`, not `[]`. The two record lookups treat it as no hit (`if foods:`) and return `None`, but the merged `NutritionScraper.search_foods` raises `TypeError` iterating it.
- FridgeDb.FridgeDatabase.AddItem: the name, quantity and unit are always values. A `None` for any of them would violate the table's NOT NULL columns and raise `IntegrityError` at commit, which is not modelled.
- FridgeDb.FridgeDatabase.UpdateQuantity: the new quantity is always a number. A `None` would violate the NOT NULL quantity column and raise `IntegrityError` at commit, which is not modelled.
- NutritionCalculator.Food: a food always has a name and numeric nutrient values. A food without a 'name' key, whose suggestion would carry `None` as its name, is not modelled. Neither is a nutrient value that is `None` or a string, for which the code raises `TypeError` multiplying it in the totals.
- NutritionScraper.Product: `None` for the nutriments means the key is missing, so the `{}` default applies. An explicit `"nutriments": null` is not modelled. The code would then get `None` from `product.get('nutriments', {})`, and the `.get` calls that follow would raise `AttributeError` out of `get_product_by_barcode`.
