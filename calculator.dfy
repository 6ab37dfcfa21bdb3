/**
 * The nutrition calculator: personalised daily needs (revised Harris-Benedict
 * equations, Roza & Shizgal 1984), the balance of a meal against those needs,
 * food suggestions for the largest deficit, and a shopping list that diffs a
 * meal plan against the fridge inventory.
 */
module NutritionCalculator {
  import opened Wrappers
  import opened Text
  import Sequences
  import opened Dicts
  import opened ShoppingLists

  // ---------------------------------------------------------------------------
  // Daily needs
  // ---------------------------------------------------------------------------

  /** The daily needs: nutrient name to amount, in insertion order. */
  type Needs = Dict

  /** The needs a calculator starts with when none (or an empty dictionary) is given. */
  const DefaultNeeds: Needs :=
    [("calories", 2000.0), ("protein", 50.0), ("carbs", 275.0), ("fats", 70.0), ("fiber", 25.0)]

  /** Python's `round(x, 2)` on an exact real: the nearest hundredth, ties to the even one. */
  function Round2(x: real): (r: real)
    ensures (r * 100.0).Floor as real == r * 100.0
    ensures -0.005 <= r - x <= 0.005
  {
    var y := x * 100.0;
    var f := y.Floor;
    var frac := y - f as real;
    var n := if frac < 0.5 then f else if frac > 0.5 then f + 1 else if f % 2 == 0 then f else f + 1;
    assert n as real * 100.0 / 100.0 == n as real;
    n as real / 100.0
  }

  /** Rounding a value that is already a whole number of hundredths leaves it unchanged. */
  lemma Round2Idempotent(x: real)
    ensures Round2(Round2(x)) == Round2(x)
  {
    var r := Round2(x);
    var y := r * 100.0;
    assert y.Floor as real == y;
  }

  /** Basal metabolic rate: male constants exactly when `gender.lower() == 'male'`. */
  function Bmr(age: int, weight: real, height: real, gender: string): real {
    if Lower(gender) == "male" then 88.362 + 13.397 * weight + 4.799 * height - 5.677 * age as real
    else 447.593 + 9.247 * weight + 3.098 * height - 4.330 * age as real
  }

  const ActivityMultipliers: Needs :=
    [("sedentary", 1.2), ("light", 1.375), ("moderate", 1.55), ("active", 1.725), ("very_active", 1.9)]

  /** `activity_multipliers.get(activity_level.lower(), 1.2)`. */
  function ActivityMultiplier(activity: string): (m: real)
    ensures 1.2 <= m <= 1.9
  {
    var found := Lookup(ActivityMultipliers, Lower(activity));
    if found.Some? then LookupFound(ActivityMultipliers, Lower(activity)); found.value else 1.2
  }

  /** Total daily energy expenditure: BMR scaled by the activity multiplier. */
  function DailyCalories(age: int, weight: real, height: real, gender: string, activity: string): real {
    Bmr(age, weight, height, gender) * ActivityMultiplier(activity)
  }

  /** The keys of the needs `set_custom_needs` computes, in their order. */
  const NeedKeys: seq<string> := ["calories", "protein", "carbs", "fats", "fiber"]

  /** The five daily targets stored by `set_custom_needs`, rounded to hundredths. */
  function CustomNeeds(age: int, weight: real, height: real, gender: string, activity: string): (d: Needs)
    ensures |d| == 5 && forall i :: 0 <= i < 5 ==> d[i].0 == NeedKeys[i]
  {
    var cal := DailyCalories(age, weight, height, gender, activity);
    [ ("calories", Round2(cal)),
      ("protein", Round2(cal * 0.175 / 4.0)),
      ("carbs", Round2(cal * 0.55 / 4.0)),
      ("fats", Round2(cal * 0.275 / 9.0)),
      ("fiber", if Lower(gender) == "female" then 25.0 else 38.0) ]
  }

  // ---------------------------------------------------------------------------
  // Meals
  // ---------------------------------------------------------------------------

  /** A food entry of a meal: its name and its numeric fields (quantity in grams, nutrients per 100 g). */
  datatype Food = Food(name: string, fields: map<string, real>)

  /** `food.get(key, 0)`. */
  function Get(f: Food, key: string): real {
    if key in f.fields then f.fields[key] else 0.0
  }

  /** The nutrients a meal balance totals, in their order. */
  const MealNutrients: seq<string> := ["calories", "protein", "carbs", "fats"]

  /** What one food adds to the total of nutrient `n`: per-100 g content times quantity / 100. */
  function Contribution(f: Food, n: string): real {
    Get(f, n) * (Get(f, "quantity") / 100.0)
  }

  /** The total of nutrient `n` over `foods`. */
  function Total(foods: seq<Food>, n: string): real {
    if |foods| == 0 then 0.0 else Total(foods[..|foods| - 1], n) + Contribution(foods[|foods| - 1], n)
  }

  lemma TotalSnoc(foods: seq<Food>, f: Food)
    ensures forall n :: Total(foods + [f], n) == Total(foods, n) + Contribution(f, n)
  {
    assert (foods + [f])[..|foods|] == foods;
  }

  /** The totals dictionary of a meal balance. */
  function Totals(foods: seq<Food>): (t: map<string, real>)
    ensures t.Keys == set n | n in MealNutrients
  {
    map n | n in MealNutrients :: Total(foods, n)
  }

  /** `self.daily_needs.get(nutrient, 1)`. */
  function NeedFor(needs: Needs, n: string): real {
    Lookup(needs, n).GetOr(1.0)
  }

  /** No meal nutrient has a need of zero, so no percentage divides by zero. */
  predicate NonZeroNeeds(needs: Needs) {
    forall n :: n in MealNutrients ==> NeedFor(needs, n) != 0.0
  }

  /** `round(total / need * 100, 2)`. */
  function Percent(total: real, need: real): real
    requires need != 0.0
  {
    Round2(total / need * 100.0)
  }

  /** The percentage of the daily need that each total covers, rounded to hundredths. */
  function Percentages(needs: Needs, foods: seq<Food>): (p: map<string, real>)
    requires NonZeroNeeds(needs)
    ensures p.Keys == set n | n in MealNutrients
  {
    map n | n in MealNutrients :: Percent(Total(foods, n), NeedFor(needs, n))
  }

  /** The share of the daily need one of three daily meals should carry. */
  const TargetShare: real := 33.33

  const DefaultTolerance: real := 15.0

  /** `_is_balanced`: every percentage lies within `tolerance` of the one-meal share. */
  predicate IsBalanced(percentages: map<string, real>, tolerance: real): (b: bool)
    ensures tolerance < 0.0 ==> (b <==> percentages == map[])
  {
    forall n :: n in percentages ==> TargetShare - tolerance <= percentages[n] <= TargetShare + tolerance
  }

  /** The dictionary `calculate_meal_balance` returns. */
  datatype Balance = Balance(
    totals: map<string, real>,
    percentages: map<string, real>,
    dailyNeeds: Needs,
    isBalanced: bool)

  /** The exception `calculate_meal_balance` raises when a need is zero. */
  datatype CalcError = ZeroDivision

  /** The totals loop of `calculate_meal_balance`: each food adds its contribution to each nutrient. */
  method SumTotals(foods: seq<Food>) returns (totals: map<string, real>)
    ensures totals == Totals(foods)
  {
    totals := map["calories" := 0.0, "protein" := 0.0, "carbs" := 0.0, "fats" := 0.0];
    var i := 0;
    while i < |foods|
      invariant 0 <= i <= |foods|
      invariant totals.Keys == set n | n in MealNutrients
      invariant forall n :: n in totals ==> totals[n] == Total(foods[..i], n)
    {
      totals := AddFood(totals, foods[..i], foods[i]);
      assert foods[..i + 1] == foods[..i] + [foods[i]];
      i := i + 1;
    }
    assert foods[..|foods|] == foods;
  }

  /** The inner loop: adds one food's contribution to the running totals of every meal nutrient. */
  method AddFood(totals: map<string, real>, before: seq<Food>, f: Food) returns (next: map<string, real>)
    requires totals.Keys == set n | n in MealNutrients
    requires forall n :: n in totals ==> totals[n] == Total(before, n)
    ensures next.Keys == totals.Keys
    ensures forall n :: n in next ==> next[n] == Total(before + [f], n)
  {
    next := totals;
    var j := 0;
    MealNutrientsDistinct();
    while j < |MealNutrients|
      invariant 0 <= j <= |MealNutrients|
      invariant next.Keys == totals.Keys
      invariant forall k :: 0 <= k < j ==> next[MealNutrients[k]] == totals[MealNutrients[k]] + Contribution(f, MealNutrients[k])
      invariant forall k :: j <= k < |MealNutrients| ==> next[MealNutrients[k]] == totals[MealNutrients[k]]
    {
      var n := MealNutrients[j];
      next := next[n := next[n] + Contribution(f, n)];
      j := j + 1;
    }
    TotalSnoc(before, f);
  }

  lemma MealNutrientsDistinct()
    ensures forall a, b :: 0 <= a < b < |MealNutrients| ==> MealNutrients[a] != MealNutrients[b]
  {
    assert MealNutrients[0][0] == 'c' && MealNutrients[1][0] == 'p' && MealNutrients[3][0] == 'f';
    assert MealNutrients[0][1] == 'a' && MealNutrients[2][1] == 'a' && MealNutrients[0][2] == 'l' && MealNutrients[2][2] == 'r';
  }

  // ---------------------------------------------------------------------------
  // Suggestions
  // ---------------------------------------------------------------------------

  /** Python's `max(0, x)`. */
  function Max0(x: real): real {
    if x > 0.0 then x else 0.0
  }

  /** `current_intake.get(n, 0)`. */
  function Intake(intake: map<string, real>, n: string): real {
    if n in intake then intake[n] else 0.0
  }

  /** The deficit of every needed nutrient, in the order of the needs. */
  function Deficits(needs: Needs, intake: map<string, real>): (d: Needs)
    ensures |d| == |needs|
    ensures forall i :: 0 <= i < |d| ==> d[i].0 == needs[i].0 && d[i].1 >= 0.0
  {
    seq(|needs|, i requires 0 <= i < |needs| => (needs[i].0, Max0(needs[i].1 - Intake(intake, needs[i].0))))
  }

  /** The index Python's `max(d.items(), key=value)` picks: the first of the largest values. */
  function FirstMaxIndex(d: Needs): (i: nat)
    requires |d| > 0
    ensures i < |d|
    ensures forall j :: 0 <= j < |d| ==> d[j].1 <= d[i].1
    ensures forall j :: 0 <= j < i ==> d[j].1 < d[i].1
  {
    if |d| == 1 then 0
    else
      var k := FirstMaxIndex(d[..|d| - 1]);
      if d[|d| - 1].1 > d[k].1 then |d| - 1 else k
  }

  /** `not deficits or max(deficits.values()) == 0`. */
  predicate NothingToSuggest(d: Needs) {
    |d| == 0 || d[FirstMaxIndex(d)].1 == 0.0
  }

  /** The nutrient with the largest deficit and that deficit (the first such, as `max` picks). */
  function Primary(needs: Needs, intake: map<string, real>): (p: (string, real))
    requires !NothingToSuggest(Deficits(needs, intake))
    ensures p.1 > 0.0
    ensures exists i ::
      && 0 <= i < |needs| && p == Deficits(needs, intake)[i]
      && (forall j :: 0 <= j < |needs| ==> Deficits(needs, intake)[j].1 <= p.1)
      && (forall j :: 0 <= j < i ==> Deficits(needs, intake)[j].1 < p.1)
  {
    var d := Deficits(needs, intake);
    d[FirstMaxIndex(d)]
  }

  /** One suggestion: the food, the grams that cover the deficit, and what it provides per 100 g. */
  datatype Suggestion = Suggestion(name: string, quantity: real, reason: string, nutrient: string, content: real)

  /** The ranking key: a food's content of nutrient `n` (0 when absent). */
  function ContentOf(n: string): Food -> real {
    f => Get(f, n)
  }

  /** The available foods by non-increasing content of `n`, ties in input order. */
  function Ranked(foods: seq<Food>, n: string): (r: seq<Food>)
    ensures multiset(r) == multiset(foods)
    ensures Sequences.NonIncreasing(r, ContentOf(n))
    ensures forall k :: Sequences.WithKey(r, ContentOf(n), k) == Sequences.WithKey(foods, ContentOf(n), k)
  {
    Sequences.SortDesc(foods, ContentOf(n))
  }

  /** The suggestion for food `f`: enough grams of it to cover `need` of nutrient `n`. */
  function MakeSuggestion(f: Food, n: string, need: real): (s: Suggestion)
    requires Get(f, n) > 0.0
    ensures s.name == f.name && s.nutrient == n && s.content == Get(f, n)
  {
    Suggestion(f.name, GramsToCover(need, Get(f, n)), "High in " + n, n, Get(f, n))
  }

  /** `round(needed / content_per_100g * 100, 2)`: the grams holding `need` of a nutrient. */
  function GramsToCover(need: real, content: real): real
    requires content > 0.0
  {
    Round2(need / content * 100.0)
  }

  /** The suggestions made from `top`: one for each food with positive content of `n`, in order. */
  function SuggestFrom(top: seq<Food>, n: string, need: real): (r: seq<Suggestion>)
    ensures |r| <= |top|
    ensures forall k :: 0 <= k < |r| ==> r[k].nutrient == n && r[k].content > 0.0
  {
    if |top| == 0 then []
    else
      var last := top[|top| - 1];
      SuggestFrom(top[..|top| - 1], n, need) + (if Get(last, n) > 0.0 then [MakeSuggestion(last, n, need)] else [])
  }

  /** What `suggest_foods_to_balance` returns for these needs, intake and foods. */
  function Suggestions(needs: Needs, intake: map<string, real>, foods: seq<Food>): (r: seq<Suggestion>)
    ensures |r| <= 3 && |r| <= |foods|
    ensures forall k :: 0 <= k < |r| ==> r[k].content > 0.0
  {
    if NothingToSuggest(Deficits(needs, intake)) then []
    else
      var p := Primary(needs, intake);
      SuggestionsFor(foods, p.0, p.1)
  }

  /** The suggestions for a deficit `need` of nutrient `n`: drawn from the three richest foods. */
  function SuggestionsFor(foods: seq<Food>, n: string, need: real): (r: seq<Suggestion>)
    ensures |r| <= 3 && |r| <= |foods|
    ensures forall k :: 0 <= k < |r| ==> r[k].nutrient == n && r[k].content > 0.0
  {
    SuggestFrom(Sequences.Take(Ranked(foods, n), 3), n, need)
  }

  // ---------------------------------------------------------------------------
  // The shopping list loops
  // ---------------------------------------------------------------------------

  /** The first loop of `create_shopping_list`: `needed_items`, summed per key in first-seen order. */
  method NeededItems(plan: seq<Meal>) returns (needed: Dict)
    ensures needed == Aggregate(Requirements(plan))
  {
    needed := [];
    var i := 0;
    while i < |plan|
      invariant 0 <= i <= |plan|
      invariant needed == Aggregate(Requirements(plan[..i]))
    {
      var ings := plan[i].ingredients.GetOr([]);
      ghost var before := Requirements(plan[..i]);
      ghost var reqs := MealRequirements(plan[i]);
      var j := 0;
      assert before + reqs[..0] == before;
      while j < |ings|
        invariant 0 <= j <= |ings|
        invariant needed == Aggregate(before + reqs[..j])
      {
        var g := ings[j];
        assert reqs[j] == (IngredientKey(g), g.quantity.GetOr(0.0));
        AggregateStep(before, reqs, j);
        needed := AddTo(needed, IngredientKey(g), g.quantity.GetOr(0.0));
        j := j + 1;
      }
      RequirementsSnoc(plan, i);
      assert reqs[..|ings|] == reqs;
      i := i + 1;
    }
    assert plan[..|plan|] == plan;
  }

  /** The last loop of `create_shopping_list`: one purchase per key the stock does not cover. */
  method MissingItems(needed: Dict, stock: map<string, real>) returns (list: seq<Purchase>)
    requires Keyed(needed)
    ensures list == Shortfalls(needed, stock)
  {
    list := [];
    var k := 0;
    while k < |needed|
      invariant 0 <= k <= |needed|
      invariant list == Shortfalls(needed[..k], stock)
    {
      var key := needed[k].0;
      var qty := needed[k].1;
      var have := OnHand(stock, key);
      KeyedPrefix(needed, k + 1);
      assert needed[..k + 1][..k] == needed[..k];
      assert needed[..k + 1][k] == (key, qty);
      if qty > have {
        list := list + [Buy(key, qty - have)];
      }
      k := k + 1;
    }
    assert needed[..|needed|] == needed;
  }

  // ---------------------------------------------------------------------------
  // The calculator object
  // ---------------------------------------------------------------------------

  /** `NutritionCalculator`: holds the daily needs that balances and suggestions refer to. */
  class Calculator {
    var dailyNeeds: Needs

    ghost predicate Valid()
      reads this
    {
      DistinctKeys(dailyNeeds)
    }

    /** `NutritionCalculator(daily_needs)`: `daily_needs or DEFAULT_DAILY_NEEDS.copy()`. */
    constructor (needs: Option<Needs>)
      requires needs.Some? ==> DistinctKeys(needs.value)
      ensures Valid()
      ensures dailyNeeds == if needs.Some? && |needs.value| > 0 then needs.value else DefaultNeeds
    {
      if needs.Some? && |needs.value| > 0 {
        dailyNeeds := needs.value;
      } else {
        dailyNeeds := DefaultNeeds;
      }
    }

    /** `set_custom_needs`: computes the personalised needs, stores them and returns them. */
    method SetCustomNeeds(age: int, weight: real, height: real, gender: string, activity: string)
      returns (needs: Needs)
      modifies this
      ensures Valid()
      ensures dailyNeeds == CustomNeeds(age, weight, height, gender, activity)
      ensures needs == dailyNeeds
    {
      var cal := Bmr(age, weight, height, gender) * ActivityMultiplier(activity);
      var fiber := if Lower(gender) == "female" then 25.0 else 38.0;
      dailyNeeds := [
        ("calories", Round2(cal)),
        ("protein", Round2(cal * 0.175 / 4.0)),
        ("carbs", Round2(cal * 0.55 / 4.0)),
        ("fats", Round2(cal * 0.275 / 9.0)),
        ("fiber", fiber)];
      needs := dailyNeeds;
    }

    /**
     * `calculate_meal_balance`: totals each meal nutrient over the foods and
     * expresses it as a percentage of the daily need; fails as the source
     * does (ZeroDivisionError) when one of those needs is zero.
     */
    method MealBalance(foods: seq<Food>) returns (r: Result<Balance, CalcError>)
      requires Valid()
      ensures r.Failure? <==> !NonZeroNeeds(dailyNeeds)
      ensures r.Success? ==>
        && r.value.totals == Totals(foods)
        && r.value.percentages == Percentages(dailyNeeds, foods)
        && r.value.dailyNeeds == dailyNeeds
        && r.value.isBalanced == IsBalanced(Percentages(dailyNeeds, foods), DefaultTolerance)
    {
      var totals := SumTotals(foods);
      if !NonZeroNeeds(dailyNeeds) {
        return Failure(ZeroDivision);
      }
      var p := map n | n in totals :: Percent(totals[n], NeedFor(dailyNeeds, n));
      assert p.Keys == Percentages(dailyNeeds, foods).Keys;
      assert forall n :: n in p ==> p[n] == Percentages(dailyNeeds, foods)[n];
      r := Success(Balance(totals, p, dailyNeeds, IsBalanced(p, DefaultTolerance)));
    }
      /**
     * `suggest_foods_to_balance`: for the nutrient with the largest deficit,
     * suggests up to three of the richest available foods with the grams of
     * each that cover the deficit.
     */
    method SuggestFoods(intake: map<string, real>, foods: seq<Food>) returns (s: seq<Suggestion>)
      requires Valid()
      ensures s == Suggestions(dailyNeeds, intake, foods)
    {
      var deficits := Deficits(dailyNeeds, intake);
      if NothingToSuggest(deficits) {
        return [];
      }
      var best := FirstMaxIndex(deficits);
      var primary := deficits[best].0;
      var needed := deficits[best].1;
      var top := Sequences.Take(Ranked(foods, primary), 3);
      s := [];
      var k := 0;
      while k < |top|
        invariant 0 <= k <= |top|
        invariant s == SuggestFrom(top[..k], primary, needed)
      {
        var food := top[k];
        assert top[..k + 1][..k] == top[..k];
        if Get(food, primary) > 0.0 {
          s := s + [MakeSuggestion(food, primary, needed)];
        }
        k := k + 1;
      }
      assert top[..|top|] == top;
    }

    /**
     * `create_shopping_list`: sums the plan's ingredient quantities per
     * name and unit, then lists what the fridge inventory does not cover.
     */
    method CreateShoppingList(plan: seq<Meal>, inventory: seq<StockItem>) returns (list: seq<Purchase>)
      ensures list == ShoppingList(plan, inventory)
    {
      var needed := NeededItems(plan);
      RequirementsKeyed(plan);
      AggregateKeyed(Requirements(plan));
      list := MissingItems(needed, Stock(inventory));
    }
  }
}
