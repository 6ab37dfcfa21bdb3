/** Properties of the nutrition calculator: daily needs, meal balance and suggestions. */
module NutritionCalculatorFacts {
  import opened Wrappers
  import opened Text
  import Sequences
  import opened Dicts
  import opened NutritionCalculator

  // ---------------------------------------------------------------------------
  // Daily needs
  // ---------------------------------------------------------------------------

  /** The male constants apply exactly when the lower-cased gender is "male"; every other value gets the female ones. */
  lemma BmrBySex(age: int, weight: real, height: real, gender: string)
    ensures Bmr(age, weight, height, gender) ==
      if Lower(gender) == "male" then Bmr(age, weight, height, "male") else Bmr(age, weight, height, "female")
  {
    SexWordsLower();
  }

  /** "male" and "female" are their own lower case, and differ. */
  lemma SexWordsLower()
    ensures Lower("male") == "male" && Lower("female") == "female" && "male" != "female"
  {
    LowerOfLowercase("male");
    LowerOfLowercase("female");
    assert "male"[0] != "female"[0];
  }

  /** A string of lower-case ASCII letters and underscores is its own lower case. */
  lemma {:induction false} LowerOfLowercase(s: string)
    requires forall i :: 0 <= i < |s| ==> 'a' <= s[i] <= 'z' || s[i] == '_'
    ensures Lower(s) == s
  {
    forall i | 0 <= i < |s| ensures Lower(s)[i] == s[i] {
      LowerAscii(s[i]);
    }
  }

  lemma LowerAscii(c: char)
    requires 'a' <= c <= 'z' || c == '_'
    ensures LowerChar(c) == c
  {
  }

  /** The activity level is looked up case-insensitively. */
  lemma ActivityCaseInsensitive(activity: string)
    ensures ActivityMultiplier(activity) == ActivityMultiplier(Lower(activity))
  {
    LowerIdempotent(activity);
  }

  /** An activity level whose lower case is an entry of the table gets that entry's multiplier. */
  lemma ActivityLevels(activity: string, i: int)
    requires 0 <= i < |ActivityMultipliers| && Lower(activity) == ActivityMultipliers[i].0
    ensures ActivityMultiplier(activity) == ActivityMultipliers[i].1
  {
    assert DistinctKeys(ActivityMultipliers);
    LookupAt(ActivityMultipliers, i);
  }

  /** An activity level outside the table counts as sedentary. */
  lemma UnknownActivity(activity: string)
    requires !HasKey(ActivityMultipliers, Lower(activity))
    ensures ActivityMultiplier(activity) == 1.2
  {
    LookupHasKey(ActivityMultipliers, Lower(activity));
  }

  /**
   * Each macro target is its share of the calorie target (17.5 % protein and
   * 55 % carbohydrate at 4 kcal/g, 27.5 % fat at 9 kcal/g), off by at most
   * the rounding, so the energy of the three targets adds back up to the
   * calorie target.
   */
  lemma MacroTargets(age: int, weight: real, height: real, gender: string, activity: string)
    ensures var cal := DailyCalories(age, weight, height, gender, activity);
      var d := CustomNeeds(age, weight, height, gender, activity);
      && -0.005 <= d[0].1 - cal <= 0.005
      && -0.005 <= d[1].1 - cal * 0.175 / 4.0 <= 0.005
      && -0.005 <= d[2].1 - cal * 0.55 / 4.0 <= 0.005
      && -0.005 <= d[3].1 - cal * 0.275 / 9.0 <= 0.005
      && -0.09 <= 4.0 * d[1].1 + 4.0 * d[2].1 + 9.0 * d[3].1 - d[0].1 <= 0.09
  {
  }

  /** The fiber target is 25 g exactly when the lower-cased gender is "female", 38 g otherwise. */
  lemma FiberTarget(age: int, weight: real, height: real, gender: string, activity: string)
    ensures CustomNeeds(age, weight, height, gender, activity)[4].1 == if Lower(gender) == "female" then 25.0 else 38.0
    ensures CustomNeeds(age, weight, height, gender, activity)[4].1 == 25.0 <==> Lower(gender) == "female"
  {
  }

  /**
   * The two sex tests differ: a gender that is neither "male" nor "female"
   * gets the female metabolic rate but the male fiber target.
   */
  lemma OtherGenderMixesTables(age: int, weight: real, height: real, gender: string, activity: string)
    requires Lower(gender) != "male" && Lower(gender) != "female"
    ensures Bmr(age, weight, height, gender) == Bmr(age, weight, height, "female")
    ensures CustomNeeds(age, weight, height, gender, activity)[4].1 == CustomNeeds(age, weight, height, "male", activity)[4].1
  {
    BmrBySex(age, weight, height, gender);
    SexWordsLower();
    FiberTarget(age, weight, height, gender, activity);
    FiberTarget(age, weight, height, "male", activity);
  }

  /** A 30-year-old, 70 kg, 175 cm, moderately active man. */
  lemma ReferenceProfile()
    ensures CustomNeeds(30, 70.0, 175.0, "male", "moderate") ==
      [("calories", 2628.28), ("protein", 114.99), ("carbs", 361.39), ("fats", 80.31), ("fiber", 38.0)]
  {
    ReferenceCalories();
    ReferenceShares(DailyCalories(30, 70.0, 175.0, "male", "moderate"));
  }

  lemma ReferenceCalories()
    ensures DailyCalories(30, 70.0, 175.0, "male", "moderate") == 2628.28385
  {
    ReferenceBmr();
    ModerateMultiplier();
  }

  lemma ReferenceBmr()
    ensures Bmr(30, 70.0, 175.0, "male") == 1695.667
  {
    SexWordsLower();
  }

  lemma ModerateMultiplier()
    ensures ActivityMultiplier("moderate") == 1.55
  {
    LowerOfLowercase("moderate");
    ActivityLevels("moderate", 2);
  }

  lemma ReferenceShares(cal: real)
    requires cal == 2628.28385
    ensures Round2(cal) == 2628.28 && Round2(cal * 0.175 / 4.0) == 114.99
    ensures Round2(cal * 0.55 / 4.0) == 361.39 && Round2(cal * 0.275 / 9.0) == 80.31
  {
    assert (262828.385).Floor == 262828;
    assert (11498.74184375).Floor == 11498;
    assert (36138.9029375).Floor == 36138;
    assert (2628.28385 * 0.275 / 9.0 * 100.0).Floor == 8030;
  }
  // ---------------------------------------------------------------------------
  // Meal balance
  // ---------------------------------------------------------------------------

  /** Totals are additive: the foods of a meal can be totalled in two parts. */
  lemma {:induction false} TotalAppend(a: seq<Food>, b: seq<Food>, n: string)
    ensures Total(a + b, n) == Total(a, n) + Total(b, n)
    decreases |b|
  {
    if |b| == 0 {
      assert a + b == a;
    } else {
      var front := b[..|b| - 1];
      assert (a + b)[..|a + b| - 1] == a + front;
      TotalAppend(a, front, n);
    }
  }

  /** The order in which foods are listed does not change a total. */
  lemma TotalSwap(a: seq<Food>, b: seq<Food>, n: string)
    ensures Total(a + b, n) == Total(b + a, n)
  {
    TotalAppend(a, b, n);
    TotalAppend(b, a, n);
  }

  /** An empty meal totals nothing, covers 0 % of every need and is therefore never balanced. */
  lemma EmptyMealUnbalanced(needs: Needs)
    requires NonZeroNeeds(needs)
    ensures forall n :: n in Totals([]) ==> Totals([])[n] == 0.0
    ensures forall n :: n in Percentages(needs, []) ==> Percentages(needs, [])[n] == 0.0
    ensures !IsBalanced(Percentages(needs, []), DefaultTolerance)
  {
    var p := Percentages(needs, []);
    forall n | n in MealNutrients ensures p[n] == 0.0 {
      var need := NeedFor(needs, n);
      assert 0.0 / need == 0.0;
      assert Round2(0.0) == 0.0;
    }
    assert "calories" in p && p["calories"] == 0.0;
  }

  /**
   * A meal is balanced exactly when each of its four nutrients lies within the
   * tolerance band around the target share; a negative tolerance balances no
   * meal, and a wider tolerance accepts every meal a narrower one does.
   */
  lemma MealToleranceBand(needs: Needs, foods: seq<Food>, tolerance: real, wider: real)
    requires NonZeroNeeds(needs)
    ensures var p := Percentages(needs, foods);
      IsBalanced(p, tolerance) <==>
        forall k :: 0 <= k < |MealNutrients| ==>
          TargetShare - tolerance <= p[MealNutrients[k]] <= TargetShare + tolerance
    ensures tolerance < 0.0 ==> !IsBalanced(Percentages(needs, foods), tolerance)
    ensures tolerance <= wider && IsBalanced(Percentages(needs, foods), tolerance) ==>
      IsBalanced(Percentages(needs, foods), wider)
  {
    var p := Percentages(needs, foods);
    assert "calories" in p;
    if forall k :: 0 <= k < |MealNutrients| ==>
        TargetShare - tolerance <= p[MealNutrients[k]] <= TargetShare + tolerance
    {
      forall n | n in p ensures TargetShare - tolerance <= p[n] <= TargetShare + tolerance {
        var k :| 0 <= k < |MealNutrients| && MealNutrients[k] == n;
      }
    }
  }

  // ---------------------------------------------------------------------------
  // Suggestions
  // ---------------------------------------------------------------------------

  /** There is nothing to suggest exactly when every need is already met by the intake. */
  lemma NothingToSuggestIff(needs: Needs, intake: map<string, real>)
    ensures NothingToSuggest(Deficits(needs, intake)) <==>
      forall i :: 0 <= i < |needs| ==> needs[i].1 <= Intake(intake, needs[i].0)
  {
    var d := Deficits(needs, intake);
    if |d| > 0 {
      var m := FirstMaxIndex(d);
      if d[m].1 == 0.0 {
        forall i | 0 <= i < |needs| ensures needs[i].1 <= Intake(intake, needs[i].0) {
          assert d[i].1 <= d[m].1;
        }
      }
      if forall i :: 0 <= i < |needs| ==> needs[i].1 <= Intake(intake, needs[i].0) {
        assert d[m].1 == Max0(needs[m].1 - Intake(intake, needs[m].0));
      }
    }
  }

  /** Suggestion `s` was made from a food of `top` with positive content of `n`. */
  ghost predicate MadeFrom(s: Suggestion, top: seq<Food>, n: string, need: real) {
    exists j :: 0 <= j < |top| && Get(top[j], n) > 0.0 && s == MakeSuggestion(top[j], n, need)
  }

  /** Each suggestion is made from one of the foods it was drawn from, one with positive content. */
  lemma {:induction false} SuggestFromSource(top: seq<Food>, n: string, need: real)
    ensures forall k :: 0 <= k < |SuggestFrom(top, n, need)| ==> MadeFrom(SuggestFrom(top, n, need)[k], top, n, need)
    decreases |top|
  {
    if |top| > 0 {
      var front := top[..|top| - 1];
      SuggestFromSource(front, n, need);
      var r := SuggestFrom(top, n, need);
      var rf := SuggestFrom(front, n, need);
      forall k | 0 <= k < |r| ensures MadeFrom(r[k], top, n, need) {
        if k < |rf| {
          assert MadeFrom(rf[k], front, n, need);
          var j :| 0 <= j < |front| && Get(front[j], n) > 0.0 && rf[k] == MakeSuggestion(front[j], n, need);
          assert front[j] == top[j];
        } else {
          assert Get(top[|top| - 1], n) > 0.0 && r[k] == MakeSuggestion(top[|top| - 1], n, need);
        }
      }
    }
  }

  /** Conversely, every food of `top` with positive content of `n` yields its suggestion. */
  lemma {:induction false} SuggestFromComplete(top: seq<Food>, n: string, need: real, j: int)
    requires 0 <= j < |top| && Get(top[j], n) > 0.0
    ensures MakeSuggestion(top[j], n, need) in SuggestFrom(top, n, need)
    decreases |top|
  {
    var front := top[..|top| - 1];
    if j < |top| - 1 {
      assert front[j] == top[j];
      SuggestFromComplete(front, n, need, j);
    }
  }

  /** With the first food having positive content, the first suggestion is about that food. */
  lemma {:induction false} SuggestFromHead(top: seq<Food>, n: string, need: real)
    requires |top| > 0 && Get(top[0], n) > 0.0
    ensures |SuggestFrom(top, n, need)| > 0 && SuggestFrom(top, n, need)[0] == MakeSuggestion(top[0], n, need)
    decreases |top|
  {
    if |top| > 1 {
      SuggestFromHead(top[..|top| - 1], n, need);
    }
  }

  /** The suggestions' contents never increase along the list. */
  predicate RichestFirst(s: seq<Suggestion>) {
    forall a, b :: 0 <= a < b < |s| ==> s[a].content >= s[b].content
  }

  /** Suggestions made from foods ranked by content keep that ranking. */
  lemma {:induction false} SuggestFromOrdered(top: seq<Food>, n: string, need: real)
    requires Sequences.NonIncreasing(top, ContentOf(n))
    ensures RichestFirst(SuggestFrom(top, n, need))
    decreases |top|
  {
    if |top| > 0 {
      var front := top[..|top| - 1];
      assert Sequences.NonIncreasing(front, ContentOf(n)) by {
        forall i, j | 0 <= i < j < |front| ensures ContentOf(n)(front[i]) >= ContentOf(n)(front[j]) {
          assert front[i] == top[i] && front[j] == top[j];
        }
      }
      SuggestFromOrdered(front, n, need);
      SuggestFromSource(front, n, need);
      var r := SuggestFrom(top, n, need);
      var rf := SuggestFrom(front, n, need);
      var last := top[|top| - 1];
      forall a, b | 0 <= a < b < |r| ensures r[a].content >= r[b].content {
        if b >= |rf| {
          assert r[b] == MakeSuggestion(last, n, need);
          assert r[a] == rf[a];
          assert MadeFrom(rf[a], front, n, need);
          var j :| 0 <= j < |front| && Get(front[j], n) > 0.0 && rf[a] == MakeSuggestion(front[j], n, need);
          assert front[j] == top[j];
          assert ContentOf(n)(top[j]) >= ContentOf(n)(top[|top| - 1]);
          assert ContentOf(n)(top[j]) == Get(top[j], n) && ContentOf(n)(last) == Get(last, n);
          assert r[a].content == Get(top[j], n);
          assert r[b].content == Get(last, n);
        } else {
          assert r[a] == rf[a] && r[b] == rf[b];
          assert rf[a].content >= rf[b].content;
        }
      }
    }
  }

  /** Every suggestion for nutrient `n` is for an available food with positive content of `n`; at most three are made. */
  lemma {:induction false} SuggestionsForSource(foods: seq<Food>, n: string, need: real)
    ensures |SuggestionsFor(foods, n, need)| <= 3
    ensures forall k :: 0 <= k < |SuggestionsFor(foods, n, need)| ==>
      exists f :: f in foods && Get(f, n) > 0.0 && SuggestionsFor(foods, n, need)[k] == MakeSuggestion(f, n, need)
  {
    var ranked := Ranked(foods, n);
    var top := Sequences.Take(ranked, 3);
    var s := SuggestFrom(top, n, need);
    assert s == SuggestionsFor(foods, n, need);
    SuggestFromSource(top, n, need);
    forall k | 0 <= k < |s| ensures exists f :: f in foods && Get(f, n) > 0.0 && s[k] == MakeSuggestion(f, n, need) {
      assert MadeFrom(s[k], top, n, need);
      var j :| 0 <= j < |top| && Get(top[j], n) > 0.0 && s[k] == MakeSuggestion(top[j], n, need);
      assert top[j] == ranked[j];
      assert ranked[j] in multiset(ranked);
    }
  }

  /**
   * Every one of the three richest foods with positive content of `n` is
   * suggested; so with at most three foods available, every food containing
   * `n` is.
   */
  lemma SuggestionsForComplete(foods: seq<Food>, n: string, need: real)
    ensures forall j :: 0 <= j < 3 && j < |foods| && Get(Ranked(foods, n)[j], n) > 0.0 ==>
      MakeSuggestion(Ranked(foods, n)[j], n, need) in SuggestionsFor(foods, n, need)
    ensures |foods| <= 3 ==> forall f :: f in foods && Get(f, n) > 0.0 ==>
      MakeSuggestion(f, n, need) in SuggestionsFor(foods, n, need)
  {
    var ranked := Ranked(foods, n);
    var top := Sequences.Take(ranked, 3);
    assert SuggestionsFor(foods, n, need) == SuggestFrom(top, n, need);
    forall j | 0 <= j < 3 && j < |foods| && Get(ranked[j], n) > 0.0
      ensures MakeSuggestion(ranked[j], n, need) in SuggestFrom(top, n, need)
    {
      assert top[j] == ranked[j];
      SuggestFromComplete(top, n, need, j);
    }
    if |foods| <= 3 {
      forall f | f in foods && Get(f, n) > 0.0 ensures MakeSuggestion(f, n, need) in SuggestFrom(top, n, need) {
        assert f in multiset(foods);
        assert f in multiset(ranked);
        var j :| 0 <= j < |ranked| && ranked[j] == f;
        assert top[j] == ranked[j];
        SuggestFromComplete(top, n, need, j);
      }
    }
  }

  /** No available food is richer in `n` than the first ranked one. */
  lemma RankedHeadRichest(foods: seq<Food>, n: string, f: Food)
    requires f in foods
    ensures |Ranked(foods, n)| > 0 && Get(f, n) <= Get(Ranked(foods, n)[0], n)
  {
    var ranked := Ranked(foods, n);
    assert f in multiset(foods);
    assert f in multiset(ranked);
    var j :| 0 <= j < |ranked| && ranked[j] == f;
    assert ContentOf(n)(ranked[0]) >= ContentOf(n)(ranked[j]);
  }

  /** The three foods suggestions are drawn from are still ranked by content. */
  lemma TopRanked(foods: seq<Food>, n: string)
    ensures Sequences.NonIncreasing(Sequences.Take(Ranked(foods, n), 3), ContentOf(n))
  {
    var ranked := Ranked(foods, n);
    var top := Sequences.Take(ranked, 3);
    forall i, j | 0 <= i < j < |top| ensures ContentOf(n)(top[i]) >= ContentOf(n)(top[j]) {
      assert top[i] == ranked[i] && top[j] == ranked[j];
    }
  }

  /** Suggestions for nutrient `n` come richest first. */
  lemma SuggestionsForOrdered(foods: seq<Food>, n: string, need: real)
    ensures RichestFirst(SuggestionsFor(foods, n, need))
  {
    TopRanked(foods, n);
    SuggestFromOrdered(Sequences.Take(Ranked(foods, n), 3), n, need);
  }

  /**
   * A suggestion for nutrient `n` is made exactly when some available food
   * contains `n`, and then the first is for a food no other available food beats.
   */
  lemma SuggestionsForRichest(foods: seq<Food>, n: string, need: real)
    ensures |SuggestionsFor(foods, n, need)| > 0 <==> exists f :: f in foods && Get(f, n) > 0.0
    ensures |SuggestionsFor(foods, n, need)| > 0 ==>
      forall f :: f in foods ==> Get(f, n) <= SuggestionsFor(foods, n, need)[0].content
  {
    var ranked := Ranked(foods, n);
    var top := Sequences.Take(ranked, 3);
    var s := SuggestFrom(top, n, need);
    assert s == SuggestionsFor(foods, n, need);
    if exists f :: f in foods && Get(f, n) > 0.0 {
      var f :| f in foods && Get(f, n) > 0.0;
      RankedHeadRichest(foods, n, f);
      assert top[0] == ranked[0];
      SuggestFromHead(top, n, need);
      forall g | g in foods ensures Get(g, n) <= s[0].content {
        RankedHeadRichest(foods, n, g);
      }
    } else if |s| > 0 {
      SuggestionsForSource(foods, n, need);
    }
  }

  /**
   * `suggest_foods_to_balance` suggests each of the three foods richest in the
   * nutrient with the largest deficit that contains it at all.
   */
  lemma SuggestionsComplete(needs: Needs, intake: map<string, real>, foods: seq<Food>)
    ensures !NothingToSuggest(Deficits(needs, intake)) ==>
      var p := Primary(needs, intake);
      forall j :: 0 <= j < 3 && j < |foods| && Get(Ranked(foods, p.0)[j], p.0) > 0.0 ==>
        MakeSuggestion(Ranked(foods, p.0)[j], p.0, p.1) in Suggestions(needs, intake, foods)
  {
    if !NothingToSuggest(Deficits(needs, intake)) {
      var p := Primary(needs, intake);
      SuggestionsForComplete(foods, p.0, p.1);
    }
  }

  /**
   * `suggest_foods_to_balance` suggests nothing when every need is met;
   * otherwise every suggestion targets the nutrient with the largest deficit,
   * names the nutrient in its reason, and proposes the grams of an available
   * food (with positive content) that cover that deficit, to rounding.
   */
  lemma SuggestionsShape(needs: Needs, intake: map<string, real>, foods: seq<Food>)
    ensures (forall i :: 0 <= i < |needs| ==> needs[i].1 <= Intake(intake, needs[i].0)) ==>
      Suggestions(needs, intake, foods) == []
    ensures !NothingToSuggest(Deficits(needs, intake)) ==>
      var p := Primary(needs, intake);
      && Suggestions(needs, intake, foods) == SuggestionsFor(foods, p.0, p.1)
      && |SuggestionsFor(foods, p.0, p.1)| <= 3
      && forall k :: 0 <= k < |SuggestionsFor(foods, p.0, p.1)| ==>
        && SuggestionsFor(foods, p.0, p.1)[k].nutrient == p.0
        && SuggestionsFor(foods, p.0, p.1)[k].reason == "High in " + p.0
        && SuggestionsFor(foods, p.0, p.1)[k].content > 0.0
        && -0.005 <= SuggestionsFor(foods, p.0, p.1)[k].quantity
                     - p.1 / SuggestionsFor(foods, p.0, p.1)[k].content * 100.0 <= 0.005
  {
    NothingToSuggestIff(needs, intake);
    if !NothingToSuggest(Deficits(needs, intake)) {
      var p := Primary(needs, intake);
      SuggestionsForSource(foods, p.0, p.1);
    }
  }
}
