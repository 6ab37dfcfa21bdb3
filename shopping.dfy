/**
 * The shopping list of the nutrition calculator: the ingredients a meal plan
 * needs, summed per name and unit, less what the fridge holds.
 */
module ShoppingLists {
  import opened Wrappers
  import opened Dicts

  /** One ingredient of a planned meal; `None` marks a key missing from its dictionary. */
  datatype Ingredient = Ingredient(name: Option<string>, quantity: Option<real>, unit: Option<string>)

  /** A planned meal; `None` when it has no "ingredients" key. */
  datatype Meal = Meal(ingredients: Option<seq<Ingredient>>)

  /** One fridge inventory entry; `None` marks a key missing from its dictionary. */
  datatype StockItem = StockItem(name: Option<string>, quantity: Option<real>, unit: Option<string>)

  /** One line of the shopping list. */
  datatype Purchase = Purchase(name: string, quantity: real, unit: string)

  /** How an f-string renders `d.get(key)` for a string value: the string, or "None" when missing. */
  function Show(s: Option<string>): string {
    match s
    case Some(v) => v
    case None => "None"
  }

  /** `f"{name}_{unit}"` with the ingredient's unit defaulting to grams. */
  function IngredientKey(g: Ingredient): string {
    Show(g.name) + "_" + g.unit.GetOr("g")
  }

  /** `f"{item.get('name')}_{item.get('unit')}"`: a missing unit renders as "None". */
  function StockKey(item: StockItem): string {
    Show(item.name) + "_" + Show(item.unit)
  }

  /** The (key, quantity) pairs one meal contributes, a missing quantity counting as 0. */
  function MealRequirements(m: Meal): (r: Dict)
    ensures |r| == |m.ingredients.GetOr([])|
  {
    var ings := m.ingredients.GetOr([]);
    seq(|ings|, k requires 0 <= k < |ings| => (IngredientKey(ings[k]), ings[k].quantity.GetOr(0.0)))
  }

  /** Every requirement of the plan, meal by meal, in iteration order. */
  function Requirements(plan: seq<Meal>): Dict {
    if |plan| == 0 then [] else Requirements(plan[..|plan| - 1]) + MealRequirements(plan[|plan| - 1])
  }

  /** The `needed_items` dictionary: the requirements folded with `AddTo`. */
  function Aggregate(reqs: Dict): (r: Dict)
    ensures r == [] <==> reqs == []
  {
    if |reqs| == 0 then [] else
      var last := reqs[|reqs| - 1];
      AddTo(Aggregate(reqs[..|reqs| - 1]), last.0, last.1)
  }

  /** Reference definition: the sum of the quantities required under `key`. */
  function SumFor(reqs: Dict, key: string): real {
    if |reqs| == 0 then 0.0 else
      var last := reqs[|reqs| - 1];
      SumFor(reqs[..|reqs| - 1], key) + (if last.0 == key then last.1 else 0.0)
  }

  /** The `inventory_dict` comprehension: a later entry with the same key overwrites an earlier one. */
  function Stock(inv: seq<StockItem>): (r: map<string, real>)
    ensures forall i :: 0 <= i < |inv| ==> StockKey(inv[i]) in r
  {
    if |inv| == 0 then map[] else
      var last := inv[|inv| - 1];
      Stock(inv[..|inv| - 1])[StockKey(last) := last.quantity.GetOr(0.0)]
  }

  /** `inventory_dict.get(key, 0)`. */
  function OnHand(stock: map<string, real>, key: string): real {
    if key in stock then stock[key] else 0.0
  }

  /** The position of the last occurrence of `c` in `s`. */
  function LastIndex(s: string, c: char): (r: Option<nat>)
    ensures r.Some? ==> r.value < |s| && s[r.value] == c && forall j :: r.value < j < |s| ==> s[j] != c
    ensures r.None? ==> forall j :: 0 <= j < |s| ==> s[j] != c
  {
    if |s| == 0 then None
    else if s[|s| - 1] == c then Some(|s| - 1)
    else LastIndex(s[..|s| - 1], c)
  }

  /** `key.rsplit('_', 1)` unpacked into a name and a unit, for a key that holds an underscore. */
  function SplitKey(key: string): (parts: (string, string))
    requires '_' in key
    ensures '_' !in parts.1
    ensures parts.0 + "_" + parts.1 == key
  {
    var p := LastIndex(key, '_').value;
    assert key == key[..p] + "_" + key[p + 1..];
    (key[..p], key[p + 1..])
  }

  /** Every key of `d` holds an underscore. */
  predicate Keyed(d: Dict) {
    forall i :: 0 <= i < |d| ==> '_' in d[i].0
  }

  /** A prefix of a keyed dictionary is keyed. */
  lemma KeyedPrefix(d: Dict, k: int)
    requires Keyed(d) && 0 <= k <= |d|
    ensures Keyed(d[..k])
  {
    forall i | 0 <= i < k ensures '_' in d[..k][i].0 {
      assert d[..k][i] == d[i];
    }
  }

  /** The shopping list entry for `qty` of the requirement stored under `key`. */
  function Buy(key: string, qty: real): Purchase
    requires '_' in key
  {
    var parts := SplitKey(key);
    Purchase(parts.0, qty, parts.1)
  }

  /** The key a purchase was split from. */
  function KeyOf(p: Purchase): string {
    p.name + "_" + p.unit
  }

  /** The entries of `needed` that the stock does not cover, each for the missing amount, in order. */
  function Shortfalls(needed: Dict, stock: map<string, real>): (r: seq<Purchase>)
    requires Keyed(needed)
    ensures forall i :: 0 <= i < |r| ==> r[i].quantity > 0.0
  {
    if |needed| == 0 then [] else
      var last := needed[|needed| - 1];
      var have := OnHand(stock, last.0);
      Shortfalls(needed[..|needed| - 1], stock) + (if last.1 > have then [Buy(last.0, last.1 - have)] else [])
  }

  /** What `create_shopping_list` returns for this plan and inventory. */
  function ShoppingList(plan: seq<Meal>, inv: seq<StockItem>): (r: seq<Purchase>)
    ensures Requirements(plan) == [] ==> r == []
    ensures forall i :: 0 <= i < |r| ==> r[i].quantity > 0.0
  {
    RequirementsKeyed(plan);
    AggregateSums(Requirements(plan));
    Shortfalls(Aggregate(Requirements(plan)), Stock(inv))
  }

  // ---------------------------------------------------------------------------
  // Properties
  // ---------------------------------------------------------------------------

  /** Every requirement key holds the underscore between name and unit. */
  lemma {:induction false} RequirementsKeyed(plan: seq<Meal>)
    ensures Keyed(Requirements(plan))
    decreases |plan|
  {
    if |plan| > 0 {
      RequirementsKeyed(plan[..|plan| - 1]);
      var m := MealRequirements(plan[|plan| - 1]);
      var ings := plan[|plan| - 1].ingredients.GetOr([]);
      forall k | 0 <= k < |m| ensures '_' in m[k].0 {
        assert m[k].0 == IngredientKey(ings[k]);
        assert IngredientKey(ings[k])[|Show(ings[k].name)|] == '_';
      }
      var r := Requirements(plan);
      var front := Requirements(plan[..|plan| - 1]);
      forall i | 0 <= i < |r| ensures '_' in r[i].0 {
        if i < |front| {
          assert r[i] == front[i];
        } else {
          assert r[i] == m[i - |front|];
        }
      }
    }
  }

  /**
   * The aggregated requirements hold each required key once, in order of
   * first appearance, with the sum of its quantities; `Keyed` carries over.
   */
  lemma AggregateSums(reqs: Dict)
    ensures DistinctKeys(Aggregate(reqs))
    ensures forall key :: Lookup(Aggregate(reqs), key) == if HasKey(reqs, key) then Some(SumFor(reqs, key)) else None
    ensures Keyed(reqs) ==> Keyed(Aggregate(reqs))
  {
    AggregateDistinct(reqs);
    forall key ensures Lookup(Aggregate(reqs), key) == if HasKey(reqs, key) then Some(SumFor(reqs, key)) else None {
      AggregateLookup(reqs, key);
    }
    if Keyed(reqs) {
      AggregateKeyed(reqs);
    }
  }

  lemma {:induction false} AggregateDistinct(reqs: Dict)
    ensures DistinctKeys(Aggregate(reqs))
    decreases |reqs|
  {
    if |reqs| > 0 {
      var front := reqs[..|reqs| - 1];
      var last := reqs[|reqs| - 1];
      AggregateDistinct(front);
      AddToDistinct(Aggregate(front), last.0, last.1);
    }
  }

  lemma {:induction false} AggregateLookup(reqs: Dict, key: string)
    ensures Lookup(Aggregate(reqs), key) == if HasKey(reqs, key) then Some(SumFor(reqs, key)) else None
    decreases |reqs|
  {
    if |reqs| > 0 {
      var front := reqs[..|reqs| - 1];
      var last := reqs[|reqs| - 1];
      AggregateLookup(front, key);
      AddToLookup(Aggregate(front), last.0, last.1, key);
      if !HasKey(front, key) {
        SumForAbsent(front, key);
      }
      HasKeySnoc(reqs, key);
    }
  }

  /** A key occurs in a non-empty dictionary exactly when it occurs before the last entry or is the last key. */
  lemma HasKeySnoc(reqs: Dict, key: string)
    requires |reqs| > 0
    ensures HasKey(reqs, key) <==> HasKey(reqs[..|reqs| - 1], key) || reqs[|reqs| - 1].0 == key
  {
    var front := reqs[..|reqs| - 1];
    if HasKey(front, key) {
      var i :| 0 <= i < |front| && front[i].0 == key;
      assert reqs[i] == front[i];
    }
    if HasKey(reqs, key) && reqs[|reqs| - 1].0 != key {
      var i :| 0 <= i < |reqs| && reqs[i].0 == key;
      assert front[i] == reqs[i];
    }
  }

  /** The aggregate of keyed requirements is keyed. */
  lemma {:induction false} AggregateKeyed(reqs: Dict)
    requires Keyed(reqs)
    ensures Keyed(Aggregate(reqs))
    decreases |reqs|
  {
    if |reqs| > 0 {
      var front := reqs[..|reqs| - 1];
      var last := reqs[|reqs| - 1];
      assert Keyed(front) by {
        forall i | 0 <= i < |front| ensures '_' in front[i].0 {
          assert front[i] == reqs[i];
        }
      }
      AggregateKeyed(front);
      var a := Aggregate(front);
      var r := Aggregate(reqs);
      forall i | 0 <= i < |r| ensures '_' in r[i].0 {
        if i < |a| {
          assert r[i].0 == a[i].0;
        } else {
          assert r[i] == (last.0, last.1);
        }
      }
    }
  }

  /** A key never required sums to nothing. */
  lemma {:induction false} SumForAbsent(reqs: Dict, key: string)
    requires !HasKey(reqs, key)
    ensures SumFor(reqs, key) == 0.0
    decreases |reqs|
  {
    if |reqs| > 0 {
      var front := reqs[..|reqs| - 1];
      assert !HasKey(front, key) by {
        forall i | 0 <= i < |front| ensures front[i].0 != key {
          assert front[i] == reqs[i];
        }
      }
      SumForAbsent(front, key);
    }
  }

  /** A purchase splits its key back into one it rejoins to, and buys the amount asked. */
  lemma BuyKey(key: string, qty: real)
    requires '_' in key
    ensures KeyOf(Buy(key, qty)) == key && Buy(key, qty).quantity == qty
  {
  }

  /** One more requirement is one more `AddTo`. */
  lemma AggregateSnoc(reqs: Dict, key: string, q: real)
    ensures Aggregate(reqs + [(key, q)]) == AddTo(Aggregate(reqs), key, q)
  {
    assert (reqs + [(key, q)])[..|reqs|] == reqs;
  }

  /** Folding one more requirement of a meal adds it to the running dictionary. */
  lemma AggregateStep(before: Dict, reqs: Dict, j: int)
    requires 0 <= j < |reqs|
    ensures Aggregate(before + reqs[..j + 1]) == AddTo(Aggregate(before + reqs[..j]), reqs[j].0, reqs[j].1)
  {
    assert before + reqs[..j + 1] == (before + reqs[..j]) + [(reqs[j].0, reqs[j].1)];
    AggregateSnoc(before + reqs[..j], reqs[j].0, reqs[j].1);
  }

  /** One more meal appends its requirements. */
  lemma RequirementsSnoc(plan: seq<Meal>, i: int)
    requires 0 <= i < |plan|
    ensures Requirements(plan[..i + 1]) == Requirements(plan[..i]) + MealRequirements(plan[i])
  {
    assert plan[..i + 1][..i] == plan[..i];
  }

  /** `purchase` was bought for the entry of `needed` at some position, for its missing amount. */
  ghost predicate BoughtFor(p: Purchase, needed: Dict, stock: map<string, real>) {
    exists j :: 0 <= j < |needed| && needed[j].1 > OnHand(stock, needed[j].0)
      && p.quantity == needed[j].1 - OnHand(stock, needed[j].0) && KeyOf(p) == needed[j].0
  }

  /** Each purchase is for an entry the stock does not cover, and for its missing amount. */
  lemma {:induction false} ShortfallsSound(needed: Dict, stock: map<string, real>)
    requires Keyed(needed)
    ensures forall i :: 0 <= i < |Shortfalls(needed, stock)| ==> BoughtFor(Shortfalls(needed, stock)[i], needed, stock)
    decreases |needed|
  {
    if |needed| > 0 {
      var front := needed[..|needed| - 1];
      var last := needed[|needed| - 1];
      assert Keyed(front) by {
        forall i | 0 <= i < |front| ensures '_' in front[i].0 {
          assert front[i] == needed[i];
        }
      }
      ShortfallsSound(front, stock);
      var r := Shortfalls(needed, stock);
      var rf := Shortfalls(front, stock);
      forall i | 0 <= i < |r| ensures BoughtFor(r[i], needed, stock) {
        if i < |rf| {
          assert r[i] == rf[i];
          assert BoughtFor(rf[i], front, stock);
          var j :| 0 <= j < |front| && front[j].1 > OnHand(stock, front[j].0)
            && rf[i].quantity == front[j].1 - OnHand(stock, front[j].0) && KeyOf(rf[i]) == front[j].0;
          assert needed[j] == front[j];
        } else {
          BuyKey(last.0, last.1 - OnHand(stock, last.0));
          assert r[i] == Buy(last.0, last.1 - OnHand(stock, last.0));
        }
      }
    }
  }

  /** Some purchase of `list` is for `key`. */
  ghost predicate Covers(list: seq<Purchase>, key: string) {
    exists i :: 0 <= i < |list| && KeyOf(list[i]) == key
  }

  /** Every entry the stock does not cover gets a purchase. */
  lemma {:induction false} ShortfallsComplete(needed: Dict, stock: map<string, real>)
    requires Keyed(needed)
    ensures forall j :: 0 <= j < |needed| && needed[j].1 > OnHand(stock, needed[j].0) ==>
      Covers(Shortfalls(needed, stock), needed[j].0)
    decreases |needed|
  {
    if |needed| > 0 {
      var front := needed[..|needed| - 1];
      var last := needed[|needed| - 1];
      assert Keyed(front) by {
        forall i | 0 <= i < |front| ensures '_' in front[i].0 {
          assert front[i] == needed[i];
        }
      }
      ShortfallsComplete(front, stock);
      var r := Shortfalls(needed, stock);
      var rf := Shortfalls(front, stock);
      assert |r| >= |rf| && r[..|rf|] == rf;
      forall j | 0 <= j < |needed| && needed[j].1 > OnHand(stock, needed[j].0)
        ensures Covers(r, needed[j].0)
      {
        if j < |front| {
          assert front[j] == needed[j];
          assert Covers(rf, front[j].0);
          var i :| 0 <= i < |rf| && KeyOf(rf[i]) == front[j].0;
          assert r[i] == rf[i];
        } else {
          assert needed[j] == last;
          BuyKey(last.0, last.1 - OnHand(stock, last.0));
          assert r == rf + [Buy(last.0, last.1 - OnHand(stock, last.0))];
          assert KeyOf(r[|rf|]) == needed[j].0;
        }
      }
    }
  }
  /** Purchases come from distinct entries, so no key is bought twice. */
  lemma {:induction false} ShortfallsDistinct(needed: Dict, stock: map<string, real>)
    requires Keyed(needed) && DistinctKeys(needed)
    ensures forall a, b :: 0 <= a < b < |Shortfalls(needed, stock)| ==>
      KeyOf(Shortfalls(needed, stock)[a]) != KeyOf(Shortfalls(needed, stock)[b])
    decreases |needed|
  {
    if |needed| > 0 {
      var front := needed[..|needed| - 1];
      var last := needed[|needed| - 1];
      assert Keyed(front) && DistinctKeys(front) by {
        forall i | 0 <= i < |front| ensures front[i] == needed[i] {
        }
      }
      ShortfallsDistinct(front, stock);
      ShortfallsSound(front, stock);
      var r := Shortfalls(needed, stock);
      var rf := Shortfalls(front, stock);
      assert |r| >= |rf| && r[..|rf|] == rf;
      forall a, b | 0 <= a < b < |r| ensures KeyOf(r[a]) != KeyOf(r[b]) {
        if b < |rf| {
          assert r[a] == rf[a] && r[b] == rf[b];
        } else {
          BuyKey(last.0, last.1 - OnHand(stock, last.0));
          assert r == rf + [Buy(last.0, last.1 - OnHand(stock, last.0))];
          assert r[a] == rf[a];
          assert BoughtFor(rf[a], front, stock);
          var j :| 0 <= j < |front| && front[j].1 > OnHand(stock, front[j].0)
            && rf[a].quantity == front[j].1 - OnHand(stock, front[j].0) && KeyOf(rf[a]) == front[j].0;
          assert front[j] == needed[j];
        }
      }
    }
  }

  /**
   * `create_shopping_list`: every line is for a key the plan requires, for
   * the required total less what the fridge holds, and only when the total
   * exceeds it; every such key gets a line, and no key gets two.
   */
  lemma ShoppingListMeaning(plan: seq<Meal>, inv: seq<StockItem>)
    ensures forall i :: 0 <= i < |ShoppingList(plan, inv)| ==>
      && HasKey(Requirements(plan), KeyOf(ShoppingList(plan, inv)[i]))
      && SumFor(Requirements(plan), KeyOf(ShoppingList(plan, inv)[i])) > OnHand(Stock(inv), KeyOf(ShoppingList(plan, inv)[i]))
      && ShoppingList(plan, inv)[i].quantity ==
           SumFor(Requirements(plan), KeyOf(ShoppingList(plan, inv)[i])) - OnHand(Stock(inv), KeyOf(ShoppingList(plan, inv)[i]))
    ensures forall key :: HasKey(Requirements(plan), key) && SumFor(Requirements(plan), key) > OnHand(Stock(inv), key) ==>
      Covers(ShoppingList(plan, inv), key)
    ensures forall a, b :: 0 <= a < b < |ShoppingList(plan, inv)| ==>
      KeyOf(ShoppingList(plan, inv)[a]) != KeyOf(ShoppingList(plan, inv)[b])
  {
    var reqs := Requirements(plan);
    RequirementsKeyed(plan);
    AggregateSums(reqs);
    var needed := Aggregate(reqs);
    var stock := Stock(inv);
    var list := ShoppingList(plan, inv);
    assert list == Shortfalls(needed, stock);
    ShortfallsSound(needed, stock);
    ShortfallsComplete(needed, stock);
    ShortfallsDistinct(needed, stock);
    forall i | 0 <= i < |list|
      ensures HasKey(reqs, KeyOf(list[i])) && SumFor(reqs, KeyOf(list[i])) > OnHand(stock, KeyOf(list[i]))
      ensures list[i].quantity == SumFor(reqs, KeyOf(list[i])) - OnHand(stock, KeyOf(list[i]))
    {
      assert BoughtFor(list[i], needed, stock);
      var j :| 0 <= j < |needed| && needed[j].1 > OnHand(stock, needed[j].0)
        && list[i].quantity == needed[j].1 - OnHand(stock, needed[j].0) && KeyOf(list[i]) == needed[j].0;
      LookupAt(needed, j);
      LookupHasKey(needed, needed[j].0);
    }
    forall key | HasKey(reqs, key) && SumFor(reqs, key) > OnHand(stock, key) ensures Covers(list, key) {
      LookupFound(needed, key);
      var j :| 0 <= j < |needed| && needed[j] == (key, Lookup(needed, key).value);
    }
  }

  /** Stock keeps the quantity of the last inventory entry with each key. */
  lemma {:induction false} StockLastWins(inv: seq<StockItem>, i: int)
    requires 0 <= i < |inv|
    requires forall j :: i < j < |inv| ==> StockKey(inv[j]) != StockKey(inv[i])
    ensures OnHand(Stock(inv), StockKey(inv[i])) == inv[i].quantity.GetOr(0.0)
    decreases |inv|
  {
    if i < |inv| - 1 {
      var front := inv[..|inv| - 1];
      assert front[i] == inv[i];
      StockLastWins(front, i);
    }
  }

  /** A key no inventory entry has is not in stock. */
  lemma {:induction false} StockAbsent(inv: seq<StockItem>, key: string)
    requires forall j :: 0 <= j < |inv| ==> StockKey(inv[j]) != key
    ensures OnHand(Stock(inv), key) == 0.0
    decreases |inv|
  {
    if |inv| > 0 {
      var front := inv[..|inv| - 1];
      assert forall j :: 0 <= j < |front| ==> front[j] == inv[j];
      StockAbsent(front, key);
    }
  }

  /** Splitting a key gives back the ingredient's name and unit whenever the unit has no underscore. */
  lemma KeyRoundTrip(g: Ingredient)
    requires '_' !in g.unit.GetOr("g")
    ensures SplitKey(IngredientKey(g)) == (Show(g.name), g.unit.GetOr("g"))
  {
    var n := Show(g.name);
    var u := g.unit.GetOr("g");
    var key := IngredientKey(g);
    assert key[|n|] == '_';
    var p := LastIndex(key, '_').value;
    assert key[..p] == n;
    assert key[p + 1..] == u;
  }

  /** A unit with an underscore is split at its own underscore: 200 fl_oz of milk is bought as "milk_fl" in "oz". */
  lemma UnderscoreInUnit()
    ensures SplitKey(IngredientKey(Ingredient(Some("milk"), Some(200.0), Some("fl_oz")))) == ("milk_fl", "oz")
  {
    var key := IngredientKey(Ingredient(Some("milk"), Some(200.0), Some("fl_oz")));
    assert key == "milk_fl_oz";
    assert key[7] == '_' && key[8] == 'o' && key[9] == 'z';
    assert LastIndex(key, '_') == Some(7);
    assert key[..7] == "milk_fl" && key[8..] == "oz";
  }

  /** The lunch plan of the usage example: 300 g chicken, 200 g rice, 150 g tomatoes. */
  const ExamplePlan: seq<Meal> := [Meal(Some([
    Ingredient(Some("Chicken breast"), Some(300.0), Some("g")),
    Ingredient(Some("Rice"), Some(200.0), Some("g")),
    Ingredient(Some("Tomatoes"), Some(150.0), Some("g"))]))]

  /** The fridge of the usage example: 600 g chicken and 100 g rice. */
  const ExampleFridge: seq<StockItem> := [
    StockItem(Some("Chicken breast"), Some(600.0), Some("g")),
    StockItem(Some("Rice"), Some(100.0), Some("g"))]

  /** The lunch requires each of its three ingredients once. */
  lemma ExampleRequirements()
    ensures Requirements(ExamplePlan) == [("Chicken breast_g", 300.0), ("Rice_g", 200.0), ("Tomatoes_g", 150.0)]
  {
    var m := MealRequirements(ExamplePlan[0]);
    var ings := ExamplePlan[0].ingredients.value;
    assert IngredientKey(ings[0]) == "Chicken breast_g";
    assert IngredientKey(ings[1]) == "Rice_g";
    assert IngredientKey(ings[2]) == "Tomatoes_g";
    assert ExamplePlan[..0] == [];
  }

  /** Three distinct keys aggregate to themselves, in order. */
  lemma ExampleAggregate()
    ensures Aggregate([("Chicken breast_g", 300.0), ("Rice_g", 200.0), ("Tomatoes_g", 150.0)]) ==
      [("Chicken breast_g", 300.0), ("Rice_g", 200.0), ("Tomatoes_g", 150.0)]
  {
    var reqs: Dict := [("Chicken breast_g", 300.0), ("Rice_g", 200.0), ("Tomatoes_g", 150.0)];
    var one: Dict := [reqs[0]];
    var two: Dict := [reqs[0], reqs[1]];
    assert reqs[..2] == two && two[..1] == one && one[..0] == [];
    assert Aggregate(one) == one;
    assert AddTo(one, "Rice_g", 200.0) == two;
    assert Aggregate(two) == two;
    assert two[1..] == [reqs[1]];
    assert AddTo([reqs[1]], "Tomatoes_g", 150.0) == [reqs[1], reqs[2]];
    assert AddTo(two, "Tomatoes_g", 150.0) == reqs;
  }

  /** The fridge holds 600 g chicken and 100 g rice. */
  lemma ExampleStock()
    ensures Stock(ExampleFridge) == map["Chicken breast_g" := 600.0, "Rice_g" := 100.0]
  {
    assert ExampleFridge[..1] == [ExampleFridge[0]];
    assert [ExampleFridge[0]][..0] == [];
    assert StockKey(ExampleFridge[0]) == "Chicken breast_g";
    assert StockKey(ExampleFridge[1]) == "Rice_g";
    assert Stock([ExampleFridge[0]]) == map["Chicken breast_g" := 600.0];
  }

  /** The example's keys split back into their names and grams. */
  lemma ExampleBuys()
    ensures Keyed([("Chicken breast_g", 300.0), ("Rice_g", 200.0), ("Tomatoes_g", 150.0)])
    ensures Buy("Rice_g", 100.0) == Purchase("Rice", 100.0, "g")
    ensures Buy("Tomatoes_g", 150.0) == Purchase("Tomatoes", 150.0, "g")
  {
    assert "Chicken breast_g"[14] == '_' && "Rice_g"[4] == '_' && "Tomatoes_g"[8] == '_';
    assert "Rice_g"[5] == 'g' && "Tomatoes_g"[9] == 'g';
    assert LastIndex("Rice_g", '_') == Some(4);
    assert LastIndex("Tomatoes_g", '_') == Some(8);
  }

  /** Against that stock, rice is 100 g short and tomatoes 150 g. */
  lemma ExampleShortfalls()
    ensures Keyed([("Chicken breast_g", 300.0), ("Rice_g", 200.0), ("Tomatoes_g", 150.0)])
    ensures Shortfalls([("Chicken breast_g", 300.0), ("Rice_g", 200.0), ("Tomatoes_g", 150.0)],
                       map["Chicken breast_g" := 600.0, "Rice_g" := 100.0]) ==
      [Purchase("Rice", 100.0, "g"), Purchase("Tomatoes", 150.0, "g")]
  {
    ExampleBuys();
    var reqs: Dict := [("Chicken breast_g", 300.0), ("Rice_g", 200.0), ("Tomatoes_g", 150.0)];
    var stock := map["Chicken breast_g" := 600.0, "Rice_g" := 100.0];
    var two: Dict := [reqs[0], reqs[1]];
    assert reqs[..2] == two && two[..1] == [reqs[0]] && [reqs[0]][..0] == [];
    assert Shortfalls([reqs[0]], stock) == [];
    assert Shortfalls(two, stock) == [Purchase("Rice", 100.0, "g")];
  }

  /** With that fridge, the lunch needs 100 g more rice and all 150 g of tomatoes. */
  lemma ExampleShoppingList()
    ensures ShoppingList(ExamplePlan, ExampleFridge) == [Purchase("Rice", 100.0, "g"), Purchase("Tomatoes", 150.0, "g")]
  {
    ExampleRequirements();
    ExampleAggregate();
    ExampleStock();
    ExampleShortfalls();
  }
}
