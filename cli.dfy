/**
 * The `calculate meal` command: parsing the user's comma-separated choice of
 * fridge items, building a food entry for each chosen item whose quantity
 * was given, and analysing the meal. The prompts are inputs: the selection
 * text, and the answer to the quantity prompt for the i-th chosen item, which
 * is a number or nothing when the prompt was aborted (the prompt itself asks
 * again until it reads a number).
 */
module Cli {
  import opened Wrappers
  import opened Text
  import opened FridgeDb
  import opened Dicts
  import opened NutritionCalculator

  // ---------------------------------------------------------------------------
  // Python's int() on a token
  // ---------------------------------------------------------------------------

  /** Digits where single underscores may separate two digits, as `int` accepts them. */
  predicate Numeral(s: string) {
    && |s| > 0 && IsDigit(s[0]) && IsDigit(s[|s| - 1])
    && (forall i :: 0 <= i < |s| ==> IsDigit(s[i]) || s[i] == '_')
    && (forall i :: 0 <= i < |s| - 1 && s[i] == '_' ==> s[i + 1] != '_')
  }

  /** The digits of `s` without its underscores. */
  function Digits(s: string): (r: string)
    requires forall i :: 0 <= i < |s| ==> IsDigit(s[i]) || s[i] == '_'
    ensures AllDigits(r) && |r| <= |s|
  {
    if |s| == 0 then ""
    else
      var front := Digits(s[..|s| - 1]);
      if s[|s| - 1] == '_' then front else front + [s[|s| - 1]]
  }

  /** The value of a numeral; anything else is not a number. */
  function Magnitude(body: string): (r: Option<nat>)
    ensures r.Some? ==> Numeral(body)
  {
    if Numeral(body) then Some(DigitsValue(Digits(body))) else None
  }

  /** `int(s)` for a stripped string: an optional sign, then a numeral; anything else raises. */
  function ParseInt(s: string): (r: Option<int>)
    ensures r.Some? ==> HasDigit(s)
  {
    if |s| > 0 && (s[0] == '-' || s[0] == '+') then
      match Magnitude(s[1..])
      case None => None
      case Some(m) =>
        assert IsDigit(s[1]) by { assert s[1] == s[1..][0]; }
        Some(if s[0] == '-' then -(m as int) else m)
    else
      match Magnitude(s)
      case None => None
      case Some(m) => Some(m)
  }

  // ---------------------------------------------------------------------------
  // The selection
  // ---------------------------------------------------------------------------

  /** The 0-based index a token names: the integer it holds, less one. */
  function TokenIndex(token: string): (r: Option<int>)
    ensures r.Some? ==> HasDigit(Strip(token))
  {
    match ParseInt(Strip(token))
    case None => None
    case Some(n) => Some(n - 1)
  }

  /** Every token's value, or nothing when some token has none: the list comprehension, which raises at the first failure. */
  function AllOf<T>(tokens: seq<string>, f: string -> Option<T>): (r: Option<seq<T>>)
    ensures r.Some? ==> |r.value| == |tokens|
  {
    if |tokens| == 0 then Some([])
    else
      match AllOf(tokens[..|tokens| - 1], f)
      case None => None
      case Some(front) =>
        match f(tokens[|tokens| - 1])
        case None => None
        case Some(x) => Some(front + [x])
  }

  /** The 0-based index each token names, or nothing when some token is not an integer. */
  function Indices(tokens: seq<string>): Option<seq<int>> {
    AllOf(tokens, TokenIndex)
  }

  /** `[items[i] for i in indices if 0 <= i < len(items)]`. */
  function Pick(items: seq<FoodItem>, indices: seq<int>): (r: seq<FoodItem>)
    ensures |r| <= |indices|
  {
    if |indices| == 0 then []
    else
      var front := Pick(items, indices[..|indices| - 1]);
      var i := indices[|indices| - 1];
      if 0 <= i < |items| then front + [items[i]] else front
  }

  /** Why a meal is not analysed. */
  datatype MealError = EmptyFridge | InvalidSelection

  /** The items chosen by `selection`, or the rejection of a selection with a token that is not an integer. */
  function ParseSelection(items: seq<FoodItem>, selection: string): (r: Result<seq<FoodItem>, MealError>)
    ensures r.Failure? ==> r.error == InvalidSelection
    ensures r.Success? ==> |r.value| <= |Split(selection, ',')|
  {
    match Indices(Split(selection, ','))
    case None => Failure(InvalidSelection)
    case Some(indices) => Success(Pick(items, indices))
  }

  // ---------------------------------------------------------------------------
  // Food entries
  // ---------------------------------------------------------------------------

  /** `value or 0` for a nullable column. */
  function OrZero(v: Option<real>): real {
    if v.Some? then v.value else 0.0
  }

  /** The entry for an item and the grams entered for it. */
  function Entry(item: FoodItem, quantity: real): (r: Food)
    ensures r.name == item.name
    ensures r.fields.Keys == {"quantity", "calories", "protein", "carbs", "fats"} && r.fields["quantity"] == quantity
  {
    Food(item.name, map[
      "quantity" := quantity,
      "calories" := OrZero(item.calories),
      "protein" := OrZero(item.protein),
      "carbs" := OrZero(item.carbs),
      "fats" := OrZero(item.fats)])
  }

  /** The entries for the chosen items whose quantity prompt was answered. */
  function Entries(chosen: seq<FoodItem>, answer: nat -> Option<real>): (r: seq<Food>)
    ensures |r| <= |chosen|
  {
    if |chosen| == 0 then []
    else
      var n := |chosen| - 1;
      var front := Entries(chosen[..n], answer);
      match answer(n)
      case None => front
      case Some(q) => front + [Entry(chosen[n], q)]
  }

  /** The quantity loop: asks for each chosen item in turn and skips it when the prompt is aborted. */
  method CollectEntries(chosen: seq<FoodItem>, answer: nat -> Option<real>) returns (foods: seq<Food>)
    ensures foods == Entries(chosen, answer)
  {
    foods := [];
    for i := 0 to |chosen|
      invariant foods == Entries(chosen[..i], answer)
    {
      assert chosen[..i + 1][..i] == chosen[..i];
      var qty := answer(i);
      if qty.Some? {
        foods := foods + [Entry(chosen[i], qty.value)];
      }
    }
    assert chosen[..|chosen|] == chosen;
  }

  /** `calculate_meal` without its output: the balance of the meal, or why there is none. */
  method CalculateMeal(items: seq<FoodItem>, selection: string, answer: nat -> Option<real>)
    returns (outcome: Result<Option<Balance>, MealError>)
    ensures |items| == 0 ==> outcome == Failure(EmptyFridge)
    ensures |items| > 0 ==> match ParseSelection(items, selection)
      case Failure(e) => outcome == Failure(e)
      case Success(chosen) =>
        var foods := Entries(chosen, answer);
        outcome == Success(if |foods| == 0 then None else Some(DefaultBalance(foods)))
  {
    if |items| == 0 {
      return Failure(EmptyFridge);
    }
    var parsed := ParseSelection(items, selection);
    if parsed.Failure? {
      return Failure(parsed.error);
    }
    var foods := CollectEntries(parsed.value, answer);
    if |foods| == 0 {
      return Success(None);
    }
    var calculator := new Calculator(None);
    DefaultNeedsNonZero();
    var balance := calculator.MealBalance(foods);
    return Success(Some(balance.value));
  }

  /** The balance a calculator with the default needs reports. */
  function DefaultBalance(foods: seq<Food>): Balance
    requires NonZeroNeeds(DefaultNeeds)
  {
    Balance(Totals(foods), Percentages(DefaultNeeds, foods), DefaultNeeds,
      IsBalanced(Percentages(DefaultNeeds, foods), DefaultTolerance))
  }

  // ---------------------------------------------------------------------------
  // Properties
  // ---------------------------------------------------------------------------

  /** No meal nutrient has a default need of zero, so a default calculator never fails. */
  lemma DefaultNeedsNonZero()
    ensures NonZeroNeeds(DefaultNeeds)
  {
    assert Lookup(DefaultNeeds, "calories") == Some(2000.0);
    assert DefaultNeeds[1..][1..] == [("carbs", 275.0), ("fats", 70.0), ("fiber", 25.0)];
    assert Lookup(DefaultNeeds, "protein") == Some(50.0);
    assert Lookup(DefaultNeeds, "carbs") == Some(275.0);
    assert Lookup(DefaultNeeds, "fats") == Some(70.0);
  }

  /** A decimal rendering parses back to its number, with or without a sign. */
  lemma {:induction false} ParseIntRoundTrip(n: nat)
    ensures ParseInt(NatToDigits(n)) == Some(n)
    ensures ParseInt("-" + NatToDigits(n)) == Some(-(n as int))
    ensures ParseInt("+" + NatToDigits(n)) == Some(n)
  {
    DigitsRoundTrip(n);
    MagnitudeOfDigits(NatToDigits(n));
    SignedForms(NatToDigits(n), n);
  }

  /** A numeral parses to its value, with or without a sign. */
  lemma SignedForms(d: string, m: nat)
    requires Magnitude(d) == Some(m)
    ensures ParseInt(d) == Some(m)
    ensures ParseInt("-" + d) == Some(-(m as int))
    ensures ParseInt("+" + d) == Some(m)
  {
    assert ("-" + d)[0] == '-' && ("-" + d)[1..] == d;
    assert ("+" + d)[0] == '+' && ("+" + d)[1..] == d;
  }

  lemma MagnitudeOfDigits(d: string)
    requires |d| > 0 && AllDigits(d)
    ensures Magnitude(d) == Some(DigitsValue(d))
  {
    DigitsOnly(d);
  }

  /** A string of digits has no underscores to drop. */
  lemma {:induction false} DigitsOnly(d: string)
    requires |d| > 0 && AllDigits(d)
    ensures Numeral(d) && Digits(d) == d
    decreases |d|
  {
    if |d| > 1 {
      DigitsOnly(d[..|d| - 1]);
      assert d == d[..|d| - 1] + [d[|d| - 1]];
    }
  }

  /** Texts `int` rejects: an empty token, a bare sign, a doubled or trailing underscore, a letter. */
  lemma NotIntegers()
    ensures ParseInt("") == None
    ensures ParseInt("-") == None
    ensures ParseInt("1__0") == None
    ensures ParseInt("1_") == None
    ensures ParseInt("x") == None
  {
    assert "-"[1..] == "";
    assert "1__0"[1] == '_' && "1__0"[2] == '_';
  }

  /** An underscore between digits is accepted and ignored. */
  lemma UnderscoreGrouping()
    ensures ParseInt("1_0") == Some(10)
  {
    GroupedMagnitude();
    SignedForms("1_0", 10);
  }

  lemma GroupedMagnitude()
    ensures Magnitude("1_0") == Some(10)
  {
    GroupedDigits();
    TenValue();
  }

  lemma GroupedDigits()
    ensures Numeral("1_0") && Digits("1_0") == "10"
  {
    assert "1_0"[..2] == "1_" && "1_"[..1] == "1" && "1"[..0] == "";
  }

  lemma TenValue()
    ensures DigitsValue("10") == 10
  {
    assert "10"[..1] == "1" && "1"[..0] == "";
  }

  /** Parsing works token by token: the values of a list are those of its parts. */
  lemma {:induction false} AllOfAppend<T>(a: seq<string>, b: seq<string>, f: string -> Option<T>)
    ensures AllOf(a + b, f).Some? <==> AllOf(a, f).Some? && AllOf(b, f).Some?
    ensures AllOf(a + b, f).Some? ==> AllOf(a + b, f).value == AllOf(a, f).value + AllOf(b, f).value
    decreases |b|
  {
    if |b| == 0 {
      assert a + b == a;
    } else {
      var n := |b| - 1;
      var b' := b[..n];
      assert (a + b)[..|a + b| - 1] == a + b';
      assert (a + b)[|a + b| - 1] == b[n];
      AllOfAppend(a, b', f);
      if AllOf(a + b, f).Some? {
        var x := f(b[n]).value;
        assert AllOf(a, f).value + (AllOf(b', f).value + [x]) == (AllOf(a, f).value + AllOf(b', f).value) + [x];
      }
    }
  }

  /** There are values exactly when every token has one, and then they are the tokens' values in order. */
  lemma {:induction false} AllOfMeaning<T>(tokens: seq<string>, f: string -> Option<T>)
    ensures AllOf(tokens, f).Some? <==> forall k :: 0 <= k < |tokens| ==> f(tokens[k]).Some?
    ensures AllOf(tokens, f).Some? ==>
      forall k :: 0 <= k < |tokens| ==> AllOf(tokens, f).value[k] == f(tokens[k]).value
    decreases |tokens|
  {
    if |tokens| > 0 {
      var n := |tokens| - 1;
      var front := tokens[..n];
      AllOfMeaning(front, f);
      assert forall k :: 0 <= k < n ==> front[k] == tokens[k];
      if AllOf(front, f).None? {
        var k :| 0 <= k < n && f(front[k]).None?;
        assert f(tokens[k]).None?;
      }
    }
  }

  /** The indices are the tokens' integers less one, in the tokens' order. */
  lemma IndicesMeaning(tokens: seq<string>)
    ensures Indices(tokens).Some? <==> forall k :: 0 <= k < |tokens| ==> ParseInt(Strip(tokens[k])).Some?
    ensures Indices(tokens).Some? ==>
      forall k :: 0 <= k < |tokens| ==> Indices(tokens).value[k] == ParseInt(Strip(tokens[k])).value - 1
  {
    AllOfMeaning(tokens, TokenIndex);
  }

  /** A selection with a token that is not an integer is rejected as a whole. */
  lemma InvalidTokenRejects(items: seq<FoodItem>, selection: string, k: int)
    requires 0 <= k < |Split(selection, ',')| && ParseInt(Strip(Split(selection, ',')[k])).None?
    ensures ParseSelection(items, selection) == Failure(InvalidSelection)
  {
    IndicesMeaning(Split(selection, ','));
  }

  /** Picking works index by index. */
  lemma {:induction false} PickAppend(items: seq<FoodItem>, a: seq<int>, b: seq<int>)
    ensures Pick(items, a + b) == Pick(items, a) + Pick(items, b)
    decreases |b|
  {
    if |b| == 0 {
      assert a + b == a;
    } else {
      var b' := b[..|b| - 1];
      assert (a + b)[..|a + b| - 1] == a + b';
      PickAppend(items, a, b');
    }
  }

  /** Every index in range picks its item, in order and with repeats; every other index is dropped. */
  lemma PickInRange(items: seq<FoodItem>, indices: seq<int>)
    requires forall k :: 0 <= k < |indices| ==> 0 <= indices[k] < |items|
    ensures var r := Pick(items, indices);
      |r| == |indices| && forall k :: 0 <= k < |indices| ==> r[k] == items[indices[k]]
  {
    PickInRangeAux(items, indices);
  }

  lemma {:induction false} PickInRangeAux(items: seq<FoodItem>, indices: seq<int>)
    requires forall k :: 0 <= k < |indices| ==> 0 <= indices[k] < |items|
    ensures |Pick(items, indices)| == |indices|
    ensures forall k :: 0 <= k < |indices| ==> Pick(items, indices)[k] == items[indices[k]]
    decreases |indices|
  {
    if |indices| > 0 {
      var front := indices[..|indices| - 1];
      assert forall k :: 0 <= k < |front| ==> front[k] == indices[k];
      PickInRangeAux(items, front);
    }
  }

  /** An index out of range adds nothing. */
  lemma PickOutOfRange(items: seq<FoodItem>, indices: seq<int>, i: int)
    requires i < 0 || i >= |items|
    ensures Pick(items, indices + [i]) == Pick(items, indices)
  {
    assert (indices + [i])[..|indices|] == indices;
  }

  /** A chosen item always comes from the fridge. */
  lemma {:induction false} PickFromItems(items: seq<FoodItem>, indices: seq<int>)
    ensures forall x :: x in Pick(items, indices) ==> x in items
    decreases |indices|
  {
    if |indices| > 0 {
      PickFromItems(items, indices[..|indices| - 1]);
    }
  }

  /** Each entry copies its item's name and entered quantity, with missing nutrients as 0. */
  lemma EntryFields(item: FoodItem, quantity: real)
    ensures var e := Entry(item, quantity);
      && e.name == item.name
      && Get(e, "quantity") == quantity
      && Get(e, "calories") == (if item.calories.Some? then item.calories.value else 0.0)
      && Get(e, "protein") == (if item.protein.Some? then item.protein.value else 0.0)
      && Get(e, "carbs") == (if item.carbs.Some? then item.carbs.value else 0.0)
      && Get(e, "fats") == (if item.fats.Some? then item.fats.value else 0.0)
  {
  }

  /** Every answered prompt gives an entry: with all answers given, there is one entry per chosen item. */
  lemma {:induction false} AllAnswered(chosen: seq<FoodItem>, answer: nat -> Option<real>)
    requires forall i: nat :: i < |chosen| ==> answer(i).Some?
    ensures |Entries(chosen, answer)| == |chosen|
    ensures forall i :: 0 <= i < |chosen| ==> Entries(chosen, answer)[i] == Entry(chosen[i], answer(i).value)
    decreases |chosen|
  {
    if |chosen| > 0 {
      var front := chosen[..|chosen| - 1];
      assert forall i :: 0 <= i < |front| ==> front[i] == chosen[i];
      AllAnswered(front, answer);
    }
  }

  /** With no answered prompt there is no meal to analyse. */
  lemma {:induction false} NoneAnswered(chosen: seq<FoodItem>, answer: nat -> Option<real>)
    requires forall i: nat :: i < |chosen| ==> answer(i).None?
    ensures Entries(chosen, answer) == []
    decreases |chosen|
  {
    if |chosen| > 0 {
      NoneAnswered(chosen[..|chosen| - 1], answer);
    }
  }
}
