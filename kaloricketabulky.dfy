/**
 * The parsing logic of the kaloricketabulky.cz scraper: reading the first
 * number out of a cell text, mapping the Czech and English row labels of a
 * nutrition table to fields, finding a food's id on its element, building a
 * food item, walking a category listing up to a limit, and the header of the
 * CSV export. Fetching pages and locating elements stay outside: elements,
 * cell texts and table rows are inputs.
 */
module KalorickeTabulky {
  import opened Wrappers
  import opened Text
  import opened Records

  // ---------------------------------------------------------------------------
  // The first number in a text
  // ---------------------------------------------------------------------------

  /** `text.replace(',', '.').replace(' ', '')`. */
  function Normalise(s: string): (r: string)
    ensures |r| <= |s|
    ensures forall i :: 0 <= i < |r| ==> r[i] != ',' && r[i] != ' '
  {
    if |s| == 0 then ""
    else
      var c := s[|s| - 1];
      Normalise(s[..|s| - 1]) + (if c == ',' then "." else if c == ' ' then "" else [c])
  }

  /** The number of digits at the front of `s`. */
  function DigitRun(s: string): (n: nat)
    ensures n <= |s| && AllDigits(s[..n])
    ensures n < |s| ==> !IsDigit(s[n])
  {
    if |s| > 0 && IsDigit(s[0]) then
      var n := 1 + DigitRun(s[1..]);
      assert s[..n] == [s[0]] + s[1..][..n - 1];
      n
    else 0
  }

  /** The position of the first digit of `s`, if any. */
  function FirstDigit(s: string): (r: Option<nat>)
    ensures r.Some? ==> r.value < |s| && IsDigit(s[r.value]) && forall j :: 0 <= j < r.value ==> !IsDigit(s[j])
    ensures r.None? <==> !HasDigit(s)
  {
    if |s| == 0 then None
    else if IsDigit(s[0]) then Some(0)
    else match FirstDigit(s[1..]) {
      case None =>
        assert forall j :: 1 <= j < |s| ==> s[j] == s[1..][j - 1];
        None
      case Some(k) =>
        assert s[k + 1] == s[1..][k];
        Some(k + 1)
    }
  }

  /**
   * `float` of the match of `\d+\.?\d*` at the front of `t`: the digits, and
   * when a point follows them, the digits after the point as the fraction.
   */
  function LeadingValue(t: string): real
    requires |t| > 0 && IsDigit(t[0])
  {
    var w := DigitRun(t);
    if w < |t| && t[w] == '.' then
      var after := t[w + 1..];
      DecimalValue(t[..w], after[..DigitRun(after)])
    else DigitsValue(t[..w]) as real
  }

  /** `_extract_number_from_text`: the value of the leftmost number, 0.0 when there is none. */
  function ExtractNumber(text: string): (v: real)
    ensures v >= 0.0
  {
    var t := Normalise(text);
    match FirstDigit(t)
    case None => 0.0
    case Some(p) => LeadingValue(t[p..])
  }

  // ---------------------------------------------------------------------------
  // Row labels
  // ---------------------------------------------------------------------------

  /** The fields of the nutrition dictionary besides the name. */
  datatype Field = Calories | Protein | Carbs | Fats | Fiber | Sugars | Salt

  /** The key of each field in the dictionary. */
  function FieldName(f: Field): string {
    match f
    case Calories => "calories"
    case Protein => "protein"
    case Carbs => "carbs"
    case Fats => "fats"
    case Fiber => "fiber"
    case Sugars => "sugars"
    case Salt => "salt"
  }

  /** One branch of the label chain: its field, the words any of which selects it, and the words that must be absent. */
  datatype Rule = Rule(field: Field, anyOf: seq<string>, noneOf: seq<string>)

  /** The branches in the order the chain tries them. */
  const Rules: seq<Rule> := [
    Rule(Calories, ["energie", "kalorie"], []),
    Rule(Protein, ["b\U{ED}lkovin", "protein"], []),
    Rule(Carbs, ["sacharid", "carbohydrate"], []),
    Rule(Fats, ["tuk"], ["nenasycen"]),
    Rule(Fiber, ["vl\U{E1}knina", "fiber"], []),
    Rule(Sugars, ["cukr", "sugar"], []),
    Rule(Salt, ["s\U{16F}l", "salt", "sod\U{ED}k"], [])
  ]

  /** Some word of `words` occurs in `label`. */
  predicate ContainsAny(heading: string, words: seq<string>) {
    |words| > 0 && (Contains(heading, words[0]) || ContainsAny(heading, words[1..]))
  }

  predicate Matches(r: Rule, heading: string) {
    ContainsAny(heading, r.anyOf) && !ContainsAny(heading, r.noneOf)
  }

  /** The field of the first rule that matches. */
  function FirstMatch(rules: seq<Rule>, heading: string): Option<Field> {
    if |rules| == 0 then None
    else if Matches(rules[0], heading) then Some(rules[0].field)
    else FirstMatch(rules[1..], heading)
  }

  /** The field a cleaned label selects, if any. */
  function Classify(heading: string): (r: Option<Field>)
    ensures r.Some? ==> exists i :: FirstMatchAt(Rules, heading, i) && Rules[i].field == r.value
  {
    if FirstMatch(Rules, heading).Some? then FirstMatchOrigin(Rules, heading); FirstMatch(Rules, heading)
    else None
  }

  // ---------------------------------------------------------------------------
  // The nutrition table
  // ---------------------------------------------------------------------------

  /** A row's label: its first cell's text stripped and lower-cased. */
  function Label(row: seq<string>): string
    requires |row| > 0
  {
    Lower(Strip(row[0]))
  }

  /** A row's value: the number in its second cell's stripped text. */
  function RowValue(row: seq<string>): real
    requires |row| > 1
  {
    ExtractNumber(Strip(row[1]))
  }

  /** The field a row sets: none for a row of fewer than two cells or a label no rule matches. */
  function RowField(row: seq<string>): Option<Field> {
    if |row| < 2 then None else Classify(Label(row))
  }

  /** The dictionary `_parse_nutrition_table` returns. */
  datatype Nutrition = Nutrition(name: string, values: map<Field, real>)

  const Zeroes: map<Field, real> :=
    map[Calories := 0.0, Protein := 0.0, Carbs := 0.0, Fats := 0.0, Fiber := 0.0, Sugars := 0.0, Salt := 0.0]

  lemma ZeroesComplete()
    ensures forall f: Field :: f in Zeroes
  {
    forall f: Field ensures f in Zeroes {
      match f
      case Calories =>
      case Protein =>
      case Carbs =>
      case Fats =>
      case Fiber =>
      case Sugars =>
      case Salt =>
    }
  }

  /** Every field starts at 0.0 and each row that selects a field overwrites it with the row's value. */
  function TableValues(rows: seq<seq<string>>): (m: map<Field, real>)
    ensures forall f: Field :: f in m
  {
    if |rows| == 0 then
      ZeroesComplete();
      Zeroes
    else
      var row := rows[|rows| - 1];
      var prev := TableValues(rows[..|rows| - 1]);
      match RowField(row)
      case None => prev
      case Some(f) => prev[f := RowValue(row)]
  }

  /** The row loop of `_parse_nutrition_table`, given the page's name and the table's rows as cell texts. */
  method ParseNutritionTable(name: string, rows: seq<seq<string>>) returns (n: Nutrition)
    ensures n == Nutrition(name, TableValues(rows))
  {
    var values := Zeroes;
    for i := 0 to |rows|
      invariant values == TableValues(rows[..i])
    {
      assert rows[..i + 1][..i] == rows[..i];
      var cells := rows[i];
      if |cells| >= 2 {
        var heading := Lower(Strip(cells[0]));
        var value := ExtractNumber(Strip(cells[1]));
        var field := Classify(heading);
        if field.Some? {
          values := values[field.value := value];
        }
      }
    }
    assert rows[..|rows|] == rows;
    n := Nutrition(name, values);
  }

  // ---------------------------------------------------------------------------
  // Food ids
  // ---------------------------------------------------------------------------

  /** An element as `_extract_id` sees it: its attributes, and the href of its first link when that link has one. */
  datatype Element = Element(attrs: map<string, string>, href: Option<string>)

  const IdAttributes: seq<string> := ["data-id", "data-food-id", "id"]

  /** The value of the first of `names` present in `attrs`. */
  function FirstAttribute(attrs: map<string, string>, names: seq<string>): (r: Option<string>)
    ensures r.None? <==> forall i :: 0 <= i < |names| ==> names[i] !in attrs
  {
    if |names| == 0 then None
    else if names[0] in attrs then Some(attrs[names[0]])
    else FirstAttribute(attrs, names[1..])
  }

  /** The digits of a match of `/(?:food|potraviny)/(\d+)` starting at position `p` of `h`, if one starts there. */
  function IdAt(h: string, p: nat): (r: Option<string>)
    requires p <= |h|
    ensures r.Some? ==> |r.value| > 0 && AllDigits(r.value)
  {
    var rest := h[p..];
    if StartsWith(rest, "/food/") && DigitRun(rest[6..]) > 0 then Some(rest[6..][..DigitRun(rest[6..])])
    else if StartsWith(rest, "/potraviny/") && DigitRun(rest[11..]) > 0 then Some(rest[11..][..DigitRun(rest[11..])])
    else None
  }

  /** The digits of the leftmost match at or after position `p`. */
  function IdFrom(h: string, p: nat): (r: Option<string>)
    requires p <= |h|
    ensures r.Some? ==> |r.value| > 0 && AllDigits(r.value)
    decreases |h| - p
  {
    if IdAt(h, p).Some? then IdAt(h, p)
    else if p == |h| then None
    else IdFrom(h, p + 1)
  }

  /** `_extract_id`. */
  function ExtractId(e: Element): (r: Option<string>)
    ensures r.None? ==> forall i :: 0 <= i < |IdAttributes| ==> IdAttributes[i] !in e.attrs
    ensures (forall i :: 0 <= i < |IdAttributes| ==> IdAttributes[i] !in e.attrs) && r.Some? ==>
      |r.value| > 0 && AllDigits(r.value)
  {
    match FirstAttribute(e.attrs, IdAttributes)
    case Some(v) => Some(v)
    case None =>
      match e.href
      case None => None
      case Some(h) => IdFrom(h, 0)
  }

  // ---------------------------------------------------------------------------
  // Food items and category listings
  // ---------------------------------------------------------------------------

  /** A listed food: its element and the stripped texts the name and calorie selectors found ("" when none did). */
  datatype Item = Item(element: Element, nameText: string, caloriesText: string)

  const Source: string := "kaloricketabulky.cz"

  /** The dictionary `_parse_food_item` builds; a missing id is `None`. */
  function FoodRecord(item: Item): (r: Record)
    ensures r.Keys == {"name", "food_id", "calories", "source"}
    ensures r["calories"].Num? && r["calories"].num >= 0.0
    ensures r["food_id"].Null? <==> ExtractId(item.element).None?
  {
    map[
      "name" := Str(item.nameText),
      "food_id" := (match ExtractId(item.element) case Some(id) => Str(id) case None => Null),
      "calories" := Num(ExtractNumber(item.caloriesText)),
      "source" := Str(Source)
    ]
  }

  /** `_parse_food_item`: the food's dictionary, or nothing when no name was found. */
  function ParseFoodItem(item: Item): (r: Option<Record>)
    ensures r.Some? <==> item.nameText != ""
    ensures r.Some? ==> "name" in r.value && r.value["name"] == Str(item.nameText)
  {
    if item.nameText != "" then Some(FoodRecord(item)) else None
  }

  /** The dictionaries of the items that parse, in their order. */
  function Parsed(items: seq<Item>): (r: seq<Record>)
    ensures |r| <= |items|
  {
    if |items| == 0 then []
    else
      var front := Parsed(items[..|items| - 1]);
      match ParseFoodItem(items[|items| - 1])
      case None => front
      case Some(food) => front + [food]
  }

  /** How many items `scrape_category` looks at: `limit` counts only when it is given and not 0. */
  function Cut(limit: Option<int>, n: nat): (k: nat)
    ensures k <= n
  {
    if limit.Some? && limit.value != 0 then
      if limit.value < 0 then 0 else if limit.value < n then limit.value else n
    else n
  }

  method ScrapeCategory(items: seq<Item>, limit: Option<int>) returns (foods: seq<Record>)
    ensures foods == Parsed(items[..Cut(limit, |items|)])
  {
    foods := [];
    var i := 0;
    while i < |items|
      invariant 0 <= i <= Cut(limit, |items|)
      invariant foods == Parsed(items[..i])
    {
      if limit.Some? && limit.value != 0 && i >= limit.value {
        assert i == Cut(limit, |items|);
        break;
      }
      ParsedSnoc(items, i);
      var food := ParseFoodItem(items[i]);
      if food.Some? {
        foods := foods + [food.value];
      }
      i := i + 1;
    }
  }

  lemma ParsedSnoc(items: seq<Item>, i: int)
    requires 0 <= i < |items|
    ensures ParseFoodItem(items[i]).None? ==> Parsed(items[..i + 1]) == Parsed(items[..i])
    ensures ParseFoodItem(items[i]).Some? ==> Parsed(items[..i + 1]) == Parsed(items[..i]) + [ParseFoodItem(items[i]).value]
  {
    assert items[..i + 1][..i] == items[..i];
  }

  // ---------------------------------------------------------------------------
  // The CSV header
  // ---------------------------------------------------------------------------

  /** Every key of every record. */
  function AllKeys(foods: seq<Record>): set<string> {
    if |foods| == 0 then {} else AllKeys(foods[..|foods| - 1]) + foods[|foods| - 1].Keys
  }

  /** Strictly ascending in Python's string order. */
  predicate Increasing(s: seq<string>) {
    forall i, j :: 0 <= i < j < |s| ==> Less(s[i], s[j])
  }

  /** `x` put into its place in an ascending sequence that does not hold it. */
  function InsertSorted(x: string, s: seq<string>): (r: seq<string>)
    requires Increasing(s) && x !in s
    ensures Increasing(r) && |r| == |s| + 1
    ensures forall y :: y in r <==> y == x || y in s
  {
    if |s| == 0 then [x]
    else if Less(x, s[0]) then
      assert forall j :: 0 <= j < |s| ==> Less(x, s[j]) by {
        forall j | 0 < j < |s| { LessTransitive(x, s[0], s[j]); }
      }
      [x] + s
    else
      LessTotal(x, s[0]);
      var rest := InsertSorted(x, s[1..]);
      assert forall j :: 0 <= j < |rest| ==> Less(s[0], rest[j]) by {
        forall j | 0 <= j < |rest| ensures Less(s[0], rest[j]) {
          assert rest[j] in rest;
          if rest[j] != x {
            var k :| 0 <= k < |s[1..]| && s[1..][k] == rest[j];
            assert s[k + 1] == rest[j];
          }
        }
      }
      [s[0]] + rest
  }

  /**
   * The header `export_to_csv` writes: the sorted union of all keys, or
   * nothing at all for an empty list.
   */
  method CsvHeader(foods: seq<Record>) returns (header: Option<seq<string>>)
    ensures header.None? <==> |foods| == 0
    ensures header.Some? ==> Increasing(header.value) && forall k :: k in header.value <==> k in AllKeys(foods)
  {
    if |foods| == 0 {
      return None;
    }
    var names: set<string> := {};
    for i := 0 to |foods|
      invariant names == AllKeys(foods[..i])
    {
      assert foods[..i + 1][..i] == foods[..i];
      names := names + foods[i].Keys;
    }
    assert foods[..|foods|] == foods;
    var sorted: seq<string> := [];
    var rest := names;
    while rest != {}
      invariant rest <= names && Increasing(sorted)
      invariant forall k :: k in sorted <==> k in names && k !in rest
      decreases |rest|
    {
      var x :| x in rest;
      sorted := InsertSorted(x, sorted);
      rest := rest - {x};
    }
    header := Some(sorted);
  }

  // ---------------------------------------------------------------------------
  // Properties of number extraction
  // ---------------------------------------------------------------------------

  /** Normalising works character by character. */
  lemma {:induction false} NormaliseAppend(a: string, b: string)
    ensures Normalise(a + b) == Normalise(a) + Normalise(b)
    decreases |b|
  {
    if |b| == 0 {
      assert a + b == a;
    } else {
      var b' := b[..|b| - 1];
      assert (a + b)[..|a + b| - 1] == a + b';
      NormaliseAppend(a, b');
    }
  }

  /** A text without a digit normalises to one without a digit. */
  lemma {:induction false} NormaliseNoDigit(s: string)
    requires !HasDigit(s)
    ensures !HasDigit(Normalise(s))
    decreases |s|
  {
    if |s| > 0 {
      var front := s[..|s| - 1];
      assert !HasDigit(front) by {
        forall j | 0 <= j < |front| ensures !IsDigit(front[j]) { assert front[j] == s[j]; }
      }
      NormaliseNoDigit(front);
      assert !IsDigit(s[|s| - 1]);
    }
  }

  /** A text with no digit gives 0.0. */
  lemma NoDigitIsZero(text: string)
    requires !HasDigit(text)
    ensures ExtractNumber(text) == 0.0
  {
    NormaliseNoDigit(text);
  }

  /** Digits are left alone by normalising. */
  lemma {:induction false} NormaliseDigits(d: string)
    requires AllDigits(d)
    ensures Normalise(d) == d
    decreases |d|
  {
    if |d| > 0 {
      NormaliseDigits(d[..|d| - 1]);
      assert d == d[..|d| - 1] + [d[|d| - 1]];
    }
  }

  lemma {:induction false} DigitRunOfDigits(d: string, rest: string)
    requires AllDigits(d)
    requires |rest| == 0 || !IsDigit(rest[0])
    ensures DigitRun(d + rest) == |d|
    decreases |d|
  {
    if |d| > 0 {
      assert (d + rest)[1..] == d[1..] + rest;
      DigitRunOfDigits(d[1..], rest);
    } else {
      assert d + rest == rest;
    }
  }

  /**
   * A whole number followed by a text that normalises to something not
   * starting with a digit or a point reads as that number: "250 kcal" is 250.
   */
  lemma WholeNumberFirst(n: nat, rest: string)
    requires var r := Normalise(rest); |r| == 0 || (!IsDigit(r[0]) && r[0] != '.')
    ensures ExtractNumber(NatToDigits(n) + rest) == n as real
  {
    var d := NatToDigits(n);
    var r := Normalise(rest);
    NormaliseAppend(d, rest);
    NormaliseDigits(d);
    var t := d + r;
    assert FirstDigit(t) == Some(0);
    assert t[0..] == t;
    DigitRunOfDigits(d, r);
    assert t[..|d|] == d;
    DigitsRoundTrip(n);
  }

  /** Once the text is normalised to something starting with a digit, the number is read from its front. */
  lemma ReadFromFront(text: string, t: string)
    requires Normalise(text) == t && |t| > 0 && IsDigit(t[0])
    ensures ExtractNumber(text) == LeadingValue(t)
  {
    assert FirstDigit(t) == Some(0);
    assert t[0..] == t;
  }

  /** Digits alone read as their value. */
  lemma LeadingDigits(t: string)
    requires AllDigits(t) && |t| > 0
    ensures LeadingValue(t) == DigitsValue(t) as real
  {
    DigitRunOfDigits(t, "");
    assert t + "" == t && t[..|t|] == t;
  }

  /** Digits, a point and digits read as that decimal. */
  lemma LeadingDecimal(d1: string, d2: string, r: string)
    requires AllDigits(d1) && AllDigits(d2) && |d1| > 0
    requires |r| == 0 || !IsDigit(r[0])
    ensures LeadingValue(d1 + "." + d2 + r) == DecimalValue(d1, d2)
  {
    var after := d2 + r;
    var t := d1 + ("." + after);
    assert d1 + "." + d2 + r == t;
    DigitRunOfDigits(d1, "." + after);
    assert t[..|d1|] == d1;
    assert t[|d1| + 1..] == after;
    DigitRunOfDigits(d2, r);
    assert after[..|d2|] == d2;
  }

  lemma NormaliseSpace(d1: string, d2: string)
    requires AllDigits(d1) && AllDigits(d2)
    ensures Normalise(d1 + " " + d2) == d1 + d2
  {
    NormaliseAppend(d1 + " ", d2);
    NormaliseAppend(d1, " ");
    NormaliseDigits(d1);
    NormaliseDigits(d2);
    assert Normalise(" ") == "" by { assert " "[..0] == ""; }
  }

  lemma NormaliseComma(d1: string, d2: string, rest: string)
    requires AllDigits(d1) && AllDigits(d2)
    ensures Normalise(d1 + "," + d2 + rest) == d1 + "." + d2 + Normalise(rest)
  {
    NormaliseAppend(d1 + "," + d2, rest);
    NormaliseAppend(d1 + ",", d2);
    NormaliseAppend(d1, ",");
    NormaliseDigits(d1);
    NormaliseDigits(d2);
    assert Normalise(",") == "." by { assert ","[..0] == ""; }
  }

  /** A space between digit groups is dropped: the groups read as one number. */
  lemma SpaceInNumber(d1: string, d2: string)
    requires AllDigits(d1) && AllDigits(d2) && |d1| > 0
    ensures ExtractNumber(d1 + " " + d2) == DigitsValue(d1 + d2) as real
  {
    NormaliseSpace(d1, d2);
    ReadFromFront(d1 + " " + d2, d1 + d2);
    LeadingDigits(d1 + d2);
  }

  /** A comma between digit groups is a decimal point. */
  lemma CommaInNumber(d1: string, d2: string, rest: string)
    requires AllDigits(d1) && AllDigits(d2) && |d1| > 0
    requires var r := Normalise(rest); |r| == 0 || !IsDigit(r[0])
    ensures ExtractNumber(d1 + "," + d2 + rest) == DecimalValue(d1, d2)
  {
    NormaliseComma(d1, d2, rest);
    ReadFromFront(d1 + "," + d2 + rest, d1 + "." + d2 + Normalise(rest));
    LeadingDecimal(d1, d2, Normalise(rest));
  }

  /** "1 200" reads as 1200. */
  lemma ThousandsExample()
    ensures ExtractNumber("1 200") == 1200.0
  {
    SpaceInNumber("1", "200");
    assert "1" + " " + "200" == "1 200";
    assert "1" + "200" == "1200";
    TwelveHundred();
  }

  lemma TwelveHundred()
    ensures DigitsValue("1200") == 1200
  {
    assert "1200"[..3] == "120" && "120"[..2] == "12" && "12"[..1] == "1" && "1"[..0] == "";
  }

  /** "12,5 g" reads as 12.5. */
  lemma DecimalCommaExample()
    ensures ExtractNumber("12,5 g") == 12.5
  {
    GramUnit();
    CommaInNumber("12", "5", " g");
    assert "12" + "," + "5" + " g" == "12,5 g";
    TwelveAndAHalf();
  }

  lemma GramUnit()
    ensures Normalise(" g") == "g"
  {
    NormaliseAppend(" ", "g");
    assert " " + "g" == " g";
    assert Normalise(" ") == "" by { assert " "[..0] == ""; }
    assert Normalise("g") == "g" by { assert "g"[..0] == ""; }
  }

  lemma TwelveAndAHalf()
    ensures DecimalValue("12", "5") == 12.5
  {
    assert "12"[..1] == "1" && "5"[..0] == "";
    assert DigitsValue("12") == 12 && DigitsValue("5") == 5;
  }

  /** A sign in front is not part of the match. */
  lemma SignIgnored(n: nat)
    ensures ExtractNumber("-" + NatToDigits(n)) == n as real
  {
    var d := NatToDigits(n);
    SignSkipped(d);
    LeadingDigits(d);
    DigitsRoundTrip(n);
  }

  /** The number after a leading minus sign is read from the first digit on. */
  lemma SignSkipped(d: string)
    requires |d| > 0 && AllDigits(d)
    ensures ExtractNumber("-" + d) == LeadingValue(d)
  {
    NormaliseAppend("-", d);
    NormaliseDigits(d);
    assert Normalise("-") == "-" by { assert "-"[..0] == ""; }
    var t := "-" + d;
    assert t[1..] == d;
    assert FirstDigit(d) == Some(0);
    assert FirstDigit(t) == Some(1);
  }

  // ---------------------------------------------------------------------------
  // Properties of label classification
  // ---------------------------------------------------------------------------

  /** Rule `i` matches and no rule before it does. */
  predicate FirstMatchAt(rules: seq<Rule>, heading: string, i: int) {
    && 0 <= i < |rules| && Matches(rules[i], heading)
    && forall j :: 0 <= j < i ==> !Matches(rules[j], heading)
  }

  /** The field chosen is that of the first matching rule. */
  lemma {:induction false} FirstMatchIs(rules: seq<Rule>, heading: string, i: int)
    requires FirstMatchAt(rules, heading, i)
    ensures FirstMatch(rules, heading) == Some(rules[i].field)
  {
    if i > 0 {
      assert !Matches(rules[0], heading);
      assert forall j :: 0 <= j < i - 1 ==> rules[1..][j] == rules[j + 1];
      FirstMatchIs(rules[1..], heading, i - 1);
    }
  }

  /** A label no rule matches selects no field. */
  lemma {:induction false} FirstMatchNone(rules: seq<Rule>, heading: string)
    requires forall j :: 0 <= j < |rules| ==> !Matches(rules[j], heading)
    ensures FirstMatch(rules, heading) == None
  {
    if |rules| > 0 {
      assert forall j :: 0 <= j < |rules| - 1 ==> rules[1..][j] == rules[j + 1];
      FirstMatchNone(rules[1..], heading);
    }
  }

  /** A chosen field comes from a matching rule with no matching rule before it. */
  lemma {:induction false} FirstMatchOrigin(rules: seq<Rule>, heading: string)
    requires FirstMatch(rules, heading).Some?
    ensures exists i :: FirstMatchAt(rules, heading, i) && rules[i].field == FirstMatch(rules, heading).value
  {
    if Matches(rules[0], heading) {
      assert FirstMatchAt(rules, heading, 0);
    } else {
      FirstMatchOrigin(rules[1..], heading);
      var i :| FirstMatchAt(rules[1..], heading, i) && rules[1..][i].field == FirstMatch(rules[1..], heading).value;
      assert forall j :: 1 <= j < i + 1 ==> rules[j] == rules[1..][j - 1];
      assert rules[i + 1] == rules[1..][i];
      assert FirstMatchAt(rules, heading, i + 1);
    }
  }

  lemma AnyOfTwo(heading: string, a: string, b: string)
    ensures ContainsAny(heading, [a, b]) <==> Contains(heading, a) || Contains(heading, b)
  {
    assert [a, b][1..] == [b];
    AnyOfOne(heading, b);
  }

  lemma AnyOfOne(heading: string, a: string)
    ensures ContainsAny(heading, [a]) <==> Contains(heading, a)
  {
    assert [a][1..] == [];
  }

  /** A rule's place in the chain, which its field determines. */
  function RuleIndex(f: Field): nat {
    match f
    case Calories => 0
    case Protein => 1
    case Carbs => 2
    case Fats => 3
    case Fiber => 4
    case Sugars => 5
    case Salt => 6
  }

  lemma RuleFields(j: int)
    requires 0 <= j < |Rules|
    ensures RuleIndex(Rules[j].field) == j
  {
    if j == 0 {
    } else if j == 1 {
    } else if j == 2 {
    } else if j == 3 {
    } else if j == 4 {
    } else if j == 5 {
    } else {
    }
  }

  /** An energy label sets the calories whatever else it mentions. */
  lemma EnergyFirst(heading: string)
    requires Contains(heading, "energie") || Contains(heading, "kalorie")
    ensures Classify(heading) == Some(Calories)
  {
    AnyOfTwo(heading, "energie", "kalorie");
    assert Matches(Rules[0], heading);
  }

  /** A label with "tuk" and without "nenasycen" sets the fats unless a word of an earlier rule occurs in it. */
  lemma FatsLabel(heading: string)
    requires Contains(heading, "tuk") && !Contains(heading, "nenasycen")
    requires !Contains(heading, "energie") && !Contains(heading, "kalorie")
    requires !Contains(heading, "b\U{ED}lkovin") && !Contains(heading, "protein")
    requires !Contains(heading, "sacharid") && !Contains(heading, "carbohydrate")
    ensures Classify(heading) == Some(Fats)
  {
    AnyOfTwo(heading, "energie", "kalorie");
    AnyOfTwo(heading, "b\U{ED}lkovin", "protein");
    AnyOfTwo(heading, "sacharid", "carbohydrate");
    AnyOfOne(heading, "tuk");
    AnyOfOne(heading, "nenasycen");
    forall j | 0 <= j < 3 ensures !Matches(Rules[j], heading) {
      if j == 0 {
      } else if j == 1 {
      } else {
      }
    }
    FirstMatchIs(Rules, heading, 3);
  }

  /** A label about unsaturated fats never sets the fats. */
  lemma UnsaturatedNeverFats(heading: string)
    requires Contains(heading, "nenasycen")
    ensures Classify(heading) != Some(Fats)
  {
    AnyOfOne(heading, "nenasycen");
    assert !Matches(Rules[3], heading);
    if Classify(heading) == Some(Fats) {
      FirstMatchOrigin(Rules, heading);
      var i :| FirstMatchAt(Rules, heading, i) && Rules[i].field == Fats;
      RuleFields(i);
      assert false;
    }
  }

  // ---------------------------------------------------------------------------
  // Properties of the nutrition table
  // ---------------------------------------------------------------------------

  /** A field holds the value of the last row that selects it. */
  lemma {:induction false} TableLastRowWins(rows: seq<seq<string>>, i: int, f: Field)
    requires 0 <= i < |rows| && RowField(rows[i]) == Some(f)
    requires forall j :: i < j < |rows| ==> RowField(rows[j]) != Some(f)
    ensures TableValues(rows)[f] == RowValue(rows[i])
    decreases |rows|
  {
    if i < |rows| - 1 {
      var front := rows[..|rows| - 1];
      assert front[i] == rows[i];
      assert forall j :: i < j < |front| ==> front[j] == rows[j];
      TableLastRowWins(front, i, f);
    }
  }

  /** A field no row selects stays 0.0. */
  lemma {:induction false} TableUnsetIsZero(rows: seq<seq<string>>, f: Field)
    requires forall j :: 0 <= j < |rows| ==> RowField(rows[j]) != Some(f)
    ensures TableValues(rows)[f] == 0.0
    decreases |rows|
  {
    if |rows| > 0 {
      var front := rows[..|rows| - 1];
      assert forall j :: 0 <= j < |front| ==> front[j] == rows[j];
      TableUnsetIsZero(front, f);
    }
  }

  // ---------------------------------------------------------------------------
  // Properties of id extraction
  // ---------------------------------------------------------------------------

  /** The attributes are tried in the order data-id, data-food-id, id. */
  lemma AttributeStep(attrs: map<string, string>, n: string, rest: seq<string>)
    ensures FirstAttribute(attrs, [n] + rest) == if n in attrs then Some(attrs[n]) else FirstAttribute(attrs, rest)
  {
    assert ([n] + rest)[1..] == rest;
  }

  lemma AttributeOrder(e: Element)
    ensures "data-id" in e.attrs ==> ExtractId(e) == Some(e.attrs["data-id"])
    ensures "data-id" !in e.attrs && "data-food-id" in e.attrs ==> ExtractId(e) == Some(e.attrs["data-food-id"])
    ensures "data-id" !in e.attrs && "data-food-id" !in e.attrs && "id" in e.attrs ==> ExtractId(e) == Some(e.attrs["id"])
  {
    assert IdAttributes == ["data-id"] + (["data-food-id"] + (["id"] + []));
    AttributeStep(e.attrs, "data-id", ["data-food-id"] + (["id"] + []));
    AttributeStep(e.attrs, "data-food-id", ["id"] + []);
    AttributeStep(e.attrs, "id", []);
  }

  /** Without an id attribute the id comes from the link, and without a link there is none. */
  lemma LinkFallBack(e: Element)
    requires "data-id" !in e.attrs && "data-food-id" !in e.attrs && "id" !in e.attrs
    ensures ExtractId(e) == if e.href.Some? then IdFrom(e.href.value, 0) else None
  {
    assert IdAttributes == ["data-id"] + (["data-food-id"] + (["id"] + []));
    AttributeStep(e.attrs, "data-id", ["data-food-id"] + (["id"] + []));
    AttributeStep(e.attrs, "data-food-id", ["id"] + []);
    AttributeStep(e.attrs, "id", []);
  }

  /** The id taken from a link is that of the leftmost match. */
  lemma {:induction false} LeftmostMatch(h: string, p: nat, q: nat)
    requires p <= q <= |h| && IdAt(h, q).Some?
    requires forall k :: p <= k < q ==> IdAt(h, k).None?
    ensures IdFrom(h, p) == IdAt(h, q)
    decreases q - p
  {
    if p < q {
      LeftmostMatch(h, p + 1, q);
    }
  }

  /** A link with no match gives no id. */
  lemma {:induction false} NoMatch(h: string, p: nat)
    requires p <= |h|
    requires forall k :: p <= k <= |h| ==> IdAt(h, k).None?
    ensures IdFrom(h, p) == None
    decreases |h| - p
  {
    if p < |h| {
      NoMatch(h, p + 1);
    }
  }

  /** After a prefix, a digit run followed by a non-digit is read whole. */
  lemma DigitsAfter(prefix: string, d: string, rest: string)
    requires |d| > 0 && AllDigits(d) && (|rest| == 0 || !IsDigit(rest[0]))
    ensures var h := prefix + d + rest;
      && StartsWith(h, prefix)
      && h[|prefix|..] == d + rest
      && DigitRun(h[|prefix|..]) == |d|
      && h[|prefix|..][..|d|] == d
  {
    var h := prefix + d + rest;
    assert h == prefix + (d + rest);
    assert h[..|prefix|] == prefix;
    assert h[|prefix|..] == d + rest;
    DigitRunOfDigits(d, rest);
    assert (d + rest)[..|d|] == d;
  }

  /** A link `/potraviny/N...` gives the digits N. */
  lemma PotravinyLink(d: string, rest: string)
    requires |d| > 0 && AllDigits(d) && (|rest| == 0 || !IsDigit(rest[0]))
    ensures IdFrom("/potraviny/" + d + rest, 0) == Some(d)
  {
    var h := "/potraviny/" + d + rest;
    DigitsAfter("/potraviny/", d, rest);
    assert h[0..] == h;
    assert !StartsWith(h, "/food/") by {
      assert h[..11] == "/potraviny/";
      assert h[1] == 'p';
    }
  }

  /** A link `/food/N...` gives the digits N. */
  lemma FoodLink(d: string, rest: string)
    requires |d| > 0 && AllDigits(d) && (|rest| == 0 || !IsDigit(rest[0]))
    ensures IdFrom("/food/" + d + rest, 0) == Some(d)
  {
    var h := "/food/" + d + rest;
    DigitsAfter("/food/", d, rest);
    assert h[0..] == h;
  }

  // ---------------------------------------------------------------------------
  // Properties of food items and category listings
  // ---------------------------------------------------------------------------

  /** An item parses exactly when a name was found, into a dictionary of four keys carrying the name and this site as source. */
  lemma ParsedItem(item: Item)
    ensures ParseFoodItem(item).Some? <==> item.nameText != ""
    ensures ParseFoodItem(item).Some? ==>
      var r := ParseFoodItem(item).value;
      && r.Keys == {"name", "food_id", "calories", "source"}
      && r["name"] == Str(item.nameText)
      && r["source"] == Str(Source)
      && r["calories"] == Num(ExtractNumber(item.caloriesText))
  {
  }

  /** Parsing works item by item. */
  lemma {:induction false} ParsedAppend(a: seq<Item>, b: seq<Item>)
    ensures Parsed(a + b) == Parsed(a) + Parsed(b)
    decreases |b|
  {
    if |b| == 0 {
      assert a + b == a;
    } else {
      var b' := b[..|b| - 1];
      assert (a + b)[..|a + b| - 1] == a + b';
      ParsedAppend(a, b');
    }
  }

  /** Every collected food has a name. */
  lemma {:induction false} ParsedNamed(items: seq<Item>)
    ensures forall k :: 0 <= k < |Parsed(items)| ==>
      "name" in Parsed(items)[k] && Parsed(items)[k]["name"].Str? && Parsed(items)[k]["name"].str != ""
    decreases |items|
  {
    if |items| > 0 {
      ParsedNamed(items[..|items| - 1]);
    }
  }

  /** A limit of 0 or none at all means every item is looked at. */
  lemma NoLimit(items: seq<Item>)
    ensures Cut(None, |items|) == |items| && Cut(Some(0), |items|) == |items|
    ensures items[..Cut(None, |items|)] == items
  {
  }

  /** With a positive limit at most that many foods come back, taken from the first `limit` items. */
  lemma LimitBounds(items: seq<Item>, limit: int)
    requires limit > 0
    ensures |Parsed(items[..Cut(Some(limit), |items|)])| <= limit
    ensures limit <= |items| ==> Parsed(items) == Parsed(items[..limit]) + Parsed(items[limit..])
  {
    if limit <= |items| {
      ParsedAppend(items[..limit], items[limit..]);
      assert items[..limit] + items[limit..] == items;
    }
  }

  /** A negative limit is truthy and stops the walk before the first item. */
  lemma NegativeLimit(items: seq<Item>, limit: int)
    requires limit < 0
    ensures Parsed(items[..Cut(Some(limit), |items|)]) == []
  {
  }

  // ---------------------------------------------------------------------------
  // Properties of the CSV header
  // ---------------------------------------------------------------------------

  /** A key is in the union exactly when some record has it. */
  lemma {:induction false} AllKeysMeaning(foods: seq<Record>, k: string)
    ensures k in AllKeys(foods) <==> exists i :: 0 <= i < |foods| && k in foods[i]
    decreases |foods|
  {
    if |foods| > 0 {
      var front := foods[..|foods| - 1];
      AllKeysMeaning(front, k);
      assert forall i :: 0 <= i < |front| ==> front[i] == foods[i];
    }
  }

  /** Two ascending sequences with the same elements start alike. */
  lemma HeadsAgree(a: seq<string>, b: seq<string>)
    requires Increasing(a) && Increasing(b) && |a| > 0 && |b| > 0
    requires forall k :: k in a <==> k in b
    ensures a[0] == b[0]
  {
    assert a[0] in a && b[0] in b;
    var j :| 0 <= j < |b| && b[j] == a[0];
    var i :| 0 <= i < |a| && a[i] == b[0];
    if i > 0 && j > 0 {
      LessTransitive(a[0], b[0], a[0]);
      LessIrreflexive(a[0]);
      assert false;
    }
  }

  /** An ascending sequence is fixed by its elements, so the header is the one `sorted` gives. */
  lemma {:induction false} IncreasingUnique(a: seq<string>, b: seq<string>)
    requires Increasing(a) && Increasing(b)
    requires forall k :: k in a <==> k in b
    ensures a == b
    decreases |a| + |b|
  {
    if |a| > 0 {
      assert a[0] in a;
    }
    if |b| > 0 {
      assert b[0] in b;
    }
    if |a| > 0 && |b| > 0 {
      HeadsAgree(a, b);
      LessIrreflexive(a[0]);
      forall k ensures k in a[1..] <==> k in b[1..] {
        if k in a[1..] {
          var i :| 0 <= i < |a[1..]| && a[1..][i] == k;
          assert Less(a[0], a[i + 1]) && a[i + 1] in a;
          var j :| 0 <= j < |b| && b[j] == k;
          assert j != 0;
          assert b[1..][j - 1] == k;
        }
        if k in b[1..] {
          var i :| 0 <= i < |b[1..]| && b[1..][i] == k;
          assert Less(b[0], b[i + 1]) && b[i + 1] in b;
          var j :| 0 <= j < |a| && a[j] == k;
          assert j != 0;
          assert a[1..][j - 1] == k;
        }
      }
      IncreasingUnique(a[1..], b[1..]);
      assert a == [a[0]] + a[1..] && b == [b[0]] + b[1..];
    }
  }

  /** The header names each column once. */
  lemma IncreasingDistinct(s: seq<string>, i: int, j: int)
    requires Increasing(s) && 0 <= i < j < |s|
    ensures s[i] != s[j]
  {
    LessIrreflexive(s[i]);
  }
}
