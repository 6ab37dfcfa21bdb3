/**
 * The two pieces of logic of the kupi.cz discount scraper: reading a discount
 * percentage out of a discount's fields, and ranking the discounts by it. The
 * discounts themselves come from the kupi library and are an input here.
 */
module KupiScraper {
  import opened Wrappers
  import opened Text
  import opened Sequences

  /** A discount as the library yields it: a string dictionary, or something that is not a dictionary. */
  datatype Discount = Fields(fields: map<string, string>) | NotADict

  // ---------------------------------------------------------------------------
  // Discount percentage
  // ---------------------------------------------------------------------------

  /** The text holding the percentage: 'discount', else 'discount_percent', else "0%". */
  function PercentText(fields: map<string, string>): (r: string)
    ensures r in fields.Values || ("discount" !in fields && "discount_percent" !in fields && r == "0%")
  {
    if "discount" in fields then fields["discount"]
    else if "discount_percent" in fields then fields["discount_percent"]
    else "0%"
  }

  predicate Kept(c: char) {
    IsDigit(c) || c == '.' || c == '-'
  }

  /** The characters of `s` that are digits, '.' or '-', in their order. */
  function Clean(s: string): (r: string)
    ensures |r| <= |s|
    ensures forall i :: 0 <= i < |r| ==> Kept(r[i])
  {
    if |s| == 0 then "" else Clean(s[..|s| - 1]) + (if Kept(s[|s| - 1]) then [s[|s| - 1]] else "")
  }

  /** The position of the first '.' in `s`, if any. */
  function FirstDot(s: string): (r: Option<nat>)
    ensures r.Some? ==> r.value < |s| && s[r.value] == '.' && forall j :: 0 <= j < r.value ==> s[j] != '.'
    ensures r.None? ==> forall j :: 0 <= j < |s| ==> s[j] != '.'
  {
    if |s| == 0 then None
    else if s[0] == '.' then Some(0)
    else match FirstDot(s[1..]) { case None => None case Some(k) => Some(k + 1) }
  }

  /**
   * Python's `float(s)` for a string of digits, '.' and '-': an optional minus
   * sign, then digits with at most one decimal point and at least one digit.
   */
  function ParseFloat(s: string): (r: Option<real>)
    ensures r.Some? ==> HasDigit(s)
  {
    var negative := |s| > 0 && s[0] == '-';
    var body := if negative then s[1..] else s;
    var value :=
      match FirstDot(body)
      case None => if |body| > 0 && AllDigits(body) then Some(DigitsValue(body) as real) else None
      case Some(k) =>
        var whole := body[..k];
        var frac := body[k + 1..];
        if |whole| + |frac| > 0 && AllDigits(whole) && AllDigits(frac) then Some(DecimalValue(whole, frac)) else None;
    if value.None? then None
    else
      assert HasDigit(s) by { DigitWitness(s, negative, body); }
      Some(if negative then -value.value else value.value)
  }

  /** `_extract_discount_percent` on a dictionary; it never raises. */
  function ExtractPercent(fields: map<string, string>): (r: real)
    ensures r == ParseFloat(Clean(PercentText(fields))).GetOr(0.0)
  {
    var cleaned := Clean(PercentText(fields));
    if |cleaned| == 0 then 0.0
    else match ParseFloat(cleaned) { case None => 0.0 case Some(v) => v }
  }

  // ---------------------------------------------------------------------------
  // Best deals
  // ---------------------------------------------------------------------------

  /** The sort key; it is only ever applied when every discount is a dictionary. */
  function Percent(d: Discount): real {
    if d.Fields? then ExtractPercent(d.fields) else 0.0
  }

  predicate AllDicts(discounts: seq<Discount>) {
    forall i :: 0 <= i < |discounts| ==> discounts[i].Fields?
  }

  /**
   * `get_best_deals` on the library's discounts: a stable sort by
   * non-increasing percentage cut to `limit`. Reading the percentage of an
   * entry that is not a dictionary raises, and then the first `limit`
   * discounts are returned unsorted.
   */
  function BestDeals(discounts: seq<Discount>, limit: int): (r: seq<Discount>)
    ensures limit >= 0 ==> |r| == if limit < |discounts| then limit else |discounts|
    ensures limit < 0 ==> |r| == if |discounts| + limit > 0 then |discounts| + limit else 0
  {
    if |discounts| == 0 then []
    else if AllDicts(discounts) then Take(SortDesc(discounts, Percent), limit)
    else Take(discounts, limit)
  }

  // ---------------------------------------------------------------------------
  // Properties of the percentage
  // ---------------------------------------------------------------------------

  /** Cleaning works character by character, so it keeps the kept characters in their order. */
  lemma {:induction false} CleanAppend(a: string, b: string)
    ensures Clean(a + b) == Clean(a) + Clean(b)
    decreases |b|
  {
    if |b| > 0 {
      var b' := b[..|b| - 1];
      assert (a + b)[..|a + b| - 1] == a + b';
      CleanAppend(a, b');
    } else {
      assert a + b == a;
    }
  }

  /** Each kept character occurs in the cleaned text as often as in the source; no other character occurs. */
  lemma {:induction false} CleanCount(s: string, c: char)
    ensures multiset(Clean(s))[c] == if Kept(c) then multiset(s)[c] else 0
    decreases |s|
  {
    if |s| > 0 {
      var front := s[..|s| - 1];
      CleanCount(front, c);
      assert s == front + [s[|s| - 1]];
    }
  }

  /** A text made only of kept characters is left as it is. */
  lemma {:induction false} CleanKeepsKept(s: string)
    requires forall i :: 0 <= i < |s| ==> Kept(s[i])
    ensures Clean(s) == s
    decreases |s|
  {
    if |s| > 0 {
      CleanKeepsKept(s[..|s| - 1]);
      assert s == s[..|s| - 1] + [s[|s| - 1]];
    }
  }

  /** A digit string parses to its value, and with a leading minus to its negation. */
  lemma DigitsParse(n: nat)
    ensures ParseFloat(NatToDigits(n)) == Some(n as real)
    ensures ParseFloat("-" + NatToDigits(n)) == Some(-(n as real))
  {
    var d := NatToDigits(n);
    DigitsRoundTrip(n);
    NoDot(d);
    assert ("-" + d)[1..] == d;
  }

  lemma {:induction false} NoDot(d: string)
    requires AllDigits(d)
    ensures FirstDot(d) == None
    decreases |d|
  {
    if |d| > 0 {
      NoDot(d[1..]);
    }
  }

  /** Texts `float` rejects: more than one point, a bare sign, a bare point, a sign after a digit. */
  lemma Unparseable()
    ensures ParseFloat("1.2.3") == None
    ensures ParseFloat("-") == None
    ensures ParseFloat(".") == None
    ensures ParseFloat("1-2") == None
  {
    assert FirstDot("1.2.3") == Some(1);
    assert !AllDigits("2.3") by { assert "2.3"[1] == '.'; }
    assert FirstDot("") == None;
    assert FirstDot(".") == Some(0);
    assert FirstDot("1-2") == None;
    assert !AllDigits("1-2") by { assert "1-2"[1] == '-'; }
  }

  /** Texts `float` accepts: digits on both sides of the point. */
  lemma ParseableDecimal()
    ensures ParseFloat("12.5") == Some(12.5)
  {
    assert FirstDot("12.5") == Some(2);
    assert "12.5"[..2] == "12" && "12.5"[3..] == "5";
    assert DigitsValue("12") == 12;
    assert DigitsValue("5") == 5;
    assert DecimalValue("12", "5") == 12.5;
  }

  /** Texts `float` accepts: a minus sign in front. */
  lemma ParseableNegative()
    ensures ParseFloat("-0.25") == Some(-0.25)
  {
    assert "-0.25"[1..] == "0.25";
    assert FirstDot("0.25") == Some(1);
    assert "0.25"[..1] == "0" && "0.25"[2..] == "25";
    assert DigitsValue("25") == 25;
    assert DecimalValue("0", "25") == 0.25;
  }

  /** Texts `float` accepts: a point may come without digits on one side. */
  lemma ParseableBarePoint()
    ensures ParseFloat(".5") == Some(0.5)
    ensures ParseFloat("5.") == Some(5.0)
  {
    assert FirstDot(".5") == Some(0);
    assert ".5"[..0] == "" && ".5"[1..] == "5";
    assert FirstDot("5.") == Some(1);
    assert "5."[..1] == "5" && "5."[2..] == "";
  }

  /** A whole-number percentage reads as its number. */
  lemma {:induction false} WholePercent(n: nat)
    ensures Clean(NatToDigits(n) + "%") == NatToDigits(n)
    ensures ParseFloat(Clean(NatToDigits(n) + "%")) == Some(n as real)
  {
    var d := NatToDigits(n);
    CleanAppend(d, "%");
    CleanKeepsKept(d);
    assert Clean("%") == "" by { assert "%"[..0] == ""; }
    DigitsParse(n);
  }

  /** 'discount' is read before 'discount_percent'. */
  lemma DiscountFirst(n: nat, other: string)
    ensures ExtractPercent(map["discount" := NatToDigits(n) + "%", "discount_percent" := other]) == n as real
  {
    WholePercent(n);
  }

  /** A minus sign survives cleaning, so a negative discount reads as a negative percentage. */
  lemma NegativeDiscount()
    ensures ExtractPercent(map["discount" := "-25%"]) == -25.0
  {
    var m := map["discount" := "-25%"];
    assert PercentText(m) == "-25%";
    CleanNegative();
    DigitsParse(25);
  }

  /** Cleaning "-25%" leaves the sign and the digits. */
  lemma CleanNegative()
    ensures Clean("-25%") == "-" + NatToDigits(25)
  {
    assert NatToDigits(25) == "25";
    WholePercent(25);
    assert "-25%" == "-" + "25%";
    CleanAppend("-", "25%");
    assert Clean("-") == "-" by { assert "-"[..0] == ""; }
  }

  /** A decimal comma is dropped by cleaning, so "12,5 %" reads as 125, not 12.5. */
  lemma DecimalCommaDiscount()
    ensures ExtractPercent(map["discount" := "12,5 %"]) == 125.0
  {
    var m := map["discount" := "12,5 %"];
    assert PercentText(m) == "12,5 %";
    CleanComma();
    DigitsParse(125);
  }

  /** Cleaning "12,5 %" leaves the three digits. */
  lemma CleanComma()
    ensures Clean("12,5 %") == NatToDigits(125)
  {
    var a, b := "12", ",5 %";
    assert "12,5 %" == a + b;
    CleanAppend(a, b);
    CleanKeepsKept(a);
    CleanCommaTail();
    assert NatToDigits(125) == NatToDigits(12) + "5";
    assert NatToDigits(12) == "12";
  }

  /** Cleaning ",5 %" leaves the digit. */
  lemma CleanCommaTail()
    ensures Clean(",5 %") == "5"
  {
    var s := ",5 %";
    assert s[..3] == ",5 " && s[..3][..2] == ",5" && s[..3][..2][..1] == ",";
    assert Clean(",") == "" by { assert ","[..0] == ""; }
  }

  /** 'discount_percent' is read when 'discount' is missing. */
  lemma DiscountPercentSecond(n: nat)
    ensures ExtractPercent(map["discount_percent" := NatToDigits(n) + "%"]) == n as real
  {
    WholePercent(n);
  }

  /** A discount with neither field reads as "0%", that is 0. */
  lemma MissingPercent()
    ensures ExtractPercent(map[]) == 0.0
  {
    WholePercent(0);
  }

  /** A text whose cleaned form does not parse gives 0.0 instead of raising. */
  lemma UnparseableIsZero(fields: map<string, string>)
    requires ParseFloat(Clean(PercentText(fields))) == None
    ensures ExtractPercent(fields) == 0.0
  {
  }

  // ---------------------------------------------------------------------------
  // Properties of the ranking
  // ---------------------------------------------------------------------------

  /** The keyed elements of a prefix are a prefix of the keyed elements. */
  lemma {:induction false} WithKeyPrefix<T>(s: seq<T>, n: nat, key: T -> real, k: real)
    requires n <= |s|
    ensures WithKey(s[..n], key, k) <= WithKey(s, key, k)
    decreases n
  {
    if n > 0 {
      assert s[..n][0] == s[0];
      assert s[..n][1..] == s[1..][..n - 1];
      WithKeyPrefix(s[1..], n - 1, key, k);
    }
  }

  /** No discounts, no deals. */
  lemma BestDealsEmpty(limit: int)
    ensures BestDeals([], limit) == []
  {
  }

  /**
   * With every discount a dictionary, the deals are the first `limit` of the
   * discounts ranked by non-increasing percentage, discounts of equal
   * percentage in their input order: as many as `limit` allows, and no
   * discount left out has a higher percentage than one returned.
   */
  lemma BestDealsRanked(discounts: seq<Discount>, limit: int)
    requires AllDicts(discounts)
    ensures var r := BestDeals(discounts, limit);
      && (limit >= 0 ==> |r| == if limit < |discounts| then limit else |discounts|)
      && r == SortDesc(discounts, Percent)[..|r|]
      && multiset(r) <= multiset(discounts)
      && NonIncreasing(r, Percent)
      && forall k :: WithKey(r, Percent, k) <= WithKey(discounts, Percent, k)
    ensures var r := BestDeals(discounts, limit);
      var rest := SortDesc(discounts, Percent)[|r|..];
      && multiset(r) + multiset(rest) == multiset(discounts)
      && forall i, j :: 0 <= i < |r| && 0 <= j < |rest| ==> Percent(r[i]) >= Percent(rest[j])
  {
    var r := BestDeals(discounts, limit);
    var t := SortDesc(discounts, Percent);
    assert r == t[..|r|];
    RankedPrefix(discounts, |r|, Percent);
  }

  /** A prefix of the ranking is part of the input, still ranked, and keeps the input order of equal keys. */
  lemma RankedPrefix<T>(s: seq<T>, n: nat, key: T -> real)
    requires n <= |s|
    ensures var t := SortDesc(s, key);
      && multiset(t[..n]) <= multiset(s)
      && NonIncreasing(t[..n], key)
      && forall k :: WithKey(t[..n], key, k) <= WithKey(s, key, k)
    ensures var t := SortDesc(s, key);
      && multiset(t[..n]) + multiset(t[n..]) == multiset(s)
      && forall i, j :: 0 <= i < n && 0 <= j < |t[n..]| ==> key(t[..n][i]) >= key(t[n..][j])
  {
    var t := SortDesc(s, key);
    RankedSplit(t, n, key);
    forall k ensures WithKey(t[..n], key, k) <= WithKey(s, key, k) {
      WithKeyPrefix(t, n, key, k);
    }
  }

  /** A ranked sequence splits into a prefix and a rest, and no element of the rest outranks one of the prefix. */
  lemma RankedSplit<T>(t: seq<T>, n: nat, key: T -> real)
    requires n <= |t| && NonIncreasing(t, key)
    ensures multiset(t[..n]) + multiset(t[n..]) == multiset(t)
    ensures forall i, j :: 0 <= i < n && 0 <= j < |t[n..]| ==> key(t[..n][i]) >= key(t[n..][j])
  {
    assert t == t[..n] + t[n..];
    forall i, j | 0 <= i < n && 0 <= j < |t[n..]| ensures key(t[..n][i]) >= key(t[n..][j]) {
      assert t[..n][i] == t[i] && t[n..][j] == t[n + j];
    }
  }

  /** With some entry that is not a dictionary, the first `limit` discounts are returned as they are. */
  lemma BestDealsUnsorted(discounts: seq<Discount>, limit: int)
    requires !AllDicts(discounts)
    ensures BestDeals(discounts, limit) == Take(discounts, limit)
  {
  }

  // ---------------------------------------------------------------------------
  // Proof helpers
  // ---------------------------------------------------------------------------

  lemma DigitWitness(s: string, negative: bool, body: string)
    requires negative == (|s| > 0 && s[0] == '-')
    requires body == if negative then s[1..] else s
    requires HasDigit(body)
    ensures HasDigit(s)
  {
    var j :| 0 <= j < |body| && IsDigit(body[j]);
    if negative {
      assert s[j + 1] == body[j];
    }
  }
}
