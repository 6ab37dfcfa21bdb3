/**
 * The loosely typed dictionaries the lookup clients hand around: a record maps
 * field names to JSON-like values. Also the dictionary that a loop fills entry
 * by entry, where a later entry with the same key overwrites an earlier one.
 */
module Records {
  import opened Wrappers

  /** A JSON scalar as it appears in a returned record. */
  datatype Value = Num(num: real) | Int(whole: int) | Str(str: string) | Null

  type Record = map<string, Value>

  /** `r.get(key, default)`. */
  function Get(r: Record, key: string, default: Value): Value {
    if key in r then r[key] else default
  }

  /** Python's truth value of a dictionary that may be `None`: present and not empty. */
  predicate Truthy(r: Option<Record>) {
    r.Some? && |r.value| > 0
  }

  /** The calorie field holds a number greater than 0; a missing field counts as 0. */
  predicate HasPositiveCalories(r: Record) {
    && "calories" in r
    && ((r["calories"].Num? && r["calories"].num > 0.0) || (r["calories"].Int? && r["calories"].whole > 0))
  }

  /** The calorie field holds a string or `None`, which Python cannot order against 0. */
  predicate NonNumericCalories(r: Record) {
    "calories" in r && (r["calories"].Str? || r["calories"].Null?)
  }

  /** The exception a comparison of a string or `None` with a number raises. */
  datatype Raised = TypeError

  /** `r.get('calories', 0) > 0`: a missing field counts as 0, a number is compared, anything else raises. */
  function CaloriesAboveZero(r: Record): (res: Result<bool, Raised>)
    ensures res.Failure? <==> NonNumericCalories(r)
    ensures res.Success? ==> (res.value <==> HasPositiveCalories(r))
  {
    if "calories" !in r then Success(false)
    else match r["calories"]
      case Num(x) => Success(x > 0.0)
      case Int(n) => Success(n > 0)
      case Str(_) => Failure(TypeError)
      case Null => Failure(TypeError)
  }

  // ---------------------------------------------------------------------------
  // Dictionaries filled by a loop, last write wins
  // ---------------------------------------------------------------------------

  /** `d = {}; for x in s: d[key(x)] = val(x)`. */
  function LastWins<T, V>(s: seq<T>, key: T -> string, val: T -> V): map<string, V> {
    if |s| == 0 then map[] else
      LastWins(s[..|s| - 1], key, val)[key(s[|s| - 1]) := val(s[|s| - 1])]
  }

  /** No element after position `i` has the key of element `i`. */
  predicate LastAt<T>(s: seq<T>, key: T -> string, i: int) {
    0 <= i < |s| && forall j :: i < j < |s| ==> key(s[j]) != key(s[i])
  }

  /** The value stored under a key is the one of the last element with that key. */
  lemma {:induction false} LastWinsAt<T, V>(s: seq<T>, key: T -> string, val: T -> V, i: int)
    requires LastAt(s, key, i)
    ensures key(s[i]) in LastWins(s, key, val)
    ensures LastWins(s, key, val)[key(s[i])] == val(s[i])
    decreases |s|
  {
    if i < |s| - 1 {
      var front := s[..|s| - 1];
      assert front[i] == s[i];
      assert LastAt(front, key, i);
      LastWinsAt(front, key, val, i);
    }
  }

  /** A key no element has is not in the dictionary. */
  lemma {:induction false} LastWinsAbsent<T, V>(s: seq<T>, key: T -> string, val: T -> V, k: string)
    requires forall j :: 0 <= j < |s| ==> key(s[j]) != k
    ensures k !in LastWins(s, key, val)
    decreases |s|
  {
    if |s| > 0 {
      var front := s[..|s| - 1];
      assert forall j :: 0 <= j < |front| ==> front[j] == s[j];
      LastWinsAbsent(front, key, val, k);
    }
  }

  /** Every key in the dictionary comes from the last element that carries it. */
  lemma {:induction false} LastWinsOrigin<T, V>(s: seq<T>, key: T -> string, val: T -> V, k: string)
    requires k in LastWins(s, key, val)
    ensures exists i :: LastAt(s, key, i) && key(s[i]) == k && LastWins(s, key, val)[k] == val(s[i])
    decreases |s|
  {
    var n := |s| - 1;
    if key(s[n]) == k {
      assert LastAt(s, key, n);
    } else {
      var front := s[..n];
      LastWinsOrigin(front, key, val, k);
      var i :| LastAt(front, key, i) && key(front[i]) == k && LastWins(front, key, val)[k] == val(front[i]);
      assert front[i] == s[i];
      assert LastAt(s, key, i);
    }
  }

  /** The loop itself. */
  method CollectLastWins<T, V>(s: seq<T>, key: T -> string, val: T -> V) returns (d: map<string, V>)
    ensures d == LastWins(s, key, val)
  {
    d := map[];
    for i := 0 to |s|
      invariant d == LastWins(s[..i], key, val)
    {
      assert s[..i + 1][..i] == s[..i];
      d := d[key(s[i]) := val(s[i])];
    }
    assert s[..|s|] == s;
  }
}
