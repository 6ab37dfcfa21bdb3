/** Python dictionaries from strings to numbers, kept as ordered association lists. */
module Dicts {
  import opened Wrappers

  /** A dictionary from string keys to amounts, in insertion order (Python dicts keep it). */
  type Dict = seq<(string, real)>

  predicate DistinctKeys(d: Dict) {
    forall i, j :: 0 <= i < j < |d| ==> d[i].0 != d[j].0
  }

  predicate HasKey(d: Dict, key: string) {
    exists i :: 0 <= i < |d| && d[i].0 == key
  }

  /** `d.get(key)`: the amount stored under the first occurrence of `key`, if any. */
  function Lookup(d: Dict, key: string): Option<real> {
    if |d| == 0 then None
    else if d[0].0 == key then Some(d[0].1)
    else Lookup(d[1..], key)
  }

  /** A key is found exactly when it occurs. */
  lemma {:induction false} LookupHasKey(d: Dict, key: string)
    ensures Lookup(d, key).Some? <==> HasKey(d, key)
    decreases |d|
  {
    if |d| > 0 && d[0].0 != key {
      LookupHasKey(d[1..], key);
      if HasKey(d, key) {
        var i :| 0 <= i < |d| && d[i].0 == key;
        assert d[1..][i - 1].0 == key;
      }
      if HasKey(d[1..], key) {
        var i :| 0 <= i < |d[1..]| && d[1..][i].0 == key;
        assert d[i + 1].0 == key;
      }
    }
  }

  /** What is found under `key` is stored under `key`. */
  lemma {:induction false} LookupFound(d: Dict, key: string)
    requires Lookup(d, key).Some?
    ensures exists i :: 0 <= i < |d| && d[i] == (key, Lookup(d, key).value)
    decreases |d|
  {
    if d[0].0 != key {
      LookupFound(d[1..], key);
      var i :| 0 <= i < |d[1..]| && d[1..][i] == (key, Lookup(d, key).value);
      assert d[i + 1] == d[1..][i];
    }
  }

  /** With distinct keys, the entry at position `i` is the one found under its key. */
  lemma {:induction false} LookupAt(d: Dict, i: int)
    requires DistinctKeys(d) && 0 <= i < |d|
    ensures Lookup(d, d[i].0) == Some(d[i].1)
    decreases |d|
  {
    if i > 0 {
      assert d[0].0 != d[i].0;
      assert DistinctKeys(d[1..]) by {
        forall a, b | 0 <= a < b < |d[1..]| ensures d[1..][a].0 != d[1..][b].0 {
          assert d[1..][a] == d[a + 1] && d[1..][b] == d[b + 1];
        }
      }
      LookupAt(d[1..], i - 1);
      assert d[1..][i - 1] == d[i];
    }
  }

  /**
   * `d[key] = d.get(key, 0) + q`: adds `q` to the amount under `key`; a new
   * key goes at the end, so the keys keep their insertion order.
   */
  function AddTo(d: Dict, key: string, q: real): (r: Dict)
    ensures |r| == |d| || (|r| == |d| + 1 && r[|d|] == (key, q))
    ensures forall i :: 0 <= i < |d| ==> r[i].0 == d[i].0
  {
    if |d| == 0 then [(key, q)]
    else if d[0].0 == key then [(key, d[0].1 + q)] + d[1..]
    else [d[0]] + AddTo(d[1..], key, q)
  }

  /** After `AddTo`, `key` holds its old amount (0 if new) plus `q`; every other key is unchanged. */
  lemma {:induction false} AddToLookup(d: Dict, key: string, q: real, k: string)
    ensures Lookup(AddTo(d, key, q), k) == if k == key then Some(Lookup(d, key).GetOr(0.0) + q) else Lookup(d, k)
    decreases |d|
  {
    if |d| > 0 && d[0].0 != key {
      AddToLookup(d[1..], key, q, k);
      var r := AddTo(d, key, q);
      assert r[1..] == AddTo(d[1..], key, q);
    }
  }

  /** `AddTo` never duplicates a key. */
  lemma {:induction false} AddToDistinct(d: Dict, key: string, q: real)
    requires DistinctKeys(d)
    ensures DistinctKeys(AddTo(d, key, q))
    decreases |d|
  {
    if |d| > 0 {
      DistinctTail(d);
      if d[0].0 == key {
        DistinctCons((key, d[0].1 + q), d[1..]);
      } else {
        var rest := AddTo(d[1..], key, q);
        AddToDistinct(d[1..], key, q);
        AddToLookup(d[1..], key, q, d[0].0);
        LookupHasKey(d[1..], d[0].0);
        LookupHasKey(rest, d[0].0);
        DistinctCons(d[0], rest);
      }
    }
  }

  lemma DistinctTail(d: Dict)
    requires DistinctKeys(d) && |d| > 0
    ensures DistinctKeys(d[1..]) && !HasKey(d[1..], d[0].0)
  {
    assert forall i :: 0 <= i < |d[1..]| ==> d[1..][i] == d[i + 1];
  }

  lemma DistinctCons(x: (string, real), rest: Dict)
    requires DistinctKeys(rest) && !HasKey(rest, x.0)
    ensures DistinctKeys([x] + rest)
  {
    var r := [x] + rest;
    assert forall i :: 1 <= i < |r| ==> r[i] == rest[i - 1];
  }
}
