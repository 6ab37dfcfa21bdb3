/**
 * The fridge inventory: a table of food items with an integer primary key.
 * The database session is abstracted to the table's rows in key order; a new
 * row gets the next key after the largest one, as SQLite assigns an integer
 * primary key. Dates are integer timestamps in seconds and the clock is a
 * parameter.
 */
module FridgeDb {
  import opened Wrappers
  import opened Text

  /** A row of the `food_items` table; the nutrient columns and the expiry date may be NULL. */
  datatype FoodItem = FoodItem(
    id: int,
    name: string,
    quantity: real,
    unit: string,
    expiry: Option<int>,
    calories: Option<real>,
    protein: Option<real>,
    carbs: Option<real>,
    fats: Option<real>,
    added: int)

  const SecondsPerDay: int := 86400

  /** Keys are positive and strictly ascending, which is the order the table yields its rows in. */
  ghost predicate Ascending(rows: seq<FoodItem>) {
    && (forall i :: 0 <= i < |rows| ==> rows[i].id > 0)
    && (forall i, j :: 0 <= i < j < |rows| ==> rows[i].id < rows[j].id)
  }

  /** The key the next inserted row gets: one past the largest, 1 for an empty table. */
  function NextId(rows: seq<FoodItem>): int {
    if |rows| == 0 then 1 else rows[|rows| - 1].id + 1
  }

  /** The position of the row with key `id`. */
  function IndexOf(rows: seq<FoodItem>, id: int): (r: Option<nat>)
    ensures r.Some? ==> r.value < |rows| && rows[r.value].id == id
    ensures r.None? ==> forall i :: 0 <= i < |rows| ==> rows[i].id != id
  {
    if |rows| == 0 then None
    else if rows[0].id == id then Some(0)
    else match IndexOf(rows[1..], id) {
      case None =>
        assert forall i :: 1 <= i < |rows| ==> rows[i] == rows[1..][i - 1];
        None
      case Some(k) =>
        assert rows[k + 1] == rows[1..][k];
        Some(k + 1)
    }
  }

  /** The rows satisfying `p`, in table order (a query's `filter`). */
  function Where(rows: seq<FoodItem>, p: FoodItem -> bool): (r: seq<FoodItem>)
    ensures |r| <= |rows|
    ensures forall x :: x in r <==> x in rows && p(x)
    ensures (forall i :: 0 <= i < |rows| ==> !p(rows[i])) ==> r == []
  {
    if |rows| == 0 then []
    else
      var rest := Where(rows[1..], p);
      assert forall x :: x in rows <==> x == rows[0] || x in rows[1..];
      if p(rows[0]) then [rows[0]] + rest else rest
  }

  /** The `LIKE '%name%'` condition, read as a substring test. */
  predicate NameMatches(item: FoodItem, query: string) {
    Contains(item.name, query)
  }

  /** The expiry window of `get_expiring_soon`: from now to `days` days ahead, both ends included. */
  predicate ExpiresWithin(item: FoodItem, days: int, now: int) {
    item.expiry.Some? && now <= item.expiry.value <= now + days * SecondsPerDay
  }

  class FridgeDatabase {
    /** The table's rows in key order. */
    var rows: seq<FoodItem>

    ghost predicate Valid()
      reads this
    {
      Ascending(rows)
    }

    /** Opening a database whose table holds `stored`. */
    constructor(stored: seq<FoodItem>)
      requires Ascending(stored)
      ensures Valid() && rows == stored
    {
      rows := stored;
    }

    /** `add_item`: one new row with the given columns and a fresh key, stamped with the current time. */
    method AddItem(name: string, quantity: real, unit: string, expiry: Option<int>,
                   calories: Option<real>, protein: Option<real>, carbs: Option<real>, fats: Option<real>,
                   now: int) returns (item: FoodItem)
      requires Valid()
      modifies this
      ensures Valid()
      ensures item == FoodItem(NextId(old(rows)), name, quantity, unit, expiry, calories, protein, carbs, fats, now)
      ensures rows == old(rows) + [item]
    {
      item := FoodItem(NextId(rows), name, quantity, unit, expiry, calories, protein, carbs, fats, now);
      NextIdFresh(rows);
      rows := rows + [item];
    }

    /** `get_all_items`: the whole table, in key order, which the command line numbers its choices by. */
    function GetAllItems(): (r: seq<FoodItem>)
      reads this
      ensures r == rows
      ensures forall x :: x in r <==> x in rows
      ensures |r| == |rows|
    {
      rows
    }

    /** `get_item_by_name`: the rows whose name contains `query`, in table order. */
    function GetItemByName(query: string): (r: seq<FoodItem>)
      reads this
      ensures forall x :: x in r <==> x in rows && Contains(x.name, query)
    {
      Where(rows, x => NameMatches(x, query))
    }

    /** `update_quantity`: the row with key `id` gets the new quantity; a missing key changes nothing. */
    method UpdateQuantity(id: int, quantity: real) returns (item: Option<FoodItem>)
      requires Valid()
      modifies this
      ensures Valid()
      ensures match IndexOf(old(rows), id)
        case None => item == None && rows == old(rows)
        case Some(k) =>
          && rows == old(rows)[k := old(rows)[k].(quantity := quantity)]
          && item == Some(rows[k])
    {
      var k := IndexOf(rows, id);
      if k.Some? {
        UpdatePreserves(rows, k.value, quantity);
        rows := rows[k.value := rows[k.value].(quantity := quantity)];
        item := Some(rows[k.value]);
      } else {
        item := None;
      }
    }

    /** `delete_item`: removes the row with key `id` and reports whether there was one. */
    method DeleteItem(id: int) returns (deleted: bool)
      requires Valid()
      modifies this
      ensures Valid()
      ensures deleted <==> IndexOf(old(rows), id).Some?
      ensures match IndexOf(old(rows), id)
        case None => rows == old(rows)
        case Some(k) => rows == old(rows)[..k] + old(rows)[k + 1..]
    {
      var k := IndexOf(rows, id);
      if k.Some? {
        RemovePreserves(rows, k.value);
        rows := rows[..k.value] + rows[k.value + 1..];
        deleted := true;
      } else {
        deleted := false;
      }
    }

    /** `get_expiring_soon`: the rows with an expiry date between now and `days` days ahead. */
    function GetExpiringSoon(days: int, now: int): (r: seq<FoodItem>)
      reads this
      ensures forall x :: x in r <==> x in rows && x.expiry.Some? && now <= x.expiry.value <= now + days * SecondsPerDay
    {
      Where(rows, x => ExpiresWithin(x, days, now))
    }
  }

  // ---------------------------------------------------------------------------
  // Properties of the table
  // ---------------------------------------------------------------------------

  /** The next key is larger than every key in use, so appending keeps the table in key order. */
  lemma NextIdFresh(rows: seq<FoodItem>)
    requires Ascending(rows)
    ensures forall i :: 0 <= i < |rows| ==> rows[i].id < NextId(rows)
    ensures forall item: FoodItem :: item.id == NextId(rows) ==> Ascending(rows + [item])
  {
    forall item: FoodItem | item.id == NextId(rows) ensures Ascending(rows + [item]) {
      var s := rows + [item];
      assert forall i :: 0 <= i < |rows| ==> s[i] == rows[i];
    }
  }

  /** A key identifies at most one row. */
  lemma KeysUnique(rows: seq<FoodItem>, i: int, j: int)
    requires Ascending(rows) && 0 <= i < |rows| && 0 <= j < |rows| && rows[i].id == rows[j].id
    ensures i == j
  {
  }

  /** Removing a row keeps the table in key order, and the rows left are exactly those with another key. */
  lemma RemovePreserves(rows: seq<FoodItem>, k: int)
    requires Ascending(rows) && 0 <= k < |rows|
    ensures Ascending(rows[..k] + rows[k + 1..])
    ensures forall x :: x in rows[..k] + rows[k + 1..] <==> x in rows && x.id != rows[k].id
  {
    RemoveIndex(rows, k);
    assert forall i :: 0 <= i < |rows| && i != k ==> rows[i].id != rows[k].id;
    RemoveMembers(rows, k);
  }

  /** With the key of position `k` used nowhere else, removing it leaves exactly the rows of other keys. */
  lemma RemoveMembers(rows: seq<FoodItem>, k: int)
    requires 0 <= k < |rows|
    requires forall i :: 0 <= i < |rows| && i != k ==> rows[i].id != rows[k].id
    ensures forall x :: x in rows[..k] + rows[k + 1..] <==> x in rows && x.id != rows[k].id
  {
    var s := rows[..k] + rows[k + 1..];
    assert forall i :: 0 <= i < |s| ==> s[i] == rows[if i < k then i else i + 1];
    forall x ensures x in s <==> x in rows && x.id != rows[k].id {
      if x in s {
        var i :| 0 <= i < |s| && s[i] == x;
        assert s[i] == rows[if i < k then i else i + 1];
      }
      if x in rows && x.id != rows[k].id {
        var i :| 0 <= i < |rows| && rows[i] == x;
        assert i != k;
        assert s[if i < k then i else i - 1] == x;
      }
    }
  }

  /** Removing position `k` shifts the later rows down by one and keeps the key order. */
  lemma RemoveIndex(rows: seq<FoodItem>, k: int)
    requires Ascending(rows) && 0 <= k < |rows|
    ensures var s := rows[..k] + rows[k + 1..];
      && |s| == |rows| - 1
      && (forall i :: 0 <= i < |s| ==> s[i] == rows[if i < k then i else i + 1])
      && Ascending(s)
  {
    var s := rows[..k] + rows[k + 1..];
    assert forall i :: 0 <= i < |s| ==> s[i] == rows[if i < k then i else i + 1];
  }

  /** Changing one row's quantity keeps every key, so the table stays in key order. */
  lemma UpdatePreserves(rows: seq<FoodItem>, k: int, quantity: real)
    requires Ascending(rows) && 0 <= k < |rows|
    ensures Ascending(rows[k := rows[k].(quantity := quantity)])
    ensures forall i :: 0 <= i < |rows| && i != k ==> rows[k := rows[k].(quantity := quantity)][i] == rows[i]
  {
  }

  /** Deleting reports success exactly for a key in use, and afterwards no row has that key. */
  lemma DeleteMeaning(rows: seq<FoodItem>, id: int)
    requires Ascending(rows)
    ensures IndexOf(rows, id).Some? <==> exists i :: 0 <= i < |rows| && rows[i].id == id
    ensures match IndexOf(rows, id)
      case None => true
      case Some(k) => forall x :: x in rows[..k] + rows[k + 1..] <==> x in rows && x.id != id
  {
    match IndexOf(rows, id)
    case None =>
    case Some(k) => RemovePreserves(rows, k);
  }

  /** The filter keeps the table order: its result is a subsequence of the rows. */
  lemma {:induction false} WhereOrdered(rows: seq<FoodItem>, p: FoodItem -> bool)
    requires Ascending(rows)
    ensures Ascending(Where(rows, p))
  {
    if |rows| > 0 {
      var tail := rows[1..];
      assert Ascending(tail);
      WhereOrdered(tail, p);
      var rest := Where(tail, p);
      forall j | 0 <= j < |rest| ensures rows[0].id < rest[j].id {
        assert rest[j] in tail;
        var i :| 0 <= i < |tail| && tail[i] == rest[j];
        assert tail[i] == rows[i + 1];
      }
      if p(rows[0]) {
        HeadAscending(rows[0], rest);
      }
    }
  }

  lemma HeadAscending(x: FoodItem, rest: seq<FoodItem>)
    requires Ascending(rest) && x.id > 0
    requires forall j :: 0 <= j < |rest| ==> x.id < rest[j].id
    ensures Ascending([x] + rest)
  {
    var r := [x] + rest;
    assert forall j :: 1 <= j < |r| ==> r[j] == rest[j - 1];
  }

  /** A window that ends before it starts holds nothing. */
  lemma NegativeWindowEmpty(db: FridgeDatabase, days: int, now: int)
    requires days < 0
    ensures db.GetExpiringSoon(days, now) == []
  {
  }

  /** Looking further ahead only adds items. */
  lemma WindowMonotone(db: FridgeDatabase, d1: int, d2: int, now: int)
    requires d1 <= d2
    ensures forall x :: x in db.GetExpiringSoon(d1, now) ==> x in db.GetExpiringSoon(d2, now)
  {
  }

  /** An item without an expiry date is never reported as expiring. */
  lemma NoExpiryNeverExpiring(db: FridgeDatabase, days: int, now: int, x: FoodItem)
    requires x.expiry.None?
    ensures x !in db.GetExpiringSoon(days, now)
  {
  }

  /** Every item's name contains the empty query. */
  lemma EmptyQueryMatchesAll(db: FridgeDatabase, x: FoodItem)
    requires x in db.rows
    ensures x in db.GetItemByName("")
  {
    assert StartsWith(x.name, "");
  }
}
