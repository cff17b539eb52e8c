/** The inventory ledger: a list of `{name, quantity}` entries kept in
    insertion order, updated by name. Both the scavenger scene (main.js)
    and the village script (villageCommons.js) use this shape. */
module Inventory {

  datatype Entry = Entry(name: string, quantity: int)

  /** `findIndex(item => item.name === name)`: the position of the first
      entry with that name, or -1 when there is none. */
  function IndexOf(inv: seq<Entry>, name: string): (r: int)
    ensures -1 <= r < |inv|
    ensures r >= 0 ==> inv[r].name == name
    ensures forall j :: 0 <= j < |inv| && (r == -1 || j < r) ==> inv[j].name != name
  {
    if inv == [] then -1
    else if inv[0].name == name then 0
    else
      var k := IndexOf(inv[1..], name);
      if k == -1 then -1 else k + 1
  }

  /** The first-match property determines the index. */
  lemma IndexOfIs(inv: seq<Entry>, name: string, r: int)
    requires -1 <= r < |inv|
    requires r >= 0 ==> inv[r].name == name
    requires forall j :: 0 <= j < |inv| && (r == -1 || j < r) ==> inv[j].name != name
    ensures IndexOf(inv, name) == r
  {
  }

  predicate Holds(inv: seq<Entry>, name: string) {
    IndexOf(inv, name) >= 0
  }

  /** How many units of `name` the first matching entry records (0 when absent). */
  function QuantityOf(inv: seq<Entry>, name: string): int {
    var i := IndexOf(inv, name);
    if i < 0 then 0 else inv[i].quantity
  }

  predicate NamesUnique(inv: seq<Entry>) {
    forall i, j :: 0 <= i < j < |inv| ==> inv[i].name != inv[j].name
  }

  predicate AllPositive(inv: seq<Entry>) {
    forall i :: 0 <= i < |inv| ==> inv[i].quantity > 0
  }

  /** The ledger invariant: one entry per name, each holding at least one unit. */
  predicate Valid(inv: seq<Entry>) {
    NamesUnique(inv) && AllPositive(inv)
  }

  /** `addToInventory` without the name guard (villageCommons.js): increment
      the first same-named entry, or append a new one. */
  function Add(inv: seq<Entry>, name: string, q: int): (r: seq<Entry>)
    ensures Holds(inv, name) ==> |r| == |inv|
    ensures !Holds(inv, name) ==> r == inv + [Entry(name, q)]
    ensures forall j :: 0 <= j < |inv| ==> r[j].name == inv[j].name
  {
    var i := IndexOf(inv, name);
    if i >= 0 then inv[i := Entry(name, inv[i].quantity + q)] else inv + [Entry(name, q)]
  }

  /** `removeFromInventory`: decrement the first same-named entry and delete
      it once its quantity is no longer positive; an absent name is a no-op. */
  function Remove(inv: seq<Entry>, name: string, q: int): (r: seq<Entry>)
    ensures !Holds(inv, name) ==> r == inv
    ensures |r| <= |inv|
  {
    var i := IndexOf(inv, name);
    if i < 0 then inv
    else if inv[i].quantity - q <= 0 then inv[..i] + inv[i + 1..]
    else inv[i := Entry(name, inv[i].quantity - q)]
  }

  /** Removing an entry keeps the others in their relative order. */
  lemma DeleteKeepsOrder(inv: seq<Entry>, i: nat)
    requires i < |inv|
    ensures |inv[..i] + inv[i + 1..]| == |inv| - 1
    ensures forall j :: 0 <= j < |inv| - 1 ==>
      (inv[..i] + inv[i + 1..])[j] == if j < i then inv[j] else inv[j + 1]
  {
  }

  /** Adding grows exactly the named quantity by `q`; every other name keeps its quantity. */
  lemma AddQuantities(inv: seq<Entry>, name: string, q: int, m: string)
    ensures QuantityOf(Add(inv, name, q), m) ==
      if m == name then QuantityOf(inv, name) + q else QuantityOf(inv, m)
  {
    var r := Add(inv, name, q);
    var i := IndexOf(inv, name);
    if m == name {
      if i >= 0 {
        IndexOfIs(r, name, i);
      } else {
        IndexOfIs(r, name, |inv|);
      }
    } else {
      var k := IndexOf(inv, m);
      IndexOfIs(r, m, k);
    }
  }

  /** Adding never creates a second entry with the same name, and with a
      positive amount keeps every quantity positive. */
  lemma AddKeepsValid(inv: seq<Entry>, name: string, q: int)
    requires NamesUnique(inv)
    ensures NamesUnique(Add(inv, name, q))
    ensures AllPositive(inv) && q > 0 ==> AllPositive(Add(inv, name, q))
  {
    var r := Add(inv, name, q);
    if !Holds(inv, name) {
      forall i, j | 0 <= i < j < |r| ensures r[i].name != r[j].name {
        if j == |inv| {
          assert r[i].name == inv[i].name;
        }
      }
    }
  }

  /** Removing, on a ledger with unique names, lowers the named quantity by
      `q` and never below zero (the entry disappears instead); other names
      keep their quantities. */
  lemma RemoveQuantities(inv: seq<Entry>, name: string, q: int, m: string)
    requires NamesUnique(inv) && q >= 0
    ensures QuantityOf(Remove(inv, name, q), m) ==
      if m == name then (if QuantityOf(inv, name) - q <= 0 then 0 else QuantityOf(inv, name) - q)
      else QuantityOf(inv, m)
  {
    var r := Remove(inv, name, q);
    var i := IndexOf(inv, name);
    if i >= 0 {
      var k := IndexOf(inv, m);
      if inv[i].quantity - q <= 0 {
        DeleteKeepsOrder(inv, i);
        if m == name {
          IndexOfIs(r, m, -1);
        } else if k == -1 {
          IndexOfIs(r, m, -1);
        } else {
          IndexOfIs(r, m, if k < i then k else k - 1);
        }
      } else {
        if m == name {
          IndexOfIs(r, m, i);
        } else {
          IndexOfIs(r, m, k);
        }
      }
    }
  }

  /** Removing keeps the ledger invariant. */
  lemma RemoveKeepsValid(inv: seq<Entry>, name: string, q: int)
    requires Valid(inv)
    ensures Valid(Remove(inv, name, q))
  {
    var i := IndexOf(inv, name);
    if i >= 0 && inv[i].quantity - q <= 0 {
      DeleteKeepsOrder(inv, i);
    }
  }

  /** Taking back what was just added restores the ledger exactly. */
  lemma {:induction false} RemoveUndoesAdd(inv: seq<Entry>, name: string, q: int)
    requires AllPositive(inv) && q > 0
    ensures Remove(Add(inv, name, q), name, q) == inv
  {
    var i := IndexOf(inv, name);
    var r := Add(inv, name, q);
    if i >= 0 {
      assert r == inv[i := Entry(name, inv[i].quantity + q)];
      IndexOfIs(r, name, i);
      assert r[i].quantity - q == inv[i].quantity > 0;
      assert Entry(name, inv[i].quantity) == inv[i];
      assert r[i := Entry(name, inv[i].quantity)] == inv;
    } else {
      assert r == inv + [Entry(name, q)];
      IndexOfIs(r, name, |inv|);
      assert r[..|inv|] == inv;
    }
  }

  /** Putting back what was just removed restores the ledger, provided the
      entry was not deleted by the removal. */
  lemma AddUndoesRemove(inv: seq<Entry>, name: string, q: int)
    requires q >= 0 && QuantityOf(inv, name) > q
    ensures Add(Remove(inv, name, q), name, q) == inv
  {
    var i := IndexOf(inv, name);
    var r := Remove(inv, name, q);
    IndexOfIs(r, name, i);
  }
}
