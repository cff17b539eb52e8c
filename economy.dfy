/** The Village economy as transitions on values: the liquidity pool's
    yield, market purchases, merchant listings, the trading post, the
    Tinkerer's Lab inventions and the Crafting Workshop (main.js:766-851,
    1233-1413, 1490-1526, 1604-1797; villageCommons.js:236-412). The
    scenes apply these to their own fields. */
module Economy {
  import opened Common
  import opened Inventory

  /** Seconds in a day: the pool pays 50 units per deposited unit per day. */
  const SecondsPerDay: real := 86400.0

  /** `Math.floor(amount * (seconds / 86400) * 50)`, both for the estimate
      shown before a deposit and for the amount paid on withdrawal. */
  function Yield(amount: int, seconds: real): int {
    ((amount as real) * (seconds / SecondsPerDay) * 50.0).Floor
  }

  /** A full day pays exactly fifty per unit; no time pays nothing; a
      positive deposit never loses by waiting longer. */
  lemma YieldProperties(amount: int, s: real, t: real)
    requires amount >= 0 && 0.0 <= s <= t
    ensures Yield(amount, SecondsPerDay) == 50 * amount
    ensures Yield(amount, 0.0) == 0
    ensures 0 <= Yield(amount, s) <= Yield(amount, t)
  {
    var a := amount as real;
    assert a * (s / SecondsPerDay) * 50.0 <= a * (t / SecondsPerDay) * 50.0 by {
      assert s / SecondsPerDay <= t / SecondsPerDay;
      assert a * (t / SecondsPerDay - s / SecondsPerDay) >= 0.0;
    }
  }

  /** Seconds elapsed between two `Date.now()` readings, in milliseconds. */
  function ElapsedSeconds(now: int, start: int): real {
    (now - start) as real / 1000.0
  }

  /** A pool deposit: the resource itself is not recorded, only its amount. */
  datatype Deposit = Deposit(amount: int, duration: int, startTime: int)

  /** What withdrawing a deposit credits: its amount plus the yield accrued
      since it was made. */
  function WithdrawCredit(d: Deposit, now: int): int {
    d.amount + Yield(d.amount, ElapsedSeconds(now, d.startTime))
  }

  /** A deposit pays back at least its amount, and more the longer it stays. */
  lemma WithdrawCreditGrows(d: Deposit, now: int, later: int)
    requires d.amount >= 0 && d.startTime <= now <= later
    ensures d.amount <= WithdrawCredit(d, now) <= WithdrawCredit(d, later)
  {
    YieldProperties(d.amount, ElapsedSeconds(now, d.startTime), ElapsedSeconds(later, d.startTime));
  }

  /** `splice(i, 1)`: the element at `i` removed, the others in order. */
  function RemoveAt<T>(s: seq<T>, i: nat): (r: seq<T>)
    requires i < |s|
    ensures |r| == |s| - 1
    ensures forall j :: 0 <= j < i ==> r[j] == s[j]
    ensures forall j :: i <= j < |r| ==> r[j] == s[j + 1]
    ensures multiset(r) + multiset{s[i]} == multiset(s)
  {
    assert s == s[..i] + [s[i]] + s[i + 1..];
    s[..i] + s[i + 1..]
  }

  /** The pool deposit as written: the amount is taken from the named
      resource with no check that so many units are held (or that the
      amount is positive), and one deposit is recorded. */
  function DepositAsWritten(inv: seq<Entry>, deposits: seq<Deposit>, resource: string, amount: int, duration: int, now: int): (seq<Entry>, seq<Deposit>) {
    (Remove(inv, resource, amount), deposits + [Deposit(amount, duration, now)])
  }

  /** One unit of Wood deposited as a thousand: the single unit disappears,
      and withdrawing at once pays a thousand oromozi. */
  lemma DepositCreatesCurrency()
    ensures var (inv, ds) := DepositAsWritten([Entry("Wood", 1)], [], "Wood", 1000, 604800, 0);
      inv == [] && |ds| == 1 && WithdrawCredit(ds[0], 0) == 1000
  {
  }

  /** A negative amount adds units to the inventory instead of taking them. */
  lemma NegativeDepositAddsUnits()
    ensures var (inv, _) := DepositAsWritten([Entry("Wood", 1)], [], "Wood", -50, 0, 0);
      QuantityOf(inv, "Wood") == 51
  {
  }

  /** The deposit as evidently intended: refused unless the amount is
      positive and no more than the units held. */
  function CheckedDeposit(inv: seq<Entry>, deposits: seq<Deposit>, resource: string, amount: int, duration: int, now: int): (r: Option<(seq<Entry>, seq<Deposit>)>)
    ensures r.Some? <==> 0 < amount <= QuantityOf(inv, resource)
    ensures r.None? || r.value == DepositAsWritten(inv, deposits, resource, amount, duration, now)
  {
    if 0 < amount <= QuantityOf(inv, resource) then Some(DepositAsWritten(inv, deposits, resource, amount, duration, now))
    else None
  }

  /** With the check, a deposit withdrawn at once converts units to
      oromozi one for one: exactly `amount` units leave the inventory,
      nothing else changes, and the credit is exactly `amount`. */
  lemma DepositConservesValue(inv: seq<Entry>, deposits: seq<Deposit>, resource: string, amount: int, duration: int, now: int, m: string)
    requires Valid(inv)
    requires CheckedDeposit(inv, deposits, resource, amount, duration, now).Some?
    ensures var (inv2, ds) := CheckedDeposit(inv, deposits, resource, amount, duration, now).value;
      && QuantityOf(inv2, m) == QuantityOf(inv, m) - (if m == resource then amount else 0)
      && ds == deposits + [Deposit(amount, duration, now)]
      && WithdrawCredit(ds[|ds| - 1], now) == amount
      && Valid(inv2)
  {
    RemoveQuantities(inv, resource, amount, m);
    RemoveKeepsValid(inv, resource, amount);
    YieldProperties(amount, 0.0, 0.0);
  }

  /** A market or Royal Market purchase: only when the oromozi covers the
      price, which is then paid for one unit. Returns the new oromozi, the
      new inventory and whether the purchase happened. */
  function Purchase(oromozi: int, inv: seq<Entry>, item: string, price: int): (int, seq<Entry>, bool) {
    if oromozi >= price then (oromozi - price, Add(inv, item, 1), true) else (oromozi, inv, false)
  }

  lemma PurchaseEffect(oromozi: int, inv: seq<Entry>, item: string, price: int, m: string)
    requires NamesUnique(inv)
    ensures var (o, inv2, ok) := Purchase(oromozi, inv, item, price);
      && (ok <==> oromozi >= price)
      && (ok ==> o == oromozi - price
                 && QuantityOf(inv2, m) == QuantityOf(inv, m) + (if m == item then 1 else 0)
                 && NamesUnique(inv2))
      && (!ok ==> o == oromozi && inv2 == inv)
      && (oromozi >= 0 && price >= 0 ==> o >= 0)
  {
    AddQuantities(inv, item, 1, m);
    AddKeepsValid(inv, item, 1);
  }

  /** The merchant's marketplace, item and price. */
  const MarketItems: seq<(string, int)> := [("Iron Sword", 500), ("Wooden Armor", 300), ("Healing Potion", 100)]

  /** The Royal Market's catalogue, by category. */
  const RoyalCategories: seq<(string, seq<(string, int)>)> := [
    ("Browse Weapons", [("Iron Sword", 500), ("Steel Axe", 700)]),
    ("Resources", [("Wood", 50), ("Iron Ore", 100), ("Cloth", 50)]),
    ("Consumables", [("Bread", 20), ("Healing Potion", 100)]),
    ("Aesthetic Items", [("Fancy Hat", 200), ("Golden Necklace", 300)]),
    ("Armor", [("Wooden Armor", 300), ("Iron Chestplate", 600)]),
    ("Special Moves", [("Fireball", 1000), ("Stealth Strike", 1200)])
  ]

  /** Every listed price is positive, so no purchase can raise the oromozi
      or drive it below zero. */
  lemma CataloguePricesPositive()
    ensures forall k :: 0 <= k < |MarketItems| ==> MarketItems[k].1 > 0
    ensures forall c, k :: 0 <= c < |RoyalCategories| && 0 <= k < |RoyalCategories[c].1| ==>
      RoyalCategories[c].1[k].1 > 0
  {
  }

  /** A merchant listing: one unit at a price. */
  datatype Listing = Listing(id: int, item: string, quantity: int, price: int, nonce: int)

  /** Listing an item: one listing of one unit is appended and one unit
      leaves the inventory. */
  function ListItem(inv: seq<Entry>, listings: seq<Listing>, index: int, name: string, price: int, nonce: int): (seq<Entry>, seq<Listing>) {
    (Remove(inv, name, 1), listings + [Listing(index, name, 1, price, nonce)])
  }

  /** Cancelling listing `i`: its units return and only it leaves the list. */
  function CancelListing(inv: seq<Entry>, listings: seq<Listing>, i: nat): (seq<Entry>, seq<Listing>)
    requires i < |listings|
  {
    (Add(inv, listings[i].item, listings[i].quantity), RemoveAt(listings, i))
  }

  /** Listing an item and then cancelling that listing restores every
      quantity and the listings. */
  lemma CancelUndoesList(inv: seq<Entry>, listings: seq<Listing>, index: int, name: string, price: int, nonce: int, m: string)
    requires Valid(inv) && QuantityOf(inv, name) >= 1
    ensures var (inv1, ls1) := ListItem(inv, listings, index, name, price, nonce);
      var (inv2, ls2) := CancelListing(inv1, ls1, |ls1| - 1);
      QuantityOf(inv2, m) == QuantityOf(inv, m) && ls2 == listings && Valid(inv2)
  {
    var inv1 := Remove(inv, name, 1);
    RemoveQuantities(inv, name, 1, m);
    RemoveQuantities(inv, name, 1, name);
    RemoveKeepsValid(inv, name, 1);
    AddQuantities(inv1, name, 1, m);
    AddKeepsValid(inv1, name, 1);
    var ls1 := listings + [Listing(index, name, 1, price, nonce)];
    assert RemoveAt(ls1, |ls1| - 1) == listings;
  }

  /** A trading-post offer: `quantity` units of `offer` for one `request`. */
  datatype TradeOffer = TradeOffer(offer: string, quantity: int, request: string)

  /** Posting a trade: one unit of the offered item leaves the inventory. */
  function PostTrade(inv: seq<Entry>, trades: seq<TradeOffer>, offer: string, request: string): (seq<Entry>, seq<TradeOffer>) {
    (Remove(inv, offer, 1), trades + [TradeOffer(offer, 1, request)])
  }

  /** Accepting trade `i`: when a unit of the requested item is held it is
      given up for the offered units and the trade is removed; otherwise
      nothing changes. */
  function AcceptTrade(inv: seq<Entry>, trades: seq<TradeOffer>, i: nat): (seq<Entry>, seq<TradeOffer>, bool)
    requires i < |trades|
  {
    var t := trades[i];
    if QuantityOf(inv, t.request) >= 1 then (Add(Remove(inv, t.request, 1), t.offer, t.quantity), RemoveAt(trades, i), true)
    else (inv, trades, false)
  }

  lemma AcceptTradeEffect(inv: seq<Entry>, trades: seq<TradeOffer>, i: nat, m: string)
    requires i < |trades| && NamesUnique(inv)
    ensures var t := trades[i];
      var (inv2, ts2, ok) := AcceptTrade(inv, trades, i);
      && (ok <==> QuantityOf(inv, t.request) >= 1)
      && (ok ==> QuantityOf(inv2, m) == QuantityOf(inv, m) - (if m == t.request then 1 else 0)
                                       + (if m == t.offer then t.quantity else 0)
                 && |ts2| == |trades| - 1 && multiset(ts2) + multiset{t} == multiset(trades))
      && (!ok ==> inv2 == inv && ts2 == trades)
  {
    var t := trades[i];
    if QuantityOf(inv, t.request) >= 1 {
      RemoveQuantities(inv, t.request, 1, m);
      AddQuantities(Remove(inv, t.request, 1), t.offer, t.quantity, m);
    }
  }

  /** JavaScript's default sort order on strings: character by character,
      a proper prefix first. */
  predicate StrLessEq(a: string, b: string)
    decreases |a|
  {
    a == [] || (b != [] && (a[0] < b[0] || (a[0] == b[0] && StrLessEq(a[1..], b[1..]))))
  }

  lemma {:induction false} StrLessEqTotal(a: string, b: string)
    ensures StrLessEq(a, b) || StrLessEq(b, a)
    decreases |a|
  {
    if a != [] && b != [] && a[0] == b[0] {
      StrLessEqTotal(a[1..], b[1..]);
    }
  }

  lemma {:induction false} StrLessEqAntisymmetric(a: string, b: string)
    requires StrLessEq(a, b) && StrLessEq(b, a)
    ensures a == b
    decreases |a|
  {
    if a != [] {
      StrLessEqAntisymmetric(a[1..], b[1..]);
      assert a == [a[0]] + a[1..] && b == [b[0]] + b[1..];
    }
  }

  lemma {:induction false} StrLessEqTransitive(a: string, b: string, c: string)
    requires StrLessEq(a, b) && StrLessEq(b, c)
    ensures StrLessEq(a, c)
    decreases |a|
  {
    if a != [] && a[0] == b[0] && b[0] == c[0] {
      StrLessEqTransitive(a[1..], b[1..], c[1..]);
    }
  }

  predicate SortedStrings(s: seq<string>) {
    forall i, j :: 0 <= i < j < |s| ==> StrLessEq(s[i], s[j])
  }

  /** Insertion into a sorted list: before the first element it does not
      follow. */
  function Insert(x: string, s: seq<string>): (r: seq<string>)
    ensures multiset(r) == multiset(s) + multiset{x}
    ensures |r| == |s| + 1
  {
    if s == [] then [x]
    else if StrLessEq(x, s[0]) then [x] + s
    else
      assert s == [s[0]] + s[1..];
      [s[0]] + Insert(x, s[1..])
  }

  lemma {:induction false} InsertSorted(x: string, s: seq<string>)
    requires SortedStrings(s)
    ensures SortedStrings(Insert(x, s))
  {
    if s != [] {
      if StrLessEq(x, s[0]) {
        forall k | 0 <= k < |s| ensures StrLessEq(x, s[k]) {
          if k > 0 {
            StrLessEqTransitive(x, s[0], s[k]);
          }
        }
        SortedCons(x, s);
      } else {
        InsertSorted(x, s[1..]);
        StrLessEqTotal(x, s[0]);
        InsertLowerBound(s[0], x, s[1..]);
        SortedCons(s[0], Insert(x, s[1..]));
      }
    }
  }

  /** A lower bound of `x` and of every element stays one after inserting `x`. */
  lemma {:induction false} InsertLowerBound(m: string, x: string, s: seq<string>)
    requires StrLessEq(m, x) && forall k :: 0 <= k < |s| ==> StrLessEq(m, s[k])
    ensures forall k :: 0 <= k < |Insert(x, s)| ==> StrLessEq(m, Insert(x, s)[k])
  {
    if s != [] && !StrLessEq(x, s[0]) {
      InsertLowerBound(m, x, s[1..]);
    }
  }

  /** An ordered list stays ordered under a head below all its elements. */
  lemma SortedCons(h: string, t: seq<string>)
    requires SortedStrings(t) && forall k :: 0 <= k < |t| ==> StrLessEq(h, t[k])
    ensures SortedStrings([h] + t)
  {
  }

  /** `items.sort()`: the names in ascending order. */
  function SortStrings(s: seq<string>): seq<string> {
    if s == [] then [] else Insert(s[0], SortStrings(s[1..]))
  }

  /** Sorting yields an ordered permutation of its input. */
  lemma {:induction false} SortStringsSpec(s: seq<string>)
    ensures SortedStrings(SortStrings(s))
    ensures multiset(SortStrings(s)) == multiset(s)
  {
    if s != [] {
      SortStringsSpec(s[1..]);
      InsertSorted(s[0], SortStrings(s[1..]));
      assert s == [s[0]] + s[1..];
    }
  }

  /** Two ordered lists with the same elements are the same list. */
  lemma {:induction false} SortedUnique(a: seq<string>, b: seq<string>)
    requires SortedStrings(a) && SortedStrings(b) && multiset(a) == multiset(b)
    ensures a == b
    decreases |a|
  {
    if a != [] {
      assert |b| == |multiset(b)| == |multiset(a)| == |a|;
      assert a[0] in multiset(b) && b[0] in multiset(a);
      SortedHeadBelow(b, a[0]);
      SortedHeadBelow(a, b[0]);
      StrLessEqAntisymmetric(a[0], b[0]);
      MultisetTail(a, b);
      SortedUnique(a[1..], b[1..]);
      assert a == [a[0]] + a[1..] && b == [b[0]] + b[1..];
    }
  }

  /** The head of an ordered list is at most each of its elements. */
  lemma SortedHeadBelow(a: seq<string>, y: string)
    requires SortedStrings(a) && y in a
    ensures StrLessEq(a[0], y)
  {
    var i :| 0 <= i < |a| && a[i] == y;
    if i == 0 {
      StrLessEqTotal(y, y);
    }
  }

  /** Lists with the same elements and the same head have tails with the
      same elements. */
  lemma MultisetTail(a: seq<string>, b: seq<string>)
    requires a != [] && b != [] && a[0] == b[0] && multiset(a) == multiset(b)
    ensures multiset(a[1..]) == multiset(b[1..])
  {
    assert a == [a[0]] + a[1..] && b == [b[0]] + b[1..];
    assert multiset(a) == multiset{a[0]} + multiset(a[1..]);
    assert multiset(b) == multiset{b[0]} + multiset(b[1..]);
    forall x ensures multiset(a[1..])[x] == multiset(b[1..])[x] {
      assert multiset(a)[x] == multiset{a[0]}[x] + multiset(a[1..])[x];
      assert multiset(b)[x] == multiset{b[0]}[x] + multiset(b[1..])[x];
    }
  }

  /** The lab's recipe test as written: equal length and the sorted
      selection equal to the sorted ingredients. */
  predicate RecipeMatches(items: seq<string>, ingredients: seq<string>) {
    |items| == |ingredients| && SortStrings(items) == SortStrings(ingredients)
  }

  /** The test ignores order: a selection matches exactly when it holds the
      same names, counted with multiplicity, as the recipe. */
  lemma RecipeMatchIff(items: seq<string>, ingredients: seq<string>)
    ensures RecipeMatches(items, ingredients) <==> multiset(items) == multiset(ingredients)
  {
    SortStringsSpec(items);
    SortStringsSpec(ingredients);
    if multiset(items) == multiset(ingredients) {
      SortedUnique(SortStrings(items), SortStrings(ingredients));
      assert |items| == |multiset(items)| == |multiset(ingredients)| == |ingredients|;
    }
  }

  datatype Recipe = Recipe(ingredients: seq<string>, result: string)

  /** The Tinkerer's Lab's secret recipes. */
  const SecretRecipes: seq<Recipe> := [
    Recipe(["Iron Ore", "Copper Ore", "Wood"], "Mechanical Cog"),
    Recipe(["Fire Crystal", "Steel Ingot", "Thread"], "Flamethrower Gadget"),
    Recipe(["Vines", "Stone", "Herbs"], "Vine Trap"),
    Recipe(["Poisonous Berries", "Water", "Iron Ore"], "Toxic Sprayer"),
    Recipe(["Wood", "Thread", "Copper Ore"], "Wind-Up Toy"),
    Recipe(["Steel Ingot", "Fire Crystal", "Wood"], "Steam Pistol"),
    Recipe(["Leather", "Iron Ore", "Vines"], "Spring-Loaded Glove")
  ]

  /** `secretRecipes.find(...)`: the first recipe the selection matches. */
  function FindRecipe(recipes: seq<Recipe>, items: seq<string>): (r: Option<string>)
    ensures r.Some? ==> exists k :: 0 <= k < |recipes| && recipes[k].result == r.value
                                    && RecipeMatches(items, recipes[k].ingredients)
    ensures r.None? ==> forall k :: 0 <= k < |recipes| ==> !RecipeMatches(items, recipes[k].ingredients)
  {
    if recipes == [] then None
    else if RecipeMatches(items, recipes[0].ingredients) then Some(recipes[0].result)
    else
      var rest := FindRecipe(recipes[1..], items);
      assert forall k :: 1 <= k < |recipes| ==> recipes[k] == recipes[1..][k - 1];
      rest
  }

  /** Selecting the same names in any order finds the same recipe. */
  lemma {:induction false} FindRecipeOrderFree(recipes: seq<Recipe>, a: seq<string>, b: seq<string>)
    requires multiset(a) == multiset(b)
    ensures FindRecipe(recipes, a) == FindRecipe(recipes, b)
  {
    if recipes != [] {
      RecipeMatchIff(a, recipes[0].ingredients);
      RecipeMatchIff(b, recipes[0].ingredients);
      FindRecipeOrderFree(recipes[1..], a, b);
    }
  }

  /** `forEach(removeFromInventory)`: one unit of each name, in order. */
  function RemoveEach(inv: seq<Entry>, names: seq<string>): seq<Entry>
    decreases |names|
  {
    if names == [] then inv
    else Remove(RemoveEach(inv, names[..|names| - 1]), names[|names| - 1], 1)
  }

  /** Taking one unit per occurrence lowers each quantity by the number of
      occurrences of its name (never below zero) and keeps the ledger valid. */
  lemma {:induction false} RemoveEachQuantities(inv: seq<Entry>, names: seq<string>, m: string)
    requires Valid(inv)
    ensures QuantityOf(RemoveEach(inv, names), m) == Max(0, QuantityOf(inv, m) - multiset(names)[m])
    ensures Valid(RemoveEach(inv, names))
    decreases |names|
  {
    if names != [] {
      var n := |names| - 1;
      var before := RemoveEach(inv, names[..n]);
      RemoveEachQuantities(inv, names[..n], m);
      RemoveQuantities(before, names[n], 1, m);
      RemoveKeepsValid(before, names[n], 1);
      assert names == names[..n] + [names[n]];
    } else {
      assert QuantityOf(inv, m) >= 0 by {
        if IndexOf(inv, m) >= 0 {
          assert inv[IndexOf(inv, m)].quantity > 0;
        }
      }
    }
  }

  /** `hasItems`: every selected name's first entry holds a unit. */
  predicate HoldsEach(inv: seq<Entry>, names: seq<string>) {
    forall k :: 0 <= k < |names| ==> QuantityOf(inv, names[k]) >= 1
  }

  datatype InventionOutcome = Created(item: string) | Failed | MissingItems

  /** `confirmInvention`: the selection is sorted; when any selected item is
      missing nothing happens; otherwise each selected item loses a unit
      whether or not a recipe matched, and a match adds its result. The
      lab passes its secret recipes (`SecretRecipes`). */
  function Invent(recipes: seq<Recipe>, inv: seq<Entry>, items: seq<string>): (seq<Entry>, InventionOutcome) {
    var sorted := SortStrings(items);
    if !HoldsEach(inv, sorted) then (inv, MissingItems)
    else
      var used := RemoveEach(inv, sorted);
      match FindRecipe(recipes, sorted)
      case Some(result) => (Add(used, result, 1), Created(result))
      case None => (used, Failed)
  }

  /** The invention's effect on the ledger, for a selection of distinct
      names (the lab refuses to select a name twice): a held selection
      costs one unit of each name and yields the recipe's result on a
      match; a selection with a missing item changes nothing. */
  lemma InventEffect(recipes: seq<Recipe>, inv: seq<Entry>, items: seq<string>, m: string)
    requires Valid(inv)
    requires forall i, j :: 0 <= i < j < |items| ==> items[i] != items[j]
    ensures var (inv2, outcome) := Invent(recipes, inv, items);
      && (outcome == MissingItems <==> exists k :: 0 <= k < |items| && QuantityOf(inv, items[k]) < 1)
      && (outcome == MissingItems ==> inv2 == inv)
      && (outcome != MissingItems ==>
            QuantityOf(inv2, m) == QuantityOf(inv, m) - (if m in items then 1 else 0)
                                   + (if outcome == Created(m) then 1 else 0))
      && (outcome.Created? ==>
            exists k :: 0 <= k < |recipes| && multiset(recipes[k].ingredients) == multiset(items)
                        && recipes[k].result == outcome.item)
      && (outcome == Failed ==>
            forall k :: 0 <= k < |recipes| ==> multiset(recipes[k].ingredients) != multiset(items))
      && Valid(inv2)
  {
    SortedHoldsIff(inv, items);
    if HoldsEach(inv, SortStrings(items)) {
      InventHeldEffect(recipes, inv, items, m);
    }
  }

  /** Sorting the selection does not change whether every item is held. */
  lemma SortedHoldsIff(inv: seq<Entry>, items: seq<string>)
    ensures HoldsEach(inv, SortStrings(items)) <==> HoldsEach(inv, items)
  {
    var sorted := SortStrings(items);
    SortStringsSpec(items);
    var ms := multiset(items);
    assert forall x :: x in items <==> x in sorted by {
      forall x ensures x in items <==> x in sorted {
        assert x in items <==> x in ms;
        assert x in sorted <==> x in multiset(sorted);
      }
    }
    if HoldsEach(inv, sorted) {
      forall k | 0 <= k < |items| ensures QuantityOf(inv, items[k]) >= 1 {
        assert items[k] in sorted;
      }
    }
    if HoldsEach(inv, items) {
      forall k | 0 <= k < |sorted| ensures QuantityOf(inv, sorted[k]) >= 1 {
        assert sorted[k] in items;
      }
    }
  }

  /** A held selection of distinct names: one unit of each is used, the
      matching recipe's result (if any) is added, and the ledger stays valid. */
  lemma InventHeldEffect(recipes: seq<Recipe>, inv: seq<Entry>, items: seq<string>, m: string)
    requires Valid(inv)
    requires forall i, j :: 0 <= i < j < |items| ==> items[i] != items[j]
    requires HoldsEach(inv, SortStrings(items)) && HoldsEach(inv, items)
    ensures var (inv2, outcome) := Invent(recipes, inv, items);
      && outcome != MissingItems
      && QuantityOf(inv2, m) == QuantityOf(inv, m) - (if m in items then 1 else 0)
                                + (if outcome == Created(m) then 1 else 0)
      && (outcome.Created? ==>
            exists k :: 0 <= k < |recipes| && multiset(recipes[k].ingredients) == multiset(items)
                        && recipes[k].result == outcome.item)
      && (outcome == Failed ==>
            forall k :: 0 <= k < |recipes| ==> multiset(recipes[k].ingredients) != multiset(items))
      && Valid(inv2)
  {
    var sorted := SortStrings(items);
    SortStringsSpec(items);
    var used := RemoveEach(inv, sorted);
    UsedQuantity(inv, items, m);
    assert Valid(used) && QuantityOf(used, m) == QuantityOf(inv, m) - (if m in items then 1 else 0);
    var found := FindRecipe(recipes, sorted);
    FindRecipeMeaning(recipes, items);
    if found.Some? {
      assert Invent(recipes, inv, items) == (Add(used, found.value, 1), Created(found.value));
      AddQuantities(used, found.value, 1, m);
      AddKeepsValid(used, found.value, 1);
    } else {
      assert Invent(recipes, inv, items) == (used, Failed);
    }
  }

  /** The recipe search on a sorted selection finds a recipe with the same
      names, counted with multiplicity, or reports that none has them. */
  lemma FindRecipeMeaning(recipes: seq<Recipe>, items: seq<string>)
    ensures var r := FindRecipe(recipes, SortStrings(items));
      && (r.Some? ==> exists k :: 0 <= k < |recipes| && multiset(recipes[k].ingredients) == multiset(items)
                                  && recipes[k].result == r.value)
      && (r.None? ==> forall k :: 0 <= k < |recipes| ==> multiset(recipes[k].ingredients) != multiset(items))
  {
    var sorted := SortStrings(items);
    SortStringsSpec(items);
    var r := FindRecipe(recipes, sorted);
    if r.Some? {
      var k :| 0 <= k < |recipes| && recipes[k].result == r.value && RecipeMatches(sorted, recipes[k].ingredients);
      RecipeMatchIff(sorted, recipes[k].ingredients);
    } else {
      forall k | 0 <= k < |recipes| ensures multiset(recipes[k].ingredients) != multiset(items) {
        RecipeMatchIff(sorted, recipes[k].ingredients);
      }
    }
  }

  /** Using a held selection of distinct names takes one unit of each. */
  lemma UsedQuantity(inv: seq<Entry>, items: seq<string>, m: string)
    requires Valid(inv)
    requires forall i, j :: 0 <= i < j < |items| ==> items[i] != items[j]
    requires HoldsEach(inv, items)
    ensures var used := RemoveEach(inv, SortStrings(items));
      Valid(used) && QuantityOf(used, m) == QuantityOf(inv, m) - (if m in items then 1 else 0)
  {
    SortStringsSpec(items);
    RemoveEachQuantities(inv, SortStrings(items), m);
    MultiplicityOfDistinct(items, m);
    if m in items {
      var k :| 0 <= k < |items| && items[k] == m;
      assert QuantityOf(inv, items[k]) >= 1;
    } else {
      assert QuantityOf(inv, m) >= 0 by {
        if IndexOf(inv, m) >= 0 {
          assert inv[IndexOf(inv, m)].quantity > 0;
        }
      }
    }
  }

  /** In a list of distinct names each name occurs once or not at all. */
  lemma {:induction false} MultiplicityOfDistinct(s: seq<string>, m: string)
    requires forall i, j :: 0 <= i < j < |s| ==> s[i] != s[j]
    ensures multiset(s)[m] == if m in s then 1 else 0
    decreases |s|
  {
    if s != [] {
      var n := |s| - 1;
      MultiplicityOfDistinct(s[..n], m);
      assert s == s[..n] + [s[n]];
      if s[n] == m {
        assert m !in s[..n];
      }
    }
  }

  /** The Crafting Workshop's recipes. */
  const CraftRecipes: seq<Recipe> := [
    Recipe(["Iron Ore", "Wood"], "Iron Sword"),
    Recipe(["Wood", "Wood"], "Wooden Armor"),
    Recipe(["Steel Ingot", "Wood"], "Steel Axe"),
    Recipe(["Leather", "Thread"], "Leather Boots"),
    Recipe(["Herbs", "Water"], "Healing Salve"),
    Recipe(["Iron Ore", "Poisonous Berries"], "Poison Dagger"),
    Recipe(["Stone", "Wood"], "Stone Hammer"),
    Recipe(["Copper Ore", "Thread"], "Copper Ring"),
    Recipe(["Wood", "Fire Crystal"], "Fire Staff"),
    Recipe(["Wood", "Vines"], "Shield of Roots")
  ]

  /** Every recipe names its result, so adding it is never skipped. */
  lemma RecipeResultsNamed()
    ensures forall j :: 0 <= j < |SecretRecipes| ==> SecretRecipes[j].result != ""
    ensures forall j :: 0 <= j < |CraftRecipes| ==> CraftRecipes[j].result != ""
  {
  }

  /** `inventory.some(i => i.name === ing && i.quantity >= 1)`. */
  predicate HasSome(inv: seq<Entry>, name: string) {
    exists i :: 0 <= i < |inv| && inv[i].name == name && inv[i].quantity >= 1
  }

  /** `confirmCraftItem` as written: every ingredient must be present with
      at least one unit, however often the recipe lists it; then one unit
      per listed ingredient is removed and the result added. */
  function CraftAsWritten(inv: seq<Entry>, recipe: Recipe): (seq<Entry>, bool) {
    if forall k :: 0 <= k < |recipe.ingredients| ==> HasSome(inv, recipe.ingredients[k]) then
      (Add(RemoveEach(inv, recipe.ingredients), recipe.result, 1), true)
    else (inv, false)
  }

  /** Wooden Armor needs two Wood, yet a single Wood passes the check and
      is crafted into the armour: the second removal finds nothing. */
  lemma WoodenArmorFromOneWood()
    ensures CraftRecipes[1] == Recipe(["Wood", "Wood"], "Wooden Armor")
    ensures CraftAsWritten([Entry("Wood", 1)], CraftRecipes[1]) == ([Entry("Wooden Armor", 1)], true)
  {
    var inv := [Entry("Wood", 1)];
    var recipe := CraftRecipes[1];
    assert recipe.ingredients == ["Wood", "Wood"];
    assert HasSome(inv, "Wood") by {
      assert inv[0].name == "Wood";
    }
    assert forall k :: 0 <= k < |recipe.ingredients| ==> HasSome(inv, recipe.ingredients[k]);
    assert Add([], "Wooden Armor", 1) == [Entry("Wooden Armor", 1)];
    assert Remove(inv, "Wood", 1) == [];
    assert RemoveEach(inv, ["Wood"]) == [] by {
      assert ["Wood"][..0] == [];
    }
    assert ["Wood", "Wood"][..1] == ["Wood"];
    assert RemoveEach(inv, ["Wood", "Wood"]) == [];
  }

  /** The evidently intended check: each ingredient held at least as many
      times as the recipe lists it. */
  predicate CanCraft(inv: seq<Entry>, ingredients: seq<string>) {
    forall k :: 0 <= k < |ingredients| ==> QuantityOf(inv, ingredients[k]) >= multiset(ingredients)[ingredients[k]]
  }

  function Craft(inv: seq<Entry>, recipe: Recipe): (seq<Entry>, bool) {
    if CanCraft(inv, recipe.ingredients) then (Add(RemoveEach(inv, recipe.ingredients), recipe.result, 1), true)
    else (inv, false)
  }

  /** With the corrected check a craft consumes exactly the listed
      ingredients, counted with multiplicity, and adds one result; a
      refused craft changes nothing. */
  lemma CraftEffect(inv: seq<Entry>, recipe: Recipe, m: string)
    requires Valid(inv)
    ensures var (inv2, ok) := Craft(inv, recipe);
      && (ok <==> CanCraft(inv, recipe.ingredients))
      && (ok ==> QuantityOf(inv2, m) == QuantityOf(inv, m) - multiset(recipe.ingredients)[m]
                                        + (if m == recipe.result then 1 else 0))
      && (!ok ==> inv2 == inv)
      && Valid(inv2)
  {
    var ingr := recipe.ingredients;
    if CanCraft(inv, ingr) {
      var used := RemoveEach(inv, ingr);
      RemoveEachQuantities(inv, ingr, m);
      if m in ingr {
        var k :| 0 <= k < |ingr| && ingr[k] == m;
      }
      AddQuantities(used, recipe.result, 1, m);
      AddKeepsValid(used, recipe.result, 1);
    }
  }

  /** The corrected check refuses the one-Wood armour. */
  lemma WoodenArmorNeedsTwoWood()
    ensures Craft([Entry("Wood", 1)], CraftRecipes[1]) == ([Entry("Wood", 1)], false)
  {
    var ingr := CraftRecipes[1].ingredients;
    assert multiset(ingr)["Wood"] == 2;
    assert QuantityOf([Entry("Wood", 1)], ingr[0]) == 1;
  }

  /** `showRepairItemScreen`'s callback: a repair costs one Wood when the
      first Wood entry holds any; otherwise nothing changes. */
  function Repair(inv: seq<Entry>): (seq<Entry>, bool) {
    if QuantityOf(inv, "Wood") >= 1 then (Remove(inv, "Wood", 1), true) else (inv, false)
  }

  lemma RepairEffect(inv: seq<Entry>, m: string)
    requires Valid(inv)
    ensures var (inv2, ok) := Repair(inv);
      && (ok <==> QuantityOf(inv, "Wood") >= 1)
      && QuantityOf(inv2, m) == QuantityOf(inv, m) - (if ok && m == "Wood" then 1 else 0)
      && Valid(inv2)
  {
    RemoveQuantities(inv, "Wood", 1, m);
    RemoveKeepsValid(inv, "Wood", 1);
  }
}
