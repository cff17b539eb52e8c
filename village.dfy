/** The stand-alone Village Commons scene (villageCommons.js): its own
    inventory book-keeping, the liquidity pool, the merchant quarter and
    the interaction objects of the Village map. The pool and market rules
    themselves are the ones in `Economy`; this scene applies them to its
    own fields. */
module Village {
  import opened Common
  import opened Text
  import opened Inventory
  import Economy
  import World

  /** The stats the Village and Scavenger Mode scenes keep: integer
      survival stats, the oromozi and the zone; no experience or level. */
  datatype BasicStats = BasicStats(health: int, thirst: int, hunger: int, stamina: int, oromozi: int, currentZone: string)

  /** `createInitialStats`: every survival stat full and the oromozi passed
      in carried over. */
  function BasicInitialStats(zone: string, oromozi: int): (s: BasicStats)
    ensures s.health == 100 && s.thirst == 100 && s.hunger == 100 && s.stamina == 100
    ensures s.oromozi == oromozi && s.currentZone == zone
  {
    BasicStats(100, 100, 100, 100, oromozi, zone)
  }

  /** `this.playerStats?.oromozi || 1000` as written: any falsy balance,
      zero included, is replaced by the thousand a new player starts with. */
  function InitialOromoziAsWritten(prev: Option<int>): int {
    if prev.Some? && prev.value != 0 then prev.value else 1000
  }

  /** A player who spent every oromozi is handed a thousand when the scene
      is created again. */
  lemma BrokePlayerGetsThousand()
    ensures InitialOromoziAsWritten(Some(0)) == 1000
  {
  }

  /** The evidently intended default: a thousand only for a player with no
      stats yet; any balance, zero included, is kept. */
  function InitialOromozi(prev: Option<int>): (o: int)
    ensures prev.Some? ==> o == prev.value
    ensures prev.None? ==> o == 1000
    ensures o != InitialOromoziAsWritten(prev) <==> prev == Some(0)
  {
    if prev.Some? then prev.value else 1000
  }

  /** The starting inventory when the scene is given none. */
  const DefaultInventory: seq<Entry> := [Entry("Bread", 1), Entry("Iron Sword", 1)]

  lemma DefaultInventoryValid()
    ensures Inventory.Valid(DefaultInventory)
    ensures QuantityOf(DefaultInventory, "Bread") == 1 && QuantityOf(DefaultInventory, "Iron Sword") == 1
  {
  }

  /** The Village's movement gate: any screen from the liquidity pool on. */
  predicate VillageMovementHalted(screen: int) {
    screen >= World.ScreenLiquidity
  }

  /** The Village gate agrees with the main scene's on every screen up to
      the battle screen, and differs only above it. */
  lemma VillageMovementGateAgrees(screen: int)
    ensures screen <= World.ScreenBattle ==> (VillageMovementHalted(screen) <==> World.MovementHalted(screen))
    ensures screen > World.ScreenBattle ==> VillageMovementHalted(screen) && !World.MovementHalted(screen)
  {
  }

  /** The estimate shown before a deposit: none when either entry does not
      parse as a number (`isNaN`), otherwise the pool's yield for the
      lock-up duration. */
  function DepositQuote(amount: Option<int>, duration: Option<int>): (r: Option<int>)
    ensures r.Some? <==> amount.Some? && duration.Some?
  {
    if amount.None? || duration.None? then None
    else Some(Economy.Yield(amount.value, duration.value as real))
  }

  /** The estimate is exactly the yield a withdrawal pays at the moment the
      lock-up ends: quote and payout use the same rate. */
  lemma DepositQuoteMatchesPayout(amount: int, duration: int, start: int)
    ensures DepositQuote(Some(amount), Some(duration)).value ==
      Economy.WithdrawCredit(Economy.Deposit(amount, duration, start), start + 1000 * duration) - amount
  {
    assert Economy.ElapsedSeconds(start + 1000 * duration, start) == duration as real;
  }

  /** The interaction object a name selects, case-insensitively: the
      liquidity bank, the merchant quarter, or none. */
  function InteractionScreen(name: string): (r: Option<int>)
    ensures r.Some? <==> LowerStr(name) == "liquidity_bank" || LowerStr(name) == "merchant_quarter"
    ensures r.Some? ==> VillageMovementHalted(r.value)
  {
    var key := LowerStr(name);
    if key == "liquidity_bank" then Some(World.ScreenLiquidity)
    else if key == "merchant_quarter" then Some(World.ScreenMerchant)
    else None
  }

  /** The Village Commons scene. */
  class VillageScene {
    var stats: BasicStats
    var inventory: seq<Entry>
    var deposits: seq<Economy.Deposit>
    var listed: seq<Economy.Listing>
    var screen: int

    /** The scene's invariant: a ledger with one positive entry per name,
        and deposits and listings of positive amounts. */
    predicate Valid()
      reads this
    {
      && Inventory.Valid(inventory)
      && (forall i :: 0 <= i < |deposits| ==> deposits[i].amount > 0)
      && (forall i :: 0 <= i < |listed| ==> listed[i].quantity > 0)
    }

    /** `createScene`: Village stats with the previous balance (see
        `InitialOromozi`), the inventory handed over or the default one, and
        an empty pool and listing book. */
    constructor(prevOromozi: Option<int>, data: Option<seq<Entry>>)
      requires data.None? || Inventory.Valid(data.value)
      ensures Valid()
      ensures stats == BasicInitialStats("Village", InitialOromozi(prevOromozi))
      ensures inventory == (if data.Some? then data.value else DefaultInventory)
      ensures deposits == [] && listed == [] && screen == World.ScreenNone
    {
      DefaultInventoryValid();
      stats := BasicInitialStats("Village", InitialOromozi(prevOromozi));
      inventory := if data.Some? then data.value else DefaultInventory;
      deposits := [];
      listed := [];
      screen := World.ScreenNone;
    }

    /** `addToInventory`: the first same-named entry grows, or a new one is
        appended. */
    method AddToInventory(name: string, q: int)
      requires Valid() && q > 0
      modifies this`inventory
      ensures Valid()
      ensures inventory == Add(old(inventory), name, q)
      ensures forall m :: QuantityOf(inventory, m) == QuantityOf(old(inventory), m) + (if m == name then q else 0)
    {
      forall m ensures QuantityOf(Add(inventory, name, q), m) == QuantityOf(inventory, m) + (if m == name then q else 0) {
        AddQuantities(inventory, name, q, m);
      }
      AddKeepsValid(inventory, name, q);
      inventory := Add(inventory, name, q);
    }

    /** `removeFromInventory`: the first same-named entry shrinks, and goes
        once nothing is left of it; an absent name changes nothing. */
    method RemoveFromInventory(name: string, q: int)
      requires Valid() && q > 0
      modifies this`inventory
      ensures Valid()
      ensures inventory == Remove(old(inventory), name, q)
      ensures forall m :: QuantityOf(inventory, m) == (if m == name then Max(0, QuantityOf(old(inventory), m) - q) else QuantityOf(old(inventory), m))
    {
      forall m ensures QuantityOf(Remove(inventory, name, q), m) == (if m == name then Max(0, QuantityOf(inventory, m) - q) else QuantityOf(inventory, m)) {
        RemoveQuantities(inventory, name, q, m);
      }
      RemoveKeepsValid(inventory, name, q);
      inventory := Remove(inventory, name, q);
    }

    /** The confirmed deposit, with the holding check (`Economy.CheckedDeposit`):
        on success the pool screen closes. */
    method ConfirmDeposit(resource: string, amount: int, duration: int, now: int) returns (ok: bool)
      requires Valid()
      modifies this`inventory, this`deposits, this`screen
      ensures Valid()
      ensures var r := Economy.CheckedDeposit(old(inventory), old(deposits), resource, amount, duration, now);
        && (ok <==> r.Some?)
        && (ok ==> (inventory, deposits) == r.value && screen == World.ScreenNone)
        && (!ok ==> inventory == old(inventory) && deposits == old(deposits) && screen == old(screen))
    {
      ok := 0 < amount <= QuantityOf(inventory, resource);
      if ok {
        RemoveFromInventory(resource, amount);
        deposits := deposits + [Economy.Deposit(amount, duration, now)];
        screen := World.ScreenNone;
      }
    }

    /** Withdrawing deposit `i` at `now`: its amount and yield are credited,
        only it leaves the pool, and the pool menu is shown again. */
    method Withdraw(i: nat, now: int)
      requires Valid() && i < |deposits|
      modifies this`stats, this`deposits, this`screen
      ensures Valid()
      ensures stats == old(stats).(oromozi := old(stats).oromozi + Economy.WithdrawCredit(old(deposits)[i], now))
      ensures deposits == Economy.RemoveAt(old(deposits), i)
      ensures screen == World.ScreenLiquidity
    {
      var d := deposits[i];
      var yieldAmount := Economy.Yield(d.amount, Economy.ElapsedSeconds(now, d.startTime));
      stats := stats.(oromozi := stats.oromozi + d.amount + yieldAmount);
      deposits := deposits[..i] + deposits[i + 1..];
      screen := World.ScreenLiquidity;
    }

    /** Listing the inventory entry at `index` for `price`, stamped with
        `now`; the merchant menu is shown again. */
    method ListItem(index: nat, price: int, now: int)
      requires Valid() && index < |inventory|
      modifies this`inventory, this`listed, this`screen
      ensures Valid()
      ensures (inventory, listed) == Economy.ListItem(old(inventory), old(listed), index, old(inventory)[index].name, price, now)
      ensures screen == World.ScreenMerchant
    {
      var name := inventory[index].name;
      listed := listed + [Economy.Listing(index, name, 1, price, now)];
      RemoveFromInventory(name, 1);
      screen := World.ScreenMerchant;
    }

    /** Buying item `k` of the marketplace: paid only when the oromozi
        covers the price; the merchant menu is shown again either way. */
    method Buy(k: nat) returns (ok: bool)
      requires Valid() && k < |Economy.MarketItems|
      modifies this`stats, this`inventory, this`screen
      ensures Valid()
      ensures (stats.oromozi, inventory, ok) ==
        Economy.Purchase(old(stats).oromozi, old(inventory), Economy.MarketItems[k].0, Economy.MarketItems[k].1)
      ensures stats == old(stats).(oromozi := stats.oromozi)
      ensures screen == World.ScreenMerchant
    {
      var (item, price) := Economy.MarketItems[k];
      ok := stats.oromozi >= price;
      if ok {
        stats := stats.(oromozi := stats.oromozi - price);
        AddToInventory(item, 1);
      }
      screen := World.ScreenMerchant;
    }

    /** Cancelling listing `i`: its units come back and only it leaves the
        book. */
    method CancelListing(i: nat)
      requires Valid() && i < |listed|
      modifies this`inventory, this`listed, this`screen
      ensures Valid()
      ensures (inventory, listed) == Economy.CancelListing(old(inventory), old(listed), i)
      ensures screen == World.ScreenMerchant
    {
      var l := listed[i];
      AddToInventory(l.item, l.quantity);
      listed := listed[..i] + listed[i + 1..];
      screen := World.ScreenMerchant;
    }

    /** Editing listing `i`'s price; nothing else in the book changes. */
    method EditPrice(i: nat, price: int)
      requires Valid() && i < |listed|
      modifies this`listed, this`screen
      ensures Valid()
      ensures |listed| == |old(listed)| && listed[i] == old(listed)[i].(price := price)
      ensures forall j :: 0 <= j < |listed| && j != i ==> listed[j] == old(listed)[j]
      ensures screen == World.ScreenMerchant
    {
      listed := listed[i := listed[i].(price := price)];
      screen := World.ScreenMerchant;
    }

    /** Clicking an interaction object: the bank and the merchant quarter
        open their menus; any other name leaves the screen as it is. */
    method Interact(name: string)
      modifies this`screen
      ensures screen == (var r := InteractionScreen(name); if r.Some? then r.value else old(screen))
    {
      var key := LowerStr(name);
      if key == "liquidity_bank" {
        screen := World.ScreenLiquidity;
      } else if key == "merchant_quarter" {
        screen := World.ScreenMerchant;
      }
    }

    /** "Back" from a menu: the screen closes and the player may move. */
    method Back()
      modifies this`screen
      ensures screen == World.ScreenNone && !VillageMovementHalted(screen)
    {
      screen := World.ScreenNone;
    }

    /** Confirming Scavenger Mode: the stats are rebuilt for the Outer
        Grasslands, but restarting this scene rebuilds them for the Village
        again, so the player stays in the Village with full stats, the same
        balance and inventory, and an emptied pool and listing book. */
    method EnterScavengerMode()
      requires Valid()
      modifies this
      ensures Valid()
      ensures stats == BasicInitialStats("Village", old(stats).oromozi)
      ensures inventory == old(inventory)
      ensures deposits == [] && listed == [] && screen == World.ScreenNone
    {
      stats := BasicInitialStats("Outer Grasslands", stats.oromozi);
      var carried := inventory;
      stats := BasicInitialStats("Village", InitialOromozi(Some(stats.oromozi)));
      inventory := carried;
      deposits := [];
      listed := [];
      screen := World.ScreenNone;
    }
  }
}
