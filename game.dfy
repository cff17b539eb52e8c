/** The scavenger scene of main.js: its state (stats, inventory, equipment,
    loot log, narrative screen, battle, economy ledgers and clock) and the
    rules that update it in place. Every method is specified by the pure
    definitions of the other modules. */
module Game {
  import opened Common
  import opened Text
  import opened Stats
  import opened Inventory
  import Catalog
  import OutcomeParser
  import Outcome
  import Battle
  import World
  import Economy
  import Camping
  import Skirmish

  type LootTable = Catalog.LootTable

  /* ---------- The loot log ---------- */

  /** `addToLog`'s message: a falsy one is logged as "Event occurred". */
  function LogMessage(msg: string): string {
    if msg == "" then "Event occurred" else msg
  }

  /** The log after one message: pushed at the end, and the oldest one
      shifted out once there are more than five. */
  function PushLog(log: seq<string>, msg: string): (r: seq<string>)
    ensures |log| <= 5 ==> |r| <= 5
    ensures r != [] && r[|r| - 1] == LogMessage(msg)
  {
    var l := log + [LogMessage(msg)];
    if |l| > 5 then l[1..] else l
  }

  /** The five most recent entries of a history. */
  function Latest(s: seq<string>): (r: seq<string>)
    ensures |r| <= 5
  {
    if |s| <= 5 then s else s[|s| - 5..]
  }

  function Messages(msgs: seq<string>): (r: seq<string>)
    ensures |r| == |msgs|
    ensures forall i :: 0 <= i < |msgs| ==> r[i] == LogMessage(msgs[i])
  {
    seq(|msgs|, i requires 0 <= i < |msgs| => LogMessage(msgs[i]))
  }

  /** Several messages logged one after the other. */
  function PushAll(log: seq<string>, msgs: seq<string>): seq<string>
    decreases |msgs|
  {
    if msgs == [] then log
    else PushLog(PushAll(log, msgs[..|msgs| - 1]), msgs[|msgs| - 1])
  }

  /** However many messages arrive, the log holds exactly the five most
      recent ones, oldest first. */
  lemma {:induction false} LogKeepsLatestFive(log: seq<string>, msgs: seq<string>)
    requires |log| <= 5
    ensures PushAll(log, msgs) == Latest(log + Messages(msgs))
    decreases |msgs|
  {
    if msgs == [] {
      assert log + Messages(msgs) == log;
    } else {
      var n := |msgs| - 1;
      LogKeepsLatestFive(log, msgs[..n]);
      var a := log + Messages(msgs[..n]);
      MessagesSnoc(msgs);
      assert log + Messages(msgs) == a + [LogMessage(msgs[n])];
      LatestSnoc(a, msgs[n]);
    }
  }

  lemma MessagesSnoc(msgs: seq<string>)
    requires msgs != []
    ensures Messages(msgs) == Messages(msgs[..|msgs| - 1]) + [LogMessage(msgs[|msgs| - 1])]
  {
  }

  /** Logging onto the latest five of a history keeps the latest five of
      the longer history. */
  lemma LatestSnoc(a: seq<string>, msg: string)
    ensures PushLog(Latest(a), msg) == Latest(a + [LogMessage(msg)])
  {
    var x := LogMessage(msg);
    var l := Latest(a) + [x];
    if |a| > 5 {
      assert l[1..] == (a + [x])[|a + [x]| - 5..];
    }
  }


  /* ---------- Loot ---------- */

  /** The scene's `addToInventory`: a falsy name is ignored; otherwise as
      `Inventory.Add`. */
  function AddItem(inv: seq<Entry>, name: string, q: int): seq<Entry> {
    if name == "" then inv else Add(inv, name, q)
  }

  /** `if (loot) addToInventory(scene, loot)`. */
  function AddLoot(inv: seq<Entry>, loot: Option<string>): seq<Entry> {
    if Catalog.Truthy(loot) then Add(inv, loot.value, 1) else inv
  }

  /** A drop adds one unit of the drawn item and nothing else; no drop
      changes nothing. */
  lemma AddLootEffect(inv: seq<Entry>, loot: Option<string>, m: string)
    requires Inventory.Valid(inv)
    ensures Inventory.Valid(AddLoot(inv, loot))
    ensures QuantityOf(AddLoot(inv, loot), m) ==
      QuantityOf(inv, m) + (if Catalog.Truthy(loot) && m == loot.value then 1 else 0)
  {
    if Catalog.Truthy(loot) {
      AddKeepsValid(inv, loot.value, 1);
      AddQuantities(inv, loot.value, 1, m);
    }
  }

  /** Every stat effect in the catalog is non-negative (a negative one
      could take a stat out of range when an item is used). */
  predicate EffectsNonNegative(table: Option<LootTable>) {
    table.Some? ==>
      forall z, d :: 0 <= z < |table.value.zones| && d in table.value.zones[z].1 ==>
        NonNegativeEffects(d.statEffects)
  }

  lemma ItemEffectsNonNegative(table: Option<LootTable>, name: string)
    requires EffectsNonNegative(table)
    ensures var d := Catalog.ItemData(table, name); d.Some? ==> NonNegativeEffects(d.value.statEffects)
  {
  }

  /** With the catalog's effects non-negative, no equipped item lowers
      the derived battle health, so the battle stats do not depend on equip
      order (`Battle.BattleStatsEquipOrderIrrelevant`). */
  lemma EquippedHealsNonNegative(table: Option<LootTable>, equipped: seq<string>)
    requires EffectsNonNegative(table)
    ensures Battle.HealsNonNegative(table, equipped)
  {
    forall i | 0 <= i < |equipped| ensures Battle.HealOf(table, equipped[i]) >= 0 {
      var d := Catalog.ItemData(table, equipped[i]);
      ItemEffectsNonNegative(table, equipped[i]);
      if d.Some? {
        Battle.EffectOfNonNegative(d.value.statEffects, "health");
      }
    }
  }

  /* ---------- Outcome resolution ---------- */

  /** The exploration reward outside the Village: 5..9 experience and a
      level check. */
  function ExplorationReward(s: PlayerStats, zone: string, u: real): PlayerStats
    requires IsRoll(u)
  {
    if zone == "Village" then s
    else CheckLevelUp(s.(experience := s.experience + Outcome.ExplorationExperience(u)))
  }

  /** The line the reward appends to the outcome text. */
  function ExplorationNote(zone: string, u: real): string
    requires IsRoll(u)
  {
    if zone == "Village" then "" else "\n(+" + IntToString(Outcome.ExplorationExperience(u)) + " EXP)"
  }

  lemma ExplorationRewardEffect(s: PlayerStats, zone: string, u: real)
    requires Stats.Valid(s) && IsRoll(u)
    ensures var r := ExplorationReward(s, zone, u);
      && Stats.Valid(r)
      && (zone == "Village" ==> r == s)
      && (zone != "Village" ==>
            5 <= LifetimeExperience(r) - LifetimeExperience(s) <= 9
            && s.level <= r.level <= s.level + 1 && r.oromozi == s.oromozi)
  {
    if zone != "Village" {
      var t := s.(experience := s.experience + Outcome.ExplorationExperience(u));
      CheckLevelUpKeepsLifetimeExperience(t);
      CheckLevelUpAtMostOneLevel(t);
    }
  }

  /** What the `(+Loot)` marker appends to the text and to the log. */
  function LootNote(loot: Option<string>): string {
    if Catalog.Truthy(loot) then "\nLoot received: " + loot.value else "\nSearched but found nothing of value."
  }

  function LootLogLine(loot: Option<string>): string {
    if Catalog.Truthy(loot) then "Received: " + loot.value else "Searched but found nothing of value"
  }

  /** Where an outcome leads once applied. */
  datatype OutcomeNext = Travelled(zone: string) | Fishing | Shown(text: string)

  /** A travel request naming a zone restarts the scene there; otherwise a
      fishing transition leaves for the fishing scene; otherwise the text
      is shown. An unknown zone only warns. */
  function NextStep(text: string): (r: OutcomeNext)
    ensures r.Travelled? <==> World.TravelDestination(text).Some?
    ensures r.Travelled? ==> r.zone in World.ZoneNames
  {
    match World.TravelDestination(text)
    case Some(z) => Travelled(z)
    case None =>
      if Contains(LowerStr(text), "transition to fishing scene") then Fishing else Shown(text)
  }

  datatype Resolution = Resolution(stats: PlayerStats, inventory: seq<Entry>, log: seq<string>, text: string)

  /** `applyOutcome` up to the travel check: the directives and the tick,
      the exploration reward, then the loot marker, drawn at the level
      reached after the reward. */
  function Resolve(s: PlayerStats, inv: seq<Entry>, log: seq<string>, resist: map<string, int>,
                   table: Option<LootTable>, zone: string, text: string, u: real, rolls: Catalog.LootRolls): Resolution
    requires IsRoll(u) && Catalog.ValidRolls(rolls)
  {
    var s1 := Outcome.Resolve(s, resist, zone, text);
    var s2 := ExplorationReward(s1, zone, u);
    var t2 := text + ExplorationNote(zone, u);
    if Contains(t2, "(+Loot)") then
      var loot := Catalog.RandomLoot(table, zone, s2.level, rolls);
      Resolution(s2, AddLoot(inv, loot), PushLog(log, LootLogLine(loot)), t2 + LootNote(loot))
    else Resolution(s2, inv, log, t2)
  }

  /** Resolving an outcome keeps the stats and the ledger valid and the log
      within five entries, never touches the currency, extends the text
      without altering it, and adds at most one unit of loot, only when
      the marker is present. */
  lemma ResolveEffect(s: PlayerStats, inv: seq<Entry>, log: seq<string>, resist: map<string, int>,
                      table: Option<LootTable>, zone: string, text: string, u: real, rolls: Catalog.LootRolls, m: string)
    requires Stats.Valid(s) && Inventory.Valid(inv) && |log| <= 5
    requires IsRoll(u) && Catalog.ValidRolls(rolls)
    ensures var r := Resolve(s, inv, log, resist, table, zone, text, u, rolls);
      && Stats.Valid(r.stats) && Inventory.Valid(r.inventory) && |r.log| <= 5
      && r.stats.oromozi == s.oromozi
      && |text| <= |r.text| && r.text[..|text|] == text
      && QuantityOf(inv, m) <= QuantityOf(r.inventory, m) <= QuantityOf(inv, m) + 1
      && (!Contains(text + ExplorationNote(zone, u), "(+Loot)") ==> r.inventory == inv && r.log == log)
  {
    var s2 := ExplorationReward(Outcome.Resolve(s, resist, zone, text), zone, u);
    ResolveStatsEffect(s, resist, zone, text, u);
    var t2 := text + ExplorationNote(zone, u);
    assert t2[..|text|] == text;
    if Contains(t2, "(+Loot)") {
      var loot := Catalog.RandomLoot(table, zone, s2.level, rolls);
      AddLootEffect(inv, loot, m);
      assert (t2 + LootNote(loot))[..|text|] == text;
    }
  }

  /** The stat part of a resolution: the directives, then the exploration
      reward, keep the stats valid and the currency untouched. */
  lemma ResolveStatsEffect(s: PlayerStats, resist: map<string, int>, zone: string, text: string, u: real)
    requires Stats.Valid(s) && IsRoll(u)
    ensures var r := ExplorationReward(Outcome.Resolve(s, resist, zone, text), zone, u);
      Stats.Valid(r) && r.oromozi == s.oromozi
  {
    var s1 := Outcome.Resolve(s, resist, zone, text);
    Outcome.ResolveKeepsValid(s, resist, zone, text);
    ExplorationRewardEffect(s1, zone, u);
  }

  /* ---------- Battles ---------- */

  /** `endBattle` on the stats and the inventory: the stats as
      `Battle.EndBattleStats` settles them; after a victory, a 40% chance
      of a drop for the zone at the level the level check reached. */
  function EndBattleSpoils(s: PlayerStats, inv: seq<Entry>, table: Option<LootTable>, zone: string, enemyLevel: int,
                           result: Battle.BattleResult, u: real, rolls: Catalog.LootRolls): (PlayerStats, seq<Entry>)
    requires Catalog.ValidRolls(rolls)
  {
    var r := Battle.EndBattleStats(s, enemyLevel, result);
    if result == Battle.Victory && u < 0.4 then (r, AddLoot(inv, Catalog.RandomLoot(table, zone, r.level, rolls)))
    else (r, inv)
  }

  /** The end of a battle keeps stats and ledger valid; only a victory can
      add to the inventory, and then at most one unit. */
  lemma EndBattleSpoilsEffect(s: PlayerStats, inv: seq<Entry>, table: Option<LootTable>, zone: string, enemyLevel: int,
                              result: Battle.BattleResult, u: real, rolls: Catalog.LootRolls, m: string)
    requires Stats.Valid(s) && Inventory.Valid(inv) && enemyLevel >= 1 && Catalog.ValidRolls(rolls)
    ensures var (r, inv2) := EndBattleSpoils(s, inv, table, zone, enemyLevel, result, u, rolls);
      && Stats.Valid(r) && Inventory.Valid(inv2)
      && QuantityOf(inv, m) <= QuantityOf(inv2, m) <= QuantityOf(inv, m) + 1
      && (result != Battle.Victory || u >= 0.4 ==> inv2 == inv)
      && (result == Battle.Defeat ==> r.health == 20.0)
  {
    Battle.EndBattleEffect(s, enemyLevel, result);
    var r := Battle.EndBattleStats(s, enemyLevel, result);
    AddLootEffect(inv, Catalog.RandomLoot(table, zone, r.level, rolls), m);
  }

  /** The item a battle's item menu offers: a held item whose catalog
      record has a non-zero health effect. */
  predicate Heals(table: Option<LootTable>, name: string) {
    var d := Catalog.ItemData(table, name);
    d.Some? && Battle.EffectOf(d.value.statEffects, "health") != 0
  }

  /** `showBattleItemMenu`'s filter: the healing entries, in ledger order. */
  function HealingItems(table: Option<LootTable>, inv: seq<Entry>): (r: seq<Entry>)
    ensures forall e :: e in r <==> e in inv && Heals(table, e.name)
    ensures |r| <= |inv|
    decreases |inv|
  {
    if inv == [] then []
    else
      var n := |inv| - 1;
      HealingItems(table, inv[..n]) + (if Heals(table, inv[n].name) then [inv[n]] else [])
  }

  /* ---------- Skirmish rewards ---------- */

  /** `Monster.takeDamage` on a kill: 10..14 experience, a 40% chance of a
      drop drawn at the level held before the kill, then the level check. */
  function KillSpoils(s: PlayerStats, inv: seq<Entry>, table: Option<LootTable>, zone: string,
                      expRoll: real, lootRoll: real, rolls: Catalog.LootRolls): (PlayerStats, seq<Entry>)
    requires IsRoll(expRoll) && Catalog.ValidRolls(rolls)
  {
    var s1 := s.(experience := s.experience + Skirmish.KillExperience(expRoll));
    var inv1 := if lootRoll < 0.4 then AddLoot(inv, Catalog.RandomLoot(table, zone, s.level, rolls)) else inv;
    (CheckLevelUp(s1), inv1)
  }

  /** A kill keeps stats and ledger valid, pays 10..14 experience over the
      player's lifetime, grants at most one level, never touches the
      currency and adds at most one unit of loot. */
  lemma KillSpoilsEffect(s: PlayerStats, inv: seq<Entry>, table: Option<LootTable>, zone: string,
                         expRoll: real, lootRoll: real, rolls: Catalog.LootRolls, m: string)
    requires Stats.Valid(s) && Inventory.Valid(inv) && IsRoll(expRoll) && Catalog.ValidRolls(rolls)
    ensures var (r, inv2) := KillSpoils(s, inv, table, zone, expRoll, lootRoll, rolls);
      && Stats.Valid(r) && Inventory.Valid(inv2)
      && 10 <= LifetimeExperience(r) - LifetimeExperience(s) <= 14
      && s.level <= r.level <= s.level + 1 && r.oromozi == s.oromozi
      && QuantityOf(inv, m) <= QuantityOf(inv2, m) <= QuantityOf(inv, m) + 1
      && (lootRoll >= 0.4 ==> inv2 == inv)
  {
    var x := Skirmish.KillExperience(expRoll);
    KillExperienceEffect(s, x);
    if lootRoll < 0.4 {
      AddLootEffect(inv, Catalog.RandomLoot(table, zone, s.level, rolls), m);
    }
  }

  /** The stat part of a kill: `x` experience and the level check. */
  lemma KillExperienceEffect(s: PlayerStats, x: int)
    requires Stats.Valid(s) && 10 <= x <= 14
    ensures var r := CheckLevelUp(s.(experience := s.experience + x));
      && Stats.Valid(r)
      && 10 <= LifetimeExperience(r) - LifetimeExperience(s) <= 14
      && s.level <= r.level <= s.level + 1 && r.oromozi == s.oromozi
  {
    var s1 := s.(experience := s.experience + x);
    assert LifetimeExperience(s1) == LifetimeExperience(s) + x;
    CheckLevelUpKeepsLifetimeExperience(s1);
    CheckLevelUpAtMostOneLevel(s1);
  }

  /** What a broken crate writes to the log. */
  function CrateLogLine(loot: Option<string>): string {
    if Catalog.Truthy(loot) then "Received: " + loot.value else "No loot found"
  }

  /** The scene restarted by `scene.restart` keeps its stats, equipment
      and ledgers; createScene sets the zone, inventory and prompt count
      it is given and clears the screen, the log and the camping latch. */
  datatype SceneData = SceneData(zone: string, inventory: seq<Entry>, promptCount: int)

  /** The inventory a new game starts with. */
  const StartingInventory: seq<Entry> :=
    [Entry("Bread", 1), Entry("Water", 1), Entry("Iron Sword", 1), Entry("Wooden Armor", 1), Entry("Healing Medicine", 1)]

  /** The five starting items have five different names. */
  lemma StartingNamesDiffer()
    ensures forall i, j :: 0 <= i < j < |StartingInventory| ==> StartingInventory[i].name != StartingInventory[j].name
  {
    var n := seq(5, k requires 0 <= k < 5 => StartingInventory[k].name);
    assert n[0][0] == 'B' && n[1][0] == 'W' && n[2][0] == 'I' && n[3][0] == 'W' && n[4][0] == 'H';
    assert n[1][1] == 'a' && n[3][1] == 'o';
  }

  lemma StartingInventoryValid()
    ensures Inventory.Valid(StartingInventory)
    ensures QuantityOf(StartingInventory, "Bread") == 1 && QuantityOf(StartingInventory, "Water") == 1
    ensures QuantityOf(StartingInventory, "Iron Sword") == 1 && QuantityOf(StartingInventory, "Wooden Armor") == 1
    ensures QuantityOf(StartingInventory, "Healing Medicine") == 1
  {
    var inv := StartingInventory;
    StartingNamesDiffer();
    IndexOfIs(inv, "Bread", 0);
    IndexOfIs(inv, "Water", 1);
    IndexOfIs(inv, "Iron Sword", 2);
    IndexOfIs(inv, "Wooden Armor", 3);
    IndexOfIs(inv, "Healing Medicine", 4);
  }

  class Scene {
    const table: Option<LootTable>
    var stats: PlayerStats
    var zone: string
    var inventory: seq<Entry>
    var equipped: seq<string>
    var equippedResist: map<string, int>
    var log: seq<string>
    var screen: int
    var promptCount: int
    var deposits: seq<Economy.Deposit>
    var listed: seq<Economy.Listing>
    var trades: seq<Economy.TradeOffer>
    var battleEnemy: Option<Battle.Enemy>
    var battleTurn: int
    var battleLog: seq<string>
    var battleDefending: bool
    var gameTime: real
    var promptedCamping: bool

    /** What every rule keeps true of the scene. */
    predicate Valid()
      reads this
    {
      && StatsValid() && LedgerValid() && EquipmentValid() && LogValid()
      && EffectsNonNegative(table) && BooksValid() && ClockValid() && BattleValid()
    }

    /** The stats are in range and name the scene's zone. */
    predicate StatsValid()
      reads this`stats, this`zone
    {
      Stats.Valid(stats) && stats.currentZone == zone
    }

    predicate LedgerValid()
      reads this`inventory
    {
      Inventory.Valid(inventory)
    }

    /** The resistance sums are those of the equipped items. */
    predicate EquipmentValid()
      reads this`equipped, this`equippedResist
    {
      equippedResist == Catalog.EquippedResist(table, equipped)
    }

    predicate LogValid()
      reads this`log, this`promptCount
    {
      |log| <= 5 && promptCount >= 0
    }

    /** Deposits, listings and trade offers are all of positive amounts. */
    predicate BooksValid()
      reads this`deposits, this`listed, this`trades
    {
      && (forall i :: 0 <= i < |deposits| ==> deposits[i].amount > 0)
      && (forall i :: 0 <= i < |listed| ==> listed[i].quantity > 0)
      && (forall i :: 0 <= i < |trades| ==> trades[i].quantity > 0)
    }

    predicate ClockValid()
      reads this`gameTime
    {
      0.0 <= gameTime < World.SecondsPerDay as real
    }

    predicate BattleValid()
      reads this`battleEnemy
    {
      battleEnemy.Some? ==> battleEnemy.value.level >= 1 && battleEnemy.value.health >= 0
    }

    /** `createScene` on a first start: the given zone, inventory and prompt
        count, or the Village with the starting inventory; full stats with
        1000 oromozi; nothing equipped; an empty log; the clock at 6 AM. */
    constructor(table: Option<LootTable>, data: Option<SceneData>)
      requires EffectsNonNegative(table)
      requires data.Some? ==> Inventory.Valid(data.value.inventory)
      ensures Valid()
      ensures this.table == table
      ensures data.None? ==> zone == "Village" && inventory == StartingInventory && promptCount == 0
      ensures data.Some? ==> zone == data.value.zone && inventory == data.value.inventory
                              && promptCount == Max(data.value.promptCount, 0)
      ensures stats == CreateInitialStats(zone, 1000)
      ensures equipped == [] && log == [] && screen == World.ScreenNone && !promptedCamping
      ensures deposits == [] && listed == [] && trades == [] && battleEnemy.None?
      ensures gameTime == 0.0
    {
      this.table := table;
      var d := if data.Some? then data.value else SceneData("Village", StartingInventory, 0);
      StartingInventoryValid();
      zone := d.zone;
      inventory := d.inventory;
      promptCount := Max(d.promptCount, 0);
      stats := CreateInitialStats(d.zone, 1000);
      equipped := [];
      equippedResist := map[];
      log := [];
      screen := World.ScreenNone;
      deposits := [];
      listed := [];
      trades := [];
      battleEnemy := None;
      battleTurn := 0;
      battleLog := [];
      battleDefending := false;
      gameTime := 0.0;
      promptedCamping := false;
    }

    /** `scene.restart({zone, inventory, promptCount})` followed by
        createScene on the existing scene. */
    method Restart(z: string, inv: seq<Entry>, pc: int)
      requires Valid() && Inventory.Valid(inv) && pc >= 0
      modifies this`stats, this`zone, this`inventory, this`promptCount, this`log, this`screen, this`promptedCamping
      ensures Valid()
      ensures stats == old(stats).(currentZone := z) && zone == z
      ensures inventory == inv && promptCount == pc
      ensures log == [] && screen == World.ScreenNone && !promptedCamping
    {
      MoveTo(z);
      ResetSession(inv, pc);
    }

    /** The zone the restarted scene is created in, recorded in the stats. */
    method MoveTo(z: string)
      requires Valid()
      modifies this`stats, this`zone
      ensures Valid()
      ensures stats == old(stats).(currentZone := z) && zone == z
    {
      stats := stats.(currentZone := z);
      zone := z;
    }

    /** What createScene sets afresh: the inventory and prompt count handed
        over, an empty log, no open screen and the camping latch down. */
    method ResetSession(inv: seq<Entry>, pc: int)
      requires Valid() && Inventory.Valid(inv) && pc >= 0
      modifies this`inventory, this`promptCount, this`log, this`screen, this`promptedCamping
      ensures Valid()
      ensures inventory == inv && promptCount == pc
      ensures log == [] && screen == World.ScreenNone && !promptedCamping
    {
      inventory := inv;
      promptCount := pc;
      ClearLog();
    }

    /** The log emptied, no screen open, the camping latch down. */
    method ClearLog()
      requires Valid()
      modifies this`log, this`screen, this`promptedCamping
      ensures Valid()
      ensures log == [] && screen == World.ScreenNone && !promptedCamping
    {
      log := [];
      screen := World.ScreenNone;
      promptedCamping := false;
    }

    /** `addToInventory`: a falsy name is ignored; otherwise the same-named
        entry grows or a new entry is appended. */
    method AddToInventory(name: string, q: int)
      requires Valid() && q > 0
      modifies this`inventory
      ensures Valid()
      ensures inventory == AddItem(old(inventory), name, q)
      ensures forall m :: QuantityOf(inventory, m) == QuantityOf(old(inventory), m) + (if name != "" && m == name then q else 0)
    {
      if name == "" {
        return;
      }
      forall m ensures QuantityOf(Add(inventory, name, q), m) == QuantityOf(inventory, m) + (if m == name then q else 0) {
        AddQuantities(inventory, name, q, m);
      }
      AddKeepsValid(inventory, name, q);
      var i := IndexOf(inventory, name);
      if i >= 0 {
        inventory := inventory[i := Entry(name, inventory[i].quantity + q)];
      } else {
        inventory := inventory + [Entry(name, q)];
      }
    }

    /** `removeFromInventory`: the first same-named entry shrinks, and goes
        once empty; an absent name changes nothing. */
    method RemoveFromInventory(name: string, q: int)
      requires Valid() && q >= 0
      modifies this`inventory
      ensures Valid()
      ensures inventory == Remove(old(inventory), name, q)
      ensures forall m :: QuantityOf(inventory, m) == (if m == name then Max(QuantityOf(old(inventory), m) - q, 0) else QuantityOf(old(inventory), m))
    {
      forall m ensures QuantityOf(Remove(inventory, name, q), m) ==
        (if m == name then Max(QuantityOf(inventory, m) - q, 0) else QuantityOf(inventory, m))
      {
        RemoveQuantities(inventory, name, q, m);
      }
      RemoveKeepsValid(inventory, name, q);
      var i := IndexOf(inventory, name);
      if i != -1 {
        var left := inventory[i].quantity - q;
        if left <= 0 {
          inventory := inventory[..i] + inventory[i + 1..];
        } else {
          inventory := inventory[i := Entry(name, left)];
        }
      }
    }

    /** `addToLog`. */
    method AddToLog(msg: string)
      requires Valid()
      modifies this`log
      ensures Valid()
      ensures log == PushLog(old(log), msg)
    {
      log := log + [LogMessage(msg)];
      if |log| > 5 {
        log := log[1..];
      }
    }

    /** `recalcEquippedResist`: the sums rebuilt from nothing, item by item
        and, within an item, entry by entry. */
    method RecalcEquippedResist()
      modifies this`equippedResist
      ensures equippedResist == Catalog.EquippedResist(table, equipped)
    {
      var sums: map<string, int> := map[];
      var i := 0;
      while i < |equipped|
        invariant 0 <= i <= |equipped|
        invariant sums == Catalog.EquippedResist(table, equipped[..i])
      {
        var resist := Catalog.ItemResist(table, equipped[i]);
        var before := sums;
        var k := 0;
        while k < |resist|
          invariant 0 <= k <= |resist|
          invariant sums == Catalog.AddResist(before, resist[..k])
        {
          assert resist[..k + 1][..k] == resist[..k];
          var key := resist[k].0;
          sums := sums[key := Catalog.ResistFor(sums, key) + resist[k].1];
          k := k + 1;
        }
        assert resist[..|resist|] == resist;
        assert equipped[..i + 1][..i] == equipped[..i];
        i := i + 1;
      }
      assert equipped[..|equipped|] == equipped;
      equippedResist := sums;
    }

    /** `endFlow`: the narrative closes and one more prompt is counted. */
    method EndFlow()
      requires Valid()
      modifies this`screen, this`promptCount
      ensures Valid()
      ensures screen == World.ScreenNone && promptCount == old(promptCount) + 1
    {
      screen := World.ScreenNone;
      promptCount := promptCount + 1;
    }

    /** `handleEquipItem`: the name is pushed (duplicates allowed), the
        resist sums rebuilt, and the flow ends. */
    method EquipItem(name: string)
      requires Valid()
      modifies this`equipped, this`equippedResist, this`screen, this`promptCount
      ensures Valid()
      ensures equipped == old(equipped) + [name]
      ensures forall key :: (Catalog.ResistFor(equippedResist, key) ==
        Catalog.ResistFor(old(equippedResist), key) + Catalog.DeclaredResist(Catalog.ItemResist(table, name), key))
      ensures screen == World.ScreenNone && promptCount == old(promptCount) + 1
    {
      equipped := equipped + [name];
      RecalcEquippedResist();
      forall key ensures Catalog.ResistFor(equippedResist, key) ==
        Catalog.ResistFor(old(equippedResist), key) + Catalog.DeclaredResist(Catalog.ItemResist(table, name), key)
      {
        Catalog.EquipAddsResist(table, old(equipped), name, key);
      }
      EndFlow();
    }

    /** `applyItemEffects`: every numeric stat the item names is raised by
        its value, capped at 100, in entry order. */
    method ApplyItemEffects(d: Option<Catalog.ItemDef>) returns (modified: bool)
      modifies this`stats
      ensures d.None? ==> !modified && stats == old(stats)
      ensures d.Some? ==> (stats, modified) == Stats.ApplyItemEffects(old(stats), d.value.statEffects)
    {
      if d.None? {
        return false;
      }
      var effects := d.value.statEffects;
      modified := false;
      var i := 0;
      while i < |effects|
        invariant 0 <= i <= |effects|
        invariant (stats, modified) == Stats.ApplyItemEffects(old(stats), effects[..i])
      {
        assert effects[..i + 1][..i] == effects[..i];
        var (key, value) := effects[i];
        if IsNumericStat(key) {
          stats := RaiseCapped(stats, key, value);
          modified := true;
        }
        i := i + 1;
      }
      assert effects[..|effects|] == effects;
    }

    /** `handleUseItem`: an item with a usable effect is applied and one
        unit spent; the flow ends either way. */
    method UseItem(name: string) returns (used: bool)
      requires Valid()
      modifies this`stats, this`inventory, this`screen, this`promptCount
      ensures Valid()
      ensures var d := Catalog.ItemData(table, name);
        && used == (d.Some? && HasNumericStat(d.value.statEffects))
        && (used ==> stats == Stats.ApplyItemEffects(old(stats), d.value.statEffects).0
                     && inventory == Remove(old(inventory), name, 1))
        && (!used ==> stats == old(stats) && inventory == old(inventory))
      ensures screen == World.ScreenNone && promptCount == old(promptCount) + 1
    {
      var d := Catalog.ItemData(table, name);
      ItemEffectsNonNegative(table, name);
      used := ApplyItemEffects(d);
      if used {
        RemoveFromInventory(name, 1);
      }
      EndFlow();
    }

    /** `applySurvivalTickAndOutcome`: the directives, collected by
        `CollectDirectives`, are applied in order against the equipped
        resist, and the survival tick follows. */
    method ApplySurvivalTickAndOutcome(text: string)
      requires Valid()
      modifies this`stats
      ensures Valid()
      ensures stats == Outcome.Resolve(old(stats), equippedResist, zone, text)
    {
      var changes := OutcomeParser.CollectDirectives(text);
      Outcome.ResolveKeepsValid(stats, equippedResist, zone, text);
      ApplyDirectives(changes);
      stats := Outcome.SurvivalTick(stats, zone);
    }

    /** The directive loop of `applySurvivalTickAndOutcome`: each collected
        change applied in order against the equipped resist. */
    method ApplyDirectives(changes: seq<OutcomeParser.Token>)
      modifies this`stats
      ensures stats == Outcome.ApplyTokens(old(stats), equippedResist, changes)
    {
      var i := 0;
      while i < |changes|
        invariant 0 <= i <= |changes|
        invariant stats == Outcome.ApplyTokens(old(stats), equippedResist, changes[..i])
      {
        assert changes[..i + 1][..i] == changes[..i];
        stats := Outcome.ApplyToken(stats, equippedResist, changes[i]);
        i := i + 1;
      }
      assert changes[..|changes|] == changes;
    }

    /** The exploration step of `applyOutcome`: outside the Village, 5..9
        experience, the note appended to the text, and a level check. */
    method RewardExploration(u: real) returns (note: string)
      requires Valid() && IsRoll(u)
      modifies this`stats
      ensures Valid()
      ensures stats == ExplorationReward(old(stats), zone, u) && note == ExplorationNote(zone, u)
    {
      ExplorationRewardEffect(stats, zone, u);
      note := "";
      if zone != "Village" {
        var gain := Outcome.ExplorationExperience(u);
        stats := CheckLevelUp(stats.(experience := stats.experience + gain));
        note := "\n(+" + IntToString(gain) + " EXP)";
      }
    }

    /** The `(+Loot)` step of `applyOutcome`: a draw for the current zone
        and level; an item is added and logged, or the empty search is. */
    method SearchForLoot(rolls: Catalog.LootRolls) returns (note: string)
      requires Valid() && Catalog.ValidRolls(rolls)
      modifies this`inventory, this`log
      ensures Valid()
      ensures var loot := Catalog.RandomLoot(table, zone, stats.level, rolls);
        inventory == AddLoot(old(inventory), loot) && log == PushLog(old(log), LootLogLine(loot))
        && note == LootNote(loot)
    {
      var loot := Catalog.RandomLoot(table, zone, stats.level, rolls);
      if Catalog.Truthy(loot) {
        AddToInventory(loot.value, 1);
        note := "\nLoot received: " + loot.value;
        AddToLog("Received: " + loot.value);
      } else {
        note := "\nSearched but found nothing of value.";
        AddToLog("Searched but found nothing of value");
      }
    }

    /** The stat, loot and text part of `applyOutcome`. */
    method ResolveOutcome(text: string, u: real, rolls: Catalog.LootRolls) returns (full: string)
      requires Valid() && IsRoll(u) && Catalog.ValidRolls(rolls)
      modifies this`stats, this`inventory, this`log
      ensures Valid()
      ensures Resolve(old(stats), old(inventory), old(log), equippedResist, table, zone, text, u, rolls)
        == Resolution(stats, inventory, log, full)
    {
      ApplySurvivalTickAndOutcome(text);
      var note := RewardExploration(u);
      full := text + note;
      if Contains(full, "(+Loot)") {
        var lootNote := SearchForLoot(rolls);
        full := full + lootNote;
      }
    }

    /** `applyOutcome`: resolve the text, reward exploration, draw loot for
        the marker, then follow a travel request or a fishing transition,
        or show the text. */
    method ApplyOutcome(text: string, u: real, rolls: Catalog.LootRolls) returns (next: OutcomeNext)
      requires Valid() && IsRoll(u) && Catalog.ValidRolls(rolls)
      modifies this`stats, this`zone, this`inventory, this`log, this`screen, this`promptedCamping
      ensures Valid()
      ensures var r := Resolve(old(stats), old(inventory), old(log), equippedResist, table, old(zone), text, u, rolls);
        && next == NextStep(r.text)
        && inventory == r.inventory
        && (next.Travelled? ==>
              stats == r.stats.(currentZone := next.zone) && zone == next.zone
              && log == [] && screen == World.ScreenNone && !promptedCamping)
        && (!next.Travelled? ==>
              stats == r.stats && zone == old(zone) && log == r.log
              && screen == old(screen) && promptedCamping == old(promptedCamping))
    {
      var full := ResolveOutcome(text, u, rolls);
      next := FollowText(full);
    }

    /** What the resolved text leads to: a travel request restarts the
        scene in that zone with the same inventory and prompt count; a
        fishing transition or plain text leaves the scene as it is. */
    method FollowText(full: string) returns (next: OutcomeNext)
      requires Valid()
      modifies this`stats, this`zone, this`log, this`screen, this`promptedCamping
      ensures Valid() && next == NextStep(full)
      ensures next.Travelled? ==>
        stats == old(stats).(currentZone := next.zone) && zone == next.zone
        && log == [] && screen == World.ScreenNone && !promptedCamping
      ensures !next.Travelled? ==>
        stats == old(stats) && zone == old(zone) && log == old(log)
        && screen == old(screen) && promptedCamping == old(promptedCamping)
    {
      next := NextStep(full);
      if next.Travelled? {
        MoveTo(next.zone);
        ClearLog();
      }
    }

    /** `enterBattleMode`: the battle screen opens against a fresh enemy,
        with the turn counter and the battle log reset (the defend flag
        is left as it was). */
    method EnterBattle(levelRoll: real, nameRoll: real)
      requires Valid() && IsRoll(levelRoll) && IsRoll(nameRoll)
      modifies this`screen, this`battleEnemy, this`battleTurn, this`battleLog
      ensures Valid()
      ensures screen == World.ScreenBattle
      ensures battleEnemy == Some(Battle.GenerateEnemy(stats.level, levelRoll, nameRoll))
      ensures battleTurn == 0 && battleLog == []
    {
      screen := World.ScreenBattle;
      battleEnemy := Some(Battle.GenerateEnemy(stats.level, levelRoll, nameRoll));
      battleTurn := 0;
      battleLog := [];
    }

    /** `endBattle`: rewards, penalty or nothing, then the victory's
        chance of loot; the battle screen stays until SPACE. */
    method EndBattle(result: Battle.BattleResult, u: real, rolls: Catalog.LootRolls)
      requires Valid() && battleEnemy.Some? && Catalog.ValidRolls(rolls)
      modifies this`stats, this`inventory
      ensures Valid()
      ensures (stats, inventory) ==
        EndBattleSpoils(old(stats), old(inventory), table, zone, battleEnemy.value.level, result, u, rolls)
    {
      var level := battleEnemy.value.level;
      match result {
        case Victory =>
          RewardVictory(level);
          if u < 0.4 {
            var loot := Catalog.RandomLoot(table, zone, stats.level, rolls);
            if Catalog.Truthy(loot) {
              AddToInventory(loot.value, 1);
            }
          }
        case Defeat =>
          PenalizeDefeat(level);
        case Fled =>
      }
    }

    /** A victory's rewards: experience and oromozi by the enemy's level,
        then the level check. */
    method RewardVictory(level: int)
      requires Valid() && level >= 1
      modifies this`stats
      ensures Valid()
      ensures stats == Battle.EndBattleStats(old(stats), level, Battle.Victory)
    {
      Battle.EndBattleEffect(stats, level, Battle.Victory);
      stats := stats.(experience := stats.experience + 10 + level * 5);
      stats := stats.(oromozi := stats.oromozi + 20 + level * 10);
      stats := CheckLevelUp(stats);
    }

    /** A defeat's penalty: up to 50 oromozi lost and health set to 20. */
    method PenalizeDefeat(level: int)
      requires Valid() && level >= 1
      modifies this`stats
      ensures Valid()
      ensures stats == Battle.EndBattleStats(old(stats), level, Battle.Defeat)
    {
      Battle.EndBattleEffect(stats, level, Battle.Defeat);
      var loss := Min(stats.oromozi, 50);
      stats := stats.(oromozi := stats.oromozi - loss);
      stats := stats.(health := 20.0);
    }

    /** The scene's battle fields as a `Battle.BattleState`. */
    function BattleFields(): Battle.BattleState
      reads this
      requires battleEnemy.Some?
    {
      Battle.BattleState(stats.health, battleEnemy.value, battleTurn, battleLog, battleDefending)
    }

    /** One turn of `performBattleAction` up to the end of the battle:
        `Battle.Turn` played on the scene's battle fields. */
    method PlayTurn(action: Battle.Action, rolls: Battle.TurnRolls) returns (end: Battle.TurnEnd)
      requires Valid() && battleEnemy.Some? && Battle.ValidTurnRolls(rolls)
      modifies this`stats, this`battleEnemy, this`battleTurn, this`battleLog, this`battleDefending
      ensures Valid() && battleEnemy.Some?
      ensures (BattleFields(), end) ==
        Battle.Turn(old(BattleFields()), Battle.CalculateBattleStats(old(stats), table, equipped), old(stats).level, action, rolls)
      ensures stats == old(stats).(health := stats.health)
    {
      var b := Battle.CalculateBattleStats(stats, table, equipped);
      var st := BattleFields();
      Battle.TurnKeepsRanges(st, b, stats.level, action, rolls);
      var (st2, e) := Battle.Turn(st, b, stats.level, action, rolls);
      end := e;
      SetBattleFields(st2);
    }

    /** The scene's battle fields set from a battle state whose health and
        enemy are in range. */
    method SetBattleFields(st: Battle.BattleState)
      requires Valid() && 0.0 <= st.health <= stats.health && st.enemy.level >= 1 && st.enemy.health >= 0
      modifies this`stats, this`battleEnemy, this`battleTurn, this`battleLog, this`battleDefending
      ensures Valid() && battleEnemy.Some? && BattleFields() == st
      ensures stats == old(stats).(health := st.health)
    {
      stats := stats.(health := st.health);
      battleEnemy := Some(st.enemy);
      battleTurn := st.turn;
      battleLog := st.log;
      battleDefending := st.defending;
    }

    /** `performBattleAction`: with no enemy nothing happens; otherwise one
        turn is played, and a turn that ends the battle settles it. */
    method PerformBattleAction(action: Battle.Action, rolls: Battle.TurnRolls, u: real, lootRolls: Catalog.LootRolls)
      returns (end: Battle.TurnEnd)
      requires Valid() && Battle.ValidTurnRolls(rolls) && Catalog.ValidRolls(lootRolls)
      modifies this`stats, this`inventory, this`battleEnemy, this`battleTurn, this`battleLog, this`battleDefending
      ensures Valid()
      ensures old(battleEnemy).None? ==>
        end == Battle.Continue && stats == old(stats) && inventory == old(inventory) && battleEnemy == old(battleEnemy)
        && battleTurn == old(battleTurn) && battleLog == old(battleLog) && battleDefending == old(battleDefending)
      ensures old(battleEnemy).Some? ==>
        var (st2, e) := Battle.Turn(old(BattleFields()), Battle.CalculateBattleStats(old(stats), table, equipped), old(stats).level, action, rolls);
        && end == e && battleEnemy == Some(st2.enemy) && battleTurn == st2.turn
        && battleLog == st2.log && battleDefending == st2.defending
        && (e.Ended? ==>
              (stats, inventory) == EndBattleSpoils(old(stats).(health := st2.health), old(inventory), table, zone, st2.enemy.level, e.result, u, lootRolls))
        && (!e.Ended? ==> stats == old(stats).(health := st2.health) && inventory == old(inventory))
    {
      if battleEnemy.None? {
        return Battle.Continue;
      }
      end := PlayTurn(action, rolls);
      if end.Ended? {
        EndBattle(end.result, u, lootRolls);
      }
    }

    /** `showBattleItemMenu`: the healing items on offer; with none, the
        battle log says so. */
    method OpenBattleItemMenu() returns (options: seq<Entry>)
      requires Valid()
      modifies this`battleLog
      ensures Valid()
      ensures options == HealingItems(table, inventory)
      ensures battleLog == old(battleLog) + (if options == [] then ["No usable items!"] else [])
    {
      options := [];
      var i := 0;
      while i < |inventory|
        invariant 0 <= i <= |inventory|
        invariant options == HealingItems(table, inventory[..i])
      {
        assert inventory[..i + 1][..i] == inventory[..i];
        if Heals(table, inventory[i].name) {
          options := options + [inventory[i]];
        }
        i := i + 1;
      }
      assert inventory[..|inventory|] == inventory;
      if options == [] {
        battleLog := battleLog + ["No usable items!"];
      }
    }

    /** An item picked from the battle item menu: its effects applied, one
        unit spent and the use logged; the source then plays the enemy's
        turn as `PerformBattleAction(Battle.UsedItem, ..)`. */
    method UseBattleItem(name: string)
      requires Valid() && Heals(table, name)
      modifies this`stats, this`inventory, this`battleLog
      ensures Valid()
      ensures stats == Stats.ApplyItemEffects(old(stats), Catalog.ItemData(table, name).value.statEffects).0
      ensures inventory == Remove(old(inventory), name, 1)
      ensures battleLog == old(battleLog) + ["Used " + name + " to restore health!"]
    {
      var d := Catalog.ItemData(table, name);
      ItemEffectsNonNegative(table, name);
      var _ := ApplyItemEffects(d);
      RemoveFromInventory(name, 1);
      battleLog := battleLog + ["Used " + name + " to restore health!"];
    }

    /** SPACE after a battle as written: the attack listener the battle
        attached is still registered ahead of the closing one, so the press
        first plays an attack against the stale enemy, and only then does
        the screen close. Against an enemy still standing (after a flight or
        a defeat) that is a whole turn of `Battle.Turn`; an enemy left at
        health 0 by a victory is beaten again and pays out again. */
    method DismissBattleAsWritten(rolls: Battle.TurnRolls, u: real, lootRolls: Catalog.LootRolls) returns (end: Battle.TurnEnd)
      requires Valid() && Battle.ValidTurnRolls(rolls) && Catalog.ValidRolls(lootRolls)
      modifies this`stats, this`inventory, this`battleEnemy, this`battleTurn, this`battleLog, this`battleDefending, this`screen
      ensures Valid() && screen == World.ScreenNone
      ensures old(battleEnemy).None? ==> end == Battle.Continue && stats == old(stats) && inventory == old(inventory)
      ensures old(battleEnemy).Some? ==>
        var (st2, e) := Battle.Turn(old(BattleFields()), Battle.CalculateBattleStats(old(stats), table, equipped), old(stats).level, Battle.Attack, rolls);
        && end == e && battleEnemy == Some(st2.enemy) && battleTurn == st2.turn
        && battleLog == st2.log && battleDefending == st2.defending
        && (e.Ended? ==>
              (stats, inventory) == EndBattleSpoils(old(stats).(health := st2.health), old(inventory), table, zone, st2.enemy.level, e.result, u, lootRolls))
        && (!e.Ended? ==> stats == old(stats).(health := st2.health) && inventory == old(inventory))
      ensures old(battleEnemy).Some? && old(battleEnemy).value.health == 0 ==>
        && end == Battle.Ended(Battle.Victory) && battleEnemy == old(battleEnemy)
        && (stats, inventory) == EndBattleSpoils(old(stats), old(inventory), table, zone, old(battleEnemy).value.level, Battle.Victory, u, lootRolls)
    {
      if battleEnemy.Some? && battleEnemy.value.health == 0 {
        Battle.StaleEnemyLosesAgain(BattleFields(), Battle.CalculateBattleStats(stats, table, equipped), stats.level, rolls);
      }
      end := PerformBattleAction(Battle.Attack, rolls, u, lootRolls);
      screen := World.ScreenNone;
    }

    /** SPACE after a battle as intended: the screen closes and nothing
        else changes (the enemy record stays). */
    method DismissBattle()
      requires Valid()
      modifies this`screen
      ensures Valid() && screen == World.ScreenNone
      ensures stats == old(stats) && inventory == old(inventory) && battleEnemy == old(battleEnemy)
    {
      screen := World.ScreenNone;
    }

    /* ----- The Village economy ----- */

    /** The deposit confirmation, with the check the pool evidently
        intends (`Economy.CheckedDeposit`): a refused deposit changes
        nothing; an accepted one takes the units, records the deposit and
        closes the screen. */
    method ConfirmDeposit(resource: string, amount: int, duration: int, now: int) returns (ok: bool)
      requires Valid()
      modifies this`inventory, this`deposits, this`screen
      ensures Valid()
      ensures var r := Economy.CheckedDeposit(old(inventory), old(deposits), resource, amount, duration, now);
        && (ok <==> r.Some?)
        && (ok ==> (inventory, deposits) == r.value && screen == World.ScreenNone)
        && (!ok ==> inventory == old(inventory) && deposits == old(deposits) && screen == old(screen))
    {
      ok := 0 < amount <= QuantityOf(inventory, resource);
      if ok {
        RemoveFromInventory(resource, amount);
        deposits := deposits + [Economy.Deposit(amount, duration, now)];
        screen := World.ScreenNone;
      }
    }

    /** Withdrawing deposit `i` at time `now`: its amount and yield are
        credited and only it leaves the list. */
    method Withdraw(i: nat, now: int)
      requires Valid() && i < |deposits| && deposits[i].startTime <= now
      modifies this`stats, this`deposits
      ensures Valid()
      ensures stats == old(stats).(oromozi := old(stats).oromozi + Economy.WithdrawCredit(old(deposits)[i], now))
      ensures deposits == Economy.RemoveAt(old(deposits), i)
    {
      var d := deposits[i];
      Economy.WithdrawCreditGrows(d, now, now);
      var yieldAmount := Economy.Yield(d.amount, Economy.ElapsedSeconds(now, d.startTime));
      stats := stats.(oromozi := stats.oromozi + d.amount + yieldAmount);
      deposits := deposits[..i] + deposits[i + 1..];
    }

    /** Listing the inventory entry at `index` for `price`. */
    method ListItem(index: nat, price: int, nonce: int)
      requires Valid() && index < |inventory|
      modifies this`inventory, this`listed
      ensures Valid()
      ensures (inventory, listed) == Economy.ListItem(old(inventory), old(listed), index, old(inventory)[index].name, price, nonce)
    {
      var name := inventory[index].name;
      listed := listed + [Economy.Listing(index, name, 1, price, nonce)];
      RemoveFromInventory(name, 1);
    }

    /** A purchase from a catalogue entry: paid only when the oromozi
        covers the price; nothing but the oromozi and the inventory changes. */
    method Buy(item: string, price: int) returns (ok: bool)
      requires Valid() && item != "" && price > 0
      modifies this`stats, this`inventory
      ensures Valid()
      ensures (stats.oromozi, inventory, ok) == Economy.Purchase(old(stats).oromozi, old(inventory), item, price)
      ensures stats == old(stats).(oromozi := stats.oromozi)
    {
      ok := stats.oromozi >= price;
      if ok {
        stats := stats.(oromozi := stats.oromozi - price);
        AddToInventory(item, 1);
      }
    }

    /** The merchant's marketplace: item `k` of its list. */
    method MarketBuy(k: nat) returns (ok: bool)
      requires Valid() && k < |Economy.MarketItems|
      modifies this`stats, this`inventory
      ensures Valid()
      ensures (stats.oromozi, inventory, ok) ==
        Economy.Purchase(old(stats).oromozi, old(inventory), Economy.MarketItems[k].0, Economy.MarketItems[k].1)
      ensures stats == old(stats).(oromozi := stats.oromozi)
    {
      Economy.CataloguePricesPositive();
      ok := Buy(Economy.MarketItems[k].0, Economy.MarketItems[k].1);
    }

    /** The Royal Market: item `k` of category `c`. */
    method RoyalBuy(c: nat, k: nat) returns (ok: bool)
      requires Valid() && c < |Economy.RoyalCategories| && k < |Economy.RoyalCategories[c].1|
      modifies this`stats, this`inventory
      ensures Valid()
      ensures var (item, price) := Economy.RoyalCategories[c].1[k];
        (stats.oromozi, inventory, ok) == Economy.Purchase(old(stats).oromozi, old(inventory), item, price)
      ensures stats == old(stats).(oromozi := stats.oromozi)
    {
      Economy.CataloguePricesPositive();
      var (item, price) := Economy.RoyalCategories[c].1[k];
      assert item != "" by {
        assert forall c', k' :: 0 <= c' < |Economy.RoyalCategories| && 0 <= k' < |Economy.RoyalCategories[c'].1| ==>
          Economy.RoyalCategories[c'].1[k'].0 != "";
      }
      ok := Buy(item, price);
    }

    /** Cancelling listing `i`: its units come back (a nameless listing
        gives nothing back, as `addToInventory` ignores it) and only it
        leaves the list. */
    method CancelListing(i: nat)
      requires Valid() && i < |listed|
      modifies this`inventory, this`listed
      ensures Valid()
      ensures inventory == AddItem(old(inventory), old(listed)[i].item, old(listed)[i].quantity)
      ensures listed == Economy.RemoveAt(old(listed), i)
      ensures old(listed)[i].item != "" ==> (inventory, listed) == Economy.CancelListing(old(inventory), old(listed), i)
    {
      var l := listed[i];
      AddToInventory(l.item, l.quantity);
      listed := listed[..i] + listed[i + 1..];
    }

    /** Editing listing `i`'s price; nothing else changes. */
    method EditListingPrice(i: nat, price: int)
      requires Valid() && i < |listed|
      modifies this`listed
      ensures Valid()
      ensures |listed| == |old(listed)| && listed[i] == old(listed)[i].(price := price)
      ensures forall j :: 0 <= j < |listed| && j != i ==> listed[j] == old(listed)[j]
    {
      listed := listed[i := listed[i].(price := price)];
    }

    /** Posting a trade of the inventory entry at `index` for `request`. */
    method PostTrade(index: nat, request: string)
      requires Valid() && index < |inventory|
      modifies this`inventory, this`trades
      ensures Valid()
      ensures (inventory, trades) == Economy.PostTrade(old(inventory), old(trades), old(inventory)[index].name, request)
    {
      var offer := inventory[index].name;
      trades := trades + [Economy.TradeOffer(offer, 1, request)];
      RemoveFromInventory(offer, 1);
    }

    /** Accepting trade `i`: only with a unit of the requested item, which
        is given up for the offered units; the trade is then removed. */
    method AcceptTrade(i: nat) returns (ok: bool)
      requires Valid() && i < |trades|
      modifies this`inventory, this`trades
      ensures Valid()
      ensures var t := old(trades)[i];
        && (ok <==> QuantityOf(old(inventory), t.request) >= 1)
        && (ok ==> inventory == AddItem(Remove(old(inventory), t.request, 1), t.offer, t.quantity)
                   && trades == Economy.RemoveAt(old(trades), i))
        && (!ok ==> inventory == old(inventory) && trades == old(trades))
        && (t.offer != "" ==> (inventory, trades, ok) == Economy.AcceptTrade(old(inventory), old(trades), i))
    {
      var t := trades[i];
      ok := QuantityOf(inventory, t.request) >= 1;
      if ok {
        RemoveFromInventory(t.request, 1);
        AddToInventory(t.offer, t.quantity);
        DropTrade(i);
      }
    }

    /** Trade `i` taken off the board; the others keep their order. */
    method DropTrade(i: nat)
      requires Valid() && i < |trades|
      modifies this`trades
      ensures Valid()
      ensures trades == Economy.RemoveAt(old(trades), i)
    {
      trades := trades[..i] + trades[i + 1..];
    }

    /** One unit of each name taken, in order. */
    method RemoveEach(names: seq<string>)
      requires Valid()
      modifies this`inventory
      ensures Valid()
      ensures inventory == Economy.RemoveEach(old(inventory), names)
    {
      var k := 0;
      while k < |names|
        invariant 0 <= k <= |names|
        invariant Valid()
        invariant inventory == Economy.RemoveEach(old(inventory), names[..k])
      {
        assert names[..k + 1][..k] == names[..k];
        RemoveFromInventory(names[k], 1);
        k := k + 1;
      }
      assert names[..|names|] == names;
    }

    /** `hasItems`: whether every name's first entry holds a unit. */
    method HoldsEach(names: seq<string>) returns (has: bool)
      ensures has == Economy.HoldsEach(inventory, names)
    {
      has := true;
      var k := 0;
      while k < |names|
        invariant 0 <= k <= |names|
        invariant has <==> forall j :: 0 <= j < k ==> QuantityOf(inventory, names[j]) >= 1
      {
        if QuantityOf(inventory, names[k]) < 1 {
          has := false;
        }
        k := k + 1;
      }
    }

    /** `confirmInvention`: the selection sorted, checked, consumed, and
        the matching recipe's result added. */
    method Invent(items: seq<string>) returns (outcome: Economy.InventionOutcome)
      requires Valid()
      modifies this`inventory
      ensures Valid()
      ensures (inventory, outcome) == Economy.Invent(Economy.SecretRecipes, old(inventory), items)
    {
      var sorted := Economy.SortStrings(items);
      var found := Economy.FindRecipe(Economy.SecretRecipes, sorted);
      var has := HoldsEach(sorted);
      if !has {
        return Economy.MissingItems;
      }
      RemoveEach(sorted);
      if found.Some? {
        Economy.RecipeResultsNamed();
        AddToInventory(found.value, 1);
        outcome := Economy.Created(found.value);
      } else {
        outcome := Economy.Failed;
      }
    }

    /** `confirmCraftItem` for recipe `k`, with the multiplicity check the
        workshop evidently intends (`Economy.Craft`). */
    method Craft(k: nat) returns (ok: bool)
      requires Valid() && k < |Economy.CraftRecipes|
      modifies this`inventory
      ensures Valid()
      ensures (inventory, ok) == Economy.Craft(old(inventory), Economy.CraftRecipes[k])
    {
      var recipe := Economy.CraftRecipes[k];
      ok := Economy.CanCraft(inventory, recipe.ingredients);
      if ok {
        RemoveEach(recipe.ingredients);
        Economy.RecipeResultsNamed();
        AddToInventory(recipe.result, 1);
      }
    }

    /** A repair: one Wood when the first Wood entry holds any. */
    method Repair() returns (ok: bool)
      requires Valid()
      modifies this`inventory
      ensures Valid()
      ensures (inventory, ok) == Economy.Repair(old(inventory))
    {
      ok := QuantityOf(inventory, "Wood") >= 1;
      if ok {
        RemoveFromInventory("Wood", 1);
      }
    }

    /** Salvaging the inventory entry at `index`: a loot draw for the zone,
        one unit of the entry spent, and the draw added when it names an
        item. */
    method Salvage(index: nat, rolls: Catalog.LootRolls) returns (salvage: Option<string>)
      requires Valid() && index < |inventory| && Catalog.ValidRolls(rolls)
      modifies this`inventory
      ensures Valid()
      ensures salvage == Catalog.RandomLoot(table, zone, stats.level, rolls)
      ensures inventory == AddLoot(Remove(old(inventory), old(inventory)[index].name, 1), salvage)
    {
      salvage := Catalog.RandomLoot(table, zone, stats.level, rolls);
      RemoveFromInventory(inventory[index].name, 1);
      if Catalog.Truthy(salvage) {
        AddToInventory(salvage.value, 1);
      }
    }

    /* ----- Camping ----- */

    /** SPACE at the 6 PM camping prompt: with the materials the player
        rests and two Sticks and a Cloth are spent; either way the prompt
        closes. */
    method CampAtPrompt() returns (camped: bool)
      requires Valid() && screen == World.ScreenCampingPrompt
      modifies this`stats, this`inventory, this`screen
      ensures Valid() && screen == World.ScreenNone
      ensures camped == Camping.HasCampingMaterials(old(inventory))
      ensures camped ==> stats == Camping.CampRest(old(stats)) && inventory == Camping.UseMaterials(old(inventory))
      ensures !camped ==> stats == old(stats) && inventory == old(inventory)
    {
      camped := Camping.HasCampingMaterials(inventory);
      if camped {
        Rest();
        UseCampingMaterials();
      }
      screen := World.ScreenNone;
    }

    /** The camping benefits, each stat raised and capped at 100. */
    method Rest()
      requires Valid()
      modifies this`stats
      ensures Valid()
      ensures stats == Camping.CampRest(old(stats))
    {
      stats := stats.(health := MinR(stats.health + 30.0, 100.0));
      stats := stats.(stamina := Min(stats.stamina + 50, 100));
      stats := stats.(hunger := Min(stats.hunger + 20, 100));
      stats := stats.(thirst := Min(stats.thirst + 30, 100));
    }

    /** Two Sticks and a Cloth taken out. */
    method UseCampingMaterials()
      requires Valid()
      modifies this`inventory
      ensures Valid()
      ensures inventory == Camping.UseMaterials(old(inventory))
    {
      RemoveFromInventory("Stick", 2);
      RemoveFromInventory("Cloth", 1);
    }

    /** The `camping_mode` directive: near nightfall or at night, with the
        materials, the camp is started and the materials spent. */
    method SetUpCamp() returns (started: bool)
      requires Valid()
      modifies this`inventory
      ensures Valid()
      ensures var h := World.GameHour(gameTime);
        started == ((World.IsNearNight(h) || World.IsNight(h)) && Camping.HasCampingMaterials(old(inventory)))
      ensures started ==> inventory == Camping.UseMaterials(old(inventory))
      ensures !started ==> inventory == old(inventory)
    {
      var hour := World.GameHour(gameTime);
      started := (World.IsNearNight(hour) || World.IsNight(hour)) && Camping.HasCampingMaterials(inventory);
      if started {
        UseCampingMaterials();
      }
    }

    /** ESC during the camp set-up: the materials come back. */
    method CancelCampSetup()
      requires Valid()
      modifies this`inventory
      ensures Valid()
      ensures inventory == Camping.RefundMaterials(old(inventory))
    {
      AddToInventory("Stick", 2);
      AddToInventory("Cloth", 1);
    }

    /* ----- Death and return ----- */

    /** `handlePlayerDeath`: back to the Village with healed stats that keep
        currency, level and experience, an emptied inventory and the prompt
        count reset. */
    method HandlePlayerDeath()
      requires Valid()
      modifies this`stats, this`zone, this`inventory, this`promptCount, this`log, this`screen, this`promptedCamping
      ensures Valid()
      ensures stats == World.DeathStats(old(stats)) && zone == "Village"
      ensures inventory == [] && promptCount == 0 && log == [] && screen == World.ScreenNone
    {
      stats := World.DeathStats(stats);
      zone := "Village";
      Restart("Village", [], 0);
    }

    /** `handleReturn`, keeping level and experience as its comment
        intends (`World.ReturnStats`): one zone back towards the Village
        with the prompt count reset; nothing happens without a target. */
    method HandleReturn() returns (target: Option<string>)
      requires Valid()
      modifies this`stats, this`zone, this`inventory, this`promptCount, this`log, this`screen, this`promptedCamping
      ensures Valid()
      ensures target == World.ReturnTarget(old(zone))
      ensures target.Some? ==>
        stats == World.ReturnStats(old(stats), target.value) && zone == target.value
        && inventory == old(inventory) && promptCount == 0 && log == [] && screen == World.ScreenNone
      ensures target.None? ==>
        stats == old(stats) && zone == old(zone) && inventory == old(inventory)
        && promptCount == old(promptCount) && log == old(log) && screen == old(screen)
    {
      target := World.ReturnTarget(zone);
      if target.Some? {
        stats := World.ReturnStats(stats, target.value);
        zone := target.value;
        Restart(target.value, inventory, 0);
      }
    }

    /* ----- Skirmish ----- */

    /** `Monster.attack`: while the player lives, the monster's damage less
        30% of the derived defense (at least 1) comes off health, which
        stops at 0. */
    method MonsterAttack(m: Skirmish.Monster)
      requires Valid()
      modifies this`stats
      ensures Valid()
      ensures var hit := Skirmish.MonsterHit(m.damage, Battle.CalculateBattleStats(old(stats), table, equipped).defense);
        stats == (if old(stats).health > 0.0 then old(stats).(health := MaxR(old(stats).health - hit as real, 0.0)) else old(stats))
      ensures old(stats).health > 0.0 ==> stats.health < old(stats).health
    {
      if stats.health > 0.0 {
        var b := Battle.CalculateBattleStats(stats, table, equipped);
        var hit := Skirmish.MonsterHit(m.damage, b.defense);
        stats := stats.(health := MaxR(stats.health - hit as real, 0.0));
      }
    }

    /** `Monster.takeDamage`: the damage is taken and a kill is rewarded
        as `KillSpoils` says. */
    method MonsterTakeDamage(m: Skirmish.Monster, amount: int, expRoll: real, lootRoll: real, rolls: Catalog.LootRolls)
      returns (killed: bool)
      requires Valid() && IsRoll(expRoll) && Catalog.ValidRolls(rolls)
      modifies m`health, this`stats, this`inventory
      ensures Valid()
      ensures m.health == old(m.health) - amount && (killed <==> m.health <= 0)
      ensures killed ==> (stats, inventory) == KillSpoils(old(stats), old(inventory), table, zone, expRoll, lootRoll, rolls)
      ensures !killed ==> stats == old(stats) && inventory == old(inventory)
    {
      killed := m.TakeDamage(amount);
      if killed {
        RewardKill(expRoll, lootRoll, rolls);
      }
    }

    /** A kill's reward: the experience, a 40% chance of loot drawn at the
        level before the level check, then the level check. */
    method RewardKill(expRoll: real, lootRoll: real, rolls: Catalog.LootRolls)
      requires Valid() && IsRoll(expRoll) && Catalog.ValidRolls(rolls)
      modifies this`stats, this`inventory
      ensures Valid()
      ensures (stats, inventory) == KillSpoils(old(stats), old(inventory), table, zone, expRoll, lootRoll, rolls)
    {
      stats := stats.(experience := stats.experience + Skirmish.KillExperience(expRoll));
      if lootRoll < 0.4 {
        var loot := Catalog.RandomLoot(table, zone, stats.level, rolls);
        if Catalog.Truthy(loot) {
          AddToInventory(loot.value, 1);
        }
      }
      CheckLevelUpKeepsLifetimeExperience(stats);
      stats := CheckLevelUp(stats);
    }

    /** `hitCrate`: the crate takes the hit; the hit that breaks it draws
        loot for the zone, adds it and logs the result. */
    method HitCrate(c: Skirmish.Crate, rolls: Catalog.LootRolls) returns (broke: bool)
      requires Valid() && Catalog.ValidRolls(rolls)
      modifies c, this`inventory, this`log
      ensures Valid()
      ensures (c.State(), broke) == Skirmish.HitOnce(old(c.State()))
      ensures var loot := Catalog.RandomLoot(table, zone, stats.level, rolls);
        && (broke ==> inventory == AddLoot(old(inventory), loot) && log == PushLog(old(log), CrateLogLine(loot)))
        && (!broke ==> inventory == old(inventory) && log == old(log))
    {
      broke := c.Hit();
      if broke {
        var loot := Catalog.RandomLoot(table, zone, stats.level, rolls);
        if Catalog.Truthy(loot) {
          AddToInventory(loot.value, 1);
          AddToLog("Received: " + loot.value);
        } else {
          AddToLog("No loot found");
        }
      }
    }

    /* ----- Clock and keys ----- */

    /** One frame of `updateScene`'s clock: the time advances by the frame's
        delta (in milliseconds) and is stored modulo a day, the hour is
        read from the unwrapped time, and the 6 PM camping prompt is
        raised or its latch cleared. */
    method UpdateClock(delta: real) returns (hour: int)
      requires Valid() && delta >= 0.0
      modifies this`gameTime, this`screen, this`promptedCamping
      ensures Valid()
      ensures gameTime == World.WrapDay(old(gameTime) + delta / 1000.0)
      ensures hour == World.GameHour(old(gameTime) + delta / 1000.0) == World.GameHour(gameTime)
      ensures (screen, promptedCamping) == World.CampingPromptStep(hour, old(promptedCamping), zone, old(screen))
    {
      var t := gameTime + delta / 1000.0;
      gameTime := World.WrapDay(t);
      hour := World.GameHour(t);
      World.WrapKeepsHour(t);
      if hour == 18 && !promptedCamping && zone != "Village" && screen == World.ScreenNone {
        screen := World.ScreenCampingPrompt;
        promptedCamping := true;
      } else if hour != 18 && promptedCamping {
        promptedCamping := false;
      }
    }

    /** The I key: the item menu opens from an empty screen. */
    method PressInventoryKey()
      requires Valid()
      modifies this`screen
      ensures Valid()
      ensures screen == (if old(screen) == World.ScreenNone then World.ScreenItemMenu else old(screen))
    {
      if screen == World.ScreenNone {
        screen := World.ScreenItemMenu;
      }
    }

    /** SPACE in the narrative: prologue to prompt (closed at once when the
        zone has no prompts), prompt to choices, outcome to item menu. */
    method PressSpace(hasPrompts: bool)
      requires Valid()
      modifies this`screen
      ensures Valid()
      ensures screen == (if old(screen) == World.ScreenPrologue && !hasPrompts then World.ScreenNone
                         else World.SpaceStep(old(screen)))
    {
      if screen == World.ScreenPrologue {
        screen := if hasPrompts then World.ScreenPrompt else World.ScreenNone;
      } else if screen == World.ScreenPrompt {
        screen := World.ScreenChoices;
      } else if screen == World.ScreenOutcome {
        screen := World.ScreenItemMenu;
      }
    }

    /** The interact key over an exclamation mark, which the frame update
        reaches only in free roam: the zone's prologue opens, or its prompt
        when it has no prologue, or nothing stays open when it has neither. */
    method Interact(overlapping: bool, hasPrologues: bool, hasPrompts: bool)
      requires Valid()
      modifies this`screen
      ensures Valid()
      ensures screen == (if overlapping && World.FreeRoam(old(screen)) then World.PrologueScreen(hasPrologues, hasPrompts)
                         else old(screen))
    {
      if overlapping && World.FreeRoam(screen) {
        screen := World.PrologueScreen(hasPrologues, hasPrompts);
      }
    }

    /** `showOutcome`: the outcome applied, then the outcome screen; a
        travel request restarts the scene instead, which clears it. */
    method ShowOutcome(text: string, u: real, rolls: Catalog.LootRolls) returns (next: OutcomeNext)
      requires Valid() && IsRoll(u) && Catalog.ValidRolls(rolls)
      modifies this`stats, this`zone, this`inventory, this`log, this`screen, this`promptedCamping
      ensures Valid()
      ensures var r := Resolve(old(stats), old(inventory), old(log), equippedResist, table, old(zone), text, u, rolls);
        && next == NextStep(r.text) && inventory == r.inventory
        && screen == (if next.Travelled? then World.ScreenNone else World.ScreenOutcome)
        && (next.Travelled? ==>
              stats == r.stats.(currentZone := next.zone) && zone == next.zone
              && log == [] && !promptedCamping)
        && (!next.Travelled? ==>
              stats == r.stats && zone == old(zone) && log == r.log
              && promptedCamping == old(promptedCamping))
    {
      next := ApplyOutcome(text, u, rolls);
      if !next.Travelled? {
        screen := World.ScreenOutcome;
      }
    }
  }
}
