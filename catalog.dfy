/** The static item catalog (the loot table, keyed by zone) and the
    queries the rules make of it: item lookup, the list of all item names,
    the loot draw and the resist sums of equipped items. */
module Catalog {
  import opened Common

  datatype CombatEffects = CombatEffects(attack: int, evasion: int, defense: int)

  /** One catalog record. Absent sub-objects are empty (or zero for the
      combat bonuses, which the rules add only when truthy). */
  datatype ItemDef = ItemDef(
    name: string,
    rarity: string,
    statEffects: seq<(string, int)>,
    combatEffects: CombatEffects,
    resist: seq<(string, int)>)

  /** `lootData.zones`: zone name to the zone's item list, in key order. */
  datatype LootTable = LootTable(zones: seq<(string, seq<ItemDef>)>)

  /** Some zone lists an item with this name. */
  predicate Listed(zones: seq<(string, seq<ItemDef>)>, name: string) {
    exists z, k :: 0 <= z < |zones| && 0 <= k < |zones[z].1| && zones[z].1[k].name == name
  }

  function FindInItems(items: seq<ItemDef>, name: string): (r: Option<ItemDef>)
    ensures r.Some? ==> r.value in items && r.value.name == name
    ensures r.None? ==> forall k :: 0 <= k < |items| ==> items[k].name != name
  {
    if items == [] then None
    else if items[0].name == name then Some(items[0])
    else FindInItems(items[1..], name)
  }

  /** `find` returns the first record with the name. */
  lemma {:induction false} FindInItemsFirst(items: seq<ItemDef>, name: string)
    ensures var r := FindInItems(items, name);
      r.Some? ==> exists k :: 0 <= k < |items| && items[k] == r.value && forall j :: 0 <= j < k ==> items[j].name != name
    decreases |items|
  {
    if items != [] && items[0].name != name {
      FindInItemsFirst(items[1..], name);
      var r := FindInItems(items[1..], name);
      if r.Some? {
        var k :| 0 <= k < |items[1..]| && items[1..][k] == r.value && forall j :: 0 <= j < k ==> items[1..][j].name != name;
        assert items[k + 1] == items[1..][k];
        forall j | 0 <= j < k + 1 ensures items[j].name != name {
          if j > 0 {
            assert items[j] == items[1..][j - 1];
          }
        }
      }
    }
  }

  function FindInZones(zones: seq<(string, seq<ItemDef>)>, name: string): (r: Option<ItemDef>)
    ensures r.Some? ==> r.value.name == name && exists z :: 0 <= z < |zones| && r.value in zones[z].1
    ensures r.None? <==> !Listed(zones, name)
  {
    if zones == [] then None
    else
      match FindInItems(zones[0].1, name)
      case Some(d) => Some(d)
      case None =>
        var rest := FindInZones(zones[1..], name);
        assert Listed(zones, name) ==> Listed(zones[1..], name) by {
          if Listed(zones, name) {
            var z, k :| 0 <= z < |zones| && 0 <= k < |zones[z].1| && zones[z].1[k].name == name;
            assert zones[1..][z - 1] == zones[z];
          }
        }
        assert Listed(zones[1..], name) ==> Listed(zones, name) by {
          if Listed(zones[1..], name) {
            var z, k :| 0 <= z < |zones[1..]| && 0 <= k < |zones[1..][z].1| && zones[1..][z].1[k].name == name;
            assert zones[z + 1] == zones[1..][z];
          }
        }
        if rest.Some? then
          assert exists z :: 0 <= z < |zones| && rest.value in zones[z].1 by {
            var z :| 0 <= z < |zones[1..]| && rest.value in zones[1..][z].1;
            assert zones[z + 1] == zones[1..][z];
          }
          rest
        else rest
  }

  /** The search across zones returns the record `find` gives in the first
      zone, in key order, whose list has the name. */
  lemma {:induction false} FindInZonesFirst(zones: seq<(string, seq<ItemDef>)>, name: string)
    ensures var r := FindInZones(zones, name);
      r.Some? ==> exists z :: 0 <= z < |zones| && FindInItems(zones[z].1, name) == r
                              && forall y :: 0 <= y < z ==> FindInItems(zones[y].1, name).None?
    decreases |zones|
  {
    if zones != [] && FindInItems(zones[0].1, name).None? {
      FindInZonesFirst(zones[1..], name);
      var r := FindInZones(zones[1..], name);
      if r.Some? {
        var z :| 0 <= z < |zones[1..]| && FindInItems(zones[1..][z].1, name) == r
                 && forall y :: 0 <= y < z ==> FindInItems(zones[1..][y].1, name).None?;
        assert zones[z + 1] == zones[1..][z];
        forall y | 0 <= y < z + 1 ensures FindInItems(zones[y].1, name).None? {
          if y > 0 {
            assert zones[y] == zones[1..][y - 1];
          }
        }
      }
    }
  }

  /** `getItemData`: an empty name or a missing table finds nothing;
      otherwise the first record with that name, zones in key order. */
  function ItemData(table: Option<LootTable>, name: string): (r: Option<ItemDef>)
    ensures r.Some? ==> name != "" && r.value.name == name
    ensures r.None? <==> name == "" || table.None? || !Listed(table.value.zones, name)
  {
    if name == "" || table.None? then None else FindInZones(table.value.zones, name)
  }

  /** The record `getItemData` returns is the first one with the name:
      it comes from the first zone, in key order, whose list has the name,
      and is the first record there with it. */
  lemma ItemDataFirst(table: Option<LootTable>, name: string)
    ensures var r := ItemData(table, name);
      r.Some? ==> table.Some? && exists z :: 0 <= z < |table.value.zones| && FindInItems(table.value.zones[z].1, name) == r
                                  && forall y :: 0 <= y < z ==> FindInItems(table.value.zones[y].1, name).None?
  {
    if name != "" && table.Some? {
      FindInZonesFirst(table.value.zones, name);
    }
  }

  /** Every item name, zone by zone, duplicates included. */
  function AllNames(zones: seq<(string, seq<ItemDef>)>): (r: seq<string>)
    ensures forall x :: x in r <==> Listed(zones, x)
  {
    if zones == [] then []
    else
      var here := seq(|zones[0].1|, k requires 0 <= k < |zones[0].1| => zones[0].1[k].name);
      var rest := AllNames(zones[1..]);
      assert forall x :: Listed(zones, x) <==> x in here || Listed(zones[1..], x) by {
        forall x ensures Listed(zones, x) <==> x in here || Listed(zones[1..], x) {
          if Listed(zones, x) {
            var z, k :| 0 <= z < |zones| && 0 <= k < |zones[z].1| && zones[z].1[k].name == x;
            if z == 0 {
              assert here[k] == x;
            } else {
              assert zones[1..][z - 1] == zones[z];
            }
          }
          if x in here {
            var k :| 0 <= k < |here| && here[k] == x;
            assert zones[0].1[k].name == x;
          }
          if Listed(zones[1..], x) {
            var z, k :| 0 <= z < |zones[1..]| && 0 <= k < |zones[1..][z].1| && zones[1..][z].1[k].name == x;
            assert zones[z + 1] == zones[1..][z];
          }
        }
      }
      here + rest
  }

  predicate NoDuplicates(s: seq<string>) {
    forall i, j :: 0 <= i < j < |s| ==> s[i] != s[j]
  }

  /** `Array.from(new Set(names))`: first occurrences, in order. */
  function Dedup(s: seq<string>): (r: seq<string>)
    ensures NoDuplicates(r)
    ensures forall x :: x in r <==> x in s
  {
    if s == [] then []
    else
      var n := |s| - 1;
      var d := Dedup(s[..n]);
      assert forall x :: x in s <==> x in s[..n] || x == s[n] by {
        assert s == s[..n] + [s[n]];
      }
      if s[n] in d then d else d + [s[n]]
  }

  /** `getAllLootItems`: every catalog name exactly once; a missing table
      yields just "Stick". */
  function AllLootItems(table: Option<LootTable>): (r: seq<string>)
    ensures NoDuplicates(r)
    ensures table.None? ==> r == ["Stick"]
    ensures table.Some? ==> forall x :: x in r <==> Listed(table.value.zones, x)
  {
    if table.None? then ["Stick"] else Dedup(AllNames(table.value.zones))
  }

  /** `lootData.zones[zoneName]`. */
  function ZoneItems(zones: seq<(string, seq<ItemDef>)>, zone: string): (r: Option<seq<ItemDef>>)
    ensures r.Some? ==> exists z :: 0 <= z < |zones| && zones[z] == (zone, r.value)
    ensures r.None? ==> forall z :: 0 <= z < |zones| ==> zones[z].0 != zone
  {
    if zones == [] then None
    else if zones[0].0 == zone then Some(zones[0].1)
    else
      var rest := ZoneItems(zones[1..], zone);
      if rest.Some? then
        assert exists z :: 0 <= z < |zones| && zones[z] == (zone, rest.value) by {
          var z :| 0 <= z < |zones[1..]| && zones[1..][z] == (zone, rest.value);
          assert zones[z + 1] == zones[1..][z];
        }
        rest
      else
        assert forall z :: 0 <= z < |zones| ==> zones[z].0 != zone by {
          forall z | 0 <= z < |zones| ensures zones[z].0 != zone {
            if z > 0 {
              assert zones[z] == zones[1..][z - 1];
            }
          }
        }
        rest
  }

  function RareItems(items: seq<ItemDef>): (r: seq<ItemDef>)
    ensures forall d :: d in r <==> d in items && d.rarity == "rare"
  {
    if items == [] then []
    else if items[0].rarity == "rare" then [items[0]] + RareItems(items[1..])
    else RareItems(items[1..])
  }

  /** The three `Math.random()` draws of `getRandomLootForZone`. */
  datatype LootRolls = LootRolls(rarity: real, rare: real, index: real)

  predicate ValidRolls(r: LootRolls) {
    IsRoll(r.rarity) && IsRoll(r.rare) && IsRoll(r.index)
  }

  /** The zone's items when the table lists the zone and the list is not empty. */
  predicate HasLoot(table: Option<LootTable>, zone: string) {
    table.Some? && var items := ZoneItems(table.value.zones, zone); items.Some? && items.value != []
  }

  /** `getRandomLootForZone`: "Stick" when the table or the zone's list is
      missing or empty; nothing on a rarity roll below 0.15; a rare item on
      a roll above 0.95 at level 3 or more when the zone has one; otherwise
      a uniform pick (an unnamed record gives "Stick"). `None` is the
      source's `null`. */
  function RandomLoot(table: Option<LootTable>, zone: string, level: int, rolls: LootRolls): (r: Option<string>)
    requires ValidRolls(rolls)
    ensures r.None? <==> HasLoot(table, zone) && rolls.rarity < 0.15
    ensures !HasLoot(table, zone) ==> r == Some("Stick")
    ensures HasLoot(table, zone) && r.Some? ==>
      r.value == "Stick" || exists d :: d in ZoneItems(table.value.zones, zone).value && d.name == r.value
    ensures HasLoot(table, zone) && rolls.rarity > 0.95 && level >= 3
            && RareItems(ZoneItems(table.value.zones, zone).value) != [] ==>
      exists d :: d in ZoneItems(table.value.zones, zone).value && d.rarity == "rare" && r == Some(d.name)
  {
    if !HasLoot(table, zone) then Some("Stick")
    else
      var items := ZoneItems(table.value.zones, zone).value;
      if rolls.rarity < 0.15 then None
      else
        var rare := RareItems(items);
        if rolls.rarity > 0.95 && level >= 3 && rare != [] then
          var pick := rare[Between(rolls.rare, 0, |rare| - 1)];
          assert pick in rare;
          Some(pick.name)
        else
          var pick := items[Between(rolls.index, 0, |items| - 1)];
          Some(if pick.name == "" then "Stick" else pick.name)
  }

  /** The callers' `if (loot)`: a draw gives an item only when it is a
      non-empty name. */
  predicate Truthy(o: Option<string>) {
    o.Some? && o.value != ""
  }

  /** The resist an item declares for one damage type (0 when absent). */
  function DeclaredResist(resist: seq<(string, int)>, key: string): int {
    if resist == [] then 0
    else (if resist[0].0 == key then resist[0].1 else 0) + DeclaredResist(resist[1..], key)
  }

  /** `equippedResist[key] || 0`. */
  function ResistFor(m: map<string, int>, key: string): int {
    if key in m then m[key] else 0
  }

  /** The inner loop of `recalcEquippedResist`: add one item's resist
      entries into the running sums. */
  function AddResist(m: map<string, int>, resist: seq<(string, int)>): map<string, int>
    decreases |resist|
  {
    if resist == [] then m
    else
      var n := |resist| - 1;
      var prev := AddResist(m, resist[..n]);
      prev[resist[n].0 := ResistFor(prev, resist[n].0) + resist[n].1]
  }

  /** Each added entry raises its own type's sum by its amount. */
  lemma {:induction false} AddResistFor(m: map<string, int>, resist: seq<(string, int)>, key: string)
    ensures ResistFor(AddResist(m, resist), key) == ResistFor(m, key) + DeclaredResist(resist, key)
    decreases |resist|
  {
    if resist != [] {
      var n := |resist| - 1;
      AddResistFor(m, resist[..n], key);
      DeclaredResistSnoc(resist[..n], resist[n], key);
      assert resist[..n] + [resist[n]] == resist;
    }
  }

  lemma {:induction false} DeclaredResistSnoc(resist: seq<(string, int)>, e: (string, int), key: string)
    ensures DeclaredResist(resist + [e], key) == DeclaredResist(resist, key) + (if e.0 == key then e.1 else 0)
    decreases |resist|
  {
    if resist != [] {
      DeclaredResistSnoc(resist[1..], e, key);
      assert (resist + [e])[1..] == resist[1..] + [e];
    }
  }

  /** The resist an equipped item contributes: its catalog record's resist,
      or nothing when the name is not in the catalog. */
  function ItemResist(table: Option<LootTable>, name: string): seq<(string, int)> {
    match ItemData(table, name)
    case None => []
    case Some(d) => d.resist
  }

  /** `recalcEquippedResist`: the per-type sums over the equipped list,
      rebuilt from nothing. */
  function EquippedResist(table: Option<LootTable>, equipped: seq<string>): map<string, int>
    decreases |equipped|
  {
    if equipped == [] then map[]
    else
      var n := |equipped| - 1;
      AddResist(EquippedResist(table, equipped[..n]), ItemResist(table, equipped[n]))
  }

  /** Total resist of a list of equipped names, one type at a time. */
  function TotalResist(table: Option<LootTable>, equipped: seq<string>, key: string): int
    decreases |equipped|
  {
    if equipped == [] then 0
    else
      var n := |equipped| - 1;
      TotalResist(table, equipped[..n], key) + DeclaredResist(ItemResist(table, equipped[n]), key)
  }

  /** The rebuilt sums are exactly the per-type totals of the equipped items. */
  lemma {:induction false} EquippedResistIsTotal(table: Option<LootTable>, equipped: seq<string>, key: string)
    ensures ResistFor(EquippedResist(table, equipped), key) == TotalResist(table, equipped, key)
    decreases |equipped|
  {
    if equipped != [] {
      var n := |equipped| - 1;
      EquippedResistIsTotal(table, equipped[..n], key);
      AddResistFor(EquippedResist(table, equipped[..n]), ItemResist(table, equipped[n]), key);
    }
  }

  /** Equipping one more item (duplicates allowed) raises each type's sum
      by exactly what that item declares. */
  lemma EquipAddsResist(table: Option<LootTable>, equipped: seq<string>, name: string, key: string)
    ensures ResistFor(EquippedResist(table, equipped + [name]), key)
      == ResistFor(EquippedResist(table, equipped), key) + DeclaredResist(ItemResist(table, name), key)
  {
    assert (equipped + [name])[..|equipped|] == equipped;
    AddResistFor(EquippedResist(table, equipped), ItemResist(table, name), key);
  }

  /** The sums do not depend on the order in which items were equipped. */
  lemma {:induction false} TotalResistAppend(table: Option<LootTable>, a: seq<string>, b: seq<string>, key: string)
    ensures TotalResist(table, a + b, key) == TotalResist(table, a, key) + TotalResist(table, b, key)
    decreases |b|
  {
    if b == [] {
      assert a + b == a;
    } else {
      var n := |b| - 1;
      var c, x := b[..n], b[n];
      TotalResistAppend(table, a, c, key);
      assert b == c + [x];
      assert a + b == (a + c) + [x];
      TotalResistSnoc(table, a + c, x, key);
      TotalResistSnoc(table, c, x, key);
    }
  }

  /** One more item adds its own declared resistance. */
  lemma TotalResistSnoc(table: Option<LootTable>, s: seq<string>, x: string, key: string)
    ensures TotalResist(table, s + [x], key) == TotalResist(table, s, key) + DeclaredResist(ItemResist(table, x), key)
  {
    var t := s + [x];
    assert t[..|t| - 1] == s;
    assert t[|t| - 1] == x;
  }

  lemma EquipOrderIrrelevant(table: Option<LootTable>, a: seq<string>, b: seq<string>, key: string)
    ensures ResistFor(EquippedResist(table, a + b), key) == ResistFor(EquippedResist(table, b + a), key)
  {
    EquippedResistIsTotal(table, a + b, key);
    EquippedResistIsTotal(table, b + a, key);
    TotalResistAppend(table, a, b, key);
    TotalResistAppend(table, b, a, key);
  }
}
