/** Camping: the materials check (main.js:160-164), the rest it grants
    (main.js:3882-3903) and the materials it consumes and refunds
    (main.js:1880-1881, 1982-1983). */
module Camping {
  import opened Common
  import opened Text
  import opened Stats
  import opened Inventory

  /** The first entry whose lower-cased name is `key`, or -1. */
  function FindIgnoringCase(inv: seq<Entry>, key: string): (r: int)
    ensures -1 <= r < |inv|
    ensures r >= 0 ==> LowerStr(inv[r].name) == key
    ensures forall j :: 0 <= j < |inv| && (r == -1 || j < r) ==> LowerStr(inv[j].name) != key
  {
    if inv == [] then -1
    else if LowerStr(inv[0].name) == key then 0
    else
      var k := FindIgnoringCase(inv[1..], key);
      if k == -1 then -1 else k + 1
  }

  /** `hasCampingMaterials`: the first "stick" (in any case) holds at least
      two and the first "cloth" at least one. */
  predicate HasCampingMaterials(inv: seq<Entry>) {
    var s := FindIgnoringCase(inv, "stick");
    var c := FindIgnoringCase(inv, "cloth");
    s >= 0 && inv[s].quantity >= 2 && c >= 0 && inv[c].quantity >= 1
  }

  /** Every entry that reads as "stick" or "cloth" ignoring case is spelt
      exactly "Stick" or "Cloth". */
  predicate CanonicalMaterials(inv: seq<Entry>) {
    forall i :: 0 <= i < |inv| ==>
      (LowerStr(inv[i].name) == "stick" ==> inv[i].name == "Stick")
      && (LowerStr(inv[i].name) == "cloth" ==> inv[i].name == "Cloth")
  }

  /** With the materials spelt as the loot tables spell them, the
      case-insensitive check asks exactly for what the exact-name removal
      takes: two Sticks and one Cloth. */
  lemma HasCampingMaterialsIff(inv: seq<Entry>)
    requires CanonicalMaterials(inv)
    ensures HasCampingMaterials(inv) <==> QuantityOf(inv, "Stick") >= 2 && QuantityOf(inv, "Cloth") >= 1
  {
    assert LowerStr("Stick") == "stick";
    assert LowerStr("Cloth") == "cloth";
    var s := FindIgnoringCase(inv, "stick");
    var c := FindIgnoringCase(inv, "cloth");
    forall j | 0 <= j < |inv| && (s == -1 || j < s)
      ensures inv[j].name != "Stick"
    {
      assert LowerStr(inv[j].name) != "stick";
    }
    forall j | 0 <= j < |inv| && (c == -1 || j < c)
      ensures inv[j].name != "Cloth"
    {
      assert LowerStr(inv[j].name) != "cloth";
    }
    IndexOfIs(inv, "Stick", s);
    IndexOfIs(inv, "Cloth", c);
  }

  /** A lower-case "stick" entry passes the check although the removal,
      which matches "Stick" exactly, then leaves it untouched. */
  lemma LowerCaseMaterialsAreNotConsumed()
    ensures var inv := [Entry("stick", 2), Entry("Cloth", 1)];
      HasCampingMaterials(inv) && UseMaterials(inv) == [Entry("stick", 2)]
  {
    var inv := [Entry("stick", 2), Entry("Cloth", 1)];
    assert LowerStr("stick") == "stick";
    assert LowerStr("Cloth") == "cloth";
    assert LowerStr("stick") != "cloth";
    assert FindIgnoringCase(inv[1..], "cloth") == 0;
    assert FindIgnoringCase(inv, "cloth") == 1;
    assert inv[0].name != "Stick" && inv[1].name != "Stick";
    IndexOfIs(inv, "Stick", -1);
    assert Remove(inv, "Stick", 2) == inv;
    IndexOfIs(inv, "Cloth", 1);
  }

  /** The rest: health +30, stamina +50, hunger +20, thirst +30, each capped at 100. */
  function CampRest(s: PlayerStats): (r: PlayerStats)
    ensures Stats.Valid(s) ==> Stats.Valid(r)
  {
    s.(health := MinR(s.health + 30.0, 100.0),
       stamina := Min(s.stamina + 50, 100),
       hunger := Min(s.hunger + 20, 100),
       thirst := Min(s.thirst + 30, 100))
  }

  /** Resting never lowers a stat, reaches at most 100, gains at most the
      stated amounts, and leaves everything else alone. */
  lemma CampRestEffect(s: PlayerStats)
    requires Stats.Valid(s)
    ensures var r := CampRest(s);
      && s.health <= r.health <= 100.0 && r.health - s.health <= 30.0
      && s.stamina <= r.stamina <= 100 && r.stamina - s.stamina <= 50
      && s.hunger <= r.hunger <= 100 && r.hunger - s.hunger <= 20
      && s.thirst <= r.thirst <= 100 && r.thirst - s.thirst <= 30
      && (s.health <= 70.0 ==> r.health == s.health + 30.0)
      && r.(health := s.health, stamina := s.stamina, hunger := s.hunger, thirst := s.thirst) == s
  {
  }

  /** Two Sticks and one Cloth taken out. */
  function UseMaterials(inv: seq<Entry>): seq<Entry> {
    Remove(Remove(inv, "Stick", 2), "Cloth", 1)
  }

  /** Two Sticks and one Cloth put back. */
  function RefundMaterials(inv: seq<Entry>): seq<Entry> {
    Add(Add(inv, "Stick", 2), "Cloth", 1)
  }

  /** Using the materials takes exactly two Sticks and one Cloth from a
      valid ledger that holds them, and keeps the ledger valid. */
  lemma UseMaterialsEffect(inv: seq<Entry>, m: string)
    requires Inventory.Valid(inv) && QuantityOf(inv, "Stick") >= 2 && QuantityOf(inv, "Cloth") >= 1
    ensures Inventory.Valid(UseMaterials(inv))
    ensures QuantityOf(UseMaterials(inv), m) ==
      QuantityOf(inv, m) - (if m == "Stick" then 2 else if m == "Cloth" then 1 else 0)
  {
    RemoveKeepsValid(inv, "Stick", 2);
    RemoveQuantities(inv, "Stick", 2, m);
    RemoveQuantities(inv, "Stick", 2, "Cloth");
    RemoveKeepsValid(Remove(inv, "Stick", 2), "Cloth", 1);
    RemoveQuantities(Remove(inv, "Stick", 2), "Cloth", 1, m);
  }

  /** Cancelling the camp set-up with ESC gives every quantity back. */
  lemma RefundRestoresQuantities(inv: seq<Entry>, m: string)
    requires Inventory.Valid(inv) && QuantityOf(inv, "Stick") >= 2 && QuantityOf(inv, "Cloth") >= 1
    ensures QuantityOf(RefundMaterials(UseMaterials(inv)), m) == QuantityOf(inv, m)
  {
    var used := UseMaterials(inv);
    UseMaterialsEffect(inv, m);
    AddQuantities(used, "Stick", 2, m);
    AddQuantities(Add(used, "Stick", 2), "Cloth", 1, m);
  }
}
