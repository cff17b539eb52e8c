/** The turn-based battle: derived player stats (main.js:871-894), enemy
    generation (main.js:902-910), one turn (main.js:951-1032) and the end of
    a battle (main.js:1092-1130). */
module Battle {
  import opened Common
  import opened Text
  import opened Stats
  import Catalog

  datatype BattleStats = BattleStats(health: real, attack: int, evasion: int, defense: int)

  /** The level-derived stats before equipment: attack 8 + 2(L-1), evasion
      5 + floor((L-1)/2), defense 3 + floor(0.7(L-1)) (Dafny's `/` on a
      positive divisor is the floor). */
  function BaseBattleStats(s: PlayerStats): BattleStats {
    var l := s.level - 1;
    BattleStats(s.health, 8 + l * 2, 5 + l / 2, 3 + (l * 7) / 10)
  }

  /** A higher level never gives weaker base stats. */
  lemma BaseBattleStatsMonotone(s: PlayerStats, t: PlayerStats)
    requires 1 <= s.level <= t.level
    ensures BaseBattleStats(s).attack <= BaseBattleStats(t).attack
    ensures BaseBattleStats(s).evasion <= BaseBattleStats(t).evasion
    ensures BaseBattleStats(s).defense <= BaseBattleStats(t).defense
  {
  }

  /** The value an item's `statEffects` gives for one key (0 when absent). */
  function EffectOf(effects: seq<(string, int)>, key: string): int {
    if effects == [] then 0
    else if effects[0].0 == key then effects[0].1
    else EffectOf(effects[1..], key)
  }

  /** One equipped item's contribution: its combat bonuses, and its health
      effect capped at 100 when it has one. */
  function Equip(b: BattleStats, d: Option<Catalog.ItemDef>): BattleStats {
    match d
    case None => b
    case Some(item) =>
      var c := item.combatEffects;
      var h := EffectOf(item.statEffects, "health");
      BattleStats(
        if h != 0 then MinR(b.health + h as real, 100.0) else b.health,
        b.attack + c.attack, b.evasion + c.evasion, b.defense + c.defense)
  }

  /** `calculateBattleStats`: the base stats with every equipped item
      applied in equip order. */
  function CalculateBattleStats(s: PlayerStats, table: Option<LootTable>, equipped: seq<string>): BattleStats
    decreases |equipped|
  {
    if equipped == [] then BaseBattleStats(s)
    else
      var n := |equipped| - 1;
      Equip(CalculateBattleStats(s, table, equipped[..n]), Catalog.ItemData(table, equipped[n]))
  }

  type LootTable = Catalog.LootTable

  /** The combat bonuses of the equipped list, summed item by item. */
  function CombatBonus(table: Option<LootTable>, equipped: seq<string>): Catalog.CombatEffects
    decreases |equipped|
  {
    if equipped == [] then Catalog.CombatEffects(0, 0, 0)
    else
      var n := |equipped| - 1;
      var rest := CombatBonus(table, equipped[..n]);
      var c := match Catalog.ItemData(table, equipped[n])
        case None => Catalog.CombatEffects(0, 0, 0)
        case Some(item) => item.combatEffects;
      Catalog.CombatEffects(rest.attack + c.attack, rest.evasion + c.evasion, rest.defense + c.defense)
  }

  /** One item's health effect, 0 when it has no catalog record. */
  function HealOf(table: Option<LootTable>, name: string): int {
    match Catalog.ItemData(table, name)
    case None => 0
    case Some(item) => EffectOf(item.statEffects, "health")
  }

  /** The health effects of the equipped list, summed. */
  function HealBonus(table: Option<LootTable>, equipped: seq<string>): int
    decreases |equipped|
  {
    if equipped == [] then 0
    else
      var n := |equipped| - 1;
      HealBonus(table, equipped[..n]) + HealOf(table, equipped[n])
  }

  /** No equipped item lowers health. */
  predicate HealsNonNegative(table: Option<LootTable>, equipped: seq<string>) {
    forall i :: 0 <= i < |equipped| ==> HealOf(table, equipped[i]) >= 0
  }

  /** An effect list without negative values gives no key a negative value. */
  lemma {:induction false} EffectOfNonNegative(effects: seq<(string, int)>, key: string)
    requires NonNegativeEffects(effects)
    ensures EffectOf(effects, key) >= 0
    decreases |effects|
  {
    if effects != [] && effects[0].0 != key {
      assert NonNegativeEffects(effects[1..]) by {
        forall i | 0 <= i < |effects[1..]| ensures effects[1..][i].1 >= 0 {
          assert effects[1..][i] == effects[i + 1];
        }
      }
      EffectOfNonNegative(effects[1..], key);
    }
  }

  /** The derived stats are the level's base plus the summed bonuses of
      everything equipped; health stays within 100 once any item heals. */
  lemma {:induction false} BattleStatsAreBasePlusBonus(s: PlayerStats, table: Option<LootTable>, equipped: seq<string>)
    ensures var b := CalculateBattleStats(s, table, equipped);
      var base := BaseBattleStats(s);
      var c := CombatBonus(table, equipped);
      && b.attack == base.attack + c.attack
      && b.evasion == base.evasion + c.evasion
      && b.defense == base.defense + c.defense
      && (b.health == s.health || b.health <= 100.0)
    decreases |equipped|
  {
    if equipped != [] {
      BattleStatsAreBasePlusBonus(s, table, equipped[..|equipped| - 1]);
    }
  }

  /** When no equipped item lowers health, the derived health is the
      player's health plus the summed healing, capped at 100, or the
      player's health when nothing heals. */
  lemma {:induction false} BattleHealthIsCappedHealing(s: PlayerStats, table: Option<LootTable>, equipped: seq<string>)
    requires HealsNonNegative(table, equipped)
    ensures HealBonus(table, equipped) >= 0
    ensures CalculateBattleStats(s, table, equipped).health ==
      (if HealBonus(table, equipped) == 0 then s.health else MinR(s.health + HealBonus(table, equipped) as real, 100.0))
    decreases |equipped|
  {
    if equipped != [] {
      var n := |equipped| - 1;
      assert HealsNonNegative(table, equipped[..n]) by {
        forall i | 0 <= i < n ensures HealOf(table, equipped[..n][i]) >= 0 {
          assert equipped[..n][i] == equipped[i];
        }
      }
      BattleHealthIsCappedHealing(s, table, equipped[..n]);
      var h := HealOf(table, equipped[n]);
      assert h >= 0;
      var prev := CalculateBattleStats(s, table, equipped[..n]);
      assert CalculateBattleStats(s, table, equipped).health ==
        (if h != 0 then MinR(prev.health + h as real, 100.0) else prev.health);
      var hb := HealBonus(table, equipped[..n]);
      assert HealBonus(table, equipped) == hb + h;
      assert (hb + h) as real == hb as real + h as real;
      if h != 0 && hb != 0 {
        assert prev.health == MinR(s.health + hb as real, 100.0);
        assert MinR(prev.health + h as real, 100.0) == MinR(s.health + (hb + h) as real, 100.0);
      }
    }
  }

  /** Combat bonuses add up over a concatenation of equipped lists. */
  lemma {:induction false} CombatBonusAppend(table: Option<LootTable>, a: seq<string>, b: seq<string>)
    ensures var ab := CombatBonus(table, a + b);
      var ca := CombatBonus(table, a);
      var cb := CombatBonus(table, b);
      && ab.attack == ca.attack + cb.attack
      && ab.evasion == ca.evasion + cb.evasion
      && ab.defense == ca.defense + cb.defense
    decreases |b|
  {
    if b == [] {
      assert a + b == a;
    } else {
      var n := |b| - 1;
      assert (a + b)[..|a + b| - 1] == a + b[..n];
      assert (a + b)[|a + b| - 1] == b[n];
      CombatBonusAppend(table, a, b[..n]);
    }
  }

  /** Healing adds up over a concatenation of equipped lists. */
  lemma {:induction false} HealBonusAppend(table: Option<LootTable>, a: seq<string>, b: seq<string>)
    ensures HealBonus(table, a + b) == HealBonus(table, a) + HealBonus(table, b)
    decreases |b|
  {
    if b == [] {
      assert a + b == a;
    } else {
      var n := |b| - 1;
      assert (a + b)[..|a + b| - 1] == a + b[..n];
      assert (a + b)[|a + b| - 1] == b[n];
      HealBonusAppend(table, a, b[..n]);
    }
  }

  /** The derived battle stats do not depend on the order the items were
      equipped in, as long as no item lowers health (the capped health
      fold is order-sensitive only for negative effects). */
  lemma BattleStatsEquipOrderIrrelevant(s: PlayerStats, table: Option<LootTable>, a: seq<string>, b: seq<string>)
    requires HealsNonNegative(table, a + b)
    ensures CalculateBattleStats(s, table, a + b) == CalculateBattleStats(s, table, b + a)
  {
    forall i | 0 <= i < |b + a| ensures HealOf(table, (b + a)[i]) >= 0 {
      if i < |b| {
        assert (b + a)[i] == (a + b)[|a| + i];
      } else {
        assert (b + a)[i] == (a + b)[i - |b|];
      }
    }
    BattleStatsAreBasePlusBonus(s, table, a + b);
    BattleStatsAreBasePlusBonus(s, table, b + a);
    BattleHealthIsCappedHealing(s, table, a + b);
    BattleHealthIsCappedHealing(s, table, b + a);
    CombatBonusAppend(table, a, b);
    CombatBonusAppend(table, b, a);
    HealBonusAppend(table, a, b);
    HealBonusAppend(table, b, a);
  }

  datatype Enemy = Enemy(name: string, health: int, maxHealth: int, attack: int, defense: int, level: int)

  const EnemyNames: seq<string> := ["Goblin", "Wolf", "Bandit", "Skeleton", "Troll"]

  /** `enterBattleMode`'s enemy: a level within one of the player's (never
      below 1), a name from the five kinds, and stats scaled by that level. */
  function GenerateEnemy(playerLevel: int, levelRoll: real, nameRoll: real): (e: Enemy)
    requires IsRoll(levelRoll) && IsRoll(nameRoll)
    ensures e.level >= 1 && playerLevel - 1 <= e.level <= Max(1, playerLevel + 1)
    ensures e.name in EnemyNames
    ensures e.health == e.maxHealth == 50 + 10 * e.level
    ensures e.attack == 5 + 2 * e.level && e.defense == 2 + (3 * e.level) / 2
  {
    var lvl := Max(1, playerLevel - 1 + RandomBelow(levelRoll, 3));
    var lv := lvl;
    Enemy(EnemyNames[RandomBelow(nameRoll, 5)], 50 + lv * 10, 50 + lv * 10, 5 + lv * 2, 2 + (lv * 3) / 2, lv)
  }

  datatype Action = Attack | Defend | UseItem | Flee | UsedItem

  /** The four `Math.random()` draws a turn can make. */
  datatype TurnRolls = TurnRolls(attack: real, flee: real, enemyHit: real, dodge: real)

  predicate ValidTurnRolls(r: TurnRolls) {
    IsRoll(r.attack) && IsRoll(r.flee) && IsRoll(r.enemyHit) && IsRoll(r.dodge)
  }

  datatype BattleResult = Victory | Defeat | Fled

  datatype TurnEnd = Continue | ItemMenu | Ended(result: BattleResult)

  /** The battle fields of the scene: the player's health, the enemy, the
      turn counter, the log and the defend flag. */
  datatype BattleState = BattleState(health: real, enemy: Enemy, turn: int, log: seq<string>, defending: bool)

  /** The player's strike: attack minus enemy defense plus a draw from
      -2..2, at least 1. */
  function PlayerDamage(b: BattleStats, e: Enemy, u: real): (d: int)
    requires IsRoll(u)
    ensures d >= 1
    ensures Max(1, b.attack - e.defense - 2) <= d <= Max(1, b.attack - e.defense + 2)
  {
    var r := RandomBelow(u, 5) - 2;
    Max(1, b.attack - e.defense + r)
  }

  /** The enemy's strike: its attack minus the player's defense, minus 5
      more when defending, plus a draw from -2..1, at least 1. */
  function EnemyDamage(e: Enemy, b: BattleStats, defending: bool, u: real): (d: int)
    requires IsRoll(u)
    ensures d >= 1
    ensures var base := e.attack - b.defense - (if defending then 5 else 0);
      Max(1, base - 2) <= d <= Max(1, base + 1)
  {
    var r := RandomBelow(u, 4) - 2;
    Max(1, e.attack - b.defense - (if defending then 5 else 0) + r)
  }

  /** The escape chance: 40% plus 10% per level above the enemy, with no clamp. */
  function FleeChance(playerLevel: int, enemyLevel: int): real {
    0.4 + (playerLevel - enemyLevel) as real * 0.1
  }

  /** The enemy's counter-attack, unless the player's action killed it. */
  function Counter(st: BattleState, b: BattleStats, rolls: TurnRolls): (BattleState, TurnEnd)
    requires ValidTurnRolls(rolls)
  {
    if st.enemy.health <= 0 then (st, Ended(Victory))
    else
      var d := EnemyDamage(st.enemy, b, st.defending, rolls.enemyHit);
      var st1 :=
        if rolls.dodge < b.evasion as real / 100.0 then
          st.(log := st.log + [st.enemy.name + " attacks but you dodge!"])
        else
          st.(health := MaxR(0.0, st.health - d as real),
              log := st.log + [st.enemy.name + " attacks for " + IntToString(d) + " damage!"],
              defending := false);
      if st1.health <= 0.0 then (st1, Ended(Defeat)) else (st1, Continue)
  }

  /** The state after the player's own action, before any counter-attack. */
  function PlayerAction(st: BattleState, b: BattleStats, playerLevel: int, action: Action, rolls: TurnRolls): BattleState
    requires ValidTurnRolls(rolls)
  {
    var st1 := st.(turn := st.turn + 1);
    match action
    case Attack =>
      var d := PlayerDamage(b, st.enemy, rolls.attack);
      st1.(enemy := st.enemy.(health := Max(0, st.enemy.health - d)),
           log := st.log + ["You attack for " + IntToString(d) + " damage!"])
    case Defend => st1.(defending := true, log := st.log + ["You take a defensive stance!"])
    case UseItem => st1
    case Flee =>
      if rolls.flee < FleeChance(playerLevel, st.enemy.level) then st1.(log := st.log + ["You successfully fled!"])
      else st1.(log := st.log + ["Failed to escape!"])
    case UsedItem => st1
  }

  predicate Escaped(st: BattleState, playerLevel: int, action: Action, rolls: TurnRolls) {
    action == Flee && rolls.flee < FleeChance(playerLevel, st.enemy.level)
  }

  /** `performBattleAction`: the turn counter advances, the player acts;
      choosing an item opens the item menu and a successful escape ends
      the battle; otherwise a dead enemy is a victory, and a live one
      strikes back (the player may dodge), possibly defeating the player. */
  function Turn(st: BattleState, b: BattleStats, playerLevel: int, action: Action, rolls: TurnRolls): (BattleState, TurnEnd)
    requires ValidTurnRolls(rolls)
  {
    var st1 := PlayerAction(st, b, playerLevel, action, rolls);
    if action == UseItem then (st1, ItemMenu)
    else if Escaped(st, playerLevel, action, rolls) then (st1, Ended(Fled))
    else Counter(st1, b, rolls)
  }

  /** A strike that is neither pre-empted (item menu, escape, dead enemy)
      nor dodged. */
  predicate HitLands(st: BattleState, b: BattleStats, playerLevel: int, action: Action, rolls: TurnRolls)
    requires ValidTurnRolls(rolls)
  {
    action != UseItem && !Escaped(st, playerLevel, action, rolls)
    && PlayerAction(st, b, playerLevel, action, rolls).enemy.health > 0
    && !(rolls.dodge < b.evasion as real / 100.0)
  }

  /** The turn's guarantees: the counter advances by one; enemy and player
      health never go negative and never rise; the enemy loses exactly the
      strike's damage (floored at 0) on an attack; the player loses exactly
      the enemy's damage when a hit lands and nothing otherwise; and the
      defend flag is cleared only by a landed hit (a dodge keeps it). */
  lemma TurnEffect(st: BattleState, b: BattleStats, playerLevel: int, action: Action, rolls: TurnRolls)
    requires ValidTurnRolls(rolls) && st.enemy.health >= 0 && st.health >= 0.0
    ensures var (r, end) := Turn(st, b, playerLevel, action, rolls);
      var mid := PlayerAction(st, b, playerLevel, action, rolls);
      && r.turn == st.turn + 1
      && 0 <= r.enemy.health <= st.enemy.health
      && 0.0 <= r.health <= st.health
      && (action == Attack ==> r.enemy.health == Max(0, st.enemy.health - PlayerDamage(b, st.enemy, rolls.attack)))
      && (action != Attack ==> r.enemy == st.enemy)
      && (HitLands(st, b, playerLevel, action, rolls) ==>
            r.health == MaxR(0.0, st.health - EnemyDamage(st.enemy, b, mid.defending, rolls.enemyHit) as real)
            && !r.defending)
      && (!HitLands(st, b, playerLevel, action, rolls) ==>
            r.health == st.health && r.defending == (st.defending || action == Defend))
      && (end == Ended(Victory) <==> action != UseItem && !Escaped(st, playerLevel, action, rolls) && mid.enemy.health == 0)
      && (end == Ended(Defeat) ==> r.health == 0.0)
  {
  }

  /** A turn keeps the enemy's level, and both health values stay
      non-negative and never rise. */
  lemma TurnKeepsRanges(st: BattleState, b: BattleStats, playerLevel: int, action: Action, rolls: TurnRolls)
    requires ValidTurnRolls(rolls) && st.enemy.health >= 0 && st.health >= 0.0
    ensures var (r, _) := Turn(st, b, playerLevel, action, rolls);
      r.enemy.level == st.enemy.level && 0 <= r.enemy.health && 0.0 <= r.health <= st.health
  {
    TurnEffect(st, b, playerLevel, action, rolls);
  }

  /** Defending softens the enemy's next landed strike by 5 (while it is
      above the floor of 1). */
  lemma DefendingSoftensHit(e: Enemy, b: BattleStats, u: real)
    requires IsRoll(u)
    ensures EnemyDamage(e, b, true, u) == Max(1, EnemyDamage(e, b, false, u) - 5)
            || EnemyDamage(e, b, false, u) <= 6
    ensures EnemyDamage(e, b, true, u) <= EnemyDamage(e, b, false, u)
  {
  }

  /** The flee chance is not clamped: two levels below the enemy make
      escape a 20% draw, five below make it impossible, seven above make
      it certain. */
  lemma FleeChanceUnclamped()
    ensures FleeChance(3, 5) == 0.2
    ensures FleeChance(1, 6) <= 0.0
    ensures FleeChance(8, 1) >= 1.0
  {
  }

  /** A battle won leaves its enemy at health 0, whatever the action. */
  lemma VictoryLeavesEnemyDead(st: BattleState, b: BattleStats, playerLevel: int, action: Action, rolls: TurnRolls)
    requires ValidTurnRolls(rolls) && st.enemy.health >= 0 && st.health >= 0.0
    ensures Turn(st, b, playerLevel, action, rolls).1 == Ended(Victory) ==> Turn(st, b, playerLevel, action, rolls).0.enemy.health == 0
  {
    TurnEffect(st, b, playerLevel, action, rolls);
  }

  /** Attacking an enemy already at health 0 wins the battle again: the
      enemy, the player's health and the defend flag stay as they were. */
  lemma StaleEnemyLosesAgain(st: BattleState, b: BattleStats, playerLevel: int, rolls: TurnRolls)
    requires ValidTurnRolls(rolls) && st.enemy.health == 0
    ensures var (r, end) := Turn(st, b, playerLevel, Attack, rolls);
      && end == Ended(Victory) && r.enemy == st.enemy
      && r.health == st.health && r.defending == st.defending
  {
  }

  /** `endBattle` on the stats: a victory pays 10 + 5·L experience and
      20 + 10·L oromozi and runs the level check; a defeat costs up to 50
      oromozi and leaves 20 health; fleeing changes nothing. */
  function EndBattleStats(s: PlayerStats, enemyLevel: int, result: BattleResult): PlayerStats {
    match result
    case Victory =>
      CheckLevelUp(s.(experience := s.experience + 10 + enemyLevel * 5, oromozi := s.oromozi + 20 + enemyLevel * 10))
    case Defeat => s.(oromozi := s.oromozi - Min(s.oromozi, 50), health := 20.0)
    case Fled => s
  }

  lemma EndBattleEffect(s: PlayerStats, enemyLevel: int, result: BattleResult)
    requires Valid(s) && enemyLevel >= 1
    ensures var r := EndBattleStats(s, enemyLevel, result);
      && Valid(r)
      && (result == Victory ==>
            r.oromozi == s.oromozi + 20 + 10 * enemyLevel
            && LifetimeExperience(r) == LifetimeExperience(s) + 10 + 5 * enemyLevel
            && s.level <= r.level <= s.level + 1)
      && (result == Defeat ==>
            r.oromozi == (if s.oromozi >= 50 then s.oromozi - 50 else 0) && r.health == 20.0
            && r.(oromozi := s.oromozi, health := s.health) == s)
      && (result == Fled ==> r == s)
  {
    if result == Victory {
      var t := s.(experience := s.experience + 10 + enemyLevel * 5, oromozi := s.oromozi + 20 + enemyLevel * 10);
      CheckLevelUpKeepsLifetimeExperience(t);
      CheckLevelUpAtMostOneLevel(t);
    }
  }
}
