/** The real-time skirmish arithmetic: monsters scaled by the player's
    level (main.js:2601-2611), their strike (main.js:2691-2697), damage
    taken (main.js:2712-2738), the player's attack power
    (main.js:3290-3296), loot crates (main.js:2037-2039, 3507-3522) and the
    spawn caps (main.js:2066-2077, 2132-2136, 3601-3605). */
module Skirmish {
  import opened Common

  /** `playerStats.level || 1`. */
  function LevelOrOne(level: int): int {
    if level == 0 then 1 else level
  }

  /** `Math.floor(80 * (1 + (level - 1) * 0.2))`, in exact arithmetic. */
  function MonsterMaxHealth(level: int): int {
    (80.0 * (1.0 + (level - 1) as real * 0.2)).Floor
  }

  /** Monster health grows by 16 per player level from 80 at level 1. */
  lemma MonsterMaxHealthLinear(level: int)
    ensures MonsterMaxHealth(level) == 80 + 16 * (level - 1)
  {
    assert 80.0 * (1.0 + (level - 1) as real * 0.2) == (80 + 16 * (level - 1)) as real;
  }

  /** `5 + Math.floor((level - 1) * 1.2)`. */
  function MonsterDamage(level: int): int {
    5 + ((level - 1) as real * 1.2).Floor
  }

  /** A monster: health it can lose, and the level-scaled constants of its
      pursuit and strike. */
  class Monster {
    var health: int
    const maxHealth: int
    const damage: int
    const speed: int
    const detectionRange: int
    const attackCooldown: int

    /** The constructor's stats for the player's level (`|| 1`). */
    constructor(playerLevel: int)
      ensures var l := LevelOrOne(playerLevel);
        && maxHealth == MonsterMaxHealth(l) && health == maxHealth
        && damage == MonsterDamage(l)
        && speed == 50 + (l - 1) * 5
        && detectionRange == 200 + (l - 1) * 10
        && attackCooldown == Max(800, 1000 - (l - 1) * 50)
    {
      var l := LevelOrOne(playerLevel);
      maxHealth := MonsterMaxHealth(l);
      health := MonsterMaxHealth(l);
      damage := MonsterDamage(l);
      speed := 50 + (l - 1) * 5;
      detectionRange := 200 + (l - 1) * 10;
      attackCooldown := Max(800, 1000 - (l - 1) * 50);
    }

    /** `takeDamage`'s bookkeeping: the damage is subtracted, and the
      monster dies once its health is no longer positive. */
    method TakeDamage(amount: int) returns (killed: bool)
      modifies this`health
      ensures health == old(health) - amount
      ensures killed <==> health <= 0
    {
      health := health - amount;
      killed := health <= 0;
    }
  }

  /** The monster's strike: its damage less 30% of the player's defense
      (floored), at least 1. */
  function MonsterHit(damage: int, defense: int): (h: int)
    ensures h >= 1
    ensures defense >= 0 ==> h <= Max(1, damage)
  {
    Max(1, damage - (3 * defense) / 10)
  }

  /** More defense never means a harder hit. */
  lemma MonsterHitMonotone(damage: int, d1: int, d2: int)
    requires d1 <= d2
    ensures MonsterHit(damage, d2) <= MonsterHit(damage, d1)
  {
    assert (3 * d1) / 10 <= (3 * d2) / 10;
  }

  /** The attack cooldown never drops below 800 ms, whatever the level. */
  lemma CooldownFloor(playerLevel: int)
    ensures Max(800, 1000 - (LevelOrOne(playerLevel) - 1) * 50) >= 800
    ensures playerLevel >= 5 ==> Max(800, 1000 - (LevelOrOne(playerLevel) - 1) * 50) == 800
  {
  }

  /** The player's swing: 10 + 2 per level above the first, plus a draw
      from -2..3. */
  function AttackPower(level: int, u: real): (p: int)
    requires IsRoll(u)
    ensures 8 + (level - 1) * 2 <= p <= 13 + (level - 1) * 2
  {
    10 + (level - 1) * 2 + Between(u, -2, 3)
  }

  /** Experience for a kill: 10 plus a draw from 0..4. */
  function KillExperience(u: real): (e: int)
    requires IsRoll(u)
    ensures 10 <= e <= 14
  {
    10 + RandomBelow(u, 5)
  }

  /** A fresh crate's health range for the player's level. */
  function CrateHealthLow(level: int): int {
    2 + (level - 1) / 2
  }

  function CrateHealthHigh(level: int): int {
    6 + ((level - 1) * 8) / 10
  }

  /** The crate's health is drawn from a non-empty range that never
      shrinks below one hit. */
  lemma CrateHealthRange(level: int)
    requires level >= 1
    ensures 2 <= CrateHealthLow(level) <= CrateHealthHigh(level)
  {
  }

  datatype CrateState = CrateState(health: int, breaking: bool)

  /** `hitCrate` on the crate's data: a breaking crate ignores hits;
      otherwise one point of health goes, and the crate starts breaking
      (and drops its loot) when none is left. The flag says it broke now. */
  function HitOnce(c: CrateState): (CrateState, bool) {
    if c.breaking then (c, false)
    else
      var h := c.health - 1;
      if h <= 0 then (CrateState(h, true), true) else (CrateState(h, false), false)
  }

  /** `k` hits in a row: the final state and how many of them broke the crate. */
  function HitMany(c: CrateState, k: nat): (CrateState, nat) {
    if k == 0 then (c, 0)
    else
      var (c1, n) := HitMany(c, k - 1);
      var (c2, b) := HitOnce(c1);
      (c2, n + if b then 1 else 0)
  }

  /** A crate with health `h` breaks on exactly the h-th hit and never
      again: however often it is struck, it drops its loot once. */
  lemma {:induction false} CrateBreaksOnce(h: int, k: nat)
    requires h >= 1
    ensures HitMany(CrateState(h, false), k).1 == if k >= h then 1 else 0
    ensures HitMany(CrateState(h, false), k).0 == if k >= h then CrateState(0, true) else CrateState(h - k, false)
  {
    if k > 0 {
      CrateBreaksOnce(h, k - 1);
    }
  }

  /** A loot crate in the scene. */
  class Crate {
    var health: int
    var breaking: bool

    /** A crate placed for the player's level, its health drawn from the
        level's range. */
    constructor(level: int, u: real)
      requires level >= 1 && IsRoll(u)
      ensures CrateHealthLow(level) <= health <= CrateHealthHigh(level)
      ensures !breaking
    {
      CrateHealthRange(level);
      health := Between(u, CrateHealthLow(level), CrateHealthHigh(level));
      breaking := false;
    }

    function State(): CrateState
      reads this
    {
      CrateState(health, breaking)
    }

    method Hit() returns (brokeNow: bool)
      modifies this
      ensures (State(), brokeNow) == HitOnce(old(State()))
    {
      if breaking {
        brokeNow := false;
        return;
      }
      health := health - 1;
      if health <= 0 {
        breaking := true;
        brokeNow := true;
      } else {
        brokeNow := false;
      }
    }
  }

  /** `3 + Math.floor(level / 2)` monsters at most. */
  function MaxMonsters(level: int): int {
    3 + LevelOrOne(level) / 2
  }

  /** `spawnMonster`'s gate: at night, in the Outer Grasslands, below the cap. */
  predicate MaySpawnMonster(count: int, isNight: bool, zone: string, level: int) {
    isNight && zone == "Outer Grasslands" && count < MaxMonsters(level)
  }

  /** Spawning one monster at a time never pushes the population past the
      cap, and nothing spawns by day or in other zones. */
  lemma SpawnRespectsCap(count: int, isNight: bool, zone: string, level: int)
    requires count <= MaxMonsters(level)
    ensures count + (if MaySpawnMonster(count, isNight, zone, level) then 1 else 0) <= MaxMonsters(level)
    ensures !isNight || zone != "Outer Grasslands" ==> !MaySpawnMonster(count, isNight, zone, level)
  {
  }

  /** Exclamation marks per wave: one more per five prompts, at most 6. */
  function ExclamationCount(count: int, promptCount: int): (n: int)
    ensures n <= 6
    ensures count >= 0 && promptCount >= 0 ==> n >= Min(count, 6)
  {
    Min(count + promptCount / 5, 6)
  }

  /** Crates per wave: one more per two levels above the first. */
  function CrateCount(count: int, level: int): (n: int)
    ensures level >= 1 ==> n >= count
  {
    count + (level - 1) / 2
  }
}
