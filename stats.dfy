/** The player's stats record (main.js:169-180), item stat effects and the
    single-step level check. */
module Stats {
  import opened Common

  /** Health is real because typed damage reduced by a 70% cap is
      fractional; the other survival stats only ever move by integers. */
  datatype PlayerStats = PlayerStats(
    health: real,
    thirst: int,
    hunger: int,
    stamina: int,
    oromozi: int,
    currentZone: string,
    experience: int,
    level: int)

  predicate InRange(x: int) {
    0 <= x <= 100
  }

  /** What every rule of the game keeps true of the stats record. */
  predicate Valid(s: PlayerStats) {
    0.0 <= s.health <= 100.0 && InRange(s.thirst) && InRange(s.hunger) && InRange(s.stamina)
    && s.oromozi >= 0 && s.experience >= 0 && s.level >= 1
  }

  /** `createInitialStats(zoneName, existingOromozi)`: full survival stats,
      the carried currency, and a first-level character. */
  function CreateInitialStats(zoneName: string, existingOromozi: int): (s: PlayerStats)
    ensures existingOromozi >= 0 ==> Valid(s)
    ensures s.health == 100.0 && s.thirst == 100 && s.hunger == 100 && s.stamina == 100
    ensures s.oromozi == existingOromozi && s.currentZone == zoneName
    ensures s.level == 1 && s.experience == 0
  {
    PlayerStats(100.0, 100, 100, 100, existingOromozi, zoneName, 0, 1)
  }

  /** `playerStats.level || 1`. */
  function CurrentLevel(s: PlayerStats): int {
    if s.level == 0 then 1 else s.level
  }

  /** Experience needed to leave the current level. */
  function LevelThreshold(s: PlayerStats): int {
    CurrentLevel(s) * 100
  }

  /** `checkLevelUp`: one threshold test (an `if`, not a loop). When the
      experience reaches level*100 the player gains exactly one level, pays
      the threshold out of experience and is healed to full. */
  function CheckLevelUp(s: PlayerStats): (r: PlayerStats)
    ensures s.experience >= LevelThreshold(s) ==>
      r == s.(level := CurrentLevel(s) + 1, experience := s.experience - LevelThreshold(s), health := 100.0)
    ensures s.experience < LevelThreshold(s) ==> r == s
  {
    var cur := CurrentLevel(s);
    var need := cur * 100;
    if s.experience >= need then s.(level := cur + 1, experience := s.experience - need, health := 100.0)
    else s
  }

  /** Experience earned over the whole game: the current pool plus the
      thresholds 100 + 200 + ... + (level-1)*100 already paid. */
  function LifetimeExperience(s: PlayerStats): int {
    s.experience + 50 * s.level * (s.level - 1)
  }

  /** A level check never loses or creates experience: it only moves it
      from the pool into levels. */
  lemma CheckLevelUpKeepsLifetimeExperience(s: PlayerStats)
    requires s.level >= 1
    ensures LifetimeExperience(CheckLevelUp(s)) == LifetimeExperience(s)
  {
    var l := s.level;
    assert 50 * (l + 1) * l - 50 * l * (l - 1) == 100 * l;
  }

  /** One call grants at most one level and keeps the stats valid. */
  lemma CheckLevelUpAtMostOneLevel(s: PlayerStats)
    requires Valid(s)
    ensures s.level <= CheckLevelUp(s).level <= s.level + 1
    ensures Valid(CheckLevelUp(s))
    ensures CheckLevelUp(s).level == s.level + 1 <==> s.experience >= 100 * s.level
  {
  }

  /** Because the check is a single step, a large gain can leave the pool
      above the next threshold: 350 experience at level 1 ends at level 2
      with 250, although 200 would suffice for level 3. */
  lemma SingleStepCanLeaveSurplus()
    ensures var r := CheckLevelUp(CreateInitialStats("Shady Grove", 0).(experience := 350));
      r.level == 2 && r.experience == 250 && r.experience >= LevelThreshold(r)
  {
  }

  /** The stats that `playerStats[stat] !== undefined` accepts as numbers. */
  predicate IsNumericStat(key: string) {
    key == "health" || key == "thirst" || key == "hunger" || key == "stamina"
    || key == "oromozi" || key == "experience" || key == "level"
  }

  /** A numeric stat read by its key. */
  function StatValue(s: PlayerStats, key: string): real
    requires IsNumericStat(key)
  {
    match key
    case "health" => s.health
    case "thirst" => s.thirst as real
    case "hunger" => s.hunger as real
    case "stamina" => s.stamina as real
    case "oromozi" => s.oromozi as real
    case "experience" => s.experience as real
    case _ => s.level as real
  }

  /** `playerStats[stat] = Math.min(playerStats[stat] + value, 100)`: the
      stat gains the value unless that would pass 100, where it stops;
      no other stat moves. */
  function RaiseCapped(s: PlayerStats, key: string, v: int): (r: PlayerStats)
    requires IsNumericStat(key)
    ensures StatValue(r, key) <= 100.0
    ensures StatValue(r, key) == StatValue(s, key) + v as real || StatValue(r, key) == 100.0
    ensures StatValue(s, key) + v as real <= 100.0 ==> StatValue(r, key) == StatValue(s, key) + v as real
    ensures r.currentZone == s.currentZone
  {
    match key
    case "health" => s.(health := MinR(s.health + v as real, 100.0))
    case "thirst" => s.(thirst := Min(s.thirst + v, 100))
    case "hunger" => s.(hunger := Min(s.hunger + v, 100))
    case "stamina" => s.(stamina := Min(s.stamina + v, 100))
    case "oromozi" => s.(oromozi := Min(s.oromozi + v, 100))
    case "experience" => s.(experience := Min(s.experience + v, 100))
    case _ => s.(level := Min(s.level + v, 100))
  }

  /** Raising one stat leaves every other stat as it was. */
  lemma RaiseCappedFrame(s: PlayerStats, key: string, v: int, k: string)
    requires IsNumericStat(key) && IsNumericStat(k) && k != key
    ensures StatValue(RaiseCapped(s, key, v), k) == StatValue(s, k)
  {
  }

  predicate NonNegativeEffects(effects: seq<(string, int)>) {
    forall i :: 0 <= i < |effects| ==> effects[i].1 >= 0
  }

  predicate HasNumericStat(effects: seq<(string, int)>) {
    exists i :: 0 <= i < |effects| && IsNumericStat(effects[i].0)
  }

  /** One entry of `applyItemEffects`' loop. */
  function ApplyEffect(s: PlayerStats, effect: (string, int)): PlayerStats {
    if IsNumericStat(effect.0) then RaiseCapped(s, effect.0, effect.1) else s
  }

  /** `applyItemEffects`: every effect naming a numeric stat raises it by its
      value, capped at 100, in entry order; the flag says whether any
      effect applied. */
  function ApplyItemEffects(s: PlayerStats, effects: seq<(string, int)>): (r: (PlayerStats, bool))
    ensures r.1 <==> HasNumericStat(effects)
    ensures !r.1 ==> r.0 == s
    ensures Valid(s) && NonNegativeEffects(effects) ==> Valid(r.0)
    ensures r.0.currentZone == s.currentZone
    decreases |effects|
  {
    if effects == [] then (s, false)
    else
      var n := |effects| - 1;
      var prev := ApplyItemEffects(s, effects[..n]);
      assert HasNumericStat(effects) <==> HasNumericStat(effects[..n]) || IsNumericStat(effects[n].0) by {
        if HasNumericStat(effects) && !IsNumericStat(effects[n].0) {
          var i :| 0 <= i < |effects| && IsNumericStat(effects[i].0);
          assert effects[..n][i] == effects[i];
        }
      }
      (ApplyEffect(prev.0, effects[n]), prev.1 || IsNumericStat(effects[n].0))
  }

  /** Whether some effect names `key`. */
  predicate Names(effects: seq<(string, int)>, key: string) {
    exists i :: 0 <= i < |effects| && effects[i].0 == key
  }

  /** After an item's effects every stat they name is at most 100 and
      every stat they do not name is as it was. */
  lemma {:induction false} ApplyItemEffectsCaps(s: PlayerStats, effects: seq<(string, int)>, k: string)
    requires IsNumericStat(k)
    ensures Names(effects, k) ==> StatValue(ApplyItemEffects(s, effects).0, k) <= 100.0
    ensures !Names(effects, k) ==> StatValue(ApplyItemEffects(s, effects).0, k) == StatValue(s, k)
    decreases |effects|
  {
    if effects != [] {
      var n := |effects| - 1;
      ApplyItemEffectsCaps(s, effects[..n], k);
      assert Names(effects, k) <==> Names(effects[..n], k) || effects[n].0 == k by {
        if Names(effects, k) && effects[n].0 != k {
          var i :| 0 <= i < |effects| && effects[i].0 == k;
          assert effects[..n][i] == effects[i];
        }
        if Names(effects[..n], k) {
          var i :| 0 <= i < n && effects[..n][i].0 == k;
          assert effects[i] == effects[..n][i];
        }
      }
      var prev := ApplyItemEffects(s, effects[..n]).0;
      if IsNumericStat(effects[n].0) && effects[n].0 != k {
        RaiseCappedFrame(prev, effects[n].0, effects[n].1, k);
      }
    }
  }
}
