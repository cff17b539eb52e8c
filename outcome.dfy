/** Applying parsed outcome directives to the stats (main.js:320-383), the
    survival tick and the low-stat penalty (main.js:386-414). */
module Outcome {
  import opened Common
  import opened Stats
  import opened OutcomeParser
  import Catalog

  /** Health lost to `d` points of typed damage against resist `r`: the
      resist cancels at most 70% of the damage, and the loss is never
      negative. */
  function TypedLoss(d: real, r: real): real {
    MaxR(d - MinR(r, 0.7 * d), 0.0)
  }

  /** Whatever the resist, at least 30% of the damage gets through; a
      non-negative resist never makes it worse; below the cap the resist
      is simply subtracted. */
  lemma TypedLossBounds(d: real, r: real)
    requires d >= 0.0
    ensures 0.3 * d <= TypedLoss(d, r)
    ensures r >= 0.0 ==> TypedLoss(d, r) <= d
    ensures 0.0 <= r <= 0.7 * d ==> TypedLoss(d, r) == d - r
    ensures r >= 0.7 * d ==> TypedLoss(d, r) == 0.3 * d
  {
  }

  /** 20 damage against resist 10 loses 10; against resist 50 the cap
      leaves 6. */
  lemma TypedLossExamples()
    ensures TypedLoss(20.0, 10.0) == 10.0
    ensures TypedLoss(20.0, 50.0) == 6.0
  {
  }

  /** `Math.min(Math.max(x, 0), 100)`. */
  function Clamp(x: int): (r: int)
    ensures InRange(r)
    ensures InRange(x) ==> r == x
  {
    Min(Max(x, 0), 100)
  }

  /** One directive applied to the stats with the equipped resist sums. */
  function ApplyToken(s: PlayerStats, resist: map<string, int>, t: Token): PlayerStats {
    var v := t.value;
    if t.stat == "health" then
      if t.damageType.Some? && t.damageType.value != "" && v < 0 then
        var r := Catalog.ResistFor(resist, t.damageType.value) as real;
        s.(health := MaxR(s.health - TypedLoss((-v) as real, r), 0.0))
      else
        var h := MaxR(s.health + v as real, 0.0);
        s.(health := if v > 0 then MinR(h, 100.0) else h)
    else if t.stat == "stamina" then s.(stamina := Clamp(s.stamina + v))
    else if t.stat == "thirst" then s.(thirst := Clamp(s.thirst + v))
    else if t.stat == "hunger" then s.(hunger := Clamp(s.hunger + v))
    else if t.stat == "experience" || t.stat == "exp" then
      if v > 0 then CheckLevelUp(s.(experience := s.experience + v)) else s
    else s
  }

  /** What each kind of directive does: typed health damage loses the
      capped amount, other health changes add (capped at 100 only when
      positive), survival stats are clamped to [0, 100], positive
      experience goes through the level check, and anything else is
      ignored. Nothing but the named stat changes. */
  lemma ApplyTokenEffect(s: PlayerStats, resist: map<string, int>, t: Token)
    requires Valid(s)
    ensures var r := ApplyToken(s, resist, t);
      && Valid(r)
      && (t.stat == "health" && t.damageType.Some? && t.damageType.value != "" && t.value < 0 ==>
            r == s.(health := MaxR(s.health - TypedLoss((-t.value) as real,
                                     Catalog.ResistFor(resist, t.damageType.value) as real), 0.0))
            && r.health <= s.health)
      && (t.stat in {"stamina", "thirst", "hunger"} ==>
            InRange(r.stamina) && InRange(r.thirst) && InRange(r.hunger)
            && r.health == s.health && r.oromozi == s.oromozi && r.level == s.level)
      && (t.stat == "health" ==> r.(health := s.health) == s)
      && ((t.stat == "experience" || t.stat == "exp") && t.value > 0 ==>
            r == CheckLevelUp(s.(experience := s.experience + t.value)))
      && (!(t.stat in {"health", "stamina", "thirst", "hunger", "experience", "exp"}) ==> r == s)
  {
    var r := ApplyToken(s, resist, t);
    if t.stat == "health" && t.damageType.Some? && t.damageType.value != "" && t.value < 0 {
      TypedLossBounds((-t.value) as real, Catalog.ResistFor(resist, t.damageType.value) as real);
    }
    if (t.stat == "experience" || t.stat == "exp") && t.value > 0 {
      CheckLevelUpAtMostOneLevel(s.(experience := s.experience + t.value));
    }
  }

  /** The directives applied in order. */
  function ApplyTokens(s: PlayerStats, resist: map<string, int>, ts: seq<Token>): PlayerStats
    decreases |ts|
  {
    if ts == [] then s
    else ApplyToken(ApplyTokens(s, resist, ts[..|ts| - 1]), resist, ts[|ts| - 1])
  }

  lemma {:induction false} ApplyTokensKeepsValid(s: PlayerStats, resist: map<string, int>, ts: seq<Token>)
    requires Valid(s)
    ensures Valid(ApplyTokens(s, resist, ts))
    ensures ApplyTokens(s, resist, ts).oromozi == s.oromozi
    ensures ApplyTokens(s, resist, ts).currentZone == s.currentZone
    decreases |ts|
  {
    if ts != [] {
      var n := |ts| - 1;
      ApplyTokensKeepsValid(s, resist, ts[..n]);
      ApplyTokenEffect(ApplyTokens(s, resist, ts[..n]), resist, ts[n]);
    }
  }

  /** The health penalty for critically low survival stats: 8 when any is
      at most 10, else 3 when any is at most 25, else none. */
  function LowStatPenalty(s: PlayerStats): (p: int)
    ensures p == 0 || p == 3 || p == 8
    ensures p == 8 <==> s.stamina <= 10 || s.thirst <= 10 || s.hunger <= 10
    ensures p == 3 <==> !(s.stamina <= 10 || s.thirst <= 10 || s.hunger <= 10)
                         && (s.stamina <= 25 || s.thirst <= 25 || s.hunger <= 25)
    ensures p == 0 <==> s.stamina > 25 && s.thirst > 25 && s.hunger > 25
  {
    if s.stamina <= 10 || s.thirst <= 10 || s.hunger <= 10 then 8
    else if s.stamina <= 25 || s.thirst <= 25 || s.hunger <= 25 then 3
    else 0
  }

  /** The tick that follows every resolution outside the Village: thirst,
      hunger and stamina drop by 5 (not below 0), then the low-stat penalty
      is taken from health (not below 0). */
  function SurvivalTick(s: PlayerStats, zone: string): PlayerStats {
    if zone == "Village" then s
    else
      var t := s.(thirst := Max(s.thirst - 5, 0), hunger := Max(s.hunger - 5, 0), stamina := Max(s.stamina - 5, 0));
      var p := LowStatPenalty(t);
      if p > 0 then t.(health := MaxR(t.health - p as real, 0.0)) else t
  }

  lemma SurvivalTickEffect(s: PlayerStats, zone: string)
    requires Valid(s)
    ensures var r := SurvivalTick(s, zone);
      && Valid(r)
      && (zone == "Village" ==> r == s)
      && (zone != "Village" ==>
            r.thirst == Max(s.thirst - 5, 0) && r.hunger == Max(s.hunger - 5, 0)
            && r.stamina == Max(s.stamina - 5, 0)
            && r.health == MaxR(s.health - LowStatPenalty(r) as real, 0.0)
            && r.(health := s.health, thirst := s.thirst, hunger := s.hunger, stamina := s.stamina) == s)
  {
  }

  /** `applySurvivalTickAndOutcome`: the directives of the text, then the tick. */
  function Resolve(s: PlayerStats, resist: map<string, int>, zone: string, text: string): PlayerStats {
    SurvivalTick(ApplyTokens(s, resist, Tokenize(text)), zone)
  }

  /** Resolving an outcome keeps every stat in range and never touches
      the currency. */
  lemma ResolveKeepsValid(s: PlayerStats, resist: map<string, int>, zone: string, text: string)
    requires Valid(s)
    ensures Valid(Resolve(s, resist, zone, text))
    ensures Resolve(s, resist, zone, text).oromozi == s.oromozi
    ensures Resolve(s, resist, zone, text).currentZone == s.currentZone
  {
    ApplyTokensKeepsValid(s, resist, Tokenize(text));
    SurvivalTickEffect(ApplyTokens(s, resist, Tokenize(text)), zone);
  }

  /** In the Village an outcome with no directives changes nothing. */
  lemma VillageOutcomeWithoutDirectives(s: PlayerStats, resist: map<string, int>, text: string)
    requires Tokenize(text) == []
    ensures Resolve(s, resist, "Village", text) == s
  {
  }

  /** The exploration bonus: 5 plus a draw from 0..4. */
  function ExplorationExperience(u: real): (r: int)
    requires IsRoll(u)
    ensures 5 <= r <= 9
  {
    5 + RandomBelow(u, 5)
  }
}
