/** The zones, the narrative screens, the day clock and the moves between
    zones (main.js:110-135, 2405-2424, 2554-2584, 3679-3713, 3805-3811). */
module World {
  import opened Common
  import opened Text
  import opened Stats
  import OutcomeParser

  /** `zoneList`, by name, in its declared order. */
  const ZoneNames: seq<string> := ["Outer Grasslands", "Shady Grove", "Arid Desert", "Village"]

  /** The first zone whose lower-cased name is `key`. */
  function FindZoneIn(zones: seq<string>, key: string): (r: Option<string>)
    ensures r.Some? ==> r.value in zones && LowerStr(r.value) == key
    ensures r.None? ==> forall i :: 0 <= i < |zones| ==> LowerStr(zones[i]) != key
  {
    if zones == [] then None
    else if LowerStr(zones[0]) == key then Some(zones[0])
    else FindZoneIn(zones[1..], key)
  }

  /** The zone lookup of a travel request: the captured name is trimmed and
      compared without regard to case. */
  function FindZone(name: string): Option<string> {
    FindZoneIn(ZoneNames, LowerStr(Trim(name)))
  }

  /** No two zones share a lower-cased name. */
  lemma ZoneNamesDistinctIgnoringCase()
    ensures forall i, j :: 0 <= i < j < |ZoneNames| ==> LowerStr(ZoneNames[i]) != LowerStr(ZoneNames[j])
  {
    assert LowerStr(ZoneNames[1])[0] == 's' && LowerStr(ZoneNames[2])[0] == 'a';
  }

  /** A name finds a zone exactly when, trimmed and lower-cased, it is that
      zone's lower-cased name. */
  lemma FindZoneIff(name: string, z: string)
    ensures FindZone(name) == Some(z) <==> z in ZoneNames && LowerStr(Trim(name)) == LowerStr(z)
  {
    ZoneNamesDistinctIgnoringCase();
    var key := LowerStr(Trim(name));
    if z in ZoneNames && key == LowerStr(z) {
      var r := FindZoneIn(ZoneNames, key);
      var i :| 0 <= i < |ZoneNames| && ZoneNames[i] == z;
      assert r.Some?;
      var j :| 0 <= j < |ZoneNames| && ZoneNames[j] == r.value;
      if i < j {
        assert false;
      } else if j < i {
        assert false;
      }
    }
  }

  /** Where an outcome text sends the player: the first travel request's
      name, when it names a zone. */
  function TravelDestination(text: string): (r: Option<string>)
    ensures r.Some? ==> r.value in ZoneNames
  {
    match OutcomeParser.FindTravel(text)
    case None => None
    case Some(x) => FindZone(x)
  }

  /** `zoneList.findIndex(z => z.name === name)`: exact, or -1. */
  function ZoneIndex(name: string): (r: int)
    ensures -1 <= r < |ZoneNames|
    ensures r >= 0 <==> name in ZoneNames
    ensures r >= 0 ==> ZoneNames[r] == name
  {
    if name == ZoneNames[0] then 0
    else if name == ZoneNames[1] then 1
    else if name == ZoneNames[2] then 2
    else if name == ZoneNames[3] then 3
    else -1
  }

  /** `handleReturn`'s destination: the Village from the Outer Grasslands,
      otherwise the zone listed before the current one; nothing from the
      Village or from an unlisted zone. */
  function ReturnTarget(zone: string): Option<string> {
    if zone == "Outer Grasslands" then Some("Village")
    else if zone != "Village" then
      var i := ZoneIndex(zone);
      if i > 0 then Some(ZoneNames[i - 1]) else None
    else None
  }

  /** The extra choice `showChoices` offers once eight prompts have been
      seen, computed on its own in the source. */
  function ReturnOption(zone: string, promptCount: int): Option<string> {
    if promptCount < 8 then None
    else if zone == "Outer Grasslands" then Some("Return to Village")
    else if zone != "Village" then
      var i := ZoneIndex(zone);
      if i > 0 then Some("Return to " + ZoneNames[i - 1]) else None
    else None
  }

  /** How many returns separate a zone from the Village. */
  function StepsToVillage(zone: string): nat {
    if zone == "Arid Desert" then 3
    else if zone == "Shady Grove" then 2
    else if zone == "Outer Grasslands" then 1
    else 0
  }

  /** The offered choice and the move it triggers agree: the option reads
      "Return to T" exactly when eight prompts have passed and the return
      goes to T. */
  lemma ReturnOptionMatchesTarget(zone: string, promptCount: int)
    ensures ReturnOption(zone, promptCount).Some? <==> promptCount >= 8 && ReturnTarget(zone).Some?
    ensures ReturnOption(zone, promptCount).Some? ==>
      ReturnOption(zone, promptCount).value == "Return to " + ReturnTarget(zone).value
  {
  }

  /** Every return moves one step closer to the Village, so at most three
      returns lead home; only the Village and unlisted zones have none. */
  lemma ReturnApproachesVillage(zone: string)
    ensures ReturnTarget(zone).Some? <==> zone in ZoneNames && zone != "Village"
    ensures ReturnTarget(zone).Some? ==>
      ReturnTarget(zone).value in ZoneNames
      && StepsToVillage(ReturnTarget(zone).value) + 1 == StepsToVillage(zone)
  {
  }

  /** `handleReturn` as written: fresh stats for the destination carrying
      only the currency; the lines meant to keep level and experience copy
      the new record's own fields, so both are reset. */
  function ReturnStatsAsWritten(s: PlayerStats, target: string): PlayerStats {
    var made := CreateInitialStats(target, s.oromozi);
    made.(level := made.level, experience := made.experience)
  }

  /** A level-3 player who walks back from the Arid Desert arrives at level 1
      with no experience. */
  lemma ReturnResetsProgress()
    ensures var s := PlayerStats(60.0, 40, 40, 40, 500, "Arid Desert", 120, 3);
      var r := ReturnStatsAsWritten(s, "Shady Grove");
      r.level == 1 && r.experience == 0 && LifetimeExperience(r) < LifetimeExperience(s)
  {
  }

  /** The evident intent of `handleReturn`: restored survival stats in the
      new zone with currency, level and experience kept. */
  function ReturnStats(s: PlayerStats, target: string): (r: PlayerStats)
    ensures Valid(s) ==> Valid(r)
    ensures r.oromozi == s.oromozi && r.level == s.level && r.experience == s.experience
    ensures LifetimeExperience(r) == LifetimeExperience(s)
    ensures r.health == 100.0 && r.thirst == 100 && r.hunger == 100 && r.stamina == 100
    ensures r.currentZone == target
  {
    CreateInitialStats(target, s.oromozi).(level := s.level, experience := s.experience)
  }

  /** `handlePlayerDeath`: back to the Village with full survival stats,
      keeping currency, level (`|| 1`) and experience. */
  function DeathStats(s: PlayerStats): (r: PlayerStats)
    ensures Valid(s) ==> Valid(r)
    ensures r.currentZone == "Village" && r.health == 100.0
    ensures r.thirst == 100 && r.hunger == 100 && r.stamina == 100
    ensures r.oromozi == s.oromozi && r.experience == s.experience
    ensures r.level == (if s.level == 0 then 1 else s.level)
  {
    CreateInitialStats("Village", s.oromozi).(level := CurrentLevel(s), experience := s.experience)
  }

  /** Narrative and module screen codes. */
  const ScreenNone := 0
  const ScreenPrologue := 1
  const ScreenPrompt := 2
  const ScreenChoices := 3
  const ScreenOutcome := 4
  const ScreenItemMenu := 5
  const ScreenItemPick := 6
  const ScreenLiquidity := 7
  const ScreenMerchant := 8
  const ScreenRoyal := 9
  const ScreenTinker := 10
  const ScreenCraft := 11
  const ScreenTrading := 12
  const ScreenBattle := 13
  const ScreenCampingPrompt := 14

  /** The module screens (liquidity through battle) freeze the player. */
  predicate MovementHalted(screen: int) {
    ScreenLiquidity <= screen <= ScreenBattle
  }

  /** The camping prompt, though numbered after the battle screen, is not
      a module screen. */
  lemma CampingPromptDoesNotHalt()
    ensures !MovementHalted(ScreenCampingPrompt)
    ensures forall sc :: ScreenLiquidity <= sc <= ScreenBattle ==> MovementHalted(sc)
    ensures !MovementHalted(ScreenNone) && !MovementHalted(ScreenItemPick)
  {
  }

  /** Seconds of play per in-game day, and per in-game hour. */
  const SecondsPerDay := 240
  const SecondsPerHour := 10

  /** The hour of day shown for a game time: 6 AM at time 0, one hour per
      ten seconds. */
  function GameHour(t: real): (h: int)
    ensures 0 <= h < 24
  {
    (6 + (t / SecondsPerHour as real).Floor) % 24
  }

  /** `gameTime % secondsPerDay` for a non-negative time. */
  function WrapDay(t: real): (w: real)
    requires t >= 0.0
    ensures 0.0 <= w < SecondsPerDay as real
  {
    t - (SecondsPerDay as real) * ((t / SecondsPerDay as real).Floor as real)
  }

  /** Storing the time modulo a day never changes the hour derived from it:
      a day is exactly 24 hours of 10 seconds. */
  lemma WrapKeepsHour(t: real)
    requires t >= 0.0
    ensures GameHour(WrapDay(t)) == GameHour(t)
  {
    var k := (t / 240.0).Floor;
    assert WrapDay(t) / 10.0 == t / 10.0 - (24 * k) as real;
    FloorShift(t / 10.0, 24 * k);
  }

  lemma FloorShift(x: real, n: int)
    ensures (x - n as real).Floor == x.Floor - n
  {
  }

  predicate IsNight(h: int) {
    h >= 20 || h < 6
  }

  predicate IsNearNight(h: int) {
    18 <= h < 20
  }

  /** Camping is offered near nightfall and through the night: from 6 PM
      until 6 AM. */
  lemma CampingWindow(h: int)
    requires 0 <= h < 24
    ensures IsNearNight(h) || IsNight(h) <==> h >= 18 || h < 6
    ensures IsNight(h) ==> !IsNearNight(h)
  {
  }

  /** The twelve-hour clock face: 12 for noon and midnight. */
  function DisplayHour(h: int): (d: int)
    requires 0 <= h < 24
    ensures 1 <= d <= 12
  {
    if h % 12 == 0 then 12 else h % 12
  }

  predicate IsAM(h: int) {
    h < 12
  }

  /** The face and the AM/PM marker identify the hour uniquely. */
  lemma DisplayIdentifiesHour(h: int)
    requires 0 <= h < 24
    ensures h == (if IsAM(h) then 0 else 12) + DisplayHour(h) % 12
  {
  }

  /** The 6 PM camping prompt: raised once when the clock reaches 18:00
      outside the Village with no screen open; the latch clears once the
      hour has passed. Returns the new screen and latch. */
  function CampingPromptStep(hour: int, prompted: bool, zone: string, screen: int): (int, bool) {
    if hour == 18 && !prompted && zone != "Village" && screen == ScreenNone then (ScreenCampingPrompt, true)
    else if hour != 18 && prompted then (screen, false)
    else (screen, prompted)
  }

  /** The prompt opens only from an empty screen at 18:00 away from the
      Village, and never twice in the same evening: once latched, further
      frames at 18:00 leave screen and latch alone. */
  lemma CampingPromptOnce(hour: int, prompted: bool, zone: string, screen: int)
    ensures var (sc, p) := CampingPromptStep(hour, prompted, zone, screen);
      && (sc != screen <==> hour == 18 && !prompted && zone != "Village" && screen == ScreenNone)
      && (sc != screen ==> sc == ScreenCampingPrompt && p)
      && (hour == 18 ==> (p <==> prompted || (zone != "Village" && screen == ScreenNone)))
      && (hour != 18 ==> !p)
    ensures var (sc, p) := CampingPromptStep(hour, prompted, zone, screen);
      p && hour == 18 ==> CampingPromptStep(hour, p, zone, sc) == (sc, p)
  {
  }

  /** The SPACE key in the narrative: prologue to prompt, prompt to
      choices, outcome to the item menu; other screens are left to their
      own handlers. */
  function SpaceStep(screen: int): (r: int)
    ensures r == screen || screen in {ScreenPrologue, ScreenPrompt, ScreenOutcome}
  {
    if screen == ScreenPrologue then ScreenPrompt
    else if screen == ScreenPrompt then ScreenChoices
    else if screen == ScreenOutcome then ScreenItemMenu
    else screen
  }

  /** Repeated SPACE leads the narrative forward and settles on the item
      menu, never back to an earlier screen. */
  lemma SpaceAdvances(screen: int)
    requires ScreenPrologue <= screen <= ScreenOutcome
    ensures SpaceStep(screen) >= screen
    ensures SpaceStep(SpaceStep(ScreenPrologue)) == ScreenChoices
    ensures SpaceStep(SpaceStep(ScreenOutcome)) == ScreenItemMenu
  {
  }

  /** The frame update reaches the free-roam controls (movement, the SPACE
      attack, the interact key) only when neither a module screen nor a
      narrative screen holds the player. */
  predicate FreeRoam(screen: int) {
    !MovementHalted(screen) && !(ScreenPrologue <= screen <= ScreenItemPick) && screen != ScreenCampingPrompt
  }

  /** Of the screen codes, only the empty screen is free roam. */
  lemma FreeRoamIsEmptyScreen(screen: int)
    requires ScreenNone <= screen <= ScreenCampingPrompt
    ensures FreeRoam(screen) <==> screen == ScreenNone
  {
  }

  /** `showPrologue`'s screen: the prologue when the zone has prologues;
      otherwise straight on to the prompt, closed at once when the zone has
      no prompt either. */
  function PrologueScreen(hasPrologues: bool, hasPrompts: bool): (sc: int)
    ensures sc == ScreenPrologue <==> hasPrologues
    ensures sc == ScreenPrompt <==> !hasPrologues && hasPrompts
    ensures sc == ScreenNone <==> !hasPrologues && !hasPrompts
  {
    if hasPrologues then ScreenPrologue
    else if hasPrompts then ScreenPrompt
    else ScreenNone
  }

  /** A zone without prologues lands where SPACE on its prologue would
      have led. */
  lemma MissingPrologueSkipsAhead(hasPrompts: bool)
    ensures PrologueScreen(false, hasPrompts) == (if hasPrompts then SpaceStep(ScreenPrologue) else ScreenNone)
  {
  }
}
