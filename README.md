# Oromozi survival RPG: a verified model of the game rules

The game is a browser survival RPG. The player walks between zones (the
Village, the Outer Grasslands, the Shady Grove, the Arid Desert and
beyond) and meets narrative prompts whose outcome texts carry stat
directives such as `(-10 health) [type=fire]`, `(+Loot)` or
`(Travel to Shady Grove)`. The player keeps a stats record:

- health;
- the survival stats thirst, hunger and stamina;
- experience and level;
- the OROMOZI currency;
- the current zone.

The player also keeps an inventory ledger of `{name, quantity}` entries.
Beside the narrative there are:

- turn-based battles;
- real-time skirmishes with monsters and loot crates;
- a day/night clock with a camping prompt at 6 PM;
- Village economy screens: a liquidity pool, a merchant quarter, the
  Royal Market, a trading post, an invention lab, a crafting workshop
  and repair/salvage.

Two smaller scripts re-implement parts of this:

- `villageCommons.js`, a stand-alone Village scene with its own
  inventory, pool and market;
- `scavengerMode.js`, a three-zone mode with a minute clock.

This project models those game rules in Dafny and proves what they
promise. One module per concern:

- `Inventory`: the ledger.
- `Stats`: the stats record and the level check.
- `Catalog`: the loot table, loot draws and equipment resist.
- `OutcomeParser`: the directive and travel regular expressions.
- `Outcome`: applying directives and the survival tick.
- `Battle`: the turn-based battle.
- `Skirmish`: monsters, crates and spawn caps.
- `Camping`: camping materials and rest.
- `World`: zones, returns, death, the clock and the screen machine.
- `Economy`: the Village transactions.
- `Game`: the main scene as a class whose methods update its fields.
- `Village` and `Scavenger`: the two smaller scenes as classes.
- `Common` and `Text`: shared helpers (rolls, digits, case folding).

Randomness is passed in as roll parameters in [0, 1). `Date.now()` is
passed in as an integer time. Browser prompts are passed in as
already-parsed values, or as `Option` where the source rejects `NaN`.

The level check in `main.js` is a single `if`: one call grants at most
one level. A looping level-up would grant several. The model follows the
code (`Stats.CheckLevelUp`, `Stats.SingleStepCanLeaveSurplus`).

The Village's "Enter Scavenger Mode" handler restarts the Village scene
itself, not Scavenger Mode. That wipes deposits and listings and leaves
the player in the Village. The model follows the code
(`Village.VillageScene.EnterScavengerMode`), except that the restart keeps
a balance of zero (see Findings).

## Model

| member | source | states |
|---|---|---|
| Stats.CreateInitialStats | main.js:169-180 | A new record has full health, thirst, hunger and stamina, level 1 with no experience, the given zone and the carried-over currency |
| Stats.CheckLevelUp | main.js:418-444 | At or above the threshold level·100 the level rises by exactly one, the threshold is paid out of experience and health is restored to 100; below it nothing changes |
| Stats.CheckLevelUpKeepsLifetimeExperience | main.js:418-444 | A level check neither creates nor loses experience; it only moves it from the pool into levels |
| Stats.CheckLevelUpAtMostOneLevel | main.js:418-444 | One call grants at most one level, exactly when experience reaches level·100, and keeps every stat in range |
| Stats.SingleStepCanLeaveSurplus | main.js:418-444 | Because the check is one step, a level-1 player given 350 experience reaches level 2 with 250 left, though 200 would pay for level 3 |
| Stats.RaiseCapped | main.js:284-289 | The named stat gains the value, or stops at 100 when the gain would pass it, so it ends at most 100; the zone is kept |
| Stats.RaiseCappedFrame | main.js:284-289 | Raising one stat leaves every other numeric stat as it was |
| Stats.ApplyItemEffects | main.js:277-293 | The flag is set exactly when some effect names a numeric stat, and with none the stats are unchanged; non-negative effects keep valid stats valid |
| Stats.ApplyItemEffectsCaps | main.js:277-293 | After an item's effects every numeric stat they name is at most 100 and every stat they do not name is as it was |
| Inventory.IndexOf | main.js:529 | The result is the first position holding the name, or -1 exactly when no entry has it |
| Inventory.IndexOfIs | main.js:529 | The first-match property determines the index uniquely |
| Inventory.Add | villageCommons.js:189-196 | Adding a held name keeps the length and every entry's name, so it grows an entry in place; a new name is appended as one entry at the end |
| Inventory.Remove | main.js:528-537 | Removing an absent name leaves the ledger alone, and removing never lengthens it |
| Inventory.DeleteKeepsOrder | main.js:533-534 | Deleting an entry keeps the remaining entries in their relative order |
| Inventory.AddQuantities | main.js:513-520 | Adding raises exactly the named quantity by the amount; every other name keeps its quantity |
| Inventory.AddKeepsValid | main.js:513-520 | Adding a positive amount never creates a second entry for a name and keeps every quantity positive |
| Inventory.RemoveQuantities | main.js:528-537 | Removing lowers the named quantity by the amount, never below zero, and keeps every other name's quantity |
| Inventory.RemoveKeepsValid | main.js:528-537 | Removing keeps names unique and quantities positive |
| Inventory.RemoveUndoesAdd | main.js:513-537 | Removing what was just added restores the ledger exactly |
| Inventory.AddUndoesRemove | main.js:513-537 | Adding back what was just removed restores the ledger exactly when the removal did not delete the entry |
| Catalog.FindInItems | main.js:236-238 | The record found carries the requested name, and none is found only when no record has it |
| Catalog.FindInItemsFirst | main.js:236-238 | The record found is the first in the list with the name |
| Catalog.FindInZones | main.js:228-241 | A record found has the name and belongs to one of the zones; none is found exactly when no zone lists the name |
| Catalog.FindInZonesFirst | main.js:232-240 | The record found is the first record with the name in the first zone, in key order, whose list has it |
| Catalog.ItemData | main.js:228-241 | An empty name or a missing table finds nothing; otherwise a record is found exactly when some zone lists the name, and it has that name |
| Catalog.ItemDataFirst | main.js:228-241 | The record returned is the first with the name: from the first zone in key order that lists it, and first within that zone |
| Catalog.AllNames | main.js:243-251 | The names are exactly those some zone lists |
| Catalog.Dedup | main.js:248-249 | The result has no duplicates and holds exactly the input's names |
| Catalog.AllLootItems | main.js:243-251 | The catalog's names each appear exactly once; a missing table gives just "Stick" |
| Catalog.ZoneItems | main.js:253-258 | The zone's own item list when the table has that zone, nothing otherwise |
| Catalog.RareItems | main.js:264-269 | The rare items are exactly the zone's items marked rare |
| Catalog.RandomLoot | main.js:253-275 | A zone without items always gives a Stick; otherwise nothing drops exactly below the 15% roll, a drop is a Stick or one of the zone's items, and a top-5% roll at level 3 or more gives one of the zone's rare items when it has any |
| Catalog.AddResistFor | main.js:187-197 | Adding an item's resist entries raises each damage type's sum by the total that item declares for that type |
| Catalog.DeclaredResistSnoc | main.js:191-194 | One more resist entry adds its amount to its own type only |
| Catalog.EquippedResistIsTotal | main.js:187-197 | The rebuilt sums equal, type by type, the total declared by the equipped items |
| Catalog.EquipAddsResist | main.js:187-197 | Equipping one more item (duplicates allowed) raises each type's sum by exactly what that item declares |
| Catalog.TotalResistAppend | main.js:187-197 | The total over two lists of equipped items is the sum of their totals |
| Catalog.TotalResistSnoc | main.js:187-197 | One more equipped item adds its own declared resist |
| Catalog.EquipOrderIrrelevant | main.js:187-197 | The resist sums do not depend on the order in which items were equipped |
| Outcome.TypedLossBounds | main.js:324-336 | Typed damage always gets at least 30% through; a non-negative resist never makes it cost more than the damage; below the 70% cap the resist is simply subtracted, and at or above it exactly 30% is lost |
| Outcome.TypedLossExamples | main.js:324-336 | 20 fire damage against resist 10 costs 10 health; against resist 50 the 70% cap still costs 6 |
| Outcome.Clamp | main.js:358-359 | The result lies in 0..100 and equals the input whenever the input is already in range |
| Outcome.ApplyTokenEffect | main.js:320-383 | A stamina, thirst or hunger directive leaves its stat in 0..100; a health directive never drops health below 0; an experience directive runs the level check; unknown stats are ignored and nothing but the named stat changes |
| Outcome.ApplyTokensKeepsValid | main.js:320-383 | Applying directives in order keeps every stat in range and never touches the currency |
| Outcome.LowStatPenalty | main.js:397-404 | The penalty is 8 when some survival stat is at most 10, else 3 when some is at most 25, else 0: exactly one penalty applies |
| Outcome.SurvivalTickEffect | main.js:386-414 | Outside the Village thirst, hunger and stamina drop by 5 (not below 0) and then exactly one health penalty applies; in the Village nothing changes |
| Outcome.ResolveKeepsValid | main.js:295-414 | Resolving an outcome keeps every stat in range and leaves the currency alone |
| Outcome.VillageOutcomeWithoutDirectives | main.js:386-395 | In the Village an outcome with no directive changes nothing |
| Outcome.ExplorationExperience | main.js:453-454 | The exploration bonus is between 5 and 9 |
| OutcomeParser.RunEnd | main.js:304 | The run stops at the first character without the property, and every character before it has it |
| OutcomeParser.RunEndIs | main.js:304 | Where a run must stop determines its end |
| OutcomeParser.TypeSuffix | main.js:304 | The optional `[type=...]` group yields a lower-case word and moves the end forward; without it the end stays where it was |
| OutcomeParser.NumberAndStat | main.js:304 | A match after the sign ends beyond the digits and reads a word as the stat |
| OutcomeParser.MatchAt | main.js:304 | A match ends beyond the position it started at, and its stat and any damage type are lower-case words |
| OutcomeParser.TokenizeFrom | main.js:308-315 | Every directive the global scan collects names a lower-case word as its stat |
| OutcomeParser.TokenizeFromStep | main.js:308-315 | One step of the scan either appends the match found and jumps past it, or moves one character on |
| OutcomeParser.CollectDirectives | main.js:308-315 | The `exec` loop returns exactly the directives the global scan defines |
| OutcomeParser.ExecStep | main.js:308-315 | One `exec` call moves forward, and what it collected together with what the scan still finds after it is what the scan finds from where it started |
| OutcomeParser.RenderRoundTrip | main.js:304-315 | Reading back a directive written out as `(<sign><digits> <stat>)` with its optional type tag yields exactly that directive |
| OutcomeParser.MatchRendered | main.js:304 | The matcher at a written directive returns that directive and the position just after it |
| OutcomeParser.MatchLaidOut | main.js:304 | A text laid out as `(<sign><digits> <stat>)` followed by the directive's type tag is matched, in full, as that directive |
| OutcomeParser.DigitOnlyDirective | main.js:304-315 | A directive with no word after its number borrows its last digit as the stat ("(+10)" reads as +1 of stat "0"), and "(+5)" is no directive at all |
| OutcomeParser.TravelAt | main.js:481-482 | A travel request captures a non-empty zone text that holds no closing parenthesis |
| OutcomeParser.FindTravelFrom | main.js:481-482 | A request found is a travel request at some position from the start point, and none exists when the result is nothing |
| OutcomeParser.FindTravelFromLeftmost | main.js:481-482 | The request found is the leftmost one: no earlier position holds a travel request |
| OutcomeParser.TravelRequestFound | main.js:481-485 | A text that opens with a travel request yields its destination, however the words are capitalised and whatever follows |
| Battle.BaseBattleStatsMonotone | main.js:871-880 | A higher level never gives weaker base attack, defense or evasion |
| Battle.BattleStatsAreBasePlusBonus | main.js:871-894 | The derived attack, evasion and defense are the level's base plus the summed combat bonuses of everything equipped; health is unchanged or at most 100 |
| Battle.BattleHealthIsCappedHealing | main.js:889-891 | When no equipped item lowers health, the derived health is the player's health plus the summed healing capped at 100, or the player's health when nothing heals |
| Battle.EffectOfNonNegative | main.js:889 | An item whose effects are all non-negative has a non-negative health effect |
| Battle.CombatBonusAppend | main.js:879-887 | The combat bonuses of two equipped lists one after the other are the sums of each list's bonuses |
| Battle.HealBonusAppend | main.js:889-891 | The healing of two equipped lists one after the other is the sum of each list's healing |
| Battle.BattleStatsEquipOrderIrrelevant | main.js:879-893 | When no item lowers health, the derived battle stats are the same whichever of two equipped groups comes first |
| Game.EquippedHealsNonNegative | main.js:889-891 | With the catalog's non-negative effects, no equipped item lowers the derived health, so the battle stats do not depend on equip order |
| Battle.GenerateEnemy | main.js:902-910 | The enemy's level is within one of the player's and never below 1, its name is one of the five kinds, and it starts at full health 50+10L with attack 5+2L and defense 2+3L/2 |
| Battle.PlayerDamage | main.js:965-966 | The player's strike deals at least 1, and between attack minus enemy defense less 2 and that difference plus 2 (each floored at 1) |
| Battle.EnemyDamage | main.js:1010 | The enemy's strike deals its attack minus the player's defense, 5 less when defending, plus a draw from -2..1, and always at least 1 |
| Battle.TurnEffect | main.js:951-1032 | A turn advances the counter; a killed enemy ends the battle in victory; otherwise the enemy strikes unless dodged, and the defend flag clears only on a landed hit |
| Battle.TurnKeepsRanges | main.js:951-1032 | A turn keeps the enemy's level, and both health values stay non-negative and never rise |
| Battle.DefendingSoftensHit | main.js:973 | Defending lowers the enemy's next landed strike by 5 while it stays above the floor of 1 |
| Battle.FleeChanceUnclamped | main.js:991-992 | The flee chance is not clamped: two levels below the enemy it is 20%, five below it is at most 0, and seven above it is at least 1 |
| Battle.VictoryLeavesEnemyDead | main.js:962-1006 | A turn that ends in victory leaves the enemy at health 0 |
| Battle.StaleEnemyLosesAgain | main.js:962-1006 | Attacking an enemy already at health 0 is a victory again, with the enemy, the player's health and the defend flag unchanged |
| Battle.EndBattleEffect | main.js:1095-1131 | Victory pays 10+5L experience and 20+10L currency then levels up at most once; defeat takes min(currency, 50), keeping it non-negative, and leaves exactly 20 health; fleeing changes nothing |
| Skirmish.MonsterMaxHealthLinear | main.js:2601-2610 | Monster health grows by 16 per player level from 80 at level 1 |
| Skirmish.Monster.constructor | main.js:2601-2611 | A new monster has full health and the damage, speed, detection range and cooldown of the player's level, with a missing level read as 1 |
| Skirmish.Monster.TakeDamage | main.js:2712-2719 | The damage is subtracted and the monster dies exactly when its health is no longer positive |
| Skirmish.MonsterHit | main.js:2691-2697 | The monster's strike is never less than 1 and, against a non-negative defense, never more than its damage (or 1) |
| Skirmish.MonsterHitMonotone | main.js:2695-2697 | More defense never means a harder hit |
| Skirmish.CooldownFloor | main.js:2607 | The attack cooldown is never below 800 ms, and is exactly 800 ms from level 5 on |
| Skirmish.AttackPower | main.js:3290-3292 | The player's swing is 10 plus 2 per level above the first, plus a draw from -2..3 |
| Skirmish.KillExperience | main.js:2724 | A kill pays 10 to 14 experience |
| Skirmish.CrateHealthRange | main.js:2037-2039 | A crate's health range is non-empty and starts at 2 or more |
| Skirmish.CrateBreaksOnce | main.js:3507-3522 | A crate with health h breaks on exactly the h-th hit and never again, however often it is struck |
| Skirmish.Crate.constructor | main.js:2037-2039 | A new crate has a health in its level's range and is not breaking |
| Skirmish.Crate.Hit | main.js:3507-3522 | A breaking crate ignores hits; otherwise it loses one health and starts breaking, reporting the break, when none is left |
| Skirmish.SpawnRespectsCap | main.js:3601-3605 | Spawning at most one monster at a time never pushes the population past 3 + level/2, and nothing spawns by day or outside the Outer Grasslands |
| Skirmish.ExclamationCount | main.js:2132-2136 | A wave never has more than 6 exclamation marks, and never fewer than the base count (up to 6) |
| Skirmish.CrateCount | main.js:2066-2077 | A wave never has fewer crates than the base count for a player of level 1 or more |
| Camping.FindIgnoringCase | main.js:160-164 | The first entry whose lower-cased name is the key, or -1 exactly when none is |
| Camping.HasCampingMaterialsIff | main.js:160-164 | With materials spelt as the loot tables spell them, the check passes exactly when two Sticks and one Cloth are held |
| Camping.LowerCaseMaterialsAreNotConsumed | main.js:160-164 | A lower-case "stick" entry passes the check, yet the exact-name removal leaves it untouched |
| Camping.CampRest | main.js:3891-3894 | Resting keeps valid stats valid |
| Camping.CampRestEffect | main.js:3891-3894 | Resting raises health by up to 30, stamina by up to 50, hunger by up to 20 and thirst by up to 30, each capped at 100, and changes nothing else |
| Camping.UseMaterialsEffect | main.js:1880-1881 | Setting up camp takes exactly two Sticks and one Cloth and keeps the ledger valid |
| Camping.RefundRestoresQuantities | main.js:1982-1983 | Cancelling the set-up gives back every quantity the camp took |
| World.FindZoneIn | main.js:483-484 | A zone found is listed and its lower-cased name equals the key; none is found only when no zone matches |
| World.ZoneNamesDistinctIgnoringCase | main.js:110-115 | No two zones share a lower-cased name |
| World.FindZoneIff | main.js:481-486 | A requested name finds a zone exactly when, trimmed and lower-cased, it equals that zone's lower-cased name |
| World.TravelDestination | main.js:481-486 | A travel destination is always one of the listed zones |
| World.ZoneIndex | main.js:2411 | The zone's exact position in the list, or -1 exactly when it is not listed |
| World.ReturnOptionMatchesTarget | main.js:2406-2424 | The offered "Return to X" choice appears exactly when the return handler has a destination, and it names that destination |
| World.ReturnApproachesVillage | main.js:2555-2561 | Every return moves one zone closer to the Village, so at most three returns lead home; only the Village and unlisted zones have none |
| World.ReturnResetsProgress | main.js:2570-2578 | As written, a level-3 player returning from the Arid Desert arrives at level 1 with no experience |
| World.ReturnStats | main.js:2570-2578 | The corrected return restores the survival stats in the new zone and keeps currency, level and experience |
| World.DeathStats | main.js:3681-3685 | Death sends the player to the Village with full survival stats, keeping currency, level (at least 1) and experience |
| World.CampingPromptDoesNotHalt | main.js:3862-3866 | Every module screen from the liquidity pool to the battle stops movement, while the camping prompt, though numbered after the battle screen, does not |
| World.GameHour | main.js:3708 | The hour is always in 0..23 |
| World.WrapDay | main.js:3707 | The stored time lies within one day |
| World.WrapKeepsHour | main.js:3705-3709 | Storing the time modulo a day never changes the hour derived from it |
| World.CampingWindow | main.js:1868-1872 | Camping is offered from 6 PM until 6 AM and at no other hour, and no hour is both near nightfall and night |
| World.DisplayHour | main.js:3712 | The clock face shows 1..12, with 12 for noon and midnight |
| World.DisplayIdentifiesHour | main.js:3712-3713 | The face and the AM/PM marker together identify the hour uniquely |
| World.CampingPromptOnce | main.js:3805-3811 | The prompt opens only from an empty screen at 6 PM away from the Village and not twice in the same evening; its latch clears once the hour has passed |
| World.SpaceStep | main.js:3876-3881 | SPACE changes only the prologue, prompt and outcome screens |
| World.SpaceAdvances | main.js:3876-3881 | SPACE never moves the narrative back; two presses lead from the prologue to the choices and from the outcome to the item menu |
| World.FreeRoamIsEmptyScreen | main.js:3862-3935 | Of the screen codes, the frame update reaches the free-roam controls only from the empty screen |
| World.PrologueScreen | main.js:2355-2376 | The prologue opens when the zone has prologues; otherwise the prompt opens, and nothing stays open when the zone has no prompt either |
| World.MissingPrologueSkipsAhead | main.js:2355-2361 | A zone without prologues lands where SPACE on its prologue would have led |
| Economy.YieldProperties | main.js:766 | A full day pays exactly fifty per unit, no time pays nothing, and a positive deposit never earns less by waiting longer |
| Economy.WithdrawCreditGrows | main.js:847-851 | A withdrawal credits at least the deposited amount, and more the longer the deposit stayed |
| Economy.RemoveAt | main.js:851 | Only the element at the index leaves, and the others keep their order |
| Economy.DepositCreatesCurrency | main.js:777-778 | As written, one Wood deposited as a thousand units is withdrawn at once for a thousand currency |
| Economy.NegativeDepositAddsUnits | main.js:777-778 | As written, a negative deposit adds units to the inventory |
| Economy.CheckedDeposit | main.js:777-778 | The corrected deposit is accepted exactly when the amount is positive and at most the units held, and then does what the unchecked code does |
| Economy.DepositConservesValue | villageCommons.js:246-247 | With the check, a deposit withdrawn at once turns units into exactly as much currency and changes nothing else |
| Economy.PurchaseEffect | main.js:1407-1413 | A purchase succeeds exactly when the currency covers the price, then lowers it by the price and adds one unit; otherwise nothing changes |
| Economy.CataloguePricesPositive | main.js:1254-1258 | Every market and Royal Market price is positive |
| Economy.CancelUndoesList | main.js:1234-1236 | Listing one unit and cancelling that listing restores every quantity and the listings |
| Economy.AcceptTradeEffect | main.js:1518-1526 | Accepting a trade needs one unit of the requested item, gives it up for the offered units and removes only that trade; otherwise nothing changes |
| Economy.StrLessEqTotal | main.js:1617 | Any two names are ordered one way or the other |
| Economy.StrLessEqAntisymmetric | main.js:1617 | Two names ordered both ways are equal |
| Economy.StrLessEqTransitive | main.js:1617 | The name order is transitive |
| Economy.InsertSorted | main.js:1617 | Inserting into a sorted list keeps it sorted |
| Economy.SortStringsSpec | main.js:1617 | Sorting yields an ordered permutation of the selection |
| Economy.SortedUnique | main.js:1617-1619 | Two ordered lists with the same names, counted with multiplicity, are the same list |
| Economy.RecipeMatchIff | main.js:1615-1619 | A selection matches a recipe exactly when it holds the same names, counted with multiplicity, whatever their order |
| Economy.FindRecipe | main.js:1615-1619 | A result found belongs to a recipe the selection matches; none is found only when no recipe matches |
| Economy.FindRecipeOrderFree | main.js:1615-1619 | Selecting the same names in any order finds the same recipe |
| Economy.FindRecipeMeaning | main.js:1615-1619 | On a sorted selection the search finds a recipe with exactly the selected names or reports that none has them |
| Economy.RemoveEachQuantities | main.js:1627 | Taking one unit per selected name lowers each quantity by the number of times it was selected, never below zero, and keeps the ledger valid |
| Economy.InventEffect | main.js:1615-1634 | With every selected item held, each loses one unit whether or not a recipe matched and the result is added only on a match; with any missing, nothing changes |
| Economy.SortedHoldsIff | main.js:1617-1624 | Sorting the selection does not change whether every item is held |
| Economy.InventHeldEffect | main.js:1621-1634 | A held selection of distinct names loses one unit each and gains the matching recipe's result, if any |
| Economy.UsedQuantity | main.js:1627 | Using a held selection of distinct names takes exactly one unit of each |
| Economy.RecipeResultsNamed | main.js:1605-1613 | Every recipe names a result, so adding it is never skipped |
| Economy.WoodenArmorFromOneWood | main.js:1723 | As written, a single Wood passes the check for Wooden Armor (two Wood) and is crafted into it |
| Economy.CraftEffect | main.js:1722-1736 | The corrected craft succeeds exactly when every ingredient is held as often as listed, then consumes them and adds the result; a refused craft changes nothing |
| Economy.WoodenArmorNeedsTwoWood | main.js:1723 | The corrected check refuses Wooden Armor to a player with one Wood |
| Economy.RepairEffect | main.js:1763-1766 | A repair costs one Wood when the first Wood entry holds any, and otherwise changes nothing |
| Game.PushLog | main.js:547-558 | The message becomes the last entry and a log of at most five stays at most five |
| Game.LogKeepsLatestFive | main.js:547-558 | However many messages arrive, the log holds exactly the five most recent, oldest first |
| Game.AddLootEffect | main.js:462-463 | A drop adds exactly one unit of the drawn item and keeps the ledger valid; no drop changes nothing |
| Game.ExplorationRewardEffect | main.js:452-458 | Outside the Village exploration pays 5 to 9 experience and runs the level check; in the Village nothing changes |
| Game.NextStep | main.js:481-503 | An outcome restarts the scene in a zone exactly when it carries a travel request naming a listed zone |
| Game.ResolveEffect | main.js:446-478 | Resolving an outcome keeps stats, ledger and log valid, never touches the currency, and adds at most one unit of loot, only when the text carries the loot marker |
| Game.ResolveStatsEffect | main.js:446-458 | The directives and the exploration reward keep the stats valid and leave the currency alone |
| Game.EndBattleSpoilsEffect | main.js:1095-1117 | The end of a battle keeps stats and ledger valid; only a victory can add to the inventory, and then at most one unit |
| Game.HealingItems | main.js:1035-1038 | The battle item menu offers exactly the held entries whose catalog record heals, and no more entries than are held |
| Game.KillSpoilsEffect | main.js:2723-2738 | A kill keeps stats and ledger valid, earns 10 to 14 lifetime experience, raises the level at most once, leaves the currency alone and adds at most one unit of loot, none above the 40% roll |
| Game.StartingNamesDiffer | main.js:2811-2817 | The five starting items have five different names |
| Game.StartingInventoryValid | main.js:2811-2817 | A new game holds one each of Bread, Water, Iron Sword, Wooden Armor and Healing Medicine |
| Game.Scene.constructor | main.js:2805-2852 | A first start has the given zone and inventory (or the Village with the starting kit), full stats with 1000 currency, nothing equipped and an empty log; a handed-over prompt count is kept, and the model's floor at 0 stands in for `\|\| 0` because every caller passes a count of at least 0 |
| Game.Scene.Restart | main.js:2823-2840 | A restart moves the stats to the new zone, takes the inventory and prompt count handed over, and clears the log, screen and camping latch |
| Game.Scene.MoveTo | main.js:2823-2825 | The scene's zone and the stats' zone both become the new zone |
| Game.Scene.ResetSession | main.js:2826-2840 | The handed-over inventory and prompt count replace the old ones, with an empty log |
| Game.Scene.ClearLog | main.js:2838-2840 | The log is empty, no screen is open and the camping latch is down |
| Game.Scene.AddToInventory | main.js:513-520 | A nameless item is ignored; otherwise exactly the named quantity grows and the ledger stays valid |
| Game.Scene.RemoveFromInventory | main.js:528-537 | Exactly the named quantity shrinks, never below zero, and the ledger stays valid |
| Game.Scene.AddToLog | main.js:547-558 | The log gains the message and keeps at most its five latest entries |
| Game.Scene.RecalcEquippedResist | main.js:187-197 | The rebuilt sums are exactly the per-type resist of the equipped items |
| Game.Scene.EndFlow | main.js:2341-2349 | The narrative closes and one more prompt is counted |
| Game.Scene.EquipItem | main.js:2538-2552 | The item is appended to the equipped list and each damage type's resist grows by what it declares |
| Game.Scene.ApplyItemEffects | main.js:277-293 | An item's effects raise its named numeric stats, each capped at 100, in entry order |
| Game.Scene.UseItem | main.js:2521-2536 | An item with a usable effect is applied and one unit is spent; any other item changes neither stats nor inventory |
| Game.Scene.ApplySurvivalTickAndOutcome | main.js:295-414 | The outcome's directives are applied in order with the equipped resist, then the survival tick |
| Game.Scene.ApplyDirectives | main.js:320-383 | The collected directives are applied one after the other |
| Game.Scene.RewardExploration | main.js:452-458 | Outside the Village exploration experience is paid and its note returned |
| Game.Scene.SearchForLoot | main.js:460-478 | A drawn item is added and logged; an empty search is logged |
| Game.Scene.ResolveOutcome | main.js:446-478 | The stats, ledger, log and text are exactly the resolution of the outcome |
| Game.Scene.ApplyOutcome | main.js:446-503 | The outcome is resolved, then a travel request restarts the scene in that zone and anything else leaves the zone as it was |
| Game.Scene.FollowText | main.js:481-503 | A travel request moves the scene and clears the log; otherwise nothing changes |
| Game.Scene.EnterBattle | main.js:896-914 | The battle screen opens against a fresh enemy for the player's level, with counter and battle log reset |
| Game.Scene.EndBattle | main.js:1092-1131 | Stats and inventory end as the battle's spoils say |
| Game.Scene.RewardVictory | main.js:1098-1105 | A victory's experience and currency are paid, then the level check |
| Game.Scene.PenalizeDefeat | main.js:1119-1125 | A defeat costs up to 50 currency and sets health to 20 |
| Game.Scene.PlayTurn | main.js:951-1032 | The battle fields advance by exactly one turn and only health changes among the stats |
| Game.Scene.SetBattleFields | main.js:951-1032 | The battle fields become the given battle state |
| Game.Scene.PerformBattleAction | main.js:951-1032 | With no enemy nothing happens; otherwise one turn is played, and a turn that ends the battle settles it |
| Game.Scene.OpenBattleItemMenu | main.js:1034-1049 | The menu offers the healing items, and with none the battle log says so |
| Game.Scene.UseBattleItem | main.js:1057-1061 | The item's effects are applied, one unit is spent and the battle log records it |
| Game.Scene.DismissBattleAsWritten | main.js:1137-1147 | The SPACE that closes a battle's result first runs the battle's still-registered attack: with no enemy nothing else changes; against any recorded enemy it is exactly one `Battle.Turn` with the Attack action, settled by `EndBattleSpoils` when it ends the battle; against the enemy of a won battle it is a victory again, paid out again; the screen then closes |
| Game.Scene.DismissBattle | main.js:1142-1147 | As intended (see Findings): SPACE after a battle closes the battle screen and changes no stat, item or enemy |
| Game.Scene.ConfirmDeposit | main.js:776-784 | A deposit is accepted exactly when the corrected check allows it, then the units leave and one deposit is recorded; a refused one changes nothing |
| Game.Scene.Withdraw | main.js:846-851 | The deposit's amount and yield are credited and only that deposit leaves the list; unlike `Village.VillageScene.Withdraw` it asks that the deposit did not start after `now`, which a clock that never runs back always meets (the source has no such guard) |
| Game.Scene.ListItem | main.js:1233-1236 | One listing of one unit is appended and one unit leaves the inventory |
| Game.Scene.Buy | main.js:1262-1269 | A purchase is paid only when the currency covers the price; nothing but the currency and the inventory changes |
| Game.Scene.MarketBuy | main.js:1262-1269 | Buying a marketplace item behaves as a purchase at its listed price |
| Game.Scene.RoyalBuy | main.js:1406-1413 | Buying a Royal Market item behaves as a purchase at its listed price |
| Game.Scene.CancelListing | main.js:1321-1323 | The listing's units come back and only that listing leaves the list |
| Game.Scene.EditListingPrice | main.js:1355 | Only the chosen listing's price changes |
| Game.Scene.PostTrade | main.js:1490-1492 | One trade offer is appended and one unit of the offered item leaves the inventory |
| Game.Scene.AcceptTrade | main.js:1518-1526 | A trade is accepted exactly when a unit of the requested item is held; it is then exchanged and only that trade is removed |
| Game.Scene.DropTrade | main.js:1518-1526 | Only the chosen trade leaves the board; the others keep their order |
| Game.Scene.RemoveEach | main.js:1627 | One unit of each selected name is taken, in order |
| Game.Scene.HoldsEach | main.js:1621-1624 | The answer is whether every selected name's first entry holds a unit |
| Game.Scene.Invent | main.js:1604-1637 | The inventory and outcome are exactly the invention's effect for the lab's secret recipes |
| Game.Scene.Craft | main.js:1722-1736 | The inventory and outcome are exactly the corrected craft's |
| Game.Scene.Repair | main.js:1763-1766 | A repair spends one Wood when any is held |
| Game.Scene.Salvage | main.js:1795-1797 | One unit of the salvaged item is spent and the zone's loot draw, if any, is added |
| Game.Scene.CampAtPrompt | main.js:3882-3916 | With the materials the player rests and spends two Sticks and a Cloth; without them nothing changes; the prompt closes |
| Game.Scene.Rest | main.js:3891-3894 | The stats become the rested stats |
| Game.Scene.UseCampingMaterials | main.js:3897-3898 | Two Sticks and a Cloth are taken out |
| Game.Scene.SetUpCamp | main.js:1865-1881 | Near nightfall or at night, with the materials, the camp starts and the materials are spent; otherwise the inventory is unchanged |
| Game.Scene.CancelCampSetup | main.js:1982-1983 | ESC during the set-up gives the materials back |
| Game.Scene.HandlePlayerDeath | main.js:3678-3690 | Death moves the player to the Village with healed stats that keep progress, an empty inventory, and a reset prompt count and log |
| Game.Scene.HandleReturn | main.js:2554-2584 | With a destination the player moves there keeping currency, level and experience, with the prompt count reset; without one nothing changes |
| Game.Scene.MonsterAttack | main.js:2691-2697 | A living player loses the monster's hit against the derived defense, never going below 0 |
| Game.Scene.MonsterTakeDamage | main.js:2712-2738 | The monster takes the damage, and a kill is rewarded as the kill spoils say; otherwise nothing changes |
| Game.Scene.RewardKill | main.js:2723-2738 | Stats and inventory end as the kill spoils say |
| Game.Scene.HitCrate | main.js:3507-3535 | The crate takes one hit; the hit that breaks it adds and logs the zone's loot draw, and any other hit leaves inventory and log alone |
| Game.Scene.UpdateClock | main.js:3705-3711 | The time advances by the frame and wraps at a day without changing the hour, and the camping prompt steps as the hour says |
| Game.Scene.PressInventoryKey | main.js:3845-3848 | The I key opens the item menu only from an empty screen |
| Game.Scene.PressSpace | main.js:3875-3881 | SPACE steps the narrative; a zone without prompts closes it at once |
| Game.Scene.Interact | main.js:4009-4019 | Only in free roam, interacting over an exclamation mark opens the zone's prologue, or its prompt when it has no prologue, or leaves nothing open when it has neither; on any other screen, or with nothing overlapped, the screen stays |
| Game.Scene.ShowOutcome | main.js:2439-2457 | The outcome is applied and its screen shown, unless a travel request restarted the scene: inventory is the resolved one; on travel the stats are the resolved ones moved to the new zone, the log is empty and the camping latch is down; otherwise stats and log are the resolved ones and zone and latch are unchanged; the prompt count is not touched |
| Village.BasicInitialStats | villageCommons.js:50-59 | Full survival stats, the carried currency and the given zone |
| Village.BrokePlayerGetsThousand | villageCommons.js:480 | As written, a player with zero currency is given 1000 when the scene is created again |
| Village.InitialOromozi | villageCommons.js:480 | The corrected default keeps any balance, zero included, and gives 1000 only to a player with no stats yet; it differs from the code exactly at zero |
| Village.DefaultInventoryValid | villageCommons.js:481-484 | The default inventory holds one Bread and one Iron Sword |
| Village.VillageMovementGateAgrees | villageCommons.js:542-547 | The Village stops movement on the same screens as the main scene up to the battle screen, and on every screen above it |
| Village.DepositQuote | villageCommons.js:229-237 | An estimate is shown exactly when both entries parse as numbers |
| Village.DepositQuoteMatchesPayout | villageCommons.js:236 | The estimate is exactly the yield paid by a withdrawal at the end of the lock-up |
| Village.InteractionScreen | villageCommons.js:448-455 | The bank and the merchant quarter, named in any case, open their screens and stop movement; other names open nothing |
| Village.VillageScene.constructor | villageCommons.js:478-486 | The scene starts with Village stats and the corrected carried balance, the given or default inventory, no deposits and no listings |
| Village.VillageScene.AddToInventory | villageCommons.js:189-196 | Exactly the named quantity grows and names stay unique |
| Village.VillageScene.RemoveFromInventory | villageCommons.js:198-206 | Exactly the named quantity shrinks, never below zero, and the entry goes once empty |
| Village.VillageScene.ConfirmDeposit | villageCommons.js:244-252 | A deposit is accepted exactly when the corrected check allows it and then records one deposit; a refused one changes nothing |
| Village.VillageScene.Withdraw | villageCommons.js:293-300 | The deposit's amount and yield are credited and only it leaves the list |
| Village.VillageScene.ListItem | villageCommons.js:356-357 | One listing of one unit is appended and one unit leaves the inventory |
| Village.VillageScene.Buy | villageCommons.js:376-382 | A purchase is paid only when the currency covers the price; nothing else in the stats changes |
| Village.VillageScene.CancelListing | villageCommons.js:411-412 | The listing's units come back and only that listing leaves |
| Village.VillageScene.EditPrice | villageCommons.js:435 | Only the chosen listing's price changes |
| Village.VillageScene.Interact | villageCommons.js:448-467 | The screen the object opens, or the old screen for an unknown object |
| Village.VillageScene.Back | villageCommons.js:318-323 | Back closes the screen and lets the player move again |
| Village.VillageScene.EnterScavengerMode | villageCommons.js:456-462 | The Village scene restarts rather than Scavenger Mode starting: full stats with the balance kept (zero included, by the corrected default), the same inventory, and no deposits or listings |
| Scavenger.ScavengerZoneIndex | scavengerMode.js:178 | The zone's position in the cycle, or -1 exactly when it is not one of the three |
| Scavenger.NextZone | scavengerMode.js:178-180 | The next zone is always one of the three |
| Scavenger.NextZoneCycles | scavengerMode.js:178-180 | Z steps through the three zones in order and comes back after three presses; an unknown zone goes to the first |
| Scavenger.TotalMinutes | scavengerMode.js:43 | One game minute per elapsed second of game time |
| Scavenger.ClockHours | scavengerMode.js:44 | The hour is always in 0..23 |
| Scavenger.ClockMinutes | scavengerMode.js:45 | The minute is always in 0..59 |
| Scavenger.MinuteText | scavengerMode.js:49 | The minute is always written as two digits that read back as the minute |
| Scavenger.Period | scavengerMode.js:46 | "PM" exactly from noon on |
| Scavenger.ClockTextIdentifiesTime | scavengerMode.js:43-49 | Two times show the same clock text exactly when they fall on the same minute of the day |
| Scavenger.ClockDaily | scavengerMode.js:43-49 | The clock repeats every game day of 1440 minutes |
| Scavenger.ReturnToVillage | scavengerMode.js:187-200 | The Village gets full stats with the balance kept, and the same inventory |
| Scavenger.ScavengerScene.constructor | scavengerMode.js:87-90 | The scene takes the zone, stats and inventory handed over, or the first zone, fresh stats with 1000 and a single Bread |
| Scavenger.ScavengerScene.Update | scavengerMode.js:161-165 | The clock advances by each frame's delta and never wraps, so the minute count never goes back |
| Scavenger.ScavengerScene.SwitchZone | scavengerMode.js:176-186 | Z moves the stats to the next zone of the cycle and nothing else in them changes |

## Left out

- Rendering is left out because it is presentation over an engine library: sprites, tweens, camera effects, floating text, dialogs, menus, the HUD drawing, the mini-map and `preload`.
- Keyboard listener wiring and the `await` on keys and delays are left out. Each confirmation is modelled as a separate method call.
- Menu navigation is left out, as are the browser `prompt`/`alert` calls. A prompt's value is a parameter; `NaN` is `None` where the source rejects it.
- The debug keys T and Z in the main scene (main.js:3826-3842) only shift the clock or jump zones for testing, so they are left out.
- Geometry and physics are left out: obstacle overlap, spawn placement loops, monster pursuit, the attack cone test and distances. Whether an object is hit or overlapped is a parameter.
- Randomness (`Math.random`, `Phaser.Math.Between`) is left out. Each draw is a roll parameter in [0, 1), mapped to the source's range.
- `Date.now()` is left out; it is an integer millisecond parameter.
- JavaScript floating point is left out. Health and clock times are exact reals, and floors are written explicitly.
- Battle.BaseBattleStats computes the defense exactly as `3 + (7*(L-1))/10`; the source's `Math.floor((L-1)*0.7)` on doubles gives one less at some levels, the first being level 91 (65 where the model gives 66), 34 levels up to 2000.
- Game.Scene.Withdraw asks that the deposit did not start after `now`; the source has no guard, so a wall clock that runs back gives a negative yield there, which can leave the oromozi negative and is not modelled.
- The shared registry `gameTime` is left out as a registry; it is a field of each scene.
- The loot table comes from an external JSON file that is not part of this model. The model assumes its stat effects are non-negative (`Game.EffectsNonNegative`).
- The battle item menu's callback wiring is left out. A chosen item is applied by `Game.Scene.UseBattleItem`.
- The repair alert's index is display text only, so it is left out.
- campingScene.js is not part of this model. Its only logic is a sprite toggle and a timer-driven counter.
- FishingScene is not part of this model. A fishing transition is recorded as `Game.Fishing`.
- `scene.restart` and `scene.start` are left out as engine calls. Only the state they carry over is modelled.
- Game.Scene.CampAtPrompt: without materials the model closes the prompt at once. The source shows a notice and closes the prompt on the SPACE that dismisses it (main.js:3911-3915).
- Game.Scene.ListItem: the model uses the entry at the index for both the listing's name and the unit removed. The source reads `localInventory[index].name` for one and `item.name` for the other, which are the same entry when the menu is current.
- Game.Scene.ConfirmDeposit and Village.VillageScene.ConfirmDeposit run the corrected deposit check, not the unchecked code (see Findings).
- Game.Scene.HandleReturn uses the corrected `World.ReturnStats`, not the code's reset (see Findings).
- Game.Scene.Craft uses the corrected multiplicity check (see Findings).
- Village.VillageScene.constructor uses the corrected `Village.InitialOromozi` (see Findings).
- Village.VillageScene.EnterScavengerMode also uses the corrected `Village.InitialOromozi`: a balance of 0 stays 0, where the restart as written hands back 1000 (see Findings).
- Game.Scene.DismissBattle closes the result screen only. The source's stale SPACE attack listener is modelled for the dismissing press (`Game.Scene.DismissBattleAsWritten`, see Findings). Its replays on every later SPACE until the next battle or the battle item menu are left out.
- Text handling is ASCII only. `Text.IsSpace`, `Text.TrimStart`, `Text.TrimEnd`, `Text.Lower` and `Text.LowerStr` know only ASCII white space and letters, where JavaScript's `\s`, `trim()` and `toLowerCase()` are Unicode-aware. So `OutcomeParser.MatchAt` does not take a directive such as "(+5" + U+00A0 + "health)", and `World.FindZoneIn` does not accept a travel target padded with a non-breaking space, though the source accepts both. Unicode tables are outside this model.

## Findings

| source | as written | input that shows it | evidently intended | confidence | as-written member | corrected member |
|---|---|---|---|---|---|---|
| main.js:2569-2578 | `handleReturn` builds fresh stats with level 1 and experience 0, then copies the new record's level and experience onto itself, so the "preserve" step keeps nothing | a level-3 player with 50 experience returning from the Arid Desert | level and experience are kept, as the comment says | high (not executed) | World.ReturnResetsProgress | World.ReturnStats |
| main.js:1723 | the crafting check asks for at least one of each listed ingredient, ignoring how often it is listed | Wooden Armor (Wood, Wood) with one Wood held: the craft succeeds and the second removal finds nothing | each ingredient held as many times as listed | high (not executed) | Economy.WoodenArmorFromOneWood | Economy.CraftEffect |
| main.js:777-778 | the deposit removes `amount` units of the resource without checking that the amount is positive or held | one Wood deposited as 1000 units, withdrawn at once for 1000 currency; a negative amount adds units | accept only a positive amount no larger than the units held | high (not executed) | Economy.DepositCreatesCurrency | Economy.DepositConservesValue |
| villageCommons.js:480 | `this.playerStats?.oromozi \|\| 1000` treats a balance of 0 as missing | a player who spent everything gets 1000 when the scene is created again | 1000 only for a player with no stats yet | medium (not executed) | Village.BrokePlayerGetsThousand | Village.InitialOromozi |
| main.js:920 | `enterBattleMode` registers a SPACE listener that attacks; `endBattle` removes the number keys but not it and never clears `battleEnemy`, so the SPACE that closes the result also attacks the stale enemy | win a battle against a level-2 enemy, then press SPACE to close the result: another 20 experience and 40 oromozi are paid, with another loot chance | SPACE only closes the result screen | high (not executed) | Game.Scene.DismissBattleAsWritten | Game.Scene.DismissBattle |
