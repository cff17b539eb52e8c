/** Scavenger Mode (scavengerMode.js): three zones cycled with the Z key,
    a clock that runs in game minutes, and the way back to the Village. */
module Scavenger {
  import opened Common
  import opened Text
  import opened Inventory
  import World
  import Village

  /** The zones Scavenger Mode cycles through, in order. */
  const ScavengerZones: seq<string> := ["Outer Grasslands", "Shady Grove", "Arid Desert"]

  /** `SCAVENGER_ZONES.findIndex` by exact name, -1 when the zone is not
      one of them. */
  function ScavengerZoneIndex(name: string): (r: int)
    ensures -1 <= r < |ScavengerZones|
    ensures r >= 0 <==> name in ScavengerZones
    ensures r >= 0 ==> ScavengerZones[r] == name
  {
    if name == ScavengerZones[0] then 0
    else if name == ScavengerZones[1] then 1
    else if name == ScavengerZones[2] then 2
    else -1
  }

  /** The zone the Z key moves to: the next one in the cycle, and the first
      one from any zone outside it. */
  function NextZone(current: string): (z: string)
    ensures z in ScavengerZones
  {
    ScavengerZones[(ScavengerZoneIndex(current) + 1) % |ScavengerZones|]
  }

  /** Z steps through the three zones in order and comes back after three
      presses; from a zone outside the cycle it starts at the first. */
  lemma NextZoneCycles(z: string)
    ensures z !in ScavengerZones ==> NextZone(z) == ScavengerZones[0]
    ensures z in ScavengerZones ==> NextZone(z) != z && NextZone(NextZone(NextZone(z))) == z
    ensures NextZone(ScavengerZones[0]) == ScavengerZones[1]
    ensures NextZone(ScavengerZones[1]) == ScavengerZones[2]
    ensures NextZone(ScavengerZones[2]) == ScavengerZones[0]
  {
  }

  /** Game minutes on the clock: one per second of `gameTime`, which counts
      milliseconds. */
  function TotalMinutes(t: real): (n: nat)
    requires t >= 0.0
    ensures n as real <= t / 1000.0 < n as real + 1.0
  {
    (t / 1000.0).Floor
  }

  /** The hour of the day, 0..23. */
  function ClockHours(t: real): (h: int)
    requires t >= 0.0
    ensures 0 <= h < 24
  {
    (TotalMinutes(t) / 60) % 24
  }

  /** The minute of the hour, 0..59. */
  function ClockMinutes(t: real): (m: int)
    requires t >= 0.0
    ensures 0 <= m < 60
  {
    TotalMinutes(t) % 60
  }

  /** Minutes written with two digits, a leading zero below ten. */
  function MinuteText(m: nat): (s: string)
    requires m < 60
    ensures |s| == 2 && AllDigits(s)
    ensures DigitsValue(s) == m
  {
    NatToStringRoundTrip(m);
    if m < 10 then
      assert DigitsValue("0" + NatToString(m)) == DigitsValue(NatToString(m)) by {
        var s := "0" + NatToString(m);
        assert s[..|s| - 1] == "0";
      }
      "0" + NatToString(m)
    else NatToString(m)
  }

  /** "AM" before noon, "PM" from noon on. */
  function Period(h: int): (p: string)
    ensures |p| == 2
    ensures p == "AM" <==> World.IsAM(h)
  {
    if h >= 12 then "PM" else "AM"
  }

  /** The HUD's clock: hour on the 12-hour dial, two-digit minutes and the
      period, as in "7:05 PM". */
  function ClockText(t: real): string
    requires t >= 0.0
  {
    var h := ClockHours(t);
    NatToString(World.DisplayHour(h)) + ":" + MinuteText(ClockMinutes(t)) + " " + Period(h)
  }

  /** The clock reads the same exactly when the two times are the same
      minute of the day: it neither loses nor invents information within a
      day. */
  lemma ClockTextIdentifiesTime(t1: real, t2: real)
    requires t1 >= 0.0 && t2 >= 0.0
    ensures ClockText(t1) == ClockText(t2) <==> TotalMinutes(t1) % 1440 == TotalMinutes(t2) % 1440
  {
    ClockTextIffHourAndMinute(t1, t2);
    MinuteOfDay(TotalMinutes(t1));
    MinuteOfDay(TotalMinutes(t2));
  }

  /** Equal clock texts mean the same hour and minute, and back. */
  lemma ClockTextIffHourAndMinute(t1: real, t2: real)
    requires t1 >= 0.0 && t2 >= 0.0
    ensures ClockText(t1) == ClockText(t2) <==> ClockHours(t1) == ClockHours(t2) && ClockMinutes(t1) == ClockMinutes(t2)
  {
    if ClockText(t1) == ClockText(t2) {
      ClockTextParts(t1, t2);
      World.DisplayIdentifiesHour(ClockHours(t1));
      World.DisplayIdentifiesHour(ClockHours(t2));
    }
  }

  /** A minute count splits into the hour and minute the clock shows. */
  lemma MinuteOfDay(n: nat)
    ensures n % 1440 == ((n / 60) % 24) * 60 + n % 60
  {
    var q := n / 1440;
    var r := n % 1440;
    assert n == q * 1440 + r;
    assert n / 60 == q * 24 + r / 60 by {
      assert n == (q * 24 + r / 60) * 60 + r % 60;
    }
    assert n % 60 == r % 60 by {
      assert n == (q * 24 + r / 60) * 60 + r % 60;
    }
    assert (n / 60) % 24 == r / 60 by {
      assert r / 60 < 24;
    }
  }

  /** Equal clock texts have equal dial hours, minutes and periods. */
  lemma ClockTextParts(t1: real, t2: real)
    requires t1 >= 0.0 && t2 >= 0.0
    requires ClockText(t1) == ClockText(t2)
    ensures World.DisplayHour(ClockHours(t1)) == World.DisplayHour(ClockHours(t2))
    ensures ClockMinutes(t1) == ClockMinutes(t2)
    ensures World.IsAM(ClockHours(t1)) == World.IsAM(ClockHours(t2))
  {
    var d1, d2 := World.DisplayHour(ClockHours(t1)), World.DisplayHour(ClockHours(t2));
    var m1, m2 := MinuteText(ClockMinutes(t1)), MinuteText(ClockMinutes(t2));
    SplitClock(NatToString(d1), m1, Period(ClockHours(t1)), NatToString(d2), m2, Period(ClockHours(t2)));
    NatToStringRoundTrip(d1);
    NatToStringRoundTrip(d2);
  }

  /** A clock text splits back into its hour numeral, its two minute
      digits and its period. */
  lemma SplitClock(h1: string, m1: string, p1: string, h2: string, m2: string, p2: string)
    requires AllDigits(h1) && AllDigits(h2) && |m1| == 2 && |m2| == 2
    requires h1 + ":" + m1 + " " + p1 == h2 + ":" + m2 + " " + p2
    ensures h1 == h2 && m1 == m2 && p1 == p2
  {
    var r1 := ":" + m1 + " " + p1;
    var r2 := ":" + m2 + " " + p2;
    assert h1 + ":" + m1 + " " + p1 == h1 + r1;
    assert h2 + ":" + m2 + " " + p2 == h2 + r2;
    DigitsPrefix(h1, r1, h2, r2);
    assert m1 == r1[1..3] && m2 == r2[1..3];
    assert p1 == r1[4..] && p2 == r2[4..];
  }

  /** Two numerals each followed by a colon split a text the same way. */
  lemma {:induction false} DigitsPrefix(a: string, x: string, b: string, y: string)
    requires AllDigits(a) && AllDigits(b)
    requires |x| > 0 && |y| > 0 && x[0] == ':' && y[0] == ':'
    requires a + x == b + y
    ensures a == b && x == y
  {
    var k := Min(|a|, |b|);
    var c := (a + x)[k];
    assert c == (b + y)[k];
    assert (k < |a| ==> IsDigit(c)) && (k == |a| ==> c == ':');
    assert (k < |b| ==> IsDigit(c)) && (k == |b| ==> c == ':');
    assert a == (a + x)[..|a|] && b == (b + y)[..|b|];
    assert x == (a + x)[|a|..] && y == (b + y)[|b|..];
  }

  /** The clock repeats every game day of 1440 minutes (1 440 000 ms). */
  lemma ClockDaily(t: real)
    requires t >= 0.0
    ensures ClockText(t + 1440000.0) == ClockText(t)
  {
    var n := TotalMinutes(t);
    assert TotalMinutes(t + 1440000.0) == n + 1440 by {
      assert (t + 1440000.0) / 1000.0 == t / 1000.0 + 1440.0;
    }
    assert (n + 1440) / 60 == n / 60 + 24;
    assert (n + 1440) % 60 == n % 60;
    assert ClockHours(t + 1440000.0) == ClockHours(t) && ClockMinutes(t + 1440000.0) == ClockMinutes(t);
  }

  /** The data handed back to the Village: full stats in the Village with
      the balance kept, and the same inventory. */
  function ReturnToVillage(s: Village.BasicStats, inv: seq<Entry>): (r: (Village.BasicStats, seq<Entry>))
    ensures r.0.currentZone == "Village" && r.0.oromozi == s.oromozi && r.1 == inv
    ensures r.0.health == 100 && r.0.thirst == 100 && r.0.hunger == 100 && r.0.stamina == 100
  {
    (Village.BasicInitialStats("Village", s.oromozi), inv)
  }

  /** The Scavenger Mode scene. */
  class ScavengerScene {
    var zone: string
    var stats: Village.BasicStats
    var inventory: seq<Entry>
    var gameTime: real

    /** The scene's invariant: a valid ledger and a clock that has not run
        backwards past its start. */
    predicate Valid()
      reads this
    {
      Inventory.Valid(inventory) && gameTime >= 0.0
    }

    /** `createScavengerMode`: the zone, stats and inventory handed over,
        each defaulting (the first zone, fresh stats with a thousand
        oromozi, a single Bread); the shared clock starts at zero when unset. */
    constructor(dataZone: Option<string>, dataStats: Option<Village.BasicStats>, dataInventory: Option<seq<Entry>>, clock: Option<real>)
      requires dataInventory.None? || Inventory.Valid(dataInventory.value)
      requires clock.None? || clock.value >= 0.0
      ensures Valid()
      ensures zone == (if dataZone.Some? then dataZone.value else ScavengerZones[0])
      ensures stats == (if dataStats.Some? then dataStats.value else Village.BasicInitialStats(zone, 1000))
      ensures inventory == (if dataInventory.Some? then dataInventory.value else [Entry("Bread", 1)])
      ensures gameTime == (if clock.Some? then clock.value else 0.0)
    {
      zone := if dataZone.Some? then dataZone.value else ScavengerZones[0];
      stats := if dataStats.Some? then dataStats.value else Village.BasicInitialStats(if dataZone.Some? then dataZone.value else ScavengerZones[0], 1000);
      inventory := if dataInventory.Some? then dataInventory.value else [Entry("Bread", 1)];
      gameTime := if clock.Some? then clock.value else 0.0;
    }

    /** One frame: the clock advances by the frame's milliseconds and is
        never wrapped. */
    method Update(delta: real)
      requires Valid() && delta >= 0.0
      modifies this`gameTime
      ensures Valid()
      ensures gameTime == old(gameTime) + delta
      ensures TotalMinutes(old(gameTime)) <= TotalMinutes(gameTime)
    {
      gameTime := gameTime + delta;
    }

    /** The Z key: the stats move to the next zone and the scene restarts
        there with the same stats and inventory. */
    method SwitchZone()
      requires Valid()
      modifies this`zone, this`stats
      ensures Valid()
      ensures stats == old(stats).(currentZone := NextZone(old(stats).currentZone))
      ensures zone == stats.currentZone && zone in ScavengerZones
    {
      var i := ScavengerZoneIndex(stats.currentZone);
      var next := (i + 1) % |ScavengerZones|;
      stats := stats.(currentZone := ScavengerZones[next]);
      zone := ScavengerZones[next];
    }
  }
}
