/**
 * The live classification: a fixed roster of seven drivers whose lap times and
 * gaps are redrawn every two seconds while the race runs, and the gap
 * formatter shown beside each lap time.
 */
module Leaderboard {
  import opened JsFormat

  /** One row of the classification. */
  datatype Driver = Driver(position: int, name: string, team: string, lapTime: real, gap: real, isPlayer: bool)

  /** The classification as it first appears: no lap times, no gaps, the player leading. */
  const InitialRoster: seq<Driver> := [
    Driver(1, "VERSTAPPEN", "Red Bull", 0.0, 0.0, true),
    Driver(2, "HAMILTON", "Ferrari", 0.0, 0.0, false),
    Driver(3, "NORRIS", "McLaren", 0.0, 0.0, false),
    Driver(4, "LECLERC", "Ferrari", 0.0, 0.0, false),
    Driver(5, "RUSSELL", "Mercedes", 0.0, 0.0, false),
    Driver(6, "PIASTRI", "McLaren", 0.0, 0.0, false),
    Driver(7, "HULKENBERG", "Sauber", 0.0, 0.0, false)
  ]

  /** Seven drivers in positions 1 to 7, the player first and only there, nobody timed yet. */
  lemma InitialRosterShape()
    ensures |InitialRoster| == 7
    ensures forall i :: 0 <= i < 7 ==> InitialRoster[i].position == i + 1
    ensures forall i :: 0 <= i < 7 ==> (InitialRoster[i].isPlayer <==> i == 0)
    ensures forall i :: 0 <= i < 7 ==> InitialRoster[i].lapTime == 0.0 && InitialRoster[i].gap == 0.0
  {
  }

  /** A draw of `Math.random()`. */
  predicate IsDraw(r: real) { 0.0 <= r < 1.0 }

  /**
   * A driver's new lap time: the old one, or a fresh time in [80, 100) when the
   * old one is 0 (unset), plus a variation in [-0.25, 0.25).
   */
  function NewLapTime(lapTime: real, seedDraw: real, variationDraw: real): (t: real)
    requires IsDraw(seedDraw) && IsDraw(variationDraw)
    ensures lapTime == 0.0 ==> 79.75 <= t < 100.25
    ensures lapTime != 0.0 ==> lapTime - 0.25 <= t < lapTime + 0.25
    ensures t - (if lapTime != 0.0 then lapTime else 80.0 + seedDraw * 20.0) == (variationDraw - 0.5) * 0.5
  {
    var base := if lapTime != 0.0 then lapTime else 80.0 + seedDraw * 20.0;
    base + (variationDraw - 0.5) * 0.5
  }

  /**
   * Row i after a tick: a new lap time, the gap to the leader's lap time from
   * before the tick (or 0 when that is unset), and the position i + 1; the
   * name, team and player flag carried over.
   */
  function NextDriver(prev: seq<Driver>, i: nat, seedDraw: real, variationDraw: real): (d: Driver)
    requires i < |prev| && IsDraw(seedDraw) && IsDraw(variationDraw)
    ensures d.name == prev[i].name && d.team == prev[i].team && d.isPlayer == prev[i].isPlayer
    ensures d.position == i + 1
    ensures d.lapTime == NewLapTime(prev[i].lapTime, seedDraw, variationDraw)
    ensures prev[0].lapTime == 0.0 ==> d.gap == 0.0
    ensures prev[0].lapTime != 0.0 ==> d.gap + prev[0].lapTime == d.lapTime
  {
    var lapTime := NewLapTime(prev[i].lapTime, seedDraw, variationDraw);
    var leaderTime := if prev[0].lapTime != 0.0 then prev[0].lapTime else lapTime;
    prev[i].(lapTime := lapTime, gap := lapTime - leaderTime, position := i + 1)
  }

  /** Every draw in range. */
  predicate AllDraws(rs: seq<real>)
  {
    forall i :: 0 <= i < |rs| ==> IsDraw(rs[i])
  }

  /** The tick's map over the roster, with each row's two draws. */
  function NextRoster(prev: seq<Driver>, seedDraws: seq<real>, variationDraws: seq<real>): (r: seq<Driver>)
    requires |seedDraws| == |prev| && |variationDraws| == |prev|
    requires AllDraws(seedDraws) && AllDraws(variationDraws)
    ensures |r| == |prev|
    ensures forall i :: 0 <= i < |r| ==> r[i] == NextDriver(prev, i, seedDraws[i], variationDraws[i])
  {
    seq(|prev|, i requires 0 <= i < |prev| => NextDriver(prev, i, seedDraws[i], variationDraws[i]))
  }

  /**
   * A tick keeps the rows in their order with their names, teams and player
   * flags, and numbers them 1, 2, ... by row whatever their lap times.
   */
  lemma TickKeepsRows(prev: seq<Driver>, seedDraws: seq<real>, variationDraws: seq<real>)
    requires |seedDraws| == |prev| && |variationDraws| == |prev|
    requires AllDraws(seedDraws) && AllDraws(variationDraws)
    ensures var r := NextRoster(prev, seedDraws, variationDraws);
      && |r| == |prev|
      && (forall i :: 0 <= i < |r| ==>
            r[i].name == prev[i].name && r[i].team == prev[i].team && r[i].isPlayer == prev[i].isPlayer)
      && (forall i :: 0 <= i < |r| ==> r[i].position == i + 1)
  {
    var r := NextRoster(prev, seedDraws, variationDraws);
    forall i | 0 <= i < |r|
      ensures r[i].name == prev[i].name && r[i].team == prev[i].team && r[i].isPlayer == prev[i].isPlayer
      ensures r[i].position == i + 1
    {
      assert r[i] == NextDriver(prev, i, seedDraws[i], variationDraws[i]);
    }
  }

  /** While the leader has no lap time, every gap after the tick is 0. */
  lemma UnsetLeaderGapsZero(prev: seq<Driver>, seedDraws: seq<real>, variationDraws: seq<real>)
    requires |prev| > 0 && prev[0].lapTime == 0.0
    requires |seedDraws| == |prev| && |variationDraws| == |prev|
    requires AllDraws(seedDraws) && AllDraws(variationDraws)
    ensures forall i :: 0 <= i < |prev| ==> NextRoster(prev, seedDraws, variationDraws)[i].gap == 0.0
  {
    var r := NextRoster(prev, seedDraws, variationDraws);
    forall i | 0 <= i < |prev|
      ensures r[i].gap == 0.0
    {
      assert r[i] == NextDriver(prev, i, seedDraws[i], variationDraws[i]);
    }
  }

  /** The first tick from the initial roster shows every gap as 0 and every lap time in [79.75, 100.25). */
  lemma FirstTick(seedDraws: seq<real>, variationDraws: seq<real>)
    requires |seedDraws| == 7 && |variationDraws| == 7
    requires AllDraws(seedDraws) && AllDraws(variationDraws)
    ensures var r := NextRoster(InitialRoster, seedDraws, variationDraws);
      forall i :: 0 <= i < 7 ==> r[i].gap == 0.0 && 79.75 <= r[i].lapTime < 100.25
  {
    InitialRosterShape();
    UnsetLeaderGapsZero(InitialRoster, seedDraws, variationDraws);
    var r := NextRoster(InitialRoster, seedDraws, variationDraws);
    forall i | 0 <= i < 7
      ensures 79.75 <= r[i].lapTime < 100.25
    {
      assert r[i] == NextDriver(InitialRoster, i, seedDraws[i], variationDraws[i]);
    }
  }

  /**
   * Once the leader has a lap time, the leader's own gap after the tick is its
   * variation, measured against its lap time from before the tick: it is 0
   * only when the variation draw is exactly one half.
   */
  lemma LeaderGap(prev: seq<Driver>, seedDraws: seq<real>, variationDraws: seq<real>)
    requires |prev| > 0 && prev[0].lapTime != 0.0
    requires |seedDraws| == |prev| && |variationDraws| == |prev|
    requires AllDraws(seedDraws) && AllDraws(variationDraws)
    ensures NextRoster(prev, seedDraws, variationDraws)[0].gap == (variationDraws[0] - 0.5) * 0.5
    ensures NextRoster(prev, seedDraws, variationDraws)[0].gap == 0.0 <==> variationDraws[0] == 0.5
  {
    assert NextRoster(prev, seedDraws, variationDraws)[0] == NextDriver(prev, 0, seedDraws[0], variationDraws[0]);
  }

  /**
   * The gap text: "---" for a gap of exactly 0, otherwise "+" followed by the
   * gap to three decimals when it is below 1 (negative gaps included) and to
   * one decimal from 1 up.
   */
  function FormatGap(gap: real): (t: string)
    ensures t == "---" <==> gap == 0.0
    ensures gap != 0.0 ==> |t| >= 2 && t[0] == '+' && (t[1] == '-' <==> gap < 0.0)
  {
    if gap == 0.0 then "---"
    else if gap < 1.0 then "+" + ToFixed(gap, 3)
    else "+" + ToFixed(gap, 1)
  }

  /**
   * A non-zero gap's text after its "+" reads back as the gap, within half a
   * thousandth below 1 and within half a tenth from 1 up; a negative gap shows
   * as "+-".
   */
  lemma FormatGapReads(gap: real)
    requires gap != 0.0
    ensures ParseSigned(FormatGap(gap)[1..]).Some?
    ensures gap < 1.0 ==> Abs(ParseSigned(FormatGap(gap)[1..]).value - gap) <= 0.0005
    ensures gap >= 1.0 ==> Abs(ParseSigned(FormatGap(gap)[1..]).value - gap) <= 0.05
    ensures var b := FormatGap(gap)[1..];
      FixedShape(if gap < 0.0 then b[1..] else b, if gap < 1.0 then 3 else 1)
  {
    var f := if gap < 1.0 then 3 else 1;
    assert FormatGap(gap)[1..] == ToFixed(gap, f);
    GapShape(gap, f);
    GapReading(gap, f);
  }

  lemma GapShape(gap: real, f: nat)
    ensures var b := ToFixed(gap, f); FixedShape(if gap < 0.0 then b[1..] else b, f)
  {
    ToFixedShape(gap, f);
  }

  /** `toFixed(3)` is within half a thousandth, `toFixed(1)` within half a tenth. */
  lemma GapReading(gap: real, f: nat)
    requires f == 1 || f == 3
    ensures ParseSigned(ToFixed(gap, f)).Some?
    ensures Abs(ParseSigned(ToFixed(gap, f)).value - gap) <= if f == 3 then 0.0005 else 0.05
  {
    ToFixedValue(gap, f);
    ScaleThree(0.5);
    assert Unscale(0.5, 1) == 0.05;
  }

  class Board {
    var drivers: seq<Driver>

    /** The roster keeps its seven drivers in their order, numbered by row. */
    ghost predicate Valid()
      reads this
    {
      && |drivers| == 7
      && (forall i :: 0 <= i < 7 ==>
            && drivers[i].name == InitialRoster[i].name
            && drivers[i].team == InitialRoster[i].team
            && drivers[i].isPlayer == InitialRoster[i].isPlayer
            && drivers[i].position == i + 1)
    }

    /** The classification as it first appears. */
    constructor()
      ensures Valid() && drivers == InitialRoster
    {
      drivers := InitialRoster;
      InitialRosterShape();
    }

    /**
     * One two-second tick with each row's two draws. When the race is not
     * running nothing changes; otherwise the roster is replaced by its map.
     */
    method Tick(racing: bool, seedDraws: seq<real>, variationDraws: seq<real>)
      requires Valid()
      requires |seedDraws| == 7 && |variationDraws| == 7
      requires AllDraws(seedDraws) && AllDraws(variationDraws)
      modifies this
      ensures Valid()
      ensures drivers == if racing then NextRoster(old(drivers), seedDraws, variationDraws) else old(drivers)
    {
      if racing {
        TickKeepsRows(drivers, seedDraws, variationDraws);
        drivers := NextRoster(drivers, seedDraws, variationDraws);
      }
    }
  }
}
