/**
 * The track map: the car's angular position advancing two degrees per 100 ms
 * tick, the lap counter, the running lap time and the best lap, plus the
 * circuit lookup that falls back to Monaco.
 */
module TrackMap {
  import opened Wrappers

  /** A circuit's facts as the map shows them; the drawing data is not modelled. */
  datatype Circuit = Circuit(name: string, length: string, turns: nat, lapRecord: string)

  /** The circuits the map knows, by key. */
  const Circuits: map<string, Circuit> := map[
    "monaco" := Circuit("Monaco", "3.337 km", 19, "1:12.909"),
    "silverstone" := Circuit("Silverstone", "5.891 km", 18, "1:27.097"),
    "spa" := Circuit("Spa-Francorchamps", "7.004 km", 19, "1:46.286"),
    "monza" := Circuit("Monza", "5.793 km", 11, "1:21.046"),
    "suzuka" := Circuit("Suzuka", "5.807 km", 18, "1:30.983"),
    "interlagos" := Circuit("Interlagos", "4.309 km", 15, "1:10.540")
  ]

  /** The circuit shown for a key: the known entry, or Monaco for any other key. */
  function TrackInfo(circuit: string): (c: Circuit)
    ensures circuit in Circuits ==> c == Circuits[circuit]
    ensures circuit !in Circuits ==> c == Circuits["monaco"]
    ensures c in Circuits.Values
  {
    if circuit in Circuits then Circuits[circuit] else Circuits["monaco"]
  }

  /** Monaco is the circuit every unknown key shows. */
  lemma UnknownIsMonaco(circuit: string)
    requires circuit !in Circuits
    ensures TrackInfo(circuit).name == "Monaco" && TrackInfo(circuit).turns == 19
  {
  }

  /**
   * The best lap after a lap of `lapTime` completes: that lap when there is
   * no best yet or it is faster, the old best otherwise; so it is the smaller
   * of the two and never above the old best.
   */
  function BestAfter(best: Option<real>, lapTime: real): (r: Option<real>)
    ensures r.Some? && r.value <= lapTime
    ensures best.Some? ==> r.value <= best.value
    ensures r == Some(lapTime) || r == best
  {
    if best.None? || lapTime < best.value then Some(lapTime) else best
  }

  /** A lap takes 180 ticks of 0.1 s; the time shown on the last tick of a lap. */
  const LastLapTime: real := 17.9

  class LapTracker {
    var position: nat
    var currentLap: nat
    var lapTime: real
    var bestLap: Option<real>
    /** The ticks run while racing since the map appeared. */
    ghost var ticks: nat

    /**
     * The state after `ticks` racing ticks: the position has gone round
     * `ticks / 180` times and sits at an even angle below 360, the lap time is
     * a tenth of a second per tick into the lap, and the best lap is unset
     * during the first lap and 17.9 s ever after.
     */
    ghost predicate Valid()
      reads this
    {
      && position == 2 * (ticks % 180)
      && currentLap == 1 + ticks / 180
      && lapTime == (ticks % 180) as real / 10.0
      && bestLap == (if ticks < 180 then None else Some(LastLapTime))
    }

    /** The map as it appears: position 0, lap 1, lap time 0, no best lap. */
    constructor()
      ensures Valid() && ticks == 0
      ensures position == 0 && currentLap == 1 && lapTime == 0.0 && bestLap == None
    {
      position := 0;
      currentLap := 1;
      lapTime := 0.0;
      bestLap := None;
      ticks := 0;
    }

    /**
     * One 100 ms tick. When the race is not running nothing changes (and
     * nothing is reset). Otherwise the position advances by 2 modulo 360; it
     * wraps exactly when it was 358, and a wrap counts a lap, records the
     * finished lap as best when there was none or it was faster, and restarts
     * the lap time, which otherwise grows by 0.1.
     */
    method Tick(racing: bool)
      requires Valid()
      modifies this
      ensures Valid()
      ensures !racing ==>
        && ticks == old(ticks) && position == old(position) && currentLap == old(currentLap)
        && lapTime == old(lapTime) && bestLap == old(bestLap)
      ensures racing ==> ticks == old(ticks) + 1 && position == (old(position) + 2) % 360
      ensures racing ==> (position < old(position) <==> old(position) == 358)
      ensures racing ==> currentLap == if position < old(position) then old(currentLap) + 1 else old(currentLap)
      ensures racing ==> bestLap == if position < old(position) then BestAfter(old(bestLap), old(lapTime)) else old(bestLap)
      ensures racing ==> lapTime == if position < old(position) then 0.0 else old(lapTime) + 0.1
    {
      if !racing {
        return;
      }
      var prev := position;
      var newPos := (prev + 2) % 360;
      if newPos < prev {
        currentLap := currentLap + 1;
        bestLap := BestAfter(bestLap, lapTime);
        lapTime := 0.0;
      } else {
        lapTime := lapTime + 0.1;
      }
      position := newPos;
      ticks := ticks + 1;
    }
  }

  /** The position is always an even angle in [0, 358]. */
  lemma PositionBounds(m: LapTracker)
    requires m.Valid()
    ensures m.position % 2 == 0 && m.position < 360
  {
  }

  /** The lap counter counts completed laps of 180 ticks each, starting from 1. */
  lemma LapsCounted(m: LapTracker)
    requires m.Valid()
    ensures (m.currentLap - 1) * 180 <= m.ticks < m.currentLap * 180
  {
  }
}
