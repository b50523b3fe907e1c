/**
 * The telemetry dashboard's 100 ms tick: speed and RPM approach a random
 * target, the gear follows the speed, fuel and the four tyres wear down to 0,
 * ERS recharges up to 100, and DRS opens on a random draw.
 */
module Telemetry {
  import opened JsFormat

  /**
   * The speed updater: the speed moves a tenth of the way to the target, so it
   * ends between the old speed and the target, and the distance left to the
   * target shrinks to nine tenths.
   */
  function SpeedToward(speed: real, target: real): (r: real)
    ensures speed <= target ==> speed <= r <= target
    ensures target <= speed ==> target <= r <= speed
    ensures target - r == (target - speed) * 0.9
  {
    speed + (target - speed) * 0.1
  }

  /**
   * The RPM updater: the RPM moves 15% of the way to the target, so it ends
   * between the old RPM and the target, and the distance left to the target
   * shrinks to 85%.
   */
  function RpmToward(rpm: real, target: real): (r: real)
    ensures rpm <= target ==> rpm <= r <= target
    ensures target <= rpm ==> target <= r <= rpm
    ensures target - r == (target - rpm) * 0.85
  {
    rpm + (target - rpm) * 0.15
  }

  /**
   * The gear shown for a speed: one gear per 50 km/h band, counted from 1 and
   * clamped to 1..8; gear g covers [50(g-1), 50g), the first and last bands
   * stretched to every lower and higher speed.
   */
  function Gear(speed: real): (g: int)
    ensures 1 <= g <= 8
    ensures g > 1 ==> 50.0 * (g - 1) as real <= speed
    ensures g < 8 ==> speed < 50.0 * g as real
  {
    var k := JsFloor(speed / 50.0) + 1;
    if k > 8 then 8 else if k < 1 then 1 else k
  }

  /** A faster car is never in a lower gear. */
  lemma GearMonotone(a: real, b: real)
    requires a <= b
    ensures Gear(a) <= Gear(b)
  {
  }

  /** A decrement floored at 0: never negative, never above x, exact while x stays at or above d. */
  function Drain(x: real, d: real): (r: real)
    requires d >= 0.0
    ensures r >= 0.0
    ensures x >= 0.0 ==> r <= x
    ensures x >= d ==> r == x - d
    ensures x < d ==> r == 0.0
  {
    if x - d > 0.0 then x - d else 0.0
  }

  /** An increment capped at `cap`: never above the cap, never below x while x is within it. */
  function Charge(x: real, d: real, cap: real): (r: real)
    requires d >= 0.0
    ensures r <= cap
    ensures x <= cap ==> x <= r
    ensures x + d <= cap ==> r == x + d
    ensures x + d >= cap ==> r == cap
  {
    if x + d < cap then x + d else cap
  }

  /** `Drain` applied n times. */
  function DrainTimes(x: real, d: real, n: nat): (r: real)
    requires d >= 0.0
  {
    if n == 0 then x else Drain(DrainTimes(x, d, n - 1), d)
  }

  /** Draining n times by d is one drain by n * d, floored at 0. */
  lemma {:induction false} DrainTimesValue(x: real, d: real, n: nat)
    requires x >= 0.0 && d >= 0.0
    ensures DrainTimes(x, d, n) == if x - n as real * d > 0.0 then x - n as real * d else 0.0
  {
    if n > 0 {
      DrainTimesValue(x, d, n - 1);
    }
  }

  /** 58 ticks from a full tank leave 98.84. */
  lemma FuelAfterFiftyEight()
    ensures DrainTimes(100.0, 0.02, 58) == 98.84
  {
    DrainTimesValue(100.0, 0.02, 58);
  }

  /** The per-tick drains and gains. */
  const FuelBurn: real := 0.02
  const FrontWear: real := 0.015
  const RearWear: real := 0.02
  const ErsGain: real := 0.5

  class Dashboard {
    var speed: real
    var rpm: real
    var gear: int
    var fuel: real
    var tireFrontLeft: real
    var tireFrontRight: real
    var tireRearLeft: real
    var tireRearRight: real
    var drs: bool
    var ers: real

    /**
     * Every value stays on its gauge: speed in [0, 350), RPM in [0, 15000),
     * gear in 1..8, fuel and tyres in [0, 100]; ERS, which starts full and is
     * capped at 100, stays at 100.
     */
    ghost predicate Valid()
      reads this
    {
      && 0.0 <= speed < 350.0
      && 0.0 <= rpm < 15000.0
      && 1 <= gear <= 8
      && 0.0 <= fuel <= 100.0
      && 0.0 <= tireFrontLeft <= 100.0 && 0.0 <= tireFrontRight <= 100.0
      && 0.0 <= tireRearLeft <= 100.0 && 0.0 <= tireRearRight <= 100.0
      && ers == 100.0
    }

    /** The dashboard before the race: standing in first gear, full tank, fresh tyres, full ERS, DRS closed. */
    constructor()
      ensures Valid()
      ensures speed == 0.0 && rpm == 0.0 && gear == 1 && fuel == 100.0 && !drs && ers == 100.0
      ensures tireFrontLeft == 100.0 && tireFrontRight == 100.0 && tireRearLeft == 100.0 && tireRearRight == 100.0
    {
      speed := 0.0;
      rpm := 0.0;
      gear := 1;
      fuel := 100.0;
      tireFrontLeft := 100.0;
      tireFrontRight := 100.0;
      tireRearLeft := 100.0;
      tireRearRight := 100.0;
      drs := false;
      ers := 100.0;
    }

    /**
     * One 100 ms tick with the draws for the speed target, the RPM target and
     * DRS. When the race is not running nothing changes (stopping resets
     * nothing). Otherwise speed moves a tenth of the way to a target in
     * [200, 350) and RPM 15% of the way to a target in [8000, 15000); the gear
     * is read from the speed before this tick; fuel, the front tyres and the
     * rear tyres lose 0.02, 0.015 and 0.02, floored at 0; ERS gains 0.5 up to
     * 100; DRS opens exactly when its draw exceeds 0.7.
     */
    method Tick(racing: bool, speedDraw: real, rpmDraw: real, drsDraw: real)
      requires Valid()
      requires 0.0 <= speedDraw < 1.0 && 0.0 <= rpmDraw < 1.0 && 0.0 <= drsDraw < 1.0
      modifies this
      ensures Valid()
      ensures !racing ==> unchanged(this)
      ensures racing ==>
        && speed == SpeedToward(old(speed), 200.0 + speedDraw * 150.0)
        && rpm == RpmToward(old(rpm), 8000.0 + rpmDraw * 7000.0)
        && gear == Gear(old(speed))
        && fuel == Drain(old(fuel), FuelBurn)
        && tireFrontLeft == Drain(old(tireFrontLeft), FrontWear)
        && tireFrontRight == Drain(old(tireFrontRight), FrontWear)
        && tireRearLeft == Drain(old(tireRearLeft), RearWear)
        && tireRearRight == Drain(old(tireRearRight), RearWear)
        && ers == Charge(old(ers), ErsGain, 100.0)
        && (drs <==> drsDraw > 0.7)
    {
      if !racing {
        return;
      }
      var before := speed;
      speed := SpeedToward(speed, 200.0 + speedDraw * 150.0);
      rpm := RpmToward(rpm, 8000.0 + rpmDraw * 7000.0);
      gear := Gear(before);
      fuel := Drain(fuel, FuelBurn);
      tireFrontLeft := Drain(tireFrontLeft, FrontWear);
      tireFrontRight := Drain(tireFrontRight, FrontWear);
      tireRearLeft := Drain(tireRearLeft, RearWear);
      tireRearRight := Drain(tireRearRight, RearWear);
      ers := Charge(ers, ErsGain, 100.0);
      drs := drsDraw > 0.7;
    }
  }
}
