/**
 * The race indicators: five start lights driven by a counter that climbs once
 * a second to 5 and stays there, and a pit-exit light that opens and closes
 * every three seconds.
 */
module RaceIndicators {
  import opened JsFormat

  /** The pit exit's two states. */
  datatype PitExit = Closed | Open

  /** How a light is drawn: unlit, lit red or lit green. */
  datatype Shade = Unlit | Red | Green

  /** The start-light counter's one-second step: one more light, up to five. */
  function NextLight(prev: nat): (r: nat)
    ensures r <= 5
    ensures prev < 5 ==> r == prev + 1
    ensures prev >= 5 ==> r == 5
  {
    if prev >= 5 then 5 else prev + 1
  }

  /** The counter after n steps from 0. */
  function LightsAfter(n: nat): nat
  {
    if n == 0 then 0 else NextLight(LightsAfter(n - 1))
  }

  /** After n steps from 0 the counter shows min(n, 5): five steps reach 5 and it stays there. */
  lemma {:induction false} LightsAfterValue(n: nat)
    ensures LightsAfter(n) == if n < 5 then n else 5
  {
    if n > 0 {
      LightsAfterValue(n - 1);
    }
  }

  /** The counter never goes down and never passes 5. */
  lemma {:induction false} LightsRise(m: nat, n: nat)
    requires m <= n
    ensures LightsAfter(m) <= LightsAfter(n) <= 5
  {
    LightsAfterValue(m);
    LightsAfterValue(n);
  }

  /** The pit exit's three-second step. */
  function NextPit(p: PitExit): (r: PitExit)
    ensures r != p
  {
    if p == Closed then Open else Closed
  }

  /** Two pit steps restore the pit exit. */
  lemma PitTwice(p: PitExit)
    ensures NextPit(NextPit(p)) == p
  {
  }

  /**
   * The five start lights for a counter value: light k (from 1) is lit when
   * k is at most the counter; lit lights are red until the counter reaches 5
   * and green from then on.
   */
  function StartLights(count: nat): (r: seq<Shade>)
    ensures |r| == 5
    ensures forall k :: 0 <= k < 5 ==> (r[k] != Unlit <==> k + 1 <= count)
    ensures forall k :: 0 <= k < 5 ==> (r[k] == Green <==> count >= 5)
  {
    seq(5, k requires 0 <= k < 5 => if k + 1 <= count then (if count >= 5 then Green else Red) else Unlit)
  }

  /** The number of lit lights. */
  function LitCount(lights: seq<Shade>): nat
  {
    if lights == [] then 0 else (if lights[0] != Unlit then 1 else 0) + LitCount(lights[1..])
  }

  /** Lit lights form a prefix: the count of lit lights is the counter, up to 5. */
  lemma StartLightsLit(count: nat)
    ensures LitCount(StartLights(count)) == if count < 5 then count else 5
  {
    var r := StartLights(count);
    LitPrefix(r, if count < 5 then count else 5);
  }

  /** In five lights whose first n are lit and the rest unlit, n are lit. */
  lemma {:induction false} LitPrefix(lights: seq<Shade>, n: nat)
    requires n <= |lights|
    requires forall k :: 0 <= k < |lights| ==> (lights[k] != Unlit <==> k < n)
    ensures LitCount(lights) == n
  {
    if lights != [] {
      var rest := lights[1..];
      assert forall k :: 0 <= k < |rest| ==> rest[k] == lights[k + 1];
      if n > 0 {
        LitPrefix(rest, n - 1);
      } else {
        LitPrefix(rest, 0);
      }
    }
  }

  /** The text under the start lights: "GO!" once all five are green, otherwise "n/5". */
  function StartLabel(count: nat): (t: string)
    ensures t == "GO!" <==> count >= 5
    ensures count < 5 ==> t == [DigitChar(count)] + "/5"
  {
    if count >= 5 then "GO!"
    else
      var t := NatToString(count) + "/5";
      assert t[0] == DigitChar(count);
      t
  }

  /** The pit light is lit exactly when the exit is open, and then green. */
  function PitLight(p: PitExit): (s: Shade)
    ensures s != Unlit <==> p == Open
    ensures s != Unlit ==> s == Green
  {
    if p == Open then Green else Unlit
  }

  class Indicators {
    var lightSequence: nat
    var pitExit: PitExit

    ghost predicate Valid()
      reads this
    {
      lightSequence <= 5
    }

    /** Before the race: no lights, pit exit closed. */
    constructor()
      ensures Valid() && lightSequence == 0 && pitExit == Closed
    {
      lightSequence := 0;
      pitExit := Closed;
    }

    /** What stopping (or not yet starting) the race does: lights off, pit exit closed. */
    method Stop()
      modifies this
      ensures Valid() && lightSequence == 0 && pitExit == Closed
    {
      lightSequence := 0;
      pitExit := Closed;
    }

    /** The one-second start-light step while racing; the pit exit is untouched. */
    method LightTick()
      requires Valid()
      modifies this
      ensures Valid()
      ensures lightSequence == NextLight(old(lightSequence)) && pitExit == old(pitExit)
    {
      lightSequence := NextLight(lightSequence);
    }

    /** The three-second pit-exit step while racing; the start lights are untouched. */
    method PitTick()
      requires Valid()
      modifies this
      ensures Valid()
      ensures pitExit == NextPit(old(pitExit)) && lightSequence == old(lightSequence)
    {
      pitExit := NextPit(pitExit);
    }
  }
}
