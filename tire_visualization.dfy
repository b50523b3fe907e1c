/**
 * The tyre panel's classification helpers: the wear bands behind the two
 * colour classes, the wear ring's angle, and the sign rule of the lap-time
 * delta beside each tyre.
 */
module TireVisualization {
  import opened JsFormat

  /** The four wear bands, from worst to best. */
  datatype Band = RedBand | OrangeBand | YellowBand | GreenBand

  /** The band of a wear value: above 70 green, above 40 yellow, above 20 orange, otherwise red. */
  function BandOf(wear: real): (b: Band)
    ensures b == GreenBand <==> wear > 70.0
    ensures b == YellowBand <==> 40.0 < wear <= 70.0
    ensures b == OrangeBand <==> 20.0 < wear <= 40.0
    ensures b == RedBand <==> wear <= 20.0
  {
    if wear > 70.0 then GreenBand
    else if wear > 40.0 then YellowBand
    else if wear > 20.0 then OrangeBand
    else RedBand
  }

  /** Bands ranked from 0 (red) to 3 (green). */
  function Grade(b: Band): nat
  {
    match b
    case RedBand => 0
    case OrangeBand => 1
    case YellowBand => 2
    case GreenBand => 3
  }

  /** More tread never gives a worse band. */
  lemma BandMonotone(a: real, b: real)
    requires a <= b
    ensures Grade(BandOf(a)) <= Grade(BandOf(b))
  {
  }

  /** The colour word a band is drawn in. */
  function ColourName(b: Band): string
  {
    match b
    case RedBand => "red"
    case OrangeBand => "orange"
    case YellowBand => "yellow"
    case GreenBand => "green"
  }

  /** `getWearColor`: the text colour class for a wear value. */
  function WearColor(wear: real): (c: string)
    ensures c == "text-" + ColourName(BandOf(wear)) + "-500"
  {
    if wear > 70.0 then "text-green-500"
    else if wear > 40.0 then "text-yellow-500"
    else if wear > 20.0 then "text-orange-500"
    else "text-red-500"
  }

  /** `getWearIndicatorColor`: the background colour class for a wear value. */
  function WearIndicatorColor(wear: real): (c: string)
    ensures c == "bg-" + ColourName(BandOf(wear)) + "-500"
  {
    if wear > 70.0 then "bg-green-500"
    else if wear > 40.0 then "bg-yellow-500"
    else if wear > 20.0 then "bg-orange-500"
    else "bg-red-500"
  }

  /** The two colour classes always name the same colour: they differ only in their prefix. */
  lemma ColoursAgree(wear: real)
    ensures WearColor(wear)[|"text-"|..] == WearIndicatorColor(wear)[|"bg-"|..]
  {
    var name := ColourName(BandOf(wear));
    assert ("text-" + name + "-500")[5..] == name + "-500";
    assert ("bg-" + name + "-500")[3..] == name + "-500";
  }

  /** The angle of the wear ring, in degrees. */
  function WearAngle(wear: real): (a: real)
    ensures 0.0 <= wear <= 100.0 ==> 0.0 <= a <= 360.0
    ensures a == 360.0 <==> wear == 100.0
    ensures a == 0.0 <==> wear == 0.0
  {
    wear / 100.0 * 360.0
  }

  /** A more worn tyre never shows a larger ring. */
  lemma WearAngleMonotone(a: real, b: real)
    requires a <= b
    ensures WearAngle(a) <= WearAngle(b)
  {
  }

  /** The delta beside a tyre for a wear value and a draw: 0.02 s per point of wear plus noise in [-0.25, 0.25). */
  function Delta(wear: real, draw: real): (d: real)
    requires 0.0 <= draw < 1.0
    ensures (100.0 - wear) * 0.02 - 0.25 <= d < (100.0 - wear) * 0.02 + 0.25
  {
    (100.0 - wear) * 0.02 + (draw - 0.5) * 0.5
  }

  /** The delta text: two decimals, with a "+" in front of a positive delta. */
  function DeltaText(delta: real): (t: string)
    ensures |t| >= 1
  {
    if delta > 0.0 then "+" + ToFixed(delta, 2) else ToFixed(delta, 2)
  }

  /** The delta is shown green exactly when its text starts with "+". */
  predicate ShownGreen(t: string)
  {
    |t| > 0 && t[0] == '+'
  }

  /** The text starts with "+", and so is green, exactly when the delta is positive. */
  lemma GreenIffPositive(delta: real)
    ensures ShownGreen(DeltaText(delta)) <==> delta > 0.0
  {
    if delta <= 0.0 {
      var t := ToFixed(delta, 2);
      assert t[0] == '-' || IsDigit(t[0]);
    }
  }

  /** Below 87.5% wear every possible delta is positive, so the delta is always green. */
  lemma WornTyreShownGreen(wear: real, draw: real)
    requires wear < 87.5 && 0.0 <= draw < 1.0
    ensures ShownGreen(DeltaText(Delta(wear, draw)))
  {
    GreenIffPositive(Delta(wear, draw));
  }

  /** The delta text, without its "+", reads back as the delta to within half a hundredth. */
  lemma DeltaTextReads(delta: real)
    ensures var t := DeltaText(delta);
      var body := if delta > 0.0 then t[1..] else t;
      && ParseSigned(body).Some?
      && Abs(ParseSigned(body).value - delta) <= 0.005
      && FixedShape(if delta < 0.0 then body[1..] else body, 2)
  {
    var t := DeltaText(delta);
    if delta > 0.0 {
      assert t[1..] == ToFixed(delta, 2);
    }
    ToFixedValue(delta, 2);
    ToFixedShape(delta, 2);
    assert Unscale(0.5, 2) == 0.005;
  }
}
