/**
 * The two clock texts of the dashboard: the lap-time formatter shared by the track
 * map and the leaderboard ("m:ss.sss") and the race-time label of the radio log
 * ("m:ss"), each with the reading that recovers minutes and seconds from the text.
 */
module RaceClock {
  import opened Wrappers
  import opened JsFormat

  /** What a clock text says: whole minutes, then seconds. */
  datatype ClockReading = ClockReading(minutes: nat, seconds: real)

  /** Reads "m:s", where m is a numeral and s a non-negative decimal. */
  function ParseClock(t: string): (r: Option<ClockReading>)
    ensures r.Some? ==> r.value.seconds >= 0.0
  {
    match IndexOf(t, ':')
    case None => None
    case Some(i) =>
      var m, s := t[..i], t[i + 1..];
      if m != [] && AllDigits(m) then
        match ParseUnsigned(s)
        case None => None
        case Some(v) => Some(ClockReading(DigitsValue(m), v))
      else None
  }

  /** A numeral, a colon and a readable seconds text read as that numeral and those seconds. */
  lemma ParseClockParts(m: nat, s: string)
    requires ParseUnsigned(s).Some?
    ensures ParseClock(NatToString(m) + ":" + s) == Some(ClockReading(m, ParseUnsigned(s).value))
  {
    var a := NatToString(m);
    var t := a + ":" + s;
    IndexOfDigits(a, ':', s);
    assert t[..|a|] == a;
    assert t[|a| + 1..] == s;
  }

  /**
   * The shape of a lap-time text: a numeral, ":", and a seconds field of at
   * least six characters with a point and exactly three decimals.
   */
  predicate LapTimeShape(t: string)
  {
    match IndexOf(t, ':')
    case None => false
    case Some(i) =>
      && i >= 1 && AllDigits(t[..i])
      && |t| - (i + 1) >= 6 && FixedShape(t[i + 1..], 3)
  }

  /** A numeral, ":" and a six-character three-decimal field form a lap-time text. */
  lemma ClockShape(m: nat, p: string)
    requires |p| >= 6 && FixedShape(p, 3)
    ensures LapTimeShape(NatToString(m) + ":" + p)
  {
    var a := NatToString(m);
    var t := a + ":" + p;
    IndexOfDigits(a, ':', p);
    assert t[..|a|] == a;
    assert t[|a| + 1..] == p;
  }

  /** The lap-time formatter, as written: minutes, ":", seconds mod 60 to 3 decimals padded to 6. */
  function FormatTime(seconds: real): (t: string)
  {
    IntToString(JsFloor(seconds / 60.0)) + ":" + PadStart(ToFixed(JsRemainder(seconds, 60.0), 3), 6, '0')
  }

  /**
   * For a non-negative time the text reads back as floor(s / 60) minutes and a
   * seconds field within half a millisecond of s mod 60, so minutes * 60 + seconds
   * is within half a millisecond of s.
   */
  lemma FormatTimeReads(s: real)
    requires s >= 0.0
    ensures ParseClock(FormatTime(s)).Some?
    ensures var c := ParseClock(FormatTime(s)).value;
      && c.minutes as real <= s / 60.0 < c.minutes as real + 1.0
      && Abs(c.seconds - JsRemainder(s, 60.0)) <= 0.0005
      && Abs(c.minutes as real * 60.0 + c.seconds - s) <= 0.0005
    ensures LapTimeShape(FormatTime(s))
  {
    FormatTimeReading(s);
    FormatTimeLayout(s);
  }

  lemma FormatTimeReading(s: real)
    requires s >= 0.0
    ensures ParseClock(FormatTime(s)).Some?
    ensures var c := ParseClock(FormatTime(s)).value;
      && c.minutes as real <= s / 60.0 < c.minutes as real + 1.0
      && Abs(c.seconds - JsRemainder(s, 60.0)) <= 0.0005
      && Abs(c.minutes as real * 60.0 + c.seconds - s) <= 0.0005
  {
    var r := JsRemainder(s, 60.0);
    var m := JsFloor(s / 60.0);
    var d := ToFixed(r, 3);
    ToFixedValue(r, 3);
    UnsignedParse(d);
    ZeroPadParse(d, 6);
    ParseClockParts(m, PadStart(d, 6, '0'));
    assert r == s - m as real * 60.0;
  }

  lemma FormatTimeLayout(s: real)
    requires s >= 0.0
    ensures LapTimeShape(FormatTime(s))
  {
    var r := JsRemainder(s, 60.0);
    var m := JsFloor(s / 60.0);
    assert r >= 0.0 && m >= 0;
    var d := ToFixed(r, 3);
    ToFixedShape(r, 3);
    ZeroPadShape(d, 6, 3);
    var p := PadStart(d, 6, '0');
    ClockShape(m, p);
    assert FormatTime(s) == NatToString(m) + ":" + p;
  }

  /** Whole milliseconds as "m:ss.sss": the minutes and the remaining milliseconds, exactly. */
  function FormatMillis(ms: nat): (t: string)
  {
    NatToString(ms / 60000) + ":" + PadStart(FixedDigits(ms % 60000, 3), 6, '0')
  }

  /** The corrected formatter: round to the millisecond first, then split into minutes and seconds. */
  function FormatTimeRounded(seconds: real): (t: string)
  {
    FormatMillis(ScaledRound(seconds, 3))
  }

  /** On a whole number of milliseconds the formatter as written and the exact one agree. */
  lemma FormatTimeOnMillis(ms: nat)
    ensures FormatTime(Unscale(ms as real, 3)) == FormatMillis(ms)
  {
    MillisSplit(ms);
    FormatTimeShape(Unscale(ms as real, 3), ms / 60000, ms % 60000);
  }

  /** The formatter as written on a time of q minutes and k milliseconds more. */
  lemma FormatTimeShape(s: real, q: nat, k: nat)
    requires JsFloor(s / 60.0) == q && JsRemainder(s, 60.0) == Unscale(k as real, 3)
    ensures FormatTime(s) == NatToString(q) + ":" + PadStart(FixedDigits(k, 3), 6, '0')
  {
    ToFixedExact(k, 3);
  }

  /** ms milliseconds are ms / 60000 whole minutes and ms % 60000 milliseconds more. */
  lemma MillisSplit(ms: nat)
    ensures JsFloor(Unscale(ms as real, 3) / 60.0) == ms / 60000
    ensures JsRemainder(Unscale(ms as real, 3), 60.0) == Unscale((ms % 60000) as real, 3)
  {
    var q, k := ms / 60000, ms % 60000;
    ScaleThree(ms as real);
    ScaleThree(k as real);
    var x := ms as real / 1000.0;
    assert ms as real == 60000.0 * q as real + k as real;
    assert x / 60.0 == q as real + k as real / 60000.0;
    assert JsFloor(x / 60.0) == q;
    assert JsRemainder(x, 60.0) == x - q as real * 60.0;
  }

  /**
   * The exact formatter's seconds field is always below 60, and the text reads
   * back as exactly ms milliseconds.
   */
  lemma FormatMillisReads(ms: nat)
    ensures ParseClock(FormatMillis(ms)).Some?
    ensures var c := ParseClock(FormatMillis(ms)).value;
      && 0.0 <= c.seconds < 60.0
      && c.minutes == ms / 60000
      && c.minutes as real * 60.0 + c.seconds == ms as real / 1000.0
  {
    var k := ms % 60000;
    var d := FixedDigits(k, 3);
    FixedDigitsValue(k, 3);
    ZeroPadParse(d, 6);
    ParseClockParts(ms / 60000, PadStart(d, 6, '0'));
    ScaleThree(k as real);
  }

  /**
   * The corrected formatter reads back as a time within half a millisecond of s,
   * with a seconds field below 60.
   */
  lemma FormatTimeRoundedReads(s: real)
    requires s >= 0.0
    ensures ParseClock(FormatTimeRounded(s)).Some?
    ensures var c := ParseClock(FormatTimeRounded(s)).value;
      && 0.0 <= c.seconds < 60.0
      && Abs(c.minutes as real * 60.0 + c.seconds - s) <= 0.0005
  {
    var ms := ScaledRound(s, 3);
    FormatMillisReads(ms);
    MillisNear(s);
  }

  /** Rounding a time to whole milliseconds moves it by at most half a millisecond. */
  lemma MillisNear(s: real)
    requires s >= 0.0
    ensures Abs(ScaledRound(s, 3) as real / 1000.0 - s) <= 0.0005
  {
    var ms := ScaledRound(s, 3);
    RoundingError(s, 3, ms);
    ScaleThree(ms as real);
    ScaleThree(0.5);
  }

  /** 65.5 seconds is shown as "1:05.500", which reads as one minute and 5.5 seconds. */
  lemma FormatTimeExample()
    ensures FormatTime(65.5) == "1:05.500"
    ensures ParseClock(FormatTime(65.5)) == Some(ClockReading(1, 5.5))
  {
    MillisText(65500);
    FormatTimeOnMillis(65500);
    ScaleThree(65500.0);
    FormatMillisReads(65500);
  }

  /** 65500 milliseconds as text; the count is a parameter so that its numeral is built step by step. */
  lemma MillisText(ms: nat)
    requires ms == 65500
    ensures FormatMillis(ms) == "1:05.500"
  {
    var q, k := ms / 60000, ms % 60000;
    assert q == 1 && k == 5500;
    MillisParts(ms, q, k);
    SecondsField(k);
    OneMinute(q);
    JoinClock(NatToString(q), PadStart(FixedDigits(k, 3), 6, '0'));
  }

  /** The clock text of ms milliseconds is built from its whole minutes q and the remaining k milliseconds. */
  lemma MillisParts(ms: nat, q: nat, k: nat)
    requires q == ms / 60000 && k == ms % 60000
    ensures FormatMillis(ms) == NatToString(q) + ":" + PadStart(FixedDigits(k, 3), 6, '0')
  {
  }

  lemma OneMinute(q: nat)
    requires q == 1
    ensures NatToString(q) == "1"
  {
  }

  lemma JoinClock(a: string, p: string)
    requires a == "1" && p == "05.500"
    ensures a + ":" + p == "1:05.500"
  {
  }

  /** 5500 milliseconds past the minute fill the seconds field as "05.500". */
  lemma SecondsField(k: nat)
    requires k == 5500
    ensures PadStart(FixedDigits(k, 3), 6, '0') == "05.500"
  {
    var d := FixedDigits(k, 3);
    FiveAndAHalf(k);
    PadOne(d);
    ZeroInFront(d);
  }

  lemma ZeroInFront(d: string)
    requires d == "5.500"
    ensures ['0'] + d == "05.500"
  {
  }

  /** 5500 milliseconds past the minute are shown as "5.500". */
  lemma FiveAndAHalf(k: nat)
    requires k == 5500
    ensures FixedDigits(k, 3) == "5.500"
  {
    var m := NatToString(k);
    assert NatToString(k / 10 / 10 / 10) == "5";
    assert NatToString(k / 10 / 10) == "55";
    assert NatToString(k / 10) == "550";
    assert m == "5500";
    assert PadStart(m, 4, '0') == m;
  }

  /** A five-character text padded to six gets one zero in front. */
  lemma PadOne(d: string)
    requires |d| == 5
    ensures PadStart(d, 6, '0') == ['0'] + d
  {
  }

  /**
   * As written, 119.9996 seconds is shown as "1:60.000": the remainder is rounded
   * after the minutes have been taken, so it can round up to 60.
   */
  lemma FormatTimeSixty()
    ensures ParseClock(FormatTime(119.9996)) == Some(ClockReading(1, 60.0))
  {
    var r := JsRemainder(119.9996, 60.0);
    assert r == 59.9996;
    ScaleThree(r);
    assert ScaledRound(r, 3) == 60000;
    ScaleThree(60000.0);
    var d := ToFixed(r, 3);
    ToFixedReads(r, 3);
    UnsignedParse(d);
    ZeroPadParse(d, 6);
    assert JsFloor(119.9996 / 60.0) == 1;
    ParseClockParts(1, PadStart(d, 6, '0'));
  }

  /** The race-time label of a radio message: minutes, ":", seconds padded to two digits. */
  function TimeLabel(time: nat): (t: string)
  {
    NatToString(time / 60) + ":" + PadStart(NatToString(time % 60), 2, '0')
  }

  /** The label reads back as the minutes and the seconds below 60 that make up the time. */
  lemma TimeLabelReads(time: nat)
    ensures ParseClock(TimeLabel(time)) == Some(ClockReading(time / 60, (time % 60) as real))
    ensures |TimeLabel(time)| == |NatToString(time / 60)| + 3
  {
    LabelReads(time / 60, time % 60);
  }

  lemma LabelReads(m: nat, sec: nat)
    requires sec < 60
    ensures var t := NatToString(m) + ":" + PadStart(NatToString(sec), 2, '0');
      ParseClock(t) == Some(ClockReading(m, sec as real)) && |t| == |NatToString(m)| + 3
  {
    var d := NatToString(sec);
    ParseNoPoint(d);
    ZeroPadParse(d, 2);
    ParseClockParts(m, PadStart(d, 2, '0'));
    TwoDigits(sec);
  }

  /** Seconds below 60 take one or two digits, so padding to two gives exactly two. */
  lemma TwoDigits(sec: nat)
    requires sec < 60
    ensures |PadStart(NatToString(sec), 2, '0')| == 2
  {
    if sec >= 10 {
      assert NatToString(sec) == NatToString(sec / 10) + [DigitChar(sec % 10)];
    }
  }
}
