/**
 * The JavaScript number-to-text primitives the dashboard's formatters are built
 * from: integer `toString`, `String.prototype.padStart`, and
 * `Number.prototype.toFixed`, on exact reals.  Each formatter has a parser
 * beside it, and the lemmas state what value a formatted string reads back as.
 */
module JsFormat {
  import opened Wrappers

  predicate IsDigit(c: char) { '0' <= c <= '9' }

  predicate AllDigits(s: string) { forall i :: 0 <= i < |s| ==> IsDigit(s[i]) }

  function DigitChar(d: nat): (c: char)
    requires d < 10
    ensures IsDigit(c)
  {
    (48 + d) as char
  }

  function DigitValue(c: char): (d: nat)
    requires IsDigit(c)
    ensures d < 10 && DigitChar(d) == c
  {
    c as int - 48
  }

  function Abs(x: real): (r: real)
    ensures r >= 0.0 && (r == x || r == -x)
  {
    if x < 0.0 then -x else x
  }

  /** Math.floor */
  function JsFloor(x: real): (r: int)
    ensures r as real <= x < r as real + 1.0
  {
    x.Floor
  }

  /** The integer part of z: z rounded toward zero. */
  function Truncate(z: real): (q: int)
    ensures z >= 0.0 ==> q as real <= z < q as real + 1.0
    ensures z < 0.0 ==> q as real - 1.0 < z <= q as real
  {
    if z >= 0.0 then z.Floor else -((-z).Floor)
  }

  /**
   * The `%` operator on numbers: x less the whole multiple of y that is the
   * integer part of x / y, so the remainder takes the sign of the dividend.
   */
  function JsRemainder(x: real, y: real): (r: real)
    requires y > 0.0
    ensures r == x - Truncate(x / y) as real * y
    ensures x >= 0.0 ==> 0.0 <= r < y
    ensures x < 0.0 ==> -y < r <= 0.0
  {
    if x >= 0.0 then FloorRemainder(x, y)
    else
      NegatedQuotient(x, y);
      -FloorRemainder(-x, y)
  }

  lemma NegatedQuotient(x: real, y: real)
    requires y > 0.0
    ensures -(x / y) == -x / y
  {
  }

  /** x - y * floor(x / y), which for x >= 0 is the truncating remainder too. */
  function FloorRemainder(x: real, y: real): (r: real)
    requires y > 0.0
    ensures 0.0 <= r < y
    ensures r == x - (x / y).Floor as real * y
  {
    var q := (x / y).Floor;
    var z := x / y;
    assert q as real <= z < q as real + 1.0;
    assert z * y == x;
    MulMonotone(q as real, z, y);
    var q1 := q as real + 1.0;
    MulMonotoneStrict(z, q1, y);
    assert x < q1 * y;
    assert q1 * y == q as real * y + y;
    x - q as real * y
  }

  lemma MulMonotone(a: real, b: real, c: real)
    requires a <= b && c > 0.0
    ensures a * c <= b * c
  {
  }

  lemma MulMonotoneStrict(a: real, b: real, c: real)
    requires a < b && c > 0.0
    ensures a * c < b * c
  {
  }


  /*
   * Powers of ten, kept as repeated multiplication or division by 10 so that every
   * step of a proof about them stays linear.
   */

  /** n * 10^k */
  function Shift(n: nat, k: nat): nat
  {
    if k == 0 then n else 10 * Shift(n, k - 1)
  }

  /** x * 10^k */
  function Scale(x: real, k: nat): real
  {
    if k == 0 then x else 10.0 * Scale(x, k - 1)
  }

  /** x / 10^k */
  function Unscale(x: real, k: nat): real
  {
    if k == 0 then x else Unscale(x, k - 1) / 10.0
  }

  lemma {:induction false} ShiftZero(k: nat)
    ensures Shift(0, k) == 0
  {
    if k > 0 {
      ShiftZero(k - 1);
    }
  }

  lemma {:induction false} ScaleNonnegative(x: real, k: nat)
    requires x >= 0.0
    ensures Scale(x, k) >= 0.0
  {
    if k > 0 {
      ScaleNonnegative(x, k - 1);
    }
  }

  lemma {:induction false} UnscaleAdd(a: real, b: real, k: nat)
    ensures Unscale(a + b, k) == Unscale(a, k) + Unscale(b, k)
  {
    if k > 0 {
      UnscaleAdd(a, b, k - 1);
    }
  }

  lemma {:induction false} UnscaleNegate(a: real, k: nat)
    ensures Unscale(-a, k) == -Unscale(a, k)
  {
    if k > 0 {
      UnscaleNegate(a, k - 1);
    }
  }

  lemma {:induction false} UnscaleMonotone(a: real, b: real, k: nat)
    requires a <= b
    ensures Unscale(a, k) <= Unscale(b, k)
  {
    if k > 0 {
      UnscaleMonotone(a, b, k - 1);
    }
  }

  lemma {:induction false} UnscaleTimesTen(x: real, k: nat)
    ensures Unscale(10.0 * x, k) == 10.0 * Unscale(x, k)
  {
    if k > 0 {
      UnscaleTimesTen(x, k - 1);
    }
  }

  lemma {:induction false} ScaleOverTen(x: real, k: nat)
    ensures Scale(x / 10.0, k) == Scale(x, k) / 10.0
  {
    if k > 0 {
      ScaleOverTen(x, k - 1);
    }
  }

  /** Dividing by 10^k undoes multiplying by 10^k. */
  lemma {:induction false} UnscaleScale(y: real, k: nat)
    ensures Unscale(Scale(y, k), k) == y
  {
    if k > 0 {
      UnscaleTimesTen(Scale(y, k - 1), k - 1);
      UnscaleScale(y, k - 1);
    }
  }

  /** Multiplying by 10^k undoes dividing by 10^k. */
  lemma {:induction false} ScaleUnscale(y: real, k: nat)
    ensures Scale(Unscale(y, k), k) == y
  {
    if k > 0 {
      ScaleOverTen(Unscale(y, k - 1), k - 1);
      ScaleUnscale(y, k - 1);
    }
  }

  lemma {:induction false} UnscaleShift(n: nat, k: nat)
    ensures Unscale(Shift(n, k) as real, k) == n as real
  {
    if k > 0 {
      UnscaleTimesTen(Shift(n, k - 1) as real, k - 1);
      UnscaleShift(n, k - 1);
    }
  }

  /** Three places: milliseconds to seconds and back. */
  lemma ScaleThree(x: real)
    ensures Scale(x, 3) == 1000.0 * x
    ensures Unscale(x, 3) == x / 1000.0
  {
    assert Scale(x, 1) == 10.0 * x;
    assert Unscale(x, 1) == x / 10.0;
    assert Scale(x, 2) == 100.0 * x;
    assert Unscale(x, 2) == x / 100.0;
  }

  /** The value of a string of decimal digits (leading zeros allowed; "" reads as 0). */
  function DigitsValue(s: string): nat
    requires AllDigits(s)
  {
    if s == [] then 0 else 10 * DigitsValue(s[..|s| - 1]) + DigitValue(s[|s| - 1])
  }

  /** `toString()` of a non-negative integer: its decimal numeral, without leading zeros. */
  function NatToString(n: nat): (s: string)
    ensures 1 <= |s| && AllDigits(s)
    ensures |s| > 1 ==> s[0] != '0'
    ensures DigitsValue(s) == n
  {
    if n < 10 then [DigitChar(n)]
    else
      var p := NatToString(n / 10);
      var s := p + [DigitChar(n % 10)];
      assert s[..|s| - 1] == p;
      s
  }

  /** `toString()` of an integer. */
  function IntToString(i: int): (s: string)
    ensures i >= 0 ==> s == NatToString(i)
    ensures i < 0 ==> s == "-" + NatToString(-i)
  {
    if i < 0 then "-" + NatToString(-i) else NatToString(i)
  }

  /** Digits written after a numeral multiply its value by 10 per digit and add their own. */
  lemma {:induction false} DigitsValueAppend(a: string, b: string)
    requires AllDigits(a) && AllDigits(b)
    ensures AllDigits(a + b)
    ensures DigitsValue(a + b) == Shift(DigitsValue(a), |b|) + DigitsValue(b)
  {
    if b == [] {
      assert a + b == a;
    } else {
      var b' := b[..|b| - 1];
      var ab := a + b;
      assert ab[..|ab| - 1] == a + b';
      assert ab[|ab| - 1] == b[|b| - 1];
      DigitsValueAppend(a, b');
    }
  }

  lemma {:induction false} ZerosValue(z: string)
    requires forall i :: 0 <= i < |z| ==> z[i] == '0'
    ensures AllDigits(z) && DigitsValue(z) == 0
  {
    if z != [] {
      ZerosValue(z[..|z| - 1]);
    }
  }

  /** `s.padStart(width, c)`: `c` repeated on the left up to `width` characters. */
  function PadStart(s: string, width: nat, c: char): (r: string)
    ensures |r| == if |s| < width then width else |s|
    ensures r[|r| - |s|..] == s
    ensures forall i :: 0 <= i < |r| - |s| ==> r[i] == c
  {
    if |s| >= width then s
    else
      var pad := seq(width - |s|, _ => c);
      assert (pad + s)[|pad|..] == s;
      pad + s
  }

  /** Zeros padded on the left of a numeral do not change its value. */
  lemma ZeroPadValue(s: string, width: nat)
    requires AllDigits(s)
    ensures AllDigits(PadStart(s, width, '0'))
    ensures DigitsValue(PadStart(s, width, '0')) == DigitsValue(s)
  {
    var r := PadStart(s, width, '0');
    var z := r[..|r| - |s|];
    assert r == z + s;
    ZerosValue(z);
    DigitsValueAppend(z, s);
    ShiftZero(|s|);
  }

  /** The integer nearest to x, the larger one on a tie: the rounding `toFixed` prescribes. */
  function RoundHalfUp(x: real): (n: int)
    ensures x - 0.5 < n as real <= x + 0.5
  {
    (x + 0.5).Floor
  }

  /** First index of `c` in `s`, as `indexOf` finds it. */
  function IndexOf(s: string, c: char): (r: Option<nat>)
    ensures r.None? ==> forall i :: 0 <= i < |s| ==> s[i] != c
    ensures r.Some? ==> r.value < |s| && s[r.value] == c && forall i :: 0 <= i < r.value ==> s[i] != c
  {
    if s == [] then None
    else if s[0] == c then Some(0)
    else match IndexOf(s[1..], c)
      case None => None
      case Some(i) => Some(i + 1)
  }

  /** `z` with a decimal point inserted before its last f characters. */
  function InsertPoint(z: string, f: nat): (s: string)
    requires f < |z|
    ensures |s| == |z| + 1 && s[|z| - f] == '.'
    ensures s[..|z| - f] == z[..|z| - f] && s[|z| - f + 1..] == z[|z| - f..]
  {
    z[..|z| - f] + "." + z[|z| - f..]
  }

  /**
   * The unsigned part of `toFixed(f)` once the scaled value has been rounded to
   * the integer n: the digits of n, zero-padded to at least f + 1 digits, with a
   * point before the last f of them.
   */
  function FixedDigits(n: nat, f: nat): (s: string)
    ensures f == 0 ==> s == NatToString(n)
    ensures |s| >= 1 && IsDigit(s[0])
  {
    var m := NatToString(n);
    if f == 0 then m
    else
      var z := PadStart(m, f + 1, '0');
      assert IsDigit(z[0]);
      InsertPoint(z, f)
  }

  /** The text FixedDigits produces has one point with exactly f digits after it. */
  lemma FixedDigitsShape(n: nat, f: nat)
    ensures FixedShape(FixedDigits(n, f), f)
  {
    if f > 0 {
      var m := NatToString(n);
      ZeroPadValue(m, f + 1);
      InsertPointShape(PadStart(m, f + 1, '0'), f);
    }
  }

  /** Digits with a point inserted before the last f of them have the shape of a `toFixed(f)` text. */
  lemma InsertPointShape(z: string, f: nat)
    requires AllDigits(z) && 0 < f < |z|
    ensures FixedShape(InsertPoint(z, f), f)
  {
    var s := InsertPoint(z, f);
    assert s[..|s| - f - 1] == z[..|z| - f];
    assert s[|s| - f..] == z[|z| - f..];
  }

  /**
   * The shape of the unsigned text of `toFixed(f)`: a numeral when f is 0, and
   * otherwise at least one digit, a single point, and exactly f digits after it.
   */
  predicate FixedShape(s: string, f: nat)
  {
    if f == 0 then s != [] && AllDigits(s)
    else
      && |s| >= f + 2
      && s[|s| - f - 1] == '.'
      && AllDigits(s[..|s| - f - 1])
      && AllDigits(s[|s| - f..])
  }

  /** Zeros padded in front keep the shape of a `toFixed` text, and its f decimals. */
  lemma ZeroPadShape(s: string, width: nat, f: nat)
    requires FixedShape(s, f)
    ensures FixedShape(PadStart(s, width, '0'), f)
  {
    var r := PadStart(s, width, '0');
    var z := r[..|r| - |s|];
    assert r == z + s;
    assert AllDigits(z);
    DigitsBeforeShape(z, s, f);
  }

  /** Digits written in front of a `toFixed` text keep its shape. */
  lemma DigitsBeforeShape(z: string, s: string, f: nat)
    requires AllDigits(z) && FixedShape(s, f)
    ensures FixedShape(z + s, f)
  {
    if f == 0 {
      DigitsAppend(z, s);
    } else {
      var n := |s| - f - 1;
      SplitAfterPrefix(z, s, n);
      SplitAfterPrefix(z, s, |s| - f);
      DigitsAppend(z, s[..n]);
    }
  }

  lemma DigitsAppend(a: string, b: string)
    requires AllDigits(a) && AllDigits(b)
    ensures AllDigits(a + b)
  {
  }

  /** Cutting z + s at |z| + n cuts s at n. */
  lemma SplitAfterPrefix(z: string, s: string, n: nat)
    requires n <= |s|
    ensures (z + s)[..|z| + n] == z + s[..n]
    ensures (z + s)[|z| + n..] == s[n..]
    ensures n < |s| ==> (z + s)[|z| + n] == s[n]
  {
  }

  /** The magnitude of x in units of 10^-f, rounded half up. */
  function ScaledRound(x: real, f: nat): (n: nat)
  {
    ScaleNonnegative(Abs(x), f);
    RoundHalfUp(Scale(Abs(x), f))
  }

  /** Number.prototype.toFixed(f), for values of magnitude below 10^21. */
  function ToFixed(x: real, f: nat): (s: string)
    ensures |s| >= 1
    ensures s[0] == '-' <==> x < 0.0
    ensures x >= 0.0 ==> IsDigit(s[0])
  {
    var d := FixedDigits(ScaledRound(x, f), f);
    if x < 0.0 then "-" + d else d
  }

  /**
   * The shape of `toFixed(f)`: after an optional "-", digits, and for f > 0 a
   * single point followed by exactly f digits.
   */
  lemma ToFixedShape(x: real, f: nat)
    ensures var s := ToFixed(x, f); FixedShape(if x < 0.0 then s[1..] else s, f)
  {
    var d := FixedDigits(ScaledRound(x, f), f);
    FixedDigitsShape(ScaledRound(x, f), f);
    assert ("-" + d)[1..] == d;
  }

  /**
   * Reads a non-negative decimal "ddd" or "ddd.ddd"; digits are required on both
   * sides of the point.
   */
  function ParseUnsigned(s: string): (r: Option<real>)
    ensures r.Some? ==> r.value >= 0.0
  {
    match IndexOf(s, '.')
    case None =>
      if s != [] && AllDigits(s) then Some(DigitsValue(s) as real) else None
    case Some(i) =>
      var a, b := s[..i], s[i + 1..];
      if a != [] && b != [] && AllDigits(a) && AllDigits(b)
      then
        UnscaleMonotone(0.0, DigitsValue(b) as real, |b|);
        UnscaleZero(|b|);
        Some(DigitsValue(a) as real + Unscale(DigitsValue(b) as real, |b|))
      else None
  }

  lemma {:induction false} UnscaleZero(k: nat)
    ensures Unscale(0.0, k) == 0.0
  {
    if k > 0 {
      UnscaleZero(k - 1);
    }
  }

  /** Reads an optionally negative decimal. */
  function ParseSigned(s: string): (r: Option<real>)
  {
    if |s| > 0 && s[0] == '-' then
      match ParseUnsigned(s[1..])
      case None => None
      case Some(v) => Some(-v)
    else ParseUnsigned(s)
  }

  lemma {:induction false} IndexOfDigits(a: string, c: char, b: string)
    requires AllDigits(a) && !IsDigit(c)
    ensures IndexOf(a + [c] + b, c) == Some(|a|)
  {
    if a != [] {
      assert (a + [c] + b)[1..] == a[1..] + [c] + b;
      IndexOfDigits(a[1..], c, b);
    }
  }

  /** A string with its first point at index |a| reads as a + b / 10^|b|. */
  lemma ParseAtPoint(s: string, a: string, b: string)
    requires a != [] && b != [] && AllDigits(a) && AllDigits(b)
    requires IndexOf(s, '.') == Some(|a|) && s[..|a|] == a && s[|a| + 1..] == b
    ensures ParseUnsigned(s) == Some(DigitsValue(a) as real + Unscale(DigitsValue(b) as real, |b|))
  {
  }

  /** "a.b" reads as a + b / 10^|b|. */
  lemma ParseWithPoint(a: string, b: string)
    requires a != [] && b != [] && AllDigits(a) && AllDigits(b)
    ensures ParseUnsigned(a + ['.'] + b) == Some(DigitsValue(a) as real + Unscale(DigitsValue(b) as real, |b|))
  {
    var s := a + ['.'] + b;
    assert s[..|a|] == a;
    assert s[|a| + 1..] == b;
    IndexOfDigits(a, '.', b);
    ParseAtPoint(s, a, b);
  }

  /** A plain numeral reads as its value. */
  lemma ParseNoPoint(s: string)
    requires s != [] && AllDigits(s)
    ensures ParseUnsigned(s) == Some(DigitsValue(s) as real)
  {
    assert IndexOf(s, '.') == None;
  }

  /** What a string that reads as a number looks like. */
  lemma ParseShape(s: string)
    requires ParseUnsigned(s).Some?
    ensures IndexOf(s, '.').None? ==> s != [] && AllDigits(s)
    ensures IndexOf(s, '.').Some? ==>
      var i := IndexOf(s, '.').value;
      && s == s[..i] + ['.'] + s[i + 1..]
      && s[..i] != [] && s[i + 1..] != [] && AllDigits(s[..i]) && AllDigits(s[i + 1..])
  {
    match IndexOf(s, '.')
    case None =>
    case Some(i) =>
      assert s == s[..i] + ['.'] + s[i + 1..];
  }

  lemma InsertPointParts(z: string, f: nat)
    requires AllDigits(z) && 0 < f < |z|
    ensures ParseUnsigned(InsertPoint(z, f))
         == Some(DigitsValue(z[..|z| - f]) as real + Unscale(DigitsValue(z[|z| - f..]) as real, f))
  {
    var a, b := z[..|z| - f], z[|z| - f..];
    ParseWithPoint(a, b);
    assert InsertPoint(z, f) == a + ['.'] + b;
  }

  lemma InsertPointArith(z: string, f: nat)
    requires AllDigits(z) && 0 < f < |z|
    ensures DigitsValue(z[..|z| - f]) as real + Unscale(DigitsValue(z[|z| - f..]) as real, f)
         == Unscale(DigitsValue(z) as real, f)
  {
    var a, b := z[..|z| - f], z[|z| - f..];
    assert z == a + b;
    DigitsValueAppend(a, b);
    var A, B := DigitsValue(a), DigitsValue(b);
    UnscaleAdd(Shift(A, f) as real, B as real, f);
    UnscaleShift(A, f);
  }

  /** Digits with a point inserted before the last f of them read as their value over 10^f. */
  lemma InsertPointValue(z: string, f: nat)
    requires AllDigits(z) && 0 < f < |z|
    ensures ParseUnsigned(InsertPoint(z, f)) == Some(Unscale(DigitsValue(z) as real, f))
  {
    InsertPointParts(z, f);
    InsertPointArith(z, f);
  }

  /** The text FixedDigits produces reads back as n / 10^f. */
  lemma FixedDigitsValue(n: nat, f: nat)
    ensures ParseUnsigned(FixedDigits(n, f)) == Some(Unscale(n as real, f))
  {
    var m := NatToString(n);
    if f == 0 {
      ParseNoPoint(m);
    } else {
      var z := PadStart(m, f + 1, '0');
      ZeroPadValue(m, f + 1);
      InsertPointValue(z, f);
    }
  }

  lemma ZeroPrefixValue(z: string, a: string)
    requires forall i :: 0 <= i < |z| ==> z[i] == '0'
    requires AllDigits(a)
    ensures AllDigits(z + a) && DigitsValue(z + a) == DigitsValue(a)
  {
    ZerosValue(z);
    DigitsValueAppend(z, a);
    ShiftZero(|a|);
  }

  /** Zeros written in front of a number's text do not change what it reads as. */
  lemma ZeroPrefixParse(z: string, s: string)
    requires forall i :: 0 <= i < |z| ==> z[i] == '0'
    requires ParseUnsigned(s).Some?
    ensures ParseUnsigned(z + s) == ParseUnsigned(s)
  {
    ParseShape(s);
    match IndexOf(s, '.')
    case None =>
      ZeroPrefixValue(z, s);
      ParseNoPoint(s);
      ParseNoPoint(z + s);
    case Some(i) =>
      var a, b := s[..i], s[i + 1..];
      ZeroPrefixValue(z, a);
      assert z + s == (z + a) + ['.'] + b;
      ParseWithPoint(a, b);
      ParseWithPoint(z + a, b);
  }

  /** `padStart(width, "0")` does not change what a number's text reads as. */
  lemma ZeroPadParse(s: string, width: nat)
    requires ParseUnsigned(s).Some?
    ensures ParseUnsigned(PadStart(s, width, '0')) == ParseUnsigned(s)
  {
    var r := PadStart(s, width, '0');
    var z := r[..|r| - |s|];
    assert r == z + s;
    ZeroPrefixParse(z, s);
  }

  /** A "-" in front negates what an unsigned number's text reads as. */
  lemma NegatedParse(d: string)
    requires |d| >= 1 && IsDigit(d[0]) && ParseUnsigned(d).Some?
    ensures ParseSigned("-" + d) == Some(-ParseUnsigned(d).value)
  {
    assert ("-" + d)[1..] == d;
  }

  /** Without a "-", the signed reading is the unsigned one. */
  lemma UnsignedParse(d: string)
    requires |d| >= 1 && IsDigit(d[0])
    ensures ParseSigned(d) == ParseUnsigned(d)
  {
  }

  /** Rounding y * 10^k to an integer n leaves n / 10^k within half a unit of y. */
  lemma RoundingError(y: real, k: nat, n: int)
    requires Scale(y, k) - 0.5 < n as real <= Scale(y, k) + 0.5
    ensures Abs(Unscale(n as real, k) - y) <= Unscale(0.5, k)
  {
    var s := Scale(y, k);
    UnscaleMonotone(n as real, s + 0.5, k);
    UnscaleMonotone(s + -0.5, n as real, k);
    UnscaleAdd(s, 0.5, k);
    UnscaleAdd(s, -0.5, k);
    UnscaleNegate(0.5, k);
    UnscaleScale(y, k);
  }

  /** The text `toFixed` gives reads back as the rounded scaled value, with x's sign. */
  lemma ToFixedReads(x: real, f: nat)
    ensures ParseSigned(ToFixed(x, f)) == Some(WithSign(x, Unscale(ScaledRound(x, f) as real, f)))
  {
    var n := ScaledRound(x, f);
    var d := FixedDigits(n, f);
    assert ToFixed(x, f) == if x < 0.0 then "-" + d else d;
    FixedDigitsValue(n, f);
    SignedParse(d, x, Unscale(n as real, f));
  }

  /** A digit string read back, with or without a leading "-". */
  lemma SignedParse(d: string, x: real, v: real)
    requires |d| >= 1 && IsDigit(d[0]) && ParseUnsigned(d) == Some(v)
    ensures ParseSigned(if x < 0.0 then "-" + d else d) == Some(WithSign(x, v))
  {
    if x < 0.0 {
      NegatedParse(d);
    } else {
      UnsignedParse(d);
    }
  }

  /**
   * What `toFixed` promises: the text reads back as a value within half a unit
   * of its last digit from x, and starts with "-" exactly when x is negative.
   */
  lemma ToFixedValue(x: real, f: nat)
    ensures ParseSigned(ToFixed(x, f)).Some?
    ensures Abs(ParseSigned(ToFixed(x, f)).value - x) <= Unscale(0.5, f)
  {
    var n := ScaledRound(x, f);
    var v := Unscale(n as real, f);
    ToFixedReads(x, f);
    ScaledRoundNear(x, f);
    ReadWithin(ToFixed(x, f), x, f, n, v);
  }

  /** A text that reads as x's rounded magnitude v = n / 10^f, with x's sign, is within half a unit of x. */
  lemma ReadWithin(t: string, x: real, f: nat, n: nat, v: real)
    requires Scale(Abs(x), f) - 0.5 < n as real <= Scale(Abs(x), f) + 0.5
    requires v == Unscale(n as real, f)
    requires ParseSigned(t) == Some(WithSign(x, v))
    ensures ParseSigned(t).Some?
    ensures Abs(ParseSigned(t).value - x) <= Unscale(0.5, f)
  {
    RoundingError(Abs(x), f, n);
    SignedError(x, v, ParseSigned(t).value);
  }

  lemma ScaledRoundNear(x: real, f: nat)
    ensures Scale(Abs(x), f) - 0.5 < ScaledRound(x, f) as real <= Scale(Abs(x), f) + 0.5
  {
  }

  /** The magnitude v with the sign of x. */
  function WithSign(x: real, v: real): real
  {
    if x < 0.0 then -v else v
  }

  /** Giving the magnitude v the sign of x keeps its distance to x equal to its distance to |x|. */
  lemma SignedError(x: real, v: real, p: real)
    requires p == WithSign(x, v)
    ensures Abs(p - x) == Abs(v - Abs(x))
  {
  }

  /** When x is a whole number of 10^-f units, `toFixed(f)` is exact. */
  lemma ToFixedExact(k: nat, f: nat)
    ensures ToFixed(Unscale(k as real, f), f) == FixedDigits(k, f)
    ensures ParseUnsigned(ToFixed(Unscale(k as real, f), f)) == Some(Unscale(k as real, f))
  {
    UnscaleMonotone(0.0, k as real, f);
    UnscaleZero(f);
    ScaleUnscale(k as real, f);
    assert ScaledRound(Unscale(k as real, f), f) == k;
    FixedDigitsValue(k, f);
  }
}
