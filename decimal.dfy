/** Fixed-point decimal text. Python's `'%.<n>f' % v` rendering of a finite
    float, the instrument's reading of such a command argument, and Python's
    `float(s)` applied to an instrument response. Reals stand for the exact
    values of IEEE doubles. */
module Decimal {
  import opened Wrappers
  import opened Text

  /** A fixed-point number with an implied count of fraction digits:
      its sign and its magnitude times 10^places. */
  datatype Fixed = Fixed(negative: bool, scaled: nat)

  function FixedValue(f: Fixed, places: nat): real
  {
    var m := f.scaled as real / Pow10(places) as real;
    if f.negative then -m else m
  }

  function Abs(x: real): real { if x < 0.0 then -x else x }

  /** The integer nearest to x, a tie going to the even neighbour, as CPython's
      correctly rounded float formatting does. */
  function RoundHalfEven(x: real): (n: nat)
    requires 0.0 <= x
    ensures Abs(n as real - x) <= 0.5
    ensures Abs(n as real - x) == 0.5 ==> n % 2 == 0
  {
    var f := x.Floor;
    var d := x - f as real;
    if d < 0.5 then f else if d > 0.5 then f + 1 else if f % 2 == 0 then f else f + 1
  }

  /** v rounded to `places` fraction digits: the number `'%.<places>f' % v` prints.
      The sign is that of v, so a small negative v keeps its minus sign. */
  function RoundToFixed(v: real, places: nat): (f: Fixed)
    ensures f.negative == (v < 0.0)
    ensures Abs(FixedValue(f, places) - v) <= 0.5 / Pow10(places) as real
  {
    var p := Pow10(places) as real;
    var n := RoundHalfEven(Abs(v) * p);
    RoundedFixed(v, places, p, n);
    Fixed(v < 0.0, n)
  }

  /** A magnitude within half a unit of |v| * 10^places, with the sign of v,
      is within half a unit in the last place of v. */
  lemma RoundedFixed(v: real, places: nat, p: real, n: nat)
    requires p == Pow10(places) as real
    requires Abs(n as real - Abs(v) * p) <= 0.5
    ensures Abs(FixedValue(Fixed(v < 0.0, n), places) - v) <= 0.5 / p
  {
    var m := n as real / p;
    assert FixedValue(Fixed(v < 0.0, n), places) == if v < 0.0 then -m else m;
    assert p >= 1.0 by { assert Pow10(places) >= 1; }
    RoundingError(Abs(v), p, n);
    SignedError(v, m, 0.5 / p);
  }

  lemma SignedError(v: real, m: real, e: real)
    requires Abs(m - Abs(v)) <= e
    ensures Abs((if v < 0.0 then -m else m) - v) <= e
  {
  }

  lemma RoundingError(a: real, p: real, n: nat)
    requires 0.0 <= a && p >= 1.0
    requires Abs(n as real - a * p) <= 0.5
    ensures Abs(n as real / p - a) <= 0.5 / p
  {
    var x := n as real - a * p;
    assert n as real / p - a == x / p;
    if x >= 0.0 {
      DivideMonotone(x, 0.5, p);
    } else {
      DivideMonotone(-x, 0.5, p);
      assert -x / p == -(x / p);
    }
  }

  lemma DivideMonotone(x: real, y: real, p: real)
    requires x <= y && p > 0.0
    ensures x / p <= y / p
  {
    assert y / p - x / p == (y - x) / p;
    assert (y - x) / p * p == y - x;
  }

  /** q divided by 10^places, rounding down. */
  function Shift(q: nat, places: nat): nat
  {
    if places == 0 then q else Shift(q / 10, places - 1)
  }

  /** The integer part and the last `places` digits make up q again. */
  lemma {:induction false} ShiftAndDigits(q: nat, places: nat)
    ensures Shift(q, places) * Pow10(places) + DigitsValue(FixedDigits(q, places)) == q
    decreases places
  {
    if places > 0 {
      ShiftAndDigits(q / 10, places - 1);
      FixedDigitsLast(q, places);
      RegroupDigit(Shift(q / 10, places - 1), DigitsValue(FixedDigits(q / 10, places - 1)), places, q);
    }
  }

  lemma FixedDigitsLast(q: nat, places: nat)
    requires places > 0
    ensures DigitsValue(FixedDigits(q, places)) == DigitsValue(FixedDigits(q / 10, places - 1)) * 10 + q % 10
  {
    var s := FixedDigits(q, places);
    assert s[..|s| - 1] == FixedDigits(q / 10, places - 1);
  }

  lemma RegroupDigit(h: nat, d: nat, places: nat, q: nat)
    requires places > 0
    requires h * Pow10(places - 1) + d == q / 10
    ensures h * Pow10(places) + (d * 10 + q % 10) == q
  {
    var p := Pow10(places - 1);
    assert Pow10(places) == 10 * p;
    assert h * (10 * p) == (h * p) * 10;
    assert (h * p + d) * 10 == (h * p) * 10 + d * 10;
  }

  /** The unsigned text of q / 10^places: the integer part without leading
      zeros and, when places > 0, a point and exactly `places` digits. */
  function MagnitudeText(q: nat, places: nat): string
  {
    NatToString(Shift(q, places)) + (if places == 0 then "" else "." + FixedDigits(q, places))
  }

  /** The text of a fixed-point number: an optional minus and its magnitude. */
  function RenderFixed(f: Fixed, places: nat): string
  {
    (if f.negative then "-" else "") + MagnitudeText(f.scaled, places)
  }

  /** Python's `'%.<places>f' % v` for a finite v. */
  function FormatFixed(v: real, places: nat): string
  {
    RenderFixed(RoundToFixed(v, places), places)
  }

  /** The instrument's reading of a fixed-point argument with `places` fraction digits. */
  function ParseFixed(s: string, places: nat): Option<Fixed>
  {
    var negative := s != [] && s[0] == '-';
    match ParseMagnitude(if negative then s[1..] else s, places)
    case None => None
    case Some(q) => Some(Fixed(negative, q))
  }

  /** Unsigned digits with, when places > 0, a point followed by exactly
      `places` digits; the result is the number all the digits form, the
      magnitude times 10^places. */
  function ParseMagnitude(s: string, places: nat): Option<nat>
  {
    if places == 0 then ParseNat(s)
    else
      var parts := Split(s, '.');
      if |parts| == 2 && |parts[1]| == places && ParseNat(parts[0]).Some? && ParseNat(parts[1]).Some? then
        ParseNat(parts[0] + parts[1])
      else None
  }

  /** Digits and points only: the characters of a magnitude. */
  predicate Unsigned(s: string)
  {
    forall i :: 0 <= i < |s| ==> IsDigit(s[i]) || s[i] == '.'
  }

  lemma UnsignedAppend(x: string, y: string)
    requires Unsigned(x) && Unsigned(y)
    ensures Unsigned(x + y)
  {
    forall i | 0 <= i < |x + y| ensures IsDigit((x + y)[i]) || (x + y)[i] == '.' {
      if i < |x| { assert (x + y)[i] == x[i]; } else { assert (x + y)[i] == y[i - |x|]; }
    }
  }

  lemma MagnitudeShape(q: nat, places: nat)
    ensures var m := MagnitudeText(q, places);
      Unsigned(m) && m != [] && IsDigit(m[0]) && IsDigit(m[|m| - 1])
  {
    var a := NatToString(Shift(q, places));
    if places > 0 {
      var b := FixedDigits(q, places);
      UnsignedAppend(".", b);
      UnsignedAppend(a, "." + b);
      assert MagnitudeText(q, places) == a + ("." + b);
      assert (a + ("." + b))[0] == a[0];
      assert (a + ("." + b))[|a + ("." + b)| - 1] == b[|b| - 1];
    } else {
      assert MagnitudeText(q, places) == a;
    }
  }

  /** With fraction digits, the magnitude splits at its point into the integer
      part and the fraction, and their digits make up q again. */
  lemma MagnitudeSplit(q: nat, places: nat)
    requires places > 0
    ensures var a, b := NatToString(Shift(q, places)), FixedDigits(q, places);
      && Split(MagnitudeText(q, places), '.') == [a, b]
      && AllDigits(a + b) && DigitsValue(a + b) == q
  {
    var a, b := NatToString(Shift(q, places)), FixedDigits(q, places);
    assert MagnitudeText(q, places) == Join([a, b], '.');
    assert '.' !in a by { assert forall i :: 0 <= i < |a| ==> IsDigit(a[i]); }
    assert '.' !in b by { assert forall i :: 0 <= i < |b| ==> IsDigit(b[i]); }
    SplitJoin([a, b], '.');
    NatToStringValue(Shift(q, places));
    ShiftAndDigits(q, places);
    DigitsValueConcat(a, b);
  }

  /** A rendered number is its sign followed by its magnitude, which starts with a digit. */
  lemma RenderFixedSign(f: Fixed, places: nat)
    ensures var s, m := RenderFixed(f, places), MagnitudeText(f.scaled, places);
      && s != [] && (s[0] == '-') == f.negative && s[0] != '+'
      && (if s[0] == '-' then s[1..] else s) == m
      && !IsSpace(s[0]) && !IsSpace(s[|s| - 1])
  {
    var m := MagnitudeText(f.scaled, places);
    var s := RenderFixed(f, places);
    MagnitudeShape(f.scaled, places);
    if f.negative {
      assert s == "-" + m;
      assert s[1..] == m;
      assert s[|s| - 1] == m[|m| - 1];
    } else {
      assert s == m;
    }
  }

  lemma ParseMagnitudeText(q: nat, places: nat)
    ensures ParseMagnitude(MagnitudeText(q, places), places) == Some(q)
  {
    if places == 0 {
      assert MagnitudeText(q, places) == NatToString(q);
      ParseNatToString(q);
    } else {
      MagnitudeSplit(q, places);
      var a, b := NatToString(Shift(q, places)), FixedDigits(q, places);
      assert ParseNat(a).Some? && ParseNat(b).Some?;
    }
  }

  /** Only digits, the point and the minus sign occur in a rendered number. */
  lemma RenderFixedAvoids(f: Fixed, places: nat, c: char)
    requires !IsDigit(c) && c != '.' && c != '-'
    ensures c !in RenderFixed(f, places)
  {
    var m := MagnitudeText(f.scaled, places);
    MagnitudeShape(f.scaled, places);
    assert c !in m;
    assert RenderFixed(f, places) == (if f.negative then "-" else "") + m;
  }

  /** The instrument reads back exactly the fixed-point number that was rendered. */
  lemma ParseRenderFixed(f: Fixed, places: nat)
    ensures ParseFixed(RenderFixed(f, places), places) == Some(f)
  {
    RenderFixedSign(f, places);
    ParseMagnitudeText(f.scaled, places);
  }

  // ---------------------------------------------------------------------------
  // Python's float() on a response

  /** The characters Python's float() strips from both ends of its argument. */
  predicate IsSpace(c: char)
  {
    var k := c as int;
    k == 0x20 || 0x09 <= k <= 0x0d || 0x1c <= k <= 0x1f || k == 0x85 || k == 0xa0
    || k == 0x1680 || 0x2000 <= k <= 0x200a || k == 0x2028 || k == 0x2029
    || k == 0x202f || k == 0x205f || k == 0x3000
  }

  function StripLeft(s: string): string
    decreases |s|
  {
    if s != [] && IsSpace(s[0]) then StripLeft(s[1..]) else s
  }

  function StripRight(s: string): string
    decreases |s|
  {
    if s != [] && IsSpace(s[|s| - 1]) then StripRight(s[..|s| - 1]) else s
  }

  function Strip(s: string): string
  {
    StripRight(StripLeft(s))
  }

  /** Index of the first exponent marker 'e' or 'E', or |s| when there is none. */
  function ExponentStart(s: string): (i: nat)
    ensures i <= |s|
    ensures forall j :: 0 <= j < i ==> s[j] != 'e' && s[j] != 'E'
    ensures i < |s| ==> s[i] == 'e' || s[i] == 'E'
    decreases |s|
  {
    if s == [] || s[0] == 'e' || s[0] == 'E' then 0 else 1 + ExponentStart(s[1..])
  }

  /** An optionally signed, non-empty digit string. */
  function ParseExponent(s: string): Option<int>
  {
    if s != [] && (s[0] == '+' || s[0] == '-') then
      match ParseNat(s[1..])
      case None => None
      case Some(n) => var x: int := n; Some(if s[0] == '-' then -x else x)
    else
      match ParseNat(s)
      case None => None
      case Some(n) => Some(n)
  }

  /** Digits with at most one point and at least one digit: the number formed by
      all the digits, and how many of them follow the point. */
  function ParseMantissa(s: string): Option<(nat, nat)>
  {
    var parts := Split(s, '.');
    if |parts| == 1 then
      match ParseNat(parts[0])
      case None => None
      case Some(n) => Some((n, 0))
    else if |parts| == 2 then
      match ParseNat(parts[0] + parts[1])
      case None => None
      case Some(n) => Some((n, |parts[1]|))
    else None
  }

  /** m times 10^z, one power of ten at a time. */
  function Scaled(m: nat, z: int): real
    decreases if z >= 0 then z else -z
  {
    if z == 0 then m as real
    else if z > 0 then Scaled(m, z - 1) * 10.0
    else Scaled(m, z + 1) / 10.0
  }

  /** A negative exponent divides by that power of ten. */
  lemma {:induction false} ScaledDown(m: nat, places: nat)
    ensures Scaled(m, 0 - places) == m as real / Pow10(places) as real
  {
    if places > 0 {
      ScaledDown(m, places - 1);
      var p := Pow10(places - 1) as real;
      assert Pow10(places) as real == p * 10.0;
      assert Scaled(m, 0 - places) == Scaled(m, 0 - (places - 1)) / 10.0;
      DivideTwice(m as real, p);
    }
  }

  lemma DivideTwice(x: real, p: real)
    requires p > 0.0
    ensures (x / p) / 10.0 == x / (p * 10.0)
  {
  }

  /** Python's `float(s)` for decimal numerals: whitespace at either end is
      dropped, then an optional sign, digits with an optional point, and an
      optional exponent. */
  function ParseFloat(s: string): Option<real>
    decreases |s|
  {
    if s != [] && IsSpace(s[0]) then ParseFloat(s[1..])
    else if s != [] && IsSpace(s[|s| - 1]) then ParseFloat(s[..|s| - 1])
    else ParseSigned(s)
  }

  /** An optional sign, then the unsigned number. */
  function ParseSigned(t: string): Option<real>
  {
    var signed := t != [] && (t[0] == '+' || t[0] == '-');
    match ParseUnsigned(if signed then t[1..] else t)
    case None => None
    case Some(v) => Some(if signed && t[0] == '-' then -v else v)
  }

  /** `float(s)` reads `s.strip()`. */
  lemma {:induction false} ParseFloatStrips(s: string)
    ensures ParseFloat(s) == ParseSigned(Strip(s))
    decreases |s|
  {
    if s != [] && IsSpace(s[0]) {
      ParseFloatStrips(s[1..]);
      assert StripLeft(s) == StripLeft(s[1..]);
    } else if s != [] && IsSpace(s[|s| - 1]) {
      var t := s[..|s| - 1];
      ParseFloatStrips(t);
      assert |s| >= 2 && t[0] == s[0];
      assert StripLeft(s) == s && StripLeft(t) == t;
      assert StripRight(s) == StripRight(t);
    } else {
      assert StripLeft(s) == s;
      assert StripRight(s) == s;
    }
  }

  /** A mantissa and an optional exponent, without sign or whitespace. */
  function ParseUnsigned(u: string): Option<real>
  {
    var e := ExponentStart(u);
    var exponent := if e < |u| then ParseExponent(u[e + 1..]) else Some(0);
    match (ParseMantissa(u[..e]), exponent)
    case (Some((m, k)), Some(x)) => Some(Scaled(m, x - k))
    case _ => None
  }

  lemma StripPlain(s: string)
    requires s != [] && !IsSpace(s[0]) && !IsSpace(s[|s| - 1])
    ensures Strip(s) == s
  {
  }

  lemma ExponentAbsent(s: string)
    requires Unsigned(s)
    ensures ExponentStart(s) == |s|
  {
  }

  /** The mantissa reading of a magnitude: all its digits, and the fraction's length. */
  lemma ParseMantissaMagnitude(q: nat, places: nat)
    ensures ParseMantissa(MagnitudeText(q, places)) == Some((q, places))
  {
    if places == 0 {
      var a := NatToString(q);
      assert MagnitudeText(q, places) == a;
      assert '.' !in a by { assert forall i :: 0 <= i < |a| ==> IsDigit(a[i]); }
      SplitWithoutSeparator(a, '.');
      ParseNatToString(q);
    } else {
      MagnitudeSplit(q, places);
      var a, b := NatToString(Shift(q, places)), FixedDigits(q, places);
      assert a + b != [];
    }
  }

  lemma ParseUnsignedMagnitude(q: nat, places: nat)
    ensures ParseUnsigned(MagnitudeText(q, places)) == Some(q as real / Pow10(places) as real)
  {
    var m := MagnitudeText(q, places);
    MagnitudeShape(q, places);
    ExponentAbsent(m);
    assert m[..|m|] == m;
    ParseMantissaMagnitude(q, places);
    ScaledDown(q, places);
  }

  lemma ParseFloatPlain(s: string, v: real)
    requires s != [] && !IsSpace(s[0]) && !IsSpace(s[|s| - 1]) && s[0] != '+'
    requires ParseUnsigned(if s[0] == '-' then s[1..] else s) == Some(v)
    ensures ParseFloat(s) == Some(if s[0] == '-' then -v else v)
  {
    ParseFloatTrimmed(s);
    ParseSignedPlain(s, v);
  }

  lemma ParseFloatTrimmed(s: string)
    requires s != [] && !IsSpace(s[0]) && !IsSpace(s[|s| - 1])
    ensures ParseFloat(s) == ParseSigned(s)
  {
  }

  lemma ParseSignedPlain(s: string, v: real)
    requires s != [] && s[0] != '+'
    requires ParseUnsigned(if s[0] == '-' then s[1..] else s) == Some(v)
    ensures ParseSigned(s) == Some(if s[0] == '-' then -v else v)
  {
  }

  /** A rendered fixed-point number parses, as a response field, to its value. */
  lemma ParseFloatRender(f: Fixed, places: nat)
    ensures ParseFloat(RenderFixed(f, places)) == Some(FixedValue(f, places))
  {
    var s := RenderFixed(f, places);
    var v := f.scaled as real / Pow10(places) as real;
    RenderFixedSign(f, places);
    ParseUnsignedMagnitude(f.scaled, places);
    assert ParseUnsigned(if s[0] == '-' then s[1..] else s) == Some(v);
    ParseFloatPlain(s, v);
    assert (if s[0] == '-' then -v else v) == FixedValue(f, places);
  }
  /** The CR LF that ends a response line does not reach the number. */
  lemma StripTerminated(s: string)
    requires s != [] && !IsSpace(s[0]) && !IsSpace(s[|s| - 1])
    ensures Strip(s + "\r\n") == s
  {
    var t := s + "\r\n";
    assert StripLeft(t) == t;
    assert t[..|t| - 1] == s + "\r";
    assert (s + "\r")[..|s|] == s;
    assert StripRight(t) == StripRight(s + "\r") == StripRight(s) == s;
  }

  /** A rendered number at the end of a response line parses to its value. */
  lemma ParseFloatRenderTerminated(f: Fixed, places: nat)
    ensures ParseFloat(RenderFixed(f, places) + "\r\n") == Some(FixedValue(f, places))
  {
    var s := RenderFixed(f, places);
    RenderFixedSign(f, places);
    StripTerminated(s);
    StripPlain(s);
    ParseFloatSeesStripped(s + "\r\n", s);
    ParseFloatRender(f, places);
  }

  lemma ParseFloatSeesStripped(s: string, t: string)
    requires Strip(s) == Strip(t)
    ensures ParseFloat(s) == ParseFloat(t)
  {
    ParseFloatStrips(s);
    ParseFloatStrips(t);
  }
}
