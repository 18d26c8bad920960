/** Safe-integer conversion returns the exact decimal value, and returns it whenever there is one. */
module ExactIntegers {
  import opened Values
  import opened Bytes
  import opened DecimalTokens
  import opened SafeIntegers

  /** `v` is exactly `d` scaled by the power of ten. */
  ghost predicate Scaled(d: int, scale: int, v: int) {
    if scale >= 0 then v == d * Pow10(scale) else v * Pow10(-scale) == d
  }

  const LONGEST: nat := 0x4000_0000_0000_0000

  // ---------------------------------------------------------------- magnitudes

  lemma MulGrows(a: int, b: int, p: nat)
    requires a <= b
    ensures a * p <= b * p
  {
  }

  lemma MulSign(v: int, p: nat)
    requires p >= 1
    ensures (v * p == 0 <==> v == 0) && (v * p < 0 <==> v < 0)
  {
  }

  /** Fewer than one whole digit: no nonnegative integer has this value. */
  lemma TooSmall(d: nat, length: nat, scale: int, v: int)
    requires 0 < d < Pow10(length) && length + scale < 1
    ensures !Scaled(d, scale, v) || v < 0
  {
    if scale < 0 && v >= 0 && v * Pow10(-scale) == d {
      PowGrows(length, -scale);
      MulSign(v, Pow10(-scale));
      MulGrows(1, v, Pow10(-scale));
    }
  }

  /** More than sixteen whole digits: the value is beyond every safe integer. */
  lemma TooLarge(d: nat, length: nat, scale: int, v: int)
    requires 1 <= length && Pow10(length - 1) <= d && length + scale > 16 && Scaled(d, scale, v)
    ensures v > MAX_SAFE_INTEGER
  {
    Pow16();
    PowGrows(16, length + scale - 1);
    if scale >= 0 {
      PowSum(length - 1, scale);
      MulGrows(Pow10(length - 1), d, Pow10(scale));
    } else {
      PowSum(length + scale - 1, -scale);
      if v < Pow10(length + scale - 1) {
        MulGrows(v, Pow10(length + scale - 1) - 1, Pow10(-scale));
      }
    }
  }

  /** With a negative scale the value is an integer exactly when only zeros are cut off. */
  lemma CutOff(digits: seq<Byte>, scale: int, v: int)
    requires AllDigits(digits) && scale < 0 && 1 <= |digits| + scale
    ensures AllDigits(digits[..|digits| + scale])
    ensures Scaled(Value(digits), scale, v) <==>
            (forall i | |digits| + scale <= i < |digits| :: digits[i] == ZERO) && v == Value(digits[..|digits| + scale])
  {
    hide Value, Pow10;
    var k := |digits| + scale;
    var high, low := digits[..k], digits[k..];
    assert digits == high + low;
    ValueSplit(high, low);
    ValueBelow(low);
    ZerosFrom(digits, k);
    hide AllDigits;
    Remainder(v, Value(high), Value(low), Pow10(-scale));
  }

  lemma ZerosFrom(digits: seq<Byte>, k: nat)
    requires AllDigits(digits) && k <= |digits|
    ensures AllDigits(digits[k..])
    ensures Value(digits[k..]) == 0 <==> forall i | k <= i < |digits| :: digits[i] == ZERO
  {
    hide Value;
    var low := digits[k..];
    ValueZero(low);
    assert forall i | 0 <= i < |low| :: low[i] == digits[k + i];
    assert forall i | k <= i < |digits| :: digits[i] == low[i - k];
  }

  lemma Remainder(v: int, h: nat, l: nat, p: nat)
    requires l < p
    ensures v * p == h * p + l <==> l == 0 && v == h
  {
    if v * p == h * p + l {
      if v > h { MulGrows(h + 1, v, p); }
      if v < h { MulGrows(v + 1, h, p); }
    }
  }

  // ---------------------------------------------------------------- leading zeros and saturation

  lemma ZerosWorthless(zeros: seq<Byte>, rest: seq<Byte>)
    requires AllDigits(rest) && forall i | 0 <= i < |zeros| :: zeros[i] == ZERO
    ensures AllDigits(zeros + rest) && Value(zeros + rest) == Value(rest)
  {
    assert AllDigits(zeros);
    ValueSplit(zeros, rest);
    ValueZero(zeros);
    hide Value, Pow10, AllDigits;
    assert 0 * Pow10(|rest|) == 0;
  }

  lemma NoDigits()
    ensures AllDigits([]) && Value([]) == 0
  {
  }

  lemma LeadingZerosWorthless(s: seq<Byte>)
    requires AllDigits(s)
    ensures AllDigits(s[LeadingZeros(s)..]) && Value(s) == Value(s[LeadingZeros(s)..])
    ensures LeadingZeros(s) == |s| <==> Value(s) == 0
    ensures LeadingZeros(s) < |s| ==>
              Pow10(|s| - LeadingZeros(s) - 1) <= Value(s) < Pow10(|s| - LeadingZeros(s))
  {
    var k := LeadingZeros(s);
    var a, b := s[..k], s[k..];
    assert s == a + b;
    ZerosWorthless(a, b);
    hide Value, Pow10, AllDigits;
    if b == [] {
      assert Value(b) == 0 by { NoDigits(); }
    } else {
      ValueAtLeast(b);
      ValueBelow(b);
    }
  }

  /** Saturating the exponent never moves a token across the bounds on its whole digits. */
  lemma SaturationHarmless(n: Parts, length: nat)
    requires WellFormed(n) && |Spell(n)| < LONGEST && 1 <= length <= |Digits(n)|
    ensures TokenOk(TokenOf(n))
    ensures 1 <= length + ScaleOf(TokenOf(n)) <= 16 <==> 1 <= length + Scale(n) <= 16
    ensures 1 <= length + Scale(n) <= 16 ==> ScaleOf(TokenOf(n)) == Scale(n)
  {
    DigitsOk(n);
    if n.exponent.Some? { SaturatedIsClipped(n.exponent.value.digits); }
    assert |Digits(n)| <= |Spell(n)|;
    assert FractionLength(n) <= |Spell(n)|;
    hide Value, Saturated, Spell, Digits, AllDigits;
  }

  lemma TokenBounds(n: Parts)
    requires WellFormed(n) && |Spell(n)| < LONGEST
    ensures TokenOk(TokenOf(n))
  {
    DigitsOk(n);
    SaturationHarmless(n, 1);
  }

  // ---------------------------------------------------------------- main result

  lemma Zero(n: Parts, v: int)
    requires WellFormed(n) && Signed(n) == 0
    ensures Denotes(n, v) <==> v == 0
  {
    hide Signed, Scale;
    if Scale(n) < 0 { MulSign(v, Pow10(-Scale(n))); }
  }

  lemma NegativeValue(n: Parts, v: int)
    requires WellFormed(n) && Signed(n) < 0 && Denotes(n, v)
    ensures v < 0
  {
    hide Signed, Scale;
    if Scale(n) >= 0 { MulSign(Signed(n), Pow10(Scale(n))); } else { MulSign(v, Pow10(-Scale(n))); }
  }

  /** The kept digits, scaled, are the value; without kept digits there is none. */
  lemma KeptValue(digits: seq<Byte>, scale: int, v: int)
    requires AllDigits(digits) && 1 <= |digits| + scale
    ensures Kept(digits, scale).Some? ==> AllDigits(Kept(digits, scale).value)
    ensures Scaled(Value(digits), scale, v) <==>
            && Kept(digits, scale).Some?
            && v == Value(Kept(digits, scale).value) * Pow10(if scale > 0 then scale else 0)
  {
    if scale < 0 { CutOff(digits, scale, v); }
  }

  /** The positive case: the scaled digits are the value whenever it is a safe integer. */
  lemma PositiveExact(d: DecimalToken, digits: seq<Byte>, scale: int, v: int)
    requires TokenOk(d) && !d.negative && LeadingZeros(d.digits) < |d.digits| && digits == d.digits[LeadingZeros(d.digits)..]
    requires AllDigits(digits) && Pow10(|digits| - 1) <= Value(digits) < Pow10(|digits|)
    requires 1 <= |digits| + ScaleOf(d) <= 16 <==> 1 <= |digits| + scale <= 16
    requires 1 <= |digits| + scale <= 16 ==> ScaleOf(d) == scale
    ensures Safe(d) == Some(v) <==> 0 <= v <= MAX_SAFE_INTEGER && Scaled(Value(digits), scale, v)
  {
    hide Value, LeadingZeros, Pow10, Scaled, AllDigits, ScaleOf, Kept;
    if 1 <= |digits| + scale <= 16 {
      KeptValue(digits, scale, v);
    } else if |digits| + scale < 1 {
      TooSmall(Value(digits), |digits|, scale, v);
    } else if Scaled(Value(digits), scale, v) {
      TooLarge(Value(digits), |digits|, scale, v);
    }
  }

  lemma SafeZero(d: DecimalToken)
    requires TokenOk(d)
    ensures LeadingZeros(d.digits) == |d.digits| ==> Safe(d) == Some(0)
    ensures LeadingZeros(d.digits) < |d.digits| && d.negative ==> Safe(d).None?
  {
    hide LeadingZeros, Kept, Value, Pow10;
  }

  /** `safe_integer` answers `v` exactly when the token's exact decimal value is the integer `v`
      between 0 and 2^53 - 1, for every number token shorter than 2^62 bytes. */
  lemma SafeExact(n: Parts, v: int)
    requires WellFormed(n) && |Spell(n)| < LONGEST
    ensures TokenOk(TokenOf(n))
    ensures Safe(TokenOf(n)) == Some(v) <==> 0 <= v <= MAX_SAFE_INTEGER && Denotes(n, v)
  {
    hide Safe, Value, Pow10, LeadingZeros, Scale, ScaleOf, WellFormed, TokenExponent, Spell, Digits, TokenOk;
    TokenBounds(n);
    DigitsOk(n);
    var d := TokenOf(n);
    var first := LeadingZeros(d.digits);
    LeadingZerosWorthless(d.digits);
    SafeZero(d);
    if first == |d.digits| {
      Zero(n, v);
    } else if n.negative {
      if Denotes(n, v) { NegativeValue(n, v); }
    } else {
      var digits := d.digits[first..];
      SaturationHarmless(n, |digits|);
      PositiveExact(d, digits, Scale(n), v);
    }
  }
}
