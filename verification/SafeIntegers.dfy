/**
 Exact conversion of number tokens to safe integers. The exponent may saturate, yet the answer is
 the exact decimal value on every token shorter than 2^62 bytes.
 */
module SafeIntegers {
  import opened Values
  import opened Bytes
  import opened DecimalTokens

  // ---------------------------------------------------------------- DecimalToken::parse

  function Parsed(t: seq<Byte>): Option<DecimalToken> {
    if Read(t).Some? then ReadSound(t); Some(TokenOf(Read(t).value)) else None
  }

  method SkipDigits(t: seq<Byte>, start: nat) returns (index: nat)
    requires start <= |t|
    ensures index == start + DigitRun(t[start..])
    ensures start <= index <= |t| && AllDigits(t[start..index])
  {
    index := start;
    while index < |t| && IsDigit(t[index])
      invariant start <= index <= |t| && AllDigits(t[start..index])
      invariant DigitRun(t[start..]) == index - start + DigitRun(t[index..])
    {
      assert t[index..][1..] == t[index + 1..];
      assert t[start..index + 1] == t[start..index] + [t[index]];
      index := index + 1;
    }
  }

  method ExponentDigits(t: seq<Byte>, start: nat) returns (index: nat, exponent: nat)
    requires start <= |t|
    ensures index == start + DigitRun(t[start..])
    ensures start <= index <= |t| && AllDigits(t[start..index]) && exponent == Saturated(t[start..index])
  {
    index, exponent := start, 0;
    while index < |t| && IsDigit(t[index])
      invariant start <= index <= |t| && AllDigits(t[start..index]) && exponent == Saturated(t[start..index])
      invariant DigitRun(t[start..]) == index - start + DigitRun(t[index..])
    {
      assert t[index..][1..] == t[index + 1..];
      assert t[start..index + 1] == t[start..index] + [t[index]];
      assert t[start..index + 1][..index - start] == t[start..index];
      exponent := SaturatingAdd(SaturatingMul10(exponent), t[index] - 48);
      index := index + 1;
    }
  }

  /** The exponent of a token from `i` to its end. */
  method ParseExponent(t: seq<Byte>, i: nat) returns (ok: bool, exponent: int)
    requires i <= |t|
    ensures ok == ReadExponent(t[i..]).Some?
    ensures ok ==> ExponentOk(ReadExponent(t[i..]).value) && exponent == TokenExponent(ReadExponent(t[i..]).value)
  {
    hide DigitRun, Saturated, AllDigits;
    ghost var rest := t[i..];
    if i == |t| { return true, 0; }
    if t[i] != LOWER_E && t[i] != UPPER_E { return false, 0; }
    ghost var after := rest[1..];
    assert after == t[i + 1..];
    SignSpelled(after);
    var index := i + 1;
    var negative := Is(t, index, MINUS);
    if Is(t, index, PLUS) || Is(t, index, MINUS) {
      index := index + 1;
    }
    var start := index;
    ghost var digits := after[|SpellSign(SignOf(after))|..];
    assert digits == t[start..];
    index, exponent := ExponentDigits(t, start);
    if ReadExponent(rest).Some? { ReadExponentSound(rest); }
    if start == index || index != |t| { return false, 0; }
    assert t[start..index] == digits;
    ok := true;
    if negative { exponent := 0 - exponent; }
  }

  /** The end of the whole digits, `None` where the grammar has none. */
  method ParseWhole(t: seq<Byte>, start: nat) returns (end: Option<nat>)
    requires start <= |t|
    ensures end.None? <==> WholeRun(t[start..]) == 0
    ensures end.Some? ==> end.value == start + WholeRun(t[start..]) && end.value <= |t|
  {
    hide DigitRun;
    NoWhole(t[start..]);
    if Is(t, start, ZERO) { return Some(start + 1); }
    if !(start < |t| && 49 <= t[start] <= 57) { return None; }
    var index := SkipDigits(t, start);
    end := Some(index);
  }

  lemma NoWhole(body: seq<Byte>)
    ensures WholeRun(body) == 0 <==> body == [] || !IsDigit(body[0])
    ensures body != [] && body[0] != ZERO ==> WholeRun(body) == DigitRun(body)
  {
  }

  /** The fraction digits and exponent of a token from `i` to its end. */
  method ParseTail(t: seq<Byte>, i: nat) returns (ok: bool, fraction: seq<Byte>, exponent: int)
    requires i <= |t|
    ensures ok == ReadTail(t[i..]).Some?
    ensures ok ==> var tail := ReadTail(t[i..]).value;
                   && ExponentOk(tail.1) && exponent == TokenExponent(tail.1)
                   && fraction == (if tail.0.Some? then tail.0.value else [])
  {
    hide ReadExponent, DigitRun, TokenExponent, ExponentOk;
    ghost var tail := t[i..];
    var index := i;
    fraction := [];
    if Is(t, index, DOT) {
      index := index + 1;
      var start := index;
      index := SkipDigits(t, start);
      assert tail[1..] == t[start..];
      if start == index { return false, [], 0; }
      assert tail[1..][..index - start] == t[start..index];
      assert tail[1..][index - start..] == t[index..];
      fraction := t[start..index];
    }
    ok, exponent := ParseExponent(t, index);
  }

  /** `DecimalToken::parse`. */
  method Parse(token: seq<Byte>) returns (r: Option<DecimalToken>)
    ensures r == Parsed(token)
  {
    hide ReadTail, WholeRun, TokenExponent, Spell, WellFormed;
    var negative := Is(token, 0, MINUS);
    var start := if negative then 1 else 0;
    ghost var body := token[start..];
    assert body == if negative then token[1..] else token;
    var whole := ParseWhole(token, start);
    if whole.None? { return None; }
    var index := whole.value;
    assert body[..index - start] == token[start..index];
    assert body[index - start..] == token[index..];
    var ok, fraction, exponent := ParseTail(token, index);
    if !ok { return None; }
    r := Some(DecimalToken(negative, token[start..index] + fraction, |fraction|, exponent));
    ReadSound(token);
  }

  // ---------------------------------------------------------------- DecimalToken::safe_integer

  function Saturate(x: int): int {
    if x > I64_MAX then I64_MAX else if x < I64_MIN then I64_MIN else x
  }

  predicate TokenOk(d: DecimalToken) {
    && AllDigits(d.digits) && 0 <= d.fraction <= I64_MAX && -I64_MAX <= d.exponent <= I64_MAX
    && |d.digits| <= I64_MAX
  }

  function LeadingZeros(s: seq<Byte>): (k: nat)
    ensures k <= |s| && (k < |s| ==> s[k] != ZERO) && forall i | 0 <= i < k :: s[i] == ZERO
  {
    if s != [] && s[0] == ZERO then 1 + LeadingZeros(s[1..]) else 0
  }

  function ScaleOf(d: DecimalToken): int {
    Saturate(d.exponent - d.fraction)
  }

  /** The digits that remain after a negative scale is cut off, if only zeros are lost. */
  function Kept(digits: seq<Byte>, scale: int): Option<seq<Byte>>
    requires 1 <= |digits| + scale
  {
    if scale >= 0 then Some(digits)
    else if exists i :: |digits| + scale <= i < |digits| && digits[i] != ZERO then None
    else Some(digits[..|digits| + scale])
  }

  function Safe(d: DecimalToken): (r: Option<nat>)
    requires TokenOk(d)
  {
    var first := LeadingZeros(d.digits);
    if first == |d.digits| then Some(0)
    else if d.negative then None
    else
      var digits, scale := d.digits[first..], ScaleOf(d);
      if !(1 <= |digits| + scale <= 16) then None
      else
        var kept := Kept(digits, scale);
        if kept.None? then None
        else
          assert AllDigits(kept.value);
          var value := Value(kept.value) * Pow10(if scale > 0 then scale else 0);
          if value <= MAX_SAFE_INTEGER then Some(value) else None
  }

  method FirstNonZero(digits: seq<Byte>) returns (first: nat)
    ensures first == LeadingZeros(digits)
  {
    first := 0;
    while first < |digits| && digits[first] == ZERO
      invariant first <= |digits| && LeadingZeros(digits) == first + LeadingZeros(digits[first..])
    {
      assert digits[first..][1..] == digits[first + 1..];
      first := first + 1;
    }
  }

  /** Any digit other than zero from `from` on. */
  method AnyNonZero(digits: seq<Byte>, from: nat) returns (found: bool)
    requires from <= |digits|
    ensures found <==> exists i :: from <= i < |digits| && digits[i] != ZERO
  {
    found := false;
    for i := from to |digits|
      invariant !found && forall j | from <= j < i :: digits[j] == ZERO
    {
      if digits[i] != ZERO { return true; }
    }
  }

  lemma Pow16()
    ensures Pow10(16) == 10_000_000_000_000_000
  {
    assert Pow10(2) == 100;
    PowSum(2, 2);
    PowSum(4, 4);
    PowSum(8, 8);
  }

  method Accumulate(kept: seq<Byte>) returns (value: Option<nat>)
    requires AllDigits(kept) && |kept| <= 16
    ensures value == Some(Value(kept))
  {
    Pow16();
    var v: nat := 0;
    for i := 0 to |kept|
      invariant AllDigits(kept[..i]) && v == Value(kept[..i])
    {
      assert kept[..i + 1][..i] == kept[..i];
      ValueBelow(kept[..i]);
      PowGrows(i, 16);
      if v * 10 > U64_MAX { return None; }
      v := v * 10;
      if v + (kept[i] - 48) > U64_MAX { return None; }
      v := v + (kept[i] - 48);
    }
    assert kept[..|kept|] == kept;
    value := Some(v);
  }

  /** The scaling loop runs `scale` times, at most fifteen, and its checked multiplication never fails. */
  method Multiply(value: nat, digits: nat, scale: nat) returns (r: Option<nat>)
    requires 1 <= digits && digits + scale <= 16 && value < Pow10(digits)
    ensures r == Some(value * Pow10(scale)) && scale <= 15
  {
    hide Pow10;
    assert Pow10(0) == 1 by { PowZero(); }
    Pow16();
    var v := value;
    for i := 0 to scale
      invariant v == value * Pow10(i) && v < Pow10(digits + i)
    {
      PowGrows(digits + i, 16);
      assert v < 10_000_000_000_000_000;
      if 10 * v > U64_MAX { return None; }
      Regroup(value, Pow10(i));
      PowStep(i);
      PowStep(digits + i);
      v := 10 * v;
    }
    r := Some(v);
  }

  lemma Regroup(a: nat, p: nat)
    ensures 10 * (a * p) == a * (10 * p)
  {
  }

  lemma PowZero()
    ensures Pow10(0) == 1
  {
  }

  lemma PowStep(i: nat)
    ensures Pow10(i + 1) == 10 * Pow10(i)
  {
  }

  /** `DecimalToken::safe_integer`: no checked operation fails on the way. */
  method SafeInteger(d: DecimalToken) returns (r: Option<nat>)
    requires TokenOk(d)
    ensures r == Safe(d)
  {
    hide Value, Pow10, LeadingZeros;
    var first := FirstNonZero(d.digits);
    if first == |d.digits| { return Some(0); }
    if d.negative { return None; }
    var scale := ScaleOf(d);
    var digits := d.digits[first..];
    var length := Saturate(|digits| + scale);
    if !(1 <= length <= 16) { return None; }
    var kept := digits;
    if scale < 0 {
      var removed := 0 - scale;
      if removed > |digits| { return None; }
      var any := AnyNonZero(digits, |digits| - removed);
      if any { return None; }
      kept := digits[..|digits| - removed];
    }
    var value := Accumulate(kept);
    if value.None? { return None; }
    ValueBelow(kept);
    var scaled := Multiply(value.value, |kept|, if scale > 0 then scale else 0);
    if scaled.None? { return None; }
    r := if scaled.value <= MAX_SAFE_INTEGER then Some(scaled.value) else None;
  }
}
