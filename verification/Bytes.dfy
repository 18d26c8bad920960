/** Bytes, string literals, decimal digits and powers of ten. */
module Bytes {
  import opened Values

  type Byte = x: int | 0 <= x < 256

  const TAB: Byte := 9
  const NEWLINE: Byte := 10
  const RETURN: Byte := 13
  const SPACE: Byte := 32
  const QUOTE: Byte := 34
  const PLUS: Byte := 43
  const COMMA: Byte := 44
  const MINUS: Byte := 45
  const DOT: Byte := 46
  const ZERO: Byte := 48
  const COLON: Byte := 58
  const UPPER_E: Byte := 69
  const OPEN_BRACKET: Byte := 91
  const BACKSLASH: Byte := 92
  const CLOSE_BRACKET: Byte := 93
  const LOWER_E: Byte := 101
  const OPEN_BRACE: Byte := 123
  const CLOSE_BRACE: Byte := 125

  predicate IsDigit(b: Byte) {
    48 <= b <= 57
  }

  predicate AllDigits(s: seq<Byte>) {
    forall i | 0 <= i < |s| :: IsDigit(s[i])
  }

  predicate Is(s: seq<Byte>, i: nat, b: Byte) {
    i < |s| && s[i] == b
  }

  /** The index just past the quote that closes a string, if one does. */
  function StringClose(t: seq<Byte>, escaped: bool): (k: Option<nat>)
    ensures k.Some? ==> 1 <= k.value <= |t|
  {
    if t == [] then None
    else if !escaped && t[0] == QUOTE then Some(1)
    else
      var k := StringClose(t[1..], !escaped && t[0] == BACKSLASH);
      if k.Some? then Some(1 + k.value) else None
  }

  lemma Concat(a: seq<Byte>, b: seq<Byte>, c: seq<Byte>)
    ensures (a + b) + c == a + (b + c)
  {
  }

  function Pow10(k: nat): (p: nat)
    ensures p >= 1
  {
    if k == 0 then 1 else 10 * Pow10(k - 1)
  }

  /** The number a digit string denotes. */
  function Value(s: seq<Byte>): (v: nat)
    requires AllDigits(s)
  {
    if s == [] then 0 else 10 * Value(s[..|s| - 1]) + (s[|s| - 1] - 48)
  }

  lemma {:induction false} PowSum(a: nat, b: nat)
    ensures Pow10(a + b) == Pow10(a) * Pow10(b)
  {
    if a > 0 {
      PowSum(a - 1, b);
      assert Pow10(a + b) == 10 * Pow10(a - 1 + b);
      assert 10 * (Pow10(a - 1) * Pow10(b)) == (10 * Pow10(a - 1)) * Pow10(b);
    }
  }

  lemma PowGrows(a: nat, b: nat)
    requires a <= b
    ensures Pow10(a) <= Pow10(b)
  {
    PowSum(a, b - a);
    var x, y := Pow10(a), Pow10(b - a);
    assert x <= x * y by { TimesAtLeast(x, y); }
  }

  lemma TimesAtLeast(x: nat, y: nat)
    requires y >= 1
    ensures x <= x * y
  {
  }

  lemma {:induction false} ValueSplit(a: seq<Byte>, b: seq<Byte>)
    requires AllDigits(a) && AllDigits(b)
    ensures AllDigits(a + b) && Value(a + b) == Value(a) * Pow10(|b|) + Value(b)
  {
    if b == [] {
      assert a + b == a;
    } else {
      var n := |b| - 1;
      assert (a + b)[..|a + b| - 1] == a + b[..n];
      ValueSplit(a, b[..n]);
      assert (a + b)[|a + b| - 1] == b[n];
      Shift(Value(a), Pow10(n), Value(b[..n]), b[n] - 48);
    }
  }

  lemma Shift(x: nat, p: nat, y: nat, d: int)
    ensures 10 * (x * p + y) + d == x * (10 * p) + (10 * y + d)
  {
  }

  lemma {:induction false} ValueBelow(s: seq<Byte>)
    requires AllDigits(s)
    ensures Value(s) < Pow10(|s|)
  {
    if s != [] { ValueBelow(s[..|s| - 1]); }
  }

  /** A digit string is worth nothing exactly when every digit is zero. */
  lemma {:induction false} ValueZero(s: seq<Byte>)
    requires AllDigits(s)
    ensures Value(s) == 0 <==> forall i | 0 <= i < |s| :: s[i] == ZERO
  {
    if s != [] {
      var n := |s| - 1;
      ValueZero(s[..n]);
      if forall i | 0 <= i < |s| :: s[i] == ZERO {
        assert forall i | 0 <= i < n :: s[..n][i] == ZERO;
      }
      if Value(s) == 0 {
        assert forall i | 0 <= i < n :: s[..n][i] == s[i];
      }
    }
  }

  lemma ValueAtLeast(s: seq<Byte>)
    requires AllDigits(s) && s != [] && s[0] != ZERO
    ensures Value(s) >= Pow10(|s| - 1)
  {
    assert s == s[..1] + s[1..];
    ValueSplit(s[..1], s[1..]);
    assert Value(s[..1]) >= 1 by { assert s[..1][..0] == []; assert s[..1][0] == s[0]; }
    TimesAtLeast(Pow10(|s| - 1), Value(s[..1]));
  }

  /** Decimal spelling without leading zeros. */
  function Decimal(v: nat): (s: seq<Byte>)
    ensures s != [] && AllDigits(s)
  {
    if v < 10 then [48 + v] else Decimal(v / 10) + [48 + v % 10]
  }

  lemma {:induction false} DecimalValue(v: nat)
    ensures Value(Decimal(v)) == v
    ensures Decimal(v)[0] == ZERO <==> v == 0
    ensures v == 0 ==> |Decimal(v)| == 1
  {
    var s := Decimal(v);
    if v < 10 {
      assert s[..0] == [];
    } else {
      DecimalValue(v / 10);
      assert s[..|s| - 1] == Decimal(v / 10);
    }
  }

  lemma {:induction false} DecimalLength(v: nat, k: nat)
    requires v < Pow10(k) && k >= 1
    ensures |Decimal(v)| <= k
  {
    if v >= 10 { DecimalLength(v / 10, k - 1); }
  }
}
