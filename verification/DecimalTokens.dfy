/**
 Number tokens: the grammar of section 6 of RFC 8259, the lexical parser with its saturating
 exponent, and the parser's exactness on every token.
 */
module DecimalTokens {
  import opened Values
  import opened Bytes

  // ---------------------------------------------------------------- the grammar

  datatype Sign = Unsigned | Plus | Minus

  datatype Exponent = Exponent(upper: bool, sign: Sign, digits: seq<Byte>)

  datatype Parts = Parts(negative: bool, whole: seq<Byte>, fraction: Option<seq<Byte>>, exponent: Option<Exponent>)

  predicate WellFormed(n: Parts) {
    && n.whole != [] && AllDigits(n.whole) && (n.whole[0] == ZERO ==> |n.whole| == 1)
    && (n.fraction.Some? ==> n.fraction.value != [] && AllDigits(n.fraction.value))
    && (n.exponent.Some? ==> n.exponent.value.digits != [] && AllDigits(n.exponent.value.digits))
  }

  function SpellSign(s: Sign): seq<Byte> {
    match s
    case Unsigned => []
    case Plus => [PLUS]
    case Minus => [MINUS]
  }

  function SpellFraction(f: Option<seq<Byte>>): seq<Byte> {
    if f.Some? then [DOT] + f.value else []
  }

  function SpellExponent(e: Option<Exponent>): seq<Byte> {
    if e.Some? then [if e.value.upper then UPPER_E else LOWER_E] + SpellSign(e.value.sign) + e.value.digits else []
  }

  function Spell(n: Parts): seq<Byte> {
    (if n.negative then [MINUS] else []) + (n.whole + (SpellFraction(n.fraction) + SpellExponent(n.exponent)))
  }

  // ---------------------------------------------------------------- the value

  function Digits(n: Parts): seq<Byte> {
    n.whole + if n.fraction.Some? then n.fraction.value else []
  }

  function FractionLength(n: Parts): nat {
    if n.fraction.Some? then |n.fraction.value| else 0
  }

  function ExponentValue(e: Option<Exponent>): int
    requires e.Some? ==> AllDigits(e.value.digits)
  {
    if e.None? then 0 else if e.value.sign == Minus then 0 - Value(e.value.digits) else Value(e.value.digits)
  }

  lemma DigitsOk(n: Parts)
    requires WellFormed(n)
    ensures AllDigits(Digits(n)) && Digits(n) != []
  {
  }

  /** The power of ten by which the digits are scaled. */
  function Scale(n: Parts): int
    requires WellFormed(n)
  {
    ExponentValue(n.exponent) - FractionLength(n)
  }

  function Signed(n: Parts): int
    requires WellFormed(n)
  {
    DigitsOk(n);
    if n.negative then 0 - Value(Digits(n)) else Value(Digits(n))
  }

  /** The exact decimal value is the integer `v`. */
  ghost predicate Denotes(n: Parts, v: int)
    requires WellFormed(n)
  {
    if Scale(n) >= 0 then v == Signed(n) * Pow10(Scale(n)) else v * Pow10(-Scale(n)) == Signed(n)
  }

  // ---------------------------------------------------------------- the parser's result

  datatype DecimalToken = DecimalToken(negative: bool, digits: seq<Byte>, fraction: int, exponent: int)

  function SaturatingMul10(a: nat): nat {
    if 10 * a > I64_MAX then I64_MAX else 10 * a
  }

  function SaturatingAdd(a: nat, b: nat): nat {
    if a + b > I64_MAX then I64_MAX else a + b
  }

  function Saturated(digits: seq<Byte>): nat
    requires AllDigits(digits)
  {
    if digits == [] then 0
    else SaturatingAdd(SaturatingMul10(Saturated(digits[..|digits| - 1])), digits[|digits| - 1] - 48)
  }

  /** A saturated exponent is the exponent clipped at the largest signed 64-bit integer. */
  lemma {:induction false} SaturatedIsClipped(digits: seq<Byte>)
    requires AllDigits(digits)
    ensures Saturated(digits) == if Value(digits) > I64_MAX then I64_MAX else Value(digits)
  {
    if digits != [] { SaturatedIsClipped(digits[..|digits| - 1]); }
  }

  function TokenExponent(e: Option<Exponent>): int
    requires e.Some? ==> AllDigits(e.value.digits)
  {
    if e.None? then 0 else if e.value.sign == Minus then 0 - Saturated(e.value.digits) else Saturated(e.value.digits)
  }

  function TokenOf(n: Parts): DecimalToken
    requires WellFormed(n)
  {
    DecimalToken(n.negative, Digits(n), FractionLength(n), TokenExponent(n.exponent))
  }

  // ---------------------------------------------------------------- reading a token

  /** The length of the leading run of digits. */
  function DigitRun(t: seq<Byte>): (k: nat)
    ensures k <= |t|
  {
    if t != [] && IsDigit(t[0]) then 1 + DigitRun(t[1..]) else 0
  }

  lemma {:induction false} DigitRunIs(d: seq<Byte>, rest: seq<Byte>)
    requires AllDigits(d) && (rest != [] ==> !IsDigit(rest[0]))
    ensures DigitRun(d + rest) == |d|
  {
    if d == [] {
      assert d + rest == rest;
    } else {
      assert (d + rest)[1..] == d[1..] + rest;
      DigitRunIs(d[1..], rest);
    }
  }

  lemma {:induction false} DigitRunDigits(t: seq<Byte>)
    ensures AllDigits(t[..DigitRun(t)])
    ensures DigitRun(t) < |t| ==> !IsDigit(t[DigitRun(t)])
  {
    if t != [] && IsDigit(t[0]) {
      DigitRunDigits(t[1..]);
      assert t[..DigitRun(t)] == [t[0]] + t[1..][..DigitRun(t[1..])];
    }
  }

  function SignOf(t: seq<Byte>): Sign {
    if Is(t, 0, PLUS) then Plus else if Is(t, 0, MINUS) then Minus else Unsigned
  }

  lemma SignSpelled(t: seq<Byte>)
    ensures |SpellSign(SignOf(t))| <= |t| && t == SpellSign(SignOf(t)) + t[|SpellSign(SignOf(t))|..]
  {
  }

  /** The rest of a token after its digits: nothing, or an exponent to the end. */
  function ReadExponent(t: seq<Byte>): (r: Option<Option<Exponent>>)
  {
    if t == [] then Some(None)
    else if t[0] != LOWER_E && t[0] != UPPER_E then None
    else
      SignSpelled(t[1..]);
      var digits := t[1..][|SpellSign(SignOf(t[1..]))|..];
      if DigitRun(digits) == 0 || DigitRun(digits) != |digits| then None
      else Some(Some(Exponent(t[0] == UPPER_E, SignOf(t[1..]), digits)))
  }

  /** The rest of a token after its whole digits. */
  function ReadTail(t: seq<Byte>): (r: Option<(Option<seq<Byte>>, Option<Exponent>)>)
  {
    if Is(t, 0, DOT) then
      var k := DigitRun(t[1..]);
      var exponent := ReadExponent(t[1..][k..]);
      if k == 0 || exponent.None? then None else Some((Some(t[1..][..k]), exponent.value))
    else
      var exponent := ReadExponent(t);
      if exponent.None? then None else Some((None, exponent.value))
  }

  /** The number of whole digits: a single zero, or a run without a leading zero. */
  function WholeRun(t: seq<Byte>): (k: nat)
    ensures k <= |t|
  {
    if Is(t, 0, ZERO) then 1 else DigitRun(t)
  }

  /** The parts of a token, if it is a number. */
  function Read(t: seq<Byte>): (r: Option<Parts>)
  {
    var negative := Is(t, 0, MINUS);
    var body := if negative then t[1..] else t;
    var k := WholeRun(body);
    var tail := ReadTail(body[k..]);
    if k == 0 || tail.None? then None else Some(Parts(negative, body[..k], tail.value.0, tail.value.1))
  }

  // ---------------------------------------------------------------- the parser reads exactly the grammar

  predicate ExponentOk(e: Option<Exponent>) {
    e.Some? ==> e.value.digits != [] && AllDigits(e.value.digits)
  }

  lemma ReadExponentSound(t: seq<Byte>)
    requires ReadExponent(t).Some?
    ensures t == SpellExponent(ReadExponent(t).value) && ExponentOk(ReadExponent(t).value)
  {
    if t != [] {
      var rest := t[1..];
      SignSpelled(rest);
      var digits := rest[|SpellSign(SignOf(rest))|..];
      DigitRunDigits(digits);
      assert digits[..|digits|] == digits;
      hide SpellSign, SignOf, DigitRun;
      assert t == [t[0]] + (SpellSign(SignOf(rest)) + digits);
    }
  }

  lemma ReadExponentComplete(e: Option<Exponent>)
    requires ExponentOk(e)
    ensures ReadExponent(SpellExponent(e)) == Some(e)
  {
    if e.Some? {
      var x, t := e.value, SpellExponent(e);
      var rest := SpellSign(x.sign) + x.digits;
      assert t == [t[0]] + rest;
      assert t[1..] == rest;
      assert SignOf(rest) == x.sign by { assert rest[0] == if x.sign == Unsigned then x.digits[0] else SpellSign(x.sign)[0]; }
      assert rest[|SpellSign(x.sign)|..] == x.digits;
      DigitRunIs(x.digits, []);
      assert x.digits + [] == x.digits;
    }
  }

  /** What may follow the digits of a number. */
  lemma TailStart(e: Option<Exponent>)
    ensures SpellExponent(e) != [] ==> SpellExponent(e)[0] == LOWER_E || SpellExponent(e)[0] == UPPER_E
  {
  }

  predicate FractionOk(f: Option<seq<Byte>>) {
    f.Some? ==> f.value != [] && AllDigits(f.value)
  }

  lemma ReadTailSound(t: seq<Byte>)
    requires ReadTail(t).Some?
    ensures var r := ReadTail(t).value;
            t == SpellFraction(r.0) + SpellExponent(r.1) && FractionOk(r.0) && ExponentOk(r.1)
  {
    hide ReadExponent, SpellExponent, ExponentOk, DigitRun;
    if Is(t, 0, DOT) {
      var rest := t[1..];
      var k := DigitRun(rest);
      ReadExponentSound(rest[k..]);
      DigitRunDigits(rest);
      assert t == [DOT] + (rest[..k] + rest[k..]);
    } else {
      ReadExponentSound(t);
    }
  }

  lemma TailWithFraction(f: seq<Byte>, x: seq<Byte>, e: Option<Exponent>)
    requires f != [] && AllDigits(f) && (x != [] ==> !IsDigit(x[0])) && ReadExponent(x) == Some(e)
    ensures ReadTail([DOT] + (f + x)) == Some((Some(f), e))
  {
    var rest := f + x;
    var t := [DOT] + rest;
    DigitRunIs(f, x);
    hide ReadExponent, DigitRun, AllDigits;
    assert t[1..] == rest;
    assert rest[|f|..] == x;
    assert rest[..|f|] == f;
  }

  lemma ReadTailComplete(f: Option<seq<Byte>>, e: Option<Exponent>)
    requires FractionOk(f) && ExponentOk(e)
    ensures ReadTail(SpellFraction(f) + SpellExponent(e)) == Some((f, e))
  {
    ReadExponentComplete(e);
    TailStart(e);
    var x := SpellExponent(e);
    hide ReadExponent, SpellExponent, ExponentOk, DigitRun;
    if f.Some? {
      TailWithFraction(f.value, x, e);
      assert [DOT] + f.value + x == [DOT] + (f.value + x);
    } else {
      assert SpellFraction(f) + x == x;
    }
  }

  lemma WholeRunSound(t: seq<Byte>)
    requires WholeRun(t) > 0
    ensures var whole := t[..WholeRun(t)];
            whole != [] && AllDigits(whole) && (whole[0] == ZERO ==> |whole| == 1)
  {
    DigitRunDigits(t);
  }

  lemma WholeRunComplete(whole: seq<Byte>, rest: seq<Byte>)
    requires whole != [] && AllDigits(whole) && (whole[0] == ZERO ==> |whole| == 1)
    requires rest != [] ==> !IsDigit(rest[0])
    ensures WholeRun(whole + rest) == |whole|
  {
    DigitRunIs(whole, rest);
    assert (whole + rest)[0] == whole[0];
  }

  lemma ReadSound(t: seq<Byte>)
    requires Read(t).Some?
    ensures WellFormed(Read(t).value) && Spell(Read(t).value) == t
  {
    hide WholeRun, ReadTail, SpellFraction, SpellExponent, AllDigits, ReadExponent;
    var n := Read(t).value;
    var body := if n.negative then t[1..] else t;
    var k := WholeRun(body);
    ReadTailSound(body[k..]);
    WholeRunSound(body);
    assert n == Parts(n.negative, body[..k], ReadTail(body[k..]).value.0, ReadTail(body[k..]).value.1);
    Respell(t, body, k, n);
  }

  lemma Respell(t: seq<Byte>, body: seq<Byte>, k: nat, n: Parts)
    requires k <= |body| && t == (if n.negative then [MINUS] else []) + body
    requires n.whole == body[..k] && body[k..] == SpellFraction(n.fraction) + SpellExponent(n.exponent)
    ensures Spell(n) == t
  {
    hide SpellFraction, SpellExponent;
    assert body == body[..k] + body[k..];
  }

  lemma ReadComplete(n: Parts)
    requires WellFormed(n)
    ensures Read(Spell(n)) == Some(n)
  {
    var tail := SpellFraction(n.fraction) + SpellExponent(n.exponent);
    var body := n.whole + tail;
    var t := Spell(n);
    assert (if n.negative then t[1..] else t) == body;
    TailStart(n.exponent);
    assert tail != [] ==> !IsDigit(tail[0]) by {
      if n.fraction.Some? { assert tail[0] == DOT; } else { assert tail == SpellExponent(n.exponent); }
    }
    WholeRunComplete(n.whole, tail);
    ReadTailComplete(n.fraction, n.exponent);
    assert t[0] == if n.negative then MINUS else n.whole[0];
    hide WholeRun, ReadTail, SpellFraction, SpellExponent;
    assert body[|n.whole|..] == tail;
    assert body[..|n.whole|] == n.whole;
  }

  /** The parser accepts exactly the spellings of the grammar, and reads each one way only. */
  lemma ReadIff(t: seq<Byte>, n: Parts)
    ensures Read(t) == Some(n) <==> WellFormed(n) && Spell(n) == t
  {
    if Read(t) == Some(n) { ReadSound(t); }
    if WellFormed(n) && Spell(n) == t { ReadComplete(n); }
  }
}
