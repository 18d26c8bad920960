/** What number preparation keeps: strings, exact values, lexical structure, and a linear size. */
module PrepareTheorems {
  import opened Values
  import opened Bytes
  import opened DecimalTokens
  import opened SafeIntegers
  import opened ExactIntegers
  import opened PrepareNumbers

  // ---------------------------------------------------------------- one token

  function PlainParts(v: nat): Parts {
    Parts(false, Decimal(v), None, None)
  }

  lemma PlainDenotes(v: nat)
    ensures WellFormed(PlainParts(v)) && Spell(PlainParts(v)) == Decimal(v) && Denotes(PlainParts(v), v)
  {
    DecimalValue(v);
    var n := PlainParts(v);
    assert Digits(n) == Decimal(v);
    assert Spell(n) == Decimal(v);
    hide Decimal, Value;
    assert Pow10(0) == 1;
  }

  lemma SafeDecimalShort(v: nat)
    requires v <= MAX_SAFE_INTEGER
    ensures |Decimal(v)| <= 16
  {
    Pow16();
    hide Pow10;
    DecimalLength(v, 16);
  }

  lemma ConvertBounded(t: seq<Byte>)
    ensures Convert(t).Some? ==> Convert(t).value <= MAX_SAFE_INTEGER
  {
    hide Value, Pow10, LeadingZeros, Kept, Parsed;
  }

  /** Conversion answers exactly the safe integer a token denotes. */
  lemma ConvertExact(t: seq<Byte>, v: int)
    requires |t| < LONGEST
    ensures Convert(t) == Some(v) <==>
            Read(t).Some? && WellFormed(Read(t).value) && 0 <= v <= MAX_SAFE_INTEGER && Denotes(Read(t).value, v)
  {
    if Read(t).Some? {
      ReadSound(t);
      SafeExact(Read(t).value, v);
    }
  }

  /** The canonical spelling of a safe integer converts to itself. */
  lemma CanonicalStays(v: nat)
    requires v <= MAX_SAFE_INTEGER
    ensures Convert(Decimal(v)) == Some(v)
  {
    PlainDenotes(v);
    ReadComplete(PlainParts(v));
    SafeDecimalShort(v);
    hide Denotes, Convert, Spell;
    ConvertExact(Decimal(v), v);
  }

  lemma RespelledTwice(t: seq<Byte>)
    ensures Respelled(Respelled(t)) == Respelled(t)
  {
    ConvertBounded(t);
    if Convert(t).Some? { CanonicalStays(Convert(t).value); }
  }

  /** Respelling keeps the exact value and never repairs an invalid token. */
  lemma ValueKept(t: seq<Byte>)
    requires |t| < LONGEST
    ensures Read(t).None? ==> Respelled(t) == t
    ensures Respelled(t) != t ==>
              && Read(t).Some? && Read(Respelled(t)).Some?
              && WellFormed(Read(t).value) && WellFormed(Read(Respelled(t)).value)
              && exists v :: 0 <= v <= MAX_SAFE_INTEGER && Denotes(Read(t).value, v)
                             && Denotes(Read(Respelled(t)).value, v)
  {
    if Convert(t).Some? {
      var v := Convert(t).value;
      ConvertExact(t, v);
      PlainDenotes(v);
      ReadComplete(PlainParts(v));
      hide Denotes, Convert, Spell;
      assert Denotes(Read(Respelled(t)).value, v);
    }
  }

  /** Tokens that denote one safe integer are all respelled alike. */
  lemma OneSpelling(t: seq<Byte>, u: seq<Byte>, v: int)
    requires |t| < LONGEST && |u| < LONGEST && 0 <= v <= MAX_SAFE_INTEGER
    requires Read(t).Some? && WellFormed(Read(t).value) && Denotes(Read(t).value, v)
    requires Read(u).Some? && WellFormed(Read(u).value) && Denotes(Read(u).value, v)
    ensures Respelled(t) == Respelled(u) == Decimal(v)
  {
    hide Denotes, Convert;
    ConvertExact(t, v);
    ConvertExact(u, v);
  }

  // ---------------------------------------------------------------- size

  lemma ShortExponent(n: Parts)
    requires WellFormed(n) && |Spell(n)| <= 3 && n.exponent.Some?
    ensures Scale(n) <= 9 && |Digits(n)| == 1 && |Spell(n)| == 3
  {
    var e := n.exponent.value;
    assert |e.digits| == 1;
    assert e.digits[..0] == [];
    assert Value(e.digits) <= 9;
  }

  lemma ShortValue(n: Parts, v: nat)
    requires WellFormed(n) && |Spell(n)| <= 3 && Denotes(n, v)
    ensures v < Pow10(4 * |Spell(n)|)
  {
    DigitsOk(n);
    ValueBelow(Digits(n));
    var worth, scale, size := Value(Digits(n)), Scale(n), |Spell(n)|;
    assert v * 1 == v;
    assert |Digits(n)| <= size;
    if n.exponent.Some? { ShortExponent(n); }
    assert n.exponent.None? ==> scale <= 0;
    hide Value, Spell, Digits, Scale;
    PowGrows(|Digits(n)|, 4 * size);
    if scale > 0 {
      assert v <= worth * Pow10(scale);
      MulGrows(worth, Pow10(1) - 1, Pow10(scale));
      MulGrows(Pow10(1) - 1, Pow10(1), Pow10(scale));
      PowSum(1, scale);
      PowGrows(1 + scale, 10);
      PowSum(10, 2);
      assert Pow10(2) == 100;
    } else if scale < 0 {
      TimesAtLeast(v, Pow10(-scale));
    } else {
      assert Pow10(0) == 1;
    }
  }

  /** A token grows at most fourfold, whatever its exponent says. */
  lemma RespelledSize(t: seq<Byte>)
    ensures |Respelled(t)| <= 4 * |t|
  {
    ConvertBounded(t);
    if Convert(t).Some? {
      var v := Convert(t).value;
      SafeDecimalShort(v);
      if |t| <= 3 {
        ConvertExact(t, v);
        ReadSound(t);
        ShortValue(Read(t).value, v);
        hide Convert, Denotes, Spell;
        NonEmpty(t);
        DecimalLength(v, 4 * |t|);
      }
    }
  }

  lemma NonEmpty(t: seq<Byte>)
    requires Read(t).Some?
    ensures t != []
  {
  }

  // ---------------------------------------------------------------- whole texts

  lemma {:induction false} LexRestores(t: seq<Byte>)
    ensures Flatten(Lex(t)) == t
    decreases |t|
  {
    hide First;
    if t != [] {
      var l := First(t);
      LexRestores(t[|Text(l)|..]);
      assert Lex(t)[1..] == Lex(t[|Text(l)|..]);
      assert t == t[..|Text(l)|] + t[|Text(l)|..];
    }
  }

  /** Output is at most four times the input. */
  lemma {:induction false} PreparedSize(t: seq<Byte>)
    ensures |Prepare(t)| <= 4 * |t|
    decreases |t|
  {
    PrepareStep(t);
    if t != [] {
      hide Prepare, Respelled;
      var l := First(t);
      PreparedSize(t[|Text(l)|..]);
      if l.Token? { RespelledSize(l.text); }
    }
  }

  lemma {:induction false} StringRunStable(t: seq<Byte>, escaped: bool, u: seq<Byte>)
    requires StringRun(t, escaped) < |t| || u == []
    ensures StringRun(t[..StringRun(t, escaped)] + u, escaped) == StringRun(t, escaped)
  {
    hide StringRun;
    var k := StringRun(t, escaped);
    var s := t[..k] + u;
    if t != [] {
      StringRunStep(t, escaped);
      assert s[0] == t[0];
      StringRunStep(s, escaped);
      if escaped || t[0] != QUOTE {
        var next := !escaped && t[0] == BACKSLASH;
        StringRunStable(t[1..], next, u);
        assert s[1..] == t[1..][..k - 1] + u;
      }
    }
  }

  lemma {:induction false} TokenRunIs(r: seq<Byte>, u: seq<Byte>)
    requires (forall i | 0 <= i < |r| :: !Delimiter(r[i])) && (u != [] ==> Delimiter(u[0]))
    ensures TokenRun(r + u) == |r|
  {
    if r == [] {
      assert r + u == u;
    } else {
      assert (r + u)[1..] == r[1..] + u;
      TokenRunIs(r[1..], u);
    }
  }

  lemma {:induction false} TokenRunFacts(t: seq<Byte>)
    ensures forall i | 0 <= i < TokenRun(t) :: !Delimiter(t[i])
    ensures TokenRun(t) < |t| ==> Delimiter(t[TokenRun(t)])
  {
    if t != [] && !Delimiter(t[0]) {
      TokenRunFacts(t[1..]);
      assert forall i | 1 <= i < TokenRun(t) :: t[i] == t[1..][i - 1];
    }
  }

  /** A respelled token is still one token: it starts like a number and holds no delimiter. */
  lemma RespelledShape(t: seq<Byte>)
    requires t != [] && StartsNumber(t[0]) && forall i | 0 <= i < |t| :: !Delimiter(t[i])
    ensures var r := Respelled(t); r != [] && StartsNumber(r[0]) && forall i | 0 <= i < |r| :: !Delimiter(r[i])
  {
    hide Convert;
    if Convert(t).Some? {
      var r := Decimal(Convert(t).value);
      assert AllDigits(r);
    }
  }

  /** A delimiter survives preparation as the first byte. */
  lemma DelimiterStays(t: seq<Byte>)
    requires t != [] && Delimiter(t[0])
    ensures Prepare(t) != [] && Prepare(t)[0] == t[0]
  {
    PrepareStep(t);
    hide Prepare;
    assert First(t) == Other(t[0]);
  }

  lemma TokenLexed(r: seq<Byte>, u: seq<Byte>)
    requires r != [] && StartsNumber(r[0]) && (forall i | 0 <= i < |r| :: !Delimiter(r[i]))
    requires u != [] ==> Delimiter(u[0])
    ensures First(r + u) == Token(r)
  {
    TokenRunIs(r, u);
    assert (r + u)[..|r|] == r;
  }

  lemma QuotedLexed(t: seq<Byte>, u: seq<Byte>)
    requires t != [] && t[0] == QUOTE && (StringRun(t[1..], false) < |t[1..]| || u == [])
    ensures First(Text(First(t)) + u) == First(t)
  {
    var k := StringRun(t[1..], false);
    var literal := t[..1 + k];
    StringRunStable(t[1..], false, u);
    hide StringRun;
    assert First(t) == Quoted(literal);
    assert (literal + u)[1..] == t[1..][..k] + u;
    assert (literal + u)[..1 + k] == literal;
  }

  /** The first lexeme of the prepared text is the rewritten first lexeme. */
  lemma FirstRewritten(t: seq<Byte>)
    requires t != []
    ensures Prepare(t) != [] && First(Prepare(t)) == Rewrite(First(t))
  {
    PrepareStep(t);
    var l := First(t);
    var rest := t[|Text(l)|..];
    PrepareStep(rest);
    hide Prepare, Respelled;
    if l.Token? {
      TokenRunFacts(t);
      if rest != [] { DelimiterStays(rest); }
      RespelledShape(l.text);
      TokenLexed(Respelled(l.text), Prepare(rest));
    } else if l.Quoted? {
      QuotedLexed(t, Prepare(rest));
    }
  }

  /** Reading the prepared text again finds the same lexemes, numbers respelled: strings are kept byte
      for byte and nothing is split or joined. */
  lemma {:induction false} LexPrepared(t: seq<Byte>)
    ensures Lex(Prepare(t)) == RewriteAll(Lex(t))
    decreases |t|
  {
    PrepareStep(t);
    if t != [] {
      FirstRewritten(t);
      hide Prepare, Respelled, First, Rewrite;
      var l := First(t);
      var rest := t[|Text(l)|..];
      LexPrepared(rest);
      assert Prepare(t)[|Text(Rewrite(l))|..] == Prepare(rest);
      assert Lex(t)[1..] == Lex(rest);
    }
  }

  lemma {:induction false} RewriteTwice(ls: seq<Lexeme>)
    ensures RewriteAll(RewriteAll(ls)) == RewriteAll(ls)
  {
    if ls != [] {
      var once := RewriteAll(ls);
      assert once[1..] == RewriteAll(ls[1..]);
      RewriteTwice(ls[1..]);
      if ls[0].Token? { RespelledTwice(ls[0].text); }
      hide Respelled;
    }
  }

  /** Preparing prepared text changes nothing. */
  lemma PrepareTwice(t: seq<Byte>)
    ensures Prepare(Prepare(t)) == Prepare(t)
  {
    hide Lex, RewriteAll;
    LexPrepared(t);
    RewriteTwice(Lex(t));
  }

  lemma {:induction false} RewriteAt(ls: seq<Lexeme>, i: nat)
    requires i < |ls|
    ensures |RewriteAll(ls)| == |ls| && RewriteAll(ls)[i] == Rewrite(ls[i])
  {
    hide Rewrite;
    if i > 0 {
      RewriteAt(ls[1..], i - 1);
    } else if |ls| > 1 {
      RewriteAt(ls[1..], 0);
    }
  }

  /** Lexeme by lexeme: strings and punctuation are kept, and every number token keeps its exact
      value, for texts shorter than 2^62 bytes. */
  lemma PreparedLexeme(t: seq<Byte>, i: nat)
    requires |t| < LONGEST && i < |Lex(t)|
    ensures |Lex(Prepare(t))| == |Lex(t)|
    ensures var a, b := Lex(t)[i], Lex(Prepare(t))[i];
            && (!a.Token? ==> b == a)
            && (a.Token? && b != a ==>
                  && b.Token? && Read(a.text).Some? && Read(b.text).Some?
                  && WellFormed(Read(a.text).value) && WellFormed(Read(b.text).value)
                  && exists v :: 0 <= v <= MAX_SAFE_INTEGER && Denotes(Read(a.text).value, v)
                                 && Denotes(Read(b.text).value, v))
  {
    hide Denotes, Respelled, Read, WellFormed, Prepare, First;
    LexPrepared(t);
    RewriteAt(Lex(t), i);
    LexemeShort(t, i);
    if Lex(t)[i].Token? { ValueKept(Lex(t)[i].text); }
  }

  lemma {:induction false} LexemeShort(t: seq<Byte>, i: nat)
    requires i < |Lex(t)|
    ensures |Text(Lex(t)[i])| <= |t|
    decreases |t|
  {
    hide First;
    if i > 0 { LexemeShort(t[|Text(First(t))|..], i - 1); }
  }
}
