/**
 The grammar that the metadata scanner follows: a depth-guarded reader of JSON values, which accepts
 exactly the renderings of proper values.
 */
module JsonScan {
  import opened Values
  import opened Bytes
  import opened DecimalTokens
  import opened JsonText

  const MAX_SUPPORTED_JSON_DEPTH: nat := 127

  /** A value and the bytes it used, a syntax error, or the scanner's own depth guard. */
  datatype Outcome<+T> = Got(value: T, used: nat) | Bad | TooDeep

  // ---------------------------------------------------------------- tokens

  function FractionRun(t: seq<Byte>): (k: Option<nat>)
    ensures k.Some? ==> k.value <= |t|
  {
    if !Is(t, 0, DOT) then Some(0)
    else if DigitRun(t[1..]) == 0 then None
    else Some(1 + DigitRun(t[1..]))
  }

  /** An optional sign and at least one digit. */
  function SignedRun(t: seq<Byte>): (k: Option<nat>)
    ensures k.Some? ==> k.value <= |t|
  {
    SignSpelled(t);
    var start := |SpellSign(SignOf(t))|;
    if DigitRun(t[start..]) == 0 then None else Some(start + DigitRun(t[start..]))
  }

  function ExponentRun(t: seq<Byte>): (k: Option<nat>)
    ensures k.Some? ==> k.value <= |t|
  {
    if !Is(t, 0, LOWER_E) && !Is(t, 0, UPPER_E) then Some(0)
    else if SignedRun(t[1..]).None? then None
    else Some(1 + SignedRun(t[1..]).value)
  }

  function TailRun(t: seq<Byte>): (k: Option<nat>)
    ensures k.Some? ==> k.value <= |t|
  {
    var fraction := FractionRun(t);
    if fraction.None? then None
    else
      var exponent := ExponentRun(t[fraction.value..]);
      if exponent.None? then None else Some(fraction.value + exponent.value)
  }

  function UnsignedRun(t: seq<Byte>): (k: Option<nat>)
    ensures k.Some? ==> k.value <= |t|
  {
    var whole := WholeRun(t);
    var tail := TailRun(t[whole..]);
    if whole == 0 || tail.None? then None else Some(whole + tail.value)
  }

  /** The length of the longest number at the start. */
  function NumberRun(t: seq<Byte>): (k: Option<nat>)
    ensures k.Some? ==> k.value <= |t|
  {
    if !Is(t, 0, MINUS) then UnsignedRun(t)
    else if UnsignedRun(t[1..]).None? then None
    else Some(1 + UnsignedRun(t[1..]).value)
  }

  function StringSpan(lex: Lexicon, t: seq<Byte>): (k: Option<nat>)
    ensures k.Some? ==> 1 <= k.value <= |t|
  {
    if !Is(t, 0, QUOTE) then None
    else
      var close := StringClose(t[1..], false);
      if close.None? || lex.decode(t[..1 + close.value]).None? then None else Some(1 + close.value)
  }

  predicate Leads(word: seq<Byte>, t: seq<Byte>) {
    |word| <= |t| && t[..|word|] == word
  }

  // ---------------------------------------------------------------- values

  function Leaf(lex: Lexicon, t: seq<Byte>): (r: Outcome<Tree>)
    ensures r.Got? ==> r.used <= |t|
  {
    if t == [] then Bad
    else if t[0] == QUOTE then
      var k := StringSpan(lex, t);
      if k.Some? then Got(Quote(t[..k.value]), k.value) else Bad
    else if t[0] == TRUE_WORD[0] then if Leads(TRUE_WORD, t) then Got(Word(TRUE_WORD), 4) else Bad
    else if t[0] == FALSE_WORD[0] then if Leads(FALSE_WORD, t) then Got(Word(FALSE_WORD), 5) else Bad
    else if t[0] == NULL_WORD[0] then if Leads(NULL_WORD, t) then Got(Word(NULL_WORD), 4) else Bad
    else if t[0] == MINUS || IsDigit(t[0]) then
      var k := NumberRun(t);
      if k.Some? then Got(Numeral(t[..k.value]), k.value) else Bad
    else Bad
  }

  function ReadTree(lex: Lexicon, t: seq<Byte>, depth: nat): (r: Outcome<Tree>)
    ensures r.Got? ==> r.used <= |t|
    decreases |t|, 0
  {
    if depth > MAX_SUPPORTED_JSON_DEPTH then TooDeep
    else if Is(t, 0, OPEN_BRACKET) then
      var gap := BlankRun(t[1..]);
      if Is(t, 1 + gap, CLOSE_BRACKET) then Got(List(t[1..1 + gap], []), 2 + gap)
      else
        match ReadItems(lex, t[1..], depth + 1)
        case Got(items, k) => Got(List([], items), 1 + k)
        case Bad => Bad
        case TooDeep => TooDeep
    else if Is(t, 0, OPEN_BRACE) then
      var gap := BlankRun(t[1..]);
      if Is(t, 1 + gap, CLOSE_BRACE) then Got(Record(t[1..1 + gap], []), 2 + gap)
      else
        match ReadMembers(lex, t[1..], depth + 1)
        case Got(members, k) => Got(Record([], members), 1 + k)
        case Bad => Bad
        case TooDeep => TooDeep
    else Leaf(lex, t)
  }

  /** Blanks, a value, blanks. */
  function ReadItem(lex: Lexicon, t: seq<Byte>, depth: nat): (r: Outcome<Item>)
    ensures r.Got? ==> r.used <= |t|
    decreases |t|, 1
  {
    var before := BlankRun(t);
    match ReadTree(lex, t[before..], depth)
    case Got(value, k) =>
      var after := BlankRun(t[before + k..]);
      Got(Item(t[..before], value, t[before + k..][..after]), before + k + after)
    case Bad => Bad
    case TooDeep => TooDeep
  }

  /** Elements up to and including the closing bracket. */
  function ReadItems(lex: Lexicon, t: seq<Byte>, depth: nat): (r: Outcome<seq<Item>>)
    ensures r.Got? ==> r.used <= |t|
    decreases |t|, 2
  {
    match ReadItem(lex, t, depth)
    case Bad => Bad
    case TooDeep => TooDeep
    case Got(item, k) =>
      if Is(t, k, CLOSE_BRACKET) then Got([item], k + 1)
      else if !Is(t, k, COMMA) then Bad
      else
        match ReadItems(lex, t[k + 1..], depth)
        case Got(items, more) => Got([item] + items, k + 1 + more)
        case Bad => Bad
        case TooDeep => TooDeep
  }

  /** Blanks, a key, blanks and a colon. */
  function ReadKey(lex: Lexicon, t: seq<Byte>): (r: Option<(nat, nat, nat)>)
    ensures r.Some? ==> r.value.0 < r.value.1 <= r.value.2 < |t| && t[r.value.2] == COLON
  {
    var before := BlankRun(t);
    var key := StringSpan(lex, t[before..]);
    if key.None? then None
    else
      var past := before + key.value;
      var colon := past + BlankRun(t[past..]);
      if Is(t, colon, COLON) then Some((before, past, colon)) else None
  }

  function MemberAt(t: seq<Byte>, key: (nat, nat, nat), item: Item): Member
    requires key.0 <= key.1 <= key.2 <= |t|
  {
    Member(t[..key.0], t[key.0..key.1], t[key.1..key.2], item)
  }

  /** A key, its colon, and its value with the blanks around it. */
  function ReadMember(lex: Lexicon, t: seq<Byte>, depth: nat): (r: Outcome<Member>)
    ensures r.Got? ==> r.used <= |t|
    decreases |t|, 1
  {
    var key := ReadKey(lex, t);
    if key.None? then Bad
    else
      match ReadItem(lex, t[key.value.2 + 1..], depth)
      case Got(item, used) => Got(MemberAt(t, key.value, item), key.value.2 + 1 + used)
      case Bad => Bad
      case TooDeep => TooDeep
  }

  /** Members up to and including the closing brace. */
  function ReadMembers(lex: Lexicon, t: seq<Byte>, depth: nat): (r: Outcome<seq<Member>>)
    ensures r.Got? ==> r.used <= |t|
    decreases |t|, 2
  {
    match ReadMember(lex, t, depth)
    case Bad => Bad
    case TooDeep => TooDeep
    case Got(m, k) =>
      if Is(t, k, CLOSE_BRACE) then Got([m], k + 1)
      else if !Is(t, k, COMMA) then Bad
      else
        match ReadMembers(lex, t[k + 1..], depth)
        case Got(members, more) => Got([m] + members, k + 1 + more)
        case Bad => Bad
        case TooDeep => TooDeep
  }

  // ---------------------------------------------------------------- tokens are sound

  lemma {:induction false} BlankRunBlanks(t: seq<Byte>)
    ensures Blanks(t[..BlankRun(t)])
    ensures BlankRun(t) < |t| ==> !Blank(t[BlankRun(t)])
  {
    if t != [] && Blank(t[0]) {
      BlankRunBlanks(t[1..]);
      assert t[..BlankRun(t)] == [t[0]] + t[1..][..BlankRun(t[1..])];
    }
  }

  lemma {:induction false} StringClosePrefix(t: seq<Byte>, escaped: bool, k: nat)
    requires k <= |t|
    requires StringClose(t, escaped) == Some(k)
    ensures StringClose(t[..k], escaped) == Some(k)
  {
    if escaped || t[0] != QUOTE {
      assert t[..k][1..] == t[1..][..k - 1];
      StringClosePrefix(t[1..], !escaped && t[0] == BACKSLASH, k - 1);
    }
  }

  lemma {:induction false} StringCloseExtends(s: seq<Byte>, escaped: bool, rest: seq<Byte>)
    requires StringClose(s, escaped) == Some(|s|)
    ensures StringClose(s + rest, escaped) == Some(|s|)
  {
    assert (s + rest)[0] == s[0];
    assert (s + rest)[1..] == s[1..] + rest;
    if escaped || s[0] != QUOTE {
      StringCloseExtends(s[1..], !escaped && s[0] == BACKSLASH, rest);
    }
  }

  lemma StringSpanSound(lex: Lexicon, t: seq<Byte>)
    requires StringSpan(lex, t).Some?
    ensures KeyOk(lex, t[..StringSpan(lex, t).value])
  {
    var k := StringSpan(lex, t).value;
    StringClosePrefix(t[1..], false, k - 1);
    assert t[..k][1..] == t[1..][..k - 1];
  }

  lemma StringSpanComplete(lex: Lexicon, s: seq<Byte>, rest: seq<Byte>)
    requires KeyOk(lex, s)
    ensures StringSpan(lex, s + rest) == Some(|s|)
  {
    StringCloseExtends(s[1..], false, rest);
    assert (s + rest)[1..] == s[1..] + rest;
    assert (s + rest)[..|s|] == s;
  }

  // ---------------------------------------------------------------- numbers

  /** What may follow a number in a JSON text. */
  predicate Follows(rest: seq<Byte>) {
    rest != [] ==> !IsDigit(rest[0]) && rest[0] != DOT && rest[0] != LOWER_E && rest[0] != UPPER_E
  }

  lemma FractionRunSound(t: seq<Byte>) returns (f: Option<seq<Byte>>)
    requires FractionRun(t).Some?
    ensures FractionOk(f) && SpellFraction(f) == t[..FractionRun(t).value]
  {
    f := None;
    if Is(t, 0, DOT) {
      var k := DigitRun(t[1..]);
      DigitRunDigits(t[1..]);
      hide DigitRun;
      f := Some(t[1..][..k]);
      assert t[..1 + k] == [DOT] + t[1..][..k];
    }
  }

  lemma SignedRunSound(t: seq<Byte>)
    requires SignedRun(t).Some?
    ensures var k, sign := SignedRun(t).value, SignOf(t);
            && |SpellSign(sign)| < k
            && t[..k] == SpellSign(sign) + t[|SpellSign(sign)|..k] && AllDigits(t[|SpellSign(sign)|..k])
  {
    SignSpelled(t);
    var start := |SpellSign(SignOf(t))|;
    DigitRunDigits(t[start..]);
    hide DigitRun, SpellSign, SignOf;
    var k := SignedRun(t).value;
    assert t[start..k] == t[start..][..k - start];
    assert t[..k] == t[..start] + t[start..k];
  }

  lemma ExponentRunSound(t: seq<Byte>) returns (e: Option<Exponent>)
    requires ExponentRun(t).Some?
    ensures ExponentOk(e) && SpellExponent(e) == t[..ExponentRun(t).value]
  {
    e := None;
    if ExponentRun(t).value > 0 {
      var rest := t[1..];
      SignedRunSound(rest);
      var sign, k := SignOf(rest), SignedRun(rest).value;
      hide SignedRun, SpellSign, SignOf;
      e := Some(Exponent(t[0] == UPPER_E, sign, rest[|SpellSign(sign)|..k]));
      assert t[..1 + k] == [t[0]] + rest[..k];
    }
  }

  lemma TailRunSound(t: seq<Byte>) returns (f: Option<seq<Byte>>, e: Option<Exponent>)
    requires TailRun(t).Some?
    ensures FractionOk(f) && ExponentOk(e) && SpellFraction(f) + SpellExponent(e) == t[..TailRun(t).value]
  {
    hide FractionRun, ExponentRun, SpellFraction, SpellExponent, FractionOk, ExponentOk;
    f := FractionRunSound(t);
    var j := FractionRun(t).value;
    e := ExponentRunSound(t[j..]);
    TakeJoin(t, j, TailRun(t).value);
  }

  lemma TakeJoin(t: seq<Byte>, j: nat, k: nat)
    requires j <= k <= |t|
    ensures t[..k] == t[..j] + t[j..][..k - j]
  {
  }

  lemma DropJoin(a: seq<Byte>, b: seq<Byte>, c: seq<Byte>)
    ensures (a + b) + c == a + (b + c) && (a + (b + c))[|a|..] == b + c && ((a + b) + c)[|a|..] == b + c
  {
  }

  lemma SpellPositive(n: Parts)
    requires !n.negative
    ensures Spell(n) == n.whole + (SpellFraction(n.fraction) + SpellExponent(n.exponent))
    ensures Spell(n.(negative := true)) == [MINUS] + Spell(n)
  {
    hide SpellFraction, SpellExponent;
  }

  lemma UnsignedRunSound(t: seq<Byte>) returns (n: Parts)
    requires UnsignedRun(t).Some?
    ensures WellFormed(n) && !n.negative && Spell(n) == t[..UnsignedRun(t).value]
  {
    hide WholeRun, TailRun, SpellFraction, SpellExponent, AllDigits, Spell;
    var j := WholeRun(t);
    WholeRunSound(t);
    var f, e := TailRunSound(t[j..]);
    n := Parts(false, t[..j], f, e);
    TakeJoin(t, j, UnsignedRun(t).value);
    SpellPositive(n);
  }

  lemma NumberRunSound(t: seq<Byte>)
    requires NumberRun(t).Some?
    ensures Read(t[..NumberRun(t).value]).Some?
  {
    hide UnsignedRun, Read, Spell;
    if Is(t, 0, MINUS) {
      var n := UnsignedRunSound(t[1..]);
      SpellPositive(n);
      TakeJoin(t, 1, NumberRun(t).value);
      assert t[..1] == [MINUS];
      ReadComplete(n.(negative := true));
    } else {
      var n := UnsignedRunSound(t);
      ReadComplete(n);
    }
  }

  lemma FractionRunComplete(f: Option<seq<Byte>>, rest: seq<Byte>)
    requires FractionOk(f) && (rest != [] ==> !IsDigit(rest[0]) && rest[0] != DOT)
    ensures FractionRun(SpellFraction(f) + rest) == Some(|SpellFraction(f)|)
  {
    if f.Some? {
      var t := SpellFraction(f) + rest;
      assert t[1..] == f.value + rest;
      DigitRunIs(f.value, rest);
    } else {
      assert SpellFraction(f) + rest == rest;
    }
  }

  lemma SignedRunComplete(sign: Sign, digits: seq<Byte>, rest: seq<Byte>)
    requires digits != [] && AllDigits(digits) && (rest != [] ==> !IsDigit(rest[0]))
    ensures SignedRun(SpellSign(sign) + (digits + rest)) == Some(|SpellSign(sign)| + |digits|)
  {
    var t := SpellSign(sign) + (digits + rest);
    DigitRunIs(digits, rest);
    hide DigitRun;
    assert t[0] == if sign == Unsigned then digits[0] else SpellSign(sign)[0];
    assert IsDigit(digits[0]);
    assert SignOf(t) == sign;
    assert t[|SpellSign(sign)|..] == digits + rest;
  }

  lemma MarkedRun(mark: Byte, body: seq<Byte>)
    requires mark == LOWER_E || mark == UPPER_E
    ensures ExponentRun([mark] + body)
            == if SignedRun(body).Some? then Some(1 + SignedRun(body).value) else None
  {
    hide SignedRun;
    assert ([mark] + body)[1..] == body;
  }

  lemma ExponentRunComplete(e: Option<Exponent>, rest: seq<Byte>)
    requires ExponentOk(e) && Follows(rest)
    ensures ExponentRun(SpellExponent(e) + rest) == Some(|SpellExponent(e)|)
  {
    if e.Some? {
      hide SignedRun, SpellSign, ExponentRun, AllDigits;
      var x := e.value;
      SignedRunComplete(x.sign, x.digits, rest);
      var mark := if x.upper then UPPER_E else LOWER_E;
      MarkedRun(mark, SpellSign(x.sign) + (x.digits + rest));
      Concat([mark] + SpellSign(x.sign), x.digits, rest);
      Concat([mark], SpellSign(x.sign), x.digits + rest);
    } else {
      assert SpellExponent(e) + rest == rest;
    }
  }

  lemma TailRunComplete(f: Option<seq<Byte>>, e: Option<Exponent>, rest: seq<Byte>)
    requires FractionOk(f) && ExponentOk(e) && Follows(rest)
    ensures TailRun((SpellFraction(f) + SpellExponent(e)) + rest) == Some(|SpellFraction(f) + SpellExponent(e)|)
  {
    hide FractionRun, ExponentRun, SpellFraction, SpellExponent, FractionOk, ExponentOk;
    ExponentThen(e, rest);
    FractionRunComplete(f, SpellExponent(e) + rest);
    ExponentRunComplete(e, rest);
    DropJoin(SpellFraction(f), SpellExponent(e), rest);
  }

  lemma ExponentThen(e: Option<Exponent>, rest: seq<Byte>)
    requires Follows(rest)
    ensures var x := SpellExponent(e) + rest; x != [] ==> !IsDigit(x[0]) && x[0] != DOT
  {
    TailStart(e);
    hide SpellExponent;
    if SpellExponent(e) == [] {
      assert SpellExponent(e) + rest == rest;
    } else {
      assert (SpellExponent(e) + rest)[0] == SpellExponent(e)[0];
    }
  }

  lemma TailNoDigit(f: Option<seq<Byte>>, e: Option<Exponent>, rest: seq<Byte>)
    requires Follows(rest)
    ensures var past := (SpellFraction(f) + SpellExponent(e)) + rest; past != [] ==> !IsDigit(past[0])
  {
    TailStart(e);
    var x := SpellFraction(f) + SpellExponent(e);
    if f.None? { assert x == SpellExponent(e); }
    if x == [] { assert x + rest == rest; }
  }

  lemma UnsignedRunComplete(n: Parts, rest: seq<Byte>)
    requires WellFormed(n) && Follows(rest)
    ensures var body := n.whole + (SpellFraction(n.fraction) + SpellExponent(n.exponent));
            UnsignedRun(body + rest) == Some(|body|)
  {
    hide WholeRun, TailRun, SpellFraction, SpellExponent, AllDigits;
    var tail := SpellFraction(n.fraction) + SpellExponent(n.exponent);
    TailRunComplete(n.fraction, n.exponent, rest);
    TailNoDigit(n.fraction, n.exponent, rest);
    WholeRunComplete(n.whole, tail + rest);
    DropJoin(n.whole, tail, rest);
  }

  lemma NumberRunComplete(text: seq<Byte>, rest: seq<Byte>)
    requires Read(text).Some? && Follows(rest)
    ensures NumberRun(text + rest) == Some(|text|)
    ensures text != [] && (text[0] == MINUS || IsDigit(text[0]))
  {
    hide Read, UnsignedRun, SpellFraction, SpellExponent, AllDigits, WellFormed, Spell;
    ReadSound(text);
    var n := Read(text).value;
    UnsignedRunComplete(n, rest);
    FirstOfSpell(n);
    SpellPositive(n.(negative := false));
    var body := Spell(n.(negative := false));
    assert (text + rest)[0] == text[0];
    if n.negative {
      assert n == n.(negative := false).(negative := true);
      DropJoin([MINUS], body, rest);
    } else {
      assert n == n.(negative := false);
    }
  }

  lemma FirstOfSpell(n: Parts)
    requires WellFormed(n)
    ensures Spell(n) != [] && (Spell(n)[0] == MINUS <==> n.negative)
    ensures Spell(n)[0] == MINUS || IsDigit(Spell(n)[0])
  {
    assert Spell(n)[0] == if n.negative then MINUS else n.whole[0];
  }
}
