/**
 Number preparation under the integer profile: tokens outside strings whose exact value is a safe
 integer are respelled canonically, everything else is copied.
 */
module PrepareNumbers {
  import opened Values
  import opened Bytes
  import opened DecimalTokens
  import opened SafeIntegers

  // ---------------------------------------------------------------- lexical structure

  datatype Lexeme = Quoted(text: seq<Byte>) | Token(text: seq<Byte>) | Other(byte: Byte)

  predicate Delimiter(b: Byte) {
    b == SPACE || b == TAB || b == RETURN || b == NEWLINE || b == COMMA || b == CLOSE_BRACKET || b == CLOSE_BRACE
  }

  predicate StartsNumber(b: Byte) {
    b == MINUS || IsDigit(b)
  }

  /** How many bytes remain of a string literal, its closing quote included; an unclosed one runs to the end. */
  function StringRun(t: seq<Byte>, escaped: bool): (k: nat)
    ensures k <= |t|
  {
    var close := StringClose(t, escaped);
    if close.Some? then close.value else |t|
  }

  lemma StringRunStep(t: seq<Byte>, escaped: bool)
    requires t != []
    ensures StringRun(t, escaped)
         == if !escaped && t[0] == QUOTE then 1 else 1 + StringRun(t[1..], !escaped && t[0] == BACKSLASH)
  {
  }

  /** How many bytes remain before the next delimiter. */
  function TokenRun(t: seq<Byte>): (k: nat)
    ensures k <= |t|
  {
    if t == [] || Delimiter(t[0]) then 0 else 1 + TokenRun(t[1..])
  }

  function First(t: seq<Byte>): (l: Lexeme)
    requires t != []
    ensures 1 <= |Text(l)| <= |t| && t[..|Text(l)|] == Text(l)
  {
    if t[0] == QUOTE then Quoted(t[..1 + StringRun(t[1..], false)])
    else if StartsNumber(t[0]) then Token(t[..TokenRun(t)])
    else Other(t[0])
  }

  function Text(l: Lexeme): seq<Byte> {
    match l
    case Quoted(text) => text
    case Token(text) => text
    case Other(byte) => [byte]
  }

  function Lex(t: seq<Byte>): seq<Lexeme>
    decreases |t|
  {
    if t == [] then [] else [First(t)] + Lex(t[|Text(First(t))|..])
  }

  function Flatten(ls: seq<Lexeme>): seq<Byte> {
    if ls == [] then [] else Text(ls[0]) + Flatten(ls[1..])
  }

  // ---------------------------------------------------------------- respelling

  function Convert(t: seq<Byte>): Option<nat> {
    var d := Parsed(t);
    if d.None? || !TokenOk(d.value) then None else Safe(d.value)
  }

  function Respelled(t: seq<Byte>): seq<Byte> {
    if Convert(t).Some? then Decimal(Convert(t).value) else t
  }

  function Rewrite(l: Lexeme): Lexeme {
    if l.Token? then Token(Respelled(l.text)) else l
  }

  function RewriteAll(ls: seq<Lexeme>): seq<Lexeme> {
    if ls == [] then [] else [Rewrite(ls[0])] + RewriteAll(ls[1..])
  }

  /** The prepared text: every lexeme of the input, rewritten. */
  function Prepare(t: seq<Byte>): seq<Byte> {
    Flatten(RewriteAll(Lex(t)))
  }

  lemma PrepareStep(t: seq<Byte>)
    ensures t == [] ==> Prepare(t) == []
    ensures t != [] ==> Prepare(t) == Text(Rewrite(First(t))) + Prepare(t[|Text(First(t))|..])
  {
    hide Respelled, First;
    if t != [] {
      var l, rest := First(t), Lex(t[|Text(First(t))|..]);
      assert Lex(t)[1..] == rest;
      var all := RewriteAll(Lex(t));
      assert all == [Rewrite(l)] + RewriteAll(rest);
      assert all[1..] == RewriteAll(rest);
    }
  }

  // ---------------------------------------------------------------- the scanner

  /** What is still to be written from position 0 of `t` in the given string state. */
  function Remaining(t: seq<Byte>, inString: bool, escaped: bool): seq<Byte> {
    if inString then t[..StringRun(t, escaped)] + Prepare(t[StringRun(t, escaped)..]) else Prepare(t)
  }

  lemma StepInString(t: seq<Byte>, escaped: bool)
    requires t != []
    ensures var ends := !escaped && t[0] == QUOTE;
            Remaining(t, true, escaped)
            == [t[0]] + Remaining(t[1..], !ends, !escaped && t[0] == BACKSLASH)
  {
    StringRunStep(t, escaped);
    hide Prepare, StringRun;
    var ends := !escaped && t[0] == QUOTE;
    var next := !escaped && t[0] == BACKSLASH;
    if ends {
      assert t[..1] == [t[0]];
    } else {
      var k := StringRun(t[1..], next);
      assert t[..1 + k] == [t[0]] + t[1..][..k];
      assert t[1 + k..] == t[1..][k..];
    }
  }

  lemma StepQuote(t: seq<Byte>)
    requires t != [] && t[0] == QUOTE
    ensures Remaining(t, false, false) == [QUOTE] + Remaining(t[1..], true, false)
  {
    PrepareStep(t);
    hide Prepare, Respelled, StringRun;
    var k := StringRun(t[1..], false);
    var literal := t[..1 + k];
    assert First(t) == Quoted(literal);
    assert literal == [QUOTE] + t[1..][..k];
    assert t[1 + k..] == t[1..][k..];
    assert Prepare(t) == literal + Prepare(t[1 + k..]);
  }

  lemma TokenRunPositive(t: seq<Byte>)
    requires t != [] && StartsNumber(t[0])
    ensures TokenRun(t) >= 1
  {
  }

  method ScanToken(bytes: seq<Byte>, start: nat) returns (index: nat)
    requires start <= |bytes|
    ensures index == start + TokenRun(bytes[start..]) && index <= |bytes|
  {
    index := start;
    while index < |bytes| && !Delimiter(bytes[index])
      invariant start <= index <= |bytes|
      invariant TokenRun(bytes[start..]) == index - start + TokenRun(bytes[index..])
    {
      assert bytes[index..][1..] == bytes[index + 1..];
      index := index + 1;
    }
  }

  method RespellToken(token: seq<Byte>) returns (r: seq<Byte>)
    requires |token| <= I64_MAX
    ensures r == Respelled(token)
  {
    hide Safe, Decimal;
    var number := Parse(token);
    if number.None? { return token; }
    ParsedOk(token);
    var integer := SafeInteger(number.value);
    r := if integer.Some? then Decimal(integer.value) else token;
  }

  lemma ParsedOk(token: seq<Byte>)
    requires |token| <= I64_MAX && Parsed(token).Some?
    ensures TokenOk(Parsed(token).value)
  {
    ReadSound(token);
    var n := Read(token).value;
    DigitsOk(n);
    if n.exponent.Some? { SaturatedIsClipped(n.exponent.value.digits); }
    assert |Digits(n)| <= |Spell(n)| && FractionLength(n) <= |Spell(n)|;
  }

  /** `prepare_numbers` with the integer profile; a slice never exceeds a signed 64-bit length. */
  method PrepareBytes(bytes: seq<Byte>) returns (output: seq<Byte>)
    requires |bytes| <= I64_MAX
    ensures output == Prepare(bytes)
  {
    hide Prepare, Respelled, Remaining, StringRun, TokenRun;
    output := [];
    var index, inString, escaped := 0, false, false;
    assert bytes[0..] == bytes;
    PrepareRemaining(bytes);
    while index < |bytes|
      invariant index <= |bytes| && (!inString ==> !escaped)
      invariant output + Remaining(bytes[index..], inString, escaped) == Prepare(bytes)
    {
      ghost var rest := bytes[index..];
      assert rest[1..] == bytes[index + 1..];
      var byte := bytes[index];
      if inString {
        StepInString(rest, escaped);
        output := output + [byte];
        if escaped {
          escaped := false;
        } else if byte == BACKSLASH {
          escaped := true;
        } else if byte == QUOTE {
          inString := false;
        }
        index := index + 1;
      } else if byte == QUOTE {
        StepQuote(rest);
        inString := true;
        output := output + [byte];
        index := index + 1;
      } else if StartsNumber(byte) {
        TokenRunPositive(rest);
        PrepareRemaining(rest);
        PrepareStep(rest);
        var start := index;
        index := ScanToken(bytes, start);
        var token := bytes[start..index];
        assert rest[..index - start] == token;
        assert First(rest) == Token(token);
        assert rest[|token|..] == bytes[index..];
        PrepareRemaining(bytes[index..]);
        var text := RespellToken(token);
        output := output + text;
      } else {
        PrepareRemaining(rest);
        PrepareStep(rest);
        PrepareRemaining(rest[1..]);
        output := output + [byte];
        index := index + 1;
      }
    }
    RemainingEmpty(bytes[index..], inString, escaped);
  }

  lemma PrepareRemaining(t: seq<Byte>)
    ensures Remaining(t, false, false) == Prepare(t)
  {
  }

  lemma RemainingEmpty(t: seq<Byte>, inString: bool, escaped: bool)
    requires t == []
    ensures Remaining(t, inString, escaped) == []
  {
  }
}
