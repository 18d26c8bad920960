/** The nesting-depth scanner answers exactly whether a JSON text nests deeper than the limit. */
module DepthScan {
  import opened Values
  import opened Bytes
  import opened DecimalTokens
  import opened JsonText

  /** Where a byte scanner stands: between tokens, in a string, or after a backslash. */
  datatype Mode = Plain | InString | Escaped

  function NextMode(mode: Mode, b: Byte): Mode {
    match mode
    case Plain => if b == QUOTE then InString else Plain
    case InString => if b == BACKSLASH then Escaped else if b == QUOTE then Plain else InString
    case Escaped => InString
  }

  predicate Opens(b: Byte) {
    b == OPEN_BRACE || b == OPEN_BRACKET
  }

  predicate Closes(b: Byte) {
    b == CLOSE_BRACE || b == CLOSE_BRACKET
  }

  function NextDepth(depth: nat, mode: Mode, b: Byte): nat {
    if mode != Plain then depth
    else if Opens(b) then depth + 1
    else if Closes(b) && depth > 0 then depth - 1
    else depth
  }

  /** Whether scanning `t` from this state ever goes beyond `limit`. */
  function Exceeds(t: seq<Byte>, depth: nat, mode: Mode, limit: nat): bool {
    t != [] &&
    var next := NextDepth(depth, mode, t[0]);
    (next > depth && next > limit) || Exceeds(t[1..], next, NextMode(mode, t[0]), limit)
  }

  /** `exceeds_depth`. */
  method ExceedsDepth(bytes: seq<Byte>, limit: nat) returns (r: bool)
    ensures r == Exceeds(bytes, 0, Plain, limit)
  {
    var depth: nat := 0;
    var inString, escaped := false, false;
    ghost var mode := Plain;
    assert bytes[0..] == bytes;
    for i := 0 to |bytes|
      invariant mode == if escaped then Escaped else if inString then InString else Plain
      invariant escaped ==> inString
      invariant Exceeds(bytes, 0, Plain, limit) == Exceeds(bytes[i..], depth, mode, limit)
    {
      var byte := bytes[i];
      assert bytes[i..][1..] == bytes[i + 1..];
      mode := NextMode(mode, byte);
      if inString {
        if escaped {
          escaped := false;
        } else if byte == BACKSLASH {
          escaped := true;
        } else if byte == QUOTE {
          inString := false;
        }
      } else if byte == QUOTE {
        inString := true;
      } else if byte == OPEN_BRACE || byte == OPEN_BRACKET {
        depth := depth + 1;
        if depth > limit { return true; }
      } else if byte == CLOSE_BRACE || byte == CLOSE_BRACKET {
        depth := if depth == 0 then 0 else depth - 1;
      }
    }
    r := false;
  }

  // ---------------------------------------------------------------- stretches of text

  /** Neither a quote nor a bracket. */
  predicate Flat(s: seq<Byte>) {
    forall i | 0 <= i < |s| :: s[i] != QUOTE && !Opens(s[i]) && !Closes(s[i])
  }

  lemma {:induction false} PastFlat(s: seq<Byte>, rest: seq<Byte>, depth: nat, limit: nat)
    requires Flat(s)
    ensures Exceeds(s + rest, depth, Plain, limit) == Exceeds(rest, depth, Plain, limit)
  {
    if s == [] {
      assert s + rest == rest;
    } else {
      assert (s + rest)[1..] == s[1..] + rest;
      PastFlat(s[1..], rest, depth, limit);
    }
  }

  lemma {:induction false} PastString(t: seq<Byte>, escaped: bool, rest: seq<Byte>, depth: nat, limit: nat)
    requires StringClose(t, escaped) == Some(|t|)
    ensures Exceeds(t + rest, depth, if escaped then Escaped else InString, limit) == Exceeds(rest, depth, Plain, limit)
  {
    assert (t + rest)[1..] == t[1..] + rest;
    assert (t + rest)[0] == t[0];
    if !escaped && t[0] == QUOTE {
      assert t[1..] + rest == rest;
    } else {
      PastString(t[1..], !escaped && t[0] == BACKSLASH, rest, depth, limit);
    }
  }

  lemma PastQuoted(s: seq<Byte>, rest: seq<Byte>, depth: nat, limit: nat)
    requires QuotedText(s)
    ensures Exceeds(s + rest, depth, Plain, limit) == Exceeds(rest, depth, Plain, limit)
  {
    assert (s + rest)[1..] == s[1..] + rest;
    PastString(s[1..], false, rest, depth, limit);
  }

  /** Flat, and without a comma. */
  predicate Bare(s: seq<Byte>) {
    forall i | 0 <= i < |s| :: s[i] != COMMA && s[i] != QUOTE && !Opens(s[i]) && !Closes(s[i])
  }

  lemma BareJoin(a: seq<Byte>, b: seq<Byte>)
    requires Bare(a) && Bare(b)
    ensures Bare(a + b)
  {
  }

  lemma DigitsBare(s: seq<Byte>)
    requires AllDigits(s)
    ensures Bare(s)
  {
  }

  lemma ExponentBare(e: Option<Exponent>)
    requires ExponentOk(e)
    ensures Bare(SpellExponent(e))
  {
    if e.Some? {
      DigitsBare(e.value.digits);
      assert Bare(SpellSign(e.value.sign));
      var mark: seq<Byte> := [if e.value.upper then UPPER_E else LOWER_E];
      assert Bare(mark);
      hide Bare;
      BareJoin(mark, SpellSign(e.value.sign));
      BareJoin(mark + SpellSign(e.value.sign), e.value.digits);
    }
  }

  lemma FractionBare(f: Option<seq<Byte>>)
    requires FractionOk(f)
    ensures Bare(SpellFraction(f))
  {
    if f.Some? {
      DigitsBare(f.value);
      var dot: seq<Byte> := [DOT];
      assert Bare(dot);
      hide Bare;
      BareJoin(dot, f.value);
    }
  }

  lemma NumberBare(text: seq<Byte>)
    requires Read(text).Some?
    ensures Bare(text) && Flat(text)
  {
    ReadSound(text);
    var n := Read(text).value;
    DigitsBare(n.whole);
    FractionBare(n.fraction);
    ExponentBare(n.exponent);
    var sign: seq<Byte> := if n.negative then [MINUS] else [];
    assert Bare(sign);
    hide Read, Bare, SpellFraction, SpellExponent;
    BareJoin(SpellFraction(n.fraction), SpellExponent(n.exponent));
    BareJoin(n.whole, SpellFraction(n.fraction) + SpellExponent(n.exponent));
    BareJoin(sign, n.whole + (SpellFraction(n.fraction) + SpellExponent(n.exponent)));
  }

  lemma BlanksFlat(s: seq<Byte>)
    requires Blanks(s)
    ensures Flat(s)
  {
  }

  /** The opening bracket raises the depth, the closing one restores it. */
  lemma PastOpen(b: Byte, rest: seq<Byte>, depth: nat, limit: nat)
    requires Opens(b)
    ensures Exceeds([b] + rest, depth, Plain, limit) == (depth + 1 > limit || Exceeds(rest, depth + 1, Plain, limit))
  {
    assert ([b] + rest)[1..] == rest;
  }

  lemma PastClose(b: Byte, rest: seq<Byte>, depth: nat, limit: nat)
    requires Closes(b)
    ensures Exceeds([b] + rest, depth + 1, Plain, limit) == Exceeds(rest, depth, Plain, limit)
  {
    assert ([b] + rest)[1..] == rest;
  }

  // ---------------------------------------------------------------- whole values

  /** Scanning a value reports its nesting and resumes where it started. */
  lemma {:induction false} PastTree(lex: Lexicon, t: Tree, rest: seq<Byte>, depth: nat, limit: nat)
    requires Proper(lex, t)
    ensures Exceeds(Render(t) + rest, depth, Plain, limit)
            == ((Nesting(t) > 0 && depth + Nesting(t) > limit) || Exceeds(rest, depth, Plain, limit))
    decreases t
  {
    match t
    case Word(text) =>
      assert Flat(text);
      PastFlat(text, rest, depth, limit);
    case Numeral(text) =>
      NumberBare(text);
      PastFlat(text, rest, depth, limit);
    case Quote(text) => PastQuoted(text, rest, depth, limit);
    case List(gap, items) =>
      hide Exceeds;
      var close := [CLOSE_BRACKET] + rest;
      var inner := gap + (RenderItems(items) + close);
      assert Render(t) + rest == [OPEN_BRACKET] + inner;
      PastOpen(OPEN_BRACKET, inner, depth, limit);
      BlanksFlat(gap);
      PastFlat(gap, RenderItems(items) + close, depth + 1, limit);
      PastItems(lex, items, close, depth + 1, limit);
      PastClose(CLOSE_BRACKET, rest, depth, limit);
    case Record(gap, members) =>
      hide Exceeds;
      var close := [CLOSE_BRACE] + rest;
      var inner := gap + (RenderMembers(members) + close);
      assert Render(t) + rest == [OPEN_BRACE] + inner;
      PastOpen(OPEN_BRACE, inner, depth, limit);
      BlanksFlat(gap);
      PastFlat(gap, RenderMembers(members) + close, depth + 1, limit);
      PastMembers(lex, members, close, depth + 1, limit);
      PastClose(CLOSE_BRACE, rest, depth, limit);
  }

  lemma {:induction false} PastItem(lex: Lexicon, item: Item, rest: seq<Byte>, depth: nat, limit: nat)
    requires ProperItem(lex, item)
    ensures Exceeds(RenderItem(item) + rest, depth, Plain, limit)
            == ((Nesting(item.value) > 0 && depth + Nesting(item.value) > limit) || Exceeds(rest, depth, Plain, limit))
    decreases item
  {
    hide Exceeds, Nesting, Render;
    BlanksFlat(item.before);
    BlanksFlat(item.after);
    var tail := item.after + rest;
    assert RenderItem(item) + rest == item.before + (Render(item.value) + tail);
    PastFlat(item.before, Render(item.value) + tail, depth, limit);
    PastTree(lex, item.value, tail, depth, limit);
    PastFlat(item.after, rest, depth, limit);
  }

  lemma {:induction false} PastItems(lex: Lexicon, items: seq<Item>, rest: seq<Byte>, depth: nat, limit: nat)
    requires ProperItems(lex, items)
    ensures Exceeds(RenderItems(items) + rest, depth, Plain, limit)
            == ((ItemsNesting(items) > 0 && depth + ItemsNesting(items) > limit) || Exceeds(rest, depth, Plain, limit))
    decreases items
  {
    hide Exceeds, Nesting, RenderItem, ProperItem;
    if items == [] {
      assert RenderItems(items) + rest == rest;
    } else if |items| == 1 {
      PastItem(lex, items[0], rest, depth, limit);
    } else {
      var tail := RenderItems(items[1..]) + rest;
      ItemsText(items, rest);
      hide RenderItems;
      PastItem(lex, items[0], [COMMA] + tail, depth, limit);
      PastFlat([COMMA], tail, depth, limit);
      PastItems(lex, items[1..], rest, depth, limit);
    }
  }

  lemma {:induction false} PastMember(lex: Lexicon, m: Member, rest: seq<Byte>, depth: nat, limit: nat)
    requires ProperMember(lex, m)
    ensures Exceeds(RenderMember(m) + rest, depth, Plain, limit)
            == ((Nesting(m.item.value) > 0 && depth + Nesting(m.item.value) > limit) || Exceeds(rest, depth, Plain, limit))
    decreases m
  {
    hide Exceeds, Nesting, RenderItem, ProperItem;
    BlanksFlat(m.before);
    BlanksFlat(m.between);
    var tail := RenderItem(m.item) + rest;
    assert RenderMember(m) + rest == m.before + (m.key + (m.between + ([COLON] + tail)));
    PastFlat(m.before, m.key + (m.between + ([COLON] + tail)), depth, limit);
    PastQuoted(m.key, m.between + ([COLON] + tail), depth, limit);
    PastFlat(m.between, [COLON] + tail, depth, limit);
    PastFlat([COLON], tail, depth, limit);
    PastItem(lex, m.item, rest, depth, limit);
  }

  lemma {:induction false} PastMembers(lex: Lexicon, members: seq<Member>, rest: seq<Byte>, depth: nat, limit: nat)
    requires ProperMembers(lex, members)
    ensures Exceeds(RenderMembers(members) + rest, depth, Plain, limit)
            == ((MembersNesting(members) > 0 && depth + MembersNesting(members) > limit)
                || Exceeds(rest, depth, Plain, limit))
    decreases members
  {
    hide Exceeds, Nesting, RenderMember, ProperMember;
    if members == [] {
      assert RenderMembers(members) + rest == rest;
    } else if |members| == 1 {
      PastMember(lex, members[0], rest, depth, limit);
    } else {
      var tail := RenderMembers(members[1..]) + rest;
      MembersText(members, rest);
      hide RenderMembers;
      PastMember(lex, members[0], [COMMA] + tail, depth, limit);
      PastFlat([COMMA], tail, depth, limit);
      PastMembers(lex, members[1..], rest, depth, limit);
    }
  }

  /** On every JSON text the scanner answers exactly whether the nesting exceeds the limit. */
  lemma DepthExact(lex: Lexicon, doc: Item, limit: nat)
    requires ProperItem(lex, doc)
    ensures Exceeds(RenderItem(doc), 0, Plain, limit) <==> Nesting(doc.value) > limit
  {
    PastItem(lex, doc, [], 0, limit);
    assert RenderItem(doc) + [] == RenderItem(doc);
  }
}
