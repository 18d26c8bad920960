/**
 Number preparation on whole JSON texts (RFC 8259): exactly the numerals of the value are respelled, wherever
 they stand, and nothing else of the text changes.
 */
module PreparedJson {
  import opened Values
  import opened Bytes
  import opened DecimalTokens
  import opened PrepareNumbers
  import opened PrepareTheorems
  import opened JsonText
  import opened JsonScan

  /** JSON whitespace, section 2 of RFC 8259. */
  predicate Spaces(s: seq<Byte>) {
    forall i | 0 <= i < |s| :: s[i] == SPACE || s[i] == TAB || s[i] == NEWLINE || s[i] == RETURN
  }

  // ---------------------------------------------------------------- JSON texts

  predicate Standard(t: Tree)
    decreases t
  {
    match t
    case Word(text) => text == TRUE_WORD || text == FALSE_WORD || text == NULL_WORD
    case Numeral(text) => Read(text).Some?
    case Quote(text) => QuotedText(text)
    case List(gap, items) => Spaces(gap) && StandardItems(items)
    case Record(gap, members) => Spaces(gap) && StandardMembers(members)
  }

  predicate StandardItem(item: Item)
    decreases item
  {
    Spaces(item.before) && Standard(item.value) && Spaces(item.after)
  }

  predicate StandardItems(items: seq<Item>)
    decreases items
  {
    items != [] ==> StandardItem(items[0]) && StandardItems(items[1..])
  }

  predicate StandardMember(m: Member)
    decreases m
  {
    Spaces(m.before) && QuotedText(m.key) && Spaces(m.between) && StandardItem(m.item)
  }

  predicate StandardMembers(members: seq<Member>)
    decreases members
  {
    members != [] ==> StandardMember(members[0]) && StandardMembers(members[1..])
  }

  // ---------------------------------------------------------------- the respelled value

  function Respell(t: Tree): Tree
    decreases t
  {
    match t
    case Numeral(text) => Numeral(Respelled(text))
    case List(gap, items) => List(gap, RespellItems(items))
    case Record(gap, members) => Record(gap, RespellMembers(members))
    case _ => t
  }

  function RespellItem(item: Item): Item
    decreases item
  {
    Item(item.before, Respell(item.value), item.after)
  }

  function RespellItems(items: seq<Item>): (r: seq<Item>)
    ensures |r| == |items|
    decreases items
  {
    if items == [] then [] else [RespellItem(items[0])] + RespellItems(items[1..])
  }

  function RespellMember(m: Member): Member
    decreases m
  {
    Member(m.before, m.key, m.between, RespellItem(m.item))
  }

  function RespellMembers(members: seq<Member>): (r: seq<Member>)
    ensures |r| == |members|
    decreases members
  {
    if members == [] then [] else [RespellMember(members[0])] + RespellMembers(members[1..])
  }

  // ---------------------------------------------------------------- pieces of text

  /** Neither a string nor a number starts at these bytes. */
  predicate Plain(s: seq<Byte>) {
    forall i | 0 <= i < |s| :: s[i] != QUOTE && !StartsNumber(s[i])
  }

  /** What may follow a number: nothing, whitespace, or what separates and closes. */
  predicate Ends(rest: seq<Byte>) {
    rest != [] ==> rest[0] in {SPACE, TAB, NEWLINE, RETURN, COMMA, CLOSE_BRACKET, CLOSE_BRACE}
  }

  lemma {:induction false} PlainPrepared(s: seq<Byte>, rest: seq<Byte>)
    requires Plain(s)
    ensures Prepare(s + rest) == s + Prepare(rest)
  {
    if s == [] {
      assert s + rest == rest;
    } else {
      PrepareStep(s + rest);
      hide Prepare;
      assert First(s + rest) == Other(s[0]);
      assert (s + rest)[1..] == s[1..] + rest;
      PlainPrepared(s[1..], rest);
    }
  }

  lemma QuotePrepared(s: seq<Byte>, rest: seq<Byte>)
    requires QuotedText(s)
    ensures Prepare(s + rest) == s + Prepare(rest)
  {
    PrepareStep(s + rest);
    hide Prepare;
    StringCloseExtends(s[1..], false, rest);
    assert (s + rest)[1..] == s[1..] + rest;
    assert (s + rest)[..|s|] == s && (s + rest)[|s|..] == rest;
  }

  /** A numeral starts like a number and holds no separator. */
  lemma NumeralShape(t: seq<Byte>)
    requires Read(t).Some?
    ensures t != [] && StartsNumber(t[0]) && forall i | 0 <= i < |t| :: !Delimiter(t[i])
  {
    ReadSound(t);
    var n := Read(t).value;
    FractionShape(n.fraction);
    ExponentShape(n.exponent);
    var tail := SpellFraction(n.fraction) + SpellExponent(n.exponent);
    assert forall i | 0 <= i < |tail| :: !Delimiter(tail[i]);
    hide SpellFraction, SpellExponent;
    var body := n.whole + tail;
    SpellPositive(n.(negative := false));
    assert forall i | 0 <= i < |n.whole| :: IsDigit(n.whole[i]);
    assert body[0] == n.whole[0];
    assert t == if n.negative then [MINUS] + body else body;
  }

  lemma FractionShape(f: Option<seq<Byte>>)
    requires FractionOk(f)
    ensures forall i | 0 <= i < |SpellFraction(f)| :: !Delimiter(SpellFraction(f)[i])
  {
    if f.Some? { assert forall i | 0 <= i < |f.value| :: IsDigit(f.value[i]); }
  }

  lemma ExponentShape(e: Option<Exponent>)
    requires ExponentOk(e)
    ensures forall i | 0 <= i < |SpellExponent(e)| :: !Delimiter(SpellExponent(e)[i])
  {
    if e.Some? { assert forall i | 0 <= i < |e.value.digits| :: IsDigit(e.value.digits[i]); }
  }

  lemma NumeralPrepared(t: seq<Byte>, rest: seq<Byte>)
    requires Read(t).Some? && Ends(rest)
    ensures Prepare(t + rest) == Respelled(t) + Prepare(rest)
  {
    NumeralShape(t);
    TokenLexed(t, rest);
    PrepareStep(t + rest);
    hide Prepare, Respelled, Read, First;
    assert (t + rest)[|t|..] == rest;
  }

  lemma SpacesEnd(s: seq<Byte>, rest: seq<Byte>)
    requires Spaces(s)
    ensures Plain(s) && (Ends(rest) ==> Ends(s + rest))
  {
    if s == [] { assert s + rest == rest; }
  }

  lemma Three(a: seq<Byte>, b: seq<Byte>, c: seq<Byte>, d: seq<Byte>)
    ensures (a + (b + c)) + d == a + (b + (c + d))
  {
    Concat(a, b + c, d);
    Concat(b, c, d);
  }

  lemma Four(a: seq<Byte>, b: seq<Byte>, c: seq<Byte>, d: seq<Byte>, e: seq<Byte>)
    ensures (a + (b + (c + d))) + e == a + (b + (c + (d + e)))
  {
    Three(a, b, c + d, e);
    Concat(c, d, e);
  }

  // ---------------------------------------------------------------- whole texts

  lemma {:induction false} TreePrepared(t: Tree, rest: seq<Byte>)
    requires Standard(t) && Ends(rest)
    ensures Prepare(Render(t) + rest) == Render(Respell(t)) + Prepare(rest)
    decreases t
  {
    hide Prepare, Read, Respelled, QuotedText, Ends;
    match t
    case Word(text) => WordPrepared(text, rest);
    case Numeral(text) => NumeralPrepared(text, rest);
    case Quote(text) => QuotePrepared(text, rest);
    case List(gap, items) =>
      Bracketed(OPEN_BRACKET, gap, CLOSE_BRACKET, rest);
      ItemsPrepared(items, [CLOSE_BRACKET] + rest);
      BracketText(OPEN_BRACKET, gap, RenderItems(items), RenderItems(RespellItems(items)), CLOSE_BRACKET, rest);
    case Record(gap, members) =>
      Bracketed(OPEN_BRACE, gap, CLOSE_BRACE, rest);
      MembersPrepared(members, [CLOSE_BRACE] + rest);
      BracketText(OPEN_BRACE, gap, RenderMembers(members), RenderMembers(RespellMembers(members)), CLOSE_BRACE, rest);
  }

  lemma WordPrepared(text: seq<Byte>, rest: seq<Byte>)
    requires text == TRUE_WORD || text == FALSE_WORD || text == NULL_WORD
    ensures Prepare(text + rest) == text + Prepare(rest)
  {
    PlainPrepared(text, rest);
  }

  lemma Bracketed(open: Byte, gap: seq<Byte>, close: Byte, rest: seq<Byte>)
    requires Spaces(gap)
    requires (open == OPEN_BRACKET && close == CLOSE_BRACKET) || (open == OPEN_BRACE && close == CLOSE_BRACE)
    ensures Plain([open]) && Plain(gap) && Plain([close]) && Ends([close] + rest)
  {
    SpacesEnd(gap, []);
  }

  lemma BracketText(open: Byte, gap: seq<Byte>, inner: seq<Byte>, respelled: seq<Byte>, close: Byte, rest: seq<Byte>)
    requires Plain([open]) && Plain(gap) && Plain([close])
    requires Prepare(inner + ([close] + rest)) == respelled + Prepare([close] + rest)
    ensures Prepare(([open] + (gap + (inner + [close]))) + rest) == ([open] + (gap + (respelled + [close]))) + Prepare(rest)
  {
    hide Prepare, Plain;
    Four([open], gap, inner, [close], rest);
    PlainPrepared([open], gap + (inner + ([close] + rest)));
    PlainPrepared(gap, inner + ([close] + rest));
    PlainPrepared([close], rest);
    Four([open], gap, respelled, [close], Prepare(rest));
  }

  lemma {:induction false} ItemPrepared(item: Item, rest: seq<Byte>)
    requires StandardItem(item) && Ends(rest)
    ensures Prepare(RenderItem(item) + rest) == RenderItem(RespellItem(item)) + Prepare(rest)
    decreases item
  {
    hide Prepare, Standard, Render, Respell, Spaces, Ends, Plain;
    SpacesEnd(item.before, []);
    SpacesEnd(item.after, rest);
    Three(item.before, Render(item.value), item.after, rest);
    PlainPrepared(item.before, Render(item.value) + (item.after + rest));
    TreePrepared(item.value, item.after + rest);
    PlainPrepared(item.after, rest);
    Three(item.before, Render(Respell(item.value)), item.after, Prepare(rest));
  }

  lemma {:induction false} ItemsPrepared(items: seq<Item>, rest: seq<Byte>)
    requires StandardItems(items) && Ends(rest)
    ensures Prepare(RenderItems(items) + rest) == RenderItems(RespellItems(items)) + Prepare(rest)
    decreases items
  {
    hide Prepare, StandardItem, RenderItem, RespellItem, Ends;
    var after := RespellItems(items);
    if items == [] {
      assert RenderItems(items) + rest == rest;
    } else if |items| == 1 {
      ItemPrepared(items[0], rest);
    } else {
      hide RenderItems;
      assert after[1..] == RespellItems(items[1..]);
      CommaEnds(RenderItems(items[1..]) + rest);
      ItemsText(items, rest);
      ItemPrepared(items[0], [COMMA] + (RenderItems(items[1..]) + rest));
      PlainPrepared([COMMA], RenderItems(items[1..]) + rest);
      ItemsPrepared(items[1..], rest);
      ItemsText(after, Prepare(rest));
    }
  }

  lemma CommaEnds(rest: seq<Byte>)
    ensures Ends([COMMA] + rest) && Plain([COMMA]) && Plain([COLON])
  {
  }

  lemma {:induction false} MemberPrepared(m: Member, rest: seq<Byte>)
    requires StandardMember(m) && Ends(rest)
    ensures Prepare(RenderMember(m) + rest) == RenderMember(RespellMember(m)) + Prepare(rest)
    decreases m
  {
    hide Prepare, StandardItem, RenderItem, RespellItem, Spaces, Ends, Plain, QuotedText;
    SpacesEnd(m.before, []);
    SpacesEnd(m.between, []);
    CommaEnds([]);
    var value := RenderItem(m.item);
    Four(m.before, m.key, m.between, [COLON] + value, rest);
    Concat([COLON], value, rest);
    PlainPrepared(m.before, m.key + (m.between + ([COLON] + (value + rest))));
    QuotePrepared(m.key, m.between + ([COLON] + (value + rest)));
    PlainPrepared(m.between, [COLON] + (value + rest));
    PlainPrepared([COLON], value + rest);
    ItemPrepared(m.item, rest);
    var after := RenderItem(RespellItem(m.item));
    Four(m.before, m.key, m.between, [COLON] + after, Prepare(rest));
    Concat([COLON], after, Prepare(rest));
  }

  lemma {:induction false} MembersPrepared(members: seq<Member>, rest: seq<Byte>)
    requires StandardMembers(members) && Ends(rest)
    ensures Prepare(RenderMembers(members) + rest) == RenderMembers(RespellMembers(members)) + Prepare(rest)
    decreases members
  {
    hide Prepare, StandardMember, RenderMember, RespellMember, Ends;
    var after := RespellMembers(members);
    if members == [] {
      assert RenderMembers(members) + rest == rest;
    } else if |members| == 1 {
      MemberPrepared(members[0], rest);
    } else {
      hide RenderMembers;
      assert after[1..] == RespellMembers(members[1..]);
      CommaEnds(RenderMembers(members[1..]) + rest);
      MembersText(members, rest);
      MemberPrepared(members[0], [COMMA] + (RenderMembers(members[1..]) + rest));
      PlainPrepared([COMMA], RenderMembers(members[1..]) + rest);
      MembersPrepared(members[1..], rest);
      MembersText(after, Prepare(rest));
    }
  }

  /** On every JSON text, preparation is the text of the same value with each numeral respelled: keys, strings,
      words, whitespace and structure are untouched, and no numeral is missed. */
  lemma DocumentPrepared(doc: Item)
    requires StandardItem(doc)
    ensures Prepare(RenderItem(doc)) == RenderItem(RespellItem(doc))
  {
    hide StandardItem, RenderItem, RespellItem, Prepare;
    ItemPrepared(doc, []);
    assert RenderItem(doc) + [] == RenderItem(doc);
    NothingPrepared();
  }

  lemma NothingPrepared()
    ensures Prepare([]) == []
  {
    PrepareStep([]);
  }
}
