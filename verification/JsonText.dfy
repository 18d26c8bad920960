/**
 JSON texts as concrete syntax (sections 2 to 7 of RFC 8259): values with their blanks, rendered to
 bytes, and their nesting.
 */
module JsonText {
  import opened Values
  import opened Bytes
  import opened DecimalTokens

  const FORM_FEED: Byte := 12

  /** What the byte scanners skip between tokens: JSON whitespace and the form feed. */
  predicate Blank(b: Byte) {
    b == SPACE || b == TAB || b == NEWLINE || b == RETURN || b == FORM_FEED
  }

  predicate Blanks(s: seq<Byte>) {
    forall i | 0 <= i < |s| :: Blank(s[i])
  }

  /** How many blanks lead. */
  function BlankRun(t: seq<Byte>): (k: nat)
    ensures k <= |t|
  {
    if t != [] && Blank(t[0]) then 1 + BlankRun(t[1..]) else 0
  }

  lemma {:induction false} BlankRunIs(s: seq<Byte>, rest: seq<Byte>)
    requires Blanks(s) && (rest != [] ==> !Blank(rest[0]))
    ensures BlankRun(s + rest) == |s|
  {
    if s == [] {
      assert s + rest == rest;
    } else {
      assert (s + rest)[1..] == s[1..] + rest;
      BlankRunIs(s[1..], rest);
    }
  }

  datatype Tree =
    | Word(text: seq<Byte>)
    | Numeral(text: seq<Byte>)
    | Quote(text: seq<Byte>)
    | List(gap: seq<Byte>, items: seq<Item>)
    | Record(gap: seq<Byte>, members: seq<Member>)

  /** A list element with the blanks around it. */
  datatype Item = Item(before: seq<Byte>, value: Tree, after: seq<Byte>)

  /** A record member: blanks, key, blanks, colon, blanks, value, blanks. */
  datatype Member = Member(before: seq<Byte>, key: seq<Byte>, between: seq<Byte>, item: Item)

  const TRUE_WORD: seq<Byte> := [116, 114, 117, 101]
  const FALSE_WORD: seq<Byte> := [102, 97, 108, 115, 101]
  const NULL_WORD: seq<Byte> := [110, 117, 108, 108]

  /** A complete string literal, quotes included. */
  predicate QuotedText(s: seq<Byte>) {
    s != [] && s[0] == QUOTE && StringClose(s[1..], false) == Some(|s| - 1)
  }

  /** Library decoding of string literals, and whether a number token fits the value type. */
  datatype Lexicon = Lexicon(decode: seq<Byte> -> Option<string>, inRange: seq<Byte> -> bool)

  predicate KeyOk(lex: Lexicon, s: seq<Byte>) {
    QuotedText(s) && lex.decode(s).Some?
  }

  predicate Proper(lex: Lexicon, t: Tree)
    decreases t
  {
    match t
    case Word(text) => text == TRUE_WORD || text == FALSE_WORD || text == NULL_WORD
    case Numeral(text) => Read(text).Some?
    case Quote(text) => KeyOk(lex, text)
    case List(gap, items) => Blanks(gap) && (items != [] ==> gap == []) && ProperItems(lex, items)
    case Record(gap, members) => Blanks(gap) && (members != [] ==> gap == []) && ProperMembers(lex, members)
  }

  predicate ProperItem(lex: Lexicon, item: Item)
    decreases item
  {
    Blanks(item.before) && Proper(lex, item.value) && Blanks(item.after)
  }

  predicate ProperItems(lex: Lexicon, items: seq<Item>)
    decreases items
  {
    items != [] ==> ProperItem(lex, items[0]) && ProperItems(lex, items[1..])
  }

  predicate ProperMember(lex: Lexicon, m: Member)
    decreases m
  {
    Blanks(m.before) && KeyOk(lex, m.key) && Blanks(m.between) && ProperItem(lex, m.item)
  }

  predicate ProperMembers(lex: Lexicon, members: seq<Member>)
    decreases members
  {
    members != [] ==> ProperMember(lex, members[0]) && ProperMembers(lex, members[1..])
  }

  // ---------------------------------------------------------------- rendering

  function Render(t: Tree): seq<Byte>
    decreases t
  {
    match t
    case Word(text) => text
    case Numeral(text) => text
    case Quote(text) => text
    case List(gap, items) => [OPEN_BRACKET] + (gap + (RenderItems(items) + [CLOSE_BRACKET]))
    case Record(gap, members) => [OPEN_BRACE] + (gap + (RenderMembers(members) + [CLOSE_BRACE]))
  }

  function RenderItem(item: Item): seq<Byte>
    decreases item
  {
    item.before + (Render(item.value) + item.after)
  }

  function RenderItems(items: seq<Item>): seq<Byte>
    decreases items
  {
    if items == [] then []
    else if |items| == 1 then RenderItem(items[0])
    else RenderItem(items[0]) + ([COMMA] + RenderItems(items[1..]))
  }

  function RenderMember(m: Member): seq<Byte>
    decreases m
  {
    m.before + (m.key + (m.between + ([COLON] + RenderItem(m.item))))
  }

  function RenderMembers(members: seq<Member>): seq<Byte>
    decreases members
  {
    if members == [] then []
    else if |members| == 1 then RenderMember(members[0])
    else RenderMember(members[0]) + ([COMMA] + RenderMembers(members[1..]))
  }

  lemma ItemsHead(items: seq<Item>)
    requires |items| > 1
    ensures RenderItems(items) == RenderItem(items[0]) + ([COMMA] + RenderItems(items[1..]))
  {
    hide RenderItem;
  }

  /** The first of several elements, its comma, and the others. */
  lemma ItemsText(items: seq<Item>, rest: seq<Byte>)
    requires |items| > 1
    ensures RenderItems(items) + rest == RenderItem(items[0]) + ([COMMA] + (RenderItems(items[1..]) + rest))
  {
    hide RenderItem, RenderItems;
    ItemsHead(items);
    Concat(RenderItem(items[0]), [COMMA] + RenderItems(items[1..]), rest);
    Concat([COMMA], RenderItems(items[1..]), rest);
  }

  lemma MembersHead(members: seq<Member>)
    requires |members| > 1
    ensures RenderMembers(members) == RenderMember(members[0]) + ([COMMA] + RenderMembers(members[1..]))
  {
    hide RenderMember;
  }

  lemma MembersText(members: seq<Member>, rest: seq<Byte>)
    requires |members| > 1
    ensures RenderMembers(members) + rest == RenderMember(members[0]) + ([COMMA] + (RenderMembers(members[1..]) + rest))
  {
    hide RenderMember, RenderMembers;
    MembersHead(members);
    Concat(RenderMember(members[0]), [COMMA] + RenderMembers(members[1..]), rest);
    Concat([COMMA], RenderMembers(members[1..]), rest);
  }

  // ---------------------------------------------------------------- nesting

  function Max(a: nat, b: nat): nat {
    if a < b then b else a
  }

  /** How many lists and records enclose the deepest point. */
  function Nesting(t: Tree): nat
    decreases t
  {
    match t
    case List(_, items) => 1 + ItemsNesting(items)
    case Record(_, members) => 1 + MembersNesting(members)
    case _ => 0
  }

  function ItemsNesting(items: seq<Item>): nat
    decreases items
  {
    if items == [] then 0 else Max(Nesting(items[0].value), ItemsNesting(items[1..]))
  }

  function MembersNesting(members: seq<Member>): nat
    decreases members
  {
    if members == [] then 0 else Max(Nesting(members[0].item.value), MembersNesting(members[1..]))
  }
}
