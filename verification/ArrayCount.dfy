/** The top-level array scanner answers exactly whether the array has more elements than allowed. */
module ArrayCount {
  import opened Values
  import opened Bytes
  import opened DecimalTokens
  import opened JsonText
  import opened DepthScan

  /** A byte that begins an element of the outermost array. */
  predicate Begins(depth: nat, inValue: bool, b: Byte) {
    depth == 1 && !inValue && !Blank(b) && b != COMMA && b != CLOSE_BRACKET
  }

  /** Whether scanning `t` inside the outermost array counts beyond `limit`. */
  function Over(t: seq<Byte>, depth: nat, mode: Mode, inValue: bool, count: nat, limit: nat): bool
    requires depth >= 1
  {
    t != [] &&
    var b := t[0];
    if mode != Plain then Over(t[1..], depth, NextMode(mode, b), inValue, count, limit)
    else
      var began := Begins(depth, inValue, b);
      var counted := if began then count + 1 else count;
      if began && counted > limit then true
      else if Closes(b) && depth == 1 then false
      else
        var within := if b == COMMA && depth == 1 then false else inValue || began;
        Over(t[1..], NextDepth(depth, mode, b), NextMode(mode, b), within, counted, limit)
  }

  function TopLevelOver(bytes: seq<Byte>, limit: nat): bool {
    var t := bytes[BlankRun(bytes)..];
    t != [] && t[0] == OPEN_BRACKET && Over(t[1..], 1, Plain, false, 0, limit)
  }

  /** `top_level_array_exceeds_limit`. */
  method TopLevelArrayExceedsLimit(bytes: seq<Byte>, maximum: nat) returns (r: bool)
    ensures r == TopLevelOver(bytes, maximum)
  {
    var index := 0;
    while index < |bytes| && Blank(bytes[index])
      invariant index <= |bytes| && BlankRun(bytes) == index + BlankRun(bytes[index..])
    {
      assert bytes[index..][1..] == bytes[index + 1..];
      index := index + 1;
    }
    if !Is(bytes, index, OPEN_BRACKET) { return false; }
    assert bytes[index..][1..] == bytes[index + 1..];
    index := index + 1;
    var depth: nat, count: nat := 1, 0;
    var inString, escaped, inValue := false, false, false;
    ghost var mode := Plain;
    while index < |bytes|
      invariant index <= |bytes| && depth >= 1
      invariant mode == if escaped then Escaped else if inString then InString else Plain
      invariant escaped ==> inString
      invariant TopLevelOver(bytes, maximum) == Over(bytes[index..], depth, mode, inValue, count, maximum)
    {
      var byte := bytes[index];
      assert bytes[index..][1..] == bytes[index + 1..];
      if inString {
        mode := NextMode(mode, byte);
        if escaped {
          escaped := false;
        } else if byte == BACKSLASH {
          escaped := true;
        } else if byte == QUOTE {
          inString := false;
        }
        index := index + 1;
        continue;
      }
      if depth == 1 && !inValue && !Blank(byte) && byte != COMMA && byte != CLOSE_BRACKET {
        count := count + 1;
        if count > maximum { return true; }
        inValue := true;
      }
      mode := NextMode(mode, byte);
      if byte == QUOTE {
        inString := true;
      } else if byte == OPEN_BRACE || byte == OPEN_BRACKET {
        depth := depth + 1;
      } else if byte == CLOSE_BRACE || byte == CLOSE_BRACKET {
        if depth == 1 { return false; }
        depth := depth - 1;
      } else if byte == COMMA && depth == 1 {
        inValue := false;
      }
      index := index + 1;
    }
    r := false;
  }

  // ---------------------------------------------------------------- stretches of text

  // Inside an element nothing more is counted, at whatever depth.

  lemma {:induction false} OverFlat(s: seq<Byte>, rest: seq<Byte>, depth: nat, count: nat, limit: nat)
    requires Flat(s) && depth >= 1 && (depth == 1 ==> forall i | 0 <= i < |s| :: s[i] != COMMA)
    ensures Over(s + rest, depth, Plain, true, count, limit) == Over(rest, depth, Plain, true, count, limit)
  {
    if s == [] {
      assert s + rest == rest;
    } else {
      assert (s + rest)[1..] == s[1..] + rest;
      OverFlat(s[1..], rest, depth, count, limit);
    }
  }

  lemma {:induction false} OverBlanks(s: seq<Byte>, rest: seq<Byte>, inValue: bool, count: nat, limit: nat)
    requires Blanks(s)
    ensures Over(s + rest, 1, Plain, inValue, count, limit) == Over(rest, 1, Plain, inValue, count, limit)
  {
    if s == [] {
      assert s + rest == rest;
    } else {
      assert (s + rest)[1..] == s[1..] + rest;
      OverBlanks(s[1..], rest, inValue, count, limit);
    }
  }

  lemma {:induction false} OverString(t: seq<Byte>, escaped: bool, rest: seq<Byte>, depth: nat, count: nat, limit: nat)
    requires StringClose(t, escaped) == Some(|t|) && depth >= 1
    ensures Over(t + rest, depth, if escaped then Escaped else InString, true, count, limit)
            == Over(rest, depth, Plain, true, count, limit)
  {
    assert (t + rest)[1..] == t[1..] + rest;
    assert (t + rest)[0] == t[0];
    if !escaped && t[0] == QUOTE {
      assert t[1..] + rest == rest;
    } else {
      OverString(t[1..], !escaped && t[0] == BACKSLASH, rest, depth, count, limit);
    }
  }

  lemma OverQuoted(s: seq<Byte>, rest: seq<Byte>, depth: nat, count: nat, limit: nat)
    requires QuotedText(s) && depth >= 1
    ensures Over(s + rest, depth, Plain, true, count, limit) == Over(rest, depth, Plain, true, count, limit)
  {
    assert (s + rest)[1..] == s[1..] + rest;
    OverString(s[1..], false, rest, depth, count, limit);
  }

  lemma OverOpen(b: Byte, rest: seq<Byte>, depth: nat, count: nat, limit: nat)
    requires Opens(b) && depth >= 1
    ensures Over([b] + rest, depth, Plain, true, count, limit) == Over(rest, depth + 1, Plain, true, count, limit)
  {
    assert ([b] + rest)[1..] == rest;
  }

  lemma OverClose(b: Byte, rest: seq<Byte>, depth: nat, count: nat, limit: nat)
    requires Closes(b) && depth >= 1
    ensures Over([b] + rest, depth + 1, Plain, true, count, limit) == Over(rest, depth, Plain, true, count, limit)
  {
    assert ([b] + rest)[1..] == rest;
  }

  // ---------------------------------------------------------------- whole values

  lemma {:induction false} OverTree(lex: Lexicon, t: Tree, rest: seq<Byte>, depth: nat, count: nat, limit: nat)
    requires Proper(lex, t) && depth >= 1
    ensures Over(Render(t) + rest, depth, Plain, true, count, limit) == Over(rest, depth, Plain, true, count, limit)
    decreases t
  {
    match t
    case Word(text) =>
      assert Flat(text) && forall i | 0 <= i < |text| :: text[i] != COMMA;
      OverFlat(text, rest, depth, count, limit);
    case Numeral(text) =>
      NumberBare(text);
      OverFlat(text, rest, depth, count, limit);
    case Quote(text) => OverQuoted(text, rest, depth, count, limit);
    case List(gap, items) =>
      hide Over;
      var close := [CLOSE_BRACKET] + rest;
      var inner := gap + (RenderItems(items) + close);
      assert Render(t) + rest == [OPEN_BRACKET] + inner;
      OverOpen(OPEN_BRACKET, inner, depth, count, limit);
      BlanksFlat(gap);
      OverFlat(gap, RenderItems(items) + close, depth + 1, count, limit);
      OverInnerItems(lex, items, close, depth + 1, count, limit);
      OverClose(CLOSE_BRACKET, rest, depth, count, limit);
    case Record(gap, members) =>
      hide Over;
      var close := [CLOSE_BRACE] + rest;
      var inner := gap + (RenderMembers(members) + close);
      assert Render(t) + rest == [OPEN_BRACE] + inner;
      OverOpen(OPEN_BRACE, inner, depth, count, limit);
      BlanksFlat(gap);
      OverFlat(gap, RenderMembers(members) + close, depth + 1, count, limit);
      OverInnerMembers(lex, members, close, depth + 1, count, limit);
      OverClose(CLOSE_BRACE, rest, depth, count, limit);
  }

  lemma {:induction false} OverInnerItem(lex: Lexicon, item: Item, rest: seq<Byte>, depth: nat, count: nat, limit: nat)
    requires ProperItem(lex, item) && depth >= 2
    ensures Over(RenderItem(item) + rest, depth, Plain, true, count, limit) == Over(rest, depth, Plain, true, count, limit)
    decreases item
  {
    hide Over, Render;
    BlanksFlat(item.before);
    BlanksFlat(item.after);
    var tail := item.after + rest;
    assert RenderItem(item) + rest == item.before + (Render(item.value) + tail);
    OverFlat(item.before, Render(item.value) + tail, depth, count, limit);
    OverTree(lex, item.value, tail, depth, count, limit);
    OverFlat(item.after, rest, depth, count, limit);
  }

  lemma {:induction false} OverInnerItems(lex: Lexicon, items: seq<Item>, rest: seq<Byte>, depth: nat, count: nat, limit: nat)
    requires ProperItems(lex, items) && depth >= 2
    ensures Over(RenderItems(items) + rest, depth, Plain, true, count, limit)
            == Over(rest, depth, Plain, true, count, limit)
    decreases items
  {
    hide Over, RenderItem, ProperItem;
    if items == [] {
      assert RenderItems(items) + rest == rest;
    } else if |items| == 1 {
      OverInnerItem(lex, items[0], rest, depth, count, limit);
    } else {
      var tail := RenderItems(items[1..]) + rest;
      ItemsText(items, rest);
      hide RenderItems;
      OverInnerItem(lex, items[0], [COMMA] + tail, depth, count, limit);
      OverFlat([COMMA], tail, depth, count, limit);
      OverInnerItems(lex, items[1..], rest, depth, count, limit);
    }
  }

  lemma {:induction false} OverInnerMember(lex: Lexicon, m: Member, rest: seq<Byte>, depth: nat, count: nat, limit: nat)
    requires ProperMember(lex, m) && depth >= 2
    ensures Over(RenderMember(m) + rest, depth, Plain, true, count, limit) == Over(rest, depth, Plain, true, count, limit)
    decreases m
  {
    hide Over, RenderItem, ProperItem;
    BlanksFlat(m.before);
    BlanksFlat(m.between);
    var tail := RenderItem(m.item) + rest;
    assert RenderMember(m) + rest == m.before + (m.key + (m.between + ([COLON] + tail)));
    OverFlat(m.before, m.key + (m.between + ([COLON] + tail)), depth, count, limit);
    OverQuoted(m.key, m.between + ([COLON] + tail), depth, count, limit);
    OverFlat(m.between, [COLON] + tail, depth, count, limit);
    OverFlat([COLON], tail, depth, count, limit);
    OverInnerItem(lex, m.item, rest, depth, count, limit);
  }

  lemma {:induction false} OverInnerMembers(lex: Lexicon, members: seq<Member>, rest: seq<Byte>, depth: nat, count: nat,
                                            limit: nat)
    requires ProperMembers(lex, members) && depth >= 2
    ensures Over(RenderMembers(members) + rest, depth, Plain, true, count, limit)
            == Over(rest, depth, Plain, true, count, limit)
    decreases members
  {
    hide Over, RenderMember, ProperMember;
    if members == [] {
      assert RenderMembers(members) + rest == rest;
    } else if |members| == 1 {
      OverInnerMember(lex, members[0], rest, depth, count, limit);
    } else {
      var tail := RenderMembers(members[1..]) + rest;
      MembersText(members, rest);
      hide RenderMembers;
      OverInnerMember(lex, members[0], [COMMA] + tail, depth, count, limit);
      OverFlat([COMMA], tail, depth, count, limit);
      OverInnerMembers(lex, members[1..], rest, depth, count, limit);
    }
  }

  // ---------------------------------------------------------------- the outermost array

  /** What can start a value. */
  lemma FirstByte(lex: Lexicon, t: Tree)
    requires Proper(lex, t)
    ensures Render(t) != []
    ensures !Blank(Render(t)[0]) && Render(t)[0] != COMMA && !Closes(Render(t)[0]) && Render(t)[0] != COLON
  {
    if t.Numeral? {
      ReadSound(t.text);
      var n := Read(t.text).value;
      assert Spell(n)[0] == if n.negative then MINUS else n.whole[0];
    }
  }

  /** The first byte of an element counts it once. */
  lemma OverBegin(t: seq<Byte>, count: nat, limit: nat)
    requires t != [] && !Blank(t[0]) && t[0] != COMMA && !Closes(t[0])
    ensures Over(t, 1, Plain, false, count, limit) == (count + 1 > limit || Over(t, 1, Plain, true, count + 1, limit))
  {
  }

  lemma OverItem(lex: Lexicon, item: Item, rest: seq<Byte>, count: nat, limit: nat)
    requires ProperItem(lex, item)
    ensures Over(RenderItem(item) + rest, 1, Plain, false, count, limit)
            == (count + 1 > limit || Over(rest, 1, Plain, true, count + 1, limit))
  {
    hide Over, Render;
    var tail := item.after + rest;
    var body := Render(item.value) + tail;
    assert RenderItem(item) + rest == item.before + body;
    OverBlanks(item.before, body, false, count, limit);
    FirstByte(lex, item.value);
    assert body[0] == Render(item.value)[0];
    OverBegin(body, count, limit);
    OverTree(lex, item.value, tail, 1, count + 1, limit);
    OverBlanks(item.after, rest, true, count + 1, limit);
  }

  lemma OverEnd(rest: seq<Byte>, inValue: bool, count: nat, limit: nat)
    ensures !Over([CLOSE_BRACKET] + rest, 1, Plain, inValue, count, limit)
  {
  }

  lemma OverComma(rest: seq<Byte>, count: nat, limit: nat)
    ensures Over([COMMA] + rest, 1, Plain, true, count, limit) == Over(rest, 1, Plain, false, count, limit)
  {
    assert ([COMMA] + rest)[1..] == rest;
  }

  lemma {:induction false} OverItems(lex: Lexicon, items: seq<Item>, rest: seq<Byte>, count: nat, limit: nat)
    requires ProperItems(lex, items) && items != [] && count <= limit
    ensures Over(RenderItems(items) + ([CLOSE_BRACKET] + rest), 1, Plain, false, count, limit)
            <==> count + |items| > limit
    decreases items
  {
    hide Over, RenderItem;
    var close := [CLOSE_BRACKET] + rest;
    if |items| == 1 {
      OverItem(lex, items[0], close, count, limit);
      OverEnd(rest, true, count + 1, limit);
    } else {
      var tail := RenderItems(items[1..]) + close;
      ItemsText(items, close);
      OverItem(lex, items[0], [COMMA] + tail, count, limit);
      OverComma(tail, count + 1, limit);
      if count + 1 <= limit { OverItems(lex, items[1..], rest, count + 1, limit); }
    }
  }

  /** On every JSON text: true exactly for a top-level array of more than `limit` elements. */
  lemma CountExact(lex: Lexicon, doc: Item, limit: nat)
    requires ProperItem(lex, doc)
    ensures TopLevelOver(RenderItem(doc), limit) <==> doc.value.List? && |doc.value.items| > limit
  {
    hide Over, RenderItems, RenderMembers;
    FirstByte(lex, doc.value);
    var body := Render(doc.value) + doc.after;
    BlankRunIs(doc.before, body);
    assert RenderItem(doc)[|doc.before|..] == body;
    match doc.value
    case List(gap, items) =>
      var rest := doc.after;
      var inner := gap + (RenderItems(items) + ([CLOSE_BRACKET] + rest));
      assert body == [OPEN_BRACKET] + inner;
      assert body[1..] == inner;
      OverBlanks(gap, RenderItems(items) + ([CLOSE_BRACKET] + rest), false, 0, limit);
      if items == [] {
        EmptyItems();
        assert RenderItems(items) + ([CLOSE_BRACKET] + rest) == [CLOSE_BRACKET] + rest;
        OverEnd(rest, false, 0, limit);
      } else {
        OverItems(lex, items, rest, 0, limit);
      }
    case Record(gap, members) => assert body[0] == OPEN_BRACE;
    case Word(text) => assert body[0] == text[0];
    case Numeral(text) => NumberBare(text); assert body[0] == text[0];
    case Quote(text) => assert body[0] == QUOTE;
  }

  lemma EmptyItems()
    ensures RenderItems([]) == []
  {
  }
}
