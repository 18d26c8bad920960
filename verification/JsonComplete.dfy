/** Every proper value within the depth limit is read back, and only deep bytes hit the guard. */
module JsonComplete {
  import opened Values
  import opened Bytes
  import opened DecimalTokens
  import opened JsonText
  import opened DepthScan
  import opened ArrayCount
  import opened JsonScan
  import opened JsonReads

  /** What follows a complete element: its separator, its closing bracket, or the end. */
  predicate Ends(rest: seq<Byte>) {
    rest != [] ==> rest[0] == COMMA || Closes(rest[0])
  }

  lemma BlanksThenEnd(blanks: seq<Byte>, rest: seq<Byte>)
    requires Blanks(blanks) && Ends(rest)
    ensures Follows(blanks + rest) && BlankRun(blanks + rest) == |blanks|
  {
    BlankRunIs(blanks, rest);
    hide BlankRun;
    if blanks == [] { assert blanks + rest == rest; } else { assert (blanks + rest)[0] == blanks[0]; }
  }

  lemma LeafComplete(lex: Lexicon, t: Tree, rest: seq<Byte>)
    requires Proper(lex, t) && Follows(rest) && !t.List? && !t.Record?
    ensures Leaf(lex, Render(t) + rest) == Got(t, |Render(t)|)
    ensures !Is(Render(t) + rest, 0, OPEN_BRACKET) && !Is(Render(t) + rest, 0, OPEN_BRACE)
  {
    hide Read, NumberRun, StringSpan, StringClose;
    var text := t.text;
    var all := text + rest;
    assert all[..|text|] == text;
    match t
    case Word(_) => assert all[0] == text[0];
    case Numeral(_) =>
      NumberRunComplete(text, rest);
      assert all[0] == text[0];
    case Quote(_) =>
      StringSpanComplete(lex, text, rest);
      assert all[0] == text[0];
  }

  /** Unfolding the reader on an opening bracket. */
  lemma OpenList(lex: Lexicon, body: seq<Byte>, depth: nat)
    requires depth <= MAX_SUPPORTED_JSON_DEPTH
    ensures ReadTree(lex, [OPEN_BRACKET] + body, depth)
            == var gap := BlankRun(body);
               if Is(body, gap, CLOSE_BRACKET) then Got(List(body[..gap], []), 2 + gap)
               else match ReadItems(lex, body, depth + 1)
                    case Got(items, k) => Got(List([], items), 1 + k)
                    case Bad => Bad
                    case TooDeep => TooDeep
  {
    hide ReadItems, ReadMembers, BlankRun, Leaf;
    var t := [OPEN_BRACKET] + body;
    assert t[1..] == body;
    assert t[1..1 + BlankRun(body)] == body[..BlankRun(body)];
  }

  lemma OpenRecord(lex: Lexicon, body: seq<Byte>, depth: nat)
    requires depth <= MAX_SUPPORTED_JSON_DEPTH
    ensures ReadTree(lex, [OPEN_BRACE] + body, depth)
            == var gap := BlankRun(body);
               if Is(body, gap, CLOSE_BRACE) then Got(Record(body[..gap], []), 2 + gap)
               else match ReadMembers(lex, body, depth + 1)
                    case Got(members, k) => Got(Record([], members), 1 + k)
                    case Bad => Bad
                    case TooDeep => TooDeep
  {
    hide ReadItems, ReadMembers, BlankRun, Leaf;
    var t := [OPEN_BRACE] + body;
    assert t[1..] == body;
    assert t[1..1 + BlankRun(body)] == body[..BlankRun(body)];
  }

  lemma EmptyList(lex: Lexicon, gap: seq<Byte>, rest: seq<Byte>, depth: nat)
    requires Blanks(gap) && depth <= MAX_SUPPORTED_JSON_DEPTH
    ensures ReadTree(lex, Render(List(gap, [])) + rest, depth) == Got(List(gap, []), |gap| + 2)
    ensures |Render(List(gap, []))| == |gap| + 2
  {
    var body := gap + ([CLOSE_BRACKET] + rest);
    OpenList(lex, body, depth);
    BlankRunIs(gap, [CLOSE_BRACKET] + rest);
    hide ReadTree, BlankRun, ReadItems;
    assert Render(List(gap, [])) + rest == [OPEN_BRACKET] + body;
    assert body[..|gap|] == gap;
  }

  lemma EmptyRecord(lex: Lexicon, gap: seq<Byte>, rest: seq<Byte>, depth: nat)
    requires Blanks(gap) && depth <= MAX_SUPPORTED_JSON_DEPTH
    ensures ReadTree(lex, Render(Record(gap, [])) + rest, depth) == Got(Record(gap, []), |gap| + 2)
    ensures |Render(Record(gap, []))| == |gap| + 2
  {
    var body := gap + ([CLOSE_BRACE] + rest);
    OpenRecord(lex, body, depth);
    BlankRunIs(gap, [CLOSE_BRACE] + rest);
    hide ReadTree, BlankRun, ReadMembers;
    assert Render(Record(gap, [])) + rest == [OPEN_BRACE] + body;
    assert body[..|gap|] == gap;
  }

  lemma BlankThen(before: seq<Byte>, b: Byte, rest: seq<Byte>)
    requires Blanks(before) && !Blank(b)
    ensures BlankRun(before + ([b] + rest)) == |before| && Is(before + ([b] + rest), |before|, b)
  {
    BlankRunIs(before, [b] + rest);
  }

  lemma ItemStart(lex: Lexicon, item: Item, more: seq<Byte>)
    requires ProperItem(lex, item)
    ensures var body := RenderItem(item) + more; !Is(body, BlankRun(body), CLOSE_BRACKET)
  {
    FirstByte(lex, item.value);
    hide Proper, Render, BlankRun, Blanks;
    var value := Render(item.value);
    var tail := value[1..] + (item.after + more);
    assert RenderItem(item) + more == item.before + ([value[0]] + tail);
    BlankThen(item.before, value[0], tail);
  }

  /** Non-empty contents never look like a closing bracket after their blanks. */
  lemma ItemsStart(lex: Lexicon, items: seq<Item>, rest: seq<Byte>)
    requires items != [] && ProperItems(lex, items)
    ensures var body := RenderItems(items) + rest; !Is(body, BlankRun(body), CLOSE_BRACKET)
  {
    hide BlankRun, RenderItem, ProperItem;
    var more := if |items| == 1 then [] else [COMMA] + RenderItems(items[1..]);
    assert RenderItems(items) == RenderItem(items[0]) + more;
    ItemStart(lex, items[0], more + rest);
    hide RenderItems;
    DropJoin(RenderItem(items[0]), more, rest);
  }

  lemma MembersStart(lex: Lexicon, members: seq<Member>, rest: seq<Byte>)
    requires members != [] && ProperMembers(lex, members)
    ensures var body := RenderMembers(members) + rest; !Is(body, BlankRun(body), CLOSE_BRACE)
  {
    var m := members[0];
    assert m.key[0] == QUOTE && Blanks(m.before);
    hide BlankRun, RenderItem, ProperItem, KeyOk, ProperMembers;
    var tail := m.key[1..] + (m.between + ([COLON] + RenderItem(m.item)));
    assert RenderMember(m) == m.before + ([QUOTE] + tail);
    hide RenderMember;
    var more := if |members| == 1 then [] else [COMMA] + RenderMembers(members[1..]);
    assert RenderMembers(members) == RenderMember(m) + more;
    hide RenderMembers;
    assert RenderMembers(members) + rest == m.before + ([QUOTE] + (tail + (more + rest)));
    BlankThen(m.before, QUOTE, tail + (more + rest));
  }

  // ---------------------------------------------------------------- completeness

  lemma ListText(items: seq<Item>, rest: seq<Byte>)
    ensures Render(List([], items)) + rest == [OPEN_BRACKET] + (RenderItems(items) + ([CLOSE_BRACKET] + rest))
    ensures |Render(List([], items))| == |RenderItems(items)| + 2
  {
    hide RenderItems;
  }

  lemma RecordText(members: seq<Member>, rest: seq<Byte>)
    ensures Render(Record([], members)) + rest == [OPEN_BRACE] + (RenderMembers(members) + ([CLOSE_BRACE] + rest))
    ensures |Render(Record([], members))| == |RenderMembers(members)| + 2
  {
    hide RenderMembers;
  }

  /** A proper value within the limit is read back whole. */
  lemma {:induction false} TreeComplete(lex: Lexicon, t: Tree, rest: seq<Byte>, depth: nat)
    requires Proper(lex, t) && Follows(rest) && depth + Nesting(t) <= MAX_SUPPORTED_JSON_DEPTH
    ensures ReadTree(lex, Render(t) + rest, depth) == Got(t, |Render(t)|)
    decreases t
  {
    hide Render, ReadItems, ReadMembers, BlankRun, RenderItems, RenderMembers, ProperItems, ProperMembers, Leaf, KeyOk, Read;
    match t
    case List(gap, items) =>
      if items == [] {
        hide ReadTree;
        EmptyList(lex, gap, rest, depth);
      } else {
        hide ReadTree;
        var body := RenderItems(items) + ([CLOSE_BRACKET] + rest);
        ListText(items, rest);
        OpenList(lex, body, depth);
        ItemsStart(lex, items, [CLOSE_BRACKET] + rest);
        ItemsComplete(lex, items, rest, depth + 1);
      }
    case Record(gap, members) =>
      if members == [] {
        hide ReadTree;
        EmptyRecord(lex, gap, rest, depth);
      } else {
        hide ReadTree;
        var body := RenderMembers(members) + ([CLOSE_BRACE] + rest);
        RecordText(members, rest);
        OpenRecord(lex, body, depth);
        MembersStart(lex, members, [CLOSE_BRACE] + rest);
        MembersComplete(lex, members, rest, depth + 1);
      }
    case Word(_) => LeafComplete(lex, t, rest);
    case Numeral(_) => LeafComplete(lex, t, rest);
    case Quote(_) => LeafComplete(lex, t, rest);
  }

  lemma ItemParts(lex: Lexicon, item: Item, rest: seq<Byte>)
    requires ProperItem(lex, item) && Ends(rest)
    ensures var t := RenderItem(item) + rest;
            var before, k := |item.before|, |Render(item.value)|;
            && BlankRun(t) == before && t[..before] == item.before
            && before + k <= |t| && t[before..] == Render(item.value) + (item.after + rest)
            && t[before + k..] == item.after + rest && t[before + k..][..|item.after|] == item.after
            && Follows(item.after + rest) && BlankRun(item.after + rest) == |item.after|
  {
    FirstByte(lex, item.value);
    BlanksThenEnd(item.after, rest);
    hide Proper, Render, BlankRun, Blanks;
    var value := Render(item.value);
    var tail := value + (item.after + rest);
    assert RenderItem(item) + rest == item.before + tail;
    assert tail[0] == value[0];
    BlankRunIs(item.before, tail);
  }

  lemma {:induction false} ItemComplete(lex: Lexicon, item: Item, rest: seq<Byte>, depth: nat)
    requires ProperItem(lex, item) && Ends(rest) && depth + Nesting(item.value) <= MAX_SUPPORTED_JSON_DEPTH
    ensures ReadItem(lex, RenderItem(item) + rest, depth) == Got(item, |RenderItem(item)|)
    decreases item
  {
    hide Proper, Render, BlankRun, Blanks, ReadTree, Nesting, Follows;
    ItemParts(lex, item, rest);
    TreeComplete(lex, item.value, item.after + rest, depth);
  }

  lemma {:induction false} ItemsComplete(lex: Lexicon, items: seq<Item>, rest: seq<Byte>, depth: nat)
    requires items != [] && ProperItems(lex, items) && depth + ItemsNesting(items) <= MAX_SUPPORTED_JSON_DEPTH
    ensures ReadItems(lex, RenderItems(items) + ([CLOSE_BRACKET] + rest), depth) == Got(items, |RenderItems(items)| + 1)
    decreases items
  {
    hide ReadItem, RenderItem, ProperItem, Nesting;
    var close := [CLOSE_BRACKET] + rest;
    var item := items[0];
    var k := |RenderItem(item)|;
    if |items| == 1 {
      ItemComplete(lex, item, close, depth);
      var t := RenderItem(item) + close;
      assert t[k] == CLOSE_BRACKET;
      assert items == [item];
    } else {
      var tail := RenderItems(items[1..]) + close;
      ItemComplete(lex, item, [COMMA] + tail, depth);
      ItemsComplete(lex, items[1..], rest, depth);
      ItemsFold(lex, item, items[1..], tail, depth);
      hide ReadItems, RenderItems;
      assert [item] + items[1..] == items;
      ItemsCons(lex, item, items[1..]);
      DropJoin(RenderItem(item), [COMMA] + RenderItems(items[1..]), close);
      DropJoin([COMMA], RenderItems(items[1..]), close);
    }
  }

  /** Folding the element reader over one element and a comma. */
  lemma ItemsFold(lex: Lexicon, item: Item, items: seq<Item>, tail: seq<Byte>, depth: nat)
    requires ReadItem(lex, RenderItem(item) + ([COMMA] + tail), depth) == Got(item, |RenderItem(item)|)
    requires ReadItems(lex, tail, depth).Got? && ReadItems(lex, tail, depth).value == items
    ensures ReadItems(lex, RenderItem(item) + ([COMMA] + tail), depth)
            == Got([item] + items, |RenderItem(item)| + 1 + ReadItems(lex, tail, depth).used)
  {
    hide ReadItem, RenderItem;
    var k := |RenderItem(item)|;
    var t := RenderItem(item) + ([COMMA] + tail);
    assert t[k] == COMMA;
    assert t[k + 1..] == tail;
  }

  lemma FourParts(a: seq<Byte>, b: seq<Byte>, c: seq<Byte>, colon: Byte, tail: seq<Byte>)
    ensures var t := a + (b + (c + ([colon] + tail)));
            var past := |a| + |b|;
            && |t| == past + |c| + 1 + |tail|
            && t[|a|..] == b + (c + ([colon] + tail)) && t[past..] == c + ([colon] + tail)
            && t[..|a|] == a && t[|a|..past] == b && t[past..past + |c|] == c
            && t[past + |c|] == colon && t[past + |c| + 1..] == tail
  {
  }

  lemma KeyUnfold(lex: Lexicon, t: seq<Byte>, before: nat, key: nat, between: nat)
    requires before + key + between < |t| && BlankRun(t) == before && StringSpan(lex, t[before..]) == Some(key)
    requires BlankRun(t[before + key..]) == between && t[before + key + between] == COLON
    ensures ReadKey(lex, t) == Some((before, before + key, before + key + between))
  {
    hide BlankRun, StringSpan;
  }

  lemma KeyComplete(lex: Lexicon, m: Member, tail: seq<Byte>)
    requires Blanks(m.before) && KeyOk(lex, m.key) && Blanks(m.between)
    ensures var t := m.before + (m.key + (m.between + ([COLON] + tail)));
            var past := |m.before| + |m.key|;
            && past + |m.between| < |t|
            && ReadKey(lex, t) == Some((|m.before|, past, past + |m.between|))
            && t[..|m.before|] == m.before && t[|m.before|..past] == m.key
            && t[past..past + |m.between|] == m.between && t[past + |m.between| + 1..] == tail
  {
    hide BlankRun, StringSpan, KeyOk, Blanks, ReadKey;
    KeyRuns(lex, m, tail);
    FourParts(m.before, m.key, m.between, COLON, tail);
    KeyUnfold(lex, m.before + (m.key + (m.between + ([COLON] + tail))), |m.before|, |m.key|, |m.between|);
  }

  lemma KeyRuns(lex: Lexicon, m: Member, tail: seq<Byte>)
    requires Blanks(m.before) && KeyOk(lex, m.key) && Blanks(m.between)
    ensures var rest := m.between + ([COLON] + tail);
            && BlankRun(m.before + (m.key + rest)) == |m.before|
            && StringSpan(lex, m.key + rest) == Some(|m.key|) && BlankRun(rest) == |m.between|
  {
    var rest := m.between + ([COLON] + tail);
    assert m.key[0] == QUOTE;
    hide BlankRun, StringSpan, KeyOk, Blanks;
    assert (m.key + rest)[0] == QUOTE;
    BlankRunIs(m.before, m.key + rest);
    StringSpanComplete(lex, m.key, rest);
    BlankThen(m.between, COLON, tail);
  }

  lemma MemberJoin(m: Member, rest: seq<Byte>)
    ensures RenderMember(m) + rest == m.before + (m.key + (m.between + ([COLON] + (RenderItem(m.item) + rest))))
    ensures |RenderMember(m)| == |m.before| + |m.key| + |m.between| + 1 + |RenderItem(m.item)|
  {
    hide RenderItem;
  }

  lemma {:induction false} MemberComplete(lex: Lexicon, m: Member, rest: seq<Byte>, depth: nat)
    requires ProperMember(lex, m) && Ends(rest) && depth + Nesting(m.item.value) <= MAX_SUPPORTED_JSON_DEPTH
    ensures ReadMember(lex, RenderMember(m) + rest, depth) == Got(m, |RenderMember(m)|)
    decreases m
  {
    hide ReadItem, RenderItem, ReadKey, Blanks, KeyOk, RenderMember, Nesting, ProperItem;
    ItemComplete(lex, m.item, rest, depth);
    MemberJoin(m, rest);
    KeyComplete(lex, m, RenderItem(m.item) + rest);
  }

  lemma {:induction false} MembersComplete(lex: Lexicon, members: seq<Member>, rest: seq<Byte>, depth: nat)
    requires members != [] && ProperMembers(lex, members) && depth + MembersNesting(members) <= MAX_SUPPORTED_JSON_DEPTH
    ensures ReadMembers(lex, RenderMembers(members) + ([CLOSE_BRACE] + rest), depth)
            == Got(members, |RenderMembers(members)| + 1)
    decreases members
  {
    hide ReadMember, RenderMember, ProperMember, Nesting;
    var close := [CLOSE_BRACE] + rest;
    var m := members[0];
    var k := |RenderMember(m)|;
    if |members| == 1 {
      MemberComplete(lex, m, close, depth);
      var t := RenderMember(m) + close;
      assert t[k] == CLOSE_BRACE;
      assert members == [m];
    } else {
      var tail := RenderMembers(members[1..]) + close;
      MemberComplete(lex, m, [COMMA] + tail, depth);
      MembersComplete(lex, members[1..], rest, depth);
      MembersFold(lex, m, members[1..], tail, depth);
      hide ReadMembers, RenderMembers;
      assert [m] + members[1..] == members;
      MembersCons(lex, m, members[1..]);
      DropJoin(RenderMember(m), [COMMA] + RenderMembers(members[1..]), close);
      DropJoin([COMMA], RenderMembers(members[1..]), close);
    }
  }

  /** Folding the member reader over one member and a comma. */
  lemma MembersFold(lex: Lexicon, m: Member, members: seq<Member>, tail: seq<Byte>, depth: nat)
    requires ReadMember(lex, RenderMember(m) + ([COMMA] + tail), depth) == Got(m, |RenderMember(m)|)
    requires ReadMembers(lex, tail, depth).Got? && ReadMembers(lex, tail, depth).value == members
    ensures ReadMembers(lex, RenderMember(m) + ([COMMA] + tail), depth)
            == Got([m] + members, |RenderMember(m)| + 1 + ReadMembers(lex, tail, depth).used)
  {
    hide ReadMember, RenderMember;
    var k := |RenderMember(m)|;
    var t := RenderMember(m) + ([COMMA] + tail);
    assert t[k] == COMMA;
    assert t[k + 1..] == tail;
  }

  // ---------------------------------------------------------------- whole texts

  /** The reader accepts a whole text exactly when it renders one proper value, which is then unique;
      within the depth limit nothing else can happen. */
  lemma DocumentExact(lex: Lexicon, bytes: seq<Byte>, doc: Item)
    requires !Exceeds(bytes, 0, Plain, MAX_SUPPORTED_JSON_DEPTH)
    ensures ReadItem(lex, bytes, 0) == Got(doc, |bytes|) <==> ProperItem(lex, doc) && RenderItem(doc) == bytes
  {
    hide ReadItem, ProperItem, RenderItem, Exceeds, Nesting;
    if ReadItem(lex, bytes, 0) == Got(doc, |bytes|) {
      ItemSound(lex, bytes, 0);
      assert bytes[..|bytes|] == bytes;
    }
    if ProperItem(lex, doc) && RenderItem(doc) == bytes {
      DepthExact(lex, doc, MAX_SUPPORTED_JSON_DEPTH);
      ItemComplete(lex, doc, [], 0);
      assert bytes + [] == bytes;
    }
  }
}
