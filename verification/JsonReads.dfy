/** Whatever the reader accepts is a proper value that renders to the bytes it used. */
module JsonReads {
  import opened Bytes
  import opened DecimalTokens
  import opened JsonText
  import opened JsonScan

  // ---------------------------------------------------------------- soundness

  lemma LeafSound(lex: Lexicon, t: seq<Byte>)
    requires Leaf(lex, t).Got?
    ensures Proper(lex, Leaf(lex, t).value) && Render(Leaf(lex, t).value) == t[..Leaf(lex, t).used]
  {
    hide StringSpan, NumberRun, Read, KeyOk;
    if t[0] == QUOTE {
      StringSpanSound(lex, t);
    } else if t[0] == MINUS || IsDigit(t[0]) {
      NumberRunSound(t);
    }
  }

  lemma ListSound(lex: Lexicon, t: seq<Byte>, items: seq<Item>, k: nat)
    requires t != [] && t[0] == OPEN_BRACKET && k < |t|
    requires ProperItems(lex, items) && RenderItems(items) + [CLOSE_BRACKET] == t[1..][..k]
    ensures Proper(lex, List([], items)) && Render(List([], items)) == t[..1 + k]
  {
    hide ProperItems, RenderItems;
    TakeJoin(t, 1, 1 + k);
    assert t[..1] == [OPEN_BRACKET];
    assert [] + (RenderItems(items) + [CLOSE_BRACKET]) == RenderItems(items) + [CLOSE_BRACKET];
  }

  lemma RecordSound(lex: Lexicon, t: seq<Byte>, members: seq<Member>, k: nat)
    requires t != [] && t[0] == OPEN_BRACE && k < |t|
    requires ProperMembers(lex, members) && RenderMembers(members) + [CLOSE_BRACE] == t[1..][..k]
    ensures Proper(lex, Record([], members)) && Render(Record([], members)) == t[..1 + k]
  {
    hide ProperMembers, RenderMembers;
    TakeJoin(t, 1, 1 + k);
    assert t[..1] == [OPEN_BRACE];
    assert [] + (RenderMembers(members) + [CLOSE_BRACE]) == RenderMembers(members) + [CLOSE_BRACE];
  }

  lemma EmptyListSound(lex: Lexicon, t: seq<Byte>, gap: nat)
    requires t != [] && t[0] == OPEN_BRACKET && gap == BlankRun(t[1..]) && Is(t, 1 + gap, CLOSE_BRACKET)
    ensures Proper(lex, List(t[1..1 + gap], [])) && Render(List(t[1..1 + gap], [])) == t[..2 + gap]
  {
    BlankRunBlanks(t[1..]);
    hide BlankRun;
    EmptySound(t, gap, CLOSE_BRACKET);
  }

  lemma EmptyRecordSound(lex: Lexicon, t: seq<Byte>, gap: nat)
    requires t != [] && t[0] == OPEN_BRACE && gap == BlankRun(t[1..]) && Is(t, 1 + gap, CLOSE_BRACE)
    ensures Proper(lex, Record(t[1..1 + gap], [])) && Render(Record(t[1..1 + gap], [])) == t[..2 + gap]
  {
    BlankRunBlanks(t[1..]);
    hide BlankRun;
    EmptySound(t, gap, CLOSE_BRACE);
  }

  /** Whatever the reader returns is a proper value that renders to the bytes it used. */
  lemma {:induction false} TreeSound(lex: Lexicon, t: seq<Byte>, depth: nat)
    requires ReadTree(lex, t, depth).Got?
    ensures var r := ReadTree(lex, t, depth); Proper(lex, r.value) && Render(r.value) == t[..r.used]
    decreases |t|, 0
  {
    hide Proper, Render, ReadItems, ReadMembers, Leaf, BlankRun, ProperItems, ProperMembers, RenderItems, RenderMembers;
    if Is(t, 0, OPEN_BRACKET) {
      var gap := BlankRun(t[1..]);
      if Is(t, 1 + gap, CLOSE_BRACKET) {
        EmptyListSound(lex, t, gap);
      } else {
        ItemsSound(lex, t[1..], depth + 1);
        var r := ReadItems(lex, t[1..], depth + 1);
        ListSound(lex, t, r.value, r.used);
      }
    } else if Is(t, 0, OPEN_BRACE) {
      var gap := BlankRun(t[1..]);
      if Is(t, 1 + gap, CLOSE_BRACE) {
        EmptyRecordSound(lex, t, gap);
      } else {
        MembersSound(lex, t[1..], depth + 1);
        var r := ReadMembers(lex, t[1..], depth + 1);
        RecordSound(lex, t, r.value, r.used);
      }
    } else {
      LeafSound(lex, t);
    }
  }

  lemma EmptySound(t: seq<Byte>, gap: nat, close: Byte)
    requires gap + 1 < |t| && t[1 + gap] == close
    ensures t[..2 + gap] == [t[0]] + (t[1..1 + gap] + ([] + [close]))
    ensures t[1..1 + gap] == t[1..][..gap]
  {
  }

  lemma ItemText(lex: Lexicon, t: seq<Byte>, before: nat, k: nat, after: nat, value: Tree)
    requires before + k + after <= |t|
    requires Blanks(t[..before]) && Proper(lex, value) && Render(value) == t[before..][..k]
    requires Blanks(t[before + k..][..after])
    ensures var item := Item(t[..before], value, t[before + k..][..after]);
            ProperItem(lex, item) && RenderItem(item) == t[..before + k + after]
  {
    hide Proper, Render, Blanks;
    assert t[..before + k + after] == t[..before] + (t[before..][..k] + t[before + k..][..after]);
  }

  lemma {:induction false} ItemSound(lex: Lexicon, t: seq<Byte>, depth: nat)
    requires ReadItem(lex, t, depth).Got?
    ensures var r := ReadItem(lex, t, depth); ProperItem(lex, r.value) && RenderItem(r.value) == t[..r.used]
    decreases |t|, 1
  {
    hide ReadTree, Proper, Render, BlankRun, Blanks, ProperItem, RenderItem;
    var before := BlankRun(t);
    BlankRunBlanks(t);
    TreeSound(lex, t[before..], depth);
    var tree := ReadTree(lex, t[before..], depth);
    var k := tree.used;
    BlankRunBlanks(t[before + k..]);
    ItemText(lex, t, before, k, BlankRun(t[before + k..]), tree.value);
  }

  lemma ItemsCons(lex: Lexicon, item: Item, items: seq<Item>)
    ensures ProperItems(lex, [item] + items) <==> ProperItem(lex, item) && ProperItems(lex, items)
    ensures RenderItems([item] + items)
            == if items == [] then RenderItem(item) else RenderItem(item) + ([COMMA] + RenderItems(items))
  {
    hide ProperItem, RenderItem;
    assert ([item] + items)[1..] == items;
  }

  /** Text, a separator, and the rest up to a closing byte. */
  lemma SeparatedText(t: seq<Byte>, k: nat, more: nat, first: seq<Byte>, rest: seq<Byte>, close: Byte)
    requires k + 1 + more <= |t| && t[k] == COMMA && first == t[..k] && rest + [close] == t[k + 1..][..more]
    ensures (first + ([COMMA] + rest)) + [close] == t[..k + 1 + more]
  {
    assert t[..k + 1 + more] == t[..k] + ([COMMA] + t[k + 1..][..more]);
  }

  /** One unfolding of the element reader. */
  lemma ItemsStep(lex: Lexicon, t: seq<Byte>, depth: nat)
    requires ReadItems(lex, t, depth).Got?
    ensures ReadItem(lex, t, depth).Got?
    ensures var item, k := ReadItem(lex, t, depth).value, ReadItem(lex, t, depth).used;
            if Is(t, k, CLOSE_BRACKET) then ReadItems(lex, t, depth) == Got([item], k + 1)
            else
              && Is(t, k, COMMA)
              && var more := ReadItems(lex, t[k + 1..], depth);
                 more.Got? && ReadItems(lex, t, depth) == Got([item] + more.value, k + 1 + more.used)
  {
    hide ReadItem;
  }

  lemma {:induction false} ItemsSound(lex: Lexicon, t: seq<Byte>, depth: nat)
    requires ReadItems(lex, t, depth).Got?
    ensures var r := ReadItems(lex, t, depth);
            && r.value != [] && ProperItems(lex, r.value)
            && RenderItems(r.value) + [CLOSE_BRACKET] == t[..r.used]
    decreases |t|, 2
  {
    hide ReadItem, ProperItem, RenderItem, ReadItems, ProperItems, RenderItems;
    ItemsStep(lex, t, depth);
    ItemSound(lex, t, depth);
    var item, k := ReadItem(lex, t, depth).value, ReadItem(lex, t, depth).used;
    if Is(t, k, CLOSE_BRACKET) {
      NoItems(lex);
      ItemsCons(lex, item, []);
      assert [item] + [] == [item];
      assert t[..k + 1] == t[..k] + [CLOSE_BRACKET];
    } else {
      ItemsSound(lex, t[k + 1..], depth);
      var more := ReadItems(lex, t[k + 1..], depth);
      ItemsCons(lex, item, more.value);
      SeparatedText(t, k, more.used, RenderItem(item), RenderItems(more.value), CLOSE_BRACKET);
    }
  }

  lemma NoItems(lex: Lexicon)
    ensures ProperItems(lex, []) && ProperMembers(lex, [])
  {
  }

  lemma KeySound(lex: Lexicon, t: seq<Byte>)
    requires ReadKey(lex, t).Some?
    ensures var (before, past, colon) := ReadKey(lex, t).value;
            Blanks(t[..before]) && KeyOk(lex, t[before..past]) && Blanks(t[past..colon])
  {
    hide StringSpan, BlankRun, KeyOk, Blanks;
    var (before, past, colon) := ReadKey(lex, t).value;
    BlankRunBlanks(t);
    StringSpanSound(lex, t[before..]);
    BlankRunBlanks(t[past..]);
    assert t[before..past] == t[before..][..past - before];
    assert t[past..colon] == t[past..][..colon - past];
  }

  lemma MemberText(t: seq<Byte>, before: nat, past: nat, colon: nat, item: Item, used: nat)
    requires before <= past <= colon && colon + 1 + used <= |t| && t[colon] == COLON
    requires RenderItem(item) == t[colon + 1..][..used]
    ensures RenderMember(Member(t[..before], t[before..past], t[past..colon], item)) == t[..colon + 1 + used]
  {
    hide RenderItem;
    assert t[..colon + 1 + used] == t[..before] + (t[before..past] + (t[past..colon] + ([COLON] + t[colon + 1..][..used])));
  }

  lemma MembersCons(lex: Lexicon, m: Member, members: seq<Member>)
    ensures ProperMembers(lex, [m] + members) <==> ProperMember(lex, m) && ProperMembers(lex, members)
    ensures RenderMembers([m] + members)
            == if members == [] then RenderMember(m) else RenderMember(m) + ([COMMA] + RenderMembers(members))
  {
    hide ProperMember, RenderMember;
    assert ([m] + members)[1..] == members;
  }

  lemma {:induction false} MemberSound(lex: Lexicon, t: seq<Byte>, depth: nat)
    requires ReadMember(lex, t, depth).Got?
    ensures var r := ReadMember(lex, t, depth); ProperMember(lex, r.value) && RenderMember(r.value) == t[..r.used]
    decreases |t|, 1
  {
    hide ReadItem, ProperItem, RenderItem, ReadKey, KeyOk, RenderMember, Blanks;
    KeySound(lex, t);
    var key := ReadKey(lex, t).value;
    var tail := t[key.2 + 1..];
    ItemSound(lex, tail, depth);
    var item := ReadItem(lex, tail, depth);
    MemberText(t, key.0, key.1, key.2, item.value, item.used);
  }

  /** One unfolding of the member reader. */
  lemma MembersStep(lex: Lexicon, t: seq<Byte>, depth: nat)
    requires ReadMembers(lex, t, depth).Got?
    ensures ReadMember(lex, t, depth).Got?
    ensures var m, k := ReadMember(lex, t, depth).value, ReadMember(lex, t, depth).used;
            if Is(t, k, CLOSE_BRACE) then ReadMembers(lex, t, depth) == Got([m], k + 1)
            else
              && Is(t, k, COMMA)
              && var more := ReadMembers(lex, t[k + 1..], depth);
                 more.Got? && ReadMembers(lex, t, depth) == Got([m] + more.value, k + 1 + more.used)
  {
    hide ReadMember;
  }

  lemma {:induction false} MembersSound(lex: Lexicon, t: seq<Byte>, depth: nat)
    requires ReadMembers(lex, t, depth).Got?
    ensures var r := ReadMembers(lex, t, depth);
            && r.value != [] && ProperMembers(lex, r.value)
            && RenderMembers(r.value) + [CLOSE_BRACE] == t[..r.used]
    decreases |t|, 2
  {
    hide ReadMember, ReadMembers, ProperMember, RenderMember, ProperMembers, RenderMembers;
    MembersStep(lex, t, depth);
    MemberSound(lex, t, depth);
    var m, k := ReadMember(lex, t, depth).value, ReadMember(lex, t, depth).used;
    if Is(t, k, CLOSE_BRACE) {
      NoItems(lex);
      MembersCons(lex, m, []);
      assert [m] + [] == [m];
      assert t[..k + 1] == t[..k] + [CLOSE_BRACE];
    } else {
      MembersSound(lex, t[k + 1..], depth);
      var more := ReadMembers(lex, t[k + 1..], depth);
      MembersCons(lex, m, more.value);
      SeparatedText(t, k, more.used, RenderMember(m), RenderMembers(more.value), CLOSE_BRACE);
    }
  }
}
