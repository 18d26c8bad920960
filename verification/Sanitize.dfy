/**
 Out-of-range numbers under a "metadata" key: where they stand in a text, and the text with each of
 them replaced by zero.
 */
module Sanitize {
  import opened Values
  import opened Bytes
  import opened DecimalTokens
  import opened JsonText
  import opened JsonScan
  import opened JsonReads

  /** A stretch of bytes to replace. */
  datatype Span = Span(start: nat, end: nat)

  predicate IsMetadata(lex: Lexicon, key: seq<Byte>) {
    lex.decode(key) == Some("metadata")
  }

  // ---------------------------------------------------------------- where the numbers are

  function Targets(lex: Lexicon, t: Tree, at: nat, inside: bool): seq<Span>
    decreases t
  {
    match t
    case Numeral(text) => if inside && !lex.inRange(text) then [Span(at, at + |text|)] else []
    case List(gap, items) => ItemsTargets(lex, items, at + 1 + |gap|, inside)
    case Record(gap, members) => MembersTargets(lex, members, at + 1 + |gap|, inside)
    case _ => []
  }

  function ItemTargets(lex: Lexicon, item: Item, at: nat, inside: bool): seq<Span>
    decreases item
  {
    Targets(lex, item.value, at + |item.before|, inside)
  }

  function ItemsTargets(lex: Lexicon, items: seq<Item>, at: nat, inside: bool): seq<Span>
    decreases items
  {
    if items == [] then []
    else ItemTargets(lex, items[0], at, inside)
         + ItemsTargets(lex, items[1..], at + |RenderItem(items[0])| + 1, inside)
  }

  function MemberTargets(lex: Lexicon, m: Member, at: nat, inside: bool): seq<Span>
    decreases m
  {
    ItemTargets(lex, m.item, at + |m.before| + |m.key| + |m.between| + 1, inside || IsMetadata(lex, m.key))
  }

  function MembersTargets(lex: Lexicon, members: seq<Member>, at: nat, inside: bool): seq<Span>
    decreases members
  {
    if members == [] then []
    else MemberTargets(lex, members[0], at, inside)
         + MembersTargets(lex, members[1..], at + |RenderMember(members[0])| + 1, inside)
  }

  // ---------------------------------------------------------------- the value without them

  function Clean(lex: Lexicon, t: Tree, inside: bool): Tree
    decreases t
  {
    match t
    case Numeral(text) => if inside && !lex.inRange(text) then Numeral([ZERO]) else t
    case List(gap, items) => List(gap, CleanItems(lex, items, inside))
    case Record(gap, members) => Record(gap, CleanMembers(lex, members, inside))
    case _ => t
  }

  function CleanItem(lex: Lexicon, item: Item, inside: bool): Item
    decreases item
  {
    Item(item.before, Clean(lex, item.value, inside), item.after)
  }

  function CleanItems(lex: Lexicon, items: seq<Item>, inside: bool): (r: seq<Item>)
    ensures |r| == |items|
    decreases items
  {
    if items == [] then [] else [CleanItem(lex, items[0], inside)] + CleanItems(lex, items[1..], inside)
  }

  function CleanMember(lex: Lexicon, m: Member, inside: bool): Member
    decreases m
  {
    Member(m.before, m.key, m.between, CleanItem(lex, m.item, inside || IsMetadata(lex, m.key)))
  }

  function CleanMembers(lex: Lexicon, members: seq<Member>, inside: bool): (r: seq<Member>)
    ensures |r| == |members|
    decreases members
  {
    if members == [] then [] else [CleanMember(lex, members[0], inside)] + CleanMembers(lex, members[1..], inside)
  }

  // ---------------------------------------------------------------- splicing

  /** Spans are nonempty, in order, disjoint, and between the two positions. */
  predicate InOrder(spans: seq<Span>, from: nat, to: nat) {
    if spans == [] then from <= to
    else from <= spans[0].start < spans[0].end && InOrder(spans[1..], spans[0].end, to)
  }

  lemma {:induction false} InOrderBounds(spans: seq<Span>, from: nat, to: nat)
    requires InOrder(spans, from, to)
    ensures from <= to && (spans != [] ==> spans[0].end <= to)
  {
    if spans != [] { InOrderBounds(spans[1..], spans[0].end, to); }
  }

  /** The bytes between two positions with each span replaced by a zero digit. */
  function Cut(bytes: seq<Byte>, spans: seq<Span>, from: nat, to: nat): seq<Byte>
    requires InOrder(spans, from, to) && to <= |bytes|
  {
    InOrderBounds(spans, from, to);
    if spans == [] then bytes[from..to]
    else bytes[from..spans[0].start] + ([ZERO] + Cut(bytes, spans[1..], spans[0].end, to))
  }

  lemma {:induction false} CutJoin(bytes: seq<Byte>, a: seq<Span>, b: seq<Span>, from: nat, mid: nat, to: nat)
    requires InOrder(a, from, mid) && InOrder(b, mid, to) && to <= |bytes|
    ensures InOrder(a + b, from, to) && mid <= to
    ensures Cut(bytes, a + b, from, to) == Cut(bytes, a, from, mid) + Cut(bytes, b, mid, to)
  {
    InOrderBounds(a, from, mid);
    InOrderBounds(b, mid, to);
    if a == [] {
      assert a + b == b;
      CutPlain(bytes, b, from, mid, to);
    } else {
      var s := a[0];
      CutJoin(bytes, a[1..], b, s.end, mid, to);
      assert (a + b)[1..] == a[1..] + b;
      assert (a + b)[0] == s;
    }
  }

  /** Starting earlier only copies more. */
  lemma CutPlain(bytes: seq<Byte>, spans: seq<Span>, from: nat, mid: nat, to: nat)
    requires from <= mid && InOrder(spans, mid, to) && to <= |bytes|
    ensures InOrder(spans, from, to) && mid <= to
    ensures Cut(bytes, spans, from, to) == bytes[from..mid] + Cut(bytes, spans, mid, to)
  {
    InOrderBounds(spans, mid, to);
    if spans == [] {
      Slices(bytes, from, mid, to);
    } else {
      var start := spans[0].start;
      Slices(bytes, from, mid, start);
      var tail := [ZERO] + Cut(bytes, spans[1..], spans[0].end, to);
      assert Cut(bytes, spans, mid, to) == bytes[mid..start] + tail;
      assert Cut(bytes, spans, from, to) == bytes[from..start] + tail;
      hide Cut, InOrder;
      DropJoin(bytes[from..mid], bytes[mid..start], tail);
    }
  }

  lemma Slices(bytes: seq<Byte>, from: nat, mid: nat, to: nat)
    requires from <= mid <= to <= |bytes|
    ensures bytes[from..to] == bytes[from..mid] + bytes[mid..to]
  {
  }

  /** The text found at a position. */
  predicate Holds(bytes: seq<Byte>, at: nat, s: seq<Byte>) {
    at + |s| <= |bytes| && bytes[at..at + |s|] == s
  }

  lemma HoldsSplit(bytes: seq<Byte>, at: nat, a: seq<Byte>, b: seq<Byte>)
    ensures Holds(bytes, at, a + b) <==> Holds(bytes, at, a) && Holds(bytes, at + |a|, b)
  {
    if Holds(bytes, at, a + b) {
      assert bytes[at..at + |a|] == (a + b)[..|a|];
      assert bytes[at + |a|..at + |a| + |b|] == (a + b)[|a|..];
    }
    if Holds(bytes, at, a) && Holds(bytes, at + |a|, b) {
      assert bytes[at..at + |a + b|] == bytes[at..at + |a|] + bytes[at + |a|..at + |a| + |b|];
    }
  }

  /** Spans over text `s` at `at` that turn it into `r`. */
  predicate Turns(bytes: seq<Byte>, spans: seq<Span>, at: nat, s: seq<Byte>, r: seq<Byte>) {
    Holds(bytes, at, s) && InOrder(spans, at, at + |s|) && Cut(bytes, spans, at, at + |s|) == r
  }

  lemma TurnsCopy(bytes: seq<Byte>, at: nat, s: seq<Byte>)
    requires Holds(bytes, at, s)
    ensures Turns(bytes, [], at, s, s)
  {
  }

  lemma TurnsJoin(bytes: seq<Byte>, a: seq<Span>, b: seq<Span>, at: nat, s: seq<Byte>, t: seq<Byte>, r: seq<Byte>,
                  u: seq<Byte>)
    requires Turns(bytes, a, at, s, r) && Turns(bytes, b, at + |s|, t, u)
    ensures Turns(bytes, a + b, at, s + t, r + u)
  {
    hide Cut, InOrder;
    HoldsSplit(bytes, at, s, t);
    CutJoin(bytes, a, b, at, at + |s|, at + |s| + |t|);
  }

  lemma TurnsAfter(bytes: seq<Byte>, spans: seq<Span>, at: nat, p: seq<Byte>, s: seq<Byte>, r: seq<Byte>)
    requires Holds(bytes, at, p) && Turns(bytes, spans, at + |p|, s, r)
    ensures Turns(bytes, spans, at, p + s, p + r)
  {
    TurnsCopy(bytes, at, p);
    TurnsJoin(bytes, [], spans, at, p, s, p, r);
    assert [] + spans == spans;
  }

  lemma TurnsBefore(bytes: seq<Byte>, spans: seq<Span>, at: nat, s: seq<Byte>, r: seq<Byte>, p: seq<Byte>)
    requires Turns(bytes, spans, at, s, r) && Holds(bytes, at + |s|, p)
    ensures Turns(bytes, spans, at, s + p, r + p)
  {
    TurnsCopy(bytes, at + |s|, p);
    TurnsJoin(bytes, spans, [], at, s, p, r, p);
    assert spans + [] == spans;
  }

  // ---------------------------------------------------------------- splicing cleans

  lemma TurnsNumeral(bytes: seq<Byte>, at: nat, text: seq<Byte>)
    requires Holds(bytes, at, text) && text != []
    ensures Turns(bytes, [Span(at, at + |text|)], at, text, [ZERO])
  {
    var spans := [Span(at, at + |text|)];
    assert spans[1..] == [];
    assert bytes[at..at] == [];
    assert bytes[at + |text|..at + |text|] == [];
  }

  /** Replacing the targets of a value leaves the rendering of the cleaned value. */
  lemma {:induction false} TreeTurns(lex: Lexicon, bytes: seq<Byte>, t: Tree, at: nat, inside: bool)
    requires Proper(lex, t) && Holds(bytes, at, Render(t))
    ensures Turns(bytes, Targets(lex, t, at, inside), at, Render(t), Render(Clean(lex, t, inside)))
    decreases t
  {
    hide Turns, Holds, Read, KeyOk, InOrder, Cut;
    match t
    case Numeral(text) =>
      if inside && !lex.inRange(text) {
        NonEmptyNumber(text);
        TurnsNumeral(bytes, at, text);
      } else {
        TurnsCopy(bytes, at, text);
      }
    case List(gap, items) =>
      hide RenderItems, ItemsTargets, CleanItems, ProperItems;
      var inner, new_ := RenderItems(items), RenderItems(CleanItems(lex, items, inside));
      var head: seq<Byte> := [OPEN_BRACKET] + gap;
      ListJoin(gap, inner, OPEN_BRACKET, CLOSE_BRACKET);
      ListJoin(gap, new_, OPEN_BRACKET, CLOSE_BRACKET);
      HoldsSplit(bytes, at, head, inner + [CLOSE_BRACKET]);
      HoldsSplit(bytes, at + |head|, inner, [CLOSE_BRACKET]);
      ItemsTurn(lex, bytes, items, at + |head|, inside);
      TurnsBefore(bytes, Targets(lex, t, at, inside), at + |head|, inner, new_, [CLOSE_BRACKET]);
      TurnsAfter(bytes, Targets(lex, t, at, inside), at, head, inner + [CLOSE_BRACKET], new_ + [CLOSE_BRACKET]);
    case Record(gap, members) =>
      hide RenderMembers, MembersTargets, CleanMembers, ProperMembers;
      var inner, new_ := RenderMembers(members), RenderMembers(CleanMembers(lex, members, inside));
      var head: seq<Byte> := [OPEN_BRACE] + gap;
      ListJoin(gap, inner, OPEN_BRACE, CLOSE_BRACE);
      ListJoin(gap, new_, OPEN_BRACE, CLOSE_BRACE);
      HoldsSplit(bytes, at, head, inner + [CLOSE_BRACE]);
      HoldsSplit(bytes, at + |head|, inner, [CLOSE_BRACE]);
      MembersTurn(lex, bytes, members, at + |head|, inside);
      TurnsBefore(bytes, Targets(lex, t, at, inside), at + |head|, inner, new_, [CLOSE_BRACE]);
      TurnsAfter(bytes, Targets(lex, t, at, inside), at, head, inner + [CLOSE_BRACE], new_ + [CLOSE_BRACE]);
    case Word(text) => TurnsCopy(bytes, at, text);
    case Quote(text) => TurnsCopy(bytes, at, text);
  }

  lemma ListJoin(gap: seq<Byte>, inner: seq<Byte>, open: Byte, close: Byte)
    ensures [open] + (gap + (inner + [close])) == ([open] + gap) + (inner + [close])
  {
  }

  lemma NonEmptyNumber(text: seq<Byte>)
    requires Read(text).Some?
    ensures text != []
  {
  }

  lemma {:induction false} ItemTurns(lex: Lexicon, bytes: seq<Byte>, item: Item, at: nat, inside: bool)
    requires ProperItem(lex, item) && Holds(bytes, at, RenderItem(item))
    ensures Turns(bytes, ItemTargets(lex, item, at, inside), at, RenderItem(item), RenderItem(CleanItem(lex, item, inside)))
    decreases item
  {
    hide Turns, Holds, Render, Targets, Clean, Proper, InOrder, Cut;
    var value, new_ := Render(item.value), Render(Clean(lex, item.value, inside));
    var spans := ItemTargets(lex, item, at, inside);
    HoldsSplit(bytes, at, item.before, value + item.after);
    HoldsSplit(bytes, at + |item.before|, value, item.after);
    TreeTurns(lex, bytes, item.value, at + |item.before|, inside);
    TurnsBefore(bytes, spans, at + |item.before|, value, new_, item.after);
    TurnsAfter(bytes, spans, at, item.before, value + item.after, new_ + item.after);
  }

  lemma {:induction false} ItemsTurn(lex: Lexicon, bytes: seq<Byte>, items: seq<Item>, at: nat, inside: bool)
    requires ProperItems(lex, items) && Holds(bytes, at, RenderItems(items))
    ensures Turns(bytes, ItemsTargets(lex, items, at, inside), at, RenderItems(items),
                  RenderItems(CleanItems(lex, items, inside)))
    decreases items
  {
    hide Turns, Holds, RenderItem, ItemTargets, CleanItem, ProperItem, InOrder, Cut;
    if items == [] {
      TurnsCopy(bytes, at, []);
    } else {
      var item, rest := items[0], items[1..];
      var text, clean := RenderItem(item), CleanItem(lex, item, inside);
      var spans := ItemTargets(lex, item, at, inside);
      ItemsCons(lex, item, rest);
      assert [item] + rest == items;
      ItemsCons(lex, clean, CleanItems(lex, rest, inside));
      if rest == [] {
        ItemTurns(lex, bytes, item, at, inside);
        assert spans + [] == spans;
      } else {
        hide RenderItems;
        var more, new_ := RenderItems(rest), RenderItems(CleanItems(lex, rest, inside));
        HoldsSplit(bytes, at, text, [COMMA] + more);
        HoldsSplit(bytes, at + |text|, [COMMA], more);
        ItemTurns(lex, bytes, item, at, inside);
        ItemsTurn(lex, bytes, rest, at + |text| + 1, inside);
        var later := ItemsTargets(lex, rest, at + |text| + 1, inside);
        TurnsAfter(bytes, later, at + |text|, [COMMA], more, new_);
        TurnsJoin(bytes, spans, later, at, text, [COMMA] + more, RenderItem(clean), [COMMA] + new_);
      }
    }
  }

  lemma {:induction false} MemberTurns(lex: Lexicon, bytes: seq<Byte>, m: Member, at: nat, inside: bool)
    requires ProperMember(lex, m) && Holds(bytes, at, RenderMember(m))
    ensures Turns(bytes, MemberTargets(lex, m, at, inside), at, RenderMember(m), RenderMember(CleanMember(lex, m, inside)))
    decreases m
  {
    hide Turns, Holds, RenderItem, ItemTargets, CleanItem, ProperItem, KeyOk, InOrder, Cut;
    var within := inside || IsMetadata(lex, m.key);
    var head := m.before + m.key + m.between + [COLON];
    var text, new_ := RenderItem(m.item), RenderItem(CleanItem(lex, m.item, within));
    MemberHead(m, text);
    MemberHead(m, new_);
    HoldsSplit(bytes, at, head, text);
    ItemTurns(lex, bytes, m.item, at + |head|, within);
    TurnsAfter(bytes, MemberTargets(lex, m, at, inside), at, head, text, new_);
  }

  lemma MemberHead(m: Member, text: seq<Byte>)
    ensures m.before + (m.key + (m.between + ([COLON] + text))) == (m.before + m.key + m.between + [COLON]) + text
  {
  }

  lemma {:induction false} MembersTurn(lex: Lexicon, bytes: seq<Byte>, members: seq<Member>, at: nat, inside: bool)
    requires ProperMembers(lex, members) && Holds(bytes, at, RenderMembers(members))
    ensures Turns(bytes, MembersTargets(lex, members, at, inside), at, RenderMembers(members),
                  RenderMembers(CleanMembers(lex, members, inside)))
    decreases members
  {
    hide Turns, Holds, RenderMember, MemberTargets, CleanMember, ProperMember, InOrder, Cut;
    if members == [] {
      TurnsCopy(bytes, at, []);
    } else {
      var m, rest := members[0], members[1..];
      var text, clean := RenderMember(m), CleanMember(lex, m, inside);
      var spans := MemberTargets(lex, m, at, inside);
      MembersCons(lex, m, rest);
      assert [m] + rest == members;
      MembersCons(lex, clean, CleanMembers(lex, rest, inside));
      if rest == [] {
        MemberTurns(lex, bytes, m, at, inside);
        assert spans + [] == spans;
      } else {
        hide RenderMembers;
        var more, new_ := RenderMembers(rest), RenderMembers(CleanMembers(lex, rest, inside));
        HoldsSplit(bytes, at, text, [COMMA] + more);
        HoldsSplit(bytes, at + |text|, [COMMA], more);
        MemberTurns(lex, bytes, m, at, inside);
        MembersTurn(lex, bytes, rest, at + |text| + 1, inside);
        var later := MembersTargets(lex, rest, at + |text| + 1, inside);
        TurnsAfter(bytes, later, at + |text|, [COMMA], more, new_);
        TurnsJoin(bytes, spans, later, at, text, [COMMA] + more, RenderMember(clean), [COMMA] + new_);
      }
    }
  }
}
