/**
 The metadata scanner: a recursive descent over the bytes that records the spans of out-of-range
 numbers under a "metadata" key, and the copy that replaces them.
 */
module MetadataScan {
  import opened Values
  import opened Bytes
  import opened JsonText
  import opened JsonScan
  import opened JsonReads
  import opened Sanitize

  // ---------------------------------------------------------------- outcomes at a position

  /** Where a scan ends and what it records; nothing when it fails. */
  type Found = Option<(nat, seq<Span>)>

  function After(done: seq<Span>, r: Found): Found {
    if r.Some? then Some((r.value.0, done + r.value.1)) else None
  }

  function SkipTo(bytes: seq<Byte>, p: nat): (q: nat)
    requires p <= |bytes|
    ensures p <= q <= |bytes|
  {
    p + BlankRun(bytes[p..])
  }

  function TreeAt(lex: Lexicon, bytes: seq<Byte>, p: nat, depth: nat, inside: bool): (r: Found)
    requires p <= |bytes|
    ensures r.Some? ==> r.value.0 <= |bytes|
  {
    var t := ReadTree(lex, bytes[p..], depth);
    if t.Got? then Some((p + t.used, Targets(lex, t.value, p, inside))) else None
  }

  function ItemsAt(lex: Lexicon, bytes: seq<Byte>, p: nat, depth: nat, inside: bool): (r: Found)
    requires p <= |bytes|
    ensures r.Some? ==> r.value.0 <= |bytes|
  {
    var t := ReadItems(lex, bytes[p..], depth);
    if t.Got? then Some((p + t.used, ItemsTargets(lex, t.value, p, inside))) else None
  }

  function MembersAt(lex: Lexicon, bytes: seq<Byte>, p: nat, depth: nat, inside: bool): (r: Found)
    requires p <= |bytes|
    ensures r.Some? ==> r.value.0 <= |bytes|
  {
    var t := ReadMembers(lex, bytes[p..], depth);
    if t.Got? then Some((p + t.used, MembersTargets(lex, t.value, p, inside))) else None
  }

  lemma Suffix(bytes: seq<Byte>, p: nat, k: nat)
    requires p + k <= |bytes|
    ensures bytes[p..][k..] == bytes[p + k..]
  {
  }

  // ---------------------------------------------------------------- one step of each loop

  lemma ReadItemIs(lex: Lexicon, t: seq<Byte>, depth: nat)
    ensures var before := BlankRun(t);
            var tree, item := ReadTree(lex, t[before..], depth), ReadItem(lex, t, depth);
            && (item.Got? <==> tree.Got?)
            && (item.Got? ==>
                  && item.used == before + tree.used + BlankRun(t[before + tree.used..])
                  && |item.value.before| == before && item.value.value == tree.value)
  {
    hide ReadTree, BlankRun;
  }

  lemma ItemAt(lex: Lexicon, bytes: seq<Byte>, p: nat, depth: nat, inside: bool)
    requires p <= |bytes|
    ensures var q := SkipTo(bytes, p);
            var v := TreeAt(lex, bytes, q, depth, inside);
            var item := ReadItem(lex, bytes[p..], depth);
            && (v.Some? <==> item.Got?)
            && (v.Some? ==> && SkipTo(bytes, v.value.0) == p + item.used
                            && v.value.1 == ItemTargets(lex, item.value, p, inside)
                            && |RenderItem(item.value)| == item.used)
  {
    hide ReadTree, BlankRun, Targets, RenderItem, ProperItem, ReadItem;
    var t := bytes[p..];
    var before := BlankRun(t);
    ReadItemIs(lex, t, depth);
    Suffix(bytes, p, before);
    var tree := ReadTree(lex, bytes[p + before..], depth);
    if tree.Got? {
      Suffix(bytes, p, before + tree.used);
      ItemSound(lex, t, depth);
    }
  }

  lemma ItemsTargetsCons(lex: Lexicon, item: Item, items: seq<Item>, at: nat, inside: bool)
    ensures ItemsTargets(lex, [item] + items, at, inside)
            == ItemTargets(lex, item, at, inside) + ItemsTargets(lex, items, at + |RenderItem(item)| + 1, inside)
    ensures ItemsTargets(lex, [item], at, inside) == ItemTargets(lex, item, at, inside)
  {
    hide RenderItem, ItemTargets;
    assert ([item] + items)[1..] == items;
    assert [item][1..] == [];
    assert ItemTargets(lex, item, at, inside) + [] == ItemTargets(lex, item, at, inside);
  }

  lemma MembersTargetsCons(lex: Lexicon, m: Member, members: seq<Member>, at: nat, inside: bool)
    ensures MembersTargets(lex, [m] + members, at, inside)
            == MemberTargets(lex, m, at, inside) + MembersTargets(lex, members, at + |RenderMember(m)| + 1, inside)
    ensures MembersTargets(lex, [m], at, inside) == MemberTargets(lex, m, at, inside)
  {
    hide RenderMember, MemberTargets;
    assert ([m] + members)[1..] == members;
    assert [m][1..] == [];
    assert MemberTargets(lex, m, at, inside) + [] == MemberTargets(lex, m, at, inside);
  }

  lemma ItemsAtStep(lex: Lexicon, bytes: seq<Byte>, p: nat, depth: nat, inside: bool)
    requires p <= |bytes|
    ensures var v := TreeAt(lex, bytes, SkipTo(bytes, p), depth, inside);
            ItemsAt(lex, bytes, p, depth, inside)
            == if v.None? then None
               else
                 var k := SkipTo(bytes, v.value.0);
                 if Is(bytes, k, CLOSE_BRACKET) then Some((k + 1, v.value.1))
                 else if !Is(bytes, k, COMMA) then None
                 else After(v.value.1, ItemsAt(lex, bytes, k + 1, depth, inside))
  {
    hide ReadItem, BlankRun, RenderItem, ItemTargets, TreeAt, SkipTo, ItemsTargets;
    ItemAt(lex, bytes, p, depth, inside);
    var item := ReadItem(lex, bytes[p..], depth);
    if item.Got? {
      var k := item.used;
      if Is(bytes, p + k, CLOSE_BRACKET) {
        ItemsTargetsCons(lex, item.value, [], p, inside);
      } else if Is(bytes, p + k, COMMA) {
        Suffix(bytes, p, k + 1);
        var more := ReadItems(lex, bytes[p + k + 1..], depth);
        if more.Got? { ItemsTargetsCons(lex, item.value, more.value, p, inside); }
      }
    }
  }

  /** Starting at the blanks or after them is the same. */
  lemma ItemsAtBlanks(lex: Lexicon, bytes: seq<Byte>, p: nat, depth: nat, inside: bool)
    requires p <= |bytes|
    ensures ItemsAt(lex, bytes, SkipTo(bytes, p), depth, inside) == ItemsAt(lex, bytes, p, depth, inside)
  {
    SkipTwice(bytes, p);
    hide ItemsAt, TreeAt, SkipTo;
    ItemsAtStep(lex, bytes, p, depth, inside);
    ItemsAtStep(lex, bytes, SkipTo(bytes, p), depth, inside);
  }

  lemma SkipTwice(bytes: seq<Byte>, p: nat)
    requires p <= |bytes|
    ensures SkipTo(bytes, SkipTo(bytes, p)) == SkipTo(bytes, p)
  {
    var q := SkipTo(bytes, p);
    BlankRunBlanks(bytes[p..]);
    assert q < |bytes| ==> bytes[q] == bytes[p..][q - p];
  }

  /** The key at a position: its literal, and the position after its colon. */
  function KeyAt(lex: Lexicon, bytes: seq<Byte>, p: nat): (r: Option<(seq<Byte>, nat)>)
    requires p <= |bytes|
    ensures r.Some? ==> p < r.value.1 <= |bytes|
  {
    var q := SkipTo(bytes, p);
    var key := StringSpan(lex, bytes[q..]);
    if key.None? then None
    else
      var colon := SkipTo(bytes, q + key.value);
      if Is(bytes, colon, COLON) then Some((bytes[q..][..key.value], colon + 1)) else None
  }

  lemma KeyAtIs(lex: Lexicon, bytes: seq<Byte>, p: nat)
    requires p <= |bytes|
    ensures KeyAt(lex, bytes, p).Some? <==> ReadKey(lex, bytes[p..]).Some?
    ensures KeyAt(lex, bytes, p).Some? ==>
              var key := ReadKey(lex, bytes[p..]).value;
              && KeyAt(lex, bytes, p).value == (bytes[p..][key.0..key.1], p + key.2 + 1)
  {
    hide BlankRun, StringSpan;
    var t := bytes[p..];
    var before := BlankRun(t);
    Suffix(bytes, p, before);
    assert SkipTo(bytes, p) == p + before;
    var key := StringSpan(lex, t[before..]);
    if key.Some? {
      var past := before + key.value;
      Suffix(bytes, p, past);
      assert SkipTo(bytes, p + past) == p + past + BlankRun(t[past..]);
      hide SkipTo;
      assert t[before..past] == t[before..][..key.value];
    }
  }

  /** One member at a position: its key, then its value. */
  lemma MemberAtIs(lex: Lexicon, bytes: seq<Byte>, p: nat, depth: nat, inside: bool)
    requires p <= |bytes|
    ensures var key, m := KeyAt(lex, bytes, p), ReadMember(lex, bytes[p..], depth);
            && (key.None? ==> !m.Got?)
            && (key.Some? ==>
                  var v := TreeAt(lex, bytes, SkipTo(bytes, key.value.1), depth, inside || IsMetadata(lex, key.value.0));
                  && (v.Some? <==> m.Got?)
                  && (v.Some? ==> && SkipTo(bytes, v.value.0) == p + m.used
                                  && v.value.1 == MemberTargets(lex, m.value, p, inside)
                                  && |RenderMember(m.value)| == m.used))
  {
    hide ReadItem, RenderItem, ItemTargets, TreeAt, SkipTo, ReadKey, KeyAt, RenderMember, ProperMember;
    KeyAtIs(lex, bytes, p);
    var t := bytes[p..];
    if ReadKey(lex, t).Some? {
      var key := ReadKey(lex, t).value;
      Suffix(bytes, p, key.2 + 1);
      ItemAt(lex, bytes, p + key.2 + 1, depth, inside || IsMetadata(lex, t[key.0..key.1]));
      if ReadMember(lex, t, depth).Got? { MemberSound(lex, t, depth); }
    }
  }

  lemma MembersAtStep(lex: Lexicon, bytes: seq<Byte>, p: nat, depth: nat, inside: bool)
    requires p <= |bytes|
    ensures var key := KeyAt(lex, bytes, p);
            MembersAt(lex, bytes, p, depth, inside)
            == if key.None? then None
               else
                 var v := TreeAt(lex, bytes, SkipTo(bytes, key.value.1), depth, inside || IsMetadata(lex, key.value.0));
                 if v.None? then None
                 else
                   var k := SkipTo(bytes, v.value.0);
                   if Is(bytes, k, CLOSE_BRACE) then Some((k + 1, v.value.1))
                   else if !Is(bytes, k, COMMA) then None
                   else After(v.value.1, MembersAt(lex, bytes, k + 1, depth, inside))
  {
    hide ReadMember, RenderMember, MemberTargets, TreeAt, SkipTo, KeyAt, MembersTargets, IsMetadata;
    MemberAtIs(lex, bytes, p, depth, inside);
    var m := ReadMember(lex, bytes[p..], depth);
    if m.Got? {
      var k := m.used;
      if Is(bytes, p + k, CLOSE_BRACE) {
        MembersTargetsCons(lex, m.value, [], p, inside);
      } else if Is(bytes, p + k, COMMA) {
        Suffix(bytes, p, k + 1);
        var more := ReadMembers(lex, bytes[p + k + 1..], depth);
        if more.Got? { MembersTargetsCons(lex, m.value, more.value, p, inside); }
      }
    }
  }

  lemma KeyAtBlanks(lex: Lexicon, bytes: seq<Byte>, p: nat)
    requires p <= |bytes|
    ensures KeyAt(lex, bytes, SkipTo(bytes, p)) == KeyAt(lex, bytes, p)
  {
    SkipTwice(bytes, p);
    hide SkipTo, StringSpan;
  }

  lemma MembersAtBlanks(lex: Lexicon, bytes: seq<Byte>, p: nat, depth: nat, inside: bool)
    requires p <= |bytes|
    ensures MembersAt(lex, bytes, SkipTo(bytes, p), depth, inside) == MembersAt(lex, bytes, p, depth, inside)
  {
    hide MembersAt, TreeAt, SkipTo, KeyAt;
    KeyAtBlanks(lex, bytes, p);
    MembersAtStep(lex, bytes, p, depth, inside);
    MembersAtStep(lex, bytes, SkipTo(bytes, p), depth, inside);
  }

  /** Unfolding a value at its first byte. */
  lemma ListAt(lex: Lexicon, bytes: seq<Byte>, p: nat, depth: nat, inside: bool)
    requires Is(bytes, p, OPEN_BRACKET) && depth <= MAX_SUPPORTED_JSON_DEPTH
    ensures var q := SkipTo(bytes, p + 1);
            TreeAt(lex, bytes, p, depth, inside)
            == if Is(bytes, q, CLOSE_BRACKET) then Some((q + 1, [])) else ItemsAt(lex, bytes, p + 1, depth + 1, inside)
  {
    hide ReadItems, BlankRun, ReadMembers, Leaf;
    var t := bytes[p..];
    Suffix(bytes, p, 1);
    var gap := BlankRun(t[1..]);
    if Is(t, 1 + gap, CLOSE_BRACKET) {
      var tree := List(t[1..1 + gap], []);
      assert ReadTree(lex, t, depth) == Got(tree, 2 + gap);
      assert Targets(lex, tree, p, inside) == [];
    } else {
      var r := ReadItems(lex, t[1..], depth + 1);
      hide ItemsTargets;
      assert r.Got? ==> ReadTree(lex, t, depth) == Got(List([], r.value), 1 + r.used);
      assert r.Got? ==> Targets(lex, List([], r.value), p, inside) == ItemsTargets(lex, r.value, p + 1, inside);
    }
  }

  lemma RecordAt(lex: Lexicon, bytes: seq<Byte>, p: nat, depth: nat, inside: bool)
    requires Is(bytes, p, OPEN_BRACE) && depth <= MAX_SUPPORTED_JSON_DEPTH
    ensures var q := SkipTo(bytes, p + 1);
            TreeAt(lex, bytes, p, depth, inside)
            == if Is(bytes, q, CLOSE_BRACE) then Some((q + 1, [])) else MembersAt(lex, bytes, p + 1, depth + 1, inside)
  {
    hide ReadItems, BlankRun, ReadMembers, Leaf;
    var t := bytes[p..];
    Suffix(bytes, p, 1);
    var gap := BlankRun(t[1..]);
    if Is(t, 1 + gap, CLOSE_BRACE) {
      var tree := Record(t[1..1 + gap], []);
      assert ReadTree(lex, t, depth) == Got(tree, 2 + gap);
      assert Targets(lex, tree, p, inside) == [];
    } else {
      var r := ReadMembers(lex, t[1..], depth + 1);
      hide MembersTargets;
      assert r.Got? ==> ReadTree(lex, t, depth) == Got(Record([], r.value), 1 + r.used);
      assert r.Got? ==> Targets(lex, Record([], r.value), p, inside) == MembersTargets(lex, r.value, p + 1, inside);
    }
  }

  lemma LeafAt(lex: Lexicon, bytes: seq<Byte>, p: nat, depth: nat, inside: bool)
    requires p <= |bytes| && !Is(bytes, p, OPEN_BRACKET) && !Is(bytes, p, OPEN_BRACE) && depth <= MAX_SUPPORTED_JSON_DEPTH
    ensures var t := Leaf(lex, bytes[p..]);
            TreeAt(lex, bytes, p, depth, inside)
            == if t.Got? then Some((p + t.used, Targets(lex, t.value, p, inside))) else None
  {
    hide Leaf, Targets;
  }
}
