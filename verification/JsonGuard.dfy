/** On bytes that the depth scanner lets through, the reader's own depth guard never fires. */
module JsonGuard {
  import opened Bytes
  import opened JsonText
  import opened DepthScan
  import opened JsonScan
  import opened JsonReads

  const LIMIT: nat := MAX_SUPPORTED_JSON_DEPTH

  /** Depth beyond a stretch of bytes that leaves the scanner where it was is depth from its start. */
  lemma BeyondBlanks(t: seq<Byte>, depth: nat)
    ensures Exceeds(t[BlankRun(t)..], depth, Plain, LIMIT) == Exceeds(t, depth, Plain, LIMIT)
  {
    var k := BlankRun(t);
    BlankRunBlanks(t);
    BlanksFlat(t[..k]);
    hide Exceeds, BlankRun;
    PastFlat(t[..k], t[k..], depth, LIMIT);
    assert t == t[..k] + t[k..];
  }

  lemma BeyondOpen(t: seq<Byte>, depth: nat)
    requires t != [] && Opens(t[0]) && (depth + 1 <= LIMIT ==> Exceeds(t[1..], depth + 1, Plain, LIMIT))
    ensures Exceeds(t, depth, Plain, LIMIT)
  {
  }

  lemma BeyondComma(lex: Lexicon, t: seq<Byte>, item: Item, k: nat, depth: nat)
    requires k < |t| && t[k] == COMMA && ProperItem(lex, item) && RenderItem(item) == t[..k]
    requires Exceeds(t[k + 1..], depth, Plain, LIMIT)
    ensures Exceeds(t, depth, Plain, LIMIT)
  {
    hide Exceeds, ProperItem, RenderItem, Nesting;
    assert t == t[..k] + ([COMMA] + t[k + 1..]);
    PastFlat([COMMA], t[k + 1..], depth, LIMIT);
    PastItem(lex, item, [COMMA] + t[k + 1..], depth, LIMIT);
  }

  lemma BeyondMemberComma(lex: Lexicon, t: seq<Byte>, m: Member, k: nat, depth: nat)
    requires k < |t| && t[k] == COMMA && ProperMember(lex, m) && RenderMember(m) == t[..k]
    requires Exceeds(t[k + 1..], depth, Plain, LIMIT)
    ensures Exceeds(t, depth, Plain, LIMIT)
  {
    hide Exceeds, ProperMember, RenderMember, Nesting;
    assert t == t[..k] + ([COMMA] + t[k + 1..]);
    PastFlat([COMMA], t[k + 1..], depth, LIMIT);
    PastMember(lex, m, [COMMA] + t[k + 1..], depth, LIMIT);
  }

  lemma PastKey(a: seq<Byte>, key: seq<Byte>, c: seq<Byte>, tail: seq<Byte>, depth: nat)
    requires Blanks(a) && QuotedText(key) && Blanks(c)
    ensures Exceeds(a + (key + (c + ([COLON] + tail))), depth, Plain, LIMIT) == Exceeds(tail, depth, Plain, LIMIT)
  {
    hide Exceeds, QuotedText;
    BlanksFlat(a);
    BlanksFlat(c);
    PastFlat([COLON], tail, depth, LIMIT);
    PastFlat(c, [COLON] + tail, depth, LIMIT);
    PastQuoted(key, c + ([COLON] + tail), depth, LIMIT);
    PastFlat(a, key + (c + ([COLON] + tail)), depth, LIMIT);
  }

  lemma KeyText(t: seq<Byte>, before: nat, past: nat, colon: nat)
    requires before <= past <= colon < |t| && t[colon] == COLON
    ensures t == t[..before] + (t[before..past] + (t[past..colon] + ([COLON] + t[colon + 1..])))
  {
  }

  lemma BeyondKey(lex: Lexicon, t: seq<Byte>, depth: nat)
    requires ReadKey(lex, t).Some?
    requires Exceeds(t[ReadKey(lex, t).value.2 + 1..], depth, Plain, LIMIT)
    ensures Exceeds(t, depth, Plain, LIMIT)
  {
    hide Exceeds, ReadKey, QuotedText, Blanks;
    KeySound(lex, t);
    var (before, past, colon) := ReadKey(lex, t).value;
    KeyText(t, before, past, colon);
    PastKey(t[..before], t[before..past], t[past..colon], t[colon + 1..], depth);
  }

  lemma {:induction false} TreeGuard(lex: Lexicon, t: seq<Byte>, depth: nat)
    requires depth <= LIMIT && ReadTree(lex, t, depth).TooDeep?
    ensures Exceeds(t, depth, Plain, LIMIT)
    decreases |t|, 0
  {
    hide Exceeds, ReadItems, ReadMembers, BlankRun;
    if Is(t, 0, OPEN_BRACKET) {
      if depth + 1 <= LIMIT { ItemsGuard(lex, t[1..], depth + 1); }
      BeyondOpen(t, depth);
    } else if Is(t, 0, OPEN_BRACE) {
      if depth + 1 <= LIMIT { MembersGuard(lex, t[1..], depth + 1); }
      BeyondOpen(t, depth);
    }
  }

  lemma {:induction false} ItemGuard(lex: Lexicon, t: seq<Byte>, depth: nat)
    requires depth <= LIMIT && ReadItem(lex, t, depth).TooDeep?
    ensures Exceeds(t, depth, Plain, LIMIT)
    decreases |t|, 1
  {
    hide Exceeds, ReadTree, BlankRun;
    TreeGuard(lex, t[BlankRun(t)..], depth);
    BeyondBlanks(t, depth);
  }

  lemma {:induction false} ItemsGuard(lex: Lexicon, t: seq<Byte>, depth: nat)
    requires depth <= LIMIT && ReadItems(lex, t, depth).TooDeep?
    ensures Exceeds(t, depth, Plain, LIMIT)
    decreases |t|, 2
  {
    hide Exceeds, ReadItem, RenderItem, ProperItem;
    if ReadItem(lex, t, depth).TooDeep? {
      ItemGuard(lex, t, depth);
    } else {
      ItemSound(lex, t, depth);
      var item := ReadItem(lex, t, depth);
      ItemsGuard(lex, t[item.used + 1..], depth);
      BeyondComma(lex, t, item.value, item.used, depth);
    }
  }

  lemma {:induction false} MemberGuard(lex: Lexicon, t: seq<Byte>, depth: nat)
    requires depth <= LIMIT && ReadMember(lex, t, depth).TooDeep?
    ensures Exceeds(t, depth, Plain, LIMIT)
    decreases |t|, 1
  {
    hide Exceeds, ReadItem, ReadKey;
    ItemGuard(lex, t[ReadKey(lex, t).value.2 + 1..], depth);
    BeyondKey(lex, t, depth);
  }

  lemma {:induction false} MembersGuard(lex: Lexicon, t: seq<Byte>, depth: nat)
    requires depth <= LIMIT && ReadMembers(lex, t, depth).TooDeep?
    ensures Exceeds(t, depth, Plain, LIMIT)
    decreases |t|, 2
  {
    hide Exceeds, ReadMember, RenderMember, ProperMember;
    if ReadMember(lex, t, depth).TooDeep? {
      MemberGuard(lex, t, depth);
    } else {
      MemberSound(lex, t, depth);
      var m := ReadMember(lex, t, depth);
      MembersGuard(lex, t[m.used + 1..], depth);
      BeyondMemberComma(lex, t, m.value, m.used, depth);
    }
  }

  /** Within the limit the guard never fires, whatever the bytes. */
  lemma GuardSilent(lex: Lexicon, bytes: seq<Byte>)
    requires !Exceeds(bytes, 0, Plain, LIMIT)
    ensures !ReadItem(lex, bytes, 0).TooDeep?
  {
    hide Exceeds, ReadItem;
    if ReadItem(lex, bytes, 0).TooDeep? { ItemGuard(lex, bytes, 0); }
  }
}
