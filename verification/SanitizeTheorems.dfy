/** What sanitizing does to whole texts. */
module SanitizeTheorems {
  import opened Values
  import opened Bytes
  import opened DecimalTokens
  import opened JsonText
  import opened DepthScan
  import opened JsonScan
  import opened JsonReads
  import opened JsonComplete
  import opened Sanitize
  import opened MetadataScan
  import opened MetadataScanner

  lemma WholeTurns(lex: Lexicon, bytes: seq<Byte>)
    requires ReadItem(lex, bytes, 0).Got? && ReadItem(lex, bytes, 0).used == |bytes|
    ensures var doc := ReadItem(lex, bytes, 0).value;
            && ProperItem(lex, doc) && RenderItem(doc) == bytes
            && InOrder(ItemTargets(lex, doc, 0, false), 0, |bytes|)
            && Cut(bytes, ItemTargets(lex, doc, 0, false), 0, |bytes|) == RenderItem(CleanItem(lex, doc, false))
  {
    hide ReadItem, ProperItem, RenderItem, ItemTargets, CleanItem, InOrder, Cut;
    ItemSound(lex, bytes, 0);
    var doc := ReadItem(lex, bytes, 0).value;
    assert bytes[..|bytes|] == bytes;
    ItemTurns(lex, bytes, doc, 0, false);
  }

  /** The sanitized text: spans are cut only from a text that scans to its end. */
  function Sanitized(lex: Lexicon, bytes: seq<Byte>): seq<Byte> {
    var r := ReadItem(lex, bytes, 0);
    if r.Got? && r.used == |bytes| then
      WholeTurns(lex, bytes);
      Cut(bytes, ItemTargets(lex, r.value, 0, false), 0, |bytes|)
    else bytes
  }

  /** `sanitize_out_of_range_metadata_numbers`. */
  method SanitizeNumbers(lex: Lexicon, bytes: seq<Byte>) returns (output: seq<Byte>)
    ensures output == Sanitized(lex, bytes)
  {
    hide ReadItem, TreeAt, SkipTo, ItemTargets, RenderItem, CleanItem, ProperItem, Cut, InOrder;
    ItemAt(lex, bytes, 0, 0, false);
    assert bytes[0..] == bytes;
    var scanner := new Scanner(lex, bytes);
    var ok := scanner.ScanValue(false, 0);
    if !ok { return bytes; }
    scanner.SkipWhitespace();
    if scanner.index != |bytes| { return bytes; }
    WholeTurns(lex, bytes);
    var spans := scanner.replacements;
    ghost var targets := ItemTargets(lex, ReadItem(lex, bytes, 0).value, 0, false);
    assert [] + targets == targets;
    assert spans == targets;
    output := Splice(bytes, spans);
  }

  /** The copy loop: text up to each span, a zero, and so on to the end. */
  method Splice(bytes: seq<Byte>, spans: seq<Span>) returns (output: seq<Byte>)
    requires InOrder(spans, 0, |bytes|)
    ensures output == Cut(bytes, spans, 0, |bytes|)
  {
    output := [];
    var copied: nat := 0;
    assert spans[0..] == spans;
    for i := 0 to |spans|
      invariant copied <= |bytes| && InOrder(spans[i..], copied, |bytes|)
      invariant output + Cut(bytes, spans[i..], copied, |bytes|) == Cut(bytes, spans, 0, |bytes|)
    {
      assert spans[i..][1..] == spans[i + 1..];
      InOrderBounds(spans[i..], copied, |bytes|);
      var start := spans[i].start;
      var head, tail := bytes[copied..start], Cut(bytes, spans[i + 1..], spans[i].end, |bytes|);
      CutStep(bytes, spans[i..], copied, |bytes|);
      DropJoin(output, head, [ZERO] + tail);
      DropJoin(output + head, [ZERO], tail);
      hide Cut;
      output := output + head;
      output := output + [ZERO];
      copied := spans[i].end;
    }
    assert spans[|spans|..] == [];
    output := output + bytes[copied..];
  }

  lemma CutStep(bytes: seq<Byte>, spans: seq<Span>, from: nat, to: nat)
    requires spans != [] && InOrder(spans, from, to) && to <= |bytes| && spans[0].end <= to
    ensures Cut(bytes, spans, from, to)
            == bytes[from..spans[0].start] + ([ZERO] + Cut(bytes, spans[1..], spans[0].end, to))
  {
  }

  /** On every JSON text within the depth limit the result is that text with exactly the out-of-range
      numbers under a "metadata" key replaced by zero; the spans are ordered, disjoint and in bounds. */
  lemma SanitizeExact(lex: Lexicon, doc: Item)
    requires ProperItem(lex, doc) && Nesting(doc.value) <= MAX_SUPPORTED_JSON_DEPTH
    ensures Sanitized(lex, RenderItem(doc)) == RenderItem(CleanItem(lex, doc, false))
    ensures InOrder(ItemTargets(lex, doc, 0, false), 0, |RenderItem(doc)|)
  {
    var bytes := RenderItem(doc);
    hide ReadItem, ProperItem, RenderItem, ItemTargets, CleanItem, Exceeds, Nesting, InOrder, Cut;
    DepthExact(lex, doc, MAX_SUPPORTED_JSON_DEPTH);
    DocumentExact(lex, bytes, doc);
    WholeTurns(lex, bytes);
  }

  /** Bytes that are no JSON text are left alone. */
  lemma SanitizeOther(lex: Lexicon, bytes: seq<Byte>)
    requires forall doc :: ProperItem(lex, doc) ==> RenderItem(doc) != bytes
    ensures Sanitized(lex, bytes) == bytes
  {
    hide ReadItem, ProperItem, RenderItem, ItemTargets, CleanItem, InOrder, Cut;
    if ReadItem(lex, bytes, 0).Got? && ReadItem(lex, bytes, 0).used == |bytes| { WholeTurns(lex, bytes); }
  }

  // ---------------------------------------------------------------- sanitizing twice

  lemma ZeroReads()
    ensures Read([ZERO]).Some?
  {
    ReadComplete(Parts(false, [ZERO], None, None));
    assert Spell(Parts(false, [ZERO], None, None)) == [ZERO];
  }

  /** Cleaning keeps a value proper and as deep as it was, and has nothing left to clean. */
  lemma {:induction false} CleanTree(lex: Lexicon, t: Tree, inside: bool)
    requires Proper(lex, t) && lex.inRange([ZERO])
    ensures var c := Clean(lex, t, inside); Proper(lex, c) && Nesting(c) == Nesting(t) && Clean(lex, c, inside) == c
    decreases t
  {
    hide Read, KeyOk;
    match t
    case Numeral(_) => ZeroReads();
    case List(_, items) => CleanList(lex, items, inside);
    case Record(_, members) => CleanRecord(lex, members, inside);
    case Word(_) =>
    case Quote(_) =>
  }

  lemma {:induction false} CleanList(lex: Lexicon, items: seq<Item>, inside: bool)
    requires ProperItems(lex, items) && lex.inRange([ZERO])
    ensures var c := CleanItems(lex, items, inside);
            ProperItems(lex, c) && ItemsNesting(c) == ItemsNesting(items) && CleanItems(lex, c, inside) == c
    decreases items
  {
    hide Proper, Clean, Nesting;
    if items != [] {
      CleanTree(lex, items[0].value, inside);
      CleanList(lex, items[1..], inside);
      var c := CleanItems(lex, items, inside);
      assert c[1..] == CleanItems(lex, items[1..], inside);
    }
  }

  lemma {:induction false} CleanRecord(lex: Lexicon, members: seq<Member>, inside: bool)
    requires ProperMembers(lex, members) && lex.inRange([ZERO])
    ensures var c := CleanMembers(lex, members, inside);
            ProperMembers(lex, c) && MembersNesting(c) == MembersNesting(members) && CleanMembers(lex, c, inside) == c
    decreases members
  {
    hide Proper, Clean, Nesting, KeyOk;
    if members != [] {
      var m := members[0];
      assert ProperMember(lex, m) && ProperItem(lex, m.item);
      CleanTree(lex, m.item.value, inside || IsMetadata(lex, m.key));
      CleanRecord(lex, members[1..], inside);
      var c := CleanMembers(lex, members, inside);
      assert c[1..] == CleanMembers(lex, members[1..], inside);
      assert c[0] == CleanMember(lex, m, inside);
      assert ProperItem(lex, c[0].item) && ProperMember(lex, c[0]);
      assert CleanMember(lex, c[0], inside) == c[0];
    }
  }

  /** Sanitizing a sanitized JSON text changes nothing, and the result nests as deep as before. */
  lemma SanitizeTwice(lex: Lexicon, doc: Item)
    requires ProperItem(lex, doc) && Nesting(doc.value) <= MAX_SUPPORTED_JSON_DEPTH && lex.inRange([ZERO])
    ensures var once := Sanitized(lex, RenderItem(doc));
            && Sanitized(lex, once) == once
            && forall limit :: Exceeds(once, 0, Plain, limit) == Exceeds(RenderItem(doc), 0, Plain, limit)
  {
    hide Proper, Clean, Sanitized, RenderItem, Exceeds, Nesting;
    CleanTree(lex, doc.value, false);
    SanitizeExact(lex, doc);
    var clean := CleanItem(lex, doc, false);
    SanitizeExact(lex, clean);
    forall limit: nat ensures Exceeds(RenderItem(clean), 0, Plain, limit) == Exceeds(RenderItem(doc), 0, Plain, limit) {
      DepthExact(lex, clean, limit);
      DepthExact(lex, doc, limit);
    }
  }
}
