/** The scanner object and the sanitizer that uses it. */
module MetadataScanner {
  import opened Values
  import opened Bytes
  import opened DecimalTokens
  import opened SafeIntegers
  import opened JsonText
  import opened JsonScan
  import opened Sanitize
  import opened MetadataScan

  class Scanner {
    const bytes: seq<Byte>
    const lex: Lexicon
    var index: nat
    var replacements: seq<Span>

    constructor (lex: Lexicon, bytes: seq<Byte>)
      ensures this.lex == lex && this.bytes == bytes && index == 0 && replacements == []
    {
      this.lex, this.bytes, index, replacements := lex, bytes, 0, [];
    }

    method SkipWhitespace()
      requires index <= |bytes|
      modifies this`index
      ensures index == SkipTo(bytes, old(index))
    {
      ghost var start := index;
      while index < |bytes| && Blank(bytes[index])
        invariant start <= index <= |bytes|
        invariant BlankRun(bytes[start..]) == index - start + BlankRun(bytes[index..])
      {
        assert bytes[index..][1..] == bytes[index + 1..];
        index := index + 1;
      }
    }

    method Consume(expected: Byte) returns (ok: bool)
      requires index <= |bytes|
      modifies this`index
      ensures ok == Is(bytes, old(index), expected)
      ensures index == old(index) + if ok then 1 else 0
    {
      ok := index < |bytes| && bytes[index] == expected;
      if ok { index := index + 1; }
    }

    /** The literal scanned, quotes included. */
    method ScanString() returns (key: Option<seq<Byte>>)
      requires index <= |bytes|
      modifies this`index
      ensures old(index) <= index <= |bytes|
      ensures var k := StringSpan(lex, bytes[old(index)..]);
              && key.Some? == k.Some?
              && (k.Some? ==> index == old(index) + k.value && key.value == bytes[old(index)..][..k.value])
    {
      var start := index;
      var ok := Consume(QUOTE);
      if !ok { return None; }
      ghost var t := bytes[start..];
      assert t[1..] == bytes[index..];
      var escaped := false;
      while index < |bytes|
        invariant start < index <= |bytes|
        invariant var a, b := StringClose(t[1..], false), StringClose(bytes[index..], escaped);
                  && a.Some? == b.Some?
                  && (a.Some? ==> start + 1 + a.value == index + b.value)
      {
        var byte := bytes[index];
        assert bytes[index..][1..] == bytes[index + 1..];
        index := index + 1;
        if escaped {
          escaped := false;
        } else if byte == BACKSLASH {
          escaped := true;
        } else if byte == QUOTE {
          var literal := bytes[start..index];
          assert literal == t[..index - start];
          return if lex.decode(literal).Some? then Some(literal) else None;
        }
      }
      key := None;
    }

    method ScanLiteral(literal: seq<Byte>) returns (ok: bool)
      requires index <= |bytes|
      modifies this`index
      ensures ok == Leads(literal, bytes[old(index)..])
      ensures index == old(index) + if ok then |literal| else 0
    {
      ghost var t := bytes[index..];
      ok := index + |literal| <= |bytes| && bytes[index..index + |literal|] == literal;
      assert index + |literal| <= |bytes| ==> bytes[index..index + |literal|] == t[..|literal|];
      if ok { index := index + |literal|; }
    }

    method SkipSignedDigits() returns (ok: bool)
      requires index <= |bytes|
      modifies this`index
      ensures index <= |bytes|
      ensures var k := SignedRun(bytes[old(index)..]); ok == k.Some? && (ok ==> index == old(index) + k.value)
    {
      hide DigitRun;
      var start := index;
      SignSpelled(bytes[start..]);
      if Is(bytes, index, PLUS) || Is(bytes, index, MINUS) { index := index + 1; }
      var from := index;
      assert bytes[start..][from - start..] == bytes[from..];
      index := SkipDigits(bytes, from);
      ok := index != from;
    }

    /** The span of a number from the scanner's position. */
    method SkipNumber() returns (ok: bool)
      requires index <= |bytes|
      modifies this`index
      ensures index <= |bytes|
      ensures var k := NumberRun(bytes[old(index)..]); ok == k.Some? && (ok ==> index == old(index) + k.value)
    {
      hide WholeRun, TailRun;
      ghost var start := index;
      var negative := Consume(MINUS);
      ghost var from := index;
      assert bytes[from..] == bytes[start..][from - start..];
      var whole := ParseWhole(bytes, index);
      if whole.None? { return false; }
      index := whole.value;
      assert bytes[from..][index - from..] == bytes[index..];
      ok := SkipTail();
    }

    method SkipTail() returns (ok: bool)
      requires index <= |bytes|
      modifies this`index
      ensures index <= |bytes|
      ensures var k := TailRun(bytes[old(index)..]); ok == k.Some? && (ok ==> index == old(index) + k.value)
    {
      hide DigitRun, SignedRun;
      ghost var start := index;
      var dot := Consume(DOT);
      if dot {
        var from := index;
        assert bytes[start..][1..] == bytes[from..];
        index := SkipDigits(bytes, from);
        if index == from { return false; }
      }
      assert bytes[start..][index - start..] == bytes[index..];
      if Is(bytes, index, LOWER_E) || Is(bytes, index, UPPER_E) {
        assert bytes[index..][1..] == bytes[index + 1..];
        index := index + 1;
        ok := SkipSignedDigits();
      } else {
        ok := true;
      }
    }

    method ScanNumber(inside: bool) returns (ok: bool)
      requires index <= |bytes|
      modifies this
      ensures index <= |bytes|
      ensures var start, k := old(index), NumberRun(bytes[old(index)..]);
              && ok == k.Some?
              && (ok ==> index == start + k.value
                         && replacements == old(replacements)
                            + Targets(lex, Numeral(bytes[start..][..k.value]), start, inside))
    {
      hide NumberRun;
      var start := index;
      ok := SkipNumber();
      if !ok { return; }
      var text := bytes[start..index];
      assert text == bytes[start..][..index - start];
      if inside && !lex.inRange(text) {
        replacements := replacements + [Span(start, index)];
      }
    }

    /** Leaves: strings, words and numbers. */
    method ScanLeaf(inside: bool) returns (ok: bool)
      requires index <= |bytes|
      modifies this
      ensures index <= |bytes|
      ensures var start, t := old(index), Leaf(lex, bytes[old(index)..]);
              && ok == t.Got?
              && (ok ==> index == start + t.used && replacements == old(replacements) + Targets(lex, t.value, start, inside))
    {
      hide NumberRun, StringSpan;
      if index == |bytes| { return false; }
      var byte := bytes[index];
      if byte == QUOTE {
        var key := ScanString();
        ok := key.Some?;
      } else if byte == TRUE_WORD[0] {
        ok := ScanLiteral(TRUE_WORD);
      } else if byte == FALSE_WORD[0] {
        ok := ScanLiteral(FALSE_WORD);
      } else if byte == NULL_WORD[0] {
        ok := ScanLiteral(NULL_WORD);
      } else if byte == MINUS || IsDigit(byte) {
        ok := ScanNumber(inside);
      } else {
        ok := false;
      }
    }

    /** `scan_value`. */
    method ScanValue(inside: bool, depth: nat) returns (ok: bool)
      requires index <= |bytes|
      modifies this
      ensures index <= |bytes|
      ensures var r := TreeAt(lex, bytes, SkipTo(bytes, old(index)), depth, inside);
              && ok == r.Some?
              && (ok ==> index == r.value.0 && replacements == old(replacements) + r.value.1)
      decreases |bytes| - index, 2
    {
      hide SkipTo, Leaf, ItemsAt, MembersAt, Targets;
      if depth > MAX_SUPPORTED_JSON_DEPTH {
        GuardAt(lex, bytes, SkipTo(bytes, index), depth, inside);
        return false;
      }
      hide TreeAt;
      SkipWhitespace();
      if Is(bytes, index, OPEN_BRACE) {
        ok := ScanObject(inside, depth);
      } else if Is(bytes, index, OPEN_BRACKET) {
        ok := ScanArray(inside, depth);
      } else {
        LeafAt(lex, bytes, index, depth, inside);
        ok := ScanLeaf(inside);
      }
    }

    /** `scan_array`, at the opening bracket. */
    method ScanArray(inside: bool, depth: nat) returns (ok: bool)
      requires Is(bytes, index, OPEN_BRACKET) && depth <= MAX_SUPPORTED_JSON_DEPTH
      modifies this
      ensures index <= |bytes|
      ensures var r := TreeAt(lex, bytes, old(index), depth, inside);
              && ok == r.Some?
              && (ok ==> index == r.value.0 && replacements == old(replacements) + r.value.1)
      decreases |bytes| - index, 1
    {
      hide SkipTo, TreeAt, ItemsAt;
      ghost var start, saved := index, replacements;
      ListAt(lex, bytes, start, depth, inside);
      index := index + 1;
      ItemsAtBlanks(lex, bytes, index, depth + 1, inside);
      SkipWhitespace();
      var closed := Consume(CLOSE_BRACKET);
      if closed { return true; }
      ghost var done: seq<Span> := [];
      ghost var all := ItemsAt(lex, bytes, start + 1, depth + 1, inside);
      AfterNothing(all);
      while true
        invariant start < index <= |bytes|
        invariant replacements == saved + done
        invariant all == After(done, ItemsAt(lex, bytes, index, depth + 1, inside))
        decreases |bytes| - index
      {
        ghost var p := index;
        ItemsAtStep(lex, bytes, p, depth + 1, inside);
        ok := ScanValue(inside, depth + 1);
        if !ok { return; }
        ghost var v := TreeAt(lex, bytes, SkipTo(bytes, p), depth + 1, inside).value;
        TreeAdvances(lex, bytes, p, depth + 1, inside);
        SkipWhitespace();
        closed := Consume(CLOSE_BRACKET);
        if closed {
          assert saved + (done + v.1) == saved + done + v.1;
          return true;
        }
        var comma := Consume(COMMA);
        if !comma { return false; }
        AfterTwice(done, v.1, ItemsAt(lex, bytes, index, depth + 1, inside));
        done := done + v.1;
      }
    }

    /** `scan_object`, at the opening brace. */
    method ScanObject(inside: bool, depth: nat) returns (ok: bool)
      requires Is(bytes, index, OPEN_BRACE) && depth <= MAX_SUPPORTED_JSON_DEPTH
      modifies this
      ensures index <= |bytes|
      ensures var r := TreeAt(lex, bytes, old(index), depth, inside);
              && ok == r.Some?
              && (ok ==> index == r.value.0 && replacements == old(replacements) + r.value.1)
      decreases |bytes| - index, 1
    {
      hide SkipTo, TreeAt, MembersAt, KeyAt;
      ghost var start, saved := index, replacements;
      RecordAt(lex, bytes, start, depth, inside);
      index := index + 1;
      MembersAtBlanks(lex, bytes, index, depth + 1, inside);
      SkipWhitespace();
      SkipTwice(bytes, start + 1);
      var closed := Consume(CLOSE_BRACE);
      if closed { return true; }
      ghost var done: seq<Span> := [];
      ghost var all := MembersAt(lex, bytes, start + 1, depth + 1, inside);
      AfterNothing(all);
      while true
        invariant start < index <= |bytes| && SkipTo(bytes, index) == index
        invariant replacements == saved + done
        invariant all == After(done, MembersAt(lex, bytes, index, depth + 1, inside))
        decreases |bytes| - index
      {
        ghost var p := index;
        MembersAtStep(lex, bytes, p, depth + 1, inside);
        var metadata;
        ok, metadata := ScanKey();
        if !ok { return; }
        ghost var q := index;
        ok := ScanValue(inside || metadata, depth + 1);
        if !ok { return; }
        ghost var v := TreeAt(lex, bytes, SkipTo(bytes, q), depth + 1, inside || metadata).value;
        TreeAdvances(lex, bytes, q, depth + 1, inside || metadata);
        SkipWhitespace();
        closed := Consume(CLOSE_BRACE);
        if closed {
          assert saved + (done + v.1) == saved + done + v.1;
          return true;
        }
        var comma := Consume(COMMA);
        if !comma { return false; }
        AfterTwice(done, v.1, MembersAt(lex, bytes, index, depth + 1, inside));
        MembersAtBlanks(lex, bytes, index, depth + 1, inside);
        SkipTwice(bytes, index);
        SkipWhitespace();
        done := done + v.1;
      }
    }

    /** The key and colon of a member; the scanner already stands past the blanks before them. */
    method ScanKey() returns (ok: bool, metadata: bool)
      requires index <= |bytes| && SkipTo(bytes, index) == index
      modifies this`index
      ensures old(index) <= index <= |bytes|
      ensures var key := KeyAt(lex, bytes, old(index));
              ok == key.Some? && (ok ==> index == key.value.1 && metadata == IsMetadata(lex, key.value.0))
    {
      hide SkipTo, StringSpan;
      metadata := false;
      var key := ScanString();
      if key.None? { return false, false; }
      SkipWhitespace();
      ok := Consume(COLON);
      metadata := IsMetadata(lex, key.value);
    }
  }

  lemma GuardAt(lex: Lexicon, bytes: seq<Byte>, p: nat, depth: nat, inside: bool)
    requires p <= |bytes| && depth > MAX_SUPPORTED_JSON_DEPTH
    ensures TreeAt(lex, bytes, p, depth, inside).None?
  {
  }

  lemma AfterNothing(r: Found)
    ensures After([], r) == r
  {
    if r.Some? { assert [] + r.value.1 == r.value.1; }
  }

  lemma AfterTwice(a: seq<Span>, b: seq<Span>, r: Found)
    ensures After(a, After(b, r)) == After(a + b, r)
  {
    if r.Some? { assert a + (b + r.value.1) == (a + b) + r.value.1; }
  }

  lemma TreeAdvances(lex: Lexicon, bytes: seq<Byte>, p: nat, depth: nat, inside: bool)
    requires p <= |bytes| && TreeAt(lex, bytes, SkipTo(bytes, p), depth, inside).Some?
    ensures p <= TreeAt(lex, bytes, SkipTo(bytes, p), depth, inside).value.0
  {
    hide ReadTree, Targets;
  }
}
