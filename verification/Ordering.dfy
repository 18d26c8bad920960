/** Lexicographic orders on text and stable sorting by key. */
module Ordering {

  /** Code points of a string: the order of UTF-8 bytes. */
  function Codes(s: string): (r: seq<nat>)
    ensures |r| == |s| && forall i | 0 <= i < |s| :: r[i] == s[i] as int
  {
    seq(|s|, i requires 0 <= i < |s| => s[i] as int)
  }

  lemma CodesInjective(a: string, b: string)
    requires Codes(a) == Codes(b)
    ensures a == b
  {
    forall i | 0 <= i < |a| ensures a[i] == b[i] { assert Codes(a)[i] == Codes(b)[i]; }
  }

  /** UTF-16 code units of one character. */
  function Units(c: char): (u: seq<nat>)
    ensures |u| == 1 || |u| == 2
  {
    var n := c as int;
    if n < 0x10000 then [n] else [0xD800 + (n - 0x10000) / 0x400, 0xDC00 + (n - 0x10000) % 0x400]
  }

  function Utf16(s: string): seq<nat> {
    if s == "" then [] else Units(s[0]) + Utf16(s[1..])
  }

  lemma UnitsDecode(a: char, b: char, x: seq<nat>, y: seq<nat>)
    requires Units(a) + x == Units(b) + y
    ensures a == b && x == y
  {
    var p, q := Units(a), Units(b);
    assert (p + x)[0] == p[0] && (q + y)[0] == q[0];
    assert |p| == |q|;
    if |p| == 2 { assert (p + x)[1] == p[1] && (q + y)[1] == q[1]; }
    assert (p + x)[|p|..] == x && (q + y)[|q|..] == y;
  }

  lemma {:induction false} Utf16Injective(a: string, b: string)
    requires Utf16(a) == Utf16(b)
    ensures a == b
  {
    if a != "" && b != "" {
      UnitsDecode(a[0], b[0], Utf16(a[1..]), Utf16(b[1..]));
      Utf16Injective(a[1..], b[1..]);
    }
  }

  // ---------------------------------------------------------------- lexicographic order

  predicate Lex(a: seq<nat>, b: seq<nat>) {
    if a == [] then true
    else if b == [] then false
    else a[0] < b[0] || (a[0] == b[0] && Lex(a[1..], b[1..]))
  }

  lemma {:induction false} LexTotal(a: seq<nat>, b: seq<nat>)
    ensures Lex(a, b) || Lex(b, a)
    ensures Lex(a, b) && Lex(b, a) ==> a == b
    ensures Lex(a, a)
  {
    if a != [] { LexTotal(a[1..], a[1..]); }
    if a != [] && b != [] { LexTotal(a[1..], b[1..]); }
  }

  lemma {:induction false} LexTransitive(a: seq<nat>, b: seq<nat>, c: seq<nat>)
    requires Lex(a, b) && Lex(b, c)
    ensures Lex(a, c)
  {
    if a != [] && a[0] == b[0] == c[0] { LexTransitive(a[1..], b[1..], c[1..]); }
  }

  type Key = seq<seq<nat>>

  /** Keys compare component by component. */
  predicate Leq(a: Key, b: Key) {
    if a == [] then true
    else if b == [] then false
    else if a[0] == b[0] then Leq(a[1..], b[1..])
    else Lex(a[0], b[0])
  }

  lemma {:induction false} LeqTotal(a: Key, b: Key)
    ensures Leq(a, b) || Leq(b, a)
    ensures Leq(a, b) && Leq(b, a) ==> a == b
    ensures Leq(a, a)
  {
    if a != [] { LeqTotal(a[1..], a[1..]); }
    if a != [] && b != [] {
      if a[0] == b[0] { LeqTotal(a[1..], b[1..]); } else { LexTotal(a[0], b[0]); }
    }
  }

  lemma {:induction false} LeqTransitive(a: Key, b: Key, c: Key)
    requires Leq(a, b) && Leq(b, c)
    ensures Leq(a, c)
  {
    if a != [] {
      if a[0] == b[0] && b[0] == c[0] {
        LeqTransitive(a[1..], b[1..], c[1..]);
      } else if a[0] != b[0] && b[0] != c[0] {
        LexTransitive(a[0], b[0], c[0]);
        if a[0] == c[0] { LexTotal(a[0], b[0]); }
      }
    }
  }

  // ---------------------------------------------------------------- stable sorting

  /** `x` goes after every element that is not larger. */
  function Insert<T>(s: seq<T>, x: T, key: T -> Key): seq<T> {
    if s == [] || Leq(key(s[|s| - 1]), key(x)) then s + [x]
    else Insert(s[..|s| - 1], x, key) + [s[|s| - 1]]
  }

  function Sort<T>(s: seq<T>, key: T -> Key): seq<T> {
    if s == [] then [] else Insert(Sort(s[..|s| - 1], key), s[|s| - 1], key)
  }

  ghost predicate Sorted<T(!new)>(s: seq<T>, key: T -> Key) {
    forall i, j | 0 <= i < j < |s| :: Leq(key(s[i]), key(s[j]))
  }

  lemma {:induction false} InsertMultiset<T>(s: seq<T>, x: T, key: T -> Key)
    ensures multiset(Insert(s, x, key)) == multiset(s) + multiset{x}
  {
    if s != [] && !Leq(key(s[|s| - 1]), key(x)) {
      InsertMultiset(s[..|s| - 1], x, key);
      assert s == s[..|s| - 1] + [s[|s| - 1]];
    }
  }

  lemma {:induction false} SortMultiset<T>(s: seq<T>, key: T -> Key)
    ensures multiset(Sort(s, key)) == multiset(s) && |Sort(s, key)| == |s|
  {
    if s != [] {
      SortMultiset(s[..|s| - 1], key);
      InsertMultiset(Sort(s[..|s| - 1], key), s[|s| - 1], key);
      assert s == s[..|s| - 1] + [s[|s| - 1]];
    }
    assert |multiset(Sort(s, key))| == |multiset(s)|;
  }

  lemma SortedSnoc<T(!new)>(s: seq<T>, x: T, key: T -> Key)
    requires Sorted(s, key) && (forall y | y in s :: Leq(key(y), key(x)))
    ensures Sorted(s + [x], key)
  {
  }

  lemma {:induction false} InsertSorted<T(!new)>(s: seq<T>, x: T, key: T -> Key)
    requires Sorted(s, key)
    ensures Sorted(Insert(s, x, key), key)
  {
    if s == [] {
    } else {
      var n := |s| - 1;
      var last := s[n];
      if Leq(key(last), key(x)) {
        forall y | y in s ensures Leq(key(y), key(x)) {
          if y != last { LeqTransitive(key(y), key(last), key(x)); }
        }
        SortedSnoc(s, x, key);
      } else {
        LeqTotal(key(last), key(x));
        InsertSorted(s[..n], x, key);
        var t := Insert(s[..n], x, key);
        InsertMultiset(s[..n], x, key);
        forall y | y in t ensures Leq(key(y), key(last)) {
          assert y in multiset(t);
        }
        SortedSnoc(t, last, key);
      }
    }
  }

  lemma {:induction false} SortSorted<T(!new)>(s: seq<T>, key: T -> Key)
    ensures Sorted(Sort(s, key), key)
  {
    if s != [] {
      SortSorted(s[..|s| - 1], key);
      InsertSorted(Sort(s[..|s| - 1], key), s[|s| - 1], key);
    }
  }

  /** Sorting sorted text changes nothing. */
  lemma {:induction false} SortIdle<T(!new)>(s: seq<T>, key: T -> Key)
    requires Sorted(s, key)
    ensures Sort(s, key) == s
  {
    if s != [] {
      var n := |s| - 1;
      SortIdle(s[..n], key);
      assert s == s[..n] + [s[n]];
      if n > 0 { assert Leq(key(s[n - 1]), key(s[n])); }
    }
  }

  /** Elements with equal keys are equal. */
  ghost predicate Keyed<T(!new)>(s: seq<T>, key: T -> Key) {
    forall x, y | x in s && y in s && key(x) == key(y) :: x == y
  }

  lemma FirstAgrees<T(!new)>(a: seq<T>, b: seq<T>, key: T -> Key)
    requires multiset(a) == multiset(b) && Sorted(a, key) && Sorted(b, key) && Keyed(a, key) && a != [] && b != []
    ensures a[0] == b[0]
  {
    assert a[0] in multiset(b) && b[0] in multiset(a);
    var i :| 0 <= i < |b| && b[i] == a[0];
    var j :| 0 <= j < |a| && a[j] == b[0];
    if i > 0 && j > 0 {
      assert Leq(key(b[0]), key(a[0])) && Leq(key(a[0]), key(b[0]));
      LeqTotal(key(a[0]), key(b[0]));
    }
  }

  lemma {:induction false} SortedUnique<T(!new)>(a: seq<T>, b: seq<T>, key: T -> Key)
    requires multiset(a) == multiset(b) && Sorted(a, key) && Sorted(b, key) && Keyed(a, key)
    ensures a == b
  {
    assert |multiset(a)| == |a| && |multiset(b)| == |b|;
    if a != [] {
      FirstAgrees(a, b, key);
      assert a == [a[0]] + a[1..] && b == [b[0]] + b[1..];
      assert multiset(a[1..]) == multiset(a) - multiset{a[0]};
      assert multiset(b[1..]) == multiset(b) - multiset{b[0]};
      SortedUnique(a[1..], b[1..], key);
    }
  }

  /** Two texts sort alike exactly when they hold the same elements equally often. */
  lemma SortAlike<T(!new)>(a: seq<T>, b: seq<T>, key: T -> Key)
    requires Keyed(a, key)
    ensures Sort(a, key) == Sort(b, key) <==> multiset(a) == multiset(b)
  {
    SortMultiset(a, key);
    SortMultiset(b, key);
    SortSorted(a, key);
    SortSorted(b, key);
    if multiset(a) == multiset(b) {
      forall x, y | x in Sort(a, key) && y in Sort(a, key) && key(x) == key(y) ensures x == y {
        assert x in multiset(a) && y in multiset(a);
      }
      SortedUnique(Sort(a, key), Sort(b, key), key);
    }
  }
}
