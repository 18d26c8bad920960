/**
 RFC 8785 serialisation as far as hashing can tell values apart: a number is written by its value, so
 an integral binary64 number and the same integer have one text. Everything else keeps its identity.
 */
module CanonicalJson {
  import opened Values

  /** Whether a binary64 value is an integer. */
  predicate Integral(f: Float) {
    f.exponent >= 0
  }

  function CanonicalNumber(n: Number): Number {
    match n
    case Integer(_) => n
    case Binary64(f) => if Integral(f) then Integer(f.mantissa * PowerOfTwo(f.exponent)) else n
  }

  /** The value whose text is hashed. */
  function Canonical(v: Json): Json
    decreases v
  {
    match v
    case Num(n) => Num(CanonicalNumber(n))
    case Arr(items) => Arr(seq(|items|, i requires 0 <= i < |items| => Canonical(items[i])))
    case Obj(fields) => Obj(map k | k in fields :: Canonical(fields[k]))
    case _ => v
  }

  /** No integer is held as a binary64 number, at any depth. */
  predicate Plain(v: Json)
    decreases v
  {
    match v
    case Num(n) => n.Integer? || !Integral(n.f)
    case Arr(items) => forall i | 0 <= i < |items| :: Plain(items[i])
    case Obj(fields) => forall k | k in fields :: Plain(fields[k])
    case _ => true
  }

  /** Hashing keeps a value apart from every other spelling exactly when it is plain. */
  lemma {:induction false} CanonicalIff(v: Json)
    ensures Canonical(v) == v <==> Plain(v)
    ensures Plain(Canonical(v))
    decreases v
  {
    match v
    case Arr(items) =>
      forall i | 0 <= i < |items|
        ensures (Canonical(items[i]) == items[i] <==> Plain(items[i])) && Plain(Canonical(items[i]))
      {
        CanonicalIff(items[i]);
      }
      var c := Canonical(v);
      assert forall i | 0 <= i < |items| :: c.items[i] == Canonical(items[i]);
      if Plain(v) { assert c.items == items; }
    case Obj(fields) =>
      forall k | k in fields
        ensures (Canonical(fields[k]) == fields[k] <==> Plain(fields[k])) && Plain(Canonical(fields[k]))
      {
        CanonicalIff(fields[k]);
      }
      var c := Canonical(v);
      assert forall k | k in fields :: c.fields[k] == Canonical(fields[k]);
      if Plain(v) { assert c.fields == fields; }
    case _ =>
  }

  lemma CanonicalTwice(v: Json)
    ensures Canonical(Canonical(v)) == Canonical(v)
  {
    CanonicalIff(v);
    CanonicalIff(Canonical(v));
  }

  /** Respelling numbers never changes whether a value is within bounds. */
  lemma {:induction false} CanonicalBounds(v: Json, depth: nat)
    ensures WithinBounds(Canonical(v), depth) <==> WithinBounds(v, depth)
    decreases v
  {
    match v
    case Arr(items) =>
      var c := Canonical(v);
      assert |c.items| == |items|;
      forall i | 0 <= i < |items|
        ensures c.items[i] == Canonical(items[i])
        ensures WithinBounds(c.items[i], depth + 1) <==> WithinBounds(items[i], depth + 1)
      {
        CanonicalBounds(items[i], depth + 1);
      }
    case Obj(fields) =>
      var c := Canonical(v);
      assert c.fields.Keys == fields.Keys;
      assert |c.fields| == |c.fields.Keys| && |fields| == |fields.Keys|;
      forall k | k in fields
        ensures c.fields[k] == Canonical(fields[k])
        ensures WithinBounds(c.fields[k], depth + 1) <==> WithinBounds(fields[k], depth + 1)
      {
        CanonicalBounds(fields[k], depth + 1);
      }
    case _ =>
  }

  /** Members and strings are found in the canonical value where they were. */
  lemma CanonicalGet(v: Json, key: string)
    ensures Get(Canonical(v), key) == match Get(v, key) case Some(w) => Some(Canonical(w)) case None => None
    ensures StringField(Canonical(v), key) == StringField(v, key)
  {
  }
}
