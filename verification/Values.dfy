/** JSON values, options and results shared by every component of the model. */
module Values {

  datatype Option<+T> = None | Some(value: T)

  datatype Result<+T, +E> = Ok(value: T) | Err(error: E)

  const MAX_SAFE_INTEGER: int := 9_007_199_254_740_991
  const I64_MAX: int := 0x7FFF_FFFF_FFFF_FFFF
  const I64_MIN: int := -0x8000_0000_0000_0000
  const U64_MAX: int := 0xFFFF_FFFF_FFFF_FFFF

  /** A finite binary floating-point value, mantissa times a power of two, in its one reduced form; the
      two zeros compare equal and are one value. */
  datatype Scaled = Scaled(mantissa: int, exponent: int)

  type Float = f: Scaled | f.mantissa % 2 == 1 || f == Scaled(0, 0) witness Scaled(0, 0)

  /** A JSON number is either held as an integer or as a binary64 value. */
  datatype Number = Integer(i: int) | Binary64(f: Float)

  function PowerOfTwo(k: nat): nat {
    if k == 0 then 1 else 2 * PowerOfTwo(k - 1)
  }

  datatype Json =
    | Null
    | Bool(b: bool)
    | Num(n: Number)
    | Str(s: string)
    | Arr(items: seq<Json>)
    | Obj(fields: map<string, Json>)

  /** No two elements share a key. */
  predicate DistinctBy<T>(s: seq<T>, key: T -> string) {
    forall i, j | 0 <= i < j < |s| :: key(s[i]) != key(s[j])
  }

  /** `Value::get`: a member of an object, nothing for any other value. */
  function Get(v: Json, key: string): Option<Json> {
    if v.Obj? && key in v.fields then Some(v.fields[key]) else None
  }

  function Get2(v: Json, outer: string, inner: string): Option<Json> {
    match Get(v, outer)
    case Some(w) => Get(w, inner)
    case None => None
  }

  function AsStr(v: Option<Json>): Option<string> {
    if v.Some? && v.value.Str? then Some(v.value.s) else None
  }

  function AsU64(v: Option<Json>): Option<int> {
    if v.Some? && v.value.Num? && v.value.n.Integer? && 0 <= v.value.n.i <= U64_MAX
    then Some(v.value.n.i) else None
  }

  function StringField(v: Json, key: string): Option<string> {
    AsStr(Get(v, key))
  }

  const MAX_JSON_DEPTH: nat := 32
  const MAX_STRING_CHARS: nat := 4096
  const MAX_ARRAY_ITEMS: nat := 512
  const MAX_OBJECT_FIELDS: nat := 256
  const MAX_KEY_CHARS: nat := 256

  predicate SafeNumber(n: Number) {
    match n
    case Integer(i) => -MAX_SAFE_INTEGER <= i <= MAX_SAFE_INTEGER
    case Binary64(f) =>
      || f.exponent < 0                  // an odd mantissa over a power of two is not integral
      || -MAX_SAFE_INTEGER <= f.mantissa * PowerOfTwo(f.exponent) <= MAX_SAFE_INTEGER
  }

  /** Depth, string, number, array and object bounds of one value found at `depth`. */
  predicate WithinBounds(v: Json, depth: nat)
    decreases v
  {
    && depth <= MAX_JSON_DEPTH
    && match v
       case Str(s) => |s| <= MAX_STRING_CHARS
       case Num(n) => SafeNumber(n)
       case Arr(items) =>
         && |items| <= MAX_ARRAY_ITEMS
         && forall i | 0 <= i < |items| :: WithinBounds(items[i], depth + 1)
       case Obj(fields) =>
         && |fields| <= MAX_OBJECT_FIELDS
         && (forall k | k in fields :: |k| <= MAX_KEY_CHARS)
         && forall k | k in fields :: WithinBounds(fields[k], depth + 1)
       case _ => true
  }

  predicate WithinShapeBounds(v: Json) {
    WithinBounds(v, 1)
  }
}
