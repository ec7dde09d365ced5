/** JSON values, and the restricted profile of RFC 8785 that the canonical codec accepts. */
module Json {

  datatype Json =
    | Null
    | Bool(flag: bool)
    | Int(number: int)
    | Float(real_: real)
    | Str(text: string)
    | Arr(items: seq<Json>)
    | Obj(fields: map<string, Json>)

  /** The largest integer an IEEE-754 double represents exactly with all below it. */
  const MAX_SAFE_INT := 0x1F_FFFF_FFFF_FFFF

  const MAX_DEPTH := 64

  predicate IsSafeInt(n: int) {
    -MAX_SAFE_INT <= n <= MAX_SAFE_INT
  }

  /** No floats, no unsafe integers, no nesting past the bound. */
  predicate InProfile(j: Json, depth: nat) {
    depth <= MAX_DEPTH &&
    match j
    case Null => true
    case Bool(_) => true
    case Int(n) => IsSafeInt(n)
    case Float(_) => false
    case Str(_) => true
    case Arr(items) => forall i :: 0 <= i < |items| ==> InProfile(items[i], depth + 1)
    case Obj(fields) => forall k :: k in fields ==> InProfile(fields[k], depth + 1)
  }
}
