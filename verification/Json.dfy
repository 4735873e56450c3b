/** Decoded JSON values, the only values documents and filters hold. Numbers are reals:
    rounding and the non-numbers of floating point are treated where they matter. */
module JsonValues {
  datatype Json =
    | Null
    | Bool(b: bool)
    | Num(n: real)
    | Str(s: string)
    | Arr(items: seq<Json>)
    | Obj(fields: map<string, Json>)

  type Data = map<string, Json>

  /** The values both indexes take; arrays, objects and null are not indexed. */
  predicate Scalar(v: Json) {
    v.Bool? || v.Num? || v.Str?
  }
}
