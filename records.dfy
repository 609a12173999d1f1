/**
 * Shared vocabulary: metadata records as the vector store keeps them
 * (flat string-to-string maps), Python's `dict.get` with a default,
 * `str.startswith`, and the optional value used for `None`.
 */
module Records {

  /** A metadata record: one flat mapping from field name to string value. */
  type Record = map<string, string>

  datatype Option<T> = None | Some(value: T)

  /** What a Python expression does: return a value, or raise the named exception. */
  datatype Outcome<T> = Returned(value: T) | Raised(exception: string)

  /** `m.get(key, default)` */
  function Get(m: Record, key: string, default: string): string
  {
    if key in m then m[key] else default
  }

  /** `s.startswith(prefix)` */
  predicate StartsWith(s: string, prefix: string)
  {
    |prefix| <= |s| && s[..|prefix|] == prefix
  }

  function Min(a: nat, b: nat): nat
  {
    if a <= b then a else b
  }
}
