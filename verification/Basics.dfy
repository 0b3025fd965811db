/** Small shared vocabulary. */
module Basics {

  datatype Option<+T> = None | Some(value: T)

  /** The value stored under a key, or a default: the `map.get(key) ?? fallback` idiom. */
  function GetOr<K, V>(m: map<K, V>, key: K, fallback: V): V {
    if key in m then m[key] else fallback
  }

  function Max(a: int, b: int): int {
    if a >= b then a else b
  }

  function Min(a: int, b: int): int {
    if a <= b then a else b
  }

  function UnwrapOr<T>(o: Option<T>, fallback: T): T {
    if o.Some? then o.value else fallback
  }
}
