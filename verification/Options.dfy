/** The usual optional value, for Go's nil pointers, missing map entries and failed reads. */
module Options {
  datatype Option<+T> = None | Some(value: T)

  function Max(a: int, b: int): int { if a < b then b else a }

  function Min(a: int, b: int): int { if a < b then a else b }

  /** Go's map read: the zero value when the key is absent. */
  function Get<K>(m: map<K, int>, k: K): int { if k in m then m[k] else 0 }
}
