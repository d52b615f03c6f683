/** A value that may be absent: Go's nil pointers and missing map entries. */
module Options {
  datatype Option<+T> = None | Some(value: T)

  function Lookup<K, V>(table: map<K, V>, key: K): Option<V> {
    if key in table then Some(table[key]) else None
  }
}
