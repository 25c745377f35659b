/** Stock vocabulary shared by the models. */
module Commons {
  datatype Option<T> = None | Some(value: T)

  /** `m.get(k, default)`. */
  function Get<K, V>(m: map<K, V>, k: K, default: V): V {
    if k in m then m[k] else default
  }

  /** A limit below zero is as good as zero. */
  function Max0(n: int): nat {
    if n < 0 then 0 else n
  }
}
