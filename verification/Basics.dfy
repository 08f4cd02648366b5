/** Small vocabulary shared by the models. */
module Basics {

  datatype Option<+T> = None | Some(value: T)

  function Without<K, V>(m: map<K, V>, k: K): map<K, V> {
    map x | x in m && x != k :: m[x]
  }

  /** A 32-bit unsigned C value: arithmetic on `guint32` counters wraps around. */
  function U32(x: int): nat {
    x % 0x1_0000_0000
  }

  function Max(a: nat, b: nat): nat {
    if a < b then b else a
  }

  /** Wrapping early or late makes no difference to a sum. */
  lemma U32Sum(a: int, b: int)
    ensures U32(U32(a) + b) == U32(a + b)
  {
  }
}
