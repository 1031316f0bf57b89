/** Bytes, optional values and a law of sequences, used by several modules. */
module Common {

  type U8 = x: int | 0 <= x < 256

  datatype Option<+T> = None | Some(value: T)

  lemma Associative<T>(a: seq<T>, b: seq<T>, c: seq<T>)
    ensures a + (b + c) == a + b + c
  {
  }
}
