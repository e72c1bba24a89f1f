/** What several components share. */
module Basics {

  datatype Option<T> = None | Some(value: T)

  // uint8_t
  type byte = b: int | 0 <= b < 256
  type bytes = seq<byte>

  lemma Associative<T>(a: seq<T>, b: seq<T>, c: seq<T>)
    ensures a + (b + c) == (a + b) + c
  {
  }
}
