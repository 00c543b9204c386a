/** Small things that several modules share: values that may be absent, the number of 32-bit
    words, and the associativity of concatenation. */
module Wrappers {
  datatype Option<+T> = None | Some(value: T)

  const WORD: nat := 0x1_0000_0000

  lemma Regroup<T>(a: seq<T>, b: seq<T>, c: seq<T>)
    ensures a + (b + c) == a + b + c
  {
  }
}
