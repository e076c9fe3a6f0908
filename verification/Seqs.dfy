/** Sequence concatenation, as the byte-stream components use it. */
module Seqs {
  lemma Regroup<T>(a: seq<T>, b: seq<T>, c: seq<T>)
    ensures a + (b + c) == (a + b) + c
  {
  }
}
