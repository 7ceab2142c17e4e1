/** A fact about sequence concatenation that the batch-run proofs rewrite with. */
module Seqs {
  /** Concatenation is associative. */
  lemma {:induction false} AppendAssoc<T>(a: seq<T>, b: seq<T>, c: seq<T>)
    ensures a + (b + c) == (a + b) + c
  {
  }
}
