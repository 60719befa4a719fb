/** Facts about sequences shared by the other modules. */
module Sequences {
  /** Concatenation is associative, stated once so that proofs can name the step. */
  lemma ConcatAssociates<T>(a: seq<T>, b: seq<T>, c: seq<T>)
    ensures a + b + c == a + (b + c)
  {
  }
}
