/** Option and Result, for the source's "npos"/empty-string results and error
  * returns, and one sequence fact the proofs share. */
module Wrappers {
  datatype Option<+T> = None | Some(value: T)

  datatype Result<+R, +E> = Ok(value: R) | Err(error: E)

  /** Concatenation regrouped, for proofs whose terms are too large for the
    * solver to regroup unaided. */
  lemma AppendAssoc<T>(a: seq<T>, b: seq<T>, c: seq<T>)
    ensures (a + b) + c == a + (b + c)
  {
  }
}
