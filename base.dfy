/** Optional values: the model's stand-in for nullable pointers, std::optional and
    std::expected in the scanner and validator. */
module Base {
  datatype Option<T> = None | Some(value: T)

  /** Sequence concatenation is associative. */
  lemma Concatenation<T>(a: seq<T>, b: seq<T>, c: seq<T>)
    ensures a + (b + c) == (a + b) + c
  {
  }
}
