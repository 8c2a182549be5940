/** What several modules need and none owns. */
module Prelude {
  datatype Option<T> = None | Some(value: T)

  /** Sequence concatenation associates. */
  lemma Assoc<T>(a: seq<T>, b: seq<T>, c: seq<T>)
    ensures (a + b) + c == a + (b + c)
  {
  }

  lemma FirstApart<T>(a: seq<T>, b: seq<T>)
    requires a != []
    ensures a + b == [a[0]] + (a[1..] + b)
  {
  }
}
