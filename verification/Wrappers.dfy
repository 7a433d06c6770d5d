/** A value that may be absent: the source's nil pointers and two-result lookups. */
module Wrappers {
  datatype Option<+T> = None | Some(value: T)
}

/** Facts about sequences that several loops need by name. */
module Sequences {
  lemma Regroup<T>(a: seq<T>, b: seq<T>, c: seq<T>)
    ensures (a + b) + c == a + (b + c) && a + [] == a
  {
  }
}
