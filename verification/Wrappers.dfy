/** The Option datatype shared by every module: a C pointer that may be NULL. */
module Wrappers {

  datatype Option<+T> = None | Some(value: T)

  lemma Regroup<T>(x: seq<T>, y: seq<T>, z: seq<T>)
    ensures (x + y) + z == x + (y + z)
  {
  }
}
