/** A value that may be missing. */
module Options {
  datatype Option<T> = None | Some(value: T)

  /** Some elements in front of a sequence, if there is one. */
  function Prepend<T>(a: seq<T>, o: Option<seq<T>>): Option<seq<T>> {
    match o
    case None => None
    case Some(t) => Some(a + t)
  }
}
