/** The optional value used wherever the source returns "nothing" (a null
    pointer, std::string::npos, a failed parse), and the iteration order of
    an unordered container. */
module Wrappers {

  datatype Option<+T> = None | Some(value: T) {

    /** The value inside Some, or a default when None. */
    function GetOr(default: T): T {
      match this
      case Some(v) => v
      case None => default
    }

    predicate IsFailure() { None? }

    function PropagateFailure<U>(): Option<U>
      requires None?
    {
      None
    }

    function Extract(): T
      requires Some?
    {
      value
    }
  }

  /** `order` lists the members of a set once each, as iterating over an
      std::unordered_map does, in an order the program does not control. */
  predicate Enumerates<T>(order: seq<T>, s: set<T>) {
    (forall i, j :: 0 <= i < j < |order| ==> order[i] != order[j]) && (set x | x in order) == s
  }
}
