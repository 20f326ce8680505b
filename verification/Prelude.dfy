/** Datatypes shared by every module of the project. */
module Prelude {

  datatype Option<+T> = None | Some(value: T) {
    function GetOr(default: T): T {
      match this
      case Some(v) => v
      case None => default
    }
  }

  /** A call's outcome: its value, or the error it throws. */
  datatype Result<+T, +E> = Ok(value: T) | Err(error: E)

  predicate EachOnce<T(==)>(s: seq<T>) {
    forall i, j :: 0 <= i < j < |s| ==> s[i] != s[j]
  }

  function SetOf<T>(s: seq<T>): set<T> {
    set x | x in s
  }
}
