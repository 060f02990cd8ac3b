/** Definitions shared by several components. */
module Basics {
  datatype Option<T> = None | Some(value: T)

  /** Seconds that have passed. */
  type Elapsed = x: real | x >= 0.0

  ghost predicate Distinct(s: seq<nat>)
  {
    forall i, j :: 0 <= i < j < |s| ==> s[i] != s[j]
  }

  function Front<T>(s: seq<T>): seq<T>
    requires s != []
  {
    s[..|s| - 1]
  }

  function Last<T>(s: seq<T>): T
    requires s != []
  {
    s[|s| - 1]
  }
}
