/** Runs of a system of steps, taken apart at their end. */
module Runs {

  function Last<T>(run: seq<T>): T
    requires run != []
  {
    run[|run| - 1]
  }

  function Before<T>(run: seq<T>): seq<T>
    requires run != []
  {
    run[..|run| - 1]
  }
}
