/** How many elements of a list pass a test. */
module Counting {
  function HowMany<T>(ts: seq<T>, test: T -> bool): nat {
    if ts == [] then 0 else HowMany(ts[..|ts| - 1], test) + if test(ts[|ts| - 1]) then 1 else 0
  }
}
