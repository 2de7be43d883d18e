// Sequences.
module Sequences {
  // all but entry k
  function Without<T>(xs: seq<T>, k: int): seq<T> requires 0 <= k < |xs| { xs[..k] + xs[k + 1..] }
}
