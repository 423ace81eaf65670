/** Slices as Python cuts them: s[:n] of a sequence that may be shorter. */
module Sequences {

  function Take<T>(s: seq<T>, n: nat): (r: seq<T>)
    ensures |r| == if |s| <= n then |s| else n
    ensures r <= s
  {
    if |s| <= n then s else s[..n]
  }
}
