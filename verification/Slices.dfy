/** `slice(0, n)` and `slice(n)`, which stop at the end of the list. */
module Slices {
  function Take<T>(s: seq<T>, n: nat): (r: seq<T>)
    ensures |r| <= |s| && r == s[..|r|]
  {
    if |s| <= n then s else s[..n]
  }

  function Drop<T>(s: seq<T>, n: nat): seq<T> {
    if |s| <= n then [] else s[n..]
  }
}
