/** Small sequence helpers shared by the window trim and the beam-trail trim. */
module Seqs {

  function Min(a: int, b: int): int
  {
    if a <= b then a else b
  }

  /** The last `n` elements of `s`, in their original order; all of `s` when it is shorter.
      This is both pandas' `tail(n)` and the list slice `[-n:]` applied only when too long. */
  function Last<T>(s: seq<T>, n: nat): (r: seq<T>)
    ensures |r| == Min(n, |s|)
    ensures r == s[|s| - |r|..]
  {
    if |s| <= n then s else s[|s| - n..]
  }
}
