/** Bytes, and data that comes in pieces. */
module Pieces {
  type Byte = x: int | 0 <= x < 256

  /** All pieces joined. */
  function Flat<T>(ps: seq<seq<T>>): (m: seq<T>)
  {
    if ps == [] then [] else Flat(ps[..|ps| - 1]) + ps[|ps| - 1]
  }

  /** The sum of the sizes of pieces. */
  function Total(ns: seq<nat>): (n: nat)
  {
    if ns == [] then 0 else Total(ns[..|ns| - 1]) + ns[|ns| - 1]
  }

  lemma NoneTotal(ns: seq<nat>)
    ensures Total(ns[..0]) == 0
  {
  }

  lemma TotalNext(ns: seq<nat>, i: nat)
    requires i < |ns|
    ensures Total(ns[..i + 1]) == Total(ns[..i]) + ns[i]
  {
    assert ns[..i + 1][..i] == ns[..i];
  }
}
