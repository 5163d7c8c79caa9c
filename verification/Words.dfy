/** Machine words, addresses and the small types every module shares. */
module Words {
  /** Addresses and words are size_t values; none of the modelled code wraps around. */
  type Addr = nat

  datatype Option<+T> = None | Some(value: T)

  /** mem_range_t: the addresses from low up to high. */
  datatype Range = Range(low: nat, high: nat)

  /** PTR_MASK: the two low-order bits cleared. */
  function PtrMask(w: nat): (a: nat)
    ensures a <= w < a + 4 && a % 4 == 0
  {
    4 * (w / 4)
  }

  ghost predicate Increasing(q: seq<nat>) { forall i, j :: 0 <= i < j < |q| ==> q[i] < q[j] }

  function Min(a: int, b: int): int { if a < b then a else b }
  function Max(a: int, b: int): int { if a < b then b else a }
}
