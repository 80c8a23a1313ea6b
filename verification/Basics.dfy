/** What several parts of the model share. */
module Basics {
  datatype Option<+T> = None | Some(value: T)

  const MAX_UINT64 := 0xffff_ffff_ffff_ffff

  /** The identity, written only to be a trigger: a sealed predicate says something of the one value equal to its
      argument, and the verifier looks into it only where that value is mentioned through Unseal. */
  function Unseal<T>(x: T): T
  {
    x
  }

  function Pow256(k: nat): (p: nat)
    ensures p >= 1
  {
    if k == 0 then 1 else 256 * Pow256(k - 1)
  }

  lemma Assoc<T>(a: seq<T>, b: seq<T>, c: seq<T>)
    ensures (a + b) + c == a + (b + c)
  {
  }
}
