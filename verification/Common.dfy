/** Vocabulary shared by the models of the poller, the tracker, the rewriter and the batch pipeline. */
module Common {

  /** The unsigned 64-bit range of block numbers, and the bound of a signed 64-bit number. */
  const TWO64: nat := 0x1_0000_0000_0000_0000
  const TWO63: nat := 0x8000_0000_0000_0000

  type Uint64 = n: nat | n < TWO64

  datatype Option<+T> = None | Some(value: T)

  /** The published consensus state: latest, safe and finalized block numbers. */
  datatype Triple = Triple(latest: nat, safe: nat, finalized: nat)

  const ZERO_TRIPLE := Triple(0, 0, 0)

  /** `order` lists every element of `s` exactly once: one possible iteration order of a hash map. */
  ghost predicate Enumerates<T(!new)>(order: seq<T>, s: set<T>) {
    && (forall x :: x in order <==> x in s)
    && (forall i, j :: 0 <= i < j < |order| ==> order[i] != order[j])
  }
}
