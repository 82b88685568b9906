/** A fixed buffer written round and round: which part of its history it still shows. */
module Ring {
  import Arith

  /** The buffer shows the newest entries of the history, each at its position modulo the size. */
  ghost predicate Shows<T>(ring: seq<T>, history: seq<T>) {
    && |ring| >= 1
    && forall k :: 0 <= k < |history| && |history| - k <= |ring| ==> ring[k % |ring|] == history[k]
  }

  /** Two positions less than size apart fall on different slots. */
  lemma SlotsDiffer(k: nat, n: nat, size: int)
    requires size >= 1 && k < n && n - k < size
    ensures k % size != n % size
  {
    var p, r := Arith.DivMod(k, size);
    var q, r' := Arith.DivMod(n, size);
    Arith.MultiplesOrdered(p, q, size);
    Arith.MultiplesOrdered(q, p, size);
  }

  lemma ShowsStep<T>(ring: seq<T>, history: seq<T>, e: T)
    requires Shows(ring, history)
    ensures Shows(ring[|history| % |ring| := e], history + [e])
  {
    var n, size := |history|, |ring|;
    forall k | 0 <= k < n && n + 1 - k <= size ensures k % size != n % size {
      SlotsDiffer(k, n, size);
    }
  }

  /** The write index wraps to 0 where the source compares it with the size. */
  lemma WrapIndex(n: nat, size: int)
    requires size >= 1
    ensures (n + 1) % size == if n % size + 1 == size then 0 else n % size + 1
  {
    Arith.NextPhase(n, size);
  }
}
