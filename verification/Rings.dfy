/** Rings: the n-th element of an unbounded log lives in slot n modulo the ring size. */
module Rings {
  import opened Arith

  /** The slot of the n-th element in a ring of `size` slots, counted round the ring. */
  function SlotOf(n: nat, size: nat): (slot: nat)
    requires size > 0
    ensures slot < size
    decreases n
  {
    if n < size then n else SlotOf(n - size, size)
  }

  lemma {:induction false} SlotIsMod(n: nat, size: nat)
    requires size > 0
    ensures SlotOf(n, size) == n % size
    decreases n
  {
    if n < size {
      DivModUnique(n, size, 0, n);
    } else {
      SlotIsMod(n - size, size);
      var k := (n - size) / size;
      assert n == (k + 1) * size + (n - size) % size;
      DivModUnique(n, size, k + 1, (n - size) % size);
    }
  }

  /** Two counts less than one lap apart never share a slot. */
  lemma {:induction false} SlotsDistinct(i: nat, j: nat, size: nat)
    requires i < j < i + size
    ensures SlotOf(i, size) != SlotOf(j, size)
    decreases i
  {
    if i >= size {
      SlotsDistinct(i - size, j - size, size);
    }
  }

  /** The ring's slots hold the elements of the log from number `first` on. */
  ghost predicate RingHolds<T>(ring: seq<T>, log: seq<T>, first: nat) {
    && |ring| > 0
    && forall i :: first <= i < |log| ==> ring[SlotOf(i, |ring|)] == log[i]
  }

  /** Writing the next element overwrites none that is still held. */
  lemma RingPush<T>(ring: seq<T>, log: seq<T>, first: nat, x: T)
    requires RingHolds(ring, log, first) && |log| < first + |ring|
    ensures RingHolds(ring[SlotOf(|log|, |ring|) := x], log + [x], first)
  {
    forall i | first <= i < |log| ensures SlotOf(i, |ring|) != SlotOf(|log|, |ring|) {
      SlotsDistinct(i, |log|, |ring|);
    }
  }
}
