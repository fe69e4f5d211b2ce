// Which slot of a ring of `c` slots a ticket goes to.
module Slots {
  import opened Bits

  // The slot of a ticket: the remainder by the capacity, written by subtraction.
  function Slot(k: nat, c: nat): (i: nat)
    requires c > 0
    ensures i < c
    decreases k
  {
    if k < c then k else Slot(k - c, c)
  }

  lemma {:induction false} SlotApart(a: nat, b: nat, c: nat)
    requires c > 0 && Slot(a, c) == Slot(b, c) && a < b
    ensures a + c <= b
    decreases b
  {
    if a >= c {
      SlotApart(a - c, b - c, c);
    }
  }

  lemma {:induction false} SlotIsRemainder(k: nat, c: nat)
    requires c > 0
    ensures Slot(k, c) == k % c
    decreases k
  {
    if k < c {
      ModSmall(k, c);
    } else {
      SlotIsRemainder(k - c, c);
      ModShift(k, c);
    }
  }

  lemma SlotBelow(k: nat, c: nat)
    requires c > 0
    ensures Slot(k, c) <= k
  {
  }

  lemma SlotShift(k: nat, c: nat)
    requires c > 0
    ensures Slot(k + c, c) == Slot(k, c)
  {
  }

  // Masking finds the remainder when the ring size is a power of two.
  lemma MaskIsSlot(k: nat, c: nat)
    requires c > 0 && IsPow2(c)
    ensures And(k, c - 1) == Slot(k, c)
  {
    var p: nat :| c == Pow2(p);
    AndMask(k, p);
    SlotIsRemainder(k, c);
  }
}
