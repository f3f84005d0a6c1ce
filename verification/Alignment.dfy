/** Rounding up to an alignment. The code adds the alignment less one and masks the low bits off;
    `MaskAlignsExactly` says when that is the same. */
module Alignment {
  import opened RingIndex

  /** The smallest multiple of `a` that is not below `x`. */
  function AlignUp(x: nat, a: nat): (r: nat)
    requires a > 0
    ensures x <= r < x + a && r % a == 0
  {
    var q := (x + (a - 1)) / a;
    ModOfSum(q, 0, a);
    assert q * a + (x + (a - 1)) % a == x + (a - 1);
    q * a
  }

  /** Rounding up as the code does it. */
  function MaskUp(x: nat, a: nat): nat
    requires a > 0
  {
    BitAndNot(x + (a - 1), a - 1)
  }

  predicate Aligns(x: nat, a: nat)
    requires a > 0
  {
    MaskUp(x, a) == AlignUp(x, a)
  }

  /** What is rounded off is the slot of the sum. */
  lemma AlignUpDrops(x: nat, a: nat)
    requires a > 0
    ensures AlignUp(x, a) == x + (a - 1) - Slot(x + (a - 1), a)
  {
    SlotIsMod(x + (a - 1), a);
  }

  /** Masking rounds every number up to a multiple exactly for an alignment that is a power of two. */
  lemma MaskAlignsExactly(a: nat)
    requires a > 0
    ensures (forall x: nat :: Aligns(x, a)) <==> PowerOfTwo(a)
  {
    if PowerOfTwo(a) {
      forall x: nat ensures Aligns(x, a) {
        AlignUpDrops(x, a);
        MaskIsSlot(x + (a - 1), a);
        BitsSplit(x + (a - 1), a - 1);
      }
    } else {
      AlignUpDrops(1, a);
      BitsSplit(a, a - 1);
      assert Slot(a, a) == 0;
      if Aligns(1, a) { MaskedCapacity(a); }
    }
  }
}
