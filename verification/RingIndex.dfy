/** Slot arithmetic shared by the ring-shaped buffers: position `i` of an
    unbounded stream lives in slot `i mod capacity`. The slot is defined by
    dropping whole laps, which keeps the proofs linear; `SlotIsMod` ties it to `%`. */
module RingIndex {

  function Slot(i: nat, capacity: nat): (k: nat)
    requires capacity > 0
    ensures k < capacity
    decreases i
  {
    if i < capacity then i else Slot(i - capacity, capacity)
  }

  /** Two different positions less than one lap apart never share a slot. */
  lemma {:induction false} SlotsDistinct(i: nat, j: nat, capacity: nat)
    requires capacity > 0
    requires i < j < i + capacity
    ensures Slot(i, capacity) != Slot(j, capacity)
    decreases i
  {
    if i >= capacity {
      SlotsDistinct(i - capacity, j - capacity, capacity);
    }
  }

  /** Positions that share a slot are equal or at least one lap apart. */
  lemma SameSlot(i: nat, j: nat, capacity: nat)
    requires capacity > 0
    ensures Slot(i, capacity) == Slot(j, capacity) ==> i == j || i + capacity <= j || j + capacity <= i
  {
    if i < j < i + capacity {
      SlotsDistinct(i, j, capacity);
    } else if j < i < j + capacity {
      SlotsDistinct(j, i, capacity);
    }
  }

  /** Every slot is that of some position of a window one lap long. */
  lemma {:induction false} SlotInWindow(head: nat, k: nat, capacity: nat) returns (p: nat)
    requires k < capacity
    ensures head <= p < head + capacity && Slot(p, capacity) == k
    decreases head
  {
    if head >= capacity {
      p := SlotInWindow(head - capacity, k, capacity);
      p := p + capacity;
    } else {
      p := if k >= head then k else k + capacity;
    }
  }

  lemma {:induction false} LapMultiple(i: nat, capacity: nat) returns (q: nat)
    requires capacity > 0
    ensures i == q * capacity + Slot(i, capacity)
    decreases i
  {
    if i < capacity {
      q := 0;
    } else {
      var p := LapMultiple(i - capacity, capacity);
      q := p + 1;
    }
  }

  lemma {:induction false} ModOfSum(q: nat, r: nat, m: nat)
    requires r < m
    ensures (q * m + r) % m == r
    decreases q
  {
    if q > 0 {
      ModOfSum(q - 1, r, m);
      var x := (q - 1) * m + r;
      assert q * m + r == x + m;
      ModNextLap(x, m);
    }
  }

  lemma ModNextLap(x: nat, m: nat)
    requires m > 0
    ensures (x + m) % m == x % m
  {
    var a, b := x / m, (x + m) / m;
    var r, s := x % m, (x + m) % m;
    assert x == m * a + r && x + m == m * b + s;
    var d := b - a - 1;
    assert m * d == r - s by {
      assert m * d == m * b - m * a - m;
    }
    assert d >= 1 ==> m * d >= m;
    assert d <= -1 ==> m * d <= -1 * m;
  }

  /** Stripping laps is taking the remainder. */
  lemma SlotIsMod(i: nat, capacity: nat)
    requires capacity > 0
    ensures Slot(i, capacity) == i % capacity
  {
    var q := LapMultiple(i, capacity);
    ModOfSum(q, Slot(i, capacity), capacity);
  }

  /** Bit by bit, `a & b`. */
  function BitAnd(a: nat, b: nat): nat
    decreases a
  {
    if a == 0 then 0 else (if a % 2 == 1 && b % 2 == 1 then 1 else 0) + 2 * BitAnd(a / 2, b / 2)
  }

  /** Bit by bit, `a & ~b`. */
  function BitAndNot(a: nat, b: nat): nat
    decreases a
  {
    if a == 0 then 0 else (if a % 2 == 1 && b % 2 == 0 then 1 else 0) + 2 * BitAndNot(a / 2, b / 2)
  }

  /** The bits of `a` are those it shares with `b` and those it does not. */
  lemma {:induction false} BitsSplit(a: nat, b: nat)
    ensures BitAnd(a, b) + BitAndNot(a, b) == a
    decreases a
  {
    if a > 0 { BitsSplit(a / 2, b / 2); }
  }

  predicate PowerOfTwo(c: nat) {
    c == 1 || (c > 1 && c % 2 == 0 && PowerOfTwo(c / 2))
  }

  lemma {:induction false} AndNothing(a: nat)
    ensures BitAnd(a, 0) == 0
    decreases a
  {
    if a > 0 { AndNothing(a / 2); }
  }

  lemma {:induction false} AndItself(a: nat)
    ensures BitAnd(a, a) == a
    decreases a
  {
    if a > 0 { AndItself(a / 2); }
  }

  lemma {:induction false} MaskIsSlot(i: nat, capacity: nat)
    requires PowerOfTwo(capacity)
    ensures BitAnd(i, capacity - 1) == Slot(i, capacity)
    decreases i
  {
    if i == 0 {
    } else if capacity == 1 {
      AndNothing(i);
    } else {
      var h := capacity / 2;
      MaskIsSlot(i / 2, h);
      HalfOfSlot(i, h);
    }
  }

  /** A slot, without its lowest bit, is the slot of the half. */
  lemma {:induction false} HalfOfSlot(i: nat, h: nat)
    requires h > 0
    ensures Slot(i, 2 * h) == 2 * Slot(i / 2, h) + i % 2
    decreases i
  {
    if i >= 2 * h {
      HalfOfSlot(i - 2 * h, h);
      assert (i - 2 * h) / 2 == i / 2 - h;
    }
  }

  lemma {:induction false} MaskedCapacity(c: nat)
    requires c > 0 && BitAnd(c, c - 1) == 0
    ensures PowerOfTwo(c)
    decreases c
  {
    if c % 2 == 1 {
      assert c / 2 == (c - 1) / 2;
      AndItself(c / 2);
    } else {
      MaskedCapacity(c / 2);
    }
  }

  predicate MasksTo(i: nat, capacity: nat)
    requires capacity > 0
  {
    BitAnd(i, capacity - 1) == Slot(i, capacity)
  }

  /** Masking with the capacity less one finds the slot of every position exactly for a capacity
      that is a power of two. */
  lemma MaskExactly(capacity: nat)
    requires capacity > 0
    ensures (forall i: nat :: MasksTo(i, capacity)) <==> PowerOfTwo(capacity)
  {
    if PowerOfTwo(capacity) {
      forall i: nat ensures MasksTo(i, capacity) {
        MaskIsSlot(i, capacity);
      }
    } else {
      assert Slot(capacity, capacity) == 0;
      if MasksTo(capacity, capacity) { MaskedCapacity(capacity); }
    }
  }
}
