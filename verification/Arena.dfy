/** The arena allocator: a chain of blocks from which regions are cut in order, until a
    reset takes all of them back.

    Addresses are naturals. Getting memory for a block is a parameter: the address of
    memory that overlaps no block in use, or nothing. The chain is the sequence of its
    blocks, first one first. */
module Arena {
  import opened Basics
  import opened Alignment
  import RingIndex

  datatype Block = Block(base: nat, size: nat, offset: nat, peak: nat)

  /** A region handed out: where, how long, with what alignment, from which block. */
  datatype Region = Region(start: nat, len: nat, align: nat, block: nat)

  const MinSize := 4096
  const DefaultSize := 64 * 1024
  const PointerSize := 8

  /** The size of a further block, given that of the first one. */
  function NewSize(first: nat, size: nat, align: nat): (n: nat)
    ensures n >= size + align
  {
    if first * 2 < size + align then size + align + MinSize else first * 2
  }

  // ---------------------------------------------------------------------------
  // What holds of an arena
  // ---------------------------------------------------------------------------

  predicate BlockOk(b: Block) { b.offset <= b.peak <= b.size }

  predicate Apart(a: Block, b: Block) { a.base + a.size <= b.base || b.base + b.size <= a.base }

  ghost predicate ChainOk(bs: seq<Block>) {
    && (forall i :: 0 <= i < |bs| ==> BlockOk(bs[i]))
    && forall i, j :: 0 <= i < j < |bs| ==> Apart(bs[i], bs[j])
  }

  /** The region lies inside the used part of its block, at an aligned offset. */
  predicate Inside(bs: seq<Block>, r: Region) {
    && r.block < |bs| && r.align > 0 && r.len > 0
    && bs[r.block].base <= r.start && r.start + r.len <= bs[r.block].base + bs[r.block].offset
    && (r.start - bs[r.block].base) % r.align == 0
  }

  predicate Disjoint(r: Region, q: Region) { r.start + r.len <= q.start || q.start + q.len <= r.start }

  ghost predicate RegionsOk(bs: seq<Block>, rs: seq<Region>) {
    && (forall i :: 0 <= i < |rs| ==> Inside(bs, rs[i]))
    && forall i, j :: 0 <= i < j < |rs| ==> Disjoint(rs[i], rs[j])
  }

  /** Memory for a new block overlaps no block of the chain. */
  ghost predicate MayUse(bs: seq<Block>, base: nat, size: nat) {
    forall i :: 0 <= i < |bs| ==> Apart(bs[i], Block(base, size, 0, 0))
  }

  /** Cutting a region behind everything handed out from block `k`. */
  lemma CutKeeps(bs: seq<Block>, rs: seq<Region>, k: nat, b: Block, r: Region)
    requires ChainOk(bs) && RegionsOk(bs, rs) && k < |bs|
    requires BlockOk(b) && b.base == bs[k].base && b.size == bs[k].size && b.offset >= bs[k].offset
    requires r.block == k && Inside(bs[k := b], r) && r.start >= bs[k].base + bs[k].offset
    ensures ChainOk(bs[k := b]) && RegionsOk(bs[k := b], rs + [r])
  {
    var bs', rs' := bs[k := b], rs + [r];
    forall i | 0 <= i < |rs| ensures Inside(bs', rs[i]) && Disjoint(rs[i], r) {
      assert Inside(bs, rs[i]);
      RegionApart(bs, rs[i], k);
    }
    forall i | 0 <= i < |rs'| ensures Inside(bs', rs'[i]) {
      assert i < |rs| ==> rs'[i] == rs[i];
    }
    forall i, j | 0 <= i < j < |rs'| ensures Disjoint(rs'[i], rs'[j]) {
      assert rs'[i] == rs[i] && (j < |rs| ==> rs'[j] == rs[j]);
    }
  }

  /** A region of another block lies outside block `k` altogether. */
  lemma RegionApart(bs: seq<Block>, r: Region, k: nat)
    requires ChainOk(bs) && k < |bs| && Inside(bs, r)
    ensures r.block != k ==> r.start + r.len <= bs[k].base || bs[k].base + bs[k].size <= r.start
  {
    if r.block < k {
      assert Apart(bs[r.block], bs[k]);
    } else if r.block > k {
      assert Apart(bs[k], bs[r.block]);
    }
  }

  lemma LinkKeeps(bs: seq<Block>, rs: seq<Region>, b: Block)
    requires ChainOk(bs) && RegionsOk(bs, rs) && BlockOk(b) && MayUse(bs, b.base, b.size)
    ensures ChainOk(bs + [b]) && RegionsOk(bs + [b], rs)
  {
    var bs' := bs + [b];
    forall i, j | 0 <= i < j < |bs'| ensures Apart(bs'[i], bs'[j]) {
      if j == |bs| { assert Apart(bs[i], Block(b.base, b.size, 0, 0)); }
    }
    forall i | 0 <= i < |rs| ensures Inside(bs', rs[i]) {
      assert Inside(bs, rs[i]);
    }
  }

  predicate Aligned(offset: int, align: nat) { offset % (if align > 0 then align else 8) == 0 }

  /** The least address at an aligned offset behind what is used of a block; an alignment of zero
      means that of a pointer, eight. */
  predicate Next(b: Block, start: nat, size: nat, align: nat) {
    var al := if align > 0 then align else 8;
    && b.base + b.offset <= start < b.base + b.offset + al
    && Aligned(start - b.base, align)
    && start + size <= b.base + b.size
  }

  predicate Fits(b: Block, size: nat, align: nat) { AlignUp(b.offset, EffectiveAlign(align)) + size <= b.size }

  /** A request fits exactly if there is such an address, and there is only one. */
  lemma FitsExactly(b: Block, size: nat, align: nat)
    ensures Fits(b, size, align) <==> exists start: nat :: Next(b, start, size, align)
    ensures forall s: nat, t: nat :: Next(b, s, size, align) && Next(b, t, size, align) ==> s == t
  {
    var al := if align > 0 then align else 8;
    var at := AlignUp(b.offset, al);
    if Fits(b, size, align) { assert Next(b, b.base + at, size, align); }
    forall s: nat | Next(b, s, size, align) ensures s == b.base + at {
      OneMultiple(s - b.base, at, al);
    }
  }

  lemma OneMultiple(x: nat, y: nat, a: nat)
    requires a > 0 && x % a == 0 && y % a == 0 && x < y + a && y < x + a
    ensures x == y
  {
    RingIndex.SlotIsMod(x, a);
    RingIndex.SlotIsMod(y, a);
    RingIndex.SameSlot(x, y, a);
  }

  /** The block used up to address `end`. */
  function Used(b: Block, end: nat): Block
    requires end >= b.base
  {
    var offset := end - b.base;
    b.(offset := offset, peak := if offset > b.peak then offset else b.peak)
  }

  /** What a further block has room for: twice the first block, or else the request and a page. */
  function MoreRoom(first: nat, size: nat, align: nat): nat {
    var need := size + if align > 0 then align else 8;
    if 2 * first >= need then 2 * first else need + 4096
  }

  lemma NothingToAlign(a: nat)
    requires a > 0
    ensures AlignUp(0, a) == 0
  {
    var r := AlignUp(0, a);
    assert r % a == r;
  }

  // ---------------------------------------------------------------------------
  // The arena
  // ---------------------------------------------------------------------------

  class Arena {
    var blocks: seq<Block>
    /** The block regions are cut from. */
    var current: nat
    /** The regions handed out since the last reset. */
    ghost var regions: seq<Region>

    ghost predicate Valid()
      reads this
    {
      && |blocks| > 0 && current == |blocks| - 1
      && ChainOk(blocks) && RegionsOk(blocks, regions)
    }

    constructor (initialSize: nat, base: nat)
      ensures Valid() && regions == [] && |blocks| == 1 && blocks[0].base == base
      ensures blocks[0].size == if initialSize < MinSize then DefaultSize else initialSize
    {
      blocks := [Block(base, if initialSize < MinSize then DefaultSize else initialSize, 0, 0)];
      current := 0;
      regions := [];
    }

    /** The current block has room for a region. */
    predicate FitsCurrent(size: nat, align: nat)
      requires current < |blocks|
      reads this
    {
      Fits(blocks[current], size, align)
    }

    /** Allocation; `memory` is what asking for a further block would give. A region handed out
        lies in its block at an aligned offset and overlaps no other since the last reset. */
    method AllocAligned(size: nat, align: nat, memory: Option<nat>) returns (r: Option<nat>)
      requires Valid()
      requires memory.Some? ==> MayUse(blocks, memory.value, NewSize(blocks[0].size, size, EffectiveAlign(align)))
      modifies this
      ensures Valid()
      ensures r.None? <==> size == 0 || (memory.None? && !old(FitsCurrent(size, align)))
      ensures r.None? ==> unchanged(this)
      ensures r.Some? ==> size > 0 && regions == old(regions) + [Region(r.value, size, EffectiveAlign(align), current)]
      ensures r.Some? && old(FitsCurrent(size, align)) ==>
                && current == old(current) && Next(old(blocks)[current], r.value, size, align)
                && blocks == old(blocks)[current := Used(old(blocks)[current], r.value + size)]
      ensures r.Some? && !old(FitsCurrent(size, align)) ==>
                && r == memory && current == |old(blocks)|
                && blocks == old(blocks) + [Used(Block(r.value, MoreRoom(old(blocks[0].size), size, align), 0, 0), r.value + size)]
      ensures r.Some? ==> Aligned(r.value - blocks[current].base, align)
    {
      if size == 0 { return None; }
      if AlignUp(blocks[current].offset, EffectiveAlign(align)) + size <= blocks[current].size {
        var start := AllocHere(size, align);
        return Some(start);
      }
      match memory
      case None => r := None;
      case Some(base) =>
        AllocFresh(size, align, base);
        r := memory;
    }

    /** From the current block. */
    method AllocHere(size: nat, align: nat) returns (start: nat)
      requires Valid() && size > 0 && FitsCurrent(size, align)
      modifies this`blocks, this`regions
      ensures Valid() && regions == old(regions) + [Region(start, size, EffectiveAlign(align), current)]
      ensures Next(old(blocks)[current], start, size, align)
      ensures blocks == old(blocks)[current := Used(old(blocks)[current], start + size)]
      ensures Aligned(start - blocks[current].base, align)
    {
      var al, a := EffectiveAlign(align), blocks[current];
      var at := AlignUp(a.offset, al);
      Cut(current, at, size, al);
      start := a.base + at;
    }

    /** From a new block. */
    method AllocFresh(size: nat, align: nat, base: nat)
      requires Valid() && size > 0 && MayUse(blocks, base, NewSize(blocks[0].size, size, EffectiveAlign(align)))
      modifies this`blocks, this`current, this`regions
      ensures Valid() && current == |old(blocks)| && regions == old(regions) + [Region(base, size, EffectiveAlign(align), current)]
      ensures blocks == old(blocks) + [Used(Block(base, MoreRoom(old(blocks[0].size), size, align), 0, 0), base + size)]
      ensures Aligned(base - blocks[current].base, align)
    {
      var al := EffectiveAlign(align);
      NothingToAlign(al);
      Link(base, NewSize(blocks[0].size, size, al));
      Cut(current, AlignUp(0, al), size, al);
    }

    /** Cuts `size` bytes at offset `at` from the current block. */
    method Cut(k: nat, at: nat, size: nat, align: nat)
      requires Valid() && k == current && size > 0 && align > 0 && at % align == 0
      requires blocks[k].offset <= at && at + size <= blocks[k].size
      modifies this`blocks, this`regions
      ensures Valid() && blocks == old(blocks)[k := Used(old(blocks)[k], old(blocks)[k].base + at + size)]
      ensures regions == old(regions) + [Region(blocks[k].base + at, size, align, k)]
    {
      var b := blocks[k];
      var end := at + size;
      var b' := Block(b.base, b.size, end, if end > b.peak then end else b.peak);
      assert b' == Used(b, b.base + end);
      ghost var r := Region(b.base + at, size, align, k);
      CutKeeps(blocks, regions, k, b', r);
      blocks := blocks[k := b'];
      regions := regions + [r];
    }

    /** Links a new block behind the current one and makes it the current one. */
    method Link(base: nat, size: nat)
      requires Valid() && MayUse(blocks, base, size)
      modifies this`blocks, this`current
      ensures Valid() && blocks == old(blocks) + [Block(base, size, 0, 0)] && current == |old(blocks)|
    {
      LinkKeeps(blocks, regions, Block(base, size, 0, 0));
      assert blocks[..current + 1] == blocks;
      blocks := blocks[..current + 1] + [Block(base, size, 0, 0)];
      current := current + 1;
    }

    /** Releases all blocks but the first and takes all regions back. */
    method Reset()
      requires Valid()
      modifies this
      ensures Valid() && regions == [] && current == 0
      ensures blocks == [old(blocks)[0].(offset := 0)]
    {
      blocks := [blocks[0].(offset := 0)];
      current := 0;
      regions := [];
    }
  }

  /** No alignment given means that of a pointer. */
  function EffectiveAlign(align: nat): (a: nat)
    ensures a > 0
  {
    if align == 0 then PointerSize else align
  }
}
