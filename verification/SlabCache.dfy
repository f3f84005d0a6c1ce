/** The slab allocator: objects of one size are carved out of slabs, and each slab is on
    the list its number of objects in use dictates.

    Addresses are naturals. Mapping fresh pages is a parameter: the base address of a region
    that overlaps no slab in use, or nothing. A slab is named by its base address, its free
    list is the sequence of addresses the links thread, and the slab lists are sequences,
    head first. */
module SlabCache {
  import opened Basics
  import RingIndex
  import opened Alignment

  datatype Slab = Slab(freelist: seq<nat>, inuse: nat)

  /** Sizes of a cache: of an object, of a slab, and how many objects a slab has. */
  datatype Geometry = Geometry(objSize: nat, slabSize: nat, total: nat)

  predicate GeometryOk(g: Geometry) {
    g.objSize > 0 && g.total >= 4 && g.total * g.objSize <= g.slabSize
  }

  // ---------------------------------------------------------------------------
  // Objects of a slab
  // ---------------------------------------------------------------------------

  function Nth(base: nat, size: nat, k: nat): nat {
    if k == 0 then base else Nth(base, size, k - 1) + size
  }

  /** The first `n` objects of a slab, last first. */
  function Objects(base: nat, size: nat, n: nat): (q: seq<nat>)
    ensures |q| == n
  {
    if n == 0 then [] else [Nth(base, size, n - 1)] + Objects(base, size, n - 1)
  }

  predicate IsObject(g: Geometry, base: nat, p: nat) {
    p in Objects(base, g.objSize, g.total)
  }

  lemma {:induction false} NthIs(base: nat, size: nat, k: nat)
    ensures Nth(base, size, k) == base + k * size
  {
    if k > 0 { NthIs(base, size, k - 1); }
  }

  lemma {:induction false} ObjectsRange(base: nat, size: nat, n: nat)
    requires size > 0
    ensures forall p :: p in Objects(base, size, n) ==> base <= p < Nth(base, size, n)
    ensures Distinct(Objects(base, size, n))
  {
    NthIs(base, size, n);
    if n > 0 {
      NthIs(base, size, n - 1);
      ObjectsRange(base, size, n - 1);
      PrependDistinct(Nth(base, size, n - 1), Objects(base, size, n - 1));
    }
  }

  lemma ObjectsInside(g: Geometry, base: nat, p: nat)
    requires GeometryOk(g) && IsObject(g, base, p)
    ensures base <= p < base + g.slabSize
  {
    ObjectsRange(base, g.objSize, g.total);
    NthIs(base, g.objSize, g.total);
  }

  /** The pointer test of the slab lookup. */
  predicate Matches(g: Geometry, base: nat, p: nat)
    requires g.objSize > 0
  {
    base <= p < base + g.slabSize && (p - base) % g.objSize == 0
  }

  lemma {:induction false} ObjectAt(base: nat, size: nat, n: nat, p: nat) returns (k: nat)
    requires p in Objects(base, size, n)
    ensures k < n && p == base + k * size
  {
    if p == Nth(base, size, n - 1) {
      NthIs(base, size, n - 1);
      k := n - 1;
    } else {
      k := ObjectAt(base, size, n - 1, p);
    }
  }

  lemma {:induction false} AtObject(base: nat, size: nat, n: nat, k: nat)
    requires k < n
    ensures base + k * size in Objects(base, size, n)
  {
    if k == n - 1 { NthIs(base, size, k); } else { AtObject(base, size, n - 1, k); }
  }

  lemma ObjectsMatch(g: Geometry, base: nat, p: nat)
    requires GeometryOk(g) && IsObject(g, base, p)
    ensures Matches(g, base, p)
  {
    ObjectsInside(g, base, p);
    var k := ObjectAt(base, g.objSize, g.total, p);
    RingIndex.ModOfSum(k, 0, g.objSize);
  }

  /** The pointer test takes exactly the objects of the slab if and only if the object size
      divides the slab size; otherwise it also takes the address behind the last object. */
  lemma MatchesExactlyObjects(g: Geometry, base: nat)
    requires GeometryOk(g) && g.total == g.slabSize / g.objSize
    ensures (forall p: nat :: Matches(g, base, p) <==> IsObject(g, base, p)) <==> g.slabSize % g.objSize == 0
  {
    var n, size := g.total, g.objSize;
    assert g.slabSize == n * size + g.slabSize % size;
    if g.slabSize % size == 0 {
      forall p: nat ensures Matches(g, base, p) <==> IsObject(g, base, p) {
        if IsObject(g, base, p) { ObjectsMatch(g, base, p); }
        if Matches(g, base, p) { MatchIsObject(g, base, p); }
      }
    } else {
      var p := base + n * size;
      RingIndex.ModOfSum(n, 0, size);
      assert Matches(g, base, p);
      ObjectsRange(base, size, n);
      NthIs(base, size, n);
    }
  }

  lemma MatchIsObject(g: Geometry, base: nat, p: nat)
    requires GeometryOk(g) && g.slabSize == g.total * g.objSize && Matches(g, base, p)
    ensures IsObject(g, base, p)
  {
    var k := (p - base) / g.objSize;
    assert p - base == k * g.objSize;
    MulMonotone(g.total, k, g.objSize);
    AtObject(base, g.objSize, g.total, k);
  }

  lemma {:induction false} MulMonotone(a: nat, b: nat, m: nat)
    ensures a <= b ==> a * m <= b * m
  {
  }

  // ---------------------------------------------------------------------------
  // What holds of a cache; `live` maps each object handed out to its slab
  // ---------------------------------------------------------------------------

  ghost predicate SlabOk(g: Geometry, live: map<nat, nat>, base: nat, s: Slab) {
    && |s.freelist| + s.inuse == g.total && Distinct(s.freelist)
    && forall p: nat :: p in s.freelist <==> IsObject(g, base, p) && p !in live
  }

  /** Free list and live objects partition the objects of every slab. */
  ghost predicate SlabsOk(g: Geometry, slabs: map<nat, Slab>, live: map<nat, nat>) {
    forall b: nat {:trigger SlabOk(g, live, b, slabs[b])} :: b in slabs ==> SlabOk(g, live, b, slabs[b])
  }

  /** Slabs do not overlap. */
  ghost predicate Apart(g: Geometry, slabs: map<nat, Slab>) {
    && 0 !in slabs
    && forall a: nat, b: nat {:trigger Clear(g, a, b)} :: a in slabs && b in slabs && a != b ==> Clear(g, a, b)
  }

  predicate Clear(g: Geometry, a: nat, b: nat) { a + g.slabSize <= b || b + g.slabSize <= a }

  ghost predicate Owned(g: Geometry, slabs: map<nat, Slab>, live: map<nat, nat>) {
    forall p: nat :: p in live ==> live[p] in slabs && IsObject(g, live[p], p)
  }

  /** Every slab is on exactly the list its count of objects in use dictates, once. */
  ghost predicate Listed(g: Geometry, slabs: map<nat, Slab>, full: seq<nat>, partial: seq<nat>, empty: seq<nat>) {
    && Distinct(full) && Distinct(partial) && Distinct(empty)
    && forall b: nat {:trigger Belongs(g, slabs, full, partial, empty, b)} :: Belongs(g, slabs, full, partial, empty, b)
  }

  ghost predicate Belongs(g: Geometry, slabs: map<nat, Slab>, full: seq<nat>, partial: seq<nat>, empty: seq<nat>, b: nat) {
    && (b in full <==> b in slabs && slabs[b].inuse == g.total)
    && (b in partial <==> b in slabs && 0 < slabs[b].inuse < g.total)
    && (b in empty <==> b in slabs && slabs[b].inuse == 0)
  }

  /** Objects in use over the slabs of a list. */
  function InUse(q: seq<nat>, slabs: map<nat, Slab>): nat {
    if q == [] then 0 else (if q[0] in slabs then slabs[q[0]].inuse else 0) + InUse(q[1..], slabs)
  }

  ghost predicate Counted(slabs: map<nat, Slab>, full: seq<nat>, partial: seq<nat>, empty: seq<nat>, live: map<nat, nat>) {
    |live| == Total(slabs, full, partial, empty)
  }

  /** The head pointer of a list, which may be null. */
  function First(q: seq<nat>): Option<nat> {
    if q == [] then None else Some(q[0])
  }

  lemma {:induction false} InUseWithout(q: seq<nat>, b: nat, slabs: map<nat, Slab>)
    requires Distinct(q) && b in q && b in slabs
    ensures InUse(q, slabs) == slabs[b].inuse + InUse(Without(q, b), slabs)
  {
    assert q[0] !in q[1..];
    if q[0] == b {
      WithoutAbsent(q[1..], b);
    } else {
      InUseWithout(q[1..], b, slabs);
      assert ([q[0]] + Without(q[1..], b))[1..] == Without(q[1..], b);
    }
  }

  lemma {:induction false} WithoutAbsent(q: seq<nat>, b: nat)
    requires b !in q
    ensures Without(q, b) == q
  {
    if q != [] { WithoutAbsent(q[1..], b); }
  }

  lemma {:induction false} InUseElsewhere(q: seq<nat>, b: nat, slabs: map<nat, Slab>, s: Slab)
    requires b !in q
    ensures InUse(q, slabs[b := s]) == InUse(q, slabs)
  {
    if q != [] { InUseElsewhere(q[1..], b, slabs, s); }
  }

  lemma {:induction false} InUseFirst(q: seq<nat>, b: nat, slabs: map<nat, Slab>)
    requires b in slabs
    ensures InUse([b] + q, slabs) == slabs[b].inuse + InUse(q, slabs)
  {
    assert ([b] + q)[1..] == q;
  }

  // ---------------------------------------------------------------------------
  // Handing out and taking back one object of slab `b`
  // ---------------------------------------------------------------------------

  /** An address is an object of at most one slab. */
  lemma OneOwner(g: Geometry, slabs: map<nat, Slab>, a: nat, b: nat, p: nat)
    requires GeometryOk(g) && Apart(g, slabs) && a in slabs && b in slabs
    requires Matches(g, a, p) && Matches(g, b, p)
    ensures a == b
  {
    assert a != b ==> Clear(g, a, b);
  }

  lemma TakenSlabs(g: Geometry, slabs: map<nat, Slab>, live: map<nat, nat>, b: nat)
    requires GeometryOk(g) && Apart(g, slabs) && SlabsOk(g, slabs, live) && Owned(g, slabs, live)
    requires b in slabs && slabs[b].freelist != []
    ensures var s := slabs[b];
            var p := s.freelist[0];
            var slabs', live' := slabs[b := Slab(s.freelist[1..], s.inuse + 1)], live[p := b];
            && p !in live && IsObject(g, b, p)
            && SlabsOk(g, slabs', live') && Owned(g, slabs', live') && Apart(g, slabs')
  {
    var s := slabs[b];
    var p := s.freelist[0];
    var slabs', live' := slabs[b := Slab(s.freelist[1..], s.inuse + 1)], live[p := b];
    assert SlabOk(g, live, b, s);
    forall c: nat | c in slabs' ensures SlabOk(g, live', c, slabs'[c]) {
      assert SlabOk(g, live, c, slabs[c]);
      if c == b {
        FirstOff(s.freelist);
      } else if IsObject(g, c, p) {
        ObjectsMatch(g, c, p);
        ObjectsMatch(g, b, p);
        OneOwner(g, slabs, b, c, p);
      }
    }
  }

  lemma FirstOff(q: seq<nat>)
    requires q != [] && Distinct(q)
    ensures Distinct(q[1..]) && forall p: nat :: p in q[1..] <==> p in q && p != q[0]
  {
    assert q == [q[0]] + q[1..];
  }

  lemma ReturnedSlabs(g: Geometry, slabs: map<nat, Slab>, live: map<nat, nat>, p: nat)
    requires GeometryOk(g) && Apart(g, slabs) && SlabsOk(g, slabs, live) && Owned(g, slabs, live)
    requires p in live && slabs[live[p]].inuse > 0
    ensures var b := live[p];
            var s := slabs[b];
            var slabs', live' := slabs[b := Slab([p] + s.freelist, s.inuse - 1)], live - {p};
            SlabsOk(g, slabs', live') && Owned(g, slabs', live') && Apart(g, slabs')
  {
    var b := live[p];
    var s := slabs[b];
    var slabs', live' := slabs[b := Slab([p] + s.freelist, s.inuse - 1)], live - {p};
    forall c: nat | c in slabs' ensures SlabOk(g, live', c, slabs'[c]) {
      assert SlabOk(g, live, c, slabs[c]);
      if c == b {
        PrependDistinct(p, s.freelist);
      } else if IsObject(g, c, p) {
        ObjectsMatch(g, c, p);
        ObjectsMatch(g, b, p);
        OneOwner(g, slabs, b, c, p);
      }
    }
  }

  /** A slab with a live object is in use. */
  lemma LiveInUse(g: Geometry, slabs: map<nat, Slab>, live: map<nat, nat>, p: nat)
    requires GeometryOk(g) && SlabsOk(g, slabs, live) && Owned(g, slabs, live) && p in live
    ensures slabs[live[p]].inuse > 0
  {
    var b := live[p];
    var s := slabs[b];
    assert SlabOk(g, live, b, s);
    ObjectsRange(b, g.objSize, g.total);
    ProperPartShorter(s.freelist, Objects(b, g.objSize, g.total), p);
  }

  /** Putting `p` at the front of the free list, as freeing does, leaves a slab in order. */
  ghost predicate Returnable(g: Geometry, live: map<nat, nat>, base: nat, s: Slab, p: nat) {
    s.inuse > 0 && SlabOk(g, live - {p}, base, Slab([p] + s.freelist, s.inuse - 1))
  }

  /** It does so exactly for a live object of the slab. The pointer test also takes an object
      that is free already, and an address behind the last one: those two spoil the free list. */
  lemma ReturnedExactly(g: Geometry, live: map<nat, nat>, base: nat, s: Slab, p: nat)
    requires GeometryOk(g) && SlabOk(g, live, base, s)
    ensures Returnable(g, live, base, s, p) <==> IsObject(g, base, p) && p in live
  {
    var q := [p] + s.freelist;
    if IsObject(g, base, p) && p in live {
      ObjectsRange(base, g.objSize, g.total);
      ProperPartShorter(s.freelist, Objects(base, g.objSize, g.total), p);
      PrependDistinct(p, s.freelist);
      forall x: nat ensures x in q <==> IsObject(g, base, x) && x !in live - {p} {
        assert x in q <==> x == p || x in s.freelist;
      }
    } else {
      assert q[0] == p && p in q;
      if p in s.freelist { FrontRepeats(p, s.freelist); }
    }
  }

  lemma FrontRepeats(p: nat, q: seq<nat>)
    requires p in q
    ensures !Distinct([p] + q)
  {
    var i :| 0 <= i < |q| && q[i] == p;
    assert ([p] + q)[i + 1] == ([p] + q)[0];
  }

  ghost function Members(q: seq<nat>): set<nat> { set x | x in q }

  ghost function LiveIn(live: map<nat, nat>, b: nat): set<nat> { set p | p in live && live[p] == b }

  /** A list without repetitions that has only, but not all, members of another is shorter. */
  lemma ProperPartShorter(q: seq<nat>, all: seq<nat>, p: nat)
    requires Distinct(q) && Distinct(all) && p in all && p !in q && forall x :: x in q ==> x in all
    ensures |q| < |all|
  {
    var a, b := Members(q), Members(all);
    CardOf(q);
    CardOf(all);
    assert p in b - a && b == a + (b - a);
    assert b - a != {};
  }

  lemma {:induction false} CardOf(q: seq<nat>)
    requires Distinct(q)
    ensures |Members(q)| == |q|
  {
    if q != [] {
      CardOf(q[1..]);
      assert q[0] !in Members(q[1..]);
      assert Members(q) == {q[0]} + Members(q[1..]);
    }
  }

  /** `inuse` of a slab is the number of its live objects. */
  lemma InUseIsLive(g: Geometry, slabs: map<nat, Slab>, live: map<nat, nat>, b: nat)
    requires GeometryOk(g) && Apart(g, slabs) && SlabsOk(g, slabs, live) && Owned(g, slabs, live) && b in slabs
    ensures |LiveIn(live, b)| == slabs[b].inuse
  {
    ObjectsRange(b, g.objSize, g.total);
    CardOf(Objects(b, g.objSize, g.total));
    assert SlabOk(g, live, b, slabs[b]);
    CardOf(slabs[b].freelist);
    FreeOrLive(g, slabs, live, b);
  }

  lemma FreeOrLive(g: Geometry, slabs: map<nat, Slab>, live: map<nat, nat>, b: nat)
    requires GeometryOk(g) && Apart(g, slabs) && SlabsOk(g, slabs, live) && Owned(g, slabs, live) && b in slabs
    ensures Members(Objects(b, g.objSize, g.total)) == Members(slabs[b].freelist) + LiveIn(live, b)
    ensures Members(slabs[b].freelist) !! LiveIn(live, b)
  {
    assert SlabOk(g, live, b, slabs[b]);
    forall p: nat | IsObject(g, b, p) && p in live ensures live[p] == b {
      ObjectsMatch(g, b, p);
      ObjectsMatch(g, live[p], p);
      OneOwner(g, slabs, b, live[p], p);
    }
  }

  lemma LiveGrows(live: map<nat, nat>, p: nat, b: nat)
    requires p !in live
    ensures |live[p := b]| == |live| + 1
  {
    assert live[p := b].Keys == live.Keys + {p};
    assert |live[p := b].Keys| == |live.Keys| + 1;
  }

  lemma SameSlabs(slabs: map<nat, Slab>, b: nat, s: Slab)
    requires b in slabs
    ensures slabs[b := s].Keys == slabs.Keys
  {
  }

  lemma LiveShrinks(live: map<nat, nat>, p: nat)
    requires p in live
    ensures |live - {p}| + 1 == |live|
  {
    assert (live - {p}).Keys == live.Keys - {p};
    assert |live.Keys - {p}| == |live.Keys| - 1;
  }

  // ---------------------------------------------------------------------------
  // Moving a slab between lists
  // ---------------------------------------------------------------------------

  /** Slab `b` gets count `s.inuse` and moves from the list `q` to the list `r`; `others` stays. */
  lemma Moved(slabs: map<nat, Slab>, b: nat, s: Slab, q: seq<nat>, r: seq<nat>, others: seq<nat>)
    requires Distinct(q) && Distinct(r) && b in q && b !in r && b !in others && b in slabs
    ensures Distinct(Without(q, b)) && Distinct([b] + r)
    ensures var slabs' := slabs[b := s];
            InUse(Without(q, b), slabs') + InUse([b] + r, slabs') + InUse(others, slabs') + slabs[b].inuse
            == InUse(q, slabs) + InUse(r, slabs) + InUse(others, slabs) + s.inuse
  {
    var slabs' := slabs[b := s];
    WithoutDistinct(q, b);
    PrependDistinct(b, r);
    InUseWithout(q, b, slabs);
    InUseElsewhere(Without(q, b), b, slabs, s);
    InUseElsewhere(r, b, slabs, s);
    InUseElsewhere(others, b, slabs, s);
    InUseFirst(r, b, slabs');
  }

  /** Slab `b` gets count `s.inuse` and stays where it is, on the list `q`. */
  lemma Stayed(slabs: map<nat, Slab>, b: nat, s: Slab, q: seq<nat>, r: seq<nat>, others: seq<nat>)
    requires Distinct(q) && b in q && b !in r && b !in others && b in slabs
    ensures var slabs' := slabs[b := s];
            InUse(q, slabs') + InUse(r, slabs') + InUse(others, slabs') + slabs[b].inuse
            == InUse(q, slabs) + InUse(r, slabs) + InUse(others, slabs) + s.inuse
  {
    InUseWithout(q, b, slabs);
    InUseWithout(q, b, slabs[b := s]);
    InUseElsewhere(Without(q, b), b, slabs, s);
    InUseElsewhere(r, b, slabs, s);
    InUseElsewhere(others, b, slabs, s);
  }

  /** A new, empty slab changes no count. */
  lemma SlabAdded(g: Geometry, slabs: map<nat, Slab>, live: map<nat, nat>, b: nat)
    requires GeometryOk(g) && Apart(g, slabs) && SlabsOk(g, slabs, live) && Owned(g, slabs, live)
    requires MayMap(g, slabs, b)
    ensures var slabs' := slabs[b := Slab(Objects(b, g.objSize, g.total), 0)];
            b !in slabs && Apart(g, slabs') && SlabsOk(g, slabs', live) && Owned(g, slabs', live)
  {
    ObjectsRange(b, g.objSize, g.total);
    assert b in slabs ==> Clear(g, b, b);
    forall p: nat | p in live ensures !IsObject(g, b, p) {
      ObjectsInside(g, live[p], p);
      assert Clear(g, live[p], b);
      if IsObject(g, b, p) { ObjectsInside(g, b, p); }
    }
    forall a: nat | a in slabs ensures Clear(g, a, b) && Clear(g, b, a) {}
    var slabs' := slabs[b := Slab(Objects(b, g.objSize, g.total), 0)];
    forall c: nat | c in slabs' ensures SlabOk(g, live, c, slabs'[c]) {
      assert c != b ==> SlabOk(g, live, c, slabs[c]);
    }
  }

  /** The pages at `b` are free to be mapped. */
  ghost predicate MayMap(g: Geometry, slabs: map<nat, Slab>, b: nat) {
    b > 0 && forall a: nat {:trigger Clear(g, a, b)} :: a in slabs ==> Clear(g, a, b)
  }

  lemma {:induction false} InUseDropped(q: seq<nat>, b: nat, slabs: map<nat, Slab>)
    requires b !in q
    ensures InUse(q, slabs - {b}) == InUse(q, slabs)
  {
    if q != [] { InUseDropped(q[1..], b, slabs); }
  }

  lemma {:induction false} InUseNone(q: seq<nat>, slabs: map<nat, Slab>)
    requires forall b :: b in q ==> b in slabs && slabs[b].inuse == 0
    ensures InUse(q, slabs) == 0
  {
    if q != [] { InUseNone(q[1..], slabs); }
  }

  function Total(slabs: map<nat, Slab>, full: seq<nat>, partial: seq<nat>, empty: seq<nat>): nat {
    InUse(full, slabs) + InUse(partial, slabs) + InUse(empty, slabs)
  }

  lemma EmptyToPartial(g: Geometry, slabs: map<nat, Slab>, full: seq<nat>, partial: seq<nat>, empty: seq<nat>, b: nat, s: Slab)
    requires Listed(g, slabs, full, partial, empty) && g.total >= 4 && b in slabs && slabs[b].inuse == 0 && s.inuse == 1
    ensures Listed(g, slabs[b := s], full, [b] + partial, Without(empty, b))
    ensures Total(slabs[b := s], full, [b] + partial, Without(empty, b)) == Total(slabs, full, partial, empty) + 1
  {
    assert Belongs(g, slabs, full, partial, empty, b);
    Moved(slabs, b, s, empty, partial, full);
    var slabs', full', partial', empty' := slabs[b := s], full, [b] + partial, Without(empty, b);
    forall c: nat ensures Belongs(g, slabs', full', partial', empty', c) {
      assert Belongs(g, slabs, full, partial, empty, c);
    }
  }

  lemma PartialToFull(g: Geometry, slabs: map<nat, Slab>, full: seq<nat>, partial: seq<nat>, empty: seq<nat>, b: nat, s: Slab)
    requires Listed(g, slabs, full, partial, empty) && b in slabs && 0 < slabs[b].inuse && s.inuse == slabs[b].inuse + 1 == g.total
    ensures Listed(g, slabs[b := s], [b] + full, Without(partial, b), empty)
    ensures Total(slabs[b := s], [b] + full, Without(partial, b), empty) == Total(slabs, full, partial, empty) + 1
  {
    assert Belongs(g, slabs, full, partial, empty, b);
    Moved(slabs, b, s, partial, full, empty);
    var slabs', full', partial', empty' := slabs[b := s], [b] + full, Without(partial, b), empty;
    forall c: nat ensures Belongs(g, slabs', full', partial', empty', c) {
      assert Belongs(g, slabs, full, partial, empty, c);
    }
  }

  lemma PartialToEmpty(g: Geometry, slabs: map<nat, Slab>, full: seq<nat>, partial: seq<nat>, empty: seq<nat>, b: nat, s: Slab)
    requires Listed(g, slabs, full, partial, empty) && g.total >= 4 && b in slabs && slabs[b].inuse == 1 && s.inuse == 0
    ensures Listed(g, slabs[b := s], full, Without(partial, b), [b] + empty)
    ensures Total(slabs[b := s], full, Without(partial, b), [b] + empty) + 1 == Total(slabs, full, partial, empty)
  {
    assert Belongs(g, slabs, full, partial, empty, b);
    Moved(slabs, b, s, partial, empty, full);
    var slabs', full', partial', empty' := slabs[b := s], full, Without(partial, b), [b] + empty;
    forall c: nat ensures Belongs(g, slabs', full', partial', empty', c) {
      assert Belongs(g, slabs, full, partial, empty, c);
    }
  }

  lemma FullToPartial(g: Geometry, slabs: map<nat, Slab>, full: seq<nat>, partial: seq<nat>, empty: seq<nat>, b: nat, s: Slab)
    requires Listed(g, slabs, full, partial, empty) && g.total >= 4 && b in slabs && slabs[b].inuse == g.total == s.inuse + 1
    ensures Listed(g, slabs[b := s], Without(full, b), [b] + partial, empty)
    ensures Total(slabs[b := s], Without(full, b), [b] + partial, empty) + 1 == Total(slabs, full, partial, empty)
  {
    assert Belongs(g, slabs, full, partial, empty, b);
    Moved(slabs, b, s, full, partial, empty);
    var slabs', full', partial', empty' := slabs[b := s], Without(full, b), [b] + partial, empty;
    forall c: nat ensures Belongs(g, slabs', full', partial', empty', c) {
      assert Belongs(g, slabs, full, partial, empty, c);
    }
  }

  lemma StaysPartial(g: Geometry, slabs: map<nat, Slab>, full: seq<nat>, partial: seq<nat>, empty: seq<nat>, b: nat, s: Slab)
    requires Listed(g, slabs, full, partial, empty) && b in slabs && 0 < slabs[b].inuse < g.total && 0 < s.inuse < g.total
    ensures Listed(g, slabs[b := s], full, partial, empty)
    ensures Total(slabs[b := s], full, partial, empty) + slabs[b].inuse == Total(slabs, full, partial, empty) + s.inuse
  {
    assert Belongs(g, slabs, full, partial, empty, b);
    Stayed(slabs, b, s, partial, full, empty);
    var slabs', full', partial', empty' := slabs[b := s], full, partial, empty;
    forall c: nat ensures Belongs(g, slabs', full', partial', empty', c) {
      assert Belongs(g, slabs, full, partial, empty, c);
    }
  }

  lemma EmptyListed(g: Geometry, slabs: map<nat, Slab>, full: seq<nat>, partial: seq<nat>, empty: seq<nat>, b: nat, s: Slab)
    requires Listed(g, slabs, full, partial, empty) && g.total >= 4 && b !in slabs && s.inuse == 0
    ensures Listed(g, slabs[b := s], full, partial, [b] + empty)
    ensures Total(slabs[b := s], full, partial, [b] + empty) == Total(slabs, full, partial, empty)
  {
    assert Belongs(g, slabs, full, partial, empty, b);
    PrependDistinct(b, empty);
    InUseElsewhere(full, b, slabs, s);
    InUseElsewhere(partial, b, slabs, s);
    InUseElsewhere(empty, b, slabs, s);
    InUseFirst(empty, b, slabs[b := s]);
    var slabs', full', partial', empty' := slabs[b := s], full, partial, [b] + empty;
    forall c: nat ensures Belongs(g, slabs', full', partial', empty', c) {
      assert Belongs(g, slabs, full, partial, empty, c);
    }
  }

  lemma EmptyDropped(g: Geometry, slabs: map<nat, Slab>, full: seq<nat>, partial: seq<nat>, empty: seq<nat>, live: map<nat, nat>)
    requires GeometryOk(g) && Listed(g, slabs, full, partial, empty) && SlabsOk(g, slabs, live) && Owned(g, slabs, live)
    requires empty != []
    ensures var slabs', empty' := slabs - {empty[0]}, empty[1..];
            && Listed(g, slabs', full, partial, empty')
            && Total(slabs', full, partial, empty') == Total(slabs, full, partial, empty)
            && SlabsOk(g, slabs', live) && Owned(g, slabs', live)
  {
    var b := empty[0];
    assert Belongs(g, slabs, full, partial, empty, b);
    FirstOff(empty);
    InUseDropped(full, b, slabs);
    InUseDropped(partial, b, slabs);
    InUseDropped(empty[1..], b, slabs);
    forall p: nat | p in live ensures live[p] != b {
      LiveInUse(g, slabs, live, p);
    }
    var slabs', empty' := slabs - {b}, empty[1..];
    forall c: nat ensures Belongs(g, slabs', full, partial, empty', c) {
      assert Belongs(g, slabs, full, partial, empty, c);
    }
  }

  lemma HasRoom(g: Geometry, slabs: map<nat, Slab>, full: seq<nat>, partial: seq<nat>, empty: seq<nat>, live: map<nat, nat>, b: nat)
    requires GeometryOk(g) && Listed(g, slabs, full, partial, empty) && SlabsOk(g, slabs, live)
    requires b in partial || b in empty
    ensures b in slabs && slabs[b].freelist != [] && slabs[b].inuse < g.total
  {
    assert Belongs(g, slabs, full, partial, empty, b);
    assert SlabOk(g, live, b, slabs[b]);
  }

  lemma ListsHold(g: Geometry, slabs: map<nat, Slab>, full: seq<nat>, partial: seq<nat>, empty: seq<nat>)
    requires Listed(g, slabs, full, partial, empty)
    ensures forall b: nat :: b in full || b in partial || b in empty ==> b in slabs
    ensures forall b: nat :: b in empty ==> slabs[b].inuse == 0
    ensures forall b: nat :: b in slabs && slabs[b].inuse == 0 ==> b in empty
  {
    forall b: nat
      ensures b in full || b in partial || b in empty ==> b in slabs
      ensures b in empty <==> b in slabs && slabs[b].inuse == 0
    {
      assert Belongs(g, slabs, full, partial, empty, b);
    }
  }

  lemma ListedSomewhere(g: Geometry, slabs: map<nat, Slab>, full: seq<nat>, partial: seq<nat>, empty: seq<nat>, live: map<nat, nat>, b: nat)
    requires Listed(g, slabs, full, partial, empty) && SlabsOk(g, slabs, live) && b in slabs
    ensures b in full || b in partial || b in empty
  {
    assert Belongs(g, slabs, full, partial, empty, b);
    assert SlabOk(g, live, b, slabs[b]);
  }

  lemma NullIsNotLive(g: Geometry, slabs: map<nat, Slab>, live: map<nat, nat>)
    requires GeometryOk(g) && Apart(g, slabs) && Owned(g, slabs, live)
    ensures 0 !in live
  {
    if 0 in live { ObjectsInside(g, live[0], 0); }
  }

  lemma {:induction false} InUseNext(q: seq<nat>, i: nat, slabs: map<nat, Slab>)
    requires i < |q| && q[i] in slabs
    ensures InUse(q[..i + 1], slabs) == InUse(q[..i], slabs) + slabs[q[i]].inuse
  {
    if i > 0 {
      InUseNext(q[1..], i - 1, slabs);
      assert q[..i + 1][1..] == q[1..][..i] && q[..i][1..] == q[1..][..i - 1];
    }
  }

  // ---------------------------------------------------------------------------
  // The cache
  // ---------------------------------------------------------------------------

  /** The sizes a cache is created with. */
  function GeometryFor(size: nat, align: nat): (g: Geometry)
    ensures GeometryOk(g) && g.objSize >= size && g.objSize >= 8
    ensures g.total == g.slabSize / g.objSize
    ensures g.objSize % (if align < 8 then 8 else align) == 0
    ensures g.objSize < (if size < 8 then 8 else size) + if align < 8 then 8 else align
    ensures g.slabSize == if g.objSize > 1024 then 4 * g.objSize else 4096
  {
    var a := if align < 8 then 8 else align;
    var obj := AlignUp(if size < 8 then 8 else size, a);
    var slab := if obj > 4096 / 4 then obj * 4 else 4096;
    AtLeastFour(obj, slab);
    Geometry(obj, slab, slab / obj)
  }

  lemma AtLeastFour(obj: nat, slab: nat)
    requires obj > 0 && slab == if obj > 4096 / 4 then obj * 4 else 4096
    ensures slab / obj >= 4 && slab / obj * obj <= slab
  {
    assert slab >= 4 * obj;
  }

  /** Object `p` is the first to be handed out again of slab `b`, and nothing else moves. */
  predicate PutFront(slabs: map<nat, Slab>, slabs': map<nat, Slab>, b: nat, p: nat) {
    b in slabs && slabs[b].inuse > 0 && slabs' == slabs[b := Slab([p] + slabs[b].freelist, slabs[b].inuse - 1)]
  }

  /** The first free object of slab `b` is handed out, and nothing else moves. */
  predicate Took(slabs: map<nat, Slab>, slabs': map<nat, Slab>, b: nat, obj: nat) {
    && b in slabs && slabs[b].freelist != [] && obj == slabs[b].freelist[0]
    && slabs' == slabs[b := Slab(slabs[b].freelist[1..], slabs[b].inuse + 1)]
  }

  /** A pointer no slab accepts is no object. */
  lemma Strange(g: Geometry, slabs: map<nat, Slab>, live: map<nat, nat>, p: nat)
    requires GeometryOk(g) && Owned(g, slabs, live) && forall b :: b in slabs ==> !Matches(g, b, p)
    ensures p !in live && live - {p} == live
  {
    if p in live { ObjectsMatch(g, live[p], p); }
    NotThere(live, p);
  }

  lemma NotThere(live: map<nat, nat>, p: nat)
    ensures p !in live ==> live - {p} == live
  {
  }

  class Cache {
    const g: Geometry
    var slabs: map<nat, Slab>
    var full: seq<nat>
    var partial: seq<nat>
    var empty: seq<nat>
    var allocs: nat
    var frees: nat
    ghost var live: map<nat, nat>

    ghost predicate Valid()
      reads this
    {
      && GeometryOk(g)
      && Listed(g, slabs, full, partial, empty)
      && Apart(g, slabs) && SlabsOk(g, slabs, live) && Owned(g, slabs, live)
      && Counted(slabs, full, partial, empty, live)
      && allocs == frees + |live|
    }

    constructor (size: nat, align: nat)
      ensures Valid() && live == map[] && g == GeometryFor(size, align)
    {
      g := GeometryFor(size, align);
      slabs, full, partial, empty, allocs, frees := map[], [], [], [], 0, 0;
      live := map[];
    }

    /** Threads the free list through the objects of a new slab. */
    method BuildFreelist(base: nat) returns (freelist: seq<nat>)
      ensures freelist == Objects(base, g.objSize, g.total)
    {
      freelist := [];
      var obj := base;
      var i := 0;
      while i < g.total
        invariant i <= g.total && obj == Nth(base, g.objSize, i) && freelist == Objects(base, g.objSize, i)
      {
        freelist := [obj] + freelist;
        obj := obj + g.objSize;
        i := i + 1;
      }
    }

    /** Makes a slab of freshly mapped pages and puts it on the empty list. */
    method AddSlab(base: nat)
      requires Valid() && MayMap(g, slabs, base)
      modifies this`slabs, this`empty
      ensures Valid() && slabs.Keys == old(slabs).Keys + {base} && empty == [base] + old(empty)
    {
      var freelist := BuildFreelist(base);
      SlabAdded(g, slabs, live, base);
      EmptyListed(g, slabs, full, partial, empty, base, Slab(freelist, 0));
      slabs := slabs[base := Slab(freelist, 0)];
      empty := [base] + empty;
    }

    /** Puts the slab that has just handed out an object, now counting as `s`, on its list. */
    method RelistTaken(b: nat, s: Slab)
      requires Listed(g, slabs, full, partial, empty) && g.total >= 4
      requires b in slabs && s.inuse == slabs[b].inuse + 1 <= g.total
      requires if partial != [] then b == partial[0] else empty != [] && b == empty[0]
      modifies this`slabs, this`full, this`partial, this`empty
      ensures slabs == old(slabs)[b := s] && Listed(g, slabs, full, partial, empty)
      ensures Total(slabs, full, partial, empty) == old(Total(slabs, full, partial, empty)) + 1
    {
      assert Belongs(g, slabs, full, partial, empty, b);
      if s.inuse == 1 && First(partial) != Some(b) {
        EmptyToPartial(g, slabs, full, partial, empty, b, s);
        empty := Without(empty, b);
        partial := [b] + partial;
      } else if s.inuse == g.total {
        PartialToFull(g, slabs, full, partial, empty, b, s);
        partial := Without(partial, b);
        full := [b] + full;
      } else {
        StaysPartial(g, slabs, full, partial, empty, b, s);
      }
      slabs := slabs[b := s];
    }

    /** Puts the slab that has just taken back an object, now counting as `s`, on its list. */
    method RelistReturned(b: nat, s: Slab)
      requires Listed(g, slabs, full, partial, empty) && g.total >= 4
      requires b in slabs && s.inuse + 1 == slabs[b].inuse <= g.total
      modifies this`slabs, this`full, this`partial, this`empty
      ensures slabs == old(slabs)[b := s] && Listed(g, slabs, full, partial, empty)
      ensures Total(slabs, full, partial, empty) + 1 == old(Total(slabs, full, partial, empty))
    {
      if s.inuse == 0 {
        PartialToEmpty(g, slabs, full, partial, empty, b, s);
        partial := Without(partial, b);
        empty := [b] + empty;
      } else if s.inuse == g.total - 1 {
        FullToPartial(g, slabs, full, partial, empty, b, s);
        full := Without(full, b);
        partial := [b] + partial;
      } else {
        StaysPartial(g, slabs, full, partial, empty, b, s);
      }
      slabs := slabs[b := s];
    }

    /** Hands out the first free object of the slab at the head of the partial list, or else
        of the empty list. */
    method TakeObject() returns (obj: nat)
      requires Valid() && (partial != [] || empty != [])
      modifies this`slabs, this`full, this`partial, this`empty, this`allocs, this`live
      ensures Valid() && obj != 0 && obj !in old(live) && allocs == old(allocs) + 1
      ensures var b := if old(partial) != [] then old(partial)[0] else old(empty)[0];
              live == old(live)[obj := b] && Took(old(slabs), slabs, b, obj)
    {
      var b := if partial != [] then partial[0] else empty[0];
      HasRoom(g, slabs, full, partial, empty, live, b);
      obj := TakeFrom(b);
    }

    method TakeFrom(b: nat) returns (obj: nat)
      requires Valid() && b in slabs && slabs[b].freelist != [] && slabs[b].inuse < g.total
      requires if partial != [] then b == partial[0] else empty != [] && b == empty[0]
      modifies this`slabs, this`full, this`partial, this`empty, this`allocs, this`live
      ensures Valid() && Took(old(slabs), slabs, b, obj)
      ensures obj != 0 && obj !in old(live) && live == old(live)[obj := b] && allocs == old(allocs) + 1
    {
      var s := slabs[b];
      obj := s.freelist[0];
      TakenSlabs(g, slabs, live, b);
      ObjectsInside(g, b, obj);
      LiveGrows(live, obj, b);
      SameSlabs(slabs, b, Slab(s.freelist[1..], s.inuse + 1));
      RelistTaken(b, Slab(s.freelist[1..], s.inuse + 1));
      live := live[obj := b];
      allocs := allocs + 1;
    }

    /** Allocation. `pages` is what mapping fresh pages would give. An object handed out was
        not live, and nothing else changes hands; failure changes nothing. */
    method Alloc(pages: Option<nat>) returns (r: Option<nat>)
      requires Valid() && (pages.Some? ==> MayMap(g, slabs, pages.value))
      modifies this`slabs, this`full, this`partial, this`empty, this`allocs, this`live
      ensures Valid()
      ensures r.None? <==> old(partial == [] && empty == []) && pages.None?
      ensures r.None? ==> unchanged(this)
      ensures r.Some? ==> r.value !in old(live) && r.value in live && live == old(live)[r.value := live[r.value]]
      ensures r.Some? ==> allocs == old(allocs) + 1
      ensures r.Some? && old(partial != [] || empty != []) ==>
                var b := if old(partial) != [] then old(partial)[0] else old(empty)[0];
                live[r.value] == b && Took(old(slabs), slabs, b, r.value)
      ensures r.Some? && old(partial == [] && empty == []) ==> live[r.value] == pages.value
      ensures slabs.Keys == if old(partial == [] && empty == []) && pages.Some? then old(slabs).Keys + {pages.value} else old(slabs).Keys
    {
      if partial == [] && empty == [] {
        match pages
        case None => return None;
        case Some(base) => AddSlab(base);
      }
      var obj := TakeObject();
      r := Some(obj);
    }

    /** The slab of a list the pointer test accepts `p` for, if any. */
    method FindIn(q: seq<nat>, p: nat) returns (r: Option<nat>)
      requires g.objSize > 0
      ensures r.Some? ==> r.value in q && Matches(g, r.value, p)
      ensures r.None? ==> forall b :: b in q ==> !Matches(g, b, p)
    {
      var i := 0;
      while i < |q|
        invariant i <= |q|
        invariant forall j :: 0 <= j < i ==> !Matches(g, q[j], p)
      {
        if Matches(g, q[i], p) { return Some(q[i]); }
        i := i + 1;
      }
      r := None;
    }

    /** The slab lookup: finds the one slab the pointer test accepts `p` for. For an object of a
        slab, handed out or not, that is the slab it belongs to. */
    method Find(p: nat) returns (r: Option<nat>)
      requires Valid()
      ensures r.Some? ==> r.value in slabs && Matches(g, r.value, p)
      ensures forall b :: b in slabs && Matches(g, b, p) ==> r == Some(b)
      ensures forall b :: b in slabs && IsObject(g, b, p) ==> r == Some(b)
    {
      ListsHold(g, slabs, full, partial, empty);
      r := FindIn(full, p);
      if r.None? { r := FindIn(partial, p); }
      if r.None? { r := FindIn(empty, p); }
      forall b | b in slabs && Matches(g, b, p) ensures r == Some(b) {
        ListedSomewhere(g, slabs, full, partial, empty, live, b);
        OneOwner(g, slabs, r.value, b, p);
      }
      forall b | b in slabs && IsObject(g, b, p) ensures Matches(g, b, p) {
        ObjectsMatch(g, b, p);
      }
    }

    /** Freeing. The caller may pass a live object, or a pointer that belongs to no slab of the
        cache; the latter, and null, are refused without any change. */
    method Free(p: nat) returns (freed: bool)
      requires Valid() && (p in live || forall b :: b in slabs ==> !Matches(g, b, p))
      modifies this`slabs, this`full, this`partial, this`empty, this`frees, this`live
      ensures Valid() && slabs.Keys == old(slabs).Keys
      ensures freed == (p in old(live))
      ensures live == old(live) - {p}
      ensures if freed then frees == old(frees) + 1 && PutFront(old(slabs), slabs, old(live)[p], p) else unchanged(this)
    {
      if p == 0 {
        NullIsNotLive(g, slabs, live);
        NotThere(live, p);
        return false;
      }
      var r := Find(p);
      match r
      case None =>
        Strange(g, slabs, live, p);
        freed := false;
      case Some(b) =>
        PutBack(b, p);
        freed := true;
    }

    method PutBack(b: nat, p: nat)
      requires Valid() && p in live && live[p] == b
      modifies this`slabs, this`full, this`partial, this`empty, this`frees, this`live
      ensures Valid() && PutFront(old(slabs), slabs, b, p) && live == old(live) - {p} && frees == old(frees) + 1
    {
      LiveInUse(g, slabs, live, p);
      ReturnedSlabs(g, slabs, live, p);
      assert SlabOk(g, live, b, slabs[b]);
      var s := slabs[b];
      LiveShrinks(live, p);
      SameSlabs(slabs, b, Slab([p] + s.freelist, s.inuse - 1));
      RelistReturned(b, Slab([p] + s.freelist, s.inuse - 1));
      frees := frees + 1;
      live := live - {p};
    }

    /** Releases the first empty slab. */
    method DropEmpty()
      requires Valid() && empty != []
      modifies this`slabs, this`empty
      ensures Valid() && slabs == old(slabs) - {old(empty)[0]} && empty == old(empty)[1..]
      ensures old(empty)[0] in old(slabs) && old(slabs)[old(empty)[0]].inuse == 0
    {
      ListsHold(g, slabs, full, partial, empty);
      EmptyDropped(g, slabs, full, partial, empty, live);
      slabs := slabs - {empty[0]};
      empty := empty[1..];
    }

    /** Shrinking releases the slabs without live objects, all of them and no others. */
    method Shrink() returns (freed: nat)
      requires Valid()
      modifies this`slabs, this`empty
      ensures Valid() && empty == [] && freed == |old(empty)|
      ensures slabs == map b | b in old(slabs) && old(slabs)[b].inuse > 0 :: old(slabs)[b]
    {
      freed := 0;
      while empty != []
        invariant Valid() && freed + |empty| == |old(empty)|
        invariant slabs.Keys <= old(slabs).Keys
        invariant forall b :: b in slabs ==> slabs[b] == old(slabs)[b]
        invariant forall b :: b in old(slabs) && old(slabs)[b].inuse > 0 ==> b in slabs
        decreases |empty|
      {
        DropEmpty();
        freed := freed + 1;
      }
      ListsHold(g, slabs, full, partial, empty);
    }

    /** The statistics' count of active objects, added up over the full and partial lists, is
        the number of live objects, and so the number of allocations not freed. */
    method ActiveObjects() returns (n: nat)
      requires Valid()
      ensures n == |live| == allocs - frees
    {
      ListsHold(g, slabs, full, partial, empty);
      var i, j := 0, 0;
      n := 0;
      assert full[..0] == [] && partial[..0] == [];
      while i < |full|
        invariant i <= |full| && n == InUse(full[..i], slabs)
      {
        InUseNext(full, i, slabs);
        n := n + slabs[full[i]].inuse;
        i := i + 1;
      }
      assert full[..i] == full;
      while j < |partial|
        invariant j <= |partial| && n == InUse(full, slabs) + InUse(partial[..j], slabs)
      {
        InUseNext(partial, j, slabs);
        n := n + slabs[partial[j]].inuse;
        j := j + 1;
      }
      assert partial[..j] == partial;
      InUseNone(empty, slabs);
    }
  }
}
