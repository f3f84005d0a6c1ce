/** The intrusive circular list: every element, and the list itself, is a link with a next and
    a previous pointer, and an empty list is a link that points to itself.

    The splice leaves the pointers of its source as they are. What follows from that for the
    two places where the timer wheel splices a list into a temporary head and drains it is
    stated here; the wheel itself is modelled with a splice that empties its source. */
module IntrusiveList {
  import opened Basics

  class Link {
    var next: Link
    var prev: Link

    constructor ()
      ensures next == this && prev == this
    {
      next, prev := this, this;
    }
  }

  /** The index after `i` around a ring of `n` links. */
  function Around(i: nat, n: nat): (j: nat)
    requires i < n
    ensures j < n
  {
    if i + 1 < n then i + 1 else 0
  }

  /** A well-formed list: the links in order, the head first, with matching pointers. */
  ghost predicate Ring(q: seq<Link>)
    reads q
  {
    && q != [] && Distinct(q)
    && forall i: nat {:trigger Tied(q, i)} :: i < |q| ==> Tied(q, i)
  }

  /** The pointers between a link and the one after it match. */
  ghost predicate Tied(q: seq<Link>, i: nat)
    requires i < |q|
    reads q
  {
    q[i].next == q[Around(i, |q|)] && q[Around(i, |q|)].prev == q[i]
  }

  predicate Empty(head: Link)
    reads head
  {
    head.next == head
  }

  /** In a well-formed list the test is right. */
  lemma EmptyIsRight(q: seq<Link>)
    requires Ring(q)
    ensures Empty(q[0]) <==> |q| == 1
  {
    assert Tied(q, 0);
  }

  /** Writes the pointers for `e` to stand before `head`, whatever these name. */
  method LinkBefore(e: Link, head: Link)
    requires e != head && e != head.prev
    modifies e, head`prev, head.prev`next
    ensures head.prev == e && e.next == head && e.prev == old(head.prev) && old(head.prev).next == e
  {
    var prev := head.prev;
    head.prev := e;
    e.next := head;
    e.prev := prev;
    prev.next := e;
  }

  /** Appends an element. */
  method AddTail(e: Link, head: Link, ghost q: seq<Link>)
    requires Ring(q) && q[0] == head && e !in q
    modifies q, e
    ensures Ring(q + [e])
  {
    assert Tied(q, |q| - 1);
    LinkBefore(e, head);
    ghost var r := q + [e];
    forall i: nat | i < |r| ensures Tied(r, i) {
      if i < |q| - 1 { assert old(Tied(q, i)); }
    }
  }

  /** Unlinks an element and makes it point to itself. */
  method DelInit(e: Link)
    modifies e, e.prev`next, e.next`prev
    ensures e.next == e && e.prev == e
    ensures old(e.prev) != e ==> old(e.prev).next == old(e.next)
    ensures old(e.next) != e ==> old(e.next).prev == old(e.prev)
  {
    var prev, next := e.prev, e.next;
    next.prev := prev;
    prev.next := next;
    e.next := e;
    e.prev := e;
  }

  /** Moves the elements of a list behind an empty head, by four writes to the ends; the pointers
      of the source head are not written. */
  method Splice(list: Link, head: Link)
    requires head.next == head == head.prev && head != list.next && head != list.prev
    modifies head, list.next`prev, list.prev`next
    ensures old(list.next) == list ==> head.next == head == head.prev && list.next == list && list.prev == old(list.prev)
    ensures old(list.next) != list ==>
              && head.next == old(list.next) && head.prev == old(list.prev)
              && old(list.next).prev == head && old(list.prev).next == head
              && (list != old(list.prev) ==> list.next == old(list.next)) && list.prev == old(list.prev)
  {
    if !Empty(list) {
      var first, last := list.next, list.prev;
      var next := head.next;
      first.prev := head;
      head.next := first;
      last.next := next;
      next.prev := last;
    }
  }

  // ---------------------------------------------------------------------------
  // Splicing a well-formed list and draining it
  // ---------------------------------------------------------------------------

  /** Splicing a well-formed list gives a well-formed list with the same elements. */
  method SpliceRing(list: Link, head: Link, ghost q: seq<Link>)
    requires Ring(q) && q[0] == list && Ring([head]) && head !in q
    modifies q, head
    ensures Ring([head] + q[1..]) && list.next == old(list.next) && list.prev == old(list.prev)
  {
    assert Tied([head], 0) && Tied(q, 0) && Tied(q, |q| - 1);
    Splice(list, head);
    ghost var r := [head] + q[1..];
    forall i: nat | i < |r| ensures Tied(r, i) {
      if 0 < i < |q| - 1 { assert old(Tied(q, i)); }
    }
  }

  /** Takes the first element off a well-formed list. */
  method TakeFirst(head: Link, ghost q: seq<Link>) returns (e: Link)
    requires Ring(q) && q[0] == head && |q| > 1
    modifies q
    ensures e == q[1] && e.next == e == e.prev && Ring([head] + q[2..])
  {
    assert Tied(q, 0) && Tied(q, 1);
    e := head.next;
    DelInit(e);
    ghost var r := [head] + q[2..];
    forall i: nat | i < |r| ensures Tied(r, i) {
      if i > 0 { assert old(Tied(q, i + 1)); }
    }
  }

  /** Drains a well-formed list from the front, as the cascade and the hand-off do. */
  method Drain(head: Link, ghost q: seq<Link>) returns (out: seq<Link>)
    requires Ring(q) && q[0] == head
    modifies q
    ensures out == q[1..] && head.next == head == head.prev
    ensures forall x :: x in out ==> x.next == x == x.prev
  {
    out := [];
    ghost var r := q;
    EmptyIsRight(r);
    while !Empty(head)
      invariant Ring(r) && r[0] == head && (Empty(head) <==> |r| == 1)
      invariant |out| + |r| == |q| && out == q[1..|out| + 1] && r[1..] == q[|out| + 1..]
      invariant forall x :: x in out ==> x.next == x == x.prev
      decreases |r|
    {
      var e := TakeFirst(head, r);
      Drained(q, out, r);
      assert forall x :: x in out ==> x !in r by { Apart(q, out, r); }
      out := out + [e];
      r := [head] + r[2..];
      EmptyIsRight(r);
    }
    assert Tied(r, 0);
  }

  lemma Drained(q: seq<Link>, out: seq<Link>, r: seq<Link>)
    requires |r| > 1 && |out| + |r| == |q| && out == q[1..|out| + 1] && r[1..] == q[|out| + 1..]
    ensures out + [r[1]] == q[1..|out| + 2] && ([r[0]] + r[2..])[1..] == q[|out| + 2..]
  {
    assert r[1] == r[1..][0] == q[|out| + 1];
    assert ([r[0]] + r[2..])[1..] == r[1..][1..];
  }

  lemma Apart(q: seq<Link>, out: seq<Link>, r: seq<Link>)
    requires Distinct(q) && q != [] && r != [] && r[0] == q[0] && |out| + |r| == |q|
    requires out == q[1..|out| + 1] && r[1..] == q[|out| + 1..]
    ensures forall x :: x in out ==> x !in r
  {
    forall i, j | 0 <= i < |out| && 0 <= j < |r| ensures out[i] != r[j] {
      assert out[i] == q[i + 1] && (j > 0 ==> r[j] == r[1..][j - 1] == q[|out| + j]);
    }
  }

  /** The source list spliced into a temporary head and drained. Every element comes out once and
      points to itself, but the source head still names its old first and last element: it is
      empty afterwards if and only if it was empty before. */
  method HandOff(source: Link, ghost q: seq<Link>) returns (out: seq<Link>)
    requires Ring(q) && q[0] == source
    modifies q
    ensures out == q[1..] && forall x :: x in out ==> x.next == x == x.prev
    ensures source.next == old(source.next) && source.prev == old(source.prev)
    ensures source.next == source <==> |q| == 1
    ensures |q| > 1 ==> source.next == q[1] && source.prev == q[|q| - 1]
  {
    assert Tied(q, 0) && Tied(q, |q| - 1);
    var tmp := new Link();
    assert Tied([tmp], 0);
    SpliceRing(source, tmp, q);
    out := Drain(tmp, [tmp] + q[1..]);
  }

  // ---------------------------------------------------------------------------
  // The next hand-off of the same list
  // ---------------------------------------------------------------------------

  /** One one-shot timer expired, and nothing else by the next call: that call hands it over again. */
  method HandedOverTwice(expired: Link, timer: Link) returns (first: seq<Link>, second: seq<Link>)
    requires Ring([expired, timer])
    modifies expired, timer
    ensures first == [timer] && second == [timer]
  {
    ghost var q := [expired, timer];
    assert q[0] == expired && q[1] == timer;
    first := HandOff(expired, q);
    var tmp := new Link();
    Splice(expired, tmp);
    ghost var r := [tmp, timer];
    assert Tied(r, 0) && Tied(r, 1);
    second := Drain(tmp, r);
  }

  /** Two or more one-shot timers expired, and nothing else by the next call: that call hands the first
      of them over in every round of its loop, which never ends. */
  method HandedOverForever(expired: Link, ghost q: seq<Link>, rounds: nat) returns (out: seq<Link>, tmp: Link)
    requires Ring(q) && q[0] == expired && |q| > 2
    modifies q
    ensures out == seq(rounds, _ => q[1]) && tmp.next != tmp
  {
    var first := HandOff(expired, q);
    assert first[0] == q[1] && first[|first| - 1] == q[|q| - 1];
    tmp := new Link();
    Splice(expired, tmp);
    out := [];
    while |out| < rounds
      invariant |out| <= rounds && out == seq(|out|, _ => q[1])
      invariant tmp.next == q[1] && q[1].next == q[1] && (q[1].prev == tmp || q[1].prev == q[1])
    {
      var e := tmp.next;
      DelInit(e);
      out := out + [e];
    }
  }

  // ---------------------------------------------------------------------------
  // The cascade
  // ---------------------------------------------------------------------------

  predicate Disjoint(a: seq<Link>, b: seq<Link>) { forall x :: x in a ==> x !in b }

  /** The list with head `h` is well-formed and made of links of `region`. */
  ghost predicate ListOf(h: Link, q: seq<Link>, region: set<Link>)
    reads region
  {
    (forall x :: x in q ==> x in region) && Ring(q) && q[0] == h
  }

  /** The slots of the wheel, by their heads: well-formed lists that share no link. */
  ghost predicate Lists(rings: map<Link, seq<Link>>, region: set<Link>)
    reads region
  {
    && (forall h {:trigger ListOf(h, rings[h], region)} :: h in rings ==> ListOf(h, rings[h], region))
    && (forall h, k {:trigger Disjoint(rings[h], rings[k])} :: h in rings && k in rings && h != k ==> Disjoint(rings[h], rings[k]))
  }

  /** The lists with `es[i]` appended to that of `targets[i]`, in order, for the first `n`. */
  ghost function Spread(rings: map<Link, seq<Link>>, targets: seq<Link>, es: seq<Link>, n: nat): map<Link, seq<Link>>
    requires n <= |targets| == |es| && forall t :: t in targets ==> t in rings
    ensures Spread(rings, targets, es, n).Keys == rings.Keys
  {
    if n == 0 then rings
    else
      var r := Spread(rings, targets, es, n - 1);
      r[targets[n - 1] := r[targets[n - 1]] + [es[n - 1]]]
  }

  /** Appends a link to one of several lists. */
  method AddTo(e: Link, target: Link, ghost rings: map<Link, seq<Link>>, ghost region: set<Link>)
    requires Lists(rings, region) && target in rings && e !in region
    modifies region, e
    ensures Lists(rings[target := rings[target] + [e]], region + {e})
    ensures forall x :: x in region && x !in rings[target] ==> x.next == old(x.next) && x.prev == old(x.prev)
  {
    assert ListOf(target, rings[target], region);
    AddTail(e, target, rings[target]);
    ghost var after := rings[target := rings[target] + [e]];
    forall h | h in after ensures ListOf(h, after[h], region + {e}) {
      assert old(ListOf(h, rings[h], region));
      if h != target {
        assert Disjoint(rings[h], rings[target]);
        StillRing(rings[h]);
      }
    }
    forall h, k | h in after && k in after && h != k ensures Disjoint(after[h], after[k]) {
      assert Disjoint(rings[h], rings[k]);
      assert old(ListOf(h, rings[h], region)) && old(ListOf(k, rings[k], region));
    }
  }

  /** A list none of whose links is written stays as it is. */
  twostate lemma StillRing(q: seq<Link>)
    requires old(Ring(q)) && forall x :: x in q ==> x.next == old(x.next) && x.prev == old(x.prev)
    ensures Ring(q)
  {
    forall i: nat | i < |q| ensures Tied(q, i) {
      assert old(Tied(q, i));
    }
  }

  /** One round of the cascade: the first timer of the temporary list goes to its new slot. */
  method MoveFirst(tmp: Link, ghost r: seq<Link>, target: Link, ghost rings: map<Link, seq<Link>>, ghost region: set<Link>)
    requires Ring(r) && r[0] == tmp && |r| > 1 && Lists(rings, region) && target in rings
    requires forall x :: x in r ==> x !in region
    modifies r, region
    ensures Ring([tmp] + r[2..]) && Lists(rings[target := rings[target] + [r[1]]], region + {r[1]})
  {
    var e := TakeFirst(tmp, r);
    ghost var rest := [tmp] + r[2..];
    assert forall i :: 0 <= i < |rest| ==> rest[i] == if i == 0 then r[0] else r[i + 1];
    AddTo(e, target, rings, region);
  }

  /** All timers of the temporary list, to the slots given for them. */
  method Redistribute(tmp: Link, ghost es: seq<Link>, targets: seq<Link>, ghost rings: map<Link, seq<Link>>, ghost region: set<Link>)
    requires Ring([tmp] + es) && |targets| == |es| && Lists(rings, region) && forall t :: t in targets ==> t in rings
    requires forall x :: x in [tmp] + es ==> x !in region
    modifies tmp, es, region
    ensures Lists(Spread(rings, targets, es, |es|), Grown(region, es, |es|))
  {
    ghost var r := [tmp] + es;
    var n := 0;
    EmptyIsRight(r);
    while !Empty(tmp)
      invariant n <= |es| && r == [tmp] + es[n..] && Ring(r) && (Empty(tmp) <==> |r| == 1)
      invariant Lists(Spread(rings, targets, es, n), Grown(region, es, n))
      decreases |es| - n
    {
      GrownApart(tmp, es, n, region);
      MoveFirst(tmp, r, targets[n], Spread(rings, targets, es, n), Grown(region, es, n));
      n := n + 1;
      MovedOn(tmp, es, r, n);
      r := [tmp] + es[n..];
      EmptyIsRight(r);
    }
  }

  ghost function Grown(region: set<Link>, es: seq<Link>, n: nat): set<Link>
    requires n <= |es|
  {
    if n == 0 then region else Grown(region, es, n - 1) + {es[n - 1]}
  }

  lemma {:induction false} GrownIs(region: set<Link>, es: seq<Link>, n: nat, x: Link)
    requires n <= |es|
    ensures x in Grown(region, es, n) <==> x in region || x in es[..n]
  {
    if n > 0 {
      GrownIs(region, es, n - 1, x);
      assert es[..n] == es[..n - 1] + [es[n - 1]];
    }
  }

  /** What is still to be moved is not among the lists yet. */
  lemma GrownApart(tmp: Link, es: seq<Link>, n: nat, region: set<Link>)
    requires n <= |es| && Distinct([tmp] + es) && forall x :: x in [tmp] + es ==> x !in region
    ensures forall x :: x in [tmp] + es[n..] ==> x !in Grown(region, es, n)
    ensures forall x :: x in Grown(region, es, n) ==> x in region || x in es
  {
    var q := [tmp] + es;
    assert forall i :: 0 <= i < |es| ==> q[i + 1] == es[i];
    forall x: Link ensures x in Grown(region, es, n) <==> x in region || x in es[..n] { GrownIs(region, es, n, x); }
    forall x | x in [tmp] + es[n..] ensures x !in Grown(region, es, n) {
      assert x in q;
      if x == tmp { assert q[0] == tmp; }
    }
  }

  lemma MovedOn(tmp: Link, es: seq<Link>, r: seq<Link>, n: nat)
    requires 0 < n <= |es| && r == [tmp] + es[n - 1..]
    ensures r[1] == es[n - 1] && [tmp] + r[2..] == [tmp] + es[n..]
  {
  }

  /** The cascade as written: the slot is spliced into a temporary head, and each timer taken
      from there goes to the list of its new slot. All lists are as they should be, but the head
      of the old slot still names its first and last timer. */
  method Cascade(slot: Link, ghost q: seq<Link>, targets: seq<Link>, ghost rings: map<Link, seq<Link>>, ghost region: set<Link>)
    returns (ghost region': set<Link>)
    requires Ring(q) && q[0] == slot && |targets| == |q| - 1
    requires Lists(rings, region) && (forall t :: t in targets ==> t in rings) && forall x :: x in q ==> x !in region
    modifies q, region
    ensures Lists(Spread(rings, targets, q[1..], |q| - 1), region')
    ensures forall x :: x in region' <==> x in region || x in q[1..]
    ensures slot.next == old(slot.next) && slot.prev == old(slot.prev)
  {
    var tmp := new Link();
    assert Tied([tmp], 0);
    SpliceRing(slot, tmp, q);
    ghost var es := q[1..];
    assert slot !in es && forall x :: x in es ==> x in q;
    Redistribute(tmp, es, targets, rings, region);
    region' := Grown(region, es, |es|);
    forall x: Link ensures x in region' <==> x in region || x in es { GrownIs(region, es, |es|, x); }
  }

  lemma {:induction false} SpreadHolds(rings: map<Link, seq<Link>>, targets: seq<Link>, es: seq<Link>, n: nat, i: nat)
    requires i < n <= |targets| == |es| && forall t :: t in targets ==> t in rings
    ensures es[i] in Spread(rings, targets, es, n)[targets[i]]
  {
    if i < n - 1 { SpreadHolds(rings, targets, es, n - 1, i); }
  }

  /** A timer started into that slot next: the lists stay well-formed if and only if there was
      nothing to cascade. */
  method CascadeThenAdd(slot: Link, ghost q: seq<Link>, targets: seq<Link>, ghost rings: map<Link, seq<Link>>, ghost region: set<Link>, e: Link)
    requires Ring(q) && q[0] == slot && |targets| == |q| - 1 && e !in q && e !in region
    requires Lists(rings, region) && (forall t :: t in targets ==> t in rings) && forall x :: x in q ==> x !in region
    modifies q, region, e
    ensures var after := Spread(rings, targets, q[1..], |q| - 1);
            (forall h :: h in after ==> Ring(after[h])) <==> |q| == 1
  {
    assert Tied(q, |q| - 1);
    ghost var region' := Cascade(slot, q, targets, rings, region);
    ghost var after, n := Spread(rings, targets, q[1..], |q| - 1), |q| - 1;
    if n > 0 { Standing(after, region', targets[n - 1], e); }
    LinkBefore(e, slot);
    if n > 0 {
      SpreadHolds(rings, targets, q[1..], n, n - 1);
      Escapes(after[targets[n - 1]], q[n], e);
    } else {
      AllRings(after, region');
    }
  }

  /** The next cascade of that slot: the same, as soon as the slot is spliced. */
  method CascadeThenSplice(slot: Link, ghost q: seq<Link>, targets: seq<Link>, ghost rings: map<Link, seq<Link>>, ghost region: set<Link>)
    requires Ring(q) && q[0] == slot && |targets| == |q| - 1
    requires Lists(rings, region) && (forall t :: t in targets ==> t in rings) && forall x :: x in q ==> x !in region
    modifies q, region
    ensures var after := Spread(rings, targets, q[1..], |q| - 1);
            (forall h :: h in after ==> Ring(after[h])) <==> |q| == 1
  {
    assert Tied(q, 0) && Tied(q, |q| - 1);
    ghost var region' := Cascade(slot, q, targets, rings, region);
    ghost var after, n := Spread(rings, targets, q[1..], |q| - 1), |q| - 1;
    var tmp := new Link();
    if n > 0 { Standing(after, region', targets[n - 1], tmp); }
    Splice(slot, tmp);
    if n > 0 {
      SpreadHolds(rings, targets, q[1..], n, n - 1);
      Escapes(after[targets[n - 1]], q[n], tmp);
    } else {
      AllRings(after, region');
    }
  }

  lemma AllRings(rings: map<Link, seq<Link>>, region: set<Link>)
    requires Lists(rings, region)
    ensures forall h :: h in rings ==> Ring(rings[h])
  {
    forall h | h in rings ensures Ring(rings[h]) { assert ListOf(h, rings[h], region); }
  }

  lemma Standing(rings: map<Link, seq<Link>>, region: set<Link>, t: Link, e: Link)
    requires Lists(rings, region) && t in rings && e !in region
    ensures e !in rings[t]
  {
    assert ListOf(t, rings[t], region);
  }

  /** A list with a link that points outside is not well-formed. */
  lemma Escapes(q: seq<Link>, x: Link, e: Link)
    requires x in q && x.next == e && e !in q
    ensures !Ring(q)
  {
    var i :| 0 <= i < |q| && q[i] == x;
    assert !Tied(q, i);
  }

  // ---------------------------------------------------------------------------
  // With a splice that resets its source
  // ---------------------------------------------------------------------------

  /** What the callers rely on: with the source head reset after the splice, the elements come
      out once and the source is empty. */
  method HandOffReset(source: Link, ghost q: seq<Link>) returns (out: seq<Link>)
    requires Ring(q) && q[0] == source
    modifies q
    ensures out == q[1..] && Ring([source]) && forall x :: x in out ==> x.next == x == x.prev
  {
    out := HandOff(source, q);
    source.next := source;
    source.prev := source;
    assert Tied([source], 0);
  }
}
