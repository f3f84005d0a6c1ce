/** The bounded multi-producer single-consumer channel (without the overflow flag).
    Senders reserve a slot by moving tail, write it, and then commit it; the receiver
    waits for the commit, reads, clears the commit flag, and publishes head afterwards.

    One atomic access or one copy of an item is one step, and `Exec` runs an arbitrary
    interleaving of any number of senders and the one receiver. Positions are unbounded. */
module MpscChannel {
  import opened RingIndex

  type Item = nat

  /** Where a sender stands; `t` and `h` are its local copies of tail and head. */
  datatype Sender =
    | Idle
    | Begin(item: Item)
    | HasTail(item: Item, t: nat)
    | Ready(item: Item, t: nat, h: nat)
    | Reserved(item: Item, t: nat)
    | Wrote(item: Item, t: nat)

  /** Where the receiver stands: `h` is its copy of head, `n` the number of items it will
      take, `i` the number it has taken. A single receive takes one item and never gives up. */
  datatype Receiver =
    | Resting
    | HasHead(h: nat, max: nat, patient: bool)
    | Waiting(h: nat, n: nat, i: nat, patient: bool)
    | Checking(h: nat, n: nat, i: nat)
    | Reading(h: nat, n: nat, i: nat, patient: bool)
    | Clearing(h: nat, n: nat, i: nat, patient: bool)
    | Publishing(h: nat, i: nat)

  /** `reserved[p]` and `owners[p]` are the item and the sender of the p-th reservation,
      `received` the items the receiver has copied out; all three are history. */
  datatype State = State(
    buffer: seq<Item>,
    committed: seq<bool>,
    head: nat,
    tail: nat,
    senders: seq<Sender>,
    receiver: Receiver,
    reserved: seq<Item>,
    owners: seq<nat>,
    received: seq<Item>)
  {
    predicate Shape() { |buffer| > 0 && |committed| == |buffer| }

    function Capacity(): nat { |buffer| }

    function At(p: nat): nat
      requires Shape()
    {
      Slot(p, |buffer|)
    }

    function Goto(j: nat, pc: Sender): State
      requires j < |senders|
    {
      this.(senders := senders[j := pc])
    }
  }

  /** `weak` lets a compare-and-swap fail although the values agree; `giveUp` ends the
      spinning of a batch receive. */
  datatype Action =
    | CallSend(sender: nat, item: Item)
    | SenderStep(sender: nat, weak: bool)
    | CallRecv(max: nat, patient: bool)
    | ReceiverStep(giveUp: bool)

  function Init(capacity: nat, senders: nat, junk: Item): State
    requires capacity > 0
  {
    State(seq(capacity, _ => junk), seq(capacity, _ => false), 0, 0, seq(senders, _ => Idle), Resting, [], [], [])
  }

  /** The full test. The difference is unsigned, so a head past the copy of tail counts as full. */
  predicate LooksFull(t: nat, h: nat, capacity: nat) { h > t || t - h >= capacity }

  function SenderNext(s: State, j: nat, weak: bool): State
    requires s.Shape() && j < |s.senders|
  {
    match s.senders[j]
    case Idle => s
    case Begin(item) => s.Goto(j, HasTail(item, s.tail))
    case HasTail(item, t) =>
      if LooksFull(t, s.head, s.Capacity()) then s.Goto(j, Idle) else s.Goto(j, Ready(item, t, s.head))
    case Ready(item, t, _) =>
      if s.tail == t && !weak
      then s.Goto(j, Reserved(item, t)).(tail := t + 1, reserved := s.reserved + [item], owners := s.owners + [j])
      else s.Goto(j, Begin(item))
    case Reserved(item, t) => s.Goto(j, Wrote(item, t)).(buffer := s.buffer[s.At(t) := item])
    case Wrote(_, t) => s.Goto(j, Idle).(committed := s.committed[s.At(t) := true])
  }

  /** The next round of the receive loop, or its end. */
  function NextRound(h: nat, n: nat, i: nat, patient: bool): Receiver {
    if i < n then Waiting(h, n, i, patient) else Publishing(h, i)
  }

  function ReceiverNext(s: State, giveUp: bool): State
    requires s.Shape()
  {
    match s.receiver
    case Resting => s
    case HasHead(h, max, patient) =>
      if h >= s.tail then s.(receiver := Resting)
      else s.(receiver := NextRound(h, if s.tail - h < max then s.tail - h else max, 0, patient))
    case Waiting(h, n, i, patient) =>
      if s.committed[s.At(h + i)]
      then s.(receiver := if patient then Reading(h, n, i, true) else Checking(h, n, i))
      else if giveUp && !patient then s.(receiver := Checking(h, n, i))
      else s
    case Checking(h, n, i) =>
      if s.committed[s.At(h + i)] then s.(receiver := Reading(h, n, i, false)) else s.(receiver := Publishing(h, i))
    case Reading(h, n, i, patient) =>
      s.(receiver := Clearing(h, n, i, patient), received := s.received + [s.buffer[s.At(h + i)]])
    case Clearing(h, n, i, patient) =>
      s.(receiver := NextRound(h, n, i + 1, patient), committed := s.committed[s.At(h + i) := false])
    case Publishing(h, i) => s.(receiver := Resting, head := if i > 0 then h + i else s.head)
  }

  function Apply(s: State, a: Action): State
    requires s.Shape()
    ensures Apply(s, a).Shape()
  {
    match a
    case CallSend(j, item) =>
      if j < |s.senders| && s.senders[j].Idle? then s.Goto(j, Begin(item)) else s
    case SenderStep(j, weak) => if j < |s.senders| then SenderNext(s, j, weak) else s
    case CallRecv(max, patient) =>
      if s.receiver.Resting? && max > 0 && (patient ==> max == 1)
      then s.(receiver := HasHead(s.head, max, patient))
      else s
    case ReceiverStep(giveUp) => ReceiverNext(s, giveUp)
  }

  function Exec(s: State, actions: seq<Action>): State
    requires s.Shape()
    ensures Exec(s, actions).Shape()
    decreases |actions|
  {
    if actions == [] then s else Exec(Apply(s, actions[0]), actions[1..])
  }

  // ---------------------------------------------------------------------------
  // Invariant
  // ---------------------------------------------------------------------------

  /** Positions below this one are cleared, whether or not head says so yet. */
  function Cleared(s: State): nat {
    match s.receiver
    case Waiting(h, _, i, _) => h + i
    case Checking(h, _, i) => h + i
    case Reading(h, _, i, _) => h + i
    case Clearing(h, _, i, _) => h + i
    case Publishing(h, i) => h + i
    case _ => s.head
  }

  function ReadCount(s: State): nat {
    if s.receiver.Clearing? then Cleared(s) + 1 else Cleared(s)
  }

  /** Position `p` is reserved and not committed yet. */
  predicate Pending(s: State, p: nat)
    requires p < |s.owners|
  {
    var j := s.owners[p];
    j < |s.senders| && (s.senders[j].Reserved? || s.senders[j].Wrote?) && s.senders[j].t == p
  }

  predicate SenderOk(s: State, j: nat)
    requires s.Shape() && j < |s.senders|
  {
    match s.senders[j]
    case HasTail(_, t) => t <= s.tail
    case Ready(_, t, h) => h <= s.head && h <= t <= s.tail && t - h < s.Capacity()
    case Reserved(item, t) => Holds(s, j, item, t)
    case Wrote(item, t) => Holds(s, j, item, t) && s.buffer[s.At(t)] == item
    case _ => true
  }

  predicate Holds(s: State, j: nat, item: Item, t: nat) {
    Cleared(s) <= t < s.tail && t < |s.owners| && s.owners[t] == j && t < |s.reserved| && s.reserved[t] == item
  }

  predicate ReceiverOk(s: State)
    requires s.Shape()
  {
    match s.receiver
    case Resting => true
    case HasHead(h, _, _) => h == s.head
    case Waiting(h, n, i, _) => h == s.head && h + n <= s.tail && i < n
    case Checking(h, n, i) => h == s.head && h + n <= s.tail && i < n
    case Reading(h, n, i, _) => h == s.head && h + n <= s.tail && i < n && s.committed[s.At(h + i)]
    case Clearing(h, n, i, _) => h == s.head && h + n <= s.tail && i < n && s.committed[s.At(h + i)]
    case Publishing(h, i) => h == s.head && h + i <= s.tail
  }

  /** Between what is cleared and tail, every position is pending or holds its committed item;
      the rest of the window is free. */
  ghost predicate SlotsOk(s: State)
    requires s.Shape() && |s.reserved| == |s.owners| == s.tail
  {
    forall p {:trigger s.At(p)} :: s.head <= p < s.head + s.Capacity() ==> SlotOk(s, p)
  }

  predicate SlotOk(s: State, p: nat)
    requires s.Shape() && |s.reserved| == |s.owners| == s.tail
  {
    if Cleared(s) <= p < s.tail && !Pending(s, p)
    then s.committed[s.At(p)] && s.buffer[s.At(p)] == s.reserved[p]
    else !s.committed[s.At(p)]
  }

  ghost predicate Inv(s: State) {
    && s.Shape()
    && |s.reserved| == |s.owners| == s.tail
    && s.head <= Cleared(s) <= s.tail <= s.head + s.Capacity()
    && (forall j :: 0 <= j < |s.senders| ==> SenderOk(s, j))
    && ReceiverOk(s)
    && SlotsOk(s)
    && ReadCount(s) <= s.tail && s.received == s.reserved[..ReadCount(s)]
  }

  lemma InitInv(capacity: nat, senders: nat, junk: Item)
    requires capacity > 0
    ensures Inv(Init(capacity, senders, junk))
  {
    var s := Init(capacity, senders, junk);
    assert Cleared(s) == ReadCount(s) == 0;
    forall p | s.head <= p < s.head + s.Capacity() ensures SlotOk(s, p) {}
  }

  /** Distinct positions of the window lie in distinct slots. */
  lemma WindowDistinct(s: State, p: nat, q: nat)
    requires s.Shape() && s.head <= p < s.head + s.Capacity() && s.head <= q < s.head + s.Capacity() && p != q
    ensures s.At(p) != s.At(q)
  {
    if p < q { SlotsDistinct(p, q, s.Capacity()); } else { SlotsDistinct(q, p, s.Capacity()); }
  }

  // ---------------------------------------------------------------------------
  // Every step keeps the invariant
  // ---------------------------------------------------------------------------

  /** A sender moves between places where it holds no reservation. */
  lemma QuietSenderKeepsInv(s: State, j: nat, pc: Sender)
    requires Inv(s) && j < |s.senders|
    requires !s.senders[j].Reserved? && !s.senders[j].Wrote? && !pc.Reserved? && !pc.Wrote?
    requires SenderOk(s.Goto(j, pc), j)
    ensures Inv(s.Goto(j, pc))
  {
    var s' := s.Goto(j, pc);
    forall p: nat | p < s.tail ensures Pending(s', p) == Pending(s, p) {}
    forall p | s'.head <= p < s'.head + s'.Capacity() ensures SlotOk(s', p) {
      assert s.At(p) == s'.At(p);
    }
    forall i | 0 <= i < |s'.senders| ensures SenderOk(s', i) {
      if i != j { assert SenderOk(s, i); }
    }
  }

  lemma ReserveKeepsInv(s: State, j: nat, weak: bool)
    requires Inv(s) && j < |s.senders| && s.senders[j].Ready? && s.tail == s.senders[j].t && !weak
    ensures Inv(SenderNext(s, j, weak))
  {
    var s' := SenderNext(s, j, weak);
    assert SenderOk(s, j);
    forall p | s'.head <= p < s'.head + s'.Capacity() ensures SlotOk(s', p) {
      ReserveKeepsSlot(s, j, weak, p);
    }
    forall i | 0 <= i < |s'.senders| ensures SenderOk(s', i) {
      assert SenderOk(s, i);
    }
  }

  lemma ReserveKeepsSlot(s: State, j: nat, weak: bool, p: nat)
    requires Inv(s) && j < |s.senders| && s.senders[j].Ready? && s.tail == s.senders[j].t && !weak
    requires s.head <= p < s.head + s.Capacity()
    ensures SlotOk(SenderNext(s, j, weak), p)
  {
    var s' := SenderNext(s, j, weak);
    assert SlotOk(s, p) by { assert s.At(p) < s.Capacity(); }
    if p < s.tail { assert Pending(s', p) == Pending(s, p); }
  }

  lemma WriteKeepsInv(s: State, j: nat, weak: bool)
    requires Inv(s) && j < |s.senders| && s.senders[j].Reserved?
    ensures Inv(SenderNext(s, j, weak))
  {
    var s', t := SenderNext(s, j, weak), s.senders[j].t;
    assert SenderOk(s, j);
    forall p: nat | p < s.tail ensures Pending(s', p) == Pending(s, p) {}
    forall p | s'.head <= p < s'.head + s'.Capacity() ensures SlotOk(s', p) {
      assert s.At(p) == s'.At(p);
      if p != t { WindowDistinct(s, p, t); } else { assert Pending(s, p); }
    }
    forall i | 0 <= i < |s'.senders| ensures SenderOk(s', i) {
      WriteKeepsSender(s, j, weak, i);
    }
  }

  lemma WriteKeepsSender(s: State, j: nat, weak: bool, i: nat)
    requires Inv(s) && j < |s.senders| && s.senders[j].Reserved? && i < |s.senders|
    ensures SenderOk(SenderNext(s, j, weak), i)
  {
    assert SenderOk(s, j) && SenderOk(s, i);
    if i != j && s.senders[i].Wrote? { WindowDistinct(s, s.senders[i].t, s.senders[j].t); }
  }

  lemma CommitKeepsInv(s: State, j: nat, weak: bool)
    requires Inv(s) && j < |s.senders| && s.senders[j].Wrote?
    ensures Inv(SenderNext(s, j, weak))
  {
    var s', t := SenderNext(s, j, weak), s.senders[j].t;
    assert SenderOk(s, j);
    forall p | s'.head <= p < s'.head + s'.Capacity() ensures SlotOk(s', p) {
      CommitKeepsSlot(s, j, weak, p);
    }
    forall i | 0 <= i < |s'.senders| ensures SenderOk(s', i) {
      assert SenderOk(s, i);
    }
  }

  lemma CommitKeepsSlot(s: State, j: nat, weak: bool, p: nat)
    requires Inv(s) && j < |s.senders| && s.senders[j].Wrote? && s.head <= p < s.head + s.Capacity()
    ensures SlotOk(SenderNext(s, j, weak), p)
  {
    var s', t := SenderNext(s, j, weak), s.senders[j].t;
    assert SenderOk(s, j);
    assert SlotOk(s, p) by { assert s.At(p) < s.Capacity(); }
    if p != t {
      WindowDistinct(s, p, t);
      if p < s.tail { assert Pending(s', p) == Pending(s, p); }
    }
  }

  lemma SenderKeepsInv(s: State, j: nat, weak: bool)
    requires Inv(s) && j < |s.senders|
    ensures Inv(SenderNext(s, j, weak))
  {
    assert SenderOk(s, j);
    match s.senders[j]
    case Idle =>
    case Begin(item) => QuietSenderKeepsInv(s, j, HasTail(item, s.tail));
    case HasTail(item, t) =>
      QuietSenderKeepsInv(s, j, if LooksFull(t, s.head, s.Capacity()) then Idle else Ready(item, t, s.head));
    case Ready(item, t, _) =>
      if s.tail == t && !weak { ReserveKeepsInv(s, j, weak); } else { QuietSenderKeepsInv(s, j, Begin(item)); }
    case Reserved(_, _) => WriteKeepsInv(s, j, weak);
    case Wrote(_, _) => CommitKeepsInv(s, j, weak);
  }

  /** The receiver moves without touching the ring. */
  lemma QuietReceiverKeepsInv(s: State, r: Receiver, received: seq<Item>)
    requires Inv(s)
    requires var s' := s.(receiver := r, received := received);
             Cleared(s') == Cleared(s) && ReceiverOk(s') && ReadCount(s') <= s.tail && received == s.reserved[..ReadCount(s')]
    ensures Inv(s.(receiver := r, received := received))
  {
    var s' := s.(receiver := r, received := received);
    forall p: nat | p < s.tail ensures Pending(s', p) == Pending(s, p) {}
    forall p | s'.head <= p < s'.head + s'.Capacity() ensures SlotOk(s', p) {
      assert s.At(p) == s'.At(p);
    }
    forall i | 0 <= i < |s'.senders| ensures SenderOk(s', i) {
      assert SenderOk(s, i);
    }
  }

  /** What the receiver copies out is the item reserved at its position. */
  lemma ReadKeepsInv(s: State, giveUp: bool)
    requires Inv(s) && s.receiver.Reading?
    ensures Inv(ReceiverNext(s, giveUp))
  {
    var c := Cleared(s);
    assert SlotOk(s, c) by { assert s.At(c) < s.Capacity(); }
    assert s.reserved[..c + 1] == s.reserved[..c] + [s.reserved[c]];
    var s' := ReceiverNext(s, giveUp);
    QuietReceiverKeepsInv(s, s'.receiver, s'.received);
  }

  lemma ClearKeepsInv(s: State, giveUp: bool)
    requires Inv(s) && s.receiver.Clearing?
    ensures Inv(ReceiverNext(s, giveUp))
  {
    var s', c := ReceiverNext(s, giveUp), Cleared(s);
    assert !Pending(s, c) by { assert SlotOk(s, c) by { assert s.At(c) < s.Capacity(); } }
    forall p: nat | p < s.tail ensures Pending(s', p) == Pending(s, p) {}
    forall p | s'.head <= p < s'.head + s'.Capacity() ensures SlotOk(s', p) {
      assert s.At(p) == s'.At(p);
      if p != c { WindowDistinct(s, p, c); }
    }
    forall i | 0 <= i < |s'.senders| ensures SenderOk(s', i) {
      assert SenderOk(s, i);
      if s.senders[i].Reserved? || s.senders[i].Wrote? { assert Pending(s, s.senders[i].t); }
    }
  }

  /** Publishing head moves the window; the slots that leave it behind come back as free ones. */
  lemma PublishKeepsInv(s: State, giveUp: bool)
    requires Inv(s) && s.receiver.Publishing?
    ensures Inv(ReceiverNext(s, giveUp))
  {
    var s' := ReceiverNext(s, giveUp);
    forall p: nat | p < s.tail ensures Pending(s', p) == Pending(s, p) {}
    forall p | s'.head <= p < s'.head + s'.Capacity() ensures SlotOk(s', p) {
      var q := if p < s.head + s.Capacity() then p else p - s.Capacity();
      assert s.At(q) == s'.At(p);
      assert SlotOk(s, q);
    }
    forall i | 0 <= i < |s'.senders| ensures SenderOk(s', i) {
      assert SenderOk(s, i);
    }
  }

  lemma ReceiverKeepsInv(s: State, giveUp: bool)
    requires Inv(s)
    ensures Inv(ReceiverNext(s, giveUp))
  {
    match s.receiver
    case Reading(_, _, _, _) => ReadKeepsInv(s, giveUp);
    case Clearing(_, _, _, _) => ClearKeepsInv(s, giveUp);
    case Publishing(_, _) => PublishKeepsInv(s, giveUp);
    case _ => LookKeepsInv(s, giveUp);
  }

  lemma LookKeepsInv(s: State, giveUp: bool)
    requires Inv(s) && !s.receiver.Reading? && !s.receiver.Clearing? && !s.receiver.Publishing?
    ensures Inv(ReceiverNext(s, giveUp))
  {
    var s' := ReceiverNext(s, giveUp);
    QuietReceiverKeepsInv(s, s'.receiver, s'.received);
  }

  lemma StepKeepsInv(s: State, a: Action)
    requires Inv(s)
    ensures Inv(Apply(s, a))
  {
    match a
    case CallSend(j, item) =>
      if j < |s.senders| && s.senders[j].Idle? { QuietSenderKeepsInv(s, j, Begin(item)); }
    case SenderStep(j, weak) => if j < |s.senders| { SenderKeepsInv(s, j, weak); }
    case CallRecv(_, _) => QuietReceiverKeepsInv(s, Apply(s, a).receiver, s.received);
    case ReceiverStep(giveUp) => ReceiverKeepsInv(s, giveUp);
  }

  lemma {:induction false} RunKeepsInv(s: State, actions: seq<Action>)
    requires Inv(s)
    ensures Inv(Exec(s, actions))
    decreases |actions|
  {
    if actions != [] {
      StepKeepsInv(s, actions[0]);
      RunKeepsInv(Apply(s, actions[0]), actions[1..]);
    }
  }

  // ---------------------------------------------------------------------------
  // Safety of every run
  // ---------------------------------------------------------------------------

  /** What a user of the channel can rely on at any moment. */
  ghost predicate Safe(s: State) {
    && s.Shape() && |s.reserved| == |s.owners| == s.tail
    // received items are the reserved ones, in reservation order, none skipped or repeated
    && |s.received| <= s.tail && s.received == s.reserved[..|s.received|]
    // no more than a capacity's worth is outstanding
    && s.head <= |s.received| && s.tail <= s.head + s.Capacity()
    // and nothing not yet received is lost: its sender is still at it, or it stands in its slot
    && (forall p: nat {:trigger s.At(p)} :: |s.received| <= p < s.tail && !Pending(s, p) ==>
          s.committed[s.At(p)] && s.buffer[s.At(p)] == s.reserved[p])
  }

  lemma InvIsSafe(s: State)
    requires Inv(s)
    ensures Safe(s)
  {
    forall p: nat | |s.received| <= p < s.tail && !Pending(s, p)
      ensures s.committed[s.At(p)] && s.buffer[s.At(p)] == s.reserved[p]
    {
      assert SlotOk(s, p);
    }
  }

  /** In every interleaving of any number of senders with the receiver. */
  lemma ChannelSafety(capacity: nat, senders: nat, junk: Item, actions: seq<Action>)
    requires capacity > 0
    ensures Safe(Exec(Init(capacity, senders, junk), actions))
  {
    InitInv(capacity, senders, junk);
    RunKeepsInv(Init(capacity, senders, junk), actions);
    InvIsSafe(Exec(Init(capacity, senders, junk), actions));
  }

  /** A sender's item is written down exactly when it wins its slot, and an item is received
      only from a slot that is committed, whose sender is through with it. */
  lemma HistoryIsTrue(s: State, a: Action)
    requires Inv(s)
    ensures var s' := Apply(s, a);
            && (s'.reserved == s.reserved || (a.SenderStep? && a.sender < |s.senders| && s.senders[a.sender].Ready?
                  && s'.reserved == s.reserved + [s.senders[a.sender].item]))
            && (s'.received == s.received || (s.receiver.Reading? && |s.received| < s.tail && !Pending(s, |s.received|)
                  && s.committed[s.At(|s.received|)] && s'.received == s.received + [s.reserved[|s.received|]]))
  {
    if s.receiver.Reading? {
      assert SlotOk(s, Cleared(s)) by { assert s.At(Cleared(s)) < s.Capacity(); }
    }
  }

  /** A call that took `i` items from head `h` on took the `i` reservations from `h` on. */
  lemma RecvTakesNext(s: State)
    requires Inv(s) && s.receiver.Publishing?
    ensures var h, i := s.receiver.h, s.receiver.i;
            s.head == h && |s.received| == h + i <= s.tail && s.received[h..] == s.reserved[h..h + i]
  {
  }

  /** With nobody in the middle of a call, the ring holds exactly what was sent and not received. */
  lemma QuiescentContents(s: State)
    requires Inv(s) && s.receiver.Resting? && forall j :: 0 <= j < |s.senders| ==> s.senders[j].Idle?
    ensures s.received == s.reserved[..s.head]
    ensures forall p: nat {:trigger s.At(p)} :: s.head <= p < s.tail ==> s.committed[s.At(p)] && s.buffer[s.At(p)] == s.reserved[p]
    ensures forall p: nat {:trigger s.At(p)} :: s.tail <= p < s.head + s.Capacity() ==> !s.committed[s.At(p)]
  {
    forall p: nat | s.head <= p < s.head + s.Capacity()
      ensures if p < s.tail then s.committed[s.At(p)] && s.buffer[s.At(p)] == s.reserved[p] else !s.committed[s.At(p)]
    {
      assert SlotOk(s, p);
    }
  }

  /** "Try again" is said only of an empty channel. */
  lemma AgainIsTruthful(s: State, giveUp: bool)
    requires Inv(s) && s.receiver.HasHead? && ReceiverNext(s, giveUp).receiver.Resting?
    ensures s.head == s.tail && s.received == s.reserved
  {
  }

  // ---------------------------------------------------------------------------
  // "Busy"
  // ---------------------------------------------------------------------------

  predicate SaysBusy(s: State, j: nat, weak: bool)
    requires s.Shape() && j < |s.senders|
  {
    s.senders[j].HasTail? && SenderNext(s, j, weak).senders[j].Idle?
  }

  predicate IsFull(s: State) { s.tail >= s.head + s.Capacity() }

  /** "Busy" said of a channel that is not full: exactly when the receiver has overtaken the
      copy of tail the sender started from. */
  lemma BusyIsWrongExactlyWhen(s: State, j: nat, weak: bool)
    requires Inv(s) && j < |s.senders| && s.senders[j].HasTail?
    ensures SaysBusy(s, j, weak) && !IsFull(s)
            <==> !IsFull(s) && s.head > s.senders[j].t
    ensures SaysBusy(s, j, weak) && s.head <= s.senders[j].t ==> IsFull(s)
  {
    assert SenderOk(s, j);
  }

  function Sending(j: nat, item: Item): seq<Action> {
    [CallSend(j, item), SenderStep(j, false), SenderStep(j, false), SenderStep(j, false), SenderStep(j, false), SenderStep(j, false)]
  }

  const Receiving: seq<Action> :=
    [CallRecv(1, true), ReceiverStep(false), ReceiverStep(false), ReceiverStep(false), ReceiverStep(false), ReceiverStep(false)]

  lemma ExecSix(s: State, acts: seq<Action>, s1: State, s2: State, s3: State, s4: State, s5: State, s6: State)
    requires s.Shape() && |acts| == 6
    requires s1 == Apply(s, acts[0]) && s2 == Apply(s1, acts[1]) && s3 == Apply(s2, acts[2])
    requires s4 == Apply(s3, acts[3]) && s5 == Apply(s4, acts[4]) && s6 == Apply(s5, acts[5])
    ensures Exec(s, acts) == s6
  {
    assert Exec(s, acts) == Exec(s1, acts[1..]);
    assert Exec(s1, acts[1..]) == Exec(s2, acts[2..]);
    assert Exec(s2, acts[2..]) == Exec(s3, acts[3..]);
    assert Exec(s3, acts[3..]) == Exec(s4, acts[4..]);
    assert Exec(s4, acts[4..]) == Exec(s5, acts[5..]);
    assert Exec(s5, acts[5..]) == Exec(s6, acts[6..]);
  }

  lemma {:induction false} ExecAppend(s: State, a: seq<Action>, b: seq<Action>)
    requires s.Shape()
    ensures Exec(s, a + b) == Exec(Exec(s, a), b)
    decreases |a|
  {
    if a == [] {
      assert a + b == b;
    } else {
      assert (a + b)[0] == a[0] && (a + b)[1..] == a[1..] + b;
      ExecAppend(Apply(s, a[0]), a[1..], b);
    }
  }

  /** An undisturbed send to a channel with room goes through. */
  lemma SendAlone(s: State, j: nat, item: Item)
    requires s.Shape() && j < |s.senders| && s.senders[j].Idle? && s.head <= s.tail < s.head + s.Capacity()
    ensures Exec(s, Sending(j, item))
            == s.(buffer := s.buffer[s.At(s.tail) := item], committed := s.committed[s.At(s.tail) := true],
                  tail := s.tail + 1, reserved := s.reserved + [item], owners := s.owners + [j])
  {
    var s1 := s.Goto(j, Begin(item));
    var s2 := s1.Goto(j, HasTail(item, s.tail));
    var s3 := s2.Goto(j, Ready(item, s.tail, s.head));
    var s4 := s3.Goto(j, Reserved(item, s.tail)).(tail := s.tail + 1, reserved := s.reserved + [item], owners := s.owners + [j]);
    var s5 := s4.Goto(j, Wrote(item, s.tail)).(buffer := s.buffer[s.At(s.tail) := item]);
    var s6 := s5.Goto(j, Idle).(committed := s.committed[s.At(s.tail) := true]);
    ExecSix(s, Sending(j, item), s1, s2, s3, s4, s5, s6);
    assert s6.senders == s.senders;
  }

  /** An undisturbed receive from a channel whose first item is committed goes through. */
  lemma RecvAlone(s: State)
    requires s.Shape() && s.receiver.Resting? && s.head < s.tail && s.committed[s.At(s.head)]
    ensures Exec(s, Receiving)
            == s.(committed := s.committed[s.At(s.head) := false], head := s.head + 1,
                  received := s.received + [s.buffer[s.At(s.head)]])
  {
    var s1 := s.(receiver := HasHead(s.head, 1, true));
    var s2 := s1.(receiver := Waiting(s.head, 1, 0, true));
    var s3 := s2.(receiver := Reading(s.head, 1, 0, true));
    var s4 := s3.(receiver := Clearing(s.head, 1, 0, true), received := s.received + [s.buffer[s.At(s.head)]]);
    var s5 := s4.(receiver := Publishing(s.head, 1), committed := s.committed[s.At(s.head) := false]);
    var s6 := s5.(receiver := Resting, head := s.head + 1);
    ExecSix(s, Receiving, s1, s2, s3, s4, s5, s6);
  }

  // ---------------------------------------------------------------------------
  // A batch and single receives
  // ---------------------------------------------------------------------------

  /** The items at the `n` positions from head on are reserved and committed. */
  predicate Filled(s: State, n: nat)
    requires s.Shape()
  {
    s.head + n <= s.tail <= s.head + s.Capacity() && forall p: nat {:trigger Arrived(s, p)} :: s.head <= p < s.head + n ==> Arrived(s, p)
  }

  predicate Arrived(s: State, p: nat)
    requires s.Shape()
  {
    s.committed[s.At(p)]
  }

  /** One item is received. */
  function Received(s: State): State
    requires s.Shape()
  {
    s.(committed := s.committed[s.At(s.head) := false], head := s.head + 1, received := s.received + [s.buffer[s.At(s.head)]])
  }

  /** Receiving one of the items leaves the others. */
  lemma {:induction false} FewerFilled(s: State, n: nat)
    requires s.Shape() && Filled(s, n) && n > 0
    ensures Filled(Received(s), n - 1) && Received(s).Shape()
  {
    var r := Received(s);
    forall p: nat | r.head <= p < r.head + (n - 1) ensures Arrived(r, p) {
      assert Arrived(s, p);
      WindowDistinct(s, p, s.head);
    }
  }

  /** The ring and its senders are the same, commit flags aside. */
  predicate SameRing(a: State, b: State) {
    a.buffer == b.buffer && a.tail == b.tail && a.senders == b.senders && a.reserved == b.reserved && a.owners == b.owners
  }

  /** `n` undisturbed single receives. */
  function Singles(n: nat): seq<Action> {
    if n == 0 then [] else Singles(n - 1) + Receiving
  }

  const Round: seq<Action> := [ReceiverStep(false), ReceiverStep(false), ReceiverStep(false), ReceiverStep(false)]

  function Rounds(n: nat): seq<Action> {
    if n == 0 then [] else Rounds(n - 1) + Round
  }

  /** An undisturbed batch receive that asks for up to `max` items and gets `n`. */
  function Batch(max: nat, n: nat): seq<Action> {
    [CallRecv(max, false), ReceiverStep(false)] + (Rounds(n) + [ReceiverStep(false)])
  }

  /** After `i` single receives the next items are still there. */
  lemma {:induction false} SinglesSoFar(s: State, n: nat, i: nat)
    requires s.Shape() && s.receiver.Resting? && Filled(s, n) && i <= n
    ensures var r := Exec(s, Singles(i));
            && Filled(r, n - i) && r.receiver == Resting && r.head == s.head + i && SameRing(r, s)
            && (i < n ==> Exec(s, Singles(i + 1)) == Received(r))
    decreases i
  {
    if i > 0 {
      SinglesSoFar(s, n, i - 1);
      FewerFilled(Exec(s, Singles(i - 1)), n - (i - 1));
    }
    var r := Exec(s, Singles(i));
    if i < n {
      assert Arrived(r, r.head);
      ExecAppend(s, Singles(i), Receiving);
      RecvAlone(r);
    }
  }

  /** The batch after `i` items: as after `i` single receives, with head not published yet. */
  function InBatch(s: State, r: State, n: nat, i: nat): State {
    r.(head := s.head, receiver := NextRound(s.head, n, i, false))
  }

  lemma {:induction false} RoundDone(s: State, r: State, n: nat, i: nat)
    requires r.Shape() && i < n && r.head == s.head + i && r.committed[r.At(r.head)]
    ensures Exec(InBatch(s, r, n, i), Round) == InBatch(s, Received(r), n, i + 1)
  {
    var h := s.head;
    var s0 := InBatch(s, r, n, i);
    var s1 := s0.(receiver := Checking(h, n, i));
    var s2 := s0.(receiver := Reading(h, n, i, false));
    var s3 := s0.(receiver := Clearing(h, n, i, false), received := r.received + [r.buffer[r.At(r.head)]]);
    var s4 := s3.(receiver := NextRound(h, n, i + 1, false), committed := r.committed[r.At(r.head) := false]);
    ExecFour(s0, Round, s1, s2, s3, s4);
  }

  lemma {:induction false} ExecFour(s: State, acts: seq<Action>, s1: State, s2: State, s3: State, s4: State)
    requires s.Shape() && |acts| == 4
    requires s1 == Apply(s, acts[0]) && s2 == Apply(s1, acts[1]) && s3 == Apply(s2, acts[2]) && s4 == Apply(s3, acts[3])
    ensures Exec(s, acts) == s4
  {
    assert Exec(s, acts) == Exec(s1, acts[1..]);
    assert Exec(s1, acts[1..]) == Exec(s2, acts[2..]);
    assert Exec(s2, acts[2..]) == Exec(s3, acts[3..]);
    assert Exec(s3, acts[3..]) == Exec(s4, acts[4..]);
  }

  /** `i` rounds of the batch have done what `i` single receives do. */
  predicate InStep(s: State, n: nat, i: nat)
    requires s.Shape()
  {
    Exec(InBatch(s, s, n, 0), Rounds(i)) == InBatch(s, Exec(s, Singles(i)), n, i)
  }

  lemma {:induction false} RoundsNext(s: State, r: State, n: nat, i: nat)
    requires s.Shape() && r.Shape() && i < n && r.head == s.head + i && Arrived(r, r.head)
    requires r == Exec(s, Singles(i)) && Exec(s, Singles(i + 1)) == Received(r) && InStep(s, n, i)
    ensures InStep(s, n, i + 1)
  {
    var b := InBatch(s, s, n, 0);
    ExecAppend(b, Rounds(i), Round);
    RoundDone(s, r, n, i);
  }

  lemma {:induction false} AfterSingles(s: State, n: nat, i: nat) returns (r: State)
    requires s.Shape() && s.receiver.Resting? && Filled(s, n) && i < n
    ensures r == Exec(s, Singles(i)) && r.Shape() && r.head == s.head + i && Arrived(r, r.head)
    ensures Exec(s, Singles(i + 1)) == Received(r)
  {
    SinglesSoFar(s, n, i);
    r := Exec(s, Singles(i));
    assert Arrived(r, r.head);
  }

  lemma {:induction false} RoundsSoFar(s: State, n: nat, i: nat)
    requires s.Shape() && s.receiver.Resting? && Filled(s, n) && i <= n
    ensures InStep(s, n, i)
  {
    var k := 0;
    NoRounds(s, n);
    while k < i
      invariant k <= i && InStep(s, n, k)
    {
      OneMore(s, n, k);
      k := k + 1;
    }
  }

  lemma {:induction false} NoRounds(s: State, n: nat)
    requires s.Shape()
    ensures InStep(s, n, 0)
  {
  }

  lemma {:induction false} OneMore(s: State, n: nat, i: nat)
    requires s.Shape() && s.receiver.Resting? && Filled(s, n) && i < n && InStep(s, n, i)
    ensures InStep(s, n, i + 1)
  {
    var r := AfterSingles(s, n, i);
    RoundsNext(s, r, n, i);
  }

  /** A batch receive takes what is there, up to what it asks for, and ends in the very state as
      many single receives end in. */
  lemma {:induction false} BatchIsSingles(s: State, max: nat, n: nat)
    requires s.Shape() && s.receiver.Resting? && n > 0 && Filled(s, n)
    requires n == if s.tail - s.head < max then s.tail - s.head else max
    ensures Exec(s, Batch(max, n)) == Exec(s, Singles(n))
  {
    var begin := [CallRecv(max, false), ReceiverStep(false)];
    var s1 := s.(receiver := HasHead(s.head, max, false));
    var s2 := InBatch(s, s, n, 0);
    assert Exec(s, begin) == Exec(s1, begin[1..]);
    assert Exec(s1, begin[1..]) == Exec(s2, begin[2..]);
    ExecAppend(s, begin, Rounds(n) + [ReceiverStep(false)]);
    ExecAppend(s2, Rounds(n), [ReceiverStep(false)]);
    RoundsSoFar(s, n, n);
    SinglesSoFar(s, n, n);
    var r := Exec(s, Singles(n));
    var last := [ReceiverStep(false)];
    assert Exec(InBatch(s, r, n, n), last) == Exec(r, last[1..]);
  }

  // ---------------------------------------------------------------------------
  // Batches with senders in between
  // ---------------------------------------------------------------------------

  predicate OfSender(a: Action) { a.CallSend? || a.SenderStep? }

  /** What the senders do in a run. */
  function Senders(actions: seq<Action>): seq<Action> {
    if actions == [] then [] else (if OfSender(actions[0]) then [actions[0]] else []) + Senders(actions[1..])
  }

  lemma {:induction false} SendersAppend(a: seq<Action>, b: seq<Action>)
    ensures Senders(a + b) == Senders(a) + Senders(b)
  {
    if a == [] {
      assert a + b == b;
    } else {
      assert (a + b)[1..] == a[1..] + b;
      SendersAppend(a[1..], b);
    }
  }

  /** A run in which every receive is a single one that no sender steps into. */
  predicate Alone(actions: seq<Action>)
    decreases |actions|
  {
    || actions == []
    || (OfSender(actions[0]) && Alone(actions[1..]))
    || (Receiving <= actions && Alone(actions[|Receiving|..]))
  }

  lemma {:induction false} AloneAppend(a: seq<Action>, b: seq<Action>)
    requires Alone(a) && Alone(b)
    ensures Alone(a + b)
    decreases |a|
  {
    if a == [] {
      assert a + b == b;
    } else if OfSender(a[0]) {
      assert (a + b)[1..] == a[1..] + b;
      AloneAppend(a[1..], b);
    } else {
      assert (a + b)[|Receiving|..] == a[|Receiving|..] + b && Receiving <= a + b;
      AloneAppend(a[|Receiving|..], b);
    }
  }

  lemma {:induction false} SinglesAlone(n: nat)
    ensures Alone(Singles(n)) && Senders(Singles(n)) == []
  {
    if n > 0 {
      SinglesAlone(n - 1);
      assert Receiving[|Receiving|..] == [] && Alone(Receiving);
      AloneAppend(Singles(n - 1), Receiving);
      SendersAppend(Singles(n - 1), Receiving);
      NoSenders();
    }
  }

  lemma NoSenders()
    ensures Senders(Receiving) == []
  {
    assert Senders(Receiving[6..]) == [];
    assert Receiving[5..][1..] == Receiving[6..] && Receiving[4..][1..] == Receiving[5..];
    assert Receiving[3..][1..] == Receiving[4..] && Receiving[2..][1..] == Receiving[3..];
    assert Receiving[1..][1..] == Receiving[2..];
  }

  /** What stands in the ring and how far the receiver is determine a reachable state. */
  lemma Determined(a: State, b: State)
    requires Inv(a) && Inv(b) && SameRing(a, b) && a.head == b.head && a.receiver == b.receiver
    ensures a == b
  {
    forall k | 0 <= k < a.Capacity() ensures a.committed[k] == b.committed[k] {
      var p := SlotInWindow(a.head, k, a.Capacity());
      assert a.At(p) == k && b.At(p) == k;
      assert SlotOk(a, p) && SlotOk(b, p);
      if p < a.tail { assert Pending(a, p) == Pending(b, p); }
    }
  }

  /** What the receiver has cleared, but not published, is still there if it has not begun. */
  lemma ClearedWasFilled(m: State, u: State)
    requires Inv(m) && Inv(u) && SameRing(m, u) && m.head == u.head && u.receiver.Resting?
    ensures Filled(u, Cleared(m) - m.head)
  {
    forall p: nat | u.head <= p < Cleared(m) ensures Arrived(u, p) {
      assert SlotOk(u, p) by { assert u.At(p) < u.Capacity(); }
      if m.owners[p] < |m.senders| { assert SenderOk(m, m.owners[p]); }
    }
  }

  /** The senders do not notice how far an unpublished receive has got. */
  lemma SenderAgrees(m: State, u: State, a: Action)
    requires m.Shape() && u.Shape() && SameRing(m, u) && m.head == u.head && OfSender(a)
    ensures SameRing(Apply(m, a), Apply(u, a)) && Apply(m, a).head == Apply(u, a).head
    ensures Apply(u, a).receiver == u.receiver
  {
  }

  /** A step of any run, and what a run of single receives does instead: nothing until a receive
      publishes head, and then as many single receives as it took items. */
  lemma InsteadOf(m: State, u: State, a: Action) returns (more: seq<Action>)
    requires Inv(m) && Inv(u) && SameRing(m, u) && m.head == u.head && u.receiver == Resting
    ensures Alone(more) && Senders(more) == Senders([a])
    ensures var m', u' := Apply(m, a), Exec(u, more);
            SameRing(m', u') && m'.head == u'.head && u'.receiver == Resting
  {
    if OfSender(a) {
      more := [a];
      SenderAgrees(m, u, a);
      assert Exec(u, [a]) == Exec(Apply(u, a), [a][1..]);
    } else if a.ReceiverStep? && m.receiver.Publishing? {
      var n := m.receiver.i;
      more := Singles(n);
      SinglesAlone(n);
      ClearedWasFilled(m, u);
      SinglesSoFar(u, n, n);
    } else {
      more := [];
    }
  }

  /** Batches add nothing: for every run, with batch and single receives at any moments and
      senders in between, there is one in which the senders do the same and every receive is a
      single one left alone, with the same items reserved and published, and ending in the very
      same state if no receive is going on then. */
  lemma SinglesSuffice(s: State, actions: seq<Action>) returns (alone: seq<Action>)
    requires Inv(s) && s.receiver == Resting
    ensures Alone(alone) && Senders(alone) == Senders(actions)
    ensures var m, u := Exec(s, actions), Exec(s, alone);
            && SameRing(m, u) && m.head == u.head && |u.received| == m.head && u.received <= m.received
            && (m.receiver == Resting ==> m == u)
  {
    alone := [];
    var m, u, n := s, s, 0;
    while n < |actions|
      invariant n <= |actions| && Inv(m) && Inv(u) && m == Exec(s, actions[..n]) && u == Exec(s, alone)
      invariant SameRing(m, u) && m.head == u.head && u.receiver == Resting
      invariant Alone(alone) && Senders(alone) == Senders(actions[..n])
    {
      var more := InsteadOf(m, u, actions[n]);
      AloneAppend(alone, more);
      RunGoesOn(s, actions, n);
      SendersAppend(alone, more);
      ExecAppend(s, alone, more);
      StepKeepsInv(m, actions[n]);
      RunKeepsInv(u, more);
      m, u, alone, n := Apply(m, actions[n]), Exec(u, more), alone + more, n + 1;
    }
    assert actions[..n] == actions;
    if m.receiver == Resting { Determined(m, u); }
  }

  lemma RunGoesOn(s: State, actions: seq<Action>, n: nat)
    requires s.Shape() && n < |actions|
    ensures Exec(s, actions[..n + 1]) == Apply(Exec(s, actions[..n]), actions[n])
    ensures Senders(actions[..n + 1]) == Senders(actions[..n]) + Senders([actions[n]])
  {
    var last := [actions[n]];
    assert actions[..n + 1] == actions[..n] + last;
    ExecAppend(s, actions[..n], last);
    SendersAppend(actions[..n], last);
    assert Exec(Exec(s, actions[..n]), last) == Exec(Apply(Exec(s, actions[..n]), last[0]), last[1..]);
  }

  // ---------------------------------------------------------------------------
  // A call left alone
  // ---------------------------------------------------------------------------

  /** A send gives up, at whatever point, only on the full test; a lost compare-and-swap goes back
      to the load of tail. */
  lemma GivesUpOnlyWhenFull(s: State, j: nat, weak: bool)
    requires Inv(s) && j < |s.senders| && !s.senders[j].Idle? && !s.senders[j].Wrote?
    requires SenderNext(s, j, weak).senders[j].Idle?
    ensures s.senders[j].HasTail? && LooksFull(s.senders[j].t, s.head, s.Capacity())
  {
  }

  /** `n` steps of sender `j`, nobody else moving and no compare-and-swap failing for nothing. */
  function SenderAlone(s: State, j: nat, n: nat): State
    requires s.Shape() && j < |s.senders|
    decreases n
  {
    if n == 0 then s else SenderAlone(Apply(s, SenderStep(j, false)), j, n - 1)
  }

  lemma {:induction false} SenderRests(s: State, j: nat, n: nat)
    requires s.Shape() && j < |s.senders| && s.senders[j].Idle?
    ensures SenderAlone(s, j, n) == s
  {
    if n > 0 { SenderRests(s, j, n - 1); }
  }

  /** The slot of position `t` holds its item, committed, and sender `j` is through. */
  function Delivered(s: State, j: nat, item: Item, t: nat): State
    requires s.Shape() && j < |s.senders|
  {
    s.Goto(j, Idle).(buffer := s.buffer[s.At(t) := item], committed := s.committed[s.At(t) := true])
  }

  /** The next position is reserved for an item. */
  function Booked(s: State, j: nat, item: Item): State {
    s.(tail := s.tail + 1, reserved := s.reserved + [item], owners := s.owners + [j])
  }

  /** A send that loads tail now: it appends its item if there is room. */
  function Sent(s: State, j: nat, item: Item): State
    requires s.Shape() && j < |s.senders|
  {
    if LooksFull(s.tail, s.head, s.Capacity()) then s.Goto(j, Idle) else Delivered(Booked(s, j, item), j, item, s.tail)
  }

  /** What a send under way comes to, left alone. */
  function SendResult(s: State, j: nat): State
    requires s.Shape() && j < |s.senders| && !s.senders[j].Idle?
  {
    match s.senders[j]
    case Begin(item) => Sent(s, j, item)
    case HasTail(item, t) => if LooksFull(t, s.head, s.Capacity()) then s.Goto(j, Idle) else Sent(s, j, item)
    case Ready(item, t, _) => if t == s.tail then Delivered(Booked(s, j, item), j, item, t) else Sent(s, j, item)
    case Reserved(item, t) => Delivered(s, j, item, t)
    case Wrote(item, t) => Delivered(s, j, item, t)
  }

  /** From anywhere inside a send, left alone, a sender is through in seven steps. */
  lemma SendFinishes(s: State, j: nat, n: nat)
    requires Inv(s) && j < |s.senders| && !s.senders[j].Idle? && n >= 7
    ensures SenderAlone(s, j, n) == SendResult(s, j)
  {
    assert SenderOk(s, j);
    match s.senders[j]
    case Begin(item) => SendBegins(s, j, n);
    case HasTail(item, t) => SendLooks(s, j, n);
    case Ready(item, t, _) => if t == s.tail { SendReserves(s, j, n); } else { SendRetries(s, j, n); }
    case Reserved(_, _) => SendWrites(s, j, n);
    case Wrote(_, _) => SendCommits(s, j, n);
  }

  lemma SendCommits(s: State, j: nat, n: nat)
    requires s.Shape() && j < |s.senders| && s.senders[j].Wrote? && s.buffer[s.At(s.senders[j].t)] == s.senders[j].item && n >= 1
    ensures SenderAlone(s, j, n) == Delivered(s, j, s.senders[j].item, s.senders[j].t)
  {
    assert s.buffer[s.At(s.senders[j].t) := s.senders[j].item] == s.buffer;
    SenderRests(SenderNext(s, j, false), j, n - 1);
  }

  lemma SendWrites(s: State, j: nat, n: nat)
    requires s.Shape() && j < |s.senders| && s.senders[j].Reserved? && n >= 2
    ensures SenderAlone(s, j, n) == Delivered(s, j, s.senders[j].item, s.senders[j].t)
  {
    SendCommits(SenderNext(s, j, false), j, n - 1);
  }

  lemma SendReserves(s: State, j: nat, n: nat)
    requires s.Shape() && j < |s.senders| && s.senders[j].Ready? && s.senders[j].t == s.tail && n >= 3
    ensures SenderAlone(s, j, n) == Delivered(Booked(s, j, s.senders[j].item), j, s.senders[j].item, s.tail)
  {
    SendWrites(SenderNext(s, j, false), j, n - 1);
  }

  lemma SendTests(s: State, j: nat, n: nat)
    requires s.Shape() && j < |s.senders| && s.senders[j].HasTail? && s.senders[j].t == s.tail && n >= 4
    ensures SenderAlone(s, j, n) == Sent(s, j, s.senders[j].item)
  {
    if LooksFull(s.tail, s.head, s.Capacity()) {
      SenderRests(SenderNext(s, j, false), j, n - 1);
    } else {
      SendReserves(SenderNext(s, j, false), j, n - 1);
    }
  }

  lemma SendBegins(s: State, j: nat, n: nat)
    requires s.Shape() && j < |s.senders| && s.senders[j].Begin? && n >= 5
    ensures SenderAlone(s, j, n) == Sent(s, j, s.senders[j].item)
  {
    SendTests(SenderNext(s, j, false), j, n - 1);
  }

  lemma SendRetries(s: State, j: nat, n: nat)
    requires s.Shape() && j < |s.senders| && s.senders[j].Ready? && s.senders[j].t != s.tail && n >= 6
    ensures SenderAlone(s, j, n) == Sent(s, j, s.senders[j].item)
  {
    SendBegins(SenderNext(s, j, false), j, n - 1);
  }

  lemma SendLooks(s: State, j: nat, n: nat)
    requires s.Shape() && j < |s.senders| && s.senders[j].HasTail? && n >= 7
    ensures SenderAlone(s, j, n) == SendResult(s, j)
  {
    var item, t := s.senders[j].item, s.senders[j].t;
    if LooksFull(t, s.head, s.Capacity()) {
      SenderRests(SenderNext(s, j, false), j, n - 1);
    } else if t == s.tail {
      SendTests(s, j, n);
    } else {
      SendRetries(SenderNext(s, j, false), j, n - 1);
    }
  }

  /** A batch receive that gives up on an item not committed yet publishes what it has taken. */
  lemma GivesUpOnPending(s: State)
    requires s.Shape() && s.receiver.Waiting? && !s.receiver.patient && !s.committed[s.At(s.receiver.h + s.receiver.i)]
    ensures var u := Apply(Apply(Apply(s, ReceiverStep(true)), ReceiverStep(true)), ReceiverStep(true));
            u == s.(receiver := Resting, head := if s.receiver.i > 0 then s.receiver.h + s.receiver.i else s.head)
  {
  }

  /** One sender reads tail, another sends, the receiver receives: the first sender now finds
      the empty channel busy, whatever its capacity. */
  lemma BusyThoughEmpty(capacity: nat, mine: Item, other: Item, junk: Item)
    requires capacity > 0
    ensures var s := Exec(Init(capacity, 2, junk), [CallSend(0, mine), SenderStep(0, false)] + (Sending(1, other) + Receiving));
            && s.received == s.reserved == [other] && s.head == s.tail && !IsFull(s)
            && |s.senders| == 2 && SaysBusy(s, 0, false)
  {
    var s0 := Init(capacity, 2, junk);
    var begin := [CallSend(0, mine), SenderStep(0, false)];
    var s1 := s0.Goto(0, Begin(mine));
    var s2 := s1.Goto(0, HasTail(mine, 0));
    assert Exec(s0, begin) == Exec(s1, begin[1..]);
    assert Exec(s1, begin[1..]) == Exec(s2, begin[2..]);
    SendAlone(s2, 1, other);
    RecvAlone(Exec(s2, Sending(1, other)));
    ExecAppend(s2, Sending(1, other), Receiving);
    ExecAppend(s0, begin, Sending(1, other) + Receiving);
  }
}
