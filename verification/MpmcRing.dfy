/** The bounded multi-producer multi-consumer ring behind external task
    submission. Each cell carries a sequence number that says whose turn it is.

    As in `WorkStealingDeque`, one atomic access or one plain cell access is one
    step, and `Exec` runs an arbitrary interleaving. Positions are unbounded. */
module MpmcRing {
  import opened RingIndex

  type Task = nat

  datatype Cell = Cell(turn: nat, task: Task)

  /** Where a thread stands inside push or pop; `pos` is its local copy of tail or head. */
  datatype Pc =
    | Idle
    | PushHasPos(task: Task, pos: nat)
    | PushSawTurn(task: Task, pos: nat)
    | PushReload(task: Task)
    | PushClaimed(task: Task, pos: nat)
    | PushWrote(task: Task, pos: nat)
    | PopHasPos(pos: nat)
    | PopSawTurn(pos: nat)
    | PopReload
    | PopClaimed(pos: nat)
    | PopRead(pos: nat, task: Task)

  /** What a cell is doing, and for which position. Kept beside the cells as
      history only: no step looks at it. */
  datatype Phase =
    | Waiting(pos: nat)
    | Writing(pos: nat, thread: nat)
    | Ready(pos: nat)
    | Reading(pos: nat, thread: nat)

  /** `claimed[k]` is the task of the k-th producer to move tail, `delivered[k]`
      the task the k-th consumer to move head went away with; both are history. */
  datatype State = State(
    cells: seq<Cell>,
    head: nat,
    tail: nat,
    threads: seq<Pc>,
    phases: seq<Phase>,
    claimed: seq<Task>,
    delivered: map<nat, Task>)
  {
    predicate Shape() { |cells| > 0 && |phases| == |cells| }

    function CellOf(pos: nat): Cell
      requires Shape()
    {
      cells[Slot(pos, |cells|)]
    }

    function PhaseOf(pos: nat): Phase
      requires Shape()
    {
      phases[Slot(pos, |cells|)]
    }

    function SetCell(pos: nat, c: Cell): State
      requires Shape()
    {
      this.(cells := cells[Slot(pos, |cells|) := c])
    }

    function SetPhase(ph: Phase, pos: nat): State
      requires Shape()
    {
      this.(phases := phases[Slot(pos, |cells|) := ph])
    }

    function Goto(i: nat, pc: Pc): State
      requires i < |threads|
    {
      this.(threads := threads[i := pc])
    }
  }

  /** `spurious` lets a weak compare-and-swap fail although the values agree. */
  datatype Action =
    | CallPush(thread: nat, task: Task)
    | CallPop(thread: nat)
    | Step(thread: nat, spurious: bool)

  function Init(capacity: nat, threads: nat, junk: Task): State
    requires capacity > 0
  {
    State(seq(capacity, i requires i >= 0 => Cell(i, junk)), 0, 0, seq(threads, _ => Idle),
          seq(capacity, i requires i >= 0 => Waiting(i)), [], map[])
  }

  function ThreadNext(s: State, i: nat, spurious: bool): State
    requires s.Shape() && i < |s.threads|
  {
    match s.threads[i]
    case Idle => s
    case PushHasPos(task, pos) =>
      // load the cell's turn and compare it with pos
      var turn := s.CellOf(pos).turn;
      if turn == pos then s.Goto(i, PushSawTurn(task, pos))
      else if turn < pos then s.Goto(i, Idle)
      else s.Goto(i, PushReload(task))
    case PushSawTurn(task, pos) =>
      if s.tail == pos && !spurious
      then s.Goto(i, PushClaimed(task, pos)).SetPhase(Writing(pos, i), pos)
            .(tail := pos + 1, claimed := s.claimed + [task])
      else s.Goto(i, PushHasPos(task, s.tail))
    case PushReload(task) => s.Goto(i, PushHasPos(task, s.tail))
    case PushClaimed(task, pos) =>
      s.SetCell(pos, s.CellOf(pos).(task := task)).Goto(i, PushWrote(task, pos))
    case PushWrote(task, pos) =>
      s.SetCell(pos, s.CellOf(pos).(turn := pos + 1)).Goto(i, Idle).SetPhase(Ready(pos), pos)
    case PopHasPos(pos) =>
      var turn := s.CellOf(pos).turn;
      if turn == pos + 1 then s.Goto(i, PopSawTurn(pos))
      else if turn < pos + 1 then s.Goto(i, Idle)
      else s.Goto(i, PopReload)
    case PopSawTurn(pos) =>
      if s.head == pos && !spurious
      then s.Goto(i, PopClaimed(pos)).SetPhase(Reading(pos, i), pos).(head := pos + 1)
      else s.Goto(i, PopHasPos(s.head))
    case PopReload => s.Goto(i, PopHasPos(s.head))
    case PopClaimed(pos) => s.Goto(i, PopRead(pos, s.CellOf(pos).task))
    case PopRead(pos, task) =>
      s.SetCell(pos, s.CellOf(pos).(turn := pos + |s.cells|)).Goto(i, Idle)
       .SetPhase(Waiting(pos + |s.cells|), pos).(delivered := s.delivered[pos := task])
  }

  function Apply(s: State, a: Action): State
    requires s.Shape()
    ensures Apply(s, a).Shape()
  {
    match a
    case CallPush(i, task) =>
      if i < |s.threads| && s.threads[i].Idle? then s.Goto(i, PushHasPos(task, s.tail)) else s
    case CallPop(i) =>
      if i < |s.threads| && s.threads[i].Idle? then s.Goto(i, PopHasPos(s.head)) else s
    case Step(i, spurious) =>
      if i < |s.threads| then ThreadNext(s, i, spurious) else s
  }

  function Exec(s: State, actions: seq<Action>): State
    requires s.Shape()
    ensures Exec(s, actions).Shape()
    decreases |actions|
  {
    if actions == [] then s else Exec(Apply(s, actions[0]), actions[1..])
  }

  // ---------------------------------------------------------------------------
  // Invariant
  // ---------------------------------------------------------------------------

  predicate Produces(pc: Pc, pos: nat) {
    (pc.PushClaimed? || pc.PushWrote?) && pc.pos == pos
  }

  predicate Consumes(pc: Pc, pos: nat) {
    (pc.PopClaimed? || pc.PopRead?) && pc.pos == pos
  }

  ghost predicate CellOk(s: State, c: nat)
    requires s.Shape() && c < |s.cells|
  {
    var N, cell := |s.cells|, s.cells[c];
    && Slot(s.phases[c].pos, N) == c
    && match s.phases[c]
       case Waiting(p) =>
         cell.turn == p && s.tail <= p < s.head + N
       case Writing(p, i) =>
         cell.turn == p && s.head <= p < s.tail <= p + N && i < |s.threads| && Produces(s.threads[i], p)
       case Ready(p) =>
         cell.turn == p + 1 && s.head <= p < s.tail <= p + N && |s.claimed| == s.tail && cell.task == s.claimed[p]
       case Reading(p, i) =>
         && cell.turn == p + 1 && p < s.head <= s.tail <= p + N && |s.claimed| == s.tail && cell.task == s.claimed[p]
         && i < |s.threads| && Consumes(s.threads[i], p)
  }

  ghost predicate ThreadOk(s: State, i: nat)
    requires s.Shape() && i < |s.threads|
  {
    match s.threads[i]
    case PushHasPos(_, pos) => pos <= s.tail
    case PushSawTurn(_, pos) => pos <= s.tail && pos <= s.CellOf(pos).turn
    case PushClaimed(task, pos) =>
      s.PhaseOf(pos) == Writing(pos, i) && pos < |s.claimed| && s.claimed[pos] == task
    case PushWrote(task, pos) =>
      && s.PhaseOf(pos) == Writing(pos, i) && pos < |s.claimed| && s.claimed[pos] == task
      && s.CellOf(pos).task == task
    case PopHasPos(pos) => pos <= s.head
    case PopSawTurn(pos) => pos <= s.head && pos + 1 <= s.CellOf(pos).turn
    case PopClaimed(pos) => s.PhaseOf(pos) == Reading(pos, i)
    case PopRead(pos, task) => s.PhaseOf(pos) == Reading(pos, i) && s.CellOf(pos).task == task
    case _ => true
  }

  /** Position `p` is behind head: its task is delivered, or a consumer is on it. */
  ghost predicate PopOk(s: State, p: nat)
    requires s.Shape() && |s.claimed| == s.tail && s.head <= s.tail
  {
    if p < s.head
    then if p in s.delivered then s.delivered[p] == s.claimed[p] && p < s.PhaseOf(p).pos
         else s.PhaseOf(p).Reading? && s.PhaseOf(p).pos == p
    else p !in s.delivered
  }

  ghost predicate Inv(s: State) {
    && s.Shape() && |s.cells| >= 2
    && s.head <= s.tail <= s.head + |s.cells|
    && |s.claimed| == s.tail
    && (forall c :: 0 <= c < |s.cells| ==> CellOk(s, c))
    && (forall i :: 0 <= i < |s.threads| ==> ThreadOk(s, i))
    && (forall p: nat :: PopOk(s, p))
  }

  /** The cell of a position the tail has reached is not past that position. */
  lemma TailCell(s: State, pos: nat)
    requires Inv(s) && pos == s.tail && pos <= s.CellOf(pos).turn
    ensures s.PhaseOf(pos) == Waiting(pos)
  {
    var c := Slot(pos, |s.cells|);
    assert CellOk(s, c);
    var q := s.phases[c].pos;
    SameSlot(pos, q, |s.cells|);
  }

  lemma HeadCell(s: State, pos: nat)
    requires Inv(s) && pos == s.head && pos + 1 <= s.CellOf(pos).turn
    ensures s.PhaseOf(pos) == Ready(pos)
  {
    var c := Slot(pos, |s.cells|);
    assert CellOk(s, c);
    var q := s.phases[c].pos;
    SameSlot(pos, q, |s.cells|);
  }

  lemma StepKeepsInv(s: State, a: Action)
    requires Inv(s)
    ensures Inv(Apply(s, a))
  {
    if a.thread < |s.threads| {
      if a.Step? { ThreadKeepsInv(s, a.thread, a.spurious); } else { CallKeepsInv(s, a); }
    }
  }

  lemma ThreadKeepsInv(s: State, i: nat, spurious: bool)
    requires Inv(s) && i < |s.threads|
    ensures Inv(ThreadNext(s, i, spurious))
  {
    var pc := s.threads[i];
    if pc.PushClaimed? || pc.PushWrote? || pc.PopClaimed? || pc.PopRead? {
      OwnerKeepsInv(s, i);
      assert ThreadNext(s, i, spurious) == ThreadNext(s, i, false);
    } else if pc.PushSawTurn? {
      PushCasKeepsInv(s, i, spurious);
    } else if pc.PopSawTurn? {
      PopCasKeepsInv(s, i, spurious);
    } else {
      LookKeepsInv(s, i, spurious);
    }
  }

  /** A thread at work on the cell it claimed. */
  lemma OwnerKeepsInv(s: State, i: nat)
    requires Inv(s) && i < |s.threads|
    requires var pc := s.threads[i]; pc.PushClaimed? || pc.PushWrote? || pc.PopClaimed? || pc.PopRead?
    ensures Inv(ThreadNext(s, i, false))
  {
    match s.threads[i]
    case PushClaimed(_, _) => PushWriteKeepsInv(s, i);
    case PushWrote(_, _) => PublishKeepsInv(s, i);
    case PopClaimed(_) => PopReadKeepsInv(s, i);
    case PopRead(_, _) => ReleaseKeepsInv(s, i);
  }

  lemma CallKeepsInv(s: State, a: Action)
    requires Inv(s) && !a.Step? && a.thread < |s.threads|
    ensures Inv(Apply(s, a))
  {
    if s.threads[a.thread].Idle? { QuietStep(s, Apply(s, a), a.thread); }
  }

  lemma LookKeepsInv(s: State, i: nat, spurious: bool)
    requires Inv(s) && i < |s.threads|
    requires var pc := s.threads[i];
             pc.Idle? || pc.PushHasPos? || pc.PushReload? || pc.PopHasPos? || pc.PopReload?
    ensures Inv(ThreadNext(s, i, spurious))
  {
    assert ThreadOk(s, i);
    QuietStep(s, ThreadNext(s, i, spurious), i);
  }

  lemma PushCasKeepsInv(s: State, i: nat, spurious: bool)
    requires Inv(s) && i < |s.threads| && s.threads[i].PushSawTurn?
    ensures Inv(ThreadNext(s, i, spurious))
  {
    assert ThreadOk(s, i);
    if s.tail == s.threads[i].pos && !spurious {
      TailCell(s, s.tail);
      PushClaimKeepsInv(s, i);
    } else {
      QuietStep(s, ThreadNext(s, i, spurious), i);
    }
  }

  lemma PopCasKeepsInv(s: State, i: nat, spurious: bool)
    requires Inv(s) && i < |s.threads| && s.threads[i].PopSawTurn?
    ensures Inv(ThreadNext(s, i, spurious))
  {
    assert ThreadOk(s, i);
    if s.head == s.threads[i].pos && !spurious {
      HeadCell(s, s.head);
      PopClaimKeepsInv(s, i);
    } else {
      QuietStep(s, ThreadNext(s, i, spurious), i);
    }
  }

  /** A step that only moves thread `i` between states owning no cell. */
  lemma QuietStep(s: State, s': State, i: nat)
    requires Inv(s) && i < |s.threads|
    requires |s'.threads| == |s.threads| && s' == s.Goto(i, s'.threads[i])
    requires ThreadOk(s', i)
    requires !s.threads[i].PushClaimed? && !s.threads[i].PushWrote?
    requires !s.threads[i].PopClaimed? && !s.threads[i].PopRead?
    ensures Inv(s')
  {
    forall c | 0 <= c < |s'.cells| ensures CellOk(s', c) {
      assert CellOk(s, c);
    }
    forall j | 0 <= j < |s'.threads| ensures ThreadOk(s', j) {
      assert ThreadOk(s, j);
    }
    forall p: nat ensures PopOk(s', p) {
      assert PopOk(s, p);
    }
  }

  lemma PushClaimKeepsInv(s: State, i: nat)
    requires Inv(s) && i < |s.threads| && s.threads[i].PushSawTurn?
    requires s.tail == s.threads[i].pos && s.PhaseOf(s.tail) == Waiting(s.tail)
    ensures Inv(ThreadNext(s, i, false))
  {
    var s' := ThreadNext(s, i, false);
    assert CellOk(s, Slot(s.tail, |s.cells|));
    forall c | 0 <= c < |s'.cells| ensures CellOk(s', c) {
      PushClaimKeepsCell(s, i, c);
    }
    forall j | 0 <= j < |s'.threads| ensures ThreadOk(s', j) {
      assert ThreadOk(s, j);
    }
    forall p: nat ensures PopOk(s', p) {
      assert PopOk(s, p);
    }
  }

  lemma PushClaimKeepsCell(s: State, i: nat, c: nat)
    requires Inv(s) && i < |s.threads| && s.threads[i].PushSawTurn? && c < |s.cells|
    requires s.tail == s.threads[i].pos && s.PhaseOf(s.tail) == Waiting(s.tail)
    ensures CellOk(ThreadNext(s, i, false), c)
  {
    var N := |s.cells|;
    assert CellOk(s, Slot(s.tail, N));
    assert CellOk(s, c);
    assert Slot(s.phases[c].pos + N, N) == c;
  }

  lemma PushWriteKeepsInv(s: State, i: nat)
    requires Inv(s) && i < |s.threads| && s.threads[i].PushClaimed?
    ensures Inv(ThreadNext(s, i, false))
  {
    var s' := ThreadNext(s, i, false);
    assert ThreadOk(s, i);
    forall c | 0 <= c < |s'.cells| ensures CellOk(s', c) {
      assert CellOk(s, c);
    }
    forall j | 0 <= j < |s'.threads| ensures ThreadOk(s', j) {
      assert ThreadOk(s, j);
    }
    forall p: nat ensures PopOk(s', p) {
      assert PopOk(s, p);
    }
  }

  lemma PublishKeepsInv(s: State, i: nat)
    requires Inv(s) && i < |s.threads| && s.threads[i].PushWrote?
    ensures Inv(ThreadNext(s, i, false))
  {
    var s' := ThreadNext(s, i, false);
    assert ThreadOk(s, i);
    assert CellOk(s, Slot(s.threads[i].pos, |s.cells|));
    forall c | 0 <= c < |s'.cells| ensures CellOk(s', c) {
      assert CellOk(s, c);
    }
    forall j | 0 <= j < |s'.threads| ensures ThreadOk(s', j) {
      assert ThreadOk(s, j);
    }
    forall p: nat ensures PopOk(s', p) {
      assert PopOk(s, p);
    }
  }

  lemma PopClaimKeepsInv(s: State, i: nat)
    requires Inv(s) && i < |s.threads| && s.threads[i].PopSawTurn?
    requires s.head == s.threads[i].pos && s.PhaseOf(s.head) == Ready(s.head)
    ensures Inv(ThreadNext(s, i, false))
  {
    var s', pos := ThreadNext(s, i, false), s.head;
    assert CellOk(s, Slot(pos, |s.cells|));
    forall c | 0 <= c < |s'.cells| ensures CellOk(s', c) {
      assert CellOk(s, c);
    }
    forall j | 0 <= j < |s'.threads| ensures ThreadOk(s', j) {
      assert ThreadOk(s, j);
    }
    forall p: nat ensures PopOk(s', p) {
      assert PopOk(s, p);
    }
  }

  lemma PopReadKeepsInv(s: State, i: nat)
    requires Inv(s) && i < |s.threads| && s.threads[i].PopClaimed?
    ensures Inv(ThreadNext(s, i, false))
  {
    var s' := ThreadNext(s, i, false);
    assert ThreadOk(s, i);
    forall c | 0 <= c < |s'.cells| ensures CellOk(s', c) {
      assert CellOk(s, c);
    }
    forall j | 0 <= j < |s'.threads| ensures ThreadOk(s', j) {
      assert ThreadOk(s, j);
    }
    forall p: nat ensures PopOk(s', p) {
      assert PopOk(s, p);
    }
  }

  lemma ReleaseKeepsInv(s: State, i: nat)
    requires Inv(s) && i < |s.threads| && s.threads[i].PopRead?
    ensures Inv(ThreadNext(s, i, false))
  {
    var s' := ThreadNext(s, i, false);
    assert ThreadOk(s, i);
    assert CellOk(s, Slot(s.threads[i].pos, |s.cells|));
    forall c | 0 <= c < |s'.cells| ensures CellOk(s', c) {
      ReleaseKeepsCell(s, i, c);
    }
    forall j | 0 <= j < |s'.threads| ensures ThreadOk(s', j) {
      assert ThreadOk(s, j);
    }
    forall p: nat ensures PopOk(s', p) {
      assert PopOk(s, p);
    }
  }

  lemma ReleaseKeepsCell(s: State, i: nat, c: nat)
    requires Inv(s) && i < |s.threads| && s.threads[i].PopRead? && c < |s.cells|
    ensures CellOk(ThreadNext(s, i, false), c)
  {
    assert ThreadOk(s, i);
    assert CellOk(s, Slot(s.threads[i].pos, |s.cells|));
    assert CellOk(s, c);
  }

  // ---------------------------------------------------------------------------
  // The ring as a bounded FIFO
  // ---------------------------------------------------------------------------

  /** Tasks claimed by a producer and not yet by a consumer, oldest first. */
  ghost function Queue(s: State): seq<Task>
    requires s.head <= s.tail == |s.claimed|
  {
    s.claimed[s.head..s.tail]
  }

  /** Thread `i` is about to move tail, or head, past the position it looked at. */
  predicate Pushes(s: State, a: Action) {
    && a.Step? && a.thread < |s.threads| && !a.spurious
    && s.threads[a.thread].PushSawTurn? && s.threads[a.thread].pos == s.tail
  }

  predicate Pops(s: State, a: Action) {
    && a.Step? && a.thread < |s.threads| && !a.spurious
    && s.threads[a.thread].PopSawTurn? && s.threads[a.thread].pos == s.head
  }

  predicate Delivers(s: State, a: Action) {
    a.Step? && a.thread < |s.threads| && s.threads[a.thread].PopRead?
  }

  /** Every step is a step of a bounded FIFO queue: the compare-and-swap of a producer puts
      its own task at the back, that of a consumer takes the front, anything else leaves the
      queue alone. */
  lemma StepRefinesFifo(s: State, a: Action)
    requires Inv(s)
    ensures var s' := Apply(s, a);
            && s'.head <= s'.tail == |s'.claimed| && |Queue(s')| <= |s.cells|
            && (Pushes(s, a) ==> Queue(s') == Queue(s) + [s.threads[a.thread].task])
            && (Pops(s, a) ==> Queue(s) == [s.claimed[s.head]] + Queue(s'))
            && (!Pushes(s, a) && !Pops(s, a) ==> Queue(s') == Queue(s))
  {
    if Pushes(s, a) {
      PushAppends(s, a);
    } else if Pops(s, a) {
      PopTakesFront(s, a);
    } else {
      OthersKeepQueue(s, a);
    }
  }

  lemma PushAppends(s: State, a: Action)
    requires Inv(s) && Pushes(s, a)
    ensures var s' := Apply(s, a);
            && s'.head == s.head && s'.tail == s.tail + 1 == |s'.claimed| && s'.tail <= s.head + |s.cells|
            && Queue(s') == Queue(s) + [s.threads[a.thread].task]
  {
    assert ThreadOk(s, a.thread);
    TailCell(s, s.tail);
    assert CellOk(s, Slot(s.tail, |s.cells|));
  }

  lemma PopTakesFront(s: State, a: Action)
    requires Inv(s) && Pops(s, a)
    ensures var s' := Apply(s, a);
            && s'.head == s.head + 1 <= s'.tail == s.tail && s'.claimed == s.claimed
            && Queue(s) == [s.claimed[s.head]] + Queue(s')
  {
    assert ThreadOk(s, a.thread);
    HeadCell(s, s.head);
    assert CellOk(s, Slot(s.head, |s.cells|));
  }

  lemma OthersKeepQueue(s: State, a: Action)
    requires s.Shape() && !Pushes(s, a) && !Pops(s, a)
    ensures var s' := Apply(s, a); s'.head == s.head && s'.tail == s.tail && s'.claimed == s.claimed
  {
  }

  /** A consumer that finishes goes away with the task its position was pushed with, which
      nobody got before; no other step delivers anything. */
  lemma DeliversThePushed(s: State, a: Action)
    requires Inv(s)
    ensures Delivers(s, a) ==>
              var p := s.threads[a.thread].pos;
              && p < s.head && p !in s.delivered && s.threads[a.thread].task == s.claimed[p]
              && Apply(s, a).delivered == s.delivered[p := s.claimed[p]]
    ensures !Delivers(s, a) ==> Apply(s, a).delivered == s.delivered
  {
    if Delivers(s, a) {
      var p := s.threads[a.thread].pos;
      assert ThreadOk(s, a.thread);
      assert CellOk(s, Slot(p, |s.cells|));
      assert PopOk(s, p);
    }
  }

  /** Thread `i` is inside a push whose task is not in its cell yet, or inside a pop whose task
      it has not read out yet. */
  predicate Pushing(pc: Pc) { pc.PushHasPos? || pc.PushSawTurn? || pc.PushReload? || pc.PushClaimed? }

  predicate Popping(pc: Pc) { pc.PopHasPos? || pc.PopSawTurn? || pc.PopReload? || pc.PopClaimed? }

  /** push gives up, at whatever point, only while the task one lap back is unreleased. */
  lemma FullIsTruthful(s: State, i: nat, spurious: bool)
    requires Inv(s) && i < |s.threads| && Pushing(s.threads[i])
    requires ThreadNext(s, i, spurious).threads[i].Idle?
    ensures s.threads[i].PushHasPos?
    ensures var p := s.threads[i].pos - |s.cells|;
            p >= 0 && p < s.tail && p !in s.delivered && s.PhaseOf(p).pos == p && !s.PhaseOf(p).Waiting?
  {
    var pos, N := s.threads[i].pos, |s.cells|;
    assert ThreadOk(s, i);
    assert CellOk(s, Slot(pos, N));
    SameSlot(pos, s.PhaseOf(pos).pos, N);
    assert PopOk(s, s.PhaseOf(pos).pos);
  }

  /** pop gives up, at whatever point, only when the ring is empty or its oldest task is still
      being written. */
  lemma EmptyIsTruthful(s: State, i: nat, spurious: bool)
    requires Inv(s) && i < |s.threads| && Popping(s.threads[i])
    requires ThreadNext(s, i, spurious).threads[i].Idle?
    ensures s.threads[i].PopHasPos?
    ensures Queue(s) == [] || (s.PhaseOf(s.head).Writing? && s.PhaseOf(s.head).pos == s.head)
  {
    var pos, N := s.threads[i].pos, |s.cells|;
    assert ThreadOk(s, i);
    assert CellOk(s, Slot(pos, N));
    SameSlot(pos, s.PhaseOf(pos).pos, N);
  }

  // ---------------------------------------------------------------------------
  // A call left alone
  // ---------------------------------------------------------------------------

  /** `n` steps of thread `i`, nobody else moving and no compare-and-swap failing for nothing. */
  function Alone(s: State, i: nat, n: nat): State
    requires s.Shape() && i < |s.threads|
    decreases n
  {
    if n == 0 then s else Alone(Apply(s, Step(i, false)), i, n - 1)
  }

  lemma {:induction false} Rests(s: State, i: nat, n: nat)
    requires s.Shape() && i < |s.threads| && s.threads[i].Idle?
    ensures Alone(s, i, n) == s
  {
    if n > 0 { Rests(s, i, n - 1); }
  }

  /** The cell of `pos` holds its task, ready to be taken, and thread `i` is through. */
  function Filled(s: State, i: nat, task: Task, pos: nat): State
    requires s.Shape() && i < |s.threads|
  {
    s.(cells := s.cells[Slot(pos, |s.cells|) := Cell(pos + 1, task)],
       phases := s.phases[Slot(pos, |s.cells|) := Ready(pos)],
       threads := s.threads[i := Idle])
  }

  /** The next position is claimed for a task. */
  function Claimed(s: State, task: Task): State { s.(tail := s.tail + 1, claimed := s.claimed + [task]) }

  /** The cell of tail is free. */
  predicate Room(s: State)
    requires s.Shape()
  {
    s.PhaseOf(s.tail) == Waiting(s.tail)
  }

  /** What a push under way comes to, left alone. */
  function PushResult(s: State, i: nat): State
    requires s.Shape() && i < |s.threads| && (Pushing(s.threads[i]) || s.threads[i].PushWrote?)
  {
    var pc := s.threads[i];
    if pc.PushClaimed? || pc.PushWrote? then Filled(s, i, pc.task, pc.pos)
    else if Room(s) then Filled(Claimed(s, pc.task), i, pc.task, s.tail)
    else s.Goto(i, Idle)
  }

  /** From anywhere inside a push, left alone, a thread is through in six steps: its task is
      appended if the cell of tail is free, and refused otherwise. */
  lemma PushFinishes(s: State, i: nat, n: nat)
    requires Inv(s) && i < |s.threads| && (Pushing(s.threads[i]) || s.threads[i].PushWrote?) && n >= 6
    ensures Alone(s, i, n) == PushResult(s, i)
  {
    assert ThreadOk(s, i);
    TurnShowsRoom(s);
    match s.threads[i]
    case PushHasPos(task, pos) => if pos == s.tail { PushLooks(s, i, n); } else { PushIsStale(s, i, n); }
    case PushSawTurn(task, pos) => if pos == s.tail { PushHasRoom(s, i); PushClaims(s, i, n); } else { PushRetries(s, i, n); }
    case PushReload(task) => PushRetries(s, i, n);
    case PushClaimed(_, _) => PushFills(s, i, n);
    case PushWrote(_, _) => PushPublishes(s, i, n);
  }

  lemma PushPublishes(s: State, i: nat, n: nat)
    requires s.Shape() && i < |s.threads| && s.threads[i].PushWrote? && n >= 1
    requires s.CellOf(s.threads[i].pos).task == s.threads[i].task
    ensures Alone(s, i, n) == Filled(s, i, s.threads[i].task, s.threads[i].pos)
  {
    Rests(ThreadNext(s, i, false), i, n - 1);
  }

  lemma PushFills(s: State, i: nat, n: nat)
    requires s.Shape() && i < |s.threads| && s.threads[i].PushClaimed? && n >= 2
    ensures Alone(s, i, n) == Filled(s, i, s.threads[i].task, s.threads[i].pos)
  {
    PushPublishes(ThreadNext(s, i, false), i, n - 1);
  }

  lemma PushClaims(s: State, i: nat, n: nat)
    requires s.Shape() && i < |s.threads| && s.threads[i].PushSawTurn? && s.threads[i].pos == s.tail && n >= 3
    ensures Alone(s, i, n) == Filled(Claimed(s, s.threads[i].task), i, s.threads[i].task, s.tail)
  {
    PushFills(ThreadNext(s, i, false), i, n - 1);
  }

  lemma PushHasRoom(s: State, i: nat)
    requires Inv(s) && i < |s.threads| && s.threads[i].PushSawTurn? && s.threads[i].pos == s.tail
    ensures Room(s)
  {
    assert ThreadOk(s, i);
    TailCell(s, s.tail);
  }

  /** The cell of tail shows whether there is room. */
  predicate ShowsRoom(s: State)
    requires s.Shape()
  {
    if Room(s) then s.CellOf(s.tail).turn == s.tail else s.CellOf(s.tail).turn < s.tail
  }

  lemma TurnShowsRoom(s: State)
    requires Inv(s)
    ensures ShowsRoom(s)
  {
    if s.CellOf(s.tail).turn >= s.tail { TailCell(s, s.tail); }
    assert CellOk(s, Slot(s.tail, |s.cells|));
  }

  lemma PushLooks(s: State, i: nat, n: nat)
    requires s.Shape() && ShowsRoom(s) && i < |s.threads| && s.threads[i].PushHasPos? && s.threads[i].pos == s.tail && n >= 4
    ensures Alone(s, i, n) == PushResult(s, i)
  {
    if Room(s) { PushClaims(ThreadNext(s, i, false), i, n - 1); } else { Rests(ThreadNext(s, i, false), i, n - 1); }
  }

  /** Before the claim it does not matter where a push stands. */
  lemma PushGoesOn(s: State, i: nat, pc: Pc)
    requires s.Shape() && i < |s.threads| && Pushing(s.threads[i]) && !s.threads[i].PushClaimed?
    requires Pushing(pc) && !pc.PushClaimed? && pc.task == s.threads[i].task
    ensures PushResult(s.Goto(i, pc), i) == PushResult(s, i)
  {
    assert s.threads[i := pc][i := Idle] == s.threads[i := Idle];
  }

  lemma PushRetries(s: State, i: nat, n: nat)
    requires s.Shape() && ShowsRoom(s) && i < |s.threads| && n >= 5
    requires s.threads[i].PushReload? || (s.threads[i].PushSawTurn? && s.threads[i].pos != s.tail)
    ensures Alone(s, i, n) == PushResult(s, i)
  {
    var pc := PushHasPos(s.threads[i].task, s.tail);
    PushLooks(s.Goto(i, pc), i, n - 1);
    PushGoesOn(s, i, pc);
  }

  /** A cell is never behind a position that was claimed. */
  lemma ClaimedTurn(s: State, pos: nat)
    requires Inv(s) && pos < s.tail
    ensures s.CellOf(pos).turn >= pos
  {
    assert CellOk(s, Slot(pos, |s.cells|));
    SameSlot(pos, s.PhaseOf(pos).pos, |s.cells|);
  }

  lemma PushIsStale(s: State, i: nat, n: nat)
    requires Inv(s) && i < |s.threads| && s.threads[i].PushHasPos? && s.threads[i].pos < s.tail && n >= 6
    ensures Alone(s, i, n) == PushResult(s, i)
  {
    var pos, task := s.threads[i].pos, s.threads[i].task;
    ClaimedTurn(s, pos);
    TurnShowsRoom(s);
    var pc := if s.CellOf(pos).turn == pos then PushSawTurn(task, pos) else PushReload(task);
    assert ThreadNext(s, i, false) == s.Goto(i, pc);
    PushRetries(s.Goto(i, pc), i, n - 1);
    PushGoesOn(s, i, pc);
  }

  /** The oldest task is written and can be taken. */
  predicate Waits(s: State)
    requires s.Shape()
  {
    s.PhaseOf(s.head) == Ready(s.head)
  }

  /** The cell of `pos` is free again for the next lap, its task delivered, and thread `i` is through. */
  function Emptied(s: State, i: nat, task: Task, pos: nat): State
    requires s.Shape() && i < |s.threads|
  {
    s.(cells := s.cells[Slot(pos, |s.cells|) := s.CellOf(pos).(turn := pos + |s.cells|)],
       phases := s.phases[Slot(pos, |s.cells|) := Waiting(pos + |s.cells|)],
       threads := s.threads[i := Idle], delivered := s.delivered[pos := task])
  }

  /** What a pop under way comes to, left alone. */
  function PopResult(s: State, i: nat): State
    requires s.Shape() && i < |s.threads| && (Popping(s.threads[i]) || s.threads[i].PopRead?)
  {
    var pc := s.threads[i];
    if pc.PopRead? then Emptied(s, i, pc.task, pc.pos)
    else if pc.PopClaimed? then Emptied(s, i, s.CellOf(pc.pos).task, pc.pos)
    else if Waits(s) then Emptied(s.(head := s.head + 1), i, s.CellOf(s.head).task, s.head)
    else s.Goto(i, Idle)
  }

  /** From anywhere inside a pop, left alone, a thread is through in six steps: with the oldest
      task if that is written, and with nothing otherwise. */
  lemma PopFinishes(s: State, i: nat, n: nat)
    requires Inv(s) && i < |s.threads| && (Popping(s.threads[i]) || s.threads[i].PopRead?) && n >= 6
    ensures Alone(s, i, n) == PopResult(s, i)
  {
    assert ThreadOk(s, i);
    TurnShowsTask(s);
    match s.threads[i]
    case PopHasPos(pos) => if pos == s.head { PopLooks(s, i, n); } else { PopIsStale(s, i, n); }
    case PopSawTurn(pos) => if pos == s.head { PopWaits(s, i); PopClaims(s, i, n); } else { PopRetries(s, i, n); }
    case PopReload => PopRetries(s, i, n);
    case PopClaimed(_) => PopReads(s, i, n);
    case PopRead(_, _) => PopReleases(s, i, n);
  }

  lemma PopReleases(s: State, i: nat, n: nat)
    requires s.Shape() && i < |s.threads| && s.threads[i].PopRead? && n >= 1
    ensures Alone(s, i, n) == Emptied(s, i, s.threads[i].task, s.threads[i].pos)
  {
    Rests(ThreadNext(s, i, false), i, n - 1);
  }

  lemma PopReads(s: State, i: nat, n: nat)
    requires s.Shape() && i < |s.threads| && s.threads[i].PopClaimed? && n >= 2
    ensures Alone(s, i, n) == Emptied(s, i, s.CellOf(s.threads[i].pos).task, s.threads[i].pos)
  {
    PopReleases(ThreadNext(s, i, false), i, n - 1);
  }

  lemma PopClaims(s: State, i: nat, n: nat)
    requires s.Shape() && i < |s.threads| && s.threads[i].PopSawTurn? && s.threads[i].pos == s.head && n >= 3
    ensures Alone(s, i, n) == Emptied(s.(head := s.head + 1), i, s.CellOf(s.head).task, s.head)
  {
    PopReads(ThreadNext(s, i, false), i, n - 1);
  }

  lemma PopWaits(s: State, i: nat)
    requires Inv(s) && i < |s.threads| && s.threads[i].PopSawTurn? && s.threads[i].pos == s.head
    ensures Waits(s)
  {
    assert ThreadOk(s, i);
    HeadCell(s, s.head);
  }

  /** The cell of head shows whether a task waits. */
  predicate ShowsTask(s: State)
    requires s.Shape()
  {
    if Waits(s) then s.CellOf(s.head).turn == s.head + 1 else s.CellOf(s.head).turn < s.head + 1
  }

  lemma TurnShowsTask(s: State)
    requires Inv(s)
    ensures ShowsTask(s)
  {
    if s.CellOf(s.head).turn >= s.head + 1 { HeadCell(s, s.head); }
    assert CellOk(s, Slot(s.head, |s.cells|));
  }

  lemma PopLooks(s: State, i: nat, n: nat)
    requires s.Shape() && ShowsTask(s) && i < |s.threads| && s.threads[i].PopHasPos? && s.threads[i].pos == s.head && n >= 4
    ensures Alone(s, i, n) == PopResult(s, i)
  {
    if Waits(s) { PopClaims(ThreadNext(s, i, false), i, n - 1); } else { Rests(ThreadNext(s, i, false), i, n - 1); }
  }

  /** Before the claim it does not matter where a pop stands. */
  lemma PopGoesOn(s: State, i: nat, pc: Pc)
    requires s.Shape() && i < |s.threads| && Popping(s.threads[i]) && !s.threads[i].PopClaimed?
    requires Popping(pc) && !pc.PopClaimed?
    ensures PopResult(s.Goto(i, pc), i) == PopResult(s, i)
  {
    assert s.threads[i := pc][i := Idle] == s.threads[i := Idle];
  }

  lemma PopRetries(s: State, i: nat, n: nat)
    requires s.Shape() && ShowsTask(s) && i < |s.threads| && n >= 5
    requires s.threads[i].PopReload? || (s.threads[i].PopSawTurn? && s.threads[i].pos != s.head)
    ensures Alone(s, i, n) == PopResult(s, i)
  {
    var pc := PopHasPos(s.head);
    PopLooks(s.Goto(i, pc), i, n - 1);
    PopGoesOn(s, i, pc);
  }

  /** A position that was taken has been written. */
  lemma TakenTurn(s: State, pos: nat)
    requires Inv(s) && pos < s.head
    ensures s.CellOf(pos).turn >= pos + 1
  {
    assert CellOk(s, Slot(pos, |s.cells|));
    SameSlot(pos, s.PhaseOf(pos).pos, |s.cells|);
  }

  lemma PopIsStale(s: State, i: nat, n: nat)
    requires Inv(s) && i < |s.threads| && s.threads[i].PopHasPos? && s.threads[i].pos < s.head && n >= 6
    ensures Alone(s, i, n) == PopResult(s, i)
  {
    var pos := s.threads[i].pos;
    TakenTurn(s, pos);
    TurnShowsTask(s);
    var pc := if s.CellOf(pos).turn == pos + 1 then PopSawTurn(pos) else PopReload;
    assert ThreadNext(s, i, false) == s.Goto(i, pc);
    PopRetries(s.Goto(i, pc), i, n - 1);
    PopGoesOn(s, i, pc);
  }

  /** A whole push left alone appends its task, and is refused only by a full ring or a consumer
      that has not released the cell yet. */
  lemma PushCall(s: State, i: nat, task: Task)
    requires Inv(s) && i < |s.threads| && s.threads[i].Idle?
    ensures var u := Alone(Apply(s, CallPush(i, task)), i, 6);
            && u.threads == s.threads && u.head == s.head && u.head <= u.tail == |u.claimed|
            && (if Room(s) then Queue(u) == Queue(s) + [task]
                else u == s && s.tail >= |s.cells|
                     && (|Queue(s)| == |s.cells| || exists j :: 0 <= j < |s.threads| && Consumes(s.threads[j], s.tail - |s.cells|)))
  {
    var s1 := Apply(s, CallPush(i, task));
    CallKeepsInv(s, CallPush(i, task));
    PushFinishes(s1, i, 6);
    assert s1.threads[i := Idle] == s.threads;
    if !Room(s) { NoRoom(s); }
  }

  lemma NoRoom(s: State)
    requires Inv(s) && !Room(s)
    ensures s.tail >= |s.cells|
    ensures |Queue(s)| == |s.cells| || exists j :: 0 <= j < |s.threads| && Consumes(s.threads[j], s.tail - |s.cells|)
  {
    var N := |s.cells|;
    assert CellOk(s, Slot(s.tail, N));
    SameSlot(s.tail, s.PhaseOf(s.tail).pos, N);
  }

  /** A whole pop left alone takes the oldest task, and fails only on an empty ring or one whose
      oldest task is still being written. */
  lemma PopCall(s: State, i: nat)
    requires Inv(s) && i < |s.threads| && s.threads[i].Idle?
    ensures var u := Alone(Apply(s, CallPop(i)), i, 6);
            && u.threads == s.threads && u.tail == s.tail && u.head <= u.tail == |u.claimed|
            && (if Waits(s)
                then s.head < s.tail && Queue(s) == [s.claimed[s.head]] + Queue(u) && u.delivered == s.delivered[s.head := s.claimed[s.head]]
                else u == s && (Queue(s) == [] || exists j :: 0 <= j < |s.threads| && Produces(s.threads[j], s.head)))
  {
    var s1 := Apply(s, CallPop(i));
    CallKeepsInv(s, CallPop(i));
    PopFinishes(s1, i, 6);
    assert s1.threads[i := Idle] == s.threads;
    if Waits(s) {
      OldestIsClaimed(s);
      FrontOff(s.claimed, s.head, s.tail);
    } else {
      NothingWaits(s);
    }
  }

  lemma FrontOff(q: seq<Task>, h: nat, t: nat)
    requires h < t <= |q|
    ensures q[h..t] == [q[h]] + q[h + 1..t]
  {
  }

  lemma OldestIsClaimed(s: State)
    requires Inv(s) && Waits(s)
    ensures s.head < s.tail && s.CellOf(s.head).task == s.claimed[s.head]
  {
    assert CellOk(s, Slot(s.head, |s.cells|));
  }

  lemma NothingWaits(s: State)
    requires Inv(s) && !Waits(s)
    ensures Queue(s) == [] || exists j :: 0 <= j < |s.threads| && Produces(s.threads[j], s.head)
  {
    assert CellOk(s, Slot(s.head, |s.cells|));
    SameSlot(s.head, s.PhaseOf(s.head).pos, |s.cells|);
  }

  lemma InitInv(capacity: nat, threads: nat, junk: Task)
    requires capacity >= 2
    ensures Inv(Init(capacity, threads, junk))
  {
    var s := Init(capacity, threads, junk);
    forall c | 0 <= c < capacity ensures CellOk(s, c) {
    }
  }

  lemma {:induction false} RunKeepsInv(s: State, actions: seq<Action>)
    requires Inv(s)
    ensures Inv(Exec(s, actions)) && |Exec(s, actions).cells| == |s.cells|
    decreases |actions|
  {
    if actions != [] {
      var s' := Stepped(s, actions[0]);
      RunKeepsInv(s', actions[1..]);
    }
  }

  /** The state after a step, with what holds of it. */
  lemma {:induction false} Stepped(s: State, a: Action) returns (s': State)
    requires Inv(s)
    ensures s' == Apply(s, a) && Inv(s') && |s'.cells| == |s.cells|
  {
    s' := Apply(s, a);
    StepKeepsInv(s, a);
  }

  /** What the ring owes its callers: tail never laps head, and the k-th consumer
      goes away with the k-th producer's task. */
  ghost predicate RingSafe(s: State) {
    && s.head <= s.tail <= s.head + |s.cells|
    && |s.claimed| == s.tail
    && forall p :: p in s.delivered ==> p < s.head && s.delivered[p] == s.claimed[p]
  }

  ghost predicate SafeInEveryRun(capacity: nat)
    requires capacity > 0
  {
    forall threads: nat, junk: Task, actions: seq<Action> ::
      RingSafe(Exec(Init(capacity, threads, junk), actions))
  }

  /** Any number of producers and consumers in any interleaving: safe for capacity two or more. */
  lemma RingSafety(capacity: nat, threads: nat, junk: Task, actions: seq<Action>)
    requires capacity >= 2
    ensures var s := Exec(Init(capacity, threads, junk), actions);
            && RingSafe(s)
            && (forall p: nat :: p < s.head && (forall i :: 0 <= i < |s.threads| ==> !Consumes(s.threads[i], p)) ==> p in s.delivered)
  {
    var s := Exec(Init(capacity, threads, junk), actions);
    InitInv(capacity, threads, junk);
    RunKeepsInv(Init(capacity, threads, junk), actions);
    forall p | p in s.delivered
      ensures p < s.head && s.delivered[p] == s.claimed[p]
    {
      assert PopOk(s, p);
    }
    forall p: nat | p < s.head && (forall i :: 0 <= i < |s.threads| ==> !Consumes(s.threads[i], p))
      ensures p in s.delivered
    {
      assert PopOk(s, p);
      assert CellOk(s, Slot(p, |s.cells|));
    }
  }

  function PushAlone(task: Task): seq<Action> {
    [CallPush(0, task), Step(0, false), Step(0, false), Step(0, false), Step(0, false)]
  }

  /** A one-cell ring used by a single thread. */
  predicate Solo(s: State, cell: Cell, pc: Pc, head: nat, claimed: seq<Task>, tail: nat) {
    s.Shape() && s.cells == [cell] && s.threads == [pc] && s.head == head && s.claimed == claimed && s.tail == tail
  }

  lemma SoloLook(s: State, cell: Cell, task: Task, head: nat, claimed: seq<Task>, tail: nat)
    requires Solo(s, cell, PushHasPos(task, tail), head, claimed, tail) && cell.turn == tail
    ensures Solo(ThreadNext(s, 0, false), cell, PushSawTurn(task, tail), head, claimed, tail)
  {
  }

  lemma SoloClaim(s: State, cell: Cell, task: Task, head: nat, claimed: seq<Task>, tail: nat)
    requires Solo(s, cell, PushSawTurn(task, tail), head, claimed, tail)
    ensures Solo(ThreadNext(s, 0, false), cell, PushClaimed(task, tail), head, claimed + [task], tail + 1)
  {
  }

  lemma SoloFill(s: State, cell: Cell, task: Task, pos: nat, head: nat, claimed: seq<Task>, tail: nat)
    requires Solo(s, cell, PushClaimed(task, pos), head, claimed, tail)
    ensures var s' := ThreadNext(ThreadNext(s, 0, false), 0, false);
            Solo(s', Cell(pos + 1, task), Idle, head, claimed, tail)
  {
    var s1 := ThreadNext(s, 0, false);
    assert Slot(pos, 1) == 0;
    assert Solo(s1, cell.(task := task), PushWrote(task, pos), head, claimed, tail);
  }

  /** A lone thread's push on a one-cell ring whose turn equals tail goes through. */
  lemma PushAloneOnOneCell(s: State, cell: Cell, head: nat, claimed: seq<Task>, tail: nat, task: Task)
    requires Solo(s, cell, Idle, head, claimed, tail) && cell.turn == tail
    ensures Solo(Exec(s, PushAlone(task)), Cell(tail + 1, task), Idle, head, claimed + [task], tail + 1)
  {
    var s1 := Apply(s, CallPush(0, task));
    assert Solo(s1, cell, PushHasPos(task, tail), head, claimed, tail);
    SoloLook(s1, cell, task, head, claimed, tail);
    var s2 := ThreadNext(s1, 0, false);
    SoloClaim(s2, cell, task, head, claimed, tail);
    var s3 := ThreadNext(s2, 0, false);
    SoloFill(s3, cell, task, tail, head, claimed + [task], tail + 1);
    var s4 := ThreadNext(s3, 0, false);
    ExecFive(s, PushAlone(task), s1, s2, s3, s4, ThreadNext(s4, 0, false));
  }

  lemma ExecFive(s: State, acts: seq<Action>, s1: State, s2: State, s3: State, s4: State, s5: State)
    requires s.Shape() && |acts| == 5
    requires s1 == Apply(s, acts[0]) && s2 == Apply(s1, acts[1]) && s3 == Apply(s2, acts[2])
    requires s4 == Apply(s3, acts[3]) && s5 == Apply(s4, acts[4])
    ensures Exec(s, acts) == s5
  {
    assert Exec(s, acts) == Exec(s1, acts[1..]);
    assert Exec(s1, acts[1..]) == Exec(s2, acts[2..]);
    assert Exec(s2, acts[2..]) == Exec(s3, acts[3..]);
    assert Exec(s3, acts[3..]) == Exec(s4, acts[4..]);
    assert Exec(s4, acts[4..]) == Exec(s5, acts[5..]);
  }

  lemma {:induction false} ExecAppend(s: State, a: seq<Action>, b: seq<Action>)
    requires s.Shape()
    ensures Exec(s, a + b) == Exec(Exec(s, a), b)
    decreases |a|
  {
    if a == [] {
      assert a + b == b;
    } else {
      assert (a + b)[0] == a[0] && (a + b)[1..] == a[1..] + b;
      ExecAppend(Apply(s, a[0]), a[1..], b);
    }
  }

  /** With one cell, turn 1 means both "task 0 is ready" and "slot is free for task 1":
      a second push is accepted before any pop and overwrites the first task. */
  lemma CapacityOneOverwrites(first: Task, second: Task, junk: Task)
    ensures var s := Exec(Init(1, 1, junk), PushAlone(first) + PushAlone(second));
            |s.cells| == 1 && s.head == 0 && s.tail == 2 && s.claimed == [first, second] && s.cells[0].task == second
  {
    var s0 := Init(1, 1, junk);
    PushAloneOnOneCell(s0, Cell(0, junk), 0, [], 0, first);
    PushAloneOnOneCell(Exec(s0, PushAlone(first)), Cell(1, first), 0, [first], 1, second);
    ExecAppend(s0, PushAlone(first), PushAlone(second));
  }

  /** The exact condition: the ring is safe in every run if and only if it has two cells or more. */
  lemma SafeExactlyFromTwo(capacity: nat)
    requires capacity > 0
    ensures SafeInEveryRun(capacity) <==> capacity >= 2
  {
    if capacity >= 2 {
      forall threads: nat, junk: Task, actions: seq<Action>
        ensures RingSafe(Exec(Init(capacity, threads, junk), actions))
      {
        RingSafety(capacity, threads, junk, actions);
      }
    } else {
      CapacityOneOverwrites(7, 8, 0);
      assert !RingSafe(Exec(Init(1, 1, 0), PushAlone(7) + PushAlone(8)));
    }
  }
}
