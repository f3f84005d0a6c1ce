/** The Chase-Lev work-stealing deque of the thread pool: one owner pushes and
    pops at `bottom`, any number of thieves steal at `top`.

    Every atomic load, store and compare-and-swap, and every plain access to the
    buffer, is one step of a sequentially consistent machine; `Exec` runs an
    arbitrary interleaving of such steps. */
module WorkStealingDeque {
  import opened Basics
  import opened RingIndex

  type Task = nat

  /** Where the owner stands inside push or pop. The names say what has been done so far. */
  datatype OwnerPc =
    | OwnerIdle
    | PushLoadedBottom(task: Task, b: nat)
    | PushHasRoom(task: Task, b: nat)
    | PushWroteSlot(task: Task, b: nat)
    | PopLoadedBottom(b: nat)
    | PopLowered(nb: nat)
    | PopLoadedTop(nb: nat, t: nat)
    | PopRacing(nb: nat, task: Task, t: nat)
    | PopRestoring(nb: nat, result: Option<Task>)

  /** Where a thief stands inside steal. */
  datatype ThiefPc =
    | ThiefIdle
    | StealLoadedTop(t: nat)
    | StealSawWork(t: nat)
    | StealHasTask(t: nat, task: Task)

  /** `pushed` and `returned` are the histories of successful pushes and of tasks handed out. */
  datatype State = State(
    buffer: seq<Task>,
    top: nat,
    bottom: nat,
    owner: OwnerPc,
    thieves: seq<ThiefPc>,
    pushed: seq<Task>,
    returned: seq<Task>)
  {
    predicate Shape() {
      |buffer| > 0
    }

    function At(i: nat): Task
      requires Shape()
    {
      buffer[Slot(i, |buffer|)]
    }
  }

  datatype Action =
    | CallPush(task: Task)
    | CallPop
    | OwnerStep
    | CallSteal(thief: nat)
    | ThiefStep(thief: nat)

  function Init(capacity: nat, thieves: nat, junk: Task): State
    requires capacity > 0
  {
    State(seq(capacity, _ => junk), 0, 0, OwnerIdle, seq(thieves, _ => ThiefIdle), [], [])
  }

  /** One step of the owner, wherever it stands. */
  function OwnerNext(s: State): State
    requires s.Shape()
  {
    match s.owner
    case OwnerIdle => s
    case PushLoadedBottom(task, b) =>
      // load top; "size >= capacity - 1" means full
      if b - s.top >= |s.buffer| - 1
      then s.(owner := OwnerIdle)
      else s.(owner := PushHasRoom(task, b))
    case PushHasRoom(task, b) =>
      s.(buffer := s.buffer[Slot(b, |s.buffer|) := task], owner := PushWroteSlot(task, b))
    case PushWroteSlot(task, b) =>
      s.(bottom := b + 1, owner := OwnerIdle, pushed := s.pushed + [task])
    case PopLoadedBottom(b) =>
      if b == 0 then s.(owner := OwnerIdle)
      else s.(bottom := b - 1, owner := PopLowered(b - 1))
    case PopLowered(nb) =>
      if s.top <= nb then s.(owner := PopLoadedTop(nb, s.top))
      else s.(owner := PopRestoring(nb, None))
    case PopLoadedTop(nb, t) =>
      if t == nb then s.(owner := PopRacing(nb, s.At(nb), t))
      else s.(owner := OwnerIdle, returned := s.returned + [s.At(nb)])
    case PopRacing(nb, task, t) =>
      if s.top == t then s.(top := t + 1, owner := PopRestoring(nb, Some(task)))
      else s.(owner := PopRestoring(nb, None))
    case PopRestoring(nb, result) =>
      var out := if result.Some? then s.returned + [result.value] else s.returned;
      s.(bottom := nb + 1, owner := OwnerIdle, returned := out)
  }

  /** One step of thief `i`. */
  function ThiefNext(s: State, i: nat): State
    requires s.Shape() && i < |s.thieves|
  {
    match s.thieves[i]
    case ThiefIdle => s
    case StealLoadedTop(t) =>
      s.(thieves := s.thieves[i := if t >= s.bottom then ThiefIdle else StealSawWork(t)])
    case StealSawWork(t) =>
      s.(thieves := s.thieves[i := StealHasTask(t, s.At(t))])
    case StealHasTask(t, task) =>
      if s.top == t
      then s.(top := t + 1, thieves := s.thieves[i := ThiefIdle], returned := s.returned + [task])
      else s.(thieves := s.thieves[i := ThiefIdle])
  }

  /** The machine's step; an action that is not enabled changes nothing. */
  function Apply(s: State, a: Action): State
    requires s.Shape()
    ensures Apply(s, a).Shape()
  {
    match a
    case CallPush(task) =>
      if s.owner.OwnerIdle? then s.(owner := PushLoadedBottom(task, s.bottom)) else s
    case CallPop =>
      if s.owner.OwnerIdle? then s.(owner := PopLoadedBottom(s.bottom)) else s
    case OwnerStep => OwnerNext(s)
    case CallSteal(i) =>
      if i < |s.thieves| && s.thieves[i].ThiefIdle?
      then s.(thieves := s.thieves[i := StealLoadedTop(s.top)])
      else s
    case ThiefStep(i) =>
      if i < |s.thieves| then ThiefNext(s, i) else s
  }

  function Exec(s: State, actions: seq<Action>): State
    requires s.Shape()
    ensures Exec(s, actions).Shape()
    decreases |actions|
  {
    if actions == [] then s else Exec(Apply(s, actions[0]), actions[1..])
  }

  // ---------------------------------------------------------------------------
  // Abstraction: the tasks the deque holds, oldest first
  // ---------------------------------------------------------------------------

  /** One past the newest held task. While the owner is undecided about the last
      task, `bottom` is already lowered but that task is still held. */
  function LogicalBottom(s: State): nat {
    match s.owner
    case PopLowered(nb) => nb + 1
    case PopLoadedTop(nb, t) => if t < nb then nb else nb + 1
    case PopRacing(nb, _, _) => nb + 1
    case PopRestoring(nb, _) => nb + 1
    case _ => s.bottom
  }

  function Window(buffer: seq<Task>, lo: nat, hi: nat): (w: seq<Task>)
    requires |buffer| > 0 && lo <= hi
    ensures |w| == hi - lo
    ensures forall k :: 0 <= k < hi - lo ==> w[k] == buffer[Slot(lo + k, |buffer|)]
  {
    seq(hi - lo, k requires 0 <= k < hi - lo => buffer[Slot(lo + k, |buffer|)])
  }

  ghost function Held(s: State): seq<Task>
    requires Inv(s)
  {
    Window(s.buffer, s.top, LogicalBottom(s))
  }

  /** A task the owner has claimed for its running pop but not returned yet. */
  function InHand(s: State): seq<Task>
    requires s.Shape()
  {
    match s.owner
    case PopLoadedTop(nb, t) => if t < nb then [s.At(nb)] else []
    case PopRestoring(_, Some(task)) => [task]
    case _ => []
  }

  ghost predicate OwnerOk(s: State)
    requires s.Shape()
  {
    match s.owner
    case OwnerIdle => true
    case PushLoadedBottom(_, b) => b == s.bottom
    case PushHasRoom(_, b) => b == s.bottom && b - s.top < |s.buffer| - 1
    case PushWroteSlot(task, b) => b == s.bottom && b - s.top < |s.buffer| - 1 && s.At(b) == task
    case PopLoadedBottom(b) => b == s.bottom
    case PopLowered(nb) => nb == s.bottom
    case PopLoadedTop(nb, t) =>
      && nb == s.bottom && t <= nb && t <= s.top
      && (t < nb ==> forall i :: 0 <= i < |s.thieves| ==> CommittedBelow(s.thieves[i], nb))
    case PopRacing(nb, task, t) =>
      nb == s.bottom && t == nb && nb <= s.top && (s.top == nb ==> task == s.At(nb))
    case PopRestoring(nb, _) => nb == s.bottom && s.top == nb + 1
  }

  /** A thief past its emptiness test aims below `nb`. */
  predicate CommittedBelow(pc: ThiefPc, nb: nat) {
    match pc
    case StealSawWork(t) => t < nb
    case StealHasTask(t, _) => t < nb
    case _ => true
  }

  ghost predicate ThiefOk(s: State, pc: ThiefPc)
    requires s.Shape()
  {
    match pc
    case ThiefIdle => true
    case StealLoadedTop(t) => t <= s.top
    case StealSawWork(t) => t <= s.top && (t == s.top ==> t < LogicalBottom(s))
    case StealHasTask(t, task) =>
      t <= s.top && (t == s.top ==> t < LogicalBottom(s) && task == s.At(t))
  }

  ghost predicate Inv(s: State) {
    && s.Shape()
    && s.top <= LogicalBottom(s)
    && LogicalBottom(s) - s.top <= |s.buffer| - 1
    && OwnerOk(s)
    && (forall i :: 0 <= i < |s.thieves| ==> ThiefOk(s, s.thieves[i]))
  }

  // ---------------------------------------------------------------------------
  // The abstract deque
  // ---------------------------------------------------------------------------

  /** What a step does to the held sequence, seen from outside. */
  datatype Event = Silent | PushBottom(task: Task) | PopBottom(task: Task) | PopTop(task: Task)

  predicate AbstractStep(held: seq<Task>, held': seq<Task>, e: Event) {
    match e
    case Silent => held' == held
    case PushBottom(task) => held' == held + [task]
    case PopBottom(task) => held == held' + [task]
    case PopTop(task) => held == [task] + held'
  }

  /** The event of a step, read off the concrete state before it. */
  function EventOf(s: State, a: Action): Event
    requires s.Shape()
  {
    match a
    case OwnerStep => (
      match s.owner
      case PushWroteSlot(task, _) => PushBottom(task)
      case PopLowered(nb) => if s.top < nb then PopBottom(s.At(nb)) else Silent
      case PopRacing(_, task, t) => if s.top == t then PopBottom(task) else Silent
      case _ => Silent
    )
    case ThiefStep(i) =>
      if i < |s.thieves| && s.thieves[i].StealHasTask? && s.thieves[i].t == s.top
      then PopTop(s.thieves[i].task)
      else Silent
    case _ => Silent
  }

  /** Writing the slot of `b` leaves every held task alone. */
  lemma WindowFrame(buffer: seq<Task>, lo: nat, hi: nat, b: nat, task: Task)
    requires |buffer| > 0 && lo <= hi <= b < lo + |buffer|
    ensures Window(buffer[Slot(b, |buffer|) := task], lo, hi) == Window(buffer, lo, hi)
  {
    var buffer' := buffer[Slot(b, |buffer|) := task];
    var w, w' := Window(buffer, lo, hi), Window(buffer', lo, hi);
    forall k | 0 <= k < hi - lo
      ensures w'[k] == w[k]
    {
      SlotsDistinct(lo + k, b, |buffer|);
    }
  }

  lemma PushWriteKeepsInv(s: State)
    requires Inv(s) && s.owner.PushHasRoom?
    ensures Inv(OwnerNext(s))
    ensures Held(OwnerNext(s)) == Held(s)
  {
    var s' := OwnerNext(s);
    var b := s.owner.b;
    WindowFrame(s.buffer, s.top, b, b, s.owner.task);
    forall i | 0 <= i < |s'.thieves|
      ensures ThiefOk(s', s'.thieves[i])
    {
      assert ThiefOk(s, s.thieves[i]);
      if s.thieves[i].StealHasTask? && s.thieves[i].t == s.top {
        SlotsDistinct(s.top, b, |s.buffer|);
      }
    }
  }

  lemma PushPublishKeepsInv(s: State)
    requires Inv(s) && s.owner.PushWroteSlot?
    ensures Inv(OwnerNext(s))
    ensures Held(OwnerNext(s)) == Held(s) + [s.owner.task]
  {
    var s' := OwnerNext(s);
    forall i | 0 <= i < |s'.thieves|
      ensures ThiefOk(s', s'.thieves[i])
    {
      assert ThiefOk(s, s.thieves[i]);
    }
  }

  /** The owner looks at `top` after lowering `bottom`: below it, no thief can still reach the claimed task. */
  lemma PopLoadTopKeepsInv(s: State)
    requires Inv(s) && s.owner.PopLowered?
    ensures Inv(OwnerNext(s))
    ensures AbstractStep(Held(s), Held(OwnerNext(s)), EventOf(s, OwnerStep))
  {
    var s' := OwnerNext(s);
    var nb := s.owner.nb;
    forall i | 0 <= i < |s'.thieves|
      ensures ThiefOk(s', s'.thieves[i])
      ensures s.top < nb ==> CommittedBelow(s'.thieves[i], nb)
    {
      assert ThiefOk(s, s.thieves[i]);
    }
  }

  lemma PopFinishKeepsInv(s: State)
    requires Inv(s) && (s.owner.PopLoadedTop? || s.owner.PopRacing? || s.owner.PopRestoring?)
    ensures Inv(OwnerNext(s))
    ensures AbstractStep(Held(s), Held(OwnerNext(s)), EventOf(s, OwnerStep))
  {
    var s' := OwnerNext(s);
    forall i | 0 <= i < |s'.thieves|
      ensures ThiefOk(s', s'.thieves[i])
    {
      assert ThiefOk(s, s.thieves[i]);
    }
  }

  lemma OwnerKeepsInv(s: State)
    requires Inv(s)
    ensures Inv(OwnerNext(s))
    ensures AbstractStep(Held(s), Held(OwnerNext(s)), EventOf(s, OwnerStep))
  {
    match s.owner {
      case PushHasRoom(_, _) => PushWriteKeepsInv(s);
      case PushWroteSlot(_, _) => PushPublishKeepsInv(s);
      case PopLowered(_) => PopLoadTopKeepsInv(s);
      case PopLoadedTop(_, _) => PopFinishKeepsInv(s);
      case PopRacing(_, _, _) => PopFinishKeepsInv(s);
      case PopRestoring(_, _) => PopFinishKeepsInv(s);
      case _ =>
        var s' := OwnerNext(s);
        forall i | 0 <= i < |s'.thieves|
          ensures ThiefOk(s', s'.thieves[i])
        {
          assert ThiefOk(s, s.thieves[i]);
        }
    }
  }

  lemma ThiefKeepsInv(s: State, i: nat)
    requires Inv(s) && i < |s.thieves|
    ensures Inv(ThiefNext(s, i))
    ensures AbstractStep(Held(s), Held(ThiefNext(s, i)), EventOf(s, ThiefStep(i)))
  {
    if s.thieves[i].StealHasTask? {
      StealKeepsInv(s, i);
    } else {
      LookingKeepsInv(s, i);
    }
  }

  /** The thief's compare-and-swap. */
  lemma StealKeepsInv(s: State, i: nat)
    requires Inv(s) && i < |s.thieves| && s.thieves[i].StealHasTask?
    ensures Inv(ThiefNext(s, i))
    ensures AbstractStep(Held(s), Held(ThiefNext(s, i)), EventOf(s, ThiefStep(i)))
  {
    assert ThiefOk(s, s.thieves[i]);
  }

  /** The thief's loads. */
  lemma LookingKeepsInv(s: State, i: nat)
    requires Inv(s) && i < |s.thieves| && !s.thieves[i].StealHasTask?
    ensures Inv(ThiefNext(s, i))
    ensures AbstractStep(Held(s), Held(ThiefNext(s, i)), EventOf(s, ThiefStep(i)))
  {
    assert ThiefOk(s, s.thieves[i]);
  }

  /** Every step of the machine is a step of an atomic deque: it either leaves the
      held sequence alone, appends a pushed task, takes the newest task for the
      owner, or takes the oldest task for a thief. */
  lemma StepRefinesDeque(s: State, a: Action)
    requires Inv(s)
    ensures Inv(Apply(s, a))
    ensures AbstractStep(Held(s), Held(Apply(s, a)), EventOf(s, a))
  {
    match a {
      case OwnerStep => OwnerKeepsInv(s);
      case ThiefStep(i) => if i < |s.thieves| { ThiefKeepsInv(s, i); }
      case _ =>
    }
  }

  /** Replays an event on an atomic deque; `None` when that deque would not allow it. */
  function Replay(held: seq<Task>, events: seq<Event>): Option<seq<Task>>
    decreases |events|
  {
    if events == [] then Some(held)
    else match events[0]
      case Silent => Replay(held, events[1..])
      case PushBottom(task) => Replay(held + [task], events[1..])
      case PopBottom(task) =>
        if held != [] && held[|held| - 1] == task
        then Replay(held[..|held| - 1], events[1..]) else None
      case PopTop(task) =>
        if held != [] && held[0] == task
        then Replay(held[1..], events[1..]) else None
  }

  /** The events of a whole interleaving, in order. */
  function Events(s: State, actions: seq<Action>): seq<Event>
    requires s.Shape()
    decreases |actions|
  {
    if actions == [] then []
    else [EventOf(s, actions[0])] + Events(Apply(s, actions[0]), actions[1..])
  }

  /** Every interleaving is linearizable: its events are a legal history of an
      atomic deque that ends in exactly the tasks the machine holds. */
  lemma {:induction false} RunsAreLinearizable(s: State, actions: seq<Action>)
    requires Inv(s)
    ensures Inv(Exec(s, actions))
    ensures Replay(Held(s), Events(s, actions)) == Some(Held(Exec(s, actions)))
    decreases |actions|
  {
    if actions != [] {
      var a, s' := actions[0], Apply(s, actions[0]);
      StepRefinesDeque(s, a);
      RunsAreLinearizable(s', actions[1..]);
      var events := Events(s, actions);
      assert events[0] == EventOf(s, a) && events[1..] == Events(s', actions[1..]);
      if events[0].PopBottom? {
        assert Held(s)[..|Held(s)| - 1] == Held(s');
      } else if events[0].PopTop? {
        assert Held(s)[1..] == Held(s');
      }
    }
  }

  // ---------------------------------------------------------------------------
  // Conservation
  // ---------------------------------------------------------------------------

  /** Nothing is lost and nothing is handed out twice. */
  ghost predicate Conserved(s: State)
    requires Inv(s)
  {
    multiset(s.pushed) == multiset(s.returned) + multiset(Held(s)) + multiset(InHand(s))
  }

  /** How an event is booked in the histories and in the owner's hand. */
  predicate Booked(e: Event, pushed: seq<Task>, returned: seq<Task>, hand: seq<Task>,
                   pushed': seq<Task>, returned': seq<Task>, hand': seq<Task>)
  {
    match e
    case Silent =>
      pushed' == pushed && ((returned' == returned && hand' == hand) || (returned' == returned + hand && hand' == []))
    case PushBottom(task) => pushed' == pushed + [task] && returned' == returned && hand' == hand
    case PopBottom(task) => pushed' == pushed && returned' == returned && hand == [] && hand' == [task]
    case PopTop(task) => pushed' == pushed && returned' == returned + [task] && hand' == hand
  }

  /** A booked deque event keeps the books balanced. */
  lemma BooksBalance(e: Event, held: seq<Task>, held': seq<Task>,
                     pushed: seq<Task>, returned: seq<Task>, hand: seq<Task>,
                     pushed': seq<Task>, returned': seq<Task>, hand': seq<Task>)
    requires AbstractStep(held, held', e)
    requires Booked(e, pushed, returned, hand, pushed', returned', hand')
    requires multiset(pushed) == multiset(returned) + multiset(held) + multiset(hand)
    ensures multiset(pushed') == multiset(returned') + multiset(held') + multiset(hand')
  {
  }

  lemma StepIsBooked(s: State, a: Action)
    requires Inv(s)
    ensures var s' := Apply(s, a);
            Booked(EventOf(s, a), s.pushed, s.returned, InHand(s), s'.pushed, s'.returned, InHand(s'))
  {
  }

  lemma StepConserves(s: State, a: Action)
    requires Inv(s) && Conserved(s)
    ensures Inv(Apply(s, a)) && Conserved(Apply(s, a))
  {
    var s' := Apply(s, a);
    StepRefinesDeque(s, a);
    StepIsBooked(s, a);
    BooksBalance(EventOf(s, a), Held(s), Held(s'),
                 s.pushed, s.returned, InHand(s), s'.pushed, s'.returned, InHand(s'));
  }

  lemma {:induction false} RunConserves(s: State, actions: seq<Action>)
    requires Inv(s) && Conserved(s)
    ensures Inv(Exec(s, actions)) && Conserved(Exec(s, actions))
    decreases |actions|
  {
    if actions != [] {
      StepConserves(s, actions[0]);
      RunConserves(Apply(s, actions[0]), actions[1..]);
    }
  }

  /** Every interleaving of one owner with any number of thieves, on a deque of any
      capacity: a task is returned no more often than it was pushed, the held tasks
      never exceed the room push leaves, and once the owner is idle the tasks pushed
      but not returned are exactly the held ones. */
  lemma DequeSafety(capacity: nat, thieves: nat, junk: Task, actions: seq<Action>)
    requires capacity > 0
    ensures var s := Exec(Init(capacity, thieves, junk), actions);
            && Inv(s)
            && |Held(s)| <= capacity - 1
            && multiset(s.returned) <= multiset(s.pushed)
            && (s.owner.OwnerIdle? ==> multiset(s.pushed) - multiset(s.returned) == multiset(Held(s)))
  {
    var s0 := Init(capacity, thieves, junk);
    RunConserves(s0, actions);
    BufferSizeKept(s0, actions);
  }

  lemma {:induction false} BufferSizeKept(s: State, actions: seq<Action>)
    requires s.Shape()
    ensures |Exec(s, actions).buffer| == |s.buffer|
    decreases |actions|
  {
    if actions != [] {
      BufferSizeKept(Apply(s, actions[0]), actions[1..]);
    }
  }

  /** Tasks pushed once come back at most once. */
  lemma NoTaskReturnedTwice(capacity: nat, thieves: nat, junk: Task, actions: seq<Action>, i: nat, j: nat)
    requires capacity > 0
    requires var s := Exec(Init(capacity, thieves, junk), actions);
             && (forall x, y :: 0 <= x < y < |s.pushed| ==> s.pushed[x] != s.pushed[y])
             && i < j < |s.returned|
    ensures var s := Exec(Init(capacity, thieves, junk), actions);
            s.returned[i] != s.returned[j] && s.returned[i] in s.pushed
  {
    var s := Exec(Init(capacity, thieves, junk), actions);
    DequeSafety(capacity, thieves, junk, actions);
    var t := s.returned[i];
    assert t in multiset(s.returned);
    if t == s.returned[j] {
      var left, right := s.returned[..j], s.returned[j..];
      assert s.returned == left + right;
      assert left[i] == t && right[0] == t;
      assert multiset(s.returned)[t] >= 2;
      DistinctCountsOnce(s.pushed, t);
    }
  }

  lemma {:induction false} DistinctCountsOnce(q: seq<Task>, t: Task)
    requires forall x, y :: 0 <= x < y < |q| ==> q[x] != q[y]
    ensures multiset(q)[t] <= 1
  {
    if q != [] {
      var rest := q[1..];
      DistinctCountsOnce(rest, t);
      assert q == [q[0]] + rest;
      if q[0] == t {
        assert forall y :: 0 <= y < |rest| ==> rest[y] == q[y + 1];
        assert t !in rest;
      }
    }
  }

  /** A failed operation tells the truth. Push fails exactly on a deque holding capacity - 1
      tasks. Pop finds nothing only when nothing is held, also when it loses the race for the
      last task. Steal gives up before reading only when at most the task the owner is popping
      is held, and after reading exactly when top has moved past the position it read;
      `LostToAnother` says what that means. */
  lemma FailuresAreTruthful(s: State, i: nat)
    requires Inv(s)
    ensures s.owner.PushLoadedBottom? ==>
              (OwnerNext(s).owner.OwnerIdle? <==> |Held(s)| == |s.buffer| - 1)
    ensures s.owner.PopLoadedBottom? ==> (OwnerNext(s).owner.OwnerIdle? ==> Held(s) == [])
    ensures s.owner.PopLowered? ==> (OwnerNext(s).owner.PopRestoring? <==> Held(s) == [])
    ensures s.owner.PopRacing? ==> (OwnerNext(s).owner.result.None? <==> Held(s) == [])
    ensures i < |s.thieves| && s.thieves[i].StealLoadedTop? && ThiefNext(s, i).thieves[i].ThiefIdle? ==>
              |Held(s)| <= 1 && (Held(s) != [] ==> s.owner.PopLowered? || s.owner.PopLoadedTop? || s.owner.PopRacing?)
    ensures i < |s.thieves| && s.thieves[i].StealSawWork? ==> !ThiefNext(s, i).thieves[i].ThiefIdle?
    ensures i < |s.thieves| && s.thieves[i].StealHasTask? ==>
              (ThiefNext(s, i).returned == s.returned <==> s.top > s.thieves[i].t)
  {
    if i < |s.thieves| {
      assert ThiefOk(s, s.thieves[i]);
    }
  }

  /** Step `a` takes the oldest held task, for a thief or, when it is the only one, for the owner. */
  ghost predicate TakesOldest(s: State, a: Action)
    requires Inv(s)
  {
    && Held(s) != []
    && (EventOf(s, a) == PopTop(Held(s)[0]) || (|Held(s)| == 1 && EventOf(s, a) == PopBottom(Held(s)[0])))
  }

  lemma TopMoves(s: State, a: Action)
    requires Inv(s)
    ensures var s' := Apply(s, a); s'.top == s.top || (s'.top == s.top + 1 && TakesOldest(s, a))
  {
    if a.ThiefStep? && a.thief < |s.thieves| { assert ThiefOk(s, s.thieves[a.thief]); }
  }

  /** When top has moved past position `t`, some step before took the task of that position: a
      thief that fails its compare-and-swap on `t` lost exactly the task it went for. */
  lemma {:induction false} LostToAnother(s: State, actions: seq<Action>, t: nat) returns (k: nat)
    requires Inv(s) && s.top <= t < Exec(s, actions).top
    ensures k < |actions|
    ensures var m := Exec(s, actions[..k]);
            Inv(m) && m.top == t && Apply(m, actions[k]).top == t + 1 && TakesOldest(m, actions[k])
    decreases |actions|
  {
    var s' := Apply(s, actions[0]);
    StepRefinesDeque(s, actions[0]);
    TopMoves(s, actions[0]);
    if s'.top > t {
      k := 0;
      assert actions[..0] == [];
    } else {
      var k' := LostToAnother(s', actions[1..], t);
      k := k' + 1;
      assert actions[..k][0] == actions[0] && actions[..k][1..] == actions[1..][..k'];
    }
  }

  // ---------------------------------------------------------------------------
  // A call left alone
  // ---------------------------------------------------------------------------

  /** `n` steps of the owner, nobody else moving. */
  function OwnerAlone(s: State, n: nat): State
    requires s.Shape()
    decreases n
  {
    if n == 0 then s else OwnerAlone(Apply(s, OwnerStep), n - 1)
  }

  function ThiefAlone(s: State, i: nat, n: nat): State
    requires s.Shape() && i < |s.thieves|
    decreases n
  {
    if n == 0 then s else ThiefAlone(Apply(s, ThiefStep(i)), i, n - 1)
  }

  /** What a push amounts to, and a pop by the owner, and a steal. */
  function Pushed(s: State, task: Task): State
    requires s.Shape()
  {
    s.(buffer := s.buffer[Slot(s.bottom, |s.buffer|) := task], bottom := s.bottom + 1, pushed := s.pushed + [task], owner := OwnerIdle)
  }

  function Returned(s: State, bottom: nat, top: nat, out: seq<Task>): State {
    s.(bottom := bottom, top := top, returned := s.returned + out, owner := OwnerIdle)
  }

  predicate Pushing(pc: OwnerPc) { pc.PushLoadedBottom? || pc.PushHasRoom? || pc.PushWroteSlot? }

  /** From anywhere inside a push, left alone, the owner is through in three steps, with the task of
      the call appended, or refused on a full deque. */
  lemma PushFinishes(s: State, n: nat)
    requires Inv(s) && Pushing(s.owner) && n >= 3
    ensures OwnerAlone(s, n)
            == if s.owner.PushLoadedBottom? && |Held(s)| == |s.buffer| - 1 then s.(owner := OwnerIdle) else Pushed(s, s.owner.task)
  {
    match s.owner
    case PushLoadedBottom(task, b) =>
      if b - s.top >= |s.buffer| - 1 {
        OwnerRests(s.(owner := OwnerIdle), n - 1);
      } else {
        PushWrites(s.(owner := PushHasRoom(task, b)), n - 1);
      }
    case PushHasRoom(_, _) => PushWrites(s, n);
    case PushWroteSlot(_, _) => PushPublishes(s, n);
  }

  lemma PushWrites(s: State, n: nat)
    requires s.Shape() && s.owner.PushHasRoom? && s.owner.b == s.bottom && n >= 2
    ensures OwnerAlone(s, n) == Pushed(s, s.owner.task)
  {
    PushPublishes(OwnerNext(s), n - 1);
  }

  lemma PushPublishes(s: State, n: nat)
    requires s.Shape() && s.owner.PushWroteSlot? && s.owner.b == s.bottom && s.At(s.bottom) == s.owner.task && n >= 1
    ensures OwnerAlone(s, n) == Pushed(s, s.owner.task)
  {
    assert s.buffer[Slot(s.bottom, |s.buffer|) := s.owner.task] == s.buffer;
    OwnerRests(OwnerNext(s), n - 1);
  }

  lemma {:induction false} OwnerRests(s: State, n: nat)
    requires s.Shape() && s.owner.OwnerIdle?
    ensures OwnerAlone(s, n) == s
  {
    if n > 0 { OwnerRests(s, n - 1); }
  }

  lemma {:induction false} ThiefRests(s: State, i: nat, n: nat)
    requires s.Shape() && i < |s.thieves| && s.thieves[i].ThiefIdle?
    ensures ThiefAlone(s, i, n) == s
  {
    if n > 0 { ThiefRests(s, i, n - 1); }
  }

  predicate Popping(pc: OwnerPc) { !pc.OwnerIdle? && !Pushing(pc) }

  /** What a pop under way comes to, left alone: the owner returns the task it has in hand, or else
      the newest held task, or nothing if none is held. */
  ghost function Popped(s: State): State
    requires Inv(s)
  {
    var b, held := LogicalBottom(s), Held(s);
    if InHand(s) != [] then Returned(s, b, s.top, InHand(s))
    else if held == [] then Returned(s, b, s.top, [])
    else if |held| == 1 then Returned(s, b, s.top + 1, held)
    else Returned(s, b - 1, s.top, [held[|held| - 1]])
  }

  /** From anywhere inside a pop, left alone, the owner is through in five steps. */
  lemma PopFinishes(s: State, n: nat)
    requires Inv(s) && Popping(s.owner) && n >= 5
    ensures OwnerAlone(s, n) == Popped(s)
  {
    if s.owner.PopLoadedBottom? {
      OwnerKeepsInv(s);
      if s.bottom == 0 {
        assert s.returned + [] == s.returned;
        OwnerRests(OwnerNext(s), n - 1);
      } else {
        PopLowers(OwnerNext(s), n - 1);
      }
    } else if s.owner.PopLowered? {
      PopLowers(s, n);
    } else {
      PopSettles(s, n);
    }
  }

  lemma PopLowers(s: State, n: nat)
    requires Inv(s) && s.owner.PopLowered? && n >= 4
    ensures OwnerAlone(s, n) == Popped(s)
  {
    OwnerKeepsInv(s);
    PopSettles(OwnerNext(s), n - 1);
  }

  lemma PopSettles(s: State, n: nat)
    requires Inv(s) && (s.owner.PopLoadedTop? || s.owner.PopRacing? || s.owner.PopRestoring?) && n >= 3
    ensures OwnerAlone(s, n) == Popped(s)
  {
    match s.owner
    case PopLoadedTop(nb, t) =>
      if t == nb {
        OwnerKeepsInv(s);
        PopRaces(OwnerNext(s), n - 1);
      } else {
        OwnerRests(OwnerNext(s), n - 1);
      }
    case PopRacing(_, _, _) => PopRaces(s, n);
    case PopRestoring(_, _) => PopRestores(s, n);
  }

  lemma PopRaces(s: State, n: nat)
    requires Inv(s) && s.owner.PopRacing? && n >= 2
    ensures OwnerAlone(s, n) == Popped(s)
  {
    OwnerKeepsInv(s);
    PopRestores(OwnerNext(s), n - 1);
  }

  lemma PopRestores(s: State, n: nat)
    requires Inv(s) && s.owner.PopRestoring? && n >= 1
    ensures OwnerAlone(s, n) == Popped(s)
  {
    assert s.returned + [] == s.returned;
    OwnerRests(OwnerNext(s), n - 1);
  }

  /** From anywhere inside a steal, left alone, a thief is through in three steps: with the task at
      its copy of top, if that is still top and there was work, and with nothing otherwise. */
  lemma StealFinishes(s: State, i: nat, n: nat)
    requires Inv(s) && i < |s.thieves| && !s.thieves[i].ThiefIdle? && n >= 3
    ensures var t, rest := s.thieves[i].t, s.(thieves := s.thieves[i := ThiefIdle]);
            ThiefAlone(s, i, n)
            == if t == s.top && (s.thieves[i].StealLoadedTop? ==> t < s.bottom)
               then rest.(top := t + 1, returned := s.returned + [s.At(t)]) else rest
  {
    assert ThiefOk(s, s.thieves[i]);
    match s.thieves[i]
    case StealLoadedTop(t) =>
      if t >= s.bottom { ThiefRests(ThiefNext(s, i), i, n - 1); } else { StealReads(ThiefNext(s, i), i, n - 1); }
      assert s.thieves[i := StealSawWork(t)][i := ThiefIdle] == s.thieves[i := ThiefIdle];
    case StealSawWork(_) => StealReads(s, i, n);
    case StealHasTask(_, _) => StealTakes(s, i, n);
  }

  lemma StealReads(s: State, i: nat, n: nat)
    requires s.Shape() && i < |s.thieves| && s.thieves[i].StealSawWork? && n >= 2
    ensures var t, rest := s.thieves[i].t, s.(thieves := s.thieves[i := ThiefIdle]);
            ThiefAlone(s, i, n) == if t == s.top then rest.(top := t + 1, returned := s.returned + [s.At(t)]) else rest
  {
    var t := s.thieves[i].t;
    assert s.thieves[i := StealHasTask(t, s.At(t))][i := ThiefIdle] == s.thieves[i := ThiefIdle];
    StealTakes(ThiefNext(s, i), i, n - 1);
  }

  lemma StealTakes(s: State, i: nat, n: nat)
    requires s.Shape() && i < |s.thieves| && s.thieves[i].StealHasTask? && n >= 1
    ensures var t, rest := s.thieves[i].t, s.(thieves := s.thieves[i := ThiefIdle]);
            ThiefAlone(s, i, n) == if t == s.top then rest.(top := t + 1, returned := s.returned + [s.thieves[i].task]) else rest
  {
    ThiefRests(ThiefNext(s, i), i, n - 1);
  }

  /** With the owner idle, a whole call left alone is the operation of an atomic deque: push
      appends its task if there is room, pop takes the newest task, steal the oldest. */
  lemma CallsAlone(s: State, task: Task, i: nat)
    requires Inv(s) && s.owner.OwnerIdle? && i < |s.thieves| && s.thieves[i].ThiefIdle?
    ensures var u := OwnerAlone(Apply(s, CallPush(task)), 3);
            Inv(u) && u.owner.OwnerIdle? && Held(u) == if |Held(s)| < |s.buffer| - 1 then Held(s) + [task] else Held(s)
    ensures var u, h := OwnerAlone(Apply(s, CallPop), 5), Held(s);
            && Inv(u) && u.owner.OwnerIdle? && Held(u) == (if h == [] then h else h[..|h| - 1])
            && u.returned == s.returned + if h == [] then [] else [h[|h| - 1]]
    ensures var u, h := ThiefAlone(Apply(s, CallSteal(i)), i, 3), Held(s);
            && Inv(u) && u.thieves == s.thieves && Held(u) == (if h == [] then h else h[1..])
            && u.returned == s.returned + if h == [] then [] else [h[0]]
  {
    PushCall(s, task);
    PopCall(s);
    StealCall(s, i);
  }

  lemma {:induction false} OwnerAloneInv(s: State, n: nat)
    requires Inv(s)
    ensures Inv(OwnerAlone(s, n))
    decreases n
  {
    if n > 0 {
      OwnerKeepsInv(s);
      OwnerAloneInv(OwnerNext(s), n - 1);
    }
  }

  lemma {:induction false} ThiefAloneInv(s: State, i: nat, n: nat)
    requires Inv(s) && i < |s.thieves|
    ensures Inv(ThiefAlone(s, i, n))
    decreases n
  {
    if n > 0 {
      ThiefKeepsInv(s, i);
      ThiefAloneInv(ThiefNext(s, i), i, n - 1);
    }
  }

  lemma PushCall(s: State, task: Task)
    requires Inv(s) && s.owner.OwnerIdle?
    ensures var u := OwnerAlone(Apply(s, CallPush(task)), 3);
            Inv(u) && u.owner.OwnerIdle? && Held(u) == if |Held(s)| < |s.buffer| - 1 then Held(s) + [task] else Held(s)
  {
    var s1 := Apply(s, CallPush(task));
    StepRefinesDeque(s, CallPush(task));
    PushFinishes(s1, 3);
    OwnerAloneInv(s1, 3);
    WindowFrame(s.buffer, s.top, s.bottom, s.bottom, task);
  }

  lemma PopCall(s: State)
    requires Inv(s) && s.owner.OwnerIdle?
    ensures var u, h := OwnerAlone(Apply(s, CallPop), 5), Held(s);
            && Inv(u) && u.owner.OwnerIdle? && Held(u) == (if h == [] then h else h[..|h| - 1])
            && u.returned == s.returned + if h == [] then [] else [h[|h| - 1]]
  {
    var s1 := Apply(s, CallPop);
    StepRefinesDeque(s, CallPop);
    PopFinishes(s1, 5);
    OwnerAloneInv(s1, 5);
  }

  lemma StealCall(s: State, i: nat)
    requires Inv(s) && s.owner.OwnerIdle? && i < |s.thieves| && s.thieves[i].ThiefIdle?
    ensures var u, h := ThiefAlone(Apply(s, CallSteal(i)), i, 3), Held(s);
            && Inv(u) && u.thieves == s.thieves && Held(u) == (if h == [] then h else h[1..])
            && u.returned == s.returned + if h == [] then [] else [h[0]]
  {
    var s1 := Apply(s, CallSteal(i));
    StepRefinesDeque(s, CallSteal(i));
    StealFinishes(s1, i, 3);
    ThiefAloneInv(s1, i, 3);
    assert s1.thieves[i := ThiefIdle] == s.thieves;
  }
}
