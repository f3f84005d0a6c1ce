/** The thread pool's count of pending tasks, from submission to completion.

    The containers (worker deques, priority lists, rings) are linearizable collections here;
    a put appends, a take removes any one task, which covers popping, stealing and ring
    order. One atomic access, one put or one take is a step. Any thread may submit, also a
    worker from inside the task it runs. Waking, pausing and futures do not touch the count. */
module PoolAccounting {
  import opened Basics

  type Task = nat

  /** Where a thread stands inside a submit call. */
  datatype Submit =
    | NoSubmit
    | SawRunning
    | Enqueuing(task: Task)
    | Refused(task: Task)

  /** Where a worker stands in its loop; `Outside` is a thread that is no worker. `Ran` is
      a task whose function has returned and which is still counted. */
  datatype Work =
    | Outside
    | AtTop
    | SawGraceful
    | Looking
    | Running(task: Task)
    | Ran(task: Task)
    | Exited(graceful: bool)

  datatype Thread = Thread(submit: Submit, work: Work)

  datatype Mode = Open | Graceful | Immediate

  /** How far a task has come. */
  datatype Stage = BeingQueued(thread: nat) | Queued(bag: nat) | Held(thread: nat) | Done | Dropped

  /** `stage[t]` tells where task t is, `started` lists the tasks whose function was called,
      in order; both are history. */
  datatype State = State(
    threads: seq<Thread>,
    bags: seq<seq<Task>>,
    pending: int,
    running: bool,
    mode: Mode,
    stage: seq<Stage>,
    started: seq<Task>)
  {
    function Set(i: nat, t: Thread): State
      requires i < |threads|
    {
      this.(threads := threads[i := t])
    }
  }

  /** `put` names the container tried, `room` whether it takes the task, `last` whether it is the
      last one tried, and `more` whether a batch goes on with a further task, without looking
      again whether the pool is running; `take` names a container and `at` a task in it. */
  datatype Action =
    | CallSubmit(thread: nat)
    | SubmitStep(thread: nat, put: nat, room: bool, last: bool, more: bool)
    | WorkStep(thread: nat, take: nat, at: nat)
    | CloseMode(how: Mode)
    | CloseRunning

  function Init(workers: nat, others: nat, bags: nat): State {
    State(seq(workers + others, i => if i < workers then Thread(NoSubmit, AtTop) else Thread(NoSubmit, Outside)),
          seq(bags, _ => []), 0, true, Open, [], [])
  }

  function SubmitNext(s: State, i: nat, put: nat, room: bool, last: bool, more: bool): State
    requires i < |s.threads|
  {
    var t := s.threads[i];
    match t.submit
    case NoSubmit => s
    case SawRunning =>
      // the new task, if there is memory for it, is counted before it is queued
      if !room then s.Set(i, t.(submit := NoSubmit))
      else s.Set(i, t.(submit := Enqueuing(|s.stage|))).(pending := s.pending + 1, stage := s.stage + [BeingQueued(i)])
    case Enqueuing(task) =>
      if room && put < |s.bags| && task < |s.stage|
      then s.Set(i, t.(submit := if more then SawRunning else NoSubmit)).(bags := s.bags[put := s.bags[put] + [task]], stage := s.stage[task := Queued(put)])
      else if last then s.Set(i, t.(submit := Refused(task)))
      else s
    case Refused(task) =>
      if task < |s.stage|
      then s.Set(i, t.(submit := NoSubmit)).(pending := s.pending - 1, stage := s.stage[task := Dropped])
      else s
  }

  function Remove(q: seq<Task>, k: nat): seq<Task>
    requires k < |q|
  {
    q[..k] + q[k + 1..]
  }

  function WorkNext(s: State, i: nat, take: nat, at: nat): State
    requires i < |s.threads|
  {
    var t := s.threads[i];
    match t.work
    case AtTop =>
      if s.mode.Immediate? then s.Set(i, t.(work := Exited(false)))
      else if s.mode.Graceful? then s.Set(i, t.(work := SawGraceful))
      else s.Set(i, t.(work := Looking))
    case SawGraceful =>
      if s.pending == 0 then s.Set(i, t.(work := Exited(true))) else s.Set(i, t.(work := Looking))
    case Looking =>
      if take < |s.bags| && at < |s.bags[take]| && s.bags[take][at] < |s.stage| then
        var task := s.bags[take][at];
        s.Set(i, t.(work := Running(task)))
         .(bags := s.bags[take := Remove(s.bags[take], at)], stage := s.stage[task := Held(i)], started := s.started + [task])
      else s.Set(i, t.(work := AtTop))
    case Running(task) => s.Set(i, t.(work := Ran(task)))
    case Ran(task) =>
      if task < |s.stage|
      then s.Set(i, t.(work := AtTop)).(pending := s.pending - 1, stage := s.stage[task := Done])
      else s
    case _ => s
  }

  function Apply(s: State, a: Action): State {
    match a
    case CallSubmit(i) =>
      if i < |s.threads| && s.threads[i].submit.NoSubmit? && (s.threads[i].work.Outside? || s.threads[i].work.Running?) && s.running
      then s.Set(i, s.threads[i].(submit := SawRunning))
      else s
    case SubmitStep(i, put, room, last, more) => if i < |s.threads| then SubmitNext(s, i, put, room, last, more) else s
    case WorkStep(i, take, at) => if i < |s.threads| && s.threads[i].submit.NoSubmit? then WorkNext(s, i, take, at) else s
    case CloseMode(how) => if how.Open? then s else s.(mode := how)
    case CloseRunning => if s.mode.Open? then s else s.(running := false)
  }

  function Exec(s: State, actions: seq<Action>): State
    decreases |actions|
  {
    if actions == [] then s else Exec(Apply(s, actions[0]), actions[1..])
  }

  // ---------------------------------------------------------------------------
  // Counting
  // ---------------------------------------------------------------------------

  /** Tasks a thread holds: one being queued or refused, one running or ran. */
  function Holds(t: Thread): nat {
    (if t.submit.Enqueuing? || t.submit.Refused? then 1 else 0) + (if t.work.Running? || t.work.Ran? then 1 else 0)
  }

  function HeldByThreads(ts: seq<Thread>): nat {
    if ts == [] then 0 else Holds(ts[0]) + HeldByThreads(ts[1..])
  }

  function QueuedIn(bags: seq<seq<Task>>): nat {
    if bags == [] then 0 else |bags[0]| + QueuedIn(bags[1..])
  }

  lemma {:induction false} HeldAfter(ts: seq<Thread>, i: nat, t: Thread)
    requires i < |ts|
    ensures HeldByThreads(ts[i := t]) + Holds(ts[i]) == HeldByThreads(ts) + Holds(t)
  {
    if i == 0 {
      assert ts[i := t][1..] == ts[1..];
    } else {
      HeldAfter(ts[1..], i - 1, t);
      assert ts[i := t][1..] == ts[1..][i - 1 := t];
    }
  }

  lemma {:induction false} QueuedAfter(bags: seq<seq<Task>>, b: nat, q: seq<Task>)
    requires b < |bags|
    ensures QueuedIn(bags[b := q]) + |bags[b]| == QueuedIn(bags) + |q|
  {
    if b == 0 {
      assert bags[b := q][1..] == bags[1..];
    } else {
      QueuedAfter(bags[1..], b - 1, q);
      assert bags[b := q][1..] == bags[1..][b - 1 := q];
    }
  }

  lemma {:induction false} NoneHeld(ts: seq<Thread>, i: nat)
    requires HeldByThreads(ts) == 0 && i < |ts|
    ensures Holds(ts[i]) == 0
  {
    if i > 0 { NoneHeld(ts[1..], i - 1); }
  }

  lemma {:induction false} NoneQueued(bags: seq<seq<Task>>, b: nat)
    requires QueuedIn(bags) == 0 && b < |bags|
    ensures bags[b] == []
  {
    if b > 0 { NoneQueued(bags[1..], b - 1); }
  }

  lemma {:induction false} NothingYet(ts: seq<Thread>)
    requires forall i :: 0 <= i < |ts| ==> Holds(ts[i]) == 0
    ensures HeldByThreads(ts) == 0
  {
    if ts != [] { NothingYet(ts[1..]); }
  }

  lemma {:induction false} EmptyBags(bags: seq<seq<Task>>)
    requires forall b :: 0 <= b < |bags| ==> bags[b] == []
    ensures QueuedIn(bags) == 0
  {
    if bags != [] { EmptyBags(bags[1..]); }
  }

  // ---------------------------------------------------------------------------
  // Invariant
  // ---------------------------------------------------------------------------

  /** What a thread holds is where the history says it is. */
  predicate ThreadOk(s: State, i: nat)
    requires i < |s.threads|
  {
    var t := s.threads[i];
    && (t.submit.Enqueuing? || t.submit.Refused? ==> t.submit.task < |s.stage| && s.stage[t.submit.task] == BeingQueued(i))
    && (t.work.Running? || t.work.Ran? ==> t.work.task < |s.stage| && s.stage[t.work.task] == Held(i))
  }

  predicate BagOk(s: State, b: nat)
    requires b < |s.bags|
  {
    Distinct(s.bags[b]) && forall t :: t in s.bags[b] ==> t < |s.stage| && s.stage[t] == Queued(b)
  }

  /** A task is where the history says it is, and has been started exactly if it got that far. */
  predicate TaskOk(s: State, t: Task)
    requires t < |s.stage|
  {
    && (t in s.started <==> s.stage[t].Held? || s.stage[t].Done?)
    && match s.stage[t]
       case BeingQueued(i) =>
         && i < |s.threads|
         && (s.threads[i].submit.Enqueuing? || s.threads[i].submit.Refused?) && s.threads[i].submit.task == t
       case Queued(b) => b < |s.bags| && t in s.bags[b]
       case Held(i) => i < |s.threads| && (s.threads[i].work.Running? || s.threads[i].work.Ran?) && s.threads[i].work.task == t
       case _ => true
  }

  ghost predicate Inv(s: State) {
    && s.pending == HeldByThreads(s.threads) + QueuedIn(s.bags)
    && (forall i :: 0 <= i < |s.threads| ==> ThreadOk(s, i))
    && (forall b :: 0 <= b < |s.bags| ==> BagOk(s, b))
    && (forall t :: 0 <= t < |s.stage| ==> TaskOk(s, t))
    && Distinct(s.started) && (forall t :: t in s.started ==> t < |s.stage|)
  }

  lemma InitInv(workers: nat, others: nat, bags: nat)
    ensures Inv(Init(workers, others, bags))
  {
    NothingYet(Init(workers, others, bags).threads);
    EmptyBags(Init(workers, others, bags).bags);
  }

  // ---------------------------------------------------------------------------
  // Every step keeps the invariant
  // ---------------------------------------------------------------------------

  /** A thread moves on with the same tasks in its hands. */
  lemma QuietKeepsInv(s: State, i: nat, t: Thread)
    requires Inv(s) && i < |s.threads| && SameTasks(s.threads[i], t)
    ensures Inv(s.Set(i, t))
  {
    var s' := s.Set(i, t);
    HeldAfter(s.threads, i, t);
    assert ThreadOk(s, i);
    forall j | 0 <= j < |s'.threads| ensures ThreadOk(s', j) { assert ThreadOk(s, j); }
    forall b | 0 <= b < |s'.bags| ensures BagOk(s', b) { assert BagOk(s, b); }
    forall x | 0 <= x < |s'.stage| ensures TaskOk(s', x) { assert TaskOk(s, x); }
  }

  predicate SameTasks(t: Thread, u: Thread) {
    && (t.submit.Enqueuing? || t.submit.Refused? <==> u.submit.Enqueuing? || u.submit.Refused?)
    && (t.submit.Enqueuing? || t.submit.Refused? ==> t.submit.task == u.submit.task)
    && (t.work.Running? || t.work.Ran? <==> u.work.Running? || u.work.Ran?)
    && (t.work.Running? || t.work.Ran? ==> t.work.task == u.work.task)
  }

  lemma CountKeepsInv(s: State, i: nat, put: nat, room: bool, last: bool, more: bool)
    requires Inv(s) && i < |s.threads| && s.threads[i].submit.SawRunning?
    ensures Inv(SubmitNext(s, i, put, room, last, more))
  {
    var s' := SubmitNext(s, i, put, room, last, more);
    assert ThreadOk(s, i);
    HeldAfter(s.threads, i, s'.threads[i]);
    forall j | 0 <= j < |s'.threads| ensures ThreadOk(s', j) { assert ThreadOk(s, j); }
    forall b | 0 <= b < |s'.bags| ensures BagOk(s', b) { assert BagOk(s, b); }
    forall x | 0 <= x < |s'.stage| ensures TaskOk(s', x) { assert x < |s.stage| ==> TaskOk(s, x); }
  }

  lemma PutKeepsInv(s: State, i: nat, put: nat, last: bool, more: bool)
    requires Inv(s) && i < |s.threads| && s.threads[i].submit.Enqueuing? && put < |s.bags|
    ensures Inv(SubmitNext(s, i, put, true, last, more))
  {
    var s', task := SubmitNext(s, i, put, true, last, more), s.threads[i].submit.task;
    assert ThreadOk(s, i);
    HeldAfter(s.threads, i, s'.threads[i]);
    QueuedAfter(s.bags, put, s.bags[put] + [task]);
    forall j | 0 <= j < |s'.threads| ensures ThreadOk(s', j) { assert ThreadOk(s, j); }
    forall b | 0 <= b < |s'.bags| ensures BagOk(s', b) { assert BagOk(s, b); }
    forall x | 0 <= x < |s'.stage| ensures TaskOk(s', x) { assert TaskOk(s, x); }
  }

  lemma UncountKeepsInv(s: State, i: nat, put: nat, room: bool, last: bool, more: bool)
    requires Inv(s) && i < |s.threads| && s.threads[i].submit.Refused?
    ensures Inv(SubmitNext(s, i, put, room, last, more))
  {
    var s' := SubmitNext(s, i, put, room, last, more);
    assert ThreadOk(s, i);
    HeldAfter(s.threads, i, s'.threads[i]);
    forall j | 0 <= j < |s'.threads| ensures ThreadOk(s', j) { assert ThreadOk(s, j); }
    forall b | 0 <= b < |s'.bags| ensures BagOk(s', b) { assert BagOk(s, b); }
    forall x | 0 <= x < |s'.stage| ensures TaskOk(s', x) { assert TaskOk(s, x); }
  }

  lemma RemoveOne(q: seq<Task>, k: nat)
    requires k < |q| && Distinct(q)
    ensures Distinct(Remove(q, k)) && |Remove(q, k)| == |q| - 1
    ensures forall t :: t in Remove(q, k) <==> t in q && t != q[k]
  {
    forall t | t in q && t != q[k] ensures t in Remove(q, k) {
      var j :| 0 <= j < |q| && q[j] == t;
      if j < k { assert q[..k][j] == t; } else { assert q[k + 1..][j - k - 1] == t; }
    }
  }

  lemma TakeKeepsInv(s: State, i: nat, take: nat, at: nat)
    requires Inv(s) && i < |s.threads| && s.threads[i].work.Looking? && take < |s.bags| && at < |s.bags[take]|
    ensures Inv(WorkNext(s, i, take, at))
  {
    var s', task := WorkNext(s, i, take, at), s.bags[take][at];
    assert BagOk(s, take) && task in s.bags[take];
    assert TaskOk(s, task);
    RemoveOne(s.bags[take], at);
    HeldAfter(s.threads, i, s'.threads[i]);
    QueuedAfter(s.bags, take, Remove(s.bags[take], at));
    forall j | 0 <= j < |s'.threads| ensures ThreadOk(s', j) { assert ThreadOk(s, j); }
    forall b | 0 <= b < |s'.bags| ensures BagOk(s', b) { assert BagOk(s, b); }
    forall x | 0 <= x < |s'.stage| ensures TaskOk(s', x) { TakeKeepsTask(s, i, take, at, x); }
  }

  lemma TakeKeepsTask(s: State, i: nat, take: nat, at: nat, x: nat)
    requires Inv(s) && i < |s.threads| && s.threads[i].work.Looking? && take < |s.bags| && at < |s.bags[take]|
    requires x < |s.stage|
    ensures TaskOk(WorkNext(s, i, take, at), x)
  {
    assert BagOk(s, take) && s.bags[take][at] in s.bags[take];
    assert TaskOk(s, x) && TaskOk(s, s.bags[take][at]);
    RemoveOne(s.bags[take], at);
  }

  lemma FinishKeepsInv(s: State, i: nat, take: nat, at: nat)
    requires Inv(s) && i < |s.threads| && s.threads[i].work.Ran?
    ensures Inv(WorkNext(s, i, take, at))
  {
    var s' := WorkNext(s, i, take, at);
    assert ThreadOk(s, i);
    HeldAfter(s.threads, i, s'.threads[i]);
    forall j | 0 <= j < |s'.threads| ensures ThreadOk(s', j) { assert ThreadOk(s, j); }
    forall b | 0 <= b < |s'.bags| ensures BagOk(s', b) { assert BagOk(s, b); }
    forall x | 0 <= x < |s'.stage| ensures TaskOk(s', x) { assert TaskOk(s, x); }
  }

  lemma SubmitKeepsInv(s: State, i: nat, put: nat, room: bool, last: bool, more: bool)
    requires Inv(s) && i < |s.threads|
    ensures Inv(SubmitNext(s, i, put, room, last, more))
  {
    var t := s.threads[i];
    assert ThreadOk(s, i);
    match t.submit
    case NoSubmit =>
    case SawRunning => CountKeepsInv(s, i, put, room, last, more);
    case Enqueuing(task) =>
      if room && put < |s.bags| { PutKeepsInv(s, i, put, last, more); }
      else if last { QuietKeepsInv(s, i, t.(submit := Refused(task))); }
    case Refused(_) => UncountKeepsInv(s, i, put, room, last, more);
  }

  lemma WorkKeepsInv(s: State, i: nat, take: nat, at: nat)
    requires Inv(s) && i < |s.threads|
    ensures Inv(WorkNext(s, i, take, at))
  {
    match s.threads[i].work
    case Outside =>
    case Exited(_) =>
    case Looking =>
      if take < |s.bags| && at < |s.bags[take]| {
        assert BagOk(s, take) && s.bags[take][at] in s.bags[take];
        TakeKeepsInv(s, i, take, at);
      } else {
        QuietKeepsInv(s, i, WorkNext(s, i, take, at).threads[i]);
      }
    case Ran(_) => FinishKeepsInv(s, i, take, at);
    case _ => QuietKeepsInv(s, i, WorkNext(s, i, take, at).threads[i]);
  }

  lemma StepKeepsInv(s: State, a: Action)
    requires Inv(s)
    ensures Inv(Apply(s, a))
  {
    match a
    case CallSubmit(i) => if Apply(s, a) != s { QuietKeepsInv(s, i, s.threads[i].(submit := SawRunning)); }
    case SubmitStep(i, put, room, last, more) => if i < |s.threads| { SubmitKeepsInv(s, i, put, room, last, more); }
    case WorkStep(i, take, at) => if i < |s.threads| { WorkKeepsInv(s, i, take, at); }
    case CloseMode(_) => ModeKeepsInv(s, Apply(s, a));
    case CloseRunning => ModeKeepsInv(s, Apply(s, a));
  }

  lemma ModeKeepsInv(s: State, s': State)
    requires Inv(s) && s' == s.(mode := s'.mode, running := s'.running)
    ensures Inv(s')
  {
    forall j | 0 <= j < |s'.threads| ensures ThreadOk(s', j) { assert ThreadOk(s, j); }
    forall b | 0 <= b < |s'.bags| ensures BagOk(s', b) { assert BagOk(s, b); }
    forall x | 0 <= x < |s'.stage| ensures TaskOk(s', x) { assert TaskOk(s, x); }
  }

  lemma {:induction false} RunKeepsInv(s: State, actions: seq<Action>)
    requires Inv(s)
    ensures Inv(Exec(s, actions))
    decreases |actions|
  {
    if actions != [] {
      StepKeepsInv(s, actions[0]);
      RunKeepsInv(Apply(s, actions[0]), actions[1..]);
    }
  }

  // ---------------------------------------------------------------------------
  // What the count means
  // ---------------------------------------------------------------------------

  /** In every reachable state the count is the number of tasks being queued, queued or
      running, and no task has been started twice. */
  lemma PoolSafety(workers: nat, others: nat, bags: nat, actions: seq<Action>)
    ensures var s := Exec(Init(workers, others, bags), actions);
            s.pending == HeldByThreads(s.threads) + QueuedIn(s.bags) && Distinct(s.started)
  {
    InitInv(workers, others, bags);
    RunKeepsInv(Init(workers, others, bags), actions);
  }

  /** When the count is zero nobody is queueing or running anything, every container is
      empty, and every task counted so far was refused or has run to its end, once. */
  lemma ZeroMeansDone(s: State)
    requires Inv(s) && s.pending == 0
    ensures forall i :: 0 <= i < |s.threads| ==> Holds(s.threads[i]) == 0
    ensures forall b :: 0 <= b < |s.bags| ==> s.bags[b] == []
    ensures forall t :: 0 <= t < |s.stage| ==> s.stage[t].Dropped? || (s.stage[t].Done? && t in s.started)
  {
    forall i | 0 <= i < |s.threads| ensures Holds(s.threads[i]) == 0 { NoneHeld(s.threads, i); }
    forall b | 0 <= b < |s.bags| ensures s.bags[b] == [] { NoneQueued(s.bags, b); }
    forall t | 0 <= t < |s.stage| ensures s.stage[t].Dropped? || (s.stage[t].Done? && t in s.started) {
      assert TaskOk(s, t);
    }
  }

  /** A worker that leaves on a graceful shutdown does so at such a moment. */
  lemma GracefulExit(workers: nat, others: nat, bags: nat, actions: seq<Action>, i: nat, take: nat, at: nat)
    requires var s := Exec(Init(workers, others, bags), actions);
             i < |s.threads| && !s.threads[i].work.Exited? && Apply(s, WorkStep(i, take, at)).threads[i].work == Exited(true)
    ensures var s := Exec(Init(workers, others, bags), actions);
            && (forall j :: 0 <= j < |s.threads| ==> Holds(s.threads[j]) == 0)
            && (forall b :: 0 <= b < |s.bags| ==> s.bags[b] == [])
            && (forall t :: 0 <= t < |s.stage| ==> s.stage[t].Dropped? || (s.stage[t].Done? && t in s.started))
  {
    InitInv(workers, others, bags);
    RunKeepsInv(Init(workers, others, bags), actions);
    ZeroMeansDone(Exec(Init(workers, others, bags), actions));
  }

  // ---------------------------------------------------------------------------
  // Tasks counted after a graceful exit
  // ---------------------------------------------------------------------------

  predicate Settled(s: State, t: Task) { t < |s.stage| && (s.stage[t].Done? || s.stage[t].Dropped?) }

  /** A task that is done or dropped stays so. */
  lemma {:induction false} SettledStays(s: State, actions: seq<Action>, t: Task)
    requires Inv(s) && Settled(s, t)
    ensures Settled(Exec(s, actions), t)
    decreases |actions|
  {
    if actions != [] {
      SettledStep(s, actions[0], t);
      StepKeepsInv(s, actions[0]);
      SettledStays(Apply(s, actions[0]), actions[1..], t);
    }
  }

  lemma SettledStep(s: State, a: Action, t: Task)
    requires Inv(s) && Settled(s, t)
    ensures Settled(Apply(s, a), t)
  {
    if (a.SubmitStep? || a.WorkStep?) && a.thread < |s.threads| {
      assert ThreadOk(s, a.thread);
      if a.WorkStep? && a.take < |s.bags| && a.at < |s.bags[a.take]| {
        assert BagOk(s, a.take) && s.bags[a.take][a.at] in s.bags[a.take];
      }
    }
  }

  /** Whatever happens after a worker's graceful exit, the tasks counted before it are dealt
      with: only tasks counted after it can be left over. */
  lemma LeftOversAreLate(s: State, i: nat, take: nat, at: nat, later: seq<Action>, t: Task)
    requires Inv(s) && i < |s.threads| && s.threads[i] == Thread(NoSubmit, SawGraceful) && s.pending == 0
    ensures Apply(s, WorkStep(i, take, at)).threads[i].work == Exited(true)
    ensures t < |s.stage| ==> Settled(Exec(Apply(s, WorkStep(i, take, at)), later), t)
  {
    if t < |s.stage| {
      ZeroMeansDone(s);
      StepKeepsInv(s, WorkStep(i, take, at));
      SettledStays(Apply(s, WorkStep(i, take, at)), later, t);
    }
  }

  predicate NoWorkerLeft(s: State) {
    forall i :: 0 <= i < |s.threads| ==> s.threads[i].work.Outside? || s.threads[i].work.Exited?
  }

  /** Once no worker is left, graceful or not, no task is ever started again. */
  lemma {:induction false} NothingStarts(s: State, later: seq<Action>)
    requires NoWorkerLeft(s)
    ensures NoWorkerLeft(Exec(s, later)) && Exec(s, later).started == s.started
    decreases |later|
  {
    if later != [] {
      NothingStartsNow(s, later[0]);
      NothingStarts(Apply(s, later[0]), later[1..]);
    }
  }

  lemma {:induction false} NothingStartsNow(s: State, a: Action)
    requires NoWorkerLeft(s)
    ensures NoWorkerLeft(Apply(s, a)) && Apply(s, a).started == s.started
  {
  }

  /** Which tasks are left over, exactly: when the last worker leaves gracefully at `s`, then at
      every later moment a task has been started if and only if it was counted before that exit
      and not refused. So an accepted task never runs exactly if it was counted later. */
  lemma StartedExactly(s: State, i: nat, take: nat, at: nat, later: seq<Action>, t: Task)
    requires Inv(s) && i < |s.threads| && s.threads[i] == Thread(NoSubmit, SawGraceful) && s.pending == 0
    requires NoWorkerLeft(Apply(s, WorkStep(i, take, at)))
    ensures var e := Exec(Apply(s, WorkStep(i, take, at)), later);
            t < |e.stage| ==> (t in e.started <==> t < |s.stage| && !s.stage[t].Dropped?)
  {
    var s' := Apply(s, WorkStep(i, take, at));
    NothingStarts(s', later);
    ZeroMeansDone(s);
    if t < |s.stage| { assert TaskOk(s, t); }
  }

  lemma {:induction false} StageGrows(s: State, actions: seq<Action>)
    ensures |Exec(s, actions).stage| >= |s.stage|
    decreases |actions|
  {
    if actions != [] { StageGrows(Apply(s, actions[0]), actions[1..]); }
  }

  lemma {:induction false} ExecAppend(s: State, a: seq<Action>, b: seq<Action>)
    ensures Exec(s, a + b) == Exec(Exec(s, a), b)
    decreases |a|
  {
    if a == [] {
      assert a + b == b;
    } else {
      assert (a + b)[1..] == a[1..] + b;
      ExecAppend(Apply(s, a[0]), a[1..], b);
    }
  }

  /** For a caller: a task counted before the shutdown was asked for has run, or was refused, by
      the time any worker leaves gracefully. */
  lemma CountedBeforeShutdown(workers: nat, others: nat, bags: nat, before: seq<Action>, after: seq<Action>,
                              i: nat, take: nat, at: nat, t: Task)
    requires t < |Exec(Init(workers, others, bags), before).stage|
    requires var s := Exec(Init(workers, others, bags), before + ([CloseMode(Graceful)] + after));
             i < |s.threads| && !s.threads[i].work.Exited? && Apply(s, WorkStep(i, take, at)).threads[i].work == Exited(true)
    ensures var s := Exec(Init(workers, others, bags), before + ([CloseMode(Graceful)] + after));
            t < |s.stage| && (s.stage[t].Dropped? || (s.stage[t].Done? && t in s.started))
  {
    var s0, all := Init(workers, others, bags), before + ([CloseMode(Graceful)] + after);
    ExecAppend(s0, before, [CloseMode(Graceful)] + after);
    StageGrows(Exec(s0, before), [CloseMode(Graceful)] + after);
    GracefulExit(workers, others, bags, all, i, take, at);
  }

  lemma ExecSeven(acts: seq<Action>, s0: State, s1: State, s2: State, s3: State, s4: State, s5: State, s6: State, s7: State)
    requires |acts| == 7
    requires s1 == Apply(s0, acts[0]) && s2 == Apply(s1, acts[1]) && s3 == Apply(s2, acts[2]) && s4 == Apply(s3, acts[3])
    requires s5 == Apply(s4, acts[4]) && s6 == Apply(s5, acts[5]) && s7 == Apply(s6, acts[6])
    ensures Exec(s0, acts) == s7
  {
    assert Exec(s0, acts) == Exec(s1, acts[1..]);
    assert Exec(s1, acts[1..]) == Exec(s2, acts[2..]);
    assert Exec(s2, acts[2..]) == Exec(s3, acts[3..]);
    assert Exec(s3, acts[3..]) == Exec(s4, acts[4..]);
    assert Exec(s4, acts[4..]) == Exec(s5, acts[5..]);
    assert Exec(s5, acts[5..]) == Exec(s6, acts[6..]);
    assert Exec(s6, acts[6..]) == Exec(s7, acts[7..]);
  }

  const LateSubmit: seq<Action> :=
    [CallSubmit(1), CloseMode(Graceful), CloseRunning, WorkStep(0, 0, 0), WorkStep(0, 0, 0),
     SubmitStep(1, 0, true, true, false), SubmitStep(1, 0, true, true, false)]

  /** And such tasks exist: a submitter that saw the pool running before the shutdown gets its
      task accepted after the only worker has left. */
  lemma AcceptedAndLeftOver()
    ensures var s := Exec(Init(1, 1, 1), LateSubmit);
            && s.threads == [Thread(NoSubmit, Exited(true)), Thread(NoSubmit, Outside)]
            && s.bags == [[0]] && s.started == []
  {
    var away, idle := Thread(NoSubmit, Exited(true)), Thread(NoSubmit, Outside);
    var top := Thread(NoSubmit, AtTop);
    var entered := Thread(SawRunning, Outside);
    var s0 := State([top, idle], [[]], 0, true, Open, [], []);
    assert Init(1, 1, 1) == s0;
    var s1 := s0.(threads := [top, entered]);
    var s2 := s1.(mode := Graceful);
    var s3 := s2.(running := false);
    var s4 := s3.(threads := [Thread(NoSubmit, SawGraceful), entered]);
    var s5 := s4.(threads := [away, entered]);
    var s6 := s5.(threads := [away, Thread(Enqueuing(0), Outside)], pending := 1, stage := [BeingQueued(1)]);
    var s7 := s6.(threads := [away, idle], bags := [[0]], stage := [Queued(0)]);
    assert Apply(s6, LateSubmit[6]) == s7 by {
      var zero: Task := 0;
      assert s6.bags[0] + [zero] == [zero];
      assert s6.bags[0 := s6.bags[0] + [zero]] == [[zero]];
      assert s6.stage[0 := Queued(0)] == [Queued(0)];
      assert s6.threads[1 := idle] == [away, idle];
    }
    ExecSeven(LateSubmit, s0, s1, s2, s3, s4, s5, s6, s7);
  }

  // ---------------------------------------------------------------------------
  // A call left alone
  // ---------------------------------------------------------------------------

  /** A submit left alone, on a running pool with room, leaves one more task counted and queued. */
  lemma SubmitQueues(s: State, i: nat, put: nat)
    requires i < |s.threads| && s.threads[i].submit.NoSubmit? && (s.threads[i].work.Outside? || s.threads[i].work.Running?)
    requires s.running && put < |s.bags|
    ensures var s1 := Apply(s, CallSubmit(i));
            var u := Apply(Apply(s1, SubmitStep(i, put, true, false, false)), SubmitStep(i, put, true, false, false));
            u == s.(bags := s.bags[put := s.bags[put] + [|s.stage|]], pending := s.pending + 1, stage := s.stage + [Queued(put)])
  {
    var t := s.threads[i];
    assert s.threads[i := t] == s.threads;
    assert (s.stage + [BeingQueued(i)])[|s.stage| := Queued(put)] == s.stage + [Queued(put)];
    var s1 := Apply(s, CallSubmit(i));
    var s2 := Apply(s1, SubmitStep(i, put, true, false, false));
    assert s2.threads == s.threads[i := t.(submit := Enqueuing(|s.stage|))];
    assert s2.threads[i := t] == s.threads;
  }

  /** One that finds no room anywhere leaves the count as it was and the task refused. */
  lemma SubmitGivesUp(s: State, i: nat, put: nat)
    requires i < |s.threads| && s.threads[i].submit.NoSubmit? && (s.threads[i].work.Outside? || s.threads[i].work.Running?) && s.running
    ensures var s2 := Apply(Apply(s, CallSubmit(i)), SubmitStep(i, put, true, false, false));
            var u := Apply(Apply(s2, SubmitStep(i, put, false, true, false)), SubmitStep(i, put, false, false, false));
            u == s.(stage := s.stage + [Dropped])
  {
    var t := s.threads[i];
    assert (s.stage + [BeingQueued(i)])[|s.stage| := Dropped] == s.stage + [Dropped];
    var s2 := Apply(Apply(s, CallSubmit(i)), SubmitStep(i, put, true, false, false));
    var s3 := Apply(s2, SubmitStep(i, put, false, true, false));
    assert s3.threads == s.threads[i := t.(submit := Refused(|s.stage|))];
    assert s3.threads[i := t] == s.threads;
  }

  /** Once a shutdown has cleared the flag and no submit is under way, no task is counted any more. */
  lemma {:induction false} NothingAccepted(s: State, later: seq<Action>)
    requires !s.running && forall i :: 0 <= i < |s.threads| ==> s.threads[i].submit.NoSubmit? || s.threads[i].submit.Refused?
    ensures |Exec(s, later).stage| == |s.stage|
    decreases |later|
  {
    if later != [] {
      NothingAcceptedNow(s, later[0]);
      NothingAccepted(Apply(s, later[0]), later[1..]);
    }
  }

  lemma NothingAcceptedNow(s: State, a: Action)
    requires !s.running && forall i :: 0 <= i < |s.threads| ==> s.threads[i].submit.NoSubmit? || s.threads[i].submit.Refused?
    ensures var s' := Apply(s, a);
            && !s'.running && |s'.stage| == |s.stage|
            && forall i :: 0 <= i < |s'.threads| ==> s'.threads[i].submit.NoSubmit? || s'.threads[i].submit.Refused?
  {
  }

  /** Where a worker at the top of its loop goes: it leaves at once on an immediate shutdown, on a
      graceful one when nothing is pending, and looks for work otherwise. */
  lemma GoesOnExactly(s: State, i: nat, take: nat, at: nat)
    requires i < |s.threads| && s.threads[i] == Thread(NoSubmit, AtTop)
    ensures var s1 := Apply(s, WorkStep(i, take, at));
            var u := if s1.threads[i].work.SawGraceful? then Apply(s1, WorkStep(i, take, at)) else s1;
            var work := if s.mode.Immediate? then Exited(false)
                        else if s.mode.Graceful? && s.pending == 0 then Exited(true)
                        else Looking;
            u == s.Set(i, Thread(NoSubmit, work))
  {
    assert s.threads[i := Thread(NoSubmit, SawGraceful)][i := Thread(NoSubmit, Looking)] == s.threads[i := Thread(NoSubmit, Looking)];
    assert s.threads[i := Thread(NoSubmit, SawGraceful)][i := Thread(NoSubmit, Exited(true))] == s.threads[i := Thread(NoSubmit, Exited(true))];
  }

  /** A worker that looks for work and finds a task takes it, runs it and takes it off the count;
      one that finds none is back at the top. */
  lemma RunsWhatItFinds(s: State, i: nat, take: nat, at: nat)
    requires Inv(s) && i < |s.threads| && s.threads[i] == Thread(NoSubmit, Looking)
    ensures var s1 := Apply(s, WorkStep(i, take, at));
            if take < |s.bags| && at < |s.bags[take]| then
              var task := s.bags[take][at];
              var u := Apply(Apply(s1, WorkStep(i, take, at)), WorkStep(i, take, at));
              && task < |s.stage|
              && u == s.Set(i, Thread(NoSubmit, AtTop))
                       .(bags := s.bags[take := Remove(s.bags[take], at)], pending := s.pending - 1,
                         stage := s.stage[task := Done], started := s.started + [task])
            else s1 == s.Set(i, Thread(NoSubmit, AtTop))
  {
    if take < |s.bags| && at < |s.bags[take]| {
      var task := s.bags[take][at];
      assert BagOk(s, take) && task in s.bags[take];
      var s1 := Apply(s, WorkStep(i, take, at));
      var s2 := Apply(s1, WorkStep(i, take, at));
      assert s2.threads == s.threads[i := Thread(NoSubmit, Ran(task))];
      assert s2.threads[i := Thread(NoSubmit, AtTop)] == s.threads[i := Thread(NoSubmit, AtTop)];
      assert s2.stage[task := Done] == s.stage[task := Done];
    }
  }
}
