/** The reader-writer spinlock: readers announce themselves and then look for a writer,
    a writer takes the flag and then waits for the readers to leave.

    Each atomic access is one step, and `Exec` runs an arbitrary interleaving of any number
    of threads. Spinning is a step that changes nothing. */
module RwLock {
  import opened Basics

  datatype Pc =
    | Out
    | WantRead
    | SawNoWriter
    | Announced
    | Reading
    | BackingOff
    | WantWrite
    | Draining
    | Writing

  /** `holder` is history: the thread that set the writer flag. */
  datatype State = State(threads: seq<Pc>, readers: int, writer: bool, holder: Option<nat>)

  /** `weak` lets a compare-and-swap fail although the values agree. */
  datatype Action =
    | LockRead(thread: nat)
    | LockWrite(thread: nat)
    | Unlock(thread: nat)
    | Step(thread: nat, weak: bool)

  function Init(threads: nat): State { State(seq(threads, _ => Out), 0, false, None) }

  function Goto(s: State, i: nat, pc: Pc): State
    requires i < |s.threads|
  {
    s.(threads := s.threads[i := pc])
  }

  function Next(s: State, i: nat, weak: bool): State
    requires i < |s.threads|
  {
    match s.threads[i]
    case WantRead => if s.writer then s else Goto(s, i, SawNoWriter)
    case SawNoWriter => Goto(s, i, Announced).(readers := s.readers + 1)
    case Announced => if s.writer then Goto(s, i, BackingOff) else Goto(s, i, Reading)
    case BackingOff => Goto(s, i, WantRead).(readers := s.readers - 1)
    case WantWrite => if s.writer || weak then s else Goto(s, i, Draining).(writer := true, holder := Some(i))
    case Draining => if s.readers > 0 then s else Goto(s, i, Writing)
    case _ => s
  }

  function Apply(s: State, a: Action): State {
    if a.thread >= |s.threads| then s
    else match a
      case LockRead(i) => if s.threads[i].Out? then Goto(s, i, WantRead) else s
      case LockWrite(i) => if s.threads[i].Out? then Goto(s, i, WantWrite) else s
      case Unlock(i) =>
        if s.threads[i].Reading? then Goto(s, i, Out).(readers := s.readers - 1)
        else if s.threads[i].Writing? then Goto(s, i, Out).(writer := false, holder := None)
        else s
      case Step(i, weak) => Next(s, i, weak)
  }

  function Exec(s: State, actions: seq<Action>): State
    decreases |actions|
  {
    if actions == [] then s else Exec(Apply(s, actions[0]), actions[1..])
  }

  // ---------------------------------------------------------------------------
  // Invariant
  // ---------------------------------------------------------------------------

  /** The thread is between its increment and its decrement of the reader count. */
  predicate Counted(pc: Pc) { pc.Announced? || pc.Reading? || pc.BackingOff? }

  predicate HasFlag(pc: Pc) { pc.Draining? || pc.Writing? }

  function CountedIn(ts: seq<Pc>): nat {
    if ts == [] then 0 else (if Counted(ts[0]) then 1 else 0) + CountedIn(ts[1..])
  }

  lemma {:induction false} CountedAfter(ts: seq<Pc>, i: nat, pc: Pc)
    requires i < |ts|
    ensures CountedIn(ts[i := pc]) + (if Counted(ts[i]) then 1 else 0) == CountedIn(ts) + (if Counted(pc) then 1 else 0)
  {
    if i == 0 {
      assert ts[i := pc][1..] == ts[1..];
    } else {
      CountedAfter(ts[1..], i - 1, pc);
      assert ts[i := pc][1..] == ts[1..][i - 1 := pc];
    }
  }

  lemma {:induction false} NoneCounted(ts: seq<Pc>, i: nat)
    requires i < |ts|
    ensures CountedIn(ts) == 0 ==> !Counted(ts[i])
  {
    if i > 0 { NoneCounted(ts[1..], i - 1); }
  }

  lemma {:induction false} NobodyYet(n: nat)
    ensures CountedIn(seq(n, _ => Out)) == 0
  {
    if n > 0 {
      NobodyYet(n - 1);
      assert seq(n, _ => Out)[1..] == seq(n - 1, _ => Out);
    }
  }

  ghost predicate Inv(s: State) {
    && s.readers == CountedIn(s.threads)
    && s.writer == s.holder.Some?
    && (forall i :: 0 <= i < |s.threads| ==> (HasFlag(s.threads[i]) <==> s.holder == Some(i)))
    && (s.holder.Some? && s.holder.value < |s.threads| && s.threads[s.holder.value].Writing? ==>
          forall j :: 0 <= j < |s.threads| ==> !s.threads[j].Reading?)
  }

  /** A thread moves without the writer flag changing hands. */
  lemma MoveKeepsInv(s: State, i: nat, pc: Pc, readers: int)
    requires Inv(s) && i < |s.threads| && (HasFlag(pc) <==> HasFlag(s.threads[i]))
    requires readers == s.readers + (if Counted(pc) then 1 else 0) - (if Counted(s.threads[i]) then 1 else 0)
    requires pc.Reading? ==> !s.writer
    requires pc.Writing? ==> s.readers <= 0
    ensures Inv(Goto(s, i, pc).(readers := readers))
  {
    CountedAfter(s.threads, i, pc);
    forall j | 0 <= j < |s.threads| ensures CountedIn(s.threads) == 0 ==> !Counted(s.threads[j]) {
      NoneCounted(s.threads, j);
    }
  }

  /** The writer flag is taken or given back. */
  lemma FlagKeepsInv(s: State, i: nat, pc: Pc, take: bool)
    requires Inv(s) && i < |s.threads| && !Counted(pc) && !Counted(s.threads[i])
    requires if take then !s.writer && pc.Draining? else s.threads[i].Writing? && !HasFlag(pc)
    ensures Inv(Goto(s, i, pc).(writer := take, holder := if take then Some(i) else None))
  {
    CountedAfter(s.threads, i, pc);
  }

  lemma StepKeepsInv(s: State, a: Action)
    requires Inv(s)
    ensures Inv(Apply(s, a))
  {
    var i, s' := a.thread, Apply(s, a);
    if i < |s.threads| && s' != s {
      if s'.writer != s.writer {
        FlagKeepsInv(s, i, s'.threads[i], s'.writer);
      } else {
        MoveKeepsInv(s, i, s'.threads[i], s'.readers);
      }
    }
  }

  lemma {:induction false} RunKeepsInv(s: State, actions: seq<Action>)
    requires Inv(s)
    ensures Inv(Exec(s, actions))
    decreases |actions|
  {
    if actions != [] {
      StepKeepsInv(s, actions[0]);
      RunKeepsInv(Apply(s, actions[0]), actions[1..]);
    }
  }

  /** In every interleaving, for any number of threads: no writer is inside together with a
      reader or another writer, and the reader count is the number of threads between their
      increment and their decrement. While a writer is inside, the threads counted are those
      that came in between the two looks at the flag: they have not looked again, or are
      backing off. */
  lemma Exclusion(threads: nat, actions: seq<Action>)
    ensures var s := Exec(Init(threads), actions);
            && s.readers == CountedIn(s.threads)
            && forall i, j :: 0 <= i < |s.threads| && 0 <= j < |s.threads| && i != j && s.threads[i].Writing? ==>
                 && !s.threads[j].Writing? && !s.threads[j].Reading?
                 && (Counted(s.threads[j]) ==> s.threads[j].BackingOff? || Next(s, j, false).threads[j].BackingOff?)
  {
    NobodyYet(threads);
    assert Inv(Init(threads));
    RunKeepsInv(Init(threads), actions);
    var s := Exec(Init(threads), actions);
    forall i, j | 0 <= i < |s.threads| && 0 <= j < |s.threads| && i != j && s.threads[i].Writing?
      ensures !s.threads[j].Writing? && !s.threads[j].Reading?
      ensures Counted(s.threads[j]) ==> s.threads[j].BackingOff? || Next(s, j, false).threads[j].BackingOff?
    {
      assert s.holder == Some(i);
    }
  }

  // ---------------------------------------------------------------------------
  // The race behind the second look
  // ---------------------------------------------------------------------------

  const LateReader: seq<Action> :=
    [LockRead(0), Step(0, false), LockWrite(1), Step(1, false), Step(1, false), Step(0, false)]

  /** A reader that saw no writer is counted after a writer has entered: the reader count does
      not say whether a writer is inside. */
  lemma CountedWhileWriting()
    ensures Exec(Init(2), LateReader) == State([Announced, Writing], 1, true, Some(1))
  {
    var s0 := State([Out, Out], 0, false, None);
    assert Init(2) == s0;
    var s1 := s0.(threads := [WantRead, Out]);
    var s2 := s0.(threads := [SawNoWriter, Out]);
    var s3 := s0.(threads := [SawNoWriter, WantWrite]);
    var s4 := State([SawNoWriter, Draining], 0, true, Some(1));
    var s5 := State([SawNoWriter, Writing], 0, true, Some(1));
    var s6 := State([Announced, Writing], 1, true, Some(1));
    ExecSix(LateReader, s0, s1, s2, s3, s4, s5, s6);
  }

  lemma {:induction false} ExecSix(acts: seq<Action>, s0: State, s1: State, s2: State, s3: State, s4: State, s5: State, s6: State)
    requires |acts| == 6 && s1 == Apply(s0, acts[0]) && s2 == Apply(s1, acts[1]) && s3 == Apply(s2, acts[2])
    requires s4 == Apply(s3, acts[3]) && s5 == Apply(s4, acts[4]) && s6 == Apply(s5, acts[5])
    ensures Exec(s0, acts) == s6
  {
    assert Exec(s0, acts) == Exec(s1, acts[1..]);
    assert Exec(s1, acts[1..]) == Exec(s2, acts[2..]);
    assert Exec(s2, acts[2..]) == Exec(s3, acts[3..]);
    assert Exec(s3, acts[3..]) == Exec(s4, acts[4..]);
    assert Exec(s4, acts[4..]) == Exec(s5, acts[5..]);
    assert Exec(s5, acts[5..]) == Exec(s6, acts[6..]);
  }

  // ---------------------------------------------------------------------------
  // A call left alone
  // ---------------------------------------------------------------------------

  /** `n` steps of thread `i`, nobody else moving and no compare-and-swap failing for nothing. */
  function Alone(s: State, i: nat, n: nat): State
    requires i < |s.threads|
    decreases n
  {
    if n == 0 then s else Alone(Apply(s, Step(i, false)), i, n - 1)
  }

  predicate WantsIn(pc: Pc) { pc.WantRead? || pc.SawNoWriter? || pc.Announced? || pc.BackingOff? }

  lemma {:induction false} Stays(s: State, i: nat, n: nat)
    requires i < |s.threads| && Next(s, i, false) == s
    ensures Alone(s, i, n) == s
  {
    if n > 0 { Stays(s, i, n - 1); }
  }

  /** The reader count once thread `i` is counted, or not counted. */
  function ReadersWith(s: State, i: nat, counted: bool): int
    requires i < |s.threads|
  {
    s.readers - (if Counted(s.threads[i]) then 1 else 0) + if counted then 1 else 0
  }

  /** From anywhere inside a read lock, left alone, a thread is inside within four steps if no
      writer holds the flag, and otherwise back at the start, not counted. */
  lemma ReadLockFinishes(s: State, i: nat, n: nat)
    requires i < |s.threads| && WantsIn(s.threads[i]) && n >= 4
    ensures Alone(s, i, n)
            == if s.writer then Goto(s, i, WantRead).(readers := ReadersWith(s, i, false))
               else Goto(s, i, Reading).(readers := ReadersWith(s, i, true))
  {
    if s.writer { ReaderBacksOff(s, i, n); } else { ReaderEnters(s, i, n); }
  }

  lemma {:induction false} ReaderEnters(s: State, i: nat, n: nat)
    requires i < |s.threads| && WantsIn(s.threads[i]) && !s.writer
    requires n >= match s.threads[i] case Announced => 1 case SawNoWriter => 2 case WantRead => 3 case _ => 4
    ensures Alone(s, i, n) == Goto(s, i, Reading).(readers := ReadersWith(s, i, true))
    decreases n
  {
    var s1 := Next(s, i, false);
    assert s1.threads[i := Reading] == s.threads[i := Reading];
    if s1.threads[i].Reading? { Stays(s1, i, n - 1); } else { ReaderEnters(s1, i, n - 1); }
  }

  lemma {:induction false} ReaderBacksOff(s: State, i: nat, n: nat)
    requires i < |s.threads| && WantsIn(s.threads[i]) && s.writer
    requires n >= match s.threads[i] case WantRead => 0 case BackingOff => 1 case Announced => 2 case _ => 3
    ensures Alone(s, i, n) == Goto(s, i, WantRead).(readers := ReadersWith(s, i, false))
    decreases n
  {
    if s.threads[i].WantRead? {
      assert s.threads[i := WantRead] == s.threads;
      Stays(s, i, n);
    } else {
      var s1 := Next(s, i, false);
      assert s1.threads[i := WantRead] == s.threads[i := WantRead];
      ReaderBacksOff(s1, i, n - 1);
    }
  }

  /** From anywhere inside a write lock, left alone, a thread is inside within two steps if the flag
      is free or its own and nobody is counted; it takes a free flag in any case. */
  lemma WriteLockFinishes(s: State, i: nat, n: nat)
    requires i < |s.threads| && (s.threads[i].Draining? || (s.threads[i].WantWrite? && !s.writer)) && n >= 2
    ensures var flag := if s.threads[i].Draining? then s else s.(writer := true, holder := Some(i));
            Alone(s, i, n) == Goto(flag, i, if s.readers > 0 then Draining else Writing)
  {
    if s.threads[i].Draining? {
      Drains(s, i, n);
    } else {
      var s1 := Next(s, i, false);
      Drains(s1, i, n - 1);
      assert s1.threads[i := Draining] == s.threads[i := Draining] && s1.threads[i := Writing] == s.threads[i := Writing];
    }
  }

  lemma Drains(s: State, i: nat, n: nat)
    requires i < |s.threads| && s.threads[i].Draining? && n >= 1
    ensures Alone(s, i, n) == Goto(s, i, if s.readers > 0 then Draining else Writing)
  {
    if s.readers > 0 {
      assert s.threads[i := Draining] == s.threads;
      Stays(s, i, n);
    } else {
      Stays(Goto(s, i, Writing), i, n - 1);
    }
  }

  /** On a free lock, locking and unlocking left alone gets the thread inside and then leaves
      everything as it was, for reading and for writing. */
  lemma LockAndUnlock(s: State, i: nat)
    requires Inv(s) && i < |s.threads| && s.threads[i].Out? && !s.writer
    ensures var u := Alone(Apply(s, LockRead(i)), i, 4);
            u.threads == s.threads[i := Reading] && u.readers == s.readers + 1 && Apply(u, Unlock(i)) == s
    ensures s.readers == 0 ==>
              var u := Alone(Apply(s, LockWrite(i)), i, 2);
              u.threads == s.threads[i := Writing] && u.writer && Apply(u, Unlock(i)) == s
  {
    ReadLockFinishes(Apply(s, LockRead(i)), i, 4);
    WriteLockFinishes(Apply(s, LockWrite(i)), i, 2);
    assert s.threads[i := WantRead][i := Reading] == s.threads[i := Reading] && s.threads[i := Reading][i := Out] == s.threads;
    assert s.threads[i := WantWrite][i := Writing] == s.threads[i := Writing] && s.threads[i := Writing][i := Out] == s.threads;
  }
}
