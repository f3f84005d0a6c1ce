/** The sequence lock: a writer makes the sequence odd, writes protected fields in any order
    and as often as it likes, and makes it even again; a reader reads fields in any order and
    keeps what it read only if the sequence is what it was at the start.

    Each access to the sequence and each access to a field is one step; there is one writer
    and any number of readers. The sequence is a 32-bit unsigned number. */
module SeqLock {

  /** `seen` is the sequence number a reader started from and `got` what it has read. `since`
      is history: how often the sequence had been incremented at the start. */
  datatype Reader =
    | Idle
    | Inside(seen: nat, since: nat, got: map<nat, int>)
    | Accepted(since: nat, until: nat, kept: map<nat, int>)

  /** `count` is the number of increments of the sequence, which wraps; `versions[k]` are the
      fields after the k-th completed write, starting with the initial ones. */
  datatype State = State(fields: seq<int>, count: nat, writing: bool, readers: seq<Reader>, versions: seq<seq<int>>)

  const Modulus := 0x1_0000_0000

  datatype Action =
    | Lock
    | Write(field: nat, value: int)
    | Unlock
    | Begin(reader: nat)
    | Read(reader: nat, field: nat)
    | Retry(reader: nat)
    | Leave(reader: nat)

  function Sequence(s: State): nat { s.count % Modulus }

  function Init(fields: seq<int>, readers: nat): State {
    State(fields, 0, false, seq(readers, _ => Idle), [fields])
  }

  function Apply(s: State, a: Action): State {
    match a
    case Lock => if s.writing then s else s.(count := s.count + 1, writing := true)
    case Write(f, value) => if s.writing && f < |s.fields| then s.(fields := s.fields[f := value]) else s
    case Unlock =>
      if s.writing then s.(count := s.count + 1, writing := false, versions := s.versions + [s.fields]) else s
    case Begin(r) =>
      if r < |s.readers| && s.readers[r].Idle? && Sequence(s) % 2 == 0
      then s.(readers := s.readers[r := Inside(Sequence(s), s.count, map[])])
      else s
    case Read(r, f) =>
      if r < |s.readers| && s.readers[r].Inside? && f < |s.fields|
      then s.(readers := s.readers[r := s.readers[r].(got := s.readers[r].got[f := s.fields[f]])])
      else s
    case Retry(r) =>
      if r < |s.readers| && s.readers[r].Inside?
      then s.(readers := s.readers[r := if s.readers[r].seen == Sequence(s)
                                        then Accepted(s.readers[r].since, s.count, s.readers[r].got) else Idle])
      else s
    case Leave(r) => if r < |s.readers| && s.readers[r].Accepted? then s.(readers := s.readers[r := Idle]) else s
  }

  function Exec(s: State, actions: seq<Action>): State
    decreases |actions|
  {
    if actions == [] then s else Exec(Apply(s, actions[0]), actions[1..])
  }

  // ---------------------------------------------------------------------------
  // Invariant
  // ---------------------------------------------------------------------------

  /** Every value read is that of one version. */
  ghost predicate From(got: map<nat, int>, version: seq<int>) {
    forall f :: f in got ==> f < |version| && got[f] == version[f]
  }

  /** What was read while the sequence stood still is all from the version of that time. */
  ghost predicate ReaderOk(s: State, r: Reader) {
    match r
    case Idle => true
    case Inside(seen, since, got) =>
      && since % 2 == 0 && since <= s.count && seen == since % Modulus && since / 2 < |s.versions|
      && (s.count == since ==> From(got, s.versions[since / 2]))
    case Accepted(since, until, kept) =>
      && since % 2 == 0 && since <= until <= s.count && since / 2 < |s.versions|
      && since % Modulus == until % Modulus
      && (until == since ==> From(kept, s.versions[since / 2]))
  }

  ghost predicate Inv(s: State) {
    && |s.versions| == s.count / 2 + 1
    && (s.count % 2 == 0 <==> !s.writing)
    && (!s.writing ==> s.fields == s.versions[s.count / 2])
    && (forall r :: 0 <= r < |s.readers| ==> ReaderOk(s, s.readers[r]))
  }

  lemma StepKeepsInv(s: State, a: Action)
    requires Inv(s)
    ensures Inv(Apply(s, a))
  {
    if a.Lock? || a.Write? || a.Unlock? { WriterKeepsInv(s, a); } else { ReaderKeepsInv(s, a); }
  }

  lemma WriterKeepsInv(s: State, a: Action)
    requires Inv(s) && (a.Lock? || a.Write? || a.Unlock?)
    ensures Inv(Apply(s, a))
  {
    var s' := Apply(s, a);
    forall r | 0 <= r < |s'.readers| ensures ReaderOk(s', s'.readers[r]) {
      assert ReaderOk(s, s.readers[r]);
    }
  }

  lemma ReaderKeepsInv(s: State, a: Action)
    requires Inv(s) && !a.Lock? && !a.Write? && !a.Unlock?
    ensures Inv(Apply(s, a))
  {
    var s' := Apply(s, a);
    forall r | 0 <= r < |s'.readers| ensures ReaderOk(s', s'.readers[r]) {
      assert ReaderOk(s, s.readers[r]);
    }
  }

  lemma {:induction false} RunKeepsInv(s: State, actions: seq<Action>)
    requires Inv(s)
    ensures Inv(Exec(s, actions))
    decreases |actions|
  {
    if actions != [] {
      StepKeepsInv(s, actions[0]);
      RunKeepsInv(Apply(s, actions[0]), actions[1..]);
    }
  }

  /** In every interleaving, for any number of readers and fields: what an accepted read section
      saw is all from one completed write, if fewer than 2^31 writes completed meanwhile. */
  lemma AcceptedIsOneVersion(fields: seq<int>, readers: nat, actions: seq<Action>, r: nat)
    requires var s := Exec(Init(fields, readers), actions);
             r < |s.readers| && s.readers[r].Accepted? && s.readers[r].until - s.readers[r].since < Modulus
    ensures var s := Exec(Init(fields, readers), actions);
            s.readers[r].since / 2 < |s.versions| && From(s.readers[r].kept, s.versions[s.readers[r].since / 2])
  {
    RunKeepsInv(Init(fields, readers), actions);
    var s := Exec(Init(fields, readers), actions);
    assert ReaderOk(s, s.readers[r]);
  }

  // ---------------------------------------------------------------------------
  // The bound on completed writes is exact
  // ---------------------------------------------------------------------------

  lemma {:induction false} ExecAppend(s: State, a: seq<Action>, b: seq<Action>)
    ensures Exec(s, a + b) == Exec(Exec(s, a), b)
    decreases |a|
  {
    if a == [] {
      assert a + b == b;
    } else {
      assert (a + b)[1..] == a[1..] + b;
      ExecAppend(Apply(s, a[0]), a[1..], b);
    }
  }

  /** A whole write of two fields. */
  function WriteTwo(v: seq<int>): seq<Action>
    requires |v| == 2
  {
    [Lock, Write(0, v[0]), Write(1, v[1]), Unlock]
  }

  function WriteOften(v: seq<int>, k: nat): seq<Action>
    requires |v| == 2
  {
    if k == 0 then [] else WriteTwo(v) + WriteOften(v, k - 1)
  }

  lemma WriteTwoDone(s: State, v: seq<int>)
    requires !s.writing && |s.fields| == 2 && |v| == 2
    ensures Exec(s, WriteTwo(v)) == s.(fields := v, count := s.count + 2, versions := s.versions + [v])
  {
    var acts := WriteTwo(v);
    var s1 := s.(count := s.count + 1, writing := true);
    var s2 := s1.(fields := [v[0], s.fields[1]]);
    var s3 := s1.(fields := v);
    var s4 := s.(fields := v, count := s.count + 2, versions := s.versions + [v]);
    assert s.fields[0 := v[0]] == [v[0], s.fields[1]] && [v[0], s.fields[1]][1 := v[1]] == v;
    assert Exec(s, acts) == Exec(s1, acts[1..]);
    assert Exec(s1, acts[1..]) == Exec(s2, acts[2..]);
    assert Exec(s2, acts[2..]) == Exec(s3, acts[3..]);
    assert Exec(s3, acts[3..]) == Exec(s4, acts[4..]);
  }

  lemma {:induction false} WriteOftenDone(s: State, v: seq<int>, k: nat)
    requires !s.writing && |s.fields| == 2 && |v| == 2
    ensures var s' := Exec(s, WriteOften(v, k));
            && s'.fields == (if k == 0 then s.fields else v) && s'.count == s.count + 2 * k
            && !s'.writing && s'.readers == s.readers
            && forall u :: u in s'.versions ==> u in s.versions || u == v
    decreases k
  {
    if k > 0 {
      WriteTwoDone(s, v);
      ExecAppend(s, WriteTwo(v), WriteOften(v, k - 1));
      WriteOftenDone(Exec(s, WriteTwo(v)), v, k - 1);
    }
  }

  /** A reader reads one field, `k` writes complete, it reads the other field. */
  lemma ReadAcross(k: nat)
    requires k > 0
    ensures var s := Exec(Init([0, 0], 1), [Begin(0), Read(0, 0)] + (WriteOften([1, 1], k) + [Read(0, 1)]));
            && s.readers == [Inside(0, 0, map[0 := 0, 1 := 1])] && s.count == 2 * k
            && forall v :: v in s.versions ==> v == [0, 0] || v == [1, 1]
  {
    var s0 := Init([0, 0], 1);
    var before, after := [Begin(0), Read(0, 0)], [Read(0, 1)];
    var s1 := s0.(readers := [Inside(0, 0, map[])]);
    var s2 := s0.(readers := [Inside(0, 0, map[0 := 0])]);
    assert Exec(s0, before) == Exec(s1, before[1..]);
    assert Exec(s1, before[1..]) == Exec(s2, before[2..]);
    WriteOftenDone(s2, [1, 1], k);
    var s3 := Exec(s2, WriteOften([1, 1], k));
    assert Exec(s3, after) == Exec(s3.(readers := [Inside(0, 0, map[0 := 0, 1 := 1])]), after[1..]);
    ExecAppend(s2, WriteOften([1, 1], k), after);
    ExecAppend(s0, before, WriteOften([1, 1], k) + after);
  }

  lemma Torn(v: seq<int>)
    requires v == [0, 0] || v == [1, 1]
    ensures !From(map[0 := 0, 1 := 1], v)
  {
    var got := map[0 := 0, 1 := 1];
    assert 0 in got && 1 in got;
  }

  /** When 2^31 writes, or a multiple of that, complete during a read section, the sequence is
      back where it was: the reader is told that all is well with a mixture no write ever made. */
  lemma TornAcrossWrap(k: nat)
    requires k > 0 && 2 * k % Modulus == 0
    ensures var s := Apply(Exec(Init([0, 0], 1), [Begin(0), Read(0, 0)] + (WriteOften([1, 1], k) + [Read(0, 1)])), Retry(0));
            && s.readers == [Accepted(0, 2 * k, map[0 := 0, 1 := 1])]
            && forall v :: v in s.versions ==> !From(s.readers[0].kept, v)
  {
    ReadAcross(k);
    forall v: seq<int> | v == [0, 0] || v == [1, 1] ensures !From(map[0 := 0, 1 := 1], v) {
      Torn(v);
    }
  }

  /** Somebody's completed write, or the initial fields, explain all that was kept. */
  ghost predicate OneVersion(s: State, kept: map<nat, int>) {
    exists i :: 0 <= i < |s.versions| && From(kept, s.versions[i])
  }

  /** Reader `r` comes away from this run with one version, if it was let go after a section in
      which `k` writes were completed. */
  ghost predicate SectionOk(fields: seq<int>, readers: nat, actions: seq<Action>, r: nat, k: nat) {
    var s := Exec(Init(fields, readers), actions);
    r < |s.readers| && s.readers[r].Accepted? && s.readers[r].until == s.readers[r].since + 2 * k ==>
      OneVersion(s, s.readers[r].kept)
  }

  ghost predicate SafeAcross(k: nat) {
    forall fields: seq<int>, readers: nat, actions: seq<Action>, r: nat :: SectionOk(fields, readers, actions, r, k)
  }

  /** Read sections over `k` completed writes never let a mixture through, in any run, exactly if
      there were none or their number is no multiple of 2^31. */
  lemma SafeExactly(k: nat)
    ensures SafeAcross(k) <==> k == 0 || 2 * k % Modulus != 0
  {
    if k == 0 || 2 * k % Modulus != 0 {
      forall fields: seq<int>, readers: nat, actions: seq<Action>, r: nat ensures SectionOk(fields, readers, actions, r, k) {
        NoMixture(fields, readers, actions, r, k);
      }
    } else {
      var acts := [Begin(0), Read(0, 0)] + (WriteOften([1, 1], k) + [Read(0, 1)]);
      TornAcrossWrap(k);
      ExecAppend(Init([0, 0], 1), acts, [Retry(0)]);
      ExecLast(Exec(Init([0, 0], 1), acts), Retry(0));
      assert !SectionOk([0, 0], 1, acts + [Retry(0)], 0, k);
    }
  }

  lemma ExecLast(s: State, a: Action)
    ensures Exec(s, [a]) == Apply(s, a)
  {
    assert Exec(s, [a]) == Exec(Apply(s, a), [a][1..]);
  }

  lemma NoMixture(fields: seq<int>, readers: nat, actions: seq<Action>, r: nat, k: nat)
    requires k == 0 || 2 * k % Modulus != 0
    ensures SectionOk(fields, readers, actions, r, k)
  {
    var s := Exec(Init(fields, readers), actions);
    RunKeepsInv(Init(fields, readers), actions);
    if r < |s.readers| && s.readers[r].Accepted? && s.readers[r].until == s.readers[r].since + 2 * k {
      assert ReaderOk(s, s.readers[r]);
      SameRemainder(s.readers[r].since, 2 * k);
      assert From(s.readers[r].kept, s.versions[s.readers[r].since / 2]);
    }
  }

  lemma SameRemainder(a: nat, d: nat)
    ensures (a + d) % Modulus == a % Modulus ==> d % Modulus == 0
  {
  }

  // ---------------------------------------------------------------------------
  // What is let through
  // ---------------------------------------------------------------------------

  /** A section is let through exactly if as many increments as make no difference to the sequence
      fell into it, and it keeps all that was read; otherwise it is repeated. */
  lemma LetThroughExactly(s: State, r: nat)
    requires Inv(s) && r < |s.readers| && s.readers[r].Inside?
    ensures var u, pc := Apply(s, Retry(r)), s.readers[r];
            u == s.(readers := s.readers[r := if (s.count - pc.since) % Modulus == 0 then Accepted(pc.since, s.count, pc.got) else Idle])
  {
    assert ReaderOk(s, s.readers[r]);
    RemainderExactly(s.readers[r].since, s.count - s.readers[r].since);
  }

  lemma RemainderExactly(a: nat, d: nat)
    ensures (a + d) % Modulus == a % Modulus <==> d % Modulus == 0
  {
  }

  /** A section can begin exactly while nobody writes. */
  lemma BeginsExactly(s: State, r: nat)
    requires Inv(s) && r < |s.readers| && s.readers[r].Idle?
    ensures Apply(s, Begin(r)).readers[r].Inside? <==> !s.writing
    ensures s.writing ==> Apply(s, Begin(r)) == s
  {
    assert s.count % Modulus % 2 == s.count % 2;
  }

  function Reads(r: nat, fs: seq<nat>): seq<Action> {
    if fs == [] then [] else [Read(r, fs[0])] + Reads(r, fs[1..])
  }

  predicate AllBelow(fs: seq<nat>, n: nat) { forall i :: 0 <= i < |fs| ==> fs[i] < n }

  function Picked(got: map<nat, int>, fields: seq<int>, fs: seq<nat>): map<nat, int>
    requires AllBelow(fs, |fields|)
    decreases |fs|
  {
    if fs == [] then got else Picked(got[fs[0] := fields[fs[0]]], fields, fs[1..])
  }

  lemma {:induction false} PickedIs(got: map<nat, int>, fields: seq<int>, fs: seq<nat>, f: nat)
    requires AllBelow(fs, |fields|) && (f in got ==> f < |fields| && got[f] == fields[f])
    ensures var kept := Picked(got, fields, fs);
            (f in kept <==> f in got || f in fs) && (f in kept ==> f < |fields| && kept[f] == fields[f])
    decreases |fs|
  {
    if fs != [] {
      PickedIs(got[fs[0] := fields[fs[0]]], fields, fs[1..], f);
      assert fs == [fs[0]] + fs[1..];
    }
  }

  lemma {:induction false} ReadsAlone(s: State, r: nat, fs: seq<nat>)
    requires r < |s.readers| && s.readers[r].Inside? && AllBelow(fs, |s.fields|)
    ensures Exec(s, Reads(r, fs)) == s.(readers := s.readers[r := s.readers[r].(got := Picked(s.readers[r].got, s.fields, fs))])
    decreases |fs|
  {
    if fs == [] {
      assert s.readers[r := s.readers[r]] == s.readers;
    } else {
      var s1, acts := Apply(s, Read(r, fs[0])), Reads(r, fs);
      assert acts[1..] == Reads(r, fs[1..]);
      ReadsAlone(s1, r, fs[1..]);
    }
  }

  /** A reader left alone while nobody writes is let through with the values of exactly the fields
      it asked for. */
  lemma ReadAlone(s: State, r: nat, fs: seq<nat>)
    requires Inv(s) && !s.writing && r < |s.readers| && s.readers[r].Idle? && AllBelow(fs, |s.fields|)
    ensures var u := Apply(Exec(Apply(s, Begin(r)), Reads(r, fs)), Retry(r));
            && |u.readers| == |s.readers| && u.readers[r].Accepted? && u == s.(readers := s.readers[r := u.readers[r]])
            && forall f: nat :: (f in u.readers[r].kept <==> f in fs) && (f in u.readers[r].kept ==> f < |s.fields| && u.readers[r].kept[f] == s.fields[f])
  {
    BeginsExactly(s, r);
    ReadsAlone(Apply(s, Begin(r)), r, fs);
    forall f: nat ensures var kept := Picked(map[], s.fields, fs); (f in kept <==> f in fs) && (f in kept ==> f < |s.fields| && kept[f] == s.fields[f]) {
      PickedIs(map[], s.fields, fs, f);
    }
  }

  /** A write left alone, of fields in any order, ends with these fields changed and a new version. */
  function Writes(fs: seq<(nat, int)>): seq<Action> {
    if fs == [] then [] else [Write(fs[0].0, fs[0].1)] + Writes(fs[1..])
  }

  function Changed(fields: seq<int>, fs: seq<(nat, int)>): seq<int>
    decreases |fs|
  {
    if fs == [] then fields
    else Changed(if fs[0].0 < |fields| then fields[fs[0].0 := fs[0].1] else fields, fs[1..])
  }

  lemma {:induction false} WritesAlone(s: State, fs: seq<(nat, int)>)
    requires s.writing
    ensures Exec(s, Writes(fs)) == s.(fields := Changed(s.fields, fs))
    decreases |fs|
  {
    if fs != [] {
      var acts := Writes(fs);
      assert acts[1..] == Writes(fs[1..]);
      WritesAlone(Apply(s, acts[0]), fs[1..]);
    }
  }

  lemma WriteAlone(s: State, fs: seq<(nat, int)>)
    requires Inv(s) && !s.writing
    ensures var u := Apply(Exec(Apply(s, Lock), Writes(fs)), Unlock);
            && u.fields == Changed(s.fields, fs) && u.versions == s.versions + [u.fields]
            && u.count == s.count + 2 && !u.writing && u.readers == s.readers
  {
    WritesAlone(Apply(s, Lock), fs);
  }
}
