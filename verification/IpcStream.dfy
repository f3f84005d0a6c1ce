/** Reassembly of messages from the byte stream of a connection. */
module IpcStream {
  import opened Basics
  import opened IpcFrame

  /** What a byte string amounts to: the messages in it, the bytes left over, and whether the
      stream broke the protocol after the messages. */
  datatype Reading = Reading(msgs: seq<Msg>, rest: seq<Byte>, broken: bool)

  /** The first header of the left-over bytes, once it is there. */
  function HeaderAt(b: seq<Byte>): Header
    requires |b| >= HeaderSize
  {
    HeaderOf(b[..HeaderSize])
  }

  /** A complete frame stands at the front. */
  predicate Complete(b: seq<Byte>) { |b| >= HeaderSize && |b| >= FrameSize(HeaderAt(b)) }

  /** The specification: as many frames as there are, taken off the front. */
  function Frames(b: seq<Byte>): (r: Reading)
    decreases |b|
  {
    if |b| < HeaderSize then Reading([], b, false)
    else if HeaderAt(b).magic != Magic then Reading([], b, true)
    else if !Complete(b) then Reading([], b, false)
    else
      var n := FrameSize(HeaderAt(b));
      match Deserialize(b[..n])
      case None => Reading([], b, true)
      case Some(m) =>
        var r := Frames(b[n..]);
        r.(msgs := [m] + r.msgs)
  }

  // ---------------------------------------------------------------------------
  // Chunks do not matter
  // ---------------------------------------------------------------------------

  /** A good frame stands at the front. */
  predicate Good(b: seq<Byte>) {
    Complete(b) && HeaderAt(b).magic == Magic && Deserialize(b[..FrameSize(HeaderAt(b))]).Some?
  }

  lemma {:induction false} GoodFrames(b: seq<Byte>)
    requires Good(b)
    ensures var n := FrameSize(HeaderAt(b));
            var r := Frames(b[n..]);
            Frames(b) == Reading([Deserialize(b[..n]).value] + r.msgs, r.rest, r.broken)
  {
  }

  lemma {:induction false} NoFrames(b: seq<Byte>)
    requires !Good(b)
    ensures Frames(b).msgs == [] && Frames(b).rest == b
  {
  }

  /** Reading a string and then more is reading all of it: only the bytes left over need to be kept. */
  lemma {:induction false} FramesThenMore(a: seq<Byte>, b: seq<Byte>)
    requires !Frames(a).broken
    ensures var r, r' := Frames(a), Frames(Frames(a).rest + b);
            Frames(a + b) == Reading(r.msgs + r'.msgs, r'.rest, r'.broken)
    decreases |a|
  {
    if Good(a) {
      var n := FrameSize(HeaderAt(a));
      FirstFrame(a, b, n);
      GoodFrames(a);
      GoodFrames(a + b);
      FramesThenMore(a[n..], b);
      Prepend(Deserialize(a[..n]).value, Frames(a[n..]).msgs, Frames(Frames(a[n..]).rest + b).msgs);
    } else {
      NoFrames(a);
      NoneBefore(Frames(a + b).msgs);
    }
  }

  lemma Prepend(m: Msg, p: seq<Msg>, q: seq<Msg>)
    ensures [m] + (p + q) == ([m] + p) + q
  {
  }

  lemma NoneBefore(q: seq<Msg>)
    ensures [] + q == q
  {
  }

  lemma FirstFrame(a: seq<Byte>, b: seq<Byte>, n: nat)
    requires HeaderSize <= n <= |a|
    ensures (a + b)[..n] == a[..n] && (a + b)[n..] == a[n..] + b && (a + b)[..HeaderSize] == a[..HeaderSize]
  {
  }

  /** Messages one after the other are read as these messages. */
  function Sent(ms: seq<Msg>): seq<Byte> {
    if ms == [] then [] else Serialize(ms[0]) + Sent(ms[1..])
  }

  // ---------------------------------------------------------------------------
  // The connection
  // ---------------------------------------------------------------------------

  class Conn {
    const buf: array<Byte>
    var len: nat
    var connected: bool
    /** Messages handed to the handlers, in order. */
    var dispatched: seq<Msg>
    /** Every byte read from the socket so far. */
    ghost var received: seq<Byte>

    /** The buffer holds exactly what is not consumed yet, and exactly the frames of all bytes
        received have been dispatched. */
    ghost predicate Valid()
      reads this, buf
    {
      && len <= buf.Length
      && dispatched == Frames(received).msgs
      && (connected ==> !Frames(received).broken && buf[..len] == Frames(received).rest)
      && (!connected ==> Frames(received).broken)
    }

    constructor (capacity: nat)
      ensures Valid() && connected && len == 0 && received == [] && dispatched == []
      ensures fresh(buf) && buf.Length == capacity
    {
      buf := new Byte[capacity](_ => 0);
      len, connected, dispatched, received := 0, true, [], [];
    }

    /** The read loop: whatever sizes the single reads have, what is there is appended to the
        buffer until it is full or the socket is drained. */
    method Fill(incoming: seq<Byte>) returns (taken: nat)
      requires len <= buf.Length
      modifies this`len, buf
      ensures len == old(len) + taken <= buf.Length && taken <= |incoming|
      ensures taken == |incoming| || len == buf.Length
      ensures buf[..len] == old(buf[..len]) + incoming[..taken]
    {
      taken := 0;
      while len < buf.Length && taken < |incoming|
        invariant taken <= |incoming| && len == old(len) + taken <= buf.Length
        invariant buf[..len] == old(buf[..len]) + incoming[..taken]
        decreases |incoming| - taken
      {
        var n :| 1 <= n <= buf.Length - len && n <= |incoming| - taken;
        Receive(incoming[taken..taken + n]);
        assert incoming[..taken] + incoming[taken..taken + n] == incoming[..taken + n];
        taken := taken + n;
      }
    }

    /** One read: the bytes go behind those already there. */
    method Receive(chunk: seq<Byte>)
      requires len + |chunk| <= buf.Length
      modifies this`len, buf
      ensures len == old(len) + |chunk| && buf[..len] == old(buf[..len]) + chunk
    {
      var k := 0;
      while k < |chunk|
        invariant k <= |chunk| && len == old(len)
        invariant buf[..len + k] == old(buf[..len]) + chunk[..k]
      {
        buf[len + k] := chunk[k];
        k := k + 1;
      }
      len := len + |chunk|;
      assert chunk[..k] == chunk;
    }

    /** Drops `n` bytes from the front, moving the rest there. */
    method Shift(n: nat)
      requires n <= len <= buf.Length
      modifies this`len, buf
      ensures len == old(len) - n && buf[..len] == old(buf[..len])[n..]
    {
      var k, m := 0, len - n;
      while k < m
        invariant 0 <= k <= m && len == old(len)
        invariant forall j :: 0 <= j < k ==> buf[j] == old(buf[n + j])
        invariant forall j :: n + k <= j < len ==> buf[j] == old(buf[j])
      {
        buf[k] := buf[n + k];
        k := k + 1;
      }
      ghost var was := old(buf[..len]);
      assert forall j :: 0 <= j < m ==> was[n..][j] == old(buf[n + j]);
      len := m;
    }

    /** One round of the extraction loop: takes a good frame off the front, or finds none. */
    method TakeFrame() returns (found: bool)
      requires len <= buf.Length
      modifies this`len, this`connected, this`dispatched, buf
      ensures len <= buf.Length && found == Good(old(buf[..len]))
      ensures var b := old(buf[..len]);
              if found then
                var n := FrameSize(HeaderAt(b));
                && n <= |b| && dispatched == old(dispatched) + [Deserialize(b[..n]).value]
                && buf[..len] == b[n..] && connected == old(connected)
              else dispatched == old(dispatched) && buf[..len] == b && connected == (old(connected) && !Frames(b).broken)
    {
      if len < HeaderSize { return false; }
      var b := buf[..len];
      var h := HeaderAt(b);
      if h.magic != Magic {
        connected := false;
        return false;
      }
      if len < FrameSize(h) { return false; }
      var m := Deserialize(b[..FrameSize(h)]);
      if m.None? {
        connected := false;
        return false;
      }
      dispatched := dispatched + [m.value];
      Shift(FrameSize(h));
      found := true;
    }

    /** The extraction loop: takes frames off the front of the buffer until none is complete or
        the protocol is broken. */
    method Extract()
      requires len <= buf.Length
      modifies this`len, this`connected, this`dispatched, buf
      ensures len <= buf.Length
      ensures var r := Frames(old(buf[..len]));
              && dispatched == old(dispatched) + r.msgs
              && buf[..len] == r.rest && connected == (old(connected) && !r.broken)
    {
      ghost var all := Frames(buf[..len]);
      var found := true;
      while found
        invariant len <= buf.Length
        invariant var r := Frames(buf[..len]);
                  && dispatched + r.msgs == old(dispatched) + all.msgs && r.rest == all.rest && r.broken == all.broken
                  && connected == if found then old(connected) else old(connected) && !all.broken
        invariant !found ==> !Good(buf[..len])
        decreases found, len
      {
        ghost var b, was := buf[..len], dispatched;
        found := TakeFrame();
        if found {
          GoodFrames(b);
          Append(was, Deserialize(b[..FrameSize(HeaderAt(b))]).value, Frames(buf[..len]).msgs);
        }
      }
      NoFrames(buf[..len]);
      NoneLeft(dispatched);
    }

    /** The read callback, with `incoming` waiting in the socket: after any number of calls, with
        any chunks, exactly the frames of the bytes received have been dispatched. */
    method OnReadable(incoming: seq<Byte>) returns (taken: nat)
      requires Valid() && connected
      modifies this, buf
      ensures Valid() && taken <= |incoming| && received == old(received) + incoming[..taken]
      ensures taken == Min(|incoming|, buf.Length - old(len))
      ensures connected && Fits(received, buf.Length) ==> len < buf.Length
    {
      taken := Fill(incoming);
      FramesThenMore(received, incoming[..taken]);
      received := received + incoming[..taken];
      Extract();
      RestIsShort(received, buf.Length);
    }
  }

  lemma NoneLeft(q: seq<Msg>)
    ensures q + [] == q
  {
  }

  lemma Append(p: seq<Msg>, m: Msg, q: seq<Msg>)
    ensures p + ([m] + q) == (p + [m]) + q
  {
  }

  /** The frame being received, if its header is there, fits into a buffer of that size. */
  predicate Fits(received: seq<Byte>, capacity: nat) {
    var b := Frames(received).rest;
    HeaderSize < capacity && (|b| >= HeaderSize ==> FrameSize(HeaderAt(b)) <= capacity)
  }

  /** Then the buffer is never full after extraction, so the next call makes progress. */
  lemma {:induction false} RestIsShort(received: seq<Byte>, capacity: nat)
    ensures var r := Frames(received); !r.broken && Fits(received, capacity) ==> |r.rest| < capacity
    decreases |received|
  {
    if Good(received) {
      var n := FrameSize(HeaderAt(received));
      GoodFrames(received);
      RestIsShort(received[n..], capacity);
    }
  }

  // ---------------------------------------------------------------------------
  // Which connections stall
  // ---------------------------------------------------------------------------

  function Min(a: int, b: int): int { if a <= b then a else b }

  predicate Sendable(ms: seq<Msg>) { forall m :: m in ms ==> MsgFits(m) && Acceptable(m) }

  /** Where the `j`-th frame starts. */
  function Start(ms: seq<Msg>, j: nat): nat
    requires j <= |ms|
  {
    if j == 0 then 0 else FrameSize(ms[0].header) + Start(ms[1..], j - 1)
  }

  lemma {:induction false} StartNext(ms: seq<Msg>, j: nat)
    requires j < |ms|
    ensures Start(ms, j + 1) == Start(ms, j) + FrameSize(ms[j].header)
  {
    if j > 0 { StartNext(ms[1..], j - 1); }
  }

  lemma {:induction false} StartGrows(ms: seq<Msg>, i: nat, j: nat)
    requires i <= j <= |ms|
    ensures Start(ms, i) <= Start(ms, j)
  {
    if i > 0 { StartGrows(ms[1..], i - 1, j - 1); }
  }

  lemma {:induction false} SentSize(ms: seq<Msg>)
    requires Sendable(ms)
    ensures |Sent(ms)| == Start(ms, |ms|)
  {
    if ms != [] {
      SerializedParts(ms[0], []);
      SentSize(ms[1..]);
    }
  }

  /** `j` frames end within the first `p` bytes. */
  predicate Within(ms: seq<Msg>, p: nat, j: nat) {
    j <= |ms| && Start(ms, j) <= p <= Start(ms, |ms|) && (j < |ms| ==> p < Start(ms, j + 1))
  }

  /** The bytes hold these messages and `left` bytes more. */
  predicate Reads(b: seq<Byte>, msgs: seq<Msg>, left: nat) {
    var r := Frames(b);
    r.msgs == msgs && |r.rest| == left && !r.broken
  }

  /** The first `p` bytes of a stream of messages hold the frames that end there, and the
      bytes left over begin the next frame. */
  lemma {:induction false} PartRead(ms: seq<Msg>, p: nat, j: nat)
    requires Sendable(ms) && p <= |Sent(ms)| && Within(ms, p, j)
    ensures Reads(Sent(ms)[..p], ms[..j], p - Start(ms, j))
    decreases j
  {
    if j == 0 {
      NothingYet(ms, p);
    } else {
      WithinNext(ms, p, j);
      SentNext(ms);
      PartRead(ms[1..], p - FrameSize(ms[0].header), j - 1);
      var msgs, left := ms[1..][..j - 1], p - Start(ms, j);
      FirstOff(ms, p, msgs, left);
    }
  }

  lemma {:induction false} SentNext(ms: seq<Msg>)
    requires Sendable(ms) && ms != []
    ensures |Sent(ms)| == FrameSize(ms[0].header) + |Sent(ms[1..])| && Sendable(ms[1..])
  {
    SerializedParts(ms[0], Sent(ms[1..]));
  }

  lemma {:induction false} WithinNext(ms: seq<Msg>, p: nat, j: nat)
    requires Within(ms, p, j) && j > 0
    ensures p >= FrameSize(ms[0].header) && Within(ms[1..], p - FrameSize(ms[0].header), j - 1)
    ensures Start(ms, j) == FrameSize(ms[0].header) + Start(ms[1..], j - 1)
    ensures ms[..j] == [ms[0]] + ms[1..][..j - 1]
  {
    StartGrows(ms[1..], 0, j - 1);
  }

  lemma {:induction false} NothingYet(ms: seq<Msg>, p: nat)
    requires Sendable(ms) && p <= |Sent(ms)| && Within(ms, p, 0)
    ensures Reads(Sent(ms)[..p], [], p)
  {
    if ms != [] {
      StartNext(ms, 0);
      FrontIncomplete(ms[0], Sent(ms[1..]), p);
    }
  }

  lemma {:induction false} FirstOff(ms: seq<Msg>, p: nat, msgs: seq<Msg>, left: nat)
    requires Sendable(ms) && ms != [] && FrameSize(ms[0].header) <= p <= |Sent(ms)|
    requires p - FrameSize(ms[0].header) <= |Sent(ms[1..])|
    requires Reads(Sent(ms[1..])[..p - FrameSize(ms[0].header)], msgs, left)
    ensures Reads(Sent(ms)[..p], [ms[0]] + msgs, left)
  {
    FrontComplete(ms[0], Sent(ms[1..]), p);
  }

  lemma {:induction false} FrontIncomplete(m: Msg, more: seq<Byte>, p: nat)
    requires MsgFits(m) && Acceptable(m) && p < FrameSize(m.header) && p <= |Serialize(m) + more|
    ensures Frames((Serialize(m) + more)[..p]) == Reading([], (Serialize(m) + more)[..p], false)
  {
    SerializedParts(m, more);
    HeaderRoundTrip(m.header);
    var b := (Serialize(m) + more)[..p];
    if p >= HeaderSize { assert b[..HeaderSize] == HeaderBytes(m.header); }
  }

  lemma {:induction false} FrontComplete(m: Msg, more: seq<Byte>, p: nat)
    requires MsgFits(m) && Acceptable(m) && FrameSize(m.header) <= p && p <= FrameSize(m.header) + |more|
    requires p <= |Serialize(m) + more|
    ensures var r := Frames(more[..p - FrameSize(m.header)]);
            Frames((Serialize(m) + more)[..p]) == Reading([m] + r.msgs, r.rest, r.broken)
  {
    var n := FrameSize(m.header);
    SerializedParts(m, more);
    SerializedParts(m, []);
    HeaderRoundTrip(m.header);
    RoundTripExactly(m, []);
    assert Serialize(m) + [] == Serialize(m);
    var b := (Serialize(m) + more)[..p];
    assert b[..HeaderSize] == HeaderBytes(m.header);
    assert b[..n] == Serialize(m) && b[n..] == more[..p - n];
    GoodFrames(b);
  }

  /** What acceptable messages were sent is what is read, however the bytes arrive. */
  lemma {:induction false} SentIsRead(ms: seq<Msg>)
    requires Sendable(ms)
    ensures Frames(Sent(ms)) == Reading(ms, [], false)
  {
    SentSize(ms);
    PartRead(ms, |Sent(ms)|, |ms|);
    assert Sent(ms)[..|Sent(ms)|] == Sent(ms) && ms[..|ms|] == ms;
  }

  /** How many frames end within the first `p` bytes of the stream. */
  function Done(ms: seq<Msg>, p: nat): (j: nat)
    ensures j <= |ms| && Start(ms, j) <= p && (p <= Start(ms, |ms|) ==> Within(ms, p, j))
  {
    if ms == [] || p < FrameSize(ms[0].header) then 0 else 1 + Done(ms[1..], p - FrameSize(ms[0].header))
  }

  /** How much of the stream is received after the read callback has run with `arrived` bytes
      there: what has arrived, up to the capacity behind the start of the pending frame. */
  function Called(ms: seq<Msg>, cap: nat, p: nat, arrived: nat): nat {
    if p <= arrived <= Start(ms, |ms|) then Min(arrived, Start(ms, Done(ms, p)) + cap) else p
  }

  /** What `Conn.OnReadable` leaves received of any stream of which `arrived` bytes are there: what
      fits behind the bytes kept back. */
  function Takes(stream: seq<Byte>, cap: nat, p: nat, arrived: nat): int
    requires p <= |stream|
  {
    if p <= arrived <= |stream| then p + Min(arrived - p, cap - |Frames(stream[..p]).rest|) else p
  }

  /** The frames done are what is dispatched of the first `p` bytes. */
  lemma {:induction false} DoneIsDispatched(ms: seq<Msg>, p: nat)
    requires Sendable(ms) && p <= |Sent(ms)|
    ensures Reads(Sent(ms)[..p], ms[..Done(ms, p)], p - Start(ms, Done(ms, p)))
  {
    SentSize(ms);
    PartRead(ms, p, Done(ms, p));
  }

  /** On a stream of acceptable messages a call takes what `Called` says. */
  lemma {:induction false} CalledIsCallback(ms: seq<Msg>, cap: nat, p: nat, arrived: nat)
    requires Sendable(ms) && p <= |Sent(ms)|
    ensures Called(ms, cap, p, arrived) == Takes(Sent(ms), cap, p, arrived)
  {
    SentSize(ms);
    DoneIsDispatched(ms, p);
  }

  /** How much is received after calls with these numbers of bytes there. */
  function Received(ms: seq<Msg>, cap: nat, arrivals: seq<nat>): (p: nat)
    ensures p <= Start(ms, |ms|)
  {
    if arrivals == [] then 0
    else Called(ms, cap, Received(ms, cap, arrivals[..|arrivals| - 1]), arrivals[|arrivals| - 1])
  }

  lemma {:induction false} DoneGrows(ms: seq<Msg>, p: nat, q: nat)
    requires p <= q <= Start(ms, |ms|)
    ensures Done(ms, p) <= Done(ms, q) && Start(ms, Done(ms, p)) <= Start(ms, Done(ms, q))
  {
    if Done(ms, q) < Done(ms, p) {
      StartGrows(ms, Done(ms, q) + 1, Done(ms, p));
    } else {
      StartGrows(ms, Done(ms, p), Done(ms, q));
    }
  }

  /** The bytes kept back never exceed the capacity. */
  lemma {:induction false} KeptFits(ms: seq<Msg>, cap: nat, arrivals: seq<nat>)
    ensures var p := Received(ms, cap, arrivals); p <= Start(ms, Done(ms, p)) + cap
    decreases |arrivals|
  {
    if arrivals != [] {
      var before, arrived := arrivals[..|arrivals| - 1], arrivals[|arrivals| - 1];
      KeptFits(ms, cap, before);
      DoneGrows(ms, Received(ms, cap, before), Received(ms, cap, arrivals));
    }
  }

  /** A frame larger than the buffer is never received whole. */
  lemma {:induction false} OversizeStalls(ms: seq<Msg>, cap: nat, k: nat, arrivals: seq<nat>)
    requires k < |ms| && FrameSize(ms[k].header) > cap
    ensures var p := Received(ms, cap, arrivals); p < Start(ms, k + 1) && Done(ms, p) <= k
    decreases |arrivals|
  {
    StartNext(ms, k);
    var q := Received(ms, cap, arrivals);
    if arrivals != [] {
      var p := Received(ms, cap, arrivals[..|arrivals| - 1]);
      OversizeStalls(ms, cap, k, arrivals[..|arrivals| - 1]);
      StartGrows(ms, Done(ms, p), k);
    }
    if Done(ms, q) > k { StartGrows(ms, k + 1, Done(ms, q)); }
  }

  /** No later call takes anything if and only if the buffer is full, and then the pending
      frame is larger than the buffer. A pending frame that is fills the buffer as soon as its
      bytes are there. */
  lemma {:induction false} StalledExactly(ms: seq<Msg>, cap: nat, arrivals: seq<nat>)
    requires Received(ms, cap, arrivals) < Start(ms, |ms|)
    ensures var p := Received(ms, cap, arrivals);
            var from, size := Start(ms, Done(ms, p)), FrameSize(ms[Done(ms, p)].header);
            && ((forall arrived :: Called(ms, cap, p, arrived) == p) <==> p == from + cap)
            && (p == from + cap ==> size > cap)
            && (size > cap ==> Called(ms, cap, p, Start(ms, |ms|)) == from + cap)
  {
    var p := Received(ms, cap, arrivals);
    KeptFits(ms, cap, arrivals);
    StartNext(ms, Done(ms, p));
    StartGrows(ms, Done(ms, p) + 1, |ms|);
    if p != Start(ms, Done(ms, p)) + cap { assert Called(ms, cap, p, Start(ms, |ms|)) != p; }
  }

  predicate AllFit(ms: seq<Msg>, cap: nat) { forall i :: 0 <= i < |ms| ==> FrameSize(ms[i].header) <= cap }

  /** A pending frame that fits has room for its next byte. */
  lemma {:induction false} RoomForMore(ms: seq<Msg>, cap: nat, k: nat, p: nat)
    requires k <= |ms| && AllFit(ms[..k], cap) && p < Start(ms, k)
    ensures p < Start(ms, |ms|) && p < Start(ms, Done(ms, p)) + cap
  {
    var j := Done(ms, p);
    StartGrows(ms, k, |ms|);
    if j >= k { StartGrows(ms, k, j); }
    StartNext(ms, j);
    assert ms[..k][j] == ms[j];
  }

  /** `n` more calls with `all` bytes there. */
  function Then(before: seq<nat>, n: nat, all: nat): seq<nat> {
    if n == 0 then before else Then(before, n - 1, all) + [all]
  }

  /** After any calls before, as many calls as these frames have bytes get all of them. */
  lemma {:induction false} FittingArrives(ms: seq<Msg>, cap: nat, k: nat, before: seq<nat>, n: nat)
    requires k <= |ms| && AllFit(ms[..k], cap)
    ensures Received(ms, cap, Then(before, n, Start(ms, |ms|))) >= Min(n, Start(ms, k))
  {
    var all, m := Start(ms, |ms|), 0;
    while m < n
      invariant m <= n && Received(ms, cap, Then(before, m, all)) >= Min(m, Start(ms, k))
    {
      FittingStep(ms, cap, k, Then(before, m, all), all);
      m := m + 1;
    }
  }

  lemma {:induction false} FittingStep(ms: seq<Msg>, cap: nat, k: nat, run: seq<nat>, arrived: nat)
    requires k <= |ms| && AllFit(ms[..k], cap) && arrived <= Start(ms, |ms|)
    ensures var p, q := Received(ms, cap, run), Received(ms, cap, run + [arrived]);
            q >= p && (p < Start(ms, k) && p < arrived ==> q > p)
    ensures Start(ms, k) <= Start(ms, |ms|)
  {
    var p := Received(ms, cap, run);
    StartGrows(ms, k, |ms|);
    ReceivedNext(ms, cap, run, arrived);
    if p < Start(ms, k) { RoomForMore(ms, cap, k, p); }
  }

  lemma {:induction false} ReceivedNext(ms: seq<Msg>, cap: nat, run: seq<nat>, arrived: nat)
    ensures var p := Received(ms, cap, run);
            Received(ms, cap, run + [arrived]) == Called(ms, cap, p, arrived) >= p
  {
    assert (run + [arrived])[..|run|] == run;
    KeptFits(ms, cap, run);
  }

  /** The messages dispatched after these calls. */
  function Dispatched(ms: seq<Msg>, cap: nat, arrivals: seq<nat>): seq<Msg>
    requires Received(ms, cap, arrivals) <= |Sent(ms)|
  {
    Frames(Sent(ms)[..Received(ms, cap, arrivals)]).msgs
  }

  lemma {:induction false} DispatchedIsDone(ms: seq<Msg>, cap: nat, arrivals: seq<nat>)
    requires Sendable(ms)
    ensures Received(ms, cap, arrivals) <= |Sent(ms)|
    ensures Dispatched(ms, cap, arrivals) == ms[..Done(ms, Received(ms, cap, arrivals))]
  {
    SentSize(ms);
    DoneIsDispatched(ms, Received(ms, cap, arrivals));
  }

  predicate Gets(ms: seq<Msg>, cap: nat, i: nat, arrivals: seq<nat>) {
    Received(ms, cap, arrivals) <= |Sent(ms)| && |Dispatched(ms, cap, arrivals)| > i
  }

  lemma {:induction false} GetsIsDone(ms: seq<Msg>, cap: nat, i: nat, arrivals: seq<nat>)
    requires Sendable(ms)
    ensures Gets(ms, cap, i, arrivals) <==> Done(ms, Received(ms, cap, arrivals)) > i
  {
    DispatchedIsDone(ms, cap, arrivals);
  }

  lemma {:induction false} DoneBy(ms: seq<Msg>, p: nat, i: nat)
    requires i < |ms| && p <= Start(ms, |ms|)
    ensures Done(ms, p) > i <==> Start(ms, i + 1) <= p
  {
    if Done(ms, p) <= i { StartGrows(ms, Done(ms, p) + 1, i + 1); } else { StartGrows(ms, i + 1, Done(ms, p)); }
  }

  /** Were the callback called again while bytes are left in the socket, as a level-triggered
      registration does, such a message would get dispatched after any calls before. The
      registration in use is edge-triggered: see the runs below. */
  lemma {:induction false} Arrives(ms: seq<Msg>, cap: nat, i: nat, before: seq<nat>)
    requires Sendable(ms) && i < |ms| && AllFit(ms[..i + 1], cap)
    ensures Gets(ms, cap, i, Then(before, Start(ms, i + 1), Start(ms, |ms|)))
  {
    var arrivals := Then(before, Start(ms, i + 1), Start(ms, |ms|));
    FittingArrives(ms, cap, i + 1, before, Start(ms, i + 1));
    DoneBy(ms, Received(ms, cap, arrivals), i);
    GetsIsDone(ms, cap, i, arrivals);
  }

  // ---------------------------------------------------------------------------
  // Edge-triggered runs
  // ---------------------------------------------------------------------------

  /** The connection is registered edge-triggered: a call follows only on new bytes, so each sees
      more than the one before. The last sees all there will ever be. */
  predicate EdgeRun(arrivals: seq<nat>, all: nat) {
    && arrivals != [] && arrivals[0] > 0 && arrivals[|arrivals| - 1] == all
    && forall j, k :: 0 <= j < k < |arrivals| ==> arrivals[j] < arrivals[k]
  }

  /** After a call that saw `arrived` bytes some stay in the socket, with no call to follow, if
      and only if they reach further than the buffer behind the start of the pending frame. */
  lemma {:induction false} LeftInSocket(ms: seq<Msg>, cap: nat, before: seq<nat>, arrived: nat)
    requires Received(ms, cap, before) <= arrived <= Start(ms, |ms|)
    ensures Received(ms, cap, before + [arrived]) < arrived
            <==> arrived > Start(ms, Done(ms, Received(ms, cap, before))) + cap
  {
    ReceivedNext(ms, cap, before, arrived);
  }

  /** How much the first call, with `all` bytes there, takes. */
  lemma {:induction false} BurstTakes(ms: seq<Msg>, cap: nat)
    ensures Received(ms, cap, [Start(ms, |ms|)]) == Min(Start(ms, |ms|), cap)
  {
    ReceivedNext(ms, cap, [], Start(ms, |ms|));
    assert [] + [Start(ms, |ms|)] == [Start(ms, |ms|)];
    assert Done(ms, 0) == 0;
  }

  /** Whatever the calls before, one with everything there takes at least a buffer full. */
  lemma {:induction false} LastTakes(ms: seq<Msg>, cap: nat, arrivals: seq<nat>)
    requires arrivals != [] && arrivals[|arrivals| - 1] == Start(ms, |ms|)
    ensures Received(ms, cap, arrivals) >= Min(Start(ms, |ms|), cap)
  {
    var before := arrivals[..|arrivals| - 1];
    assert arrivals == before + [Start(ms, |ms|)];
    ReceivedNext(ms, cap, before, Start(ms, |ms|));
  }

  /** A stream of acceptable messages: its `i`-th message gets dispatched in every run if and only
      if it and all messages before it fit into the buffer together. */
  lemma {:induction false} DispatchedInEveryRun(ms: seq<Msg>, cap: nat, i: nat)
    requires Sendable(ms) && i < |ms|
    ensures (forall arrivals :: EdgeRun(arrivals, Start(ms, |ms|)) ==> Gets(ms, cap, i, arrivals)) <==> Start(ms, i + 1) <= cap
  {
    var all := Start(ms, |ms|);
    StartNext(ms, i);
    StartGrows(ms, i + 1, |ms|);
    if Start(ms, i + 1) <= cap {
      forall arrivals | EdgeRun(arrivals, all) ensures Gets(ms, cap, i, arrivals) {
        LastTakes(ms, cap, arrivals);
        GetsIf(ms, cap, i, arrivals);
      }
    } else {
      BurstTakes(ms, cap);
      GetsIf(ms, cap, i, [all]);
      assert EdgeRun([all], all) && !Gets(ms, cap, i, [all]);
    }
  }

  lemma {:induction false} GetsIf(ms: seq<Msg>, cap: nat, i: nat, arrivals: seq<nat>)
    requires Sendable(ms) && i < |ms|
    ensures Gets(ms, cap, i, arrivals) <==> Start(ms, i + 1) <= Received(ms, cap, arrivals)
  {
    GetsIsDone(ms, cap, i, arrivals);
    DoneBy(ms, Received(ms, cap, arrivals), i);
  }

  /** It gets dispatched in some run if and only if it and all messages before it fit into the
      buffer one by one. */
  lemma {:induction false} DispatchedInSomeRun(ms: seq<Msg>, cap: nat, i: nat)
    requires Sendable(ms) && i < |ms|
    ensures (exists arrivals :: EdgeRun(arrivals, Start(ms, |ms|)) && Gets(ms, cap, i, arrivals)) <==> AllFit(ms[..i + 1], cap)
  {
    if AllFit(ms[..i + 1], cap) {
      var all := Start(ms, |ms|);
      StartNext(ms, i);
      StartGrows(ms, i + 1, |ms|);
      BytesArrive(ms, cap, i + 1, all);
      GetsIf(ms, cap, i, ByteRun(all));
      ByteRunIs(all);
    } else {
      var k :| 0 <= k <= i && FrameSize(ms[..i + 1][k].header) > cap;
      forall arrivals ensures !Gets(ms, cap, i, arrivals) {
        OversizeStalls(ms, cap, k, arrivals);
        GetsIsDone(ms, cap, i, arrivals);
      }
    }
  }

  /** A call after every byte. */
  function ByteRun(n: nat): seq<nat> {
    if n == 0 then [] else ByteRun(n - 1) + [n]
  }

  lemma {:induction false} ByteRunIs(n: nat)
    ensures |ByteRun(n)| == n && (forall k :: 0 <= k < n ==> ByteRun(n)[k] == k + 1)
    ensures n > 0 ==> EdgeRun(ByteRun(n), n)
  {
    if n > 0 { ByteRunIs(n - 1); }
  }

  lemma {:induction false} BytesArrive(ms: seq<Msg>, cap: nat, k: nat, n: nat)
    requires k <= |ms| && AllFit(ms[..k], cap) && n <= Start(ms, |ms|)
    ensures Received(ms, cap, ByteRun(n)) >= Min(n, Start(ms, k))
  {
    var m := 0;
    while m < n
      invariant m <= n && Received(ms, cap, ByteRun(m)) >= Min(m, Start(ms, k))
    {
      FittingStep(ms, cap, k, ByteRun(m), m + 1);
      m := m + 1;
    }
  }

  /** What call `k` finds received if every call before it drained the socket. */
  function SeenBefore(arrivals: seq<nat>, k: nat): nat
    requires k <= |arrivals|
  {
    if k == 0 then 0 else arrivals[k - 1]
  }

  predicate DrainsUpTo(ms: seq<Msg>, cap: nat, arrivals: seq<nat>, n: nat)
    requires n <= |arrivals|
  {
    forall k :: 0 <= k <= n ==> Received(ms, cap, arrivals[..k]) == SeenBefore(arrivals, k)
  }

  predicate Bursts(ms: seq<Msg>, cap: nat, arrivals: seq<nat>, n: nat)
    requires n <= |arrivals|
  {
    forall k :: 0 <= k < n ==> arrivals[k] <= Start(ms, Done(ms, SeenBefore(arrivals, k))) + cap
  }

  /** In a given run every call drains the socket if and only if no burst reaches further than the
      buffer behind the frame that was pending when it came. */
  lemma {:induction false} DrainsExactly(ms: seq<Msg>, cap: nat, arrivals: seq<nat>, n: nat)
    requires EdgeRun(arrivals, Start(ms, |ms|)) && n <= |arrivals|
    ensures DrainsUpTo(ms, cap, arrivals, n) <==> Bursts(ms, cap, arrivals, n)
    decreases n
  {
    if n > 0 {
      DrainsExactly(ms, cap, arrivals, n - 1);
      DrainsNext(ms, cap, arrivals, n - 1);
    }
  }

  lemma {:induction false} DrainsNext(ms: seq<Msg>, cap: nat, arrivals: seq<nat>, n: nat)
    requires EdgeRun(arrivals, Start(ms, |ms|)) && n < |arrivals|
    ensures DrainsUpTo(ms, cap, arrivals, n + 1)
            <==> DrainsUpTo(ms, cap, arrivals, n) && arrivals[n] <= Start(ms, Done(ms, SeenBefore(arrivals, n))) + cap
  {
    assert arrivals[..n + 1] == arrivals[..n] + [arrivals[n]];
    assert SeenBefore(arrivals, n) <= arrivals[n] <= Start(ms, |ms|);
    if Received(ms, cap, arrivals[..n]) == SeenBefore(arrivals, n) {
      ReceivedNext(ms, cap, arrivals[..n], arrivals[n]);
    }
  }

  /** Three frames of 4000 bytes, each of which fits, all there before the first call, and the
      default buffer: two are dispatched, and the rest of the third stays in the socket. */
  lemma {:induction false} BurstOfThree(ms: seq<Msg>)
    requires Sendable(ms) && |ms| == 3 && forall i :: 0 <= i < 3 ==> FrameSize(ms[i].header) == 4000
    ensures AllFit(ms, 8192) && EdgeRun([12000], Start(ms, 3))
    ensures Received(ms, 8192, [12000]) == 8192 && Gets(ms, 8192, 1, [12000]) && !Gets(ms, 8192, 2, [12000])
  {
    StartNext(ms, 0);
    StartNext(ms, 1);
    StartNext(ms, 2);
    BurstTakes(ms, 8192);
    GetsIf(ms, 8192, 1, [12000]);
    GetsIf(ms, 8192, 2, [12000]);
  }

  /** The connection has received the first `p` bytes and goes on. */
  ghost predicate Serving(c: Conn, stream: seq<Byte>, p: nat)
    reads c, c.buf
  {
    p <= |stream| && c.Valid() && c.connected && c.received == stream[..p]
  }

  /** One call of the read callback, with `arrived` bytes of any stream sent so far. */
  method ServeOnce(c: Conn, stream: seq<Byte>, p: nat, arrived: nat) returns (q: nat)
    requires Serving(c, stream, p)
    modifies c, c.buf
    ensures q == Takes(stream, c.buf.Length, p, arrived) <= |stream| && c.Valid() && c.received == stream[..q]
  {
    q := p;
    if p <= arrived <= |stream| {
      KeptIsRest(c, stream, p);
      q := ServeChunk(c, stream[..p], stream[p..arrived], stream);
    }
  }

  /** The same for the bytes `chunk` of the stream, those before it being received. */
  method ServeChunk(c: Conn, before: seq<Byte>, chunk: seq<Byte>, ghost stream: seq<Byte>) returns (q: nat)
    requires c.Valid() && c.connected && c.received == before && before + chunk <= stream
    modifies c, c.buf
    ensures q == |before| + Min(|chunk|, c.buf.Length - old(c.len)) <= |stream|
    ensures c.Valid() && c.received == stream[..q]
  {
    var taken := c.OnReadable(chunk);
    q := |before| + taken;
    Further(before, chunk, stream, taken);
  }

  lemma KeptIsRest(c: Conn, stream: seq<Byte>, p: nat)
    requires Serving(c, stream, p)
    ensures c.len == |Frames(stream[..p]).rest|
  {
  }

  lemma Further(before: seq<Byte>, chunk: seq<Byte>, stream: seq<Byte>, taken: nat)
    requires taken <= |chunk| && before + chunk <= stream
    ensures before + chunk[..taken] == stream[..|before| + taken]
  {
    assert (before + chunk)[..|before| + taken] == before + chunk[..taken];
  }

  /** A connection over which these messages come in, read by a call at each of these moments:
      the runs above are what the class does. */
  method Serve(ms: seq<Msg>, cap: nat, arrivals: seq<nat>) returns (c: Conn)
    requires Sendable(ms)
    ensures fresh(c) && c.Valid() && c.connected && c.buf.Length == cap
    ensures Received(ms, cap, arrivals) <= |Sent(ms)| && c.received == Sent(ms)[..Received(ms, cap, arrivals)]
    ensures c.dispatched == Dispatched(ms, cap, arrivals) == ms[..Done(ms, |c.received|)]
  {
    var stream := Sent(ms);
    SentSize(ms);
    c := new Conn(cap);
    var n, p := 0, 0;
    while n < |arrivals|
      invariant n <= |arrivals| && fresh(c) && fresh(c.buf) && c.buf.Length == cap
      invariant p == Received(ms, cap, arrivals[..n]) && Serving(c, stream, p)
    {
      CalledIsCallback(ms, cap, p, arrivals[n]);
      p := ServeOnce(c, stream, p, arrivals[n]);
      DoneIsDispatched(ms, p);
      ReceivedNext(ms, cap, arrivals[..n], arrivals[n]);
      n := n + 1;
      assert arrivals[..n] == arrivals[..n - 1] + [arrivals[n - 1]];
    }
    assert arrivals[..n] == arrivals;
    DispatchedIsDone(ms, cap, arrivals);
  }
}
