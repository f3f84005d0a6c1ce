/** The shared-memory byte ring with one writer and one reader process. Positions in the
    header are taken modulo the data size, and one byte always stays free.

    Each load or store of a position and each copied byte is one step, and `Exec` runs an
    arbitrary interleaving of the two sides. Waiting for space or data is calling again.
    A new position is given as a slot, which `RingIndex.SlotIsMod` shows to be the remainder
    the code takes. */
module ShmRing {
  import opened RingIndex

  type Byte = bv8

  /** Where the writer stands; `w` is its copy of the write position, `k` the bytes copied. */
  datatype Writer =
    | NotWriting
    | AskedRoom(src: seq<Byte>)
    | KnowsEnd(src: seq<Byte>, w: nat)
    | HasRoom(src: seq<Byte>)
    | Copying(src: seq<Byte>, w: nat, k: nat)

  /** Where the reader stands. `seen` is history: how many bytes were published when the
      write position was loaded. */
  datatype Reader =
    | NotReading
    | AskedData(len: nat)
    | KnowsFill(len: nat, w: nat, seen: nat)
    | HasData(len: nat)
    | Fetching(len: nat, r: nat, dst: seq<Byte>)

  /** `written` and `got` are the bytes published by the writer and handed over by the reader. */
  datatype State = State(
    data: seq<Byte>,
    writePos: nat,
    readPos: nat,
    writer: Writer,
    reader: Reader,
    written: seq<Byte>,
    got: seq<Byte>)
  {
    function Size(): nat { |data| }
  }

  datatype Action =
    | CallWrite(src: seq<Byte>)
    | WriterStep
    | CallRead(len: nat)
    | ReaderStep

  function WriteAvailable(w: nat, r: nat, size: nat): int {
    if w >= r then size - (w - r) - 1 else r - w - 1
  }

  function ReadAvailable(w: nat, r: nat, size: nat): int {
    if w >= r then w - r else size - r + w
  }

  /** Where byte `k` of a transfer of `len` bytes from position `pos` goes: one block copy,
      or two when the transfer runs over the end of the data. */
  function Address(pos: nat, len: nat, k: nat, size: nat): nat
    requires pos < size && k < len
  {
    var firstPart := size - pos;
    if firstPart >= len || k < firstPart then pos + k else k - firstPart
  }

  function Init(data: seq<Byte>): State { State(data, 0, 0, NotWriting, NotReading, [], []) }

  predicate Shape(s: State) {
    && s.writePos < |s.data| && s.readPos < |s.data|
    && (s.writer.NotWriting? || |s.writer.src| < |s.data|)
    && (s.writer.KnowsEnd? ==> s.writer.w < |s.data|)
    && (s.writer.Copying? ==> s.writer.w < |s.data| && s.writer.k <= |s.writer.src|)
    && (s.reader.KnowsFill? ==> s.reader.w < |s.data|)
    && (s.reader.HasData? ==> s.reader.len < |s.data|)
    && (s.reader.Fetching? ==> s.reader.r < |s.data| && |s.reader.dst| <= s.reader.len < |s.data|)
  }

  function WriterNext(s: State): State
    requires Shape(s)
  {
    match s.writer
    case NotWriting => s
    case AskedRoom(src) => s.(writer := KnowsEnd(src, s.writePos))
    case KnowsEnd(src, w) =>
      if WriteAvailable(w, s.readPos, s.Size()) >= |src| then s.(writer := HasRoom(src)) else s.(writer := NotWriting)
    case HasRoom(src) => s.(writer := Copying(src, s.writePos, 0))
    case Copying(src, w, k) =>
      if k < |src|
      then s.(writer := Copying(src, w, k + 1), data := s.data[Address(w, |src|, k, s.Size()) := src[k]])
      else s.(writer := NotWriting, writePos := Slot(w + |src|, s.Size()), written := s.written + src)
  }

  function ReaderNext(s: State): State
    requires Shape(s)
  {
    match s.reader
    case NotReading => s
    case AskedData(len) => s.(reader := KnowsFill(len, s.writePos, |s.written|))
    case KnowsFill(len, w, _) =>
      if ReadAvailable(w, s.readPos, s.Size()) >= len then s.(reader := HasData(len)) else s.(reader := NotReading)
    case HasData(len) => s.(reader := Fetching(len, s.readPos, []))
    case Fetching(len, r, dst) =>
      if |dst| < len
      then s.(reader := Fetching(len, r, dst + [s.data[Address(r, len, |dst|, s.Size())]]))
      else s.(reader := NotReading, readPos := Slot(r + len, s.Size()), got := s.got + dst)
  }

  function Apply(s: State, a: Action): State
    requires Shape(s)
    ensures Shape(Apply(s, a))
  {
    match a
    case CallWrite(src) =>
      if s.writer.NotWriting? && 0 < |src| <= s.Size() - 1 then s.(writer := AskedRoom(src)) else s
    case WriterStep => AddressInside(s); WriterNext(s)
    case CallRead(len) => if s.reader.NotReading? && len > 0 then s.(reader := AskedData(len)) else s
    case ReaderStep => AddressInside(s); ReaderNext(s)
  }

  lemma AddressInside(s: State)
    requires Shape(s)
    ensures Shape(WriterNext(s)) && Shape(ReaderNext(s))
  {
  }

  function Exec(s: State, actions: seq<Action>): State
    requires Shape(s)
    ensures Shape(Exec(s, actions))
    decreases |actions|
  {
    if actions == [] then s else Exec(Apply(s, actions[0]), actions[1..])
  }

  // ---------------------------------------------------------------------------
  // Positions modulo the size
  // ---------------------------------------------------------------------------

  lemma {:induction false} SlotPlus(i: nat, k: nat, n: nat)
    requires n > 0
    ensures Slot(Slot(i, n) + k, n) == Slot(i + k, n)
    decreases i
  {
    if i >= n { SlotPlus(i - n, k, n); }
  }

  /** The distance between two stream positions less than a lap apart, from their slots alone. */
  lemma {:induction false} SlotGap(r: nat, w: nat, n: nat)
    requires n > 0 && r <= w < r + n
    ensures ReadAvailable(Slot(w, n), Slot(r, n), n) == w - r
    ensures WriteAvailable(Slot(w, n), Slot(r, n), n) == n - 1 - (w - r)
    decreases r
  {
    if r >= n { SlotGap(r - n, w - n, n); }
  }

  lemma AddressIsSlot(i: nat, len: nat, k: nat, n: nat)
    requires n > 0 && k < len < n
    ensures Address(Slot(i, n), len, k, n) == Slot(i + k, n)
  {
    SlotPlus(i, k, n);
  }

  // ---------------------------------------------------------------------------
  // Invariant
  // ---------------------------------------------------------------------------

  /** Byte `b` stands in the slot of stream position `p`. */
  predicate Stands(data: seq<Byte>, p: nat, b: Byte)
    requires data != []
  {
    data[Slot(p, |data|)] == b
  }

  /** The unread bytes stand in their slots. */
  ghost predicate Unread(data: seq<Byte>, written: seq<Byte>, r: nat)
    requires data != []
  {
    forall p: nat {:trigger Stands(data, p, written[p])} :: r <= p < |written| ==> Stands(data, p, written[p])
  }

  /** The first `k` bytes of `src` stand in the slots from position `w` on. */
  ghost predicate Copied(data: seq<Byte>, w: nat, src: seq<Byte>, k: nat)
    requires data != [] && k <= |src|
  {
    forall j: nat {:trigger CopiedAt(data, w, src, j)} :: j < k ==> CopiedAt(data, w, src, j)
  }

  predicate CopiedAt(data: seq<Byte>, w: nat, src: seq<Byte>, j: nat)
    requires data != [] && j < |src|
  {
    Stands(data, w + j, src[j])
  }

  /** Positions and bytes agree with the two streams. */
  ghost predicate Core(data: seq<Byte>, writePos: nat, readPos: nat, written: seq<Byte>, got: seq<Byte>) {
    var n, w, r := |data|, |written|, |got|;
    && r <= w < r + n && writePos == Slot(w, n) && readPos == Slot(r, n)
    && got == written[..r]
    && Unread(data, written, r)
  }

  ghost predicate Inv(s: State) {
    && Shape(s)
    && Core(s.data, s.writePos, s.readPos, s.written, s.got)
    && WriterOk(s.writer, s.data, s.writePos, |s.written|, |s.got|)
    && ReaderOk(s.reader, |s.data|, s.readPos, s.written, |s.got|)
  }

  ghost predicate WriterOk(writer: Writer, data: seq<Byte>, writePos: nat, w: nat, r: nat)
    requires data != []
  {
    match writer
    case KnowsEnd(src, pos) => pos == writePos
    case HasRoom(src) => w + |src| < r + |data|
    case Copying(src, pos, k) => pos == writePos && w + |src| < r + |data| && k <= |src| && Copied(data, w, src, k)
    case _ => true
  }

  ghost predicate ReaderOk(reader: Reader, n: nat, readPos: nat, written: seq<Byte>, r: nat)
    requires n > 0
  {
    match reader
    case KnowsFill(_, pos, seen) => r <= seen <= |written| && pos == Slot(seen, n)
    case HasData(len) => r + len <= |written|
    case Fetching(len, pos, dst) => pos == readPos && |dst| <= len && r + len <= |written| && dst == written[r..r + |dst|]
    case _ => true
  }

  lemma InitInv(data: seq<Byte>)
    requires data != []
    ensures Inv(Init(data))
  {
  }

  /** One more byte copied touches neither the unread bytes nor those copied before. */
  lemma CopiedOne(data: seq<Byte>, written: seq<Byte>, r: nat, src: seq<Byte>, k: nat)
    requires data != [] && k < |src| && r <= |written| && |written| + |src| < r + |data|
    requires Unread(data, written, r) && Copied(data, |written|, src, k)
    ensures var data' := data[Slot(|written| + k, |data|) := src[k]];
            Unread(data', written, r) && Copied(data', |written|, src, k + 1)
  {
    var n, w := |data|, |written|;
    var data' := data[Slot(w + k, n) := src[k]];
    forall p: nat | r <= p < w ensures Stands(data', p, written[p]) {
      assert Stands(data, p, written[p]);
      SlotsDistinct(p, w + k, n);
    }
    forall j: nat | j < k + 1 ensures CopiedAt(data', w, src, j) {
      if j < k {
        assert CopiedAt(data, w, src, j);
        SlotsDistinct(w + j, w + k, n);
      }
    }
  }

  lemma CopiedAll(data: seq<Byte>, written: seq<Byte>, r: nat, src: seq<Byte>)
    requires data != [] && r <= |written|
    requires Unread(data, written, r) && Copied(data, |written|, src, |src|)
    ensures Unread(data, written + src, r)
  {
    var w, all := |written|, written + src;
    forall p: nat | r <= p < |all| ensures Stands(data, p, all[p]) {
      if p < w { assert Stands(data, p, written[p]); } else { assert CopiedAt(data, w, src, p - w); }
    }
  }

  lemma CopyKeepsInv(s: State)
    requires Inv(s) && s.writer.Copying? && s.writer.k < |s.writer.src|
    ensures Inv(WriterNext(s))
  {
    AddressInside(s);
    AddressIsSlot(|s.written|, |s.writer.src|, s.writer.k, s.Size());
    CopiedOne(s.data, s.written, |s.got|, s.writer.src, s.writer.k);
  }

  lemma PublishKeepsCore(data: seq<Byte>, writePos: nat, readPos: nat, written: seq<Byte>, got: seq<Byte>, src: seq<Byte>)
    requires Core(data, writePos, readPos, written, got)
    requires |written| + |src| < |got| + |data| && Copied(data, |written|, src, |src|)
    ensures Core(data, Slot(writePos + |src|, |data|), readPos, written + src, got)
  {
    SlotPlus(|written|, |src|, |data|);
    CopiedAll(data, written, |got|, src);
    PrefixStays(written, src, got);
  }

  lemma PublishKeepsReader(reader: Reader, n: nat, readPos: nat, written: seq<Byte>, r: nat, src: seq<Byte>)
    requires n > 0 && ReaderOk(reader, n, readPos, written, r)
    ensures ReaderOk(reader, n, readPos, written + src, r)
  {
    if reader.Fetching? { PartStays(written, src, r, |reader.dst|); }
  }

  lemma PublishKeepsInv(s: State)
    requires Inv(s) && s.writer.Copying? && s.writer.k == |s.writer.src|
    ensures Inv(WriterNext(s))
  {
    AddressInside(s);
    PublishKeepsCore(s.data, s.writePos, s.readPos, s.written, s.got, s.writer.src);
    PublishKeepsReader(s.reader, |s.data|, s.readPos, s.written, |s.got|, s.writer.src);
  }

  lemma WriterKeepsInv(s: State)
    requires Inv(s)
    ensures Inv(WriterNext(s))
  {
    match s.writer
    case Copying(src, _, k) => if k < |src| { CopyKeepsInv(s); } else { PublishKeepsInv(s); }
    case KnowsEnd(src, _) => SlotGap(|s.got|, |s.written|, s.Size());
    case _ =>
  }

  lemma PrefixStays(a: seq<Byte>, b: seq<Byte>, c: seq<Byte>)
    requires |c| <= |a| && c == a[..|c|]
    ensures c == (a + b)[..|c|]
  {
  }

  lemma PartStays(a: seq<Byte>, b: seq<Byte>, r: nat, d: nat)
    requires r + d <= |a|
    ensures (a + b)[r..r + d] == a[r..r + d]
  {
  }

  lemma Parts(a: seq<Byte>, r: nat, d: nat)
    requires r + d <= |a|
    ensures a[..r + d] == a[..r] + a[r..r + d]
    ensures r + d < |a| ==> a[r..r + d + 1] == a[r..r + d] + [a[r + d]]
  {
  }

  /** The next byte fetched is the next one written. */
  lemma FetchedOne(data: seq<Byte>, writePos: nat, readPos: nat, written: seq<Byte>, got: seq<Byte>, len: nat, dst: seq<Byte>)
    requires Core(data, writePos, readPos, written, got) && |dst| < len < |data|
    requires |got| + len <= |written| && dst == written[|got|..|got| + |dst|]
    ensures Address(readPos, len, |dst|, |data|) < |data|
    ensures dst + [data[Address(readPos, len, |dst|, |data|)]] == written[|got|..|got| + |dst| + 1]
  {
    var r, d := |got|, |dst|;
    Parts(written, r, d);
    AddressIsSlot(r, len, d, |data|);
    assert Stands(data, r + d, written[r + d]);
  }

  lemma FetchKeepsInv(s: State)
    requires Inv(s) && s.reader.Fetching? && |s.reader.dst| < s.reader.len
    ensures Inv(ReaderNext(s))
  {
    AddressInside(s);
    FetchedOne(s.data, s.writePos, s.readPos, s.written, s.got, s.reader.len, s.reader.dst);
  }

  lemma HandOverKeepsCore(data: seq<Byte>, writePos: nat, readPos: nat, written: seq<Byte>, got: seq<Byte>, len: nat)
    requires Core(data, writePos, readPos, written, got) && |got| + len <= |written|
    ensures Core(data, writePos, Slot(readPos + len, |data|), written, got + written[|got|..|got| + len])
  {
    Parts(written, |got|, len);
    SlotPlus(|got|, len, |data|);
    FewerUnread(data, written, |got|, |got| + len);
  }

  lemma HandOverKeepsInv(s: State)
    requires Inv(s) && s.reader.Fetching? && |s.reader.dst| == s.reader.len
    ensures Inv(ReaderNext(s))
  {
    AddressInside(s);
    HandOverKeepsCore(s.data, s.writePos, s.readPos, s.written, s.got, s.reader.len);
  }

  lemma FewerUnread(data: seq<Byte>, written: seq<Byte>, r: nat, r': nat)
    requires data != [] && r <= r' && Unread(data, written, r)
    ensures Unread(data, written, r')
  {
  }

  lemma ReaderKeepsInv(s: State)
    requires Inv(s)
    ensures Inv(ReaderNext(s))
  {
    match s.reader
    case Fetching(len, _, dst) => if |dst| < len { FetchKeepsInv(s); } else { HandOverKeepsInv(s); }
    case KnowsFill(len, _, seen) => SlotGap(|s.got|, seen, s.Size());
    case _ =>
  }

  lemma StepKeepsInv(s: State, a: Action)
    requires Inv(s)
    ensures Inv(Apply(s, a))
  {
    match a
    case WriterStep => WriterKeepsInv(s);
    case ReaderStep => ReaderKeepsInv(s);
    case _ =>
  }

  lemma {:induction false} RunKeepsInv(s: State, actions: seq<Action>)
    requires Inv(s)
    ensures Inv(Exec(s, actions))
    decreases |actions|
  {
    if actions != [] {
      StepKeepsInv(s, actions[0]);
      RunKeepsInv(Apply(s, actions[0]), actions[1..]);
    }
  }

  // ---------------------------------------------------------------------------
  // What the two sides can rely on
  // ---------------------------------------------------------------------------

  /** In every interleaving the bytes read are a prefix of the bytes written, and the unread
      ones stand in the ring, fewer than its size. */
  lemma RingSafety(data: seq<Byte>, actions: seq<Action>)
    requires data != []
    ensures var s := Exec(Init(data), actions);
            && s.got <= s.written && |s.data| == |data| && |s.written| - |s.got| <= |data| - 1
            && Unread(s.data, s.written, |s.got|)
  {
    InitInv(data);
    RunKeepsInv(Init(data), actions);
    SizeStays(Init(data), actions);
  }

  lemma {:induction false} SizeStays(s: State, actions: seq<Action>)
    requires Shape(s)
    ensures |Exec(s, actions).data| == |s.data|
    decreases |actions|
  {
    if actions != [] { SizeStays(Apply(s, actions[0]), actions[1..]); }
  }

  /** A step of the writer changes no byte that is published and unread. */
  lemma UnreadUntouched(s: State, p: nat)
    requires Inv(s) && |s.got| <= p < |s.written|
    ensures WriterNext(s).data[Slot(p, s.Size())] == s.data[Slot(p, s.Size())]
  {
    if s.writer.Copying? && s.writer.k < |s.writer.src| {
      AddressIsSlot(|s.written|, |s.writer.src|, s.writer.k, s.Size());
      SlotsDistinct(p, |s.written| + s.writer.k, s.Size());
    }
  }

  /** With both sides at rest, the two "available" counts say exactly what is unread and what
      is free, and add up to the size less one. */
  lemma QuiescentSpace(s: State)
    requires Inv(s)
    ensures ReadAvailable(s.writePos, s.readPos, s.Size()) == |s.written| - |s.got|
    ensures ReadAvailable(s.writePos, s.readPos, s.Size()) + WriteAvailable(s.writePos, s.readPos, s.Size()) == s.Size() - 1
  {
    SlotGap(|s.got|, |s.written|, s.Size());
  }

  /** Stale positions err on the safe side: what a side is told is available really is, then
      and until it acts. */
  lemma StaleIsConservative(s: State)
    requires Inv(s)
    ensures s.writer.KnowsEnd? ==> WriteAvailable(s.writer.w, s.readPos, s.Size()) == s.Size() - 1 - (|s.written| - |s.got|)
    ensures s.reader.KnowsFill? ==> 0 <= ReadAvailable(s.reader.w, s.readPos, s.Size()) <= |s.written| - |s.got|
  {
    SlotGap(|s.got|, |s.written|, s.Size());
    if s.reader.KnowsFill? { SlotGap(|s.got|, s.reader.seen, s.Size()); }
  }

  // ---------------------------------------------------------------------------
  // A call left alone
  // ---------------------------------------------------------------------------

  /** `n` steps of the writer, the reader not moving, and the other way round. */
  function WriterAlone(s: State, n: nat): State
    requires Shape(s)
    decreases n
  {
    if n == 0 then s else WriterAlone(Apply(s, WriterStep), n - 1)
  }

  function ReaderAlone(s: State, n: nat): State
    requires Shape(s)
    decreases n
  {
    if n == 0 then s else ReaderAlone(Apply(s, ReaderStep), n - 1)
  }

  /** The writer is through, with `more` published. */
  ghost predicate WriteEnds(s: State, s': State, more: seq<Byte>) {
    s'.writer == NotWriting && s'.written == s.written + more && s'.got == s.got && s'.reader == s.reader && s'.readPos == s.readPos
  }

  /** A write under way has room, by its own test or by a test to come. */
  predicate WillFit(s: State)
    requires !s.writer.NotWriting?
  {
    s.writer.HasRoom? || s.writer.Copying? || |s.written| + |s.writer.src| < |s.got| + s.Size()
  }

  ghost predicate WriteDone(s: State, s': State)
    requires !s.writer.NotWriting?
  {
    Inv(s') && WriteEnds(s, s', if WillFit(s) then s.writer.src else [])
  }

  /** From anywhere inside a write, left alone, the writer is through in four steps and one for each
      byte: its bytes are published, all of them, if they fit, and refused otherwise. */
  lemma WriteFinishes(s: State, n: nat)
    requires Inv(s) && !s.writer.NotWriting? && n >= |s.writer.src| + 4
    ensures WriteDone(s, WriterAlone(s, n))
  {
    match s.writer
    case AskedRoom(_) => WriteAsks(s, n);
    case KnowsEnd(_, _) => WriteTests(s, n);
    case HasRoom(_) => WriteStarts(s, n);
    case Copying(_, _, _) => WriteCopies(s, n);
  }

  lemma WriteAsks(s: State, n: nat)
    requires Inv(s) && s.writer.AskedRoom? && n >= |s.writer.src| + 4
    ensures WriteDone(s, WriterAlone(s, n))
  {
    WriterKeepsInv(s);
    WriteTests(s.(writer := KnowsEnd(s.writer.src, s.writePos)), n - 1);
  }

  lemma WriteTests(s: State, n: nat)
    requires Inv(s) && s.writer.KnowsEnd? && n >= |s.writer.src| + 3
    ensures WriteDone(s, WriterAlone(s, n))
  {
    StaleIsConservative(s);
    WriterKeepsInv(s);
    if WillFit(s) {
      WriteStarts(s.(writer := HasRoom(s.writer.src)), n - 1);
    } else {
      WriterRests(s.(writer := NotWriting), n - 1);
      assert s.written + [] == s.written;
    }
  }

  lemma WriteStarts(s: State, n: nat)
    requires Inv(s) && s.writer.HasRoom? && n >= |s.writer.src| + 2
    ensures WriteDone(s, WriterAlone(s, n))
  {
    WriterKeepsInv(s);
    WriteCopies(s.(writer := Copying(s.writer.src, s.writePos, 0)), n - 1);
  }

  lemma {:induction false} WriterRests(s: State, n: nat)
    requires Shape(s) && s.writer.NotWriting?
    ensures WriterAlone(s, n) == s
  {
    if n > 0 { WriterRests(s, n - 1); }
  }

  lemma {:induction false} WriteCopies(s: State, n: nat)
    requires Inv(s) && s.writer.Copying? && n >= |s.writer.src| - s.writer.k + 1
    ensures WriteDone(s, WriterAlone(s, n))
    decreases n
  {
    var s1 := Apply(s, WriterStep);
    WriterKeepsInv(s);
    if s.writer.k < |s.writer.src| { WriteCopies(s1, n - 1); } else { WriterRests(s1, n - 1); }
  }

  /** The reader is through, with `more` handed over. */
  ghost predicate ReadEnds(s: State, s': State, more: seq<Byte>) {
    s'.reader == NotReading && s'.got == s.got + more && s'.written == s.written && s'.writer == s.writer && s'.writePos == s.writePos && s'.data == s.data
  }

  /** A read under way finds enough, by the test it passed or by what its copy of the write
      position shows. */
  predicate WillFind(s: State)
    requires !s.reader.NotReading?
  {
    match s.reader
    case AskedData(len) => |s.got| + len <= |s.written|
    case KnowsFill(len, _, seen) => |s.got| + len <= seen
    case _ => true
  }

  /** The next `len` bytes that are there for the reader. */
  ghost function Upcoming(s: State, len: nat): seq<Byte>
    requires |s.got| + len <= |s.written|
  {
    s.written[|s.got|..|s.got| + len]
  }

  ghost predicate ReadDone(s: State, s': State)
    requires !s.reader.NotReading?
  {
    && Inv(s')
    && if WillFind(s) then |s.got| + s.reader.len <= |s.written| && ReadEnds(s, s', Upcoming(s, s.reader.len)) else ReadEnds(s, s', [])
  }

  /** From anywhere inside a read, left alone, the reader is through in four steps and one for each
      byte: with the next bytes of the stream if there are enough, and with none otherwise. */
  lemma ReadFinishes(s: State, n: nat)
    requires Inv(s) && !s.reader.NotReading? && n >= s.reader.len + 4
    ensures ReadDone(s, ReaderAlone(s, n))
  {
    match s.reader
    case AskedData(_) => ReadAsks(s, n);
    case KnowsFill(_, _, _) => ReadTests(s, n);
    case HasData(_) => ReadStarts(s, n);
    case Fetching(_, _, _) => ReadFetches(s, n);
  }

  lemma ReadAsks(s: State, n: nat)
    requires Inv(s) && s.reader.AskedData? && n >= s.reader.len + 4
    ensures ReadDone(s, ReaderAlone(s, n))
  {
    ReaderKeepsInv(s);
    ReadTests(s.(reader := KnowsFill(s.reader.len, s.writePos, |s.written|)), n - 1);
  }

  lemma ReadTests(s: State, n: nat)
    requires Inv(s) && s.reader.KnowsFill? && n >= s.reader.len + 3
    ensures ReadDone(s, ReaderAlone(s, n))
  {
    SlotGap(|s.got|, s.reader.seen, s.Size());
    ReaderKeepsInv(s);
    if WillFind(s) {
      ReadStarts(s.(reader := HasData(s.reader.len)), n - 1);
    } else {
      ReaderRests(s.(reader := NotReading), n - 1);
      assert s.got + [] == s.got;
    }
  }

  lemma ReadStarts(s: State, n: nat)
    requires Inv(s) && s.reader.HasData? && n >= s.reader.len + 2
    ensures ReadDone(s, ReaderAlone(s, n))
  {
    ReaderKeepsInv(s);
    ReadFetches(s.(reader := Fetching(s.reader.len, s.readPos, [])), n - 1);
  }

  lemma {:induction false} ReaderRests(s: State, n: nat)
    requires Shape(s) && s.reader.NotReading?
    ensures ReaderAlone(s, n) == s
  {
    if n > 0 { ReaderRests(s, n - 1); }
  }

  lemma {:induction false} ReadFetches(s: State, n: nat)
    requires Inv(s) && s.reader.Fetching? && n >= s.reader.len - |s.reader.dst| + 1
    ensures ReadDone(s, ReaderAlone(s, n))
    decreases n
  {
    var s1 := Apply(s, ReaderStep);
    ReaderKeepsInv(s);
    if |s.reader.dst| < s.reader.len { ReadFetches(s1, n - 1); } else { ReaderRests(s1, n - 1); }
  }

  /** A whole write left alone publishes all its bytes if there is room for them, with one byte to
      spare, and none otherwise. */
  lemma WriteCall(s: State, src: seq<Byte>)
    requires Inv(s) && s.writer.NotWriting?
    ensures var u := WriterAlone(Apply(s, CallWrite(src)), |src| + 4);
            Inv(u) && WriteEnds(s, u, if |s.written| - |s.got| + |src| <= s.Size() - 1 then src else [])
  {
    if 0 < |src| <= s.Size() - 1 { WriteAsked(s, src); } else { WriteRefused(s, src); }
  }

  lemma WriteAsked(s: State, src: seq<Byte>)
    requires Inv(s) && s.writer.NotWriting? && 0 < |src| <= s.Size() - 1
    ensures var u := WriterAlone(Apply(s, CallWrite(src)), |src| + 4);
            Inv(u) && WriteEnds(s, u, if |s.written| - |s.got| + |src| <= s.Size() - 1 then src else [])
  {
    WriteFinishes(s.(writer := AskedRoom(src)), |src| + 4);
  }

  lemma WriteRefused(s: State, src: seq<Byte>)
    requires Inv(s) && s.writer.NotWriting? && (src == [] || |src| > s.Size() - 1)
    ensures WriterAlone(Apply(s, CallWrite(src)), |src| + 4) == s && s.written + [] == s.written
  {
    WriterRests(s, |src| + 4);
  }

  /** A whole read left alone gets the next bytes of the stream if there are as many, and none otherwise. */
  lemma ReadCall(s: State, len: nat)
    requires Inv(s) && s.reader.NotReading?
    ensures var u := ReaderAlone(Apply(s, CallRead(len)), len + 4);
            Inv(u) && ReadEnds(s, u, if |s.got| + len <= |s.written| then Upcoming(s, len) else [])
  {
    assert s.got + [] == s.got;
    if len == 0 { ReaderRests(s, len + 4); } else { ReadFinishes(s.(reader := AskedData(len)), len + 4); }
  }
}
