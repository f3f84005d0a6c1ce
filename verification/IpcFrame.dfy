/** The wire format of an IPC message: a packed 28-byte little-endian header, a service name
    of 64 bytes, and the payload. */
module IpcFrame {
  import opened Basics

  type Byte = x: int | 0 <= x < 256

  const Magic := 0x51444950
  const Version := 1
  const HeaderSize := 28
  const NameSize := 64
  const MaxPayload := 64 * 1024

  datatype Header = Header(magic: nat, version: nat, msgType: nat, msgId: nat, payloadLen: nat, flags: nat, timestamp: nat)

  datatype Msg = Msg(header: Header, service: seq<Byte>, payload: seq<Byte>)

  // ---------------------------------------------------------------------------
  // Little-endian fields
  // ---------------------------------------------------------------------------

  /** The number of values a field of `k` bytes can hold. */
  function Range(k: nat): (n: nat)
    ensures n > 0
  {
    if k == 0 then 1 else 256 * Range(k - 1)
  }

  function Bytes(v: nat, k: nat): (b: seq<Byte>)
    ensures |b| == k
    decreases k
  {
    if k == 0 then [] else [v % 256] + Bytes(v / 256, k - 1)
  }

  function Number(b: seq<Byte>): (v: nat) {
    if b == [] then 0 else b[0] + 256 * Number(b[1..])
  }

  lemma {:induction false} NumberOfBytes(v: nat, k: nat)
    requires v < Range(k)
    ensures Number(Bytes(v, k)) == v
    decreases k
  {
    if k > 0 {
      NumberOfBytes(v / 256, k - 1);
      assert Bytes(v, k)[1..] == Bytes(v / 256, k - 1);
    }
  }

  lemma {:induction false} BytesOfNumber(b: seq<Byte>)
    ensures Number(b) < Range(|b|) && Bytes(Number(b), |b|) == b
  {
    if b != [] {
      var r := Number(b[1..]);
      BytesOfNumber(b[1..]);
      LowByte(b[0], r);
      assert Bytes(Number(b), |b|) == [b[0]] + Bytes(r, |b| - 1);
    }
  }

  lemma LowByte(b: Byte, r: nat)
    ensures (b + 256 * r) % 256 == b && (b + 256 * r) / 256 == r
  {
  }

  /** Fields one after the other, `widths` giving their sizes. */
  function Pack(vs: seq<nat>, widths: seq<nat>): (b: seq<Byte>)
    requires |vs| == |widths|
    ensures |b| == Sum(widths)
  {
    if vs == [] then [] else Bytes(vs[0], widths[0]) + Pack(vs[1..], widths[1..])
  }

  function Sum(widths: seq<nat>): nat {
    if widths == [] then 0 else widths[0] + Sum(widths[1..])
  }

  function Unpack(b: seq<Byte>, widths: seq<nat>): (vs: seq<nat>)
    requires |b| == Sum(widths)
    ensures |vs| == |widths|
    decreases |widths|
  {
    if widths == [] then [] else [Number(b[..widths[0]])] + Unpack(b[widths[0]..], widths[1..])
  }

  predicate Fit(vs: seq<nat>, widths: seq<nat>) {
    |vs| == |widths| && forall i :: 0 <= i < |vs| ==> vs[i] < Range(widths[i])
  }

  lemma {:induction false} UnpackPacked(vs: seq<nat>, widths: seq<nat>)
    requires Fit(vs, widths)
    ensures Unpack(Pack(vs, widths), widths) == vs
    decreases |vs|
  {
    if vs != [] {
      var b := Pack(vs, widths);
      NumberOfBytes(vs[0], widths[0]);
      assert b[..widths[0]] == Bytes(vs[0], widths[0]) && b[widths[0]..] == Pack(vs[1..], widths[1..]);
      UnpackPacked(vs[1..], widths[1..]);
    }
  }

  lemma {:induction false} PackUnpacked(b: seq<Byte>, widths: seq<nat>)
    requires |b| == Sum(widths)
    ensures Fit(Unpack(b, widths), widths) && Pack(Unpack(b, widths), widths) == b
    decreases |widths|
  {
    if widths != [] {
      BytesOfNumber(b[..widths[0]]);
      PackUnpacked(b[widths[0]..], widths[1..]);
      var vs := Unpack(b, widths);
      assert vs[1..] == Unpack(b[widths[0]..], widths[1..]);
      assert b == b[..widths[0]] + b[widths[0]..];
    }
  }

  // ---------------------------------------------------------------------------
  // The header
  // ---------------------------------------------------------------------------

  const Layout: seq<nat> := [4, 2, 2, 4, 4, 4, 8]

  function Fields(h: Header): seq<nat> {
    [h.magic, h.version, h.msgType, h.msgId, h.payloadLen, h.flags, h.timestamp]
  }

  lemma LayoutSize()
    ensures Sum(Layout) == HeaderSize
  {
    assert Sum(Layout) == 4 + Sum(Layout[1..]) && Sum(Layout[1..]) == 2 + Sum(Layout[2..]);
    assert Sum(Layout[2..]) == 2 + Sum(Layout[3..]) && Sum(Layout[3..]) == 4 + Sum(Layout[4..]);
    assert Sum(Layout[4..]) == 4 + Sum(Layout[5..]) && Sum(Layout[5..]) == 4 + Sum(Layout[6..]);
    assert Sum(Layout[6..]) == 8 + Sum(Layout[7..]);
  }

  function HeaderBytes(h: Header): (b: seq<Byte>)
    ensures |b| == HeaderSize
  {
    LayoutSize();
    Pack(Fields(h), Layout)
  }

  function HeaderOf(b: seq<Byte>): Header
    requires |b| == HeaderSize
  {
    LayoutSize();
    var vs := Unpack(b, Layout);
    Header(vs[0], vs[1], vs[2], vs[3], vs[4], vs[5], vs[6])
  }

  /** Byte `i` of a field is its `i`-th digit to the base of 256, the lowest first. */
  lemma {:induction false} LittleEndian(v: nat, k: nat, i: nat)
    requires i < k
    ensures Bytes(v, k)[i] == v / Range(i) % 256
    decreases i
  {
    if i > 0 {
      LittleEndian(v / 256, k - 1, i - 1);
      assert v / 256 / Range(i - 1) == v / Range(i) by { DivTwice(v, Range(i - 1)); }
    }
  }

  lemma DivTwice(v: nat, m: nat)
    requires m > 0
    ensures v / 256 / m == v / (256 * m)
  {
    var a, q := v / 256, v / 256 / m;
    assert v == 256 * a + v % 256 && a == m * q + a % m;
    var r := 256 * (a % m) + v % 256;
    assert v == (256 * m) * q + r && 0 <= r < 256 * m;
    QuotientIs(v, 256 * m, q, r);
  }

  lemma QuotientIs(v: nat, m: nat, q: nat, r: nat)
    requires m > 0 && v == m * q + r && r < m
    ensures v / m == q
  {
    var p := v / m;
    assert v == m * p + v % m;
    OneApart(m, p, q);
    OneApart(m, q, p);
  }

  lemma OneApart(m: nat, x: nat, y: nat)
    ensures x < y ==> m * x + m <= m * y
  {
    if x < y { assert m * (y - x - 1) >= 0 && m * (y - x - 1) == m * y - m * x - m; }
  }

  /** Where each field of the header stands. */
  lemma HeaderLayout(h: Header)
    ensures var b := HeaderBytes(h);
            && b[0..4] == Bytes(h.magic, 4) && b[4..6] == Bytes(h.version, 2) && b[6..8] == Bytes(h.msgType, 2)
            && b[8..12] == Bytes(h.msgId, 4) && b[12..16] == Bytes(h.payloadLen, 4) && b[16..20] == Bytes(h.flags, 4)
            && b[20..28] == Bytes(h.timestamp, 8)
  {
    var b, vs := HeaderBytes(h), Fields(h);
    PackTwo(vs, Layout);
    PackTwo(vs[2..], Layout[2..]);
    PackTwo(vs[4..], Layout[4..]);
    var c, d, e := Pack(vs[2..], Layout[2..]), Pack(vs[4..], Layout[4..]), Pack(vs[6..], Layout[6..]);
    Slice(b, 6, c, 0, 2);
    Slice(b, 6, c, 2, 6);
    Slice(b, 12, d, 0, 4);
    Slice(b, 12, d, 4, 8);
    Slice(b, 20, e, 0, 8);
    LastField(vs[6..], Layout[6..]);
  }

  lemma PackTwo(vs: seq<nat>, widths: seq<nat>)
    requires |vs| == |widths| >= 2
    ensures var b, v, w := Pack(vs, widths), widths[0], widths[0] + widths[1];
            b[..v] == Bytes(vs[0], widths[0]) && b[v..w] == Bytes(vs[1], widths[1]) && b[w..] == Pack(vs[2..], widths[2..])
  {
    var b, c, v := Pack(vs, widths), Pack(vs[1..], widths[1..]), widths[0];
    assert b == Bytes(vs[0], v) + c;
    assert vs[1..][1..] == vs[2..] && widths[1..][1..] == widths[2..];
    assert c == Bytes(vs[1], widths[1]) + Pack(vs[2..], widths[2..]);
    assert b[v..] == c;
  }

  lemma LastField(vs: seq<nat>, widths: seq<nat>)
    requires |vs| == |widths| == 1
    ensures Pack(vs, widths) == Bytes(vs[0], widths[0])
  {
    assert Pack(vs, widths) == Bytes(vs[0], widths[0]) + Pack(vs[1..], widths[1..]);
  }

  lemma Slice(b: seq<Byte>, k: nat, c: seq<Byte>, i: nat, j: nat)
    requires k <= |b| && c == b[k..] && i <= j <= |c|
    ensures b[k + i..k + j] == c[i..j]
  {
  }

  /** Every field has a value its C type can hold. */
  predicate HeaderFits(h: Header) { Fit(Fields(h), Layout) }

  lemma HeaderRoundTrip(h: Header)
    requires HeaderFits(h)
    ensures HeaderOf(HeaderBytes(h)) == h
  {
    UnpackPacked(Fields(h), Layout);
  }

  lemma HeaderOfBytes(b: seq<Byte>)
    requires |b| == HeaderSize
    ensures HeaderFits(HeaderOf(b)) && HeaderBytes(HeaderOf(b)) == b
  {
    LayoutSize();
    PackUnpacked(b, Layout);
    assert Fields(HeaderOf(b)) == Unpack(b, Layout);
  }

  // ---------------------------------------------------------------------------
  // Messages
  // ---------------------------------------------------------------------------

  function FrameSize(h: Header): nat { HeaderSize + NameSize + h.payloadLen }

  /** A message as the sender's structure can hold it. */
  predicate MsgFits(m: Msg) {
    HeaderFits(m.header) && |m.service| == NameSize && |m.payload| == m.header.payloadLen
  }

  function Serialize(m: Msg): seq<Byte> { HeaderBytes(m.header) + m.service + m.payload }

  function Deserialize(b: seq<Byte>): (r: Option<Msg>)
  {
    if |b| < HeaderSize + NameSize then None
    else
      var h := HeaderOf(b[..HeaderSize]);
      if h.magic != Magic || h.version != Version || h.payloadLen > MaxPayload || |b| < FrameSize(h) then None
      else
        var service := b[HeaderSize..HeaderSize + NameSize - 1] + [0];
        Some(Msg(h, service, b[HeaderSize + NameSize..FrameSize(h)]))
  }

  /** What the receiver accepts unchanged: right magic and version, a payload within the limit,
      a terminated service name. */
  predicate Acceptable(m: Msg)
    requires MsgFits(m)
  {
    && m.header.magic == Magic && m.header.version == Version && m.header.payloadLen <= MaxPayload
    && m.service[NameSize - 1] == 0
  }

  /** Deserializing inverts serializing exactly for acceptable messages, whatever follows. */
  lemma RoundTripExactly(m: Msg, rest: seq<Byte>)
    requires MsgFits(m)
    ensures |Serialize(m)| == FrameSize(m.header)
    ensures Deserialize(Serialize(m) + rest) == Some(m) <==> Acceptable(m)
  {
    SerializedParts(m, rest);
    HeaderRoundTrip(m.header);
    var name := m.service;
    assert name[..NameSize - 1] + [name[NameSize - 1]] == name;
    assert (name[..NameSize - 1] + [0])[NameSize - 1] == 0;
  }

  lemma SerializedParts(m: Msg, rest: seq<Byte>)
    requires MsgFits(m)
    ensures var b := Serialize(m) + rest;
            && |b| == FrameSize(m.header) + |rest|
            && b[..HeaderSize] == HeaderBytes(m.header)
            && b[HeaderSize..HeaderSize + NameSize - 1] == m.service[..NameSize - 1]
            && b[HeaderSize + NameSize..FrameSize(m.header)] == m.payload
  {
  }

  /** The other way round: an accepted frame is the serialized message, but for the last byte
      of the name, which is read as zero. */
  lemma AcceptedFrame(b: seq<Byte>)
    requires Deserialize(b).Some?
    ensures var m := Deserialize(b).value;
            && MsgFits(m) && Acceptable(m) && FrameSize(m.header) <= |b|
            && Serialize(m) == b[..FrameSize(m.header)][HeaderSize + NameSize - 1 := 0]
  {
    var m := Deserialize(b).value;
    HeaderOfBytes(b[..HeaderSize]);
    Parts(b, HeaderSize, HeaderSize + NameSize - 1, FrameSize(m.header));
  }

  lemma Parts(b: seq<Byte>, h: nat, k: nat, n: nat)
    requires h <= k < n <= |b|
    ensures b[..n][k := 0] == b[..h] + (b[h..k] + [0]) + b[k + 1..n]
  {
    var l, r := b[..n][k := 0], b[..h] + (b[h..k] + [0]) + b[k + 1..n];
    forall i | 0 <= i < n ensures l[i] == r[i] {}
  }
}
