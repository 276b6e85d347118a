/** The eZ430-RF2500_WSM_mag end device's spectrum buffer: `oneSpectrum`
 *  fills the 16 KB flash buffer with one trimmed ADC10 conversion per byte,
 *  and `transmitSpectrum` cuts it into packets behind a 4-byte header. */
module MagFlash {
  import opened CTypes
  import opened SampleFlash

  /** `HEADER_SIZE` */
  const HeaderSize: nat := 4
  /** `MSG_TYPE_MAG` */
  const MsgTypeMag: byte := 1

  /** `(ADC10MEM >> 2) & 0xff`: a conversion trimmed to one byte. */
  function Trim(r: adc10): (b: byte)
    ensures b == r / 4
  {
    (r / 4) % 0x100
  }

  /** The trimmed byte keeps the top 8 of the 10 bits: it is off from the
   *  reading by the two dropped bits only. */
  lemma TrimKeepsTop8(r: adc10)
    ensures 4 * Trim(r) <= r < 4 * Trim(r) + 4
  {
  }

  /** `oneSpectrum(adcchan)`: `adc(k)` is the k-th conversion of the run;
   *  segment by segment, byte by byte, each conversion is trimmed and saved
   *  at the next index, so conversion k ends up at index k. */
  method OneSpectrum(store: SampleStore, adc: nat -> adc10)
    requires store.buf.Length == SampleBufferSize
    modifies store.buf
    ensures forall k :: 0 <= k < SampleBufferSize ==> store.buf[k] == Trim(adc(k))
  {
    var segno := 0;
    while segno < NumSegs
      invariant segno <= NumSegs
      invariant forall k :: 0 <= k < segno * SegSize ==> store.buf[k] == Trim(adc(k))
    {
      var i := 0;
      while i < SegSize
        invariant i <= SegSize
        invariant forall k :: 0 <= k < segno * SegSize + i ==> store.buf[k] == Trim(adc(k))
      {
        var result := Trim(adc(segno * SegSize + i));
        store.SaveSample(segno * SegSize + i, result);
        i := i + 1;
      }
      segno := segno + 1;
    }
  }

  // ---------------------------------------------------------------------
  // transmitSpectrum
  // ---------------------------------------------------------------------

  /** `REAL_PAYLOAD_SIZE`: the data bytes after the header. */
  function RealPayload(maxPayload: nat): nat
    requires HeaderSize < maxPayload
  {
    maxPayload - HeaderSize
  }

  /** `NUM_PACKETS`: whole packets in the buffer. */
  function NumPackets(maxPayload: nat): nat
    requires HeaderSize < maxPayload
  {
    SampleBufferSize / RealPayload(maxPayload)
  }

  /** `NUM_PACKETS` packets of `REAL_PAYLOAD_SIZE` bytes fit the buffer and
   *  one more would not. */
  lemma NumPacketsFit(maxPayload: nat)
    requires HeaderSize < maxPayload
    ensures NumPackets(maxPayload) * RealPayload(maxPayload) <= SampleBufferSize
    ensures SampleBufferSize < (NumPackets(maxPayload) + 1) * RealPayload(maxPayload)
  {
    var n, r := NumPackets(maxPayload), RealPayload(maxPayload);
    assert SampleBufferSize == n * r + SampleBufferSize % r;
    assert (n + 1) * r == n * r + r;
  }

  /** The header, written once before the loop: type 1, missed acks 0,
   *  `seqno` 0 little-endian. */
  function MagHeader(): (h: seq<byte>)
    ensures |h| == HeaderSize
  {
    [MsgTypeMag, 0, 0, 0]
  }

  /** A receiver reads the header as a mag message, no missed acks,
   *  sequence number 0. */
  lemma MagHeaderFields()
    ensures MagHeader()[0] == MsgTypeMag && MagHeader()[1] == 0
    ensures LE16(MagHeader()[2], MagHeader()[3]) == 0
  {
  }

  /** `r * i`, the start of packet i of size `r`, by repeated addition:
   *  every step from one packet to the next is then linear, and
   *  `OffIsProduct` ties it to the product. */
  function Off(r: nat, i: nat): nat
  {
    if i == 0 then 0 else Off(r, i - 1) + r
  }

  lemma {:induction false} OffIsProduct(r: nat, i: nat)
    ensures Off(r, i) == r * i
  {
    if i > 0 {
      OffIsProduct(r, i - 1);
      assert r * i == r * (i - 1) + r;
    }
  }

  /** Later packets start no earlier. */
  lemma {:induction false} OffMono(r: nat, i: nat, k: nat)
    requires i <= k
    ensures Off(r, i) <= Off(r, k)
  {
    if i < k {
      OffMono(r, i, k - 1);
    }
  }

  /** The read index of the loop as written, `NUM_PACKETS * i + j`, with
   *  `n` for `NUM_PACKETS`. */
  function IndexAsWritten(n: nat, i: nat, j: nat): nat
  {
    Off(n, i) + j
  }

  /** The last index the loop as written reads, for a stride of `n` packets
   *  of `r` bytes each, stays inside `samplebuf`. */
  predicate StrideInBuffer(n: nat, r: nat)
  {
    n == 0 || r <= HeaderSize || IndexAsWritten(n, n - 1, r - 1) < SampleBufferSize
  }

  /** `StrideInBuffer` for the packet count and size a payload limit gives. */
  predicate ReadsInBufferAsWritten(maxPayload: nat)
    requires HeaderSize < maxPayload
  {
    StrideInBuffer(NumPackets(maxPayload), RealPayload(maxPayload))
  }

  /** With the 50-byte payload the message layout describes, the loop as
   *  written reads `samplebuf[16384]` at packet 46, byte 8: the stride
   *  between packets is `NUM_PACKETS` (356) where `REAL_PAYLOAD_SIZE` (46)
   *  was meant. */
  lemma TransmitReadsPastBuffer()
    ensures NumPackets(50) == 356 && RealPayload(50) == 46
    ensures 46 < NumPackets(50) && HeaderSize <= 8 < RealPayload(50)
    ensures IndexAsWritten(NumPackets(50), 46, 8) == SampleBufferSize
    ensures !ReadsInBufferAsWritten(50)
  {
    assert NumPackets(50) == 356;
    OffIsProduct(356, 46);
    OffIsProduct(356, 355);
  }

  /** The inner loop as written for one packet, whose first read index is
   *  `base` (= `NUM_PACKETS * i`): bytes 4 to `r` - 1 are read from
   *  `base + j`; no other byte of `msg` changes. */
  method FillAsWritten(store: SampleStore, msg: array<byte>, r: nat, base: nat)
    requires msg != store.buf && r <= msg.Length && (r <= HeaderSize || base + r - 1 < store.buf.Length)
    modifies msg
    ensures forall j :: HeaderSize <= j < r ==> msg[j] == store.buf[base + j]
    ensures forall j :: 0 <= j < msg.Length && !(HeaderSize <= j < r) ==> msg[j] == old(msg[j])
  {
    var j := HeaderSize;
    while j < r
      invariant HeaderSize <= j && (r <= HeaderSize || j <= r)
      invariant forall j' :: HeaderSize <= j' < j && j' < r ==> msg[j'] == store.buf[base + j']
      invariant forall j' :: 0 <= j' < msg.Length && !(HeaderSize <= j' < j && j' < r) ==> msg[j'] == old(msg[j'])
    {
      msg[j] := store.ReadSample(base + j);
      j := j + 1;
    }
  }

  /** One pass of the outer loop as written: packet i reads from
   *  `base` = `n * i`. */
  method StridePacketAsWritten(store: SampleStore, msg: array<byte>, n: nat, r: nat, i: nat) returns (base: nat)
    requires msg != store.buf && store.buf.Length == SampleBufferSize && r <= msg.Length
    requires StrideInBuffer(n, r) && i < n
    modifies msg
    ensures base == IndexAsWritten(n, i, 0)
    ensures HeaderSize < r ==> base + r - 1 < store.buf.Length
    ensures forall j :: HeaderSize <= j < r ==> msg[j] == store.buf[base + j]
    ensures forall j :: 0 <= j < msg.Length && !(HeaderSize <= j < r) ==> msg[j] == old(msg[j])
  {
    base := n * i;
    OffIsProduct(n, i);
    if HeaderSize < r {
      OffMono(n, i, n - 1);
    }
    FillAsWritten(store, msg, r, base);
  }

  /** The two loops of `transmitSpectrum()` as written, with `n` for
   *  `NUM_PACKETS` and `r` for `REAL_PAYLOAD_SIZE`: for each packet i bytes
   *  4 to r - 1 are read from `n * i + j`. The send is commented out, so
   *  only the last packet's bytes remain. */
  method StrideLoopAsWritten(store: SampleStore, msg: array<byte>, n: nat, r: nat)
    requires msg != store.buf && store.buf.Length == SampleBufferSize && r <= msg.Length
    requires StrideInBuffer(n, r)
    modifies msg
    ensures n > 0 ==> forall j :: HeaderSize <= j < r ==> msg[j] == store.buf[IndexAsWritten(n, n - 1, j)]
    ensures forall j :: 0 <= j < msg.Length && !(HeaderSize <= j < r) ==> msg[j] == old(msg[j])
  {
    var last := 0;
    var i := 0;
    while i < n
      invariant i <= n
      invariant i > 0 ==> last == IndexAsWritten(n, i - 1, 0)
      invariant i > 0 && HeaderSize < r ==> last + r - 1 < store.buf.Length
      invariant i > 0 ==> forall j :: HeaderSize <= j < r ==> msg[j] == store.buf[last + j]
      invariant forall j :: 0 <= j < msg.Length && !(HeaderSize <= j < r) ==> msg[j] == old(msg[j])
    {
      last := StridePacketAsWritten(store, msg, n, r, i);
      i := i + 1;
    }
  }

  /** `transmitSpectrum()` as written, on the stack buffer `msg`: the header,
   *  then the loops above with the stride `NUM_PACKETS`. Bytes from
   *  `REAL_PAYLOAD_SIZE` on are never written. Callable only where the
   *  reads stay inside `samplebuf`. */
  method TransmitSpectrumAsWritten(store: SampleStore, msg: array<byte>, maxPayload: nat)
    requires HeaderSize < maxPayload && msg.Length == maxPayload && store.buf.Length == SampleBufferSize && msg != store.buf
    requires ReadsInBufferAsWritten(maxPayload)
    modifies msg
    ensures msg[..HeaderSize] == MagHeader()
    ensures var n, r := NumPackets(maxPayload), RealPayload(maxPayload);
      n > 0 ==> forall j :: HeaderSize <= j < r ==> msg[j] == store.buf[IndexAsWritten(n, n - 1, j)]
    ensures forall j :: HeaderSize <= j < msg.Length && RealPayload(maxPayload) <= j ==> msg[j] == old(msg[j])
  {
    var n, r := NumPackets(maxPayload), RealPayload(maxPayload);
    var seqno: word := 0;
    msg[0] := MsgTypeMag;
    msg[1] := 0;
    msg[2] := LowByte(seqno);
    msg[3] := HighByte(seqno);
    seqno := seqno + 1;
    StrideLoopAsWritten(store, msg, n, r);
  }

  /** Packet i as evidently intended: the header, then the i-th run of `r`
   *  (`REAL_PAYLOAD_SIZE`) bytes of the buffer. */
  function MagPacket(buf: seq<byte>, r: nat, i: nat): (f: seq<byte>)
    requires Off(r, i) + r <= |buf|
    ensures |f| == HeaderSize + r
  {
    MagHeader() + buf[Off(r, i) .. Off(r, i) + r]
  }

  /** `packets` are the first |packets| intended packets of `buf`. */
  predicate Packetized(buf: seq<byte>, r: nat, packets: seq<seq<byte>>)
  {
    forall i {:trigger packets[i]} :: 0 <= i < |packets| ==> Off(r, i) + r <= |buf| && packets[i] == MagPacket(buf, r, i)
  }

  /** Appending the next intended packet keeps the list intended. */
  lemma PacketizedSnoc(buf: seq<byte>, r: nat, packets: seq<seq<byte>>, p: seq<byte>)
    requires Packetized(buf, r, packets) && Off(r, |packets|) + r <= |buf|
    requires p == MagPacket(buf, r, |packets|)
    ensures Packetized(buf, r, packets + [p])
  {
    var ps := packets + [p];
    forall i | 0 <= i < |ps|
      ensures Off(r, i) + r <= |buf| && ps[i] == MagPacket(buf, r, i)
    {
      if i < |packets| {
        assert ps[i] == packets[i];
      }
    }
  }

  /** The data bytes of a list of packets, headers dropped, in order. */
  function Data(packets: seq<seq<byte>>): seq<byte>
  {
    if |packets| == 0 then []
    else
      var p := packets[|packets| - 1];
      Data(packets[..|packets| - 1]) + (if |p| >= HeaderSize then p[HeaderSize..] else [])
  }

  /** The intended packets carry the buffer in order and without gaps: the
   *  data of the first k packets is the first k * r bytes. */
  lemma {:induction false} MagPacketsCover(buf: seq<byte>, r: nat, packets: seq<seq<byte>>)
    requires Packetized(buf, r, packets)
    ensures Off(r, |packets|) <= |buf|
    ensures Data(packets) == buf[..Off(r, |packets|)]
  {
    var k := |packets|;
    if k > 0 {
      var front := packets[..k - 1];
      assert Packetized(buf, r, front) by {
        forall i | 0 <= i < |front|
          ensures Off(r, i) + r <= |buf| && front[i] == MagPacket(buf, r, i)
        {
          assert front[i] == packets[i];
        }
      }
      MagPacketsCover(buf, r, front);
      var lo, hi := Off(r, k - 1), Off(r, k);
      assert hi == lo + r;
      var p := packets[k - 1];
      assert lo + r <= |buf| && p == MagPacket(buf, r, k - 1);
      assert p[HeaderSize..] == buf[lo .. hi];
      assert Data(packets) == Data(front) + buf[lo .. hi];
      assert buf[..hi] == buf[..lo] + buf[lo .. hi];
    }
  }

  /** Sending `NUM_PACKETS` intended packets puts every byte of the buffer
   *  on air except the last `16384 % REAL_PAYLOAD_SIZE`, which are fewer
   *  than one packet's worth. */
  lemma TransmitCoversBuffer(buf: seq<byte>, maxPayload: nat, packets: seq<seq<byte>>)
    requires HeaderSize < maxPayload && |buf| == SampleBufferSize
    requires |packets| == NumPackets(maxPayload) && Packetized(buf, RealPayload(maxPayload), packets)
    ensures SampleBufferSize % RealPayload(maxPayload) < RealPayload(maxPayload)
    ensures Data(packets) == buf[..SampleBufferSize - SampleBufferSize % RealPayload(maxPayload)]
  {
    var r := RealPayload(maxPayload);
    MagPacketsCover(buf, r, packets);
    OffIsProduct(r, |packets|);
    DivModSplit(SampleBufferSize, r);
  }

  /** Euclid's division of a by d. */
  lemma DivModSplit(a: nat, d: nat)
    requires d > 0
    ensures a % d < d && d * (a / d) == a - a % d
  {
  }

  /** The inner loop as intended for one packet whose data starts at buffer
   *  index `base` (= `REAL_PAYLOAD_SIZE * i`): `msg[HEADER_SIZE + j]` gets
   *  byte `base + j`, the header stays. */
  method FillPacket(store: SampleStore, msg: array<byte>, r: nat, base: nat)
    requires msg != store.buf && msg.Length == HeaderSize + r && base + r <= store.buf.Length
    modifies msg
    ensures msg[..HeaderSize] == old(msg[..HeaderSize])
    ensures forall k :: HeaderSize <= k < msg.Length ==> msg[k] == store.buf[base + k - HeaderSize]
  {
    var j := 0;
    while j < r
      invariant j <= r
      invariant msg[..HeaderSize] == old(msg[..HeaderSize])
      invariant forall k :: HeaderSize <= k < HeaderSize + j ==> msg[k] == store.buf[base + k - HeaderSize]
    {
      msg[HeaderSize + j] := store.ReadSample(base + j);
      j := j + 1;
    }
  }

  /** Packet i of n lies inside a buffer that holds n packets. */
  lemma PacketBound(n: nat, r: nat, i: nat)
    requires i < n && Off(r, n) <= SampleBufferSize
    ensures Off(r, i) + r <= SampleBufferSize
  {
    OffMono(r, i + 1, n);
  }

  /** The packet loop as intended, for `n` packets of `r` bytes: packet i
   *  is the header followed by bytes `r * i` to `r * i + r - 1`. */
  method PacketLoop(store: SampleStore, msg: array<byte>, n: nat, r: nat) returns (packets: seq<seq<byte>>)
    requires msg != store.buf && msg.Length == HeaderSize + r && store.buf.Length == SampleBufferSize
    requires Off(r, n) <= SampleBufferSize && msg[..HeaderSize] == MagHeader()
    modifies msg
    ensures |packets| == n && Packetized(store.buf[..], r, packets)
  {
    packets := [];
    var i := 0;
    while i < n
      invariant i <= n && |packets| == i
      invariant msg[..HeaderSize] == MagHeader()
      invariant Packetized(store.buf[..], r, packets)
    {
      PacketBound(n, r, i);
      OffIsProduct(r, i);
      FillPacket(store, msg, r, r * i);
      assert msg[HeaderSize..] == store.buf[Off(r, i) .. Off(r, i) + r];
      assert msg[..] == msg[..HeaderSize] + msg[HeaderSize..];
      assert msg[..] == MagPacket(store.buf[..], r, i);
      PacketizedSnoc(store.buf[..], r, packets, msg[..]);
      packets := packets + [msg[..]];
      i := i + 1;
    }
  }

  /** `transmitSpectrum()` as evidently intended: the header, then packet i
   *  holds bytes `REAL_PAYLOAD_SIZE * i + j` at `msg[HEADER_SIZE + j]`.
   *  `packets` are the contents handed to the (commented-out) `sendPacket`,
   *  one per iteration. */
  method TransmitSpectrum(store: SampleStore, msg: array<byte>, maxPayload: nat) returns (packets: seq<seq<byte>>)
    requires HeaderSize < maxPayload && msg.Length == maxPayload && store.buf.Length == SampleBufferSize && msg != store.buf
    modifies msg
    ensures |packets| == NumPackets(maxPayload)
    ensures Packetized(store.buf[..], RealPayload(maxPayload), packets)
  {
    var n, r := NumPackets(maxPayload), RealPayload(maxPayload);
    var seqno: word := 0;
    msg[0] := MsgTypeMag;
    msg[1] := 0;
    msg[2] := LowByte(seqno);
    msg[3] := HighByte(seqno);
    seqno := seqno + 1;
    NumPacketsFit(maxPayload);
    OffIsProduct(r, n);
    packets := PacketLoop(store, msg, n, r);
  }
}
