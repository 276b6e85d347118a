/** The ez430-rf2500_wsm_cables_broken end device: the 10-byte self-measure
 *  packet, the `run` loop that sends one every wake-up, the magnetometer
 *  packets of `sendField` and the DTC block programming of `getFieldDTC`. */
module CablesBroken {
  import opened CTypes
  import opened Conversion
  import opened Radio
  import opened AckRetry

  /** `MSG_TYPE_MAGNETOMETER` */
  const MsgTypeMagnetometer: byte := 1
  /** `NUM_MAG_CHANNELS` */
  const NumMagChannels: nat := 6
  /** `NUM_MAG_SAMPLES` */
  const NumMagSamples: nat := 1
  /** `MAG_BUFFER_LEN`, in 16-bit samples */
  const MagBufferLen: nat := NumMagChannels * NumMagSamples
  /** `TRANSMIT_PERIOD_SECS` */
  const TransmitPeriodSecs: nat := 1

  // ---------------------------------------------------------------------
  // The self-measure packet
  // ---------------------------------------------------------------------

  /** The self-measure packet as `selfMeasure` fills it: type, missed-ack
   *  byte (0 here), temperature, raw voltage, the external sensor (of which
   *  10 bits are kept) and the sequence number, each little-endian. */
  function EncodeSelfMeasure(degC: int16, volt: int, ext: int, seqno: nat): (msg: seq<byte>)
    ensures |msg| == 10 && msg[0] == MsgTypeSelfMeasure && msg[1] == 0 && msg[7] <= 3
  {
    [MsgTypeSelfMeasure, 0, LowByte(degC), HighByte(degC), LowByte(volt), HighByte(volt),
     LowByte(ext), HighByte(ext) % 4, LowByte(seqno), HighByte(seqno)]
  }

  /** The fields a receiver reads back from a 10-byte self-measure packet. */
  datatype SelfMeasureFields = SelfMeasureFields(missedAcks: byte, degC: int16, volt: word, ext: word, seqno: word)

  function DecodeSelfMeasure(msg: seq<byte>): (f: SelfMeasureFields)
    requires |msg| == 10
    ensures msg[7] <= 3 ==> f.ext < 0x400
  {
    SelfMeasureFields(msg[1], S16(LE16(msg[2], msg[3])), LE16(msg[4], msg[5]), LE16(msg[6], msg[7]), LE16(msg[8], msg[9]))
  }

  /** Decoding an encoded packet gives back the temperature and the voltage,
   *  the low 10 bits of the external reading and the sequence number modulo
   *  2^16, with a missed-ack byte of 0. */
  lemma SelfMeasureRoundTrip(degC: int16, volt: word, ext: int, seqno: nat)
    ensures DecodeSelfMeasure(EncodeSelfMeasure(degC, volt, ext, seqno))
         == SelfMeasureFields(0, degC, volt, ext % 0x400, seqno % 0x1_0000)
  {
    S16RoundTrip(degC);
    WordRoundTrip(volt);
    Low10OfBytes(ext);
    LE16OfBytes(seqno);
  }

  /** The packet `selfMeasure(seqno)` builds from the temperature and
   *  voltage readings and the offset word; the external sensor is 0. */
  function SelfMeasureFrame(tempReading: adc10, offsetWord: word, voltReading: adc10, seqno: nat): seq<byte>
  {
    EncodeSelfMeasure(DegC(tempReading, offsetWord), voltReading, 0, seqno)
  }

  /** What the access point reads from a self-measure packet: the corrected
   *  temperature, the raw voltage count, no external reading, and the
   *  sequence number modulo 2^16. */
  lemma SelfMeasureFrameFields(tempReading: adc10, offsetWord: word, voltReading: adc10, seqno: nat)
    ensures DecodeSelfMeasure(SelfMeasureFrame(tempReading, offsetWord, voltReading, seqno))
         == SelfMeasureFields(0, DegC(tempReading, offsetWord), voltReading, 0, seqno % 0x1_0000)
  {
    SelfMeasureRoundTrip(DegC(tempReading, offsetWord), voltReading, 0, seqno);
  }

  /** `selfMeasure(seqno)`: build the packet in a 10-byte buffer and hand it
   *  to `sendPacket` without an acknowledgement request, which makes it one
   *  best-effort send. */
  method SelfMeasure(dev: Device, tempReading: adc10, offsetWord: word, voltReading: adc10, seqno: nat)
    requires dev.variant == CablesBroken
    modifies dev, dev.link
    ensures dev.link.calls == old(dev.link.calls) + [RadioAwake, Sent(SelfMeasureFrame(tempReading, offsetWord, voltReading, seqno), TxNone), RadioSleep]
    ensures dev.link.sends == old(dev.link.sends) + 1 && dev.link.pings == old(dev.link.pings)
    ensures dev.missedAcks == old(dev.missedAcks) && dev.sem == old(dev.sem)
  {
    var degC := DegC(tempReading, offsetWord);
    var volt := voltReading;
    var extsensor := 0;
    var msg := new byte[10];
    msg[0] := MsgTypeSelfMeasure;
    msg[1] := 0;
    msg[2] := LowByte(degC);
    msg[3] := HighByte(degC);
    msg[4] := LowByte(volt);
    msg[5] := HighByte(volt);
    msg[6] := LowByte(extsensor);
    msg[7] := HighByte(extsensor) % 4;
    msg[8] := LowByte(seqno);
    msg[9] := HighByte(seqno);
    assert msg[..] == SelfMeasureFrame(tempReading, offsetWord, voltReading, seqno);
    var _ := dev.SendPacket(msg, false, 0);
  }

  // ---------------------------------------------------------------------
  // The work loop
  // ---------------------------------------------------------------------

  /** The packets of the first `n` wake-ups of `run`: the k-th carries the
   *  k-th readings and sequence number k + 1. */
  function RunFrames(temps: nat -> adc10, offsetWord: word, volts: nat -> adc10, n: nat): (fs: seq<seq<byte>>)
    ensures |fs| == n
  {
    if n == 0 then [] else RunFrames(temps, offsetWord, volts, n - 1) + [SelfMeasureFrame(temps(n - 1), offsetWord, volts(n - 1), n)]
  }

  /** The k-th packet of `run` is the k-th measurement, numbered k + 1. */
  lemma {:induction false} RunFrameAt(temps: nat -> adc10, offsetWord: word, volts: nat -> adc10, n: nat, k: nat)
    requires k < n
    ensures RunFrames(temps, offsetWord, volts, n)[k] == SelfMeasureFrame(temps(k), offsetWord, volts(k), k + 1)
  {
    if k < n - 1 {
      RunFrameAt(temps, offsetWord, volts, n - 1, k);
    }
  }

  /** What the access point reads from the k-th packet of `run`: the k-th
   *  readings, with sequence number k + 1 modulo 2^16. */
  lemma RunFrameFields(temps: nat -> adc10, offsetWord: word, volts: nat -> adc10, n: nat, k: nat)
    requires k < n
    ensures var f := RunFrames(temps, offsetWord, volts, n)[k];
      |f| == 10 && DecodeSelfMeasure(f) == SelfMeasureFields(0, DegC(temps(k), offsetWord), volts(k), 0, (k + 1) % 0x1_0000)
  {
    RunFrameAt(temps, offsetWord, volts, n, k);
    SelfMeasureFrameFields(temps(k), offsetWord, volts(k), k + 1);
  }

  /** `run`, for its first `wakes` wake-ups from LPM3. A wake-up by the timer
   *  interrupt first adds one to `sMeasureSem` (uint8_t); the test
   *  `!(sMeasureSem % TRANSMIT_PERIOD_SECS)` then always holds, since the
   *  period is 1, so every wake-up measures and sends, with `seqno` counting
   *  from 1. The readings of the k-th wake-up are `temps(k)` and `volts(k)`. */
  method Run(dev: Device, temps: nat -> adc10, offsetWord: word, volts: nat -> adc10, timer: nat -> bool, wakes: nat)
    requires dev.variant == CablesBroken
    modifies dev, dev.link
    ensures dev.link.calls == old(dev.link.calls) + BestEffortCalls(RunFrames(temps, offsetWord, volts, wakes))
  {
    var seqno := 1;
    var k := 0;
    ghost var calls0 := dev.link.calls;
    while k < wakes
      invariant k <= wakes && seqno == k + 1 && dev.variant == CablesBroken
      invariant dev.link.calls == calls0 + BestEffortCalls(RunFrames(temps, offsetWord, volts, k))
    {
      if timer(k) {
        dev.sem := (dev.sem + 1) % 0x100;
      }
      if dev.sem % TransmitPeriodSecs == 0 {
        SelfMeasure(dev, temps(k), offsetWord, volts(k), seqno);
        seqno := seqno + 1;
      }
      BestEffortSnoc(RunFrames(temps, offsetWord, volts, k), SelfMeasureFrame(temps(k), offsetWord, volts(k), k + 1));
      AppendAssoc(calls0, BestEffortCalls(RunFrames(temps, offsetWord, volts, k)),
                  [RadioAwake, Sent(SelfMeasureFrame(temps(k), offsetWord, volts(k), k + 1), TxNone), RadioSleep]);
      k := k + 1;
    }
  }

  // ---------------------------------------------------------------------
  // sendField
  // ---------------------------------------------------------------------

  /** The second byte of a magnetometer packet as written:
   *  `((seqno & 0x1f) << 3) & (i & 0x7)`. */
  function FieldHeaderAsWritten(seqno: bv8, channel: bv8): bv8
  {
    ((seqno & 0x1f) << 3) & (channel & 7)
  }

  /** The two operands of `&` occupy disjoint bits, so the byte is always 0
   *  and carries neither the sequence number nor the channel. */
  lemma FieldHeaderAsWrittenIsZero(seqno: bv8, channel: bv8)
    ensures FieldHeaderAsWritten(seqno, channel) == 0
    ensures FieldHeaderAsWritten(1, 1) != FieldHeader(1, 1)
  {
  }

  /** The byte the packet format describes: sequence number in the top five
   *  bits and channel in the low three, `((seqno & 0x1f) << 3) | (i & 0x7)`. */
  function FieldHeader(seqno: bv8, channel: bv8): (h: bv8)
    ensures h >> 3 == seqno & 0x1f && h & 7 == channel & 7
  {
    ((seqno & 0x1f) << 3) | (channel & 7)
  }

  /** The bytes of 16-bit samples as they lie in memory (little-endian). */
  function WordBytes(ws: seq<word>): (bs: seq<byte>)
    ensures |bs| == 2 * |ws|
  {
    if ws == [] then [] else [LowByte(ws[0]), HighByte(ws[0])] + WordBytes(ws[1..])
  }

  lemma {:induction false} WordBytesAppend(a: seq<word>, b: seq<word>)
    ensures WordBytes(a + b) == WordBytes(a) + WordBytes(b)
  {
    if a == [] {
      assert a + b == b;
    } else {
      assert (a + b)[1..] == a[1..] + b;
      WordBytesAppend(a[1..], b);
    }
  }

  /** The magnetometer packet for channel `i` as written: 48 bytes copied
   *  from `buf + i * NUM_MAG_SAMPLES`, where `ram` is memory from the start
   *  of `dtcbuf` on; `dtcbuf` itself is only `2 * MAG_BUFFER_LEN` = 12
   *  bytes long. */
  function FieldFrameAsWritten(ram: seq<byte>, i: nat): (f: seq<byte>)
    requires i < NumMagChannels && 2 * i * NumMagSamples + 48 <= |ram|
    ensures |f| == 50
  {
    [MsgTypeMagnetometer, FieldHeaderAsWritten(i as bv8, i as bv8) as int]
      + ram[2 * i * NumMagSamples .. 2 * i * NumMagSamples + 48]
  }

  /** Every packet `sendField` builds as written depends on memory past the
   *  end of `dtcbuf`: two memory images that hold the same samples but
   *  differ after the buffer give different packets. */
  lemma FieldFrameReadsPastBuffer(ram: seq<byte>, ram2: seq<byte>, i: nat)
    requires i < NumMagChannels && |ram| == |ram2| && 2 * i * NumMagSamples + 48 <= |ram|
    requires ram[..2 * MagBufferLen] == ram2[..2 * MagBufferLen]
    requires ram[2 * i * NumMagSamples + 47] != ram2[2 * i * NumMagSamples + 47]
    ensures 2 * MagBufferLen <= 2 * i * NumMagSamples + 47
    ensures FieldFrameAsWritten(ram, i) != FieldFrameAsWritten(ram2, i)
  {
    assert FieldFrameAsWritten(ram, i)[49] == ram[2 * i * NumMagSamples + 47];
    assert FieldFrameAsWritten(ram2, i)[49] == ram2[2 * i * NumMagSamples + 47];
  }

  /** The samples of channel `i` in a buffer of `MAG_BUFFER_LEN` samples. */
  function Channel(buf: seq<word>, i: nat): (c: seq<word>)
    requires |buf| == MagBufferLen && i < NumMagChannels
    ensures |c| == NumMagSamples
  {
    buf[i * NumMagSamples .. (i + 1) * NumMagSamples]
  }

  /** `sizeof(msg)`: every magnetometer packet is 50 bytes long. */
  const FieldMsgLen: nat := 50

  /** How many bytes of `msg` follow the channel's samples; `sendField`
   *  never writes them, so they keep what the stack held. */
  const FieldRestLen: nat := FieldMsgLen - 2 - 2 * NumMagSamples

  /** The magnetometer packet for channel `i` as the format intends it: the
   *  type, the sequence-number/channel byte (the sequence number starts at
   *  0 and counts packets, so it equals `i`), the channel's own samples and
   *  then `rest`, the untouched remainder of the 50-byte `msg`. */
  function FieldFrame(buf: seq<word>, i: nat, rest: seq<byte>): (f: seq<byte>)
    requires |buf| == MagBufferLen && i < NumMagChannels && |rest| == FieldRestLen
    ensures |f| == FieldMsgLen
    ensures f[2..2 + 2 * NumMagSamples] == WordBytes(Channel(buf, i))
  {
    [MsgTypeMagnetometer, FieldHeader(i as bv8, i as bv8) as int] + WordBytes(Channel(buf, i)) + rest
  }

  /** The packets for the first `n` channels. */
  function FieldFrames(buf: seq<word>, n: nat, rest: seq<byte>): (fs: seq<seq<byte>>)
    requires |buf| == MagBufferLen && n <= NumMagChannels && |rest| == FieldRestLen
    ensures |fs| == n
  {
    if n == 0 then [] else FieldFrames(buf, n - 1, rest) + [FieldFrame(buf, n - 1, rest)]
  }

  /** The sample bytes of the packets for the first `n` channels. */
  function FieldPayloads(buf: seq<word>, n: nat, rest: seq<byte>): seq<byte>
    requires |buf| == MagBufferLen && n <= NumMagChannels && |rest| == FieldRestLen
  {
    if n == 0 then [] else FieldPayloads(buf, n - 1, rest) + FieldFrames(buf, n, rest)[n - 1][2..2 + 2 * NumMagSamples]
  }

  /** The packets split the buffer: their sample bytes, in order, are exactly
   *  the bytes of the first `n` channels, so together they carry every
   *  sample once. */
  lemma {:induction false} FieldPayloadsCover(buf: seq<word>, n: nat, rest: seq<byte>)
    requires |buf| == MagBufferLen && n <= NumMagChannels && |rest| == FieldRestLen
    ensures FieldPayloads(buf, n, rest) == WordBytes(buf[..n * NumMagSamples])
  {
    if n == 0 {
      assert buf[..0] == [];
    } else {
      FieldPayloadsCover(buf, n - 1, rest);
      assert buf[..n * NumMagSamples] == buf[..(n - 1) * NumMagSamples] + Channel(buf, n - 1);
      WordBytesAppend(buf[..(n - 1) * NumMagSamples], Channel(buf, n - 1));
    }
  }

  /** One pass of `sendField`'s loop: header byte for channel `i`, the
   *  channel's samples after it, then one best-effort packet of the whole
   *  50-byte `msg`. */
  method SendChannel(dev: Device, msg: array<byte>, buf: seq<word>, i: nat, seqno: byte,
                     ghost rest: seq<byte>, ghost calls0: seq<Call>)
    requires |buf| == MagBufferLen && i < NumMagChannels && seqno == i && |rest| == FieldRestLen
    requires msg.Length == FieldMsgLen && msg[0] == MsgTypeMagnetometer
    requires msg[2 + 2 * NumMagSamples..] == rest
    requires dev.link.calls == calls0 + BestEffortCalls(FieldFrames(buf, i, rest))
    modifies dev, dev.link, msg
    ensures msg[0] == MsgTypeMagnetometer && msg[2 + 2 * NumMagSamples..] == rest
    ensures dev.link.calls == calls0 + BestEffortCalls(FieldFrames(buf, i + 1, rest))
    ensures dev.link.sends == old(dev.link.sends) + 1
  {
    msg[1] := FieldHeader(seqno as bv8, i as bv8) as int;
    CopyInto(msg, 2, WordBytes(Channel(buf, i)));
    assert msg[..] == FieldFrame(buf, i, rest);
    var _ := dev.SendPacket(msg, false, 0);
    BestEffortSnoc(FieldFrames(buf, i, rest), FieldFrame(buf, i, rest));
    AppendAssoc(calls0, BestEffortCalls(FieldFrames(buf, i, rest)), [RadioAwake, Sent(FieldFrame(buf, i, rest), TxNone), RadioSleep]);
  }

  /** `sendField` with the header byte and the per-channel copy the packet
   *  format describes: one best-effort packet of `sizeof(msg)` bytes per
   *  channel, in channel order. `msg` is the uninitialised stack buffer;
   *  whatever its last 46 bytes held goes out after the samples. */
  method SendField(dev: Device, buf: seq<word>, msg: array<byte>)
    requires |buf| == MagBufferLen && msg.Length == FieldMsgLen
    modifies dev, dev.link, msg
    ensures dev.link.calls
              == old(dev.link.calls) + BestEffortCalls(FieldFrames(buf, NumMagChannels, old(msg[2 + 2 * NumMagSamples..])))
    ensures dev.link.sends == old(dev.link.sends) + NumMagChannels
  {
    ghost var rest := msg[2 + 2 * NumMagSamples..];
    var seqno: byte := 0;
    msg[0] := MsgTypeMagnetometer;
    var i := 0;
    ghost var calls0, sends0 := dev.link.calls, dev.link.sends;
    while i < NumMagChannels
      invariant i <= NumMagChannels && seqno == i
      invariant msg[0] == MsgTypeMagnetometer && msg[2 + 2 * NumMagSamples..] == rest
      invariant dev.link.calls == calls0 + BestEffortCalls(FieldFrames(buf, i, rest))
      invariant dev.link.sends == sends0 + i
    {
      SendChannel(dev, msg, buf, i, seqno, rest, calls0);
      seqno := seqno + 1;  // at most NUM_MAG_CHANNELS, so the uint8_t never wraps
      i := i + 1;
    }
  }

  // ---------------------------------------------------------------------
  // getFieldDTC
  // ---------------------------------------------------------------------

  /** The DTC block sizes for one channel of `n` samples: `ADC10DTC1` holds
   *  only 8 bits, so full blocks of 255 and then the rest. */
  function Blocks(n: nat): (bs: seq<nat>)
    decreases n
  {
    if n > 255 then [255] + Blocks(n - 255) else [n]
  }

  function Sum(s: seq<nat>): nat
  {
    if s == [] then 0 else Sum(s[..|s| - 1]) + s[|s| - 1]
  }

  lemma {:induction false} SumAppend(a: seq<nat>, b: seq<nat>)
    ensures Sum(a + b) == Sum(a) + Sum(b)
    decreases |b|
  {
    if b == [] {
      assert a + b == a;
    } else {
      assert (a + b)[..|a + b| - 1] == a + b[..|b| - 1];
      SumAppend(a, b[..|b| - 1]);
    }
  }

  /** Every block fits `ADC10DTC1`, every block but the last is full, and
   *  the blocks add up to the channel's samples. */
  lemma {:induction false} BlocksShape(n: nat)
    ensures var bs := Blocks(n);
      && |bs| >= 1
      && (forall k :: 0 <= k < |bs| ==> bs[k] <= 255)
      && (forall k :: 0 <= k < |bs| - 1 ==> bs[k] == 255)
      && Sum(bs) == n
    decreases n
  {
    if n > 255 {
      BlocksShape(n - 255);
      SumAppend([255], Blocks(n - 255));
      assert Sum([255]) == 255;
    } else {
      assert Sum([n]) == Sum([]) + n;
    }
  }

  /** `offsets[k]` is where the k-th transfer starts: the sum of the counts
   *  before it. */
  predicate PrefixSums(offsets: seq<nat>, counts: seq<nat>)
  {
    |offsets| == |counts| && forall k :: 0 <= k < |counts| ==> offsets[k] == Sum(counts[..k])
  }

  lemma PrefixSumsSnoc(offsets: seq<nat>, counts: seq<nat>, num: nat)
    requires PrefixSums(offsets, counts)
    ensures PrefixSums(offsets + [Sum(counts)], counts + [num])
    ensures Sum(counts + [num]) == Sum(counts) + num
  {
    forall k | 0 <= k < |counts| + 1
      ensures (offsets + [Sum(counts)])[k] == Sum((counts + [num])[..k])
    {
      assert (counts + [num])[..k] == counts[..k];
    }
    assert (counts + [num])[..|counts + [num]| - 1] == counts;
  }

  /** `s` repeated `k` times. */
  function Repeat(s: seq<nat>, k: nat): (r: seq<nat>)
    ensures |r| == k * |s|
  {
    if k == 0 then [] else Repeat(s, k - 1) + s
  }

  lemma {:induction false} SumRepeat(s: seq<nat>, k: nat)
    ensures Sum(Repeat(s, k)) == k * Sum(s)
  {
    if k > 0 {
      var t := Sum(s);
      SumRepeat(s, k - 1);
      SumAppend(Repeat(s, k - 1), s);
      assert k * t == (k - 1) * t + t;
    }
  }

  /** `getFieldDTC`, for channels of `n` samples each (`NUM_MAG_SAMPLES`):
   *  the DTC transfers it programs, as (`ADC10SA` offset into the buffer in
   *  samples, `ADC10DTC1` count) pairs in order, and the final `bufoffset`.
   *  The offsets and `bufoffset` are 16-bit `int`s, which holds all of them
   *  when six channels fit in 0x7FFF samples. */
  method GetFieldDtc(n: nat) returns (offsets: seq<nat>, counts: seq<nat>, bufoffset: nat)
    requires NumMagChannels * n < 0x8000
    ensures counts == Repeat(Blocks(n), NumMagChannels)
    ensures PrefixSums(offsets, counts)
    ensures bufoffset == Sum(counts) == NumMagChannels * n
  {
    bufoffset := 0;
    offsets, counts := [], [];
    var i := 0;
    while i < NumMagChannels
      invariant i <= NumMagChannels
      invariant counts == Repeat(Blocks(n), i)
      invariant PrefixSums(offsets, counts)
      invariant bufoffset == Sum(counts)
    {
      offsets, counts, bufoffset := ChannelDtc(n, offsets, counts, bufoffset);
      i := i + 1;
    }
    SumRepeat(Blocks(n), NumMagChannels);
    BlocksShape(n);
  }

  /** The inner loop of `getFieldDTC` for one channel: blocks of at most 255
   *  samples until the channel's `n` samples are programmed, each starting
   *  where the previous one ended. */
  method ChannelDtc(n: nat, offsets0: seq<nat>, counts0: seq<nat>, bufoffset0: nat)
    returns (offsets: seq<nat>, counts: seq<nat>, bufoffset: nat)
    requires PrefixSums(offsets0, counts0) && bufoffset0 == Sum(counts0)
    ensures counts == counts0 + Blocks(n)
    ensures PrefixSums(offsets, counts)
    ensures bufoffset == Sum(counts) == bufoffset0 + n
  {
    offsets, counts, bufoffset := offsets0, counts0, bufoffset0;
    var remaining := n;
    var stop := false;
    while !stop
      invariant stop ==> counts == counts0 + Blocks(n)
      invariant !stop ==> counts + Blocks(remaining) == counts0 + Blocks(n)
      invariant PrefixSums(offsets, counts)
      invariant bufoffset == Sum(counts)
      decreases remaining + (if stop then 0 else 1)
    {
      var num;
      if remaining > 255 {
        num := 255;
        remaining := remaining - 255;
      } else {
        num := remaining;
        stop := true;
      }
      PrefixSumsSnoc(offsets, counts, num);
      offsets := offsets + [bufoffset];
      counts := counts + [num];
      bufoffset := bufoffset + num;
    }
    BlocksShape(n);
    SumAppend(counts0, Blocks(n));
  }
}
