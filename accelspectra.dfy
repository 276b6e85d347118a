/** The burst transmitter of eZ430-RF2500_WSM_accel_spectra's end device:
 *  every `MEASURE_GAP_SECS` wake-ups the device takes a buffer of
 *  accelerometer samples and sends it as `NUM_PKTS_PER_AXIS` packets, one
 *  per timer tick, each a 4-byte header and one slice of the buffer.
 *  `MAX_APP_PAYLOAD` comes from the network configuration and is a
 *  parameter here. */
module AccelSpectra {
  import opened CTypes
  import opened Radio
  import opened AckRetry

  /** `TRANSMIT_PERIOD_SECS` */
  const TransmitPeriodSecs: nat := 1
  /** `MEASURE_GAP_SECS` */
  const MeasureGapSecs: nat := 15
  /** `NUM_PKTS_PER_AXIS` */
  const NumPktsPerAxis: nat := 3
  /** `APP_HEADER_LEN` */
  const AppHeaderLen: nat := 4
  /** `MSG_TYPE_ACCEL_SPECTRA` */
  const MsgTypeAccelSpectra: byte := 0

  /** `APP_PAYLOAD_LEN`: the data bytes of one packet. */
  function PayloadLen(maxPayload: nat): nat
    requires AppHeaderLen <= maxPayload
  {
    maxPayload - AppHeaderLen
  }

  /** `ACCEL_BUFFER_LEN`: the samples of one axis. */
  function BufferLen(maxPayload: nat): nat
    requires AppHeaderLen <= maxPayload
  {
    NumPktsPerAxis * PayloadLen(maxPayload)
  }

  /** Slice i of a three-slice buffer ends inside it. */
  lemma SliceBound(i: nat, p: nat)
    requires i < NumPktsPerAxis
    ensures i * p + p <= NumPktsPerAxis * p
  {
    if i == 1 {
      assert i * p == p;
    } else if i == 2 {
      assert i * p == p + p;
    }
  }

  /** `&results[i*APP_PAYLOAD_LEN]` for `APP_PAYLOAD_LEN` bytes. */
  function Slice(results: seq<byte>, p: nat, i: nat): (s: seq<byte>)
    requires i < NumPktsPerAxis && |results| == NumPktsPerAxis * p
    ensures |s| == p
  {
    SliceBound(i, p);
    results[i * p .. i * p + p]
  }

  /** Packets built in different iterations carry different bytes of the
   *  buffer: the slices are in order and do not overlap. */
  lemma SlicesDisjoint(p: nat, i: nat, j: nat)
    requires i < j < NumPktsPerAxis
    ensures i * p + p <= j * p
  {
    if j == 2 && i == 0 {
      assert j * p == p + p;
    } else if j == 2 {
      assert j * p == p + p && i * p == p;
    } else {
      assert j * p == p;
    }
  }

  /** The three slices are the whole buffer, in order. */
  lemma SlicesCover(results: seq<byte>, p: nat)
    requires |results| == NumPktsPerAxis * p
    ensures Slice(results, p, 0) + Slice(results, p, 1) + Slice(results, p, 2) == results
  {
    assert 1 * p == p && 2 * p == p + p;
    assert results == results[..p] + results[p .. p + p] + results[p + p ..];
  }

  /** The packet of one burst slot: type, missed acks 0 (filled in only by
   *  an acknowledged send), axis, sequence number, then the data. */
  function SpectraFrame(axis: byte, seqno: byte, data: seq<byte>): (f: seq<byte>)
    ensures |f| == AppHeaderLen + |data| && f[AppHeaderLen..] == data
    ensures f[0] == MsgTypeAccelSpectra && f[1] == 0 && f[2] == axis && f[3] == seqno
  {
    [MsgTypeAccelSpectra, 0, axis, seqno] + data
  }

  // ---------------------------------------------------------------------
  // One burst as a pure function of the timer ticks
  // ---------------------------------------------------------------------

  /** The semaphore after a wake-up: one more (uint8_t) if the timer
   *  interrupt caused it. */
  function Raised(fired: bool, sem: byte): byte
  {
    if fired then U8(sem + 1) else sem
  }

  /** The state of `sendMessage` between iterations: the semaphore, the
   *  next `seqno`, and which iterations built a packet. */
  datatype Burst = Burst(sem: byte, seqno: nat, sent: seq<nat>)

  /** Iteration i of `sendMessage`; `ticks(i)` says whether the timer woke
   *  it. */
  function BurstStep(ticks: nat -> bool, i: nat, b: Burst): Burst
  {
    var sem := Raised(ticks(i), b.sem);
    if sem >= TransmitPeriodSecs then Burst(0, b.seqno + 1, b.sent + [i])
    else Burst(sem, b.seqno, b.sent)
  }

  /** The first n iterations of `sendMessage` from semaphore `sem0`. */
  function BurstAfter(ticks: nat -> bool, sem0: byte, n: nat): Burst
  {
    if n == 0 then Burst(sem0, 1, []) else BurstStep(ticks, n - 1, BurstAfter(ticks, sem0, n - 1))
  }

  /** `seqno` is one more than the number of packets built, and no more
   *  packets are built than iterations run. */
  lemma {:induction false} BurstCount(ticks: nat -> bool, sem0: byte, n: nat)
    ensures var b := BurstAfter(ticks, sem0, n); b.seqno == |b.sent| + 1 && |b.sent| <= n
  {
    if n > 0 {
      BurstCount(ticks, sem0, n - 1);
    }
  }

  /** The slots in `sent` are increasing and below n. */
  predicate SlotsBelow(sent: seq<nat>, n: nat)
  {
    && (forall j :: 0 <= j < |sent| ==> sent[j] < n)
    && (forall j1, j2 :: 0 <= j1 < j2 < |sent| ==> sent[j1] < sent[j2])
  }

  /** The iterations that built a packet are increasing and among the
   *  first n, so no slice is sent twice. */
  lemma {:induction false} BurstOrdered(ticks: nat -> bool, sem0: byte, n: nat)
    ensures SlotsBelow(BurstAfter(ticks, sem0, n).sent, n)
  {
    if n > 0 {
      var b' := BurstAfter(ticks, sem0, n - 1);
      BurstOrdered(ticks, sem0, n - 1);
      assert SlotsBelow(b'.sent, n - 1);
      assert BurstAfter(ticks, sem0, n) == BurstStep(ticks, n - 1, b');
      if Raised(ticks(n - 1), b'.sem) >= TransmitPeriodSecs {
        var s := b'.sent + [n - 1];
        assert forall j :: 0 <= j < |b'.sent| ==> s[j] == b'.sent[j];
        assert s[|s| - 1] == n - 1;
      }
    }
  }

  /** When the timer wakes every iteration, all three slots send, in order. */
  lemma EveryTickSends(ticks: nat -> bool, sem0: byte)
    requires sem0 < 255
    requires ticks(0) && ticks(1) && ticks(2)
    ensures BurstAfter(ticks, sem0, NumPktsPerAxis).sent == [0, 1, 2]
  {
    var b0 := BurstAfter(ticks, sem0, 0);
    assert b0 == Burst(sem0, 1, []);
    var b1 := BurstAfter(ticks, sem0, 1);
    assert b1 == BurstStep(ticks, 0, b0);
    assert Raised(true, sem0) == sem0 + 1;
    assert b1.sent == [0] && b1.sem == 0;
    var b2 := BurstAfter(ticks, sem0, 2);
    assert b2 == BurstStep(ticks, 1, b1);
    assert b2.sent == [0, 1] && b2.sem == 0;
    assert BurstAfter(ticks, sem0, 3) == BurstStep(ticks, 2, b2);
  }

  /** A burst that starts with the semaphore raised sends its first slot
   *  whatever woke it, unless the timer wraps the semaphore from 255 to 0. */
  lemma FirstSlotSent(ticks: nat -> bool, sem0: byte)
    requires 1 <= sem0
    ensures BurstAfter(ticks, sem0, 1).sent == (if sem0 == 255 && ticks(0) then [] else [0])
  {
  }

  /** Whether a list of slots fits the burst. */
  predicate Slots(sent: seq<nat>)
  {
    |sent| <= NumPktsPerAxis && forall j :: 0 <= j < |sent| ==> sent[j] < NumPktsPerAxis
  }

  /** The packets of a burst whose slots `sent` built one: packet j has
   *  `seqno` j + 1 and the slice of the slot that built it. */
  function BurstFrames(axis: byte, results: seq<byte>, p: nat, sent: seq<nat>): (fs: seq<seq<byte>>)
    requires Slots(sent) && |results| == NumPktsPerAxis * p
    ensures |fs| == |sent|
  {
    if sent == [] then []
    else
      BurstFrames(axis, results, p, sent[..|sent| - 1])
      + [SpectraFrame(axis, |sent|, Slice(results, p, sent[|sent| - 1]))]
  }

  /** Packet j of a burst, read back: header fields and data. */
  lemma {:induction false} BurstFrameAt(axis: byte, results: seq<byte>, p: nat, sent: seq<nat>, j: nat)
    requires Slots(sent) && |results| == NumPktsPerAxis * p && j < |sent|
    ensures var f := BurstFrames(axis, results, p, sent)[j];
      && |f| == AppHeaderLen + p && f[0] == MsgTypeAccelSpectra && f[1] == 0 && f[2] == axis
      && f[3] == j + 1 && f[AppHeaderLen..] == Slice(results, p, sent[j])
  {
    if j < |sent| - 1 {
      BurstFrameAt(axis, results, p, sent[..|sent| - 1], j);
    }
  }

  // ---------------------------------------------------------------------
  // The firmware
  // ---------------------------------------------------------------------

  /** The device after the first i iterations of a burst from semaphore
   *  `sem0`: the semaphore and the radio calls are those of `BurstAfter`. */
  predicate BurstSent(dev: Device, ticks: nat -> bool, sem0: byte, calls0: seq<Call>,
                      axis: byte, results: seq<byte>, p: nat, i: nat)
    reads dev, dev.link
    requires |results| == NumPktsPerAxis * p
  {
    var b := BurstAfter(ticks, sem0, i);
    && dev.sem == b.sem && Slots(b.sent)
    && dev.link.calls == calls0 + BestEffortCalls(BurstFrames(axis, results, p, b.sent))
  }

  /** Invariant of the `sendMessage` loop: the device agrees with the
   *  burst state `b` (semaphore, next `seqno`, packets sent so far). */
  predicate BurstSoFar(dev: Device, b: Burst, calls0: seq<Call>,
                       axis: byte, results: seq<byte>, p: nat, seqno: byte)
    reads dev, dev.link
    requires |results| == NumPktsPerAxis * p
  {
    && dev.sem == b.sem && b.seqno == seqno as nat && b.seqno == |b.sent| + 1 && Slots(b.sent)
    && dev.link.calls == calls0 + BestEffortCalls(BurstFrames(axis, results, p, b.sent))
  }

  /** One iteration of the `sendMessage` loop in terms of the pure burst. */
  lemma BurstSlotStep(ticks: nat -> bool, i: nat, b: Burst, calls0: seq<Call>, axis: byte, results: seq<byte>,
                      p: nat, calls: seq<Call>, f: seq<byte>, calls2: seq<Call>)
    requires i < NumPktsPerAxis && |results| == NumPktsPerAxis * p && |b.sent| <= i
    requires Slots(b.sent) && calls == calls0 + BestEffortCalls(BurstFrames(axis, results, p, b.sent))
    requires Raised(ticks(i), b.sem) >= TransmitPeriodSecs ==>
        f == SpectraFrame(axis, |b.sent| + 1, Slice(results, p, i))
        && calls2 == calls + [RadioAwake, Sent(f, TxNone), RadioSleep]
    requires Raised(ticks(i), b.sem) < TransmitPeriodSecs ==> calls2 == calls
    ensures var b2 := BurstStep(ticks, i, b);
      Slots(b2.sent) && |b2.sent| <= i + 1 && calls2 == calls0 + BestEffortCalls(BurstFrames(axis, results, p, b2.sent))
  {
    if Raised(ticks(i), b.sem) >= TransmitPeriodSecs {
      var sent := b.sent + [i];
      assert sent[..|sent| - 1] == b.sent;
      BestEffortSnoc(BurstFrames(axis, results, p, b.sent), f);
      AppendAssoc(calls0, BestEffortCalls(BurstFrames(axis, results, p, b.sent)), [RadioAwake, Sent(f, TxNone), RadioSleep]);
    }
  }

  /** Build and send the packet of burst slot i. */
  method SendSlot(dev: Device, msg: array<byte>, axis: byte, seqno: byte, results: seq<byte>, p: nat, i: nat)
    requires dev.variant == AckRetry.AccelSpectra && msg.Length == AppHeaderLen + p
    requires i < NumPktsPerAxis && |results| == NumPktsPerAxis * p
    modifies dev, dev.link, msg
    ensures dev.link.calls == old(dev.link.calls) + [RadioAwake, Sent(SpectraFrame(axis, seqno, Slice(results, p, i)), TxNone), RadioSleep]
    ensures dev.sem == old(dev.sem) && dev.missedAcks == old(dev.missedAcks)
  {
    msg[0] := MsgTypeAccelSpectra;
    msg[1] := 0;
    msg[2] := axis;
    msg[3] := seqno;
    CopyInto(msg, AppHeaderLen, Slice(results, p, i));
    assert msg[..] == SpectraFrame(axis, seqno, Slice(results, p, i));
    var _ := dev.SendPacket(msg, false, 0);
  }

  /** Before the first iteration nothing has been sent. */
  lemma BurstStart(dev: Device, axis: byte, results: seq<byte>, p: nat)
    requires |results| == NumPktsPerAxis * p
    ensures BurstSoFar(dev, Burst(dev.sem, 1, []), dev.link.calls, axis, results, p, 1)
  {
    assert BurstFrames(axis, results, p, []) == [];
    assert dev.link.calls + BestEffortCalls([]) == dev.link.calls;
  }

  /** One iteration of the `sendMessage` loop: sleep until an interrupt,
   *  then send slot i if the semaphore allows. */
  method BurstIteration(dev: Device, msg: array<byte>, ticks: nat -> bool, axis: byte, results: seq<byte>,
                        p: nat, i: nat, seqno: byte, ghost b: Burst, ghost calls0: seq<Call>) returns (seqno2: byte)
    requires dev.variant == AckRetry.AccelSpectra && msg.Length == AppHeaderLen + p
    requires i < NumPktsPerAxis && |results| == NumPktsPerAxis * p
    requires BurstSoFar(dev, b, calls0, axis, results, p, seqno) && |b.sent| <= i
    modifies dev, dev.link, msg
    ensures BurstSoFar(dev, BurstStep(ticks, i, b), calls0, axis, results, p, seqno2)
    ensures |BurstStep(ticks, i, b).sent| <= i + 1
    ensures dev.missedAcks == old(dev.missedAcks)
  {
    ghost var calls := dev.link.calls;
    seqno2 := seqno;
    if ticks(i) {
      dev.sem := U8(dev.sem + 1);
    }
    ghost var f := SpectraFrame(axis, seqno, Slice(results, p, i));
    if dev.sem >= TransmitPeriodSecs {
      dev.sem := 0;
      SendSlot(dev, msg, axis, seqno, results, p, i);
      seqno2 := seqno + 1;
    }
    BurstSlotStep(ticks, i, b, calls0, axis, results, p, calls, f, dev.link.calls);
  }

  /** `sendMessage(axis, results)`: three sleeps; each wake-up that finds
   *  the semaphore at least `TRANSMIT_PERIOD_SECS` clears it and sends the
   *  next slice best effort, with the next `seqno`. */
  method SendMessage(dev: Device, axis: byte, results: seq<byte>, maxPayload: nat, ticks: nat -> bool)
    requires dev.variant == AckRetry.AccelSpectra
    requires AppHeaderLen <= maxPayload && |results| == BufferLen(maxPayload)
    modifies dev, dev.link
    ensures BurstSent(dev, ticks, old(dev.sem), old(dev.link.calls), axis, results, PayloadLen(maxPayload), NumPktsPerAxis)
    ensures dev.missedAcks == old(dev.missedAcks)
  {
    var p := maxPayload - AppHeaderLen;
    var seqno: byte := 1;
    var msg := new byte[maxPayload];
    ghost var sem0, calls0 := dev.sem, dev.link.calls;
    ghost var b := Burst(sem0, 1, []);
    BurstStart(dev, axis, results, p);
    var i := 0;
    while i < NumPktsPerAxis
      invariant i <= NumPktsPerAxis && dev.variant == AckRetry.AccelSpectra
      invariant dev.missedAcks == old(dev.missedAcks)
      invariant b == BurstAfter(ticks, sem0, i) && |b.sent| <= i
      invariant BurstSoFar(dev, b, calls0, axis, results, p, seqno)
    {
      seqno := BurstIteration(dev, msg, ticks, axis, results, p, i, seqno, b, calls0);
      b := BurstStep(ticks, i, b);
      i := i + 1;
    }
  }

  /** One pass of `run`'s loop with `selfMeasure` for the X axis: sleep
   *  until an interrupt (`fired` says whether it was the timer); once the
   *  semaphore has reached `MEASURE_GAP_SECS`, send the buffer as a burst
   *  and clear the semaphore. The buffer is the one the accelerometer read
   *  fills. */
  method RunWake(dev: Device, fired: bool, results: seq<byte>, maxPayload: nat, ticks: nat -> bool)
    requires dev.variant == AckRetry.AccelSpectra
    requires AppHeaderLen <= maxPayload && |results| == BufferLen(maxPayload)
    modifies dev, dev.link
    ensures var s := Raised(fired, old(dev.sem));
      if s >= MeasureGapSecs then
        && dev.sem == 0
        && BurstSent(dev, ticks, s, old(dev.link.calls), 0, results, PayloadLen(maxPayload), NumPktsPerAxis)
      else dev.sem == s && dev.link.calls == old(dev.link.calls)
    ensures dev.missedAcks == old(dev.missedAcks)
  {
    if fired {
      dev.sem := U8(dev.sem + 1);
    }
    if dev.sem >= MeasureGapSecs {
      SendMessage(dev, 0, results, maxPayload, ticks);
      dev.sem := 0;
    }
  }

  /** A burst during which the timer fires every second carries the whole
   *  buffer: packets 1, 2 and 3 hold its three slices in order. */
  lemma FullBurstCarriesBuffer(ticks: nat -> bool, sem0: byte, axis: byte, results: seq<byte>, p: nat)
    requires sem0 < 255 && ticks(0) && ticks(1) && ticks(2)
    requires |results| == NumPktsPerAxis * p
    ensures BurstAfter(ticks, sem0, NumPktsPerAxis).sent == [0, 1, 2]
    ensures var fs := BurstFrames(axis, results, p, [0, 1, 2]);
      && |fs| == NumPktsPerAxis
      && (forall k :: 0 <= k < NumPktsPerAxis ==> |fs[k]| == AppHeaderLen + p)
      && (forall k :: 0 <= k < NumPktsPerAxis ==> fs[k][3] == k + 1 && fs[k][2] == axis)
      && fs[0][AppHeaderLen..] + fs[1][AppHeaderLen..] + fs[2][AppHeaderLen..] == results
  {
    var sent := BurstAfter(ticks, sem0, NumPktsPerAxis).sent;
    EveryTickSends(ticks, sem0);
    assert sent == [0, 1, 2];
    BurstFrameAt(axis, results, p, sent, 0);
    BurstFrameAt(axis, results, p, sent, 1);
    BurstFrameAt(axis, results, p, sent, 2);
    SlicesCover(results, p);
  }
}
