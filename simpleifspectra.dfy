/** The simpleif_accel_spectra end device: the same measurement burst as
 *  eZ430-RF2500_WSM_accel_spectra, but each packet goes straight to the
 *  MRFI radio layer (wake, transmit, idle, sleep) instead of through the
 *  network stack. The burst itself (which iterations send, slices,
 *  headers) is the one `AccelSpectra` defines. */
module SimpleifSpectra {
  import opened CTypes
  import opened Mrfi
  import A = AccelSpectra

  /** The end device: the timer semaphore `sSelfMeasureSem`, the radio and
   *  the device's own address (the one `buildPayload` should send). */
  class Node {
    var sem: byte
    const radio: MrfiRadio
    const myAddr: seq<byte>

    constructor (radio: MrfiRadio, myAddr: seq<byte>)
      requires |myAddr| == MrfiAddrSize
      ensures this.radio == radio && this.myAddr == myAddr && sem == 0
    {
      this.radio, this.myAddr := radio, myAddr;
      sem := 0;
    }
  }

  /** The radio calls of `sendPacket` for each frame in turn. */
  function MrfiSends(frames: seq<seq<byte>>, src: seq<byte>): (calls: seq<MrfiCall>)
    ensures |calls| == 4 * |frames|
  {
    if frames == [] then []
    else MrfiSends(frames[..|frames| - 1], src) + [Woke, Transmitted(frames[|frames| - 1], src), Idled, Slept]
  }

  /** The calls for frame k sit at positions 4k to 4k+3: the k-th frame is
   *  transmitted between a wake-up and an idle/sleep. */
  lemma {:induction false} MrfiSendsAt(frames: seq<seq<byte>>, src: seq<byte>, k: nat)
    requires k < |frames|
    ensures var calls := MrfiSends(frames, src);
      && calls[4 * k] == Woke && calls[4 * k + 1] == Transmitted(frames[k], src)
      && calls[4 * k + 2] == Idled && calls[4 * k + 3] == Slept
  {
    if k < |frames| - 1 {
      MrfiSendsAt(frames[..|frames| - 1], src, k);
    }
  }

  /** One more frame appends its four calls. */
  lemma MrfiSendsSnoc(frames: seq<seq<byte>>, f: seq<byte>, src: seq<byte>)
    ensures MrfiSends(frames + [f], src) == MrfiSends(frames, src) + [Woke, Transmitted(f, src), Idled, Slept]
  {
    assert (frames + [f])[..|frames|] == frames;
  }

  /** `sendPacket(pkt, len)`: wake the radio, transmit, back to idle and
   *  sleep. The result of the transmission only lights an LED. */
  method SendPacket(radio: MrfiRadio, pkt: Packet)
    modifies radio
    ensures radio.calls == old(radio.calls) + [Woke, Transmitted(pkt.payload, pkt.srcAddr), Idled, Slept]
  {
    radio.WakeUp();
    radio.Transmit(pkt);
    radio.RxIdle();
    radio.Sleep();
  }

  /** Build packet i of a burst in `msg`, wrap it with `buildPayload` and
   *  send it. */
  method SendSlot(node: Node, msg: array<byte>, pkt: Packet, axis: byte, seqno: byte,
                  results: seq<byte>, p: nat, i: nat)
    requires msg.Length == A.AppHeaderLen + p && msg.Length < 0x100 && |node.myAddr| == MrfiAddrSize
    requires i < A.NumPktsPerAxis && |results| == A.NumPktsPerAxis * p
    modifies msg, pkt, node.radio
    ensures node.radio.calls == old(node.radio.calls)
      + [Woke, Transmitted(A.SpectraFrame(axis, seqno, A.Slice(results, p, i)), node.myAddr), Idled, Slept]
  {
    msg[0] := A.MsgTypeAccelSpectra;
    msg[1] := 0;
    msg[2] := axis;
    msg[3] := seqno;
    CopyInto(msg, A.AppHeaderLen, A.Slice(results, p, i));
    assert msg[..] == A.SpectraFrame(axis, seqno, A.Slice(results, p, i));
    ghost var f := msg[..];
    BuildPayload(pkt, msg, msg.Length, node.myAddr);
    assert pkt.payload == f && pkt.srcAddr == node.myAddr;
    SendPacket(node.radio, pkt);
  }

  /** After the first i iterations of a burst from semaphore `sem0`: the
   *  semaphore and the radio calls are those of `AccelSpectra.BurstAfter`. */
  predicate BurstSent(node: Node, ticks: nat -> bool, sem0: byte, calls0: seq<MrfiCall>,
                      axis: byte, results: seq<byte>, p: nat, i: nat)
    reads node, node.radio
    requires |results| == A.NumPktsPerAxis * p
  {
    var b := A.BurstAfter(ticks, sem0, i);
    && node.sem == b.sem && A.Slots(b.sent)
    && node.radio.calls == calls0 + MrfiSends(A.BurstFrames(axis, results, p, b.sent), node.myAddr)
  }

  /** Invariant of the `sendMessage` loop: the node agrees with the burst
   *  state `b`. */
  predicate BurstSoFar(node: Node, b: A.Burst, calls0: seq<MrfiCall>,
                       axis: byte, results: seq<byte>, p: nat, seqno: byte)
    reads node, node.radio
    requires |results| == A.NumPktsPerAxis * p
  {
    && node.sem == b.sem && b.seqno == seqno as nat && b.seqno == |b.sent| + 1 && A.Slots(b.sent)
    && node.radio.calls == calls0 + MrfiSends(A.BurstFrames(axis, results, p, b.sent), node.myAddr)
  }

  /** One iteration of the `sendMessage` loop in terms of the pure burst. */
  lemma BurstSlotStep(ticks: nat -> bool, i: nat, b: A.Burst, calls0: seq<MrfiCall>, axis: byte,
                      results: seq<byte>, p: nat, src: seq<byte>, calls: seq<MrfiCall>, f: seq<byte>, calls2: seq<MrfiCall>)
    requires i < A.NumPktsPerAxis && |results| == A.NumPktsPerAxis * p && |b.sent| <= i
    requires A.Slots(b.sent) && calls == calls0 + MrfiSends(A.BurstFrames(axis, results, p, b.sent), src)
    requires A.Raised(ticks(i), b.sem) >= A.TransmitPeriodSecs ==>
        f == A.SpectraFrame(axis, |b.sent| + 1, A.Slice(results, p, i))
        && calls2 == calls + [Woke, Transmitted(f, src), Idled, Slept]
    requires A.Raised(ticks(i), b.sem) < A.TransmitPeriodSecs ==> calls2 == calls
    ensures var b2 := A.BurstStep(ticks, i, b);
      && A.Slots(b2.sent) && |b2.sent| <= i + 1
      && calls2 == calls0 + MrfiSends(A.BurstFrames(axis, results, p, b2.sent), src)
  {
    if A.Raised(ticks(i), b.sem) >= A.TransmitPeriodSecs {
      var sent := b.sent + [i];
      assert sent[..|sent| - 1] == b.sent;
      var frames := A.BurstFrames(axis, results, p, b.sent);
      MrfiSendsSnoc(frames, f, src);
      AppendAssoc(calls0, MrfiSends(frames, src), [Woke, Transmitted(f, src), Idled, Slept]);
    }
  }

  /** Before the first iteration nothing has been sent. */
  lemma BurstStart(node: Node, axis: byte, results: seq<byte>, p: nat)
    requires |results| == A.NumPktsPerAxis * p
    ensures BurstSoFar(node, A.Burst(node.sem, 1, []), node.radio.calls, axis, results, p, 1)
  {
    assert A.BurstFrames(axis, results, p, []) == [];
    assert node.radio.calls + MrfiSends([], node.myAddr) == node.radio.calls;
  }

  /** One iteration of the `sendMessage` loop: sleep until an interrupt
   *  (`ticks(i)`: the timer), then send slot i if the semaphore allows. */
  method BurstIteration(node: Node, msg: array<byte>, pkt: Packet, ticks: nat -> bool, axis: byte,
                        results: seq<byte>, p: nat, i: nat, seqno: byte, ghost b: A.Burst,
                        ghost calls0: seq<MrfiCall>) returns (seqno2: byte)
    requires msg.Length == A.AppHeaderLen + p && msg.Length < 0x100 && |node.myAddr| == MrfiAddrSize
    requires i < A.NumPktsPerAxis && |results| == A.NumPktsPerAxis * p
    requires BurstSoFar(node, b, calls0, axis, results, p, seqno) && |b.sent| <= i
    modifies node, node.radio, msg, pkt
    ensures BurstSoFar(node, A.BurstStep(ticks, i, b), calls0, axis, results, p, seqno2)
    ensures |A.BurstStep(ticks, i, b).sent| <= i + 1
  {
    ghost var calls := node.radio.calls;
    seqno2 := seqno;
    if ticks(i) {
      node.sem := U8(node.sem + 1);
    }
    ghost var f := A.SpectraFrame(axis, seqno, A.Slice(results, p, i));
    if node.sem >= A.TransmitPeriodSecs {
      node.sem := 0;
      SendSlot(node, msg, pkt, axis, seqno, results, p, i);
      seqno2 := seqno + 1;
    }
    BurstSlotStep(ticks, i, b, calls0, axis, results, p, node.myAddr, calls, f, node.radio.calls);
  }

  /** `sendMessage(axis, results)`: three sleeps; each wake-up that finds
   *  the semaphore at least `TRANSMIT_PERIOD_SECS` clears it and transmits
   *  the next slice with the next `seqno`. `MAX_APP_PAYLOAD` is below 256,
   *  the range of `buildPayload`'s length. */
  method SendMessage(node: Node, axis: byte, results: seq<byte>, maxPayload: nat, ticks: nat -> bool)
    requires A.AppHeaderLen <= maxPayload < 0x100 && |results| == A.BufferLen(maxPayload)
    requires |node.myAddr| == MrfiAddrSize
    modifies node, node.radio
    ensures BurstSent(node, ticks, old(node.sem), old(node.radio.calls), axis, results, A.PayloadLen(maxPayload), A.NumPktsPerAxis)
  {
    var p := maxPayload - A.AppHeaderLen;
    var seqno: byte := 1;
    var msg := new byte[maxPayload];
    var pkt := new Packet();
    ghost var sem0, calls0 := node.sem, node.radio.calls;
    ghost var b := A.Burst(sem0, 1, []);
    BurstStart(node, axis, results, p);
    var i := 0;
    while i < A.NumPktsPerAxis
      invariant i <= A.NumPktsPerAxis
      invariant b == A.BurstAfter(ticks, sem0, i) && |b.sent| <= i
      invariant BurstSoFar(node, b, calls0, axis, results, p, seqno)
    {
      seqno := BurstIteration(node, msg, pkt, ticks, axis, results, p, i, seqno, b, calls0);
      b := A.BurstStep(ticks, i, b);
      i := i + 1;
    }
  }

  /** One pass of `run`'s loop: sleep until an interrupt (`fired`: the
   *  timer); once the semaphore has reached `MEASURE_GAP_SECS`, send the X
   *  buffer as a burst and clear the semaphore. */
  method RunWake(node: Node, fired: bool, results: seq<byte>, maxPayload: nat, ticks: nat -> bool)
    requires A.AppHeaderLen <= maxPayload < 0x100 && |results| == A.BufferLen(maxPayload)
    requires |node.myAddr| == MrfiAddrSize
    modifies node, node.radio
    ensures var s := A.Raised(fired, old(node.sem));
      if s >= A.MeasureGapSecs then
        && node.sem == 0
        && BurstSent(node, ticks, s, old(node.radio.calls), 0, results, A.PayloadLen(maxPayload), A.NumPktsPerAxis)
      else node.sem == s && node.radio.calls == old(node.radio.calls)
  {
    if fired {
      node.sem := U8(node.sem + 1);
    }
    if node.sem >= A.MeasureGapSecs {
      SendMessage(node, 0, results, maxPayload, ticks);
      node.sem := 0;
    }
  }

  /** A measurement during which the timer fires every second transmits the
   *  whole buffer, in order, from the device's own address. */
  lemma FullBurstOnAir(ticks: nat -> bool, sem0: byte, axis: byte, results: seq<byte>, p: nat, src: seq<byte>, k: nat)
    requires sem0 < 255 && ticks(0) && ticks(1) && ticks(2)
    requires |results| == A.NumPktsPerAxis * p && k < A.NumPktsPerAxis
    ensures A.BurstAfter(ticks, sem0, A.NumPktsPerAxis).sent == [0, 1, 2]
    ensures MrfiSends(A.BurstFrames(axis, results, p, [0, 1, 2]), src)[4 * k + 1]
         == Transmitted(A.SpectraFrame(axis, k + 1, A.Slice(results, p, k)), src)
  {
    A.EveryTickSends(ticks, sem0);
    var fs := A.BurstFrames(axis, results, p, [0, 1, 2]);
    MrfiSendsAt(fs, src, k);
    A.BurstFrameAt(axis, results, p, [0, 1, 2], k);
    assert [0, 1, 2][k] == k;
    assert fs[k] == A.SpectraFrame(axis, k + 1, A.Slice(results, p, k));
  }
}
