/** The ez430-rf2500_wsm end device: the 9-byte self-measure packet with
 *  temperature, voltage and pressure, and the `run` loop that sends one
 *  whenever the timer has raised the semaphore. */
module Wsm {
  import opened CTypes
  import opened Conversion
  import opened Radio
  import opened AckRetry

  /** `TRANSMIT_PERIOD_SECS` */
  const TransmitPeriodSecs: nat := 1

  /** The packet as `selfMeasure` fills it: temperature, raw voltage,
   *  pressure (10 bits kept), sequence number, each little-endian, and the
   *  missed-ack byte 0. */
  function EncodeWsm(degC: int16, volt: int, pressure: int, seqno: nat): (msg: seq<byte>)
    ensures |msg| == 9 && msg[5] <= 3 && msg[8] == 0
  {
    [LowByte(degC), HighByte(degC), LowByte(volt), HighByte(volt),
     LowByte(pressure), HighByte(pressure) % 4, LowByte(seqno), HighByte(seqno), 0]
  }

  datatype WsmFields = WsmFields(degC: int16, volt: word, pressure: word, seqno: word, missedAcks: byte)

  function DecodeWsm(msg: seq<byte>): (f: WsmFields)
    requires |msg| == 9
    ensures msg[5] <= 3 ==> f.pressure < 0x400
  {
    WsmFields(S16(LE16(msg[0], msg[1])), LE16(msg[2], msg[3]), LE16(msg[4], msg[5]), LE16(msg[6], msg[7]), msg[8])
  }

  /** Decoding gives back the temperature and voltage, exactly the low 10
   *  bits of the pressure reading, the sequence number modulo 2^16 and a
   *  missed-ack byte of 0. */
  lemma WsmRoundTrip(degC: int16, volt: word, pressure: int, seqno: nat)
    ensures DecodeWsm(EncodeWsm(degC, volt, pressure, seqno))
         == WsmFields(degC, volt, pressure % 0x400, seqno % 0x1_0000, 0)
  {
    S16RoundTrip(degC);
    WordRoundTrip(volt);
    Low10OfBytes(pressure);
    LE16OfBytes(seqno);
  }

  /** The readings of the k-th wake-up of `run`: whether the timer interrupt
   *  caused it, and the three ADC10 conversions `selfMeasure` would make. */
  datatype Readings = Readings(timer: nat -> bool, temp: nat -> adc10, volt: nat -> adc10, pressure: nat -> adc10, offsetWord: word)

  /** The packet `selfMeasure(seqno)` sends at wake-up k. */
  function WsmFrame(r: Readings, k: nat, seqno: nat): seq<byte>
  {
    EncodeWsm(DegC(r.temp(k), r.offsetWord), r.volt(k), r.pressure(k), seqno)
  }

  /** `sSelfMeasureSem`, the next `seqno` and the packets sent so far. */
  datatype RunState = RunState(sem: byte, seqno: nat, frames: seq<seq<byte>>)

  /** The semaphore a wake-up sees: one more (uint8_t) if the timer woke it. */
  function Ticked(r: Readings, k: nat, sem: byte): byte
  {
    if r.timer(k) then U8(sem + 1) else sem
  }

  /** One wake-up of `run` from state `st`. */
  function Wake(r: Readings, k: nat, st: RunState): RunState
  {
    var sem := Ticked(r, k, st.sem);
    if sem >= TransmitPeriodSecs then RunState(0, st.seqno + 1, st.frames + [WsmFrame(r, k, st.seqno)])
    else RunState(sem, st.seqno, st.frames)
  }

  /** The state after the first `n` wake-ups, from semaphore `sem0` (raised
   *  while joining and linking) and `seqno` 1. */
  function RunAfter(r: Readings, sem0: byte, n: nat): RunState
  {
    if n == 0 then RunState(sem0, 1, []) else Wake(r, n - 1, RunAfter(r, sem0, n - 1))
  }

  /** The packets carry sequence numbers 1, 2, 3, … in order, and `seqno` is
   *  always one more than the number sent. */
  lemma {:induction false} RunSeqnos(r: Readings, sem0: byte, n: nat)
    ensures var st := RunAfter(r, sem0, n);
      && st.seqno == |st.frames| + 1
      && forall j :: 0 <= j < |st.frames| ==> |st.frames[j]| == 9 && DecodeWsm(st.frames[j]).seqno == (j + 1) % 0x1_0000
  {
    if n > 0 {
      RunSeqnos(r, sem0, n - 1);
      var st := RunAfter(r, sem0, n - 1);
      var k := n - 1;
      if Ticked(r, k, st.sem) >= TransmitPeriodSecs {
        WsmRoundTrip(DegC(r.temp(k), r.offsetWord), r.volt(k), r.pressure(k), st.seqno);
        assert RunAfter(r, sem0, n).frames == st.frames + [WsmFrame(r, k, st.seqno)];
      }
    }
  }

  /** After any wake-up the semaphore is 0: a wake-up that sends clears it,
   *  and one that does not found it below 1. */
  lemma SemClearedAfterWake(r: Readings, sem0: byte, n: nat)
    requires n >= 1
    ensures RunAfter(r, sem0, n).sem == 0
  {
  }

  /** From the second wake-up on, a packet goes out exactly when the timer
   *  caused the wake-up (the other interrupt, radio sync, only wakes). */
  lemma MeasuresIffTimer(r: Readings, sem0: byte, n: nat)
    requires n >= 1
    ensures |RunAfter(r, sem0, n + 1).frames| == |RunAfter(r, sem0, n).frames| + (if r.timer(n) then 1 else 0)
  {
    SemClearedAfterWake(r, sem0, n);
  }

  /** On the first wake-up the semaphore may hold ticks from joining; if it
   *  reached 255 the timer's tick wraps it to 0 and that wake-up sends
   *  nothing. */
  lemma FirstWakeAfterWrap(r: Readings)
    requires r.timer(0)
    ensures RunAfter(r, 255, 1).frames == []
    ensures RunAfter(r, 0, 1).frames == [WsmFrame(r, 0, 1)]
  {
  }

  /** `selfMeasure(seqno)`: fill the 9-byte buffer and send it best effort;
   *  `sendBestEffort` clears the semaphore. */
  method SelfMeasure(dev: Device, r: Readings, k: nat, seqno: nat)
    requires dev.variant == AckRetry.Wsm
    modifies dev, dev.link
    ensures dev.link.calls == old(dev.link.calls) + [RadioAwake, Sent(WsmFrame(r, k, seqno), TxNone), RadioSleep]
    ensures dev.sem == 0 && dev.missedAcks == old(dev.missedAcks)
  {
    var degC := DegC(r.temp(k), r.offsetWord);
    var volt := r.volt(k);
    var pressure := r.pressure(k);
    var msg := new byte[9];
    msg[0] := LowByte(degC);
    msg[1] := HighByte(degC);
    msg[2] := LowByte(volt);
    msg[3] := HighByte(volt);
    msg[4] := LowByte(pressure);
    msg[5] := HighByte(pressure) % 4;
    msg[6] := LowByte(seqno);
    msg[7] := HighByte(seqno);
    msg[8] := 0;
    assert msg[..] == WsmFrame(r, k, seqno);
    var _ := dev.SendPacket(msg, false, 0);
  }

  /** One step of `run` in terms of the pure model: what the method did to
   *  the calls, the semaphore and `seqno` is what `Wake` says. */
  lemma WakeStep(r: Readings, k: nat, st: RunState, calls0: seq<Call>, calls: seq<Call>, sem: byte, seqno: nat, calls2: seq<Call>)
    requires calls == calls0 + BestEffortCalls(st.frames)
    requires Ticked(r, k, st.sem) >= TransmitPeriodSecs ==>
      sem == 0 && seqno == st.seqno + 1 && calls2 == calls + [RadioAwake, Sent(WsmFrame(r, k, st.seqno), TxNone), RadioSleep]
    requires Ticked(r, k, st.sem) < TransmitPeriodSecs ==> sem == Ticked(r, k, st.sem) && seqno == st.seqno && calls2 == calls
    ensures Wake(r, k, st).sem == sem && Wake(r, k, st).seqno == seqno
    ensures calls2 == calls0 + BestEffortCalls(Wake(r, k, st).frames)
  {
    if Ticked(r, k, st.sem) >= TransmitPeriodSecs {
      BestEffortSnoc(st.frames, WsmFrame(r, k, st.seqno));
      AppendAssoc(calls0, BestEffortCalls(st.frames), [RadioAwake, Sent(WsmFrame(r, k, st.seqno), TxNone), RadioSleep]);
    }
  }

  /** One wake-up of `run`: the timer interrupt raises the semaphore, and
   *  a semaphore of at least `TRANSMIT_PERIOD_SECS` measures with `seqno`
   *  and moves on to the next one. From state `st`, the result is
   *  `Wake(r, k, st)`. */
  method WakeUp(dev: Device, r: Readings, k: nat, seqno: nat, ghost st: RunState, ghost calls0: seq<Call>)
    returns (next: nat)
    requires dev.variant == AckRetry.Wsm
    requires st.sem == dev.sem && st.seqno == seqno && dev.link.calls == calls0 + BestEffortCalls(st.frames)
    modifies dev, dev.link
    ensures Wake(r, k, st).sem == dev.sem && Wake(r, k, st).seqno == next
    ensures dev.link.calls == calls0 + BestEffortCalls(Wake(r, k, st).frames)
  {
    ghost var calls := dev.link.calls;
    next := seqno;
    if r.timer(k) {
      dev.sem := U8(dev.sem + 1);
    }
    if dev.sem >= TransmitPeriodSecs {
      SelfMeasure(dev, r, k, seqno);
      next := seqno + 1;
    }
    WakeStep(r, k, st, calls0, calls, dev.sem, next, dev.link.calls);
  }

  /** `run` for its first `wakes` wake-ups. */
  method Run(dev: Device, r: Readings, wakes: nat)
    requires dev.variant == AckRetry.Wsm
    modifies dev, dev.link
    ensures dev.link.calls == old(dev.link.calls) + BestEffortCalls(RunAfter(r, old(dev.sem), wakes).frames)
    ensures dev.sem == RunAfter(r, old(dev.sem), wakes).sem
  {
    var seqno := 1;
    var k := 0;
    ghost var sem0, calls0 := dev.sem, dev.link.calls;
    ghost var st := RunAfter(r, sem0, 0);
    while k < wakes
      invariant k <= wakes
      invariant st == RunAfter(r, sem0, k)
      invariant st.sem == dev.sem && st.seqno == seqno
      invariant dev.link.calls == calls0 + BestEffortCalls(st.frames)
    {
      seqno := WakeUp(dev, r, k, seqno, st, calls0);
      st := Wake(r, k, st);
      k := k + 1;
    }
  }
}
