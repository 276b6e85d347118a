/** The simpleif temperature network without the network stack: the end
 *  device samples its temperature and supply voltage and transmits the
 *  3-byte message through MRFI; the access point forwards every received
 *  message to the serial port and, once a second, adds a sample of its own
 *  as "HUB0". */
module Simpleif {
  import opened CTypes
  import opened Conversion
  import opened Mrfi

  /** `sizeof(msg)`: the bytes of one temperature message. */
  const SampleLen: nat := 3

  /** The message `takeSample` builds: temperature low and high byte, then
   *  the voltage (a `uint8_t` from the 16-bit `int`). */
  function SampleMsg(temp: adc10, volt: adc10, offsetWord: word): (m: seq<byte>)
    ensures |m| == SampleLen
  {
    var degC := DegC(temp, offsetWord);
    [LowByte(degC), HighByte(degC), LowByte(VoltTenths(volt))]
  }

  /** A receiver that reads bytes 0-1 as a little-endian 16-bit `int` and
   *  byte 2 as a number gets back the corrected temperature and the
   *  voltage (which always fits one byte). */
  lemma SampleRoundTrip(temp: adc10, volt: adc10, offsetWord: word)
    ensures var m := SampleMsg(temp, volt, offsetWord);
      S16(LE16(m[0], m[1])) == DegC(temp, offsetWord) && m[2] == VoltTenths(volt) <= 49
  {
    var d, v := DegC(temp, offsetWord), VoltTenths(volt);
    assert SampleMsg(temp, volt, offsetWord) == [LowByte(d), HighByte(d), LowByte(v)];
    FieldsRoundTrip(d, v);
  }

  /** The two fields of a message, each through its bytes. */
  lemma FieldsRoundTrip(d: int16, v: int)
    requires 0 <= v <= 49
    ensures S16(LE16(LowByte(d), HighByte(d))) == d && LowByte(v) == v
  {
    S16RoundTrip(d);
  }

  /** `takeSample(msg)` with the two ADC10 conversions `temp` and `volt` and
   *  the offset word at 0x10F4: the first three bytes become the message,
   *  the rest of the buffer is untouched. */
  method TakeSample(msg: array<byte>, temp: adc10, volt: adc10, offsetWord: word)
    requires msg.Length >= SampleLen
    modifies msg
    ensures msg[..SampleLen] == SampleMsg(temp, volt, offsetWord)
    ensures msg[SampleLen..] == old(msg[SampleLen..])
  {
    var degC := TempTenths(temp);
    if offsetWord != ErasedWord {
      degC := S16(degC + S16(offsetWord));
    }
    var v := VoltTenths(volt);
    msg[0] := LowByte(degC);
    msg[1] := HighByte(degC);
    msg[2] := LowByte(v);
  }

  // ---------------------------------------------------------------------
  // Access point (main_AP.c)
  // ---------------------------------------------------------------------

  /** One line the access point writes to the serial port. */
  datatype Report =
    | Forwarded(data: seq<byte>)                           // transmitData(1, 0, msg)
    | HubSample(addr: string, rssi: string, data: seq<byte>) // transmitDataString(1, "HUB0", "000", msg)

  /** The access point's work loop state: the receive semaphore `sPktSem`,
   *  the measure flag `sSelfMeasureSem` and the serial output so far. The
   *  ghost counters say how many receive completions arrived and how many
   *  packets the loop has handled. */
  class Hub {
    var pktSem: byte
    var measureSem: byte
    var reports: seq<Report>
    ghost var arrived: nat
    ghost var handled: nat

    /** `sPktSem` counts the packets not yet handled, modulo 256. */
    ghost predicate Valid()
      reads this
    {
      handled <= arrived && pktSem as int == (arrived - handled) % 0x100
    }

    constructor ()
      ensures Valid() && pktSem == 0 && measureSem == 0 && reports == []
      ensures arrived == 0 && handled == 0
    {
      pktSem, measureSem, reports := 0, 0, [];
      arrived, handled := 0, 0;
    }

    /** `MRFI_RxCompleteISR`: one more packet is waiting (`uint8_t` `++`). */
    method RxComplete()
      requires Valid()
      modifies this
      ensures Valid() && pktSem == U8(old(pktSem) + 1) && arrived == old(arrived) + 1
      ensures handled == old(handled) && measureSem == old(measureSem) && reports == old(reports)
    {
      pktSem := U8(pktSem + 1);
      arrived := arrived + 1;
    }

    /** `Timer_A`: time for the hub's own sample. */
    method TimerTick()
      requires Valid()
      modifies this
      ensures Valid() && measureSem == 1
      ensures pktSem == old(pktSem) && reports == old(reports)
      ensures arrived == old(arrived) && handled == old(handled)
    {
      measureSem := 1;
    }

    /** One pass of the main loop: if a packet is waiting, receive it
     *  (`rxPayload` is the payload area `MRFI_Receive` fills), forward its
     *  first three bytes and count it handled; then, if the flag is set,
     *  report the hub's own sample and clear the flag. */
    method LoopIteration(rxPayload: seq<byte>, temp: adc10, volt: adc10, offsetWord: word)
      requires Valid() && |rxPayload| >= SampleLen
      modifies this
      ensures Valid() && arrived == old(arrived) && measureSem == 0
      ensures old(pktSem) != 0 ==> pktSem == old(pktSem) - 1 && handled == old(handled) + 1
      ensures old(pktSem) == 0 ==> pktSem == 0 && handled == old(handled)
      ensures reports == old(reports)
        + (if old(pktSem) != 0 then [Forwarded(rxPayload[..SampleLen])] else [])
        + (if old(measureSem) != 0 then [HubSample("HUB0", "000", SampleMsg(temp, volt, offsetWord))] else [])
    {
      ghost var forwarded: seq<Report> := [];
      if pktSem != 0 {
        var msg := new byte[6];
        CopyInto(msg, 0, rxPayload[..SampleLen]);
        assert msg[..SampleLen] == rxPayload[..SampleLen];
        forwarded := [Forwarded(msg[..SampleLen])];
        reports := reports + [Forwarded(msg[..SampleLen])];
        PendingDecrement(arrived, handled, pktSem);
        pktSem := pktSem - 1;
        handled := handled + 1;
      }
      assert reports == old(reports) + forwarded;
      assert forwarded == if old(pktSem) != 0 then [Forwarded(rxPayload[..SampleLen])] else [];
      ghost var own: seq<Report> := [];
      if measureSem != 0 {
        var msg := new byte[6];
        TakeSample(msg, temp, volt, offsetWord);
        own := [HubSample("HUB0", "000", msg[..SampleLen])];
        reports := reports + [HubSample("HUB0", "000", msg[..SampleLen])];
        measureSem := 0;
      }
      assert own == if old(measureSem) != 0 then [HubSample("HUB0", "000", SampleMsg(temp, volt, offsetWord))] else [];
      assert reports == old(reports) + forwarded + own;
    }
  }

  /** Handling one packet when the semaphore is non-zero keeps it equal to
   *  the number still waiting. */
  lemma PendingDecrement(arrived: nat, handled: nat, sem: byte)
    requires handled <= arrived && sem as int == (arrived - handled) % 0x100 && sem != 0
    ensures handled + 1 <= arrived && sem - 1 == (arrived - (handled + 1)) % 0x100
  {
  }

  /** 256 packets that arrive before the loop looks wrap `sPktSem` back to
   *  0: none of them is handled until another one arrives. */
  lemma PendingWrapsAt256(arrived: nat, handled: nat, sem: byte)
    requires handled <= arrived && sem as int == (arrived - handled) % 0x100
    requires arrived - handled == 0x100
    ensures sem == 0
  {
  }

  // ---------------------------------------------------------------------
  // End device (main_ED.c)
  // ---------------------------------------------------------------------

  /** The end device: `sSelfMeasureSem` (starting at 1, "start with a
   *  sample"), whether it was built with `TIMER`, its radio and its own
   *  address. */
  class EndDevice {
    var sem: byte
    const timer: bool
    const radio: MrfiRadio
    const myAddr: seq<byte>

    constructor (timer: bool, radio: MrfiRadio, myAddr: seq<byte>)
      requires |myAddr| == MrfiAddrSize
      ensures this.timer == timer && this.radio == radio && this.myAddr == myAddr && sem == 1
    {
      this.timer, this.radio, this.myAddr := timer, radio, myAddr;
      sem := 1;
    }
  }

  /** The radio calls of one measurement: with `TIMER` the radio is woken
   *  before and put back to sleep after the transmission; without it the
   *  radio stays awake. */
  function MeasureCalls(timer: bool, m: seq<byte>, src: seq<byte>): (calls: seq<MrfiCall>)
    ensures Transmitted(m, src) in calls
    ensures |calls| == if timer then 4 else 1
  {
    if timer then [Woke, Transmitted(m, src), Idled, Slept] else [Transmitted(m, src)]
  }

  /** One pass of `sampleAndSend`'s loop. `ticked` says whether the timer
   *  interrupt came since the last pass (it sets the semaphore to 1). With
   *  `TIMER` the pass measures only when the semaphore is set and then
   *  clears it; without `TIMER` every pass measures. */
  method SampleAndSendIteration(dev: EndDevice, msg: array<byte>, pkt: Packet, ticked: bool,
                                temp: adc10, volt: adc10, offsetWord: word)
    requires msg.Length == SampleLen && |dev.myAddr| == MrfiAddrSize
    modifies dev, dev.radio, msg, pkt
    ensures var s := if dev.timer && ticked then 1 else old(dev.sem);
      if !dev.timer || s != 0 then
        && dev.radio.calls == old(dev.radio.calls) + MeasureCalls(dev.timer, SampleMsg(temp, volt, offsetWord), dev.myAddr)
        && pkt.payloadLen as nat == SampleLen && pkt.payload == SampleMsg(temp, volt, offsetWord)
        && dev.sem == (if dev.timer then 0 else s)
      else dev.radio.calls == old(dev.radio.calls) && dev.sem == s
  {
    if dev.timer && ticked {
      dev.sem := 1;
    }
    if !dev.timer || dev.sem != 0 {
      TakeSample(msg, temp, volt, offsetWord);
      assert msg[..] == msg[..SampleLen];
      BuildPayload(pkt, msg, SampleLen, dev.myAddr);
      if dev.timer {
        dev.radio.WakeUp();
      }
      dev.radio.Transmit(pkt);
      if dev.timer {
        dev.radio.RxIdle();
        dev.radio.Sleep();
        dev.sem := 0;
      }
    }
  }

  /** What `n` passes of the loop add to the radio log, and the semaphore
   *  after them, from semaphore `sem`: pass `k` sees `ticks(k)` and measures
   *  `temps(k)` and `volts(k)`. */
  function Passes(timer: bool, sem: byte, ticks: nat -> bool, temps: nat -> adc10, volts: nat -> adc10,
                  offsetWord: word, src: seq<byte>, n: nat): (r: (seq<MrfiCall>, byte))
    ensures !timer ==> r.1 == sem
    ensures timer && n > 0 ==> r.1 == 0
    decreases n
  {
    if n == 0 then ([], sem)
    else
      var prev := Passes(timer, sem, ticks, temps, volts, offsetWord, src, n - 1);
      var s := if timer && ticks(n - 1) then 1 else prev.1;
      if !timer || s != 0 then
        (prev.0 + MeasureCalls(timer, SampleMsg(temps(n - 1), volts(n - 1), offsetWord), src), if timer then 0 else s)
      else (prev.0, s)
  }

  /** How many frames a radio log transmits. */
  function Transmissions(calls: seq<MrfiCall>): nat
  {
    if calls == [] then 0 else Transmissions(calls[..|calls| - 1]) + (if calls[|calls| - 1].Transmitted? then 1 else 0)
  }

  lemma {:induction false} TransmissionsAppend(a: seq<MrfiCall>, b: seq<MrfiCall>)
    ensures Transmissions(a + b) == Transmissions(a) + Transmissions(b)
    decreases |b|
  {
    if b == [] {
      assert a + b == a;
    } else {
      assert (a + b)[..|a + b| - 1] == a + b[..|b| - 1];
      TransmissionsAppend(a, b[..|b| - 1]);
    }
  }

  /** How many of the first `n` passes saw a timer interrupt. */
  function TicksIn(ticks: nat -> bool, n: nat): nat
  {
    if n == 0 then 0 else TicksIn(ticks, n - 1) + (if ticks(n - 1) then 1 else 0)
  }

  /** Without `TIMER` every pass transmits; with it the device transmits at
   *  most once per timer interrupt, plus once for a semaphore already set
   *  when the loop starts (the constructor's "start with a sample"). */
  lemma {:induction false} PassesTransmit(timer: bool, sem: byte, ticks: nat -> bool, temps: nat -> adc10,
                                          volts: nat -> adc10, offsetWord: word, src: seq<byte>, n: nat)
    ensures var r := Passes(timer, sem, ticks, temps, volts, offsetWord, src, n);
      && (!timer ==> Transmissions(r.0) == n)
      && (timer ==> Transmissions(r.0) + (if r.1 != 0 then 1 else 0) <= (if sem != 0 then 1 else 0) + TicksIn(ticks, n))
  {
    if n > 0 {
      PassesTransmit(timer, sem, ticks, temps, volts, offsetWord, src, n - 1);
      var prev := Passes(timer, sem, ticks, temps, volts, offsetWord, src, n - 1);
      var m := SampleMsg(temps(n - 1), volts(n - 1), offsetWord);
      TransmissionsAppend(prev.0, MeasureCalls(timer, m, src));
      MeasureTransmitsOnce(timer, m, src);
    }
  }

  /** A measurement puts exactly one frame on air. */
  lemma MeasureTransmitsOnce(timer: bool, m: seq<byte>, src: seq<byte>)
    ensures Transmissions(MeasureCalls(timer, m, src)) == 1
  {
    var c := MeasureCalls(timer, m, src);
    if timer {
      var w := [Woke];
      assert w[..0] == [] && Transmissions(w) == 0;
      var wt := w + [Transmitted(m, src)];
      assert wt[..1] == w && Transmissions(wt) == 1;
      var wti := wt + [Idled];
      assert wti[..2] == wt && Transmissions(wti) == 1;
      assert c == wti + [Slept] && c[..3] == wti;
    } else {
      assert c[..0] == [];
    }
  }

  /** `sampleAndSend` for `n` passes of its loop: the radio is woken once
   *  before the loop, then each pass does what `SampleAndSendIteration`
   *  says. */
  method SampleAndSend(dev: EndDevice, msg: array<byte>, pkt: Packet, ticks: nat -> bool,
                       temps: nat -> adc10, volts: nat -> adc10, offsetWord: word, n: nat)
    requires msg.Length == SampleLen && |dev.myAddr| == MrfiAddrSize
    modifies dev, dev.radio, msg, pkt
    ensures var r := Passes(dev.timer, old(dev.sem), ticks, temps, volts, offsetWord, dev.myAddr, n);
      dev.radio.calls == old(dev.radio.calls) + [Woke] + r.0 && dev.sem == r.1
  {
    dev.radio.WakeUp();
    ghost var calls0, sem0 := dev.radio.calls, dev.sem;
    var k := 0;
    while k < n
      invariant k <= n
      invariant var r := Passes(dev.timer, sem0, ticks, temps, volts, offsetWord, dev.myAddr, k);
        dev.radio.calls == calls0 + r.0 && dev.sem == r.1
    {
      SampleAndSendIteration(dev, msg, pkt, ticks(k), temps(k), volts(k), offsetWord);
      k := k + 1;
    }
  }

  /** What the access point forwards from an end device's packet is the
   *  end device's measurement: temperature and voltage read back exactly. */
  lemma ForwardedSampleDecodes(temp: adc10, volt: adc10, offsetWord: word)
    ensures var d := Forwarded(SampleMsg(temp, volt, offsetWord)[..SampleLen]).data;
      S16(LE16(d[0], d[1])) == DegC(temp, offsetWord) && d[2] == VoltTenths(volt)
  {
    SampleRoundTrip(temp, volt, offsetWord);
    assert SampleMsg(temp, volt, offsetWord)[..SampleLen] == SampleMsg(temp, volt, offsetWord);
  }
}
