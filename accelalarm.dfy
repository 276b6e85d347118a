/** The ADXL345 accelerometer driver of the ez430-rf2500_wsm_accel_alarm end
 *  device: register reads and writes framed on the SPI bus, the three
 *  sample-reading loops and the initialisation sequence. */
module AccelAlarm {
  import opened CTypes
  import opened Spi

  /** `ACCEL_MAX_ADDR` = `FIFO_STATUS_ADDR` */
  const AccelMaxAddr: bv8 := FifoStatusAddr

  /** The address byte of a register read: `addr | BSP_SPI_READ_BIT`. */
  function ReadAddrByte(addr: bv8): bv8
  {
    addr | ReadBit
  }

  /** For every valid register the read byte has the read bit set, not the
   *  burst bit, and carries the address in its low bits; a write sends the
   *  address itself, whose read bit is clear. */
  lemma AddrBytes(addr: bv8)
    requires addr <= AccelMaxAddr
    ensures ReadAddrByte(addr) & ReadBit == ReadBit && ReadAddrByte(addr) & BurstBit == 0
    ensures ReadAddrByte(addr) & 0x3F == addr
    ensures addr & ReadBit == 0
  {
  }

  /** `accelSpiCmdStrobe(addr)`: one byte shifted between chip select low
   *  and high; the byte shifted in is the status. */
  method CmdStrobe(bus: SpiBus, addr: bv8) returns (statusByte: bv8)
    requires addr <= AccelMaxAddr
    modifies bus
    ensures bus.events == old(bus.events) + [CsHigh, CsLow, Xfer(addr), CsHigh]
    ensures bus.xfers == old(bus.xfers) + 1 && statusByte == bus.rx(old(bus.xfers))
  {
    bus.DriveCsHigh();
    bus.DriveCsLow();
    statusByte := bus.Transfer(addr);
    bus.DriveCsHigh();
  }

  /** `accelSpiReadReg(addr)`: the register value is the byte received
   *  while the dummy byte is shifted. */
  method ReadReg(bus: SpiBus, addr: bv8) returns (value: bv8)
    requires addr <= AccelMaxAddr
    modifies bus
    ensures bus.events == old(bus.events) + RegAccessEvents(ReadAddrByte(addr), DummyByte)
    ensures bus.xfers == old(bus.xfers) + 2 && value == bus.rx(old(bus.xfers) + 1)
  {
    value := SpiRegAccess(bus, addr | ReadBit, DummyByte);
  }

  /** `accelSpiWriteReg(addr, value)`: the address goes out unchanged. */
  method WriteReg(bus: SpiBus, addr: bv8, value: bv8)
    requires addr <= AccelMaxAddr
    modifies bus
    ensures bus.events == old(bus.events) + RegAccessEvents(addr, value)
    ensures bus.xfers == old(bus.xfers) + 2
  {
    var _ := SpiRegAccess(bus, addr, value);
  }

  /** One write of `accelInit`, with its effect on the bus shape. */
  method InitWrite(bus: SpiBus, addr: bv8, value: bv8)
    requires addr <= AccelMaxAddr
    modifies bus
    ensures bus.events == old(bus.events) + RegAccessEvents(addr, value) && bus.xfers == old(bus.xfers) + 2
    ensures Transfers(bus.events) == Transfers(old(bus.events)) + 2 && CsIdle(bus.events)
  {
    RegAccessShape(bus.events, addr, value);
    WriteReg(bus, addr, value);
  }

  /** `accelInit`: the eight register writes in their fixed order (the
   *  port 2 interrupt set-up before them is register programming). */
  method Init(bus: SpiBus)
    modifies bus
    ensures bus.events == old(bus.events) + RegAccessEvents(ThreshActAddr, 0xf0) + RegAccessEvents(ActInactCtlAddr, 0xf0)
      + RegAccessEvents(BwRateAddr, 0x0f) + RegAccessEvents(PowerCtlAddr, 0x08) + RegAccessEvents(IntEnableAddr, 0x10)
      + RegAccessEvents(IntMapAddr, 0x00) + RegAccessEvents(DataFormatAddr, 0x00) + RegAccessEvents(FifoCtlAddr, 0x9f)
    ensures bus.xfers == old(bus.xfers) + 16
    ensures Transfers(bus.events) == Transfers(old(bus.events)) + 16 && CsIdle(bus.events)
  {
    InitWrite(bus, ThreshActAddr, 0xf0);
    InitWrite(bus, ActInactCtlAddr, 0xf0);
    InitWrite(bus, BwRateAddr, 0x0f);
    InitWrite(bus, PowerCtlAddr, 0x08);
    InitWrite(bus, IntEnableAddr, 0x10);
    InitWrite(bus, IntMapAddr, 0x00);
    InitWrite(bus, DataFormatAddr, 0x00);
    InitWrite(bus, FifoCtlAddr, 0x9f);
  }

  // ---------------------------------------------------------------------
  // Sample packing
  // ---------------------------------------------------------------------

  /** `buf[i] = lsb; buf[i] |= (msb << 8) & 0xff00` */
  function Pack16(lsb: bv8, msb: bv8): bv16
  {
    (lsb as bv16) | (((msb as bv16) << 8) & 0xff00)
  }

  /** The low byte of a packed sample is the first byte read and the high
   *  byte the second. */
  lemma Pack16RoundTrip(lsb: bv8, msb: bv8)
    ensures (Pack16(lsb, msb) & 0xff) as bv8 == lsb && (Pack16(lsb, msb) >> 8) as bv8 == msb
  {
  }

  /** `buf[i] = (lsb >> 2) & 0x3f; buf[i] |= (msb << 6) & 0xc0` */
  function Top8(lsb: bv8, msb: bv8): bv8
  {
    ((lsb >> 2) & 0x3f) | ((msb << 6) & 0xc0)
  }

  /** The packed byte is bits 9..2 of the 10-bit sample `lsb | msb << 8`. */
  lemma Top8IsBits9To2(lsb: bv8, msb: bv8)
    ensures Top8(lsb, msb) == ((Pack16(lsb, msb) >> 2) & 0xff) as bv8
  {
  }

  // ---------------------------------------------------------------------
  // The read loops
  // ---------------------------------------------------------------------

  /** The events of `n` samples of `accelSpiReadData`. */
  function ReadDataEvents(addrByte: bv8, n: nat): (e: seq<SpiEvent>)
    ensures |e| == 5 * n
  {
    if n == 0 then [] else ReadDataEvents(addrByte, n - 1) + [CsLow, Xfer(ReadBit | BurstBit | addrByte), Xfer(DummyByte), Xfer(DummyByte), CsHigh]
  }

  /** One iteration of the `accelSpiReadData` loop. */
  method ReadSample16(bus: SpiBus, addrByte: bv8) returns (v: bv16)
    modifies bus
    ensures bus.events == old(bus.events) + [CsLow, Xfer(ReadBit | BurstBit | addrByte), Xfer(DummyByte), Xfer(DummyByte), CsHigh]
    ensures bus.xfers == old(bus.xfers) + 3 && v == Pack16(bus.rx(old(bus.xfers) + 1), bus.rx(old(bus.xfers) + 2))
  {
    bus.DriveCsLow();
    var _ := bus.Transfer(ReadBit | BurstBit | addrByte);
    var reg := bus.Transfer(DummyByte);
    v := reg as bv16;
    reg := bus.Transfer(DummyByte);
    v := v | (((reg as bv16) << 8) & 0xff00);
    bus.DriveCsHigh();
  }

  /** `accelSpiReadData(addrByte, buf, samples)`: each sample is a burst
   *  read of two bytes, low byte first. Only `buf[0..samples)` changes. */
  method ReadData(bus: SpiBus, addrByte: bv8, buf: array<bv16>, samples: int)
    requires samples <= buf.Length
    modifies bus, buf
    ensures var n := if samples < 0 then 0 else samples;
      && bus.events == old(bus.events) + [CsHigh] + ReadDataEvents(addrByte, n)
      && bus.xfers == old(bus.xfers) + 3 * n
      && (forall i :: 0 <= i < n ==> buf[i] == Pack16(bus.rx(old(bus.xfers) + 3 * i + 1), bus.rx(old(bus.xfers) + 3 * i + 2)))
      && (forall i :: n <= i < buf.Length ==> buf[i] == old(buf[i]))
  {
    bus.DriveCsHigh();
    ghost var e0, x0 := bus.events, bus.xfers;
    var n := if samples < 0 then 0 else samples;
    var i := 0;
    while i < n
      invariant i <= n <= buf.Length
      invariant bus.events == e0 + ReadDataEvents(addrByte, i) && bus.xfers == x0 + 3 * i
      invariant forall k :: 0 <= k < i ==> buf[k] == Pack16(bus.rx(x0 + 3 * k + 1), bus.rx(x0 + 3 * k + 2))
      invariant forall k :: i <= k < buf.Length ==> buf[k] == old(buf[k])
    {
      buf[i] := ReadSample16(bus, addrByte);
      AppendAssoc(e0, ReadDataEvents(addrByte, i), [CsLow, Xfer(ReadBit | BurstBit | addrByte), Xfer(DummyByte), Xfer(DummyByte), CsHigh]);
      i := i + 1;
    }
  }

  /** The events of `n` samples of `accelSpiReadDataBytes`. */
  function ReadBytesEvents(addrByte: bv8, n: nat): (e: seq<SpiEvent>)
    ensures |e| == 4 * n
  {
    if n == 0 then [] else ReadBytesEvents(addrByte, n - 1) + [CsLow, Xfer(ReadBit | addrByte), Xfer(DummyByte), CsHigh]
  }

  /** One iteration of the `accelSpiReadDataBytes` loop. */
  method ReadSample8(bus: SpiBus, addrByte: bv8) returns (v: bv8)
    modifies bus
    ensures bus.events == old(bus.events) + [CsLow, Xfer(ReadBit | addrByte), Xfer(DummyByte), CsHigh]
    ensures bus.xfers == old(bus.xfers) + 2 && v == bus.rx(old(bus.xfers) + 1)
  {
    bus.DriveCsLow();
    var _ := bus.Transfer(ReadBit | addrByte);
    v := bus.Transfer(DummyByte);
    bus.DriveCsHigh();
  }

  /** `accelSpiReadDataBytes(addrByte, buf, samples)`: one byte per sample,
   *  read without the burst bit. Only `buf[0..samples)` changes. */
  method ReadDataBytes(bus: SpiBus, addrByte: bv8, buf: array<bv8>, samples: int)
    requires samples <= buf.Length
    modifies bus, buf
    ensures var n := if samples < 0 then 0 else samples;
      && bus.events == old(bus.events) + [CsHigh] + ReadBytesEvents(addrByte, n)
      && bus.xfers == old(bus.xfers) + 2 * n
      && (forall i :: 0 <= i < n ==> buf[i] == bus.rx(old(bus.xfers) + 2 * i + 1))
      && (forall i :: n <= i < buf.Length ==> buf[i] == old(buf[i]))
  {
    bus.DriveCsHigh();
    ghost var e0, x0 := bus.events, bus.xfers;
    var n := if samples < 0 then 0 else samples;
    var i := 0;
    while i < n
      invariant i <= n <= buf.Length
      invariant bus.events == e0 + ReadBytesEvents(addrByte, i) && bus.xfers == x0 + 2 * i
      invariant forall k :: 0 <= k < i ==> buf[k] == bus.rx(x0 + 2 * k + 1)
      invariant forall k :: i <= k < buf.Length ==> buf[k] == old(buf[k])
    {
      buf[i] := ReadSample8(bus, addrByte);
      AppendAssoc(e0, ReadBytesEvents(addrByte, i), [CsLow, Xfer(ReadBit | addrByte), Xfer(DummyByte), CsHigh]);
      i := i + 1;
    }
  }

  /** `DATA_READY` in `INT_SOURCE` */
  predicate Ready(status: bv8)
  {
    status & 0x80 != 0
  }

  /** The status read by the j-th poll of a wait that starts at transfer x. */
  function PollStatus(rx: nat -> bv8, x: nat, j: nat): bv8
  {
    rx(x + 2 * j + 1)
  }

  /** The accelerometer eventually reports `DATA_READY` to a wait that
   *  starts at transfer x. */
  ghost predicate EventuallyReady(rx: nat -> bv8, x: nat)
  {
    exists j :: Ready(PollStatus(rx, x, j))
  }

  /** A wait from transfer x took `polls` polls: the last one saw
   *  `DATA_READY`, the earlier ones did not. */
  predicate PollsOk(rx: nat -> bv8, x: nat, polls: nat)
  {
    polls >= 1 && Ready(PollStatus(rx, x, polls - 1))
    && forall j :: 0 <= j < polls - 1 ==> !Ready(PollStatus(rx, x, j))
  }

  /** The events of a wait of `polls` polls of `INT_SOURCE`. */
  function PollEvents(polls: nat): (e: seq<SpiEvent>)
    ensures |e| == 4 * polls
  {
    if polls == 0 then [] else PollEvents(polls - 1) + [CsLow, Xfer(ReadBit | IntSourceAddr), Xfer(DummyByte), CsHigh]
  }

  /** One sample of `accelSpiReadDataBytes2`: poll until `DATA_READY`, then
   *  burst-read the two data bytes. */
  function Sample2Events(addrByte: bv8, polls: nat): seq<SpiEvent>
  {
    PollEvents(polls) + [CsLow, Xfer(ReadBit | BurstBit | addrByte), Xfer(DummyByte), Xfer(DummyByte), CsHigh]
  }

  /** The transfer at which sample `|ps|` starts, the samples before it
   *  having waited `ps` polls each. */
  function Start(x0: nat, ps: seq<nat>): nat
  {
    if ps == [] then x0 else Start(x0, ps[..|ps| - 1]) + 2 * ps[|ps| - 1] + 3
  }

  /** The events of the samples that waited `ps` polls each. */
  function Bytes2Events(addrByte: bv8, ps: seq<nat>): seq<SpiEvent>
  {
    if ps == [] then [] else Bytes2Events(addrByte, ps[..|ps| - 1]) + Sample2Events(addrByte, ps[|ps| - 1])
  }

  /** Sample k is read right after the wait that starts at `Start` of the
   *  samples before it, and is valid for that wait. */
  predicate Sample2Ok(rx: nat -> bv8, x0: nat, ps: seq<nat>, k: nat, v: bv8)
    requires k < |ps|
  {
    var x := Start(x0, ps[..k]);
    PollsOk(rx, x, ps[k]) && v == Top8(rx(x + 2 * ps[k] + 1), rx(x + 2 * ps[k] + 2))
  }

  /** One poll of `INT_SOURCE`, inside the wait loop. */
  method ReadIntSource(bus: SpiBus) returns (status: bv8)
    modifies bus
    ensures bus.events == old(bus.events) + [CsLow, Xfer(ReadBit | IntSourceAddr), Xfer(DummyByte), CsHigh]
    ensures bus.xfers == old(bus.xfers) + 2 && status == bus.rx(old(bus.xfers) + 1)
  {
    bus.DriveCsLow();
    var _ := bus.Transfer(ReadBit | IntSourceAddr);
    status := bus.Transfer(DummyByte);
    bus.DriveCsHigh();
  }

  /** The wait of `accelSpiReadDataBytes2`, polling `INT_SOURCE` until
   *  `DATA_READY`; there is always at least one poll. */
  method WaitDataReady(bus: SpiBus) returns (ghost polls: nat)
    requires EventuallyReady(bus.rx, bus.xfers)
    modifies bus
    ensures PollsOk(bus.rx, old(bus.xfers), polls)
    ensures bus.events == old(bus.events) + PollEvents(polls) && bus.xfers == old(bus.xfers) + 2 * polls
  {
    ghost var x0, e0 := bus.xfers, bus.events;
    ghost var w: nat :| Ready(PollStatus(bus.rx, x0, w));
    var status: bv8 := 0;
    polls := 0;
    while status & 0x80 == 0
      invariant polls <= w + 1 && bus.xfers == x0 + 2 * polls && bus.events == e0 + PollEvents(polls)
      invariant forall j :: 0 <= j < polls - 1 ==> !Ready(PollStatus(bus.rx, x0, j))
      invariant polls == 0 ==> status == 0
      invariant polls > 0 ==> status == PollStatus(bus.rx, x0, polls - 1)
      decreases w + 1 - polls
    {
      status := ReadIntSource(bus);
      AppendAssoc(e0, PollEvents(polls), [CsLow, Xfer(ReadBit | IntSourceAddr), Xfer(DummyByte), CsHigh]);
      polls := polls + 1;
    }
  }

  /** One iteration of the `accelSpiReadDataBytes2` loop. */
  method ReadSample2(bus: SpiBus, addrByte: bv8) returns (v: bv8, ghost polls: nat)
    requires EventuallyReady(bus.rx, bus.xfers)
    modifies bus
    ensures var x := old(bus.xfers);
      PollsOk(bus.rx, x, polls) && v == Top8(bus.rx(x + 2 * polls + 1), bus.rx(x + 2 * polls + 2))
    ensures bus.events == old(bus.events) + Sample2Events(addrByte, polls)
    ensures bus.xfers == old(bus.xfers) + 2 * polls + 3
  {
    polls := WaitDataReady(bus);
    bus.DriveCsLow();
    var _ := bus.Transfer(ReadBit | BurstBit | addrByte);
    var lsb := bus.Transfer(DummyByte);
    v := (lsb >> 2) & 0x3f;
    var msb := bus.Transfer(DummyByte);
    v := v | ((msb << 6) & 0xc0);
    bus.DriveCsHigh();
  }

  /** Every sample in `vs` was read right after a complete wait, the
   *  samples before it having waited `ps` polls each. */
  predicate SamplesOk(rx: nat -> bv8, x0: nat, ps: seq<nat>, vs: seq<bv8>)
  {
    |ps| == |vs| &&
    (ps == [] ||
      var x := Start(x0, ps[..|ps| - 1]);
      var p := ps[|ps| - 1];
      SamplesOk(rx, x0, ps[..|ps| - 1], vs[..|vs| - 1])
      && PollsOk(rx, x, p) && vs[|vs| - 1] == Top8(rx(x + 2 * p + 1), rx(x + 2 * p + 2)))
  }

  /** `SamplesOk` states `Sample2Ok` of each sample. */
  lemma {:induction false} SamplesOkAt(rx: nat -> bv8, x0: nat, ps: seq<nat>, vs: seq<bv8>, k: nat)
    requires SamplesOk(rx, x0, ps, vs) && k < |ps|
    ensures Sample2Ok(rx, x0, ps, k, vs[k])
  {
    if k < |ps| - 1 {
      SamplesOkAt(rx, x0, ps[..|ps| - 1], vs[..|vs| - 1], k);
      assert ps[..|ps| - 1][..k] == ps[..k];
    }
  }

  /** Appending one sample extends the run's events, start and validity. */
  lemma SampleSnoc(rx: nat -> bv8, addrByte: bv8, x0: nat, ps: seq<nat>, vs: seq<bv8>, p: nat, v: bv8)
    requires SamplesOk(rx, x0, ps, vs)
    requires var x := Start(x0, ps); PollsOk(rx, x, p) && v == Top8(rx(x + 2 * p + 1), rx(x + 2 * p + 2))
    ensures SamplesOk(rx, x0, ps + [p], vs + [v])
    ensures Start(x0, ps + [p]) == Start(x0, ps) + 2 * p + 3
    ensures Bytes2Events(addrByte, ps + [p]) == Bytes2Events(addrByte, ps) + Sample2Events(addrByte, p)
  {
    assert (ps + [p])[..|ps|] == ps && (vs + [v])[..|vs|] == vs;
  }

  /** The body of the `accelSpiReadDataBytes2` loop: sample i goes into
   *  `buf[i]`, extending the run of samples that waited `ps` polls each. */
  method StoreSample2(bus: SpiBus, addrByte: bv8, buf: array<bv8>, i: nat, ghost x0: nat, ghost ps: seq<nat>)
      returns (ghost p: nat)
    requires i < buf.Length && |ps| == i
    requires EventuallyReady(bus.rx, bus.xfers) && bus.xfers == Start(x0, ps)
    requires SamplesOk(bus.rx, x0, ps, buf[..i])
    modifies bus, buf
    ensures bus.events == old(bus.events) + Sample2Events(addrByte, p) && bus.xfers == Start(x0, ps + [p])
    ensures SamplesOk(bus.rx, x0, ps + [p], buf[..i + 1])
    ensures buf[i + 1..] == old(buf[i + 1..])
  {
    ghost var vs := buf[..i];
    var v;
    v, p := ReadSample2(bus, addrByte);
    SampleSnoc(bus.rx, addrByte, x0, ps, vs, p, v);
    buf[i] := v;
    assert buf[..i + 1] == vs + [v];
  }

  /** `accelSpiReadDataBytes2(addrByte, buf, samples)`: each sample waits for
   *  `DATA_READY` and stores bits 9..2 of the reading; `polls[i]` is how
   *  many polls sample i waited. Only `buf[0..samples)` changes. */
  method ReadDataBytes2(bus: SpiBus, addrByte: bv8, buf: array<bv8>, samples: int) returns (ghost polls: seq<nat>)
    requires samples <= buf.Length
    requires forall x :: EventuallyReady(bus.rx, x)
    modifies bus, buf
    ensures |polls| == (if samples < 0 then 0 else samples)
    ensures bus.events == old(bus.events) + [CsHigh] + Bytes2Events(addrByte, polls)
    ensures bus.xfers == Start(old(bus.xfers), polls)
    ensures SamplesOk(bus.rx, old(bus.xfers), polls, buf[..|polls|])
    ensures buf[|polls|..] == old(buf[|polls|..])
  {
    bus.DriveCsHigh();
    ghost var e0, x0 := bus.events, bus.xfers;
    polls := [];
    var n := if samples < 0 then 0 else samples;
    var i := 0;
    while i < n
      invariant i <= n <= buf.Length && |polls| == i
      invariant bus.events == e0 + Bytes2Events(addrByte, polls) && bus.xfers == Start(x0, polls)
      invariant SamplesOk(bus.rx, x0, polls, buf[..i])
      invariant buf[i..] == old(buf[i..])
    {
      var p := StoreSample2(bus, addrByte, buf, i, x0, polls);
      AppendAssoc(e0, Bytes2Events(addrByte, polls), Sample2Events(addrByte, p));
      assert Bytes2Events(addrByte, polls + [p]) == Bytes2Events(addrByte, polls) + Sample2Events(addrByte, p) by {
        assert (polls + [p])[..i] == polls;
      }
      polls := polls + [p];
      i := i + 1;
    }
  }
}
