/** The ADXL345 driver of the ez430-rf2500_wsm end device. Its register
 *  access is the same SPI framing as the accel_alarm driver, but its
 *  address checks are those of the CC2500 radio: reads up to 0x3B, strobes
 *  0x30..0x3D, writes up to 0x2E or to 0x3E. */
module AccelWsm {
  import opened Spi
  import AccelAlarm

  /** The address byte of a read: `addr | BURST_BIT | READ_BIT`. */
  function ReadAddrByte(addr: bv8): bv8
  {
    addr | BurstBit | ReadBit
  }

  /** Every address the read check lets through keeps its six address bits
   *  and gains both the read and the burst bit. */
  lemma ReadAddrBytes(addr: bv8)
    requires addr <= 0x3B
    ensures ReadAddrByte(addr) & 0x3F == addr
    ensures ReadAddrByte(addr) & ReadBit == ReadBit && ReadAddrByte(addr) & BurstBit == BurstBit
  {
  }

  /** `accelSpiCmdStrobe(addr)`: only the strobe range 0x30..0x3D passes. */
  method CmdStrobe(bus: SpiBus, addr: bv8) returns (statusByte: bv8)
    requires 0x30 <= addr <= 0x3D
    modifies bus
    ensures bus.events == old(bus.events) + [CsHigh, CsLow, Xfer(addr), CsHigh]
    ensures bus.xfers == old(bus.xfers) + 1 && statusByte == bus.rx(old(bus.xfers))
  {
    bus.DriveCsHigh();
    bus.DriveCsLow();
    statusByte := bus.Transfer(addr);
    bus.DriveCsHigh();
  }

  /** `accelSpiReadReg(addr)` */
  method ReadReg(bus: SpiBus, addr: bv8) returns (value: bv8)
    requires addr <= 0x3B
    modifies bus
    ensures bus.events == old(bus.events) + RegAccessEvents(ReadAddrByte(addr), DummyByte)
    ensures bus.xfers == old(bus.xfers) + 2 && value == bus.rx(old(bus.xfers) + 1)
  {
    value := SpiRegAccess(bus, addr | BurstBit | ReadBit, DummyByte);
  }

  /** The address check of `accelSpiWriteReg` as written. */
  predicate WriteAllowedAsWritten(addr: bv8)
  {
    addr <= 0x2E || addr == 0x3E
  }

  /** `accelSpiWriteReg(addr, value)` as written: the assertion admits only the
   *  radio's configuration registers and its power table. */
  method WriteRegAsWritten(bus: SpiBus, addr: bv8, value: bv8)
    requires WriteAllowedAsWritten(addr)
    modifies bus
    ensures bus.events == old(bus.events) + RegAccessEvents(addr, value)
    ensures bus.xfers == old(bus.xfers) + 2
  {
    var _ := SpiRegAccess(bus, addr, value);
  }

  /** Every address the write check lets through has both top bits clear,
   *  so the accelerometer takes it as a single-byte write. */
  lemma WriteAddrBits(addr: bv8)
    requires WriteAllowedAsWritten(addr)
    ensures addr & ReadBit == 0 && addr & BurstBit == 0
  {
  }

  /** The last write of `accelInit`, to `INT_MAP`, fails the assertion as
   *  written although `INT_MAP` is an accelerometer register; the five
   *  writes before it pass. */
  lemma InitWriteRejected()
    ensures !WriteAllowedAsWritten(IntMapAddr) && IntMapAddr <= AccelAlarm.AccelMaxAddr
    ensures WriteAllowedAsWritten(ThreshActAddr) && WriteAllowedAsWritten(ActInactCtlAddr)
      && WriteAllowedAsWritten(BwRateAddr) && WriteAllowedAsWritten(PowerCtlAddr)
      && WriteAllowedAsWritten(IntEnableAddr)
  {
  }

  /** `accelInit`: chip select made an output and driven high, then six
   *  register writes, checked against the accelerometer's own register
   *  range (`AccelAlarm.WriteReg`). */
  method Init(bus: SpiBus)
    modifies bus
    ensures bus.events == old(bus.events) + [CsOutput, CsHigh] + RegAccessEvents(ThreshActAddr, 0x7f)
      + RegAccessEvents(ActInactCtlAddr, 0x70) + RegAccessEvents(BwRateAddr, 0x0a)
      + RegAccessEvents(PowerCtlAddr, 0x08) + RegAccessEvents(IntEnableAddr, 0x10)
      + RegAccessEvents(IntMapAddr, 0x00)
    ensures bus.xfers == old(bus.xfers) + 12
    ensures Transfers(bus.events) == Transfers(old(bus.events)) + 12 && CsIdle(bus.events)
  {
    TransfersSnoc(bus.events, CsOutput);
    bus.CsAsOutput();
    TransfersSnoc(bus.events, CsHigh);
    bus.DriveCsHigh();
    AccelAlarm.InitWrite(bus, ThreshActAddr, 0x7f);
    AccelAlarm.InitWrite(bus, ActInactCtlAddr, 0x70);
    AccelAlarm.InitWrite(bus, BwRateAddr, 0x0a);
    AccelAlarm.InitWrite(bus, PowerCtlAddr, 0x08);
    AccelAlarm.InitWrite(bus, IntEnableAddr, 0x10);
    AccelAlarm.InitWrite(bus, IntMapAddr, 0x00);
  }
}
