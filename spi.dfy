/** The accelerometer's SPI bus as the end devices drive it: chip select on
 *  P4.3 and byte transfers through the USCI, shared with the radio. The
 *  bytes the accelerometer shifts back are an input: `rx(n)` is the byte
 *  received during the n-th transfer. */
module Spi {
  import opened CTypes

  /** `READ_BIT` / `BSP_SPI_READ_BIT` */
  const ReadBit: bv8 := 0x80
  /** `BURST_BIT` / `BSP_SPI_BURST_BIT` */
  const BurstBit: bv8 := 0x40
  /** `DUMMY_BYTE` / `BSP_SPI_DUMMY_BYTE` */
  const DummyByte: bv8 := 0xDB

  /** The ADXL345 registers the drivers touch (`accel_spi.h`). */
  const ThreshActAddr: bv8 := 0x24
  const ActInactCtlAddr: bv8 := 0x27
  const BwRateAddr: bv8 := 0x2c
  const PowerCtlAddr: bv8 := 0x2d
  const IntEnableAddr: bv8 := 0x2e
  const IntMapAddr: bv8 := 0x2f
  const IntSourceAddr: bv8 := 0x30
  const DataFormatAddr: bv8 := 0x31
  const FifoCtlAddr: bv8 := 0x38
  const FifoStatusAddr: bv8 := 0x39

  /** The chip select and the transfers, in order. `CsOutput` is P4.3 made a
   *  GPIO output. */
  datatype SpiEvent = CsOutput | CsHigh | CsLow | Xfer(out: bv8)

  /** The events of one `spiRegAccess`: chip select pulsed high and low, the
   *  address byte and the value byte, chip select high again. */
  function RegAccessEvents(addrByte: bv8, writeValue: bv8): seq<SpiEvent>
  {
    [CsHigh, CsLow, Xfer(addrByte), Xfer(writeValue), CsHigh]
  }

  /** Whether chip select is inactive (high) after a run of events; it
   *  starts high. */
  function CsIdle(events: seq<SpiEvent>): bool
  {
    if events == [] then true
    else if events[|events| - 1] == CsHigh then true
    else if events[|events| - 1] == CsLow then false
    else CsIdle(events[..|events| - 1])
  }

  /** How many bytes a run of events shifts. */
  function Transfers(events: seq<SpiEvent>): nat
  {
    if events == [] then 0 else Transfers(events[..|events| - 1]) + (if events[|events| - 1].Xfer? then 1 else 0)
  }

  lemma TransfersSnoc(a: seq<SpiEvent>, e: SpiEvent)
    ensures Transfers(a + [e]) == Transfers(a) + (if e.Xfer? then 1 else 0)
    ensures CsIdle(a + [e]) == (e == CsHigh || (e != CsLow && CsIdle(a)))
  {
    assert (a + [e])[..|a|] == a;
  }

  /** A register access shifts exactly two bytes and leaves chip select
   *  high, whatever came before. */
  lemma RegAccessShape(before: seq<SpiEvent>, addrByte: bv8, writeValue: bv8)
    ensures Transfers(before + RegAccessEvents(addrByte, writeValue)) == Transfers(before) + 2
    ensures CsIdle(before + RegAccessEvents(addrByte, writeValue))
  {
    var s1 := before + [CsHigh];
    var s2 := s1 + [CsLow];
    var s3 := s2 + [Xfer(addrByte)];
    var s4 := s3 + [Xfer(writeValue)];
    TransfersSnoc(before, CsHigh);
    TransfersSnoc(s1, CsLow);
    TransfersSnoc(s2, Xfer(addrByte));
    TransfersSnoc(s3, Xfer(writeValue));
    TransfersSnoc(s4, CsHigh);
    assert s4 + [CsHigh] == before + RegAccessEvents(addrByte, writeValue);
  }

  class SpiBus {
    /** the byte received during the n-th transfer */
    const rx: nat -> bv8
    /** transfers made so far */
    var xfers: nat
    var events: seq<SpiEvent>

    constructor (rx: nat -> bv8)
      ensures this.rx == rx && xfers == 0 && events == []
    {
      this.rx := rx;
      xfers, events := 0, [];
    }

    /** `ACCEL_SPI_CONFIG_CSN_PIN_AS_OUTPUT()` */
    method CsAsOutput()
      modifies this`events
      ensures events == old(events) + [CsOutput]
    {
      events := events + [CsOutput];
    }

    /** `ACCEL_SPI_DRIVE_CSN_HIGH()` / `P4OUT |= BIT3` */
    method DriveCsHigh()
      modifies this`events
      ensures events == old(events) + [CsHigh]
    {
      events := events + [CsHigh];
    }

    /** `ACCEL_SPI_DRIVE_CSN_LOW()` / `P4OUT &= ~BIT3` */
    method DriveCsLow()
      modifies this`events
      ensures events == old(events) + [CsLow]
    {
      events := events + [CsLow];
    }

    /** `SPI_WRITE_BYTE(b)`, `SPI_WAIT_DONE()`, then `SPI_READ_BYTE()`: shift
     *  one byte out and return the byte shifted in. */
    method Transfer(b: bv8) returns (r: bv8)
      modifies this`events, this`xfers
      ensures r == rx(old(xfers)) && xfers == old(xfers) + 1
      ensures events == old(events) + [Xfer(b)]
    {
      r := rx(xfers);
      xfers := xfers + 1;
      events := events + [Xfer(b)];
    }
  }

  /** `spiRegAccess(addrByte, writeValue)`: the byte received while the
   *  value byte is shifted is the result. */
  method SpiRegAccess(bus: SpiBus, addrByte: bv8, writeValue: bv8) returns (readValue: bv8)
    modifies bus
    ensures bus.events == old(bus.events) + RegAccessEvents(addrByte, writeValue)
    ensures bus.xfers == old(bus.xfers) + 2 && readValue == bus.rx(old(bus.xfers) + 1)
  {
    bus.DriveCsHigh();
    bus.DriveCsLow();
    var _ := bus.Transfer(addrByte);
    readValue := bus.Transfer(writeValue);
    bus.DriveCsHigh();
  }
}
