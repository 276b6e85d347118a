/** The part of the MRFI radio layer the simpleif demos drive directly,
 *  without the SimpliciTI network stack: the packet structure they fill and
 *  the radio calls they make. The radio itself is closed, so each call is
 *  an entry in a log. */
module Mrfi {
  import opened CTypes

  /** `MRFI_ADDR_SIZE` */
  const MrfiAddrSize: nat := 4

  /** One call into the radio layer, in the order the application makes them. */
  datatype MrfiCall =
    | Woke                                              // MRFI_WakeUp()
    | Transmitted(payload: seq<byte>, src: seq<byte>)   // MRFI_Transmit(&pkt, MRFI_TX_TYPE_CCA)
    | Idled                                             // MRFI_RxIdle()
    | Slept                                             // MRFI_Sleep()

  /** `mrfiPacket_t`: the payload length, the payload bytes and the source
   *  address of a frame. */
  class Packet {
    var payloadLen: byte
    var payload: seq<byte>
    var srcAddr: seq<byte>

    constructor ()
      ensures payloadLen == 0 && payload == [] && srcAddr == []
    {
      payloadLen, payload, srcAddr := 0, [], [];
    }
  }

  /** The radio, as the log of the calls made to it. */
  class MrfiRadio {
    var calls: seq<MrfiCall>

    constructor ()
      ensures calls == []
    {
      calls := [];
    }

    /** `MRFI_WakeUp`: the radio leaves sleep and idles. */
    method WakeUp()
      modifies this
      ensures calls == old(calls) + [Woke]
    {
      calls := calls + [Woke];
    }

    /** `MRFI_Transmit`: the payload and source address of `pkt` go on air. */
    method Transmit(pkt: Packet)
      modifies this
      ensures calls == old(calls) + [Transmitted(pkt.payload, pkt.srcAddr)]
    {
      calls := calls + [Transmitted(pkt.payload, pkt.srcAddr)];
    }

    /** `MRFI_RxIdle` */
    method RxIdle()
      modifies this
      ensures calls == old(calls) + [Idled]
    {
      calls := calls + [Idled];
    }

    /** `MRFI_Sleep` */
    method Sleep()
      modifies this
      ensures calls == old(calls) + [Slept]
    {
      calls := calls + [Slept];
    }
  }

  /** `buildPayload(pkt, msg, len)` with the device's own address: the
   *  payload is exactly the first `len` bytes of `msg` and the source is
   *  the `MRFI_ADDR_SIZE`-byte address of the sender. */
  method BuildPayload(pkt: Packet, msg: array<byte>, len: byte, myAddr: seq<byte>)
    requires len as nat <= msg.Length && |myAddr| == MrfiAddrSize
    modifies pkt
    ensures pkt.payloadLen == len && pkt.payload == msg[..len] && |pkt.payload| == len as nat
    ensures pkt.srcAddr == myAddr
  {
    pkt.payloadLen := len;
    pkt.payload := msg[..len];
    pkt.srcAddr := myAddr;
  }

  /** The source address `buildPayload` copies as written: `sMyAddr` is
   *  NULL and nothing sets it, so the four bytes come from data
   *  memory 0x0000-0x0003 (`lowMem`), the MSP430's interrupt enable and
   *  flag registers, whatever device sends. */
  function SourceAsWritten(lowMem: seq<byte>): (a: seq<byte>)
    requires |lowMem| >= MrfiAddrSize
    ensures |a| == MrfiAddrSize
  {
    lowMem[..MrfiAddrSize]
  }

  /** `buildPayload` as written: the payload is right, the source address
   *  is `SourceAsWritten(lowMem)`. */
  method BuildPayloadAsWritten(pkt: Packet, msg: array<byte>, len: byte, lowMem: seq<byte>)
    requires len as nat <= msg.Length && |lowMem| >= MrfiAddrSize
    modifies pkt
    ensures pkt.payloadLen == len && pkt.payload == msg[..len]
    ensures pkt.srcAddr == SourceAsWritten(lowMem)
  {
    pkt.payloadLen := len;
    pkt.payload := msg[..len];
    pkt.srcAddr := SourceAsWritten(lowMem);
  }

  /** An address the as-written source misses: `lowMem`'s first four bytes
   *  with the first one changed. */
  function MissedAddress(lowMem: seq<byte>): (myAddr: seq<byte>)
    requires |lowMem| >= MrfiAddrSize
    ensures |myAddr| == MrfiAddrSize && SourceAsWritten(lowMem) != myAddr
  {
    var a := [if lowMem[0] == 0 then 1 else 0] + lowMem[1..MrfiAddrSize];
    assert a[0] != SourceAsWritten(lowMem)[0];
    a
  }

  /** The two builders side by side on the same message: the payloads
   *  agree, but for the device address `myAddr` only the intended builder
   *  names the sender. */
  method BuildersDisagree(intended: Packet, asWritten: Packet, msg: array<byte>, len: byte, lowMem: seq<byte>)
    returns (myAddr: seq<byte>)
    requires intended != asWritten
    requires len as nat <= msg.Length && |lowMem| >= MrfiAddrSize
    modifies intended, asWritten
    ensures intended.payload == asWritten.payload == msg[..len]
    ensures intended.srcAddr == myAddr && asWritten.srcAddr != myAddr
  {
    myAddr := MissedAddress(lowMem);
    BuildPayload(intended, msg, len, myAddr);
    BuildPayloadAsWritten(asWritten, msg, len, lowMem);
  }
}
