/** The 16 KB sample buffer in the MSP430's main flash shared by the mag
 *  and flashtest projects: 32 segments of 512 bytes from address 0x8000,
 *  written and read one byte at a time. */
module SampleFlash {
  import opened CTypes

  /** `ROOT_ADDR` */
  const RootAddr: nat := 0x8000
  /** `SEG_SIZE` */
  const SegSize: nat := 512
  /** `NUM_SEGS` */
  const NumSegs: nat := 32
  /** `SAMPLE_BUFFER_SIZE`, the declared length of `samplebuf` */
  const SampleBufferSize: nat := 16384

  /** The buffer holds exactly the 32 segments. */
  lemma BufferIsAllSegments()
    ensures NumSegs * SegSize == SampleBufferSize
  {
  }

  /** `segAddress(segindx)`: `ROOT_ADDR + segindx * SEG_SIZE` computed in
   *  16-bit `unsigned int`, so it wraps modulo 2^16 before being widened. */
  function SegAddress(s: word): (a: word)
    ensures s < NumSegs ==> a == RootAddr + s * SegSize
  {
    (RootAddr + (s * SegSize) % 0x1_0000) % 0x1_0000
  }

  /** The 32 buffer segments lie inside [0x8000, 0xC000), one after the
   *  other, 512 bytes apart and without overlap. */
  lemma SegmentsLayout(s1: word, s2: word)
    requires s1 < s2 < NumSegs
    ensures RootAddr <= SegAddress(s1) && SegAddress(s2) + SegSize <= RootAddr + SampleBufferSize
    ensures SegAddress(s1) + SegSize <= SegAddress(s2)
    ensures SegAddress(s2) - SegAddress(s1) == (s2 - s1) * SegSize
  {
  }

  /** Past the buffer the computation wraps: segment index 128 names the
   *  same address as segment 0. */
  lemma SegAddressWraps(s: word)
    requires s + 128 < 0x1_0000
    ensures SegAddress(s + 128) == SegAddress(s)
  {
    var x := s * SegSize;
    var q, m := x / 0x1_0000, x % 0x1_0000;
    assert x == q * 0x1_0000 + m;
    assert (s + 128) * SegSize == x + 0x1_0000;
    ModOfMultiple((s + 128) * SegSize, q + 1, m);
  }

  /** Byte i of segment `segno` is buffer index `segno * SEG_SIZE + i`, and
   *  every buffer index is exactly one such byte. */
  lemma SampleIndexBijective(segno: nat, i: nat, k: nat)
    requires segno < NumSegs && i < SegSize
    ensures segno * SegSize + i < SampleBufferSize
    ensures k < SampleBufferSize ==> k / SegSize < NumSegs && k == (k / SegSize) * SegSize + k % SegSize
    ensures (segno * SegSize + i) / SegSize == segno && (segno * SegSize + i) % SegSize == i
  {
  }

  /** `samplebuf` and the two accessors around it. */
  class SampleStore {
    const buf: array<byte>

    constructor ()
      ensures buf.Length == SampleBufferSize && fresh(buf)
    {
      buf := new byte[SampleBufferSize];
    }

    /** `saveSample(flashindx, value)`: one byte changes. */
    method SaveSample(k: nat, v: byte)
      requires k < buf.Length
      modifies buf
      ensures buf[..] == old(buf[..])[k := v]
    {
      buf[k] := v;
    }

    /** `readSample(flashindx)` */
    method ReadSample(k: nat) returns (v: byte)
      requires k < buf.Length
      ensures v == buf[k]
    {
      v := buf[k];
    }
  }

  /** Reading back a saved sample gives the value saved, and every other
   *  index keeps its value. */
  method SaveThenRead(store: SampleStore, k: nat, v: byte, other: nat) returns (r: byte, o: byte)
    requires k < store.buf.Length && other < store.buf.Length
    modifies store.buf
    ensures r == v
    ensures other != k ==> o == old(store.buf[other])
  {
    store.SaveSample(k, v);
    r := store.ReadSample(k);
    o := store.ReadSample(other);
  }
}
