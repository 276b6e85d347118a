/** The CCS flashtest: fill the 16 KB sample buffer segment by segment with
 *  a known pattern, then read every byte back and report a mismatch. */
module FlashTest {
  import opened CTypes
  import opened SampleFlash

  /** The byte the write phase stores at buffer index k: `saveSample` gets
   *  the segment offset i, truncated to `unsigned char`. */
  function Pattern(k: nat): byte
  {
    k % 0x100
  }

  /** Byte i of segment `segno` is stored as `(unsigned char) i`, which is
   *  the pattern of its buffer index because a segment is two whole runs
   *  of 256; the verify phase's `i & 0xff` is the same value. */
  lemma PatternOfSegmentByte(segno: nat, i: nat)
    requires i < SegSize
    ensures Pattern(segno * SegSize + i) == U8(i) == i % 0x100
  {
    Mod256Of(segno * SegSize + i, segno * 2 + i / 0x100, i % 0x100);
  }

  /** The write phase: for each of the 32 segments (erase and flash
   *  unlocking not modelled), `saveSample(segno * SEG_SIZE + i, i)` for
   *  every i below `SEG_SIZE`. Afterwards every index holds its pattern. */
  method WritePhase(store: SampleStore)
    requires store.buf.Length == SampleBufferSize
    modifies store.buf
    ensures forall k :: 0 <= k < SampleBufferSize ==> store.buf[k] == Pattern(k)
  {
    var segno := 0;
    while segno < NumSegs
      invariant segno <= NumSegs
      invariant forall k :: 0 <= k < segno * SegSize ==> store.buf[k] == Pattern(k)
    {
      var i := 0;
      while i < SegSize
        invariant i <= SegSize
        invariant forall k :: 0 <= k < segno * SegSize + i ==> store.buf[k] == Pattern(k)
      {
        PatternOfSegmentByte(segno, i);
        store.SaveSample(segno * SegSize + i, U8(i));
        i := i + 1;
      }
      segno := segno + 1;
    }
  }

  /** What the verify phase knows after checking indices below `upto`:
   *  `error` is 0 exactly when every checked byte holds its pattern; when
   *  it is 1, (`seg`, `sbval`) locate the last mismatch so far and `isval`
   *  is the byte read there. */
  ghost predicate Checked(buf: seq<byte>, upto: nat, error: nat, seg: nat, sbval: nat, isval: nat)
    requires upto <= |buf|
  {
    && error <= 1
    && (error == 0 <==> forall k :: 0 <= k < upto ==> buf[k] == Pattern(k))
    && (error == 0 ==> seg == 0 && sbval == 0 && isval == 0)
    && (error == 1 ==> Mismatch(buf, upto, seg, sbval, isval))
  }

  /** (`seg`, `sbval`) is the last index below `upto` whose byte differs
   *  from its pattern, and `isval` the byte found there. */
  ghost predicate Mismatch(buf: seq<byte>, upto: nat, seg: nat, sbval: nat, isval: nat)
    requires upto <= |buf|
  {
    && sbval < SegSize
    && seg * SegSize + sbval < upto
    && buf[seg * SegSize + sbval] != Pattern(seg * SegSize + sbval)
    && isval == buf[seg * SegSize + sbval]
    && forall k :: seg * SegSize + sbval < k < upto ==> buf[k] == Pattern(k)
  }

  /** The inner loop of the verify phase over one segment. */
  method VerifySegment(store: SampleStore, segno: nat, error0: nat, seg0: nat, sbval0: nat, isval0: nat)
    returns (error: nat, seg: nat, sbval: nat, isval: nat)
    requires store.buf.Length == SampleBufferSize && segno < NumSegs
    requires Checked(store.buf[..], segno * SegSize, error0, seg0, sbval0, isval0)
    ensures Checked(store.buf[..], segno * SegSize + SegSize, error, seg, sbval, isval)
  {
    error, seg, sbval, isval := error0, seg0, sbval0, isval0;
    var i := 0;
    while i < SegSize
      invariant i <= SegSize
      invariant Checked(store.buf[..], segno * SegSize + i, error, seg, sbval, isval)
    {
      var k := segno * SegSize + i;
      var retval := store.ReadSample(k);
      PatternOfSegmentByte(segno, i);
      if retval != i % 0x100 {
        error := 1;
        seg := segno;
        sbval := i;
        isval := retval;
      }
      i := i + 1;
    }
  }

  /** The verify phase: every index is read and compared with `i & 0xff`;
   *  a mismatch sets `error` and records where and what. The buffer is
   *  only read. */
  method VerifyPhase(store: SampleStore) returns (error: nat, seg: nat, sbval: nat, isval: nat)
    requires store.buf.Length == SampleBufferSize
    ensures error == 0 <==> forall k :: 0 <= k < SampleBufferSize ==> store.buf[k] == Pattern(k)
    ensures error == 0 ==> seg == 0 && sbval == 0 && isval == 0
    ensures error == 1 ==> seg < NumSegs && sbval < SegSize
    ensures error == 1 ==> store.buf[seg * SegSize + sbval] != Pattern(seg * SegSize + sbval)
    ensures error == 1 ==> isval == store.buf[seg * SegSize + sbval]
    ensures error == 1 ==> forall k :: seg * SegSize + sbval < k < SampleBufferSize ==> store.buf[k] == Pattern(k)
    ensures error <= 1
  {
    error, seg, sbval, isval := 0, 0, 0, 0;
    var segno := 0;
    while segno < NumSegs
      invariant segno <= NumSegs
      invariant Checked(store.buf[..], segno * SegSize, error, seg, sbval, isval)
    {
      error, seg, sbval, isval := VerifySegment(store, segno, error, seg, sbval, isval);
      segno := segno + 1;
    }
  }

  /** `flashtest()`: after the write phase the verify phase finds no
   *  error. */
  method FlashTest(store: SampleStore) returns (error: nat, seg: nat, sbval: nat, isval: nat)
    requires store.buf.Length == SampleBufferSize
    modifies store.buf
    ensures error == 0 && seg == 0 && sbval == 0 && isval == 0
    ensures forall k :: 0 <= k < SampleBufferSize ==> store.buf[k] == Pattern(k)
  {
    WritePhase(store);
    error, seg, sbval, isval := VerifyPhase(store);
  }
}
