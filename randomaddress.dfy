/** `createRandomAddress` of the wsm and wsm_cables_broken end devices: draw
 *  16-bit words from the VLO until one has an acceptable high byte, draw a
 *  second, and write both big-endian into the four address bytes in
 *  information flash. */
module RandomAddress {
  import opened CTypes

  /** `rand & 0xFF00` */
  function HighMask(rand: word): (m: word)
    ensures m % 0x100 == 0 && m <= rand < m + 0x100
  {
    rand - rand % 0x100
  }

  /** The loop condition: the masked word is 0xFF00 or 0x0000. */
  predicate Rejected(rand: word)
  {
    HighMask(rand) == 0xFF00 || HighMask(rand) == 0x0000
  }

  /** A word is rejected exactly when its high byte, the first address byte,
   *  is 0x00 or 0xFF. */
  lemma RejectedIffHighByte(rand: word)
    ensures Rejected(rand) <==> HighByte(rand) == 0x00 || HighByte(rand) == 0xFF
  {
    assert HighMask(rand) == 0x100 * HighByte(rand);
  }

  /** The four bytes written to `Flash_Addr[0..3]`. */
  function AddressBytes(rand: word, rand2: word): (a: seq<byte>)
    ensures |a| == 4
  {
    [HighByte(rand), LowByte(rand), HighByte(rand2), LowByte(rand2)]
  }

  /** The address holds both words big-endian, and its first byte is
   *  neither 0x00 nor 0xFF once the first word was accepted. */
  lemma AddressBytesRoundTrip(rand: word, rand2: word)
    ensures var a := AddressBytes(rand, rand2);
      && LE16(a[1], a[0]) == rand && LE16(a[3], a[2]) == rand2
      && (!Rejected(rand) ==> a[0] != 0x00 && a[0] != 0xFF)
  {
    WordRoundTrip(rand);
    WordRoundTrip(rand2);
    RejectedIffHighByte(rand);
  }

  /** `createRandomAddress`. The k-th call of `TI_getRandomIntegerFromVLO`
   *  returns `vlo(k)`; the loop only ends if some draw is acceptable, which
   *  `bound` witnesses. Returns how many words were drawn; the last two are
   *  the ones written. */
  method CreateRandomAddress(flashAddr: array<byte>, vlo: nat -> word, ghost bound: nat) returns (draws: nat)
    requires flashAddr.Length == 4
    requires !Rejected(vlo(bound))
    modifies flashAddr
    ensures 2 <= draws <= bound + 2
    ensures forall k :: 0 <= k < draws - 2 ==> Rejected(vlo(k))
    ensures !Rejected(vlo(draws - 2))
    ensures flashAddr[..] == AddressBytes(vlo(draws - 2), vlo(draws - 1))
  {
    var rand := vlo(0);
    draws := 1;
    while Rejected(rand)
      invariant 1 <= draws <= bound + 1 && rand == vlo(draws - 1)
      invariant forall k :: 0 <= k < draws - 1 ==> Rejected(vlo(k))
      decreases bound + 1 - draws
    {
      rand := vlo(draws);
      draws := draws + 1;
    }
    var rand2 := vlo(draws);
    draws := draws + 1;
    flashAddr[0] := HighByte(rand);
    flashAddr[1] := LowByte(rand);
    flashAddr[2] := HighByte(rand2);
    flashAddr[3] := LowByte(rand2);
  }
}
