/** Sensor-count conversions shared by the end devices and the access point:
 *  the internal temperature diode in tenths of a degree Celsius, corrected by
 *  the factory offset word, and the supply voltage in tenths of a volt. */
module Conversion {
  import opened CTypes

  /** The word the production flow leaves at 0x10F4 when no offset was
   *  calibrated (erased flash). */
  const ErasedWord: word := 0xFFFF

  /** `((resval - 673) * 4230) / 1024` computed in 32-bit `long` with C
   *  truncation; for a 10-bit reading the product stays far inside 32 bits
   *  and the quotient inside the 16-bit `int` it is assigned to. */
  function TempTenths(r: adc10): (t: int)
    ensures -2780 <= t <= 1445
    ensures r >= 673 ==> t * 1024 <= (r - 673) * 4230 < t * 1024 + 1024
    ensures r < 673 ==> t * 1024 - 1024 < (r - 673) * 4230 <= t * 1024
  {
    DivTrunc((r - 673) * 4230, 1024)
  }

  /** A warmer diode never reads as a colder temperature. */
  lemma TempMonotone(r1: adc10, r2: adc10)
    requires r1 <= r2
    ensures TempTenths(r1) <= TempTenths(r2)
  {
  }

  /** The temperature the demos transmit: the raw conversion, plus the 16-bit
   *  factory offset unless the offset word is the erased pattern 0xFFFF (the
   *  signed `*tempOffset` is compared with the unsigned constant 0xFFFF, so
   *  an offset of -1 reads as "no offset"). The sum wraps like the 16-bit
   *  `int` it is held in. */
  function DegC(r: adc10, offsetWord: word): (d: int16)
    ensures offsetWord == ErasedWord ==> d == TempTenths(r)
    ensures offsetWord != ErasedWord ==> (TempTenths(r) + S16(offsetWord) - d) % 0x1_0000 == 0
    ensures offsetWord != ErasedWord && -0x8000 <= TempTenths(r) + S16(offsetWord) < 0x8000
            ==> d == TempTenths(r) + S16(offsetWord)
  {
    if offsetWord == ErasedWord then TempTenths(r) else S16(TempTenths(r) + S16(offsetWord))
  }

  /** A calibrated offset of -1 (stored as 0xFFFF) is indistinguishable from
   *  an erased offset word: it is never applied. */
  lemma MinusOneOffsetIgnored(r: adc10)
    ensures S16(ErasedWord) == -1
    ensures DegC(r, ErasedWord) == TempTenths(r)
    ensures DegC(r, ErasedWord) != TempTenths(r) + S16(ErasedWord)
  {
  }

  /** Any offset whose sum with the reading fits 16 bits is applied exactly;
   *  in particular every offset between -1400 and 1400 tenths on any 10-bit
   *  reading. */
  lemma SmallOffsetExact(r: adc10, offsetWord: word)
    requires offsetWord != ErasedWord
    requires -1400 <= S16(offsetWord) <= 1400
    ensures DegC(r, offsetWord) == TempTenths(r) + S16(offsetWord)
    ensures -4180 <= DegC(r, offsetWord) <= 2845
  {
  }

  /** `(temp * 25) / 512`: the supply voltage (AVcc/2 against the 2.5 V
   *  reference) in tenths of a volt, truncated. */
  function VoltTenths(r: adc10): (v: int)
    ensures 0 <= v <= 49
    ensures v * 512 <= r * 25 < v * 512 + 512
  {
    DivTrunc(r * 25, 512)
  }

  /** A higher reading never gives a lower voltage. */
  lemma VoltMonotone(r1: adc10, r2: adc10)
    requires r1 <= r2
    ensures VoltTenths(r1) <= VoltTenths(r2)
  {
  }
}
