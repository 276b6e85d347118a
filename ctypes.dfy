/** The MSP430 C types used by the demos: 8-bit bytes, 16-bit words and
 *  16-bit signed `int`, with the wrap-around and the truncating division of
 *  the C compilers written out explicitly. */
module CTypes {

  /** `uint8_t` / `unsigned char` */
  type byte = x: int | 0 <= x < 0x100
  /** `unsigned int` / `unsigned short` (16 bits on the MSP430) */
  type word = x: int | 0 <= x < 0x1_0000
  /** `int` (16 bits on the MSP430) */
  type int16 = x: int | -0x8000 <= x < 0x8000
  /** A 10-bit ADC10MEM conversion result */
  type adc10 = x: int | 0 <= x < 0x400

  /** C's `/` on a signed dividend and a positive divisor: the quotient is
   *  truncated toward zero, so the remainder has the sign of the dividend. */
  function DivTrunc(a: int, d: int): (q: int)
    requires d > 0
    ensures a >= 0 ==> q * d <= a < q * d + d
    ensures a < 0 ==> q * d - d < a <= q * d
    ensures (a >= 0) == (q >= 0) || q == 0
  {
    if a >= 0 then a / d else -((-a) / d)
  }

  /** Conversion of any integer to `uint8_t`; this is also `x & 0xFF` on a
   *  two's-complement value. */
  function U8(x: int): (r: byte)
    ensures (x - r) % 0x100 == 0
  {
    x % 0x100
  }

  /** Conversion of any integer to the 16-bit `int` (two's-complement wrap). */
  function S16(x: int): (r: int16)
    ensures (x - r) % 0x1_0000 == 0
    ensures -0x8000 <= x < 0x8000 ==> r == x
  {
    var m := x % 0x1_0000;
    if m >= 0x8000 then m - 0x1_0000 else m
  }

  /** `x & 0xFF`: the least significant byte. */
  function LowByte(x: int): (r: byte)
    ensures (x - r) % 0x100 == 0
  {
    x % 0x100
  }

  /** `(x >> 8) & 0xFF` with an arithmetic shift: the second byte. */
  function HighByte(x: int): byte
  {
    (x / 0x100) % 0x100
  }

  /** The number a little-endian byte pair denotes as an unsigned word. */
  function LE16(lo: byte, hi: byte): (w: word)
    ensures w % 0x100 == lo && w / 0x100 == hi
  {
    lo + 0x100 * hi
  }

  /** The two bytes of any integer, read back little-endian, give the integer
   *  modulo 2^16: the value itself for a word, and its two's-complement
   *  pattern for a negative 16-bit `int`. */
  lemma LE16OfBytes(x: int)
    ensures LE16(LowByte(x), HighByte(x)) == x % 0x1_0000
  {
    var q := x / 0x100;
    assert x == q * 0x100 + x % 0x100;
    var h := q % 0x100;
    assert q == (q / 0x100) * 0x100 + h;
    assert x == (q / 0x100) * 0x1_0000 + (h * 0x100 + x % 0x100);
    ModOfMultiple(x, q / 0x100, h * 0x100 + x % 0x100);
  }

  /** `x & 0xFF` and `(x >> 8) & 0x3` together hold the low 10 bits of `x`. */
  lemma Low10OfBytes(x: int)
    ensures LowByte(x) + 0x100 * (HighByte(x) % 4) == x % 0x400
  {
    var q, l := x / 0x100, x % 0x100;
    var h := q % 0x100;
    var a, c := q / 0x100, h % 4;
    assert q == a * 0x100 + h;
    assert h == (h / 4) * 4 + c;
    var k := a * 0x40 + h / 4;
    assert q == k * 4 + c;
    assert x == k * 0x400 + (c * 0x100 + l);
    Mod1024Of(x, k, c * 0x100 + l);
  }

  lemma Mod1024Of(x: int, k: int, r: int)
    requires 0 <= r < 0x400 && x == k * 0x400 + r
    ensures x % 0x400 == r
  {
  }

  lemma Mod256Of(x: int, q: int, r: int)
    requires 0 <= r < 0x100 && x == q * 0x100 + r
    ensures x % 0x100 == r
  {
  }

  /** `uint8_t` wrap-around absorbs an earlier wrap: reducing modulo 256
   *  before adding `d` changes nothing modulo 256. */
  lemma ModAdd(x: int, d: int)
    ensures (x % 0x100 + d) % 0x100 == (x + d) % 0x100
  {
    assert x == (x / 0x100) * 0x100 + x % 0x100;
  }

  lemma ModOfMultiple(x: int, k: int, r: int)
    requires 0 <= r < 0x1_0000 && x == k * 0x1_0000 + r
    ensures x % 0x1_0000 == r
  {
  }

  /** A signed 16-bit value survives the trip through its two bytes. */
  lemma S16RoundTrip(x: int16)
    ensures S16(LE16(LowByte(x), HighByte(x))) == x
  {
    LE16OfBytes(x);
  }

  /** A word survives the trip through its two bytes. */
  lemma WordRoundTrip(x: word)
    ensures LE16(LowByte(x), HighByte(x)) == x
  {
    LE16OfBytes(x);
  }

  /** Concatenation regroups; stated once so that trace proofs can name it. */
  lemma AppendAssoc<T>(a: seq<T>, b: seq<T>, c: seq<T>)
    ensures (a + b) + c == a + (b + c)
  {
  }

  /** Copy `src` into `dst` from index `at` on (`memcpy`). */
  method CopyInto(dst: array<byte>, at: nat, src: seq<byte>)
    requires at + |src| <= dst.Length
    modifies dst
    ensures dst[..] == old(dst[..at]) + src + old(dst[at + |src|..])
  {
    var j := 0;
    while j < |src|
      invariant j <= |src|
      invariant dst[..] == old(dst[..at]) + src[..j] + old(dst[at + j..])
    {
      dst[at + j] := src[j];
      j := j + 1;
    }
  }
}
