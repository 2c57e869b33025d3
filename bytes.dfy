/**
 * The integer widths of the firmware (ESP32, 32-bit int, 64-bit uint64_t) and
 * its little-endian byte serialisation by shift and mask.
 */
module Bytes {

  type byte = x: int | 0 <= x < 256

  const TWO_TO_32: int := 0x1_0000_0000
  const TWO_TO_64: int := 0x1_0000_0000_0000_0000

  /** C's `int` on the ESP32. */
  type int32 = x: int | -0x8000_0000 <= x < 0x8000_0000

  /** `unsigned long` on the ESP32 (millis()). */
  type uint32 = x: int | 0 <= x < 0x1_0000_0000

  /** `uint64_t`. */
  type uint64 = x: int | 0 <= x < 0x1_0000_0000_0000_0000

  /**
   * `(byte)((x >> (8 * k)) & 0xff)` for a signed x: the arithmetic right shift
   * is floor division by 2^(8k) (Dafny's `/` with a positive divisor), and
   * masking the two's complement value with 0xff is the non-negative
   * remainder modulo 256 (Dafny's `%`).
   */
  function ShiftMask(x: int, k: nat): byte
    requires k < 4
  {
    if k == 0 then x % 0x100
    else if k == 1 then (x / 0x100) % 0x100
    else if k == 2 then (x / 0x1_0000) % 0x100
    else (x / 0x100_0000) % 0x100
  }

  /** The four bytes the firmware writes for a 32-bit field, least significant first. */
  function LittleEndian32(x: int): (r: seq<byte>)
    ensures |r| == 4
  {
    [ShiftMask(x, 0), ShiftMask(x, 1), ShiftMask(x, 2), ShiftMask(x, 3)]
  }

  /** The unsigned value of a little-endian byte field of any width. */
  function DecodeLE(s: seq<byte>): nat {
    if s == [] then 0 else s[0] + 0x100 * DecodeLE(s[1..])
  }

  /** The value of the two-byte little-endian field at offset i. */
  lemma DecodeAt2(s: seq<byte>, i: nat)
    requires i + 2 <= |s|
    ensures DecodeLE(s[i..i + 2]) == s[i] as int + 0x100 * (s[i + 1] as int)
  {
    var f := s[i..i + 2];
    assert f[1..][1..] == [];
    assert DecodeLE(f[1..]) == f[1] + 0x100 * DecodeLE(f[1..][1..]);
  }

  /** The value of the four-byte little-endian field at offset i. */
  lemma DecodeAt4(s: seq<byte>, i: nat)
    requires i + 4 <= |s|
    ensures DecodeLE(s[i..i + 4]) == s[i] as int + 0x100 * (s[i + 1] as int) + 0x1_0000 * (s[i + 2] as int) + 0x100_0000 * (s[i + 3] as int)
  {
    var f := s[i..i + 4];
    assert f[1..] == s[i + 1..i + 3] + [s[i + 3]];
    assert f[1..][1..] == s[i + 2..i + 4];
    DecodeAt2(s, i + 2);
  }

  /** Euclidean division is unique: the two facts the shift proofs rest on. */
  lemma DivMod(x: int, d: int, q: int, r: int)
    requires d > 0 && x == d * q + r && 0 <= r < d
    ensures x / d == q && x % d == r
  {
    var q', r' := x / d, x % d;
    assert x == d * q' + r' && 0 <= r' < d;
    if q' < q {
      MulMonotone(d, q' + 1, q);
    } else if q < q' {
      MulMonotone(d, q + 1, q');
    }
  }

  lemma {:induction false} MulMonotone(d: nat, a: int, b: int)
    requires a <= b
    ensures d * a <= d * b
    decreases b - a
  {
    if a < b {
      MulMonotone(d, a + 1, b);
      assert d * (a + 1) == d * a + d;
    }
  }

  /** Shifting, masking and re-assembling a field gives back its low 32 bits. */
  lemma LittleEndian32RoundTrip(x: int)
    ensures DecodeLE(LittleEndian32(x)) == x % TWO_TO_32
  {
    var q1, b0 := x / 0x100, x % 0x100;
    var q2, b1 := q1 / 0x100, q1 % 0x100;
    var q3, b2 := q2 / 0x100, q2 % 0x100;
    var q4, b3 := q3 / 0x100, q3 % 0x100;
    DivMod(x, 0x1_0000, q2, 0x100 * b1 + b0);
    DivMod(x, 0x100_0000, q3, 0x1_0000 * b2 + 0x100 * b1 + b0);
    var low := 0x100_0000 * b3 + 0x1_0000 * b2 + 0x100 * b1 + b0;
    DivMod(x, TWO_TO_32, q4, low);
    var r := LittleEndian32(x);
    assert r == [b0, b1, b2, b3];
    assert r[1..][1..][1..][1..] == [];
    assert DecodeLE(r[1..][1..][1..]) == b3;
    assert DecodeLE(r[1..][1..]) == b2 + 0x100 * b3;
    assert DecodeLE(r[1..]) == b1 + 0x100 * b2 + 0x1_0000 * b3;
  }

  /** Only the low 32 bits of a value reach its bytes: wrapped and exact arithmetic agree. */
  lemma LittleEndian32Wraps(x: int, y: int)
    requires x % TWO_TO_32 == y % TWO_TO_32
    ensures LittleEndian32(x) == LittleEndian32(y)
  {
    forall k | 0 <= k < 4
      ensures ShiftMask(x, k) == ShiftMask(y, k)
    {
      ShiftMaskLow(x, k);
      ShiftMaskLow(y, k);
    }
  }

  /** Each byte of a field is the same byte of the field's low 32 bits. */
  lemma ShiftMaskLow(x: int, k: nat)
    requires k < 4
    ensures ShiftMask(x, k) == ShiftMask(x % TWO_TO_32, k)
  {
    var q, low := x / TWO_TO_32, x % TWO_TO_32;
    if k == 0 {
      DivMod(x, 0x100, 0x100_0000 * q + low / 0x100, low % 0x100);
    } else if k == 1 {
      var l := low / 0x100;
      DivMod(x, 0x100, 0x100_0000 * q + l, low % 0x100);
      DivMod(0x100_0000 * q + l, 0x100, 0x1_0000 * q + l / 0x100, l % 0x100);
    } else if k == 2 {
      var l := low / 0x1_0000;
      DivMod(x, 0x1_0000, 0x1_0000 * q + l, low % 0x1_0000);
      DivMod(0x1_0000 * q + l, 0x100, 0x100 * q + l / 0x100, l % 0x100);
    } else {
      var l := low / 0x100_0000;
      DivMod(x, 0x100_0000, 0x100 * q + l, low % 0x100_0000);
      DivMod(0x100 * q + l, 0x100, q + l / 0x100, l % 0x100);
    }
  }

  /** C's conversion of an integer to the 32-bit `int` parameter: keep the low 32 bits, two's complement. */
  function ToInt32(x: int): (r: int32)
    ensures r % TWO_TO_32 == x % TWO_TO_32
  {
    var low := x % TWO_TO_32;
    if low < 0x8000_0000 then low else low - TWO_TO_32
  }
}
