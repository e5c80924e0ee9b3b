/**
 *  CRC-32 (IEEE 802.3, clause 3.2.9), bit-by-bit variant.
 *
 *  The register is reflected: the polynomial 0x04C11DB7 appears bit-reversed
 *  as 0xEDB88320, bytes enter at the low end and the register shifts right.
 *  The register starts at all ones and the result is the final register
 *  complemented.
 *
 *  `ShiftStep` is one pass of the inner `j` loop, `ByteShift` is the whole
 *  inner loop, `BitwiseUpdate` is one pass of the outer `i` loop and
 *  `BitwiseRegister` is the outer loop as a left fold over the buffer.
 */

module Crc32 {
  import opened Bytes

  const Initial: bv32 := 0xFFFF_FFFF
  const Polynom: bv32 := 0xEDB8_8320
  /** The register value left by any message followed by its own CRC. */
  const Remainder: bv32 := 0x2144_DF1C
  /** The length parameter is an `unsigned short`. */
  const MaxLength: nat := 0xFFFF

  /** One shift of the register, XOR-ing in the polynomial when a one falls out. */
  function ShiftStep(crc: bv32): bv32
  {
    if crc & 1 == 1 then (crc >> 1) ^ Polynom else crc >> 1
  }

  /** `n` shifts of the register, the first `n` passes of the inner loop. */
  function ShiftSteps(crc: bv32, n: nat): bv32
  {
    if n == 0 then crc else ShiftStep(ShiftSteps(crc, n - 1))
  }

  /** The complete inner loop: eight shifts. */
  function ByteShift(crc: bv32): bv32
  {
    ShiftStep(ShiftStep(ShiftStep(ShiftStep(ShiftStep(ShiftStep(ShiftStep(ShiftStep(crc))))))))
  }

  /** One pass of the outer loop: XOR the byte in, then shift eight times. */
  function BitwiseUpdate(crc: bv32, b: byte): bv32
  {
    ByteShift(crc ^ b as bv32)
  }

  /** The register after feeding `data`, starting from `crc`. */
  function BitwiseRegister(crc: bv32, data: seq<byte>): bv32
    decreases |data|
  {
    if |data| == 0 then crc else BitwiseRegister(BitwiseUpdate(crc, data[0]), data[1..])
  }

  /** The bit-by-bit `piCrc32` over a whole buffer. */
  function Crc32Bitwise(data: seq<byte>): bv32
    requires |data| <= MaxLength
  {
    BitwiseRegister(Initial, data) ^ Initial
  }

  /** A shift loses no information: the top bit of the result records the bit shifted out. */
  lemma ShiftStepInjective(a: bv32, b: bv32)
    ensures ShiftStep(a) == ShiftStep(b) ==> a == b
  {
  }

  /** Any number of shifts loses no information either; in particular neither does `ByteShift`. */
  lemma {:induction false} ShiftStepsInjective(a: bv32, b: bv32, n: nat)
    ensures ShiftSteps(a, n) == ShiftSteps(b, n) ==> a == b
  {
    if n > 0 {
      ShiftStepInjective(ShiftSteps(a, n - 1), ShiftSteps(b, n - 1));
      ShiftStepsInjective(a, b, n - 1);
    }
  }

  /** Eight passes of the inner loop are the inner loop. */
  lemma ShiftStepsEight(crc: bv32)
    ensures ShiftSteps(crc, 8) == ByteShift(crc)
  {
    assert ShiftSteps(crc, 1) == ShiftStep(crc);
    assert ShiftSteps(crc, 2) == ShiftStep(ShiftStep(crc));
    assert ShiftSteps(crc, 3) == ShiftStep(ShiftStep(ShiftStep(crc)));
    assert ShiftSteps(crc, 4) == ShiftStep(ShiftStep(ShiftStep(ShiftStep(crc))));
    assert ShiftSteps(crc, 5) == ShiftStep(ShiftStep(ShiftStep(ShiftStep(ShiftStep(crc)))));
    assert ShiftSteps(crc, 6) == ShiftStep(ShiftStep(ShiftStep(ShiftStep(ShiftStep(ShiftStep(crc))))));
    assert ShiftSteps(crc, 7) == ShiftStep(ShiftStep(ShiftStep(ShiftStep(ShiftStep(ShiftStep(ShiftStep(crc)))))));
  }

  lemma ByteShiftInjective(a: bv32, b: bv32)
    ensures ByteShift(a) == ByteShift(b) ==> a == b
  {
    ShiftStepsEight(a);
    ShiftStepsEight(b);
    ShiftStepsInjective(a, b, 8);
  }

  /** Feeding `a` then `b` is feeding `a + b`: the fold can be resumed. */
  lemma {:induction false} BitwiseRegisterAppend(crc: bv32, a: seq<byte>, b: seq<byte>)
    ensures BitwiseRegister(crc, a + b) == BitwiseRegister(BitwiseRegister(crc, a), b)
    decreases |a|
  {
    if |a| == 0 {
      assert a + b == b;
    } else {
      assert (a + b)[1..] == a[1..] + b;
      BitwiseRegisterAppend(BitwiseUpdate(crc, a[0]), a[1..], b);
    }
  }

  /** Feeding one more byte is one more pass of the outer loop. */
  lemma BitwiseRegisterSnoc(crc: bv32, data: seq<byte>, b: byte)
    ensures BitwiseRegister(crc, data + [b]) == BitwiseUpdate(BitwiseRegister(crc, data), b)
  {
    BitwiseRegisterAppend(crc, data, [b]);
    assert BitwiseRegister(BitwiseRegister(crc, data), [b]) == BitwiseRegister(BitwiseUpdate(BitwiseRegister(crc, data), b), []);
  }

  /** The register over an empty buffer is untouched, so the CRC of nothing is zero. */
  lemma Crc32BitwiseEmpty()
    ensures Crc32Bitwise([]) == 0
  {
  }

  /** One pass of the outer loop of the bit-by-bit `piCrc32`: XOR the byte in, then eight conditional shifts. */
  method UpdateBitwise(crc: bv32, b: byte) returns (reg: bv32)
    ensures reg == BitwiseUpdate(crc, b)
  {
    ShiftStepsEight(crc ^ b as bv32);
    var x := crc ^ b as bv32;
    reg := x;
    var j := 0;
    while j < 8
      invariant 0 <= j <= 8
      invariant reg == ShiftSteps(x, j)
    {
      if reg & 1 == 1 {
        reg := (reg >> 1) ^ Polynom;
      } else {
        reg := reg >> 1;
      }
      j := j + 1;
    }
  }

  /** The bit-by-bit `piCrc32` as written: a loop over the first `len` bytes of `buff`. */
  method ComputeBitwise(buff: seq<byte>, len: nat) returns (crc: bv32)
    requires len <= |buff| && len <= MaxLength
    ensures crc == Crc32Bitwise(buff[..len])
  {
    var reg := Initial;
    var i := 0;
    assert buff[..0] == [];
    while i < len
      invariant 0 <= i <= len
      invariant reg == BitwiseRegister(Initial, buff[..i])
    {
      BitwiseRegisterSnoc(Initial, buff[..i], buff[i]);
      assert buff[..i + 1] == buff[..i] + [buff[i]];
      reg := UpdateBitwise(reg, buff[i]);
      i := i + 1;
    }
    crc := reg ^ Initial;
  }
}
