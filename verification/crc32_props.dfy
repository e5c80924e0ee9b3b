/**
 *  Properties of `piCrc32` that the packet check relies on.
 *
 *  - the standard check value: the CRC of the ASCII digits "123456789";
 *  - the residue `CRC32_REMINDER`: a message followed by its own CRC, least
 *    significant byte first, has the CRC 0x2144DF1C whatever the message;
 *  - error detection: changing one byte of a message always changes its CRC.
 */

module Crc32Properties {
  import opened Bytes
  import opened Crc32
  import opened Crc32Lookup

  /** The ASCII digits "123456789", the customary test message for a CRC. */
  const CheckMessage: seq<byte> := [0x31, 0x32, 0x33, 0x34, 0x35, 0x36, 0x37, 0x38, 0x39]
  /** Its CRC-32, as published with the IEEE 802.3 polynomial. */
  const CheckValue: bv32 := 0xCBF4_3926

  /** The register left by a message followed by its own CRC, before the final complement. */
  const ResidueRegister: bv32 := 0xDEBB_20E3

  lemma CheckValueHolds()
    ensures Crc32Bitwise(CheckMessage) == CheckValue
    ensures Crc32Table(CheckMessage) == CheckValue
  {
    Crc32VariantsAgree(CheckMessage);
  }

  // ---------------------------------------------------------------------------
  // The residue
  //
  // Append the CRC `r ^ Initial` of a message to the register `r` it left.
  // Byte `j` of the appended CRC is the complement of byte `j` of `r`, so at
  // every step the byte XOR-ed in cancels what is left of `r` in the low byte
  // and the table index no longer depends on `r`. The register is always a
  // known part `c` XOR-ed with what is left of `r`; after four steps nothing
  // of `r` is left and the register is a constant.
  // ---------------------------------------------------------------------------

  /** The complement of the low `n` bytes of `u`, least significant byte first. */
  function ComplementOf(u: bv32, n: nat): (s: seq<byte>)
    ensures |s| == n
  {
    if n == 0 then [] else [LowByte(u) ^ 0xFF] + ComplementOf(u >> 8, n - 1)
  }

  /** `u` fits in its low `n` bytes. */
  predicate Fits(u: bv32, n: nat)
  {
    if n == 0 then u == 0 else Fits(u >> 8, n - 1)
  }

  /** The known part after `n` more steps of complement bytes, starting from the known part `c`. */
  function Settled(table: seq<bv32>, c: bv32, n: nat): bv32
    requires |table| == 256
    decreases n
  {
    if n == 0 then c else Settled(table, table[((c & 0xFF) ^ 0xFF) as int] ^ (c >> 8), n - 1)
  }

  /** XOR-ing in the complement of the low byte of `u` fixes the table index, whatever `u` is. */
  lemma ComplementStepIndex(c: bv32, u: bv32, b: byte)
    requires b as bv32 == (u & 0xFF) ^ 0xFF
    ensures ((c ^ u) ^ b as bv32) & 0xFF == (c & 0xFF) ^ 0xFF
    ensures ((c ^ u) ^ b as bv32) >> 8 == (c >> 8) ^ (u >> 8)
  {
  }

  /**
   * One step of complement bytes: a register made of a known part `c` and an
   * unknown part `u`, fed the complement of the low byte of `u`, keeps that
   * shape, with the unknown part shifted right by eight.
   */
  lemma ComplementStep(table: seq<bv32>, c: bv32, u: bv32, b: byte, k: int, entry: bv32)
    requires |table| == 256 && 0 <= k < 256 && table[k] == entry
    requires ((c & 0xFF) ^ 0xFF) as int == k
    requires b as bv32 == (u & 0xFF) ^ 0xFF
    ensures TableUpdate(table, c ^ u, b) == (entry ^ (c >> 8)) ^ (u >> 8)
  {
    ComplementStepIndex(c, u, b);
  }

  lemma ComplementLowByte(u: bv32, b: byte)
    requires b == LowByte(u) ^ 0xFF
    ensures b as bv32 == (u & 0xFF) ^ 0xFF
  {
  }

  /**
   * Feeding the complement of `u` to a register `c ^ u` leaves a value that
   * does not depend on `u`: the unknown part is cancelled byte by byte.
   */
  lemma {:induction false} ComplementSettles(table: seq<bv32>, c: bv32, u: bv32, n: nat)
    requires |table| == 256 && Fits(u, n)
    ensures TableRegister(table, c ^ u, ComplementOf(u, n)) == Settled(table, c, n)
    decreases n
  {
    if n == 0 {
      assert c ^ u == c;
    } else {
      var s := ComplementOf(u, n);
      var next := table[((c & 0xFF) ^ 0xFF) as int] ^ (c >> 8);
      ComplementLowByte(u, s[0]);
      ComplementStep(table, c, u, s[0], ((c & 0xFF) ^ 0xFF) as int, table[((c & 0xFF) ^ 0xFF) as int]);
      ComplementSettles(table, next, u >> 8, n - 1);
      assert s[1..] == ComplementOf(u >> 8, n - 1);
    }
  }

  lemma ComplementLe32Bytes(r: bv32)
    ensures LowByte(r ^ Initial) == LowByte(r) ^ 0xFF
    ensures LowByte((r ^ Initial) >> 8) == LowByte(r >> 8) ^ 0xFF
    ensures LowByte((r ^ Initial) >> 16) == LowByte((r >> 8) >> 8) ^ 0xFF
    ensures ((r ^ Initial) >> 24) as byte == LowByte(((r >> 8) >> 8) >> 8) ^ 0xFF
  {
  }

  lemma ComplementOfCons(u: bv32, n: nat)
    ensures ComplementOf(u, n + 1) == [LowByte(u) ^ 0xFF] + ComplementOf(u >> 8, n)
  {
  }

  lemma Four<T>(a: T, b: T, c: T, d: T, s: seq<T>, t: seq<T>, w: seq<T>, x: seq<T>)
    requires s == [a] + t && t == [b] + w && w == [c] + x && x == [d] + []
    ensures s == [a, b, c, d]
  {
  }

  lemma ComplementOfFourUnfolded(r: bv32)
    ensures ComplementOf(r, 4) == [LowByte(r) ^ 0xFF, LowByte(r >> 8) ^ 0xFF, LowByte((r >> 8) >> 8) ^ 0xFF, LowByte(((r >> 8) >> 8) >> 8) ^ 0xFF]
  {
    var r1, r2, r3 := r >> 8, (r >> 8) >> 8, ((r >> 8) >> 8) >> 8;
    ComplementOfCons(r, 3);
    ComplementOfCons(r1, 2);
    ComplementOfCons(r2, 1);
    ComplementOfCons(r3, 0);
    Four(LowByte(r) ^ 0xFF, LowByte(r1) ^ 0xFF, LowByte(r2) ^ 0xFF, LowByte(r3) ^ 0xFF,
      ComplementOf(r, 4), ComplementOf(r1, 3), ComplementOf(r2, 2), ComplementOf(r3, 1));
  }

  /** The CRC appended least significant byte first is the complement of the register's four bytes. */
  lemma ComplementOfFour(r: bv32)
    ensures Le32(r ^ Initial) == ComplementOf(r, 4)
  {
    ComplementLe32Bytes(r);
    ComplementOfFourUnfolded(r);
  }

  lemma FitsFour(r: bv32)
    ensures Fits(r, 4)
  {
    assert (((r >> 8) >> 8) >> 8) >> 8 == 0;
    assert Fits((((r >> 8) >> 8) >> 8) >> 8, 0);
    assert Fits(((r >> 8) >> 8) >> 8, 1);
    assert Fits((r >> 8) >> 8, 2);
    assert Fits(r >> 8, 3);
  }

  /** The four table entries the residue computation visits, whatever the message. */
  lemma ResidueEntries()
    ensures CrcTable()[0xFF] == 0x2D02_EF8D && CrcTable()[0x72] == 0xBE0B_1010
    ensures CrcTable()[0x00] == 0 && CrcTable()[0xED] == 0xDEBB_9EC5
  {
    assert CrcTable()[0xFF] == TableRows[15][15];
    assert CrcTable()[0x72] == TableRows[7][2];
    assert CrcTable()[0x00] == TableRows[0][0];
    assert CrcTable()[0xED] == TableRows[14][13];
  }

  /** Starting from a zero known part, four steps through the CRC table settle on the residue register. */
  lemma SettledResidue()
    ensures Settled(CrcTable(), 0, 4) == ResidueRegister
  {
    ResidueEntries();
  }

  /** Feeding any register its own complement, least significant byte first, leaves the same constant. */
  lemma ResidueOfRegister(r: bv32)
    ensures BitwiseRegister(r, Le32(r ^ Initial)) == ResidueRegister
  {
    CrcTableShiftsByLookup();
    RegistersAgree(CrcTable(), r, Le32(r ^ Initial));
    ComplementOfFour(r);
    FitsFour(r);
    assert 0 ^ r == r;
    ComplementSettles(CrcTable(), 0, r, 4);
    SettledResidue();
  }

  /** `CRC32_REMINDER`: appending a message's own CRC, least significant byte first, gives a fixed CRC. */
  lemma Residue(data: seq<byte>)
    requires |data| + 4 <= MaxLength
    ensures Crc32Bitwise(data + Le32(Crc32Bitwise(data))) == Remainder
  {
    var r := BitwiseRegister(Initial, data);
    BitwiseRegisterAppend(Initial, data, Le32(r ^ Initial));
    ResidueOfRegister(r);
  }

  // ---------------------------------------------------------------------------
  // Error detection
  // ---------------------------------------------------------------------------

  /** Different registers stay different whatever is fed to them. */
  lemma {:induction false} BitwiseRegisterInjective(a: bv32, b: bv32, data: seq<byte>)
    ensures BitwiseRegister(a, data) == BitwiseRegister(b, data) ==> a == b
    decreases |data|
  {
    if |data| > 0 {
      BitwiseRegisterInjective(BitwiseUpdate(a, data[0]), BitwiseUpdate(b, data[0]), data[1..]);
      ByteShiftInjective(a ^ data[0] as bv32, b ^ data[0] as bv32);
    }
  }

  /** One pass of the outer loop over different bytes leaves different registers. */
  lemma BitwiseUpdateSeparatesBytes(crc: bv32, x: byte, y: byte)
    requires x != y
    ensures BitwiseUpdate(crc, x) != BitwiseUpdate(crc, y)
  {
    ByteShiftInjective(crc ^ x as bv32, crc ^ y as bv32);
  }

  /** Changing any one byte of a message changes its CRC. */
  lemma SingleByteChangeDetected(front: seq<byte>, x: byte, y: byte, back: seq<byte>)
    requires x != y
    requires |front| + 1 + |back| <= MaxLength
    ensures Crc32Bitwise(front + [x] + back) != Crc32Bitwise(front + [y] + back)
  {
    var r := BitwiseRegister(Initial, front);
    BitwiseRegisterAppend(Initial, front + [x], back);
    BitwiseRegisterAppend(Initial, front + [y], back);
    BitwiseRegisterSnoc(Initial, front, x);
    BitwiseRegisterSnoc(Initial, front, y);
    BitwiseUpdateSeparatesBytes(r, x, y);
    BitwiseRegisterInjective(BitwiseUpdate(r, x), BitwiseUpdate(r, y), back);
  }
}
