/**
 *  CRC-32, table-driven variant.
 *
 *  `CrcTable` is the 256-entry literal table of the source, laid out here as
 *  sixteen rows of sixteen entries (entry `i` is in row `i / 16`, column
 *  `i % 16`, in the order the source lists them). Entry `i` is what eight
 *  shifts of the register do to a low byte `i` (`TableMatchesPolynomial`),
 *  which is why one lookup can replace the inner loop of the bit-by-bit
 *  variant (`UpdatesAgree`) and why the two variants compute the same CRC on
 *  every buffer (`Crc32VariantsAgree`).
 */

module Crc32Lookup {
  import opened Bytes
  import opened Crc32

  const TableRow0: seq<bv32> := [
    0x00000000, 0x77073096, 0xee0e612c, 0x990951ba,
    0x076dc419, 0x706af48f, 0xe963a535, 0x9e6495a3,
    0x0edb8832, 0x79dcb8a4, 0xe0d5e91e, 0x97d2d988,
    0x09b64c2b, 0x7eb17cbd, 0xe7b82d07, 0x90bf1d91
  ]
  const TableRow1: seq<bv32> := [
    0x1db71064, 0x6ab020f2, 0xf3b97148, 0x84be41de,
    0x1adad47d, 0x6ddde4eb, 0xf4d4b551, 0x83d385c7,
    0x136c9856, 0x646ba8c0, 0xfd62f97a, 0x8a65c9ec,
    0x14015c4f, 0x63066cd9, 0xfa0f3d63, 0x8d080df5
  ]
  const TableRow2: seq<bv32> := [
    0x3b6e20c8, 0x4c69105e, 0xd56041e4, 0xa2677172,
    0x3c03e4d1, 0x4b04d447, 0xd20d85fd, 0xa50ab56b,
    0x35b5a8fa, 0x42b2986c, 0xdbbbc9d6, 0xacbcf940,
    0x32d86ce3, 0x45df5c75, 0xdcd60dcf, 0xabd13d59
  ]
  const TableRow3: seq<bv32> := [
    0x26d930ac, 0x51de003a, 0xc8d75180, 0xbfd06116,
    0x21b4f4b5, 0x56b3c423, 0xcfba9599, 0xb8bda50f,
    0x2802b89e, 0x5f058808, 0xc60cd9b2, 0xb10be924,
    0x2f6f7c87, 0x58684c11, 0xc1611dab, 0xb6662d3d
  ]
  const TableRow4: seq<bv32> := [
    0x76dc4190, 0x01db7106, 0x98d220bc, 0xefd5102a,
    0x71b18589, 0x06b6b51f, 0x9fbfe4a5, 0xe8b8d433,
    0x7807c9a2, 0x0f00f934, 0x9609a88e, 0xe10e9818,
    0x7f6a0dbb, 0x086d3d2d, 0x91646c97, 0xe6635c01
  ]
  const TableRow5: seq<bv32> := [
    0x6b6b51f4, 0x1c6c6162, 0x856530d8, 0xf262004e,
    0x6c0695ed, 0x1b01a57b, 0x8208f4c1, 0xf50fc457,
    0x65b0d9c6, 0x12b7e950, 0x8bbeb8ea, 0xfcb9887c,
    0x62dd1ddf, 0x15da2d49, 0x8cd37cf3, 0xfbd44c65
  ]
  const TableRow6: seq<bv32> := [
    0x4db26158, 0x3ab551ce, 0xa3bc0074, 0xd4bb30e2,
    0x4adfa541, 0x3dd895d7, 0xa4d1c46d, 0xd3d6f4fb,
    0x4369e96a, 0x346ed9fc, 0xad678846, 0xda60b8d0,
    0x44042d73, 0x33031de5, 0xaa0a4c5f, 0xdd0d7cc9
  ]
  const TableRow7: seq<bv32> := [
    0x5005713c, 0x270241aa, 0xbe0b1010, 0xc90c2086,
    0x5768b525, 0x206f85b3, 0xb966d409, 0xce61e49f,
    0x5edef90e, 0x29d9c998, 0xb0d09822, 0xc7d7a8b4,
    0x59b33d17, 0x2eb40d81, 0xb7bd5c3b, 0xc0ba6cad
  ]
  const TableRow8: seq<bv32> := [
    0xedb88320, 0x9abfb3b6, 0x03b6e20c, 0x74b1d29a,
    0xead54739, 0x9dd277af, 0x04db2615, 0x73dc1683,
    0xe3630b12, 0x94643b84, 0x0d6d6a3e, 0x7a6a5aa8,
    0xe40ecf0b, 0x9309ff9d, 0x0a00ae27, 0x7d079eb1
  ]
  const TableRow9: seq<bv32> := [
    0xf00f9344, 0x8708a3d2, 0x1e01f268, 0x6906c2fe,
    0xf762575d, 0x806567cb, 0x196c3671, 0x6e6b06e7,
    0xfed41b76, 0x89d32be0, 0x10da7a5a, 0x67dd4acc,
    0xf9b9df6f, 0x8ebeeff9, 0x17b7be43, 0x60b08ed5
  ]
  const TableRow10: seq<bv32> := [
    0xd6d6a3e8, 0xa1d1937e, 0x38d8c2c4, 0x4fdff252,
    0xd1bb67f1, 0xa6bc5767, 0x3fb506dd, 0x48b2364b,
    0xd80d2bda, 0xaf0a1b4c, 0x36034af6, 0x41047a60,
    0xdf60efc3, 0xa867df55, 0x316e8eef, 0x4669be79
  ]
  const TableRow11: seq<bv32> := [
    0xcb61b38c, 0xbc66831a, 0x256fd2a0, 0x5268e236,
    0xcc0c7795, 0xbb0b4703, 0x220216b9, 0x5505262f,
    0xc5ba3bbe, 0xb2bd0b28, 0x2bb45a92, 0x5cb36a04,
    0xc2d7ffa7, 0xb5d0cf31, 0x2cd99e8b, 0x5bdeae1d
  ]
  const TableRow12: seq<bv32> := [
    0x9b64c2b0, 0xec63f226, 0x756aa39c, 0x026d930a,
    0x9c0906a9, 0xeb0e363f, 0x72076785, 0x05005713,
    0x95bf4a82, 0xe2b87a14, 0x7bb12bae, 0x0cb61b38,
    0x92d28e9b, 0xe5d5be0d, 0x7cdcefb7, 0x0bdbdf21
  ]
  const TableRow13: seq<bv32> := [
    0x86d3d2d4, 0xf1d4e242, 0x68ddb3f8, 0x1fda836e,
    0x81be16cd, 0xf6b9265b, 0x6fb077e1, 0x18b74777,
    0x88085ae6, 0xff0f6a70, 0x66063bca, 0x11010b5c,
    0x8f659eff, 0xf862ae69, 0x616bffd3, 0x166ccf45
  ]
  const TableRow14: seq<bv32> := [
    0xa00ae278, 0xd70dd2ee, 0x4e048354, 0x3903b3c2,
    0xa7672661, 0xd06016f7, 0x4969474d, 0x3e6e77db,
    0xaed16a4a, 0xd9d65adc, 0x40df0b66, 0x37d83bf0,
    0xa9bcae53, 0xdebb9ec5, 0x47b2cf7f, 0x30b5ffe9
  ]
  const TableRow15: seq<bv32> := [
    0xbdbdf21c, 0xcabac28a, 0x53b39330, 0x24b4a3a6,
    0xbad03605, 0xcdd70693, 0x54de5729, 0x23d967bf,
    0xb3667a2e, 0xc4614ab8, 0x5d681b02, 0x2a6f2b94,
    0xb40bbe37, 0xc30c8ea1, 0x5a05df1b, 0x2d02ef8d
  ]

  const TableRows: seq<seq<bv32>> := [
    TableRow0, TableRow1, TableRow2, TableRow3, TableRow4, TableRow5, TableRow6, TableRow7,
    TableRow8, TableRow9, TableRow10, TableRow11, TableRow12, TableRow13, TableRow14, TableRow15
  ]

  /** The literal table, `crc32_ccitt_table`. */
  function CrcTable(): seq<bv32>
  {
    seq(256, i requires 0 <= i < 256 => TableRows[i / 16][i % 16])
  }

  /**
   * What makes a table usable by the table-driven loop: one lookup on the low
   * byte of the register, XOR-ed with the register shifted right by eight,
   * does what eight shifts of the register do.
   */
  ghost predicate ShiftsByLookup(table: seq<bv32>)
  {
    |table| == 256 && forall x: bv32 :: ByteShift(x) == table[(x & 0xFF) as int] ^ (x >> 8)
  }

  /**
   * One pass of the table-driven loop. The table is a parameter so that the
   * proofs about the loop rely only on `ShiftsByLookup`; the source always
   * passes `CrcTable()`.
   */
  function TableUpdate(table: seq<bv32>, crc: bv32, b: byte): bv32
    requires |table| == 256
  {
    table[((crc ^ b as bv32) & 0xFF) as int] ^ (crc >> 8)
  }

  /** The register after feeding `data` to the table-driven loop, starting from `crc`. */
  function TableRegister(table: seq<bv32>, crc: bv32, data: seq<byte>): bv32
    requires |table| == 256
    decreases |data|
  {
    if |data| == 0 then crc else TableRegister(table, TableUpdate(table, crc, data[0]), data[1..])
  }

  /** The table-driven `piCrc32` over a whole buffer. */
  function Crc32Table(data: seq<byte>): bv32
    requires |data| <= MaxLength
  {
    TableRegister(CrcTable(), Initial, data) ^ Initial
  }

  /**
   * The per-byte lemma: eight shift/XOR steps on a register equal one table
   * lookup on its low byte, XOR-ed with the register shifted right by eight.
   */
  lemma ByteShiftIsLookup(x: bv32)
    ensures ByteShift(x) == CrcTable()[(x & 0xFF) as int] ^ (x >> 8)
  {
    if x & 0xFF < 128 {
      if x & 0xFF < 64 {
        if x & 0xFF < 32 {
          if x & 0xFF < 16 {
            if x & 0xFF < 8 {
              ByteShiftEntries0(x);
            } else {
              ByteShiftEntries1(x);
            }
          } else {
            if x & 0xFF < 24 {
              ByteShiftEntries2(x);
            } else {
              ByteShiftEntries3(x);
            }
          }
        } else {
          if x & 0xFF < 48 {
            if x & 0xFF < 40 {
              ByteShiftEntries4(x);
            } else {
              ByteShiftEntries5(x);
            }
          } else {
            if x & 0xFF < 56 {
              ByteShiftEntries6(x);
            } else {
              ByteShiftEntries7(x);
            }
          }
        }
      } else {
        if x & 0xFF < 96 {
          if x & 0xFF < 80 {
            if x & 0xFF < 72 {
              ByteShiftEntries8(x);
            } else {
              ByteShiftEntries9(x);
            }
          } else {
            if x & 0xFF < 88 {
              ByteShiftEntries10(x);
            } else {
              ByteShiftEntries11(x);
            }
          }
        } else {
          if x & 0xFF < 112 {
            if x & 0xFF < 104 {
              ByteShiftEntries12(x);
            } else {
              ByteShiftEntries13(x);
            }
          } else {
            if x & 0xFF < 120 {
              ByteShiftEntries14(x);
            } else {
              ByteShiftEntries15(x);
            }
          }
        }
      }
    } else {
      if x & 0xFF < 192 {
        if x & 0xFF < 160 {
          if x & 0xFF < 144 {
            if x & 0xFF < 136 {
              ByteShiftEntries16(x);
            } else {
              ByteShiftEntries17(x);
            }
          } else {
            if x & 0xFF < 152 {
              ByteShiftEntries18(x);
            } else {
              ByteShiftEntries19(x);
            }
          }
        } else {
          if x & 0xFF < 176 {
            if x & 0xFF < 168 {
              ByteShiftEntries20(x);
            } else {
              ByteShiftEntries21(x);
            }
          } else {
            if x & 0xFF < 184 {
              ByteShiftEntries22(x);
            } else {
              ByteShiftEntries23(x);
            }
          }
        }
      } else {
        if x & 0xFF < 224 {
          if x & 0xFF < 208 {
            if x & 0xFF < 200 {
              ByteShiftEntries24(x);
            } else {
              ByteShiftEntries25(x);
            }
          } else {
            if x & 0xFF < 216 {
              ByteShiftEntries26(x);
            } else {
              ByteShiftEntries27(x);
            }
          }
        } else {
          if x & 0xFF < 240 {
            if x & 0xFF < 232 {
              ByteShiftEntries28(x);
            } else {
              ByteShiftEntries29(x);
            }
          } else {
            if x & 0xFF < 248 {
              ByteShiftEntries30(x);
            } else {
              ByteShiftEntries31(x);
            }
          }
        }
      }
    }
  }

  /** The literal table has the property the table-driven loop relies on. */
  lemma CrcTableShiftsByLookup()
    ensures ShiftsByLookup(CrcTable())
  {
    forall x: bv32
      ensures ByteShift(x) == CrcTable()[(x & 0xFF) as int] ^ (x >> 8)
    {
      ByteShiftIsLookup(x);
    }
  }

  lemma LookupAt(table: seq<bv32>, x: bv32)
    requires ShiftsByLookup(table)
    ensures ByteShift(x) == table[(x & 0xFF) as int] ^ (x >> 8)
  {
  }

  /** XOR-ing a byte into the register leaves its upper 24 bits alone. */
  lemma XorByteKeepsHighBits(crc: bv32, b: byte)
    ensures (crc ^ b as bv32) >> 8 == crc >> 8
  {
  }

  /** A byte widened to a register is its own low byte, with nothing above it. */
  lemma WidenedByte(i: byte)
    ensures (i as bv32) & 0xFF == i as bv32 && (i as bv32) >> 8 == 0
    ensures ((i as bv32) & 0xFF) as int == i as int
  {
  }

  /** A table with that property lets the two loops take the same step on every register and every byte. */
  lemma UpdatesAgree(table: seq<bv32>, crc: bv32, b: byte)
    requires ShiftsByLookup(table)
    ensures TableUpdate(table, crc, b) == BitwiseUpdate(crc, b)
  {
    LookupAt(table, crc ^ b as bv32);
    XorByteKeepsHighBits(crc, b);
  }

  /** ... and leave the same register after any buffer. */
  lemma {:induction false} RegistersAgree(table: seq<bv32>, crc: bv32, data: seq<byte>)
    requires ShiftsByLookup(table)
    ensures TableRegister(table, crc, data) == BitwiseRegister(crc, data)
    decreases |data|
  {
    if |data| > 0 {
      UpdatesAgree(table, crc, data[0]);
      RegistersAgree(table, TableUpdate(table, crc, data[0]), data[1..]);
    }
  }

  /** The headline: both variants of `piCrc32` return the same value on every buffer. */
  lemma Crc32VariantsAgree(data: seq<byte>)
    requires |data| <= MaxLength
    ensures Crc32Table(data) == Crc32Bitwise(data)
  {
    CrcTableShiftsByLookup();
    RegistersAgree(CrcTable(), Initial, data);
  }

  /** The table-driven CRC of an empty buffer is 0 as well: the loop does not run, and the complement undoes the initial value. */
  lemma Crc32TableEmpty()
    ensures Crc32Table([]) == 0
  {
  }

  /** Every entry of the literal table is eight register shifts of its own index. */
  lemma TableMatchesPolynomial(i: byte)
    ensures CrcTable()[i as int] == ByteShift(i as bv32)
  {
    CrcTableShiftsByLookup();
    EntryOfLookupTable(CrcTable(), i);
  }

  /** In a table with that property, entry `i` is eight shifts of `i`. */
  lemma EntryOfLookupTable(table: seq<bv32>, i: byte)
    requires ShiftsByLookup(table)
    ensures table[i as int] == ByteShift(i as bv32)
  {
    LookupAt(table, i as bv32);
    WidenedByte(i);
  }

  lemma TableExamples()
    ensures CrcTable()[1] == 0x7707_3096 && CrcTable()[128] == Polynom
  {
    assert CrcTable()[1] == TableRows[0][1];
    assert CrcTable()[128] == TableRows[8][0];
  }

  lemma {:induction false} TableRegisterAppend(table: seq<bv32>, crc: bv32, a: seq<byte>, b: seq<byte>)
    requires |table| == 256
    ensures TableRegister(table, crc, a + b) == TableRegister(table, TableRegister(table, crc, a), b)
    decreases |a|
  {
    if |a| == 0 {
      assert a + b == b;
    } else {
      assert (a + b)[1..] == a[1..] + b;
      TableRegisterAppend(table, TableUpdate(table, crc, a[0]), a[1..], b);
    }
  }

  lemma TableRegisterSnoc(table: seq<bv32>, crc: bv32, data: seq<byte>, b: byte)
    requires |table| == 256
    ensures TableRegister(table, crc, data + [b]) == TableUpdate(table, TableRegister(table, crc, data), b)
  {
    TableRegisterAppend(table, crc, data, [b]);
    var r := TableRegister(table, crc, data);
    assert TableRegister(table, r, [b]) == TableRegister(table, TableUpdate(table, r, b), []);
  }

  /** The body of the table-driven loop as written, with the literal table: one lookup does the work of eight shifts. */
  method LookupStep(crc: bv32, b: byte) returns (next: bv32)
    ensures next == BitwiseUpdate(crc, b)
  {
    next := CrcTable()[((crc ^ b as bv32) & 0xFF) as int] ^ (crc >> 8);
    CrcTableShiftsByLookup();
    UpdatesAgree(CrcTable(), crc, b);
  }

  /** The loop of the table-driven `piCrc32` as written, over the first `len` bytes of `buff`. */
  method TableLoop(table: seq<bv32>, buff: seq<byte>, len: nat) returns (crc: bv32)
    requires |table| == 256 && len <= |buff|
    ensures crc == TableRegister(table, Initial, buff[..len]) ^ Initial
  {
    var reg := Initial;
    var i := 0;
    assert buff[..0] == [];
    while i < len
      invariant 0 <= i <= len
      invariant reg == TableRegister(table, Initial, buff[..i])
    {
      TableRegisterSnoc(table, Initial, buff[..i], buff[i]);
      assert buff[..i + 1] == buff[..i] + [buff[i]];
      reg := TableUpdate(table, reg, buff[i]);
      i := i + 1;
    }
    crc := reg ^ Initial;
  }

  /** The table-driven `piCrc32` as written, with its literal table. */
  method ComputeTable(buff: seq<byte>, len: nat) returns (crc: bv32)
    requires len <= |buff| && len <= MaxLength
    ensures crc == Crc32Table(buff[..len])
    ensures crc == Crc32Bitwise(buff[..len])
  {
    crc := TableLoop(CrcTable(), buff, len);
    Crc32VariantsAgree(buff[..len]);
  }

  /** Entries 0 to 7 of the table are eight shifts of their index. */
  lemma ByteShiftEntries0(x: bv32)
    requires 0 <= x & 0xFF < 8
    ensures ByteShift(x) == CrcTable()[(x & 0xFF) as int] ^ (x >> 8)
  {
    match x & 0xFF
    case 0 => assert CrcTable()[0] == TableRows[0][0] == 0x00000000;
    case 1 => assert CrcTable()[1] == TableRows[0][1] == 0x77073096;
    case 2 => assert CrcTable()[2] == TableRows[0][2] == 0xee0e612c;
    case 3 => assert CrcTable()[3] == TableRows[0][3] == 0x990951ba;
    case 4 => assert CrcTable()[4] == TableRows[0][4] == 0x076dc419;
    case 5 => assert CrcTable()[5] == TableRows[0][5] == 0x706af48f;
    case 6 => assert CrcTable()[6] == TableRows[0][6] == 0xe963a535;
    case 7 => assert CrcTable()[7] == TableRows[0][7] == 0x9e6495a3;
  }

  /** Entries 8 to 15 of the table are eight shifts of their index. */
  lemma ByteShiftEntries1(x: bv32)
    requires 8 <= x & 0xFF < 16
    ensures ByteShift(x) == CrcTable()[(x & 0xFF) as int] ^ (x >> 8)
  {
    match x & 0xFF
    case 8 => assert CrcTable()[8] == TableRows[0][8] == 0x0edb8832;
    case 9 => assert CrcTable()[9] == TableRows[0][9] == 0x79dcb8a4;
    case 10 => assert CrcTable()[10] == TableRows[0][10] == 0xe0d5e91e;
    case 11 => assert CrcTable()[11] == TableRows[0][11] == 0x97d2d988;
    case 12 => assert CrcTable()[12] == TableRows[0][12] == 0x09b64c2b;
    case 13 => assert CrcTable()[13] == TableRows[0][13] == 0x7eb17cbd;
    case 14 => assert CrcTable()[14] == TableRows[0][14] == 0xe7b82d07;
    case 15 => assert CrcTable()[15] == TableRows[0][15] == 0x90bf1d91;
  }

  /** Entries 16 to 23 of the table are eight shifts of their index. */
  lemma ByteShiftEntries2(x: bv32)
    requires 16 <= x & 0xFF < 24
    ensures ByteShift(x) == CrcTable()[(x & 0xFF) as int] ^ (x >> 8)
  {
    match x & 0xFF
    case 16 => assert CrcTable()[16] == TableRows[1][0] == 0x1db71064;
    case 17 => assert CrcTable()[17] == TableRows[1][1] == 0x6ab020f2;
    case 18 => assert CrcTable()[18] == TableRows[1][2] == 0xf3b97148;
    case 19 => assert CrcTable()[19] == TableRows[1][3] == 0x84be41de;
    case 20 => assert CrcTable()[20] == TableRows[1][4] == 0x1adad47d;
    case 21 => assert CrcTable()[21] == TableRows[1][5] == 0x6ddde4eb;
    case 22 => assert CrcTable()[22] == TableRows[1][6] == 0xf4d4b551;
    case 23 => assert CrcTable()[23] == TableRows[1][7] == 0x83d385c7;
  }

  /** Entries 24 to 31 of the table are eight shifts of their index. */
  lemma ByteShiftEntries3(x: bv32)
    requires 24 <= x & 0xFF < 32
    ensures ByteShift(x) == CrcTable()[(x & 0xFF) as int] ^ (x >> 8)
  {
    match x & 0xFF
    case 24 => assert CrcTable()[24] == TableRows[1][8] == 0x136c9856;
    case 25 => assert CrcTable()[25] == TableRows[1][9] == 0x646ba8c0;
    case 26 => assert CrcTable()[26] == TableRows[1][10] == 0xfd62f97a;
    case 27 => assert CrcTable()[27] == TableRows[1][11] == 0x8a65c9ec;
    case 28 => assert CrcTable()[28] == TableRows[1][12] == 0x14015c4f;
    case 29 => assert CrcTable()[29] == TableRows[1][13] == 0x63066cd9;
    case 30 => assert CrcTable()[30] == TableRows[1][14] == 0xfa0f3d63;
    case 31 => assert CrcTable()[31] == TableRows[1][15] == 0x8d080df5;
  }

  /** Entries 32 to 39 of the table are eight shifts of their index. */
  lemma ByteShiftEntries4(x: bv32)
    requires 32 <= x & 0xFF < 40
    ensures ByteShift(x) == CrcTable()[(x & 0xFF) as int] ^ (x >> 8)
  {
    match x & 0xFF
    case 32 => assert CrcTable()[32] == TableRows[2][0] == 0x3b6e20c8;
    case 33 => assert CrcTable()[33] == TableRows[2][1] == 0x4c69105e;
    case 34 => assert CrcTable()[34] == TableRows[2][2] == 0xd56041e4;
    case 35 => assert CrcTable()[35] == TableRows[2][3] == 0xa2677172;
    case 36 => assert CrcTable()[36] == TableRows[2][4] == 0x3c03e4d1;
    case 37 => assert CrcTable()[37] == TableRows[2][5] == 0x4b04d447;
    case 38 => assert CrcTable()[38] == TableRows[2][6] == 0xd20d85fd;
    case 39 => assert CrcTable()[39] == TableRows[2][7] == 0xa50ab56b;
  }

  /** Entries 40 to 47 of the table are eight shifts of their index. */
  lemma ByteShiftEntries5(x: bv32)
    requires 40 <= x & 0xFF < 48
    ensures ByteShift(x) == CrcTable()[(x & 0xFF) as int] ^ (x >> 8)
  {
    match x & 0xFF
    case 40 => assert CrcTable()[40] == TableRows[2][8] == 0x35b5a8fa;
    case 41 => assert CrcTable()[41] == TableRows[2][9] == 0x42b2986c;
    case 42 => assert CrcTable()[42] == TableRows[2][10] == 0xdbbbc9d6;
    case 43 => assert CrcTable()[43] == TableRows[2][11] == 0xacbcf940;
    case 44 => assert CrcTable()[44] == TableRows[2][12] == 0x32d86ce3;
    case 45 => assert CrcTable()[45] == TableRows[2][13] == 0x45df5c75;
    case 46 => assert CrcTable()[46] == TableRows[2][14] == 0xdcd60dcf;
    case 47 => assert CrcTable()[47] == TableRows[2][15] == 0xabd13d59;
  }

  /** Entries 48 to 55 of the table are eight shifts of their index. */
  lemma ByteShiftEntries6(x: bv32)
    requires 48 <= x & 0xFF < 56
    ensures ByteShift(x) == CrcTable()[(x & 0xFF) as int] ^ (x >> 8)
  {
    match x & 0xFF
    case 48 => assert CrcTable()[48] == TableRows[3][0] == 0x26d930ac;
    case 49 => assert CrcTable()[49] == TableRows[3][1] == 0x51de003a;
    case 50 => assert CrcTable()[50] == TableRows[3][2] == 0xc8d75180;
    case 51 => assert CrcTable()[51] == TableRows[3][3] == 0xbfd06116;
    case 52 => assert CrcTable()[52] == TableRows[3][4] == 0x21b4f4b5;
    case 53 => assert CrcTable()[53] == TableRows[3][5] == 0x56b3c423;
    case 54 => assert CrcTable()[54] == TableRows[3][6] == 0xcfba9599;
    case 55 => assert CrcTable()[55] == TableRows[3][7] == 0xb8bda50f;
  }

  /** Entries 56 to 63 of the table are eight shifts of their index. */
  lemma ByteShiftEntries7(x: bv32)
    requires 56 <= x & 0xFF < 64
    ensures ByteShift(x) == CrcTable()[(x & 0xFF) as int] ^ (x >> 8)
  {
    match x & 0xFF
    case 56 => assert CrcTable()[56] == TableRows[3][8] == 0x2802b89e;
    case 57 => assert CrcTable()[57] == TableRows[3][9] == 0x5f058808;
    case 58 => assert CrcTable()[58] == TableRows[3][10] == 0xc60cd9b2;
    case 59 => assert CrcTable()[59] == TableRows[3][11] == 0xb10be924;
    case 60 => assert CrcTable()[60] == TableRows[3][12] == 0x2f6f7c87;
    case 61 => assert CrcTable()[61] == TableRows[3][13] == 0x58684c11;
    case 62 => assert CrcTable()[62] == TableRows[3][14] == 0xc1611dab;
    case 63 => assert CrcTable()[63] == TableRows[3][15] == 0xb6662d3d;
  }

  /** Entries 64 to 71 of the table are eight shifts of their index. */
  lemma ByteShiftEntries8(x: bv32)
    requires 64 <= x & 0xFF < 72
    ensures ByteShift(x) == CrcTable()[(x & 0xFF) as int] ^ (x >> 8)
  {
    match x & 0xFF
    case 64 => assert CrcTable()[64] == TableRows[4][0] == 0x76dc4190;
    case 65 => assert CrcTable()[65] == TableRows[4][1] == 0x01db7106;
    case 66 => assert CrcTable()[66] == TableRows[4][2] == 0x98d220bc;
    case 67 => assert CrcTable()[67] == TableRows[4][3] == 0xefd5102a;
    case 68 => assert CrcTable()[68] == TableRows[4][4] == 0x71b18589;
    case 69 => assert CrcTable()[69] == TableRows[4][5] == 0x06b6b51f;
    case 70 => assert CrcTable()[70] == TableRows[4][6] == 0x9fbfe4a5;
    case 71 => assert CrcTable()[71] == TableRows[4][7] == 0xe8b8d433;
  }

  /** Entries 72 to 79 of the table are eight shifts of their index. */
  lemma ByteShiftEntries9(x: bv32)
    requires 72 <= x & 0xFF < 80
    ensures ByteShift(x) == CrcTable()[(x & 0xFF) as int] ^ (x >> 8)
  {
    match x & 0xFF
    case 72 => assert CrcTable()[72] == TableRows[4][8] == 0x7807c9a2;
    case 73 => assert CrcTable()[73] == TableRows[4][9] == 0x0f00f934;
    case 74 => assert CrcTable()[74] == TableRows[4][10] == 0x9609a88e;
    case 75 => assert CrcTable()[75] == TableRows[4][11] == 0xe10e9818;
    case 76 => assert CrcTable()[76] == TableRows[4][12] == 0x7f6a0dbb;
    case 77 => assert CrcTable()[77] == TableRows[4][13] == 0x086d3d2d;
    case 78 => assert CrcTable()[78] == TableRows[4][14] == 0x91646c97;
    case 79 => assert CrcTable()[79] == TableRows[4][15] == 0xe6635c01;
  }

  /** Entries 80 to 87 of the table are eight shifts of their index. */
  lemma ByteShiftEntries10(x: bv32)
    requires 80 <= x & 0xFF < 88
    ensures ByteShift(x) == CrcTable()[(x & 0xFF) as int] ^ (x >> 8)
  {
    match x & 0xFF
    case 80 => assert CrcTable()[80] == TableRows[5][0] == 0x6b6b51f4;
    case 81 => assert CrcTable()[81] == TableRows[5][1] == 0x1c6c6162;
    case 82 => assert CrcTable()[82] == TableRows[5][2] == 0x856530d8;
    case 83 => assert CrcTable()[83] == TableRows[5][3] == 0xf262004e;
    case 84 => assert CrcTable()[84] == TableRows[5][4] == 0x6c0695ed;
    case 85 => assert CrcTable()[85] == TableRows[5][5] == 0x1b01a57b;
    case 86 => assert CrcTable()[86] == TableRows[5][6] == 0x8208f4c1;
    case 87 => assert CrcTable()[87] == TableRows[5][7] == 0xf50fc457;
  }

  /** Entries 88 to 95 of the table are eight shifts of their index. */
  lemma ByteShiftEntries11(x: bv32)
    requires 88 <= x & 0xFF < 96
    ensures ByteShift(x) == CrcTable()[(x & 0xFF) as int] ^ (x >> 8)
  {
    match x & 0xFF
    case 88 => assert CrcTable()[88] == TableRows[5][8] == 0x65b0d9c6;
    case 89 => assert CrcTable()[89] == TableRows[5][9] == 0x12b7e950;
    case 90 => assert CrcTable()[90] == TableRows[5][10] == 0x8bbeb8ea;
    case 91 => assert CrcTable()[91] == TableRows[5][11] == 0xfcb9887c;
    case 92 => assert CrcTable()[92] == TableRows[5][12] == 0x62dd1ddf;
    case 93 => assert CrcTable()[93] == TableRows[5][13] == 0x15da2d49;
    case 94 => assert CrcTable()[94] == TableRows[5][14] == 0x8cd37cf3;
    case 95 => assert CrcTable()[95] == TableRows[5][15] == 0xfbd44c65;
  }

  /** Entries 96 to 103 of the table are eight shifts of their index. */
  lemma ByteShiftEntries12(x: bv32)
    requires 96 <= x & 0xFF < 104
    ensures ByteShift(x) == CrcTable()[(x & 0xFF) as int] ^ (x >> 8)
  {
    match x & 0xFF
    case 96 => assert CrcTable()[96] == TableRows[6][0] == 0x4db26158;
    case 97 => assert CrcTable()[97] == TableRows[6][1] == 0x3ab551ce;
    case 98 => assert CrcTable()[98] == TableRows[6][2] == 0xa3bc0074;
    case 99 => assert CrcTable()[99] == TableRows[6][3] == 0xd4bb30e2;
    case 100 => assert CrcTable()[100] == TableRows[6][4] == 0x4adfa541;
    case 101 => assert CrcTable()[101] == TableRows[6][5] == 0x3dd895d7;
    case 102 => assert CrcTable()[102] == TableRows[6][6] == 0xa4d1c46d;
    case 103 => assert CrcTable()[103] == TableRows[6][7] == 0xd3d6f4fb;
  }

  /** Entries 104 to 111 of the table are eight shifts of their index. */
  lemma ByteShiftEntries13(x: bv32)
    requires 104 <= x & 0xFF < 112
    ensures ByteShift(x) == CrcTable()[(x & 0xFF) as int] ^ (x >> 8)
  {
    match x & 0xFF
    case 104 => assert CrcTable()[104] == TableRows[6][8] == 0x4369e96a;
    case 105 => assert CrcTable()[105] == TableRows[6][9] == 0x346ed9fc;
    case 106 => assert CrcTable()[106] == TableRows[6][10] == 0xad678846;
    case 107 => assert CrcTable()[107] == TableRows[6][11] == 0xda60b8d0;
    case 108 => assert CrcTable()[108] == TableRows[6][12] == 0x44042d73;
    case 109 => assert CrcTable()[109] == TableRows[6][13] == 0x33031de5;
    case 110 => assert CrcTable()[110] == TableRows[6][14] == 0xaa0a4c5f;
    case 111 => assert CrcTable()[111] == TableRows[6][15] == 0xdd0d7cc9;
  }

  /** Entries 112 to 119 of the table are eight shifts of their index. */
  lemma ByteShiftEntries14(x: bv32)
    requires 112 <= x & 0xFF < 120
    ensures ByteShift(x) == CrcTable()[(x & 0xFF) as int] ^ (x >> 8)
  {
    match x & 0xFF
    case 112 => assert CrcTable()[112] == TableRows[7][0] == 0x5005713c;
    case 113 => assert CrcTable()[113] == TableRows[7][1] == 0x270241aa;
    case 114 => assert CrcTable()[114] == TableRows[7][2] == 0xbe0b1010;
    case 115 => assert CrcTable()[115] == TableRows[7][3] == 0xc90c2086;
    case 116 => assert CrcTable()[116] == TableRows[7][4] == 0x5768b525;
    case 117 => assert CrcTable()[117] == TableRows[7][5] == 0x206f85b3;
    case 118 => assert CrcTable()[118] == TableRows[7][6] == 0xb966d409;
    case 119 => assert CrcTable()[119] == TableRows[7][7] == 0xce61e49f;
  }

  /** Entries 120 to 127 of the table are eight shifts of their index. */
  lemma ByteShiftEntries15(x: bv32)
    requires 120 <= x & 0xFF < 128
    ensures ByteShift(x) == CrcTable()[(x & 0xFF) as int] ^ (x >> 8)
  {
    match x & 0xFF
    case 120 => assert CrcTable()[120] == TableRows[7][8] == 0x5edef90e;
    case 121 => assert CrcTable()[121] == TableRows[7][9] == 0x29d9c998;
    case 122 => assert CrcTable()[122] == TableRows[7][10] == 0xb0d09822;
    case 123 => assert CrcTable()[123] == TableRows[7][11] == 0xc7d7a8b4;
    case 124 => assert CrcTable()[124] == TableRows[7][12] == 0x59b33d17;
    case 125 => assert CrcTable()[125] == TableRows[7][13] == 0x2eb40d81;
    case 126 => assert CrcTable()[126] == TableRows[7][14] == 0xb7bd5c3b;
    case 127 => assert CrcTable()[127] == TableRows[7][15] == 0xc0ba6cad;
  }

  /** Entries 128 to 135 of the table are eight shifts of their index. */
  lemma ByteShiftEntries16(x: bv32)
    requires 128 <= x & 0xFF < 136
    ensures ByteShift(x) == CrcTable()[(x & 0xFF) as int] ^ (x >> 8)
  {
    match x & 0xFF
    case 128 => assert CrcTable()[128] == TableRows[8][0] == 0xedb88320;
    case 129 => assert CrcTable()[129] == TableRows[8][1] == 0x9abfb3b6;
    case 130 => assert CrcTable()[130] == TableRows[8][2] == 0x03b6e20c;
    case 131 => assert CrcTable()[131] == TableRows[8][3] == 0x74b1d29a;
    case 132 => assert CrcTable()[132] == TableRows[8][4] == 0xead54739;
    case 133 => assert CrcTable()[133] == TableRows[8][5] == 0x9dd277af;
    case 134 => assert CrcTable()[134] == TableRows[8][6] == 0x04db2615;
    case 135 => assert CrcTable()[135] == TableRows[8][7] == 0x73dc1683;
  }

  /** Entries 136 to 143 of the table are eight shifts of their index. */
  lemma ByteShiftEntries17(x: bv32)
    requires 136 <= x & 0xFF < 144
    ensures ByteShift(x) == CrcTable()[(x & 0xFF) as int] ^ (x >> 8)
  {
    match x & 0xFF
    case 136 => assert CrcTable()[136] == TableRows[8][8] == 0xe3630b12;
    case 137 => assert CrcTable()[137] == TableRows[8][9] == 0x94643b84;
    case 138 => assert CrcTable()[138] == TableRows[8][10] == 0x0d6d6a3e;
    case 139 => assert CrcTable()[139] == TableRows[8][11] == 0x7a6a5aa8;
    case 140 => assert CrcTable()[140] == TableRows[8][12] == 0xe40ecf0b;
    case 141 => assert CrcTable()[141] == TableRows[8][13] == 0x9309ff9d;
    case 142 => assert CrcTable()[142] == TableRows[8][14] == 0x0a00ae27;
    case 143 => assert CrcTable()[143] == TableRows[8][15] == 0x7d079eb1;
  }

  /** Entries 144 to 151 of the table are eight shifts of their index. */
  lemma ByteShiftEntries18(x: bv32)
    requires 144 <= x & 0xFF < 152
    ensures ByteShift(x) == CrcTable()[(x & 0xFF) as int] ^ (x >> 8)
  {
    match x & 0xFF
    case 144 => assert CrcTable()[144] == TableRows[9][0] == 0xf00f9344;
    case 145 => assert CrcTable()[145] == TableRows[9][1] == 0x8708a3d2;
    case 146 => assert CrcTable()[146] == TableRows[9][2] == 0x1e01f268;
    case 147 => assert CrcTable()[147] == TableRows[9][3] == 0x6906c2fe;
    case 148 => assert CrcTable()[148] == TableRows[9][4] == 0xf762575d;
    case 149 => assert CrcTable()[149] == TableRows[9][5] == 0x806567cb;
    case 150 => assert CrcTable()[150] == TableRows[9][6] == 0x196c3671;
    case 151 => assert CrcTable()[151] == TableRows[9][7] == 0x6e6b06e7;
  }

  /** Entries 152 to 159 of the table are eight shifts of their index. */
  lemma ByteShiftEntries19(x: bv32)
    requires 152 <= x & 0xFF < 160
    ensures ByteShift(x) == CrcTable()[(x & 0xFF) as int] ^ (x >> 8)
  {
    match x & 0xFF
    case 152 => assert CrcTable()[152] == TableRows[9][8] == 0xfed41b76;
    case 153 => assert CrcTable()[153] == TableRows[9][9] == 0x89d32be0;
    case 154 => assert CrcTable()[154] == TableRows[9][10] == 0x10da7a5a;
    case 155 => assert CrcTable()[155] == TableRows[9][11] == 0x67dd4acc;
    case 156 => assert CrcTable()[156] == TableRows[9][12] == 0xf9b9df6f;
    case 157 => assert CrcTable()[157] == TableRows[9][13] == 0x8ebeeff9;
    case 158 => assert CrcTable()[158] == TableRows[9][14] == 0x17b7be43;
    case 159 => assert CrcTable()[159] == TableRows[9][15] == 0x60b08ed5;
  }

  /** Entries 160 to 167 of the table are eight shifts of their index. */
  lemma ByteShiftEntries20(x: bv32)
    requires 160 <= x & 0xFF < 168
    ensures ByteShift(x) == CrcTable()[(x & 0xFF) as int] ^ (x >> 8)
  {
    match x & 0xFF
    case 160 => assert CrcTable()[160] == TableRows[10][0] == 0xd6d6a3e8;
    case 161 => assert CrcTable()[161] == TableRows[10][1] == 0xa1d1937e;
    case 162 => assert CrcTable()[162] == TableRows[10][2] == 0x38d8c2c4;
    case 163 => assert CrcTable()[163] == TableRows[10][3] == 0x4fdff252;
    case 164 => assert CrcTable()[164] == TableRows[10][4] == 0xd1bb67f1;
    case 165 => assert CrcTable()[165] == TableRows[10][5] == 0xa6bc5767;
    case 166 => assert CrcTable()[166] == TableRows[10][6] == 0x3fb506dd;
    case 167 => assert CrcTable()[167] == TableRows[10][7] == 0x48b2364b;
  }

  /** Entries 168 to 175 of the table are eight shifts of their index. */
  lemma ByteShiftEntries21(x: bv32)
    requires 168 <= x & 0xFF < 176
    ensures ByteShift(x) == CrcTable()[(x & 0xFF) as int] ^ (x >> 8)
  {
    match x & 0xFF
    case 168 => assert CrcTable()[168] == TableRows[10][8] == 0xd80d2bda;
    case 169 => assert CrcTable()[169] == TableRows[10][9] == 0xaf0a1b4c;
    case 170 => assert CrcTable()[170] == TableRows[10][10] == 0x36034af6;
    case 171 => assert CrcTable()[171] == TableRows[10][11] == 0x41047a60;
    case 172 => assert CrcTable()[172] == TableRows[10][12] == 0xdf60efc3;
    case 173 => assert CrcTable()[173] == TableRows[10][13] == 0xa867df55;
    case 174 => assert CrcTable()[174] == TableRows[10][14] == 0x316e8eef;
    case 175 => assert CrcTable()[175] == TableRows[10][15] == 0x4669be79;
  }

  /** Entries 176 to 183 of the table are eight shifts of their index. */
  lemma ByteShiftEntries22(x: bv32)
    requires 176 <= x & 0xFF < 184
    ensures ByteShift(x) == CrcTable()[(x & 0xFF) as int] ^ (x >> 8)
  {
    match x & 0xFF
    case 176 => assert CrcTable()[176] == TableRows[11][0] == 0xcb61b38c;
    case 177 => assert CrcTable()[177] == TableRows[11][1] == 0xbc66831a;
    case 178 => assert CrcTable()[178] == TableRows[11][2] == 0x256fd2a0;
    case 179 => assert CrcTable()[179] == TableRows[11][3] == 0x5268e236;
    case 180 => assert CrcTable()[180] == TableRows[11][4] == 0xcc0c7795;
    case 181 => assert CrcTable()[181] == TableRows[11][5] == 0xbb0b4703;
    case 182 => assert CrcTable()[182] == TableRows[11][6] == 0x220216b9;
    case 183 => assert CrcTable()[183] == TableRows[11][7] == 0x5505262f;
  }

  /** Entries 184 to 191 of the table are eight shifts of their index. */
  lemma ByteShiftEntries23(x: bv32)
    requires 184 <= x & 0xFF < 192
    ensures ByteShift(x) == CrcTable()[(x & 0xFF) as int] ^ (x >> 8)
  {
    match x & 0xFF
    case 184 => assert CrcTable()[184] == TableRows[11][8] == 0xc5ba3bbe;
    case 185 => assert CrcTable()[185] == TableRows[11][9] == 0xb2bd0b28;
    case 186 => assert CrcTable()[186] == TableRows[11][10] == 0x2bb45a92;
    case 187 => assert CrcTable()[187] == TableRows[11][11] == 0x5cb36a04;
    case 188 => assert CrcTable()[188] == TableRows[11][12] == 0xc2d7ffa7;
    case 189 => assert CrcTable()[189] == TableRows[11][13] == 0xb5d0cf31;
    case 190 => assert CrcTable()[190] == TableRows[11][14] == 0x2cd99e8b;
    case 191 => assert CrcTable()[191] == TableRows[11][15] == 0x5bdeae1d;
  }

  /** Entries 192 to 199 of the table are eight shifts of their index. */
  lemma ByteShiftEntries24(x: bv32)
    requires 192 <= x & 0xFF < 200
    ensures ByteShift(x) == CrcTable()[(x & 0xFF) as int] ^ (x >> 8)
  {
    match x & 0xFF
    case 192 => assert CrcTable()[192] == TableRows[12][0] == 0x9b64c2b0;
    case 193 => assert CrcTable()[193] == TableRows[12][1] == 0xec63f226;
    case 194 => assert CrcTable()[194] == TableRows[12][2] == 0x756aa39c;
    case 195 => assert CrcTable()[195] == TableRows[12][3] == 0x026d930a;
    case 196 => assert CrcTable()[196] == TableRows[12][4] == 0x9c0906a9;
    case 197 => assert CrcTable()[197] == TableRows[12][5] == 0xeb0e363f;
    case 198 => assert CrcTable()[198] == TableRows[12][6] == 0x72076785;
    case 199 => assert CrcTable()[199] == TableRows[12][7] == 0x05005713;
  }

  /** Entries 200 to 207 of the table are eight shifts of their index. */
  lemma ByteShiftEntries25(x: bv32)
    requires 200 <= x & 0xFF < 208
    ensures ByteShift(x) == CrcTable()[(x & 0xFF) as int] ^ (x >> 8)
  {
    match x & 0xFF
    case 200 => assert CrcTable()[200] == TableRows[12][8] == 0x95bf4a82;
    case 201 => assert CrcTable()[201] == TableRows[12][9] == 0xe2b87a14;
    case 202 => assert CrcTable()[202] == TableRows[12][10] == 0x7bb12bae;
    case 203 => assert CrcTable()[203] == TableRows[12][11] == 0x0cb61b38;
    case 204 => assert CrcTable()[204] == TableRows[12][12] == 0x92d28e9b;
    case 205 => assert CrcTable()[205] == TableRows[12][13] == 0xe5d5be0d;
    case 206 => assert CrcTable()[206] == TableRows[12][14] == 0x7cdcefb7;
    case 207 => assert CrcTable()[207] == TableRows[12][15] == 0x0bdbdf21;
  }

  /** Entries 208 to 215 of the table are eight shifts of their index. */
  lemma ByteShiftEntries26(x: bv32)
    requires 208 <= x & 0xFF < 216
    ensures ByteShift(x) == CrcTable()[(x & 0xFF) as int] ^ (x >> 8)
  {
    match x & 0xFF
    case 208 => assert CrcTable()[208] == TableRows[13][0] == 0x86d3d2d4;
    case 209 => assert CrcTable()[209] == TableRows[13][1] == 0xf1d4e242;
    case 210 => assert CrcTable()[210] == TableRows[13][2] == 0x68ddb3f8;
    case 211 => assert CrcTable()[211] == TableRows[13][3] == 0x1fda836e;
    case 212 => assert CrcTable()[212] == TableRows[13][4] == 0x81be16cd;
    case 213 => assert CrcTable()[213] == TableRows[13][5] == 0xf6b9265b;
    case 214 => assert CrcTable()[214] == TableRows[13][6] == 0x6fb077e1;
    case 215 => assert CrcTable()[215] == TableRows[13][7] == 0x18b74777;
  }

  /** Entries 216 to 223 of the table are eight shifts of their index. */
  lemma ByteShiftEntries27(x: bv32)
    requires 216 <= x & 0xFF < 224
    ensures ByteShift(x) == CrcTable()[(x & 0xFF) as int] ^ (x >> 8)
  {
    match x & 0xFF
    case 216 => assert CrcTable()[216] == TableRows[13][8] == 0x88085ae6;
    case 217 => assert CrcTable()[217] == TableRows[13][9] == 0xff0f6a70;
    case 218 => assert CrcTable()[218] == TableRows[13][10] == 0x66063bca;
    case 219 => assert CrcTable()[219] == TableRows[13][11] == 0x11010b5c;
    case 220 => assert CrcTable()[220] == TableRows[13][12] == 0x8f659eff;
    case 221 => assert CrcTable()[221] == TableRows[13][13] == 0xf862ae69;
    case 222 => assert CrcTable()[222] == TableRows[13][14] == 0x616bffd3;
    case 223 => assert CrcTable()[223] == TableRows[13][15] == 0x166ccf45;
  }

  /** Entries 224 to 231 of the table are eight shifts of their index. */
  lemma ByteShiftEntries28(x: bv32)
    requires 224 <= x & 0xFF < 232
    ensures ByteShift(x) == CrcTable()[(x & 0xFF) as int] ^ (x >> 8)
  {
    match x & 0xFF
    case 224 => assert CrcTable()[224] == TableRows[14][0] == 0xa00ae278;
    case 225 => assert CrcTable()[225] == TableRows[14][1] == 0xd70dd2ee;
    case 226 => assert CrcTable()[226] == TableRows[14][2] == 0x4e048354;
    case 227 => assert CrcTable()[227] == TableRows[14][3] == 0x3903b3c2;
    case 228 => assert CrcTable()[228] == TableRows[14][4] == 0xa7672661;
    case 229 => assert CrcTable()[229] == TableRows[14][5] == 0xd06016f7;
    case 230 => assert CrcTable()[230] == TableRows[14][6] == 0x4969474d;
    case 231 => assert CrcTable()[231] == TableRows[14][7] == 0x3e6e77db;
  }

  /** Entries 232 to 239 of the table are eight shifts of their index. */
  lemma ByteShiftEntries29(x: bv32)
    requires 232 <= x & 0xFF < 240
    ensures ByteShift(x) == CrcTable()[(x & 0xFF) as int] ^ (x >> 8)
  {
    match x & 0xFF
    case 232 => assert CrcTable()[232] == TableRows[14][8] == 0xaed16a4a;
    case 233 => assert CrcTable()[233] == TableRows[14][9] == 0xd9d65adc;
    case 234 => assert CrcTable()[234] == TableRows[14][10] == 0x40df0b66;
    case 235 => assert CrcTable()[235] == TableRows[14][11] == 0x37d83bf0;
    case 236 => assert CrcTable()[236] == TableRows[14][12] == 0xa9bcae53;
    case 237 => assert CrcTable()[237] == TableRows[14][13] == 0xdebb9ec5;
    case 238 => assert CrcTable()[238] == TableRows[14][14] == 0x47b2cf7f;
    case 239 => assert CrcTable()[239] == TableRows[14][15] == 0x30b5ffe9;
  }

  /** Entries 240 to 247 of the table are eight shifts of their index. */
  lemma ByteShiftEntries30(x: bv32)
    requires 240 <= x & 0xFF < 248
    ensures ByteShift(x) == CrcTable()[(x & 0xFF) as int] ^ (x >> 8)
  {
    match x & 0xFF
    case 240 => assert CrcTable()[240] == TableRows[15][0] == 0xbdbdf21c;
    case 241 => assert CrcTable()[241] == TableRows[15][1] == 0xcabac28a;
    case 242 => assert CrcTable()[242] == TableRows[15][2] == 0x53b39330;
    case 243 => assert CrcTable()[243] == TableRows[15][3] == 0x24b4a3a6;
    case 244 => assert CrcTable()[244] == TableRows[15][4] == 0xbad03605;
    case 245 => assert CrcTable()[245] == TableRows[15][5] == 0xcdd70693;
    case 246 => assert CrcTable()[246] == TableRows[15][6] == 0x54de5729;
    case 247 => assert CrcTable()[247] == TableRows[15][7] == 0x23d967bf;
  }

  /** Entries 248 to 255 of the table are eight shifts of their index. */
  lemma ByteShiftEntries31(x: bv32)
    requires 248 <= x & 0xFF < 256
    ensures ByteShift(x) == CrcTable()[(x & 0xFF) as int] ^ (x >> 8)
  {
    match x & 0xFF
    case 248 => assert CrcTable()[248] == TableRows[15][8] == 0xb3667a2e;
    case 249 => assert CrcTable()[249] == TableRows[15][9] == 0xc4614ab8;
    case 250 => assert CrcTable()[250] == TableRows[15][10] == 0x5d681b02;
    case 251 => assert CrcTable()[251] == TableRows[15][11] == 0x2a6f2b94;
    case 252 => assert CrcTable()[252] == TableRows[15][12] == 0xb40bbe37;
    case 253 => assert CrcTable()[253] == TableRows[15][13] == 0xc30c8ea1;
    case 254 => assert CrcTable()[254] == TableRows[15][14] == 0x5a05df1b;
    case 255 => assert CrcTable()[255] == TableRows[15][15] == 0x2d02ef8d;
  }
}
