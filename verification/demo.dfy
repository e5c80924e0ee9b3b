/**
 *  Known answers: the packets the demo program feeds to its decoder.
 *
 *  Each demo packet is a 112-character hex string in `main`. The model holds
 *  the 56 bytes each string stands for, grouped as the check reads them: the
 *  two header bytes, the 50 covered bytes in five runs of ten, and the four
 *  bytes of the stored CRC. The CRC of the covered bytes is worked out one
 *  run at a time, through the register the bit-by-bit CRC keeps between
 *  bytes; the registers between runs are listed with each packet.
 */

module Demo {
  import opened Bytes
  import opened Crc32
  import opened Crc32Properties
  import opened Packet
  import opened Validator
  import HexString
  import Bitfields

  /** A demo packet as the check reads it. */
  datatype DemoPacket = DemoPacket(header: seq<byte>, body: seq<seq<byte>>, stored: seq<byte>)
  {
    predicate WellFormed()
    {
      && |header| == 2 && |stored| == 4 && |body| == 5
      && |body[0]| == 10 && |body[1]| == 10 && |body[2]| == 10 && |body[3]| == 10 && |body[4]| == 10
    }
  }

  function Flatten(runs: seq<seq<byte>>): (s: seq<byte>)
    ensures runs == [] ==> s == []
  {
    if runs == [] then [] else runs[0] + Flatten(runs[1..])
  }

  lemma FlattenCons(runs: seq<seq<byte>>)
    requires runs != []
    ensures Flatten(runs) == runs[0] + Flatten(runs[1..])
  {
  }

  lemma FlattenFive(runs: seq<seq<byte>>)
    requires |runs| == 5
    requires |runs[0]| == 10 && |runs[1]| == 10 && |runs[2]| == 10 && |runs[3]| == 10 && |runs[4]| == 10
    ensures Flatten(runs) == runs[0] + runs[1] + runs[2] + runs[3] + runs[4]
    ensures |Flatten(runs)| == 50
  {
    var r1, r2, r3, r4 := runs[1..], runs[2..], runs[3..], runs[4..];
    assert r1[1..] == r2 && r2[1..] == r3 && r3[1..] == r4 && r4[1..] == [];
    FlattenCons(r4);
    FlattenCons(r3);
    FlattenCons(r2);
    FlattenCons(r1);
    FlattenCons(runs);
  }

  /** The 56 bytes of a demo packet. */
  function PacketBytes(d: DemoPacket): (s: seq<byte>)
    requires d.WellFormed()
    ensures |s| == PacketSize
  {
    FlattenFive(d.body);
    d.header + Flatten(d.body) + d.stored
  }

  /** Feeding runs of bytes one after the other goes through the listed registers. */
  lemma {:induction false} RegisterOfRuns(runs: seq<seq<byte>>, regs: seq<bv32>)
    requires |regs| == |runs| + 1
    requires forall i :: 0 <= i < |runs| ==> BitwiseRegister(regs[i], runs[i]) == regs[i + 1]
    ensures BitwiseRegister(regs[0], Flatten(runs)) == regs[|runs|]
    decreases |runs|
  {
    if runs != [] {
      RegisterOfRuns(runs[1..], regs[1..]);
      BitwiseRegisterAppend(regs[0], runs[0], Flatten(runs[1..]));
    }
  }

  /** Where the parts of a demo packet sit among its 56 bytes. */
  lemma PartsOfPacket<T>(s: seq<T>, header: seq<T>, body: seq<T>, stored: seq<T>)
    requires s == header + body + stored && |header| == 2 && |body| == 50 && |stored| == 4
    ensures s[0] == header[0] && s[1] == header[1]
    ensures s[CoveredStart..CrcOffset] == body && s[CrcOffset..CrcOffset + 4] == stored
  {
  }

  /** The five runs of a demo packet, each taking one listed register to the next. */
  lemma RunsOfDemo(d: DemoPacket, regs: seq<bv32>)
    requires d.WellFormed() && |regs| == 6
    requires BitwiseRegister(regs[0], d.body[0]) == regs[1] && BitwiseRegister(regs[1], d.body[1]) == regs[2]
    requires BitwiseRegister(regs[2], d.body[2]) == regs[3] && BitwiseRegister(regs[3], d.body[3]) == regs[4]
    requires BitwiseRegister(regs[4], d.body[4]) == regs[5]
    ensures forall i :: 0 <= i < 5 ==> BitwiseRegister(regs[i], d.body[i]) == regs[i + 1]
  {
    forall i | 0 <= i < 5
      ensures BitwiseRegister(regs[i], d.body[i]) == regs[i + 1]
    {
      if i == 0 {
      } else if i == 1 {
      } else if i == 2 {
      } else if i == 3 {
      } else {
        assert i == 4;
      }
    }
  }

  /** The check of a demo packet in terms of its parts and the registers its runs leave. */
  lemma CheckOfDemo(d: DemoPacket, regs: seq<bv32>)
    requires d.WellFormed()
    requires |regs| == 6 && regs[0] == Initial
    requires BitwiseRegister(regs[0], d.body[0]) == regs[1] && BitwiseRegister(regs[1], d.body[1]) == regs[2]
    requires BitwiseRegister(regs[2], d.body[2]) == regs[3] && BitwiseRegister(regs[3], d.body[3]) == regs[4]
    requires BitwiseRegister(regs[4], d.body[4]) == regs[5]
    ensures CheckProtBuffer(PacketBytes(d)) ==
      if d.header != [0x41, 0x31] then BadHeader
      else if regs[5] ^ Initial != ReadLe32(d.stored, 0) then BadCrc
      else Ok
  {
    var s, body := PacketBytes(d), Flatten(d.body);
    FlattenFive(d.body);
    PartsOfPacket(s, d.header, body, d.stored);
    assert HeaderBytesOk(s) <==> d.header == [0x41, 0x31];
    assert ReadLe32(s, CrcOffset) == ReadLe32(d.stored, 0) by {
      ReadLe32Window(s, CrcOffset, d.stored, 0);
    }
    assert Crc32Bitwise(body) == regs[5] ^ Initial by {
      RunsOfDemo(d, regs);
      RegisterOfRuns(d.body, regs);
    }
  }

  /** The string at pistart.c:61. */
  const Text61: string := "41310b31000000002edbffff65a3ffff127f1300920f0000fcecffffefddffff560efefffed4ffff560e0d006847f50100000000118b05a7"
  const Packet61: DemoPacket := DemoPacket(
      [0x41, 0x31],
      [
        [0x0B, 0x31, 0x00, 0x00, 0x00, 0x00, 0x2E, 0xDB, 0xFF, 0xFF],
        [0x65, 0xA3, 0xFF, 0xFF, 0x12, 0x7F, 0x13, 0x00, 0x92, 0x0F],
        [0x00, 0x00, 0xFC, 0xEC, 0xFF, 0xFF, 0xEF, 0xDD, 0xFF, 0xFF],
        [0x56, 0x0E, 0xFE, 0xFF, 0xFE, 0xD4, 0xFF, 0xFF, 0x56, 0x0E],
        [0x0D, 0x00, 0x68, 0x47, 0xF5, 0x01, 0x00, 0x00, 0x00, 0x00]
      ],
      [0x11, 0x8B, 0x05, 0xA7])

  /** 112 characters, two for each byte of a packet. */
  lemma Text61Length()
    ensures |Text61| == 2 * PacketSize
    ensures HexString.HexDigits(Text61) ==> |HexString.HexToBytes(Text61)| == PacketSize
  {
  }
  const Registers61: seq<bv32> := [0xFFFF_FFFF, 0xA2C8_A8CC, 0xBEEA_B423, 0x24B7_60C2, 0xFBDE_B8E5, 0x58FA_74EE]

  lemma Run61_0()
    ensures BitwiseRegister(Registers61[0], Packet61.body[0]) == Registers61[1]
  {
  }

  lemma Run61_1()
    ensures BitwiseRegister(Registers61[1], Packet61.body[1]) == Registers61[2]
  {
  }

  lemma Run61_2()
    ensures BitwiseRegister(Registers61[2], Packet61.body[2]) == Registers61[3]
  {
  }

  lemma Run61_3()
    ensures BitwiseRegister(Registers61[3], Packet61.body[3]) == Registers61[4]
  {
  }

  lemma Run61_4()
    ensures BitwiseRegister(Registers61[4], Packet61.body[4]) == Registers61[5]
  {
  }

  lemma Packet61Accepted()
    ensures CheckProtBuffer(PacketBytes(Packet61)) == Ok
  {
    Run61_0(); Run61_1(); Run61_2(); Run61_3(); Run61_4();
    assert Packet61.header == [0x41, 0x31];
    assert ReadLe32(Packet61.stored, 0) == Registers61[5] ^ Initial;
    CheckOfDemo(Packet61, Registers61);
  }

  /** The string at pistart.c:62. */
  const Text62: string := "41310c310000000021d7ffffefacffffec911300f8940000a6fbffff4decffff560efefffed4ffff560e0d006847f501000000007d162721"
  const Packet62: DemoPacket := DemoPacket(
      [0x41, 0x31],
      [
        [0x0C, 0x31, 0x00, 0x00, 0x00, 0x00, 0x21, 0xD7, 0xFF, 0xFF],
        [0xEF, 0xAC, 0xFF, 0xFF, 0xEC, 0x91, 0x13, 0x00, 0xF8, 0x94],
        [0x00, 0x00, 0xA6, 0xFB, 0xFF, 0xFF, 0x4D, 0xEC, 0xFF, 0xFF],
        [0x56, 0x0E, 0xFE, 0xFF, 0xFE, 0xD4, 0xFF, 0xFF, 0x56, 0x0E],
        [0x0D, 0x00, 0x68, 0x47, 0xF5, 0x01, 0x00, 0x00, 0x00, 0x00]
      ],
      [0x7D, 0x16, 0x27, 0x21])

  /** 112 characters, two for each byte of a packet. */
  lemma Text62Length()
    ensures |Text62| == 2 * PacketSize
    ensures HexString.HexDigits(Text62) ==> |HexString.HexToBytes(Text62)| == PacketSize
  {
  }
  const Registers62: seq<bv32> := [0xFFFF_FFFF, 0x116D_5A87, 0xFDAD_8192, 0xD3CA_B22F, 0x95BF_D78D, 0xDED8_E982]

  lemma Run62_0()
    ensures BitwiseRegister(Registers62[0], Packet62.body[0]) == Registers62[1]
  {
  }

  lemma Run62_1()
    ensures BitwiseRegister(Registers62[1], Packet62.body[1]) == Registers62[2]
  {
  }

  lemma Run62_2()
    ensures BitwiseRegister(Registers62[2], Packet62.body[2]) == Registers62[3]
  {
  }

  lemma Run62_3()
    ensures BitwiseRegister(Registers62[3], Packet62.body[3]) == Registers62[4]
  {
  }

  lemma Run62_4()
    ensures BitwiseRegister(Registers62[4], Packet62.body[4]) == Registers62[5]
  {
  }

  lemma Packet62Accepted()
    ensures CheckProtBuffer(PacketBytes(Packet62)) == Ok
  {
    Run62_0(); Run62_1(); Run62_2(); Run62_3(); Run62_4();
    assert Packet62.header == [0x41, 0x31];
    assert ReadLe32(Packet62.stored, 0) == Registers62[5] ^ Initial;
    CheckOfDemo(Packet62, Registers62);
  }

  /** The string at pistart.c:63. */
  const Text63: string := "41310d3100000000c3d9ffff70c2ffffec9413006494000020f1ffffea100000560efefffed4ffff560e0d006847f5010000000091f15ddd"
  const Packet63: DemoPacket := DemoPacket(
      [0x41, 0x31],
      [
        [0x0D, 0x31, 0x00, 0x00, 0x00, 0x00, 0xC3, 0xD9, 0xFF, 0xFF],
        [0x70, 0xC2, 0xFF, 0xFF, 0xEC, 0x94, 0x13, 0x00, 0x64, 0x94],
        [0x00, 0x00, 0x20, 0xF1, 0xFF, 0xFF, 0xEA, 0x10, 0x00, 0x00],
        [0x56, 0x0E, 0xFE, 0xFF, 0xFE, 0xD4, 0xFF, 0xFF, 0x56, 0x0E],
        [0x0D, 0x00, 0x68, 0x47, 0xF5, 0x01, 0x00, 0x00, 0x00, 0x00]
      ],
      [0x91, 0xF1, 0x5D, 0xDD])

  /** 112 characters, two for each byte of a packet. */
  lemma Text63Length()
    ensures |Text63| == 2 * PacketSize
    ensures HexString.HexDigits(Text63) ==> |HexString.HexToBytes(Text63)| == PacketSize
  {
  }
  const Registers63: seq<bv32> := [0xFFFF_FFFF, 0x8847_9500, 0x3DF9_D136, 0xFF3A_51A1, 0x99BE_14B3, 0x22A2_0E6E]

  lemma Run63_0()
    ensures BitwiseRegister(Registers63[0], Packet63.body[0]) == Registers63[1]
  {
  }

  lemma Run63_1()
    ensures BitwiseRegister(Registers63[1], Packet63.body[1]) == Registers63[2]
  {
  }

  lemma Run63_2()
    ensures BitwiseRegister(Registers63[2], Packet63.body[2]) == Registers63[3]
  {
  }

  lemma Run63_3()
    ensures BitwiseRegister(Registers63[3], Packet63.body[3]) == Registers63[4]
  {
  }

  lemma Run63_4()
    ensures BitwiseRegister(Registers63[4], Packet63.body[4]) == Registers63[5]
  {
  }

  lemma Packet63Accepted()
    ensures CheckProtBuffer(PacketBytes(Packet63)) == Ok
  {
    Run63_0(); Run63_1(); Run63_2(); Run63_3(); Run63_4();
    assert Packet63.header == [0x41, 0x31];
    assert ReadLe32(Packet63.stored, 0) == Registers63[5] ^ Initial;
    CheckOfDemo(Packet63, Registers63);
  }

  /** The string at pistart.c:64. */
  const Text64: string := "41310e310000000073ddffff34adffff02a313002b0400003a000000ad0100006811feffecd1ffff7b140d008846f50100000000c6f189c3"
  const Packet64: DemoPacket := DemoPacket(
      [0x41, 0x31],
      [
        [0x0E, 0x31, 0x00, 0x00, 0x00, 0x00, 0x73, 0xDD, 0xFF, 0xFF],
        [0x34, 0xAD, 0xFF, 0xFF, 0x02, 0xA3, 0x13, 0x00, 0x2B, 0x04],
        [0x00, 0x00, 0x3A, 0x00, 0x00, 0x00, 0xAD, 0x01, 0x00, 0x00],
        [0x68, 0x11, 0xFE, 0xFF, 0xEC, 0xD1, 0xFF, 0xFF, 0x7B, 0x14],
        [0x0D, 0x00, 0x88, 0x46, 0xF5, 0x01, 0x00, 0x00, 0x00, 0x00]
      ],
      [0xC6, 0xF1, 0x89, 0xC3])

  /** 112 characters, two for each byte of a packet. */
  lemma Text64Length()
    ensures |Text64| == 2 * PacketSize
    ensures HexString.HexDigits(Text64) ==> |HexString.HexToBytes(Text64)| == PacketSize
  {
  }
  const Registers64: seq<bv32> := [0xFFFF_FFFF, 0x790B_C845, 0xD666_6A79, 0xB748_DE71, 0xB827_49C9, 0x3C76_0E39]

  lemma Run64_0()
    ensures BitwiseRegister(Registers64[0], Packet64.body[0]) == Registers64[1]
  {
  }

  lemma Run64_1()
    ensures BitwiseRegister(Registers64[1], Packet64.body[1]) == Registers64[2]
  {
  }

  lemma Run64_2()
    ensures BitwiseRegister(Registers64[2], Packet64.body[2]) == Registers64[3]
  {
  }

  lemma Run64_3()
    ensures BitwiseRegister(Registers64[3], Packet64.body[3]) == Registers64[4]
  {
  }

  lemma Run64_4()
    ensures BitwiseRegister(Registers64[4], Packet64.body[4]) == Registers64[5]
  {
  }

  lemma Packet64Accepted()
    ensures CheckProtBuffer(PacketBytes(Packet64)) == Ok
  {
    Run64_0(); Run64_1(); Run64_2(); Run64_3(); Run64_4();
    assert Packet64.header == [0x41, 0x31];
    assert ReadLe32(Packet64.stored, 0) == Registers64[5] ^ Initial;
    CheckOfDemo(Packet64, Registers64);
  }

  /** The string at pistart.c:65. */
  const Text65: string := "41310f3100000000e7d8ffffb698fffff19a130053b8ffff91200000fce0ffff6811feffecd1ffff7b140d008846f501000000000db29a51"
  const Packet65: DemoPacket := DemoPacket(
      [0x41, 0x31],
      [
        [0x0F, 0x31, 0x00, 0x00, 0x00, 0x00, 0xE7, 0xD8, 0xFF, 0xFF],
        [0xB6, 0x98, 0xFF, 0xFF, 0xF1, 0x9A, 0x13, 0x00, 0x53, 0xB8],
        [0xFF, 0xFF, 0x91, 0x20, 0x00, 0x00, 0xFC, 0xE0, 0xFF, 0xFF],
        [0x68, 0x11, 0xFE, 0xFF, 0xEC, 0xD1, 0xFF, 0xFF, 0x7B, 0x14],
        [0x0D, 0x00, 0x88, 0x46, 0xF5, 0x01, 0x00, 0x00, 0x00, 0x00]
      ],
      [0x0D, 0xB2, 0x9A, 0x51])

  /** 112 characters, two for each byte of a packet. */
  lemma Text65Length()
    ensures |Text65| == 2 * PacketSize
    ensures HexString.HexDigits(Text65) ==> |HexString.HexToBytes(Text65)| == PacketSize
  {
  }
  const Registers65: seq<bv32> := [0xFFFF_FFFF, 0xA220_1763, 0xCE13_5F01, 0x73D4_0A6B, 0x813D_52FB, 0xAE65_4DF2]

  lemma Run65_0()
    ensures BitwiseRegister(Registers65[0], Packet65.body[0]) == Registers65[1]
  {
  }

  lemma Run65_1()
    ensures BitwiseRegister(Registers65[1], Packet65.body[1]) == Registers65[2]
  {
  }

  lemma Run65_2()
    ensures BitwiseRegister(Registers65[2], Packet65.body[2]) == Registers65[3]
  {
  }

  lemma Run65_3()
    ensures BitwiseRegister(Registers65[3], Packet65.body[3]) == Registers65[4]
  {
  }

  lemma Run65_4()
    ensures BitwiseRegister(Registers65[4], Packet65.body[4]) == Registers65[5]
  {
  }

  lemma Packet65Accepted()
    ensures CheckProtBuffer(PacketBytes(Packet65)) == Ok
  {
    Run65_0(); Run65_1(); Run65_2(); Run65_3(); Run65_4();
    assert Packet65.header == [0x41, 0x31];
    assert ReadLe32(Packet65.stored, 0) == Registers65[5] ^ Initial;
    CheckOfDemo(Packet65, Registers65);
  }

  /** The string at pistart.c:66. */
  const Text66: string := "413110310000000070c8ffff31b1ffffd08413004012000059120000f7faffff6811feffecd1ffff7b140d008846f5010000000044c014f1"
  const Packet66: DemoPacket := DemoPacket(
      [0x41, 0x31],
      [
        [0x10, 0x31, 0x00, 0x00, 0x00, 0x00, 0x70, 0xC8, 0xFF, 0xFF],
        [0x31, 0xB1, 0xFF, 0xFF, 0xD0, 0x84, 0x13, 0x00, 0x40, 0x12],
        [0x00, 0x00, 0x59, 0x12, 0x00, 0x00, 0xF7, 0xFA, 0xFF, 0xFF],
        [0x68, 0x11, 0xFE, 0xFF, 0xEC, 0xD1, 0xFF, 0xFF, 0x7B, 0x14],
        [0x0D, 0x00, 0x88, 0x46, 0xF5, 0x01, 0x00, 0x00, 0x00, 0x00]
      ],
      [0x44, 0xC0, 0x14, 0xF1])

  /** 112 characters, two for each byte of a packet. */
  lemma Text66Length()
    ensures |Text66| == 2 * PacketSize
    ensures HexString.HexDigits(Text66) ==> |HexString.HexToBytes(Text66)| == PacketSize
  {
  }
  const Registers66: seq<bv32> := [0xFFFF_FFFF, 0x4834_B76B, 0x0806_8905, 0x7EB3_955D, 0x4A05_E509, 0x0EEB_3FBB]

  lemma Run66_0()
    ensures BitwiseRegister(Registers66[0], Packet66.body[0]) == Registers66[1]
  {
  }

  lemma Run66_1()
    ensures BitwiseRegister(Registers66[1], Packet66.body[1]) == Registers66[2]
  {
  }

  lemma Run66_2()
    ensures BitwiseRegister(Registers66[2], Packet66.body[2]) == Registers66[3]
  {
  }

  lemma Run66_3()
    ensures BitwiseRegister(Registers66[3], Packet66.body[3]) == Registers66[4]
  {
  }

  lemma Run66_4()
    ensures BitwiseRegister(Registers66[4], Packet66.body[4]) == Registers66[5]
  {
  }

  lemma Packet66Accepted()
    ensures CheckProtBuffer(PacketBytes(Packet66)) == Ok
  {
    Run66_0(); Run66_1(); Run66_2(); Run66_3(); Run66_4();
    assert Packet66.header == [0x41, 0x31];
    assert ReadLe32(Packet66.stored, 0) == Registers66[5] ^ Initial;
    CheckOfDemo(Packet66, Registers66);
  }

  /** The string at pistart.c:67. */
  const Text67: string := "4131113100000000f9d9ffffc2a9ffffdba613001028000058e0ffffae2b00006811feffecd1ffff7b140d008846f501000000009a05822b"
  const Packet67: DemoPacket := DemoPacket(
      [0x41, 0x31],
      [
        [0x11, 0x31, 0x00, 0x00, 0x00, 0x00, 0xF9, 0xD9, 0xFF, 0xFF],
        [0xC2, 0xA9, 0xFF, 0xFF, 0xDB, 0xA6, 0x13, 0x00, 0x10, 0x28],
        [0x00, 0x00, 0x58, 0xE0, 0xFF, 0xFF, 0xAE, 0x2B, 0x00, 0x00],
        [0x68, 0x11, 0xFE, 0xFF, 0xEC, 0xD1, 0xFF, 0xFF, 0x7B, 0x14],
        [0x0D, 0x00, 0x88, 0x46, 0xF5, 0x01, 0x00, 0x00, 0x00, 0x00]
      ],
      [0x9A, 0x05, 0x82, 0x2B])

  /** 112 characters, two for each byte of a packet. */
  lemma Text67Length()
    ensures |Text67| == 2 * PacketSize
    ensures HexString.HexDigits(Text67) ==> |HexString.HexToBytes(Text67)| == PacketSize
  {
  }
  const Registers67: seq<bv32> := [0xFFFF_FFFF, 0x2A43_ECA3, 0x68C7_020C, 0xCE9F_61B7, 0x2F73_D29E, 0xD47D_FA65]

  lemma Run67_0()
    ensures BitwiseRegister(Registers67[0], Packet67.body[0]) == Registers67[1]
  {
  }

  lemma Run67_1()
    ensures BitwiseRegister(Registers67[1], Packet67.body[1]) == Registers67[2]
  {
  }

  lemma Run67_2()
    ensures BitwiseRegister(Registers67[2], Packet67.body[2]) == Registers67[3]
  {
  }

  lemma Run67_3()
    ensures BitwiseRegister(Registers67[3], Packet67.body[3]) == Registers67[4]
  {
  }

  lemma Run67_4()
    ensures BitwiseRegister(Registers67[4], Packet67.body[4]) == Registers67[5]
  {
  }

  lemma Packet67Accepted()
    ensures CheckProtBuffer(PacketBytes(Packet67)) == Ok
  {
    Run67_0(); Run67_1(); Run67_2(); Run67_3(); Run67_4();
    assert Packet67.header == [0x41, 0x31];
    assert ReadLe32(Packet67.stored, 0) == Registers67[5] ^ Initial;
    CheckOfDemo(Packet67, Registers67);
  }

  /** The string at pistart.c:68. */
  const Text68: string := "413112310000000065f2ffffeeadffff5b911300c4fdffff11e4ffff460200006811feffecd1ffff7b140d008846f50100000000cf7d7fc4"
  const Packet68: DemoPacket := DemoPacket(
      [0x41, 0x31],
      [
        [0x12, 0x31, 0x00, 0x00, 0x00, 0x00, 0x65, 0xF2, 0xFF, 0xFF],
        [0xEE, 0xAD, 0xFF, 0xFF, 0x5B, 0x91, 0x13, 0x00, 0xC4, 0xFD],
        [0xFF, 0xFF, 0x11, 0xE4, 0xFF, 0xFF, 0x46, 0x02, 0x00, 0x00],
        [0x68, 0x11, 0xFE, 0xFF, 0xEC, 0xD1, 0xFF, 0xFF, 0x7B, 0x14],
        [0x0D, 0x00, 0x88, 0x46, 0xF5, 0x01, 0x00, 0x00, 0x00, 0x00]
      ],
      [0xCF, 0x7D, 0x7F, 0xC4])

  /** 112 characters, two for each byte of a packet. */
  lemma Text68Length()
    ensures |Text68| == 2 * PacketSize
    ensures HexString.HexDigits(Text68) ==> |HexString.HexToBytes(Text68)| == PacketSize
  {
  }
  const Registers68: seq<bv32> := [0xFFFF_FFFF, 0x02FA_A0BD, 0x4A3C_1D6F, 0x33D7_41FF, 0xDF3E_9528, 0x3B80_8230]

  lemma Run68_0()
    ensures BitwiseRegister(Registers68[0], Packet68.body[0]) == Registers68[1]
  {
  }

  lemma Run68_1()
    ensures BitwiseRegister(Registers68[1], Packet68.body[1]) == Registers68[2]
  {
  }

  lemma Run68_2()
    ensures BitwiseRegister(Registers68[2], Packet68.body[2]) == Registers68[3]
  {
  }

  lemma Run68_3()
    ensures BitwiseRegister(Registers68[3], Packet68.body[3]) == Registers68[4]
  {
  }

  lemma Run68_4()
    ensures BitwiseRegister(Registers68[4], Packet68.body[4]) == Registers68[5]
  {
  }

  lemma Packet68Accepted()
    ensures CheckProtBuffer(PacketBytes(Packet68)) == Ok
  {
    Run68_0(); Run68_1(); Run68_2(); Run68_3(); Run68_4();
    assert Packet68.header == [0x41, 0x31];
    assert ReadLe32(Packet68.stored, 0) == Registers68[5] ^ Initial;
    CheckOfDemo(Packet68, Registers68);
  }

  /** The string at pistart.c:69. */
  const Text69: string := "41311331000000001ac7ffff4ab0ffff8b8113004d240000862b0000e6e4ffff1f05feff48e1ffffb21d0d008846f501000000000c6ad8b4"
  const Packet69: DemoPacket := DemoPacket(
      [0x41, 0x31],
      [
        [0x13, 0x31, 0x00, 0x00, 0x00, 0x00, 0x1A, 0xC7, 0xFF, 0xFF],
        [0x4A, 0xB0, 0xFF, 0xFF, 0x8B, 0x81, 0x13, 0x00, 0x4D, 0x24],
        [0x00, 0x00, 0x86, 0x2B, 0x00, 0x00, 0xE6, 0xE4, 0xFF, 0xFF],
        [0x1F, 0x05, 0xFE, 0xFF, 0x48, 0xE1, 0xFF, 0xFF, 0xB2, 0x1D],
        [0x0D, 0x00, 0x88, 0x46, 0xF5, 0x01, 0x00, 0x00, 0x00, 0x00]
      ],
      [0x0C, 0x6A, 0xD8, 0xB4])

  /** 112 characters, two for each byte of a packet. */
  lemma Text69Length()
    ensures |Text69| == 2 * PacketSize
    ensures HexString.HexDigits(Text69) ==> |HexString.HexToBytes(Text69)| == PacketSize
  {
  }
  const Registers69: seq<bv32> := [0xFFFF_FFFF, 0xFCC4_5C32, 0x135A_B2F4, 0x56D2_38F9, 0xBABF_4F86, 0x4B27_95F3]

  lemma Run69_0()
    ensures BitwiseRegister(Registers69[0], Packet69.body[0]) == Registers69[1]
  {
  }

  lemma Run69_1()
    ensures BitwiseRegister(Registers69[1], Packet69.body[1]) == Registers69[2]
  {
  }

  lemma Run69_2()
    ensures BitwiseRegister(Registers69[2], Packet69.body[2]) == Registers69[3]
  {
  }

  lemma Run69_3()
    ensures BitwiseRegister(Registers69[3], Packet69.body[3]) == Registers69[4]
  {
  }

  lemma Run69_4()
    ensures BitwiseRegister(Registers69[4], Packet69.body[4]) == Registers69[5]
  {
  }

  lemma Packet69Accepted()
    ensures CheckProtBuffer(PacketBytes(Packet69)) == Ok
  {
    Run69_0(); Run69_1(); Run69_2(); Run69_3(); Run69_4();
    assert Packet69.header == [0x41, 0x31];
    assert ReadLe32(Packet69.stored, 0) == Registers69[5] ^ Initial;
    CheckOfDemo(Packet69, Registers69);
  }

  /** The string at pistart.c:70. */
  const Text70: string := "413114310000000073d1ffff9ba7ffffc19d1300ac4e00009c000000050700001f05feff48e1ffffb21d0d008846f50100000000ecdbe12f"
  const Packet70: DemoPacket := DemoPacket(
      [0x41, 0x31],
      [
        [0x14, 0x31, 0x00, 0x00, 0x00, 0x00, 0x73, 0xD1, 0xFF, 0xFF],
        [0x9B, 0xA7, 0xFF, 0xFF, 0xC1, 0x9D, 0x13, 0x00, 0xAC, 0x4E],
        [0x00, 0x00, 0x9C, 0x00, 0x00, 0x00, 0x05, 0x07, 0x00, 0x00],
        [0x1F, 0x05, 0xFE, 0xFF, 0x48, 0xE1, 0xFF, 0xFF, 0xB2, 0x1D],
        [0x0D, 0x00, 0x88, 0x46, 0xF5, 0x01, 0x00, 0x00, 0x00, 0x00]
      ],
      [0xEC, 0xDB, 0xE1, 0x2F])

  /** 112 characters, two for each byte of a packet. */
  lemma Text70Length()
    ensures |Text70| == 2 * PacketSize
    ensures HexString.HexDigits(Text70) ==> |HexString.HexToBytes(Text70)| == PacketSize
  {
  }
  const Registers70: seq<bv32> := [0xFFFF_FFFF, 0x409D_2000, 0x5DD4_CFA4, 0x4D26_D1AA, 0x60F1_97F9, 0xD01E_2413]

  lemma Run70_0()
    ensures BitwiseRegister(Registers70[0], Packet70.body[0]) == Registers70[1]
  {
  }

  lemma Run70_1()
    ensures BitwiseRegister(Registers70[1], Packet70.body[1]) == Registers70[2]
  {
  }

  lemma Run70_2()
    ensures BitwiseRegister(Registers70[2], Packet70.body[2]) == Registers70[3]
  {
  }

  lemma Run70_3()
    ensures BitwiseRegister(Registers70[3], Packet70.body[3]) == Registers70[4]
  {
  }

  lemma Run70_4()
    ensures BitwiseRegister(Registers70[4], Packet70.body[4]) == Registers70[5]
  {
  }

  lemma Packet70Accepted()
    ensures CheckProtBuffer(PacketBytes(Packet70)) == Ok
  {
    Run70_0(); Run70_1(); Run70_2(); Run70_3(); Run70_4();
    assert Packet70.header == [0x41, 0x31];
    assert ReadLe32(Packet70.stored, 0) == Registers70[5] ^ Initial;
    CheckOfDemo(Packet70, Registers70);
  }

  /** The string at pistart.c:71. */
  const Text71: string := "413115310000000068f9ffffb3befffff0951300cc590000deb4ffffb42500001f05feff48e1ffffb21d0d008846f501000000006d50cdbb"
  const Packet71: DemoPacket := DemoPacket(
      [0x41, 0x31],
      [
        [0x15, 0x31, 0x00, 0x00, 0x00, 0x00, 0x68, 0xF9, 0xFF, 0xFF],
        [0xB3, 0xBE, 0xFF, 0xFF, 0xF0, 0x95, 0x13, 0x00, 0xCC, 0x59],
        [0x00, 0x00, 0xDE, 0xB4, 0xFF, 0xFF, 0xB4, 0x25, 0x00, 0x00],
        [0x1F, 0x05, 0xFE, 0xFF, 0x48, 0xE1, 0xFF, 0xFF, 0xB2, 0x1D],
        [0x0D, 0x00, 0x88, 0x46, 0xF5, 0x01, 0x00, 0x00, 0x00, 0x00]
      ],
      [0x6D, 0x50, 0xCD, 0xBB])

  /** 112 characters, two for each byte of a packet. */
  lemma Text71Length()
    ensures |Text71| == 2 * PacketSize
    ensures HexString.HexDigits(Text71) ==> |HexString.HexToBytes(Text71)| == PacketSize
  {
  }
  const Registers71: seq<bv32> := [0xFFFF_FFFF, 0x1E19_8CF8, 0xBDD5_AD5C, 0xFC07_6B7E, 0x589F_D415, 0x4432_AF92]

  lemma Run71_0()
    ensures BitwiseRegister(Registers71[0], Packet71.body[0]) == Registers71[1]
  {
  }

  lemma Run71_1()
    ensures BitwiseRegister(Registers71[1], Packet71.body[1]) == Registers71[2]
  {
  }

  lemma Run71_2()
    ensures BitwiseRegister(Registers71[2], Packet71.body[2]) == Registers71[3]
  {
  }

  lemma Run71_3()
    ensures BitwiseRegister(Registers71[3], Packet71.body[3]) == Registers71[4]
  {
  }

  lemma Run71_4()
    ensures BitwiseRegister(Registers71[4], Packet71.body[4]) == Registers71[5]
  {
  }

  lemma Packet71Accepted()
    ensures CheckProtBuffer(PacketBytes(Packet71)) == Ok
  {
    Run71_0(); Run71_1(); Run71_2(); Run71_3(); Run71_4();
    assert Packet71.header == [0x41, 0x31];
    assert ReadLe32(Packet71.stored, 0) == Registers71[5] ^ Initial;
    CheckOfDemo(Packet71, Registers71);
  }

  /** The string at pistart.c:72. */
  const Text72: string := "413116310000000084caffff62baffff23961300fd05000087160000de3300001f05feff48e1ffffb21d0d008846f501000000002a6d678f"
  const Packet72: DemoPacket := DemoPacket(
      [0x41, 0x31],
      [
        [0x16, 0x31, 0x00, 0x00, 0x00, 0x00, 0x84, 0xCA, 0xFF, 0xFF],
        [0x62, 0xBA, 0xFF, 0xFF, 0x23, 0x96, 0x13, 0x00, 0xFD, 0x05],
        [0x00, 0x00, 0x87, 0x16, 0x00, 0x00, 0xDE, 0x33, 0x00, 0x00],
        [0x1F, 0x05, 0xFE, 0xFF, 0x48, 0xE1, 0xFF, 0xFF, 0xB2, 0x1D],
        [0x0D, 0x00, 0x88, 0x46, 0xF5, 0x01, 0x00, 0x00, 0x00, 0x00]
      ],
      [0x2A, 0x6D, 0x67, 0x8F])

  /** 112 characters, two for each byte of a packet. */
  lemma Text72Length()
    ensures |Text72| == 2 * PacketSize
    ensures HexString.HexDigits(Text72) ==> |HexString.HexToBytes(Text72)| == PacketSize
  {
  }
  const Registers72: seq<bv32> := [0xFFFF_FFFF, 0x4FAA_92B2, 0x1721_2BD6, 0x7858_93AC, 0xDE0A_C568, 0x7098_92D5]

  lemma Run72_0()
    ensures BitwiseRegister(Registers72[0], Packet72.body[0]) == Registers72[1]
  {
  }

  lemma Run72_1()
    ensures BitwiseRegister(Registers72[1], Packet72.body[1]) == Registers72[2]
  {
  }

  lemma Run72_2()
    ensures BitwiseRegister(Registers72[2], Packet72.body[2]) == Registers72[3]
  {
  }

  lemma Run72_3()
    ensures BitwiseRegister(Registers72[3], Packet72.body[3]) == Registers72[4]
  {
  }

  lemma Run72_4()
    ensures BitwiseRegister(Registers72[4], Packet72.body[4]) == Registers72[5]
  {
  }

  lemma Packet72Accepted()
    ensures CheckProtBuffer(PacketBytes(Packet72)) == Ok
  {
    Run72_0(); Run72_1(); Run72_2(); Run72_3(); Run72_4();
    assert Packet72.header == [0x41, 0x31];
    assert ReadLe32(Packet72.stored, 0) == Registers72[5] ^ Initial;
    CheckOfDemo(Packet72, Registers72);
  }

  /** The string at pistart.c:73. */
  const Text73: string := "4131173100000000c2c9ffff4da4fffffe9213007965ffffae300000331200001f05feff48e1ffffb21d0d008846f501000000007524328d"
  const Packet73: DemoPacket := DemoPacket(
      [0x41, 0x31],
      [
        [0x17, 0x31, 0x00, 0x00, 0x00, 0x00, 0xC2, 0xC9, 0xFF, 0xFF],
        [0x4D, 0xA4, 0xFF, 0xFF, 0xFE, 0x92, 0x13, 0x00, 0x79, 0x65],
        [0xFF, 0xFF, 0xAE, 0x30, 0x00, 0x00, 0x33, 0x12, 0x00, 0x00],
        [0x1F, 0x05, 0xFE, 0xFF, 0x48, 0xE1, 0xFF, 0xFF, 0xB2, 0x1D],
        [0x0D, 0x00, 0x88, 0x46, 0xF5, 0x01, 0x00, 0x00, 0x00, 0x00]
      ],
      [0x75, 0x24, 0x32, 0x8D])

  /** 112 characters, two for each byte of a packet. */
  lemma Text73Length()
    ensures |Text73| == 2 * PacketSize
    ensures HexString.HexDigits(Text73) ==> |HexString.HexToBytes(Text73)| == PacketSize
  {
  }
  const Registers73: seq<bv32> := [0xFFFF_FFFF, 0x1C51_4034, 0xE5DE_9481, 0x9E21_3771, 0x1EC2_0BE7, 0x72CD_DB8A]

  lemma Run73_0()
    ensures BitwiseRegister(Registers73[0], Packet73.body[0]) == Registers73[1]
  {
  }

  lemma Run73_1()
    ensures BitwiseRegister(Registers73[1], Packet73.body[1]) == Registers73[2]
  {
  }

  lemma Run73_2()
    ensures BitwiseRegister(Registers73[2], Packet73.body[2]) == Registers73[3]
  {
  }

  lemma Run73_3()
    ensures BitwiseRegister(Registers73[3], Packet73.body[3]) == Registers73[4]
  {
  }

  lemma Run73_4()
    ensures BitwiseRegister(Registers73[4], Packet73.body[4]) == Registers73[5]
  {
  }

  lemma Packet73Accepted()
    ensures CheckProtBuffer(PacketBytes(Packet73)) == Ok
  {
    Run73_0(); Run73_1(); Run73_2(); Run73_3(); Run73_4();
    assert Packet73.header == [0x41, 0x31];
    assert ReadLe32(Packet73.stored, 0) == Registers73[5] ^ Initial;
    CheckOfDemo(Packet73, Registers73);
  }

  /** The string at pistart.c:74. */
  const Text74: string := "41311831000000000ff0ffff1f96ffffca8b13000562ffff3fc9ffffc71400000c02feff48e1ffffb21d0d00a845f5010000000039f597aa"
  const Packet74: DemoPacket := DemoPacket(
      [0x41, 0x31],
      [
        [0x18, 0x31, 0x00, 0x00, 0x00, 0x00, 0x0F, 0xF0, 0xFF, 0xFF],
        [0x1F, 0x96, 0xFF, 0xFF, 0xCA, 0x8B, 0x13, 0x00, 0x05, 0x62],
        [0xFF, 0xFF, 0x3F, 0xC9, 0xFF, 0xFF, 0xC7, 0x14, 0x00, 0x00],
        [0x0C, 0x02, 0xFE, 0xFF, 0x48, 0xE1, 0xFF, 0xFF, 0xB2, 0x1D],
        [0x0D, 0x00, 0xA8, 0x45, 0xF5, 0x01, 0x00, 0x00, 0x00, 0x00]
      ],
      [0x39, 0xF5, 0x97, 0xAA])

  /** 112 characters, two for each byte of a packet. */
  lemma Text74Length()
    ensures |Text74| == 2 * PacketSize
    ensures HexString.HexDigits(Text74) ==> |HexString.HexToBytes(Text74)| == PacketSize
  {
  }
  const Registers74: seq<bv32> := [0xFFFF_FFFF, 0x42C7_F37D, 0x3E4E_C61F, 0xAA46_5FF2, 0xDAB1_E598, 0x5568_0AC6]

  lemma Run74_0()
    ensures BitwiseRegister(Registers74[0], Packet74.body[0]) == Registers74[1]
  {
  }

  lemma Run74_1()
    ensures BitwiseRegister(Registers74[1], Packet74.body[1]) == Registers74[2]
  {
  }

  lemma Run74_2()
    ensures BitwiseRegister(Registers74[2], Packet74.body[2]) == Registers74[3]
  {
  }

  lemma Run74_3()
    ensures BitwiseRegister(Registers74[3], Packet74.body[3]) == Registers74[4]
  {
  }

  lemma Run74_4()
    ensures BitwiseRegister(Registers74[4], Packet74.body[4]) == Registers74[5]
  {
  }

  lemma Packet74Accepted()
    ensures CheckProtBuffer(PacketBytes(Packet74)) == Ok
  {
    Run74_0(); Run74_1(); Run74_2(); Run74_3(); Run74_4();
    assert Packet74.header == [0x41, 0x31];
    assert ReadLe32(Packet74.stored, 0) == Registers74[5] ^ Initial;
    CheckOfDemo(Packet74, Registers74);
  }

  /** The string at pistart.c:75. */
  const Text75: string := "413119310000000049d5ffff269fffff548a1300c0ffffffdeeeffff391c00000c02feff48e1ffffb21d0d00a845f501000000006ee8c428"
  const Packet75: DemoPacket := DemoPacket(
      [0x41, 0x31],
      [
        [0x19, 0x31, 0x00, 0x00, 0x00, 0x00, 0x49, 0xD5, 0xFF, 0xFF],
        [0x26, 0x9F, 0xFF, 0xFF, 0x54, 0x8A, 0x13, 0x00, 0xC0, 0xFF],
        [0xFF, 0xFF, 0xDE, 0xEE, 0xFF, 0xFF, 0x39, 0x1C, 0x00, 0x00],
        [0x0C, 0x02, 0xFE, 0xFF, 0x48, 0xE1, 0xFF, 0xFF, 0xB2, 0x1D],
        [0x0D, 0x00, 0xA8, 0x45, 0xF5, 0x01, 0x00, 0x00, 0x00, 0x00]
      ],
      [0x6E, 0xE8, 0xC4, 0x28])

  /** 112 characters, two for each byte of a packet. */
  lemma Text75Length()
    ensures |Text75| == 2 * PacketSize
    ensures HexString.HexDigits(Text75) ==> |HexString.HexToBytes(Text75)| == PacketSize
  {
  }
  const Registers75: seq<bv32> := [0xFFFF_FFFF, 0x2DFC_1BA9, 0x5679_3420, 0x9125_277C, 0x9D06_EB17, 0xD73B_1791]

  lemma Run75_0()
    ensures BitwiseRegister(Registers75[0], Packet75.body[0]) == Registers75[1]
  {
  }

  lemma Run75_1()
    ensures BitwiseRegister(Registers75[1], Packet75.body[1]) == Registers75[2]
  {
  }

  lemma Run75_2()
    ensures BitwiseRegister(Registers75[2], Packet75.body[2]) == Registers75[3]
  {
  }

  lemma Run75_3()
    ensures BitwiseRegister(Registers75[3], Packet75.body[3]) == Registers75[4]
  {
  }

  lemma Run75_4()
    ensures BitwiseRegister(Registers75[4], Packet75.body[4]) == Registers75[5]
  {
  }

  lemma Packet75Accepted()
    ensures CheckProtBuffer(PacketBytes(Packet75)) == Ok
  {
    Run75_0(); Run75_1(); Run75_2(); Run75_3(); Run75_4();
    assert Packet75.header == [0x41, 0x31];
    assert ReadLe32(Packet75.stored, 0) == Registers75[5] ^ Initial;
    CheckOfDemo(Packet75, Registers75);
  }

  /** The string at pistart.c:76. */
  const Text76: string := "41311a3100000000cdccfffff0b3ffff049a1300c18200004b130000f4fbffff0c02feff48e1ffffb21d0d00a845f501000000006b2a26a8"
  const Packet76: DemoPacket := DemoPacket(
      [0x41, 0x31],
      [
        [0x1A, 0x31, 0x00, 0x00, 0x00, 0x00, 0xCD, 0xCC, 0xFF, 0xFF],
        [0xF0, 0xB3, 0xFF, 0xFF, 0x04, 0x9A, 0x13, 0x00, 0xC1, 0x82],
        [0x00, 0x00, 0x4B, 0x13, 0x00, 0x00, 0xF4, 0xFB, 0xFF, 0xFF],
        [0x0C, 0x02, 0xFE, 0xFF, 0x48, 0xE1, 0xFF, 0xFF, 0xB2, 0x1D],
        [0x0D, 0x00, 0xA8, 0x45, 0xF5, 0x01, 0x00, 0x00, 0x00, 0x00]
      ],
      [0x6B, 0x2A, 0x26, 0xA8])

  /** 112 characters, two for each byte of a packet. */
  lemma Text76Length()
    ensures |Text76| == 2 * PacketSize
    ensures HexString.HexDigits(Text76) ==> |HexString.HexToBytes(Text76)| == PacketSize
  {
  }
  const Registers76: seq<bv32> := [0xFFFF_FFFF, 0xB707_1939, 0x3D96_982D, 0xC7C7_4674, 0x4439_C095, 0x57D9_D594]

  lemma Run76_0()
    ensures BitwiseRegister(Registers76[0], Packet76.body[0]) == Registers76[1]
  {
  }

  lemma Run76_1()
    ensures BitwiseRegister(Registers76[1], Packet76.body[1]) == Registers76[2]
  {
  }

  lemma Run76_2()
    ensures BitwiseRegister(Registers76[2], Packet76.body[2]) == Registers76[3]
  {
  }

  lemma Run76_3()
    ensures BitwiseRegister(Registers76[3], Packet76.body[3]) == Registers76[4]
  {
  }

  lemma Run76_4()
    ensures BitwiseRegister(Registers76[4], Packet76.body[4]) == Registers76[5]
  {
  }

  lemma Packet76Accepted()
    ensures CheckProtBuffer(PacketBytes(Packet76)) == Ok
  {
    Run76_0(); Run76_1(); Run76_2(); Run76_3(); Run76_4();
    assert Packet76.header == [0x41, 0x31];
    assert ReadLe32(Packet76.stored, 0) == Registers76[5] ^ Initial;
    CheckOfDemo(Packet76, Registers76);
  }

  /** The string at pistart.c:77. */
  const Text77: string := "41311b310000000038e9ffff9cb5ffff99a61300c0a00000b4cdffff540d00000c02feff48e1ffffb21d0d00a845f501000000007a6dae1c"
  const Packet77: DemoPacket := DemoPacket(
      [0x41, 0x31],
      [
        [0x1B, 0x31, 0x00, 0x00, 0x00, 0x00, 0x38, 0xE9, 0xFF, 0xFF],
        [0x9C, 0xB5, 0xFF, 0xFF, 0x99, 0xA6, 0x13, 0x00, 0xC0, 0xA0],
        [0x00, 0x00, 0xB4, 0xCD, 0xFF, 0xFF, 0x54, 0x0D, 0x00, 0x00],
        [0x0C, 0x02, 0xFE, 0xFF, 0x48, 0xE1, 0xFF, 0xFF, 0xB2, 0x1D],
        [0x0D, 0x00, 0xA8, 0x45, 0xF5, 0x01, 0x00, 0x00, 0x00, 0x00]
      ],
      [0x7A, 0x6D, 0xAE, 0x1C])

  /** 112 characters, two for each byte of a packet. */
  lemma Text77Length()
    ensures |Text77| == 2 * PacketSize
    ensures HexString.HexDigits(Text77) ==> |HexString.HexToBytes(Text77)| == PacketSize
  {
  }
  const Registers77: seq<bv32> := [0xFFFF_FFFF, 0xD7FB_1099, 0xAA8C_D48C, 0xCFFC_A4FF, 0xA554_9A42, 0xE351_9285]

  lemma Run77_0()
    ensures BitwiseRegister(Registers77[0], Packet77.body[0]) == Registers77[1]
  {
  }

  lemma Run77_1()
    ensures BitwiseRegister(Registers77[1], Packet77.body[1]) == Registers77[2]
  {
  }

  lemma Run77_2()
    ensures BitwiseRegister(Registers77[2], Packet77.body[2]) == Registers77[3]
  {
  }

  lemma Run77_3()
    ensures BitwiseRegister(Registers77[3], Packet77.body[3]) == Registers77[4]
  {
  }

  lemma Run77_4()
    ensures BitwiseRegister(Registers77[4], Packet77.body[4]) == Registers77[5]
  {
  }

  lemma Packet77Accepted()
    ensures CheckProtBuffer(PacketBytes(Packet77)) == Ok
  {
    Run77_0(); Run77_1(); Run77_2(); Run77_3(); Run77_4();
    assert Packet77.header == [0x41, 0x31];
    assert ReadLe32(Packet77.stored, 0) == Registers77[5] ^ Initial;
    CheckOfDemo(Packet77, Registers77);
  }

  /** The string at pistart.c:78. */
  const Text78: string := "41311c31000000006cdbffff51b7ffff7d9b1300233a000090f9ffff7c0500000c02feff48e1ffffb21d0d00a845f5010000000065563f06"
  const Packet78: DemoPacket := DemoPacket(
      [0x41, 0x31],
      [
        [0x1C, 0x31, 0x00, 0x00, 0x00, 0x00, 0x6C, 0xDB, 0xFF, 0xFF],
        [0x51, 0xB7, 0xFF, 0xFF, 0x7D, 0x9B, 0x13, 0x00, 0x23, 0x3A],
        [0x00, 0x00, 0x90, 0xF9, 0xFF, 0xFF, 0x7C, 0x05, 0x00, 0x00],
        [0x0C, 0x02, 0xFE, 0xFF, 0x48, 0xE1, 0xFF, 0xFF, 0xB2, 0x1D],
        [0x0D, 0x00, 0xA8, 0x45, 0xF5, 0x01, 0x00, 0x00, 0x00, 0x00]
      ],
      [0x65, 0x56, 0x3F, 0x06])

  /** 112 characters, two for each byte of a packet. */
  lemma Text78Length()
    ensures |Text78| == 2 * PacketSize
    ensures HexString.HexDigits(Text78) ==> |HexString.HexToBytes(Text78)| == PacketSize
  {
  }
  const Registers78: seq<bv32> := [0xFFFF_FFFF, 0x56A7_A2EB, 0x0010_3CBC, 0xF790_132E, 0x254A_8DA0, 0xF9C0_A99A]

  lemma Run78_0()
    ensures BitwiseRegister(Registers78[0], Packet78.body[0]) == Registers78[1]
  {
  }

  lemma Run78_1()
    ensures BitwiseRegister(Registers78[1], Packet78.body[1]) == Registers78[2]
  {
  }

  lemma Run78_2()
    ensures BitwiseRegister(Registers78[2], Packet78.body[2]) == Registers78[3]
  {
  }

  lemma Run78_3()
    ensures BitwiseRegister(Registers78[3], Packet78.body[3]) == Registers78[4]
  {
  }

  lemma Run78_4()
    ensures BitwiseRegister(Registers78[4], Packet78.body[4]) == Registers78[5]
  {
  }

  lemma Packet78Accepted()
    ensures CheckProtBuffer(PacketBytes(Packet78)) == Ok
  {
    Run78_0(); Run78_1(); Run78_2(); Run78_3(); Run78_4();
    assert Packet78.header == [0x41, 0x31];
    assert ReadLe32(Packet78.stored, 0) == Registers78[5] ^ Initial;
    CheckOfDemo(Packet78, Registers78);
  }

  /** The string at pistart.c:79. */
  const Text79: string := "41311d310000000005d4ffff41b1ffff8e941300ceb2ffff971f000062ebffffb0f2fdff35deffff31080d00a845f5010000000068a2cf36"
  const Packet79: DemoPacket := DemoPacket(
      [0x41, 0x31],
      [
        [0x1D, 0x31, 0x00, 0x00, 0x00, 0x00, 0x05, 0xD4, 0xFF, 0xFF],
        [0x41, 0xB1, 0xFF, 0xFF, 0x8E, 0x94, 0x13, 0x00, 0xCE, 0xB2],
        [0xFF, 0xFF, 0x97, 0x1F, 0x00, 0x00, 0x62, 0xEB, 0xFF, 0xFF],
        [0xB0, 0xF2, 0xFD, 0xFF, 0x35, 0xDE, 0xFF, 0xFF, 0x31, 0x08],
        [0x0D, 0x00, 0xA8, 0x45, 0xF5, 0x01, 0x00, 0x00, 0x00, 0x00]
      ],
      [0x68, 0xA2, 0xCF, 0x36])

  /** 112 characters, two for each byte of a packet. */
  lemma Text79Length()
    ensures |Text79| == 2 * PacketSize
    ensures HexString.HexDigits(Text79) ==> |HexString.HexToBytes(Text79)| == PacketSize
  {
  }
  const Registers79: seq<bv32> := [0xFFFF_FFFF, 0xF417_3661, 0x2DDD_2011, 0xEF8A_CB42, 0x9D09_C4D0, 0xC930_5D97]

  lemma Run79_0()
    ensures BitwiseRegister(Registers79[0], Packet79.body[0]) == Registers79[1]
  {
  }

  lemma Run79_1()
    ensures BitwiseRegister(Registers79[1], Packet79.body[1]) == Registers79[2]
  {
  }

  lemma Run79_2()
    ensures BitwiseRegister(Registers79[2], Packet79.body[2]) == Registers79[3]
  {
  }

  lemma Run79_3()
    ensures BitwiseRegister(Registers79[3], Packet79.body[3]) == Registers79[4]
  {
  }

  lemma Run79_4()
    ensures BitwiseRegister(Registers79[4], Packet79.body[4]) == Registers79[5]
  {
  }

  lemma Packet79Accepted()
    ensures CheckProtBuffer(PacketBytes(Packet79)) == Ok
  {
    Run79_0(); Run79_1(); Run79_2(); Run79_3(); Run79_4();
    assert Packet79.header == [0x41, 0x31];
    assert ReadLe32(Packet79.stored, 0) == Registers79[5] ^ Initial;
    CheckOfDemo(Packet79, Registers79);
  }

  /** The string at pistart.c:80. */
  const Text80: string := "41311e3100000000eae6ffff1eabffff1a881300a596ffffede4ffffc0e6ffffb0f2fdff35deffff31080d00a845f50100000000208bb5e9"
  const Packet80: DemoPacket := DemoPacket(
      [0x41, 0x31],
      [
        [0x1E, 0x31, 0x00, 0x00, 0x00, 0x00, 0xEA, 0xE6, 0xFF, 0xFF],
        [0x1E, 0xAB, 0xFF, 0xFF, 0x1A, 0x88, 0x13, 0x00, 0xA5, 0x96],
        [0xFF, 0xFF, 0xED, 0xE4, 0xFF, 0xFF, 0xC0, 0xE6, 0xFF, 0xFF],
        [0xB0, 0xF2, 0xFD, 0xFF, 0x35, 0xDE, 0xFF, 0xFF, 0x31, 0x08],
        [0x0D, 0x00, 0xA8, 0x45, 0xF5, 0x01, 0x00, 0x00, 0x00, 0x00]
      ],
      [0x20, 0x8B, 0xB5, 0xE9])

  /** 112 characters, two for each byte of a packet. */
  lemma Text80Length()
    ensures |Text80| == 2 * PacketSize
    ensures HexString.HexDigits(Text80) ==> |HexString.HexToBytes(Text80)| == PacketSize
  {
  }
  const Registers80: seq<bv32> := [0xFFFF_FFFF, 0xB6D3_EDF2, 0x5477_8CC3, 0x6E70_4694, 0x18D6_3502, 0x164A_74DF]

  lemma Run80_0()
    ensures BitwiseRegister(Registers80[0], Packet80.body[0]) == Registers80[1]
  {
  }

  lemma Run80_1()
    ensures BitwiseRegister(Registers80[1], Packet80.body[1]) == Registers80[2]
  {
  }

  lemma Run80_2()
    ensures BitwiseRegister(Registers80[2], Packet80.body[2]) == Registers80[3]
  {
  }

  lemma Run80_3()
    ensures BitwiseRegister(Registers80[3], Packet80.body[3]) == Registers80[4]
  {
  }

  lemma Run80_4()
    ensures BitwiseRegister(Registers80[4], Packet80.body[4]) == Registers80[5]
  {
  }

  lemma Packet80Accepted()
    ensures CheckProtBuffer(PacketBytes(Packet80)) == Ok
  {
    Run80_0(); Run80_1(); Run80_2(); Run80_3(); Run80_4();
    assert Packet80.header == [0x41, 0x31];
    assert ReadLe32(Packet80.stored, 0) == Registers80[5] ^ Initial;
    CheckOfDemo(Packet80, Registers80);
  }

  /** The string at pistart.c:81. */
  const Text81: string := "41311f3100000000dad3ffffe2a8ffffb88e13004aa6ffff13fbffffdcceffffb0f2fdff35deffff31080d00a845f501000000004835791c"
  const Packet81: DemoPacket := DemoPacket(
      [0x41, 0x31],
      [
        [0x1F, 0x31, 0x00, 0x00, 0x00, 0x00, 0xDA, 0xD3, 0xFF, 0xFF],
        [0xE2, 0xA8, 0xFF, 0xFF, 0xB8, 0x8E, 0x13, 0x00, 0x4A, 0xA6],
        [0xFF, 0xFF, 0x13, 0xFB, 0xFF, 0xFF, 0xDC, 0xCE, 0xFF, 0xFF],
        [0xB0, 0xF2, 0xFD, 0xFF, 0x35, 0xDE, 0xFF, 0xFF, 0x31, 0x08],
        [0x0D, 0x00, 0xA8, 0x45, 0xF5, 0x01, 0x00, 0x00, 0x00, 0x00]
      ],
      [0x48, 0x35, 0x79, 0x1C])

  /** 112 characters, two for each byte of a packet. */
  lemma Text81Length()
    ensures |Text81| == 2 * PacketSize
    ensures HexString.HexDigits(Text81) ==> |HexString.HexToBytes(Text81)| == PacketSize
  {
  }
  const Registers81: seq<bv32> := [0xFFFF_FFFF, 0x8B9A_5916, 0x97C6_6715, 0x3453_E0A3, 0xF51B_8469, 0xE386_CAB7]

  lemma Run81_0()
    ensures BitwiseRegister(Registers81[0], Packet81.body[0]) == Registers81[1]
  {
  }

  lemma Run81_1()
    ensures BitwiseRegister(Registers81[1], Packet81.body[1]) == Registers81[2]
  {
  }

  lemma Run81_2()
    ensures BitwiseRegister(Registers81[2], Packet81.body[2]) == Registers81[3]
  {
  }

  lemma Run81_3()
    ensures BitwiseRegister(Registers81[3], Packet81.body[3]) == Registers81[4]
  {
  }

  lemma Run81_4()
    ensures BitwiseRegister(Registers81[4], Packet81.body[4]) == Registers81[5]
  {
  }

  lemma Packet81Accepted()
    ensures CheckProtBuffer(PacketBytes(Packet81)) == Ok
  {
    Run81_0(); Run81_1(); Run81_2(); Run81_3(); Run81_4();
    assert Packet81.header == [0x41, 0x31];
    assert ReadLe32(Packet81.stored, 0) == Registers81[5] ^ Initial;
    CheckOfDemo(Packet81, Registers81);
  }

  /** The string at pistart.c:82. */
  const Text82: string := "413120310000000090d3ffff6ea8ffffbe8f13002be2ffff32030000a3d2ffffb0f2fdff35deffff31080d00a845f50100000000310ab94a"
  const Packet82: DemoPacket := DemoPacket(
      [0x41, 0x31],
      [
        [0x20, 0x31, 0x00, 0x00, 0x00, 0x00, 0x90, 0xD3, 0xFF, 0xFF],
        [0x6E, 0xA8, 0xFF, 0xFF, 0xBE, 0x8F, 0x13, 0x00, 0x2B, 0xE2],
        [0xFF, 0xFF, 0x32, 0x03, 0x00, 0x00, 0xA3, 0xD2, 0xFF, 0xFF],
        [0xB0, 0xF2, 0xFD, 0xFF, 0x35, 0xDE, 0xFF, 0xFF, 0x31, 0x08],
        [0x0D, 0x00, 0xA8, 0x45, 0xF5, 0x01, 0x00, 0x00, 0x00, 0x00]
      ],
      [0x31, 0x0A, 0xB9, 0x4A])

  /** 112 characters, two for each byte of a packet. */
  lemma Text82Length()
    ensures |Text82| == 2 * PacketSize
    ensures HexString.HexDigits(Text82) ==> |HexString.HexToBytes(Text82)| == PacketSize
  {
  }
  const Registers82: seq<bv32> := [0xFFFF_FFFF, 0xE6CB_38FA, 0x98BA_3D3D, 0xE89F_0CB1, 0x4B28_9C0A, 0xB546_F5CE]

  lemma Run82_0()
    ensures BitwiseRegister(Registers82[0], Packet82.body[0]) == Registers82[1]
  {
  }

  lemma Run82_1()
    ensures BitwiseRegister(Registers82[1], Packet82.body[1]) == Registers82[2]
  {
  }

  lemma Run82_2()
    ensures BitwiseRegister(Registers82[2], Packet82.body[2]) == Registers82[3]
  {
  }

  lemma Run82_3()
    ensures BitwiseRegister(Registers82[3], Packet82.body[3]) == Registers82[4]
  {
  }

  lemma Run82_4()
    ensures BitwiseRegister(Registers82[4], Packet82.body[4]) == Registers82[5]
  {
  }

  lemma Packet82Accepted()
    ensures CheckProtBuffer(PacketBytes(Packet82)) == Ok
  {
    Run82_0(); Run82_1(); Run82_2(); Run82_3(); Run82_4();
    assert Packet82.header == [0x41, 0x31];
    assert ReadLe32(Packet82.stored, 0) == Registers82[5] ^ Initial;
    CheckOfDemo(Packet82, Registers82);
  }

  /** The string at pistart.c:83. */
  const Text83: string := "4131213100000000c6dfffff98abffffac8d1300334700003de9ffffe4f8ffffb0f2fdff35deffff31080d00a845f5010000000074fded62"
  const Packet83: DemoPacket := DemoPacket(
      [0x41, 0x31],
      [
        [0x21, 0x31, 0x00, 0x00, 0x00, 0x00, 0xC6, 0xDF, 0xFF, 0xFF],
        [0x98, 0xAB, 0xFF, 0xFF, 0xAC, 0x8D, 0x13, 0x00, 0x33, 0x47],
        [0x00, 0x00, 0x3D, 0xE9, 0xFF, 0xFF, 0xE4, 0xF8, 0xFF, 0xFF],
        [0xB0, 0xF2, 0xFD, 0xFF, 0x35, 0xDE, 0xFF, 0xFF, 0x31, 0x08],
        [0x0D, 0x00, 0xA8, 0x45, 0xF5, 0x01, 0x00, 0x00, 0x00, 0x00]
      ],
      [0x74, 0xFD, 0xED, 0x62])

  /** 112 characters, two for each byte of a packet. */
  lemma Text83Length()
    ensures |Text83| == 2 * PacketSize
    ensures HexString.HexDigits(Text83) ==> |HexString.HexToBytes(Text83)| == PacketSize
  {
  }
  const Registers83: seq<bv32> := [0xFFFF_FFFF, 0xEE75_FADE, 0x8C08_C07E, 0x36A8_0280, 0x702F_8CE2, 0x9D12_028B]

  lemma Run83_0()
    ensures BitwiseRegister(Registers83[0], Packet83.body[0]) == Registers83[1]
  {
  }

  lemma Run83_1()
    ensures BitwiseRegister(Registers83[1], Packet83.body[1]) == Registers83[2]
  {
  }

  lemma Run83_2()
    ensures BitwiseRegister(Registers83[2], Packet83.body[2]) == Registers83[3]
  {
  }

  lemma Run83_3()
    ensures BitwiseRegister(Registers83[3], Packet83.body[3]) == Registers83[4]
  {
  }

  lemma Run83_4()
    ensures BitwiseRegister(Registers83[4], Packet83.body[4]) == Registers83[5]
  {
  }

  lemma Packet83Accepted()
    ensures CheckProtBuffer(PacketBytes(Packet83)) == Ok
  {
    Run83_0(); Run83_1(); Run83_2(); Run83_3(); Run83_4();
    assert Packet83.header == [0x41, 0x31];
    assert ReadLe32(Packet83.stored, 0) == Registers83[5] ^ Initial;
    CheckOfDemo(Packet83, Registers83);
  }

  /** The string at pistart.c:84. */
  const Text84: string := "4130213100000000c6dfffff98abffffac8d1300334700003de9ffffe4f8ffffb0f2fdff35deffff31080d00a845f5010000000074fded62"
  const Packet84: DemoPacket := DemoPacket(
      [0x41, 0x30],
      [
        [0x21, 0x31, 0x00, 0x00, 0x00, 0x00, 0xC6, 0xDF, 0xFF, 0xFF],
        [0x98, 0xAB, 0xFF, 0xFF, 0xAC, 0x8D, 0x13, 0x00, 0x33, 0x47],
        [0x00, 0x00, 0x3D, 0xE9, 0xFF, 0xFF, 0xE4, 0xF8, 0xFF, 0xFF],
        [0xB0, 0xF2, 0xFD, 0xFF, 0x35, 0xDE, 0xFF, 0xFF, 0x31, 0x08],
        [0x0D, 0x00, 0xA8, 0x45, 0xF5, 0x01, 0x00, 0x00, 0x00, 0x00]
      ],
      [0x74, 0xFD, 0xED, 0x62])

  /** 112 characters, two for each byte of a packet. */
  lemma Text84Length()
    ensures |Text84| == 2 * PacketSize
    ensures HexString.HexDigits(Text84) ==> |HexString.HexToBytes(Text84)| == PacketSize
  {
  }

  /** The string at pistart.c:86. */
  const Text86: string := "4131213100100000c6dfffff98abffffac8d1300334700003de9ffffe4f8ffffb0f2fdff35deffff31080d00a845f5010000000074fded62"
  const Packet86: DemoPacket := DemoPacket(
      [0x41, 0x31],
      [
        [0x21, 0x31, 0x00, 0x10, 0x00, 0x00, 0xC6, 0xDF, 0xFF, 0xFF],
        [0x98, 0xAB, 0xFF, 0xFF, 0xAC, 0x8D, 0x13, 0x00, 0x33, 0x47],
        [0x00, 0x00, 0x3D, 0xE9, 0xFF, 0xFF, 0xE4, 0xF8, 0xFF, 0xFF],
        [0xB0, 0xF2, 0xFD, 0xFF, 0x35, 0xDE, 0xFF, 0xFF, 0x31, 0x08],
        [0x0D, 0x00, 0xA8, 0x45, 0xF5, 0x01, 0x00, 0x00, 0x00, 0x00]
      ],
      [0x74, 0xFD, 0xED, 0x62])

  /** 112 characters, two for each byte of a packet. */
  lemma Text86Length()
    ensures |Text86| == 2 * PacketSize
    ensures HexString.HexDigits(Text86) ==> |HexString.HexToBytes(Text86)| == PacketSize
  {
  }
  const Registers86: seq<bv32> := [0xFFFF_FFFF, 0x89AB_6610, 0x9B59_5903, 0x68DC_A9D5, 0x1213_D05F, 0xBC37_AB9E]

  lemma Run86_0()
    ensures BitwiseRegister(Registers86[0], Packet86.body[0]) == Registers86[1]
  {
  }

  lemma Run86_1()
    ensures BitwiseRegister(Registers86[1], Packet86.body[1]) == Registers86[2]
  {
  }

  lemma Run86_2()
    ensures BitwiseRegister(Registers86[2], Packet86.body[2]) == Registers86[3]
  {
  }

  lemma Run86_3()
    ensures BitwiseRegister(Registers86[3], Packet86.body[3]) == Registers86[4]
  {
  }

  lemma Run86_4()
    ensures BitwiseRegister(Registers86[4], Packet86.body[4]) == Registers86[5]
  {
  }

  /** The string at pistart.c:88. */
  const Text88: string := "4131213100100000c6dfffff98abffffac8d1300334700003de9ffffe4f8ffffb0f2fdff35deffff31080d00a845f5010000000074fded60"
  const Packet88: DemoPacket := DemoPacket(
      [0x41, 0x31],
      [
        [0x21, 0x31, 0x00, 0x10, 0x00, 0x00, 0xC6, 0xDF, 0xFF, 0xFF],
        [0x98, 0xAB, 0xFF, 0xFF, 0xAC, 0x8D, 0x13, 0x00, 0x33, 0x47],
        [0x00, 0x00, 0x3D, 0xE9, 0xFF, 0xFF, 0xE4, 0xF8, 0xFF, 0xFF],
        [0xB0, 0xF2, 0xFD, 0xFF, 0x35, 0xDE, 0xFF, 0xFF, 0x31, 0x08],
        [0x0D, 0x00, 0xA8, 0x45, 0xF5, 0x01, 0x00, 0x00, 0x00, 0x00]
      ],
      [0x74, 0xFD, 0xED, 0x60])

  /** 112 characters, two for each byte of a packet. */
  lemma Text88Length()
    ensures |Text88| == 2 * PacketSize
    ensures HexString.HexDigits(Text88) ==> |HexString.HexToBytes(Text88)| == PacketSize
  {
  }

  /** The packets at lines 84 and 86 each change one byte of the one at line 83; the one at line 88 changes one more. */
  lemma Packet84Corrupts83()
    ensures PacketBytes(Packet84) == PacketBytes(Packet83)[1 := 0x30]
  {
  }

  lemma Packet86Corrupts83()
    ensures PacketBytes(Packet86) == PacketBytes(Packet83)[5 := 0x10]
  {
  }

  lemma Packet88Corrupts86()
    ensures PacketBytes(Packet88) == PacketBytes(Packet86)[55 := 0x60]
  {
  }

  /** Its sequence number, bytes 0B 31 read least significant first. */
  lemma Packet61Sequence()
    ensures Decode(PacketBytes(Packet61)).sequence == 0x310B
  {
    assert PacketBytes(Packet61)[2] == 0x0B && PacketBytes(Packet61)[3] == 0x31;
  }

  lemma Packet84BadHeader()
    ensures CheckProtBuffer(PacketBytes(Packet84)) == BadHeader
  {
    assert PacketBytes(Packet84)[1] == 0x30;
  }

  /** The covered bytes of the packets at lines 86 and 88, and their CRC. */
  lemma Packet86Crc()
    ensures Crc32Bitwise(PacketBytes(Packet86)[CoveredStart..CrcOffset]) == 0x43C8_5461
  {
    Run86_0(); Run86_1(); Run86_2(); Run86_3(); Run86_4();
    var s, body := PacketBytes(Packet86), Flatten(Packet86.body);
    FlattenFive(Packet86.body);
    PartsOfPacket(s, Packet86.header, body, Packet86.stored);
    RunsOfDemo(Packet86, Registers86);
    RegisterOfRuns(Packet86.body, Registers86);
  }

  /** The byte changed at line 86 is the high byte of the flags word: it sets the pressure overrange flag and nothing else. */
  lemma Packet86Flags()
    ensures Decode(PacketBytes(Packet83)).data.flags == 0
    ensures Decode(PacketBytes(Packet86)).data.flags == 0x1000
    ensures Bitfields.FlagsOf(0x1000) == Bitfields.Flags(Bitfields.StateReady, Bitfields.Axes(false, false, false),
      Bitfields.Axes(false, false, false), Bitfields.Axes(false, false, false), true, 0)
  {
    assert PacketBytes(Packet83)[4] == 0 && PacketBytes(Packet83)[5] == 0;
    assert PacketBytes(Packet86)[4] == 0 && PacketBytes(Packet86)[5] == 0x10;
  }

  lemma Packet86BadCrc()
    ensures CheckProtBuffer(PacketBytes(Packet86)) == BadCrc
  {
    Packet86Crc();
  }

  lemma Packet88BadCrc()
    ensures CheckProtBuffer(PacketBytes(Packet88)) == BadCrc
  {
    Packet86Crc();
    assert PacketBytes(Packet88)[CoveredStart..CrcOffset] == PacketBytes(Packet86)[CoveredStart..CrcOffset];
  }
}
