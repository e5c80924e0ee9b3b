/**
 *  The 56-byte telemetry packet (`PiProt_t`, `PiMainData_t`).
 *
 *  The C code overlays a packed struct on the received bytes. Here the record
 *  is an ordinary datatype and the overlay becomes an explicit pair of
 *  functions, `Encode` and `Decode`, between the record and its 56 bytes:
 *
 *    offset  size  field
 *       0      2   header      (0x3141 on a valid packet)
 *       2      2   sequence
 *       4      2   data.flags
 *       6      2   data.fault
 *       8     12   data.accl   (three 32-bit words: x, y, z)
 *      20     12   data.gyro
 *      32     12   data.magn
 *      44      4   data.pressure
 *      48      4   mux
 *      52      4   crc32
 *
 *  Every field is little-endian. The flags and fault words are kept as raw
 *  16-bit words here; the `Bitfields` module gives their sub-fields.
 *  Sensor axes are `int32_t` in the source and are kept as their 32 raw bits.
 */

module Packet {
  import opened Bytes

  /** `PI_HEADER`, the first two bytes of every valid packet. */
  const Header: bv16 := 0x3141
  /** `sizeof(PiProt_t)`. */
  const PacketSize: nat := 56
  /** `sizeof(PiMainData_t)`. */
  const MainDataSize: nat := 44
  /** The checksum covers the bytes from the sequence number up to (not including) the stored CRC. */
  const CoveredStart: nat := 2
  const CrcOffset: nat := 52

  /** Three raw 32-bit sensor words. */
  datatype Axes3 = Axes3(x: bv32, y: bv32, z: bv32)

  /** `PiMainData_t`. */
  datatype MainData = MainData(
    flags: bv16,
    fault: bv16,
    accl: Axes3,
    gyro: Axes3,
    magn: Axes3,
    pressure: bv32)

  /** `PiProt_t`. */
  datatype Prot = Prot(
    header: bv16,
    sequence: bv16,
    data: MainData,
    mux: bv32,
    crc32: bv32)

  function EncodeAxes(a: Axes3): (s: seq<byte>)
    ensures |s| == 12
  {
    Le32(a.x) + Le32(a.y) + Le32(a.z)
  }

  function DecodeAxes(s: seq<byte>): Axes3
    requires |s| == 12
  {
    Axes3(ReadLe32(s, 0), ReadLe32(s, 4), ReadLe32(s, 8))
  }

  function EncodeMainData(d: MainData): (s: seq<byte>)
    ensures |s| == MainDataSize
  {
    Le16(d.flags) + Le16(d.fault) + EncodeAxes(d.accl) + EncodeAxes(d.gyro) + EncodeAxes(d.magn) + Le32(d.pressure)
  }

  function DecodeMainData(s: seq<byte>): MainData
    requires |s| == MainDataSize
  {
    MainData(ReadLe16(s, 0), ReadLe16(s, 2), DecodeAxes(s[4..16]), DecodeAxes(s[16..28]), DecodeAxes(s[28..40]), ReadLe32(s, 40))
  }

  /** The bytes of a packet, in wire order. */
  function Encode(p: Prot): (s: seq<byte>)
    ensures |s| == PacketSize
  {
    Le16(p.header) + Le16(p.sequence) + EncodeMainData(p.data) + Le32(p.mux) + Le32(p.crc32)
  }

  /** The packet a buffer holds: its first 56 bytes read through the packed layout. */
  function Decode(buf: seq<byte>): Prot
    requires |buf| >= PacketSize
  {
    Prot(ReadLe16(buf, 0), ReadLe16(buf, 2), DecodeMainData(buf[4..48]), ReadLe32(buf, 48), ReadLe32(buf, 52))
  }

  /** The bytes the checksum covers: sequence, main data and mux. */
  function Covered(p: Prot): (s: seq<byte>)
    ensures |s| == CrcOffset - CoveredStart
    ensures s == Encode(p)[CoveredStart..CrcOffset]
  {
    EncodedCovered(p);
    Le16(p.sequence) + EncodeMainData(p.data) + Le32(p.mux)
  }

  lemma EncodedCovered(p: Prot)
    ensures Encode(p)[2..52] == Le16(p.sequence) + EncodeMainData(p.data) + Le32(p.mux)
  {
    Split5(Le16(p.header), Le16(p.sequence), EncodeMainData(p.data), Le32(p.mux), Le32(p.crc32));
    Middle(Le16(p.header), Le16(p.sequence) + EncodeMainData(p.data) + Le32(p.mux), Le32(p.crc32));
  }

  // ---------------------------------------------------------------------------
  // Round trips
  // ---------------------------------------------------------------------------

  /** A value written between two byte strings reads back from its offset. */
  lemma ReadLe32Between(pre: seq<byte>, v: bv32, post: seq<byte>)
    ensures ReadLe32(pre + Le32(v) + post, |pre|) == v
  {
    var s := pre + Le32(v) + post;
    assert s[|pre|..|pre| + 4] == Le32(v);
    ReadLe32Window(s, |pre|, Le32(v), 0);
    ReadLe32OfLe32(v);
  }

  lemma ReadLe16Between(pre: seq<byte>, v: bv16, post: seq<byte>)
    ensures ReadLe16(pre + Le16(v) + post, |pre|) == v
  {
    var s := pre + Le16(v) + post;
    assert s[|pre|..|pre| + 2] == Le16(v);
    ReadLe16Window(s, |pre|, Le16(v), 0);
    ReadLe16OfLe16(v);
  }

  lemma DecodeEncodeAxes(a: Axes3)
    ensures DecodeAxes(EncodeAxes(a)) == a
  {
    Split3(Le32(a.x), Le32(a.y), Le32(a.z));
    ReadLe32Between([], a.x, Le32(a.y) + Le32(a.z));
    ReadLe32Between(Le32(a.x), a.y, Le32(a.z));
    ReadLe32Between(Le32(a.x) + Le32(a.y), a.z, []);
  }

  lemma EncodeDecodeAxes(s: seq<byte>)
    requires |s| == 12
    ensures EncodeAxes(DecodeAxes(s)) == s
  {
    Le32OfReadLe32(s, 0);
    Le32OfReadLe32(s, 4);
    Le32OfReadLe32(s, 8);
    assert s == s[0..4] + s[4..8] + s[8..12];
  }

  lemma DecodeEncodeMainData(d: MainData)
    ensures DecodeMainData(EncodeMainData(d)) == d
  {
    var f, g := Le16(d.flags), Le16(d.fault);
    var a, y, m, r := EncodeAxes(d.accl), EncodeAxes(d.gyro), EncodeAxes(d.magn), Le32(d.pressure);
    Split6(f, g, a, y, m, r);
    ReadLe16Between([], d.flags, g + a + y + m + r);
    ReadLe16Between(f, d.fault, a + y + m + r);
    Middle(f + g, a, y + m + r);
    Middle(f + g + a, y, m + r);
    Middle(f + g + a + y, m, r);
    ReadLe32Between(f + g + a + y + m, d.pressure, []);
    DecodeEncodeAxes(d.accl);
    DecodeEncodeAxes(d.gyro);
    DecodeEncodeAxes(d.magn);
  }

  lemma EncodeDecodeMainData(s: seq<byte>)
    requires |s| == MainDataSize
    ensures EncodeMainData(DecodeMainData(s)) == s
  {
    var d := DecodeMainData(s);
    assert Le16(d.flags) == s[0..2] by { Le16OfReadLe16(s, 0); }
    assert Le16(d.fault) == s[2..4] by { Le16OfReadLe16(s, 2); }
    assert EncodeAxes(d.accl) == s[4..16] by { EncodeDecodeAxes(s[4..16]); }
    assert EncodeAxes(d.gyro) == s[16..28] by { EncodeDecodeAxes(s[16..28]); }
    assert EncodeAxes(d.magn) == s[28..40] by { EncodeDecodeAxes(s[28..40]); }
    assert Le32(d.pressure) == s[40..44] by { Le32OfReadLe32(s, 40); }
    MainDataSlices(s);
  }

  /** A main-data block cut at its field boundaries. */
  lemma MainDataSlices<T>(s: seq<T>)
    requires |s| == MainDataSize
    ensures s == s[0..2] + s[2..4] + s[4..16] + s[16..28] + s[28..40] + s[40..44]
  {
  }

  /** Reading back an encoded packet gives the packet: the layout loses nothing. */
  lemma DecodeEncode(p: Prot)
    ensures Decode(Encode(p)) == p
  {
    var h, q, d := Le16(p.header), Le16(p.sequence), EncodeMainData(p.data);
    var x, c := Le32(p.mux), Le32(p.crc32);
    Split5(h, q, d, x, c);
    ReadLe16Between([], p.header, q + d + x + c);
    ReadLe16Between(h, p.sequence, d + x + c);
    Middle(h + q, d, x + c);
    DecodeEncodeMainData(p.data);
    ReadLe32Between(h + q + d, p.mux, c);
    ReadLe32Between(h + q + d + x, p.crc32, []);
  }

  /** Re-encoding a decoded buffer reproduces its first 56 bytes: every byte is some field's. */
  lemma EncodeDecode(buf: seq<byte>)
    requires |buf| >= PacketSize
    ensures Encode(Decode(buf)) == buf[..PacketSize]
  {
    var p := Decode(buf);
    assert Le16(p.header) == buf[0..2] by { Le16OfReadLe16(buf, 0); }
    assert Le16(p.sequence) == buf[2..4] by { Le16OfReadLe16(buf, 2); }
    assert EncodeMainData(p.data) == buf[4..48] by { EncodeDecodeMainData(buf[4..48]); }
    assert Le32(p.mux) == buf[48..52] by { Le32OfReadLe32(buf, 48); }
    assert Le32(p.crc32) == buf[52..56] by { Le32OfReadLe32(buf, 52); }
    PacketSlices(buf);
  }

  /** The first 56 bytes of a buffer, cut at the field boundaries of the packet. */
  lemma PacketSlices<T>(buf: seq<T>)
    requires |buf| >= PacketSize
    ensures buf[..PacketSize] == buf[0..2] + buf[2..4] + buf[4..48] + buf[48..52] + buf[52..56]
  {
  }

  /** Two buffers that agree on their first 56 bytes hold the same packet. */
  lemma DecodeDependsOnPacketBytes(a: seq<byte>, b: seq<byte>)
    requires |a| >= PacketSize && |b| >= PacketSize
    requires a[..PacketSize] == b[..PacketSize]
    ensures Decode(a) == Decode(b)
  {
    EncodeDecode(a);
    EncodeDecode(b);
    DecodeEncode(Decode(a));
    DecodeEncode(Decode(b));
  }
}
