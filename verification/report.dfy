/**
 *  What the demo program reports for one packet: `printPacket` and
 *  `parsePacket`, without the printing.
 *
 *  `printPacket` runs the check, recomputes the CRC of the covered bytes
 *  whatever the check said, and prints one line: the packet size, header,
 *  sequence number, the gyroscope and accelerometer axes, the stored CRC, the
 *  recomputed CRC, the numeric result and its message. The line is modelled
 *  as a record of those columns; the axes stay raw fixed-point words, since
 *  their conversion to `float` is not part of this model.
 */

module Report {
  import opened Bytes
  import opened Crc32
  import opened Crc32Lookup
  import opened Packet
  import opened Validator
  import opened HexString

  /** The columns of one line printed by `printPacket`. */
  datatype PacketReport = PacketReport(
    size: nat,
    header: bv16,
    sequence: bv16,
    gyro: Axes3,
    accl: Axes3,
    stored: bv32,
    computed: bv32,
    code: nat,
    message: string)

  /**
   * `printPacket`. The result column agrees with the other columns: the
   * packet is reported valid exactly when the header is `PI_HEADER` and the
   * recomputed CRC equals the stored one.
   */
  function PrintPacket(buffer: seq<byte>): (r: PacketReport)
    requires |buffer| >= PacketSize
    ensures r.size == PacketSize
    ensures r.code == 0 <==> r.header == Header && r.computed == r.stored
    ensures r.code == 1 <==> r.header != Header
    ensures r.code == 3 <==> r.header == Header && r.computed != r.stored
    ensures r.computed == Crc32Bitwise(buffer[CoveredStart..CrcOffset])
    ensures r.message == ErrorToString(r.code) && r.message != MessageUnknown
  {
    var p := Decode(buffer);
    var result := CheckProtBuffer(buffer);
    var crc := Crc32Table(buffer[CoveredStart..CrcOffset]);
    Crc32VariantsAgree(buffer[CoveredStart..CrcOffset]);
    CheckOfRecord(buffer);
    CoveredOfDecode(buffer);
    HeaderBytes(buffer);
    PacketReport(PacketSize, p.header, p.sequence, p.data.gyro, p.data.accl, p.crc32, crc, Code(result), ErrorToString(Code(result)))
  }

  /** Reporting the bytes of a packet shows that packet's fields and the CRC of its covered fields. */
  lemma ReportOfEncoded(p: Prot)
    ensures var r := PrintPacket(Encode(p));
      && r.header == p.header && r.sequence == p.sequence
      && r.gyro == p.data.gyro && r.accl == p.data.accl
      && r.stored == p.crc32 && r.computed == Crc32Bitwise(Covered(p))
  {
    DecodeEncode(p);
    assert Encode(p)[CoveredStart..CrcOffset] == Covered(p);
  }

  /** A sealed packet is reported valid, with the same CRC in both CRC columns. */
  lemma SealedReport(p: Prot)
    ensures var r := PrintPacket(Encode(Seal(p)));
      r.code == 0 && r.message == MessageOk && r.computed == r.stored
  {
    SealedIsAccepted(p);
  }

  /**
   * `parsePacket`: decode the string into a 256-byte buffer and report it.
   * The report's result column is 1 exactly when the first four digits are
   * not "4131" in either case.
   */
  method ParsePacket(packetHex: string) returns (r: PacketReport)
    requires HexDigits(packetHex) && 2 * PacketSize <= |packetHex| && |packetHex| / 2 <= BufferSize
    ensures r == PrintPacket(HexToBytes(packetHex))
    ensures r.code == 1 <==>
      PairValue(packetHex[0], packetHex[1]) != 0x41 || PairValue(packetHex[2], packetHex[3]) != 0x31
  {
    var buffer, size := HexStringToByteArray(packetHex);
    r := PrintPacket(buffer);
    HexToBytesAt(packetHex);
    assert buffer[0] == PairValue(packetHex[0], packetHex[1]);
    assert buffer[1] == PairValue(packetHex[2], packetHex[3]);
    CheckOfRecord(buffer);
    HeaderBytes(buffer);
  }
}
