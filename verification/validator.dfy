/**
 *  Packet validation: `piCheckProtBuffer` and its result `PiProtError_t`.
 *
 *  The check applies two gates in order. The first two bytes must hold the
 *  header 0x3141 (bytes 41 31 on the wire). Then the CRC of the 50 bytes from
 *  the sequence number up to the stored CRC must equal the stored CRC. The
 *  first failing gate names the result; no other code is ever produced.
 *
 *  `piCrc32` is the table-driven variant here, as in the default build; the
 *  contracts are stated with the bit-by-bit variant, its independent partner.
 */

module Validator {
  import opened Bytes
  import opened Crc32
  import opened Crc32Lookup
  import opened Crc32Properties
  import opened Packet

  /** `PiProtError_t`. */
  datatype ProtError = Ok | BadHeader | BadCrc

  datatype Option<T> = None | Some(value: T)

  /** The numeric value of each code, as the enum declares it. */
  function Code(e: ProtError): nat
  {
    match e
    case Ok => 0
    case BadHeader => 1
    case BadCrc => 3
  }

  /** The code a number stands for, if any. */
  function ErrorOfCode(n: int): (e: Option<ProtError>)
    ensures e.Some? ==> Code(e.value) == n
  {
    if n == 0 then Some(Ok)
    else if n == 1 then Some(BadHeader)
    else if n == 3 then Some(BadCrc)
    else None
  }

  /** Every code reads back from its number, so no two codes share a number. */
  lemma CodeRoundTrip(e: ProtError)
    ensures ErrorOfCode(Code(e)) == Some(e)
  {
  }

  lemma CodeInjective(a: ProtError, b: ProtError)
    ensures Code(a) == Code(b) <==> a == b
  {
    CodeRoundTrip(a);
    CodeRoundTrip(b);
  }

  /** The two header bytes as they appear on the wire. */
  predicate HeaderBytesOk(buffer: seq<byte>)
    requires |buffer| >= 2
  {
    buffer[0] == 0x41 && buffer[1] == 0x31
  }

  /** The stored header reads as `PI_HEADER` exactly when its two bytes are 41 31. */
  lemma HeaderBytes(buffer: seq<byte>)
    requires |buffer| >= 2
    ensures ReadLe16(buffer, 0) == Header <==> HeaderBytesOk(buffer)
  {
  }

  /**
   * `piCheckProtBuffer`. The first gate fails exactly when the header bytes
   * are wrong, whatever the rest of the buffer holds; the second exactly when
   * the header is right and the CRC of the covered bytes differs from the
   * stored one; otherwise the packet is accepted.
   */
  function CheckProtBuffer(buffer: seq<byte>): (e: ProtError)
    requires |buffer| >= PacketSize
    ensures e == BadHeader <==> !HeaderBytesOk(buffer)
    ensures e == BadCrc <==> HeaderBytesOk(buffer) && Crc32Bitwise(buffer[CoveredStart..CrcOffset]) != ReadLe32(buffer, CrcOffset)
    ensures e == Ok <==> HeaderBytesOk(buffer) && Crc32Bitwise(buffer[CoveredStart..CrcOffset]) == ReadLe32(buffer, CrcOffset)
  {
    HeaderBytes(buffer);
    Crc32VariantsAgree(buffer[CoveredStart..CrcOffset]);
    if ReadLe16(buffer, 0) != Header then BadHeader
    else if Crc32Table(buffer[CoveredStart..CrcOffset]) != ReadLe32(buffer, CrcOffset) then BadCrc
    else Ok
  }

  /** The bytes the check covers are the covered fields of the packet the buffer holds. */
  lemma CoveredOfDecode(buffer: seq<byte>)
    requires |buffer| >= PacketSize
    ensures Covered(Decode(buffer)) == buffer[CoveredStart..CrcOffset]
  {
    EncodeDecode(buffer);
    assert buffer[..PacketSize][CoveredStart..CrcOffset] == buffer[CoveredStart..CrcOffset];
  }

  /** The check in terms of the decoded record: right header, and a stored CRC that matches the covered fields. */
  lemma CheckOfRecord(buffer: seq<byte>)
    requires |buffer| >= PacketSize
    ensures CheckProtBuffer(buffer) == BadHeader <==> Decode(buffer).header != Header
    ensures CheckProtBuffer(buffer) == Ok <==>
      Decode(buffer).header == Header && Decode(buffer).crc32 == Crc32Bitwise(Covered(Decode(buffer)))
  {
    HeaderBytes(buffer);
    CoveredOfDecode(buffer);
  }

  /** The packet with the header set and the CRC set to the CRC of its covered fields. */
  function Seal(p: Prot): (q: Prot)
    ensures q.sequence == p.sequence && q.data == p.data && q.mux == p.mux
    ensures q.header == Header && q.crc32 == Crc32Bitwise(Covered(q))
  {
    var h := p.(header := Header);
    h.(crc32 := Crc32Bitwise(Covered(h)))
  }

  /** Encoding a sealed packet gives a buffer the check accepts. */
  lemma SealedIsAccepted(p: Prot)
    ensures CheckProtBuffer(Encode(Seal(p))) == Ok
  {
    DecodeEncode(Seal(p));
    CheckOfRecord(Encode(Seal(p)));
  }

  /** ... and the check accepts nothing else: an accepted buffer holds a sealed packet. */
  lemma AcceptedIsSealed(buffer: seq<byte>)
    requires |buffer| >= PacketSize
    requires CheckProtBuffer(buffer) == Ok
    ensures Seal(Decode(buffer)) == Decode(buffer)
  {
    CheckOfRecord(buffer);
  }

  /** Two buffers with the same first 56 bytes get the same verdict: nothing beyond the packet is read. */
  lemma CheckReadsOnlyThePacket(a: seq<byte>, b: seq<byte>)
    requires |a| >= PacketSize && |b| >= PacketSize
    requires a[..PacketSize] == b[..PacketSize]
    ensures CheckProtBuffer(a) == CheckProtBuffer(b)
  {
    CheckOfRecord(a);
    CheckOfRecord(b);
    DecodeDependsOnPacketBytes(a, b);
  }

  // ---------------------------------------------------------------------------
  // Corruption of one byte
  // ---------------------------------------------------------------------------

  /** A buffer cut around position `i`. */
  lemma Around<T>(s: seq<T>, i: nat)
    requires i < |s|
    ensures s == s[..i] + [s[i]] + s[i + 1..]
  {
  }

  /** Changing one covered byte changes the CRC of the covered bytes and leaves the stored CRC alone. */
  lemma CoveredByteChange(buffer: seq<byte>, i: nat, x: byte)
    requires |buffer| >= PacketSize && CoveredStart <= i < CrcOffset && x != buffer[i]
    ensures Crc32Bitwise(buffer[i := x][CoveredStart..CrcOffset]) != Crc32Bitwise(buffer[CoveredStart..CrcOffset])
    ensures ReadLe32(buffer[i := x], CrcOffset) == ReadLe32(buffer, CrcOffset)
  {
    var c, d := buffer[CoveredStart..CrcOffset], buffer[i := x][CoveredStart..CrcOffset];
    var j := i - CoveredStart;
    Around(c, j);
    assert d == c[..j] + [x] + c[j + 1..];
    SingleByteChangeDetected(c[..j], x, c[j], c[j + 1..]);
    ReadLe32Window(buffer[i := x], CrcOffset, buffer, CrcOffset);
  }

  /** Changing one byte of the stored CRC changes the stored value and leaves the covered bytes alone. */
  lemma StoredByteChange(buffer: seq<byte>, i: nat, x: byte)
    requires |buffer| >= PacketSize && CrcOffset <= i < PacketSize && x != buffer[i]
    ensures buffer[i := x][CoveredStart..CrcOffset] == buffer[CoveredStart..CrcOffset]
    ensures ReadLe32(buffer[i := x], CrcOffset) != ReadLe32(buffer, CrcOffset)
  {
    var b := buffer[i := x];
    Le32OfReadLe32(buffer, CrcOffset);
    Le32OfReadLe32(b, CrcOffset);
    assert b[CrcOffset..CrcOffset + 4][i - CrcOffset] != buffer[CrcOffset..CrcOffset + 4][i - CrcOffset];
  }

  /** An accepted packet with any one of its 56 bytes changed is rejected. */
  lemma SingleByteCorruptionRejected(buffer: seq<byte>, i: nat, x: byte)
    requires |buffer| >= PacketSize && i < PacketSize && x != buffer[i]
    requires CheckProtBuffer(buffer) == Ok
    ensures CheckProtBuffer(buffer[i := x]) == (if i < CoveredStart then BadHeader else BadCrc)
  {
    if i < CoveredStart {
    } else if i < CrcOffset {
      CoveredByteChange(buffer, i, x);
    } else {
      StoredByteChange(buffer, i, x);
    }
  }
}
