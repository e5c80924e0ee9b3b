/**
 *  The text side of the demo program: `hexStringToByteArray`, the `%02X`
 *  format it is the inverse of, `printByteArray`, and `PiProtErrorToString`.
 *
 *  `hexStringToByteArray` cuts the string into pairs of characters and reads
 *  each pair with `strtol(pair, NULL, 16)`; the byte count is the string
 *  length halved, so a trailing odd character is never read. The model
 *  requires every character it reads to be a hexadecimal digit: what `strtol`
 *  makes of anything else is not modelled.
 */

module HexString {
  import opened Bytes
  import Validator

  /** The destination buffer of the demo program holds 256 bytes. */
  const BufferSize: nat := 256

  predicate IsHexDigit(c: char)
  {
    '0' <= c <= '9' || 'a' <= c <= 'f' || 'A' <= c <= 'F'
  }

  /** The value of one hexadecimal digit, in either case. */
  function DigitValue(c: char): (v: byte)
    requires IsHexDigit(c)
    ensures v < 16
  {
    match c
    case '0' => 0
    case '1' => 1
    case '2' => 2
    case '3' => 3
    case '4' => 4
    case '5' => 5
    case '6' => 6
    case '7' => 7
    case '8' => 8
    case '9' => 9
    case 'A' => 10
    case 'a' => 10
    case 'B' => 11
    case 'b' => 11
    case 'C' => 12
    case 'c' => 12
    case 'D' => 13
    case 'd' => 13
    case 'E' => 14
    case 'e' => 14
    case 'F' => 15
    case 'f' => 15
  }

  /** The upper-case digit `%X` prints for a value below 16. */
  function UpperDigit(v: byte): (c: char)
    requires v < 16
    ensures IsHexDigit(c) && DigitValue(c) == v
    ensures !('a' <= c <= 'f')
  {
    if v < 10 then ('0' as int + v as int) as char else ('A' as int + v as int - 10) as char
  }

  /** A digit in upper case; digits that are not letters are left as they are. */
  function Upper(c: char): (u: char)
    requires IsHexDigit(c)
    ensures IsHexDigit(u) && DigitValue(u) == DigitValue(c)
    ensures !('a' <= u <= 'f')
  {
    if 'a' <= c <= 'f' then (c as int - 'a' as int + 'A' as int) as char else c
  }

  /** `strtol` on two hexadecimal digits: the first is the high nibble. */
  function PairValue(hi: char, lo: char): (b: byte)
    requires IsHexDigit(hi) && IsHexDigit(lo)
  {
    DigitValue(hi) * 16 + DigitValue(lo)
  }

  /** The pair value splits back into its digits. */
  lemma PairValueDigits(hi: char, lo: char)
    requires IsHexDigit(hi) && IsHexDigit(lo)
    ensures PairValue(hi, lo) / 16 == DigitValue(hi) && PairValue(hi, lo) % 16 == DigitValue(lo)
    ensures PairValue(hi, lo) as int == 16 * DigitValue(hi) as int + DigitValue(lo) as int
  {
  }

  /** Every character the decoder reads is a hexadecimal digit: all but a trailing odd one. */
  predicate HexDigits(s: string)
  {
    forall i :: 0 <= i < |s| / 2 * 2 ==> IsHexDigit(s[i])
  }

  /** The decoder reads every pair after the first one as it reads the rest of the string. */
  lemma HexDigitsTail(s: string)
    requires |s| >= 2 && HexDigits(s)
    ensures HexDigits(s[2..])
  {
    forall i | 0 <= i < |s[2..]| / 2 * 2
      ensures IsHexDigit(s[2..][i])
    {
      assert s[2..][i] == s[i + 2];
    }
  }

  /** The bytes a hex string stands for, pair by pair. */
  function HexToBytes(s: string): (bytes: seq<byte>)
    requires HexDigits(s)
    ensures |bytes| == |s| / 2
    decreases |s|
  {
    if |s| < 2 then [] else
      HexDigitsTail(s);
      [PairValue(s[0], s[1])] + HexToBytes(s[2..])
  }

  /** Byte `k` of the decoded string is the value of characters `2k` and `2k+1`. */
  lemma {:induction false} HexToBytesAt(s: string)
    requires HexDigits(s)
    ensures |HexToBytes(s)| == |s| / 2
    ensures forall k :: 0 <= k < |s| / 2 ==> HexToBytes(s)[k] == PairValue(s[2 * k], s[2 * k + 1])
    decreases |s|
  {
    if |s| >= 2 {
      var t := s[2..];
      HexDigitsTail(s);
      HexToBytesAt(t);
      forall k | 1 <= k < |s| / 2
        ensures HexToBytes(s)[k] == PairValue(s[2 * k], s[2 * k + 1])
      {
        assert HexToBytes(s)[k] == HexToBytes(t)[k - 1];
        assert t[2 * (k - 1)] == s[2 * k] && t[2 * (k - 1) + 1] == s[2 * k + 1];
      }
    }
  }

  /** `hexStringToByteArray`: the byte count is half the string length, rounded down. */
  method HexStringToByteArray(hexString: string) returns (byteArray: seq<byte>, byteArrayLen: nat)
    requires HexDigits(hexString) && |hexString| / 2 <= BufferSize
    ensures byteArrayLen == |hexString| / 2 && |byteArray| == byteArrayLen
    ensures forall k :: 0 <= k < byteArrayLen ==>
      byteArray[k] as int == 16 * DigitValue(hexString[2 * k]) as int + DigitValue(hexString[2 * k + 1]) as int
    ensures byteArray == HexToBytes(hexString)
  {
    byteArrayLen := |hexString| / 2;
    byteArray := [];
    var i := 0;
    while i < byteArrayLen
      invariant 0 <= i <= byteArrayLen && |byteArray| == i
      invariant forall k :: 0 <= k < i ==> byteArray[k] == PairValue(hexString[2 * k], hexString[2 * k + 1])
    {
      byteArray := byteArray + [PairValue(hexString[i * 2], hexString[i * 2 + 1])];
      i := i + 1;
    }
    HexToBytesAt(hexString);
    forall k | 0 <= k < byteArrayLen
      ensures byteArray[k] as int == 16 * DigitValue(hexString[2 * k]) as int + DigitValue(hexString[2 * k + 1]) as int
    {
      PairValueDigits(hexString[2 * k], hexString[2 * k + 1]);
    }
  }

  /** A trailing odd character is never read. */
  lemma OddCharacterIgnored(s: string, c: char)
    requires |s| % 2 == 0 && HexDigits(s)
    ensures HexDigits(s + [c])
    ensures HexToBytes(s + [c]) == HexToBytes(s)
  {
    var t := s + [c];
    assert HexDigits(t) by {
      forall i | 0 <= i < |t| / 2 * 2
        ensures IsHexDigit(t[i])
      {
        assert t[i] == s[i];
      }
    }
    HexToBytesAt(s);
    HexToBytesAt(t);
  }

  // ---------------------------------------------------------------------------
  // The `%02X` format
  // ---------------------------------------------------------------------------

  /** `%02X`: two upper-case digits, the high nibble first. */
  function FormatByte(b: byte): (s: string)
    ensures |s| == 2 && HexDigits(s)
    ensures DigitValue(s[0]) == b / 16 && DigitValue(s[1]) == b % 16
  {
    [UpperDigit(b / 16), UpperDigit(b % 16)]
  }

  /** Reading back a formatted byte gives the byte. */
  lemma FormatByteRoundTrip(b: byte)
    ensures PairValue(FormatByte(b)[0], FormatByte(b)[1]) == b
  {
  }

  /** Bytes printed back to back with `%02X`. */
  function FormatHex(bytes: seq<byte>): (s: string)
    ensures |s| == 2 * |bytes|
    ensures forall k :: 0 <= k < |bytes| ==> s[2 * k..2 * k + 2] == FormatByte(bytes[k])
  {
    if bytes == [] then [] else
      var rest := FormatHex(bytes[1..]);
      var s := FormatByte(bytes[0]) + rest;
      assert forall k :: 1 <= k < |bytes| ==> s[2 * k..2 * k + 2] == rest[2 * (k - 1)..2 * (k - 1) + 2];
      s
  }

  lemma FormatHexDigits(bytes: seq<byte>)
    ensures HexDigits(FormatHex(bytes))
  {
    var s := FormatHex(bytes);
    forall i | 0 <= i < |s| / 2 * 2
      ensures IsHexDigit(s[i])
    {
      var k := i / 2;
      assert s[i] == s[2 * k..2 * k + 2][i - 2 * k];
    }
  }

  /** Decoding what `%02X` printed gives back the bytes. */
  lemma DecodeFormatted(bytes: seq<byte>)
    ensures HexDigits(FormatHex(bytes))
    ensures HexToBytes(FormatHex(bytes)) == bytes
  {
    var s := FormatHex(bytes);
    FormatHexDigits(bytes);
    HexToBytesAt(s);
    forall k | 0 <= k < |bytes|
      ensures HexToBytes(s)[k] == bytes[k]
    {
      assert s[2 * k] == s[2 * k..2 * k + 2][0] && s[2 * k + 1] == s[2 * k..2 * k + 2][1];
      FormatByteRoundTrip(bytes[k]);
    }
  }

  // ---------------------------------------------------------------------------
  // `printByteArray`
  // ---------------------------------------------------------------------------

  const ByteArrayLabel: string := "Byte array: "

  /** One byte as `%02X ` prints it: two digits that read back as the byte, then a space. */
  function Cell(b: byte): (s: string)
    ensures |s| == 3 && IsHexDigit(s[0]) && IsHexDigit(s[1]) && s[2] == ' '
    ensures PairValue(s[0], s[1]) == b
  {
    FormatByteRoundTrip(b);
    FormatByte(b) + [' ']
  }

  /** A slice that lies wholly in the second part of a concatenation. */
  lemma SliceOfSuffix<T>(a: seq<T>, b: seq<T>, i: nat, j: nat)
    requires |a| <= i <= j <= |a| + |b|
    ensures (a + b)[i..j] == b[i - |a|..j - |a|]
  {
  }

  /** Each byte printed with `%02X ` after the label: two digits and a space. */
  function Spaced(bytes: seq<byte>): (s: string)
    ensures |s| == 3 * |bytes|
    ensures forall k :: 0 <= k < |bytes| ==> s[3 * k..3 * k + 3] == Cell(bytes[k])
  {
    if bytes == [] then [] else
      var rest := Spaced(bytes[1..]);
      var s := Cell(bytes[0]) + rest;
      assert forall k :: 1 <= k < |bytes| ==> s[3 * k..3 * k + 3] == rest[3 * (k - 1)..3 * (k - 1) + 3] by {
        forall k | 1 <= k < |bytes| {
          SliceOfSuffix(Cell(bytes[0]), rest, 3 * k, 3 * k + 3);
        }
      }
      s
  }

  /** The text `printByteArray` writes: the label, each byte in turn, a newline. */
  function ByteArrayText(bytes: seq<byte>): (t: string)
    ensures |t| == |ByteArrayLabel| + 3 * |bytes| + 1
    ensures t[..|ByteArrayLabel|] == ByteArrayLabel && t[|t| - 1] == '\n'
  {
    ByteArrayLabel + Spaced(bytes) + "\n"
  }

  /** The printed text reads back: byte `k` is the pair of digits at column 12 + 3k. */
  lemma ByteArrayTextReadsBack(bytes: seq<byte>, k: nat)
    requires k < |bytes|
    ensures var t, at := ByteArrayText(bytes), |ByteArrayLabel| + 3 * k;
      IsHexDigit(t[at]) && IsHexDigit(t[at + 1]) && t[at + 2] == ' ' && PairValue(t[at], t[at + 1]) == bytes[k]
  {
    var t, s := ByteArrayText(bytes), Spaced(bytes);
    var at := |ByteArrayLabel| + 3 * k;
    var cell := s[3 * k..3 * k + 3];
    assert cell == Cell(bytes[k]);
    assert t[at] == cell[0] && t[at + 1] == cell[1] && t[at + 2] == cell[2];
  }

  /** Formatting the value of two digits prints them again, in upper case. */
  lemma FormatPair(hi: char, lo: char)
    requires IsHexDigit(hi) && IsHexDigit(lo)
    ensures FormatByte(PairValue(hi, lo)) == [Upper(hi), Upper(lo)]
  {
    var f := FormatByte(PairValue(hi, lo));
    PairValueDigits(hi, lo);
    UpperUnique(f[0], Upper(hi));
    UpperUnique(f[1], Upper(lo));
  }

  /** A string of hexadecimal digits in upper case. */
  function UpperHex(s: string): (u: string)
    requires forall i :: 0 <= i < |s| ==> IsHexDigit(s[i])
    ensures |u| == |s| && forall i :: 0 <= i < |s| ==> u[i] == Upper(s[i])
  {
    seq(|s|, i requires 0 <= i < |s| => Upper(s[i]))
  }

  /** In a string of even length the decoder reads every character. */
  lemma EvenHexDigits(s: string)
    requires |s| % 2 == 0 && HexDigits(s)
    ensures forall i :: 0 <= i < |s| ==> IsHexDigit(s[i])
  {
    assert |s| / 2 * 2 == |s|;
  }

  lemma UpperHexCons(s: string)
    requires |s| >= 2 && forall i :: 0 <= i < |s| ==> IsHexDigit(s[i])
    ensures UpperHex(s) == [Upper(s[0]), Upper(s[1])] + UpperHex(s[2..])
  {
  }

  lemma FormatHexCons(bytes: seq<byte>)
    requires bytes != []
    ensures FormatHex(bytes) == FormatByte(bytes[0]) + FormatHex(bytes[1..])
  {
  }

  /** Formatting decoded bytes gives back the string, in upper case. */
  lemma {:induction false} FormatDecoded(s: string)
    requires |s| % 2 == 0 && HexDigits(s)
    ensures forall i :: 0 <= i < |s| ==> IsHexDigit(s[i])
    ensures FormatHex(HexToBytes(s)) == UpperHex(s)
    decreases |s|
  {
    EvenHexDigits(s);
    if |s| >= 2 {
      var t := s[2..];
      HexDigitsTail(s);
      FormatDecoded(t);
      var b := HexToBytes(s);
      assert b == [PairValue(s[0], s[1])] + HexToBytes(t);
      FormatHexCons(b);
      assert b[1..] == HexToBytes(t);
      FormatPair(s[0], s[1]);
      UpperHexCons(s);
    }
  }

  /** An upper-case digit is determined by its value. */
  lemma UpperUnique(c: char, d: char)
    requires IsHexDigit(c) && IsHexDigit(d) && !('a' <= c <= 'f') && !('a' <= d <= 'f')
    requires DigitValue(c) == DigitValue(d)
    ensures c == d
  {
  }

  // ---------------------------------------------------------------------------
  // `PiProtErrorToString`
  // ---------------------------------------------------------------------------

  const MessageOk: string := "OK."
  const MessageBadHeader: string := "Invalid header!"
  const MessageBadCrc: string := "CRC validation failed!"
  const MessageUnknown: string := "Unknown error."

  /**
   * `PiProtErrorToString`. Its argument is an enum, which C lets hold any
   * integer; the three declared codes have their own messages, every other
   * value the fallback one.
   */
  function ErrorToString(error: int): (m: string)
    ensures m == MessageOk <==> error == 0
    ensures m == MessageBadHeader <==> error == 1
    ensures m == MessageBadCrc <==> error == 3
    ensures m == MessageUnknown <==> error !in {0, 1, 3}
  {
    match error
    case 0 => MessageOk
    case 1 => MessageBadHeader
    case 3 => MessageBadCrc
    case _ => MessageUnknown
  }

  /** The fallback message is for exactly the numbers that name no result of the check. */
  lemma ErrorToStringOfCode(error: int)
    ensures ErrorToString(error) == MessageUnknown <==> Validator.ErrorOfCode(error).None?
    ensures forall e: Validator.ProtError :: Validator.Code(e) == error ==> ErrorToString(error) != MessageUnknown
  {
  }

  /** The check's three results have three different messages. */
  lemma MessagesDistinct(a: Validator.ProtError, b: Validator.ProtError)
    ensures ErrorToString(Validator.Code(a)) == ErrorToString(Validator.Code(b)) <==> a == b
  {
  }
}
