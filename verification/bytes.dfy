/**
 *  Octets and the little-endian integer encodings used by the packet layout.
 *
 *  The packet record is declared `#pragma pack(1)` and is read on a
 *  little-endian host, so every multi-byte field is stored least significant
 *  byte first. The functions here make that explicit instead of relying on the
 *  aliasing of a C union.
 */

module Bytes {

  type byte = bv8

  /** The low eight bits of a 32-bit word. */
  function LowByte(w: bv32): (b: byte)
    ensures b as bv32 == w & 0xFF
  {
    (w & 0xFF) as byte
  }

  /** A 16-bit value stored least significant byte first. */
  function Le16(v: bv16): (s: seq<byte>)
    ensures |s| == 2
    ensures s[0] as bv16 == v & 0xFF && s[1] as bv16 == v >> 8
  {
    [(v & 0xFF) as byte, (v >> 8) as byte]
  }

  /** A 32-bit value stored least significant byte first. */
  function Le32(v: bv32): (s: seq<byte>)
    ensures |s| == 4
    ensures s[0] as bv32 == v & 0xFF && s[1] as bv32 == (v >> 8) & 0xFF
    ensures s[2] as bv32 == (v >> 16) & 0xFF && s[3] as bv32 == v >> 24
  {
    [LowByte(v), LowByte(v >> 8), LowByte(v >> 16), (v >> 24) as byte]
  }

  /** The 16-bit value stored at `s[at]`, `s[at + 1]`. */
  function ReadLe16(s: seq<byte>, at: nat): bv16
    requires at + 2 <= |s|
  {
    s[at] as bv16 | (s[at + 1] as bv16 << 8)
  }

  /** The 32-bit value stored at `s[at]` .. `s[at + 3]`. */
  function ReadLe32(s: seq<byte>, at: nat): bv32
    requires at + 4 <= |s|
  {
    s[at] as bv32 | (s[at + 1] as bv32 << 8) | (s[at + 2] as bv32 << 16) | (s[at + 3] as bv32 << 24)
  }

  lemma ReadLe16OfLe16(v: bv16)
    ensures ReadLe16(Le16(v), 0) == v
  {
  }

  lemma ReadLe32OfLe32(v: bv32)
    ensures ReadLe32(Le32(v), 0) == v
  {
  }

  /** Reading a 16-bit value and writing it back reproduces the two bytes. */
  lemma Le16OfReadLe16(s: seq<byte>, at: nat)
    requires at + 2 <= |s|
    ensures Le16(ReadLe16(s, at)) == s[at..at + 2]
  {
    var r := Le16(ReadLe16(s, at));
    assert r[0] == s[at];
    assert r[1] == s[at + 1];
  }

  /** Reading a 32-bit value and writing it back reproduces the four bytes. */
  lemma Le32OfReadLe32(s: seq<byte>, at: nat)
    requires at + 4 <= |s|
    ensures Le32(ReadLe32(s, at)) == s[at..at + 4]
  {
    var r := Le32(ReadLe32(s, at));
    assert r[0] == s[at];
    assert r[1] == s[at + 1];
    assert r[2] == s[at + 2];
    assert r[3] == s[at + 3];
  }

  /** Reading is local: it depends only on the bytes it covers. */
  lemma ReadLe32Window(s: seq<byte>, at: nat, t: seq<byte>, at': nat)
    requires at + 4 <= |s| && at' + 4 <= |t|
    requires s[at..at + 4] == t[at'..at' + 4]
    ensures ReadLe32(s, at) == ReadLe32(t, at')
  {
    assert s[at] == t[at'] && s[at + 1] == t[at' + 1];
    assert s[at + 2] == t[at' + 2] && s[at + 3] == t[at' + 3];
  }

  lemma ReadLe16Window(s: seq<byte>, at: nat, t: seq<byte>, at': nat)
    requires at + 2 <= |s| && at' + 2 <= |t|
    requires s[at..at + 2] == t[at'..at' + 2]
    ensures ReadLe16(s, at) == ReadLe16(t, at')
  {
    assert s[at] == t[at'] && s[at + 1] == t[at' + 1];
  }

  // ---------------------------------------------------------------------------
  // Regrouping concatenations, so that a field can be located in a record
  // ---------------------------------------------------------------------------

  /** The middle part of a three-part concatenation is the slice at its offset. */
  lemma Middle<T>(a: seq<T>, m: seq<T>, e: seq<T>)
    ensures (a + m + e)[|a|..|a| + |m|] == m
  {
  }

  lemma Split3<T>(a: seq<T>, b: seq<T>, c: seq<T>)
    ensures a + b + c == [] + a + (b + c)
    ensures a + b + c == a + b + c + []
  {
  }

  lemma Split5<T>(a: seq<T>, b: seq<T>, c: seq<T>, d: seq<T>, e: seq<T>)
    ensures a + b + c + d + e == [] + a + (b + c + d + e)
    ensures a + b + c + d + e == a + b + (c + d + e)
    ensures a + b + c + d + e == (a + b) + c + (d + e)
    ensures a + b + c + d + e == (a + b + c) + d + e
    ensures a + b + c + d + e == (a + b + c + d) + e + []
    ensures a + b + c + d + e == a + (b + c + d) + e
  {
  }

  lemma Split6<T>(a: seq<T>, b: seq<T>, c: seq<T>, d: seq<T>, e: seq<T>, f: seq<T>)
    ensures a + b + c + d + e + f == [] + a + (b + c + d + e + f)
    ensures a + b + c + d + e + f == a + b + (c + d + e + f)
    ensures a + b + c + d + e + f == (a + b) + c + (d + e + f)
    ensures a + b + c + d + e + f == (a + b + c) + d + (e + f)
    ensures a + b + c + d + e + f == (a + b + c + d) + e + f
    ensures a + b + c + d + e + f == (a + b + c + d + e) + f + []
  {
  }
}
