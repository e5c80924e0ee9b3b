# PiStart telemetry decoder, modelled in Dafny

PiStart receives 56-byte telemetry packets from an inertial measurement
unit. Each packet (`PiProt_t`) carries a header, a sequence number, the sensor
block (`PiMainData_t`: flags, faults, three accelerometer axes, three
gyroscope axes, three magnetometer axes, pressure), one multiplexed word and a
CRC-32. `piCheckProtBuffer` accepts a packet when its header is `PI_HEADER`
(0x3141) and the CRC-32 of bytes 2 to 51 equals the CRC stored
little-endian in bytes 52 to 55. `piCrc32` is built either bit by bit or with
a 256-entry lookup table. The demo program `pistart.c` turns hex strings into
byte buffers, checks them and prints one report line per packet.

The model keeps the C code's structure, one module per concern:

| file | module | what it holds |
|---|---|---|
| bytes.dfy | `Bytes` | little-endian reading and writing of 16- and 32-bit words |
| crc32.dfy | `Crc32` | the bit-by-bit `piCrc32`: shift step, inner loop, outer fold, the loops as methods |
| crc32_table.dfy | `Crc32Lookup` | the literal table, the table-driven `piCrc32`, and the proof that both variants agree |
| crc32_props.dfy | `Crc32Properties` | the check value, the `CRC32_REMINDER` residue, single-byte error detection |
| packet.dfy | `Packet` | `PiProt_t` and `PiMainData_t` as records, with `Encode`/`Decode` for the packed layout |
| validator.dfy | `Validator` | `PiProtError_t` and `piCheckProtBuffer` |
| bitfields.dfy | `Bitfields` | the bit-field words `PiFlags_t`, `PiFault_t`, `PiDate_t`, `PiVersion_t` |
| hexstring.dfy | `HexString` | `hexStringToByteArray`, the `%02X` format, `printByteArray`, `PiProtErrorToString` |
| report.dfy | `Report` | `printPacket` and `parsePacket`, as the record of the printed columns |
| demo.dfy | `Demo` | the verdicts for the demo packets of `main`, including the three deliberately corrupted ones |

The C struct overlay becomes an explicit pair of functions between the record
and its bytes. Every integer field is kept as a bit-vector of its C width, so
wrap-around is exact. The packet check is stated with the bit-by-bit CRC. The
table-driven CRC is proved equal to it on every buffer, so the results hold
whichever variant `PI_SOFT_CRC` selects.

Two facts about the code are worth noting:
- `PiFlags_t` declares ten one-bit overrange fields: gyroscope x/y/z, accelerometer x/y/z, magnetometer x/y/z and pressure. They sit in bits 3 to 12.
- The first demo packet (`pistart.c:61`) holds the sequence bytes `0b 31`. Read little-endian, that is 0x310B (`Demo.Packet61Sequence`).

## Model

| member | source | states |
|---|---|---|
| Bytes.LowByte | pi.h:148 | the low eight bits of a 32-bit word, the first byte it is stored as |
| Bytes.Le16 | pi.h:139-154 | a 16-bit field stored low byte first, as the packed union lays it over `ui8`; `ReadLe16OfLe16` and `Le16OfReadLe16` make it the inverse of `ReadLe16` |
| Bytes.Le32 | pi.h:139-154 | a 32-bit field stored in four bytes, least significant first; `ReadLe32OfLe32` and `Le32OfReadLe32` make it the inverse of `ReadLe32` |
| Bytes.ReadLe16 | pi.h:139-154 | the 16-bit field read from two bytes, low byte first |
| Bytes.ReadLe32 | pi.h:139-154 | the 32-bit field read from four bytes, least significant first |
| Bytes.ReadLe16OfLe16 | pi.h:139-154 | a 16-bit value written and read back is unchanged |
| Bytes.ReadLe32OfLe32 | pi.h:139-154 | a 32-bit value written and read back is unchanged |
| Bytes.Le16OfReadLe16 | pi.h:139-154 | two bytes read as a 16-bit value and written again are the same bytes |
| Bytes.Le32OfReadLe32 | pi.h:139-154 | four bytes read as a 32-bit value and written again are the same bytes |
| Crc32.ShiftStep | pi.h:196-199 | one pass of the inner loop: shift right, XOR-ing in the polynomial when a one falls out; `ShiftStepInjective` shows it loses nothing |
| Crc32.ShiftStepInjective | pi.h:196-199 | different registers stay different after one shift, because the top bit records the bit shifted out |
| Crc32.ShiftSteps | pi.h:194-200 | the register after the first `n` passes of the inner loop |
| Crc32.ByteShift | pi.h:194-200 | the whole inner loop, eight shifts; `ByteShiftInjective` and `Crc32Lookup.ByteShiftIsLookup` say what it does |
| Crc32.BitwiseUpdate | pi.h:193-200 | one pass of the outer loop: XOR the byte in, then run the inner loop; `UpdateBitwise` is the loop as written |
| Crc32.BitwiseRegister | pi.h:191-201 | the register once the outer loop has consumed the data; `BitwiseRegisterAppend` and `BitwiseRegisterSnoc` say how it grows |
| Crc32.Crc32Bitwise | pi.h:188-203 | the bit-by-bit `piCrc32`: start from 0xFFFFFFFF, feed the data, complement; `CheckValueHolds`, `Residue` and `SingleByteChangeDetected` say what it guarantees |
| Crc32.UpdateBitwise | pi.h:193-200 | one pass of the outer loop, written as XOR then eight conditional shifts, leaves the register that the byte fold takes one step to |
| Crc32.ComputeBitwise | pi.h:188-203 | the bit-by-bit loop over the first `len` bytes returns the CRC of exactly those bytes |
| Crc32.ByteShiftInjective | pi.h:194-200 | the eight-shift inner loop loses no information: different registers stay different |
| Crc32.BitwiseRegisterAppend | pi.h:191-201 | feeding `a` and then `b` leaves the same register as feeding `a + b`, so the loop can stop and resume anywhere |
| Crc32.BitwiseRegisterSnoc | pi.h:191-201 | one more byte is one more pass of the outer loop |
| Crc32.Crc32BitwiseEmpty | pi.h:188-203 | the CRC of an empty buffer is 0, because the initial value and the final XOR cancel |
| Crc32Lookup.CrcTable | pi.h:218-270 | the literal `crc32_ccitt_table`, entry by entry; `TableMatchesPolynomial` shows each entry is eight polynomial shifts of its index |
| Crc32Lookup.TableUpdate | pi.h:289 | the table loop body on any 256-entry table; `UpdatesAgree` shows it equals one bit-by-bit pass when the table has the lookup property |
| Crc32Lookup.TableRegister | pi.h:287-290 | the register once the table loop has consumed the data; `RegistersAgree` relates it to the bit-by-bit register |
| Crc32Lookup.Crc32Table | pi.h:284-292 | the table-driven `piCrc32`; `Crc32VariantsAgree` shows it equals `Crc32.Crc32Bitwise` |
| Crc32Lookup.Crc32TableEmpty | pi.h:284-292 | the table-driven CRC of an empty buffer is 0 too |
| Crc32Lookup.ByteShiftIsLookup | pi.h:218-270 | for every register, one lookup on the low byte, XOR-ed with the register shifted right by eight, equals eight polynomial shifts |
| Crc32Lookup.TableMatchesPolynomial | pi.h:218-270 | every entry `i` of the literal table equals eight shifts of `i` with the polynomial 0xEDB88320 |
| Crc32Lookup.TableExamples | pi.h:219-244 | entry 1 is 0x77073096, and entry 128 is the polynomial itself |
| Crc32Lookup.UpdatesAgree | pi.h:289 | any table with the lookup property makes the table loop step like the bit-by-bit loop, on every register and byte |
| Crc32Lookup.RegistersAgree | pi.h:287-290 | such a table makes the two loops leave the same register after any buffer |
| Crc32Lookup.Crc32VariantsAgree | pi.h:175-293 | both build variants of `piCrc32` compute the same CRC on every buffer up to 65535 bytes, so the table-driven one the default build uses can be reasoned about as the bit-by-bit one |
| Crc32Lookup.LookupStep | pi.h:289 | the loop body as written, with the literal table, leaves the same register as one pass of the bit-by-bit loop: one lookup does the work of XOR-ing the byte in and shifting eight times |
| Crc32Lookup.TableLoop | pi.h:285-291 | the table loop as written computes, for any 256-entry table, the table fold of the first `len` bytes, complemented |
| Crc32Lookup.ComputeTable | pi.h:284-292 | the table-driven `piCrc32` as written returns the CRC of the first `len` bytes, the same value the bit-by-bit variant computes |
| Crc32Properties.CheckValueHolds | pi.h:171-172 | the parameters give the published IEEE check value: CRC of "123456789" is 0xCBF43926, in both variants |
| Crc32Properties.ResidueOfRegister | pi.h:173 | feeding any register its own complement, low byte first, leaves 0xDEBB20E3 whatever the register |
| Crc32Properties.Residue | pi.h:173 | any message followed by its own CRC, low byte first, has CRC `CRC32_REMINDER` (0x2144DF1C) |
| Crc32Properties.ComplementSettles | pi.h:289 | once complement bytes are fed to the table loop, the unknown part of the register cancels byte by byte |
| Crc32Properties.BitwiseRegisterInjective | pi.h:191-201 | whatever bytes follow, two different registers never meet |
| Crc32Properties.SingleByteChangeDetected | pi.h:188-203 | changing any one byte of a message changes its CRC |
| Packet.EncodeAxes | pi.h:132-134 | three 32-bit axis words laid out in twelve bytes; `DecodeEncodeAxes` and `EncodeDecodeAxes` make `DecodeAxes` its inverse |
| Packet.DecodeAxes | pi.h:132-134 | three axis words read from twelve bytes |
| Packet.EncodeMainData | pi.h:128-137 | `PiMainData_t` laid out in its 44 packed bytes: flags, fault, accelerometer, gyroscope, magnetometer, pressure |
| Packet.DecodeMainData | pi.h:128-137 | `PiMainData_t` read from 44 bytes; `DecodeEncodeMainData` and `EncodeDecodeMainData` make it the inverse of `EncodeMainData` |
| Packet.Encode | pi.h:139-154 | `PiProt_t` laid out in its 56 packed bytes: header, sequence, main data, mux, CRC |
| Packet.Decode | pi.h:139-154 | the packet a buffer holds, as the cast in pi.h:310 reads it; `DecodeEncode` and `EncodeDecode` make it the inverse of `Encode` |
| Packet.Covered | pi.h:316 | the bytes the CRC covers are bytes 2 to 51 of the encoded packet: sequence, main data and mux |
| Packet.EncodedCovered | pi.h:139-154 | those covered bytes are the sequence, the main data and the mux, in wire order |
| Packet.DecodeEncodeAxes | pi.h:132-134 | three little-endian axis words read back as written |
| Packet.EncodeDecodeAxes | pi.h:132-134 | twelve bytes read as three axis words and written again are the same bytes |
| Packet.DecodeEncodeMainData | pi.h:128-137 | `PiMainData_t` laid out in 44 bytes reads back as the same record |
| Packet.EncodeDecodeMainData | pi.h:128-137 | any 44 bytes read as `PiMainData_t` and laid out again are the same bytes |
| Packet.DecodeEncode | pi.h:139-154 | a packet laid out in 56 bytes reads back as the same packet |
| Packet.EncodeDecode | pi.h:139-154 | the first 56 bytes of any buffer, read as a packet and laid out again, are unchanged, so every bit belongs to one field |
| Packet.DecodeDependsOnPacketBytes | pi.h:309-310 | the packet read from a buffer depends only on its first 56 bytes |
| Validator.Code | pi.h:165-169 | the number each result is declared with: 0, 1 and 3; `CodeRoundTrip` and `CodeInjective` show no two share one |
| Validator.ErrorOfCode | pi.h:165-169 | a number read as a result is that result's declared value |
| Validator.CodeRoundTrip | pi.h:165-169 | every result is named by its declared value 0, 1 or 3 |
| Validator.CodeInjective | pi.h:165-169 | no two results share a number |
| Validator.HeaderBytes | pi.h:312 | the stored header equals `PI_HEADER` exactly when the first two bytes are 41 31 |
| Validator.CheckProtBuffer | pi.h:309-320 | BadHeader exactly when the header bytes are wrong, whatever else the buffer holds. BadCrc exactly when the header is right and the covered bytes' CRC differs from the stored one. Ok otherwise |
| Validator.CoveredOfDecode | pi.h:316 | the bytes the check hashes are the covered fields of the packet the buffer holds |
| Validator.CheckOfRecord | pi.h:309-320 | in record terms: BadHeader iff the header field is wrong; Ok iff the header is right and the crc32 field is the CRC of the covered fields |
| Validator.SealedIsAccepted | pi.h:309-320 | any packet given the right header and the CRC of its covered fields is accepted |
| Validator.AcceptedIsSealed | pi.h:309-320 | every accepted buffer holds such a sealed packet |
| Validator.CheckReadsOnlyThePacket | pi.h:309-320 | buffers that agree on their first 56 bytes get the same verdict |
| Validator.CoveredByteChange | pi.h:316 | changing one covered byte changes the computed CRC and leaves the stored CRC alone |
| Validator.StoredByteChange | pi.h:316 | changing one byte of the stored CRC changes the stored value and leaves the covered bytes alone |
| Validator.SingleByteCorruptionRejected | pi.h:309-320 | an accepted packet with any one of its 56 bytes changed is rejected: BadHeader if the byte is in the header, BadCrc otherwise |
| Bitfields.AxesOf | pi.h:81-91 | three one-bit overrange flags read from the low three bits of a word |
| Bitfields.AxesBits | pi.h:81-91 | three overrange flags packed into three bits |
| Bitfields.FlagsWord | pi.h:77-96 | flags fields packed into their word; `FlagsWordOf` and `FlagsOfWord` make it the inverse of `FlagsOf` |
| Bitfields.AxesOfBits | pi.h:81-91 | three overrange flags packed into three bits read back unchanged |
| Bitfields.BitsOfAxes | pi.h:81-91 | reading three overrange flags from a word and packing them again gives the word's low three bits |
| Bitfields.FlagsOf | pi.h:77-96 | the fields read from any flags word fit their declared widths |
| Bitfields.FlagsWordOf | pi.h:77-96 | reading the fields of a flags word and packing them gives the word back, so every bit belongs to a field |
| Bitfields.FlagsOfWord | pi.h:77-96 | packing valid flags fields and reading them back gives the fields, so no two fields share a bit |
| Bitfields.FlagsFieldBits | pi.h:79-93 | two flags words agree on a field exactly when they agree on the bits of its mask: state 0-2, gyroscope 3-5, accelerometer 6-8, magnetometer 9-11, pressure 12, undeclared 13-15 |
| Bitfields.FlagsAssign | pi.h:77-96 | writing new flags fields reads back as them, and every field left unchanged keeps its bits in the word |
| Bitfields.FaultOf | pi.h:50-75 | the eleven fault flags and the reserved field read from a fault word, each field fitting its width |
| Bitfields.FaultWord | pi.h:50-75 | fault fields packed into their word; `FaultWordOf` and `FaultOfWord` make it the inverse of `FaultOf` |
| Bitfields.FaultFlagBits | pi.h:51-70 | the eleven fault flags occupy only bits 0 to 10 |
| Bitfields.FaultWordOf | pi.h:50-75 | reading the fields of a fault word and packing them gives the word back |
| Bitfields.FaultOfFlagBits | pi.h:51-70 | the eleven fault flags packed into bits 0-10 read back unchanged |
| Bitfields.FaultOfWord | pi.h:50-75 | packing valid fault fields and reading them back gives the fields |
| Bitfields.FaultFieldBits | pi.h:51-72 | two fault words agree on a flag exactly when they agree on its bit, and on the reserved field exactly when they agree on bits 11-15 |
| Bitfields.FaultAssign | pi.h:50-75 | writing new fault fields reads back as them, and unchanged fields keep their bits |
| Bitfields.DateOf | pi.h:32-39 | day, month and year read from a date word, each fitting its width |
| Bitfields.DateWord | pi.h:32-39 | day, month and year packed into a word; `DateWordOf` and `DateOfWord` make it the inverse of `DateOf` |
| Bitfields.DateWordOf | pi.h:32-39 | reading day, month and year from a date word and packing them gives the word back |
| Bitfields.DateOfWord | pi.h:32-39 | packing a valid day, month and year and reading them back gives them |
| Bitfields.DateFieldBits | pi.h:35-37 | two date words agree on day, month, year exactly when they agree on bits 0-4, 5-8, 9-15 |
| Bitfields.DateAssign | pi.h:32-39 | writing new date fields reads back as them, and unchanged fields keep their bits |
| Bitfields.VersionOf | pi.h:41-48 | build, minor and major read from a version word, each fitting its width |
| Bitfields.VersionWord | pi.h:41-48 | build, minor and major packed into a word; `VersionWordOf` and `VersionOfWord` make it the inverse of `VersionOf` |
| Bitfields.VersionWordOf | pi.h:41-48 | reading build, minor and major from a version word and packing them gives the word back |
| Bitfields.VersionOfWord | pi.h:41-48 | packing a valid build, minor and major and reading them back gives them |
| Bitfields.VersionFieldBits | pi.h:44-46 | two version words agree on build, minor, major exactly when they agree on bits 0-7, 8-12, 13-15 |
| Bitfields.VersionAssign | pi.h:41-48 | writing new version fields reads back as them, and unchanged fields keep their bits |
| HexString.DigitValue | pistart.c:156 | a hexadecimal digit in either case is worth less than 16 |
| HexString.UpperDigit | pistart.c:171 | the digit `%X` prints for a nibble is a hexadecimal digit, not lower case, and worth that nibble |
| HexString.PairValue | pistart.c:155-156 | `strtol` in base 16 on two digits; `PairValueDigits` splits it into the high and the low nibble |
| HexString.PairValueDigits | pistart.c:155-156 | the byte read from two digits has the first as its high nibble and the second as its low nibble |
| HexString.HexToBytes | pistart.c:150-160 | the decoded byte count is half the string length, rounded down |
| HexString.HexToBytesAt | pistart.c:150-160 | byte `k` of the decoded string is the value of characters `2k` and `2k+1` |
| HexString.HexStringToByteArray | pistart.c:150-160 | the loop as written produces `strlen/2` bytes, and byte `k` is 16 × digit `2k` + digit `2k+1` |
| HexString.OddCharacterIgnored | pistart.c:151-156 | a trailing odd character is never read and changes nothing |
| HexString.FormatByte | pistart.c:171 | `%02X` prints two upper-case digits worth the high and the low nibble |
| HexString.FormatByteRoundTrip | pistart.c:171 | reading back a byte printed with `%02X` gives the byte |
| HexString.FormatHex | pistart.c:170-172 | bytes printed back to back put byte `k` at characters `2k` and `2k+1` |
| HexString.FormatHexDigits | pistart.c:170-172 | such a printout is a string the decoder reads in full |
| HexString.DecodeFormatted | pistart.c:150-172 | decoding what `%02X` printed gives back the bytes |
| HexString.FormatPair | pistart.c:150-172 | printing the value of two digits gives the same two digits, in upper case |
| HexString.FormatDecoded | pistart.c:150-172 | printing what an even-length hex string decodes to gives the string back, in upper case |
| HexString.Cell | pistart.c:171 | `%02X ` prints two hexadecimal digits that read back as the byte, followed by a space |
| HexString.Spaced | pistart.c:170-172 | in the byte list, byte `k` sits at characters `3k` to `3k+2` |
| HexString.ByteArrayText | pistart.c:168-174 | the printed text is the label, then three characters per byte, then a newline |
| HexString.ByteArrayTextReadsBack | pistart.c:168-174 | byte `k` can be read back from the two digits at column 12 + 3k, which are followed by a space |
| HexString.ErrorToString | pistart.c:182-192 | each declared result gets its own message, and every other number gets the fallback |
| HexString.ErrorToStringOfCode | pistart.c:182-192 | the fallback message is used for exactly the numbers that name no result |
| HexString.MessagesDistinct | pistart.c:182-192 | different results get different messages |
| Report.PrintPacket | pistart.c:126-136 | the reported result is 0 exactly when the header column is `PI_HEADER` and the two CRC columns agree; 1 exactly when the header is wrong; 3 otherwise. The recomputed CRC column is always the CRC of bytes 2-51. The message is the result's own |
| Report.ReportOfEncoded | pistart.c:126-136 | reporting an encoded packet shows its header, sequence, gyroscope, accelerometer and stored CRC, plus the CRC of its covered fields |
| Report.SealedReport | pistart.c:126-136 | a sealed packet is reported as result 0 "OK.", with equal CRC columns |
| Report.ParsePacket | pistart.c:112-116 | a hex string is reported as the bytes it decodes to, and as result 1 exactly when its first four digits do not read 41 31 |
| Demo.RegisterOfRuns | pi.h:191-201 | feeding runs of bytes one after another passes through the register each run leaves |
| Demo.CheckOfDemo | pi.h:309-320 | the verdict on a demo packet depends only on its header bytes and on whether its stored CRC equals the last register, complemented |
| Demo.Text61Length | pistart.c:61 | the string at line 61 has 112 characters, two for each of the 56 bytes of a packet |
| Demo.Text62Length | pistart.c:62 | the string at line 62 has 112 characters, two for each of the 56 bytes of a packet |
| Demo.Text63Length | pistart.c:63 | the string at line 63 has 112 characters, two for each of the 56 bytes of a packet |
| Demo.Text64Length | pistart.c:64 | the string at line 64 has 112 characters, two for each of the 56 bytes of a packet |
| Demo.Text65Length | pistart.c:65 | the string at line 65 has 112 characters, two for each of the 56 bytes of a packet |
| Demo.Text66Length | pistart.c:66 | the string at line 66 has 112 characters, two for each of the 56 bytes of a packet |
| Demo.Text67Length | pistart.c:67 | the string at line 67 has 112 characters, two for each of the 56 bytes of a packet |
| Demo.Text68Length | pistart.c:68 | the string at line 68 has 112 characters, two for each of the 56 bytes of a packet |
| Demo.Text69Length | pistart.c:69 | the string at line 69 has 112 characters, two for each of the 56 bytes of a packet |
| Demo.Text70Length | pistart.c:70 | the string at line 70 has 112 characters, two for each of the 56 bytes of a packet |
| Demo.Text71Length | pistart.c:71 | the string at line 71 has 112 characters, two for each of the 56 bytes of a packet |
| Demo.Text72Length | pistart.c:72 | the string at line 72 has 112 characters, two for each of the 56 bytes of a packet |
| Demo.Text73Length | pistart.c:73 | the string at line 73 has 112 characters, two for each of the 56 bytes of a packet |
| Demo.Text74Length | pistart.c:74 | the string at line 74 has 112 characters, two for each of the 56 bytes of a packet |
| Demo.Text75Length | pistart.c:75 | the string at line 75 has 112 characters, two for each of the 56 bytes of a packet |
| Demo.Text76Length | pistart.c:76 | the string at line 76 has 112 characters, two for each of the 56 bytes of a packet |
| Demo.Text77Length | pistart.c:77 | the string at line 77 has 112 characters, two for each of the 56 bytes of a packet |
| Demo.Text78Length | pistart.c:78 | the string at line 78 has 112 characters, two for each of the 56 bytes of a packet |
| Demo.Text79Length | pistart.c:79 | the string at line 79 has 112 characters, two for each of the 56 bytes of a packet |
| Demo.Text80Length | pistart.c:80 | the string at line 80 has 112 characters, two for each of the 56 bytes of a packet |
| Demo.Text81Length | pistart.c:81 | the string at line 81 has 112 characters, two for each of the 56 bytes of a packet |
| Demo.Text82Length | pistart.c:82 | the string at line 82 has 112 characters, two for each of the 56 bytes of a packet |
| Demo.Text83Length | pistart.c:83 | the string at line 83 has 112 characters, two for each of the 56 bytes of a packet |
| Demo.Text84Length | pistart.c:84 | the string at line 84 has 112 characters, two for each of the 56 bytes of a packet |
| Demo.Text86Length | pistart.c:86 | the string at line 86 has 112 characters, two for each of the 56 bytes of a packet |
| Demo.Text88Length | pistart.c:88 | the string at line 88 has 112 characters, two for each of the 56 bytes of a packet |
| Demo.Packet61Accepted | pistart.c:61 | the unaltered packet at line 61 is accepted |
| Demo.Packet62Accepted | pistart.c:62 | the unaltered packet at line 62 is accepted |
| Demo.Packet63Accepted | pistart.c:63 | the unaltered packet at line 63 is accepted |
| Demo.Packet64Accepted | pistart.c:64 | the unaltered packet at line 64 is accepted |
| Demo.Packet65Accepted | pistart.c:65 | the unaltered packet at line 65 is accepted |
| Demo.Packet66Accepted | pistart.c:66 | the unaltered packet at line 66 is accepted |
| Demo.Packet67Accepted | pistart.c:67 | the unaltered packet at line 67 is accepted |
| Demo.Packet68Accepted | pistart.c:68 | the unaltered packet at line 68 is accepted |
| Demo.Packet69Accepted | pistart.c:69 | the unaltered packet at line 69 is accepted |
| Demo.Packet70Accepted | pistart.c:70 | the unaltered packet at line 70 is accepted |
| Demo.Packet71Accepted | pistart.c:71 | the unaltered packet at line 71 is accepted |
| Demo.Packet72Accepted | pistart.c:72 | the unaltered packet at line 72 is accepted |
| Demo.Packet73Accepted | pistart.c:73 | the unaltered packet at line 73 is accepted |
| Demo.Packet74Accepted | pistart.c:74 | the unaltered packet at line 74 is accepted |
| Demo.Packet75Accepted | pistart.c:75 | the unaltered packet at line 75 is accepted |
| Demo.Packet76Accepted | pistart.c:76 | the unaltered packet at line 76 is accepted |
| Demo.Packet77Accepted | pistart.c:77 | the unaltered packet at line 77 is accepted |
| Demo.Packet78Accepted | pistart.c:78 | the unaltered packet at line 78 is accepted |
| Demo.Packet79Accepted | pistart.c:79 | the unaltered packet at line 79 is accepted |
| Demo.Packet80Accepted | pistart.c:80 | the unaltered packet at line 80 is accepted |
| Demo.Packet81Accepted | pistart.c:81 | the unaltered packet at line 81 is accepted |
| Demo.Packet82Accepted | pistart.c:82 | the unaltered packet at line 82 is accepted |
| Demo.Packet83Accepted | pistart.c:83 | the unaltered packet at line 83 is accepted |
| Demo.Packet61Sequence | pistart.c:61 | its sequence number is 0x310B |
| Demo.Packet84Corrupts83 | pistart.c:83-85 | the packet at line 84 is the one at line 83 with byte 1 changed from 31 to 30 |
| Demo.Packet84BadHeader | pistart.c:84-85 | that packet is rejected for its header |
| Demo.Packet86Corrupts83 | pistart.c:83-87 | the packet at line 86 is the one at line 83 with byte 5 changed from 00 to 10 |
| Demo.Packet86Flags | pistart.c:86-87 | that byte turns the flags word from 0 to 0x1000, which sets only the pressure overrange flag |
| Demo.Packet86Crc | pistart.c:86 | the covered bytes of that packet have CRC 0x43C85461, not the stored 0x62EDFD74 |
| Demo.Packet86BadCrc | pistart.c:86-87 | that packet is rejected for its CRC |
| Demo.Packet88Corrupts86 | pistart.c:86-89 | the packet at line 88 is the one at line 86 with the top byte of the stored CRC changed |
| Demo.Packet88BadCrc | pistart.c:88-89 | that packet is also rejected for its CRC |

## Left out

- Floating-point conversions `fp1_14_17ToFloat`, `fp1_10_21ToFloat`, `fp17_15ToFloat` and the scale constants (pi.h:10-28) are left out: they are floating point. The report keeps the raw fixed-point axis words.
- `PiMux_t` and `PI_MUXFACTOR` (pi.h:8, 98-126) are left out. The packet carries the multiplexed word as a raw 32-bit value, and nothing in the core reassembles the 64-word block.
- The `printf` layout of `printPacket` (pistart.c:131-135) is left out: column widths and float formatting. The line is modelled as the record of its columns.
- The call sequence and output of `main` (pistart.c:58-102) are left out. The model holds its twenty-six demo packets and proves the verdict on each. The packets commented out at lines 91-98 are left out too.
- Demo: the demo packets are held as the bytes their strings stand for. That each string consists of hexadecimal digits and decodes to those bytes is not proved. The verifier cannot read individual characters of a 112-character literal within its resource limit, and decoding even a four-character literal costs a tenth of that limit.
- Demo.Text61Length: proves only that the string at pistart.c:61 has 112 characters. That it is all hexadecimal digits, and that it decodes to the bytes of `Demo.Packet61`, is not proved.
- Demo.Text62Length: proves only that the string at pistart.c:62 has 112 characters. That it is all hexadecimal digits, and that it decodes to the bytes of `Demo.Packet62`, is not proved.
- Demo.Text63Length: proves only that the string at pistart.c:63 has 112 characters. That it is all hexadecimal digits, and that it decodes to the bytes of `Demo.Packet63`, is not proved.
- Demo.Text64Length: proves only that the string at pistart.c:64 has 112 characters. That it is all hexadecimal digits, and that it decodes to the bytes of `Demo.Packet64`, is not proved.
- Demo.Text65Length: proves only that the string at pistart.c:65 has 112 characters. That it is all hexadecimal digits, and that it decodes to the bytes of `Demo.Packet65`, is not proved.
- Demo.Text66Length: proves only that the string at pistart.c:66 has 112 characters. That it is all hexadecimal digits, and that it decodes to the bytes of `Demo.Packet66`, is not proved.
- Demo.Text67Length: proves only that the string at pistart.c:67 has 112 characters. That it is all hexadecimal digits, and that it decodes to the bytes of `Demo.Packet67`, is not proved.
- Demo.Text68Length: proves only that the string at pistart.c:68 has 112 characters. That it is all hexadecimal digits, and that it decodes to the bytes of `Demo.Packet68`, is not proved.
- Demo.Text69Length: proves only that the string at pistart.c:69 has 112 characters. That it is all hexadecimal digits, and that it decodes to the bytes of `Demo.Packet69`, is not proved.
- Demo.Text70Length: proves only that the string at pistart.c:70 has 112 characters. That it is all hexadecimal digits, and that it decodes to the bytes of `Demo.Packet70`, is not proved.
- Demo.Text71Length: proves only that the string at pistart.c:71 has 112 characters. That it is all hexadecimal digits, and that it decodes to the bytes of `Demo.Packet71`, is not proved.
- Demo.Text72Length: proves only that the string at pistart.c:72 has 112 characters. That it is all hexadecimal digits, and that it decodes to the bytes of `Demo.Packet72`, is not proved.
- Demo.Text73Length: proves only that the string at pistart.c:73 has 112 characters. That it is all hexadecimal digits, and that it decodes to the bytes of `Demo.Packet73`, is not proved.
- Demo.Text74Length: proves only that the string at pistart.c:74 has 112 characters. That it is all hexadecimal digits, and that it decodes to the bytes of `Demo.Packet74`, is not proved.
- Demo.Text75Length: proves only that the string at pistart.c:75 has 112 characters. That it is all hexadecimal digits, and that it decodes to the bytes of `Demo.Packet75`, is not proved.
- Demo.Text76Length: proves only that the string at pistart.c:76 has 112 characters. That it is all hexadecimal digits, and that it decodes to the bytes of `Demo.Packet76`, is not proved.
- Demo.Text77Length: proves only that the string at pistart.c:77 has 112 characters. That it is all hexadecimal digits, and that it decodes to the bytes of `Demo.Packet77`, is not proved.
- Demo.Text78Length: proves only that the string at pistart.c:78 has 112 characters. That it is all hexadecimal digits, and that it decodes to the bytes of `Demo.Packet78`, is not proved.
- Demo.Text79Length: proves only that the string at pistart.c:79 has 112 characters. That it is all hexadecimal digits, and that it decodes to the bytes of `Demo.Packet79`, is not proved.
- Demo.Text80Length: proves only that the string at pistart.c:80 has 112 characters. That it is all hexadecimal digits, and that it decodes to the bytes of `Demo.Packet80`, is not proved.
- Demo.Text81Length: proves only that the string at pistart.c:81 has 112 characters. That it is all hexadecimal digits, and that it decodes to the bytes of `Demo.Packet81`, is not proved.
- Demo.Text82Length: proves only that the string at pistart.c:82 has 112 characters. That it is all hexadecimal digits, and that it decodes to the bytes of `Demo.Packet82`, is not proved.
- Demo.Text83Length: proves only that the string at pistart.c:83 has 112 characters. That it is all hexadecimal digits, and that it decodes to the bytes of `Demo.Packet83`, is not proved.
- Demo.Text84Length: proves only that the string at pistart.c:84 has 112 characters. That it is all hexadecimal digits, and that it decodes to the bytes of `Demo.Packet84`, is not proved.
- Demo.Text86Length: proves only that the string at pistart.c:86 has 112 characters. That it is all hexadecimal digits, and that it decodes to the bytes of `Demo.Packet86`, is not proved.
- Demo.Text88Length: proves only that the string at pistart.c:88 has 112 characters. That it is all hexadecimal digits, and that it decodes to the bytes of `Demo.Packet88`, is not proved.
- HexString.HexStringToByteArray: requires every character it reads to be a hexadecimal digit. What `strtol` makes of other characters, such as a leading sign or a stop at the first non-digit, is not modelled.
- HexString.HexStringToByteArray: requires at most 256 decoded bytes. A longer string overruns the caller's buffer (pistart.c:113), which is undefined behaviour in C.
- Report.ParsePacket: requires at least 112 characters. With fewer, `printPacket` reads buffer bytes that were never written, which has no defined value.
- Validator.CheckProtBuffer: requires a buffer of at least 56 bytes. The C function receives only the start address of the buffer and reads 56 bytes unconditionally.
- Crc32.Crc32Bitwise: requires at most 65535 bytes, because the length parameter is an `unsigned short`. Both call sites, pi.h:316 and pistart.c:129, pass 50.
- Bitfields: the one-bit fields of `PiFlags_t` are declared `int16_t` and read as 0 or -1 in C. They are booleans in the model.
- Bitfields: the allocation order of bit-fields is implementation-defined in C. The model fixes it least significant bit first, as on the targets this code is built for.
- Bitfields.FlagsOf: the three bits 13-15 that no field declares are kept in a `spare` field, so that a word survives reading and packing unchanged.
