/**
 *  The 16-bit words with sub-fields: `PiFlags_t`, `PiFault_t`, `PiDate_t` and
 *  `PiVersion_t`.
 *
 *  C leaves the order in which bit-fields are allocated to the compiler; the
 *  model fixes it the way the targets of this code do, least significant bit
 *  first, so that the first declared field holds bit 0. Each word becomes a
 *  record with explicit masks and shifts in both directions. The one-bit
 *  fields declared `int16_t` read as 0 or -1 in C; they are booleans here.
 *
 *    flags    bits 0-2 state, 3-5 gyro x/y/z overrange, 6-8 accelerometer,
 *             9-11 magnetometer, 12 pressure, 13-15 not declared
 *    fault    bits 0-10 one flag each, 11-15 reserved
 *    date     bits 0-4 day, 5-8 month, 9-15 year
 *    version  bits 0-7 build, 8-12 minor, 13-15 major
 */

module Bitfields {

  function Bit(b: bool): (w: bv16)
    ensures w == 0 || w == 1
    ensures w == 1 <==> b
  {
    if b then 1 else 0
  }

  // ---------------------------------------------------------------------------
  // Flags
  // ---------------------------------------------------------------------------

  /** One overrange bit per axis. */
  datatype Axes = Axes(x: bool, y: bool, z: bool)

  function AxesBits(a: Axes): (w: bv16)
    ensures w < 8
  {
    Bit(a.x) | (Bit(a.y) << 1) | (Bit(a.z) << 2)
  }

  function AxesOf(w: bv16): Axes
  {
    Axes(w & 1 != 0, w & 2 != 0, w & 4 != 0)
  }

  lemma AxesOfBits(a: Axes)
    ensures AxesOf(AxesBits(a)) == a
  {
  }

  lemma BitsOfAxes(w: bv16)
    ensures AxesBits(AxesOf(w)) == w & 7
  {
  }

  /** `PiFlags_t`: the unit state, ten overrange bits and three bits no field declares. */
  datatype Flags = Flags(state: bv16, gyro: Axes, accl: Axes, magn: Axes, pressure: bool, spare: bv16)
  {
    /** The 3-bit fields hold 3-bit values. */
    predicate Valid()
    {
      state < 8 && spare < 8
    }
  }

  /** The state field reads 0 when the unit is ready; 1, 2 and 3 stand for prepare, warm-up and fault. */
  const StateReady: bv16 := 0

  function FlagsOf(w: bv16): (f: Flags)
    ensures f.Valid()
  {
    Flags(w & 7, AxesOf(w >> 3), AxesOf(w >> 6), AxesOf(w >> 9), w & 0x1000 != 0, w >> 13)
  }

  function FlagsWord(f: Flags): bv16
    requires f.Valid()
  {
    f.state | (AxesBits(f.gyro) << 3) | (AxesBits(f.accl) << 6) | (AxesBits(f.magn) << 9)
      | (Bit(f.pressure) << 12) | (f.spare << 13)
  }

  /** Reading the fields of a word and packing them again gives the word: every bit belongs to one field. */
  lemma FlagsWordOf(w: bv16)
    ensures FlagsWord(FlagsOf(w)) == w
  {
    BitsOfAxes(w >> 3);
    BitsOfAxes(w >> 6);
    BitsOfAxes(w >> 9);
  }

  /** Packing fields and reading them back gives the fields: no two fields share a bit. */
  lemma FlagsOfWord(f: Flags)
    requires f.Valid()
    ensures FlagsOf(FlagsWord(f)) == f
  {
    AxesOfBits(f.gyro);
    AxesOfBits(f.accl);
    AxesOfBits(f.magn);
  }

  /** Each field reads exactly the bits under its mask: two words agree on a field iff they agree on those bits. */
  lemma FlagsFieldBits(a: bv16, b: bv16)
    ensures FlagsOf(a).state == FlagsOf(b).state <==> a & 0x0007 == b & 0x0007
    ensures FlagsOf(a).gyro.x == FlagsOf(b).gyro.x <==> a & 0x0008 == b & 0x0008
    ensures FlagsOf(a).gyro.y == FlagsOf(b).gyro.y <==> a & 0x0010 == b & 0x0010
    ensures FlagsOf(a).gyro.z == FlagsOf(b).gyro.z <==> a & 0x0020 == b & 0x0020
    ensures FlagsOf(a).accl.x == FlagsOf(b).accl.x <==> a & 0x0040 == b & 0x0040
    ensures FlagsOf(a).accl.y == FlagsOf(b).accl.y <==> a & 0x0080 == b & 0x0080
    ensures FlagsOf(a).accl.z == FlagsOf(b).accl.z <==> a & 0x0100 == b & 0x0100
    ensures FlagsOf(a).magn.x == FlagsOf(b).magn.x <==> a & 0x0200 == b & 0x0200
    ensures FlagsOf(a).magn.y == FlagsOf(b).magn.y <==> a & 0x0400 == b & 0x0400
    ensures FlagsOf(a).magn.z == FlagsOf(b).magn.z <==> a & 0x0800 == b & 0x0800
    ensures FlagsOf(a).pressure == FlagsOf(b).pressure <==> a & 0x1000 == b & 0x1000
    ensures FlagsOf(a).spare == FlagsOf(b).spare <==> a & 0xE000 == b & 0xE000
  {
  }

  /**
   * Assigning fields of a flags word: the word holding the new fields reads
   * back as them, and every field left as it was keeps its bits.
   */
  lemma FlagsAssign(w: bv16, g: Flags)
    requires g.Valid()
    ensures FlagsOf(FlagsWord(g)) == g
    ensures var f, r := FlagsOf(w), FlagsWord(g);
      && (g.state == f.state ==> r & 0x0007 == w & 0x0007)
      && (g.gyro == f.gyro ==> r & 0x0038 == w & 0x0038)
      && (g.accl == f.accl ==> r & 0x01C0 == w & 0x01C0)
      && (g.magn == f.magn ==> r & 0x0E00 == w & 0x0E00)
      && (g.pressure == f.pressure ==> r & 0x1000 == w & 0x1000)
      && (g.spare == f.spare ==> r & 0xE000 == w & 0xE000)
  {
    FlagsOfWord(g);
    FlagsFieldBits(FlagsWord(g), w);
  }

  // ---------------------------------------------------------------------------
  // Fault
  // ---------------------------------------------------------------------------

  /** `PiFault_t`: eleven fault flags and five reserved bits. */
  datatype Fault = Fault(
    imu: bool,
    accl: bool,
    gyro: bool,
    magn: bool,
    pressure: bool,
    undervoltage: bool,
    overvoltage: bool,
    undertemperature: bool,
    overtemperature: bool,
    firmwareCrc: bool,
    configCrc: bool,
    reserved: bv16)
  {
    predicate Valid()
    {
      reserved < 32
    }
  }

  /** The fault word whose eleven flags are the low bits of `low` and whose reserved bits are `reserved`. */
  function FaultOfParts(low: bv16, reserved: bv16): Fault
  {
    Fault(low & 0x001 != 0, low & 0x002 != 0, low & 0x004 != 0, low & 0x008 != 0,
      low & 0x010 != 0, low & 0x020 != 0, low & 0x040 != 0, low & 0x080 != 0,
      low & 0x100 != 0, low & 0x200 != 0, low & 0x400 != 0, reserved)
  }

  function FaultOf(w: bv16): (f: Fault)
    ensures f.Valid()
  {
    FaultOfParts(w & 0x7FF, w >> 11)
  }

  /** The eleven flags, bit 0 first. */
  function FaultFlagBits(f: Fault): (w: bv16)
    ensures w < 0x800
  {
    Bit(f.imu) | (Bit(f.accl) << 1) | (Bit(f.gyro) << 2) | (Bit(f.magn) << 3)
      | (Bit(f.pressure) << 4) | (Bit(f.undervoltage) << 5) | (Bit(f.overvoltage) << 6)
      | (Bit(f.undertemperature) << 7) | (Bit(f.overtemperature) << 8)
      | (Bit(f.firmwareCrc) << 9) | (Bit(f.configCrc) << 10)
  }

  function FaultWord(f: Fault): bv16
    requires f.Valid()
  {
    FaultFlagBits(f) | (f.reserved << 11)
  }

  lemma FaultWordOf(w: bv16)
    ensures FaultWord(FaultOf(w)) == w
  {
  }

  lemma FaultOfFlagBits(f: Fault)
    ensures FaultOfParts(FaultFlagBits(f), f.reserved) == f
  {
  }

  /** The flags and the reserved bits occupy separate parts of the word. */
  lemma FaultParts(low: bv16, reserved: bv16)
    requires low < 0x800 && reserved < 32
    ensures (low | (reserved << 11)) & 0x7FF == low
    ensures (low | (reserved << 11)) >> 11 == reserved
  {
  }

  lemma FaultOfWord(f: Fault)
    requires f.Valid()
    ensures FaultOf(FaultWord(f)) == f
  {
    FaultParts(FaultFlagBits(f), f.reserved);
    FaultOfFlagBits(f);
  }

  lemma FaultFieldBits(a: bv16, b: bv16)
    ensures FaultOf(a).imu == FaultOf(b).imu <==> a & 0x0001 == b & 0x0001
    ensures FaultOf(a).accl == FaultOf(b).accl <==> a & 0x0002 == b & 0x0002
    ensures FaultOf(a).gyro == FaultOf(b).gyro <==> a & 0x0004 == b & 0x0004
    ensures FaultOf(a).magn == FaultOf(b).magn <==> a & 0x0008 == b & 0x0008
    ensures FaultOf(a).pressure == FaultOf(b).pressure <==> a & 0x0010 == b & 0x0010
    ensures FaultOf(a).undervoltage == FaultOf(b).undervoltage <==> a & 0x0020 == b & 0x0020
    ensures FaultOf(a).overvoltage == FaultOf(b).overvoltage <==> a & 0x0040 == b & 0x0040
    ensures FaultOf(a).undertemperature == FaultOf(b).undertemperature <==> a & 0x0080 == b & 0x0080
    ensures FaultOf(a).overtemperature == FaultOf(b).overtemperature <==> a & 0x0100 == b & 0x0100
    ensures FaultOf(a).firmwareCrc == FaultOf(b).firmwareCrc <==> a & 0x0200 == b & 0x0200
    ensures FaultOf(a).configCrc == FaultOf(b).configCrc <==> a & 0x0400 == b & 0x0400
    ensures FaultOf(a).reserved == FaultOf(b).reserved <==> a & 0xF800 == b & 0xF800
  {
  }

  lemma FaultAssign(w: bv16, g: Fault)
    requires g.Valid()
    ensures FaultOf(FaultWord(g)) == g
    ensures var f, r := FaultOf(w), FaultWord(g);
      && (g.imu == f.imu ==> r & 0x0001 == w & 0x0001)
      && (g.accl == f.accl ==> r & 0x0002 == w & 0x0002)
      && (g.gyro == f.gyro ==> r & 0x0004 == w & 0x0004)
      && (g.magn == f.magn ==> r & 0x0008 == w & 0x0008)
      && (g.pressure == f.pressure ==> r & 0x0010 == w & 0x0010)
      && (g.undervoltage == f.undervoltage ==> r & 0x0020 == w & 0x0020)
      && (g.overvoltage == f.overvoltage ==> r & 0x0040 == w & 0x0040)
      && (g.undertemperature == f.undertemperature ==> r & 0x0080 == w & 0x0080)
      && (g.overtemperature == f.overtemperature ==> r & 0x0100 == w & 0x0100)
      && (g.firmwareCrc == f.firmwareCrc ==> r & 0x0200 == w & 0x0200)
      && (g.configCrc == f.configCrc ==> r & 0x0400 == w & 0x0400)
      && (g.reserved == f.reserved ==> r & 0xF800 == w & 0xF800)
  {
    FaultOfWord(g);
    FaultFieldBits(FaultWord(g), w);
  }

  // ---------------------------------------------------------------------------
  // Date
  // ---------------------------------------------------------------------------

  /** `PiDate_t`: day (5 bits), month (4 bits), year (7 bits). */
  datatype Date = Date(day: bv16, month: bv16, year: bv16)
  {
    predicate Valid()
    {
      day < 32 && month < 16 && year < 128
    }
  }

  function DateOf(w: bv16): (d: Date)
    ensures d.Valid()
  {
    Date(w & 0x1F, (w >> 5) & 0xF, w >> 9)
  }

  function DateWord(d: Date): bv16
    requires d.Valid()
  {
    d.day | (d.month << 5) | (d.year << 9)
  }

  lemma DateWordOf(w: bv16)
    ensures DateWord(DateOf(w)) == w
  {
  }

  lemma DateOfWord(d: Date)
    requires d.Valid()
    ensures DateOf(DateWord(d)) == d
  {
  }

  lemma DateFieldBits(a: bv16, b: bv16)
    ensures DateOf(a).day == DateOf(b).day <==> a & 0x001F == b & 0x001F
    ensures DateOf(a).month == DateOf(b).month <==> a & 0x01E0 == b & 0x01E0
    ensures DateOf(a).year == DateOf(b).year <==> a & 0xFE00 == b & 0xFE00
  {
  }

  lemma DateAssign(w: bv16, g: Date)
    requires g.Valid()
    ensures DateOf(DateWord(g)) == g
    ensures var d, r := DateOf(w), DateWord(g);
      && (g.day == d.day ==> r & 0x001F == w & 0x001F)
      && (g.month == d.month ==> r & 0x01E0 == w & 0x01E0)
      && (g.year == d.year ==> r & 0xFE00 == w & 0xFE00)
  {
    DateOfWord(g);
    DateFieldBits(DateWord(g), w);
  }

  // ---------------------------------------------------------------------------
  // Version
  // ---------------------------------------------------------------------------

  /** `PiVersion_t`: build (8 bits), minor (5 bits), major (3 bits). */
  datatype Version = Version(build: bv16, minor: bv16, major: bv16)
  {
    predicate Valid()
    {
      build < 256 && minor < 32 && major < 8
    }
  }

  function VersionOf(w: bv16): (v: Version)
    ensures v.Valid()
  {
    Version(w & 0xFF, (w >> 8) & 0x1F, w >> 13)
  }

  function VersionWord(v: Version): bv16
    requires v.Valid()
  {
    v.build | (v.minor << 8) | (v.major << 13)
  }

  lemma VersionWordOf(w: bv16)
    ensures VersionWord(VersionOf(w)) == w
  {
  }

  lemma VersionOfWord(v: Version)
    requires v.Valid()
    ensures VersionOf(VersionWord(v)) == v
  {
  }

  lemma VersionFieldBits(a: bv16, b: bv16)
    ensures VersionOf(a).build == VersionOf(b).build <==> a & 0x00FF == b & 0x00FF
    ensures VersionOf(a).minor == VersionOf(b).minor <==> a & 0x1F00 == b & 0x1F00
    ensures VersionOf(a).major == VersionOf(b).major <==> a & 0xE000 == b & 0xE000
  {
  }

  lemma VersionAssign(w: bv16, g: Version)
    requires g.Valid()
    ensures VersionOf(VersionWord(g)) == g
    ensures var v, r := VersionOf(w), VersionWord(g);
      && (g.build == v.build ==> r & 0x00FF == w & 0x00FF)
      && (g.minor == v.minor ==> r & 0x1F00 == w & 0x1F00)
      && (g.major == v.major ==> r & 0xE000 == w & 0xE000)
  {
    VersionOfWord(g);
    VersionFieldBits(VersionWord(g), w);
  }
}
