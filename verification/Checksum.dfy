/** The checksums of the library: each table-driven loop computes division by the
    polynomial its comment names, and what that division promises. */
module Checksum {
  import opened CrcRegister
  import opened CrcTheory
  import opened CrcMirror
  import opened CrcBytes
  import opened CrcTables

  const CRC8: bv8 := 0x07
  const CCITT: bv16 := 0x1021
  const ANSI: bv16 := 0x8005
  const CRC32: bv32 := 0x04C1_1DB7

  // ---------- The checks as bit-at-a-time division ----------

  function Lift8(x: bv8): bv32 {
    (x as bv32) << 24
  }

  function Lift16(x: bv16): bv32 {
    (x as bv32) << 16
  }

  function Grow16(x: bv16): bv32 {
    x as bv32
  }

  function High8(x: bv32): bv8 {
    (x >> 24) as bv8
  }

  function High16(x: bv32): bv16 {
    (x >> 16) as bv16
  }

  function Low16(x: bv32): bv16 {
    (x & 0xFFFF) as bv16
  }

  function PlainCrc8(poly: bv8, init: bv8, data: seq<bv8>): bv8 {
    High8(MsbDivided(Lift8(poly), Lift8(init), MsbBits(data)))
  }

  function PlainCrc16(poly: bv16, init: bv16, data: seq<bv8>): bv16 {
    High16(MsbDivided(Lift16(poly), Lift16(init), MsbBits(data)))
  }

  function PlainCrc32(poly: bv32, init: bv32, data: seq<bv8>): bv32 {
    MsbDivided(poly, init, MsbBits(data))
  }

  function ReflectedCrc16(poly: bv16, init: bv16, data: seq<bv8>): bv16 {
    Low16(Divided(Grow16(Rev16(poly)), Grow16(init), LsbBits(data)))
  }

  function ReflectedCrc32(poly: bv32, init: bv32, data: seq<bv8>): bv32 {
    Divided(Rev32(poly), init, LsbBits(data))
  }

  // ---------- A table entry is eight division steps, sixteen entries at a time ----------

  lemma Crc8Table0(x: bv8)
    requires x < 0x40
    ensures MsbShifts(Lift8(CRC8), Up24(x), BYTE_BITS) == Lift8(Crc8Entry(x))
  {
    if x < 0x10 {
    } else if x < 0x20 {
    } else if x < 0x30 {
    }
  }

  lemma Crc8Table1(x: bv8)
    requires 0x40 <= x < 0x80
    ensures MsbShifts(Lift8(CRC8), Up24(x), BYTE_BITS) == Lift8(Crc8Entry(x))
  {
    if x < 0x50 {
    } else if x < 0x60 {
    } else if x < 0x70 {
    }
  }

  lemma Crc8Table2(x: bv8)
    requires 0x80 <= x < 0xC0
    ensures MsbShifts(Lift8(CRC8), Up24(x), BYTE_BITS) == Lift8(Crc8Entry(x))
  {
    if x < 0x90 {
    } else if x < 0xA0 {
    } else if x < 0xB0 {
    }
  }

  lemma Crc8Table3(x: bv8)
    requires 0xC0 <= x
    ensures MsbShifts(Lift8(CRC8), Up24(x), BYTE_BITS) == Lift8(Crc8Entry(x))
  {
    if x < 0xD0 {
    } else if x < 0xE0 {
    } else if x < 0xF0 {
    }
  }

  lemma Crc8Table(x: bv8)
    ensures MsbShifts(Lift8(CRC8), Up24(x), BYTE_BITS) == Lift8(Crc8Entry(x))
  {
    hide *;
    if x < 0x40 {
      Crc8Table0(x);
    } else if x < 0x80 {
      Crc8Table1(x);
    } else if x < 0xC0 {
      Crc8Table2(x);
    } else {
      Crc8Table3(x);
    }
  }

  lemma CcittTable0(x: bv8)
    requires x < 0x40
    ensures MsbShifts(Lift16(CCITT), Up24(x), BYTE_BITS) == Lift16(CcittEntry(x))
  {
    if x < 0x10 {
    } else if x < 0x20 {
    } else if x < 0x30 {
    }
  }

  lemma CcittTable1(x: bv8)
    requires 0x40 <= x < 0x80
    ensures MsbShifts(Lift16(CCITT), Up24(x), BYTE_BITS) == Lift16(CcittEntry(x))
  {
    if x < 0x50 {
    } else if x < 0x60 {
    } else if x < 0x70 {
    }
  }

  lemma CcittTable2(x: bv8)
    requires 0x80 <= x < 0xC0
    ensures MsbShifts(Lift16(CCITT), Up24(x), BYTE_BITS) == Lift16(CcittEntry(x))
  {
    if x < 0x90 {
    } else if x < 0xA0 {
    } else if x < 0xB0 {
    }
  }

  lemma CcittTable3(x: bv8)
    requires 0xC0 <= x
    ensures MsbShifts(Lift16(CCITT), Up24(x), BYTE_BITS) == Lift16(CcittEntry(x))
  {
    if x < 0xD0 {
    } else if x < 0xE0 {
    } else if x < 0xF0 {
    }
  }

  lemma CcittTable(x: bv8)
    ensures MsbShifts(Lift16(CCITT), Up24(x), BYTE_BITS) == Lift16(CcittEntry(x))
  {
    hide *;
    if x < 0x40 {
      CcittTable0(x);
    } else if x < 0x80 {
      CcittTable1(x);
    } else if x < 0xC0 {
      CcittTable2(x);
    } else {
      CcittTable3(x);
    }
  }

  lemma AnsiTable0(x: bv8)
    requires x < 0x40
    ensures MsbShifts(Lift16(ANSI), Up24(x), BYTE_BITS) == Lift16(AnsiEntry(x))
  {
    if x < 0x10 {
    } else if x < 0x20 {
    } else if x < 0x30 {
    }
  }

  lemma AnsiTable1(x: bv8)
    requires 0x40 <= x < 0x80
    ensures MsbShifts(Lift16(ANSI), Up24(x), BYTE_BITS) == Lift16(AnsiEntry(x))
  {
    if x < 0x50 {
    } else if x < 0x60 {
    } else if x < 0x70 {
    }
  }

  lemma AnsiTable2(x: bv8)
    requires 0x80 <= x < 0xC0
    ensures MsbShifts(Lift16(ANSI), Up24(x), BYTE_BITS) == Lift16(AnsiEntry(x))
  {
    if x < 0x90 {
    } else if x < 0xA0 {
    } else if x < 0xB0 {
    }
  }

  lemma AnsiTable3(x: bv8)
    requires 0xC0 <= x
    ensures MsbShifts(Lift16(ANSI), Up24(x), BYTE_BITS) == Lift16(AnsiEntry(x))
  {
    if x < 0xD0 {
    } else if x < 0xE0 {
    } else if x < 0xF0 {
    }
  }

  lemma AnsiTable(x: bv8)
    ensures MsbShifts(Lift16(ANSI), Up24(x), BYTE_BITS) == Lift16(AnsiEntry(x))
  {
    hide *;
    if x < 0x40 {
      AnsiTable0(x);
    } else if x < 0x80 {
      AnsiTable1(x);
    } else if x < 0xC0 {
      AnsiTable2(x);
    } else {
      AnsiTable3(x);
    }
  }

  lemma Crc32Table0(x: bv8)
    requires x < 0x40
    ensures MsbShifts(CRC32, Up24(x), BYTE_BITS) == Crc32Entry(x)
  {
    if x < 0x10 {
    } else if x < 0x20 {
    } else if x < 0x30 {
    }
  }

  lemma Crc32Table1(x: bv8)
    requires 0x40 <= x < 0x80
    ensures MsbShifts(CRC32, Up24(x), BYTE_BITS) == Crc32Entry(x)
  {
    if x < 0x50 {
    } else if x < 0x60 {
    } else if x < 0x70 {
    }
  }

  lemma Crc32Table2(x: bv8)
    requires 0x80 <= x < 0xC0
    ensures MsbShifts(CRC32, Up24(x), BYTE_BITS) == Crc32Entry(x)
  {
    if x < 0x90 {
    } else if x < 0xA0 {
    } else if x < 0xB0 {
    }
  }

  lemma Crc32Table3(x: bv8)
    requires 0xC0 <= x
    ensures MsbShifts(CRC32, Up24(x), BYTE_BITS) == Crc32Entry(x)
  {
    if x < 0xD0 {
    } else if x < 0xE0 {
    } else if x < 0xF0 {
    }
  }

  lemma Crc32Table(x: bv8)
    ensures MsbShifts(CRC32, Up24(x), BYTE_BITS) == Crc32Entry(x)
  {
    hide *;
    if x < 0x40 {
      Crc32Table0(x);
    } else if x < 0x80 {
      Crc32Table1(x);
    } else if x < 0xC0 {
      Crc32Table2(x);
    } else {
      Crc32Table3(x);
    }
  }

  lemma CcittRTable0(x: bv8)
    requires x < 0x40
    ensures Shifts(Rev16(CCITT) as bv32, x as bv32, BYTE_BITS) == CcittREntry(x) as bv32
  {
    if x < 0x10 {
    } else if x < 0x20 {
    } else if x < 0x30 {
    }
  }

  lemma CcittRTable1(x: bv8)
    requires 0x40 <= x < 0x80
    ensures Shifts(Rev16(CCITT) as bv32, x as bv32, BYTE_BITS) == CcittREntry(x) as bv32
  {
    if x < 0x50 {
    } else if x < 0x60 {
    } else if x < 0x70 {
    }
  }

  lemma CcittRTable2(x: bv8)
    requires 0x80 <= x < 0xC0
    ensures Shifts(Rev16(CCITT) as bv32, x as bv32, BYTE_BITS) == CcittREntry(x) as bv32
  {
    if x < 0x90 {
    } else if x < 0xA0 {
    } else if x < 0xB0 {
    }
  }

  lemma CcittRTable3(x: bv8)
    requires 0xC0 <= x
    ensures Shifts(Rev16(CCITT) as bv32, x as bv32, BYTE_BITS) == CcittREntry(x) as bv32
  {
    if x < 0xD0 {
    } else if x < 0xE0 {
    } else if x < 0xF0 {
    }
  }

  lemma CcittRTable(x: bv8)
    ensures Shifts(Rev16(CCITT) as bv32, x as bv32, BYTE_BITS) == CcittREntry(x) as bv32
  {
    hide *;
    if x < 0x40 {
      CcittRTable0(x);
    } else if x < 0x80 {
      CcittRTable1(x);
    } else if x < 0xC0 {
      CcittRTable2(x);
    } else {
      CcittRTable3(x);
    }
  }

  lemma AnsiRTable0(x: bv8)
    requires x < 0x40
    ensures Shifts(Rev16(ANSI) as bv32, x as bv32, BYTE_BITS) == AnsiREntry(x) as bv32
  {
    if x < 0x10 {
    } else if x < 0x20 {
    } else if x < 0x30 {
    }
  }

  lemma AnsiRTable1(x: bv8)
    requires 0x40 <= x < 0x80
    ensures Shifts(Rev16(ANSI) as bv32, x as bv32, BYTE_BITS) == AnsiREntry(x) as bv32
  {
    if x < 0x50 {
    } else if x < 0x60 {
    } else if x < 0x70 {
    }
  }

  lemma AnsiRTable2(x: bv8)
    requires 0x80 <= x < 0xC0
    ensures Shifts(Rev16(ANSI) as bv32, x as bv32, BYTE_BITS) == AnsiREntry(x) as bv32
  {
    if x < 0x90 {
    } else if x < 0xA0 {
    } else if x < 0xB0 {
    }
  }

  lemma AnsiRTable3(x: bv8)
    requires 0xC0 <= x
    ensures Shifts(Rev16(ANSI) as bv32, x as bv32, BYTE_BITS) == AnsiREntry(x) as bv32
  {
    if x < 0xD0 {
    } else if x < 0xE0 {
    } else if x < 0xF0 {
    }
  }

  lemma AnsiRTable(x: bv8)
    ensures Shifts(Rev16(ANSI) as bv32, x as bv32, BYTE_BITS) == AnsiREntry(x) as bv32
  {
    hide *;
    if x < 0x40 {
      AnsiRTable0(x);
    } else if x < 0x80 {
      AnsiRTable1(x);
    } else if x < 0xC0 {
      AnsiRTable2(x);
    } else {
      AnsiRTable3(x);
    }
  }

  lemma Crc32RTable0(x: bv8)
    requires x < 0x40
    ensures Shifts(Rev32(CRC32), x as bv32, BYTE_BITS) == Crc32REntry(x)
  {
    if x < 0x10 {
    } else if x < 0x20 {
    } else if x < 0x30 {
    }
  }

  lemma Crc32RTable1(x: bv8)
    requires 0x40 <= x < 0x80
    ensures Shifts(Rev32(CRC32), x as bv32, BYTE_BITS) == Crc32REntry(x)
  {
    if x < 0x50 {
    } else if x < 0x60 {
    } else if x < 0x70 {
    }
  }

  lemma Crc32RTable2(x: bv8)
    requires 0x80 <= x < 0xC0
    ensures Shifts(Rev32(CRC32), x as bv32, BYTE_BITS) == Crc32REntry(x)
  {
    if x < 0x90 {
    } else if x < 0xA0 {
    } else if x < 0xB0 {
    }
  }

  lemma Crc32RTable3(x: bv8)
    requires 0xC0 <= x
    ensures Shifts(Rev32(CRC32), x as bv32, BYTE_BITS) == Crc32REntry(x)
  {
    if x < 0xD0 {
    } else if x < 0xE0 {
    } else if x < 0xF0 {
    }
  }

  lemma Crc32RTable(x: bv8)
    ensures Shifts(Rev32(CRC32), x as bv32, BYTE_BITS) == Crc32REntry(x)
  {
    hide *;
    if x < 0x40 {
      Crc32RTable0(x);
    } else if x < 0x80 {
      Crc32RTable1(x);
    } else if x < 0xC0 {
      Crc32RTable2(x);
    } else {
      Crc32RTable3(x);
    }
  }

  // ---------- One loop iteration is division by one byte ----------

  function Grow8(x: bv8): bv32 {
    x as bv32
  }

  function Msb8Index(crc: bv8, b: bv8): bv8 {
    b ^ crc
  }

  function Msb8Next(crc: bv8, entry: bv8): bv8 {
    entry
  }

  lemma Msb8IndexIs(crc: bv8, b: bv8)
    ensures Highest(Xor(Lift8(crc), Up24(b))) == Up24(Msb8Index(crc, b))
  {
  }

  lemma Msb8NextIs(crc: bv8, entry: bv8)
    ensures Lift8(Msb8Next(crc, entry)) == Xor(Lift8(entry), Up8(Lift8(crc)))
  {
  }

  function Msb16Index(crc: bv16, b: bv8): bv8 {
    ((crc >> 8) as bv8) ^ b
  }

  function Msb16Next(crc: bv16, entry: bv16): bv16 {
    (crc << 8) ^ entry
  }

  lemma Msb16IndexIs(crc: bv16, b: bv8)
    ensures Highest(Xor(Lift16(crc), Up24(b))) == Up24(Msb16Index(crc, b))
  {
  }

  lemma Msb16NextIs(crc: bv16, entry: bv16)
    ensures Lift16(Msb16Next(crc, entry)) == Xor(Lift16(entry), Up8(Lift16(crc)))
  {
  }

  function Msb32Index(crc: bv32, b: bv8): bv8 {
    (((crc >> 24) ^ (b as bv32)) & 0xFF) as bv8
  }

  function Msb32Next(crc: bv32, entry: bv32): bv32 {
    entry ^ (crc << 8)
  }

  lemma Msb32IndexIs(crc: bv32, b: bv8)
    ensures Highest(Xor(crc, Up24(b))) == Up24(Msb32Index(crc, b))
  {
  }

  lemma Msb32NextIs(crc: bv32, entry: bv32)
    ensures Msb32Next(crc, entry) == Xor(entry, Up8(crc))
  {
  }

  function Lsb16Index(crc: bv16, b: bv8): bv8 {
    ((crc ^ (b as bv16)) & 0xFF) as bv8
  }

  function Lsb16Next(crc: bv16, entry: bv16): bv16 {
    (crc >> 8) ^ entry
  }

  lemma Lsb16IndexIs(crc: bv16, b: bv8)
    ensures Lowest(Xor(Grow16(crc), Grow8(b))) == Grow8(Lsb16Index(crc, b))
  {
  }

  lemma Lsb16NextIs(crc: bv16, entry: bv16)
    ensures Grow16(Lsb16Next(crc, entry)) == Xor(Grow16(entry), Shr8(Grow16(crc)))
  {
  }

  function Lsb32Index(crc: bv32, b: bv8): bv8 {
    ((crc ^ (b as bv32)) & 0xFF) as bv8
  }

  function Lsb32Next(crc: bv32, entry: bv32): bv32 {
    entry ^ (crc >> 8)
  }

  lemma Lsb32IndexIs(crc: bv32, b: bv8)
    ensures Lowest(Xor(crc, Grow8(b))) == Grow8(Lsb32Index(crc, b))
  {
  }

  lemma Lsb32NextIs(crc: bv32, entry: bv32)
    ensures Lsb32Next(crc, entry) == Xor(entry, Shr8(crc))
  {
  }

  lemma Crc8Step(init: bv8, data: seq<bv8>, crc: bv8, b: bv8)
    requires Lift8(crc) == MsbDivided(Lift8(CRC8), Lift8(init), MsbBits(data))
    ensures Lift8(Msb8Next(crc, Crc8Entry(Msb8Index(crc, b)))) ==
            MsbDivided(Lift8(CRC8), Lift8(init), MsbBits(data + [b]))
  {
    hide *;
    var i := Msb8Index(crc, b);
    MsbDividedByOneMore(Lift8(CRC8), Lift8(init), data, b);
    Msb8IndexIs(crc, b);
    Msb8NextIs(crc, Crc8Entry(i));
    Crc8Table(i);
  }

  lemma CcittStep(init: bv16, data: seq<bv8>, crc: bv16, b: bv8)
    requires Lift16(crc) == MsbDivided(Lift16(CCITT), Lift16(init), MsbBits(data))
    ensures Lift16(Msb16Next(crc, CcittEntry(Msb16Index(crc, b)))) ==
            MsbDivided(Lift16(CCITT), Lift16(init), MsbBits(data + [b]))
  {
    hide *;
    var i := Msb16Index(crc, b);
    MsbDividedByOneMore(Lift16(CCITT), Lift16(init), data, b);
    Msb16IndexIs(crc, b);
    Msb16NextIs(crc, CcittEntry(i));
    CcittTable(i);
  }

  lemma AnsiStep(init: bv16, data: seq<bv8>, crc: bv16, b: bv8)
    requires Lift16(crc) == MsbDivided(Lift16(ANSI), Lift16(init), MsbBits(data))
    ensures Lift16(Msb16Next(crc, AnsiEntry(Msb16Index(crc, b)))) ==
            MsbDivided(Lift16(ANSI), Lift16(init), MsbBits(data + [b]))
  {
    hide *;
    var i := Msb16Index(crc, b);
    MsbDividedByOneMore(Lift16(ANSI), Lift16(init), data, b);
    Msb16IndexIs(crc, b);
    Msb16NextIs(crc, AnsiEntry(i));
    AnsiTable(i);
  }

  lemma Crc32Step(init: bv32, data: seq<bv8>, crc: bv32, b: bv8)
    requires crc == MsbDivided(CRC32, init, MsbBits(data))
    ensures Msb32Next(crc, Crc32Entry(Msb32Index(crc, b))) == MsbDivided(CRC32, init, MsbBits(data + [b]))
  {
    hide *;
    var i := Msb32Index(crc, b);
    MsbDividedByOneMore(CRC32, init, data, b);
    Msb32IndexIs(crc, b);
    Msb32NextIs(crc, Crc32Entry(i));
    Crc32Table(i);
  }

  lemma CcittRStep(init: bv16, data: seq<bv8>, crc: bv16, b: bv8)
    requires Grow16(crc) == Divided(Grow16(Rev16(CCITT)), Grow16(init), LsbBits(data))
    ensures Grow16(Lsb16Next(crc, CcittREntry(Lsb16Index(crc, b)))) ==
            Divided(Grow16(Rev16(CCITT)), Grow16(init), LsbBits(data + [b]))
  {
    hide *;
    var i := Lsb16Index(crc, b);
    DividedByOneMore(Grow16(Rev16(CCITT)), Grow16(init), data, b);
    Lsb16IndexIs(crc, b);
    Lsb16NextIs(crc, CcittREntry(i));
    CcittRTable(i);
    GrownTables(b, i, CcittREntry(i));
  }

  lemma AnsiRStep(init: bv16, data: seq<bv8>, crc: bv16, b: bv8)
    requires Grow16(crc) == Divided(Grow16(Rev16(ANSI)), Grow16(init), LsbBits(data))
    ensures Grow16(Lsb16Next(crc, AnsiREntry(Lsb16Index(crc, b)))) ==
            Divided(Grow16(Rev16(ANSI)), Grow16(init), LsbBits(data + [b]))
  {
    hide *;
    var i := Lsb16Index(crc, b);
    DividedByOneMore(Grow16(Rev16(ANSI)), Grow16(init), data, b);
    Lsb16IndexIs(crc, b);
    Lsb16NextIs(crc, AnsiREntry(i));
    AnsiRTable(i);
    GrownTables(b, i, AnsiREntry(i));
  }

  lemma Crc32RStep(init: bv32, data: seq<bv8>, crc: bv32, b: bv8)
    requires crc == Divided(Rev32(CRC32), init, LsbBits(data))
    ensures Lsb32Next(crc, Crc32REntry(Lsb32Index(crc, b))) == Divided(Rev32(CRC32), init, LsbBits(data + [b]))
  {
    hide *;
    var i := Lsb32Index(crc, b);
    DividedByOneMore(Rev32(CRC32), init, data, b);
    Lsb32IndexIs(crc, b);
    Lsb32NextIs(crc, Crc32REntry(i));
    Crc32RTable(i);
    GrownTables(b, i, 0);
  }

  lemma GrownTables(b: bv8, i: bv8, e: bv16)
    ensures Grow8(b) == b as bv32 && Grow8(i) == i as bv32 && Grow16(e) == e as bv32
    ensures Grow16(Rev16(CCITT)) == Rev16(CCITT) as bv32 && Grow16(Rev16(ANSI)) == Rev16(ANSI) as bv32
  {
    hide Rev16;
  }

  lemma NothingDivided(p: bv32, r: bv32)
    ensures MsbBits([]) == [] && MsbDivided(p, r, []) == r
    ensures LsbBits([]) == [] && Divided(p, r, []) == r
  {
  }

  lemma OneMore(data: array<bv8>, i: nat)
    requires i < data.Length
    ensures data[..i + 1] == data[..i] + [data[i]]
    ensures data[..0] == [] && data[..data.Length] == data[..]
  {
  }

  lemma Lowered(x: bv8, y: bv16)
    ensures High8(Lift8(x)) == x && High16(Lift16(y)) == y && Low16(Grow16(y)) == y
  {
  }

  /** A final exclusive or with zero changes nothing. */
  lemma NothingToFlip(x: bv8, y: bv16)
    ensures x ^ 0 == x && y ^ 0 == y
  {
  }

  // ---------- The checks ----------

  method Crc8(data: array<bv8>, init: bv8, xorout: bv8) returns (crc: bv8)
    ensures crc == PlainCrc8(CRC8, init, data[..]) ^ xorout
  {
    hide MsbDivided, MsbBits, Crc8Entry, Msb8Next, Msb8Index, Lift8;
    NothingDivided(Lift8(CRC8), Lift8(init));
    crc := init;
    for i := 0 to data.Length
      invariant Lift8(crc) == MsbDivided(Lift8(CRC8), Lift8(init), MsbBits(data[..i]))
    {
      OneMore(data, i);
      Crc8Step(init, data[..i], crc, data[i]);
      crc := Msb8Next(crc, Crc8Entry(Msb8Index(crc, data[i])));
    }
    assert data[..data.Length] == data[..];
    Lowered(crc, 0);
    crc := crc ^ xorout;
  }

  method Crc16Ccitt(data: array<bv8>, init: bv16, xorout: bv16) returns (crc: bv16)
    ensures crc == PlainCrc16(CCITT, init, data[..]) ^ xorout
  {
    hide MsbDivided, MsbBits, CcittEntry, Msb16Next, Msb16Index, Lift16;
    NothingDivided(Lift16(CCITT), Lift16(init));
    crc := init;
    for i := 0 to data.Length
      invariant Lift16(crc) == MsbDivided(Lift16(CCITT), Lift16(init), MsbBits(data[..i]))
    {
      OneMore(data, i);
      CcittStep(init, data[..i], crc, data[i]);
      crc := Msb16Next(crc, CcittEntry(Msb16Index(crc, data[i])));
    }
    assert data[..data.Length] == data[..];
    Lowered(0, crc);
    crc := crc ^ xorout;
  }

  method Crc16CcittReflected(data: array<bv8>, init: bv16, xorout: bv16) returns (crc: bv16)
    ensures crc == ReflectedCrc16(CCITT, init, data[..]) ^ xorout
  {
    hide Divided, LsbBits, CcittREntry, Lsb16Next, Lsb16Index, Grow16, Rev16;
    NothingDivided(Grow16(Rev16(CCITT)), Grow16(init));
    crc := init;
    for i := 0 to data.Length
      invariant Grow16(crc) == Divided(Grow16(Rev16(CCITT)), Grow16(init), LsbBits(data[..i]))
    {
      OneMore(data, i);
      CcittRStep(init, data[..i], crc, data[i]);
      crc := Lsb16Next(crc, CcittREntry(Lsb16Index(crc, data[i])));
    }
    assert data[..data.Length] == data[..];
    Lowered(0, crc);
    crc := crc ^ xorout;
  }

  method Crc16Ansi(data: array<bv8>, init: bv16, xorout: bv16) returns (crc: bv16)
    ensures crc == PlainCrc16(ANSI, init, data[..]) ^ xorout
  {
    hide MsbDivided, MsbBits, AnsiEntry, Msb16Next, Msb16Index, Lift16;
    NothingDivided(Lift16(ANSI), Lift16(init));
    crc := init;
    for i := 0 to data.Length
      invariant Lift16(crc) == MsbDivided(Lift16(ANSI), Lift16(init), MsbBits(data[..i]))
    {
      OneMore(data, i);
      AnsiStep(init, data[..i], crc, data[i]);
      crc := Msb16Next(crc, AnsiEntry(Msb16Index(crc, data[i])));
    }
    assert data[..data.Length] == data[..];
    Lowered(0, crc);
    crc := crc ^ xorout;
  }

  method Crc16AnsiReflected(data: array<bv8>, init: bv16, xorout: bv16) returns (crc: bv16)
    ensures crc == ReflectedCrc16(ANSI, init, data[..]) ^ xorout
  {
    hide Divided, LsbBits, AnsiREntry, Lsb16Next, Lsb16Index, Grow16, Rev16;
    NothingDivided(Grow16(Rev16(ANSI)), Grow16(init));
    crc := init;
    for i := 0 to data.Length
      invariant Grow16(crc) == Divided(Grow16(Rev16(ANSI)), Grow16(init), LsbBits(data[..i]))
    {
      OneMore(data, i);
      AnsiRStep(init, data[..i], crc, data[i]);
      crc := Lsb16Next(crc, AnsiREntry(Lsb16Index(crc, data[i])));
    }
    assert data[..data.Length] == data[..];
    Lowered(0, crc);
    crc := crc ^ xorout;
  }

  method Crc32Reflected(data: array<bv8>) returns (crc: bv32)
    ensures crc == ReflectedCrc32(CRC32, 0xFFFF_FFFF, data[..]) ^ 0xFFFF_FFFF
  {
    hide Divided, LsbBits, Crc32REntry, Lsb32Next, Lsb32Index, Rev32;
    var init: bv32 := 0xFFFF_FFFF;
    NothingDivided(Rev32(CRC32), init);
    crc := init;
    for i := 0 to data.Length
      invariant crc == Divided(Rev32(CRC32), init, LsbBits(data[..i]))
    {
      OneMore(data, i);
      Crc32RStep(init, data[..i], crc, data[i]);
      crc := Lsb32Next(crc, Crc32REntry(Lsb32Index(crc, data[i])));
    }
    assert data[..data.Length] == data[..];
    crc := crc ^ 0xFFFF_FFFF;
  }

  method Crc32(data: array<bv8>) returns (crc: bv32)
    ensures crc == PlainCrc32(CRC32, 0xFFFF_FFFF, data[..]) ^ 0xFFFF_FFFF
  {
    hide MsbDivided, MsbBits, Crc32Entry, Msb32Next, Msb32Index;
    var init: bv32 := 0xFFFF_FFFF;
    NothingDivided(CRC32, init);
    crc := init;
    for i := 0 to data.Length
      invariant crc == MsbDivided(CRC32, init, MsbBits(data[..i]))
    {
      OneMore(data, i);
      Crc32Step(init, data[..i], crc, data[i]);
      crc := Msb32Next(crc, Crc32Entry(Msb32Index(crc, data[i])));
    }
    assert data[..data.Length] == data[..];
    crc := crc ^ 0xFFFF_FFFF;
  }

  /** Moving the eight bits one by one and adding them up reverses a byte. */
  lemma SumOfMovedBits(b: bv8)
    ensures ((b & 0x01) << 7) + ((b & 0x02) << 5) + ((b & 0x04) << 3) + ((b & 0x08) << 1)
          + ((b & 0x10) >> 1) + ((b & 0x20) >> 3) + ((b & 0x40) >> 5) + ((b & 0x80) >> 7) == Rev8(b)
  {
  }

  /** Reverses the bits of every byte in place. */
  method ReverseBits(data: array<bv8>)
    modifies data
    ensures data[..] == RevBytes(old(data[..]))
  {
    hide Rev8;
    for i := 0 to data.Length
      invariant forall k | 0 <= k < i :: data[k] == Rev8(old(data[k]))
      invariant forall k | i <= k < data.Length :: data[k] == old(data[k])
    {
      var b := data[i];
      SumOfMovedBits(b);
      var j := (b & 0x01) << 7;
      j := j + ((b & 0x02) << 5);
      j := j + ((b & 0x04) << 3);
      j := j + ((b & 0x08) << 1);
      j := j + ((b & 0x10) >> 1);
      j := j + ((b & 0x20) >> 3);
      j := j + ((b & 0x40) >> 5);
      j := j + ((b & 0x80) >> 7);
      data[i] := j;
    }
  }
}
