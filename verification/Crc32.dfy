/**
 The table-driven CRC-32 of crc32/crc32.c against its definition bit by bit, section 8 of RFC 1952.
 */
module Crc32 {
  import opened Octets
  import opened Bytes

  /** CRC32_INIT */
  const INIT: bv32 := 0xffffffff

  /** The generator polynomial, its bits reflected. */
  const POLYNOMIAL: bv32 := 0xedb88320

  // ---- The table ----

  function Four(i: bv8, a: bv32, b: bv32, c: bv32, d: bv32): bv32 {
    var k := i & 3;
    if k == 0 then a else if k == 1 then b else if k == 2 then c else d
  }

  /** The quarters of crc32_tab. */
  function Table0(i: bv8): bv32 {
    var r := i & 0x3c;
    if r == 0x00 then Four(i, 0x00000000, 0x77073096, 0xee0e612c, 0x990951ba)
    else if r == 0x04 then Four(i, 0x076dc419, 0x706af48f, 0xe963a535, 0x9e6495a3)
    else if r == 0x08 then Four(i, 0x0edb8832, 0x79dcb8a4, 0xe0d5e91e, 0x97d2d988)
    else if r == 0x0c then Four(i, 0x09b64c2b, 0x7eb17cbd, 0xe7b82d07, 0x90bf1d91)
    else if r == 0x10 then Four(i, 0x1db71064, 0x6ab020f2, 0xf3b97148, 0x84be41de)
    else if r == 0x14 then Four(i, 0x1adad47d, 0x6ddde4eb, 0xf4d4b551, 0x83d385c7)
    else if r == 0x18 then Four(i, 0x136c9856, 0x646ba8c0, 0xfd62f97a, 0x8a65c9ec)
    else if r == 0x1c then Four(i, 0x14015c4f, 0x63066cd9, 0xfa0f3d63, 0x8d080df5)
    else if r == 0x20 then Four(i, 0x3b6e20c8, 0x4c69105e, 0xd56041e4, 0xa2677172)
    else if r == 0x24 then Four(i, 0x3c03e4d1, 0x4b04d447, 0xd20d85fd, 0xa50ab56b)
    else if r == 0x28 then Four(i, 0x35b5a8fa, 0x42b2986c, 0xdbbbc9d6, 0xacbcf940)
    else if r == 0x2c then Four(i, 0x32d86ce3, 0x45df5c75, 0xdcd60dcf, 0xabd13d59)
    else if r == 0x30 then Four(i, 0x26d930ac, 0x51de003a, 0xc8d75180, 0xbfd06116)
    else if r == 0x34 then Four(i, 0x21b4f4b5, 0x56b3c423, 0xcfba9599, 0xb8bda50f)
    else if r == 0x38 then Four(i, 0x2802b89e, 0x5f058808, 0xc60cd9b2, 0xb10be924)
    else Four(i, 0x2f6f7c87, 0x58684c11, 0xc1611dab, 0xb6662d3d)
  }

  function Table1(i: bv8): bv32 {
    var r := i & 0x3c;
    if r == 0x00 then Four(i, 0x76dc4190, 0x01db7106, 0x98d220bc, 0xefd5102a)
    else if r == 0x04 then Four(i, 0x71b18589, 0x06b6b51f, 0x9fbfe4a5, 0xe8b8d433)
    else if r == 0x08 then Four(i, 0x7807c9a2, 0x0f00f934, 0x9609a88e, 0xe10e9818)
    else if r == 0x0c then Four(i, 0x7f6a0dbb, 0x086d3d2d, 0x91646c97, 0xe6635c01)
    else if r == 0x10 then Four(i, 0x6b6b51f4, 0x1c6c6162, 0x856530d8, 0xf262004e)
    else if r == 0x14 then Four(i, 0x6c0695ed, 0x1b01a57b, 0x8208f4c1, 0xf50fc457)
    else if r == 0x18 then Four(i, 0x65b0d9c6, 0x12b7e950, 0x8bbeb8ea, 0xfcb9887c)
    else if r == 0x1c then Four(i, 0x62dd1ddf, 0x15da2d49, 0x8cd37cf3, 0xfbd44c65)
    else if r == 0x20 then Four(i, 0x4db26158, 0x3ab551ce, 0xa3bc0074, 0xd4bb30e2)
    else if r == 0x24 then Four(i, 0x4adfa541, 0x3dd895d7, 0xa4d1c46d, 0xd3d6f4fb)
    else if r == 0x28 then Four(i, 0x4369e96a, 0x346ed9fc, 0xad678846, 0xda60b8d0)
    else if r == 0x2c then Four(i, 0x44042d73, 0x33031de5, 0xaa0a4c5f, 0xdd0d7cc9)
    else if r == 0x30 then Four(i, 0x5005713c, 0x270241aa, 0xbe0b1010, 0xc90c2086)
    else if r == 0x34 then Four(i, 0x5768b525, 0x206f85b3, 0xb966d409, 0xce61e49f)
    else if r == 0x38 then Four(i, 0x5edef90e, 0x29d9c998, 0xb0d09822, 0xc7d7a8b4)
    else Four(i, 0x59b33d17, 0x2eb40d81, 0xb7bd5c3b, 0xc0ba6cad)
  }

  function Table2(i: bv8): bv32 {
    var r := i & 0x3c;
    if r == 0x00 then Four(i, 0xedb88320, 0x9abfb3b6, 0x03b6e20c, 0x74b1d29a)
    else if r == 0x04 then Four(i, 0xead54739, 0x9dd277af, 0x04db2615, 0x73dc1683)
    else if r == 0x08 then Four(i, 0xe3630b12, 0x94643b84, 0x0d6d6a3e, 0x7a6a5aa8)
    else if r == 0x0c then Four(i, 0xe40ecf0b, 0x9309ff9d, 0x0a00ae27, 0x7d079eb1)
    else if r == 0x10 then Four(i, 0xf00f9344, 0x8708a3d2, 0x1e01f268, 0x6906c2fe)
    else if r == 0x14 then Four(i, 0xf762575d, 0x806567cb, 0x196c3671, 0x6e6b06e7)
    else if r == 0x18 then Four(i, 0xfed41b76, 0x89d32be0, 0x10da7a5a, 0x67dd4acc)
    else if r == 0x1c then Four(i, 0xf9b9df6f, 0x8ebeeff9, 0x17b7be43, 0x60b08ed5)
    else if r == 0x20 then Four(i, 0xd6d6a3e8, 0xa1d1937e, 0x38d8c2c4, 0x4fdff252)
    else if r == 0x24 then Four(i, 0xd1bb67f1, 0xa6bc5767, 0x3fb506dd, 0x48b2364b)
    else if r == 0x28 then Four(i, 0xd80d2bda, 0xaf0a1b4c, 0x36034af6, 0x41047a60)
    else if r == 0x2c then Four(i, 0xdf60efc3, 0xa867df55, 0x316e8eef, 0x4669be79)
    else if r == 0x30 then Four(i, 0xcb61b38c, 0xbc66831a, 0x256fd2a0, 0x5268e236)
    else if r == 0x34 then Four(i, 0xcc0c7795, 0xbb0b4703, 0x220216b9, 0x5505262f)
    else if r == 0x38 then Four(i, 0xc5ba3bbe, 0xb2bd0b28, 0x2bb45a92, 0x5cb36a04)
    else Four(i, 0xc2d7ffa7, 0xb5d0cf31, 0x2cd99e8b, 0x5bdeae1d)
  }

  function Table3(i: bv8): bv32 {
    var r := i & 0x3c;
    if r == 0x00 then Four(i, 0x9b64c2b0, 0xec63f226, 0x756aa39c, 0x026d930a)
    else if r == 0x04 then Four(i, 0x9c0906a9, 0xeb0e363f, 0x72076785, 0x05005713)
    else if r == 0x08 then Four(i, 0x95bf4a82, 0xe2b87a14, 0x7bb12bae, 0x0cb61b38)
    else if r == 0x0c then Four(i, 0x92d28e9b, 0xe5d5be0d, 0x7cdcefb7, 0x0bdbdf21)
    else if r == 0x10 then Four(i, 0x86d3d2d4, 0xf1d4e242, 0x68ddb3f8, 0x1fda836e)
    else if r == 0x14 then Four(i, 0x81be16cd, 0xf6b9265b, 0x6fb077e1, 0x18b74777)
    else if r == 0x18 then Four(i, 0x88085ae6, 0xff0f6a70, 0x66063bca, 0x11010b5c)
    else if r == 0x1c then Four(i, 0x8f659eff, 0xf862ae69, 0x616bffd3, 0x166ccf45)
    else if r == 0x20 then Four(i, 0xa00ae278, 0xd70dd2ee, 0x4e048354, 0x3903b3c2)
    else if r == 0x24 then Four(i, 0xa7672661, 0xd06016f7, 0x4969474d, 0x3e6e77db)
    else if r == 0x28 then Four(i, 0xaed16a4a, 0xd9d65adc, 0x40df0b66, 0x37d83bf0)
    else if r == 0x2c then Four(i, 0xa9bcae53, 0xdebb9ec5, 0x47b2cf7f, 0x30b5ffe9)
    else if r == 0x30 then Four(i, 0xbdbdf21c, 0xcabac28a, 0x53b39330, 0x24b4a3a6)
    else if r == 0x34 then Four(i, 0xbad03605, 0xcdd70693, 0x54de5729, 0x23d967bf)
    else if r == 0x38 then Four(i, 0xb3667a2e, 0xc4614ab8, 0x5d681b02, 0x2a6f2b94)
    else Four(i, 0xb40bbe37, 0xc30c8ea1, 0x5a05df1b, 0x2d02ef8d)
  }

  /** crc32_tab */
  function Table(i: bv8): bv32 {
    var q := i >> 6;
    if q == 0 then Table0(i) else if q == 1 then Table1(i) else if q == 2 then Table2(i) else Table3(i)
  }

  // ---- The definition ----

  /** Addition of registers. */
  function Xor(a: bv32, b: bv32): bv32 {
    a ^ b
  }

  function Wide(b: bv8): bv32 {
    b as bv32
  }

  function Low(c: bv32): bv8 {
    (c & 0xff) as bv8
  }

  function High(c: bv32): bv32 {
    (c >> 8) & 0x00ffffff
  }

  predicate Odd(c: bv32) {
    c & 1 == 1
  }

  function Half(c: bv32): bv32 {
    c >> 1
  }

  /** One bit: the register shifts right and the polynomial is added if a one falls out. */
  function BitStep(c: bv32): bv32 {
    if Odd(c) then Xor(Half(c), POLYNOMIAL) else Half(c)
  }

  function EightSteps(c: bv32): bv32 {
    BitStep(BitStep(BitStep(BitStep(BitStep(BitStep(BitStep(BitStep(c))))))))
  }

  /** A byte is added to the low end of the register, then shifted through bit by bit. */
  function ByteStep(c: bv32, b: bv8): bv32 {
    EightSteps(Xor(c, Wide(b)))
  }

  function Bits(b: Byte): bv8 {
    b as bv8
  }

  function Value(b: bv8): Byte {
    b as int
  }

  /** The register after a whole buffer. */
  function Fold(c: bv32, buf: Text): bv32 {
    if buf == [] then c else ByteStep(Fold(c, buf[..|buf| - 1]), Bits(buf[|buf| - 1]))
  }

  /** The CRC-32 of a buffer. */
  function Crc(buf: Text): bv32 {
    Xor(Fold(INIT, buf), INIT)
  }

  // ---- The table is the definition ----

  /** A word if a bit is set. */
  function If(i: bv8, bit: bv8, k: bv32): bv32 {
    if i & bit != 0 then k else 0
  }

  /** The sum of the words that the bits of a byte pick. */
  function Picked(i: bv8, k0: bv32, k1: bv32, k2: bv32, k3: bv32, k4: bv32, k5: bv32, k6: bv32, k7: bv32): bv32 {
    Xor(Xor(Xor(If(i, 0x01, k0), If(i, 0x02, k1)), Xor(If(i, 0x04, k2), If(i, 0x08, k3))),
        Xor(Xor(If(i, 0x10, k4), If(i, 0x20, k5)), Xor(If(i, 0x40, k6), If(i, 0x80, k7))))
  }

  lemma Table0Low(i: bv8)
    requires i >> 5 == 0
    ensures Table0(i) == Picked(i, 0x77073096, 0xee0e612c, 0x076dc419, 0x0edb8832, 0x1db71064, 0x3b6e20c8, 0x76dc4190, 0xedb88320)
  {
  }

  lemma Table0High(i: bv8)
    requires i >> 5 == 1
    ensures Table0(i) == Picked(i, 0x77073096, 0xee0e612c, 0x076dc419, 0x0edb8832, 0x1db71064, 0x3b6e20c8, 0x76dc4190, 0xedb88320)
  {
  }

  lemma Table1Low(i: bv8)
    requires i >> 5 == 2
    ensures Table1(i) == Picked(i, 0x77073096, 0xee0e612c, 0x076dc419, 0x0edb8832, 0x1db71064, 0x3b6e20c8, 0x76dc4190, 0xedb88320)
  {
  }

  lemma Table1High(i: bv8)
    requires i >> 5 == 3
    ensures Table1(i) == Picked(i, 0x77073096, 0xee0e612c, 0x076dc419, 0x0edb8832, 0x1db71064, 0x3b6e20c8, 0x76dc4190, 0xedb88320)
  {
  }

  lemma Table2Low(i: bv8)
    requires i >> 5 == 4
    ensures Table2(i) == Picked(i, 0x77073096, 0xee0e612c, 0x076dc419, 0x0edb8832, 0x1db71064, 0x3b6e20c8, 0x76dc4190, 0xedb88320)
  {
  }

  lemma Table2High(i: bv8)
    requires i >> 5 == 5
    ensures Table2(i) == Picked(i, 0x77073096, 0xee0e612c, 0x076dc419, 0x0edb8832, 0x1db71064, 0x3b6e20c8, 0x76dc4190, 0xedb88320)
  {
  }

  lemma Table3Low(i: bv8)
    requires i >> 5 == 6
    ensures Table3(i) == Picked(i, 0x77073096, 0xee0e612c, 0x076dc419, 0x0edb8832, 0x1db71064, 0x3b6e20c8, 0x76dc4190, 0xedb88320)
  {
  }

  lemma Table3High(i: bv8)
    requires i >> 5 == 7
    ensures Table3(i) == Picked(i, 0x77073096, 0xee0e612c, 0x076dc419, 0x0edb8832, 0x1db71064, 0x3b6e20c8, 0x76dc4190, 0xedb88320)
  {
  }

  /** The table is linear in its index: its entries are sums of eight of them. */
  lemma TablePicks(i: bv8)
    ensures Table(i) == Picked(i, 0x77073096, 0xee0e612c, 0x076dc419, 0x0edb8832, 0x1db71064, 0x3b6e20c8, 0x76dc4190, 0xedb88320)
  {
    hide Table0, Table1, Table2, Table3, Picked;
    LastEighth(i);
    if i >> 5 == 0 { Table0Low(i); }
    else if i >> 5 == 1 { Table0High(i); }
    else if i >> 5 == 2 { Table1Low(i); }
    else if i >> 5 == 3 { Table1High(i); }
    else if i >> 5 == 4 { Table2Low(i); }
    else if i >> 5 == 5 { Table2High(i); }
    else if i >> 5 == 6 { Table3Low(i); }
    else { Table3High(i); }
  }

  lemma LastEighth(i: bv8)
    ensures i >> 5 <= 7
  {
  }

  /** These eight, from the definition. */
  lemma BasisSteps()
    ensures EightSteps(0x01) == 0x77073096
    ensures EightSteps(0x02) == 0xee0e612c
    ensures EightSteps(0x04) == 0x076dc419
    ensures EightSteps(0x08) == 0x0edb8832
    ensures EightSteps(0x10) == 0x1db71064
    ensures EightSteps(0x20) == 0x3b6e20c8
    ensures EightSteps(0x40) == 0x76dc4190
    ensures EightSteps(0x80) == 0xedb88320
    ensures EightSteps(0) == 0
  {
  }

  lemma BitsPicked(i: bv8)
    ensures i as bv32 == Picked(i, 0x01, 0x02, 0x04, 0x08, 0x10, 0x20, 0x40, 0x80)
  {
  }

  lemma StepsOfIf(i: bv8, bit: bv8, k: bv32)
    requires EightSteps(0) == 0
    ensures EightSteps(If(i, bit, k)) == If(i, bit, EightSteps(k))
  {
    hide EightSteps;
  }

  /** Eight steps of a sum are the sum of eight steps. */
  lemma StepsOfPicked(i: bv8, k0: bv32, k1: bv32, k2: bv32, k3: bv32, k4: bv32, k5: bv32, k6: bv32, k7: bv32)
    requires EightSteps(0) == 0
    ensures EightSteps(Picked(i, k0, k1, k2, k3, k4, k5, k6, k7)) ==
      Picked(i, EightSteps(k0), EightSteps(k1), EightSteps(k2), EightSteps(k3), EightSteps(k4), EightSteps(k5), EightSteps(k6), EightSteps(k7))
  {
    hide EightSteps, If, Xor;
    var a, b, c, d := If(i, 0x01, k0), If(i, 0x02, k1), If(i, 0x04, k2), If(i, 0x08, k3);
    var e, f, g, h := If(i, 0x10, k4), If(i, 0x20, k5), If(i, 0x40, k6), If(i, 0x80, k7);
    StepsOfIf(i, 0x01, k0); StepsOfIf(i, 0x02, k1); StepsOfIf(i, 0x04, k2); StepsOfIf(i, 0x08, k3);
    StepsOfIf(i, 0x10, k4); StepsOfIf(i, 0x20, k5); StepsOfIf(i, 0x40, k6); StepsOfIf(i, 0x80, k7);
    EightStepsLinear(a, b); EightStepsLinear(c, d); EightStepsLinear(e, f); EightStepsLinear(g, h);
    EightStepsLinear(Xor(a, b), Xor(c, d));
    EightStepsLinear(Xor(e, f), Xor(g, h));
    EightStepsLinear(Xor(Xor(a, b), Xor(c, d)), Xor(Xor(e, f), Xor(g, h)));
  }

  /** Every entry of the table is eight steps of the definition. */
  lemma TableIsEightSteps(i: bv8)
    ensures Table(i) == EightSteps(i as bv32)
  {
    hide Table, Picked, EightSteps;
    TablePicks(i);
    BasisSteps();
    BitsPicked(i);
    StepsOfPicked(i, 0x01, 0x02, 0x04, 0x08, 0x10, 0x20, 0x40, 0x80);
  }

  lemma HalfLinear(a: bv32, b: bv32)
    ensures Half(Xor(a, b)) == Xor(Half(a), Half(b))
  {
  }

  lemma OddLinear(a: bv32, b: bv32)
    ensures Odd(Xor(a, b)) == (Odd(a) != Odd(b))
  {
  }

  lemma Rearrange(a: bv32, b: bv32, p: bv32)
    ensures Xor(Xor(a, b), p) == Xor(Xor(a, p), b)
    ensures Xor(Xor(a, b), p) == Xor(a, Xor(b, p))
  {
  }

  lemma Cancel(a: bv32, b: bv32, p: bv32)
    ensures Xor(Xor(a, p), Xor(b, p)) == Xor(a, b)
  {
    hide Xor;
    Rearrange(Xor(a, p), b, p);
    Rearrange(a, b, p);
    AddedTwice(Xor(a, b), p);
  }

  lemma AddedTwice(a: bv32, p: bv32)
    ensures Xor(Xor(a, p), p) == a
  {
  }

  lemma BitStepLinear(a: bv32, b: bv32)
    ensures BitStep(Xor(a, b)) == Xor(BitStep(a), BitStep(b))
  {
    hide Xor, Half, Odd;
    HalfLinear(a, b);
    OddLinear(a, b);
    Rearrange(Half(a), Half(b), POLYNOMIAL);
    Cancel(Half(a), Half(b), POLYNOMIAL);
  }

  lemma EightStepsLinear(a: bv32, b: bv32)
    ensures EightSteps(Xor(a, b)) == Xor(EightSteps(a), EightSteps(b))
  {
    hide BitStep, Xor;
    var a1, b1 := BitStep(a), BitStep(b);
    var a2, b2 := BitStep(a1), BitStep(b1);
    var a3, b3 := BitStep(a2), BitStep(b2);
    var a4, b4 := BitStep(a3), BitStep(b3);
    var a5, b5 := BitStep(a4), BitStep(b4);
    var a6, b6 := BitStep(a5), BitStep(b5);
    BitStepLinear(a, b);
    BitStepLinear(a1, b1);
    BitStepLinear(a2, b2);
    BitStepLinear(a3, b3);
    BitStepLinear(a4, b4);
    BitStepLinear(a5, b5);
    BitStepLinear(a6, b6);
    BitStepLinear(BitStep(a6), BitStep(b6));
  }

  /** Bits above the low eight are only shifted by eight steps. */
  lemma HighBitsShift(x: bv32)
    ensures EightSteps(x & 0xffffff00) == High(x)
  {
  }

  lemma Halves(x: bv32)
    ensures x == Xor(Wide(Low(x)), x & 0xffffff00)
  {
  }

  lemma HighOfSum(c: bv32, b: bv8)
    ensures High(Xor(c, Wide(b))) == High(c)
  {
  }

  /** The body of the loop of crc32_update. */
  function TableStep(c: bv32, b: bv8): bv32 {
    Xor(Table(Low(Xor(c, Wide(b)))), High(c))
  }

  /** Eight steps are one lookup: the high bytes are shifted, the low byte decides what is added. */
  lemma TableStepIsByteStep(c: bv32, b: bv8)
    ensures TableStep(c, b) == ByteStep(c, b)
  {
    hide Table, EightSteps, Xor, Wide, Low, High;
    var x := Xor(c, Wide(b));
    HighOfSum(c, b);
    Halves(x);
    WideTable(Low(x));
    HighBitsShift(x);
    EightStepsLinear(Wide(Low(x)), x & 0xffffff00);
  }

  lemma WideTable(i: bv8)
    ensures Table(i) == EightSteps(Wide(i))
  {
    hide Table, EightSteps;
    TableIsEightSteps(i);
  }

  /** crc32_update. The sign of a C char does not matter under the mask. */
  method Update(buf: Text, start: bv32) returns (crc: bv32)
    ensures crc == Fold(start, buf)
  {
    hide TableStep, ByteStep, Bits;
    crc := start;
    assert buf[..0] == [];
    for i := 0 to |buf|
      invariant crc == Fold(start, buf[..i])
    {
      TableStepIsByteStep(crc, Bits(buf[i]));
      assert buf[..i + 1][..i] == buf[..i];
      crc := TableStep(crc, Bits(buf[i]));
    }
    assert buf[..|buf|] == buf;
  }

  /** crc32_classic */
  method Classic(buf: Text) returns (crc: bv32)
    ensures crc == Crc(buf)
  {
    var c := Update(buf, INIT);
    crc := Xor(c, INIT);
  }

  // ---- What the CRC detects ----

  /** The register after a concatenation. */
  lemma {:induction false} FoldConcat(c: bv32, a: Text, b: Text)
    ensures Fold(c, a + b) == Fold(Fold(c, a), b)
    decreases |b|
  {
    hide ByteStep, Bits;
    if b == [] {
      assert a + b == a;
    } else {
      assert (a + b)[..|a + b| - 1] == a + b[..|b| - 1];
      FoldConcat(c, a, b[..|b| - 1]);
    }
  }

  /** The bit shifted out can be put back: the polynomial has its top bit set. */
  function BitBack(c: bv32): bv32 {
    if c & 0x80000000 != 0 then ((c ^ POLYNOMIAL) << 1) | 1 else c << 1
  }

  lemma BitBackInverts(c: bv32)
    ensures BitBack(BitStep(c)) == c
  {
  }

  lemma EightStepsInjective(a: bv32, b: bv32)
    requires EightSteps(a) == EightSteps(b)
    ensures a == b
  {
    hide BitStep, BitBack;
    var a1, b1 := BitStep(a), BitStep(b);
    var a2, b2 := BitStep(a1), BitStep(b1);
    var a3, b3 := BitStep(a2), BitStep(b2);
    var a4, b4 := BitStep(a3), BitStep(b3);
    var a5, b5 := BitStep(a4), BitStep(b4);
    var a6, b6 := BitStep(a5), BitStep(b5);
    var a7, b7 := BitStep(a6), BitStep(b6);
    BitBackInverts(a7); BitBackInverts(b7);
    BitBackInverts(a6); BitBackInverts(b6);
    BitBackInverts(a5); BitBackInverts(b5);
    BitBackInverts(a4); BitBackInverts(b4);
    BitBackInverts(a3); BitBackInverts(b3);
    BitBackInverts(a2); BitBackInverts(b2);
    BitBackInverts(a1); BitBackInverts(b1);
    BitBackInverts(a); BitBackInverts(b);
  }

  /** The registers after one buffer, started differently, differ. */
  lemma {:induction false} FoldInjective(c: bv32, d: bv32, buf: Text)
    requires Fold(c, buf) == Fold(d, buf)
    ensures c == d
    decreases |buf|
  {
    hide EightSteps, Xor, Wide, Bits;
    if buf != [] {
      var init, b := buf[..|buf| - 1], Wide(Bits(buf[|buf| - 1]));
      EightStepsInjective(Xor(Fold(c, init), b), Xor(Fold(d, init), b));
      AddedTwice(Fold(c, init), b);
      AddedTwice(Fold(d, init), b);
      FoldInjective(c, d, init);
    }
  }

  /** A byte added above the low byte comes down to it by eight steps. */
  function Up(b: bv32): bv32 {
    b << 8
  }

  lemma ComesDown(b: bv32)
    requires TopClear(b)
    ensures EightSteps(Up(b)) == b
  {
    hide EightSteps, Up, High, TopClear;
    UpIsHigh(b);
    HighBitsShift(Up(b));
  }

  lemma UpIsHigh(b: bv32)
    requires TopClear(b)
    ensures Up(b) & 0xffffff00 == Up(b) && High(Up(b)) == b
  {
  }

  /** A short buffer as a little-endian word. */
  function Word(buf: Text): bv32 {
    if buf == [] then 0 else Xor(Wide(Bits(buf[0])), Up(Word(buf[1..])))
  }

  /** A word of at most `n` bytes. */
  predicate Fits(w: bv32, n: nat) {
    if n == 0 then w == 0 else Fits(High(w), n - 1)
  }

  predicate TopClear(w: bv32) {
    w & 0xff000000 == 0
  }

  lemma WordStep(buf: Text)
    requires buf != []
    ensures Word(buf) == Xor(Wide(Bits(buf[0])), Up(Word(buf[1..])))
  {
    hide Xor, Wide, Bits, Up;
  }

  lemma HighOfWord(b: bv8, w: bv32)
    requires TopClear(w)
    ensures High(Xor(Wide(b), Up(w))) == w
  {
  }

  lemma LowOfWord(b: bv8, w: bv32)
    ensures Low(Xor(Wide(b), Up(w))) == b
  {
  }

  lemma HighClears(w: bv32)
    requires High(High(High(w))) == 0
    ensures TopClear(w)
  {
  }

  lemma {:induction false} FitsMore(w: bv32, n: nat)
    requires Fits(w, n)
    ensures Fits(w, n + 1)
  {
    if n == 0 {
      assert High(0) == 0;
    } else {
      hide High;
      FitsMore(High(w), n - 1);
    }
  }

  lemma {:induction false} WordFits(buf: Text)
    requires |buf| <= 4
    ensures Fits(Word(buf), |buf|)
    ensures |buf| < 4 ==> TopClear(Word(buf))
  {
    hide Xor, Wide, Bits, Up, High, TopClear, Word;
    if buf == [] {
      EmptyWord();
    } else {
      WordStep(buf);
      WordFits(buf[1..]);
      HighOfWord(Bits(buf[0]), Word(buf[1..]));
      if |buf| < 4 {
        FitsThree(Word(buf), |buf|);
      }
    }
  }

  lemma EmptyWord()
    ensures Word([]) == 0 && TopClear(0)
  {
  }

  lemma FitsThree(w: bv32, n: nat)
    requires n <= 3 && Fits(w, n)
    ensures TopClear(w)
    decreases 3 - n
  {
    hide High, TopClear, Fits;
    if n < 3 {
      FitsMore(w, n);
      FitsThree(w, n + 1);
    } else {
      UnfoldFits(w);
      HighClears(w);
    }
  }

  lemma UnfoldFits(w: bv32)
    requires Fits(w, 3)
    ensures High(High(High(w))) == 0
  {
    hide High;
    assert Fits(High(w), 2);
    assert Fits(High(High(w)), 1);
    assert Fits(High(High(High(w))), 0);
  }

  lemma ByteBack(a: Byte)
    ensures Value(Bits(a)) == a
  {
    ByteFitsBits(a);
  }

  lemma {:induction false} WordInjective(u: Text, v: Text)
    requires |u| == |v| <= 4 && Word(u) == Word(v)
    ensures u == v
  {
    hide Xor, Wide, Bits, Up, Fits, High, Low, TopClear, Word, Value;
    if u != [] {
      WordFits(u[1..]);
      WordFits(v[1..]);
      WordStep(u);
      WordStep(v);
      HighOfWord(Bits(u[0]), Word(u[1..]));
      HighOfWord(Bits(v[0]), Word(v[1..]));
      LowOfWord(Bits(u[0]), Word(u[1..]));
      LowOfWord(Bits(v[0]), Word(v[1..]));
      ByteBack(u[0]);
      ByteBack(v[0]);
      WordInjective(u[1..], v[1..]);
    }
  }

  lemma FoldFirst(c: bv32, buf: Text)
    requires buf != []
    ensures Fold(c, buf) == Fold(ByteStep(c, Bits(buf[0])), buf[1..])
  {
    hide ByteStep, Bits;
    assert [buf[0]] + buf[1..] == buf;
    FoldConcat(c, [buf[0]], buf[1..]);
    assert [buf[0]][..0] == [];
  }

  /** Two buffers of at most a word bring two registers together only if they differ as the registers do. */
  lemma {:induction false} Together(c: bv32, d: bv32, u: Text, v: Text)
    requires |u| == |v| <= 4 && Fold(c, u) == Fold(d, v)
    ensures Xor(c, d) == Xor(Word(u), Word(v))
    decreases |u|
  {
    if u == [] {
      XorSelf(c);
      XorSelf(0);
    } else {
      hide Xor, Wide, Bits, Up, Fits, EightSteps, Fold, Word, TopClear;
      var a, b := Wide(Bits(u[0])), Wide(Bits(v[0]));
      FoldFirst(c, u);
      FoldFirst(d, v);
      Together(EightSteps(Xor(c, a)), EightSteps(Xor(d, b)), u[1..], v[1..]);
      WordStep(u);
      WordStep(v);
      WordFits(u[1..]);
      WordFits(v[1..]);
      StepBack(c, a, d, b, Word(u[1..]), Word(v[1..]));
    }
  }

  lemma StepBack(c: bv32, a: bv32, d: bv32, b: bv32, x: bv32, y: bv32)
    requires TopClear(x) && TopClear(y)
    requires Xor(EightSteps(Xor(c, a)), EightSteps(Xor(d, b))) == Xor(x, y)
    ensures Xor(c, d) == Xor(Xor(a, Up(x)), Xor(b, Up(y)))
  {
    hide Xor, Up, EightSteps, TopClear;
    EightStepsLinear(Xor(c, a), Xor(d, b));
    ComesDown(x);
    ComesDown(y);
    EightStepsLinear(Up(x), Up(y));
    EightStepsInjective(Xor(Xor(c, a), Xor(d, b)), Xor(Up(x), Up(y)));
    Swap(c, a, d, b, Up(x), Up(y));
  }

  lemma Swap(c: bv32, a: bv32, d: bv32, b: bv32, x: bv32, y: bv32)
    requires Xor(Xor(c, a), Xor(d, b)) == Xor(x, y)
    ensures Xor(c, d) == Xor(Xor(a, x), Xor(b, y))
  {
    hide Xor;
    Exchange(c, a, d, b);
    Exchange(a, x, b, y);
    AddedTwice(Xor(c, d), Xor(a, b));
    Commute(Xor(a, b), Xor(x, y));
  }

  lemma Commute(a: bv32, b: bv32)
    ensures Xor(a, b) == Xor(b, a)
  {
  }

  lemma Exchange(a: bv32, b: bv32, c: bv32, d: bv32)
    ensures Xor(Xor(a, b), Xor(c, d)) == Xor(Xor(a, c), Xor(b, d))
  {
    hide Xor;
    Rearrange(Xor(a, b), c, d);
    Rearrange(a, b, c);
    Rearrange(Xor(a, c), b, d);
  }

  lemma XorSelf(a: bv32)
    ensures Xor(a, a) == 0
  {
  }

  /** A change inside four consecutive bytes always changes the CRC. */
  lemma DetectsWindow(x: Text, y: Text, i: nat)
    requires |x| == |y| && x != y
    requires forall j :: 0 <= j < |x| && !(i <= j < i + 4) ==> x[j] == y[j]
    ensures Crc(x) != Crc(y)
  {
    hide Word, Fold, Xor;
    var n := |x|;
    var from := if i <= n then i else n;
    var to := if i + 4 <= n then i + 4 else n;
    var p, u, v, t := x[..from], x[from..to], y[from..to], x[to..];
    assert x == p + u + t && y == p + v + t;
    if Crc(x) == Crc(y) {
      AddedTwice(Fold(INIT, x), INIT);
      AddedTwice(Fold(INIT, y), INIT);
      FoldConcat(INIT, p + u, t);
      FoldConcat(INIT, p + v, t);
      FoldInjective(Fold(INIT, p + u), Fold(INIT, p + v), t);
      FoldConcat(INIT, p, u);
      FoldConcat(INIT, p, v);
      var c := Fold(INIT, p);
      Together(c, c, u, v);
      XorZero(c, Word(u), Word(v));
      WordInjective(u, v);
    }
  }

  lemma XorZero(c: bv32, a: bv32, b: bv32)
    requires Xor(c, c) == Xor(a, b)
    ensures a == b
  {
    assert Xor(c, c) == 0;
  }

  // ---- An example ----

  const DIGITS: Text := [0x31, 0x32, 0x33, 0x34, 0x35, 0x36, 0x37, 0x38, 0x39]

  lemma FoldStep(n: nat, c: bv32, y: bv8, d: bv32)
    requires n < |DIGITS| && Fold(INIT, DIGITS[..n]) == c && Bits(DIGITS[n]) == y && ByteStep(c, y) == d
    ensures Fold(INIT, DIGITS[..n + 1]) == d
  {
    hide ByteStep, Bits;
    var s := DIGITS[..n + 1];
    assert s[..n] == DIGITS[..n];
  }

  lemma FirstSteps()
    ensures ByteStep(0xffffffff, 0x31) == 0x7c231048
    ensures ByteStep(0x7c231048, 0x32) == 0xb0acbb32
    ensures ByteStep(0xb0acbb32, 0x33) == 0x77b79c2d
    ensures ByteStep(0x77b79c2d, 0x34) == 0x641c1f5c
    ensures ByteStep(0x641c1f5c, 0x35) == 0x340ac5e3
  {
  }

  lemma LastSteps()
    ensures ByteStep(0x340ac5e3, 0x36) == 0xf68d2c9e
    ensures ByteStep(0xf68d2c9e, 0x37) == 0xaffc9660
    ensures ByteStep(0xaffc9660, 0x38) == 0x651f2550
    ensures ByteStep(0x651f2550, 0x39) == 0x340bc6d9
  {
  }

  lemma FiveDigits()
    ensures Fold(INIT, DIGITS[..5]) == 0x340ac5e3
  {
    FirstSteps();
    NoBytes(INIT);
    hide Fold, ByteStep;
    FoldStep(0, 0xffffffff, 0x31, 0x7c231048);
    FoldStep(1, 0x7c231048, 0x32, 0xb0acbb32);
    FoldStep(2, 0xb0acbb32, 0x33, 0x77b79c2d);
    FoldStep(3, 0x77b79c2d, 0x34, 0x641c1f5c);
    FoldStep(4, 0x641c1f5c, 0x35, 0x340ac5e3);
  }

  /** The check value of this CRC, that of the nine digits. */
  lemma CrcOfDigits()
    ensures Crc(DIGITS) == 0xcbf43926
  {
    FiveDigits();
    LastSteps();
    hide Fold, ByteStep;
    FoldStep(5, 0x340ac5e3, 0x36, 0xf68d2c9e);
    FoldStep(6, 0xf68d2c9e, 0x37, 0xaffc9660);
    FoldStep(7, 0xaffc9660, 0x38, 0x651f2550);
    FoldStep(8, 0x651f2550, 0x39, 0x340bc6d9);
    assert DIGITS[..9] == DIGITS;
  }

  lemma NoBytes(c: bv32)
    ensures Fold(c, []) == c
  {
  }
}
