/** What the checksums of lib/crc.c share. */
module CrcBytes {
  /** A C `char` becoming an `int`: its sign fills the upper bits. */
  function Widen32(b: bv8): bv32 {
    if b & 0x80 == 0 then b as bv32 else (b as bv32) | 0xffffff00
  }

  function Widen16(b: bv8): bv16 {
    if b & 0x80 == 0 then b as bv16 else (b as bv16) | 0xff00
  }
}

/** The 32-bit checksum of lib/crc.c: a table-driven form of a bit-serial register
    (appendix C.3 of RFC 1662), and what it detects. */
module Crc32 {
  import opened CrcBytes

  const POLY: bv32 := 0xedb88320

  function Xor(x: bv32, y: bv32): bv32 {
    x ^ y
  }

  /** One shift of the register. */
  function Step(r: bv32): bv32 {
    if r & 1 == 1 then (r >> 1) ^ POLY else r >> 1
  }

  function Step8(r: bv32): bv32 {
    Step(Step(Step(Step(Step(Step(Step(Step(r))))))))
  }

  /** Where a byte meets the register. */
  function Input(i: bv8): bv32 {
    i as bv32
  }

  /** The register after a buffer, bit by bit. */
  function Register(r: bv32, buf: seq<bv8>): bv32 {
    if buf == [] then r else Step8(Xor(Register(r, buf[..|buf| - 1]), Input(buf[|buf| - 1])))
  }

  /** The entry of a table row that the low three bits select. */
  function Pick(i: bv8, v0: bv32, v1: bv32, v2: bv32, v3: bv32, v4: bv32, v5: bv32, v6: bv32, v7: bv32): bv32 {
    var k := i & 7;
    if k == 0 then v0 else if k == 1 then v1 else if k == 2 then v2 else if k == 3 then v3
    else if k == 4 then v4 else if k == 5 then v5 else if k == 6 then v6 else v7
  }

  /** crc32tab. */
  function Table(i: bv8): bv32 {
    if i < 0x08 then
      Pick(i, 0x00000000, 0x77073096, 0xee0e612c, 0x990951ba, 0x076dc419, 0x706af48f, 0xe963a535, 0x9e6495a3)
    else if i < 0x10 then
      Pick(i, 0x0edb8832, 0x79dcb8a4, 0xe0d5e91e, 0x97d2d988, 0x09b64c2b, 0x7eb17cbd, 0xe7b82d07, 0x90bf1d91)
    else if i < 0x18 then
      Pick(i, 0x1db71064, 0x6ab020f2, 0xf3b97148, 0x84be41de, 0x1adad47d, 0x6ddde4eb, 0xf4d4b551, 0x83d385c7)
    else if i < 0x20 then
      Pick(i, 0x136c9856, 0x646ba8c0, 0xfd62f97a, 0x8a65c9ec, 0x14015c4f, 0x63066cd9, 0xfa0f3d63, 0x8d080df5)
    else if i < 0x28 then
      Pick(i, 0x3b6e20c8, 0x4c69105e, 0xd56041e4, 0xa2677172, 0x3c03e4d1, 0x4b04d447, 0xd20d85fd, 0xa50ab56b)
    else if i < 0x30 then
      Pick(i, 0x35b5a8fa, 0x42b2986c, 0xdbbbc9d6, 0xacbcf940, 0x32d86ce3, 0x45df5c75, 0xdcd60dcf, 0xabd13d59)
    else if i < 0x38 then
      Pick(i, 0x26d930ac, 0x51de003a, 0xc8d75180, 0xbfd06116, 0x21b4f4b5, 0x56b3c423, 0xcfba9599, 0xb8bda50f)
    else if i < 0x40 then
      Pick(i, 0x2802b89e, 0x5f058808, 0xc60cd9b2, 0xb10be924, 0x2f6f7c87, 0x58684c11, 0xc1611dab, 0xb6662d3d)
    else if i < 0x48 then
      Pick(i, 0x76dc4190, 0x01db7106, 0x98d220bc, 0xefd5102a, 0x71b18589, 0x06b6b51f, 0x9fbfe4a5, 0xe8b8d433)
    else if i < 0x50 then
      Pick(i, 0x7807c9a2, 0x0f00f934, 0x9609a88e, 0xe10e9818, 0x7f6a0dbb, 0x086d3d2d, 0x91646c97, 0xe6635c01)
    else if i < 0x58 then
      Pick(i, 0x6b6b51f4, 0x1c6c6162, 0x856530d8, 0xf262004e, 0x6c0695ed, 0x1b01a57b, 0x8208f4c1, 0xf50fc457)
    else if i < 0x60 then
      Pick(i, 0x65b0d9c6, 0x12b7e950, 0x8bbeb8ea, 0xfcb9887c, 0x62dd1ddf, 0x15da2d49, 0x8cd37cf3, 0xfbd44c65)
    else if i < 0x68 then
      Pick(i, 0x4db26158, 0x3ab551ce, 0xa3bc0074, 0xd4bb30e2, 0x4adfa541, 0x3dd895d7, 0xa4d1c46d, 0xd3d6f4fb)
    else if i < 0x70 then
      Pick(i, 0x4369e96a, 0x346ed9fc, 0xad678846, 0xda60b8d0, 0x44042d73, 0x33031de5, 0xaa0a4c5f, 0xdd0d7cc9)
    else if i < 0x78 then
      Pick(i, 0x5005713c, 0x270241aa, 0xbe0b1010, 0xc90c2086, 0x5768b525, 0x206f85b3, 0xb966d409, 0xce61e49f)
    else if i < 0x80 then
      Pick(i, 0x5edef90e, 0x29d9c998, 0xb0d09822, 0xc7d7a8b4, 0x59b33d17, 0x2eb40d81, 0xb7bd5c3b, 0xc0ba6cad)
    else if i < 0x88 then
      Pick(i, 0xedb88320, 0x9abfb3b6, 0x03b6e20c, 0x74b1d29a, 0xead54739, 0x9dd277af, 0x04db2615, 0x73dc1683)
    else if i < 0x90 then
      Pick(i, 0xe3630b12, 0x94643b84, 0x0d6d6a3e, 0x7a6a5aa8, 0xe40ecf0b, 0x9309ff9d, 0x0a00ae27, 0x7d079eb1)
    else if i < 0x98 then
      Pick(i, 0xf00f9344, 0x8708a3d2, 0x1e01f268, 0x6906c2fe, 0xf762575d, 0x806567cb, 0x196c3671, 0x6e6b06e7)
    else if i < 0xa0 then
      Pick(i, 0xfed41b76, 0x89d32be0, 0x10da7a5a, 0x67dd4acc, 0xf9b9df6f, 0x8ebeeff9, 0x17b7be43, 0x60b08ed5)
    else if i < 0xa8 then
      Pick(i, 0xd6d6a3e8, 0xa1d1937e, 0x38d8c2c4, 0x4fdff252, 0xd1bb67f1, 0xa6bc5767, 0x3fb506dd, 0x48b2364b)
    else if i < 0xb0 then
      Pick(i, 0xd80d2bda, 0xaf0a1b4c, 0x36034af6, 0x41047a60, 0xdf60efc3, 0xa867df55, 0x316e8eef, 0x4669be79)
    else if i < 0xb8 then
      Pick(i, 0xcb61b38c, 0xbc66831a, 0x256fd2a0, 0x5268e236, 0xcc0c7795, 0xbb0b4703, 0x220216b9, 0x5505262f)
    else if i < 0xc0 then
      Pick(i, 0xc5ba3bbe, 0xb2bd0b28, 0x2bb45a92, 0x5cb36a04, 0xc2d7ffa7, 0xb5d0cf31, 0x2cd99e8b, 0x5bdeae1d)
    else if i < 0xc8 then
      Pick(i, 0x9b64c2b0, 0xec63f226, 0x756aa39c, 0x026d930a, 0x9c0906a9, 0xeb0e363f, 0x72076785, 0x05005713)
    else if i < 0xd0 then
      Pick(i, 0x95bf4a82, 0xe2b87a14, 0x7bb12bae, 0x0cb61b38, 0x92d28e9b, 0xe5d5be0d, 0x7cdcefb7, 0x0bdbdf21)
    else if i < 0xd8 then
      Pick(i, 0x86d3d2d4, 0xf1d4e242, 0x68ddb3f8, 0x1fda836e, 0x81be16cd, 0xf6b9265b, 0x6fb077e1, 0x18b74777)
    else if i < 0xe0 then
      Pick(i, 0x88085ae6, 0xff0f6a70, 0x66063bca, 0x11010b5c, 0x8f659eff, 0xf862ae69, 0x616bffd3, 0x166ccf45)
    else if i < 0xe8 then
      Pick(i, 0xa00ae278, 0xd70dd2ee, 0x4e048354, 0x3903b3c2, 0xa7672661, 0xd06016f7, 0x4969474d, 0x3e6e77db)
    else if i < 0xf0 then
      Pick(i, 0xaed16a4a, 0xd9d65adc, 0x40df0b66, 0x37d83bf0, 0xa9bcae53, 0xdebb9ec5, 0x47b2cf7f, 0x30b5ffe9)
    else if i < 0xf8 then
      Pick(i, 0xbdbdf21c, 0xcabac28a, 0x53b39330, 0x24b4a3a6, 0xbad03605, 0xcdd70693, 0x54de5729, 0x23d967bf)
    else Pick(i, 0xb3667a2e, 0xc4614ab8, 0x5d681b02, 0x2a6f2b94, 0xb40bbe37, 0xc30c8ea1, 0x5a05df1b, 0x2d02ef8d)
  }

  /** One byte through the table: an entry, and the rest of the register moved eight places. */
  function TableStep(cr: bv32, b: bv8): bv32 {
    Xor(Table(Index(cr, b)), Moved(cr))
  }

  function Index(cr: bv32, b: bv8): bv8 {
    ((cr ^ Widen32(b)) & 0xff) as bv8
  }

  function Moved(cr: bv32): bv32 {
    (cr >> 8) & 0x00ffffff
  }

  // ----- The register is linear -----

  function Shifted(x: bv32): bv32 {
    x >> 1
  }

  predicate Leaves(x: bv32) {
    x & 1 == 1
  }

  lemma ShiftXor(x: bv32, y: bv32)
    ensures Shifted(Xor(x, y)) == Xor(Shifted(x), Shifted(y))
    ensures Leaves(Xor(x, y)) <==> Leaves(x) != Leaves(y)
  {
  }

  lemma XorSwap(a: bv32, b: bv32)
    ensures Xor(a, b) == Xor(b, a)
  {
  }

  lemma XorRight(a: bv32, b: bv32, p: bv32)
    ensures Xor(Xor(a, b), p) == Xor(a, Xor(b, p))
  {
  }

  lemma XorTwice(a: bv32, p: bv32)
    ensures Xor(Xor(a, p), p) == a
  {
  }

  lemma XorLeft(a: bv32, b: bv32, p: bv32)
    ensures Xor(Xor(a, b), p) == Xor(Xor(a, p), b)
  {
    hide Xor;
    XorRight(a, b, p);
    XorSwap(b, p);
    XorRight(a, p, b);
  }

  lemma XorBoth(a: bv32, b: bv32, p: bv32)
    ensures Xor(Xor(a, p), Xor(b, p)) == Xor(a, b)
  {
    hide Xor;
    XorRight(Xor(a, p), b, p);
    XorLeft(Xor(a, p), b, p);
    XorTwice(a, p);
  }

  lemma StepIs(x: bv32)
    ensures Step(x) == if Leaves(x) then Xor(Shifted(x), POLY) else Shifted(x)
  {
  }

  lemma StepXor(x: bv32, y: bv32)
    ensures Step(Xor(x, y)) == Xor(Step(x), Step(y))
  {
    hide Step, Shifted, Leaves, Xor;
    StepIs(x);
    StepIs(y);
    StepIs(Xor(x, y));
    ShiftXor(x, y);
    XorRight(Shifted(x), Shifted(y), POLY);
    XorLeft(Shifted(x), Shifted(y), POLY);
    XorBoth(Shifted(x), Shifted(y), POLY);
  }

  /** Eight steps of a sum are the sum of eight steps. */
  lemma Step8Xor(x: bv32, y: bv32)
    ensures Step8(Xor(x, y)) == Xor(Step8(x), Step8(y))
  {
    hide Step, Xor;
    var x1, y1 := Step(x), Step(y);
    StepXor(x, y);
    var x2, y2 := Step(x1), Step(y1);
    StepXor(x1, y1);
    var x3, y3 := Step(x2), Step(y2);
    StepXor(x2, y2);
    var x4, y4 := Step(x3), Step(y3);
    StepXor(x3, y3);
    var x5, y5 := Step(x4), Step(y4);
    StepXor(x4, y4);
    var x6, y6 := Step(x5), Step(y5);
    StepXor(x5, y5);
    var x7, y7 := Step(x6), Step(y6);
    StepXor(x6, y6);
    StepXor(x7, y7);
  }

  // ----- The table is eight steps on a byte -----

  /** One bit of the byte, where it meets the register. */
  function InputBit(i: bv8, mask: bv8): bv32 {
    Input(i & mask)
  }

  function BitPart(i: bv8, mask: bv8, v: bv32): bv32 {
    if i & mask == 0 then 0 else v
  }

  lemma Bit0(i: bv8)
    ensures Step8(InputBit(i, 0x01)) == BitPart(i, 0x01, 0x77073096)
  {
  }

  lemma Bit1(i: bv8)
    ensures Step8(InputBit(i, 0x02)) == BitPart(i, 0x02, 0xee0e612c)
  {
  }

  lemma Bit2(i: bv8)
    ensures Step8(InputBit(i, 0x04)) == BitPart(i, 0x04, 0x076dc419)
  {
  }

  lemma Bit3(i: bv8)
    ensures Step8(InputBit(i, 0x08)) == BitPart(i, 0x08, 0x0edb8832)
  {
  }

  lemma Bit4(i: bv8)
    ensures Step8(InputBit(i, 0x10)) == BitPart(i, 0x10, 0x1db71064)
  {
  }

  lemma Bit5(i: bv8)
    ensures Step8(InputBit(i, 0x20)) == BitPart(i, 0x20, 0x3b6e20c8)
  {
  }

  lemma Bit6(i: bv8)
    ensures Step8(InputBit(i, 0x40)) == BitPart(i, 0x40, 0x76dc4190)
  {
  }

  lemma Bit7(i: bv8)
    ensures Step8(InputBit(i, 0x80)) == BitPart(i, 0x80, 0xedb88320)
  {
  }

  function Sum8(v0: bv32, v1: bv32, v2: bv32, v3: bv32, v4: bv32, v5: bv32, v6: bv32, v7: bv32): bv32 {
    Xor(Xor(Xor(Xor(Xor(Xor(Xor(v0, v1), v2), v3), v4), v5), v6), v7)
  }

  lemma Step8Sum8(v0: bv32, v1: bv32, v2: bv32, v3: bv32, v4: bv32, v5: bv32, v6: bv32, v7: bv32)
    ensures Step8(Sum8(v0, v1, v2, v3, v4, v5, v6, v7))
         == Sum8(Step8(v0), Step8(v1), Step8(v2), Step8(v3), Step8(v4), Step8(v5), Step8(v6), Step8(v7))
  {
    hide Step8, Xor;
    var s1 := Xor(v0, v1);
    Step8Xor(v0, v1);
    var s2 := Xor(s1, v2);
    Step8Xor(s1, v2);
    var s3 := Xor(s2, v3);
    Step8Xor(s2, v3);
    var s4 := Xor(s3, v4);
    Step8Xor(s3, v4);
    var s5 := Xor(s4, v5);
    Step8Xor(s4, v5);
    var s6 := Xor(s5, v6);
    Step8Xor(s5, v6);
    Step8Xor(s6, v7);
  }

  /** Eight steps on a byte, summed over its bits. */
  function BitSum(i: bv8): bv32 {
    Sum8(
      BitPart(i, 0x01, 0x77073096), BitPart(i, 0x02, 0xee0e612c),
      BitPart(i, 0x04, 0x076dc419), BitPart(i, 0x08, 0x0edb8832),
      BitPart(i, 0x10, 0x1db71064), BitPart(i, 0x20, 0x3b6e20c8),
      BitPart(i, 0x40, 0x76dc4190), BitPart(i, 0x80, 0xedb88320))
  }

  lemma InputBits(i: bv8)
    ensures Input(i) == Sum8(
      InputBit(i, 0x01), InputBit(i, 0x02), InputBit(i, 0x04), InputBit(i, 0x08),
      InputBit(i, 0x10), InputBit(i, 0x20), InputBit(i, 0x40), InputBit(i, 0x80))
  {
  }

  lemma InputSteps(i: bv8)
    ensures Step8(Input(i)) == BitSum(i)
  {
    hide Step8, Input, InputBit, BitPart, Xor, Sum8;
    InputBits(i);
    Step8Sum8(InputBit(i, 0x01), InputBit(i, 0x02), InputBit(i, 0x04), InputBit(i, 0x08),
              InputBit(i, 0x10), InputBit(i, 0x20), InputBit(i, 0x40), InputBit(i, 0x80));
    Bit0(i); Bit1(i); Bit2(i); Bit3(i); Bit4(i); Bit5(i); Bit6(i); Bit7(i);
  }

  lemma Rows0(i: bv8)
    requires i < 16
    ensures Table(i) == BitSum(i)
  {
  }

  lemma Rows16(i: bv8)
    requires 16 <= i < 32
    ensures Table(i) == BitSum(i)
  {
  }

  lemma Rows32(i: bv8)
    requires 32 <= i < 48
    ensures Table(i) == BitSum(i)
  {
  }

  lemma Rows48(i: bv8)
    requires 48 <= i < 64
    ensures Table(i) == BitSum(i)
  {
  }

  lemma Rows64(i: bv8)
    requires 64 <= i < 80
    ensures Table(i) == BitSum(i)
  {
  }

  lemma Rows80(i: bv8)
    requires 80 <= i < 96
    ensures Table(i) == BitSum(i)
  {
  }

  lemma Rows96(i: bv8)
    requires 96 <= i < 112
    ensures Table(i) == BitSum(i)
  {
  }

  lemma Rows112(i: bv8)
    requires 112 <= i < 128
    ensures Table(i) == BitSum(i)
  {
  }

  lemma Rows128(i: bv8)
    requires 128 <= i < 144
    ensures Table(i) == BitSum(i)
  {
  }

  lemma Rows144(i: bv8)
    requires 144 <= i < 160
    ensures Table(i) == BitSum(i)
  {
  }

  lemma Rows160(i: bv8)
    requires 160 <= i < 176
    ensures Table(i) == BitSum(i)
  {
  }

  lemma Rows176(i: bv8)
    requires 176 <= i < 192
    ensures Table(i) == BitSum(i)
  {
  }

  lemma Rows192(i: bv8)
    requires 192 <= i < 208
    ensures Table(i) == BitSum(i)
  {
  }

  lemma Rows208(i: bv8)
    requires 208 <= i < 224
    ensures Table(i) == BitSum(i)
  {
  }

  lemma Rows224(i: bv8)
    requires 224 <= i < 240
    ensures Table(i) == BitSum(i)
  {
  }

  lemma Rows240(i: bv8)
    requires 240 <= i
    ensures Table(i) == BitSum(i)
  {
  }

  /** Every one of the 256 entries is eight steps on its index. */
  lemma TableIsSteps(i: bv8)
    ensures Table(i) == Step8(Input(i))
  {
    hide Table, BitSum, Step8, Input;
    InputSteps(i);
    if i < 16 {
      Rows0(i);
    } else if i < 32 {
      Rows16(i);
    } else if i < 48 {
      Rows32(i);
    } else if i < 64 {
      Rows48(i);
    } else if i < 80 {
      Rows64(i);
    } else if i < 96 {
      Rows80(i);
    } else if i < 112 {
      Rows96(i);
    } else if i < 128 {
      Rows112(i);
    } else if i < 144 {
      Rows128(i);
    } else if i < 160 {
      Rows144(i);
    } else if i < 176 {
      Rows160(i);
    } else if i < 192 {
      Rows176(i);
    } else if i < 208 {
      Rows192(i);
    } else if i < 224 {
      Rows208(i);
    } else if i < 240 {
      Rows224(i);
    } else {
      Rows240(i);
    }
  }

  /** The bits of the register the index does not use. */
  function Rest(cr: bv32): bv32 {
    cr & 0xffffff00
  }

  /** The bits it does use. */
  function Part(cr: bv32): bv8 {
    (cr & 0xff) as bv8
  }

  lemma IndexIs(cr: bv32, b: bv8)
    ensures Index(cr, b) == Part(cr) ^ b
  {
  }

  lemma InputXor(x: bv8, y: bv8)
    ensures Input(x ^ y) == Xor(Input(x), Input(y))
  {
  }

  lemma PartAndRest(cr: bv32)
    ensures Xor(Input(Part(cr)), Rest(cr)) == cr
  {
  }

  lemma SplitRegister(cr: bv32, b: bv8)
    ensures Xor(Input(Index(cr, b)), Rest(cr)) == Xor(cr, Input(b))
  {
    hide Xor, Input, Index, Part, Rest;
    IndexIs(cr, b);
    InputXor(Part(cr), b);
    PartAndRest(cr);
    XorLeft(Input(Part(cr)), Input(b), Rest(cr));
  }

  lemma RestMoves(cr: bv32)
    ensures Step8(Rest(cr)) == Moved(cr)
  {
  }

  /** For every register and byte, signed chars included, the table does the eight steps. */
  lemma TableStepIsSteps(cr: bv32, b: bv8)
    ensures TableStep(cr, b) == Step8(Xor(cr, Input(b)))
  {
    hide Table, Step8, Input, Xor, Index, Moved, Rest;
    TableIsSteps(Index(cr, b));
    SplitRegister(cr, b);
    RestMoves(cr);
    Step8Xor(Input(Index(cr, b)), Rest(cr));
  }

  lemma RegisterStep(r: bv32, buf: seq<bv8>, i: nat)
    requires i < |buf|
    ensures Register(r, buf[..i + 1]) == Step8(Xor(Register(r, buf[..i]), Input(buf[i])))
  {
    hide Step8, Input, Xor;
    assert buf[..i + 1][..i] == buf[..i];
  }

  lemma RegisterNone(r: bv32)
    ensures Register(r, []) == r
  {
  }

  /** Processing a buffer in any split equals processing it whole. */
  lemma {:induction false} RegisterConcat(r: bv32, a: seq<bv8>, b: seq<bv8>)
    ensures Register(r, a + b) == Register(Register(r, a), b)
  {
    hide Step8, Input, Xor;
    if b == [] {
      assert a + b == a;
    } else {
      assert (a + b)[..|a + b| - 1] == a + b[..|b| - 1];
      RegisterConcat(r, a, b[..|b| - 1]);
    }
  }

  // ----- The functions of crc.c -----

  method UpdCrc32(buf: seq<bv8>, crc: bv32) returns (cr: bv32)
    ensures cr == Register(crc, buf)
  {
    hide Table, Step8, Input, Xor, Register, TableStep;
    cr := crc;
    RegisterNone(crc);
    assert buf[..0] == [];
    for i := 0 to |buf|
      invariant cr == Register(crc, buf[..i])
    {
      TableStepIsSteps(cr, buf[i]);
      RegisterStep(crc, buf, i);
      cr := TableStep(cr, buf[i]);
    }
    assert buf[..|buf|] == buf;
  }

  /** crc32ccitt, and StringCRC32 on the bytes before the terminating NUL. */
  method Crc32Ccitt(str: seq<bv8>) returns (crc: bv32)
    ensures crc == Register(0xffffffff, str)
  {
    crc := UpdCrc32(str, 0xffffffff);
  }

  const FILE_BLOCK: nat := 32768

  /** file_crc of lib/mbfile.c: the checksum of a file read in blocks. */
  method FileCrc(file: seq<bv8>) returns (crc: bv32)
    ensures crc == Xor(Register(0xffffffff, file), 0xffffffff)
  {
    hide Register, Xor;
    crc := 0xffffffff;
    RegisterNone(crc);
    var at := 0;
    var bread;
    assert file[..0] == [];
    var again := true;
    while again
      invariant at <= |file| && crc == Register(0xffffffff, file[..at]) && (again || at == |file|)
      decreases |file| - at, again
    {
      bread := if |file| - at < FILE_BLOCK then |file| - at else FILE_BLOCK;
      var line := file[at..at + bread];
      RegisterConcat(0xffffffff, file[..at], line);
      assert file[..at] + line == file[..at + bread];
      crc := UpdCrc32(line, crc);
      at := at + bread;
      again := bread > 0;
    }
    assert file[..at] == file;
    crc := Xor(crc, 0xffffffff);
  }

  // ----- What the checksum detects -----

  lemma StepInjective(x: bv32, y: bv32)
    ensures Step(x) == Step(y) ==> x == y
  {
  }

  lemma Step8Injective(x: bv32, y: bv32)
    requires Step8(x) == Step8(y)
    ensures x == y
  {
    hide Step;
    var x1, x2, x3, x4 := Step(x), Step(Step(x)), Step(Step(Step(x))), Step(Step(Step(Step(x))));
    var y1, y2, y3, y4 := Step(y), Step(Step(y)), Step(Step(Step(y))), Step(Step(Step(Step(y))));
    StepInjective(Step(Step(Step(x4))), Step(Step(Step(y4))));
    StepInjective(Step(Step(x4)), Step(Step(y4)));
    StepInjective(Step(x4), Step(y4));
    StepInjective(x4, y4);
    StepInjective(x3, y3);
    StepInjective(x2, y2);
    StepInjective(x1, y1);
    StepInjective(x, y);
  }

  lemma XorCancels(x: bv32, y: bv32, z: bv32)
    ensures Xor(x, z) == Xor(y, z) ==> x == y
    ensures Xor(z, x) == Xor(z, y) ==> x == y
  {
    hide Xor;
    XorTwice(x, z);
    XorTwice(y, z);
    XorSwap(x, z);
    XorSwap(y, z);
  }

  /** A common tail cannot hide a difference in the register. */
  lemma {:induction false} RegisterInjective(x: bv32, y: bv32, s: seq<bv8>)
    requires Register(x, s) == Register(y, s)
    ensures x == y
  {
    hide Step8, Input, Xor;
    if s != [] {
      var n := |s| - 1;
      Step8Injective(Xor(Register(x, s[..n]), Input(s[n])), Xor(Register(y, s[..n]), Input(s[n])));
      XorCancels(Register(x, s[..n]), Register(y, s[..n]), Input(s[n]));
      RegisterInjective(x, y, s[..n]);
    }
  }

  /** A byte placed `n` bits up in the register. */
  function Up(b: bv8, n: bv6): bv32
    requires n < 32
  {
    (b as bv32) << n
  }

  /** Four bytes as the word they form in the register. */
  function Word(b0: bv8, b1: bv8, b2: bv8, b3: bv8): bv32 {
    Xor(Xor(Xor(Input(b0), Up(b1, 8)), Up(b2, 16)), Up(b3, 24))
  }

  lemma ShiftsOut(b: bv8)
    ensures Step8(Up(b, 8)) == Input(b)
  {
  }

  lemma ShiftsDown(b: bv8)
    ensures Step8(Up(b, 16)) == Up(b, 8)
  {
  }

  lemma ShiftsUp(b: bv8)
    ensures Step8(Up(b, 24)) == Up(b, 16)
  {
  }

  /** Four bytes enter the register as if all at once. */
  lemma FourBytes(r: bv32, b0: bv8, b1: bv8, b2: bv8, b3: bv8)
    ensures Register(r, [b0, b1, b2, b3]) == Step8(Step8(Step8(Step8(Xor(r, Word(b0, b1, b2, b3))))))
  {
    hide Step8, Xor, Input, Up, Register;
    FourSteps(r, b0, b1, b2, b3);
    ShiftsOut(b1);
    ShiftsOut(b2);
    ShiftsDown(b2);
    ShiftsOut(b3);
    ShiftsDown(b3);
    ShiftsUp(b3);
    var x0 := Xor(r, Input(b0));
    var x1 := Xor(x0, Up(b1, 8));
    var x2 := Xor(x1, Up(b2, 16));
    Step8Xor(x0, Up(b1, 8));
    Step8Xor(x1, Up(b2, 16));
    Step8Xor(Step8(x1), Up(b2, 8));
    Step8Xor(x2, Up(b3, 24));
    Step8Xor(Step8(x2), Up(b3, 16));
    Step8Xor(Step8(Step8(x2)), Up(b3, 8));
    XorFour(r, Input(b0), Up(b1, 8), Up(b2, 16), Up(b3, 24));
  }

  lemma XorFour(r: bv32, a: bv32, b: bv32, c: bv32, d: bv32)
    ensures Xor(Xor(Xor(Xor(r, a), b), c), d) == Xor(r, Xor(Xor(Xor(a, b), c), d))
  {
    hide Xor;
    XorRight(r, a, b);
    XorRight(r, Xor(a, b), c);
    XorRight(r, Xor(Xor(a, b), c), d);
  }

  lemma FourSteps(r: bv32, b0: bv8, b1: bv8, b2: bv8, b3: bv8)
    ensures Register(r, [b0, b1, b2, b3])
         == Step8(Xor(Step8(Xor(Step8(Xor(Step8(Xor(r, Input(b0))), Input(b1))), Input(b2))), Input(b3)))
  {
    hide Step8, Xor, Input, Register;
    var s := [b0, b1, b2, b3];
    RegisterNone(r);
    RegisterStep(r, s, 0);
    RegisterStep(r, s, 1);
    RegisterStep(r, s, 2);
    RegisterStep(r, s, 3);
    assert s[..0] == [] && s[..4] == s;
  }

  function ByteOf(w: bv32, n: bv6): bv8
    requires n < 32
  {
    ((w >> n) & 0xff) as bv8
  }

  lemma WordBytes(b0: bv8, b1: bv8, b2: bv8, b3: bv8)
    ensures var w := Word(b0, b1, b2, b3);
            ByteOf(w, 0) == b0 && ByteOf(w, 8) == b1 && ByteOf(w, 16) == b2 && ByteOf(w, 24) == b3
  {
  }

  lemma WordInjective(a0: bv8, a1: bv8, a2: bv8, a3: bv8, b0: bv8, b1: bv8, b2: bv8, b3: bv8)
    requires Word(a0, a1, a2, a3) == Word(b0, b1, b2, b3)
    ensures a0 == b0 && a1 == b1 && a2 == b2 && a3 == b3
  {
    hide Word, ByteOf;
    WordBytes(a0, a1, a2, a3);
    WordBytes(b0, b1, b2, b3);
  }

  lemma FourBytesInjective(r: bv32, a: seq<bv8>, b: seq<bv8>)
    requires |a| == |b| == 4 && Register(r, a) == Register(r, b)
    ensures a == b
  {
    hide Register, Step8, Word, Xor;
    assert a == [a[0], a[1], a[2], a[3]] && b == [b[0], b[1], b[2], b[3]];
    FourBytes(r, a[0], a[1], a[2], a[3]);
    FourBytes(r, b[0], b[1], b[2], b[3]);
    var x, y := Xor(r, Word(a[0], a[1], a[2], a[3])), Xor(r, Word(b[0], b[1], b[2], b[3]));
    Step8Injective(Step8(Step8(Step8(x))), Step8(Step8(Step8(y))));
    Step8Injective(Step8(Step8(x)), Step8(Step8(y)));
    Step8Injective(Step8(x), Step8(y));
    Step8Injective(x, y);
    XorCancels(Word(a[0], a[1], a[2], a[3]), Word(b[0], b[1], b[2], b[3]), r);
    WordInjective(a[0], a[1], a[2], a[3], b[0], b[1], b[2], b[3]);
  }

  /** The buffers differ at most inside one window of four consecutive bytes. */
  predicate DifferInWindow(a: seq<bv8>, b: seq<bv8>, k: nat) {
    |a| == |b| && forall i :: 0 <= i < |a| && !(k <= i < k + 4) ==> a[i] == b[i]
  }

  /** Such a difference is always seen: equal checksums mean equal buffers. */
  lemma WindowDetected(r: bv32, a: seq<bv8>, b: seq<bv8>, k: nat)
    requires DifferInWindow(a, b, k)
    ensures Register(r, a) == Register(r, b) <==> a == b
  {
    hide Register;
    if Register(r, a) == Register(r, b) {
      if |a| < 4 {
        var pad: seq<bv8> := [0, 0, 0, 0][|a|..];
        RegisterConcat(r, a, pad);
        RegisterConcat(r, b, pad);
        FourBytesInjective(r, a + pad, b + pad);
        assert a == (a + pad)[..|a|] && b == (b + pad)[..|b|];
      } else {
        var at := if k + 4 <= |a| then k else |a| - 4;
        WindowInside(r, a, b, at);
      }
    }
  }

  lemma WindowInside(r: bv32, a: seq<bv8>, b: seq<bv8>, k: nat)
    requires DifferInWindow(a, b, k) && k + 4 <= |a| && Register(r, a) == Register(r, b)
    ensures a == b
  {
    hide Register;
    var head, tail := a[..k], a[k + 4..];
    var wa, wb := a[k..k + 4], b[k..k + 4];
    assert b[..k] == head && b[k + 4..] == tail;
    assert a == head + wa + tail && b == head + wb + tail;
    RegisterConcat(r, head + wa, tail);
    RegisterConcat(r, head + wb, tail);
    RegisterConcat(r, head, wa);
    RegisterConcat(r, head, wb);
    RegisterInjective(Register(Register(r, head), wa), Register(Register(r, head), wb), tail);
    FourBytesInjective(Register(r, head), wa, wb);
  }

  /** Five bytes are too many: from every start, these two buffers have one checksum. */
  lemma FiveBytesCollide(r: bv32)
    ensures Register(r, [0, 0, 0, 0, 0]) == Register(r, [1, 0x96, 0x30, 0x07, 0x77])
  {
    hide Register, Step8, Xor, Word, Input;
    assert [0] + [0, 0, 0, 0] == [0 as bv8, 0, 0, 0, 0];
    assert [1] + [0x96, 0x30, 0x07, 0x77] == [1 as bv8, 0x96, 0x30, 0x07, 0x77];
    RegisterConcat(r, [0], [0, 0, 0, 0]);
    RegisterConcat(r, [1], [0x96, 0x30, 0x07, 0x77]);
    OneByte(r, 0);
    OneByte(r, 1);
    Step8Xor(r, Input(0));
    Step8Xor(r, Input(1));
    FourBytes(Register(r, [0]), 0, 0, 0, 0);
    FourBytes(Register(r, [1]), 0x96, 0x30, 0x07, 0x77);
    Cancelling();
    XorBack(Step8(r), Step8(Input(1)));
  }

  lemma Cancelling()
    ensures Step8(Input(0)) == 0 && Word(0, 0, 0, 0) == 0
    ensures Word(0x96, 0x30, 0x07, 0x77) == Step8(Input(1))
  {
  }

  lemma XorBack(x: bv32, y: bv32)
    ensures Xor(Xor(x, y), y) == Xor(Xor(x, 0), 0)
  {
    hide Xor;
    XorTwice(x, y);
    XorTwice(x, 0);
  }

  lemma OneByte(r: bv32, b: bv8)
    ensures Register(r, [b]) == Step8(Xor(r, Input(b)))
  {
    hide Step8, Xor, Input;
    assert [b][..0] == [];
  }
}
