/** What the two 16-bit checksums of lib/crc.c have in common: exclusive or, and a register that is
    moved on byte by byte. */
module Register16 {
  function Xor(x: bv16, y: bv16): bv16 {
    x ^ y
  }

  /** The entry of a table row that the low three bits select. */
  function Pick(i: bv8, v0: bv16, v1: bv16, v2: bv16, v3: bv16, v4: bv16, v5: bv16, v6: bv16, v7: bv16): bv16 {
    var k := i & 7;
    if k == 0 then v0 else if k == 1 then v1 else if k == 2 then v2 else if k == 3 then v3
    else if k == 4 then v4 else if k == 5 then v5 else if k == 6 then v6 else v7
  }

  lemma XorSwap(a: bv16, b: bv16)
    ensures Xor(a, b) == Xor(b, a)
  {
  }

  lemma XorRight(a: bv16, b: bv16, p: bv16)
    ensures Xor(Xor(a, b), p) == Xor(a, Xor(b, p))
  {
  }

  lemma XorTwice(a: bv16, p: bv16)
    ensures Xor(Xor(a, p), p) == a
  {
  }

  lemma XorLeft(a: bv16, b: bv16, p: bv16)
    ensures Xor(Xor(a, b), p) == Xor(Xor(a, p), b)
  {
    hide Xor;
    XorRight(a, b, p);
    XorSwap(b, p);
    XorRight(a, p, b);
  }

  lemma XorBoth(a: bv16, b: bv16, p: bv16)
    ensures Xor(Xor(a, p), Xor(b, p)) == Xor(a, b)
  {
    hide Xor;
    XorRight(Xor(a, p), b, p);
    XorLeft(Xor(a, p), b, p);
    XorTwice(a, p);
  }

  function BitPart(i: bv8, mask: bv8, v: bv16): bv16 {
    if i & mask == 0 then 0 else v
  }

  function Sum8(v0: bv16, v1: bv16, v2: bv16, v3: bv16, v4: bv16, v5: bv16, v6: bv16, v7: bv16): bv16 {
    Xor(Xor(Xor(Xor(Xor(Xor(Xor(v0, v1), v2), v3), v4), v5), v6), v7)
  }

  // ----- Eight steps -----

  function Eight(step: bv16 -> bv16, r: bv16): bv16 {
    step(step(step(step(step(step(step(step(r))))))))
  }

  ghost predicate Linear(f: bv16 -> bv16) {
    forall x, y :: f(Xor(x, y)) == Xor(f(x), f(y))
  }

  ghost predicate Injective(f: bv16 -> bv16) {
    forall x, y :: f(x) == f(y) ==> x == y
  }

  lemma EightLinear(step: bv16 -> bv16, x: bv16, y: bv16)
    requires Linear(step)
    ensures Eight(step, Xor(x, y)) == Xor(Eight(step, x), Eight(step, y))
  {
    hide Xor;
  }

  lemma EightInjective(step: bv16 -> bv16, x: bv16, y: bv16)
    requires Injective(step) && Eight(step, x) == Eight(step, y)
    ensures x == y
  {
  }

  lemma LinearSum8(f: bv16 -> bv16, v0: bv16, v1: bv16, v2: bv16, v3: bv16, v4: bv16, v5: bv16, v6: bv16, v7: bv16)
    requires Linear(f)
    ensures f(Sum8(v0, v1, v2, v3, v4, v5, v6, v7)) == Sum8(f(v0), f(v1), f(v2), f(v3), f(v4), f(v5), f(v6), f(v7))
  {
    hide Xor;
  }

  // ----- The register -----

  /** The register after a buffer, where a byte comes in by `input` and is worked off by `steps`. */
  function RegisterOf(steps: bv16 -> bv16, input: bv8 -> bv16, r: bv16, buf: seq<bv8>): bv16 {
    if buf == [] then r else steps(Xor(RegisterOf(steps, input, r, buf[..|buf| - 1]), input(buf[|buf| - 1])))
  }

  lemma {:induction false} RegisterConcat(steps: bv16 -> bv16, input: bv8 -> bv16, r: bv16, a: seq<bv8>, b: seq<bv8>)
    ensures RegisterOf(steps, input, r, a + b) == RegisterOf(steps, input, RegisterOf(steps, input, r, a), b)
  {
    hide Xor;
    if b == [] {
      assert a + b == a;
    } else {
      assert (a + b)[..|a + b| - 1] == a + b[..|b| - 1];
      RegisterConcat(steps, input, r, a, b[..|b| - 1]);
    }
  }

  lemma XorCancels(x: bv16, y: bv16, z: bv16)
    ensures Xor(x, z) == Xor(y, z) ==> x == y
    ensures Xor(z, x) == Xor(z, y) ==> x == y
  {
    hide Xor;
    XorTwice(x, z);
    XorTwice(y, z);
    XorSwap(x, z);
    XorSwap(y, z);
  }

  /** A common tail cannot hide a difference in the register. */
  lemma {:induction false} RegisterInjective(steps: bv16 -> bv16, input: bv8 -> bv16, x: bv16, y: bv16, s: seq<bv8>)
    requires Injective(steps) && RegisterOf(steps, input, x, s) == RegisterOf(steps, input, y, s)
    ensures x == y
  {
    hide Xor;
    if s != [] {
      var n := |s| - 1;
      XorCancels(RegisterOf(steps, input, x, s[..n]), RegisterOf(steps, input, y, s[..n]), input(s[n]));
      RegisterInjective(steps, input, x, y, s[..n]);
    }
  }

  /** Two bytes never give the register another two give. */
  ghost predicate PairsDiffer(steps: bv16 -> bv16, input: bv8 -> bv16) {
    forall r, a, b :: |a| == |b| == 2 && RegisterOf(steps, input, r, a) == RegisterOf(steps, input, r, b) ==> a == b
  }

  /** The buffers differ at most inside one window of two consecutive bytes. */
  predicate DifferInPair(a: seq<bv8>, b: seq<bv8>, k: nat) {
    |a| == |b| && forall i :: 0 <= i < |a| && !(k <= i < k + 2) ==> a[i] == b[i]
  }

  lemma PairDetected(steps: bv16 -> bv16, input: bv8 -> bv16, r: bv16, a: seq<bv8>, b: seq<bv8>, k: nat)
    requires Injective(steps) && PairsDiffer(steps, input) && DifferInPair(a, b, k)
    ensures RegisterOf(steps, input, r, a) == RegisterOf(steps, input, r, b) <==> a == b
  {
    hide RegisterOf;
    if RegisterOf(steps, input, r, a) == RegisterOf(steps, input, r, b) {
      if |a| < 2 {
        var pad: seq<bv8> := [0, 0][|a|..];
        RegisterConcat(steps, input, r, a, pad);
        RegisterConcat(steps, input, r, b, pad);
        assert a + pad == b + pad;
        assert a == (a + pad)[..|a|] && b == (b + pad)[..|b|];
      } else {
        PairInside(steps, input, r, a, b, if k + 2 <= |a| then k else |a| - 2);
      }
    }
  }

  lemma PairInside(steps: bv16 -> bv16, input: bv8 -> bv16, r: bv16, a: seq<bv8>, b: seq<bv8>, k: nat)
    requires Injective(steps) && PairsDiffer(steps, input) && DifferInPair(a, b, k) && k + 2 <= |a| == |b|
    requires RegisterOf(steps, input, r, a) == RegisterOf(steps, input, r, b)
    ensures a == b
  {
    hide RegisterOf, Injective, DifferInPair;
    CutAround(a, b, k);
    var x := RegisterOf(steps, input, r, a[..k]);
    var wa, wb, tail := a[k..k + 2], b[k..k + 2], a[k + 2..];
    Parts(steps, input, r, a[..k], wa, tail);
    Parts(steps, input, r, a[..k], wb, tail);
    RegisterInjective(steps, input, RegisterOf(steps, input, x, wa), RegisterOf(steps, input, x, wb), tail);
  }

  lemma CutAround(a: seq<bv8>, b: seq<bv8>, k: nat)
    requires DifferInPair(a, b, k) && k + 2 <= |a|
    ensures a == a[..k] + a[k..k + 2] + a[k + 2..] && b == a[..k] + b[k..k + 2] + a[k + 2..]
  {
    assert b[..k] == a[..k] && b[k + 2..] == a[k + 2..];
  }

  lemma Parts(steps: bv16 -> bv16, input: bv8 -> bv16, r: bv16, head: seq<bv8>, w: seq<bv8>, tail: seq<bv8>)
    ensures RegisterOf(steps, input, r, head + w + tail)
         == RegisterOf(steps, input, RegisterOf(steps, input, RegisterOf(steps, input, r, head), w), tail)
  {
    hide RegisterOf;
    RegisterConcat(steps, input, r, head + w, tail);
    RegisterConcat(steps, input, r, head, w);
  }

  /** Two bytes in a row: what the register is. */
  lemma TwoSteps(steps: bv16 -> bv16, input: bv8 -> bv16, r: bv16, a: seq<bv8>)
    requires |a| == 2
    ensures RegisterOf(steps, input, r, a) == steps(Xor(steps(Xor(r, input(a[0]))), input(a[1])))
  {
    hide Xor;
    assert a[..1][..0] == [];
    assert RegisterOf(steps, input, r, a[..1]) == steps(Xor(r, input(a[0])));
  }

  lemma ThreeSteps(steps: bv16 -> bv16, input: bv8 -> bv16, r: bv16, a: seq<bv8>)
    requires |a| == 3
    ensures RegisterOf(steps, input, r, a)
         == steps(Xor(steps(Xor(steps(Xor(r, input(a[0]))), input(a[1]))), input(a[2])))
  {
    hide Xor;
    TwoSteps(steps, input, r, a[..2]);
  }

  /** Where eight steps on `up` of a byte are its `input`, and the two together show both bytes, no
      two bytes give the register of another two. */
  lemma PairsApart(steps: bv16 -> bv16, input: bv8 -> bv16, up: bv8 -> bv16, r: bv16, a: seq<bv8>, b: seq<bv8>)
    requires Linear(steps) && Injective(steps) && |a| == |b| == 2
    requires forall c :: steps(up(c)) == input(c)
    requires Xor(input(a[0]), up(a[1])) == Xor(input(b[0]), up(b[1])) ==> a == b
    requires RegisterOf(steps, input, r, a) == RegisterOf(steps, input, r, b)
    ensures a == b
  {
    hide Xor, RegisterOf;
    TwoSteps(steps, input, r, a);
    TwoSteps(steps, input, r, b);
    WordIn(steps, input, up, r, a[0], a[1]);
    WordIn(steps, input, up, r, b[0], b[1]);
    var x, y := Xor(input(a[0]), up(a[1])), Xor(input(b[0]), up(b[1]));
    assert steps(Xor(r, x)) == steps(Xor(r, y));
    XorCancels(x, y, r);
  }

  /** Two bytes enter the register as one word. */
  lemma WordIn(steps: bv16 -> bv16, input: bv8 -> bv16, up: bv8 -> bv16, r: bv16, b0: bv8, b1: bv8)
    requires Linear(steps) && steps(up(b1)) == input(b1)
    ensures Xor(steps(Xor(r, input(b0))), input(b1)) == steps(Xor(r, Xor(input(b0), up(b1))))
  {
    hide Xor;
    XorRight(r, input(b0), up(b1));
    assert steps(Xor(Xor(r, input(b0)), up(b1))) == Xor(steps(Xor(r, input(b0))), steps(up(b1)));
  }
}

/** The 16-bit checksum crc16ccitt of lib/crc.c. */
module Crc16Ccitt {
  import opened CrcBytes
  import opened Register16

  const POLY: bv16 := 0x8408

  /** One shift of the register. */
  function Step(r: bv16): bv16 {
    if r & 1 == 1 then (r >> 1) ^ POLY else r >> 1
  }

  function Step8(r: bv16): bv16 {
    Step(Step(Step(Step(Step(Step(Step(Step(r))))))))
  }

  /** Where a byte meets the register. */
  function Input(i: bv8): bv16 {
    i as bv16
  }

  /** The register after a buffer, bit by bit. */
  function Register(r: bv16, buf: seq<bv8>): bv16 {
    RegisterOf(Step8, Input, r, buf)
  }

  /** crc16ccitttab. */
  function Table(i: bv8): bv16 {
    if i < 0x08 then Pick(i, 0x0000, 0x1189, 0x2312, 0x329b, 0x4624, 0x57ad, 0x6536, 0x74bf)
    else if i < 0x10 then Pick(i, 0x8c48, 0x9dc1, 0xaf5a, 0xbed3, 0xca6c, 0xdbe5, 0xe97e, 0xf8f7)
    else if i < 0x18 then Pick(i, 0x1081, 0x0108, 0x3393, 0x221a, 0x56a5, 0x472c, 0x75b7, 0x643e)
    else if i < 0x20 then Pick(i, 0x9cc9, 0x8d40, 0xbfdb, 0xae52, 0xdaed, 0xcb64, 0xf9ff, 0xe876)
    else if i < 0x28 then Pick(i, 0x2102, 0x308b, 0x0210, 0x1399, 0x6726, 0x76af, 0x4434, 0x55bd)
    else if i < 0x30 then Pick(i, 0xad4a, 0xbcc3, 0x8e58, 0x9fd1, 0xeb6e, 0xfae7, 0xc87c, 0xd9f5)
    else if i < 0x38 then Pick(i, 0x3183, 0x200a, 0x1291, 0x0318, 0x77a7, 0x662e, 0x54b5, 0x453c)
    else if i < 0x40 then Pick(i, 0xbdcb, 0xac42, 0x9ed9, 0x8f50, 0xfbef, 0xea66, 0xd8fd, 0xc974)
    else if i < 0x48 then Pick(i, 0x4204, 0x538d, 0x6116, 0x709f, 0x0420, 0x15a9, 0x2732, 0x36bb)
    else if i < 0x50 then Pick(i, 0xce4c, 0xdfc5, 0xed5e, 0xfcd7, 0x8868, 0x99e1, 0xab7a, 0xbaf3)
    else if i < 0x58 then Pick(i, 0x5285, 0x430c, 0x7197, 0x601e, 0x14a1, 0x0528, 0x37b3, 0x263a)
    else if i < 0x60 then Pick(i, 0xdecd, 0xcf44, 0xfddf, 0xec56, 0x98e9, 0x8960, 0xbbfb, 0xaa72)
    else if i < 0x68 then Pick(i, 0x6306, 0x728f, 0x4014, 0x519d, 0x2522, 0x34ab, 0x0630, 0x17b9)
    else if i < 0x70 then Pick(i, 0xef4e, 0xfec7, 0xcc5c, 0xddd5, 0xa96a, 0xb8e3, 0x8a78, 0x9bf1)
    else if i < 0x78 then Pick(i, 0x7387, 0x620e, 0x5095, 0x411c, 0x35a3, 0x242a, 0x16b1, 0x0738)
    else if i < 0x80 then Pick(i, 0xffcf, 0xee46, 0xdcdd, 0xcd54, 0xb9eb, 0xa862, 0x9af9, 0x8b70)
    else if i < 0x88 then Pick(i, 0x8408, 0x9581, 0xa71a, 0xb693, 0xc22c, 0xd3a5, 0xe13e, 0xf0b7)
    else if i < 0x90 then Pick(i, 0x0840, 0x19c9, 0x2b52, 0x3adb, 0x4e64, 0x5fed, 0x6d76, 0x7cff)
    else if i < 0x98 then Pick(i, 0x9489, 0x8500, 0xb79b, 0xa612, 0xd2ad, 0xc324, 0xf1bf, 0xe036)
    else if i < 0xa0 then Pick(i, 0x18c1, 0x0948, 0x3bd3, 0x2a5a, 0x5ee5, 0x4f6c, 0x7df7, 0x6c7e)
    else if i < 0xa8 then Pick(i, 0xa50a, 0xb483, 0x8618, 0x9791, 0xe32e, 0xf2a7, 0xc03c, 0xd1b5)
    else if i < 0xb0 then Pick(i, 0x2942, 0x38cb, 0x0a50, 0x1bd9, 0x6f66, 0x7eef, 0x4c74, 0x5dfd)
    else if i < 0xb8 then Pick(i, 0xb58b, 0xa402, 0x9699, 0x8710, 0xf3af, 0xe226, 0xd0bd, 0xc134)
    else if i < 0xc0 then Pick(i, 0x39c3, 0x284a, 0x1ad1, 0x0b58, 0x7fe7, 0x6e6e, 0x5cf5, 0x4d7c)
    else if i < 0xc8 then Pick(i, 0xc60c, 0xd785, 0xe51e, 0xf497, 0x8028, 0x91a1, 0xa33a, 0xb2b3)
    else if i < 0xd0 then Pick(i, 0x4a44, 0x5bcd, 0x6956, 0x78df, 0x0c60, 0x1de9, 0x2f72, 0x3efb)
    else if i < 0xd8 then Pick(i, 0xd68d, 0xc704, 0xf59f, 0xe416, 0x90a9, 0x8120, 0xb3bb, 0xa232)
    else if i < 0xe0 then Pick(i, 0x5ac5, 0x4b4c, 0x79d7, 0x685e, 0x1ce1, 0x0d68, 0x3ff3, 0x2e7a)
    else if i < 0xe8 then Pick(i, 0xe70e, 0xf687, 0xc41c, 0xd595, 0xa12a, 0xb0a3, 0x8238, 0x93b1)
    else if i < 0xf0 then Pick(i, 0x6b46, 0x7acf, 0x4854, 0x59dd, 0x2d62, 0x3ceb, 0x0e70, 0x1ff9)
    else if i < 0xf8 then Pick(i, 0xf78f, 0xe606, 0xd49d, 0xc514, 0xb1ab, 0xa022, 0x92b9, 0x8330)
    else Pick(i, 0x7bc7, 0x6a4e, 0x58d5, 0x495c, 0x3de3, 0x2c6a, 0x1ef1, 0x0f78)
  }

  /** One byte through the table: an entry, and the rest of the register moved eight places. */
  function TableStep(cr: bv16, b: bv8): bv16 {
    Xor(Table(Index(cr, b)), Moved(cr))
  }

  function Index(cr: bv16, b: bv8): bv8 {
    ((cr ^ Widen16(b)) & 0xff) as bv8
  }

  function Moved(cr: bv16): bv16 {
    (cr >> 8) & 0x00ff
  }

  // ----- The register is linear -----

  function Shifted(x: bv16): bv16 {
    x >> 1
  }

  predicate Leaves(x: bv16) {
    x & 1 == 1
  }

  lemma ShiftXor(x: bv16, y: bv16)
    ensures Shifted(Xor(x, y)) == Xor(Shifted(x), Shifted(y))
    ensures Leaves(Xor(x, y)) <==> Leaves(x) != Leaves(y)
  {
  }

  lemma StepIs(x: bv16)
    ensures Step(x) == if Leaves(x) then Xor(Shifted(x), POLY) else Shifted(x)
  {
  }

  lemma StepXor(x: bv16, y: bv16)
    ensures Step(Xor(x, y)) == Xor(Step(x), Step(y))
  {
    hide Step, Shifted, Leaves, Xor;
    StepIs(x);
    StepIs(y);
    StepIs(Xor(x, y));
    ShiftXor(x, y);
    XorRight(Shifted(x), Shifted(y), POLY);
    XorLeft(Shifted(x), Shifted(y), POLY);
    XorBoth(Shifted(x), Shifted(y), POLY);
  }

  lemma StepLinear()
    ensures Linear(Step)
  {
    hide Step, Xor;
    forall x, y
      ensures Step(Xor(x, y)) == Xor(Step(x), Step(y))
    {
      StepXor(x, y);
    }
  }

  /** Eight steps of a sum are the sum of eight steps. */
  lemma Step8Linear()
    ensures Linear(Step8)
  {
    hide Step, Xor;
    StepLinear();
    forall x, y
      ensures Step8(Xor(x, y)) == Xor(Step8(x), Step8(y))
    {
      EightLinear(Step, x, y);
    }
  }

  // ----- The table is eight steps on a byte -----

  /** One bit of the byte, where it meets the register. */
  function InputBit(i: bv8, mask: bv8): bv16 {
    Input(i & mask)
  }

  lemma Bit0(i: bv8)
    ensures Step8(InputBit(i, 0x01)) == BitPart(i, 0x01, 0x1189)
  {
  }

  lemma Bit1(i: bv8)
    ensures Step8(InputBit(i, 0x02)) == BitPart(i, 0x02, 0x2312)
  {
  }

  lemma Bit2(i: bv8)
    ensures Step8(InputBit(i, 0x04)) == BitPart(i, 0x04, 0x4624)
  {
  }

  lemma Bit3(i: bv8)
    ensures Step8(InputBit(i, 0x08)) == BitPart(i, 0x08, 0x8c48)
  {
  }

  lemma Bit4(i: bv8)
    ensures Step8(InputBit(i, 0x10)) == BitPart(i, 0x10, 0x1081)
  {
  }

  lemma Bit5(i: bv8)
    ensures Step8(InputBit(i, 0x20)) == BitPart(i, 0x20, 0x2102)
  {
  }

  lemma Bit6(i: bv8)
    ensures Step8(InputBit(i, 0x40)) == BitPart(i, 0x40, 0x4204)
  {
  }

  lemma Bit7(i: bv8)
    ensures Step8(InputBit(i, 0x80)) == BitPart(i, 0x80, 0x8408)
  {
  }

  /** Eight steps on a byte, summed over its bits. */
  function BitSum(i: bv8): bv16 {
    Sum8(
      BitPart(i, 0x01, 0x1189), BitPart(i, 0x02, 0x2312), BitPart(i, 0x04, 0x4624), BitPart(i, 0x08, 0x8c48),
      BitPart(i, 0x10, 0x1081), BitPart(i, 0x20, 0x2102), BitPart(i, 0x40, 0x4204), BitPart(i, 0x80, 0x8408))
  }

  lemma InputBits(i: bv8)
    ensures Input(i) == Sum8(
      InputBit(i, 0x01), InputBit(i, 0x02), InputBit(i, 0x04), InputBit(i, 0x08),
      InputBit(i, 0x10), InputBit(i, 0x20), InputBit(i, 0x40), InputBit(i, 0x80))
  {
  }

  lemma InputSteps(i: bv8)
    ensures Step8(Input(i)) == BitSum(i)
  {
    hide Step8, Input, InputBit, BitPart, Xor, Sum8;
    InputBits(i);
    Step8Linear();
    LinearSum8(Step8, InputBit(i, 0x01), InputBit(i, 0x02), InputBit(i, 0x04), InputBit(i, 0x08),
              InputBit(i, 0x10), InputBit(i, 0x20), InputBit(i, 0x40), InputBit(i, 0x80));
    Bit0(i); Bit1(i); Bit2(i); Bit3(i); Bit4(i); Bit5(i); Bit6(i); Bit7(i);
  }

  lemma Rows0(i: bv8)
    requires i < 16
    ensures Table(i) == BitSum(i)
  {
  }

  lemma Rows16(i: bv8)
    requires 16 <= i < 32
    ensures Table(i) == BitSum(i)
  {
  }

  lemma Rows32(i: bv8)
    requires 32 <= i < 48
    ensures Table(i) == BitSum(i)
  {
  }

  lemma Rows48(i: bv8)
    requires 48 <= i < 64
    ensures Table(i) == BitSum(i)
  {
  }

  lemma Rows64(i: bv8)
    requires 64 <= i < 80
    ensures Table(i) == BitSum(i)
  {
  }

  lemma Rows80(i: bv8)
    requires 80 <= i < 96
    ensures Table(i) == BitSum(i)
  {
  }

  lemma Rows96(i: bv8)
    requires 96 <= i < 112
    ensures Table(i) == BitSum(i)
  {
  }

  lemma Rows112(i: bv8)
    requires 112 <= i < 128
    ensures Table(i) == BitSum(i)
  {
  }

  lemma Rows128(i: bv8)
    requires 128 <= i < 144
    ensures Table(i) == BitSum(i)
  {
  }

  lemma Rows144(i: bv8)
    requires 144 <= i < 160
    ensures Table(i) == BitSum(i)
  {
  }

  lemma Rows160(i: bv8)
    requires 160 <= i < 176
    ensures Table(i) == BitSum(i)
  {
  }

  lemma Rows176(i: bv8)
    requires 176 <= i < 192
    ensures Table(i) == BitSum(i)
  {
  }

  lemma Rows192(i: bv8)
    requires 192 <= i < 208
    ensures Table(i) == BitSum(i)
  {
  }

  lemma Rows208(i: bv8)
    requires 208 <= i < 224
    ensures Table(i) == BitSum(i)
  {
  }

  lemma Rows224(i: bv8)
    requires 224 <= i < 240
    ensures Table(i) == BitSum(i)
  {
  }

  lemma Rows240(i: bv8)
    requires 240 <= i
    ensures Table(i) == BitSum(i)
  {
  }

  /** Every one of the 256 entries is eight steps on its index. */
  lemma TableIsSteps(i: bv8)
    ensures Table(i) == Step8(Input(i))
  {
    hide Table, BitSum, Step8, Input;
    InputSteps(i);
    if i < 16 {
      Rows0(i);
    } else if i < 32 {
      Rows16(i);
    } else if i < 48 {
      Rows32(i);
    } else if i < 64 {
      Rows48(i);
    } else if i < 80 {
      Rows64(i);
    } else if i < 96 {
      Rows80(i);
    } else if i < 112 {
      Rows96(i);
    } else if i < 128 {
      Rows112(i);
    } else if i < 144 {
      Rows128(i);
    } else if i < 160 {
      Rows144(i);
    } else if i < 176 {
      Rows160(i);
    } else if i < 192 {
      Rows176(i);
    } else if i < 208 {
      Rows192(i);
    } else if i < 224 {
      Rows208(i);
    } else if i < 240 {
      Rows224(i);
    } else {
      Rows240(i);
    }
  }

  /** The bits of the register the index does not use. */
  function Rest(cr: bv16): bv16 {
    cr & 0xff00
  }

  /** The bits it does use. */
  function Part(cr: bv16): bv8 {
    (cr & 0xff) as bv8
  }

  lemma IndexIs(cr: bv16, b: bv8)
    ensures Index(cr, b) == Part(cr) ^ b
  {
  }

  lemma InputXor(x: bv8, y: bv8)
    ensures Input(x ^ y) == Xor(Input(x), Input(y))
  {
  }

  lemma PartAndRest(cr: bv16)
    ensures Xor(Input(Part(cr)), Rest(cr)) == cr
  {
  }

  lemma SplitRegister(cr: bv16, b: bv8)
    ensures Xor(Input(Index(cr, b)), Rest(cr)) == Xor(cr, Input(b))
  {
    hide Xor, Input, Index, Part, Rest;
    IndexIs(cr, b);
    InputXor(Part(cr), b);
    PartAndRest(cr);
    XorLeft(Input(Part(cr)), Input(b), Rest(cr));
  }

  lemma RestMoves(cr: bv16)
    ensures Step8(Rest(cr)) == Moved(cr)
  {
  }

  /** For every register and byte, signed chars included, the table does the eight steps. */
  lemma TableStepIsSteps(cr: bv16, b: bv8)
    ensures TableStep(cr, b) == Step8(Xor(cr, Input(b)))
  {
    hide Table, Step8, Input, Xor, Index, Moved, Rest;
    TableIsSteps(Index(cr, b));
    SplitRegister(cr, b);
    RestMoves(cr);
    Step8Linear();
  }

  lemma RegisterStep(r: bv16, buf: seq<bv8>, i: nat)
    requires i < |buf|
    ensures Register(r, buf[..i + 1]) == Step8(Xor(Register(r, buf[..i]), Input(buf[i])))
  {
    hide Step8, Input, Xor;
    assert buf[..i + 1][..i] == buf[..i];
  }

  lemma RegisterNone(r: bv16)
    ensures Register(r, []) == r
  {
  }

  /** crc16ccitt: appendix C.2 of RFC 1662. */
  method Crc16Ccitt(str: seq<bv8>) returns (crc: bv16)
    ensures crc == Register(0xffff, str)
  {
    hide Table, Step8, Input, Xor, Register, TableStep;
    crc := 0xffff;
    RegisterNone(0xffff);
    assert str[..0] == [];
    for i := 0 to |str|
      invariant crc == Register(0xffff, str[..i])
    {
      TableStepIsSteps(crc, str[i]);
      RegisterStep(0xffff, str, i);
      crc := TableStep(crc, str[i]);
    }
    assert str[..|str|] == str;
  }

  // ----- What the checksum detects -----

  lemma StepInjective(x: bv16, y: bv16)
    ensures Step(x) == Step(y) ==> x == y
  {
  }

  lemma Step8Injective()
    ensures Injective(Step8)
  {
    hide Step;
    forall x, y | Step(x) == Step(y)
      ensures x == y
    {
      StepInjective(x, y);
    }
    forall x, y | Step8(x) == Step8(y)
      ensures x == y
    {
      EightInjective(Step, x, y);
    }
  }

  /** Where a byte is eight steps before it meets the register. */
  function Early(b: bv8): bv16 {
    (b as bv16) << 8
  }

  lemma EarlyIs(b: bv8)
    ensures Step8(Early(b)) == Input(b)
  {
  }

  lemma BothShow(a0: bv8, a1: bv8, b0: bv8, b1: bv8)
    ensures Xor(Input(a0), Early(a1)) == Xor(Input(b0), Early(b1)) ==> a0 == b0 && a1 == b1
  {
  }

  lemma TwoBytesDiffer()
    ensures PairsDiffer(Step8, Input)
  {
    hide Step8, Input, Early, Xor, RegisterOf;
    Step8Linear();
    Step8Injective();
    forall c
      ensures Step8(Early(c)) == Input(c)
    {
      EarlyIs(c);
    }
    forall r, a, b | |a| == |b| == 2 && RegisterOf(Step8, Input, r, a) == RegisterOf(Step8, Input, r, b)
      ensures a == b
    {
      BothShow(a[0], a[1], b[0], b[1]);
      PairsApart(Step8, Input, Early, r, a, b);
    }
  }

  /** Buffers that differ only inside two consecutive bytes have equal checksums only if they are
      equal, from every start value. */
  lemma WindowDetected(r: bv16, a: seq<bv8>, b: seq<bv8>, k: nat)
    requires DifferInPair(a, b, k)
    ensures Register(r, a) == Register(r, b) <==> a == b
  {
    hide Step8, Input, RegisterOf;
    Step8Injective();
    TwoBytesDiffer();
    PairDetected(Step8, Input, r, a, b, k);
  }

  /** Three bytes are too many: from every start, these two buffers have one checksum. */
  lemma ThreeBytesCollide(r: bv16)
    ensures Register(r, [0, 0, 0]) == Register(r, [1, 0x89, 0x11])
  {
    hide Step8, Xor, Input, RegisterOf;
    ThreeSteps(Step8, Input, r, [0, 0, 0]);
    ThreeSteps(Step8, Input, r, [1, 0x89, 0x11]);
    Step8Linear();
    Cancelling();
    var x, y := Step8(r), Step8(Step8(r));
    NoInput(r);
    NoInput(x);
    NoInput(y);
    XorRight(x, 0x1189, Input(0x89));
    XorRight(y, 0x0011, Input(0x11));
    NoInput(y);
  }

  lemma NoInput(x: bv16)
    ensures Xor(x, Input(0)) == x && Xor(x, 0) == x
  {
  }

  lemma Cancelling()
    ensures Step8(Input(1)) == 0x1189 && Step8(Xor(0x1189, Input(0x89))) == 0x0011
    ensures Xor(0x0011, Input(0x11)) == 0
  {
  }
}

/** The 16-bit checksum crc16xmodem of lib/crc.c. */
module Crc16Xmodem {
  import opened CrcBytes
  import opened Register16

  const POLY: bv16 := 0x1021

  /** One shift of the register. */
  function Step(r: bv16): bv16 {
    if r & 0x8000 == 0x8000 then (r << 1) ^ POLY else r << 1
  }

  function Step8(r: bv16): bv16 {
    Step(Step(Step(Step(Step(Step(Step(Step(r))))))))
  }

  /** Where a byte meets the register. */
  function Input(i: bv8): bv16 {
    (i as bv16) << 8
  }

  /** The register after a buffer, bit by bit. */
  function Register(r: bv16, buf: seq<bv8>): bv16 {
    RegisterOf(Step8, Input, r, buf)
  }

  /** crc16xmodemtab. */
  function Table(i: bv8): bv16 {
    if i < 0x08 then Pick(i, 0x0000, 0x1021, 0x2042, 0x3063, 0x4084, 0x50a5, 0x60c6, 0x70e7)
    else if i < 0x10 then Pick(i, 0x8108, 0x9129, 0xa14a, 0xb16b, 0xc18c, 0xd1ad, 0xe1ce, 0xf1ef)
    else if i < 0x18 then Pick(i, 0x1231, 0x0210, 0x3273, 0x2252, 0x52b5, 0x4294, 0x72f7, 0x62d6)
    else if i < 0x20 then Pick(i, 0x9339, 0x8318, 0xb37b, 0xa35a, 0xd3bd, 0xc39c, 0xf3ff, 0xe3de)
    else if i < 0x28 then Pick(i, 0x2462, 0x3443, 0x0420, 0x1401, 0x64e6, 0x74c7, 0x44a4, 0x5485)
    else if i < 0x30 then Pick(i, 0xa56a, 0xb54b, 0x8528, 0x9509, 0xe5ee, 0xf5cf, 0xc5ac, 0xd58d)
    else if i < 0x38 then Pick(i, 0x3653, 0x2672, 0x1611, 0x0630, 0x76d7, 0x66f6, 0x5695, 0x46b4)
    else if i < 0x40 then Pick(i, 0xb75b, 0xa77a, 0x9719, 0x8738, 0xf7df, 0xe7fe, 0xd79d, 0xc7bc)
    else if i < 0x48 then Pick(i, 0x48c4, 0x58e5, 0x6886, 0x78a7, 0x0840, 0x1861, 0x2802, 0x3823)
    else if i < 0x50 then Pick(i, 0xc9cc, 0xd9ed, 0xe98e, 0xf9af, 0x8948, 0x9969, 0xa90a, 0xb92b)
    else if i < 0x58 then Pick(i, 0x5af5, 0x4ad4, 0x7ab7, 0x6a96, 0x1a71, 0x0a50, 0x3a33, 0x2a12)
    else if i < 0x60 then Pick(i, 0xdbfd, 0xcbdc, 0xfbbf, 0xeb9e, 0x9b79, 0x8b58, 0xbb3b, 0xab1a)
    else if i < 0x68 then Pick(i, 0x6ca6, 0x7c87, 0x4ce4, 0x5cc5, 0x2c22, 0x3c03, 0x0c60, 0x1c41)
    else if i < 0x70 then Pick(i, 0xedae, 0xfd8f, 0xcdec, 0xddcd, 0xad2a, 0xbd0b, 0x8d68, 0x9d49)
    else if i < 0x78 then Pick(i, 0x7e97, 0x6eb6, 0x5ed5, 0x4ef4, 0x3e13, 0x2e32, 0x1e51, 0x0e70)
    else if i < 0x80 then Pick(i, 0xff9f, 0xefbe, 0xdfdd, 0xcffc, 0xbf1b, 0xaf3a, 0x9f59, 0x8f78)
    else if i < 0x88 then Pick(i, 0x9188, 0x81a9, 0xb1ca, 0xa1eb, 0xd10c, 0xc12d, 0xf14e, 0xe16f)
    else if i < 0x90 then Pick(i, 0x1080, 0x00a1, 0x30c2, 0x20e3, 0x5004, 0x4025, 0x7046, 0x6067)
    else if i < 0x98 then Pick(i, 0x83b9, 0x9398, 0xa3fb, 0xb3da, 0xc33d, 0xd31c, 0xe37f, 0xf35e)
    else if i < 0xa0 then Pick(i, 0x02b1, 0x1290, 0x22f3, 0x32d2, 0x4235, 0x5214, 0x6277, 0x7256)
    else if i < 0xa8 then Pick(i, 0xb5ea, 0xa5cb, 0x95a8, 0x8589, 0xf56e, 0xe54f, 0xd52c, 0xc50d)
    else if i < 0xb0 then Pick(i, 0x34e2, 0x24c3, 0x14a0, 0x0481, 0x7466, 0x6447, 0x5424, 0x4405)
    else if i < 0xb8 then Pick(i, 0xa7db, 0xb7fa, 0x8799, 0x97b8, 0xe75f, 0xf77e, 0xc71d, 0xd73c)
    else if i < 0xc0 then Pick(i, 0x26d3, 0x36f2, 0x0691, 0x16b0, 0x6657, 0x7676, 0x4615, 0x5634)
    else if i < 0xc8 then Pick(i, 0xd94c, 0xc96d, 0xf90e, 0xe92f, 0x99c8, 0x89e9, 0xb98a, 0xa9ab)
    else if i < 0xd0 then Pick(i, 0x5844, 0x4865, 0x7806, 0x6827, 0x18c0, 0x08e1, 0x3882, 0x28a3)
    else if i < 0xd8 then Pick(i, 0xcb7d, 0xdb5c, 0xeb3f, 0xfb1e, 0x8bf9, 0x9bd8, 0xabbb, 0xbb9a)
    else if i < 0xe0 then Pick(i, 0x4a75, 0x5a54, 0x6a37, 0x7a16, 0x0af1, 0x1ad0, 0x2ab3, 0x3a92)
    else if i < 0xe8 then Pick(i, 0xfd2e, 0xed0f, 0xdd6c, 0xcd4d, 0xbdaa, 0xad8b, 0x9de8, 0x8dc9)
    else if i < 0xf0 then Pick(i, 0x7c26, 0x6c07, 0x5c64, 0x4c45, 0x3ca2, 0x2c83, 0x1ce0, 0x0cc1)
    else if i < 0xf8 then Pick(i, 0xef1f, 0xff3e, 0xcf5d, 0xdf7c, 0xaf9b, 0xbfba, 0x8fd9, 0x9ff8)
    else Pick(i, 0x6e17, 0x7e36, 0x4e55, 0x5e74, 0x2e93, 0x3eb2, 0x0ed1, 0x1ef0)
  }

  /** One byte through the table: an entry, and the rest of the register moved eight places. */
  function TableStep(cr: bv16, b: bv8): bv16 {
    Xor(Table(Index(cr, b)), Moved(cr))
  }

  function Index(cr: bv16, b: bv8): bv8 {
    ((((cr >> 8) & 0xff) ^ Widen16(b)) & 0xff) as bv8
  }

  function Moved(cr: bv16): bv16 {
    cr << 8
  }

  // ----- The register is linear -----

  function Shifted(x: bv16): bv16 {
    x << 1
  }

  predicate Leaves(x: bv16) {
    x & 0x8000 == 0x8000
  }

  lemma ShiftXor(x: bv16, y: bv16)
    ensures Shifted(Xor(x, y)) == Xor(Shifted(x), Shifted(y))
    ensures Leaves(Xor(x, y)) <==> Leaves(x) != Leaves(y)
  {
  }

  lemma StepIs(x: bv16)
    ensures Step(x) == if Leaves(x) then Xor(Shifted(x), POLY) else Shifted(x)
  {
  }

  lemma StepXor(x: bv16, y: bv16)
    ensures Step(Xor(x, y)) == Xor(Step(x), Step(y))
  {
    hide Step, Shifted, Leaves, Xor;
    StepIs(x);
    StepIs(y);
    StepIs(Xor(x, y));
    ShiftXor(x, y);
    XorRight(Shifted(x), Shifted(y), POLY);
    XorLeft(Shifted(x), Shifted(y), POLY);
    XorBoth(Shifted(x), Shifted(y), POLY);
  }

  lemma StepLinear()
    ensures Linear(Step)
  {
    hide Step, Xor;
    forall x, y
      ensures Step(Xor(x, y)) == Xor(Step(x), Step(y))
    {
      StepXor(x, y);
    }
  }

  /** Eight steps of a sum are the sum of eight steps. */
  lemma Step8Linear()
    ensures Linear(Step8)
  {
    hide Step, Xor;
    StepLinear();
    forall x, y
      ensures Step8(Xor(x, y)) == Xor(Step8(x), Step8(y))
    {
      EightLinear(Step, x, y);
    }
  }

  // ----- The table is eight steps on a byte -----

  /** One bit of the byte, where it meets the register. */
  function InputBit(i: bv8, mask: bv8): bv16 {
    Input(i & mask)
  }

  lemma Bit0(i: bv8)
    ensures Step8(InputBit(i, 0x01)) == BitPart(i, 0x01, 0x1021)
  {
  }

  lemma Bit1(i: bv8)
    ensures Step8(InputBit(i, 0x02)) == BitPart(i, 0x02, 0x2042)
  {
  }

  lemma Bit2(i: bv8)
    ensures Step8(InputBit(i, 0x04)) == BitPart(i, 0x04, 0x4084)
  {
  }

  lemma Bit3(i: bv8)
    ensures Step8(InputBit(i, 0x08)) == BitPart(i, 0x08, 0x8108)
  {
  }

  lemma Bit4(i: bv8)
    ensures Step8(InputBit(i, 0x10)) == BitPart(i, 0x10, 0x1231)
  {
  }

  lemma Bit5(i: bv8)
    ensures Step8(InputBit(i, 0x20)) == BitPart(i, 0x20, 0x2462)
  {
  }

  lemma Bit6(i: bv8)
    ensures Step8(InputBit(i, 0x40)) == BitPart(i, 0x40, 0x48c4)
  {
  }

  lemma Bit7(i: bv8)
    ensures Step8(InputBit(i, 0x80)) == BitPart(i, 0x80, 0x9188)
  {
  }

  /** Eight steps on a byte, summed over its bits. */
  function BitSum(i: bv8): bv16 {
    Sum8(
      BitPart(i, 0x01, 0x1021), BitPart(i, 0x02, 0x2042), BitPart(i, 0x04, 0x4084), BitPart(i, 0x08, 0x8108),
      BitPart(i, 0x10, 0x1231), BitPart(i, 0x20, 0x2462), BitPart(i, 0x40, 0x48c4), BitPart(i, 0x80, 0x9188))
  }

  lemma InputBits(i: bv8)
    ensures Input(i) == Sum8(
      InputBit(i, 0x01), InputBit(i, 0x02), InputBit(i, 0x04), InputBit(i, 0x08),
      InputBit(i, 0x10), InputBit(i, 0x20), InputBit(i, 0x40), InputBit(i, 0x80))
  {
  }

  lemma InputSteps(i: bv8)
    ensures Step8(Input(i)) == BitSum(i)
  {
    hide Step8, Input, InputBit, BitPart, Xor, Sum8;
    InputBits(i);
    Step8Linear();
    LinearSum8(Step8, InputBit(i, 0x01), InputBit(i, 0x02), InputBit(i, 0x04), InputBit(i, 0x08),
              InputBit(i, 0x10), InputBit(i, 0x20), InputBit(i, 0x40), InputBit(i, 0x80));
    Bit0(i); Bit1(i); Bit2(i); Bit3(i); Bit4(i); Bit5(i); Bit6(i); Bit7(i);
  }

  lemma Rows0(i: bv8)
    requires i < 16
    ensures Table(i) == BitSum(i)
  {
  }

  lemma Rows16(i: bv8)
    requires 16 <= i < 32
    ensures Table(i) == BitSum(i)
  {
  }

  lemma Rows32(i: bv8)
    requires 32 <= i < 48
    ensures Table(i) == BitSum(i)
  {
  }

  lemma Rows48(i: bv8)
    requires 48 <= i < 64
    ensures Table(i) == BitSum(i)
  {
  }

  lemma Rows64(i: bv8)
    requires 64 <= i < 80
    ensures Table(i) == BitSum(i)
  {
  }

  lemma Rows80(i: bv8)
    requires 80 <= i < 96
    ensures Table(i) == BitSum(i)
  {
  }

  lemma Rows96(i: bv8)
    requires 96 <= i < 112
    ensures Table(i) == BitSum(i)
  {
  }

  lemma Rows112(i: bv8)
    requires 112 <= i < 128
    ensures Table(i) == BitSum(i)
  {
  }

  lemma Rows128(i: bv8)
    requires 128 <= i < 144
    ensures Table(i) == BitSum(i)
  {
  }

  lemma Rows144(i: bv8)
    requires 144 <= i < 160
    ensures Table(i) == BitSum(i)
  {
  }

  lemma Rows160(i: bv8)
    requires 160 <= i < 176
    ensures Table(i) == BitSum(i)
  {
  }

  lemma Rows176(i: bv8)
    requires 176 <= i < 192
    ensures Table(i) == BitSum(i)
  {
  }

  lemma Rows192(i: bv8)
    requires 192 <= i < 208
    ensures Table(i) == BitSum(i)
  {
  }

  lemma Rows208(i: bv8)
    requires 208 <= i < 224
    ensures Table(i) == BitSum(i)
  {
  }

  lemma Rows224(i: bv8)
    requires 224 <= i < 240
    ensures Table(i) == BitSum(i)
  {
  }

  lemma Rows240(i: bv8)
    requires 240 <= i
    ensures Table(i) == BitSum(i)
  {
  }

  /** Every one of the 256 entries is eight steps on its index. */
  lemma TableIsSteps(i: bv8)
    ensures Table(i) == Step8(Input(i))
  {
    hide Table, BitSum, Step8, Input;
    InputSteps(i);
    if i < 16 {
      Rows0(i);
    } else if i < 32 {
      Rows16(i);
    } else if i < 48 {
      Rows32(i);
    } else if i < 64 {
      Rows48(i);
    } else if i < 80 {
      Rows64(i);
    } else if i < 96 {
      Rows80(i);
    } else if i < 112 {
      Rows96(i);
    } else if i < 128 {
      Rows112(i);
    } else if i < 144 {
      Rows128(i);
    } else if i < 160 {
      Rows144(i);
    } else if i < 176 {
      Rows160(i);
    } else if i < 192 {
      Rows176(i);
    } else if i < 208 {
      Rows192(i);
    } else if i < 224 {
      Rows208(i);
    } else if i < 240 {
      Rows224(i);
    } else {
      Rows240(i);
    }
  }

  /** The bits of the register the index does not use. */
  function Rest(cr: bv16): bv16 {
    cr & 0x00ff
  }

  /** The bits it does use. */
  function Part(cr: bv16): bv8 {
    ((cr >> 8) & 0xff) as bv8
  }

  lemma IndexIs(cr: bv16, b: bv8)
    ensures Index(cr, b) == Part(cr) ^ b
  {
  }

  lemma InputXor(x: bv8, y: bv8)
    ensures Input(x ^ y) == Xor(Input(x), Input(y))
  {
  }

  lemma PartAndRest(cr: bv16)
    ensures Xor(Input(Part(cr)), Rest(cr)) == cr
  {
  }

  lemma SplitRegister(cr: bv16, b: bv8)
    ensures Xor(Input(Index(cr, b)), Rest(cr)) == Xor(cr, Input(b))
  {
    hide Xor, Input, Index, Part, Rest;
    IndexIs(cr, b);
    InputXor(Part(cr), b);
    PartAndRest(cr);
    XorLeft(Input(Part(cr)), Input(b), Rest(cr));
  }

  lemma RestMoves(cr: bv16)
    ensures Step8(Rest(cr)) == Moved(cr)
  {
  }

  /** For every register and byte, signed chars included, the table does the eight steps. */
  lemma TableStepIsSteps(cr: bv16, b: bv8)
    ensures TableStep(cr, b) == Step8(Xor(cr, Input(b)))
  {
    hide Table, Step8, Input, Xor, Index, Moved, Rest;
    TableIsSteps(Index(cr, b));
    SplitRegister(cr, b);
    RestMoves(cr);
    Step8Linear();
  }

  lemma RegisterStep(r: bv16, buf: seq<bv8>, i: nat)
    requires i < |buf|
    ensures Register(r, buf[..i + 1]) == Step8(Xor(Register(r, buf[..i]), Input(buf[i])))
  {
    hide Step8, Input, Xor;
    assert buf[..i + 1][..i] == buf[..i];
  }

  lemma RegisterNone(r: bv16)
    ensures Register(r, []) == r
  {
  }

  /** crc16xmodem: the register shifts to the left. */
  method Crc16Xmodem(str: seq<bv8>) returns (crc: bv16)
    ensures crc == Register(0, str)
  {
    hide Table, Step8, Input, Xor, Register, TableStep;
    crc := 0;
    RegisterNone(0);
    assert str[..0] == [];
    for i := 0 to |str|
      invariant crc == Register(0, str[..i])
    {
      TableStepIsSteps(crc, str[i]);
      RegisterStep(0, str, i);
      crc := TableStep(crc, str[i]);
    }
    assert str[..|str|] == str;
  }

  // ----- What the checksum detects -----

  function Kept(x: bv16): bv16 {
    x & 0x7fff
  }

  lemma ShiftKeeps(x: bv16)
    ensures Shifted(x) >> 1 == Kept(x)
  {
  }

  lemma KeptAndLeft(x: bv16, y: bv16)
    ensures Kept(x) == Kept(y) && (Leaves(x) <==> Leaves(y)) ==> x == y
  {
  }

  predicate Low(x: bv16) {
    x & 1 == 1
  }

  /** The polynomial leaves its mark in the lowest bit. */
  lemma LowMarks(x: bv16)
    ensures !Low(Shifted(x)) && Low(Xor(Shifted(x), POLY))
  {
  }

  lemma StepInjective(x: bv16, y: bv16)
    ensures Step(x) == Step(y) ==> x == y
  {
    hide Step, Shifted, Kept, Leaves, Low, Xor;
    StepIs(x);
    StepIs(y);
    LowMarks(x);
    LowMarks(y);
    ShiftKeeps(x);
    ShiftKeeps(y);
    KeptAndLeft(x, y);
    XorCancels(Shifted(x), Shifted(y), POLY);
  }

  lemma Step8Injective()
    ensures Injective(Step8)
  {
    hide Step;
    forall x, y | Step(x) == Step(y)
      ensures x == y
    {
      StepInjective(x, y);
    }
    forall x, y | Step8(x) == Step8(y)
      ensures x == y
    {
      EightInjective(Step, x, y);
    }
  }

  /** Where a byte is eight steps before it meets the register. */
  function Early(b: bv8): bv16 {
    b as bv16
  }

  lemma EarlyIs(b: bv8)
    ensures Step8(Early(b)) == Input(b)
  {
  }

  lemma BothShow(a0: bv8, a1: bv8, b0: bv8, b1: bv8)
    ensures Xor(Input(a0), Early(a1)) == Xor(Input(b0), Early(b1)) ==> a0 == b0 && a1 == b1
  {
  }

  lemma TwoBytesDiffer()
    ensures PairsDiffer(Step8, Input)
  {
    hide Step8, Input, Early, Xor, RegisterOf;
    Step8Linear();
    Step8Injective();
    forall c
      ensures Step8(Early(c)) == Input(c)
    {
      EarlyIs(c);
    }
    forall r, a, b | |a| == |b| == 2 && RegisterOf(Step8, Input, r, a) == RegisterOf(Step8, Input, r, b)
      ensures a == b
    {
      BothShow(a[0], a[1], b[0], b[1]);
      PairsApart(Step8, Input, Early, r, a, b);
    }
  }

  /** Buffers that differ only inside two consecutive bytes have equal checksums only if they are
      equal, from every start value. */
  lemma WindowDetected(r: bv16, a: seq<bv8>, b: seq<bv8>, k: nat)
    requires DifferInPair(a, b, k)
    ensures Register(r, a) == Register(r, b) <==> a == b
  {
    hide Step8, Input, RegisterOf;
    Step8Injective();
    TwoBytesDiffer();
    PairDetected(Step8, Input, r, a, b, k);
  }

  /** Three bytes are too many: from every start, these two buffers have one checksum. */
  lemma ThreeBytesCollide(r: bv16)
    ensures Register(r, [0, 0, 0]) == Register(r, [1, 0x10, 0x21])
  {
    hide Step8, Xor, Input, RegisterOf;
    ThreeSteps(Step8, Input, r, [0, 0, 0]);
    ThreeSteps(Step8, Input, r, [1, 0x10, 0x21]);
    Step8Linear();
    Cancelling();
    var x, y := Step8(r), Step8(Step8(r));
    NoInput(r);
    NoInput(x);
    NoInput(y);
    XorRight(x, 0x1021, Input(0x10));
    XorRight(y, 0x2100, Input(0x21));
    NoInput(y);
  }

  lemma NoInput(x: bv16)
    ensures Xor(x, Input(0)) == x && Xor(x, 0) == x
  {
  }

  lemma Cancelling()
    ensures Step8(Input(1)) == 0x1021 && Step8(Xor(0x1021, Input(0x10))) == 0x2100
    ensures Xor(0x2100, Input(0x21)) == 0
  {
  }
}
