/**
 The loopback command's CRC-32: the two loops, and why any damage confined to four
 consecutive octets is always seen. The bit step is linear and injective, and eight
 of them undo a shift by one octet of any value below 2^24.
 */
module Crc {

  const POLY: bv32 := 0xEDB8_8320

  /** One bit of the inner loop: the mask is all ones when the low bit is set, zero otherwise. */
  function BitStep(crc: bv32): bv32 {
    (crc >> 1) ^ (POLY & Mask(crc))
  }

  function Mask(crc: bv32): bv32 {
    0 - (crc & 1)
  }

  function Xor(a: bv32, b: bv32): bv32 {
    a ^ b
  }

  function BitSteps(crc: bv32, n: nat): bv32
    decreases n
  {
    if n == 0 then crc else BitSteps(BitStep(crc), n - 1)
  }

  function Wide(octet: bv8): bv32 {
    octet as bv32
  }

  /** One octet of the outer loop. */
  function OctetStep(crc: bv32, octet: bv8): bv32 {
    BitSteps(Xor(crc, Wide(octet)), 8)
  }

  /** The difference of two octets. */
  function OctetDifference(x: bv8, y: bv8): bv8 {
    x ^ y
  }

  function Fold(crc: bv32, data: seq<bv8>): bv32
    decreases |data|
  {
    if data == [] then crc else Fold(OctetStep(crc, data[0]), data[1..])
  }

  const SEED: bv32 := 0xFFFF_FFFF

  function Complement(crc: bv32): bv32 {
    !crc
  }

  function Crc32(data: seq<bv8>): bv32 {
    Complement(Fold(SEED, data))
  }

  // -------------------------------------------------------------------------
  // The loops.
  // -------------------------------------------------------------------------

  lemma {:induction false} FoldConcat(crc: bv32, a: seq<bv8>, b: seq<bv8>)
    ensures Fold(crc, a + b) == Fold(Fold(crc, a), b)
    decreases |a|
  {
    hide OctetStep;
    if a == [] {
      assert a + b == b;
    } else {
      assert (a + b)[1..] == a[1..] + b;
      FoldConcat(OctetStep(crc, a[0]), a[1..], b);
    }
  }

  lemma FoldOne(crc: bv32, data: seq<bv8>, i: nat)
    requires i < |data|
    ensures Fold(crc, data[..i + 1]) == OctetStep(Fold(crc, data[..i]), data[i])
  {
    hide OctetStep;
    FoldConcat(crc, data[..i], [data[i]]);
    assert data[..i + 1] == data[..i] + [data[i]];
    var c := Fold(crc, data[..i]);
    assert Fold(c, [data[i]]) == Fold(OctetStep(c, data[i]), [data[i]][1..]);
  }

  lemma {:induction false} BitStepsSnoc(crc: bv32, n: nat)
    ensures BitSteps(crc, n + 1) == BitStep(BitSteps(crc, n))
    decreases n
  {
    hide BitStep;
    if n > 0 {
      BitStepsSnoc(BitStep(crc), n - 1);
    }
  }

  method OctetLoop(start: bv32) returns (crc: bv32)
    ensures crc == BitSteps(start, 8)
  {
    crc := start;
    for bit := 0 to 8
      invariant crc == BitSteps(start, bit)
    {
      BitStepsSnoc(start, bit);
      crc := BitStep(crc);
    }
  }

  method ComputeCrc32(data: seq<bv8>) returns (result: bv32)
    ensures result == Crc32(data)
  {
    hide OctetStep;
    hide BitSteps;
    hide Xor;
    hide Wide;
    hide Complement;
    var crc := SEED;
    assert data[..0] == [];
    for i := 0 to |data|
      invariant crc == Fold(SEED, data[..i])
    {
      FoldOne(SEED, data, i);
      OctetStepIs(crc, data[i]);
      crc := OctetLoop(Xor(crc, Wide(data[i])));
    }
    TakeAll(data);
    result := Complement(crc);
  }

  lemma OctetStepIs(crc: bv32, octet: bv8)
    ensures OctetStep(crc, octet) == BitSteps(Xor(crc, Wide(octet)), 8)
  {
  }

  lemma TakeAll(data: seq<bv8>)
    ensures data[..|data|] == data
  {
  }

  // -------------------------------------------------------------------------
  // Linearity and injectivity, carried from the bit step through both loops.
  // -------------------------------------------------------------------------

  /** (a + b) + (c + d) is (a + c) + (b + d). */
  lemma XorSwap(a: bv32, b: bv32, c: bv32, d: bv32)
    ensures Xor(Xor(a, b), Xor(c, d)) == Xor(Xor(a, c), Xor(b, d))
  {
    hide Xor;
    XorAssociative(a, b, Xor(c, d));
    XorAssociative(b, c, d);
    XorCommutes(b, c);
    XorAssociative(c, b, d);
    XorAssociative(a, c, Xor(b, d));
  }

  lemma XorAssociative(a: bv32, b: bv32, c: bv32)
    ensures Xor(Xor(a, b), c) == Xor(a, Xor(b, c))
  {
  }

  lemma XorCommutes(a: bv32, b: bv32)
    ensures Xor(a, b) == Xor(b, a)
  {
  }

  lemma XorShift(a: bv32, b: bv32)
    ensures (a ^ b) >> 1 == (a >> 1) ^ (b >> 1)
  {
  }

  lemma XorMask(a: bv32, b: bv32)
    ensures POLY & Mask(a ^ b) == (POLY & Mask(a)) ^ (POLY & Mask(b))
  {
  }

  lemma BitStepLinear(a: bv32, b: bv32)
    ensures BitStep(Xor(a, b)) == Xor(BitStep(a), BitStep(b))
  {
    XorShift(a, b);
    XorMask(a, b);
    hide Mask;
    XorSwap(a >> 1, b >> 1, POLY & Mask(a), POLY & Mask(b));
  }

  /** The polynomial's top bit tells which way the step went. */
  lemma BitStepInjective(a: bv32, b: bv32)
    requires BitStep(a) == BitStep(b)
    ensures a == b
  {
  }

  lemma {:induction false} BitStepsLinear(a: bv32, b: bv32, n: nat)
    ensures BitSteps(Xor(a, b), n) == Xor(BitSteps(a, n), BitSteps(b, n))
    decreases n
  {
    hide BitStep;
    hide Xor;
    if n > 0 {
      BitStepLinear(a, b);
      BitStepsLinear(BitStep(a), BitStep(b), n - 1);
    }
  }

  lemma {:induction false} BitStepsInjective(a: bv32, b: bv32, n: nat)
    requires BitSteps(a, n) == BitSteps(b, n)
    ensures a == b
    decreases n
  {
    hide BitStep;
    if n > 0 {
      BitStepsInjective(BitStep(a), BitStep(b), n - 1);
      BitStepInjective(a, b);
    }
  }

  /** Below 2^(32-n), n steps take back a shift by n. */
  lemma {:induction false} StepsUndoShift(x: bv32, n: nat)
    requires n <= 8 && x & 0xFF00_0000 == 0
    ensures BitSteps(ShiftUp(x, n), n) == x
    decreases n
  {
    hide BitStep;
    if n > 0 {
      StepUndoesShift(x, n);
      StepsUndoShift(x, n - 1);
    }
  }

  /** x << n, one bit at a time. */
  function ShiftUp(x: bv32, n: nat): bv32
    decreases n
  {
    if n == 0 then x else ShiftUp(x, n - 1) << 1
  }

  lemma StepUndoesShift(x: bv32, n: nat)
    requires 0 < n <= 8 && x & 0xFF00_0000 == 0
    ensures BitStep(ShiftUp(x, n)) == ShiftUp(x, n - 1)
  {
    hide BitStep;
    ShiftFits(x, n - 1);
    StepOverZero(ShiftUp(x, n - 1));
  }

  lemma StepOverZero(y: bv32)
    requires y & 0x8000_0000 == 0
    ensures BitStep(y << 1) == y
  {
  }

  /** Room left above a shifted value. */
  function Room(n: nat): bv32
    requires n <= 7
  {
    if n == 0 then 0xFF00_0000 else if n == 1 then 0xFE00_0000 else if n == 2 then 0xFC00_0000
    else if n == 3 then 0xF800_0000 else if n == 4 then 0xF000_0000 else if n == 5 then 0xE000_0000
    else if n == 6 then 0xC000_0000 else 0x8000_0000
  }

  lemma {:induction false} ShiftFits(x: bv32, n: nat)
    requires n <= 7 && x & 0xFF00_0000 == 0
    ensures ShiftUp(x, n) & Room(n) == 0 && ShiftUp(x, n) & 0x8000_0000 == 0
    decreases n
  {
    if n == 0 {
      TopBit(x, 0);
    } else {
      ShiftFits(x, n - 1);
      RoomShrinks(ShiftUp(x, n - 1), n);
      TopBit(ShiftUp(x, n), n);
    }
  }

  lemma RoomShrinks(y: bv32, n: nat)
    requires 0 < n <= 7 && y & Room(n - 1) == 0
    ensures (y << 1) & Room(n) == 0
  {
  }

  lemma TopBit(y: bv32, n: nat)
    requires n <= 7 && y & Room(n) == 0
    ensures y & 0x8000_0000 == 0
  {
  }

  lemma ShiftUpUnfolds(x: bv32, n: nat)
    ensures ShiftUp(x, 0) == x && ShiftUp(x, n + 1) == ShiftUp(x, n) << 1
  {
  }

  lemma ShiftTwice(x: bv32)
    ensures ShiftUp(x, 2) == x << 2
  {
    ShiftUpUnfolds(x, 0);
    ShiftUpUnfolds(x, 1);
  }

  lemma {:induction false} ShiftUpSplits(x: bv32, m: nat, n: nat)
    ensures ShiftUp(x, m + n) == ShiftUp(ShiftUp(x, m), n)
    decreases n
  {
    if n > 0 {
      ShiftUpSplits(x, m, n - 1);
    }
  }

  lemma ShiftUpFour(x: bv32)
    ensures ShiftUp(x, 4) == x << 4
  {
    hide ShiftUp;
    ShiftTwice(x);
    ShiftTwice(x << 2);
    ShiftUpSplits(x, 2, 2);
  }

  lemma ShiftUpEight(x: bv32)
    ensures ShiftUp(x, 8) == x << 8
  {
    hide ShiftUp;
    ShiftUpFour(x);
    ShiftUpFour(x << 4);
    ShiftUpSplits(x, 4, 4);
  }

  // -------------------------------------------------------------------------
  // Detection.
  // -------------------------------------------------------------------------

  /**
   The difference of two checksums runs on its own: eight steps of the difference so
   far with the difference of the two octets folded in.
   */
  lemma DifferenceStep(a: bv32, b: bv32, x: bv8, y: bv8)
    ensures Xor(OctetStep(a, x), OctetStep(b, y)) == OctetStep(Xor(a, b), OctetDifference(x, y))
  {
    hide BitSteps;
    hide Xor;
    hide Wide;
    hide OctetDifference;
    BitStepsLinear(Xor(a, Wide(x)), Xor(b, Wide(y)), 8);
    XorSwap(a, Wide(x), b, Wide(y));
    WideXor(x, y);
  }

  lemma WideXor(x: bv8, y: bv8)
    ensures Xor(Wide(x), Wide(y)) == Wide(OctetDifference(x, y))
  {
  }

  /** If eight steps leave less than 24 bits, they started from that value shifted up. */
  lemma StepBack(d: bv32, e: bv8, after: bv32)
    requires OctetStep(d, e) == after && Below24(after)
    ensures Xor(d, Wide(e)) == Shl8(after)
  {
    hide BitSteps;
    hide ShiftUp;
    hide Xor;
    hide Wide;
    StepsUndoShift(after, 8);
    ShiftUpEight(after);
    BitStepsInjective(Xor(d, Wide(e)), Shl8(after), 8);
  }

  predicate Below8(x: bv32) { x & 0xFFFF_FF00 == 0 }
  predicate Below16(x: bv32) { x & 0xFFFF_0000 == 0 }
  predicate Below24(x: bv32) { x & 0xFF00_0000 == 0 }

  lemma Widths(x: bv32, e: bv8)
    ensures Below8(x) ==> Below16(x)
    ensures Below16(x) ==> Below24(x)
    ensures Below24(0)
    ensures Below8(Wide(e)) && (Wide(e) == 0 ==> e == 0)
  {
  }

  lemma XorUndo(d: bv32, x: bv32, y: bv32)
    requires Xor(d, x) == y
    ensures d == Xor(y, x)
  {
  }

  lemma XorKeepsBelow16(x: bv32, y: bv32)
    requires Below16(x) && Below16(y)
    ensures Below16(Xor(x, y))
  {
  }

  lemma XorKeepsBelow24(x: bv32, y: bv32)
    requires Below24(x) && Below24(y)
    ensures Below24(Xor(x, y))
  {
  }

  function Shl8(x: bv32): bv32 {
    x << 8
  }

  lemma ShiftWidens(x: bv32)
    ensures Below8(x) ==> Below16(Shl8(x))
    ensures Below16(x) ==> Below24(Shl8(x))
    ensures Shl8(0) == 0
  {
  }

  lemma XorZeroes(x: bv32)
    ensures Xor(0, x) == x
  {
  }

  /** Nothing before, less than 24 bits after: then there was nothing at all. */
  lemma NothingFromNothing(e: bv8, after: bv32)
    requires Wide(e) == Shl8(after) && Below24(after)
    ensures after == 0 && e == 0
  {
  }

  /** A difference that starts and ends at zero over four octets was zero in every one of them. */
  lemma WindowIsSeen(d1: bv32, d2: bv32, d3: bv32, e0: bv8, e1: bv8, e2: bv8, e3: bv8)
    requires d1 == OctetStep(0, e0)
    requires d2 == OctetStep(d1, e1)
    requires d3 == OctetStep(d2, e2)
    requires OctetStep(d3, e3) == 0
    ensures e0 == 0 && e1 == 0 && e2 == 0 && e3 == 0
  {
    hide *;
    Widths(d3, e3);
    Widths(d2, e2);
    Widths(d1, e1);
    Widths(0, e0);
    StepBack(d3, e3, 0);
    XorUndo(d3, Wide(e3), Shl8(0));
    ShiftWidens(0);
    XorZeroes(Wide(e3));
    StepBack(d2, e2, d3);
    XorUndo(d2, Wide(e2), Shl8(d3));
    ShiftWidens(d3);
    Widths(Wide(e2), e2);
    XorKeepsBelow16(Shl8(d3), Wide(e2));
    StepBack(d1, e1, d2);
    XorUndo(d1, Wide(e1), Shl8(d2));
    ShiftWidens(d2);
    Widths(Wide(e1), e1);
    XorKeepsBelow24(Shl8(d2), Wide(e1));
    StepBack(0, e0, d1);
    XorZeroes(Wide(e0));
    NothingFromNothing(e0, d1);
    XorZeroes(Wide(e1));
    NothingFromXor(d1, e1, d2);
    NothingFromXor(d2, e2, d3);
  }

  lemma NothingFromXor(d: bv32, e: bv8, after: bv32)
    requires d == 0 && Xor(d, Wide(e)) == Shl8(after) && Below24(after)
    ensures after == 0 && e == 0
  {
    XorZeroes(Wide(e));
    hide Xor;
    NothingFromNothing(e, after);
  }

  /** Two checksums that differ stay different over equal octets. */
  lemma {:induction false} EqualTailKeepsDifference(a: bv32, b: bv32, tail: seq<bv8>)
    requires Fold(a, tail) == Fold(b, tail)
    ensures a == b
    decreases |tail|
  {
    hide BitSteps;
    hide Wide;
    hide Xor;
    if tail != [] {
      EqualTailKeepsDifference(OctetStep(a, tail[0]), OctetStep(b, tail[0]), tail[1..]);
      BitStepsInjective(Xor(a, Wide(tail[0])), Xor(b, Wide(tail[0])), 8);
      XorCancels(a, b, Wide(tail[0]));
    }
  }

  lemma XorCancels(a: bv32, b: bv32, x: bv32)
    requires Xor(a, x) == Xor(b, x)
    ensures a == b
  {
  }

  /** The checksum after a window of four octets. */
  function Fold4(crc: bv32, w: seq<bv8>): bv32
    requires |w| == 4
  {
    OctetStep(OctetStep(OctetStep(OctetStep(crc, w[0]), w[1]), w[2]), w[3])
  }

  lemma FoldFour(crc: bv32, w: seq<bv8>)
    requires |w| == 4
    ensures Fold(crc, w) == Fold4(crc, w)
  {
    hide OctetStep;
    FoldOne(crc, w, 0);
    FoldOne(crc, w, 1);
    FoldOne(crc, w, 2);
    FoldOne(crc, w, 3);
    TakeAll(w);
    assert w[..0] == [];
  }

  lemma DifferentWindowsDiffer(crc: bv32, v: seq<bv8>, w: seq<bv8>)
    requires |v| == |w| == 4 && Fold4(crc, v) == Fold4(crc, w)
    ensures v == w
  {
    hide OctetStep;
    hide Xor;
    hide OctetDifference;
    var a1, b1 := OctetStep(crc, v[0]), OctetStep(crc, w[0]);
    var a2, b2 := OctetStep(a1, v[1]), OctetStep(b1, w[1]);
    var a3, b3 := OctetStep(a2, v[2]), OctetStep(b2, w[2]);
    DifferenceStep(crc, crc, v[0], w[0]);
    DifferenceStep(a1, b1, v[1], w[1]);
    DifferenceStep(a2, b2, v[2], w[2]);
    DifferenceStep(a3, b3, v[3], w[3]);
    SelfXor(crc);
    SelfXor(Fold4(crc, v));
    WindowIsSeen(Xor(a1, b1), Xor(a2, b2), Xor(a3, b3), 
                OctetDifference(v[0], w[0]), OctetDifference(v[1], w[1]),
                OctetDifference(v[2], w[2]), OctetDifference(v[3], w[3]));
    XorZero(v[0], w[0]);
    XorZero(v[1], w[1]);
    XorZero(v[2], w[2]);
    XorZero(v[3], w[3]);
  }

  lemma SelfXor(x: bv32)
    ensures Xor(x, x) == 0
  {
  }

  lemma XorZero(x: bv8, y: bv8)
    requires OctetDifference(x, y) == 0
    ensures x == y
  {
  }

  lemma ComplementInjective(a: bv32, b: bv32)
    requires Complement(a) == Complement(b)
    ensures a == b
  {
  }

  lemma FoldWindow(head: seq<bv8>, w: seq<bv8>, tail: seq<bv8>)
    ensures Fold(SEED, head + w + tail) == Fold(Fold(Fold(SEED, head), w), tail)
  {
    hide Fold;
    FoldConcat(SEED, head + w, tail);
    FoldConcat(SEED, head, w);
  }

  /** The same for any window of up to four octets: filling it up keeps checksums equal. */
  lemma ShortWindowsDiffer(crc: bv32, v: seq<bv8>, w: seq<bv8>)
    requires |v| == |w| <= 4 && Fold(crc, v) == Fold(crc, w)
    ensures v == w
  {
    hide *;
    var fill := seq(4 - |v|, i => 0 as bv8);
    FoldConcat(crc, v, fill);
    FoldConcat(crc, w, fill);
    FoldFour(crc, v + fill);
    FoldFour(crc, w + fill);
    DifferentWindowsDiffer(crc, v + fill, w + fill);
    assert v == (v + fill)[..|v|] && w == (w + fill)[..|w|];
  }

  /**
   CRC detection: payloads of equal length that differ, but only inside a window of four
   consecutive octets, never have the same checksum.
   */
  lemma BurstIsDetected(head: seq<bv8>, v: seq<bv8>, w: seq<bv8>, tail: seq<bv8>)
    requires |v| == |w| <= 4 && v != w
    ensures Crc32(head + v + tail) != Crc32(head + w + tail)
  {
    hide Fold;
    hide Complement;
    if Crc32(head + v + tail) == Crc32(head + w + tail) {
      ComplementInjective(Fold(SEED, head + v + tail), Fold(SEED, head + w + tail));
      FoldWindow(head, v, tail);
      FoldWindow(head, w, tail);
      var start := Fold(SEED, head);
      EqualTailKeepsDifference(Fold(start, v), Fold(start, w), tail);
      ShortWindowsDiffer(start, v, w);
    }
  }

  lemma EightSteps(crc: bv32)
    ensures BitSteps(crc, 8) == BitStep(BitStep(BitStep(BitStep(BitStep(BitStep(BitStep(BitStep(crc))))))))
  {
    hide BitStep;
    BitStepsSnoc(crc, 0);
    BitStepsSnoc(crc, 1);
    BitStepsSnoc(crc, 2);
    BitStepsSnoc(crc, 3);
    BitStepsSnoc(crc, 4);
    BitStepsSnoc(crc, 5);
    BitStepsSnoc(crc, 6);
    BitStepsSnoc(crc, 7);
  }

  lemma Digit1()
    ensures OctetStep(0xFFFF_FFFF, 0x31) == 0x7C23_1048
  {
    EightSteps(Xor(0xFFFF_FFFF, Wide(0x31)));
  }

  lemma Digit2()
    ensures OctetStep(0x7C23_1048, 0x32) == 0xB0AC_BB32
  {
    EightSteps(Xor(0x7C23_1048, Wide(0x32)));
  }

  lemma Digit3()
    ensures OctetStep(0xB0AC_BB32, 0x33) == 0x77B7_9C2D
  {
    EightSteps(Xor(0xB0AC_BB32, Wide(0x33)));
  }

  lemma Digit4()
    ensures OctetStep(0x77B7_9C2D, 0x34) == 0x641C_1F5C
  {
    EightSteps(Xor(0x77B7_9C2D, Wide(0x34)));
  }

  lemma Digit5()
    ensures OctetStep(0x641C_1F5C, 0x35) == 0x340A_C5E3
  {
    EightSteps(Xor(0x641C_1F5C, Wide(0x35)));
  }

  lemma Digit6()
    ensures OctetStep(0x340A_C5E3, 0x36) == 0xF68D_2C9E
  {
    EightSteps(Xor(0x340A_C5E3, Wide(0x36)));
  }

  lemma Digit7()
    ensures OctetStep(0xF68D_2C9E, 0x37) == 0xAFFC_9660
  {
    EightSteps(Xor(0xF68D_2C9E, Wide(0x37)));
  }

  lemma Digit8()
    ensures OctetStep(0xAFFC_9660, 0x38) == 0x651F_2550
  {
    EightSteps(Xor(0xAFFC_9660, Wide(0x38)));
  }

  lemma Digit9()
    ensures OctetStep(0x651F_2550, 0x39) == 0x340B_C6D9
  {
    EightSteps(Xor(0x651F_2550, Wide(0x39)));
  }

  lemma FoldCons(crc: bv32, octet: bv8, rest: seq<bv8>)
    ensures Fold(crc, [octet] + rest) == Fold(OctetStep(crc, octet), rest)
  {
    assert ([octet] + rest)[1..] == rest;
  }

  const FIVE: seq<bv8> := [0x31, 0x32, 0x33, 0x34, 0x35]
  const FOUR: seq<bv8> := [0x36, 0x37, 0x38, 0x39]

  lemma FirstFive()
    ensures Fold(SEED, FIVE) == 0x340A_C5E3
  {
    hide OctetStep;
    hide Fold;
    var t5: seq<bv8> := [];
    var t4 := [0x35] + t5;
    var t3 := [0x34] + t4;
    var t2 := [0x33] + t3;
    var t1 := [0x32] + t2;
    var t0 := [0x31] + t1;
    Digit1();
    FoldCons(0xFFFF_FFFF, 0x31, t1);
    Digit2();
    FoldCons(0x7C23_1048, 0x32, t2);
    Digit3();
    FoldCons(0xB0AC_BB32, 0x33, t3);
    Digit4();
    FoldCons(0x77B7_9C2D, 0x34, t4);
    Digit5();
    FoldCons(0x641C_1F5C, 0x35, t5);
    FoldNothing(0x340A_C5E3);
    assert t0 == FIVE;
  }

  lemma LastFour()
    ensures Fold(0x340A_C5E3, FOUR) == 0x340B_C6D9
  {
    hide OctetStep;
    hide Fold;
    var t9: seq<bv8> := [];
    var t8 := [0x39] + t9;
    var t7 := [0x38] + t8;
    var t6 := [0x37] + t7;
    var t5 := [0x36] + t6;
    Digit6();
    FoldCons(0x340A_C5E3, 0x36, t6);
    Digit7();
    FoldCons(0xF68D_2C9E, 0x37, t7);
    Digit8();
    FoldCons(0xAFFC_9660, 0x38, t8);
    Digit9();
    FoldCons(0x651F_2550, 0x39, t9);
    FoldNothing(0x340B_C6D9);
    assert t5 == FOUR;
  }

  lemma FoldNothing(crc: bv32)
    ensures Fold(crc, []) == crc
  {
  }

  /** The check value every CRC-32 of this kind has: the digits one to nine give CBF43926. */
  lemma CheckValue()
    ensures Crc32([0x31, 0x32, 0x33, 0x34, 0x35, 0x36, 0x37, 0x38, 0x39]) == 0xCBF4_3926
  {
    hide Fold;
    FirstFive();
    LastFour();
    FoldConcat(SEED, FIVE, FOUR);
    assert FIVE + FOUR == [0x31, 0x32, 0x33, 0x34, 0x35, 0x36, 0x37, 0x38, 0x39];
  }
}
