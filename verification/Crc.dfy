/** The frame check: the reflected CRC-32 of section 8 of RFC 1952, bit by bit
    as the firmware computes it, and the corruption it cannot miss. */
module Crc {
  import opened Words

  const POLYNOMIAL: bv32 := 0xEDB88320

  function Xor(a: bv32, b: bv32): bv32 {
    a ^ b
  }

  function Up8(w: bv32): bv32 {
    w << 8
  }

  /** One bit step: shift right and fold the polynomial in when a one falls
      out. */
  function Step(c: bv32): bv32 {
    var mask: bv32 := 0 - (c & 1);
    (c >> 1) ^ (POLYNOMIAL & mask)
  }

  function Step4(c: bv32): bv32 {
    Step(Step(Step(Step(c))))
  }

  function Step8(c: bv32): bv32 {
    Step4(Step4(c))
  }

  /** Eight bits, as a register value and as a number. */
  function Pack(p0: bool, p1: bool, p2: bool, p3: bool, p4: bool, p5: bool, p6: bool, p7: bool): bv32 {
    (if p0 then 1 else 0) | (if p1 then 2 else 0) | (if p2 then 4 else 0) | (if p3 then 8 else 0)
    | (if p4 then 16 else 0) | (if p5 then 32 else 0) | (if p6 then 64 else 0) | (if p7 then 128 else 0)
  }

  function Weigh(p0: bool, p1: bool, p2: bool, p3: bool, p4: bool, p5: bool, p6: bool, p7: bool): u8 {
    (if p0 then 1 else 0) + (if p1 then 2 else 0) + (if p2 then 4 else 0) + (if p3 then 8 else 0)
    + (if p4 then 16 else 0) + (if p5 then 32 else 0) + (if p6 then 64 else 0) + (if p7 then 128 else 0)
  }

  /** n shifted right, and one of its binary digits. */
  function Shifted(n: nat, k: nat): nat {
    if k == 0 then n else Shifted(n, k - 1) / 2
  }

  predicate Digit(n: nat, k: nat) {
    Shifted(n, k) % 2 == 1
  }

  function Bits(b: u8): bv32 {
    Pack(Digit(b, 0), Digit(b, 1), Digit(b, 2), Digit(b, 3), Digit(b, 4), Digit(b, 5), Digit(b, 6), Digit(b, 7))
  }

  predicate Set(c: bv32, bit: bv32) {
    c & bit != 0
  }

  function LowByte(c: bv32): u8 {
    Weigh(Set(c, 1), Set(c, 2), Set(c, 4), Set(c, 8), Set(c, 16), Set(c, 32), Set(c, 64), Set(c, 128))
  }

  function Join(b0: u8, b1: u8, b2: u8, b3: u8): u32 {
    b0 + 0x100 * b1 + 0x1_0000 * b2 + 0x100_0000 * b3
  }

  /** The number a register holds. */
  function Number(c: bv32): u32 {
    Join(LowByte(c), LowByte(c >> 8), LowByte(c >> 16), LowByte(c >> 24))
  }

  const ALL_ONES: bv32 := 0xFFFF_FFFF

  function Flip(c: bv32): bv32 {
    !c
  }

  function Feed(c: bv32, b: u8): bv32 {
    Step8(Xor(c, Bits(b)))
  }

  /** The register after a run of bytes. */
  function Register(c: bv32, data: seq<u8>): bv32
    decreases |data|
  {
    if data == [] then c else Register(Feed(c, data[0]), data[1..])
  }

  function Crc32(data: seq<u8>): u32 {
    Number(Flip(Register(ALL_ONES, data)))
  }

  // ---- Linearity and reversibility of the bit step ----

  lemma StepIsReversible(a: bv32, b: bv32)
    requires Step(a) == Step(b)
    ensures a == b
  {
  }

  lemma StepIsLinear(a: bv32, b: bv32)
    ensures Step(Xor(a, b)) == Xor(Step(a), Step(b))
  {
    if a & 1 == 0 {
      if b & 1 == 0 {} else {}
    } else {
      if b & 1 == 0 {} else {}
    }
  }

  lemma DigitSplits(n: nat, k: nat)
    ensures Shifted(n, k) == 2 * Shifted(n, k + 1) + Unit(Digit(n, k))
  {
  }

  lemma ShiftedByNone(n: nat)
    ensures Shifted(n, 0) == n
  {
  }

  function Unit(p: bool): nat {
    if p then 1 else 0
  }

  /** Four binary digits at a time. */
  lemma {:induction false} DigitsSplit(n: nat, k: nat)
    ensures Shifted(n, k) == 16 * Shifted(n, k + 4) + Unit(Digit(n, k)) + 2 * Unit(Digit(n, k + 1))
                             + 4 * Unit(Digit(n, k + 2)) + 8 * Unit(Digit(n, k + 3))
  {
    hide Shifted, Digit, Unit;
    DigitSplits(n, k);
    DigitSplits(n, k + 1);
    DigitSplits(n, k + 2);
    DigitSplits(n, k + 3);
  }

  lemma Halved(n: nat, k: nat, bound: nat)
    requires Shifted(n, k) < 2 * bound
    ensures Shifted(n, k + 1) < bound
  {
  }

  lemma {:induction false} TopIsZero(b: u8)
    ensures Shifted(b, 8) == 0
  {
    hide Shifted;
    ShiftedByNone(b);
    Halved(b, 0, 128);
    Halved(b, 1, 64);
    Halved(b, 2, 32);
    Halved(b, 3, 16);
    Halved(b, 4, 8);
    Halved(b, 5, 4);
    Halved(b, 6, 2);
    Halved(b, 7, 1);
  }

  lemma {:induction false} LowDigits(b: u8)
    ensures b == 16 * Shifted(b, 4) + Unit(Digit(b, 0)) + 2 * Unit(Digit(b, 1)) + 4 * Unit(Digit(b, 2))
            + 8 * Unit(Digit(b, 3))
  {
    hide Digit, Unit;
    DigitsSplit(b, 0);
  }

  lemma {:induction false} HighDigits(b: u8)
    ensures Shifted(b, 4) == Unit(Digit(b, 4)) + 2 * Unit(Digit(b, 5)) + 4 * Unit(Digit(b, 6)) + 8 * Unit(Digit(b, 7))
  {
    hide Shifted, Digit, Unit;
    TopIsZero(b);
    DigitsSplit(b, 4);
  }

  lemma NibblesJoin(b: int, s: int, p0: bool, p1: bool, p2: bool, p3: bool, p4: bool, p5: bool, p6: bool, p7: bool)
    requires b == 16 * s + Unit(p0) + 2 * Unit(p1) + 4 * Unit(p2) + 8 * Unit(p3)
    requires s == Unit(p4) + 2 * Unit(p5) + 4 * Unit(p6) + 8 * Unit(p7)
    ensures Weigh(p0, p1, p2, p3, p4, p5, p6, p7) == b
  {
  }

  lemma {:induction false} WeighBits(b: u8)
    ensures Weigh(Digit(b, 0), Digit(b, 1), Digit(b, 2), Digit(b, 3), Digit(b, 4), Digit(b, 5), Digit(b, 6),
                  Digit(b, 7)) == b
  {
    hide Shifted, Digit, Unit, Weigh;
    LowDigits(b);
    HighDigits(b);
    NibblesJoin(b, Shifted(b, 4), Digit(b, 0), Digit(b, 1), Digit(b, 2), Digit(b, 3), Digit(b, 4), Digit(b, 5),
                Digit(b, 6), Digit(b, 7));
  }

  lemma BitsDiffer(a: u8, b: u8)
    requires Bits(a) == Bits(b)
    ensures a == b
  {
    hide Digit, Pack, Weigh;
    WeighBits(a);
    WeighBits(b);
    PackDiffers(Digit(a, 0), Digit(a, 1), Digit(a, 2), Digit(a, 3), Digit(a, 4), Digit(a, 5), Digit(a, 6), Digit(a, 7),
                Digit(b, 0), Digit(b, 1), Digit(b, 2), Digit(b, 3), Digit(b, 4), Digit(b, 5), Digit(b, 6), Digit(b, 7));
  }

  lemma PackDiffers(p0: bool, p1: bool, p2: bool, p3: bool, p4: bool, p5: bool, p6: bool, p7: bool,
                    q0: bool, q1: bool, q2: bool, q3: bool, q4: bool, q5: bool, q6: bool, q7: bool)
    requires Pack(p0, p1, p2, p3, p4, p5, p6, p7) == Pack(q0, q1, q2, q3, q4, q5, q6, q7)
    ensures p0 == q0 && p1 == q1 && p2 == q2 && p3 == q3 && p4 == q4 && p5 == q5 && p6 == q6 && p7 == q7
  {
  }

  lemma WeighDiffers(p0: bool, p1: bool, p2: bool, p3: bool, p4: bool, p5: bool, p6: bool, p7: bool,
                     q0: bool, q1: bool, q2: bool, q3: bool, q4: bool, q5: bool, q6: bool, q7: bool)
    requires Weigh(p0, p1, p2, p3, p4, p5, p6, p7) == Weigh(q0, q1, q2, q3, q4, q5, q6, q7)
    ensures p0 == q0 && p1 == q1 && p2 == q2 && p3 == q3 && p4 == q4 && p5 == q5 && p6 == q6 && p7 == q7
  {
  }

  /** The low bits of two registers agree. */
  predicate SameByte(c: bv32, d: bv32) {
    c & 0xFF == d & 0xFF
  }

  lemma SetBitsAgree(c: bv32, d: bv32)
    requires Set(c, 1) == Set(d, 1) && Set(c, 2) == Set(d, 2) && Set(c, 4) == Set(d, 4) && Set(c, 8) == Set(d, 8)
    requires Set(c, 16) == Set(d, 16) && Set(c, 32) == Set(d, 32) && Set(c, 64) == Set(d, 64)
             && Set(c, 128) == Set(d, 128)
    ensures SameByte(c, d)
  {
  }

  lemma LowByteTellsBits(c: bv32, d: bv32)
    requires LowByte(c) == LowByte(d)
    ensures SameByte(c, d)
  {
    hide Set, Weigh, SameByte;
    WeighDiffers(Set(c, 1), Set(c, 2), Set(c, 4), Set(c, 8), Set(c, 16), Set(c, 32), Set(c, 64), Set(c, 128),
                 Set(d, 1), Set(d, 2), Set(d, 4), Set(d, 8), Set(d, 16), Set(d, 32), Set(d, 64), Set(d, 128));
    SetBitsAgree(c, d);
  }

  lemma JoinDiffers(a0: u8, a1: u8, a2: u8, a3: u8, b0: u8, b1: u8, b2: u8, b3: u8)
    requires Join(a0, a1, a2, a3) == Join(b0, b1, b2, b3)
    ensures a0 == b0 && a1 == b1 && a2 == b2 && a3 == b3
  {
    var a, b := a2 + 0x100 * a3, b2 + 0x100 * b3;
    JoinTwo(a0 + 0x100 * a1, a, b0 + 0x100 * b1, b);
    JoinOne(a0, a1, b0, b1);
    JoinOne(a2, a3, b2, b3);
  }

  lemma JoinTwo(a: u16, b: u16, c: u16, d: u16)
    requires a + 0x1_0000 * b == c + 0x1_0000 * d
    ensures a == c && b == d
  {
  }

  lemma JoinOne(a: u8, b: u8, c: u8, d: u8)
    requires a + 0x100 * b == c + 0x100 * d
    ensures a == c && b == d
  {
  }

  lemma BytesMakeWord(c: bv32, d: bv32)
    requires SameByte(c, d) && SameByte(c >> 8, d >> 8) && SameByte(c >> 16, d >> 16) && SameByte(c >> 24, d >> 24)
    ensures c == d
  {
  }

  /** Different registers are different numbers. */
  lemma NumberDiffers(c: bv32, d: bv32)
    requires Number(c) == Number(d)
    ensures c == d
  {
    hide LowByte, SameByte, Join;
    JoinDiffers(LowByte(c), LowByte(c >> 8), LowByte(c >> 16), LowByte(c >> 24),
                LowByte(d), LowByte(d >> 8), LowByte(d >> 16), LowByte(d >> 24));
    LowByteTellsBits(c, d);
    LowByteTellsBits(c >> 8, d >> 8);
    LowByteTellsBits(c >> 16, d >> 16);
    LowByteTellsBits(c >> 24, d >> 24);
    BytesMakeWord(c, d);
  }

  // ---- Eight steps at a time ----

  lemma Step4IsReversible(a: bv32, b: bv32)
    requires Step4(a) == Step4(b)
    ensures a == b
  {
    hide Step;
    StepIsReversible(Step(Step(Step(a))), Step(Step(Step(b))));
    StepIsReversible(Step(Step(a)), Step(Step(b)));
    StepIsReversible(Step(a), Step(b));
    StepIsReversible(a, b);
  }

  lemma Step8IsReversible(a: bv32, b: bv32)
    requires Step8(a) == Step8(b)
    ensures a == b
  {
    hide Step4;
    Step4IsReversible(Step4(a), Step4(b));
    Step4IsReversible(a, b);
  }

  lemma Step4IsLinear(a: bv32, b: bv32)
    ensures Step4(Xor(a, b)) == Xor(Step4(a), Step4(b))
  {
    hide Step, Xor;
    StepIsLinear(a, b);
    StepIsLinear(Step(a), Step(b));
    StepIsLinear(Step(Step(a)), Step(Step(b)));
    StepIsLinear(Step(Step(Step(a))), Step(Step(Step(b))));
  }

  lemma Step8IsLinear(a: bv32, b: bv32)
    ensures Step8(Xor(a, b)) == Xor(Step8(a), Step8(b))
  {
    hide Step4, Xor;
    Step4IsLinear(a, b);
    Step4IsLinear(Step4(a), Step4(b));
  }

  /** The word fits in one, two or three bytes. */
  predicate OneByte(w: bv32) {
    w & 0xFFFF_FF00 == 0
  }

  predicate TwoBytes(w: bv32) {
    w & 0xFFFF_0000 == 0
  }

  predicate ThreeBytes(w: bv32) {
    w & 0xFF00_0000 == 0
  }

  function Half(c: bv32): bv32 {
    c >> 1
  }

  predicate Even(c: bv32) {
    c & 1 == 0
  }

  lemma EvenHalves(c: bv32)
    requires Even(c)
    ensures Step(c) == Half(c)
  {
  }

  function Down4(c: bv32): bv32 {
    c >> 4
  }

  predicate LowNibbleClear(c: bv32) {
    c & 0xF == 0
  }

  lemma NibbleIsEven(c: bv32)
    requires LowNibbleClear(c)
    ensures Even(c) && Even(Half(c)) && Even(Half(Half(c))) && Even(Half(Half(Half(c))))
    ensures Half(Half(Half(Half(c)))) == Down4(c)
  {
  }

  lemma NibbleShifts(c: bv32)
    requires LowNibbleClear(c)
    ensures Step4(c) == Down4(c)
  {
    NibbleIsEven(c);
    hide Step, Half, Even, LowNibbleClear, Down4;
    EvenHalves(c);
    EvenHalves(Half(c));
    EvenHalves(Half(Half(c)));
    EvenHalves(Half(Half(Half(c))));
  }

  lemma UpIsClear(w: bv32)
    requires ThreeBytes(w)
    ensures LowNibbleClear(Up8(w)) && LowNibbleClear(Down4(Up8(w))) && Down4(Down4(Up8(w))) == w
  {
  }

  /** With a clear low byte, eight steps only shift. */
  lemma UpThenEightSteps(w: bv32)
    requires ThreeBytes(w)
    ensures Step8(Up8(w)) == w
  {
    hide Step4, Up8, LowNibbleClear, ThreeBytes, Down4;
    UpIsClear(w);
    NibbleShifts(Up8(w));
    NibbleShifts(Down4(Up8(w)));
  }

  lemma XorRegroups(a: bv32, b: bv32, c: bv32)
    ensures Xor(Xor(a, b), c) == Xor(a, Xor(b, c))
  {
  }

  lemma XorCancels(x: bv32, a: bv32, b: bv32)
    ensures Xor(x, a) == Xor(x, b) ==> a == b
    ensures Xor(a, x) == Xor(b, x) ==> a == b
  {
  }

  lemma XorNothing(a: bv32)
    ensures Xor(a, 0) == a
  {
  }

  /** Feeding the register a byte and then reading a word is the same as
      reading the word with the byte in front of it. */
  lemma ByteThenWord(c: bv32, b: u8, w: bv32)
    requires ThreeBytes(w)
    ensures Xor(Feed(c, b), w) == Step8(Xor(c, Xor(Bits(b), Up8(w))))
  {
    hide Step8, Bits, Xor, Up8, ThreeBytes;
    Step8IsLinear(Xor(c, Bits(b)), Up8(w));
    UpThenEightSteps(w);
    XorRegroups(c, Bits(b), Up8(w));
  }

  // ---- Detection ----

  /** The bytes of a window as one word, first byte lowest. */
  function Word(data: seq<u8>): bv32
    decreases |data|
  {
    if data == [] then 0 else Xor(Bits(data[0]), Up8(Word(data[1..])))
  }

  lemma BitsAreLow(b: u8)
    ensures OneByte(Bits(b))
  {
    hide Digit;
    PackIsLow(Digit(b, 0), Digit(b, 1), Digit(b, 2), Digit(b, 3), Digit(b, 4), Digit(b, 5), Digit(b, 6), Digit(b, 7));
  }

  lemma PackIsLow(p0: bool, p1: bool, p2: bool, p3: bool, p4: bool, p5: bool, p6: bool, p7: bool)
    ensures OneByte(Pack(p0, p1, p2, p3, p4, p5, p6, p7))
  {
  }

  lemma OneBelowTwo(low: bv32, rest: bv32)
    requires OneByte(low) && TwoBytes(rest)
    ensures ThreeBytes(Xor(low, Up8(rest)))
  {
  }

  lemma OneBelowOne(low: bv32, rest: bv32)
    requires OneByte(low) && OneByte(rest)
    ensures TwoBytes(Xor(low, Up8(rest)))
  {
  }

  lemma OneAlone(low: bv32)
    requires OneByte(low)
    ensures OneByte(Xor(low, Up8(0)))
  {
  }

  lemma SmallIsSmaller(rest: bv32)
    ensures OneByte(rest) ==> TwoBytes(rest)
    ensures TwoBytes(rest) ==> ThreeBytes(rest)
    ensures OneByte(0)
  {
  }

  /** How many bytes a word of bytes takes. */
  lemma SmallPieces(low: bv32, rest: bv32)
    requires OneByte(low)
    ensures TwoBytes(rest) ==> ThreeBytes(Xor(low, Up8(rest)))
    ensures OneByte(rest) ==> TwoBytes(Xor(low, Up8(rest)))
    ensures rest == 0 ==> OneByte(Xor(low, Up8(rest)))
    ensures OneByte(rest) ==> TwoBytes(rest)
    ensures TwoBytes(rest) ==> ThreeBytes(rest)
    ensures OneByte(0)
  {
    hide OneByte, TwoBytes, ThreeBytes, Xor, Up8;
    if TwoBytes(rest) { OneBelowTwo(low, rest); }
    if OneByte(rest) { OneBelowOne(low, rest); }
    OneAlone(low);
    SmallIsSmaller(rest);
  }

  /** A window of n bytes fits in n bytes. */
  lemma {:induction false} WordIsSmall(data: seq<u8>)
    ensures |data| == 0 ==> Word(data) == 0
    ensures |data| <= 1 ==> OneByte(Word(data))
    ensures |data| <= 2 ==> TwoBytes(Word(data))
    ensures |data| <= 3 ==> ThreeBytes(Word(data))
    decreases |data|
  {
    hide Bits, Xor, Up8, OneByte, TwoBytes, ThreeBytes;
    BitsAreLow(0);
    SmallPieces(Bits(0), 0);
    if data != [] {
      WordIsSmall(data[1..]);
      BitsAreLow(data[0]);
      SmallPieces(Bits(data[0]), Word(data[1..]));
      SmallPieces(Bits(data[0]), Word(data));
    }
  }

  lemma PiecesSplit(a: bv32, b: bv32, c: bv32, d: bv32)
    requires OneByte(a) && OneByte(c) && ThreeBytes(b) && ThreeBytes(d)
    requires Xor(a, Up8(b)) == Xor(c, Up8(d))
    ensures a == c && b == d
  {
  }

  lemma {:induction false} WordTellsBytes(x: seq<u8>, y: seq<u8>)
    requires |x| == |y| <= 4 && Word(x) == Word(y)
    ensures x == y
    decreases |x|
  {
    if x != [] {
      hide Bits, Xor, Up8, OneByte, TwoBytes, ThreeBytes;
      BitsAreLow(x[0]);
      BitsAreLow(y[0]);
      WordIsSmall(x[1..]);
      WordIsSmall(y[1..]);
      PiecesSplit(Bits(x[0]), Word(x[1..]), Bits(y[0]), Word(y[1..]));
      BitsDiffer(x[0], y[0]);
      WordTellsBytes(x[1..], y[1..]);
    }
  }

  function Steps(c: bv32, bytes: nat): bv32
    decreases bytes
  {
    if bytes == 0 then c else Steps(Step8(c), bytes - 1)
  }

  lemma {:induction false} StepsAreReversible(a: bv32, b: bv32, bytes: nat)
    requires Steps(a, bytes) == Steps(b, bytes)
    ensures a == b
    decreases bytes
  {
    if bytes > 0 {
      hide Step8;
      StepsAreReversible(Step8(a), Step8(b), bytes - 1);
      Step8IsReversible(a, b);
    }
  }

  /** A window of up to four bytes enters the register as one word. */
  lemma {:induction false} WindowIsWord(c: bv32, data: seq<u8>)
    requires |data| <= 4
    ensures Register(c, data) == Steps(Xor(c, Word(data)), |data|)
    decreases |data|
  {
    hide Bits, Step8, Feed, Xor, Up8, ThreeBytes;
    if data == [] {
      XorNothing(c);
    } else {
      WordIsSmall(data[1..]);
      WindowIsWord(Feed(c, data[0]), data[1..]);
      ByteThenWord(c, data[0], Word(data[1..]));
    }
  }

  lemma {:induction false} RegisterIsReversible(a: bv32, b: bv32, data: seq<u8>)
    requires Register(a, data) == Register(b, data)
    ensures a == b
    decreases |data|
  {
    hide Step8, Bits, Xor;
    if data != [] {
      RegisterIsReversible(Feed(a, data[0]), Feed(b, data[0]), data[1..]);
      Step8IsReversible(Xor(a, Bits(data[0])), Xor(b, Bits(data[0])));
      XorCancels(Bits(data[0]), a, b);
    }
  }

  lemma {:induction false} RegisterConcat(c: bv32, x: seq<u8>, y: seq<u8>)
    ensures Register(c, x + y) == Register(Register(c, x), y)
    decreases |x|
  {
    hide Feed;
    if x == [] {
      assert x + y == y;
    } else {
      RegisterConcat(Feed(c, x[0]), x[1..], y);
      assert (x + y)[1..] == x[1..] + y;
    }
  }

  lemma FlipCancels(a: bv32, b: bv32)
    requires Flip(a) == Flip(b)
    ensures a == b
  {
  }

  /** Two byte strings that differ, but only inside one window of four
      consecutive bytes, have different checks. */
  lemma WindowCorruptionIsDetected(x: seq<u8>, y: seq<u8>, at: nat, width: nat)
    requires |x| == |y| && x != y && at + width <= |x| && width <= 4
    requires x[..at] == y[..at] && x[at + width..] == y[at + width..]
    ensures Crc32(x) != Crc32(y)
  {
    hide Feed, Register, Number, Flip, Word, Steps, Xor;
    var u, v := x[at..at + width], y[at..at + width];
    var head, tail := x[..at], x[at + width..];
    assert x == head + (u + tail) && y == head + (v + tail);
    var c := Register(ALL_ONES, head);
    RegisterConcat(ALL_ONES, head, u + tail);
    RegisterConcat(ALL_ONES, head, v + tail);
    RegisterConcat(c, u, tail);
    RegisterConcat(c, v, tail);
    if Crc32(x) == Crc32(y) {
      NumberDiffers(Flip(Register(ALL_ONES, x)), Flip(Register(ALL_ONES, y)));
      FlipCancels(Register(ALL_ONES, x), Register(ALL_ONES, y));
      RegisterIsReversible(Register(c, u), Register(c, v), tail);
      WindowIsWord(c, u);
      WindowIsWord(c, v);
      StepsAreReversible(Xor(c, Word(u)), Xor(c, Word(v)), width);
      XorCancels(c, Word(u), Word(v));
      WordTellsBytes(u, v);
      assert false;
    }
  }

  // ---- Which CRC this is ----

  /** The four bytes of a register, lowest first. */
  function Bytes(c: bv32): (s: seq<u8>)
    ensures |s| == 4
  {
    [LowByte(c), LowByte(c >> 8), LowByte(c >> 16), LowByte(c >> 24)]
  }

  lemma NumberIsJoined(c: bv32)
    ensures var s := Bytes(c); Number(c) == Join(s[0], s[1], s[2], s[3])
  {
    hide LowByte, Join;
  }

  predicate LowBits(c: bv32, b: bv32) {
    b == c & 0xFF
  }

  lemma PackedSets(c: bv32)
    ensures LowBits(c, Pack(Set(c, 1), Set(c, 2), Set(c, 4), Set(c, 8), Set(c, 16), Set(c, 32), Set(c, 64),
                            Set(c, 128)))
  {
  }

  lemma LowByteBits(c: bv32)
    ensures LowBits(c, Bits(LowByte(c)))
  {
    hide Digit, Pack, Weigh, Set, LowBits;
    var b := LowByte(c);
    WeighBits(b);
    WeighDiffers(Digit(b, 0), Digit(b, 1), Digit(b, 2), Digit(b, 3), Digit(b, 4), Digit(b, 5), Digit(b, 6), Digit(b, 7),
                 Set(c, 1), Set(c, 2), Set(c, 4), Set(c, 8), Set(c, 16), Set(c, 32), Set(c, 64), Set(c, 128));
    PackedSets(c);
  }

  lemma QuartersJoin(c: bv32, b0: bv32, b1: bv32, b2: bv32, b3: bv32)
    requires LowBits(c, b0) && LowBits(c >> 8, b1) && LowBits(c >> 16, b2) && LowBits(c >> 24, b3)
    ensures Xor(b0, Up8(Xor(b1, Up8(Xor(b2, Up8(Xor(b3, Up8(0)))))))) == c
  {
  }

  lemma {:induction false} BytesAreTheWord(c: bv32)
    ensures Word(Bytes(c)) == c
  {
    hide Bits, LowByte, Xor, Up8, LowBits;
    LowByteBits(c);
    LowByteBits(c >> 8);
    LowByteBits(c >> 16);
    LowByteBits(c >> 24);
    QuartersJoin(c, Bits(LowByte(c)), Bits(LowByte(c >> 8)), Bits(LowByte(c >> 16)), Bits(LowByte(c >> 24)));
    var s := Bytes(c);
    assert s[1..][1..] == s[2..] && s[2..][1..] == s[3..] && s[3..][1..] == [];
    assert Word(s[3..]) == Xor(Bits(s[3]), Up8(Word([])));
    assert Word(s[2..]) == Xor(Bits(s[2]), Up8(Word(s[3..])));
    assert Word(s[1..]) == Xor(Bits(s[1]), Up8(Word(s[2..])));
  }

  lemma FlipFills(c: bv32)
    ensures Xor(c, Flip(c)) == ALL_ONES
  {
  }

  lemma OnesStepped()
    ensures Step8(ALL_ONES) == 0x2DFD_1072 && Step8(0x2DFD_1072) == 0xBE26_ED00
    ensures Step8(0xBE26_ED00) == 0x00BE_26ED && Step8(0x00BE_26ED) == 0xDEBB_20E3
  {
  }

  /** Following any data by its own check leaves this register. The value is
      peculiar to the polynomial 0xEDB88320. */
  lemma {:induction false} ResidueRegister(data: seq<u8>)
    ensures Register(ALL_ONES, data + Bytes(Flip(Register(ALL_ONES, data)))) == 0xDEBB_20E3
  {
    hide Step8, Flip, Xor, Word, Bytes;
    var c := Register(ALL_ONES, data);
    RegisterConcat(ALL_ONES, data, Bytes(Flip(c)));
    WindowIsWord(c, Bytes(Flip(c)));
    BytesAreTheWord(Flip(c));
    FlipFills(c);
    OnesStepped();
  }

  lemma ResidueNumber()
    ensures Number(Flip(0xDEBB_20E3)) == 0x2144_DF1C
  {
  }

  lemma BitsOfSmall(b: u8, c: bv32)
    requires LowByte(c) == b && c & 0xFF == c
    ensures Bits(b) == c
  {
    hide LowByte, Bits;
    LowByteBits(c);
  }

  lemma SmallRegisters()
    ensures LowByte(0x31) == 0x31 && LowByte(0x32) == 0x32 && LowByte(0x33) == 0x33 && LowByte(0x34) == 0x34
    ensures LowByte(0x35) == 0x35 && LowByte(0x36) == 0x36 && LowByte(0x37) == 0x37 && LowByte(0x38) == 0x38
    ensures LowByte(0x39) == 0x39
  {
  }

  lemma NineSteps()
    ensures Step8(Xor(ALL_ONES, 0x31)) == 0x7C23_1048 && Step8(Xor(0x7C23_1048, 0x32)) == 0xB0AC_BB32
    ensures Step8(Xor(0xB0AC_BB32, 0x33)) == 0x77B7_9C2D && Step8(Xor(0x77B7_9C2D, 0x34)) == 0x641C_1F5C
    ensures Step8(Xor(0x641C_1F5C, 0x35)) == 0x340A_C5E3 && Step8(Xor(0x340A_C5E3, 0x36)) == 0xF68D_2C9E
    ensures Step8(Xor(0xF68D_2C9E, 0x37)) == 0xAFFC_9660 && Step8(Xor(0xAFFC_9660, 0x38)) == 0x651F_2550
    ensures Step8(Xor(0x651F_2550, 0x39)) == 0x340B_C6D9
  {
  }

  lemma CheckNumber()
    ensures Number(Flip(0x340B_C6D9)) == 0xCBF4_3926
  {
  }

  lemma Fed(c: bv32, s: seq<u8>, k: nat, w: bv32, d: bv32)
    requires k < |s| && LowByte(w) == s[k] && w & 0xFF == w && Step8(Xor(c, w)) == d
    ensures Register(c, s[k..]) == Register(d, s[k + 1..])
  {
    hide Step8, Xor, Bits, LowByte;
    BitsOfSmall(s[k], w);
    assert s[k..][1..] == s[k + 1..];
  }

  /** The check of the nine digits "123456789", the usual test value. */
  lemma {:induction false} CheckOfNineDigits()
    ensures Crc32([0x31, 0x32, 0x33, 0x34, 0x35, 0x36, 0x37, 0x38, 0x39]) == 0xCBF4_3926
  {
    hide Step8, LowByte, Xor, Flip, Number, Register;
    SmallRegisters();
    NineSteps();
    CheckNumber();
    var s: seq<u8> := [0x31, 0x32, 0x33, 0x34, 0x35, 0x36, 0x37, 0x38, 0x39];
    Fed(ALL_ONES, s, 0, 0x31, 0x7C23_1048);
    Fed(0x7C23_1048, s, 1, 0x32, 0xB0AC_BB32);
    Fed(0xB0AC_BB32, s, 2, 0x33, 0x77B7_9C2D);
    Fed(0x77B7_9C2D, s, 3, 0x34, 0x641C_1F5C);
    Fed(0x641C_1F5C, s, 4, 0x35, 0x340A_C5E3);
    Fed(0x340A_C5E3, s, 5, 0x36, 0xF68D_2C9E);
    Fed(0xF68D_2C9E, s, 6, 0x37, 0xAFFC_9660);
    Fed(0xAFFC_9660, s, 7, 0x38, 0x651F_2550);
    Fed(0x651F_2550, s, 8, 0x39, 0x340B_C6D9);
    NothingFed(0x340B_C6D9);
    assert s[0..] == s && s[9..] == [];
  }

  lemma NothingFed(c: bv32)
    ensures Register(c, []) == c
  {
  }
}
