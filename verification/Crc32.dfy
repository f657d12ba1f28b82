/** The section CRC of the demux samples: a table-driven, most-significant-bit-first CRC-32.

    The reference is the shift register of Annex A of ISO/IEC 13818-1: 32 stages, preset to all
    ones, fed one message bit at a time.  The byte-wise table form is proved equal to it, and the
    error-detection results are stated at bit granularity. */
module Crc32 {
  import opened CrcTables

  /** The 32 stages, most significant first. */
  datatype Register = Register(word: bv32)

  const PRESET := Register(0xFFFF_FFFF)
  const ZERO := Register(0)

  /** The stages that the feedback line enters, as named by the generator polynomial
      x^32 + x^26 + x^23 + x^22 + x^16 + x^12 + x^11 + x^10 + x^8 + x^7 + x^5 + x^4 + x^2 + x + 1. */
  const GENERATOR := Register(0x04C1_1DB7)

  // ----- The reference: one clock of the shift register per message bit -----

  function Plus(x: Register, y: Register): Register {
    Register(x.word ^ y.word)
  }

  function Shift(r: Register): Register {
    Register(r.word << 1)
  }

  predicate TopBit(x: bv32) {
    x & 0x8000_0000 != 0
  }

  predicate Top(r: Register) {
    TopBit(r.word)
  }

  function Gate(feedback: bool): Register {
    if feedback then GENERATOR else ZERO
  }

  function Clock(r: Register, bit: bool): Register {
    Plus(Shift(r), Gate(Top(r) != bit))
  }

  function ShiftIn(r: Register, bits: seq<bool>): Register
    decreases |bits|
  {
    if bits == [] then r else ShiftIn(Clock(r, bits[0]), bits[1..])
  }

  /** The first `n` bits of a byte in transmission order, most significant first. */
  function LeadingBits(b: bv8, n: nat): (bits: seq<bool>)
    ensures |bits| == n
    decreases n
  {
    if n == 0 then [] else [b & 0x80 != 0] + LeadingBits(b << 1, n - 1)
  }

  function ByteBits(b: bv8): seq<bool> {
    LeadingBits(b, 8)
  }

  function Bits(message: seq<bv8>): (bits: seq<bool>)
    ensures |bits| == 8 * |message|
  {
    if message == [] then [] else ByteBits(message[0]) + Bits(message[1..])
  }

  /** The CRC of a message, by the bit-serial reference. */
  function Crc(message: seq<bv8>): bv32 {
    ShiftIn(PRESET, Bits(message)).word
  }

  // ----- The code: one table look-up per message byte -----

  /** One round of the C loop. Narrowing the index to `bv8` obliges the verifier to show that
      the 32-bit index expression never leaves the 256-entry table. */
  function TableStep(result: bv32, b: bv8): bv32 {
    (result << 8) ^ CrcTable(((result >> 24) ^ (b as bv32)) as bv8)
  }

  method ComputeCrc(buffer: seq<bv8>, size: nat) returns (result: bv32)
    requires size <= |buffer|
    ensures result == Crc(buffer[..size])
  {
    hide TableStep, Clock;
    result := PRESET.word;
    var i := 0;
    while i < size
      invariant i <= size
      invariant ShiftIn(Register(result), Bits(buffer[i..size])) == ShiftIn(PRESET, Bits(buffer[..size]))
    {
      assert buffer[i..size] == [buffer[i]] + buffer[i + 1..size];
      TableStepIsEightClocks(result, buffer[i]);
      ShiftInConcat(Register(result), ByteBits(buffer[i]), Bits(buffer[i + 1..size]));
      result := TableStep(result, buffer[i]);
      i := i + 1;
    }
    assert buffer[size..size] == [];
  }

  // ----- The register is linear and reversible -----

  lemma PlusInterchange(a: Register, b: Register, c: Register, d: Register)
    ensures Plus(Plus(a, b), Plus(c, d)) == Plus(Plus(a, c), Plus(b, d))
  {
  }

  lemma PlusSwap(a: Register, b: Register, c: Register)
    ensures Plus(Plus(a, b), c) == Plus(Plus(a, c), b)
  {
  }

  lemma PlusCommutes(x: Register, y: Register)
    ensures Plus(x, y) == Plus(y, x)
  {
  }

  lemma PlusZero(x: Register)
    ensures Plus(x, ZERO) == x
  {
  }

  lemma PlusSelf(x: Register)
    ensures Plus(x, x) == ZERO
  {
  }

  lemma PlusCancels(x: Register, y: Register)
    ensures Plus(Plus(x, y), y) == x
  {
  }

  lemma PlusVanishes(x: Register, y: Register)
    ensures Plus(x, y) == ZERO <==> x == y
  {
    hide Plus;
    PlusSelf(x);
    PlusCancels(x, y);
    PlusCommutes(ZERO, y);
    PlusZero(y);
  }

  lemma ShiftLinear(x: Register, y: Register)
    ensures Shift(Plus(x, y)) == Plus(Shift(x), Shift(y))
  {
  }

  lemma PlusOfWords(x: bv32, y: bv32)
    ensures Plus(Register(x), Register(y)) == Register(x ^ y)
  {
  }

  lemma TopOfWord(x: bv32)
    ensures Top(Register(x)) == TopBit(x)
  {
  }

  lemma TopBitLinear(x: bv32, y: bv32)
    ensures TopBit(x ^ y) == (TopBit(x) != TopBit(y))
  {
  }

  lemma TopLinear(x: Register, y: Register)
    ensures Top(Plus(x, y)) == (Top(x) != Top(y))
  {
    hide Top, Plus, TopBit;
    TopOfWord(x.word);
    TopOfWord(y.word);
    PlusOfWords(x.word, y.word);
    TopOfWord(x.word ^ y.word);
    TopBitLinear(x.word, y.word);
  }

  lemma GateLinear(f: bool, g: bool)
    ensures Gate(f != g) == Plus(Gate(f), Gate(g))
  {
  }

  lemma ClockLinear(x: Register, y: Register)
    ensures Clock(Plus(x, y), false) == Plus(Clock(x, false), Clock(y, false))
  {
    hide Plus, Shift, Top, Gate;
    ShiftLinear(x, y);
    TopLinear(x, y);
    GateLinear(Top(x), Top(y));
    PlusInterchange(Shift(x), Shift(y), Gate(Top(x)), Gate(Top(y)));
  }

  predicate Even(r: Register) {
    r.word & 1 == 0
  }

  /** A word moved down one place, with a new top bit. */
  function Push(bit: bool, w: Register): Register {
    if bit then Register(0x8000_0000 | (w.word >> 1)) else Register(w.word >> 1)
  }

  /** The register before a clock: the generator is odd, so the bit that fell off the top can be
      read back at the bottom. */
  function Unclock(r: Register, bit: bool): Register {
    var feedback := !Even(r);
    Push(feedback != bit, Plus(r, Gate(feedback)))
  }

  lemma FeedbackShows(r: Register, f: bool)
    ensures Even(Plus(Shift(r), Gate(f))) == !f
  {
  }

  lemma TopBitRestored(x: bv32)
    ensures x & 0x8000_0000 != 0 ==> 0x8000_0000 | ((x << 1) >> 1) == x
    ensures x & 0x8000_0000 == 0 ==> (x << 1) >> 1 == x
  {
  }

  lemma PushUndoesShift(r: Register)
    ensures Push(Top(r), Shift(r)) == r
  {
    TopBitRestored(r.word);
  }

  lemma UnclockClock(r: Register, bit: bool)
    ensures Unclock(Clock(r, bit), bit) == r
  {
    hide Plus, Shift, Top, Gate, Even, Push;
    var f := Top(r) != bit;
    FeedbackShows(r, f);
    PlusCancels(Shift(r), Gate(f));
    PushUndoesShift(r);
  }

  lemma {:induction false} ShiftInInjective(x: Register, y: Register, bits: seq<bool>)
    requires ShiftIn(x, bits) == ShiftIn(y, bits)
    ensures x == y
    decreases |bits|
  {
    hide Clock, Unclock;
    if bits != [] {
      ShiftInInjective(Clock(x, bits[0]), Clock(y, bits[0]), bits[1..]);
      UnclockClock(x, bits[0]);
      UnclockClock(y, bits[0]);
    }
  }

  /** `n` clocks with a zero at the input. */
  function Idle(r: Register, n: nat): Register
    decreases n
  {
    if n == 0 then r else Idle(Clock(r, false), n - 1)
  }

  lemma {:induction false} IdleLinear(x: Register, y: Register, n: nat)
    ensures Idle(Plus(x, y), n) == Plus(Idle(x, n), Idle(y, n))
    decreases n
  {
    hide Clock, Plus;
    if n > 0 {
      ClockLinear(x, y);
      IdleLinear(Clock(x, false), Clock(y, false), n - 1);
    }
  }

  lemma {:induction false} IdleInjective(x: Register, y: Register, n: nat)
    requires Idle(x, n) == Idle(y, n)
    ensures x == y
    decreases n
  {
    hide Clock, Unclock;
    if n > 0 {
      IdleInjective(Clock(x, false), Clock(y, false), n - 1);
      UnclockClock(x, false);
      UnclockClock(y, false);
    }
  }

  lemma {:induction false} IdleZero(n: nat)
    ensures Idle(ZERO, n) == ZERO
  {
    if n > 0 {
      IdleZero(n - 1);
    }
  }

  // ----- Up to 32 message bits can be added to the register in advance -----

  /** At most 32 bits, left-aligned in a word. */
  function Word(bits: seq<bool>): Register {
    if bits == [] then ZERO else Push(bits[0], Word(bits[1..]))
  }

  /** The positions of a word that `n` left-aligned bits do not reach: a run of low-order ones. */
  function Beyond(n: nat): (m: bv32)
    ensures m & (m + 1) == 0
  {
    if n == 0 then 0xFFFF_FFFF else Beyond(n - 1) >> 1
  }

  lemma BeyondFour(n: nat)
    ensures Beyond(n + 4) == Beyond(n) >> 4
  {
    assert Beyond(n + 1) == Beyond(n) >> 1;
    assert Beyond(n + 2) == Beyond(n + 1) >> 1;
    assert Beyond(n + 3) == Beyond(n + 2) >> 1;
  }

  lemma {:induction false} BeyondIsOdd(n: nat)
    requires n <= 31
    ensures Beyond(n) & 1 == 1
    decreases 31 - n
  {
    if n == 31 {
      BeyondFour(0); BeyondFour(4); BeyondFour(8); BeyondFour(12);
      BeyondFour(16); BeyondFour(20); BeyondFour(24);
      assert Beyond(29) == Beyond(28) >> 1;
      assert Beyond(30) == Beyond(29) >> 1;
      assert Beyond(31) == Beyond(30) >> 1;
    } else {
      BeyondIsOdd(n + 1);
    }
  }

  lemma PushedMask(x: bv32, m: bv32)
    requires x & m == 0
    ensures (0x8000_0000 | (x >> 1)) & (m >> 1) == 0 && (x >> 1) & (m >> 1) == 0
  {
  }

  lemma PushStaysInReach(bit: bool, w: Register, m: bv32)
    requires w.word & m == 0
    ensures Push(bit, w).word & (m >> 1) == 0
  {
    PushedMask(w.word, m);
  }

  lemma {:induction false} WordStaysInReach(bits: seq<bool>)
    ensures Word(bits).word & Beyond(|bits|) == 0
  {
    hide Push;
    if bits != [] {
      WordStaysInReach(bits[1..]);
      PushStaysInReach(bits[0], Word(bits[1..]), Beyond(|bits| - 1));
    }
  }

  lemma EvenByMask(w: Register, m: bv32)
    requires w.word & m == 0 && m & 1 == 1
    ensures Even(w)
  {
  }

  lemma WordIsEven(bits: seq<bool>)
    requires |bits| <= 31
    ensures Even(Word(bits))
  {
    hide Even;
    WordStaysInReach(bits);
    BeyondIsOdd(|bits|);
    EvenByMask(Word(bits), Beyond(|bits|));
  }

  lemma LowBitRestored(x: bv32)
    requires x & 1 == 0
    ensures (0x8000_0000 | (x >> 1)) << 1 == x && (0x8000_0000 | (x >> 1)) & 0x8000_0000 != 0
    ensures (x >> 1) << 1 == x && (x >> 1) & 0x8000_0000 == 0
  {
  }

  lemma ShiftUndoesPushOne(w: Register)
    requires Even(w)
    ensures Top(Push(true, w)) && Shift(Push(true, w)) == w
  {
    LowBitRestored(w.word);
  }

  lemma ShiftUndoesPushZero(w: Register)
    requires Even(w)
    ensures !Top(Push(false, w)) && Shift(Push(false, w)) == w
  {
    LowBitRestored(w.word);
  }

  lemma ShiftUndoesPush(bit: bool, w: Register)
    requires Even(w)
    ensures Top(Push(bit, w)) == bit
    ensures Shift(Push(bit, w)) == w
  {
    hide Top, Push, Shift, Even;
    if bit {
      ShiftUndoesPushOne(w);
    } else {
      ShiftUndoesPushZero(w);
    }
  }

  lemma ClockAbsorbs(r: Register, bit: bool, w: Register)
    requires Even(w)
    ensures Plus(Clock(r, bit), w) == Clock(Plus(r, Push(bit, w)), false)
  {
    hide Plus, Shift, Top, Gate, Even, Push;
    ShiftUndoesPush(bit, w);
    ShiftLinear(r, Push(bit, w));
    TopLinear(r, Push(bit, w));
    PlusSwap(Shift(r), Gate(Top(r) != bit), w);
  }

  /** Feeding up to 32 bits is adding them to the register first and idling afterwards. */
  lemma {:induction false} ShiftInIsAddThenIdle(r: Register, bits: seq<bool>)
    requires |bits| <= 32
    ensures ShiftIn(r, bits) == Idle(Plus(r, Word(bits)), |bits|)
    decreases |bits|
  {
    hide Clock, Plus, Push, Even;
    if bits == [] {
      PlusZero(r);
    } else {
      WordIsEven(bits[1..]);
      ClockAbsorbs(r, bits[0], Word(bits[1..]));
      ShiftInIsAddThenIdle(Clock(r, bits[0]), bits[1..]);
    }
  }

  lemma {:induction false} WordInjective(a: seq<bool>, b: seq<bool>)
    requires |a| == |b| <= 32
    requires Word(a) == Word(b)
    ensures a == b
    decreases |a|
  {
    hide Push, Even, Top, Shift;
    if a != [] {
      WordIsEven(a[1..]);
      WordIsEven(b[1..]);
      ShiftUndoesPush(a[0], Word(a[1..]));
      ShiftUndoesPush(b[0], Word(b[1..]));
      WordInjective(a[1..], b[1..]);
      assert a == [a[0]] + a[1..] && b == [b[0]] + b[1..];
    }
  }

  // ----- The table form equals the reference -----

  /** A byte, left-aligned. */
  function Left(b: bv8): Register {
    Register((b as bv32) << 24)
  }

  function Low(x: bv32): Register {
    Register(x & 0x00FF_FFFF)
  }

  function Index(x: bv32, b: bv8): bv8 {
    ((x >> 24) ^ (b as bv32)) as bv8
  }

  function High(x: bv32): Register {
    Register(x & 0xFF00_0000)
  }

  lemma LowPlusHigh(x: bv32)
    ensures Plus(Low(x), High(x)) == Register(x)
  {
  }

  lemma HighPlusLeft(x: bv32, b: bv8)
    ensures Plus(High(x), Left(b)) == Left(Index(x, b))
  {
  }

  lemma PlusAssociates(a: Register, b: Register, c: Register)
    ensures Plus(Plus(a, b), c) == Plus(a, Plus(b, c))
  {
  }

  lemma SumSplits(x: bv32, b: bv8)
    ensures Plus(Register(x), Left(b)) == Plus(Low(x), Left(Index(x, b)))
  {
    hide Index, Plus, Low, High, Left;
    LowPlusHigh(x);
    HighPlusLeft(x, b);
    PlusAssociates(Low(x), High(x), Left(b));
  }

  lemma StepSplits(x: bv32, b: bv8)
    ensures Register(TableStep(x, b)) == Plus(Register(x << 8), Register(CrcTable(Index(x, b))))
  {
    hide CrcTable;
  }

  lemma IdleEight(r: Register, r4: Register)
    requires r4 == Clock(Clock(Clock(Clock(r, false), false), false), false)
    ensures Idle(r, 8) == Clock(Clock(Clock(Clock(r4, false), false), false), false)
  {
    hide Clock;
    assert Idle(r, 8) == Idle(Clock(r, false), 7);
    assert Idle(Clock(Clock(r, false), false), 6) == Idle(Clock(Clock(Clock(r, false), false), false), 5);
    assert Idle(r4, 4) == Idle(Clock(r4, false), 3);
    assert Idle(Clock(Clock(r4, false), false), 2) == Idle(Clock(Clock(Clock(r4, false), false), false), 1);
  }

  /** An idle clock on the bare word. */
  function ClockWord(x: bv32): bv32 {
    if x & 0x8000_0000 != 0 then (x << 1) ^ 0x04C1_1DB7 else x << 1
  }

  lemma ClockIsClockWord(x: bv32)
    ensures Clock(Register(x), false) == Register(ClockWord(x))
  {
    hide ClockWord, Clock;
    if x & 0x8000_0000 != 0 {
      ClockWithFeedback(x);
    } else {
      ClockWithoutFeedback(x);
    }
  }

  lemma ClockWithFeedback(x: bv32)
    requires x & 0x8000_0000 != 0
    ensures Clock(Register(x), false) == Register(ClockWord(x))
  {
  }

  lemma ClockWithoutFeedback(x: bv32)
    requires x & 0x8000_0000 == 0
    ensures Clock(Register(x), false) == Register(ClockWord(x))
  {
  }

  lemma IdleEightWord(x: bv32)
    ensures Idle(Register(x), 8) == Register(ClockWordEight(x))
  {
    hide Clock, ClockWord;
    var x2 := ClockWord(ClockWord(x));
    var x4 := ClockWord(ClockWord(x2));
    var x6 := ClockWord(ClockWord(x4));
    ClockIsClockWord(x); ClockIsClockWord(ClockWord(x));
    ClockIsClockWord(x2); ClockIsClockWord(ClockWord(x2));
    ClockIsClockWord(x4); ClockIsClockWord(ClockWord(x4));
    ClockIsClockWord(x6); ClockIsClockWord(ClockWord(x6));
    IdleEight(Register(x), Register(x4));
  }

  function ClockWordEight(x: bv32): bv32 {
    ClockWord(ClockWord(ClockWord(ClockWord(ClockWord(ClockWord(ClockWord(ClockWord(x))))))))
  }

  lemma TableFirstQuarter(i: bv8)
    requires i < 0x40
    ensures CrcTable(i) == ClockWordEight((i as bv32) << 24)
  {
  }

  lemma TableSecondQuarter(i: bv8)
    requires 0x40 <= i < 0x80
    ensures CrcTable(i) == ClockWordEight((i as bv32) << 24)
  {
  }

  lemma TableHighHalf(i: bv8)
    requires i >= 0x80
    ensures CrcTable(i) == ClockWordEight((i as bv32) << 24)
  {
  }

  /** Each table entry is eight clocks of its index, left-aligned. */
  lemma TableEntryIsEightClocks(i: bv8)
    ensures Register(CrcTable(i)) == Idle(Left(i), 8)
  {
    hide ClockWordEight, CrcTable;
    IdleEightWord((i as bv32) << 24);
    if i < 0x40 {
      TableFirstQuarter(i);
    } else if i < 0x80 {
      TableSecondQuarter(i);
    } else {
      TableHighHalf(i);
    }
  }

  lemma LowShiftsOut(x: bv32)
    ensures ClockWordEight(x & 0x00FF_FFFF) == x << 8
  {
  }

  lemma LowIsEightShifts(x: bv32)
    ensures Idle(Low(x), 8) == Register(x << 8)
  {
    hide ClockWordEight;
    LowShiftsOut(x);
    IdleEightWord(x & 0x00FF_FFFF);
  }

  lemma LeftShifts(b: bv8)
    ensures Top(Left(b)) == (b & 0x80 != 0)
    ensures Shift(Left(b)) == Left(b << 1)
  {
  }

  /** All set bits of `b` are among the first `n`. */
  predicate Drained(b: bv8, n: nat)
    decreases n
  {
    if n == 0 then b == 0 else Drained(b << 1, n - 1)
  }

  lemma {:induction false} LeadingBitsWord(b: bv8, n: nat)
    requires Drained(b, n)
    ensures Word(LeadingBits(b, n)) == Left(b)
    decreases n
  {
    if n > 0 {
      LeadingBitsWord(b << 1, n - 1);
      LeftShifts(b);
      hide Push, Shift, Top, Left;
      assert LeadingBits(b, n)[1..] == LeadingBits(b << 1, n - 1);
      PushUndoesShift(Left(b));
    }
  }

  lemma ByteDrains(b: bv8)
    ensures Drained(b, 8)
  {
    var b2 := (b << 1) << 1;
    var b4 := (b2 << 1) << 1;
    var b6 := (b4 << 1) << 1;
    assert (b6 << 1) << 1 == 0;
    assert Drained(b6, 2);
    assert Drained(b4, 4);
    assert Drained(b2, 6);
  }

  lemma ByteWord(b: bv8)
    ensures Word(ByteBits(b)) == Left(b)
  {
    hide Left;
    ByteDrains(b);
    LeadingBitsWord(b, 8);
  }

  lemma TableStepIsEightClocks(result: bv32, b: bv8)
    ensures Register(TableStep(result, b)) == ShiftIn(Register(result), ByteBits(b))
  {
    hide Clock, CrcTable, Index, Left, Low, Plus, TableStep;
    var i := Index(result, b);
    SumSplits(result, b);
    StepSplits(result, b);
    TableEntryIsEightClocks(i);
    IdleLinear(Low(result), Left(i), 8);
    LowIsEightShifts(result);
    ByteWord(b);
    ShiftInIsAddThenIdle(Register(result), ByteBits(b));
  }

  lemma {:induction false} ShiftInConcat(r: Register, a: seq<bool>, b: seq<bool>)
    ensures ShiftIn(r, a + b) == ShiftIn(ShiftIn(r, a), b)
    decreases |a|
  {
    hide Clock;
    if a == [] {
      assert a + b == b;
    } else {
      assert (a + b)[1..] == a[1..] + b;
      ShiftInConcat(Clock(r, a[0]), a[1..], b);
    }
  }

  // ----- Error detection -----

  lemma PlusInjective(r: Register, x: Register, y: Register)
    requires Plus(r, x) == Plus(r, y)
    ensures x == y
  {
    hide Plus;
    PlusCommutes(r, x);
    PlusCommutes(r, y);
    PlusCancels(x, r);
    PlusCancels(y, r);
  }

  predicate AgreeOutside<T(==)>(a: seq<T>, b: seq<T>, start: nat, length: nat) {
    |a| == |b| && forall i :: 0 <= i < |a| && !(start <= i < start + length) ==> a[i] == b[i]
  }

  lemma WindowChangesRegister(r: Register, a: seq<bool>, b: seq<bool>)
    requires |a| == |b| <= 32
    requires ShiftIn(r, a) == ShiftIn(r, b)
    ensures a == b
  {
    hide Clock, Plus;
    ShiftInIsAddThenIdle(r, a);
    ShiftInIsAddThenIdle(r, b);
    IdleInjective(Plus(r, Word(a)), Plus(r, Word(b)), |a|);
    PlusInjective(r, Word(a), Word(b));
    WordInjective(a, b);
  }

  lemma ThreeParts(r: Register, a: seq<bool>, start: nat, end: nat)
    requires start <= end <= |a|
    ensures ShiftIn(r, a) == ShiftIn(ShiftIn(ShiftIn(r, a[..start]), a[start..end]), a[end..])
  {
    hide ShiftIn;
    assert a == a[..end] + a[end..] && a[..end] == a[..start] + a[start..end];
    ShiftInConcat(r, a[..end], a[end..]);
    ShiftInConcat(r, a[..start], a[start..end]);
  }

  lemma SameRegisterSameBits(r: Register, a: seq<bool>, b: seq<bool>, start: nat)
    requires AgreeOutside(a, b, start, 32) && ShiftIn(r, a) == ShiftIn(r, b)
    ensures a == b
  {
    hide ShiftIn;
    if start < |a| {
      var end := if start + 32 < |a| then start + 32 else |a|;
      var middle := ShiftIn(r, a[..start]);
      assert a[..start] == b[..start] && a[end..] == b[end..];
      ThreeParts(r, a, start, end);
      ThreeParts(r, b, start, end);
      ShiftInInjective(ShiftIn(middle, a[start..end]), ShiftIn(middle, b[start..end]), a[end..]);
      WindowChangesRegister(middle, a[start..end], b[start..end]);
      CutInThree(a, start, end);
      CutInThree(b, start, end);
    }
  }

  lemma CutInThree(a: seq<bool>, start: nat, end: nat)
    requires start <= end <= |a|
    ensures a == a[..start] + a[start..end] + a[end..]
  {
  }

  /** Two different bit streams that agree outside some 32 consecutive positions leave the
      register, whatever it held before, in different states. */
  lemma BurstChangesRegister(r: Register, a: seq<bool>, b: seq<bool>, start: nat)
    requires a != b && AgreeOutside(a, b, start, 32)
    ensures ShiftIn(r, a) != ShiftIn(r, b)
  {
    if ShiftIn(r, a) == ShiftIn(r, b) {
      SameRegisterSameBits(r, a, b, start);
    }
  }

  lemma LeftInjective(b: bv8, c: bv8)
    requires Left(b) == Left(c)
    ensures b == c
  {
  }

  lemma {:induction false} BitsInjective(m: seq<bv8>, n: seq<bv8>)
    requires |m| == |n| && Bits(m) == Bits(n)
    ensures m == n
  {
    hide Left, LeadingBits;
    if m != [] {
      assert Bits(m)[..8] == ByteBits(m[0]) && Bits(n)[..8] == ByteBits(n[0]);
      assert Bits(m)[8..] == Bits(m[1..]) && Bits(n)[8..] == Bits(n[1..]);
      ByteWord(m[0]);
      ByteWord(n[0]);
      LeftInjective(m[0], n[0]);
      BitsInjective(m[1..], n[1..]);
      assert m == [m[0]] + m[1..] && n == [n[0]] + n[1..];
    }
  }

  /** The CRC tells apart any two messages of equal length whose differences all lie within some
      32 consecutive bits, wherever in the messages those bits are. */
  lemma BurstDetected(m: seq<bv8>, n: seq<bv8>, start: nat)
    requires m != n && |m| == |n| && AgreeOutside(Bits(m), Bits(n), start, 32)
    ensures Crc(m) != Crc(n)
  {
    hide Clock, LeadingBits;
    if Bits(m) == Bits(n) {
      BitsInjective(m, n);
    }
    BurstChangesRegister(PRESET, Bits(m), Bits(n), start);
  }

  lemma {:induction false} BitsConcat(m: seq<bv8>, n: seq<bv8>)
    ensures Bits(m + n) == Bits(m) + Bits(n)
  {
    hide LeadingBits;
    if m == [] {
      assert m + n == n;
    } else {
      assert (m + n)[1..] == m[1..] + n;
      BitsConcat(m[1..], n);
    }
  }

  lemma {:induction false} BitsAgreeOutside(m: seq<bv8>, n: seq<bv8>, start: nat, length: nat)
    requires AgreeOutside(m, n, start, length)
    ensures AgreeOutside(Bits(m), Bits(n), 8 * start, 8 * length)
  {
    hide LeadingBits;
    var first := if start < |m| then start else |m|;
    var last := if start + length < |m| then start + length else |m|;
    assert m == m[..first] + m[first..last] + m[last..] && n == m[..first] + n[first..last] + m[last..];
    BitsConcat(m[..first] + m[first..last], m[last..]);
    BitsConcat(m[..first], m[first..last]);
    BitsConcat(m[..first] + n[first..last], m[last..]);
    BitsConcat(m[..first], n[first..last]);
  }

  /** The byte-aligned case: differences confined to four consecutive bytes. */
  lemma FourByteWindowDetected(m: seq<bv8>, n: seq<bv8>, start: nat)
    requires m != n && AgreeOutside(m, n, start, 4)
    ensures Crc(m) != Crc(n)
  {
    BitsAgreeOutside(m, n, start, 4);
    BurstDetected(m, n, 8 * start);
  }

  // ----- The trailer and the residue -----

  /** `n` zeros pushed on top. */
  function Down(w: Register, n: nat): Register
    decreases n
  {
    if n == 0 then w else Push(false, Down(w, n - 1))
  }

  lemma PushOfPlusOne(x: Register, y: Register)
    ensures Push(true, Plus(x, y)) == Plus(Push(true, x), Push(false, y))
  {
  }

  lemma PushOfPlusZero(x: Register, y: Register)
    ensures Push(false, Plus(x, y)) == Plus(Push(false, x), Push(false, y))
  {
  }

  lemma {:induction false} WordConcat(a: seq<bool>, b: seq<bool>)
    ensures Word(a + b) == Plus(Word(a), Down(Word(b), |a|))
  {
    hide Plus, Push;
    if a == [] {
      assert a + b == b;
      PlusCommutes(ZERO, Word(b));
      PlusZero(Word(b));
    } else {
      assert (a + b)[1..] == a[1..] + b;
      WordConcat(a[1..], b);
      var x, y := Word(a[1..]), Down(Word(b), |a| - 1);
      if a[0] {
        PushOfPlusOne(x, y);
      } else {
        PushOfPlusZero(x, y);
      }
    }
  }

  function Half(x: bv32): bv32 {
    x >> 1
  }

  lemma DownStep(w: Register, n: nat, x: bv32)
    requires Down(w, n) == Register(x)
    ensures Down(w, n + 1) == Register(Half(x))
  {
  }

  lemma EightHalvings(x: bv32)
    ensures Half(Half(Half(Half(Half(Half(Half(Half(x)))))))) == x >> 8
  {
  }

  function DownByte(w: Register): Register {
    Register(w.word >> 8)
  }

  lemma DownNone(w: Register)
    ensures Down(w, 0) == Register(w.word)
  {
  }

  lemma HalvingsAreDownByte(w: Register)
    ensures Register(Half(Half(Half(Half(Half(Half(Half(Half(w.word))))))))) == DownByte(w)
  {
    EightHalvings(w.word);
  }

  lemma DownEight(w: Register)
    ensures Down(w, 8) == DownByte(w)
  {
    hide Push, Half, Down, DownByte;
    DownNone(w);
    HalvingsAreDownByte(w);
    var x := w.word;
    var x2 := Half(Half(x));
    var x4 := Half(Half(x2));
    var x6 := Half(Half(x4));
    DownStep(w, 0, x); DownStep(w, 1, Half(x));
    DownStep(w, 2, x2); DownStep(w, 3, Half(x2));
    DownStep(w, 4, x4); DownStep(w, 5, Half(x4));
    DownStep(w, 6, x6); DownStep(w, 7, Half(x6));
  }

  /** A byte on top of a word. */
  function Stack(b: bv8, w: Register): Register {
    Plus(Left(b), DownByte(w))
  }

  lemma WordByteThen(b: bv8, rest: seq<bool>)
    ensures Word(ByteBits(b) + rest) == Stack(b, Word(rest))
  {
    hide Plus, Push, LeadingBits, Left, DownByte;
    WordConcat(ByteBits(b), rest);
    ByteWord(b);
    DownEight(Word(rest));
  }

  function StackWord(b: bv8, x: bv32): bv32 {
    ((b as bv32) << 24) ^ (x >> 8)
  }

  lemma StackOfWord(b: bv8, x: bv32)
    ensures Stack(b, Register(x)) == Register(StackWord(b, x))
  {
  }

  function BigEndian(a: bv8, b: bv8, c: bv8, d: bv8): bv32 {
    (((((((a as bv32) << 8) | (b as bv32))) << 8) | (c as bv32)) << 8) | (d as bv32)
  }

  lemma BigEndianStacks(a: bv8, b: bv8, c: bv8, d: bv8)
    ensures StackWord(a, StackWord(b, StackWord(c, (d as bv32) << 24))) == BigEndian(a, b, c, d)
  {
  }

  lemma StackedBytes(a: bv8, b: bv8, c: bv8, d: bv8)
    ensures Stack(a, Stack(b, Stack(c, Left(d)))) == Register(BigEndian(a, b, c, d))
  {
    hide Stack, StackWord, BigEndian;
    var x := (d as bv32) << 24;
    StackOfWord(c, x);
    StackOfWord(b, StackWord(c, x));
    StackOfWord(a, StackWord(b, StackWord(c, x)));
    BigEndianStacks(a, b, c, d);
  }

  lemma FourByteWord(a: bv8, b: bv8, c: bv8, d: bv8)
    ensures Word(Bits([a, b, c, d])) == Register(BigEndian(a, b, c, d))
  {
    hide Stack, Push, LeadingBits, Left, BigEndian;
    assert [a, b, c, d][1..] == [b, c, d] && [b, c, d][1..] == [c, d] && [c, d][1..] == [d] && [d][1..] == [];
    assert Bits([d]) == ByteBits(d);
    ByteWord(d);
    WordByteThen(c, Bits([d]));
    WordByteThen(b, Bits([c, d]));
    WordByteThen(a, Bits([b, c, d]));
    StackedBytes(a, b, c, d);
  }

  /** The big-endian word in the last four bytes. */
  function Trailer(section: seq<bv8>): bv32
    requires |section| >= 4
  {
    var k := |section|;
    BigEndian(section[k - 4], section[k - 3], section[k - 2], section[k - 1])
  }

  /** Comparing the CRC of everything but the last four bytes with those bytes, as the collectors
      do, is asking whether the CRC of the whole section is zero. */
  lemma Residue(section: seq<bv8>)
    requires |section| >= 4
    ensures Crc(section[..|section| - 4]) == Trailer(section) <==> Crc(section) == 0
  {
    hide Plus, Push, LeadingBits, Left, Clock, BigEndian;
    var k := |section|;
    var body, tail := section[..k - 4], section[k - 4..];
    var r, w := ShiftIn(PRESET, Bits(body)), Word(Bits(tail));
    assert section == body + tail;
    BitsConcat(body, tail);
    ShiftInConcat(PRESET, Bits(body), Bits(tail));
    ShiftInIsAddThenIdle(r, Bits(tail));
    assert tail == [section[k - 4], section[k - 3], section[k - 2], section[k - 1]];
    FourByteWord(section[k - 4], section[k - 3], section[k - 2], section[k - 1]);
    IdleZero(32);
    PlusVanishes(r, w);
    if Crc(section) == 0 {
      IdleInjective(Plus(r, w), ZERO, 32);
    }
  }

  method CrcMatches(data: seq<bv8>) returns (matches: bool)
    requires |data| >= 4
    ensures matches <==> Crc(data) == 0
  {
    hide Crc;
    var k := |data|;
    var crcSoftware := ComputeCrc(data, k - 4);
    var crcStream := data[k - 4] as bv32;
    crcStream := (crcStream << 8) | (data[k - 3] as bv32);
    crcStream := (crcStream << 8) | (data[k - 2] as bv32);
    crcStream := (crcStream << 8) | (data[k - 1] as bv32);
    matches := crcSoftware == crcStream;
    Residue(data);
  }

  // ----- The preset -----

  function Zeros(n: nat): seq<bv8> {
    if n == 0 then [] else [0] + Zeros(n - 1)
  }

  lemma ZeroByteBits()
    ensures ByteBits(0) == [false, false, false, false, false, false, false, false]
  {
    var z: bv8 := 0;
    assert z & 0x80 == 0 && z << 1 == z;
    assert LeadingBits(z, 1) == [false] + LeadingBits(z, 0) == [false];
    assert LeadingBits(z, 2) == [false, false];
    assert LeadingBits(z, 3) == [false, false, false];
    assert LeadingBits(z, 4) == [false, false, false, false];
    assert LeadingBits(z, 5) == [false, false, false, false, false];
    assert LeadingBits(z, 6) == [false, false, false, false, false, false];
    assert LeadingBits(z, 7) == [false, false, false, false, false, false, false];
  }

  lemma {:induction false} IdleIsZeroBits(r: Register, bits: seq<bool>)
    requires forall i :: 0 <= i < |bits| ==> !bits[i]
    ensures ShiftIn(r, bits) == Idle(r, |bits|)
    decreases |bits|
  {
    hide Clock;
    if bits != [] {
      IdleIsZeroBits(Clock(r, false), bits[1..]);
    }
  }

  lemma {:induction false} ZeroBits(n: nat)
    ensures |Zeros(n)| == n && forall i :: 0 <= i < 8 * n ==> !Bits(Zeros(n))[i]
  {
    hide LeadingBits, ByteBits;
    if n > 0 {
      ZeroByteBits();
      ZeroBits(n - 1);
      assert Zeros(n)[1..] == Zeros(n - 1);
      assert Bits(Zeros(n)) == ByteBits(0) + Bits(Zeros(n - 1));
    }
  }

  /** Zeros are not invisible: no number of them, not even none, has CRC zero. */
  lemma ZerosShow(n: nat)
    ensures Crc(Zeros(n)) != 0
  {
    hide Clock, Bits, Zeros;
    ZeroBits(n);
    IdleIsZeroBits(PRESET, Bits(Zeros(n)));
    IdleZero(8 * n);
    if Crc(Zeros(n)) == 0 {
      IdleInjective(PRESET, ZERO, 8 * n);
    }
  }

  lemma NoMessage()
    ensures Crc([]) == 0xFFFF_FFFF
  {
  }

  /** The first four bytes complemented. */
  function Complemented(m: seq<bv8>): seq<bv8>
    requires |m| >= 4
  {
    [!m[0], !m[1], !m[2], !m[3]] + m[4..]
  }

  lemma ComplementWord(a: bv8, b: bv8, c: bv8, d: bv8)
    ensures BigEndian(!a, !b, !c, !d) == 0xFFFF_FFFF ^ BigEndian(a, b, c, d)
  {
  }

  lemma PresetIsComplement(a: bv8, b: bv8, c: bv8, d: bv8)
    ensures Plus(PRESET, Register(BigEndian(a, b, c, d))) == Plus(ZERO, Register(BigEndian(!a, !b, !c, !d)))
  {
    hide BigEndian, Plus;
    var x, y := BigEndian(a, b, c, d), BigEndian(!a, !b, !c, !d);
    ComplementWord(a, b, c, d);
    PlusOfWords(0xFFFF_FFFF, x);
    PlusCommutes(ZERO, Register(y));
    PlusZero(Register(y));
  }

  /** Presetting the register to ones is complementing the first 32 bits of the message and starting from zero. */
  lemma PresetComplementsHead(m: seq<bv8>)
    requires |m| >= 4
    ensures Crc(m) == ShiftIn(ZERO, Bits(Complemented(m))).word
  {
    hide Clock, Plus, Push, LeadingBits, BigEndian;
    var head, flipped := [m[0], m[1], m[2], m[3]], [!m[0], !m[1], !m[2], !m[3]];
    assert m == head + m[4..];
    BitsConcat(head, m[4..]);
    BitsConcat(flipped, m[4..]);
    ShiftInConcat(PRESET, Bits(head), Bits(m[4..]));
    ShiftInConcat(ZERO, Bits(flipped), Bits(m[4..]));
    ShiftInIsAddThenIdle(PRESET, Bits(head));
    ShiftInIsAddThenIdle(ZERO, Bits(flipped));
    FourByteWord(m[0], m[1], m[2], m[3]);
    FourByteWord(!m[0], !m[1], !m[2], !m[3]);
    PresetIsComplement(m[0], m[1], m[2], m[3]);
  }

  /** One more byte at the end of a message. */
  lemma CrcAppend(m: seq<bv8>, longer: seq<bv8>, b: bv8, before: bv32, after: bv32)
    requires Crc(m) == before && longer == m + [b] && TableStep(before, b) == after
    ensures Crc(longer) == after
  {
    hide Clock, LeadingBits, TableStep;
    BitsConcat(m, [b]);
    assert [b][1..] == [] && Bits([b]) == ByteBits(b);
    ShiftInConcat(PRESET, Bits(m), ByteBits(b));
    TableStepIsEightClocks(before, b);
  }

  lemma CheckStep1()
    ensures TableStep(0xFFFF_FFFF, 0x31) == 0x9EFB_CF93
  {
  }

  lemma CheckStep2()
    ensures TableStep(0x9EFB_CF93, 0x32) == 0x3FEC_5E6A
  {
  }

  lemma CheckStep3()
    ensures TableStep(0x3FEC_5E6A, 0x33) == 0xD952_F164
  {
  }

  lemma CheckStep4()
    ensures TableStep(0xD952_F164, 0x34) == 0xA695_C4AA
  {
  }

  lemma CheckStep5()
    ensures TableStep(0xA695_C4AA, 0x35) == 0xBD9A_B747
  {
  }

  lemma CheckStep6()
    ensures TableStep(0xBD9A_B747, 0x36) == 0xD8F0_6C8F
  {
  }

  lemma CheckStep7()
    ensures TableStep(0xD8F0_6C8F, 0x37) == 0x0D8A_14C4
  {
  }

  lemma CheckStep8()
    ensures TableStep(0x0D8A_14C4, 0x38) == 0x49E3_C2FB
  {
  }

  lemma CheckStep9()
    ensures TableStep(0x49E3_C2FB, 0x39) == 0x0376_E6E7
  {
  }

  /** The check value of this CRC: that of the digits one to nine. */
  lemma CheckValue()
    ensures Crc([0x31, 0x32, 0x33, 0x34, 0x35, 0x36, 0x37, 0x38, 0x39]) == 0x0376_E6E7
  {
    hide Crc, TableStep;
    var m0: seq<bv8> := [];
    NoMessage();
    CheckStep1();
    var m1 := [0x31];
    CrcAppend(m0, m1, 0x31, 0xFFFF_FFFF, 0x9EFB_CF93);
    CheckStep2();
    var m2 := [0x31, 0x32];
    CrcAppend(m1, m2, 0x32, 0x9EFB_CF93, 0x3FEC_5E6A);
    CheckStep3();
    var m3 := [0x31, 0x32, 0x33];
    CrcAppend(m2, m3, 0x33, 0x3FEC_5E6A, 0xD952_F164);
    CheckStep4();
    var m4 := [0x31, 0x32, 0x33, 0x34];
    CrcAppend(m3, m4, 0x34, 0xD952_F164, 0xA695_C4AA);
    CheckStep5();
    var m5 := [0x31, 0x32, 0x33, 0x34, 0x35];
    CrcAppend(m4, m5, 0x35, 0xA695_C4AA, 0xBD9A_B747);
    CheckStep6();
    var m6 := [0x31, 0x32, 0x33, 0x34, 0x35, 0x36];
    CrcAppend(m5, m6, 0x36, 0xBD9A_B747, 0xD8F0_6C8F);
    CheckStep7();
    var m7 := [0x31, 0x32, 0x33, 0x34, 0x35, 0x36, 0x37];
    CrcAppend(m6, m7, 0x37, 0xD8F0_6C8F, 0x0D8A_14C4);
    CheckStep8();
    var m8 := [0x31, 0x32, 0x33, 0x34, 0x35, 0x36, 0x37, 0x38];
    CrcAppend(m7, m8, 0x38, 0x0D8A_14C4, 0x49E3_C2FB);
    CheckStep9();
    var m9 := [0x31, 0x32, 0x33, 0x34, 0x35, 0x36, 0x37, 0x38, 0x39];
    CrcAppend(m8, m9, 0x39, 0x49E3_C2FB, 0x0376_E6E7);
  }

  function BytesOf(c: bv32): seq<bv8> {
    [(c >> 24) as bv8, ((c >> 16) & 0xFF) as bv8, ((c >> 8) & 0xFF) as bv8, (c & 0xFF) as bv8]
  }

  lemma BytesRejoin(c: bv32)
    ensures Trailer(BytesOf(c)) == c
  {
  }

  /** A payload followed by its CRC, most significant byte first. */
  function Seal(payload: seq<bv8>): seq<bv8> {
    payload + BytesOf(Crc(payload))
  }

  lemma SealedIsClean(payload: seq<bv8>)
    ensures |Seal(payload)| == |payload| + 4 && Crc(Seal(payload)) == 0
  {
    hide Crc, BigEndian;
    var sealed := Seal(payload);
    BytesRejoin(Crc(payload));
    assert Trailer(sealed) == Trailer(BytesOf(Crc(payload)));
    assert sealed[..|payload|] == payload;
    Residue(sealed);
  }

  /** A sealed section passes the check, and no change confined to 32 consecutive bits, in the
      payload, the CRC field or across both, goes unnoticed. */
  lemma SealedSections(payload: seq<bv8>, received: seq<bv8>, start: nat)
    requires |received| == |Seal(payload)| && AgreeOutside(Bits(Seal(payload)), Bits(received), start, 32)
    ensures Crc(received) == 0 <==> received == Seal(payload)
  {
    hide Crc, Seal, Bits;
    SealedIsClean(payload);
    if received != Seal(payload) {
      BurstDetected(Seal(payload), received, start);
    }
  }
}
