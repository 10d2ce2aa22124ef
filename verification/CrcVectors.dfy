/** The check value of the checksum and the bytes of an acknowledgement, on machine words. */
module CrcVectors {
  import opened Words
  import opened Bits
  import opened Modular
  import opened MachineWords
  import opened Crc
  import Herald

  // ----- one shift of the register

  function ShiftWord(r: bv32): bv32 {
    if r & 0x8000 == 0x8000 then ((r << 1) & 0xFFFF) ^ 0x1021 else (r << 1) & 0xFFFF
  }

  predicate Short(r: bv32) {
    r & 0xFFFF_0000 == 0
  }

  lemma {:induction false} LowOfZero(k: nat)
    ensures Low(0, k) == 0
    decreases k
  {
    if k > 0 {
      assert (0 as bv32) >> 1 == 0;
      LowOfZero(k - 1);
    }
  }

  lemma ShortUpper(r: bv32)
    requires Short(r)
    ensures r >> 16 == 0
  {
  }

  lemma ShortInt(r: bv32)
    requires Short(r)
    ensures Int(r) as nat == Low(r, 16) < TWO16
  {
    hide Low, Shifted;
    LowSplit(r, 16, 16);
    Shifted16(r);
    ShortUpper(r);
    LowOfZero(16);
    Distances();
  }

  predicate TopSet(r: bv32) {
    r & 0x8000 == 0x8000
  }

  function Doubled(r: bv32): bv32 {
    (r << 1) & 0xFFFF
  }

  lemma Mask15()
    ensures Masks(0x7FFF, 15)
  {
    MaskSmall();
    hide Masks;
    MaskMore(0x7F, 3);
    MaskMore(0x7FF, 7);
    MaskMore(0x7FFF, 11);
  }

  lemma Agree15(r: bv32)
    ensures (Half(Doubled(r)) ^ r) & 0x7FFF == 0
  {
  }

  lemma EvenDoubled(r: bv32)
    ensures Digit(Doubled(r)) == 0
  {
    assert ((r << 1) & 0xFFFF) & 1 == 0;
  }

  lemma DoubledLow(r: bv32)
    ensures Low(Doubled(r), 16) == 2 * Low(r, 15)
  {
    EvenDoubled(r);
    LowForm(Doubled(r), 16);
    Mask15();
    Agree15(r);
    hide Low, Doubled, Half, Masks, Digit;
    LowAgrees(Half(Doubled(r)), r, 0x7FFF, 15);
  }

  lemma Shifted15(r: bv32)
    ensures Low(Shifted(r, 15), 1) == if TopSet(r) then 1 else 0
  {
    hide Shifted;
    ShiftedAdd(r, 8, 7);
    Shifted8(r);
    Shifted7(r >> 8);
    TopAt15(r);
    LowStep(Shifted(r, 15), 0);
    LowStep(Half(Shifted(r, 15)), 0);
  }

  lemma TopAt15(r: bv32)
    ensures B0((r >> 8) >> 7) <==> TopSet(r)
  {
  }

  lemma TopLow(r: bv32)
    ensures Low(r, 16) == Low(r, 15) + if TopSet(r) then 0x8000 else 0
  {
    hide Low, Shifted, TopSet;
    LowSplit(r, 15, 1);
    Shifted15(r);
    Pow2Of16();
  }

  lemma DoubleWrap(low: nat, top: bool, x: nat)
    requires low < 0x8000 && x == low + if top then 0x8000 else 0
    ensures (x * 2) % TWO16 == 2 * low && (x >= 0x8000 <==> top)
  {
  }

  lemma DoubledInt(r: bv32)
    requires Short(r)
    ensures Short(Doubled(r)) && (Int(r) as int * 2) % TWO16 == Int(Doubled(r)) as int
    ensures Int(r) as int < TWO16 && (Int(r) >= 0x8000 <==> TopSet(r))
  {
    ShortDoubled(r);
    hide Int, Low, Doubled, TopSet, Short;
    ShortInt(r);
    ShortInt(Doubled(r));
    DoubledLow(r);
    TopLow(r);
    Pow2Of16();
    DoubleWrap(Low(r, 15), TopSet(r), Int(r));
  }

  lemma ShortDoubled(r: bv32)
    ensures Short(Doubled(r)) && Short(Doubled(r) ^ 0x1021)
  {
  }

  lemma PolyWord()
    ensures Int(0x1021) == POLY
  {
    hide Int;
    IntValue(0x1021);
  }

  lemma ShiftMeaning(r: bv32)
    requires Short(r)
    ensures Short(ShiftWord(r)) && Int(r) as int < TWO16 && Int(ShiftWord(r)) as int < TWO16
    ensures Shift(Int(r)) == Int(ShiftWord(r))
  {
    ShiftWordForm(r);
    hide Int, Low, Doubled, TopSet, Short, ShiftWord, Xor;
    ShortDoubled(r);
    DoubledInt(r);
    PolyWord();
    XorInts(Doubled(r), 0x1021);
    ShortInt(ShiftWord(r));
  }

  lemma XorInts(a: bv32, b: bv32)
    ensures Xor(Int(a), Int(b)) == Int(a ^ b)
  {
    XorWord(a, b);
    hide Xor, Int;
  }

  lemma ShiftWordForm(r: bv32)
    ensures ShiftWord(r) == if TopSet(r) then Doubled(r) ^ 0x1021 else Doubled(r)
  {
  }

  // ----- a byte

  function EightShifts(r: bv32): bv32 {
    ShiftWord(ShiftWord(ShiftWord(ShiftWord(ShiftWord(ShiftWord(ShiftWord(ShiftWord(r))))))))
  }

  lemma ShiftsUp(n: nat, r: u16)
    ensures Shifts(n + 1, r) == Shifts(n, Shift(r)) && Shifts(0, r) == r
  {
    hide Shift;
  }

  lemma EightMeaning(r: bv32)
    requires Short(r)
    ensures Short(EightShifts(r)) && Int(r) as int < TWO16 && Int(EightShifts(r)) as int < TWO16
    ensures Shifts(8, Int(r)) == Int(EightShifts(r))
  {
    hide Int, Short, ShiftWord, Shift, Shifts;
    var a := ShiftWord(r);
    var b := ShiftWord(a);
    var c := ShiftWord(b);
    var d := ShiftWord(c);
    var e := ShiftWord(d);
    var f := ShiftWord(e);
    var g := ShiftWord(f);
    ShiftMeaning(r);
    ShiftMeaning(a);
    ShiftMeaning(b);
    ShiftMeaning(c);
    ShiftMeaning(d);
    ShiftMeaning(e);
    ShiftMeaning(f);
    ShiftMeaning(g);
    ShiftsUp(7, Int(r));
    ShiftsUp(6, Int(a));
    ShiftsUp(5, Int(b));
    ShiftsUp(4, Int(c));
    ShiftsUp(3, Int(d));
    ShiftsUp(2, Int(e));
    ShiftsUp(1, Int(f));
    ShiftsUp(0, Int(g));
    ShiftsUp(0, Int(ShiftWord(g)));
  }

  /** One byte of the loop, on words. */
  lemma ByteMeaning(r: bv32, b: u8, w: bv32, next: bv32)
    requires Short(r) && Short(w) && Int(w) as int == b as int * 0x100 && next == EightShifts(r ^ w)
    ensures Short(next) && Int(r) as int < TWO16 && Int(next) as int < TWO16
    ensures FeedByte(Int(r), b) == Int(next)
  {
    ShortXor(r, w);
    hide Int, Short, EightShifts, Xor, Shifts;
    ShortInt(r);
    XorInts(r, w);
    EightMeaning(r ^ w);
  }

  lemma ShortXor(r: bv32, w: bv32)
    requires Short(r) && Short(w)
    ensures Short(r ^ w)
  {
  }

  // ----- the check value

  /** "123456789". */
  const DIGITS: bytes := [0x31, 0x32, 0x33, 0x34, 0x35, 0x36, 0x37, 0x38, 0x39]

  lemma Digit1()
    ensures Int(0xFFFF) as int < TWO16 && Int(0xC782) as int < TWO16
    ensures FeedByte(Int(0xFFFF), 0x31) == Int(0xC782)
  {
    IntValue(0x3100);
    hide Int;
    ByteMeaning(0xFFFF, 0x31, 0x3100, 0xC782);
  }

  lemma Digit2()
    ensures Int(0xC782) as int < TWO16 && Int(0x3DBA) as int < TWO16
    ensures FeedByte(Int(0xC782), 0x32) == Int(0x3DBA)
  {
    IntValue(0x3200);
    hide Int;
    ByteMeaning(0xC782, 0x32, 0x3200, 0x3DBA);
  }

  lemma Digit3()
    ensures Int(0x3DBA) as int < TWO16 && Int(0x5BCE) as int < TWO16
    ensures FeedByte(Int(0x3DBA), 0x33) == Int(0x5BCE)
  {
    IntValue(0x3300);
    hide Int;
    ByteMeaning(0x3DBA, 0x33, 0x3300, 0x5BCE);
  }

  lemma Digit4()
    ensures Int(0x5BCE) as int < TWO16 && Int(0x5349) as int < TWO16
    ensures FeedByte(Int(0x5BCE), 0x34) == Int(0x5349)
  {
    IntValue(0x3400);
    hide Int;
    ByteMeaning(0x5BCE, 0x34, 0x3400, 0x5349);
  }

  lemma Digit5()
    ensures Int(0x5349) as int < TWO16 && Int(0x4560) as int < TWO16
    ensures FeedByte(Int(0x5349), 0x35) == Int(0x4560)
  {
    IntValue(0x3500);
    hide Int;
    ByteMeaning(0x5349, 0x35, 0x3500, 0x4560);
  }

  lemma Digit6()
    ensures Int(0x4560) as int < TWO16 && Int(0x2EF4) as int < TWO16
    ensures FeedByte(Int(0x4560), 0x36) == Int(0x2EF4)
  {
    IntValue(0x3600);
    hide Int;
    ByteMeaning(0x4560, 0x36, 0x3600, 0x2EF4);
  }

  lemma Digit7()
    ensures Int(0x2EF4) as int < TWO16 && Int(0x7718) as int < TWO16
    ensures FeedByte(Int(0x2EF4), 0x37) == Int(0x7718)
  {
    IntValue(0x3700);
    hide Int;
    ByteMeaning(0x2EF4, 0x37, 0x3700, 0x7718);
  }

  lemma Digit8()
    ensures Int(0x7718) as int < TWO16 && Int(0xA12B) as int < TWO16
    ensures FeedByte(Int(0x7718), 0x38) == Int(0xA12B)
  {
    IntValue(0x3800);
    hide Int;
    ByteMeaning(0x7718, 0x38, 0x3800, 0xA12B);
  }

  lemma Digit9()
    ensures Int(0xA12B) as int < TWO16 && Int(0x29B1) as int < TWO16
    ensures FeedByte(Int(0xA12B), 0x39) == Int(0x29B1)
  {
    IntValue(0x3900);
    hide Int;
    ByteMeaning(0xA12B, 0x39, 0x3900, 0x29B1);
  }

  lemma FeedFirst(r: u16, m: bytes)
    requires m != []
    ensures FeedBytes(r, m) == FeedBytes(FeedByte(r, m[0]), m[1..])
  {
  }

  lemma StartAndEnd()
    ensures Int(0xFFFF) == 0xFFFF && Int(0x29B1) == 0x29B1
  {
    hide Int;
    IntValue(0xFFFF);
    IntValue(0x29B1);
  }

  /** The check value of the code, and its start value. */
  lemma CheckValue()
    ensures Checksum(DIGITS) == 0x29B1 && Checksum([]) == 0xFFFF
  {
    hide Int, FeedByte;
    StartAndEnd();
    var m := DIGITS;
    Digit1();
    FeedFirst(Int(0xFFFF), m);
    assert m[1..] == m[1..];
    Digit2();
    FeedFirst(Int(0xC782), m[1..]);
    assert m[1..][1..] == m[2..];
    Digit3();
    FeedFirst(Int(0x3DBA), m[2..]);
    assert m[2..][1..] == m[3..];
    Digit4();
    FeedFirst(Int(0x5BCE), m[3..]);
    assert m[3..][1..] == m[4..];
    Digit5();
    FeedFirst(Int(0x5349), m[4..]);
    assert m[4..][1..] == m[5..];
    Digit6();
    FeedFirst(Int(0x4560), m[5..]);
    assert m[5..][1..] == m[6..];
    Digit7();
    FeedFirst(Int(0x2EF4), m[6..]);
    assert m[6..][1..] == m[7..];
    Digit8();
    FeedFirst(Int(0x7718), m[7..]);
    assert m[7..][1..] == m[8..];
    Digit9();
    FeedFirst(Int(0xA12B), m[8..]);
    assert m[8..][1..] == [];
  }

  // ----- an acknowledgement of round 0

  const ACK_HEADER: bytes := [0x4C, 0x46, 0x04, 0xFF, 0xFF, 0x00, 0x00, 0x01]

  lemma Header1()
    ensures Int(0xFFFF) as int < TWO16 && Int(0x68B8) as int < TWO16
    ensures FeedByte(Int(0xFFFF), 0x4c) == Int(0x68B8)
  {
    IntValue(0x4c00);
    hide Int;
    ByteMeaning(0xFFFF, 0x4c, 0x4c00, 0x68B8);
  }

  lemma Header2()
    ensures Int(0x68B8) as int < TWO16 && Int(0x7DAC) as int < TWO16
    ensures FeedByte(Int(0x68B8), 0x46) == Int(0x7DAC)
  {
    IntValue(0x4600);
    hide Int;
    ByteMeaning(0x68B8, 0x46, 0x4600, 0x7DAC);
  }

  lemma Header3()
    ensures Int(0x7DAC) as int < TWO16 && Int(0x43BE) as int < TWO16
    ensures FeedByte(Int(0x7DAC), 0x04) == Int(0x43BE)
  {
    IntValue(0x0400);
    hide Int;
    ByteMeaning(0x7DAC, 0x04, 0x0400, 0x43BE);
  }

  lemma Header4()
    ensures Int(0x43BE) as int < TWO16 && Int(0xD857) as int < TWO16
    ensures FeedByte(Int(0x43BE), 0xff) == Int(0xD857)
  {
    IntValue(0xff00);
    hide Int;
    ByteMeaning(0x43BE, 0xff, 0xff00, 0xD857);
  }

  lemma Header5()
    ensures Int(0xD857) as int < TWO16 && Int(0x0385) as int < TWO16
    ensures FeedByte(Int(0xD857), 0xff) == Int(0x0385)
  {
    IntValue(0xff00);
    hide Int;
    ByteMeaning(0xD857, 0xff, 0xff00, 0x0385);
  }

  lemma Header6()
    ensures Int(0x0385) as int < TWO16 && Int(0xB563) as int < TWO16
    ensures FeedByte(Int(0x0385), 0x00) == Int(0xB563)
  {
    IntValue(0x0000);
    hide Int;
    ByteMeaning(0x0385, 0x00, 0x0000, 0xB563);
  }

  lemma Header7()
    ensures Int(0xB563) as int < TWO16 && Int(0x947E) as int < TWO16
    ensures FeedByte(Int(0xB563), 0x00) == Int(0x947E)
  {
    IntValue(0x0000);
    hide Int;
    ByteMeaning(0xB563, 0x00, 0x0000, 0x947E);
  }

  lemma Header8()
    ensures Int(0x947E) as int < TWO16 && Int(0xAD1C) as int < TWO16
    ensures FeedByte(Int(0x947E), 0x01) == Int(0xAD1C)
  {
    IntValue(0x0100);
    hide Int;
    ByteMeaning(0x947E, 0x01, 0x0100, 0xAD1C);
  }

  lemma AckEnds()
    ensures Int(0xFFFF) == 0xFFFF && Int(0xAD1C) == 0xAD1C
  {
    hide Int;
    IntValue(0xFFFF);
    IntValue(0xAD1C);
  }

  lemma AckChecksum()
    ensures Checksum(ACK_HEADER) == 0xAD1C
  {
    hide Int, FeedByte;
    AckEnds();
    var m := ACK_HEADER;
    Header1();
    FeedFirst(Int(0xFFFF), m);
    assert m[1..] == m[1..];
    Header2();
    FeedFirst(Int(0x68B8), m[1..]);
    assert m[1..][1..] == m[2..];
    Header3();
    FeedFirst(Int(0x7DAC), m[2..]);
    assert m[2..][1..] == m[3..];
    Header4();
    FeedFirst(Int(0x43BE), m[3..]);
    assert m[3..][1..] == m[4..];
    Header5();
    FeedFirst(Int(0xD857), m[4..]);
    assert m[4..][1..] == m[5..];
    Header6();
    FeedFirst(Int(0x0385), m[5..]);
    assert m[5..][1..] == m[6..];
    Header7();
    FeedFirst(Int(0xB563), m[6..]);
    assert m[6..][1..] == m[7..];
    Header8();
    FeedFirst(Int(0x947E), m[7..]);
    assert m[7..][1..] == [];
  }

  /** The ten bytes of the acknowledgement as they go over the air. */
  lemma AckVector()
    ensures Herald.AckFrame(0) == [0x4C, 0x46, 0x04, 0xFF, 0xFF, 0x00, 0x00, 0x01, 0x1C, 0xAD]
  {
    hide Checksum;
    AckChecksum();
    assert ACK_HEADER + [] == ACK_HEADER;
  }
}
