/** Table-driven CRC-16 against polynomial division over GF(2) by x^16 + x^12 + x^5 + 1. */
module Crc16 {

  // Coefficients, highest power first.
  type Poly = seq<bool>

  // --- polynomial division ---

  function Bit(b: bool): bv16 {
    if b then 1 else 0
  }

  // x^16 modulo the generator.
  const GENERATOR: bv16 := 0x1021

  function Times(w: bv16): bv16 {
    if Leads(w) then Xor(Double(w), GENERATOR) else Double(w)
  }

  // Whether the coefficient of x^15 is one.
  predicate Leads(w: bv16) {
    w & 0x8000 != 0
  }

  function Double(w: bv16): bv16 {
    w << 1
  }

  function Xor(v: bv16, w: bv16): bv16 {
    v ^ w
  }

  // One line of long division: bring down the next coefficient, subtract the generator if x^16 appears.
  function BringDown(w: bv16, b: bool): bv16 {
    Xor(Times(w), Bit(b))
  }

  function LongDivide(w: bv16, rest: Poly): bv16
    decreases rest
  {
    if rest == [] then w else LongDivide(BringDown(w, rest[0]), rest[1..])
  }

  function Zeros(n: nat): (s: Poly)
    ensures |s| == n
  {
    seq(n, _ => false)
  }

  // The remainder of p times x^16.
  function Remainder(p: Poly): bv16 {
    LongDivide(0, p + Zeros(16))
  }

  function BitsOf(b: bv8): (p: Poly)
    ensures |p| == 8
  {
    [b & 128 != 0, b & 64 != 0, b & 32 != 0, b & 16 != 0, b & 8 != 0, b & 4 != 0, b & 2 != 0, b & 1 != 0]
  }

  function Bits(s: seq<bv8>): (p: Poly)
    ensures |p| == 8 * |s|
  {
    if s == [] then [] else Bits(s[..|s| - 1]) + BitsOf(s[|s| - 1])
  }

  // --- the table ---

  // The table, thirty-two entries to a part.
  function Table(i: bv8): bv16 {
    match i >> 5
    case 0 => Part0(i & 31)
    case 1 => Part1(i & 31)
    case 2 => Part2(i & 31)
    case 3 => Part3(i & 31)
    case 4 => Part4(i & 31)
    case 5 => Part5(i & 31)
    case 6 => Part6(i & 31)
    case _ => Part7(i & 31)
  }

  function Part0(j: bv8): bv16 {
    match j
    case 0 => 0x0000 case 1 => 0x1021 case 2 => 0x2042 case 3 => 0x3063
    case 4 => 0x4084 case 5 => 0x50a5 case 6 => 0x60c6 case 7 => 0x70e7
    case 8 => 0x8108 case 9 => 0x9129 case 10 => 0xa14a case 11 => 0xb16b
    case 12 => 0xc18c case 13 => 0xd1ad case 14 => 0xe1ce case 15 => 0xf1ef
    case 16 => 0x1231 case 17 => 0x0210 case 18 => 0x3273 case 19 => 0x2252
    case 20 => 0x52b5 case 21 => 0x4294 case 22 => 0x72f7 case 23 => 0x62d6
    case 24 => 0x9339 case 25 => 0x8318 case 26 => 0xb37b case 27 => 0xa35a
    case 28 => 0xd3bd case 29 => 0xc39c case 30 => 0xf3ff case _ => 0xe3de
  }

  function Part1(j: bv8): bv16 {
    match j
    case 0 => 0x2462 case 1 => 0x3443 case 2 => 0x0420 case 3 => 0x1401
    case 4 => 0x64e6 case 5 => 0x74c7 case 6 => 0x44a4 case 7 => 0x5485
    case 8 => 0xa56a case 9 => 0xb54b case 10 => 0x8528 case 11 => 0x9509
    case 12 => 0xe5ee case 13 => 0xf5cf case 14 => 0xc5ac case 15 => 0xd58d
    case 16 => 0x3653 case 17 => 0x2672 case 18 => 0x1611 case 19 => 0x0630
    case 20 => 0x76d7 case 21 => 0x66f6 case 22 => 0x5695 case 23 => 0x46b4
    case 24 => 0xb75b case 25 => 0xa77a case 26 => 0x9719 case 27 => 0x8738
    case 28 => 0xf7df case 29 => 0xe7fe case 30 => 0xd79d case _ => 0xc7bc
  }

  function Part2(j: bv8): bv16 {
    match j
    case 0 => 0x48c4 case 1 => 0x58e5 case 2 => 0x6886 case 3 => 0x78a7
    case 4 => 0x0840 case 5 => 0x1861 case 6 => 0x2802 case 7 => 0x3823
    case 8 => 0xc9cc case 9 => 0xd9ed case 10 => 0xe98e case 11 => 0xf9af
    case 12 => 0x8948 case 13 => 0x9969 case 14 => 0xa90a case 15 => 0xb92b
    case 16 => 0x5af5 case 17 => 0x4ad4 case 18 => 0x7ab7 case 19 => 0x6a96
    case 20 => 0x1a71 case 21 => 0x0a50 case 22 => 0x3a33 case 23 => 0x2a12
    case 24 => 0xdbfd case 25 => 0xcbdc case 26 => 0xfbbf case 27 => 0xeb9e
    case 28 => 0x9b79 case 29 => 0x8b58 case 30 => 0xbb3b case _ => 0xab1a
  }

  function Part3(j: bv8): bv16 {
    match j
    case 0 => 0x6ca6 case 1 => 0x7c87 case 2 => 0x4ce4 case 3 => 0x5cc5
    case 4 => 0x2c22 case 5 => 0x3c03 case 6 => 0x0c60 case 7 => 0x1c41
    case 8 => 0xedae case 9 => 0xfd8f case 10 => 0xcdec case 11 => 0xddcd
    case 12 => 0xad2a case 13 => 0xbd0b case 14 => 0x8d68 case 15 => 0x9d49
    case 16 => 0x7e97 case 17 => 0x6eb6 case 18 => 0x5ed5 case 19 => 0x4ef4
    case 20 => 0x3e13 case 21 => 0x2e32 case 22 => 0x1e51 case 23 => 0x0e70
    case 24 => 0xff9f case 25 => 0xefbe case 26 => 0xdfdd case 27 => 0xcffc
    case 28 => 0xbf1b case 29 => 0xaf3a case 30 => 0x9f59 case _ => 0x8f78
  }

  function Part4(j: bv8): bv16 {
    match j
    case 0 => 0x9188 case 1 => 0x81a9 case 2 => 0xb1ca case 3 => 0xa1eb
    case 4 => 0xd10c case 5 => 0xc12d case 6 => 0xf14e case 7 => 0xe16f
    case 8 => 0x1080 case 9 => 0x00a1 case 10 => 0x30c2 case 11 => 0x20e3
    case 12 => 0x5004 case 13 => 0x4025 case 14 => 0x7046 case 15 => 0x6067
    case 16 => 0x83b9 case 17 => 0x9398 case 18 => 0xa3fb case 19 => 0xb3da
    case 20 => 0xc33d case 21 => 0xd31c case 22 => 0xe37f case 23 => 0xf35e
    case 24 => 0x02b1 case 25 => 0x1290 case 26 => 0x22f3 case 27 => 0x32d2
    case 28 => 0x4235 case 29 => 0x5214 case 30 => 0x6277 case _ => 0x7256
  }

  function Part5(j: bv8): bv16 {
    match j
    case 0 => 0xb5ea case 1 => 0xa5cb case 2 => 0x95a8 case 3 => 0x8589
    case 4 => 0xf56e case 5 => 0xe54f case 6 => 0xd52c case 7 => 0xc50d
    case 8 => 0x34e2 case 9 => 0x24c3 case 10 => 0x14a0 case 11 => 0x0481
    case 12 => 0x7466 case 13 => 0x6447 case 14 => 0x5424 case 15 => 0x4405
    case 16 => 0xa7db case 17 => 0xb7fa case 18 => 0x8799 case 19 => 0x97b8
    case 20 => 0xe75f case 21 => 0xf77e case 22 => 0xc71d case 23 => 0xd73c
    case 24 => 0x26d3 case 25 => 0x36f2 case 26 => 0x0691 case 27 => 0x16b0
    case 28 => 0x6657 case 29 => 0x7676 case 30 => 0x4615 case _ => 0x5634
  }

  function Part6(j: bv8): bv16 {
    match j
    case 0 => 0xd94c case 1 => 0xc96d case 2 => 0xf90e case 3 => 0xe92f
    case 4 => 0x99c8 case 5 => 0x89e9 case 6 => 0xb98a case 7 => 0xa9ab
    case 8 => 0x5844 case 9 => 0x4865 case 10 => 0x7806 case 11 => 0x6827
    case 12 => 0x18c0 case 13 => 0x08e1 case 14 => 0x3882 case 15 => 0x28a3
    case 16 => 0xcb7d case 17 => 0xdb5c case 18 => 0xeb3f case 19 => 0xfb1e
    case 20 => 0x8bf9 case 21 => 0x9bd8 case 22 => 0xabbb case 23 => 0xbb9a
    case 24 => 0x4a75 case 25 => 0x5a54 case 26 => 0x6a37 case 27 => 0x7a16
    case 28 => 0x0af1 case 29 => 0x1ad0 case 30 => 0x2ab3 case _ => 0x3a92
  }

  function Part7(j: bv8): bv16 {
    match j
    case 0 => 0xfd2e case 1 => 0xed0f case 2 => 0xdd6c case 3 => 0xcd4d
    case 4 => 0xbdaa case 5 => 0xad8b case 6 => 0x9de8 case 7 => 0x8dc9
    case 8 => 0x7c26 case 9 => 0x6c07 case 10 => 0x5c64 case 11 => 0x4c45
    case 12 => 0x3ca2 case 13 => 0x2c83 case 14 => 0x1ce0 case 15 => 0x0cc1
    case 16 => 0xef1f case 17 => 0xff3e case 18 => 0xcf5d case 19 => 0xdf7c
    case 20 => 0xaf9b case 21 => 0xbfba case 22 => 0x8fd9 case 23 => 0x9ff8
    case 24 => 0x6e17 case 25 => 0x7e36 case 26 => 0x4e55 case 27 => 0x5e74
    case 28 => 0x2e93 case 29 => 0x3eb2 case 30 => 0x0ed1 case _ => 0x1ef0
  }

  function TimesEight(w: bv16): bv16 {
    Times(Times(Times(Times(Times(Times(Times(Times(w))))))))
  }

  // The shifted-out byte i, and what eight shifts make of it.
  function ShiftedOut(i: bv8): bv16 {
    TimesEight((i as bv16) << 8)
  }

  lemma Part0IsShifts(j: bv8)
    requires j < 32
    ensures Part0(j) == ShiftedOut(0 + j)
  {
  }

  lemma Part1IsShifts(j: bv8)
    requires j < 32
    ensures Part1(j) == ShiftedOut(32 + j)
  {
  }

  lemma Part2IsShifts(j: bv8)
    requires j < 32
    ensures Part2(j) == ShiftedOut(64 + j)
  {
  }

  lemma Part3IsShifts(j: bv8)
    requires j < 32
    ensures Part3(j) == ShiftedOut(96 + j)
  {
  }

  lemma Part4IsShifts(j: bv8)
    requires j < 32
    ensures Part4(j) == ShiftedOut(128 + j)
  {
  }

  lemma Part5IsShifts(j: bv8)
    requires j < 32
    ensures Part5(j) == ShiftedOut(160 + j)
  {
  }

  lemma Part6IsShifts(j: bv8)
    requires j < 32
    ensures Part6(j) == ShiftedOut(192 + j)
  {
  }

  lemma Part7IsShifts(j: bv8)
    requires j < 32
    ensures Part7(j) == ShiftedOut(224 + j)
  {
  }

  // Every entry of the table is eight shift steps.
  lemma TableIsShifts(i: bv8)
    ensures Table(i) == ShiftedOut(i)
  {
    hide ShiftedOut, Part0, Part1, Part2, Part3, Part4, Part5, Part6, Part7;
    var j := i & 31;
    assert j < 32;
    match i >> 5
    case 0 => Part0IsShifts(j); assert 0 + j == i;
    case 1 => Part1IsShifts(j); assert 32 + j == i;
    case 2 => Part2IsShifts(j); assert 64 + j == i;
    case 3 => Part3IsShifts(j); assert 96 + j == i;
    case 4 => Part4IsShifts(j); assert 128 + j == i;
    case 5 => Part5IsShifts(j); assert 160 + j == i;
    case 6 => Part6IsShifts(j); assert 192 + j == i;
    case _ => Part7IsShifts(j); assert 224 + j == i;
  }

  // --- the direct form: the message enters at the top of the register ---

  function Direct(c: bv16, p: Poly): bv16
    decreases p
  {
    if p == [] then c else Direct(Times(Xor(c, Top(p[0]))), p[1..])
  }

  function Top(b: bool): bv16 {
    if b then 0x8000 else 0
  }

  lemma {:induction false} DirectAppends(c: bv16, p: Poly, q: Poly)
    ensures Direct(c, p + q) == Direct(Direct(c, p), q)
    decreases p
  {
    hide Times, Top, Xor;
    if p == [] {
      assert p + q == q;
    } else {
      assert (p + q)[1..] == p[1..] + q;
      DirectAppends(Times(Xor(c, Top(p[0]))), p[1..], q);
    }
  }

  lemma XorAssociates(u: bv16, v: bv16, w: bv16)
    ensures Xor(Xor(u, v), w) == Xor(u, Xor(v, w))
  {
  }

  lemma XorCommutes(v: bv16, w: bv16)
    ensures Xor(v, w) == Xor(w, v)
  {
  }

  lemma XorCancels(v: bv16)
    ensures Xor(0, v) == v == Xor(v, 0) && Xor(v, v) == 0
  {
  }

  // (u + v) + (w + v) is u + w.
  lemma XorPairs(u: bv16, v: bv16, w: bv16)
    ensures Xor(Xor(u, v), Xor(w, v)) == Xor(u, w)
    ensures Xor(Xor(u, v), w) == Xor(Xor(u, w), v) == Xor(u, Xor(w, v))
  {
    hide Xor;
    XorCommutes(w, v);
    XorAssociates(u, v, w);
    XorAssociates(u, w, v);
    XorAssociates(Xor(u, v), v, w);
    XorAssociates(u, v, v);
    XorCancels(v);
    XorCancels(u);
  }

  lemma DoubleIsLinear(v: bv16, w: bv16)
    ensures Double(Xor(v, w)) == Xor(Double(v), Double(w))
  {
    assert (v ^ w) << 1 == (v << 1) ^ (w << 1);
  }

  lemma LeadsIsLinear(v: bv16, w: bv16)
    ensures Leads(Xor(v, w)) <==> Leads(v) != Leads(w)
  {
    assert (v ^ w) & 0x8000 != 0 <==> ((v & 0x8000 != 0) != (w & 0x8000 != 0));
  }

  lemma TimesIsLinear(v: bv16, w: bv16)
    ensures Times(Xor(v, w)) == Xor(Times(v), Times(w))
  {
    hide Double, Leads, Xor;
    DoubleIsLinear(v, w);
    LeadsIsLinear(v, w);
    XorPairs(Double(v), GENERATOR, Double(w));
    XorAssociates(Double(v), Double(w), GENERATOR);
  }

  lemma {:induction false} DivisionIsLinear(v: bv16, w: bv16, p: Poly)
    ensures LongDivide(Xor(v, w), p) == Xor(LongDivide(v, Zeros(|p|)), LongDivide(w, p))
    decreases p
  {
    hide Times, Bit, Xor, BringDown;
    if p != [] {
      var v', w' := BringDown(v, false), BringDown(w, p[0]);
      BringDownIsLinear(v, w, p[0]);
      assert Zeros(|p|)[1..] == Zeros(|p[1..]|);
      DivisionIsLinear(v', w', p[1..]);
    }
  }

  lemma BringDownIsLinear(v: bv16, w: bv16, b: bool)
    ensures BringDown(Xor(v, w), b) == Xor(BringDown(v, false), BringDown(w, b))
  {
    hide Times, Xor, Bit;
    TimesIsLinear(v, w);
    XorAssociates(Times(v), Times(w), Bit(b));
    assert BringDown(v, false) == Times(v) by { XorCancels(Times(v)); BitValues(); }
  }

  lemma BitValues()
    ensures Bit(false) == 0 && Bit(true) == 1
  {
  }

  // Sixteen zeros after a leading one leave the generator.
  lemma SixteenZeros(b: bool, p: Poly)
    ensures LongDivide(Bit(b), Zeros(16) + p) == LongDivide(Times(Top(b)), p)
  {
    hide LongDivide, Zeros;
    var w := Bit(b);
    FourZeros(w, Zeros(12) + p);
    FourZeros(TimesFour(w), Zeros(8) + p);
    FourZeros(TimesFour(TimesFour(w)), Zeros(4) + p);
    FourZeros(TimesFour(TimesFour(TimesFour(w))), p);
    ZerosSplit(12, p);
    ZerosSplit(8, p);
    ZerosSplit(4, p);
    ZerosSplit(0, p);
  }

  function TimesFour(w: bv16): bv16 {
    Times(Times(Times(Times(w))))
  }

  lemma ZerosSplit(n: nat, p: Poly)
    ensures Zeros(4) + (Zeros(n) + p) == Zeros(n + 4) + p
    ensures Zeros(0) + p == p
  {
  }

  lemma FourZeros(w: bv16, p: Poly)
    ensures LongDivide(w, Zeros(4) + p) == LongDivide(TimesFour(w), p)
  {
    hide Times, LongDivide;
    OneZero(w, Zeros(4) + p);
    OneZero(Times(w), (Zeros(4) + p)[1..]);
    OneZero(Times(Times(w)), (Zeros(4) + p)[2..]);
    OneZero(Times(Times(Times(w))), (Zeros(4) + p)[3..]);
    assert (Zeros(4) + p)[4..] == p;
  }

  lemma OneZero(w: bv16, p: Poly)
    requires p != [] && !p[0]
    ensures LongDivide(w, p) == LongDivide(Times(w), p[1..])
    ensures forall i :: 0 <= i < |p| - 1 ==> p[1..][i] == p[i + 1]
  {
    hide Times, Xor;
    BitValues();
    XorCancels(Times(w));
  }

  // What a coefficient brought down first comes to.
  lemma FirstCoefficient(b: bool, rest: Poly)
    ensures Remainder([b] + rest) == Xor(LongDivide(Times(Top(b)), Zeros(|rest|)), Remainder(rest))
  {
    hide Times, Top, LongDivide, Xor, Bit;
    var p, z := [b] + rest + Zeros(16), rest + Zeros(16);
    assert p[1..] == z;
    DivideFirst(0, p);
    ZeroTimes(Bit(b));
    DivisionIsLinear(Bit(b), 0, z);
    ZeroTimes(Bit(b));
    assert Zeros(|z|) == Zeros(16) + Zeros(|rest|);
    SixteenZeros(b, Zeros(|rest|));
  }

  lemma DivideFirst(w: bv16, p: Poly)
    requires p != []
    ensures LongDivide(w, p) == LongDivide(BringDown(w, p[0]), p[1..])
  {
  }

  lemma ZeroTimes(w: bv16)
    ensures Xor(Times(0), w) == w && Xor(w, 0) == w
  {
  }

  lemma {:induction false} ZerosDivide(p: Poly)
    requires forall i :: 0 <= i < |p| ==> !p[i]
    ensures LongDivide(0, p) == 0
    decreases p
  {
    if p != [] {
      ZerosDivide(p[1..]);
    }
  }

  // The register form computes the remainder of the message times x^16, plus what the initial
  // contents of the register leave.
  lemma {:induction false} DirectDivides(c: bv16, p: Poly)
    ensures Direct(c, p) == Xor(LongDivide(c, Zeros(|p|)), Remainder(p))
    decreases p
  {
    hide Times, Top, Bit, Xor, LongDivide, Remainder;
    if p == [] {
      EmptyMessage(c);
    } else {
      var rest, b := p[1..], p[0];
      var z := Zeros(|rest|);
      DirectDivides(Times(Xor(c, Top(b))), rest);
      TimesIsLinear(c, Top(b));
      DivisionIsLinear(Times(c), Times(Top(b)), z);
      FirstCoefficient(b, rest);
      assert p == [b] + rest;
      LeadingZero(c, |rest|);
      XorAssociates(LongDivide(Times(c), z), LongDivide(Times(Top(b)), z), Remainder(rest));
    }
  }

  lemma EmptyMessage(c: bv16)
    ensures Xor(LongDivide(c, Zeros(0)), Remainder([])) == c
  {
    ZerosDivide([] + Zeros(16));
  }

  lemma LeadingZero(c: bv16, n: nat)
    ensures LongDivide(c, Zeros(n + 1)) == LongDivide(Times(c), Zeros(n))
  {
    hide Times;
    assert Zeros(n + 1)[1..] == Zeros(n);
  }

  // --- a byte at a time ---

  function ByteStep(c: bv16, b: bv8): bv16 {
    Xor(c << 8, Table(HighByte(c) ^ b))
  }

  function HighByte(c: bv16): bv8 {
    (c >> 8) as bv8
  }

  lemma BytesAreBits(c: bv16, b: bv8)
    ensures ByteStep(c, b) == Direct(c, BitsOf(b))
  {
    hide Table, Times, Direct, Xor;
    var i := HighByte(c) ^ b;
    TableIsShifts(i);
    DirectByte(c, b);
    SplitRegister(c, b);
    TimesEightIsLinear(LowByte(c), InHighByte(i));
    LowByteMovesUp(c);
  }

  function LowByte(c: bv16): bv16
    ensures LowByte(c) < 256
  {
    c & 255
  }

  function InHighByte(b: bv8): bv16 {
    (b as bv16) << 8
  }

  lemma SplitRegister(c: bv16, b: bv8)
    ensures Xor(c, InHighByte(b)) == Xor(LowByte(c), InHighByte(HighByte(c) ^ b))
  {
  }

  lemma TimesEightIsLinear(v: bv16, w: bv16)
    ensures TimesEight(Xor(v, w)) == Xor(TimesEight(v), TimesEight(w))
  {
    hide Times, Xor;
    TimesFourIsLinear(v, w);
    TimesFourIsLinear(TimesFour(v), TimesFour(w));
  }

  lemma TimesFourIsLinear(v: bv16, w: bv16)
    ensures TimesFour(Xor(v, w)) == Xor(TimesFour(v), TimesFour(w))
  {
    hide Times, Xor;
    TimesIsLinear(v, w);
    TimesIsLinear(Times(v), Times(w));
    TimesIsLinear(Times(Times(v)), Times(Times(w)));
    TimesIsLinear(Times(Times(Times(v))), Times(Times(Times(w))));
  }

  lemma LowByteMovesUp(c: bv16)
    ensures TimesEight(LowByte(c)) == c << 8
  {
  }

  // A bit may wait in the register below the top: it enters when it gets there.
  lemma EnterBit(x: bv16, y: bv16)
    ensures Times(Xor(x, y)) == Xor(Times(Xor(x, Top(Leads(y)))), Double(y))
  {
    hide Double, Leads, Xor, Top;
    var t := Top(Leads(y));
    TimesIsLinear(x, y);
    TimesIsLinear(x, t);
    TopLeads(Leads(y));
    XorCancels(Times(x));
    XorPairs(Times(x), GENERATOR, Double(y));
  }

  lemma TopLeads(b: bool)
    ensures Times(Top(b)) == if b then GENERATOR else 0
  {
  }

  // p is what the top of y holds.
  predicate Spells(p: Poly, y: bv16)
    decreases p
  {
    p == [] || (p[0] == (Leads(y)) && Spells(p[1..], Double(y)))
  }

  function Shifted(n: nat, y: bv16): bv16 {
    if n == 0 then y else Shifted(n - 1, Double(y))
  }

  function TimesN(n: nat, w: bv16): bv16 {
    if n == 0 then w else TimesN(n - 1, Times(w))
  }

  lemma {:induction false} DirectEnters(c: bv16, y: bv16, p: Poly)
    requires Spells(p, y)
    ensures TimesN(|p|, Xor(c, y)) == Xor(Direct(c, p), Shifted(|p|, y))
    decreases p
  {
    hide Times, Top, Xor;
    if p != [] {
      EnterBit(c, y);
      DirectEnters(Times(Xor(c, Top(p[0]))), Double(y), p[1..]);
    }
  }

  lemma DirectByte(c: bv16, b: bv8)
    ensures Direct(c, BitsOf(b)) == TimesEight(Xor(c, InHighByte(b)))
  {
    hide Times, Top, Xor, Direct, BitsOf, InHighByte, Spells, Shifted;
    var y := InHighByte(b);
    ByteSpelled(b);
    DirectEnters(c, y, BitsOf(b));
    XorCancels(Direct(c, BitsOf(b)));
    EightTimes(Xor(c, y));
  }

  lemma EightTimes(w: bv16)
    ensures TimesN(8, w) == TimesEight(w)
  {
    hide TimesN, TimesEight;
    FourTimes(4, w);
    FourTimes(0, TimesFour(w));
    FourTimes(0, TimesFour(TimesFour(w)));
    TwiceFour(w);
  }

  lemma FourTimes(n: nat, w: bv16)
    ensures TimesN(n + 4, w) == TimesN(n, TimesFour(w)) && TimesN(0, w) == w
  {
    hide Times;
    assert TimesN(n + 2, Times(Times(w))) == TimesN(n, TimesFour(w));
  }

  lemma TwiceFour(w: bv16)
    ensures TimesFour(TimesFour(w)) == TimesEight(w)
  {
    hide Times;
  }

  lemma FourShifts(n: nat, y: bv16)
    ensures Shifted(n + 4, y) == Shifted(n, DoubleFour(y)) && Shifted(0, y) == y
  {
    hide Double;
    assert Shifted(n + 2, Double(Double(y))) == Shifted(n, DoubleFour(y));
  }

  function DoubleFour(y: bv16): bv16 {
    Double(Double(Double(Double(y))))
  }

  lemma SpellsFour(p: Poly, y: bv16)
    requires |p| >= 4 && Spells(p[4..], DoubleFour(y))
    requires p[0] == Leads(y) && p[1] == Leads(Double(y))
    requires p[2] == Leads(Double(Double(y))) && p[3] == Leads(Double(Double(Double(y))))
    ensures Spells(p, y)
  {
    hide Double, Leads;
    assert p[3..][1..] == p[4..] && p[2..][1..] == p[3..] && p[1..][1..] == p[2..];
    assert Spells(p[3..], Double(Double(Double(y))));
    assert Spells(p[2..], Double(Double(y)));
    assert Spells(p[1..], Double(y));
  }

  lemma ByteSpelled(b: bv8)
    ensures Spells(BitsOf(b), InHighByte(b)) && Shifted(8, InHighByte(b)) == 0
  {
    hide Double, Leads, InHighByte;
    var p, y := BitsOf(b), InHighByte(b);
    HighBits(b);
    SpellsFour(p[4..], DoubleFour(y));
    SpellsFour(p, y);
    FourShifts(4, y);
    FourShifts(0, DoubleFour(y));
    FourShifts(0, DoubleFour(DoubleFour(y)));
  }

  lemma HighBits(b: bv8)
    ensures var p, y := BitsOf(b), InHighByte(b);
            && p[0] == Leads(y) && p[1] == Leads(Double(y))
            && p[2] == Leads(Double(Double(y))) && p[3] == Leads(Double(Double(Double(y))))
            && var z := DoubleFour(y);
            && p[4] == Leads(z) && p[5] == Leads(Double(z))
            && p[6] == Leads(Double(Double(z))) && p[7] == Leads(Double(Double(Double(z))))
            && DoubleFour(z) == 0
  {
  }

  lemma CrcAppends(s: seq<bv8>, b: bv8)
    ensures Direct(0, Bits(s + [b])) == ByteStep(Direct(0, Bits(s)), b)
  {
    hide ByteStep, BitsOf, Direct;
    assert (s + [b])[..|s|] == s;
    DirectAppends(0, Bits(s), BitsOf(b));
    BytesAreBits(Direct(0, Bits(s)), b);
  }

  method Crc16(buf: seq<bv8>) returns (crc: bv16)
    ensures crc == Remainder(Bits(buf))
  {
    hide Direct, Bits, ByteStep, LongDivide, Remainder;
    crc := 0;
    BitsOfNothing();
    for counter := 0 to |buf|
      invariant crc == Direct(0, Bits(buf[..counter]))
    {
      CrcAppends(buf[..counter], buf[counter]);
      assert buf[..counter] + [buf[counter]] == buf[..counter + 1];
      crc := ByteStep(crc, buf[counter]);
    }
    assert buf[..|buf|] == buf;
    DirectIsRemainder(Bits(buf));
  }

  lemma BitsOfNothing()
    ensures Direct(0, Bits([])) == 0
  {
  }

  lemma DirectIsRemainder(p: Poly)
    ensures Direct(0, p) == Remainder(p)
  {
    hide Direct, Remainder, LongDivide;
    DirectDivides(0, p);
    ZerosDivide(Zeros(|p|));
  }

  // A message followed by its own checksum leaves no remainder.
  lemma ChecksumCancels(s: seq<bv8>)
    ensures var crc := Remainder(Bits(s));
            Remainder(Bits(s + [HighByte(crc), LowByte(crc) as bv8])) == 0
  {
    hide Remainder, Direct, Bits, HighByte, LowByte, ByteStep;
    var crc := Remainder(Bits(s));
    var h, l := HighByte(crc), LowByte(crc) as bv8;
    assert s + [h, l] == s + [h] + [l];
    DirectIsRemainder(Bits(s));
    CrcAppends(s, h);
    CrcAppends(s + [h], l);
    DirectIsRemainder(Bits(s + [h, l]));
    OwnBytes(crc);
  }

  lemma OwnBytes(crc: bv16)
    ensures ByteStep(ByteStep(crc, HighByte(crc)), LowByte(crc) as bv8) == 0
  {
    assert HighByte(crc) ^ HighByte(crc) == 0;
    assert Table(0) == 0;
    assert HighByte(crc << 8) ^ (LowByte(crc) as bv8) == 0;
    XorCancels(crc << 8);
    assert ((crc << 8) << 8) == 0;
  }
}
