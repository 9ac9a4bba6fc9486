/** SHA-1 on one block: the 16-word circular schedule with rotating register roles
    against the 80-word schedule and the round function of section 6.1.2 of FIPS 180-4. */
module Sha1Block {

  type Word = bv32
  type Block = b: seq<bv8> | |b| == 64 witness seq(64, _ => 0)

  // --- the standard ---

  // Its operations on words: rotations to the left, addition and exclusive or.
  function RotL1(w: Word): Word { w.RotateLeft(1) }
  function RotL5(w: Word): Word { w.RotateLeft(5) }
  function RotL30(w: Word): Word { w.RotateLeft(30) }
  function Add(x: Word, y: Word): Word { x + y }
  function Sum(p: Word, q: Word, r: Word, s: Word, t: Word): Word { p + q + r + s + t }
  function Xor4(p: Word, q: Word, r: Word, s: Word): Word { p ^ q ^ r ^ s }

  // The five working variables.
  datatype Regs = Regs(a: Word, b: Word, c: Word, d: Word, e: Word)

  function Ch(x: Word, y: Word, z: Word): Word {
    (x & y) ^ (!x & z)
  }

  function Parity(x: Word, y: Word, z: Word): Word {
    x ^ y ^ z
  }

  function Maj(x: Word, y: Word, z: Word): Word {
    (x & y) ^ (x & z) ^ (y & z)
  }

  function F(t: nat, x: Word, y: Word, z: Word): Word {
    if t < 20 then Ch(x, y, z)
    else if t < 40 then Parity(x, y, z)
    else if t < 60 then Maj(x, y, z)
    else Parity(x, y, z)
  }

  function K(t: nat): Word {
    if t < 20 then 0x5A827999
    else if t < 40 then 0x6ED9EBA1
    else if t < 60 then 0x8F1BBCDC
    else 0xCA62C1D6
  }

  // The constants are 2^30 times the square roots of 2, 3, 5 and 10, without the fractions.
  lemma ConstantsAreRoots(t: nat)
    ensures var k, n := K(t) as nat, if t < 20 then 2 else if t < 40 then 3 else if t < 60 then 5 else 10;
            k * k <= n * 0x1000_0000_0000_0000 < (k + 1) * (k + 1)
  {
    assert 0x5A827999 as Word as nat == 0x5A827999;
  }

  // Four bytes as a word, most significant first.
  function BigEndian(b: Block, i: nat): Word
    requires i < 16
  {
    ((b[4 * i] as Word) << 24) | ((b[4 * i + 1] as Word) << 16) | ((b[4 * i + 2] as Word) << 8) | (b[4 * i + 3] as Word)
  }

  // The message schedule.
  function W(b: Block, t: nat): Word {
    if t < 16 then BigEndian(b, t)
    else RotL1(Xor4(W(b, t - 3), W(b, t - 8), W(b, t - 14), W(b, t - 16)))
  }

  function Round(b: Block, t: nat, r: Regs): Regs {
    Regs(Sum(RotL5(r.a), F(t, r.b, r.c, r.d), r.e, K(t), W(b, t)), r.a, RotL30(r.b), r.c, r.d)
  }

  function Rounds(b: Block, n: nat, r: Regs): Regs {
    if n == 0 then r else Round(b, n - 1, Rounds(b, n - 1, r))
  }

  function Plus(r: Regs, s: Regs): Regs {
    Regs(Add(r.a, s.a), Add(r.b, s.b), Add(r.c, s.c), Add(r.d, s.d), Add(r.e, s.e))
  }

  function Compress(h: Regs, b: Block): Regs {
    Plus(h, Rounds(b, 80, h))
  }

  // --- the source ---

  // The macro rol, one for each distance used.
  function Rol1(w: Word): Word { (w << 1) | (w >> 31) }
  function Rol5(w: Word): Word { (w << 5) | (w >> 27) }
  function Rol8(w: Word): Word { (w << 8) | (w >> 24) }
  function Rol24(w: Word): Word { (w << 24) | (w >> 8) }
  function Rol30(w: Word): Word { (w << 30) | (w >> 2) }

  lemma MacroRolRotates(w: Word)
    ensures Rol1(w) == RotL1(w) && Rol5(w) == RotL5(w) && Rol30(w) == RotL30(w)
    ensures Rol8(w) == w.RotateLeft(8) && Rol24(w) == w.RotateLeft(24)
  {
  }

  // The mixing of blk, what a macro adds to its register, and the final additions.
  method Blk(p: Word, q: Word, r: Word, s: Word) returns (w: Word)
    ensures w == RotL1(Xor4(p, q, r, s))
  {
    w := Rol1(p ^ q ^ r ^ s);
    MacroRolRotates(p ^ q ^ r ^ s);
  }

  method AddTo(z: Word, f: Word, word: Word, k: Word, v: Word) returns (z': Word)
    ensures z' == Sum(RotL5(v), f, z, k, word)
  {
    MacroRolRotates(v);
    z' := z + (f + word + k + Rol5(v));
    SumOrder(z, f, word, k, Rol5(v));
  }

  lemma SumOrder(z: Word, f: Word, word: Word, k: Word, r: Word)
    ensures z + (f + word + k + r) == Sum(r, f, z, k, word)
  {
  }

  method AddWord(x: Word, y: Word) returns (z: Word)
    ensures z == Add(x, y)
  {
    z := x + y;
  }

  // A word of the block as a little-endian machine sees it.
  function LittleEndian(b: Block, i: nat): Word
    requires i < 16
  {
    ((b[4 * i + 3] as Word) << 24) | ((b[4 * i + 2] as Word) << 16) | ((b[4 * i + 1] as Word) << 8) | (b[4 * i] as Word)
  }

  function Swap(w: Word): Word {
    (Rol24(w) & 0xFF00FF00) | (Rol8(w) & 0x00FF00FF)
  }

  // The round functions as the macros R0 to R4 write them.
  function MacroF(i: nat, w: Word, x: Word, y: Word): Word {
    if i < 20 then (w & (x ^ y)) ^ y
    else if i < 40 then w ^ x ^ y
    else if i < 60 then ((w | x) & y) | (w & x)
    else w ^ x ^ y
  }

  lemma LoadIsBigEndian(b: Block, i: nat)
    requires i < 16
    ensures Swap(LittleEndian(b, i)) == BigEndian(b, i)
  {
    LoadBytes(b[4 * i], b[4 * i + 1], b[4 * i + 2], b[4 * i + 3]);
  }

  lemma LoadBytes(p: bv8, q: bv8, r: bv8, s: bv8)
    ensures Swap(((s as Word) << 24) | ((r as Word) << 16) | ((q as Word) << 8) | (p as Word))
            == ((p as Word) << 24) | ((q as Word) << 16) | ((r as Word) << 8) | (s as Word)
  {
  }

  lemma ChForm(x: Word, y: Word, z: Word)
    ensures (x & (y ^ z)) ^ z == Ch(x, y, z)
  {
  }

  lemma MajForm(x: Word, y: Word, z: Word)
    ensures ((x | y) & z) | (x & y) == Maj(x, y, z)
  {
  }

  lemma MacroFIsF(i: nat, x: Word, y: Word, z: Word)
    ensures MacroF(i, x, y, z) == F(i, x, y, z)
  {
    ChForm(x, y, z);
    MajForm(x, y, z);
  }

  // Before round i the circular block holds the schedule of the last sixteen rounds;
  // while i < 16 the words not yet used are still the loaded ones.
  ghost predicate Window(l: seq<Word>, b: Block, i: nat) {
    && |l| == 16
    && (forall t :: 0 <= t < i <= t + 16 ==> l[t % 16] == W(b, t))
    && (forall j :: i <= j < 16 ==> l[j] == LittleEndian(b, j))
  }

  // blk0 and blk: produce the word of round i in its slot.
  method Fetch(l: array<Word>, i: nat, ghost b: Block) returns (w: Word)
    requires Window(l[..], b, i)
    modifies l
    ensures w == W(b, i) && Window(l[..], b, i + 1)
  {
    hide LittleEndian, BigEndian, Swap, W, RotL1, Xor4;
    WUnfolds(b, i);
    if i < 16 {
      LoadIsBigEndian(b, i);
      ghost var before := l[..];
      w := Swap(l[i]);
      l[i] := w;
      assert l[..] == before[i := w];
    } else {
      ScheduleSlots(l[..], b, i);
      w := Blk(l[(i + 13) % 16], l[(i + 8) % 16], l[(i + 2) % 16], l[i % 16]);
      ghost var before := l[..];
      l[i % 16] := w;
      assert l[..] == before[i % 16 := w];
      SlotReplaced(before, l[..], b, i);
    }
  }

  lemma WUnfolds(b: Block, t: nat)
    ensures t < 16 ==> W(b, t) == BigEndian(b, t)
    ensures t >= 16 ==> W(b, t) == RotL1(Xor4(W(b, t - 3), W(b, t - 8), W(b, t - 14), W(b, t - 16)))
  {
    hide BigEndian, RotL1, Xor4;
  }

  lemma ScheduleSlots(l: seq<Word>, b: Block, i: nat)
    requires i >= 16 && Window(l, b, i)
    ensures l[(i + 13) % 16] == W(b, i - 3) && l[(i + 8) % 16] == W(b, i - 8)
    ensures l[(i + 2) % 16] == W(b, i - 14) && l[i % 16] == W(b, i - 16)
  {
    hide W;
    assert (i + 13) % 16 == (i - 3) % 16 && (i + 8) % 16 == (i - 8) % 16;
    assert (i + 2) % 16 == (i - 14) % 16 && i % 16 == (i - 16) % 16;
  }

  lemma SlotReplaced(l: seq<Word>, l': seq<Word>, b: Block, i: nat)
    requires i >= 16 && Window(l, b, i) && l' == l[i % 16 := W(b, i)]
    ensures Window(l', b, i + 1)
  {
    hide W;
    forall t | 0 <= t < i + 1 <= t + 16
      ensures l'[t % 16] == W(b, t)
    {
      if t < i {
        assert t % 16 != i % 16;
      }
    }
  }

  // One macro call: adds to z, rotates w.
  method R(l: array<Word>, i: nat, v: Word, w: Word, x: Word, y: Word, z: Word, ghost b: Block)
    returns (w': Word, z': Word)
    requires Window(l[..], b, i)
    modifies l
    ensures Window(l[..], b, i + 1)
    ensures Regs(z', v, w', x, y) == Round(b, i, Regs(v, w, x, y, z))
  {
    hide W, Window, F, MacroF, K, RotL5, Rol30, RotL30, Sum;
    var word := Fetch(l, i, b);
    MacroFIsF(i, w, x, y);
    z' := AddTo(z, MacroF(i, w, x, y), word, K(i), v);
    w' := Rol30(w);
    MacroRolRotates(w);
  }

  // Five macro calls: each register has played each role once.
  method Five(l: array<Word>, i: nat, r: Regs, ghost b: Block, ghost h: Regs) returns (r': Regs)
    requires Window(l[..], b, i) && r == Rounds(b, i, h)
    modifies l
    ensures Window(l[..], b, i + 5) && r' == Rounds(b, i + 5, h)
  {
    hide Window, Round, Rounds;
    RoundsStep(b, i, h);
    RoundsStep(b, i + 1, h);
    RoundsStep(b, i + 2, h);
    RoundsStep(b, i + 3, h);
    RoundsStep(b, i + 4, h);
    var a, b', c, d, e := r.a, r.b, r.c, r.d, r.e;
    b', e := R(l, i, a, b', c, d, e, b);
    a, d := R(l, i + 1, e, a, b', c, d, b);
    e, c := R(l, i + 2, d, e, a, b', c, b);
    d, b' := R(l, i + 3, c, d, e, a, b', b);
    c, a := R(l, i + 4, b', c, d, e, a, b);
    r' := Regs(a, b', c, d, e);
  }

  // The eighty rounds and the final addition. The source's unrolled lines repeat one
  // pattern of five calls, written once in Five.
  method SHA1Transform(state: array<Word>, buffer: Block)
    requires state.Length == 5
    modifies state
    ensures Abs(state[..]) == Compress(old(Abs(state[..])), buffer)
  {
    hide Rounds, Window, LittleEndian, Plus;
    var l := new Word[16](i requires 0 <= i < 16 => LittleEndian(buffer, i));
    LoadedWindow(l[..], buffer);
    var r := EightyRounds(l, Regs(state[0], state[1], state[2], state[3], state[4]), buffer);
    AddBack(state, r);
  }

  method EightyRounds(l: array<Word>, h: Regs, ghost b: Block) returns (r: Regs)
    requires Window(l[..], b, 0)
    modifies l
    ensures r == Rounds(b, 80, h)
  {
    hide Rounds, Window;
    NoRounds(b, h);
    r := Five(l, 0, h, b, h);
    r := Five(l, 5, r, b, h);
    r := Five(l, 10, r, b, h);
    r := Five(l, 15, r, b, h);
    r := Five(l, 20, r, b, h);
    r := Five(l, 25, r, b, h);
    r := Five(l, 30, r, b, h);
    r := Five(l, 35, r, b, h);
    r := Five(l, 40, r, b, h);
    r := Five(l, 45, r, b, h);
    r := Five(l, 50, r, b, h);
    r := Five(l, 55, r, b, h);
    r := Five(l, 60, r, b, h);
    r := Five(l, 65, r, b, h);
    r := Five(l, 70, r, b, h);
    r := Five(l, 75, r, b, h);
  }

  method AddBack(state: array<Word>, r: Regs)
    requires state.Length == 5
    modifies state
    ensures Abs(state[..]) == Plus(old(Abs(state[..])), r)
  {
    hide Add;
    state[0] := AddWord(state[0], r.a);
    state[1] := AddWord(state[1], r.b);
    state[2] := AddWord(state[2], r.c);
    state[3] := AddWord(state[3], r.d);
    state[4] := AddWord(state[4], r.e);
  }

  lemma RoundsStep(b: Block, n: nat, h: Regs)
    ensures Rounds(b, n + 1, h) == Round(b, n, Rounds(b, n, h))
  {
    hide Round;
  }

  ghost function Abs(s: seq<Word>): (r: Regs)
    requires |s| == 5
  {
    Regs(s[0], s[1], s[2], s[3], s[4])
  }

  lemma LoadedWindow(l: seq<Word>, b: Block)
    requires |l| == 16 && forall j :: 0 <= j < 16 ==> l[j] == LittleEndian(b, j)
    ensures Window(l, b, 0)
  {
  }

  lemma NoRounds(b: Block, h: Regs)
    ensures Rounds(b, 0, h) == h
  {
  }
}
