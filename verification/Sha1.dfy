/** Streaming SHA-1: however a message is split into updates, the digest is that of the
    padded message of section 5.1.1 of FIPS 180-4. */
module Sha1 {
  import opened Sha1Block

  type Bytes = seq<bv8>

  const WORD_RANGE: nat := 0x1_0000_0000
  const COUNT_RANGE: nat := 0x1_0000_0000_0000_0000

  const H0 := Regs(0x67452301, 0xEFCDAB89, 0x98BADCFE, 0x10325476, 0xC3D2E1F0)

  // Written least significant byte first, the first two words count up from 01 to ef and the next two down
  // from fe to 10 in steps of 22; the last one counts down from f0 in steps of 0f.
  lemma InitialBytes()
    ensures H0.a as int == Bytes4(0x01, 0x22) && H0.b as int == Bytes4(0x01 + 4 * 0x22, 0x22)
    ensures H0.c as int == Bytes4(0xfe, -0x22) && H0.d as int == Bytes4(0xfe - 4 * 0x22, -0x22)
    ensures H0.e as int == Bytes4(0xf0, -0x0f)
  {
  }

  // Four bytes in arithmetic progression, the first of them least significant.
  function Bytes4(first: int, step: int): int {
    first + (first + step) * 0x100 + (first + 2 * step) * 0x1_0000 + (first + 3 * step) * 0x100_0000
  }

  // --- the standard ---

  // Compress block after block.
  function Fold(m: Bytes): (r: Regs)
    requires |m| % 64 == 0
  {
    if m == [] then H0 else Compress(Fold(m[..|m| - 64]), m[|m| - 64..])
  }

  // The base-256 digit of weight 256^k.
  function Digit256(n: nat, k: nat): (d: nat)
    requires k < 8
    ensures d < 256
  {
    n / (match k case 0 => 1 case 1 => 0x100 case 2 => 0x1_0000 case 3 => 0x100_0000
         case 4 => 0x1_0000_0000 case 5 => 0x100_0000_0000 case 6 => 0x1_0000_0000_0000
         case _ => 0x100_0000_0000_0000) % 256
  }

  function ByteAt(n: nat, k: nat): bv8
    requires k < 8
  {
    Digit256(n, k) as bv8
  }

  function BigEndian64(n: nat): (s: Bytes)
    ensures |s| == 8
  {
    [ByteAt(n, 7), ByteAt(n, 6), ByteAt(n, 5), ByteAt(n, 4), ByteAt(n, 3), ByteAt(n, 2), ByteAt(n, 1), ByteAt(n, 0)]
  }

  // The eight digits of a 64-bit number make it up.
  lemma DigitsJoin(n: nat)
    requires n < COUNT_RANGE
    ensures var high := ((Digit256(n, 7) * 0x100 + Digit256(n, 6)) * 0x100 + Digit256(n, 5)) * 0x100 + Digit256(n, 4);
            var low := ((Digit256(n, 3) * 0x100 + Digit256(n, 2)) * 0x100 + Digit256(n, 1)) * 0x100 + Digit256(n, 0);
            high * 0x1_0000_0000 + low == n
  {
    hide Digit256;
    NextDigit(n, 0x1);
    NextDigit(n, 0x100);
    NextDigit(n, 0x1_0000);
    NextDigit(n, 0x100_0000);
    NextDigit(n, 0x1_0000_0000);
    NextDigit(n, 0x100_0000_0000);
    NextDigit(n, 0x1_0000_0000_0000);
    DigitQuotients(n);
  }

  lemma DigitQuotients(n: nat)
    ensures Digit256(n, 0) == n % 0x100 && Digit256(n, 1) == n / 0x100 % 0x100
    ensures Digit256(n, 2) == n / 0x1_0000 % 0x100 && Digit256(n, 3) == n / 0x100_0000 % 0x100
    ensures Digit256(n, 4) == n / 0x1_0000_0000 % 0x100 && Digit256(n, 5) == n / 0x100_0000_0000 % 0x100
    ensures Digit256(n, 6) == n / 0x1_0000_0000_0000 % 0x100
    ensures n < COUNT_RANGE ==> Digit256(n, 7) == n / 0x100_0000_0000_0000
  {
  }

  lemma NextDigit(n: nat, m: nat)
    requires m > 0
    ensures n / m == n / (0x100 * m) * 0x100 + n / m % 0x100
  {
    var q, r := n / m / 0x100, n / m % 0x100;
    Distributed(q * 0x100, r, m);
    Bounded(r, n % m, m);
    DivIs(n, 0x100 * m, q, r * m + n % m);
  }

  lemma Distributed(x: nat, r: nat, m: nat)
    ensures (x + r) * m == x * m + r * m
  {
  }

  lemma Bounded(r: nat, t: nat, m: nat)
    requires r < 0x100 && t < m
    ensures r * m + t < 0x100 * m
  {
    Distributed(r, 0xff - r, m);
  }

  function Zeros(n: nat): (s: Bytes)
    ensures |s| == n
  {
    seq(n, _ => 0)
  }

  // The least k with n + 1 + k bytes leaving room for exactly the length in the last block.
  function ZeroCount(n: nat): (k: nat)
    ensures k < 64 && (n + 1 + k) % 64 == 56
  {
    if n % 64 < 56 then 55 - n % 64 else 119 - n % 64
  }

  // The message, a one bit, zeros, and the message length in bits.
  function Pad(m: Bytes): (p: Bytes)
    ensures |p| == |m| + 9 + ZeroCount(|m|)
  {
    m + [0x80] + Zeros(ZeroCount(|m|)) + BigEndian64(BitCount(|m|))
  }

  function BitCount(bytes: nat): (n: nat)
    ensures n < COUNT_RANGE
  {
    8 * bytes % COUNT_RANGE
  }

  lemma ZerosFill(n: nat, k: nat)
    ensures (n + 9 + ZeroCount(n)) % 64 == 0
    ensures (n + 9 + k) % 64 == 0 ==> ZeroCount(n) <= k
  {
    var q, z := n / 64, ZeroCount(n);
    assert n + 9 + z == 64 * (if n % 64 < 56 then q + 1 else q + 2);
    if (n + 9 + k) % 64 == 0 {
      var t := (n + 9 + k) / 64;
      assert n + 9 + k == 64 * t;
    }
  }

  // The padded message is a whole number of blocks, and no smaller number of zeros makes it so.
  lemma PadIsWhole(m: Bytes, k: nat)
    ensures |Pad(m)| % 64 == 0
    ensures (|m| + 9 + k) % 64 == 0 ==> |Pad(m)| <= |m| + 9 + k
  {
    hide ZeroCount;
    ZerosFill(|m|, k);
  }

  function WordBytes(w: Word): (s: Bytes)
    ensures |s| == 4
  {
    [((w >> 24) & 255) as bv8, ((w >> 16) & 255) as bv8, ((w >> 8) & 255) as bv8, (w & 255) as bv8]
  }

  // The four bytes, most significant first, make up the word.
  lemma WordBytesJoin(w: Word)
    ensures var s := WordBytes(w);
            ((s[0] as Word) << 24) | ((s[1] as Word) << 16) | ((s[2] as Word) << 8) | (s[3] as Word) == w
  {
  }

  function RegsBytes(r: Regs): (s: Bytes)
    ensures |s| == 20
  {
    WordBytes(r.a) + WordBytes(r.b) + WordBytes(r.c) + WordBytes(r.d) + WordBytes(r.e)
  }

  function Digest(m: Bytes): (s: Bytes)
    ensures |s| == 20
  {
    PadIsWhole(m, 0);
    RegsBytes(Fold(Pad(m)))
  }

  // --- counting ---

  // The two counters as one number, and that number as the bit count modulo 2^64.
  ghost predicate Counts(count0: nat, count1: nat, bytes: nat) {
    count0 < WORD_RANGE && count1 < WORD_RANGE && count1 * WORD_RANGE + count0 == 8 * bytes % COUNT_RANGE
  }

  // Below 2^64 bits the counters hold the exact count.
  lemma CountsExact(count0: nat, count1: nat, bytes: nat)
    requires Counts(count0, count1, bytes) && 8 * bytes < COUNT_RANGE
    ensures count1 * WORD_RANGE + count0 == 8 * bytes
  {
  }

  lemma LowCounter(count0: nat, count1: nat, bytes: nat)
    requires Counts(count0, count1, bytes)
    ensures count0 == 8 * bytes % WORD_RANGE
    ensures count0 / 8 % 64 == bytes % 64 && count0 % 8 == 0
    ensures count0 % 512 == 8 * (bytes % 64)
  {
    var q := 8 * bytes / COUNT_RANGE;
    var s := q * WORD_RANGE + count1;
    assert 8 * bytes == q * COUNT_RANGE + count1 * WORD_RANGE + count0;
    assert 8 * bytes == s * WORD_RANGE + count0;
    LowBits(count0, s, bytes);
  }

  lemma LowBits(count0: nat, s: nat, bytes: nat)
    requires 8 * bytes == s * WORD_RANGE + count0 && count0 < WORD_RANGE
    ensures count0 == 8 * bytes % WORD_RANGE
    ensures count0 / 8 % 64 == bytes % 64 && count0 % 8 == 0
    ensures count0 % 512 == 8 * (bytes % 64)
  {
    var c := bytes - s * 0x2000_0000;
    assert count0 == 8 * c;
    var q, r := c / 64, c % 64;
    assert bytes == 64 * (s * 0x80_0000 + q) + r;
    assert count0 == 512 * q + 8 * r;
  }

  lemma CounterAdds(count0: nat, count1: nat, bytes: nat, len: nat)
    requires Counts(count0, count1, bytes) && len < WORD_RANGE
    ensures var low := (count0 + 8 * len % WORD_RANGE) % WORD_RANGE;
            var carry := if low < count0 then 1 else 0;
            Counts(low, (count1 + carry + len / 0x2000_0000) % WORD_RANGE, bytes + len)
  {
    var shifted, high := 8 * len % WORD_RANGE, len / 0x2000_0000;
    assert 8 * len == high * WORD_RANGE + shifted;
    var low := (count0 + shifted) % WORD_RANGE;
    var carry := if low < count0 then 1 else 0;
    assert count0 + shifted == carry * WORD_RANGE + low;
    var top := count1 + carry + high;
    var q := 8 * bytes / COUNT_RANGE;
    assert 8 * bytes == q * COUNT_RANGE + count1 * WORD_RANGE + count0;
    assert 8 * (bytes + len) == q * COUNT_RANGE + top * WORD_RANGE + low;
    var t := top / WORD_RANGE;
    assert top * WORD_RANGE == t * COUNT_RANGE + top % WORD_RANGE * WORD_RANGE;
    assert 8 * (bytes + len) == (q + t) * COUNT_RANGE + (top % WORD_RANGE * WORD_RANGE + low);
    Remainder(8 * (bytes + len), q + t, top % WORD_RANGE * WORD_RANGE + low);
  }

  lemma Remainder(a: nat, q: nat, r: nat)
    requires a == q * COUNT_RANGE + r && r < COUNT_RANGE
    ensures a % COUNT_RANGE == r
  {
  }

  // --- the source ---

  // Bytes of msg that fill whole blocks.
  function Whole(n: nat): (w: nat)
    ensures w <= n && w % 64 == 0 && n - w == n % 64
  {
    n - n % 64
  }

  class Context {
    const state: array<Word>
    const buffer: array<bv8>
    var count0: nat
    var count1: nat
    // All bytes given to Update so far.
    ghost var msg: Bytes

    ghost predicate Valid()
      reads this, state, buffer
    {
      && state.Length == 5 && buffer.Length == 64
      && Counts(count0, count1, |msg|)
      && Abs(state[..]) == Fold(msg[..Whole(|msg|)])
      && buffer[..|msg| % 64] == msg[Whole(|msg|)..]
    }

    constructor ()
      ensures Valid() && fresh(state) && fresh(buffer) && msg == []
    {
      state := new Word[5];
      buffer := new bv8[64];
      count0, count1, msg := 0, 0, [];
      new;
      state[0], state[1], state[2], state[3], state[4] := 0x67452301, 0xEFCDAB89, 0x98BADCFE, 0x10325476, 0xC3D2E1F0;
    }

    // Copy into the buffer from index j on.
    method CopyToBuffer(j: nat, src: Bytes)
      requires buffer.Length == 64 && j + |src| <= 64
      modifies buffer
      ensures buffer[..j + |src|] == old(buffer[..j]) + src
    {
      forall i | 0 <= i < |src| {
        buffer[j + i] := src[i];
      }
      assert buffer[..j] == old(buffer[..j]) && buffer[j..j + |src|] == src;
    }

    method Update(data: Bytes)
      requires Valid() && |data| <= WORD_RANGE - 64
      modifies this, state, buffer
      ensures Valid() && msg == old(msg) + data
    {
      hide Fold, Counts, Abs, Compress;
      var j := Count(|data|);
      var i := 0;
      if j + |data| > 63 {
        i := Absorb(data, j);
        TailMoves(msg, data, i);
        j := 0;
      } else {
        TailGrows(msg, data);
      }
      CopyToBuffer(j, data[i..]);
      msg := msg + data;
    }

    // Add len bytes to the two counters; returns how many bytes the buffer held before.
    method Count(len: nat) returns (j: nat)
      requires Counts(count0, count1, |msg|) && len < WORD_RANGE
      modifies this`count0, this`count1
      ensures Counts(count0, count1, |msg| + len) && j == |msg| % 64
    {
      hide Counts;
      LowCounter(count0, count1, |msg|);
      CounterAdds(count0, count1, |msg|, len);
      j := count0;
      count0 := (count0 + 8 * len % WORD_RANGE) % WORD_RANGE;
      if count0 < j {
        count1 := count1 + 1;
      }
      count1 := (count1 + len / 0x2000_0000) % WORD_RANGE;
      j := j / 8 % 64;
    }

    // Complete the buffered block, then compress the whole blocks that follow.
    method Absorb(data: Bytes, j: nat) returns (i: nat)
      requires state.Length == 5 && buffer.Length == 64
      requires j == |msg| % 64 && j + |data| > 63
      requires Abs(state[..]) == Fold(msg[..Whole(|msg|)]) && buffer[..j] == msg[Whole(|msg|)..]
      modifies state, buffer
      ensures i <= |data| < i + 64 && (|msg| + i) % 64 == 0
      ensures Abs(state[..]) == Fold((msg + data)[..|msg| + i])
    {
      hide Fold, Abs, Compress;
      i := 64 - j;
      CopyToBuffer(j, data[..i]);
      FoldFirst(msg, data, i, buffer[..]);
      SHA1Transform(state, buffer[..]);
      while i + 63 < |data|
        invariant i <= |data| && (|msg| + i) % 64 == 0
        invariant Abs(state[..]) == Fold((msg + data)[..|msg| + i])
      {
        FoldNext(msg, data, i);
        SHA1Transform(state, data[i..i + 64]);
        i := i + 64;
      }
    }

    // finalcount: the two counters, most significant byte first.
    method FinalCount() returns (finalcount: Bytes)
      requires Counts(count0, count1, |msg|)
      ensures finalcount == BigEndian64(BitCount(|msg|))
    {
      hide ByteAt, BigEndian64;
      finalcount := [];
      for i := 0 to 8
        invariant |finalcount| == i
        invariant forall k :: 0 <= k < i ==> finalcount[k] == ByteAt(if k >= 4 then count0 else count1, 3 - k % 4)
      {
        finalcount := finalcount + [ByteAt(if i >= 4 then count0 else count1, 3 - i % 4)];
      }
      CounterBytes(count0, count1);
      assert count1 * WORD_RANGE + count0 == BitCount(|msg|);
    }

    // count0 & 504, bits 3 to 8 of the low counter, is eight times the number of bytes buffered.
    lemma LengthBits()
      requires Valid()
      ensures count0 % 512 - count0 % 8 == 8 * (|msg| % 64)
    {
      hide Fold, Counts, Abs;
      LowCounter(count0, count1, |msg|);
    }

    // A one bit, then zeros until the length fits in the block.
    method PadBlock()
      requires Valid()
      modifies this, state, buffer
      ensures Valid() && msg == old(msg) + [0x80] + Zeros(ZeroCount(|old(msg)|))
    {
      hide Context.Valid, Zeros, ZeroCount;
      ghost var m, k := msg, 0;
      Update([0x80]);
      LengthBits();
      ZerosNeeded(|m|, 0);
      ZerosGrow(0);
      while count0 % 512 - count0 % 8 != 448
        invariant Valid() && k <= ZeroCount(|m|) && msg == m + [0x80] + Zeros(k)
        invariant count0 % 512 - count0 % 8 == 8 * (|msg| % 64)
        decreases ZeroCount(|m|) - k
      {
        ZerosNeeded(|m|, k);
        ZerosGrow(k);
        Update([0]);
        k := k + 1;
        assert msg == m + [0x80] + Zeros(k);
        LengthBits();
      }
      ZerosNeeded(|m|, k);
    }

    method Final() returns (digest: Bytes)
      requires Valid()
      modifies this, state, buffer
      ensures digest == Digest(old(msg))
    {
      hide Fold, Counts, Abs, Compress, BigEndian64, BitCount, Pad, WordBytes, Zeros, ZeroCount;
      ghost var m := msg;
      var finalcount := FinalCount();
      PadBlock();
      Update(finalcount);
      Padded(m, finalcount);
      assert msg[..Whole(|msg|)] == msg;
      digest := PrintState();
    }

    // The five words of the state, most significant byte first.
    method PrintState() returns (digest: Bytes)
      requires state.Length == 5
      ensures digest == RegsBytes(Abs(state[..]))
    {
      digest := [];
      for i := 0 to 5
        invariant digest == (match i case 0 => [] case 1 => WordBytes(state[0])
                                     case 2 => WordBytes(state[0]) + WordBytes(state[1])
                                     case 3 => WordBytes(state[0]) + WordBytes(state[1]) + WordBytes(state[2])
                                     case 4 => WordBytes(state[0]) + WordBytes(state[1]) + WordBytes(state[2])
                                               + WordBytes(state[3])
                                     case _ => RegsBytes(Abs(state[..])))
      {
        digest := digest + WordBytes(state[i]);
      }
    }
  }

  lemma DivIs(n: nat, m: nat, q: nat, r: nat)
    requires n == q * m + r && r < m
    ensures n / m == q
  {
    var d := n / m - q;
    assert d * m == r - n % m;
    assert -1 * m < d * m < 1 * m;
  }

  // Words shifted right by whole bytes, and joined into 64 bits.
  lemma ShiftHigh(count0: nat, count1: nat, m: nat)
    requires count0 < WORD_RANGE && m > 0
    ensures (count1 * WORD_RANGE + count0) / (WORD_RANGE * m) == count1 / m
  {
    var q, r := count1 / m, count1 % m;
    assert count1 * WORD_RANGE == q * (WORD_RANGE * m) + r * WORD_RANGE;
    assert r * WORD_RANGE + count0 < WORD_RANGE * m;
    DivIs(count1 * WORD_RANGE + count0, WORD_RANGE * m, q, r * WORD_RANGE + count0);
  }

  lemma ShiftLow(count0: nat, count1: nat, m: nat, p: nat)
    requires m > 0 && m * p * 256 == WORD_RANGE
    ensures (count1 * WORD_RANGE + count0) / m % 256 == count0 / m % 256
  {
    var q, r := count0 / m, count0 % m;
    var high := count1 * p;
    assert count1 * WORD_RANGE == high * 256 * m;
    assert count1 * WORD_RANGE + count0 == (high * 256 + q) * m + r;
    DivIs(count1 * WORD_RANGE + count0, m, high * 256 + q, r);
  }

  // The digits of the 64-bit count are those of the high word above those of the low word.
  lemma CounterDigit(count0: nat, count1: nat, k: nat)
    requires count0 < WORD_RANGE && count1 < WORD_RANGE && k < 4
    ensures Digit256(count1 * WORD_RANGE + count0, k + 4) == Digit256(count1, k)
    ensures Digit256(count1 * WORD_RANGE + count0, k) == Digit256(count0, k)
  {
    match k
    case 0 => ShiftHigh(count0, count1, 1); ShiftLow(count0, count1, 1, 0x100_0000);
    case 1 => ShiftHigh(count0, count1, 0x100); ShiftLow(count0, count1, 0x100, 0x1_0000);
    case 2 => ShiftHigh(count0, count1, 0x1_0000); ShiftLow(count0, count1, 0x1_0000, 0x100);
    case _ => ShiftHigh(count0, count1, 0x100_0000); ShiftLow(count0, count1, 0x100_0000, 1);
  }

  lemma CounterByte(count0: nat, count1: nat, k: nat)
    requires count0 < WORD_RANGE && count1 < WORD_RANGE && k < 4
    ensures ByteAt(count1 * WORD_RANGE + count0, k + 4) == ByteAt(count1, k)
    ensures ByteAt(count1 * WORD_RANGE + count0, k) == ByteAt(count0, k)
  {
    hide Digit256;
    CounterDigit(count0, count1, k);
  }

  lemma CounterBytes(count0: nat, count1: nat)
    requires count0 < WORD_RANGE && count1 < WORD_RANGE
    ensures BigEndian64(count1 * WORD_RANGE + count0)
            == [ByteAt(count1, 3), ByteAt(count1, 2), ByteAt(count1, 1), ByteAt(count1, 0),
                ByteAt(count0, 3), ByteAt(count0, 2), ByteAt(count0, 1), ByteAt(count0, 0)]
  {
    hide ByteAt;
    CounterByte(count0, count1, 0);
    CounterByte(count0, count1, 1);
    CounterByte(count0, count1, 2);
    CounterByte(count0, count1, 3);
  }

  lemma ZerosGrow(k: nat)
    ensures Zeros(0) == [] && Zeros(k) + [0] == Zeros(k + 1)
  {
  }

  // Zeros are added exactly until the length fits.
  lemma ZerosNeeded(n: nat, k: nat)
    requires k <= ZeroCount(n)
    ensures (n + 1 + k) % 64 == 56 <==> k == ZeroCount(n)
  {
  }

  lemma Padded(m: Bytes, length: Bytes)
    requires length == BigEndian64(BitCount(|m|))
    ensures m + [0x80] + Zeros(ZeroCount(|m|)) + length == Pad(m) && |Pad(m)| % 64 == 0
  {
    PadIsWhole(m, 0);
  }

  // What is buffered once data has followed msg, with and without a whole block in between.
  lemma TailGrows(msg: Bytes, data: Bytes)
    requires |msg| % 64 + |data| <= 63
    ensures var all := msg + data;
            && Whole(|all|) == Whole(|msg|) && |all| % 64 == |msg| % 64 + |data|
            && all[Whole(|all|)..] == msg[Whole(|msg|)..] + data && all[..Whole(|all|)] == msg[..Whole(|msg|)]
  {
  }

  lemma TailMoves(msg: Bytes, data: Bytes, i: nat)
    requires i <= |data| < i + 64 && (|msg| + i) % 64 == 0
    ensures var all := msg + data;
            Whole(|all|) == |msg| + i && all[|msg| + i..] == data[i..] && |all| % 64 == |data| - i
  {
    var q, all := (|msg| + i) / 64, msg + data;
    assert |all| == 64 * q + (|data| - i);
    assert |all| % 64 == |data| - i;
  }

  lemma FoldStep(m: Bytes, n: nat, b: Block)
    requires n % 64 == 0 && n + 64 <= |m| && m[n..n + 64] == b
    ensures Fold(m[..n + 64]) == Compress(Fold(m[..n]), b)
  {
    hide Compress;
    assert m[..n + 64][..n] == m[..n] && m[..n + 64][n..] == b;
  }

  // The block completed from the buffer, and each later one.
  lemma FoldFirst(msg: Bytes, data: Bytes, i: nat, b: Block)
    requires i <= |data| && i + |msg| % 64 == 64 && b == msg[Whole(|msg|)..] + data[..i]
    ensures (|msg| + i) % 64 == 0
    ensures Fold((msg + data)[..|msg| + i]) == Compress(Fold(msg[..Whole(|msg|)]), b)
  {
    hide Fold, Compress;
    var all, w := msg + data, Whole(|msg|);
    assert |msg| + i == w + 64;
    assert all[w..w + 64] == b;
    assert all[..w] == msg[..w];
    FoldStep(all, w, b);
  }

  lemma FoldNext(msg: Bytes, data: Bytes, i: nat)
    requires i + 64 <= |data| && (|msg| + i) % 64 == 0
    ensures Fold((msg + data)[..|msg| + i + 64]) == Compress(Fold((msg + data)[..|msg| + i]), data[i..i + 64])
  {
    hide Fold, Compress;
    assert (msg + data)[|msg| + i..|msg| + i + 64] == data[i..i + 64];
    FoldStep(msg + data, |msg| + i, data[i..i + 64]);
  }

  // A client: any message, in any pieces.
  method DigestPieces(pieces: seq<Bytes>) returns (digest: Bytes)
    requires forall i :: 0 <= i < |pieces| ==> |pieces[i]| <= WORD_RANGE - 64
    ensures digest == Digest(Join(pieces))
  {
    hide Digest;
    var context := new Context();
    assert pieces[..0] == [];
    for i := 0 to |pieces|
      invariant context.Valid() && fresh(context) && fresh(context.state) && fresh(context.buffer)
      invariant context.msg == Join(pieces[..i])
    {
      assert pieces[..i + 1][..i] == pieces[..i];
      context.Update(pieces[i]);
    }
    assert pieces[..|pieces|] == pieces;
    digest := context.Final();
  }

  function Join(pieces: seq<Bytes>): (m: Bytes) {
    if pieces == [] then [] else Join(pieces[..|pieces| - 1]) + pieces[|pieces| - 1]
  }
}
