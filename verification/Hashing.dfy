/** The hash of a key and its reduction to a bucket index. */
module Hashing {
  import opened Bytes

  const HASH_RANGE: nat := 0x1_0000_0000

  // hash * 33 + c in 32-bit arithmetic, over the bytes of the key.
  function HashFrom(hash: nat, key: seq<byte>): (h: nat)
    requires hash < HASH_RANGE
    ensures h < HASH_RANGE
    decreases key
  {
    if key == [] then hash else HashFrom((hash * 32 + hash + key[0]) % HASH_RANGE, key[1..])
  }

  function Hash(key: seq<byte>): (h: nat)
    ensures h < HASH_RANGE
  {
    HashFrom(5381, key)
  }

  // 5381 * 33^n + k0 * 33^(n-1) + ... + k(n-1), for a key of n bytes.
  function Polynomial(key: seq<byte>): nat {
    if key == [] then 5381 else Polynomial(key[..|key| - 1]) * 33 + key[|key| - 1]
  }

  lemma {:induction false} HashFromAppend(hash: nat, key: seq<byte>, last: byte)
    requires hash < HASH_RANGE
    ensures HashFrom(hash, key + [last]) == (HashFrom(hash, key) * 33 + last) % HASH_RANGE
    decreases key
  {
    if key == [] {
      assert [last][1..] == [];
    } else {
      assert (key + [last])[1..] == key[1..] + [last];
      HashFromAppend((hash * 32 + hash + key[0]) % HASH_RANGE, key[1..], last);
    }
  }

  // The hash of a key is that polynomial, to 32 bits.
  lemma {:induction false} HashIsPolynomial(key: seq<byte>)
    ensures Hash(key) == Polynomial(key) % 0x1_0000_0000
  {
    if key != [] {
      var front, last := key[..|key| - 1], key[|key| - 1];
      HashIsPolynomial(front);
      assert key == front + [last];
      HashFromAppend(5381, front, last);
      Times33(Polynomial(front), last);
    }
  }

  lemma Times33(n: nat, b: nat)
    ensures (n % 0x1_0000_0000 * 33 + b) % 0x1_0000_0000 == (n * 33 + b) % 0x1_0000_0000
  {
    var q, r := n / 0x1_0000_0000, n % 0x1_0000_0000;
    assert n * 33 + b == r * 33 + b + 33 * q * 0x1_0000_0000;
  }

  function BitAnd(a: nat, b: nat): (r: nat) {
    if a == 0 || b == 0 then 0 else (a % 2) * (b % 2) + 2 * BitAnd(a / 2, b / 2)
  }

  function Pow2(k: nat): (p: nat)
    ensures p > 0
  {
    if k == 0 then 1 else 2 * Pow2(k - 1)
  }

  ghost predicate IsPow2(n: nat) {
    exists k: nat :: n == Pow2(k)
  }

  // The next power of two after one is its double.
  lemma {:induction false} Pow2Gap(j: nat, k: nat)
    requires Pow2(j) < Pow2(k)
    ensures 2 * Pow2(j) <= Pow2(k)
    decreases j + k
  {
    if j > 0 && k > 0 {
      Pow2Gap(j - 1, k - 1);
    }
  }

  lemma {:induction false} Pow2Adds(j: nat, k: nat)
    ensures Pow2(j + k) == Pow2(j) * Pow2(k)
  {
    if j > 0 {
      Pow2Adds(j - 1, k);
    }
  }

  lemma DoubleFits(n: nat, max: nat)
    requires IsPow2(n) && IsPow2(max) && n < max
    ensures 2 * n <= max
  {
    var j: nat :| n == Pow2(j);
    var k: nat :| max == Pow2(k);
    Pow2Gap(j, k);
  }

  lemma Doubled(n: nat)
    requires IsPow2(n)
    ensures IsPow2(2 * n)
  {
    var k: nat :| n == Pow2(k);
    assert Pow2(k + 1) == 2 * n;
  }

  // Masking with a power of two less one is the remainder.
  lemma {:induction false} MaskIsMod(h: nat, k: nat)
    ensures BitAnd(h, Pow2(k) - 1) == h % Pow2(k)
  {
    if k > 0 {
      var p := Pow2(k - 1);
      MaskIsMod(h / 2, k - 1);
      MaskStep(h, p);
      HalfMod(h, p);
    }
  }

  // A mask of all ones keeps the lowest bit and masks the others.
  lemma MaskStep(h: nat, p: nat)
    requires p > 0
    ensures BitAnd(h, 2 * p - 1) == h % 2 + 2 * BitAnd(h / 2, p - 1)
  {
    assert (2 * p - 1) / 2 == p - 1 && (2 * p - 1) % 2 == 1;
  }

  lemma HalfMod(h: nat, p: nat)
    requires p > 0
    ensures h % (2 * p) == h % 2 + 2 * (h / 2 % p)
  {
    var q, r := h / 2 / p, h / 2 % p;
    assert h / 2 == q * p + r;
    assert h == (2 * p) * q + (2 * r + h % 2);
    ModIs(h, 2 * p, q, 2 * r + h % 2);
  }

  lemma ModIs(a: nat, m: nat, q: nat, r: nat)
    requires m > 0 && a == m * q + r && r < m
    ensures a % m == r
  {
    var q', r' := a / m, a % m;
    assert a == m * q' + r';
    if q < q' {
      Grows(m, q, q');
    } else if q' < q {
      Grows(m, q', q);
    }
  }

  lemma Grows(m: nat, q: nat, q': nat)
    requires q < q'
    ensures m * q + m <= m * q'
  {
    assert m * q' == m * q + m * (q' - q);
    assert m * (q' - q) == m + m * (q' - q - 1);
  }

  function Bucket(key: seq<byte>, size: nat): (b: nat)
    requires size > 0
  {
    BitAnd(Hash(key), size - 1)
  }

  lemma BucketInRange(key: seq<byte>, size: nat)
    requires IsPow2(size)
    ensures Bucket(key, size) < size
  {
    var k: nat :| size == Pow2(k);
    MaskIsMod(Hash(key), k);
  }
}
