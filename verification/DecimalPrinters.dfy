/** The decimal printers and the digit counters: each equals the canonical form of Decimal. */
module DecimalPrinters {
  import opened Bytes
  import opened Decimal

  // --- lengths ---

  function Pow10(k: nat): (p: nat)
    ensures p > 0
  {
    if k == 0 then 1 else 10 * Pow10(k - 1)
  }

  // A number has exactly k digits when it lies between the powers of ten around it.
  lemma {:induction false} LengthByPowers(v: nat, k: nat)
    requires k > 0 && v < Pow10(k) && (k > 1 ==> Pow10(k - 1) <= v)
    ensures |Digits(v)| == k
  {
    if k > 1 {
      assert k > 2 ==> Pow10(k - 1) == 10 * Pow10(k - 2);
      assert k == 2 ==> Pow10(1) == 10 * Pow10(0);
      LengthByPowers(v / 10, k - 1);
    } else {
      assert Pow10(1) == 10 * Pow10(0);
    }
  }

  lemma {:induction false} PowersByLength(v: nat)
    ensures v < Pow10(|Digits(v)|)
    ensures v >= 10 ==> Pow10(|Digits(v)| - 1) <= v
  {
    if v >= 10 {
      PowersByLength(v / 10);
      var k := |Digits(v / 10)|;
      assert Pow10(k + 1) == 10 * Pow10(k);
      if v / 10 < 10 {
        assert Pow10(1) == 10 * Pow10(0);
      }
    } else {
      assert Pow10(1) == 10 * Pow10(0);
    }
  }

  lemma {:induction false} Pow10Adds(j: nat, k: nat)
    ensures Pow10(j + k) == Pow10(j) * Pow10(k)
  {
    if j > 0 {
      Pow10Adds(j - 1, k);
    }
  }

  // Cutting k digits off the right shortens the text by k.
  lemma {:induction false} LengthAfterCut(v: nat, k: nat)
    requires v >= Pow10(k)
    ensures |Digits(v)| == k + |Digits(v / Pow10(k))|
  {
    var w := v / Pow10(k);
    var d := |Digits(w)|;
    PowersByLength(w);
    Pow10Adds(d, k);
    Pow10Adds(d - 1, k);
    Sandwich(v, Pow10(k), Pow10(d - 1), Pow10(d));
    LengthByPowers(v, d + k);
  }

  lemma Sandwich(v: nat, p: nat, low: nat, high: nat)
    requires 0 < p <= v
    requires v / p < high && (low <= v / p || low == 1)
    ensures low * p <= v < high * p
  {
    var w := v / p;
    assert v == w * p + v % p;
    Scales(w + 1, high, p);
    if low <= w {
      Scales(low, w, p);
    }
  }

  lemma Scales(x: nat, y: nat, p: nat)
    requires x <= y
    ensures x * p <= y * p
  {
  }

  lemma Pow10Values()
    ensures Pow10(1) == 10 && Pow10(2) == 100 && Pow10(3) == 1000 && Pow10(4) == 10000
    ensures Pow10(5) == 100000 && Pow10(6) == 1000000 && Pow10(7) == 10000000
    ensures Pow10(8) == 100000000 && Pow10(9) == 1000000000 && Pow10(10) == 10000000000
    ensures Pow10(11) == 100000000000 && Pow10(12) == 1000000000000
    ensures Pow10(20) == 100000000000000000000
  {
    Pow10Adds(8, 12);
  }

  // An unsigned 64-bit number has at most twenty digits.
  lemma WordLength(v: nat)
    requires UInt64(v)
    ensures |Digits(v)| <= 20
  {
    Pow10Values();
    PowersByLength(v);
    if |Digits(v)| > 20 {
      Pow10Grows(20, |Digits(v)| - 1);
    }
  }

  lemma {:induction false} Pow10Grows(j: nat, k: nat)
    requires j <= k
    ensures Pow10(j) <= Pow10(k)
  {
    if j < k {
      Pow10Grows(j, k - 1);
    }
  }

  method CountDigits(v: nat) returns (result: nat)
    ensures result == |Digits(v)|
  {
    Pow10Values();
    result := 1;
    var w := v;
    while true
      invariant result - 1 + |Digits(w)| == |Digits(v)|
      decreases w
    {
      if w < 10 {
        LengthByPowers(w, 1);
        return result;
      }
      if w < 100 {
        LengthByPowers(w, 2);
        return result + 1;
      }
      if w < 1000 {
        LengthByPowers(w, 3);
        return result + 2;
      }
      if w < 10000 {
        LengthByPowers(w, 4);
        return result + 3;
      }
      LengthAfterCut(w, 4);
      w := w / 10000;
      result := result + 4;
    }
  }

  function Digits10(v: nat): nat {
    if v < 10 then 1
    else if v < 100 then 2
    else if v < 1000 then 3
    else if v < 1000000000000 then
      if v < 100000000 then
        if v < 1000000 then
          if v < 10000 then 4 else 5 + (if v >= 100000 then 1 else 0)
        else 7 + (if v >= 10000000 then 1 else 0)
      else if v < 10000000000 then 9 + (if v >= 1000000000 then 1 else 0)
      else 11 + (if v >= 100000000000 then 1 else 0)
    else 12 + Digits10(v / 1000000000000)
  }

  lemma {:induction false} Digits10Correct(v: nat)
    ensures Digits10(v) == |Digits(v)|
  {
    Pow10Values();
    if v >= 1000000000000 {
      Digits10Correct(v / 1000000000000);
      LengthAfterCut(v, 12);
    } else {
      LengthByPowers(v, Digits10(v));
    }
  }

  // --- sdsll2str and sdsull2str ---

  function Reverse(s: seq<byte>): (r: seq<byte>)
    ensures |r| == |s|
    ensures forall i :: 0 <= i < |s| ==> r[i] == s[|s| - 1 - i]
  {
    seq(|s|, i requires 0 <= i < |s| => s[|s| - 1 - i])
  }

  // Write the digits of v from the least significant one; returns how many.
  method PutDigitsReversed(s: array<byte>, v: nat) returns (p: nat)
    requires UInt64(v) && s.Length >= 20
    modifies s
    ensures p == |Digits(v)| <= 20 && Reverse(s[..p]) == Digits(v)
  {
    hide Digits, Reverse;
    WordLength(v);
    NothingReversed();
    var w, more := v, true;
    p := 0;
    while more
      invariant p <= s.Length
      invariant (if more then Digits(w) else []) + Reverse(s[..p]) == Digits(v)
      invariant p + (if more then |Digits(w)| else 0) == |Digits(v)|
      invariant !more ==> w == 0
      decreases w, more
    {
      ghost var before := s[..p];
      OneMoreReversed(w, before);
      s[p] := ZERO + w % 10;
      assert s[..p + 1] == before + [ZERO + w % 10];
      p := p + 1;
      w := w / 10;
      more := w != 0;
    }
    assert [] + Reverse(s[..p]) == Reverse(s[..p]);
  }

  method ReverseInPlace(s: array<byte>, l: nat)
    requires l <= s.Length
    modifies s
    ensures s[..l] == Reverse(old(s[..l])) && s[l..] == old(s[l..])
  {
    var lo, hi := 0, l;
    while lo + 1 < hi
      invariant 0 <= lo <= l && hi == l - lo && lo <= hi + 1
      invariant forall k :: 0 <= k < lo || hi <= k < l ==> s[k] == old(s[l - 1 - k])
      invariant forall k :: lo <= k < hi || l <= k < s.Length ==> s[k] == old(s[k])
    {
      s[lo], s[hi - 1] := s[hi - 1], s[lo];
      lo, hi := lo + 1, hi - 1;
    }
  }

  lemma ReverseAppend(s: seq<byte>, b: byte)
    ensures Reverse(s + [b]) == [b] + Reverse(s)
  {
  }

  lemma NothingReversed()
    ensures Reverse([]) == []
  {
  }

  // The last digit, and the others if there are any.
  lemma LastDigit(w: nat)
    ensures Digits(w) == (if w / 10 != 0 then Digits(w / 10) else []) + [ZERO + w % 10]
  {
  }

  lemma OneMoreReversed(w: nat, before: seq<byte>)
    ensures Digits(w) + Reverse(before)
            == (if w / 10 != 0 then Digits(w / 10) else []) + Reverse(before + [ZERO + w % 10])
    ensures w / 10 != 0 ==> |Digits(w)| == |Digits(w / 10)| + 1
  {
    hide Digits, Reverse;
    LastDigit(w);
    ReverseAppend(before, ZERO + w % 10);
  }

  // Terminate the first l bytes and turn them round.
  method Finish(s: array<byte>, l: nat)
    requires l < s.Length
    modifies s
    ensures s[..l] == Reverse(old(s[..l])) && s[l] == NUL
  {
    ghost var text := s[..l];
    s[l] := NUL;
    assert s[..l] == text;
    ReverseInPlace(s, l);
    assert s[l] == s[l..][0];
  }

  method Sdsull2str(s: array<byte>, v: nat) returns (l: nat)
    requires UInt64(v) && s.Length >= 21
    modifies s
    ensures l < s.Length && s[..l] == Digits(v) && s[l] == NUL
  {
    WordLength(v);
    l := PutDigitsReversed(s, v);
    Finish(s, l);
  }

  method Sdsll2str(s: array<byte>, value: int) returns (l: nat)
    requires Int64(value) && s.Length >= 21
    modifies s
    ensures l < s.Length && s[..l] == Dec(value) && s[l] == NUL
  {
    hide Digits, Reverse;
    var v := if value < 0 then Neg64(ToUInt64(value)) else value;
    SignedLength(value);
    l := PutDigitsReversed(s, v);
    if value < 0 {
      ghost var digits := s[..l];
      s[l] := MINUS;
      l := l + 1;
      assert s[..l] == digits + [MINUS];
      ReverseAppend(digits, MINUS);
    }
    Finish(s, l);
  }

  // The longest signed number, INT64_MIN, prints in twenty characters.
  lemma SignedLength(n: int)
    requires Int64(n)
    ensures |Dec(n)| <= 20 && (n < 0 ==> |Digits(-n)| <= 19) && (n >= 0 ==> |Digits(n)| <= 19)
  {
    var v := if n < 0 then -n else n;
    Pow10Values();
    Pow10Adds(12, 7);
    PowersByLength(v);
    if |Digits(v)| > 19 {
      Pow10Grows(19, |Digits(v)| - 1);
    }
  }

  // --- ll2string: two digits at a time, from the right ---

  // The 200-character table "00010203...9899": entries 2k and 2k + 1 are the digits of k.
  function DigitPairs(i: nat): byte
    requires i < 200
  {
    if i % 2 == 0 then ZERO + i / 20 else ZERO + i / 2 % 10
  }

  lemma LastTwoDigits(v: nat)
    requires v >= 100
    ensures Digits(v) == Digits(v / 100) + [DigitPairs(v % 100 * 2), DigitPairs(v % 100 * 2 + 1)]
  {
    hide Digits;
    LastDigit(v);
    LastDigit(v / 10);
    PairOf(v);
    assert Digits(v / 100) + [ZERO + v / 10 % 10] + [ZERO + v % 10]
           == Digits(v / 100) + [ZERO + v / 10 % 10, ZERO + v % 10];
  }

  lemma PairOf(v: nat)
    ensures v / 10 / 10 == v / 100
    ensures DigitPairs(v % 100 * 2) == ZERO + v / 10 % 10 && DigitPairs(v % 100 * 2 + 1) == ZERO + v % 10
  {
    var q, r := v / 100, v % 100;
    assert v == 100 * q + r;
    assert v / 10 == 10 * q + r / 10;
  }

  // Write the digits of value so that the last one lands at index last.
  method PutDigits(dst: array<byte>, v: nat, last: nat)
    requires last < dst.Length && |Digits(v)| <= last + 1
    modifies dst
    ensures dst[last + 1 - |Digits(v)|..last + 1] == Digits(v)
    ensures forall i :: 0 <= i < dst.Length && !(last + 1 - |Digits(v)| <= i <= last) ==> dst[i] == old(dst[i])
  {
    var value, next := v, last;
    while value >= 100
      invariant |Digits(value)| <= next + 1 <= last + 1 && next + 1 - |Digits(value)| == last + 1 - |Digits(v)|
      invariant Digits(v) == Digits(value) + dst[next + 1..last + 1]
      invariant forall i :: 0 <= i <= next || last < i < dst.Length ==> dst[i] == old(dst[i])
    {
      ghost var right := dst[next + 1..last + 1];
      LastTwoDigits(value);
      var i := value % 100 * 2;
      value := value / 100;
      dst[next] := DigitPairs(i + 1);
      dst[next - 1] := DigitPairs(i);
      next := next - 2;
      assert dst[next + 1..last + 1] == [DigitPairs(i), DigitPairs(i + 1)] + right;
    }
    PutLastPair(dst, value, next, last);
  }

  method PutLastPair(dst: array<byte>, value: nat, next: nat, ghost last: nat)
    requires value < 100 && |Digits(value)| <= next + 1 && next <= last < dst.Length
    modifies dst
    ensures dst[next + 1 - |Digits(value)|..last + 1] == Digits(value) + old(dst[next + 1..last + 1])
    ensures forall i :: 0 <= i < dst.Length && !(next + 1 - |Digits(value)| <= i <= next) ==> dst[i] == old(dst[i])
  {
    if value < 10 {
      dst[next] := ZERO + value;
    } else {
      var i := value * 2;
      dst[next] := DigitPairs(i + 1);
      dst[next - 1] := DigitPairs(i);
      assert Digits(value) == [DigitPairs(i), DigitPairs(i + 1)];
    }
  }

  method Ll2string(dst: array<byte>, dstlen: nat, svalue: int) returns (length: nat)
    requires Int64(svalue) && dstlen <= dst.Length
    modifies dst
    ensures |Dec(svalue)| < dstlen ==>
              length == |Dec(svalue)| && dst[..length] == Dec(svalue) && dst[length] == NUL
    ensures |Dec(svalue)| >= dstlen ==> length == 0 && dst[..] == old(dst[..])
  {
    var negative, value: nat := 0, 0;
    if svalue < 0 {
      if svalue != INT64_MIN {
        value := -svalue;
      } else {
        value := INT64_MAX + 1;
      }
      negative := 1;
    } else {
      value := svalue;
    }
    Digits10Correct(value);
    length := Digits10(value) + negative;
    if length >= dstlen {
      return 0;
    }
    dst[length] := NUL;
    PutDigits(dst, value, length - 1);
    if negative == 1 {
      ghost var digits := dst[1..length];
      dst[0] := MINUS;
      assert dst[1..length] == digits;
      assert dst[..length] == [MINUS] + digits;
    }
  }

  // --- both ways ---

  // Printing a 64-bit number with either printer and parsing the text gives the number back.
  method PrintThenParse(value: int) returns (viaSds: Option<int>, viaLl: Option<int>)
    requires Int64(value)
    ensures viaSds == viaLl == Some(value)
  {
    SignedLength(value);
    ParseIntOfDec(value);
    var a, b := new byte[21], new byte[21];
    var l := Sdsll2str(a, value);
    viaSds := String2ll(a[..l]);
    var m := Ll2string(b, 21, value);
    viaLl := String2ll(b[..m]);
  }
}
