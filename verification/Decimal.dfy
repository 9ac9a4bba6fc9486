/** Decimal text: the canonical form, the strict parser and the printers. */
module Decimal {
  import opened Bytes

  predicate IsDigit(b: byte) {
    ZERO <= b <= NINE
  }

  ghost predicate AllDigits(s: seq<byte>) {
    forall i :: 0 <= i < |s| ==> IsDigit(s[i])
  }

  // --- the canonical form ---

  // Decimal digits of v, most significant first, no leading zero.
  function Digits(v: nat): (s: seq<byte>)
    ensures |s| > 0 && AllDigits(s)
    ensures s[0] == ZERO ==> v == 0 && |s| == 1
  {
    if v < 10 then [ZERO + v] else Digits(v / 10) + [ZERO + v % 10]
  }

  function Dec(n: int): (s: seq<byte>)
    ensures |s| > 0
    ensures s[0] == MINUS <==> n < 0
    ensures n < 0 ==> s[1..] == Digits(-n)
  {
    if n < 0 then [MINUS] + Digits(-n) else Digits(n)
  }

  // The number a string of digits denotes.
  ghost function Value(s: seq<byte>): (v: nat)
    requires AllDigits(s)
  {
    if s == [] then 0 else Value(s[..|s| - 1]) * 10 + (s[|s| - 1] - ZERO)
  }

  lemma {:induction false} ValueOfDigits(v: nat)
    ensures Value(Digits(v)) == v
  {
    var s := Digits(v);
    if v < 10 {
      assert s[..|s| - 1] == [];
    } else {
      ValueOfDigits(v / 10);
      assert s[..|s| - 1] == Digits(v / 10);
    }
  }

  lemma {:induction false} DigitsOfValue(s: seq<byte>)
    requires |s| > 0 && AllDigits(s)
    requires s[0] == ZERO ==> |s| == 1
    ensures Digits(Value(s)) == s
    ensures |s| > 1 ==> Value(s) >= 10
  {
    var front, last := s[..|s| - 1], s[|s| - 1];
    if |s| == 1 {
      assert front == [];
    } else {
      DigitsOfValue(front);
      if |front| == 1 {
        assert front[..0] == [];
      }
      var d := last - ZERO;
      assert (Value(front) * 10 + d) / 10 == Value(front) && (Value(front) * 10 + d) % 10 == d;
      assert s == front + [last];
    }
  }

  lemma {:induction false} ValueOfPrefix(s: seq<byte>, k: nat)
    requires AllDigits(s) && k <= |s|
    ensures Value(s[..k]) <= Value(s)
    decreases |s|
  {
    if k < |s| {
      var front := s[..|s| - 1];
      ValueOfPrefix(front, k);
      assert front[..k] == s[..k];
    } else {
      assert s[..k] == s;
    }
  }

  lemma DecInjective(m: int, n: int)
    requires Dec(m) == Dec(n)
    ensures m == n
  {
    ValueOfDigits(if m < 0 then -m else m);
    ValueOfDigits(if n < 0 then -n else n);
  }

  // --- the parser ---

  // What the strict parser accepts: exactly the canonical form of a signed 64-bit number.
  ghost function ParseInt(s: seq<byte>): (r: Option<int>)
    ensures r.Some? ==> Int64(r.value) && s == Dec(r.value)
    ensures r.None? ==> forall n :: Int64(n) ==> s != Dec(n)
  {
    if exists n :: Int64(n) && s == Dec(n)
    then var n :| Int64(n) && s == Dec(n); Some(n)
    else None
  }

  lemma ParseIntOfDec(n: int)
    requires Int64(n)
    ensures ParseInt(Dec(n)) == Some(n)
  {
    DecInjective(n, ParseInt(Dec(n)).value);
  }

  // Where the digits of s start: after the sign, when there is one.
  function DigitsFrom(s: seq<byte>): nat {
    if |s| > 0 && s[0] == MINUS then 1 else 0
  }

  // A string that is not (sign and) digits, or has a leading zero, is no canonical number.
  lemma NotCanonical(s: seq<byte>)
    requires var from := DigitsFrom(s);
             |s| == from || !AllDigits(s[from..]) || (s[from] == ZERO && |s| > 1)
    ensures ParseInt(s).None?
  {
    forall n | Int64(n)
      ensures s != Dec(n)
    {
      if n >= 0 {
        assert Dec(n)[0..] == Dec(n);
      }
      assert var d := Dec(n)[DigitsFrom(Dec(n))..]; |d| > 0 && AllDigits(d) && (d[0] == ZERO ==> n == 0);
    }
  }

  // A canonical magnitude inside the signed range is accepted, one outside is rejected.
  lemma CanonicalRange(s: seq<byte>)
    requires var from := DigitsFrom(s);
             from < |s| && AllDigits(s[from..]) && s[from] != ZERO
    ensures var from, v: int := DigitsFrom(s), Value(s[DigitsFrom(s)..]);
            ParseInt(s) == if from == 1 then (if v <= INT64_MAX + 1 then Some(-v) else None)
                           else if v <= INT64_MAX then Some(v) else None
  {
    var t := s[DigitsFrom(s)..];
    var v: int := Value(t);
    DigitsOfValue(t);
    assert Digits(0) == [ZERO];
    var n := if DigitsFrom(s) == 1 then -v else v;
    assert s == Dec(n);
    if Int64(n) {
      ParseIntOfDec(n);
    } else {
      forall m | Int64(m)
        ensures s != Dec(m)
      {
        if s == Dec(m) {
          DecInjective(n, m);
        }
      }
    }
  }

  // Once the digits read so far exceed an unsigned word, no continuation is in range.
  lemma TooLong(s: seq<byte>, to: nat)
    requires var from := DigitsFrom(s);
             from < to <= |s| && s[from] != ZERO && AllDigits(s[from..to]) && Value(s[from..to]) > UINT64_MAX
    ensures ParseInt(s).None?
  {
    var from := DigitsFrom(s);
    if !AllDigits(s[from..]) {
      NotCanonical(s);
    } else {
      ValueOfPrefix(s[from..], to - from);
      assert s[from..][..to - from] == s[from..to];
      CanonicalRange(s);
    }
  }

  lemma ZeroAlone()
    ensures ParseInt([ZERO]) == Some(0)
  {
    assert Dec(0) == [ZERO];
    ParseIntOfDec(0);
  }

  method String2ll(s: seq<byte>) returns (r: Option<int>)
    ensures r == ParseInt(s)
  {
    var plen, negative := 0, false;
    if plen == |s| {
      NotCanonical(s);
      return None;
    }
    if |s| == 1 && s[0] == ZERO {
      ZeroAlone();
      assert s == [ZERO];
      return Some(0);
    }
    if s[0] == MINUS {
      negative := true;
      plen := 1;
      if plen == |s| {
        NotCanonical(s);
        return None;
      }
    }
    ghost var from := plen;
    var v: int;
    if ZERO + 1 <= s[plen] <= NINE {
      v := s[plen] - ZERO;
      plen := plen + 1;
    } else {
      assert s[from..][0] == s[from];
      NotCanonical(s);
      return None;
    }
    FirstDigit(s, from);
    while plen < |s| && IsDigit(s[plen])
      invariant from < plen <= |s|
      invariant AllDigits(s[from..plen])
      invariant v == Value(s[from..plen]) && UInt64(v)
    {
      OneMoreDigit(s, from, plen);
      if v > UINT64_MAX / 10 {
        TooLong(s, plen + 1);
        return None;
      }
      v := v * 10;
      if v > UINT64_MAX - (s[plen] - ZERO) {
        TooLong(s, plen + 1);
        return None;
      }
      v := v + (s[plen] - ZERO);
      plen := plen + 1;
    }
    if plen < |s| {
      assert s[from..][plen - from] == s[plen];
      NotCanonical(s);
      return None;
    }
    assert s[from..plen] == s[from..];
    CanonicalRange(s);
    if negative {
      if v > INT64_MAX + 1 {
        return None;
      }
      r := Some(ToInt64(Neg64(v)));
    } else {
      if v > INT64_MAX {
        return None;
      }
      r := Some(v);
    }
  }

  lemma FirstDigit(s: seq<byte>, from: nat)
    requires from < |s| && IsDigit(s[from])
    ensures AllDigits(s[from..from + 1]) && Value(s[from..from + 1]) == s[from] - ZERO
  {
    assert s[from..from + 1][..0] == [];
  }

  lemma OneMoreDigit(s: seq<byte>, from: nat, to: nat)
    requires from < to < |s| && AllDigits(s[from..to]) && IsDigit(s[to])
    ensures AllDigits(s[from..to + 1])
    ensures Value(s[from..to + 1]) == Value(s[from..to]) * 10 + (s[to] - ZERO)
  {
    var grown := s[from..to + 1];
    var front := s[from..to];
    assert |grown| == |front| + 1;
    assert forall i :: 0 <= i < |front| ==> grown[i] == s[from + i] == front[i];
    assert grown[..|grown| - 1] == front;
  }
}
