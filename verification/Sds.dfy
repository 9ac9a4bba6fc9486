/** Strings with a variable-width header: they hold a plain byte sequence across every change of header. */
module Sds {
  import opened Bytes

  const TYPE_5: nat := 0
  const TYPE_8: nat := 1
  const TYPE_16: nat := 2
  const TYPE_32: nat := 3
  const TYPE_64: nat := 4
  const MAX_PREALLOC: nat := 0x10_0000

  // The range of the length fields of each header.
  function FieldRange(t: nat): nat
    requires TYPE_8 <= t <= TYPE_64
    ensures FieldRange(t) > 0
  {
    if t == TYPE_8 then 0x100 else if t == TYPE_16 then 0x1_0000
    else if t == TYPE_32 then 0x1_0000_0000 else 0x1_0000_0000_0000_0000
  }

  // Allocation sizes computed in size_t do not wrap around.
  predicate Allocatable(size: nat) {
    size + MAX_PREALLOC + 0x100 < 0x1_0000_0000_0000_0000
  }

  // The smallest header for a string: its fields hold the size.
  function ReqType(size: nat): (t: nat)
    requires size < 0x1_0000_0000_0000_0000
    ensures TYPE_5 <= t <= TYPE_64
    ensures if t == TYPE_5 then size < 32 else size < FieldRange(t)
  {
    if size < 32 then TYPE_5
    else if size < 0xff then TYPE_8
    else if size < 0xffff then TYPE_16
    else if size < 0xffff_ffff then TYPE_32
    else TYPE_64
  }

  // The header types by what they can hold: less than 2^5, 2^8 - 1, 2^16 - 1, 2^32 - 1, and anything.
  lemma HeadersBySize(size: nat)
    requires size < 0x1_0000_0000_0000_0000
    ensures var t := ReqType(size);
            && (t == 0 <==> size <= 31) && (t <= 1 <==> size <= 254) && (t <= 2 <==> size <= 65534)
            && (t <= 3 <==> size <= 4294967294) && t <= 4
    ensures FieldRange(1) == 256
    ensures FieldRange(2) == FieldRange(1) * FieldRange(1)
    ensures FieldRange(3) == FieldRange(2) * FieldRange(2) && FieldRange(4) == FieldRange(3) * FieldRange(3)
  {
  }

  lemma FlagsHold(n: nat)
    ensures n * 8 % 256 % 8 == TYPE_5 && n * 8 % 256 / 8 == n % 32
  {
    var q, r := n / 32, n % 32;
    LowByte(q, r);
    assert n * 8 == 256 * q + 8 * r;
  }

  lemma LowByte(q: nat, r: nat)
    requires r < 32
    ensures (256 * q + 8 * r) % 256 == 8 * r
  {
  }

  lemma Truncates(n: nat, m: nat)
    requires m > 0
    ensures n < m ==> n % m == n
  {
  }

  class Sds {
    // The byte before the string: the type in the low three bits, and for TYPE_5 the length above it.
    var flags: byte
    // The header fields of the other types.
    var len: nat
    var alloc: nat
    // The allocation after the header.
    var buf: array<byte>

    function Type(): nat
      reads this
    {
      flags % 8
    }

    function Len(): nat
      reads this
    {
      if Type() == TYPE_5 then flags / 8 else len
    }

    function Alloc(): nat
      reads this
    {
      if Type() == TYPE_5 then flags / 8 else alloc
    }

    function Avail(): int
      reads this
    {
      if Type() == TYPE_5 then 0 else alloc - len
    }

    // The length is within the allocation, the fields within their width, and a NUL follows the text.
    ghost predicate Valid()
      reads this, buf
    {
      && Type() <= TYPE_64
      && Len() <= Alloc() < buf.Length
      && (Type() != TYPE_5 ==> Alloc() < FieldRange(Type()))
      && buf[Len()] == NUL
    }

    ghost function Text(): (s: seq<byte>)
      requires Valid()
      reads this, buf
      ensures |s| == Len()
    {
      buf[..Len()]
    }

    // sdsnewlen
    constructor (init: seq<byte>)
      requires Allocatable(|init|)
      ensures Valid() && fresh(buf) && Text() == init
      ensures Type() == if |init| == 0 then TYPE_8 else ReqType(|init|)
      ensures Alloc() == |init| && buf.Length == |init| + 1
    {
      var t := ReqType(|init|);
      if t == TYPE_5 && |init| == 0 {
        t := TYPE_8;
      }
      var b := new byte[|init| + 1](_ => NUL);
      len, alloc := 0, 0;
      if t == TYPE_5 {
        flags := t + |init| * 8;
      } else {
        len, alloc, flags := |init|, |init|, t;
      }
      forall i | 0 <= i < |init| {
        b[i] := init[i];
      }
      b[|init|] := NUL;
      buf := b;
    }

    // sdssetlen, with the truncation each field makes
    method SetLen(newlen: nat)
      requires Type() <= TYPE_64
      modifies this`flags, this`len
      ensures Type() == old(Type())
      ensures Len() == newlen % (if Type() == TYPE_5 then 32 else FieldRange(Type()))
      ensures newlen < (if Type() == TYPE_5 then 32 else FieldRange(Type())) ==> Len() == newlen
    {
      hide FieldRange;
      if Type() == TYPE_5 {
        FlagsHold(newlen);
        flags := newlen * 8 % 256;
      } else {
        Truncates(newlen, FieldRange(Type()));
        len := newlen % FieldRange(Type());
      }
    }

    // sdssetalloc
    method SetAlloc(newlen: nat)
      requires Type() <= TYPE_64
      modifies this`alloc
      ensures Type() != TYPE_5 && newlen < FieldRange(Type()) ==> Alloc() == newlen
    {
      if Type() != TYPE_5 {
        alloc := newlen % FieldRange(Type());
      }
    }

    // A new allocation of n bytes and a terminator, holding the first bytes of the old one.
    method Reallocate(n: nat)
      requires Valid() && Len() <= n
      modifies this`buf
      ensures fresh(buf) && buf.Length == n + 1
      ensures forall i :: 0 <= i <= old(Len()) ==> buf[i] == old(buf[i])
    {
      var b := new byte[n + 1](_ => NUL);
      forall i | 0 <= i <= Len() {
        b[i] := buf[i];
      }
      buf := b;
    }

    // Another header for a string of this length.
    method SetType(t: nat, oldlen: nat)
      requires t <= TYPE_64 && oldlen < (if t == TYPE_5 then 32 else FieldRange(t))
      modifies this`flags, this`len
      ensures Type() == t && Len() == oldlen
    {
      hide FieldRange;
      flags := t;
      assert Type() == t;
      SetLen(oldlen);
    }

    // Move the string to a header of type t with room for n bytes; in place when the type stays.
    method Resize(t: nat, n: nat)
      requires Valid() && Len() <= n && t <= TYPE_64
      requires if t == TYPE_5 then n < 32 && n == Len() else n < FieldRange(t)
      modifies this
      ensures Valid() && fresh(buf) && Text() == old(Text()) && Type() == t && Alloc() == n
    {
      hide FieldRange;
      var oldlen := Len();
      ghost var text := Text();
      Reallocate(n);
      if Type() != t {
        SetType(t, oldlen);
      }
      assert Type() == t && Len() == oldlen;
      SetAlloc(n);
      assert Len() == oldlen && Alloc() == n;
      assert buf[..oldlen] == text && buf[oldlen] == NUL;
    }

    // sdsMakeRoomFor
    method MakeRoomFor(addlen: nat)
      requires Valid() && Allocatable(Len() + addlen)
      modifies this
      ensures Valid() && Text() == old(Text()) && Alloc() >= Len() + addlen
      ensures buf == old(buf) || fresh(buf)
      ensures addlen > 0 ==> Type() != TYPE_5
      // What is asked for twice over up to a mebibyte, and a mebibyte more from there.
      ensures var n := Len() + addlen;
              Alloc() == if old(Avail()) >= addlen then old(Alloc())
                         else if n < 1024 * 1024 then n + n else n + 1024 * 1024
      ensures Type() == if old(Avail()) >= addlen then old(Type())
                        else if Alloc() < 32 then TYPE_8 else ReqType(Alloc())
    {
      if Avail() >= addlen {
        return;
      }
      var newlen := Len() + addlen;
      newlen := if newlen < MAX_PREALLOC then newlen * 2 else newlen + MAX_PREALLOC;
      var t := ReqType(newlen);
      if t == TYPE_5 {
        t := TYPE_8;
      }
      Resize(t, newlen);
    }

    // sdsRemoveFreeSpace
    method RemoveFreeSpace()
      requires Valid() && Allocatable(Len())
      modifies this
      ensures Valid() && Text() == old(Text()) && Alloc() == Len() && fresh(buf)
    {
      Resize(ReqType(Len()), Len());
    }

    // Write t at position at, a NUL behind it, and set the length accordingly.
    method Write(at: nat, t: seq<byte>)
      requires Valid() && at <= Len() && at + |t| <= Alloc()
      modifies this, buf
      ensures Valid() && Text() == old(Text()[..at]) + t && buf == old(buf) && Alloc() >= at + |t|
    {
      hide FieldRange;
      ghost var before := Text()[..at];
      forall i | 0 <= i < |t| {
        buf[at + i] := t[i];
      }
      SetLen(at + |t|);
      buf[at + |t|] := NUL;
      assert buf[..at] == before && buf[at..at + |t|] == t;
    }

    // sdscatlen
    method CatLen(t: seq<byte>)
      requires Valid() && Allocatable(Len() + |t|)
      modifies this, buf
      ensures Valid() && Text() == old(Text()) + t
      ensures buf == old(buf) || fresh(buf)
    {
      var curlen := Len();
      MakeRoomFor(|t|);
      Write(curlen, t);
    }

    // sdscpylen
    method CpyLen(t: seq<byte>)
      requires Valid() && Allocatable(|t|)
      modifies this, buf
      ensures Valid() && Text() == t
      ensures buf == old(buf) || fresh(buf)
    {
      if Alloc() < |t| {
        MakeRoomFor(|t| - Len());
      }
      Write(0, t);
    }

    // The first n bytes, as the socket reads them.
    method Prefix(n: nat) returns (t: seq<byte>)
      requires Valid() && n <= Len()
      ensures t == Text()[..n]
    {
      t := buf[..n];
    }

    // sdsclear
    method Clear()
      requires Valid()
      modifies this, buf
      ensures Valid() && Text() == [] && buf == old(buf)
    {
      SetLen(0);
      buf[0] := NUL;
    }

    // sdsrange
    method Range(first: int, last: int)
      requires Valid() && Len() <= INT_MAX && INT_MIN <= first <= INT_MAX && INT_MIN <= last <= INT_MAX
      modifies this, buf
      ensures Valid() && Text() == RangeOf(old(Text()), first, last) && buf == old(buf)
    {
      hide Sds.Valid;
      if Len() == 0 {
        return;
      }
      var start, newlen := Bounds(Len(), first, last, Text());
      Keep(start, newlen);
    }

    // The part of sdsrange that moves the bytes.
    method Keep(start: nat, newlen: nat)
      requires Valid() && (newlen > 0 ==> start + newlen <= Len())
      modifies this, buf
      ensures Valid() && Text() == (if newlen > 0 then old(Text())[start..start + newlen] else []) && buf == old(buf)
    {
      hide FieldRange;
      ghost var text := Text();
      if start != 0 && newlen != 0 {
        MoveDown(start, newlen);
      }
      assert forall i :: 0 <= i < newlen ==> buf[i] == text[start + i];
      SetLen(newlen);
      buf[newlen] := NUL;
      assert forall i :: 0 <= i < newlen ==> buf[i] == text[start + i];
      assert newlen > 0 ==> buf[..newlen] == text[start..start + newlen];
    }

    // memmove(s, s + start, n): each byte is read before it is overwritten.
    method MoveDown(start: nat, n: nat)
      requires start + n <= buf.Length
      modifies buf
      ensures forall i :: 0 <= i < n ==> buf[i] == old(buf[start + i])
      ensures forall i :: n <= i < buf.Length ==> buf[i] == old(buf[i])
    {
      forall i | 0 <= i < n {
        buf[i] := buf[start + i];
      }
    }
  }

  // --- ranges ---

  // The part of sdsrange that computes where the kept bytes start and how many they are.
  method Bounds(length: nat, first: int, last: int, ghost text: seq<byte>) returns (start: int, newlen: int)
    requires length == |text| > 0
    ensures start >= 0 && newlen >= 0 && (newlen > 0 ==> start + newlen <= length)
    ensures RangeOf(text, first, last) == if newlen > 0 then text[start..start + newlen] else []
  {
    var end := last;
    start := first;
    if start < 0 {
      start := length + start;
      if start < 0 {
        start := 0;
      }
    }
    if end < 0 {
      end := length + end;
      if end < 0 {
        end := 0;
      }
    }
    newlen := if start > end then 0 else end - start + 1;
    if newlen != 0 {
      if start >= length {
        newlen := 0;
      } else if end >= length {
        end := length - 1;
        newlen := if start > end then 0 else end - start + 1;
      }
    } else {
      start := 0;
    }
  }

  // A position counted from the end when negative, and not before the beginning.
  function Position(n: nat, k: int): (p: nat)
    ensures k >= 0 ==> p == k
    ensures k < 0 && n + k >= 0 ==> p - n == k
  {
    if k >= 0 then k else if n + k < 0 then 0 else n + k
  }

  // The bytes at the positions from first to last.
  function RangeOf(s: seq<byte>, first: int, last: int): (r: seq<byte>)
  {
    var start, end := Position(|s|, first), Position(|s|, last) + 1;
    if start >= |s| || end <= start then []
    else s[start..if end > |s| then |s| else end]
  }

  // A byte is kept exactly if its position lies between the two ends, of which a negative one counts from
  // the end of the string; and the first byte also if the second end lies before the beginning.
  lemma RangeKeeps(s: seq<byte>, first: int, last: int, p: nat)
    requires p < |s|
    ensures var from, to := if first < 0 then |s| + first else first, if last < 0 then |s| + last else last;
            var r, start := RangeOf(s, first, last), if from < 0 then 0 else from;
            && (from <= p && (p <= to || (p == 0 && last < 0 && to < 0)) <==> start <= p < start + |r|)
            && (start <= p < start + |r| ==> r[p - start] == s[p])
  {
  }

  // sdsrange(s, n, -1) drops the first n bytes.
  lemma RangeDrops(s: seq<byte>, n: nat)
    requires n <= |s|
    ensures RangeOf(s, n, -1) == s[n..]
  {
  }

  // --- runs ---

  datatype Op = Cat(t: seq<byte>) | Cpy(t: seq<byte>) | Room(n: nat) | Trim | Cut(first: int, last: int) | Empty

  function Apply(s: seq<byte>, op: Op): seq<byte> {
    match op
    case Cat(t) => s + t
    case Cpy(t) => t
    case Room(_) => s
    case Trim => s
    case Cut(first, last) => RangeOf(s, first, last)
    case Empty => []
  }

  function ApplyAll(s: seq<byte>, ops: seq<Op>): seq<byte> {
    if ops == [] then s else Apply(ApplyAll(s, ops[..|ops| - 1]), ops[|ops| - 1])
  }

  // What the caller owes: sizes the allocator can be asked for, and for sdsrange what fits an int.
  predicate Sized(s: seq<byte>, op: Op) {
    match op
    case Cat(t) => Allocatable(|s| + |t|)
    case Cpy(t) => Allocatable(|t|)
    case Room(n) => Allocatable(|s| + n)
    case Trim => Allocatable(|s|)
    case Cut(first, last) => |s| <= INT_MAX && INT_MIN <= first <= INT_MAX && INT_MIN <= last <= INT_MAX
    case Empty => true
  }

  // Any run of operations on a new string leaves a valid string that holds the plain byte sequence.
  method Run(init: seq<byte>, ops: seq<Op>) returns (s: Sds)
    requires Allocatable(|init|)
    requires forall i :: 0 <= i < |ops| ==> Sized(ApplyAll(init, ops[..i]), ops[i])
    ensures s.Valid() && s.Text() == ApplyAll(init, ops)
  {
    hide RangeOf, Sds.Valid;
    s := new Sds(init);
    for i := 0 to |ops|
      invariant fresh(s) && fresh(s.buf) && s.Valid() && s.Text() == ApplyAll(init, ops[..i])
    {
      assert ops[..i + 1][..i] == ops[..i];
      assert Sized(s.Text(), ops[i]);
      Step(s, ops[i]);
    }
    assert ops[..|ops|] == ops;
  }

  method Step(s: Sds, op: Op)
    requires s.Valid() && Sized(s.Text(), op)
    modifies s, s.buf
    ensures s.Valid() && s.Text() == Apply(old(s.Text()), op)
    ensures s.buf == old(s.buf) || fresh(s.buf)
  {
    hide RangeOf, FieldRange;
    match op
    case Cat(t) => s.CatLen(t);
    case Cpy(t) => s.CpyLen(t);
    case Room(n) => s.MakeRoomFor(n);
    case Trim => s.RemoveFreeSpace();
    case Cut(first, last) => s.Range(first, last);
    case Empty => s.Clear();
  }

  // --- the output buffer ---

  datatype Output = Append(command: seq<byte>) | Accept(n: nat)

  function Appended(events: seq<Output>): seq<byte> {
    if events == [] then []
    else
      var last := events[|events| - 1];
      Appended(events[..|events| - 1]) + if last.Append? then last.command else []
  }

  // How many bytes are buffered after these events: a write takes at most what is there.
  function Buffered(events: seq<Output>): nat {
    if events == [] then 0
    else
      var before := Buffered(events[..|events| - 1]);
      match events[|events| - 1]
      case Append(command) => before + |command|
      case Accept(n) => if n < before then before - n else 0
  }

  // redisBufferWrite: the socket takes up to n of the buffered bytes.
  method BufferWrite(obuf: Sds, n: nat) returns (newbuf: Sds, sent: seq<byte>, done: bool)
    requires obuf.Valid() && obuf.Len() <= INT_MAX
    modifies obuf, obuf.buf
    ensures newbuf.Valid() && sent + newbuf.Text() == old(obuf.Text())
    ensures |sent| == if n < old(obuf.Len()) then n else old(obuf.Len())
    ensures done <==> newbuf.Text() == []
    ensures fresh(newbuf) || newbuf == obuf
    ensures fresh(newbuf.buf) || newbuf.buf == old(obuf.buf)
  {
    hide RangeOf, Sds.Valid, Sds.Text;
    newbuf, sent := obuf, [];
    if obuf.Len() > 0 {
      var nwritten := if n < obuf.Len() then n else obuf.Len();
      if nwritten > 0 {
        ghost var text := obuf.Text();
        sent := obuf.Prefix(nwritten);
        if nwritten == obuf.Len() {
          newbuf := new Sds([]);
        } else {
          RangeDrops(text, nwritten);
          obuf.Range(nwritten, -1);
        }
        assert text[..nwritten] + text[nwritten..] == text;
      }
    }
    done := newbuf.Len() == 0;
  }

  // Whatever the socket accepts, the bytes sent and then those still buffered are the commands appended.
  // Only what is buffered at one moment has to fit an int, not what is sent over time.
  method Transmit(events: seq<Output>) returns (sent: seq<byte>, obuf: Sds)
    requires forall i :: 0 <= i <= |events| ==> Buffered(events[..i]) <= INT_MAX
    ensures obuf.Valid() && sent + obuf.Text() == Appended(events) && obuf.Len() == Buffered(events)
  {
    hide Sds.Valid, Sds.Text;
    obuf := new Sds([]);
    sent := [];
    for i := 0 to |events|
      invariant fresh(obuf) && fresh(obuf.buf) && obuf.Valid()
      invariant sent + obuf.Text() == Appended(events[..i]) && obuf.Len() == Buffered(events[..i])
    {
      assert Buffered(events[..i + 1]) <= INT_MAX;
      assert events[..i + 1][..i] == events[..i];
      match events[i]
      case Append(command) =>
        assert sent + (obuf.Text() + command) == sent + obuf.Text() + command;
        obuf.CatLen(command);
      case Accept(n) =>
        var newbuf, more, _ := BufferWrite(obuf, n);
        obuf := newbuf;
        assert sent + (more + obuf.Text()) == sent + more + obuf.Text();
        sent := sent + more;
    }
    assert events[..|events|] == events;
  }
}
