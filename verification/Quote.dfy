/** Quoted strings: the printer of byte strings and the splitter of argument lines. */
module Quote {
  import opened Bytes

  const BACKSLASH: byte := 92
  const QUOTE: byte := 34
  const APOSTROPHE: byte := 39
  const BELL: byte := 7
  const BACKSPACE: byte := 8
  const TAB: byte := 9
  const LETTER_X: byte := 120

  // The C library's tests, in the C locale.
  predicate IsPrint(c: byte) {
    32 <= c <= 126
  }

  predicate IsSpace(c: byte) {
    c == SPACE || 9 <= c <= 13
  }

  // --- the printer ---

  // A digit as %x prints it.
  function HexDigit(d: nat): (c: byte)
    requires d < 16
  {
    if d < 10 then 48 + d else 87 + d
  }

  function Escape(c: byte): (s: seq<byte>)
    ensures s != []
  {
    if c == BACKSLASH || c == QUOTE then [BACKSLASH, c]
    else if c == LF then [BACKSLASH, 110]
    else if c == CR then [BACKSLASH, 114]
    else if c == TAB then [BACKSLASH, 116]
    else if c == BELL then [BACKSLASH, 97]
    else if c == BACKSPACE then [BACKSLASH, 98]
    else if IsPrint(c) then [c]
    else [BACKSLASH, LETTER_X, HexDigit(c / 16), HexDigit(c % 16)]
  }

  function EscapeAll(p: seq<byte>): seq<byte> {
    if p == [] then [] else Escape(p[0]) + EscapeAll(p[1..])
  }

  function Repr(p: seq<byte>): seq<byte> {
    [QUOTE] + EscapeAll(p) + [QUOTE]
  }

  lemma {:induction false} EscapeAllAppends(p: seq<byte>, c: byte)
    ensures EscapeAll(p + [c]) == EscapeAll(p) + Escape(c)
  {
    hide Escape;
    if p == [] {
      assert [c][1..] == [];
    } else {
      EscapeAllAppends(p[1..], c);
      assert (p + [c])[1..] == p[1..] + [c];
    }
  }

  // sdscatrepr
  method CatRepr(s: seq<byte>, p: seq<byte>) returns (r: seq<byte>)
    ensures r == s + Repr(p)
  {
    hide EscapeAll;
    r := s + [QUOTE];
    assert EscapeAll(p[..0]) == [] by { NothingEscaped(); }
    for i := 0 to |p|
      invariant r == s + [QUOTE] + EscapeAll(p[..i])
    {
      EscapeAllAppends(p[..i], p[i]);
      assert p[..i] + [p[i]] == p[..i + 1];
      var c := p[i];
      var e: seq<byte>;
      match c {
        case 92 => e := [BACKSLASH, c];
        case 34 => e := [BACKSLASH, c];
        case 10 => e := [BACKSLASH, 110];
        case 13 => e := [BACKSLASH, 114];
        case 9 => e := [BACKSLASH, 116];
        case 7 => e := [BACKSLASH, 97];
        case 8 => e := [BACKSLASH, 98];
        case _ => e := if IsPrint(c) then [c] else [BACKSLASH, LETTER_X, HexDigit(c / 16), HexDigit(c % 16)];
      }
      r := r + e;
    }
    assert p[..|p|] == p;
    r := r + [QUOTE];
  }

  lemma NothingEscaped()
    ensures EscapeAll([]) == []
  {
  }

  // --- the splitter ---

  predicate IsHexDigit(c: byte) {
    48 <= c <= 57 || 97 <= c <= 102 || 65 <= c <= 70
  }

  function HexDigitToInt(c: byte): (d: nat)
    ensures d < 16
  {
    if 48 <= c <= 57 then c - 48
    else if 97 <= c <= 102 then c - 87
    else if 65 <= c <= 70 then c - 55
    else 0
  }

  function Unescape(c: byte): byte {
    if c == 110 then LF
    else if c == 114 then CR
    else if c == 116 then TAB
    else if c == 98 then BACKSPACE
    else if c == 97 then BELL
    else c
  }

  // The line is a C string: a NUL, or the end of the bytes, ends it.
  function At(s: seq<byte>, p: nat): byte {
    if p < |s| then s[p] else NUL
  }

  datatype Mode = Bare | InQuotes | InSingleQuotes

  predicate IsHexEscape(s: seq<byte>) {
    At(s, 0) == BACKSLASH && At(s, 1) == LETTER_X && IsHexDigit(At(s, 2)) && IsHexDigit(At(s, 3))
  }

  // Closing quotes must be followed by a blank or nothing at all.
  predicate Ends(s: seq<byte>) {
    At(s, 0) == NUL || IsSpace(At(s, 0))
  }

  // One token: what it comes to after current, and what is left of the line.
  function Token(mode: Mode, s: seq<byte>, current: seq<byte>): (r: Option<(seq<byte>, seq<byte>)>)
    ensures r.Some? ==> |r.value.1| <= |s|
    decreases |s|
  {
    match mode
    case InQuotes =>
      if IsHexEscape(s) then Token(mode, s[4..], current + [HexDigitToInt(s[2]) * 16 + HexDigitToInt(s[3])])
      else if At(s, 0) == BACKSLASH && At(s, 1) != NUL then Token(mode, s[2..], current + [Unescape(s[1])])
      else if At(s, 0) == QUOTE then if Ends(s[1..]) then Some((current, s[1..])) else None
      else if At(s, 0) == NUL then None
      else Token(mode, s[1..], current + [s[0]])
    case InSingleQuotes =>
      if At(s, 0) == BACKSLASH && At(s, 1) == APOSTROPHE then Token(mode, s[2..], current + [APOSTROPHE])
      else if At(s, 0) == APOSTROPHE then if Ends(s[1..]) then Some((current, s[1..])) else None
      else if At(s, 0) == NUL then None
      else Token(mode, s[1..], current + [s[0]])
    case Bare =>
      if At(s, 0) == NUL then Some((current, s))
      else if s[0] == SPACE || s[0] == LF || s[0] == CR || s[0] == TAB then Some((current, s[1..]))
      else if s[0] == QUOTE then Token(InQuotes, s[1..], current)
      else if s[0] == APOSTROPHE then Token(InSingleQuotes, s[1..], current)
      else Token(mode, s[1..], current + [s[0]])
  }

  function SkipBlanks(s: seq<byte>): (r: seq<byte>)
    ensures |r| <= |s| && !IsSpace(At(r, 0))
  {
    if IsSpace(At(s, 0)) then SkipBlanks(s[1..]) else s
  }

  lemma TokenConsumes(s: seq<byte>)
    requires At(s, 0) != NUL
    ensures Token(Bare, s, []).Some? ==> |Token(Bare, s, []).value.1| < |s|
  {
  }

  // The arguments of a line, or None where its quotes are wrong.
  function Split(s: seq<byte>): (r: Option<seq<seq<byte>>>)
    decreases |s|
  {
    var t := SkipBlanks(s);
    if At(t, 0) == NUL then Some([])
    else
      match Token(Bare, t, [])
      case None => None
      case Some((token, rest)) =>
        TokenConsumes(t);
        Prepend([token], Split(rest))
  }

  function Prepend(front: seq<seq<byte>>, r: Option<seq<seq<byte>>>): Option<seq<seq<byte>>> {
    if r.None? then None else Some(front + r.value)
  }

  // --- positions in the line ---

  lemma Suffix(line: seq<byte>, p: nat)
    requires p <= |line|
    ensures forall k: nat :: At(line[p..], k) == At(line, p + k)
    ensures forall k: nat :: p + k <= |line| ==> line[p..][k..] == line[p + k..]
  {
  }

  lemma InQuotesAt(line: seq<byte>, p: nat, current: seq<byte>)
    requires p <= |line|
    ensures Token(InQuotes, line[p..], current)
            == if At(line, p) == BACKSLASH && At(line, p + 1) == LETTER_X
                  && IsHexDigit(At(line, p + 2)) && IsHexDigit(At(line, p + 3))
               then Token(InQuotes, line[p + 4..],
                          current + [HexDigitToInt(line[p + 2]) * 16 + HexDigitToInt(line[p + 3])])
               else if At(line, p) == BACKSLASH && At(line, p + 1) != NUL
               then Token(InQuotes, line[p + 2..], current + [Unescape(line[p + 1])])
               else if At(line, p) == QUOTE
               then if At(line, p + 1) == NUL || IsSpace(At(line, p + 1)) then Some((current, line[p + 1..])) else None
               else if At(line, p) == NUL then None
               else Token(InQuotes, line[p + 1..], current + [line[p]])
  {
    hide HexDigitToInt, Unescape;
    Suffix(line, p);
    if At(line, p) == QUOTE {
      Suffix(line, p + 1);
    }
  }

  lemma InSingleQuotesAt(line: seq<byte>, p: nat, current: seq<byte>)
    requires p <= |line|
    ensures Token(InSingleQuotes, line[p..], current)
            == if At(line, p) == BACKSLASH && At(line, p + 1) == APOSTROPHE
               then Token(InSingleQuotes, line[p + 2..], current + [APOSTROPHE])
               else if At(line, p) == APOSTROPHE
               then if At(line, p + 1) == NUL || IsSpace(At(line, p + 1)) then Some((current, line[p + 1..])) else None
               else if At(line, p) == NUL then None
               else Token(InSingleQuotes, line[p + 1..], current + [line[p]])
  {
    Suffix(line, p);
    if At(line, p) == APOSTROPHE {
      Suffix(line, p + 1);
    }
  }

  lemma BareAt(line: seq<byte>, p: nat, current: seq<byte>)
    requires p <= |line|
    ensures Token(Bare, line[p..], current)
            == if At(line, p) == NUL then Some((current, line[p..]))
               else if At(line, p) == SPACE || At(line, p) == LF || At(line, p) == CR || At(line, p) == TAB
               then Some((current, line[p + 1..]))
               else if At(line, p) == QUOTE then Token(InQuotes, line[p + 1..], current)
               else if At(line, p) == APOSTROPHE then Token(InSingleQuotes, line[p + 1..], current)
               else Token(Bare, line[p + 1..], current + [line[p]])
  {
    Suffix(line, p);
  }

  lemma BlankAt(line: seq<byte>, p: nat)
    requires p <= |line|
    ensures SkipBlanks(line[p..]) == if IsSpace(At(line, p)) then SkipBlanks(line[p + 1..]) else line[p..]
  {
    Suffix(line, p);
  }

  // Split after the blanks have been skipped.
  lemma SplitAt(s: seq<byte>, t: seq<byte>)
    requires t == SkipBlanks(s)
    ensures Split(s) == if At(t, 0) == NUL then Some([])
                        else match Token(Bare, t, [])
                             case None => None
                             case Some((token, rest)) => Prepend([token], Split(rest))
  {
    hide Token;
  }

  // sdssplitargs
  method SplitArgs(line: seq<byte>) returns (argv: Option<seq<seq<byte>>>)
    ensures argv == Split(line)
  {
    hide Token, Split, SkipBlanks;
    var p: nat, vector := 0, [];
    assert line[0..] == line;
    PrependNothing(vector, Split(line));
    while true
      invariant p <= |line|
      invariant Split(line) == Prepend(vector, Split(line[p..]))
      decreases |line| - p
    {
      ghost var start := p;
      while At(line, p) != NUL && IsSpace(At(line, p))
        invariant start <= p <= |line|
        invariant SkipBlanks(line[start..]) == SkipBlanks(line[p..])
        decreases |line| - p
      {
        BlankAt(line, p);
        p := p + 1;
      }
      BlankAt(line, p);
      SplitAt(line[start..], line[p..]);
      Suffix(line, p);
      if At(line, p) != NUL {
        var ok, current, next := ScanToken(line, p);
        if !ok {
          return None;
        }
        TokenConsumes(line[p..]);
        p := next;
        PrependAppends(vector, current, Split(line[p..]));
        vector := vector + [current];
      } else {
        PrependNothing(vector, None);
        return Some(vector);
      }
    }
  }

  lemma PrependAppends(vector: seq<seq<byte>>, token: seq<byte>, r: Option<seq<seq<byte>>>)
    ensures Prepend(vector, Prepend([token], r)) == Prepend(vector + [token], r)
  {
    if r.Some? {
      assert vector + ([token] + r.value) == (vector + [token]) + r.value;
    }
  }

  lemma PrependNothing(vector: seq<seq<byte>>, r: Option<seq<seq<byte>>>)
    ensures Prepend([], r) == r && Prepend(vector, Some([])) == Some(vector)
  {
    assert vector + [] == vector;
    if r.Some? {
      assert [] + r.value == r.value;
    }
  }

  // The inner loop: one token from start.
  method ScanToken(line: seq<byte>, start: nat) returns (ok: bool, current: seq<byte>, p: nat)
    requires start <= |line|
    ensures p <= |line|
    ensures Token(Bare, line[start..], []) == if ok then Some((current, line[p..])) else None
  {
    hide Token, IsHexDigit, HexDigitToInt, IsSpace;
    var inq, insq, done := false, false, false;
    p, current, ok := start, [], true;
    while !done
      invariant p <= |line| && !(inq && insq)
      invariant Token(Bare, line[start..], [])
                == if done then Some((current, line[p..]))
                   else Token(if inq then InQuotes else if insq then InSingleQuotes else Bare, line[p..], current)
      decreases !done, |line| - p, !inq && !insq
    {
      if inq {
        InQuotesAt(line, p, current);
        if At(line, p) == BACKSLASH && At(line, p + 1) == LETTER_X
           && IsHexDigit(At(line, p + 2)) && IsHexDigit(At(line, p + 3)) {
          HexIsInside(line, p);
          current := current + [HexDigitToInt(line[p + 2]) * 16 + HexDigitToInt(line[p + 3])];
          p := p + 3;
        } else if At(line, p) == BACKSLASH && At(line, p + 1) != NUL {
          p := p + 1;
          current := current + [Unescape(line[p])];
        } else if At(line, p) == QUOTE {
          if At(line, p + 1) != NUL && !IsSpace(At(line, p + 1)) {
            ok := false;
            return;
          }
          done := true;
        } else if At(line, p) == NUL {
          ok := false;
          return;
        } else {
          current := current + [line[p]];
        }
      } else if insq {
        InSingleQuotesAt(line, p, current);
        if At(line, p) == BACKSLASH && At(line, p + 1) == APOSTROPHE {
          p := p + 1;
          current := current + [APOSTROPHE];
        } else if At(line, p) == APOSTROPHE {
          if At(line, p + 1) != NUL && !IsSpace(At(line, p + 1)) {
            ok := false;
            return;
          }
          done := true;
        } else if At(line, p) == NUL {
          ok := false;
          return;
        } else {
          current := current + [line[p]];
        }
      } else {
        BareAt(line, p, current);
        match At(line, p) {
          case 32 => done := true;
          case 10 => done := true;
          case 13 => done := true;
          case 9 => done := true;
          case 0 => done := true;
          case 34 => inq := true;
          case 39 => insq := true;
          case _ => current := current + [line[p]];
        }
      }
      if At(line, p) != NUL {
        p := p + 1;
      }
    }
  }

  lemma HexIsInside(line: seq<byte>, p: nat)
    requires IsHexDigit(At(line, p + 3))
    ensures p + 3 < |line| && line[p + 3] != NUL
  {
  }

  // --- the round trip ---

  lemma HexDigitRound(d: nat)
    requires d < 16
    ensures IsHexDigit(HexDigit(d)) && HexDigitToInt(HexDigit(d)) == d && HexDigit(d) != NUL
  {
  }

  // An escaped byte is read back as that byte, whatever follows.
  lemma EscapeRound(c: byte, rest: seq<byte>, current: seq<byte>)
    ensures Token(InQuotes, Escape(c) + rest, current) == Token(InQuotes, rest, current + [c])
  {
    var e, s := Escape(c), Escape(c) + rest;
    assert s[|e|..] == rest;
    if |e| == 4 {
      HexDigitRound(c / 16);
      HexDigitRound(c % 16);
      assert s[2] == HexDigit(c / 16) && s[3] == HexDigit(c % 16);
      assert IsHexEscape(s);
    } else if |e| == 2 {
      assert s[1] == e[1];
      assert !IsHexEscape(s) && Unescape(e[1]) == c;
    } else {
      assert s[0] == c;
    }
  }

  lemma {:induction false} QuotedRound(p: seq<byte>, rest: seq<byte>, current: seq<byte>)
    ensures Token(InQuotes, EscapeAll(p) + ([QUOTE] + rest), current)
            == if Ends(rest) then Some((current + p, rest)) else None
    decreases p
  {
    hide Escape;
    var end := [QUOTE] + rest;
    if p == [] {
      assert EscapeAll(p) + end == end && end[1..] == rest && current + p == current;
    } else {
      assert EscapeAll(p) + end == Escape(p[0]) + (EscapeAll(p[1..]) + end);
      EscapeRound(p[0], EscapeAll(p[1..]) + end, current);
      QuotedRound(p[1..], rest, current + [p[0]]);
      assert current + [p[0]] + p[1..] == current + p;
    }
  }

  // A printed string at the start of a line is one argument, provided a blank or nothing follows it.
  lemma ReprIsToken(p: seq<byte>, rest: seq<byte>)
    ensures Token(Bare, Repr(p) + rest, []) == if Ends(rest) then Some((p, rest)) else None
  {
    hide EscapeAll, Ends;
    var s := Repr(p) + rest;
    assert s[0] == QUOTE && s[1..] == EscapeAll(p) + ([QUOTE] + rest);
    QuotedRound(p, rest, []);
    assert [] + p == p;
  }

  predicate Blank(s: seq<byte>) {
    forall i :: 0 <= i < |s| ==> IsSpace(s[i])
  }

  lemma {:induction false} BlanksSkipped(gap: seq<byte>, s: seq<byte>)
    requires Blank(gap)
    ensures SkipBlanks(gap + s) == SkipBlanks(s)
    decreases gap
  {
    if gap == [] {
      assert gap + s == s;
    } else {
      assert (gap + s)[1..] == gap[1..] + s;
      BlanksSkipped(gap[1..], s);
    }
  }

  // A line that starts with a printed string has it as its first argument, and is refused when
  // something other than a blank touches the closing quote.
  lemma SplitRepr(gap: seq<byte>, p: seq<byte>, rest: seq<byte>)
    requires Blank(gap)
    ensures Split(gap + (Repr(p) + rest)) == if Ends(rest) then Prepend([p], Split(rest)) else None
  {
    hide Token, EscapeAll, Ends;
    var t := Repr(p) + rest;
    BlanksSkipped(gap, t);
    assert t[0] == QUOTE;
    ReprIsToken(p, rest);
    SplitAt(gap + t, t);
  }

  // Printed strings, each after some blanks, and blanks at the end.
  function Layout(gaps: seq<seq<byte>>, values: seq<seq<byte>>, end: seq<byte>): seq<byte>
    requires |gaps| == |values|
  {
    if values == [] then end else gaps[0] + (Repr(values[0]) + Layout(gaps[1..], values[1..], end))
  }

  // Splitting such a line gives back exactly the strings, as long as blanks stand between them.
  lemma {:induction false} LayoutRoundTrip(gaps: seq<seq<byte>>, values: seq<seq<byte>>, end: seq<byte>)
    requires |gaps| == |values| && Blank(end)
    requires forall i :: 0 <= i < |gaps| ==> Blank(gaps[i]) && (i > 0 ==> gaps[i] != [])
    ensures Split(Layout(gaps, values, end)) == Some(values)
    decreases values
  {
    hide Split, Repr;
    if values == [] {
      BlanksSkipped(end, []);
      assert end + [] == end;
      SplitAt(end, []);
    } else {
      var rest := Layout(gaps[1..], values[1..], end);
      assert Ends(rest) by {
        if |values| > 1 {
          assert rest[0] == gaps[1][0];
        }
      }
      SplitRepr(gaps[0], values[0], rest);
      LayoutRoundTrip(gaps[1..], values[1..], end);
      assert [values[0]] + values[1..] == values;
    }
  }

  function Joined(values: seq<seq<byte>>): seq<byte> {
    if values == [] then []
    else if |values| == 1 then Repr(values[0])
    else Repr(values[0]) + [SPACE] + Joined(values[1..])
  }

  function Spaces(n: nat): (gaps: seq<seq<byte>>)
    ensures |gaps| == n
  {
    seq(n, _ => [SPACE])
  }

  lemma {:induction false} JoinedIsLayout(values: seq<seq<byte>>)
    requires values != []
    ensures [SPACE] + Joined(values) == Layout(Spaces(|values|), values, [])
    decreases values
  {
    hide Repr;
    var gaps := Spaces(|values|);
    assert gaps[1..] == Spaces(|values| - 1);
    if |values| == 1 {
      assert Layout(gaps[1..], values[1..], []) == [];
    } else {
      JoinedIsLayout(values[1..]);
    }
  }

  // Printing any list of byte strings and splitting the line gives the list back.
  lemma ReprRoundTrip(values: seq<seq<byte>>)
    ensures Split(Joined(values)) == Some(values)
  {
    hide Split, Layout;
    if values == [] {
      SplitAt([], []);
    } else {
      JoinedIsLayout(values);
      LayoutRoundTrip(Spaces(|values|), values, []);
      OneBlank(Joined(values));
    }
  }

  lemma OneBlank(s: seq<byte>)
    ensures Split([SPACE] + s) == Split(s)
  {
    hide Token;
    assert ([SPACE] + s)[1..] == s;
    BlanksSkipped([SPACE], s);
    SplitAt([SPACE] + s, SkipBlanks(s));
    SplitAt(s, SkipBlanks(s));
  }

  // --- single bytes ---

  const LOWER_HEX: string := "0123456789abcdef"
  const UPPER_HEX: string := "0123456789ABCDEF"

  // What the printer makes of a byte: itself, a letter behind a backslash, or two hexadecimal digits.
  lemma BytesPrint(c: byte)
    ensures Escape(c) == match c as char
                         case '"' => [92, 34]
                         case '\\' => [92, 92]
                         case '\n' => [92, 'n' as byte]
                         case '\r' => [92, 'r' as byte]
                         case '\t' => [92, 't' as byte]
                         case _ =>
                           if c == 7 then [92, 'a' as byte]
                           else if c == 8 then [92, 'b' as byte]
                           else if ' ' <= c as char <= '~' then [c]
                           else [92, 'x' as byte, LOWER_HEX[c / 16] as byte, LOWER_HEX[c % 16] as byte]
  {
    hide HexDigit;
    HexDigitsPrint(c / 16);
    HexDigitsPrint(c % 16);
  }

  lemma HexDigitsPrint(d: nat)
    requires d < 16
    ensures HexDigit(d) == LOWER_HEX[d] as byte
  {
  }

  lemma EscapeIsPrintable(c: byte)
    ensures forall i :: 0 <= i < |Escape(c)| ==> ' ' <= Escape(c)[i] as char <= '~'
  {
  }

  // A printed string holds printable characters only.
  lemma {:induction false} ReprIsPrintable(p: seq<byte>)
    ensures forall i :: 0 <= i < |EscapeAll(p)| ==> ' ' <= EscapeAll(p)[i] as char <= '~'
    ensures forall i :: 0 <= i < |Repr(p)| ==> ' ' <= Repr(p)[i] as char <= '~'
  {
    hide Escape;
    if p != [] {
      EscapeIsPrintable(p[0]);
      ReprIsPrintable(p[1..]);
    }
  }

  // A hexadecimal digit is one of these characters, and means its place among them.
  lemma HexDigitsMean(c: byte)
    ensures IsHexDigit(c) <==> c as char in LOWER_HEX || c as char in UPPER_HEX
    ensures forall d :: 0 <= d < 16 && (LOWER_HEX[d] == c as char || UPPER_HEX[d] == c as char) ==>
                          HexDigitToInt(c) == d
  {
  }

  // Within double quotes: \x and two digits, in either case, are the byte they spell; a backslash before
  // n, r, t, b or a is a control character, before anything else nothing; and other bytes are themselves.
  lemma HexIsRead(high: nat, low: nat, x: byte, y: byte, rest: seq<byte>, current: seq<byte>)
    requires high < 16 && low < 16
    requires x as char in {LOWER_HEX[high], UPPER_HEX[high]} && y as char in {LOWER_HEX[low], UPPER_HEX[low]}
    ensures Token(InQuotes, [92, 'x' as byte, x, y] + rest, current)
            == Token(InQuotes, rest, current + [16 * high + low])
  {
    HexDigitsMean(x);
    HexDigitsMean(y);
    var s := [92, 'x' as byte, x, y] + rest;
    assert s[4..] == rest && s[2] == x && s[3] == y;
    assert IsHexEscape(s);
  }

  lemma EscapesAreRead(c: byte, rest: seq<byte>, current: seq<byte>)
    requires c != 0
    requires !(c as char == 'x' && |rest| >= 2 && IsHexDigit(rest[0]) && IsHexDigit(rest[1]))
    ensures Token(InQuotes, [92, c] + rest, current)
            == Token(InQuotes, rest, current + [match c as char
                                                case 'n' => 10 case 'r' => 13 case 't' => 9
                                                case 'b' => 8 case 'a' => 7 case _ => c])
  {
    var s := [92, c] + rest;
    assert s[2..] == rest && At(s, 1) == c;
    assert At(s, 2) == At(rest, 0) && At(s, 3) == At(rest, 1);
    assert !IsHexEscape(s);
  }

  lemma OthersAreRead(c: byte, rest: seq<byte>, current: seq<byte>)
    requires c != 0 && c as char != '"' && c as char != '\\'
    ensures Token(InQuotes, [c] + rest, current) == Token(InQuotes, rest, current + [c])
    ensures Token(InQuotes, [], current) == None
  {
    assert ([c] + rest)[1..] == rest;
  }

  // --- single quotes and bare words ---

  // Single quotes around a string, with a backslash before each single quote in it.
  function Single(p: seq<byte>): seq<byte> {
    if p == [] then [] else (if p[0] == 39 then [92, 39] else [p[0]]) + Single(p[1..])
  }

  // Any string without a NUL, and without a backslash at its end, can be written so.
  lemma {:induction false} SingleQuotedRound(p: seq<byte>, rest: seq<byte>, current: seq<byte>)
    requires forall i :: 0 <= i < |p| ==> p[i] != 0
    requires p != [] ==> p[|p| - 1] != 92
    ensures Token(InSingleQuotes, Single(p) + [39] + rest, current)
            == if Ends(rest) then Some((current + p, rest)) else None
    decreases p
  {
    hide Ends;
    var s := Single(p) + [39] + rest;
    if p == [] {
      assert s == [39] + rest && s[1..] == rest && current + p == current;
    } else {
      var more := Single(p[1..]) + [39] + rest;
      SingleQuotedRound(p[1..], rest, current + [p[0]]);
      assert current + [p[0]] + p[1..] == current + p;
      if p[0] == 39 {
        assert s == [92, 39] + more && s[2..] == more;
      } else {
        assert s == [p[0]] + more && s[1..] == more;
        SingleStarts(p[1..]);
        assert p[0] == 92 ==> p[1..] != [] && more[0] != 39;
      }
    }
  }

  lemma SingleStarts(p: seq<byte>)
    ensures p != [] ==> Single(p) != [] && Single(p)[0] != 39
  {
  }

  // One with a backslash at its end cannot: the backslash escapes the closing quote.
  lemma BackslashAtEnd(rest: seq<byte>, current: seq<byte>)
    ensures Token(InSingleQuotes, [92] + [39] + rest, current) == Token(InSingleQuotes, rest, current + [39])
  {
    var s := [92] + [39] + rest;
    assert s[2..] == rest;
  }

  // A run of bytes other than NUL, quotes and the four characters that end a word is read as it is.
  lemma {:induction false} BareRound(p: seq<byte>, rest: seq<byte>, current: seq<byte>)
    requires forall i :: 0 <= i < |p| ==> p[i] != 0 && p[i] as char !in {'"', '\'', ' ', '\n', '\r', '\t'}
    ensures Token(Bare, p + rest, current) == Token(Bare, rest, current + p)
    ensures rest == [] ==> Token(Bare, p + rest, current) == Some((current + p, []))
    decreases p
  {
    if p == [] {
      assert p + rest == rest && current + p == current;
    } else {
      assert (p + rest)[1..] == p[1..] + rest;
      BareRound(p[1..], rest, current + [p[0]]);
      assert current + [p[0]] + p[1..] == current + p;
    }
  }

  // A line of one byte: a blank is skipped, a quote is never closed, anything else is an argument.
  lemma OneByteLine(c: byte)
    ensures Split([c]) == if c == 0 || c as char == ' ' || 9 <= c <= 13 then Some([])
                          else if c as char in {'"', '\''} then None
                          else Some([[c]])
  {
    assert [c][1..] == [];
    SplitAt([], []);
    if IsSpace(c) {
      SplitAt([c], []);
    } else {
      SplitAt([c], [c]);
      assert [] + [c] == [c] && [[c]] + [] == [[c]];
      BareAt([c], 0, []);
      BareAt([c], 1, [c]);
      InQuotesAt([c], 1, []);
      InSingleQuotesAt([c], 1, []);
      assert [c][0..] == [c];
    }
  }
}
