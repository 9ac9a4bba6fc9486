/** What the grammar reads, marker by marker, as bytes: every line a server may send is covered. */
module RespText {
  import opened Bytes
  import opened Decimal
  import opened Resp
  import opened RespTheorems

  // The text of no signed 64-bit number.
  ghost predicate NoInt64(line: seq<byte>) {
    forall n :: -0x8000_0000_0000_0000 <= n < 0x8000_0000_0000_0000 ==> line != Dec(n)
  }

  // The line behind a marker, and what is read after it.
  lemma Leading(env: Env, depth: nat, ty: ItemType, line: seq<byte>, rest: seq<byte>)
    requires depth <= 8 && NoNewline(line)
    ensures var v := line + CRLF + rest;
            && Newline(v) == Some(|line|) && v[..|line|] == line && v[|line| + 2..] == rest
            && [MarkerOf(ty)] + line + CRLF + rest == [MarkerOf(ty)] + v
  {
    LeadingLine(line, rest);
    assert [MarkerOf(ty)] + line + CRLF + rest == [MarkerOf(ty)] + (line + CRLF + rest);
  }

  // + and - take the line as it is, _ ignores it, and # looks at its first byte.
  lemma LinesRead(env: Env, depth: nat, line: seq<byte>, rest: seq<byte>)
    requires depth <= 8 && NoNewline(line)
    ensures ParseReply(env, depth, [43] + line + [13, 10] + rest) == Done(Status(line), rest)
    ensures ParseReply(env, depth, [45] + line + [13, 10] + rest) == Done(Error(line), rest)
    ensures ParseReply(env, depth, [95] + line + [13, 10] + rest) == Done(Nil, rest)
    ensures ParseReply(env, depth, [35] + line + [13, 10] + rest)
            == Done(Bool(line != [] && line[0] as char in {'t', 'T'}), rest)
  {
    hide Newline, ParseReply;
    var v := line + CRLF + rest;
    Leading(env, depth, TStatus, line, rest);
    Leading(env, depth, TError, line, rest);
    Leading(env, depth, TNil, line, rest);
    Leading(env, depth, TBool, line, rest);
    ParseUnfolds(env, depth, TStatus, v);
    ParseUnfolds(env, depth, TError, v);
    ParseUnfolds(env, depth, TNil, v);
    ParseUnfolds(env, depth, TBool, v);
  }

  // A colon takes the canonical form of a signed 64-bit number and nothing else.
  lemma IntegersRead(env: Env, depth: nat, n: int, rest: seq<byte>)
    requires depth <= 8 && -0x8000_0000_0000_0000 <= n < 0x8000_0000_0000_0000
    ensures ParseReply(env, depth, [58] + Dec(n) + [13, 10] + rest) == Done(Integer(n), rest)
  {
    hide Newline, ParseReply, Dec;
    DecHasNoNewline(n);
    ParseIntOfDec(n);
    Leading(env, depth, TInteger, Dec(n), rest);
    ParseUnfolds(env, depth, TInteger, Dec(n) + CRLF + rest);
  }

  // Behind the five markers that announce a number, anything else is refused.
  lemma NoNumberIsRefused(env: Env, depth: nat, line: seq<byte>, rest: seq<byte>)
    requires depth < 8 && NoNewline(line) && NoInt64(line)
    ensures ParseReply(env, depth, [58] + line + [13, 10] + rest) == Wrong(BadInteger)
    ensures ParseReply(env, depth, [36] + line + [13, 10] + rest) == Wrong(BadBulkLength)
    ensures ParseReply(env, depth, [42] + line + [13, 10] + rest) == Wrong(BadCount)
    ensures ParseReply(env, depth, [37] + line + [13, 10] + rest) == Wrong(BadCount)
    ensures ParseReply(env, depth, [126] + line + [13, 10] + rest) == Wrong(BadCount)
  {
    hide Newline, ParseReply, Dec;
    var v := line + CRLF + rest;
    assert ParseInt(line) == None;
    Leading(env, depth, TInteger, line, rest);
    Leading(env, depth, TString, line, rest);
    Leading(env, depth, TAggregate(Array), line, rest);
    Leading(env, depth, TAggregate(Map), line, rest);
    Leading(env, depth, TAggregate(Set), line, rest);
    ParseUnfolds(env, depth, TInteger, v);
    ParseUnfolds(env, depth, TString, v);
    ParseUnfolds(env, depth, TAggregate(Array), v);
    ParseUnfolds(env, depth, TAggregate(Map), v);
    ParseUnfolds(env, depth, TAggregate(Set), v);
  }

  // A dollar: -1 is a nil, a smaller number is refused, any other takes that many bytes and two more,
  // whatever these two are.
  lemma BulksRead(env: Env, depth: nat, n: int, rest: seq<byte>)
    requires depth <= 8 && -0x8000_0000_0000_0000 <= n < 0x8000_0000_0000_0000
    ensures ParseReply(env, depth, [36] + Dec(n) + [13, 10] + rest)
            == if n < -1 then Wrong(BulkRange)
               else if n == -1 then Done(Nil, rest)
               else if |rest| < n + 2 then Short
               else Done(Str(rest[..n]), rest[n + 2..])
  {
    hide Newline, ParseReply, Dec;
    var v := Dec(n) + CRLF + rest;
    DecHasNoNewline(n);
    ParseIntOfDec(n);
    Leading(env, depth, TString, Dec(n), rest);
    ParseUnfolds(env, depth, TString, v);
    var at := |Dec(n)| + 2;
    if 0 <= n && n + 2 <= |rest| {
      assert v[at..at + n] == rest[..n] && v[at + n + 2..] == rest[n + 2..];
    }
  }

  // The markers *, % and ~, below the nesting limit: -1 is a nil, a smaller number is refused, any other
  // takes that many elements, or twice as many behind %.
  lemma AggregatesRead(env: Env, depth: nat, kind: Kind, n: int, rest: seq<byte>)
    requires depth < 8 && -0x8000_0000_0000_0000 <= n < 0x8000_0000_0000_0000
    ensures var marker: byte := match kind case Array => 42 case Map => 37 case Set => 126;
            var count := if marker == 37 then n + n else n;
            ParseReply(env, depth, [marker] + Dec(n) + [13, 10] + rest)
            == if n < -1 then Wrong(CountRange)
               else if n == -1 then Done(Nil, rest)
               else if count > env.limit then Wrong(OutOfMemory)
               else match ParseMany(env, depth + 1, count, rest)
                    case Short => Short
                    case Wrong(fault) => Wrong(fault)
                    case Done(elements, behind) => Done(Aggregate(kind, elements), behind)
  {
    hide Newline, ParseReply, Dec;
    DecHasNoNewline(n);
    ParseIntOfDec(n);
    Leading(env, depth, TAggregate(kind), Dec(n), rest);
    ParseUnfolds(env, depth, TAggregate(kind), Dec(n) + CRLF + rest);
  }

  // So a nil is written $-1, *-1, %-1 or ~-1.
  lemma NilsRead(env: Env, depth: nat, marker: byte, rest: seq<byte>)
    requires depth < 8 && marker as char in {'$', '*', '%', '~'}
    ensures ParseReply(env, depth, [marker, '-' as byte, '1' as byte, 13, 10] + rest) == Done(Nil, rest)
  {
    hide ParseReply, ParseMany;
    assert Dec(-1) == ['-' as byte, '1' as byte];
    assert [marker] + Dec(-1) + [13, 10] + rest == [marker, '-' as byte, '1' as byte, 13, 10] + rest;
    if marker as char == '$' {
      BulksRead(env, depth, -1, rest);
    } else {
      AggregatesRead(env, depth, if marker == 42 then Array else if marker == 37 then Map else Set, -1, rest);
    }
  }

  // At the limit they are refused at once, whatever follows.
  lemma NinthIsRefused(env: Env, marker: byte, v: seq<byte>)
    requires marker in {42, 37, 126}
    ensures ParseReply(env, 8, [marker] + v) == Wrong(TooDeep)
  {
    hide ParseReply;
    ParseUnfolds(env, 8, TAggregate(if marker == 42 then Array else if marker == 37 then Map else Set), v);
  }

  // There are no other markers.
  lemma OtherMarkersAreRefused(env: Env, depth: nat, marker: byte, v: seq<byte>)
    requires depth <= 8 && marker !in {43, 45, 58, 44, 95, 35, 36, 42, 37, 126}
    ensures ParseReply(env, depth, [marker] + v) == Wrong(BadType(marker))
  {
  }

  // Without the end of the line there is no verdict, but for the two cases above.
  lemma UnfinishedLineWaits(env: Env, depth: nat, marker: byte, line: seq<byte>)
    requires marker in {43, 45, 58, 44, 95, 35, 36} || (depth < 8 && marker in {42, 37, 126})
    requires depth <= 8 && NoNewline(line)
    ensures ParseReply(env, depth, []) == Short && ParseReply(env, depth, [marker] + line) == Short
  {
    hide ParseMany;
    assert ([marker] + line)[1..] == line;
    assert Newline(line) == None;
  }

  // --- doubles ---

  // The text is a comma and inf, or a comma and -inf, in any mixture of cases.
  predicate CommaInf(text: seq<byte>) {
    var from := if |text| > 1 && text[1] as char == '-' then 2 else 1;
    && |text| == from + 3 && text[0] as char == ','
    && text[from] as char in {'i', 'I'} && text[from + 1] as char in {'n', 'N'} && text[from + 2] as char in {'f', 'F'}
  }

  lemma CommaInfIsTested(text: seq<byte>)
    ensures SpellsCommaInf(text) <==> CommaInf(text)
  {
  }

  lemma {:induction false} TextBeforeNul(text: seq<byte>, line: seq<byte>)
    requires (forall i :: 0 <= i < |text| ==> text[i] != 0) && (line == text || text + [0] <= line)
    ensures CString(line) == text
  {
    if text == [] {
    } else {
      assert line[0] == text[0];
      assert line == text || text[1..] + [0] <= line[1..] by {
        if text + [0] <= line {
          assert (text + [0])[1..] == text[1..] + [0];
        }
      }
      TextBeforeNul(text[1..], line[1..]);
      assert [text[0]] + text[1..] == text;
    }
  }

  // A comma takes fewer than 326 bytes, of which those before a NUL count: a number to strtod, or one of
  // the texts above.
  lemma DoublesRead(env: Env, depth: nat, text: seq<byte>, line: seq<byte>, rest: seq<byte>)
    requires depth <= 8 && NoNewline(line)
    requires (forall i :: 0 <= i < |text| ==> text[i] != 0) && (line == text || text + [0] <= line)
    ensures ParseReply(env, depth, [44] + line + [13, 10] + rest)
            == if |line| >= 326 then Wrong(LongDouble)
               else if CommaInf(text) || (text != [] && env.isDouble(text)) then Done(Double(line), rest)
               else Wrong(BadDouble)
  {
    hide Newline, ParseReply, CString, SpellsCommaInf, EqualNoCase;
    TextBeforeNul(text, line);
    CommaInfIsTested(text);
    CommaInfIsSpelled(text);
    Leading(env, depth, TDouble, line, rest);
    ParseUnfolds(env, depth, TDouble, line + CRLF + rest);
  }

  lemma CommaInfIsSpelled(text: seq<byte>)
    ensures SpellsCommaInf(text) <==> EqualNoCase(text, COMMA_INF) || EqualNoCase(text, COMMA_MINUS_INF)
  {
  }
}
