/** The command formatters and the argument walker. */
module Command {
  import opened Bytes
  import opened Decimal
  import opened DecimalPrinters
  import opened Resp
  import opened RespTheorems

  type Argv = seq<seq<byte>>

  // --- the wire form ---

  function Header(marker: byte, n: nat): (s: seq<byte>) {
    [marker] + Dec(n) + CRLF
  }

  function Bulk(arg: seq<byte>): (s: seq<byte>) {
    Header(DOLLAR, |arg|) + arg + CRLF
  }

  function Bulks(argv: Argv): (s: seq<byte>) {
    if argv == [] then [] else Bulk(argv[0]) + Bulks(argv[1..])
  }

  function Wire(argv: Argv): (s: seq<byte>) {
    Header(STAR, |argv|) + Bulks(argv)
  }

  lemma {:induction false} BulksAppend(argv: Argv, more: Argv)
    ensures Bulks(argv + more) == Bulks(argv) + Bulks(more)
  {
    if argv == [] {
      assert argv + more == more;
    } else {
      assert (argv + more)[1..] == argv[1..] + more;
      BulksAppend(argv[1..], more);
    }
  }

  lemma BulksStep(argv: Argv, j: nat)
    requires j < |argv|
    ensures Bulks(argv[..j + 1]) == Bulks(argv[..j]) + Bulk(argv[j])
    ensures Bulks(argv[j..]) == Bulk(argv[j]) + Bulks(argv[j + 1..])
  {
    hide Bulk;
    BulksAppend(argv[..j], [argv[j]]);
    assert argv[..j + 1] == argv[..j] + [argv[j]];
    BulksOne(argv[j]);
    assert argv[j..][0] == argv[j] && argv[j..][1..] == argv[j + 1..];
  }

  lemma BulksOne(arg: seq<byte>)
    ensures Bulks([arg]) == Bulk(arg)
  {
    hide Bulk;
    assert Bulk(arg) + [] == Bulk(arg);
    assert [arg][1..] == [];
  }

  // --- redisFormatCommandArgv ---

  method BulkLen(len: nat) returns (n: nat)
    ensures forall arg: seq<byte> :: |arg| == len ==> n == |Bulk(arg)|
  {
    var digits := CountDigits(len);
    n := 1 + digits + 2 + len + 2;
  }

  method CopyTo(cmd: array<byte>, pos: nat, src: seq<byte>)
    requires pos + |src| <= cmd.Length
    modifies cmd
    ensures cmd[..pos + |src|] == old(cmd[..pos]) + src
  {
    forall i | 0 <= i < |src| {
      cmd[pos + i] := src[i];
    }
    assert cmd[..pos] == old(cmd[..pos]) && cmd[pos..pos + |src|] == src;
  }

  // sprintf of a marker, a count and CRLF; the terminator it writes lies inside cmd.
  method PrintHeader(cmd: array<byte>, pos: nat, marker: byte, n: nat) returns (pos': nat)
    requires pos + |Header(marker, n)| < cmd.Length
    modifies cmd
    ensures pos' == pos + |Header(marker, n)| && cmd[..pos'] == old(cmd[..pos]) + Header(marker, n)
  {
    hide Header;
    var text := Header(marker, n);
    CopyTo(cmd, pos, text);
    pos' := pos + |text|;
    ghost var done := cmd[..pos'];
    cmd[pos'] := NUL;
    assert cmd[..pos'] == done;
  }

  // Write the bulks of argv from pos on and terminate them.
  method PrintArguments(cmd: array<byte>, argv: Argv, from: nat) returns (pos: nat)
    requires from + |Bulks(argv)| < cmd.Length
    modifies cmd
    ensures pos == from + |Bulks(argv)|
    ensures cmd[..pos] == old(cmd[..from]) + Bulks(argv) && cmd[pos] == NUL
  {
    hide Bulks, Header;
    pos := from;
    ghost var start := cmd[..from];
    assert argv[..0] == [] && argv[0..] == argv && Bulks([]) == [] by { BulksNone(); }
    assert start + [] == start;
    for j := 0 to |argv|
      invariant pos == from + |Bulks(argv[..j])| && pos + |Bulks(argv[j..])| < cmd.Length
      invariant cmd[..pos] == start + Bulks(argv[..j])
      invariant Bulks(argv) == Bulks(argv[..j]) + Bulks(argv[j..])
    {
      BulksStep(argv, j);
      ghost var sofar := cmd[..pos];
      pos := PrintHeader(cmd, pos, DOLLAR, |argv[j]|);
      CopyTo(cmd, pos, argv[j]);
      pos := pos + |argv[j]|;
      CopyTo(cmd, pos, CRLF);
      pos := pos + 2;
      assert cmd[..pos] == sofar + Bulk(argv[j]);
    }
    assert argv[..|argv|] == argv && argv[|argv|..] == [];
    BulksNone();
    ghost var done := cmd[..pos];
    cmd[pos] := NUL;
    assert cmd[..pos] == done;
  }

  lemma BulksNone()
    ensures Bulks([]) == []
  {
  }

  // The bytes needed, counted in an int.
  method IntLength(argv: Argv) returns (totlen: CInt)
    ensures totlen == ToCInt(|Wire(argv)|)
    ensures totlen == |Wire(argv)| <==> |Wire(argv)| <= INT_MAX
  {
    hide Bulks, ToCInt;
    var digits := CountDigits(|argv|);
    totlen := ToCInt(1 + digits + 2);
    assert argv[..0] == [];
    BulksNone();
    HeaderText(STAR, |argv|);
    for j := 0 to |argv|
      invariant totlen == ToCInt(|Header(STAR, |argv|)| + |Bulks(argv[..j])|)
    {
      BulksStep(argv, j);
      var n := BulkLen(|argv[j]|);
      ToCIntAdds(|Header(STAR, |argv|)| + |Bulks(argv[..j])|, n);
      totlen := ToCInt(totlen + n);
    }
    assert argv[..|argv|] == argv;
  }

  // What a formatter that counts in an int returns: the command, or nothing because the allocator refuses
  // a negative number of bytes; or the bytes allocated are too few to write the command to.
  datatype Formatted = Written(cmd: array<byte>, totlen: CInt) | Refused | TooSmall

  // The command the formatter writes, if it writes one.
  function ArgvCommand(argv: Argv): (cmd: Option<seq<byte>>) {
    if |Wire(argv)| < INT_MAX then Some(Wire(argv)) else None
  }

  // Allocate and print. The source does not look whether the bytes allocated are enough.
  method Build(argv: Argv, totlen: CInt) returns (r: Formatted)
    requires totlen == ToCInt(|Wire(argv)|)
    ensures r.Written? <==> |Wire(argv)| < INT_MAX
    ensures r.Refused? <==> ToCInt(|Wire(argv)| + 1) < 0
    ensures r.Written? ==>
              && r.totlen == |Wire(argv)| && r.cmd.Length == r.totlen + 1
              && r.cmd[..r.totlen] == Wire(argv) && r.cmd[r.totlen] == NUL
  {
    hide Header, Bulks;
    var room := ToCInt(totlen + 1);
    ToCIntAdds(|Wire(argv)|, 1);
    if room < 0 {
      return Refused;
    }
    if room <= |Wire(argv)| {
      return TooSmall;
    }
    var cmd := new byte[room];
    var pos := PrintHeader(cmd, 0, STAR, |argv|);
    assert cmd[..0] == [] && [] + Header(STAR, |argv|) == cmd[..pos];
    pos := PrintArguments(cmd, argv, pos);
    assert pos == totlen;
    r := Written(cmd, totlen);
  }

  // The length counted is what is written, terminator excluded, if and only if it and the terminator fit
  // an int; otherwise there is no command.
  method FormatCommandArgv(argv: Argv) returns (r: Formatted)
    requires |argv| <= INT_MAX
    ensures r.Written? <==> |Wire(argv)| < INT_MAX
    ensures r.Refused? <==> ToCInt(|Wire(argv)| + 1) < 0
    ensures r.Written? ==>
              && r.totlen == |Wire(argv)| && r.cmd.Length == r.totlen + 1
              && r.cmd[..r.totlen] == Wire(argv) && r.cmd[r.totlen] == NUL
    ensures ArgvCommand(argv) == if r.Written? then Some(r.cmd[..r.totlen]) else None
  {
    var totlen := IntLength(argv);
    r := Build(argv, totlen);
  }

  // --- redisFormatSdsCommandArgv ---

  // %u prints an unsigned int: a length is reduced to 32 bits.
  const UINT_RANGE: nat := 0x1_0000_0000

  function SdsBulks(argv: Argv): (s: seq<byte>) {
    if argv == [] then []
    else Header(DOLLAR, |argv[0]| % UINT_RANGE) + argv[0] + CRLF + SdsBulks(argv[1..])
  }

  function SdsWire(argv: Argv): (s: seq<byte>) {
    Header(STAR, |argv|) + SdsBulks(argv)
  }

  ghost predicate Short32(argv: Argv) {
    forall j :: 0 <= j < |argv| ==> |argv[j]| < 0x1_0000_0000
  }

  // The bytes needed, counted in an unsigned long long.
  method TotalLength(argv: Argv) returns (totlen: nat)
    ensures totlen == |Wire(argv)|
  {
    var digits := CountDigits(|argv|);
    totlen := 1 + digits + 2;
    assert argv[..0] == [] && totlen == |Header(STAR, |argv|)|;
    for j := 0 to |argv|
      invariant totlen == |Header(STAR, |argv|)| + |Bulks(argv[..j])|
    {
      BulksStep(argv, j);
      var n := BulkLen(|argv[j]|);
      totlen := totlen + n;
    }
    assert argv[..|argv|] == argv;
  }

  // ok is the source's assertion that the announced length was produced; len, what it returns, is cut to
  // an int.
  method FormatSdsCommandArgv(argv: Argv) returns (ok: bool, cmd: seq<byte>, len: CInt)
    requires |argv| <= INT_MAX
    ensures cmd == SdsWire(argv)
    ensures ok <==> |cmd| == |Wire(argv)|
    ensures Short32(argv) ==> ok && cmd == Wire(argv)
    ensures ok ==> (len == |cmd| <==> |cmd| <= INT_MAX)
  {
    hide Header, SdsBulks, Bulks, ToCInt;
    var totlen := TotalLength(argv);
    var buf := new byte[21];
    var l := Sdsll2str(buf, |argv|);
    cmd := [STAR] + buf[..l] + CRLF;
    HeaderText(STAR, |argv|);
    ghost var head := cmd;
    assert argv[0..] == argv;
    var j := 0;
    while j < |argv|
      invariant j <= |argv|
      invariant head + SdsBulks(argv) == cmd + SdsBulks(argv[j..])
    {
      SdsBulksStep(argv, j);
      ghost var before := cmd;
      l := Sdsull2str(buf, |argv[j]| % UINT_RANGE);
      HeaderText(DOLLAR, |argv[j]| % UINT_RANGE);
      cmd := cmd + ([DOLLAR] + buf[..l] + CRLF);
      cmd := cmd + argv[j];
      cmd := cmd + CRLF;
      assert cmd == before + (Header(DOLLAR, |argv[j]| % UINT_RANGE) + argv[j] + CRLF);
      j := j + 1;
    }
    assert argv[j..] == [];
    SdsBulksStep(argv, j);
    ok := |cmd| == totlen;
    len := ToCInt(totlen);
    if Short32(argv) {
      SdsAgrees(argv);
    }
  }

  lemma HeaderText(marker: byte, n: nat)
    ensures Header(marker, n) == [marker] + Dec(n) + CRLF && Dec(n) == Digits(n)
  {
  }

  lemma SdsBulksStep(argv: Argv, j: nat)
    requires j <= |argv|
    ensures j == |argv| ==> SdsBulks(argv[j..]) == []
    ensures j < |argv| ==>
              SdsBulks(argv[j..])
              == Header(DOLLAR, |argv[j]| % UINT_RANGE) + argv[j] + CRLF + SdsBulks(argv[j + 1..])
  {
  }

  lemma {:induction false} SdsAgrees(argv: Argv)
    requires Short32(argv)
    ensures SdsBulks(argv) == Bulks(argv)
  {
    hide Header, Bulks, SdsBulks, Short32;
    if argv == [] {
      BulksNone();
      SdsBulksStep(argv, 0);
      assert argv[0..] == argv;
    } else {
      ShortStep(argv);
      SdsAgrees(argv[1..]);
      Reduced(|argv[0]|);
      FirstBulk(argv);
    }
  }

  // The sds formatter writes the wire form of exactly the arguments shorter than 2^32 bytes.
  lemma SdsIsWireIffShort(argv: Argv)
    ensures SdsWire(argv) == Wire(argv) <==> Short32(argv)
  {
    hide Header, Bulks, SdsBulks, Short32;
    SdsAgreesOnlyIfShort(argv);
    SameFront(Header(STAR, |argv|), SdsBulks(argv), Bulks(argv));
  }

  // So the two formatters write the same command if and only if its length and a terminator fit an int.
  lemma FormattersAgreeIff(argv: Argv)
    ensures ArgvCommand(argv) == Some(SdsWire(argv)) <==> |Wire(argv)| < INT_MAX
  {
    hide Header, Bulks, SdsBulks;
    if |Wire(argv)| < INT_MAX {
      LengthsFit(argv);
      SdsIsWireIffShort(argv);
    }
  }

  // One argument of 2^31 bytes: only the sds formatter writes the command.
  lemma OnlySdsWrites(arg: seq<byte>)
    requires |arg| == 0x8000_0000
    ensures SdsWire([arg]) == Wire([arg]) && ArgvCommand([arg]) == None && ToCInt(|Wire([arg])| + 1) < 0
  {
    hide Digits, SdsBulks, Short32;
    SdsIsWireIffShort([arg]);
    ShortStep([arg]);
    NoneIsLong();
    assert [arg][1..] == [];
    BulksOne(arg);
    HeaderText(STAR, 1);
    HeaderText(DOLLAR, |arg|);
    Digits10Correct(1);
    Digits10Correct(|arg|);
  }

  lemma NoneIsLong()
    ensures Short32([])
  {
  }

  lemma {:induction false} SdsAgreesOnlyIfShort(argv: Argv)
    ensures SdsBulks(argv) == Bulks(argv) <==> Short32(argv)
  {
    if argv == [] {
      return;
    }
    hide Header, Bulks, SdsBulks, Short32;
    FirstBulk(argv);
    ShortStep(argv);
    var n, arg := |argv[0]|, argv[0];
    var sds, bulks := SdsBulks(argv[1..]), Bulks(argv[1..]);
    if n < UINT_RANGE {
      Reduced(n);
      SameFront(Header(DOLLAR, n), arg + CRLF + sds, arg + CRLF + bulks);
      SameFront(arg + CRLF, sds, bulks);
      SdsAgreesOnlyIfShort(argv[1..]);
    } else {
      HeadersDiffer(n % UINT_RANGE, n, arg + CRLF + sds, arg + CRLF + bulks);
    }
  }

  lemma ShortStep(argv: Argv)
    requires argv != []
    ensures Short32(argv) <==> |argv[0]| < UINT_RANGE && Short32(argv[1..])
  {
    assert forall j :: 0 < j < |argv| ==> argv[j] == argv[1..][j - 1];
  }

  lemma Reduced(n: nat)
    requires n < UINT_RANGE
    ensures n % UINT_RANGE == n
  {
  }

  lemma FirstBulk(argv: Argv)
    requires argv != []
    ensures SdsBulks(argv) == Header(DOLLAR, |argv[0]| % UINT_RANGE) + (argv[0] + CRLF + SdsBulks(argv[1..]))
    ensures Bulks(argv) == Header(DOLLAR, |argv[0]|) + (argv[0] + CRLF + Bulks(argv[1..]))
  {
    hide Header, Bulks, SdsBulks;
    var n, sds, bulks := |argv[0]|, SdsBulks(argv[1..]), Bulks(argv[1..]);
    SdsBulksStep(argv, 0);
    BulksStep(argv, 0);
    assert argv[0..] == argv;
    Regroup(Header(DOLLAR, n % UINT_RANGE), argv[0], CRLF, sds);
    Regroup(Header(DOLLAR, n), argv[0], CRLF, bulks);
  }

  lemma Regroup(a: seq<byte>, b: seq<byte>, c: seq<byte>, d: seq<byte>)
    ensures a + b + c + d == a + (b + c + d)
  {
  }

  lemma SameFront(front: seq<byte>, u: seq<byte>, v: seq<byte>)
    ensures front + u == front + v <==> u == v
  {
    assert (front + u)[|front|..] == u && (front + v)[|front|..] == v;
  }

  lemma HeadersDiffer(m: nat, n: nat, u: seq<byte>, v: seq<byte>)
    requires m != n
    ensures Header(DOLLAR, m) + u != Header(DOLLAR, n) + v
  {
    hide Dec, Digits;
    HeaderThen(m, u);
    HeaderThen(n, v);
    DecHasNoNewline(m);
    DecHasNoNewline(n);
    LeadingLine(Dec(m), u);
    LeadingLine(Dec(n), v);
    if Header(DOLLAR, m) + u == Header(DOLLAR, n) + v {
      DecInjective(m, n);
    }
  }

  lemma HeaderThen(n: nat, u: seq<byte>)
    ensures (Header(DOLLAR, n) + u)[1..] == Dec(n) + CRLF + u
  {
    hide Dec;
    assert Header(DOLLAR, n) + u == [DOLLAR] + (Dec(n) + CRLF + u);
  }

  // --- formatting, then parsing ---

  function Strings(argv: Argv): (r: seq<Reply>)
    ensures |r| == |argv| && forall i :: 0 <= i < |argv| ==> r[i] == Str(argv[i])
  {
    seq(|argv|, i requires 0 <= i < |argv| => Str(argv[i]))
  }

  lemma {:induction false} WireIsEncoding(env: Env, argv: Argv)
    requires forall j :: 0 <= j < |argv| ==> Int64(|argv[j]|)
    ensures EncodeMany(Strings(argv)) == Bulks(argv)
    ensures SendableMany(env, Strings(argv)) && NestingMany(Strings(argv)) == 0
  {
    if argv != [] {
      assert Strings(argv)[1..] == Strings(argv[1..]);
      WireIsEncoding(env, argv[1..]);
      EncodeStr(argv[0]);
      assert forall j :: 0 < j < |argv| ==> argv[j] == argv[1..][j - 1];
    }
  }

  lemma EncodeStr(text: seq<byte>)
    ensures Encode(Str(text)) == Bulk(text)
  {
    assert Payload(Str(text)) == Dec(|text|) + CRLF + text + CRLF;
  }

  lemma CommandIsReply(env: Env, argv: Argv)
    requires |Wire(argv)| <= INT_MAX && |argv| <= env.limit
    ensures var r := Aggregate(Array, Strings(argv));
            Encode(r) == Wire(argv) && Sendable(env, r) && Nesting(r) == 1
  {
    hide EncodeMany, Bulks, Dec;
    LengthsFit(argv);
    WireIsEncoding(env, argv);
  }

  // Feeding a formatted command to the reader yields the array of its arguments,
  // byte for byte, and leaves exactly what follows the command.
  lemma FormatParseRoundTrip(env: Env, argv: Argv, rest: seq<byte>)
    requires |Wire(argv)| <= INT_MAX && |argv| <= env.limit
    ensures var r := Aggregate(Array, Strings(argv));
            && ParseReply(env, 0, Wire(argv) + rest) == Done(r, rest)
            && Run(env, INITIAL, Wire(argv) + rest) == Prepend(Some(r), Run(env, INITIAL, rest))
  {
    hide ParseReply, Run, Encode, Wire, Sendable, Nesting, Strings;
    CommandIsReply(env, argv);
    RoundTrip(env, 0, Aggregate(Array, Strings(argv)), rest);
    MachineParses(env, [], Wire(argv) + rest);
  }

  lemma {:induction false} LengthsFit(argv: Argv)
    requires |Bulks(argv)| <= INT_MAX
    ensures |argv| <= INT_MAX && forall j :: 0 <= j < |argv| ==> |argv[j]| <= INT_MAX && Int64(|argv[j]|)
  {
    if argv != [] {
      LengthsFit(argv[1..]);
      BulksLongerThanCount(argv);
      assert forall j :: 0 < j < |argv| ==> argv[j] == argv[1..][j - 1];
    }
  }

  lemma {:induction false} BulksLongerThanCount(argv: Argv)
    ensures |argv| <= |Bulks(argv)|
  {
    if argv != [] {
      BulksLongerThanCount(argv[1..]);
    }
  }

  // --- redisvFormatCommand ---

  // What one step over the format string adds: a byte of text, a whole value, or the
  // space between two arguments.
  datatype Piece = Text(b: byte) | Val(value: seq<byte>) | Gap

  // A conversion the formatter handles itself: %s, %b and %%.
  const LOWER_S: byte := 115
  const LOWER_B: byte := 98

  predicate IsConversion(format: seq<byte>) {
    |format| > 1 && format[0] == PERCENT
  }

  // How many values a format takes, if it uses no printf conversion.
  function ValuesNeeded(format: seq<byte>): (n: Option<nat>)
    decreases |format|
  {
    if format == [] then Some(0)
    else if !IsConversion(format) then ValuesNeeded(format[1..])
    else if format[1] == PERCENT then ValuesNeeded(format[2..])
    else if format[1] == LOWER_S || format[1] == LOWER_B then
      match ValuesNeeded(format[2..])
      case None => None
      case Some(n) => Some(n + 1)
    else None
  }

  predicate Fits(format: seq<byte>, values: seq<seq<byte>>) {
    match ValuesNeeded(format)
    case None => false
    case Some(n) => n <= |values|
  }

  ghost function Pieces(format: seq<byte>, values: seq<seq<byte>>): (p: seq<Piece>)
    requires Fits(format, values)
    decreases |format|
  {
    if format == [] then []
    else if !IsConversion(format) then
      [if format[0] == SPACE then Gap else Text(format[0])] + Pieces(format[1..], values)
    else if format[1] == PERCENT then [Text(PERCENT)] + Pieces(format[2..], values)
    else
      [Val(if format[1] == LOWER_S then CString(values[0]) else values[0])] + Pieces(format[2..], values[1..])
  }

  // The bytes up to the first gap, and what remains from there.
  function TakeWord(pieces: seq<Piece>): (r: (seq<byte>, seq<Piece>))
    ensures |r.1| <= |pieces|
  {
    if pieces == [] || pieces[0].Gap? then ([], pieces)
    else
      var (word, rest) := TakeWord(pieces[1..]);
      ((if pieces[0].Text? then [pieces[0].b] else pieces[0].value) + word, rest)
  }

  // Split at the gaps; values are never looked into.
  function Words(pieces: seq<Piece>): (argv: Argv)
    decreases |pieces|
  {
    if pieces == [] then []
    else if pieces[0].Gap? then Words(pieces[1..])
    else
      var (word, rest) := TakeWord(pieces);
      assert |rest| < |pieces|;
      [word] + Words(rest)
  }

  // The words still to come when cur is the argument being collected.
  function Resume(cur: seq<byte>, touched: bool, pieces: seq<Piece>): (argv: Argv) {
    if touched then
      var (word, rest) := TakeWord(pieces);
      [cur + word] + Words(rest)
    else Words(pieces)
  }

  lemma ResumeStep(cur: seq<byte>, touched: bool, pieces: seq<Piece>)
    requires pieces != [] && (touched || cur == [])
    ensures !pieces[0].Gap? ==>
              Resume(cur, touched, pieces)
              == Resume(cur + (if pieces[0].Text? then [pieces[0].b] else pieces[0].value), true, pieces[1..])
    ensures pieces[0].Gap? ==>
              Resume(cur, touched, pieces) == (if touched then [cur] else []) + Resume([], false, pieces[1..])
  {
    var (word, rest) := TakeWord(pieces);
    if pieces[0].Gap? {
      assert cur + [] == cur;
    } else {
      var piece := if pieces[0].Text? then [pieces[0].b] else pieces[0].value;
      var (word', rest') := TakeWord(pieces[1..]);
      assert cur + (piece + word') == cur + piece + word';
      assert [] + word == word;
    }
  }

  lemma ResumeEnd(cur: seq<byte>, touched: bool)
    ensures Resume(cur, touched, []) == if touched then [cur] else []
  {
    assert cur + [] == cur;
  }

  lemma PiecesStep(format: seq<byte>, values: seq<seq<byte>>)
    requires format != [] && Fits(format, values)
    ensures var p, used := Pieces(format, values), if IsConversion(format) then 2 else 1;
            var taken := IsConversion(format) && format[1] != PERCENT;
            && used <= |format| && (taken ==> values != [])
            && Fits(format[used..], if taken then values[1..] else values)
            && p != [] && p[1..] == Pieces(format[used..], if taken then values[1..] else values)
            && p[0] == (if !IsConversion(format) then (if format[0] == SPACE then Gap else Text(format[0]))
                        else if format[1] == PERCENT then Text(PERCENT)
                        else Val(if format[1] == LOWER_S then CString(values[0]) else values[0]))
  {
  }

  // The scan over the format: split into arguments and count the bytes they need.
  method ScanFormat(format: seq<byte>, values: seq<seq<byte>>) returns (argv: Argv, totlen: CInt)
    requires Fits(format, values)
    ensures argv == Words(Pieces(format, values)) && totlen == ToCInt(|Bulks(argv)|)
  {
    hide Fits, Pieces, Words, Resume, Bulks, Bulk, ValuesNeeded, CString;
    var c, a, curarg, touched := 0, 0, [], false;
    argv, totlen := [], 0;
    BulksNone();
    assert format[0..] == format && values[0..] == values;
    Untouched(Pieces(format, values));
    while c < |format|
      invariant c <= |format| && a <= |values| && (touched || curarg == [])
      invariant Fits(format[c..], values[a..])
      invariant Words(Pieces(format, values)) == argv + Resume(curarg, touched, Pieces(format[c..], values[a..]))
      invariant totlen == ToCInt(|Bulks(argv)|)
    {
      ghost var pieces := Pieces(format[c..], values[a..]);
      PiecesStep(format[c..], values[a..]);
      ResumeStep(curarg, touched, pieces);
      if format[c] != PERCENT || c + 1 == |format| {
        assert format[c..][1..] == format[c + 1..];
        if format[c] == SPACE {
          if touched {
            totlen := PushArgument(argv, curarg, totlen);
            argv := argv + [curarg];
            curarg := [];
            touched := false;
          }
        } else {
          curarg := curarg + [format[c]];
          touched := true;
        }
      } else {
        assert format[c..][2..] == format[c + 2..];
        assert a < |values| ==> values[a..][1..] == values[a + 1..];
        match format[c + 1] {
          case 115 =>
            curarg := curarg + CString(values[a]);
            a := a + 1;
          case 98 =>
            curarg := curarg + values[a];
            a := a + 1;
          case _ =>
            assert format[c + 1] == PERCENT by { OnlyThree(format[c..], values[a..]); }
            curarg := curarg + [PERCENT];
        }
        touched := true;
        c := c + 1;
      }
      c := c + 1;
    }
    NoPieces(values[a..]);
    assert format[c..] == [];
    ResumeEnd(curarg, touched);
    if touched {
      totlen := PushArgument(argv, curarg, totlen);
      argv := argv + [curarg];
    }
  }

  method PushArgument(argv: Argv, arg: seq<byte>, totlen: CInt) returns (totlen': CInt)
    requires totlen == ToCInt(|Bulks(argv)|)
    ensures totlen' == ToCInt(|Bulks(argv + [arg])|)
  {
    hide ToCInt;
    var n := BulkLen(|arg|);
    ToCIntAdds(|Bulks(argv)|, n);
    totlen' := ToCInt(totlen + n);
    BulksAppend(argv, [arg]);
    assert Bulks([arg]) == Bulk(arg) + Bulks([]);
  }

  lemma Untouched(pieces: seq<Piece>)
    ensures Words(pieces) == [] + Resume([], false, pieces)
  {
  }

  lemma NoPieces(values: seq<seq<byte>>)
    ensures Fits([], values) && Pieces([], values) == []
  {
  }

  lemma OnlyThree(format: seq<byte>, values: seq<seq<byte>>)
    requires Fits(format, values) && IsConversion(format)
    ensures format[1] == PERCENT || format[1] == LOWER_S || format[1] == LOWER_B
  {
  }

  // The command built from a format is the wire form of the format's words, if that fits an int.
  method FormatCommand(format: seq<byte>, values: seq<seq<byte>>) returns (r: Formatted)
    requires Fits(format, values) && |Words(Pieces(format, values))| <= INT_MAX
    ensures var argv := Words(Pieces(format, values));
            && (r.Written? <==> |Wire(argv)| < INT_MAX)
            && (r.Refused? <==> ToCInt(|Wire(argv)| + 1) < 0)
            && (r.Written? ==>
                  && r.totlen == |Wire(argv)| && r.cmd.Length == r.totlen + 1
                  && r.cmd[..r.totlen] == Wire(argv) && r.cmd[r.totlen] == NUL)
  {
    hide Header, Bulks, Words, Pieces, Fits, ToCInt;
    var argv, totlen := ScanFormat(format, values);
    var digits := CountDigits(|argv|);
    HeaderText(STAR, |argv|);
    var n := 1 + digits + 2;
    ToCIntAdds(|Bulks(argv)|, n);
    totlen := ToCInt(totlen + n);
    r := Build(argv, totlen);
  }

  // "%b %b ... %b"
  function AllBinary(n: nat): (format: seq<byte>) {
    if n == 0 then []
    else if n == 1 then [PERCENT, LOWER_B]
    else [PERCENT, LOWER_B, SPACE] + AllBinary(n - 1)
  }

  // With only %b conversions and single spaces, the arguments are exactly the values,
  // whatever spaces, percents or NULs are in them, and however many are empty.
  lemma {:induction false} BinaryFormatKeepsValues(values: seq<seq<byte>>)
    ensures Fits(AllBinary(|values|), values)
    ensures Words(Pieces(AllBinary(|values|), values)) == values
    decreases |values|
  {
    var format := AllBinary(|values|);
    if |values| == 1 {
      assert format[2..] == [] && ValuesNeeded([]) == Some(0);
      BinaryWords(values[0], []);
      assert Words([]) == [] && [values[0]] + [] == values;
    } else if |values| > 1 {
      var more := values[1..];
      BinaryFormatKeepsValues(more);
      var rest := Pieces(AllBinary(|more|), more);
      assert format[2..] == [SPACE] + AllBinary(|more|) && format[2..][1..] == AllBinary(|more|);
      assert Pieces(format[2..], more) == [Gap] + rest;
      assert Pieces(format, values) == [Val(values[0])] + ([Gap] + rest);
      BinaryWords(values[0], rest);
      assert [values[0]] + more == values;
    }
  }

  lemma BinaryWords(value: seq<byte>, rest: seq<Piece>)
    ensures Words([Val(value)] + ([Gap] + rest)) == [value] + Words(rest)
    ensures Words([Val(value)]) == [value] + Words([])
  {
    var p := [Val(value)] + ([Gap] + rest);
    assert p[1..] == [Gap] + rest && TakeWord(p[1..]) == ([], p[1..]);
    assert ([Gap] + rest)[1..] == rest;
    assert TakeWord([Val(value)][1..]) == ([], []);
    assert value + [] == value;
  }

  // --- nextArgument ---

  // strchr: the first b at or after p, before the terminator.
  function Strchr(m: seq<byte>, p: nat, b: byte): (r: Option<nat>)
    requires p <= |m|
    ensures r.Some? ==> p <= r.value < |m| && m[r.value] == b
    decreases |m| - p
  {
    if p == |m| then None
    else if m[p] == b then Some(p)
    else if m[p] == NUL then None
    else Strchr(m, p + 1, b)
  }

  // The value of the digits from p on, read up to the first non-digit.
  function Strtol(m: seq<byte>, p: nat, acc: nat := 0): (n: nat)
    requires p <= |m|
    decreases |m| - p
  {
    if p < |m| && IsDigit(m[p]) then Strtol(m, p + 1, acc * 10 + (m[p] - ZERO)) else acc
  }

  datatype Next = NoMore | NoLine | Argument(at: nat, len: int, next: int)

  // strtol stops at the largest long; the source then casts the long to an int.
  function Saturated(n: nat): nat {
    if n > INT64_MAX then INT64_MAX else n
  }

  // Where the argument announced at or after start lies, and where the next one starts.
  function NextArgument(m: seq<byte>, start: nat): (r: Next)
    requires start < |m|
  {
    match (if m[start] == DOLLAR then Some(start) else Strchr(m, start, DOLLAR))
    case None => NoMore
    case Some(p) =>
      var len := ToCInt(Saturated(Strtol(m, p + 1)));
      match Strchr(m, p, CR)
      case None => NoLine
      case Some(q) => Argument(q + 2, len, q + 2 + len + 2)
  }

  // Call nextArgument until it returns NULL, collecting the arguments.
  function Walk(m: seq<byte>, start: nat): (argv: Argv)
    requires start < |m|
    decreases |m| - start
  {
    match NextArgument(m, start)
    case Argument(at, len, next) =>
      if len >= 0 && start < next < |m| then [m[at..at + len]] + Walk(m, next) else []
    case _ => []
  }

  lemma {:induction false} StrtolReads(m: seq<byte>, p: nat, digits: seq<byte>, k: nat)
    requires AllDigits(digits) && k <= |digits| && p + |digits| < |m|
    requires m[p..p + |digits|] == digits && !IsDigit(m[p + |digits|])
    ensures Strtol(m, p + k, Value(digits[..k])) == Value(digits)
    decreases |digits| - k
  {
    if k < |digits| {
      assert m[p + k] == m[p..p + |digits|][k];
      assert digits[..k + 1][..k] == digits[..k];
      StrtolReads(m, p, digits, k + 1);
    } else {
      assert digits[..k] == digits;
    }
  }

  lemma {:induction false} StrchrSkips(m: seq<byte>, p: nat, q: nat, b: byte)
    requires p <= q < |m| && m[q] == b
    requires forall i :: p <= i < q ==> m[i] != b && m[i] != NUL
    ensures Strchr(m, p, b) == Some(q)
    decreases q - p
  {
    if p < q {
      StrchrSkips(m, p + 1, q, b);
    }
  }

  // One step over a bulk that starts at p: the length found is the argument's, cut to an int.
  lemma NextIsBulk(m: seq<byte>, p: nat, arg: seq<byte>)
    requires p + |Bulk(arg)| < |m| && m[p..p + |Bulk(arg)|] == Bulk(arg)
    ensures var at := p + 1 + |Dec(|arg|)| + 2;
            var len := ToCInt(Saturated(|arg|));
            && NextArgument(m, p) == Argument(at, len, at + len + 2)
            && at + |arg| + 2 == p + |Bulk(arg)| && m[at..at + |arg|] == arg
            && (len == |arg| <==> |arg| <= INT_MAX)
  {
    hide Strtol, Strchr, Digits, Value, Bulk;
    var d := Digits(|arg|);
    var q := p + 1 + |d|;
    BulkParts(m, p, arg);
    ValueOfDigits(|arg|);
    assert d[..0] == [];
    NoDigits();
    StrtolReads(m, p + 1, d, 0);
    assert forall i :: p < i < q ==> m[i] == m[p + 1..q][i - p - 1];
    StrchrSkips(m, p, q, CR);
  }

  lemma NoDigits()
    ensures Value([]) == 0
  {
  }

  lemma BulkParts(m: seq<byte>, p: nat, arg: seq<byte>)
    requires p + |Bulk(arg)| < |m| && m[p..p + |Bulk(arg)|] == Bulk(arg)
    ensures var q := p + 1 + |Digits(|arg|)|;
            && Dec(|arg|) == Digits(|arg|) && p + |Bulk(arg)| == q + 4 + |arg|
            && m[p] == DOLLAR && m[p + 1..q] == Digits(|arg|) && m[q] == CR && m[q + 2..q + 2 + |arg|] == arg
  {
    hide Digits, Dec, Bulk;
    BulkText(arg);
    BulkLayout(Digits(|arg|), arg);
    Placed(m, p, Bulk(arg), Digits(|arg|), arg);
  }

  // The parts of a bulk, where the bulk stands in a message.
  lemma Placed(m: seq<byte>, p: nat, s: seq<byte>, d: seq<byte>, arg: seq<byte>)
    requires p + |s| < |m| && m[p..p + |s|] == s
    requires |s| == |d| + |arg| + 5 && s[0] == DOLLAR && s[1..1 + |d|] == d && s[1 + |d|] == CR
    requires s[3 + |d|..3 + |d| + |arg|] == arg
    ensures var q := p + 1 + |d|;
            m[p] == DOLLAR && m[p + 1..q] == d && m[q] == CR && m[q + 2..q + 2 + |arg|] == arg
  {
    assert forall i :: 0 <= i < |s| ==> m[p + i] == s[i];
    var q := p + 1 + |d|;
    Inside(m, p, |s|, 1, 1 + |d|);
    Inside(m, p, |s|, 3 + |d|, 3 + |d| + |arg|);
    assert m[p] == m[p + 0];
    assert m[q] == m[p + (1 + |d|)];
  }

  lemma Inside(m: seq<byte>, p: nat, n: nat, i: nat, j: nat)
    requires i <= j <= n && p + n <= |m|
    ensures m[p..p + n][i..j] == m[p + i..p + j]
  {
    var a, b := m[p..p + n][i..j], m[p + i..p + j];
    assert |a| == |b|;
    assert forall k :: 0 <= k < |a| ==> a[k] == b[k];
  }

  lemma BulkText(arg: seq<byte>)
    ensures Dec(|arg|) == Digits(|arg|) && Bulk(arg) == [DOLLAR] + Digits(|arg|) + CRLF + arg + CRLF
  {
    hide Digits;
  }

  lemma BulkLayout(d: seq<byte>, arg: seq<byte>)
    ensures var s := [DOLLAR] + d + CRLF + arg + CRLF;
            |s| == |d| + |arg| + 5 && s[0] == DOLLAR && s[1..1 + |d|] == d && s[1 + |d|] == CR
            && s[3 + |d|..3 + |d| + |arg|] == arg
  {
  }

  lemma {:induction false} WalkBulks(m: seq<byte>, p: nat, argv: Argv)
    requires p < |m| && m[p..] == Bulks(argv) + [NUL]
    ensures Walk(m, p) == argv <==> ShortArguments(argv)
    decreases |argv|
  {
    hide NextArgument, Bulk;
    if argv == [] {
      assert m[p] == m[p..][0] == NUL;
      NothingAtEnd(m, p);
    } else {
      var bulk := Bulk(argv[0]);
      assert m[p..] == bulk + (Bulks(argv[1..]) + [NUL]);
      assert m[p..p + |bulk|] == m[p..][..|bulk|] == bulk;
      assert m[p + |bulk|..] == m[p..][|bulk|..];
      BulkNotEmpty(argv[0]);
      NextIsBulk(m, p, argv[0]);
      ShortArgumentsStep(argv);
      if |argv[0]| <= INT_MAX {
        WalkBulks(m, p + |bulk|, argv[1..]);
        assert Walk(m, p) == [argv[0]] + Walk(m, p + |bulk|);
        assert Walk(m, p)[1..] == Walk(m, p + |bulk|);
        assert [argv[0]] + argv[1..] == argv;
      } else {
        assert Walk(m, p) == [] || |Walk(m, p)[0]| != |argv[0]|;
      }
    }
  }

  // The arguments whose lengths survive the cast to int.
  predicate ShortArguments(argv: Argv) {
    forall j :: 0 <= j < |argv| ==> |argv[j]| <= INT_MAX
  }

  lemma ShortArgumentsStep(argv: Argv)
    requires argv != []
    ensures ShortArguments(argv) <==> |argv[0]| <= INT_MAX && ShortArguments(argv[1..])
  {
    assert forall j :: 0 < j < |argv| ==> argv[j] == argv[1..][j - 1];
  }

  lemma BulkNotEmpty(arg: seq<byte>)
    ensures |Bulk(arg)| > 0
  {
  }

  lemma NothingAtEnd(m: seq<byte>, p: nat)
    requires p < |m| && m[p] == NUL
    ensures NextArgument(m, p) == NoMore
  {
  }

  // Walking a formatted command from its start yields its arguments and then stops, even when they
  // contain '$', CR, LF or NUL, if and only if each of them is shorter than 2^31 bytes.
  lemma WalkReturnsArguments(argv: Argv)
    ensures Walk(Wire(argv) + [NUL], 0) == argv <==> ShortArguments(argv)
  {
    hide Strchr, Strtol, Digits, Bulks, Walk, NextArgument;
    var m, head := Wire(argv) + [NUL], Header(STAR, |argv|);
    assert m[|head|..] == Bulks(argv) + [NUL];
    WalkBulks(m, |head|, argv);
    WalkStarts(argv);
    WalkFrom(m, 0, |head|);
  }

  // From the start of a command nextArgument finds the same as from its first bulk.
  lemma WalkStarts(argv: Argv)
    ensures var m, n := Wire(argv) + [NUL], |Header(STAR, |argv|)|;
            && NextArgument(m, 0) == NextArgument(m, n)
            && (var r := NextArgument(m, n); r.Argument? && r.len >= 0 ==> n < r.next)
  {
    hide Strchr, Strtol, Digits, Bulks;
    var m, head := Wire(argv) + [NUL], Header(STAR, |argv|);
    HeaderText(STAR, |argv|);
    assert forall i :: 0 <= i < |head| ==> m[i] == head[i] != NUL && head[i] != DOLLAR;
    assert m[|head|..] == Bulks(argv) + [NUL];
    SkipToDollar(m, 0, |head|);
    assert m[|head|] == m[|head|..][0];
    FirstOfBulks(argv);
    StrchrHere(m, |head|);
  }

  // An argument and CRLF end the bulk.
  lemma BulkEnds(m: seq<byte>, p: nat, arg: seq<byte>)
    requires p + |Bulk(arg)| <= |m| && m[p..p + |Bulk(arg)|] == Bulk(arg)
    ensures var at := p + 1 + |Dec(|arg|)| + 2; m[at..p + |Bulk(arg)|] == arg + CRLF
  {
    hide Dec;
    var front := Header(DOLLAR, |arg|);
    assert Bulk(arg) == front + (arg + CRLF);
    assert m[p..p + |Bulk(arg)|][|front|..] == m[p + |front|..p + |Bulk(arg)|];
  }

  lemma FirstOfBulks(argv: Argv)
    ensures argv == [] ==> Bulks(argv) == []
    ensures argv != [] ==> |Bulks(argv)| > 0 && Bulks(argv)[0] == DOLLAR
  {
  }

  lemma StrchrHere(m: seq<byte>, p: nat)
    requires p < |m| && (m[p] == DOLLAR || m[p] == NUL)
    ensures Strchr(m, p, DOLLAR) == if m[p] == DOLLAR then Some(p) else None
  {
  }

  // Two starting points from which nextArgument finds the same argument.
  lemma WalkFrom(m: seq<byte>, p: nat, q: nat)
    requires p <= q < |m| && NextArgument(m, p) == NextArgument(m, q)
    requires var r := NextArgument(m, q); r.Argument? && r.len >= 0 ==> q < r.next
    ensures Walk(m, p) == Walk(m, q)
  {
    hide NextArgument;
  }

  // Starting in front of a bulk, or of the terminator, is the same as starting at it.
  lemma {:induction false} SkipToDollar(m: seq<byte>, p: nat, q: nat)
    requires p <= q < |m| && forall i :: p <= i < q ==> m[i] != NUL && m[i] != DOLLAR
    ensures Strchr(m, p, DOLLAR) == Strchr(m, q, DOLLAR)
    decreases q - p
  {
    if p < q {
      SkipToDollar(m, p + 1, q);
    }
  }
}
