/** How the asynchronous engine tells SUBSCRIBE, UNSUBSCRIBE and MONITOR from the bytes of a command. */
module Classify {
  import opened Bytes
  import opened Decimal
  import opened Command

  datatype Kind = Subscribe | Unsubscribe | Monitor | Regular | Malformed

  const LOWER_P: byte := 112
  // "subscribe", "unsubscribe" and "monitor"
  const SUBSCRIBE: seq<byte> := [115, 117, 98, 115, 99, 114, 105, 98, 101]
  const UNSUBSCRIBE: seq<byte> := [117, 110] + SUBSCRIBE
  const MONITOR: seq<byte> := [109, 111, 110, 105, 116, 111, 114]

  function ToLower(b: byte): byte {
    if 65 <= b <= 90 then b + 32 else b
  }

  function Lowered(s: seq<byte>): (r: seq<byte>)
    ensures |r| == |s|
  {
    seq(|s|, i requires 0 <= i < |s| => ToLower(s[i]))
  }

  // strncasecmp against a word and CRLF.
  predicate Spells(m: seq<byte>, at: nat, word: seq<byte>) {
    at <= |m| && word + CRLF <= Lowered(m[at..])
  }

  // The command begins where its first argument does, or behind a p.
  function NameAt(m: seq<byte>, at: nat): nat {
    if at < |m| && ToLower(m[at]) == LOWER_P then at + 1 else at
  }

  // What kind of command the engine takes the bytes for; Malformed is an assertion that fails.
  function KindOf(cmd: seq<byte>): Kind {
    var m := cmd + [NUL];
    match NextArgument(m, 0)
    case Argument(at, len, next) =>
      var name := NameAt(m, at);
      if 0 <= next < |m| && m[next] == DOLLAR && Spells(m, name, SUBSCRIBE) then Subscribe
      else if Spells(m, name, UNSUBSCRIBE) then Unsubscribe
      else if Spells(m, name, MONITOR) then Monitor
      else Regular
    case _ => Malformed
  }

  // A command that is neither of the special ones.
  type RegularCommand = cmd: seq<byte> | KindOf(cmd) == Regular witness Ping()

  // "PING"
  function Ping(): (cmd: seq<byte>)
    ensures KindOf(cmd) == Regular && cmd != []
  {
    var arg := [80, 73, 78, 71];
    KindIsThatOfArguments([arg]);
    Wire([arg])
  }

  function Stem(arg: seq<byte>): seq<byte> {
    if arg != [] && ToLower(arg[0]) == LOWER_P then arg[1..] else arg
  }

  // The bytes spell the word, in small or capital letters.
  predicate SameLetters(s: seq<byte>, word: string) {
    |s| == |word| && forall i :: 0 <= i < |s| ==> s[i] as int == word[i] as int || s[i] as int == word[i] as int - 32
  }

  // The argument is the word, perhaps behind a p, or begins with that and CRLF.
  predicate Names(arg: seq<byte>, word: string) {
    var name := if arg != [] && arg[0] as char in {'p', 'P'} then arg[1..] else arg;
    || SameLetters(name, word)
    || (|name| >= |word| + 2 && SameLetters(name[..|word|], word) && name[|word|..|word| + 2] == [13, 10])
  }

  // What the kind of a command with these arguments is by its first argument.
  function KindOfArguments(argv: Argv): Kind
    requires argv != []
  {
    if |argv| > 1 && Names(argv[0], "subscribe") then Subscribe
    else if Names(argv[0], "unsubscribe") then Unsubscribe
    else if Names(argv[0], "monitor") then Monitor
    else Regular
  }

  // A word and its letters in bytes.
  ghost predicate Letters(word: seq<byte>, text: string) {
    |word| == |text| && forall i :: 0 <= i < |word| ==> word[i] as char == text[i] && 'a' <= text[i] <= 'z'
  }

  lemma WordsAreLetters()
    ensures Letters(SUBSCRIBE, "subscribe") && Letters(UNSUBSCRIBE, "unsubscribe") && Letters(MONITOR, "monitor")
  {
  }

  // Comparing in lower case is comparing letter by letter in either case.
  lemma SameInLowerCase(s: seq<byte>, word: seq<byte>, text: string)
    requires Letters(word, text)
    ensures Lowered(s) == word <==> SameLetters(s, text)
  {
    if SameLetters(s, text) {
      assert forall i :: 0 <= i < |s| ==> Lowered(s)[i] == word[i];
    }
    if Lowered(s) == word {
      assert forall i :: 0 <= i < |s| ==> ToLower(s[i]) == Lowered(s)[i] == word[i];
    }
  }

  lemma BreakInLowerCase(s: seq<byte>)
    ensures Lowered(s) == CRLF <==> s == [13, 10]
  {
    if Lowered(s) == CRLF {
      assert ToLower(s[0]) == Lowered(s)[0] == CR && ToLower(s[1]) == Lowered(s)[1] == LF;
    }
  }

  lemma NamesInLowerCase(arg: seq<byte>, word: seq<byte>, text: string)
    requires Letters(word, text)
    ensures Names(arg, text) <==> Lowered(Stem(arg)) == word || word + CRLF <= Lowered(Stem(arg))
  {
    hide Lowered, SameLetters;
    var stem, n := Stem(arg), |word|;
    SameInLowerCase(stem, word, text);
    if |stem| >= n + 2 {
      SameInLowerCase(stem[..n], word, text);
      BreakInLowerCase(stem[n..n + 2]);
      assert stem == stem[..n] + stem[n..n + 2] + stem[n + 2..];
      LoweredConcat(stem[..n] + stem[n..n + 2], stem[n + 2..]);
      LoweredConcat(stem[..n], stem[n..n + 2]);
      TwoPieces(word, CRLF, Lowered(stem[..n]), Lowered(stem[n..n + 2]), Lowered(stem[n + 2..]));
    }
  }

  lemma TwoPieces(a: seq<byte>, b: seq<byte>, x: seq<byte>, y: seq<byte>, z: seq<byte>)
    requires |a| == |x| && |b| == |y|
    ensures a + b <= x + y + z <==> a == x && b == y
  {
    var all := x + y + z;
    assert all[..|a|] == x && all[|a|..|a| + |b|] == y;
    if a + b <= all {
      assert a == (a + b)[..|a|] == all[..|a|];
      assert b == (a + b)[|a|..] == all[|a|..|a| + |b|];
    }
  }

  // A word at the start of a text, where an argument and CRLF stand.
  lemma PrefixCases(arg: seq<byte>, rest: seq<byte>, word: seq<byte>)
    requires forall i :: 0 <= i < |word| ==> word[i] != CR && word[i] != LF
    ensures word + CRLF <= arg + CRLF + rest <==> arg == word || word + CRLF <= arg
  {
    var text, all := word + CRLF, arg + CRLF + rest;
    var n := |word|;
    assert text[..n] == word && text[n] == CR && text[n + 1] == LF;
    assert all[..|arg|] == arg && all[|arg|] == CR && all[|arg| + 1] == LF;
    if text <= all {
      assert all[..n] == text[..n] && all[n] == CR && all[n + 1] == LF;
      if |arg| < n {
        assert false;
      } else if |arg| == n {
        assert arg == word;
      } else if |arg| == n + 1 {
        assert false;
      } else {
        assert arg == all[..|arg|];
        assert arg[..n + 2] == all[..n + 2] == text;
      }
    }
  }

  lemma LoweredConcat(a: seq<byte>, b: seq<byte>)
    ensures Lowered(a + b) == Lowered(a) + Lowered(b)
    ensures Lowered(CRLF) == CRLF
  {
  }

  lemma StemAt(m: seq<byte>, at: nat, arg: seq<byte>, rest: seq<byte>)
    requires at <= |m| && m[at..] == arg + CRLF + rest
    ensures NameAt(m, at) <= |m| && m[NameAt(m, at)..] == Stem(arg) + CRLF + rest
  {
    var tail := m[at..];
    assert m[at] == tail[0] == if arg != [] then arg[0] else CR;
    if NameAt(m, at) == at + 1 {
      assert m[at + 1..] == tail[1..] == (arg + CRLF + rest)[1..] == arg[1..] + CRLF + rest;
    }
  }

  lemma SpellsIfNames(m: seq<byte>, at: nat, arg: seq<byte>, rest: seq<byte>, word: seq<byte>)
    requires at <= |m| && m[at..] == arg + CRLF + rest
    requires forall i :: 0 <= i < |word| ==> word[i] != CR && word[i] != LF
    ensures Spells(m, NameAt(m, at), word) <==> Lowered(Stem(arg)) == word || word + CRLF <= Lowered(Stem(arg))
  {
    hide Lowered, NameAt, Stem;
    var stem := Stem(arg);
    StemAt(m, at, arg, rest);
    LoweredConcat(stem + CRLF, rest);
    LoweredConcat(stem, CRLF);
    PrefixCases(Lowered(stem), Lowered(rest), word);
  }

  // The engine takes a formatted command for what its first argument and their number say.
  lemma KindIsThatOfArguments(argv: Argv)
    requires argv != [] && |argv[0]| <= INT_MAX
    ensures KindOf(Wire(argv)) == KindOfArguments(argv)
  {
    hide Spells, Names, NextArgument, Bulks, Bulk, Lowered, Stem;
    var m := Wire(argv) + [NUL];
    var at, rest := FirstArgument(argv);
    WordsAreLetters();
    NamesInLowerCase(argv[0], SUBSCRIBE, "subscribe");
    NamesInLowerCase(argv[0], UNSUBSCRIBE, "unsubscribe");
    NamesInLowerCase(argv[0], MONITOR, "monitor");
    SpellsIfNames(m, at, argv[0], rest, SUBSCRIBE);
    SpellsIfNames(m, at, argv[0], rest, UNSUBSCRIBE);
    SpellsIfNames(m, at, argv[0], rest, MONITOR);
  }

  // The channels the engine walks over are the other arguments, if none is too long for an int.
  lemma ChannelsAreArguments(argv: Argv)
    requires argv != [] && |argv[0]| <= INT_MAX
    ensures var m := Wire(argv) + [NUL];
            var first := NextArgument(m, 0);
            && first.Argument? && 0 <= first.next < |m|
            && (Walk(m, first.next) == argv[1..] <==> ShortArguments(argv[1..]))
  {
    hide NextArgument, Walk, Bulks, Wire;
    var at, _ := FirstArgument(argv);
    WalkBulks(Wire(argv) + [NUL], at + |argv[0]| + 2, argv[1..]);
  }

  // Where the first argument lies, and what follows it.
  lemma FirstArgument(argv: Argv) returns (at: nat, rest: seq<byte>)
    requires argv != [] && |argv[0]| <= INT_MAX
    ensures var m := Wire(argv) + [NUL];
            var next := at + |argv[0]| + 2;
            && NextArgument(m, 0) == Argument(at, |argv[0]|, next)
            && next < |m| && m[at..] == argv[0] + CRLF + rest && m[next..] == Bulks(argv[1..]) + [NUL]
            && (m[next] == DOLLAR <==> |argv| > 1)
  {
    hide NextArgument, Bulks, Bulk, Header, Dec;
    var m, p := Wire(argv) + [NUL], |Header(STAR, |argv|)|;
    rest := Bulks(argv[1..]) + [NUL];
    WalkStarts(argv);
    AfterHeader(argv);
    at := ArgumentThen(m, p, argv[0], rest);
    FirstOfBulks(argv[1..]);
    var next := at + |argv[0]| + 2;
    assert m[next] == m[next..][0] == rest[0];
  }

  lemma AfterHeader(argv: Argv)
    requires argv != []
    ensures (Wire(argv) + [NUL])[|Header(STAR, |argv|)|..] == Bulk(argv[0]) + (Bulks(argv[1..]) + [NUL])
  {
    hide Bulks, Bulk, Header;
    BulksStep(argv, 0);
    assert argv[0..] == argv;
    Second(Header(STAR, |argv|), Bulk(argv[0]), Bulks(argv[1..]), [NUL]);
  }

  lemma Second(a: seq<byte>, b: seq<byte>, c: seq<byte>, d: seq<byte>)
    ensures (a + (b + c) + d)[|a|..] == b + (c + d)
  {
  }

  // A bulk and what follows it, as nextArgument sees them.
  lemma ArgumentThen(m: seq<byte>, p: nat, arg: seq<byte>, rest: seq<byte>) returns (at: nat)
    requires p <= |m| && m[p..] == Bulk(arg) + rest && rest != [] && |arg| <= INT_MAX
    ensures var next := at + |arg| + 2;
            && NextArgument(m, p) == Argument(at, |arg|, next)
            && next <= |m| && m[at..] == arg + CRLF + rest && m[next..] == rest
  {
    hide NextArgument, Bulk, Dec;
    var n := p + |Bulk(arg)|;
    assert m[p..n] == m[p..][..|Bulk(arg)|] == Bulk(arg);
    assert m[n..] == m[p..][|Bulk(arg)|..] == rest;
    NextIsBulk(m, p, arg);
    BulkEnds(m, p, arg);
    at := p + 1 + |Dec(|arg|)| + 2;
    Joined(m, at, n);
  }

  lemma Joined(m: seq<byte>, i: nat, j: nat)
    requires i <= j <= |m|
    ensures m[i..] == m[i..j] + m[j..]
  {
  }
}
