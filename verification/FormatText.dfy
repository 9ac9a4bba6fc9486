/** What the words of a command format are, as text: every format of plain bytes, %s, %b and %% is covered. */
module FormatText {
  import opened Bytes
  import opened Resp
  import opened RespText
  import opened Command

  // A piece of a word in a format: a byte other than a space and a percent sign, %%, %s with a string
  // that has this text before its end, or %b with any bytes.
  datatype Part = Byte(b: byte) | Percents | CText(text: seq<byte>, behind: seq<byte>) | Binary(bytes: seq<byte>)

  ghost predicate GoodPart(p: Part) {
    match p
    case Byte(b) => b as char !in {' ', '%'}
    case CText(text, behind) => (forall i :: 0 <= i < |text| ==> text[i] != 0) && (behind != [] ==> behind[0] == 0)
    case _ => true
  }

  function TextOf(p: Part): seq<byte> {
    match p
    case Byte(b) => [b]
    case Percents => ['%' as byte, '%' as byte]
    case CText(_, _) => ['%' as byte, 's' as byte]
    case Binary(_) => ['%' as byte, 'b' as byte]
  }

  function ValuesOf(p: Part): seq<seq<byte>> {
    match p
    case CText(text, behind) => [text + behind]
    case Binary(bytes) => [bytes]
    case _ => []
  }

  // What the part contributes to its word.
  function BytesOf(p: Part): seq<byte> {
    match p
    case Byte(b) => [b]
    case Percents => ['%' as byte]
    case CText(text, _) => text
    case Binary(bytes) => bytes
  }

  // --- a word, and spaces ---

  type Word = seq<Part>

  ghost predicate GoodWord(w: Word) {
    forall i :: 0 <= i < |w| ==> GoodPart(w[i])
  }

  function WordText(w: Word): seq<byte> {
    if w == [] then [] else TextOf(w[0]) + WordText(w[1..])
  }

  function WordValues(w: Word): seq<seq<byte>> {
    if w == [] then [] else ValuesOf(w[0]) + WordValues(w[1..])
  }

  function WordBytes(w: Word): seq<byte> {
    if w == [] then [] else BytesOf(w[0]) + WordBytes(w[1..])
  }

  function Spaces(n: nat): (s: seq<byte>) {
    if n == 0 then [] else [' ' as byte] + Spaces(n - 1)
  }

  ghost function PieceOf(p: Part): Piece {
    match p
    case Byte(b) => Text(b)
    case Percents => Text('%' as byte)
    case CText(text, _) => Val(text)
    case Binary(bytes) => Val(bytes)
  }

  lemma PartReads(p: Part, format: seq<byte>, values: seq<seq<byte>>)
    requires GoodPart(p) && Fits(format, values)
    ensures Fits(TextOf(p) + format, ValuesOf(p) + values)
    ensures Pieces(TextOf(p) + format, ValuesOf(p) + values) == [PieceOf(p)] + Pieces(format, values)
  {
    hide CString;
    var f, v := TextOf(p) + format, ValuesOf(p) + values;
    assert f[|TextOf(p)|..] == format && v[|ValuesOf(p)|..] == values;
    match p {
      case Byte(b) =>
        assert v == values;
      case Percents =>
        assert v == values;
      case CText(text, behind) =>
        TextEnds(text, behind);
      case Binary(bytes) =>
    }
  }

  lemma TextEnds(text: seq<byte>, behind: seq<byte>)
    requires GoodPart(CText(text, behind))
    ensures CString(text + behind) == text
  {
    if behind == [] {
      assert text + behind == text;
    } else {
      assert text + behind == text + [0] + behind[1..];
    }
    TextBeforeNul(text, text + behind);
  }

  // A word in front of a format: its pieces are put together up to the next gap.
  lemma {:induction false} WordReads(w: Word, format: seq<byte>, values: seq<seq<byte>>)
    requires GoodWord(w) && Fits(format, values)
    requires Pieces(format, values) == [] || Pieces(format, values)[0].Gap?
    ensures var f, v := WordText(w) + format, WordValues(w) + values;
            && Fits(f, v) && TakeWord(Pieces(f, v)) == (WordBytes(w), Pieces(format, values))
            && (w != [] ==> Pieces(f, v) != [] && !Pieces(f, v)[0].Gap?)
    decreases w
  {
    hide Fits, Pieces, TakeWord, GoodPart, WordText, WordValues, WordBytes;
    WordUnfolds(w);
    if w == [] {
      assert WordText(w) + format == format && WordValues(w) + values == values;
      TakeNothing(Pieces(format, values));
    } else {
      var f, v := WordText(w[1..]) + format, WordValues(w[1..]) + values;
      WordReads(w[1..], format, values);
      PartReads(w[0], f, v);
      assert WordText(w) + format == TextOf(w[0]) + f && WordValues(w) + values == ValuesOf(w[0]) + v;
      TakeOneMore(w[0], Pieces(f, v));
    }
  }

  lemma WordUnfolds(w: Word)
    ensures WordText(w) == if w == [] then [] else TextOf(w[0]) + WordText(w[1..])
    ensures WordValues(w) == if w == [] then [] else ValuesOf(w[0]) + WordValues(w[1..])
    ensures WordBytes(w) == if w == [] then [] else BytesOf(w[0]) + WordBytes(w[1..])
  {
  }

  lemma TakeNothing(pieces: seq<Piece>)
    requires pieces == [] || pieces[0].Gap?
    ensures TakeWord(pieces) == ([], pieces)
  {
  }

  lemma TakeOneMore(p: Part, pieces: seq<Piece>)
    ensures !PieceOf(p).Gap?
    ensures TakeWord([PieceOf(p)] + pieces) == (BytesOf(p) + TakeWord(pieces).0, TakeWord(pieces).1)
  {
    assert ([PieceOf(p)] + pieces)[1..] == pieces;
  }

  lemma {:induction false} SpacesRead(n: nat, format: seq<byte>, values: seq<seq<byte>>)
    requires Fits(format, values)
    ensures var f := Spaces(n) + format;
            && Fits(f, values) && Words(Pieces(f, values)) == Words(Pieces(format, values))
            && (n > 0 ==> Pieces(f, values) != [] && Pieces(f, values)[0].Gap?)
            && (n == 0 ==> f == format)
  {
    if n == 0 {
      assert Spaces(n) + format == format;
    } else {
      var f := Spaces(n - 1) + format;
      SpacesRead(n - 1, format, values);
      assert Spaces(n) + format == [' ' as byte] + f && ([' ' as byte] + f)[1..] == f;
      assert ([Gap] + Pieces(f, values))[1..] == Pieces(f, values);
    }
  }

  // A percent sign at the very end is an ordinary byte.
  lemma PercentAtEnd()
    ensures Fits(['%' as byte], []) && Words(Pieces(['%' as byte], [])) == [['%' as byte]]
  {
    var f := ['%' as byte];
    assert f[1..] == [] && Pieces(f, []) == [Text('%' as byte)];
    assert [Text('%' as byte)][1..] == [];
    assert TakeWord([]) == ([], []) && Words([]) == [];
    assert ['%' as byte] + [] == ['%' as byte];
    assert TakeWord([Text('%' as byte)]) == (['%' as byte], []);
  }

  // --- whole formats ---

  // Words with spaces before, between and behind them.
  function FormatOf(words: seq<Word>, gaps: seq<nat>): seq<byte>
    requires |gaps| == |words| + 1
  {
    Spaces(gaps[0]) + if words == [] then [] else WordText(words[0]) + FormatOf(words[1..], gaps[1..])
  }

  function AllValues(words: seq<Word>): seq<seq<byte>> {
    if words == [] then [] else WordValues(words[0]) + AllValues(words[1..])
  }

  function AllBytes(words: seq<Word>): Argv {
    if words == [] then [] else [WordBytes(words[0])] + AllBytes(words[1..])
  }

  // The arguments of a command are the words of its format, each put together from its parts, however
  // many spaces stand around them; spaces, percent signs and NULs in the values do not matter.
  lemma {:induction false} FormatReads(words: seq<Word>, gaps: seq<nat>)
    requires |gaps| == |words| + 1
    requires forall i :: 0 <= i < |words| ==> words[i] != [] && GoodWord(words[i])
    requires forall i :: 0 < i < |words| ==> gaps[i] > 0
    ensures Fits(FormatOf(words, gaps), AllValues(words))
    ensures Words(Pieces(FormatOf(words, gaps), AllValues(words))) == AllBytes(words)
    decreases words
  {
    hide Fits, Pieces, GoodWord, WordText, WordValues, WordBytes, TakeWord;
    if words == [] {
      NothingReads();
      SpacesRead(gaps[0], [], []);
      assert Spaces(gaps[0]) + [] == FormatOf(words, gaps);
    } else {
      var f, v := FormatOf(words[1..], gaps[1..]), AllValues(words[1..]);
      FormatReads(words[1..], gaps[1..]);
      StartsWithGap(words[1..], gaps[1..]);
      WordReads(words[0], f, v);
      SpacesRead(gaps[0], WordText(words[0]) + f, WordValues(words[0]) + v);
    }
  }

  lemma NothingReads()
    ensures Fits([], []) && Pieces([], []) == [] && Words([]) == []
  {
  }

  // Behind a word the rest of the format is empty or starts with a space.
  lemma StartsWithGap(words: seq<Word>, gaps: seq<nat>)
    requires |gaps| == |words| + 1 && (words != [] ==> gaps[0] > 0)
    requires Fits(FormatOf(words, gaps), AllValues(words))
    ensures var p := Pieces(FormatOf(words, gaps), AllValues(words)); p == [] || p[0].Gap?
  {
    hide Fits, WordText, WordValues, ValuesNeeded;
    var f := FormatOf(words, gaps);
    if f != [] {
      assert f[0] == ' ' as byte;
    }
  }
}
