/**
 The vocabulary and merge files between the exporter (tools/export_vision.py) and its reader
 (tools/evaluate_imgfilter.py): pieces escaped one to a line, pairs two to a line.
 */
module VocabFiles {
  import opened Options
  import opened Bpe
  import opened Sequences

  // ---------------------------------------------------------------- escaping

  function Replace(text: string, c: char, put: string): string {
    if text == [] then []
    else Replace(text[..|text| - 1], c, put) + if text[|text| - 1] == c then put else [text[|text| - 1]]
  }

  function Escape(piece: string): string {
    Replace(Replace(Replace(Replace(piece, '\\', "\\\\"), '\n', "\\n"), '\r', "\\r"), ' ', "\\s")
  }

  function EscapeChar(c: char): string {
    match c
    case '\\' => "\\\\"
    case '\n' => "\\n"
    case '\r' => "\\r"
    case ' ' => "\\s"
    case _ => [c]
  }

  /** Character by character from the front, what the four replacements do together. */
  function EscapeChars(piece: string): string {
    if piece == [] then [] else EscapeChar(piece[0]) + EscapeChars(piece[1..])
  }

  lemma {:induction false} ReplaceSplits(a: string, b: string, c: char, put: string)
    ensures Replace(a + b, c, put) == Replace(a, c, put) + Replace(b, c, put)
  {
    if b == [] {
      assert a + b == a;
      assert Replace(b, c, put) == [];
    } else {
      ReplaceSplits(a, b[..|b| - 1], c, put);
      assert (a + b)[..|a + b| - 1] == a + b[..|b| - 1];
    }
  }

  lemma ReplaceOne(x: char, c: char, put: string)
    ensures Replace([x], c, put) == if x == c then put else [x]
  {
    assert Replace([x], c, put) == Replace([], c, put) + if x == c then put else [x];
  }

  lemma ReplaceTwo(x: char, y: char, c: char, put: string)
    requires x != c && y != c
    ensures Replace([x, y], c, put) == [x, y]
  {
    ReplaceOne(x, c, put);
    ReplaceOne(y, c, put);
    ReplaceSplits([x], [y], c, put);
    assert [x] + [y] == [x, y];
  }

  lemma {:induction false} EscapeSplits(a: string, b: string)
    ensures Escape(a + b) == Escape(a) + Escape(b)
  {
    hide Replace;
    ReplaceSplits(a, b, '\\', "\\\\");
    var a1, b1 := Replace(a, '\\', "\\\\"), Replace(b, '\\', "\\\\");
    ReplaceSplits(a1, b1, '\n', "\\n");
    var a2, b2 := Replace(a1, '\n', "\\n"), Replace(b1, '\n', "\\n");
    ReplaceSplits(a2, b2, '\r', "\\r");
    ReplaceSplits(Replace(a2, '\r', "\\r"), Replace(b2, '\r', "\\r"), ' ', "\\s");
  }

  lemma {:induction false} EscapeOne(c: char)
    ensures Escape([c]) == EscapeChar(c)
  {
    hide Replace;
    ReplaceOne(c, '\\', "\\\\");
    ReplaceOne(c, '\n', "\\n");
    ReplaceOne(c, '\r', "\\r");
    ReplaceOne(c, ' ', "\\s");
    ReplaceTwo('\\', '\\', '\n', "\\n");
    ReplaceTwo('\\', '\\', '\r', "\\r");
    ReplaceTwo('\\', '\\', ' ', "\\s");
    ReplaceTwo('\\', 'n', '\r', "\\r");
    ReplaceTwo('\\', 'n', ' ', "\\s");
    ReplaceTwo('\\', 'r', ' ', "\\s");
  }

  lemma {:induction false} EscapeIsByChar(piece: string)
    ensures Escape(piece) == EscapeChars(piece)
  {
    hide Escape;
    if piece == [] {
      EscapeNothing();
    } else {
      EscapeOne(piece[0]);
      EscapeIsByChar(piece[1..]);
      EscapeSplits([piece[0]], piece[1..]);
      assert [piece[0]] + piece[1..] == piece;
    }
  }

  lemma EscapeNothing()
    ensures Escape([]) == []
  {
  }

  /** The written form of a text, one character at a time. */
  lemma {:induction false} EscapeAsWritten(text: string, c: char)
    ensures Escape("") == ""
    ensures Escape(text + [c]) == Escape(text) +
              (if c == '\\' then "\\\\" else if c == '\n' then "\\n" else if c == '\r' then "\\r" else if c == ' ' then "\\s" else [c])
  {
    hide Escape;
    EscapeNothing();
    EscapeSplits(text, [c]);
    EscapeOne(c);
  }

  function Escaped(c: char): string {
    match c
    case 'n' => "\n"
    case 'r' => "\r"
    case 's' => " "
    case '\\' => "\\"
    case _ => ['\\', c]
  }

  function Unescape(text: string): string {
    if text == [] then []
    else if text[0] != '\\' then [text[0]] + Unescape(text[1..])
    else if |text| == 1 then "\\"
    else Escaped(text[1]) + Unescape(text[2..])
  }

  lemma UnescapeFrom(text: string, i: nat)
    requires i < |text|
    ensures Unescape(text[i..]) ==
            if text[i] != '\\' then [text[i]] + Unescape(text[i + 1..])
            else if i + 1 == |text| then "\\" else Escaped(text[i + 1]) + Unescape(text[i + 2..])
  {
    assert text[i..][1..] == text[i + 1..];
    if i + 2 <= |text| {
      assert text[i..][2..] == text[i + 2..];
    }
  }

  lemma {:induction false} PlainIsItself(text: string)
    requires '\\' !in text
    ensures Unescape(text) == text
  {
    if text != [] {
      PlainIsItself(text[1..]);
    }
  }

  method FindUnescaped(text: string) returns (out: string)
    ensures out == Unescape(text)
  {
    hide Unescape, Escaped;
    if '\\' !in text {
      PlainIsItself(text);
      return text;
    }
    out := [];
    var i := 0;
    assert text[0..] == text;
    while i < |text|
      invariant 0 <= i <= |text|
      invariant out + Unescape(text[i..]) == Unescape(text)
    {
      var c := text[i];
      UnescapeFrom(text, i);
      if c != '\\' {
        out := out + [c];
        i := i + 1;
      } else if i + 1 == |text| {
        out := out + "\\";
        return;
      } else {
        out := out + Escaped(text[i + 1]);
        i := i + 2;
      }
    }
    assert text[i..] == [];
    NothingUnescaped();
  }

  lemma NothingUnescaped()
    ensures Unescape([]) == []
  {
  }

  /** The reading of a text, one character or one escape at a time; an unknown escape and a lone final one stay. */
  lemma UnescapeAsRead(c: char, text: string)
    ensures Unescape("") == "" && Unescape("\\") == "\\"
    ensures c != '\\' ==> Unescape([c] + text) == [c] + Unescape(text)
    ensures Unescape(['\\', c] + text) ==
              (if c == 'n' then "\n" else if c == 'r' then "\r" else if c == 's' then " " else if c == '\\' then "\\" else ['\\', c])
              + Unescape(text)
  {
    assert ([c] + text)[1..] == text && (['\\', c] + text)[2..] == text;
  }

  lemma UnescapeOne(c: char, rest: string)
    ensures Unescape(EscapeChar(c) + rest) == [c] + Unescape(rest)
  {
    var first := EscapeChar(c);
    assert (first + rest)[|first|..] == rest;
  }

  /** Unescaping undoes escaping, for every string. */
  lemma {:induction false} UnescapeUndoesEscape(piece: string)
    ensures Unescape(Escape(piece)) == piece
  {
    hide Escape;
    EscapeIsByChar(piece);
    if piece != [] {
      hide Unescape;
      EscapeIsByChar(piece[1..]);
      UnescapeUndoesEscape(piece[1..]);
      UnescapeOne(piece[0], EscapeChars(piece[1..]));
    }
  }

  predicate Plain(text: string) {
    forall i :: 0 <= i < |text| ==> text[i] != '\n' && text[i] != '\r' && text[i] != ' '
  }

  /** An escaped piece never breaks a line or a pair. */
  lemma {:induction false} EscapeIsPlain(piece: string)
    ensures Plain(Escape(piece))
  {
    hide Escape;
    EscapeIsByChar(piece);
    if piece != [] {
      EscapeIsByChar(piece[1..]);
      EscapeIsPlain(piece[1..]);
    }
  }

  // ---------------------------------------------------------------- lines

  /** `"\n".join(lines)`. */
  function JoinLines(lines: seq<string>): string {
    if lines == [] then []
    else if |lines| == 1 then lines[0]
    else lines[0] + "\n" + JoinLines(lines[1..])
  }

  /** `text.split("\n")`. */
  function SplitLines(text: string): (lines: seq<string>)
    ensures lines != []
  {
    if text == [] then [[]]
    else
      var rest := SplitLines(text[1..]);
      if text[0] == '\n' then [[]] + rest else [[text[0]] + rest[0]] + rest[1..]
  }

  function StripReturns(line: string): string {
    if line != [] && line[|line| - 1] == '\r' then StripReturns(line[..|line| - 1]) else line
  }

  function StripAll(lines: seq<string>): (stripped: seq<string>)
    ensures |stripped| == |lines| && forall i :: 0 <= i < |lines| ==> stripped[i] == StripReturns(lines[i])
  {
    if lines == [] then [] else StripAll(lines[..|lines| - 1]) + [StripReturns(lines[|lines| - 1])]
  }

  function RustLines(text: string): seq<string> {
    if text == [] then []
    else
      var lines := SplitLines(text);
      StripAll(if lines[|lines| - 1] == [] then lines[..|lines| - 1] else lines)
  }

  lemma {:induction false} SplitFirst(line: string, rest: string)
    requires '\n' !in line
    ensures SplitLines(line + "\n" + rest) == [line] + SplitLines(rest)
  {
    if line == [] {
      assert line + "\n" + rest == "\n" + rest;
      assert ("\n" + rest)[1..] == rest;
    } else {
      SplitFirst(line[1..], rest);
      assert (line + "\n" + rest)[1..] == line[1..] + "\n" + rest;
      assert [line[0]] + line[1..] == line;
    }
  }

  lemma {:induction false} SplitUndoesJoin(lines: seq<string>)
    requires lines != [] && forall i :: 0 <= i < |lines| ==> '\n' !in lines[i]
    ensures SplitLines(JoinLines(lines) + "\n") == lines + [[]]
  {
    hide SplitLines;
    SplitNothing();
    if |lines| == 1 {
      SplitFirst(lines[0], []);
      assert lines[0] + "\n" + [] == lines[0] + "\n";
      assert [lines[0]] == lines;
    } else {
      SplitUndoesJoin(lines[1..]);
      SplitFirst(lines[0], JoinLines(lines[1..]) + "\n");
      assert JoinLines(lines) + "\n" == lines[0] + "\n" + (JoinLines(lines[1..]) + "\n");
      assert [lines[0]] + (lines[1..] + [[]]) == lines + [[]];
    }
  }

  lemma SplitNothing()
    ensures SplitLines([]) == [[]]
  {
  }

  lemma {:induction false} JoinFirst(line: string, lines: seq<string>, c: char)
    ensures JoinLines([[c] + line] + lines) == [c] + JoinLines([line] + lines)
    ensures JoinLines([[]] + [line] + lines) == "\n" + JoinLines([line] + lines)
  {
    assert ([[c] + line] + lines)[1..] == lines && ([line] + lines)[1..] == lines;
    assert ([[]] + [line] + lines)[1..] == [line] + lines;
  }

  /** The lines of a text hold no line break, and joined by line breaks they are the text. */
  lemma {:induction false} LinesAreRead(text: string)
    ensures JoinLines(SplitLines(text)) == text
    ensures forall i :: 0 <= i < |SplitLines(text)| ==> '\n' !in SplitLines(text)[i]
  {
    hide JoinLines;
    if text == [] {
      JoinOne([]);
    } else {
      var rest := SplitLines(text[1..]);
      LinesAreRead(text[1..]);
      assert [rest[0]] + rest[1..] == rest;
      JoinFirst(rest[0], rest[1..], text[0]);
      assert [text[0]] + text[1..] == text;
      if text[0] == '\n' {
        assert SplitLines(text) == [[]] + [rest[0]] + rest[1..];
      } else {
        assert SplitLines(text) == [[text[0]] + rest[0]] + rest[1..];
      }
    }
  }

  lemma JoinOne(line: string)
    ensures JoinLines([line]) == line
  {
  }

  /** Joined lines stand one after the other with one line break between them. */
  lemma {:induction false} JoinLast(lines: seq<string>, last: string)
    ensures JoinLines([last]) == last
    ensures lines != [] ==> JoinLines(lines + [last]) == JoinLines(lines) + "\n" + last
  {
    if |lines| == 1 {
      assert (lines + [last])[1..] == [last];
    } else if |lines| > 1 {
      JoinLast(lines[1..], last);
      assert (lines + [last])[1..] == lines[1..] + [last];
    }
  }

  /** A line loses the returns at its end and nothing else. */
  lemma {:induction false} StripIsExact(line: string)
    ensures var kept := StripReturns(line);
      && kept <= line && (forall i :: |kept| <= i < |line| ==> line[i] == '\r')
      && (kept != [] ==> kept[|kept| - 1] != '\r')
  {
    if line != [] && line[|line| - 1] == '\r' {
      StripIsExact(line[..|line| - 1]);
    }
  }

  /** What is read: every line stripped, the one after a final line break left out, and nothing of an empty text. */
  lemma RustLinesAreRead(text: string)
    ensures RustLines("") == []
    ensures text != "" ==>
              var lines := SplitLines(text); var n := if lines[|lines| - 1] == "" then |lines| - 1 else |lines|;
              |RustLines(text)| == n && forall i :: 0 <= i < n ==> RustLines(text)[i] == StripReturns(lines[i])
  {
    hide StripReturns, SplitLines;
  }

  lemma {:induction false} LinesRoundTrip(lines: seq<string>)
    requires lines != [] && forall i :: 0 <= i < |lines| ==> NoBreak(lines[i])
    ensures RustLines(JoinLines(lines) + "\n") == lines
  {
    hide SplitLines, JoinLines;
    SplitUndoesJoin(lines);
    assert (lines + [[]])[..|lines|] == lines;
    assert StripAll(lines) == lines;
  }

  predicate NoBreak(line: string) {
    '\n' !in line && '\r' !in line
  }

  // ---------------------------------------------------------------- the vocabulary file

  function EscapeAll(pieces: seq<string>): (lines: seq<string>)
    ensures |lines| == |pieces| && forall i :: 0 <= i < |pieces| ==> lines[i] == Escape(pieces[i])
  {
    if pieces == [] then [] else EscapeAll(pieces[..|pieces| - 1]) + [Escape(pieces[|pieces| - 1])]
  }

  function WriteVocab(pieces: seq<string>): string {
    JoinLines(EscapeAll(pieces)) + "\n"
  }

  function UnescapeAll(lines: seq<string>): (pieces: seq<string>)
    ensures |pieces| == |lines| && forall i :: 0 <= i < |lines| ==> pieces[i] == Unescape(lines[i])
  {
    if lines == [] then [] else UnescapeAll(lines[..|lines| - 1]) + [Unescape(lines[|lines| - 1])]
  }

  function ReadVocab(text: string): seq<string> {
    UnescapeAll(RustLines(text))
  }

  /** The vocabulary file is one escaped line after the other, each ended by a line break. */
  lemma {:induction false} VocabAsWritten(pieces: seq<string>, piece: string)
    ensures WriteVocab(pieces + [piece]) == (if pieces == [] then "" else WriteVocab(pieces)) + Escape(piece) + "\n"
  {
    hide Escape, JoinLines;
    assert EscapeAll(pieces + [piece]) == EscapeAll(pieces) + [Escape(piece)];
    JoinLast(EscapeAll(pieces), Escape(piece));
    if pieces == [] {
      assert [] + [Escape(piece)] == [Escape(piece)] && "" + Escape(piece) == Escape(piece);
    } else {
      assert JoinLines(EscapeAll(pieces)) + "\n" + Escape(piece) + "\n" == WriteVocab(pieces) + Escape(piece) + "\n";
    }
  }

  /** The file gives back the pieces it was written from, unless there were none: then it is read as one empty piece. */
  lemma {:induction false} VocabRoundTripsIffNonempty(pieces: seq<string>)
    ensures ReadVocab(WriteVocab(pieces)) == pieces <==> pieces != []
  {
    hide RustLines, JoinLines, Unescape, Escape;
    if pieces == [] {
      EmptyFile();
    } else {
      forall i | 0 <= i < |pieces| ensures NoBreak(EscapeAll(pieces)[i]) && Unescape(Escape(pieces[i])) == pieces[i] {
        EscapeIsPlain(pieces[i]);
        UnescapeUndoesEscape(pieces[i]);
      }
      LinesRoundTrip(EscapeAll(pieces));
      assert ReadVocab(WriteVocab(pieces)) == pieces;
    }
  }

  lemma EmptyFile()
    ensures RustLines("\n") == [""] && ReadVocab(WriteVocab([])) == [""]
  {
    SplitBreak();
    NothingUnescaped();
    StripNothing();
  }

  lemma SplitBreak()
    ensures SplitLines("\n") == [[], []]
  {
    SplitNothing();
    assert "\n"[1..] == [];
  }

  lemma StripNothing()
    ensures StripAll([[]]) == [[]]
  {
  }

  /** So distinct pieces get back the ids they had. */
  lemma {:induction false} IdsRoundTrip(pieces: seq<string>, i: nat)
    requires Distinct(pieces) && i < |pieces|
    ensures var ids := Places(ReadVocab(WriteVocab(pieces))); pieces[i] in ids && ids[pieces[i]] == i
  {
    hide ReadVocab, WriteVocab;
    VocabRoundTripsIffNonempty(pieces);
    PlacesHold(pieces);
  }

  // ---------------------------------------------------------------- the merge file

  function MergeLine(pair: Pair): string {
    Escape(pair.0) + " " + Escape(pair.1)
  }

  function MergeLines(merges: seq<Pair>): (lines: seq<string>)
    ensures |lines| == |merges| && forall i :: 0 <= i < |merges| ==> lines[i] == MergeLine(merges[i])
  {
    if merges == [] then [] else MergeLines(merges[..|merges| - 1]) + [MergeLine(merges[|merges| - 1])]
  }

  function WriteMerges(merges: seq<Pair>): string {
    JoinLines(MergeLines(merges)) + "\n"
  }

  /** The merge file is one line for each pair, its escaped halves with a space between them. */
  lemma {:induction false} MergesAsWritten(merges: seq<Pair>, left: string, right: string)
    ensures WriteMerges(merges + [(left, right)]) ==
            (if merges == [] then "" else WriteMerges(merges)) + Escape(left) + " " + Escape(right) + "\n"
  {
    hide Escape, JoinLines;
    assert MergeLines(merges + [(left, right)]) == MergeLines(merges) + [MergeLine((left, right))];
    var line := MergeLine((left, right));
    JoinLast(MergeLines(merges), line);
    if merges == [] {
      assert [] + [line] == [line] && "" + Escape(left) + " " + Escape(right) == line;
    } else {
      var before := WriteMerges(merges);
      assert JoinLines(MergeLines(merges)) + "\n" + line == before + line;
      assert before + line == before + Escape(left) + " " + Escape(right);
    }
  }

  /** `line.split(" ", 1)`, when it gives two halves. */
  function SplitOnce(line: string): Option<Pair> {
    if line == [] then None
    else if line[0] == ' ' then Some(("", line[1..]))
    else
      match SplitOnce(line[1..])
      case None => None
      case Some(pair) => Some(([line[0]] + pair.0, pair.1))
  }

  /** A line holds a pair iff it has a space, and the first one parts it. */
  lemma {:induction false} SplitsAtFirstSpace(line: string)
    ensures SplitOnce(line).Some? <==> ' ' in line
    ensures SplitOnce(line).Some? ==>
              var (left, right) := SplitOnce(line).value; line == left + " " + right && ' ' !in left
  {
    if line != [] {
      SplitsAtFirstSpace(line[1..]);
      assert line == [line[0]] + line[1..];
    }
  }

  /** A row of the merge file is its two halves unescaped. */
  lemma RowAsRead(line: string)
    ensures ' ' !in line ==> MergeRow(line) == None
    ensures forall left, right :: line == left + " " + right && ' ' !in left ==>
              MergeRow(line) == Some((Unescape(left), Unescape(right)))
  {
    hide Unescape, SplitOnce;
    SplitsAtFirstSpace(line);
    forall left: string, right: string | line == left + " " + right && ' ' !in left
      ensures MergeRow(line) == Some((Unescape(left), Unescape(right)))
    {
      assert line[|left|] == ' ';
      FirstSpaceIsOne(SplitOnce(line).value.0, SplitOnce(line).value.1, left, right);
    }
  }

  lemma FirstSpaceIsOne(a: string, b: string, left: string, right: string)
    requires a + " " + b == left + " " + right && ' ' !in a && ' ' !in left
    ensures a == left && b == right
  {
    SpaceComesLater(a, b, left, right);
    SpaceComesLater(left, right, a, b);
    assert (a + " " + b)[..|a|] == a && (left + " " + right)[..|left|] == left;
    assert (a + " " + b)[|a| + 1..] == b && (left + " " + right)[|left| + 1..] == right;
  }

  lemma SpaceComesLater(a: string, b: string, left: string, right: string)
    requires a + " " + b == left + " " + right && ' ' !in left
    ensures |left| <= |a|
  {
    assert (a + " " + b)[|a|] == ' ';
    assert forall i :: 0 <= i < |left| ==> (left + " " + right)[i] == left[i] && left[i] in left;
  }

  /** The row of one line; its rank is its line number whether or not it holds a pair. */
  function MergeRow(line: string): Option<Pair> {
    match SplitOnce(line)
    case None => None
    case Some(pair) => Some((Unescape(pair.0), Unescape(pair.1)))
  }

  function MergeRows(lines: seq<string>): (rows: seq<Option<Pair>>)
    ensures |rows| == |lines| && forall i :: 0 <= i < |lines| ==> rows[i] == MergeRow(lines[i])
  {
    if lines == [] then [] else MergeRows(lines[..|lines| - 1]) + [MergeRow(lines[|lines| - 1])]
  }

  function ReadMerges(text: string): seq<Option<Pair>> {
    MergeRows(RustLines(text))
  }

  lemma {:induction false} SplitAtSpace(left: string, right: string)
    requires Plain(left)
    ensures SplitOnce(left + " " + right) == Some((left, right))
  {
    if left == [] {
      assert left + " " + right == " " + right;
    } else {
      SplitAtSpace(left[1..], right);
      assert (left + " " + right)[1..] == left[1..] + " " + right;
      assert [left[0]] + left[1..] == left;
    }
  }

  lemma {:induction false} MergeLineRoundTrips(pair: Pair)
    ensures NoBreak(MergeLine(pair)) && MergeRow(MergeLine(pair)) == Some(pair)
  {
    hide Escape, Unescape, SplitOnce;
    EscapeIsPlain(pair.0);
    EscapeIsPlain(pair.1);
    SplitAtSpace(Escape(pair.0), Escape(pair.1));
    UnescapeUndoesEscape(pair.0);
    UnescapeUndoesEscape(pair.1);
  }

  /** Every pair comes back at its rank; a file of none holds one line without a pair. */
  lemma {:induction false} MergesRoundTrip(merges: seq<Pair>)
    ensures var rows := ReadMerges(WriteMerges(merges));
      if merges == [] then rows == [None]
      else |rows| == |merges| && forall i :: 0 <= i < |merges| ==> rows[i] == Some(merges[i])
  {
    hide RustLines, JoinLines, MergeRow, MergeLine;
    if merges == [] {
      EmptyFile();
      EmptyJoins();
      NoPair();
    } else {
      forall i | 0 <= i < |merges| ensures NoBreak(MergeLines(merges)[i]) && MergeRow(MergeLine(merges[i])) == Some(merges[i]) {
        MergeLineRoundTrips(merges[i]);
      }
      LinesRoundTrip(MergeLines(merges));
    }
  }

  lemma EmptyJoins()
    ensures JoinLines([]) == []
  {
  }

  lemma NoPair()
    ensures MergeRow("") == None
  {
  }
}
