/**
 The byte-pair encoder of tools/export_vision.py, on strings: every character of the marked text that is a piece stands
 for itself, every other for its bytes, and pairs merge by rank.
 */
module Bpe {
  import opened Options
  import opened Scripts
  import opened Merging
  import opened Sequences
  import opened Utf8

  const MAX_TOKENS: nat := 64

  type Pair = (string, string)

  datatype Encoder = Encoder(vocab: map<string, nat>, ranks: map<Pair, nat>, eos: nat, unk: nat)

  /** Merge pairs are distinct, every product is a piece, and so is every byte. */
  ghost predicate WellFormed(vocab: map<string, nat>, merges: seq<Pair>) {
    && Distinct(merges)
    && (forall pair :: pair in merges ==> pair.0 + pair.1 in vocab)
    && (forall byte: nat :: byte < 256 ==> BytePiece(byte) in vocab)
  }

  // ---------------------------------------------------------------- what is merged

  function Mark(c: char): char {
    if c == ' ' then SPACE_MARK else c
  }

  function Marked(text: string): string {
    seq(|text|, i requires 0 <= i < |text| => Mark(text[i]))
  }

  function CharPieces(vocab: map<string, nat>, c: char): seq<string> {
    if [c] in vocab then [[c]] else BytePieces(Bytes(c))
  }

  function StartPieces(vocab: map<string, nat>, text: string): seq<string> {
    if text == [] then []
    else StartPieces(vocab, text[..|text| - 1]) + CharPieces(vocab, text[|text| - 1])
  }

  /** Character by character: a space is marked, a piece stands for itself, and anything else for its bytes. */
  lemma {:induction false} StartsAsWritten(vocab: map<string, nat>, text: string, c: char)
    ensures StartPieces(vocab, Marked("")) == []
    ensures var m := if c == ' ' then '\U{2581}' else c;
      StartPieces(vocab, Marked(text + [c])) ==
      StartPieces(vocab, Marked(text)) +
      if [m] in vocab then [[m]] else seq(|Bytes(m)|, i requires 0 <= i < |Bytes(m)| => BytePiece(Bytes(m)[i]))
  {
    hide Bytes, BytePiece;
    var marked := Marked(text + [c]);
    assert marked[..|text|] == Marked(text);
    assert BytePieces(Bytes(Mark(c))) ==
           seq(|Bytes(Mark(c))|, i requires 0 <= i < |Bytes(Mark(c))| => BytePiece(Bytes(Mark(c))[i]));
  }

  function TableOf(ranks: map<Pair, nat>): Table<string> {
    map pair | pair in ranks :: (ranks[pair], pair.0 + pair.1)
  }

  function Pieces(b: Encoder, text: string): seq<string> {
    Merged(TableOf(b.ranks), StartPieces(b.vocab, Marked(text)))
  }

  function Concat(pieces: seq<string>): string {
    if pieces == [] then [] else Concat(pieces[..|pieces| - 1]) + pieces[|pieces| - 1]
  }

  lemma {:induction false} ConcatSplits(a: seq<string>, b: seq<string>)
    ensures Concat(a + b) == Concat(a) + Concat(b)
  {
    if b == [] {
      assert a + b == a;
    } else {
      ConcatSplits(a, b[..|b| - 1]);
      assert (a + b)[..|a + b| - 1] == a + b[..|b| - 1];
    }
  }

  lemma {:induction false} JoinConcats(s: seq<string>, left: string, right: string)
    ensures Concat(Join(s, left, right, left + right)) == Concat(s)
    decreases |s|
  {
    if |s| >= 2 {
      if s[0] == left && s[1] == right {
        JoinConcats(s[2..], left, right);
        ConcatSplits([left + right], Join(s[2..], left, right, left + right));
        ConcatSplits([left, right], s[2..]);
        assert s == [left, right] + s[2..] && [left, right][..1] == [left] && [left][..0] == [];
      } else {
        JoinConcats(s[1..], left, right);
        ConcatSplits([s[0]], Join(s[1..], left, right, left + right));
        ConcatSplits([s[0]], s[1..]);
        assert s == [s[0]] + s[1..];
      }
    }
  }

  /** Merging only concatenates: the pieces spell what they started from. */
  lemma {:induction false} MergedConcats(ranks: map<Pair, nat>, s: seq<string>)
    ensures Concat(Merged(TableOf(ranks), s)) == Concat(s)
    decreases |s|
  {
    hide Join, Concat;
    var table := TableOf(ranks);
    if Found(table, s).Some? {
      var at := Found(table, s).value;
      JoinConcats(s, s[at], s[at + 1]);
      MergedConcats(ranks, Round(table, s));
    }
  }

  /** For every text: the pieces spell the marked text with its absent characters spelled as bytes, and none merge on. */
  lemma {:induction false} PiecesSpellTheText(b: Encoder, text: string)
    ensures Concat(Pieces(b, text)) == Concat(StartPieces(b.vocab, Marked(text)))
    ensures forall i: nat :: i + 1 < |Pieces(b, text)| ==> (Pieces(b, text)[i], Pieces(b, text)[i + 1]) !in b.ranks
  {
    hide Merged, Concat;
    MergedConcats(b.ranks, StartPieces(b.vocab, Marked(text)));
    MergedIsDone(TableOf(b.ranks), StartPieces(b.vocab, Marked(text)));
    forall i: nat | i + 1 < |Pieces(b, text)| ensures (Pieces(b, text)[i], Pieces(b, text)[i + 1]) !in b.ranks {
      assert !Merges(TableOf(b.ranks), Pieces(b, text), i);
    }
  }

  lemma {:induction false} OwnStartSpells(vocab: map<string, nat>, marked: string)
    requires forall i :: 0 <= i < |marked| ==> [marked[i]] in vocab
    ensures Concat(StartPieces(vocab, marked)) == marked
  {
    hide Bytes, BytePieces;
    if marked != [] {
      var n := |marked| - 1;
      OwnStartSpells(vocab, marked[..n]);
      ConcatMore(StartPieces(vocab, marked[..n]), [marked[n]]);
      hide Concat;
      assert marked == marked[..n] + [marked[n]];
    }
  }

  lemma ConcatMore(pieces: seq<string>, piece: string)
    ensures Concat(pieces + [piece]) == Concat(pieces) + piece
  {
    assert (pieces + [piece])[..|pieces|] == pieces;
  }

  /** A text of the vocabulary's own characters comes back from its pieces, spaces as marks. */
  lemma {:induction false} OwnTextComesBack(b: Encoder, text: string)
    requires forall i :: 0 <= i < |text| ==> [if text[i] == ' ' then '\U{2581}' else text[i]] in b.vocab
    ensures Concat(Pieces(b, text)) == seq(|text|, i requires 0 <= i < |text| => if text[i] == ' ' then '\U{2581}' else text[i])
  {
    hide Merged, Concat, StartPieces;
    PiecesSpellTheText(b, text);
    OwnStartSpells(b.vocab, Marked(text));
  }

  // ---------------------------------------------------------------- as it is written

  method FindLowest(b: Encoder, out: seq<string>) returns (at: Option<nat>)
    requires |out| > 1
    ensures at == Found(TableOf(b.ranks), out)
  {
    var best: nat := 0;
    at := None;
    for index := 0 to |out| - 1
      invariant at == Lowest(TableOf(b.ranks), out, index)
      invariant at.Some? ==> best == Rank(TableOf(b.ranks), out, at.value)
    {
      var pair := (out[index], out[index + 1]);
      if pair in b.ranks && (at.None? || b.ranks[pair] < best) {
        best, at := b.ranks[pair], Some(index);
      }
    }
  }

  method JoinPair(out: seq<string>, left: string, right: string) returns (merged: seq<string>)
    ensures merged == Join(out, left, right, left + right)
  {
    hide Join;
    merged := [];
    var index := 0;
    assert out[0..] == out;
    while index < |out|
      invariant 0 <= index <= |out|
      invariant merged + Join(out[index..], left, right, left + right) == Join(out, left, right, left + right)
    {
      JoinFrom(out, index, left, right, left + right);
      if index < |out| - 1 && out[index] == left && out[index + 1] == right {
        merged := merged + [left + right];
        index := index + 2;
      } else {
        merged := merged + [out[index]];
        index := index + 1;
      }
    }
    assert out[index..] == [];
    JoinNothing(left, right, left + right);
  }

  method FindStart(b: Encoder, marked: string) returns (out: seq<string>)
    ensures out == StartPieces(b.vocab, marked)
  {
    hide Bytes, BytePieces;
    out := [];
    for n := 0 to |marked|
      invariant out == StartPieces(b.vocab, marked[..n])
    {
      assert marked[..n + 1][..n] == marked[..n];
      if [marked[n]] in b.vocab {
        out := out + [[marked[n]]];
      } else {
        out := out + BytePieces(Bytes(marked[n]));
      }
    }
    assert marked[..|marked|] == marked;
  }

  method FindPieces(b: Encoder, text: string) returns (out: seq<string>)
    ensures out == Pieces(b, text)
    ensures MergesTo(map pair | pair in b.ranks :: (b.ranks[pair], pair.0 + pair.1), StartPieces(b.vocab, Marked(text)), out)
  {
    hide Join, Lowest, StartPieces, TableOf, MergesTo;
    TableIsRanks(b.ranks);
    MergedIsByRank(TableOf(b.ranks), StartPieces(b.vocab, Marked(text)), Pieces(b, text));
    out := FindStart(b, Marked(text));
    while |out| > 1
      invariant Merged(TableOf(b.ranks), out) == Pieces(b, text)
      decreases |out|
    {
      var at := FindLowest(b, out);
      if at.None? {
        return;
      }
      ghost var was := out;
      TableJoins(b.ranks, out, at.value);
      out := JoinPair(out, out[at.value], out[at.value + 1]);
      assert out == Round(TableOf(b.ranks), was);
    }
  }

  lemma TableIsRanks(ranks: map<Pair, nat>)
    ensures TableOf(ranks) == map pair | pair in ranks :: (ranks[pair], pair.0 + pair.1)
  {
  }

  /** A pair of strings merges to their concatenation. */
  lemma TableJoins(ranks: map<Pair, nat>, s: seq<string>, at: nat)
    requires at + 1 < |s| && Merges(TableOf(ranks), s, at)
    ensures TableOf(ranks)[(s[at], s[at + 1])].1 == s[at] + s[at + 1]
  {
  }

  function Id(b: Encoder, piece: string): nat {
    if piece in b.vocab then b.vocab[piece] else b.unk
  }

  function PieceIds(b: Encoder, pieces: seq<string>): seq<nat> {
    seq(|pieces|, i requires 0 <= i < |pieces| => Id(b, pieces[i]))
  }

  function Encode(b: Encoder, text: string): (ids: seq<nat>)
    ensures 1 <= |ids| <= 64 && ids[|ids| - 1] == b.eos
    ensures |ids| == 64 || |ids| == |Pieces(b, text)| + 1
    ensures |ids| <= |Pieces(b, text)| + 1
    ensures forall i :: 0 <= i < |ids| - 1 ==>
              var piece := Pieces(b, text)[i]; ids[i] == if piece in b.vocab then b.vocab[piece] else b.unk
  {
    var ids := PieceIds(b, Pieces(b, text));
    (if |ids| > MAX_TOKENS - 1 then ids[..MAX_TOKENS - 1] else ids) + [b.eos]
  }
}
