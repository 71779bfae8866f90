/**
 The byte-pair encoder of tools/evaluate_imgfilter.py, on ids: built from the two files, merging numbers instead of
 strings. For files the exporter writes it refines the exporter's own encoder.
 */
module IdBpe {
  import opened Options
  import opened Merging
  import opened Utf8
  import opened Bpe
  import opened Sequences
  import opened VocabFiles

  const TOKENS: nat := 64

  datatype Reader = Reader(ids: map<string, nat>, eos: nat, bytes: seq<nat>, merges: Table<nat>)

  function Get(ids: map<string, nat>, piece: string, default: nat): nat {
    if piece in ids then ids[piece] else default
  }

  /** The first line of a pair counts, and only if both halves and their product are pieces. */
  function MergeTable(ids: map<string, nat>, rows: seq<Option<Pair>>): Table<nat> {
    if rows == [] then map[]
    else
      var before := MergeTable(ids, rows[..|rows| - 1]);
      AddRow(ids, before, |rows| - 1, rows[|rows| - 1])
  }

  function AddRow(ids: map<string, nat>, table: Table<nat>, rank: nat, row: Option<Pair>): Table<nat> {
    if row.None? then table
    else
      var (left, right) := row.value;
      if left in ids && right in ids && left + right in ids && (ids[left], ids[right]) !in table then
        table[(ids[left], ids[right]) := (rank, ids[left + right])]
      else table
  }

  function Build(ids: map<string, nat>, rows: seq<Option<Pair>>): Option<Reader> {
    if "<eos>" in ids && "<unk>" in ids then
      Some(Reader(ids, ids["<eos>"], seq(256, byte requires 0 <= byte < 256 => Get(ids, BytePiece(byte), ids["<unk>"])),
                 MergeTable(ids, rows)))
    else None
  }

  /** The row that decides a pair: it names it, both halves and their product are pieces, and no earlier row does so. */
  predicate Decides(ids: map<string, nat>, row: Option<Pair>, pair: (nat, nat)) {
    && row.Some? && row.value.0 in ids && row.value.1 in ids && row.value.0 + row.value.1 in ids
    && pair == (ids[row.value.0], ids[row.value.1])
  }

  /** A pair of ids merges iff some row says so, and the first such row gives its rank and its product. */
  lemma {:induction false} FirstRowCounts(ids: map<string, nat>, rows: seq<Option<Pair>>, pair: (nat, nat))
    ensures pair in MergeTable(ids, rows) <==> exists i :: 0 <= i < |rows| && Decides(ids, rows[i], pair)
    ensures pair in MergeTable(ids, rows) ==>
              var (rank, product) := MergeTable(ids, rows)[pair];
              && rank < |rows| && Decides(ids, rows[rank], pair)
              && product == ids[rows[rank].value.0 + rows[rank].value.1]
              && forall i :: 0 <= i < rank ==> !Decides(ids, rows[i], pair)
  {
    if rows != [] {
      var front, last := rows[..|rows| - 1], rows[|rows| - 1];
      FirstRowCounts(ids, front, pair);
      assert rows == front + [last];
      assert forall i :: 0 <= i < |front| ==> rows[i] == front[i];
    }
  }

  /** What a reader knows: the ids, the two marks, an id for each byte, the unknown one if it has no piece, and the merges. */
  lemma BuildIsExact(ids: map<string, nat>, rows: seq<Option<Pair>>)
    ensures Build(ids, rows).Some? <==> "<eos>" in ids && "<unk>" in ids
    ensures Build(ids, rows).Some? ==>
              var b := Build(ids, rows).value;
              && b.ids == ids && b.eos == ids["<eos>"] && |b.bytes| == 256 && b.merges == MergeTable(ids, rows)
              && forall byte: nat :: byte < 256 ==>
                   b.bytes[byte] == if BytePiece(byte) in ids then ids[BytePiece(byte)] else ids["<unk>"]
  {
    hide BytePiece, MergeTable;
  }

  method LoadIds(vocab: string) returns (ids: map<string, nat>)
    ensures ids == Places(ReadVocab(vocab))
  {
    hide Unescape, RustLines;
    ids := map[];
    var lines := RustLines(vocab);
    ghost var pieces := UnescapeAll(lines);
    for at := 0 to |lines|
      invariant ids == Places(pieces[..at])
    {
      var piece := FindUnescaped(lines[at]);
      ids := ids[piece := at];
      assert pieces[..at + 1][..at] == pieces[..at];
    }
    assert pieces[..|lines|] == pieces;
  }

  method LoadMerges(ids: map<string, nat>, merges: string) returns (table: Table<nat>)
    ensures table == MergeTable(ids, ReadMerges(merges))
  {
    hide MergeRow, RustLines, Unescape;
    table := map[];
    var rows := MergeRows(RustLines(merges));
    for rank := 0 to |rows|
      invariant table == MergeTable(ids, rows[..rank])
    {
      assert rows[..rank + 1][..rank] == rows[..rank];
      if rows[rank].None? {
        continue;
      }
      var (left, right) := rows[rank].value;
      var joined := left + right;
      if left in ids && right in ids && joined in ids && (ids[left], ids[right]) !in table {
        table := table[(ids[left], ids[right]) := (rank, ids[joined])];
      }
    }
    assert rows[..|rows|] == rows;
  }

  /** `None` when the vocabulary file names no `<eos>` or no `<unk>`. */
  method Load(vocab: string, merges: string) returns (b: Option<Reader>)
    ensures b == Build(Places(ReadVocab(vocab)), ReadMerges(merges))
  {
    hide Places, ReadVocab, ReadMerges, MergeTable, BytePiece;
    var ids := LoadIds(vocab);
    if "<eos>" !in ids || "<unk>" !in ids {
      return None;
    }
    var unk := ids["<unk>"];
    var bytes := seq(256, byte requires 0 <= byte < 256 => Get(ids, BytePiece(byte), unk));
    var table := LoadMerges(ids, merges);
    b := Some(Reader(ids, ids["<eos>"], bytes, table));
  }

  // ---------------------------------------------------------------- encoding

  function CharIds(b: Reader, c: char): seq<nat>
    requires |b.bytes| == 256
  {
    if [c] in b.ids then [b.ids[[c]]] else ByteIds(b, Utf8.Bytes(c))
  }

  function ByteIds(b: Reader, bytes: seq<nat>): (ids: seq<nat>)
    requires |b.bytes| == 256 && forall i :: 0 <= i < |bytes| ==> bytes[i] < 256
    ensures |ids| == |bytes| && forall i :: 0 <= i < |bytes| ==> ids[i] == b.bytes[bytes[i]]
  {
    if bytes == [] then [] else ByteIds(b, bytes[..|bytes| - 1]) + [b.bytes[bytes[|bytes| - 1]]]
  }

  function StartIds(b: Reader, text: string): seq<nat>
    requires |b.bytes| == 256
  {
    if text == [] then [] else StartIds(b, text[..|text| - 1]) + CharIds(b, Mark(text[|text| - 1]))
  }

  function Zeros(n: nat): seq<nat> {
    seq(n, _ => 0)
  }

  /** Cut to leave room for the end mark, then filled with zeros. */
  function Padded(symbols: seq<nat>, eos: nat): (ids: seq<nat>)
    ensures |ids| == TOKENS
  {
    var cut := (if |symbols| > TOKENS - 1 then symbols[..TOKENS - 1] else symbols) + [eos];
    cut + Zeros(TOKENS - |cut|)
  }

  /** At most 63 symbols from the front, the end mark, then zeros. */
  predicate Framed(symbols: seq<nat>, eos: nat, ids: seq<nat>) {
    var n := if |symbols| > 63 then 63 else |symbols|;
    && |ids| == 64 && ids[..n] == symbols[..n] && ids[n] == eos
    && forall i :: n < i < 64 ==> ids[i] == 0
  }

  lemma PaddedIsFramed(symbols: seq<nat>, eos: nat)
    ensures Framed(symbols, eos, Padded(symbols, eos))
  {
  }

  /** Character by character: a space is marked, a piece is its id, and anything else the ids of its bytes. */
  lemma {:induction false} IdsAsWritten(b: Reader, text: string, c: char)
    requires |b.bytes| == 256
    ensures StartIds(b, "") == []
    ensures var m := if c == ' ' then '\U{2581}' else c; var bytes := Utf8.Bytes(m);
      StartIds(b, text + [c]) ==
      StartIds(b, text) + if [m] in b.ids then [b.ids[[m]]] else seq(|bytes|, i requires 0 <= i < |bytes| => b.bytes[bytes[i]])
  {
    hide Utf8.Bytes;
    assert (text + [c])[..|text|] == text;
    var bytes := Utf8.Bytes(Mark(c));
    assert ByteIds(b, bytes) == seq(|bytes|, i requires 0 <= i < |bytes| => b.bytes[bytes[i]]);
  }

  function EncodeIds(b: Reader, text: string): seq<nat>
    requires |b.bytes| == 256
  {
    Padded(Merged(b.merges, StartIds(b, text)), b.eos)
  }

  method FindBest(b: Reader, symbols: seq<nat>) returns (best: Option<(nat, nat, nat)>)
    requires |symbols| > 1
    ensures best.None? <==> Found(b.merges, symbols).None?
    ensures best.Some? ==>
              var at := Found(b.merges, symbols).value;
              best.value == (Rank(b.merges, symbols, at), at, b.merges[(symbols[at], symbols[at + 1])].1)
  {
    best := None;
    for at := 0 to |symbols| - 1
      invariant best.None? <==> Lowest(b.merges, symbols, at).None?
      invariant best.Some? ==>
                  var found := Lowest(b.merges, symbols, at).value;
                  best.value == (Rank(b.merges, symbols, found), found, b.merges[(symbols[found], symbols[found + 1])].1)
    {
      var pair := (symbols[at], symbols[at + 1]);
      if pair in b.merges && (best.None? || b.merges[pair].0 < best.value.0) {
        best := Some((b.merges[pair].0, at, b.merges[pair].1));
      }
    }
  }

  method ReplacePair(symbols: seq<nat>, left: nat, right: nat, merged: nat) returns (next: seq<nat>)
    ensures next == Join(symbols, left, right, merged)
  {
    hide Join;
    next := [];
    var index := 0;
    assert symbols[0..] == symbols;
    while index < |symbols|
      invariant 0 <= index <= |symbols|
      invariant next + Join(symbols[index..], left, right, merged) == Join(symbols, left, right, merged)
    {
      JoinFrom(symbols, index, left, right, merged);
      if index + 1 < |symbols| && symbols[index] == left && symbols[index + 1] == right {
        next := next + [merged];
        index := index + 2;
      } else {
        next := next + [symbols[index]];
        index := index + 1;
      }
    }
    assert symbols[index..] == [];
    JoinNothing(left, right, merged);
  }

  method FindIds(b: Reader, text: string) returns (ids: seq<nat>)
    requires |b.bytes| == 256
    ensures ids == EncodeIds(b, text)
    ensures |ids| == 64 && exists merged :: MergesTo(b.merges, StartIds(b, text), merged) && Framed(merged, b.eos, ids)
  {
    hide Join, Lowest, Utf8.Bytes, ByteIds, Padded, MergesTo;
    MergedIsByRank(b.merges, StartIds(b, text), Merged(b.merges, StartIds(b, text)));
    PaddedIsFramed(Merged(b.merges, StartIds(b, text)), b.eos);
    var symbols: seq<nat> := [];
    for n := 0 to |text|
      invariant symbols == StartIds(b, text[..n])
    {
      assert text[..n + 1][..n] == text[..n];
      var c := Mark(text[n]);
      var encoded := Utf8.Bytes(c);
      if [c] in b.ids {
        symbols := symbols + [b.ids[[c]]];
      } else {
        symbols := symbols + ByteIds(b, encoded);
      }
    }
    assert text[..|text|] == text;
    while |symbols| > 1
      invariant Merged(b.merges, symbols) == Merged(b.merges, StartIds(b, text))
      decreases |symbols|
    {
      var best := FindBest(b, symbols);
      if best.None? {
        break;
      }
      ghost var was := symbols;
      var (_, at, merged) := best.value;
      symbols := ReplacePair(symbols, symbols[at], symbols[at + 1], merged);
      assert symbols == Round(b.merges, was);
    }
    ids := Padded(symbols, b.eos);
  }

  // ---------------------------------------------------------------- refinement

  function Rows(merges: seq<Pair>): (rows: seq<Option<Pair>>)
    ensures |rows| == |merges| && forall i :: 0 <= i < |merges| ==> rows[i] == Some(merges[i])
  {
    if merges == [] then [] else Rows(merges[..|merges| - 1]) + [Some(merges[|merges| - 1])]
  }

  ghost function IdCode(ids: map<string, nat>): imap<string, nat> {
    imap piece: string | piece in ids :: ids[piece]
  }

  /** Different pieces have different ids. */
  ghost predicate OneToOne(ids: map<string, nat>) {
    forall x, y :: x in ids && y in ids && ids[x] == ids[y] ==> x == y
  }

  /** A table and ranks agree on a pair: both have it or neither, with its rank and its product's id. */
  ghost predicate Mirrors(ids: map<string, nat>, table: Table<nat>, ranks: map<Pair, nat>, x: string, y: string)
    requires x in ids && y in ids
  {
    var key := (ids[x], ids[y]);
    && (key in table <==> (x, y) in ranks)
    && (key in table ==> x + y in ids && table[key] == (ranks[(x, y)], ids[x + y]))
  }

  lemma {:induction false} AddRowMirrors(
      ids: map<string, nat>, table: Table<nat>, ranks: map<Pair, nat>, rank: nat, pair: Pair, x: string, y: string)
    requires OneToOne(ids) && x in ids && y in ids && pair.0 + pair.1 in ids && pair !in ranks
    requires Mirrors(ids, table, ranks, x, y)
    ensures Mirrors(ids, AddRow(ids, table, rank, Some(pair)), ranks[pair := rank], x, y)
  {
    if pair == (x, y) {
      assert pair.0 == x && pair.1 == y;
    }
  }

  /** The last merge seen from the ones before it, in the ranks. */
  lemma OneMoreRank(merges: seq<Pair>)
    requires merges != [] && Distinct(merges)
    ensures
      var (front, last) := (merges[..|merges| - 1], merges[|merges| - 1]);
      Distinct(front) && last !in Places(front) && Places(merges) == Places(front)[last := |front|]
  {
    var front := merges[..|merges| - 1];
    PlacesHold(front);
    assert merges[|merges| - 1] !in front;
  }

  /** And in the id table. */
  lemma OneMoreRow(ids: map<string, nat>, merges: seq<Pair>)
    requires merges != []
    ensures
      var (front, last) := (merges[..|merges| - 1], merges[|merges| - 1]);
      MergeTable(ids, Rows(merges)) == AddRow(ids, MergeTable(ids, Rows(front)), |front|, Some(last))
  {
    hide AddRow;
    assert Rows(merges)[..|merges| - 1] == Rows(merges[..|merges| - 1]);
  }

  lemma FrontIsIn(merges: seq<Pair>)
    requires merges != []
    ensures merges[|merges| - 1] in merges && forall pair :: pair in merges[..|merges| - 1] ==> pair in merges
  {
  }

  /** The id table holds a pair exactly when the merges do, at its rank, with its product's id. */
  lemma {:induction false} TableMirrorsRanks(ids: map<string, nat>, merges: seq<Pair>, x: string, y: string)
    requires OneToOne(ids) && Distinct(merges) && x in ids && y in ids
    requires forall pair :: pair in merges ==> pair.0 + pair.1 in ids
    ensures Mirrors(ids, MergeTable(ids, Rows(merges)), Places(merges), x, y)
  {
    if merges == [] {
      NothingMirrors(ids, x, y);
    } else {
      hide AddRow, OneToOne, Mirrors, Places, MergeTable, Distinct, Rows;
      var front, last := merges[..|merges| - 1], merges[|merges| - 1];
      OneMoreRank(merges);
      OneMoreRow(ids, merges);
      FrontIsIn(merges);
      TableMirrorsRanks(ids, front, x, y);
      AddRowMirrors(ids, MergeTable(ids, Rows(front)), Places(front), |front|, last, x, y);
    }
  }

  lemma NothingMirrors(ids: map<string, nat>, x: string, y: string)
    requires x in ids && y in ids
    ensures Mirrors(ids, map[], map[], x, y)
  {
  }

  lemma {:induction false} TablesCorrespond(ids: map<string, nat>, merges: seq<Pair>)
    requires OneToOne(ids) && Distinct(merges) && forall pair :: pair in merges ==> pair.0 + pair.1 in ids
    ensures Corresponds(IdCode(ids), TableOf(Places(merges)), MergeTable(ids, Rows(merges)))
  {
    hide Places, MergeTable, Rows;
    var code := IdCode(ids);
    var a, b := TableOf(Places(merges)), MergeTable(ids, Rows(merges));
    PlacesHold(merges);
    forall x, y | x in code && y in code ensures SamePair(code, a, b, x, y) {
      TableMirrorsRanks(ids, merges, x, y);
    }
    forall x, y, z, w | x in code && y in code && z in code && w in code ensures SameOrder(code, a, b, x, y, z, w) {
      TableMirrorsRanks(ids, merges, x, y);
      TableMirrorsRanks(ids, merges, z, w);
    }
  }

  lemma {:induction false} CharsCorrespond(b: Reader, c: char)
    requires |b.bytes| == 256
    requires forall byte: nat :: byte < 256 ==> BytePiece(byte) in b.ids && b.bytes[byte] == b.ids[BytePiece(byte)]
    ensures Codable(IdCode(b.ids), CharPieces(b.ids, c))
    ensures Coded(IdCode(b.ids), CharPieces(b.ids, c)) == CharIds(b, c)
  {
    hide BytePiece, Utf8.Bytes, ByteIds, BytePieces;
  }

  lemma {:induction false} StartsCorrespond(b: Reader, text: string)
    requires |b.bytes| == 256
    requires forall byte: nat :: byte < 256 ==> BytePiece(byte) in b.ids && b.bytes[byte] == b.ids[BytePiece(byte)]
    ensures Codable(IdCode(b.ids), StartPieces(b.ids, Marked(text)))
    ensures Coded(IdCode(b.ids), StartPieces(b.ids, Marked(text))) == StartIds(b, text)
  {
    hide BytePiece, CharPieces, CharIds, Codable, Coded;
    NothingCoded(IdCode(b.ids));
    if text != [] {
      var c := Mark(text[|text| - 1]);
      StartsCorrespond(b, text[..|text| - 1]);
      CharsCorrespond(b, c);
      assert Marked(text)[..|text| - 1] == Marked(text[..|text| - 1]);
      CodedConcat(IdCode(b.ids), StartPieces(b.ids, Marked(text[..|text| - 1])), CharPieces(b.ids, c));
    }
  }

  lemma NothingCoded(code: imap<string, nat>)
    ensures Codable(code, []) && Coded(code, []) == []
  {
  }

  /** Both encoders, from the same pieces and merges: the ids agree, and the reader's are filled with zeros. */
  lemma {:induction false} IdsRefineStrings(pieces: seq<string>, merges: seq<Pair>, text: string)
    requires "<eos>" in pieces && "<unk>" in pieces && WellFormed(Places(pieces), merges)
    ensures "<eos>" in Places(pieces) && "<unk>" in Places(pieces)
    ensures var ids := Places(pieces);
      var strings := Encoder(ids, Places(merges), ids["<eos>"], ids["<unk>"]);
      var built := Build(ids, Rows(merges));
      && built.Some? && |built.value.bytes| == 256
      && EncodeIds(built.value, text) == Encode(strings, text) + Zeros(TOKENS - |Encode(strings, text)|)
  {
    hide Places, MergeTable, Merged, StartPieces, StartIds, BytePiece, Corresponds;
    PlacesHold(pieces);
    var ids := Places(pieces);
    var strings := Encoder(ids, Places(merges), ids["<eos>"], ids["<unk>"]);
    var b := Build(ids, Rows(merges)).value;
    TablesCorrespond(ids, merges);
    StartsCorrespond(b, text);
    MergedCoded(IdCode(ids), TableOf(Places(merges)), b.merges, StartPieces(ids, Marked(text)));
    assert PieceIds(strings, Pieces(strings, text)) == Merged(b.merges, StartIds(b, text));
  }

  /** And so through the files: what the exporter writes, the reader encodes as the exporter would. */
  lemma {:induction false} FilesRefineStrings(pieces: seq<string>, merges: seq<Pair>, text: string)
    requires "<eos>" in pieces && "<unk>" in pieces && WellFormed(Places(pieces), merges)
    ensures "<eos>" in Places(pieces) && "<unk>" in Places(pieces)
    ensures var ids := Places(pieces);
      var strings := Encoder(ids, Places(merges), ids["<eos>"], ids["<unk>"]);
      var read := Build(Places(ReadVocab(WriteVocab(pieces))), ReadMerges(WriteMerges(merges)));
      && read.Some? && |read.value.bytes| == 256
      && EncodeIds(read.value, text) == Encode(strings, text) + Zeros(TOKENS - |Encode(strings, text)|)
  {
    hide ReadVocab, WriteVocab, ReadMerges, WriteMerges, Places, EncodeIds, Encode, Rows, BytePiece;
    IdsRefineStrings(pieces, merges, text);
    VocabRoundTripsIffNonempty(pieces);
    MergesRoundTrip(merges);
    if merges == [] {
      assert Rows(merges) == [];
      assert [None][..0] == Rows(merges);
      assert MergeTable(Places(pieces), [None]) == MergeTable(Places(pieces), Rows(merges));
    } else {
      assert ReadMerges(WriteMerges(merges)) == Rows(merges);
    }
  }
}
