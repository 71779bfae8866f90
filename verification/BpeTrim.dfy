/**
 Trimming the byte-pair vocabulary to the kept scripts: which texts keep their pieces, and their ids under the new
 numbering.
 */
module BpeTrim {
  import opened Scripts
  import opened Merging
  import opened Utf8
  import opened Bpe
  import opened Sequences

  /** A piece and its id. */
  type Item = (string, nat)

  /** The vocabulary's items by increasing id. */
  ghost predicate Ordered(order: seq<Item>, vocab: map<string, nat>) {
    && (forall i, j :: 0 <= i < j < |order| ==> order[i].1 < order[j].1)
    && (forall i :: 0 <= i < |order| ==> order[i].0 in vocab && vocab[order[i].0] == order[i].1)
    && (forall piece :: piece in vocab ==> (piece, vocab[piece]) in order)
  }

  predicate IsSpecial(piece: string) {
    "<0x" <= piece || ("<" <= piece && piece[|piece| - 1] == '>')
  }

  predicate Survives(piece: string, keepAll: bool) {
    keepAll || Keeps(piece) || IsSpecial(piece)
  }

  function Kept(order: seq<Item>, keepAll: bool): seq<Item> {
    if order == [] then []
    else
      var last := order[|order| - 1];
      Kept(order[..|order| - 1], keepAll) + if Survives(last.0, keepAll) then [last] else []
  }

  function Names(items: seq<Item>): (names: seq<string>)
    ensures |names| == |items| && forall i :: 0 <= i < |items| ==> names[i] == items[i].0
  {
    if items == [] then [] else Names(items[..|items| - 1]) + [items[|items| - 1].0]
  }

  function Ids(items: seq<Item>): (ids: seq<nat>)
    ensures |ids| == |items| && forall i :: 0 <= i < |items| ==> ids[i] == items[i].1
  {
    if items == [] then [] else Ids(items[..|items| - 1]) + [items[|items| - 1].1]
  }

  predicate Alive(pair: Pair, alive: map<string, nat>) {
    pair.0 in alive && pair.1 in alive && pair.0 + pair.1 in alive
  }

  function KeptMerges(merges: seq<Pair>, alive: map<string, nat>): seq<Pair> {
    if merges == [] then []
    else
      var last := merges[|merges| - 1];
      KeptMerges(merges[..|merges| - 1], alive) + if Alive(last, alive) then [last] else []
  }

  datatype Trimmed = Trimmed(pieces: seq<string>, merges: seq<Pair>, remap: map<nat, nat>)

  function Trim(order: seq<Item>, merges: seq<Pair>, keepAll: bool): Trimmed {
    var kept := Kept(order, keepAll);
    var alive := Places(Names(kept));
    Trimmed(Names(kept), if keepAll then merges else KeptMerges(merges, alive), Places(Ids(kept)))
  }

  /** The encoder the export runs on: the kept pieces under their new numbers. */
  function TrimmedBpe(b: Encoder, t: Trimmed): Encoder
    requires b.eos in t.remap && b.unk in t.remap
  {
    Encoder(Places(t.pieces), Places(t.merges), t.remap[b.eos], t.remap[b.unk])
  }

  // ---------------------------------------------------------------- what the trim keeps

  predicate Ascending(items: seq<Item>) {
    forall i, j :: 0 <= i < j < |items| ==> items[i].1 < items[j].1
  }

  lemma {:induction false} KeptMeaning(order: seq<Item>, keepAll: bool, item: Item)
    ensures item in Kept(order, keepAll) <==> item in order && Survives(item.0, keepAll)
  {
    hide Survives;
    if order != [] {
      KeptMeaning(order[..|order| - 1], keepAll, item);
      assert order == order[..|order| - 1] + [order[|order| - 1]];
    }
  }

  lemma AscendingAppend(items: seq<Item>, last: Item)
    requires Ascending(items) && forall item :: item in items ==> item.1 < last.1
    ensures Ascending(items + [last])
  {
    assert forall i :: 0 <= i < |items| ==> items[i] in items;
  }

  lemma FrontIsBelow(order: seq<Item>, item: Item)
    requires order != [] && Ascending(order) && item in order[..|order| - 1]
    ensures Ascending(order[..|order| - 1]) && item.1 < order[|order| - 1].1
  {
  }

  lemma {:induction false} KeptAscends(order: seq<Item>, keepAll: bool)
    requires Ascending(order)
    ensures Ascending(Kept(order, keepAll))
  {
    hide Survives;
    if order != [] {
      var front, last := order[..|order| - 1], order[|order| - 1];
      assert Ascending(front);
      KeptAscends(front, keepAll);
      hide Ascending;
      forall item | item in Kept(front, keepAll) ensures item.1 < last.1 {
        KeptMeaning(front, keepAll, item);
        FrontIsBelow(order, item);
      }
      AscendingAppend(Kept(front, keepAll), last);
    }
  }

  lemma KeptIsExact(order: seq<Item>, keepAll: bool)
    requires Ascending(order)
    ensures forall item :: item in Kept(order, keepAll) <==> item in order && Survives(item.0, keepAll)
    ensures Ascending(Kept(order, keepAll))
  {
    hide Survives, Ascending;
    forall item ensures item in Kept(order, keepAll) <==> item in order && Survives(item.0, keepAll) {
      KeptMeaning(order, keepAll, item);
    }
    KeptAscends(order, keepAll);
  }

  lemma SurvivesIs(piece: string, keepAll: bool)
    ensures Survives(piece, keepAll) <==>
            keepAll || (forall i :: 0 <= i < |piece| ==> KeptChar(piece[i])) ||
            "<0x" <= piece || (|piece| > 0 && piece[0] == '<' && piece[|piece| - 1] == '>')
  {
    hide KeptChar;
    assert "<" <= piece <==> |piece| > 0 && piece[0] == '<';
  }

  /** The surviving pieces stay in the order of their old ids, and the remap numbers them by their places. */
  lemma {:induction false} PiecesKeepOrder(
      order: seq<Item>, vocab: map<string, nat>, merges: seq<Pair>, keepAll: bool, i: nat, j: nat)
    requires Ordered(order, vocab) && i < j < |Trim(order, merges, keepAll).pieces|
    ensures var t := Trim(order, merges, keepAll);
      && t.pieces[i] in vocab && t.pieces[j] in vocab && vocab[t.pieces[i]] < vocab[t.pieces[j]]
      && vocab[t.pieces[i]] in t.remap && t.remap[vocab[t.pieces[i]]] == i
  {
    hide Survives, Places, Kept, KeptMerges;
    var kept := Kept(order, keepAll);
    KeptIsExact(order, keepAll);
    assert kept[i] in kept && kept[j] in kept;
    assert kept[i] in order && kept[j] in order;
    DistinctPlaces(Ids(kept));
    assert Ids(kept)[i] == kept[i].1;
  }

  /** A piece survives exactly as the rule says, and its new id is the remapped old one. */
  lemma {:induction false} SurvivorsKeepTheirId(
      order: seq<Item>, vocab: map<string, nat>, merges: seq<Pair>, keepAll: bool, piece: string)
    requires Ordered(order, vocab)
    ensures var t := Trim(order, merges, keepAll); var ids := Places(t.pieces);
      && (piece in ids <==>
            piece in vocab &&
            (keepAll || (forall i :: 0 <= i < |piece| ==> KeptChar(piece[i])) ||
             "<0x" <= piece || (|piece| > 0 && piece[0] == '<' && piece[|piece| - 1] == '>')))
      && (piece in ids ==> vocab[piece] in t.remap && ids[piece] == t.remap[vocab[piece]])
  {
    hide Places, Kept, KeptMerges, KeptChar;
    SurvivesIs(piece, keepAll);
    hide Survives;
    var kept := Kept(order, keepAll);
    KeptIsExact(order, keepAll);
    DistinctPlaces(Ids(kept));
    var names := Names(kept);
    PlacesHold(names);
    if piece in Places(names) {
      var at := Places(names)[piece];
      assert kept[at] in kept;
      assert kept[at] in order;
    }
    if piece in vocab && Survives(piece, keepAll) {
      var item := (piece, vocab[piece]);
      assert item in kept;
      var at :| 0 <= at < |kept| && kept[at] == item;
      assert names[at] == piece;
    }
  }

  lemma {:induction false} FilteringKeepsLiving(merges: seq<Pair>, alive: map<string, nat>, pair: Pair)
    ensures pair in KeptMerges(merges, alive) <==> pair in merges && Alive(pair, alive)
  {
    hide Alive;
    if merges != [] {
      FilteringKeepsLiving(merges[..|merges| - 1], alive, pair);
      assert merges == merges[..|merges| - 1] + [merges[|merges| - 1]];
    }
  }

  /** Dropping merges leaves the others in the order they had. */
  lemma {:induction false} FilteringKeepsOrder(merges: seq<Pair>, alive: map<string, nat>, p: Pair, q: Pair)
    requires Distinct(merges)
    requires var some := Places(KeptMerges(merges, alive)); p in some && q in some
    ensures var all, some := Places(merges), Places(KeptMerges(merges, alive));
      p in all && q in all && (some[p] < some[q] <==> all[p] < all[q])
  {
    hide Alive;
    var front, last := merges[..|merges| - 1], merges[|merges| - 1];
    var kept := KeptMerges(front, alive);
    PlacesHold(front);
    PlacesHold(kept);
    FilteringKeepsLiving(front, alive, last);
    assert last !in front;
    assert (kept + [last])[..|kept|] == kept && kept + [] == kept;
    assert Places(KeptMerges(merges, alive)) == if Alive(last, alive) then Places(kept)[last := |kept|] else Places(kept);
    if p != last && q != last {
      FilteringKeepsOrder(front, alive, p, q);
    } else if p != last {
      FilteringKeepsOrder(front, alive, p, p);
    } else if q != last {
      FilteringKeepsOrder(front, alive, q, q);
    }
  }

  /** A merge survives a trim if and only if both halves and their product do; a full trim keeps them all as they are. */
  lemma {:induction false} MergesSurviveIff(order: seq<Item>, merges: seq<Pair>, keepAll: bool, pair: Pair)
    ensures var t := Trim(order, merges, keepAll);
      && (pair in t.merges <==>
            pair in merges && (keepAll || (pair.0 in t.pieces && pair.1 in t.pieces && pair.0 + pair.1 in t.pieces)))
      && (keepAll ==> t.merges == merges)
  {
    hide Places, Kept, KeptMerges;
    var names := Names(Kept(order, keepAll));
    PlacesHold(names);
    FilteringKeepsLiving(merges, Places(names), pair);
  }

  // ---------------------------------------------------------------- kept text

  /** The pieces that kept text can reach. */
  ghost function KeptCode(vocab: map<string, nat>): imap<string, string> {
    imap piece: string | piece in vocab && Keeps(piece) :: piece
  }

  lemma {:induction false} KeptTablesCorrespond(order: seq<Item>, vocab: map<string, nat>, merges: seq<Pair>, keepAll: bool)
    requires Ordered(order, vocab) && WellFormed(vocab, merges)
    ensures Corresponds(KeptCode(vocab), TableOf(Places(merges)), TableOf(Places(Trim(order, merges, keepAll).merges)))
  {
    hide Places, Trim, SamePair, SameOrder, TableOf, Ordered, WellFormed, Keeps;
    var code := KeptCode(vocab);
    var a, b := TableOf(Places(merges)), TableOf(Places(Trim(order, merges, keepAll).merges));
    forall x, y | x in code && y in code ensures SamePair(code, a, b, x, y) {
      KeptPairsStay(order, vocab, merges, keepAll, x, y);
    }
    forall x, y, z, w | x in code && y in code && z in code && w in code ensures SameOrder(code, a, b, x, y, z, w) {
      KeptOrderStays(order, vocab, merges, keepAll, x, y, z, w);
    }
  }

  lemma {:induction false} KeptPairsStay(
      order: seq<Item>, vocab: map<string, nat>, merges: seq<Pair>, keepAll: bool, x: string, y: string)
    requires Ordered(order, vocab) && WellFormed(vocab, merges)
    requires x in KeptCode(vocab) && y in KeptCode(vocab)
    ensures SamePair(KeptCode(vocab), TableOf(Places(merges)), TableOf(Places(Trim(order, merges, keepAll).merges)), x, y)
  {
    hide Places, Kept, KeptMerges, KeptChar;
    var t := Trim(order, merges, keepAll);
    PlacesHold(merges);
    PlacesHold(t.merges);
    KeepsJoin(x, y);
    FilteringKeepsLiving(merges, Places(Names(Kept(order, keepAll))), (x, y));
    SurvivorsKeepTheirId(order, vocab, merges, keepAll, x);
    SurvivorsKeepTheirId(order, vocab, merges, keepAll, y);
    SurvivorsKeepTheirId(order, vocab, merges, keepAll, x + y);
  }

  lemma {:induction false} KeptOrderStays(
      order: seq<Item>, vocab: map<string, nat>, merges: seq<Pair>, keepAll: bool, x: string, y: string, z: string, w: string)
    requires WellFormed(vocab, merges)
    requires x in KeptCode(vocab) && y in KeptCode(vocab) && z in KeptCode(vocab) && w in KeptCode(vocab)
    ensures SameOrder(KeptCode(vocab), TableOf(Places(merges)), TableOf(Places(Trim(order, merges, keepAll).merges)), x, y, z, w)
  {
    hide Places, Kept, KeptMerges, Alive, Keeps;
    var some := Places(Trim(order, merges, keepAll).merges);
    if !keepAll && (x, y) in some && (z, w) in some {
      FilteringKeepsOrder(merges, Places(Names(Kept(order, keepAll))), (x, y), (z, w));
    }
  }

  /** Every character that stands for itself is of a kept script. */
  ghost predicate KeptText(vocab: map<string, nat>, marked: string) {
    forall i :: 0 <= i < |marked| && [marked[i]] in vocab ==> KeptChar(marked[i])
  }

  lemma OneCharSurvives(c: char)
    ensures Survives([c], false) <==> KeptChar(c)
  {
    assert !IsSpecial([c]);
    assert [c][0] == c;
  }

  lemma KeptCharStays(order: seq<Item>, vocab: map<string, nat>, merges: seq<Pair>, c: char)
    requires Ordered(order, vocab) && ([c] in vocab ==> KeptChar(c))
    ensures [c] in Places(Trim(order, merges, false).pieces) <==> [c] in vocab
  {
    hide Places, Trim, KeptChar, Ordered;
    SurvivorsKeepTheirId(order, vocab, merges, false, [c]);
    if [c] in vocab {
      assert forall i :: 0 <= i < |[c]| ==> KeptChar([c][i]);
    }
  }

  lemma KeptCharIsCoded(vocab: map<string, nat>, merges: seq<Pair>, c: char)
    requires WellFormed(vocab, merges) && ([c] in vocab ==> KeptChar(c))
    ensures Codable(KeptCode(vocab), CharPieces(vocab, c))
  {
    hide BytePiece, Utf8.Bytes, KeptChar;
    forall i | 0 <= i < |Utf8.Bytes(c)| ensures BytePiece(Utf8.Bytes(c)[i]) in KeptCode(vocab) {
      BytePieceKeeps(Utf8.Bytes(c)[i]);
    }
  }

  lemma {:induction false} KeptStarts(order: seq<Item>, vocab: map<string, nat>, merges: seq<Pair>, marked: string)
    requires Ordered(order, vocab) && WellFormed(vocab, merges) && KeptText(vocab, marked)
    ensures StartPieces(Places(Trim(order, merges, false).pieces), marked) == StartPieces(vocab, marked)
    ensures Codable(KeptCode(vocab), StartPieces(vocab, marked))
  {
    hide Places, Trim, BytePieces, BytePiece, Utf8.Bytes, KeptChar, Ordered, WellFormed, KeptCode;
    if marked != [] {
      var front, c := marked[..|marked| - 1], marked[|marked| - 1];
      KeptStarts(order, vocab, merges, front);
      KeptCharStays(order, vocab, merges, c);
      KeptCharIsCoded(vocab, merges, c);
    }
  }

  // ---------------------------------------------------------------- other text

  function Length(pieces: seq<string>): nat {
    |Concat(pieces)|
  }

  lemma {:induction false} BytePiecesLength(bytes: seq<nat>)
    requires forall i :: 0 <= i < |bytes| ==> bytes[i] < 256
    ensures Length(BytePieces(bytes)) == 6 * |bytes|
  {
    hide BytePiece;
    if bytes != [] {
      BytePiecesLength(bytes[..|bytes| - 1]);
      BytePieceLength(bytes[|bytes| - 1]);
      assert BytePieces(bytes)[..|bytes| - 1] == BytePieces(bytes[..|bytes| - 1]);
    }
  }

  lemma BytePieceLength(byte: nat)
    requires byte < 256
    ensures |BytePiece(byte)| == 6
  {
  }

  lemma OnePieceLength(c: char)
    ensures Length([[c]]) == 1
  {
    assert [[c]][..0] == [];
    assert Concat([[c]]) == Concat([]) + [c];
  }

  /** A dropped character costs at least five more places. */
  lemma {:induction false} CharLength(order: seq<Item>, vocab: map<string, nat>, merges: seq<Pair>, c: char)
    requires Ordered(order, vocab)
    ensures var ids := Places(Trim(order, merges, false).pieces);
      && Length(CharPieces(vocab, c)) <= Length(CharPieces(ids, c))
      && ([c] in vocab && !KeptChar(c) ==> Length(CharPieces(vocab, c)) < Length(CharPieces(ids, c)))
  {
    hide Places, Survives, Trim, BytePieces, Utf8.Bytes, KeptChar, Ordered, Length;
    SurvivorsKeepTheirId(order, vocab, merges, false, [c]);
    OneCharSurvives(c);
    BytePiecesLength(Utf8.Bytes(c));
    OnePieceLength(c);
  }

  lemma StartLength(vocab: map<string, nat>, marked: string)
    ensures Length(StartPieces(vocab, [])) == 0
    ensures marked != [] ==>
              Length(StartPieces(vocab, marked)) ==
              Length(StartPieces(vocab, marked[..|marked| - 1])) + Length(CharPieces(vocab, marked[|marked| - 1]))
  {
    if marked != [] {
      ConcatSplits(StartPieces(vocab, marked[..|marked| - 1]), CharPieces(vocab, marked[|marked| - 1]));
    }
  }

  lemma KeptTextStep(vocab: map<string, nat>, marked: string)
    requires marked != []
    ensures var c := marked[|marked| - 1];
      KeptText(vocab, marked) <==> KeptText(vocab, marked[..|marked| - 1]) && ([c] in vocab ==> KeptChar(c))
  {
    hide KeptChar;
    assert marked == marked[..|marked| - 1] + [marked[|marked| - 1]];
  }

  /** So a text with one starts from pieces that spell something longer. */
  lemma {:induction false} DroppedCharLengthens(order: seq<Item>, vocab: map<string, nat>, merges: seq<Pair>, marked: string)
    requires Ordered(order, vocab)
    ensures var ids := Places(Trim(order, merges, false).pieces);
      && Length(StartPieces(vocab, marked)) <= Length(StartPieces(ids, marked))
      && (!KeptText(vocab, marked) ==> Length(StartPieces(vocab, marked)) < Length(StartPieces(ids, marked)))
  {
    hide Places, Trim, KeptChar, Ordered, Length, StartPieces, CharPieces;
    StartLength(vocab, marked);
    StartLength(Places(Trim(order, merges, false).pieces), marked);
    if marked != [] {
      hide KeptText;
      DroppedCharLengthens(order, vocab, merges, marked[..|marked| - 1]);
      CharLength(order, vocab, merges, marked[|marked| - 1]);
      KeptTextStep(vocab, marked);
    }
  }

  // ---------------------------------------------------------------- the result

  /** The trim leaves a text's pieces alone exactly when every character that is itself a piece is of a kept script. */
  lemma {:induction false} TrimIsLosslessIffKept(b: Encoder, order: seq<Item>, merges: seq<Pair>, text: string)
    requires b.ranks == Places(merges) && Ordered(order, b.vocab) && WellFormed(b.vocab, merges)
    requires b.eos in Trim(order, merges, false).remap && b.unk in Trim(order, merges, false).remap
    ensures Pieces(TrimmedBpe(b, Trim(order, merges, false)), text) == Pieces(b, text) <==> KeptText(b.vocab, Marked(text))
  {
    hide Merged, Places, Trim, KeptText, Concat, StartPieces, Corresponds, Codable, Coded;
    var t := Trim(order, merges, false);
    var small := TrimmedBpe(b, t);
    if KeptText(b.vocab, Marked(text)) {
      KeptPieces(b, order, merges, text);
    } else {
      DroppedCharLengthens(order, b.vocab, merges, Marked(text));
      PiecesSpellTheText(b, text);
      PiecesSpellTheText(small, text);
    }
  }

  lemma {:induction false} KeptPieces(b: Encoder, order: seq<Item>, merges: seq<Pair>, text: string)
    requires b.ranks == Places(merges) && Ordered(order, b.vocab) && WellFormed(b.vocab, merges)
    requires b.eos in Trim(order, merges, false).remap && b.unk in Trim(order, merges, false).remap
    requires KeptText(b.vocab, Marked(text))
    ensures Pieces(TrimmedBpe(b, Trim(order, merges, false)), text) == Pieces(b, text)
    ensures Codable(KeptCode(b.vocab), Pieces(b, text))
  {
    hide Merged, Places, Trim, KeptText, StartPieces, Corresponds, Codable, Coded, KeptCode;
    var t := Trim(order, merges, false);
    KeptTablesCorrespond(order, b.vocab, merges, false);
    KeptStarts(order, b.vocab, merges, Marked(text));
    var start := StartPieces(b.vocab, Marked(text));
    MergedCoded(KeptCode(b.vocab), TableOf(Places(merges)), TableOf(Places(t.merges)), start);
    SelfCoded(b.vocab, start);
    SelfCoded(b.vocab, Pieces(b, text));
  }

  lemma SelfCoded(vocab: map<string, nat>, pieces: seq<string>)
    requires Codable(KeptCode(vocab), pieces)
    ensures Coded(KeptCode(vocab), pieces) == pieces
  {
  }

  /** Such a text keeps its ids too, each under its new number. */
  lemma {:induction false} KeptTextKeepsItsIds(b: Encoder, order: seq<Item>, merges: seq<Pair>, text: string)
    requires b.ranks == Places(merges) && Ordered(order, b.vocab) && WellFormed(b.vocab, merges)
    requires b.eos in Trim(order, merges, false).remap && b.unk in Trim(order, merges, false).remap
    requires KeptText(b.vocab, Marked(text))
    ensures var t := Trim(order, merges, false);
      && (forall i :: 0 <= i < |Encode(b, text)| ==> Encode(b, text)[i] in t.remap)
      && Encode(TrimmedBpe(b, t), text) == Mapped(t.remap, Encode(b, text))
  {
    hide Pieces, Trim, KeptText, Places, Ordered;
    var t := Trim(order, merges, false);
    var small := TrimmedBpe(b, t);
    KeptPieces(b, order, merges, text);
    var pieces := Pieces(b, text);
    forall i | 0 <= i < |pieces| ensures Id(b, pieces[i]) in t.remap && Id(small, pieces[i]) == t.remap[Id(b, pieces[i])] {
      SurvivorsKeepTheirId(order, b.vocab, merges, false, pieces[i]);
    }
  }
}
