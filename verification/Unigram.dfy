/**
 The Unigram tokenizer of tools/export_intent.py. `Best` is the table of the search as a function of the word; the
 method fills it in place. A split of a word is any way to cut it into vocabulary pieces and single unknown characters,
 and the search is proved to return one of highest score, cut for cut determined by the scores alone.
 */
module Unigram {
  import opened Options
  import opened Sequences

  const UNK_PENALTY: real := 10.0
  const TOKENS: nat := 128

  type Pieces = seq<(string, real)>

  datatype Vocab = Vocab(ids: map<string, nat>, scores: seq<real>, unk: nat, longest: nat, floor: real)

  // ---------------------------------------------------------------- building one

  function Names(pieces: Pieces): (names: seq<string>)
    ensures |names| == |pieces| && forall i :: 0 <= i < |pieces| ==> names[i] == pieces[i].0
  {
    if pieces == [] then [] else Names(pieces[..|pieces| - 1]) + [pieces[|pieces| - 1].0]
  }

  function IdsOf(pieces: Pieces): map<string, nat> {
    Places(Names(pieces))
  }

  function Longest(pieces: Pieces): nat
    requires pieces != []
  {
    var last := |pieces[|pieces| - 1].0|;
    if |pieces| == 1 then last
    else
      var before := Longest(pieces[..|pieces| - 1]);
      if last > before then last else before
  }

  function Lowest(pieces: Pieces): real
    requires pieces != []
  {
    var last := pieces[|pieces| - 1].1;
    if |pieces| == 1 then last
    else
      var before := Lowest(pieces[..|pieces| - 1]);
      if last < before then last else before
  }

  function New(pieces: Pieces, unk: nat): Vocab
    requires pieces != []
  {
    Vocab(IdsOf(pieces), seq(|pieces|, i requires 0 <= i < |pieces| => pieces[i].1), unk, Longest(pieces),
          Lowest(pieces) - UNK_PENALTY)
  }

  predicate Wf(v: Vocab) {
    forall piece :: piece in v.ids ==> v.ids[piece] < |v.scores| && |piece| <= v.longest
  }

  /** An id is the last place its piece stands, and nothing but the pieces has one. */
  lemma {:induction false} IdsAreLast(pieces: Pieces, piece: string)
    ensures piece in IdsOf(pieces) <==> exists i :: 0 <= i < |pieces| && pieces[i].0 == piece
    ensures piece in IdsOf(pieces) ==>
              var id := IdsOf(pieces)[piece];
              id < |pieces| && pieces[id].0 == piece && forall i :: id < i < |pieces| ==> pieces[i].0 != piece
  {
    PlacesHold(Names(pieces));
    forall i | 0 <= i < |pieces| && pieces[i].0 == piece ensures i <= IdsOf(pieces)[piece] {
      PlaceIsLast(Names(pieces), i);
    }
    assert forall i :: 0 <= i < |pieces| ==> Names(pieces)[i] in Names(pieces);
  }

  lemma {:induction false} LongestBounds(pieces: Pieces, i: nat)
    requires i < |pieces|
    ensures |pieces[i].0| <= Longest(pieces)
    ensures Lowest(pieces) <= pieces[i].1
  {
    if i < |pieces| - 1 {
      LongestBounds(pieces[..|pieces| - 1], i);
    }
  }

  lemma {:induction false} LongestAttained(pieces: Pieces) returns (i: nat, j: nat)
    requires pieces != []
    ensures i < |pieces| && |pieces[i].0| == Longest(pieces)
    ensures j < |pieces| && pieces[j].1 == Lowest(pieces)
  {
    i, j := 0, 0;
    if |pieces| > 1 {
      var front, last := pieces[..|pieces| - 1], pieces[|pieces| - 1];
      i, j := LongestAttained(front);
      i := if |last.0| > Longest(front) then |pieces| - 1 else i;
      j := if last.1 < Lowest(front) then |pieces| - 1 else j;
    }
  }

  /** The scores in order, the length of a longest piece, and an unknown edge ten below a worst score. */
  lemma NewIsExact(pieces: Pieces, unk: nat) returns (i: nat, j: nat)
    requires pieces != []
    ensures var v := New(pieces, unk);
      && v.unk == unk && |v.scores| == |pieces|
      && (forall k :: 0 <= k < |pieces| ==>
            v.scores[k] == pieces[k].1 && |pieces[k].0| <= v.longest && v.floor <= pieces[k].1 - 10.0)
      && i < |pieces| && |pieces[i].0| == v.longest
      && j < |pieces| && pieces[j].1 - 10.0 == v.floor
  {
    hide Longest, Lowest, IdsOf;
    i, j := LongestAttained(pieces);
    forall k | 0 <= k < |pieces| ensures |pieces[k].0| <= Longest(pieces) && Lowest(pieces) <= pieces[k].1 {
      LongestBounds(pieces, k);
    }
  }

  lemma NewIsWf(pieces: Pieces, unk: nat)
    requires pieces != []
    ensures Wf(New(pieces, unk))
    ensures var v := New(pieces, unk); forall piece :: piece in v.ids ==> v.floor + UNK_PENALTY <= v.scores[v.ids[piece]]
  {
    var v := New(pieces, unk);
    forall piece | piece in v.ids
      ensures v.ids[piece] < |v.scores| && |piece| <= v.longest && v.floor + UNK_PENALTY <= v.scores[v.ids[piece]]
    {
      IdsAreLast(pieces, piece);
      LongestBounds(pieces, v.ids[piece]);
    }
  }

  // ---------------------------------------------------------------- the search

  /** The score of the best way to reach the end of a word, and its last part: where it starts, and whether a piece. */
  datatype Cell = Cell(score: real, start: nat, known: bool)

  function Score(v: Vocab, piece: string): real
    requires Wf(v) && piece in v.ids
  {
    v.scores[v.ids[piece]]
  }

  /** The best last piece among those starting before `upto`; of equals, the first found. */
  function Scan(v: Vocab, word: string, upto: nat): (cell: Option<Cell>)
    requires Wf(v) && upto <= |word|
    ensures cell.Some? ==> cell.value.known && cell.value.start < upto && word[cell.value.start..] in v.ids
    decreases |word|, upto
  {
    if upto == 0 then None
    else
      var before := Scan(v, word, upto - 1);
      var piece := word[upto - 1..];
      if piece in v.ids then
        var score := Best(v, word[..upto - 1]).score + Score(v, piece);
        if before.None? || score > before.value.score then Some(Cell(score, upto - 1, true)) else before
      else before
  }

  function Best(v: Vocab, word: string): (cell: Cell)
    requires Wf(v)
    ensures word != [] ==> cell.start < |word|
    ensures word != [] && cell.known ==> word[cell.start..] in v.ids
    ensures word != [] && !cell.known ==> cell.start == |word| - 1
    decreases |word|, |word| + 1
  {
    if word == [] then Cell(0.0, 0, false)
    else
      var piece := Scan(v, word, |word|);
      var unknown := Best(v, word[..|word| - 1]).score + v.floor;
      if piece.None? || unknown > piece.value.score then Cell(unknown, |word| - 1, false) else piece.value
  }

  datatype Part = Part(text: string, known: bool)

  /** The cells followed back from the end. */
  function Parts(v: Vocab, word: string): seq<Part>
    requires Wf(v)
  {
    if word == [] then []
    else
      var cell := Best(v, word);
      Parts(v, word[..cell.start]) + [Part(word[cell.start..], cell.known)]
  }

  function Id(v: Vocab, part: Part): nat
    requires PartOk(v, part)
  {
    if part.known then v.ids[part.text] else v.unk
  }

  function PartIds(v: Vocab, parts: seq<Part>): seq<nat>
    requires forall i :: 0 <= i < |parts| ==> PartOk(v, parts[i])
  {
    if parts == [] then [] else PartIds(v, parts[..|parts| - 1]) + [Id(v, parts[|parts| - 1])]
  }

  function Fuse(unk: nat, ids: seq<nat>): seq<nat> {
    if ids == [] then []
    else
      var front := Fuse(unk, ids[..|ids| - 1]);
      var last := ids[|ids| - 1];
      if last == unk && front != [] && front[|front| - 1] == unk then front else front + [last]
  }

  function Word(v: Vocab, word: string): seq<nat>
    requires Wf(v)
  {
    PartsSplit(v, word);
    Fuse(v.unk, PartIds(v, Parts(v, word)))
  }

  // ---------------------------------------------------------------- splits of a word

  predicate PartOk(v: Vocab, part: Part) {
    part.text != [] && (if part.known then part.text in v.ids else |part.text| == 1)
  }

  function Concat(parts: seq<Part>): string {
    if parts == [] then [] else Concat(parts[..|parts| - 1]) + parts[|parts| - 1].text
  }

  predicate Splits(v: Vocab, word: string, parts: seq<Part>) {
    Concat(parts) == word && forall i :: 0 <= i < |parts| ==> PartOk(v, parts[i])
  }

  function Cost(v: Vocab, part: Part): real
    requires Wf(v) && PartOk(v, part)
  {
    if part.known then Score(v, part.text) else v.floor
  }

  function Total(v: Vocab, parts: seq<Part>): real
    requires Wf(v) && forall i :: 0 <= i < |parts| ==> PartOk(v, parts[i])
  {
    if parts == [] then 0.0 else Total(v, parts[..|parts| - 1]) + Cost(v, parts[|parts| - 1])
  }

  function Unknowns(parts: seq<Part>): nat {
    if parts == [] then 0 else Unknowns(parts[..|parts| - 1]) + if parts[|parts| - 1].known then 0 else 1
  }

  /** Every word can be cut: the parts are a split of it. */
  lemma {:induction false} PartsSplit(v: Vocab, word: string)
    requires Wf(v)
    ensures Splits(v, word, Parts(v, word))
  {
    if word != [] {
      var cell := Best(v, word);
      PartsSplit(v, word[..cell.start]);
      SplitMore(v, word[..cell.start], Parts(v, word[..cell.start]), Part(word[cell.start..], cell.known));
      assert word == word[..cell.start] + word[cell.start..];
    }
  }

  lemma SplitMore(v: Vocab, word: string, parts: seq<Part>, last: Part)
    requires Splits(v, word, parts) && PartOk(v, last)
    ensures Splits(v, word + last.text, parts + [last])
    ensures Unknowns(parts + [last]) == Unknowns(parts) + if last.known then 0 else 1
    ensures Wf(v) ==> Total(v, parts + [last]) == Total(v, parts) + Cost(v, last)
  {
    assert (parts + [last])[..|parts|] == parts;
  }

  // ---------------------------------------------------------------- what a cell means

  /** The score of the best way to the end of a word whose last part starts at `start`. */
  function Edge(v: Vocab, word: string, start: nat, known: bool): real
    requires Wf(v) && start < |word| && PartOk(v, Part(word[start..], known))
  {
    Best(v, word[..start]).score + Cost(v, Part(word[start..], known))
  }

  predicate EdgeOk(v: Vocab, word: string, start: nat, known: bool) {
    start < |word| && PartOk(v, Part(word[start..], known))
  }

  /** The edges the search prefers to another of the same score: pieces before the unknown, earlier pieces first. */
  predicate Sooner(a: nat, aKnown: bool, b: nat, bKnown: bool) {
    aKnown && (!bKnown || a < b)
  }

  /** A cell holds an edge, no edge scores more, and those tried sooner score less. */
  ghost predicate Chosen(v: Vocab, word: string, cell: Cell)
    requires Wf(v)
  {
    && EdgeOk(v, word, cell.start, cell.known)
    && cell.score == Edge(v, word, cell.start, cell.known)
    && forall start: nat, known | EdgeOk(v, word, start, known) ::
         Edge(v, word, start, known) <= cell.score &&
         (Sooner(start, known, cell.start, cell.known) ==> Edge(v, word, start, known) < cell.score)
  }

  lemma {:induction false} ScanFinds(v: Vocab, word: string, upto: nat)
    requires Wf(v) && upto <= |word|
    ensures var cell := Scan(v, word, upto);
      && (cell.None? ==> forall start: nat :: start < upto ==> !EdgeOk(v, word, start, true))
      && (cell.Some? ==>
            && EdgeOk(v, word, cell.value.start, true)
            && cell.value.score == Edge(v, word, cell.value.start, true)
            && forall start: nat :: start < upto && EdgeOk(v, word, start, true) ==>
                 Edge(v, word, start, true) <= cell.value.score &&
                 (start < cell.value.start ==> Edge(v, word, start, true) < cell.value.score))
    decreases upto
  {
    hide Best;
    if upto > 0 {
      ScanFinds(v, word, upto - 1);
    }
  }

  /** What the search keeps for every word, ties included. */
  lemma {:induction false} BestIsChosen(v: Vocab, word: string)
    requires Wf(v) && word != []
    ensures Chosen(v, word, Best(v, word))
  {
    hide Scan;
    ScanFinds(v, word, |word|);
    assert word[|word| - 1..] == [word[|word| - 1]];
    var cell := Best(v, word);
    forall start: nat, known | EdgeOk(v, word, start, known)
      ensures Edge(v, word, start, known) <= cell.score
      ensures Sooner(start, known, cell.start, cell.known) ==> Edge(v, word, start, known) < cell.score
    {
      if !known {
        assert start == |word| - 1;
      }
    }
  }

  lemma {:induction false} ChosenIsUnique(v: Vocab, word: string, a: Cell, b: Cell)
    requires Wf(v) && Chosen(v, word, a) && Chosen(v, word, b)
    ensures a == b
  {
    hide Best;
    assert !Sooner(a.start, a.known, b.start, b.known) && !Sooner(b.start, b.known, a.start, a.known);
  }

  // ---------------------------------------------------------------- optimality

  lemma {:induction false} BestIsTotal(v: Vocab, word: string)
    requires Wf(v)
    ensures Splits(v, word, Parts(v, word)) && Total(v, Parts(v, word)) == Best(v, word).score
  {
    PartsSplit(v, word);
    if word != [] {
      BestIsChosen(v, word);
      var cell := Best(v, word);
      PartsSplit(v, word[..cell.start]);
      BestIsTotal(v, word[..cell.start]);
      SplitMore(v, word[..cell.start], Parts(v, word[..cell.start]), Part(word[cell.start..], cell.known));
    }
  }

  /** No split of the word scores more than what the search returns. */
  lemma {:induction false} SearchIsOptimal(v: Vocab, word: string, parts: seq<Part>)
    requires Wf(v) && Splits(v, word, parts)
    ensures Splits(v, word, Parts(v, word))
    ensures Total(v, parts) <= Best(v, word).score == Total(v, Parts(v, word))
    decreases |parts|
  {
    BestIsTotal(v, word);
    if parts != [] {
      var front, last := parts[..|parts| - 1], parts[|parts| - 1];
      var start := |word| - |last.text|;
      assert word[..start] == Concat(front) && word[start..] == last.text;
      SearchIsOptimal(v, word[..start], front);
      BestIsChosen(v, word);
      assert EdgeOk(v, word, start, last.known);
    }
  }

  /** Read from the end, the first part where the two differ is a piece in the first, and a longer one than in the second. */
  predicate Preferred(parts: seq<Part>, other: seq<Part>) {
    parts == other ||
    (parts != [] && other != [] &&
     var (p, o) := (parts[|parts| - 1], other[|other| - 1]);
     if p == o then Preferred(parts[..|parts| - 1], other[..|other| - 1])
     else p.known && (!o.known || |o.text| < |p.text|))
  }

  lemma LastPart(v: Vocab, word: string, parts: seq<Part>) returns (start: nat)
    requires Wf(v) && Splits(v, word, parts) && parts != []
    ensures var (front, last) := (parts[..|parts| - 1], parts[|parts| - 1]);
      && start < |word| && start + |last.text| == |word| && word[start..] == last.text && EdgeOk(v, word, start, last.known)
      && Splits(v, word[..start], front) && Total(v, parts) == Total(v, front) + Cost(v, last)
  {
    var front, last := parts[..|parts| - 1], parts[|parts| - 1];
    start := |word| - |last.text|;
    assert word[..start] == Concat(front) && word[start..] == last.text;
  }

  /** Of all splits with the best score the search returns the one it prefers: that is how ties are broken. */
  lemma {:induction false} SearchPrefersSooner(v: Vocab, word: string, other: seq<Part>)
    requires Wf(v) && Splits(v, word, other) && Total(v, other) >= Best(v, word).score
    ensures Preferred(Parts(v, word), other)
    decreases |word|
  {
    hide Best, Total, Cost, Splits, EdgeOk;
    PartsSplit(v, word);
    if word == [] {
      NothingToSplit(v, other);
    } else {
      SomethingToSplit(v, word, other);
      var o := other[|other| - 1];
      var start := LastPart(v, word, other);
      var cell := Best(v, word);
      BestIsChosen(v, word);
      SearchIsOptimal(v, word[..start], other[..|other| - 1]);
      assert Edge(v, word, start, o.known) == cell.score;
      if start == cell.start && o.known == cell.known {
        SearchPrefersSooner(v, word[..start], other[..|other| - 1]);
        assert Parts(v, word)[..|Parts(v, word)| - 1] == Parts(v, word[..start]);
      } else {
        UnknownIsLast(v, word, start, o.known);
        UnknownIsLast(v, word, cell.start, cell.known);
      }
    }
  }

  lemma UnknownIsLast(v: Vocab, word: string, start: nat, known: bool)
    requires EdgeOk(v, word, start, known)
    ensures !known ==> start == |word| - 1
  {
  }

  lemma NothingToSplit(v: Vocab, other: seq<Part>)
    requires Splits(v, [], other)
    ensures other == []
  {
  }

  lemma SomethingToSplit(v: Vocab, word: string, other: seq<Part>)
    requires Splits(v, word, other) && word != []
    ensures other != []
  {
  }

  /** The ids of a word: one for each part, a piece's own or the unknown one, with unknown runs fused. */
  lemma WordIsParts(v: Vocab, word: string, ids: seq<nat>)
    requires Wf(v) && |ids| == |Parts(v, word)|
    requires forall i :: 0 <= i < |ids| ==>
               var part := Parts(v, word)[i];
               if part.known then part.text in v.ids && ids[i] == v.ids[part.text] else ids[i] == v.unk
    ensures Word(v, word) == Fuse(v.unk, ids)
  {
    hide Parts, Best, Scan, Fuse;
    PartsSplit(v, word);
    PartIdsAre(v, Parts(v, word), ids);
  }

  lemma {:induction false} PartIdsAre(v: Vocab, parts: seq<Part>, ids: seq<nat>)
    requires |ids| == |parts| && forall i :: 0 <= i < |parts| ==> PartOk(v, parts[i]) && ids[i] == Id(v, parts[i])
    ensures PartIds(v, parts) == ids
  {
    if parts != [] {
      PartIdsAre(v, parts[..|parts| - 1], ids[..|ids| - 1]);
    }
  }

  // ---------------------------------------------------------------- words without unknowns

  /** A character that is a piece is never taken as unknown, so a word of such characters has no unknown part. */
  lemma {:induction false} OwnPiecesMeanNoUnknowns(v: Vocab, word: string)
    requires Wf(v) && forall piece :: piece in v.ids ==> v.floor < Score(v, piece)
    requires forall i :: 0 <= i < |word| ==> [word[i]] in v.ids
    ensures Unknowns(Parts(v, word)) == 0
  {
    if word != [] {
      var cell := Best(v, word);
      OwnPiecesMeanNoUnknowns(v, word[..cell.start]);
      PartsSplit(v, word[..cell.start]);
      SplitMore(v, word[..cell.start], Parts(v, word[..cell.start]), Part(word[cell.start..], cell.known));
      BestIsChosen(v, word);
      assert word[|word| - 1..] == [word[|word| - 1]];
      assert EdgeOk(v, word, |word| - 1, true);
    }
  }

  // ---------------------------------------------------------------- how the floor matters

  /** No split of the word has fewer unknown characters. */
  ghost predicate Fewest(v: Vocab, word: string, parts: seq<Part>) {
    forall other :: Splits(v, word, other) ==> Unknowns(parts) <= Unknowns(other)
  }

  function Lowered(v: Vocab, floor: real): Vocab {
    v.(floor := floor)
  }

  /** `n` times a penalty. */
  function Times(n: nat, d: real): real {
    if n == 0 then 0.0 else Times(n - 1, d) + d
  }

  lemma {:induction false} TimesGrows(a: nat, b: nat, d: real)
    requires a <= b && 0.0 <= d
    ensures Times(a, d) <= Times(b, d)
    ensures a < b ==> Times(a, d) + d <= Times(b, d)
    decreases b
  {
    if a < b {
      TimesGrows(a, b - 1, d);
    }
  }

  lemma OneMoreTime(n: nat, d: real)
    ensures Times(n + 1, d) == Times(n, d) + d
  {
  }

  lemma LoweredSplits(v: Vocab, floor: real, word: string, parts: seq<Part>)
    ensures Splits(Lowered(v, floor), word, parts) <==> Splits(v, word, parts)
  {
    if Splits(Lowered(v, floor), word, parts) {
      assert forall i :: 0 <= i < |parts| ==> PartOk(Lowered(v, floor), parts[i]) && PartOk(v, parts[i]);
    }
    if Splits(v, word, parts) {
      assert forall i :: 0 <= i < |parts| ==> PartOk(v, parts[i]) && PartOk(Lowered(v, floor), parts[i]);
    }
  }

  lemma {:induction false} LoweredTotal(v: Vocab, floor: real, word: string, parts: seq<Part>)
    requires Wf(v) && Splits(v, word, parts)
    ensures Splits(Lowered(v, floor), word, parts)
    ensures Total(Lowered(v, floor), parts) == Total(v, parts) - Times(Unknowns(parts), v.floor - floor)
    decreases |parts|
  {
    if parts != [] {
      LoweredTotal(v, floor, Concat(parts[..|parts| - 1]), parts[..|parts| - 1]);
    }
  }

  /** The parts with the fewest unknowns stay the search's choice however low the floor goes. */
  lemma {:induction false} FewestSurvive(v: Vocab, floor: real, word: string)
    requires Wf(v) && floor <= v.floor && Fewest(v, word, Parts(v, word))
    ensures Parts(Lowered(v, floor), word) == Parts(v, word)
    decreases |word|
  {
    hide Scan, Best, Total, Splits, Unknowns, Concat, Fewest, Chosen, Edge;
    if word != [] {
      var cell := Best(v, word);
      FewestInFront(v, word);
      FewestSurvive(v, floor, word[..cell.start]);
      LoweredIsChosen(v, floor, word);
      var low := Lowered(v, floor);
      BestIsChosen(low, word);
      ChosenIsUnique(low, word, Best(low, word), Cell(Edge(low, word, cell.start, cell.known), cell.start, cell.known));
    }
  }

  lemma {:induction false} FewestInFront(v: Vocab, word: string)
    requires Wf(v) && word != [] && Fewest(v, word, Parts(v, word))
    ensures var cell := Best(v, word); Fewest(v, word[..cell.start], Parts(v, word[..cell.start]))
  {
    hide Scan, Best, Total;
    var cell := Best(v, word);
    var front, last := Parts(v, word[..cell.start]), Part(word[cell.start..], cell.known);
    PartsSplit(v, word[..cell.start]);
    SplitMore(v, word[..cell.start], front, last);
    assert word[..cell.start] + last.text == word;
    forall other | Splits(v, word[..cell.start], other) ensures Unknowns(front) <= Unknowns(other) {
      SplitMore(v, word[..cell.start], other, last);
    }
  }

  /** An edge under the lowered floor is a split of the word, so it loses to the cell by at least as much as before. */
  lemma {:induction false} LoweredEdge(v: Vocab, floor: real, word: string, start: nat, known: bool)
    requires Wf(v) && EdgeOk(v, word, start, known) && Splits(v, word, Parts(v, word))
    requires Fewest(v, word, Parts(v, word)) && floor <= v.floor
    ensures Edge(Lowered(v, floor), word, start, known) <=
            Edge(v, word, start, known) - Times(Unknowns(Parts(v, word)), v.floor - floor)
  {
    hide Scan, Best, Parts, Total, Splits, Unknowns, Times, Concat;
    var low := Lowered(v, floor);
    var front, last := Parts(low, word[..start]), Part(word[start..], known);
    BestIsTotal(low, word[..start]);
    LoweredSplits(v, floor, word[..start], front);
    LoweredTotal(v, floor, word[..start], front);
    SearchIsOptimal(v, word[..start], front);
    SplitMore(v, word[..start], front, last);
    assert word[..start] + last.text == word;
    TimesGrows(Unknowns(Parts(v, word)), Unknowns(front + [last]), v.floor - floor);
    OneMoreTime(Unknowns(front), v.floor - floor);
  }

  lemma {:induction false} LoweredIsChosen(v: Vocab, floor: real, word: string)
    requires Wf(v) && word != [] && floor <= v.floor && Fewest(v, word, Parts(v, word))
    requires var cell := Best(v, word); Parts(Lowered(v, floor), word[..cell.start]) == Parts(v, word[..cell.start])
    ensures var cell := Best(v, word); var low := Lowered(v, floor);
      && EdgeOk(low, word, cell.start, cell.known)
      && Chosen(low, word, Cell(Edge(low, word, cell.start, cell.known), cell.start, cell.known))
  {
    hide Scan, Best, Total, Splits, Unknowns, Concat, Fewest, Edge;
    var cell, low := Best(v, word), Lowered(v, floor);
    PartsSplit(v, word);
    BestIsChosen(v, word);
    OwnEdgeLowered(v, floor, word);
    forall start: nat, known | EdgeOk(low, word, start, known)
      ensures Edge(low, word, start, known) <= Edge(low, word, cell.start, cell.known)
      ensures Sooner(start, known, cell.start, cell.known) ==>
                Edge(low, word, start, known) < Edge(low, word, cell.start, cell.known)
    {
      assert EdgeOk(v, word, start, known);
      LoweredEdge(v, floor, word, start, known);
    }
  }

  lemma {:induction false} OwnEdgeLowered(v: Vocab, floor: real, word: string)
    requires Wf(v) && word != []
    requires var cell := Best(v, word); Parts(Lowered(v, floor), word[..cell.start]) == Parts(v, word[..cell.start])
    ensures var cell := Best(v, word);
      && EdgeOk(v, word, cell.start, cell.known)
      && Edge(Lowered(v, floor), word, cell.start, cell.known) ==
         Edge(v, word, cell.start, cell.known) - Times(Unknowns(Parts(v, word)), v.floor - floor)
  {
    hide Scan, Best, Total, Splits, Unknowns, Times, Concat;
    var cell, low := Best(v, word), Lowered(v, floor);
    var prefix := word[..cell.start];
    var front, last := Parts(v, prefix), Part(word[cell.start..], cell.known);
    BestIsChosen(v, word);
    BestIsTotal(v, prefix);
    BestIsTotal(low, prefix);
    LoweredTotal(v, floor, prefix, front);
    SplitMore(v, prefix, front, last);
    OneMoreTime(Unknowns(front), v.floor - floor);
  }

  /** If some split has fewer unknowns, a floor low enough makes the search leave its old parts. */
  lemma {:induction false} LowFloorChangesParts(v: Vocab, word: string, other: seq<Part>) returns (floor: real)
    requires Wf(v) && Splits(v, word, other) && Unknowns(other) < Unknowns(Parts(v, word))
    ensures floor <= v.floor
    ensures forall f :: f <= floor ==> Parts(Lowered(v, f), word) != Parts(v, word)
  {
    hide Scan, Best, Total, Unknowns, Concat, Times, Parts;
    var parts := Parts(v, word);
    SearchIsOptimal(v, word, other);
    floor := v.floor - (Total(v, parts) - Total(v, other)) - 1.0;
    forall f | f <= floor ensures Parts(Lowered(v, f), word) != parts {
      LoweredTotal(v, f, word, parts);
      LoweredTotal(v, f, word, other);
      SearchIsOptimal(Lowered(v, f), word, other);
      TimesGrows(Unknowns(other), Unknowns(parts), v.floor - f);
    }
  }

  /** So a word is cut alike at every lower floor exactly when its parts have as few unknowns as any split of it. */
  lemma {:induction false} FloorProofIffFewest(v: Vocab, word: string)
    requires Wf(v)
    ensures (forall f :: f <= v.floor ==> Parts(Lowered(v, f), word) == Parts(v, word)) <==>
            Fewest(v, word, Parts(v, word))
  {
    hide Parts, Splits, Unknowns;
    if Fewest(v, word, Parts(v, word)) {
      forall f | f <= v.floor ensures Parts(Lowered(v, f), word) == Parts(v, word) {
        FewestSurvive(v, f, word);
      }
    } else {
      var other :| Splits(v, word, other) && Unknowns(other) < Unknowns(Parts(v, word));
      var floor := LowFloorChangesParts(v, word, other);
      assert Parts(Lowered(v, floor), word) != Parts(v, word);
    }
  }
}
