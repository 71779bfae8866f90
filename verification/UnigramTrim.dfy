/**
 Trimming the Unigram vocabulary to the kept scripts. Dropping pieces leaves every lookup of kept text alone, but it can
 raise the score of the worst piece, and with it the price of an unknown character. So kept text is cut as before
 exactly as long as its cut has no more unknowns than it must.
 */
module UnigramTrim {
  import opened Scripts
  import opened Sequences
  import opened Unigram
  import opened UnigramSearch

  // ---------------------------------------------------------------- the trim

  predicate Survives(pieces: Pieces, specials: set<nat>, keepAll: bool, at: nat)
    requires at < |pieces|
  {
    keepAll || at in specials || Keeps(pieces[at].0)
  }

  /** The old ids that stay, in order. */
  function Kept(pieces: Pieces, specials: set<nat>, keepAll: bool): seq<nat> {
    if pieces == [] then []
    else
      var last := |pieces| - 1;
      Kept(pieces[..last], specials, keepAll) + if Survives(pieces, specials, keepAll, last) then [last] else []
  }

  function Taken(pieces: Pieces, keep: seq<nat>): Pieces
    requires forall i :: 0 <= i < |keep| ==> keep[i] < |pieces|
  {
    seq(|keep|, i requires 0 <= i < |keep| => pieces[keep[i]])
  }

  function Trim(pieces: Pieces, specials: set<nat>, keepAll: bool): (r: (Pieces, map<nat, nat>)) {
    KeptIsExact(pieces, specials, keepAll);
    var keep := Kept(pieces, specials, keepAll);
    assert forall i :: 0 <= i < |keep| ==> keep[i] in keep;
    (Taken(pieces, keep), Places(keep))
  }

  predicate Ascending(keep: seq<nat>) {
    forall i, j :: 0 <= i < j < |keep| ==> keep[i] < keep[j]
  }

  lemma {:induction false} KeptIsExact(pieces: Pieces, specials: set<nat>, keepAll: bool)
    ensures var keep := Kept(pieces, specials, keepAll);
      && Ascending(keep)
      && (forall at: nat :: at in keep <==> at < |pieces| && Survives(pieces, specials, keepAll, at))
  {
    hide Keeps;
    if pieces != [] {
      var last := |pieces| - 1;
      KeptIsExact(pieces[..last], specials, keepAll);
      var front := Kept(pieces[..last], specials, keepAll);
      assert forall i :: 0 <= i < |front| ==> front[i] in front;
      forall at: nat ensures at in front <==> at < last && Survives(pieces, specials, keepAll, at) {
        if at < last {
          assert pieces[..last][at] == pieces[at];
        }
      }
    }
  }

  predicate Numbered(remap: map<nat, nat>, n: nat) {
    exists at :: at in remap && remap[at] == n
  }

  /** Ascending numbers are renumbered from zero without a gap, in their order. */
  lemma AscendingPlaces(keep: seq<nat>)
    requires Ascending(keep)
    ensures forall at :: at in Places(keep) <==> at in keep
    ensures forall at :: at in Places(keep) ==> Places(keep)[at] < |keep| && keep[Places(keep)[at]] == at
    ensures forall n: nat :: n < |keep| ==> Numbered(Places(keep), n)
    ensures forall a, b :: a in Places(keep) && b in Places(keep) && a < b ==> Places(keep)[a] < Places(keep)[b]
  {
    hide Places;
    PlacesHold(keep);
    DistinctPlaces(keep);
    forall n: nat | n < |keep| ensures Numbered(Places(keep), n) {
      assert keep[n] in Places(keep) && Places(keep)[keep[n]] == n;
    }
    forall a, b | a in Places(keep) && b in Places(keep) && a < b ensures Places(keep)[a] < Places(keep)[b] {
      var i, j := Places(keep)[a], Places(keep)[b];
      assert keep[i] == a && keep[j] == b;
      assert !(j < i);
    }
  }

  lemma {:induction false} TrimKeepsSurvivors(pieces: Pieces, specials: set<nat>, keepAll: bool)
    ensures var (kept, remap) := Trim(pieces, specials, keepAll);
      && (forall at: nat :: at in remap <==> at < |pieces| && Survives(pieces, specials, keepAll, at))
      && (forall at :: at in remap ==> remap[at] < |kept| && kept[remap[at]] == pieces[at])
      && (forall n: nat :: n < |kept| ==> Numbered(remap, n))
      && (forall a, b :: a in remap && b in remap && a < b ==> remap[a] < remap[b])
  {
    hide Survives, Kept, Places, Numbered, Ascending;
    KeptIsExact(pieces, specials, keepAll);
    AscendingPlaces(Kept(pieces, specials, keepAll));
  }

  /**
   The trim keeps exactly the specials and the pieces of kept characters, with their scores; it numbers them from zero
   without a gap, in the order they had.
   */
  lemma TrimIsExact(pieces: Pieces, specials: set<nat>, keepAll: bool)
    ensures var (kept, remap) := Trim(pieces, specials, keepAll);
      && (forall at: nat :: at in remap <==>
            at < |pieces| &&
            (keepAll || at in specials || forall i :: 0 <= i < |pieces[at].0| ==> KeptChar(pieces[at].0[i])))
      && (forall at :: at in remap ==> remap[at] < |kept| && kept[remap[at]] == pieces[at])
      && (forall n: nat :: n < |kept| ==> Numbered(remap, n))
      && (forall a, b :: a in remap && b in remap && a < b ==> remap[a] < remap[b])
  {
    hide Trim, KeptChar;
    TrimKeepsSurvivors(pieces, specials, keepAll);
  }

  // ---------------------------------------------------------------- lookups of kept text

  ghost predicate SameLookup(v: Vocab, t: Vocab, remap: map<nat, nat>, piece: string)
    requires Wf(v) && Wf(t)
  {
    && (piece in v.ids <==> piece in t.ids)
    && (piece in v.ids ==> v.ids[piece] in remap && t.ids[piece] == remap[v.ids[piece]] && Score(v, piece) == Score(t, piece))
  }

  lemma {:induction false} KeptLookups(pieces: Pieces, specials: set<nat>, keepAll: bool, unk: nat, piece: string)
    requires unk in Trim(pieces, specials, keepAll).1 && Keeps(piece)
    ensures pieces != [] && Trim(pieces, specials, keepAll).0 != []
    ensures var (kept, remap) := Trim(pieces, specials, keepAll); var v, t := New(pieces, unk), New(kept, remap[unk]);
      Wf(v) && Wf(t) && SameLookup(v, t, remap, piece)
  {
    hide Keeps, IdsOf, Trim, Longest, Lowest;
    var (kept, remap) := Trim(pieces, specials, keepAll);
    TrimKeepsSurvivors(pieces, specials, keepAll);
    NewIsWf(pieces, unk);
    NewIsWf(kept, remap[unk]);
    IdsAreLast(pieces, piece);
    IdsAreLast(kept, piece);
    if piece in IdsOf(pieces) {
      var id := IdsOf(pieces)[piece];
      assert id in remap && kept[remap[id]].0 == piece;
      var new_ := IdsOf(kept)[piece];
      assert Numbered(remap, new_);
      var other :| other in remap && remap[other] == new_;
      assert pieces[other] == kept[new_];
      assert !(other < id) && !(id < other);
    }
    if piece in IdsOf(kept) {
      var new_ := IdsOf(kept)[piece];
      assert Numbered(remap, new_);
      var other :| other in remap && remap[other] == new_;
      assert pieces[other].0 == piece;
    }
  }

  /** Two vocabularies that agree on every substring of a word, and on the floor, cut it alike. */
  lemma {:induction false} SameLookupsSameParts(v: Vocab, t: Vocab, remap: map<nat, nat>, word: string)
    requires Wf(v) && Wf(t) && v.floor == t.floor
    requires forall i, j :: 0 <= i <= j <= |word| ==> SameLookup(v, t, remap, word[i..j])
    ensures Parts(v, word) == Parts(t, word) && (word != [] ==> Best(v, word) == Best(t, word))
    decreases |word|
  {
    hide Best, Scan, Keeps;
    if word != [] {
      forall n | 0 <= n < |word| ensures Parts(v, word[..n]) == Parts(t, word[..n]) && Best(v, word[..n]).score == Best(t, word[..n]).score {
        forall i, j | 0 <= i <= j <= n ensures SameLookup(v, t, remap, word[..n][i..j]) {
          assert word[..n][i..j] == word[i..j];
        }
        SameLookupsSameParts(v, t, remap, word[..n]);
        EmptyScores(v);
        EmptyScores(t);
        if n == 0 {
          assert word[..0] == [];
        }
      }
      forall n | 0 <= n < |word| ensures SameLookup(v, t, remap, word[n..]) {
        assert word[n..] == word[n..|word|];
      }
      BestIsChosen(v, word);
      BestIsChosen(t, word);
      SameChoice(v, t, remap, word);
    }
  }

  lemma EmptyScores(v: Vocab)
    requires Wf(v)
    ensures Best(v, []).score == 0.0
  {
  }

  lemma {:induction false} SameChoice(v: Vocab, t: Vocab, remap: map<nat, nat>, word: string)
    requires Wf(v) && Wf(t) && v.floor == t.floor && word != []
    requires forall n :: 0 <= n < |word| ==> Best(v, word[..n]).score == Best(t, word[..n]).score
    requires forall n :: 0 <= n < |word| ==> SameLookup(v, t, remap, word[n..])
    ensures Best(v, word) == Best(t, word)
  {
    hide Best, Scan;
    BestIsChosen(v, word);
    BestIsChosen(t, word);
    forall start: nat, known | start < |word|
      ensures EdgeOk(v, word, start, known) == EdgeOk(t, word, start, known)
      ensures EdgeOk(v, word, start, known) ==> Edge(v, word, start, known) == Edge(t, word, start, known)
    {
      assert SameLookup(v, t, remap, word[start..]);
    }
    ChosenIsUnique(t, word, Best(v, word), Best(t, word));
  }

  /** On kept text the full vocabulary acts as the trimmed one with the full one's floor. */
  lemma {:induction false} KeptTextSeesOnlyTheFloor(pieces: Pieces, specials: set<nat>, keepAll: bool, unk: nat, word: string)
    requires unk in Trim(pieces, specials, keepAll).1 && Keeps(word)
    ensures pieces != [] && Trim(pieces, specials, keepAll).0 != []
    ensures var (kept, remap) := Trim(pieces, specials, keepAll); var v, t := New(pieces, unk), New(kept, remap[unk]);
      && Wf(v) && Wf(t) && v.floor <= t.floor
      && Parts(v, word) == Parts(Lowered(t, v.floor), word)
      && forall i, j :: 0 <= i <= j <= |word| ==> SameLookup(v, t, remap, word[i..j])
  {
    hide KeptChar, IdsOf, Trim, Longest, Best, Scan, Parts, Lowest, SameLookup;
    var (kept, remap) := Trim(pieces, specials, keepAll);
    KeptLookups(pieces, specials, keepAll, unk, "");
    var v, t := New(pieces, unk), New(kept, remap[unk]);
    FloorRises(pieces, specials, keepAll);
    forall i, j | 0 <= i <= j <= |word|
      ensures SameLookup(v, t, remap, word[i..j]) && SameLookup(v, Lowered(t, v.floor), remap, word[i..j])
    {
      KeptLookups(pieces, specials, keepAll, unk, word[i..j]);
      LoweredLookup(v, t, remap, v.floor, word[i..j]);
    }
    SameLookupsSameParts(v, Lowered(t, v.floor), remap, word);
  }

  lemma LoweredLookup(v: Vocab, t: Vocab, remap: map<nat, nat>, floor: real, piece: string)
    requires Wf(v) && Wf(t) && SameLookup(v, t, remap, piece)
    ensures SameLookup(v, Lowered(t, floor), remap, piece)
  {
  }

  lemma {:induction false} LowestIsThere(pieces: Pieces) returns (at: nat)
    requires pieces != []
    ensures at < |pieces| && pieces[at].1 == Lowest(pieces)
  {
    at := |pieces| - 1;
    if |pieces| > 1 {
      var before := LowestIsThere(pieces[..|pieces| - 1]);
      if pieces[at].1 >= Lowest(pieces[..|pieces| - 1]) {
        at := before;
      }
    }
  }

  lemma {:induction false} FloorRises(pieces: Pieces, specials: set<nat>, keepAll: bool)
    requires pieces != [] && Trim(pieces, specials, keepAll).0 != []
    ensures Lowest(pieces) <= Lowest(Trim(pieces, specials, keepAll).0)
  {
    hide Trim, Lowest, Survives;
    var (kept, remap) := Trim(pieces, specials, keepAll);
    TrimKeepsSurvivors(pieces, specials, keepAll);
    var n := LowestIsThere(kept);
    assert Numbered(remap, n);
    var at :| at in remap && remap[at] == n;
    LongestBounds(pieces, at);
  }

  // ---------------------------------------------------------------- when the trim loses nothing

  ghost predicate SameIds(v: Vocab, t: Vocab, remap: map<nat, nat>, word: string)
    requires Wf(v) && Wf(t)
  {
    && (forall i :: 0 <= i < |Word(v, word)| ==> Word(v, word)[i] in remap)
    && Word(t, word) == Mapped(remap, Word(v, word))
  }

  lemma {:induction false} FuseRemaps(unk: nat, remap: map<nat, nat>, ids: seq<nat>, moved: seq<nat>)
    requires unk in remap && forall a, b :: a in remap && b in remap && a < b ==> remap[a] < remap[b]
    requires |ids| == |moved| && forall i :: 0 <= i < |ids| ==> ids[i] in remap && moved[i] == remap[ids[i]]
    ensures forall i :: 0 <= i < |Fuse(unk, ids)| ==> Fuse(unk, ids)[i] in remap
    ensures Fuse(remap[unk], moved) == Mapped(remap, Fuse(unk, ids))
    decreases |ids|
  {
    if ids != [] {
      FuseRemaps(unk, remap, ids[..|ids| - 1], moved[..|ids| - 1]);
    }
  }

  lemma {:induction false} PartIdsRemap(v: Vocab, t: Vocab, remap: map<nat, nat>, word: string, parts: seq<Part>)
    requires Wf(v) && Wf(t) && v.unk in remap && t.unk == remap[v.unk]
    requires Splits(v, word, parts) && Splits(t, word, parts)
    requires forall i :: 0 <= i < |parts| ==> SameLookup(v, t, remap, parts[i].text)
    ensures |PartIds(v, parts)| == |PartIds(t, parts)| == |parts|
    ensures forall i :: 0 <= i < |parts| ==> PartIds(v, parts)[i] in remap && PartIds(t, parts)[i] == remap[PartIds(v, parts)[i]]
    decreases |parts|
  {
    if parts != [] {
      var front := parts[..|parts| - 1];
      PartIdsRemap(v, t, remap, Concat(front), front);
    }
  }

  lemma {:induction false} PartsAreSubstrings(word: string, parts: seq<Part>, i: nat) returns (from: nat, to: nat)
    requires Concat(parts) == word && i < |parts|
    ensures from <= to <= |word| && parts[i].text == word[from..to]
    decreases |parts|
  {
    var front := Concat(parts[..|parts| - 1]);
    if i == |parts| - 1 {
      from, to := |front|, |word|;
    } else {
      from, to := PartsAreSubstrings(front, parts[..|parts| - 1], i);
      assert word[from..to] == front[from..to];
    }
  }

  /** Equal parts give the same ids, each under its new number. */
  lemma {:induction false} SamePartsSameIds(v: Vocab, t: Vocab, remap: map<nat, nat>, word: string)
    requires Wf(v) && Wf(t) && v.unk in remap && t.unk == remap[v.unk]
    requires forall a, b :: a in remap && b in remap && a < b ==> remap[a] < remap[b]
    requires forall i, j :: 0 <= i <= j <= |word| ==> SameLookup(v, t, remap, word[i..j])
    requires Parts(v, word) == Parts(t, word)
    ensures SameIds(v, t, remap, word)
  {
    hide Best, Scan, Parts, SameLookup, Fuse;
    PartsSplit(v, word);
    PartsSplit(t, word);
    var parts := Parts(v, word);
    forall i | 0 <= i < |parts| ensures SameLookup(v, t, remap, parts[i].text) {
      var from, to := PartsAreSubstrings(word, parts, i);
    }
    PartIdsRemap(v, t, remap, word, parts);
    FuseRemaps(v.unk, remap, PartIds(v, parts), PartIds(t, parts));
  }

  /** The trimmed tokenizer gives kept text the full one's ids whenever its own cut has as few unknowns as any. */
  lemma {:induction false} FewestUnknownsLoseNothing(pieces: Pieces, specials: set<nat>, keepAll: bool, unk: nat, word: string)
    requires unk in Trim(pieces, specials, keepAll).1 && Keeps(word)
    requires pieces != [] && Trim(pieces, specials, keepAll).0 != []
    requires var (kept, remap) := Trim(pieces, specials, keepAll); var t := New(kept, remap[unk]);
      Wf(t) && Fewest(t, word, Parts(t, word))
    ensures var (kept, remap) := Trim(pieces, specials, keepAll); var v, t := New(pieces, unk), New(kept, remap[unk]);
      Wf(v) && Wf(t) && SameIds(v, t, remap, word)
  {
    hide Best, Scan, Parts, SameLookup, Trim, New, SameIds, Fewest, Word;
    var (kept, remap) := Trim(pieces, specials, keepAll);
    var v, t := New(pieces, unk), New(kept, remap[unk]);
    KeptTextSeesOnlyTheFloor(pieces, specials, keepAll, unk, word);
    FewestSurvive(t, v.floor, word);
    TrimKeepsSurvivors(pieces, specials, keepAll);
    NewUnk(pieces, unk);
    NewUnk(kept, remap[unk]);
    SamePartsSameIds(v, t, remap, word);
  }

  lemma NewUnk(pieces: Pieces, unk: nat)
    requires pieces != []
    ensures New(pieces, unk).unk == unk
  {
  }

  /** In particular for words whose every character is kept and is itself a piece: they have no unknowns at all. */
  lemma {:induction false} OwnPiecesLoseNothing(pieces: Pieces, specials: set<nat>, keepAll: bool, unk: nat, word: string)
    requires unk in Trim(pieces, specials, keepAll).1 && Keeps(word)
    requires forall i :: 0 <= i < |word| ==> exists at :: 0 <= at < |pieces| && pieces[at].0 == [word[i]]
    ensures pieces != [] && Trim(pieces, specials, keepAll).0 != []
    ensures var (kept, remap) := Trim(pieces, specials, keepAll); var v, t := New(pieces, unk), New(kept, remap[unk]);
      Wf(v) && Wf(t) && SameIds(v, t, remap, word) && Unknowns(Parts(t, word)) == 0
  {
    hide Best, Scan, Parts, Trim, SameIds, Word, Unknowns, KeptChar, Longest, Lowest, IdsOf;
    var (kept, remap) := Trim(pieces, specials, keepAll);
    KeptLookups(pieces, specials, keepAll, unk, "");
    var v, t := New(pieces, unk), New(kept, remap[unk]);
    NewIsWf(kept, remap[unk]);
    forall i | 0 <= i < |word| ensures [word[i]] in t.ids {
      IdsAreLast(pieces, [word[i]]);
      KeptLookups(pieces, specials, keepAll, unk, [word[i]]);
    }
    OwnPiecesMeanNoUnknowns(t, word);
    FewestUnknownsLoseNothing(pieces, specials, keepAll, unk, word);
  }

  // ---------------------------------------------------------------- and exactly then

  ghost predicate TrimsTo(pieces: Pieces, specials: set<nat>, kept: Pieces) {
    pieces != [] && Trim(pieces, specials, false).0 == kept
  }

  /** Which id stands for unknowns plays no part in how a word is cut. */
  lemma {:induction false} UnkIsIrrelevant(pieces: Pieces, a: nat, b: nat, word: string)
    requires pieces != []
    ensures Wf(New(pieces, a)) && Wf(New(pieces, b)) && Parts(New(pieces, a), word) == Parts(New(pieces, b), word)
  {
    hide Best, Scan, Parts, IdsOf, Longest, Lowest;
    NewIsWf(pieces, a);
    NewIsWf(pieces, b);
    var each := seq(|pieces|, i => i);
    PlacesHold(each);
    DistinctPlaces(each);
    forall i, j | 0 <= i <= j <= |word| ensures SameLookup(New(pieces, a), New(pieces, b), Places(each), word[i..j]) {
      if word[i..j] in IdsOf(pieces) {
        assert each[IdsOf(pieces)[word[i..j]]] in Places(each);
      }
    }
    SameLookupsSameParts(New(pieces, a), New(pieces, b), Places(each), word);
  }

  lemma {:induction false} AllSurvive(pieces: Pieces, specials: set<nat>)
    requires forall at: nat :: at < |pieces| ==> Survives(pieces, specials, false, at)
    ensures |Kept(pieces, specials, false)| == |pieces|
    ensures forall i :: 0 <= i < |pieces| ==> Kept(pieces, specials, false)[i] == i
  {
    hide Keeps;
    if pieces != [] {
      var front := pieces[..|pieces| - 1];
      forall at: nat | at < |front| ensures Survives(front, specials, false, at) {
        assert Survives(pieces, specials, false, at);
      }
      AllSurvive(front, specials);
    }
  }

  /** A vocabulary that trims to the given one, with any lower floor: one more piece, in no kept script. */
  function WithDropped(kept: Pieces, floor: real): Pieces {
    kept + [("\U{4E2D}", floor + UNK_PENALTY)]
  }

  function IdsBelow(n: nat): (ids: set<nat>)
    ensures forall at: nat :: at in ids <==> at < n
  {
    if n == 0 then {} else IdsBelow(n - 1) + {n - 1}
  }

  lemma {:induction false} DroppedTrims(kept: Pieces, floor: real)
    requires kept != [] && floor <= Lowest(kept) - UNK_PENALTY
    ensures TrimsTo(WithDropped(kept, floor), IdsBelow(|kept|), kept)
    ensures New(WithDropped(kept, floor), 0).floor == floor
    ensures 0 in Trim(WithDropped(kept, floor), IdsBelow(|kept|), false).1
  {
    hide Trim, Lowest, IdsOf, Longest;
    DroppedIsDropped(kept, floor, IdsBelow(|kept|));
    DroppedLowest(kept, floor);
  }

  /** If all other pieces survive, the trim takes the one more piece away and moves no id. */
  lemma {:induction false} DroppedIsDropped(kept: Pieces, floor: real, specials: set<nat>)
    requires |kept| !in specials && forall at: nat :: at < |kept| ==> Survives(kept, specials, false, at)
    ensures var (pieces, remap) := Trim(WithDropped(kept, floor), specials, false);
      pieces == kept && forall id: nat :: id < |kept| ==> id in remap && remap[id] == id
  {
    hide Keeps, Places;
    var full := WithDropped(kept, floor);
    assert full[..|full| - 1] == kept;
    AllSurvive(kept, specials);
    ForeignPiece();
    var keep := Kept(full, specials, false);
    assert keep == Kept(kept, specials, false);
    DistinctPlaces(keep);
    forall id: nat | id < |kept| ensures id in Places(keep) && Places(keep)[id] == id {
      assert keep[id] == id;
    }
  }

  lemma ForeignPiece()
    ensures !Keeps("\U{4E2D}")
  {
    assert !KeptChar("\U{4E2D}"[0]);
  }

  lemma DroppedLowest(kept: Pieces, floor: real)
    requires kept != [] && floor <= Lowest(kept) - UNK_PENALTY
    ensures Lowest(WithDropped(kept, floor)) == floor + UNK_PENALTY
  {
    var full := WithDropped(kept, floor);
    assert full[..|full| - 1] == kept;
  }

  lemma {:induction false} TrimmedAlike(full: Pieces, specials: set<nat>, kept: Pieces, word: string)
    requires TrimsTo(full, specials, kept) && kept != [] && Keeps(word)
    ensures Wf(New(full, 0)) && Wf(New(kept, 0))
    ensures New(full, 0).floor <= New(kept, 0).floor
    ensures Parts(New(full, 0), word) == Parts(Lowered(New(kept, 0), New(full, 0).floor), word)
  {
    hide Best, Scan, Parts, Trim, IdsOf, Longest, Lowest, KeptChar, SameLookup;
    TrimKeepsSurvivors(full, specials, false);
    var remap := Trim(full, specials, false).1;
    assert Numbered(remap, 0);
    var unk :| unk in remap && remap[unk] == 0;
    KeptTextSeesOnlyTheFloor(full, specials, false, unk, word);
    UnkIsIrrelevant(full, 0, unk, word);
  }

  /**
   A kept word is cut alike by every vocabulary that trims to the same pieces exactly when the trimmed one's own cut has
   as few unknown characters as any split of the word.
   */
  lemma {:induction false} TrimIsLosslessIffFewest(kept: Pieces, word: string)
    requires kept != [] && Keeps(word)
    ensures Wf(New(kept, 0))
    ensures (forall full, specials :: TrimsTo(full, specials, kept) ==>
               Wf(New(full, 0)) && Parts(New(full, 0), word) == Parts(New(kept, 0), word)) <==>
            Fewest(New(kept, 0), word, Parts(New(kept, 0), word))
  {
    hide Best, Scan, Parts, IdsOf, Longest, KeptChar, Fewest, Splits, Trim, WithDropped, Unknowns;
    var t := New(kept, 0);
    NewIsWf(kept, 0);
    if Fewest(t, word, Parts(t, word)) {
      forall full, specials | TrimsTo(full, specials, kept)
        ensures Wf(New(full, 0)) && Parts(New(full, 0), word) == Parts(t, word)
      {
        TrimmedAlike(full, specials, kept, word);
        FewestSurvive(t, New(full, 0).floor, word);
      }
    } else {
      FloorProofIffFewest(t, word);
      var floor :| floor <= t.floor && Parts(Lowered(t, floor), word) != Parts(t, word);
      DroppedTrims(kept, floor);
      TrimmedAlike(WithDropped(kept, floor), IdsBelow(|kept|), kept, word);
    }
  }

  /** Dropping no worst piece keeps the floor, and then kept text is always cut as before. */
  lemma {:induction false} SameFloorLosesNothing(full: Pieces, specials: set<nat>, kept: Pieces, word: string)
    requires TrimsTo(full, specials, kept) && kept != [] && Keeps(word) && Lowest(full) == Lowest(kept)
    ensures Wf(New(full, 0)) && Wf(New(kept, 0)) && Parts(New(full, 0), word) == Parts(New(kept, 0), word)
  {
    hide Best, Scan, Parts, IdsOf, Longest, Trim;
    TrimmedAlike(full, specials, kept, word);
    assert Lowered(New(kept, 0), New(full, 0).floor) == New(kept, 0);
  }

  // ---------------------------------------------------------------- whole texts

  lemma RemapFramed(remap: map<nat, nat>, ids: seq<nat>, bos: nat, eos: nat)
    requires bos in remap && eos in remap && forall i :: 0 <= i < |ids| ==> ids[i] in remap
    ensures var framed := [bos] + ids + [eos];
      && (forall i :: 0 <= i < |framed| ==> framed[i] in remap)
      && Mapped(remap, framed) == [remap[bos]] + Mapped(remap, ids) + [remap[eos]]
  {
  }

  lemma RemapCut(remap: map<nat, nat>, ids: seq<nat>, n: nat)
    requires n <= |ids| && forall i :: 0 <= i < |ids| ==> ids[i] in remap
    ensures Mapped(remap, ids[..n]) == Mapped(remap, ids)[..n]
  {
  }

  /** Word by word, so for any text whose words all keep their ids; the specials keep theirs. */
  lemma {:induction false} TextsLoseNothing(v: Vocab, t: Vocab, remap: map<nat, nat>, words: seq<string>, bos: nat, eos: nat)
    requires Wf(v) && Wf(t) && bos in remap && eos in remap && remap[bos] == bos && remap[eos] == eos
    requires forall i :: 0 <= i < |words| ==> SameIds(v, t, remap, [SPACE_MARK] + words[i])
    ensures forall i :: 0 <= i < |Encode(v, words, bos, eos)| ==> Encode(v, words, bos, eos)[i] in remap
    ensures Encode(t, words, bos, eos) == Mapped(remap, Encode(v, words, bos, eos))
  {
    hide Body, SameIds, Wf;
    BodiesLoseNothing(v, t, remap, words);
    var body := Body(v, words);
    var cut := if |body| > TOKENS - 2 then body[..TOKENS - 2] else body;
    RemapCut(remap, body, |cut|);
    RemapFramed(remap, cut, bos, eos);
  }

  lemma {:induction false} BodiesLoseNothing(v: Vocab, t: Vocab, remap: map<nat, nat>, words: seq<string>)
    requires Wf(v) && Wf(t) && forall i :: 0 <= i < |words| ==> SameIds(v, t, remap, [SPACE_MARK] + words[i])
    ensures forall i :: 0 <= i < |Body(v, words)| ==> Body(v, words)[i] in remap
    ensures Body(t, words) == Mapped(remap, Body(v, words))
  {
    hide Word;
    if words != [] {
      BodiesLoseNothing(v, t, remap, words[..|words| - 1]);
      assert SameIds(v, t, remap, [SPACE_MARK] + words[|words| - 1]);
    }
  }

  // ---------------------------------------------------------------- a text the trim changes

  const FOREIGN: string := "\U{4E2D}"

  const EXAMPLE: Pieces := [("<unk>", 0.0), ("xy", -30.0), ("z", -30.0), ("yz", -1.0)]

  /** The word `xyz` as the search sees it. */
  const MARKED: string := [SPACE_MARK, 'x', 'y', 'z']

  const EXAMPLE_IDS: map<string, nat> := map["<unk>" := 0, "xy" := 1, "z" := 2, "yz" := 3]

  /** Its vocabulary, perhaps with the piece of another script. */
  ghost predicate Example(v: Vocab) {
    && Wf(v) && v.unk == 0
    && (forall piece :: piece in EXAMPLE_IDS ==> piece in v.ids && v.ids[piece] == EXAMPLE_IDS[piece])
    && (forall piece :: piece in v.ids ==> piece in EXAMPLE_IDS || piece == FOREIGN)
    && |v.scores| >= 4 && v.scores[..4] == [0.0, -30.0, -30.0, -1.0]
  }

  /** The pieces that end at each place of the marked word. */
  lemma ExampleEdges(v: Vocab, n: nat, start: nat, known: bool)
    requires Example(v) && n <= 4 && EdgeOk(v, MARKED[..n], start, known)
    ensures if known then (n == 3 && start == 1) || (n == 4 && (start == 2 || start == 3)) else start == n - 1
  {
    var text := MARKED[..n][start..];
    assert |text| == n - start && text[0] == MARKED[start];
    if known {
      assert text != FOREIGN;
      assert text in {"<unk>", "xy", "z", "yz"};
      assert text[0] in {'<', 'x', 'z', 'y'};
    }
  }

  lemma ExampleSlices()
    ensures MARKED[..3][1..] == "xy" && MARKED[..4][2..] == "yz" && MARKED[..4][3..] == "z"
    ensures MARKED[..1][0..] == [SPACE_MARK] && MARKED[..2][1..] == "x" && MARKED[..4] == MARKED
    ensures MARKED[..1][..0] == [] && MARKED[..2][..1] == MARKED[..1] && MARKED[..3][..1] == MARKED[..1]
    ensures MARKED[..3][..2] == MARKED[..2] && MARKED[..4][..2] == MARKED[..2] && MARKED[..4][..3] == MARKED[..3]
  {
  }

  /** Up to `y` the floor does not matter: two unknowns, or one and the piece `xy`. */
  lemma {:induction false} ExamplePrefixes(v: Vocab)
    requires Example(v) && v.floor < -15.0
    ensures Best(v, MARKED[..1]) == Cell(v.floor, 0, false) && Best(v, MARKED[..2]) == Cell(2.0 * v.floor, 1, false)
    ensures Best(v, MARKED[..3]) == Cell(v.floor - 30.0, 1, true)
  {
    hide Best, Scan;
    ExampleSlices();
    EmptyScores(v);
    for n := 1 to 4
      invariant n > 1 ==> Best(v, MARKED[..1]) == Cell(v.floor, 0, false)
      invariant n > 2 ==> Best(v, MARKED[..2]) == Cell(2.0 * v.floor, 1, false)
      invariant n > 3 ==> Best(v, MARKED[..3]) == Cell(v.floor - 30.0, 1, true)
    {
      var cell := Best(v, MARKED[..n]);
      BestIsChosen(v, MARKED[..n]);
      ExampleEdges(v, n, cell.start, cell.known);
      assert EdgeOk(v, MARKED[..n], n - 1, false);
      assert n == 3 ==> EdgeOk(v, MARKED[..n], 1, true);
    }
  }

  /** What the three ways to end the word score. */
  lemma {:induction false} LastEdges(v: Vocab)
    requires Example(v) && v.floor < -15.0
    ensures EdgeOk(v, MARKED[..4], 2, true) && Edge(v, MARKED[..4], 2, true) == 2.0 * v.floor - 1.0
    ensures EdgeOk(v, MARKED[..4], 3, true) && Edge(v, MARKED[..4], 3, true) == v.floor - 60.0
    ensures EdgeOk(v, MARKED[..4], 3, false) && Edge(v, MARKED[..4], 3, false) == 2.0 * v.floor - 30.0
  {
    hide Best, Scan;
    ExampleSlices();
    ExamplePrefixes(v);
  }

  /** At `z` it decides: with a high floor two unknowns and `yz`, with a low one a single unknown, `xy` and `z`. */
  lemma {:induction false} ExampleCell(v: Vocab)
    requires Example(v) && (v.floor == -40.0 || v.floor == -110.0)
    ensures Best(v, MARKED[..4]).known && Best(v, MARKED[..4]).start == if v.floor == -40.0 then 2 else 3
  {
    hide Best, Scan, Edge, EdgeOk;
    var cell := Best(v, MARKED[..4]);
    BestIsChosen(v, MARKED[..4]);
    ExampleEdges(v, 4, cell.start, cell.known);
    LastEdges(v);
  }

  lemma {:induction false} ExampleParts(v: Vocab)
    requires Example(v) && (v.floor == -40.0 || v.floor == -110.0)
    ensures Parts(v, MARKED) ==
            if v.floor == -40.0 then [Part([SPACE_MARK], false), Part("x", false), Part("yz", true)]
            else [Part([SPACE_MARK], false), Part("xy", true), Part("z", true)]
  {
    hide Best, Scan;
    ExampleSlices();
    ExamplePrefixes(v);
    ExampleCell(v);
    assert Parts(v, MARKED[..1]) == [Part([SPACE_MARK], false)];
    assert Parts(v, MARKED[..2]) == [Part([SPACE_MARK], false), Part("x", false)];
    assert Parts(v, MARKED[..3]) == [Part([SPACE_MARK], false), Part("xy", true)];
  }

  lemma FuseMore(ids: seq<nat>, id: nat)
    ensures var front := Fuse(0, ids);
      Fuse(0, ids + [id]) == if id == 0 && front != [] && front[|front| - 1] == 0 then front else front + [id]
  {
    assert (ids + [id])[..|ids|] == ids;
  }

  lemma FusedThree(b: nat, c: nat)
    requires c != 0
    ensures Fuse(0, [0, b, c]) == if b == 0 then [0, c] else [0, b, c]
  {
    hide Fuse;
    FuseNone();
    FuseMore([], 0);
    FuseMore([0], b);
    FuseMore([0, b], c);
    assert [] + [0] == [0] && [0] + [b] == [0, b] && [0, b] + [c] == [0, b, c];
  }

  lemma FuseNone()
    ensures Fuse(0, []) == []
  {
  }

  lemma PartIdsMore(v: Vocab, parts: seq<Part>, last: Part)
    requires PartOk(v, last) && forall i :: 0 <= i < |parts| ==> PartOk(v, parts[i])
    ensures PartIds(v, parts + [last]) == PartIds(v, parts) + [Id(v, last)] && PartIds(v, []) == []
  {
    assert (parts + [last])[..|parts|] == parts;
  }

  lemma PartIdsOfThree(v: Vocab, a: Part, b: Part, c: Part)
    requires PartOk(v, a) && PartOk(v, b) && PartOk(v, c)
    ensures PartIds(v, [a, b, c]) == [Id(v, a), Id(v, b), Id(v, c)]
  {
    hide PartIds, PartOk;
    PartIdsMore(v, [], a);
    PartIdsMore(v, [a], b);
    PartIdsMore(v, [a, b], c);
    assert [] + [a] == [a] && [a] + [b] == [a, b] && [a, b] + [c] == [a, b, c];
  }

  /** The ids of the whole text: its cut, with the two unknowns fused. */
  lemma {:induction false} ExampleBody(v: Vocab)
    requires Example(v) && (v.floor == -40.0 || v.floor == -110.0)
    ensures Body(v, ["xyz"]) == if v.floor == -40.0 then [0, 3] else [0, 1, 2]
  {
    hide Parts, PartIds, Fuse, Concat;
    assert [SPACE_MARK] + "xyz" == MARKED && ["xyz"][..0] == [];
    ExampleParts(v);
    PartsSplit(v, MARKED);
    var parts := Parts(v, MARKED);
    PartIdsOfThree(v, parts[0], parts[1], parts[2]);
    FusedThree(Id(v, parts[1]), Id(v, parts[2]));
  }

  lemma {:induction false} ExampleNames(names: seq<string>)
    requires names == ["<unk>", "xy", "z", "yz"] || names == ["<unk>", "xy", "z", "yz", FOREIGN]
    ensures forall piece :: piece in EXAMPLE_IDS ==> piece in Places(names) && Places(names)[piece] == EXAMPLE_IDS[piece]
    ensures forall piece :: piece in Places(names) ==> piece in EXAMPLE_IDS || piece == FOREIGN
  {
    assert names[0] == "<unk>" && names[1] == "xy" && names[2] == "z" && names[3] == "yz";
    PlacesHold(names);
    DistinctPlaces(names);
  }

  lemma ExampleLowest()
    ensures Lowest(EXAMPLE) == -30.0
  {
    var three, two, one := EXAMPLE[..3], EXAMPLE[..2], EXAMPLE[..1];
    assert three[..2] == two && two[..1] == one;
    assert Lowest(one) == 0.0;
    assert Lowest(two) == -30.0;
    assert Lowest(three) == -30.0;
  }

  lemma ExampleIds()
    ensures forall piece :: piece in EXAMPLE_IDS ==> piece in IdsOf(EXAMPLE) && IdsOf(EXAMPLE)[piece] == EXAMPLE_IDS[piece]
    ensures forall piece :: piece in IdsOf(EXAMPLE) ==> piece in EXAMPLE_IDS || piece == FOREIGN
  {
    hide Names, Places;
    assert Names(EXAMPLE) == ["<unk>", "xy", "z", "yz"];
    ExampleNames(Names(EXAMPLE));
  }

  lemma ExampleVocabulary()
    ensures Example(New(EXAMPLE, 0)) && New(EXAMPLE, 0).floor == -40.0
  {
    hide Lowest, Longest, Wf, IdsOf;
    NewIsWf(EXAMPLE, 0);
    ExampleLowest();
    ExampleIds();
  }

  /** The same vocabulary with a rare piece of another script, which costs more than any other. */
  const FULL_EXAMPLE: Pieces := EXAMPLE + [(FOREIGN, -100.0)]

  lemma FullExampleVocabulary()
    ensures Example(New(FULL_EXAMPLE, 0)) && New(FULL_EXAMPLE, 0).floor == -110.0
  {
    hide Lowest, IdsOf, Longest, Wf;
    ExampleLowest();
    DroppedLowest(EXAMPLE, -110.0);
    assert WithDropped(EXAMPLE, -110.0) == FULL_EXAMPLE;
    FullExampleIds();
    FullExampleScores();
    NewIsWf(FULL_EXAMPLE, 0);
  }

  lemma FullExampleScores()
    ensures var scores := New(FULL_EXAMPLE, 0).scores; |scores| == 5 && scores[..4] == [0.0, -30.0, -30.0, -1.0]
  {
    hide Lowest, IdsOf, Longest;
    var scores := New(FULL_EXAMPLE, 0).scores;
    assert forall i :: 0 <= i < 4 ==> FULL_EXAMPLE[i] == EXAMPLE[i] && scores[i] == EXAMPLE[i].1;
  }

  lemma FullExampleIds()
    ensures forall piece :: piece in EXAMPLE_IDS ==>
              piece in IdsOf(FULL_EXAMPLE) && IdsOf(FULL_EXAMPLE)[piece] == EXAMPLE_IDS[piece]
    ensures forall piece :: piece in IdsOf(FULL_EXAMPLE) ==> piece in EXAMPLE_IDS || piece == FOREIGN
  {
    hide Names, Places;
    assert Names(FULL_EXAMPLE) == ["<unk>", "xy", "z", "yz", FOREIGN];
    ExampleNames(Names(FULL_EXAMPLE));
  }

  lemma KeptLetter(c: char)
    requires c == 'x' || c == 'y' || c == 'z'
    ensures KeptChar(c)
  {
    assert KEEP_RANGES[0] == (0x0021, 0x007E);
  }

  lemma ExampleIsKept()
    ensures Keeps(MARKED) && forall i: nat :: i < |EXAMPLE| ==> Survives(EXAMPLE, {0}, false, i)
  {
    hide KeptChar;
    KeptLetter('x');
    KeptLetter('y');
    KeptLetter('z');
    KeptMark();
    forall i: nat | i < |EXAMPLE| ensures Survives(EXAMPLE, {0}, false, i) {
      assert i == 0 || EXAMPLE[i].0 in {"xy", "z", "yz"};
    }
  }

  lemma KeptMark()
    ensures KeptChar(SPACE_MARK)
  {
  }

  /**
   A text entirely in the kept scripts, whose full ids all survive, is not enough: `x` is kept but no piece of its own,
   and dropping the rare piece of another script makes it cheap enough to be taken as unknown. The text is given other
   ids.
   */
  lemma {:induction false} KeptScriptsAreNotEnough()
    ensures var (kept, remap) := Trim(FULL_EXAMPLE, {0}, false); var v, t := New(FULL_EXAMPLE, 0), New(EXAMPLE, 0);
      && kept == EXAMPLE && Keeps(MARKED) && Wf(v) && Wf(t)
      && (forall id: nat :: id < 4 ==> id in remap && remap[id] == id)
      && Body(v, ["xyz"]) == [0, 1, 2] && Body(t, ["xyz"]) == [0, 3]
  {
    hide Keeps, Trim, Body, IdsOf, Longest, Lowest, Survives;
    ExampleIsKept();
    ExampleVocabulary();
    FullExampleVocabulary();
    ExampleBody(New(EXAMPLE, 0));
    ExampleBody(New(FULL_EXAMPLE, 0));
    assert WithDropped(EXAMPLE, -110.0) == FULL_EXAMPLE;
    DroppedIsDropped(EXAMPLE, -110.0, {0});
  }
}
