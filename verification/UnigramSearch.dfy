/**
 The search of tools/export_intent.py as it is written: two arrays filled from left to right, a walk back from the end,
 a reversal, and the fusing of adjacent unknowns.
 */
module UnigramSearch {
  import opened Options
  import opened Scripts
  import opened Unigram

  /** `back`: where the last part starts, and its id unless it is an unknown character. */
  datatype Back = Back(start: nat, id: Option<nat>)

  ghost predicate Filled(v: Vocab, word: string, end: nat, best: Option<real>, back: Back)
    requires Wf(v) && end <= |word|
  {
    var cell := Best(v, word[..end]);
    && best == Some(cell.score)
    && (end > 0 ==> back == Shown(v, word[..end], cell))
  }

  function Shown(v: Vocab, prefix: string, cell: Cell): Back
    requires cell.known ==> cell.start <= |prefix| && prefix[cell.start..] in v.ids
  {
    Back(cell.start, if cell.known then Some(v.ids[prefix[cell.start..]]) else None)
  }

  ghost predicate Scanned(v: Vocab, prefix: string, upto: nat, best: Option<real>, back: Back)
    requires Wf(v) && upto <= |prefix|
  {
    match Scan(v, prefix, upto)
    case None => best == None
    case Some(cell) => best == Some(cell.score) && back == Shown(v, prefix, cell)
  }

  /** A start further back than the longest piece finds nothing. */
  lemma {:induction false} FarStartsFindNothing(v: Vocab, prefix: string, upto: nat)
    requires Wf(v) && upto + v.longest <= |prefix|
    ensures Scan(v, prefix, upto) == None
  {
    hide Best;
    if upto > 0 {
      FarStartsFindNothing(v, prefix, upto - 1);
    }
  }

  /** One start of the inner loop. */
  method TryStart(v: Vocab, word: string, end: nat, start: nat, best: array<Option<real>>, back: array<Back>)
    requires Wf(v) && start < end <= |word| && best.Length == back.Length == |word| + 1
    requires Filled(v, word, start, best[start], back[start])
    requires Scanned(v, word[..end], start, best[end], back[end])
    modifies best, back
    ensures Scanned(v, word[..end], start + 1, best[end], back[end])
    ensures forall i :: 0 <= i <= |word| && i != end ==> best[i] == old(best[i]) && back[i] == old(back[i])
  {
    hide Best;
    assert word[..end][..start] == word[..start];
    assert word[..end][start..] == word[start..end];
    if best[start].Some? {
      var piece := word[start..end];
      if piece in v.ids {
        var score := best[start].value + v.scores[v.ids[piece]];
        if best[end].None? || score > best[end].value {
          best[end], back[end] := Some(score), Back(start, Some(v.ids[piece]));
        }
      }
    }
  }

  /** One end of the outer loop: every start in reach, then the unknown edge. */
  method FillEnd(v: Vocab, word: string, end: nat, best: array<Option<real>>, back: array<Back>)
    requires Wf(v) && 0 < end <= |word| && best.Length == back.Length == |word| + 1
    requires forall i :: 0 <= i < end ==> Filled(v, word, i, best[i], back[i])
    requires best[end] == None
    modifies best, back
    ensures Filled(v, word, end, best[end], back[end])
    ensures forall i :: 0 <= i <= |word| && i != end ==> best[i] == old(best[i]) && back[i] == old(back[i])
  {
    hide Filled, Scan, Scanned, Best;
    var start := if end > v.longest then end - v.longest else 0;
    StartsScanned(v, word, end, start, back[end]);
    while start < end
      invariant start <= end
      invariant Scanned(v, word[..end], start, best[end], back[end])
      invariant forall i :: 0 <= i <= |word| && i != end ==> best[i] == old(best[i]) && back[i] == old(back[i])
    {
      assert Filled(v, word, start, best[start], back[start]);
      TryStart(v, word, end, start, best, back);
      start := start + 1;
    }
    FilledBefore(v, word, end - 1, best[end - 1], back[end - 1]);
    ghost var piece, was := best[end], back[end];
    if best[end - 1].Some? && (best[end].None? || best[end - 1].value + v.floor > best[end].value) {
      best[end], back[end] := Some(best[end - 1].value + v.floor), Back(end - 1, None);
    }
    EndFilled(v, word, end, piece, was, best[end], back[end]);
  }

  lemma StartsScanned(v: Vocab, word: string, end: nat, start: nat, back: Back)
    requires Wf(v) && 0 < end <= |word| && start == if end > v.longest then end - v.longest else 0
    ensures Scanned(v, word[..end], start, None, back)
  {
    if end > v.longest {
      FarStartsFindNothing(v, word[..end], start);
    }
  }

  lemma FilledBefore(v: Vocab, word: string, end: nat, best: Option<real>, back: Back)
    requires Wf(v) && end <= |word| && Filled(v, word, end, best, back)
    ensures best == Some(Best(v, word[..end]).score)
  {
  }

  lemma EndFilled(v: Vocab, word: string, end: nat, piece: Option<real>, was: Back, best: Option<real>, back: Back)
    requires Wf(v) && 0 < end <= |word| && Scanned(v, word[..end], end, piece, was)
    requires
      var unknown := Best(v, word[..end - 1]).score + v.floor;
      if piece.None? || unknown > piece.value then best == Some(unknown) && back == Back(end - 1, None)
      else best == piece && back == was
    ensures Filled(v, word, end, best, back)
  {
    hide Scan;
    assert word[..end][..end - 1] == word[..end - 1];
  }

  function Reversed(ids: seq<nat>): seq<nat> {
    if ids == [] then [] else Reversed(ids[1..]) + [ids[0]]
  }

  lemma {:induction false} ReversedAdds(ids: seq<nat>, id: nat)
    ensures Reversed(ids + [id]) == [id] + Reversed(ids)
  {
    if ids != [] {
      ReversedAdds(ids[1..], id);
      assert (ids + [id])[1..] == ids[1..] + [id];
    }
  }

  /** One word to ids: the best split's ids, with each run of unknowns made one. */
  method FindWord(v: Vocab, word: string) returns (ids: seq<nat>)
    requires Wf(v)
    ensures ids == Word(v, word)
  {
    var n := |word|;
    var best := new Option<real>[n + 1](_ => None);
    best[0] := Some(0.0);
    var back := new Back[n + 1](_ => Back(0, None));
    hide Best, Scan, Parts, PartIds, Fuse;
    NothingFilled(v, word, back[0]);
    for end := 1 to n + 1
      invariant forall i :: 0 <= i < end ==> Filled(v, word, i, best[i], back[i])
      invariant forall i :: end <= i <= n ==> best[i] == None
    {
      FillEnd(v, word, end, best, back);
    }
    var out := WalkBack(v, word, back, best);
    ids := FuseRuns(v.unk, Reversed(out));
    PartsSplit(v, word);
  }

  lemma NothingFilled(v: Vocab, word: string, back: Back)
    requires Wf(v)
    ensures Filled(v, word, 0, Some(0.0), back)
  {
  }

  ghost function Known(v: Vocab, word: string): seq<nat>
    requires Wf(v)
  {
    PartsSplit(v, word);
    PartIds(v, Parts(v, word))
  }

  method WalkBack(v: Vocab, word: string, back: array<Back>, ghost best: array<Option<real>>) returns (out: seq<nat>)
    requires Wf(v) && back.Length == best.Length == |word| + 1
    requires forall i :: 0 <= i <= |word| ==> Filled(v, word, i, best[i], back[i])
    ensures Reversed(out) == Known(v, word)
  {
    hide Best, Scan, Known, Filled;
    out := [];
    var end: nat := |word|;
    assert word[..end] == word;
    assert Known(v, word) == Known(v, word[..end]) + Reversed(out);
    while end > 0
      invariant end <= |word|
      invariant Known(v, word) == Known(v, word[..end]) + Reversed(out)
      decreases end
    {
      assert Filled(v, word, end, best[end], back[end]);
      KnownStep(v, word, end, best[end], back[end]);
      var id := if back[end].id.None? then v.unk else back[end].id.value;
      ReversedAdds(out, id);
      out := out + [id];
      end := back[end].start;
    }
    NothingKnown(v, word);
  }

  lemma NothingKnown(v: Vocab, word: string)
    requires Wf(v)
    ensures Known(v, word[..0]) == []
  {
  }

  lemma KnownStep(v: Vocab, word: string, end: nat, best: Option<real>, back: Back)
    requires Wf(v) && 0 < end <= |word| && Filled(v, word, end, best, back)
    ensures back.start < end
    ensures Known(v, word[..end]) == Known(v, word[..back.start]) + [if back.id.None? then v.unk else back.id.value]
  {
    hide Scan, Best;
    var prefix := word[..end];
    var cell := Best(v, prefix);
    assert prefix[..cell.start] == word[..back.start];
    PartsSplit(v, prefix);
    PartsSplit(v, prefix[..cell.start]);
    var parts := Parts(v, prefix);
    assert parts[..|parts| - 1] == Parts(v, prefix[..cell.start]);
  }

  method FuseRuns(unk: nat, ids: seq<nat>) returns (fused: seq<nat>)
    ensures fused == Fuse(unk, ids)
  {
    fused := [];
    for i := 0 to |ids|
      invariant fused == Fuse(unk, ids[..i])
    {
      assert ids[..i + 1][..i] == ids[..i];
      if ids[i] == unk && fused != [] && fused[|fused| - 1] == unk {
        continue;
      }
      fused := fused + [ids[i]];
    }
    assert ids[..|ids|] == ids;
  }

  /** Fusing keeps every other id in order and leaves no two unknowns side by side. */
  lemma {:induction false} FuseMeans(unk: nat, ids: seq<nat>)
    ensures Without(unk, Fuse(unk, ids)) == Without(unk, ids)
    ensures forall i :: 0 < i < |Fuse(unk, ids)| ==> Fuse(unk, ids)[i] != unk || Fuse(unk, ids)[i - 1] != unk
    ensures unk in Fuse(unk, ids) <==> unk in ids
  {
    if ids != [] {
      var front := Fuse(unk, ids[..|ids| - 1]);
      FuseMeans(unk, ids[..|ids| - 1]);
      assert ids == ids[..|ids| - 1] + [ids[|ids| - 1]];
      assert (front + [ids[|ids| - 1]])[..|front|] == front;
    }
  }

  /** Two unknowns side by side count as one, and without such two nothing changes. */
  lemma {:induction false} FuseIsExact(unk: nat, a: seq<nat>, b: seq<nat>)
    ensures Fuse(unk, a + [unk, unk] + b) == Fuse(unk, a + [unk] + b)
    ensures (forall i :: 0 < i < |a| ==> a[i - 1] != unk || a[i] != unk) ==> Fuse(unk, a) == a
  {
    FuseRepeats(unk, a, b);
    if forall i :: 0 < i < |a| ==> a[i - 1] != unk || a[i] != unk {
      FuseKeeps(unk, a);
    }
  }

  lemma {:induction false} FuseRepeats(unk: nat, a: seq<nat>, b: seq<nat>)
    ensures Fuse(unk, a + [unk, unk] + b) == Fuse(unk, a + [unk] + b)
  {
    if b == [] {
      assert (a + [unk, unk] + b)[..|a| + 1] == a + [unk] && (a + [unk])[..|a|] == a;
      assert a + [unk] + b == a + [unk];
    } else {
      var n := |b| - 1;
      FuseRepeats(unk, a, b[..n]);
      assert (a + [unk, unk] + b)[..|a| + 2 + n] == a + [unk, unk] + b[..n];
      assert (a + [unk] + b)[..|a| + 1 + n] == a + [unk] + b[..n];
    }
  }

  lemma {:induction false} FuseKeeps(unk: nat, a: seq<nat>)
    requires forall i :: 0 < i < |a| ==> a[i - 1] != unk || a[i] != unk
    ensures Fuse(unk, a) == a
  {
    if a != [] {
      FuseKeeps(unk, a[..|a| - 1]);
      assert |a| > 1 ==> a[|a| - 2] != unk || a[|a| - 1] != unk;
    }
  }

  function Without(unk: nat, ids: seq<nat>): seq<nat> {
    if ids == [] then []
    else Without(unk, ids[..|ids| - 1]) + if ids[|ids| - 1] == unk then [] else [ids[|ids| - 1]]
  }

  // ---------------------------------------------------------------- a whole text

  /** The ids of a normalised text's words, each with the mark of a word in front. */
  function Body(v: Vocab, words: seq<string>): seq<nat>
    requires Wf(v)
  {
    if words == [] then []
    else Body(v, words[..|words| - 1]) + Word(v, [SPACE_MARK] + words[|words| - 1])
  }

  /** Each word is cut on its own, behind the mark of a space. */
  lemma {:induction false} BodyIsWordByWord(v: Vocab, a: seq<string>, b: seq<string>, word: string)
    requires Wf(v)
    ensures Body(v, []) == [] && Body(v, [word]) == Word(v, "\U{2581}" + word)
    ensures Body(v, a + b) == Body(v, a) + Body(v, b)
  {
    hide Word;
    assert [word][..0] == [];
    if b == [] {
      assert a + b == a;
    } else {
      BodyIsWordByWord(v, a, b[..|b| - 1], word);
      assert (a + b)[..|a + b| - 1] == a + b[..|b| - 1];
    }
  }

  method FindBody(v: Vocab, words: seq<string>) returns (out: seq<nat>)
    requires Wf(v)
    ensures out == Body(v, words)
  {
    out := [];
    for i := 0 to |words|
      invariant out == Body(v, words[..i])
    {
      var ids := FindWord(v, [SPACE_MARK] + words[i]);
      out := out + ids;
      assert words[..i + 1][..i] == words[..i];
    }
    assert words[..|words|] == words;
  }

  function Encode(v: Vocab, words: seq<string>, bos: nat, eos: nat): (ids: seq<nat>)
    requires Wf(v)
    ensures 2 <= |ids| <= 128 && ids[0] == bos && ids[|ids| - 1] == eos
    ensures ids[1..|ids| - 1] <= Body(v, words)
    ensures |ids| == 128 || ids[1..|ids| - 1] == Body(v, words)
  {
    var body := Body(v, words);
    var ids := if |body| > TOKENS - 2 then body[..TOKENS - 2] else body;
    [bos] + ids + [eos]
  }
}
