/**
 The prefix index beside the settings cache: for every chat and each of the indexed prefixes, the rest of every cached
 key that starts with it, each exactly once.
 */
module SettingsIndex {
  import opened Options
  import opened Sequences
  import opened SettingsTable

  const INDEXED: seq<string> := ["filter:", "pack:", "answer:", "strict:", "imgf:", "cmd:"]

  /** One list of key remainders per indexed prefix. */
  type ChatIndex = seq<seq<string>>
  type Index = map<int, ChatIndex>

  predicate StartsWith(s: string, prefix: string) {
    |prefix| <= |s| && s[..|prefix|] == prefix
  }

  /** The first indexed prefix a key starts with, searched from prefix number `from`. */
  function SlotFrom(key: string, from: nat): Option<(nat, string)>
    decreases |INDEXED| - from
  {
    if from >= |INDEXED| then None
    else if StartsWith(key, INDEXED[from]) then Some((from, key[|INDEXED[from]|..]))
    else SlotFrom(key, from + 1)
  }

  function Slot(key: string): Option<(nat, string)> {
    SlotFrom(key, 0)
  }

  /** The search finds the first prefix it can, and the rest of the key after it. */
  lemma {:induction false} SlotFromFinds(key: string, from: nat)
    requires from <= |INDEXED|
    ensures var slot := SlotFrom(key, from);
      && (slot.Some? ==> from <= slot.value.0 < |INDEXED|)
      && (slot.Some? ==> StartsWith(key, INDEXED[slot.value.0]) && key == INDEXED[slot.value.0] + slot.value.1)
      && (forall i :: from <= i < |INDEXED| && StartsWith(key, INDEXED[i]) ==> slot.Some? && slot.value.0 <= i)
    decreases |INDEXED| - from
  {
    if from < |INDEXED| && !StartsWith(key, INDEXED[from]) {
      SlotFromFinds(key, from + 1);
    }
  }

  /** The indexed prefixes begin with different letters. */
  lemma FirstLettersDiffer(i: nat, j: nat)
    requires i < j < |INDEXED|
    ensures INDEXED[i] != [] && INDEXED[j] != [] && INDEXED[i][0] != INDEXED[j][0]
  {
    assert INDEXED[0][0] == 'f' && INDEXED[1][0] == 'p' && INDEXED[2][0] == 'a';
    assert INDEXED[3][0] == 's' && INDEXED[4][0] == 'i' && INDEXED[5][0] == 'c';
  }

  lemma StartsWithFirst(key: string, prefix: string)
    requires StartsWith(key, prefix) && prefix != []
    ensures key != [] && key[0] == prefix[0]
  {
    assert key[..|prefix|][0] == key[0];
  }

  /** No key starts with two indexed prefixes, so the slot of a key is the only one it can have. */
  lemma SlotIsUnique(key: string, slot: nat)
    requires slot < |INDEXED|
    ensures StartsWith(key, INDEXED[slot]) <==> Slot(key).Some? && Slot(key).value.0 == slot
    ensures Slot(key).Some? ==> Slot(key).value.0 < |INDEXED|
    ensures Slot(key).Some? && Slot(key).value.0 == slot ==> key == INDEXED[slot] + Slot(key).value.1
  {
    hide StartsWith, SlotFrom;
    SlotFromFinds(key, 0);
    if StartsWith(key, INDEXED[slot]) {
      var first := Slot(key).value.0;
      if first < slot {
        FirstLettersDiffer(first, slot);
        StartsWithFirst(key, INDEXED[first]);
        StartsWithFirst(key, INDEXED[slot]);
      }
    }
  }

  /** The list holds exactly what follows `prefix` in the keys of the rows, each once. */
  ghost predicate Lists(list: seq<string>, prefix: string, rows: map<string, string>) {
    Distinct(list) && forall rest :: rest in list <==> prefix + rest in rows
  }

  function ListOf(index: Index, chat: int, slot: nat): seq<string> {
    if chat in index && slot < |index[chat]| then index[chat][slot] else []
  }

  predicate AllEmpty(entry: ChatIndex) {
    forall slot :: 0 <= slot < |entry| ==> entry[slot] == []
  }

  ghost predicate IndexAgrees(index: Index, t: Table) {
    && (forall chat :: chat in index ==> |index[chat]| == |INDEXED| && !AllEmpty(index[chat]))
    && (forall chat, slot :: 0 <= slot < |INDEXED| ==> Lists(ListOf(index, chat, slot), INDEXED[slot], RowsOf(t, chat)))
  }

  function Position(list: seq<string>, rest: string): Option<nat> {
    if list == [] then None
    else if list[0] == rest then Some(0)
    else match Position(list[1..], rest)
         case None => None
         case Some(at) => Some(at + 1)
  }

  lemma {:induction false} PositionMeaning(list: seq<string>, rest: string)
    ensures rest in list <==> Position(list, rest).Some?
    ensures Position(list, rest).Some? ==>
              Position(list, rest).value < |list| && list[Position(list, rest).value] == rest
  {
    if list != [] {
      PositionMeaning(list[1..], rest);
    }
  }

  function SwapRemove(list: seq<string>, at: nat): seq<string>
    requires at < |list|
  {
    list[at := list[|list| - 1]][..|list| - 1]
  }

  function Toggle(list: seq<string>, rest: string, present: bool): seq<string> {
    PositionMeaning(list, rest);
    match Position(list, rest)
    case None => if present then list + [rest] else list
    case Some(at) => if present then list else SwapRemove(list, at)
  }

  const NO_ENTRIES: ChatIndex := [[], [], [], [], [], []]

  function Reindex(index: Index, chat: int, key: string, present: bool): Index {
    match Slot(key)
    case None => index
    case Some((slot, rest)) =>
      var entry := if chat in index then index[chat] else NO_ENTRIES;
      if slot >= |entry| then index
      else
        var after := entry[slot := Toggle(entry[slot], rest, present)];
        if AllEmpty(after) then index - {chat} else index[chat := after]
  }

  // ---------------------------------------------------------------- the index follows the rows

  lemma SwapRemoveMeaning(list: seq<string>, at: nat)
    requires Distinct(list) && at < |list|
    ensures Distinct(SwapRemove(list, at))
    ensures forall rest :: rest in SwapRemove(list, at) <==> rest in list && rest != list[at]
  {
    var after, last := SwapRemove(list, at), |list| - 1;
    forall rest ensures rest in after <==> rest in list && rest != list[at] {
      if rest in list && rest != list[at] {
        var i :| 0 <= i < |list| && list[i] == rest;
        assert after[if i == last then at else i] == rest;
      }
    }
  }

  lemma ToggleLists(list: seq<string>, prefix: string, rows: map<string, string>, rest: string, next: Option<string>)
    requires Lists(list, prefix, rows)
    ensures Lists(Toggle(list, rest, next.Some?), prefix, SetRow(rows, prefix + rest, next))
  {
    PositionMeaning(list, rest);
    if Position(list, rest).Some? {
      SwapRemoveMeaning(list, Position(list, rest).value);
    }
    var after := Toggle(list, rest, next.Some?);
    forall r ensures r in after <==> prefix + r in SetRow(rows, prefix + rest, next) {
      SamePrefixSameRest(prefix, r, rest);
      assert r in list <==> prefix + r in rows;
      assert r in after <==> if r == rest then next.Some? else r in list;
    }
  }

  lemma SamePrefixSameRest(prefix: string, a: string, b: string)
    ensures prefix + a == prefix + b <==> a == b
  {
    assert (prefix + a)[|prefix|..] == a && (prefix + b)[|prefix|..] == b;
  }

  lemma OtherPrefixLists(list: seq<string>, prefix: string, rows: map<string, string>, key: string, next: Option<string>)
    requires Lists(list, prefix, rows) && !StartsWith(key, prefix)
    ensures Lists(list, prefix, SetRow(rows, key, next))
  {
    forall r ensures r in list <==> prefix + r in SetRow(rows, key, next) {
      assert r in list <==> prefix + r in rows;
      assert StartsWith(prefix + r, prefix);
    }
  }

  lemma ReindexLists(index: Index, t: Table, chat: int, key: string, next: Option<string>, slot: nat)
    requires IndexAgrees(index, t) && slot < |INDEXED|
    ensures Lists(ListOf(Reindex(index, chat, key, next.Some?), chat, slot), INDEXED[slot],
                  SetRow(RowsOf(t, chat), key, next))
  {
    SlotIsUnique(key, slot);
    var list := ListOf(index, chat, slot);
    var entry := if chat in index then index[chat] else NO_ENTRIES;
    assert list == entry[slot];
    if Slot(key).Some? && Slot(key).value.0 == slot {
      var rest := Slot(key).value.1;
      var after := entry[slot := Toggle(list, rest, next.Some?)];
      assert AllEmpty(after) ==> after[slot] == [];
      assert ListOf(Reindex(index, chat, key, next.Some?), chat, slot) == Toggle(list, rest, next.Some?);
      ToggleLists(list, INDEXED[slot], RowsOf(t, chat), rest, next);
    } else {
      if Slot(key).Some? {
        var other := Slot(key).value.0;
        SlotIsUnique(key, other);
        var after := entry[other := Toggle(entry[other], Slot(key).value.1, next.Some?)];
        assert AllEmpty(after) ==> after[slot] == [];
      }
      assert ListOf(Reindex(index, chat, key, next.Some?), chat, slot) == list;
      OtherPrefixLists(list, INDEXED[slot], RowsOf(t, chat), key, next);
    }
  }

  /** Reindexing one changed key keeps the index exact for the whole table. */
  lemma ReindexAgrees(index: Index, t: Table, chat: int, key: string, next: Option<string>)
    requires IndexAgrees(index, t)
    ensures IndexAgrees(Reindex(index, chat, key, next.Some?), t[chat := SetRow(RowsOf(t, chat), key, next)])
  {
    var after := Reindex(index, chat, key, next.Some?);
    var t' := t[chat := SetRow(RowsOf(t, chat), key, next)];
    forall c, slot | 0 <= slot < |INDEXED| ensures Lists(ListOf(after, c, slot), INDEXED[slot], RowsOf(t', c)) {
      if c == chat {
        ReindexLists(index, t, chat, key, next, slot);
      } else {
        assert ListOf(after, c, slot) == ListOf(index, c, slot);
        assert RowsOf(t', c) == RowsOf(t, c);
      }
    }
  }

  /** The index answers a prefix question exactly as a scan over the cached keys would. */
  lemma IndexedAnyIsScan(index: Index, t: Table, chat: int, slot: nat, test: string -> bool)
    requires IndexAgrees(index, t) && slot < |INDEXED|
    ensures (exists rest :: rest in ListOf(index, chat, slot) && test(rest)) <==>
            (exists key :: key in RowsOf(t, chat) && StartsWith(key, INDEXED[slot]) && test(key[|INDEXED[slot]|..]))
  {
    var list, prefix, rows := ListOf(index, chat, slot), INDEXED[slot], RowsOf(t, chat);
    if rest :| rest in list && test(rest) {
      assert prefix + rest in rows && (prefix + rest)[|prefix|..] == rest;
      assert StartsWith(prefix + rest, prefix);
    }
    if key :| key in rows && StartsWith(key, prefix) && test(key[|prefix|..]) {
      assert key == prefix + key[|prefix|..];
      assert key[|prefix|..] in list;
    }
  }
}
