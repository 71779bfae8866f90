/**
 What the settings writers promise, said of rows, keys and bytes alone: what a batch and a flag write leave in the table,
 how rows and bytes are counted, and exactly when a write is refused.
 */
module SettingsMeaning {
  import opened Options
  import opened SettingsTable
  import opened Utf8

  // ---------------------------------------------------------------- sizes

  /** A size is the number of bytes of the UTF-8 form of the key followed by the value. */
  lemma {:induction false} LengthIsBytes(s: string)
    ensures ByteLength(s) == |Encoded(s)|
  {
    hide Utf8.Bytes;
    if s != "" {
      var n := |s| - 1;
      LengthIsBytes(s[..n]);
      EncodedJoins(s[..n], [s[n]]);
      assert s[..n] + [s[n]] == s;
      assert [s[n]][1..] == "";
    }
  }

  lemma SizeIsBytes(key: string, value: string)
    ensures SettingSize(key, value) == |Encoded(key + value)|
  {
    LengthIsBytes(key);
    LengthIsBytes(value);
    EncodedJoins(key, value);
  }

  lemma NothingCounted()
    ensures RowCount(map[]) == 0 && ByteCount(map[]) == 0
  {
    assert Counts(map[]) == map[] && ByteCounts(map[]) == map[];
  }

  /** Both totals start at zero, and a new row adds one row and its bytes wherever it is put. */
  lemma TotalsAreExact(t: Table, chat: int, key: string, value: string)
    requires key !in RowsOf(t, chat)
    ensures RowCount(map[]) == 0 && ByteCount(map[]) == 0
    ensures RowCount(t[chat := RowsOf(t, chat)[key := value]]) == RowCount(t) + 1
    ensures ByteCount(t[chat := RowsOf(t, chat)[key := value]]) == ByteCount(t) + |Encoded(key + value)|
    ensures RowCount(t[chat := RowsOf(t, chat)]) == RowCount(t) && ByteCount(t[chat := RowsOf(t, chat)]) == ByteCount(t)
  {
    hide RowCount, ByteCount, SettingsTable.Bytes, RowsOf, SettingSize, Encoded;
    NothingCounted();
    SizeIsBytes(key, value);
    PutRowCounts(RowsOf(t, chat), key, value);
    SetChat(t, chat, RowsOf(t, chat)[key := value]);
    SetChat(t, chat, RowsOf(t, chat));
  }

  // ---------------------------------------------------------------- what a batch leaves

  predicate Same(before: map<string, string>, after: map<string, string>, key: string) {
    (key in after <==> key in before) && (key in before ==> after[key] == before[key])
  }

  /** What one mutation asks of the rows after a batch, given the rows before the batch. */
  predicate Granted(before: map<string, string>, after: map<string, string>, m: Mutation) {
    match m
    case Put(key, value) => key in after && after[key] == value
    case PutIfEmpty(key, value, conditionKey) =>
      if conditionKey !in before || before[conditionKey] == "" then key in after && after[key] == value
      else Same(before, after, key)
    case Delete(key) => key !in after
  }

  /** Every mutation has what it asks for, and no other key changed. */
  ghost predicate Done(before: map<string, string>, after: map<string, string>, batch: seq<Mutation>) {
    && (forall m :: m in batch ==> Granted(before, after, m))
    && (forall key :: (forall m :: m in batch ==> m.key != key) ==> Same(before, after, key))
  }

  lemma GrantedIsNext(before: map<string, string>, after: map<string, string>, m: Mutation)
    ensures Granted(before, after, m) <==> Lookup(after, m.key) == NextValue(before, m)
  {
  }

  lemma SameIsLookup(before: map<string, string>, after: map<string, string>, key: string)
    ensures Same(before, after, key) <==> Lookup(after, key) == Lookup(before, key)
  {
  }

  lemma TargetIsDone(before: map<string, string>, batch: seq<Mutation>)
    requires DistinctKeys(batch)
    ensures Done(before, Target(before, batch), batch)
  {
    hide Granted, Same, Lookup, NextValue, DistinctKeys, Target;
    var after := Target(before, batch);
    forall m | m in batch ensures Granted(before, after, m) {
      TargetMeaning(before, batch, m.key);
      GrantedIsNext(before, after, m);
    }
    forall key | forall m :: m in batch ==> m.key != key ensures Same(before, after, key) {
      TargetMeaning(before, batch, key);
      SameIsLookup(before, after, key);
    }
  }

  /** The rows a batch of distinct keys leads to are those in which it is done, and no others. */
  lemma {:induction false} BatchGrantsAll(before: map<string, string>, batch: seq<Mutation>, after: map<string, string>)
    requires DistinctKeys(batch)
    ensures after == Target(before, batch) <==> Done(before, after, batch)
  {
    hide Granted, Same, Lookup, NextValue, DistinctKeys, Target;
    TargetIsDone(before, batch);
    var target := Target(before, batch);
    if Done(before, after, batch) {
      forall key ensures Lookup(after, key) == Lookup(target, key) {
        if m :| m in batch && m.key == key {
          GrantedIsNext(before, after, m);
          GrantedIsNext(before, target, m);
        } else {
          SameIsLookup(before, after, key);
          SameIsLookup(before, target, key);
        }
      }
      SameLookups(after, target);
    }
  }

  // ---------------------------------------------------------------- when a batch is refused

  /** A mutation that breaks no rule by itself. */
  predicate Sound(rules: Rules, m: Mutation) {
    && |Encoded(m.key)| <= 512
    && (!m.Delete? ==> |Encoded(m.value)| <= 16384 && rules.valid(m.key, m.value))
    && (m.PutIfEmpty? ==> |Encoded(m.conditionKey)| <= 512)
  }

  /** What a mutation is refused for, by itself. */
  predicate Fault(rules: Rules, m: Mutation, error: WriteError) {
    var fits := |Encoded(m.key)| <= 512;
    match error
    case KeyTooLarge =>
      !fits || (m.PutIfEmpty? && |Encoded(m.conditionKey)| > 512 && |Encoded(m.value)| <= 16384 && rules.valid(m.key, m.value))
    case ValueTooLarge => fits && !m.Delete? && |Encoded(m.value)| > 16384
    case InvalidValue => fits && !m.Delete? && |Encoded(m.value)| <= 16384 && !rules.valid(m.key, m.value)
    case _ => false
  }

  lemma CheckIsFault(rules: Rules, m: Mutation, seen: set<string>, error: WriteError)
    ensures CheckOne(rules, m, seen) == Some(error) <==>
              Fault(rules, m, error) || (Sound(rules, m) && m.key in seen && error == DuplicateKey)
    ensures CheckOne(rules, m, seen) == None <==> Sound(rules, m) && m.key !in seen
  {
    hide ByteLength, Encoded;
    LengthIsBytes(m.key);
    if !m.Delete? {
      LengthIsBytes(m.value);
    }
    if m.PutIfEmpty? {
      LengthIsBytes(m.conditionKey);
    }
  }

  /** The first checks pass exactly for sound mutations of distinct keys. */
  lemma AcceptedIffSound(rules: Rules, batch: seq<Mutation>)
    ensures FirstError(rules, batch) == None <==>
              (forall i, j :: 0 <= i < j < |batch| ==> batch[i].key != batch[j].key) &&
              (forall m :: m in batch ==> Sound(rules, m))
  {
    hide FirstError, CheckOne, Sound;
    AcceptedIffWellFormed(rules, batch);
    forall m | m in batch ensures WellFormed(rules, m) <==> Sound(rules, m) {
      CheckIsFault(rules, m, {}, DuplicateKey);
    }
  }

  /** The error named is that of the first mutation at fault, or of the first that repeats a key. */
  lemma {:induction false} FirstErrorNames(rules: Rules, batch: seq<Mutation>, error: WriteError)
    ensures FirstError(rules, batch) == Some(error) <==>
              exists i :: 0 <= i < |batch| && FirstError(rules, batch[..i]) == None && Names(rules, batch, i, error)
  {
    hide CheckOne, Fault, Sound, FirstError;
    if batch == [] {
      AcceptedNothing(rules);
    } else {
      var n := |batch| - 1;
      FirstErrorNames(rules, batch[..n], error);
      FirstErrorStep(rules, batch);
      NamesIsCheck(rules, batch, n, error);
      forall i | 0 <= i < n ensures batch[..n][..i] == batch[..i] && (Names(rules, batch[..n], i, error) <==> Names(rules, batch, i, error)) {
        assert batch[..n][..i] == batch[..i];
      }
      if i :| 0 <= i < n && FirstError(rules, batch[..i]) == None && Names(rules, batch, i, error) {
        assert batch[..n][..i] == batch[..i];
      }
    }
  }

  predicate Names(rules: Rules, batch: seq<Mutation>, i: nat, error: WriteError)
    requires i < |batch|
  {
    Fault(rules, batch[i], error) ||
    (error == DuplicateKey && Sound(rules, batch[i]) && exists m :: m in batch[..i] && m.key == batch[i].key)
  }

  lemma FirstErrorStep(rules: Rules, batch: seq<Mutation>)
    requires batch != []
    ensures var n := |batch| - 1;
      FirstError(rules, batch) ==
      if FirstError(rules, batch[..n]).Some? then FirstError(rules, batch[..n]) else CheckOne(rules, batch[n], KeysOf(batch[..n]))
  {
    hide CheckOne, KeysOf;
  }

  lemma NamesIsCheck(rules: Rules, batch: seq<Mutation>, i: nat, error: WriteError)
    requires i < |batch|
    ensures Names(rules, batch, i, error) <==> CheckOne(rules, batch[i], KeysOf(batch[..i])) == Some(error)
  {
    hide CheckOne, Fault, Sound, KeysOf;
    CheckIsFault(rules, batch[i], KeysOf(batch[..i]), error);
    KeysOfMeaning(batch[..i], batch[i].key);
  }

  /** The chats known after a write for `chat` that leaves `rows`: it is registered, and a stored hash other than zero wins. */
  function Registered(rules: Rules, chats: map<int, int>, chat: int, rows: map<string, string>): map<int, int> {
    var hash := if "hash" in rows then rules.hash(rows["hash"]).GetOr(0) else 0;
    if chat == 0 then chats
    else chats[chat := if hash != 0 then hash else if chat in chats then chats[chat] else 0]
  }

  predicate HashReads(rules: Rules, chat: int, rows: map<string, string>) {
    chat != 0 && "hash" in rows ==> rules.hash(rows["hash"]).Some?
  }

  lemma RegisteredIsAdmit(rules: Rules, chats: map<int, int>, chat: int, rows: map<string, string>)
    ensures Registered(rules, chats, chat, rows) == Admit(chats, chat, RequestedHash(rules, rows).GetOr(0))
    ensures HashReads(rules, chat, rows) <==> chat == 0 || RequestedHash(rules, rows).Some?
  {
  }

  /** A batch is accepted exactly when it is sound and either changes nothing or leads to a table within every cap. */
  lemma {:induction false} AcceptedIffWithinCaps(
    limits: Limits, rules: Rules, t: Table, chats: map<int, int>, chat: int, batch: seq<Mutation>, after: map<string, string>)
    requires Capped(limits, t, chats) && Owned(t, chats) && Done(RowsOf(t, chat), after, batch)
    ensures BatchVerdict(limits, rules, t, chats, chat, batch).Ok? <==>
              FirstError(rules, batch) == None &&
              (after == RowsOf(t, chat) ||
               (Capped(limits, t[chat := after], Registered(rules, chats, chat, after)) && HashReads(rules, chat, after)))
  {
    hide FirstError, RowCount, ByteCount, Target, RequestedHash, Registered, HashReads, Done, Differing;
    if FirstError(rules, batch) == None {
      AcceptedIffWellFormed(rules, batch);
      BatchGrantsAll(RowsOf(t, chat), batch, after);
      NoDifferenceIsEqual(RowsOf(t, chat), after);
      RegisteredIsAdmit(rules, chats, chat, after);
      if after != RowsOf(t, chat) {
        RoomIsCap(limits, rules, t, chats, chat, after);
      }
    }
  }

  lemma RoomIsCap(limits: Limits, rules: Rules, t: Table, chats: map<int, int>, chat: int, after: map<string, string>)
    requires Capped(limits, t, chats) && Owned(t, chats) && after != RowsOf(t, chat)
    ensures Capped(limits, t[chat := after], Registered(rules, chats, chat, after)) <==>
              |after| <= MAX_SETTINGS_ROWS_PER_CHAT && !Over(limits.maxRows, RowCount(t[chat := after])) &&
              !Over(limits.maxBytes, ByteCount(t[chat := after])) &&
              !(chat != 0 && chat !in chats && after != map[] && Full(limits.maxChats, |chats|))
  {
    hide RowCount, ByteCount, RequestedHash;
    RegisteredIsAdmit(rules, chats, chat, after);
    AdmitGrows(chats, chat, RequestedHash(rules, after).GetOr(0));
    hide Registered;
    assert chat != 0 && chat !in chats ==> RowsOf(t, chat) == map[];
    var u := t[chat := after];
    if |after| <= MAX_SETTINGS_ROWS_PER_CHAT {
      forall c ensures |RowsOf(u, c)| <= MAX_SETTINGS_ROWS_PER_CHAT {
        assert |RowsOf(t, c)| <= MAX_SETTINGS_ROWS_PER_CHAT;
      }
    } else {
      assert RowsOf(u, chat) == after;
    }
  }

  // ---------------------------------------------------------------- one flag in many chats

  /** The listed chats that lack the key, and those of them that are not registered yet. */
  ghost function Lacking(t: Table, key: string, ids: seq<int>): set<int> {
    set chat | chat in ids && key !in RowsOf(t, chat)
  }

  ghost function Unknown(t: Table, chats: map<int, int>, key: string, ids: seq<int>): set<int> {
    set chat | chat in ids && key !in RowsOf(t, chat) && chat != 0 && chat !in chats
  }

  lemma LastIsNew(ids: seq<int>)
    requires Increasing(ids) && ids != []
    ensures var (front, last) := (ids[..|ids| - 1], ids[|ids| - 1]);
      Increasing(front) && last !in front && forall chat :: chat in ids <==> chat in front || chat == last
  {
    var front, last := ids[..|ids| - 1], ids[|ids| - 1];
    assert ids == front + [last];
  }

  lemma OneMoreMember(some: set<int>, more: set<int>, last: int, joins: bool)
    requires last !in some && forall chat :: chat in more <==> chat in some || (joins && chat == last)
    ensures |more| == |some| + if joins then 1 else 0
  {
    var wanted := if joins then some + {last} else some;
    forall chat ensures chat in more <==> chat in wanted {
    }
    assert more == wanted;
  }

  /** A flag write sets the key to the empty text, or removes it, in exactly the listed chats, and changes nothing else. */
  lemma {:induction false} FlagGrants(t: Table, key: string, on: bool, ids: seq<int>, chat: int, other: string)
    ensures var (before, after) := (RowsOf(t, chat), RowsOf(Flag(t, key, on, ids), chat));
      && (chat in ids && on ==> key in after && after[key] == "")
      && (chat in ids && !on ==> key !in after)
      && (chat !in ids || other != key ==> Same(before, after, other))
  {
    hide RowsOf, Flag;
    FlagMeaning(t, key, on, ids, chat);
  }

  /** The listed chats whose rows a flag write changes. */
  ghost function Changed(t: Table, after: Table, ids: seq<int>): set<int> {
    set chat | chat in ids && RowsOf(after, chat) != RowsOf(t, chat)
  }

  lemma FlaggedBefore(t: Table, key: string, on: bool, ids: seq<int>, chat: int)
    requires Increasing(ids) && ids != []
    ensures var (front, last) := (ids[..|ids| - 1], ids[|ids| - 1]);
      && (chat in front ==> RowsOf(Flag(t, key, on, ids), chat) == RowsOf(Flag(t, key, on, front), chat))
      && RowsOf(Flag(t, key, on, ids), last) == SetRow(RowsOf(t, last), key, if on then Some("") else None)
  {
    hide RowsOf, Flag, SetRow, Increasing;
    LastIsNew(ids);
    FlagMeaning(t, key, on, ids, chat);
    FlagMeaning(t, key, on, ids[..|ids| - 1], chat);
    FlagMeaning(t, key, on, ids, ids[|ids| - 1]);
  }

  /** What a flag write leaves: the key set or gone in the listed chats, and everything else as it was. */
  ghost predicate FlagDone(before: Table, after: Table, key: string, on: bool, listed: seq<int>) {
    && (forall chat :: chat in listed && on ==> key in RowsOf(after, chat) && RowsOf(after, chat)[key] == "")
    && (forall chat :: chat in listed && !on ==> key !in RowsOf(after, chat))
    && (forall chat, other :: chat !in listed || other != key ==> Same(RowsOf(before, chat), RowsOf(after, chat), other))
  }

  lemma FlagIsDone(t: Table, key: string, on: bool, ids: seq<int>, listed: seq<int>)
    requires forall chat :: chat in ids <==> chat in listed
    ensures FlagDone(t, Flag(t, key, on, ids), key, on, listed)
  {
    hide RowsOf, Flag, Same;
    forall chat, other ensures chat !in listed || other != key ==> Same(RowsOf(t, chat), RowsOf(Flag(t, key, on, ids), chat), other) {
      FlagGrants(t, key, on, ids, chat, other);
    }
    forall chat | chat in listed
      ensures on ==> key in RowsOf(Flag(t, key, on, ids), chat) && RowsOf(Flag(t, key, on, ids), chat)[key] == ""
      ensures !on ==> key !in RowsOf(Flag(t, key, on, ids), chat)
    {
      FlagGrants(t, key, on, ids, chat, key);
    }
  }

  /** The count a flag write reports is the number of chats whose rows it changes. */
  lemma {:induction false} FlagCountsChats(t: Table, key: string, on: bool, ids: seq<int>)
    requires Increasing(ids)
    ensures FlagChanges(t, key, on, ids) == |Changed(t, Flag(t, key, on, ids), ids)|
  {
    hide RowsOf, Flag, SetRow, Lookup, Increasing;
    if ids != [] {
      var front, last := ids[..|ids| - 1], ids[|ids| - 1];
      var before, after := Changed(t, Flag(t, key, on, front), front), Changed(t, Flag(t, key, on, ids), ids);
      LastIsNew(ids);
      FlagCountsChats(t, key, on, front);
      SetRowChanges(RowsOf(t, last), key, if on then Some("") else None);
      var joins := RowsOf(Flag(t, key, on, ids), last) != RowsOf(t, last);
      forall chat ensures chat in after <==> chat in before || (joins && chat == last) {
        FlaggedBefore(t, key, on, ids, chat);
      }
      FlaggedBefore(t, key, on, ids, last);
      OneMoreMember(before, after, last, joins);
    }
  }

  lemma SetRowChanges(rows: map<string, string>, key: string, next: Option<string>)
    ensures SetRow(rows, key, next) != rows <==> Lookup(rows, key) != next
  {
  }

  function Times(n: nat, size: nat): nat {
    n * size
  }

  lemma OnceMore(n: nat, size: nat)
    ensures Times(n + 1, size) == Times(n, size) + size && Times(0, size) == 0
  {
  }

  /** What the projection of a flag write adds up, chat by chat. */
  ghost predicate Room(limits: Limits, t: Table, chats: map<int, int>, key: string, ids: seq<int>) {
    && (forall chat :: chat in Lacking(t, key, ids) ==> |RowsOf(t, chat)| < 512)
    && RoomForRows(limits, t, key, ids) && RoomForBytes(limits, t, key, ids) && RoomForChats(limits, t, chats, key, ids)
  }

  ghost predicate RoomForRows(limits: Limits, t: Table, key: string, ids: seq<int>) {
    limits.maxRows.Some? ==> RowCount(t) + |Lacking(t, key, ids)| <= limits.maxRows.value
  }

  ghost predicate RoomForBytes(limits: Limits, t: Table, key: string, ids: seq<int>) {
    limits.maxBytes.Some? ==> ByteCount(t) + Times(|Lacking(t, key, ids)|, |Encoded(key)|) <= limits.maxBytes.value
  }

  ghost predicate RoomForChats(limits: Limits, t: Table, chats: map<int, int>, key: string, ids: seq<int>) {
    limits.maxChats.Some? ==> |chats| + |Unknown(t, chats, key, ids)| <= limits.maxChats.value
  }

  lemma OneMoreChat(t: Table, chats: map<int, int>, key: string, ids: seq<int>)
    requires Increasing(ids) && ids != []
    ensures var (front, last) := (ids[..|ids| - 1], ids[|ids| - 1]); var lacks := key !in RowsOf(t, last);
      && (forall chat :: chat in Lacking(t, key, ids) <==> chat in Lacking(t, key, front) || (lacks && chat == last))
      && |Lacking(t, key, ids)| == |Lacking(t, key, front)| + (if lacks then 1 else 0)
      && |Unknown(t, chats, key, ids)| ==
         |Unknown(t, chats, key, front)| + (if lacks && last != 0 && last !in chats then 1 else 0)
  {
    hide RowsOf, Increasing;
    var front, last := ids[..|ids| - 1], ids[|ids| - 1];
    LastIsNew(ids);
    var lacks := key !in RowsOf(t, last);
    OneMoreMember(Lacking(t, key, front), Lacking(t, key, ids), last, lacks);
    OneMoreMember(Unknown(t, chats, key, front), Unknown(t, chats, key, ids), last, lacks && last != 0 && last !in chats);
  }

  ghost function Needs(t: Table, chats: map<int, int>, key: string, ids: seq<int>): Projection {
    Projection(RowCount(t) + |Lacking(t, key, ids)|, ByteCount(t) + Times(|Lacking(t, key, ids)|, |Encoded(key)|),
               |chats| + |Unknown(t, chats, key, ids)|)
  }

  /** One more chat fits if and only if there is room for it together with the ones before. */
  lemma OneMoreFits(limits: Limits, t: Table, chats: map<int, int>, key: string, ids: seq<int>)
    requires Increasing(ids) && ids != [] && Room(limits, t, chats, key, ids[..|ids| - 1])
    ensures var p := ProjectOne(limits, t, chats, key, Needs(t, chats, key, ids[..|ids| - 1]), ids[|ids| - 1]);
      && (p.Ok? <==> Room(limits, t, chats, key, ids))
      && (p.Ok? ==> p.value == Needs(t, chats, key, ids))
      && (p == Err(RowCapacity) ==>
            !RoomForRows(limits, t, key, ids) || exists chat :: chat in Lacking(t, key, ids) && |RowsOf(t, chat)| >= 512)
      && (p == Err(ByteCapacity) ==> !RoomForBytes(limits, t, key, ids))
      && (p == Err(ChatCapacity) ==> !RoomForChats(limits, t, chats, key, ids))
      && (p.Err? ==> p.error in {RowCapacity, ByteCapacity, ChatCapacity})
  {
    hide RowCount, ByteCount, RowsOf, Encoded, SettingSize, Lacking, Unknown, Times, Increasing;
    OneMoreChat(t, chats, key, ids);
    SizeIsBytes(key, "");
    assert key + "" == key;
    OnceMore(|Lacking(t, key, ids[..|ids| - 1])|, |Encoded(key)|);
  }

  lemma FewerFit(limits: Limits, t: Table, chats: map<int, int>, key: string, ids: seq<int>)
    requires Increasing(ids) && ids != [] && Room(limits, t, chats, key, ids)
    ensures Increasing(ids[..|ids| - 1]) && Room(limits, t, chats, key, ids[..|ids| - 1])
  {
    hide RowCount, ByteCount, RowsOf, Encoded, Lacking, Unknown, Times, Increasing;
    LastIsNew(ids);
    OneMoreChat(t, chats, key, ids);
    OnceMore(|Lacking(t, key, ids[..|ids| - 1])|, |Encoded(key)|);
  }

  /** A flag write passes its projection exactly when there is room for every new row, byte and chat together. */
  lemma {:induction false} ProjectedIffRoom(limits: Limits, t: Table, chats: map<int, int>, key: string, ids: seq<int>)
    requires Capped(limits, t, chats) && Increasing(ids)
    ensures var p := Project(limits, t, chats, key, Totals(t, chats), ids);
      && (p.Ok? <==> Room(limits, t, chats, key, ids))
      && (p.Ok? ==> p.value == Needs(t, chats, key, ids))
  {
    hide RowCount, ByteCount, RowsOf, Encoded, ProjectOne, Room, Needs;
    if ids == [] {
      NoneNeeded(limits, t, chats, key);
    } else {
      hide Capped;
      var front := ids[..|ids| - 1];
      assert Increasing(front);
      ProjectedIffRoom(limits, t, chats, key, front);
      if Room(limits, t, chats, key, front) {
        OneMoreFits(limits, t, chats, key, ids);
      } else if Room(limits, t, chats, key, ids) {
        FewerFit(limits, t, chats, key, ids);
      }
    }
  }

  lemma NoneNeeded(limits: Limits, t: Table, chats: map<int, int>, key: string)
    requires Capped(limits, t, chats)
    ensures Room(limits, t, chats, key, []) && Needs(t, chats, key, []) == Totals(t, chats)
  {
    hide RowCount, ByteCount, RowsOf, Encoded, Times;
    assert Lacking(t, key, []) == {} && Unknown(t, chats, key, []) == {};
    OnceMore(0, |Encoded(key)|);
  }

  /** Which chats a flag write registers, with which access hash; it needs every stored hash to be readable. */
  lemma {:induction false} AdmitAllRegisters(rules: Rules, t: Table, chats: map<int, int>, ids: seq<int>)
    requires Increasing(ids)
    ensures AdmitAll(rules, t, chats, ids).Some? <==> forall chat :: chat in ids ==> HashReads(rules, chat, RowsOf(t, chat))
    ensures AdmitAll(rules, t, chats, ids).Some? ==>
              forall chat :: AdmittedAs(AdmitAll(rules, t, chats, ids).value, chat,
                                        if chat in ids then Registered(rules, chats, chat, RowsOf(t, chat)) else chats)
  {
    hide RowsOf, Registered, HashReads, RequestedHash, Admit, Increasing, AdmittedAs;
    if ids == [] {
      forall chat ensures AdmittedAs(chats, chat, chats) {
        AdmittedSame(chats, chat);
      }
    } else {
      var front, last := ids[..|ids| - 1], ids[|ids| - 1];
      LastIsNew(ids);
      AdmitAllRegisters(rules, t, chats, front);
      RegisteredIsAdmit(rules, chats, last, RowsOf(t, last));
      if AdmitAll(rules, t, chats, ids).Some? {
        var before, after := AdmitAll(rules, t, chats, front).value, AdmitAll(rules, t, chats, ids).value;
        forall chat ensures AdmittedAs(after, chat, if chat in ids then Registered(rules, chats, chat, RowsOf(t, chat)) else chats) {
          assert AdmittedAs(before, chat, if chat in front then Registered(rules, chats, chat, RowsOf(t, chat)) else chats);
          AdmitOne(rules, t, chats, before, after, last, chat);
        }
      }
    }
  }

  /** In both sets of chats `chat` is registered alike. */
  predicate AdmittedAs(admitted: map<int, int>, chat: int, wanted: map<int, int>) {
    (chat in admitted <==> chat in wanted) && (chat in wanted ==> admitted[chat] == wanted[chat])
  }

  lemma AdmittedSame(chats: map<int, int>, chat: int)
    ensures AdmittedAs(chats, chat, chats)
  {
  }

  lemma AdmitOne(
    rules: Rules, t: Table, chats: map<int, int>, before: map<int, int>, after: map<int, int>, last: int, chat: int)
    requires after == if last == 0 then before else Admit(before, last, RequestedHash(rules, RowsOf(t, last)).GetOr(0))
    requires chat == last ==> AdmittedAs(before, chat, chats)
    ensures chat == last ==> AdmittedAs(after, chat, Registered(rules, chats, chat, RowsOf(t, chat)))
    ensures forall wanted :: chat != last && AdmittedAs(before, chat, wanted) ==> AdmittedAs(after, chat, wanted)
  {
    hide RowsOf;
  }
}
