/**
 The settings store of src/state.rs: a database table, the in-memory mirror every reader uses, and the three writers that
 must keep the two equal. Each writer holds its locks for its whole work, so it is one operation here, as `WriteSerial`
 justifies; `Outcome` says how the database answered.
 */
module SettingsMirror {
  import opened MapSum
  import opened Options
  import opened Rows
  import opened SettingsTable
  import opened SettingsMeaning
  import Utf8
  import opened SettingsIndex

  datatype Outcome =
    | Completes
    | StatementFails                // an error before the commit: the transaction rolls back
    | CommitUnknown(applied: bool)  // the commit itself failed: nobody knows whether it was applied

  type Cache = map<int, seq<Row>>

  function Cached(cache: Cache, chat: int): seq<Row> {
    if chat in cache then cache[chat] else []
  }

  ghost predicate CacheAgrees(cache: Cache, t: Table) {
    forall chat :: Sorted(Cached(cache, chat)) && Rows.Holds(Cached(cache, chat), RowsOf(t, chat))
  }

  lemma CacheRow(cache: Cache, t: Table, chat: int)
    requires CacheAgrees(cache, t)
    ensures Sorted(Cached(cache, chat)) && Rows.Holds(Cached(cache, chat), RowsOf(t, chat))
  {
    hide Sorted, Rows.Holds, RowsOf;
  }

  lemma CacheRowSet(cache: Cache, t: Table, chat: int, rows: seq<Row>, m: map<string, string>)
    requires CacheAgrees(cache, t) && Sorted(rows) && Rows.Holds(rows, m)
    ensures CacheAgrees(cache[chat := rows], t[chat := m])
  {
    hide Sorted, Rows.Holds;
    var changed, after := cache[chat := rows], t[chat := m];
    forall c ensures Sorted(Cached(changed, c)) && Rows.Holds(Cached(changed, c), RowsOf(after, c)) {
      CacheRow(cache, t, c);
    }
  }

  lemma CacheRowKept(cache: Cache, t: Table, chat: int)
    requires CacheAgrees(cache, t)
    ensures CacheAgrees(cache, t[chat := RowsOf(t, chat)])
  {
    hide Sorted, Rows.Holds;
    var after := t[chat := RowsOf(t, chat)];
    forall c ensures Sorted(Cached(cache, c)) && Rows.Holds(Cached(cache, c), RowsOf(after, c)) {
      CacheRow(cache, t, c);
    }
  }

  /** Setting one row of the cache where the search found it sets that row of the table. */
  lemma CacheStays(
    cache: Cache, t: Table, chat: int, key: string, next: Option<string>, at: nat, found: bool)
    requires CacheAgrees(cache, t) && Rows.At(Cached(cache, chat), key, at, found)
    ensures at <= |Cached(cache, chat)| && (found ==> at < |Cached(cache, chat)|)
    ensures var after := t[chat := SetRow(RowsOf(t, chat), key, next)]; var rows := Cached(cache, chat);
      && (next.Some? ==> CacheAgrees(cache[chat := Insert(rows, key, next.value, at, found)], after))
      && (next == None && found ==> CacheAgrees(cache[chat := Rows.Delete(rows, at)], after))
      && (next == None && !found ==> CacheAgrees(cache, after))
  {
    var rows, m := Cached(cache, chat), RowsOf(t, chat);
    CacheRow(cache, t, chat);
    assert at <= |rows| && (found ==> at < |rows|);
    hide CacheAgrees, Cached, RowsOf, Sorted, Rows.Holds, Rows.At, Insert, Rows.Delete;
    if next.Some? {
      InsertIsUpdate(rows, m, key, next.value, at, found);
      CacheRowSet(cache, t, chat, Insert(rows, key, next.value, at, found), m[key := next.value]);
    } else if found {
      DeleteIsRemoval(rows, m, key, at);
      CacheRowSet(cache, t, chat, Rows.Delete(rows, at), m - {key});
    } else {
      FoundMeansHeld(rows, m, key, at, found);
      assert m - {key} == m;
      CacheRowKept(cache, t, chat);
    }
  }

  /** No chat but the global one keeps an empty vector. */
  predicate Tidy(cache: Cache) {
    forall chat :: chat in cache && chat != 0 ==> cache[chat] != []
  }

  // ---------------------------------------------------------------- the changes of a batch

  datatype Change = Change(key: string, next: Option<string>)

  function ChangesOf(current: map<string, string>, batch: seq<Mutation>): seq<Change> {
    if batch == [] then []
    else
      var before, last := ChangesOf(current, batch[..|batch| - 1]), batch[|batch| - 1];
      if Lookup(current, last.key) == NextValue(current, last) then before
      else before + [Change(last.key, NextValue(current, last))]
  }

  function Applied(rows: map<string, string>, changes: seq<Change>): map<string, string> {
    if changes == [] then rows
    else
      var last := changes[|changes| - 1];
      SetRow(Applied(rows, changes[..|changes| - 1]), last.key, last.next)
  }

  lemma AppliedAppend(rows: map<string, string>, changes: seq<Change>, c: Change)
    ensures Applied(rows, changes + [c]) == SetRow(Applied(rows, changes), c.key, c.next)
  {
    assert (changes + [c])[..|changes|] == changes;
  }

  lemma SetRowSame(rows: map<string, string>, key: string)
    ensures SetRow(rows, key, Lookup(rows, key)) == rows
  {
  }

  lemma {:induction false} AppliedReachesTarget(current: map<string, string>, batch: seq<Mutation>)
    requires DistinctKeys(batch)
    ensures Applied(current, ChangesOf(current, batch)) == Target(current, batch)
  {
    hide SetRow, Lookup, NextValue, DistinctKeys;
    if batch != [] {
      var before, last := batch[..|batch| - 1], batch[|batch| - 1];
      DistinctFront(batch);
      KeysOfMeaning(before, last.key);
      AppliedReachesTarget(current, before);
      TargetMeaning(current, before, last.key);
      SetRowSame(Target(current, before), last.key);
      AppliedAppend(current, ChangesOf(current, before), Change(last.key, NextValue(current, last)));
    }
  }

  lemma {:induction false} ChangesAreCounted(current: map<string, string>, batch: seq<Mutation>)
    ensures |ChangesOf(current, batch)| == Changes(current, batch)
  {
    hide Lookup, NextValue;
    if batch != [] {
      ChangesAreCounted(current, batch[..|batch| - 1]);
    }
  }

  lemma {:induction false} ChangesAreNamed(current: map<string, string>, batch: seq<Mutation>)
    ensures forall c :: c in ChangesOf(current, batch) ==> c.key in KeysOf(batch)
  {
    hide Lookup, NextValue;
    if batch != [] {
      ChangesAreNamed(current, batch[..|batch| - 1]);
    }
  }

  lemma {:induction false} ChangesAreDistinct(current: map<string, string>, batch: seq<Mutation>)
    requires DistinctKeys(batch)
    ensures DistinctChanges(ChangesOf(current, batch))
  {
    hide Lookup, NextValue, DistinctKeys;
    if batch != [] {
      DistinctFront(batch);
      ChangesAreNamed(current, batch[..|batch| - 1]);
      ChangesAreDistinct(current, batch[..|batch| - 1]);
    }
  }

  /** Leaving out the mutations that change nothing loses nothing, and no key is left twice. */
  lemma AppliedIsTarget(current: map<string, string>, batch: seq<Mutation>)
    requires DistinctKeys(batch)
    ensures Applied(current, ChangesOf(current, batch)) == Target(current, batch)
    ensures |ChangesOf(current, batch)| == Changes(current, batch)
    ensures DistinctChanges(ChangesOf(current, batch))
  {
    hide Applied, ChangesOf, Target, Changes, DistinctChanges, DistinctKeys;
    AppliedReachesTarget(current, batch);
    ChangesAreCounted(current, batch);
    ChangesAreDistinct(current, batch);
  }

  /** The upsert statement of a batch, and its delete statement. */
  function PutAll(rows: map<string, string>, changes: seq<Change>): map<string, string> {
    if changes == [] then rows
    else
      var before, last := PutAll(rows, changes[..|changes| - 1]), changes[|changes| - 1];
      if last.next.Some? then before[last.key := last.next.value] else before
  }

  function DeleteAll(rows: map<string, string>, changes: seq<Change>): map<string, string> {
    if changes == [] then rows
    else
      var before, last := DeleteAll(rows, changes[..|changes| - 1]), changes[|changes| - 1];
      if last.next.Some? then before else before - {last.key}
  }

  predicate DistinctChanges(changes: seq<Change>) {
    forall i, j :: 0 <= i < j < |changes| ==> changes[i].key != changes[j].key
  }

  lemma {:induction false} DeleteAllSkips(rows: map<string, string>, changes: seq<Change>, key: string, value: string)
    requires forall c :: c in changes ==> c.key != key
    ensures DeleteAll(rows[key := value], changes) == DeleteAll(rows, changes)[key := value]
  {
    if changes != [] {
      var n := |changes| - 1;
      assert changes[n] in changes;
      DeleteAllSkips(rows, changes[..n], key, value);
    }
  }

  /** Two statements, first every put and then every delete, have the effect of the changes one by one. */
  lemma {:induction false} StatementsAreApplied(rows: map<string, string>, changes: seq<Change>)
    requires DistinctChanges(changes)
    ensures DeleteAll(PutAll(rows, changes), changes) == Applied(rows, changes)
  {
    if changes != [] {
      var n := |changes| - 1;
      var before, last := changes[..n], changes[n];
      StatementsAreApplied(rows, before);
      if last.next.Some? {
        DeleteAllSkips(PutAll(rows, before), before, last.key, last.next.value);
      }
    }
  }

  /** What the check phase of a batch hands to its write phase. */
  datatype Plan = Plan(changes: seq<Change>, oldRows: nat, newRows: nat, oldBytes: nat, newBytes: nat, hash: int)

  function Minus(a: nat, b: nat): nat {
    if a >= b then a - b else 0
  }

  ghost predicate PlanFits(plan: Plan, t: Table, chat: int, batch: seq<Mutation>) {
    var target := Target(RowsOf(t, chat), batch);
    && plan.changes == ChangesOf(RowsOf(t, chat), batch)
    && (plan.changes != [] ==>
          plan.oldRows == |RowsOf(t, chat)| && plan.newRows == |target| && plan.newBytes == ByteCount(t[chat := target]))
  }

  /** The running sums of the check phase are the true totals of the rows the batch leads to. */
  lemma PlanFacts(t: Table, chat: int, batch: seq<Mutation>)
    requires DistinctKeys(batch)
    ensures var current := RowsOf(t, chat);
            var target, d := Target(current, batch), DeltaOf(current, batch);
            && |target| == Minus(|current|, d.removedRows) + d.addedRows
            && RowCount(t[chat := target]) == Minus(RowCount(t), d.removedRows) + d.addedRows
            && ByteCount(t[chat := target]) == Minus(ByteCount(t), d.removedBytes) + d.addedBytes
            && |ChangesOf(current, batch)| == |Differing(current, target)|
            && Applied(current, ChangesOf(current, batch)) == target
  {
    hide Bytes, RowCount, ByteCount, Differing, RowsOf, DistinctKeys;
    var current := RowsOf(t, chat);
    DeltaIsExact(current, batch);
    RemovedFits(current, batch);
    SetChat(t, chat, Target(current, batch));
    ChatCounts(t, chat);
    AppliedIsTarget(current, batch);
    ChangesCountsDifferences(current, batch);
  }

  lemma {:induction false} FirstErrorKinds(rules: Rules, batch: seq<Mutation>)
    ensures FirstError(rules, batch) != Some(CommitUncertain) && FirstError(rules, batch) != Some(UncertainState)
  {
    if batch != [] {
      FirstErrorKinds(rules, batch[..|batch| - 1]);
    }
  }

  /** The checks never claim that a commit is uncertain. */
  lemma BatchErrors(limits: Limits, rules: Rules, t: Table, chats: map<int, int>, chat: int, batch: seq<Mutation>)
    ensures BatchVerdict(limits, rules, t, chats, chat, batch) != Err(CommitUncertain)
    ensures BatchVerdict(limits, rules, t, chats, chat, batch) != Err(UncertainState)
  {
    hide FirstError, Differing, Target, RowCount, ByteCount, RequestedHash;
    FirstErrorKinds(rules, batch);
  }

  /** An accepted batch counts the keys it changes; one that changes none is done already. */
  lemma VerdictCounts(limits: Limits, rules: Rules, t: Table, chats: map<int, int>, chat: int, batch: seq<Mutation>)
    requires BatchVerdict(limits, rules, t, chats, chat, batch).Ok?
    ensures var (current, value) := (RowsOf(t, chat), BatchVerdict(limits, rules, t, chats, chat, batch).value);
      && DistinctKeys(batch) && value == |Differing(current, Target(current, batch))|
      && (value == 0 ==> Done(current, current, batch))
  {
    hide FirstError, Differing, Target, RowCount, ByteCount, RequestedHash, Done, RowsOf;
    AcceptedIffWellFormed(rules, batch);
    NoDifferenceIsEqual(RowsOf(t, chat), Target(RowsOf(t, chat), batch));
    BatchGrantsAll(RowsOf(t, chat), batch, RowsOf(t, chat));
  }

  // ---------------------------------------------------------------- one flag in many chats

  function FlagNext(on: bool): Option<string> {
    if on then Some("") else None
  }

  function FlagVerdict(
    limits: Limits, rules: Rules, t: Table, chats: map<int, int>, key: string, on: bool, ids: seq<int>, totals: Projection)
    : Result<nat>
  {
    if ByteLength(key) > MAX_SETTING_KEY_BYTES then Err(KeyTooLarge)
    else if on && !rules.valid(key, "") then Err(InvalidValue)
    else if ids == [] then Ok(0)
    else if on && Project(limits, t, chats, key, totals, ids).Err? then
      Err(Project(limits, t, chats, key, totals, ids).error)
    else if on && AdmitAll(rules, t, chats, ids) == None then Err(Database)
    else Ok(FlagChanges(t, key, on, ids))
  }

  /** The chats a flag write leaves, chat by chat. */
  ghost predicate RegisteredIn(
    rules: Rules, t: Table, chats: map<int, int>, after: map<int, int>, on: bool, ids: seq<int>)
  {
    forall chat :: AdmittedAs(after, chat, if on && chat in ids then Registered(rules, chats, chat, RowsOf(t, chat)) else chats)
  }

  lemma FlaggedMeans(rules: Rules, t: Table, chats: map<int, int>, key: string, on: bool, ids: seq<int>, listed: seq<int>)
    requires Increasing(ids) && forall chat :: chat in ids <==> chat in listed
    ensures FlagDone(t, Flag(t, key, on, ids), key, on, listed)
    ensures FlagChanges(t, key, on, ids) == |Changed(t, Flag(t, key, on, ids), ids)|
    ensures !on || AdmitAll(rules, t, chats, ids).Some? ==>
              RegisteredIn(rules, t, chats, if on then AdmitAll(rules, t, chats, ids).value else chats, on, ids)
  {
    hide Flag, FlagDone, FlagChanges, AdmitAll, Changed, Increasing, Registered, RowsOf;
    FlagIsDone(t, key, on, ids, listed);
    FlagCountsChats(t, key, on, ids);
    AdmitAllRegisters(rules, t, chats, ids);
    forall chat ensures AdmittedAs(chats, chat, chats) {
      AdmittedSame(chats, chat);
    }
    if on && AdmitAll(rules, t, chats, ids).Some? {
      var after := AdmitAll(rules, t, chats, ids).value;
      forall chat ensures AdmittedAs(after, chat, if on && chat in ids then Registered(rules, chats, chat, RowsOf(t, chat)) else chats) {
        assert AdmittedAs(after, chat, if chat in ids then Registered(rules, chats, chat, RowsOf(t, chat)) else chats);
      }
    }
  }

  /** A flag write is accepted exactly if its key is sound and, to be set, there is room for it in every listed chat. */
  lemma FlagAcceptedIffRoom(limits: Limits, rules: Rules, t: Table, chats: map<int, int>, key: string, on: bool, ids: seq<int>)
    requires Capped(limits, t, chats) && Increasing(ids)
    ensures FlagVerdict(limits, rules, t, chats, key, on, ids, Totals(t, chats)).Ok? <==>
              |Utf8.Encoded(key)| <= 512 &&
              (on ==> rules.valid(key, "") && Room(limits, t, chats, key, ids) &&
                      forall chat :: chat in ids ==> HashReads(rules, chat, RowsOf(t, chat)))
  {
    hide RowCount, ByteCount, RowsOf, Utf8.Encoded, Project, Room, AdmitAll, HashReads, Capped, Increasing, ByteLength;
    LengthIsBytes(key);
    if ids == [] {
      NoneNeeded(limits, t, chats, key);
    }
    ProjectedIffRoom(limits, t, chats, key, ids);
    AdmitAllRegisters(rules, t, chats, ids);
  }

  // ---------------------------------------------------------------- the object

  class Settings {
    const limits: Limits
    const rules: Rules
    // the database
    var table: Table
    var chats: map<int, int>
    // the mirror
    var cache: Cache
    var index: Index
    var durable: map<int, int>
    var settingRows: nat
    var settingBytes: nat
    // the request gate
    var alive: bool

    /** The mirror shows exactly what the database holds. */
    ghost predicate Agrees()
      reads this
    {
      && CacheAgrees(cache, table)
      && Tidy(cache)
      && IndexAgrees(index, table)
      && durable == chats
      && settingRows == RowCount(table)
      && settingBytes == ByteCount(table)
    }

    ghost predicate Valid()
      reads this
    {
      Owned(table, chats) && Capped(limits, table, chats) && (alive ==> Agrees())
    }

    ghost predicate SameMirror(
      cache: Cache, index: Index, durable: map<int, int>, settingRows: nat, settingBytes: nat)
      reads this
    {
      this.cache == cache && this.index == index && this.durable == durable &&
      this.settingRows == settingRows && this.settingBytes == settingBytes
    }

    constructor (limits: Limits, rules: Rules)
      ensures Valid() && alive && table == map[] && chats == map[]
      ensures this.limits == limits && this.rules == rules
    {
      this.limits, this.rules := limits, rules;
      table, chats := map[], map[];
      cache, index, durable, settingRows, settingBytes, alive := map[], map[], map[], 0, 0, true;
      new;
      assert Counts(table) == map[] && ByteCounts(table) == map[];
    }

    /** The cached value of a key; `t` is the table the cache shows. */
    method Read(chat: int, key: string, ghost t: Table) returns (value: Option<string>)
      requires CacheAgrees(cache, t)
      ensures value == Lookup(RowsOf(t, chat), key)
    {
      var rows := Cached(cache, chat);
      var at, found := Find(rows, key);
      FoundMeansHeld(rows, RowsOf(t, chat), key, at, found);
      value := if found then Some(rows[at].value) else None;
    }

    /** Whether some cached key of the indexed prefix the question falls under passes the test on what follows it. */
    method IndexedAny(chat: int, prefix: string, test: string -> bool) returns (found: bool)
      requires Agrees()
      ensures match Slot(prefix)
              case None => !found
              case Some(slot) =>
                slot.0 < |INDEXED| &&
                (found <==> exists key :: key in RowsOf(table, chat) && StartsWith(key, INDEXED[slot.0]) &&
                              test(key[|INDEXED[slot.0]|..]))
    {
      hide Slot, StartsWith, CacheAgrees, Tidy, IndexAgrees, RowCount, ByteCount, ListOf;
      SlotIsUnique(prefix, 0);
      if Slot(prefix).None? {
        return false;
      }
      var (slot, _) := Slot(prefix).value;
      var list := ListOf(index, chat, slot);
      IndexedAnyIsScan(index, table, chat, slot, test);
      found := false;
      for n := 0 to |list|
        invariant !found && forall k :: 0 <= k < n ==> !test(list[k])
      {
        if test(list[n]) {
          return true;
        }
      }
    }

    /** Puts or removes one cached row; `t` is the table the cache shows before. */
    method CacheSet(chat: int, key: string, next: Option<string>, ghost t: Table)
      requires CacheAgrees(cache, t)
      modifies this`cache
      ensures CacheAgrees(cache, t[chat := SetRow(RowsOf(t, chat), key, next)])
      ensures forall c :: c != chat && c in cache ==> c in old(cache) && cache[c] == old(cache)[c]
      ensures next.Some? ==> Cached(cache, chat) != []
    {
      hide RowsOf, Rows.Holds, Sorted, Rows.At;
      CacheRow(cache, t, chat);
      var rows := Cached(cache, chat);
      var at, found := Find(rows, key);
      CacheStays(cache, t, chat, key, next, at, found);
      match next {
        case Some(value) =>
          cache := cache[chat := Insert(rows, key, value, at, found)];
        case None =>
          if found {
            cache := cache[chat := Rows.Delete(rows, at)];
          }
      }
      hide CacheAgrees;
    }

    /** Drops the vector of a chat that lost its last row. */
    method CacheTidy(chat: int, ghost t: Table)
      requires CacheAgrees(cache, t)
      requires forall c :: c in cache && c != 0 && c != chat ==> cache[c] != []
      modifies this`cache
      ensures CacheAgrees(cache, t) && Tidy(cache)
    {
      if chat != 0 && chat in cache && cache[chat] == [] {
        cache := cache - {chat};
      }
      forall c ensures Sorted(Cached(cache, c)) && Rows.Holds(Cached(cache, c), RowsOf(t, c)) {
        assert Sorted(Cached(old(cache), c)) && Rows.Holds(Cached(old(cache), c), RowsOf(t, c));
      }
    }
  
    // -------------------------------------------------------------- a batch for one chat

    method Validate(batch: seq<Mutation>) returns (error: Option<WriteError>)
      ensures error == FirstError(rules, batch)
    {
      var seen: set<string> := {};
      var i := 0;
      while i < |batch|
        invariant 0 <= i <= |batch|
        invariant FirstError(rules, batch[..i]) == None && seen == KeysOf(batch[..i])
      {
        assert batch[..i + 1][..i] == batch[..i];
        error := CheckOne(rules, batch[i], seen);
        if error.Some? {
          ErrorStays(rules, batch, i + 1);
          return;
        }
        seen := seen + {batch[i].key};
        i := i + 1;
      }
      assert batch[..i] == batch;
      error := None;
    }

    /** What a key holds, and what a mutation asks it to hold. */
    method Ask(chat: int, m: Mutation) returns (previous: Option<string>, next: Option<string>)
      requires CacheAgrees(cache, table)
      ensures previous == Lookup(RowsOf(table, chat), m.key) && next == NextValue(RowsOf(table, chat), m)
    {
      hide CacheAgrees, RowsOf;
      previous := Read(chat, m.key, table);
      next := previous;
      match m {
        case Put(_, value) => next := Some(value);
        case PutIfEmpty(_, value, conditionKey) =>
          var condition := Read(chat, conditionKey, table);
          if condition == None || condition == Some("") {
            next := Some(value);
          }
        case Delete(_) => next := None;
      }
    }

    /** The changes a batch makes to a chat, and what they add to and take from the totals. */
    method Survey(chat: int, batch: seq<Mutation>) returns (changes: seq<Change>, d: Delta)
      requires CacheAgrees(cache, table)
      ensures changes == ChangesOf(RowsOf(table, chat), batch) && d == DeltaOf(RowsOf(table, chat), batch)
    {
      hide CacheAgrees, RowsOf, Lookup, NextValue;
      changes, d := [], Delta(0, 0, 0, 0);
      var i := 0;
      while i < |batch|
        invariant 0 <= i <= |batch|
        invariant changes == ChangesOf(RowsOf(table, chat), batch[..i])
        invariant d == DeltaOf(RowsOf(table, chat), batch[..i])
      {
        assert batch[..i + 1][..i] == batch[..i];
        var m := batch[i];
        var previous, next := Ask(chat, m);
        if previous != next {
          d := Delta(d.removedRows + CountOf(previous), d.addedRows + CountOf(next),
                     d.removedBytes + SizeOf(m.key, previous), d.addedBytes + SizeOf(m.key, next));
          changes := changes + [Change(m.key, next)];
        }
        i := i + 1;
      }
      assert batch[..i] == batch;
    }

    /** Replays committed changes on the cache, row by row. */
    method CacheChanges(chat: int, changes: seq<Change>, ghost t: Table)
      requires CacheAgrees(cache, t) && Tidy(cache)
      modifies this`cache
      ensures CacheAgrees(cache, t[chat := Applied(RowsOf(t, chat), changes)]) && Tidy(cache)
    {
      hide SetRow, CacheAgrees;
      var i := 0;
      ghost var now := t;
      while i < |changes|
        invariant 0 <= i <= |changes|
        invariant CacheAgrees(cache, now) && forall c :: c in cache && c != 0 && c != chat ==> cache[c] != []
        invariant RowsOf(now, chat) == Applied(RowsOf(t, chat), changes[..i])
        invariant forall c :: c != chat ==> RowsOf(now, c) == RowsOf(t, c)
      {
        assert changes[..i + 1][..i] == changes[..i];
        CacheSet(chat, changes[i].key, changes[i].next, now);
        now := now[chat := SetRow(RowsOf(now, chat), changes[i].key, changes[i].next)];
        i := i + 1;
      }
      assert changes[..i] == changes;
      CacheTidy(chat, now);
      SameRowsCacheAgrees(cache, now, t[chat := Applied(RowsOf(t, chat), changes)]);
    }

    /** Replays committed changes on the prefix index, key by key. */
    method IndexChanges(chat: int, changes: seq<Change>, ghost t: Table)
      requires IndexAgrees(index, t)
      modifies this`index
      ensures IndexAgrees(index, t[chat := Applied(RowsOf(t, chat), changes)])
    {
      hide SetRow, Reindex, IndexAgrees;
      var i := 0;
      ghost var now := t;
      while i < |changes|
        invariant 0 <= i <= |changes|
        invariant IndexAgrees(index, now)
        invariant RowsOf(now, chat) == Applied(RowsOf(t, chat), changes[..i])
        invariant forall c :: c != chat ==> RowsOf(now, c) == RowsOf(t, c)
      {
        assert changes[..i + 1][..i] == changes[..i];
        ReindexAgrees(index, now, chat, changes[i].key, changes[i].next);
        index := Reindex(index, chat, changes[i].key, changes[i].next.Some?);
        now := now[chat := SetRow(RowsOf(now, chat), changes[i].key, changes[i].next)];
        i := i + 1;
      }
      assert changes[..i] == changes;
      SameRowsIndexAgrees(index, now, t[chat := Applied(RowsOf(t, chat), changes)]);
    }

    /** The access hash text a batch leaves: from its own change of `hash`, or else from the stored row. */
    method HashText(chat: int, changes: seq<Change>) returns (text: Option<string>)
      requires CacheAgrees(cache, table)
      ensures text == Lookup(Applied(RowsOf(table, chat), changes), "hash")
    {
      text := Read(chat, "hash", table);
      var i := 0;
      while i < |changes|
        invariant 0 <= i <= |changes|
        invariant text == Lookup(Applied(RowsOf(table, chat), changes[..i]), "hash")
      {
        assert changes[..i + 1][..i] == changes[..i];
        SetRowLookup(Applied(RowsOf(table, chat), changes[..i]), changes[i].key, changes[i].next, "hash");
        if changes[i].key == "hash" {
          text := changes[i].next;
        }
        i := i + 1;
      }
      assert changes[..i] == changes;
    }

    /** Everything a batch decides before it touches the database. */
    method PlanBatch(chat: int, batch: seq<Mutation>) returns (plan: Result<Plan>)
      requires Agrees()
      ensures plan.Err? ==> BatchVerdict(limits, rules, table, chats, chat, batch) == Err(plan.error)
      ensures plan.Ok? ==>
                BatchVerdict(limits, rules, table, chats, chat, batch) == Ok(|plan.value.changes|) &&
                DistinctKeys(batch) && PlanFits(plan.value, table, chat, batch) &&
                (plan.value.changes != [] ==> settingBytes == plan.value.oldBytes) &&
                (plan.value.changes != [] && chat != 0 ==>
                   RequestedHash(rules, Target(RowsOf(table, chat), batch)) == Some(plan.value.hash))
    {
      var error := Validate(batch);
      if error.Some? {
        return Err(error.value);
      }
      AcceptedIffWellFormed(rules, batch);
      var changes, d := Survey(chat, batch);
      var oldRows := |Cached(cache, chat)|;
      ghost var current := RowsOf(table, chat);
      ghost var target := Target(current, batch);
      assert Sorted(Cached(cache, chat)) && Rows.Holds(Cached(cache, chat), current);
      LengthIsCount(Cached(cache, chat), current);
      PlanFacts(table, chat, batch);
      if changes == [] {
        return Ok(Plan([], oldRows, oldRows, settingBytes, settingBytes, 0));
      }
      var newRows := Minus(oldRows, d.removedRows) + d.addedRows;
      var globalRows := Minus(settingRows, d.removedRows) + d.addedRows;
      var newBytes := Minus(settingBytes, d.removedBytes) + d.addedBytes;
      assert newRows == |target| && globalRows == RowCount(table[chat := target]);
      assert newBytes == ByteCount(table[chat := target]);
      if newRows > MAX_SETTINGS_ROWS_PER_CHAT || Over(limits.maxRows, globalRows) {
        return Err(RowCapacity);
      }
      if Over(limits.maxBytes, newBytes) {
        return Err(ByteCapacity);
      }
      if !(chat == 0 || chat in durable) && newRows > 0 && Full(limits.maxChats, |durable|) {
        return Err(ChatCapacity);
      }
      var text := HashText(chat, changes);
      var hash := match text case None => Some(0) case Some(t) => rules.hash(t);
      if chat != 0 && hash == None {
        return Err(Database);
      }
      return Ok(Plan(changes, oldRows, newRows, settingBytes, newBytes, hash.GetOr(0)));
    }

    /** The database now holds what the batch asked of the rows and chats before it. */
    ghost predicate Landed(t: Table, registered: map<int, int>, chat: int, batch: seq<Mutation>)
      reads this
    {
      var target := Target(RowsOf(t, chat), batch);
      table == t[chat := target] && chats == Admit(registered, chat, RequestedHash(rules, target).GetOr(0))
    }

    /** What a committed batch does to the mirror; the table still holds the rows before it. */
    method MirrorBatch(chat: int, plan: Plan, ghost batch: seq<Mutation>)
      requires Agrees() && plan.changes != [] && DistinctKeys(batch) && PlanFits(plan, table, chat, batch)
      requires settingBytes == plan.oldBytes
      modifies this`cache, this`index, this`durable, this`settingRows, this`settingBytes
      ensures var after := table[chat := Target(RowsOf(table, chat), batch)];
              && CacheAgrees(cache, after) && Tidy(cache) && IndexAgrees(index, after)
              && settingRows == RowCount(after) && settingBytes == ByteCount(after)
      ensures durable == Admit(old(durable), chat, plan.hash)
    {
      hide CacheAgrees, IndexAgrees, Target, RowCount, ByteCount, DistinctKeys, Tidy;
      hide Applied, ChangesOf, DeltaOf, Differing, Bytes, RowsOf;
      PlanFacts(table, chat, batch);
      SetChat(table, chat, Target(RowsOf(table, chat), batch));
      CacheChanges(chat, plan.changes, table);
      IndexChanges(chat, plan.changes, table);
      settingRows := if plan.newRows >= plan.oldRows then settingRows + (plan.newRows - plan.oldRows)
                     else Minus(settingRows, plan.oldRows - plan.newRows);
      settingBytes := if plan.newBytes >= plan.oldBytes then settingBytes + (plan.newBytes - plan.oldBytes)
                      else Minus(settingBytes, plan.oldBytes - plan.newBytes);
      if chat != 0 {
        durable := durable[chat := if plan.hash == 0 && chat in durable then durable[chat] else plan.hash];
      }
    }

    /** The write phase of a batch whose checks passed. */
    method CommitBatch(chat: int, plan: Plan, ghost batch: seq<Mutation>, outcome: Outcome) returns (r: Result<nat>)
      requires Agrees() && alive && plan.changes != [] && DistinctKeys(batch) && PlanFits(plan, table, chat, batch)
      requires settingBytes == plan.oldBytes
      requires chat != 0 ==> RequestedHash(rules, Target(RowsOf(table, chat), batch)) == Some(plan.hash)
      modifies this
      ensures r == match outcome
                   case Completes => Ok(|plan.changes|)
                   case StatementFails => Err(Database)
                   case CommitUnknown(_) => Err(CommitUncertain)
      ensures alive <==> !outcome.CommitUnknown?
      ensures alive ==> Agrees()
      ensures if outcome.Completes? || (outcome.CommitUnknown? && outcome.applied)
              then Landed(old(table), old(chats), chat, batch)
              else table == old(table) && chats == old(chats)
      ensures !outcome.Completes? ==>
                SameMirror(old(cache), old(index), old(durable), old(settingRows), old(settingBytes))
    {
      hide CacheAgrees, IndexAgrees, Target, RowCount, ByteCount, DistinctKeys, Tidy, RequestedHash;
      hide Applied, ChangesOf, PutAll, DeleteAll, Admit;
      if outcome.StatementFails? {
        return Err(Database);
      }
      AppliedIsTarget(RowsOf(table, chat), batch);
      StatementsAreApplied(RowsOf(table, chat), plan.changes);
      AdmitZero();
      var stored := table[chat := DeleteAll(PutAll(RowsOf(table, chat), plan.changes), plan.changes)];
      var registered := Admit(chats, chat, plan.hash);
      if outcome.CommitUnknown? {
        if outcome.applied {
          table, chats := stored, registered;
        }
        alive := false;
        return Err(CommitUncertain);
      }
      MirrorBatch(chat, plan, batch);
      table, chats := stored, registered;
      r := Ok(|plan.changes|);
    }

    /** One batch for one chat: all of it or nothing, in the table and in the mirror alike. */
    method TryApplyBatch(chat: int, batch: seq<Mutation>, outcome: Outcome) returns (r: Result<nat>)
      requires Valid()
      modifies this
      ensures Valid()
      ensures var verdict := BatchVerdict(limits, rules, old(table), old(chats), chat, batch);
              r == if !old(alive) then Err(UncertainState)
                   else if verdict.Err? || verdict == Ok(0) || outcome.Completes? then verdict
                   else if outcome.StatementFails? then Err(Database) else Err(CommitUncertain)
      // accepted: the table holds the batch, its chat is registered, and the mirror shows it
      ensures r.Ok? ==> alive && Done(RowsOf(old(table), chat), RowsOf(table, chat), batch)
      ensures r.Ok? ==> r.value == |Differing(RowsOf(old(table), chat), RowsOf(table, chat))|
      ensures r.Ok? && r.value > 0 ==> Written(old(table), old(chats), chat, batch)
      // refused, or nothing to do: nothing changes anywhere
      ensures r == Ok(0) || (r.Err? && r.error != CommitUncertain) ==>
                table == old(table) && chats == old(chats) && alive == old(alive)
      // unknown: the gate closes, and the table took all of the batch or none of it
      ensures r == Err(CommitUncertain) ==>
                !alive && (Written(old(table), old(chats), chat, batch) || (table == old(table) && chats == old(chats)))
      ensures r == Ok(0) || r.Err? ==>
                SameMirror(old(cache), old(index), old(durable), old(settingRows), old(settingBytes))
    {
      hide Agrees, Capped, Owned, BatchVerdict, Target, RequestedHash;
      if !alive {
        return Err(UncertainState);
      }
      var planned := PlanBatch(chat, batch);
      if planned.Err? {
        BatchErrors(limits, rules, table, chats, chat, batch);
        return Err(planned.error);
      }
      VerdictCounts(limits, rules, table, chats, chat, batch);
      if planned.value.changes == [] {
        return Ok(0);
      }
      BatchKeepsCaps(limits, rules, table, chats, chat, batch);
      ghost var before, registered := table, chats;
      r := CommitBatch(chat, planned.value, batch, outcome);
      if Landed(before, registered, chat, batch) {
        LandedIsWritten(before, registered, chat, batch);
      }
    }

    /** The table and the chats after a batch, said of the rows alone. */
    ghost predicate Written(t: Table, registered: map<int, int>, chat: int, batch: seq<Mutation>)
      reads this
    {
      && table == t[chat := RowsOf(table, chat)] && Done(RowsOf(t, chat), RowsOf(table, chat), batch)
      && chats == Registered(rules, registered, chat, RowsOf(table, chat))
    }

    lemma LandedIsWritten(t: Table, registered: map<int, int>, chat: int, batch: seq<Mutation>)
      requires DistinctKeys(batch) && Landed(t, registered, chat, batch)
      ensures Written(t, registered, chat, batch) && RowsOf(table, chat) == Target(RowsOf(t, chat), batch)
    {
      hide Target, Done, RequestedHash, Registered, Admit;
      BatchGrantsAll(RowsOf(t, chat), batch, Target(RowsOf(t, chat), batch));
      RegisteredIsAdmit(rules, registered, chat, Target(RowsOf(t, chat), batch));
    }

    // -------------------------------------------------------------- one flag for many chats

    /** The listed chats, ascending and without repetitions. */
    method SortedUnique(listed: seq<int>) returns (ids: seq<int>)
      ensures Increasing(ids) && forall chat :: chat in ids <==> chat in listed
    {
      ids := [];
      var i := 0;
      while i < |listed|
        invariant 0 <= i <= |listed|
        invariant Increasing(ids) && forall chat :: chat in ids <==> chat in listed[..i]
      {
        var at := 0;
        while at < |ids| && ids[at] < listed[i]
          invariant 0 <= at <= |ids| && forall j :: 0 <= j < at ==> ids[j] < listed[i]
        {
          at := at + 1;
        }
        if at == |ids| || ids[at] != listed[i] {
          ghost var before := ids;
          ids := ids[..at] + [listed[i]] + ids[at..];
          assert forall chat :: chat in ids <==> chat in before || chat == listed[i];
        }
        i := i + 1;
      }
      assert listed[..i] == listed;
    }

    /** What one more chat needs, or why it cannot have it. */
    method ProjectNext(key: string, now: Projection, chat: int) returns (p: Result<Projection>)
      requires CacheAgrees(cache, table) && durable == chats
      ensures p == ProjectOne(limits, table, chats, key, now, chat)
    {
      hide Sorted, Rows.Holds, RowsOf;
      assert Sorted(Cached(cache, chat)) && Rows.Holds(Cached(cache, chat), RowsOf(table, chat));
      LengthIsCount(Cached(cache, chat), RowsOf(table, chat));
      var existing := Read(chat, key, table);
      if existing != None {
        return Ok(now);
      }
      var isNew := !(chat == 0 || chat in durable);
      if |Cached(cache, chat)| >= MAX_SETTINGS_ROWS_PER_CHAT || Full(limits.maxRows, now.rows) {
        return Err(RowCapacity);
      }
      if isNew && Full(limits.maxChats, now.chats) {
        return Err(ChatCapacity);
      }
      if Over(limits.maxBytes, now.bytes + SettingSize(key, "")) {
        return Err(ByteCapacity);
      }
      p := Ok(Projection(now.rows + 1, now.bytes + SettingSize(key, ""), now.chats + if isNew then 1 else 0));
    }

    /** Looks through the chats in order and adds up what the write will need. */
    method ProjectFlags(key: string, ids: seq<int>) returns (p: Result<Projection>)
      requires Agrees()
      ensures p == Project(limits, table, chats, key, Totals(table, chats), ids)
    {
      hide CacheAgrees, Tidy, IndexAgrees, RowCount, ByteCount, ProjectOne;
      p := Ok(Projection(settingRows, settingBytes, |durable|));
      var i := 0;
      while i < |ids|
        invariant 0 <= i <= |ids|
        invariant p.Ok? && p == Project(limits, table, chats, key, Totals(table, chats), ids[..i])
      {
        assert ids[..i + 1][..i] == ids[..i];
        p := ProjectNext(key, p.value, ids[i]);
        if p.Err? {
          ProjectErrorStays(limits, table, chats, key, Totals(table, chats), ids, i + 1);
          return;
        }
        i := i + 1;
      }
      assert ids[..i] == ids;
    }

    /** Sets or clears one cached flag and keeps the totals true. */
    method FlagOne(chat: int, key: string, on: bool, existing: Option<string>, ghost t: Table)
      requires CacheAgrees(cache, t) && Tidy(cache) && settingRows == RowCount(t) && settingBytes == ByteCount(t)
      requires existing == Lookup(RowsOf(t, chat), key) && existing != FlagNext(on)
      modifies this`cache, this`settingRows, this`settingBytes
      ensures var after := t[chat := SetRow(RowsOf(t, chat), key, FlagNext(on))];
              CacheAgrees(cache, after) && Tidy(cache) && settingRows == RowCount(after) && settingBytes == ByteCount(after)
    {
      hide CacheAgrees, RowCount, ByteCount, Bytes, SetRow;
      SetRowCounts(RowsOf(t, chat), key, FlagNext(on));
      SetChat(t, chat, SetRow(RowsOf(t, chat), key, FlagNext(on)));
      ChatCounts(t, chat);
      CacheSet(chat, key, FlagNext(on), t);
      if on {
        var oldBytes, newBytes := SizeOf(key, existing), SettingSize(key, "");
        if existing == None {
          settingRows := settingRows + 1;
        }
        settingBytes := if newBytes >= oldBytes then settingBytes + (newBytes - oldBytes)
                        else Minus(settingBytes, oldBytes - newBytes);
      } else {
        settingRows := Minus(settingRows, 1);
        settingBytes := Minus(settingBytes, SettingSize(key, existing.value));
      }
      CacheTidy(chat, t[chat := SetRow(RowsOf(t, chat), key, FlagNext(on))]);
    }

    method FlagCache(key: string, on: bool, ids: seq<int>) returns (touched: set<int>, changed: nat)
      requires Agrees() && Increasing(ids)
      modifies this`cache, this`settingRows, this`settingBytes
      ensures var after := Flag(table, key, on, ids);
              CacheAgrees(cache, after) && Tidy(cache) && settingRows == RowCount(after) && settingBytes == ByteCount(after)
      ensures changed == FlagChanges(table, key, on, ids)
      ensures forall chat :: chat in touched ==> chat in ids
      ensures forall chat :: chat in ids && chat !in touched ==> Lookup(RowsOf(table, chat), key) == FlagNext(on)
    {
      hide CacheAgrees, RowCount, ByteCount, SetRow, Tidy, IndexAgrees, RowsOf, Lookup, Flag, FlagChanges;
      FlagStep(table, key, on, ids);
      touched, changed := {}, 0;
      var i := 0;
      while i < |ids|
        invariant 0 <= i <= |ids|
        invariant var now := Flag(table, key, on, ids[..i]);
                  CacheAgrees(cache, now) && Tidy(cache) && settingRows == RowCount(now) && settingBytes == ByteCount(now)
        invariant changed == FlagChanges(table, key, on, ids[..i])
        invariant forall chat :: chat in touched ==> chat in ids[..i]
        invariant forall chat :: chat in ids[..i] && chat !in touched ==> Lookup(RowsOf(table, chat), key) == FlagNext(on)
      {
        assert ids[..i + 1][..i] == ids[..i];
        ghost var now := Flag(table, key, on, ids[..i]);
        FlagMeaning(table, key, on, ids[..i], ids[i]);
        var existing := Read(ids[i], key, now);
        if existing == FlagNext(on) {
          FlagNothing(now, key, on, ids[i]);
          SameRowsCacheAgrees(cache, now, Flag(table, key, on, ids[..i + 1]));
        } else {
          FlagOne(ids[i], key, on, existing, now);
          touched, changed := touched + {ids[i]}, changed + 1;
        }
        i := i + 1;
      }
      assert ids[..i] == ids;
    }

    method FlagIndex(key: string, on: bool, ids: seq<int>, touched: set<int>)
      requires IndexAgrees(index, table) && Increasing(ids)
      requires forall chat :: chat in ids && chat !in touched ==> Lookup(RowsOf(table, chat), key) == FlagNext(on)
      modifies this`index
      ensures IndexAgrees(index, Flag(table, key, on, ids))
    {
      hide IndexAgrees, RowCount, ByteCount, SetRow, RowsOf, Lookup, Reindex;
      var i := 0;
      while i < |ids|
        invariant 0 <= i <= |ids|
        invariant IndexAgrees(index, Flag(table, key, on, ids[..i]))
      {
        assert ids[..i + 1][..i] == ids[..i];
        ghost var now := Flag(table, key, on, ids[..i]);
        FlagMeaning(table, key, on, ids[..i], ids[i]);
        if ids[i] in touched {
          ReindexAgrees(index, now, ids[i], key, FlagNext(on));
          index := Reindex(index, ids[i], key, on);
        } else {
          FlagNothing(now, key, on, ids[i]);
          SameRowsIndexAgrees(index, now, Flag(table, key, on, ids[..i + 1]));
        }
        i := i + 1;
      }
      assert ids[..i] == ids;
    }

    /** What the upsert into the chat table returns, or `None` if a stored hash is no number. */
    method RegisterAll(ids: seq<int>) returns (registered: Option<map<int, int>>)
      ensures registered == AdmitAll(rules, table, chats, ids)
    {
      registered := Some(chats);
      var i := 0;
      while i < |ids|
        invariant 0 <= i <= |ids|
        invariant registered == AdmitAll(rules, table, chats, ids[..i])
      {
        assert ids[..i + 1][..i] == ids[..i];
        if registered.Some? && ids[i] != 0 {
          var hash := RequestedHash(rules, RowsOf(table, ids[i]));
          registered := if hash == None then None else Some(Admit(registered.value, ids[i], hash.value));
        }
        i := i + 1;
      }
      assert ids[..i] == ids;
    }

    /** The table and the chats hold the flag write. */
    ghost predicate Flagged(t: Table, registered: map<int, int>, key: string, on: bool, ids: seq<int>)
      reads this
    {
      table == Flag(t, key, on, ids) &&
      chats == if on then AdmitAll(rules, t, registered, ids).GetOr(registered) else registered
    }

    method CommitFlags(key: string, on: bool, ids: seq<int>, outcome: Outcome) returns (r: Result<nat>)
      requires Agrees() && alive && Increasing(ids)
      requires on ==> AdmitAll(rules, table, chats, ids).Some?
      modifies this
      ensures r == match outcome
                   case Completes => Ok(FlagChanges(old(table), key, on, ids))
                   case StatementFails => Err(Database)
                   case CommitUnknown(_) => Err(CommitUncertain)
      ensures alive <==> !outcome.CommitUnknown?
      ensures alive ==> Agrees()
      ensures if outcome.Completes? || (outcome.CommitUnknown? && outcome.applied)
              then Flagged(old(table), old(chats), key, on, ids)
              else table == old(table) && chats == old(chats)
      ensures !outcome.Completes? ==>
                SameMirror(old(cache), old(index), old(durable), old(settingRows), old(settingBytes))
    {
      hide CacheAgrees, IndexAgrees, RowCount, ByteCount, Tidy, Flag, AdmitAll, FlagChanges;
      if outcome.StatementFails? {
        return Err(Database);
      }
      var registered := chats;
      if on {
        var all := RegisterAll(ids);
        registered := all.value;
      }
      var stored := Flag(table, key, on, ids);
      if outcome.CommitUnknown? {
        if outcome.applied {
          table, chats := stored, registered;
        }
        alive := false;
        return Err(CommitUncertain);
      }
      var touched, changed := FlagCache(key, on, ids);
      FlagIndex(key, on, ids, touched);
      durable, table, chats := registered, stored, registered;
      r := Ok(changed);
    }

    /** Sets or clears one flag in many chats: in all of them or in none. */
    method SetFlags(listed: seq<int>, key: string, on: bool, outcome: Outcome) returns (r: Result<nat>, ghost ids: seq<int>)
      requires Valid()
      modifies this
      ensures Valid()
      ensures Increasing(ids) && forall chat :: chat in ids <==> chat in listed
      ensures var verdict := FlagVerdict(limits, rules, old(table), old(chats), key, on, ids, Totals(old(table), old(chats)));
              r == if !old(alive) then Err(UncertainState)
                   else if verdict.Err? || ids == [] then verdict
                   else match outcome
                        case Completes => verdict
                        case StatementFails => Err(Database)
                        case CommitUnknown(_) => Err(CommitUncertain)
      // accepted: the flag is set or cleared in the listed chats and nowhere else, and the chats it is set in are registered
      ensures r.Ok? ==> alive && FlagDone(old(table), table, key, on, listed) && r.value == |Changed(old(table), table, ids)|
      ensures r.Ok? ==> RegisteredIn(rules, old(table), old(chats), chats, on, ids)
      ensures r.Ok? && ids != [] ==> Flagged(old(table), old(chats), key, on, ids)
      ensures ids == [] || (r.Err? && r.error != CommitUncertain) ==>
                table == old(table) && chats == old(chats) && alive == old(alive)
      ensures r == Err(CommitUncertain) ==>
                !alive && (Flagged(old(table), old(chats), key, on, ids) || (table == old(table) && chats == old(chats)))
      ensures r.Err? ==> SameMirror(old(cache), old(index), old(durable), old(settingRows), old(settingBytes))
    {
      hide Agrees, Capped, Owned, Flag, FlagChanges, AdmitAll, Project, Increasing;
      var sorted := SortedUnique(listed);
      ids := sorted;
      ProjectErrors(limits, table, chats, key, Totals(table, chats), ids);
      if !alive {
        return Err(UncertainState), ids;
      }
      if ByteLength(key) > MAX_SETTING_KEY_BYTES {
        return Err(KeyTooLarge), ids;
      }
      if on && !rules.valid(key, "") {
        return Err(InvalidValue), ids;
      }
      FlaggedMeans(rules, table, chats, key, on, ids, listed);
      if sorted == [] {
        return Ok(0), ids;
      }
      if on {
        var p := ProjectFlags(key, sorted);
        if p.Err? {
          return Err(p.error), ids;
        }
        var registered := RegisterAll(sorted);
        if registered == None {
          return Err(Database), ids;
        }
      }
      FlagKeepsCaps(limits, rules, table, chats, key, on, ids);
      r := CommitFlags(key, on, sorted, outcome);
    }

    // -------------------------------------------------------------- a whole chat

    method ForgetTotals(chat: int)
      requires Agrees()
      modifies this`settingRows, this`settingBytes
      ensures settingRows == RowCount(table - {chat}) && settingBytes == ByteCount(table - {chat})
    {
      hide RowCount, ByteCount, IndexAgrees, Tidy, Bytes, Sorted, Rows.Holds;
      BytesOfNone();
      DropChat(table, chat);
      ForgetAgrees(cache, index, table, chat);
      if chat in cache {
        var bytes := RowBytes(cache[chat], RowsOf(table, chat));
        settingRows := Minus(settingRows, |cache[chat]|);
        settingBytes := Minus(settingBytes, bytes);
      }
    }

    method MirrorForget(chat: int)
      requires Agrees()
      modifies this`cache, this`index, this`durable, this`settingRows, this`settingBytes
      ensures var after := table - {chat};
              && CacheAgrees(cache, after) && Tidy(cache) && IndexAgrees(index, after)
              && settingRows == RowCount(after) && settingBytes == ByteCount(after)
      ensures durable == old(durable) - {chat}
    {
      hide RowCount, ByteCount, CacheAgrees, IndexAgrees, Tidy, RowsOf, Sorted, Rows.Holds;
      ForgetAgrees(cache, index, table, chat);
      ForgetTotals(chat);
      cache, index, durable := cache - {chat}, index - {chat}, durable - {chat};
    }

    /** Removes a chat that carries `marker`, and everything counted for it. */
    method ForgetChat(chat: int, marker: string, outcome: Outcome) returns (r: Result<bool>)
      requires Valid()
      modifies this
      ensures Valid()
      ensures r == if chat == 0 then Ok(false)
                   else if !old(alive) then Err(UncertainState)
                   else match outcome
                        case StatementFails => Err(Database)
                        case _ =>
                          if marker !in RowsOf(old(table), chat) then Ok(false)
                          else if outcome.Completes? then Ok(true)
                          else Err(CommitUncertain)
      ensures r == Ok(true) ==> alive && table == old(table) - {chat} && chats == old(chats) - {chat}
      ensures r == Ok(false) || (r.Err? && r.error != CommitUncertain) ==>
                table == old(table) && chats == old(chats) && alive == old(alive)
      ensures r == Err(CommitUncertain) ==>
                !alive &&
                ((table == old(table) - {chat} && chats == old(chats) - {chat}) ||
                 (table == old(table) && chats == old(chats)))
      ensures r != Ok(true) ==> SameMirror(old(cache), old(index), old(durable), old(settingRows), old(settingBytes))
    {
      hide Capped, Owned, RowCount, ByteCount, CacheAgrees, IndexAgrees, Tidy;
      if chat == 0 {
        return Ok(false);
      }
      if !alive {
        return Err(UncertainState);
      }
      if outcome.StatementFails? {
        return Err(Database);
      }
      if marker !in RowsOf(table, chat) {
        return Ok(false);
      }
      ForgetKeepsCaps(limits, table, chats, chat);
      if outcome.CommitUnknown? {
        if outcome.applied {
          table, chats := table - {chat}, chats - {chat};
        }
        alive := false;
        return Err(CommitUncertain);
      }
      MirrorForget(chat);
      table, chats := table - {chat}, chats - {chat};
      r := Ok(true);
    }
  }

  lemma {:induction false} ProjectErrorStays(
    limits: Limits, t: Table, chats: map<int, int>, key: string, p: Projection, ids: seq<int>, n: nat)
    requires n <= |ids| && Project(limits, t, chats, key, p, ids[..n]).Err?
    ensures Project(limits, t, chats, key, p, ids) == Project(limits, t, chats, key, p, ids[..n])
    decreases |ids|
  {
    hide ProjectOne;
    if n < |ids| {
      var m := |ids| - 1;
      assert ids[..m][..n] == ids[..n];
      ProjectErrorStays(limits, t, chats, key, p, ids[..m], n);
    } else {
      assert ids[..n] == ids;
    }
  }

  lemma {:induction false} ProjectErrors(
    limits: Limits, t: Table, chats: map<int, int>, key: string, p: Projection, ids: seq<int>)
    ensures Project(limits, t, chats, key, p, ids) != Err(CommitUncertain)
    ensures Project(limits, t, chats, key, p, ids) != Err(UncertainState)
  {
    if ids != [] {
      ProjectErrors(limits, t, chats, key, p, ids[..|ids| - 1]);
    }
  }

  lemma FlagStep(t: Table, key: string, on: bool, ids: seq<int>)
    ensures Flag(t, key, on, []) == t && FlagChanges(t, key, on, []) == 0
    ensures forall i :: 0 <= i < |ids| ==>
              var before := Flag(t, key, on, ids[..i]);
              && Flag(t, key, on, ids[..i + 1]) == before[ids[i] := SetRow(RowsOf(before, ids[i]), key, FlagNext(on))]
              && FlagChanges(t, key, on, ids[..i + 1])
                 == FlagChanges(t, key, on, ids[..i]) + if Lookup(RowsOf(t, ids[i]), key) == FlagNext(on) then 0 else 1
  {
    forall i | 0 <= i < |ids| ensures ids[..i + 1][..i] == ids[..i] {
    }
  }

  /** A flag that is already as asked changes no rows and no totals. */
  lemma FlagNothing(t: Table, key: string, on: bool, chat: int)
    requires Lookup(RowsOf(t, chat), key) == FlagNext(on)
    ensures var after := t[chat := SetRow(RowsOf(t, chat), key, FlagNext(on))];
            && (forall c :: RowsOf(after, c) == RowsOf(t, c))
            && RowCount(after) == RowCount(t) && ByteCount(after) == ByteCount(t)
  {
    hide RowCount, ByteCount;
    SetRowSame(RowsOf(t, chat), key);
    SetChat(t, chat, RowsOf(t, chat));
  }

  function RowSize(row: Row): nat {
    SettingSize(row.key, row.value)
  }

  /** A sorted vector without its last row holds the map without that key, and that row's bytes less. */
  lemma DropLastRow(rows: seq<Row>, m: map<string, string>)
    requires rows != [] && Sorted(rows) && Rows.Holds(rows, m)
    ensures var front, last := rows[..|rows| - 1], rows[|rows| - 1];
      Sorted(front) && Rows.Holds(front, m - {last.key}) && Bytes(m) == Bytes(m - {last.key}) + RowSize(last)
  {
    hide Before, Bytes, SettingSize;
    var at := |rows| - 1;
    assert Rows.At(rows, rows[at].key, at, true);
    DeleteIsRemoval(rows, m, rows[at].key, at);
    assert Rows.Delete(rows, at) == rows[..at];
    SetRowCounts(m, rows[at].key, None);
    assert rows[at].key in m && m[rows[at].key] == rows[at].value;
  }

  lemma NoRowsNoKeys(m: map<string, string>)
    requires Rows.Holds([], m)
    ensures m == map[]
  {
    LengthIsCount([], m);
  }

  /** The bytes of one cached vector. */
  method RowBytes(rows: seq<Row>, ghost m: map<string, string>) returns (bytes: nat)
    requires Sorted(rows) && Rows.Holds(rows, m)
    ensures bytes == Bytes(m) && |rows| == |m|
  {
    hide Sorted, Rows.Holds, Bytes, SettingSize;
    LengthIsCount(rows, m);
    BytesOfNone();
    bytes := 0;
    var i := |rows|;
    ghost var left := m;
    assert rows[..i] == rows;
    while i > 0
      invariant 0 <= i <= |rows|
      invariant Sorted(rows[..i]) && Rows.Holds(rows[..i], left) && bytes + Bytes(left) == Bytes(m)
    {
      DropLastRow(rows[..i], left);
      i := i - 1;
      assert rows[..i + 1][..i] == rows[..i];
      bytes := bytes + SettingSize(rows[i].key, rows[i].value);
      left := left - {rows[i].key};
    }
    NoRowsNoKeys(left);
  }

  lemma ForgetAgrees(cache: Cache, index: Index, t: Table, chat: int)
    requires CacheAgrees(cache, t) && Tidy(cache) && IndexAgrees(index, t)
    ensures CacheAgrees(cache - {chat}, t - {chat}) && Tidy(cache - {chat}) && IndexAgrees(index - {chat}, t - {chat})
    ensures chat in cache ==> Sorted(cache[chat]) && Rows.Holds(cache[chat], RowsOf(t, chat))
    ensures chat !in cache ==> RowsOf(t, chat) == map[]
  {
    assert Sorted(Cached(cache, chat)) && Rows.Holds(Cached(cache, chat), RowsOf(t, chat));
    forall c ensures Sorted(Cached(cache - {chat}, c)) && Rows.Holds(Cached(cache - {chat}, c), RowsOf(t - {chat}, c)) {
      assert Sorted(Cached(cache, c)) && Rows.Holds(Cached(cache, c), RowsOf(t, c));
    }
    forall c, slot | 0 <= slot < |INDEXED|
      ensures Lists(ListOf(index - {chat}, c, slot), INDEXED[slot], RowsOf(t - {chat}, c))
    {
      assert Lists(ListOf(index, c, slot), INDEXED[slot], RowsOf(t, c));
    }
    if chat !in cache {
      LengthIsCount([], RowsOf(t, chat));
    }
  }

  lemma SameRowsCacheAgrees(cache: Cache, a: Table, b: Table)
    requires CacheAgrees(cache, a) && forall chat :: RowsOf(a, chat) == RowsOf(b, chat)
    ensures CacheAgrees(cache, b)
  {
    forall chat ensures Sorted(Cached(cache, chat)) && Rows.Holds(Cached(cache, chat), RowsOf(b, chat)) {
      assert RowsOf(a, chat) == RowsOf(b, chat);
    }
  }

  lemma SameRowsIndexAgrees(index: Index, a: Table, b: Table)
    requires IndexAgrees(index, a) && forall chat :: RowsOf(a, chat) == RowsOf(b, chat)
    ensures IndexAgrees(index, b)
  {
    forall chat, slot | 0 <= slot < |INDEXED| ensures Lists(ListOf(index, chat, slot), INDEXED[slot], RowsOf(b, chat)) {
      assert RowsOf(a, chat) == RowsOf(b, chat);
    }
  }
}
