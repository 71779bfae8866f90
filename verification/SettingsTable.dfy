/**
 What the settings writers of src/state.rs mean for the `settings` and `durable_chats` tables, apart from any cache:
 the rows a batch of mutations asks for, how they are counted, and when a write is refused.
 */
module SettingsTable {
  import opened MapSum
  import opened Options
  import opened Rows
  import Utf8

  const MAX_SETTINGS_ROWS_PER_CHAT: nat := 512
  const MAX_SETTING_KEY_BYTES: nat := 512
  const MAX_SETTING_VALUE_BYTES: nat := 16 * 1024

  /** The settings table, grouped by chat. */
  type Table = map<int, map<string, string>>

  datatype Limits = Limits(maxChats: Option<nat>, maxRows: Option<nat>, maxBytes: Option<nat>)

  /** Which values a key accepts, and the number a stored access hash stands for. */
  datatype Rules = Rules(valid: (string, string) -> bool, hash: string -> Option<int>)

  datatype Mutation =
    | Put(key: string, value: string)
    | PutIfEmpty(key: string, value: string, conditionKey: string)
    | Delete(key: string)

  datatype WriteError =
    | UncertainState
    | KeyTooLarge
    | ValueTooLarge
    | DuplicateKey
    | InvalidValue
    | RowCapacity
    | ByteCapacity
    | ChatCapacity
    | Database
    | CommitUncertain

  datatype Result<+T> = Ok(value: T) | Err(error: WriteError)

  // ---------------------------------------------------------------- sizes

  /** The UTF-8 length of a string. */
  function ByteLength(s: string): nat {
    if s == "" then 0 else ByteLength(s[..|s| - 1]) + |Utf8.Bytes(s[|s| - 1])|
  }

  function SettingSize(key: string, value: string): nat {
    ByteLength(key) + ByteLength(value)
  }

  function RowsOf(t: Table, chat: int): map<string, string> {
    if chat in t then t[chat] else map[]
  }

  ghost function Sizes(rows: map<string, string>): map<string, nat> {
    map key | key in rows :: SettingSize(key, rows[key])
  }

  ghost function Bytes(rows: map<string, string>): nat {
    Sum(Sizes(rows))
  }

  ghost function Counts(t: Table): map<int, nat> {
    map chat | chat in t :: |t[chat]|
  }

  ghost function ByteCounts(t: Table): map<int, nat> {
    map chat | chat in t :: Bytes(t[chat])
  }

  ghost function RowCount(t: Table): nat {
    Sum(Counts(t))
  }

  ghost function ByteCount(t: Table): nat {
    Sum(ByteCounts(t))
  }

  lemma BytesOfNone()
    ensures Bytes(map[]) == 0
  {
    assert Sizes(map[]) == map[];
  }

  lemma SetChatRows(t: Table, chat: int, rows: map<string, string>)
    ensures RowCount(t[chat := rows]) + |RowsOf(t, chat)| == RowCount(t) + |rows|
  {
    hide Sum;
    SumUpdate(Counts(t), chat, |rows|);
    assert Counts(t[chat := rows]) == Counts(t)[chat := |rows|];
  }

  lemma SetChatBytes(t: Table, chat: int, rows: map<string, string>)
    ensures ByteCount(t[chat := rows]) + Bytes(RowsOf(t, chat)) == ByteCount(t) + Bytes(rows)
  {
    hide Bytes, Sum;
    BytesOfNone();
    SumUpdate(ByteCounts(t), chat, Bytes(rows));
    assert ByteCounts(t[chat := rows]) == ByteCounts(t)[chat := Bytes(rows)];
  }

  lemma SetChat(t: Table, chat: int, rows: map<string, string>)
    ensures RowCount(t[chat := rows]) + |RowsOf(t, chat)| == RowCount(t) + |rows|
    ensures ByteCount(t[chat := rows]) + Bytes(RowsOf(t, chat)) == ByteCount(t) + Bytes(rows)
  {
    hide RowCount, ByteCount, RowsOf, Bytes;
    SetChatRows(t, chat, rows);
    SetChatBytes(t, chat, rows);
  }

  lemma ChatCounts(t: Table, chat: int)
    ensures |RowsOf(t, chat)| <= RowCount(t)
    ensures Bytes(RowsOf(t, chat)) <= ByteCount(t)
  {
    hide Bytes, Sum;
    BytesOfNone();
    SumAtLeast(Counts(t), chat);
    SumAtLeast(ByteCounts(t), chat);
  }

  lemma DropChat(t: Table, chat: int)
    ensures RowCount(t - {chat}) + |RowsOf(t, chat)| == RowCount(t)
    ensures ByteCount(t - {chat}) + Bytes(RowsOf(t, chat)) == ByteCount(t)
  {
    hide Bytes, RowCount, ByteCount;
    BytesOfNone();
    if chat in t {
      SetChat(t - {chat}, chat, t[chat]);
      assert (t - {chat})[chat := t[chat]] == t;
    } else {
      assert t - {chat} == t;
    }
  }

  // ---------------------------------------------------------------- one changed row

  function Lookup(rows: map<string, string>, key: string): Option<string> {
    if key in rows then Some(rows[key]) else None
  }

  function SetRow(rows: map<string, string>, key: string, next: Option<string>): map<string, string> {
    match next
    case Some(value) => rows[key := value]
    case None => rows - {key}
  }

  function CountOf(value: Option<string>): nat {
    if value.Some? then 1 else 0
  }

  function SizeOf(key: string, value: Option<string>): nat {
    if value.Some? then SettingSize(key, value.value) else 0
  }

  lemma SetRowLookup(rows: map<string, string>, key: string, next: Option<string>, k: string)
    ensures Lookup(SetRow(rows, key, next), k) == if k == key then next else Lookup(rows, k)
  {
  }

  lemma PutRowCounts(rows: map<string, string>, key: string, value: string)
    ensures |rows[key := value]| + CountOf(Lookup(rows, key)) == |rows| + 1
    ensures Bytes(rows[key := value]) + SizeOf(key, Lookup(rows, key)) == Bytes(rows) + SettingSize(key, value)
  {
    hide SettingSize, Sum;
    SumUpdate(Sizes(rows), key, SettingSize(key, value));
    assert Sizes(rows[key := value]) == Sizes(rows)[key := SettingSize(key, value)];
  }

  lemma SetRowCounts(rows: map<string, string>, key: string, next: Option<string>)
    ensures |SetRow(rows, key, next)| + CountOf(Lookup(rows, key)) == |rows| + CountOf(next)
    ensures Bytes(SetRow(rows, key, next)) + SizeOf(key, Lookup(rows, key)) == Bytes(rows) + SizeOf(key, next)
  {
    hide SettingSize, Bytes;
    if next.Some? {
      PutRowCounts(rows, key, next.value);
    } else if key in rows {
      PutRowCounts(rows - {key}, key, rows[key]);
      assert rows == (rows - {key})[key := rows[key]];
    } else {
      assert rows - {key} == rows;
    }
  }

  // ---------------------------------------------------------------- what a batch asks for

  /** The value one mutation wants for its key. Conditions look at the rows before the batch, never at its own writes. */
  function NextValue(current: map<string, string>, m: Mutation): Option<string> {
    match m
    case Put(_, value) => Some(value)
    case PutIfEmpty(key, value, conditionKey) =>
      if conditionKey !in current || current[conditionKey] == "" then Some(value) else Lookup(current, key)
    case Delete(_) => None
  }

  predicate DistinctKeys(batch: seq<Mutation>) {
    forall i, j :: 0 <= i < j < |batch| ==> batch[i].key != batch[j].key
  }

  /** The rows a batch leads to, and the number of keys it changes: what the loop over the mutations collects. */
  function Target(current: map<string, string>, batch: seq<Mutation>): map<string, string> {
    if batch == [] then current
    else
      var last := batch[|batch| - 1];
      SetRow(Target(current, batch[..|batch| - 1]), last.key, NextValue(current, last))
  }

  function Changes(current: map<string, string>, batch: seq<Mutation>): nat {
    if batch == [] then 0
    else
      var last := batch[|batch| - 1];
      Changes(current, batch[..|batch| - 1]) + if NextValue(current, last) == Lookup(current, last.key) then 0 else 1
  }

  /** A key no mutation names keeps its value; a key some mutation names gets what that mutation asks for. */
  lemma {:induction false} TargetMeaning(current: map<string, string>, batch: seq<Mutation>, key: string)
    requires DistinctKeys(batch)
    ensures (forall m :: m in batch ==> m.key != key) ==> Lookup(Target(current, batch), key) == Lookup(current, key)
    ensures forall m :: m in batch && m.key == key ==> Lookup(Target(current, batch), key) == NextValue(current, m)
  {
    if batch != [] {
      var n := |batch| - 1;
      TargetMeaning(current, batch[..n], key);
      SetRowLookup(Target(current, batch[..n]), batch[n].key, NextValue(current, batch[n]), key);
      assert forall m :: m in batch <==> m in batch[..n] || m == batch[n];
      hide SetRow, Lookup, NextValue;
    }
  }

  ghost predicate SameMutations(a: seq<Mutation>, b: seq<Mutation>) {
    forall m :: m in a <==> m in b
  }

  /** The keys on which two sets of rows differ. */
  ghost function Differing(a: map<string, string>, b: map<string, string>): set<string> {
    set key | key in a.Keys + b.Keys && Lookup(a, key) != Lookup(b, key)
  }

  lemma SameLookups(a: map<string, string>, b: map<string, string>)
    requires forall key :: Lookup(a, key) == Lookup(b, key)
    ensures a == b
  {
    forall key ensures key in a <==> key in b {
      assert Lookup(a, key) == Lookup(b, key);
    }
    forall key | key in a ensures a[key] == b[key] {
      assert Lookup(a, key) == Lookup(b, key);
    }
  }

  lemma DifferingMeaning(a: map<string, string>, b: map<string, string>, key: string)
    ensures key in Differing(a, b) <==> Lookup(a, key) != Lookup(b, key)
  {
  }

  lemma OneMoreDifference(current: map<string, string>, mid: map<string, string>, key: string, next: Option<string>)
    requires Lookup(mid, key) == Lookup(current, key)
    ensures |Differing(current, SetRow(mid, key, next))|
         == |Differing(current, mid)| + if next == Lookup(current, key) then 0 else 1
  {
    hide SetRow, Lookup, Differing;
    var more := if next == Lookup(current, key) then {} else {key};
    forall k ensures k in Differing(current, SetRow(mid, key, next)) <==> k in Differing(current, mid) + more {
      SetRowLookup(mid, key, next, k);
      DifferingMeaning(current, mid, k);
      DifferingMeaning(current, SetRow(mid, key, next), k);
    }
    assert Differing(current, SetRow(mid, key, next)) == Differing(current, mid) + more;
    DifferingMeaning(current, mid, key);
  }

  lemma NoDifferenceIsEqual(a: map<string, string>, b: map<string, string>)
    ensures |Differing(a, b)| == 0 <==> a == b
  {
    if Differing(a, b) == {} {
      forall key ensures Lookup(a, key) == Lookup(b, key) {
        DifferingMeaning(a, b, key);
      }
      SameLookups(a, b);
    }
  }

  /** The count a batch reports is the number of keys whose value it really changes. */
  lemma {:induction false} ChangesCountsDifferences(current: map<string, string>, batch: seq<Mutation>)
    requires DistinctKeys(batch)
    ensures Changes(current, batch) == |Differing(current, Target(current, batch))|
  {
    hide SetRow, Lookup, Differing, NextValue;
    if batch == [] {
      NoDifferenceIsEqual(current, current);
    } else {
      var before, last := batch[..|batch| - 1], batch[|batch| - 1];
      ChangesCountsDifferences(current, before);
      TargetMeaning(current, before, last.key);
      OneMoreDifference(current, Target(current, before), last.key, NextValue(current, last));
    }
  }

  /** The same mutations in any order lead to the same rows and report the same count. */
  lemma BatchOrderIsFree(current: map<string, string>, a: seq<Mutation>, b: seq<Mutation>)
    requires DistinctKeys(a) && DistinctKeys(b) && SameMutations(a, b)
    ensures Target(current, a) == Target(current, b)
    ensures Changes(current, a) == Changes(current, b)
  {
    forall key ensures Lookup(Target(current, a), key) == Lookup(Target(current, b), key) {
      TargetMeaning(current, a, key);
      TargetMeaning(current, b, key);
      if m :| m in a && m.key == key {
        assert m in b;
      } else {
        assert forall m :: m in b ==> m in a;
      }
    }
    SameLookups(Target(current, a), Target(current, b));
    ChangesCountsDifferences(current, a);
    ChangesCountsDifferences(current, b);
  }

  // ---------------------------------------------------------------- when a batch is refused

  /** The check of one mutation, given the keys of the mutations before it. */
  function CheckOne(rules: Rules, m: Mutation, seen: set<string>): Option<WriteError> {
    if ByteLength(m.key) > MAX_SETTING_KEY_BYTES then Some(KeyTooLarge)
    else if !m.Delete? && ByteLength(m.value) > MAX_SETTING_VALUE_BYTES then Some(ValueTooLarge)
    else if !m.Delete? && !rules.valid(m.key, m.value) then Some(InvalidValue)
    else if m.PutIfEmpty? && ByteLength(m.conditionKey) > MAX_SETTING_KEY_BYTES then Some(KeyTooLarge)
    else if m.key in seen then Some(DuplicateKey)
    else None
  }

  function KeysOf(batch: seq<Mutation>): set<string> {
    if batch == [] then {} else KeysOf(batch[..|batch| - 1]) + {batch[|batch| - 1].key}
  }

  lemma {:induction false} KeysOfMeaning(batch: seq<Mutation>, key: string)
    ensures key in KeysOf(batch) <==> exists m :: m in batch && m.key == key
  {
    if batch != [] {
      KeysOfMeaning(batch[..|batch| - 1], key);
      assert forall m :: m in batch <==> m in batch[..|batch| - 1] || m == batch[|batch| - 1];
    }
  }

  /** The first mutation that breaks a rule decides which error the whole batch ends with. */
  function FirstError(rules: Rules, batch: seq<Mutation>): Option<WriteError> {
    if batch == [] then None
    else
      var before := batch[..|batch| - 1];
      var error := FirstError(rules, before);
      if error.Some? then error else CheckOne(rules, batch[|batch| - 1], KeysOf(before))
  }

  lemma {:induction false} ErrorStays(rules: Rules, batch: seq<Mutation>, n: nat)
    requires n <= |batch| && FirstError(rules, batch[..n]).Some?
    ensures FirstError(rules, batch) == FirstError(rules, batch[..n])
    decreases |batch|
  {
    hide CheckOne, KeysOf;
    if n < |batch| {
      var m := |batch| - 1;
      assert batch[..m][..n] == batch[..n];
      ErrorStays(rules, batch[..m], n);
    } else {
      assert batch[..n] == batch;
    }
  }

  predicate WellFormed(rules: Rules, m: Mutation) {
    CheckOne(rules, m, {}) == None
  }

  lemma DistinctAppend(batch: seq<Mutation>, m: Mutation)
    ensures DistinctKeys(batch + [m]) <==> DistinctKeys(batch) && m.key !in KeysOf(batch)
  {
    var more := batch + [m];
    KeysOfMeaning(batch, m.key);
    if DistinctKeys(more) {
      forall i, j | 0 <= i < j < |batch| ensures batch[i].key != batch[j].key {
        assert more[i].key != more[j].key;
      }
      forall i | 0 <= i < |batch| ensures batch[i].key != m.key {
        assert more[i].key != more[|batch|].key;
      }
    }
  }

  lemma DistinctFront(batch: seq<Mutation>)
    requires batch != [] && DistinctKeys(batch)
    ensures DistinctKeys(batch[..|batch| - 1]) && batch[|batch| - 1].key !in KeysOf(batch[..|batch| - 1])
  {
    DistinctAppend(batch[..|batch| - 1], batch[|batch| - 1]);
    assert batch == batch[..|batch| - 1] + [batch[|batch| - 1]];
  }

  lemma AcceptedNothing(rules: Rules)
    ensures FirstError(rules, []) == None && DistinctKeys([])
  {
  }

  lemma AcceptedOneMore(rules: Rules, front: seq<Mutation>, last: Mutation)
    ensures FirstError(rules, front + [last]) == None <==>
              FirstError(rules, front) == None && WellFormed(rules, last) && last.key !in KeysOf(front)
  {
    hide ByteLength, KeysOf;
    assert (front + [last])[..|front|] == front;
  }

  /** A batch passes exactly when each mutation is well-formed by itself and no key is named twice. */
  lemma {:induction false} AcceptedIffWellFormed(rules: Rules, batch: seq<Mutation>)
    ensures FirstError(rules, batch) == None <==>
              DistinctKeys(batch) && forall m :: m in batch ==> WellFormed(rules, m)
  {
    hide FirstError, WellFormed, DistinctKeys, KeysOf;
    AcceptedNothing(rules);
    if batch != [] {
      var front, last := batch[..|batch| - 1], batch[|batch| - 1];
      assert batch == front + [last];
      AcceptedIffWellFormed(rules, front);
      AcceptedOneMore(rules, front, last);
      DistinctAppend(front, last);
    }
  }

  /** What the loop over the mutations adds up for the capacity checks. */
  datatype Delta = Delta(removedRows: nat, addedRows: nat, removedBytes: nat, addedBytes: nat)

  function DeltaOf(current: map<string, string>, batch: seq<Mutation>): Delta {
    if batch == [] then Delta(0, 0, 0, 0)
    else
      var before, last := DeltaOf(current, batch[..|batch| - 1]), batch[|batch| - 1];
      var previous, next := Lookup(current, last.key), NextValue(current, last);
      if previous == next then before
      else
        Delta(before.removedRows + CountOf(previous), before.addedRows + CountOf(next),
              before.removedBytes + SizeOf(last.key, previous), before.addedBytes + SizeOf(last.key, next))
  }

  lemma {:induction false} DeltaIsExact(current: map<string, string>, batch: seq<Mutation>)
    requires DistinctKeys(batch)
    ensures var d := DeltaOf(current, batch);
            && |Target(current, batch)| + d.removedRows == |current| + d.addedRows
            && Bytes(Target(current, batch)) + d.removedBytes == Bytes(current) + d.addedBytes
  {
    hide SetRow, Lookup, Bytes, NextValue;
    if batch != [] {
      var before, last := batch[..|batch| - 1], batch[|batch| - 1];
      DeltaIsExact(current, before);
      TargetMeaning(current, before, last.key);
      SetRowCounts(Target(current, before), last.key, NextValue(current, last));
    }
  }

  function Without(rows: map<string, string>, keys: set<string>): map<string, string> {
    rows - keys
  }

  lemma WithoutOneMore(rows: map<string, string>, keys: set<string>, key: string)
    requires key !in keys
    ensures |Without(rows, keys)| == |Without(rows, keys + {key})| + CountOf(Lookup(rows, key))
    ensures Bytes(Without(rows, keys)) == Bytes(Without(rows, keys + {key})) + SizeOf(key, Lookup(rows, key))
  {
    hide Bytes;
    SetRowCounts(rows - keys, key, None);
    SameLookups(SetRow(rows - keys, key, None), rows - (keys + {key}));
  }

  lemma WithoutNothing(rows: map<string, string>)
    ensures Without(rows, {}) == rows
  {
  }

  lemma {:induction false} RemovedRowsFit(current: map<string, string>, batch: seq<Mutation>)
    requires DistinctKeys(batch)
    ensures DeltaOf(current, batch).removedRows + |Without(current, KeysOf(batch))| <= |current|
  {
    hide Bytes, NextValue, SizeOf, CountOf, Lookup, Without, DistinctKeys;
    if batch == [] {
      WithoutNothing(current);
    } else {
      var before, last := batch[..|batch| - 1], batch[|batch| - 1];
      DistinctFront(batch);
      RemovedRowsFit(current, before);
      WithoutOneMore(current, KeysOf(before), last.key);
    }
  }

  lemma {:induction false} RemovedBytesFit(current: map<string, string>, batch: seq<Mutation>)
    requires DistinctKeys(batch)
    ensures DeltaOf(current, batch).removedBytes + Bytes(Without(current, KeysOf(batch))) <= Bytes(current)
  {
    hide Bytes, NextValue, SizeOf, CountOf, Lookup, Without, DistinctKeys;
    if batch == [] {
      WithoutNothing(current);
    } else {
      var before, last := batch[..|batch| - 1], batch[|batch| - 1];
      DistinctFront(batch);
      RemovedBytesFit(current, before);
      WithoutOneMore(current, KeysOf(before), last.key);
    }
  }

  /** What a batch removes was there, so the saturating subtractions of the capacity checks never saturate. */
  lemma RemovedFits(current: map<string, string>, batch: seq<Mutation>)
    requires DistinctKeys(batch)
    ensures DeltaOf(current, batch).removedRows <= |current| && DeltaOf(current, batch).removedBytes <= Bytes(current)
  {
    RemovedRowsFit(current, batch);
    RemovedBytesFit(current, batch);
  }

  predicate Over(limit: Option<nat>, n: nat) {
    limit.Some? && n > limit.value
  }

  predicate Full(limit: Option<nat>, n: nat) {
    limit.Some? && n >= limit.value
  }

  /** The access hash the rows of a chat ask for; `None` when the stored text is no number. */
  function RequestedHash(rules: Rules, rows: map<string, string>): Option<int> {
    if "hash" in rows then rules.hash(rows["hash"]) else Some(0)
  }

  /** A zero hash keeps what is known about the chat. */
  function Admit(chats: map<int, int>, chat: int, hash: int): map<int, int> {
    if chat == 0 then chats
    else chats[chat := if hash == 0 && chat in chats then chats[chat] else hash]
  }

  /**
   How a batch ends if the database does its part: refused, or accepted with the number of keys it changes. It is
   stated on the rows the batch leads to, not on the running sums of the implementation.
   */
  ghost function BatchVerdict(
    limits: Limits, rules: Rules, t: Table, chats: map<int, int>, chat: int, batch: seq<Mutation>): Result<nat>
  {
    var current := RowsOf(t, chat);
    var target := Target(current, batch);
    if FirstError(rules, batch).Some? then Err(FirstError(rules, batch).value)
    else if Differing(current, target) == {} then Ok(0)
    else if |target| > MAX_SETTINGS_ROWS_PER_CHAT || Over(limits.maxRows, RowCount(t[chat := target])) then Err(RowCapacity)
    else if Over(limits.maxBytes, ByteCount(t[chat := target])) then Err(ByteCapacity)
    else if chat != 0 && chat !in chats && target != map[] && Full(limits.maxChats, |chats|) then Err(ChatCapacity)
    else if chat != 0 && RequestedHash(rules, target) == None then Err(Database)
    else Ok(|Differing(current, target)|)
  }

  // ---------------------------------------------------------------- caps

  ghost predicate Capped(limits: Limits, t: Table, chats: map<int, int>) {
    && (forall chat :: |RowsOf(t, chat)| <= 512)
    && (limits.maxRows.Some? ==> RowCount(t) <= limits.maxRows.value)
    && (limits.maxBytes.Some? ==> ByteCount(t) <= limits.maxBytes.value)
    && (limits.maxChats.Some? ==> |chats| <= limits.maxChats.value)
  }

  /** Every chat that owns a row is registered, and the global settings under chat 0 never are. */
  predicate Owned(t: Table, chats: map<int, int>) {
    0 !in chats && forall chat :: chat in t && chat != 0 && t[chat] != map[] ==> chat in chats
  }

  lemma AdmitGrows(chats: map<int, int>, chat: int, hash: int)
    ensures |Admit(chats, chat, hash)| == |chats| + if chat == 0 || chat in chats then 0 else 1
  {
  }

  /** An accepted batch keeps every cap and leaves no chat with rows unregistered. */
  lemma BatchKeepsCaps(
    limits: Limits, rules: Rules, t: Table, chats: map<int, int>, chat: int, batch: seq<Mutation>)
    requires Capped(limits, t, chats) && Owned(t, chats)
    requires BatchVerdict(limits, rules, t, chats, chat, batch).Ok?
    requires BatchVerdict(limits, rules, t, chats, chat, batch).value > 0
    ensures var target := Target(RowsOf(t, chat), batch);
            var hash := RequestedHash(rules, target);
            && (chat != 0 ==> hash.Some?)
            && var admitted := Admit(chats, chat, hash.GetOr(0));
            Capped(limits, t[chat := target], admitted) && Owned(t[chat := target], admitted)
  {
    hide Differing, Target, RowCount, ByteCount;
    var target := Target(RowsOf(t, chat), batch);
    AdmitGrows(chats, chat, RequestedHash(rules, target).GetOr(0));
    NoDifferenceIsEqual(RowsOf(t, chat), target);
    var admitted, after := Admit(chats, chat, RequestedHash(rules, target).GetOr(0)), t[chat := target];
    assert chat != 0 && chat !in chats ==> RowsOf(t, chat) == map[];
    assert !Over(limits.maxChats, |admitted|);
    forall c ensures |RowsOf(after, c)| <= MAX_SETTINGS_ROWS_PER_CHAT {
      assert |RowsOf(t, c)| <= MAX_SETTINGS_ROWS_PER_CHAT;
    }
    assert Owned(after, admitted);
  }

  // ---------------------------------------------------------------- one key in many chats

  /** `set_flags` on the table: the same key set to the empty value, or removed, in every listed chat. */
  function Flag(t: Table, key: string, on: bool, ids: seq<int>): Table {
    if ids == [] then t
    else
      var before, chat := Flag(t, key, on, ids[..|ids| - 1]), ids[|ids| - 1];
      before[chat := SetRow(RowsOf(before, chat), key, if on then Some("") else None)]
  }

  lemma {:induction false} FlagMeaning(t: Table, key: string, on: bool, ids: seq<int>, chat: int)
    ensures RowsOf(Flag(t, key, on, ids), chat)
         == if chat in ids then SetRow(RowsOf(t, chat), key, if on then Some("") else None) else RowsOf(t, chat)
  {
    hide RowsOf;
    if ids != [] {
      var n := |ids| - 1;
      FlagMeaning(t, key, on, ids[..n], chat);
      RowsAfter(Flag(t, key, on, ids[..n]), ids[n],
                SetRow(RowsOf(Flag(t, key, on, ids[..n]), ids[n]), key, if on then Some("") else None), chat);
      assert chat in ids <==> chat in ids[..n] || chat == ids[n];
    }
  }

  lemma RowsAfter(t: Table, chat: int, rows: map<string, string>, other: int)
    ensures RowsOf(t[chat := rows], other) == if other == chat then rows else RowsOf(t, other)
  {
  }

  /** The chats a write registers; a chat whose stored hash is no number makes the statement fail. */
  function AdmitAll(rules: Rules, t: Table, chats: map<int, int>, ids: seq<int>): Option<map<int, int>> {
    if ids == [] then Some(chats)
    else
      var before, chat := AdmitAll(rules, t, chats, ids[..|ids| - 1]), ids[|ids| - 1];
      if before == None || chat == 0 then before
      else if RequestedHash(rules, RowsOf(t, chat)) == None then None
      else Some(Admit(before.value, chat, RequestedHash(rules, RowsOf(t, chat)).value))
  }

  predicate Increasing(ids: seq<int>) {
    forall i, j :: 0 <= i < j < |ids| ==> ids[i] < ids[j]
  }

  /** The running totals of `set_flags` while it looks through its chats. */
  datatype Projection = Projection(rows: nat, bytes: nat, chats: nat)

  function ProjectOne(
    limits: Limits, t: Table, chats: map<int, int>, key: string, p: Projection, chat: int): Result<Projection>
  {
    var unknown := chat != 0 && chat !in chats;
    if key in RowsOf(t, chat) then Ok(p)
    else if |RowsOf(t, chat)| >= MAX_SETTINGS_ROWS_PER_CHAT || Full(limits.maxRows, p.rows) then Err(RowCapacity)
    else if unknown && Full(limits.maxChats, p.chats) then Err(ChatCapacity)
    else if Over(limits.maxBytes, p.bytes + SettingSize(key, "")) then Err(ByteCapacity)
    else Ok(Projection(p.rows + 1, p.bytes + SettingSize(key, ""), p.chats + if unknown then 1 else 0))
  }

  function Project(
    limits: Limits, t: Table, chats: map<int, int>, key: string, p: Projection, ids: seq<int>): Result<Projection>
  {
    if ids == [] then Ok(p)
    else
      var before := Project(limits, t, chats, key, p, ids[..|ids| - 1]);
      if before.Err? then before else ProjectOne(limits, t, chats, key, before.value, ids[|ids| - 1])
  }

  ghost function Totals(t: Table, chats: map<int, int>): Projection {
    Projection(RowCount(t), ByteCount(t), |chats|)
  }

  /** How many listed chats really change. */
  function FlagChanges(t: Table, key: string, on: bool, ids: seq<int>): nat {
    if ids == [] then 0
    else
      var previous := Lookup(RowsOf(t, ids[|ids| - 1]), key);
      FlagChanges(t, key, on, ids[..|ids| - 1]) + if previous == (if on then Some("") else None) then 0 else 1
  }

  /** What the projection promises: the true row and chat totals afterwards, and at least the true byte total. */
  ghost predicate Foreseen(limits: Limits, p: Projection, t: Table, chats: map<int, int>) {
    p.rows == RowCount(t) && p.bytes >= ByteCount(t) && p.chats == |chats| &&
    !Over(limits.maxRows, p.rows) && !Over(limits.maxChats, p.chats)
  }

  lemma FlagOneCounts(t: Table, key: string, chat: int)
    ensures var after := t[chat := SetRow(RowsOf(t, chat), key, Some(""))];
            && RowCount(after) == RowCount(t) + (if key in RowsOf(t, chat) then 0 else 1)
            && ByteCount(after) <= ByteCount(t) + (if key in RowsOf(t, chat) then 0 else SettingSize(key, ""))
  {
    hide Bytes, RowCount, ByteCount;
    SetRowCounts(RowsOf(t, chat), key, Some(""));
    SetChat(t, chat, SetRow(RowsOf(t, chat), key, Some("")));
  }

  lemma {:induction false} AdmitAllKeys(rules: Rules, t: Table, chats: map<int, int>, ids: seq<int>)
    requires AdmitAll(rules, t, chats, ids).Some?
    ensures var admitted := AdmitAll(rules, t, chats, ids).value;
            forall chat :: chat in admitted <==> chat in chats || (chat in ids && chat != 0)
  {
    if ids != [] {
      AdmitAllKeys(rules, t, chats, ids[..|ids| - 1]);
      assert ids == ids[..|ids| - 1] + [ids[|ids| - 1]];
    }
  }

  lemma ProjectOneIsTrue(
    limits: Limits, t: Table, chats: map<int, int>, key: string, p: Projection, chat: int,
    now: Table, registered: map<int, int>, hash: int)
    requires ProjectOne(limits, t, chats, key, p, chat).Ok?
    requires Foreseen(limits, p, now, registered) && !Over(limits.maxBytes, p.bytes)
    requires RowsOf(now, chat) == RowsOf(t, chat) && (chat in registered <==> chat in chats)
    requires key in RowsOf(t, chat) ==> chat == 0 || chat in chats
    ensures var q := ProjectOne(limits, t, chats, key, p, chat).value;
            Foreseen(limits, q, now[chat := SetRow(RowsOf(now, chat), key, Some(""))], Admit(registered, chat, hash))
            && !Over(limits.maxBytes, q.bytes)
  {
    hide RowCount, ByteCount, SettingSize, RowsOf, SetRow;
    FlagOneCounts(now, key, chat);
    AdmitGrows(registered, chat, hash);
  }

  /** One more chat in the projection, the write and the chat set. */
  lemma FlagMore(rules: Rules, t: Table, chats: map<int, int>, key: string, ids: seq<int>)
    requires ids != [] && AdmitAll(rules, t, chats, ids).Some?
    ensures
      var (before, chat) := (ids[..|ids| - 1], ids[|ids| - 1]);
      var admitted := AdmitAll(rules, t, chats, before);
      var hash := RequestedHash(rules, RowsOf(t, chat)).GetOr(0);
      var flagged := Flag(t, key, true, before);
      && admitted.Some? && AdmitAll(rules, t, chats, ids).value == Admit(admitted.value, chat, hash)
      && Flag(t, key, true, ids) == flagged[chat := SetRow(RowsOf(flagged, chat), key, Some(""))]
  {
    hide SetRow, RowsOf, RequestedHash;
    AdmitZero();
  }

  /** The projection of a flag write is what the write then does, so passing its checks keeps the shard caps. */
  lemma {:induction false} ProjectionIsTrue(
    limits: Limits, rules: Rules, t: Table, chats: map<int, int>, key: string, ids: seq<int>)
    requires Capped(limits, t, chats) && Owned(t, chats) && Increasing(ids)
    requires Project(limits, t, chats, key, Totals(t, chats), ids).Ok? && AdmitAll(rules, t, chats, ids).Some?
    ensures var p := Project(limits, t, chats, key, Totals(t, chats), ids).value;
            Foreseen(limits, p, Flag(t, key, true, ids), AdmitAll(rules, t, chats, ids).value)
            && !Over(limits.maxBytes, p.bytes)
  {
    hide Capped, Foreseen, ProjectOne, Admit, SetRow, Owned, RowsOf, RequestedHash, Totals, Over, Lookup;
    if ids == [] {
      CappedTotals(limits, t, chats);
    } else {
      hide AdmitAll, Flag;
      var before, chat := ids[..|ids| - 1], ids[|ids| - 1];
      FlagMore(rules, t, chats, key, ids);
      ProjectionIsTrue(limits, rules, t, chats, key, before);
      FlagMeaning(t, key, true, before, chat);
      AdmitAllKeys(rules, t, chats, before);
      OwnedRows(t, chats, key, chat);
      NewChat(t, chats, ids);
      ProjectOneIsTrue(limits, t, chats, key, Project(limits, t, chats, key, Totals(t, chats), before).value, chat,
                       Flag(t, key, true, before), AdmitAll(rules, t, chats, before).value,
                       RequestedHash(rules, RowsOf(t, chat)).GetOr(0));
    }
  }

  /** The last of ascending chats is not among those before it, and chat 0 is never registered. */
  lemma NewChat(t: Table, chats: map<int, int>, ids: seq<int>)
    requires Owned(t, chats) && Increasing(ids) && ids != []
    ensures ids[|ids| - 1] !in ids[..|ids| - 1] && Increasing(ids[..|ids| - 1]) && 0 !in chats
  {
  }

  lemma AdmitZero()
    ensures forall chats, hash :: Admit(chats, 0, hash) == chats
  {
  }

  lemma CappedTotals(limits: Limits, t: Table, chats: map<int, int>)
    ensures Capped(limits, t, chats) ==> Foreseen(limits, Totals(t, chats), t, chats) && !Over(limits.maxBytes, Totals(t, chats).bytes)
  {
  }

  lemma OwnedRows(t: Table, chats: map<int, int>, key: string, chat: int)
    requires Owned(t, chats)
    ensures key in RowsOf(t, chat) ==> chat == 0 || chat in chats
  {
  }

  lemma {:induction false} ProjectChecksEach(
    limits: Limits, t: Table, chats: map<int, int>, key: string, p: Projection, ids: seq<int>, chat: int)
    requires Project(limits, t, chats, key, p, ids).Ok? && chat in ids
    ensures key in RowsOf(t, chat) || |RowsOf(t, chat)| < MAX_SETTINGS_ROWS_PER_CHAT
  {
    var n := |ids| - 1;
    if chat != ids[n] {
      assert chat in ids[..n];
      ProjectChecksEach(limits, t, chats, key, p, ids[..n], chat);
    }
  }

  lemma {:induction false} FlagOffShrinks(t: Table, key: string, ids: seq<int>)
    ensures RowCount(Flag(t, key, false, ids)) <= RowCount(t)
    ensures ByteCount(Flag(t, key, false, ids)) <= ByteCount(t)
  {
    hide RowCount, ByteCount, Bytes, SetRow, RowsOf;
    if ids != [] {
      var before, chat := Flag(t, key, false, ids[..|ids| - 1]), ids[|ids| - 1];
      FlagOffShrinks(t, key, ids[..|ids| - 1]);
      SetRowCounts(RowsOf(before, chat), key, None);
      SetChat(before, chat, SetRow(RowsOf(before, chat), key, None));
    }
  }

  lemma FlagRowCaps(limits: Limits, t: Table, chats: map<int, int>, key: string, on: bool, ids: seq<int>)
    requires Capped(limits, t, chats)
    requires on ==> Project(limits, t, chats, key, Totals(t, chats), ids).Ok?
    ensures forall chat :: |RowsOf(Flag(t, key, on, ids), chat)| <= MAX_SETTINGS_ROWS_PER_CHAT
  {
    var after := Flag(t, key, on, ids);
    forall chat ensures |RowsOf(after, chat)| <= MAX_SETTINGS_ROWS_PER_CHAT {
      FlagMeaning(t, key, on, ids, chat);
      SetRowCounts(RowsOf(t, chat), key, if on then Some("") else None);
      if on && chat in ids {
        ProjectChecksEach(limits, t, chats, key, Totals(t, chats), ids, chat);
      }
      assert |RowsOf(t, chat)| <= MAX_SETTINGS_ROWS_PER_CHAT;
    }
  }

  /** A flag write that passed its checks keeps every cap and leaves no chat with rows unregistered. */
  lemma FlagKeepsCaps(limits: Limits, rules: Rules, t: Table, chats: map<int, int>, key: string, on: bool, ids: seq<int>)
    requires Capped(limits, t, chats) && Owned(t, chats) && Increasing(ids)
    requires on ==> Project(limits, t, chats, key, Totals(t, chats), ids).Ok? && AdmitAll(rules, t, chats, ids).Some?
    ensures var admitted := if on then AdmitAll(rules, t, chats, ids).value else chats;
            Capped(limits, Flag(t, key, on, ids), admitted) && Owned(Flag(t, key, on, ids), admitted)
  {
    FlagRowCaps(limits, t, chats, key, on, ids);
    FlagKeepsOwned(rules, t, chats, key, on, ids);
    if on {
      ProjectionIsTrue(limits, rules, t, chats, key, ids);
    } else {
      FlagOffShrinks(t, key, ids);
    }
    hide RowCount, ByteCount, Flag, RowsOf, Project, AdmitAll;
  }

  lemma FlagKeepsOwned(rules: Rules, t: Table, chats: map<int, int>, key: string, on: bool, ids: seq<int>)
    requires Owned(t, chats)
    requires on ==> AdmitAll(rules, t, chats, ids).Some?
    ensures Owned(Flag(t, key, on, ids), if on then AdmitAll(rules, t, chats, ids).value else chats)
  {
    var after := Flag(t, key, on, ids);
    if on {
      AdmitAllKeys(rules, t, chats, ids);
    }
    forall chat | chat in after && chat != 0 && after[chat] != map[]
      ensures chat in chats || (on && chat in ids)
    {
      FlagMeaning(t, key, on, ids, chat);
      assert RowsOf(after, chat) == after[chat];
    }
  }

  lemma FewerChats(chats: map<int, int>, chat: int)
    ensures |chats - {chat}| <= |chats|
  {
    if chat in chats {
      assert chats == (chats - {chat})[chat := chats[chat]];
    } else {
      assert chats - {chat} == chats;
    }
  }

  /** Forgetting a chat can only free capacity. */
  lemma ForgetKeepsCaps(limits: Limits, t: Table, chats: map<int, int>, chat: int)
    requires Capped(limits, t, chats) && Owned(t, chats)
    ensures Capped(limits, t - {chat}, chats - {chat}) && Owned(t - {chat}, chats - {chat})
  {
    hide RowCount, ByteCount;
    DropChat(t, chat);
    FewerChats(chats, chat);
    var after := t - {chat};
    forall c ensures |RowsOf(after, c)| <= MAX_SETTINGS_ROWS_PER_CHAT {
      assert |RowsOf(t, c)| <= MAX_SETTINGS_ROWS_PER_CHAT;
    }
  }
}
