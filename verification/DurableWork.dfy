/**
 The durable work of src/state.rs: counter rows with their warnings, notes, the row counts kept beside both, and the
 leased queue of warning penalties. Every operation is one transaction, so it is one step on the tables; whether a
 caller may act on a penalty is decided by the ticket its claim returned.
 */
module DurableWork {
  import opened Options
  import SettingsTable

  const MAX_COUNTER_ROWS_PER_CHAT: nat := 20_000
  const MAX_NOTE_ROWS_PER_CHAT: nat := 20_000

  datatype Key = Key(chat: int, user: int)

  datatype Penalty = Ban | Mute

  datatype Counter = Counter(name: string, warns: nat, adds: nat, day: int, seen: int)

  /** One row of `pending_warn_actions`. */
  datatype Pending = Pending(
    penalty: Penalty,
    createdAt: int,
    claimedUntil: int,
    attempts: nat,
    generation: nat,
    version: nat,
    lease: Option<nat>,
    awaitingRejoin: bool)

  /** `counterRows` and `noteRows` are the row of `durable_counts`; `next` is the shared token sequence. */
  datatype Tables = Tables(
    counters: map<Key, Counter>,
    notes: map<Key, string>,
    pending: map<Key, Pending>,
    counterRows: nat,
    noteRows: nat,
    next: nat)

  datatype Limits = Limits(counterRows: nat, noteRows: nat)

  /** What a claim returns: the key and the row's identity at that moment. */
  datatype Ticket = Ticket(key: Key, penalty: Penalty, attempts: nat, generation: nat, version: nat, token: nat)

  datatype Op =
    | CreditAdd(key: Key, name: string, added: nat)
    | IncrementWarning(key: Key, limit: nat, penalty: Penalty, now: int)
    | DecrementWarning(key: Key)
    | ReverseWarning(key: Key)
    | Claim(key: Key, now: int, until: int)
    | Defer(ticket: Ticket, retryAt: int)
    | AwaitRejoin(ticket: Ticket)
    | ResumeOnRejoin(key: Key, now: int)
    | CompleteAction(ticket: Ticket)
    | TerminateAction(ticket: Ticket)
    | PurgeStale(before: int, victims: set<Key>)
    | SetNote(key: Key, value: string, valueBytes: nat)
    | Touch(key: Key, day: int, seen: int)     // other writers date a member's activity
    | ForgetIdle(before: int, quiet: set<Key>)
    | ForgetChat(chat: int)

  // ---------------------------------------------------------------- reading the tables

  function InChat<V>(rows: map<Key, V>, chat: int): set<Key> {
    set key | key in rows && key.chat == chat
  }

  function Warns(t: Tables, key: Key): nat {
    if key in t.counters then t.counters[key].warns else 0
  }

  predicate IsCurrent(t: Tables, ticket: Ticket) {
    ticket.key in t.pending &&
    var row := t.pending[ticket.key];
    row.penalty == ticket.penalty && row.attempts == ticket.attempts && row.generation == ticket.generation &&
    row.version == ticket.version && row.lease == Some(ticket.token)
  }

  predicate Claimable(t: Tables, key: Key, now: int) {
    key in t.pending && t.pending[key].claimedUntil <= now && !t.pending[key].awaitingRejoin
  }

  /** A counter row may be written: it exists, or both caps leave room for it. */
  predicate CounterAdmitted(limits: Limits, t: Tables, key: Key) {
    key in t.counters ||
    (t.counterRows < limits.counterRows && |InChat(t.counters, key.chat)| < MAX_COUNTER_ROWS_PER_CHAT)
  }

  predicate NoteAdmitted(limits: Limits, t: Tables, key: Key) {
    key in t.notes ||
    (|InChat(t.notes, key.chat)| < MAX_NOTE_ROWS_PER_CHAT && t.noteRows < limits.noteRows)
  }

  predicate Stale(row: Pending, before: int) {
    row.lease == None &&
    (if row.awaitingRejoin then row.claimedUntil <= before else row.attempts > 0 && row.createdAt <= before)
  }

  predicate Quiet(row: Counter, before: int) {
    0 < row.day <= before && (row.seen == 0 || row.seen <= before)
  }

  function Greatest(a: int): nat {
    if a > 0 then a else 0
  }

  // ---------------------------------------------------------------- the transactions

  const FRESH: Counter := Counter("", 0, 0, 0, 0)

  function OldCounter(t: Tables, key: Key): Counter {
    if key in t.counters then t.counters[key] else FRESH
  }

  function WriteCounter(t: Tables, key: Key, row: Counter): Tables {
    t.(counters := t.counters[key := row],
       counterRows := if key in t.counters then t.counterRows else t.counterRows + 1)
  }

  function Warn(limits: Limits, t: Tables, key: Key, limit: nat, penalty: Penalty, now: int): Tables {
    if key in t.pending || !CounterAdmitted(limits, t, key) then t
    else
      var row := OldCounter(t, key);
      var counted := WriteCounter(t, key, row.(warns := row.warns + 1));
      if row.warns + 1 >= limit then
        counted.(pending := t.pending[key := Pending(penalty, now, now, 0, t.next, 1, None, false)], next := t.next + 1)
      else counted
  }

  function LowerWarns(t: Tables, key: Key): Tables {
    if key in t.counters then
      t.(counters := t.counters[key := t.counters[key].(warns := Greatest(t.counters[key].warns - 1))])
    else t
  }

  function Take(t: Tables, key: Key, now: int, until: int): Tables {
    if !Claimable(t, key, now) then t
    else
      var row := t.pending[key];
      t.(pending := t.pending[key := row.(claimedUntil := until, attempts := row.attempts + 1,
                                          version := row.version + 1, lease := Some(t.next))],
         next := t.next + 1)
  }

  function TicketOf(key: Key, row: Pending, token: nat): Ticket {
    Ticket(key, row.penalty, row.attempts, row.generation, row.version, token)
  }

  function Complete(t: Tables, ticket: Ticket): Tables {
    if !IsCurrent(t, ticket) then t
    else
      t.(pending := t.pending - {ticket.key},
         counters := if ticket.key in t.counters
                     then t.counters[ticket.key := t.counters[ticket.key].(warns := 0)] else t.counters)
  }

  function WriteNote(limits: Limits, t: Tables, key: Key, value: string, valueBytes: nat): Tables {
    if valueBytes > SettingsTable.MAX_SETTING_VALUE_BYTES then t
    else if value == "" then
      if key in t.notes then t.(notes := t.notes - {key}, noteRows := Greatest(t.noteRows - 1)) else t
    else if !NoteAdmitted(limits, t, key) then t
    else
      t.(notes := t.notes[key := value], noteRows := if key in t.notes then t.noteRows else t.noteRows + 1)
  }

  function Idle(t: Tables, before: int, quiet: set<Key>): (gone: set<Key>)
    ensures gone <= t.counters.Keys
  {
    set key | key in quiet && key in t.counters && Quiet(t.counters[key], before)
  }

  function DropQuiet(t: Tables, before: int, quiet: set<Key>): Tables {
    t.(counters := t.counters - Idle(t, before, quiet),
       counterRows := Greatest(t.counterRows - |Idle(t, before, quiet)|))
  }

  function DropChat(t: Tables, chat: int): Tables {
    t.(counters := t.counters - InChat(t.counters, chat),
       notes := t.notes - InChat(t.notes, chat),
       pending := t.pending - InChat(t.pending, chat),
       counterRows := Greatest(t.counterRows - |InChat(t.counters, chat)|),
       noteRows := Greatest(t.noteRows - |InChat(t.notes, chat)|))
  }

  function Apply(limits: Limits, t: Tables, op: Op): Tables {
    match op
    case CreditAdd(key, name, added) =>
      if !CounterAdmitted(limits, t, key) then t
      else
        var row := OldCounter(t, key);
        WriteCounter(t, key, row.(adds := row.adds + added, name := if name == "" then row.name else name))
    case IncrementWarning(key, limit, penalty, now) => Warn(limits, t, key, limit, penalty, now)
    case DecrementWarning(key) => LowerWarns(t.(pending := t.pending - {key}), key)
    case ReverseWarning(key) => if Warns(t, key) == 0 then t else LowerWarns(t, key)
    case Claim(key, now, until) => Take(t, key, now, until)
    case Defer(ticket, retryAt) =>
      if !IsCurrent(t, ticket) then t
      else
        t.(pending := t.pending[ticket.key :=
                        t.pending[ticket.key].(claimedUntil := retryAt, lease := None, awaitingRejoin := false)])
    case AwaitRejoin(ticket) =>
      if !IsCurrent(t, ticket) then t
      else t.(pending := t.pending[ticket.key := t.pending[ticket.key].(awaitingRejoin := true, lease := None)])
    case ResumeOnRejoin(key, now) =>
      if key in t.pending && t.pending[key].awaitingRejoin && t.pending[key].lease == None then
        t.(pending := t.pending[key := t.pending[key].(awaitingRejoin := false, claimedUntil := now)])
      else t
    case CompleteAction(ticket) => Complete(t, ticket)
    case TerminateAction(ticket) =>
      if IsCurrent(t, ticket) then t.(pending := t.pending - {ticket.key}) else t
    case PurgeStale(before, victims) =>
      t.(pending := t.pending - set key | key in victims && key in t.pending && Stale(t.pending[key], before))
    case SetNote(key, value, valueBytes) => WriteNote(limits, t, key, value, valueBytes)
    case Touch(key, day, seen) =>
      if key in t.counters then t.(counters := t.counters[key := t.counters[key].(day := day, seen := seen)]) else t
    case ForgetIdle(before, quiet) => DropQuiet(t, before, quiet)
    case ForgetChat(chat) => if chat == 0 then t else DropChat(t, chat)
  }

  // ---------------------------------------------------------------- rows and their counts

  ghost predicate CountsInv(limits: Limits, t: Tables) {
    && t.counterRows == |t.counters| <= limits.counterRows
    && t.noteRows == |t.notes| <= limits.noteRows
    && (forall chat :: |InChat(t.counters, chat)| <= MAX_COUNTER_ROWS_PER_CHAT)
    && (forall chat :: |InChat(t.notes, chat)| <= MAX_NOTE_ROWS_PER_CHAT)
  }

  lemma PutCount<V>(rows: map<Key, V>, key: Key, row: V)
    ensures |rows[key := row]| == |rows| + if key in rows then 0 else 1
  {
    assert rows[key := row].Keys == rows.Keys + {key};
  }

  lemma PutKeys<V>(rows: map<Key, V>, key: Key, row: V, chat: int)
    ensures InChat(rows[key := row], chat) == if key.chat == chat then InChat(rows, chat) + {key} else InChat(rows, chat)
    ensures key in InChat(rows, chat) <==> key in rows && key.chat == chat
  {
    var before, after := InChat(rows, chat), InChat(rows[key := row], chat);
    forall k ensures k in after <==> k in before || (k == key && key.chat == chat) {
    }
  }

  lemma PutInChat<V>(rows: map<Key, V>, key: Key, row: V, chat: int)
    ensures |InChat(rows[key := row], chat)| == |InChat(rows, chat)| + if key in rows || key.chat != chat then 0 else 1
    ensures |rows[key := row]| == |rows| + if key in rows then 0 else 1
  {
    hide InChat;
    PutCount(rows, key, row);
    PutKeys(rows, key, row, chat);
    if key in InChat(rows, chat) {
      assert InChat(rows, chat) + {key} == InChat(rows, chat);
    }
  }

  lemma {:induction false} DropCount<V>(rows: map<Key, V>, gone: set<Key>)
    requires gone <= rows.Keys
    ensures |rows - gone| + |gone| == |rows|
  {
    assert (rows - gone).Keys == rows.Keys - gone;
    assert rows.Keys == (rows.Keys - gone) + gone;
  }

  lemma DropInChat<V>(rows: map<Key, V>, gone: set<Key>, chat: int)
    ensures |InChat(rows - gone, chat)| <= |InChat(rows, chat)|
  {
    FewerElements(InChat(rows - gone, chat), InChat(rows, chat));
  }

  lemma {:induction false} FewerElements(a: set<Key>, b: set<Key>)
    requires a <= b
    ensures |a| <= |b|
  {
    assert b == a + (b - a);
  }

  lemma {:induction false} WriteCounterKeepsCounts(limits: Limits, t: Tables, key: Key, row: Counter)
    requires CountsInv(limits, t) && CounterAdmitted(limits, t, key)
    ensures CountsInv(limits, WriteCounter(t, key, row))
  {
    var rows := t.counters[key := row];
    forall chat ensures |InChat(rows, chat)| <= MAX_COUNTER_ROWS_PER_CHAT {
      PutInChat(t.counters, key, row, chat);
    }
    PutInChat(t.counters, key, row, key.chat);
  }

  lemma {:induction false} WriteNoteKeepsCounts(limits: Limits, t: Tables, key: Key, value: string, valueBytes: nat)
    requires CountsInv(limits, t)
    ensures CountsInv(limits, WriteNote(limits, t, key, value, valueBytes))
  {
    hide InChat;
    if value == "" {
      if key in t.notes {
        DropCount(t.notes, {key});
        forall chat ensures |InChat(t.notes - {key}, chat)| <= MAX_NOTE_ROWS_PER_CHAT {
          DropInChat(t.notes, {key}, chat);
        }
      }
    } else if NoteAdmitted(limits, t, key) {
      var rows := t.notes[key := value];
      forall chat ensures |InChat(rows, chat)| <= MAX_NOTE_ROWS_PER_CHAT {
        PutInChat(t.notes, key, value, chat);
      }
      PutInChat(t.notes, key, value, key.chat);
    }
  }

  lemma {:induction false} DropCountersKeepsCounts(limits: Limits, t: Tables, gone: set<Key>)
    requires CountsInv(limits, t) && gone <= t.counters.Keys
    ensures |gone| <= t.counterRows
    ensures CountsInv(limits, t.(counters := t.counters - gone, counterRows := t.counterRows - |gone|))
  {
    hide InChat;
    DropCount(t.counters, gone);
    forall chat ensures |InChat(t.counters - gone, chat)| <= MAX_COUNTER_ROWS_PER_CHAT {
      DropInChat(t.counters, gone, chat);
    }
  }

  lemma {:induction false} DropNotesKeepsCounts(limits: Limits, t: Tables, gone: set<Key>)
    requires CountsInv(limits, t) && gone <= t.notes.Keys
    ensures |gone| <= t.noteRows
    ensures CountsInv(limits, t.(notes := t.notes - gone, noteRows := t.noteRows - |gone|))
  {
    hide InChat;
    DropCount(t.notes, gone);
    forall chat ensures |InChat(t.notes - gone, chat)| <= MAX_NOTE_ROWS_PER_CHAT {
      DropInChat(t.notes, gone, chat);
    }
  }

  /** Only the counters, the notes and their counts matter to the caps. */
  lemma {:induction false} CountsIgnoreTheQueue(limits: Limits, t: Tables, u: Tables)
    requires CountsInv(limits, t)
    requires u.counters == t.counters && u.notes == t.notes && u.counterRows == t.counterRows && u.noteRows == t.noteRows
    ensures CountsInv(limits, u)
  {
    hide InChat;
  }

  /** Every operation keeps both counts equal to the rows they count, and every cap. */
  lemma {:induction false} StepKeepsCounts(limits: Limits, t: Tables, op: Op)
    requires CountsInv(limits, t)
    ensures CountsInv(limits, Apply(limits, t, op))
  {
    hide CountsInv, InChat, CounterAdmitted, NoteAdmitted, Claimable, IsCurrent, Stale, Quiet, Idle, WriteNote, WriteCounter,
         Warn, LowerWarns, Complete;
    match op
    case CreditAdd(key, name, added) => CreditKeepsCounts(limits, t, key, name, added);
    case IncrementWarning(key, limit, penalty, now) => WarnKeepsCounts(limits, t, key, limit, penalty, now);
    case DecrementWarning(key) =>
      CountsIgnoreTheQueue(limits, t, t.(pending := t.pending - {key}));
      LowerWarnsKeepsCounts(limits, t.(pending := t.pending - {key}), key);
    case ReverseWarning(key) => LowerWarnsKeepsCounts(limits, t, key);
    case CompleteAction(ticket) => CompleteKeepsCounts(limits, t, ticket);
    case SetNote(key, value, valueBytes) => WriteNoteKeepsCounts(limits, t, key, value, valueBytes);
    case Touch(key, day, seen) =>
      if key in t.counters {
        RewriteKeepsCounts(limits, t, key, t.counters[key].(day := day, seen := seen));
      }
    case ForgetIdle(before, quiet) => DropCountersKeepsCounts(limits, t, Idle(t, before, quiet));
    case ForgetChat(chat) => if chat != 0 { DropChatKeepsCounts(limits, t, chat); }
    case _ => CountsIgnoreTheQueue(limits, t, Apply(limits, t, op));
  }

  lemma {:induction false} CreditKeepsCounts(limits: Limits, t: Tables, key: Key, name: string, added: nat)
    requires CountsInv(limits, t)
    ensures CountsInv(limits, Apply(limits, t, CreditAdd(key, name, added)))
  {
    hide CountsInv, InChat, CounterAdmitted, WriteCounter;
    if CounterAdmitted(limits, t, key) {
      var row := OldCounter(t, key);
      WriteCounterKeepsCounts(limits, t, key, row.(adds := row.adds + added, name := if name == "" then row.name else name));
    }
  }

  lemma {:induction false} WarnKeepsCounts(limits: Limits, t: Tables, key: Key, limit: nat, penalty: Penalty, now: int)
    requires CountsInv(limits, t)
    ensures CountsInv(limits, Warn(limits, t, key, limit, penalty, now))
  {
    hide CountsInv, InChat, CounterAdmitted;
    if key !in t.pending && CounterAdmitted(limits, t, key) {
      var row := OldCounter(t, key);
      var counted := WriteCounter(t, key, row.(warns := row.warns + 1));
      WriteCounterKeepsCounts(limits, t, key, row.(warns := row.warns + 1));
      CountsIgnoreTheQueue(limits, counted, Warn(limits, t, key, limit, penalty, now));
    }
  }

  lemma {:induction false} RewriteKeepsCounts(limits: Limits, t: Tables, key: Key, row: Counter)
    requires CountsInv(limits, t) && key in t.counters
    ensures CountsInv(limits, t.(counters := t.counters[key := row]))
  {
    WriteCounterKeepsCounts(limits, t, key, row);
  }

  lemma {:induction false} LowerWarnsKeepsCounts(limits: Limits, t: Tables, key: Key)
    requires CountsInv(limits, t)
    ensures CountsInv(limits, LowerWarns(t, key))
  {
    hide CountsInv;
    if key in t.counters {
      RewriteKeepsCounts(limits, t, key, t.counters[key].(warns := Greatest(t.counters[key].warns - 1)));
    }
  }

  lemma {:induction false} CompleteKeepsCounts(limits: Limits, t: Tables, ticket: Ticket)
    requires CountsInv(limits, t)
    ensures CountsInv(limits, Complete(t, ticket))
  {
    hide CountsInv;
    if IsCurrent(t, ticket) {
      var removed := t.(pending := t.pending - {ticket.key});
      CountsIgnoreTheQueue(limits, t, removed);
      if ticket.key in t.counters {
        RewriteKeepsCounts(limits, removed, ticket.key, t.counters[ticket.key].(warns := 0));
      }
    }
  }

  lemma {:induction false} DropChatKeepsCounts(limits: Limits, t: Tables, chat: int)
    requires CountsInv(limits, t)
    ensures CountsInv(limits, DropChat(t, chat))
  {
    hide CountsInv;
    var u := t.(pending := t.pending - InChat(t.pending, chat));
    CountsIgnoreTheQueue(limits, t, u);
    DropCountersKeepsCounts(limits, u, InChat(t.counters, chat));
    var v := u.(counters := t.counters - InChat(t.counters, chat),
                counterRows := t.counterRows - |InChat(t.counters, chat)|);
    DropNotesKeepsCounts(limits, v, InChat(t.notes, chat));
  }

  // ---------------------------------------------------------------- whole runs

  const EMPTY: Tables := Tables(map[], map[], map[], 0, 0, 0)

  function After(limits: Limits, t: Tables, ops: seq<Op>): Tables {
    if ops == [] then t else Apply(limits, After(limits, t, ops[..|ops| - 1]), ops[|ops| - 1])
  }

  /** Every run keeps the counts; in particular every run from empty tables. */
  lemma {:induction false} RunKeepsCounts(limits: Limits, t: Tables, ops: seq<Op>)
    requires CountsInv(limits, t)
    ensures CountsInv(limits, After(limits, t, ops))
  {
    hide CountsInv, Apply;
    if ops != [] {
      RunKeepsCounts(limits, t, ops[..|ops| - 1]);
      StepKeepsCounts(limits, After(limits, t, ops[..|ops| - 1]), ops[|ops| - 1]);
    }
  }

  /** No subtraction from a count ever needs its floor at zero: the rows that go were counted. */
  lemma {:induction false} FloorsNeverBind(
      limits: Limits, ops: seq<Op>, before: int, quiet: set<Key>, chat: int, key: Key)
    ensures
      var t := After(limits, EMPTY, ops);
      && Greatest(t.counterRows - |Idle(t, before, quiet)|) == t.counterRows - |Idle(t, before, quiet)|
      && Greatest(t.counterRows - |InChat(t.counters, chat)|) == t.counterRows - |InChat(t.counters, chat)|
      && Greatest(t.noteRows - |InChat(t.notes, chat)|) == t.noteRows - |InChat(t.notes, chat)|
      && (key in t.notes ==> Greatest(t.noteRows - 1) == t.noteRows - 1)
  {
    hide After, Apply, CountsInv, InChat, Idle, Quiet;
    EmptyCounts(limits);
    RunKeepsCounts(limits, EMPTY, ops);
    CountsCover(limits, After(limits, EMPTY, ops), before, quiet, chat, key);
  }

  lemma {:induction false} CountsCover(limits: Limits, t: Tables, before: int, quiet: set<Key>, chat: int, key: Key)
    requires CountsInv(limits, t)
    ensures |Idle(t, before, quiet)| <= t.counterRows
    ensures |InChat(t.counters, chat)| <= t.counterRows && |InChat(t.notes, chat)| <= t.noteRows
    ensures key in t.notes ==> 1 <= t.noteRows
  {
    hide CountsInv;
    DropCountersKeepsCounts(limits, t, Idle(t, before, quiet));
    DropCountersKeepsCounts(limits, t, InChat(t.counters, chat));
    DropNotesKeepsCounts(limits, t, InChat(t.notes, chat));
    if key in t.notes {
      DropNotesKeepsCounts(limits, t, {key});
    }
  }

  lemma EmptyCounts(limits: Limits)
    ensures CountsInv(limits, EMPTY)
  {
    forall chat ensures InChat(EMPTY.counters, chat) == {} && InChat(EMPTY.notes, chat) == {} {
    }
  }

  /** A credit lands exactly when its row exists or the rows themselves, not just their count, leave room for one. */
  lemma {:induction false} CreditLandsIffRoom(limits: Limits, ops: seq<Op>, key: Key, name: string, added: nat)
    ensures
      var t := After(limits, EMPTY, ops);
      var u := After(limits, EMPTY, ops + [CreditAdd(key, name, added)]);
      var room := key in t.counters ||
                  (|t.counters| < limits.counterRows && |InChat(t.counters, key.chat)| < MAX_COUNTER_ROWS_PER_CHAT);
      if room then
        key in u.counters && u.counters[key].adds == (if key in t.counters then t.counters[key].adds else 0) + added &&
        u.counters[key].name == (if name != "" then name else if key in t.counters then t.counters[key].name else "") &&
        u.counters[key].warns == Warns(t, key) && u.counters - {key} == t.counters - {key}
      else u == t
  {
    hide After;
    EmptyCounts(limits);
    RunKeepsCounts(limits, EMPTY, ops);
    NextStep(limits, ops, CreditAdd(key, name, added));
  }

  lemma NextStep(limits: Limits, ops: seq<Op>, op: Op)
    ensures After(limits, EMPTY, ops + [op]) == Apply(limits, After(limits, EMPTY, ops), op)
  {
    hide Apply;
    assert (ops + [op])[..|ops|] == ops;
  }

  /** The same for a note: erased by the empty text, stored exactly when the rows leave room, else nothing changes. */
  lemma {:induction false} NoteLandsIffRoom(limits: Limits, ops: seq<Op>, key: Key, value: string, valueBytes: nat)
    ensures
      var t := After(limits, EMPTY, ops);
      var u := After(limits, EMPTY, ops + [SetNote(key, value, valueBytes)]);
      var fits := valueBytes <= SettingsTable.MAX_SETTING_VALUE_BYTES;
      var room := key in t.notes ||
                  (|t.notes| < limits.noteRows && |InChat(t.notes, key.chat)| < MAX_NOTE_ROWS_PER_CHAT);
      u.notes == (if fits && value == "" then t.notes - {key}
                  else if fits && room then t.notes[key := value] else t.notes) &&
      u.counters == t.counters && u.pending == t.pending
  {
    hide After, InChat;
    EmptyCounts(limits);
    RunKeepsCounts(limits, EMPTY, ops);
    NextStep(limits, ops, SetNote(key, value, valueBytes));
  }
}
