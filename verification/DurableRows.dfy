/**
 The durable operations seen from one member: what each of them makes of that member's counter row, note and queued
 penalty. `DurableWork` says the same by whole tables, as the transactions do.
 */
module DurableRows {
  import opened Options
  import opened DurableWork

  function At<V>(rows: map<Key, V>, key: Key): Option<V> {
    if key in rows then Some(rows[key]) else None
  }

  /** How many rows of a table belong to a chat. */
  function OfChat<V>(rows: map<Key, V>, chat: int): nat {
    |set key | key in rows && key.chat == chat|
  }

  /** A counter row that does not exist yet needs room in its chat and in the shard. */
  predicate Room(limits: Limits, t: Tables, key: Key) {
    key in t.counters || (t.counterRows < limits.counterRows && OfChat(t.counters, key.chat) < 20_000)
  }

  predicate NoteRoom(limits: Limits, t: Tables, key: Key) {
    key in t.notes || (t.noteRows < limits.noteRows && OfChat(t.notes, key.chat) < 20_000)
  }

  /** The ticket was issued for this row, and the row has not changed hands since. */
  predicate Matches(key: Key, row: Option<Pending>, ticket: Ticket) {
    && ticket.key == key && row.Some? && row.value.penalty == ticket.penalty && row.value.attempts == ticket.attempts
    && row.value.generation == ticket.generation && row.value.version == ticket.version
    && row.value.lease == Some(ticket.token)
  }

  function WarnsOf(row: Option<Counter>): nat {
    if row.Some? then row.value.warns else 0
  }

  /** A queued penalty after one operation. */
  function PendingAfter(limits: Limits, t: Tables, op: Op, key: Key): Option<Pending> {
    var row := At(t.pending, key);
    match op
    case IncrementWarning(k, limit, penalty, now) =>
      if k == key && row == None && Room(limits, t, key) && WarnsOf(At(t.counters, key)) + 1 >= limit
      then Some(Pending(penalty, now, now, 0, t.next, 1, None, false)) else row
    case DecrementWarning(k) => if k == key then None else row
    case Claim(k, now, until) =>
      if k == key && row.Some? && row.value.claimedUntil <= now && !row.value.awaitingRejoin
      then Some(row.value.(claimedUntil := until, attempts := row.value.attempts + 1, version := row.value.version + 1,
                           lease := Some(t.next)))
      else row
    case Defer(ticket, retryAt) =>
      if Matches(key, row, ticket) then Some(row.value.(claimedUntil := retryAt, lease := None, awaitingRejoin := false))
      else row
    case AwaitRejoin(ticket) =>
      if Matches(key, row, ticket) then Some(row.value.(lease := None, awaitingRejoin := true)) else row
    case ResumeOnRejoin(k, now) =>
      if k == key && row.Some? && row.value.awaitingRejoin && row.value.lease == None
      then Some(row.value.(claimedUntil := now, awaitingRejoin := false)) else row
    case CompleteAction(ticket) => if Matches(key, row, ticket) then None else row
    case TerminateAction(ticket) => if Matches(key, row, ticket) then None else row
    case PurgeStale(before, victims) =>
      if key in victims && row.Some? && row.value.lease == None &&
         ((row.value.awaitingRejoin && row.value.claimedUntil <= before) ||
          (!row.value.awaitingRejoin && row.value.attempts > 0 && row.value.createdAt <= before))
      then None else row
    case ForgetChat(chat) => if chat != 0 && key.chat == chat then None else row
    case _ => row
  }

  /** A counter row after one operation. */
  function CounterAfter(limits: Limits, t: Tables, op: Op, key: Key): Option<Counter> {
    var row := At(t.counters, key);
    var prior := row.GetOr(Counter("", 0, 0, 0, 0));
    match op
    case CreditAdd(k, name, added) =>
      if k == key && Room(limits, t, key)
      then Some(Counter(if name != "" then name else prior.name, prior.warns, prior.adds + added, prior.day, prior.seen))
      else row
    case IncrementWarning(k, _, _, _) =>
      if k == key && key !in t.pending && Room(limits, t, key)
      then Some(Counter(prior.name, prior.warns + 1, prior.adds, prior.day, prior.seen)) else row
    case DecrementWarning(k) => if k == key then OneLess(row) else row
    case ReverseWarning(k) => if k == key then OneLess(row) else row
    case CompleteAction(ticket) =>
      if Matches(key, At(t.pending, key), ticket) && row.Some? then Some(prior.(warns := 0)) else row
    case Touch(k, day, seen) => if k == key && row.Some? then Some(prior.(day := day, seen := seen)) else row
    case ForgetIdle(before, quiet) =>
      if key in quiet && row.Some? && 0 < prior.day <= before && (prior.seen == 0 || prior.seen <= before) then None else row
    case ForgetChat(chat) => if chat != 0 && key.chat == chat then None else row
    case _ => row
  }

  function OneLess(row: Option<Counter>): Option<Counter> {
    if row.Some? && row.value.warns > 0 then Some(row.value.(warns := row.value.warns - 1)) else row
  }

  /** A note after one operation. */
  function NoteAfter(limits: Limits, t: Tables, op: Op, key: Key): Option<string> {
    var row := At(t.notes, key);
    match op
    case SetNote(k, value, size) =>
      if k != key || size > 16384 then row
      else if value == "" then None
      else if NoteRoom(limits, t, key) then Some(value)
      else row
    case ForgetChat(chat) => if chat != 0 && key.chat == chat then None else row
    case _ => row
  }

  /** The token sequence moves by one for a queued penalty and for a lease. */
  function NextAfter(limits: Limits, t: Tables, op: Op): nat {
    match op
    case IncrementWarning(key, _, _, _) =>
      if key !in t.pending && PendingAfter(limits, t, op, key).Some? then t.next + 1 else t.next
    case Claim(key, now, _) => if PendingAfter(limits, t, op, key) != At(t.pending, key) then t.next + 1 else t.next
    case _ => t.next
  }

  // ---------------------------------------------------------------- both views agree

  lemma RoomIsAdmitted(limits: Limits, t: Tables, key: Key)
    ensures Room(limits, t, key) <==> CounterAdmitted(limits, t, key)
    ensures NoteRoom(limits, t, key) <==> NoteAdmitted(limits, t, key)
  {
    assert OfChat(t.counters, key.chat) == |InChat(t.counters, key.chat)|;
    assert OfChat(t.notes, key.chat) == |InChat(t.notes, key.chat)|;
  }

  lemma PendingBecomes(limits: Limits, t: Tables, op: Op, key: Key)
    ensures At(Apply(limits, t, op).pending, key) == PendingAfter(limits, t, op, key)
  {
    hide CounterAdmitted, NoteAdmitted, Room, NoteRoom, Quiet, Idle;
    match op
    case IncrementWarning(k, _, _, _) => RoomIsAdmitted(limits, t, k);
    case _ =>
  }

  lemma CounterBecomes(limits: Limits, t: Tables, op: Op, key: Key)
    ensures At(Apply(limits, t, op).counters, key) == CounterAfter(limits, t, op, key)
  {
    hide CounterAdmitted, NoteAdmitted, Room, NoteRoom, Stale;
    match op
    case CreditAdd(k, _, _) => RoomIsAdmitted(limits, t, k);
    case IncrementWarning(k, _, _, _) => RoomIsAdmitted(limits, t, k);
    case _ =>
  }

  lemma NoteBecomes(limits: Limits, t: Tables, op: Op, key: Key)
    ensures At(Apply(limits, t, op).notes, key) == NoteAfter(limits, t, op, key)
  {
    hide CounterAdmitted, NoteAdmitted, Room, NoteRoom, Quiet, Idle, Stale, Claimable, IsCurrent;
    match op
    case SetNote(k, _, _) => RoomIsAdmitted(limits, t, k);
    case _ =>
  }

  lemma NextBecomes(limits: Limits, t: Tables, op: Op)
    ensures Apply(limits, t, op).next == NextAfter(limits, t, op)
  {
    hide CounterAdmitted, NoteAdmitted, Room, NoteRoom, Quiet, Idle, Stale, IsCurrent;
    match op
    case IncrementWarning(k, _, _, _) => RoomIsAdmitted(limits, t, k);
    case _ =>
  }

  /** Every operation makes of every row of every member what is said above, and of the counts the numbers of rows. */
  lemma EveryRowBecomes(limits: Limits, t: Tables, op: Op, key: Key)
    ensures var u := Apply(limits, t, op);
      && At(u.pending, key) == PendingAfter(limits, t, op, key)
      && At(u.counters, key) == CounterAfter(limits, t, op, key)
      && At(u.notes, key) == NoteAfter(limits, t, op, key)
      && u.next == NextAfter(limits, t, op)
      && (CountsInv(limits, t) ==> u.counterRows == |u.counters| && u.noteRows == |u.notes|)
  {
    hide Apply, PendingAfter, CounterAfter, NoteAfter, NextAfter;
    PendingBecomes(limits, t, op, key);
    CounterBecomes(limits, t, op, key);
    NoteBecomes(limits, t, op, key);
    NextBecomes(limits, t, op);
    if CountsInv(limits, t) {
      StepKeepsCounts(limits, t, op);
    }
  }

  /** The members an operation is about. */
  predicate Names(op: Op, key: Key) {
    match op
    case PurgeStale(_, victims) => key in victims
    case ForgetIdle(_, quiet) => key in quiet
    case ForgetChat(chat) => chat != 0 && key.chat == chat
    case Defer(ticket, _) => ticket.key == key
    case AwaitRejoin(ticket) => ticket.key == key
    case CompleteAction(ticket) => ticket.key == key
    case TerminateAction(ticket) => ticket.key == key
    case _ => op.key == key
  }

  /** Over whole runs: a member no operation names keeps its counter, its note and its penalty. */
  lemma {:induction false} UnnamedStay(limits: Limits, t: Tables, ops: seq<Op>, key: Key)
    requires forall op :: op in ops ==> !Names(op, key)
    ensures var u := After(limits, t, ops);
      At(u.pending, key) == At(t.pending, key) && At(u.counters, key) == At(t.counters, key) &&
      At(u.notes, key) == At(t.notes, key)
  {
    hide Apply, Names, PendingAfter, CounterAfter, NoteAfter;
    if ops != [] {
      var front, last := ops[..|ops| - 1], ops[|ops| - 1];
      UnnamedStay(limits, t, front, key);
      UnnamedIsSame(limits, After(limits, t, front), last, key);
      EveryRowBecomes(limits, After(limits, t, front), last, key);
    }
  }

  lemma UnnamedIsSame(limits: Limits, t: Tables, op: Op, key: Key)
    requires !Names(op, key)
    ensures PendingAfter(limits, t, op, key) == At(t.pending, key)
    ensures CounterAfter(limits, t, op, key) == At(t.counters, key)
    ensures NoteAfter(limits, t, op, key) == At(t.notes, key)
  {
    hide Room, NoteRoom;
  }

  /** The rows of all other chats. */
  function Elsewhere<V>(rows: map<Key, V>, chat: int): map<Key, V> {
    map key | key in rows && key.chat != chat :: rows[key]
  }

  lemma WithoutChat<V>(rows: map<Key, V>, chat: int)
    ensures rows - InChat(rows, chat) == Elsewhere(rows, chat)
  {
  }

  lemma ForgetTakesRows(limits: Limits, t: Tables, chat: int)
    ensures var u := Apply(limits, t, ForgetChat(chat));
      if chat == 0 then u == t
      else u.counters == Elsewhere(t.counters, chat) && u.notes == Elsewhere(t.notes, chat) &&
           u.pending == Elsewhere(t.pending, chat) && u.next == t.next
  {
    hide InChat, Elsewhere;
    WithoutChat(t.counters, chat);
    WithoutChat(t.notes, chat);
    WithoutChat(t.pending, chat);
  }

  /** Forgetting a chat takes exactly that chat's rows, and the counts fall by as many. */
  lemma ForgetTakesTheChat(limits: Limits, t: Tables, chat: int)
    requires CountsInv(limits, t) && chat != 0
    ensures var u := Apply(limits, t, ForgetChat(chat));
      && u.counters == Elsewhere(t.counters, chat) && u.notes == Elsewhere(t.notes, chat)
      && u.pending == Elsewhere(t.pending, chat)
      && u.counterRows + OfChat(t.counters, chat) == t.counterRows
      && u.noteRows + OfChat(t.notes, chat) == t.noteRows
      && u.next == t.next
  {
    hide InChat, Elsewhere, OfChat;
    ForgetTakesRows(limits, t, chat);
    ChatSize(t.counters, chat);
    ChatSize(t.notes, chat);
  }

  lemma ChatSize<V>(rows: map<Key, V>, chat: int)
    ensures OfChat(rows, chat) == |InChat(rows, chat)| <= |rows|
  {
    assert InChat(rows, chat) <= rows.Keys;
    assert |InChat(rows, chat)| + |rows.Keys - InChat(rows, chat)| == |rows.Keys|;
  }
}
