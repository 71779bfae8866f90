/**
 The transactions of src/state.rs on the durable tables, statement by statement: each field is one table, each
 assignment one statement, and a method that returns early leaves what it did not reach untouched.
 */
module DurableStore {
  import opened Options
  import opened DurableWork
  import opened WarningLeases
  import DurableRows
  import SettingsTable

  /** What `increment_warning` answers: the count, the penalty now pending, and whether a warning was added. */
  datatype Increment = Counted(count: nat, pending: Option<Penalty>, added: bool) | Refused

  datatype NoteResult = Stored | ValueTooLarge | ChatFull | ShardFull

  datatype Reversal = Reversed | NoWarning | CaseChanged

  datatype QueueClass = Fresh | Retry

  predicate Due(t: Tables, class_: QueueClass, key: Key, now: int) {
    Claimable(t, key, now) && (class_ == Fresh <==> t.pending[key].attempts == 0)
  }

  class Store {
    const limits: Limits
    var counters: map<Key, Counter>
    var notes: map<Key, string>
    var pending: map<Key, Pending>
    var counterRows: nat
    var noteRows: nat
    var next: nat

    ghost function View(): Tables
      reads this
    {
      Tables(counters, notes, pending, counterRows, noteRows, next)
    }

    constructor (limits: Limits)
      ensures View() == EMPTY && this.limits == limits
    {
      this.limits := limits;
      counters, notes, pending := map[], map[], map[];
      counterRows, noteRows, next := 0, 0, 0;
    }

    /** The upsert that every counter writer shares: reserve a row unless one exists, then write it. */
    method Upsert(key: Key, row: Counter) returns (written: bool)
      modifies this`counters, this`counterRows
      ensures written <==> CounterAdmitted(limits, old(View()), key)
      ensures View() == if written then WriteCounter(old(View()), key, row) else old(View())
    {
      var existing := key in counters;
      var admitted := |InChat(counters, key.chat)| < MAX_COUNTER_ROWS_PER_CHAT;
      var reserved := !existing && counterRows < limits.counterRows && admitted;
      if reserved {
        counterRows := counterRows + 1;
      }
      if existing || reserved {
        counters := counters[key := row];
        return true;
      }
      return false;
    }

    method CreditAdd(key: Key, name: string, added: nat) returns (adds: Option<nat>)
      modifies this
      ensures View() == Apply(limits, old(View()), DurableWork.CreditAdd(key, name, added))
      ensures adds == if CounterAdmitted(limits, old(View()), key)
                      then Some(OldCounter(old(View()), key).adds + added) else None
    {
      var row := if key in counters then counters[key] else FRESH;
      var total := row.adds + added;
      var written := Upsert(key, row.(adds := total, name := if name == "" then row.name else name));
      adds := if written then Some(total) else None;
    }

    /** A pending penalty answers for the member; otherwise count, and queue the penalty once the limit is met. */
    method IncrementWarning(key: Key, limit: nat, penalty: Penalty, now: int) returns (result: Increment)
      modifies this
      ensures View() == Apply(limits, old(View()), DurableWork.IncrementWarning(key, limit, penalty, now))
      ensures result.Counted? ==>
                result.count == Warns(View(), key) && (result.pending.Some? <==> key in pending) &&
                (result.added <==> key !in old(pending)) &&
                result.pending == if key in old(pending) then Some(old(pending[key].penalty))
                                  else if key in pending then Some(penalty) else None
      ensures result.Refused? <==> key !in old(pending) && !CounterAdmitted(limits, old(View()), key)
    {
      if key in pending {
        var count := if key in counters then counters[key].warns else 0;
        return Counted(count, Some(pending[key].penalty), false);
      }
      var row := if key in counters then counters[key] else FRESH;
      var count := row.warns + 1;
      var written := Upsert(key, row.(warns := count));
      if !written {
        return Refused;
      }
      var due := if count >= limit then Some(penalty) else None;
      if due.Some? {
        pending := pending[key := Pending(penalty, now, now, 0, next, 1, None, false)];
        next := next + 1;
      }
      result := Counted(count, due, true);
    }

    method DecrementWarning(key: Key) returns (count: nat)
      modifies this
      ensures View() == Apply(limits, old(View()), DurableWork.DecrementWarning(key))
      ensures count == Warns(View(), key) && key !in pending
    {
      pending := pending - {key};
      count := 0;
      if key in counters {
        count := Greatest(counters[key].warns - 1);
        counters := counters[key := counters[key].(warns := count)];
      }
    }

    method Claim(key: Key, now: int, until: int) returns (ticket: Option<Ticket>)
      modifies this
      ensures View() == Apply(limits, old(View()), DurableWork.Claim(key, now, until))
      ensures ticket.Some? <==> Claimable(old(View()), key, now)
      ensures ticket.Some? ==> Issued(old(View()), DurableWork.Claim(key, now, until)) == [Issue(ticket.value, until)]
    {
      if key !in pending || now < pending[key].claimedUntil || pending[key].awaitingRejoin {
        return None;
      }
      var token := next;
      next := next + 1;
      var row := pending[key];
      row := row.(claimedUntil := until, attempts := row.attempts + 1, version := row.version + 1, lease := Some(token));
      pending := pending[key := row];
      ticket := Some(TicketOf(key, row, token));
    }

    /** Claims the rows a queue pass selected, in order; every ticket it returns is current when it returns. */
    method ClaimPending(class_: QueueClass, now: int, until: int, due: seq<Key>) returns (tickets: seq<Ticket>)
      requires forall i :: 0 <= i < |due| ==> Due(View(), class_, due[i], now)
      requires forall i, j :: 0 <= i < j < |due| ==> due[i] != due[j]
      modifies this
      ensures View() == After(limits, old(View()), Claims(due, now, until))
      ensures |tickets| == |due|
      ensures forall i :: 0 <= i < |due| ==>
                tickets[i].key == due[i] && IsCurrent(View(), tickets[i]) && old(next) <= tickets[i].token < next
      ensures forall i, j :: 0 <= i < j < |due| ==> tickets[i].token != tickets[j].token
      ensures forall key :: key !in due ==> RowAt(View(), key) == RowAt(old(View()), key)
    {
      hide After, Claims;
      tickets := [];
      NoClaims(limits, View(), now, until);
      assert due[..0] == [];
      for n := 0 to |due|
        invariant View() == After(limits, old(View()), Claims(due[..n], now, until))
        invariant |tickets| == n && next == old(next) + n
        invariant forall i :: 0 <= i < n ==>
                    tickets[i].key == due[i] && IsCurrent(View(), tickets[i]) && tickets[i].token == old(next) + i
        invariant forall key :: key !in due[..n] ==> RowAt(View(), key) == RowAt(old(View()), key)
      {
        assert due[n] !in due[..n];
        assert RowAt(View(), due[n]) == RowAt(old(View()), due[n]);
        var ticket := Claim(due[n], now, until);
        tickets := tickets + [ticket.value];
        assert due[..n + 1] == due[..n] + [due[n]];
        OneMoreClaim(limits, old(View()), due[..n], due[n], now, until);
      }
      assert due[..|due|] == due;
    }

    method IsStillCurrent(ticket: Ticket) returns (current: bool)
      ensures current <==> IsCurrent(View(), ticket)
    {
      if ticket.key !in pending {
        return false;
      }
      var row := pending[ticket.key];
      current := row.penalty == ticket.penalty && row.attempts == ticket.attempts &&
                 row.generation == ticket.generation && row.version == ticket.version &&
                 row.lease == Some(ticket.token);
    }

    method Defer(ticket: Ticket, retryAt: int) returns (changed: bool)
      modifies this
      ensures View() == Apply(limits, old(View()), DurableWork.Defer(ticket, retryAt))
      ensures changed <==> IsCurrent(old(View()), ticket)
      ensures !IsCurrent(View(), ticket)
      ensures changed ==> forall now :: Claimable(View(), ticket.key, now) <==> retryAt <= now
    {
      changed := IsStillCurrent(ticket);
      if changed {
        var row := pending[ticket.key];
        pending := pending[ticket.key := row.(claimedUntil := retryAt, lease := None, awaitingRejoin := false)];
      }
    }

    method AwaitRejoin(ticket: Ticket) returns (changed: bool)
      modifies this
      ensures View() == Apply(limits, old(View()), DurableWork.AwaitRejoin(ticket))
      ensures changed <==> IsCurrent(old(View()), ticket)
      ensures !IsCurrent(View(), ticket)
      ensures changed ==> ticket.key in pending && forall now :: !Claimable(View(), ticket.key, now)
    {
      changed := IsStillCurrent(ticket);
      if changed {
        pending := pending[ticket.key := pending[ticket.key].(awaitingRejoin := true, lease := None)];
      }
    }

    method ResumeOnRejoin(key: Key, now: int) returns (changed: bool)
      modifies this
      ensures View() == Apply(limits, old(View()), DurableWork.ResumeOnRejoin(key, now))
      ensures changed ==> Claimable(View(), key, now)
      ensures changed <==> pending != old(pending)
    {
      changed := key in pending && pending[key].awaitingRejoin && pending[key].lease == None;
      if changed {
        pending := pending[key := pending[key].(awaitingRejoin := false, claimedUntil := now)];
      }
    }

    method Complete(ticket: Ticket) returns (removed: bool)
      modifies this
      ensures View() == Apply(limits, old(View()), DurableWork.CompleteAction(ticket))
      ensures removed <==> IsCurrent(old(View()), ticket)
      ensures removed ==> ticket.key !in pending && Warns(View(), ticket.key) == 0
    {
      removed := IsStillCurrent(ticket);
      if removed {
        pending := pending - {ticket.key};
        if ticket.key in counters {
          counters := counters[ticket.key := counters[ticket.key].(warns := 0)];
        }
      }
    }

    method Terminate(ticket: Ticket) returns (removed: bool)
      modifies this
      ensures View() == Apply(limits, old(View()), DurableWork.TerminateAction(ticket))
      ensures removed <==> IsCurrent(old(View()), ticket)
      ensures counters == old(counters)
    {
      removed := IsStillCurrent(ticket);
      if removed {
        pending := pending - {ticket.key};
      }
    }

    /** Takes the chosen rows that nobody holds and that are old enough; a leased row stays. */
    method PurgeStale(before: int, victims: set<Key>) returns (removed: nat)
      modifies this
      ensures View() == Apply(limits, old(View()), DurableWork.PurgeStale(before, victims))
      ensures removed + |pending| == |old(pending)|
      ensures forall key :: key in old(pending) && old(pending)[key].lease.Some? ==>
                key in pending && pending[key] == old(pending)[key]
    {
      var stale := set key | key in victims && key in pending && Stale(pending[key], before);
      DropCount(pending, stale);
      removed := |stale|;
      pending := pending - stale;
    }

    /** One warning back, if there is one and its case could still be reversed. */
    method ReverseWarning(key: Key, caseOpen: bool) returns (result: Reversal)
      modifies this
      ensures result == if Warns(old(View()), key) == 0 then NoWarning else if caseOpen then Reversed else CaseChanged
      ensures View() == if result == Reversed then Apply(limits, old(View()), DurableWork.ReverseWarning(key)) else old(View())
      ensures result == Reversed ==> Warns(View(), key) + 1 == Warns(old(View()), key)
    {
      if key !in counters || counters[key].warns == 0 {
        return NoWarning;
      }
      if !caseOpen {
        return CaseChanged;
      }
      counters := counters[key := counters[key].(warns := counters[key].warns - 1)];
      result := Reversed;
    }

    method SetNote(key: Key, value: string, valueBytes: nat) returns (result: NoteResult)
      modifies this
      ensures View() == Apply(limits, old(View()), DurableWork.SetNote(key, value, valueBytes))
      ensures result == ValueTooLarge <==> valueBytes > SettingsTable.MAX_SETTING_VALUE_BYTES
      ensures result == Stored <==>
                valueBytes <= SettingsTable.MAX_SETTING_VALUE_BYTES &&
                (value == "" || DurableRows.NoteRoom(limits, old(View()), key))
      ensures result == Stored ==> (if value == "" then key !in notes else key in notes && notes[key] == value)
      ensures result == ChatFull ==> DurableRows.OfChat(notes, key.chat) >= 20_000 && notes == old(notes)
      ensures result == ShardFull ==>
                DurableRows.OfChat(notes, key.chat) < 20_000 && noteRows >= limits.noteRows && notes == old(notes)
    {
      DurableRows.RoomIsAdmitted(limits, View(), key);
      DurableRows.ChatSize(notes, key.chat);
      if valueBytes > SettingsTable.MAX_SETTING_VALUE_BYTES {
        return ValueTooLarge;
      }
      if value == "" {
        if key in notes {
          notes := notes - {key};
          noteRows := Greatest(noteRows - 1);
        }
        return Stored;
      }
      if key !in notes {
        if |InChat(notes, key.chat)| >= MAX_NOTE_ROWS_PER_CHAT {
          return ChatFull;
        }
        if noteRows >= limits.noteRows {
          return ShardFull;
        }
        noteRows := noteRows + 1;
      }
      notes := notes[key := value];
      result := Stored;
    }

    /**
     The rows are chosen before the locks are taken, so each is looked at again before it goes. `full` tells the caller
     that the choice reached its limit, so that more may be waiting.
     */
    method ForgetIdle(before: int, limit: int, quiet: set<Key>) returns (deleted: nat, full: bool)
      modifies this
      ensures View() == Apply(limits, old(View()), DurableWork.ForgetIdle(before, quiet))
      ensures deleted == |Idle(old(View()), before, quiet)|
      ensures full <==> quiet != {} && |quiet| >= limit
      ensures forall key :: key in old(counters) ==>
                (key in counters <==> key !in quiet || !Quiet(old(counters)[key], before))
    {
      if quiet == {} {
        assert counters - Idle(View(), before, quiet) == counters;
        return 0, false;
      }
      full := |quiet| >= limit;
      var removed := set key | key in quiet && key in counters && Quiet(counters[key], before);
      assert removed == Idle(View(), before, quiet);
      deleted := |removed|;
      counters := counters - removed;
      counterRows := Greatest(counterRows - deleted);
    }

    method ForgetChat(chat: int)
      modifies this
      ensures View() == Apply(limits, old(View()), DurableWork.ForgetChat(chat))
      ensures chat != 0 ==>
                counters == DurableRows.Elsewhere(old(counters), chat) && notes == DurableRows.Elsewhere(old(notes), chat) &&
                pending == DurableRows.Elsewhere(old(pending), chat)
      ensures chat == 0 ==> View() == old(View())
    {
      if chat == 0 {
        return;
      }
      var goneCounters, goneNotes := InChat(counters, chat), InChat(notes, chat);
      counters := counters - goneCounters;
      notes := notes - goneNotes;
      pending := pending - InChat(pending, chat);
      counterRows := Greatest(counterRows - |goneCounters|);
      noteRows := Greatest(noteRows - |goneNotes|);
      assert View() == Apply(limits, old(View()), DurableWork.ForgetChat(chat));
      hide Apply, InChat, CountsInv, DurableRows.Elsewhere;
      DurableRows.ForgetTakesRows(limits, old(View()), chat);
    }
  }
}
