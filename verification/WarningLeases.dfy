/**
 The lease protocol of warning penalties: every claim of a row issues a ticket, and a ticket is honoured only while the
 row still carries everything the ticket copied. A log follows a run and remembers every ticket ever issued and every
 generation ever completed, so that fencing can be stated over whole runs.
 */
module WarningLeases {
  import opened Options
  import opened DurableWork

  datatype Issue = Issue(ticket: Ticket, until: int)

  datatype Log = Log(tables: Tables, issued: seq<Issue>, completed: seq<nat>)

  const START: Log := Log(EMPTY, [], [])

  function Issued(t: Tables, op: Op): seq<Issue> {
    if op.Claim? && Claimable(t, op.key, op.now) then
      var row := t.pending[op.key];
      [Issue(Ticket(op.key, row.penalty, row.attempts + 1, row.generation, row.version + 1, t.next), op.until)]
    else []
  }

  function Completed(t: Tables, op: Op): seq<nat> {
    if op.CompleteAction? && IsCurrent(t, op.ticket) then [op.ticket.generation] else []
  }

  function Step(limits: Limits, log: Log, op: Op): Log {
    Log(Apply(limits, log.tables, op), log.issued + Issued(log.tables, op), log.completed + Completed(log.tables, op))
  }

  function Run(limits: Limits, log: Log, ops: seq<Op>): Log {
    if ops == [] then log else Step(limits, Run(limits, log, ops[..|ops| - 1]), ops[|ops| - 1])
  }

  /** A log's tables are those of the plain run. */
  lemma {:induction false} RunIsAfter(limits: Limits, log: Log, ops: seq<Op>)
    ensures Run(limits, log, ops).tables == After(limits, log.tables, ops)
  {
    hide Apply, Issued, Completed;
    if ops != [] {
      RunIsAfter(limits, log, ops[..|ops| - 1]);
    }
  }

  /** So every log, too, keeps the row counts and the caps. */
  lemma {:induction false} LogKeepsCounts(limits: Limits, ops: seq<Op>)
    ensures CountsInv(limits, Run(limits, START, ops).tables)
  {
    hide CountsInv, Run, After;
    EmptyCounts(limits);
    RunIsAfter(limits, START, ops);
    RunKeepsCounts(limits, EMPTY, ops);
  }

  // ---------------------------------------------------------------- rows of the queue

  predicate RowOk(row: Pending, next: nat) {
    && row.version == row.attempts + 1
    && row.generation < next
    && (row.lease.Some? ==> row.lease.value < next && row.attempts > 0)
    && (row.awaitingRejoin ==> row.lease == None)
  }

  ghost predicate RowInv(t: Tables) {
    && (forall key :: key in t.pending ==> RowOk(t.pending[key], t.next))
    && (forall a, b :: a in t.pending && b in t.pending && a != b ==> Apart(t.pending[a], t.pending[b]))
  }

  predicate Apart(a: Pending, b: Pending) {
    a.generation != b.generation && (a.lease.Some? ==> a.lease != b.lease)
  }

  function RowAt(t: Tables, key: Key): Option<Pending> {
    if key in t.pending then Some(t.pending[key]) else None
  }

  /** The operations that may change a row that is in the queue, and the only ones that may add one. */
  predicate Touches(t: Tables, op: Op, key: Key) {
    match op
    case IncrementWarning(k, _, _, _) => k == key
    case DecrementWarning(k) => k == key
    case Claim(k, _, _) => k == key
    case Defer(ticket, _) => ticket.key == key && IsCurrent(t, ticket)
    case AwaitRejoin(ticket) => ticket.key == key && IsCurrent(t, ticket)
    case CompleteAction(ticket) => ticket.key == key && IsCurrent(t, ticket)
    case TerminateAction(ticket) => ticket.key == key && IsCurrent(t, ticket)
    case ResumeOnRejoin(k, _) => k == key
    case PurgeStale(before, victims) => key in victims && key in t.pending && Stale(t.pending[key], before)
    case ForgetChat(chat) => key.chat == chat && chat != 0
    case _ => false
  }

  lemma {:induction false} UntouchedStays(limits: Limits, t: Tables, op: Op, key: Key)
    requires !Touches(t, op, key)
    ensures RowAt(Apply(limits, t, op), key) == RowAt(t, key)
    ensures t.next <= Apply(limits, t, op).next
  {
    hide CounterAdmitted, NoteAdmitted, Stale, Quiet, Idle;
  }

  /** What one operation does to a row: nothing, remove it, add a fresh one, claim it, or put its lease down. */
  predicate RowStep(prior: Option<Pending>, later: Option<Pending>, next: nat, nextAfter: nat) {
    || later == prior
    || later == None
    || (prior == None && nextAfter == next + 1 &&
        later.value == Pending(later.value.penalty, later.value.createdAt, later.value.createdAt, 0, next, 1, None, false))
    || (prior.Some? && nextAfter == next + 1 && !prior.value.awaitingRejoin &&
        later.value == prior.value.(claimedUntil := later.value.claimedUntil, attempts := prior.value.attempts + 1,
                                version := prior.value.version + 1, lease := Some(next)))
    || (prior.Some? &&
        later.value == prior.value.(claimedUntil := later.value.claimedUntil, lease := None,
                                awaitingRejoin := later.value.awaitingRejoin))
  }

  lemma {:induction false} TouchedSteps(limits: Limits, t: Tables, op: Op, key: Key)
    requires Touches(t, op, key)
    ensures RowStep(RowAt(t, key), RowAt(Apply(limits, t, op), key), t.next, Apply(limits, t, op).next)
    ensures t.next <= Apply(limits, t, op).next
  {
    hide CounterAdmitted, NoteAdmitted, Stale, Quiet, Idle;
  }

  /** Only a single row draws on the token sequence in one operation. */
  lemma {:induction false} DrawsOnce(limits: Limits, t: Tables, op: Op, a: Key, b: Key)
    requires a != b && Touches(t, op, a) && Touches(t, op, b)
    ensures Apply(limits, t, op).next == t.next
    ensures RowAt(Apply(limits, t, op), a) == None && RowAt(Apply(limits, t, op), b) == None
  {
  }

  lemma {:induction false} OneRowKeeps(prior: Option<Pending>, later: Option<Pending>, next: nat, nextAfter: nat)
    requires RowStep(prior, later, next, nextAfter) && next <= nextAfter
    requires prior.Some? ==> RowOk(prior.value, next)
    ensures later.Some? ==> RowOk(later.value, nextAfter)
  {
  }

  lemma {:induction false} AnyRowSteps(limits: Limits, t: Tables, op: Op, key: Key)
    ensures RowStep(RowAt(t, key), RowAt(Apply(limits, t, op), key), t.next, Apply(limits, t, op).next)
    ensures t.next <= Apply(limits, t, op).next
  {
    hide Apply, Touches, RowAt;
    if Touches(t, op, key) {
      TouchedSteps(limits, t, op, key);
    } else {
      UntouchedStays(limits, t, op, key);
    }
  }

  lemma {:induction false} StaysApart(limits: Limits, t: Tables, op: Op, a: Key, b: Key)
    requires RowInv(t) && a != b
    requires a in Apply(limits, t, op).pending && b in Apply(limits, t, op).pending
    ensures Apart(Apply(limits, t, op).pending[a], Apply(limits, t, op).pending[b])
  {
    hide Apply, Touches;
    AnyRowSteps(limits, t, op, a);
    AnyRowSteps(limits, t, op, b);
    if !Touches(t, op, a) {
      UntouchedStays(limits, t, op, a);
    } else if !Touches(t, op, b) {
      UntouchedStays(limits, t, op, b);
    } else {
      DrawsOnce(limits, t, op, a, b);
    }
  }

  /** `version = attempts + 1`, a row awaiting a rejoin holds no lease, and generations and tokens are never shared. */
  lemma {:induction false} StepKeepsRows(limits: Limits, t: Tables, op: Op)
    requires RowInv(t)
    ensures RowInv(Apply(limits, t, op))
  {
    hide Apply, RowOk, Apart, RowStep;
    var u := Apply(limits, t, op);
    forall key | key in u.pending ensures RowOk(u.pending[key], u.next) {
      AnyRowSteps(limits, t, op, key);
      OneRowKeeps(RowAt(t, key), RowAt(u, key), t.next, u.next);
    }
    forall a, b | a in u.pending && b in u.pending && a != b ensures Apart(u.pending[a], u.pending[b]) {
      StaysApart(limits, t, op, a, b);
    }
  }

  // ---------------------------------------------------------------- issued tickets

  /** Issued ticket `i` still entitles its holder to act. */
  predicate Holds(log: Log, i: nat)
    requires i < |log.issued|
  {
    IsCurrent(log.tables, log.issued[i].ticket)
  }

  ghost predicate LogInv(log: Log) {
    && RowInv(log.tables)
    && TokensInv(log)
    && UntilInv(log)
    && CompletedInv(log)
  }

  ghost predicate TokensInv(log: Log) {
    && (forall i :: 0 <= i < |log.issued| ==> log.issued[i].ticket.token < log.tables.next)
    && (forall i, j :: 0 <= i < j < |log.issued| ==> log.issued[i].ticket.token != log.issued[j].ticket.token)
  }

  ghost predicate UntilInv(log: Log) {
    forall i :: 0 <= i < |log.issued| && Holds(log, i) ==>
      log.tables.pending[log.issued[i].ticket.key].claimedUntil == log.issued[i].until
  }

  ghost predicate CompletedInv(log: Log) {
    && (forall g :: g in log.completed ==> g < log.tables.next)
    && (forall key, g :: key in log.tables.pending && g in log.completed ==> log.tables.pending[key].generation != g)
    && (forall i, j :: 0 <= i < j < |log.completed| ==> log.completed[i] != log.completed[j])
  }

  /** A token already drawn is on a row after a step only if the row did not change at all. */
  lemma {:induction false} HeldMeansUnchanged(limits: Limits, t: Tables, op: Op, ticket: Ticket)
    requires ticket.token < t.next && IsCurrent(Apply(limits, t, op), ticket)
    ensures RowAt(Apply(limits, t, op), ticket.key) == RowAt(t, ticket.key)
    ensures IsCurrent(t, ticket)
  {
    hide Apply;
    AnyRowSteps(limits, t, op, ticket.key);
  }

  lemma {:induction false} NewTicketHolds(limits: Limits, t: Tables, op: Op)
    requires Issued(t, op) != []
    ensures IsCurrent(Apply(limits, t, op), Issued(t, op)[0].ticket)
    ensures Apply(limits, t, op).pending[op.key].claimedUntil == op.until
    ensures Apply(limits, t, op).next == t.next + 1
    ensures Issued(t, op)[0].ticket.token == t.next && Issued(t, op)[0].until == op.until && Issued(t, op)[0].ticket.key == op.key
  {
  }

  lemma {:induction false} StepKeepsTokens(limits: Limits, log: Log, op: Op)
    requires LogInv(log)
    ensures TokensInv(Step(limits, log, op))
  {
    hide Apply, RowInv, UntilInv, CompletedInv, Claimable, IsCurrent;
    AnyRowSteps(limits, log.tables, op, Key(0, 0));
    if Issued(log.tables, op) != [] {
      NewTicketHolds(limits, log.tables, op);
    }
  }

  lemma {:induction false} StepKeepsUntil(limits: Limits, log: Log, op: Op)
    requires LogInv(log)
    ensures UntilInv(Step(limits, log, op))
  {
    hide Apply, RowInv, CompletedInv, Claimable, Issued;
    var after := Step(limits, log, op);
    forall i | 0 <= i < |after.issued| && Holds(after, i)
      ensures after.tables.pending[after.issued[i].ticket.key].claimedUntil == after.issued[i].until
    {
      if i < |log.issued| {
        HeldMeansUnchanged(limits, log.tables, op, log.issued[i].ticket);
        assert Holds(log, i);
      } else {
        IssuesAtMostOne(log.tables, op);
        NewTicketHolds(limits, log.tables, op);
      }
    }
  }

  lemma IssuesAtMostOne(t: Tables, op: Op)
    ensures |Issued(t, op)| <= 1
  {
  }

  lemma {:induction false} CompletionRemoves(limits: Limits, t: Tables, op: Op)
    requires Completed(t, op) != []
    ensures op.CompleteAction?
    ensures Apply(limits, t, op).pending == t.pending - {op.ticket.key} && Apply(limits, t, op).next == t.next
    ensures op.ticket.key in t.pending && Completed(t, op) == [t.pending[op.ticket.key].generation]
  {
  }

  lemma {:induction false} StepKeepsCompleted(limits: Limits, log: Log, op: Op)
    requires LogInv(log)
    ensures CompletedInv(Step(limits, log, op))
  {
    hide Apply, TokensInv, UntilInv, Claimable, IsCurrent, Completed;
    var t, after := log.tables, Step(limits, log, op);
    AnyRowSteps(limits, t, op, Key(0, 0));
    if Completed(t, op) != [] {
      CompletionRemoves(limits, t, op);
      var gone := op.ticket.key;
      assert RowOk(t.pending[gone], t.next);
      assert t.pending[gone].generation !in log.completed;
      forall key | key in after.tables.pending ensures after.tables.pending[key].generation !in after.completed {
        assert Apart(t.pending[key], t.pending[gone]);
      }
    } else {
      assert after.completed == log.completed;
      forall key, g | key in after.tables.pending && g in after.completed
        ensures after.tables.pending[key].generation != g
      {
        AnyRowSteps(limits, t, op, key);
      }
    }
  }

  lemma {:induction false} StepKeepsLog(limits: Limits, log: Log, op: Op)
    requires LogInv(log)
    ensures LogInv(Step(limits, log, op))
  {
    hide Apply, RowInv, TokensInv, UntilInv, CompletedInv;
    StepKeepsRows(limits, log.tables, op);
    StepKeepsTokens(limits, log, op);
    StepKeepsUntil(limits, log, op);
    StepKeepsCompleted(limits, log, op);
  }

  lemma {:induction false} RunKeepsLog(limits: Limits, log: Log, ops: seq<Op>)
    requires LogInv(log)
    ensures LogInv(Run(limits, log, ops))
  {
    hide LogInv, Step;
    if ops != [] {
      RunKeepsLog(limits, log, ops[..|ops| - 1]);
      StepKeepsLog(limits, Run(limits, log, ops[..|ops| - 1]), ops[|ops| - 1]);
    }
  }

  lemma StartIsGood()
    ensures LogInv(START)
  {
  }

  // ---------------------------------------------------------------- fencing over whole runs

  /** At most one issued ticket of a member is current, in every reachable state. */
  lemma {:induction false} AtMostOneHolder(limits: Limits, ops: seq<Op>, i: nat, j: nat)
    requires var log := Run(limits, START, ops);
      && i < |log.issued| && j < |log.issued| && log.issued[i].ticket.key == log.issued[j].ticket.key
      && Holds(log, i) && Holds(log, j)
    ensures i == j
  {
    hide Run;
    StartIsGood();
    RunKeepsLog(limits, START, ops);
  }

  /** The tickets a log holds stay in it, whatever happens next. */
  lemma {:induction false} IssuedStay(limits: Limits, log: Log, ops: seq<Op>)
    ensures log.issued <= Run(limits, log, ops).issued
    ensures log.tables.next <= Run(limits, log, ops).tables.next
  {
    hide Apply, Issued, Completed;
    if ops != [] {
      IssuedStay(limits, log, ops[..|ops| - 1]);
      AnyRowSteps(limits, Run(limits, log, ops[..|ops| - 1]).tables, ops[|ops| - 1], Key(0, 0));
    }
  }

  /** A ticket that stopped being current never becomes current again. */
  lemma {:induction false} LostForever(limits: Limits, log: Log, ops: seq<Op>, i: nat)
    requires LogInv(log) && i < |log.issued| && !Holds(log, i)
    ensures !IsCurrent(Run(limits, log, ops).tables, log.issued[i].ticket)
  {
    hide Apply, IsCurrent, RowInv, UntilInv, CompletedInv, Issued, Completed;
    if ops != [] {
      var before := Run(limits, log, ops[..|ops| - 1]);
      LostForever(limits, log, ops[..|ops| - 1], i);
      IssuedStay(limits, log, ops[..|ops| - 1]);
      if IsCurrent(Apply(limits, before.tables, ops[|ops| - 1]), log.issued[i].ticket) {
        HeldMeansUnchanged(limits, before.tables, ops[|ops| - 1], log.issued[i].ticket);
      }
    }
  }

  /** So a holder that lost its lease can do nothing with its ticket, then or at any later time. */
  lemma {:induction false} FencedOut(limits: Limits, log: Log, ops: seq<Op>, i: nat, retryAt: int)
    requires LogInv(log) && i < |log.issued| && !Holds(log, i)
    ensures
      var t := Run(limits, log, ops).tables;
      var ticket := log.issued[i].ticket;
      && Apply(limits, t, Defer(ticket, retryAt)) == t && Apply(limits, t, AwaitRejoin(ticket)) == t
      && Apply(limits, t, CompleteAction(ticket)) == t && Apply(limits, t, TerminateAction(ticket)) == t
  {
    hide Run, IsCurrent, LogInv;
    LostForever(limits, log, ops, i);
  }

  /** While a ticket is current, no claim of its row succeeds before the ticket's own time is over. */
  lemma {:induction false} NoClaimBeforeExpiry(limits: Limits, ops: seq<Op>, i: nat, now: int, until: int)
    requires i < |Run(limits, START, ops).issued| && Holds(Run(limits, START, ops), i)
    ensures
      var log := Run(limits, START, ops);
      var claim := Claim(log.issued[i].ticket.key, now, until);
      && (now < log.issued[i].until ==> Step(limits, log, claim) == log)
      && (log.issued[i].until <= now ==>
          var after := Step(limits, log, claim);
          |after.issued| == |log.issued| + 1 && Holds(after, |log.issued|) && !Holds(after, i))
  {
    hide Run;
    StartIsGood();
    RunKeepsLog(limits, START, ops);
  }

  /** Each generation is completed at most once, and a completed generation is never in the queue again. */
  lemma {:induction false} CompletedOnce(limits: Limits, ops: seq<Op>, i: nat, j: nat, key: Key)
    requires i < j < |Run(limits, START, ops).completed|
    ensures var log := Run(limits, START, ops);
      && log.completed[i] != log.completed[j]
      && (key in log.tables.pending ==> log.tables.pending[key].generation != log.completed[i])
  {
    hide Run, RowInv, TokensInv, UntilInv;
    StartIsGood();
    RunKeepsLog(limits, START, ops);
    assert Run(limits, START, ops).completed[i] in Run(limits, START, ops).completed;
  }

  /** The operations that end the lease of a current ticket. */
  predicate Ends(t: Tables, op: Op, ticket: Ticket)
    requires ticket.key in t.pending
  {
    match op
    case Claim(key, now, _) => key == ticket.key && t.pending[key].claimedUntil <= now
    case Defer(other, _) => other == ticket
    case AwaitRejoin(other) => other == ticket
    case CompleteAction(other) => other == ticket
    case TerminateAction(other) => other == ticket
    case DecrementWarning(key) => key == ticket.key
    case ForgetChat(chat) => chat != 0 && chat == ticket.key.chat
    case _ => false
  }

  predicate ByHolder(op: Op) {
    op.Defer? || op.AwaitRejoin? || op.CompleteAction? || op.TerminateAction?
  }

  lemma {:induction false} HolderEndsLease(limits: Limits, t: Tables, op: Op, ticket: Ticket)
    requires RowInv(t) && IsCurrent(t, ticket) && ByHolder(op)
    ensures IsCurrent(Apply(limits, t, op), ticket) <==> !Ends(t, op, ticket)
  {
    hide CounterAdmitted, NoteAdmitted, Warn, Take, WriteCounter, LowerWarns, WriteNote, DropQuiet, DropChat, RowInv;
  }

  lemma {:induction false} OthersEndLease(limits: Limits, t: Tables, op: Op, ticket: Ticket)
    requires RowInv(t) && IsCurrent(t, ticket) && !ByHolder(op)
    ensures IsCurrent(Apply(limits, t, op), ticket) <==> !Ends(t, op, ticket)
  {
    hide CounterAdmitted, NoteAdmitted, Quiet, Idle, Complete;
    assert RowOk(t.pending[ticket.key], t.next);
  }

  /** A lease ends by exactly these: expiry and a new claim, its own holder, a decrement, or the chat going away. */
  lemma {:induction false} LeaseEndsExactlyBy(limits: Limits, t: Tables, op: Op, ticket: Ticket)
    requires RowInv(t) && IsCurrent(t, ticket)
    ensures IsCurrent(Apply(limits, t, op), ticket) <==> !Ends(t, op, ticket)
  {
    hide Apply, IsCurrent, RowInv, Ends;
    if ByHolder(op) {
      HolderEndsLease(limits, t, op, ticket);
    } else {
      OthersEndLease(limits, t, op, ticket);
    }
  }

  /** A row awaiting a rejoin can only be resumed, or go away with its warning, its age or its chat; nobody claims it. */
  lemma {:induction false} AwaitingUntilResumed(limits: Limits, t: Tables, op: Op, key: Key)
    requires RowInv(t) && key in t.pending && t.pending[key].awaitingRejoin
    ensures var after := RowAt(Apply(limits, t, op), key);
      after == RowAt(t, key) <==>
      !(op.ResumeOnRejoin? && op.key == key) && !(op.DecrementWarning? && op.key == key) &&
      !(op.PurgeStale? && key in op.victims && Stale(t.pending[key], op.before)) &&
      !(op.ForgetChat? && op.chat != 0 && op.chat == key.chat)
    ensures op.ResumeOnRejoin? && op.key == key ==> Claimable(Apply(limits, t, op), key, op.now)
  {
    hide CounterAdmitted, NoteAdmitted, Quiet, Idle, Stale;
    assert RowOk(t.pending[key], t.next);
  }

  /** A penalty is queued exactly when the warning that was added reaches the limit, and can be claimed at once. */
  lemma {:induction false} PenaltyQueuedIffLimit(limits: Limits, t: Tables, key: Key, limit: nat, penalty: Penalty, now: int)
    requires key !in t.pending
    ensures var u := Apply(limits, t, IncrementWarning(key, limit, penalty, now));
      && (key in u.pending <==> CounterAdmitted(limits, t, key) && Warns(t, key) + 1 >= limit)
      && (key in u.pending ==> Claimable(u, key, now) && u.pending[key].penalty == penalty && u.pending[key].lease == None)
  {
    hide CounterAdmitted;
  }

  /** The tables just before operation `k` of a run. */
  function Before(limits: Limits, ops: seq<Op>, k: nat): Log
    requires k <= |ops|
  {
    Run(limits, START, ops[..k])
  }

  lemma BeforeNext(limits: Limits, ops: seq<Op>, k: nat)
    requires k < |ops|
    ensures Before(limits, ops, k + 1) == Step(limits, Before(limits, ops, k), ops[k])
    ensures LogInv(Before(limits, ops, k)) && LogInv(Before(limits, ops, k + 1))
  {
    hide LogInv, Step;
    StartIsGood();
    RunKeepsLog(limits, START, ops[..k]);
    RunKeepsLog(limits, START, ops[..k + 1]);
    assert ops[..k + 1][..k] == ops[..k];
  }

  /** Operation `k` ends the lease of a ticket that was current until then. */
  predicate EndsAt(limits: Limits, ops: seq<Op>, k: nat, ticket: Ticket)
    requires k < |ops|
  {
    IsCurrent(Before(limits, ops, k).tables, ticket) && Ends(Before(limits, ops, k).tables, ops[k], ticket)
  }

  /** A ticket that is current at one point of a run and not at a later one was ended in between. */
  lemma {:induction false} EndedBetween(limits: Limits, ops: seq<Op>, a: nat, b: nat, ticket: Ticket) returns (k: nat)
    requires a <= b <= |ops|
    requires IsCurrent(Before(limits, ops, a).tables, ticket) && !IsCurrent(Before(limits, ops, b).tables, ticket)
    ensures a <= k < b && EndsAt(limits, ops, k, ticket)
    decreases b - a
  {
    hide Before, IsCurrent, LogInv, Step;
    BeforeNext(limits, ops, a);
    if IsCurrent(Before(limits, ops, a + 1).tables, ticket) {
      k := EndedBetween(limits, ops, a + 1, b, ticket);
    } else {
      k := a;
      EndingStepEnds(limits, Before(limits, ops, a), ops[a], ticket);
    }
  }

  lemma EndingStepEnds(limits: Limits, log: Log, op: Op, ticket: Ticket)
    requires LogInv(log) && IsCurrent(log.tables, ticket) && !IsCurrent(Step(limits, log, op).tables, ticket)
    ensures Ends(log.tables, op, ticket)
  {
    hide Apply, RowInv, TokensInv, UntilInv, CompletedInv, Issued, Completed;
    LeaseEndsExactlyBy(limits, log.tables, op, ticket);
  }

  /** A claim that succeeds finds the row's time over, so it cannot meet a current ticket whose time is not. */
  lemma {:induction false} ClaimMeetsExpired(limits: Limits, log: Log, i: nat, op: Op)
    requires LogInv(log) && i < |log.issued| && Holds(log, i) && op.Claim? && op.key == log.issued[i].ticket.key
    requires Claimable(log.tables, op.key, op.now)
    ensures log.issued[i].until <= op.now
  {
    hide RowInv, TokensInv, CompletedInv;
  }

  /**
   Over whole runs: if one claim of a member succeeds and a later one does so before the first one's time is over, then
   in between the first lease was given up or taken away by something else than a claim, unless the clock ran back.
   */
  lemma {:induction false} EarlyClaimNeedsAnEnd(limits: Limits, ops: seq<Op>, a: nat, b: nat)
    requires a < b < |ops| && ops[a].Claim? && ops[b].Claim? && ops[a].key == ops[b].key && ops[b].now < ops[a].until
    requires Claimable(Before(limits, ops, a).tables, ops[a].key, ops[a].now)
    requires Claimable(Before(limits, ops, b).tables, ops[b].key, ops[b].now)
    ensures exists k :: a < k < b && EndsAt(limits, ops, k, Issued(Before(limits, ops, a).tables, ops[a])[0].ticket) &&
              (ops[k].Claim? ==> ops[k].now > ops[b].now)
  {
    hide Before, LogInv, Run, Apply, Claimable, IsCurrent, RowInv, TokensInv, CompletedInv, UntilInv, EndsAt;
    var first := Before(limits, ops, a);
    BeforeNext(limits, ops, a);
    ClaimIssues(first.tables, ops[a]);
    NewTicketHolds(limits, first.tables, ops[a]);
    var ticket, i := Issued(first.tables, ops[a])[0].ticket, |first.issued|;
    TicketStays(limits, ops, a, b, i);
    BeforeNext(limits, ops, b);
    if Holds(Before(limits, ops, b), i) {
      ClaimMeetsExpired(limits, Before(limits, ops, b), i, ops[b]);
    }
    var k := EndedBetween(limits, ops, a + 1, b, ticket);
    if ops[k].Claim? {
      TicketStays(limits, ops, a, k, i);
      BeforeNext(limits, ops, k);
      EndingClaimIsLate(limits, Before(limits, ops, k), i, ops, k);
    }
  }

  lemma {:induction false} TicketStays(limits: Limits, ops: seq<Op>, a: nat, k: nat, i: nat)
    requires a < k <= |ops| && i < |Before(limits, ops, a + 1).issued|
    ensures i < |Before(limits, ops, k).issued| && Before(limits, ops, k).issued[i] == Before(limits, ops, a + 1).issued[i]
    decreases k
  {
    hide Apply, Issued, Completed, LogInv, Run;
    if a + 1 < k {
      TicketStays(limits, ops, a, k - 1, i);
      BeforeNext(limits, ops, k - 1);
    }
  }

  lemma EndingClaimIsLate(limits: Limits, log: Log, i: nat, ops: seq<Op>, k: nat)
    requires k < |ops| && log == Before(limits, ops, k) && LogInv(log) && i < |log.issued| && ops[k].Claim?
    requires EndsAt(limits, ops, k, log.issued[i].ticket)
    ensures log.issued[i].until <= ops[k].now
  {
    hide RowInv, TokensInv, CompletedInv, Before;
    assert Holds(log, i);
  }

  // ---------------------------------------------------------------- claiming a batch

  function Claims(keys: seq<Key>, now: int, until: int): seq<Op> {
    if keys == [] then [] else Claims(keys[..|keys| - 1], now, until) + [Claim(keys[|keys| - 1], now, until)]
  }

  lemma NoClaims(limits: Limits, t: Tables, now: int, until: int)
    ensures After(limits, t, Claims([], now, until)) == t
  {
  }

  lemma {:induction false} OneMoreClaim(limits: Limits, t: Tables, keys: seq<Key>, key: Key, now: int, until: int)
    ensures After(limits, t, Claims(keys + [key], now, until)) ==
            Apply(limits, After(limits, t, Claims(keys, now, until)), Claim(key, now, until))
  {
    hide Apply;
    assert (keys + [key])[..|keys|] == keys;
    var ops := Claims(keys, now, until) + [Claim(key, now, until)];
    assert ops[..|ops| - 1] == Claims(keys, now, until);
  }

  /** One statement that claims many due rows is as many single claims: each row gets one ticket, and all are current. */
  lemma {:induction false} BatchClaimsEach(limits: Limits, log: Log, keys: seq<Key>, now: int, until: int)
    requires LogInv(log)
    requires forall i :: 0 <= i < |keys| ==> Claimable(log.tables, keys[i], now)
    requires forall i, j :: 0 <= i < j < |keys| ==> keys[i] != keys[j]
    ensures
      var after := Run(limits, log, Claims(keys, now, until));
      && |after.issued| == |log.issued| + |keys|
      && (forall i :: 0 <= i < |keys| ==>
            after.issued[|log.issued| + i].ticket.key == keys[i] && Holds(after, |log.issued| + i))
      && (forall key :: key !in keys ==> RowAt(after.tables, key) == RowAt(log.tables, key))
  {
    hide Apply, LogInv, Issued, Completed, IsCurrent, Claimable, RowAt;
    if keys != [] {
      var most, last := keys[..|keys| - 1], keys[|keys| - 1];
      var op := Claim(last, now, until);
      BatchClaimsEach(limits, log, most, now, until);
      assert Claims(keys, now, until)[..|Claims(keys, now, until)| - 1] == Claims(most, now, until);
      var before := Run(limits, log, Claims(most, now, until));
      var after := Run(limits, log, Claims(keys, now, until));
      assert after == Step(limits, before, op);
      SameRowSameClaim(log.tables, before.tables, last, now);
      ClaimIssues(before.tables, op);
      NewTicketHolds(limits, before.tables, op);
      forall i | 0 <= i < |keys|
        ensures after.issued[|log.issued| + i].ticket.key == keys[i] && Holds(after, |log.issued| + i)
      {
        if i < |most| {
          UntouchedStays(limits, before.tables, op, most[i]);
          SameRowSameTicket(before.tables, after.tables, before.issued[|log.issued| + i].ticket);
        } else {
          assert after.issued[|log.issued| + i] == Issued(before.tables, op)[0];
        }
      }
      forall key | key !in keys ensures RowAt(after.tables, key) == RowAt(log.tables, key) {
        UntouchedStays(limits, before.tables, op, key);
      }
    }
  }

  lemma SameRowSameClaim(t: Tables, u: Tables, key: Key, now: int)
    requires RowAt(t, key) == RowAt(u, key)
    ensures Claimable(t, key, now) == Claimable(u, key, now)
  {
  }

  lemma SameRowSameTicket(t: Tables, u: Tables, ticket: Ticket)
    requires RowAt(t, ticket.key) == RowAt(u, ticket.key)
    ensures IsCurrent(t, ticket) == IsCurrent(u, ticket)
  {
  }

  lemma ClaimIssues(t: Tables, op: Op)
    requires op.Claim? && Claimable(t, op.key, op.now)
    ensures |Issued(t, op)| == 1
  {
  }

  // ---------------------------------------------------------------- the warnings themselves

  /** Warnings rise only by adding one where no penalty is pending, so a pending penalty freezes the count upwards. */
  lemma {:induction false} WarnsRiseIff(limits: Limits, t: Tables, op: Op, key: Key)
    ensures Warns(Apply(limits, t, op), key) > Warns(t, key) <==>
            op.IncrementWarning? && op.key == key && key !in t.pending && CounterAdmitted(limits, t, key)
    ensures Warns(Apply(limits, t, op), key) <= Warns(t, key) + 1
  {
    hide CounterAdmitted, NoteAdmitted, Stale, Quiet, IsCurrent, Claimable;
  }

  /** The operations that take a member's last warnings away. */
  predicate Clears(t: Tables, op: Op, key: Key) {
    match op
    case CompleteAction(ticket) => ticket.key == key && IsCurrent(t, ticket)
    case DecrementWarning(k) => k == key && Warns(t, key) == 1
    case ReverseWarning(k) => k == key && Warns(t, key) == 1
    case ForgetIdle(before, quiet) => key in quiet && key in t.counters && Quiet(t.counters[key], before)
    case ForgetChat(chat) => chat != 0 && chat == key.chat
    case _ => false
  }

  lemma {:induction false} WarnsClearIff(limits: Limits, t: Tables, op: Op, key: Key)
    requires Warns(t, key) > 0
    ensures Warns(Apply(limits, t, op), key) == 0 <==> Clears(t, op, key)
  {
    hide CounterAdmitted, NoteAdmitted, Stale, Quiet, IsCurrent, Claimable;
  }

  /** One warning, of three allowed, to a member last seen on day 5. */
  const WARNED_RUN: seq<Op> := [IncrementWarning(Key(1, 2), 3, Ban, 100), Touch(Key(1, 2), 5, 5)]

  /** Forgetting idle members does not look at warnings: a warned member that stays quiet loses them with the row. */
  lemma {:induction false} IdlenessClearsWarnings()
    ensures var t := After(Limits(10, 10), EMPTY, WARNED_RUN);
      && Warns(t, Key(1, 2)) == 1 && t.pending == map[]
      && Warns(Apply(Limits(10, 10), t, ForgetIdle(9, {Key(1, 2)})), Key(1, 2)) == 0
  {
    var limits, warn := Limits(10, 10), WARNED_RUN[0];
    assert InChat(EMPTY.counters, 1) == {};
    assert Apply(limits, EMPTY, warn).counters == map[Key(1, 2) := Counter("", 1, 0, 0, 0)];
    assert WARNED_RUN[..1] == [warn] && [warn][..0] == [];
    assert After(limits, EMPTY, [warn]) == Apply(limits, EMPTY, warn);
  }
}
