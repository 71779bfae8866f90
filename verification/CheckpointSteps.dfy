/**
 The coordinator told by its outcomes: for each failure, for each fact on record and for each end of a round, exactly
 when it comes about. And over runs: every round ends once, deferred or committed, and a failed coordinator never again
 begins a round or allows a cursor to move.
 */
module CheckpointSteps {
  import opened Dispatch
  import opened Options
  import opened UpdateWorker
  import opened Checkpoint
  import WorkerRuns

  /** The receiving end of the decision of this round is gone: its worker has stopped or given the command up. */
  predicate Dropped<T>(link: Link<T>, r: nat) {
    link.worker.phase.Stopped? || (link.slot != Some(r) && link.worker.checkpoint != Some(r))
  }

  /** Of two answers this side's is the first one missing. */
  predicate Missing(side: Side, bot: bool, cleaner: bool) {
    if side.BotSide? then !bot else bot && !cleaner
  }

  /** Why the coordinator gives up, failure by failure. */
  predicate Causes<T>(s: System<T>, m: Move<T>, failure: Failure) {
    var r, c := s.round, s.coordinator;
    match failure
    case WorkerCommand(side) =>
      m.Request? && c == Requesting(side) &&
      (LinkOf(s, side).worker.phase.Stopped? || LinkOf(s, side).slot != None)
    case WorkerStopped(side) =>
      || (m.ReadyArrived? && Missing(side, r in s.bot.readySent, r in s.cleaner.readySent))
      || (m.SendResume? && c == Resuming(side) && Dropped(LinkOf(s, side), r))
      || (m.Authorize? && c == Authorizing(side) && Dropped(LinkOf(s, side), r))
      || (m.CommitsArrived? && Missing(side, r in s.bot.completed, r in s.cleaner.completed))
    case OwnedTaskFailed(count) => count > 0 && (m == JoinedCurrent(count) || m == JoinedOwned(count))
    case CursorCommitTimeout => m.Timeout? && c.AwaitingCommits?
    case CursorCommitFailed(bot, cleaner) =>
      m.CommitsArrived? && r in s.bot.completed && r in s.cleaner.completed && (bot || cleaner) &&
      bot == !s.bot.completed[r] && cleaner == !s.cleaner.completed[r]
    case PersistenceBarrierPoisoned => m.CheckBarrier? && s.poisoned
    case BackgroundTaskFailed => m == ReadyArrived(true) && r in s.bot.readySent && r in s.cleaner.readySent
    case DatabaseOwnershipLost => m.CheckOwnership? && !s.alive
  }

  lemma WorkersLeaveTheCoordinator<T>(s: System<T>, side: Side, e: Event<T>)
    requires WorkerInv(LinkOf(s, side).worker) && WorkerMay(s, side, e)
    ensures WorkerStep(s, side, e).coordinator == s.coordinator && WorkerStep(s, side, e).round == s.round
  {
    hide WorkerInv, Allowed, Next, ReadyOpen, DecisionOpen;
  }

  predicate Early<T>(m: Move<T>) {
    m.JoinedCurrent? || m.Request? || m.ReadyArrived? || m.JoinedOwned? || m.FlushEnded? || m.Begin? || m.EpochTaken?
  }

  lemma EarlyFailsIff<T>(s: System<T>, m: Move<T>, failure: Failure)
    requires WorkerInv(s.bot.worker) && WorkerInv(s.cleaner.worker) && Can(s, m) && Early(m)
    ensures Apply(s, m).coordinator == Failed(failure) <==> Causes(s, m, failure)
    ensures !s.coordinator.Failed?
  {
    hide WorkerInv, WorkerStep, WorkerMay, ResumeStep, AuthorizeStep, CommitsStep, Dropped, BarrierStep, TimeoutStep,
         SignalStep, CompletedResolved, Holds;
  }

  predicate Sends<T>(m: Move<T>) {
    m.SendResume? || m.Authorize? || m.CommitsArrived?
  }

  lemma SendFailsIff<T>(s: System<T>, m: Move<T>, failure: Failure)
    requires WorkerInv(s.bot.worker) && WorkerInv(s.cleaner.worker) && Can(s, m) && Sends(m)
    ensures Apply(s, m).coordinator == Failed(failure) <==> Causes(s, m, failure)
    ensures !s.coordinator.Failed?
  {
    hide WorkerInv, WorkerStep, WorkerMay, RequestStep, ReadyStep, BarrierStep, TimeoutStep, SignalStep, ReadyResolved;
  }

  /** What happens around the coordinator. */
  predicate Outside<T>(m: Move<T>) {
    m.Poison? || m.LoseOwnership? || m.Signal? || m.CloseSignal?
  }

  lemma OutsideFailsNot<T>(s: System<T>, m: Move<T>, failure: Failure)
    requires WorkerInv(s.bot.worker) && WorkerInv(s.cleaner.worker) && Can(s, m) && Outside(m)
    ensures Apply(s, m).coordinator == s.coordinator && Apply(s, m).round == s.round && !Causes(s, m, failure)
  {
    hide WorkerInv, WorkerStep, WorkerMay, ResumeStep, AuthorizeStep, CommitsStep, Dropped, RequestStep, ReadyStep,
         BarrierStep, TimeoutStep, Missing, ReadyResolved, CompletedResolved;
  }

  lemma CheckFailsIff<T>(s: System<T>, m: Move<T>, failure: Failure)
    requires WorkerInv(s.bot.worker) && WorkerInv(s.cleaner.worker) && Can(s, m)
    requires m.CheckBarrier? || m.CheckOwnership? || m.Timeout?
    ensures Apply(s, m).coordinator == Failed(failure) <==> Causes(s, m, failure)
    ensures !s.coordinator.Failed?
  {
    hide WorkerInv, WorkerStep, WorkerMay, ResumeStep, AuthorizeStep, CommitsStep, Dropped, RequestStep, ReadyStep,
         SignalStep;
  }

  /** A coordinator fails exactly for these reasons, and a failed one stays as it is. */
  lemma FailsIff<T>(s: System<T>, m: Move<T>, failure: Failure)
    requires WorkerInv(s.bot.worker) && WorkerInv(s.cleaner.worker) && Can(s, m)
    ensures Apply(s, m).coordinator == Failed(failure) <==> s.coordinator == Failed(failure) || Causes(s, m, failure)
    ensures s.coordinator.Failed? ==> Apply(s, m).round == s.round
  {
    hide WorkerInv, WorkerStep, WorkerMay;
    if m.WorkerMove? {
      WorkersLeaveTheCoordinator(s, m.who, m.event);
    } else {
      hide Apply, Can, Causes;
      if Early(m) {
        EarlyFailsIff(s, m, failure);
      } else if Sends(m) {
        SendFailsIff(s, m, failure);
      } else if Outside(m) {
        OutsideFailsNot(s, m, failure);
      } else {
        CheckFailsIff(s, m, failure);
      }
    }
  }

  // ---------------------------------------------------------------- what goes on record

  /** A round is put off: time runs out before anything was flushed, or both were told to resume. */
  predicate Defers<T>(s: System<T>, m: Move<T>) {
    var c := s.coordinator;
    || (m.Timeout? && (c.JoiningCurrent? || c.AwaitingEpoch? || c.AwaitingReady? || c.JoiningOwned?))
    || (m.SendResume? && c == Resuming(CleanerSide) && !Dropped(s.cleaner, s.round))
  }

  /** A round is committed: both cursors moved. */
  predicate Commits<T>(s: System<T>, m: Move<T>) {
    var r := s.round;
    m.CommitsArrived? && r in s.bot.completed && r in s.cleaner.completed && s.bot.completed[r] && s.cleaner.completed[r]
  }

  /** Which move puts which fact on record. */
  predicate Tells<T>(s: System<T>, m: Move<T>, fact: Fact) {
    match fact
    case Ready(side, r) =>
      var w := LinkOf(s, side).worker;
      m == WorkerMove(side, DrainOver(true)) && w.checkpoint == Some(r) && w.panicsEver == 0 && !w.cursorError
    case Cursor(side, r, ok) => m == WorkerMove(side, Synced(ok)) && LinkOf(s, side).worker.checkpoint == Some(r)
    case OwnedJoined(r, failures) => m == JoinedOwned(failures) && r == s.round
    case Flushed(r, media, statistics, logs, samples) =>
      m == FlushEnded(media, statistics, logs, samples) && r == s.round
    case BarrierClean(r) => m.CheckBarrier? && s.coordinator == CheckingBarrier(true) && !s.poisoned && r == s.round
    case OwnershipHeld(r) => m.CheckOwnership? && s.alive && r == s.round
    case Deferred(r) => Defers(s, m) && r == s.round
    case Committed(r) => Commits(s, m) && r == s.round
  }

  /** One fact more is on record. */
  predicate Adds(log: seq<Fact>, longer: seq<Fact>, fact: Fact) {
    |longer| == |log| + 1 && longer[..|log|] == log && longer[|log|] == fact
  }

  lemma PausesIff<T>(w: Worker<T>, open: bool)
    requires WorkerInv(w) && Allowed(w, DrainOver(open))
    ensures var u := Next(w, DrainOver(open));
      && (u.phase.Paused? <==> w.panicsEver == 0 && !w.cursorError && w.checkpoint.Some? && open)
      && (u.phase.Paused? ==> u.checkpoint == w.checkpoint)
  {
    hide WorkerInv, Allowed, Next;
    WorkerRuns.DrainEnds(w, open);
  }

  lemma DrainTellsIff<T>(s: System<T>, side: Side, open: bool, fact: Fact)
    requires WorkerInv(s.bot.worker) && WorkerInv(s.cleaner.worker) && WorkerMay(s, side, DrainOver(open))
    ensures var log := WorkerStep(s, side, DrainOver(open)).log;
      && (Adds(s.log, log, fact) <==> Tells(s, WorkerMove(side, DrainOver(open)), fact))
      && |s.log| <= |log| <= |s.log| + 1 && log[..|s.log|] == s.log
  {
    hide WorkerInv, Allowed, Next, ReadyOpen, DecisionOpen;
    MayIsAllowed(s, side, DrainOver(open));
    PausesIff(LinkOf(s, side).worker, open);
  }

  lemma WorkerTellsIff<T>(s: System<T>, side: Side, e: Event<T>, fact: Fact)
    requires WorkerInv(s.bot.worker) && WorkerInv(s.cleaner.worker) && WorkerMay(s, side, e)
    ensures var log := WorkerStep(s, side, e).log;
      && (Adds(s.log, log, fact) <==> Tells(s, WorkerMove(side, e), fact))
      && |s.log| <= |log| <= |s.log| + 1 && log[..|s.log|] == s.log
  {
    hide WorkerInv, Allowed, Next, ReadyOpen, DecisionOpen;
    if e.DrainOver? {
      hide Tells, WorkerMay, WorkerStep;
      DrainTellsIff(s, side, e.readyOpen, fact);
    }
  }

  lemma MayIsAllowed<T>(s: System<T>, side: Side, e: Event<T>)
    requires WorkerMay(s, side, e)
    ensures Allowed(LinkOf(s, side).worker, e)
  {
  }

  lemma EarlyTellsIff<T>(s: System<T>, m: Move<T>, fact: Fact)
    requires WorkerInv(s.bot.worker) && WorkerInv(s.cleaner.worker) && Can(s, m)
    requires Early(m)
    ensures var log := Apply(s, m).log;
      && (Adds(s.log, log, fact) <==> Tells(s, m, fact))
      && |s.log| <= |log| <= |s.log| + 1 && log[..|s.log|] == s.log
  {
    hide WorkerInv, WorkerStep, WorkerMay, ResumeStep, AuthorizeStep, CommitsStep, Dropped, BarrierStep, TimeoutStep,
         SignalStep, CompletedResolved, Holds;
  }

  lemma DecisionTellsIff<T>(s: System<T>, m: Move<T>, fact: Fact)
    requires WorkerInv(s.bot.worker) && WorkerInv(s.cleaner.worker) && Can(s, m)
    requires m.SendResume? || m.Authorize?
    ensures var log := Apply(s, m).log;
      && (Adds(s.log, log, fact) <==> Tells(s, m, fact))
      && |s.log| <= |log| <= |s.log| + 1 && log[..|s.log|] == s.log
  {
    hide WorkerInv, WorkerStep, WorkerMay, RequestStep, ReadyStep, BarrierStep, TimeoutStep, SignalStep, CommitsStep,
         ReadyResolved, CompletedResolved;
  }

  lemma CommitsTellsIff<T>(s: System<T>, m: Move<T>, fact: Fact)
    requires WorkerInv(s.bot.worker) && WorkerInv(s.cleaner.worker) && Can(s, m)
    requires m.CommitsArrived?
    ensures var log := Apply(s, m).log;
      && (Adds(s.log, log, fact) <==> Tells(s, m, fact))
      && |s.log| <= |log| <= |s.log| + 1 && log[..|s.log|] == s.log
  {
    hide WorkerInv, WorkerStep, WorkerMay, RequestStep, ReadyStep, BarrierStep, TimeoutStep, SignalStep, ResumeStep,
         AuthorizeStep, Dropped, Holds, ReadyResolved;
  }

  lemma LateTellsIff<T>(s: System<T>, m: Move<T>, fact: Fact)
    requires WorkerInv(s.bot.worker) && WorkerInv(s.cleaner.worker) && Can(s, m)
    requires !Early(m) && !Sends(m) && !m.WorkerMove?
    ensures var log := Apply(s, m).log;
      && (Adds(s.log, log, fact) <==> Tells(s, m, fact))
      && |s.log| <= |log| <= |s.log| + 1 && log[..|s.log|] == s.log
  {
    hide WorkerInv, WorkerStep, WorkerMay, ResumeStep, AuthorizeStep, CommitsStep, Dropped, RequestStep, ReadyStep,
         ReadyResolved, CompletedResolved, Holds;
  }

  /** A move puts at most one fact on record, and exactly by this table. */
  lemma TellsIff<T>(s: System<T>, m: Move<T>, fact: Fact)
    requires WorkerInv(s.bot.worker) && WorkerInv(s.cleaner.worker) && Can(s, m)
    ensures var log := Apply(s, m).log;
      && (Adds(s.log, log, fact) <==> Tells(s, m, fact))
      && |s.log| <= |log| <= |s.log| + 1 && log[..|s.log|] == s.log
  {
    hide WorkerInv, WorkerStep, WorkerMay, Tells;
    if m.WorkerMove? {
      WorkerTellsIff(s, m.who, m.event, fact);
    } else {
      hide Apply, Can;
      if Early(m) {
        EarlyTellsIff(s, m, fact);
      } else if m.CommitsArrived? {
        CommitsTellsIff(s, m, fact);
      } else if Sends(m) {
        DecisionTellsIff(s, m, fact);
      } else {
        LateTellsIff(s, m, fact);
      }
    }
  }

  // ---------------------------------------------------------------- how rounds end

  /** Every round that is over ended one way, deferred or committed; a round under way, or one that failed, has no ending. */
  ghost predicate Ended<T>(s: System<T>) {
    var last := if s.coordinator.Idle? || s.round == 0 then s.round else s.round - 1;
    && (forall r: nat :: Deferred(r) in s.log || Committed(r) in s.log <==> 1 <= r <= last)
    && (forall r: nat :: Deferred(r) in s.log ==> Committed(r) !in s.log)
    && (s.round == 0 ==> s.coordinator.Idle?)
  }

  /** When a coordinator is idle again, its round has ended. */
  lemma IdleIff<T>(s: System<T>, m: Move<T>)
    requires WorkerInv(s.bot.worker) && WorkerInv(s.cleaner.worker) && Can(s, m)
    ensures Apply(s, m).coordinator.Idle? <==> (s.coordinator.Idle? && !m.Begin?) || Defers(s, m) || Commits(s, m)
    ensures Apply(s, m).round == s.round + if m.Begin? then 1 else 0
    ensures Defers(s, m) || Commits(s, m) ==> !s.coordinator.Idle?
    ensures m.Begin? ==> s.coordinator.Idle?
  {
    hide WorkerInv, WorkerStep, WorkerMay;
    if m.WorkerMove? {
      WorkersLeaveTheCoordinator(s, m.who, m.event);
    }
  }

  lemma AddedIsIn(log: seq<Fact>, longer: seq<Fact>, fact: Fact)
    requires |log| <= |longer| <= |log| + 1 && longer[..|log|] == log
    ensures fact in longer <==> fact in log || Adds(log, longer, fact)
  {
    assert longer == longer[..|log|] + longer[|log|..];
  }

  lemma MoveKeepsEnded<T>(s: System<T>, m: Move<T>)
    requires WorkerInv(s.bot.worker) && WorkerInv(s.cleaner.worker) && Can(s, m) && Ended(s)
    ensures Ended(Apply(s, m))
  {
    hide WorkerInv, Can, Apply, Defers, Commits;
    var t := Apply(s, m);
    IdleIff(s, m);
    DefersOrCommits(s, m);
    forall r: nat
      ensures Deferred(r) in t.log <==> Deferred(r) in s.log || (Defers(s, m) && r == s.round)
      ensures Committed(r) in t.log <==> Committed(r) in s.log || (Commits(s, m) && r == s.round)
    {
      TellsIff(s, m, Deferred(r));
      AddedIsIn(s.log, t.log, Deferred(r));
      TellsIff(s, m, Committed(r));
      AddedIsIn(s.log, t.log, Committed(r));
    }
  }

  lemma DefersOrCommits<T>(s: System<T>, m: Move<T>)
    ensures !(Defers(s, m) && Commits(s, m))
  {
  }

  lemma {:induction false} RunKeepsEnded<T>(s: System<T>, moves: seq<Move<T>>)
    requires SystemInv(s) && CanAll(s, moves) && Ended(s)
    ensures Ended(RunAll(s, moves))
    decreases |moves|
  {
    hide SystemInv, Ended, Can, Apply, WorkerInv;
    if moves != [] {
      BothWorkers(s);
      MoveKeepsInv(s, moves[0]);
      MoveKeepsEnded(s, moves[0]);
      RunKeepsEnded(Apply(s, moves[0]), moves[1..]);
    }
  }

  /** In every run each round ends one way, deferred or committed, before the next begins; the rounds are numbered from 1. */
  lemma {:induction false} RoundsEndOneWay<T>(bot: Config, cleaner: Config, moves: seq<Move<T>>)
    requires bot.Valid() && cleaner.Valid()
    requires (InitialInv<T>(bot, cleaner); CanAll(Initial(bot, cleaner), moves))
    ensures (InitialInv<T>(bot, cleaner);
             var t := RunAll(Initial(bot, cleaner), moves);
             && (forall r: nat :: Deferred(r) in t.log || Committed(r) in t.log <==>
                   1 <= r < t.round || (r == t.round > 0 && t.coordinator.Idle?))
             && (forall r: nat :: Deferred(r) in t.log ==> Committed(r) !in t.log))
  {
    hide SystemInv, Can, Apply, WorkerInv;
    InitialInv<T>(bot, cleaner);
    RunKeepsEnded(Initial<T>(bot, cleaner), moves);
  }

  /** A failed coordinator never begins another round, and tells no worker to move its cursor. */
  lemma {:induction false} FailedIsForever<T>(s: System<T>, moves: seq<Move<T>>)
    requires SystemInv(s) && CanAll(s, moves) && s.coordinator.Failed?
    ensures var t := RunAll(s, moves);
      t.coordinator == s.coordinator && t.round == s.round && t.bot.decision == s.bot.decision &&
      t.cleaner.decision == s.cleaner.decision
    decreases |moves|
  {
    hide SystemInv, Can, Apply, WorkerInv;
    if moves != [] {
      BothWorkers(s);
      MoveKeepsInv(s, moves[0]);
      FailedTellsNobody(s, moves[0]);
      FailedIsForever(Apply(s, moves[0]), moves[1..]);
    }
  }

  lemma WorkersTellNobody<T>(s: System<T>, side: Side, e: Event<T>)
    requires WorkerInv(LinkOf(s, side).worker) && WorkerMay(s, side, e)
    ensures var t := WorkerStep(s, side, e);
      t.bot.decision == s.bot.decision && t.cleaner.decision == s.cleaner.decision
  {
    hide WorkerInv, Allowed, Next, ReadyOpen, DecisionOpen;
  }

  lemma FailedTellsNobody<T>(s: System<T>, m: Move<T>)
    requires WorkerInv(s.bot.worker) && WorkerInv(s.cleaner.worker) && Can(s, m) && s.coordinator.Failed?
    ensures var t := Apply(s, m);
      t.coordinator == s.coordinator && t.round == s.round && t.bot.decision == s.bot.decision &&
      t.cleaner.decision == s.cleaner.decision
  {
    hide WorkerInv, WorkerStep, WorkerMay, RequestStep, ReadyStep, BarrierStep, ResumeStep, AuthorizeStep, CommitsStep;
    if m.WorkerMove? {
      WorkersLeaveTheCoordinator(s, m.who, m.event);
      WorkersTellNobody(s, m.who, m.event);
    }
  }

  lemma BothWorkers<T>(s: System<T>)
    requires SystemInv(s)
    ensures WorkerInv(s.bot.worker) && WorkerInv(s.cleaner.worker)
  {
    hide WorkerInv;
  }

  // ---------------------------------------------------------------- what reaches a worker

  /** A coordinator past a decision has sent it. */
  predicate Sent<T>(s: System<T>) {
    var r := s.round; var bot, cleaner := s.bot.decision, s.cleaner.decision;
    && (s.coordinator == Resuming(CleanerSide) ==> r in bot && bot[r] == ResumeWithoutCommit)
    && (s.coordinator == Authorizing(CleanerSide) ==> r in bot && bot[r] == Commit)
    && (s.coordinator.AwaitingCommits? ==> r in bot && bot[r] == Commit && r in cleaner && cleaner[r] == Commit)
  }

  lemma SendKeepsSent<T>(s: System<T>, m: Move<T>)
    requires WorkerInv(s.bot.worker) && WorkerInv(s.cleaner.worker) && Can(s, m) && Sent(s) && Sends(m)
    ensures Sent(Apply(s, m))
  {
    hide WorkerInv, WorkerStep, WorkerMay, Holds, RequestStep, ReadyStep, BarrierStep, TimeoutStep, SignalStep;
  }

  lemma RestKeepsSent<T>(s: System<T>, m: Move<T>)
    requires WorkerInv(s.bot.worker) && WorkerInv(s.cleaner.worker) && Can(s, m) && Sent(s)
    requires !m.WorkerMove? && !Sends(m)
    ensures Sent(Apply(s, m))
  {
    hide WorkerInv, WorkerStep, WorkerMay, ResumeStep, AuthorizeStep, CommitsStep, ReadyResolved, CompletedResolved,
         Holds;
  }

  lemma MoveKeepsSent<T>(s: System<T>, m: Move<T>)
    requires WorkerInv(s.bot.worker) && WorkerInv(s.cleaner.worker) && Can(s, m) && Sent(s)
    ensures Sent(Apply(s, m))
  {
    hide WorkerInv, WorkerStep, WorkerMay;
    if m.WorkerMove? {
      WorkersLeaveTheCoordinator(s, m.who, m.event);
      WorkersTellNobody(s, m.who, m.event);
    } else {
      hide Apply, Can, Sent;
      if Sends(m) {
        SendKeepsSent(s, m);
      } else {
        RestKeepsSent(s, m);
      }
    }
  }

  lemma {:induction false} RunKeepsSent<T>(s: System<T>, moves: seq<Move<T>>)
    requires SystemInv(s) && CanAll(s, moves) && Sent(s)
    ensures Sent(RunAll(s, moves))
    decreases |moves|
  {
    hide SystemInv, Sent, Can, Apply, WorkerInv;
    if moves != [] {
      BothWorkers(s);
      MoveKeepsInv(s, moves[0]);
      MoveKeepsSent(s, moves[0]);
      RunKeepsSent(Apply(s, moves[0]), moves[1..]);
    }
  }

  lemma DecidesHere<T>(s: System<T>, side: Side, d: Decision)
    requires SystemInv(s) && Sent(s)
    ensures var link := LinkOf(s, side); var r := link.worker.checkpoint; var c := s.coordinator;
      Can(s, WorkerMove(side, Decide(d))) <==>
      link.worker.phase.Paused? && r.Some? &&
      if r.value in link.decision then d == link.decision[r.value]
      else d == ResumeWithoutCommit && (r.value < s.round || c.Idle? || c.Failed?)
  {
    hide WorkerInv, Safe, StageInv, Authorized, MayCommit;
    PendsHere(s, side);
  }

  /**
   In every run a paused worker goes on exactly when a decision was sent to it, which it then follows, or when its round
   is over, and then it only resumes; while the coordinator is still at work on the round the worker waits.
   */
  lemma DecidesIff<T>(bot: Config, cleaner: Config, moves: seq<Move<T>>, s: System<T>, side: Side, d: Decision)
    requires bot.Valid() && cleaner.Valid()
    requires (InitialInv<T>(bot, cleaner); CanAll(Initial(bot, cleaner), moves) && s == RunAll(Initial(bot, cleaner), moves))
    ensures var link := LinkOf(s, side); var r := link.worker.checkpoint; var c := s.coordinator;
      Can(s, WorkerMove(side, Decide(d))) <==>
      link.worker.phase.Paused? && r.Some? &&
      if r.value in link.decision then d == link.decision[r.value]
      else d == ResumeWithoutCommit && (r.value < s.round || c.Idle? || c.Failed?)
  {
    hide SystemInv, Can, Apply, WorkerInv, CanAll, RunAll;
    InitialInv<T>(bot, cleaner);
    RunKeepsSent(Initial<T>(bot, cleaner), moves);
    DecidesHere(s, side, d);
  }

  lemma PendsHere<T>(s: System<T>, side: Side)
    requires SystemInv(s)
    ensures var w := LinkOf(s, side).worker;
      w.checkpoint.Some? && !w.phase.Stopped? ==> Pends(LinkOf(s, side), w.checkpoint.value) && w.checkpoint.value <= s.round
  {
    hide WorkerInv, Safe, StageInv, DecisionInv, Authorized, MayCommit;
  }

  /**
   A draining worker gives a command up, or answers in vain, exactly when its round is no longer waited for: it is over,
   or the coordinator is past its answers.
   */
  lemma AnswersInVainIff<T>(s: System<T>, side: Side, open: bool)
    requires SystemInv(s)
    requires LinkOf(s, side).worker.phase.Draining? && LinkOf(s, side).worker.checkpoint.Some?
    ensures var w, c := LinkOf(s, side).worker, s.coordinator;
      var awaited := w.checkpoint.value == s.round && (c.Requesting? || c.AwaitingReady?);
      && (Can(s, WorkerMove(side, Event.Abandoned)) <==>
            !awaited && !IsEmpty(w.tasks.now) && !w.cursorError && w.signal == Running)
      && (Can(s, WorkerMove(side, DrainOver(open))) <==> IsEmpty(w.tasks.now) && open == awaited)
  {
    hide WorkerInv, Safe, StageInv, Authorized, MayCommit, IsEmpty;
    PendsHere(s, side);
  }

  /** The coordinator stops waiting exactly when both workers have answered or one that has not can no longer do so. */
  lemma WaitsIff<T>(s: System<T>, backgroundFailed: bool)
    ensures var r := s.round; var (b, c) := (s.bot, s.cleaner);
      && (Can(s, ReadyArrived(backgroundFailed)) <==>
            s.coordinator.AwaitingReady? &&
            (r in b.readySent || Dropped(b, r)) && (r in c.readySent || Dropped(c, r)))
      && (Can(s, CommitsArrived) <==>
            s.coordinator.AwaitingCommits? &&
            (r in b.completed || Dropped(b, r)) && (r in c.completed || Dropped(c, r)))
  {
  }

  // ---------------------------------------------------------------- no round hangs

  /** The coordinator's own moves, its timer included, once a round has begun. */
  predicate Own<T>(m: Move<T>) {
    !m.WorkerMove? && !Outside(m) && !m.Begin?
  }

  /** How many moves are left at most. */
  function Left(c: Coordinator): nat {
    match c
    case Idle | Failed(_) => 0
    case JoiningCurrent => 12
    case AwaitingEpoch => 11
    case Requesting(side) => if side.BotSide? then 10 else 9
    case AwaitingReady => 8
    case JoiningOwned => 7
    case Flushing => 6
    case CheckingBarrier(_) => 5
    case CheckingOwnership => 4
    case Authorizing(side) => if side.BotSide? then 3 else 2
    case Resuming(side) => if side.BotSide? then 2 else 1
    case AwaitingCommits => 1
  }

  lemma SendsAdvance<T>(s: System<T>, m: Move<T>)
    requires WorkerInv(s.bot.worker) && WorkerInv(s.cleaner.worker) && Can(s, m) && Sends(m)
    ensures Left(Apply(s, m).coordinator) < Left(s.coordinator)
  {
    hide WorkerInv, WorkerStep, WorkerMay, Holds, RequestStep, ReadyStep, BarrierStep, TimeoutStep, SignalStep;
  }

  lemma OthersAdvance<T>(s: System<T>, m: Move<T>)
    requires WorkerInv(s.bot.worker) && WorkerInv(s.cleaner.worker) && Can(s, m) && Own(m) && !Sends(m)
    ensures Left(Apply(s, m).coordinator) < Left(s.coordinator)
  {
    hide WorkerInv, WorkerStep, WorkerMay, ResumeStep, AuthorizeStep, CommitsStep, ReadyResolved, SignalStep;
  }

  lemma OwnMovesAdvance<T>(s: System<T>, m: Move<T>)
    requires WorkerInv(s.bot.worker) && WorkerInv(s.cleaner.worker) && Can(s, m) && !m.Begin?
    ensures if Own(m) then Left(Apply(s, m).coordinator) < Left(s.coordinator)
            else Apply(s, m).coordinator == s.coordinator
  {
    hide WorkerInv, WorkerStep, WorkerMay, Left;
    if m.WorkerMove? {
      WorkersLeaveTheCoordinator(s, m.who, m.event);
    } else if Sends(m) {
      SendsAdvance(s, m);
    } else if Own(m) {
      OthersAdvance(s, m);
    } else {
      OutsideFailsNot(s, m, CursorCommitTimeout);
    }
  }

  function OwnMoves<T>(moves: seq<Move<T>>): nat {
    if moves == [] then 0 else (if Own(moves[0]) then 1 else 0) + OwnMoves(moves[1..])
  }

  lemma {:induction false} MovesAreLeft<T>(s: System<T>, moves: seq<Move<T>>)
    requires SystemInv(s) && CanAll(s, moves) && Begin !in moves
    ensures OwnMoves(moves) + Left(RunAll(s, moves).coordinator) <= Left(s.coordinator)
    decreases |moves|
  {
    hide SystemInv, Can, Apply, WorkerInv, Left, Own;
    if moves != [] {
      BothWorkers(s);
      MoveKeepsInv(s, moves[0]);
      OwnMovesAdvance(s, moves[0]);
      MovesAreLeft(Apply(s, moves[0]), moves[1..]);
    }
  }

  /** Whatever the workers do, a coordinator in a round always has a move of its own: at worst its time runs out. */
  lemma CoordinatorMayMove<T>(s: System<T>) returns (m: Move<T>)
    requires !s.coordinator.Idle? && !s.coordinator.Failed?
    ensures Can(s, m) && Own(m)
  {
    match s.coordinator
    case Requesting(_) => m := Request;
    case CheckingBarrier(_) => m := CheckBarrier;
    case CheckingOwnership => m := CheckOwnership;
    case Resuming(_) => m := SendResume;
    case Authorizing(_) => m := Authorize;
    case _ => m := Timeout;
  }

  /** So no round hangs: in every interleaving the coordinator ends it, or fails, within twelve moves of its own. */
  lemma {:induction false} NoRoundHangs<T>(s: System<T>, moves: seq<Move<T>>)
    requires SystemInv(s) && CanAll(s, moves) && Begin !in moves
    ensures OwnMoves(moves) <= 12
    ensures var c := RunAll(s, moves).coordinator;
      c.Idle? || c.Failed? || exists m :: Own(m) && Can(RunAll(s, moves), m)
  {
    hide SystemInv, Can, Apply, WorkerInv, Own, CanAll, RunAll;
    MovesAreLeft(s, moves);
    var t := RunAll(s, moves);
    if !t.coordinator.Idle? && !t.coordinator.Failed? {
      var m := CoordinatorMayMove(t);
    }
  }
}
