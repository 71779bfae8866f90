/**
 The periodic update checkpoint of src/main.rs: one coordinator and two update workers that may only move their durable
 cursors together.

 A `System` is the coordinator, the two workers, the channels between them and a `log` of what happened. Each `Move` is
 one atomic step of one party; timeouts, dropped channel ends, a stop signal, a poisoned barrier and a lost database
 may happen at any point, so every interleaving is a sequence of moves.
 */
module Checkpoint {
  import opened Dispatch
  import opened Options
  import opened UpdateWorker

  datatype Side = BotSide | CleanerSide

  datatype Failure =
    | WorkerCommand(side: Side)
    | WorkerStopped(side: Side)
    | OwnedTaskFailed(count: nat)
    | CursorCommitTimeout
    | CursorCommitFailed(bot: bool, cleaner: bool)
    | PersistenceBarrierPoisoned
    | BackgroundTaskFailed
    | DatabaseOwnershipLost

  datatype Coordinator =
    | Idle
    | JoiningCurrent
    | AwaitingEpoch
    | Requesting(side: Side)
    | AwaitingReady
    | JoiningOwned
    | Flushing
    | CheckingBarrier(flushed: bool)
    | Resuming(side: Side)
    | CheckingOwnership
    | Authorizing(side: Side)
    | AwaitingCommits
    | Failed(failure: Failure)

  /** What the outside could have observed, with the round it belongs to. */
  datatype Fact =
    | Ready(side: Side, round: nat)
    | OwnedJoined(round: nat, failures: nat)
    | Flushed(round: nat, media: bool, statistics: bool, logs: bool, samples: bool)
    | BarrierClean(round: nat)
    | OwnershipHeld(round: nat)
    | Cursor(side: Side, round: nat, ok: bool)
    | Deferred(round: nat)
    | Committed(round: nat)

  /** One worker with its command slot and the values sent over the one-shot channels of each round. */
  datatype Link<T> = Link(
    worker: Worker<T>,
    slot: Option<nat>,
    readySent: set<nat>,
    decision: map<nat, Decision>,
    completed: map<nat, bool>)

  datatype System<T> = System(
    bot: Link<T>,
    cleaner: Link<T>,
    coordinator: Coordinator,
    round: nat,
    poisoned: bool,
    alive: bool,
    log: seq<Fact>)

  datatype Move<T> =
    | WorkerMove(who: Side, event: Event<T>)
    | Begin
    | JoinedCurrent(failures: nat)
    | EpochTaken
    | Request
    | ReadyArrived(backgroundFailed: bool)
    | JoinedOwned(failures: nat)
    | FlushEnded(media: bool, statistics: bool, logs: bool, samples: bool)
    | CheckBarrier
    | SendResume
    | CheckOwnership
    | Authorize
    | CommitsArrived
    | Timeout
    | Poison
    | LoseOwnership
    | Signal(who: Side, value: Shutdown)
    | CloseSignal(who: Side)

  function NewLink<T>(kind: Kind, limits: Config): Link<T> {
    Link(NewWorker(kind, limits), None, {}, map[], map[])
  }

  function Initial<T>(bot: Config, cleaner: Config): System<T> {
    System(NewLink(BotKind, bot), NewLink(CleanerKind, cleaner), Idle, 0, false, true, [])
  }

  function LinkOf<T>(s: System<T>, side: Side): Link<T> {
    if side.BotSide? then s.bot else s.cleaner
  }

  function WithLink<T>(s: System<T>, side: Side, link: Link<T>): System<T> {
    if side.BotSide? then s.(bot := link) else s.(cleaner := link)
  }

  function Say<T>(s: System<T>, fact: Fact): System<T> {
    s.(log := s.log + [fact])
  }

  // ---------------------------------------------------------------- channels

  /** The worker still owns the command of round `r`, so the receiving ends inside it are alive. */
  predicate Holds<T>(link: Link<T>, r: nat) {
    !link.worker.phase.Stopped? && (link.slot == Some(r) || link.worker.checkpoint == Some(r))
  }

  /** The coordinator still listens for `ready` of round `r`. */
  predicate ReadyOpen<T>(s: System<T>, side: Side, r: nat) {
    r == s.round && (s.coordinator.AwaitingReady? || (side.BotSide? && s.coordinator == Requesting(CleanerSide)))
  }

  /** The coordinator still owns the unsent decision of round `r`. */
  predicate DecisionOpen<T>(s: System<T>, side: Side, r: nat) {
    r == s.round &&
    match s.coordinator
    case Requesting(next) => side.BotSide? && next.CleanerSide?
    case AwaitingReady | JoiningOwned | Flushing | CheckingBarrier(_) | CheckingOwnership => true
    case Resuming(next) => side == next || side.CleanerSide?
    case Authorizing(next) => side == next || side.CleanerSide?
    case _ => false
  }

  predicate ReadyResolved<T>(link: Link<T>, r: nat) {
    r in link.readySent || !Holds(link, r)
  }

  predicate CompletedResolved<T>(link: Link<T>, r: nat) {
    r in link.completed || !Holds(link, r)
  }

  // ---------------------------------------------------------------- moves

  predicate WorkerMay<T>(s: System<T>, side: Side, e: Event<T>) {
    var link := LinkOf(s, side);
    && Allowed(link.worker, e)
    && match e
       case TakeCommand(round) => round == link.slot && (round.Some? || s.coordinator.Failed?)
       case Abandoned => !ReadyOpen(s, side, link.worker.checkpoint.value)
       case DrainOver(readyOpen) =>
         link.worker.checkpoint.Some? ==> readyOpen == ReadyOpen(s, side, link.worker.checkpoint.value)
       case Decide(decision) =>
         link.worker.checkpoint.Some? &&
         var r := link.worker.checkpoint.value;
         if r in link.decision then decision == link.decision[r]
         else decision == ResumeWithoutCommit && !DecisionOpen(s, side, r)
       case Synced(_) => link.worker.checkpoint.Some?
       case _ => true
  }

  predicate Can<T>(s: System<T>, m: Move<T>) {
    match m
    case WorkerMove(side, e) => WorkerMay(s, side, e)
    case Begin => s.coordinator.Idle?
    case JoinedCurrent(_) => s.coordinator.JoiningCurrent?
    case EpochTaken => s.coordinator.AwaitingEpoch?
    case Request => s.coordinator.Requesting?
    case ReadyArrived(_) =>
      s.coordinator.AwaitingReady? && ReadyResolved(s.bot, s.round) && ReadyResolved(s.cleaner, s.round)
    case JoinedOwned(_) => s.coordinator.JoiningOwned?
    case FlushEnded(_, _, _, _) => s.coordinator.Flushing?
    case CheckBarrier => s.coordinator.CheckingBarrier?
    case SendResume => s.coordinator.Resuming?
    case CheckOwnership => s.coordinator.CheckingOwnership?
    case Authorize => s.coordinator.Authorizing?
    case CommitsArrived =>
      s.coordinator.AwaitingCommits? && CompletedResolved(s.bot, s.round) && CompletedResolved(s.cleaner, s.round)
    case Timeout =>
      s.coordinator.JoiningCurrent? || s.coordinator.AwaitingEpoch? || s.coordinator.AwaitingReady? ||
      s.coordinator.JoiningOwned? || s.coordinator.Flushing? || s.coordinator.AwaitingCommits?
    case Poison => true
    case LoseOwnership => true
    case Signal(_, _) => true
    case CloseSignal(_) => true
  }

  /** What a worker's own move means for its channels and for the log. */
  ghost function WorkerStep<T>(s: System<T>, side: Side, e: Event<T>): System<T>
    requires WorkerInv(LinkOf(s, side).worker) && WorkerMay(s, side, e)
  {
    var link := LinkOf(s, side);
    var w := Next(link.worker, e);
    var moved := link.(worker := w);
    match e
    case TakeCommand(_) => WithLink(s, side, moved.(slot := None))
    case DrainOver(_) =>
      if w.phase.Paused? then
        var r := w.checkpoint.value;
        Say(WithLink(s, side, moved.(readySent := link.readySent + {r})), Ready(side, r))
      else WithLink(s, side, moved)
    case Synced(ok) =>
      var r := link.worker.checkpoint.value;
      Say(WithLink(s, side, moved.(completed := link.completed[r := ok])), Cursor(side, r, ok))
    case _ => WithLink(s, side, moved)
  }

  function Fail<T>(s: System<T>, failure: Failure): System<T> {
    s.(coordinator := Failed(failure))
  }

  function Defer<T>(s: System<T>): System<T> {
    Say(s.(coordinator := Idle), Deferred(s.round))
  }

  function Send<T>(s: System<T>, side: Side, decision: Decision): System<T> {
    var link := LinkOf(s, side);
    WithLink(s, side, link.(decision := link.decision[s.round := decision]))
  }

  /** `finish_periodic_cursor_commit`: committed only if neither cursor failed. */
  function FinishCommit<T>(s: System<T>, bot: bool, cleaner: bool): System<T> {
    if bot && cleaner then Say(s.(coordinator := Idle), Committed(s.round))
    else Fail(s, CursorCommitFailed(!bot, !cleaner))
  }

  function RequestStep<T>(s: System<T>, side: Side): System<T> {
    var link := LinkOf(s, side);
    if link.slot.Some? || link.worker.phase.Stopped? then Fail(s, WorkerCommand(side))
    else
      WithLink(s, side, link.(slot := Some(s.round)))
      .(coordinator := if side.BotSide? then Requesting(CleanerSide) else AwaitingReady)
  }

  function ReadyStep<T>(s: System<T>, backgroundFailed: bool): System<T> {
    if s.round !in s.bot.readySent then Fail(s, WorkerStopped(BotSide))
    else if s.round !in s.cleaner.readySent then Fail(s, WorkerStopped(CleanerSide))
    else if backgroundFailed then Fail(s, BackgroundTaskFailed)
    else s.(coordinator := JoiningOwned)
  }

  function BarrierStep<T>(s: System<T>, flushed: bool): System<T> {
    if s.poisoned then Fail(s, PersistenceBarrierPoisoned)
    else if flushed then Say(s.(coordinator := CheckingOwnership), BarrierClean(s.round))
    else s.(coordinator := Resuming(BotSide))
  }

  function ResumeStep<T>(s: System<T>, side: Side): System<T> {
    if !Holds(LinkOf(s, side), s.round) then Fail(s, WorkerStopped(side))
    else if side.BotSide? then Send(s, side, ResumeWithoutCommit).(coordinator := Resuming(CleanerSide))
    else Defer(Send(s, side, ResumeWithoutCommit))
  }

  function AuthorizeStep<T>(s: System<T>, side: Side): System<T> {
    if !Holds(LinkOf(s, side), s.round) then Fail(s, WorkerStopped(side))
    else
      Send(s, side, Commit)
      .(coordinator := if side.BotSide? then Authorizing(CleanerSide) else AwaitingCommits)
  }

  function CommitsStep<T>(s: System<T>): System<T> {
    if s.round !in s.bot.completed then Fail(s, WorkerStopped(BotSide))
    else if s.round !in s.cleaner.completed then Fail(s, WorkerStopped(CleanerSide))
    else FinishCommit(s, s.bot.completed[s.round], s.cleaner.completed[s.round])
  }

  function TimeoutStep<T>(s: System<T>): System<T> {
    if s.coordinator.Flushing? then s.(coordinator := CheckingBarrier(false))
    else if s.coordinator.AwaitingCommits? then Fail(s, CursorCommitTimeout)
    else Defer(s)
  }

  function SignalStep<T>(s: System<T>, side: Side, value: Shutdown, closed: bool): System<T> {
    var link := LinkOf(s, side);
    WithLink(s, side, link.(worker := link.worker.(signal := value, signalClosed := closed)))
  }

  ghost function Apply<T>(s: System<T>, m: Move<T>): System<T>
    requires WorkerInv(s.bot.worker) && WorkerInv(s.cleaner.worker) && Can(s, m)
  {
    hide WorkerInv, Allowed;
    match m
    case WorkerMove(side, e) => WorkerStep(s, side, e)
    case Begin => s.(coordinator := JoiningCurrent, round := s.round + 1)
    case JoinedCurrent(failures) =>
      if failures == 0 then s.(coordinator := AwaitingEpoch) else Fail(s, OwnedTaskFailed(failures))
    case EpochTaken => s.(coordinator := Requesting(BotSide))
    case Request => RequestStep(s, s.coordinator.side)
    case ReadyArrived(backgroundFailed) => ReadyStep(s, backgroundFailed)
    case JoinedOwned(failures) =>
      Say(s.(coordinator := if failures == 0 then Flushing else Failed(OwnedTaskFailed(failures))),
          OwnedJoined(s.round, failures))
    case FlushEnded(media, statistics, logs, samples) =>
      Say(s.(coordinator := CheckingBarrier(media && statistics && logs && samples)),
          Flushed(s.round, media, statistics, logs, samples))
    case CheckBarrier => BarrierStep(s, s.coordinator.flushed)
    case SendResume => ResumeStep(s, s.coordinator.side)
    case CheckOwnership =>
      if s.alive then Say(s.(coordinator := Authorizing(BotSide)), OwnershipHeld(s.round))
      else Fail(s, DatabaseOwnershipLost)
    case Authorize => AuthorizeStep(s, s.coordinator.side)
    case CommitsArrived => CommitsStep(s)
    case Timeout => TimeoutStep(s)
    case Poison => s.(poisoned := true)
    case LoseOwnership => s.(alive := false)
    case Signal(side, value) => SignalStep(s, side, value, LinkOf(s, side).worker.signalClosed)
    case CloseSignal(side) => SignalStep(s, side, LinkOf(s, side).worker.signal, true)
  }

  // ---------------------------------------------------------------- what the protocol promises

  /** Everything that must be on record before either cursor of round `r` may move. */
  predicate Authorized(log: seq<Fact>, r: nat) {
    && Ready(BotSide, r) in log
    && Ready(CleanerSide, r) in log
    && OwnedJoined(r, 0) in log
    && Flushed(r, true, true, true, true) in log
    && BarrierClean(r) in log
    && OwnershipHeld(r) in log
  }

  /** A cursor moves only after the whole barrier of its own round. */
  ghost predicate BarrierFirst(log: seq<Fact>) {
    forall i :: 0 <= i < |log| && log[i].Cursor? ==> Authorized(log[..i], log[i].round)
  }

  /** A deferred round moves no cursor, neither before nor after it is deferred. */
  ghost predicate DeferredMovesNothing(log: seq<Fact>) {
    forall side, r, ok :: Cursor(side, r, ok) in log ==> Deferred(r) !in log
  }

  /** A committed round moved both cursors. */
  ghost predicate CommittedMovesBoth(log: seq<Fact>) {
    forall r :: Committed(r) in log ==> Cursor(BotSide, r, true) in log && Cursor(CleanerSide, r, true) in log
  }

  /** No worker moves its cursor twice in one round. */
  ghost predicate OncePerRound(log: seq<Fact>) {
    forall i, j :: 0 <= i < j < |log| && log[i].Cursor? && log[j].Cursor? && log[i].side == log[j].side ==>
      log[i].round != log[j].round
  }

  ghost predicate Safe(log: seq<Fact>) {
    BarrierFirst(log) && DeferredMovesNothing(log) && CommittedMovesBoth(log) && OncePerRound(log)
  }

  // ---------------------------------------------------------------- the invariant

  /** The command of round `r` is still on its way to its cursor. */
  predicate Pends<T>(link: Link<T>, r: nat) {
    link.slot == Some(r) || (!link.worker.phase.Stopped? && link.worker.checkpoint == Some(r))
  }

  predicate MayCommit<T>(link: Link<T>, r: nat) {
    r in link.decision && link.decision[r] == Commit
  }

  ghost predicate LinkInv<T>(link: Link<T>, side: Side, round: nat, log: seq<Fact>) {
    && WorkerInv(link.worker)
    && (forall r: nat :: Pends(link, r) ==> r <= round)
    && (link.slot.Some? && !link.worker.phase.Stopped? ==> link.worker.checkpoint != link.slot)
    && (forall r, ok :: Cursor(side, r, ok) in log ==> MayCommit(link, r) && !Pends(link, r))
    && (forall r :: r in link.readySent ==> Ready(side, r) in log)
    && (forall r :: r in link.decision ==> r <= round)
    && (forall r :: MayCommit(link, r) ==> Authorized(log, r) && Deferred(r) !in log)
    && (link.worker.phase.Committing? ==> MayCommit(link, link.worker.checkpoint.value))
    && (forall r :: r in link.completed ==> Cursor(side, r, link.completed[r]) in log)
  }

  /** How far the coordinator is in its round. */
  function Stage(c: Coordinator): nat {
    match c
    case Idle | Failed(_) => 0
    case JoiningCurrent | AwaitingEpoch | Requesting(_) => 1
    case AwaitingReady => 2
    case JoiningOwned => 3
    case Flushing => 4
    case CheckingBarrier(_) | Resuming(_) => 5
    case CheckingOwnership => 6
    case Authorizing(_) | AwaitingCommits => 7
  }

  /** No decision of this round was sent to this side yet. */
  predicate Undecided<T>(s: System<T>, side: Side) {
    s.round !in LinkOf(s, side).decision
  }

  ghost predicate StageInv<T>(s: System<T>) {
    var stage := Stage(s.coordinator);
    && (stage >= 3 ==> Ready(BotSide, s.round) in s.log && Ready(CleanerSide, s.round) in s.log)
    && (stage >= 4 ==> OwnedJoined(s.round, 0) in s.log)
    && (stage >= 6 || s.coordinator == CheckingBarrier(true) ==> Flushed(s.round, true, true, true, true) in s.log)
    && (stage >= 6 ==> BarrierClean(s.round) in s.log)
    && (stage >= 7 ==> OwnershipHeld(s.round) in s.log)
  }

  ghost predicate DecisionInv<T>(s: System<T>) {
    var stage := Stage(s.coordinator);
    && (1 <= stage && s.coordinator != AwaitingCommits ==> Undecided(s, CleanerSide))
    && (1 <= stage && s.coordinator !in {AwaitingCommits, Resuming(CleanerSide), Authorizing(CleanerSide)} ==>
          Undecided(s, BotSide))
    && (s.coordinator == Resuming(CleanerSide) ==> !MayCommit(s.bot, s.round))
    && (stage == 1 ==> !Pends(s.cleaner, s.round))
    && (stage == 1 && s.coordinator != Requesting(CleanerSide) ==> !Pends(s.bot, s.round))
    && (forall r: nat :: Deferred(r) in s.log ==> r <= s.round && (r == s.round ==> stage == 0))
  }

  ghost predicate SystemInv<T>(s: System<T>) {
    && LinkInv(s.bot, BotSide, s.round, s.log)
    && LinkInv(s.cleaner, CleanerSide, s.round, s.log)
    && StageInv(s)
    && DecisionInv(s)
    && Safe(s.log)
  }

  // ---------------------------------------------------------------- the log only grows

  lemma AppendKeepsAuthorized(log: seq<Fact>, fact: Fact, r: nat)
    requires Authorized(log, r)
    ensures Authorized(log + [fact], r)
  {
  }

  lemma AppendKeepsLink<T>(link: Link<T>, side: Side, round: nat, log: seq<Fact>, fact: Fact)
    requires LinkInv(link, side, round, log)
    requires fact.Cursor? ==> fact.side != side
    requires fact.Deferred? ==> !MayCommit(link, fact.round)
    ensures LinkInv(link, side, round, log + [fact])
  {
    hide WorkerInv;
    forall r | MayCommit(link, r) ensures Authorized(log + [fact], r) && Deferred(r) !in log + [fact] {
      AppendKeepsAuthorized(log, fact, r);
    }
  }

  lemma AppendKeepsBarrier(log: seq<Fact>, fact: Fact)
    requires BarrierFirst(log) && (fact.Cursor? ==> Authorized(log, fact.round))
    ensures BarrierFirst(log + [fact])
  {
    hide Authorized;
    var more := log + [fact];
    forall i | 0 <= i < |more| && more[i].Cursor? ensures Authorized(more[..i], more[i].round) {
      assert i < |log| ==> more[..i] == log[..i] && more[i] == log[i];
      assert i == |log| ==> more[..i] == log;
    }
  }

  lemma AppendKeepsOnce(log: seq<Fact>, fact: Fact)
    requires OncePerRound(log) && (fact.Cursor? ==> forall ok :: Cursor(fact.side, fact.round, ok) !in log)
    ensures OncePerRound(log + [fact])
  {
    var more := log + [fact];
    forall i, j | 0 <= i < j < |more| && more[i].Cursor? && more[j].Cursor? && more[i].side == more[j].side
      ensures more[i].round != more[j].round
    {
      if j == |log| {
        assert Cursor(more[i].side, more[i].round, more[i].ok) in log;
      }
    }
  }

  /** Appending anything but a cursor, a deferral or a commitment keeps every promise; those three need a reason. */
  lemma AppendKeepsSafe(log: seq<Fact>, fact: Fact)
    requires Safe(log)
    requires fact.Cursor? ==>
               Authorized(log, fact.round) && Deferred(fact.round) !in log &&
               forall ok :: Cursor(fact.side, fact.round, ok) !in log
    requires fact.Deferred? ==> forall side, ok :: Cursor(side, fact.round, ok) !in log
    requires fact.Committed? ==> Cursor(BotSide, fact.round, true) in log && Cursor(CleanerSide, fact.round, true) in log
    ensures Safe(log + [fact])
  {
    hide BarrierFirst, OncePerRound, Authorized;
    AppendKeepsBarrier(log, fact);
    AppendKeepsOnce(log, fact);
  }

  // ---------------------------------------------------------------- every move keeps the invariant

  /** Appends one fact that is neither a cursor nor a commitment to the log of a system in good order. */
  lemma SayKeeps<T>(s: System<T>, fact: Fact)
    requires LinkInv(s.bot, BotSide, s.round, s.log) && LinkInv(s.cleaner, CleanerSide, s.round, s.log) && Safe(s.log)
    requires !fact.Cursor? && !fact.Committed?
    requires fact.Deferred? ==> !MayCommit(s.bot, fact.round) && !MayCommit(s.cleaner, fact.round)
    ensures var t := Say(s, fact);
            LinkInv(t.bot, BotSide, t.round, t.log) && LinkInv(t.cleaner, CleanerSide, t.round, t.log) && Safe(t.log)
  {
    hide WorkerInv;
    AppendKeepsLink(s.bot, BotSide, s.round, s.log, fact);
    AppendKeepsLink(s.cleaner, CleanerSide, s.round, s.log, fact);
    if fact.Deferred? {
      forall side, ok ensures Cursor(side, fact.round, ok) !in s.log {
        if side == BotSide {}
      }
    }
    AppendKeepsSafe(s.log, fact);
  }

  lemma DeferKeeps<T>(s: System<T>)
    requires SystemInv(s) && !MayCommit(s.bot, s.round) && !MayCommit(s.cleaner, s.round)
    ensures SystemInv(Defer(s))
  {
    hide LinkInv, Safe;
    SayKeeps(s, Deferred(s.round));
  }

  lemma ReadyIsOnRecord<T>(s: System<T>)
    requires SystemInv(s)
    ensures s.round in s.bot.readySent ==> Ready(BotSide, s.round) in s.log
    ensures s.round in s.cleaner.readySent ==> Ready(CleanerSide, s.round) in s.log
  {
  }

  /** A failed coordinator promises nothing about its round any more. */
  lemma FailKeeps<T>(s: System<T>, failure: Failure)
    requires SystemInv(s)
    ensures SystemInv(Fail(s, failure))
  {
    hide LinkInv, Safe, WorkerInv;
  }

  lemma JoinedCurrentKeeps<T>(s: System<T>)
    requires SystemInv(s) && s.coordinator.JoiningCurrent?
    ensures SystemInv(s.(coordinator := AwaitingEpoch))
  {
    hide LinkInv, Safe, WorkerInv;
  }

  lemma EpochTakenKeeps<T>(s: System<T>)
    requires SystemInv(s) && s.coordinator.AwaitingEpoch?
    ensures SystemInv(s.(coordinator := Requesting(BotSide)))
  {
    hide LinkInv, Safe, WorkerInv;
  }

  lemma ReadyArrivedKeeps<T>(s: System<T>, backgroundFailed: bool)
    requires SystemInv(s) && s.coordinator.AwaitingReady?
    ensures SystemInv(ReadyStep(s, backgroundFailed))
  {
    hide LinkInv, Safe, WorkerInv;
    ReadyIsOnRecord(s);
  }

  lemma PoisonKeeps<T>(s: System<T>)
    requires SystemInv(s)
    ensures SystemInv(s.(poisoned := true))
  {
    hide LinkInv, Safe, WorkerInv;
  }

  lemma LostOwnershipKeeps<T>(s: System<T>)
    requires SystemInv(s)
    ensures SystemInv(s.(alive := false))
  {
    hide LinkInv, Safe, WorkerInv;
  }

  lemma JoinedOwnedKeeps<T>(s: System<T>, failures: nat)
    requires SystemInv(s) && s.coordinator.JoiningOwned?
    ensures SystemInv(Say(s.(coordinator := if failures == 0 then Flushing else Failed(OwnedTaskFailed(failures))),
                          OwnedJoined(s.round, failures)))
  {
    hide LinkInv, Safe, WorkerInv;
    SayKeeps(s, OwnedJoined(s.round, failures));
  }

  lemma FlushEndedKeeps<T>(s: System<T>, media: bool, statistics: bool, logs: bool, samples: bool)
    requires SystemInv(s) && s.coordinator.Flushing?
    ensures SystemInv(Say(s.(coordinator := CheckingBarrier(media && statistics && logs && samples)),
                          Flushed(s.round, media, statistics, logs, samples)))
  {
    hide LinkInv, Safe, WorkerInv;
    SayKeeps(s, Flushed(s.round, media, statistics, logs, samples));
  }

  lemma CheckBarrierKeeps<T>(s: System<T>, flushed: bool)
    requires SystemInv(s) && s.coordinator == CheckingBarrier(flushed)
    ensures SystemInv(BarrierStep(s, flushed))
  {
    hide LinkInv, Safe, WorkerInv;
    SayKeeps(s, BarrierClean(s.round));
  }

  lemma CheckOwnershipKeeps<T>(s: System<T>)
    requires SystemInv(s) && s.coordinator.CheckingOwnership?
    ensures SystemInv(Say(s.(coordinator := Authorizing(BotSide)), OwnershipHeld(s.round)))
  {
    hide LinkInv, Safe, WorkerInv;
    SayKeeps(s, OwnershipHeld(s.round));
  }

  lemma TimeoutKeeps<T>(s: System<T>)
    requires SystemInv(s) && Can(s, Timeout)
    ensures SystemInv(TimeoutStep(s))
  {
    hide LinkInv, Safe, WorkerInv;
    if !s.coordinator.Flushing? && !s.coordinator.AwaitingCommits? {
      DeferKeeps(s);
    }
  }

  lemma BeginKeepsLink<T>(link: Link<T>, side: Side, round: nat, log: seq<Fact>)
    requires LinkInv(link, side, round, log)
    ensures LinkInv(link, side, round + 1, log) && !Pends(link, round + 1) && round + 1 !in link.decision
  {
    hide WorkerInv, Authorized, MayCommit;
  }

  lemma BeginKeeps<T>(s: System<T>)
    requires SystemInv(s) && s.coordinator.Idle?
    ensures SystemInv(s.(coordinator := JoiningCurrent, round := s.round + 1))
  {
    hide LinkInv, Safe, Pends;
    BeginKeepsLink(s.bot, BotSide, s.round, s.log);
    BeginKeepsLink(s.cleaner, CleanerSide, s.round, s.log);
  }

  lemma RequestKeepsLink<T>(link: Link<T>, side: Side, round: nat, log: seq<Fact>)
    requires LinkInv(link, side, round, log) && !Pends(link, round) && round !in link.decision && link.slot == None
    ensures LinkInv(link.(slot := Some(round)), side, round, log)
  {
    hide WorkerInv;
    assert forall r: nat :: Pends(link.(slot := Some(round)), r) <==> Pends(link, r) || r == round;
    assert forall r :: MayCommit(link.(slot := Some(round)), r) <==> MayCommit(link, r);
  }

  lemma RequestKeeps<T>(s: System<T>)
    requires SystemInv(s) && s.coordinator.Requesting?
    ensures SystemInv(RequestStep(s, s.coordinator.side))
  {
    hide LinkInv, Safe, WorkerInv;
    var side := s.coordinator.side;
    if LinkOf(s, side).slot == None {
      RequestKeepsLink(LinkOf(s, side), side, s.round, s.log);
    }
  }

  lemma SendKeepsLink<T>(link: Link<T>, side: Side, round: nat, log: seq<Fact>, decision: Decision)
    requires LinkInv(link, side, round, log) && round !in link.decision
    requires decision == Commit ==> Authorized(log, round) && Deferred(round) !in log
    ensures LinkInv(link.(decision := link.decision[round := decision]), side, round, log)
  {
    hide WorkerInv;
    var sent := link.(decision := link.decision[round := decision]);
    assert forall r: nat :: Pends(sent, r) <==> Pends(link, r);
  }

  lemma SendResumeKeeps<T>(s: System<T>)
    requires SystemInv(s) && s.coordinator.Resuming?
    ensures SystemInv(ResumeStep(s, s.coordinator.side))
  {
    hide LinkInv, Safe, WorkerInv;
    var side := s.coordinator.side;
    SendKeepsLink(LinkOf(s, side), side, s.round, s.log, ResumeWithoutCommit);
    if side.CleanerSide? {
      SayKeeps(Send(s, side, ResumeWithoutCommit), Deferred(s.round));
    }
  }

  lemma AuthorizeKeeps<T>(s: System<T>)
    requires SystemInv(s) && s.coordinator.Authorizing?
    ensures SystemInv(AuthorizeStep(s, s.coordinator.side))
  {
    hide LinkInv, Safe, WorkerInv;
    var side := s.coordinator.side;
    if Holds(LinkOf(s, side), s.round) {
      SendKeepsLink(LinkOf(s, side), side, s.round, s.log, Commit);
    } else {
      FailKeeps(s, WorkerStopped(side));
      hide SystemInv;
    }
  }

  lemma CompletedIsOnRecord<T>(link: Link<T>, side: Side, round: nat, log: seq<Fact>)
    requires LinkInv(link, side, round, log) && round in link.completed
    ensures Cursor(side, round, link.completed[round]) in log
  {
    hide WorkerInv;
  }

  lemma CommitsArrivedKeeps<T>(s: System<T>)
    requires SystemInv(s) && s.coordinator.AwaitingCommits?
    ensures SystemInv(CommitsStep(s))
  {
    hide LinkInv, Safe, WorkerInv;
    if s.round in s.bot.completed && s.round in s.cleaner.completed {
      CompletedIsOnRecord(s.bot, BotSide, s.round, s.log);
      CompletedIsOnRecord(s.cleaner, CleanerSide, s.round, s.log);
      AppendKeepsLink(s.bot, BotSide, s.round, s.log, Committed(s.round));
      AppendKeepsLink(s.cleaner, CleanerSide, s.round, s.log, Committed(s.round));
      if s.bot.completed[s.round] && s.cleaner.completed[s.round] {
        AppendKeepsSafe(s.log, Committed(s.round));
      }
    }
  }

  lemma SignalKeepsLink<T>(link: Link<T>, side: Side, round: nat, log: seq<Fact>, value: Shutdown, closed: bool)
    requires LinkInv(link, side, round, log)
    ensures LinkInv(link.(worker := link.worker.(signal := value, signalClosed := closed)), side, round, log)
  {
    hide Good;
    var told := link.(worker := link.worker.(signal := value, signalClosed := closed));
    assert forall r: nat :: Pends(told, r) <==> Pends(link, r);
  }

  lemma SignalKeeps<T>(s: System<T>, side: Side, value: Shutdown, closed: bool)
    requires SystemInv(s)
    ensures SystemInv(SignalStep(s, side, value, closed))
  {
    hide LinkInv, Safe, WorkerInv;
    SignalKeepsLink(LinkOf(s, side), side, s.round, s.log, value, closed);
  }

  // ---------------------------------------------------------------- the workers' own moves

  /** A worker only forgets its command, except when it takes one, and only a decision starts a cursor write. */
  ghost predicate Shape<T>(w: Worker<T>, e: Event<T>, v: Worker<T>) {
    && !w.phase.Stopped?
    && (if e.TakeCommand? then v.checkpoint == e.round else v.checkpoint == w.checkpoint || v.checkpoint == None)
    && (v.phase.Committing? ==> e == Decide(Commit) && v.checkpoint == w.checkpoint)
    && (e.Synced? ==> v.checkpoint == None || v.phase.Stopped?)
    && (e.DrainOver? && v.phase.Paused? ==> e.readyOpen && w.checkpoint.Some? && v.checkpoint == w.checkpoint)
  }

  lemma IntakeShape<T>(w: Worker<T>, e: Event<T>)
    requires WorkerInv(w) && Allowed(w, e) && (e.Enter? || e.Deliver? || e.BufferEmpty? || e.BufferBroken?)
    ensures Shape(w, e, Next(w, e))
  {
    hide WorkerInv, Settle, Step, Inv, HasRoom, IsEmpty, Load, CanStart;
  }

  lemma JoinShape<T>(w: Worker<T>, e: Event<T>)
    requires WorkerInv(w) && Allowed(w, e) && e.Join?
    ensures Shape(w, e, Next(w, e))
  {
    hide WorkerInv, Settle, Step, Inv, HasRoom, IsEmpty, Load, CanStart;
  }

  lemma QuietShape<T>(w: Worker<T>, e: Event<T>)
    requires WorkerInv(w) && Allowed(w, e)
    requires !(e.Enter? || e.Join? || e.Deliver? || e.BufferEmpty? || e.BufferBroken?)
    ensures Shape(w, e, Next(w, e))
  {
    hide WorkerInv, Settle, Step, Inv, HasRoom, IsEmpty, Load, CanStart, Start, End, Admit, StartDrain;
  }

  lemma WorkerMoveShape<T>(w: Worker<T>, e: Event<T>)
    requires WorkerInv(w) && Allowed(w, e)
    ensures Shape(w, e, Next(w, e))
  {
    hide WorkerInv, Allowed, Next, Shape;
    if e.Enter? || e.Deliver? || e.BufferEmpty? || e.BufferBroken? {
      IntakeShape(w, e);
    } else if e.Join? {
      JoinShape(w, e);
    } else {
      QuietShape(w, e);
    }
  }

  /** A worker's move is harmless when it sends nothing and puts no command back on its way. */
  lemma SameChannelsKeepsLink<T>(link: Link<T>, moved: Link<T>, side: Side, round: nat, log: seq<Fact>)
    requires LinkInv(link, side, round, log) && WorkerInv(moved.worker)
    requires moved.decision == link.decision && moved.readySent == link.readySent && moved.completed == link.completed
    requires forall r: nat :: Pends(moved, r) ==> Pends(link, r)
    requires moved.slot.Some? && !moved.worker.phase.Stopped? ==> moved.worker.checkpoint != moved.slot
    requires moved.worker.phase.Committing? ==>
               moved.worker.checkpoint.Some? && MayCommit(link, moved.worker.checkpoint.value)
    ensures LinkInv(moved, side, round, log)
  {
    hide WorkerInv, Authorized, Pends;
    assert forall r :: MayCommit(moved, r) <==> MayCommit(link, r);
  }

  lemma PlainMoveKeepsLink<T>(link: Link<T>, side: Side, round: nat, log: seq<Fact>, e: Event<T>)
    requires LinkInv(link, side, round, log) && Allowed(link.worker, e)
    requires !e.TakeCommand? && !e.Synced?
    requires e.Decide? ==> link.worker.checkpoint.Some?
    requires e == Decide(Commit) ==> MayCommit(link, link.worker.checkpoint.value)
    ensures LinkInv(link.(worker := Next(link.worker, e)), side, round, log)
  {
    hide WorkerInv, Next, Allowed, Authorized;
    WorkerMoveShape(link.worker, e);
    StepKeepsWorkerInv(link.worker, e);
    SameChannelsKeepsLink(link, link.(worker := Next(link.worker, e)), side, round, log);
  }

  lemma TakeKeepsLink<T>(link: Link<T>, side: Side, round: nat, log: seq<Fact>)
    requires LinkInv(link, side, round, log) && Allowed(link.worker, TakeCommand(link.slot))
    ensures LinkInv(link.(worker := Next(link.worker, TakeCommand(link.slot)), slot := None), side, round, log)
  {
    hide WorkerInv, Next, Allowed, Authorized;
    WorkerMoveShape(link.worker, TakeCommand(link.slot));
    StepKeepsWorkerInv(link.worker, TakeCommand(link.slot));
    SameChannelsKeepsLink(
      link, link.(worker := Next(link.worker, TakeCommand(link.slot)), slot := None), side, round, log);
  }

  /** The facts a finished cursor write adds, for the side that wrote it. */
  lemma SyncKeepsLink<T>(link: Link<T>, side: Side, round: nat, log: seq<Fact>, ok: bool)
    requires LinkInv(link, side, round, log) && Allowed(link.worker, Synced(ok)) && link.worker.checkpoint.Some?
    ensures var r := link.worker.checkpoint.value;
            LinkInv(link.(worker := Next(link.worker, Synced(ok)), completed := link.completed[r := ok]),
                    side, round, log + [Cursor(side, r, ok)])
  {
    hide WorkerInv, Next, Authorized;
    WorkerMoveShape(link.worker, Synced(ok));
    StepKeepsWorkerInv(link.worker, Synced(ok));
    var r := link.worker.checkpoint.value;
    var moved := link.(worker := Next(link.worker, Synced(ok)));
    SameChannelsKeepsLink(link, moved, side, round, log);
    WroteCursorKeepsLink(moved, side, round, log, r, ok);
  }

  lemma WroteCursorKeepsLink<T>(link: Link<T>, side: Side, round: nat, log: seq<Fact>, r: nat, ok: bool)
    requires LinkInv(link, side, round, log) && MayCommit(link, r) && !Pends(link, r)
    ensures LinkInv(link.(completed := link.completed[r := ok]), side, round, log + [Cursor(side, r, ok)])
  {
    hide WorkerInv;
    var wrote := link.(completed := link.completed[r := ok]);
    assert forall q: nat :: Pends(wrote, q) <==> Pends(link, q);
    forall q | MayCommit(wrote, q)
      ensures Authorized(log + [Cursor(side, r, ok)], q) && Deferred(q) !in log + [Cursor(side, r, ok)]
    {
      assert MayCommit(link, q);
      AppendKeepsAuthorized(log, Cursor(side, r, ok), q);
    }
  }

  /** What a pending command means for the log: its cursor has not moved yet. */
  lemma PendingHasNoCursor<T>(link: Link<T>, side: Side, round: nat, log: seq<Fact>, r: nat)
    requires LinkInv(link, side, round, log) && Pends(link, r)
    ensures forall ok :: Cursor(side, r, ok) !in log
  {
    hide WorkerInv;
  }

  lemma MayCommitIsAuthorized<T>(link: Link<T>, side: Side, round: nat, log: seq<Fact>)
    requires LinkInv(link, side, round, log) && link.worker.phase.Committing? && link.worker.checkpoint.Some?
    ensures var r := link.worker.checkpoint.value;
            MayCommit(link, r) && Authorized(log, r) && Deferred(r) !in log && Pends(link, r)
  {
    hide WorkerInv;
  }

  lemma LinkHasWorker<T>(s: System<T>, side: Side)
    requires SystemInv(s)
    ensures WorkerInv(LinkOf(s, side).worker)
  {
    hide WorkerInv;
  }

  lemma SyncedKeeps<T>(s: System<T>, side: Side, ok: bool)
    requires SystemInv(s) && WorkerMay(s, side, Synced(ok))
    ensures SystemInv(WorkerStep(s, side, Synced(ok)))
  {
    hide LinkInv, WorkerInv, Safe, Next;
    var link, other := LinkOf(s, side), if side.BotSide? then CleanerSide else BotSide;
    var r := link.worker.checkpoint.value;
    MayCommitIsAuthorized(link, side, s.round, s.log);
    PendingHasNoCursor(link, side, s.round, s.log, r);
    SyncKeepsLink(link, side, s.round, s.log, ok);
    AppendKeepsLink(LinkOf(s, other), other, s.round, s.log, Cursor(side, r, ok));
    AppendKeepsSafe(s.log, Cursor(side, r, ok));
    LinkHasWorker(s, side);
    WorkerMoveShape(link.worker, Synced(ok));
    PendsShrinks(s, WorkerStep(s, side, Synced(ok)), side);
  }

  /** A worker's own move leaves the coordinator's view of the round intact. */
  lemma PendsShrinks<T>(s: System<T>, t: System<T>, side: Side)
    requires StageInv(s) && DecisionInv(s)
    requires t.coordinator == s.coordinator && t.round == s.round && s.log <= t.log
    requires forall r :: Deferred(r) in t.log ==> Deferred(r) in s.log
    requires forall fact :: fact in s.log ==> fact in t.log
    requires LinkOf(t, side).decision == LinkOf(s, side).decision
    requires forall r: nat :: Pends(LinkOf(t, side), r) ==> Pends(LinkOf(s, side), r)
    requires forall other :: other != side ==> LinkOf(t, other) == LinkOf(s, other)
    ensures StageInv(t) && DecisionInv(t)
  {
    hide Pends;
    assert LinkOf(s, BotSide) == s.bot && LinkOf(s, CleanerSide) == s.cleaner;
    assert LinkOf(t, BotSide) == t.bot && LinkOf(t, CleanerSide) == t.cleaner;
  }

  lemma TakeCommandKeeps<T>(s: System<T>, side: Side, round: Option<nat>)
    requires SystemInv(s) && WorkerMay(s, side, TakeCommand(round))
    ensures SystemInv(WorkerStep(s, side, TakeCommand(round)))
  {
    hide LinkInv, WorkerInv, Safe, Next;
    var link := LinkOf(s, side);
    TakeKeepsLink(link, side, s.round, s.log);
    LinkHasWorker(s, side);
    WorkerMoveShape(link.worker, TakeCommand(round));
    PendsShrinks(s, WorkerStep(s, side, TakeCommand(round)), side);
  }

  lemma ReadyKeepsLink<T>(link: Link<T>, side: Side, round: nat, log: seq<Fact>, r: nat)
    requires LinkInv(link, side, round, log) && Ready(side, r) in log
    ensures LinkInv(link.(readySent := link.readySent + {r}), side, round, log)
  {
    hide WorkerInv, Authorized;
    var sent := link.(readySent := link.readySent + {r});
    assert forall q: nat :: Pends(sent, q) <==> Pends(link, q);
    assert forall q :: MayCommit(sent, q) <==> MayCommit(link, q);
  }

  lemma DrainOverKeeps<T>(s: System<T>, side: Side, readyOpen: bool)
    requires SystemInv(s) && WorkerMay(s, side, DrainOver(readyOpen))
    ensures SystemInv(WorkerStep(s, side, DrainOver(readyOpen)))
  {
    hide LinkInv, WorkerInv, Safe, Next, ReadyOpen;
    var e := DrainOver(readyOpen);
    var link := LinkOf(s, side);
    PlainMoveKeepsLink(link, side, s.round, s.log, e);
    LinkHasWorker(s, side);
    WorkerMoveShape(link.worker, e);
    PendsShrinks(s, WorkerStep(s, side, e), side);
    var w := Next(link.worker, e);
    if w.phase.Paused? {
      SayKeeps(WithLink(s, side, link.(worker := w)), Ready(side, w.checkpoint.value));
      ReadyKeepsLink(link.(worker := w), side, s.round, WorkerStep(s, side, e).log, w.checkpoint.value);
    }
  }

  /** A decision to commit that reaches a worker was sent to it. */
  lemma DecideIsSent<T>(s: System<T>, side: Side, e: Event<T>)
    requires WorkerMay(s, side, e)
    ensures Allowed(LinkOf(s, side).worker, e)
    ensures e.Decide? ==> LinkOf(s, side).worker.checkpoint.Some?
    ensures e == Decide(Commit) ==> MayCommit(LinkOf(s, side), LinkOf(s, side).worker.checkpoint.value)
  {
    hide Allowed, ReadyOpen, DecisionOpen;
  }

  lemma OtherWorkerMoveKeeps<T>(s: System<T>, side: Side, e: Event<T>)
    requires SystemInv(s) && WorkerMay(s, side, e)
    requires !e.TakeCommand? && !e.DrainOver? && !e.Synced?
    ensures SystemInv(WorkerStep(s, side, e))
  {
    hide LinkInv, WorkerInv, Safe, Next, WorkerMay, Allowed, StageInv, DecisionInv;
    var link := LinkOf(s, side);
    DecideIsSent(s, side, e);
    PlainMoveKeepsLink(link, side, s.round, s.log, e);
    LinkHasWorker(s, side);
    WorkerMoveShape(link.worker, e);
    PendsShrinks(s, WithLink(s, side, link.(worker := Next(link.worker, e))), side);
  }

  lemma WorkerMoveKeeps<T>(s: System<T>, side: Side, e: Event<T>)
    requires SystemInv(s) && WorkerMay(s, side, e)
    ensures SystemInv(WorkerStep(s, side, e))
  {
    hide SystemInv, WorkerStep, WorkerMay;
    match e
    case TakeCommand(round) => TakeCommandKeeps(s, side, round);
    case DrainOver(readyOpen) => DrainOverKeeps(s, side, readyOpen);
    case Synced(ok) => SyncedKeeps(s, side, ok);
    case _ => OtherWorkerMoveKeeps(s, side, e);
  }

  /** Every step of every party, of a timer or of a failure keeps the invariant. */
  lemma MoveKeepsInv<T>(s: System<T>, m: Move<T>)
    requires SystemInv(s) && Can(s, m)
    ensures SystemInv(Apply(s, m))
  {
    hide SystemInv, WorkerStep, WorkerMay, Fail, RequestStep, ReadyStep, BarrierStep, ResumeStep, AuthorizeStep,
         CommitsStep, TimeoutStep, SignalStep, Say;
    match m
    case WorkerMove(side, e) => WorkerMoveKeeps(s, side, e);
    case Begin => BeginKeeps(s);
    case JoinedCurrent(failures) =>
      JoinedCurrentKeeps(s);
      FailKeeps(s, OwnedTaskFailed(failures));
    case EpochTaken => EpochTakenKeeps(s);
    case Request => RequestKeeps(s);
    case ReadyArrived(backgroundFailed) => ReadyArrivedKeeps(s, backgroundFailed);
    case JoinedOwned(failures) => JoinedOwnedKeeps(s, failures);
    case FlushEnded(a, b, c, d) => FlushEndedKeeps(s, a, b, c, d);
    case CheckBarrier => CheckBarrierKeeps(s, s.coordinator.flushed);
    case SendResume => SendResumeKeeps(s);
    case CheckOwnership =>
      CheckOwnershipKeeps(s);
      FailKeeps(s, DatabaseOwnershipLost);
    case Authorize => AuthorizeKeeps(s);
    case CommitsArrived => CommitsArrivedKeeps(s);
    case Timeout => TimeoutKeeps(s);
    case Poison => PoisonKeeps(s);
    case LoseOwnership => LostOwnershipKeeps(s);
    case Signal(side, value) => SignalKeeps(s, side, value, LinkOf(s, side).worker.signalClosed);
    case CloseSignal(side) => SignalKeeps(s, side, LinkOf(s, side).worker.signal, true);
  }

  // ---------------------------------------------------------------- whole runs

  ghost predicate CanAll<T>(s: System<T>, moves: seq<Move<T>>)
    requires SystemInv(s)
    decreases |moves|
  {
    moves == [] ||
    (Can(s, moves[0]) && (MoveKeepsInv(s, moves[0]); CanAll(Apply(s, moves[0]), moves[1..])))
  }

  ghost function RunAll<T>(s: System<T>, moves: seq<Move<T>>): (t: System<T>)
    requires SystemInv(s) && CanAll(s, moves)
    ensures SystemInv(t)
    decreases |moves|
  {
    if moves == [] then s
    else
      MoveKeepsInv(s, moves[0]);
      RunAll(Apply(s, moves[0]), moves[1..])
  }

  lemma InitialInv<T>(bot: Config, cleaner: Config)
    requires bot.Valid() && cleaner.Valid()
    ensures SystemInv(Initial<T>(bot, cleaner))
  {
    hide WorkerInv, Good;
    NewWorkerInv<T>(BotKind, bot);
    NewWorkerInv<T>(CleanerKind, cleaner);
  }

  /** In every interleaving, cursors move only together with the whole barrier of their round. */
  lemma EveryRunIsSafe<T>(bot: Config, cleaner: Config, moves: seq<Move<T>>)
    requires bot.Valid() && cleaner.Valid()
    requires (InitialInv<T>(bot, cleaner); CanAll(Initial(bot, cleaner), moves))
    ensures (InitialInv<T>(bot, cleaner); Safe(RunAll(Initial(bot, cleaner), moves).log))
  {
    InitialInv<T>(bot, cleaner);
    hide LinkInv, StageInv, DecisionInv, Safe;
    var _ := RunAll(Initial(bot, cleaner), moves);
  }

  /** Whenever a cursor moves, its worker is empty, never saw a panic, and has handled all it was given. */
  lemma CursorMovesAtRest<T>(s: System<T>, side: Side, ok: bool)
    requires SystemInv(s) && Can(s, WorkerMove(side, Synced(ok)))
    ensures var w := LinkOf(s, side).worker;
            IsEmpty(Tasks(w)) && w.panicsEver == 0 && AllHandled(w)
  {
    hide WorkerInv, AllHandled;
    LinkHasWorker(s, side);
    RestMeansHandled(LinkOf(s, side).worker);
  }
}
