/**
 The checkpoint protocol is not safe by standing still: from every reachable state in which the coordinator is idle and
 both workers wait with nothing to do, some run commits the next round. Nor does it need a worker to stop in order to
 fail: a request finds the channel still full when the worker has not taken an earlier command.
 */
module CheckpointProgress {
  import opened Dispatch
  import opened Options
  import opened UpdateWorker
  import opened Checkpoint
  import WorkerRuns

  ghost predicate Reaches<T(!new)>(s: System<T>, t: System<T>)
    requires SystemInv(s)
  {
    exists moves :: CanAll(s, moves) && RunAll(s, moves) == t
  }

  lemma HasWorker<T(!new)>(s: System<T>, side: Side)
    requires SystemInv(s)
    ensures WorkerInv(s.bot.worker) && WorkerInv(s.cleaner.worker) && WorkerInv(LinkOf(s, side).worker)
  {
  }

  lemma {:induction false} MovesAppend<T(!new)>(s: System<T>, moves: seq<Move<T>>, m: Move<T>)
    requires SystemInv(s) && CanAll(s, moves) && Can(RunAll(s, moves), m)
    ensures CanAll(s, moves + [m]) && RunAll(s, moves + [m]) == Apply(RunAll(s, moves), m)
    decreases |moves|
  {
    hide SystemInv, Can, Apply, WorkerInv;
    HasWorker(s, BotSide);
    if moves == [] {
      MoveKeepsInv(s, m);
      assert [] + [m] == [m];
      assert [m][1..] == [];
    } else {
      MoveKeepsInv(s, moves[0]);
      MovesAppend(Apply(s, moves[0]), moves[1..], m);
      assert (moves + [m])[0] == moves[0] && (moves + [m])[1..] == moves[1..] + [m];
    }
  }

  lemma StaysHere<T(!new)>(s: System<T>)
    requires SystemInv(s)
    ensures Reaches(s, s)
  {
    hide SystemInv;
    assert CanAll(s, []) && RunAll(s, []) == s;
  }

  lemma {:induction false} Goes<T(!new)>(s: System<T>, t: System<T>, m: Move<T>) returns (u: System<T>)
    requires SystemInv(s) && Reaches(s, t) && SystemInv(t) && Can(t, m)
    ensures u == Apply(t, m) && SystemInv(u) && Reaches(s, u)
  {
    hide SystemInv, Can, Apply, CanAll, RunAll, WorkerInv;
    HasWorker(t, BotSide);
    var moves :| CanAll(s, moves) && RunAll(s, moves) == t;
    MovesAppend(s, moves, m);
    MoveKeepsInv(t, m);
    u := Apply(t, m);
    assert CanAll(s, moves + [m]) && RunAll(s, moves + [m]) == u;
  }

  /** A worker that waits for updates with nothing running, nothing failed and nothing to stop it. */
  predicate Resting<T>(w: Worker<T>) {
    w.phase.Waiting? && IsEmpty(Tasks(w)) && w.panics == 0 && w.signal == Running && !w.signalClosed
  }

  lemma RestingStartsNothing<T(!new)>(w: Worker<T>)
    requires WorkerInv(w) && Resting(w)
    ensures Inv(w.limits, Tasks(w)) && Settle(w.limits, w.tasks) == w.tasks && HasRoom(w.limits, Tasks(w))
    ensures !w.cursorError
  {
    hide Good, Inv;
    TasksInvHasInv(w);
    InvHasCapacity(w.limits, Tasks(w));
  }

  lemma InvHasCapacity<T(!new)>(c: Config, s: State<T>)
    requires Inv(c, s)
    ensures c.Valid()
  {
  }

  /** What its own moves leave of a worker on the way to a pause. */
  ghost predicate Pausing<T>(w: Worker<T>, was: Worker<T>, phase: Phase, r: nat) {
    w.(phase := was.phase, checkpoint := was.checkpoint, receiveError := was.receiveError) == was &&
    w.phase == phase && w.checkpoint == Some(r)
  }

  lemma {:induction false} TakesAndDrains<T(!new)>(w: Worker<T>, r: nat) returns (a: Worker<T>, b: Worker<T>, c: Worker<T>)
    requires WorkerInv(w) && Resting(w)
    ensures Allowed(w, TakeCommand(Some(r))) && a == Next(w, TakeCommand(Some(r))) && Pausing(a, w, Buffered, r)
    ensures WorkerInv(a) && Allowed(a, Enter) && b == Next(a, Enter) && Pausing(b, w, BufferedWaiting, r)
    ensures WorkerInv(b) && Allowed(b, BufferEmpty) && c == Next(b, BufferEmpty) && Pausing(c, w, Draining, r)
    ensures WorkerInv(c)
  {
    hide WorkerInv, Inv, Settle;
    RestingStartsNothing(w);
    a := Next(w, TakeCommand(Some(r)));
    StepKeepsWorkerInv(w, TakeCommand(Some(r)));
    b := Next(a, Enter);
    StepKeepsWorkerInv(a, Enter);
    c := Next(b, BufferEmpty);
    StepKeepsWorkerInv(b, BufferEmpty);
  }

  /** A worker's move that uses no channel changes the worker and nothing else. */
  lemma {:induction false} WorkerGoes<T(!new)>(s0: System<T>, s: System<T>, side: Side, e: Event<T>, w: Worker<T>)
      returns (t: System<T>)
    requires SystemInv(s0) && SystemInv(s) && Reaches(s0, s) && (e.Enter? || e.BufferEmpty?)
    requires WorkerInv(LinkOf(s, side).worker) && Allowed(LinkOf(s, side).worker, e) && w == Next(LinkOf(s, side).worker, e)
    ensures SystemInv(t) && Reaches(s0, t) && t == WithLink(s, side, LinkOf(s, side).(worker := w))
  {
    hide SystemInv, Reaches, WorkerInv, Next, Allowed;
    t := Goes(s0, s, WorkerMove(side, e));
  }

  lemma {:induction false} CommandTaken<T(!new)>(s0: System<T>, s: System<T>, side: Side, w: Worker<T>)
      returns (t: System<T>)
    requires SystemInv(s0) && SystemInv(s) && Reaches(s0, s) && LinkOf(s, side).slot.Some?
    requires var e := TakeCommand(LinkOf(s, side).slot);
      WorkerInv(LinkOf(s, side).worker) && Allowed(LinkOf(s, side).worker, e) && w == Next(LinkOf(s, side).worker, e)
    ensures SystemInv(t) && Reaches(s0, t) && t == WithLink(s, side, LinkOf(s, side).(worker := w, slot := None))
  {
    hide SystemInv, Reaches, WorkerInv, Next, Allowed;
    t := Goes(s0, s, WorkerMove(side, TakeCommand(LinkOf(s, side).slot)));
  }

  lemma {:induction false} ReadyGiven<T(!new)>(s0: System<T>, s: System<T>, side: Side, w: Worker<T>, r: nat)
      returns (t: System<T>)
    requires SystemInv(s0) && SystemInv(s) && Reaches(s0, s) && ReadyOpen(s, side, r)
    requires var v := LinkOf(s, side).worker;
      WorkerInv(v) && v.checkpoint == Some(r) && Allowed(v, DrainOver(true)) && w == Next(v, DrainOver(true)) &&
      w == v.(phase := Paused)
    ensures SystemInv(t) && Reaches(s0, t)
    ensures var link := LinkOf(s, side);
      t == WithLink(s, side, link.(worker := w, readySent := link.readySent + {r})).(log := s.log + [Ready(side, r)])
  {
    hide SystemInv, Reaches, WorkerInv, Next, Allowed, ReadyOpen;
    t := Goes(s0, s, WorkerMove(side, DrainOver(true)));
  }

  /** A resting worker that was sent a command answers it. */
  lemma {:induction false} AnswersReady<T(!new)>(s0: System<T>, s: System<T>, side: Side)
      returns (t: System<T>, w: Worker<T>)
    requires SystemInv(s0) && SystemInv(s) && Reaches(s0, s)
    requires Resting(LinkOf(s, side).worker) && LinkOf(s, side).slot == Some(s.round) && ReadyOpen(s, side, s.round)
    ensures SystemInv(t) && Reaches(s0, t)
    ensures Pausing(w, LinkOf(s, side).worker, Paused, s.round)
    ensures var link := LinkOf(s, side);
      t == WithLink(s, side, link.(worker := w, slot := None, readySent := link.readySent + {s.round}))
           .(log := s.log + [Ready(side, s.round)])
  {
    hide SystemInv, Reaches, WorkerInv, Next, Allowed;
    HasWorker(s, side);
    var was, r := LinkOf(s, side).worker, s.round;
    var a, b, c := TakesAndDrains(was, r);
    t := CommandTaken(s0, s, side, a);
    t := WorkerGoes(s0, t, side, Enter, b);
    t := WorkerGoes(s0, t, side, BufferEmpty, c);
    RestingStartsNothing(was);
    w := Pauses(c, r);
    t := ReadyGiven(s0, t, side, w, r);
  }

  lemma Pauses<T(!new)>(c: Worker<T>, r: nat) returns (w: Worker<T>)
    requires WorkerInv(c) && c.phase.Draining? && IsEmpty(Tasks(c)) && c.panics == 0 && !c.cursorError
    requires c.checkpoint == Some(r)
    ensures Allowed(c, DrainOver(true)) && w == Next(c, DrainOver(true)) && w == c.(phase := Paused)
  {
    w := Next(c, DrainOver(true));
  }

  /** Told to commit, a paused worker moves its cursor and rests again, as long as nobody stops it. */
  lemma {:induction false} CommitsAndRests<T(!new)>(w: Worker<T>) returns (a: Worker<T>, b: Worker<T>, v: Worker<T>)
    requires WorkerInv(w) && w.phase.Paused? && w.signal == Running && !w.signalClosed
    ensures Allowed(w, Decide(Commit)) && a == Next(w, Decide(Commit)) && a == w.(phase := Committing) && WorkerInv(a)
    ensures Allowed(a, Synced(true)) && b == Next(a, Synced(true)) && WorkerInv(b)
    ensures Allowed(b, Enter) && v == Next(b, Enter) && Resting(v)
  {
    hide TasksInv, IsEmpty, CanStart, HasRoom;
    WorkerRuns.PauseMoves(w);
    a := Next(w, Decide(Commit));
    StepKeepsWorkerInv(w, Decide(Commit));
    WorkerRuns.PauseEnds(a, Synced(true));
    b := Next(a, Synced(true));
    StepKeepsWorkerInv(a, Synced(true));
    v := WakesUp(b);
  }

  /** Told to resume, it rests again without. */
  lemma {:induction false} ResumesAndRests<T(!new)>(w: Worker<T>) returns (b: Worker<T>, v: Worker<T>)
    requires WorkerInv(w) && w.phase.Paused? && w.signal == Running && !w.signalClosed
    ensures Allowed(w, Decide(ResumeWithoutCommit)) && b == Next(w, Decide(ResumeWithoutCommit)) && WorkerInv(b)
    ensures Allowed(b, Enter) && v == Next(b, Enter) && Resting(v)
  {
    hide TasksInv, IsEmpty, CanStart, HasRoom;
    WorkerRuns.PauseEnds(w, Decide(ResumeWithoutCommit));
    b := Next(w, Decide(ResumeWithoutCommit));
    StepKeepsWorkerInv(w, Decide(ResumeWithoutCommit));
    v := WakesUp(b);
  }

  lemma {:induction false} WakesUp<T(!new)>(w: Worker<T>) returns (v: Worker<T>)
    requires WorkerInv(w) && w.phase.Receiving? && IsEmpty(Tasks(w)) && w.panics == 0
    requires w.signal == Running && !w.signalClosed
    ensures Allowed(w, Enter) && v == Next(w, Enter) && Resting(v)
  {
    hide Good;
    TasksInvHasInv(w);
    InvHasCapacity(w.limits, Tasks(w));
    NothingReady(w.limits, Tasks(w));
    v := Next(w, Enter);
  }

  lemma NothingReady<T(!new)>(c: Config, s: State<T>)
    requires Inv(c, s) && IsEmpty(s)
    ensures !CanStart(c, s)
  {
    forall key ensures key !in s.ready {
      PendingCoversLane(c, s, key);
      assert key in s.ready <==> Runnable(c, s, key);
    }
    FirstIsIn(s.ready);
  }

  lemma FirstIsIn(q: seq<int>)
    ensures |q| > 0 ==> q[0] in q
  {
  }

  /** A paused worker of a running system whose decision was sent. */
  predicate Told<T>(s: System<T>, side: Side, decision: Decision) {
    var link := LinkOf(s, side);
    && link.worker.phase.Paused? && link.worker.signal == Running && !link.worker.signalClosed
    && link.worker.checkpoint == Some(s.round) && s.round in link.decision && link.decision[s.round] == decision
  }

  /** A paused worker that was told to commit moves its cursor and rests again. */
  lemma {:induction false} MovesCursor<T(!new)>(s0: System<T>, s: System<T>, side: Side) returns (t: System<T>, v: Worker<T>)
    requires SystemInv(s0) && SystemInv(s) && Reaches(s0, s) && Told(s, side, Commit)
    ensures SystemInv(t) && Reaches(s0, t) && Resting(v)
    ensures var link := LinkOf(s, side);
      t == WithLink(s, side, link.(worker := v, completed := link.completed[s.round := true]))
           .(log := s.log + [Cursor(side, s.round, true)])
  {
    hide SystemInv, Reaches, WorkerInv, Next, Allowed, Resting;
    HasWorker(s, side);
    var a, b;
    a, b, v := CommitsAndRests(LinkOf(s, side).worker);
    t := Goes(s0, s, WorkerMove(side, Decide(Commit)));
    assert t == WithLink(s, side, LinkOf(s, side).(worker := a));
    t := Goes(s0, t, WorkerMove(side, Synced(true)));
    assert LinkOf(t, side).worker == b;
    t := WorkerGoes(s0, t, side, Enter, v);
  }

  /** A paused worker that was told to resume rests again. */
  lemma {:induction false} Resumes<T(!new)>(s0: System<T>, s: System<T>, side: Side) returns (t: System<T>, v: Worker<T>)
    requires SystemInv(s0) && SystemInv(s) && Reaches(s0, s) && Told(s, side, ResumeWithoutCommit)
    ensures SystemInv(t) && Reaches(s0, t) && Resting(v)
    ensures t == WithLink(s, side, LinkOf(s, side).(worker := v))
  {
    hide SystemInv, Reaches, WorkerInv, Next, Allowed, Resting;
    HasWorker(s, side);
    var b;
    b, v := ResumesAndRests(LinkOf(s, side).worker);
    t := Goes(s0, s, WorkerMove(side, Decide(ResumeWithoutCommit)));
    t := WorkerGoes(s0, t, side, Enter, v);
  }

  /** Both sides of a system about to start a round. */
  predicate CanBegin<T>(s: System<T>) {
    s.coordinator.Idle? && s.alive && !s.poisoned && Resting(s.bot.worker) && Resting(s.cleaner.worker) &&
    s.bot.slot == None && s.cleaner.slot == None
  }

  /** Whether the channel of a worker takes a command. */
  predicate CanAsk<T>(link: Link<T>) {
    link.slot == None && !link.worker.phase.Stopped?
  }

  /** The coordinator asks both workers. */
  lemma {:induction false} AsksBoth<T(!new)>(s0: System<T>, s: System<T>) returns (t: System<T>)
    requires SystemInv(s0) && SystemInv(s) && Reaches(s0, s)
    requires s.coordinator.Idle? && CanAsk(s.bot) && CanAsk(s.cleaner)
    ensures SystemInv(t) && Reaches(s0, t)
    ensures t == s.(round := s.round + 1, coordinator := AwaitingReady,
                    bot := s.bot.(slot := Some(s.round + 1)), cleaner := s.cleaner.(slot := Some(s.round + 1)))
  {
    hide SystemInv, Reaches;
    t := Goes(s0, s, Begin);
    t := Goes(s0, t, JoinedCurrent(0));
    t := Goes(s0, t, EpochTaken);
    t := Goes(s0, t, Request);
    t := Goes(s0, t, Request);
  }

  /** With both answers in, every check passes and both are told to commit. */
  lemma {:induction false} Allows<T(!new)>(s0: System<T>, s: System<T>) returns (t: System<T>)
    requires SystemInv(s0) && SystemInv(s) && Reaches(s0, s) && s.coordinator.AwaitingReady? && s.alive && !s.poisoned
    requires forall side :: s.round in LinkOf(s, side).readySent && Holds(LinkOf(s, side), s.round)
    ensures SystemInv(t) && Reaches(s0, t)
    ensures var r := s.round;
      t == s.(coordinator := AwaitingCommits,
              bot := s.bot.(decision := s.bot.decision[r := Commit]),
              cleaner := s.cleaner.(decision := s.cleaner.decision[r := Commit]),
              log := s.log + [OwnedJoined(r, 0), Flushed(r, true, true, true, true), BarrierClean(r), OwnershipHeld(r)])
  {
    hide SystemInv, Reaches;
    assert s.round in LinkOf(s, BotSide).readySent && Holds(LinkOf(s, BotSide), s.round);
    assert s.round in LinkOf(s, CleanerSide).readySent && Holds(LinkOf(s, CleanerSide), s.round);
    t := Goes(s0, s, ReadyArrived(false));
    t := Goes(s0, t, JoinedOwned(0));
    t := Goes(s0, t, FlushEnded(true, true, true, true));
    t := Goes(s0, t, CheckBarrier);
    t := Goes(s0, t, CheckOwnership);
    t := Goes(s0, t, Authorize);
    t := Goes(s0, t, Authorize);
  }

  /** Both workers are asked and answer. */
  lemma {:induction false} BothAnswer<T(!new)>(s0: System<T>, s: System<T>) returns (t: System<T>)
    requires SystemInv(s0) && SystemInv(s) && Reaches(s0, s) && CanBegin(s)
    ensures SystemInv(t) && Reaches(s0, t)
    ensures t.coordinator.AwaitingReady? && t.round == s.round + 1 && t.alive && !t.poisoned
    ensures t.log == s.log + [Ready(BotSide, t.round), Ready(CleanerSide, t.round)]
    ensures forall side ::
      var link := LinkOf(t, side);
      && t.round in link.readySent && Holds(link, t.round) && link.slot == None
      && Pausing(link.worker, LinkOf(s, side).worker, Paused, t.round)
  {
    hide SystemInv, Reaches, IsEmpty;
    t := AsksBoth(s0, s);
    var w, v: Worker<T>;
    t, w := AnswersReady(s0, t, BotSide);
    t, v := AnswersReady(s0, t, CleanerSide);
  }

  /** What a committed round leaves on record. */
  function CommittedRecord(r: nat): seq<Fact> {
    [Ready(BotSide, r), Ready(CleanerSide, r), OwnedJoined(r, 0), Flushed(r, true, true, true, true), BarrierClean(r),
     OwnershipHeld(r), Cursor(BotSide, r, true), Cursor(CleanerSide, r, true), Committed(r)]
  }

  /** From every such state some run goes on to commit the next round, and comes back to such a state. */
  lemma {:induction false} NextRoundCanCommit<T(!new)>(s0: System<T>, s: System<T>) returns (t: System<T>)
    requires SystemInv(s0) && SystemInv(s) && Reaches(s0, s) && CanBegin(s)
    ensures SystemInv(t) && Reaches(s0, t) && CanBegin(t)
    ensures t.round == s.round + 1 && t.log == s.log + CommittedRecord(t.round)
  {
    hide SystemInv, Reaches, IsEmpty;
    t := BothAnswer(s0, s);
    assert Pausing(LinkOf(t, BotSide).worker, s.bot.worker, Paused, t.round);
    assert Pausing(LinkOf(t, CleanerSide).worker, s.cleaner.worker, Paused, t.round);
    var w, v: Worker<T>;
    t := Allows(s0, t);
    t, w := MovesCursor(s0, t, BotSide);
    t, v := MovesCursor(s0, t, CleanerSide);
    t := Goes(s0, t, CommitsArrived);
  }

  /** From the start both workers can come to rest. */
  lemma {:induction false} BothWake<T(!new)>(bot: Config, cleaner: Config) returns (t: System<T>)
    requires bot.Valid() && cleaner.Valid()
    ensures SystemInv(Initial<T>(bot, cleaner)) && SystemInv(t) && Reaches(Initial<T>(bot, cleaner), t)
    ensures CanBegin(t) && t.round == 0 && t.log == []
  {
    hide SystemInv, Reaches, WorkerInv, Next, Allowed, Resting;
    InitialInv<T>(bot, cleaner);
    var s := Initial<T>(bot, cleaner);
    StaysHere(s);
    HasWorker(s, BotSide);
    NewIsEmpty<T>(BotKind, bot);
    NewIsEmpty<T>(CleanerKind, cleaner);
    var w := WakesUp(s.bot.worker);
    var v := WakesUp(s.cleaner.worker);
    t := WorkerGoes(s, s, BotSide, Enter, w);
    t := WorkerGoes(s, t, CleanerSide, Enter, v);
  }

  lemma NewIsEmpty<T(!new)>(kind: Kind, limits: Config)
    ensures IsEmpty(Tasks(NewWorker<T>(kind, limits)))
  {
  }

  // ---------------------------------------------------------------- requests that fail

  /**
   The coordinator's request fails exactly when the worker has stopped or has not yet taken the command of an earlier
   round: the one place of its channel is then full.
   */
  lemma RequestFailsIff<T(!new)>(s: System<T>)
    requires SystemInv(s) && s.coordinator.Requesting?
    ensures var (side, t) := (s.coordinator.side, RequestStep(s, s.coordinator.side)); var link := LinkOf(s, side);
      && (t.coordinator.Failed? <==> link.worker.phase.Stopped? || link.slot.Some?)
      && (t.coordinator.Failed? ==> t.coordinator == Failed(WorkerCommand(side)))
      && (link.slot.Some? ==> link.slot.value < s.round)
  {
    hide WorkerInv, Authorized, Safe, StageInv, MayCommit;
    var link := LinkOf(s, s.coordinator.side);
    if link.slot.Some? {
      assert Pends(link, link.slot.value);
    }
  }

  /** Both workers are asked and neither has taken its command when the round times out. */
  lemma {:induction false} TimesOut<T(!new)>(s0: System<T>, s: System<T>) returns (t: System<T>)
    requires SystemInv(s0) && SystemInv(s) && Reaches(s0, s)
    requires s.coordinator.Idle? && CanAsk(s.bot) && CanAsk(s.cleaner)
    ensures SystemInv(t) && Reaches(s0, t)
    ensures t == s.(round := s.round + 1, log := s.log + [Deferred(s.round + 1)],
                    bot := s.bot.(slot := Some(s.round + 1)), cleaner := s.cleaner.(slot := Some(s.round + 1)))
  {
    hide SystemInv, Reaches, CanAsk;
    t := AsksBoth(s0, s);
    t := Goes(s0, t, Timeout);
  }

  /**
   A worker that is only slow can fail a request: after a round that timed out before it looked at its command, the next
   request finds the place taken, and the coordinator gives up although no worker has stopped.
   */
  lemma {:induction false} SlowWorkerFailsTheNextRequest<T(!new)>(bot: Config, cleaner: Config)
    requires bot.Valid() && cleaner.Valid()
    ensures SystemInv(Initial<T>(bot, cleaner))
    ensures exists t :: Reaches(Initial<T>(bot, cleaner), t) && t.coordinator == Failed(WorkerCommand(BotSide)) &&
              !t.bot.worker.phase.Stopped? && !t.cleaner.worker.phase.Stopped? && t.alive && !t.poisoned
  {
    hide SystemInv, Reaches;
    InitialInv<T>(bot, cleaner);
    var s := Initial<T>(bot, cleaner);
    StaysHere(s);
    var t := TimesOut(s, s);
    t := Goes(s, t, Begin);
    t := Goes(s, t, JoinedCurrent(0));
    t := Goes(s, t, EpochTaken);
    t := Goes(s, t, Request);
  }
}
