/**
 The update worker over whole runs: what it hears it keeps on record, a failed handler or a broken session is never
 forgotten, and as long as nothing goes wrong and nobody stops it, it goes on. Beside that, where each of its waits ends.
 */
module WorkerRuns {
  import opened Dispatch
  import opened Options
  import opened UpdateWorker

  /** A move of the worker, or of the stop signal it listens to. */
  datatype Input<T> = Does(event: Event<T>) | Hears(value: Shutdown) | Closes

  predicate Can<T>(w: Worker<T>, i: Input<T>) {
    i.Does? ==> Allowed(w, i.event)
  }

  ghost function Moved<T>(w: Worker<T>, i: Input<T>): (u: Worker<T>)
    requires WorkerInv(w) && Can(w, i)
    ensures WorkerInv(u)
  {
    match i
    case Does(e) =>
      StepKeepsWorkerInv(w, e);
      Next(w, e)
    case Hears(value) => w.(signal := value)
    case Closes => w.(signalClosed := true)
  }

  ghost predicate RunsTo<T>(w: Worker<T>, inputs: seq<Input<T>>, end: Worker<T>)
    requires WorkerInv(w)
    decreases |inputs|
  {
    if inputs == [] then w == end
    else Can(w, inputs[0]) && RunsTo(Moved(w, inputs[0]), inputs[1..], end)
  }

  // ---------------------------------------------------------------- what a run hears

  /** The updates delivered in a run, in order. */
  function Heard<T>(inputs: seq<Input<T>>): seq<Update<T>> {
    if inputs == [] then []
    else
      (if inputs[0].Does? && inputs[0].event.Deliver? then [inputs[0].event.update] else []) + Heard(inputs[1..])
  }

  /** What a move of the worker adds to its record: the update it delivers, and a handler that failed. */
  ghost predicate Recorded<T>(w: Worker<T>, e: Event<T>, u: Worker<T>) {
    && u.received == w.received + (if e.Deliver? then [e.update] else [])
    && u.panicsEver == w.panicsEver + if e.Join? && !e.ok then 1 else 0
  }

  lemma IntakeRecords<T>(w: Worker<T>, e: Event<T>)
    requires WorkerInv(w) && Allowed(w, e) && (e.Enter? || e.Deliver? || e.BufferEmpty? || e.BufferBroken?)
    ensures Recorded(w, e, Next(w, e))
  {
    hide WorkerInv, Settle, Step, Inv, CanStart, HasRoom, Load, IsEmpty;
  }

  lemma JoinRecords<T>(w: Worker<T>, e: Event<T>)
    requires WorkerInv(w) && Allowed(w, e) && e.Join?
    ensures Recorded(w, e, Next(w, e))
  {
    hide WorkerInv, Settle, Step, Inv, CanStart, HasRoom, Load, IsEmpty;
  }

  predicate Quiet<T>(e: Event<T>) {
    !(e.Enter? || e.Join? || e.Deliver? || e.BufferEmpty? || e.BufferBroken?)
  }

  lemma QuietRecords<T>(w: Worker<T>, e: Event<T>)
    requires WorkerInv(w) && Allowed(w, e) && Quiet(e)
    ensures Recorded(w, e, Next(w, e))
  {
    hide WorkerInv, Settle, Step, Inv, CanStart, HasRoom, Load, IsEmpty, Start, End, Admit, StartDrain;
  }

  lemma EventRecords<T>(w: Worker<T>, e: Event<T>)
    requires WorkerInv(w) && Allowed(w, e)
    ensures Recorded(w, e, Next(w, e))
  {
    hide WorkerInv, Allowed, Next, Recorded;
    if Quiet(e) {
      QuietRecords(w, e);
    } else if e.Join? {
      JoinRecords(w, e);
    } else {
      IntakeRecords(w, e);
    }
  }

  lemma MoveRecords<T>(w: Worker<T>, i: Input<T>)
    requires WorkerInv(w) && Can(w, i)
    ensures Moved(w, i).received == w.received + if i.Does? && i.event.Deliver? then [i.event.update] else []
    ensures Moved(w, i).panicsEver == w.panicsEver + if i.Does? && i.event.Join? && !i.event.ok then 1 else 0
  {
    hide WorkerInv, Next;
    match i
    case Does(e) => EventRecords(w, e);
    case _ =>
  }

  /** Every delivered update is on record, in order, and every wanted one was handed to the dispatcher, in order. */
  lemma {:induction false} RunHears<T>(w: Worker<T>, inputs: seq<Input<T>>, end: Worker<T>)
    requires WorkerInv(w) && RunsTo(w, inputs, end)
    ensures WorkerInv(end) && end.received == w.received + Heard(inputs) && end.tasks.pushed == Wanted(end.received)
    decreases |inputs|
  {
    hide WorkerInv, Moved, Wanted, Heard, Can;
    if inputs == [] {
      HearsNothing<T>();
      PushedIsWanted(w);
    } else {
      MoveRecords(w, inputs[0]);
      RunHears(Moved(w, inputs[0]), inputs[1..], end);
      HearsFirst(inputs);
    }
  }

  lemma HearsNothing<T>()
    ensures Heard<T>([]) == []
  {
  }

  lemma HearsFirst<T>(inputs: seq<Input<T>>)
    requires inputs != []
    ensures Heard(inputs) ==
            (if inputs[0].Does? && inputs[0].event.Deliver? then [inputs[0].event.update] else []) + Heard(inputs[1..])
  {
  }

  lemma PushedIsWanted<T>(w: Worker<T>)
    requires WorkerInv(w)
    ensures w.tasks.pushed == Wanted(w.received)
  {
  }

  /**
   A worker started afresh that rests has handled, to a good end, every wanted update delivered to it in the whole run,
   but for those its dispatcher shed; per peer in the order of delivery.
   */
  lemma {:induction false} RestHandledTheRun<T>(kind: Kind, limits: Config, inputs: seq<Input<T>>, end: Worker<T>)
    requires limits.Valid()
    ensures WorkerInv(NewWorker<T>(kind, limits))
    ensures RunsTo(NewWorker<T>(kind, limits), inputs, end) && AtRest(end.phase) ==>
      && (forall key :: PushedFor(key, Wanted(Heard(inputs))) == RemovedFor(key, end.tasks.removed))
      && (forall i :: 0 <= i < |end.tasks.removed| ==>
            match end.tasks.removed[i]
            case Started(_, _, id) => id in end.tasks.finished && end.tasks.finished[id]
            case Shed(_, _) => true
            case Dropped(_, _) => false)
  {
    hide WorkerInv, RunsTo, Wanted, Heard;
    NewWorkerInv<T>(kind, limits);
    var w := NewWorker<T>(kind, limits);
    if RunsTo(w, inputs, end) && AtRest(end.phase) {
      RunHears(w, inputs, end);
      RestMeansHandled(end);
      assert end.received == Heard(inputs);
    }
  }

  // ---------------------------------------------------------------- what is never forgotten

  lemma {:induction false} PanicsStay<T>(w: Worker<T>, inputs: seq<Input<T>>, end: Worker<T>)
    requires WorkerInv(w) && RunsTo(w, inputs, end)
    ensures WorkerInv(end) && w.panicsEver <= end.panicsEver
    ensures (exists id :: Does(Join(id, false)) in inputs) ==> end.panicsEver > 0
    decreases |inputs|
  {
    hide WorkerInv, Moved, Can;
    if inputs != [] {
      MoveRecords(w, inputs[0]);
      PanicsStay(Moved(w, inputs[0]), inputs[1..], end);
      assert inputs == [inputs[0]] + inputs[1..];
    }
  }

  /** Once a handler has failed, the worker never again answers a checkpoint, moves its cursor or ends well. */
  lemma {:induction false} FailureIsForever<T>(w: Worker<T>, inputs: seq<Input<T>>, end: Worker<T>, id: nat)
    requires WorkerInv(w) && RunsTo(w, inputs, end) && Does(Join(id, false)) in inputs
    ensures !end.phase.Paused? && !end.phase.Committing? && !(end.phase.Stopped? && end.phase.outcome.Finished?)
  {
    hide RunsTo, TasksInv, Inv, HasRoom, CanStart;
    PanicsStay(w, inputs, end);
  }

  /** A worker whose session is broken drains, or has stopped with an error. */
  predicate Broken<T>(w: Worker<T>) {
    w.cursorError && (w.phase.Draining? || (w.phase.Stopped? && !w.phase.outcome.Finished?))
  }

  predicate Breaks<T>(i: Input<T>) {
    i.Does? && (i.event.BufferBroken? || i.event == Fail(SessionBroken))
  }

  lemma BrokenMove<T>(w: Worker<T>, i: Input<T>)
    requires WorkerInv(w) && Can(w, i)
    ensures Broken(w) || Breaks(i) ==> Broken(Moved(w, i))
  {
    hide WorkerInv, Settle, Step, Inv, CanStart, HasRoom, Load, IsEmpty;
  }

  /** Once its session is broken, the worker only drains, and then stops with an error. */
  lemma {:induction false} BrokenIsForever<T>(w: Worker<T>, inputs: seq<Input<T>>, end: Worker<T>)
    requires WorkerInv(w) && RunsTo(w, inputs, end)
    requires Broken(w) || Does(BufferBroken) in inputs || Does(Fail(SessionBroken)) in inputs
    ensures end.cursorError && (end.phase.Draining? || (end.phase.Stopped? && !end.phase.outcome.Finished?))
    decreases |inputs|
  {
    hide WorkerInv, Moved, Can;
    if inputs != [] {
      BrokenMove(w, inputs[0]);
      assert inputs == [inputs[0]] + inputs[1..];
      BrokenIsForever(Moved(w, inputs[0]), inputs[1..], end);
    }
  }

  // ---------------------------------------------------------------- what keeps it going

  /** Nothing of this ends a worker: no handler fails, no session breaks, no receive fails for good, no channel closes. */
  predicate Harmless<T>(w: Worker<T>, i: Input<T>) {
    match i
    case Hears(value) => value == Running
    case Closes => false
    case Does(e) =>
      match e
      case Join(_, ok) => ok
      case Fail(error) => (error.Transient? && w.receiveFailures < 10) || (error.SignedOut? && w.kind.CleanerKind?)
      case BufferBroken => false
      case TakeCommand(round) => round.Some?
      case _ => true
  }

  ghost predicate HarmlessRun<T>(w: Worker<T>, inputs: seq<Input<T>>)
    requires WorkerInv(w)
    decreases |inputs|
  {
    inputs == [] ||
    (Can(w, inputs[0]) && Harmless(w, inputs[0]) && HarmlessRun(Moved(w, inputs[0]), inputs[1..]))
  }

  /** A worker nothing has happened to: it runs, and once it stopped receiving it does so for a command. */
  predicate Healthy<T>(w: Worker<T>) {
    && w.signal == Running && !w.signalClosed && !w.phase.Stopped? && w.panicsEver == 0 && !w.cursorError && !w.receiveError
    && (IntakeOver(w.phase) ==> w.checkpoint.Some?)
  }

  predicate IntakeOver(p: Phase) {
    p.Buffered? || p.BufferedFull? || p.BufferedWaiting? || p.Draining? || p.Paused? || p.Committing?
  }

  lemma HealthyQuiet<T>(w: Worker<T>, e: Event<T>)
    requires WorkerInv(w) && Healthy(w) && Allowed(w, e) && Harmless(w, Does(e)) && Quiet(e)
    ensures Healthy(Next(w, e))
  {
    hide TasksInv, CanStart, HasRoom, IsEmpty, Start, End, Admit, StartDrain, Load;
  }

  lemma HealthyTasks<T>(w: Worker<T>, e: Event<T>)
    requires WorkerInv(w) && Healthy(w) && Allowed(w, e) && Harmless(w, Does(e)) && !Quiet(e)
    ensures Healthy(Next(w, e))
  {
    hide WorkerInv, Settle, Step, Inv, CanStart, HasRoom, Load, IsEmpty;
  }

  lemma HealthyMove<T>(w: Worker<T>, i: Input<T>)
    requires WorkerInv(w) && Healthy(w) && Can(w, i) && Harmless(w, i)
    ensures Healthy(Moved(w, i))
  {
    hide WorkerInv, Next, Allowed;
    if i.Does? {
      if Quiet(i.event) {
        HealthyQuiet(w, i.event);
      } else {
        HealthyTasks(w, i.event);
      }
    }
  }

  /** Checkpoints committed, deferred or abandoned, updates, and retries: none of them ever ends a healthy worker. */
  lemma {:induction false} HealthyRunsOn<T>(w: Worker<T>, inputs: seq<Input<T>>, end: Worker<T>)
    requires WorkerInv(w) && Healthy(w) && HarmlessRun(w, inputs) && RunsTo(w, inputs, end)
    ensures !end.phase.Stopped? && Healthy(end)
    decreases |inputs|
  {
    hide WorkerInv, Moved, Can, Healthy, Harmless;
    if inputs == [] {
      HealthyIsAlive(w);
    } else {
      HealthyMove(w, inputs[0]);
      HealthyRunsOn(Moved(w, inputs[0]), inputs[1..], end);
    }
  }

  lemma HealthyIsAlive<T>(w: Worker<T>)
    requires Healthy(w)
    ensures !w.phase.Stopped?
  {
  }

  // ---------------------------------------------------------------- where the waits end

  /** What a new round of the outer loop starts with. */
  ghost predicate Renewed<T>(w: Worker<T>, u: Worker<T>) {
    && u.phase.Receiving? && u.panics == 0 && u.checkpoint == None && !u.receiveError && !u.cursorError
    && SameBut(w, u)
  }

  /** Nothing else changed: not the tasks, the failures counted so far, the signal or the record. */
  ghost predicate SameBut<T>(w: Worker<T>, u: Worker<T>) {
    u.kind == w.kind && u.limits == w.limits && u.tasks == w.tasks && u.receiveFailures == w.receiveFailures &&
    u.signal == w.signal && u.signalClosed == w.signalClosed && u.received == w.received && u.panicsEver == w.panicsEver
  }

  /** After its cursor was synchronized, well or not, or when told to resume, a paused worker does what the signal says. */
  lemma PauseEnds<T>(w: Worker<T>, e: Event<T>)
    requires WorkerInv(w) && Allowed(w, e) && (e.Synced? || e == Decide(ResumeWithoutCommit))
    ensures var u := Next(w, e);
      && SameBut(w, u)
      && (w.signal == Running <==> Renewed(w, u))
      && (w.signal == Drain <==> u.phase == Stopped(Finished(w.receiveError)))
      && (w.signal == Abort <==> u.phase == Stopped(DrainAborted(0)))
  {
    hide TasksInv, HasRoom, CanStart, IsEmpty;
  }

  /** Told to commit, it goes on to its cursor; a signal that comes first ends the pause without. */
  lemma PauseMoves<T>(w: Worker<T>)
    requires WorkerInv(w) && w.phase.Paused?
    ensures Next(w, Decide(Commit)) == w.(phase := Committing)
    ensures Allowed(w, NoticeSignal) <==> w.signal != Running || w.signalClosed
    ensures Allowed(w, NoticeSignal) ==>
              SameBut(w, Next(w, NoticeSignal)) &&
              Next(w, NoticeSignal).phase ==
              Stopped(if w.signal == Drain then Finished(w.receiveError) else DrainAborted(0))
  {
    hide TasksInv, HasRoom, CanStart, IsEmpty;
  }

  /** Where a drain ends: with a failed handler or a broken session in an error, and otherwise as the checkpoint says. */
  lemma DrainEnds<T>(w: Worker<T>, readyOpen: bool)
    requires WorkerInv(w) && Allowed(w, DrainOver(readyOpen))
    ensures var u := Next(w, DrainOver(readyOpen)); var well := w.panicsEver == 0 && !w.cursorError;
      && SameBut(w, u)
      && (u.phase == Stopped(HandlerPanicked(w.panicsEver)) <==> w.panicsEver > 0)
      && (u.phase == Stopped(ReceiveFailed) <==> w.panicsEver == 0 && w.cursorError)
      && (u.phase == Stopped(Finished(w.receiveError)) <==> well && w.checkpoint == None)
      && (u == w.(phase := Paused) <==> well && w.checkpoint.Some? && readyOpen)
      && (Renewed(w, u) <==> well && w.checkpoint.Some? && !readyOpen)
  {
    hide TasksInv, HasRoom, CanStart, IsEmpty;
  }

  /** A round given up while handlers still run: the next round begins, unless one of them has failed. */
  lemma AbandonedEnds<T>(w: Worker<T>)
    requires WorkerInv(w) && Allowed(w, Event.Abandoned)
    ensures var u := Next(w, Event.Abandoned);
      && SameBut(w, u)
      && (Renewed(w, u) <==> w.panicsEver == 0)
      && (u.phase == Stopped(HandlerPanicked(w.panicsEver)) <==> w.panicsEver > 0)
  {
    hide TasksInv, HasRoom, CanStart, IsEmpty;
  }

  /** A stop signal: while receiving it ends the intake, afterwards only an abort or a closed channel ends the worker. */
  lemma NoticeEnds<T>(w: Worker<T>)
    requires WorkerInv(w) && Allowed(w, NoticeSignal) && !w.phase.Paused?
    ensures var u := Next(w, NoticeSignal); var hard := w.signalClosed || w.signal == Abort;
      && SameBut(w, u) && u.panics == w.panics && u.checkpoint == w.checkpoint && u.cursorError == w.cursorError
      && (w.phase.Full? || w.phase.Waiting? || w.phase.Retrying? ==> u.phase.Buffered? && !u.receiveError)
      && (w.phase.BufferedFull? || w.phase.BufferedWaiting? || w.phase.Draining? ==> u.receiveError == w.receiveError)
      && (w.phase.BufferedFull? || w.phase.BufferedWaiting? ==> (u.phase.Buffered? <==> !hard))
      && (w.phase.Draining? ==> (u == w <==> !hard))
      && (!(w.phase.Full? || w.phase.Waiting? || w.phase.Retrying?) ==>
            (hard <==> u.phase == Stopped(DrainAborted(w.tasks.now.pending + |w.tasks.now.active|))))
  {
    hide TasksInv, HasRoom, CanStart;
  }

  /** A failed receive is retried, or breaks the session, or ends the intake; the worker remembers which. */
  lemma FailureEnds<T>(w: Worker<T>, error: ReceiveError)
    requires WorkerInv(w) && Allowed(w, Fail(error))
    ensures var u := Next(w, Fail(error));
      var counted := error.Transient? && w.receiveFailures < 10; var waits := error.SignedOut? && w.kind.CleanerKind?;
      && u.tasks == w.tasks && u.panics == w.panics && u.checkpoint == w.checkpoint && u.received == w.received
      && u.receiveFailures == w.receiveFailures + (if counted then 1 else 0)
      && (u.phase.Retrying? <==> counted || waits)
      && (u.phase.Draining? <==> error.SessionBroken?) && (u.cursorError <==> error.SessionBroken?)
      && (u.phase.Buffered? <==> !counted && !waits && !error.SessionBroken?)
      && (u.phase.Buffered? ==> u.receiveError)
  {
    hide TasksInv, HasRoom, CanStart, IsEmpty;
  }

  /** Ten transient failures in a row are retried and the next one is not; an update in between starts the count anew. */
  lemma TenRetries<T>(w: Worker<T>, update: Update<T>)
    requires WorkerInv(w) && w.phase.Waiting?
    ensures Next(w, Fail(Transient)).phase.Retrying? <==> w.receiveFailures < 10
    ensures w.receiveFailures < 10 ==> Next(w, Fail(Transient)).receiveFailures == w.receiveFailures + 1
    ensures Allowed(w, Deliver(update)) ==> Next(w, Deliver(update)).receiveFailures == 0
    ensures w.kind.CleanerKind? || update.wanted ==> Allowed(w, Deliver(update))
  {
    hide TasksInv, HasRoom, CanStart, IsEmpty, Step;
    FailureEnds(w, Transient);
  }

  /** A command ends the intake and is kept; a closed command channel ends it without one. */
  lemma CommandEndsIntake<T>(w: Worker<T>, round: Option<nat>)
    requires WorkerInv(w) && (w.phase.Full? || w.phase.Waiting? || w.phase.Retrying?)
    ensures Allowed(w, TakeCommand(round))
    ensures Next(w, TakeCommand(round)) == w.(phase := Buffered, checkpoint := round, receiveError := false)
  {
    hide TasksInv, HasRoom, CanStart, IsEmpty;
  }

  /** At the top of a loop what may start is started; then it waits for an update while there is room, or for a handler. */
  lemma EnterEnds<T>(w: Worker<T>)
    requires WorkerInv(w) && Allowed(w, Enter)
    ensures var u := Next(w, Enter); var room := u.tasks.now.pending < w.limits.capacity;
      && u.tasks.pushed == w.tasks.pushed && u.tasks.finished == w.tasks.finished && u.tasks.discarded == w.tasks.discarded
      && u.panics == w.panics && u.checkpoint == w.checkpoint && u.receiveError == w.receiveError
      && (w.phase.Receiving? ==> u.phase == if room then Waiting else Full)
      && (w.phase.Buffered? && w.signal != Abort ==> u.phase == if room then BufferedWaiting else BufferedFull)
      && (w.phase.Buffered? && w.signal == Abort ==>
            u.phase == Stopped(DrainAborted(u.tasks.now.pending + |u.tasks.now.active|)))
  {
    hide TasksInv, CanStart, IsEmpty, Settle;
    SoundIsGood(w);
    SettleKeepsGood(w.limits, w.tasks);
  }

  /** An update is pushed if it is wanted; while receiving it also ends a row of failures. */
  lemma DeliverEnds<T>(w: Worker<T>, update: Update<T>)
    requires WorkerInv(w) && Allowed(w, Deliver(update))
    ensures var u := Next(w, Deliver(update));
      && u.phase == (if w.phase.Waiting? then Receiving else Buffered)
      && u.tasks.pushed == w.tasks.pushed + (if update.wanted then [Item(update.key, update.value)] else [])
      && u.receiveFailures == (if w.phase.Waiting? then 0 else w.receiveFailures)
      && u.panics == w.panics && u.checkpoint == w.checkpoint && u.receiveError == w.receiveError
  {
    hide TasksInv, CanStart, IsEmpty, Settle, Inv;
    SoundIsGood(w);
    if update.wanted {
      StepRecords(w.limits, w.tasks, PushOp(update.key, update.value));
    }
    hide Step;
  }

  /** When no update is buffered any more the drain begins; a session that breaks there is remembered. */
  lemma BufferEnds<T>(w: Worker<T>)
    requires WorkerInv(w) && w.phase.BufferedWaiting?
    ensures Next(w, BufferEmpty) == w.(phase := Draining, tasks := Next(w, BufferEmpty).tasks)
    ensures Next(w, BufferBroken) == w.(phase := Draining, tasks := Next(w, BufferEmpty).tasks, cursorError := true)
    ensures var t := Next(w, BufferEmpty).tasks;
      t.pushed == w.tasks.pushed && t.finished == w.tasks.finished && t.discarded == w.tasks.discarded
  {
    hide TasksInv, CanStart, IsEmpty, HasRoom, Settle;
    SoundIsGood(w);
    SettleKeepsGood(w.limits, w.tasks);
  }

  /** What each wait listens for, and that nothing moves a stopped worker. */
  lemma WaitsListen<T>(w: Worker<T>, id: nat, ok: bool, round: Option<nat>, e: Event<T>)
    ensures Allowed(w, TakeCommand(round)) <==> w.phase.Full? || w.phase.Waiting? || w.phase.Retrying?
    ensures Allowed(w, NoticeSignal) <==>
              (w.signal != Running || w.signalClosed) &&
              (w.phase.Paused? || (Asleep(w.phase) && (w.phase.Draining? ==> !IsEmpty(w.tasks.now))))
    ensures Allowed(w, Join(id, ok)) <==>
              id in w.tasks.now.active &&
              (w.phase.Receiving? || w.phase.Buffered? || (Asleep(w.phase) && !w.phase.BufferedWaiting?))
    ensures Allowed(w, Event.Abandoned) <==>
              w.phase.Draining? && (w.tasks.now.pending > 0 || w.tasks.now.active != map[]) && w.checkpoint.Some? &&
              !w.cursorError && w.signal == Running
    ensures w.phase.Stopped? ==> !Allowed(w, e)
  {
  }

  /** The end of a handler wakes a full loop up, counts if it failed, and leaves the phase alone otherwise. */
  lemma JoinEnds<T>(w: Worker<T>, id: nat, ok: bool)
    requires WorkerInv(w) && Allowed(w, Join(id, ok))
    ensures var u := Next(w, Join(id, ok));
      && u.phase == (match w.phase case Full => Receiving case BufferedFull => Buffered case _ => w.phase)
      && u.panics == w.panics + (if ok then 0 else 1) && u.tasks.finished == w.tasks.finished[id := ok]
      && u.checkpoint == w.checkpoint && u.receiveError == w.receiveError && u.cursorError == w.cursorError
      && u.receiveFailures == w.receiveFailures
  {
    hide TasksInv, HasRoom, CanStart, IsEmpty;
    SoundIsGood(w);
    StepRecords(w.limits, w.tasks, FinishOp(id, ok));
    StepKeepsGood(w.limits, w.tasks, FinishOp(id, ok));
    SettleKeepsGood(w.limits, Step(w.limits, w.tasks, FinishOp(id, ok)));
    hide Step, Settle, Inv;
  }

  lemma SoundIsGood<T>(w: Worker<T>)
    requires WorkerInv(w)
    ensures Good(w.limits, w.tasks) && Inv(w.limits, w.tasks.now)
  {
  }
}
