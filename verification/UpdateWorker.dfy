/**
 The update worker loop of src/main.rs: `run_bot_updates` and the cleaner worker, which differ only in which updates
 they hand to a handler and in how they treat a signed-out account.

 One `Event` is one atomic move between two awaits. Timers, the update stream, the stop signal and the checkpoint
 channel are free to act at any time, so a run of events is one interleaving.
 */
module UpdateWorker {
  import opened Dispatch
  import opened Options

  const RECEIVE_RETRIES: nat := 10

  datatype Kind = BotKind | CleanerKind

  /** `wanted` is false for an update the cleaner drops because it is no candidate. */
  datatype Update<T> = Update(key: int, value: T, wanted: bool)

  datatype Shutdown = Running | Drain | Abort

  datatype ReceiveError = Transient | SignedOut | SessionBroken | Fatal

  datatype Decision = Commit | ResumeWithoutCommit

  datatype Outcome =
    | Finished(receiveError: bool)
    | HandlerPanicked(count: nat)
    | ReceiveFailed
    | DrainAborted(unfinished: nat)

  datatype Phase =
    | Receiving        // top of the receive loop
    | Full             // no room: waiting for a completion
    | Waiting          // room: waiting for an update
    | Retrying         // sleeping after a failed receive
    | Buffered         // top of the loop over updates already buffered
    | BufferedFull
    | BufferedWaiting
    | Draining         // no more intake, waiting for handlers
    | Paused           // ready was sent, waiting for the decision
    | Committing       // the cursor is being synchronized
    | Stopped(outcome: Outcome)

  /** `received` and `panicsEver` only remember the past; the loop itself never reads them. */
  datatype Worker<T> = Worker(
    kind: Kind,
    limits: Config,
    phase: Phase,
    tasks: Trace<T>,
    panics: nat,
    checkpoint: Option<nat>,
    receiveError: bool,
    cursorError: bool,
    receiveFailures: nat,
    signal: Shutdown,
    signalClosed: bool,
    received: seq<Update<T>>,
    panicsEver: nat)

  datatype Event<T> =
    | Enter                                  // start what may start, then look for room
    | Join(id: nat, ok: bool)                // one handler ended
    | Deliver(update: Update<T>)
    | Fail(error: ReceiveError)
    | RetryOver
    | BufferEmpty
    | BufferBroken
    | NoticeSignal
    | TakeCommand(round: Option<nat>)        // None: the command channel was closed
    | Abandoned                              // the coordinator gave up on this round
    | DrainOver(readyOpen: bool)             // readyOpen: `ready.send` reaches the coordinator
    | Decide(decision: Decision)
    | Synced(ok: bool)

  function NewWorker<T>(kind: Kind, limits: Config): Worker<T> {
    Worker(kind, limits, Receiving, NewTrace(), 0, None, false, false, 0, Running, false, [], 0)
  }

  function Tasks<T>(w: Worker<T>): State<T> {
    w.tasks.now
  }

  // ---------------------------------------------------------------- moves

  predicate Allowed<T>(w: Worker<T>, e: Event<T>) {
    match e
    case Enter => w.phase.Receiving? || w.phase.Buffered?
    case Join(id, _) =>
      id in Tasks(w).active &&
      (w.phase.Receiving? || w.phase.Full? || w.phase.Waiting? || w.phase.Retrying? ||
       w.phase.Buffered? || w.phase.BufferedFull? || w.phase.Draining?)
    case Deliver(update) =>
      (w.phase.Waiting? || w.phase.BufferedWaiting?) && (w.kind.BotKind? ==> update.wanted)
    case Fail(_) => w.phase.Waiting?
    case RetryOver => w.phase.Retrying?
    case BufferEmpty => w.phase.BufferedWaiting?
    case BufferBroken => w.phase.BufferedWaiting?
    case NoticeSignal =>
      (w.signal != Running || w.signalClosed) &&
      (w.phase.Full? || w.phase.Waiting? || w.phase.Retrying? || w.phase.BufferedFull? ||
       w.phase.BufferedWaiting? || (w.phase.Draining? && !IsEmpty(Tasks(w))) || w.phase.Paused?)
    case TakeCommand(_) => w.phase.Full? || w.phase.Waiting? || w.phase.Retrying?
    case Abandoned =>
      w.phase.Draining? && !IsEmpty(Tasks(w)) && w.checkpoint.Some? && !w.cursorError && w.signal == Running
    case DrainOver(_) => w.phase.Draining? && IsEmpty(Tasks(w))
    case Decide(_) => w.phase.Paused?
    case Synced(_) => w.phase.Committing?
  }

  /** A new turn of the outer loop: `handler_panics`, `checkpoint` and the two errors are declared inside it. */
  function NextRound<T>(w: Worker<T>): Worker<T> {
    w.(phase := Receiving, panics := 0, checkpoint := None, receiveError := false, cursorError := false)
  }

  function Stop<T>(w: Worker<T>, outcome: Outcome): Worker<T> {
    w.(phase := Stopped(outcome))
  }

  /** Where a pause ends once no cursor work is left: resume, finish, or abort, as the stop signal says. */
  function AfterPause<T>(w: Worker<T>): Worker<T> {
    match w.signal
    case Running => NextRound(w)
    case Drain => Stop(w, Finished(w.receiveError))
    case Abort => Stop(w, DrainAborted(0))
  }

  /** The end of the receive loop: a broken session is a cursor error and skips the buffered updates. */
  function LeaveReceive<T>(w: Worker<T>, error: Option<ReceiveError>): Worker<T> {
    if error == Some(SessionBroken) then w.(phase := Draining, cursorError := true)
    else w.(phase := Buffered, receiveError := error.Some?)
  }

  function AfterFailure<T>(w: Worker<T>, error: ReceiveError): Worker<T> {
    if error.SignedOut? && w.kind.CleanerKind? then w.(phase := Retrying)
    else if error.Transient? && w.receiveFailures < RECEIVE_RETRIES then
      w.(phase := Retrying, receiveFailures := w.receiveFailures + 1)
    else LeaveReceive(w, Some(error))
  }

  ghost function Admit<T>(w: Worker<T>, update: Update<T>): Worker<T>
    requires Inv(w.limits, Tasks(w)) && HasRoom(w.limits, Tasks(w))
  {
    var heard := w.(received := w.received + [update]);
    if update.wanted then heard.(tasks := Step(w.limits, w.tasks, PushOp(update.key, update.value))) else heard
  }

  ghost function Start<T>(w: Worker<T>): Worker<T>
    requires Inv(w.limits, Tasks(w))
  {
    w.(tasks := Settle(w.limits, w.tasks))
  }

  ghost function End<T>(w: Worker<T>, id: nat, ok: bool): Worker<T>
    requires Inv(w.limits, Tasks(w)) && id in Tasks(w).active
  {
    var failed := if ok then 0 else 1;
    w.(tasks := Step(w.limits, w.tasks, FinishOp(id, ok)),
       panics := w.panics + failed,
       panicsEver := w.panicsEver + failed)
  }

  ghost function Next<T>(w: Worker<T>, e: Event<T>): Worker<T>
    requires WorkerInv(w) && Allowed(w, e)
  {
    match e
    case Enter =>
      var started := Start(w);
      var room := HasRoom(w.limits, Tasks(started));
      if w.phase.Receiving? then started.(phase := if room then Waiting else Full)
      else if w.signal == Abort then Stop(started, DrainAborted(Load(Tasks(started))))
      else started.(phase := if room then BufferedWaiting else BufferedFull)
    case Join(id, ok) =>
      var ended := End(w, id, ok);
      if w.phase.Full? then ended.(phase := Receiving)
      else if w.phase.BufferedFull? then ended.(phase := Buffered)
      else if w.phase.Waiting? || w.phase.Retrying? || w.phase.Draining? then
        StepKeepsInv(w.limits, w.tasks, FinishOp(id, ok));
        Start(ended)
      else ended
    case Deliver(update) =>
      var admitted := Admit(w, update);
      if w.phase.BufferedWaiting? then admitted.(phase := Buffered)
      else admitted.(phase := Receiving, receiveFailures := 0)
    case Fail(error) => AfterFailure(w, error)
    case RetryOver => w.(phase := Receiving)
    case BufferEmpty => StartDrain(w)
    case BufferBroken => StartDrain(w.(cursorError := true))
    case NoticeSignal =>
      if w.phase.Full? || w.phase.Waiting? || w.phase.Retrying? then LeaveReceive(w, None)
      else if w.phase.Paused? then
        Stop(w, if w.signal == Drain then Finished(w.receiveError) else DrainAborted(0))
      else if w.signalClosed || w.signal == Abort then Stop(w, DrainAborted(Load(Tasks(w))))
      else if w.phase.Draining? then w
      else w.(phase := Buffered)
    case TakeCommand(round) => LeaveReceive(w.(checkpoint := round), None)
    case Abandoned => if w.panics != 0 then Stop(w, HandlerPanicked(w.panics)) else NextRound(w)
    case DrainOver(readyOpen) =>
      if w.panics != 0 then Stop(w, HandlerPanicked(w.panics))
      else if w.cursorError then Stop(w, ReceiveFailed)
      else if w.checkpoint == None then Stop(w, Finished(w.receiveError))
      else if readyOpen then w.(phase := Paused)
      else NextRound(w)
    case Decide(decision) => if decision == Commit then w.(phase := Committing) else AfterPause(w)
    case Synced(_) => AfterPause(w)
  }

  /** The drain loop starts what it can before it waits. */
  ghost function StartDrain<T>(w: Worker<T>): Worker<T>
    requires Inv(w.limits, Tasks(w))
  {
    Start(w).(phase := Draining)
  }

  // ---------------------------------------------------------------- the invariant

  /** The updates a handler was meant to see, in the order they came. */
  function Wanted<T>(updates: seq<Update<T>>): seq<Item<T>> {
    if updates == [] then []
    else
      var last := updates[|updates| - 1];
      Wanted(updates[..|updates| - 1]) + if last.wanted then [Item(last.key, last.value)] else []
  }

  predicate NoFailure(finished: map<nat, bool>) {
    forall id :: id in finished ==> finished[id]
  }

  /** The phases from which the durable cursor may move. */
  predicate AtRest(p: Phase) {
    p.Paused? || p.Committing? || (p.Stopped? && p.outcome.Finished?)
  }

  /** The phases that wait for something to happen. */
  predicate Asleep(p: Phase) {
    p.Full? || p.Waiting? || p.Retrying? || p.BufferedFull? || p.BufferedWaiting? || p.Draining?
  }

  /** The dispatcher is sound, holds exactly the wanted updates, and `panicsEver` tells whether a handler failed. */
  ghost predicate TasksInv<T>(limits: Config, tasks: Trace<T>, received: seq<Update<T>>, panicsEver: nat) {
    && Good(limits, tasks)
    && tasks.pushed == Wanted(received)
    && tasks.discarded == 0
    && (panicsEver == 0 <==> NoFailure(tasks.finished))
  }

  ghost predicate Sound<T>(w: Worker<T>) {
    TasksInv(w.limits, w.tasks, w.received, w.panicsEver)
  }

  ghost predicate WorkerInv<T>(w: Worker<T>) {
    && Sound(w)
    && (w.phase.Waiting? || w.phase.BufferedWaiting? ==> HasRoom(w.limits, Tasks(w)))
    && (Asleep(w.phase) ==> !CanStart(w.limits, Tasks(w)))
    && (!w.phase.Stopped? ==> w.panics == w.panicsEver)
    && (AtRest(w.phase) ==> IsEmpty(Tasks(w)) && w.panicsEver == 0)
    && (w.phase.Paused? || w.phase.Committing? ==> w.checkpoint.Some? && !w.cursorError)
    && (w.cursorError ==> w.phase.Draining? || w.phase.Stopped?)
  }

  lemma NewWorkerInv<T>(kind: Kind, limits: Config)
    requires limits.Valid()
    ensures WorkerInv(NewWorker<T>(kind, limits))
  {
    hide Good;
    NewTraceIsGood<T>(limits);
  }

  lemma WantedAppend<T>(updates: seq<Update<T>>, update: Update<T>)
    ensures Wanted(updates + [update]) == Wanted(updates) + if update.wanted then [Item(update.key, update.value)] else []
  {
    assert (updates + [update])[..|updates|] == updates;
  }

  lemma FailureAppend(finished: map<nat, bool>, id: nat, ok: bool)
    requires id !in finished
    ensures NoFailure(finished[id := ok]) <==> NoFailure(finished) && ok
  {
    if NoFailure(finished[id := ok]) {
      assert finished[id := ok][id] == ok;
      forall i | i in finished ensures finished[i] {
        assert finished[id := ok][i] == finished[i];
      }
    }
  }

  lemma TasksInvHasInv<T>(w: Worker<T>)
    requires Sound(w)
    ensures Inv(w.limits, Tasks(w))
  {
  }

  lemma StartKeeps<T>(w: Worker<T>)
    requires Sound(w)
    ensures Inv(w.limits, Tasks(w))
    ensures var s := Start(w);
            Sound(s) && !CanStart(w.limits, Tasks(s)) && s == w.(tasks := s.tasks)
            && (HasRoom(w.limits, Tasks(w)) ==> HasRoom(w.limits, Tasks(s)))
  {
    SettleKeepsGood(w.limits, w.tasks);
  }

  lemma EndKeeps<T>(w: Worker<T>, id: nat, ok: bool)
    requires Sound(w) && id in Tasks(w).active
    ensures Inv(w.limits, Tasks(w))
    ensures Sound(End(w, id, ok)) && Tasks(End(w, id, ok)).pending == Tasks(w).pending
  {
    StepKeepsGood(w.limits, w.tasks, FinishOp(id, ok));
    FailureAppend(w.tasks.finished, id, ok);
    RunningHasTask(w.limits, Tasks(w), id);
  }

  lemma AdmitKeeps<T>(w: Worker<T>, update: Update<T>)
    requires Sound(w) && HasRoom(w.limits, Tasks(w))
    ensures Inv(w.limits, Tasks(w))
    ensures Sound(Admit(w, update))
  {
    WantedAppend(w.received, update);
    if update.wanted {
      StepKeepsGood(w.limits, w.tasks, PushOp(update.key, update.value));
    }
  }

  predicate JoinStarts(p: Phase) {
    p.Waiting? || p.Retrying? || p.Draining?
  }

  /** A join at the top of a loop only wakes the loop up. */
  lemma JoinWakes<T>(w: Worker<T>, id: nat, ok: bool)
    requires WorkerInv(w) && Allowed(w, Join(id, ok)) && !JoinStarts(w.phase)
    ensures WorkerInv(Next(w, Join(id, ok)))
  {
    hide TasksInv, Start, Admit, CanStart, Load, HasRoom, IsEmpty, Step, Inv;
    EndKeeps(w, id, ok);
  }

  /** A join while waiting makes room for the next start. */
  lemma JoinRestarts<T>(w: Worker<T>, id: nat, ok: bool)
    requires WorkerInv(w) && Allowed(w, Join(id, ok)) && JoinStarts(w.phase)
    ensures WorkerInv(Next(w, Join(id, ok)))
  {
    hide TasksInv, Start, Admit, CanStart, Load, IsEmpty, Step, Inv;
    EndKeeps(w, id, ok);
    StartKeeps(End(w, id, ok));
  }

  lemma JoinKeepsInv<T>(w: Worker<T>, id: nat, ok: bool)
    requires WorkerInv(w) && Allowed(w, Join(id, ok))
    ensures WorkerInv(Next(w, Join(id, ok)))
  {
    hide WorkerInv, Next, Allowed;
    if JoinStarts(w.phase) {
      JoinRestarts(w, id, ok);
    } else {
      JoinWakes(w, id, ok);
    }
  }

  lemma EnterKeepsInv<T>(w: Worker<T>)
    requires WorkerInv(w) && Allowed(w, Enter)
    ensures WorkerInv(Next(w, Enter))
  {
    hide TasksInv, Start, CanStart, HasRoom, Load, IsEmpty, End, Admit;
    StartKeeps(w);
  }

  lemma DeliverKeepsInv<T>(w: Worker<T>, update: Update<T>)
    requires WorkerInv(w) && Allowed(w, Deliver(update))
    ensures WorkerInv(Next(w, Deliver(update)))
  {
    hide TasksInv, Settle, Step, Inv;
    AdmitKeeps(w, update);
  }

  lemma DrainKeepsInv<T>(w: Worker<T>, e: Event<T>)
    requires WorkerInv(w) && Allowed(w, e) && (e.BufferEmpty? || e.BufferBroken?)
    ensures WorkerInv(Next(w, e))
  {
    hide TasksInv, Settle, Step, Inv;
    StartKeeps(w.(cursorError := e.BufferBroken?));
  }

  lemma NoticeKeepsInv<T>(w: Worker<T>)
    requires WorkerInv(w) && Allowed(w, NoticeSignal)
    ensures WorkerInv(Next(w, NoticeSignal))
  {
    hide TasksInv, Settle, Step, Inv, CanStart, HasRoom, Start, End, Admit, Load, IsEmpty;
  }

  lemma QuietMoveKeepsInv<T>(w: Worker<T>, e: Event<T>)
    requires WorkerInv(w) && Allowed(w, e)
    requires !(e.Enter? || e.Join? || e.Deliver? || e.BufferEmpty? || e.BufferBroken? || e.NoticeSignal?)
    ensures WorkerInv(Next(w, e))
  {
    hide TasksInv, Settle, Step, Inv, CanStart, HasRoom, Start, End, Admit, Load, IsEmpty;
  }

  lemma StepKeepsWorkerInv<T>(w: Worker<T>, e: Event<T>)
    requires WorkerInv(w) && Allowed(w, e)
    ensures WorkerInv(Next(w, e))
  {
    hide WorkerInv, Next;
    match e
    case Enter => EnterKeepsInv(w);
    case Join(id, ok) => JoinKeepsInv(w, id, ok);
    case Deliver(update) => DeliverKeepsInv(w, update);
    case BufferEmpty => DrainKeepsInv(w, e);
    case BufferBroken => DrainKeepsInv(w, e);
    case NoticeSignal => NoticeKeepsInv(w);
    case _ => QuietMoveKeepsInv(w, e);
  }

  // ---------------------------------------------------------------- what a resting worker has done

  /** Whatever a handler was meant to see has left its lane, and every handler that was started ended well. */
  ghost predicate AllHandled<T>(w: Worker<T>) {
    && (forall key :: PushedFor(key, Wanted(w.received)) == RemovedFor(key, w.tasks.removed))
    && (forall i :: 0 <= i < |w.tasks.removed| && w.tasks.removed[i].Started? ==>
          w.tasks.removed[i].id in w.tasks.finished && w.tasks.finished[w.tasks.removed[i].id])
    && (forall i :: 0 <= i < |w.tasks.removed| ==> !w.tasks.removed[i].Dropped?)
    && |Wanted(w.received)| == |w.tasks.finished| + Tasks(w).shed
  }

  lemma {:induction false} IdsBelow(finished: map<nat, bool>, n: nat)
    requires forall id: nat :: id in finished <==> id < n
    ensures |finished| == n
  {
    if n > 0 {
      IdsBelow(finished - {n - 1}, n - 1);
    } else {
      assert finished.Keys == {};
    }
  }

  /**
   A worker that may move its cursor, or that ended well, is empty and never saw a panic, in this round or in any
   earlier abandoned one: each update it received was handled to the end, was shed, or was not wanted; none was dropped.
   */
  lemma RestMeansHandled<T>(w: Worker<T>)
    requires WorkerInv(w) && AtRest(w.phase)
    ensures IsEmpty(Tasks(w)) && w.panicsEver == 0 && AllHandled(w)
  {
    var t := w.tasks;
    forall key ensures PushedFor(key, Wanted(w.received)) == RemovedFor(key, t.removed) {
      assert ConservedFor(t, key);
      PendingCoversLane(w.limits, t.now, key);
    }
    IdsBelow(t.finished, t.now.next);
    NoneDropped(t.removed);
  }

  /** The end of a handler during a drain takes one item off its load. */
  lemma JoinLightens<T>(w: Worker<T>, id: nat, ok: bool)
    requires WorkerInv(w) && w.phase.Draining? && id in Tasks(w).active
    ensures Allowed(w, Join(id, ok)) && Load(Tasks(Next(w, Join(id, ok)))) == Load(Tasks(w)) - 1
  {
    hide Inv, Settle, CanStart, Conserved, Accounted;
    TasksInvHasInv(w);
    FinishLightens(w.limits, w.tasks, id, ok);
    StepKeepsInv(w.limits, w.tasks, FinishOp(id, ok));
  }

  /** A draining worker that still holds work always has a handler whose end it can wait for. */
  lemma DrainCanProgress<T>(w: Worker<T>)
    requires WorkerInv(w) && w.phase.Draining? && !IsEmpty(Tasks(w))
    ensures exists id :: id in Tasks(w).active && Allowed(w, Join(id, true))
    ensures forall id, ok :: id in Tasks(w).active ==> Load(Tasks(Next(w, Join(id, ok)))) == Load(Tasks(w)) - 1
  {
    hide Inv, Next, Load, Conserved, Accounted, CanStart;
    TasksInvHasInv(w);
    NonEmptyHasTask(w.limits, Tasks(w));
    var id :| id in Tasks(w).active;
    assert Allowed(w, Join(id, true));
    forall id, ok | id in Tasks(w).active ensures Load(Tasks(Next(w, Join(id, ok)))) == Load(Tasks(w)) - 1 {
      JoinLightens(w, id, ok);
    }
  }
}
