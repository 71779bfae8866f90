/**
 The checkpoint protocol over many rounds. Whatever happens to each round, committed, put off by a failed flush, or timed
 out, some run brings the system through, and each round begins where the last one ended: an idle coordinator and two
 workers at rest.
 */
module CheckpointRounds {
  import opened Dispatch
  import opened Options
  import opened UpdateWorker
  import opened Checkpoint
  import opened CheckpointProgress

  /** How a round may end for both workers alike; the flushes of a round put off are not all well. */
  datatype Ending = Commits | NotFlushed(media: bool, statistics: bool, logs: bool, samples: bool) | Late

  predicate Possible(e: Ending) {
    e.NotFlushed? ==> !(e.media && e.statistics && e.logs && e.samples)
  }

  /** What a round with this ending leaves on record. */
  function Record(e: Ending, r: nat): seq<Fact> {
    match e
    case Commits => CommittedRecord(r)
    case NotFlushed(a, b, c, d) =>
      [Ready(BotSide, r), Ready(CleanerSide, r), OwnedJoined(r, 0), Flushed(r, a, b, c, d), Deferred(r)]
    case Late => [Deferred(r)]
  }

  // ---------------------------------------------------------------- a round put off

  /** With both answers in, a flush does not complete. */
  lemma {:induction false} FlushFails<T(!new)>(s0: System<T>, s: System<T>, e: Ending) returns (t: System<T>)
    requires SystemInv(s0) && SystemInv(s) && Reaches(s0, s) && s.coordinator.AwaitingReady? && !s.poisoned
    requires e.NotFlushed? && Possible(e) && s.round in s.bot.readySent && s.round in s.cleaner.readySent
    ensures SystemInv(t) && Reaches(s0, t)
    ensures var r := s.round;
      t == s.(coordinator := Resuming(BotSide),
              log := s.log + [OwnedJoined(r, 0), Flushed(r, e.media, e.statistics, e.logs, e.samples)])
  {
    hide SystemInv, Reaches;
    t := Goes(s0, s, ReadyArrived(false));
    t := Goes(s0, t, JoinedOwned(0));
    t := Goes(s0, t, FlushEnded(e.media, e.statistics, e.logs, e.samples));
    t := Goes(s0, t, CheckBarrier);
  }

  /** Both are told to resume, and the round is put off. */
  lemma {:induction false} TellsResume<T(!new)>(s0: System<T>, s: System<T>) returns (t: System<T>)
    requires SystemInv(s0) && SystemInv(s) && Reaches(s0, s) && s.coordinator == Resuming(BotSide)
    requires Holds(s.bot, s.round) && Holds(s.cleaner, s.round)
    ensures SystemInv(t) && Reaches(s0, t)
    ensures var r := s.round;
      t == s.(coordinator := Idle, log := s.log + [Deferred(r)],
              bot := s.bot.(decision := s.bot.decision[r := ResumeWithoutCommit]),
              cleaner := s.cleaner.(decision := s.cleaner.decision[r := ResumeWithoutCommit]))
  {
    hide SystemInv, Reaches;
    t := Goes(s0, s, SendResume);
    t := Goes(s0, t, SendResume);
  }

  lemma {:induction false} PutOffRoundReturns<T(!new)>(s0: System<T>, s: System<T>, e: Ending) returns (t: System<T>)
    requires SystemInv(s0) && SystemInv(s) && Reaches(s0, s) && CanBegin(s) && e.NotFlushed? && Possible(e)
    ensures SystemInv(t) && Reaches(s0, t) && CanBegin(t)
    ensures t.round == s.round + 1 && t.log == s.log + Record(e, t.round)
  {
    hide SystemInv, Reaches, IsEmpty;
    t := BothAnswer(s0, s);
    assert Pausing(LinkOf(t, BotSide).worker, s.bot.worker, Paused, t.round);
    assert Pausing(LinkOf(t, CleanerSide).worker, s.cleaner.worker, Paused, t.round);
    assert LinkOf(t, BotSide) == t.bot && LinkOf(t, CleanerSide) == t.cleaner;
    var w, v: Worker<T>;
    t := FlushFails(s0, t, e);
    t := TellsResume(s0, t);
    t, w := Resumes(s0, t, BotSide);
    t, v := Resumes(s0, t, CleanerSide);
  }

  // ---------------------------------------------------------------- a round that times out

  /** A worker that drained too late finds nobody listening, and rests again. */
  lemma {:induction false} TooLate<T(!new)>(c: Worker<T>) returns (d: Worker<T>, v: Worker<T>)
    requires WorkerInv(c) && c.phase.Draining? && IsEmpty(Tasks(c)) && c.panics == 0 && !c.cursorError
    requires c.checkpoint.Some? && c.signal == Running && !c.signalClosed
    ensures Allowed(c, DrainOver(false)) && d == Next(c, DrainOver(false)) && d.phase.Receiving? && WorkerInv(d)
    ensures Allowed(d, Enter) && v == Next(d, Enter) && Resting(v)
  {
    hide TasksInv, IsEmpty, CanStart, HasRoom;
    WorkerRuns.DrainEnds(c, false);
    d := Next(c, DrainOver(false));
    StepKeepsWorkerInv(c, DrainOver(false));
    v := WakesUp(d);
  }

  lemma {:induction false} NobodyListens<T(!new)>(s0: System<T>, s: System<T>, side: Side, w: Worker<T>)
      returns (t: System<T>)
    requires SystemInv(s0) && SystemInv(s) && Reaches(s0, s)
    requires var v := LinkOf(s, side).worker;
      WorkerInv(v) && v.checkpoint.Some? && !ReadyOpen(s, side, v.checkpoint.value) && Allowed(v, DrainOver(false)) &&
      w == Next(v, DrainOver(false)) && !w.phase.Paused?
    ensures SystemInv(t) && Reaches(s0, t) && t == WithLink(s, side, LinkOf(s, side).(worker := w))
  {
    hide SystemInv, Reaches, WorkerInv, Next, Allowed, ReadyOpen;
    t := Goes(s0, s, WorkerMove(side, DrainOver(false)));
  }

  /** A resting worker that takes its command after the round is over only comes back to rest. */
  lemma {:induction false} TakesStaleCommand<T(!new)>(s0: System<T>, s: System<T>, side: Side)
      returns (t: System<T>, v: Worker<T>)
    requires SystemInv(s0) && SystemInv(s) && Reaches(s0, s) && s.coordinator.Idle?
    requires Resting(LinkOf(s, side).worker) && LinkOf(s, side).slot.Some?
    ensures SystemInv(t) && Reaches(s0, t) && Resting(v)
    ensures t == WithLink(s, side, LinkOf(s, side).(worker := v, slot := None))
  {
    hide SystemInv, Reaches, WorkerInv, Next, Allowed;
    HasWorker(s, side);
    var was, r := LinkOf(s, side).worker, LinkOf(s, side).slot.value;
    RestingStartsNothing(was);
    var a, b, c := TakesAndDrains(was, r);
    t := CommandTaken(s0, s, side, a);
    t := WorkerGoes(s0, t, side, Enter, b);
    t := WorkerGoes(s0, t, side, BufferEmpty, c);
    var d: Worker<T>;
    d, v := TooLate(c);
    t := NobodyListens(s0, t, side, d);
    t := WorkerGoes(s0, t, side, Enter, v);
  }

  lemma {:induction false} LateRoundReturns<T(!new)>(s0: System<T>, s: System<T>) returns (t: System<T>)
    requires SystemInv(s0) && SystemInv(s) && Reaches(s0, s) && CanBegin(s)
    ensures SystemInv(t) && Reaches(s0, t) && CanBegin(t)
    ensures t.round == s.round + 1 && t.log == s.log + Record(Late, t.round)
  {
    hide SystemInv, Reaches, IsEmpty;
    t := TimesOut(s0, s);
    var w, v: Worker<T>;
    t, w := TakesStaleCommand(s0, t, BotSide);
    t, v := TakesStaleCommand(s0, t, CleanerSide);
  }

  // ---------------------------------------------------------------- any number of rounds

  lemma {:induction false} RoundReturns<T(!new)>(s: System<T>, e: Ending) returns (t: System<T>)
    requires SystemInv(s) && CanBegin(s) && Possible(e)
    ensures SystemInv(t) && Reaches(s, t) && CanBegin(t)
    ensures t.round == s.round + 1 && t.log == s.log + Record(e, t.round)
  {
    hide SystemInv, Reaches, CanBegin;
    StaysHere(s);
    match e
    case Commits => t := NextRoundCanCommit(s, s);
    case NotFlushed(_, _, _, _) => t := PutOffRoundReturns(s, s, e);
    case Late => t := LateRoundReturns(s, s);
  }

  /** Each state may begin a round, reaches the next one, and in between its round ended as wished. */
  ghost predicate Course<T(!new)>(states: seq<System<T>>, endings: seq<Ending>) {
    && |states| == |endings| + 1
    && (forall k :: 0 <= k < |states| ==> SystemInv(states[k]) && CanBegin(states[k]))
    && (forall k :: 0 <= k < |endings| ==>
          && Reaches(states[k], states[k + 1]) && states[k + 1].round == states[k].round + 1
          && states[k + 1].log == states[k].log + Record(endings[k], states[k + 1].round))
  }

  lemma {:induction false} CourseFrom<T(!new)>(s: System<T>, endings: seq<Ending>) returns (states: seq<System<T>>)
    requires SystemInv(s) && CanBegin(s) && forall e :: e in endings ==> Possible(e)
    ensures Course(states, endings) && states[0] == s
    decreases |endings|
  {
    hide SystemInv, Reaches, CanBegin, Possible, Record;
    if endings == [] {
      states := [s];
    } else {
      var t := RoundReturns(s, endings[0]);
      var rest := CourseFrom(t, endings[1..]);
      states := [s] + rest;
      forall k | 0 <= k < |endings|
        ensures Reaches(states[k], states[k + 1]) && states[k + 1].round == states[k].round + 1
        ensures states[k + 1].log == states[k].log + Record(endings[k], states[k + 1].round)
      {
        if k > 0 {
          assert states[k] == rest[k - 1] && states[k + 1] == rest[k] && endings[k] == endings[1..][k - 1];
        }
      }
    }
  }

  /**
   From the start, for every list of endings some run goes through rounds that end so, one after the other: in
   particular all committed, as many as wished. Putting rounds off, however often, never ends the service.
   */
  lemma {:induction false} RoundsAsWished<T(!new)>(bot: Config, cleaner: Config, endings: seq<Ending>)
    requires bot.Valid() && cleaner.Valid() && forall e :: e in endings ==> Possible(e)
    ensures SystemInv(Initial<T>(bot, cleaner))
    ensures exists states: seq<System<T>> ::
      Course(states, endings) && Reaches(Initial<T>(bot, cleaner), states[0]) && states[0].round == 0 && states[0].log == []
  {
    hide SystemInv, Reaches, CanBegin, Course;
    var s := BothWake<T>(bot, cleaner);
    var states := CourseFrom(s, endings);
  }

  /** So for every n a single run from the start commits the rounds 1 to n, and may go on. */
  lemma {:induction false} EveryRoundCanCommit<T(!new)>(bot: Config, cleaner: Config, n: nat) returns (t: System<T>)
    requires bot.Valid() && cleaner.Valid()
    ensures SystemInv(Initial<T>(bot, cleaner)) && SystemInv(t) && Reaches(Initial<T>(bot, cleaner), t)
    ensures CanBegin(t) && t.round == n && forall r: nat :: 1 <= r <= n ==> Committed(r) in t.log
    decreases n
  {
    hide SystemInv, Reaches, CanBegin, Initial;
    if n == 0 {
      t := BothWake(bot, cleaner);
    } else {
      var s := EveryRoundCanCommit<T>(bot, cleaner, n - 1);
      t := NextRoundCanCommit(Initial<T>(bot, cleaner), s);
      assert CommittedRecord(n)[8] == Committed(n);
    }
  }
}
