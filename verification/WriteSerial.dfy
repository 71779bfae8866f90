/**
 Why a settings writer may be taken as one step. A writer works on the shared state in pieces, but only while it holds
 every lock of its plan, and each of these writers needs the capacity lock. So any interleaving of their pieces leaves
 the state as if the writers had run one after the other, in the order in which they finished.
 */
module WriteSerial {
  import opened WriteStripes

  /** One piece of a writer's work on the shared state; a writer's whole work is a sequence of them. */
  type Piece<!S> = S -> S

  /** A writer's work and how many pieces of it are done. */
  datatype Job<!S> = Job(pieces: seq<Piece<S>>, done: nat)

  datatype Machine<!S> = Machine(locks: State, jobs: map<nat, Job<S>>, shared: S, finished: seq<seq<Piece<S>>>)

  datatype Event<!S> =
    | Start(id: nat, writer: Writer, pieces: seq<Piece<S>>)
    | Take(id: nat)
    | Work(id: nat)
    | End(id: nat)

  function Apply<S>(s: S, pieces: seq<Piece<S>>): S {
    if pieces == [] then s else pieces[|pieces| - 1](Apply(s, pieces[..|pieces| - 1]))
  }

  /** Whole writers, one after the other. */
  function Serial<S>(s: S, writers: seq<seq<Piece<S>>>): S {
    if writers == [] then s else Apply(Serial(s, writers[..|writers| - 1]), writers[|writers| - 1])
  }

  predicate Counts(w: Writer) {
    w.OneCounted? || w.ManyCounted?
  }

  predicate AtWork(locks: State, id: nat) {
    id in locks && Full(locks[id])
  }

  predicate May<S>(m: Machine<S>, e: Event<S>) {
    match e
    case Start(id, w, _) => Enabled(m.locks, Spawn(id, w)) && Counts(w)
    case Take(id) => Enabled(m.locks, Acquire(id))
    case Work(id) => AtWork(m.locks, id) && id in m.jobs && m.jobs[id].done < |m.jobs[id].pieces|
    case End(id) => Enabled(m.locks, Finish(id)) && id in m.jobs && m.jobs[id].done == |m.jobs[id].pieces|
  }

  function Next<S>(m: Machine<S>, e: Event<S>): Machine<S>
    requires May(m, e)
  {
    match e
    case Start(id, w, pieces) => m.(locks := Step(m.locks, Spawn(id, w)), jobs := m.jobs[id := Job(pieces, 0)])
    case Take(id) => m.(locks := Step(m.locks, Acquire(id)))
    case Work(id) =>
      var job := m.jobs[id];
      m.(shared := job.pieces[job.done](m.shared), jobs := m.jobs[id := Job(job.pieces, job.done + 1)])
    case End(id) =>
      m.(locks := Step(m.locks, Finish(id)), jobs := m.jobs - {id}, finished := m.finished + [m.jobs[id].pieces])
  }

  ghost predicate Reached<S>(m: Machine<S>, events: seq<Event<S>>, end: Machine<S>)
    decreases |events|
  {
    if events == [] then m == end
    else May(m, events[0]) && Reached(Next(m, events[0]), events[1..], end)
  }

  function Fresh<S>(s: S): Machine<S> {
    Machine(map[], map[], s, [])
  }

  // ---------------------------------------------------------------- the invariant

  ghost predicate Tracked<S>(locks: State, jobs: map<nat, Job<S>>) {
    && jobs.Keys == locks.Keys
    && (forall id :: id in locks ==> Counts(locks[id].writer))
    && (forall id :: id in locks ==> jobs[id].done <= |jobs[id].pieces|)
    && (forall id :: id in locks && !AtWork(locks, id) ==> jobs[id].done == 0)
  }

  /** How far a writer has brought the state that the finished ones left. */
  ghost predicate Brings<S>(base: S, job: Job<S>, shared: S) {
    job.done <= |job.pieces| && shared == Apply(base, job.pieces[..job.done])
  }

  /** What the shared state is: the finished writers in order, then as much of the working one as it has done. */
  ghost predicate Explained<S>(m: Machine<S>, base: S) {
    && (forall id :: AtWork(m.locks, id) ==> id in m.jobs && Brings(base, m.jobs[id], m.shared))
    && ((forall id :: !AtWork(m.locks, id)) ==> m.shared == base)
  }

  ghost predicate SerialInv<S>(m: Machine<S>, s: S) {
    Exclusive(m.locks) && Tracked(m.locks, m.jobs) && Explained(m, Serial(s, m.finished))
  }

  /** Two writers that both need the capacity lock are never both at work. */
  lemma OneAtWork<S>(locks: State, jobs: map<nat, Job<S>>, a: nat, b: nat)
    requires Exclusive(locks) && Tracked(locks, jobs) && AtWork(locks, a) && AtWork(locks, b)
    ensures a == b
  {
    hide Plan, HoldsLock;
    PlanIsOrdered(locks[a].writer);
    PlanIsOrdered(locks[b].writer);
    FullHolds(locks[a], CAPACITY);
    FullHolds(locks[b], CAPACITY);
  }

  /** A writer that starts holds nothing of a plan that asks for something. */
  lemma StartsIdle(locks: State, id: nat, w: Writer)
    requires Counts(w) && id !in locks
    ensures !AtWork(Step(locks, Spawn(id, w)), id)
    ensures forall other :: other != id ==> (AtWork(Step(locks, Spawn(id, w)), other) <==> AtWork(locks, other))
  {
    hide Stripes;
  }

  lemma TakesAlone(locks: State, id: nat)
    requires Enabled(locks, Acquire(id))
    ensures !AtWork(locks, id)
    ensures forall other :: other != id ==> (AtWork(Step(locks, Acquire(id)), other) <==> AtWork(locks, other))
  {
    hide Plan;
  }

  lemma EndsAlone(locks: State, id: nat)
    requires Enabled(locks, Finish(id))
    ensures AtWork(locks, id) && !AtWork(Step(locks, Finish(id)), id)
    ensures forall other :: other != id ==> (AtWork(Step(locks, Finish(id)), other) <==> AtWork(locks, other))
  {
    hide Plan;
  }

  lemma StartKeeps<S>(m: Machine<S>, s: S, e: Event<S>)
    requires SerialInv(m, s) && May(m, e) && e.Start?
    ensures SerialInv(Next(m, e), s)
  {
    hide Exclusive, AtWork, Brings, Serial, Counts;
    StepIsExclusive(m.locks, Spawn(e.id, e.writer));
    StartsIdle(m.locks, e.id, e.writer);
  }

  lemma TakeTracks<S>(locks: State, jobs: map<nat, Job<S>>, id: nat)
    requires Tracked(locks, jobs) && Enabled(locks, Acquire(id))
    ensures Tracked(Step(locks, Acquire(id)), jobs)
  {
    hide AtWork, Free, Plan, Counts;
    TakesAlone(locks, id);
  }

  /** A writer that gets its last lock finds nobody else at work and none of its own work done. */
  lemma TakeKeeps<S>(m: Machine<S>, s: S, e: Event<S>)
    requires SerialInv(m, s) && May(m, e) && e.Take?
    ensures SerialInv(Next(m, e), s)
  {
    hide Exclusive, AtWork, Serial, Counts;
    var locks := Step(m.locks, Acquire(e.id));
    StepIsExclusive(m.locks, Acquire(e.id));
    TakesAlone(m.locks, e.id);
    TakeTracks(m.locks, m.jobs, e.id);
    hide Enabled, Step;
    if AtWork(locks, e.id) {
      forall id ensures !AtWork(m.locks, id) {
        if AtWork(m.locks, id) {
          OneAtWork(locks, m.jobs, id, e.id);
        }
      }
    }
    NothingDone(m.jobs[e.id], m.shared);
  }

  lemma NothingDone<S>(job: Job<S>, base: S)
    requires job.done == 0
    ensures Brings(base, job, base)
  {
  }

  lemma OnePieceMore<S>(base: S, job: Job<S>, shared: S)
    requires Brings(base, job, shared) && job.done < |job.pieces|
    ensures Brings(base, Job(job.pieces, job.done + 1), job.pieces[job.done](shared))
  {
    assert job.pieces[..job.done + 1][..job.done] == job.pieces[..job.done];
  }

  lemma WorkKeeps<S>(m: Machine<S>, s: S, e: Event<S>)
    requires SerialInv(m, s) && May(m, e) && e.Work?
    ensures SerialInv(Next(m, e), s)
  {
    hide Exclusive, AtWork, Serial, Counts, Brings;
    OnePieceMore(Serial(s, m.finished), m.jobs[e.id], m.shared);
    forall id | AtWork(m.locks, id) ensures id == e.id {
      OneAtWork(m.locks, m.jobs, id, e.id);
    }
  }

  lemma AllDone<S>(s: S, finished: seq<seq<Piece<S>>>, job: Job<S>, shared: S)
    requires Brings(Serial(s, finished), job, shared) && job.done == |job.pieces|
    ensures shared == Serial(s, finished + [job.pieces])
  {
    assert job.pieces[..|job.pieces|] == job.pieces;
    assert (finished + [job.pieces])[..|finished|] == finished;
  }

  lemma EndKeeps<S>(m: Machine<S>, s: S, e: Event<S>)
    requires SerialInv(m, s) && May(m, e) && e.End?
    ensures SerialInv(Next(m, e), s)
  {
    hide Exclusive, AtWork, Serial, Counts, Brings;
    StepIsExclusive(m.locks, Finish(e.id));
    EndsAlone(m.locks, e.id);
    AllDone(s, m.finished, m.jobs[e.id], m.shared);
    forall id | AtWork(m.locks, id) ensures id == e.id {
      OneAtWork(m.locks, m.jobs, id, e.id);
    }
  }

  lemma EventKeeps<S>(m: Machine<S>, s: S, e: Event<S>)
    requires SerialInv(m, s) && May(m, e)
    ensures SerialInv(Next(m, e), s)
  {
    hide SerialInv, May, Next;
    match e
    case Start(_, _, _) => StartKeeps(m, s, e);
    case Take(_) => TakeKeeps(m, s, e);
    case Work(_) => WorkKeeps(m, s, e);
    case End(_) => EndKeeps(m, s, e);
  }

  lemma {:induction false} RunKeeps<S>(m: Machine<S>, s: S, events: seq<Event<S>>, end: Machine<S>)
    requires SerialInv(m, s) && Reached(m, events, end)
    ensures SerialInv(end, s)
    decreases |events|
  {
    hide SerialInv, May, Next;
    if events != [] {
      EventKeeps(m, s, events[0]);
      RunKeeps(Next(m, events[0]), s, events[1..], end);
    }
  }

  /** Whenever no writer is at work, the state is that of a serial run of the finished writers, in that order. */
  lemma {:induction false} InterleavingsAreSerial<S>(s: S, events: seq<Event<S>>, end: Machine<S>)
    requires Reached(Fresh(s), events, end) && forall id :: !AtWork(end.locks, id)
    ensures end.shared == Serial(s, end.finished)
  {
    hide Reached, AtWork, Exclusive;
    FreshIsSerial(s);
    RunKeeps(Fresh(s), s, events, end);
  }

  /** And while one is, it sees the finished writers' work and its own, and nobody else's. */
  lemma {:induction false} WritersWorkAlone<S>(s: S, events: seq<Event<S>>, end: Machine<S>, id: nat)
    requires Reached(Fresh(s), events, end) && AtWork(end.locks, id)
    ensures id in end.jobs && end.jobs[id].done <= |end.jobs[id].pieces|
    ensures end.shared == Apply(Serial(s, end.finished), end.jobs[id].pieces[..end.jobs[id].done])
  {
    hide Reached, AtWork, Exclusive;
    FreshIsSerial(s);
    RunKeeps(Fresh(s), s, events, end);
  }

  lemma FreshIsSerial<S>(s: S)
    ensures SerialInv(Fresh(s), s)
  {
    StartsExclusive();
  }
}
