/**
 The write locks of src/state.rs: 1024 stripes chosen by a chat's hash, and one capacity lock. A writer takes the
 stripes of its chats in increasing order, then the capacity lock if it needs it, and drops everything together. A state
 holds any number of writers, each somewhere in its plan; every interleaving is a run.
 */
module WriteStripes {
  import opened MapSum

  const WRITE_SLOTS: nat := 1024
  const TWO_64: nat := 0x1_0000_0000_0000_0000
  const MULTIPLIER: nat := 0x9E37_79B9_7F4A_7C15

  /** The lock taken after every stripe. */
  const CAPACITY: nat := WRITE_SLOTS

  function Stripe(chat: int): nat {
    ((chat % TWO_64) * MULTIPLIER % TWO_64) % WRITE_SLOTS
  }

  // ---------------------------------------------------------------- plans

  datatype Writer =
    | One(chat: int)                 // the row writers: one stripe
    | OneCounted(chat: int)          // try_apply_batch, forget_chat: one stripe, then capacity
    | Many(chats: seq<int>)          // forget_idle: sorted, distinct stripes
    | ManyCounted(chats: seq<int>)   // set_flags: sorted, distinct stripes, then capacity

  predicate Increasing(locks: seq<nat>) {
    forall i, j :: 0 <= i < j < |locks| ==> locks[i] < locks[j]
  }

  ghost predicate Below(locks: seq<nat>, bound: nat) {
    forall l :: l in locks ==> l < bound
  }

  lemma AppendIncreasing(locks: seq<nat>, last: nat)
    requires Increasing(locks) && Below(locks, last)
    ensures Increasing(locks + [last])
  {
    forall i | 0 <= i < |locks| ensures locks[i] < last {
      assert locks[i] in locks;
    }
  }

  lemma LastIsGreatest(locks: seq<nat>)
    requires Increasing(locks) && locks != []
    ensures Increasing(locks[..|locks| - 1]) && Below(locks[..|locks| - 1], locks[|locks| - 1])
    ensures forall l :: l in locks <==> l in locks[..|locks| - 1] || l == locks[|locks| - 1]
  {
    assert locks == locks[..|locks| - 1] + [locks[|locks| - 1]];
  }

  /** Puts a lock where it belongs, unless it is there. */
  function Place(locks: seq<nat>, lock: nat): (placed: seq<nat>)
    requires Increasing(locks)
    ensures Increasing(placed)
    ensures forall l :: l in placed <==> l in locks || l == lock
  {
    hide Increasing;
    if locks == [] then
      AppendIncreasing([], lock);
      [] + [lock]
    else
      LastIsGreatest(locks);
      var last := locks[|locks| - 1];
      if last < lock then
        assert Below(locks, lock);
        AppendIncreasing(locks, lock);
        locks + [lock]
      else if last == lock then locks
      else
        var front := Place(locks[..|locks| - 1], lock);
        assert Below(front, last);
        AppendIncreasing(front, last);
        front + [last]
  }

  /** Sorted and without repeats. */
  function Stripes(chats: seq<int>): (locks: seq<nat>)
    ensures Increasing(locks)
    ensures forall l :: l in locks <==> exists chat :: chat in chats && Stripe(chat) == l
  {
    if chats == [] then []
    else
      var last := chats[|chats| - 1];
      assert chats == chats[..|chats| - 1] + [last];
      Place(Stripes(chats[..|chats| - 1]), Stripe(last))
  }

  function Chats(w: Writer): seq<int> {
    match w
    case One(chat) => [chat]
    case OneCounted(chat) => [chat]
    case Many(chats) => chats
    case ManyCounted(chats) => chats
  }

  function Plan(w: Writer): (plan: seq<nat>) {
    Stripes(Chats(w)) + if w.OneCounted? || w.ManyCounted? then [CAPACITY] else []
  }

  /** Every plan is strictly increasing: the stripes of the chats the writer writes, and the capacity lock if it counts. */
  lemma PlanIsOrdered(w: Writer)
    ensures Increasing(Plan(w))
    ensures forall lock :: lock in Plan(w) <==>
              (exists chat :: chat in Chats(w) && chat * 21 % 1024 == lock) ||
              ((w.OneCounted? || w.ManyCounted?) && lock == 1024)
    ensures forall chat :: chat in Chats(w) ==> Stripe(chat) in Plan(w)
    ensures w.OneCounted? || w.ManyCounted? <==> CAPACITY in Plan(w)
  {
    hide Increasing, Stripe;
    var locks := Stripes(Chats(w));
    forall l | l in locks ensures l < WRITE_SLOTS {
      var chat :| chat in Chats(w) && Stripe(chat) == l;
      StripeIsLow(chat);
    }
    AppendIncreasing(locks, CAPACITY);
    assert locks + [] == locks;
    forall lock ensures lock in locks <==> exists chat :: chat in Chats(w) && chat * 21 % 1024 == lock {
      if chat :| chat in Chats(w) && chat * 21 % 1024 == lock {
        StripeIsLow(chat);
      }
      if lock in locks {
        var chat :| chat in Chats(w) && Stripe(chat) == lock;
        StripeIsLow(chat);
      }
    }
  }

  /** Only the low bits of chat and multiplier reach the stripe. */
  lemma StripeIsLow(chat: int)
    ensures Stripe(chat) == chat * 21 % 1024
  {
    var q := chat / TWO_64;
    var r := chat % TWO_64;
    assert chat == q * TWO_64 + r;
    var p := r * MULTIPLIER / TWO_64;
    assert r * MULTIPLIER == p * TWO_64 + r * MULTIPLIER % TWO_64;
    Congruent(r * MULTIPLIER % TWO_64, r * 21, r * ((MULTIPLIER - 21) / WRITE_SLOTS) - p * (TWO_64 / WRITE_SLOTS));
    Congruent(chat * 21, r * 21, 21 * q * (TWO_64 / WRITE_SLOTS));
  }

  lemma Congruent(a: int, b: int, k: int)
    requires a == b + k * WRITE_SLOTS
    ensures a % WRITE_SLOTS == b % WRITE_SLOTS
  {
    var d := a / WRITE_SLOTS - b / WRITE_SLOTS - k;
    assert d * WRITE_SLOTS == b % WRITE_SLOTS - a % WRITE_SLOTS;
  }

  /** The mask keeps the low bits of the product, so two chats share a stripe exactly when they agree modulo 1024. */
  lemma SameStripeIff(a: int, b: int)
    ensures Stripe(a) == Stripe(b) <==> a % 1024 == b % 1024
  {
    StripeIsLow(a);
    StripeIsLow(b);
    var i, j := a / WRITE_SLOTS, b / WRITE_SLOTS;
    if a % WRITE_SLOTS == b % WRITE_SLOTS {
      Congruent(a * 21, b * 21, 21 * (i - j));
    }
    if a * 21 % WRITE_SLOTS == b * 21 % WRITE_SLOTS {
      // 829 * 21 == 17 * 1024 + 1
      var m := a * 21 / WRITE_SLOTS - b * 21 / WRITE_SLOTS;
      assert a * 21 - b * 21 == m * WRITE_SLOTS;
      Congruent(a, b, 829 * m - 17 * (a - b));
    }
  }

  // ---------------------------------------------------------------- writers at work

  /** A writer and how many locks of its plan it holds. */
  datatype Task = Task(writer: Writer, held: nat)

  type State = map<nat, Task>

  datatype Move = Spawn(id: nat, writer: Writer) | Acquire(id: nat) | Finish(id: nat)

  predicate HoldsLock(task: Task, lock: nat) {
    exists i :: 0 <= i < task.held && i < |Plan(task.writer)| && Plan(task.writer)[i] == lock
  }

  predicate Free(s: State, lock: nat) {
    forall id :: id in s ==> !HoldsLock(s[id], lock)
  }

  predicate Full(task: Task) {
    task.held == |Plan(task.writer)|
  }

  predicate Enabled(s: State, move: Move) {
    match move
    case Spawn(id, _) => id !in s
    case Acquire(id) =>
      id in s && s[id].held < |Plan(s[id].writer)| && Free(s, Plan(s[id].writer)[s[id].held])
    case Finish(id) => id in s && Full(s[id])
  }

  function Step(s: State, move: Move): State
    requires Enabled(s, move)
  {
    match move
    case Spawn(id, w) => s[id := Task(w, 0)]
    case Acquire(id) => s[id := s[id].(held := s[id].held + 1)]
    case Finish(id) => s - {id}
  }

  ghost predicate Reaches(s: State, moves: seq<Move>, end: State)
    decreases |moves|
  {
    if moves == [] then s == end
    else Enabled(s, moves[0]) && Reaches(Step(s, moves[0]), moves[1..], end)
  }

  ghost predicate Exclusive(s: State) {
    && (forall id :: id in s ==> s[id].held <= |Plan(s[id].writer)|)
    && (forall a, b, lock :: a in s && b in s && a != b && HoldsLock(s[a], lock) ==> !HoldsLock(s[b], lock))
  }

  lemma AcquiredLocks(task: Task, lock: nat)
    requires task.held < |Plan(task.writer)|
    ensures HoldsLock(task.(held := task.held + 1), lock) <==> HoldsLock(task, lock) || lock == Plan(task.writer)[task.held]
  {
    hide Plan;
    var more := task.(held := task.held + 1);
    if lock == Plan(task.writer)[task.held] {
      assert Plan(more.writer)[task.held] == lock;
    }
  }

  lemma {:induction false} StepIsExclusive(s: State, move: Move)
    requires Exclusive(s) && Enabled(s, move)
    ensures Exclusive(Step(s, move))
  {
    hide Plan, HoldsLock;
    match move
    case Spawn(id, w) =>
      forall lock ensures !HoldsLock(Task(w, 0), lock) {
        NothingHeld(w, lock);
      }
    case Acquire(id) =>
      forall lock
        ensures HoldsLock(Step(s, move)[id], lock) <==> HoldsLock(s[id], lock) || lock == Plan(s[id].writer)[s[id].held]
      {
        AcquiredLocks(s[id], lock);
      }
    case Finish(id) =>
  }

  lemma NothingHeld(w: Writer, lock: nat)
    ensures !HoldsLock(Task(w, 0), lock)
  {
  }

  lemma {:induction false} RunIsExclusive(s: State, moves: seq<Move>, end: State)
    requires Exclusive(s) && Reaches(s, moves, end)
    ensures Exclusive(end)
    decreases |moves|
  {
    hide Exclusive, Enabled, Step;
    if moves != [] {
      StepIsExclusive(s, moves[0]);
      RunIsExclusive(Step(s, moves[0]), moves[1..], end);
    }
  }

  /** In every reachable state two writers that hold their whole plan share no chat and are not both counting. */
  lemma {:induction false} WritersAreApart(moves: seq<Move>, s: State, a: nat, b: nat)
    requires Reaches(map[], moves, s)
    requires a in s && b in s && a != b && Full(s[a]) && Full(s[b])
    ensures forall x, y :: x in Chats(s[a].writer) && y in Chats(s[b].writer) ==> x % WRITE_SLOTS != y % WRITE_SLOTS
    ensures !(CAPACITY in Plan(s[a].writer) && CAPACITY in Plan(s[b].writer))
  {
    hide Plan, Stripe, Reaches, Stripes;
    RunIsExclusive(map[], moves, s);
    PlanIsOrdered(s[a].writer);
    PlanIsOrdered(s[b].writer);
    forall lock | lock in Plan(s[a].writer) ensures lock !in Plan(s[b].writer) {
      FullHolds(s[a], lock);
      FullHolds(s[b], lock);
    }
    forall x, y | x in Chats(s[a].writer) && y in Chats(s[b].writer) ensures x % WRITE_SLOTS != y % WRITE_SLOTS {
      SameStripeIff(x, y);
    }
  }

  lemma FullHolds(task: Task, lock: nat)
    requires Full(task)
    ensures HoldsLock(task, lock) <==> lock in Plan(task.writer)
  {
    hide Plan;
  }

  // ---------------------------------------------------------------- no deadlock

  /** One past the highest lock a task holds. */
  function Rank(task: Task): nat
    requires task.held <= |Plan(task.writer)|
  {
    if task.held == 0 then 0 else Plan(task.writer)[task.held - 1] + 1
  }

  /** A task ranks above every lock it holds, and below every lock it still wants. */
  lemma RankBounds(task: Task, lock: nat)
    requires task.held <= |Plan(task.writer)|
    ensures HoldsLock(task, lock) ==> lock < Rank(task)
    ensures !Full(task) ==> Rank(task) <= Plan(task.writer)[task.held]
  {
    PlanIsOrdered(task.writer);
    hide Plan;
  }

  lemma {:induction false} HighestTask(s: State, ids: set<nat>) returns (top: nat)
    requires Exclusive(s) && ids <= s.Keys && ids != {}
    ensures top in ids && forall id :: id in ids ==> Rank(s[id]) <= Rank(s[top])
    decreases |ids|
  {
    hide Plan, HoldsLock, Rank;
    top :| top in ids;
    if ids != {top} {
      var other := HighestTask(s, ids - {top});
      if Rank(s[top]) <= Rank(s[other]) {
        top := other;
      }
    }
  }

  /** Whatever the writers hold, one of them can take its next lock or is ready to finish. */
  lemma {:induction false} SomeoneCanMove(s: State)
    requires Exclusive(s) && s != map[]
    ensures exists id :: id in s && (Enabled(s, Acquire(id)) || Enabled(s, Finish(id)))
  {
    hide Plan, HoldsLock, Rank;
    assert exists id :: id in s.Keys;
    var id := HighestTask(s, s.Keys);
    if !Full(s[id]) {
      var lock := Plan(s[id].writer)[s[id].held];
      RankBounds(s[id], lock);
      forall other | other in s ensures !HoldsLock(s[other], lock) {
        RankBounds(s[other], lock);
      }
      assert Enabled(s, Acquire(id));
    }
  }

  lemma {:induction false} NeverDeadlocked(moves: seq<Move>, s: State)
    requires Reaches(map[], moves, s) && s != map[]
    ensures exists id :: id in s && (Enabled(s, Acquire(id)) || Enabled(s, Finish(id)))
  {
    hide Exclusive, Enabled, Reaches;
    StartsExclusive();
    RunIsExclusive(map[], moves, s);
    SomeoneCanMove(s);
  }

  lemma StartsExclusive()
    ensures Exclusive(map[])
  {
  }

  // ---------------------------------------------------------------- every schedule ends

  function Left(task: Task): nat {
    if task.held <= |Plan(task.writer)| then |Plan(task.writer)| - task.held + 1 else 0
  }

  ghost function LeftOf(s: State): map<nat, nat> {
    map id | id in s :: Left(s[id])
  }

  /** The moves still to be made by the writers that are there. */
  ghost function Work(s: State): nat {
    Sum(LeftOf(s))
  }

  lemma {:induction false} MoveCosts(s: State, move: Move)
    requires Exclusive(s) && Enabled(s, move) && !move.Spawn?
    ensures Work(s) == Work(Step(s, move)) + 1
  {
    hide Plan, HoldsLock;
    var id := move.id;
    if move.Acquire? {
      SumUpdate(LeftOf(s), id, Left(Step(s, move)[id]));
      assert LeftOf(Step(s, move)) == LeftOf(s)[id := Left(Step(s, move)[id])];
    } else {
      SumDrop(LeftOf(s), id);
      assert LeftOf(Step(s, move)) == LeftOf(s) - {id};
    }
  }

  /** However the scheduler picks, without new writers every run ends after exactly `Work` moves, with all finished. */
  lemma {:induction false} EveryScheduleEnds(s: State, moves: seq<Move>, end: State)
    requires Exclusive(s) && Reaches(s, moves, end)
    requires forall i :: 0 <= i < |moves| ==> !moves[i].Spawn?
    ensures Work(s) == Work(end) + |moves|
    ensures end == map[] <==> |moves| == Work(s)
    decreases |moves|
  {
    hide Exclusive, Enabled, Step, Work, LeftOf;
    if moves == [] {
      NoWorkIffEmpty(s);
    } else {
      MoveCosts(s, moves[0]);
      StepIsExclusive(s, moves[0]);
      EveryScheduleEnds(Step(s, moves[0]), moves[1..], end);
    }
  }

  lemma {:induction false} NoWorkIffEmpty(s: State)
    requires Exclusive(s)
    ensures Work(s) == 0 <==> s == map[]
  {
    hide Plan, HoldsLock;
    if s == map[] {
      assert LeftOf(s) == map[];
    } else {
      var id :| id in s;
      SumAtLeast(LeftOf(s), id);
    }
  }
}
