/**
 The per-peer fair update scheduler of src/dispatcher.rs.

 `State` is what one dispatcher holds, the functions on it are its operations, and `Trace` adds what a
 caller saw: the items pushed, the items taken out of the queues, and how each task ended.
 The class below keeps the same state in fields and is proved to follow these functions.
 */
module Dispatch {
  import opened MapSum
  import opened Sequences

  datatype Config = Config(concurrency: nat, perPeer: nat, capacity: nat, laneCap: nat) {
    predicate Valid() {
      concurrency > 0 && perPeer > 0 && capacity > 0 && laneCap > 0
    }
  }

  datatype Lane<T> = Lane(pending: seq<T>, running: nat)

  datatype State<T> = State(
    lanes: map<int, Lane<T>>,
    ready: seq<int>,
    pending: nat,
    shed: nat,
    active: map<nat, int>,
    next: nat)

  datatype Item<T> = Item(key: int, value: T)

  datatype Removed<T> =
    | Started(key: int, value: T, id: nat)
    | Shed(key: int, value: T)
    | Dropped(key: int, value: T)

  /** `discarded` counts the items a shutdown dropped from the queues. */
  datatype Trace<T> = Trace(
    now: State<T>,
    pushed: seq<Item<T>>,
    removed: seq<Removed<T>>,
    finished: map<nat, bool>,
    discarded: nat)

  function Empty<T>(): State<T> {
    State(map[], [], 0, 0, map[], 0)
  }

  function LaneOf<T>(s: State<T>, key: int): Lane<T> {
    if key in s.lanes then s.lanes[key] else Lane([], 0)
  }

  predicate HasRoom(c: Config, s: State) {
    s.pending < c.capacity
  }

  predicate IsEmpty(s: State) {
    s.pending == 0 && s.active == map[]
  }

  // ---------------------------------------------------------------- the structural invariant

  predicate Runnable(c: Config, s: State, key: int) {
    key in s.lanes && s.lanes[key].pending != [] && s.lanes[key].running < c.perPeer
  }

  ghost function Sizes<T>(lanes: map<int, Lane<T>>): map<int, nat> {
    map key | key in lanes :: |lanes[key].pending|
  }

  function TasksOf(active: map<nat, int>, key: int): set<nat> {
    set id | id in active && active[id] == key
  }

  /** A key waits in `ready` exactly once if and only if its lane has work and a free slot. */
  ghost predicate ReadyInv<T>(c: Config, s: State<T>) {
    && Distinct(s.ready)
    && (forall key :: key in s.ready <==> Runnable(c, s, key))
  }

  /** `pending` is the sum of the lane queues, and no idle lane survives. */
  ghost predicate QueueInv<T>(c: Config, s: State<T>) {
    && s.pending == Sum(Sizes(s.lanes)) <= c.capacity
    && (forall key :: key in s.lanes ==> |s.lanes[key].pending| <= c.laneCap)
    && (forall key :: key in s.lanes ==> s.lanes[key].pending != [] || s.lanes[key].running > 0)
  }

  /** The active table agrees with every lane's `running`. */
  ghost predicate TaskInv<T>(c: Config, s: State<T>) {
    && |s.active| <= c.concurrency
    && (forall key :: |TasksOf(s.active, key)| == LaneOf(s, key).running)
    && (forall key :: key in s.lanes ==> s.lanes[key].running <= c.perPeer)
    && (forall id :: id in s.active ==> id < s.next)
  }

  ghost predicate Inv<T>(c: Config, s: State<T>) {
    c.Valid() && ReadyInv(c, s) && QueueInv(c, s) && TaskInv(c, s)
  }

  // ---------------------------------------------------------------- the operations

  function Push<T>(c: Config, s: State<T>, key: int, value: T): State<T>
    requires c.Valid() && HasRoom(c, s)
  {
    var lane := LaneOf(s, key);
    var full := |lane.pending| >= c.laneCap;
    var kept := if full then lane.pending[1..] else lane.pending;
    s.(lanes := s.lanes[key := Lane(kept + [value], lane.running)],
       ready := if lane.running < c.perPeer && lane.pending == [] then s.ready + [key] else s.ready,
       pending := if full then s.pending else s.pending + 1,
       shed := if full then s.shed + 1 else s.shed)
  }

  predicate CanStart(c: Config, s: State) {
    |s.active| < c.concurrency && s.ready != []
  }

  function Head<T>(s: State<T>): T
    requires s.ready != [] && LaneOf(s, s.ready[0]).pending != []
  {
    LaneOf(s, s.ready[0]).pending[0]
  }

  function StartOne<T>(c: Config, s: State<T>): State<T>
    requires s.ready != [] && LaneOf(s, s.ready[0]).pending != [] && s.pending > 0
  {
    var key := s.ready[0];
    var lane := Lane(LaneOf(s, key).pending[1..], LaneOf(s, key).running + 1);
    s.(lanes := s.lanes[key := lane],
       ready := if lane.running < c.perPeer && lane.pending != [] then s.ready[1..] + [key] else s.ready[1..],
       pending := s.pending - 1,
       active := s.active[s.next := key],
       next := s.next + 1)
  }

  function Complete<T>(c: Config, s: State<T>, id: nat): State<T>
    requires id in s.active && LaneOf(s, s.active[id]).running > 0
  {
    var key := s.active[id];
    var lane := Lane(LaneOf(s, key).pending, LaneOf(s, key).running - 1);
    s.(active := s.active - {id},
       lanes := if lane.pending == [] && lane.running == 0 then s.lanes - {key} else s.lanes[key := lane],
       ready := if lane.pending != [] && lane.running + 1 == c.perPeer then s.ready + [key] else s.ready)
  }

  // ---------------------------------------------------------------- the invariant is kept

  lemma RunningHasTask<T>(c: Config, s: State<T>, id: nat)
    requires Inv(c, s) && id in s.active
    ensures LaneOf(s, s.active[id]).running > 0
  {
    assert id in TasksOf(s.active, s.active[id]);
  }

  lemma ReadyHasWork<T>(c: Config, s: State<T>)
    requires Inv(c, s) && s.ready != []
    ensures Runnable(c, s, s.ready[0]) && s.pending > 0
  {
    assert s.ready[0] in s.ready;
    assert Runnable(c, s, s.ready[0]);
    SumAtLeast(Sizes(s.lanes), s.ready[0]);
  }

  lemma PendingCoversLane<T>(c: Config, s: State<T>, key: int)
    requires Inv(c, s)
    ensures c.Valid() && |LaneOf(s, key).pending| <= s.pending
  {
    SumAtLeast(Sizes(s.lanes), key);
  }

  lemma SetLane<T>(lanes: map<int, Lane<T>>, key: int, lane: Lane<T>)
    ensures Sum(Sizes(lanes[key := lane])) + (if key in lanes then |lanes[key].pending| else 0)
         == Sum(Sizes(lanes)) + |lane.pending|
  {
    assert Sizes(lanes[key := lane]) == Sizes(lanes)[key := |lane.pending|];
    SumUpdate(Sizes(lanes), key, |lane.pending|);
  }

  lemma AddTask(active: map<nat, int>, id: nat, key: int)
    requires id !in active
    ensures |active[id := key]| == |active| + 1
    ensures forall k :: |TasksOf(active[id := key], k)| == |TasksOf(active, k)| + if k == key then 1 else 0
  {
    forall k ensures |TasksOf(active[id := key], k)| == |TasksOf(active, k)| + if k == key then 1 else 0 {
      AddTaskOf(active, id, key, k);
    }
  }

  lemma AddTaskOf(active: map<nat, int>, id: nat, key: int, k: int)
    requires id !in active
    ensures |TasksOf(active[id := key], k)| == |TasksOf(active, k)| + if k == key then 1 else 0
  {
    var before, after := TasksOf(active, k), TasksOf(active[id := key], k);
    if k == key {
      assert after == before + {id};
    } else {
      assert after == before;
    }
  }

  lemma RemoveTask(active: map<nat, int>, id: nat)
    requires id in active
    ensures |active - {id}| == |active| - 1
    ensures forall k :: |TasksOf(active, k)| == |TasksOf(active - {id}, k)| + if k == active[id] then 1 else 0
  {
    AddTask(active - {id}, id, active[id]);
    assert (active - {id})[id := active[id]] == active;
  }

  lemma PushKeepsReady<T>(c: Config, s: State<T>, key: int, value: T)
    requires Inv(c, s) && HasRoom(c, s)
    ensures ReadyInv(c, Push(c, s, key, value))
  {
    var t := Push(c, s, key, value);
    assert key in s.ready <==> Runnable(c, s, key);
    forall k ensures k in t.ready <==> Runnable(c, t, k) {
      assert k in s.ready <==> Runnable(c, s, k);
    }
  }

  lemma PushKeepsQueues<T>(c: Config, s: State<T>, key: int, value: T)
    requires Inv(c, s) && HasRoom(c, s)
    ensures QueueInv(c, Push(c, s, key, value))
  {
    SetLane(s.lanes, key, Push(c, s, key, value).lanes[key]);
  }

  lemma PushKeepsTasks<T>(c: Config, s: State<T>, key: int, value: T)
    requires Inv(c, s) && HasRoom(c, s)
    ensures TaskInv(c, Push(c, s, key, value))
  {
    forall k ensures |TasksOf(s.active, k)| == LaneOf(Push(c, s, key, value), k).running {
      assert |TasksOf(s.active, k)| == LaneOf(s, k).running;
    }
  }

  lemma PushKeepsInv<T>(c: Config, s: State<T>, key: int, value: T)
    requires Inv(c, s) && HasRoom(c, s)
    ensures Inv(c, Push(c, s, key, value))
  {
    PushKeepsReady(c, s, key, value);
    PushKeepsQueues(c, s, key, value);
    PushKeepsTasks(c, s, key, value);
  }

  lemma StartKeepsReady<T>(c: Config, s: State<T>)
    requires Inv(c, s) && s.ready != [] && Runnable(c, s, s.ready[0]) && s.pending > 0
    ensures ReadyInv(c, StartOne(c, s))
  {
    var key, t := s.ready[0], StartOne(c, s);
    assert s.ready == [key] + s.ready[1..];
    forall k ensures k in t.ready <==> Runnable(c, t, k) {
      assert k in s.ready <==> Runnable(c, s, k);
      assert k in s.ready <==> k == key || k in s.ready[1..];
    }
  }

  lemma StartKeepsTasks<T>(c: Config, s: State<T>)
    requires Inv(c, s) && CanStart(c, s) && Runnable(c, s, s.ready[0]) && s.pending > 0
    ensures TaskInv(c, StartOne(c, s))
  {
    var key, t := s.ready[0], StartOne(c, s);
    AddTask(s.active, s.next, key);
    forall k ensures |TasksOf(t.active, k)| == LaneOf(t, k).running {
      assert |TasksOf(s.active, k)| == LaneOf(s, k).running;
    }
  }

  lemma StartKeepsInv<T>(c: Config, s: State<T>)
    requires Inv(c, s) && CanStart(c, s)
    ensures Runnable(c, s, s.ready[0]) && s.pending > 0
    ensures Inv(c, StartOne(c, s))
  {
    ReadyHasWork(c, s);
    StartKeepsReady(c, s);
    StartKeepsTasks(c, s);
    SetLane(s.lanes, s.ready[0], StartOne(c, s).lanes[s.ready[0]]);
  }

  lemma CompleteKeepsReady<T>(c: Config, s: State<T>, id: nat)
    requires Inv(c, s) && id in s.active && LaneOf(s, s.active[id]).running > 0
    ensures ReadyInv(c, Complete(c, s, id))
  {
    var key, t := s.active[id], Complete(c, s, id);
    assert key in s.ready <==> Runnable(c, s, key);
    forall k ensures k in t.ready <==> Runnable(c, t, k) {
      assert k in s.ready <==> Runnable(c, s, k);
    }
  }

  lemma CompleteKeepsTasks<T>(c: Config, s: State<T>, id: nat)
    requires Inv(c, s) && id in s.active && LaneOf(s, s.active[id]).running > 0
    ensures TaskInv(c, Complete(c, s, id))
  {
    var key, t := s.active[id], Complete(c, s, id);
    RemoveTask(s.active, id);
  }

  lemma CompleteKeepsQueues<T>(c: Config, s: State<T>, id: nat)
    requires Inv(c, s) && id in s.active && LaneOf(s, s.active[id]).running > 0
    ensures QueueInv(c, Complete(c, s, id))
  {
    var key, t := s.active[id], Complete(c, s, id);
    if key in t.lanes {
      SetLane(s.lanes, key, t.lanes[key]);
    } else {
      assert Sizes(t.lanes) == Sizes(s.lanes) - {key};
      SumDrop(Sizes(s.lanes), key);
    }
  }

  lemma CompleteKeepsInv<T>(c: Config, s: State<T>, id: nat)
    requires Inv(c, s) && id in s.active
    ensures LaneOf(s, s.active[id]).running > 0
    ensures Inv(c, Complete(c, s, id))
  {
    RunningHasTask(c, s, id);
    CompleteKeepsReady(c, s, id);
    CompleteKeepsTasks(c, s, id);
    CompleteKeepsQueues(c, s, id);
  }

  // ---------------------------------------------------------------- runs

  /** One atomic move of a dispatcher: an admission, one turn of the `start` loop, or one task's end. */
  datatype Op<T> =
    | PushOp(key: int, value: T)
    | StartOp
    | FinishOp(id: nat, ok: bool)

  predicate Enabled<T>(c: Config, s: State<T>, op: Op<T>) {
    match op
    case PushOp(_, _) => HasRoom(c, s)
    case StartOp => CanStart(c, s)
    case FinishOp(id, _) => id in s.active
  }

  function NewTrace<T>(): Trace<T> {
    Trace(Empty(), [], [], map[], 0)
  }

  ghost predicate Good<T>(c: Config, t: Trace<T>) {
    && Inv(c, t.now)
    && Conserved(t)
    && Accounted(t)
  }

  lemma GoodHasInv<T>(c: Config, t: Trace<T>)
    requires Good(c, t)
    ensures Inv(c, t.now)
  {
  }

  function Step<T>(c: Config, t: Trace<T>, op: Op<T>): Trace<T>
    requires Inv(c, t.now) && Enabled(c, t.now, op)
  {
    match op
    case PushOp(key, value) =>
      var queue := LaneOf(t.now, key).pending;
      t.(now := Push(c, t.now, key, value),
         pushed := t.pushed + [Item(key, value)],
         removed := if |queue| >= c.laneCap then t.removed + [Shed(key, queue[0])] else t.removed)
    case StartOp =>
      ReadyHasWork(c, t.now);
      t.(now := StartOne(c, t.now),
         removed := t.removed + [Started(t.now.ready[0], Head(t.now), t.now.next)])
    case FinishOp(id, ok) =>
      RunningHasTask(c, t.now, id);
      t.(now := Complete(c, t.now, id), finished := t.finished[id := ok])
  }

  lemma StepKeepsInv<T>(c: Config, t: Trace<T>, op: Op<T>)
    requires Inv(c, t.now) && Enabled(c, t.now, op)
    ensures Inv(c, Step(c, t, op).now)
  {
    match op
    case PushOp(key, value) => PushKeepsInv(c, t.now, key, value);
    case StartOp => StartKeepsInv(c, t.now);
    case FinishOp(id, _) => CompleteKeepsInv(c, t.now, id);
  }

  /** Every operation of `ops` is allowed where it happens. */
  ghost predicate Possible<T>(c: Config, t: Trace<T>, ops: seq<Op<T>>)
    requires Inv(c, t.now)
    decreases |ops|
  {
    ops == [] ||
    (Enabled(c, t.now, ops[0]) &&
     (StepKeepsInv(c, t, ops[0]); Possible(c, Step(c, t, ops[0]), ops[1..])))
  }

  ghost function Run<T>(c: Config, t: Trace<T>, ops: seq<Op<T>>): (r: Trace<T>)
    requires Inv(c, t.now) && Possible(c, t, ops)
    ensures Inv(c, r.now)
    decreases |ops|
  {
    if ops == [] then t
    else
      StepKeepsInv(c, t, ops[0]);
      Run(c, Step(c, t, ops[0]), ops[1..])
  }

  // ---------------------------------------------------------------- order and conservation

  /** The values pushed for one peer, in order. */
  function PushedFor<T>(key: int, items: seq<Item<T>>): seq<T> {
    if items == [] then []
    else
      PushedFor(key, items[..|items| - 1]) + if items[|items| - 1].key == key then [items[|items| - 1].value] else []
  }

  /** The values one peer lost to a start or to shedding, in order. */
  function RemovedFor<T>(key: int, gone: seq<Removed<T>>): seq<T> {
    if gone == [] then []
    else
      RemovedFor(key, gone[..|gone| - 1]) + if gone[|gone| - 1].key == key then [gone[|gone| - 1].value] else []
  }

  function ShedCount<T>(gone: seq<Removed<T>>): nat {
    if gone == [] then 0
    else ShedCount(gone[..|gone| - 1]) + if gone[|gone| - 1].Shed? then 1 else 0
  }

  function DropCount<T>(gone: seq<Removed<T>>): nat {
    if gone == [] then 0
    else DropCount(gone[..|gone| - 1]) + if gone[|gone| - 1].Dropped? then 1 else 0
  }

  predicate ConservedFor<T(==)>(t: Trace<T>, key: int) {
    PushedFor(key, t.pushed) == RemovedFor(key, t.removed) + LaneOf(t.now, key).pending
  }

  /**
   What was pushed for a peer is what left its lane, in the same order, followed by what still waits. So starts are
   first-in first-out within a peer and nothing is lost or invented.
   */
  ghost predicate Conserved<T>(t: Trace<T>) {
    && (forall key :: ConservedFor(t, key))
    && |t.pushed| == |t.removed| + t.now.pending
    && ShedCount(t.removed) == t.now.shed
    && DropCount(t.removed) == t.discarded
  }

  /** Every id drawn so far is a running or a finished task, and no id is both. */
  ghost predicate Tracked(active: map<nat, int>, finished: map<nat, bool>, next: nat) {
    && active.Keys !! finished.Keys
    && (forall id: nat :: id in active || id in finished <==> id < next)
  }

  /** Starts draw their ids in order. */
  ghost predicate Ascending<T>(gone: seq<Removed<T>>, next: nat) {
    && (forall i :: 0 <= i < |gone| && gone[i].Started? ==> gone[i].id < next)
    && (forall i, j :: 0 <= i < j < |gone| && gone[i].Started? && gone[j].Started? ==> gone[i].id < gone[j].id)
  }

  /** Each start has its own task, which is either running or finished. */
  ghost predicate Accounted<T>(t: Trace<T>) {
    && Tracked(t.now.active, t.finished, t.now.next)
    && Ascending(t.removed, t.now.next)
    && |t.removed| == t.now.next + t.now.shed + t.discarded
  }

  lemma PushedForAppend<T>(key: int, items: seq<Item<T>>, item: Item<T>)
    ensures PushedFor(key, items + [item]) == PushedFor(key, items) + if item.key == key then [item.value] else []
  {
    assert (items + [item])[..|items|] == items;
  }

  lemma RemovedForAppend<T>(key: int, gone: seq<Removed<T>>, item: Removed<T>)
    ensures RemovedFor(key, gone + [item]) == RemovedFor(key, gone) + if item.key == key then [item.value] else []
    ensures ShedCount(gone + [item]) == ShedCount(gone) + if item.Shed? then 1 else 0
    ensures DropCount(gone + [item]) == DropCount(gone) + if item.Dropped? then 1 else 0
  {
    assert (gone + [item])[..|gone|] == gone;
  }

  /** A push seen from one peer's lane: its own, or another that does not change. */
  lemma PushedLane<T>(c: Config, s: State<T>, key: int, value: T, k: int)
    requires c.Valid() && HasRoom(c, s)
    ensures
      var (queue, after) := (LaneOf(s, k).pending, LaneOf(Push(c, s, key, value), k).pending);
      if k != key then after == queue
      else if |queue| >= c.laneCap then queue != [] && [queue[0]] + after == queue + [value]
      else after == queue + [value]
  {
  }

  lemma PushConservesFor<T>(c: Config, t: Trace<T>, key: int, value: T, k: int)
    requires Inv(c, t.now) && HasRoom(c, t.now) && ConservedFor(t, k)
    ensures ConservedFor(Step(c, t, PushOp(key, value)), k)
  {
    hide PushedFor, RemovedFor, ShedCount, LaneOf, ReadyInv, QueueInv, TaskInv, Push;
    PushedForAppend(k, t.pushed, Item(key, value));
    PushedLane(c, t.now, key, value, key);
    PushedLane(c, t.now, key, value, k);
    var queue := LaneOf(t.now, key).pending;
    if |queue| >= c.laneCap {
      RemovedForAppend(k, t.removed, Shed(key, queue[0]));
      var gone, after := RemovedFor(k, t.removed), LaneOf(Push(c, t.now, key, value), key).pending;
      assert gone + [queue[0]] + after == gone + ([queue[0]] + after);
      assert gone + (queue + [value]) == gone + queue + [value];
    }
  }

  /** A start seen from one peer's lane: the one served loses its oldest item, the others stay. */
  lemma StartedLane<T>(c: Config, s: State<T>, k: int)
    requires Inv(c, s) && CanStart(c, s)
    ensures LaneOf(s, s.ready[0]).pending != [] && s.pending > 0
    ensures
      var (queue, after) := (LaneOf(s, k).pending, LaneOf(StartOne(c, s), k).pending);
      if k == s.ready[0] then queue == [Head(s)] + after else after == queue
  {
    ReadyHasWork(c, s);
  }

  lemma StartConservesFor<T>(c: Config, t: Trace<T>, k: int)
    requires Inv(c, t.now) && CanStart(c, t.now) && ConservedFor(t, k)
    ensures ConservedFor(Step(c, t, StartOp), k)
  {
    hide PushedFor, RemovedFor, ShedCount, DropCount, LaneOf, Inv, StartOne;
    ReadyHasWork(c, t.now);
    StartedLane(c, t.now, k);
    var item := Started(t.now.ready[0], Head(t.now), t.now.next);
    RemovedForAppend(k, t.removed, item);
    var gone, after := RemovedFor(k, t.removed), LaneOf(StartOne(c, t.now), k).pending;
    assert gone + [item.value] + after == gone + ([item.value] + after);
  }

  /** An end changes no queue. */
  lemma FinishedLane<T>(c: Config, s: State<T>, id: nat, k: int)
    requires Inv(c, s) && id in s.active
    ensures s.active[id] in s.lanes && s.lanes[s.active[id]].running > 0
    ensures LaneOf(Complete(c, s, id), k).pending == LaneOf(s, k).pending
  {
    RunningHasTask(c, s, id);
  }

  lemma FinishConservesFor<T>(c: Config, t: Trace<T>, id: nat, ok: bool, k: int)
    requires Inv(c, t.now) && id in t.now.active && ConservedFor(t, k)
    ensures ConservedFor(Step(c, t, FinishOp(id, ok)), k)
  {
    hide PushedFor, RemovedFor, LaneOf, Inv, Complete;
    FinishedLane(c, t.now, id, k);
  }

  lemma StepConservesFor<T>(c: Config, t: Trace<T>, op: Op<T>, k: int)
    requires Inv(c, t.now) && ConservedFor(t, k) && Enabled(c, t.now, op)
    ensures ConservedFor(Step(c, t, op), k)
  {
    hide ConservedFor, Step, Inv;
    match op
    case PushOp(key, value) => PushConservesFor(c, t, key, value, k);
    case StartOp => StartConservesFor(c, t, k);
    case FinishOp(id, ok) => FinishConservesFor(c, t, id, ok, k);
  }

  /** The totals of `Conserved`. */
  lemma StepConservesTotals<T>(c: Config, t: Trace<T>, op: Op<T>)
    requires Inv(c, t.now) && Conserved(t) && Enabled(c, t.now, op)
    ensures
      var u := Step(c, t, op);
      |u.pushed| == |u.removed| + u.now.pending && ShedCount(u.removed) == u.now.shed && DropCount(u.removed) == u.discarded
  {
    hide ConservedFor, ReadyInv, QueueInv, TaskInv, ShedCount, DropCount, RemovedFor;
    match op
    case PushOp(key, value) =>
      var queue := LaneOf(t.now, key).pending;
      if |queue| >= c.laneCap {
        RemovedForAppend(key, t.removed, Shed(key, queue[0]));
      }
    case StartOp =>
      ReadyHasWork(c, t.now);
      RemovedForAppend(0, t.removed, Started(t.now.ready[0], Head(t.now), t.now.next));
    case FinishOp(id, _) => RunningHasTask(c, t.now, id);
  }

  lemma StepConserves<T>(c: Config, t: Trace<T>, op: Op<T>)
    requires Inv(c, t.now) && Conserved(t) && Enabled(c, t.now, op)
    ensures Conserved(Step(c, t, op))
  {
    hide ConservedFor, Inv, Step;
    StepConservesTotals(c, t, op);
    forall k ensures ConservedFor(Step(c, t, op), k) {
      StepConservesFor(c, t, op, k);
    }
  }

  lemma AscendingStart<T>(gone: seq<Removed<T>>, next: nat, key: int, value: T)
    requires Ascending(gone, next)
    ensures Ascending(gone + [Started(key, value, next)], next + 1)
  {
  }

  lemma AscendingOther<T>(gone: seq<Removed<T>>, next: nat, item: Removed<T>)
    requires Ascending(gone, next) && !item.Started?
    ensures Ascending(gone + [item], next)
  {
  }

  lemma PushKeepsAccounted<T>(c: Config, t: Trace<T>, key: int, value: T)
    requires Inv(c, t.now) && Accounted(t) && HasRoom(c, t.now)
    ensures Accounted(Step(c, t, PushOp(key, value)))
  {
    hide ReadyInv, QueueInv, TaskInv, Tracked, Ascending;
    var queue := LaneOf(t.now, key).pending;
    if |queue| >= c.laneCap {
      AscendingOther(t.removed, t.now.next, Shed(key, queue[0]));
    }
  }

  lemma StartKeepsAccounted<T>(c: Config, t: Trace<T>)
    requires Inv(c, t.now) && Accounted(t) && CanStart(c, t.now)
    ensures Accounted(Step(c, t, StartOp))
  {
    hide Inv, Ascending;
    ReadyHasWork(c, t.now);
    AscendingStart(t.removed, t.now.next, t.now.ready[0], Head(t.now));
  }

  lemma FinishKeepsAccounted<T>(c: Config, t: Trace<T>, id: nat, ok: bool)
    requires Inv(c, t.now) && Accounted(t) && id in t.now.active
    ensures Accounted(Step(c, t, FinishOp(id, ok)))
  {
    hide Inv, Ascending;
    RunningHasTask(c, t.now, id);
  }

  lemma StepKeepsAccounted<T>(c: Config, t: Trace<T>, op: Op<T>)
    requires Inv(c, t.now) && Accounted(t) && Enabled(c, t.now, op)
    ensures Accounted(Step(c, t, op))
  {
    hide Inv, Accounted, Step;
    match op
    case PushOp(key, value) => PushKeepsAccounted(c, t, key, value);
    case StartOp => StartKeepsAccounted(c, t);
    case FinishOp(id, ok) => FinishKeepsAccounted(c, t, id, ok);
  }

  lemma StepKeepsGood<T>(c: Config, t: Trace<T>, op: Op<T>)
    requires Good(c, t) && Enabled(c, t.now, op)
    ensures Good(c, Step(c, t, op))
  {
    hide Inv, Conserved, Accounted, Step;
    StepKeepsInv(c, t, op);
    StepKeepsAccounted(c, t, op);
    StepConserves(c, t, op);
  }

  /** Structure, order, conservation and task accounting hold after every possible run of operations. */
  lemma {:induction false} RunKeepsGood<T>(c: Config, t: Trace<T>, ops: seq<Op<T>>)
    requires Good(c, t) && Possible(c, t, ops)
    ensures Good(c, Run(c, t, ops))
    decreases |ops|
  {
    if ops != [] {
      StepKeepsGood(c, t, ops[0]);
      RunKeepsGood(c, Step(c, t, ops[0]), ops[1..]);
    }
  }

  lemma NewTraceIsGood<T>(c: Config)
    requires c.Valid()
    ensures Good(c, NewTrace<T>())
  {
    var t := NewTrace<T>();
    assert Sizes(t.now.lanes) == map[];
    forall k ensures |TasksOf(t.now.active, k)| == LaneOf(t.now, k).running {
      assert TasksOf(t.now.active, k) == {};
    }
  }

  // ---------------------------------------------------------------- dropping the queues

  function DroppedAll<T>(key: int, values: seq<T>): seq<Removed<T>> {
    if values == [] then []
    else DroppedAll(key, values[..|values| - 1]) + [Dropped(key, values[|values| - 1])]
  }

  lemma SomeLane<T>(lanes: map<int, Lane<T>>)
    requires lanes != map[]
    ensures exists key :: key in lanes
  {
    var key := SomeKey(lanes);
  }

  /** What waits in the lanes, lane by lane, as dropped items. */
  ghost function Discards<T>(lanes: map<int, Lane<T>>): seq<Removed<T>>
    decreases |lanes|
  {
    if lanes == map[] then []
    else
      SomeLane(lanes);
      var key :| key in lanes;
      Discards(lanes - {key}) + DroppedAll(key, lanes[key].pending)
  }

  ghost function Cleared<T>(t: Trace<T>): Trace<T> {
    t.(now := t.now.(lanes := map[], ready := [], pending := 0),
       removed := t.removed + Discards(t.now.lanes),
       discarded := t.discarded + t.now.pending)
  }

  lemma {:induction false} RemovedForConcat<T>(k: int, a: seq<Removed<T>>, b: seq<Removed<T>>)
    ensures RemovedFor(k, a + b) == RemovedFor(k, a) + RemovedFor(k, b)
    ensures ShedCount(a + b) == ShedCount(a) + ShedCount(b) && DropCount(a + b) == DropCount(a) + DropCount(b)
  {
    hide RemovedFor, ShedCount, DropCount;
    if b == [] {
      assert a + b == a;
      NoneRemoved<T>(k);
    } else {
      var front, last := b[..|b| - 1], b[|b| - 1];
      RemovedForConcat(k, a, front);
      RemovedForAppend(k, a + front, last);
      RemovedForAppend(k, front, last);
      assert a + b == a + front + [last] && b == front + [last];
    }
  }

  lemma NoneRemoved<T>(k: int)
    ensures RemovedFor<T>(k, []) == [] && ShedCount<T>([]) == 0 && DropCount<T>([]) == 0
  {
  }

  lemma {:induction false} DroppedLane<T>(key: int, values: seq<T>, k: int)
    ensures var gone := DroppedAll(key, values);
      && RemovedFor(k, gone) == (if k == key then values else [])
      && ShedCount(gone) == 0 && DropCount(gone) == |gone| == |values|
      && forall i :: 0 <= i < |gone| ==> gone[i].Dropped?
  {
    hide RemovedFor, ShedCount, DropCount;
    if values == [] {
      NoneRemoved<T>(k);
    } else {
      var front, last := values[..|values| - 1], values[|values| - 1];
      DroppedLane(key, front, k);
      RemovedForAppend(k, DroppedAll(key, front), Dropped(key, last));
      hide DroppedAll;
      assert values == front + [last];
    }
  }

  lemma {:induction false} DiscardsEachLane<T>(lanes: map<int, Lane<T>>, k: int)
    ensures var gone := Discards(lanes);
      && RemovedFor(k, gone) == (if k in lanes then lanes[k].pending else [])
      && ShedCount(gone) == 0 && DropCount(gone) == |gone| == Sum(Sizes(lanes))
      && forall i :: 0 <= i < |gone| ==> gone[i].Dropped?
    decreases |lanes|
  {
    hide RemovedFor, ShedCount, DropCount, DroppedAll, Sum;
    if lanes == map[] {
      NoneRemoved<T>(k);
      assert Sizes(lanes) == map[];
      SumZero(Sizes(lanes));
    } else {
      SomeLane(lanes);
      var key :| key in lanes && Discards(lanes) == Discards(lanes - {key}) + DroppedAll(key, lanes[key].pending);
      DiscardsEachLane(lanes - {key}, k);
      DroppedLane(key, lanes[key].pending, k);
      RemovedForConcat(k, Discards(lanes - {key}), DroppedAll(key, lanes[key].pending));
      SumWithout(Sizes(lanes), key);
      assert Sizes(lanes) - {key} == Sizes(lanes - {key});
    }
  }

  lemma {:induction false} NoneDropped<T>(gone: seq<Removed<T>>)
    requires DropCount(gone) == 0
    ensures forall i :: 0 <= i < |gone| ==> !gone[i].Dropped?
  {
    if gone != [] {
      NoneDropped(gone[..|gone| - 1]);
    }
  }

  lemma AscendingDrops<T>(gone: seq<Removed<T>>, more: seq<Removed<T>>, next: nat)
    requires Ascending(gone, next) && forall i :: 0 <= i < |more| ==> more[i].Dropped?
    ensures Ascending(gone + more, next)
  {
  }

  lemma ClearKeepsInv<T>(c: Config, s: State<T>)
    requires Inv(c, s) && s.active == map[]
    ensures Inv(c, s.(lanes := map[], ready := [], pending := 0))
  {
    var clear := s.(lanes := map[], ready := [], pending := 0);
    assert Sizes(clear.lanes) == map[];
    forall k ensures |TasksOf(clear.active, k)| == LaneOf(clear, k).running {
      assert TasksOf(clear.active, k) == {};
    }
  }

  /** Dropping the queues once no task runs keeps everything in order, with each dropped item on record. */
  lemma ClearKeepsGood<T>(c: Config, t: Trace<T>)
    requires Good(c, t) && t.now.active == map[]
    ensures Good(c, Cleared(t))
  {
    hide RemovedFor, ShedCount, DropCount, PushedFor, Discards, Ascending, Tracked, ReadyInv, TaskInv;
    ClearKeepsInv(c, t.now);
    DiscardsEachLane(t.now.lanes, 0);
    RemovedForConcat(0, t.removed, Discards(t.now.lanes));
    AscendingDrops(t.removed, Discards(t.now.lanes), t.now.next);
    forall key ensures ConservedFor(Cleared(t), key) {
      assert ConservedFor(t, key);
      DiscardsEachLane(t.now.lanes, key);
      RemovedForConcat(key, t.removed, Discards(t.now.lanes));
    }
  }

  /** A lane keeps its newest `laneCap` items and touches no other lane, so only the oldest of a full lane is shed. */
  lemma PushKeepsNewest<T>(c: Config, s: State<T>, key: int, value: T)
    requires Inv(c, s) && HasRoom(c, s)
    ensures var all := LaneOf(s, key).pending + [value];
            LaneOf(Push(c, s, key, value), key).pending == if |all| <= c.laneCap then all else all[|all| - c.laneCap..]
    ensures forall k :: k != key ==> LaneOf(Push(c, s, key, value), k) == LaneOf(s, k)
  {
    var all := LaneOf(s, key).pending + [value];
    if |all| > c.laneCap {
      assert all[1..] == LaneOf(s, key).pending[1..] + [value];
    }
  }

  // ---------------------------------------------------------------- fairness

  /** The peers served by the starts of a run, in order. */
  ghost function Served<T>(c: Config, t: Trace<T>, ops: seq<Op<T>>): seq<int>
    requires Inv(c, t.now) && Possible(c, t, ops)
    decreases |ops|
  {
    if ops == [] then []
    else
      StepKeepsInv(c, t, ops[0]);
      (if ops[0].StartOp? then [t.now.ready[0]] else []) + Served(c, Step(c, t, ops[0]), ops[1..])
  }

  /** A start takes the front of the ready queue; beyond that the queue only grows at its end. */
  lemma ReadyMoves<T>(c: Config, t: Trace<T>, op: Op<T>)
    requires Inv(c, t.now) && Enabled(c, t.now, op)
    ensures if op.StartOp? then t.now.ready[1..] <= Step(c, t, op).now.ready else t.now.ready <= Step(c, t, op).now.ready
  {
    hide ReadyInv, QueueInv, TaskInv, LaneOf;
    match op
    case PushOp(_, _) =>
    case StartOp => ReadyHasWork(c, t.now);
    case FinishOp(id, _) => RunningHasTask(c, t.now, id);
  }

  /**
   The next starts serve the ready queue front to back, whatever is pushed or finishes in between. So the peer at
   position `i` is served by the start numbered `i`, however other peers flood.
   */
  lemma {:induction false} StartsServeReadyInOrder<T>(c: Config, t: Trace<T>, ops: seq<Op<T>>, i: nat)
    requires Inv(c, t.now) && Possible(c, t, ops)
    requires i < |t.now.ready| && i < |Served(c, t, ops)|
    ensures Served(c, t, ops)[i] == t.now.ready[i]
    decreases |ops|
  {
    hide Inv, Step, Enabled;
    StepKeepsInv(c, t, ops[0]);
    ReadyMoves(c, t, ops[0]);
    if !ops[0].StartOp? {
      StartsServeReadyInOrder(c, Step(c, t, ops[0]), ops[1..], i);
    } else if i > 0 {
      StartsServeReadyInOrder(c, Step(c, t, ops[0]), ops[1..], i - 1);
    }
  }

  // ---------------------------------------------------------------- what a run has on record

  /** What a run pushes, in order. */
  function Pushes<T>(ops: seq<Op<T>>): seq<Item<T>> {
    if ops == [] then []
    else (if ops[0].PushOp? then [Item(ops[0].key, ops[0].value)] else []) + Pushes(ops[1..])
  }

  /** The peers whose items were started, in order. */
  function StartedKeys<T>(gone: seq<Removed<T>>): seq<int> {
    if gone == [] then []
    else
      StartedKeys(gone[..|gone| - 1]) + if gone[|gone| - 1].Started? then [gone[|gone| - 1].key] else []
  }

  lemma StartedMore<T>(gone: seq<Removed<T>>, item: Removed<T>)
    ensures StartedKeys(gone + [item]) == StartedKeys(gone) + if item.Started? then [item.key] else []
  {
    assert (gone + [item])[..|gone|] == gone;
  }

  /** What one operation puts on record. */
  lemma StepRecords<T>(c: Config, t: Trace<T>, op: Op<T>)
    requires Inv(c, t.now) && Enabled(c, t.now, op)
    ensures var u := Step(c, t, op);
      && u.pushed == t.pushed + (if op.PushOp? then [Item(op.key, op.value)] else [])
      && StartedKeys(u.removed) == StartedKeys(t.removed) + (if op.StartOp? then [t.now.ready[0]] else [])
      && u.finished == (if op.FinishOp? then t.finished[op.id := op.ok] else t.finished)
      && u.discarded == t.discarded
  {
    hide StartedKeys, Inv;
    match op
    case PushOp(key, _) =>
      var queue := LaneOf(t.now, key).pending;
      if |queue| >= c.laneCap {
        InvIsValid(c, t.now);
        StartedMore(t.removed, Shed(key, queue[0]));
      }
    case StartOp =>
      ReadyHasWork(c, t.now);
      StartedMore(t.removed, Started(t.now.ready[0], Head(t.now), t.now.next));
    case FinishOp(_, _) =>
  }

  lemma InvIsValid<T>(c: Config, s: State<T>)
    requires Inv(c, s)
    ensures c.Valid()
  {
  }

  /** A task that has ended ends only once. */
  lemma {:induction false} EndsStay<T>(c: Config, t: Trace<T>, ops: seq<Op<T>>, id: nat)
    requires Good(c, t) && Possible(c, t, ops) && id in t.finished
    ensures id in Run(c, t, ops).finished && Run(c, t, ops).finished[id] == t.finished[id]
    decreases |ops|
  {
    if ops != [] {
      StepKeepsGood(c, t, ops[0]);
      StepRecords(c, t, ops[0]);
      EndedIsGone(c, t, id);
      EndsStay(c, Step(c, t, ops[0]), ops[1..], id);
    }
  }

  lemma EndedIsGone<T>(c: Config, t: Trace<T>, id: nat)
    requires Good(c, t) && id in t.finished
    ensures id !in t.now.active
  {
    assert Tracked(t.now.active, t.finished, t.now.next);
  }

  /** After a run: everything it pushed was pushed, in order; its starts served these peers; each task ended as it did. */
  lemma {:induction false} RunRecords<T>(c: Config, t: Trace<T>, ops: seq<Op<T>>)
    requires Good(c, t) && Possible(c, t, ops)
    ensures var r := Run(c, t, ops);
      && r.pushed == t.pushed + Pushes(ops)
      && StartedKeys(r.removed) == StartedKeys(t.removed) + Served(c, t, ops)
      && r.discarded == t.discarded
      && forall id, ok :: FinishOp(id, ok) in ops ==> id in r.finished && r.finished[id] == ok
    decreases |ops|
  {
    hide Good, Inv, Step, Enabled, StartedKeys;
    if ops != [] {
      GoodHasInv(c, t);
      var u := Step(c, t, ops[0]);
      StepKeepsGood(c, t, ops[0]);
      StepRecords(c, t, ops[0]);
      RunRecords(c, u, ops[1..]);
      forall id, ok | FinishOp(id, ok) in ops
        ensures id in Run(c, t, ops).finished && Run(c, t, ops).finished[id] == ok
      {
        if FinishOp(id, ok) == ops[0] {
          EndsStay(c, u, ops[1..], id);
        } else {
          assert FinishOp(id, ok) in ops[1..];
        }
      }
    }
  }

  /** There is room exactly while fewer items wait in all lanes together than the capacity. */
  lemma RoomIffFewer<T>(c: Config, s: State<T>)
    requires Inv(c, s)
    ensures HasRoom(c, s) <==> Sum(Sizes(s.lanes)) < c.capacity
  {
    hide ReadyInv, TaskInv;
  }

  // ---------------------------------------------------------------- progress

  function Load(s: State): nat {
    s.pending + |s.active|
  }

  /** What one call of `start` does: it starts items until it may not. */
  ghost function Settle<T>(c: Config, t: Trace<T>): (r: Trace<T>)
    requires Inv(c, t.now)
    ensures Inv(c, r.now) && !CanStart(c, r.now) && Load(r.now) == Load(t.now) && r.now.pending <= t.now.pending
    decreases t.now.pending
  {
    if !CanStart(c, t.now) then t
    else
      StepKeepsInv(c, t, StartOp);
      ReadyHasWork(c, t.now);
      Settle(c, Step(c, t, StartOp))
  }

  lemma {:induction false} SettleKeepsGood<T>(c: Config, t: Trace<T>)
    requires Good(c, t)
    ensures Good(c, Settle(c, t))
    ensures Settle(c, t).pushed == t.pushed && Settle(c, t).finished == t.finished && Settle(c, t).discarded == t.discarded
    ensures forall id :: id in t.now.active ==> id in Settle(c, t).now.active
    decreases t.now.pending
  {
    if CanStart(c, t.now) {
      StepKeepsGood(c, t, StartOp);
      ReadyHasWork(c, t.now);
      SettleKeepsGood(c, Step(c, t, StartOp));
    }
  }

  /** After `start` every worker is busy, or every peer with waiting work already runs as many items as it may. */
  lemma StartIsMaximal<T>(c: Config, s: State<T>)
    requires Inv(c, s) && !CanStart(c, s)
    ensures |s.active| == c.concurrency
         || forall key :: key in s.lanes && s.lanes[key].pending != [] ==> s.lanes[key].running == c.perPeer
  {
    if |s.active| < c.concurrency {
      forall key | key in s.lanes && s.lanes[key].pending != [] ensures s.lanes[key].running == c.perPeer {
        assert !(key in s.ready);
      }
    }
  }

  lemma {:induction false} WaitingHasLane<T>(lanes: map<int, Lane<T>>)
    requires Sum(Sizes(lanes)) > 0
    ensures exists key :: key in lanes && lanes[key].pending != []
  {
    if forall key :: key in lanes ==> lanes[key].pending == [] {
      SumZero(Sizes(lanes));
    }
  }

  /** A dispatcher that still holds work always has a running task to wait for once `start` returned. */
  lemma NonEmptyHasTask<T>(c: Config, s: State<T>)
    requires Inv(c, s) && !CanStart(c, s) && !IsEmpty(s)
    ensures s.active != map[]
  {
    if s.pending > 0 {
      WaitingHasLane(s.lanes);
      var key :| key in s.lanes && s.lanes[key].pending != [];
      assert key in s.ready <==> Runnable(c, s, key);
      assert |TasksOf(s.active, key)| == LaneOf(s, key).running;
    }
  }

  /** A drain: call `start`, wait for some task, repeat. `ends` lists the tasks in the order they end. */
  ghost predicate CanDrain<T>(c: Config, t: Trace<T>, ends: seq<(nat, bool)>)
    requires Inv(c, t.now)
    decreases |ends|
  {
    ends == [] ||
    (ends[0].0 in Settle(c, t).now.active &&
     (StepKeepsInv(c, Settle(c, t), FinishOp(ends[0].0, ends[0].1));
      CanDrain(c, Step(c, Settle(c, t), FinishOp(ends[0].0, ends[0].1)), ends[1..])))
  }

  ghost function Drained<T>(c: Config, t: Trace<T>, ends: seq<(nat, bool)>): (r: Trace<T>)
    requires Inv(c, t.now) && CanDrain(c, t, ends)
    ensures Inv(c, r.now)
    decreases |ends|
  {
    if ends == [] then t
    else
      StepKeepsInv(c, Settle(c, t), FinishOp(ends[0].0, ends[0].1));
      Drained(c, Step(c, Settle(c, t), FinishOp(ends[0].0, ends[0].1)), ends[1..])
  }

  /** A drain without pushes is over after exactly `pending + active` completions and can never stall before. */
  lemma {:induction false} DrainIsExact<T>(c: Config, t: Trace<T>, ends: seq<(nat, bool)>)
    requires Inv(c, t.now) && CanDrain(c, t, ends)
    ensures Load(Drained(c, t, ends).now) + |ends| == Load(t.now) == t.now.pending + |t.now.active|
    ensures IsEmpty(Drained(c, t, ends).now) <==> |ends| == Load(t.now)
    ensures |ends| < Load(t.now) ==> Settle(c, Drained(c, t, ends)).now.active != map[]
    decreases |ends|
  {
    if ends == [] {
      if Load(t.now) > 0 {
        NonEmptyHasTask(c, Settle(c, t).now);
      }
    } else {
      var op := FinishOp(ends[0].0, ends[0].1);
      StepKeepsInv(c, Settle(c, t), op);
      RemoveTask(Settle(c, t).now.active, ends[0].0);
      RunningHasTask(c, Settle(c, t).now, ends[0].0);
      DrainIsExact(c, Step(c, Settle(c, t), op), ends[1..]);
    }
  }

  /** The start step, field by field. */
  lemma StartShape<T>(c: Config, t: Trace<T>)
    requires Good(c, t) && CanStart(c, t.now)
    ensures Inv(c, t.now) && t.now.pending > 0
    ensures var key := t.now.ready[0]; key in t.now.lanes && t.now.lanes[key].pending != []
    ensures
      var (s, u, key) := (t.now, Step(c, t, StartOp), t.now.ready[0]);
      var lane := Lane(s.lanes[key].pending[1..], s.lanes[key].running + 1);
      var again := lane.running < c.perPeer && lane.pending != [];
      && u == t.(now := u.now, removed := t.removed + [Started(key, s.lanes[key].pending[0], s.next)])
      && u.now == State(s.lanes[key := lane], if again then s.ready[1..] + [key] else s.ready[1..], s.pending - 1, s.shed,
                        s.active[s.next := key], s.next + 1)
  {
    hide QueueInv, TaskInv, ReadyInv;
    ReadyHasWork(c, t.now);
  }

  // ---------------------------------------------------------------- the object

  class Dispatcher<T> {
    const concurrency: nat
    const perPeer: nat
    const capacity: nat
    var laneCap: nat
    var lanes: map<int, Lane<T>>
    var ready: seq<int>
    var pending: nat
    var shed: nat
    var active: map<nat, int>
    var spawned: nat
    ghost var trace: Trace<T>

    function Limits(): Config
      reads this
    {
      Config(concurrency, perPeer, capacity, laneCap)
    }

    function View(): State<T>
      reads this
    {
      State(lanes, ready, pending, shed, active, spawned)
    }

    ghost predicate Valid()
      reads this
    {
      trace.now == View() && Good(Limits(), trace)
    }

    constructor New(concurrency: nat, perPeer: nat, capacity: nat)
      requires concurrency > 0 && perPeer > 0 && capacity > 0
      ensures Valid() && trace == NewTrace()
      ensures Limits() == Config(concurrency, perPeer, capacity, capacity)
    {
      this.concurrency, this.perPeer, this.capacity, this.laneCap := concurrency, perPeer, capacity, capacity;
      lanes, ready, pending, shed, active, spawned := map[], [], 0, 0, map[], 0;
      trace := NewTrace();
      new;
      NewTraceIsGood<T>(Limits());
    }

    /** Any positive cap may be set; the object stays in good order unless a lane already holds more. */
    method WithLaneCap(laneCap: nat)
      requires Valid() && laneCap > 0
      modifies this`laneCap
      ensures Limits() == old(Limits()).(laneCap := laneCap) && View() == old(View())
      ensures Valid() <==> forall key :: key in lanes ==> |lanes[key].pending| <= laneCap
    {
      this.laneCap := laneCap;
      forall key ensures Runnable(Limits(), trace.now, key) <==> Runnable(old(Limits()), trace.now, key) {
      }
    }

    method Push(key: int, value: T)
      requires Valid() && HasRoom(Limits(), View())
      modifies this`lanes, this`ready, this`pending, this`shed, this`trace
      ensures Valid() && trace == Step(Limits(), old(trace), PushOp(key, value))
    {
      hide Good, Inv;
      GoodHasInv(Limits(), trace);
      StepKeepsGood(Limits(), trace, PushOp(key, value));
      PendingCoversLane(Limits(), View(), key);
      trace := Step(Limits(), trace, PushOp(key, value));
      var lane := LaneOf(View(), key);
      var wasWaiting := lane.pending != [];
      if |lane.pending| >= laneCap {
        lane := lane.(pending := lane.pending[1..]);
        pending := pending - 1;
        shed := shed + 1;
      }
      if lane.running < perPeer && !wasWaiting {
        ready := ready + [key];
      }
      lanes := lanes[key := lane.(pending := lane.pending + [value])];
      pending := pending + 1;
    }

    /** One turn of the `start` loop: the item handed to the new task. */
    method StartNext() returns (item: T)
      requires Valid() && CanStart(Limits(), View())
      modifies this`lanes, this`ready, this`pending, this`active, this`spawned, this`trace
      ensures Valid() && trace == Step(Limits(), old(trace), StartOp)
      ensures trace.removed == old(trace).removed + [Started(old(ready)[0], item, old(spawned))]
      ensures pending < old(pending)
    {
      hide Good, Inv, StartOne, Step, Head, Runnable;
      StartShape(Limits(), trace);
      GoodHasInv(Limits(), trace);
      StepKeepsGood(Limits(), trace, StartOp);
      trace := Step(Limits(), trace, StartOp);
      var key := ready[0];
      ready := ready[1..];
      var lane := lanes[key];
      item := lane.pending[0];
      lane := Lane(lane.pending[1..], lane.running + 1);
      if lane.running < perPeer && lane.pending != [] {
        ready := ready + [key];
      }
      lanes := lanes[key := lane];
      pending := pending - 1;
      active := active[spawned := key];
      spawned := spawned + 1;
    }

    method Start()
      requires Valid()
      modifies this`lanes, this`ready, this`pending, this`active, this`spawned, this`trace
      ensures Valid() && trace == Settle(Limits(), old(trace))
    {
      hide Good, Inv;
      GoodHasInv(Limits(), trace);
      while |active| < concurrency && ready != []
        invariant Valid() && Inv(Limits(), trace.now)
        invariant Settle(Limits(), trace) == Settle(Limits(), old(trace))
        decreases pending
      {
        StepKeepsInv(Limits(), trace, StartOp);
        var _ := StartNext();
      }
    }

    method Complete(id: nat, ok: bool)
      requires Valid() && id in active
      modifies this`lanes, this`ready, this`active, this`trace
      ensures Valid() && trace == Step(Limits(), old(trace), FinishOp(id, ok))
    {
      hide Good, Inv;
      GoodHasInv(Limits(), trace);
      RunningHasTask(Limits(), View(), id);
      StepKeepsGood(Limits(), trace, FinishOp(id, ok));
      trace := Step(Limits(), trace, FinishOp(id, ok));
      var key := active[id];
      active := active - {id};
      var lane := lanes[key];
      lane := lane.(running := lane.running - 1);
      lanes := lanes[key := lane];
      if lane.pending == [] && lane.running == 0 {
        lanes := lanes - {key};
      } else if lane.pending != [] && lane.running + 1 == perPeer {
        ready := ready + [key];
      }
    }

    /**
     Joins every running task, drops what still waits and reports how many admitted items did not finish. The dispatcher
     is as good as new afterwards: every item it was given is on record as started, shed or dropped.
     */
    method Shutdown() returns (unfinished: nat)
      requires Valid()
      modifies this
      ensures Valid() && Limits() == old(Limits())
      ensures unfinished == old(Load(View())) && IsEmpty(View()) && lanes == map[] && ready == []
      ensures trace.pushed == old(trace.pushed) && trace.discarded == old(trace.discarded + pending)
      ensures old(trace.removed) <= trace.removed
      ensures forall i :: |old(trace.removed)| <= i < |trace.removed| ==> trace.removed[i].Dropped?
      ensures |trace.finished| == |old(trace.finished)| + |old(active)|
    {
      hide Good, Inv;
      unfinished := pending + |active|;
      while active != map[]
        invariant Valid() && Limits() == old(Limits())
        invariant pending == old(pending) && trace.pushed == old(trace.pushed)
        invariant trace.removed == old(trace.removed) && trace.discarded == old(trace.discarded)
        invariant |trace.finished| + |active| == |old(trace.finished)| + |old(active)|
        decreases |active|
      {
        var id :| id in active;
        var ok: bool := *;
        FinishLightens(Limits(), trace, id, ok);
        Complete(id, ok);
      }
      ClearKeepsGood(Limits(), trace);
      DiscardsEachLane(lanes, 0);
      trace := Cleared(trace);
      pending, ready, lanes := 0, [], map[];
    }
  }

  /** One turn of a drain: start what may start, then join some task. */
  method JoinNext<T>(tasks: Dispatcher<T>) returns (id: nat, ok: bool)
    requires tasks.Valid() && !IsEmpty(tasks.View())
    modifies tasks
    ensures tasks.Valid() && tasks.Limits() == old(tasks.Limits())
    ensures Load(tasks.View()) + 1 == old(Load(tasks.View()))
    ensures tasks.trace.pushed == old(tasks.trace.pushed) && tasks.trace.discarded == old(tasks.trace.discarded)
    ensures id !in old(tasks.trace.finished) && tasks.trace.finished == old(tasks.trace.finished)[id := ok]
  {
    hide Good, Inv, Settle;
    GoodHasInv(tasks.Limits(), tasks.trace);
    SettleKeepsGood(tasks.Limits(), tasks.trace);
    tasks.Start();
    GoodHasInv(tasks.Limits(), tasks.trace);
    NonEmptyHasTask(tasks.Limits(), tasks.View());
    id :| id in tasks.active;
    ok := *;
    FinishLightens(tasks.Limits(), tasks.trace, id, ok);
    tasks.Complete(id, ok);
  }

  /** An end moves one task from the running to the finished ones and changes nothing else that is counted. */
  lemma FinishLightens<T>(c: Config, t: Trace<T>, id: nat, ok: bool)
    requires Good(c, t) && id in t.now.active
    ensures
      var u := Step(c, t, FinishOp(id, ok));
      && u.now.pending == t.now.pending && |u.now.active| + 1 == |t.now.active| && Load(u.now) + 1 == Load(t.now)
      && u.pushed == t.pushed && u.removed == t.removed && u.discarded == t.discarded
      && id !in t.finished && u.finished == t.finished[id := ok] && |u.finished| == |t.finished| + 1
  {
    hide ReadyInv, QueueInv, TaskInv, Conserved;
    RunningHasTask(c, t.now, id);
    RemoveTask(t.now.active, id);
  }

  /** How a drain ends: all is done, a stop cut it short, or the round it was for was given up. */
  datatype DrainEnd = Completed | Aborted(unfinished: nat) | Abandoned

  /**
   The drain both workers run before they may answer a checkpoint: start what may start, join some task, repeat, unless
   a stop or an abandoned round ends it first. Undisturbed it ends after exactly as many completions as there were
   waiting and running items; a stop accounts for the rest; and the panics are counted among the completions.
   */
  method Drain<T>(tasks: Dispatcher<T>) returns (end: DrainEnd, completions: nat, panics: nat)
    requires tasks.Valid()
    modifies tasks
    ensures tasks.Valid() && tasks.Limits() == old(tasks.Limits()) && tasks.trace.pushed == old(tasks.trace.pushed)
    ensures end.Completed? ==> IsEmpty(tasks.View()) && completions == old(Load(tasks.View()))
    ensures end.Aborted? ==> IsEmpty(tasks.View()) && completions + end.unfinished == old(Load(tasks.View()))
    ensures end.Abandoned? ==> completions + Load(tasks.View()) == old(Load(tasks.View()))
    ensures !end.Aborted? ==>
              && tasks.trace.discarded == old(tasks.trace.discarded)
              && |tasks.trace.finished| == |old(tasks.trace.finished)| + completions
              && (panics == 0 <==> NonePanicked(old(tasks.trace.finished), tasks.trace.finished))
  {
    hide Good, Inv, Settle, NonePanicked;
    completions, panics := 0, 0;
    NonePanickedYet(tasks.trace.finished);
    while !IsEmpty(tasks.View())
      invariant tasks.Valid() && tasks.Limits() == old(tasks.Limits())
      invariant completions + Load(tasks.View()) == old(Load(tasks.View()))
      invariant tasks.trace.pushed == old(tasks.trace.pushed) && tasks.trace.discarded == old(tasks.trace.discarded)
      invariant |tasks.trace.finished| == |old(tasks.trace.finished)| + completions
      invariant old(tasks.trace.finished).Keys <= tasks.trace.finished.Keys
      invariant panics == 0 <==> NonePanicked(old(tasks.trace.finished), tasks.trace.finished)
      decreases Load(tasks.View())
    {
      if * {
        var unfinished := tasks.Shutdown();
        end := Aborted(unfinished);
        return;
      }
      if * {
        GoodHasInv(tasks.Limits(), tasks.trace);
        SettleKeepsGood(tasks.Limits(), tasks.trace);
        tasks.Start();
        end := Abandoned;
        return;
      }
      ghost var before := tasks.trace.finished;
      var id, ok := JoinNext(tasks);
      OneMoreFinished(old(tasks.trace.finished), before, id, ok);
      completions := completions + 1;
      panics := panics + if ok then 0 else 1;
    }
    end := Completed;
  }

  /** Every task that finished since went well. */
  ghost predicate NonePanicked(before: map<nat, bool>, after: map<nat, bool>) {
    forall id :: id in after && id !in before ==> after[id]
  }

  lemma NonePanickedYet(finished: map<nat, bool>)
    ensures NonePanicked(finished, finished)
  {
  }

  lemma OneMoreFinished(before: map<nat, bool>, mid: map<nat, bool>, id: nat, ok: bool)
    requires id !in mid && before.Keys <= mid.Keys
    ensures NonePanicked(before, mid[id := ok]) <==> NonePanicked(before, mid) && ok
    ensures |mid[id := ok]| == |mid| + 1
  {
    if NonePanicked(before, mid[id := ok]) {
      assert mid[id := ok][id] == ok;
      assert forall k :: k in mid && k !in before ==> mid[id := ok][k] == mid[k];
    }
  }
}
