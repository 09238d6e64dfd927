/** Atomics.wait, waitAsync and notify on one waiter list, with the worker threads of waitAsync
    and the sweep that settles their promises (src/builtins/BuiltinAtomics.cpp,
    src/runtime/VMInstance.cpp), as steps of any number of threads.

    Each agent has one main thread. Every lock is taken and released in a step of its own; what
    happens between is one step or several. Waking from the condition variable is free: it may
    happen at any time, for a notification, a timeout or no reason. */
module WaitNotifyProtocol {
  import opened Options
  import opened WaiterLists

  type Agent = nat

  datatype Timeout = Zero | Bounded | Unbounded

  /** Where an agent's main thread is. */
  datatype Main =
    | Idle
    // Atomics.notify
    | NotifyStart(count: Option<nat>)
    | NotifyLocked(count: Option<nat>)
    | NotifyLeaving(n: nat)
    // Atomics.wait
    | WaitStart(timeout: Timeout)
    | WaitComparing(timeout: Timeout)
    | WaitUnequal
    | WaitUnlocking(timeout: Timeout)
    | WaitBetween(timeout: Timeout)
    | WaitRelocked(timeout: Timeout)
    | WaitSleeping(item: Item, timeout: Timeout)
    | WaitAwake(item: Item, notified: bool)
    | WaitErased(notified: bool)
    // Atomics.waitAsync
    | AsyncStart(timeout: Timeout)
    | AsyncComparing(timeout: Timeout)
    | AsyncUnequal
    | AsyncTimedOut
    | AsyncEqual(timeout: Timeout)
    | AsyncEnqueued(item: Item, timeout: Timeout)
    | AsyncDataLocked(item: Item, timeout: Timeout)
    | AsyncSpawned(item: Item)
    | AsyncPushed
    | AsyncDataReleased
    // settling promises
    | SweepStart
    | Sweeping
    | Joining(item: Item)
    | Swept

  /** Where the worker thread of an asynchronous waiter is. */
  datatype Worker =
    | NotSpawned
    | Started(timeout: Timeout)
    | Looking(timeout: Timeout)
    | Sleeping(timeout: Timeout)
    | Awake(notified: bool)
    | Reporting(notified: bool)
    | DataLocked(notified: bool)
    | Reported
    | DataReleased
    | Erasing
    | Erased
    | Finished

  datatype ItemInfo = ItemInfo(agent: Agent, isAsync: bool, timeout: Timeout)

  /** A record of asyncWaiterData: its waiter slot, nulled on completion, and the outcome. */
  datatype Record = Record(agent: Agent, slot: Option<Item>, notified: bool)

  /** What a call returns: the number of waiters that notify removed; "not-equal", "ok" or
      "timed-out", which waitAsync wraps in an object; or the promise of waitAsync. */
  datatype Answer = Removed(n: nat) | NotEqual | Notified | TimedOut | Promised

  datatype Answered = Answered(agent: Agent, answer: Answer)

  datatype Owner = MainOf(agent: Agent) | WorkerOf(item: Item)

  /** The shared state; `notified`, `selfRemoved`, `notifyTotal`, `answers` and `settled` record
      history. */
  datatype State = State(
    mains: map<Agent, Main>,
    workers: map<Item, Worker>,
    listLock: Option<Owner>,
    dataLocks: map<Agent, Owner>,
    waiterList: seq<Item>,
    items: seq<ItemInfo>,
    records: map<Item, Record>,
    pending: map<Agent, nat>,
    notified: set<Item>,
    selfRemoved: set<Item>,
    notifyTotal: nat,
    answers: seq<Answered>,
    settled: map<Item, bool>)

  function Init(): State {
    State(map[], map[], None, map[], [], [], map[], map[], {}, {}, 0, [], map[])
  }

  function MainAt(s: State, a: Agent): Main {
    if a in s.mains then s.mains[a] else Idle
  }

  function WorkerAt(s: State, i: Item): Worker {
    if i in s.workers then s.workers[i] else NotSpawned
  }

  /** The agent that created a waiter item. */
  function AgentOf(s: State, i: Item): Agent {
    if i < |s.items| then s.items[i].agent else 0
  }

  function PendingOf(s: State, a: Agent): nat {
    if a in s.pending then s.pending[a] else 0
  }

  /** Which locks a main thread holds, by where it is. */
  predicate MainHoldsList(m: Main) {
    m.NotifyLocked? || m.NotifyLeaving? || m.WaitComparing? || m.WaitUnequal? || m.WaitUnlocking?
    || m.WaitRelocked? || m.WaitAwake? || m.WaitErased? || m.AsyncComparing? || m.AsyncUnequal?
    || m.AsyncTimedOut? || m.AsyncEqual? || m.AsyncEnqueued? || m.AsyncDataLocked? || m.AsyncSpawned? || m.AsyncPushed?
    || m.AsyncDataReleased?
  }

  predicate MainHoldsData(m: Main) {
    m.AsyncDataLocked? || m.AsyncSpawned? || m.AsyncPushed? || m.Sweeping? || m.Joining? || m.Swept?
  }

  predicate WorkerHoldsList(w: Worker) {
    w.Looking? || w.Awake? || w.Erasing? || w.Erased?
  }

  predicate WorkerHoldsData(w: Worker) {
    w.DataLocked? || w.Reported?
  }

  /** The worker has nulled its record. */
  predicate Completed(w: Worker) {
    w.Reported? || w.DataReleased? || w.Erasing? || w.Erased? || w.Finished?
  }

  /** Steps of a main thread that touch nothing but locks: it calls a builtin, takes or releases a
      lock, wakes up, or compares the cell with the expected value, whatever the cell holds. */
  datatype Control =
    | Call(start: Main)
    | Wake(wakeNotified: bool)
    | LockList
    | LockData
    | Compare(equal: bool)
    | UnlockBetween
    | Return
    | UnlockData

  /** The other steps of a main thread. */
  datatype Body =
    | NotifyWaiters
    | WaitEnqueue
    | WaitErase
    | AsyncEnqueue
    | Spawn
    | Push
    | Fulfil(item: Item)
    | Join
    | EndSweep

  /** Steps of a worker thread. */
  datatype Work =
    | WakeWorker(wakeNotified: bool)
    | WorkerLockList
    | Look
    | WorkerUnlockList
    | WorkerLockData
    | Report(found: Item)
    | ReportNothing
    | WorkerUnlockData
    | Erase

  datatype Step =
    | ControlStep(agent: Agent, control: Control)
    | BodyStep(agent: Agent, body: Body)
    | WorkStep(item: Item, work: Work)

  /** Where a call of one of the builtins, or of the sweep, begins. */
  predicate IsStart(m: Main) {
    m.NotifyStart? || m.WaitStart? || m.AsyncStart? || m.SweepStart?
  }

  /** The records that a worker's search for its waiter item matches. */
  predicate Matches(s: State, a: Agent, item: Item, k: Item) {
    k in s.records && s.records[k].agent == a && s.records[k].slot == Some(item)
  }

  predicate IsNullRecord(s: State, a: Agent, k: Item) {
    k in s.records && s.records[k].agent == a && s.records[k].slot == None
  }

  /** Where a call is about to let go of the list and return. */
  predicate AtReturn(m: Main) {
    m.NotifyLeaving? || m.WaitUnequal? || m.WaitErased? || m.AsyncUnequal? || m.AsyncTimedOut? || m.AsyncDataReleased?
  }

  function AnswerAt(m: Main): Answer
    requires AtReturn(m)
  {
    match m
    case NotifyLeaving(n) => Removed(n)
    case WaitErased(wasNotified) => if wasNotified then Notified else TimedOut
    case AsyncTimedOut => TimedOut
    case AsyncDataReleased => Promised
    case _ => NotEqual
  }

  predicate ControlEnabled(s: State, a: Agent, control: Control) {
    var m := MainAt(s, a);
    match control
    case Call(start) => m.Idle? && IsStart(start)
    case Wake(n) => m.WaitSleeping? && s.listLock == None && (m.timeout.Unbounded? ==> n)
    case LockList => s.listLock == None && (m.NotifyStart? || m.WaitStart? || m.WaitBetween? || m.AsyncStart?)
    case LockData => a !in s.dataLocks && (m.AsyncEnqueued? || m.SweepStart?)
    case Compare(_) => m.WaitComparing? || m.AsyncComparing?
    case UnlockBetween => m.WaitUnlocking?
    case Return => AtReturn(m)
    case UnlockData => m.AsyncPushed? || m.Swept?
  }

  ghost predicate BodyEnabled(s: State, a: Agent, body: Body) {
    var m := MainAt(s, a);
    match body
    case NotifyWaiters => m.NotifyLocked?
    case WaitEnqueue => m.WaitRelocked?
    case WaitErase => m.WaitAwake?
    case AsyncEnqueue => m.AsyncEqual?
    case Spawn => m.AsyncDataLocked?
    case Push => m.AsyncSpawned?
    case Fulfil(k) => m.Sweeping? && IsNullRecord(s, a, k)
    case Join => m.Joining? && WorkerAt(s, m.item).Finished?
    case EndSweep => m.Sweeping? && forall k :: !IsNullRecord(s, a, k)
  }

  ghost predicate WorkEnabled(s: State, i: Item, work: Work) {
    var w := WorkerAt(s, i);
    match work
    case WakeWorker(n) => w.Sleeping? && s.listLock == None && (w.timeout.Unbounded? ==> n)
    case WorkerLockList => (w.Started? || w.DataReleased?) && s.listLock == None
    case Look => w.Looking?
    case WorkerUnlockList => w.Awake? || w.Erased?
    case WorkerLockData => w.Reporting? && AgentOf(s, i) !in s.dataLocks
    case Report(k) => w.DataLocked? && Matches(s, AgentOf(s, i), i, k)
    case ReportNothing => w.DataLocked? && forall k :: !Matches(s, AgentOf(s, i), i, k)
    case WorkerUnlockData => w.Reported?
    case Erase => w.Erasing?
  }

  ghost predicate Enabled(s: State, step: Step) {
    match step
    case ControlStep(a, control) => ControlEnabled(s, a, control)
    case BodyStep(a, body) => BodyEnabled(s, a, body)
    case WorkStep(i, work) => WorkEnabled(s, i, work)
  }

  /** Steps that a thread takes on its own once it can, unlike calls and wake-ups. */
  predicate IsInternal(step: Step) {
    !(step.ControlStep? && (step.control.Call? || step.control.Wake?)) && !(step.WorkStep? && step.work.WakeWorker?)
  }

  function MoveMain(s: State, a: Agent, m: Main): State {
    s.(mains := s.mains[a := m])
  }

  function MoveWorker(s: State, i: Item, w: Worker): State {
    s.(workers := s.workers[i := w])
  }

  /** Removes an item that ends its own wait, if it is still listed. */
  function EraseOwn(s: State, i: Item): State {
    s.(waiterList := Without(s.waiterList, i),
       selfRemoved := if i in s.waiterList then s.selfRemoved + {i} else s.selfRemoved)
  }

  /** A new waiter item, listed last. */
  function Enqueue(s: State, a: Agent, isAsync: bool, timeout: Timeout): State {
    s.(items := s.items + [ItemInfo(a, isAsync, timeout)], waiterList := s.waiterList + [|s.items|])
  }

  /** The oldest waiters leave the list. */
  function RemoveBatch(s: State, n: nat): State
    requires n <= |s.waiterList|
  {
    s.(waiterList := s.waiterList[n..], notified := s.notified + Members(s.waiterList[..n]))
  }

  function NextControl(s: State, a: Agent, control: Control): State
    requires ControlEnabled(s, a, control)
  {
    var m := MainAt(s, a);
    match control
    case Call(start) => MoveMain(s, a, start)
    case Wake(n) => MoveMain(s, a, WaitAwake(m.item, n)).(listLock := Some(MainOf(a)))
    case LockList =>
      var next :=
        if m.NotifyStart? then NotifyLocked(m.count)
        else if m.WaitStart? then WaitComparing(m.timeout)
        else if m.WaitBetween? then WaitRelocked(m.timeout)
        else AsyncComparing(m.timeout);
      MoveMain(s, a, next).(listLock := Some(MainOf(a)))
    case LockData =>
      var next := if m.AsyncEnqueued? then AsyncDataLocked(m.item, m.timeout) else Sweeping;
      MoveMain(s, a, next).(dataLocks := s.dataLocks[a := MainOf(a)])
    case Compare(equal) =>
      MoveMain(s, a,
        if m.WaitComparing? then (if equal then WaitUnlocking(m.timeout) else WaitUnequal)
        else if !equal then AsyncUnequal
        else if m.timeout.Zero? then AsyncTimedOut
        else AsyncEqual(m.timeout))
    case UnlockBetween => MoveMain(s, a, WaitBetween(m.timeout)).(listLock := None)
    case Return =>
      MoveMain(s, a, Idle).(
        listLock := None,
        notifyTotal := s.notifyTotal + if m.NotifyLeaving? then m.n else 0,
        answers := s.answers + [Answered(a, AnswerAt(m))])
    case UnlockData =>
      MoveMain(s, a, if m.AsyncPushed? then AsyncDataReleased else Idle).(dataLocks := s.dataLocks - {a})
  }

  function NextBody(s: State, a: Agent, body: Body): State
    requires BodyEnabled(s, a, body)
  {
    var m := MainAt(s, a);
    match body
    case NotifyWaiters =>
      var n := BatchSize(|s.waiterList|, m.count);
      RemoveBatch(MoveMain(s, a, NotifyLeaving(n)), n)
    case WaitEnqueue =>
      Enqueue(MoveMain(s, a, WaitSleeping(|s.items|, m.timeout)), a, false, m.timeout).(listLock := None)
    case WaitErase => EraseOwn(MoveMain(s, a, WaitErased(m.notified)), m.item)
    case AsyncEnqueue => Enqueue(MoveMain(s, a, AsyncEnqueued(|s.items|, m.timeout)), a, true, m.timeout)
    case Spawn => MoveWorker(MoveMain(s, a, AsyncSpawned(m.item)), m.item, Started(m.timeout))
    case Push => MoveMain(s, a, AsyncPushed).(records := s.records[m.item := Record(a, Some(m.item), false)])
    case Fulfil(k) => MoveMain(s, a, Joining(k)).(settled := s.settled[k := s.records[k].notified])
    case Join => MoveMain(s, a, Sweeping).(records := s.records - {m.item})
    case EndSweep => MoveMain(s, a, Swept).(pending := s.pending[a := 0])
  }

  function NextWork(s: State, i: Item, work: Work): State
    requires WorkEnabled(s, i, work)
  {
    var w, a := WorkerAt(s, i), AgentOf(s, i);
    match work
    case WakeWorker(n) => MoveWorker(s, i, Awake(n)).(listLock := Some(WorkerOf(i)))
    case WorkerLockList =>
      MoveWorker(s, i, if w.Started? then Looking(w.timeout) else Erasing).(listLock := Some(WorkerOf(i)))
    case Look =>
      MoveWorker(s, i, if i in s.waiterList then Sleeping(w.timeout) else Reporting(true)).(listLock := None)
    case WorkerUnlockList =>
      MoveWorker(s, i, if w.Awake? then Reporting(w.notified) else Finished).(listLock := None)
    case WorkerLockData => MoveWorker(s, i, DataLocked(w.notified)).(dataLocks := s.dataLocks[a := WorkerOf(i)])
    case Report(k) =>
      MoveWorker(s, i, Reported).(
        records := s.records[k := Record(a, None, w.notified)],
        pending := s.pending[a := PendingOf(s, a) + 1])
    case ReportNothing => MoveWorker(s, i, Reported)
    case WorkerUnlockData => MoveWorker(s, i, DataReleased).(dataLocks := s.dataLocks - {a})
    case Erase => EraseOwn(MoveWorker(s, i, Erased), i)
  }

  ghost function Next(s: State, step: Step): State
    requires Enabled(s, step)
  {
    match step
    case ControlStep(a, control) => NextControl(s, a, control)
    case BodyStep(a, body) => NextBody(s, a, body)
    case WorkStep(i, work) => NextWork(s, i, work)
  }

  /** A run is a sequence of enabled steps. */
  ghost predicate IsRun(s: State, steps: seq<Step>, s': State)
    decreases |steps|
  {
    if steps == [] then s == s'
    else Enabled(s, steps[0]) && IsRun(Next(s, steps[0]), steps[1..], s')
  }
}
