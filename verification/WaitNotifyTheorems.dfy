/** What the invariant of the wait and notify protocol means. */
module WaitNotifyTheorems {
  import opened Options
  import opened WaiterLists
  import opened WaitNotifyProtocol
  import opened WaitNotifySafety

  lemma {:induction false} FirstItems(n: nat) returns (all: set<Item>)
    ensures |all| == n && forall i: Item :: i in all <==> i < n
  {
    if n == 0 {
      all := {};
    } else {
      var fewer := FirstItems(n - 1);
      all := fewer + {n - 1};
    }
  }

  lemma {:induction false} ListSize(s: seq<Item>)
    requires OldestFirst(s)
    ensures |Members(s)| == |s|
  {
    PrefixSize(s, |s|);
    assert s[..|s|] == s;
  }

  /** Three sets that share nothing and together are the first items. */
  lemma ThreeParts(n: nat, a: set<Item>, b: set<Item>, c: set<Item>)
    requires forall i: Item :: i < n <==> i in a || i in b || i in c
    requires a !! b && a !! c && b !! c
    ensures n == |a| + |b| + |c|
  {
    var all := FirstItems(n);
    assert all == a + b + c;
    assert |a + b| == |a| + |b|;
    assert |a + b + c| == |a + b| + |c|;
  }

  lemma ItemsAddUp(s: State)
    requires OldestFirst(s.waiterList) && forall i: Item :: Whereabouts(s, i)
    ensures |s.items| == |s.waiterList| + |s.notified| + |s.selfRemoved|
  {
    ListSize(s.waiterList);
    forall i: Item
      ensures i < |s.items| <==> i in Members(s.waiterList) || i in s.notified || i in s.selfRemoved
      ensures !(i in Members(s.waiterList) && i in s.notified)
      ensures !(i in Members(s.waiterList) && i in s.selfRemoved)
      ensures !(i in s.notified && i in s.selfRemoved)
    {
      assert Whereabouts(s, i);
    }
    ThreeParts(|s.items|, Members(s.waiterList), s.notified, s.selfRemoved);
  }

  /** After any run: as many items were enqueued as are listed, were removed by notifications and
      removed themselves together, and the notifications have returned, or are about to return,
      the number they removed. */
  lemma EverythingIsAccountedFor(steps: seq<Step>, s: State)
    requires IsRun(Init(), steps, s)
    ensures |s.items| == |s.waiterList| + |s.notified| + |s.selfRemoved|
    ensures OldestFirst(s.waiterList)
    ensures |s.notified| == s.notifyTotal + InFlight(s)
    ensures s.listLock == None ==> |s.notified| == s.notifyTotal
  {
    ReachableIsSafe(steps, s);
    ItemsAddUp(s);
  }

  /** A notification removes the oldest waiters, as many as there are or as it was asked for. */
  lemma NotifyTakesOldest(s: State, a: Agent)
    requires Invariant(s) && BodyEnabled(s, a, NotifyWaiters)
    ensures var s', n := NextBody(s, a, NotifyWaiters), BatchSize(|s.waiterList|, MainAt(s, a).count);
      && MainAt(s', a) == NotifyLeaving(n)
      && |s'.notified| == |s.notified| + n && |s'.waiterList| == |s.waiterList| - n
      && (forall i, j :: i in s'.notified && i !in s.notified && j in s'.waiterList ==>
            i in s.waiterList && j in s.waiterList && i < j)
  {
    var s', n := NextBody(s, a, NotifyWaiters), BatchSize(|s.waiterList|, MainAt(s, a).count);
    AtMain(s, a);
    NotifyAccounted(s, a);
    BatchAccounted(s, n);
    forall i, j | i in s'.notified && i !in s.notified && j in s'.waiterList
      ensures i in s.waiterList && j in s.waiterList && i < j
    {
      var k :| 0 <= k < n && s.waiterList[k] == i;
      var l :| 0 <= l < |s'.waiterList| && s'.waiterList[l] == j;
      assert s.waiterList[n + l] == j;
    }
  }

  // While `a` has compared and not yet enqueued, it holds the list.

  lemma NoControlBetween(s: State, a: Agent, b: Agent, control: Control)
    requires ControlEnabled(s, b, control) && a != b
    ensures var s' := NextControl(s, b, control);
      MainAt(s', a) == MainAt(s, a) && s'.waiterList == s.waiterList && s'.notified == s.notified
      && s'.items == s.items
  {
  }

  lemma NoBodyBetween(s: State, a: Agent, b: Agent, body: Body)
    requires BodyEnabled(s, b, body) && a != b
    requires MainHoldsList(MainAt(s, a)) && ListLockOk(s, MainOf(a)) && ListLockOk(s, MainOf(b))
    ensures var s' := NextBody(s, b, body);
      MainAt(s', a) == MainAt(s, a) && s'.waiterList == s.waiterList && s'.notified == s.notified
      && s'.items == s.items
  {
  }

  lemma NoWorkBetween(s: State, a: Agent, i: Item, work: Work)
    requires WorkEnabled(s, i, work)
    requires MainHoldsList(MainAt(s, a)) && ListLockOk(s, MainOf(a)) && ListLockOk(s, WorkerOf(i))
    ensures var s' := NextWork(s, i, work);
      MainAt(s', a) == MainAt(s, a) && s'.waiterList == s.waiterList && s'.notified == s.notified
      && s'.items == s.items
  {
  }

  lemma NothingMovesBetween(s: State, a: Agent, step: Step)
    requires Invariant(s) && MainAt(s, a).AsyncEqual? && Enabled(s, step)
    requires step.WorkStep? || step.agent != a
    ensures var s' := Next(s, step);
      MainAt(s', a) == MainAt(s, a) && s'.waiterList == s.waiterList && s'.notified == s.notified
      && s'.items == s.items
  {
    assert ListLockOk(s, MainOf(a));
    match step
    case ControlStep(b, control) => NoControlBetween(s, a, b, control);
    case BodyStep(b, body) =>
      assert ListLockOk(s, MainOf(b));
      NoBodyBetween(s, a, b, body);
    case WorkStep(i, work) =>
      assert ListLockOk(s, WorkerOf(i));
      NoWorkBetween(s, a, i, work);
  }

  predicate IsOthers(steps: seq<Step>, a: Agent) {
    forall k :: 0 <= k < |steps| ==> steps[k].WorkStep? || steps[k].agent != a
  }

  /** waitAsync compares and enqueues in one critical section: whatever the other threads do in
      between, no waiter comes or goes. */
  lemma {:induction false} AsyncComparesAndEnqueuesAtOnce(s: State, a: Agent, steps: seq<Step>, s': State)
    requires Invariant(s) && MainAt(s, a).AsyncEqual?
    requires IsRun(s, steps, s') && IsOthers(steps, a)
    ensures MainAt(s', a) == MainAt(s, a) && s'.waiterList == s.waiterList && s'.notified == s.notified
    decreases |steps|
  {
    if steps != [] {
      NothingMovesBetween(s, a, steps[0]);
      StepKeeps(s, steps[0]);
      assert forall k :: 0 <= k < |steps[1..]| ==> steps[1..][k] == steps[k + 1];
      AsyncComparesAndEnqueuesAtOnce(Next(s, steps[0]), a, steps[1..], s');
    }
  }

  /** What the steps of a main thread that only touch locks leave alone. */
  lemma ControlLeaves(s: State, a: Agent, control: Control)
    requires ControlEnabled(s, a, control)
    ensures var s' := NextControl(s, a, control);
      s'.items == s.items && s'.workers == s.workers && s'.settled == s.settled
  {
  }

  /** What the steps of a worker leave alone. */
  lemma WorkLeaves(s: State, i: Item, work: Work)
    requires WorkEnabled(s, i, work)
    ensures var s' := NextWork(s, i, work);
      s'.items == s.items && s'.settled == s.settled
  {
  }

  lemma BodyItemsGrow(s: State, a: Agent, body: Body)
    requires BodyEnabled(s, a, body)
    ensures s.items <= NextBody(s, a, body).items
  {
  }

  /** Nobody forgets an item. */
  lemma ItemsGrow(s: State, step: Step)
    requires Enabled(s, step)
    ensures s.items <= Next(s, step).items
  {
    match step
    case ControlStep(a, control) => ControlLeaves(s, a, control);
    case BodyStep(a, body) => BodyItemsGrow(s, a, body);
    case WorkStep(i, work) => WorkLeaves(s, i, work);
  }

  /** Item number `n` is the one that `a` has enqueued, or is the next one to be enqueued and `a`
      is about to do it. */
  predicate EqualOrEnqueued(s: State, a: Agent, n: nat) {
    IsItem(s, n, a, true) || (MainAt(s, a).AsyncEqual? && |s.items| == n)
  }

  lemma OnlyEnqueues(s: State, a: Agent, step: Step)
    requires MainAt(s, a).AsyncEqual? && Enabled(s, step) && !step.WorkStep? && step.agent == a
    ensures step == BodyStep(a, AsyncEnqueue)
  {
  }

  lemma EnqueuesNext(s: State, a: Agent)
    requires BodyEnabled(s, a, AsyncEnqueue)
    ensures IsItem(NextBody(s, a, AsyncEnqueue), |s.items|, a, true)
  {
  }

  lemma OwnStepEnqueues(s: State, a: Agent, step: Step)
    requires MainAt(s, a).AsyncEqual? && Enabled(s, step) && !step.WorkStep? && step.agent == a
    ensures IsItem(Next(s, step), |s.items|, a, true)
  {
    OnlyEnqueues(s, a, step);
    EnqueuesNext(s, a);
  }

  lemma ItemStays(s: State, a: Agent, n: nat, step: Step)
    requires Enabled(s, step) && IsItem(s, n, a, true)
    ensures IsItem(Next(s, step), n, a, true)
  {
    ItemsGrow(s, step);
  }

  lemma StepEnqueues(s: State, a: Agent, n: nat, step: Step)
    requires Invariant(s) && Enabled(s, step) && EqualOrEnqueued(s, a, n)
    ensures EqualOrEnqueued(Next(s, step), a, n)
  {
    if IsItem(s, n, a, true) {
      ItemStays(s, a, n, step);
    } else if step.WorkStep? || step.agent != a {
      NothingMovesBetween(s, a, step);
    } else {
      OwnStepEnqueues(s, a, step);
    }
  }

  lemma {:induction false} RunEnqueues(s: State, a: Agent, n: nat, steps: seq<Step>, s': State)
    requires Invariant(s) && IsRun(s, steps, s') && EqualOrEnqueued(s, a, n)
    ensures Invariant(s') && EqualOrEnqueued(s', a, n)
    decreases |steps|
  {
    if steps != [] {
      StepEnqueues(s, a, n, steps[0]);
      StepKeeps(s, steps[0]);
      RunEnqueues(Next(s, steps[0]), a, n, steps[1..], s');
    }
  }

  /** Any notification that locks the list after the comparison of waitAsync, whatever has happened
      in between, finds the waiter listed or already removed. */
  lemma NotifyAfterCompareFindsWaiter(s: State, a: Agent, steps: seq<Step>, s': State, b: Agent)
    requires Invariant(s) && MainAt(s, a).AsyncEqual?
    requires IsRun(s, steps, s') && MainAt(s', b).NotifyLocked?
    ensures var item := |s.items|;
      && IsItem(s', item, a, true)
      && (item in s'.waiterList || item in s'.notified || item in s'.selfRemoved)
  {
    RunEnqueues(s, a, |s.items|, steps, s');
    assert ListLockOk(s', MainOf(a)) && ListLockOk(s', MainOf(b));
    assert Whereabouts(s', |s.items|);
  }

  /** One step before a run. */
  lemma RunCons(s: State, step: Step, t: State, rest: seq<Step>, u: State)
    requires Enabled(s, step) && t == Next(s, step) && IsRun(t, rest, u)
    ensures IsRun(s, [step] + rest, u)
  {
    assert ([step] + rest)[1..] == rest;
  }

  lemma FirstAndRest(x: seq<Step>, y: seq<Step>)
    requires x != []
    ensures x + y != [] && (x + y)[0] == x[0] && (x + y)[1..] == x[1..] + y
  {
  }

  /** One run after another. */
  lemma {:induction false} RunsCompose(s: State, x: seq<Step>, t: State, y: seq<Step>, u: State)
    requires IsRun(s, x, t) && IsRun(t, y, u)
    ensures IsRun(s, x + y, u)
    decreases |x|
  {
    if x == [] {
      assert x + y == y;
    } else {
      RunsCompose(Next(s, x[0]), x[1..], t, y, u);
      FirstAndRest(x, y);
    }
  }

  /** A call of notify, up to holding the list. */
  lemma NotifyEnters(s: State, b: Agent, count: Option<nat>) returns (t: State)
    requires MainAt(s, b).Idle? && s.listLock == None
    ensures IsRun(s, [ControlStep(b, Call(NotifyStart(count))), ControlStep(b, LockList)], t)
    ensures MainAt(t, b) == NotifyLocked(count) && t.items == s.items
    ensures t.waiterList == s.waiterList && t.notifyTotal == s.notifyTotal
    ensures forall a: Agent :: a != b ==> MainAt(t, a) == MainAt(s, a)
  {
    var x1, x2 := ControlStep(b, Call(NotifyStart(count))), ControlStep(b, LockList);
    var s1 := NextControl(s, b, x1.control);
    t := NextControl(s1, b, x2.control);
    assert IsRun(t, [], t);
    RunCons(s1, x2, t, [], t);
    RunCons(s, x1, s1, [x2] + [], t);
    assert [x1, x2] == [x1] + ([x2] + []);
  }

  /** The rest of the call. */
  lemma NotifyLeaves(s: State, b: Agent) returns (t: State)
    requires MainAt(s, b).NotifyLocked?
    ensures IsRun(s, [BodyStep(b, NotifyWaiters), ControlStep(b, Return)], t)
    ensures MainAt(t, b).Idle? && t.listLock == None && t.items == s.items
    ensures var n := BatchSize(|s.waiterList|, MainAt(s, b).count);
      t.waiterList == s.waiterList[n..] && t.notifyTotal == s.notifyTotal + n
    ensures forall a: Agent :: a != b ==> MainAt(t, a) == MainAt(s, a)
  {
    var x1, x2 := BodyStep(b, NotifyWaiters), ControlStep(b, Return);
    var s1 := NextBody(s, b, x1.body);
    t := NextControl(s1, b, x2.control);
    assert IsRun(t, [], t);
    RunCons(s1, x2, t, [], t);
    RunCons(s, x1, s1, [x2] + [], t);
    assert [x1, x2] == [x1] + ([x2] + []);
  }

  /** A synchronous wait, up to the comparison. */
  lemma WaitEnters(s: State, a: Agent, timeout: Timeout) returns (t: State)
    requires MainAt(s, a).Idle? && s.listLock == None
    ensures IsRun(s, [ControlStep(a, Call(WaitStart(timeout))), ControlStep(a, LockList)], t)
    ensures MainAt(t, a) == WaitComparing(timeout)
    ensures forall b: Agent :: b != a ==> MainAt(t, b) == MainAt(s, b)
  {
    var x1, x2 := ControlStep(a, Call(WaitStart(timeout))), ControlStep(a, LockList);
    var s1 := NextControl(s, a, x1.control);
    t := NextControl(s1, a, x2.control);
    assert IsRun(t, [], t);
    RunCons(s1, x2, t, [], t);
    RunCons(s, x1, s1, [x2] + [], t);
    assert [x1, x2] == [x1] + ([x2] + []);
  }

  /** From the comparison to letting go of the lock. */
  lemma WaitLetsGo(s: State, a: Agent, timeout: Timeout) returns (t: State)
    requires MainAt(s, a) == WaitComparing(timeout)
    ensures IsRun(s, [ControlStep(a, Compare(true)), ControlStep(a, UnlockBetween)], t)
    ensures MainAt(t, a) == WaitBetween(timeout) && t.listLock == None
    ensures forall b: Agent :: b != a ==> MainAt(t, b) == MainAt(s, b)
  {
    var x1, x2 := ControlStep(a, Compare(true)), ControlStep(a, UnlockBetween);
    var s1 := NextControl(s, a, x1.control);
    t := NextControl(s1, a, x2.control);
    assert IsRun(t, [], t);
    RunCons(s1, x2, t, [], t);
    RunCons(s, x1, s1, [x2] + [], t);
    assert [x1, x2] == [x1] + ([x2] + []);
  }

  /** The second half of a synchronous wait, up to falling asleep. */
  lemma WaitFallsAsleep(s: State, a: Agent, timeout: Timeout) returns (u: State)
    requires MainAt(s, a) == WaitBetween(timeout) && s.listLock == None
    ensures IsRun(s, [ControlStep(a, LockList), BodyStep(a, WaitEnqueue)], u)
    ensures MainAt(u, a) == WaitSleeping(|s.items|, timeout)
    ensures u.waiterList == s.waiterList + [|s.items|] && u.notifyTotal == s.notifyTotal
  {
    var x1, x2 := ControlStep(a, LockList), BodyStep(a, WaitEnqueue);
    var s1 := NextControl(s, a, x1.control);
    u := NextBody(s1, a, x2.body);
    assert IsRun(u, [], u);
    RunCons(s1, x2, u, [], u);
    RunCons(s, x1, s1, [x2] + [], u);
    assert [x1, x2] == [x1] + ([x2] + []);
  }

  /** Any agent can get that far. */
  lemma WaitReachesBetween(a: Agent, timeout: Timeout) returns (steps: seq<Step>, s: State)
    ensures IsRun(Init(), steps, s)
    ensures MainAt(s, a) == WaitBetween(timeout) && s.listLock == None
    ensures forall b: Agent :: b != a ==> MainAt(s, b).Idle?
  {
    var s0 := Init();
    var t := WaitEnters(s0, a, timeout);
    s := WaitLetsGo(t, a, timeout);
    var first := [ControlStep(a, Call(WaitStart(timeout))), ControlStep(a, LockList)];
    var second := [ControlStep(a, Compare(true)), ControlStep(a, UnlockBetween)];
    RunsCompose(s0, first, t, second, s);
    steps := first + second;
  }

  /** The synchronous wait gives no such guarantee: whenever one agent has found the cell equal and let go of the
      lock, a notification of all waiters can come and go before the agent enlists itself and
      falls asleep, and it does not count that agent. */
  lemma SyncWaitMissesNotification(s: State, a: Agent, b: Agent, timeout: Timeout) returns (steps: seq<Step>, u: State)
    requires MainAt(s, a) == WaitBetween(timeout) && MainAt(s, b).Idle? && a != b && s.listLock == None
    ensures IsRun(s, steps, u) && BodyStep(b, NotifyWaiters) in steps
    ensures u.notifyTotal == s.notifyTotal + |s.waiterList|
    ensures MainAt(u, a) == WaitSleeping(|s.items|, timeout) && u.waiterList == [|s.items|]
  {
    var s1 := NotifyEnters(s, b, None);
    var s2 := NotifyLeaves(s1, b);
    u := WaitFallsAsleep(s2, a, timeout);
    var x := [ControlStep(b, Call(NotifyStart(None))), ControlStep(b, LockList)];
    var y := [BodyStep(b, NotifyWaiters), ControlStep(b, Return)];
    var z := [ControlStep(a, LockList), BodyStep(a, WaitEnqueue)];
    RunsCompose(s1, y, s2, z, u);
    RunsCompose(s, x, s1, y + z, u);
    steps := x + (y + z);
    assert steps[2] == BodyStep(b, NotifyWaiters);
  }

  /** After any run, outside a sweep: the pending count is the number of records whose waiter slot
      is null, and those are the records of the workers that have completed. */
  lemma PendingIsExact(steps: seq<Step>, s: State, a: Agent)
    requires IsRun(Init(), steps, s)
    requires !MainAt(s, a).Sweeping? && !MainAt(s, a).Joining?
    ensures PendingOf(s, a) == |NullRecords(s, a)|
    ensures forall k :: k in NullRecords(s, a) <==>
      k in s.records && AgentOf(s, k) == a && Completed(WorkerAt(s, k))
  {
    ReachableIsSafe(steps, s);
    assert PendingOk(s, a);
    forall k ensures k in NullRecords(s, a) <==> k in s.records && AgentOf(s, k) == a && Completed(WorkerAt(s, k)) {
      assert RecordOk(s, k);
    }
  }

  lemma BodyKeepsCompleted(s: State, a: Agent, body: Body, k: Item)
    requires BodyEnabled(s, a, body) && MainItemOk(s, a) && Completed(WorkerAt(s, k))
    ensures Completed(WorkerAt(NextBody(s, a, body), k))
  {
  }

  lemma WorkKeepsCompleted(s: State, i: Item, work: Work, k: Item)
    requires WorkEnabled(s, i, work) && Completed(WorkerAt(s, k))
    ensures Completed(WorkerAt(NextWork(s, i, work), k))
  {
  }

  /** A worker that has completed stays so. */
  lemma StepKeepsCompleted(s: State, step: Step, k: Item)
    requires Invariant(s) && Enabled(s, step) && Completed(WorkerAt(s, k))
    ensures Completed(WorkerAt(Next(s, step), k))
  {
    match step
    case ControlStep(a, control) => ControlLeaves(s, a, control);
    case BodyStep(a, body) =>
      assert MainItemOk(s, a);
      BodyKeepsCompleted(s, a, body, k);
    case WorkStep(i, work) => WorkKeepsCompleted(s, i, work, k);
  }

  lemma {:induction false} RunKeepsCompleted(s: State, steps: seq<Step>, s': State, k: Item)
    requires Invariant(s) && IsRun(s, steps, s') && Completed(WorkerAt(s, k))
    ensures Invariant(s') && Completed(WorkerAt(s', k))
    decreases |steps|
  {
    if steps != [] {
      StepKeepsCompleted(s, steps[0], k);
      StepKeeps(s, steps[0]);
      RunKeepsCompleted(Next(s, steps[0]), steps[1..], s', k);
    }
  }

  /** Each record is nulled once: from then on it is null or gone, and no worker can report in
      it. */
  lemma NulledForGood(s: State, steps: seq<Step>, s': State, k: Item)
    requires Invariant(s) && IsRun(s, steps, s') && k in s.records && s.records[k].slot == None
    ensures k in s'.records ==> s'.records[k].slot == None
    ensures forall i: Item :: !WorkEnabled(s', i, Report(k))
  {
    assert RecordOk(s, k);
    RunKeepsCompleted(s, steps, s', k);
    assert RecordOk(s', k);
  }

  /** No worker completes before its record is pushed: it finds the record, and only its own. */
  lemma NoEarlyCompletion(steps: seq<Step>, s: State, i: Item)
    requires IsRun(Init(), steps, s) && WorkerAt(s, i).DataLocked?
    ensures i in s.records && s.records[i] == Record(AgentOf(s, i), Some(i), s.records[i].notified)
    ensures !WorkEnabled(s, i, ReportNothing)
    ensures forall k :: WorkEnabled(s, i, Report(k)) <==> k == i
  {
    ReachableIsSafe(steps, s);
    ReportFindsOwnRecord(s, i);
    assert Matches(s, AgentOf(s, i), i, i);
  }

  lemma SettledByBody(s: State, a: Agent, body: Body)
    requires BodyEnabled(s, a, body)
    requires body.Fulfil? ==> RecordOk(s, body.item)
    ensures var settled := NextBody(s, a, body).settled;
      forall k :: k in s.settled ==> k in settled && settled[k] == s.settled[k]
    ensures body.Fulfil? ==> body.item !in s.settled
  {
  }

  /** A promise is settled only once, and never differently. */
  lemma SettledOnce(s: State, step: Step)
    requires Invariant(s) && Enabled(s, step)
    ensures forall k :: k in s.settled ==> k in Next(s, step).settled && Next(s, step).settled[k] == s.settled[k]
    ensures step.BodyStep? && step.body.Fulfil? ==> step.body.item !in s.settled
  {
    match step
    case ControlStep(a, control) => ControlLeaves(s, a, control);
    case BodyStep(a, body) =>
      if body.Fulfil? {
        assert RecordOk(s, body.item);
      }
      SettledByBody(s, a, body);
    case WorkStep(i, work) => WorkLeaves(s, i, work);
  }

  lemma {:induction false} SettledForGood(s: State, steps: seq<Step>, s': State)
    requires Invariant(s) && IsRun(s, steps, s')
    ensures forall k :: k in s.settled ==> k in s'.settled && s'.settled[k] == s.settled[k]
    decreases |steps|
  {
    if steps != [] {
      SettledOnce(s, steps[0]);
      StepKeeps(s, steps[0]);
      SettledForGood(Next(s, steps[0]), steps[1..], s');
    }
  }

  /** When every main thread is idle and every worker has finished, nobody is left on the list. */
  lemma NoStaleWaiters(steps: seq<Step>, s: State)
    requires IsRun(Init(), steps, s)
    requires forall a: Agent :: MainAt(s, a).Idle?
    requires forall i: Item :: WorkerAt(s, i).NotSpawned? || WorkerAt(s, i).Finished?
    ensures s.waiterList == []
  {
    ReachableIsSafe(steps, s);
    forall i: Item ensures i !in s.waiterList {
      assert ListedOk(s, i) && Whereabouts(s, i) && ItemOk(s, i);
    }
    ListSize(s.waiterList);
    assert Members(s.waiterList) == {};
  }

  /** A thread that is neither idle, nor asleep, nor at its end. */
  predicate Busy(s: State, o: Owner) {
    match o
    case MainOf(a) => !MainAt(s, a).Idle? && !MainAt(s, a).WaitSleeping?
    case WorkerOf(i) => !WorkerAt(s, i).NotSpawned? && !WorkerAt(s, i).Sleeping? && !WorkerAt(s, i).Finished?
  }

  /** A worker that holds a lock can go on. */
  lemma WorkerInsideMoves(s: State, i: Item) returns (step: Step)
    requires Invariant(s) && (WorkerHoldsList(WorkerAt(s, i)) || WorkerHoldsData(WorkerAt(s, i)))
    ensures Enabled(s, step) && IsInternal(step)
  {
    var work := match WorkerAt(s, i)
      case Looking(_) => Look
      case DataLocked(_) => Report(i)
      case Reported => WorkerUnlockData
      case Erasing => Erase
      case _ => WorkerUnlockList;
    if WorkerAt(s, i).DataLocked? {
      ReportFindsOwnRecord(s, i);
    }
    step := WorkStep(i, work);
  }

  lemma MainInsideMoves(s: State, a: Agent) returns (step: Step)
    requires MainHoldsList(MainAt(s, a)) && !MainAt(s, a).AsyncEnqueued?
    ensures Enabled(s, step) && IsInternal(step)
  {
    step := match MainAt(s, a)
      case NotifyLocked(_) => BodyStep(a, NotifyWaiters)
      case WaitComparing(_) => ControlStep(a, Compare(true))
      case AsyncComparing(_) => ControlStep(a, Compare(true))
      case WaitUnlocking(_) => ControlStep(a, UnlockBetween)
      case WaitRelocked(_) => BodyStep(a, WaitEnqueue)
      case WaitAwake(_, _) => BodyStep(a, WaitErase)
      case AsyncEqual(_) => BodyStep(a, AsyncEnqueue)
      case AsyncDataLocked(_, _) => BodyStep(a, Spawn)
      case AsyncSpawned(_) => BodyStep(a, Push)
      case AsyncPushed => ControlStep(a, UnlockData)
      case _ => ControlStep(a, Return);
  }

  /** Whoever holds the list can go on, or waits for a worker that can. */
  lemma ListHolderMoves(s: State) returns (step: Step)
    requires Invariant(s) && s.listLock.Some?
    ensures Enabled(s, step) && IsInternal(step)
  {
    var o := s.listLock.value;
    assert ListLockOk(s, o);
    match o
    case WorkerOf(i) => step := WorkerInsideMoves(s, i);
    case MainOf(a) =>
      var m := MainAt(s, a);
      if m.AsyncEnqueued? {
        if a in s.dataLocks {
          assert DataLockOk(s, a, s.dataLocks[a]);
          step := WorkerInsideMoves(s, s.dataLocks[a].item);
        } else {
          step := ControlStep(a, LockData);
        }
      } else {
        step := MainInsideMoves(s, a);
      }
  }

  /** Whoever holds an agent's records, and does not join a worker, can go on. */
  lemma DataHolderMoves(s: State, a: Agent) returns (step: Step)
    requires Invariant(s) && a in s.dataLocks && !MainAt(s, a).Joining?
    ensures Enabled(s, step) && IsInternal(step)
  {
    var o := s.dataLocks[a];
    assert DataLockOk(s, a, o);
    match o
    case WorkerOf(i) => step := WorkerInsideMoves(s, i);
    case MainOf(b) =>
      if MainHoldsList(MainAt(s, a)) {
        step := MainInsideMoves(s, a);
      } else if MainAt(s, a).Swept? {
        step := ControlStep(a, UnlockData);
      } else if k :| IsNullRecord(s, a, k) {
        step := BodyStep(a, Fulfil(k));
      } else {
        step := BodyStep(a, EndSweep);
      }
  }

  /** A worker on its way can go on, or waits for someone who can. */
  lemma WorkerMoves(s: State, i: Item) returns (step: Step)
    requires Invariant(s) && Busy(s, WorkerOf(i))
    requires MainAt(s, AgentOf(s, i)).Joining? ==> !WorkerAt(s, i).Reporting?
    ensures Enabled(s, step) && IsInternal(step)
  {
    var w := WorkerAt(s, i);
    if WorkerHoldsList(w) || WorkerHoldsData(w) {
      step := WorkerInsideMoves(s, i);
    } else if w.Reporting? {
      if AgentOf(s, i) in s.dataLocks {
        step := DataHolderMoves(s, AgentOf(s, i));
      } else {
        step := WorkStep(i, WorkerLockData);
      }
    } else if s.listLock.Some? {
      step := ListHolderMoves(s);
    } else {
      step := WorkStep(i, WorkerLockList);
    }
  }

  /** The worker that a sweep joins has reported, so that it needs the list lock only. */
  lemma JoinedWorkerMoves(s: State, a: Agent) returns (step: Step)
    requires Invariant(s) && MainAt(s, a).Joining?
    ensures Enabled(s, step) && IsInternal(step)
  {
    var k := MainAt(s, a).item;
    assert MainRecordOk(s, a) && RecordOk(s, k);
    if WorkerAt(s, k).Finished? {
      step := BodyStep(a, Join);
    } else {
      step := WorkerMoves(s, k);
    }
  }

  /** A sleeper can wake up whenever the list is free: for a notification always, for a timeout
      unless it has none. */
  lemma SleeperCanWake(s: State, a: Agent, i: Item)
    requires s.listLock == None
    ensures MainAt(s, a).WaitSleeping? ==>
      && Enabled(s, ControlStep(a, Wake(true)))
      && (Enabled(s, ControlStep(a, Wake(false))) <==> !MainAt(s, a).timeout.Unbounded?)
    ensures WorkerAt(s, i).Sleeping? ==>
      && Enabled(s, WorkStep(i, WakeWorker(true)))
      && (Enabled(s, WorkStep(i, WakeWorker(false))) <==> !WorkerAt(s, i).timeout.Unbounded?)
  {
  }

  /** No cyclic wait: as long as any thread is busy, some thread can take a step on its own. The
      sweep joins workers while it holds the records, and waitAsync takes the records while it
      holds the list, but one agent never does both at once. */
  lemma NoDeadlock(steps: seq<Step>, s: State, o: Owner) returns (step: Step)
    requires IsRun(Init(), steps, s) && Busy(s, o)
    ensures Enabled(s, step) && IsInternal(step)
  {
    ReachableIsSafe(steps, s);
    match o
    case WorkerOf(i) =>
      if MainAt(s, AgentOf(s, i)).Joining? {
        step := JoinedWorkerMoves(s, AgentOf(s, i));
      } else {
        step := WorkerMoves(s, i);
      }
    case MainOf(a) =>
      var m := MainAt(s, a);
      if m.Joining? {
        step := JoinedWorkerMoves(s, a);
      } else if MainHoldsData(m) {
        assert DataLockOk(s, a, MainOf(a));
        step := DataHolderMoves(s, a);
      } else if m.SweepStart? {
        if a in s.dataLocks {
          step := DataHolderMoves(s, a);
        } else {
          step := ControlStep(a, LockData);
        }
      } else if s.listLock.Some? {
        step := ListHolderMoves(s);
      } else {
        assert ListLockOk(s, MainOf(a));
        step := ControlStep(a, LockList);
      }
  }
}
