/** What every run of the wait and notify protocol keeps. */
module WaitNotifySafety {
  import opened Options
  import opened WaiterLists
  import opened WaitNotifyProtocol

  predicate HoldsList(s: State, o: Owner) {
    match o
    case MainOf(a) => MainHoldsList(MainAt(s, a))
    case WorkerOf(i) => WorkerHoldsList(WorkerAt(s, i))
  }

  predicate HoldsData(s: State, a: Agent, o: Owner) {
    match o
    case MainOf(b) => b == a && MainHoldsData(MainAt(s, a))
    case WorkerOf(i) => AgentOf(s, i) == a && WorkerHoldsData(WorkerAt(s, i))
  }

  predicate ListLockOk(s: State, o: Owner) {
    HoldsList(s, o) <==> s.listLock == Some(o)
  }

  predicate DataLockOk(s: State, a: Agent, o: Owner) {
    HoldsData(s, a, o) <==> a in s.dataLocks && s.dataLocks[a] == o
  }

  /** Each lock is held by exactly the thread that is between taking and releasing it. */
  ghost predicate LocksAgree(s: State) {
    (forall o: Owner :: ListLockOk(s, o)) && (forall a: Agent, o: Owner :: DataLockOk(s, a, o))
  }

  /** The main thread is asleep on its own synchronous item. */
  predicate OwnsSync(m: Main) {
    m.WaitSleeping? || m.WaitAwake?
  }

  /** The main thread has an asynchronous item whose worker does not exist yet. */
  predicate OwnsUnspawned(m: Main) {
    m.AsyncEnqueued? || m.AsyncDataLocked?
  }

  predicate IsItem(s: State, i: Item, a: Agent, isAsync: bool) {
    i < |s.items| && s.items[i].agent == a && s.items[i].isAsync == isAsync
  }

  predicate MainItemOk(s: State, a: Agent) {
    var m := MainAt(s, a);
    && (OwnsSync(m) ==> IsItem(s, m.item, a, false))
    && (OwnsUnspawned(m) ==> IsItem(s, m.item, a, true) && WorkerAt(s, m.item).NotSpawned?)
    && (m.AsyncSpawned? ==> IsItem(s, m.item, a, true) && WorkerAt(s, m.item).Started?)
  }

  predicate ItemOk(s: State, i: Item) {
    && (!WorkerAt(s, i).NotSpawned? ==> i < |s.items| && s.items[i].isAsync)
    && (i < |s.items| && s.items[i].isAsync && WorkerAt(s, i).NotSpawned? ==>
          OwnsUnspawned(MainAt(s, AgentOf(s, i))) && MainAt(s, AgentOf(s, i)).item == i)
  }

  /** Items and threads belong together: a synchronous item to the main thread asleep on it, an
      asynchronous one to its creator until the worker exists, and to the worker from then on,
      which does not get past its first lock before its record is pushed. */
  ghost predicate ItemsOwned(s: State) {
    (forall a: Agent :: MainItemOk(s, a)) && (forall i: Item :: ItemOk(s, i))
  }

  /** What a notification that still holds the lock is about to return. */
  function InFlight(s: State): nat {
    match s.listLock
    case Some(MainOf(a)) => if MainAt(s, a).NotifyLeaving? then MainAt(s, a).n else 0
    case _ => 0
  }

  /** In exactly one of three places. */
  predicate Whereabouts(s: State, i: Item) {
    && (i < |s.items| <==> i in s.waiterList || i in s.notified || i in s.selfRemoved)
    && (i in s.waiterList ==> i !in s.notified && i !in s.selfRemoved)
    && (i in s.notified ==> i !in s.selfRemoved)
  }

  /** The list is in the order of arrival; every item ever enqueued is listed, or was removed by
      a notification, or removed itself, and only one of these; and the notifications have
      returned, or are about to return, as many as they removed. */
  ghost predicate Accounted(s: State) {
    && OldestFirst(s.waiterList)
    && (forall i: Item :: Whereabouts(s, i))
    && |s.notified| == s.notifyTotal + InFlight(s)
  }

  predicate ListedOk(s: State, i: Item) {
    i in s.waiterList ==>
      if i < |s.items| && s.items[i].isAsync then !WorkerAt(s, i).Erased? && !WorkerAt(s, i).Finished?
      else OwnsSync(MainAt(s, AgentOf(s, i))) && MainAt(s, AgentOf(s, i)).item == i
  }

  /** Whoever has finished waiting is not listed any more. */
  ghost predicate ListedAreWaiting(s: State) {
    forall i: Item :: ListedOk(s, i)
  }

  predicate RecordOk(s: State, k: Item) {
    && (k in s.records ==>
          && !WorkerAt(s, k).NotSpawned? && s.records[k].agent == AgentOf(s, k)
          && s.records[k].slot == if Completed(WorkerAt(s, k)) then None else Some(k))
    && (!WorkerAt(s, k).NotSpawned? ==>
          k in s.records || k in s.settled || MainAt(s, AgentOf(s, k)) == AsyncSpawned(k))
    && (k in s.settled ==> Completed(WorkerAt(s, k)))
    && (k in s.settled && k in s.records ==>
          MainAt(s, AgentOf(s, k)) == Joining(k) && s.settled[k] == s.records[k].notified)
    && (k in s.settled && k !in s.records ==> WorkerAt(s, k).Finished?)
  }

  predicate MainRecordOk(s: State, a: Agent) {
    var m := MainAt(s, a);
    && (m.AsyncSpawned? ==> m.item !in s.records && m.item !in s.settled)
    && (m.Joining? ==> m.item in s.settled && IsNullRecord(s, a, m.item))
  }

  /** A record is nulled exactly when its worker has completed, and every spawned worker has its
      record from the moment its creator lets go of the locks until the promise is settled. */
  ghost predicate RecordsAgree(s: State) {
    (forall k: Item :: RecordOk(s, k)) && (forall a: Agent :: MainRecordOk(s, a))
  }

  function NullRecords(s: State, a: Agent): set<Item> {
    set k | k in s.records && IsNullRecord(s, a, k)
  }

  predicate PendingOk(s: State, a: Agent) {
    !MainAt(s, a).Sweeping? && !MainAt(s, a).Joining? ==> PendingOf(s, a) == |NullRecords(s, a)|
  }

  /** Outside a sweep the pending count is the number of nulled records. */
  ghost predicate PendingCounts(s: State) {
    forall a: Agent :: PendingOk(s, a)
  }

  ghost predicate Invariant(s: State) {
    LocksAgree(s) && ItemsOwned(s) && Accounted(s) && ListedAreWaiting(s) && RecordsAgree(s) && PendingCounts(s)
  }

  predicate HasItem(m: Main) {
    OwnsSync(m) || OwnsUnspawned(m) || m.AsyncSpawned? || m.Joining?
  }

  /** The invariant at an item. */
  predicate PointOk(s: State, i: Item) {
    ItemOk(s, i) && RecordOk(s, i) && ListedOk(s, i) && Whereabouts(s, i)
  }

  /** The invariant at a main thread that takes a step, and at the item it is busy with. */
  predicate MainOk(s: State, a: Agent) {
    && ListLockOk(s, MainOf(a)) && DataLockOk(s, a, MainOf(a)) && MainItemOk(s, a) && MainRecordOk(s, a)
    && (HasItem(MainAt(s, a)) ==> PointOk(s, MainAt(s, a).item))
  }

  /** The invariant at a worker that takes a step. */
  predicate WorkerOk(s: State, i: Item) {
    ListLockOk(s, WorkerOf(i)) && DataLockOk(s, AgentOf(s, i), WorkerOf(i)) && PointOk(s, i)
  }

  // Each lock stays with exactly one holder.

  lemma ListLockControl(s: State, a: Agent, control: Control, o: Owner)
    requires ControlEnabled(s, a, control) && ListLockOk(s, MainOf(a)) && ListLockOk(s, o)
    ensures ListLockOk(NextControl(s, a, control), o)
  {
  }

  lemma ListLockBody(s: State, a: Agent, body: Body, o: Owner)
    requires BodyEnabled(s, a, body) && ListLockOk(s, MainOf(a)) && ListLockOk(s, o)
    requires MainItemOk(s, a)
    requires o.WorkerOf? ==> ItemOk(s, o.item)
    ensures ListLockOk(NextBody(s, a, body), o)
  {
  }

  lemma ListLockWork(s: State, i: Item, work: Work, o: Owner)
    requires WorkEnabled(s, i, work) && ListLockOk(s, WorkerOf(i)) && ListLockOk(s, o)
    ensures ListLockOk(NextWork(s, i, work), o)
  {
  }

  lemma DataLockControl(s: State, a: Agent, control: Control, b: Agent, o: Owner)
    requires ControlEnabled(s, a, control) && DataLockOk(s, a, MainOf(a)) && DataLockOk(s, b, o)
    ensures DataLockOk(NextControl(s, a, control), b, o)
  {
  }

  lemma DataLockEnqueue(s: State, a: Agent, body: Body, b: Agent, o: Owner)
    requires BodyEnabled(s, a, body) && DataLockOk(s, b, o) && (body.WaitEnqueue? || body.AsyncEnqueue?)
    requires o.WorkerOf? ==> ItemOk(s, o.item)
    ensures DataLockOk(NextBody(s, a, body), b, o)
  {
  }

  lemma DataLockBody(s: State, a: Agent, body: Body, b: Agent, o: Owner)
    requires BodyEnabled(s, a, body) && DataLockOk(s, a, MainOf(a)) && DataLockOk(s, b, o)
    requires MainItemOk(s, a)
    requires o.WorkerOf? ==> ItemOk(s, o.item)
    ensures DataLockOk(NextBody(s, a, body), b, o)
  {
    if body.WaitEnqueue? || body.AsyncEnqueue? {
      DataLockEnqueue(s, a, body, b, o);
    }
  }

  lemma DataLockWork(s: State, i: Item, work: Work, b: Agent, o: Owner)
    requires WorkEnabled(s, i, work) && DataLockOk(s, AgentOf(s, i), WorkerOf(i)) && DataLockOk(s, b, o)
    ensures DataLockOk(NextWork(s, i, work), b, o)
  {
  }

  // Items stay with their owners.

  lemma MainItemControl(s: State, a: Agent, control: Control, b: Agent)
    requires ControlEnabled(s, a, control) && MainItemOk(s, b)
    ensures MainItemOk(NextControl(s, a, control), b)
  {
  }

  lemma OwnItemBody(s: State, a: Agent, body: Body)
    requires BodyEnabled(s, a, body) && MainItemOk(s, a)
    requires ItemOk(s, |s.items|)
    ensures MainItemOk(NextBody(s, a, body), a)
  {
  }

  lemma MainItemBody(s: State, a: Agent, body: Body, b: Agent)
    requires BodyEnabled(s, a, body) && MainOk(s, a)
    requires MainItemOk(s, b)
    requires ItemOk(s, |s.items|)
    ensures MainItemOk(NextBody(s, a, body), b)
  {
    if a == b {
      OwnItemBody(s, a, body);
    }
  }

  lemma MainItemWork(s: State, i: Item, work: Work, b: Agent)
    requires WorkEnabled(s, i, work) && ListLockOk(s, WorkerOf(i)) && ListLockOk(s, MainOf(b))
    requires MainItemOk(s, b)
    ensures MainItemOk(NextWork(s, i, work), b)
  {
  }

  lemma ItemOfControl(s: State, a: Agent, control: Control, j: Item)
    requires ControlEnabled(s, a, control) && ItemOk(s, j)
    ensures ItemOk(NextControl(s, a, control), j)
  {
  }

  lemma ItemOfBody(s: State, a: Agent, body: Body, j: Item)
    requires BodyEnabled(s, a, body) && MainOk(s, a)
    requires ItemOk(s, j) && MainItemOk(s, AgentOf(s, j))
    ensures ItemOk(NextBody(s, a, body), j)
  {
  }

  lemma ItemOfWork(s: State, i: Item, work: Work, j: Item)
    requires WorkEnabled(s, i, work) && ItemOk(s, i) && ItemOk(s, j)
    ensures ItemOk(NextWork(s, i, work), j)
  {
  }

  lemma ListedControl(s: State, a: Agent, control: Control, j: Item)
    requires ControlEnabled(s, a, control) && ListedOk(s, j)
    ensures ListedOk(NextControl(s, a, control), j)
  {
  }

  lemma ListedNotify(s: State, a: Agent, j: Item)
    requires BodyEnabled(s, a, NotifyWaiters) && MainOk(s, a)
    requires PointOk(s, j) && MainItemOk(s, AgentOf(s, j))
    ensures ListedOk(NextBody(s, a, NotifyWaiters), j)
  {
    var n := BatchSize(|s.waiterList|, MainAt(s, a).count);
    assert s.waiterList == s.waiterList[..n] + s.waiterList[n..];
  }

  lemma ListedErase(s: State, a: Agent, j: Item)
    requires BodyEnabled(s, a, WaitErase) && MainOk(s, a)
    requires PointOk(s, j) && MainItemOk(s, AgentOf(s, j))
    ensures ListedOk(NextBody(s, a, WaitErase), j)
  {
    WithoutMembers(s.waiterList, MainAt(s, a).item);
  }

  lemma ListedBody(s: State, a: Agent, body: Body, j: Item)
    requires BodyEnabled(s, a, body) && MainOk(s, a)
    requires PointOk(s, j) && MainItemOk(s, AgentOf(s, j))
    ensures ListedOk(NextBody(s, a, body), j)
  {
    match body
    case NotifyWaiters => ListedNotify(s, a, j);
    case WaitErase => ListedErase(s, a, j);
    case _ =>
  }

  lemma ListedWork(s: State, i: Item, work: Work, j: Item)
    requires WorkEnabled(s, i, work) && ItemOk(s, i) && ListedOk(s, j)
    ensures ListedOk(NextWork(s, i, work), j)
  {
    WithoutMembers(s.waiterList, i);
  }

  // Records follow their workers.

  lemma RecordOfControl(s: State, a: Agent, control: Control, k: Item)
    requires ControlEnabled(s, a, control) && RecordOk(s, k)
    ensures RecordOk(NextControl(s, a, control), k)
  {
    var s', m := NextControl(s, a, control), MainAt(s, a);
    assert s'.records == s.records && s'.settled == s.settled && s'.workers == s.workers && s'.items == s.items;
    assert !m.AsyncSpawned? && !m.Joining?;
  }

  lemma RecordOfSpawn(s: State, a: Agent, k: Item)
    requires BodyEnabled(s, a, Spawn) && MainItemOk(s, a) && RecordOk(s, k)
    ensures RecordOk(NextBody(s, a, Spawn), k)
  {
  }

  lemma RecordOfPush(s: State, a: Agent, k: Item)
    requires BodyEnabled(s, a, Push) && MainItemOk(s, a) && MainRecordOk(s, a) && RecordOk(s, k)
    ensures RecordOk(NextBody(s, a, Push), k)
  {
  }

  lemma RecordOfFulfil(s: State, a: Agent, i: Item, k: Item)
    requires BodyEnabled(s, a, Fulfil(i)) && RecordOk(s, k)
    ensures RecordOk(NextBody(s, a, Fulfil(i)), k)
  {
  }

  lemma RecordOfJoin(s: State, a: Agent, k: Item)
    requires BodyEnabled(s, a, Join) && MainRecordOk(s, a) && RecordOk(s, k)
    ensures RecordOk(NextBody(s, a, Join), k)
  {
  }

  lemma RecordOfRest(s: State, a: Agent, body: Body, k: Item)
    requires BodyEnabled(s, a, body) && ItemOk(s, k) && RecordOk(s, k)
    requires !body.Spawn? && !body.Push? && !body.Fulfil? && !body.Join?
    ensures RecordOk(NextBody(s, a, body), k)
  {
  }

  lemma RecordOfBody(s: State, a: Agent, body: Body, k: Item)
    requires BodyEnabled(s, a, body) && MainItemOk(s, a) && MainRecordOk(s, a)
    requires ItemOk(s, k) && RecordOk(s, k)
    ensures RecordOk(NextBody(s, a, body), k)
  {
    match body
    case Spawn => RecordOfSpawn(s, a, k);
    case Push => RecordOfPush(s, a, k);
    case Fulfil(i) => RecordOfFulfil(s, a, i, k);
    case Join => RecordOfJoin(s, a, k);
    case _ => RecordOfRest(s, a, body, k);
  }

  lemma RecordOfReport(s: State, i: Item, k: Item)
    requires WorkEnabled(s, i, Report(i)) && ItemOk(s, i) && RecordOk(s, i) && RecordOk(s, k)
    ensures RecordOk(NextWork(s, i, Report(i)), k)
  {
  }

  /** A worker's other steps leave the records alone, and its own record null or not. */
  lemma WorkFrame(s: State, i: Item, work: Work)
    requires WorkEnabled(s, i, work) && !work.Report? && !work.ReportNothing?
    ensures var s' := NextWork(s, i, work);
      && s'.items == s.items && s'.mains == s.mains && s'.records == s.records && s'.settled == s.settled
      && (forall k :: k != i ==> WorkerAt(s', k) == WorkerAt(s, k))
      && !WorkerAt(s, i).NotSpawned? && !WorkerAt(s, i).Finished? && !WorkerAt(s', i).NotSpawned?
      && (Completed(WorkerAt(s', i)) <==> Completed(WorkerAt(s, i)))
  {
  }

  lemma RecordOfSame(s: State, s': State, i: Item, k: Item)
    requires RecordOk(s, k)
    requires s'.items == s.items && s'.mains == s.mains && s'.records == s.records && s'.settled == s.settled
    requires k != i ==> WorkerAt(s', k) == WorkerAt(s, k)
    requires !WorkerAt(s, i).NotSpawned? && !WorkerAt(s, i).Finished? && !WorkerAt(s', i).NotSpawned?
    requires Completed(WorkerAt(s', i)) <==> Completed(WorkerAt(s, i))
    ensures RecordOk(s', k)
  {
  }

  lemma RecordOfWork(s: State, i: Item, work: Work, k: Item)
    requires WorkEnabled(s, i, work) && ItemOk(s, i) && RecordOk(s, i) && RecordOk(s, k)
    requires work.Report? ==> work.found == i
    requires !work.ReportNothing?
    ensures RecordOk(NextWork(s, i, work), k)
  {
    if work.Report? {
      RecordOfReport(s, i, k);
    } else {
      WorkFrame(s, i, work);
      RecordOfSame(s, NextWork(s, i, work), i, k);
    }
  }

  lemma MainRecordControl(s: State, a: Agent, control: Control, b: Agent)
    requires ControlEnabled(s, a, control) && MainRecordOk(s, b)
    ensures MainRecordOk(NextControl(s, a, control), b)
  {
  }

  lemma MainRecordBody(s: State, a: Agent, body: Body, b: Agent)
    requires BodyEnabled(s, a, body) && MainOk(s, a)
    requires MainRecordOk(s, b) && MainItemOk(s, b)
    requires HasItem(MainAt(s, b)) ==> PointOk(s, MainAt(s, b).item)
    ensures MainRecordOk(NextBody(s, a, body), b)
  {
  }

  lemma MainRecordWork(s: State, i: Item, work: Work, b: Agent)
    requires WorkEnabled(s, i, work) && WorkerOk(s, i)
    requires MainRecordOk(s, b) && MainItemOk(s, b)
    requires HasItem(MainAt(s, b)) ==> PointOk(s, MainAt(s, b).item)
    requires work.Report? ==> work.found == i
    ensures MainRecordOk(NextWork(s, i, work), b)
  {
  }

  // Every item is accounted for.

  lemma MembersOfSnoc(s: seq<Item>, x: Item)
    ensures Members(s + [x]) == Members(s) + {x}
    ensures (forall i :: 0 <= i < |s| ==> s[i] < x) ==> |Members(s + [x])| == |Members(s)| + 1
  {
    assert Members(s + [x]) == Members(s) + {x};
  }

  lemma {:induction false} PrefixSize(s: seq<Item>, n: nat)
    requires OldestFirst(s) && n <= |s|
    ensures |Members(s[..n])| == n
  {
    if 0 < n {
      PrefixSize(s, n - 1);
      var before, x := s[..n - 1], s[n - 1];
      assert s[..n] == before + [x];
      MembersOfSnoc(before, x);
      forall i | 0 <= i < n - 1 ensures before[i] < x {
        assert before[i] == s[i];
      }
    } else {
      assert Members(s[..n]) == {};
    }
  }

  lemma CutDisjoint(s: seq<Item>, n: nat)
    requires OldestFirst(s) && n <= |s|
    ensures OldestFirst(s[n..])
    ensures forall i :: i in s <==> i in Members(s[..n]) || i in s[n..]
    ensures forall i :: i in Members(s[..n]) ==> i !in s[n..]
  {
    assert s == s[..n] + s[n..];
    forall i | i in s[..n] ensures i !in s[n..] {
      var j :| 0 <= j < n && s[j] == i;
    }
  }

  lemma BatchAccounted(s: State, n: nat)
    requires n <= |s.waiterList| && OldestFirst(s.waiterList) && forall i: Item :: Whereabouts(s, i)
    ensures var s' := RemoveBatch(s, n);
      && OldestFirst(s'.waiterList) && (forall i: Item :: Whereabouts(s', i))
      && |s'.notified| == |s.notified| + n
  {
    var s' := RemoveBatch(s, n);
    var batch := Members(s.waiterList[..n]);
    PrefixSize(s.waiterList, n);
    CutDisjoint(s.waiterList, n);
    forall i: Item ensures Whereabouts(s', i) {
      assert Whereabouts(s, i);
    }
    assert batch !! s.notified by {
      forall i | i in batch ensures i !in s.notified {
        assert Whereabouts(s, i);
      }
    }
    assert |s.notified + batch| == |s.notified| + |batch|;
  }

  lemma EraseAccounted(s: State, i: Item)
    requires OldestFirst(s.waiterList) && forall j: Item :: Whereabouts(s, j)
    ensures var s' := EraseOwn(s, i);
      OldestFirst(s'.waiterList) && forall j: Item :: Whereabouts(s', j)
  {
    WithoutMembers(s.waiterList, i);
    WithoutKeepsRest(s.waiterList, i);
    forall j: Item ensures Whereabouts(EraseOwn(s, i), j) {
      assert Whereabouts(s, j);
    }
  }

  lemma EnqueueAccounted(s: State, a: Agent, isAsync: bool, timeout: Timeout)
    requires OldestFirst(s.waiterList) && forall j: Item :: Whereabouts(s, j)
    ensures var s' := Enqueue(s, a, isAsync, timeout);
      OldestFirst(s'.waiterList) && forall j: Item :: Whereabouts(s', j)
  {
    var s' := Enqueue(s, a, isAsync, timeout);
    forall j: Item ensures Whereabouts(s', j) {
      assert Whereabouts(s, j);
    }
    forall k | 0 <= k < |s.waiterList| ensures s.waiterList[k] < |s.items| {
      assert Whereabouts(s, s.waiterList[k]);
    }
  }

  /** Where items are does not depend on the threads. */
  lemma SamePlaces(s: State, t: State)
    requires forall i: Item :: Whereabouts(s, i)
    requires t.items == s.items && t.waiterList == s.waiterList
    requires t.notified == s.notified && t.selfRemoved == s.selfRemoved
    ensures forall i: Item :: Whereabouts(t, i)
  {
    forall i: Item ensures Whereabouts(t, i) {
      assert Whereabouts(s, i);
    }
  }

  lemma AccountedControl(s: State, a: Agent, control: Control)
    requires ControlEnabled(s, a, control) && MainOk(s, a) && Accounted(s)
    ensures Accounted(NextControl(s, a, control))
  {
    SamePlaces(s, NextControl(s, a, control));
  }

  lemma NotifyAccounted(s: State, a: Agent)
    requires BodyEnabled(s, a, NotifyWaiters) && MainOk(s, a) && Accounted(s)
    ensures Accounted(NextBody(s, a, NotifyWaiters))
  {
    var n := BatchSize(|s.waiterList|, MainAt(s, a).count);
    BatchAccounted(s, n);
    SamePlaces(RemoveBatch(s, n), NextBody(s, a, NotifyWaiters));
  }

  lemma AccountedBody(s: State, a: Agent, body: Body)
    requires BodyEnabled(s, a, body) && MainOk(s, a) && Accounted(s)
    ensures Accounted(NextBody(s, a, body))
  {
    var m := MainAt(s, a);
    if body.NotifyWaiters? {
      NotifyAccounted(s, a);
    } else if body.WaitEnqueue? || body.AsyncEnqueue? {
      EnqueueAccounted(s, a, body.AsyncEnqueue?, m.timeout);
      SamePlaces(Enqueue(s, a, body.AsyncEnqueue?, m.timeout), NextBody(s, a, body));
    } else if body.WaitErase? {
      EraseAccounted(s, m.item);
      SamePlaces(EraseOwn(s, m.item), NextBody(s, a, body));
    } else {
      SamePlaces(s, NextBody(s, a, body));
    }
  }

  lemma AccountedWork(s: State, i: Item, work: Work)
    requires WorkEnabled(s, i, work) && WorkerOk(s, i) && Accounted(s)
    ensures Accounted(NextWork(s, i, work))
  {
    if work.Erase? {
      EraseAccounted(s, i);
      SamePlaces(EraseOwn(s, i), NextWork(s, i, work));
    } else {
      SamePlaces(s, NextWork(s, i, work));
    }
  }

  // The pending count follows the nulled records.

  lemma PendingControl(s: State, a: Agent, control: Control, b: Agent)
    requires ControlEnabled(s, a, control) && MainOk(s, a) && PendingOk(s, b)
    ensures PendingOk(NextControl(s, a, control), b)
  {
    assert NullRecords(NextControl(s, a, control), b) == NullRecords(s, b);
  }

  lemma PendingSweep(s: State, a: Agent, body: Body, b: Agent)
    requires BodyEnabled(s, a, body) && (body.EndSweep? || body.Join?)
    requires MainRecordOk(s, a) && PendingOk(s, b)
    ensures PendingOk(NextBody(s, a, body), b)
  {
    var s' := NextBody(s, a, body);
    if a != b {
      assert NullRecords(s', b) == NullRecords(s, b);
    } else if body.EndSweep? {
      forall k ensures k !in NullRecords(s', b) {
        assert !IsNullRecord(s, a, k);
      }
    }
  }

  lemma PendingBody(s: State, a: Agent, body: Body, b: Agent)
    requires BodyEnabled(s, a, body) && MainOk(s, a) && PendingOk(s, b)
    ensures PendingOk(NextBody(s, a, body), b)
  {
    if body.EndSweep? || body.Join? {
      PendingSweep(s, a, body, b);
    } else {
      assert NullRecords(NextBody(s, a, body), b) == NullRecords(s, b);
    }
  }

  lemma PendingReport(s: State, i: Item, b: Agent)
    requires WorkEnabled(s, i, Report(i)) && WorkerOk(s, i) && PendingOk(s, b)
    ensures PendingOk(NextWork(s, i, Report(i)), b)
  {
    var s' := NextWork(s, i, Report(i));
    if b == AgentOf(s, i) {
      assert NullRecords(s', b) == NullRecords(s, b) + {i};
    } else {
      assert NullRecords(s', b) == NullRecords(s, b);
    }
  }

  lemma PendingWork(s: State, i: Item, work: Work, b: Agent)
    requires WorkEnabled(s, i, work) && WorkerOk(s, i) && PendingOk(s, b)
    requires work.Report? ==> work.found == i
    ensures PendingOk(NextWork(s, i, work), b)
  {
    if work.Report? {
      PendingReport(s, i, b);
    } else {
      assert NullRecords(NextWork(s, i, work), b) == NullRecords(s, b);
    }
  }

  // Putting it together.

  lemma AtItem(s: State, i: Item)
    requires Invariant(s)
    ensures PointOk(s, i) && MainItemOk(s, AgentOf(s, i)) && MainRecordOk(s, AgentOf(s, i))
  {
  }

  lemma AtMain(s: State, a: Agent)
    requires Invariant(s)
    ensures MainOk(s, a)
  {
    if HasItem(MainAt(s, a)) {
      AtItem(s, MainAt(s, a).item);
    }
  }

  /** When a worker reports, its record has been pushed and is the one its search finds: the
      creator holds both locks until then, and nobody else's record matches. */
  lemma ReportFindsOwnRecord(s: State, i: Item)
    requires Invariant(s) && WorkerAt(s, i).DataLocked?
    ensures forall k :: Matches(s, AgentOf(s, i), i, k) <==> k == i
  {
    var a := AgentOf(s, i);
    AtItem(s, i);
    assert DataLockOk(s, a, WorkerOf(i)) && DataLockOk(s, a, MainOf(a));
    forall k ensures Matches(s, a, i, k) <==> k == i {
      assert RecordOk(s, k);
    }
  }

  lemma ControlKeeps(s: State, a: Agent, control: Control)
    requires Invariant(s) && ControlEnabled(s, a, control)
    ensures Invariant(NextControl(s, a, control))
  {
    var s' := NextControl(s, a, control);
    AtMain(s, a);
    forall o: Owner ensures ListLockOk(s', o) { ListLockControl(s, a, control, o); }
    forall b: Agent, o: Owner ensures DataLockOk(s', b, o) {
      if o.WorkerOf? { AtItem(s, o.item); }
      DataLockControl(s, a, control, b, o);
    }
    forall b: Agent ensures MainItemOk(s', b) && MainRecordOk(s', b) && PendingOk(s', b) {
      AtMain(s, b);
      MainItemControl(s, a, control, b);
      MainRecordControl(s, a, control, b);
      assert PendingOk(s, b);
      PendingControl(s, a, control, b);
    }
    forall i: Item ensures ItemOk(s', i) && ListedOk(s', i) && RecordOk(s', i) {
      AtItem(s, i);
      ItemOfControl(s, a, control, i);
      ListedControl(s, a, control, i);
      RecordOfControl(s, a, control, i);
    }
    AccountedControl(s, a, control);
  }

  lemma BodyKeeps(s: State, a: Agent, body: Body)
    requires Invariant(s) && BodyEnabled(s, a, body)
    ensures Invariant(NextBody(s, a, body))
  {
    var s' := NextBody(s, a, body);
    AtMain(s, a);
    forall o: Owner ensures ListLockOk(s', o) { ListLockBody(s, a, body, o); }
    forall b: Agent, o: Owner ensures DataLockOk(s', b, o) {
      if o.WorkerOf? { AtItem(s, o.item); }
      DataLockBody(s, a, body, b, o);
    }
    forall b: Agent ensures MainItemOk(s', b) && MainRecordOk(s', b) && PendingOk(s', b) {
      AtMain(s, b);
      AtItem(s, |s.items|);
      MainItemBody(s, a, body, b);
      MainRecordBody(s, a, body, b);
      assert PendingOk(s, b);
      PendingBody(s, a, body, b);
    }
    forall i: Item ensures ItemOk(s', i) && ListedOk(s', i) && RecordOk(s', i) {
      AtItem(s, i);
      ItemOfBody(s, a, body, i);
      ListedBody(s, a, body, i);
      RecordOfBody(s, a, body, i);
    }
    AccountedBody(s, a, body);
  }

  lemma WorkKeeps(s: State, i: Item, work: Work)
    requires Invariant(s) && WorkEnabled(s, i, work)
    ensures Invariant(NextWork(s, i, work))
  {
    var s' := NextWork(s, i, work);
    AtItem(s, i);
    assert ListLockOk(s, WorkerOf(i)) && DataLockOk(s, AgentOf(s, i), WorkerOf(i));
    if WorkerAt(s, i).DataLocked? {
      ReportFindsOwnRecord(s, i);
      assert Matches(s, AgentOf(s, i), i, i);
    }
    forall o: Owner ensures ListLockOk(s', o) { ListLockWork(s, i, work, o); }
    forall b: Agent, o: Owner ensures DataLockOk(s', b, o) {
      if o.WorkerOf? { AtItem(s, o.item); }
      DataLockWork(s, i, work, b, o);
    }
    forall b: Agent ensures MainItemOk(s', b) && MainRecordOk(s', b) && PendingOk(s', b) {
      AtMain(s, b);
      MainItemWork(s, i, work, b);
      MainRecordWork(s, i, work, b);
      assert PendingOk(s, b);
      PendingWork(s, i, work, b);
    }
    forall j: Item ensures ItemOk(s', j) && ListedOk(s', j) && RecordOk(s', j) {
      AtItem(s, j);
      ItemOfWork(s, i, work, j);
      ListedWork(s, i, work, j);
      RecordOfWork(s, i, work, j);
    }
    AccountedWork(s, i, work);
  }

  lemma StepKeeps(s: State, step: Step)
    requires Invariant(s) && Enabled(s, step)
    ensures Invariant(Next(s, step))
  {
    match step
    case ControlStep(a, control) => ControlKeeps(s, a, control);
    case BodyStep(a, body) => BodyKeeps(s, a, body);
    case WorkStep(i, work) => WorkKeeps(s, i, work);
  }

  lemma InitHolds()
    ensures Invariant(Init())
  {
    forall a: Agent ensures PendingOk(Init(), a) {
      assert NullRecords(Init(), a) == {};
    }
  }

  lemma {:induction false} RunKeeps(s: State, steps: seq<Step>, s': State)
    requires Invariant(s) && IsRun(s, steps, s')
    ensures Invariant(s')
    decreases |steps|
  {
    if steps != [] {
      StepKeeps(s, steps[0]);
      RunKeeps(Next(s, steps[0]), steps[1..], s');
    }
  }

  /** After any run the invariant holds. */
  lemma ReachableIsSafe(steps: seq<Step>, s: State)
    requires IsRun(Init(), steps, s)
    ensures Invariant(s)
  {
    InitHolds();
    RunKeeps(Init(), steps, s);
  }
}
