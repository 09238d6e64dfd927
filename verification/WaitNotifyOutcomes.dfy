/** What the calls of a run return and how its promises are settled, told from the steps alone. */
module WaitNotifyOutcomes {
  import opened Options
  import opened WaiterLists
  import opened WaitNotifyProtocol
  import opened WaitNotifySafety
  import opened WaitNotifyTheorems

  /** An agent's latest call: what was called, what its comparison found, and how it woke up. */
  datatype Story = Story(call: Main, compared: Option<bool>, woken: Option<bool>)

  function Tell(story: Story, step: Step, a: Agent): Story {
    match step
    case ControlStep(b, Call(start)) => if a == b then Story(start, None, None) else story
    case ControlStep(b, Compare(equal)) => if a == b then story.(compared := Some(equal)) else story
    case ControlStep(b, Wake(wakeNotified)) => if a == b then story.(woken := Some(wakeNotified)) else story
    case _ => story
  }

  /** The story that the steps tell of an agent. */
  function StoryOf(steps: seq<Step>, a: Agent): Story {
    if steps == [] then Story(Idle, None, None)
    else Tell(StoryOf(steps[..|steps| - 1], a), steps[|steps| - 1], a)
  }

  /** The worker of item `k` woke up, for a notification or for a timeout. */
  predicate Woke(steps: seq<Step>, k: Item, wakeNotified: bool) {
    WorkStep(k, WakeWorker(wakeNotified)) in steps
  }

  predicate WokenOk(story: Story, wasNotified: bool) {
    && story.call.WaitStart? && story.compared == Some(true) && story.woken == Some(wasNotified)
    && (story.call.timeout.Unbounded? ==> wasNotified)
  }

  /** The agent is where its story has led it. */
  predicate StoryOk(m: Main, story: Story) {
    match m
    case Idle => true
    case NotifyStart(count) => story.call == NotifyStart(count)
    case NotifyLocked(count) => story.call == NotifyStart(count)
    case NotifyLeaving(_) => story.call.NotifyStart?
    case WaitStart(timeout) => story == Story(WaitStart(timeout), None, None)
    case WaitComparing(timeout) => story == Story(WaitStart(timeout), None, None)
    case WaitUnequal => story.call.WaitStart? && story.compared == Some(false)
    case WaitUnlocking(timeout) => story == Story(WaitStart(timeout), Some(true), None)
    case WaitBetween(timeout) => story == Story(WaitStart(timeout), Some(true), None)
    case WaitRelocked(timeout) => story == Story(WaitStart(timeout), Some(true), None)
    case WaitSleeping(_, timeout) => story == Story(WaitStart(timeout), Some(true), None)
    case WaitAwake(_, wasNotified) => WokenOk(story, wasNotified)
    case WaitErased(wasNotified) => WokenOk(story, wasNotified)
    case AsyncStart(timeout) => story == Story(AsyncStart(timeout), None, None)
    case AsyncComparing(timeout) => story == Story(AsyncStart(timeout), None, None)
    case AsyncUnequal => story.call.AsyncStart? && story.compared == Some(false)
    case AsyncTimedOut => story == Story(AsyncStart(Zero), Some(true), None)
    case AsyncEqual(timeout) => story == Story(AsyncStart(timeout), Some(true), None) && !timeout.Zero?
    case AsyncEnqueued(_, timeout) => story == Story(AsyncStart(timeout), Some(true), None) && !timeout.Zero?
    case AsyncDataLocked(_, timeout) => story == Story(AsyncStart(timeout), Some(true), None) && !timeout.Zero?
    case _ =>
      if m.AsyncSpawned? || m.AsyncPushed? || m.AsyncDataReleased? then
        story.call.AsyncStart? && !story.call.timeout.Zero? && story.compared == Some(true)
      else story.call.SweepStart?
  }

  /** The item on its way to a worker was made with the timeout of the call. */
  predicate TimeoutOk(s: State, a: Agent) {
    var m := MainAt(s, a);
    && (m.WaitSleeping? ==> m.item < |s.items| && s.items[m.item].timeout == m.timeout)
    && (m.AsyncEnqueued? || m.AsyncDataLocked? ==> m.item < |s.items| && s.items[m.item].timeout == m.timeout)
  }

  /** How a worker has come to where it is: woken for a notification, or for a timeout, or neither
      yet, or never because it found its item removed already. */
  predicate WorkerStoryOk(w: Worker, woke: bool, timedOut: bool, wasRemoved: bool) {
    match w
    case NotSpawned => !woke && !timedOut
    case Started(_) => !woke && !timedOut
    case Looking(_) => !woke && !timedOut
    case Sleeping(_) => !woke && !timedOut
    case Awake(n) => (n <==> !timedOut) && (woke || timedOut)
    case Reporting(n) => (n <==> !timedOut) && (woke || timedOut || wasRemoved)
    case DataLocked(n) => (n <==> !timedOut) && (woke || timedOut || wasRemoved)
    case _ => woke || timedOut || wasRemoved
  }

  /** What is known of an item and its worker. */
  predicate OutcomeOk(s: State, k: Item, woke: bool, timedOut: bool) {
    var w := WorkerAt(s, k);
    && WorkerStoryOk(w, woke, timedOut, k in s.notified)
    && (w.Started? || w.Looking? || w.Sleeping? ==> k < |s.items| && s.items[k].timeout == w.timeout)
    && (timedOut ==> k < |s.items| && !s.items[k].timeout.Unbounded?)
    && (Completed(w) && k in s.records ==> (s.records[k].notified <==> !timedOut))
    && (!Completed(w) && k in s.records ==> !s.records[k].notified)
    && (k in s.settled ==> (s.settled[k] <==> !timedOut))
    && (k in s.selfRemoved && k < |s.items| && s.items[k].isAsync ==> w.Erased? || w.Finished?)
  }

  /** The sum of the numbers that notifications returned. */
  function RemovedSum(answers: seq<Answered>): nat {
    if answers == [] then 0
    else
      var last := answers[|answers| - 1].answer;
      RemovedSum(answers[..|answers| - 1]) + if last.Removed? then last.n else 0
  }

  /** The state is the one that the steps tell of. */
  ghost predicate AllTold(steps: seq<Step>, s: State) {
    && (forall a: Agent :: StoryOk(MainAt(s, a), StoryOf(steps, a)) && TimeoutOk(s, a))
    && (forall k: Item :: OutcomeOk(s, k, Woke(steps, k, true), Woke(steps, k, false)))
    && RemovedSum(s.answers) == s.notifyTotal
  }

  // One step and one agent.

  lemma StoryOfControl(s: State, b: Agent, control: Control, a: Agent, story: Story)
    requires ControlEnabled(s, b, control) && StoryOk(MainAt(s, a), story)
    ensures StoryOk(MainAt(NextControl(s, b, control), a), Tell(story, ControlStep(b, control), a))
  {
  }

  lemma StoryOfBody(s: State, b: Agent, body: Body, a: Agent, story: Story)
    requires BodyEnabled(s, b, body) && StoryOk(MainAt(s, a), story)
    ensures StoryOk(MainAt(NextBody(s, b, body), a), story)
  {
  }

  lemma TimeoutOfControl(s: State, b: Agent, control: Control, a: Agent)
    requires ControlEnabled(s, b, control) && TimeoutOk(s, a)
    ensures TimeoutOk(NextControl(s, b, control), a)
  {
  }

  lemma TimeoutOfBody(s: State, b: Agent, body: Body, a: Agent)
    requires BodyEnabled(s, b, body) && TimeoutOk(s, a)
    ensures TimeoutOk(NextBody(s, b, body), a)
  {
  }

  lemma TotalOfControl(s: State, a: Agent, control: Control)
    requires ControlEnabled(s, a, control) && RemovedSum(s.answers) == s.notifyTotal
    ensures var s' := NextControl(s, a, control);
      RemovedSum(s'.answers) == s'.notifyTotal
  {
    if control.Return? {
      var e := Answered(a, AnswerAt(MainAt(s, a)));
      assert (s.answers + [e])[..|s.answers|] == s.answers;
    }
  }

  lemma TotalOfBody(s: State, a: Agent, body: Body)
    requires BodyEnabled(s, a, body)
    ensures NextBody(s, a, body).answers == s.answers && NextBody(s, a, body).notifyTotal == s.notifyTotal
  {
  }

  lemma TotalOfWork(s: State, i: Item, work: Work)
    requires WorkEnabled(s, i, work)
    ensures NextWork(s, i, work).answers == s.answers && NextWork(s, i, work).notifyTotal == s.notifyTotal
  {
  }

  lemma MainsOfWork(s: State, i: Item, work: Work)
    requires WorkEnabled(s, i, work)
    ensures NextWork(s, i, work).mains == s.mains && NextWork(s, i, work).items == s.items
  {
  }

  // One step and one item.

  lemma OutcomeOfControl(s: State, a: Agent, control: Control, k: Item, woke: bool, timedOut: bool)
    requires ControlEnabled(s, a, control) && OutcomeOk(s, k, woke, timedOut)
    ensures OutcomeOk(NextControl(s, a, control), k, woke, timedOut)
  {
  }

  lemma OutcomeOfEnqueue(s: State, a: Agent, body: Body, k: Item, woke: bool, timedOut: bool)
    requires BodyEnabled(s, a, body) && (body.WaitEnqueue? || body.AsyncEnqueue?)
    requires Whereabouts(s, k) && ItemOk(s, k) && OutcomeOk(s, k, woke, timedOut)
    ensures OutcomeOk(NextBody(s, a, body), k, woke, timedOut)
  {
  }

  lemma OutcomeOfErase(s: State, a: Agent, k: Item, woke: bool, timedOut: bool)
    requires BodyEnabled(s, a, WaitErase) && MainItemOk(s, a) && OutcomeOk(s, k, woke, timedOut)
    ensures OutcomeOk(NextBody(s, a, WaitErase), k, woke, timedOut)
  {
  }

  lemma OutcomeOfNotify(s: State, a: Agent, k: Item, woke: bool, timedOut: bool)
    requires BodyEnabled(s, a, NotifyWaiters) && OutcomeOk(s, k, woke, timedOut)
    ensures OutcomeOk(NextBody(s, a, NotifyWaiters), k, woke, timedOut)
  {
    assert k in s.notified ==> k in NextBody(s, a, NotifyWaiters).notified;
  }

  lemma OutcomeOfSpawn(s: State, a: Agent, k: Item, woke: bool, timedOut: bool)
    requires BodyEnabled(s, a, Spawn) && MainItemOk(s, a) && TimeoutOk(s, a)
    requires Whereabouts(s, k) && RecordOk(s, k) && OutcomeOk(s, k, woke, timedOut)
    ensures OutcomeOk(NextBody(s, a, Spawn), k, woke, timedOut)
  {
  }

  lemma OutcomeOfRecords(s: State, a: Agent, body: Body, k: Item, woke: bool, timedOut: bool)
    requires BodyEnabled(s, a, body) && (body.Push? || body.Fulfil? || body.Join? || body.EndSweep?)
    requires MainItemOk(s, a) && RecordOk(s, k) && OutcomeOk(s, k, woke, timedOut)
    ensures OutcomeOk(NextBody(s, a, body), k, woke, timedOut)
  {
  }

  lemma OutcomeOfBody(s: State, a: Agent, body: Body, k: Item, woke: bool, timedOut: bool)
    requires BodyEnabled(s, a, body) && MainItemOk(s, a) && TimeoutOk(s, a)
    requires Whereabouts(s, k) && ItemOk(s, k) && RecordOk(s, k) && OutcomeOk(s, k, woke, timedOut)
    ensures OutcomeOk(NextBody(s, a, body), k, woke, timedOut)
  {
    match body
    case NotifyWaiters => OutcomeOfNotify(s, a, k, woke, timedOut);
    case WaitEnqueue => OutcomeOfEnqueue(s, a, body, k, woke, timedOut);
    case AsyncEnqueue => OutcomeOfEnqueue(s, a, body, k, woke, timedOut);
    case WaitErase => OutcomeOfErase(s, a, k, woke, timedOut);
    case Spawn => OutcomeOfSpawn(s, a, k, woke, timedOut);
    case _ => OutcomeOfRecords(s, a, body, k, woke, timedOut);
  }

  /** A worker wakes up; one with an unbounded timeout only for a notification. */
  lemma OutcomeOfWake(s: State, k: Item, wakeNotified: bool, woke: bool, timedOut: bool)
    requires WorkEnabled(s, k, WakeWorker(wakeNotified)) && RecordOk(s, k) && OutcomeOk(s, k, woke, timedOut)
    ensures OutcomeOk(NextWork(s, k, WakeWorker(wakeNotified)), k, woke || wakeNotified, timedOut || !wakeNotified)
  {
  }

  lemma OutcomeOfReport(s: State, k: Item, woke: bool, timedOut: bool)
    requires WorkEnabled(s, k, Report(k)) && RecordOk(s, k) && OutcomeOk(s, k, woke, timedOut)
    ensures OutcomeOk(NextWork(s, k, Report(k)), k, woke, timedOut)
  {
  }

  /** The other steps of a worker. */
  lemma OutcomeOfWork(s: State, k: Item, work: Work, woke: bool, timedOut: bool)
    requires WorkEnabled(s, k, work) && !work.WakeWorker? && !work.Report? && !work.ReportNothing?
    requires Whereabouts(s, k) && ItemOk(s, k) && RecordOk(s, k) && OutcomeOk(s, k, woke, timedOut)
    ensures OutcomeOk(NextWork(s, k, work), k, woke, timedOut)
  {
  }

  lemma OutcomeOfOther(s: State, i: Item, work: Work, k: Item, woke: bool, timedOut: bool)
    requires WorkEnabled(s, i, work) && i != k && (work.Report? ==> work.found == i)
    requires OutcomeOk(s, k, woke, timedOut)
    ensures OutcomeOk(NextWork(s, i, work), k, woke, timedOut)
  {
  }

  // One step.

  lemma StorySnoc(before: seq<Step>, step: Step, a: Agent)
    ensures StoryOf(before + [step], a) == Tell(StoryOf(before, a), step, a)
  {
    assert (before + [step])[..|before|] == before;
  }

  lemma ControlTells(before: seq<Step>, s: State, b: Agent, control: Control)
    requires Invariant(s) && ControlEnabled(s, b, control) && AllTold(before, s)
    ensures AllTold(before + [ControlStep(b, control)], NextControl(s, b, control))
  {
    var step := ControlStep(b, control);
    TotalOfControl(s, b, control);
    forall a: Agent
      ensures StoryOk(MainAt(NextControl(s, b, control), a), StoryOf(before + [step], a))
      ensures TimeoutOk(NextControl(s, b, control), a)
    {
      StorySnoc(before, step, a);
      StoryOfControl(s, b, control, a, StoryOf(before, a));
      TimeoutOfControl(s, b, control, a);
    }
    forall k: Item
      ensures OutcomeOk(NextControl(s, b, control), k, Woke(before + [step], k, true), Woke(before + [step], k, false))
    {
      OutcomeOfControl(s, b, control, k, Woke(before, k, true), Woke(before, k, false));
    }
  }

  lemma BodyTells(before: seq<Step>, s: State, b: Agent, body: Body)
    requires Invariant(s) && BodyEnabled(s, b, body) && AllTold(before, s)
    ensures AllTold(before + [BodyStep(b, body)], NextBody(s, b, body))
  {
    var step := BodyStep(b, body);
    TotalOfBody(s, b, body);
    assert MainItemOk(s, b) && TimeoutOk(s, b);
    forall a: Agent
      ensures StoryOk(MainAt(NextBody(s, b, body), a), StoryOf(before + [step], a))
      ensures TimeoutOk(NextBody(s, b, body), a)
    {
      StorySnoc(before, step, a);
      StoryOfBody(s, b, body, a, StoryOf(before, a));
      TimeoutOfBody(s, b, body, a);
    }
    forall k: Item
      ensures OutcomeOk(NextBody(s, b, body), k, Woke(before + [step], k, true), Woke(before + [step], k, false))
    {
      AtItem(s, k);
      OutcomeOfBody(s, b, body, k, Woke(before, k, true), Woke(before, k, false));
    }
  }

  lemma OutcomeOfStep(s: State, i: Item, work: Work, k: Item, woke: bool, timedOut: bool)
    requires Invariant(s) && WorkEnabled(s, i, work) && OutcomeOk(s, k, woke, timedOut)
    ensures OutcomeOk(NextWork(s, i, work), k, woke || (i == k && work == WakeWorker(true)),
                      timedOut || (i == k && work == WakeWorker(false)))
  {
    AtItem(s, k);
    if WorkerAt(s, i).DataLocked? {
      ReportFindsOwnRecord(s, i);
      assert Matches(s, AgentOf(s, i), i, i);
    }
    if i != k {
      OutcomeOfOther(s, i, work, k, woke, timedOut);
    } else {
      match work
      case WakeWorker(wakeNotified) => OutcomeOfWake(s, k, wakeNotified, woke, timedOut);
      case Report(found) => OutcomeOfReport(s, k, woke, timedOut);
      case _ => OutcomeOfWork(s, k, work, woke, timedOut);
    }
  }

  lemma WorkTells(before: seq<Step>, s: State, i: Item, work: Work)
    requires Invariant(s) && WorkEnabled(s, i, work) && AllTold(before, s)
    ensures AllTold(before + [WorkStep(i, work)], NextWork(s, i, work))
  {
    var step := WorkStep(i, work);
    MainsOfWork(s, i, work);
    TotalOfWork(s, i, work);
    forall a: Agent
      ensures StoryOk(MainAt(NextWork(s, i, work), a), StoryOf(before + [step], a))
      ensures TimeoutOk(NextWork(s, i, work), a)
    {
      StorySnoc(before, step, a);
      assert StoryOk(MainAt(s, a), StoryOf(before, a)) && TimeoutOk(s, a);
    }
    forall k: Item
      ensures OutcomeOk(NextWork(s, i, work), k, Woke(before + [step], k, true), Woke(before + [step], k, false))
    {
      OutcomeOfStep(s, i, work, k, Woke(before, k, true), Woke(before, k, false));
    }
  }

  lemma StepTells(before: seq<Step>, s: State, step: Step)
    requires Invariant(s) && Enabled(s, step) && AllTold(before, s)
    ensures AllTold(before + [step], Next(s, step))
  {
    match step
    case ControlStep(a, control) => ControlTells(before, s, a, control);
    case BodyStep(a, body) => BodyTells(before, s, a, body);
    case WorkStep(i, work) => WorkTells(before, s, i, work);
  }

  lemma Regroup(before: seq<Step>, steps: seq<Step>)
    requires steps != []
    ensures before + [steps[0]] + steps[1..] == before + steps
  {
  }

  lemma {:induction false} RunTells(before: seq<Step>, s: State, steps: seq<Step>, s': State)
    requires Invariant(s) && AllTold(before, s) && IsRun(s, steps, s')
    ensures Invariant(s') && AllTold(before + steps, s')
    decreases |steps|
  {
    if steps == [] {
      assert before + steps == before;
    } else {
      var step, rest := steps[0], steps[1..];
      StepKeeps(s, step);
      StepTells(before, s, step);
      RunTells(before + [step], Next(s, step), rest, s');
      Regroup(before, steps);
    }
  }

  lemma InitIsTold()
    ensures AllTold([], Init())
  {
  }

  /** After any run the state is the one that its steps tell of. */
  lemma ReachableIsTold(steps: seq<Step>, s: State)
    requires IsRun(Init(), steps, s)
    ensures Invariant(s) && AllTold(steps, s)
  {
    var s0 := Init();
    assert Invariant(s0) by { InitHolds(); }
    assert AllTold([], s0) by { InitIsTold(); }
    RunTells([], s0, steps, s);
    assert [] + steps == steps;
  }

  /** What the notifications returned adds up to the number of waiters they removed, once none is
      in between. */
  lemma AnswersAddUp(steps: seq<Step>, s: State)
    requires IsRun(Init(), steps, s)
    ensures |s.notified| == RemovedSum(s.answers) + InFlight(s)
  {
    ReachableIsTold(steps, s);
  }

  // What it means.

  /** A promise of waitAsync resolves to "timed-out" exactly if its worker woke up for a timeout,
      which takes a bounded timeout; otherwise to "ok", and then a notification had woken the worker
      or removed the waiter. */
  lemma PromiseOutcome(steps: seq<Step>, s: State, k: Item)
    requires IsRun(Init(), steps, s) && k in s.settled
    ensures s.settled[k] <==> WorkStep(k, WakeWorker(false)) !in steps
    ensures s.settled[k] ==> WorkStep(k, WakeWorker(true)) in steps || k in s.notified
    ensures k < |s.items| && (s.items[k].timeout.Unbounded? ==> s.settled[k])
  {
    ReachableIsTold(steps, s);
    assert OutcomeOk(s, k, Woke(steps, k, true), Woke(steps, k, false));
    assert RecordOk(s, k) && ItemOk(s, k);
  }

  /** The answer that a call's story leads to. */
  predicate Answers(story: Story, answer: Answer) {
    match story.call
    case NotifyStart(_) => answer.Removed?
    case WaitStart(_) =>
      answer == if story.compared == Some(false) then NotEqual
                else if story.woken == Some(true) then Notified else TimedOut
    case AsyncStart(timeout) =>
      answer == if story.compared == Some(false) then NotEqual
                else if timeout.Zero? then TimedOut else Promised
    case _ => false
  }

  lemma AnswerOfStory(s: State, a: Agent, story: Story)
    requires ControlEnabled(s, a, Return) && StoryOk(MainAt(s, a), story)
    ensures NextControl(s, a, Return).answers == s.answers + [Answered(a, AnswerAt(MainAt(s, a)))]
    ensures Answers(story, AnswerAt(MainAt(s, a)))
    ensures story.call == WaitStart(Unbounded) ==> AnswerAt(MainAt(s, a)) != TimedOut
  {
  }

  /** Every call that returns gives the answer of its story: wait and waitAsync "not-equal" exactly
      if their comparison found so; wait "ok" or "timed-out" by how it woke up, never "timed-out"
      without a timeout; waitAsync "timed-out" at once without time to wait, otherwise a promise;
      and notify the number of waiters it removed. */
  lemma AnswerIsRight(steps: seq<Step>, s: State, a: Agent)
    requires IsRun(Init(), steps, s) && ControlEnabled(s, a, Return)
    ensures var story, answers := StoryOf(steps, a), NextControl(s, a, Return).answers;
      && |answers| == |s.answers| + 1 && answers[..|s.answers|] == s.answers
      && answers[|s.answers|].agent == a && Answers(story, answers[|s.answers|].answer)
      && (story.call == WaitStart(Unbounded) ==> answers[|s.answers|].answer != TimedOut)
      && (MainAt(s, a).NotifyLeaving? ==> answers[|s.answers|].answer == Removed(MainAt(s, a).n))
  {
    ReachableIsTold(steps, s);
    assert StoryOk(MainAt(s, a), StoryOf(steps, a));
    AnswerOfStory(s, a, StoryOf(steps, a));
  }

  /** A call of wait or waitAsync falls asleep, or enlists a waiter, only if its comparison found the
      cell equal, and with the timeout it was given. */
  lemma EnlistedAsCalled(steps: seq<Step>, s: State, a: Agent)
    requires IsRun(Init(), steps, s)
    requires MainAt(s, a).WaitSleeping? || MainAt(s, a).AsyncEnqueued?
    ensures var m, story := MainAt(s, a), StoryOf(steps, a);
      && story.compared == Some(true)
      && story.call == (if m.WaitSleeping? then WaitStart(m.timeout) else AsyncStart(m.timeout))
      && m.item < |s.items| && s.items[m.item] == ItemInfo(a, m.AsyncEnqueued?, m.timeout)
  {
    ReachableIsTold(steps, s);
    assert StoryOk(MainAt(s, a), StoryOf(steps, a)) && TimeoutOk(s, a) && MainItemOk(s, a);
  }
}
