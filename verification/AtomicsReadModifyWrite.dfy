/** The read-modify-write operations of Atomics (src/builtins/BuiltinAtomics.cpp): their
    arithmetic, and the locked form as steps of any number of threads. */
module AtomicsReadModifyWrite {
  import opened Options
  import opened TwosComplement
  import opened BigIntWrap

  datatype ElementType = ElementType(width: nat, signed: bool)

  /** The element types the operations accept. */
  predicate IsElementType(t: ElementType) {
    t.width in {8, 16, 32, 64}
  }

  datatype Op = ADD | AND | EXCH | OR | SUB | XOR

  /** The values an element can have. */
  predicate InRange(t: ElementType, r: int)
    requires 0 < t.width
  {
    if t.signed then 0 <= r + Pow2(t.width - 1) && r < Pow2(t.width - 1) else 0 <= r < Pow2(t.width)
  }

  /** The conversion of an integer to the element type. */
  function Cast(t: ElementType, x: int): int
    requires 0 < t.width
  {
    var low := x % Pow2(t.width);
    if t.signed && low >= Pow2(t.width - 1) then low - Pow2(t.width) else low
  }

  /** It gives a value of the type, signed or unsigned, that is congruent to the integer. */
  lemma CastIsCongruent(t: ElementType, x: int)
    requires 0 < t.width
    ensures InRange(t, Cast(t, x)) && SameLowBits(t.width, x, Cast(t, x))
  {
    var low := UintN(t.width, x);
    ModPlusMultiple(x - low, 1, Pow2(t.width));
  }

  /** The exact result of an operation, before it is stored. */
  function Exact(op: Op, cell: int, v: int): int {
    match op
    case ADD => cell + v
    case AND => Bitwise(And, cell, v)
    case EXCH => v
    case OR => Bitwise(Or, cell, v)
    case SUB => cell - v
    case XOR => Bitwise(Xor, cell, v)
  }

  /** What one operation leaves in the cell. */
  function Apply(t: ElementType, op: Op, cell: int, v: int): int
    requires 0 < t.width
  {
    Cast(t, Exact(op, cell, Cast(t, v)))
  }

  /** There is only one value of the type congruent to an integer. */
  lemma CastIsUnique(t: ElementType, x: int, r: int, q: int)
    requires 0 < t.width && InRange(t, r) && InRange(t, q)
    requires SameLowBits(t.width, x, r) && SameLowBits(t.width, x, q)
    ensures r == q
  {
    var m := Pow2(t.width);
    CongruentIff(t.width, x, r);
    CongruentIff(t.width, x, q);
    CongruentIff(t.width, r, q);
    var d := r - q;
    assert d % m == 0 && -m < d < m;
    if 0 < d { DivModUnique(d, m, 0, d); } else if d < 0 { DivModUnique(d, m, -1, d + m); }
  }

  /** A value of the type stays as it is. */
  lemma CastOfValue(t: ElementType, r: int)
    requires 0 < t.width && InRange(t, r)
    ensures Cast(t, r) == r
  {
    assert (r - r) % Pow2(t.width) == 0;
    CastIsCongruent(t, r);
    CastIsUnique(t, r, r, Cast(t, r));
  }

  /** Two integers are stored alike exactly when they agree modulo 2 to the width. */
  lemma CastAgrees(t: ElementType, x: int, y: int)
    requires 0 < t.width
    ensures Cast(t, x) == Cast(t, y) <==> x % Pow2(t.width) == y % Pow2(t.width)
  {
  }

  lemma CastKeepsLow(t: ElementType, x: int)
    requires 0 < t.width
    ensures Cast(t, x) % Pow2(t.width) == x % Pow2(t.width)
    ensures Cast(t, Cast(t, x)) == Cast(t, x)
  {
    var m := Pow2(t.width);
    var low := x % m;
    DivModUnique(low, m, 0, low);
    DivModUnique(low - m, m, -1, low);
  }

  /** Operations look at the low bits of their operands only. */
  lemma ExactOfLow(op: Op, x: int, v: int, y: int, w: int, width: nat)
    requires x % Pow2(width) == y % Pow2(width) && v % Pow2(width) == w % Pow2(width)
    ensures Exact(op, x, v) % Pow2(width) == Exact(op, y, w) % Pow2(width)
  {
    var m := Pow2(width);
    match op
    case ADD => ModSum(x, v, m); ModSum(y, w, m);
    case SUB => ModDifference(x, v, m); ModDifference(y, w, m);
    case EXCH =>
    case AND => BitwiseMod(And, x, v, width); BitwiseMod(And, y, w, width);
    case OR => BitwiseMod(Or, x, v, width); BitwiseMod(Or, y, w, width);
    case XOR => BitwiseMod(Xor, x, v, width); BitwiseMod(Xor, y, w, width);
  }

  /** Truncating the operand before operating agrees with truncating the exact result. */
  lemma TruncateFirst(t: ElementType, op: Op, cell: int, v: int)
    requires 0 < t.width
    ensures Apply(t, op, cell, v) == Cast(t, Exact(op, cell, v))
  {
    CastKeepsLow(t, v);
    ExactOfLow(op, cell, Cast(t, v), cell, v, t.width);
    CastAgrees(t, Exact(op, cell, Cast(t, v)), Exact(op, cell, v));
  }

  /** What an operation is to leave in a cell, without its arithmetic: sums and differences modulo
      2 to the width, and each bit of the others from the two bits at its place. */
  ghost predicate IsResult(t: ElementType, op: Op, cell: int, v: int, r: int)
    requires 0 < t.width
  {
    && InRange(t, r)
    && (op == ADD ==> SameLowBits(t.width, cell + v, r))
    && (op == SUB ==> SameLowBits(t.width, cell - v, r))
    && (op == EXCH ==> SameLowBits(t.width, v, r))
    && (op == AND ==> forall i: nat :: i < t.width ==> (Bit(r, i) == 1 <==> Bit(cell, i) == 1 && Bit(v, i) == 1))
    && (op == OR ==> forall i: nat :: i < t.width ==> (Bit(r, i) == 1 <==> Bit(cell, i) == 1 || Bit(v, i) == 1))
    && (op == XOR ==> forall i: nat :: i < t.width ==> (Bit(r, i) == 1 <==> Bit(cell, i) != Bit(v, i)))
  }

  lemma SameBit(x: int, r: int, w: nat, i: nat)
    requires i < w && SameLowBits(w, x, r)
    ensures Bit(x, i) == Bit(r, i)
  {
    CongruentIff(w, x, r);
    LowBit(x, w, i);
    LowBit(r, w, i);
  }

  lemma BitsOfResult(t: ElementType, op: BitOp, cell: int, v: int, i: nat)
    requires i < t.width
    ensures Bit(Cast(t, Bitwise(op, cell, v)), i) == OnBits(op, Bit(cell, i), Bit(v, i))
  {
    CastIsCongruent(t, Bitwise(op, cell, v));
    SameBit(Bitwise(op, cell, v), Cast(t, Bitwise(op, cell, v)), t.width, i);
    BitwiseBits(op, cell, v, i);
  }

  /** The six operations compute what they are to compute. */
  lemma ApplyIsResult(t: ElementType, op: Op, cell: int, v: int)
    requires 0 < t.width
    ensures IsResult(t, op, cell, v, Apply(t, op, cell, v))
  {
    TruncateFirst(t, op, cell, v);
    CastIsCongruent(t, Exact(op, cell, v));
    forall i: nat | i < t.width
      ensures op == AND ==> Bit(Apply(t, op, cell, v), i) == OnBits(And, Bit(cell, i), Bit(v, i))
      ensures op == OR ==> Bit(Apply(t, op, cell, v), i) == OnBits(Or, Bit(cell, i), Bit(v, i))
      ensures op == XOR ==> Bit(Apply(t, op, cell, v), i) == OnBits(Xor, Bit(cell, i), Bit(v, i))
    {
      BitsOfResult(t, And, cell, v, i);
      BitsOfResult(t, Or, cell, v, i);
      BitsOfResult(t, Xor, cell, v, i);
    }
  }

  datatype Request = Request(op: Op, v: int)

  /** The cell after a sequence of operations. */
  function Run(t: ElementType, cell: int, requests: seq<Request>): int
    requires 0 < t.width
  {
    if requests == [] then cell
    else
      var last := requests[|requests| - 1];
      Apply(t, last.op, Run(t, cell, requests[..|requests| - 1]), last.v)
  }

  /** The signed sum that additions and subtractions amount to. */
  function SignedSum(requests: seq<Request>): int {
    if requests == [] then 0
    else
      var last := requests[|requests| - 1];
      SignedSum(requests[..|requests| - 1]) + if last.op == SUB then -last.v else last.v
  }

  predicate OnlySums(requests: seq<Request>) {
    forall r :: r in requests ==> r.op == ADD || r.op == SUB
  }

  /** Additions and subtractions leave the initial value plus their signed sum, truncated. */
  lemma {:induction false} SumsAddUp(t: ElementType, cell: int, requests: seq<Request>)
    requires 0 < t.width && OnlySums(requests) && Cast(t, cell) == cell
    ensures Run(t, cell, requests) == Cast(t, cell + SignedSum(requests))
  {
    if requests != [] {
      var before, last := requests[..|requests| - 1], requests[|requests| - 1];
      SumsAddUp(t, cell, before);
      var sum := cell + SignedSum(before);
      TruncateFirst(t, last.op, Cast(t, sum), last.v);
      CastKeepsLow(t, sum);
      ExactOfLow(last.op, Cast(t, sum), last.v, sum, last.v, t.width);
      CastAgrees(t, Exact(last.op, Cast(t, sum), last.v), Exact(last.op, sum, last.v));
    }
  }

  /** Removing one of several leaves the last where it is, or removes it. */
  lemma RestOfRemoval(requests: seq<Request>, i: nat)
    requires i < |requests|
    ensures i == |requests| - 1 ==> requests[..i] + requests[i + 1..] == requests[..|requests| - 1]
    ensures i < |requests| - 1 ==>
      var n, rest := |requests| - 1, requests[..i] + requests[i + 1..];
      && rest != [] && rest[|rest| - 1] == requests[n] && requests[..n][i] == requests[i]
      && rest[..|rest| - 1] == requests[..n][..i] + requests[..n][i + 1..]
  {
  }

  lemma {:induction false} SumOfRemoval(requests: seq<Request>, i: nat)
    requires i < |requests|
    ensures SignedSum(requests) == SignedSum(requests[..i] + requests[i + 1..])
                                   + if requests[i].op == SUB then -requests[i].v else requests[i].v
    decreases |requests|
  {
    var n := |requests| - 1;
    RestOfRemoval(requests, i);
    if i < n {
      SumOfRemoval(requests[..n], i);
    }
  }

  lemma RemoveOne(s: seq<Request>, i: nat)
    requires i < |s|
    ensures multiset(s[..i] + s[i + 1..]) == multiset(s) - multiset{s[i]}
  {
    assert s == s[..i] + [s[i]] + s[i + 1..];
  }

  lemma {:induction false} SumOfPermutation(a: seq<Request>, b: seq<Request>)
    requires multiset(a) == multiset(b)
    ensures SignedSum(a) == SignedSum(b)
    decreases |a|
  {
    if a == [] {
      assert |multiset(b)| == 0;
    } else {
      var n := |a| - 1;
      assert a[n] in multiset(a);
      var i :| 0 <= i < |b| && b[i] == a[n];
      RemoveOne(a, n);
      RemoveOne(b, i);
      SumOfRemoval(a, n);
      SumOfRemoval(b, i);
      SumOfPermutation(a[..n] + a[n + 1..], b[..i] + b[i + 1..]);
    }
  }

  /** Whatever the order in which additions and subtractions take effect, the cell ends alike. */
  lemma OrderDoesNotMatter(t: ElementType, cell: int, a: seq<Request>, b: seq<Request>)
    requires 0 < t.width && OnlySums(a) && multiset(a) == multiset(b) && Cast(t, cell) == cell
    ensures Run(t, cell, a) == Run(t, cell, b)
  {
    forall r | r in b ensures r.op == ADD || r.op == SUB {
      assert r in multiset(b);
      assert r in a;
    }
    SumsAddUp(t, cell, a);
    SumsAddUp(t, cell, b);
    SumOfPermutation(a, b);
  }

  /** The operation under the lock, on one cell of the buffer. */
  class Cell {
    const t: ElementType
    var value: int

    constructor (t: ElementType, value: int)
      ensures this.t == t && this.value == value
    {
      this.t := t;
      this.value := value;
    }

    method AtomicOperation(v: int, op: Op) returns (returnValue: int)
      requires IsElementType(t)
      modifies this
      ensures returnValue == old(value)
      ensures value == Apply(t, op, old(value), v)
      ensures value == Cast(t, Exact(op, old(value), v))
      ensures IsResult(t, op, old(value), v, value)
    {
      var operand := Cast(t, v);
      returnValue := value;
      match op {
        case ADD => value := Cast(t, value + operand);
        case AND => value := Cast(t, Bitwise(And, value, operand));
        case EXCH =>
          CastKeepsLow(t, v);
          value := operand;
        case OR => value := Cast(t, Bitwise(Or, value, operand));
        case SUB => value := Cast(t, value - operand);
        case XOR => value := Cast(t, Bitwise(Xor, value, operand));
      }
      TruncateFirst(t, op, returnValue, v);
      ApplyIsResult(t, op, returnValue, v);
    }
  }

  /** Where a thread is in a locked operation. */
  datatype Thread =
    | Idle
    | Waiting(request: Request)
    | Locked(request: Request)
    | HasRead(request: Request, returnValue: int)
    | HasWritten(request: Request, returnValue: int)

  /** One completed operation. */
  datatype Entry = Entry(thread: nat, request: Request, returnValue: int)

  /** All threads, the lock, the cell, and what has taken effect and what was returned so far. */
  datatype State = State(cell: int, lock: Option<nat>, threads: map<nat, Thread>,
                         effects: seq<Entry>, returned: seq<Entry>)

  datatype Step =
    | Call(thread: nat, request: Request)
    | Acquire(thread: nat)
    | ReadCell(thread: nat)
    | WriteCell(thread: nat)
    | ReleaseAndReturn(thread: nat)

  function ThreadAt(s: State, i: nat): Thread {
    if i in s.threads then s.threads[i] else Idle
  }

  predicate Enabled(s: State, step: Step) {
    var th := ThreadAt(s, step.thread);
    match step
    case Call(_, _) => th.Idle?
    case Acquire(_) => th.Waiting? && s.lock == None
    case ReadCell(_) => th.Locked?
    case WriteCell(_) => th.HasRead?
    case ReleaseAndReturn(_) => th.HasWritten?
  }

  function Move(s: State, i: nat, th: Thread): State {
    s.(threads := s.threads[i := th])
  }

  function Next(t: ElementType, s: State, step: Step): State
    requires 0 < t.width && Enabled(s, step)
  {
    var i := step.thread;
    var th := ThreadAt(s, i);
    match step
    case Call(_, request) => Move(s, i, Waiting(request))
    case Acquire(_) => Move(s, i, Locked(th.request)).(lock := Some(i))
    case ReadCell(_) => Move(s, i, HasRead(th.request, s.cell))
    case WriteCell(_) =>
      Move(s, i, HasWritten(th.request, th.returnValue)).(
        cell := Apply(t, th.request.op, s.cell, th.request.v),
        effects := s.effects + [Entry(i, th.request, th.returnValue)])
    case ReleaseAndReturn(_) =>
      Move(s, i, Idle).(lock := None, returned := s.returned + [Entry(i, th.request, th.returnValue)])
  }

  function Init(cell: int): State {
    State(cell, None, map[], [], [])
  }

  function Requests(entries: seq<Entry>): seq<Request> {
    seq(|entries|, i requires 0 <= i < |entries| => entries[i].request)
  }

  predicate InCriticalSection(th: Thread) {
    th.Locked? || th.HasRead? || th.HasWritten?
  }

  /** The operation that has taken effect but not returned, if any. */
  function Unreturned(s: State): seq<Entry> {
    if s.lock.Some? && ThreadAt(s, s.lock.value).HasWritten? then
      var th := ThreadAt(s, s.lock.value);
      [Entry(s.lock.value, th.request, th.returnValue)]
    else []
  }

  /** An operation found the cell as the operations before it left it. */
  predicate EntryOk(t: ElementType, cell: int, effects: seq<Entry>, k: nat)
    requires 0 < t.width && k < |effects|
  {
    effects[k].returnValue == Run(t, cell, Requests(effects[..k]))
  }

  /** The operations that have taken effect form one chain from the initial value. */
  ghost predicate IsChain(t: ElementType, cell: int, effects: seq<Entry>)
    requires 0 < t.width
  {
    forall k: nat :: k < |effects| ==> EntryOk(t, cell, effects, k)
  }

  /** A thread is inside exactly while it holds the lock, and what it has read is still there. */
  predicate ThreadOk(s: State, i: nat) {
    && (InCriticalSection(ThreadAt(s, i)) <==> s.lock == Some(i))
    && (ThreadAt(s, i).HasRead? ==> ThreadAt(s, i).returnValue == s.cell)
  }

  /** The locked form does what one atomic step at a time would do: the cell holds what the
      operations that have taken effect leave, each of them found the cell its predecessors left,
      and the lock is held exactly by the thread inside. */
  ghost predicate Invariant(t: ElementType, cell: int, s: State)
    requires 0 < t.width
  {
    && s.cell == Run(t, cell, Requests(s.effects))
    && IsChain(t, cell, s.effects)
    && (forall i: nat :: ThreadOk(s, i))
    && s.effects == s.returned + Unreturned(s)
  }

  lemma RequestsOfSnoc(entries: seq<Entry>, e: Entry)
    ensures Requests(entries + [e]) == Requests(entries) + [e.request]
  {
  }

  lemma RunOfSnoc(t: ElementType, cell: int, requests: seq<Request>, r: Request)
    requires 0 < t.width
    ensures Run(t, cell, requests + [r]) == Apply(t, r.op, Run(t, cell, requests), r.v)
  {
    assert (requests + [r])[..|requests|] == requests;
  }

  lemma InitHolds(t: ElementType, cell: int)
    requires 0 < t.width
    ensures Invariant(t, cell, Init(cell))
  {
  }

  /** A step keeps the other threads in order. */
  lemma ThreadsHold(t: ElementType, s: State, step: Step, j: nat)
    requires 0 < t.width && Enabled(s, step) && ThreadOk(s, step.thread) && ThreadOk(s, j)
    ensures ThreadOk(Next(t, s, step), j)
  {
  }

  lemma ChainGrows(t: ElementType, cell: int, effects: seq<Entry>, e: Entry)
    requires 0 < t.width && IsChain(t, cell, effects)
    requires e.returnValue == Run(t, cell, Requests(effects))
    ensures IsChain(t, cell, effects + [e])
    ensures Run(t, cell, Requests(effects + [e])) ==
      Apply(t, e.request.op, Run(t, cell, Requests(effects)), e.request.v)
  {
    RequestsOfSnoc(effects, e);
    RunOfSnoc(t, cell, Requests(effects), e.request);
    forall k: nat | k < |effects| + 1 ensures EntryOk(t, cell, effects + [e], k) {
      if k < |effects| {
        assert EntryOk(t, cell, effects, k);
        assert (effects + [e])[..k] == effects[..k];
      } else {
        assert (effects + [e])[..k] == effects;
      }
    }
  }

  lemma WriteHolds(t: ElementType, cell: int, s: State, i: nat)
    requires 0 < t.width && Invariant(t, cell, s) && ThreadAt(s, i).HasRead?
    ensures Invariant(t, cell, Next(t, s, WriteCell(i)))
  {
    var th := ThreadAt(s, i);
    assert ThreadOk(s, i);
    ChainGrows(t, cell, s.effects, Entry(i, th.request, th.returnValue));
    forall j: nat ensures ThreadOk(Next(t, s, WriteCell(i)), j) {
      assert ThreadOk(s, j);
      ThreadsHold(t, s, WriteCell(i), j);
    }
  }

  lemma ReturnedHolds(t: ElementType, s: State, step: Step)
    requires 0 < t.width && Enabled(s, step) && !step.WriteCell? && ThreadOk(s, step.thread)
    requires s.effects == s.returned + Unreturned(s)
    ensures var s' := Next(t, s, step);
      s'.effects == s'.returned + Unreturned(s')
  {
  }

  lemma OtherStepHolds(t: ElementType, cell: int, s: State, step: Step)
    requires 0 < t.width && Invariant(t, cell, s) && Enabled(s, step) && !step.WriteCell?
    ensures Invariant(t, cell, Next(t, s, step))
  {
    assert ThreadOk(s, step.thread);
    forall j: nat ensures ThreadOk(Next(t, s, step), j) {
      assert ThreadOk(s, j);
      ThreadsHold(t, s, step, j);
    }
    ReturnedHolds(t, s, step);
  }

  /** Every step of the locked form is one atomic operation on the cell or none at all. */
  lemma StepRefinesAtomic(t: ElementType, cell: int, s: State, step: Step)
    requires 0 < t.width && Invariant(t, cell, s) && Enabled(s, step)
    ensures var s' := Next(t, s, step);
      && Invariant(t, cell, s')
      && (if step.WriteCell? then
            exists e: Entry :: s'.effects == s.effects + [e] && e.thread == step.thread
              && ThreadAt(s, e.thread).HasRead? && e.request == ThreadAt(s, e.thread).request
              && e.returnValue == s.cell && IsResult(t, e.request.op, s.cell, e.request.v, s'.cell)
          else s'.effects == s.effects && s'.cell == s.cell)
  {
    if step.WriteCell? {
      assert ThreadOk(s, step.thread);
      WriteHolds(t, cell, s, step.thread);
      var th := ThreadAt(s, step.thread);
      var e := Entry(step.thread, th.request, th.returnValue);
      ApplyIsResult(t, th.request.op, s.cell, th.request.v);
      assert Next(t, s, step).effects == s.effects + [e] && e.returnValue == s.cell;
    } else {
      OtherStepHolds(t, cell, s, step);
    }
  }

  /** A run is a sequence of enabled steps. */
  ghost predicate IsRun(t: ElementType, s: State, steps: seq<Step>, s': State)
    requires 0 < t.width
    decreases |steps|
  {
    if steps == [] then s == s'
    else Enabled(s, steps[0]) && IsRun(t, Next(t, s, steps[0]), steps[1..], s')
  }

  lemma {:induction false} RunHolds(t: ElementType, cell: int, s: State, steps: seq<Step>, s': State)
    requires 0 < t.width && Invariant(t, cell, s) && IsRun(t, s, steps, s')
    ensures Invariant(t, cell, s')
    decreases |steps|
  {
    if steps != [] {
      StepRefinesAtomic(t, cell, s, steps[0]);
      RunHolds(t, cell, Next(t, s, steps[0]), steps[1..], s');
    }
  }

  lemma ReachableHolds(t: ElementType, cell: int, steps: seq<Step>, s: State)
    requires 0 < t.width && IsRun(t, Init(cell), steps, s)
    ensures Invariant(t, cell, s)
  {
    InitHolds(t, cell);
    RunHolds(t, cell, Init(cell), steps, s);
  }

  lemma SumOfEffects(t: ElementType, cell: int, s: State)
    requires 0 < t.width && InRange(t, cell) && OnlySums(Requests(s.effects))
    requires s.cell == Run(t, cell, Requests(s.effects))
    ensures InRange(t, s.cell) && SameLowBits(t.width, cell + SignedSum(Requests(s.effects)), s.cell)
  {
    CastOfValue(t, cell);
    SumsAddUp(t, cell, Requests(s.effects));
    CastIsCongruent(t, cell + SignedSum(Requests(s.effects)));
  }

  /** What a thread has asked for, in order. */
  function Calls(steps: seq<Step>, i: nat): seq<Request> {
    if steps == [] then []
    else
      var before, last := Calls(steps[..|steps| - 1], i), steps[|steps| - 1];
      if last.Call? && last.thread == i then before + [last.request] else before
  }

  /** What has been done for a thread, in order. */
  function DoneFor(entries: seq<Entry>, i: nat): seq<Request> {
    if entries == [] then []
    else
      var before, last := DoneFor(entries[..|entries| - 1], i), entries[|entries| - 1];
      if last.thread == i then before + [last.request] else before
  }

  /** A thread got what it asked for, but for what it is still waiting for. */
  predicate Served(steps: seq<Step>, s: State, i: nat) {
    var done := DoneFor(s.returned, i);
    Calls(steps, i) == if ThreadAt(s, i).Idle? then done else done + [ThreadAt(s, i).request]
  }

  lemma CallsSnoc(steps: seq<Step>, step: Step, i: nat)
    ensures Calls(steps + [step], i) ==
      if step.Call? && step.thread == i then Calls(steps, i) + [step.request] else Calls(steps, i)
  {
    assert (steps + [step])[..|steps|] == steps;
  }

  lemma DoneSnoc(entries: seq<Entry>, e: Entry, i: nat)
    ensures DoneFor(entries + [e], i) ==
      if e.thread == i then DoneFor(entries, i) + [e.request] else DoneFor(entries, i)
  {
    assert (entries + [e])[..|entries|] == entries;
  }

  lemma ReturnServes(t: ElementType, before: seq<Step>, s: State, j: nat, i: nat)
    requires 0 < t.width && Enabled(s, ReleaseAndReturn(j)) && Served(before, s, i)
    ensures Served(before + [ReleaseAndReturn(j)], Next(t, s, ReleaseAndReturn(j)), i)
  {
    var th := ThreadAt(s, j);
    CallsSnoc(before, ReleaseAndReturn(j), i);
    DoneSnoc(s.returned, Entry(j, th.request, th.returnValue), i);
  }

  lemma StepServes(t: ElementType, before: seq<Step>, s: State, step: Step, i: nat)
    requires 0 < t.width && Enabled(s, step) && Served(before, s, i)
    ensures Served(before + [step], Next(t, s, step), i)
  {
    if step.ReleaseAndReturn? {
      ReturnServes(t, before, s, step.thread, i);
    } else {
      CallsSnoc(before, step, i);
      assert Next(t, s, step).returned == s.returned;
    }
  }

  lemma Regroup(before: seq<Step>, steps: seq<Step>)
    requires steps != []
    ensures before + [steps[0]] + steps[1..] == before + steps
  {
  }

  lemma {:induction false} RunServes(t: ElementType, before: seq<Step>, s: State, steps: seq<Step>, s': State, i: nat)
    requires 0 < t.width && IsRun(t, s, steps, s') && Served(before, s, i)
    ensures Served(before + steps, s', i)
    decreases |steps|
  {
    if steps == [] {
      assert before + steps == before;
    } else {
      var step, rest := steps[0], steps[1..];
      StepServes(t, before, s, step, i);
      RunServes(t, before + [step], Next(t, s, step), rest, s', i);
      Regroup(before, steps);
    }
  }

  /** After any run each thread got exactly the operations it called, in the order of its calls. */
  lemma EveryCallIsServed(t: ElementType, cell: int, steps: seq<Step>, s: State, i: nat)
    requires 0 < t.width && IsRun(t, Init(cell), steps, s)
    ensures var done := DoneFor(s.returned, i);
      Calls(steps, i) == if ThreadAt(s, i).Idle? then done else done + [ThreadAt(s, i).request]
  {
    RunServes(t, [], Init(cell), steps, s, i);
    assert [] + steps == steps;
  }

  /** After any run that no operation is still inside of: if all were additions or subtractions the
      cell holds the value of its type that is congruent to the initial value plus their signed
      sum; and the returned values form one chain from the initial value. */
  lemma AnyInterleavingAddsUp(t: ElementType, cell: int, steps: seq<Step>, s: State)
    requires IsElementType(t) && InRange(t, cell)
    requires IsRun(t, Init(cell), steps, s) && s.lock == None
    ensures OnlySums(Requests(s.returned)) ==>
      InRange(t, s.cell) && SameLowBits(t.width, cell + SignedSum(Requests(s.returned)), s.cell)
    ensures forall k: nat :: k < |s.returned| ==>
      s.returned[k].returnValue == Run(t, cell, Requests(s.returned[..k]))
  {
    ReachableHolds(t, cell, steps, s);
    assert s.effects == s.returned;
    if OnlySums(Requests(s.returned)) {
      SumOfEffects(t, cell, s);
    }
    forall k: nat | k < |s.returned| ensures s.returned[k].returnValue == Run(t, cell, Requests(s.returned[..k])) {
      assert EntryOk(t, cell, s.effects, k);
    }
  }
}
