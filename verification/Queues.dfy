/** What the queues of the task system promise: rings are first in, first out, and a request that a
    task leaves when it stops is carried out as it was made. */
module Queues {
  import opened Common
  import opened Tasks
  import opened Wakeups

  // ---- Rings are first in, first out ----

  /** The step gives task t to the ring of worker v: a task it spawns, the next of the tasks whose events
      fired, or its own task that yields. */
  ghost predicate Queues(s: System, step: Step, v: nat, t: TaskId)
    requires Can(s, step) && v < |s.workers|
  {
    match step
    case Spawn(w, u) => w == v && u == t
    case QueueFired(w) => w == v && s.workers[w].phase.batch != [] && s.workers[w].phase.batch[0] == t
    case Post(w) => w == v && s.workers[w].phase.task == t && s.workers[w].pending.None? && s.workers[w].yielding
    case _ => false
  }

  /** The step takes the oldest task of a ring in hand. */
  ghost predicate TakesOldest(s: System, step: Step, s': System, v: nat)
    requires v < |s.workers| == |s'.workers|
  {
    && step.Scan? && step.w < |s'.workers|
    && s.workers[v].ring != [] && s'.workers[v].ring == s.workers[v].ring[1..]
    && s'.workers[step.w].phase == Holding(s.workers[v].ring[0])
  }

  lemma PushAppends(s: System, w: nat, t: TaskId, v: nat)
    requires w < |s.workers| && v < |s.workers|
    ensures var s' := Push(s, w, t);
      |s'.workers| == |s.workers|
      && s'.workers[v].ring == if v == w && |s.workers[v].ring| < s.capacity then s.workers[v].ring + [t] else s.workers[v].ring
  {
  }

  lemma QueueingAppends(s: System, step: Step, v: nat)
    requires Can(s, step) && v < |s.workers| && (step.Spawn? || step.QueueFired? || step.Post?)
    ensures |Do(s, step).workers| == |s.workers|
    ensures var ring := s.workers[v].ring;
      (forall t :: Queues(s, step, v, t) ==> Do(s, step).workers[v].ring == if |ring| < s.capacity then ring + [t] else ring)
      && ((forall t :: !Queues(s, step, v, t)) ==> Do(s, step).workers[v].ring == ring)
  {
    match step {
      case Spawn(w, t) =>
        PushAppends(GoTo(s, w, s.workers[w].phase.(owes := true)), w, t, v);
        assert w == v ==> Queues(s, step, v, t);
      case QueueFired(w) =>
        var batch := s.workers[w].phase.batch;
        if batch != [] {
          PushAppends(GoTo(s, w, Queueing(batch[1..])), w, batch[0], v);
          assert w == v ==> Queues(s, step, v, batch[0]);
        }
      case Post(w) =>
        var worker := s.workers[w];
        var idle := SetWorker(s, w, worker.(phase := Scanning(0), current := None, pending := None,
                                            yielding := worker.pending.Some? && worker.yielding));
        PushAppends(idle, w, worker.phase.task, v);
        assert w == v && worker.pending.None? && worker.yielding ==> Queues(s, step, v, worker.phase.task);
    }
  }

  lemma ScanTakesOldest(s: System, w: nat, v: nat)
    requires Can(s, Scan(w)) && v < |s.workers|
    ensures |Do(s, Scan(w)).workers| == |s.workers|
    ensures Do(s, Scan(w)).workers[v].ring == s.workers[v].ring || TakesOldest(s, Scan(w), Do(s, Scan(w)), v)
  {
    VictimInRange(|s.workers|, w, s.workers[w].phase.tried);
  }

  lemma OthersKeepRings(s: System, step: Step, v: nat)
    requires Can(s, step) && v < |s.workers|
    requires !step.Scan? && !step.Spawn? && !step.QueueFired? && !step.Post?
    ensures |Do(s, step).workers| == |s.workers| && Do(s, step).workers[v].ring == s.workers[v].ring
  {
  }

  /** Every step leaves a ring alone, puts the task it queues at the end unless the ring is full, or takes
      the first task off and in hand. */
  lemma RingMoves(s: System, step: Step, v: nat)
    requires Can(s, step) && v < |s.workers|
    ensures |Do(s, step).workers| == |s.workers|
    ensures var ring, ring' := s.workers[v].ring, Do(s, step).workers[v].ring;
      (forall t :: Queues(s, step, v, t) ==> ring' == if |ring| < s.capacity then ring + [t] else ring)
      && ((forall t :: !Queues(s, step, v, t)) ==> ring' == ring || TakesOldest(s, step, Do(s, step), v))
  {
    if step.Scan? {
      ScanTakesOldest(s, step.w, v);
    } else if step.Spawn? || step.QueueFired? || step.Post? {
      QueueingAppends(s, step, v);
    } else {
      OthersKeepRings(s, step, v);
    }
  }

  /** The ring of a worker before each step of a run and after the last. */
  ghost function Trace(s: System, steps: seq<Step>, v: nat): seq<seq<TaskId>>
    ensures Trace(s, steps, v) != []
    decreases |steps|
  {
    var ring := if v < |s.workers| then s.workers[v].ring else [];
    if steps == [] || !Can(s, steps[0]) then [ring] else [ring] + Trace(Do(s, steps[0]), steps[1..], v)
  }

  ghost predicate FrontOrEnd(ring: seq<TaskId>, ring': seq<TaskId>) {
    (ring != [] && ring' == ring[1..]) || ring <= ring'
  }

  ghost predicate QueueTrace(trace: seq<seq<TaskId>>) {
    forall i :: 0 <= i < |trace| - 1 ==> FrontOrEnd(trace[i], trace[i + 1])
  }

  /** How often a ring gets shorter. */
  ghost function Shrinks(trace: seq<seq<TaskId>>): nat {
    if |trace| <= 1 then 0 else (if |trace[1]| < |trace[0]| then 1 else 0) + Shrinks(trace[1..])
  }

  /** How many tasks the steps of a run take from a ring. */
  ghost function TakenFrom(s: System, steps: seq<Step>, v: nat): nat {
    Shrinks(Trace(s, steps, v))
  }

  lemma LaterTrace(trace: seq<seq<TaskId>>)
    requires trace != [] && QueueTrace(trace)
    ensures QueueTrace(trace[1..])
  {
    var later := trace[1..];
    forall i | 0 <= i < |later| - 1 ensures FrontOrEnd(later[i], later[i + 1]) {
      assert FrontOrEnd(trace[i + 1], trace[i + 1 + 1]);
    }
  }

  lemma {:induction false} TraceIsFifo(trace: seq<seq<TaskId>>, i: nat)
    requires trace != [] && QueueTrace(trace) && i < |trace[0]|
    ensures var taken, last := Shrinks(trace), trace[|trace| - 1];
      taken <= i ==> i - taken < |last| && last[i - taken] == trace[0][i]
    decreases |trace|
  {
    if |trace| > 1 {
      assert FrontOrEnd(trace[0], trace[0 + 1]);
      LaterTrace(trace);
      if |trace[1]| >= |trace[0]| {
        TraceIsFifo(trace[1..], i);
      } else if i > 0 {
        TraceIsFifo(trace[1..], i - 1);
      }
    }
  }

  lemma StepFrontOrEnd(s: System, step: Step, v: nat)
    requires Can(s, step) && v < |s.workers|
    ensures |Do(s, step).workers| == |s.workers| && FrontOrEnd(s.workers[v].ring, Do(s, step).workers[v].ring)
  {
    RingMoves(s, step, v);
  }

  lemma {:induction false} RunTraces(s: System, steps: seq<Step>, r: System, v: nat)
    requires Reaches(s, steps, r) && v < |s.workers|
    ensures |r.workers| == |s.workers| && QueueTrace(Trace(s, steps, v))
    ensures Trace(s, steps, v)[0] == s.workers[v].ring
    ensures Trace(s, steps, v)[|Trace(s, steps, v)| - 1] == r.workers[v].ring
    decreases |steps|
  {
    if steps != [] {
      StepFrontOrEnd(s, steps[0], v);
      RunTraces(Do(s, steps[0]), steps[1..], r, v);
      LongerTrace(s.workers[v].ring, Trace(Do(s, steps[0]), steps[1..], v));
    }
  }

  lemma LongerTrace(ring: seq<TaskId>, trace: seq<seq<TaskId>>)
    requires trace != [] && QueueTrace(trace) && FrontOrEnd(ring, trace[0])
    ensures QueueTrace([ring] + trace)
  {
    var longer := [ring] + trace;
    forall i | 0 <= i < |longer| - 1 ensures FrontOrEnd(longer[i], longer[i + 1]) {
      if i > 0 {
        assert longer[i] == trace[i - 1] && longer[i + 1] == trace[i - 1 + 1];
      }
    }
  }

  /** While a task stands at index i of a ring, exactly i tasks are taken from that ring before it, whoever
      takes them and whatever is queued meanwhile. */
  lemma FirstInFirstOut(s: System, steps: seq<Step>, r: System, v: nat, i: nat)
    requires Reaches(s, steps, r) && v < |s.workers| && i < |s.workers[v].ring|
    ensures |r.workers| == |s.workers|
    ensures var taken := TakenFrom(s, steps, v);
      taken <= i ==> i - taken < |r.workers[v].ring| && r.workers[v].ring[i - taken] == s.workers[v].ring[i]
  {
    RunTraces(s, steps, r, v);
    TraceIsFifo(Trace(s, steps, v), i);
  }

  /** The task that stood at index i is the one taken when i others have been taken. */
  lemma TakenInOrder(s: System, steps: seq<Step>, r: System, v: nat, i: nat, step: Step)
    requires Reaches(s, steps, r) && v < |s.workers| && i < |s.workers[v].ring| && TakenFrom(s, steps, v) == i
    requires Can(r, step)
    ensures |r.workers| == |s.workers| == |Do(r, step).workers|
    ensures |Do(r, step).workers[v].ring| < |r.workers[v].ring| ==>
      step.Scan? && Do(r, step).workers[step.w].phase == Holding(s.workers[v].ring[i])
  {
    FirstInFirstOut(s, steps, r, v, i);
    RingMoves(r, step, v);
  }

  /** A task that yields while its worker's ring has room comes after everything queued there, and its
      worker goes on with the oldest task of the ring. */
  lemma YieldingComesLast(s: System, w: nat, steps: seq<Step>, r: System)
    requires Can(s, Post(w)) && s.workers[w].pending.None? && s.workers[w].yielding && |s.workers[w].ring| < s.capacity
    requires Reaches(Do(s, Post(w)), steps, r)
    ensures |r.workers| == |s.workers|
    ensures var t, n, taken := s.workers[w].phase.task, |s.workers[w].ring|, TakenFrom(Do(s, Post(w)), steps, w);
      taken <= n ==> n - taken < |r.workers[w].ring| && r.workers[w].ring[n - taken] == t
    ensures s.workers[w].ring != [] ==>
      var posted := Do(s, Post(w));
      Can(posted, Scan(w)) && w < |Do(posted, Scan(w)).workers|
      && Do(posted, Scan(w)).workers[w].phase == Holding(s.workers[w].ring[0])
  {
    var t := s.workers[w].phase.task;
    assert Queues(s, Post(w), w, t);
    RingMoves(s, Post(w), w);
    FirstInFirstOut(Do(s, Post(w)), steps, r, w, |s.workers[w].ring|);
    if s.workers[w].ring != [] {
      OwnRingFirst(Do(s, Post(w)), w);
    }
  }

  /** A scan begins with the worker's own ring. */
  lemma OwnRingFirst(s: System, w: nat)
    requires w < |s.workers| && s.workers[w].phase == Scanning(0) && s.workers[w].ring != []
    ensures Can(s, Scan(w)) && TakesOldest(s, Scan(w), Do(s, Scan(w)), w)
  {
  }

  // ---- Requests are carried out as they were made ----

  /** No step of worker w. */
  ghost predicate Without(w: nat, steps: seq<Step>) {
    forall i :: 0 <= i < |steps| ==> steps[i].StopRequest? || steps[i].InterruptRequest? || steps[i].w != w
  }

  /** What a worker has in hand, and the request its task left. */
  ghost predicate SameRequest(a: Worker, b: Worker) {
    a.phase == b.phase && a.pending == b.pending && a.yielding == b.yielding
  }

  lemma OthersKeepRequest(s: System, step: Step, w: nat)
    requires Can(s, step) && w < |s.workers| && (step.StopRequest? || step.InterruptRequest? || step.w != w)
    ensures |Do(s, step).workers| == |s.workers| && SameRequest(s.workers[w], Do(s, step).workers[w])
    ensures |Do(s, step).armed| == |s.armed|
  {
    Bystander(s, step, w);
    if step.Scan? {
      VictimInRange(|s.workers|, step.w, s.workers[step.w].phase.tried);
    } else if step.Wake? {
      FireLength(s.armed, step.fired);
    }
  }

  lemma {:induction false} FireLength(armed: seq<Option<TaskId>>, fired: seq<Source>)
    ensures |Fire(armed, fired).0| == |armed|
    decreases |fired|
  {
    if fired != [] {
      if fired[0] < |armed| && armed[fired[0]].Some? {
        FireLength(armed[fired[0] := None], fired[1..]);
      } else {
        FireLength(armed, fired[1..]);
      }
    }
  }

  lemma {:induction false} RequestStands(s: System, steps: seq<Step>, r: System, w: nat)
    requires Reaches(s, steps, r) && w < |s.workers| && Without(w, steps)
    ensures |r.workers| == |s.workers| && SameRequest(s.workers[w], r.workers[w]) && |r.armed| == |s.armed|
    decreases |steps|
  {
    if steps != [] {
      OthersKeepRequest(s, steps[0], w);
      assert forall i :: 0 <= i < |steps[1..]| ==> steps[1..][i] == steps[i + 1];
      RequestStands(Do(s, steps[0]), steps[1..], r, w);
    }
  }

  /** A task that waits for an event is registered on that very source, suspended, and on no other. */
  lemma WaitTakesEffect(s: System, w: nat, e: Source, steps: seq<Step>, r: System)
    requires Inv(s) && Can(s, WaitEvent(w, e)) && Reaches(Do(s, WaitEvent(w, e)), steps, r) && Without(w, steps)
    ensures Can(r, Post(w)) && e < |r.armed|
    ensures var t := s.workers[w].phase.task;
      Do(r, Post(w)).armed == r.armed[e := Some(t)] && IsSuspended(Do(r, Post(w)), t)
  {
    Afterwards(s, WaitEvent(w, e), steps, r, w);
    StepKeepsInv(r, Post(w));
  }

  /** What a step of the worker has left stands until its next step. */
  lemma Afterwards(s: System, step: Step, steps: seq<Step>, r: System, w: nat)
    requires Inv(s) && Can(s, step) && w < |s.workers| == |Do(s, step).workers| && Reaches(Do(s, step), steps, r) && Without(w, steps)
    ensures Inv(r) && |r.workers| == |s.workers| && SameRequest(Do(s, step).workers[w], r.workers[w])
    ensures |r.armed| == |Do(s, step).armed|
    ensures WorkerOk(r, w, r.workers[w])
  {
    StepKeepsInv(s, step);
    RunKeepsInv(Do(s, step), steps, r);
    RequestStands(Do(s, step), steps, r, w);
  }

  /** A task that yields is queued, suspended, at the end of its worker's ring when that has room. */
  lemma YieldTakesEffect(s: System, w: nat, steps: seq<Step>, r: System)
    requires Inv(s) && Can(s, Yield(w)) && Reaches(Do(s, Yield(w)), steps, r) && Without(w, steps)
    ensures Can(r, Post(w)) && w < |Do(r, Post(w)).workers|
    ensures var t, ring := s.workers[w].phase.task, r.workers[w].ring;
      Do(r, Post(w)).workers[w].ring == (if |ring| < r.capacity then ring + [t] else ring) && IsSuspended(Do(r, Post(w)), t)
  {
    assert WorkerOk(s, w, s.workers[w]);
    Afterwards(s, Yield(w), steps, r, w);
    assert Queues(r, Post(w), w, s.workers[w].phase.task);
    RingMoves(r, Post(w), w);
  }

  /** A task that returns, or leaves with Exit, is gone after its worker's next step, and no other is; after
      Exit its worker has been told to stop. */
  lemma EndTakesEffect(s: System, step: Step, steps: seq<Step>, r: System)
    requires Inv(s) && Can(s, step) && (step.Return? || step.Exit?)
    requires Reaches(Do(s, step), steps, r) && Without(step.w, steps)
    ensures Can(r, Post(step.w)) && step.w < |Do(r, Post(step.w)).workers|
    ensures Do(r, Post(step.w)).tasks == r.tasks - {s.workers[step.w].phase.task}
    ensures step.Exit? ==> !Do(r, Post(step.w)).workers[step.w].running
  {
    var w := step.w;
    assert WorkerOk(s, w, s.workers[w]);
    Afterwards(s, step, steps, r, w);
    if step.Exit? {
      assert !Do(s, step).workers[w].running;
      StaysTold(Do(s, step), steps, r, w);
    }
  }

  lemma {:induction false} StaysTold(s: System, steps: seq<Step>, r: System, w: nat)
    requires Reaches(s, steps, r) && w < |s.workers| && !s.workers[w].running
    ensures |r.workers| == |s.workers| && !r.workers[w].running
    decreases |steps|
  {
    if steps != [] {
      StepNeverBack(s, steps[0]);
      StaysTold(Do(s, steps[0]), steps[1..], r, w);
    }
  }

  // ---- Fired events ----

  lemma {:induction false} FireConcat(armed: seq<Option<TaskId>>, a: seq<Source>, b: seq<Source>)
    ensures var (left, first) := Fire(armed, a);
      Fire(armed, a + b) == (Fire(left, b).0, first + Fire(left, b).1)
    decreases |a|
  {
    if a == [] {
      assert a + b == b && [] + Fire(armed, b).1 == Fire(armed, b).1;
    } else {
      assert (a + b)[1..] == a[1..] + b;
      if a[0] < |armed| && armed[a[0]].Some? {
        var next := armed[a[0] := None];
        FireConcat(next, a[1..], b);
        var head := [armed[a[0]].value];
        assert head + (Fire(next, a[1..]).1 + Fire(Fire(next, a[1..]).0, b).1) == (head + Fire(next, a[1..]).1) + Fire(Fire(next, a[1..]).0, b).1;
      } else {
        FireConcat(armed, a[1..], b);
      }
    }
  }

  /** The tasks registered on the sources of a list, each source counting where it first occurs. */
  ghost function Waiters(armed: seq<Option<TaskId>>, fired: seq<Source>): seq<TaskId> {
    if fired == [] then []
    else
      var n := |fired| - 1;
      var e := fired[n];
      Waiters(armed, fired[..n]) + (if e !in fired[..n] && e < |armed| && armed[e].Some? then [armed[e].value] else [])
  }

  /** Waiting delivers exactly the tasks registered on the fired sources, in the order the events came, takes
      those registrations off and leaves all others. */
  lemma {:induction false} FireDelivers(armed: seq<Option<TaskId>>, fired: seq<Source>)
    ensures var (left, batch) := Fire(armed, fired);
      batch == Waiters(armed, fired) && |left| == |armed|
      && forall e :: 0 <= e < |armed| ==> left[e] == if e in fired then None else armed[e]
    decreases |fired|
  {
    if fired != [] {
      var n := |fired| - 1;
      var last := [fired[n]];
      FireDelivers(armed, fired[..n]);
      FireConcat(armed, fired[..n], last);
      assert fired == fired[..n] + last;
      var left := Fire(armed, fired[..n]).0;
      assert last[1..] == [];
      FireOne(left, fired[n]);
    }
  }

  lemma FireOne(armed: seq<Option<TaskId>>, e: Source)
    ensures Fire(armed, [e]) == if e < |armed| && armed[e].Some? then (armed[e := None], [armed[e].value]) else (armed, [])
  {
    var fired := [e];
    assert fired[0] == e && fired[1..] == [];
    if e < |armed| && armed[e].Some? {
      assert Fire(armed[e := None], []) == (armed[e := None], []) && [armed[e].value] + [] == [armed[e].value];
    }
  }

  ghost predicate AllQueueing(w: nat, steps: seq<Step>) {
    forall i :: 0 <= i < |steps| ==> steps[i] == QueueFired(w)
  }

  /** A batch is queued whole and in order when its worker's ring has room and nobody takes from it. */
  lemma {:induction false} BatchIsQueued(s: System, w: nat, steps: seq<Step>, r: System)
    requires w < |s.workers| && s.workers[w].phase.Queueing?
    requires Reaches(s, steps, r) && AllQueueing(w, steps) && |steps| == |s.workers[w].phase.batch| + 1
    requires |s.workers[w].ring| + |s.workers[w].phase.batch| <= s.capacity
    ensures |r.workers| == |s.workers| && r.workers[w].phase == Scanning(0)
    ensures r.workers[w].ring == s.workers[w].ring + s.workers[w].phase.batch && r.dropped == s.dropped
    decreases |steps|
  {
    var batch := s.workers[w].phase.batch;
    assert steps[0] == QueueFired(w);
    assert forall i :: 0 <= i < |steps[1..]| ==> steps[1..][i] == steps[i + 1];
    if batch == [] {
      assert steps[1..] == [];
    } else {
      BatchIsQueued(Do(s, steps[0]), w, steps[1..], r);
      assert s.workers[w].ring + [batch[0]] + batch[1..] == s.workers[w].ring + batch;
    }
  }

  // ---- The wake-up counter and the start of tasks ----

  /** The step raises the wake-up counter. */
  ghost predicate Interrupts(s: System, step: Step)
    requires Can(s, step)
  {
    step.Interrupt? || step.InterruptRequest? || (step.StopPass? && s.workers[step.w].phase.next >= |s.workers|)
  }

  ghost predicate NeverInterrupts(s: System, steps: seq<Step>)
    decreases |steps|
  {
    steps == [] || (Can(s, steps[0]) && !Interrupts(s, steps[0]) && NeverInterrupts(Do(s, steps[0]), steps[1..]))
  }

  /** Every interrupt counts, and one drain takes them all. */
  lemma CounterMoves(s: System, step: Step)
    requires Can(s, step)
    ensures Do(s, step).wakeups == if step.Drain? then 0 else s.wakeups + (if Interrupts(s, step) then 1 else 0)
  {
  }

  /** After a drain nobody wakes without an event or a signal until somebody interrupts again. */
  lemma {:induction false} NoSpuriousWake(s: System, steps: seq<Step>, r: System, w: nat)
    requires s.wakeups == 0 && Reaches(s, steps, r) && NeverInterrupts(s, steps)
    ensures r.wakeups == 0 && !Can(r, Wake(w, []))
    decreases |steps|
  {
    if steps != [] {
      CounterMoves(s, steps[0]);
      NoSpuriousWake(Do(s, steps[0]), steps[1..], r, w);
    }
  }

  /** A task counts as not started from its spawn until it is first given control, and never again. */
  lemma FreshUntilRun(s: System, step: Step, t: TaskId)
    requires Inv(s) && Can(s, step) && t in Do(s, step).tasks
    ensures Do(s, step).tasks[t].state.NotStarted? <==>
      (step.Spawn? && step.task == t)
      || (t in s.tasks && s.tasks[t].state.NotStarted? && !(step.SwitchTo? && s.workers[step.w].phase.task == t))
  {
    if Switches(step) || step.Post? || step.Spawn? {
      assert WorkerOk(s, step.w, s.workers[step.w]);
    } else {
      OthersKeepTasks(s, step);
    }
  }

  lemma OthersKeepTasks(s: System, step: Step)
    requires Can(s, step) && !Switches(step) && !step.Post? && !step.Spawn?
    ensures Do(s, step).tasks == s.tasks
  {
  }

  // ---- From an event, or a spawn, to a running task ----

  /** Behind a spawn the task can do nothing but interrupt, whatever the other workers do meanwhile; then every
      parked worker can wake. */
  lemma SpawnWakesOthers(s: System, w: nat, t: TaskId, steps: seq<Step>, r: System)
    requires Inv(s) && Can(s, Spawn(w, t)) && Reaches(Do(s, Spawn(w, t)), steps, r) && Without(w, steps)
    ensures Can(r, Interrupt(w))
    ensures forall step :: Can(r, step) && !step.StopRequest? && !step.InterruptRequest? && step.w == w ==> step == Interrupt(w)
    ensures var r' := Do(r, Interrupt(w));
      forall v :: 0 <= v < |r'.workers| && r'.workers[v].phase.Parked? ==> Can(r', Wake(v, []))
  {
    SpawnOwing(s, w, t);
    Afterwards(s, Spawn(w, t), steps, r, w);
    forall step | Can(r, step) && !step.StopRequest? && !step.InterruptRequest? && step.w == w ensures step == Interrupt(w) {
      OnlyInterrupt(r, w, step);
    }
    InterruptWakesAll(r, w);
  }

  ghost predicate Owing(s: System, w: nat) {
    w < |s.workers| && s.workers[w].phase.Running? && s.workers[w].phase.owes
  }

  lemma SpawnOwing(s: System, w: nat, t: TaskId)
    requires Can(s, Spawn(w, t))
    ensures |Do(s, Spawn(w, t)).workers| == |s.workers| && Owing(Do(s, Spawn(w, t)), w)
  {
    PushPhase(GoTo(s, w, s.workers[w].phase.(owes := true)), w, t);
  }

  lemma OnlyInterrupt(s: System, w: nat, step: Step)
    requires Owing(s, w) && Can(s, step) && !step.StopRequest? && !step.InterruptRequest? && step.w == w
    ensures step == Interrupt(w)
  {
  }

  lemma InterruptWakesAll(s: System, w: nat)
    requires Owing(s, w)
    ensures Can(s, Interrupt(w))
    ensures var s' := Do(s, Interrupt(w));
      forall v :: 0 <= v < |s'.workers| && s'.workers[v].phase.Parked? ==> Can(s', Wake(v, []))
  {
  }

  /** Steps of worker w and nobody else. */
  ghost predicate OnlyBy(w: nat, steps: seq<Step>) {
    forall i :: 0 <= i < |steps| ==> !steps[i].StopRequest? && !steps[i].InterruptRequest? && steps[i].w == w
  }

  /** One step more of the same worker. */
  lemma Further(s0: System, steps: seq<Step>, s: System, w: nat, step: Step) returns (longer: seq<Step>, s': System)
    requires Reaches(s0, steps, s) && OnlyBy(w, steps) && Can(s, step)
    requires !step.StopRequest? && !step.InterruptRequest? && step.w == w
    ensures Reaches(s0, longer, s') && OnlyBy(w, longer) && s' == Do(s, step)
  {
    ReachesOneMore(s0, steps, s, step);
    longer, s' := steps + [step], Do(s, step);
  }

  lemma {:induction false} ReachesOneMore(s0: System, steps: seq<Step>, s: System, step: Step)
    requires Reaches(s0, steps, s) && Can(s, step)
    ensures Reaches(s0, steps + [step], Do(s, step))
    decreases |steps|
  {
    if steps == [] {
      assert [step][1..] == [];
    } else {
      ReachesOneMore(Do(s0, steps[0]), steps[1..], s, step);
      assert (steps + [step])[1..] == steps[1..] + [step];
    }
  }

  /** A parked worker whose ring is empty, when the event fires that a task waits for: by its own steps alone it
      comes to run that task. */
  lemma EventRunsTask(s: System, w: nat, e: Source) returns (steps: seq<Step>, r: System)
    requires Inv(s) && w < |s.workers| && s.workers[w].phase.Parked? && s.workers[w].ring == [] && s.capacity > 0
    requires e < |s.armed| && s.armed[e].Some?
    ensures Reaches(s, steps, r) && OnlyBy(w, steps)
    ensures |r.workers| == |s.workers| && r.workers[w].phase == Running(s.armed[e].value, false)
    ensures s.armed[e].value in r.tasks && r.tasks[s.armed[e].value] == TaskInfo(Executing, w)
  {
    var t := s.armed[e].value;
    assert IsSuspended(s, t);
    steps, r := EventQueues(s, w, e);
    OwnRingFirst(r, w);
    var taken;
    steps, taken := Further(s, steps, r, w, Scan(w));
    steps, r := Further(s, steps, taken, w, SwitchTo(w));
  }

  lemma EventQueues(s: System, w: nat, e: Source) returns (steps: seq<Step>, r: System)
    requires w < |s.workers| && s.workers[w].phase.Parked? && s.workers[w].ring == [] && s.capacity > 0
    requires e < |s.armed| && s.armed[e].Some?
    ensures Reaches(s, steps, r) && OnlyBy(w, steps)
    ensures |r.workers| == |s.workers| && r.workers[w].phase == Scanning(0) && r.workers[w].ring == [s.armed[e].value]
    ensures r.tasks == s.tasks
  {
    steps, r := EventWakes(s, w, e);
    var first, last := QueuesOne(r, w, s.armed[e].value);
    steps, first := Further(s, steps, r, w, QueueFired(w));
    steps, r := Further(s, steps, first, w, QueueFired(w));
  }

  lemma EventWakes(s: System, w: nat, e: Source) returns (steps: seq<Step>, r: System)
    requires w < |s.workers| && s.workers[w].phase.Parked? && e < |s.armed| && s.armed[e].Some?
    ensures Reaches(s, steps, r) && OnlyBy(w, steps)
    ensures |r.workers| == |s.workers| && r.workers[w].phase == Queueing([s.armed[e].value])
    ensures r.workers[w].ring == s.workers[w].ring && r.tasks == s.tasks && r.capacity == s.capacity
  {
    FireOne(s.armed, e);
    var woken;
    steps, woken := Further(s, [], s, w, Wake(w, [e]));
    steps, r := Further(s, steps, woken, w, Drain(w));
  }

  lemma QueuesOne(s: System, w: nat, t: TaskId) returns (s1: System, s2: System)
    requires w < |s.workers| && s.workers[w].phase == Queueing([t]) && s.workers[w].ring == [] && s.capacity > 0
    ensures Can(s, QueueFired(w)) && s1 == Do(s, QueueFired(w)) && Can(s1, QueueFired(w)) && s2 == Do(s1, QueueFired(w))
    ensures |s2.workers| == |s.workers| && s2.workers[w].phase == Scanning(0) && s2.workers[w].ring == [t] && s2.tasks == s.tasks
  {
    s1 := Do(s, QueueFired(w));
    s2 := Do(s1, QueueFired(w));
  }

  /** Turns of a scan, and the check after it, until an idle worker is back in Wait. */
  ghost function TurnsLeft(s: System, w: nat): nat
    requires w < |s.workers|
  {
    match s.workers[w].phase
    case Scanning(k) => if k <= |s.workers| then |s.workers| + 3 - k else 2
    case Checking => 1
    case _ => 0
  }

  /** A worker that finds nothing to do goes back to wait for events, unless it has been told to stop. */
  lemma {:induction false} IdleWorkerParks(s: System, w: nat) returns (steps: seq<Step>, r: System)
    requires w < |s.workers| && s.workers[w].running && (s.workers[w].phase.Scanning? || s.workers[w].phase.Checking?)
    requires forall v :: 0 <= v < |s.workers| ==> s.workers[v].ring == []
    ensures Reaches(s, steps, r) && |steps| == TurnsLeft(s, w)
    ensures |r.workers| == |s.workers| && r.workers[w].phase.Parked?
    decreases TurnsLeft(s, w)
  {
    if s.workers[w].phase.Checking? {
      steps, r := [Check(w)], Do(s, Check(w));
      assert [Check(w)][1..] == [];
    } else {
      if s.workers[w].phase.tried <= |s.workers| {
        VictimInRange(|s.workers|, w, s.workers[w].phase.tried);
      }
      var next := Do(s, Scan(w));
      var more;
      more, r := IdleWorkerParks(next, w);
      steps := [Scan(w)] + more;
      assert steps[1..] == more;
    }
  }
}
