/** The fiber task system of task/ over an abstract event queue, as a step relation. Every ring
    operation (under the ring's mutex) and every event-queue call is one atomic step; what a
    worker does between two of them touches only its own fields. */
module Tasks {
  import opened Common

  type TaskId = nat
  type Source = nat

  datatype TaskState = NotStarted | Executing | Suspended

  /** `thread` is meaningful while the task executes. */
  datatype TaskInfo = TaskInfo(state: TaskState, thread: nat)

  /** Where a worker is in ThreadProc. */
  datatype Phase =
    | Checking                              // at the test of running_
    | Parked                                // inside EventQueue::Wait
    | Draining(batch: seq<TaskId>)          // events taken, wake-up counter not drained yet
    | Queueing(batch: seq<TaskId>)          // queueing the tasks of fired events
    | Scanning(tried: nat)                  // DequeNextTask, so many rings tried
    | Holding(task: TaskId)                 // dequeued, not switched to yet
    | Running(task: TaskId, owes: bool)     // its fiber runs; `owes` an InterruptAll after queueing a task
    | Posting(task: TaskId)                 // the fiber has switched back; PostTask is next
    | Stopping(next: nat, seen: bool)       // StopInternal: next worker to look at, unfinished one seen in this pass
    | Done

  datatype Worker = Worker(
    phase: Phase, ring: seq<TaskId>,
    current: Option<TaskId>, pending: Option<Source>, yielding: bool,
    running: bool, finished: bool, woken: bool)

  /** `armed[e]` is the task registered on event source e. `dropped` collects the tasks lost
      to a full ring, to a second registration on the same source or to the removal of their source. */
  datatype System = System(
    capacity: nat, workers: seq<Worker>, tasks: map<TaskId, TaskInfo>,
    armed: seq<Option<TaskId>>, wakeups: nat, dropped: multiset<TaskId>)

  datatype Step =
    | Check(w: nat)
    | Wake(w: nat, fired: seq<Source>)
    | WakeOnSignal(w: nat)
    | Drain(w: nat)
    | QueueFired(w: nat)
    | Scan(w: nat)
    | SwitchTo(w: nat)
    | Spawn(w: nat, task: TaskId)
    | Interrupt(w: nat)
    | WaitEvent(w: nat, source: Source)
    | Remove(w: nat, source: Source)
    | Yield(w: nat)
    | Exit(w: nat)
    | Return(w: nat)
    | Post(w: nat)
    | StopPass(w: nat)
    | StopRequest(victim: nat)      // TaskManager::Stop, from any thread
    | InterruptRequest              // its InterruptAll

  function SetWorker(s: System, w: nat, worker: Worker): System
    requires w < |s.workers|
  {
    s.(workers := s.workers[w := worker])
  }

  function GoTo(s: System, w: nat, phase: Phase): System
    requires w < |s.workers|
  {
    SetWorker(s, w, s.workers[w].(phase := phase))
  }

  /** QueueTask: the ring's refusal is ignored. */
  function Push(s: System, w: nat, t: TaskId): System
    requires w < |s.workers|
  {
    var worker := s.workers[w];
    if |worker.ring| < s.capacity then SetWorker(s, w, worker.(ring := worker.ring + [t]))
    else s.(dropped := s.dropped + multiset{t})
  }

  function SetState(s: System, t: TaskId, info: TaskInfo): System {
    s.(tasks := s.tasks[t := info])
  }

  /** Tasks registered on the fired sources, in order; one-shot registrations are taken off. */
  function Fire(armed: seq<Option<TaskId>>, fired: seq<Source>): (seq<Option<TaskId>>, seq<TaskId>)
    decreases |fired|
  {
    if fired == [] then (armed, [])
    else if fired[0] < |armed| && armed[fired[0]].Some? then
      var (left, batch) := Fire(armed[fired[0] := None], fired[1..]);
      (left, [armed[fired[0]].value] + batch)
    else Fire(armed, fired[1..])
  }

  /** The ring tried k-th by worker w: its own, then all of them starting with its own. */
  function Victim(n: nat, w: nat, k: nat): nat
    requires w < n
  {
    if k == 0 then w else (w + k - 1) % n
  }

  /** When a step can be taken. */
  predicate Can(s: System, step: Step) {
    match step
    case StopRequest(victim) => victim < |s.workers|
    case InterruptRequest => true
    case _ =>
      step.w < |s.workers| &&
      var worker := s.workers[step.w];
      match step
      case Check(_) => worker.phase.Checking?
      case Wake(_, fired) => worker.phase.Parked? && (s.wakeups > 0 || Fire(s.armed, fired).1 != [])
      case WakeOnSignal(_) => worker.phase.Parked?
      case Drain(_) => worker.phase.Draining?
      case QueueFired(_) => worker.phase.Queueing?
      case Scan(_) => worker.phase.Scanning?
      case SwitchTo(_) => worker.phase.Holding? && worker.phase.task in s.tasks
      case Spawn(_, t) => worker.phase.Running? && !worker.phase.owes && t !in s.tasks
      case Interrupt(_) => worker.phase.Running? && worker.phase.owes
      case WaitEvent(_, source) => worker.phase.Running? && !worker.phase.owes && source < |s.armed|
      case Remove(_, source) => worker.phase.Running? && !worker.phase.owes && source < |s.armed|
      case Yield(_) => worker.phase.Running? && !worker.phase.owes
      case Exit(_) => worker.phase.Running? && !worker.phase.owes
      case Return(_) => worker.phase.Running? && !worker.phase.owes
      case Post(_) => worker.phase.Posting? && (worker.pending.Some? ==> worker.pending.value < |s.armed|)
      case StopPass(_) => worker.phase.Stopping?
  }

  /** TaskContext's suspending calls: leave a request, mark the task suspended, switch back. */
  function SuspendCurrent(s: System, w: nat, worker: Worker): System
    requires w < |s.workers| && worker.phase.Running?
  {
    var t := worker.phase.task;
    SetState(SetWorker(s, w, worker.(phase := Posting(t))), t, TaskInfo(Suspended, w))
  }

  /** PostTask: arm the pending event, requeue a yielding task, or destroy the task. */
  function PostTask(s: System, w: nat): System
    requires w < |s.workers| && s.workers[w].phase.Posting?
    requires s.workers[w].pending.Some? ==> s.workers[w].pending.value < |s.armed|
  {
    var worker := s.workers[w];
    var t := worker.phase.task;
    var idle := SetWorker(s, w, worker.(phase := Scanning(0), current := None, pending := None,
                                        yielding := worker.pending.Some? && worker.yielding));
    if worker.pending.Some? then
      var e := worker.pending.value;
      var lost := if s.armed[e].Some? then multiset{s.armed[e].value} else multiset{};
      idle.(armed := s.armed[e := Some(t)], dropped := s.dropped + lost)
    else if worker.yielding then Push(idle, w, t)
    else idle.(tasks := s.tasks - {t})
  }

  /** The test of running_: wait for events, or leave the loop for StopInternal. */
  function CheckRunning(s: System, w: nat): System
    requires w < |s.workers|
  {
    var worker := s.workers[w];
    SetWorker(s, w, if worker.running then worker.(phase := Parked) else worker.(finished := true, phase := Stopping(0, false)))
  }

  function WakeUp(s: System, w: nat, fired: seq<Source>): System
    requires w < |s.workers|
  {
    var (left, batch) := Fire(s.armed, fired);
    SetWorker(s, w, s.workers[w].(phase := Draining(batch), woken := true)).(armed := left)
  }

  function QueueNext(s: System, w: nat): System
    requires w < |s.workers| && s.workers[w].phase.Queueing?
  {
    var batch := s.workers[w].phase.batch;
    if batch == [] then GoTo(s, w, Scanning(0)) else Push(GoTo(s, w, Queueing(batch[1..])), w, batch[0])
  }

  /** One ring of DequeNextTask. */
  function ScanRing(s: System, w: nat): System
    requires w < |s.workers| && s.workers[w].phase.Scanning?
  {
    var k := s.workers[w].phase.tried;
    if k > |s.workers| then GoTo(s, w, Checking)
    else
      var v := Victim(|s.workers|, w, k);
      var victim := s.workers[v];
      if victim.ring == [] then GoTo(s, w, Scanning(k + 1))
      else GoTo(SetWorker(s, v, victim.(ring := victim.ring[1..])), w, Holding(victim.ring[0]))
  }

  /** PreTask, then Execute or Resume. */
  function Begin(s: System, w: nat): System
    requires w < |s.workers| && s.workers[w].phase.Holding?
  {
    var worker := s.workers[w];
    var t := worker.phase.task;
    SetState(SetWorker(s, w, worker.(phase := Running(t, false), current := Some(t))), t, TaskInfo(Executing, w))
  }

  /** PerformAsync up to its interrupt. */
  function SpawnTask(s: System, w: nat, t: TaskId): System
    requires w < |s.workers| && s.workers[w].phase.Running?
  {
    SetState(Push(GoTo(s, w, s.workers[w].phase.(owes := true)), w, t), t, TaskInfo(NotStarted, 0))
  }

  /** A running task takes a source off the queue, and with it whoever still waits on it. */
  function RemoveEvent(s: System, e: Source): System
    requires e < |s.armed|
  {
    var lost := if s.armed[e].Some? then multiset{s.armed[e].value} else multiset{};
    s.(armed := s.armed[e := None], dropped := s.dropped + lost)
  }

  /** One worker, or the end, of a pass of StopInternal. */
  function StopNext(s: System, w: nat): System
    requires w < |s.workers| && s.workers[w].phase.Stopping?
  {
    var i, seen := s.workers[w].phase.next, s.workers[w].phase.seen;
    if i < |s.workers| then
      if s.workers[i].finished then GoTo(s, w, Stopping(i + 1, seen))
      else GoTo(SetWorker(s, i, s.workers[i].(running := false)), w, Stopping(i + 1, true))
    else GoTo(s, w, if seen then Stopping(0, false) else Done).(wakeups := s.wakeups + 1)
  }

  function Do(s: System, step: Step): System
    requires Can(s, step)
  {
    match step
    case Check(w) => CheckRunning(s, w)
    case Wake(w, fired) => WakeUp(s, w, fired)
    case WakeOnSignal(w) => SetWorker(s, w, s.workers[w].(phase := Queueing([]), woken := true))
    case Drain(w) => GoTo(s, w, Queueing(s.workers[w].phase.batch)).(wakeups := 0)
    case QueueFired(w) => QueueNext(s, w)
    case Scan(w) => ScanRing(s, w)
    case SwitchTo(w) => Begin(s, w)
    case Spawn(w, t) => SpawnTask(s, w, t)
    case Interrupt(w) => GoTo(s, w, s.workers[w].phase.(owes := false)).(wakeups := s.wakeups + 1)
    case WaitEvent(w, source) => SuspendCurrent(s, w, s.workers[w].(pending := Some(source)))
    case Remove(_, source) => RemoveEvent(s, source)
    case Yield(w) => SuspendCurrent(s, w, s.workers[w].(yielding := true))
    case Exit(w) => SuspendCurrent(s, w, s.workers[w].(running := false))
    case Return(w) => GoTo(s, w, Posting(s.workers[w].phase.task))
    case Post(w) => PostTask(s, w)
    case StopPass(w) => StopNext(s, w)
    case StopRequest(victim) => SetWorker(s, victim, s.workers[victim].(running := false))
    case InterruptRequest => s.(wakeups := s.wakeups + 1)
  }

  /** After start-up: worker 0 holds the entry points (those that fit), the others nothing, and
      the wake-up counter was raised if there is any entry point. */
  ghost predicate Init(s: System, entries: seq<TaskId>) {
    && s.workers != []
    && (forall i, j :: 0 <= i < j < |entries| ==> entries[i] != entries[j])
    && s.tasks.Keys == (set t | t in entries)
    && (forall t :: t in s.tasks ==> s.tasks[t].state.NotStarted?)
    && (forall e :: 0 <= e < |s.armed| ==> s.armed[e].None?)
    && var fit := if |entries| <= s.capacity then |entries| else s.capacity;
    && s.dropped == multiset(entries[fit..])
    && s.wakeups == (if entries == [] then 0 else 1)
    && (forall w :: 0 <= w < |s.workers| ==> NewWorker(s.workers[w], if w == 0 then entries[..fit] else []))
    && s.workers[0].phase.Checking?
  }

  ghost predicate NewWorker(worker: Worker, ring: seq<TaskId>) {
    && (worker.phase.Checking? || worker.phase.Parked?) && worker.ring == ring
    && worker.current.None? && worker.pending.None? && !worker.yielding
    && worker.running && !worker.finished && !worker.woken
  }

  // ---- Conservation ----

  /** How often a task occurs in what a worker has in hand, apart from its ring. */
  ghost function InHand(phase: Phase, t: TaskId): nat {
    match phase
    case Draining(batch) => multiset(batch)[t]
    case Queueing(batch) => multiset(batch)[t]
    case Holding(u) => if u == t then 1 else 0
    case Running(u, _) => if u == t then 1 else 0
    case Posting(u) => if u == t then 1 else 0
    case _ => 0
  }

  ghost function AtWorker(worker: Worker, t: TaskId): nat {
    multiset(worker.ring)[t] + InHand(worker.phase, t)
  }

  ghost function AtWorkers(ws: seq<Worker>, t: TaskId): nat {
    if ws == [] then 0 else AtWorker(ws[0], t) + AtWorkers(ws[1..], t)
  }

  ghost function AtEvents(armed: seq<Option<TaskId>>, t: TaskId): nat {
    if armed == [] then 0 else (if armed[0] == Some(t) then 1 else 0) + AtEvents(armed[1..], t)
  }

  /** In how many places a task is: rings and hands of workers, armed events, the dropped bucket. */
  ghost function Places(s: System, t: TaskId): nat {
    AtWorkers(s.workers, t) + AtEvents(s.armed, t) + s.dropped[t]
  }

  ghost function Live(s: System, t: TaskId): nat {
    if t in s.tasks then 1 else 0
  }

  /** Every live task is in exactly one place, and nothing else is anywhere. */
  ghost predicate Conserved(s: System) {
    forall t :: Places(s, t) == Live(s, t)
  }

  lemma {:induction false} WorkersUpdate(ws: seq<Worker>, w: nat, worker: Worker, t: TaskId)
    requires w < |ws|
    ensures AtWorkers(ws[w := worker], t) + AtWorker(ws[w], t) == AtWorkers(ws, t) + AtWorker(worker, t)
    decreases |ws|
  {
    if w == 0 {
      assert ws[w := worker][1..] == ws[1..];
    } else {
      WorkersUpdate(ws[1..], w - 1, worker, t);
      assert ws[w := worker][1..] == ws[1..][w - 1 := worker];
    }
  }

  lemma {:induction false} WorkersHold(ws: seq<Worker>, w: nat, t: TaskId)
    requires w < |ws|
    ensures AtWorker(ws[w], t) <= AtWorkers(ws, t)
    decreases |ws|
  {
    if w > 0 {
      WorkersHold(ws[1..], w - 1, t);
    }
  }

  lemma {:induction false} WorkersHoldTwo(ws: seq<Worker>, v: nat, w: nat, t: TaskId)
    requires v < w < |ws|
    ensures AtWorker(ws[v], t) + AtWorker(ws[w], t) <= AtWorkers(ws, t)
    decreases |ws|
  {
    if v == 0 {
      WorkersHold(ws[1..], w - 1, t);
    } else {
      WorkersHoldTwo(ws[1..], v - 1, w - 1, t);
    }
  }

  lemma {:induction false} EventsUpdate(armed: seq<Option<TaskId>>, e: nat, o: Option<TaskId>, t: TaskId)
    requires e < |armed|
    ensures AtEvents(armed[e := o], t) + (if armed[e] == Some(t) then 1 else 0)
         == AtEvents(armed, t) + (if o == Some(t) then 1 else 0)
    decreases |armed|
  {
    if e == 0 {
      assert armed[e := o][1..] == armed[1..];
    } else {
      EventsUpdate(armed[1..], e - 1, o, t);
      assert armed[e := o][1..] == armed[1..][e - 1 := o];
    }
  }

  lemma {:induction false} EventsHold(armed: seq<Option<TaskId>>, e: nat, t: TaskId)
    requires e < |armed| && armed[e] == Some(t)
    ensures AtEvents(armed, t) > 0
    decreases |armed|
  {
    if e > 0 {
      EventsHold(armed[1..], e - 1, t);
    }
  }

  /** The head of a queue and the rest of it. */
  lemma HeadCount(q: seq<TaskId>, t: TaskId)
    requires q != []
    ensures multiset(q)[t] == multiset(q[1..])[t] + (if q[0] == t then 1 else 0)
  {
    assert q == [q[0]] + q[1..];
    assert multiset(q) == multiset{q[0]} + multiset(q[1..]);
  }

  lemma SetWorkerPlaces(s: System, w: nat, worker: Worker, t: TaskId)
    requires w < |s.workers|
    ensures Places(SetWorker(s, w, worker), t) + AtWorker(s.workers[w], t) == Places(s, t) + AtWorker(worker, t)
  {
    WorkersUpdate(s.workers, w, worker, t);
  }

  lemma PushPlaces(s: System, w: nat, u: TaskId, t: TaskId)
    requires w < |s.workers|
    ensures Places(Push(s, w, u), t) == Places(s, t) + if t == u then 1 else 0
  {
    var worker := s.workers[w];
    SetWorkerPlaces(s, w, worker.(ring := worker.ring + [u]), t);
    assert multiset(worker.ring + [u]) == multiset(worker.ring) + multiset{u};
  }

  lemma {:induction false} FirePlaces(armed: seq<Option<TaskId>>, fired: seq<Source>, t: TaskId)
    ensures var (left, batch) := Fire(armed, fired);
            |left| == |armed| && AtEvents(left, t) + multiset(batch)[t] == AtEvents(armed, t)
    decreases |fired|
  {
    if fired != [] {
      var e := fired[0];
      if e < |armed| && armed[e].Some? {
        var u := armed[e].value;
        FirePlaces(armed[e := None], fired[1..], t);
        EventsUpdate(armed, e, None, t);
        var (left, batch) := Fire(armed[e := None], fired[1..]);
        assert multiset([u] + batch) == multiset{u} + multiset(batch);
      } else {
        FirePlaces(armed, fired[1..], t);
      }
    }
  }

  // ---- Invariant ----

  ghost predicate Idle(s: System, t: TaskId) {
    t in s.tasks && s.tasks[t].state != Executing
  }

  ghost predicate IsSuspended(s: System, t: TaskId) {
    t in s.tasks && s.tasks[t].state == Suspended
  }

  ghost predicate AllIdle(s: System, ts: seq<TaskId>) {
    forall i :: 0 <= i < |ts| ==> Idle(s, ts[i])
  }

  ghost predicate AllSuspended(s: System, ts: seq<TaskId>) {
    forall i :: 0 <= i < |ts| ==> IsSuspended(s, ts[i])
  }

  ghost function CurrentOf(phase: Phase): Option<TaskId> {
    match phase
    case Running(t, _) => Some(t)
    case Posting(t) => Some(t)
    case _ => None
  }

  /** The state of the task a worker has in hand. */
  ghost predicate HandOk(s: System, w: nat, worker: Worker) {
    match worker.phase
    case Draining(batch) => AllSuspended(s, batch)
    case Queueing(batch) => AllSuspended(s, batch)
    case Holding(t) => Idle(s, t)
    case Running(t, _) => t in s.tasks && s.tasks[t] == TaskInfo(Executing, w)
    case Posting(t) =>
      && t in s.tasks
      && (s.tasks[t].state == Suspended || (s.tasks[t] == TaskInfo(Executing, w) && worker.pending.None? && !worker.yielding))
    case _ => true
  }

  ghost predicate WorkerOk(s: System, w: nat, worker: Worker) {
    && worker.current == CurrentOf(worker.phase)
    && AllIdle(s, worker.ring)
    && HandOk(s, w, worker)
    && (worker.pending.Some? ==> worker.phase.Posting? && worker.pending.value < |s.armed| && !worker.yielding)
    && (worker.yielding ==> worker.phase.Posting?)
    && (worker.finished <==> worker.phase.Stopping? || worker.phase.Done?)
  }

  ghost predicate ArmedOk(s: System) {
    forall e :: 0 <= e < |s.armed| && s.armed[e].Some? ==> IsSuspended(s, s.armed[e].value)
  }

  ghost predicate DroppedOk(s: System) {
    forall t :: t in s.dropped ==> Idle(s, t)
  }

  ghost predicate Inv(s: System) {
    && Conserved(s)
    && (forall w :: 0 <= w < |s.workers| ==> WorkerOk(s, w, s.workers[w]))
    && ArmedOk(s)
    && DroppedOk(s)
  }

  lemma PlacesHere(s: System, t: TaskId)
    ensures t in s.dropped ==> Places(s, t) > 0
    ensures forall v :: 0 <= v < |s.workers| && (t in s.workers[v].ring || InHand(s.workers[v].phase, t) > 0) ==> Places(s, t) > 0
    ensures forall e :: 0 <= e < |s.armed| && s.armed[e] == Some(t) ==> Places(s, t) > 0
  {
    forall v | 0 <= v < |s.workers| && (t in s.workers[v].ring || InHand(s.workers[v].phase, t) > 0) ensures Places(s, t) > 0 {
      WorkersHold(s.workers, v, t);
      assert t in s.workers[v].ring ==> multiset(s.workers[v].ring)[t] > 0;
    }
    forall e | 0 <= e < |s.armed| && s.armed[e] == Some(t) ensures Places(s, t) > 0 {
      EventsHold(s.armed, e, t);
    }
  }

  /** A task in a worker's hand is nowhere else. */
  lemma OnlyInHand(s: System, w: nat, t: TaskId)
    requires Conserved(s) && w < |s.workers| && InHand(s.workers[w].phase, t) > 0
    ensures t in s.tasks && InHand(s.workers[w].phase, t) == 1
    ensures forall v :: 0 <= v < |s.workers| ==> t !in s.workers[v].ring
    ensures forall v :: 0 <= v < |s.workers| && v != w ==> InHand(s.workers[v].phase, t) == 0
    ensures forall e :: 0 <= e < |s.armed| ==> s.armed[e] != Some(t)
    ensures t !in s.dropped
  {
    assert Places(s, t) == Live(s, t) <= 1;
    WorkersHold(s.workers, w, t);
    forall v | 0 <= v < |s.workers| && v != w ensures AtWorker(s.workers[v], t) == 0 {
      WorkersHoldTwo(s.workers, if v < w then v else w, if v < w then w else v, t);
    }
    forall v | 0 <= v < |s.workers| ensures t !in s.workers[v].ring {
      assert multiset(s.workers[v].ring)[t] == 0;
    }
    forall e | 0 <= e < |s.armed| ensures s.armed[e] != Some(t) {
      if s.armed[e] == Some(t) {
        EventsHold(s.armed, e, t);
      }
    }
  }

  /** Changing the state of one task leaves a worker alone that does not know it. */
  lemma OtherWorker(s: System, s': System, w: nat, t: TaskId)
    requires w < |s.workers| && WorkerOk(s, w, s.workers[w])
    requires t !in s.workers[w].ring && InHand(s.workers[w].phase, t) == 0
    requires |s'.armed| == |s.armed| && forall u :: u != t && u in s.tasks ==> u in s'.tasks && s'.tasks[u] == s.tasks[u]
    ensures WorkerOk(s', w, s.workers[w])
  {
    var worker := s.workers[w];
    match worker.phase {
      case Draining(batch) => assert t !in multiset(batch); assert t !in batch;
      case Queueing(batch) => assert t !in multiset(batch); assert t !in batch;
      case _ =>
    }
    forall i | 0 <= i < |worker.ring| ensures Idle(s', worker.ring[i]) {
      assert worker.ring[i] != t;
    }
  }

  /** The same for a step that changes no task. */
  lemma SameTasks(s: System, s': System, w: nat, worker: Worker)
    requires WorkerOk(s, w, worker) && s'.tasks == s.tasks && |s'.armed| == |s.armed|
    ensures WorkerOk(s', w, worker)
  {
  }

  // ---- Every step keeps the invariant ----

  /** A step moves tasks between places without losing or doubling any. */
  ghost predicate Moves(s: System, s': System, t: TaskId) {
    Places(s', t) + Live(s, t) == Places(s, t) + Live(s', t)
  }

  /** Changing a worker without moving tasks through it. */
  lemma SameBagMoves(s: System, s': System, w: nat, worker: Worker, t: TaskId)
    requires w < |s.workers| && AtWorker(worker, t) == AtWorker(s.workers[w], t)
    requires s'.workers == s.workers[w := worker] && s'.armed == s.armed && s'.dropped == s.dropped
    requires Live(s', t) == Live(s, t)
    ensures Moves(s, s', t)
  {
    WorkersUpdate(s.workers, w, worker, t);
  }

  /** Taking the head of one ring into the hand of a worker that had nothing in hand. */
  lemma PopMoves(ws: seq<Worker>, v: nat, w: nat, t: TaskId)
    requires v < |ws| && w < |ws| && ws[v].ring != [] && ws[w].phase.Scanning?
    ensures var popped := ws[v := ws[v].(ring := ws[v].ring[1..])];
            AtWorkers(popped[w := popped[w].(phase := Holding(ws[v].ring[0]))], t) == AtWorkers(ws, t)
  {
    var u := ws[v].ring[0];
    var victim := ws[v].(ring := ws[v].ring[1..]);
    HeadCount(ws[v].ring, t);
    var one := if t == u then 1 else 0;
    assert AtWorker(ws[v], t) == AtWorker(victim, t) + one;
    WorkersUpdate(ws, v, victim, t);
    var popped := ws[v := victim];
    var holder := popped[w].(phase := Holding(u));
    assert AtWorker(holder, t) == AtWorker(popped[w], t) + one;
    WorkersUpdate(popped, w, holder, t);
  }

  lemma ScanMoves(s: System, w: nat, t: TaskId)
    requires w < |s.workers| && s.workers[w].phase.Scanning?
    ensures Moves(s, ScanRing(s, w), t)
  {
    var k := s.workers[w].phase.tried;
    var v := Victim(|s.workers|, w, k);
    if k <= |s.workers| && s.workers[v].ring != [] {
      PopMoves(s.workers, v, w, t);
    } else {
      SameBagMoves(s, ScanRing(s, w), w, ScanRing(s, w).workers[w], t);
    }
  }

  /** The worker lets go of its task. */
  lemma LetGo(s: System, w: nat, after: Worker, t: TaskId)
    requires w < |s.workers| && s.workers[w].phase.Posting? && after.phase.Scanning? && after.ring == s.workers[w].ring
    ensures Places(SetWorker(s, w, after), t) + (if t == s.workers[w].phase.task then 1 else 0) == Places(s, t)
  {
    SetWorkerPlaces(s, w, after, t);
  }

  lemma PostMoves(s: System, w: nat, t: TaskId)
    requires Inv(s) && Can(s, Post(w))
    ensures Moves(s, PostTask(s, w), t)
  {
    var worker := s.workers[w];
    var u := worker.phase.task;
    var after := worker.(phase := Scanning(0), current := None, pending := None,
                         yielding := worker.pending.Some? && worker.yielding);
    LetGo(s, w, after, t);
    if worker.pending.Some? {
      EventsUpdate(s.armed, worker.pending.value, Some(u), t);
    } else if worker.yielding {
      PushPlaces(SetWorker(s, w, after), w, u, t);
    } else {
      assert u in s.tasks by { assert WorkerOk(s, w, worker); }
    }
  }

  lemma QueueMoves(s: System, w: nat, t: TaskId)
    requires w < |s.workers| && s.workers[w].phase.Queueing?
    ensures Moves(s, QueueNext(s, w), t)
  {
    var worker := s.workers[w];
    var batch := worker.phase.batch;
    if batch == [] {
      SetWorkerPlaces(s, w, worker.(phase := Scanning(0)), t);
    } else {
      HeadCount(batch, t);
      var left := GoTo(s, w, Queueing(batch[1..]));
      SetWorkerPlaces(s, w, worker.(phase := Queueing(batch[1..])), t);
      assert Places(left, t) + (if t == batch[0] then 1 else 0) == Places(s, t);
      PushPlaces(left, w, batch[0], t);
    }
  }

  lemma WakeMoves(s: System, w: nat, fired: seq<Source>, t: TaskId)
    requires w < |s.workers| && s.workers[w].phase.Parked?
    ensures Moves(s, WakeUp(s, w, fired), t)
  {
    FirePlaces(s.armed, fired, t);
    WorkersUpdate(s.workers, w, s.workers[w].(phase := Draining(Fire(s.armed, fired).1), woken := true), t);
  }

  lemma SpawnMoves(s: System, w: nat, u: TaskId, t: TaskId)
    requires w < |s.workers| && s.workers[w].phase.Running? && u !in s.tasks
    ensures Moves(s, SpawnTask(s, w, u), t)
  {
    var owing := s.workers[w].phase.(owes := true);
    SetWorkerPlaces(s, w, s.workers[w].(phase := owing), t);
    PushPlaces(GoTo(s, w, owing), w, u, t);
  }

  /** Telling a worker to stop moves nothing. */
  lemma TellMoves(s: System, i: nat, t: TaskId)
    requires i < |s.workers|
    ensures Moves(s, SetWorker(s, i, s.workers[i].(running := false)), t)
  {
    SetWorkerPlaces(s, i, s.workers[i].(running := false), t);
  }

  /** A worker that only goes to another phase with the same tasks in hand. */
  lemma PhaseMoves(s: System, w: nat, phase: Phase, wakeups: nat, t: TaskId)
    requires w < |s.workers| && InHand(phase, t) == InHand(s.workers[w].phase, t)
    ensures Moves(s, GoTo(s, w, phase).(wakeups := wakeups), t)
  {
    SameBagMoves(s, GoTo(s, w, phase).(wakeups := wakeups), w, s.workers[w].(phase := phase), t);
  }

  lemma StopMoves(s: System, w: nat, t: TaskId)
    requires w < |s.workers| && s.workers[w].phase.Stopping?
    ensures Moves(s, StopNext(s, w), t)
  {
    var i, seen := s.workers[w].phase.next, s.workers[w].phase.seen;
    if i >= |s.workers| {
      PhaseMoves(s, w, if seen then Stopping(0, false) else Done, s.wakeups + 1, t);
    } else if s.workers[i].finished {
      PhaseMoves(s, w, Stopping(i + 1, seen), s.wakeups, t);
    } else {
      var told := SetWorker(s, i, s.workers[i].(running := false));
      TellMoves(s, i, t);
      PhaseMoves(told, w, Stopping(i + 1, true), told.wakeups, t);
    }
  }

  lemma CheckMoves(s: System, w: nat, t: TaskId)
    requires w < |s.workers| && s.workers[w].phase.Checking?
    ensures Moves(s, CheckRunning(s, w), t)
  {
    SameBagMoves(s, CheckRunning(s, w), w, CheckRunning(s, w).workers[w], t);
  }

  lemma ControlMoves(s: System, step: Step, t: TaskId)
    requires Can(s, step)
    requires step.Check? || step.WakeOnSignal? || step.Drain? || step.Interrupt? || step.Return?
    ensures Moves(s, Do(s, step), t)
  {
    match step {
      case Check(w) => CheckMoves(s, w, t);
      case WakeOnSignal(w) => SetWorkerPlaces(s, w, s.workers[w].(phase := Queueing([]), woken := true), t);
      case Drain(w) => PhaseMoves(s, w, Queueing(s.workers[w].phase.batch), 0, t);
      case Interrupt(w) => PhaseMoves(s, w, s.workers[w].phase.(owes := false), s.wakeups + 1, t);
      case Return(w) => PhaseMoves(s, w, Posting(s.workers[w].phase.task), s.wakeups, t);
    }
  }

  lemma SwitchMoves(s: System, step: Step, t: TaskId)
    requires Inv(s) && Can(s, step) && Switches(step)
    ensures Moves(s, Do(s, step), t)
  {
    assert WorkerOk(s, step.w, s.workers[step.w]);
    SameBagMoves(s, Do(s, step), step.w, Do(s, step).workers[step.w], t);
  }

  lemma RemoveMoves(s: System, e: Source, t: TaskId)
    requires e < |s.armed|
    ensures Moves(s, RemoveEvent(s, e), t)
  {
    EventsUpdate(s.armed, e, None, t);
  }

  /** The steps that move tasks between rings, hands and sources. */
  predicate Carries(step: Step) {
    step.Scan? || step.Post? || step.QueueFired? || step.Wake? || step.Spawn?
  }

  /** The steps of the shutdown, and the removal of a source. */
  predicate Manages(step: Step) {
    step.StopPass? || step.StopRequest? || step.InterruptRequest? || step.Remove?
  }

  /** The steps that give a task control or take it away. */
  predicate Switches(step: Step) {
    step.SwitchTo? || step.WaitEvent? || step.Yield? || step.Exit?
  }

  lemma CarryMoves(s: System, step: Step, t: TaskId)
    requires Inv(s) && Can(s, step) && Carries(step)
    ensures Moves(s, Do(s, step), t)
  {
    match step {
      case Scan(w) => ScanMoves(s, w, t);
      case Post(w) => PostMoves(s, w, t);
      case QueueFired(w) => QueueMoves(s, w, t);
      case Wake(w, fired) => WakeMoves(s, w, fired, t);
      case Spawn(w, u) => SpawnMoves(s, w, u, t);
    }
  }

  lemma ManagerMoves(s: System, step: Step, t: TaskId)
    requires Can(s, step) && Manages(step)
    ensures Moves(s, Do(s, step), t)
  {
    match step {
      case StopPass(w) => StopMoves(s, w, t);
      case Remove(_, e) => RemoveMoves(s, e, t);
      case StopRequest(v) => TellMoves(s, v, t);
      case InterruptRequest =>
    }
  }

  lemma StepConserves(s: System, step: Step)
    requires Inv(s) && Can(s, step)
    ensures Conserved(Do(s, step))
  {
    forall t ensures Places(Do(s, step), t) == Live(Do(s, step), t) {
      assert Places(s, t) == Live(s, t);
      if Carries(step) {
        CarryMoves(s, step, t);
      } else if Manages(step) {
        ManagerMoves(s, step, t);
      } else if Switches(step) {
        SwitchMoves(s, step, t);
      } else {
        ControlMoves(s, step, t);
      }
    }
  }

  /** Enough for a step that changes one worker and no task. */
  lemma OneWorkerChanged(s: System, s': System, w: nat)
    requires Inv(s) && w < |s.workers| && s'.tasks == s.tasks && |s'.armed| == |s.armed|
    requires |s'.workers| == |s.workers| && s'.workers == s.workers[w := s'.workers[w]]
    requires WorkerOk(s', w, s'.workers[w])
    ensures forall v :: 0 <= v < |s'.workers| ==> WorkerOk(s', v, s'.workers[v])
  {
    forall v | 0 <= v < |s'.workers| ensures WorkerOk(s', v, s'.workers[v]) {
      if v != w {
        SameTasks(s, s', v, s.workers[v]);
      }
    }
  }

  ghost predicate WorkersOk(s: System) {
    forall w :: 0 <= w < |s.workers| ==> WorkerOk(s, w, s.workers[w])
  }

  /** Queueing an idle task keeps everything in order. */
  lemma PushKeeps(s: System, w: nat, t: TaskId)
    requires WorkersOk(s) && DroppedOk(s) && w < |s.workers| && Idle(s, t)
    ensures WorkersOk(Push(s, w, t)) && DroppedOk(Push(s, w, t))
  {
    var s' := Push(s, w, t);
    forall v | 0 <= v < |s'.workers| ensures WorkerOk(s', v, s'.workers[v]) {
      SameTasks(s, s', v, s.workers[v]);
      if v == w {
        assert forall i :: 0 <= i < |s'.workers[v].ring| ==>
          (i < |s.workers[v].ring| && s'.workers[v].ring[i] == s.workers[v].ring[i]) || s'.workers[v].ring[i] == t;
      }
    }
  }

  lemma {:induction false} FireSuspended(s: System, armed: seq<Option<TaskId>>, fired: seq<Source>)
    requires forall e :: 0 <= e < |armed| && armed[e].Some? ==> IsSuspended(s, armed[e].value)
    ensures var (left, batch) := Fire(armed, fired);
            && |left| == |armed| && AllSuspended(s, batch)
            && forall e :: 0 <= e < |left| && left[e].Some? ==> IsSuspended(s, left[e].value)
    decreases |fired|
  {
    if fired != [] {
      var e := fired[0];
      FireSuspended(s, if e < |armed| && armed[e].Some? then armed[e := None] else armed, fired[1..]);
    }
  }

  lemma QueueKeeps(s: System, w: nat)
    requires Inv(s) && w < |s.workers| && s.workers[w].phase.Queueing?
    ensures WorkersOk(QueueNext(s, w)) && DroppedOk(QueueNext(s, w))
  {
    var batch := s.workers[w].phase.batch;
    assert WorkerOk(s, w, s.workers[w]);
    if batch == [] {
      OneWorkerChanged(s, GoTo(s, w, Scanning(0)), w);
    } else {
      assert IsSuspended(s, batch[0]);
      OneWorkerChanged(s, GoTo(s, w, Queueing(batch[1..])), w);
      PushKeeps(GoTo(s, w, Queueing(batch[1..])), w, batch[0]);
    }
  }

  lemma ScanKeeps(s: System, w: nat)
    requires Inv(s) && w < |s.workers| && s.workers[w].phase.Scanning?
    ensures WorkersOk(ScanRing(s, w))
  {
    var s' := ScanRing(s, w);
    var k := s.workers[w].phase.tried;
    var v := Victim(|s.workers|, w, k);
    assert WorkerOk(s, w, s.workers[w]) && WorkerOk(s, v, s.workers[v]);
    if k <= |s.workers| && s.workers[v].ring != [] {
      assert Idle(s, s.workers[v].ring[0]);
      forall u | 0 <= u < |s'.workers| ensures WorkerOk(s', u, s'.workers[u]) {
        SameTasks(s, s', u, s.workers[u]);
      }
    } else {
      OneWorkerChanged(s, s', w);
    }
  }

  /** Giving the task in a worker's hand a new state, or removing it, concerns that worker only. */
  lemma HandChanged(s: System, s': System, w: nat, t: TaskId)
    requires Inv(s) && w < |s.workers| && InHand(s.workers[w].phase, t) > 0
    requires |s'.workers| == |s.workers| && s'.workers == s.workers[w := s'.workers[w]] && |s'.armed| == |s.armed|
    requires forall u :: u != t && u in s.tasks ==> u in s'.tasks && s'.tasks[u] == s.tasks[u]
    requires WorkerOk(s', w, s'.workers[w])
    ensures WorkersOk(s')
    ensures forall e :: 0 <= e < |s.armed| && s.armed[e].Some? ==> IsSuspended(s', s.armed[e].value)
    ensures forall u :: u in s.dropped ==> Idle(s', u)
  {
    OnlyInHand(s, w, t);
    forall v | 0 <= v < |s'.workers| ensures WorkerOk(s', v, s'.workers[v]) {
      if v != w {
        OtherWorker(s, s', v, t);
      }
    }
  }

  /** The ring of a worker is untouched by a change to the task in its hand. */
  lemma RingKept(s: System, s': System, w: nat, t: TaskId)
    requires Inv(s) && w < |s.workers| && InHand(s.workers[w].phase, t) > 0
    requires forall u :: u != t && u in s.tasks ==> u in s'.tasks && s'.tasks[u] == s.tasks[u]
    ensures AllIdle(s', s.workers[w].ring)
  {
    OnlyInHand(s, w, t);
    assert WorkerOk(s, w, s.workers[w]);
    forall i | 0 <= i < |s.workers[w].ring| ensures Idle(s', s.workers[w].ring[i]) {
      assert s.workers[w].ring[i] != t;
    }
  }

  lemma BeginKeeps(s: System, w: nat)
    requires Inv(s) && Can(s, SwitchTo(w))
    ensures WorkersOk(Begin(s, w)) && ArmedOk(Begin(s, w)) && DroppedOk(Begin(s, w))
  {
    var t := s.workers[w].phase.task;
    assert WorkerOk(s, w, s.workers[w]);
    RingKept(s, Begin(s, w), w, t);
    HandChanged(s, Begin(s, w), w, t);
  }

  lemma SuspendKeeps(s: System, w: nat, worker: Worker)
    requires Inv(s) && w < |s.workers| && s.workers[w].phase.Running? && worker.phase == s.workers[w].phase
    requires worker.ring == s.workers[w].ring && worker.current == s.workers[w].current && worker.finished == s.workers[w].finished
    requires worker.pending.Some? ==> worker.pending.value < |s.armed| && !worker.yielding
    ensures var s' := SuspendCurrent(s, w, worker);
            WorkersOk(s') && ArmedOk(s') && DroppedOk(s')
  {
    var s' := SuspendCurrent(s, w, worker);
    var t := worker.phase.task;
    assert WorkerOk(s, w, s.workers[w]);
    RingKept(s, s', w, t);
    HandChanged(s, s', w, t);
  }

  lemma PostKeeps(s: System, w: nat)
    requires Inv(s) && Can(s, Post(w))
    ensures var s' := PostTask(s, w);
            WorkersOk(s') && ArmedOk(s') && DroppedOk(s')
  {
    var s' := PostTask(s, w);
    var worker := s.workers[w];
    var t := worker.phase.task;
    assert WorkerOk(s, w, worker);
    if worker.pending.Some? {
      assert IsSuspended(s, t);
      OneWorkerChanged(s, s', w);
    } else if worker.yielding {
      var idle := SetWorker(s, w, worker.(phase := Scanning(0), current := None, pending := None, yielding := false));
      OneWorkerChanged(s, idle, w);
      PushKeeps(idle, w, t);
    } else {
      RingKept(s, s', w, t);
      HandChanged(s, s', w, t);
    }
  }

  /** Nobody knows a task that is not alive. */
  lemma Unknown(s: System, t: TaskId)
    requires Inv(s) && t !in s.tasks
    ensures forall v :: 0 <= v < |s.workers| ==> t !in s.workers[v].ring && InHand(s.workers[v].phase, t) == 0
    ensures t !in s.dropped && forall e :: 0 <= e < |s.armed| ==> s.armed[e] != Some(t)
  {
    assert Places(s, t) == Live(s, t) == 0;
    PlacesHere(s, t);
  }

  /** The new task is entered, not queued yet. */
  lemma BornKeeps(s: System, w: nat, t: TaskId)
    requires Inv(s) && Can(s, Spawn(w, t))
    ensures var born := SetState(GoTo(s, w, s.workers[w].phase.(owes := true)), t, TaskInfo(NotStarted, 0));
            WorkersOk(born) && ArmedOk(born) && DroppedOk(born)
  {
    var born := SetState(GoTo(s, w, s.workers[w].phase.(owes := true)), t, TaskInfo(NotStarted, 0));
    Unknown(s, t);
    forall v | 0 <= v < |s.workers| ensures WorkerOk(born, v, born.workers[v]) {
      OtherWorker(s, born, v, t);
    }
  }

  lemma SpawnKeeps(s: System, w: nat, t: TaskId)
    requires Inv(s) && Can(s, Spawn(w, t))
    ensures var s' := SpawnTask(s, w, t);
            WorkersOk(s') && ArmedOk(s') && DroppedOk(s')
  {
    var born := SetState(GoTo(s, w, s.workers[w].phase.(owes := true)), t, TaskInfo(NotStarted, 0));
    BornKeeps(s, w, t);
    PushKeeps(born, w, t);
    assert SpawnTask(s, w, t) == Push(born, w, t);
  }

  lemma StopKeeps(s: System, w: nat)
    requires Inv(s) && w < |s.workers| && s.workers[w].phase.Stopping?
    ensures WorkersOk(StopNext(s, w))
  {
    var i := s.workers[w].phase.next;
    var told := if i < |s.workers| && !s.workers[i].finished then SetWorker(s, i, s.workers[i].(running := false)) else s;
    forall v | 0 <= v < |s.workers| ensures WorkerOk(StopNext(s, w), v, StopNext(s, w).workers[v]) {
      TellKeeps(s, i, v);
      SameTasks(told, StopNext(s, w), v, told.workers[v]);
    }
  }

  lemma TellKeeps(s: System, i: nat, v: nat)
    requires Inv(s) && v < |s.workers|
    ensures i < |s.workers| ==> WorkerOk(s, v, SetWorker(s, i, s.workers[i].(running := false)).workers[v])
  {
    assert WorkerOk(s, v, s.workers[v]);
  }

  lemma WakeKeeps(s: System, w: nat, fired: seq<Source>)
    requires Inv(s) && w < |s.workers| && s.workers[w].phase.Parked?
    ensures WorkersOk(WakeUp(s, w, fired)) && ArmedOk(WakeUp(s, w, fired))
  {
    FireSuspended(s, s.armed, fired);
    assert WorkerOk(s, w, s.workers[w]);
    assert AllSuspended(WakeUp(s, w, fired), Fire(s.armed, fired).1);
    OneWorkerChanged(s, WakeUp(s, w, fired), w);
  }

  /** The steps that only change a worker's own control state. */
  lemma LocalKeeps(s: System, step: Step)
    requires Inv(s) && Can(s, step)
    requires step.Check? || step.WakeOnSignal? || step.Drain? || step.Interrupt? || step.Return?
    ensures WorkersOk(Do(s, step))
  {
    assert WorkerOk(s, step.w, s.workers[step.w]);
    OneWorkerChanged(s, Do(s, step), step.w);
  }

  lemma StepKeepsTasks(s: System, step: Step)
    requires Inv(s) && Can(s, step)
    requires step.SwitchTo? || step.WaitEvent? || step.Yield? || step.Exit? || step.Post? || step.Spawn?
    ensures WorkersOk(Do(s, step)) && ArmedOk(Do(s, step)) && DroppedOk(Do(s, step))
  {
    match step {
      case Post(w) => PostKeeps(s, w);
      case Spawn(w, u) => SpawnKeeps(s, w, u);
      case SwitchTo(w) => BeginKeeps(s, w);
      case WaitEvent(w, e) => SuspendKeeps(s, w, s.workers[w].(pending := Some(e)));
      case Yield(w) => SuspendKeeps(s, w, s.workers[w].(yielding := true));
      case Exit(w) => SuspendKeeps(s, w, s.workers[w].(running := false));
    }
  }

  lemma RequestKeeps(s: System, v: nat)
    requires Inv(s) && v < |s.workers|
    ensures Do(s, StopRequest(v)).tasks == s.tasks && WorkersOk(Do(s, StopRequest(v)))
  {
    assert WorkerOk(s, v, s.workers[v]);
    OneWorkerChanged(s, Do(s, StopRequest(v)), v);
  }

  ghost predicate ChangesTasks(step: Step) {
    Switches(step) || step.Post? || step.Spawn?
  }

  /** Everything the invariant says beside conservation. */
  ghost predicate Plain(s: System) {
    WorkersOk(s) && ArmedOk(s) && DroppedOk(s)
  }

  lemma LocalKeepsPlain(s: System, step: Step)
    requires Inv(s) && Can(s, step)
    requires step.Check? || step.WakeOnSignal? || step.Drain? || step.Interrupt? || step.Return?
    ensures Plain(Do(s, step))
  {
    LocalKeeps(s, step);
  }

  lemma RemoveKeepsPlain(s: System, e: Source)
    requires Inv(s) && e < |s.armed|
    ensures Plain(RemoveEvent(s, e))
  {
    var s' := RemoveEvent(s, e);
    forall w | 0 <= w < |s'.workers| ensures WorkerOk(s', w, s'.workers[w]) {
      SameTasks(s, s', w, s.workers[w]);
    }
  }

  lemma ManagerKeepsPlain(s: System, step: Step)
    requires Inv(s) && Can(s, step) && Manages(step)
    ensures Plain(Do(s, step))
  {
    if step.StopPass? {
      StopKeeps(s, step.w);
    } else if step.StopRequest? {
      RequestKeeps(s, step.victim);
    } else if step.Remove? {
      RemoveKeepsPlain(s, step.source);
    }
  }

  lemma ScanKeepsPlain(s: System, w: nat)
    requires Inv(s) && Can(s, Scan(w))
    ensures Plain(Do(s, Scan(w)))
  {
    ScanKeeps(s, w);
  }

  lemma QueueKeepsPlain(s: System, w: nat)
    requires Inv(s) && Can(s, QueueFired(w))
    ensures Plain(Do(s, QueueFired(w)))
  {
    QueueKeeps(s, w);
  }

  lemma WakeKeepsPlain(s: System, w: nat, fired: seq<Source>)
    requires Inv(s) && Can(s, Wake(w, fired))
    ensures Plain(Do(s, Wake(w, fired)))
  {
    WakeKeeps(s, w, fired);
  }

  lemma StepKeepsPlain(s: System, step: Step)
    requires Inv(s) && Can(s, step) && !ChangesTasks(step)
    ensures Plain(Do(s, step))
  {
    if step.Scan? {
      ScanKeepsPlain(s, step.w);
    } else if step.QueueFired? {
      QueueKeepsPlain(s, step.w);
    } else if step.Wake? {
      WakeKeepsPlain(s, step.w, step.fired);
    } else if Manages(step) {
      ManagerKeepsPlain(s, step);
    } else {
      LocalKeepsPlain(s, step);
    }
  }

  lemma StepKeepsInv(s: System, step: Step)
    requires Inv(s) && Can(s, step)
    ensures Inv(Do(s, step))
  {
    StepConserves(s, step);
    if ChangesTasks(step) {
      StepKeepsTasks(s, step);
    } else {
      StepKeepsPlain(s, step);
    }
  }

  // ---- Runs ----

  lemma {:induction false} CountDistinct(ts: seq<TaskId>, t: TaskId)
    requires forall i, j :: 0 <= i < j < |ts| ==> ts[i] != ts[j]
    ensures multiset(ts)[t] == if t in ts then 1 else 0
    decreases |ts|
  {
    if ts != [] {
      CountDistinct(ts[1..], t);
      HeadCount(ts, t);
    }
  }

  lemma {:induction false} NobodyHolds(ws: seq<Worker>, t: TaskId)
    requires forall w :: 0 <= w < |ws| ==> NewWorker(ws[w], [])
    ensures AtWorkers(ws, t) == 0
    decreases |ws|
  {
    if ws != [] {
      assert NewWorker(ws[0], []);
      NobodyHolds(ws[1..], t);
    }
  }

  lemma {:induction false} NothingArmed(armed: seq<Option<TaskId>>, t: TaskId)
    requires forall e :: 0 <= e < |armed| ==> armed[e].None?
    ensures AtEvents(armed, t) == 0
    decreases |armed|
  {
    if armed != [] {
      NothingArmed(armed[1..], t);
    }
  }

  lemma InitConserved(s: System, entries: seq<TaskId>)
    requires Init(s, entries)
    ensures Conserved(s)
  {
    var fit := if |entries| <= s.capacity then |entries| else s.capacity;
    forall t ensures Places(s, t) == Live(s, t) {
      assert NewWorker(s.workers[0], entries[..fit]);
      forall w | 0 <= w < |s.workers[1..]| ensures NewWorker(s.workers[1..][w], []) {
        assert NewWorker(s.workers[w + 1], []);
      }
      NobodyHolds(s.workers[1..], t);
      NothingArmed(s.armed, t);
      CountDistinct(entries, t);
      assert entries == entries[..fit] + entries[fit..];
      assert multiset(entries) == multiset(entries[..fit]) + multiset(entries[fit..]);
    }
  }

  lemma InitInv(s: System, entries: seq<TaskId>)
    requires Init(s, entries)
    ensures Inv(s)
  {
    InitConserved(s, entries);
    var fit := if |entries| <= s.capacity then |entries| else s.capacity;
    forall w | 0 <= w < |s.workers| ensures WorkerOk(s, w, s.workers[w]) {
      assert NewWorker(s.workers[w], if w == 0 then entries[..fit] else []);
      forall i | 0 <= i < |s.workers[w].ring| ensures Idle(s, s.workers[w].ring[i]) {
        assert s.workers[w].ring[i] == entries[i];
      }
    }
    forall t | t in s.dropped ensures Idle(s, t) {
      assert t in entries[fit..];
    }
  }

  /** The state `s` is reached from `s0` by these steps. */
  ghost predicate Reaches(s0: System, steps: seq<Step>, s: System)
    decreases |steps|
  {
    if steps == [] then s == s0 else Can(s0, steps[0]) && Reaches(Do(s0, steps[0]), steps[1..], s)
  }

  lemma {:induction false} RunKeepsInv(s0: System, steps: seq<Step>, s: System)
    requires Inv(s0) && Reaches(s0, steps, s)
    ensures Inv(s)
    decreases |steps|
  {
    if steps != [] {
      StepKeepsInv(s0, steps[0]);
      RunKeepsInv(Do(s0, steps[0]), steps[1..], s);
    }
  }

  // ---- Each live task is in one place, and runs on one worker ----

  datatype Place = InRing(w: nat, i: nat) | OnEvent(e: nat) | InBatch(w: nat, i: nat) | InHandOf(w: nat) | Lost

  ghost predicate IsAt(s: System, t: TaskId, place: Place) {
    match place
    case InRing(w, i) => w < |s.workers| && i < |s.workers[w].ring| && s.workers[w].ring[i] == t
    case OnEvent(e) => e < |s.armed| && s.armed[e] == Some(t)
    case InBatch(w, i) =>
      && w < |s.workers| && (s.workers[w].phase.Draining? || s.workers[w].phase.Queueing?)
      && i < |s.workers[w].phase.batch| && s.workers[w].phase.batch[i] == t
    case InHandOf(w) =>
      && w < |s.workers| && (s.workers[w].phase.Holding? || s.workers[w].phase.Running? || s.workers[w].phase.Posting?)
      && s.workers[w].phase.task == t
    case Lost => t in s.dropped
  }

  lemma {:induction false} CountedTwice(q: seq<TaskId>, i: nat, j: nat)
    requires i < j < |q| && q[i] == q[j]
    ensures multiset(q)[q[i]] >= 2
    decreases |q|
  {
    HeadCount(q, q[i]);
    if i > 0 {
      CountedTwice(q[1..], i - 1, j - 1);
    } else {
      assert q[j] in q[1..];
      assert multiset(q[1..])[q[j]] > 0;
    }
  }

  lemma {:induction false} FindWorker(ws: seq<Worker>, t: TaskId) returns (w: nat)
    requires AtWorkers(ws, t) > 0
    ensures w < |ws| && AtWorker(ws[w], t) > 0
    decreases |ws|
  {
    if AtWorker(ws[0], t) > 0 {
      w := 0;
    } else {
      w := FindWorker(ws[1..], t);
      w := w + 1;
    }
  }

  lemma {:induction false} FindEvent(armed: seq<Option<TaskId>>, t: TaskId) returns (e: nat)
    requires AtEvents(armed, t) > 0
    ensures e < |armed| && armed[e] == Some(t)
    decreases |armed|
  {
    if armed[0] == Some(t) {
      e := 0;
    } else {
      e := FindEvent(armed[1..], t);
      e := e + 1;
    }
  }

  lemma FindPlace(s: System, t: TaskId) returns (place: Place)
    requires Conserved(s) && t in s.tasks
    ensures IsAt(s, t, place)
  {
    assert Places(s, t) == Live(s, t) == 1;
    if s.dropped[t] > 0 {
      return Lost;
    }
    if AtEvents(s.armed, t) > 0 {
      var e := FindEvent(s.armed, t);
      return OnEvent(e);
    }
    var w := FindWorker(s.workers, t);
    var worker := s.workers[w];
    if multiset(worker.ring)[t] > 0 {
      assert t in worker.ring;
      var i :| 0 <= i < |worker.ring| && worker.ring[i] == t;
      return InRing(w, i);
    }
    if worker.phase.Draining? || worker.phase.Queueing? {
      assert t in worker.phase.batch;
      var i :| 0 <= i < |worker.phase.batch| && worker.phase.batch[i] == t;
      return InBatch(w, i);
    }
    return InHandOf(w);
  }

  ghost function Weight(s: System, t: TaskId, place: Place): nat {
    match place
    case OnEvent(_) => AtEvents(s.armed, t)
    case Lost => s.dropped[t]
    case _ => AtWorkers(s.workers, t)
  }

  lemma PlaceWeighs(s: System, t: TaskId, place: Place)
    requires IsAt(s, t, place)
    ensures Weight(s, t, place) > 0
    ensures place.OnEvent? || place.Lost? || AtWorker(s.workers[place.w], t) > 0
    ensures place.InRing? ==> multiset(s.workers[place.w].ring)[t] > 0
    ensures place.InBatch? || place.InHandOf? ==> InHand(s.workers[place.w].phase, t) > 0
  {
    match place {
      case OnEvent(e) => EventsHold(s.armed, e, t);
      case Lost =>
      case InRing(w, i) =>
        assert t in s.workers[w].ring;
        WorkersHold(s.workers, w, t);
      case InBatch(w, i) =>
        assert t in s.workers[w].phase.batch;
        WorkersHold(s.workers, w, t);
      case InHandOf(w) => WorkersHold(s.workers, w, t);
    }
  }

  lemma {:induction false} EventsHoldTwo(armed: seq<Option<TaskId>>, e: nat, e': nat, t: TaskId)
    requires e < e' < |armed| && armed[e] == armed[e'] == Some(t)
    ensures AtEvents(armed, t) >= 2
    decreases |armed|
  {
    if e == 0 {
      EventsHold(armed[1..], e' - 1, t);
    } else {
      EventsHoldTwo(armed[1..], e - 1, e' - 1, t);
    }
  }

  /** No task is in two places at once, nor twice in one ring or batch. */
  lemma OnePlace(s: System, t: TaskId, p: Place, q: Place)
    requires Conserved(s) && IsAt(s, t, p) && IsAt(s, t, q)
    ensures p == q
  {
    assert Places(s, t) == Live(s, t) <= 1;
    PlaceWeighs(s, t, p);
    PlaceWeighs(s, t, q);
    if p.OnEvent? && q.OnEvent? {
      if p.e < q.e {
        EventsHoldTwo(s.armed, p.e, q.e, t);
      } else if q.e < p.e {
        EventsHoldTwo(s.armed, q.e, p.e, t);
      }
    } else if !p.OnEvent? && !p.Lost? && !q.OnEvent? && !q.Lost? {
      if p.w < q.w {
        WorkersHoldTwo(s.workers, p.w, q.w, t);
      } else if q.w < p.w {
        WorkersHoldTwo(s.workers, q.w, p.w, t);
      } else {
        WorkersHold(s.workers, p.w, t);
        OnePlaceAtWorker(s, t, p, q);
      }
    }
  }

  lemma OnePlaceAtWorker(s: System, t: TaskId, p: Place, q: Place)
    requires IsAt(s, t, p) && IsAt(s, t, q)
    requires !p.OnEvent? && !p.Lost? && !q.OnEvent? && !q.Lost? && p.w == q.w
    requires AtWorker(s.workers[p.w], t) <= 1
    ensures p == q
  {
    PlaceWeighs(s, t, p);
    PlaceWeighs(s, t, q);
    if p.InRing? && q.InRing? && p.i != q.i {
      CountedTwice(s.workers[p.w].ring, if p.i < q.i then p.i else q.i, if p.i < q.i then q.i else p.i);
    }
    if p.InBatch? && q.InBatch? && p.i != q.i {
      CountedTwice(s.workers[p.w].phase.batch, if p.i < q.i then p.i else q.i, if p.i < q.i then q.i else p.i);
    }
  }

  /** What a place says about the state of the task there. */
  lemma PlaceState(s: System, t: TaskId, place: Place)
    requires Inv(s) && IsAt(s, t, place)
    ensures t in s.tasks
    ensures !place.InHandOf? ==> s.tasks[t].state != Executing
    ensures place.OnEvent? || place.InBatch? ==> s.tasks[t].state == Suspended
  {
    PlaceWeighs(s, t, place);
    assert Places(s, t) == Live(s, t);
    if place.InRing? {
      assert WorkerOk(s, place.w, s.workers[place.w]);
      assert Idle(s, s.workers[place.w].ring[place.i]);
    } else if place.InBatch? {
      assert WorkerOk(s, place.w, s.workers[place.w]);
      assert IsSuspended(s, s.workers[place.w].phase.batch[place.i]);
    }
  }

  /** An executing task is the current task of the worker it says it runs on. */
  lemma ExecutingIsCurrent(s: System, t: TaskId)
    requires Inv(s) && t in s.tasks && s.tasks[t].state == Executing
    ensures var w := s.tasks[t].thread;
            w < |s.workers| && s.workers[w].current == Some(t) && IsAt(s, t, InHandOf(w))
  {
    var place := FindPlace(s, t);
    PlaceState(s, t, place);
    assert WorkerOk(s, place.w, s.workers[place.w]);
  }

  /** Safety over whole runs: from start-up, through any steps, every live task is in exactly one
      place; it is not executing while queued, armed, fired or lost; and an executing task is the
      current task of its thread, the only worker that has it. */
  lemma TasksAreSomewhereOnce(s0: System, entries: seq<TaskId>, steps: seq<Step>, s: System, t: TaskId)
    requires Init(s0, entries) && Reaches(s0, steps, s)
    ensures (exists p :: IsAt(s, t, p)) <==> t in s.tasks
    ensures forall p, q :: IsAt(s, t, p) && IsAt(s, t, q) ==> p == q
    ensures t in s.tasks && s.tasks[t].state == Executing ==>
              s.tasks[t].thread < |s.workers| && s.workers[s.tasks[t].thread].current == Some(t)
    ensures forall p :: IsAt(s, t, p) && !p.InHandOf? ==> s.tasks[t].state != Executing
    ensures forall p :: IsAt(s, t, p) && (p.OnEvent? || p.InBatch?) ==> s.tasks[t].state == Suspended
  {
    InitInv(s0, entries);
    RunKeepsInv(s0, steps, s);
    if t in s.tasks {
      var p := FindPlace(s, t);
      if s.tasks[t].state == Executing {
        ExecutingIsCurrent(s, t);
      }
    }
    forall p | IsAt(s, t, p)
      ensures t in s.tasks && (!p.InHandOf? ==> s.tasks[t].state != Executing)
      ensures p.OnEvent? || p.InBatch? ==> s.tasks[t].state == Suspended
    {
      PlaceState(s, t, p);
    }
    forall p, q | IsAt(s, t, p) && IsAt(s, t, q) ensures p == q {
      OnePlace(s, t, p, q);
    }
  }

  // ---- What gets lost ----

  /** The steps that lose a task: queueing onto a full ring, and registering on a source, or
      removing one, that still has a waiter. */
  ghost predicate Loses(s: System, step: Step)
    requires Can(s, step)
  {
    match step
    case Spawn(w, _) => |s.workers[w].ring| >= s.capacity
    case QueueFired(w) => s.workers[w].phase.batch != [] && |s.workers[w].ring| >= s.capacity
    case Post(w) =>
      if s.workers[w].pending.Some? then s.armed[s.workers[w].pending.value].Some?
      else s.workers[w].yielding && |s.workers[w].ring| >= s.capacity
    case Remove(_, e) => s.armed[e].Some?
    case _ => false
  }

  ghost predicate NeverLoses(s0: System, steps: seq<Step>)
    decreases |steps|
  {
    steps == [] || (Can(s0, steps[0]) && !Loses(s0, steps[0]) && NeverLoses(Do(s0, steps[0]), steps[1..]))
  }

  lemma {:induction false} LostOnlyByLosing(s0: System, steps: seq<Step>, s: System)
    requires Reaches(s0, steps, s)
    ensures s0.dropped <= s.dropped
    ensures s.dropped == s0.dropped <==> NeverLoses(s0, steps)
    decreases |steps|
  {
    if steps != [] {
      var s1 := Do(s0, steps[0]);
      LostOnlyByLosing(s1, steps[1..], s);
      LossOfStep(s0, steps[0]);
      assert |s0.dropped| <= |s1.dropped| && |s1.dropped| <= |s.dropped| by {
        assert s1.dropped == s0.dropped + (s1.dropped - s0.dropped);
        assert s.dropped == s1.dropped + (s.dropped - s1.dropped);
      }
    }
  }

  lemma LossOfStep(s: System, step: Step)
    requires Can(s, step)
    ensures s.dropped <= Do(s, step).dropped
    ensures |Do(s, step).dropped| == |s.dropped| + if Loses(s, step) then 1 else 0
    ensures !Loses(s, step) ==> Do(s, step).dropped == s.dropped
  {
    if !Carries(step) {
      OthersLose(s, step);
    }
  }

  /** Of the steps that carry no task about, only the removal of a source can lose one. */
  lemma OthersLose(s: System, step: Step)
    requires Can(s, step) && !Carries(step)
    ensures Do(s, step).dropped == if step.Remove? && s.armed[step.source].Some? then s.dropped + multiset{s.armed[step.source].value} else s.dropped
  {
  }

  // ---- When nothing gets lost ----

  /** No more live tasks than a ring holds, and no task about to wait on a source that has a waiter. */
  ghost predicate Calm(s: System) {
    && |s.tasks.Keys| <= s.capacity
    && forall w :: 0 <= w < |s.workers| && s.workers[w].pending.Some? && s.workers[w].pending.value < |s.armed| ==>
         s.armed[s.workers[w].pending.value].None?
  }

  /** A source is removed only when nobody waits on it. */
  ghost predicate RemovesNoWaiter(s: System, step: Step) {
    step.Remove? && step.source < |s.armed| ==> s.armed[step.source].None?
  }

  ghost predicate StaysCalm(s0: System, steps: seq<Step>)
    decreases |steps|
  {
    Calm(s0) && (steps == [] || (Can(s0, steps[0]) && RemovesNoWaiter(s0, steps[0]) && StaysCalm(Do(s0, steps[0]), steps[1..])))
  }

  lemma {:induction false} DistinctFit(ts: seq<TaskId>, all: set<TaskId>)
    requires forall i, j :: 0 <= i < j < |ts| ==> ts[i] != ts[j]
    requires forall i :: 0 <= i < |ts| ==> ts[i] in all
    ensures |ts| <= |all|
    decreases |ts|
  {
    if ts != [] {
      DistinctFit(ts[1..], all - {ts[0]});
    }
  }

  /** A ring holds distinct live tasks, none of them in another place. */
  lemma RingFits(s: System, w: nat, others: set<TaskId>)
    requires Inv(s) && w < |s.workers| && others <= s.tasks.Keys
    requires forall i :: 0 <= i < |s.workers[w].ring| ==> s.workers[w].ring[i] !in others
    ensures |s.workers[w].ring| + |others| <= |s.tasks.Keys|
  {
    var ring := s.workers[w].ring;
    forall i, j | 0 <= i < j < |ring| ensures ring[i] != ring[j] {
      if ring[i] == ring[j] {
        OnePlace(s, ring[i], InRing(w, i), InRing(w, j));
      }
    }
    forall i | 0 <= i < |ring| ensures ring[i] in s.tasks.Keys - others {
      PlaceState(s, ring[i], InRing(w, i));
    }
    DistinctFit(ring, s.tasks.Keys - others);
  }

  /** A task that is somewhere else leaves room for itself in a ring. */
  lemma RoomForOther(s: System, w: nat, t: TaskId, place: Place)
    requires Inv(s) && Calm(s) && w < |s.workers| && IsAt(s, t, place) && !place.InRing?
    ensures |s.workers[w].ring| < s.capacity
  {
    PlaceState(s, t, place);
    forall i | 0 <= i < |s.workers[w].ring| ensures s.workers[w].ring[i] !in {t} {
      if s.workers[w].ring[i] == t {
        OnePlace(s, t, place, InRing(w, i));
      }
    }
    RingFits(s, w, {t});
  }

  lemma CalmSpawn(s: System, w: nat, t: TaskId)
    requires Inv(s) && Can(s, Spawn(w, t)) && Calm(Do(s, Spawn(w, t)))
    ensures !Loses(s, Spawn(w, t))
  {
    RingFits(s, w, {});
    assert Do(s, Spawn(w, t)).tasks.Keys == s.tasks.Keys + {t};
    assert Do(s, Spawn(w, t)).capacity == s.capacity;
  }

  lemma CalmStepLosesNothing(s: System, step: Step)
    requires Inv(s) && Can(s, step) && Calm(s) && Calm(Do(s, step)) && RemovesNoWaiter(s, step)
    ensures !Loses(s, step)
  {
    match step {
      case Spawn(w, t) => CalmSpawn(s, w, t);
      case QueueFired(w) =>
        if s.workers[w].phase.batch != [] {
          RoomForOther(s, w, s.workers[w].phase.batch[0], InBatch(w, 0));
        }
      case Post(w) =>
        if s.workers[w].pending.None? {
          RoomForOther(s, w, s.workers[w].phase.task, InHandOf(w));
        }
      case _ =>
    }
  }

  lemma {:induction false} CalmRunLosesNothing(s0: System, steps: seq<Step>, s: System)
    requires Inv(s0) && StaysCalm(s0, steps) && Reaches(s0, steps, s)
    ensures s.dropped == s0.dropped
    decreases |steps|
  {
    if steps != [] {
      StepKeepsInv(s0, steps[0]);
      CalmStepLosesNothing(s0, steps[0]);
      LossOfStep(s0, steps[0]);
      CalmRunLosesNothing(Do(s0, steps[0]), steps[1..], s);
    }
  }

  /** From start-up nothing is ever dropped, provided live tasks never outnumber the slots of a ring
      no source gets a second waiter and none is removed under its waiter. */
  lemma NothingLostWhileCalm(s0: System, entries: seq<TaskId>, steps: seq<Step>, s: System)
    requires Init(s0, entries) && StaysCalm(s0, steps) && Reaches(s0, steps, s)
    ensures s.dropped == multiset{}
  {
    InitInv(s0, entries);
    DistinctFit(entries, s0.tasks.Keys);
    assert entries[|entries|..] == [];
    CalmRunLosesNothing(s0, steps, s);
  }
}
