/** Liveness-relevant safety of the task system: no queued task is stranded behind a parked
    worker, and StopInternal returns only when every worker has left its loop. */
module Wakeups {
  import opened Common
  import opened Tasks

  /** The turn at which worker v's scan looks at worker w's ring. */
  ghost function Turn(n: nat, v: nat, w: nat): nat
    requires v < n && w < n
  {
    if w >= v then w - v + 1 else w + n - v + 1
  }

  lemma VictimAtTurn(n: nat, v: nat, w: nat)
    requires v < n && w < n
    ensures 1 <= Turn(n, v, w) <= n && Victim(n, v, Turn(n, v, w)) == w
  {
    var k := Turn(n, v, w);
    if w < v {
      WrapsOnce(w, n);
      assert v + k - 1 == w + n;
    } else {
      assert v + k - 1 == w;
    }
  }

  lemma WrapsOnce(w: nat, n: nat)
    requires w < n
    ensures (w + n) % n == w % n == w
  {
  }

  lemma VictimInRange(n: nat, v: nat, k: nat)
    requires v < n
    ensures Victim(n, v, k) < n
  {
  }

  /** Worker v has woken and is bound to look at worker w's ring before it parks. */
  ghost predicate Covers(s: System, v: nat, w: nat)
    requires v < |s.workers| && w < |s.workers|
  {
    v != w &&
    match s.workers[v].phase
    case Queueing(_) => true
    case Holding(_) => true
    case Running(_, _) => true
    case Posting(_) => true
    case Scanning(k) => k <= Turn(|s.workers|, v, w)
    case _ => false
  }

  ghost predicate Waiting(worker: Worker) {
    worker.phase.Checking? || worker.phase.Parked?
  }

  ghost predicate SomeoneCovers(s: System, w: nat)
    requires w < |s.workers|
  {
    exists v :: 0 <= v < |s.workers| && Covers(s, v, w)
  }

  /** A worker that waits, or is about to, has an empty ring, except before its first wake-up, and
      then the counter is up or somebody else is bound to come by. */
  ghost predicate RingOk(s: System, w: nat)
    requires w < |s.workers|
  {
    var worker := s.workers[w];
    && (worker.phase.Scanning? && worker.phase.tried > 0 ==> worker.ring == [])
    && (Waiting(worker) && worker.woken ==> worker.ring == [])
    && (Waiting(worker) && worker.ring != [] ==> s.wakeups > 0 || SomeoneCovers(s, w))
  }

  ghost predicate NoneStranded(s: System) {
    forall w :: 0 <= w < |s.workers| ==> RingOk(s, w)
  }

  lemma InitNoneStranded(s: System, entries: seq<TaskId>)
    requires Init(s, entries)
    ensures NoneStranded(s)
  {
    var fit := if |entries| <= s.capacity then |entries| else s.capacity;
    forall w | 0 <= w < |s.workers| ensures RingOk(s, w) {
      assert NewWorker(s.workers[w], if w == 0 then entries[..fit] else []);
    }
  }

  /** A worker that keeps its phase keeps covering. */
  lemma StillCovers(s: System, s': System, v: nat, w: nat)
    requires |s'.workers| == |s.workers| && v < |s.workers| && w < |s.workers|
    requires Covers(s, v, w) && s'.workers[v].phase == s.workers[v].phase
    ensures SomeoneCovers(s', w)
  {
    assert Covers(s', v, w);
  }

  /** A scan that has not come to w's ring yet, which still holds something, goes on covering w. */
  lemma ScanCovers(s: System, v: nat, w: nat)
    requires v < |s.workers| && s.workers[v].phase.Scanning?
    requires w < |s.workers| && Covers(s, v, w) && s.workers[w].ring != []
    ensures |ScanRing(s, v).workers| == |s.workers| && Covers(ScanRing(s, v), v, w)
  {
    VictimInRange(|s.workers|, v, s.workers[v].phase.tried);
    VictimAtTurn(|s.workers|, v, w);
  }

  lemma PushPhase(s: System, v: nat, t: TaskId)
    requires v < |s.workers|
    ensures |Push(s, v, t).workers| == |s.workers| && Push(s, v, t).workers[v].phase == s.workers[v].phase
  {
  }

  /** A step that queues something leaves the worker awake. */
  lemma QueueingStaysAwake(s: System, step: Step)
    requires Can(s, step) && (step.Spawn? || step.QueueFired? || step.Post?)
    ensures |Do(s, step).workers| == |s.workers|
    ensures var phase := Do(s, step).workers[step.w].phase;
            phase.Running? || phase.Queueing? || phase == Scanning(0)
  {
    match step {
      case Spawn(v, t) => PushPhase(GoTo(s, v, s.workers[v].phase.(owes := true)), v, t);
      case QueueFired(v) =>
        var batch := s.workers[v].phase.batch;
        if batch != [] {
          PushPhase(GoTo(s, v, Queueing(batch[1..])), v, batch[0]);
        }
      case Post(v) =>
        var idle := SetWorker(s, v, s.workers[v].(phase := Scanning(0), current := None, pending := None, yielding := false));
        PushPhase(idle, v, s.workers[v].phase.task);
    }
  }

  /** The acting worker was covering w, whose ring still holds something: it goes on covering. */
  lemma ActorCovers(s: System, step: Step, w: nat)
    requires Can(s, step) && !step.StopRequest? && !step.InterruptRequest?
    requires w < |s.workers| && Covers(s, step.w, w) && s.workers[w].ring != []
    ensures |Do(s, step).workers| == |s.workers| && SomeoneCovers(Do(s, step), w)
  {
    if step.Scan? {
      ScanCovers(s, step.w, w);
    } else if step.Spawn? || step.QueueFired? || step.Post? {
      QueueingStaysAwake(s, step);
    }
    assert Covers(Do(s, step), step.w, w);
  }

  /** What a step does to the phase and ring of a worker other than the one acting. */
  lemma Bystander(s: System, step: Step, w: nat)
    requires Can(s, step) && w < |s.workers|
    requires step.StopRequest? || step.InterruptRequest? || step.w != w
    ensures var s' := Do(s, step);
            && |s'.workers| == |s.workers|
            && s'.workers[w].phase == s.workers[w].phase && s'.workers[w].woken == s.workers[w].woken
            && (s'.workers[w].ring == s.workers[w].ring
                || (s.workers[w].ring != [] && s'.workers[w].ring == s.workers[w].ring[1..]))
  {
    if step.Scan? {
      VictimInRange(|s.workers|, step.w, s.workers[step.w].phase.tried);
    }
  }

  /** The counter only falls by draining, and who drains covers everybody waiting. */
  lemma CounterFalls(s: System, step: Step, w: nat)
    requires Can(s, step) && s.wakeups > 0 && w < |s.workers|
    requires step.Drain? ==> step.w != w
    ensures |Do(s, step).workers| == |s.workers|
    ensures Do(s, step).wakeups > 0 || SomeoneCovers(Do(s, step), w)
  {
    if step.Drain? {
      assert Covers(Do(s, step), step.w, w);
    }
  }

  lemma OthersRing(s: System, step: Step, w: nat)
    requires NoneStranded(s) && Can(s, step) && w < |s.workers|
    requires step.StopRequest? || step.InterruptRequest? || step.w != w
    ensures |Do(s, step).workers| == |s.workers| && RingOk(Do(s, step), w)
  {
    var s' := Do(s, step);
    Bystander(s, step, w);
    assert RingOk(s, w);
    if Waiting(s'.workers[w]) && s'.workers[w].ring != [] {
      if s.wakeups > 0 {
        CounterFalls(s, step, w);
      } else {
        var v :| 0 <= v < |s.workers| && Covers(s, v, w);
        if step.StopRequest? || step.InterruptRequest? || step.w != v {
          Bystander(s, step, v);
          StillCovers(s, s', v, w);
        } else {
          ActorCovers(s, step, w);
        }
      }
    }
  }

  lemma OwnCheck(s: System, w: nat)
    requires NoneStranded(s) && Can(s, Check(w))
    ensures |CheckRunning(s, w).workers| == |s.workers| && RingOk(CheckRunning(s, w), w)
  {
    assert RingOk(s, w);
    if s.workers[w].running && s.workers[w].ring != [] && s.wakeups == 0 {
      var v :| 0 <= v < |s.workers| && Covers(s, v, w);
      StillCovers(s, CheckRunning(s, w), v, w);
    }
  }

  lemma OwnScan(s: System, w: nat)
    requires NoneStranded(s) && Can(s, Scan(w))
    ensures |ScanRing(s, w).workers| == |s.workers| && RingOk(ScanRing(s, w), w)
  {
    assert RingOk(s, w);
    VictimInRange(|s.workers|, w, s.workers[w].phase.tried);
  }

  /** A step that leaves its worker busy, or at the start of a scan, strands nothing in its ring. */
  lemma OwnBusy(s: System, w: nat)
    requires w < |s.workers| && !Waiting(s.workers[w]) && (s.workers[w].phase.Scanning? ==> s.workers[w].phase.tried == 0)
    ensures RingOk(s, w)
  {
  }

  /** What the acting worker is about after a step other than a check and a scan. */
  lemma Busy(s: System, step: Step)
    requires Can(s, step) && !step.StopRequest? && !step.InterruptRequest? && !step.Check? && !step.Scan?
    ensures |Do(s, step).workers| == |s.workers|
    ensures var worker := Do(s, step).workers[step.w];
            !Waiting(worker) && (worker.phase.Scanning? ==> worker.phase.tried == 0)
    ensures !step.StopPass? ==> !Do(s, step).workers[step.w].phase.Stopping? && !Do(s, step).workers[step.w].phase.Done?
  {
    if step.Spawn? || step.QueueFired? || step.Post? {
      QueueingStaysAwake(s, step);
    }
  }

  lemma OwnOther(s: System, step: Step)
    requires Can(s, step) && !step.StopRequest? && !step.InterruptRequest? && !step.Check? && !step.Scan?
    ensures |Do(s, step).workers| == |s.workers| && RingOk(Do(s, step), step.w)
  {
    Busy(s, step);
    OwnBusy(Do(s, step), step.w);
  }

  lemma OwnRing(s: System, step: Step)
    requires NoneStranded(s) && Can(s, step) && !step.StopRequest? && !step.InterruptRequest?
    ensures |Do(s, step).workers| == |s.workers| && RingOk(Do(s, step), step.w)
  {
    if step.Check? {
      OwnCheck(s, step.w);
    } else if step.Scan? {
      OwnScan(s, step.w);
    } else {
      OwnOther(s, step);
    }
  }

  lemma StepStrandsNone(s: System, step: Step)
    requires NoneStranded(s) && Can(s, step)
    ensures NoneStranded(Do(s, step))
  {
    var s' := Do(s, step);
    if step.StopRequest? || step.InterruptRequest? {
      forall w | 0 <= w < |s.workers| ensures RingOk(s', w) {
        OthersRing(s, step, w);
      }
    } else {
      OwnRing(s, step);
      forall w | 0 <= w < |s.workers| ensures RingOk(s', w) {
        if w != step.w {
          OthersRing(s, step, w);
        }
      }
    }
  }

  lemma {:induction false} RunStrandsNone(s0: System, steps: seq<Step>, s: System)
    requires NoneStranded(s0) && Reaches(s0, steps, s)
    ensures NoneStranded(s)
    decreases |steps|
  {
    if steps != [] {
      StepStrandsNone(s0, steps[0]);
      RunStrandsNone(Do(s0, steps[0]), steps[1..], s);
    }
  }

  /** In every reachable state a worker parked in Wait has an empty ring, unless it has never been
      woken; then the wake-up counter is up, or another worker has woken and has yet to scan this ring. */
  lemma ParkedRingsAreEmpty(s0: System, entries: seq<TaskId>, steps: seq<Step>, s: System, w: nat)
    requires Init(s0, entries) && Reaches(s0, steps, s)
    requires w < |s.workers| && s.workers[w].phase.Parked? && s.workers[w].ring != []
    ensures !s.workers[w].woken && (s.wakeups > 0 || SomeoneCovers(s, w))
  {
    InitNoneStranded(s0, entries);
    RunStrandsNone(s0, steps, s);
    assert RingOk(s, w);
  }

  // ---- Shutdown ----

  /** What a pass of StopInternal has established about the workers it has looked at. */
  ghost predicate StopOk(s: System, w: nat)
    requires w < |s.workers|
  {
    match s.workers[w].phase
    case Stopping(i, seen) => seen || forall v :: 0 <= v < i && v < |s.workers| ==> s.workers[v].finished
    case Done => forall v :: 0 <= v < |s.workers| ==> s.workers[v].finished
    case _ => true
  }

  ghost predicate StopsOk(s: System) {
    forall w :: 0 <= w < |s.workers| ==> StopOk(s, w)
  }

  /** A worker that has left its loop never takes it back, and none that was told to stop forgets it. */
  ghost predicate NeverBack(s: System, s': System) {
    && |s'.workers| == |s.workers|
    && forall w :: 0 <= w < |s.workers| ==>
         (s.workers[w].finished ==> s'.workers[w].finished) && (s'.workers[w].running ==> s.workers[w].running)
  }

  lemma PushNeverBack(s: System, w: nat, t: TaskId)
    requires w < |s.workers|
    ensures NeverBack(s, Push(s, w, t))
  {
  }

  lemma ScanNeverBack(s: System, w: nat)
    requires Can(s, Scan(w))
    ensures NeverBack(s, Do(s, Scan(w)))
  {
    VictimInRange(|s.workers|, w, s.workers[w].phase.tried);
  }

  lemma PostNeverBack(s: System, w: nat)
    requires Can(s, Post(w))
    ensures NeverBack(s, Do(s, Post(w)))
  {
    var worker := s.workers[w];
    var idle := SetWorker(s, w, worker.(phase := Scanning(0), current := None, pending := None,
                                        yielding := worker.pending.Some? && worker.yielding));
    PushNeverBack(idle, w, worker.phase.task);
  }

  lemma QueueNeverBack(s: System, w: nat)
    requires Can(s, QueueFired(w))
    ensures NeverBack(s, Do(s, QueueFired(w)))
  {
    var batch := s.workers[w].phase.batch;
    if batch != [] {
      PushNeverBack(GoTo(s, w, Queueing(batch[1..])), w, batch[0]);
    }
  }

  lemma SpawnNeverBack(s: System, w: nat, t: TaskId)
    requires Can(s, Spawn(w, t))
    ensures NeverBack(s, Do(s, Spawn(w, t)))
  {
    PushNeverBack(GoTo(s, w, s.workers[w].phase.(owes := true)), w, t);
  }

  lemma PassNeverBack(s: System, w: nat)
    requires Can(s, StopPass(w))
    ensures NeverBack(s, Do(s, StopPass(w)))
  {
  }

  lemma OthersNeverBack(s: System, step: Step)
    requires Can(s, step)
    requires !step.Scan? && !step.QueueFired? && !step.Spawn? && !step.Post? && !step.StopPass?
    ensures NeverBack(s, Do(s, step))
  {
  }

  lemma StepNeverBack(s: System, step: Step)
    requires Can(s, step)
    ensures NeverBack(s, Do(s, step))
  {
    if step.Scan? {
      ScanNeverBack(s, step.w);
    } else if step.Post? {
      PostNeverBack(s, step.w);
    } else if step.QueueFired? {
      QueueNeverBack(s, step.w);
    } else if step.Spawn? {
      SpawnNeverBack(s, step.w, step.task);
    } else if step.StopPass? {
      PassNeverBack(s, step.w);
    } else {
      OthersNeverBack(s, step);
    }
  }

  lemma BystanderStops(s: System, step: Step, w: nat)
    requires StopsOk(s) && Can(s, step) && w < |s.workers|
    requires step.StopRequest? || step.InterruptRequest? || step.w != w
    requires NeverBack(s, Do(s, step))
    ensures StopOk(Do(s, step), w)
  {
    assert StopOk(s, w);
    Bystander(s, step, w);
  }

  /** A step other than a pass puts its worker at most at the start of StopInternal. */
  lemma EntersStop(s: System, step: Step)
    requires Can(s, step) && !step.StopPass? && !step.StopRequest? && !step.InterruptRequest?
    ensures |Do(s, step).workers| == |s.workers| && StopOk(Do(s, step), step.w)
  {
    if step.Scan? {
      OwnPhaseAfterScan(s, step.w);
    } else if !step.Check? {
      Busy(s, step);
    }
  }

  lemma OwnPhaseAfterScan(s: System, w: nat)
    requires Can(s, Scan(w))
    ensures |Do(s, Scan(w)).workers| == |s.workers|
    ensures var phase := Do(s, Scan(w)).workers[w].phase; phase.Scanning? || phase.Holding? || phase.Checking?
  {
    VictimInRange(|s.workers|, w, s.workers[w].phase.tried);
  }

  lemma PassStops(s: System, w: nat)
    requires StopsOk(s) && Can(s, StopPass(w)) && NeverBack(s, Do(s, StopPass(w)))
    ensures StopOk(Do(s, StopPass(w)), w)
  {
    assert StopOk(s, w);
  }

  lemma ActorStops(s: System, step: Step)
    requires StopsOk(s) && Can(s, step) && !step.StopRequest? && !step.InterruptRequest?
    requires NeverBack(s, Do(s, step))
    ensures StopOk(Do(s, step), step.w)
  {
    if step.StopPass? {
      PassStops(s, step.w);
    } else {
      EntersStop(s, step);
    }
  }

  lemma StepKeepsStops(s: System, step: Step)
    requires StopsOk(s) && Can(s, step)
    ensures StopsOk(Do(s, step))
  {
    var s' := Do(s, step);
    StepNeverBack(s, step);
    forall w | 0 <= w < |s'.workers| ensures StopOk(s', w) {
      if step.StopRequest? || step.InterruptRequest? || step.w != w {
        BystanderStops(s, step, w);
      } else {
        ActorStops(s, step);
      }
    }
  }

  lemma {:induction false} RunKeepsStops(s0: System, steps: seq<Step>, s: System)
    requires StopsOk(s0) && Reaches(s0, steps, s)
    ensures StopsOk(s)
    decreases |steps|
  {
    if steps != [] {
      StepKeepsStops(s0, steps[0]);
      RunKeepsStops(Do(s0, steps[0]), steps[1..], s);
    }
  }

  lemma InitStops(s0: System, entries: seq<TaskId>)
    requires Init(s0, entries)
    ensures StopsOk(s0)
  {
    forall v | 0 <= v < |s0.workers| ensures StopOk(s0, v) {
      var fit := if |entries| <= s0.capacity then |entries| else s0.capacity;
      assert NewWorker(s0.workers[v], if v == 0 then entries[..fit] else []);
    }
  }

  /** Once StopInternal has returned on one worker, every worker has left its loop and no task
      executes anywhere. */
  lemma ShutdownIsComplete(s0: System, entries: seq<TaskId>, steps: seq<Step>, s: System, w: nat)
    requires Init(s0, entries) && Reaches(s0, steps, s)
    requires w < |s.workers| && s.workers[w].phase.Done?
    ensures forall v :: 0 <= v < |s.workers| ==> s.workers[v].finished && s.workers[v].current.None?
    ensures forall t :: t in s.tasks ==> s.tasks[t].state != Executing
  {
    InitInv(s0, entries);
    RunKeepsInv(s0, steps, s);
    InitStops(s0, entries);
    RunKeepsStops(s0, steps, s);
    assert StopOk(s, w);
    forall v | 0 <= v < |s.workers| ensures s.workers[v].finished && s.workers[v].current.None? {
      assert WorkerOk(s, v, s.workers[v]);
    }
    forall t | t in s.tasks ensures s.tasks[t].state != Executing {
      if s.tasks[t].state == Executing {
        ExecutingIsCurrent(s, t);
      }
    }
  }
}
