/** Progress of a shutdown: once every worker has been told to stop, a rank bounds what the workers
    can still do, and they can bring every StopInternal to its end. */
module Shutdown {
  import opened Common
  import opened Tasks
  import opened Wakeups

  ghost predicate AllTold(s: System) {
    forall w :: 0 <= w < |s.workers| ==> !s.workers[w].running
  }

  /** A task goes on: it starts another, or means to be resumed. */
  predicate GoesOn(step: Step) {
    step.Spawn? || step.WaitEvent? || step.Yield?
  }

  // ---- The rank ----

  ghost function Times(k: nat, c: nat): nat {
    if k == 0 then 0 else c + Times(k - 1, c)
  }

  /** What is left to do in a phase, among n workers. A task costs n + 7 in a ring, one more in a
      batch and two more on an event source. */
  ghost function PhaseCost(n: nat, phase: Phase): nat {
    match phase
    case Checking => 1
    case Parked => n + 6
    case Draining(batch) => n + 5 + Times(|batch|, n + 8)
    case Queueing(batch) => n + 4 + Times(|batch|, n + 8)
    case Scanning(k) => if k <= n then n + 3 - k else 2
    case Holding(_) => n + 7
    case Running(_, owes) => if owes then n + 6 else n + 5
    case Posting(_) => n + 4
    case Stopping(_, _) => 0
    case Done => 0
  }

  ghost function Cost(n: nat, worker: Worker): nat {
    PhaseCost(n, worker.phase) + Times(|worker.ring|, n + 7)
    + (if worker.pending.Some? then n + 9 else 0) + (if worker.yielding then n + 7 else 0)
  }

  ghost function Costs(n: nat, ws: seq<Worker>): nat {
    if ws == [] then 0 else Cost(n, ws[0]) + Costs(n, ws[1..])
  }

  ghost function ArmedCost(armed: seq<Option<TaskId>>, c: nat): nat {
    if armed == [] then 0 else (if armed[0].Some? then c else 0) + ArmedCost(armed[1..], c)
  }

  ghost function Rank(s: System): nat {
    Costs(|s.workers|, s.workers) + ArmedCost(s.armed, |s.workers| + 9)
  }

  lemma {:induction false} CostsUpdate(n: nat, ws: seq<Worker>, w: nat, worker: Worker)
    requires w < |ws|
    ensures Costs(n, ws[w := worker]) + Cost(n, ws[w]) == Costs(n, ws) + Cost(n, worker)
    decreases |ws|
  {
    if w == 0 {
      assert ws[w := worker][1..] == ws[1..];
    } else {
      CostsUpdate(n, ws[1..], w - 1, worker);
      assert ws[w := worker][1..] == ws[1..][w - 1 := worker];
    }
  }

  lemma {:induction false} ArmedUpdate(armed: seq<Option<TaskId>>, e: nat, o: Option<TaskId>, c: nat)
    requires e < |armed|
    ensures ArmedCost(armed[e := o], c) + (if armed[e].Some? then c else 0) == ArmedCost(armed, c) + (if o.Some? then c else 0)
    decreases |armed|
  {
    if e == 0 {
      assert armed[e := o][1..] == armed[1..];
    } else {
      ArmedUpdate(armed[1..], e - 1, o, c);
      assert armed[e := o][1..] == armed[1..][e - 1 := o];
    }
  }

  /** A fired task costs one less in the batch than on its source. */
  lemma {:induction false} FireCost(armed: seq<Option<TaskId>>, fired: seq<Source>, c: nat)
    ensures var (left, batch) := Fire(armed, fired);
            ArmedCost(left, c + 1) + Times(|batch|, c) <= ArmedCost(armed, c + 1)
    decreases |fired|
  {
    if fired != [] {
      var e := fired[0];
      if e < |armed| && armed[e].Some? {
        ArmedUpdate(armed, e, None, c + 1);
        FireCost(armed[e := None], fired[1..], c);
      } else {
        FireCost(armed, fired[1..], c);
      }
    }
  }

  lemma SetWorkerRank(s: System, w: nat, worker: Worker)
    requires w < |s.workers|
    ensures Rank(SetWorker(s, w, worker)) + Cost(|s.workers|, s.workers[w]) == Rank(s) + Cost(|s.workers|, worker)
  {
    CostsUpdate(|s.workers|, s.workers, w, worker);
  }

  lemma GoToRank(s: System, w: nat, phase: Phase)
    requires w < |s.workers|
    ensures Rank(GoTo(s, w, phase)) + PhaseCost(|s.workers|, s.workers[w].phase) == Rank(s) + PhaseCost(|s.workers|, phase)
  {
    SetWorkerRank(s, w, s.workers[w].(phase := phase));
  }

  lemma PushRank(s: System, w: nat, t: TaskId)
    requires w < |s.workers|
    ensures Rank(Push(s, w, t)) <= Rank(s) + |s.workers| + 7
  {
    var worker := s.workers[w];
    SetWorkerRank(s, w, worker.(ring := worker.ring + [t]));
    assert Times(|worker.ring| + 1, |s.workers| + 7) == |s.workers| + 7 + Times(|worker.ring|, |s.workers| + 7);
  }

  // ---- What a step does to the rank ----

  /** What a step may add to the rank, and what it must take off. */
  ghost predicate Ranked(s: System, step: Step, s': System) {
    Rank(s') + (if Manages(step) || GoesOn(step) then 0 else 1) <= Rank(s) + (if GoesOn(step) then |s.workers| + 8 else 0)
  }

  lemma WakeRank(s: System, w: nat, fired: seq<Source>)
    requires w < |s.workers| && s.workers[w].phase.Parked?
    ensures Rank(WakeUp(s, w, fired)) < Rank(s)
  {
    var (left, batch) := Fire(s.armed, fired);
    var worker := s.workers[w].(phase := Draining(batch), woken := true);
    SetWorkerRank(s, w, worker);
    FireCost(s.armed, fired, |s.workers| + 8);
    assert Rank(SetWorker(s, w, worker)) == Costs(|s.workers|, s.workers[w := worker]) + ArmedCost(s.armed, |s.workers| + 9);
  }

  lemma QueueRank(s: System, w: nat)
    requires w < |s.workers| && s.workers[w].phase.Queueing?
    ensures Rank(QueueNext(s, w)) < Rank(s)
  {
    var batch := s.workers[w].phase.batch;
    if batch == [] {
      GoToRank(s, w, Scanning(0));
    } else {
      GoToRank(s, w, Queueing(batch[1..]));
      PushRank(GoTo(s, w, Queueing(batch[1..])), w, batch[0]);
    }
  }

  /** Taking the head of a ring in hand. */
  lemma TakeRank(s: System, v: nat, w: nat)
    requires v < |s.workers| && w < |s.workers| && s.workers[v].ring != []
    ensures var popped := SetWorker(s, v, s.workers[v].(ring := s.workers[v].ring[1..]));
            Rank(GoTo(popped, w, Holding(s.workers[v].ring[0]))) + PhaseCost(|s.workers|, s.workers[w].phase) == Rank(s)
  {
    var victim := s.workers[v];
    var popped := SetWorker(s, v, victim.(ring := victim.ring[1..]));
    SetWorkerRank(s, v, victim.(ring := victim.ring[1..]));
    GoToRank(popped, w, Holding(victim.ring[0]));
  }

  lemma ScanRank(s: System, w: nat)
    requires w < |s.workers| && s.workers[w].phase.Scanning?
    ensures Rank(ScanRing(s, w)) < Rank(s)
  {
    var k := s.workers[w].phase.tried;
    if k > |s.workers| {
      GoToRank(s, w, Checking);
    } else {
      var v := Victim(|s.workers|, w, k);
      assert v < |s.workers| by { VictimInRange(|s.workers|, w, k); }
      if s.workers[v].ring == [] {
        GoToRank(s, w, Scanning(k + 1));
      } else {
        TakeRank(s, v, w);
      }
    }
  }

  lemma PostRank(s: System, w: nat)
    requires Can(s, Post(w))
    ensures Rank(PostTask(s, w)) < Rank(s)
  {
    var worker := s.workers[w];
    var after := worker.(phase := Scanning(0), current := None, pending := None,
                         yielding := worker.pending.Some? && worker.yielding);
    SetWorkerRank(s, w, after);
    if worker.pending.Some? {
      ArmedUpdate(s.armed, worker.pending.value, Some(worker.phase.task), |s.workers| + 9);
    } else if worker.yielding {
      PushRank(SetWorker(s, w, after), w, worker.phase.task);
    }
  }

  lemma SpawnRank(s: System, w: nat, t: TaskId)
    requires Can(s, Spawn(w, t))
    ensures Rank(SpawnTask(s, w, t)) <= Rank(s) + |s.workers| + 8
  {
    var owing := s.workers[w].phase.(owes := true);
    GoToRank(s, w, owing);
    PushRank(GoTo(s, w, owing), w, t);
  }

  lemma ToldRank(s: System, i: nat)
    requires i < |s.workers|
    ensures Rank(SetWorker(s, i, s.workers[i].(running := false))) == Rank(s)
  {
    SetWorkerRank(s, i, s.workers[i].(running := false));
  }

  lemma PassRank(s: System, w: nat)
    requires w < |s.workers| && s.workers[w].phase.Stopping?
    ensures Rank(StopNext(s, w)) == Rank(s)
  {
    var i, seen := s.workers[w].phase.next, s.workers[w].phase.seen;
    if i >= |s.workers| {
      GoToRank(s, w, if seen then Stopping(0, false) else Done);
    } else if s.workers[i].finished {
      GoToRank(s, w, Stopping(i + 1, seen));
    } else {
      ToldRank(s, i);
      GoToRank(SetWorker(s, i, s.workers[i].(running := false)), w, Stopping(i + 1, true));
    }
  }

  /** The steps that change only the acting worker's record. */
  lemma OwnRank(s: System, w: nat, worker: Worker, s': System)
    requires w < |s.workers| && s'.workers == s.workers[w := worker] && s'.armed == s.armed
    ensures Rank(s') + Cost(|s.workers|, s.workers[w]) == Rank(s) + Cost(|s.workers|, worker)
  {
    SetWorkerRank(s, w, worker);
  }

  lemma LocalRank(s: System, step: Step)
    requires Can(s, step)
    requires step.WakeOnSignal? || step.Drain? || step.Interrupt? || step.Return? || (step.Check? && !s.workers[step.w].running)
    ensures Rank(Do(s, step)) < Rank(s)
  {
    OwnRank(s, step.w, Do(s, step).workers[step.w], Do(s, step));
  }

  lemma SwitchRank(s: System, step: Step)
    requires Can(s, step) && Switches(step)
    ensures Ranked(s, step, Do(s, step))
  {
    OwnRank(s, step.w, Do(s, step).workers[step.w], Do(s, step));
  }

  lemma CarryRank(s: System, step: Step)
    requires Can(s, step) && Carries(step)
    ensures Ranked(s, step, Do(s, step))
  {
    match step {
      case Wake(w, fired) => WakeRank(s, w, fired);
      case QueueFired(w) => QueueRank(s, w);
      case Scan(w) => ScanRank(s, w);
      case Post(w) => PostRank(s, w);
      case Spawn(w, t) => SpawnRank(s, w, t);
    }
  }

  lemma ManagerRank(s: System, step: Step)
    requires Can(s, step) && Manages(step)
    ensures Ranked(s, step, Do(s, step))
  {
    match step {
      case StopPass(w) => PassRank(s, w);
      case Remove(_, e) => ArmedUpdate(s.armed, e, None, |s.workers| + 9);
      case StopRequest(v) => ToldRank(s, v);
      case InterruptRequest =>
    }
  }

  lemma StepRank(s: System, step: Step)
    requires AllTold(s) && Can(s, step)
    ensures Ranked(s, step, Do(s, step))
  {
    if Carries(step) {
      CarryRank(s, step);
    } else if Manages(step) {
      ManagerRank(s, step);
    } else if Switches(step) {
      SwitchRank(s, step);
    } else {
      LocalRank(s, step);
    }
  }

  // ---- Bounded work ----

  /** How many steps of a run bring some worker nearer to its end: not the passes over the workers, the
      requests from outside, the removal of a source, or a task going on. */
  ghost function Work(steps: seq<Step>): nat {
    if steps == [] then 0 else (if Manages(steps[0]) || GoesOn(steps[0]) then 0 else 1) + Work(steps[1..])
  }

  /** How often tasks go on in a run. */
  ghost function GoingOn(steps: seq<Step>): nat {
    if steps == [] then 0 else (if GoesOn(steps[0]) then 1 else 0) + GoingOn(steps[1..])
  }

  /** Whatever the schedule: once every worker has been told to stop, the work of a run is bounded by
      the rank it starts from and by how often tasks go on. */
  lemma {:induction false} WorkIsBounded(s: System, steps: seq<Step>, r: System)
    requires AllTold(s) && Reaches(s, steps, r)
    ensures |r.workers| == |s.workers| && AllTold(r)
    ensures Work(steps) + Rank(r) <= Rank(s) + Times(GoingOn(steps), |s.workers| + 8)
    decreases |steps|
  {
    if steps != [] {
      StepRank(s, steps[0]);
      StepNeverBack(s, steps[0]);
      WorkIsBounded(Do(s, steps[0]), steps[1..], r);
    }
  }

  // ---- The end is within reach ----

  /** Somebody is awake, or the wake-up counter is up. */
  ghost predicate Lively(s: System) {
    s.wakeups > 0 || exists w :: 0 <= w < |s.workers| && !s.workers[w].phase.Parked?
  }

  ghost predicate AllDone(s: System) {
    forall w :: 0 <= w < |s.workers| ==> s.workers[w].phase.Done?
  }

  /** Steps of the workers on their own: no request, signal or event, and tasks that return when they run. */
  predicate Unaided(step: Step) {
    match step
    case Wake(_, fired) => fired == []
    case WakeOnSignal(_) => false
    case StopRequest(_) => false
    case InterruptRequest => false
    case _ => !GoesOn(step)
  }

  ghost predicate AllUnaided(steps: seq<Step>) {
    forall i :: 0 <= i < |steps| ==> Unaided(steps[i])
  }

  lemma {:induction false} ReachesConcat(s0: System, a: seq<Step>, s1: System, b: seq<Step>, s2: System)
    requires Reaches(s0, a, s1) && Reaches(s1, b, s2)
    ensures Reaches(s0, a + b, s2)
    decreases |a|
  {
    if a == [] {
      assert a + b == b;
    } else {
      assert (a + b)[1..] == a[1..] + b;
      ReachesConcat(Do(s0, a[0]), a[1..], s1, b, s2);
    }
  }

  lemma OneStep(s: System, step: Step)
    requires Can(s, step)
    ensures Reaches(s, [step], Do(s, step))
  {
    assert [step][1..] == [];
  }

  lemma {:induction false} NobodyGoesOn(steps: seq<Step>)
    requires AllUnaided(steps)
    ensures GoingOn(steps) == 0
    decreases |steps|
  {
    if steps != [] {
      assert Unaided(steps[0]);
      forall i | 0 <= i < |steps[1..]| ensures Unaided(steps[1..][i]) {
        assert steps[1..][i] == steps[i + 1];
      }
      NobodyGoesOn(steps[1..]);
    }
  }

  /** The next step of a worker that has not left its loop. */
  function NextStep(s: System, w: nat): Step
    requires w < |s.workers|
  {
    match s.workers[w].phase
    case Checking => Check(w)
    case Parked => Wake(w, [])
    case Draining(_) => Drain(w)
    case Queueing(_) => QueueFired(w)
    case Scanning(_) => Scan(w)
    case Holding(_) => SwitchTo(w)
    case Running(_, owes) => if owes then Interrupt(w) else Return(w)
    case Posting(_) => Post(w)
    case Stopping(_, _) => StopPass(w)
    case Done => InterruptRequest
  }

  lemma NextStepWorks(s: System, w: nat)
    requires Inv(s) && w < |s.workers| && !s.workers[w].finished && (s.workers[w].phase.Parked? ==> s.wakeups > 0)
    ensures Can(s, NextStep(s, w)) && Unaided(NextStep(s, w)) && !Manages(NextStep(s, w))
  {
    assert WorkerOk(s, w, s.workers[w]);
  }

  /** A worker in StopInternal raises the wake-up counter at the end of its pass. */
  lemma {:induction false} PassRaises(s: System, w: nat) returns (steps: seq<Step>, r: System)
    requires w < |s.workers| && s.workers[w].phase.Stopping?
    ensures Reaches(s, steps, r) && AllUnaided(steps)
    ensures r.wakeups > 0 && |r.workers| == |s.workers|
    ensures forall v :: 0 <= v < |s.workers| && v != w ==> r.workers[v].phase == s.workers[v].phase && r.workers[v].finished == s.workers[v].finished
    decreases |s.workers| - s.workers[w].phase.next
  {
    var next := Do(s, StopPass(w));
    OneStep(s, StopPass(w));
    if s.workers[w].phase.next >= |s.workers| {
      steps, r := [StopPass(w)], next;
    } else {
      var more, last := PassRaises(next, w);
      ReachesConcat(s, [StopPass(w)], next, more, last);
      steps, r := [StopPass(w)] + more, last;
    }
  }

  /** A pass that sees nobody unfinished only moves on. */
  lemma QuietPass(s: System, w: nat)
    requires Can(s, StopPass(w)) && forall v :: 0 <= v < |s.workers| ==> s.workers[v].finished
    ensures var i, seen := s.workers[w].phase.next, s.workers[w].phase.seen;
      var phase := if i < |s.workers| then Stopping(i + 1, seen) else if seen then Stopping(0, false) else Done;
      Do(s, StopPass(w)).workers == s.workers[w := s.workers[w].(phase := phase)]
  {
  }

  /** Once every worker has left its loop, StopInternal comes to its end within two passes. */
  lemma {:induction false} PassesEnd(s: System, w: nat) returns (steps: seq<Step>, r: System)
    requires w < |s.workers| && forall v :: 0 <= v < |s.workers| ==> s.workers[v].finished
    requires s.workers[w].phase.Stopping? || s.workers[w].phase.Done?
    ensures Reaches(s, steps, r) && AllUnaided(steps)
    ensures r.workers == s.workers[w := s.workers[w].(phase := Done)]
    decreases s.workers[w].phase.Stopping?, s.workers[w].phase.Stopping? && s.workers[w].phase.seen,
              if s.workers[w].phase.Stopping? then |s.workers| - s.workers[w].phase.next else 0
  {
    if s.workers[w].phase.Done? {
      steps, r := [], s;
      assert r.workers == s.workers[w := s.workers[w].(phase := Done)];
    } else {
      var next := Do(s, StopPass(w));
      QuietPass(s, w);
      OneStep(s, StopPass(w));
      var more, last := PassesEnd(next, w);
      ReachesConcat(s, [StopPass(w)], next, more, last);
      steps, r := [StopPass(w)] + more, last;
    }
  }

  /** The first k workers come to their end. */
  lemma {:induction false} AllPassesEnd(s: System, k: nat) returns (steps: seq<Step>, r: System)
    requires k <= |s.workers|
    requires forall v :: 0 <= v < |s.workers| ==> s.workers[v].finished && (s.workers[v].phase.Stopping? || s.workers[v].phase.Done?)
    ensures Reaches(s, steps, r) && AllUnaided(steps) && |r.workers| == |s.workers|
    ensures forall v :: 0 <= v < |s.workers| ==> r.workers[v].finished && (r.workers[v].phase.Stopping? || r.workers[v].phase.Done?)
    ensures forall v :: 0 <= v < k ==> r.workers[v].phase.Done?
    decreases k
  {
    if k == 0 {
      steps, r := [], s;
    } else {
      var before, mid := AllPassesEnd(s, k - 1);
      var more, last := PassesEnd(mid, k - 1);
      ReachesConcat(s, before, mid, more, last);
      steps, r := before + more, last;
    }
  }

  /** A run that leads to a step lowering the rank. */
  lemma LowersRank(s: System, before: seq<Step>, mid: System, w: nat) returns (steps: seq<Step>, r: System)
    requires Inv(s) && StopsOk(s) && AllTold(s) && Reaches(s, before, mid) && AllUnaided(before)
    requires w < |mid.workers| && !mid.workers[w].finished && (mid.workers[w].phase.Parked? ==> mid.wakeups > 0)
    ensures Reaches(s, steps, r) && AllUnaided(steps)
    ensures Inv(r) && StopsOk(r) && AllTold(r) && Lively(r) && Rank(r) < Rank(s)
  {
    RunKeepsInv(s, before, mid);
    WorkIsBounded(s, before, mid);
    NobodyGoesOn(before);
    r := TakesStep(mid, w);
    ReachesConcat(s, before, mid, [NextStep(mid, w)], r);
    steps := before + [NextStep(mid, w)];
    RunKeepsInv(s, steps, r);
    RunKeepsStops(s, steps, r);
  }

  /** The next step of a worker lowers the rank and leaves it awake. */
  lemma TakesStep(s: System, w: nat) returns (r: System)
    requires Inv(s) && AllTold(s) && w < |s.workers| && !s.workers[w].finished && (s.workers[w].phase.Parked? ==> s.wakeups > 0)
    ensures Unaided(NextStep(s, w)) && Reaches(s, [NextStep(s, w)], r)
    ensures AllTold(r) && Lively(r) && Rank(r) < Rank(s)
  {
    var step := NextStep(s, w);
    NextStepWorks(s, w);
    r := Do(s, step);
    OneStep(s, step);
    StepRank(s, step);
    AfterStep(s, w);
  }

  /** A worker that has taken its next step is awake. */
  lemma AfterStep(s: System, w: nat)
    requires AllTold(s) && w < |s.workers| && !s.workers[w].phase.Done? && Can(s, NextStep(s, w))
    ensures AllTold(Do(s, NextStep(s, w))) && Lively(Do(s, NextStep(s, w)))
  {
    StepNeverBack(s, NextStep(s, w));
    StaysAwake(s, w);
  }

  lemma StaysAwake(s: System, w: nat)
    requires AllTold(s) && w < |s.workers| && !s.workers[w].phase.Done? && Can(s, NextStep(s, w))
    ensures |Do(s, NextStep(s, w)).workers| == |s.workers| && !Do(s, NextStep(s, w)).workers[w].phase.Parked?
  {
    if s.workers[w].phase.Scanning? {
      OwnPhaseAfterScan(s, w);
    } else if !s.workers[w].phase.Checking? {
      Busy(s, NextStep(s, w));
    }
  }

  /** From a lively system in which not every worker has left its loop, the rank can be lowered. */
  lemma Proceeds(s: System, w: nat) returns (steps: seq<Step>, r: System)
    requires Inv(s) && StopsOk(s) && AllTold(s) && Lively(s) && w < |s.workers| && !s.workers[w].finished
    ensures Reaches(s, steps, r) && AllUnaided(steps)
    ensures Inv(r) && StopsOk(r) && AllTold(r) && Lively(r) && Rank(r) < Rank(s)
  {
    assert Reaches(s, [], s);
    if s.wakeups > 0 || !s.workers[w].phase.Parked? {
      steps, r := LowersRank(s, [], s, w);
    } else {
      var v :| 0 <= v < |s.workers| && !s.workers[v].phase.Parked?;
      assert StopOk(s, v) && WorkerOk(s, v, s.workers[v]);
      if s.workers[v].finished {
        var before, mid := PassRaises(s, v);
        steps, r := LowersRank(s, before, mid, w);
      } else {
        steps, r := LowersRank(s, [], s, v);
      }
    }
  }

  lemma {:induction false} Completes(s: System) returns (steps: seq<Step>, r: System)
    requires Inv(s) && StopsOk(s) && AllTold(s) && Lively(s)
    ensures Reaches(s, steps, r) && AllUnaided(steps) && AllDone(r)
    decreases Rank(s)
  {
    if w :| 0 <= w < |s.workers| && !s.workers[w].finished {
      var before, mid := Proceeds(s, w);
      var more, last := Completes(mid);
      ReachesConcat(s, before, mid, more, last);
      steps, r := before + more, last;
    } else {
      forall v | 0 <= v < |s.workers| ensures s.workers[v].phase.Stopping? || s.workers[v].phase.Done? {
        assert WorkerOk(s, v, s.workers[v]);
      }
      steps, r := AllPassesEnd(s, |s.workers|);
    }
  }

  /** With everybody parked and the counter down, nothing happens without help. */
  lemma Stuck(s: System, step: Step)
    requires !Lively(s) && Can(s, step)
    ensures !Unaided(step)
  {
  }

  lemma StuckStays(s: System, steps: seq<Step>, r: System)
    requires !Lively(s) && Reaches(s, steps, r) && AllUnaided(steps)
    ensures r == s
  {
    if steps != [] {
      Stuck(s, steps[0]);
    }
  }

  /** The workers on their own can bring every StopInternal to its end. */
  ghost predicate CanComplete(s: System) {
    exists steps, r :: Reaches(s, steps, r) && AllUnaided(steps) && AllDone(r)
  }

  /** In any reachable system whose workers have all been told to stop, the workers can finish on
      their own exactly when one of them is awake or the wake-up counter is up. That is what the
      interrupt at the end of Stop and of each pass of StopInternal is for. */
  lemma ShutdownCompletesExactlyWhenLively(s0: System, entries: seq<TaskId>, before: seq<Step>, s: System)
    requires Init(s0, entries) && Reaches(s0, before, s) && AllTold(s)
    ensures CanComplete(s) <==> Lively(s)
  {
    InitInv(s0, entries);
    RunKeepsInv(s0, before, s);
    InitStops(s0, entries);
    RunKeepsStops(s0, before, s);
    RunKeepsCount(s0, before, s);
    if Lively(s) {
      var steps, r := Completes(s);
    } else {
      forall steps, r | Reaches(s, steps, r) && AllUnaided(steps) ensures !AllDone(r) {
        StuckStays(s, steps, r);
        assert !r.workers[0].phase.Done?;
      }
    }
  }

  lemma {:induction false} RunKeepsCount(s0: System, steps: seq<Step>, s: System)
    requires Reaches(s0, steps, s)
    ensures |s.workers| == |s0.workers|
    decreases |steps|
  {
    if steps != [] {
      StepNeverBack(s0, steps[0]);
      RunKeepsCount(Do(s0, steps[0]), steps[1..], s);
    }
  }
}
