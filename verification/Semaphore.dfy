/** task/task_semaphore.cc: a counter that signallers bring to zero while waiters spin and yield. */
module Semaphore {
  const TWO_32: int := 0x1_0000_0000

  /** The 32-bit counter; signallers past their check but not yet past the decrement; and, as history,
      signals completed, waiters let through, and checks that found zero. */
  datatype State = State(count: nat, checked: nat, signals: nat, passed: nat, alarms: nat)

  datatype Step =
    | Check       // the assertion at the head of Signal
    | Decrement   // its fetch_sub
    | Try         // one compare-and-swap of Wait; a failure yields

  function Init(n: nat): State {
    State(n, 0, 0, 0, 0)
  }

  predicate Can(s: State, step: Step) {
    step == Decrement ==> s.checked > 0
  }

  function Do(s: State, step: Step): State
    requires Can(s, step)
  {
    match step
    case Check => s.(checked := s.checked + 1, alarms := if s.count == 0 then s.alarms + 1 else s.alarms)
    case Decrement => s.(checked := s.checked - 1, count := (s.count - 1) % TWO_32, signals := s.signals + 1)
    case Try => if s.count == 0 then s.(passed := s.passed + 1) else s
  }

  ghost predicate Reaches(s: State, steps: seq<Step>, s': State)
    decreases |steps|
  {
    if steps == [] then s == s'
    else Can(s, steps[0]) && Reaches(Do(s, steps[0]), steps[1..], s')
  }

  predicate Counts(n: nat, s: State) {
    s.count == (n - s.signals) % TWO_32
  }

  lemma StepCounts(n: nat, s: State, step: Step)
    requires Counts(n, s) && Can(s, step)
    ensures Counts(n, Do(s, step))
  {
  }

  lemma {:induction false} RunCounts(n: nat, s: State, steps: seq<Step>, s': State)
    requires Counts(n, s) && Reaches(s, steps, s')
    ensures Counts(n, s')
    decreases |steps|
  {
    if steps != [] {
      StepCounts(n, s, steps[0]);
      RunCounts(n, Do(s, steps[0]), steps[1..], s');
    }
  }

  /** With at most n signals begun, a waiter gets through exactly when all n have completed. */
  lemma WaitersNeedAllSignals(n: nat, steps: seq<Step>, s: State)
    requires n < TWO_32 && Reaches(Init(n), steps, s) && s.checked + s.signals <= n
    ensures Do(s, Try).passed > s.passed <==> s.signals == n
  {
    RunCounts(n, Init(n), steps, s);
  }

  /** Signals begun never decrease. */
  lemma {:induction false} BegunGrows(s: State, steps: seq<Step>, s': State)
    requires Reaches(s, steps, s')
    ensures s.checked + s.signals <= s'.checked + s'.signals && s.alarms <= s'.alarms && s.passed <= s'.passed
    decreases |steps|
  {
    if steps != [] {
      BegunGrows(Do(s, steps[0]), steps[1..], s');
    }
  }

  /** Until more than n signals begin, no assertion fails; and no one has passed before the n-th completes. */
  lemma {:induction false} NoAlarmNoEarlyPass(n: nat, s: State, steps: seq<Step>, s': State)
    requires n < TWO_32 && Counts(n, s) && Reaches(s, steps, s')
    requires s.alarms == 0 && (s.passed > 0 ==> s.signals == n) && s'.checked + s'.signals <= n
    ensures s'.alarms == 0 && (s'.passed > 0 ==> s'.signals == n)
    decreases |steps|
  {
    if steps != [] {
      BegunGrows(Do(s, steps[0]), steps[1..], s');
      StepCounts(n, s, steps[0]);
      NoAlarmNoEarlyPass(n, Do(s, steps[0]), steps[1..], s');
    }
  }

  /** One signal too many wraps the counter, and waiters spin on. */
  lemma ExtraSignalBlocks(n: nat, steps: seq<Step>, s: State)
    requires n < TWO_32 && Reaches(Init(n), steps, s) && s.signals == n + 1
    ensures s.count == TWO_32 - 1 && Do(s, Try) == s
  {
    RunCounts(n, Init(n), steps, s);
  }
}
