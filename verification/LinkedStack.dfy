/** containers/linked_stack.h under any interleaving: loads, link writes and compare-and-swaps of
    any number of threads are separate atomic steps. A popped node may be pushed again. */
module LinkedStack {
  import opened Common

  type Node = nat

  /** Where a thread is in Push or Pop. */
  datatype Local =
    | Idle
    | PushLoad(node: Node)                                  // about to load head_
    | PushLink(node: Node, seen: Option<Node>)              // about to write node.next
    | PushSwap(node: Node, seen: Option<Node>)              // about to compare-and-swap
    | PopLoad
    | PopNext(top: Node)                                    // about to load head->next
    | PopSwap(top: Node, link: Option<Node>)

  /** What a linearized operation did. */
  datatype Event = Pushed(node: Node) | Popped(node: Node) | FoundEmpty

  /** The last fields are auxiliary: `history` records each operation at its linearization point,
      and `contents` what the history amounts to on an atomic stack, top first (None once an
      operation was not a legal one). */
  datatype Stack = Stack(
    head: Option<Node>, next: map<Node, Option<Node>>, threads: seq<Local>,
    history: seq<Event>, contents: Option<seq<Node>>)

  datatype Step = CallPush(t: nat, node: Node) | CallPop(t: nat) | Advance(t: nat)

  /** The node a push is under way for. */
  function Own(local: Local): Option<Node> {
    match local
    case PushLoad(n) => Some(n)
    case PushLink(n, _) => Some(n)
    case PushSwap(n, _) => Some(n)
    case _ => None
  }

  /** The node a pop saw on top and has not yet tried to take. */
  function Saw(local: Local): Option<Node> {
    match local
    case PopNext(top) => Some(top)
    case PopSwap(top, _) => Some(top)
    case _ => None
  }

  /** Neither on the stack nor being pushed: what any caller of Push must ensure. */
  predicate Free(s: Stack, node: Node) {
    && (s.contents.Some? ==> node !in s.contents.value)
    && forall t :: 0 <= t < |s.threads| ==> Own(s.threads[t]) != Some(node)
  }

  /** Some pop saw the node on top and has not yet tried to take it. */
  predicate Held(s: Stack, node: Node) {
    exists t :: 0 <= t < |s.threads| && Saw(s.threads[t]) == Some(node)
  }

  /** A step of the code, under the rule that a node is pushed only while nobody holds it. */
  predicate Can(s: Stack, step: Step) {
    step.t < |s.threads| &&
    match step
    case CallPush(t, node) => s.threads[t].Idle? && Free(s, node) && !Held(s, node)
    case CallPop(t) => s.threads[t].Idle?
    case Advance(t) =>
      !s.threads[t].Idle? && (s.threads[t].PopNext? ==> s.threads[t].top in s.next)
  }

  function SetLocal(s: Stack, t: nat, local: Local): Stack
    requires t < |s.threads|
  {
    s.(threads := s.threads[t := local])
  }

  /** One operation of a sequential stack, top first; None when it cannot have happened. */
  function Replay1(stack: seq<Node>, e: Event): Option<seq<Node>> {
    match e
    case Pushed(n) => if n in stack then None else Some([n] + stack)
    case Popped(n) => if stack != [] && stack[0] == n then Some(stack[1..]) else None
    case FoundEmpty => if stack == [] then Some(stack) else None
  }

  function Log(s: Stack, e: Event): Stack {
    s.(history := s.history + [e],
       contents := if s.contents.Some? then Replay1(s.contents.value, e) else None)
  }

  /** The steps inside Push and Pop. */
  function Go(s: Stack, t: nat): Stack
    requires Can(s, Advance(t))
  {
    match s.threads[t]
    case PushLoad(node) => SetLocal(s, t, PushLink(node, s.head))
    case PushLink(node, seen) => SetLocal(s, t, PushSwap(node, seen)).(next := s.next[node := seen])
    case PushSwap(node, seen) =>
      if s.head == seen then Log(SetLocal(s, t, Idle).(head := Some(node)), Pushed(node))
      else SetLocal(s, t, PushLoad(node))
    case PopLoad =>
      if s.head.None? then Log(SetLocal(s, t, Idle), FoundEmpty)
      else SetLocal(s, t, PopNext(s.head.value))
    case PopNext(top) => SetLocal(s, t, PopSwap(top, s.next[top]))
    case PopSwap(top, link) =>
      if s.head == Some(top) then Log(SetLocal(s, t, Idle).(head := link), Popped(top))
      else SetLocal(s, t, PopLoad)
  }

  function Do(s: Stack, step: Step): Stack
    requires Can(s, step)
  {
    match step
    case CallPush(t, node) => SetLocal(s, t, PushLoad(node))
    case CallPop(t) => SetLocal(s, t, PopLoad)
    case Advance(t) => Go(s, t)
  }

  ghost predicate Init(s: Stack) {
    && s.head.None? && s.next == map[] && s.history == [] && s.contents == Some([])
    && forall t :: 0 <= t < |s.threads| ==> s.threads[t].Idle?
  }

  // ---- The atomic stack ----

  /** Contents after a history of a sequential stack that starts empty. */
  ghost function Replay(history: seq<Event>): Option<seq<Node>>
    decreases |history|
  {
    if history == [] then Some([])
    else
      var before := Replay(history[..|history| - 1]);
      if before.None? then None else Replay1(before.value, history[|history| - 1])
  }

  /** The links from head_ spell out the list and end in null. */
  ghost predicate Chain(head: Option<Node>, next: map<Node, Option<Node>>, list: seq<Node>)
    decreases |list|
  {
    if list == [] then head.None?
    else head == Some(list[0]) && list[0] in next && Chain(next[list[0]], next, list[1..])
  }

  ghost predicate Distinct(list: seq<Node>) {
    forall i, j :: 0 <= i < j < |list| ==> list[i] != list[j]
  }

  /** The operations so far make a legal history of a sequential stack, and the links are its contents. */
  ghost predicate Faithful(s: Stack) {
    s.contents.Some? && Chain(s.head, s.next, s.contents.value)
  }

  /** A pusher's link is what it saw; the link of a node a popper saw is final. */
  ghost predicate LocalOk(s: Stack, local: Local) {
    match local
    case PushSwap(n, seen) => n in s.next && s.next[n] == seen
    case PopNext(top) => top in s.next
    case PopSwap(top, link) => top in s.next && s.next[top] == link
    case _ => true
  }

  /** A node being pushed is pushed by one thread, is not on the stack, and is nobody's top. */
  ghost predicate OwnOk(s: Stack, t: nat)
    requires t < |s.threads| && s.contents.Some?
  {
    Own(s.threads[t]).Some? ==>
      && Own(s.threads[t]).value !in s.contents.value
      && forall u :: 0 <= u < |s.threads| && u != t ==>
           Own(s.threads[u]) != Own(s.threads[t]) && Saw(s.threads[u]) != Own(s.threads[t])
  }

  ghost predicate Inv(s: Stack) {
    && Faithful(s)
    && Distinct(s.contents.value)
    && (forall t :: 0 <= t < |s.threads| ==> LocalOk(s, s.threads[t]))
    && (forall t :: 0 <= t < |s.threads| ==> OwnOk(s, t))
  }

  lemma {:induction false} ChainKept(head: Option<Node>, next: map<Node, Option<Node>>, list: seq<Node>, n: Node, link: Option<Node>)
    requires Chain(head, next, list) && n !in list
    ensures Chain(head, next[n := link], list)
    decreases |list|
  {
    if list != [] {
      assert list == [list[0]] + list[1..];
      ChainKept(next[list[0]], next, list[1..], n, link);
    }
  }

  /** Steps that change one thread's local state and nothing shared. */
  lemma LocalStep(s: Stack, t: nat, local: Local)
    requires Inv(s) && t < |s.threads| && LocalOk(s, local)
    requires Own(local).None? || Own(local) == Own(s.threads[t]) || (Free(s, Own(local).value) && !Held(s, Own(local).value))
    requires Saw(local).None? || Saw(local) == Saw(s.threads[t]) || Saw(local) == s.head
    ensures Inv(SetLocal(s, t, local))
  {
    var s' := SetLocal(s, t, local);
    forall u | 0 <= u < |s'.threads| ensures LocalOk(s', s'.threads[u]) && OwnOk(s', u) {
      assert LocalOk(s, s.threads[u]) && OwnOk(s, u) && OwnOk(s, t);
    }
  }

  lemma LinkKeeps(s: Stack, t: nat)
    requires Inv(s) && Can(s, Advance(t)) && s.threads[t].PushLink?
    ensures Inv(Go(s, t))
  {
    var s' := Go(s, t);
    var node, seen := s.threads[t].node, s.threads[t].seen;
    assert OwnOk(s, t);
    ChainKept(s.head, s.next, s.contents.value, node, seen);
    forall u | 0 <= u < |s'.threads| ensures LocalOk(s', s'.threads[u]) && OwnOk(s', u) {
      assert LocalOk(s, s.threads[u]) && OwnOk(s, u);
    }
  }

  /** A successful swap of a push puts the node on top of the atomic stack. */
  lemma PushKeeps(s: Stack, t: nat)
    requires Inv(s) && Can(s, Advance(t)) && s.threads[t].PushSwap? && s.head == s.threads[t].seen
    ensures Inv(Go(s, t)) && Go(s, t).contents.value == [s.threads[t].node] + s.contents.value
  {
    var s' := Go(s, t);
    var n := s.threads[t].node;
    assert LocalOk(s, s.threads[t]) && OwnOk(s, t);
    var c := [n] + s.contents.value;
    assert c[1..] == s.contents.value && s'.contents.value == c;
    forall u | 0 <= u < |s'.threads| ensures LocalOk(s', s'.threads[u]) && OwnOk(s', u) {
      assert LocalOk(s, s.threads[u]) && OwnOk(s, u);
    }
  }

  /** A successful swap of a pop takes the top of the atomic stack: the node seen was not pushed
      again meanwhile, so its link is the one read. */
  lemma PopKeeps(s: Stack, t: nat)
    requires Inv(s) && Can(s, Advance(t)) && s.threads[t].PopSwap? && s.head == Some(s.threads[t].top)
    ensures Inv(Go(s, t))
    ensures s.contents.value != [] && s.contents.value[0] == s.threads[t].top && Go(s, t).contents.value == s.contents.value[1..]
  {
    var s' := Go(s, t);
    var c, top := s.contents.value, s.threads[t].top;
    assert LocalOk(s, s.threads[t]);
    assert c[0] == top;
    forall u | 0 <= u < |s'.threads| ensures LocalOk(s', s'.threads[u]) && OwnOk(s', u) {
      assert LocalOk(s, s.threads[u]) && OwnOk(s, u);
    }
  }

  lemma EmptyKeeps(s: Stack, t: nat)
    requires Inv(s) && Can(s, Advance(t)) && s.threads[t].PopLoad? && s.head.None?
    ensures Inv(Go(s, t)) && s.contents.value == [] == Go(s, t).contents.value
  {
    LocalStep(s, t, Idle);
    var s' := SetLocal(s, t, Idle);
    forall u | 0 <= u < |s'.threads| ensures LocalOk(Go(s, t), s'.threads[u]) && OwnOk(Go(s, t), u) {
      assert LocalOk(s', s'.threads[u]) && OwnOk(s', u);
    }
  }

  lemma GoKeepsInv(s: Stack, t: nat)
    requires Inv(s) && Can(s, Advance(t))
    ensures Inv(Go(s, t))
  {
    assert LocalOk(s, s.threads[t]);
    match s.threads[t] {
      case PushLoad(node) => LocalStep(s, t, PushLink(node, s.head));
      case PushLink(_, _) => LinkKeeps(s, t);
      case PushSwap(node, seen) =>
        if s.head == seen {
          PushKeeps(s, t);
        } else {
          LocalStep(s, t, PushLoad(node));
        }
      case PopLoad =>
        if s.head.None? {
          EmptyKeeps(s, t);
        } else {
          LocalStep(s, t, PopNext(s.head.value));
        }
      case PopNext(top) => LocalStep(s, t, PopSwap(top, s.next[top]));
      case PopSwap(top, _) =>
        if s.head == Some(top) {
          PopKeeps(s, t);
        } else {
          LocalStep(s, t, PopLoad);
        }
    }
  }

  lemma StepKeepsInv(s: Stack, step: Step)
    requires Inv(s) && Can(s, step)
    ensures Inv(Do(s, step))
  {
    match step {
      case CallPush(t, node) => LocalStep(s, t, PushLoad(node));
      case CallPop(t) => LocalStep(s, t, PopLoad);
      case Advance(t) => GoKeepsInv(s, t);
    }
  }

  // ---- Runs ----

  ghost predicate Reaches(s0: Stack, steps: seq<Step>, s: Stack)
    decreases |steps|
  {
    if steps == [] then s == s0 else Can(s0, steps[0]) && Reaches(Do(s0, steps[0]), steps[1..], s)
  }

  lemma {:induction false} RunKeepsInv(s0: Stack, steps: seq<Step>, s: Stack)
    requires Inv(s0) && Reaches(s0, steps, s)
    ensures Inv(s)
    decreases |steps|
  {
    if steps != [] {
      StepKeepsInv(s0, steps[0]);
      RunKeepsInv(Do(s0, steps[0]), steps[1..], s);
    }
  }

  /** A thread about to read a popped node's link can do so: the model never blocks a load. */
  lemma LoadsAreDefined(s: Stack, t: nat)
    requires Inv(s) && t < |s.threads| && !s.threads[t].Idle?
    ensures Can(s, Advance(t))
  {
    assert LocalOk(s, s.threads[t]);
  }

  /** A node has been popped as often as pushed, but for the push of a node that is still there. */
  ghost predicate Accounted(history: seq<Event>, contents: seq<Node>, n: Node) {
    multiset(history)[Pushed(n)] == multiset(history)[Popped(n)] + (if n in contents then 1 else 0)
  }

  /** The auxiliary contents are what the history says. */
  ghost predicate HistoryOk(s: Stack) {
    && s.contents.Some? && s.contents == Replay(s.history) && Distinct(s.contents.value)
    && forall n :: Accounted(s.history, s.contents.value, n)
  }

  lemma LogKeepsHistory(s: Stack, e: Event)
    requires HistoryOk(s) && Log(s, e).contents.Some?
    ensures HistoryOk(Log(s, e))
  {
    var h, c := s.history + [e], s.contents.value;
    assert h[..|h| - 1] == s.history;
    assert c != [] ==> c == [c[0]] + c[1..];
    forall n ensures Accounted(h, Log(s, e).contents.value, n) {
      assert Accounted(s.history, c, n);
    }
  }

  lemma StepKeepsHistory(s: Stack, step: Step)
    requires Inv(s) && HistoryOk(s) && Can(s, step)
    ensures HistoryOk(Do(s, step))
  {
    StepKeepsInv(s, step);
    var s' := Do(s, step);
    if s'.history != s.history {
      var e := s'.history[|s'.history| - 1];
      assert s'.history == s.history + [e] && s'.contents == Log(s, e).contents;
      LogKeepsHistory(s, e);
    }
  }

  lemma {:induction false} RunKeepsHistory(s0: Stack, steps: seq<Step>, s: Stack)
    requires Inv(s0) && HistoryOk(s0) && Reaches(s0, steps, s)
    ensures HistoryOk(s)
    decreases |steps|
  {
    if steps != [] {
      StepKeepsInv(s0, steps[0]);
      StepKeepsHistory(s0, steps[0]);
      RunKeepsHistory(Do(s0, steps[0]), steps[1..], s);
    }
  }

  /** Over every run the structure refines an atomic stack: the operations, in the order of their
      linearization points, are a legal history of a sequential stack; the links spell out exactly
      its contents, without a cycle; and each push of a node has been popped once, except that of a
      node that is still there. */
  lemma RefinesAtomicStack(s0: Stack, steps: seq<Step>, s: Stack)
    requires Init(s0) && Reaches(s0, steps, s)
    ensures Replay(s.history).Some?
    ensures var contents := Replay(s.history).value;
            && Chain(s.head, s.next, contents) && Distinct(contents)
            && forall n :: Accounted(s.history, contents, n)
  {
    RunKeepsInv(s0, steps, s);
    RunKeepsHistory(s0, steps, s);
  }

  /** What a pop that is about to succeed returns is the top of the atomic stack at that moment,
      and the linearized operation takes exactly that element. */
  lemma PopTakesTop(s0: Stack, steps: seq<Step>, s: Stack, t: nat)
    requires Init(s0) && Reaches(s0, steps, s)
    requires t < |s.threads| && s.threads[t].PopSwap? && s.head == Some(s.threads[t].top)
    ensures Can(s, Advance(t))
    ensures Replay(s.history).Some? && Replay(s.history).value != []
    ensures Replay(s.history).value[0] == s.threads[t].top
    ensures Do(s, Advance(t)).history == s.history + [Popped(s.threads[t].top)]
  {
    RunKeepsInv(s0, steps, s);
    RunKeepsHistory(s0, steps, s);
    PopKeeps(s, t);
  }

  // ---- Every call takes effect once ----

  /** A call goes inside its operation. A later step stays inside it and logs nothing, or it returns and
      logs the operation: the node pushed, the node seen on top, or that there was none. */
  ghost predicate TakesEffect(s: Stack, step: Step, after: Local, s': Stack)
    requires step.t < |s.threads|
  {
    && s'.threads == s.threads[step.t := after]
    && var before := s.threads[step.t];
       match step
       case CallPush(_, node) => before.Idle? && Own(after) == Some(node) && s'.history == s.history
       case CallPop(_) => before.Idle? && InPop(after) && s'.history == s.history
       case Advance(_) =>
         if !after.Idle? then Own(after) == Own(before) && InPop(after) == InPop(before) && s'.history == s.history
         else if Own(before).Some? then s'.history == s.history + [Pushed(Own(before).value)]
         else InPop(before) && (s'.history == s.history + [FoundEmpty]
                                || (Saw(before).Some? && s'.history == s.history + [Popped(Saw(before).value)]))
  }

  /** No step returns from Push or Pop without the operation having taken effect in that step. */
  lemma ReturnsTakeEffect(s: Stack, step: Step)
    requires Can(s, step)
    ensures |Do(s, step).threads| == |s.threads|
    ensures TakesEffect(s, step, Do(s, step).threads[step.t], Do(s, step))
  {
  }

  /** How often Push was called with the node. */
  ghost function PushCalls(steps: seq<Step>, n: Node): nat {
    if steps == [] then 0
    else
      var last := |steps| - 1;
      PushCalls(steps[..last], n) + (if steps[last].CallPush? && steps[last].node == n then 1 else 0)
  }

  ghost function PopCalls(steps: seq<Step>): nat {
    if steps == [] then 0
    else
      var last := |steps| - 1;
      PopCalls(steps[..last]) + (if steps[last].CallPop? then 1 else 0)
  }

  /** How many threads are inside Push with the node. */
  ghost function Pushing(threads: seq<Local>, n: Node): nat {
    if threads == [] then 0 else (if Own(threads[0]) == Some(n) then 1 else 0) + Pushing(threads[1..], n)
  }

  ghost predicate InPop(local: Local) {
    local.PopLoad? || local.PopNext? || local.PopSwap?
  }

  ghost function Popping(threads: seq<Local>): nat {
    if threads == [] then 0 else (if InPop(threads[0]) then 1 else 0) + Popping(threads[1..])
  }

  /** How many operations of a history were pops, successful or not. */
  ghost function Pops(history: seq<Event>): nat {
    if history == [] then 0
    else
      var last := |history| - 1;
      Pops(history[..last]) + (if history[last].Pushed? then 0 else 1)
  }

  lemma {:induction false} ThreadChanged(threads: seq<Local>, t: nat, local: Local, n: Node)
    requires t < |threads|
    ensures Pushing(threads[t := local], n) + (if Own(threads[t]) == Some(n) then 1 else 0)
         == Pushing(threads, n) + (if Own(local) == Some(n) then 1 else 0)
    ensures Popping(threads[t := local]) + (if InPop(threads[t]) then 1 else 0)
         == Popping(threads) + (if InPop(local) then 1 else 0)
    decreases |threads|
  {
    if t == 0 {
      assert threads[t := local][1..] == threads[1..];
    } else {
      ThreadChanged(threads[1..], t - 1, local, n);
      assert threads[t := local][1..] == threads[1..][t - 1 := local];
    }
  }

  lemma {:induction false} NobodyInside(threads: seq<Local>, n: Node)
    requires forall t :: 0 <= t < |threads| ==> threads[t].Idle?
    ensures Pushing(threads, n) == 0 && Popping(threads) == 0
    decreases |threads|
  {
    if threads != [] {
      NobodyInside(threads[1..], n);
    }
  }

  /** The calls of a run are the operations that took effect and those still under way. */
  ghost predicate Counted(steps: seq<Step>, s: Stack, n: Node) {
    && PushCalls(steps, n) == multiset(s.history)[Pushed(n)] + Pushing(s.threads, n)
    && PopCalls(steps) == Pops(s.history) + Popping(s.threads)
  }

  /** An event more. */
  lemma LoggedOne(h: seq<Event>, e: Event, n: Node)
    ensures multiset(h + [e])[Pushed(n)] == multiset(h)[Pushed(n)] + (if e == Pushed(n) then 1 else 0)
    ensures Pops(h + [e]) == Pops(h) + (if e.Pushed? then 0 else 1)
  {
    assert (h + [e])[..|h|] == h;
  }

  lemma StepCounts(s: Stack, steps: seq<Step>, step: Step, after: Local, s': Stack, n: Node)
    requires step.t < |s.threads| && TakesEffect(s, step, after, s') && Counted(steps, s, n)
    ensures Counted(steps + [step], s', n)
  {
    if step.Advance? && after.Idle? {
      var before := s.threads[step.t];
      var e := if Own(before).Some? then Pushed(Own(before).value)
               else if s'.history == s.history + [FoundEmpty] then FoundEmpty else Popped(Saw(before).value);
      ReturnCounts(s, steps, step, e, s', n);
    } else {
      InsideCounts(s, steps, step, after, s', n);
    }
  }

  lemma InsideCounts(s: Stack, steps: seq<Step>, step: Step, after: Local, s': Stack, n: Node)
    requires step.t < |s.threads| && Counted(steps, s, n)
    requires s'.threads == s.threads[step.t := after] && s'.history == s.history
    requires Own(after) == (if step.CallPush? then Some(step.node) else Own(s.threads[step.t]))
    requires InPop(after) <==> step.CallPop? || InPop(s.threads[step.t])
    requires step.Advance? || s.threads[step.t].Idle?
    ensures Counted(steps + [step], s', n)
  {
    OneCallMore(steps, step, n);
    ThreadChanged(s.threads, step.t, after, n);
  }

  lemma ReturnCounts(s: Stack, steps: seq<Step>, step: Step, e: Event, s': Stack, n: Node)
    requires step.t < |s.threads| && Counted(steps, s, n) && step.Advance?
    requires s'.threads == s.threads[step.t := Idle] && s'.history == s.history + [e]
    requires if e.Pushed? then Own(s.threads[step.t]) == Some(e.node) else InPop(s.threads[step.t])
    ensures Counted(steps + [step], s', n)
  {
    OneCallMore(steps, step, n);
    ThreadChanged(s.threads, step.t, Idle, n);
    LoggedOne(s.history, e, n);
  }

  lemma OneCallMore(steps: seq<Step>, step: Step, n: Node)
    ensures PushCalls(steps + [step], n) == PushCalls(steps, n) + (if step.CallPush? && step.node == n then 1 else 0)
    ensures PopCalls(steps + [step]) == PopCalls(steps) + (if step.CallPop? then 1 else 0)
  {
    assert (steps + [step])[..|steps|] == steps;
  }

  lemma {:induction false} RunCounts(s0: Stack, before: seq<Step>, steps: seq<Step>, s: Stack, n: Node)
    requires Reaches(s0, steps, s) && Counted(before, s0, n)
    ensures Counted(before + steps, s, n)
    decreases |steps|
  {
    if steps == [] {
      assert before + steps == before;
    } else {
      ReturnsTakeEffect(s0, steps[0]);
      StepCounts(s0, before, steps[0], Do(s0, steps[0]).threads[steps[0].t], Do(s0, steps[0]), n);
      RunCounts(Do(s0, steps[0]), before + [steps[0]], steps[1..], s, n);
      assert before + steps == before + [steps[0]] + steps[1..];
    }
  }

  /** Over every run, each call of Push with a node and each call of Pop has taken effect exactly once or is
      still under way: no call returns without having done its work, and none does it twice. */
  lemma CallsTakeEffectOnce(s0: Stack, steps: seq<Step>, s: Stack, n: Node)
    requires Init(s0) && Reaches(s0, steps, s)
    ensures PushCalls(steps, n) == multiset(s.history)[Pushed(n)] + Pushing(s.threads, n)
    ensures PopCalls(steps) == Pops(s.history) + Popping(s.threads)
  {
    NobodyInside(s0.threads, n);
    assert Counted([], s0, n);
    RunCounts(s0, [], steps, s, n);
    assert [] + steps == steps;
  }

  // ---- Progress ----

  /** At most so many steps to the end of a thread's operation when nobody interferes: a swap that has been overtaken
      fails once and is tried again from the load. */
  ghost function StepsLeft(s: Stack, local: Local): nat {
    match local
    case Idle => 0
    case PushLoad(_) => 3
    case PushLink(_, seen) => if s.head == seen then 2 else 5
    case PushSwap(_, seen) => if s.head == seen then 1 else 4
    case PopLoad => if s.head.None? then 1 else 3
    case PopNext(top) => if s.head == Some(top) then 2 else 5
    case PopSwap(top, _) => if s.head == Some(top) then 1 else 4
  }

  /** In every reachable state a thread inside an operation finishes it alone, within five steps. */
  lemma {:induction false} FinishesAlone(s: Stack, t: nat) returns (steps: seq<Step>, r: Stack)
    requires Inv(s) && t < |s.threads|
    ensures Reaches(s, steps, r) && |steps| <= StepsLeft(s, s.threads[t]) <= 5
    ensures forall i :: 0 <= i < |steps| ==> steps[i] == Advance(t)
    ensures |r.threads| == |s.threads| && r.threads[t].Idle?
    decreases StepsLeft(s, s.threads[t])
  {
    if s.threads[t].Idle? {
      steps, r := [], s;
    } else {
      LoadsAreDefined(s, t);
      GoKeepsInv(s, t);
      var more;
      more, r := FinishesAlone(Go(s, t), t);
      steps := [Advance(t)] + more;
      assert steps[1..] == more;
    }
  }

  // ---- Reuse of a node somebody still holds ----

  /** Push is entered for the node, whoever still holds it. */
  function Called(s: Stack, t: nat, node: Node): Stack
    requires t < |s.threads|
  {
    SetLocal(s, t, PushLoad(node))
  }

  /** Whatever happens after Push is entered, the stack stays an atomic stack. */
  ghost predicate ReuseIsSafe(s: Stack, t: nat, node: Node)
    requires t < |s.threads|
  {
    forall steps, r :: Reaches(Called(s, t, node), steps, r) ==> Faithful(r)
  }

  lemma {:induction false} ReachesConcat(s0: Stack, a: seq<Step>, s1: Stack, b: seq<Step>, s2: Stack)
    requires Reaches(s0, a, s1) && Reaches(s1, b, s2)
    ensures Reaches(s0, a + b, s2)
    decreases |a|
  {
    if a == [] {
      assert a + b == b;
    } else {
      assert (a + b)[1..] == a[1..] + b;
      ReachesConcat(Do(s0, a[0]), a[1..], s1, b, s2);
    }
  }

  lemma TwoSteps(s: Stack, x: Step, y: Step)
    requires Can(s, x) && Can(Do(s, x), y)
    ensures Reaches(s, [x, y], Do(Do(s, x), y))
  {
    assert [x, y][1..] == [y] && [y][1..] == [];
    assert Reaches(Do(s, x), [y], Do(Do(s, x), y));
  }

  /** The state after a push nobody interferes with. */
  function PushedAlone(s: Stack, t: nat, node: Node): Stack
    requires t < |s.threads|
  {
    Log(SetLocal(s, t, Idle).(head := Some(node), next := s.next[node := s.head]), Pushed(node))
  }

  /** A push nobody interferes with. */
  lemma PushAlone(s: Stack, t: nat, node: Node)
    requires t < |s.threads| && s.threads[t] == PushLoad(node)
    ensures Reaches(s, [Advance(t), Advance(t), Advance(t)], PushedAlone(s, t, node))
  {
    var a := Go(s, t);
    var b := Go(a, t);
    TwoSteps(a, Advance(t), Advance(t));
    assert [Advance(t), Advance(t), Advance(t)][1..] == [Advance(t), Advance(t)];
    assert Go(b, t).threads == s.threads[t := Idle];
  }

  /** Some node was never heard of. */
  lemma {:induction false} FreshNode(used: set<Node>) returns (m: Node)
    ensures forall n :: n in used ==> n < m
  {
    if used == {} {
      m := 0;
    } else {
      var x :| x in used;
      var k := FreshNode(used - {x});
      m := if x < k then k else x + 1;
      assert forall n :: n in used ==> n == x || n in used - {x};
    }
  }

  /** Every node some thread deals with, what is on the stack, and one more. */
  function Mentioned(s: Stack, link: Option<Node>): set<Node> {
    (set t | 0 <= t < |s.threads| && Own(s.threads[t]).Some? :: Own(s.threads[t]).value)
    + (set t | 0 <= t < |s.threads| && Saw(s.threads[t]).Some? :: Saw(s.threads[t]).value)
    + (if s.contents.Some? then set n | n in s.contents.value else {})
    + (if link.Some? then {link.value} else {})
  }

  /** Another thread may push a node that nobody deals with. */
  lemma FreshPush(s: Stack, w: nat, link: Option<Node>) returns (m: Node)
    requires w < |s.threads| && s.threads[w].Idle?
    ensures Can(s, CallPush(w, m)) && m !in Mentioned(s, link)
  {
    var used := Mentioned(s, link);
    m := FreshNode(used);
    assert m !in used;
    forall t | 0 <= t < |s.threads| ensures Own(s.threads[t]) != Some(m) && Saw(s.threads[t]) != Some(m) {
      assert Own(s.threads[t]).Some? ==> Own(s.threads[t]).value in used;
      assert Saw(s.threads[t]).Some? ==> Saw(s.threads[t]).value in used;
    }
  }

  /** A call and the push it starts. */
  lemma WholePush(s: Stack, w: nat, m: Node)
    requires Can(s, CallPush(w, m))
    ensures Reaches(s, [CallPush(w, m), Advance(w), Advance(w), Advance(w)], PushedAlone(s, w, m))
  {
    var called := Do(s, CallPush(w, m));
    PushAlone(called, w, m);
    var rest := [Advance(w), Advance(w), Advance(w)];
    assert [CallPush(w, m), Advance(w), Advance(w), Advance(w)] == [CallPush(w, m)] + rest;
    assert PushedAlone(called, w, m) == PushedAlone(s, w, m) by {
      assert called.threads[w := Idle] == s.threads[w := Idle];
    }
  }

  /** A popper that has read its top's link is overtaken: another node goes on the stack, then the
      popper's top is pushed onto that. The popper's swap succeeds and drops the other node. */
  lemma Overtaken(s: Stack, t: nat, w: nat, u: nat, n: Node) returns (steps: seq<Step>, r: Stack)
    requires t < |s.threads| && w < |s.threads| && u < |s.threads| && t != w && s.contents.Some?
    requires s.threads[t] == PushLoad(n) && s.threads[w].Idle? && s.threads[u].PopSwap? && s.threads[u].top == n
    requires n !in s.contents.value
    ensures Reaches(s, steps, r) && !Faithful(r)
  {
    var link, c := s.threads[u].link, s.contents.value;
    var m := FreshPush(s, w, link);
    assert m != n by { assert Saw(s.threads[u]) == Some(n); }
    var s1 := PushedAlone(s, w, m);
    WholePush(s, w, m);
    var s2 := PushedAlone(s1, t, n);
    PushAlone(s1, t, n);
    steps := [CallPush(w, m), Advance(w), Advance(w), Advance(w)] + [Advance(t), Advance(t), Advance(t)];
    ReachesConcat(s, [CallPush(w, m), Advance(w), Advance(w), Advance(w)], s1, [Advance(t), Advance(t), Advance(t)], s2);
    r := Go(s2, u);
    assert Reaches(s2, [Advance(u)], r) by { assert [Advance(u)][1..] == []; }
    ReachesConcat(s, steps, s2, [Advance(u)], r);
    steps := steps + [Advance(u)];
    assert s2.contents == Some([n] + ([m] + c)) && r.contents == Some([m] + c);
  }

  /** A node pushed again while a pop still holds it can break the stack. */
  lemma HeldReuseBreaks(s: Stack, t: nat, w: nat, n: Node) returns (steps: seq<Step>, r: Stack)
    requires Inv(s) && t < |s.threads| && w < |s.threads| && t != w && s.threads[t].Idle? && s.threads[w].Idle?
    requires Free(s, n) && Held(s, n)
    ensures Reaches(Called(s, t, n), steps, r) && !Faithful(r)
  {
    var u :| 0 <= u < |s.threads| && Saw(s.threads[u]) == Some(n);
    var s1 := Called(s, t, n);
    assert LocalOk(s, s.threads[u]);
    if s.threads[u].PopSwap? {
      steps, r := Overtaken(s1, t, w, u, n);
    } else {
      var s2 := Go(s1, u);
      var more, last := Overtaken(s2, t, w, u, n);
      assert Reaches(s1, [Advance(u)], s2) by { assert [Advance(u)][1..] == []; }
      ReachesConcat(s1, [Advance(u)], s2, more, last);
      steps, r := [Advance(u)] + more, last;
    }
  }

  /** A node that is not on the stack may be pushed again exactly when no pop holds it as the top it
      saw: then nothing that follows breaks the stack, and otherwise something can, given one more
      idle thread. */
  lemma ReuseSafeExactlyWhenUnheld(s0: Stack, before: seq<Step>, s: Stack, t: nat, w: nat, n: Node)
    requires Init(s0) && Reaches(s0, before, s)
    requires t < |s.threads| && w < |s.threads| && t != w && s.threads[t].Idle? && s.threads[w].Idle?
    requires Free(s, n)
    ensures ReuseIsSafe(s, t, n) <==> !Held(s, n)
  {
    RunKeepsInv(s0, before, s);
    if Held(s, n) {
      var steps, r := HeldReuseBreaks(s, t, w, n);
    } else {
      StepKeepsInv(s, CallPush(t, n));
      forall steps, r | Reaches(Called(s, t, n), steps, r) ensures Faithful(r) {
        RunKeepsInv(Called(s, t, n), steps, r);
      }
    }
  }

  /** A pop up to its compare-and-swap. */
  lemma PopReads(s: Stack, u: nat, top: Node)
    requires u < |s.threads| && s.threads[u].Idle? && s.head == Some(top) && top in s.next
    ensures Reaches(s, [CallPop(u), Advance(u), Advance(u)], SetLocal(s, u, PopSwap(top, s.next[top])))
  {
    var a := Do(s, CallPop(u));
    TwoSteps(a, Advance(u), Advance(u));
    assert [CallPop(u), Advance(u), Advance(u)][1..] == [Advance(u), Advance(u)];
    assert Go(Go(a, u), u).threads == s.threads[u := PopSwap(top, s.next[top])];
  }

  /** One thread reads the top's link; another pops the top underneath it. */
  lemma PoppedUnderneath(s: Stack, u: nat, w: nat, top: Node) returns (steps: seq<Step>, r: Stack)
    requires u < |s.threads| && w < |s.threads| && u != w && s.threads[u].Idle? && s.threads[w].Idle?
    requires s.head == Some(top) && top in s.next
    ensures Reaches(s, steps, r)
    ensures r == Log(SetLocal(s, u, PopSwap(top, s.next[top])).(head := s.next[top]), Popped(top))
  {
    var mid := SetLocal(s, u, PopSwap(top, s.next[top]));
    PopReads(s, u, top);
    PopReads(mid, w, top);
    var late := SetLocal(mid, w, PopSwap(top, s.next[top]));
    steps := [CallPop(u), Advance(u), Advance(u)] + [CallPop(w), Advance(w), Advance(w)];
    ReachesConcat(s, [CallPop(u), Advance(u), Advance(u)], mid, [CallPop(w), Advance(w), Advance(w)], late);
    r := Go(late, w);
    assert Reaches(late, [Advance(w)], r) by { assert [Advance(w)][1..] == []; }
    ReachesConcat(s, steps, late, [Advance(w)], r);
    steps := steps + [Advance(w)];
    assert r.threads == mid.threads;
  }

  /** Such a node is within reach: one thread has read the link of the only node when another pops it. */
  lemma HeldNodeCanBeFree(node: Node) returns (s0: Stack, steps: seq<Step>, s: Stack)
    ensures Init(s0) && Reaches(s0, steps, s)
    ensures |s.threads| == 3 && s.threads[0].Idle? && s.threads[2].Idle?
    ensures Free(s, node) && Held(s, node) && s.history == [Pushed(node), Popped(node)]
  {
    s0 := Stack(None, map[], [Idle, Idle, Idle], [], Some([]));
    WholePush(s0, 0, node);
    var s1 := PushedAlone(s0, 0, node);
    var more;
    more, s := PoppedUnderneath(s1, 1, 0, node);
    steps := [CallPush(0, node), Advance(0), Advance(0), Advance(0)] + more;
    ReachesConcat(s0, [CallPush(0, node), Advance(0), Advance(0), Advance(0)], s1, more, s);
    assert s.threads == [Idle, PopSwap(node, None), Idle];
    assert Saw(s.threads[1]) == Some(node);
  }
}
