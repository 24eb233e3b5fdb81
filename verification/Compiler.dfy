/** slang/compiler.cc: lexer callbacks emit flat code, which is reversed once at the end. */
module Compiler {
  import opened Common
  import opened Slang
  import opened Program

  datatype Env = Env(functions: map<string, Func>, payloads: set<nat>)

  const FIELD_MARK := ':'

  /** A name of two or more characters starting with a colon is a field name. */
  function NameValue(term: string): Value {
    if |term| > 1 && term[0] == FIELD_MARK then FieldVal(term[1..]) else StrVal(term)
  }

  function UnknownFunction(name: string): string {
    "Unknown function '" + name + "'"
  }

  /** The compiler's callbacks as one function of the code emitted so far. */
  function Handle(env: Env, code: seq<Instruction>, event: Event): HandlerResult<seq<Instruction>> {
    match event
    case BeginOp(name) =>
      if name in env.functions then HandlerResult(code + [Call(env.functions[name])], None)
      else HandlerResult(code, Some(UnknownFunction(name)))
    case EndOp => HandlerResult(code + [Push(FrameBarrier)], None)
    case IntValue(i) => HandlerResult(code + [Push(Data(IntVal(i)))], None)
    case DoubleValue(bits) => HandlerResult(code + [Push(Data(DoubleVal(bits)))], None)
    case StrValue(s) => HandlerResult(code + [Push(Data(StrVal(s)))], None)
    case UnhandledValue(term) => HandlerResult(code + [Push(Data(NameValue(term)))], None)
    case CustomData(token) =>
      HandlerResult(code, Some(if token in env.payloads then "Not supported" else "Unknown payload type"))
  }

  function Callbacks(env: Env): Handler<seq<Instruction>> {
    (code, event) => Handle(env, code, event)
  }

  /** The callbacks in the form the source has them: methods appending to the program under construction. */
  class CodeBuilder {
    const env: Env
    var code: seq<Instruction>

    constructor (env: Env)
      ensures this.env == env && code == []
    {
      this.env := env;
      code := [];
    }

    method LexerBeginOp(name: string) returns (error: Option<string>)
      modifies this
      ensures HandlerResult(code, error) == Handle(env, old(code), BeginOp(name))
    {
      if name !in env.functions {
        return Some(UnknownFunction(name));
      }
      code := code + [Call(env.functions[name])];
      error := None;
    }

    method LexerEndOp() returns (error: Option<string>)
      modifies this
      ensures HandlerResult(code, error) == Handle(env, old(code), EndOp)
    {
      code := code + [Push(FrameBarrier)];
      error := None;
    }

    method LexerStrValue(s: string) returns (error: Option<string>)
      modifies this
      ensures HandlerResult(code, error) == Handle(env, old(code), StrValue(s))
    {
      code := code + [Push(Data(StrVal(s)))];
      error := None;
    }

    method LexerIntValue(i: int) returns (error: Option<string>)
      modifies this
      ensures HandlerResult(code, error) == Handle(env, old(code), IntValue(i))
    {
      code := code + [Push(Data(IntVal(i)))];
      error := None;
    }

    method LexerDoubleValue(bits: nat) returns (error: Option<string>)
      modifies this
      ensures HandlerResult(code, error) == Handle(env, old(code), DoubleValue(bits))
    {
      code := code + [Push(Data(DoubleVal(bits)))];
      error := None;
    }

    method LexerCustomData(token: nat) returns (error: Option<string>)
      ensures HandlerResult(code, error) == Handle(env, code, CustomData(token))
    {
      error := Some(if token in env.payloads then "Not supported" else "Unknown payload type");
    }

    method LexerUnhandledValue(term: string) returns (error: Option<string>)
      modifies this
      ensures HandlerResult(code, error) == Handle(env, old(code), UnhandledValue(term))
    {
      if |term| > 1 && term[0] == FIELD_MARK {
        code := code + [Push(Data(FieldVal(term[1..])))];
        error := None;
      } else {
        error := LexerStrValue(term);
      }
    }

    method Callback(event: Event) returns (error: Option<string>)
      modifies this
      ensures HandlerResult(code, error) == Callbacks(env)(old(code), event)
    {
      match event
      case BeginOp(name) => error := LexerBeginOp(name);
      case EndOp => error := LexerEndOp();
      case IntValue(i) => error := LexerIntValue(i);
      case DoubleValue(bits) => error := LexerDoubleValue(bits);
      case StrValue(s) => error := LexerStrValue(s);
      case UnhandledValue(term) => error := LexerUnhandledValue(term);
      case CustomData(token) => error := LexerCustomData(token);
    }

    /** The object driven by a stream of events ends where the callback function ends; for the events of a
        forest that is its flat code, or the first unknown operation. */
    method Feed(events: seq<Event>) returns (error: Option<string>)
      modifies this
      ensures HandlerResult(code, error) == Deliver(Callbacks(env), old(code), events)
      ensures forall ns :: events == EventsAll(ns) ==>
        (error.None? <==> KnownAll(env, ns)) && (error.None? ==> code == old(code) + EmitAll(env, ns))
    {
      var i := 0;
      error := None;
      assert events[0..] == events;
      while i < |events|
        invariant 0 <= i <= |events| && error.None?
        invariant Deliver(Callbacks(env), code, events[i..]) == Deliver(Callbacks(env), old(code), events)
      {
        assert events[i..][0] == events[i] && events[i..][1..] == events[i + 1..];
        error := Callback(events[i]);
        if error.Some? {
          break;
        }
        i := i + 1;
      }
      forall ns | events == EventsAll(ns)
        ensures (error.None? <==> KnownAll(env, ns)) && (error.None? ==> code == old(code) + EmitAll(env, ns))
      {
        EmitForest(env, old(code), ns);
      }
    }
  }

  function LiteralValue(lit: Literal): Value {
    match lit
    case IntLit(i) => IntVal(i)
    case DoubleLit(bits) => DoubleVal(bits)
    case StrLit(s) => StrVal(s)
    case NameLit(id) => NameValue(id)
  }

  /** Every operation is registered; groups may still lack an operation. */
  ghost predicate Known(env: Env, n: Node)
    decreases n, 0
  {
    match n
    case Leaf(_) => true
    case Group(op, kids) => (op.Some? ==> op.value in env.functions) && KnownAll(env, kids)
  }

  ghost predicate KnownAll(env: Env, ns: seq<Node>)
    decreases ns, 1
  {
    ns == [] || (Known(env, ns[0]) && KnownAll(env, ns[1..]))
  }

  /** Groups without an operation. */
  ghost function OpLess(n: Node): nat
    decreases n, 0
  {
    match n
    case Leaf(_) => 0
    case Group(op, kids) => (if op.None? then 1 else 0) + OpLessAll(kids)
  }

  ghost function OpLessAll(ns: seq<Node>): nat
    decreases ns, 1
  {
    if ns == [] then 0 else OpLess(ns[0]) + OpLessAll(ns[1..])
  }

  /** The first operation, in reading order, that is not registered. */
  ghost function FirstUnknown(env: Env, ns: seq<Node>): Option<string>
    decreases ns
  {
    if ns == [] then None
    else
      match ns[0]
      case Leaf(_) => FirstUnknown(env, ns[1..])
      case Group(op, kids) =>
        if op.Some? && op.value !in env.functions then op
        else
          var inside := FirstUnknown(env, kids);
          if inside.Some? then inside else FirstUnknown(env, ns[1..])
  }

  /** Code emitted for a tree, before the final reversal. */
  ghost function Emit(env: Env, n: Node): seq<Instruction>
    requires Known(env, n)
    decreases n, 0
  {
    match n
    case Leaf(lit) => [Push(Data(LiteralValue(lit)))]
    case Group(op, kids) =>
      (if op.Some? then [Call(env.functions[op.value])] else []) + EmitAll(env, kids) + [Push(FrameBarrier)]
  }

  ghost function EmitAll(env: Env, ns: seq<Node>): seq<Instruction>
    requires KnownAll(env, ns)
    decreases ns, 1
  {
    if ns == [] then [] else Emit(env, ns[0]) + EmitAll(env, ns[1..])
  }

  /** A group's events: its call, if it has a registered operation, its operands, and the barrier. */
  lemma GroupDelivers(env: Env, code: seq<Instruction>, n: Node)
    requires n.Group?
    ensures var r := Deliver(Callbacks(env), code, Events(n));
            if n.op.Some? && n.op.value !in env.functions then r.error == Some(UnknownFunction(n.op.value))
            else
              var called := code + (if n.op.Some? then [Call(env.functions[n.op.value])] else []);
              var inner := Deliver(Callbacks(env), called, EventsAll(n.kids));
              r == if inner.error.Some? then inner else HandlerResult(inner.state + [Push(FrameBarrier)], None)
  {
    var h := Callbacks(env);
    var begin := if n.op.Some? then [BeginOp(n.op.value)] else [];
    assert Events(n) == begin + (EventsAll(n.kids) + [EndOp]);
    DeliverConcat(h, code, begin, EventsAll(n.kids) + [EndOp]);
    if n.op.Some? {
      DeliverOne(h, code, BeginOp(n.op.value));
    }
    if n.op.None? || n.op.value in env.functions {
      var called := code + (if n.op.Some? then [Call(env.functions[n.op.value])] else []);
      assert code + [] == code;
      DeliverConcat(h, called, EventsAll(n.kids), [EndOp]);
      DeliverOne(h, Deliver(h, called, EventsAll(n.kids)).state, EndOp);
    }
  }

  /** Emission accepts a forest exactly when every operation is registered,
      and otherwise reports the first unknown one. */
  lemma {:induction false} EmitForest(env: Env, code: seq<Instruction>, ns: seq<Node>)
    ensures KnownAll(env, ns) <==> FirstUnknown(env, ns).None?
    ensures var r := Deliver(Callbacks(env), code, EventsAll(ns));
            match FirstUnknown(env, ns)
            case None => r == HandlerResult(code + EmitAll(env, ns), None)
            case Some(name) => r.error == Some(UnknownFunction(name))
    decreases ns
  {
    if ns == [] {
      assert code + [] == code;
    } else {
      var h := Callbacks(env);
      DeliverConcat(h, code, Events(ns[0]), EventsAll(ns[1..]));
      match ns[0] {
        case Leaf(lit) =>
          var code' := code + Emit(env, ns[0]);
          DeliverOne(h, code, LiteralEvent(lit));
          EmitForest(env, code', ns[1..]);
          if FirstUnknown(env, ns).None? {
            assert code' + EmitAll(env, ns[1..]) == code + EmitAll(env, ns);
          }
        case Group(op, kids) =>
          GroupDelivers(env, code, ns[0]);
          if op.None? || op.value in env.functions {
            var called := code + (if op.Some? then [Call(env.functions[op.value])] else []);
            EmitForest(env, called, kids);
            if FirstUnknown(env, kids).None? {
              var closed := called + EmitAll(env, kids) + [Push(FrameBarrier)];
              EmitForest(env, closed, ns[1..]);
              assert closed == code + Emit(env, ns[0]);
              if FirstUnknown(env, ns).None? {
                assert closed + EmitAll(env, ns[1..]) == code + EmitAll(env, ns);
              }
            }
          }
      }
    }
  }

  datatype EvalResult<W> = Evaluated(outs: seq<Value>, world: W) | Failed(world: W)

  /** The meaning of a tree: operands run from right to left, and a call sees its
      arguments from left to right, the outputs of a nested call in reverse. */
  ghost function Eval<W>(env: Env, n: Node, f: Behaviour<W>, w: W): EvalResult<W>
    requires Known(env, n) && OpLess(n) == 0
    decreases n, 0
  {
    match n
    case Leaf(lit) => Evaluated([LiteralValue(lit)], w)
    case Group(op, kids) =>
      match EvalArgs(env, kids, f, w)
      case Failed(w1) => Failed(w1)
      case Evaluated(args, w1) =>
        var r := f(env.functions[op.value], args, w1);
        if r.ok then Evaluated(r.output, r.world) else Failed(r.world)
  }

  ghost function EvalArgs<W>(env: Env, ns: seq<Node>, f: Behaviour<W>, w: W): EvalResult<W>
    requires KnownAll(env, ns) && OpLessAll(ns) == 0
    decreases ns, 1
  {
    if ns == [] then Evaluated([], w)
    else
      match EvalArgs(env, ns[1..], f, w)
      case Failed(w1) => Failed(w1)
      case Evaluated(later, w1) =>
        match Eval(env, ns[0], f, w1)
        case Failed(w2) => Failed(w2)
        case Evaluated(outs, w2) => Evaluated(Reverse(outs) + later, w2)
  }

  lemma BalancedMonotone(code: seq<Instruction>, barriers: nat, more: nat)
    requires Balanced(code, barriers) && barriers <= more
    ensures Balanced(code, more)
  {
    if code != [] {
      match code[0]
      case Push(FrameBarrier) => BalancedMonotone(code[1..], barriers + 1, more + 1);
      case Push(Data(_)) => BalancedMonotone(code[1..], barriers, more);
      case Call(_) => BalancedMonotone(code[1..], barriers - 1, more - 1);
    }
  }

  lemma ReverseGroup(op: seq<Instruction>, body: seq<Instruction>, rest: seq<Instruction>)
    requires |op| <= 1
    ensures Reverse(op + body + [Push(FrameBarrier)]) + rest
         == [Push(FrameBarrier)] + (Reverse(body) + (op + rest))
  {
    var last := [Push(FrameBarrier)];
    ReverseConcat(op + body, last);
    ReverseConcat(op, body);
    assert Reverse(last) == last by { assert last[1..] == []; }
    assert Reverse(op) == op by { if op != [] { assert op[1..] == []; } }
  }

  /** Compiled code never calls a function without a frame of its own below it. */
  lemma {:induction false} CompiledBalanced(env: Env, ns: seq<Node>, rest: seq<Instruction>, barriers: nat)
    requires KnownAll(env, ns)
    requires Balanced(rest, barriers)
    ensures Balanced(Reverse(EmitAll(env, ns)) + rest, barriers)
    decreases ns
  {
    if ns == [] {
      assert [] + rest == rest;
    } else {
      var tail := Reverse(Emit(env, ns[0])) + rest;
      ReverseConcat(Emit(env, ns[0]), EmitAll(env, ns[1..]));
      assert Reverse(EmitAll(env, ns)) + rest == Reverse(EmitAll(env, ns[1..])) + tail;
      match ns[0] {
        case Leaf(lit) =>
          assert Reverse(Emit(env, ns[0])) == Emit(env, ns[0]) by { assert Emit(env, ns[0])[1..] == []; }
          assert tail[1..] == rest;
        case Group(op, kids) =>
          var call := if op.Some? then [Call(env.functions[op.value])] else [];
          ReverseGroup(call, EmitAll(env, kids), rest);
          BalancedMonotone(rest, barriers, barriers + 1);
          if op.Some? {
            assert (call + rest)[1..] == rest;
          } else {
            assert call + rest == rest;
          }
          CompiledBalanced(env, kids, call + rest, barriers + 1);
          assert tail[1..] == Reverse(EmitAll(env, kids)) + (call + rest);
      }
      CompiledBalanced(env, ns[1..], tail, barriers);
    }
  }

  /** A frame holding the operands in the order they were pushed shows them in reading order. */
  lemma {:induction false} FrameShowsArguments(stack: seq<TypedValue>, pushed: seq<Value>)
    ensures FrameBarrier in stack + [FrameBarrier] + Cells(pushed)
    ensures FrameArgs(stack + [FrameBarrier] + Cells(pushed)) == Reverse(pushed)
    ensures Purged(stack + [FrameBarrier] + Cells(pushed)) == stack
    decreases |pushed|
  {
    var frame := stack + [FrameBarrier] + Cells(pushed);
    if pushed == [] {
      assert Top(frame) == FrameBarrier && Rest(frame) == stack;
    } else {
      var n := |pushed| - 1;
      FrameShowsArguments(stack, pushed[..n]);
      assert Rest(frame) == stack + [FrameBarrier] + Cells(pushed[..n]);
      assert Top(frame) == Data(pushed[n]);
      ReverseConcat(pushed[..n], pushed[n..]);
      assert pushed == pushed[..n] + pushed[n..];
      assert Reverse(pushed[n..]) == [pushed[n]] by { assert pushed[n..][1..] == []; }
    }
  }

  /** Executing `code` before `rest` amounts to `r`: an abort, or its outputs pushed on the stack. */
  ghost predicate Executes<W>(code: seq<Instruction>, rest: seq<Instruction>, stack: seq<TypedValue>,
                              f: Behaviour<W>, w: W, r: EvalResult<W>)
  {
    && Balanced(rest, Barriers(stack))
    && Balanced(code + rest, Barriers(stack))
    && (r.Failed? ==> Run(code + rest, stack, f, w) == Aborted(r.world))
    && (r.Evaluated? ==>
          && Barriers(stack + Cells(r.outs)) == Barriers(stack)
          && Run(code + rest, stack, f, w) == Run(rest, stack + Cells(r.outs), f, r.world))
  }

  /** Cells in the order the operands were pushed: the last operand first. */
  ghost function Pushed<W>(r: EvalResult<W>): EvalResult<W> {
    if r.Failed? then r else Evaluated(Reverse(r.outs), r.world)
  }

  lemma ExecutesThen<W>(code1: seq<Instruction>, code2: seq<Instruction>, rest: seq<Instruction>,
                        stack: seq<TypedValue>, f: Behaviour<W>, w: W, r1: EvalResult<W>, r2: EvalResult<W>)
    requires Balanced(rest, Barriers(stack))
    requires Executes(code1, code2 + rest, stack, f, w, r1)
    requires r1.Evaluated? ==> Executes(code2, rest, stack + Cells(r1.outs), f, r1.world, r2)
    ensures Executes(code1 + code2, rest, stack, f, w,
                     if r1.Failed? then r1 else if r2.Failed? then r2 else Evaluated(r1.outs + r2.outs, r2.world))
  {
    assert code1 + code2 + rest == code1 + (code2 + rest);
    if r1.Evaluated? && r2.Evaluated? {
      CellsTogether(stack, r1.outs, r2.outs);
    }
  }

  lemma CellsTogether(stack: seq<TypedValue>, a: seq<Value>, b: seq<Value>)
    ensures stack + Cells(a) + Cells(b) == stack + Cells(a + b)
  {
  }

  lemma RunOne<W>(env: Env, n: Node, rest: seq<Instruction>, stack: seq<TypedValue>, f: Behaviour<W>, w: W)
    requires Known(env, n) && OpLess(n) == 0
    requires Balanced(rest, Barriers(stack))
    ensures Executes(Reverse(Emit(env, n)), rest, stack, f, w, Eval(env, n, f, w))
    decreases n, 0
  {
    var code := Reverse(Emit(env, n)) + rest;
    match n {
      case Leaf(lit) =>
        var v := LiteralValue(lit);
        assert Emit(env, n)[1..] == [];
        assert code[1..] == rest && code[0] == Push(Data(v));
        assert Cells([v]) == [Data(v)];
        CellsHaveNoBarrier([v]);
        BarriersConcat(stack, Cells([v]));
      case Group(op, kids) =>
        var call := [Call(env.functions[op.value])];
        ReverseGroup(call, EmitAll(env, kids), rest);
        var framed := stack + [FrameBarrier];
        assert Rest(framed) == stack;
        assert (call + rest)[1..] == rest;
        assert code[1..] == Reverse(EmitAll(env, kids)) + (call + rest);
        RunArgs(env, kids, call + rest, framed, f, w);
        var o := EvalArgs(env, kids, f, w);
        if o.Evaluated? {
          FrameShowsArguments(stack, Reverse(o.outs));
          ReverseTwice(o.outs);
          var r := f(env.functions[op.value], o.outs, o.world);
          BarriersConcat(stack, Cells(r.output));
          CellsHaveNoBarrier(r.output);
        }
    }
  }

  lemma RunArgs<W>(env: Env, ns: seq<Node>, rest: seq<Instruction>, stack: seq<TypedValue>, f: Behaviour<W>, w: W)
    requires KnownAll(env, ns) && OpLessAll(ns) == 0
    requires Balanced(rest, Barriers(stack))
    ensures Executes(Reverse(EmitAll(env, ns)), rest, stack, f, w, Pushed(EvalArgs(env, ns, f, w)))
    decreases ns, 1
  {
    if ns == [] {
      assert [] + rest == rest && stack + [] == stack;
    } else {
      var one := Reverse(Emit(env, ns[0]));
      ReverseConcat(Emit(env, ns[0]), EmitAll(env, ns[1..]));
      RunOne(env, ns[0], rest, stack, f, w);
      RunArgs(env, ns[1..], one + rest, stack, f, w);
      var later := EvalArgs(env, ns[1..], f, w);
      if later.Failed? {
        ExecutesThen(Reverse(EmitAll(env, ns[1..])), one, rest, stack, f, w, later, later);
      } else {
        var first := Eval(env, ns[0], f, later.world);
        RunOne(env, ns[0], rest, stack + Cells(Reverse(later.outs)), f, later.world);
        ExecutesThen(Reverse(EmitAll(env, ns[1..])), one, rest, stack, f, w, Pushed(later), first);
        if first.Evaluated? {
          ReverseConcat(Reverse(first.outs), later.outs);
          ReverseTwice(first.outs);
        }
      }
    }
  }

  lemma ReverseTwice<T>(s: seq<T>)
    ensures Reverse(Reverse(s)) == s
  {
    if s != [] {
      ReverseConcat(Reverse(s[1..]), [s[0]]);
      assert [s[0]][1..] == [];
      ReverseTwice(s[1..]);
    }
  }

  ghost function Pushes(code: seq<Instruction>): nat {
    if code == [] then 0 else Pushes(code[1..]) + (if code[0] == Push(FrameBarrier) then 1 else 0)
  }

  ghost function Calls(code: seq<Instruction>): nat {
    if code == [] then 0 else Calls(code[1..]) + (if code[0].Call? then 1 else 0)
  }

  lemma CountsConcat(a: seq<Instruction>, b: seq<Instruction>)
    ensures Pushes(a + b) == Pushes(a) + Pushes(b) && Calls(a + b) == Calls(a) + Calls(b)
  {
    if a == [] {
      assert a + b == b;
    } else {
      assert (a + b)[1..] == a[1..] + b;
      CountsConcat(a[1..], b);
    }
  }

  lemma CountsReverse(code: seq<Instruction>)
    ensures Pushes(Reverse(code)) == Pushes(code) && Calls(Reverse(code)) == Calls(code)
  {
    if code != [] {
      CountsReverse(code[1..]);
      CountsConcat(Reverse(code[1..]), [code[0]]);
      assert [code[0]][1..] == [];
    }
  }

  lemma {:induction false} CountsOfEmission(env: Env, ns: seq<Node>)
    requires KnownAll(env, ns)
    ensures Pushes(EmitAll(env, ns)) == Calls(EmitAll(env, ns)) + OpLessAll(ns)
    decreases ns
  {
    if ns != [] {
      CountsOfEmission(env, ns[1..]);
      CountsConcat(Emit(env, ns[0]), EmitAll(env, ns[1..]));
      match ns[0] {
        case Leaf(_) =>
          assert Emit(env, ns[0])[1..] == [];
        case Group(op, kids) =>
          CountsOfEmission(env, kids);
          var call := if op.Some? then [Call(env.functions[op.value])] else [];
          CountsConcat(call + EmitAll(env, kids), [Push(FrameBarrier)]);
          CountsConcat(call, EmitAll(env, kids));
          assert [Push(FrameBarrier)][1..] == [];
          if op.Some? {
            assert call[1..] == [];
          }
      }
    }
  }

  lemma {:induction false} RunConservesBarriers<W>(code: seq<Instruction>, stack: seq<TypedValue>, f: Behaviour<W>, w: W)
    requires Balanced(code, Barriers(stack))
    ensures var o := Run(code, stack, f, w);
            o.Finished? ==> Barriers(o.stack) == Barriers(stack) + Pushes(code) - Calls(code)
    decreases |code|
  {
    if code != [] {
      match code[0] {
        case Push(data) =>
          BarriersConcat(stack, [data]);
          assert Rest([data]) == [];
          RunConservesBarriers(code[1..], stack + [data], f, w);
        case Call(func) =>
          BarriersPositive(stack);
          var r := f(func, FrameArgs(stack), w);
          if r.ok {
            AfterCallBarriers(stack, r.output);
            RunConservesBarriers(code[1..], AfterCall(stack, r.output), f, r.world);
          }
      }
    }
  }

  /** Each call removes exactly one barrier, so a completed program leaves one barrier behind
      for every group without an operation, and none exactly when there is no such group. */
  lemma LeftoverBarriers<W>(env: Env, ns: seq<Node>, f: Behaviour<W>, w: W)
    requires KnownAll(env, ns)
    ensures Balanced(Reverse(EmitAll(env, ns)), 0)
    ensures var o := Run(Reverse(EmitAll(env, ns)), [], f, w);
            o.Finished? ==> Barriers(o.stack) == OpLessAll(ns) && (FrameBarrier !in o.stack <==> OpLessAll(ns) == 0)
  {
    var code := Reverse(EmitAll(env, ns));
    assert code + [] == code;
    CompiledBalanced(env, ns, [], 0);
    RunConservesBarriers(code, [], f, w);
    CountsReverse(EmitAll(env, ns));
    CountsOfEmission(env, ns);
    var o := Run(code, [], f, w);
    if o.Finished? {
      BarriersPositive(o.stack);
    }
  }

  /** How an evaluation shows on the machine: its outputs on top of the old stack, or an abort. */
  ghost function OnStack<W>(stack: seq<TypedValue>, r: EvalResult<W>): Outcome<W> {
    match r
    case Failed(w) => Aborted(w)
    case Evaluated(outs, w) => Finished(stack + Cells(outs), w)
  }

  /** Compiler correctness for one expression, over every starting stack. */
  lemma CompilerCorrect<W>(env: Env, n: Node, stack: seq<TypedValue>, f: Behaviour<W>, w: W)
    requires Known(env, n) && OpLess(n) == 0
    ensures Balanced(Reverse(Emit(env, n)), Barriers(stack))
    ensures Run(Reverse(Emit(env, n)), stack, f, w) == OnStack(stack, Eval(env, n, f, w))
  {
    RunOne(env, n, [], stack, f, w);
    assert Reverse(Emit(env, n)) + [] == Reverse(Emit(env, n));
  }

  // ---- Which value an operand is ----

  /** The value a literal stands for: a name of two or more characters starting with a colon is the
      field name behind the colon, any other name is a text. */
  ghost predicate Denotes(lit: Literal, v: Value) {
    match lit
    case IntLit(i) => v == IntVal(i)
    case DoubleLit(bits) => v == DoubleVal(bits)
    case StrLit(s) => v == StrVal(s)
    case NameLit(id) =>
      if exists f :: f != "" && id == ":" + f then v.FieldVal? && id == ":" + v.name else v == StrVal(id)
  }

  ghost predicate DenoteAll(lits: seq<Literal>, values: seq<Value>) {
    |lits| == |values| && forall i :: 0 <= i < |lits| ==> Denotes(lits[i], values[i])
  }

  lemma ColonName(id: string)
    ensures (exists f :: f != "" && id == ":" + f) <==> |id| > 1 && id[0] == ':'
  {
    if |id| > 1 && id[0] == ':' {
      assert id == ":" + id[1..];
    }
  }

  lemma LiteralDenotes(lit: Literal)
    ensures Denotes(lit, LiteralValue(lit))
  {
    if lit.NameLit? {
      ColonName(lit.id);
      if |lit.id| > 1 && lit.id[0] == ':' {
        assert lit.id == ":" + lit.id[1..];
      }
    }
  }

  /** The callback for names takes the colon off a field name, and only there. */
  lemma NamesArePushed(env: Env, code: seq<Instruction>, term: string)
    ensures term != "" ==>
      Callbacks(env)(code, UnhandledValue(":" + term)) == HandlerResult(code + [Push(Data(FieldVal(term)))], None)
    ensures term == ":" || (term != "" && term[0] != ':') ==>
      Callbacks(env)(code, UnhandledValue(term)) == HandlerResult(code + [Push(Data(StrVal(term)))], None)
  {
    assert (":" + term)[1..] == term;
  }

  ghost function Leaves(lits: seq<Literal>): seq<Node>
    ensures |Leaves(lits)| == |lits| && forall i :: 0 <= i < |lits| ==> Leaves(lits)[i] == Leaf(lits[i])
  {
    if lits == [] then [] else [Leaf(lits[0])] + Leaves(lits[1..])
  }

  lemma {:induction false} LeavesEvaluate<W>(env: Env, lits: seq<Literal>, f: Behaviour<W>, w: W) returns (args: seq<Value>)
    ensures DenoteAll(lits, args) && KnownAll(env, Leaves(lits)) && OpLessAll(Leaves(lits)) == 0
    ensures EvalArgs(env, Leaves(lits), f, w) == Evaluated(args, w)
    decreases |lits|
  {
    if lits == [] {
      args := [];
    } else {
      var later := LeavesEvaluate(env, lits[1..], f, w);
      var v := LiteralValue(lits[0]);
      assert Leaves(lits)[1..] == Leaves(lits[1..]);
      LiteralDenotes(lits[0]);
      args := [v] + later;
      assert Reverse([v]) == [v] by { assert [v][1..] == []; }
    }
  }

  /** A call with literal operands: the function is called once, with the values they denote from left
      to right, and its outputs end up on the stack. */
  lemma CallSeesOperands<W>(env: Env, op: string, lits: seq<Literal>, stack: seq<TypedValue>, f: Behaviour<W>, w: W)
      returns (args: seq<Value>)
    requires op in env.functions
    ensures DenoteAll(lits, args)
    ensures var n := Group(Some(op), Leaves(lits));
      Known(env, n) && OpLess(n) == 0 && Balanced(Reverse(Emit(env, n)), Barriers(stack))
      && var r := f(env.functions[op], args, w);
         Run(Reverse(Emit(env, n)), stack, f, w)
         == if r.ok then Finished(stack + Cells(r.output), r.world) else Aborted(r.world)
  {
    args := LeavesEvaluate(env, lits, f, w);
    CompilerCorrect(env, Group(Some(op), Leaves(lits)), stack, f, w);
  }
}
