/** The stack machine of slang/program.cc and the frame view of slang/call.h. */
module Program {
  import opened Slang

  /** The function address held by a Call instruction. */
  type Func = nat

  datatype Instruction = Push(data: TypedValue) | Call(func: Func)

  datatype CallResult<W> = CallResult(ok: bool, output: seq<Value>, world: W)

  /** What the registered functions do with their arguments and the outside world;
      the world may carry any choices a function makes. */
  type Behaviour<!W> = (Func, seq<Value>, W) -> CallResult<W>

  datatype Outcome<W> = Finished(stack: seq<TypedValue>, world: W) | Aborted(world: W)

  function Top<T>(s: seq<T>): T
    requires s != []
  {
    s[|s| - 1]
  }

  function Rest<T>(s: seq<T>): seq<T>
    requires s != []
  {
    s[..|s| - 1]
  }

  /** Arguments from the top of the stack down to the nearest barrier. */
  function FrameArgs(stack: seq<TypedValue>): seq<Value>
    requires FrameBarrier in stack
  {
    if Top(stack).FrameBarrier? then []
    else
      assert stack == Rest(stack) + [Top(stack)];
      [Top(stack).v] + FrameArgs(Rest(stack))
  }

  /** The stack below the nearest barrier; a stack without barriers is left alone. */
  function Purged(stack: seq<TypedValue>): seq<TypedValue> {
    if FrameBarrier !in stack then stack
    else if Top(stack).FrameBarrier? then Rest(stack)
    else
      assert stack == Rest(stack) + [Top(stack)];
      Purged(Rest(stack))
  }

  function Cells(vs: seq<Value>): (cells: seq<TypedValue>)
    ensures |cells| == |vs|
  {
    seq(|vs|, i requires 0 <= i < |vs| => Data(vs[i]))
  }

  /** How many barriers a stack holds. */
  function Barriers(stack: seq<TypedValue>): nat {
    if stack == [] then 0 else Barriers(Rest(stack)) + (if Top(stack).FrameBarrier? then 1 else 0)
  }

  lemma BarriersPositive(stack: seq<TypedValue>)
    ensures FrameBarrier in stack <==> Barriers(stack) > 0
  {
    if stack != [] {
      assert stack == Rest(stack) + [Top(stack)];
      BarriersPositive(Rest(stack));
    }
  }

  lemma BarriersConcat(a: seq<TypedValue>, b: seq<TypedValue>)
    ensures Barriers(a + b) == Barriers(a) + Barriers(b)
  {
    if b == [] {
      assert a + b == a;
    } else {
      assert Rest(a + b) == a + Rest(b);
      BarriersConcat(a, Rest(b));
    }
  }

  lemma CellsHaveNoBarrier(vs: seq<Value>)
    ensures FrameBarrier !in Cells(vs)
    ensures Barriers(Cells(vs)) == 0
  {
    BarriersPositive(Cells(vs));
  }

  lemma PurgedDropsOneBarrier(stack: seq<TypedValue>)
    requires FrameBarrier in stack
    ensures Barriers(Purged(stack)) == Barriers(stack) - 1
  {
    BarriersPositive(stack);
    if !Top(stack).FrameBarrier? {
      assert stack == Rest(stack) + [Top(stack)];
      PurgedDropsOneBarrier(Rest(stack));
    }
  }

  /** Code in which every call finds a barrier below its arguments,
      when started with so many barriers on the stack. */
  predicate Balanced(code: seq<Instruction>, barriers: nat) {
    code == [] ||
    match code[0]
    case Push(FrameBarrier) => Balanced(code[1..], barriers + 1)
    case Push(Data(_)) => Balanced(code[1..], barriers)
    case Call(_) => barriers > 0 && Balanced(code[1..], barriers - 1)
  }

  function AfterCall(stack: seq<TypedValue>, output: seq<Value>): seq<TypedValue> {
    Purged(stack) + Cells(output)
  }

  lemma AfterCallBarriers(stack: seq<TypedValue>, output: seq<Value>)
    requires FrameBarrier in stack
    ensures Barriers(AfterCall(stack, output)) == Barriers(stack) - 1
  {
    PurgedDropsOneBarrier(stack);
    CellsHaveNoBarrier(output);
    BarriersConcat(Purged(stack), Cells(output));
  }

  /** The machine's run on instructions still to execute. */
  function Run<W>(code: seq<Instruction>, stack: seq<TypedValue>, f: Behaviour<W>, w: W): Outcome<W>
    requires Balanced(code, Barriers(stack))
  {
    if code == [] then Finished(stack, w)
    else
      match code[0]
      case Push(data) =>
        BarriersConcat(stack, [data]);
        assert Rest([data]) == [] && Barriers([data]) == if data.FrameBarrier? then 1 else 0;
        Run(code[1..], stack + [data], f, w)
      case Call(func) =>
        BarriersPositive(stack);
        var r := f(func, FrameArgs(stack), w);
        if !r.ok then Aborted(r.world)
        else
          AfterCallBarriers(stack, r.output);
          Run(code[1..], AfterCall(stack, r.output), f, r.world)
  }

  /** Walks one frame the way a callee does: from the top cell downwards until the barrier. */
  class ArgIterator {
    const cells: seq<TypedValue>
    var arg: int

    ghost predicate Valid()
      reads this
    {
      0 <= arg < |cells| && FrameBarrier in cells[..arg + 1]
    }

    constructor (cells: seq<TypedValue>)
      requires FrameBarrier in cells
      ensures Valid() && this.cells == cells && arg == |cells| - 1
    {
      this.cells := cells;
      arg := |cells| - 1;
      assert cells[..|cells|] == cells;
    }

    predicate IsEnd()
      requires Valid()
      reads this
    {
      cells[arg].FrameBarrier?
    }

    function Get(): Value
      requires Valid() && !IsEnd()
      reads this
    {
      cells[arg].v
    }

    method Advance()
      requires Valid() && !IsEnd()
      modifies this
      ensures Valid() && arg == old(arg) - 1
    {
      assert cells[..arg + 1] == cells[..arg] + [cells[arg]];
      arg := arg - 1;
    }
  }

  /** Reading every argument through the iterator yields the frame, first argument first. */
  method CollectArgs(stack: seq<TypedValue>) returns (args: seq<Value>)
    requires FrameBarrier in stack
    ensures args == FrameArgs(stack)
  {
    args := [];
    var it := new ArgIterator(stack);
    assert stack[..it.arg + 1] == stack;
    while !it.IsEnd()
      invariant it.Valid() && it.cells == stack
      invariant args + FrameArgs(stack[..it.arg + 1]) == FrameArgs(stack)
      decreases it.arg
    {
      args := args + [it.Get()];
      assert Rest(stack[..it.arg + 1]) == stack[..it.arg];
      it.Advance();
    }
    assert FrameArgs(stack[..it.arg + 1]) == [];
  }

  method PurgeStackFrame(stack: seq<TypedValue>) returns (purged: seq<TypedValue>)
    ensures purged == Purged(stack)
  {
    purged := stack;
    var sz := |stack|;
    assert stack[..sz] == stack;
    while sz > 0
      invariant 0 <= sz <= |stack|
      invariant purged == stack
      invariant FrameBarrier !in stack[sz..]
      invariant FrameBarrier in stack ==> FrameBarrier in stack[..sz] && Purged(stack) == Purged(stack[..sz])
    {
      sz := sz - 1;
      assert Rest(stack[..sz + 1]) == stack[..sz] && Top(stack[..sz + 1]) == stack[sz];
      assert stack[..sz + 1] == stack[..sz] + [stack[sz]];
      assert stack[sz..] == [stack[sz]] + stack[sz + 1..];
      if stack[sz].FrameBarrier? {
        purged := stack[..sz];
        assert stack == stack[..sz + 1] + stack[sz + 1..];
        return;
      }
    }
    assert stack[0..] == stack;
  }

  class Program {
    const code: seq<Instruction>

    constructor (code: seq<Instruction>)
      ensures this.code == code
    {
      this.code := code;
    }

    method Execute<W>(f: Behaviour<W>, world: W) returns (outcome: Outcome<W>)
      requires Balanced(code, 0)
      ensures outcome == Run(code, [], f, world)
    {
      var stack: seq<TypedValue> := [];
      var w := world;
      var ip := 0;
      assert code[0..] == code;
      while ip < |code|
        invariant 0 <= ip <= |code|
        invariant Balanced(code[ip..], Barriers(stack))
        invariant Run(code[ip..], stack, f, w) == Run(code, [], f, world)
      {
        var instr := code[ip];
        assert code[ip..][1..] == code[ip + 1..];
        ip := ip + 1;
        match instr {
          case Call(func) =>
            BarriersPositive(stack);
            var args := CollectArgs(stack);
            var result := f(func, args, w);
            if !result.ok {
              return Aborted(result.world);
            }
            AfterCallBarriers(stack, result.output);
            stack := PurgeStackFrame(stack);
            stack := stack + Cells(result.output);
            w := result.world;
          case Push(data) =>
            BarriersConcat(stack, [data]);
            assert Rest([data]) == [] && Barriers([data]) == if data.FrameBarrier? then 1 else 0;
            stack := stack + [data];
        }
      }
      outcome := Finished(stack, w);
    }
  }
}
