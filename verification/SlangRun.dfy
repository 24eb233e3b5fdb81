/** slang/slang.cc: read one expression from a stream, compile it, run it. */
module SlangRun {
  import opened Common
  import opened Slang
  import opened Numbers
  import opened Program
  import opened Compiler
  import opened LexerSpec
  import opened Lexer
  import opened Stream
  import opened RoundTrip
  import opened SingleExpr

  datatype CompileResult = CompileError(error: LexResult) | Compiled(code: seq<Instruction>)

  function CompilerSetup(env: Env, parseDouble: string -> Option<nat>): Setup<seq<Instruction>> {
    Setup(Callbacks(env), parseDouble)
  }

  /** Compilation of a text: the result, and the text left in the stream. */
  function BuildText(env: Env, parseDouble: string -> Option<nat>, text: string): (CompileResult, string) {
    var o := Lex(CompilerSetup(env, parseDouble), true, Start([]), text);
    (if o.result.Failure? then CompileError(o.result) else Compiled(Reverse(o.h)), o.rest)
  }

  /** Code emitted so far can be run, reversed, once every group still open has been closed;
      a group whose operation is still being read needs no frame yet. */
  ghost predicate Runnable(s: State<seq<Instruction>>) {
    && s.depth >= 0
    && if s.termType.OpTerm? then s.depth > 0 && Balanced(Reverse(s.h), s.depth - 1) else Balanced(Reverse(s.h), s.depth)
  }

  ghost predicate RunnableProgress(p: Progress<seq<Instruction>>) {
    match p
    case Stopped(h, r) => r.Success? ==> Balanced(Reverse(h), 0)
    case Running(s) => Runnable(s)
    case AtComment(s) => Runnable(s)
    case AtPayload(s) => Runnable(s)
  }

  lemma EmittedOne(code: seq<Instruction>, i: Instruction)
    ensures Reverse(code + [i])[0] == i && Reverse(code + [i])[1..] == Reverse(code)
  {
    ReverseConcat(code, [i]);
    assert [i][1..] == [];
  }

  lemma FinalizeKeepsRunnable(env: Env, parseDouble: string -> Option<nat>, s: State<seq<Instruction>>)
    requires Runnable(s)
    ensures var (s1, r) := Finalize(CompilerSetup(env, parseDouble), s);
            r.Success? ==> s1.depth == s.depth && Balanced(Reverse(s1.h), s.depth) && (s.term.Some? ==> s1.termType.ValueTerm?)
  {
    var (s1, r) := Finalize(CompilerSetup(env, parseDouble), s);
    if s1.h != s.h && r.Success? {
      var i := s1.h[|s.h|];
      assert s1.h == s.h + [i];
      EmittedOne(s.h, i);
    }
    if s.termType.OpTerm? {
      BalancedMonotone(Reverse(s.h), s.depth - 1, s.depth);
    }
  }

  lemma CloseKeepsRunnable(env: Env, parseDouble: string -> Option<nat>, s: State<seq<Instruction>>)
    requires Runnable(s) && (s.termType.OpTerm? ==> s.term.Some?)
    ensures RunnableProgress(LexerSpec.CloseGroup(CompilerSetup(env, parseDouble), true, s))
  {
    FinalizeKeepsRunnable(env, parseDouble, s);
    var (s1, r) := Finalize(CompilerSetup(env, parseDouble), s);
    EmittedOne(s1.h, Push(FrameBarrier));
  }

  lemma OpenKeepsRunnable(env: Env, parseDouble: string -> Option<nat>, s: State<seq<Instruction>>)
    requires Runnable(s)
    ensures RunnableProgress(InText(CompilerSetup(env, parseDouble), true, s, '('))
  {
    FinalizeKeepsRunnable(env, parseDouble, s);
  }

  lemma DelimiterKeepsRunnable(env: Env, parseDouble: string -> Option<nat>, s: State<seq<Instruction>>, c: char)
    requires Runnable(s) && (s.termType.OpTerm? ==> s.term.Some?) && c in "\" \t\r"
    ensures RunnableProgress(InText(CompilerSetup(env, parseDouble), true, s, c))
  {
    FinalizeKeepsRunnable(env, parseDouble, s);
  }

  lemma InTextKeepsRunnable(env: Env, parseDouble: string -> Option<nat>, s: State<seq<Instruction>>, c: char)
    requires Runnable(s) && (s.termType.OpTerm? ==> s.term.Some?) && c != '\n'
    ensures RunnableProgress(InText(CompilerSetup(env, parseDouble), true, s, c))
  {
    if c == ')' {
      CloseKeepsRunnable(env, parseDouble, s);
    } else if c == '(' {
      OpenKeepsRunnable(env, parseDouble, s);
    } else if c in "\" \t\r" {
      DelimiterKeepsRunnable(env, parseDouble, s, c);
    }
  }

  lemma FeedKeepsRunnable(env: Env, parseDouble: string -> Option<nat>, s: State<seq<Instruction>>, c: char)
    requires Runnable(s) && (s.termType.OpTerm? ==> s.term.Some?)
    ensures RunnableProgress(Feed(CompilerSetup(env, parseDouble), true, s, c))
  {
    var calm := NextColumn(s).(escaped := false);
    if c == '\n' {
      FinalizeKeepsRunnable(env, parseDouble, NewLine(calm));
    } else {
      InTextKeepsRunnable(env, parseDouble, calm, c);
    }
  }

  lemma {:induction false} CommentKeepsRunnable(s: State<seq<Instruction>>, text: string)
    requires Runnable(s)
    ensures Runnable(SkipComment(s, text).0)
    decreases |text|
  {
    if text != "" {
      CommentKeepsRunnable(Grow(NextColumn(s), text[0]), text[1..]);
    }
  }

  /** The compiler refuses every payload. */
  lemma {:induction false} PayloadRefused(env: Env, parseDouble: string -> Option<nat>, s: State<seq<Instruction>>,
                                          token: nat, size: nat, text: string)
    ensures var p := Payload(CompilerSetup(env, parseDouble), s, token, size, text).0;
            p.Stopped? && p.result.Failure?
    decreases |text|
  {
    if text != "" {
      PayloadRefused(env, parseDouble, NextColumn(s), token * 256 + text[0] as int % 256, size + 1, text[1..]);
    }
  }

  lemma {:induction false} LexKeepsRunnable(env: Env, parseDouble: string -> Option<nat>, s: State<seq<Instruction>>, text: string)
    requires Runnable(s) && Sound(s)
    ensures var o := Lex(CompilerSetup(env, parseDouble), true, s, text);
            o.result.Success? ==> Balanced(Reverse(o.h), 0)
    decreases |text|
  {
    var cfg := CompilerSetup(env, parseDouble);
    if text != "" {
      var p, rest := Feed(cfg, true, s, text[0]), text[1..];
      FeedKeepsRunnable(env, parseDouble, s, text[0]);
      FeedKeepsSound(cfg, true, s, text[0]);
      match p {
        case Stopped(_, _) =>
        case Running(s1) => LexKeepsRunnable(env, parseDouble, s1, rest);
        case AtComment(s1) =>
          CommentKeepsRunnable(s1, rest);
          CommentKeepsSound(s1, rest);
          CommentShrinks(s1, rest);
          LexKeepsRunnable(env, parseDouble, SkipComment(s1, rest).0, SkipComment(s1, rest).1);
        case AtPayload(s1) =>
          PayloadRefused(env, parseDouble, s1, 0, 0, rest);
      }
    }
  }

  /** Whatever text the compiler accepts, every call of the program finds its own frame barrier. */
  lemma AcceptedTextIsBalanced(env: Env, parseDouble: string -> Option<nat>, text: string)
    ensures var r := BuildText(env, parseDouble, text).0;
            r.Compiled? ==> Balanced(r.code, 0)
  {
    LexKeepsRunnable(env, parseDouble, Start([]), text);
  }

  method Build(env: Env, parseDouble: string -> Option<nat>, reader: StreamReader) returns (r: CompileResult)
    requires reader.Valid()
    modifies reader, reader.stream, reader.readBuf
    ensures reader.Valid() && (r, reader.rest) == BuildText(env, parseDouble, old(reader.rest))
  {
    var lexer := new Lexer(CompilerSetup(env, parseDouble), []);
    var result := lexer.Run(reader, true);
    if result.Failure? {
      return CompileError(result);
    }
    r := Compiled(Reverse(lexer.h));
  }

  datatype ExecuteResult<W> = NotCompiled(error: LexResult) | Executed(outcome: Outcome<W>)

  function ExecuteText<W>(env: Env, parseDouble: string -> Option<nat>, f: Behaviour<W>, w: W, text: string): (ExecuteResult<W>, string) {
    AcceptedTextIsBalanced(env, parseDouble, text);
    match BuildText(env, parseDouble, text)
    case (CompileError(error), rest) => (NotCompiled(error), rest)
    case (Compiled(code), rest) => (Executed(Run(code, [], f, w)), rest)
  }

  method Execute<W>(env: Env, parseDouble: string -> Option<nat>, reader: StreamReader, f: Behaviour<W>, w: W)
      returns (r: ExecuteResult<W>)
    requires reader.Valid()
    modifies reader, reader.stream, reader.readBuf
    ensures reader.Valid() && (r, reader.rest) == ExecuteText(env, parseDouble, f, w, old(reader.rest))
  {
    AcceptedTextIsBalanced(env, parseDouble, reader.rest);
    var built := Build(env, parseDouble, reader);
    match built
    case CompileError(error) => r := NotCompiled(error);
    case Compiled(code) =>
      var program := new Program(code);
      var outcome := program.Execute(f, w);
      r := Executed(outcome);
  }

  /** From text to result: a printed expression, cut into chunks anyhow and followed by anything,
      is executed as the tree evaluator says, and the stream is left right behind it. */
  lemma ExecutePrinted<W>(env: Env, parseDouble: string -> Option<nat>, f: Behaviour<W>, w: W, n: Node, rest: string)
    requires n.Group? && Legal(CompilerSetup(env, parseDouble), n) && OpLess(n) == 0
    ensures Known(env, n) ==>
              ExecuteText(env, parseDouble, f, w, Print(n) + rest) == (Executed(OnStack([], Eval(env, n, f, w))), rest)
    ensures !Known(env, n) ==> ExecuteText(env, parseDouble, f, w, Print(n) + rest).0.NotCompiled?
  {
    var cfg := CompilerSetup(env, parseDouble);
    LexPrinted(cfg, [], n, rest);
    EmitForest(env, [], [n]);
    assert [n][1..] == [];
    assert EventsAll([n]) == Events(n);
    if Known(env, n) {
      assert [] + EmitAll(env, [n]) == EmitAll(env, [n]) == Emit(env, n);
      CompilerCorrect(env, n, [], f, w);
    }
  }

  /** From the text: a printed call whose operands are literals calls its function with the values they
      denote, from left to right. */
  lemma ExecuteCall<W>(env: Env, parseDouble: string -> Option<nat>, f: Behaviour<W>, w: W,
                       op: string, lits: seq<Literal>, rest: string) returns (args: seq<Value>)
    requires op in env.functions && Legal(CompilerSetup(env, parseDouble), Group(Some(op), Leaves(lits)))
    ensures DenoteAll(lits, args)
    ensures var r := f(env.functions[op], args, w);
      ExecuteText(env, parseDouble, f, w, Print(Group(Some(op), Leaves(lits))) + rest)
      == (Executed(if r.ok then Finished(Cells(r.output), r.world) else Aborted(r.world)), rest)
  {
    args := CallSeesOperands(env, op, lits, [], f, w);
    var n := Group(Some(op), Leaves(lits));
    ExecutePrinted(env, parseDouble, f, w, n, rest);
    CompilerCorrect(env, n, [], f, w);
    var r := f(env.functions[op], args, w);
    assert [] + Cells(r.output) == Cells(r.output);
  }

  /** An operand written `:name` reaches the function as the field name without the colon. */
  lemma FieldNameReachesFunction<W>(env: Env, parseDouble: string -> Option<nat>, f: Behaviour<W>, w: W,
                                    op: string, name: string, rest: string)
    requires op in env.functions && LegalOp(op) && name != "" && PlainText(name)
    requires parseDouble(":" + name).None?
    ensures var r := f(env.functions[op], [FieldVal(name)], w);
      ExecuteText(env, parseDouble, f, w, "(" + op + " :" + name + ")" + rest)
      == (Executed(if r.ok then Finished(Cells(r.output), r.world) else Aborted(r.world)), rest)
  {
    var id := ":" + name;
    var lits := [NameLit(id)];
    var n := Group(Some(op), Leaves(lits));
    assert id[0] == ':' && ParseInt64(id).None?;
    assert lits[1..] == [] && Leaves(lits)[1..] == [];
    assert Legal(CompilerSetup(env, parseDouble), n);
    assert PrintAll(Leaves(lits)) == " " + id;
    assert Print(n) == "(" + op + " :" + name + ")";
    var args := ExecuteCall(env, parseDouble, f, w, op, lits, rest);
    assert Denotes(lits[0], args[0]);
    assert args[0].name == name by { assert id[1..] == name && (":" + args[0].name)[1..] == args[0].name; }
    assert args == [FieldVal(name)];
  }
}
