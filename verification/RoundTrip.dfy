/** Printing a tree and lexing the text gives back the tree's events. */
module RoundTrip {
  import opened Common
  import opened Slang
  import opened Numbers
  import opened LexerSpec

  predicate Special(ch: char) {
    ch == '\"' || ch == '\\'
  }

  function Escape(s: string): string {
    if s == "" then ""
    else if Special(s[0]) then ['\\', s[0]] + Escape(s[1..])
    else [s[0]] + Escape(s[1..])
  }

  function PrintLiteral(lit: Literal): string
    requires !lit.DoubleLit?
  {
    match lit
    case IntLit(i) => IntText(i)
    case StrLit(s) => "\"" + Escape(s) + "\""
    case NameLit(id) => id
  }

  predicate NoDoubles(n: Node)
    decreases n, 0
  {
    match n
    case Leaf(lit) => !lit.DoubleLit?
    case Group(_, kids) => NoDoublesAll(kids)
  }

  predicate NoDoublesAll(ns: seq<Node>)
    decreases ns, 1
  {
    ns == [] || (NoDoubles(ns[0]) && NoDoublesAll(ns[1..]))
  }

  /** `(op kid kid)`; a group without an operation prints as `( kid kid)`. */
  function Print(n: Node): string
    requires NoDoubles(n)
    decreases n, 0
  {
    match n
    case Leaf(lit) => PrintLiteral(lit)
    case Group(op, kids) => "(" + (if op.Some? then op.value else "") + PrintAll(kids) + ")"
  }

  function PrintAll(ns: seq<Node>): string
    requires NoDoublesAll(ns)
    decreases ns, 1
  {
    if ns == [] then "" else " " + Print(ns[0]) + PrintAll(ns[1..])
  }

  /** A character that neither ends a term nor starts something else. */
  predicate Plain(ch: char) {
    ch !in "()\"!;\n \t\r" && ch != NUL
  }

  ghost predicate PlainText(s: string) {
    forall i :: 0 <= i < |s| ==> Plain(s[i])
  }

  /** What operation names are made of besides digits: letters, the signs # $ % & * + , - . / < = > ? @,
      backslash, ^ _ ` | ~ and the delete character. */
  predicate OpLetter(ch: char) {
    || 'a' <= ch <= 'z' || 'A' <= ch <= 'Z'
    || '#' <= ch <= '&' || '*' <= ch <= '/' || '<' <= ch <= '@'
    || ch == '\\' || '^' <= ch <= '`' || ch == '|' || ch == '~' || ch as int == 127
  }

  predicate LegalOp(op: string) {
    op != "" && OpLetter(op[0]) && forall i :: 0 <= i < |op| ==> OpLetter(op[i]) || '0' <= op[i] <= '9'
  }

  /** These are the characters the lexer takes, the exclamation mark apart. */
  lemma OpLettersAreOpChars(ch: char)
    ensures OpLetter(ch) <==> IsOpChar(ch) && ch != '!'
  {
  }

  lemma LegalOpIsOpName(op: string)
    requires op != "" && '!' !in op
    ensures LegalOp(op) <==> IsOpName(op)
  {
    forall i | 0 <= i < |op| ensures OpLetter(op[i]) <==> IsOpChar(op[i]) {
      OpLettersAreOpChars(op[i]);
      assert op[i] in op;
    }
  }

  lemma LegalOpIsTaken(op: string)
    requires LegalOp(op)
    ensures IsOpName(op)
  {
    forall i | 0 <= i < |op| ensures OpLetter(op[i]) ==> IsOpChar(op[i]) {
      OpLettersAreOpChars(op[i]);
    }
  }

  ghost predicate LegalLiteral<H>(cfg: Setup<H>, lit: Literal) {
    match lit
    case IntLit(i) => -TWO_63 <= i < TWO_63
    case DoubleLit(_) => false
    case StrLit(s) => NUL !in s
    case NameLit(id) => id != "" && PlainText(id) && ParseInt64(id).None? && cfg.parseDouble(id).None?
  }

  ghost predicate Legal<H>(cfg: Setup<H>, n: Node)
    ensures Legal(cfg, n) ==> NoDoubles(n)
    decreases n, 0
  {
    match n
    case Leaf(lit) => LegalLiteral(cfg, lit)
    case Group(op, kids) => (op.Some? ==> LegalOp(op.value)) && LegalAll(cfg, kids)
  }

  ghost predicate LegalAll<H>(cfg: Setup<H>, ns: seq<Node>)
    ensures LegalAll(cfg, ns) ==> NoDoublesAll(ns)
    decreases ns, 1
  {
    ns == [] || (Legal(cfg, ns[0]) && LegalAll(cfg, ns[1..]))
  }

  /** Feeding a text while the machine keeps running. */
  ghost function FeedAll<H>(cfg: Setup<H>, single: bool, s: State<H>, text: string): Progress<H>
    decreases |text|
  {
    if text == "" then Running(s)
    else
      var p := Feed(cfg, single, s, text[0]);
      if p.Running? then FeedAll(cfg, single, p.s, text[1..]) else p
  }

  lemma FeedAllConcat<H>(cfg: Setup<H>, single: bool, s: State<H>, a: string, b: string)
    ensures var p := FeedAll(cfg, single, s, a);
            FeedAll(cfg, single, s, a + b) == if p.Running? then FeedAll(cfg, single, p.s, b) else p
    decreases |a|
  {
    if a == "" {
      assert a + b == b;
    } else {
      assert (a + b)[1..] == a[1..] + b;
      var p := Feed(cfg, single, s, a[0]);
      if p.Running? {
        FeedAllConcat(cfg, single, p.s, a[1..], b);
      }
    }
  }

  /** What a whole run does with a text whose feeding ends in `p`. */
  lemma LexAfter<H>(cfg: Setup<H>, single: bool, s: State<H>, text: string, rest: string)
    ensures var p := FeedAll(cfg, single, s, text);
            && (p.Running? ==> Lex(cfg, single, s, text + rest) == Lex(cfg, single, p.s, rest))
            && (p.Stopped? ==>
                  var o := Lex(cfg, single, s, text + rest);
                  o.h == p.h && o.result == p.result)
    decreases |text|
  {
    if text == "" {
      assert text + rest == rest;
    } else {
      assert (text + rest)[1..] == text[1..] + rest;
      var p := Feed(cfg, single, s, text[0]);
      if p.Running? {
        LexAfter(cfg, single, p.s, text[1..], rest);
      }
    }
  }

  /** Line and column after a text. */
  ghost function Position(line: nat, offset: nat, text: string): (nat, nat)
    decreases |text|
  {
    if text == "" then (line, offset)
    else if text[0] == '\n' then Position(line + 1, 0, text[1..])
    else Position(line, offset + 1, text[1..])
  }

  ghost function Move<H>(s: State<H>, text: string): State<H> {
    var (line, offset) := Position(s.line, s.offset, text);
    s.(line := line, offset := offset)
  }

  lemma PositionConcat(line: nat, offset: nat, a: string, b: string)
    ensures var (l, o) := Position(line, offset, a);
            Position(line, offset, a + b) == Position(l, o, b)
    decreases |a|
  {
    if a == "" {
      assert a + b == b;
    } else {
      assert (a + b)[1..] == a[1..] + b;
      if a[0] == '\n' {
        PositionConcat(line + 1, 0, a[1..], b);
      } else {
        PositionConcat(line, offset + 1, a[1..], b);
      }
    }
  }

  lemma MoveConcat<H>(s: State<H>, a: string, b: string)
    ensures Move(s, a + b) == Move(Move(s, a), b)
  {
    PositionConcat(s.line, s.offset, a, b);
  }

  lemma MoveOne<H>(s: State<H>, c: char)
    ensures Move(s, [c]) == if c == '\n' then NewLine(s) else NextColumn(s)
  {
    var text := [c];
    assert text[0] == c && text[1..] == "";
    assert Position(s.line + 1, 0, text[1..]) == (s.line + 1, 0);
    assert Position(s.line, s.offset + 1, text[1..]) == (s.line, s.offset + 1);
  }

  /** Outside any term, as at the start. */
  ghost predicate Clean<H>(s: State<H>) {
    s.term.None? && s.termType.ValueTerm? && !s.escaped && !s.wasEscaped
  }

  /** Either the handler accepted all events and feeding went on to `q`,
      or it refused one and feeding stopped there with a failure. */
  ghost predicate Consumes<H>(p: Progress<H>, r: HandlerResult<H>, q: Progress<H>) {
    if r.error.None? then p == q else p.Stopped? && p.h == r.state && p.result.Failure?
  }

  lemma {:induction false} PlainRun<H>(cfg: Setup<H>, single: bool, s: State<H>, text: string)
    requires PlainText(text) && s.term.Some? && !s.escaped && !s.termType.StrTerm?
    ensures FeedAll(cfg, single, s, text) == Running(Move(s, text).(term := Some(s.term.value + text)))
    decreases |text|
  {
    if text == "" {
      assert s.term.value + "" == s.term.value;
    } else {
      var s1 := Grow(NextColumn(s), text[0]);
      assert Plain(text[0]);
      assert Feed(cfg, single, s, text[0]) == Running(s1);
      PlainRun(cfg, single, s1, text[1..]);
      assert s1.term.value + text[1..] == s.term.value + text;
    }
  }

  /** A blank or a closing parenthesis ends an open term and then acts as on no term. */
  lemma EndTerm<H>(cfg: Setup<H>, single: bool, s: State<H>, d: char, event: Event)
    requires s.term.Some? && s.depth > 0 && !s.escaped && !s.wasEscaped && (d == ' ' || d == ')')
    requires s.term.value != ""
    requires match s.termType
             case OpTerm => LegalOp(s.term.value) && event == BeginOp(s.term.value)
             case ValueTerm => event == ValueEvent(cfg, s.term.value)
             case StrTerm => false
    ensures var r := Deliver(cfg.handler, s.h, [event]);
            Consumes(Feed(cfg, single, s, d), r, Feed(cfg, single, FinishTerm(s).(h := r.state), d))
  {
    assert [event][1..] == [];
    if s.termType.OpTerm? {
      LegalOpIsTaken(s.term.value);
    }
  }

  /** One character of a string literal, escaped when it has to be. */
  lemma EscapedOne<H>(cfg: Setup<H>, single: bool, s: State<H>, c: char)
    requires c != NUL && s.term.Some? && s.termType.StrTerm? && !s.escaped
    ensures var unit := if Special(c) then ['\\', c] else [c];
            FeedAll(cfg, single, s, unit) ==
            Running(Move(s, unit).(term := Some(s.term.value + unit), wasEscaped := s.wasEscaped || Special(c)))
  {
    MoveOne(s, c);
    assert [c][1..] == "";
    if Special(c) {
      var unit := ['\\', c];
      assert unit == "\\" + [c];
      MoveConcat(s, "\\", [c]);
      MoveOne(s, '\\');
      var mid := Grow(NextColumn(s), '\\').(escaped := true, wasEscaped := true);
      assert Feed(cfg, single, s, '\\') == Running(mid);
      MoveOne(mid, c);
      assert mid.term.value + [c] == s.term.value + unit;
      assert Feed(cfg, single, mid, c) == Running(Grow(NextColumn(mid), c).(escaped := false));
      assert FeedAll(cfg, single, mid, [c]) == Running(Move(mid, [c]).(term := Some(s.term.value + unit), escaped := false));
      assert unit[1..] == [c];
    } else {
      var unit := [c];
      assert unit[0] == c && unit[1..] == "";
      assert Feed(cfg, single, s, c) == Running(InString(NextColumn(s), c, false));
    }
  }

  /** Whether a text needs escapes. */
  ghost predicate HasSpecial(s: string) {
    s != "" && (Special(s[0]) || HasSpecial(s[1..]))
  }

  /** A string literal that has grown by a text. */
  ghost function Grew<H>(s: State<H>, text: string, was: bool): State<H>
    requires s.term.Some?
  {
    Move(s, text).(term := Some(s.term.value + text), wasEscaped := was)
  }

  lemma GrewConcat<H>(s: State<H>, a: string, b: string, was: bool, was': bool)
    requires s.term.Some?
    ensures Grew(Grew(s, a, was), b, was') == Grew(s, a + b, was')
  {
    PositionConcat(s.line, s.offset, a, b);
    assert s.term.value + a + b == s.term.value + (a + b);
  }

  lemma {:induction false} EscapedRun<H>(cfg: Setup<H>, single: bool, s: State<H>, str: string)
    requires NUL !in str && s.term.Some? && s.termType.StrTerm? && !s.escaped
    ensures FeedAll(cfg, single, s, Escape(str)) == Running(Grew(s, Escape(str), s.wasEscaped || HasSpecial(str)))
    ensures !HasSpecial(str) ==> Escape(str) == str
    decreases |str|
  {
    if str == "" {
      assert s.term.value + "" == s.term.value;
    } else {
      var c := str[0];
      var unit := if Special(c) then ['\\', c] else [c];
      var rest := Escape(str[1..]);
      assert Escape(str) == unit + rest;
      EscapedOne(cfg, single, s, c);
      var s1 := Grew(s, unit, s.wasEscaped || Special(c));
      EscapedRun(cfg, single, s1, str[1..]);
      FeedAllConcat(cfg, single, s, unit, rest);
      GrewConcat(s, unit, rest, s1.wasEscaped, s1.wasEscaped || HasSpecial(str[1..]));
      if !HasSpecial(str) {
        assert str == [c] + str[1..];
      }
    }
  }

  lemma {:induction false} UnescapeEscape(s: string)
    ensures Unescape(Escape(s), false) == s
  {
    if s != "" {
      var rest := Escape(s[1..]);
      UnescapeEscape(s[1..]);
      if Special(s[0]) {
        UnescapeUnit(s[0], rest);
      } else {
        var text := [s[0]] + rest;
        assert text[0] == s[0] && text[1..] == rest;
      }
    }
  }

  lemma UnescapeUnit(c: char, rest: string)
    ensures Unescape(['\\', c] + rest, false) == [c] + Unescape(rest, false)
  {
    var text := ['\\', c] + rest;
    assert text[0] == '\\' && text[1..] == [c] + rest;
    assert text[1..][0] == c && text[1..][1..] == rest;
  }

  /** Handler result after all the events of a printed text. */
  ghost function Told<H>(cfg: Setup<H>, s: State<H>, events: seq<Event>): HandlerResult<H> {
    Deliver(cfg.handler, s.h, events)
  }

  /** The state after a text whose events the handler has taken in. */
  ghost function After<H>(cfg: Setup<H>, s: State<H>, text: string, events: seq<Event>): State<H> {
    Move(s, text).(h := Told(cfg, s, events).state)
  }

  lemma IntTextIsPlain(i: int)
    ensures IntText(i) != "" && PlainText(IntText(i))
  {
    var digits := Decimal(if i < 0 then -i else i);
    assert forall k :: 0 <= k < |digits| ==> IsDigit(digits[k]);
    assert IntText(i) == if i < 0 then "-" + digits else digits;
  }

  /** A number or a name, with the character that ends it. */
  lemma TermLeaf<H>(cfg: Setup<H>, single: bool, s: State<H>, term: string, d: char)
    requires Clean(s) && s.depth > 0 && term != "" && PlainText(term) && (d == ' ' || d == ')')
    ensures var events := [ValueEvent(cfg, term)];
            Consumes(FeedAll(cfg, single, s, term + [d]), Told(cfg, s, events),
                     Feed(cfg, single, After(cfg, s, term, events), d))
    ensures FeedAll(cfg, single, s, term).Running?
  {
    var s1 := NextColumn(s).(termType := ValueTerm, term := Some(term[..1]));
    assert Plain(term[0]) && term[..1] == [term[0]];
    assert Feed(cfg, single, s, term[0]) == Running(s1);
    PlainRun(cfg, single, s1, term[1..]);
    assert term[..1] + term[1..] == term;
    var s2 := Move(s, term).(term := Some(term));
    assert FeedAll(cfg, single, s, term) == Running(s2);
    FeedAllConcat(cfg, single, s, term, [d]);
    assert [d][1..] == "";
    EndTerm(cfg, single, s2, d, ValueEvent(cfg, term));
  }

  lemma CloseString<H>(cfg: Setup<H>, single: bool, s: State<H>, str: string)
    requires s.depth > 0 && s.termType.StrTerm? && !s.escaped
    requires s.term == Some(Escape(str)) && s.wasEscaped == HasSpecial(str)
    requires !HasSpecial(str) ==> Escape(str) == str
    ensures Consumes(FeedAll(cfg, single, s, "\""), Told(cfg, s, [StrValue(str)]),
                     Running(After(cfg, FinishTerm(s).(wasEscaped := false), "\"", [StrValue(str)])))
  {
    UnescapeEscape(str);
    var text := "\"";
    assert text[0] == '\"' && text[1..] == "";
    DeliverOne(cfg.handler, s.h, StrValue(str));
    MoveOne(FinishTerm(s).(wasEscaped := false), '\"');
    var p := Feed(cfg, single, s, '\"');
    assert FeedAll(cfg, single, s, text) == if p.Running? then FeedAll(cfg, single, p.s, "") else p;
  }

  lemma StringLeaf<H>(cfg: Setup<H>, single: bool, s: State<H>, str: string)
    requires Clean(s) && s.depth > 0 && NUL !in str
    ensures var text := PrintLiteral(StrLit(str));
            Consumes(FeedAll(cfg, single, s, text), Told(cfg, s, [StrValue(str)]), Running(After(cfg, s, text, [StrValue(str)])))
  {
    var open, body := "\"", Escape(str);
    var s1 := NextColumn(s).(termType := StrTerm, term := Some(""));
    assert open[0] == '\"' && open[1..] == "";
    assert Feed(cfg, single, s, '\"') == Running(s1);
    assert FeedAll(cfg, single, s, open) == Running(s1);
    EscapedRun(cfg, single, s1, str);
    var s2 := Grew(s1, body, HasSpecial(str));
    assert "" + body == body;
    CloseString(cfg, single, s2, str);
    FeedAllConcat(cfg, single, s, open, body);
    FeedAllConcat(cfg, single, s, open + body, "\"");
    MoveOne(s, '\"');
    PositionConcat(s.line, s.offset, open, body);
    PositionConcat(s.line, s.offset, open + body, "\"");
  }

  lemma FollowedBy<H>(cfg: Setup<H>, single: bool, s: State<H>, text: string, events: seq<Event>, d: char)
    requires Consumes(FeedAll(cfg, single, s, text), Told(cfg, s, events), Running(After(cfg, s, text, events)))
    ensures Consumes(FeedAll(cfg, single, s, text + [d]), Told(cfg, s, events),
                     Feed(cfg, single, After(cfg, s, text, events), d))
  {
    FeedAllConcat(cfg, single, s, text, [d]);
    assert [d][1..] == "";
    var s1 := After(cfg, s, text, events);
    assert FeedAll(cfg, single, s1, [d]) ==
      var p := Feed(cfg, single, s1, d); if p.Running? then Running(p.s) else p;
  }

  /** From the first character after a text to everything after it. */
  lemma Splice<H>(cfg: Setup<H>, single: bool, s: State<H>, text: string, tail: string, r: HandlerResult<H>, s1: State<H>)
    requires tail != ""
    requires Consumes(FeedAll(cfg, single, s, text + [tail[0]]), r, Feed(cfg, single, s1, tail[0]))
    ensures Consumes(FeedAll(cfg, single, s, text + tail), r, FeedAll(cfg, single, s1, tail))
  {
    assert text + tail == text + [tail[0]] + tail[1..];
    FeedAllConcat(cfg, single, s, text + [tail[0]], tail[1..]);
  }

  /** Feeding everything before the end of `tail` keeps the machine running. */
  lemma StillRunning<H>(cfg: Setup<H>, single: bool, s: State<H>, text: string, more: string, d: char,
                        r: HandlerResult<H>, s1: State<H>)
    requires more != "" ==> more[0] == d
    requires Consumes(FeedAll(cfg, single, s, text + [d]), r, Feed(cfg, single, s1, d))
    requires r.error.None? ==> FeedAll(cfg, single, s, text).Running?
    ensures r.error.None? && FeedAll(cfg, single, s1, more).Running? ==> FeedAll(cfg, single, s, text + more).Running?
  {
    if more == "" {
      assert text + more == text;
    } else {
      Splice(cfg, single, s, text, more, r, s1);
    }
  }

  /** Events of one part, then events of the next. */
  lemma ConsumesThen<H>(cfg: Setup<H>, h: H, p: Progress<H>, q: Progress<H>, z: Progress<H>,
                        first: seq<Event>, then_: seq<Event>)
    requires Consumes(p, Deliver(cfg.handler, h, first), q)
    requires var r := Deliver(cfg.handler, h, first);
             r.error.None? ==> Consumes(q, Deliver(cfg.handler, r.state, then_), z)
    ensures Consumes(p, Deliver(cfg.handler, h, first + then_), z)
  {
    DeliverConcat(cfg.handler, h, first, then_);
  }

  function OpEvents(op: Option<string>): seq<Event> {
    if op.Some? then [BeginOp(op.value)] else []
  }

  function OpText(op: Option<string>): string {
    if op.Some? then "(" + op.value else "("
  }

  lemma OpNameIsPlain(op: string)
    requires LegalOp(op)
    ensures PlainText(op)
  {
    forall i | 0 <= i < |op| ensures Plain(op[i]) {
      OpLettersAreOpChars(op[i]);
    }
  }

  /** The opening parenthesis and the operation name, with the character that ends it. */
  lemma Opening<H>(cfg: Setup<H>, single: bool, s: State<H>, op: Option<string>, d: char)
    requires Clean(s) && s.depth >= 0 && (op.Some? ==> LegalOp(op.value)) && (d == ' ' || d == ')')
    ensures Consumes(FeedAll(cfg, single, s, OpText(op) + [d]), Told(cfg, s, OpEvents(op)),
                     Feed(cfg, single, After(cfg, s, OpText(op), OpEvents(op)).(depth := s.depth + 1), d))
    ensures FeedAll(cfg, single, s, OpText(op)).Running?
  {
    var s1 := NextColumn(s).(depth := s.depth + 1, termType := OpTerm, term := Some(""));
    var open, name := "(", if op.Some? then op.value else "";
    assert open[0] == '(' && open[1..] == "";
    assert Feed(cfg, single, s, '(') == Running(s1);
    assert FeedAll(cfg, single, s, open) == Running(s1);
    if op.Some? {
      OpNameIsPlain(name);
    }
    PlainRun(cfg, single, s1, name);
    assert "" + name == name;
    FeedAllConcat(cfg, single, s, open, name);
    assert open + name == OpText(op);
    MoveOne(s, '(');
    PositionConcat(s.line, s.offset, open, name);
    var s2 := Move(s, OpText(op)).(depth := s.depth + 1, termType := OpTerm, term := Some(name));
    assert FeedAll(cfg, single, s, OpText(op)) == Running(s2);
    FeedAllConcat(cfg, single, s, OpText(op), [d]);
    assert [d][1..] == "";
    if op.Some? {
      EndTerm(cfg, single, s2, d, BeginOp(name));
    }
  }

  lemma Closing<H>(cfg: Setup<H>, single: bool, s: State<H>)
    requires Clean(s) && s.depth > 0
    ensures Consumes(Feed(cfg, single, s, ')'), Told(cfg, s, [EndOp]),
                     if single && s.depth == 1 then Stopped(Told(cfg, s, [EndOp]).state, Success)
                     else Running(After(cfg, s, ")", [EndOp]).(depth := s.depth - 1)))
  {
    DeliverOne(cfg.handler, s.h, EndOp);
    MoveOne(s, ')');
  }

  /** A whole printed subtree inside a group, with the character that follows it. */
  lemma {:induction false} InnerNode<H>(cfg: Setup<H>, single: bool, s: State<H>, n: Node, d: char)
    requires Clean(s) && s.depth > 0 && Legal(cfg, n) && (d == ' ' || d == ')')
    ensures Consumes(FeedAll(cfg, single, s, Print(n) + [d]), Told(cfg, s, Events(n)),
                     Feed(cfg, single, After(cfg, s, Print(n), Events(n)), d))
    ensures Told(cfg, s, Events(n)).error.None? ==> FeedAll(cfg, single, s, Print(n)).Running?
    decreases n, 2
  {
    match n {
      case Leaf(IntLit(i)) =>
        IntTextIsPlain(i);
        IntRoundTrip(i);
        TermLeaf(cfg, single, s, IntText(i), d);
      case Leaf(NameLit(id)) =>
        TermLeaf(cfg, single, s, id, d);
      case Leaf(StrLit(str)) =>
        StringLeaf(cfg, single, s, str);
        FollowedBy(cfg, single, s, PrintLiteral(n.lit), [StrValue(str)], d);
      case Group(op, kids) =>
        WholeGroup(cfg, single, s, n);
        FollowedBy(cfg, single, s, Print(n), Events(n), d);
    }
  }

  /** Where the machine stands after all operands is where it stands after the first and then the others. */
  lemma AfterOperand<H>(cfg: Setup<H>, s: State<H>, kids: seq<Node>)
    requires kids != [] && NoDoublesAll(kids)
    ensures var s2 := After(cfg, NextColumn(s), Print(kids[0]), Events(kids[0]));
            Told(cfg, s, Events(kids[0])).error.None? ==>
              After(cfg, s2, PrintAll(kids[1..]), EventsAll(kids[1..])) == After(cfg, s, PrintAll(kids), EventsAll(kids))
  {
    var one, more := Print(kids[0]), PrintAll(kids[1..]);
    MoveOne(s, ' ');
    PositionConcat(s.line, s.offset, " ", one);
    PositionConcat(s.line, s.offset, " " + one, more);
    DeliverConcat(cfg.handler, s.h, Events(kids[0]), EventsAll(kids[1..]));
    assert PrintAll(kids) == " " + one + more;
  }

  /** Operands up to the closing parenthesis: their events, then what the parenthesis does. */
  ghost predicate OperandsRead<H>(cfg: Setup<H>, single: bool, s: State<H>, kids: seq<Node>)
    requires NoDoublesAll(kids)
  {
    && Consumes(FeedAll(cfg, single, s, PrintAll(kids) + ")"), Told(cfg, s, EventsAll(kids)),
                Feed(cfg, single, After(cfg, s, PrintAll(kids), EventsAll(kids)), ')'))
    && (Told(cfg, s, EventsAll(kids)).error.None? ==> FeedAll(cfg, single, s, PrintAll(kids)).Running?)
  }

  /** One operand read, and then the others. */
  lemma OperandThenOthers<H>(cfg: Setup<H>, single: bool, s: State<H>, kids: seq<Node>, s2: State<H>)
    requires Clean(s) && s.depth > 0 && kids != [] && LegalAll(cfg, kids)
    requires s2 == After(cfg, NextColumn(s), Print(kids[0]), Events(kids[0]))
    requires forall d :: d == ' ' || d == ')' ==>
               Consumes(FeedAll(cfg, single, NextColumn(s), Print(kids[0]) + [d]), Told(cfg, s, Events(kids[0])), Feed(cfg, single, s2, d))
    requires Told(cfg, s, Events(kids[0])).error.None? ==>
               FeedAll(cfg, single, NextColumn(s), Print(kids[0])).Running? && OperandsRead(cfg, single, s2, kids[1..])
    ensures OperandsRead(cfg, single, s, kids)
  {
    OperandsConsumed(cfg, single, s, kids, s2);
    if Told(cfg, s, EventsAll(kids)).error.None? {
      OperandsRun(cfg, single, s, kids, s2);
    }
  }

  /** The space before an operand only moves the column on. */
  lemma AfterSpace<H>(cfg: Setup<H>, single: bool, s: State<H>, text: string)
    requires Clean(s)
    ensures FeedAll(cfg, single, s, " " + text) == FeedAll(cfg, single, NextColumn(s), text)
  {
    assert (" " + text)[1..] == text;
    assert Feed(cfg, single, s, ' ') == Running(NextColumn(s));
  }

  lemma OperandsConsumed<H>(cfg: Setup<H>, single: bool, s: State<H>, kids: seq<Node>, s2: State<H>)
    requires Clean(s) && s.depth > 0 && kids != [] && LegalAll(cfg, kids)
    requires s2 == After(cfg, NextColumn(s), Print(kids[0]), Events(kids[0]))
    requires forall d :: d == ' ' || d == ')' ==>
               Consumes(FeedAll(cfg, single, NextColumn(s), Print(kids[0]) + [d]), Told(cfg, s, Events(kids[0])), Feed(cfg, single, s2, d))
    requires Told(cfg, s, Events(kids[0])).error.None? ==> OperandsRead(cfg, single, s2, kids[1..])
    ensures Consumes(FeedAll(cfg, single, s, PrintAll(kids) + ")"), Told(cfg, s, EventsAll(kids)),
                     Feed(cfg, single, After(cfg, s, PrintAll(kids), EventsAll(kids)), ')'))
  {
    var one, tail := Print(kids[0]), PrintAll(kids[1..]) + ")";
    var first := Told(cfg, s, Events(kids[0]));
    assert PrintAll(kids) + ")" == " " + (one + tail);
    AfterSpace(cfg, single, s, one + tail);
    Splice(cfg, single, NextColumn(s), one, tail, first, s2);
    AfterOperand(cfg, s, kids);
    ConsumesThen(cfg, s.h, FeedAll(cfg, single, NextColumn(s), one + tail), FeedAll(cfg, single, s2, tail),
                 Feed(cfg, single, After(cfg, s, PrintAll(kids), EventsAll(kids)), ')'), Events(kids[0]), EventsAll(kids[1..]));
  }

  lemma OperandsRun<H>(cfg: Setup<H>, single: bool, s: State<H>, kids: seq<Node>, s2: State<H>)
    requires Clean(s) && s.depth > 0 && kids != [] && LegalAll(cfg, kids)
    requires s2 == After(cfg, NextColumn(s), Print(kids[0]), Events(kids[0]))
    requires forall d :: d == ' ' || d == ')' ==>
               Consumes(FeedAll(cfg, single, NextColumn(s), Print(kids[0]) + [d]), Told(cfg, s, Events(kids[0])), Feed(cfg, single, s2, d))
    requires Told(cfg, s, Events(kids[0])).error.None? ==>
               FeedAll(cfg, single, NextColumn(s), Print(kids[0])).Running? && OperandsRead(cfg, single, s2, kids[1..])
    requires Told(cfg, s, EventsAll(kids)).error.None?
    ensures FeedAll(cfg, single, s, PrintAll(kids)).Running?
  {
    var one, more := Print(kids[0]), PrintAll(kids[1..]);
    var first := Told(cfg, s, Events(kids[0]));
    assert PrintAll(kids) == " " + (one + more);
    AfterSpace(cfg, single, s, one + more);
    DeliverConcat(cfg.handler, s.h, Events(kids[0]), EventsAll(kids[1..]));
    StillRunning(cfg, single, NextColumn(s), one, more, (more + ")")[0], first, s2);
  }

  lemma {:induction false} Operands<H>(cfg: Setup<H>, single: bool, s: State<H>, kids: seq<Node>)
    requires Clean(s) && s.depth > 0 && LegalAll(cfg, kids)
    ensures OperandsRead(cfg, single, s, kids)
    decreases kids, 3
  {
    if kids == [] {
      var close := ")";
      assert "" + close == close && close[0] == ')' && close[1..] == "";
      assert After(cfg, s, "", []) == s;
    } else {
      var s1 := NextColumn(s);
      var s2 := After(cfg, s1, Print(kids[0]), Events(kids[0]));
      InnerNode(cfg, single, s1, kids[0], ' ');
      InnerNode(cfg, single, s1, kids[0], ')');
      Operands(cfg, single, s2, kids[1..]);
      OperandThenOthers(cfg, single, s, kids, s2);
    }
  }

  /** A group up to its closing parenthesis. */
  lemma {:induction false} OpenedGroup<H>(cfg: Setup<H>, single: bool, s: State<H>, op: Option<string>, kids: seq<Node>)
    requires Clean(s) && s.depth >= 0 && (op.Some? ==> LegalOp(op.value)) && LegalAll(cfg, kids)
    ensures var text, events := OpText(op) + PrintAll(kids), OpEvents(op) + EventsAll(kids);
            && Consumes(FeedAll(cfg, single, s, text + ")"), Told(cfg, s, events),
                        Feed(cfg, single, After(cfg, s, text, events).(depth := s.depth + 1), ')'))
            && (Told(cfg, s, events).error.None? ==> FeedAll(cfg, single, s, text).Running?)
    decreases kids, 4
  {
    var body := PrintAll(kids);
    var tail := body + ")";
    assert OpText(op) + body + ")" == OpText(op) + tail;
    assert tail[0] == ' ' || tail[0] == ')';
    Opening(cfg, single, s, op, tail[0]);
    var s1 := After(cfg, s, OpText(op), OpEvents(op)).(depth := s.depth + 1);
    Splice(cfg, single, s, OpText(op), tail, Told(cfg, s, OpEvents(op)), s1);
    Operands(cfg, single, s1, kids);
    StillRunning(cfg, single, s, OpText(op), body, tail[0], Told(cfg, s, OpEvents(op)), s1);
    var s2 := After(cfg, s1, body, EventsAll(kids));
    ConsumesThen(cfg, s.h, FeedAll(cfg, single, s, OpText(op) + tail), FeedAll(cfg, single, s1, tail),
                 Feed(cfg, single, s2, ')'), OpEvents(op), EventsAll(kids));
    DeliverConcat(cfg.handler, s.h, OpEvents(op), EventsAll(kids));
    PositionConcat(s.line, s.offset, OpText(op), body);
  }

  /** A whole printed group, inside another or at the top. */
  lemma {:induction false} WholeGroup<H>(cfg: Setup<H>, single: bool, s: State<H>, n: Node)
    requires Clean(s) && s.depth >= 0 && n.Group? && Legal(cfg, n)
    ensures Consumes(FeedAll(cfg, single, s, Print(n)), Told(cfg, s, Events(n)),
                     if single && s.depth == 0 then Stopped(Told(cfg, s, Events(n)).state, Success)
                     else Running(After(cfg, s, Print(n), Events(n))))
    ensures Told(cfg, s, Events(n)).error.None? ==> FeedAll(cfg, single, s, OpText(n.op) + PrintAll(n.kids)).Running?
    decreases n, 1
  {
    var text, events := OpText(n.op) + PrintAll(n.kids), OpEvents(n.op) + EventsAll(n.kids);
    assert Print(n) == text + ")" && Events(n) == events + [EndOp];
    OpenedGroup(cfg, single, s, n.op, n.kids);
    var s1 := After(cfg, s, text, events).(depth := s.depth + 1);
    Closing(cfg, single, s1);
    DeliverConcat(cfg.handler, s.h, events, [EndOp]);
    PositionConcat(s.line, s.offset, text, ")");
    var z := if single && s.depth == 0 then Stopped(Told(cfg, s, Events(n)).state, Success)
             else Running(After(cfg, s, Print(n), Events(n)));
    ConsumesThen(cfg, s.h, FeedAll(cfg, single, s, Print(n)), Feed(cfg, single, s1, ')'), z, events, [EndOp]);
  }

  /** Lexing one printed expression in single-expression mode: the handler gets its events, and the
      run stops right behind the balancing parenthesis whatever follows. */
  lemma LexPrinted<H>(cfg: Setup<H>, h: H, n: Node, rest: string)
    requires n.Group? && Legal(cfg, n)
    ensures var r := Deliver(cfg.handler, h, Events(n));
            var o := Lex(cfg, true, Start(h), Print(n) + rest);
            && o.h == r.state
            && (r.error.None? ==> o == Lexed(r.state, Success, rest))
            && (r.error.Some? ==> o.result.Failure?)
  {
    WholeGroup(cfg, true, Start(h), n);
    LexStops(cfg, true, Start(h), Print(n), rest);
    assert Print(n)[..|Print(n)| - 1] == OpText(n.op) + PrintAll(n.kids);
  }

  /** A text on which feeding stops only at its last character leaves exactly the rest. */
  lemma {:induction false} LexStops<H>(cfg: Setup<H>, single: bool, s: State<H>, text: string, rest: string)
    ensures var p := FeedAll(cfg, single, s, text);
            p.Stopped? ==>
              var o := Lex(cfg, single, s, text + rest);
              && o.h == p.h && o.result == p.result
              && (FeedAll(cfg, single, s, text[..|text| - 1]).Running? ==> o.rest == rest)
    decreases |text|
  {
    if text != "" {
      assert (text + rest)[1..] == text[1..] + rest;
      var p := Feed(cfg, single, s, text[0]);
      if p.Running? {
        LexStops(cfg, single, p.s, text[1..], rest);
        if |text| > 1 {
          assert text[..|text| - 1][1..] == text[1..][..|text| - 2];
        }
      } else if |text| > 1 {
        assert text[..|text| - 1][0] == text[0];
      }
    }
  }

  /** Top-level expressions, one to a line. */
  function PrintLines(ns: seq<Node>): string
    requires NoDoublesAll(ns)
  {
    if ns == [] then "" else Print(ns[0]) + "\n" + PrintLines(ns[1..])
  }

  ghost predicate AllGroups(ns: seq<Node>) {
    forall i :: 0 <= i < |ns| ==> ns[i].Group?
  }

  /** The state behind a printed group and its line end. */
  ghost function NextLine<H>(cfg: Setup<H>, s: State<H>, n: Node): State<H>
    requires NoDoubles(n)
  {
    NewLine(NextColumn(After(cfg, s, Print(n), Events(n))))
  }

  /** One line of a printed file. */
  lemma LexLine<H>(cfg: Setup<H>, s: State<H>, n: Node, rest: string)
    requires Clean(s) && s.depth == 0 && n.Group? && Legal(cfg, n)
    ensures var r := Told(cfg, s, Events(n));
            var o := Lex(cfg, false, s, Print(n) + ("\n" + rest));
            && (r.error.None? ==> o == Lex(cfg, false, NextLine(cfg, s, n), rest))
            && (r.error.Some? ==> o.h == r.state && o.result.Failure?)
  {
    WholeGroup(cfg, false, s, n);
    LexAfter(cfg, false, s, Print(n), "\n" + rest);
    if Told(cfg, s, Events(n)).error.None? {
      LineEnd(cfg, After(cfg, s, Print(n), Events(n)), rest);
    }
  }

  lemma LineEnd<H>(cfg: Setup<H>, s: State<H>, rest: string)
    requires Clean(s)
    ensures Lex(cfg, false, s, "\n" + rest) == Lex(cfg, false, NewLine(NextColumn(s)), rest)
  {
    assert ("\n" + rest)[0] == '\n' && ("\n" + rest)[1..] == rest;
    assert Feed(cfg, false, s, '\n') == Running(NewLine(NextColumn(s)));
  }

  /** Lexing a printed file delivers exactly the preorder events of its expressions. */
  lemma {:induction false} LexLines<H>(cfg: Setup<H>, s: State<H>, ns: seq<Node>)
    requires Clean(s) && s.depth == 0 && AllGroups(ns) && LegalAll(cfg, ns)
    ensures var r := Deliver(cfg.handler, s.h, EventsAll(ns));
            var o := Lex(cfg, false, s, PrintLines(ns));
            && o.h == r.state
            && (r.error.None? ==> o.result.Success? && o.rest == "")
            && (r.error.Some? ==> o.result.Failure?)
    decreases |ns|
  {
    if ns != [] {
      var rest := PrintLines(ns[1..]);
      LexLine(cfg, s, ns[0], rest);
      DeliverConcat(cfg.handler, s.h, Events(ns[0]), EventsAll(ns[1..]));
      assert PrintLines(ns) == Print(ns[0]) + ("\n" + rest);
      if Told(cfg, s, Events(ns[0])).error.None? {
        LexLines(cfg, NextLine(cfg, s, ns[0]), ns[1..]);
      }
    }
  }

  /** The handler that writes down every event. */
  function Recorder(parseDouble: string -> Option<nat>): Setup<seq<Event>> {
    Setup((log: seq<Event>, e: Event) => HandlerResult(log + [e], None), parseDouble)
  }

  lemma Recorded(parseDouble: string -> Option<nat>, log: seq<Event>, events: seq<Event>)
    ensures Deliver(Recorder(parseDouble).handler, log, events) == HandlerResult(log + events, None)
    decreases |events|
  {
    if events == [] {
      assert log + [] == log;
    } else {
      Recorded(parseDouble, log + [events[0]], events[1..]);
      assert log + [events[0]] + events[1..] == log + events;
    }
  }

  /** Print, then lex: the log is the tree's preorder events. */
  lemma EventsRoundTrip(parseDouble: string -> Option<nat>, ns: seq<Node>)
    requires AllGroups(ns) && LegalAll(Recorder(parseDouble), ns)
    ensures Lex(Recorder(parseDouble), false, Start([]), PrintLines(ns)) == Lexed(EventsAll(ns), Success, "")
  {
    LexLines(Recorder(parseDouble), Start([]), ns);
    Recorded(parseDouble, [], EventsAll(ns));
    assert [] + EventsAll(ns) == EventsAll(ns);
  }
}
