/** The lexer of slang/lexer.h as a machine that is fed one character at a time,
    without any buffer. A string stands for a byte sequence, one character per byte. */
module LexerSpec {
  import opened Common
  import opened Slang
  import opened Numbers

  const NUL: char := '\0'

  /** Error texts; terms and handler messages are carried whole. */
  datatype Message =
    | ExpectedOpeningBracket
    | InvalidOpName(term: string)
    | InvalidValueType(term: string)
    | FromHandler(text: string)
    | RedundantClosing
    | MissingClosing
    | StringNotClosed
    | InvalidPayloadTag
    | PayloadNotClosed

  datatype LexResult = Success | Failure(line: nat, offset: nat, message: Message)

  datatype TermType = OpTerm | ValueTerm | StrTerm

  datatype State<H> = State(
    h: H, line: nat, offset: nat, depth: int,
    escaped: bool, wasEscaped: bool, termType: TermType, term: Option<string>)

  /** The handler, and the double parser (strtod), which is a parameter. */
  datatype Setup<!H> = Setup(handler: Handler<H>, parseDouble: string -> Option<nat>)

  function Start<H>(h: H): State<H> {
    State(h, 1, 0, 0, false, false, ValueTerm, None)
  }

  /** Characters allowed in operation names; bytes above 127 are negative chars and so excluded. */
  predicate IsOpChar(ch: char) {
    && 0x20 < ch as int < 0x80
    && !IsDigit(ch)
    && ch !in "(){}[]\"':;"
  }

  predicate IsOpName(term: string) {
    && (term == "" || IsOpChar(term[0]))
    && forall i :: 0 < i < |term| ==> IsOpChar(term[i]) || IsDigit(term[i])
  }

  /** Drops every backslash that is not itself escaped. */
  function Unescape(text: string, escaped: bool): (r: string)
    ensures |r| <= |text|
  {
    if text == "" then ""
    else if text[0] == '\\' && !escaped then Unescape(text[1..], true)
    else [text[0]] + Unescape(text[1..], false)
  }

  function Fail<H>(s: State<H>, message: Message): LexResult {
    Failure(s.line, s.offset, message)
  }

  function NewLine<H>(s: State<H>): State<H> {
    s.(line := s.line + 1, offset := 0)
  }

  /** An open term takes in every character read. */
  function Grow<H>(s: State<H>, c: char): State<H> {
    if s.term.None? then s else s.(term := Some(s.term.value + [c]))
  }

  function ValueEvent<H>(cfg: Setup<H>, term: string): Event
    requires term != ""
  {
    match ParseInt64(term)
    case Some(i) => IntValue(i)
    case None =>
      match cfg.parseDouble(term)
      case Some(bits) => DoubleValue(bits)
      case None => UnhandledValue(term)
  }

  function ErrorMessage(event: Event, text: string): Message {
    if event.UnhandledValue? && text == "" then InvalidValueType(event.term) else FromHandler(text)
  }

  function Report<H>(cfg: Setup<H>, s: State<H>, event: Event): (State<H>, LexResult) {
    var r := cfg.handler(s.h, event);
    (s.(h := r.state), if r.error.Some? then Fail(s, ErrorMessage(event, r.error.value)) else Success)
  }

  function FinishTerm<H>(s: State<H>): State<H> {
    s.(termType := ValueTerm, term := None)
  }

  /** Ends the open term, if any, and reports it. */
  function Finalize<H>(cfg: Setup<H>, s: State<H>): (State<H>, LexResult) {
    if s.term.None? then (s, Success)
    else if s.depth <= 0 then (s, Fail(s, ExpectedOpeningBracket))
    else
      var term := s.term.value;
      var (s1, r) :=
        match s.termType
        case OpTerm =>
          if term == "" then (s, Success)
          else if !IsOpName(term) then (s, Fail(s, InvalidOpName(term)))
          else Report(cfg, s, BeginOp(term))
        case ValueTerm =>
          if term == "" then (s, Success) else Report(cfg, s, ValueEvent(cfg, term))
        case StrTerm =>
          var (s1, r) := Report(cfg, s, StrValue(if s.wasEscaped then Unescape(term, false) else term));
          (s1.(wasEscaped := false), r);
      (FinishTerm(s1), r)
  }

  /** Checks made once no more characters are read. */
  function AtEnd<H>(s: State<H>): LexResult {
    if s.depth > 0 then Fail(s, MissingClosing)
    else if s.termType == StrTerm then Fail(s, StringNotClosed)
    else Success
  }

  /** After a character the machine runs on, has stopped, or turns to a comment or a payload. */
  datatype Progress<H> =
    | Running(s: State<H>)
    | Stopped(h: H, result: LexResult)
    | AtComment(s: State<H>)
    | AtPayload(s: State<H>)

  function Proceed<H>(s: State<H>, r: LexResult): Progress<H> {
    if r.Success? then Running(s) else Stopped(s.h, r)
  }

  /** A character inside a string literal that does not close it. */
  function InString<H>(s: State<H>, c: char, escaped: bool): State<H> {
    var opens := c == '\\' && !escaped;
    var s1 := Grow(s, c).(escaped := opens, wasEscaped := s.wasEscaped || opens);
    if c == '\n' then NewLine(s1) else s1
  }

  function CloseGroup<H>(cfg: Setup<H>, single: bool, s: State<H>): Progress<H> {
    var (s1, r1) := Finalize(cfg, s);
    var (s2, r2) := if r1.Success? then Report(cfg, s1, EndOp) else (s1, r1);
    var s3 := s2.(depth := s2.depth - 1);
    if s3.depth < 0 then Stopped(s3.h, Fail(s3, RedundantClosing))
    else if single && r2.Success? && s3.depth == 0 then Stopped(s3.h, Success)
    else Proceed(s3, r2)
  }

  function InText<H>(cfg: Setup<H>, single: bool, s: State<H>, c: char): Progress<H> {
    match c
    case '(' =>
      var (s1, r) := Finalize(cfg, s);
      Proceed(s1.(depth := s1.depth + 1, termType := OpTerm, term := Some("")), r)
    case ')' => CloseGroup(cfg, single, s)
    case '\"' =>
      var (s1, r) := Finalize(cfg, s);
      Proceed(if s.termType == StrTerm then s1 else s1.(termType := StrTerm, term := Some("")), r)
    case '!' => AtPayload(Grow(s, c))
    case ';' => AtComment(Grow(s, c))
    case '\n' =>
      var (s1, r) := Finalize(cfg, NewLine(s));
      Proceed(s1, r)
    case _ =>
      if c == ' ' || c == '\t' || c == '\r' then
        var (s1, r) := Finalize(cfg, s);
        Proceed(s1, r)
      else Running(if s.term.None? then s.(termType := ValueTerm, term := Some([c])) else Grow(s, c))
  }

  function NextColumn<H>(s: State<H>): State<H> {
    s.(offset := s.offset + 1)
  }

  /** One character more; `single` stops the machine after one whole expression. */
  function Feed<H>(cfg: Setup<H>, single: bool, state: State<H>, c: char): Progress<H> {
    var s := NextColumn(state);
    if c == NUL then Stopped(s.h, AtEnd(s))
    else
      var calm := s.(escaped := false);
      if s.termType == StrTerm && (c != '\"' || s.escaped) then Running(InString(calm, c, s.escaped))
      else InText(cfg, single, calm, c)
  }

  /** A comment runs to the end of the line, or of the data; an open term takes it in. */
  function SkipComment<H>(s: State<H>, text: string): (State<H>, string)
    decreases |text|
  {
    if text == "" then (NewLine(s), "")
    else
      var s1 := Grow(NextColumn(s), text[0]);
      if text[0] == NUL || text[0] == '\n' then (NewLine(s1), text[1..]) else SkipComment(s1, text[1..])
  }

  /** The closing bracket of a payload, after its handler has answered. */
  function ClosePayload<H>(s: State<H>, answer: LexResult, text: string): (Progress<H>, string) {
    if text == "" then (Stopped(s.h, Fail(s, PayloadNotClosed)), "")
    else
      var s1 := NextColumn(s);
      (Proceed(FinishTerm(s1), if text[0] == ']' then answer else Fail(s1, PayloadNotClosed)), text[1..])
  }

  /** A custom payload `!tag[...]`, for handlers that consume nothing of the stream. */
  function Payload<H>(cfg: Setup<H>, s: State<H>, token: nat, size: nat, text: string): (Progress<H>, string)
    decreases |text|
  {
    if text == "" then (Stopped(s.h, Fail(s, InvalidPayloadTag)), "")
    else
      var s1 := NextColumn(s);
      if text[0] == '[' then
        var (s2, answer) := Report(cfg, s1, CustomData(token));
        ClosePayload(s2, answer, text[1..])
      else if text[0] == NUL || size >= 4 then (Stopped(s1.h, Fail(s1, InvalidPayloadTag)), text[1..])
      else Payload(cfg, s1, token * 256 + text[0] as int % 256, size + 1, text[1..])
  }

  datatype Lexed<H> = Lexed(h: H, result: LexResult, rest: string)

  lemma PayloadShrinks<H>(cfg: Setup<H>, s: State<H>, token: nat, size: nat, text: string)
    ensures |Payload(cfg, s, token, size, text).1| <= |text|
    ensures var p := Payload(cfg, s, token, size, text).0; p.Running? || (p.Stopped? && p.result.Failure?)
    decreases |text|
  {
  }

  lemma CommentShrinks<H>(s: State<H>, text: string)
    ensures |SkipComment(s, text).1| <= |text|
    decreases |text|
  {
  }

  /** The whole run: final handler state, result, and the text left unread. */
  function Lex<H>(cfg: Setup<H>, single: bool, s: State<H>, text: string): Lexed<H>
    decreases |text|, 0
  {
    if text == "" then Lexed(s.h, AtEnd(s), "")
    else Resume(cfg, single, Feed(cfg, single, s, text[0]), text[1..])
  }

  function Resume<H>(cfg: Setup<H>, single: bool, p: Progress<H>, rest: string): Lexed<H>
    decreases |rest|, 1
  {
    match p
    case Stopped(h, result) => Lexed(h, result, rest)
    case Running(s1) => Lex(cfg, single, s1, rest)
    case AtComment(s1) =>
      CommentShrinks(s1, rest);
      var (s2, rest2) := SkipComment(s1, rest);
      Lex(cfg, single, s2, rest2)
    case AtPayload(s1) =>
      PayloadShrinks(cfg, s1, 0, 0, rest);
      var (p2, rest2) := Payload(cfg, s1, 0, 0, rest);
      match p2
      case Stopped(h, result) => Lexed(h, result, rest2)
      case Running(s2) => Lex(cfg, single, s2, rest2)
  }
}
