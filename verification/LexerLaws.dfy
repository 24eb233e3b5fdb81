/** Laws of the lexer beyond printed text: gaps between terms, refusals and where they are reported,
    superfluous escapes, payload tags. */
module LexerLaws {
  import opened Common
  import opened Slang
  import opened Numbers
  import opened LexerSpec
  import opened RoundTrip
  import opened SingleExpr

  // ---- Gaps ----

  /** Blanks, line ends and comments up to their line end. */
  ghost predicate Gap(text: string)
    decreases |text|
  {
    text == ""
    || (text[0] in " \t\r\n" && Gap(text[1..]))
    || (text[0] == ';' && exists n :: CommentTo(text, n) && Gap(text[n + 1..]))
  }

  /** The text starts with a comment whose line end stands at n. */
  ghost predicate CommentTo(text: string, n: nat) {
    0 < n < |text| && text[n] == '\n' && forall k :: 0 < k < n ==> text[k] != '\n' && text[k] != NUL
  }

  lemma {:induction false} CommentSkipped<H>(s: State<H>, text: string, n: nat, rest: string)
    requires s.term.None? && n < |text| && text[n] == '\n' && forall k :: 0 <= k < n ==> text[k] != '\n' && text[k] != NUL
    ensures SkipComment(s, text + rest) == (Move(s, text[..n + 1]), text[n + 1..] + rest)
    decreases n
  {
    var c := text[0];
    assert (text + rest)[0] == c && (text + rest)[1..] == text[1..] + rest;
    MoveOne(s, c);
    if n == 0 {
      assert text[..1] == [c];
    } else {
      CommentSkipped(NextColumn(s), text[1..], n - 1, rest);
      assert text[..n + 1] == [c] + text[1..][..n];
      MoveConcat(s, [c], text[1..][..n]);
    }
  }

  /** Outside terms, gaps are read without a word to the handler; only the position moves on. */
  lemma {:induction false} GapsAreSilent<H>(cfg: Setup<H>, single: bool, s: State<H>, gap: string, rest: string)
    requires Clean(s) && Gap(gap)
    ensures Lex(cfg, single, s, gap + rest) == Lex(cfg, single, Move(s, gap), rest)
    decreases |gap|
  {
    if gap == "" {
      assert gap + rest == rest;
    } else {
      var c := gap[0];
      assert (gap + rest)[0] == c && (gap + rest)[1..] == gap[1..] + rest;
      MoveOne(s, c);
      assert gap == [c] + gap[1..];
      MoveConcat(s, [c], gap[1..]);
      if c == ';' {
        var n :| CommentTo(gap, n) && Gap(gap[n + 1..]);
        CommentIsSilent(cfg, single, s, gap, n, rest);
        GapsAreSilent(cfg, single, Move(s, gap[..n + 1]), gap[n + 1..], rest);
        MoveConcat(s, gap[..n + 1], gap[n + 1..]);
        assert gap == gap[..n + 1] + gap[n + 1..];
      } else {
        assert Feed(cfg, single, s, c) == Running(Move(s, [c]));
        GapsAreSilent(cfg, single, Move(s, [c]), gap[1..], rest);
      }
    }
  }

  lemma CommentIsSilent<H>(cfg: Setup<H>, single: bool, s: State<H>, gap: string, n: nat, rest: string)
    requires Clean(s) && gap != "" && gap[0] == ';' && CommentTo(gap, n)
    ensures Lex(cfg, single, s, gap + rest) == Lex(cfg, single, Move(s, gap[..n + 1]), gap[n + 1..] + rest)
  {
    var behind := gap[1..];
    assert (gap + rest)[0] == ';' && (gap + rest)[1..] == behind + rest;
    assert Feed(cfg, single, s, ';') == AtComment(NextColumn(s));
    assert forall k :: 0 <= k < n - 1 ==> behind[k] == gap[k + 1];
    CommentSkipped(NextColumn(s), behind, n - 1, rest);
    MoveOne(s, ';');
    MoveConcat(s, ";", behind[..n]);
    assert gap[..n + 1] == ";" + behind[..n] && behind[n..] == gap[n + 1..];
  }

  /** Wherever the lexer stands outside a term, any blanks, line ends and comments may be put in or left out:
      handler, outcome and the text left unread are the same, up to the position of an error. */
  lemma GapsAreFree<H>(cfg: Setup<H>, single: bool, h: H, before: string, gap: string, rest: string)
    requires Gap(gap)
    requires var p := FeedAll(cfg, single, Start(h), before); p.Running? && Clean(p.s)
    ensures SameLexed(Lex(cfg, single, Start(h), before + gap + rest), Lex(cfg, single, Start(h), before + rest))
  {
    var s := FeedAll(cfg, single, Start(h), before).s;
    assert before + gap + rest == before + (gap + rest);
    LexAfter(cfg, single, Start(h), before, gap + rest);
    LexAfter(cfg, single, Start(h), before, rest);
    GapsAreSilent(cfg, single, s, gap, rest);
    PositionIrrelevant(cfg, single, Move(s, gap), s, rest);
  }

  /** Tab, carriage return and line end close a term as a space does. */
  lemma BlanksAreAlike<H>(cfg: Setup<H>, single: bool, s: State<H>, d: char)
    requires d == '\t' || d == '\r' || d == '\n'
    requires !s.termType.StrTerm?
    ensures SameProgress(Feed(cfg, single, s, d), Feed(cfg, single, s, ' '))
  {
    var calm := NextColumn(s).(escaped := false);
    if d == '\n' {
      SameFinalize(cfg, NewLine(calm), calm);
    }
  }

  /** A comment right behind a term, with nothing between, becomes part of the term. */
  lemma CommentsStickToTerms<H>(cfg: Setup<H>, single: bool, s: State<H>, comment: string, rest: string)
    requires s.term.Some? && !s.termType.StrTerm? && !s.escaped
    requires forall k :: 0 <= k < |comment| ==> comment[k] != '\n' && comment[k] != NUL
    ensures var text := ";" + comment + "\n";
      Lex(cfg, single, s, text + rest) == Lex(cfg, single, Move(s, text).(term := Some(s.term.value + text)), rest)
  {
    var text := ";" + comment + "\n";
    var s1 := NextColumn(s).(term := Some(s.term.value + ";"));
    assert text + rest == ";" + (comment + "\n" + rest);
    assert (text + rest)[0] == ';' && (text + rest)[1..] == comment + "\n" + rest;
    assert Feed(cfg, single, s, ';') == AtComment(s1);
    StickingComment(s1, comment, rest);
    MoveOne(s, ';');
    MoveConcat(s, ";", comment + "\n");
    assert text == ";" + (comment + "\n");
    assert s.term.value + ";" + (comment + "\n") == s.term.value + text;
  }

  lemma {:induction false} StickingComment<H>(s: State<H>, comment: string, rest: string)
    requires s.term.Some?
    requires forall k :: 0 <= k < |comment| ==> comment[k] != '\n' && comment[k] != NUL
    ensures SkipComment(s, comment + "\n" + rest)
         == (Move(s, comment + "\n").(term := Some(s.term.value + (comment + "\n"))), rest)
    decreases |comment|
  {
    var text := comment + "\n" + rest;
    var c := text[0];
    MoveOne(s, c);
    if comment == "" {
      assert text[1..] == rest && comment + "\n" == [c];
    } else {
      assert text[1..] == comment[1..] + "\n" + rest;
      StickingComment(Grow(NextColumn(s), c), comment[1..], rest);
      assert comment + "\n" == [c] + (comment[1..] + "\n");
      MoveConcat(s, [c], comment[1..] + "\n");
      assert s.term.value + [c] + (comment[1..] + "\n") == s.term.value + (comment + "\n");
    }
  }

  // ---- Where errors are reported ----

  ghost predicate Located<H>(s: State<H>, read: string) {
    (s.line, s.offset) == Position(1, 0, read)
  }

  /** The position right behind what was read, or the start of one line more where the data ends in a comment. */
  ghost predicate ReportedAt(r: LexResult, read: string, ended: bool) {
    r.Failure? ==> (r.line, r.offset) == Position(1, 0, read) || (ended && (r.line, r.offset) == (Position(1, 0, read).0 + 1, 0))
  }

  lemma LocatedNext<H>(s: State<H>, read: string, c: char)
    requires Located(s, read)
    ensures Located(if c == '\n' then NewLine(s) else NextColumn(s), read + [c])
  {
    PositionConcat(1, 0, read, [c]);
    MoveOne(s, c);
  }

  ghost predicate LocatedProgress<H>(p: Progress<H>, read: string) {
    match p
    case Stopped(_, r) => r.Failure? ==> (r.line, r.offset) == Position(1, 0, read)
    case Running(s) => Located(s, read)
    case AtComment(s) => Located(s, read)
    case AtPayload(s) => Located(s, read)
  }

  lemma FeedIsLocated<H>(cfg: Setup<H>, single: bool, s: State<H>, read: string, c: char)
    requires Located(s, read) && c != NUL
    ensures LocatedProgress(Feed(cfg, single, s, c), read + [c])
  {
    LocatedNext(s, read, c);
    if s.termType == StrTerm && (c != '\"' || s.escaped) {
      assert Feed(cfg, single, s, c) == Running(InString(NextColumn(s).(escaped := false), c, s.escaped));
    } else {
      InTextIsLocated(cfg, single, NextColumn(s).(escaped := false), c);
    }
  }

  /** What a character reports or leaves stands at the position behind it. */
  lemma InTextIsLocated<H>(cfg: Setup<H>, single: bool, s: State<H>, c: char)
    ensures var here := if c == '\n' then NewLine(s) else s;
      match InText(cfg, single, s, c)
      case Stopped(_, r) => r.Failure? ==> (r.line, r.offset) == (here.line, here.offset)
      case Running(s1) => (s1.line, s1.offset) == (here.line, here.offset)
      case AtComment(s1) => (s1.line, s1.offset) == (here.line, here.offset)
      case AtPayload(s1) => (s1.line, s1.offset) == (here.line, here.offset)
  {
    FinalizeIsLocated(cfg, s);
    if c == '\n' {
      FinalizeIsLocated(cfg, NewLine(s));
    } else if c == ')' {
      CloseIsLocated(cfg, single, s);
    }
  }

  lemma FinalizeIsLocated<H>(cfg: Setup<H>, s: State<H>)
    ensures var (s1, r) := Finalize(cfg, s);
      (s1.line, s1.offset) == (s.line, s.offset) && (r.Failure? ==> (r.line, r.offset) == (s.line, s.offset))
  {
  }

  lemma CloseIsLocated<H>(cfg: Setup<H>, single: bool, s: State<H>)
    ensures match CloseGroup(cfg, single, s)
      case Stopped(_, r) => r.Failure? ==> (r.line, r.offset) == (s.line, s.offset)
      case Running(s1) => (s1.line, s1.offset) == (s.line, s.offset)
      case _ => false
  {
    FinalizeIsLocated(cfg, s);
  }

  lemma {:induction false} CommentIsLocated<H>(s: State<H>, read: string, text: string)
    requires Located(s, read) && NUL !in text
    ensures var (s1, rest) := SkipComment(s, text);
      |rest| <= |text| && text[|text| - |rest|..] == rest
      && (Located(s1, read + text[..|text| - |rest|])
          || (rest == "" && (s1.line, s1.offset) == (Position(1, 0, read + text).0 + 1, 0)))
    decreases |text|
  {
    if text == "" {
      assert read + text == read;
    } else {
      LocatedNext(s, read, text[0]);
      var s1 := Grow(NextColumn(s), text[0]);
      if text[0] == '\n' {
        assert text[..1] == [text[0]];
      } else {
        CommentIsLocated(s1, read + [text[0]], text[1..]);
        var rest := SkipComment(s1, text[1..]).1;
        assert read + [text[0]] + text[1..][..|text| - 1 - |rest|] == read + text[..|text| - |rest|];
        assert read + [text[0]] + text[1..] == read + text;
      }
    }
  }

  /** The run leaves an end of the text unread, and a failure is reported where the rest begins. */
  ghost predicate LexLocated<H>(o: Lexed<H>, read: string, text: string) {
    && |o.rest| <= |text| && text[|text| - |o.rest|..] == o.rest
    && ReportedAt(o.result, read + text[..|text| - |o.rest|], o.rest == "" && ';' in text)
  }

  /** Every failure names the line and the column right behind the last character read, for texts without NUL
      and payloads; when the data ends inside a comment, it names the start of the next line. */
  lemma {:induction false} FailuresAreLocated<H>(cfg: Setup<H>, single: bool, s: State<H>, read: string, text: string)
    requires Located(s, read) && NUL !in text && '!' !in text
    ensures LexLocated(Lex(cfg, single, s, text), read, text)
    decreases |text|, 0
  {
    if text == "" {
      assert read + text == read;
    } else {
      var c, tail := text[0], text[1..];
      FeedIsLocated(cfg, single, s, read, c);
      NoPayload(cfg, single, s, c);
      var p := Feed(cfg, single, s, c);
      match p {
        case Stopped(_, _) => assert text[..1] == [c];
        case Running(s1) => AfterChar(cfg, single, s1, read, text);
        case AtComment(s1) =>
          CommentInText(s1, read, text);
          AfterComment(cfg, single, SkipComment(s1, tail).0, read, text, SkipComment(s1, tail).1);
      }
    }
  }

  lemma {:induction false} AfterChar<H>(cfg: Setup<H>, single: bool, s: State<H>, read: string, text: string)
    requires text != "" && Located(s, read + [text[0]]) && NUL !in text && '!' !in text
    ensures LexLocated(Lex(cfg, single, s, text[1..]), read, text)
    decreases |text| - 1, 1
  {
    FailuresAreLocated(cfg, single, s, read + [text[0]], text[1..]);
    Shifted(read, text, Lex(cfg, single, s, text[1..]).rest);
  }

  lemma NoPayload<H>(cfg: Setup<H>, single: bool, s: State<H>, c: char)
    requires c != '!'
    ensures !Feed(cfg, single, s, c).AtPayload?
    ensures Feed(cfg, single, s, c).AtComment? ==> c == ';'
  {
  }

  lemma Shifted(read: string, text: string, rest: string)
    requires text != "" && |rest| <= |text| - 1
    ensures read + [text[0]] + text[1..][..|text| - 1 - |rest|] == read + text[..|text| - |rest|]
  {
  }

  /** Behind a comment, or at the end of the data inside it. */
  ghost predicate BehindComment<H>(s: State<H>, read: string, text: string, rest: string) {
    && ';' in text && |rest| < |text| && text[|text| - |rest|..] == rest
    && (Located(s, read + text[..|text| - |rest|])
        || (rest == "" && (s.line, s.offset) == (Position(1, 0, read + text).0 + 1, 0)))
  }

  lemma CommentInText<H>(s: State<H>, read: string, text: string)
    requires text != "" && text[0] == ';' && Located(s, read + [text[0]]) && NUL !in text
    ensures BehindComment(SkipComment(s, text[1..]).0, read, text, SkipComment(s, text[1..]).1)
  {
    CommentIsLocated(s, read + [text[0]], text[1..]);
    Shifted(read, text, SkipComment(s, text[1..]).1);
    assert read + [text[0]] + text[1..] == read + text;
  }

  lemma {:induction false} AfterComment<H>(cfg: Setup<H>, single: bool, s: State<H>, read: string, text: string, rest: string)
    requires BehindComment(s, read, text, rest) && NUL !in text && '!' !in text
    ensures LexLocated(Lex(cfg, single, s, rest), read, text)
    decreases |rest|, 1
  {
    if Located(s, read + text[..|text| - |rest|]) {
      FailuresAreLocated(cfg, single, s, read + text[..|text| - |rest|], rest);
      Further(read, text, rest, Lex(cfg, single, s, rest).rest);
    } else {
      EndedByComment(cfg, single, s, read, text);
    }
  }

  lemma EndedByComment<H>(cfg: Setup<H>, single: bool, s: State<H>, read: string, text: string)
    requires (s.line, s.offset) == (Position(1, 0, read + text).0 + 1, 0)
    requires ';' in text
    ensures LexLocated(Lex(cfg, single, s, ""), read, text)
  {
    NothingLeft(cfg, single, s);
    EndLocated(Lex(cfg, single, s, ""), s.line, read, text);
  }

  lemma NothingLeft<H>(cfg: Setup<H>, single: bool, s: State<H>)
    ensures var o := Lex(cfg, single, s, "");
      o.rest == "" && (o.result.Failure? ==> (o.result.line, o.result.offset) == (s.line, s.offset))
  {
  }

  lemma EndLocated<H>(o: Lexed<H>, line: nat, read: string, text: string)
    requires o.rest == "" && ';' in text && line == Position(1, 0, read + text).0 + 1
    requires o.result.Failure? ==> (o.result.line, o.result.offset) == (line, 0)
    ensures LexLocated(o, read, text)
  {
    assert text[..|text|] == text;
  }

  lemma Further(read: string, text: string, rest1: string, rest2: string)
    requires |rest2| <= |rest1| <= |text| && text[|text| - |rest1|..] == rest1 && rest1[|rest1| - |rest2|..] == rest2
    ensures text[|text| - |rest2|..] == rest2
    ensures read + text[..|text| - |rest1|] + rest1[..|rest1| - |rest2|] == read + text[..|text| - |rest2|]
  {
  }

  // ---- Refusals ----

  /** How many parentheses a text leaves open. */
  ghost function DepthOf(text: string): int {
    if text == "" then 0
    else
      var n := |text| - 1;
      DepthOf(text[..n]) + (if text[n] == '(' then 1 else if text[n] == ')' then -1 else 0)
  }

  /** A text without string literals, comments, payloads and NUL. */
  predicate Simple(text: string) {
    forall i :: 0 <= i < |text| ==> text[i] !in "\";!" && text[i] != NUL
  }

  lemma {:induction false} DepthFollows<H>(cfg: Setup<H>, s: State<H>, text: string)
    requires Simple(text) && s.depth >= 0 && !s.termType.StrTerm? && FeedAll(cfg, false, s, text).Running?
    ensures var end := FeedAll(cfg, false, s, text).s;
      end.depth == s.depth + DepthOf(text) && end.depth >= 0 && !end.termType.StrTerm?
    decreases |text|
  {
    if text != "" {
      var n := |text| - 1;
      var last := [text[n]];
      assert text == text[..n] + last && last[1..] == "";
      FeedAllConcat(cfg, false, s, text[..n], last);
      DepthFollows(cfg, s, text[..n]);
      OneDepth(cfg, FeedAll(cfg, false, s, text[..n]).s, text[n]);
    }
  }

  lemma OneDepth<H>(cfg: Setup<H>, s: State<H>, c: char)
    requires c !in "\";!" && s.depth >= 0 && !s.termType.StrTerm? && Feed(cfg, false, s, c).Running?
    ensures var s1 := Feed(cfg, false, s, c).s;
      s1.depth == s.depth + (if c == '(' then 1 else if c == ')' then -1 else 0) && s1.depth >= 0 && !s1.termType.StrTerm?
  {
  }

  /** What the lexer makes of unbalanced parentheses, once nothing before has been refused: a text that leaves
      some open fails at its end, and one closing too many fails right there, whatever the handler answers. */
  lemma ParenthesesMustMatch<H>(cfg: Setup<H>, h: H, text: string, rest: string)
    requires Simple(text) && FeedAll(cfg, false, Start(h), text).Running?
    ensures DepthOf(text) >= 0
    ensures var end := Position(1, 0, text); var o := Lex(cfg, false, Start(h), text);
      o.result == if DepthOf(text) > 0 then Failure(end.0, end.1, MissingClosing) else Success
    ensures var end := Position(1, 0, text + ")"); var o := Lex(cfg, false, Start(h), text + ")" + rest);
      DepthOf(text) == 0 ==> o.result == Failure(end.0, end.1, RedundantClosing)
  {
    var s := FeedAll(cfg, false, Start(h), text).s;
    DepthFollows(cfg, Start(h), text);
    FeedAllIsLocated(cfg, Start(h), "", text);
    assert "" + text == text && text + "" == text;
    LexAfter(cfg, false, Start(h), text, "");
    assert text + ")" + rest == text + (")" + rest);
    LexAfter(cfg, false, Start(h), text, ")" + rest);
    assert (")" + rest)[0] == ')' && (")" + rest)[1..] == rest;
    LocatedNext(s, text, ')');
  }

  lemma {:induction false} FeedAllIsLocated<H>(cfg: Setup<H>, s: State<H>, read: string, text: string)
    requires Located(s, read) && NUL !in text && FeedAll(cfg, false, s, text).Running?
    ensures Located(FeedAll(cfg, false, s, text).s, read + text)
    decreases |text|
  {
    if text == "" {
      assert read + text == read;
    } else {
      FeedIsLocated(cfg, false, s, read, text[0]);
      FeedAllIsLocated(cfg, Feed(cfg, false, s, text[0]).s, read + [text[0]], text[1..]);
      assert read + [text[0]] + text[1..] == read + text;
    }
  }

  /** A term outside any group is refused by what ends it, but at the end of the data it goes unnoticed. */
  lemma TermsNeedAGroup<H>(cfg: Setup<H>, h: H, term: string, d: char, rest: string)
    requires term != "" && PlainText(term) && (d == ' ' || d == '(' || d == '\"')
    ensures Lex(cfg, false, Start(h), term) == Lexed(h, Success, "")
    ensures Lex(cfg, false, Start(h), term + [d] + rest).result == Failure(1, |term| + 1, ExpectedOpeningBracket)
    ensures Lex(cfg, false, Start(h), term + [d] + rest).h == h
  {
    var s1 := NextColumn(Start(h)).(term := Some(term[..1]));
    assert Plain(term[0]) && term[..1] == [term[0]];
    assert Feed(cfg, false, Start(h), term[0]) == Running(s1);
    PlainRun(cfg, false, s1, term[1..]);
    assert term[..1] + term[1..] == term;
    LexAfter(cfg, false, Start(h), term, "");
    assert term + "" == term;
    assert term + [d] + rest == term + ([d] + rest);
    LexAfter(cfg, false, Start(h), term, [d] + rest);
    assert ([d] + rest)[0] == d && ([d] + rest)[1..] == rest;
    NoLineEnds(1, 1, term[1..]);
  }

  lemma {:induction false} NoLineEnds(line: nat, offset: nat, text: string)
    requires PlainText(text)
    ensures Position(line, offset, text) == (line, offset + |text|)
    decreases |text|
  {
    if text != "" {
      assert Plain(text[0]);
      NoLineEnds(line, offset + 1, text[1..]);
    }
  }

  /** The name of an operation is either handed to the handler or refused with its text, and a handler's own
      refusal is reported with its words; both at the column behind the character that ends the name. */
  lemma OperationNames<H>(cfg: Setup<H>, h: H, name: string, d: char, rest: string)
    requires name != "" && PlainText(name) && (d == ' ' || d == ')')
    ensures var o := Lex(cfg, false, Start(h), "(" + name + [d] + rest);
      var r := cfg.handler(h, BeginOp(name));
      (!LegalOp(name) ==> o.h == h && o.result == Failure(1, |name| + 2, InvalidOpName(name)))
      && (LegalOp(name) && r.error.Some? ==> o.h == r.state && o.result == Failure(1, |name| + 2, FromHandler(r.error.value)))
  {
    var open := "(" + name;
    OpenName(cfg, h, name);
    assert "(" + name + [d] + rest == open + ([d] + rest);
    LexAfter(cfg, false, Start(h), open, [d] + rest);
    assert ([d] + rest)[0] == d && ([d] + rest)[1..] == rest;
    NameEnds(cfg, AtName(h, name), d);
  }

  /** The machine with the name of a first operation read. */
  ghost function AtName<H>(h: H, name: string): State<H> {
    State(h, 1, |name| + 1, 1, false, false, OpTerm, Some(name))
  }

  lemma OpenName<H>(cfg: Setup<H>, h: H, name: string)
    requires PlainText(name)
    ensures FeedAll(cfg, false, Start(h), "(" + name) == Running(AtName(h, name))
  {
    var open := "(" + name;
    assert open[0] == '(' && open[1..] == name;
    assert Feed(cfg, false, Start(h), '(') == Running(AtName(h, ""));
    PlainRun(cfg, false, AtName(h, ""), name);
    assert "" + name == name;
    NoLineEnds(1, 1, name);
  }

  lemma NameEnds<H>(cfg: Setup<H>, s: State<H>, d: char)
    requires s.termType.OpTerm? && s.depth > 0 && s.term.Some? && s.term.value != "" && PlainText(s.term.value)
    requires d == ' ' || d == ')'
    ensures var name := s.term.value; var r := cfg.handler(s.h, BeginOp(name));
      (!LegalOp(name) ==> Feed(cfg, false, s, d) == Stopped(s.h, Failure(s.line, s.offset + 1, InvalidOpName(name))))
      && (LegalOp(name) && r.error.Some? ==>
            Feed(cfg, false, s, d) == Stopped(r.state, Failure(s.line, s.offset + 1, FromHandler(r.error.value))))
  {
    assert LegalOp(s.term.value) <==> IsOpName(s.term.value) by {
      PlainNames(s.term.value);
    }
  }

  lemma PlainNames(name: string)
    requires name != "" && PlainText(name)
    ensures LegalOp(name) <==> IsOpName(name)
  {
    assert forall i :: 0 <= i < |name| ==> Plain(name[i]);
    LegalOpIsOpName(name);
  }

  /** How a term is reported: as the integer it spells, else as the double it parses to, else as itself. */
  ghost predicate ReportedAs(parseDouble: string -> Option<nat>, term: string, e: Event) {
    if exists v :: Integral(term, v) then e.IntValue? && Integral(term, e.i)
    else match parseDouble(term)
         case Some(bits) => e == DoubleValue(bits)
         case None => e == UnhandledValue(term)
  }

  ghost predicate Integral(term: string, v: int) {
    |term| <= 63 && -TWO_63 <= v < TWO_63 && Spells(term, v)
  }

  lemma ValueIsReported<H>(cfg: Setup<H>, term: string)
    requires term != ""
    ensures ReportedAs(cfg.parseDouble, term, ValueEvent(cfg, term))
  {
    if ParseInt64(term).Some? {
      ParsesExactly(term, ParseInt64(term).value);
      assert Integral(term, ParseInt64(term).value);
    } else if exists v :: Integral(term, v) {
      var v :| Integral(term, v);
      ParsesExactly(term, v);
    }
  }

  /** An operand without blanks, quotes and brackets reaches the handler as the value it spells. */
  lemma OperandsAreRead(parseDouble: string -> Option<nat>, op: string, term: string) returns (e: Event)
    requires LegalOp(op) && term != "" && PlainText(term)
    ensures ReportedAs(parseDouble, term, e)
    ensures Lex(Recorder(parseDouble), false, Start([]), "(" + op + " " + term + ")") == Lexed([BeginOp(op), e, EndOp], Success, "")
  {
    var cfg := Recorder(parseDouble);
    e := ValueEvent(cfg, term);
    ValueIsReported(cfg, term);
    var open := "(" + op + " ";
    var s1 := State([BeginOp(op)], 1, |op| + 2, 1, false, false, ValueTerm, None);
    assert FeedAll(cfg, false, Start([]), open) == Running(s1) by { OpensCall(parseDouble, op); }
    ReadsOperand(parseDouble, s1, op, term);
    assert "(" + op + " " + term + ")" == open + (term + ")");
    LexAfter(cfg, false, Start([]), open, term + ")");
    LexAfter(cfg, false, s1, term + ")", "");
    assert term + ")" + "" == term + ")";
  }

  lemma OpensCall(parseDouble: string -> Option<nat>, op: string)
    requires LegalOp(op)
    ensures FeedAll(Recorder(parseDouble), false, Start([]), "(" + op + " ")
         == Running(State([BeginOp(op)], 1, |op| + 2, 1, false, false, ValueTerm, None))
  {
    var cfg := Recorder(parseDouble);
    OpNameIsPlain(op);
    OpenName(cfg, [], op);
    FeedAllConcat(cfg, false, Start([]), "(" + op, " ");
    LegalOpIsTaken(op);
    assert " "[1..] == "" && [] + [BeginOp(op)] == [BeginOp(op)];
    var s2 := AtName<seq<Event>>([], op);
    assert Feed(cfg, false, s2, ' ') == Running(State([BeginOp(op)], 1, |op| + 2, 1, false, false, ValueTerm, None));
  }

  lemma ReadsOperand(parseDouble: string -> Option<nat>, s: State<seq<Event>>, op: string, term: string)
    requires Clean(s) && s.depth == 1 && s.h == [BeginOp(op)] && term != "" && PlainText(term)
    ensures var p := FeedAll(Recorder(parseDouble), false, s, term + ")");
      p.Running? && p.s.depth == 0 && !p.s.termType.StrTerm?
      && p.s.h == [BeginOp(op), ValueEvent(Recorder(parseDouble), term), EndOp]
  {
    var cfg := Recorder(parseDouble);
    var e := ValueEvent(cfg, term);
    TermLeaf(cfg, false, s, term, ')');
    Recorded(parseDouble, s.h, [e]);
    var s1 := After(cfg, s, term, [e]);
    Closing(cfg, false, s1);
    Recorded(parseDouble, s1.h, [EndOp]);
    assert [BeginOp(op)] + [e] + [EndOp] == [BeginOp(op), e, EndOp];
  }

  /** Inside a string literal nothing but its closing quote counts: where that is missing, the text fails at
      its end. */
  lemma StringsMustClose<H>(cfg: Setup<H>, h: H, str: string)
    requires NUL !in str
    ensures var text := "\"" + Escape(str); var end := Position(1, 0, text);
      Lex(cfg, false, Start(h), text) == Lexed(h, Failure(end.0, end.1, StringNotClosed), "")
  {
    var open, body := "\"", Escape(str);
    var s1 := NextColumn(Start(h)).(termType := StrTerm, term := Some(""));
    assert open[0] == '\"' && open[1..] == "";
    assert Feed(cfg, false, Start(h), '\"') == Running(s1);
    EscapedRun(cfg, false, s1, str);
    FeedAllConcat(cfg, false, Start(h), open, body);
    LexAfter(cfg, false, Start(h), open + body, "");
    assert open + body + "" == open + body;
    PositionConcat(1, 0, open, body);
    MoveOne(Start(h), '\"');
  }

  // ---- Escapes ----

  /** A text with a backslash put before some of its characters. */
  ghost function Marked(s: string, marks: seq<bool>): string
    requires |marks| == |s|
  {
    if s == "" then "" else (if marks[0] then ['\\', s[0]] else [s[0]]) + Marked(s[1..], marks[1..])
  }

  /** Unescaping takes one backslash off each marked character, needed or not, and changes nothing else. */
  lemma {:induction false} UnescapeMarked(s: string, marks: seq<bool>)
    requires |marks| == |s| && forall i :: 0 <= i < |s| && s[i] == '\\' ==> marks[i]
    ensures Unescape(Marked(s, marks), false) == s
    decreases |s|
  {
    if s != "" {
      var rest := Marked(s[1..], marks[1..]);
      assert forall i :: 0 <= i < |s[1..]| ==> s[1..][i] == s[i + 1] && marks[1..][i] == marks[i + 1];
      UnescapeMarked(s[1..], marks[1..]);
      if marks[0] {
        UnescapeUnit(s[0], rest);
      } else {
        var text := [s[0]] + rest;
        assert text[0] == s[0] && text[1..] == rest;
      }
    }
  }

  // ---- Payload tags ----

  /** A tag as a number, its last character in the low byte. */
  ghost function TokenOf(tag: string): nat {
    if tag == "" then 0
    else
      var n := |tag| - 1;
      256 * TokenOf(tag[..n]) + tag[n] as int % 256
  }

  /** What the bracket behind a tag leads to. */
  ghost function AtBracket<H>(cfg: Setup<H>, s: State<H>, token: nat, rest: string): (Progress<H>, string) {
    var (s1, answer) := Report(cfg, s, CustomData(token));
    ClosePayload(s1, answer, rest)
  }

  lemma TagEnds<H>(cfg: Setup<H>, s: State<H>, token: nat, size: nat, rest: string)
    ensures Payload(cfg, s, token, size, "[" + rest) == AtBracket(cfg, NextColumn(s), token, rest)
  {
    var text := "[" + rest;
    assert text[0] == '[' && text[1..] == rest;
  }

  lemma TagStep<H>(cfg: Setup<H>, s: State<H>, token: nat, size: nat, c: char, rest: string)
    requires c != '[' && c != NUL && size < 4
    ensures Payload(cfg, s, token, size, [c] + rest) == Payload(cfg, NextColumn(s), token * 256 + c as int % 256, size + 1, rest)
  {
    var text := [c] + rest;
    assert text[0] == c && text[1..] == rest;
  }

  lemma {:induction false} TagRead<H>(cfg: Setup<H>, s: State<H>, seen: string, tag: string, rest: string)
    requires |seen| + |tag| <= 4 && '[' !in tag && NUL !in tag
    ensures Payload(cfg, s, TokenOf(seen), |seen|, tag + ("[" + rest))
         == AtBracket(cfg, s.(offset := s.offset + |tag| + 1), TokenOf(seen + tag), rest)
    decreases |tag|
  {
    if tag == "" {
      assert tag + ("[" + rest) == "[" + rest && seen + tag == seen;
      TagEnds(cfg, s, TokenOf(seen), |seen|, rest);
    } else {
      var c, later := tag[0], tag[1..];
      assert tag + ("[" + rest) == [c] + (later + ("[" + rest)) && seen + [c] + later == seen + tag;
      OneMoreInToken(seen, c);
      TagStep(cfg, s, TokenOf(seen), |seen|, c, later + ("[" + rest));
      TagRead(cfg, NextColumn(s), seen + [c], later, rest);
    }
  }

  lemma OneMoreInToken(seen: string, c: char)
    ensures TokenOf(seen + [c]) == 256 * TokenOf(seen) + c as int % 256
  {
    assert (seen + [c])[..|seen|] == seen;
  }

  /** What an empty payload amounts to once its bracket has been read: the handler's refusal there, or the
      position behind the closing bracket. */
  ghost function EmptyPayload<H>(cfg: Setup<H>, s: State<H>, token: nat): Progress<H> {
    var r := cfg.handler(s.h, CustomData(token));
    if r.error.Some? then Stopped(r.state, Failure(s.line, s.offset, FromHandler(r.error.value)))
    else Running(FinishTerm(NextColumn(s).(h := r.state)))
  }

  /** A payload's tag of up to four characters reaches the handler as one number, most significant first. */
  lemma TagsAreTokens<H>(cfg: Setup<H>, s: State<H>, tag: string, rest: string)
    requires |tag| <= 4 && '[' !in tag && NUL !in tag
    ensures Payload(cfg, s, 0, 0, tag + ("[" + ("]" + rest)))
         == (EmptyPayload(cfg, s.(offset := s.offset + |tag| + 1), TokenOf(tag)), rest)
  {
    assert "" + tag == tag;
    TagRead(cfg, s, "", tag, "]" + rest);
    Bracketed(cfg, s.(offset := s.offset + |tag| + 1), TokenOf(tag), rest);
  }

  lemma Bracketed<H>(cfg: Setup<H>, s: State<H>, token: nat, rest: string)
    ensures AtBracket(cfg, s, token, "]" + rest) == (EmptyPayload(cfg, s, token), rest)
  {
    assert ("]" + rest)[0] == ']' && ("]" + rest)[1..] == rest;
  }

  /** A longer tag is refused. */
  lemma {:induction false} LongTagsAreRefused<H>(cfg: Setup<H>, s: State<H>, token: nat, size: nat, text: string)
    requires size <= 4 && |text| > 4 - size && forall i :: 0 <= i <= 4 - size ==> text[i] != '['
    ensures var p := Payload(cfg, s, token, size, text).0;
      p.Stopped? && p.h == s.h && p.result.Failure? && p.result.message == InvalidPayloadTag
    decreases 4 - size
  {
    if text[0] != NUL && size < 4 {
      LongTagsAreRefused(cfg, NextColumn(s), token * 256 + text[0] as int % 256, size + 1, text[1..]);
    }
  }
}
