/** Single-expression mode: one run per expression against one run over everything. */
module SingleExpr {
  import opened LexerSpec

  /** Equal but for the position used in error reports. */
  ghost predicate SameState<H>(a: State<H>, b: State<H>) {
    a.(line := b.line, offset := b.offset) == b
  }

  ghost predicate SameResult(a: LexResult, b: LexResult) {
    a.Success? == b.Success? && (a.Failure? ==> a.message == b.message)
  }

  ghost predicate SameProgress<H>(p: Progress<H>, q: Progress<H>) {
    match p
    case Stopped(h, r) => q.Stopped? && q.h == h && SameResult(r, q.result)
    case Running(s) => q.Running? && SameState(s, q.s)
    case AtComment(s) => q.AtComment? && SameState(s, q.s)
    case AtPayload(s) => q.AtPayload? && SameState(s, q.s)
  }

  ghost predicate SameLexed<H>(a: Lexed<H>, b: Lexed<H>) {
    a.h == b.h && a.rest == b.rest && SameResult(a.result, b.result)
  }

  lemma SameFinalize<H>(cfg: Setup<H>, a: State<H>, b: State<H>)
    requires SameState(a, b)
    ensures SameState(Finalize(cfg, a).0, Finalize(cfg, b).0)
    ensures SameResult(Finalize(cfg, a).1, Finalize(cfg, b).1)
  {
  }

  lemma SameClose<H>(cfg: Setup<H>, single: bool, a: State<H>, b: State<H>)
    requires SameState(a, b)
    ensures SameProgress(CloseGroup(cfg, single, a), CloseGroup(cfg, single, b))
  {
    SameFinalize(cfg, a, b);
  }

  lemma SameInText<H>(cfg: Setup<H>, single: bool, a: State<H>, b: State<H>, c: char)
    requires SameState(a, b)
    ensures SameProgress(InText(cfg, single, a, c), InText(cfg, single, b, c))
  {
    if c == ')' {
      SameClose(cfg, single, a, b);
    } else if c == '\n' {
      SameFinalize(cfg, NewLine(a), NewLine(b));
    } else {
      SameFinalize(cfg, a, b);
    }
  }

  lemma SameFeed<H>(cfg: Setup<H>, single: bool, a: State<H>, b: State<H>, c: char)
    requires SameState(a, b)
    ensures SameProgress(Feed(cfg, single, a, c), Feed(cfg, single, b, c))
  {
    SameInText(cfg, single, NextColumn(a).(escaped := false), NextColumn(b).(escaped := false), c);
  }

  lemma {:induction false} SameComment<H>(a: State<H>, b: State<H>, text: string)
    requires SameState(a, b)
    ensures var (a1, rest) := SkipComment(a, text);
            SameState(a1, SkipComment(b, text).0) && rest == SkipComment(b, text).1
    decreases |text|
  {
    if text != "" {
      SameComment(Grow(NextColumn(a), text[0]), Grow(NextColumn(b), text[0]), text[1..]);
    }
  }

  lemma {:induction false} SamePayload<H>(cfg: Setup<H>, a: State<H>, b: State<H>, token: nat, size: nat, text: string)
    requires SameState(a, b)
    ensures var (p, rest) := Payload(cfg, a, token, size, text);
            SameProgress(p, Payload(cfg, b, token, size, text).0) && rest == Payload(cfg, b, token, size, text).1
    decreases |text|
  {
    if text != "" {
      SamePayload(cfg, NextColumn(a), NextColumn(b), token * 256 + text[0] as int % 256, size + 1, text[1..]);
    }
  }

  /** Where a text stands changes nothing but the position of an error. */
  lemma {:induction false} PositionIrrelevant<H>(cfg: Setup<H>, single: bool, a: State<H>, b: State<H>, text: string)
    requires SameState(a, b)
    ensures SameLexed(Lex(cfg, single, a, text), Lex(cfg, single, b, text))
    decreases |text|
  {
    if text != "" {
      var p, q, rest := Feed(cfg, single, a, text[0]), Feed(cfg, single, b, text[0]), text[1..];
      SameFeed(cfg, single, a, b, text[0]);
      match p {
        case Stopped(_, _) =>
        case Running(s) => PositionIrrelevant(cfg, single, s, q.s, rest);
        case AtComment(s) =>
          SameComment(s, q.s, rest);
          CommentShrinks(s, rest);
          PositionIrrelevant(cfg, single, SkipComment(s, rest).0, SkipComment(q.s, rest).0, SkipComment(s, rest).1);
        case AtPayload(s) =>
          SamePayload(cfg, s, q.s, 0, 0, rest);
          PayloadShrinks(cfg, s, 0, 0, rest);
          var p2, q2 := Payload(cfg, s, 0, 0, rest).0, Payload(cfg, q.s, 0, 0, rest).0;
          if p2.Running? {
            PositionIrrelevant(cfg, single, p2.s, q2.s, Payload(cfg, s, 0, 0, rest).1);
          }
      }
    }
  }

  /** Depth is never negative, and an escape seen belongs to a string literal still open. */
  ghost predicate Sound<H>(s: State<H>) {
    s.depth >= 0 && (s.wasEscaped || s.escaped ==> s.termType.StrTerm?) && (s.termType != ValueTerm ==> s.term.Some?)
  }

  ghost predicate SoundProgress<H>(p: Progress<H>) {
    match p
    case Stopped(_, _) => true
    case Running(s) => Sound(s)
    case AtComment(s) => Sound(s) && !s.termType.StrTerm?
    case AtPayload(s) => Sound(s) && !s.termType.StrTerm?
  }

  lemma FinalizeKeepsSound<H>(cfg: Setup<H>, s: State<H>)
    requires Sound(s) && !s.escaped
    ensures var (s1, r) := Finalize(cfg, s);
            Sound(s1) && s1.depth == s.depth && (r.Success? ==> s1.term.None? && !s1.termType.StrTerm?)
  {
  }

  lemma FeedKeepsSound<H>(cfg: Setup<H>, single: bool, s: State<H>, c: char)
    requires Sound(s)
    ensures SoundProgress(Feed(cfg, single, s, c))
  {
    var calm := NextColumn(s).(escaped := false);
    if s.termType.StrTerm? && (c != '\"' || s.escaped) {
      assert c != NUL ==> Feed(cfg, single, s, c) == Running(InString(calm, c, s.escaped));
    } else {
      InTextKeepsSound(cfg, single, calm, c);
    }
  }

  lemma InTextKeepsSound<H>(cfg: Setup<H>, single: bool, s: State<H>, c: char)
    requires Sound(s) && !s.escaped && (s.termType.StrTerm? ==> c == '\"')
    ensures SoundProgress(InText(cfg, single, s, c))
  {
    FinalizeKeepsSound(cfg, s);
    FinalizeKeepsSound(cfg, NewLine(s));
  }

  lemma {:induction false} CommentKeepsSound<H>(s: State<H>, text: string)
    requires Sound(s)
    ensures Sound(SkipComment(s, text).0)
    decreases |text|
  {
    if text != "" {
      CommentKeepsSound(Grow(NextColumn(s), text[0]), text[1..]);
    }
  }

  lemma {:induction false} PayloadKeepsSound<H>(cfg: Setup<H>, s: State<H>, token: nat, size: nat, text: string)
    requires Sound(s) && !s.termType.StrTerm?
    ensures SoundProgress(Payload(cfg, s, token, size, text).0)
    decreases |text|
  {
    if text != "" {
      PayloadKeepsSound(cfg, NextColumn(s), token * 256 + text[0] as int % 256, size + 1, text[1..]);
    }
  }

  /** A single-expression step differs from an ordinary one only by stopping, with success,
      where the ordinary machine is back in its starting state. */
  lemma SingleStep<H>(cfg: Setup<H>, s: State<H>, c: char)
    requires Sound(s) && c != NUL
    ensures var p, q := Feed(cfg, true, s, c), Feed(cfg, false, s, c);
            p == q || (p.Stopped? && p.result.Success? && q.Running? && SameState(q.s, Start(p.h)))
    ensures Feed(cfg, false, s, c).Stopped? ==> Feed(cfg, false, s, c).result.Failure?
  {
  }

  lemma CommentSuffix<H>(s: State<H>, text: string)
    requires NUL !in text
    ensures NUL !in SkipComment(s, text).1
    decreases |text|
  {
  }

  lemma PayloadSuffix<H>(cfg: Setup<H>, s: State<H>, token: nat, size: nat, text: string)
    requires NUL !in text
    ensures NUL !in Payload(cfg, s, token, size, text).1
    decreases |text|
  {
  }

  /** One single-expression run, continued by an ordinary run on what it left,
      amounts to one ordinary run. */
  lemma {:induction false} SingleThenRest<H>(cfg: Setup<H>, s: State<H>, text: string)
    requires Sound(s) && NUL !in text
    ensures var o, whole := Lex(cfg, true, s, text), Lex(cfg, false, s, text);
            && NUL !in o.rest && |o.rest| <= |text| && (text != "" ==> |o.rest| < |text|)
            && (o.result.Failure? ==> whole == o)
            && (o.result.Success? ==> SameLexed(whole, Lex(cfg, false, Start(o.h), o.rest)))
    decreases |text|
  {
    if text != "" {
      var p, q, rest := Feed(cfg, true, s, text[0]), Feed(cfg, false, s, text[0]), text[1..];
      SingleStep(cfg, s, text[0]);
      FeedKeepsSound(cfg, true, s, text[0]);
      if p != q {
        PositionIrrelevant(cfg, false, q.s, Start(p.h), rest);
      } else {
        match p {
          case Stopped(_, _) =>
          case Running(s1) => SingleThenRest(cfg, s1, rest);
          case AtComment(s1) =>
            CommentKeepsSound(s1, rest);
            CommentShrinks(s1, rest);
            CommentSuffix(s1, rest);
            SingleThenRest(cfg, SkipComment(s1, rest).0, SkipComment(s1, rest).1);
          case AtPayload(s1) =>
            PayloadKeepsSound(cfg, s1, 0, 0, rest);
            PayloadShrinks(cfg, s1, 0, 0, rest);
            PayloadSuffix(cfg, s1, 0, 0, rest);
            var p2 := Payload(cfg, s1, 0, 0, rest).0;
            if p2.Running? {
              SingleThenRest(cfg, p2.s, Payload(cfg, s1, 0, 0, rest).1);
            }
        }
      }
    }
  }

  /** Single-expression runs one after another on the same stream, until one fails or the data ends. */
  function Repeated<H>(cfg: Setup<H>, h: H, text: string): Lexed<H>
    decreases |text|
  {
    var o := Lex(cfg, true, Start(h), text);
    if o.result.Failure? || o.rest == "" || |o.rest| >= |text| then o else Repeated(cfg, o.h, o.rest)
  }

  /** Repeated single-expression runs deliver what one run over the whole text delivers: the same
      final handler state, the same verdict and message, the same text left over. */
  lemma {:induction false} RepeatedIsWhole<H>(cfg: Setup<H>, h: H, text: string)
    requires NUL !in text
    ensures SameLexed(Repeated(cfg, h, text), Lex(cfg, false, Start(h), text))
    decreases |text|
  {
    var o := Lex(cfg, true, Start(h), text);
    SingleThenRest(cfg, Start(h), text);
    if o.result.Success? && o.rest != "" {
      RepeatedIsWhole(cfg, o.h, o.rest);
    }
  }

  // ---- Where a single-expression run stops ----

  /** An ordinary step that brings the nesting depth back to zero. */
  ghost predicate Balances<H>(s: State<H>, p: Progress<H>) {
    p.Running? && s.depth == 1 && p.s.depth == 0
  }

  /** The ordinary machine first comes back to depth zero right before `rest`. */
  ghost predicate BalancesAt<H>(cfg: Setup<H>, s: State<H>, text: string, rest: string)
    decreases |text|
  {
    text != "" &&
    var p, tail := Feed(cfg, false, s, text[0]), text[1..];
    if Balances(s, p) then rest == tail
    else
      match p
      case Stopped(_, _) => false
      case Running(s1) => BalancesAt(cfg, s1, tail, rest)
      case AtComment(s1) =>
        CommentShrinks(s1, tail);
        BalancesAt(cfg, SkipComment(s1, tail).0, SkipComment(s1, tail).1, rest)
      case AtPayload(s1) =>
        PayloadShrinks(cfg, s1, 0, 0, tail);
        var p2 := Payload(cfg, s1, 0, 0, tail).0;
        p2.Running? && BalancesAt(cfg, p2.s, Payload(cfg, s1, 0, 0, tail).1, rest)
  }

  /** The single-expression step differs from the ordinary one exactly where that comes back to depth zero,
      which only a closing parenthesis does. */
  lemma StopsWhenBalanced<H>(cfg: Setup<H>, s: State<H>, c: char)
    requires Sound(s) && c != NUL
    ensures var p, q := Feed(cfg, true, s, c), Feed(cfg, false, s, c);
            && (Balances(s, q) <==> p != q)
            && (Balances(s, q) ==> c == ')' && p == Stopped(q.s.h, Success))
  {
  }

  /** A single-expression run that succeeds before the end of the text has stopped exactly where the
      ordinary machine first comes back to depth zero, and it stops there whenever there is such a place. */
  lemma {:induction false} StopsAtBalance<H>(cfg: Setup<H>, s: State<H>, text: string, rest: string)
    requires Sound(s) && NUL !in text
    ensures var o := Lex(cfg, true, s, text);
            && (BalancesAt(cfg, s, text, rest) ==> o.result.Success? && o.rest == rest)
            && (o.result.Success? && o.rest == rest != "" ==> BalancesAt(cfg, s, text, rest))
    decreases |text|
  {
    if text != "" {
      var p, q, tail := Feed(cfg, true, s, text[0]), Feed(cfg, false, s, text[0]), text[1..];
      StopsWhenBalanced(cfg, s, text[0]);
      SingleStep(cfg, s, text[0]);
      FeedKeepsSound(cfg, true, s, text[0]);
      if p == q {
        match p {
          case Stopped(_, _) =>
          case Running(s1) => StopsAtBalance(cfg, s1, tail, rest);
          case AtComment(s1) =>
            CommentKeepsSound(s1, tail);
            CommentShrinks(s1, tail);
            CommentSuffix(s1, tail);
            StopsAtBalance(cfg, SkipComment(s1, tail).0, SkipComment(s1, tail).1, rest);
          case AtPayload(s1) =>
            PayloadKeepsSound(cfg, s1, 0, 0, tail);
            PayloadShrinks(cfg, s1, 0, 0, tail);
            PayloadSuffix(cfg, s1, 0, 0, tail);
            var p2 := Payload(cfg, s1, 0, 0, tail).0;
            if p2.Running? {
              StopsAtBalance(cfg, p2.s, Payload(cfg, s1, 0, 0, tail).1, rest);
            }
        }
      }
    }
  }

  lemma {:induction false} CommentTail<H>(s: State<H>, text: string)
    ensures |SkipComment(s, text).1| <= |text| && SkipComment(s, text).1 == text[|text| - |SkipComment(s, text).1|..]
    decreases |text|
  {
    if text != "" && text[0] != NUL && text[0] != '\n' {
      CommentTail(Grow(NextColumn(s), text[0]), text[1..]);
    }
  }

  lemma {:induction false} PayloadTail<H>(cfg: Setup<H>, s: State<H>, token: nat, size: nat, text: string)
    ensures var rest := Payload(cfg, s, token, size, text).1; |rest| <= |text| && rest == text[|text| - |rest|..]
    decreases |text|
  {
    if text != "" && text[0] != '[' && text[0] != NUL && size < 4 {
      PayloadTail(cfg, NextColumn(s), token * 256 + text[0] as int % 256, size + 1, text[1..]);
    }
  }

  /** What was consumed is a prefix of the text that ends in a closing parenthesis. */
  lemma {:induction false} BalanceEndsInParenthesis<H>(cfg: Setup<H>, s: State<H>, text: string, rest: string)
    requires Sound(s) && NUL !in text && BalancesAt(cfg, s, text, rest)
    ensures |rest| < |text| && text[|text| - |rest| - 1] == ')' && text[|text| - |rest|..] == rest
    decreases |text|
  {
    var q, tail := Feed(cfg, false, s, text[0]), text[1..];
    StopsWhenBalanced(cfg, s, text[0]);
    FeedKeepsSound(cfg, false, s, text[0]);
    if !Balances(s, q) {
      match q {
        case Running(s1) => BalanceEndsInParenthesis(cfg, s1, tail, rest);
        case AtComment(s1) =>
          CommentKeepsSound(s1, tail);
          CommentShrinks(s1, tail);
          CommentSuffix(s1, tail);
          CommentTail(s1, tail);
          BalanceEndsInParenthesis(cfg, SkipComment(s1, tail).0, SkipComment(s1, tail).1, rest);
        case AtPayload(s1) =>
          PayloadKeepsSound(cfg, s1, 0, 0, tail);
          PayloadShrinks(cfg, s1, 0, 0, tail);
          PayloadSuffix(cfg, s1, 0, 0, tail);
          PayloadTail(cfg, s1, 0, 0, tail);
          BalanceEndsInParenthesis(cfg, Payload(cfg, s1, 0, 0, tail).0.s, Payload(cfg, s1, 0, 0, tail).1, rest);
      }
    }
  }
}
