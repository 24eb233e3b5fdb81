/** slang/lexer.h over a refillable buffer: terms may straddle chunks, and string literals
    are unescaped in place. Every run is proved equal to the buffer-free machine. */
module Lexer {
  import opened Common
  import opened Slang
  import opened LexerSpec
  import opened Stream

  /** Compacts buf[begin..end] in place; writing never overtakes reading. */
  method ParseString(buf: array<char>, begin: nat, end: nat, wasEscaped: bool) returns (outEnd: nat)
    requires begin <= end <= buf.Length
    modifies buf
    ensures begin <= outEnd <= end
    ensures buf[begin..outEnd] == if wasEscaped then Unescape(old(buf[begin..end]), false) else old(buf[begin..end])
    ensures buf[..begin] == old(buf[..begin]) && buf[end..] == old(buf[end..])
  {
    if !wasEscaped {
      return end;
    }
    var escaped := false;
    outEnd := begin;
    var cur := begin;
    ghost var all := buf[..];
    while cur != end
      invariant begin <= outEnd <= cur <= end
      invariant buf[begin..outEnd] + Unescape(all[cur..end], escaped) == Unescape(all[begin..end], false)
      invariant buf[..begin] == all[..begin] && buf[cur..] == all[cur..]
    {
      var ch := buf[cur];
      assert all[cur] == all[cur..][0] == ch;
      assert all[cur..end] == [ch] + all[cur + 1..end];
      assert buf[cur..][1..] == buf[cur + 1..] == all[cur + 1..];
      cur := cur + 1;
      if ch == '\\' && !escaped {
        escaped := true;
        continue;
      }
      escaped := false;
      ghost var done := buf[begin..outEnd];
      buf[outEnd] := ch;
      outEnd := outEnd + 1;
      assert buf[begin..outEnd] == done + [ch];
    }
  }

  /** Equal tails have equal slices. */
  lemma TailSlice(a: string, b: string, last: nat, begin: nat, end: nat)
    requires |a| == |b| && last <= begin <= end <= |a| && a[last..] == b[last..]
    ensures a[begin..end] == b[begin..end]
  {
    assert a[last..][begin - last..end - last] == a[begin..end];
    assert b[last..][begin - last..end - last] == b[begin..end];
  }

  class LexerState {
    const reader: StreamReader
    const single: bool
    var line: nat
    var offset: nat
    var depth: int
    var escaped: bool
    var wasEscaped: bool
    var termType: TermType
    /** Start of the open term in the reader's buffer, or -1. */
    var termBegin: int
    /** The part of the open term that earlier chunks held. */
    var termBuf: string

    constructor (reader: StreamReader, single: bool)
      requires reader.Valid()
      ensures this.reader == reader && this.single == single
      ensures Agrees(Start(0)) && TermIs(None, 0)
    {
      this.reader := reader;
      this.single := single;
      line := 1;
      offset := 0;
      depth := 0;
      escaped := false;
      wasEscaped := false;
      termType := ValueTerm;
      termBegin := -1;
      termBuf := "";
    }

    /** The scalar fields agree with a machine state. */
    ghost predicate Agrees<H>(s: State<H>)
      reads this
    {
      && line == s.line && offset == s.offset && depth == s.depth
      && escaped == s.escaped && wasEscaped == s.wasEscaped && termType == s.termType
    }

    /** The open term, read up to a buffer position: saved part, then buffered part. */
    ghost predicate TermIs(term: Option<string>, upTo: nat)
      reads this, reader.readBuf
    {
      if term.None? then termBegin == -1 && termBuf == ""
      else
        && 0 <= termBegin <= upTo <= reader.readBuf.Length
        && term.value == termBuf + reader.readBuf[termBegin..upTo]
    }

    method SaveTerm(termEnd: nat)
      requires termBegin >= 0 ==> termBegin <= termEnd <= reader.readBuf.Length
      modifies this`termBuf, this`termBegin
      ensures termBegin == -1
      ensures termBuf == if old(termBegin) >= 0 then old(termBuf) + reader.readBuf[old(termBegin)..termEnd] else old(termBuf)
    {
      if termBegin >= 0 {
        termBuf := termBuf + reader.readBuf[termBegin..termEnd];
      }
      termBegin := -1;
    }

    method RefillBuffer(ghost term: Option<string>) returns (ok: bool)
      requires reader.Valid() && reader.begin == reader.end
      requires reader.rest != "" ==> TermIs(term, reader.begin)
      requires termBegin <= reader.end
      requires termBegin >= -1
      modifies this`termBuf, this`termBegin, reader, reader.stream, reader.readBuf
      ensures reader.Valid() && reader.rest == old(reader.rest)
      ensures ok == (reader.rest != "")
      ensures ok ==> reader.begin < reader.end && TermIs(term, reader.begin)
      ensures !ok ==> reader.begin == reader.end && termBegin == -1
    {
      assert reader.readBuf[reader.begin..reader.end] == "";
      assert reader.rest == Concat(reader.stream.chunks);
      var hasTerm := termBegin >= 0;
      SaveTerm(reader.end);
      ok := reader.RefillAvailable();
      if ok && hasTerm {
        termBegin := reader.begin;
      }
    }

    /** The next character, or NUL at the end of data. */
    method NextChar(ghost term: Option<string>) returns (c: char)
      requires reader.Valid()
      requires reader.rest != "" ==> TermIs(term, reader.begin)
      requires -1 <= termBegin <= reader.end
      modifies this`termBuf, this`termBegin, this`offset, reader, reader.stream, reader.readBuf
      ensures reader.Valid() && -1 <= termBegin <= reader.end
      ensures old(reader.rest) == "" ==> c == NUL && offset == old(offset) && reader.rest == ""
      ensures old(reader.rest) != "" ==>
                && offset == old(offset) + 1
                && c == old(reader.rest)[0] && reader.rest == old(reader.rest)[1..]
                && reader.begin > 0 && reader.readBuf[reader.begin - 1] == c
                && TermIs(term, reader.begin - 1) && TermIs(Grown(term, c), reader.begin)
    {
      if reader.begin == reader.end {
        var ok := RefillBuffer(term);
        if !ok {
          return NUL;
        }
      }
      offset := offset + 1;
      ghost var text := reader.rest;
      c := reader.ReadAvailableCharUnsafe();
      assert text[1..] == reader.rest;
      GrownTerm(term, c);
    }

    static function Grown(term: Option<string>, c: char): Option<string> {
      if term.None? then None else Some(term.value + [c])
    }

    /** Reading past a character puts it at the end of the open term. */
    lemma GrownTerm(term: Option<string>, c: char)
      requires reader.begin > 0 && TermIs(term, reader.begin - 1)
      requires reader.begin <= reader.readBuf.Length && reader.readBuf[reader.begin - 1] == c
      ensures TermIs(Grown(term, c), reader.begin)
    {
      if term.Some? {
        var b := reader.begin;
        assert reader.readBuf[termBegin..b] == reader.readBuf[termBegin..b - 1] + [c];
      }
    }

    method StartTerm(t: TermType, at: nat)
      modifies this`termType, this`termBegin
      ensures termType == t && termBegin == at
    {
      termType := t;
      termBegin := at;
    }

    method FinishTerm()
      modifies this`termType, this`termBegin, this`termBuf
      ensures termType == ValueTerm && TermIs(None, 0)
    {
      termType := ValueTerm;
      termBegin := -1;
      termBuf := "";
    }

    method NewLine()
      modifies this`line, this`offset
      ensures line == old(line) + 1 && offset == 0
    {
      line := line + 1;
      offset := 0;
    }

    /** The term just ended: either still in the reader's buffer or, once saved, outside it. */
    method Term(ghost text: string) returns (buf: array<char>, first: nat, last: nat)
      requires reader.Valid() && reader.begin > 0 && TermIs(Some(text), reader.begin - 1)
      modifies this`termBuf, this`termBegin
      ensures first <= last <= buf.Length && buf[first..last] == text
      ensures fresh(buf) || (buf == reader.readBuf && last < reader.begin)
    {
      if |termBuf| > 0 {
        SaveTerm(reader.begin - 1);
        buf := new char[|termBuf|](i requires 0 <= i < |termBuf| reads this => termBuf[i]);
        assert buf[..] == termBuf;
        first, last := 0, |termBuf|;
      } else {
        buf, first, last := reader.readBuf, termBegin, reader.begin - 1;
      }
    }

    function Fail(message: Message): LexResult
      reads this
    {
      Failure(line, offset, message)
    }
  }

  class Lexer<H> {
    const cfg: Setup<H>
    var h: H

    constructor (cfg: Setup<H>, h: H)
      ensures this.cfg == cfg && this.h == h
    {
      this.cfg := cfg;
      this.h := h;
    }

    /** Hands one event to the handler. */
    method Tell(state: LexerState, event: Event, ghost s: State<H>) returns (r: LexResult)
      requires s.h == h && state.line == s.line && state.offset == s.offset
      modifies this
      ensures (s.(h := h), r) == Report(cfg, s, event)
    {
      var answer := cfg.handler(h, event);
      h := answer.state;
      r := if answer.error.Some? then state.Fail(ErrorMessage(event, answer.error.value)) else Success;
    }

    /** Unescapes a string literal where it lies and reports it. */
    method TellString(state: LexerState, buf: array<char>, first: nat, last: nat, ghost s: State<H>) returns (r: LexResult)
      requires state.reader.Valid() && first <= last <= buf.Length
      requires buf == state.reader.readBuf ==> last < state.reader.begin
      requires s.h == h && state.Agrees(s)
      modifies this, buf, state`wasEscaped
      ensures state.reader.Valid() && state.reader.rest == old(state.reader.rest)
      ensures var text := old(buf[first..last]);
              (s.(h := h), r) == Report(cfg, s, StrValue(if s.wasEscaped then Unescape(text, false) else text))
      ensures state.Agrees(s.(wasEscaped := false))
    {
      ghost var before := buf[..];
      var lastOut := ParseString(buf, first, last, state.wasEscaped);
      if buf == state.reader.readBuf {
        assert before[last..] == old(buf[last..]) == buf[..][last..];
        TailSlice(before, buf[..], last, state.reader.begin, state.reader.end);
        assert buf[..][state.reader.begin..state.reader.end] == buf[state.reader.begin..state.reader.end];
        assert before[state.reader.begin..state.reader.end] == old(buf[state.reader.begin..state.reader.end]);
      }
      r := Tell(state, StrValue(buf[first..lastOut]), s);
      state.wasEscaped := false;
    }

    /** Reports the term that has ended, by its kind. */
    method TellTerm(state: LexerState, buf: array<char>, first: nat, last: nat, ghost s: State<H>) returns (r: LexResult)
      requires state.reader.Valid() && first <= last <= buf.Length
      requires buf == state.reader.readBuf ==> last < state.reader.begin
      requires s.h == h && state.Agrees(s)
      requires s.term == Some(buf[first..last]) && s.depth > 0
      modifies this, buf, state`wasEscaped
      ensures state.reader.Valid() && state.reader.rest == old(state.reader.rest)
      ensures h == Finalize(cfg, s).0.h && r == Finalize(cfg, s).1
      ensures state.wasEscaped == Finalize(cfg, s).0.wasEscaped
    {
      r := Success;
      if state.termType.OpTerm? {
        var name := buf[first..last];
        if first == last {
        } else if !IsOpName(name) {
          r := state.Fail(InvalidOpName(name));
        } else {
          r := Tell(state, BeginOp(name), s);
        }
      } else if state.termType.ValueTerm? {
        if first < last {
          r := Tell(state, ValueEvent(cfg, buf[first..last]), s);
        }
      } else {
        r := TellString(state, buf, first, last, s);
      }
    }

    method FinalizeTerm(state: LexerState, ghost s: State<H>) returns (r: LexResult)
      requires state.reader.Valid() && state.reader.begin > 0
      requires s.h == h && state.Agrees(s) && state.TermIs(s.term, state.reader.begin - 1)
      modifies this, state`wasEscaped, state`termType, state`termBegin, state`termBuf, state.reader.readBuf
      ensures state.reader.Valid() && state.reader.rest == old(state.reader.rest)
      ensures h == Finalize(cfg, s).0.h && r == Finalize(cfg, s).1
      ensures state.Agrees(Finalize(cfg, s).0)
      ensures r.Success? ==> state.TermIs(None, 0)
    {
      if state.termBegin < 0 {
        return Success;
      }
      if state.depth <= 0 {
        return state.Fail(ExpectedOpeningBracket);
      }
      var buf, first, last := state.Term(s.term.value);
      r := TellTerm(state, buf, first, last, s);
      state.FinishTerm();
    }

    /** The object stands for machine state `s`, its open term read up to `upTo`. */
    ghost predicate StandsFor(state: LexerState, s: State<H>, upTo: nat)
      reads this, state, state.reader, state.reader.stream, state.reader.readBuf
    {
      && state.reader.Valid() && -1 <= state.termBegin <= state.reader.end
      && s.h == h && state.Agrees(s)
      && state.TermIs(s.term, upTo)
    }

    /** The same, where the buffers hold a term that matters only while characters remain. */
    ghost predicate Buffered(state: LexerState, s: State<H>, held: Option<string>)
      reads this, state, state.reader, state.reader.stream, state.reader.readBuf
    {
      && state.reader.Valid() && -1 <= state.termBegin <= state.reader.end
      && s.h == h && state.Agrees(s)
      && (state.reader.rest != "" ==> state.TermIs(held, state.reader.begin))
    }

    /** The object has reached what the machine has reached. */
    ghost predicate Reached(state: LexerState, p: Progress<H>, r: LexResult)
      reads this, state, state.reader, state.reader.stream, state.reader.readBuf
    {
      && state.reader.Valid()
      && if p.Stopped? then p == Stopped(h, r) else r.Success? && StandsFor(state, p.s, state.reader.begin)
    }

    method OpenGroup(state: LexerState, ghost s: State<H>) returns (r: LexResult)
      requires state.reader.begin > 0 && StandsFor(state, s, state.reader.begin - 1)
      modifies this, state, state.reader.readBuf
      ensures state.reader.Valid() && state.reader.rest == old(state.reader.rest)
      ensures Reached(state, InText(cfg, state.single, s, '('), r)
    {
      r := FinalizeTerm(state, s);
      state.depth := state.depth + 1;
      state.StartTerm(OpTerm, state.reader.begin);
    }

    method CloseGroup(state: LexerState, ghost s: State<H>) returns (r: LexResult, stop: bool)
      requires state.reader.begin > 0 && StandsFor(state, s, state.reader.begin - 1)
      modifies this, state, state.reader.readBuf
      ensures state.reader.Valid() && state.reader.rest == old(state.reader.rest)
      ensures var p := LexerSpec.CloseGroup(cfg, state.single, s);
              Reached(state, p, r) && (stop || r.Failure? <==> p.Stopped?)
    {
      stop := false;
      r := FinalizeTerm(state, s);
      if r.Success? {
        r := Tell(state, EndOp, Finalize(cfg, s).0);
      }
      state.depth := state.depth - 1;
      if state.depth < 0 {
        return state.Fail(RedundantClosing), true;
      }
      if state.single && r.Success? && state.depth == 0 {
        return Success, true;
      }
    }

    method Quote(state: LexerState, ghost s: State<H>) returns (r: LexResult)
      requires state.reader.begin > 0 && StandsFor(state, s, state.reader.begin - 1)
      modifies this, state, state.reader.readBuf
      ensures state.reader.Valid() && state.reader.rest == old(state.reader.rest)
      ensures Reached(state, InText(cfg, state.single, s, '\"'), r)
    {
      if state.termType.StrTerm? {
        r := FinalizeTerm(state, s);
      } else {
        r := FinalizeTerm(state, s);
        if r.Success? {
          state.StartTerm(StrTerm, state.reader.begin);
        }
      }
    }

    method Space(state: LexerState, c: char, ghost s: State<H>) returns (r: LexResult)
      requires state.reader.begin > 0 && StandsFor(state, s, state.reader.begin - 1)
      requires c == '\n' || c == ' ' || c == '\t' || c == '\r'
      modifies this, state, state.reader.readBuf
      ensures state.reader.Valid() && state.reader.rest == old(state.reader.rest)
      ensures Reached(state, InText(cfg, state.single, s, c), r)
    {
      if c == '\n' {
        state.NewLine();
        r := FinalizeTerm(state, NewLine(s));
      } else {
        r := FinalizeTerm(state, s);
      }
    }

    method TermChar(state: LexerState, c: char, ghost s: State<H>)
      requires state.reader.begin > 0 && StandsFor(state, s, state.reader.begin - 1)
      requires state.reader.readBuf[state.reader.begin - 1] == c
      requires c !in "()\"!;\n \t\r"
      modifies state`termType, state`termBegin
      ensures Reached(state, InText(cfg, state.single, s, c), Success)
    {
      state.GrownTerm(s.term, c);
      if state.termBegin < 0 {
        state.StartTerm(ValueTerm, state.reader.begin - 1);
        assert state.reader.readBuf[state.reader.begin - 1..state.reader.begin] == [c];
      }
    }

    method StringChar(state: LexerState, c: char, curEscaped: bool, ghost s: State<H>)
      requires state.reader.begin > 0 && StandsFor(state, s, state.reader.begin - 1)
      requires state.reader.readBuf[state.reader.begin - 1] == c && !s.escaped
      modifies state`escaped, state`wasEscaped, state`line, state`offset
      ensures StandsFor(state, InString(s, c, curEscaped), state.reader.begin)
    {
      state.GrownTerm(s.term, c);
      if c == '\\' && !curEscaped {
        state.escaped := true;
        state.wasEscaped := true;
      }
      if c == '\n' {
        state.NewLine();
      }
    }

    /** Skips to the end of the line; the open term, if any, takes the comment in. */
    method SkipComment(state: LexerState, ghost s0: State<H>) returns (ghost s: State<H>)
      requires StandsFor(state, s0, state.reader.begin)
      modifies state`termBuf, state`termBegin, state`line, state`offset, state.reader, state.reader.stream, state.reader.readBuf
      ensures Buffered(state, s, s.term)
      ensures (s, state.reader.rest) == LexerSpec.SkipComment(s0, old(state.reader.rest))
    {
      s := s0;
      ghost var all := state.reader.rest;
      while true
        invariant StandsFor(state, s, state.reader.begin)
        invariant LexerSpec.SkipComment(s, state.reader.rest) == LexerSpec.SkipComment(s0, all)
        decreases |state.reader.rest|
      {
        var done;
        done, s := CommentChar(state, s);
        if done {
          return;
        }
      }
    }

    /** Reads a character that the switch does not see; an open term takes it in. */
    method NextHeld(state: LexerState, ghost s0: State<H>, ghost held0: Option<string>)
        returns (c: char, ghost s: State<H>, ghost held: Option<string>)
      requires Buffered(state, s0, held0)
      modifies state`termBuf, state`termBegin, state`offset, state.reader, state.reader.stream, state.reader.readBuf
      ensures Buffered(state, s, held)
      ensures if old(state.reader.rest) == "" then c == NUL && s == s0 && held == held0 && state.reader.rest == ""
              else
                && c == old(state.reader.rest)[0] && state.reader.rest == old(state.reader.rest)[1..]
                && s == NextColumn(s0) && held == state.Grown(held0, c) && state.TermIs(held, state.reader.begin)
    {
      s, held := s0, held0;
      ghost var text := state.reader.rest;
      c := state.NextChar(held);
      if text != "" {
        held := state.Grown(held, c);
        s := NextColumn(s);
      }
    }

    /** One character of a comment. */
    method CommentChar(state: LexerState, ghost s0: State<H>) returns (done: bool, ghost s: State<H>)
      requires StandsFor(state, s0, state.reader.begin)
      modifies state`termBuf, state`termBegin, state`line, state`offset, state.reader, state.reader.stream, state.reader.readBuf
      ensures done ==> Buffered(state, s, s.term) && (s, state.reader.rest) == LexerSpec.SkipComment(s0, old(state.reader.rest))
      ensures !done ==>
        && StandsFor(state, s, state.reader.begin) && |state.reader.rest| < old(|state.reader.rest|)
        && LexerSpec.SkipComment(s, state.reader.rest) == LexerSpec.SkipComment(s0, old(state.reader.rest))
    {
      var c;
      ghost var held;
      c, s, held := NextHeld(state, s0, s0.term);
      s := s.(term := held);
      done := c == NUL || c == '\n';
      if done {
        state.NewLine();
        s := NewLine(s);
      }
    }

    /** Reads a payload tag; `held` is what the buffers hold of an open term meanwhile. */
    method ReadTag(state: LexerState, ghost s0: State<H>)
        returns (token: nat, last: char, ghost s: State<H>, ghost held: Option<string>)
      requires StandsFor(state, s0, state.reader.begin)
      modifies state`termBuf, state`termBegin, state`offset, state.reader, state.reader.stream, state.reader.readBuf
      ensures Buffered(state, s, held)
      ensures Payload(cfg, s0, 0, 0, old(state.reader.rest))
           == if last != '[' then (Stopped(h, Fail(s, InvalidPayloadTag)), state.reader.rest)
              else
                var (s1, answer) := Report(cfg, s, CustomData(token));
                ClosePayload(s1, answer, state.reader.rest)
    {
      s, held := s0, s0.term;
      ghost var all := state.reader.rest;
      token, last := 0, NUL;
      var size: nat := 0;
      while true
        invariant Buffered(state, s, held) && state.TermIs(held, state.reader.begin)
        invariant Payload(cfg, s, token, size, state.reader.rest) == Payload(cfg, s0, 0, 0, all)
        decreases |state.reader.rest|
      {
        last, s, held := NextHeld(state, s, held);
        if last == NUL || last == '[' || size >= 4 {
          return;
        }
        token := token * 256 + last as int % 256;
        size := size + 1;
      }
    }

    /** Reads the closing bracket after the handler's answer. */
    method ReadClose(state: LexerState, answer: LexResult, ghost s: State<H>, ghost held: Option<string>)
        returns (r: LexResult, ghost p: Progress<H>)
      requires Buffered(state, s, held)
      modifies state, state.reader, state.reader.stream, state.reader.readBuf
      ensures Reached(state, p, r) && (p, state.reader.rest) == ClosePayload(s, answer, old(state.reader.rest))
    {
      p := ClosePayload(s, answer, state.reader.rest).0;
      r := answer;
      var close := state.NextChar(held);
      if close != ']' {
        r := state.Fail(PayloadNotClosed);
      }
      state.FinishTerm();
    }

    method ReadPayload(state: LexerState, ghost s0: State<H>) returns (r: LexResult, ghost p: Progress<H>)
      requires StandsFor(state, s0, state.reader.begin)
      modifies this, state, state.reader, state.reader.stream, state.reader.readBuf
      ensures Reached(state, p, r) && (p.Running? || (p.Stopped? && r.Failure?))
      ensures (p, state.reader.rest) == Payload(cfg, s0, 0, 0, old(state.reader.rest))
    {
      PayloadShrinks(cfg, s0, 0, 0, state.reader.rest);
      var token, last;
      ghost var s, held;
      token, last, s, held := ReadTag(state, s0);
      if last == '[' {
        var answer := Tell(state, CustomData(token), s);
        r, p := ReadClose(state, answer, s.(h := h), held);
      } else {
        r, p := RefuseTag(state, s);
      }
    }

    method RefuseTag(state: LexerState, ghost s: State<H>) returns (r: LexResult, ghost p: Progress<H>)
      requires state.reader.Valid() && s.h == h && state.Agrees(s)
      modifies state
      ensures Reached(state, p, r) && r.Failure?
      ensures p == Stopped(h, Fail(s, InvalidPayloadTag))
    {
      r := state.Fail(InvalidPayloadTag);
      p := Stopped(h, r);
      state.FinishTerm();
    }

    /** The switch on a character outside strings, comments and payloads. */
    method Switch(state: LexerState, c: char, ghost s: State<H>) returns (r: LexResult, stop: bool)
      requires state.reader.begin > 0 && StandsFor(state, s, state.reader.begin - 1)
      requires state.reader.readBuf[state.reader.begin - 1] == c
      requires c != ';' && c != '!'
      modifies this, state, state.reader.readBuf
      ensures state.reader.Valid() && state.reader.rest == old(state.reader.rest)
      ensures var p := InText(cfg, state.single, s, c);
              !p.AtComment? && !p.AtPayload? && Reached(state, p, r) && (stop || r.Failure? <==> p.Stopped?)
    {
      stop := false;
      match c
      case '(' => r := OpenGroup(state, s);
      case ')' => r, stop := CloseGroup(state, s);
      case '\"' => r := Quote(state, s);
      case _ =>
        if c == '\n' || c == ' ' || c == '\t' || c == '\r' {
          r := Space(state, c, s);
        } else {
          TermChar(state, c, s);
          r := Success;
        }
    }

    /** The two cases that read further characters by themselves. */
    method Detour(state: LexerState, c: char, ghost s0: State<H>) returns (r: LexResult, ghost s: State<H>)
      requires state.reader.begin > 0 && StandsFor(state, s0, state.reader.begin - 1)
      requires state.reader.readBuf[state.reader.begin - 1] == c && (c == ';' || c == '!')
      modifies this, state, state.reader, state.reader.stream, state.reader.readBuf
      ensures state.reader.Valid() && |state.reader.rest| <= old(|state.reader.rest|)
      ensures Resume(cfg, state.single, InText(cfg, state.single, s0, c), old(state.reader.rest))
           == if r.Failure? then Lexed(h, r, state.reader.rest) else Lex(cfg, state.single, s, state.reader.rest)
      ensures r.Success? ==> Buffered(state, s, s.term)
    {
      r, s := Success, s0;
      state.GrownTerm(s0.term, c);
      if c == ';' {
        CommentShrinks(Grow(s0, c), state.reader.rest);
        s := SkipComment(state, Grow(s0, c));
      } else {
        PayloadShrinks(cfg, Grow(s0, c), 0, 0, state.reader.rest);
        ghost var p;
        r, p := ReadPayload(state, Grow(s0, c));
        s := if p.Running? then p.s else s0;
      }
    }

    /** The body of the character loop, after a character other than NUL. */
    method Step(state: LexerState, c: char, ghost s0: State<H>) returns (r: LexResult, stop: bool, ghost s: State<H>)
      requires state.reader.begin > 0 && StandsFor(state, NextColumn(s0), state.reader.begin - 1)
      requires state.reader.readBuf[state.reader.begin - 1] == c && c != NUL
      modifies this, state, state.reader, state.reader.stream, state.reader.readBuf
      ensures state.reader.Valid() && |state.reader.rest| <= old(|state.reader.rest|)
      ensures Resume(cfg, state.single, Feed(cfg, state.single, s0, c), old(state.reader.rest))
           == if stop then Lexed(h, r, state.reader.rest) else Lex(cfg, state.single, s, state.reader.rest)
      ensures !stop ==> Buffered(state, s, s.term)
    {
      r, stop, s := Success, false, s0;
      var curEscaped := state.escaped;
      state.escaped := false;
      ghost var calm := NextColumn(s0).(escaped := false);
      if state.termType.StrTerm? && (c != '\"' || curEscaped) {
        StringChar(state, c, curEscaped, calm);
        s := InString(calm, c, curEscaped);
      } else if c == ';' || c == '!' {
        r, s := Detour(state, c, calm);
        stop := r.Failure?;
      } else {
        r, stop := Switch(state, c, calm);
        stop := stop || r.Failure?;
        ghost var p := InText(cfg, state.single, calm, c);
        s := if p.Running? then p.s else s0;
      }
    }

    /** One turn of the character loop; c is NUL when the loop is over. */
    method Turn(state: LexerState, ghost s0: State<H>) returns (c: char, stop: bool, r: LexResult, ghost s: State<H>)
      requires Buffered(state, s0, s0.term)
      modifies this, state, state.reader, state.reader.stream, state.reader.readBuf
      ensures state.reader.Valid()
      ensures c != NUL ==> |state.reader.rest| < old(|state.reader.rest|)
      ensures var goal := Lex(cfg, state.single, s0, old(state.reader.rest));
        if c == NUL then !stop && state.Agrees(s) && goal == Lexed(h, AtEnd(s), state.reader.rest)
        else if stop then goal == Lexed(h, r, state.reader.rest)
        else Buffered(state, s, s.term) && goal == Lex(cfg, state.single, s, state.reader.rest)
    {
      stop, r, s := false, Success, s0;
      ghost var text := state.reader.rest;
      c := state.NextChar(s0.term);
      if c == NUL {
        s := if text == "" then s0 else NextColumn(s0);
        return;
      }
      r, stop, s := Step(state, c, s0);
    }

    /** One run: the handler's final state, the result and the text left unread are those of the
        machine on the reader's remaining text, however that text is cut into chunks. */
    method Run(reader: StreamReader, single: bool) returns (result: LexResult)
      requires reader.Valid()
      modifies this, reader, reader.stream, reader.readBuf
      ensures reader.Valid()
      ensures Lexed(h, result, reader.rest) == Lex(cfg, single, Start(old(h)), old(reader.rest))
    {
      var state := new LexerState(reader, single);
      ghost var s := Start(h);
      while true
        invariant state.reader == reader && state.single == single && fresh(state)
        invariant Buffered(state, s, s.term)
        invariant Lex(cfg, single, s, reader.rest) == Lex(cfg, single, Start(old(h)), old(reader.rest))
        decreases |reader.rest|
      {
        var c, stop;
        c, stop, result, s := Turn(state, s);
        if stop {
          return;
        }
        if c == NUL {
          break;
        }
      }
      if state.depth > 0 {
        return state.Fail(MissingClosing);
      }
      if state.termType.StrTerm? {
        return state.Fail(StringNotClosed);
      }
      result := Success;
    }
  }
}
