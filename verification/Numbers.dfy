/** Decimal text: base/str_build_types.cc writes it, slang/lexer.cc reads it back. */
module Numbers {
  import opened Common

  const TWO_63: int := 0x8000_0000_0000_0000
  const TWO_64: int := 0x1_0000_0000_0000_0000

  type Int64 = v: int | -TWO_63 <= v < TWO_63
  type UInt64 = v: int | 0 <= v < TWO_64

  /** Reinterpretation of a wrapped result as signed. */
  function Wrap64(v: int): Int64 {
    var u := v % TWO_64;
    if u < TWO_63 then u else u - TWO_64
  }

  function ToUInt64(v: int): UInt64 {
    v % TWO_64
  }

  predicate IsDigit(ch: char) {
    '0' <= ch <= '9'
  }

  function Digit(d: nat): (ch: char)
    requires d < 10
    ensures IsDigit(ch) && DigitValue(ch) == d
  {
    '0' + d as char
  }

  function DigitValue(ch: char): nat
    requires IsDigit(ch)
  {
    ch as int - '0' as int
  }

  /** Decimal digits of a natural number, without leading zeros. */
  function Decimal(v: nat): (s: string)
    ensures s != ""
    ensures forall i :: 0 <= i < |s| ==> IsDigit(s[i])
  {
    if v < 10 then [Digit(v)] else Decimal(v / 10) + [Digit(v % 10)]
  }

  function IntText(v: int): string {
    if v < 0 then "-" + Decimal(-v) else Decimal(v)
  }

  function Pow10(n: nat): nat {
    if n == 0 then 1 else 10 * Pow10(n - 1)
  }

  lemma DecimalLength(v: nat, n: nat)
    requires v < Pow10(n) && n > 0
    ensures |Decimal(v)| <= n
  {
    if v >= 10 {
      DecimalLength(v / 10, n - 1);
    }
  }

  lemma UInt64Length(v: UInt64)
    ensures |Decimal(v)| <= 20
  {
    assert Pow10(20) == 100_000_000_000_000_000_000 by {
      assert Pow10(5) == 100_000;
      assert Pow10(10) == 10_000_000_000;
      assert Pow10(15) == 1_000_000_000_000_000;
    }
    DecimalLength(v, 20);
  }

  method CountDigits(value: nat) returns (count: nat)
    requires value != 0
    ensures count == |Decimal(value)|
  {
    var v := value;
    count := 0;
    while v != 0
      invariant count + (if v == 0 then 0 else |Decimal(v)|) == |Decimal(value)|
    {
      v := v / 10;
      count := count + 1;
    }
  }

  /** Fills the buffer from the last digit backwards. */
  method UIntToStr(value: UInt64, buf: array<char>, at: nat) returns (n: nat)
    requires at + 20 <= buf.Length
    modifies buf
    ensures n == |Decimal(value)| <= 20
    ensures buf[at..at + n] == Decimal(value)
    ensures buf[..at] == old(buf[..at]) && buf[at + n..] == old(buf[at + n..])
  {
    UInt64Length(value);
    if value == 0 {
      buf[at] := '0';
      return 1;
    }
    n := CountDigits(value);
    var i := n;
    var v: nat := value;
    while v > 0
      invariant 0 <= i <= n
      invariant i == if v == 0 then 0 else |Decimal(v)|
      invariant (if v == 0 then "" else Decimal(v)) + buf[at + i..at + n] == Decimal(value)
      invariant buf[..at] == old(buf[..at]) && buf[at + n..] == old(buf[at + n..])
    {
      var next := v / 10;
      ghost var done := buf[at + i..at + n];
      i := i - 1;
      buf[at + i] := Digit(v - 10 * next);
      assert buf[at + i..at + n] == [Digit(v % 10)] + done;
      v := next;
    }
  }

  lemma WrappingNegation(v: int)
    requires -TWO_63 <= v < 0
    ensures ToUInt64(Wrap64(-v)) == -v
  {
  }

  /** Writing a minus sign and then the digits behind it. */
  lemma Spliced(before: string, mid: string, after: string, at: nat, digits: string)
    requires at + 1 + |digits| <= |before| == |mid| == |after|
    requires mid == before[at := '-']
    requires after[..at + 1] == mid[..at + 1]
    requires after[at + 1..at + 1 + |digits|] == digits
    requires after[at + 1 + |digits|..] == mid[at + 1 + |digits|..]
    ensures after[at..at + 1 + |digits|] == "-" + digits
    ensures after[..at] == before[..at] && after[at + 1 + |digits|..] == before[at + 1 + |digits|..]
  {
    assert after[at] == after[..at + 1][at];
    assert after[at..at + 1 + |digits|] == [after[at]] + after[at + 1..at + 1 + |digits|];
    assert after[..at] == after[..at + 1][..at] == mid[..at + 1][..at];
  }

  /** Signed printing; the most negative value relies on wrapping negation. */
  method IntToStr(value: Int64, buf: array<char>, at: nat) returns (n: nat)
    requires at + 24 <= buf.Length
    modifies buf
    ensures n == |IntText(value)| <= 24
    ensures buf[at..at + n] == IntText(value)
    ensures buf[..at] == old(buf[..at]) && buf[at + n..] == old(buf[at + n..])
  {
    if value < 0 {
      ghost var before := buf[..];
      buf[at] := '-';
      ghost var mid := buf[..];
      var signed: int := value;
      WrappingNegation(signed);
      var m := UIntToStr(ToUInt64(Wrap64(-signed)), buf, at + 1);
      n := 1 + m;
      Spliced(before, mid, buf[..], at, Decimal(-signed));
    } else {
      n := UIntToStr(value, buf, at);
    }
  }

  predicate IsSpace(ch: char) {
    ch == ' ' || '\t' <= ch <= '\r'
  }

  function SkipSpaces(s: string): string {
    if s != "" && IsSpace(s[0]) then SkipSpaces(s[1..]) else s
  }

  /** Value of a text made of digits only, the digits read so far counting as `acc`. */
  function Digits(s: string, acc: nat): Option<nat> {
    if s == "" then Some(acc)
    else if IsDigit(s[0]) then Digits(s[1..], 10 * acc + DigitValue(s[0]))
    else None
  }

  const MAX_INT_TEXT := 63

  /** The whole term must be consumed by strtoll, within range and within the 63-character copy. */
  function ParseInt64(term: string): Option<Int64>
    requires term != ""
  {
    var t := SkipSpaces(term);
    var negative := t != "" && t[0] == '-';
    var body := if t != "" && (t[0] == '-' || t[0] == '+') then t[1..] else t;
    if |term| > MAX_INT_TEXT || body == "" then None
    else
      match Digits(body, 0)
      case None => None
      case Some(v) =>
        var magnitude: int := v;
        var signed := if negative then -magnitude else magnitude;
        if -TWO_63 <= signed < TWO_63 then Some(signed) else None
  }

  lemma ShiftDigit(acc: nat, p: nat, v: nat)
    ensures 10 * (acc * p + v / 10) + v % 10 == acc * (10 * p) + v
  {
    assert acc * (10 * p) == 10 * (acc * p);
  }

  lemma {:induction false} DigitsOfDecimal(v: nat, acc: nat, rest: string)
    ensures Digits(Decimal(v) + rest, acc) == Digits(rest, acc * Pow10(|Decimal(v)|) + v)
    decreases v
  {
    var last := [Digit(v % 10)];
    if v < 10 {
      assert (Decimal(v) + rest)[1..] == rest;
      assert Pow10(1) == 10;
    } else {
      assert Decimal(v) + rest == Decimal(v / 10) + (last + rest);
      DigitsOfDecimal(v / 10, acc, last + rest);
      assert (last + rest)[1..] == rest;
      ShiftDigit(acc, Pow10(|Decimal(v / 10)|), v);
    }
  }

  /** Every 64-bit integer survives being printed and parsed. */
  lemma {:induction false} IntRoundTrip(v: int)
    requires -TWO_63 <= v < TWO_63
    ensures IntText(v) != "" && ParseInt64(IntText(v)) == Some(v)
  {
    var magnitude: nat := if v < 0 then -v else v;
    UInt64Length(magnitude);
    DigitsOfDecimal(magnitude, 0, "");
    assert Decimal(magnitude) + "" == Decimal(magnitude);
    assert IsDigit(Decimal(magnitude)[0]);
    assert SkipSpaces(IntText(v)) == IntText(v);
    if v < 0 {
      assert IntText(v)[1..] == Decimal(-v);
    }
  }

  // ---- What the parser accepts ----

  ghost function PlaceValue(ch: char): nat {
    match ch
    case '1' => 1
    case '2' => 2
    case '3' => 3
    case '4' => 4
    case '5' => 5
    case '6' => 6
    case '7' => 7
    case '8' => 8
    case '9' => 9
    case _ => 0
  }

  ghost predicate AllDigits(s: string) {
    forall i :: 0 <= i < |s| ==> '0' <= s[i] <= '9'
  }

  /** Value of decimal digits, the last one counting ones. */
  ghost function ValueOf(digits: string): nat {
    if digits == "" then 0
    else
      var n := |digits| - 1;
      10 * ValueOf(digits[..n]) + PlaceValue(digits[n])
  }

  ghost predicate Spaces(s: string) {
    forall i :: 0 <= i < |s| ==> s[i] == ' ' || 9 <= s[i] as int <= 13
  }

  /** White space, at most one sign, and digits. */
  ghost predicate SpelledBy(term: string, v: int, spaces: string, sign: string, digits: string) {
    && term == spaces + sign + digits && Spaces(spaces)
    && (sign == "" || sign == "+" || sign == "-")
    && digits != "" && AllDigits(digits)
    && v == (if sign == "-" then -1 else 1) * ValueOf(digits)
  }

  ghost predicate Spells(term: string, v: int) {
    exists spaces, sign, digits :: SpelledBy(term, v, spaces, sign, digits)
  }

  lemma DigitsConcat(a: string, b: string, acc: nat)
    ensures Digits(a + b, acc) == var first := Digits(a, acc); if first.None? then None else Digits(b, first.value)
    decreases |a|
  {
    if a == "" {
      assert a + b == b;
    } else {
      assert (a + b)[1..] == a[1..] + b;
      if IsDigit(a[0]) {
        DigitsConcat(a[1..], b, 10 * acc + DigitValue(a[0]));
      }
    }
  }

  lemma {:induction false} DigitsAreValued(s: string)
    ensures Digits(s, 0) == if AllDigits(s) then Some(ValueOf(s)) else None
    decreases |s|
  {
    if s != "" {
      var n := |s| - 1;
      var last := [s[n]];
      DigitsAreValued(s[..n]);
      DigitsConcat(s[..n], last, 0);
      assert s == s[..n] + last && last[1..] == "";
      assert AllDigits(s) <==> AllDigits(s[..n]) && IsDigit(s[n]);
    }
  }

  /** Printed numbers have the value printed and no leading zero. */
  lemma {:induction false} DecimalIsValued(v: nat)
    ensures AllDigits(Decimal(v)) && ValueOf(Decimal(v)) == v
    ensures v > 0 ==> Decimal(v)[0] != '0'
  {
    DigitsOfDecimal(v, 0, "");
    assert Decimal(v) + "" == Decimal(v);
    DigitsAreValued(Decimal(v));
    if v >= 10 {
      DecimalIsValued(v / 10);
    }
  }

  lemma {:induction false} SpacesSkipped(spaces: string, body: string)
    requires Spaces(spaces) && (body == "" || !IsSpace(body[0]))
    ensures SkipSpaces(spaces + body) == body
    decreases |spaces|
  {
    if spaces == "" {
      assert spaces + body == body;
    } else {
      assert (spaces + body)[1..] == spaces[1..] + body;
      SpacesSkipped(spaces[1..], body);
    }
  }

  lemma {:induction false} SkippedSpaces(s: string) returns (spaces: string)
    ensures Spaces(spaces) && s == spaces + SkipSpaces(s)
    decreases |s|
  {
    if s != "" && IsSpace(s[0]) {
      var more := SkippedSpaces(s[1..]);
      spaces := [s[0]] + more;
    } else {
      spaces := "";
    }
  }

  lemma SpelledIsParsed(term: string, v: int, spaces: string, sign: string, digits: string)
    requires term != "" && |term| <= 63 && -TWO_63 <= v < TWO_63 && SpelledBy(term, v, spaces, sign, digits)
    ensures ParseInt64(term) == Some(v)
  {
    var body := sign + digits;
    assert body != "" && SkipSpaces(term) == body by {
      assert term == spaces + body;
      SpacesSkipped(spaces, body);
    }
    assert (if body[0] == '-' || body[0] == '+' then body[1..] else body) == digits;
    DigitsAreValued(digits);
  }

  /** The parser takes exactly optional white space, at most one sign and then digits only, of at most 63
      characters in all, whose value fits 64 bits; leading zeros and a plus sign change nothing. */
  lemma ParsesExactly(term: string, v: int)
    requires term != ""
    ensures ParseInt64(term) == Some(v) <==> |term| <= 63 && -TWO_63 <= v < TWO_63 && Spells(term, v)
  {
    if ParseInt64(term) == Some(v) {
      var spaces := SkippedSpaces(term);
      var body := SkipSpaces(term);
      var sign := if body[0] == '-' || body[0] == '+' then body[..1] else "";
      var digits := body[|sign|..];
      DigitsAreValued(digits);
      assert SpelledBy(term, v, spaces, sign, digits);
    } else if |term| <= 63 && -TWO_63 <= v < TWO_63 && Spells(term, v) {
      var spaces, sign, digits :| SpelledBy(term, v, spaces, sign, digits);
      SpelledIsParsed(term, v, spaces, sign, digits);
    }
  }
}
