/** The mask arithmetic of base/allocator.h and types/schema.h on 64-bit words, and what it
    amounts to in ordinary arithmetic. */
module Bits {
  import opened Numbers

  /** Bitwise conjunction. */
  function And(x: nat, y: nat): nat {
    if x == 0 || y == 0 then 0 else (if x % 2 == 1 && y % 2 == 1 then 1 else 0) + 2 * And(x / 2, y / 2)
  }

  function Not64(x: UInt64): UInt64 {
    TWO_64 - 1 - x
  }

  /** Unsigned wrap-around. */
  function Wrap(x: int): UInt64 {
    x % TWO_64
  }

  /** (ptr + alignment - 1) & ~(alignment - 1), as in AlignPointer and AlignPtr. */
  function AlignPtr(ptr: nat, alignment: nat): nat {
    And(Wrap(ptr + alignment - 1), Not64(Wrap(alignment - 1)))
  }

  predicate IsValidAlignment(alignment: nat) {
    And(alignment, Wrap(alignment - 1)) == 0
  }

  function Pow2(k: nat): (p: nat)
    ensures p > 0
  {
    if k == 0 then 1 else 2 * Pow2(k - 1)
  }

  function RoundUp(x: nat, a: nat): nat
    requires a > 0
  {
    (x + a - 1) / a * a
  }

  lemma {:induction false} AndAllOnes(x: nat, n: nat)
    requires x < Pow2(n)
    ensures And(x, Pow2(n) - 1) == x
    decreases n
  {
    if n > 0 && x > 0 {
      AndAllOnes(x / 2, n - 1);
      assert (Pow2(n) - 1) / 2 == Pow2(n - 1) - 1;
    }
  }

  lemma HalfRemainder(x: nat, p: nat)
    requires p > 0
    ensures x % (2 * p) == 2 * (x / 2 % p) + x % 2
  {
    var h := x / 2;
    var q, m := h / p, h % p;
    assert h == p * q + m;
    assert x == 2 * h + x % 2;
    assert x == (2 * p) * q + (2 * m + x % 2) by {
      assert (2 * p) * q == 2 * (p * q);
    }
    DivModUnique(x, 2 * p, q, 2 * m + x % 2);
  }

  lemma DivModUnique(x: int, c: nat, q: int, m: nat)
    requires c > 0 && m < c && x == c * q + m
    ensures x % c == m && x / c == q
  {
    var q', m' := x / c, x % c;
    assert x == c * q' + m';
    assert c * (q - q') == m' - m;
    AtLeastOne(c, q - q');
  }

  /** A multiple of c other than zero is at least c away from it. */
  lemma AtLeastOne(c: int, d: int)
    requires c > 0
    ensures d > 0 ==> c * d >= c
    ensures d < 0 ==> c * d <= -c
  {
    if d > 0 {
      Scales(c, d);
    } else if d < 0 {
      Scales(c, -d);
      assert c * -d == -(c * d);
    }
  }

  lemma Scales(c: int, d: int)
    requires c > 0 && d > 0
    ensures c * d >= c
  {
  }

  lemma ThroughMultiple(v: int, m: nat, t: nat)
    requires m > 0 && t > 0
    ensures m * t > 0 && v % (m * t) % m == v % m
  {
    var c := m * t;
    var q, w := v / c, v % c;
    var p, r := w / m, w % m;
    assert v == c * q + w && w == m * p + r;
    assert c * q == m * (t * q);
    assert m * (t * q + p) == m * (t * q) + m * p;
    DivModUnique(v, m, t * q + p, r);
  }

  /** Clearing the k low bits of an n-bit word. */
  lemma {:induction false} AndMask(x: nat, n: nat, k: nat)
    requires k <= n && x < Pow2(n)
    ensures Pow2(n) >= Pow2(k) && And(x, Pow2(n) - Pow2(k)) == x - x % Pow2(k)
    decreases k
  {
    if k == 0 {
      AndAllOnes(x, n);
    } else {
      AndMask(x / 2, n - 1, k - 1);
      var mask := Pow2(n) - Pow2(k);
      assert mask == 2 * (Pow2(n - 1) - Pow2(k - 1));
      HalfRemainder(x, Pow2(k - 1));
    }
  }

  lemma WordSize(n: nat)
    requires n == 64
    ensures Pow2(n) == TWO_64
  {
    var two: nat := n / 32;
    assert Pow2(two) == 4;
    PowDouble(two, 4);
    PowDouble(2 * two, 16);
    PowDouble(4 * two, 256);
    PowDouble(8 * two, 0x1_0000);
    PowDouble(16 * two, 0x1_0000_0000);
  }

  lemma PowDouble(i: nat, p: nat)
    requires Pow2(i) == p
    ensures Pow2(2 * i) == p * p
  {
    PowAdd(i, i);
  }

  lemma {:induction false} PowAdd(i: nat, j: nat)
    ensures Pow2(i + j) == Pow2(i) * Pow2(j)
    decreases i
  {
    if i > 0 {
      PowAdd(i - 1, j);
      assert Pow2(i) * Pow2(j) == 2 * (Pow2(i - 1) * Pow2(j));
    }
  }

  lemma RoundUpByRemainder(x: nat, a: nat)
    requires a > 0
    ensures RoundUp(x, a) == (x + a - 1) - (x + a - 1) % a
  {
    var y := x + a - 1;
    assert y == a * (y / a) + y % a;
    assert y / a * a == a * (y / a);
  }

  /** Clearing low bits with the mask ~(a - 1), for words of n bits. */
  lemma ClearLowBits(x: nat, n: nat, k: nat)
    requires k <= n && x < Pow2(n)
    ensures Pow2(n) - 1 - (Pow2(k) - 1) >= 0
    ensures And(x, Pow2(n) - 1 - (Pow2(k) - 1)) == x - x % Pow2(k)
  {
    AndMask(x, n, k);
    assert Pow2(n) - 1 - (Pow2(k) - 1) == Pow2(n) - Pow2(k);
  }

  lemma NoWrap(ptr: nat, a: nat)
    requires a > 0 && ptr + a - 1 < TWO_64
    ensures AlignPtr(ptr, a) == And(ptr + a - 1, TWO_64 - 1 - (a - 1))
  {
    var x, y := ptr + a - 1, a - 1;
    assert Wrap(x) == x && Wrap(y) == y;
    assert Not64(y) == TWO_64 - 1 - (a - 1);
  }

  /** For a power of two the mask form rounds up to the next multiple, unless the sum overflows. */
  lemma AlignPtrRoundsUp(ptr: nat, k: nat, n: nat)
    requires Pow2(n) == TWO_64 && k <= n && ptr + Pow2(k) - 1 < TWO_64
    ensures AlignPtr(ptr, Pow2(k)) == RoundUp(ptr, Pow2(k))
  {
    var a := Pow2(k);
    calc {
      AlignPtr(ptr, a);
      { NoWrap(ptr, a); }
      And(ptr + a - 1, TWO_64 - 1 - (a - 1));
      { ClearLowBits(ptr + a - 1, n, k); }
      (ptr + a - 1) - (ptr + a - 1) % a;
      { RoundUpByRemainder(ptr, a); }
      RoundUp(ptr, a);
    }
  }

  /** Alignment zero, which an empty struct has, turns every pointer into null. */
  lemma AlignZeroIsNull(ptr: nat)
    ensures AlignPtr(ptr, 0) == 0
  {
    assert Not64(Wrap(-1)) == 0;
  }

  lemma {:induction false} AndSelf(x: nat)
    ensures And(x, x) == x
    decreases x
  {
    if x > 0 {
      AndSelf(x / 2);
    }
  }

  ghost predicate IsPow2(a: nat) {
    exists k: nat :: Pow2(k) == a
  }

  lemma Doubling(h: nat)
    ensures IsPow2(2 * h) <==> IsPow2(h)
  {
    if IsPow2(h) {
      var k: nat :| Pow2(k) == h;
      assert Pow2(k + 1) == 2 * h;
    }
    if IsPow2(2 * h) {
      var k: nat :| Pow2(k) == 2 * h;
      assert Pow2(k - 1) == h;
    }
  }

  lemma OddPowers(a: nat)
    requires a % 2 == 1
    ensures IsPow2(a) <==> a == 1
  {
    assert Pow2(0) == 1;
    if IsPow2(a) {
      var k: nat :| Pow2(k) == a;
      assert k > 0 ==> a == 2 * Pow2(k - 1);
    }
  }

  /** The validity test accepts zero and the powers of two, and nothing else. */
  lemma {:induction false} ValidAlignments(a: nat)
    requires a < TWO_64
    ensures IsValidAlignment(a) <==> a == 0 || IsPow2(a)
    decreases a
  {
    if a > 0 {
      assert Wrap(a - 1) == a - 1;
      if a % 2 == 1 {
        assert (a - 1) / 2 == a / 2;
        AndSelf(a / 2);
        OddPowers(a);
      } else {
        ValidAlignments(a / 2);
        assert Wrap(a / 2 - 1) == a / 2 - 1 == (a - 1) / 2;
        Doubling(a / 2);
        assert a == 2 * (a / 2);
      }
    }
  }

  // ---- Rounding up ----

  lemma RoundUpBounds(x: nat, a: nat)
    requires a > 0
    ensures x <= RoundUp(x, a) < x + a && RoundUp(x, a) % a == 0
  {
    RoundUpByRemainder(x, a);
    DivModUnique(RoundUp(x, a), a, (x + a - 1) / a, 0);
  }

  /** Rounding commutes with shifting by a multiple. */
  lemma RoundUpShift(base: nat, x: nat, a: nat)
    requires a > 0 && base % a == 0
    ensures RoundUp(base + x, a) == base + RoundUp(x, a)
  {
    var b, y := base / a, x + a - 1;
    assert base == a * b;
    assert y == a * (y / a) + y % a;
    assert a * (b + y / a) == a * b + a * (y / a);
    DivModUnique(base + y, a, b + y / a, y % a);
    assert (b + y / a) * a == b * a + y / a * a;
  }

  lemma {:induction false} PowDivides(i: nat, j: nat)
    requires i <= j
    ensures Pow2(j) % Pow2(i) == 0 && Pow2(i) <= Pow2(j)
  {
    PowAdd(i, j - i);
    DivModUnique(Pow2(j), Pow2(i), Pow2(j - i), 0);
    assert Pow2(i) * Pow2(j - i) >= Pow2(i) * 1;
  }

  /** A multiple of a multiple. */
  lemma DividesThrough(x: nat, a: nat, b: nat)
    requires a > 0 && b > 0 && x % b == 0 && b % a == 0
    ensures x % a == 0
  {
    var q, r := x / b, b / a;
    assert x == b * q && b == a * r;
    assert x == a * (r * q);
    DivModUnique(x, a, r * q, 0);
  }

  // ---- Alignment of an address ----

  /** TypeSchema::IsAligned. */
  predicate IsAligned(address: nat, alignment: nat) {
    And(address, Wrap(alignment - 1)) == 0
  }

  lemma OddMask(x: nat, p: nat)
    requires x > 0 && p > 0
    ensures And(x, 2 * p - 1) == x % 2 + 2 * And(x / 2, p - 1)
  {
    assert (2 * p - 1) / 2 == p - 1 && (2 * p - 1) % 2 == 1;
  }

  lemma {:induction false} LowBits(x: nat, k: nat)
    ensures And(x, Pow2(k) - 1) == x % Pow2(k)
    decreases k
  {
    if x == 0 {
      DivModUnique(0, Pow2(k), 0, 0);
    } else if k > 0 {
      LowBits(x / 2, k - 1);
      OneBitMore(x, Pow2(k - 1));
    }
  }

  lemma OneBitMore(x: nat, p: nat)
    requires x > 0 && p > 0 && And(x / 2, p - 1) == x / 2 % p
    ensures And(x, 2 * p - 1) == x % (2 * p)
  {
    HalfRemainder(x, p);
    OddMask(x, p);
  }

  lemma AlignedMeansMultiple(address: nat, alignment: nat)
    requires IsPow2(alignment) && alignment < TWO_64
    ensures IsAligned(address, alignment) <==> address % alignment == 0
  {
    var k: nat :| Pow2(k) == alignment;
    LowBits(address, k);
    assert Wrap(alignment - 1) == alignment - 1;
  }

  /** Of two powers of two the smaller divides the larger. */
  lemma SmallerDivides(a: nat, b: nat)
    requires IsPow2(a) && IsPow2(b) && a <= b
    ensures b % a == 0
  {
    var i: nat, j: nat :| Pow2(i) == a && Pow2(j) == b;
    if i <= j {
      PowDivides(i, j);
    } else {
      PowDivides(j, i);
      assert a == b;
      DivModUnique(b, a, 1, 0);
    }
  }

  lemma Align(ptr: nat, a: nat)
    requires IsPow2(a) && ptr + a <= TWO_64
    ensures a > 0 && AlignPtr(ptr, a) == RoundUp(ptr, a)
  {
    var k: nat :| Pow2(k) == a;
    var n: nat := 64;
    WordSize(n);
    if k > n {
      PowDivides(n + 1, k);
    }
    AlignPtrRoundsUp(ptr, k, n);
  }

  /** Alignment zero asks for nothing. */
  predicate BaseAligned(base: nat, alignment: nat) {
    alignment == 0 || base % alignment == 0
  }
}
