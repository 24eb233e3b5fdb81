/** containers/MRSWRing.h: a bounded queue over 32-bit counters that are never reset. */
module Ring {
  import opened Common
  import opened Bits

  const TWO_32: nat := 0x1_0000_0000

  /** The counters alone decide what the ring believes about itself. */
  predicate IsEmpty(r: nat, w: nat) {
    r == w
  }

  predicate IsFull(capacity: nat, r: nat, w: nat)
    requires capacity > 0
  {
    r % capacity == w % capacity && !IsEmpty(r, w)
  }

  function Increment(counter: nat): nat {
    (counter + 1) % TWO_32
  }

  /** Slot of the i-th element counted from a counter. */
  function Slot(capacity: nat, counter: nat, i: nat): (slot: nat)
    requires capacity > 0
    ensures slot < capacity
  {
    (counter + i) % TWO_32 % capacity
  }

  /** Capacities for which the slots go round evenly when a counter wraps. */
  predicate Even(capacity: nat) {
    0 < capacity < TWO_32 && TWO_32 % capacity == 0
  }

  lemma ModOfMultiple(a: nat, m: nat, c: nat)
    requires c > 0 && m > 0 && m % c == 0
    ensures a % m % c == a % c
  {
    assert m == c * (m / c);
    ThroughMultiple(a, c, m / c);
  }

  /** A step of less than one capacity changes the remainder; a step of exactly one does not. */
  lemma ModStep(x: nat, d: nat, c: nat)
    requires 0 < d <= c
    ensures (x + d) % c == x % c <==> d == c
  {
    var q, m := x / c, x % c;
    assert x == c * q + m;
    if m + d < c {
      DivModUnique(x + d, c, q, m + d);
    } else {
      assert c * (q + 1) == c * q + c;
      DivModUnique(x + d, c, q + 1, m + d - c);
    }
  }

  /** Within one capacity's worth of elements two different slots never meet. */
  lemma SlotsDistinct(capacity: nat, r: nat, i: nat, j: nat)
    requires Even(capacity) && i < j < capacity + i
    ensures Slot(capacity, r, i) != Slot(capacity, r, j)
  {
    ModOfMultiple(r + i, TWO_32, capacity);
    ModOfMultiple(r + j, TWO_32, capacity);
    ModStep(r + i, j - i, capacity);
  }

  /** The element count a pair of counters stands for. */
  function Count(r: nat, w: nat): nat
    requires r < TWO_32 && w < TWO_32
  {
    if w >= r then w - r else w + TWO_32 - r
  }

  /** With an even capacity the fullness test is right, wherever the counters stand. */
  lemma FullMeansFull(capacity: nat, r: nat, w: nat)
    requires Even(capacity) && r < TWO_32 && w < TWO_32 && Count(r, w) <= capacity
    ensures IsFull(capacity, r, w) <==> Count(r, w) == capacity
  {
    var n := Count(r, w);
    assert w == (r + n) % TWO_32;
    if 0 < n < capacity {
      SlotsDistinct(capacity, r, 0, n);
    } else if n == capacity {
      ModOfMultiple(r + n, TWO_32, capacity);
      ModStep(r, n, capacity);
    }
  }

  /** The n elements starting at a read counter, oldest first. */
  ghost function Elements<T>(slots: seq<T>, r: nat, n: nat): seq<T>
    requires slots != []
  {
    seq(n, i requires 0 <= i < n => slots[Slot(|slots|, r, i)])
  }

  lemma ElementsPushed<T>(slots: seq<T>, r: nat, n: nat, value: T)
    requires Even(|slots|) && n < |slots|
    ensures Elements(slots[Slot(|slots|, r, n) := value], r, n + 1) == Elements(slots, r, n) + [value]
  {
    forall i | 0 <= i < n ensures Slot(|slots|, r, i) != Slot(|slots|, r, n) {
      SlotsDistinct(|slots|, r, i, n);
    }
  }

  lemma ElementsPopped<T>(slots: seq<T>, r: nat, n: nat)
    requires slots != [] && n > 0 && r < TWO_32
    ensures Elements(slots, r, n)[0] == slots[r % |slots|]
    ensures Elements(slots, Increment(r), n - 1) == Elements(slots, r, n)[1..]
  {
    assert Slot(|slots|, r, 0) == r % |slots|;
    forall i | 0 <= i < n - 1 ensures Slot(|slots|, Increment(r), i) == Slot(|slots|, r, i + 1) {
      assert ((r + 1) % TWO_32 + i) % TWO_32 == (r + 1 + i) % TWO_32;
    }
  }

  lemma AfterPush<T>(slots: seq<T>, r: nat, w: nat, value: T)
    requires Even(|slots|) && r < TWO_32 && w < TWO_32 && Count(r, w) < |slots|
    ensures Increment(w) < TWO_32 && Count(r, Increment(w)) == Count(r, w) + 1
    ensures Elements(slots[w % |slots| := value], r, Count(r, w) + 1) == Elements(slots, r, Count(r, w)) + [value]
  {
    assert Slot(|slots|, r, Count(r, w)) == w % |slots|;
    ElementsPushed(slots, r, Count(r, w), value);
  }

  lemma AfterPop<T>(slots: seq<T>, r: nat, w: nat)
    requires slots != [] && r < TWO_32 && w < TWO_32 && Count(r, w) > 0
    ensures Increment(r) < TWO_32 && Count(Increment(r), w) == Count(r, w) - 1
    ensures Elements(slots, r, Count(r, w))[0] == slots[r % |slots|]
    ensures Elements(slots, Increment(r), Count(r, w) - 1) == Elements(slots, r, Count(r, w))[1..]
  {
    ElementsPopped(slots, r, Count(r, w));
  }

  class MRSWRing<T(0)> {
    const data: array<T>
    var r: nat
    var w: nat

    ghost predicate Valid()
      reads this
    {
      Even(data.Length) && r < TWO_32 && w < TWO_32 && Count(r, w) <= data.Length
    }

    /** Oldest element first. */
    ghost function Contents(): seq<T>
      requires Valid()
      reads this, data
    {
      Elements(data[..], r, Count(r, w))
    }

    constructor (maxSize: nat)
      requires Even(maxSize)
      ensures Valid() && data.Length == maxSize && Contents() == [] && fresh(data)
    {
      data := new T[maxSize];
      r := 0;
      w := 0;
    }

    /** A bounded queue: refuses exactly when it holds as many elements as slots. */
    method Push(value: T) returns (ok: bool)
      requires Valid()
      modifies this`w, data
      ensures Valid()
      ensures ok == (|old(Contents())| < data.Length)
      ensures Contents() == if ok then old(Contents()) + [value] else old(Contents())
    {
      FullMeansFull(data.Length, r, w);
      if IsFull(data.Length, r, w) {
        return false;
      }
      AfterPush(data[..], r, w, value);
      ghost var slots := data[..];
      data[w % data.Length] := value;
      assert data[..] == slots[w % data.Length := value];
      w := Increment(w);
      ok := true;
    }

    method Pop() returns (value: Option<T>)
      requires Valid()
      modifies this`r
      ensures Valid()
      ensures value == if old(Contents()) == [] then None else Some(old(Contents())[0])
      ensures Contents() == if old(Contents()) == [] then [] else old(Contents())[1..]
    {
      if IsEmpty(r, w) {
        return None;
      }
      AfterPop(data[..], r, w);
      value := Some(data[r % data.Length]);
      r := Increment(r);
    }
  }

  // ---- Which capacities work ----

  datatype Op = PushOp | PopOp

  datatype Counters = Counters(r: nat, w: nat)

  /** What an operation does to the counters of a ring of this capacity. */
  function Apply(capacity: nat, c: Counters, op: Op): Counters
    requires capacity > 0
  {
    match op
    case PushOp => if IsFull(capacity, c.r, c.w) then c else c.(w := Increment(c.w))
    case PopOp => if IsEmpty(c.r, c.w) then c else c.(r := Increment(c.r))
  }

  function ApplyAll(capacity: nat, c: Counters, ops: seq<Op>): Counters
    requires capacity > 0
    decreases |ops|
  {
    if ops == [] then c else ApplyAll(capacity, Apply(capacity, c, ops[0]), ops[1..])
  }

  ghost predicate InRange(c: Counters) {
    c.r < TWO_32 && c.w < TWO_32
  }

  /** The ring reports full exactly when every slot is taken. */
  ghost predicate Honest(capacity: nat, c: Counters)
    requires capacity > 0
  {
    InRange(c) && (IsFull(capacity, c.r, c.w) <==> Count(c.r, c.w) == capacity)
  }

  lemma {:induction false} ApplyConcat(capacity: nat, c: Counters, a: seq<Op>, b: seq<Op>)
    requires capacity > 0
    ensures ApplyAll(capacity, c, a + b) == ApplyAll(capacity, ApplyAll(capacity, c, a), b)
    decreases |a|
  {
    if a == [] {
      assert a + b == b;
    } else {
      assert (a + b)[1..] == a[1..] + b;
      ApplyConcat(capacity, Apply(capacity, c, a[0]), a[1..], b);
    }
  }

  lemma {:induction false} EvenStaysHonest(capacity: nat, c: Counters, ops: seq<Op>)
    requires Even(capacity) && InRange(c) && Count(c.r, c.w) <= capacity
    ensures Honest(capacity, ApplyAll(capacity, c, ops))
    decreases |ops|
  {
    FullMeansFull(capacity, c.r, c.w);
    if ops != [] {
      EvenStaysHonest(capacity, Apply(capacity, c, ops[0]), ops[1..]);
    }
  }

  ghost function PushPops(n: nat): seq<Op> {
    if n == 0 then [] else PushPops(n - 1) + [PushOp, PopOp]
  }

  ghost function PushesOnly(n: nat): seq<Op> {
    if n == 0 then [] else PushesOnly(n - 1) + [PushOp]
  }

  /** An empty ring can stand at any counter value. */
  lemma {:induction false} EmptyAnywhere(capacity: nat, k: nat)
    requires capacity > 0 && k < TWO_32
    ensures ApplyAll(capacity, Counters(0, 0), PushPops(k)) == Counters(k, k)
    decreases k
  {
    if k > 0 {
      EmptyAnywhere(capacity, k - 1);
      ApplyConcat(capacity, Counters(0, 0), PushPops(k - 1), [PushOp, PopOp]);
      var c := Counters(k - 1, k - 1);
      assert [PushOp, PopOp][1..] == [PopOp] && [PopOp][1..] == [];
      assert Apply(capacity, c, PushOp) == Counters(k - 1, k);
      assert Apply(capacity, Counters(k - 1, k), PopOp) == Counters(k, k);
    }
  }

  /** Pushing across the wrap of the write counter, up to the uneven remainder. */
  lemma {:induction false} PushesAcrossWrap(capacity: nat, n: nat)
    requires 0 < capacity < TWO_32 && 0 < n <= TWO_32 % capacity
    ensures ApplyAll(capacity, Counters(TWO_32 - 1, TWO_32 - 1), PushesOnly(n)) == Counters(TWO_32 - 1, n - 1)
    decreases n
  {
    var start := Counters(TWO_32 - 1, TWO_32 - 1);
    ApplyConcat(capacity, start, PushesOnly(n - 1), [PushOp]);
    assert [PushOp][1..] == [];
    if n > 1 {
      PushesAcrossWrap(capacity, n - 1);
      LastSlotBeforeWrap(capacity);
      DivModUnique(n - 2, capacity, 0, n - 2);
      assert !IsFull(capacity, TWO_32 - 1, n - 2);
    }
  }

  lemma LastSlotBeforeWrap(capacity: nat)
    requires 0 < capacity < TWO_32 && TWO_32 % capacity > 0
    ensures (TWO_32 - 1) % capacity == TWO_32 % capacity - 1
  {
    var q, m := TWO_32 / capacity, TWO_32 % capacity;
    assert TWO_32 == capacity * q + m;
    DivModUnique(TWO_32 - 1, capacity, q, m - 1);
  }

  /** An uneven capacity lets a ring report full with slots to spare. */
  lemma UnevenLies(capacity: nat, last: nat) returns (ops: seq<Op>)
    requires 0 < capacity < TWO_32 && TWO_32 % capacity != 0 && last == TWO_32 - 1
    ensures var c := ApplyAll(capacity, Counters(0, 0), ops);
            InRange(c) && IsFull(capacity, c.r, c.w) && Count(c.r, c.w) < capacity
  {
    var m := TWO_32 % capacity;
    ops := PushPops(last) + PushesOnly(m);
    EmptyAnywhere(capacity, last);
    ApplyConcat(capacity, Counters(0, 0), PushPops(last), PushesOnly(m));
    PushesAcrossWrap(capacity, m);
    LastSlotBeforeWrap(capacity);
    DivModUnique(m - 1, capacity, 0, m - 1);
  }

  /** A ring is a bounded queue over every run exactly when its capacity divides 2^32. */
  lemma CapacityCondition(capacity: nat)
    requires 0 < capacity < TWO_32
    ensures Even(capacity) <==> forall ops :: Honest(capacity, ApplyAll(capacity, Counters(0, 0), ops))
  {
    if Even(capacity) {
      forall ops ensures Honest(capacity, ApplyAll(capacity, Counters(0, 0), ops)) {
        EvenStaysHonest(capacity, Counters(0, 0), ops);
      }
    } else {
      var ops := UnevenLies(capacity, TWO_32 - 1);
      assert !Honest(capacity, ApplyAll(capacity, Counters(0, 0), ops));
    }
  }
}
