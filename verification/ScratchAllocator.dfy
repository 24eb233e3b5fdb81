/** base/scratch_allocator.cc and base/arena.h: bump allocation over a growing chain of arenas,
    with purges and nested scopes. */
module ScratchAllocator {
  import opened Numbers
  import opened Bits

  /** User-space addresses end here. */
  const LIMIT: int := 0x4000_0000_0000_0000

  datatype Arena = Arena(begin: nat, end: nat)

  /** The chain in order, the cursor's arena, the cursor, and the bytes reserved so far. */
  datatype State = State(arenas: seq<Arena>, cur: nat, ptr: nat, total: nat)

  /** A block handed out, with the arena it came from and the alignment asked for. */
  datatype Block = Block(arena: nat, begin: nat, size: nat, alignment: nat)

  datatype Op =
    | Alloc(alignment: nat, size: nat)
    | Purge
    | Scope(body: seq<Op>)

  /** The system allocator may see what it gave before; it may refuse, which is null. */
  type System = (seq<Arena>, nat, nat) -> nat

  const NULL: nat := 0

  /** Memory from the system is aligned and apart from everything it gave before. */
  ghost predicate Honest(system: System) {
    forall arenas, size, alignment :: system(arenas, size, alignment) != NULL ==>
      Supplied(arenas, size, alignment, system(arenas, size, alignment))
  }

  predicate Supplied(arenas: seq<Arena>, size: nat, alignment: nat, begin: nat) {
    begin + size <= LIMIT && BaseAligned(begin, alignment)
    && forall i :: 0 <= i < |arenas| && Granted(arenas[i]) ==> Apart(arenas[i], Arena(begin, begin + size))
  }

  /** The arena's memory did come from the system. */
  predicate Granted(a: Arena) {
    a.begin != NULL
  }

  predicate Apart(a: Arena, b: Arena) {
    a.end <= b.begin || b.end <= a.begin
  }

  function Sum(arenas: seq<Arena>): int {
    if arenas == [] then 0
    else Sum(arenas[..|arenas| - 1]) + arenas[|arenas| - 1].end - arenas[|arenas| - 1].begin
  }

  /** Arena i is at least twice all earlier ones together. */
  predicate GrowsAt(arenas: seq<Arena>, i: nat)
    requires i < |arenas|
  {
    arenas[i].end - arenas[i].begin >= 2 * Sum(arenas[..i])
  }

  ghost predicate Chain(arenas: seq<Arena>) {
    (forall i :: 0 <= i < |arenas| ==> Granted(arenas[i]) && arenas[i].begin <= arenas[i].end <= LIMIT)
    && (forall i, j :: 0 <= i < j < |arenas| ==> Apart(arenas[i], arenas[j]))
    && (forall i :: 0 < i < |arenas| ==> GrowsAt(arenas, i))
  }

  ghost predicate Inv(s: State) {
    Chain(s.arenas) && s.cur < |s.arenas|
    && s.arenas[s.cur].begin <= s.ptr <= s.arenas[s.cur].end
    && s.total == Sum(s.arenas)
  }

  // ---- Operations ----

  /** Addition on 64-bit words wraps. */
  function Past(ptr: nat, size: nat): nat {
    if ptr + size < TWO_64 then ptr + size else Wrap(ptr + size)
  }

  function MoreOf(a: nat, b: nat): nat {
    if a < b then b else a
  }

  /** One allocation: the first arena from the cursor on with room, else a new one. */
  function Seek(system: System, s: State, alignment: nat, size: nat): (State, Block)
    requires s.cur < |s.arenas|
    decreases |s.arenas| - s.cur
  {
    var aligned := AlignPtr(s.ptr, alignment);
    if Past(aligned, size) <= s.arenas[s.cur].end then
      (s.(ptr := Past(aligned, size)), Block(s.cur, aligned, size, alignment))
    else if s.cur + 1 < |s.arenas| then
      Seek(system, s.(cur := s.cur + 1, ptr := s.arenas[s.cur + 1].begin), alignment, size)
    else Grow(system, s, alignment, size)
  }

  /** What a new arena reserves: twice the total, or the request if that is more. */
  function Reserve(total: nat, size: nat): nat {
    MoreOf(Past(total, total), size)
  }

  /** A new arena, whether or not the system gave memory for it: nobody looks. */
  function Grow(system: System, s: State, alignment: nat, size: nat): (State, Block) {
    var reserve := Reserve(s.total, size);
    var begin := system(s.arenas, reserve, alignment);
    (State(s.arenas + [Arena(begin, Past(begin, reserve))], |s.arenas|, Past(begin, size), Past(s.total, reserve)),
     Block(|s.arenas|, begin, size, alignment))
  }

  function Purged(s: State): State
    requires s.arenas != []
  {
    s.(cur := 0, ptr := s.arenas[0].begin)
  }

  /** What a run leaves: the state, the blocks still live, and whether everything older was purged. */
  datatype Result = Result(state: State, live: seq<Block>, purged: bool)

  /** Blocks made in a scope end with it; a purge inside ends the older ones as well. */
  function RunOne(system: System, s: State, live: seq<Block>, op: Op): (r: Result)
    requires s.cur < |s.arenas|
    ensures r.state.cur < |r.state.arenas| && s.arenas <= r.state.arenas
    decreases op, 0
  {
    match op
    case Alloc(alignment, size) =>
      SeekExtends(system, s, alignment, size);
      var (s', b) := Seek(system, s, alignment, size);
      Result(s', live + [b], false)
    case Purge => Result(Purged(s), [], true)
    case Scope(body) =>
      var inner := Run(system, s, live, body);
      Result(inner.state.(cur := s.cur, ptr := s.ptr), if inner.purged then [] else live, inner.purged)
  }

  function Run(system: System, s: State, live: seq<Block>, ops: seq<Op>): (r: Result)
    requires s.cur < |s.arenas|
    ensures r.state.cur < |r.state.arenas| && s.arenas <= r.state.arenas
    decreases ops, 1
  {
    if ops == [] then Result(s, live, false)
    else
      var first := RunOne(system, s, live, ops[0]);
      var rest := Run(system, first.state, first.live, ops[1..]);
      rest.(purged := first.purged || rest.purged)
  }

  lemma {:induction false} SeekExtends(system: System, s: State, alignment: nat, size: nat)
    requires s.cur < |s.arenas|
    ensures var s' := Seek(system, s, alignment, size).0; s'.cur < |s'.arenas| && s.arenas <= s'.arenas
    decreases |s.arenas| - s.cur
  {
    FirstFit(system, s, alignment, size);
  }

  // ---- Where the search ends ----

  /** Where the search would put a block in an arena of the chain. */
  function Candidate(s: State, a: nat, alignment: nat): nat
    requires a < |s.arenas|
  {
    AlignPtr(if a == s.cur then s.ptr else s.arenas[a].begin, alignment)
  }

  /** What the loop takes for room. */
  predicate SeemsToFit(s: State, a: nat, alignment: nat, size: nat)
    requires a < |s.arenas|
  {
    Past(Candidate(s, a, alignment), size) <= s.arenas[a].end
  }

  /** The sum in the loop's condition overflows. */
  predicate Wraps(s: State, a: nat, alignment: nat, size: nat)
    requires a < |s.arenas|
  {
    Candidate(s, a, alignment) + size >= TWO_64
  }

  /** The block lies at the first arena that seems to have room, as tightly as alignment allows;
      the chain has grown only when none seems to. */
  ghost predicate FoundFirst(system: System, s: State, alignment: nat, size: nat, s': State, b: Block)
    requires s.cur < |s.arenas|
  {
    && s.cur <= b.arena <= |s.arenas|
    && (forall a :: s.cur <= a < b.arena ==> !SeemsToFit(s, a, alignment, size))
    && if b.arena < |s.arenas| then
         && SeemsToFit(s, b.arena, alignment, size)
         && b == Block(b.arena, Candidate(s, b.arena, alignment), size, alignment)
         && s' == s.(cur := b.arena, ptr := Past(b.begin, size))
       else (s', b) == Grow(system, s, alignment, size)
  }

  lemma {:induction false} FirstFit(system: System, s: State, alignment: nat, size: nat)
    requires s.cur < |s.arenas|
    ensures var (s', b) := Seek(system, s, alignment, size); FoundFirst(system, s, alignment, size, s', b)
    decreases |s.arenas| - s.cur
  {
    var aligned := AlignPtr(s.ptr, alignment);
    if Past(aligned, size) <= s.arenas[s.cur].end {
      SeekHere(system, s, alignment, size, aligned, Past(aligned, size));
    } else if s.cur + 1 < |s.arenas| {
      var next := s.(cur := s.cur + 1, ptr := s.arenas[s.cur + 1].begin);
      SeekNext(system, s, alignment, size);
      FirstFit(system, next, alignment, size);
      var (s', b) := Seek(system, next, alignment, size);
      FoundNext(system, s, next, alignment, size, s', b);
    } else {
      SeekLast(system, s, alignment, size);
    }
  }

  /** The first fit from the next arena on is the first fit, if there is none here. */
  lemma FoundNext(system: System, s: State, next: State, alignment: nat, size: nat, s': State, b: Block)
    requires s.cur + 1 < |s.arenas| && !SeemsToFit(s, s.cur, alignment, size)
    requires next == s.(cur := s.cur + 1, ptr := s.arenas[s.cur + 1].begin)
    requires FoundFirst(system, next, alignment, size, s', b)
    ensures FoundFirst(system, s, alignment, size, s', b)
  {
    forall a | s.cur < a < |s.arenas| ensures SeemsToFit(s, a, alignment, size) == SeemsToFit(next, a, alignment, size) {
      SameCandidate(s, next, a, alignment);
    }
    if b.arena < |s.arenas| {
      SameCandidate(s, next, b.arena, alignment);
    }
  }

  lemma SameCandidate(s: State, next: State, a: nat, alignment: nat)
    requires s.cur < a < |s.arenas|
    requires next == s.(cur := s.cur + 1, ptr := s.arenas[s.cur + 1].begin)
    ensures Candidate(s, a, alignment) == Candidate(next, a, alignment)
  {
  }

  /** The search ends at once where the sum, such as it is, does not pass the end. */
  lemma SeekHere(system: System, s: State, alignment: nat, size: nat, aligned: nat, end: nat)
    requires s.cur < |s.arenas| && AlignPtr(s.ptr, alignment) == aligned
    requires Past(aligned, size) == end && end <= s.arenas[s.cur].end
    ensures Seek(system, s, alignment, size) == (s.(ptr := end), Block(s.cur, aligned, size, alignment))
  {
  }

  lemma SeekNext(system: System, s: State, alignment: nat, size: nat)
    requires s.cur + 1 < |s.arenas| && Past(AlignPtr(s.ptr, alignment), size) > s.arenas[s.cur].end
    ensures var next := s.(cur := s.cur + 1, ptr := s.arenas[s.cur + 1].begin);
      Seek(system, s, alignment, size) == Seek(system, next, alignment, size)
      && Grow(system, next, alignment, size) == Grow(system, s, alignment, size)
  {
  }

  lemma SeekLast(system: System, s: State, alignment: nat, size: nat)
    requires s.cur + 1 == |s.arenas| && Past(AlignPtr(s.ptr, alignment), size) > s.arenas[s.cur].end
    ensures Seek(system, s, alignment, size) == Grow(system, s, alignment, size)
  {
  }

  // ---- Live blocks are packed below the cursor ----

  /** The last block ends at or before the cursor, and the others are packed below its start. */
  predicate Packed(arenas: seq<Arena>, live: seq<Block>, cur: nat, ptr: nat)
    requires cur < |arenas|
  {
    live == [] ||
    var n := |live| - 1;
    var b := live[n];
    b.arena <= cur && arenas[b.arena].begin <= b.begin
    && b.begin + b.size <= (if b.arena == cur then ptr else arenas[b.arena].end)
    && BaseAligned(b.begin, b.alignment)
    && Packed(arenas, live[..n], b.arena, b.begin)
  }

  /** Position of a cursor along the chain. */
  function Offset(arenas: seq<Arena>, cur: nat, ptr: nat): int
    requires cur < |arenas|
  {
    Sum(arenas[..cur]) + ptr - arenas[cur].begin
  }

  function LiveBytes(live: seq<Block>): nat {
    if live == [] then 0 else LiveBytes(live[..|live| - 1]) + live[|live| - 1].size
  }

  predicate Legal(op: Op) {
    match op
    case Alloc(alignment, size) => IsValidAlignment(alignment) && alignment < TWO_64 && size < TWO_64
    case Purge => true
    case Scope(body) => forall i :: 0 <= i < |body| ==> Legal(body[i])
  }

  predicate AllLegal(ops: seq<Op>) {
    forall i :: 0 <= i < |ops| ==> Legal(ops[i])
  }

  lemma SumStep(arenas: seq<Arena>, n: nat)
    requires n < |arenas|
    ensures Sum(arenas[..n + 1]) == Sum(arenas[..n]) + arenas[n].end - arenas[n].begin
  {
    assert arenas[..n + 1][..n] == arenas[..n];
  }

  /** A cursor further along keeps what was packed. */
  lemma PackedLater(arenas: seq<Arena>, longer: seq<Arena>, live: seq<Block>, cur: nat, ptr: nat, cur': nat, ptr': nat)
    requires cur < |arenas| && arenas <= longer && cur <= cur' < |longer|
    requires Packed(arenas, live, cur, ptr)
    requires if cur == cur' then ptr <= ptr' else ptr <= arenas[cur].end
    ensures Packed(longer, live, cur', ptr')
  {
    if live != [] {
      PackedLonger(arenas, longer, live[..|live| - 1], live[|live| - 1].arena, live[|live| - 1].begin);
    }
  }

  lemma {:induction false} PackedLonger(arenas: seq<Arena>, longer: seq<Arena>, live: seq<Block>, cur: nat, ptr: nat)
    requires cur < |arenas| && arenas <= longer && Packed(arenas, live, cur, ptr)
    ensures Packed(longer, live, cur, ptr)
  {
    if live != [] {
      PackedLonger(arenas, longer, live[..|live| - 1], live[|live| - 1].arena, live[|live| - 1].begin);
    }
  }

  // ---- Every allocation ----

  /** The block starts at or after the cursor, lies in one arena, is aligned, and the cursor ends just behind it. */
  ghost predicate Handed(s: State, s': State, b: Block)
    requires s.cur < |s.arenas|
  {
    s.arenas <= s'.arenas && s.cur <= b.arena && s'.cur == b.arena && b.arena < |s'.arenas|
    && s'.ptr == b.begin + b.size
    && s'.arenas[b.arena].begin <= b.begin && b.begin + b.size <= s'.arenas[b.arena].end
    && (b.arena == s.cur ==> s.ptr <= b.begin)
    && BaseAligned(b.begin, b.alignment)
  }

  /** The block lies inside an arena the system gave memory for. */
  ghost predicate InsideGranted(arenas: seq<Arena>, b: Block) {
    InsideArena(arenas, b) && Granted(arenas[b.arena])
  }

  /** The request made the chain grow. */
  predicate Grew(system: System, s: State, alignment: nat, size: nat)
    requires s.cur < |s.arenas|
  {
    Seek(system, s, alignment, size).1.arena == |s.arenas|
  }

  /** The request made the chain grow, and the system gave no memory. */
  predicate Refused(system: System, s: State, alignment: nat, size: nat)
    requires s.cur < |s.arenas|
  {
    Grew(system, s, alignment, size) && system(s.arenas, Reserve(s.total, size), alignment) == NULL
  }

  /** No more than the address space is asked for, growth is not refused, and a request with
      alignment zero does grow the chain. */
  predicate Sane(system: System, s: State, alignment: nat, size: nat)
    requires s.cur < |s.arenas|
  {
    size <= LIMIT && !Refused(system, s, alignment, size) && (alignment == 0 ==> Grew(system, s, alignment, size))
  }

  lemma AlignUp(ptr: nat, alignment: nat)
    requires IsPow2(alignment) && alignment < TWO_64 && ptr <= LIMIT
    ensures ptr <= AlignPtr(ptr, alignment) < LIMIT + TWO_63 && BaseAligned(AlignPtr(ptr, alignment), alignment)
  {
    HalfWord(alignment);
    Align(ptr, alignment);
    RoundUpBounds(ptr, alignment);
  }

  /** An aligned pointer stays where it is. */
  lemma AlignedStays(ptr: nat, alignment: nat)
    requires IsPow2(alignment) && alignment < TWO_64 && ptr <= LIMIT && BaseAligned(ptr, alignment)
    ensures AlignPtr(ptr, alignment) == ptr
  {
    HalfWord(alignment);
    Align(ptr, alignment);
    RoundUpShift(ptr, 0, alignment);
    DivModUnique(alignment - 1, alignment, 0, alignment - 1);
  }

  /** A power of two below 2^64 is at most 2^63. */
  lemma HalfWord(alignment: nat)
    requires IsPow2(alignment) && alignment < TWO_64
    ensures 0 < alignment <= TWO_63
  {
    var k: nat :| Pow2(k) == alignment;
    var n: nat := 64;
    WordSize(n);
    if k >= n {
      PowDivides(n, k);
      assert false;
    }
    PowDivides(k, n - 1);
  }

  lemma {:induction false} SumNonNegative(arenas: seq<Arena>)
    requires forall i :: 0 <= i < |arenas| ==> arenas[i].begin <= arenas[i].end
    ensures Sum(arenas) >= 0
  {
    if arenas != [] {
      SumNonNegative(arenas[..|arenas| - 1]);
    }
  }

  /** One more arena, apart from the others and big enough, keeps the chain in order. */
  lemma ChainGrows(arenas: seq<Arena>, last: Arena)
    requires Chain(arenas) && Granted(last) && last.begin <= last.end <= LIMIT
    requires last.end - last.begin >= 2 * Sum(arenas)
    requires forall i :: 0 <= i < |arenas| ==> Apart(arenas[i], last)
    ensures Chain(arenas + [last]) && Sum(arenas + [last]) == Sum(arenas) + last.end - last.begin
  {
    var more := arenas + [last];
    assert more[..|arenas|] == arenas;
    forall i | 0 < i < |more| ensures GrowsAt(more, i) {
      if i < |arenas| {
        assert GrowsAt(arenas, i);
        assert more[..i] == arenas[..i];
      }
    }
  }

  /** Doubling the total never overflows: the last arena alone is at least as large as that. */
  lemma DoublingFits(arenas: seq<Arena>)
    requires Chain(arenas) && arenas != []
    ensures 0 <= Sum(arenas) && 2 * Sum(arenas) <= 3 * LIMIT < TWO_64
  {
    var n := |arenas| - 1;
    SumNonNegative(arenas);
    if n > 0 {
      assert GrowsAt(arenas, n);
    } else {
      assert arenas[..n] == [];
    }
  }

  /** In an ordered chain a new arena reserves twice what the chain holds, or the request if that is more. */
  lemma ReserveDoubles(s: State, size: nat)
    requires Inv(s)
    ensures Reserve(s.total, size) == if size < 2 * s.total then 2 * s.total else size
    ensures s.total == Sum(s.arenas) <= 2 * LIMIT
  {
    DoublingFits(s.arenas);
  }

  /** A growth that is granted is no larger than the address space and keeps everything in order. */
  lemma GrantedGrowth(system: System, s: State, alignment: nat, size: nat)
    requires Honest(system) && Inv(s) && system(s.arenas, Reserve(s.total, size), alignment) != NULL
    ensures var (s', b) := Grow(system, s, alignment, size);
      size <= LIMIT && Inv(s') && Handed(s, s', b) && InsideGranted(s'.arenas, b)
  {
    ReserveDoubles(s, size);
    var reserve := Reserve(s.total, size);
    var begin := system(s.arenas, reserve, alignment);
    assert Supplied(s.arenas, reserve, alignment, begin);
    GrowthIs(system, s, alignment, size, begin, reserve);
    GrownIsInOrder(s, begin, reserve, begin + size);
  }

  /** No sum overflows in a granted growth. */
  lemma GrowthIs(system: System, s: State, alignment: nat, size: nat, begin: nat, reserve: nat)
    requires reserve == Reserve(s.total, size) && begin == system(s.arenas, reserve, alignment)
    requires begin + reserve <= LIMIT && size <= reserve && s.total <= 2 * LIMIT
    ensures Grow(system, s, alignment, size)
         == (State(s.arenas + [Arena(begin, begin + reserve)], |s.arenas|, begin + size, s.total + reserve),
             Block(|s.arenas|, begin, size, alignment))
  {
  }

  lemma GrownIsInOrder(s: State, begin: nat, reserve: nat, p: nat)
    requires Inv(s) && begin != NULL && begin <= p <= begin + reserve <= LIMIT && reserve >= 2 * s.total
    requires forall i :: 0 <= i < |s.arenas| ==> Apart(s.arenas[i], Arena(begin, begin + reserve))
    ensures Inv(State(s.arenas + [Arena(begin, begin + reserve)], |s.arenas|, p, s.total + reserve))
  {
    ChainGrows(s.arenas, Arena(begin, begin + reserve));
  }

  lemma FirstArena(begin: nat, reserve: nat)
    requires begin != NULL && begin + reserve <= LIMIT
    ensures Past(begin, reserve) == begin + reserve
    ensures Inv(State([Arena(begin, begin + reserve)], 0, begin, reserve))
  {
    assert [Arena(begin, begin + reserve)][..0] == [];
  }

  /** In an arena of the chain, what seems to fit does fit, if it is no larger than the address space. */
  lemma FitsInChain(s: State, a: nat, alignment: nat, size: nat)
    requires Inv(s) && s.cur <= a < |s.arenas| && IsPow2(alignment) && alignment < TWO_64
    requires size <= LIMIT
    ensures !Wraps(s, a, alignment, size)
    ensures var c := Candidate(s, a, alignment);
      s.arenas[a].begin <= c && BaseAligned(c, alignment) && (a == s.cur ==> s.ptr <= c)
      && (SeemsToFit(s, a, alignment, size) <==> c + size <= s.arenas[a].end)
  {
    AlignUp(if a == s.cur then s.ptr else s.arenas[a].begin, alignment);
  }

  /** In an arena of the chain, what is larger than the address space and seems to fit has overflowed. */
  lemma OversizedWraps(s: State, a: nat, alignment: nat, size: nat)
    requires Inv(s) && a < |s.arenas| && size > LIMIT && SeemsToFit(s, a, alignment, size)
    ensures Wraps(s, a, alignment, size) && Candidate(s, a, alignment) + size > s.arenas[a].end
  {
  }

  /** For every valid alignment, zero included, and every size: the block lies inside granted memory exactly
      when the request is sane, and then the allocator stays in order. */
  lemma SafeExactlyWhenSane(system: System, s: State, alignment: nat, size: nat)
    requires Honest(system) && Inv(s) && Legal(Alloc(alignment, size))
    ensures var (s', b) := Seek(system, s, alignment, size);
      (InsideGranted(s'.arenas, b) <==> Sane(system, s, alignment, size))
      && (Sane(system, s, alignment, size) ==> Inv(s') && Handed(s, s', b))
  {
    ValidAlignments(alignment);
    FirstFit(system, s, alignment, size);
    var (s', b) := Seek(system, s, alignment, size);
    if b.arena == |s.arenas| {
      if system(s.arenas, Reserve(s.total, size), alignment) != NULL {
        GrantedGrowth(system, s, alignment, size);
      }
    } else if alignment == 0 {
      AlignZeroIsNull(if b.arena == s.cur then s.ptr else s.arenas[b.arena].begin);
    } else if size <= LIMIT {
      FitsInChain(s, b.arena, alignment, size);
    } else {
      OversizedWraps(s, b.arena, alignment, size);
    }
  }

  /** For alignments other than zero an unrefused request is safe exactly when the sum in the loop's
      condition overflows at no arena visited. */
  lemma SafeUnlessWrapped(system: System, s: State, alignment: nat, size: nat)
    requires Honest(system) && Inv(s) && Legal(Alloc(alignment, size)) && alignment > 0
    requires !Refused(system, s, alignment, size)
    ensures var (s', b) := Seek(system, s, alignment, size);
      InsideGranted(s'.arenas, b) <==> forall a :: s.cur <= a <= b.arena && a < |s.arenas| ==> !Wraps(s, a, alignment, size)
  {
    ValidAlignments(alignment);
    SafeExactlyWhenSane(system, s, alignment, size);
    FirstFit(system, s, alignment, size);
    var (s', b) := Seek(system, s, alignment, size);
    if size <= LIMIT {
      forall a | s.cur <= a <= b.arena && a < |s.arenas| ensures !Wraps(s, a, alignment, size) {
        FitsInChain(s, a, alignment, size);
      }
    } else if b.arena < |s.arenas| {
      OversizedWraps(s, b.arena, alignment, size);
    } else {
      GrantedGrowth(system, s, alignment, size);
    }
  }

  /** With alignment zero the result is null, unless a new arena is granted. */
  lemma ZeroAlignmentIsNull(system: System, s: State, zero: nat, size: nat)
    requires s.cur < |s.arenas| && zero == 0
    ensures IsValidAlignment(zero)
    ensures var b := Seek(system, s, zero, size).1;
      b.begin == NULL <==> !Grew(system, s, zero, size) || Refused(system, s, zero, size)
  {
    FirstFit(system, s, zero, size);
    var b := Seek(system, s, zero, size).1;
    if b.arena < |s.arenas| {
      AlignZeroIsNull(if b.arena == s.cur then s.ptr else s.arenas[b.arena].begin);
    }
  }

  // ---- Two ways to fail ----

  lemma AllocIs(system: System, s: State, live: seq<Block>, alignment: nat, size: nat, s': State, b: Block)
    requires s.cur < |s.arenas| && Seek(system, s, alignment, size) == (s', b)
    ensures RunOne(system, s, live, Alloc(alignment, size)) == Result(s', live + [b], false)
  {
  }

  /** Two allocations in a row. */
  lemma TwoAllocations(system: System, s: State, live: seq<Block>, a1: nat, size1: nat, a2: nat, size2: nat,
                       s1: State, b1: Block, s2: State, b2: Block)
    requires s.cur < |s.arenas| && s1.cur < |s1.arenas|
    requires Seek(system, s, a1, size1) == (s1, b1)
    requires Seek(system, s1, a2, size2) == (s2, b2)
    ensures Run(system, s, live, [Alloc(a1, size1), Alloc(a2, size2)]) == Result(s2, live + [b1] + [b2], false)
  {
    var first, second := Alloc(a1, size1), Alloc(a2, size2);
    var ops := [first, second];
    assert ops[1..] == [second] && [second][1..] == [];
    AllocIs(system, s, live, a1, size1, s1, b1);
    AllocIs(system, s1, live + [b1], a2, size2, s2, b2);
    assert Run(system, s2, live + [b1] + [b2], []) == Result(s2, live + [b1] + [b2], false);
    assert Run(system, s1, live + [b1], [second]) == Result(s2, live + [b1] + [b2], false);
  }

  lemma OneBack(ptr: nat, a: nat, back: nat)
    requires 0 < a <= ptr && BaseAligned(ptr, a) && back == ptr - a
    ensures BaseAligned(back, a)
  {
    var q := ptr / a;
    assert ptr == a * q;
    assert back == a * (q - 1);
    DivModUnique(back, a, q - 1, 0);
  }

  lemma WrapsBack(ptr: nat, a: nat)
    requires 0 < a <= ptr < TWO_64
    ensures Past(ptr, TWO_64 - a) == ptr - a
  {
  }

  /** For any alignment, a request that much short of 2^64 passes the loop's condition right behind a live
      block of that size: its own block leaves the arena, the cursor moves back over the live one, and the
      next allocation hands those bytes out a second time. */
  lemma OversizedRequestOverlaps(system: System, s: State, live: seq<Block>, a: nat, size: nat, last: Block, big: Block)
    requires Good(Result(s, live + [last], false)) && IsPow2(a) && a > 0 && a + size == TWO_64 && a <= s.ptr
    requires last == Block(s.cur, s.ptr - a, a, a) && big == Block(s.cur, s.ptr, size, a)
    ensures AllLegal([Alloc(a, size), Alloc(a, a)])
    ensures Run(system, s, live + [last], [Alloc(a, size), Alloc(a, a)]) == Result(s, live + [last] + [big] + [last], false)
    ensures !InsideArena(s.arenas, big) && !Disjoint(last, last)
  {
    LegalPair(a);
    LastAligned(s, live, a, last);
    OversizedSeeks(system, s, a, s.(ptr := s.ptr - a), last, big);
    TwoAllocations(system, s, live + [last], a, size, a, a, s.(ptr := s.ptr - a), big, s, last);
  }

  /** A block of its alignment's size that ends at the cursor leaves the cursor aligned. */
  lemma LastAligned(s: State, live: seq<Block>, a: nat, last: Block)
    requires Good(Result(s, live + [last], false)) && IsPow2(a) && 0 < a < TWO_64 && a <= s.ptr
    requires last == Block(s.cur, s.ptr - a, a, a)
    ensures AlignPtr(s.ptr, a) == s.ptr && s.arenas[s.cur].begin + a <= s.ptr
  {
    assert (live + [last])[|live|] == last;
    OneFurther(last.begin, a, s.ptr);
    AlignedStays(s.ptr, a);
  }

  lemma OneFurther(ptr: nat, a: nat, next: nat)
    requires 0 < a && BaseAligned(ptr, a) && next == ptr + a
    ensures BaseAligned(next, a)
  {
    var q := ptr / a;
    assert ptr == a * q;
    assert next == a * (q + 1);
    DivModUnique(next, a, q + 1, 0);
  }

  lemma OversizedSeeks(system: System, s: State, a: nat, back: State, older: Block, big: Block)
    requires Inv(s) && IsPow2(a) && 0 < a < TWO_64 && AlignPtr(s.ptr, a) == s.ptr && s.arenas[s.cur].begin + a <= s.ptr
    requires back == s.(ptr := s.ptr - a)
    requires older == Block(s.cur, s.ptr - a, a, a) && big == Block(s.cur, s.ptr, TWO_64 - a, a)
    ensures Seek(system, s, a, TWO_64 - a) == (back, big) && !InsideArena(s.arenas, big)
    ensures Seek(system, back, a, a) == (s, older)
  {
    PredecessorStays(s.ptr, a, back.ptr);
    OversizedPasses(system, s, back, big, a);
    SameAgain(system, s, back, older, a);
  }

  lemma PredecessorStays(ptr: nat, a: nat, back: nat)
    requires IsPow2(a) && 0 < a <= ptr <= LIMIT && a < TWO_64 && AlignPtr(ptr, a) == ptr && back == ptr - a
    ensures BaseAligned(back, a) && AlignPtr(back, a) == back
  {
    StaysMeansAligned(ptr, a);
    OneBack(ptr, a, back);
    AlignedStays(back, a);
  }

  lemma StaysMeansAligned(ptr: nat, a: nat)
    requires IsPow2(a) && a < TWO_64 && ptr <= LIMIT && AlignPtr(ptr, a) == ptr
    ensures BaseAligned(ptr, a)
  {
    AlignUp(ptr, a);
  }

  lemma LegalPair(a: nat)
    requires IsPow2(a) && 0 < a < TWO_64
    ensures AllLegal([Alloc(a, TWO_64 - a), Alloc(a, a)]) && AllLegal([Alloc(a, a), Alloc(a, a)])
  {
    ValidAlignments(a);
  }

  lemma OversizedPasses(system: System, s: State, back: State, big: Block, a: nat)
    requires Inv(s) && AlignPtr(s.ptr, a) == s.ptr && 0 < a && s.arenas[s.cur].begin + a <= s.ptr
    requires back == s.(ptr := s.ptr - a) && big == Block(s.cur, s.ptr, TWO_64 - a, a)
    ensures Seek(system, s, a, TWO_64 - a) == (back, big) && !InsideArena(s.arenas, big)
  {
    WrapsBack(s.ptr, a);
    SeekHere(system, s, a, TWO_64 - a, s.ptr, s.ptr - a);
  }

  lemma SameAgain(system: System, s: State, back: State, older: Block, a: nat)
    requires Inv(s) && 0 < a && s.arenas[s.cur].begin + a <= s.ptr
    requires back == s.(ptr := s.ptr - a) && AlignPtr(back.ptr, a) == back.ptr
    requires older == Block(s.cur, s.ptr - a, a, a)
    ensures Seek(system, back, a, a) == (s, older)
  {
    SeekHere(system, back, a, a, back.ptr, s.ptr);
  }

  /** Null is aligned to everything. */
  lemma NullStays(alignment: nat)
    requires IsPow2(alignment) && alignment < TWO_64
    ensures AlignPtr(NULL, alignment) == NULL
  {
    HalfWord(alignment);
    DivModUnique(0, alignment, 0, 0);
    AlignedStays(NULL, alignment);
  }

  /** A system that has no memory at all is honest. */
  lemma RefusingIsHonest(system: System)
    requires forall arenas, size, alignment :: system(arenas, size, alignment) == NULL
    ensures Honest(system)
  {
  }

  /** A modest request whose growth is refused is answered with null, and the next one of the same size with
      a small address that no system ever gave: the fake arena starts at null and passes for memory. */
  lemma RefusedGrowthServesNull(system: System, s: State, live: seq<Block>, a: nat)
    requires Inv(s) && IsPow2(a) && 0 < a <= LIMIT && a <= s.total
    requires Refused(system, s, a, a)
    ensures var n := |s.arenas|;
      var nil, low := Block(n, NULL, a, a), Block(n, a, a, a);
      var ops := [Alloc(a, a), Alloc(a, a)];
      var r := Run(system, s, live, ops);
      AllLegal(ops) && AllModest(ops) && r.live == live + [nil] + [low]
      && !InsideGranted(r.state.arenas, nil) && !InsideGranted(r.state.arenas, low)
  {
    var n, reserve := |s.arenas|, Reserve(s.total, a);
    var nil, low := Block(n, NULL, a, a), Block(n, a, a, a);
    LegalPair(a);
    assert 2 * a <= reserve by {
      DoublingFits(s.arenas);
    }
    FirstFit(system, s, a, a);
    var (s1, b1) := Seek(system, s, a, a);
    assert s1.arenas[n] == Arena(NULL, Past(NULL, reserve)) && s1.ptr == a && b1 == nil;
    assert Past(NULL, reserve) == reserve by {
      DoublingFits(s.arenas);
    }
    var s2 := s1.(ptr := 2 * a);
    assert Seek(system, s1, a, a) == (s2, low) by {
      SelfAligned(a);
      AlignedStays(a, a);
      SeekHere(system, s1, a, a, a, 2 * a);
    }
    TwoAllocations(system, s, live, a, a, a, a, s1, b1, s2, low);
  }

  lemma SelfAligned(a: nat)
    requires a > 0
    ensures BaseAligned(a, a)
  {
    DivModUnique(a, a, 1, 0);
  }

  // ---- Every run ----

  ghost predicate Good(r: Result) {
    Inv(r.state) && Packed(r.state.arenas, r.live, r.state.cur, r.state.ptr)
  }

  /** Requests no larger than the address space. */
  predicate Modest(op: Op) {
    match op
    case Alloc(_, size) => size <= LIMIT
    case Purge => true
    case Scope(body) => forall i :: 0 <= i < |body| ==> Modest(body[i])
  }

  predicate AllModest(ops: seq<Op>) {
    forall i :: 0 <= i < |ops| ==> Modest(ops[i])
  }

  /** Along the run no growth is refused, and no request with alignment zero is served from an arena
      already there. */
  ghost predicate Untroubled(system: System, s: State, live: seq<Block>, ops: seq<Op>)
    requires s.cur < |s.arenas|
    decreases ops, 1
  {
    ops == [] ||
    (UntroubledOne(system, s, live, ops[0]) &&
     var first := RunOne(system, s, live, ops[0]);
     Untroubled(system, first.state, first.live, ops[1..]))
  }

  ghost predicate UntroubledOne(system: System, s: State, live: seq<Block>, op: Op)
    requires s.cur < |s.arenas|
    decreases op, 0
  {
    match op
    case Alloc(alignment, size) =>
      !Refused(system, s, alignment, size) && (alignment == 0 ==> Grew(system, s, alignment, size))
    case Purge => true
    case Scope(body) => Untroubled(system, s, live, body)
  }

  /** Every block handed out along the run, at every depth, lies inside an arena the system granted. */
  ghost predicate HandsOutSafely(system: System, s: State, live: seq<Block>, ops: seq<Op>)
    requires s.cur < |s.arenas|
    decreases ops, 1
  {
    ops == [] ||
    (SafeOne(system, s, live, ops[0]) &&
     var first := RunOne(system, s, live, ops[0]);
     HandsOutSafely(system, first.state, first.live, ops[1..]))
  }

  ghost predicate SafeOne(system: System, s: State, live: seq<Block>, op: Op)
    requires s.cur < |s.arenas|
    decreases op, 0
  {
    match op
    case Alloc(alignment, size) =>
      var (s', b) := Seek(system, s, alignment, size);
      InsideGranted(s'.arenas, b)
    case Purge => true
    case Scope(body) => HandsOutSafely(system, s, live, body)
  }

  lemma AllocKeeps(system: System, s: State, live: seq<Block>, alignment: nat, size: nat)
    requires Honest(system) && Good(Result(s, live, false)) && Legal(Alloc(alignment, size)) && Sane(system, s, alignment, size)
    ensures Good(RunOne(system, s, live, Alloc(alignment, size)))
  {
    SafeExactlyWhenSane(system, s, alignment, size);
    var (s', b) := Seek(system, s, alignment, size);
    FirstFit(system, s, alignment, size);
    PackedLater(s.arenas, s'.arenas, live, s.cur, s.ptr, b.arena, b.begin);
    assert (live + [b])[..|live|] == live;
  }

  /** Whatever the nesting of scopes and purges, live blocks stay packed below the cursor of a run
      that hands out safe blocks. */
  lemma {:induction false} RunKeeps(system: System, s: State, live: seq<Block>, ops: seq<Op>)
    requires Honest(system) && Good(Result(s, live, false)) && AllLegal(ops) && HandsOutSafely(system, s, live, ops)
    ensures Good(Run(system, s, live, ops))
    decreases ops, 1
  {
    if ops != [] {
      RunOneKeeps(system, s, live, ops[0]);
      var first := RunOne(system, s, live, ops[0]);
      RunKeeps(system, first.state, first.live, ops[1..]);
    }
  }

  lemma {:induction false} RunOneKeeps(system: System, s: State, live: seq<Block>, op: Op)
    requires Honest(system) && Good(Result(s, live, false)) && Legal(op) && SafeOne(system, s, live, op)
    ensures Good(RunOne(system, s, live, op))
    decreases op, 0
  {
    match op
    case Alloc(alignment, size) =>
      SafeExactlyWhenSane(system, s, alignment, size);
      AllocKeeps(system, s, live, alignment, size);
    case Purge =>
    case Scope(body) =>
      RunKeeps(system, s, live, body);
      PackedLonger(s.arenas, Run(system, s, live, body).state.arenas, live, s.cur, s.ptr);
  }

  /** A run hands out blocks of granted memory only, at every depth, exactly when no request in it is larger
      than the address space, no growth along it is refused, and none with alignment zero finds room. */
  lemma {:induction false} SafeExactlyWhenModest(system: System, s: State, live: seq<Block>, ops: seq<Op>)
    requires Honest(system) && Good(Result(s, live, false)) && AllLegal(ops)
    ensures HandsOutSafely(system, s, live, ops) <==> AllModest(ops) && Untroubled(system, s, live, ops)
    decreases ops, 1
  {
    if ops != [] {
      SafeOneExactlyWhenModest(system, s, live, ops[0]);
      assert AllModest(ops) <==> Modest(ops[0]) && AllModest(ops[1..]) by {
        assert forall i :: 0 < i < |ops| ==> ops[i] == ops[1..][i - 1];
      }
      if SafeOne(system, s, live, ops[0]) {
        RunOneKeeps(system, s, live, ops[0]);
        var first := RunOne(system, s, live, ops[0]);
        SafeExactlyWhenModest(system, first.state, first.live, ops[1..]);
      }
    }
  }

  lemma {:induction false} SafeOneExactlyWhenModest(system: System, s: State, live: seq<Block>, op: Op)
    requires Honest(system) && Good(Result(s, live, false)) && Legal(op)
    ensures SafeOne(system, s, live, op) <==> Modest(op) && UntroubledOne(system, s, live, op)
    decreases op, 0
  {
    match op
    case Alloc(alignment, size) => SafeExactlyWhenSane(system, s, alignment, size);
    case Purge =>
    case Scope(body) => SafeExactlyWhenModest(system, s, live, body);
  }

  predicate Disjoint(a: Block, b: Block) {
    a.begin + a.size <= b.begin || b.begin + b.size <= a.begin
  }

  ghost predicate InsideArena(arenas: seq<Arena>, b: Block) {
    b.arena < |arenas| && arenas[b.arena].begin <= b.begin && b.begin + b.size <= arenas[b.arena].end
  }

  /** Blocks packed below a cursor lie in one arena each, are aligned, and end before it. */
  lemma {:induction false} PackedInside(arenas: seq<Arena>, live: seq<Block>, cur: nat, ptr: nat, i: nat)
    requires cur < |arenas| && Packed(arenas, live, cur, ptr) && ptr <= arenas[cur].end && i < |live|
    ensures InsideArena(arenas, live[i]) && BaseAligned(live[i].begin, live[i].alignment)
    ensures live[i].arena <= cur && (live[i].arena == cur ==> live[i].begin + live[i].size <= ptr)
  {
    var n := |live| - 1;
    if i < n {
      PackedInside(arenas, live[..n], live[n].arena, live[n].begin, i);
    }
  }

  /** Live blocks never overlap. */
  lemma {:induction false} PackedDisjoint(arenas: seq<Arena>, live: seq<Block>, cur: nat, ptr: nat, i: nat, j: nat)
    requires Chain(arenas) && cur < |arenas| && Packed(arenas, live, cur, ptr) && ptr <= arenas[cur].end
    requires i < j < |live|
    ensures Disjoint(live[i], live[j])
  {
    var n := |live| - 1;
    var b := live[n];
    if j < n {
      PackedDisjoint(arenas, live[..n], b.arena, b.begin, i, j);
    } else {
      PackedInside(arenas, live[..n], b.arena, b.begin, i);
      if live[i].arena < b.arena {
        assert Apart(arenas[live[i].arena], arenas[b.arena]);
      }
    }
  }

  /** Main result: after any run of requests no larger than the address space along which no growth is refused,
      live blocks are aligned, inside one granted arena each, and pairwise disjoint. */
  lemma LiveBlocksAreSafe(system: System, s: State, ops: seq<Op>)
    requires Honest(system) && Inv(s) && AllLegal(ops) && AllModest(ops) && Untroubled(system, s, [], ops)
    ensures var r := Run(system, s, [], ops);
      (forall i :: 0 <= i < |r.live| ==>
        InsideGranted(r.state.arenas, r.live[i]) && BaseAligned(r.live[i].begin, r.live[i].alignment))
      && (forall i, j :: 0 <= i < j < |r.live| ==> Disjoint(r.live[i], r.live[j]))
  {
    SafeExactlyWhenModest(system, s, [], ops);
    RunKeeps(system, s, [], ops);
    var r := Run(system, s, [], ops);
    forall i | 0 <= i < |r.live|
      ensures InsideGranted(r.state.arenas, r.live[i]) && BaseAligned(r.live[i].begin, r.live[i].alignment)
    {
      PackedInside(r.state.arenas, r.live, r.state.cur, r.state.ptr, i);
    }
    forall i, j | 0 <= i < j < |r.live| ensures Disjoint(r.live[i], r.live[j]) {
      PackedDisjoint(r.state.arenas, r.live, r.state.cur, r.state.ptr, i, j);
    }
  }

  predicate HasPurge(op: Op) {
    match op
    case Alloc(_, _) => false
    case Purge => true
    case Scope(body) => exists i :: 0 <= i < |body| && HasPurge(body[i])
  }

  /** A run without purges keeps every block there was. */
  lemma {:induction false} OlderBlocksSurvive(system: System, s: State, live: seq<Block>, ops: seq<Op>)
    requires s.cur < |s.arenas|
    ensures var r := Run(system, s, live, ops);
      (r.purged <==> exists i :: 0 <= i < |ops| && HasPurge(ops[i]))
      && (!r.purged ==> live <= r.live)
    decreases ops, 1
  {
    if ops != [] {
      PurgedByOp(system, s, live, ops[0]);
      var first := RunOne(system, s, live, ops[0]);
      OlderBlocksSurvive(system, first.state, first.live, ops[1..]);
      if exists i :: 0 <= i < |ops| && HasPurge(ops[i]) {
        var i :| 0 <= i < |ops| && HasPurge(ops[i]);
        if i > 0 {
          assert ops[1..][i - 1] == ops[i];
        }
      }
      if i :| 0 <= i < |ops[1..]| && HasPurge(ops[1..][i]) {
        assert ops[i + 1] == ops[1..][i];
      }
    }
  }

  lemma {:induction false} PurgedByOp(system: System, s: State, live: seq<Block>, op: Op)
    requires s.cur < |s.arenas|
    ensures var r := RunOne(system, s, live, op);
      (r.purged <==> HasPurge(op)) && (!r.purged ==> live <= r.live)
    decreases op, 0
  {
    if op.Scope? {
      OlderBlocksSurvive(system, s, live, op.body);
    }
  }

  // ---- Sizes ----

  lemma {:induction false} OffsetGrows(arenas: seq<Arena>, a: nat, p: nat, cur: nat, ptr: nat)
    requires Chain(arenas) && a <= cur < |arenas| && arenas[cur].begin <= ptr
    requires if a == cur then p <= ptr else p <= arenas[a].end
    ensures Offset(arenas, a, p) <= Offset(arenas, cur, ptr)
    decreases cur
  {
    if a < cur {
      SumStep(arenas, cur - 1);
      OffsetGrows(arenas, a, p, cur - 1, arenas[cur - 1].end);
    }
  }

  /** SizeAllocated covers the live blocks. */
  lemma {:induction false} LiveBytesCovered(arenas: seq<Arena>, live: seq<Block>, cur: nat, ptr: nat)
    requires Chain(arenas) && cur < |arenas| && Packed(arenas, live, cur, ptr) && arenas[cur].begin <= ptr
    ensures LiveBytes(live) <= Offset(arenas, cur, ptr)
  {
    if live == [] {
      SumNonNegative(arenas[..cur]);
    } else {
      var n := |live| - 1;
      var b := live[n];
      LiveBytesCovered(arenas, live[..n], b.arena, b.begin);
      OffsetGrows(arenas, b.arena, b.begin + b.size, cur, ptr);
    }
  }

  /** Leaving a scope puts the cursor and SizeAllocated back, and keeps the arenas it added. */
  lemma ScopeRestores(system: System, s: State, live: seq<Block>, body: seq<Op>)
    requires s.cur < |s.arenas|
    ensures var s' := RunOne(system, s, live, Scope(body)).state;
      s'.cur == s.cur && s'.ptr == s.ptr && s.arenas <= s'.arenas
      && Offset(s'.arenas, s'.cur, s'.ptr) == Offset(s.arenas, s.cur, s.ptr)
  {
    var s' := RunOne(system, s, live, Scope(body)).state;
    assert s'.arenas[..s.cur] == s.arenas[..s.cur];
  }

  function Pow3(n: nat): (p: nat)
    ensures p > 0
  {
    if n == 0 then 1 else 3 * Pow3(n - 1)
  }

  lemma Triples(p: nat, first: nat, sum: int, size: int)
    requires sum >= p * first && size >= 2 * sum
    ensures sum + size >= (3 * p) * first
  {
    assert (3 * p) * first == 3 * (p * first);
  }

  /** n arenas hold at least 3^(n-1) times the first. */
  lemma {:induction false} ArenasGrowGeometrically(arenas: seq<Arena>, n: nat)
    requires Chain(arenas) && 0 < n <= |arenas|
    ensures Sum(arenas[..n]) >= Pow3(n - 1) * (arenas[0].end - arenas[0].begin)
    decreases n
  {
    SumStep(arenas, n - 1);
    if n > 1 {
      ArenasGrowGeometrically(arenas, n - 1);
      assert GrowsAt(arenas, n - 1);
      Triples(Pow3(n - 2), arenas[0].end - arenas[0].begin, Sum(arenas[..n - 1]), arenas[n - 1].end - arenas[n - 1].begin);
    } else {
      assert arenas[..0] == [];
    }
  }

  // ---- Running again what once fitted ----

  /** A state whose chain has grown since. */
  function Regrown(s: State, grown: seq<Arena>, total: nat): State {
    s.(arenas := grown, total := total)
  }

  /** No request in it has alignment zero. */
  predicate Aligned(op: Op) {
    match op
    case Alloc(alignment, _) => alignment > 0
    case Purge => true
    case Scope(body) => forall i :: 0 <= i < |body| ==> Aligned(body[i])
  }

  predicate AllAligned(ops: seq<Op>) {
    forall i :: 0 <= i < |ops| ==> Aligned(ops[i])
  }

  /** A block made for a request starts its arena, where alignment moves nothing, granted or not. */
  lemma FreshArena(system: System, s: State, alignment: nat, size: nat)
    requires Honest(system) && IsPow2(alignment) && alignment < TWO_64 && size < TWO_64
    ensures var (s', b) := Grow(system, s, alignment, size);
      s'.arenas[|s.arenas|].begin == b.begin && AlignPtr(b.begin, alignment) == b.begin
      && Past(b.begin, size) <= s'.arenas[|s.arenas|].end
  {
    var reserve := Reserve(s.total, size);
    var begin := system(s.arenas, reserve, alignment);
    if begin == NULL {
      NullStays(alignment);
      ReserveIsWord(s.total, size);
    } else {
      assert Supplied(s.arenas, reserve, alignment, begin);
      AlignedStays(begin, alignment);
    }
  }

  lemma ReserveIsWord(total: nat, size: nat)
    requires size < TWO_64
    ensures size <= Reserve(total, size) < TWO_64
  {
  }

  lemma GrowReplay(system: System, again: System, s: State, grown: seq<Arena>, total: nat, alignment: nat, size: nat)
    requires Honest(system) && IsPow2(alignment) && alignment < TWO_64 && size < TWO_64
    requires Grow(system, s, alignment, size).0.arenas <= grown
    ensures var (s', b) := Grow(system, s, alignment, size);
      |s.arenas| < |grown|
      && Seek(again, State(grown, |s.arenas|, grown[|s.arenas|].begin, total), alignment, size) == (Regrown(s', grown, total), b)
  {
    FreshArena(system, s, alignment, size);
    var (s', b) := Grow(system, s, alignment, size);
    var n := |s.arenas|;
    assert grown[n] == s'.arenas[n];
    SeekHere(again, State(grown, n, b.begin, total), alignment, size, b.begin, Past(b.begin, size));
  }

  lemma {:induction false} SeekReplay(system: System, again: System, s: State, grown: seq<Arena>, total: nat, alignment: nat, size: nat)
    requires Honest(system) && s.cur < |s.arenas| && IsPow2(alignment) && alignment < TWO_64 && size < TWO_64
    requires Seek(system, s, alignment, size).0.arenas <= grown
    ensures var (s', b) := Seek(system, s, alignment, size);
      s.cur < |grown| && Seek(again, Regrown(s, grown, total), alignment, size) == (Regrown(s', grown, total), b)
    decreases |s.arenas| - s.cur
  {
    SeekExtends(system, s, alignment, size);
    assert grown[s.cur] == s.arenas[s.cur];
    var aligned := AlignPtr(s.ptr, alignment);
    if Past(aligned, size) <= s.arenas[s.cur].end {
      SeekHere(system, s, alignment, size, aligned, Past(aligned, size));
      SeekHere(again, Regrown(s, grown, total), alignment, size, aligned, Past(aligned, size));
    } else if s.cur + 1 < |s.arenas| {
      var next := s.(cur := s.cur + 1, ptr := s.arenas[s.cur + 1].begin);
      assert grown[next.cur] == s.arenas[next.cur];
      SeekNext(system, s, alignment, size);
      SeekNext(again, Regrown(s, grown, total), alignment, size);
      SeekReplay(system, again, next, grown, total, alignment, size);
    } else {
      SeekLast(system, s, alignment, size);
      GrowReplay(system, again, s, grown, total, alignment, size);
      SeekNext(again, Regrown(s, grown, total), alignment, size);
    }
  }

  /** The same operations from the same cursor, once the arenas are there, hand out
      the same blocks and never ask the system. */
  lemma {:induction false} RunReplay(system: System, again: System, s: State, live: seq<Block>, ops: seq<Op>, grown: seq<Arena>, total: nat)
    requires Honest(system) && s.cur < |s.arenas| && AllLegal(ops) && AllAligned(ops)
    requires Run(system, s, live, ops).state.arenas <= grown
    ensures var r := Run(system, s, live, ops);
      s.cur < |grown|
      && Run(again, Regrown(s, grown, total), live, ops) == r.(state := Regrown(r.state, grown, total))
    decreases ops, 1
  {
    if ops != [] {
      var first := RunOne(system, s, live, ops[0]);
      RunOneReplay(system, again, s, live, ops[0], grown, total);
      RunReplay(system, again, first.state, first.live, ops[1..], grown, total);
    }
  }

  lemma {:induction false} RunOneReplay(system: System, again: System, s: State, live: seq<Block>, op: Op, grown: seq<Arena>, total: nat)
    requires Honest(system) && s.cur < |s.arenas| && Legal(op) && Aligned(op)
    requires RunOne(system, s, live, op).state.arenas <= grown
    ensures var r := RunOne(system, s, live, op);
      s.cur < |grown|
      && RunOne(again, Regrown(s, grown, total), live, op) == r.(state := Regrown(r.state, grown, total))
    decreases op, 0
  {
    match op
    case Alloc(alignment, size) =>
      ValidAlignments(alignment);
      SeekReplay(system, again, s, grown, total, alignment, size);
    case Purge =>
    case Scope(body) => RunReplay(system, again, s, live, body, grown, total);
  }

  /** One sequence of operations after another. */
  lemma {:induction false} RunConcat(system: System, s: State, live: seq<Block>, a: seq<Op>, b: seq<Op>)
    requires s.cur < |s.arenas|
    ensures var r := Run(system, s, live, a);
      var r2 := Run(system, r.state, r.live, b);
      Run(system, s, live, a + b) == r2.(purged := r.purged || r2.purged)
    decreases |a|
  {
    if a == [] {
      assert a + b == b;
    } else {
      var first := RunOne(system, s, live, a[0]);
      assert (a + b)[1..] == a[1..] + b;
      RunConcat(system, first.state, first.live, a[1..], b);
    }
  }

  /** After a purge, whatever was done before it, operations repeated from the start of the first arena hand
      out the same blocks, leave the allocator as they left it the first time, and never ask the system: that
      any other system in its place gives the same run. */
  lemma PurgeStartsOver(system: System, again: System, s: State, ops: seq<Op>)
    requires Honest(system) && s.cur == 0 < |s.arenas| && s.ptr == s.arenas[0].begin
    requires AllLegal(ops) && AllAligned(ops)
    ensures var first := Run(system, s, [], ops);
      var purged := Run(system, s, [], ops + [Purge]);
      purged.live == [] && purged.state.arenas == first.state.arenas
      && Run(again, purged.state, purged.live, ops) == first
  {
    var first := Run(system, s, [], ops);
    RunConcat(system, s, [], ops, [Purge]);
    AfterPurge(system, first.state, first.live);
    assert s.arenas <= first.state.arenas;
    RunReplay(system, again, s, [], ops, first.state.arenas, first.state.total);
    assert Regrown(first.state, first.state.arenas, first.state.total) == first.state;
  }

  /** A purge puts the cursor at the start of the first arena and touches nothing else. */
  lemma AfterPurge(system: System, s: State, live: seq<Block>)
    requires s.cur < |s.arenas|
    ensures Run(system, s, live, [Purge]) == Result(State(s.arenas, 0, s.arenas[0].begin, s.total), [], true)
  {
    var ops := [Purge];
    assert ops[1..] == [];
  }

  // ---- The allocator object ----

  class Allocator {
    var arenas: seq<Arena>
    var cur: nat
    var ptr: nat
    var totalSize: nat
    const system: System
    /** Blocks handed out and neither purged nor left behind in a scope. */
    ghost var live: seq<Block>

    function Now(): State
      reads this
    {
      State(arenas, cur, ptr, totalSize)
    }

    /** All that the operations need to run at all. */
    ghost predicate Usable()
      reads this
    {
      Honest(system) && cur < |arenas|
    }

    ghost predicate Valid()
      reads this
      ensures Valid() ==> Usable()
    {
      Honest(system) && Good(Result(Now(), live, false))
    }

    /** The first arena may be refused as well, and then nothing is in order. */
    constructor (reserve: nat, system: System)
      requires 0 < reserve < TWO_64 && Honest(system)
      ensures Usable() && live == [] && this.system == system && Now() == State([Arena(ptr, Past(ptr, reserve))], 0, ptr, reserve)
      ensures Valid() <==> ptr != NULL
    {
      var begin := system([], reserve, 16);
      this.system := system;
      arenas := [Arena(begin, Past(begin, reserve))];
      cur, ptr, totalSize := 0, begin, reserve;
      live := [];
      new;
      if begin != NULL {
        assert Supplied([], reserve, 16, begin);
        FirstArena(begin, reserve);
      }
    }

    /** A new arena at the end of the chain, whatever the system answers. */
    method AddArena(alignment: nat, size: nat)
      requires Usable() && size < TWO_64
      modifies this`arenas, this`cur, this`ptr, this`totalSize
      ensures Grow(system, old(Now()), alignment, size) == (Now().(ptr := Past(ptr, size)), Block(cur, ptr, size, alignment))
      ensures Usable() && Past(ptr, size) <= arenas[cur].end
    {
      ReserveIsWord(totalSize, size);
      var reserve := MoreOf(Past(totalSize, totalSize), size);
      var begin := system(arenas, reserve, alignment);
      assert begin != NULL ==> Supplied(arenas, reserve, alignment, begin);
      cur := |arenas|;
      arenas := arenas + [Arena(begin, Past(begin, reserve))];
      ptr := begin;
      totalSize := Past(totalSize, reserve);
    }

    /** The search loop, in wrapping arithmetic as the source has it. */
    method Take(alignment: nat, size: nat) returns (block: nat)
      requires Usable() && size < TWO_64
      modifies this`arenas, this`cur, this`ptr, this`totalSize
      ensures Usable()
      ensures var (s', b) := Seek(system, old(Now()), alignment, size); Now() == s' && block == b.begin
    {
      ghost var found := Seek(system, Now(), alignment, size);
      var aligned := AlignPtr(ptr, alignment);
      while Past(aligned, size) > arenas[cur].end
        invariant Usable()
        invariant aligned == AlignPtr(ptr, alignment)
        invariant found == Seek(system, Now(), alignment, size)
        decreases |arenas| - cur
      {
        if cur + 1 == |arenas| {
          AddArena(alignment, size);
          aligned := ptr;
          break;
        } else {
          cur := cur + 1;
          ptr := arenas[cur].begin;
          aligned := AlignPtr(ptr, alignment);
        }
      }
      assert Past(aligned, size) <= arenas[cur].end;
      ptr := Past(aligned, size);
      return aligned;
    }

    method AllocAligned(alignment: nat, size: nat) returns (block: nat)
      requires Usable() && Legal(Alloc(alignment, size))
      modifies this
      ensures Usable()
      ensures RunOne(system, old(Now()), old(live), Alloc(alignment, size)) == Result(Now(), live, false)
      ensures |live| > 0 && block == live[|live| - 1].begin
      ensures old(Valid()) ==>
        (InsideGranted(arenas, live[|live| - 1]) <==> Sane(system, old(Now()), alignment, size))
        && (Sane(system, old(Now()), alignment, size) ==> Valid())
    {
      ghost var b := Seek(system, Now(), alignment, size).1;
      if Valid() {
        SafeExactlyWhenSane(system, Now(), alignment, size);
        if Sane(system, Now(), alignment, size) {
          AllocKeeps(system, Now(), live, alignment, size);
        }
      }
      block := Take(alignment, size);
      live := live + [b];
    }

    method Purge()
      requires Usable()
      modifies this
      ensures Usable() && live == [] && Now() == Purged(old(Now()))
      ensures cur == 0 && ptr == arenas[0].begin && arenas == old(arenas) && totalSize == old(totalSize)
      ensures Offset(arenas, cur, ptr) == 0
      ensures old(Valid()) ==> Valid()
    {
      cur := 0;
      ptr := arenas[0].begin;
      live := [];
    }

    /** The handler is any sequence of operations on the same allocator, scopes included. */
    method Scoped(body: seq<Op>) returns (ghost purged: bool)
      requires Usable() && Legal(Scope(body))
      modifies this
      ensures Usable() && RunOne(system, old(Now()), old(live), Scope(body)) == Result(Now(), live, purged)
      ensures old(Valid()) && HandsOutSafely(system, old(Now()), old(live), body) ==> Valid()
      decreases body, 1
    {
      if Valid() && HandsOutSafely(system, Now(), live, body) {
        RunOneKeeps(system, Now(), live, Scope(body));
      }
      ghost var before := live;
      var prevCur, prevPtr := cur, ptr;
      purged := Perform(body);
      cur := prevCur;
      ptr := prevPtr;
      live := if purged then [] else before;
    }

    method Perform(ops: seq<Op>) returns (ghost purged: bool)
      requires Usable() && AllLegal(ops)
      modifies this
      ensures Usable() && Run(system, old(Now()), old(live), ops) == Result(Now(), live, purged)
      ensures old(Valid()) && HandsOutSafely(system, old(Now()), old(live), ops) ==> Valid()
      decreases ops, 0
    {
      if Valid() && HandsOutSafely(system, Now(), live, ops) {
        RunKeeps(system, Now(), live, ops);
      }
      purged := false;
      if ops != [] {
        match ops[0] {
          case Alloc(alignment, size) =>
            var block := AllocAligned(alignment, size);
          case Purge =>
            Purge();
            purged := true;
          case Scope(body) =>
            purged := Scoped(body);
        }
        ghost var rest := Perform(ops[1..]);
        purged := purged || rest;
      }
    }

    /** Walks the chain up to the cursor's arena. */
    method SizeAllocated() returns (sz: int)
      requires Valid()
      ensures sz == Offset(arenas, cur, ptr) && sz >= LiveBytes(live)
    {
      LiveBytesCovered(arenas, live, cur, ptr);
      var i := 0;
      sz := 0;
      while i != cur
        invariant 0 <= i <= cur && sz == Sum(arenas[..i])
      {
        SumStep(arenas, i);
        sz := sz + (arenas[i].end - arenas[i].begin);
        i := i + 1;
      }
      sz := sz + (ptr - arenas[cur].begin);
    }
  }
}
