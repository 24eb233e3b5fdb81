/** types/type_vault.h and types/type_vault.cc: one shared append-only list of types under a
    reader/writer lock, and per-thread caches with a dirty flag and a cursor into the list.
    Lock operations, flag operations and list accesses are separate steps of any vault's thread. */
module TypeVault {
  import opened Common

  /** A schema is known by its index in the shared list; fields refer to schemas. */
  type SchemaId = nat

  datatype TypeEntry = TypeEntry(name: string, fields: seq<SchemaId>)

  /** Where a vault's thread is. `start` is how many types were published when the lookup began. */
  datatype Phase =
    | Idle
    | FindTest(name: string, start: nat)                         // test_and_set of updated_ is next
    | FindLock(name: string, start: nat)                         // flag was dirty: waiting for the shared lock
    | FindWalk(name: string, start: nat, node: nat)              // inside RunShared, next list node
    | FindLookup(name: string, start: nat)                       // map lookup is next
    | CreateLock(name: string, fields: seq<string>)              // waiting for the exclusive lock
    | CreateMark(name: string, fields: seq<string>)              // lock held, own flag to be set
    | CreateCheck(name: string, fields: seq<string>)             // nested FindSchema for duplicates
    | CreateResolve(name: string, fields: seq<string>, ids: seq<SchemaId>)  // handler looking up field types
    | CreateInvalidate(vault: nat)                               // type appended, clearing the flags in turn
    | CreateGiveUp                                               // refused: own flag to be cleared
    | CreateUnlock
    | Reentered                                                  // asked for the lock it already holds

  /** `current` is the cursor: the last list node taken into the map, if any. */
  datatype Vault = Vault(phase: Phase, updated: bool, cache: map<string, SchemaId>, current: Option<nat>)

  /** `published` is the length of the list when the exclusive lock was last free. */
  datatype Registry = Registry(types: seq<TypeEntry>, vaults: seq<Vault>, writer: Option<nat>, readers: set<nat>, published: nat)

  datatype Step =
    | CallFind(v: nat, name: string)
    | CallCreate(v: nat, name: string, fields: seq<string>)
    | Advance(v: nat)
    | Refuse(v: nat)                // allocation or the handler fails

  function Consumed(vault: Vault): nat {
    if vault.current.Some? then vault.current.value + 1 else 0
  }

  /** Index of the first type of that name. */
  function FirstMatch(types: seq<TypeEntry>, name: string): Option<SchemaId> {
    if types == [] then None
    else
      var earlier := FirstMatch(types[..|types| - 1], name);
      if earlier.Some? then earlier
      else if types[|types| - 1].name == name then Some(|types| - 1)
      else None
  }

  function CacheLookup(cache: map<string, SchemaId>, name: string): Option<SchemaId> {
    if name in cache then Some(cache[name]) else None
  }

  /** unordered_map::insert keeps what is there. */
  function Insert(cache: map<string, SchemaId>, name: string, id: SchemaId): map<string, SchemaId> {
    if name in cache then cache else cache[name := id]
  }

  predicate Can(r: Registry, step: Step) {
    step.v < |r.vaults| &&
    var phase := r.vaults[step.v].phase;
    match step
    case CallFind(_, _) => phase.Idle?
    case CallCreate(_, _, _) => phase.Idle?
    case Refuse(_) => phase.CreateResolve?
    case Advance(_) =>
      match phase
      case Idle => false
      case Reentered => false
      case FindLock(_, _) => r.writer.None?
      case CreateLock(_, _) => r.writer.None? && r.readers == {}
      case _ => true
  }

  function SetVault(r: Registry, v: nat, vault: Vault): Registry
    requires v < |r.vaults|
  {
    r.(vaults := r.vaults[v := vault])
  }

  function GoTo(r: Registry, v: nat, phase: Phase): Registry
    requires v < |r.vaults|
  {
    SetVault(r, v, r.vaults[v].(phase := phase))
  }

  /** One node of the refresh loop, or its end. */
  function Walk(r: Registry, v: nat): Registry
    requires v < |r.vaults| && r.vaults[v].phase.FindWalk?
  {
    var vault := r.vaults[v];
    var node := vault.phase.node;
    if node < |r.types| then
      SetVault(r, v, vault.(phase := vault.phase.(node := node + 1), cache := Insert(vault.cache, r.types[node].name, node)))
    else
      SetVault(r, v, vault.(phase := FindLookup(vault.phase.name, vault.phase.start),
                            current := if r.types == [] then None else Some(|r.types| - 1))).(readers := r.readers - {v})
  }

  /** One FindSchema of the create handler: only the cache is consulted, provided the flag is set. */
  function Resolve(r: Registry, v: nat): Registry
    requires v < |r.vaults| && r.vaults[v].phase.CreateResolve?
  {
    var vault := r.vaults[v];
    var p := vault.phase;
    if |p.ids| < |p.fields| then
      if !vault.updated then GoTo(r, v, Reentered)
      else
        match CacheLookup(vault.cache, p.fields[|p.ids|])
        case Some(id) => GoTo(r, v, p.(ids := p.ids + [id]))
        case None => GoTo(r, v, CreateGiveUp)
    else GoTo(r, v, CreateInvalidate(0)).(types := r.types + [TypeEntry(p.name, p.ids)])
  }

  function Invalidate(r: Registry, v: nat): Registry
    requires v < |r.vaults| && r.vaults[v].phase.CreateInvalidate?
  {
    var i := r.vaults[v].phase.vault;
    if i < |r.vaults| then GoTo(SetVault(r, i, r.vaults[i].(updated := false)), v, CreateInvalidate(i + 1))
    else GoTo(r, v, CreateUnlock)
  }

  function Do(r: Registry, step: Step): Registry
    requires Can(r, step)
  {
    var v := step.v;
    var vault := r.vaults[v];
    match step
    case CallFind(_, name) => GoTo(r, v, FindTest(name, r.published))
    case CallCreate(_, name, fields) => GoTo(r, v, CreateLock(name, fields))
    case Refuse(_) => GoTo(r, v, CreateGiveUp)
    case Advance(_) =>
      match vault.phase
      case FindTest(name, start) =>
        if vault.updated then GoTo(r, v, FindLookup(name, start))
        else SetVault(r, v, vault.(updated := true, phase := FindLock(name, start)))
      case FindLock(name, start) =>
        GoTo(r, v, FindWalk(name, start, Consumed(vault))).(readers := r.readers + {v})
      case FindWalk(_, _, _) => Walk(r, v)
      case FindLookup(_, _) => GoTo(r, v, Idle)
      case CreateLock(name, fields) => GoTo(r, v, CreateMark(name, fields)).(writer := Some(v))
      case CreateMark(name, fields) => SetVault(r, v, vault.(updated := true, phase := CreateCheck(name, fields)))
      case CreateCheck(name, fields) =>
        if !vault.updated then GoTo(r, v, Reentered)
        else GoTo(r, v, if name in vault.cache then CreateGiveUp else CreateResolve(name, fields, []))
      case CreateResolve(_, _, _) => Resolve(r, v)
      case CreateInvalidate(_) => Invalidate(r, v)
      case CreateGiveUp => SetVault(r, v, vault.(updated := false, phase := CreateUnlock))
      case CreateUnlock => GoTo(r, v, Idle).(writer := None, published := |r.types|)
  }

  /** Basic types registered at construction; every vault starts dirty and empty. */
  ghost predicate Init(r: Registry) {
    && (forall i :: 0 <= i < |r.types| ==> r.types[i].fields == [])
    && r.writer.None? && r.readers == {} && r.published == |r.types|
    && forall v :: 0 <= v < |r.vaults| ==> r.vaults[v] == Vault(Idle, false, map[], None)
  }

  // ---- Invariant ----

  ghost predicate Creating(phase: Phase) {
    phase.CreateMark? || phase.CreateCheck? || phase.CreateResolve? || phase.CreateInvalidate?
    || phase.CreateGiveUp? || phase.CreateUnlock?
  }

  ghost predicate Reading(phase: Phase) {
    phase.FindWalk?
  }

  /** The cache is the index, first match winning, of a prefix of the list. */
  ghost predicate IndexOf(cache: map<string, SchemaId>, types: seq<TypeEntry>) {
    forall name :: CacheLookup(cache, name) == FirstMatch(types, name)
  }

  /** The next lookup of this vault will go through the shared lock, or already waits for it. */
  ghost predicate Dirty(vault: Vault) {
    !vault.updated || vault.phase.FindLock?
  }

  ghost function Indexed(vault: Vault): nat {
    if vault.phase.FindWalk? then vault.phase.node else Consumed(vault)
  }

  /** Cursor, cache and the promises of the phases of one vault. */
  ghost predicate VaultOk(r: Registry, v: nat)
    requires v < |r.vaults|
  {
    var vault := r.vaults[v];
    && Consumed(vault) <= Indexed(vault) <= |r.types| && Consumed(vault) <= r.published
    && IndexOf(vault.cache, r.types[..Indexed(vault)])
    && (r.writer == Some(v) <==> Creating(vault.phase))
    && (v in r.readers <==> Reading(vault.phase))
    && (vault.updated && !Creating(vault.phase) && !vault.phase.FindLock? && !vault.phase.FindWalk? ==> Consumed(vault) >= r.published)
    && match vault.phase
       case Reentered => false
       case FindTest(_, start) => start <= r.published
       case FindLock(_, start) => start <= r.published
       case FindWalk(_, start, _) => start <= r.published
       case FindLookup(_, start) => start <= Consumed(vault)
       case CreateCheck(_, _) => vault.updated
       case CreateResolve(_, fields, ids) => vault.updated && |ids| <= |fields| && forall i :: 0 <= i < |ids| ==> ids[i] < |r.types|
       case CreateInvalidate(n) => n <= |r.vaults| && forall u :: 0 <= u < n ==> Dirty(r.vaults[u])
       case CreateUnlock => !vault.updated && (|r.types| > r.published ==> forall u :: 0 <= u < |r.vaults| ==> Dirty(r.vaults[u]))
       case _ => true
  }

  /** Fields refer only to earlier types. */
  ghost predicate Earlier(types: seq<TypeEntry>) {
    forall i, k :: 0 <= i < |types| && 0 <= k < |types[i].fields| ==> types[i].fields[k] < i
  }

  ghost predicate Inv(r: Registry) {
    && Earlier(r.types)
    && r.published <= |r.types| <= r.published + 1
    && (r.writer.Some? ==> r.writer.value < |r.vaults| && r.readers == {})
    && (forall v :: v in r.readers ==> v < |r.vaults|)
    && (|r.types| > r.published ==>
          r.writer.Some? && (r.vaults[r.writer.value].phase.CreateInvalidate? || r.vaults[r.writer.value].phase.CreateUnlock?))
    && forall v :: 0 <= v < |r.vaults| ==> VaultOk(r, v)
  }

  lemma {:induction false} FirstMatchBound(types: seq<TypeEntry>, name: string)
    ensures var m := FirstMatch(types, name);
            m.Some? ==> m.value < |types| && types[m.value].name == name
    ensures var m := FirstMatch(types, name);
            forall i :: 0 <= i < |types| && types[i].name == name ==> m.Some? && m.value <= i
    decreases |types|
  {
    if types != [] {
      FirstMatchBound(types[..|types| - 1], name);
    }
  }

  /** Appending to the list never changes what a name resolves to. */
  lemma {:induction false} FirstMatchStable(types: seq<TypeEntry>, name: string, m: nat, n: nat)
    requires m <= n <= |types| && FirstMatch(types[..m], name).Some?
    ensures FirstMatch(types[..n], name) == FirstMatch(types[..m], name)
    decreases n
  {
    if m < n {
      FirstMatchStable(types, name, m, n - 1);
      assert types[..n][..n - 1] == types[..n - 1];
    }
  }

  lemma IndexInsert(cache: map<string, SchemaId>, types: seq<TypeEntry>, n: nat)
    requires n < |types| && IndexOf(cache, types[..n])
    ensures IndexOf(Insert(cache, types[n].name, n), types[..n + 1])
  {
    assert types[..n + 1][..n] == types[..n];
    forall name ensures CacheLookup(Insert(cache, types[n].name, n), name) == FirstMatch(types[..n + 1], name) {
      assert CacheLookup(cache, name) == FirstMatch(types[..n], name);
    }
  }

  /** A vault whose own record is untouched stays in order. */
  lemma Bystander(r: Registry, r': Registry, u: nat)
    requires u < |r.vaults| == |r'.vaults| && VaultOk(r, u)
    requires r'.vaults[u].phase == r.vaults[u].phase && r'.vaults[u].cache == r.vaults[u].cache && r'.vaults[u].current == r.vaults[u].current
    requires r'.vaults[u].updated == r.vaults[u].updated || (!r'.vaults[u].updated && !Creating(r.vaults[u].phase))
    requires r.types <= r'.types && r.published <= r'.published
    requires r'.writer == Some(u) <==> r.writer == Some(u)
    requires u in r'.readers <==> u in r.readers
    requires Creating(r.vaults[u].phase) ==> forall w :: 0 <= w < |r.vaults| && Dirty(r.vaults[w]) ==> Dirty(r'.vaults[w])
    requires r'.published > r.published ==> Dirty(r.vaults[u]) && !Creating(r.vaults[u].phase)
    requires Creating(r.vaults[u].phase) ==> |r'.types| == |r.types|
    ensures VaultOk(r', u)
  {
    var k := Indexed(r.vaults[u]);
    assert r'.types[..k] == r.types[..k];
  }

  /** Steps of a vault that touch nothing shared. */
  lemma LocalStep(r: Registry, v: nat, vault: Vault)
    requires Inv(r) && v < |r.vaults|
    requires VaultOk(SetVault(r, v, vault), v)
    requires Creating(vault.phase) == Creating(r.vaults[v].phase)
    requires Dirty(r.vaults[v]) ==> Dirty(vault)
    requires |r.types| > r.published && Creating(vault.phase) ==> vault.phase.CreateInvalidate? || vault.phase.CreateUnlock?
    ensures Inv(SetVault(r, v, vault))
  {
    var r' := SetVault(r, v, vault);
    forall u | 0 <= u < |r'.vaults| ensures VaultOk(r', u) {
      if u != v {
        Bystander(r, r', u);
      }
    }
  }

  lemma TestKeeps(r: Registry, v: nat)
    requires Inv(r) && v < |r.vaults| && r.vaults[v].phase.FindTest?
    ensures Inv(Do(r, Advance(v)))
  {
    assert VaultOk(r, v);
    LocalStep(r, v, Do(r, Advance(v)).vaults[v]);
  }

  lemma LockSharedKeeps(r: Registry, v: nat)
    requires Inv(r) && Can(r, Advance(v)) && r.vaults[v].phase.FindLock?
    ensures Inv(Do(r, Advance(v)))
  {
    var r' := Do(r, Advance(v));
    assert VaultOk(r, v);
    forall u | 0 <= u < |r'.vaults| ensures VaultOk(r', u) {
      assert VaultOk(r, u);
      if u != v {
        Bystander(r, r', u);
      }
    }
  }

  lemma WalkKeeps(r: Registry, v: nat)
    requires Inv(r) && v < |r.vaults| && r.vaults[v].phase.FindWalk?
    ensures Inv(Walk(r, v))
  {
    var r' := Walk(r, v);
    var vault := r.vaults[v];
    assert VaultOk(r, v);
    assert v in r.readers;
    if vault.phase.node < |r.types| {
      IndexInsert(vault.cache, r.types, vault.phase.node);
    } else {
      assert r.types[..|r.types|] == r.types;
    }
    forall u | 0 <= u < |r'.vaults| ensures VaultOk(r', u) {
      assert VaultOk(r, u);
      if u != v {
        Bystander(r, r', u);
      }
    }
  }

  lemma LockExclusiveKeeps(r: Registry, v: nat)
    requires Inv(r) && Can(r, Advance(v)) && r.vaults[v].phase.CreateLock?
    ensures Inv(Do(r, Advance(v)))
  {
    var r' := Do(r, Advance(v));
    forall u | 0 <= u < |r'.vaults| ensures VaultOk(r', u) {
      assert VaultOk(r, u);
      if u != v {
        Bystander(r, r', u);
      }
    }
  }

  /** Names found in a cache are names of listed types. */
  lemma CachedIdInRange(r: Registry, v: nat, name: string)
    requires v < |r.vaults| && VaultOk(r, v) && name in r.vaults[v].cache
    ensures r.vaults[v].cache[name] < |r.types|
  {
    var types := r.types[..Indexed(r.vaults[v])];
    assert CacheLookup(r.vaults[v].cache, name) == FirstMatch(types, name);
    FirstMatchBound(types, name);
  }

  lemma CheckKeeps(r: Registry, v: nat)
    requires Inv(r) && v < |r.vaults| && (r.vaults[v].phase.CreateMark? || r.vaults[v].phase.CreateCheck? || r.vaults[v].phase.CreateGiveUp?)
    ensures Inv(Do(r, Advance(v)))
  {
    var r' := Do(r, Advance(v));
    assert VaultOk(r, v);
    forall u | 0 <= u < |r'.vaults| ensures VaultOk(r', u) {
      assert VaultOk(r, u);
      if u != v {
        Bystander(r, r', u);
      }
    }
  }

  lemma ResolveKeeps(r: Registry, v: nat)
    requires Inv(r) && v < |r.vaults| && r.vaults[v].phase.CreateResolve?
    ensures Inv(Resolve(r, v))
  {
    var r' := Resolve(r, v);
    var p := r.vaults[v].phase;
    assert VaultOk(r, v);
    if |p.ids| < |p.fields| {
      if p.fields[|p.ids|] in r.vaults[v].cache {
        CachedIdInRange(r, v, p.fields[|p.ids|]);
      }
    } else {
      assert forall i :: 0 <= i < |r.types| ==> r'.types[i] == r.types[i];
    }
    forall u | 0 <= u < |r'.vaults| ensures VaultOk(r', u) {
      assert VaultOk(r, u);
      if u != v {
        Bystander(r, r', u);
      } else {
        assert r'.types[..Indexed(r.vaults[v])] == r.types[..Indexed(r.vaults[v])];
      }
    }
  }

  lemma InvalidateKeeps(r: Registry, v: nat)
    requires Inv(r) && v < |r.vaults| && r.vaults[v].phase.CreateInvalidate?
    ensures Inv(Invalidate(r, v))
  {
    var r' := Invalidate(r, v);
    assert VaultOk(r, v);
    forall u | 0 <= u < |r'.vaults| ensures VaultOk(r', u) {
      assert VaultOk(r, u);
      if u != v {
        Bystander(r, r', u);
      }
    }
  }

  lemma UnlockKeeps(r: Registry, v: nat)
    requires Inv(r) && v < |r.vaults| && r.vaults[v].phase.CreateUnlock?
    ensures Inv(Do(r, Advance(v)))
  {
    var r' := Do(r, Advance(v));
    assert VaultOk(r, v);
    forall u | 0 <= u < |r'.vaults| ensures VaultOk(r', u) {
      assert VaultOk(r, u);
      if u != v {
        Bystander(r, r', u);
      }
    }
  }

  lemma StepKeepsInv(r: Registry, step: Step)
    requires Inv(r) && Can(r, step)
    ensures Inv(Do(r, step))
  {
    var v := step.v;
    assert VaultOk(r, v);
    match step {
      case Advance(_) =>
        match r.vaults[v].phase {
          case FindTest(_, _) => TestKeeps(r, v);
          case FindLock(_, _) => LockSharedKeeps(r, v);
          case FindWalk(_, _, _) => WalkKeeps(r, v);
          case FindLookup(_, _) => LocalStep(r, v, r.vaults[v].(phase := Idle));
          case CreateLock(_, _) => LockExclusiveKeeps(r, v);
          case CreateMark(_, _) => CheckKeeps(r, v);
          case CreateCheck(_, _) => CheckKeeps(r, v);
          case CreateGiveUp => CheckKeeps(r, v);
          case CreateResolve(_, _, _) => ResolveKeeps(r, v);
          case CreateInvalidate(_) => InvalidateKeeps(r, v);
          case CreateUnlock => UnlockKeeps(r, v);
        }
      case _ => LocalStep(r, v, Do(r, step).vaults[v]);
    }
  }

  // ---- Runs ----

  ghost predicate Reaches(r0: Registry, steps: seq<Step>, r: Registry)
    decreases |steps|
  {
    if steps == [] then r == r0 else Can(r0, steps[0]) && Reaches(Do(r0, steps[0]), steps[1..], r)
  }

  lemma InitInv(r: Registry)
    requires Init(r)
    ensures Inv(r)
  {
    forall v | 0 <= v < |r.vaults| ensures VaultOk(r, v) {
      assert r.types[..0] == [];
    }
  }

  /** The list only grows; the published part grows by at most one type at a time. */
  lemma StepGrows(r: Registry, step: Step)
    requires Inv(r) && Can(r, step)
    ensures r.types <= Do(r, step).types && |Do(r, step).vaults| == |r.vaults|
    ensures |Do(r, step).types| <= |r.types| + 1
    ensures r.published <= Do(r, step).published <= r.published + 1
  {
    assert VaultOk(r, step.v);
  }

  lemma {:induction false} RunKeepsInv(r0: Registry, steps: seq<Step>, r: Registry)
    requires Inv(r0) && Reaches(r0, steps, r)
    ensures Inv(r) && r0.types <= r.types && |r.vaults| == |r0.vaults|
    decreases |steps|
  {
    if steps != [] {
      StepKeepsInv(r0, steps[0]);
      StepGrows(r0, steps[0]);
      RunKeepsInv(Do(r0, steps[0]), steps[1..], r);
    }
  }

  // ---- What a lookup answers ----

  /** The vault makes no further call in these steps. */
  ghost predicate SameCall(v: nat, steps: seq<Step>) {
    forall i :: 0 <= i < |steps| && steps[i].v == v ==> steps[i].Advance?
  }

  /** The pending answer is the first match in the shared list as it stood at some moment of the run. */
  ghost predicate AnswersSomeMoment(r: Registry, steps: seq<Step>, r': Registry, v: nat, name: string)
    requires v < |r'.vaults|
  {
    exists i, mid :: 0 <= i <= |steps| && Reaches(r, steps[..i], mid)
      && CacheLookup(r'.vaults[v].cache, name) == FirstMatch(mid.types, name)
  }

  /** The same for the part of the list that was published at that moment. */
  ghost predicate AnswersPublishedMoment(r: Registry, steps: seq<Step>, r': Registry, v: nat, name: string)
    requires v < |r'.vaults|
  {
    exists i, mid :: 0 <= i <= |steps| && Reaches(r, steps[..i], mid) && mid.published <= |mid.types|
      && CacheLookup(r'.vaults[v].cache, name) == FirstMatch(mid.types[..mid.published], name)
  }

  /** A run passes through every length of the list between its ends. */
  lemma {:induction false} MomentOfLength(r: Registry, steps: seq<Step>, r': Registry, m: nat) returns (i: nat, mid: Registry)
    requires Inv(r) && Reaches(r, steps, r') && |r.types| <= m <= |r'.types|
    ensures i <= |steps| && Reaches(r, steps[..i], mid) && mid.types == r'.types[..m]
    decreases |steps|
  {
    RunKeepsInv(r, steps, r');
    if |r.types| == m {
      i, mid := 0, r;
    } else {
      StepKeepsInv(r, steps[0]);
      StepGrows(r, steps[0]);
      i, mid := MomentOfLength(Do(r, steps[0]), steps[1..], r', m);
      assert steps[..i + 1][1..] == steps[1..][..i];
      i := i + 1;
    }
  }

  /** And through every length of its published part. */
  lemma {:induction false} MomentOfPublication(r: Registry, steps: seq<Step>, r': Registry, m: nat) returns (i: nat, mid: Registry)
    requires Inv(r) && Reaches(r, steps, r') && r.published <= m <= r'.published
    ensures i <= |steps| && Reaches(r, steps[..i], mid) && mid.published == m <= |mid.types| && mid.types <= r'.types
    decreases |steps|
  {
    RunKeepsInv(r, steps, r');
    if r.published == m {
      i, mid := 0, r;
    } else {
      StepKeepsInv(r, steps[0]);
      StepGrows(r, steps[0]);
      i, mid := MomentOfPublication(Do(r, steps[0]), steps[1..], r', m);
      assert steps[..i + 1][1..] == steps[1..][..i];
      i := i + 1;
    }
  }

  /** A lookup called in state `r`, as far as it has come: either it has walked a list at least as long
      as the one it was called on, or it trusts the flag and the cache it was called with. */
  ghost predicate Looking(r: Registry, now: Registry, v: nat, name: string)
    requires v < |r.vaults|
  {
    && |now.vaults| == |r.vaults| && r.types <= now.types
    && var was, vault := r.vaults[v], now.vaults[v];
       match vault.phase
       case FindTest(n, _) => n == name && vault.cache == was.cache && (vault.updated ==> was.updated)
       case FindLock(n, _) => n == name
       case FindWalk(n, _, _) => n == name
       case FindLookup(n, _) => n == name && (Consumed(vault) >= |r.types| || (was.updated && vault.cache == was.cache))
       case Idle => true
       case _ => false
  }

  lemma StepKeepsLooking(r: Registry, now: Registry, v: nat, name: string, step: Step)
    requires v < |r.vaults| && Inv(now) && Looking(r, now, v, name) && Can(now, step)
    requires step.v == v ==> step.Advance?
    ensures Looking(r, Do(now, step), v, name)
  {
    StepGrows(now, step);
    if step.v != v {
      OthersLeaveAlone(now, v, step);
    }
  }

  /** Another vault's step changes nothing of this vault but its flag, which it can only clear. */
  lemma OthersLeaveAlone(now: Registry, v: nat, step: Step)
    requires v < |now.vaults| && Can(now, step) && step.v != v
    ensures var next := Do(now, step);
      v < |next.vaults| && next.vaults[v] == now.vaults[v].(updated := next.vaults[v].updated)
      && (next.vaults[v].updated ==> now.vaults[v].updated)
  {
  }

  lemma {:induction false} RunKeepsLooking(r: Registry, now: Registry, v: nat, name: string, steps: seq<Step>, r': Registry)
    requires v < |r.vaults| && Inv(now) && Looking(r, now, v, name) && Reaches(now, steps, r') && SameCall(v, steps)
    ensures Looking(r, r', v, name)
    decreases |steps|
  {
    if steps != [] {
      StepKeepsLooking(r, now, v, name, steps[0]);
      StepKeepsInv(now, steps[0]);
      assert forall i :: 0 <= i < |steps[1..]| ==> steps[1..][i] == steps[i + 1];
      RunKeepsLooking(r, Do(now, steps[0]), v, name, steps[1..], r');
    }
  }

  /** How much of the list the pending answer stands for. */
  lemma AnswerStandsFor(r: Registry, v: nat, name: string, steps: seq<Step>, r': Registry) returns (m: nat)
    requires Inv(r) && v < |r.vaults| && r.vaults[v].phase.Idle?
    requires Reaches(Do(r, CallFind(v, name)), steps, r') && SameCall(v, steps)
    requires v < |r'.vaults| && r'.vaults[v].phase.FindLookup?
    ensures Inv(r') && r.types <= r'.types && r.published <= m <= r'.published
    ensures CacheLookup(r'.vaults[v].cache, name) == FirstMatch(r'.types[..m], name)
    ensures m >= |r.types| || (r.vaults[v].updated && m == r.published)
  {
    var r1 := Do(r, CallFind(v, name));
    StepKeepsInv(r, CallFind(v, name));
    RunKeepsInv(r1, steps, r');
    RunKeepsLooking(r, r1, v, name, steps, r');
    var vault := r'.vaults[v];
    assert VaultOk(r', v) && VaultOk(r, v);
    StepsPublish(r1, steps, r');
    if Consumed(vault) >= |r.types| {
      m := Consumed(vault);
    } else {
      m := r.published;
      assert r.types[..m] == r'.types[..m];
    }
    assert CacheLookup(vault.cache, name) == FirstMatch(r'.types[..m], name);
  }

  lemma {:induction false} StepsPublish(r: Registry, steps: seq<Step>, r': Registry)
    requires Inv(r) && Reaches(r, steps, r')
    ensures r.published <= r'.published
    decreases |steps|
  {
    if steps != [] {
      StepGrows(r, steps[0]);
      StepKeepsInv(r, steps[0]);
      StepsPublish(Do(r, steps[0]), steps[1..], r');
    }
  }

  /** Every lookup outside CreateSchema answers with the first match in the list as it was published at
      some moment of the call. */
  lemma LookupIsPublishedMoment(r0: Registry, before: seq<Step>, r: Registry, v: nat, name: string, steps: seq<Step>, r': Registry)
    requires Init(r0) && Reaches(r0, before, r) && v < |r.vaults| && r.vaults[v].phase.Idle?
    requires Reaches(Do(r, CallFind(v, name)), steps, r') && SameCall(v, steps)
    requires v < |r'.vaults| && r'.vaults[v].phase.FindLookup?
    ensures AnswersPublishedMoment(Do(r, CallFind(v, name)), steps, r', v, name)
  {
    InitInv(r0);
    RunKeepsInv(r0, before, r);
    StepKeepsInv(r, CallFind(v, name));
    var m := AnswerStandsFor(r, v, name, steps, r');
    var i, mid := MomentOfPublication(Do(r, CallFind(v, name)), steps, r', m);
    assert mid.types[..mid.published] == r'.types[..m];
  }

  /** What a caller could check before the call: its flag is clear, or no type of that name is linked
      in but not yet published. */
  ghost predicate Current(r: Registry, v: nat, name: string)
    requires v < |r.vaults| && r.published <= |r.types|
  {
    !r.vaults[v].updated || FirstMatch(r.types, name) == FirstMatch(r.types[..r.published], name)
  }

  ghost predicate AlwaysSomeMoment(r: Registry, v: nat, name: string)
    requires v < |r.vaults| && r.vaults[v].phase.Idle?
  {
    forall steps, r' ::
      (Reaches(Do(r, CallFind(v, name)), steps, r') && SameCall(v, steps)
       && v < |r'.vaults| && r'.vaults[v].phase.FindLookup?) ==>
        AnswersSomeMoment(Do(r, CallFind(v, name)), steps, r', v, name)
  }

  lemma CurrentAnswersSomeMoment(r: Registry, v: nat, name: string, steps: seq<Step>, r': Registry)
    requires Inv(r) && v < |r.vaults| && r.vaults[v].phase.Idle? && Current(r, v, name)
    requires Reaches(Do(r, CallFind(v, name)), steps, r') && SameCall(v, steps)
    requires v < |r'.vaults| && r'.vaults[v].phase.FindLookup?
    ensures AnswersSomeMoment(Do(r, CallFind(v, name)), steps, r', v, name)
  {
    var r1 := Do(r, CallFind(v, name));
    StepKeepsInv(r, CallFind(v, name));
    var m := AnswerStandsFor(r, v, name, steps, r');
    if m < |r.types| {
      assert r'.types[..m] == r.types[..m];
      assert r'.types[..|r.types|] == r.types;
      m := |r.types|;
    }
    var i, mid := MomentOfLength(r1, steps, r', m);
  }

  /** Asking at once, a vault that trusts its flag misses what is linked in but not yet published. */
  lemma StaleAnswersNoMoment(r: Registry, v: nat, name: string) returns (steps: seq<Step>, r': Registry)
    requires Inv(r) && v < |r.vaults| && r.vaults[v].phase.Idle? && !Current(r, v, name)
    ensures Reaches(Do(r, CallFind(v, name)), steps, r') && SameCall(v, steps)
    ensures v < |r'.vaults| && r'.vaults[v].phase.FindLookup?
    ensures !AnswersSomeMoment(Do(r, CallFind(v, name)), steps, r', v, name)
  {
    var r1 := Do(r, CallFind(v, name));
    steps, r' := [Advance(v)], Do(r1, Advance(v));
    ReachesOneMore(r1, [], r1, Advance(v));
    assert [] + [Advance(v)] == steps;
    assert VaultOk(r, v);
    assert CacheLookup(r'.vaults[v].cache, name) == FirstMatch(r.types[..r.published], name);
    forall i, mid | 0 <= i <= |steps| && Reaches(r1, steps[..i], mid) ensures mid.types == r.types {
      if i == 0 {
        assert steps[..i] == [];
      } else {
        assert steps[..i] == steps && steps[1..] == [];
        assert Reaches(Do(r1, steps[0]), steps[1..], mid);
      }
    }
  }

  /** FindSchema answers with the first match in the shared list as it stood at some moment during the
      call, in every continuation, exactly when the vault is current at the call. */
  lemma LookupIsSomeMoment(r0: Registry, before: seq<Step>, r: Registry, v: nat, name: string)
    requires Init(r0) && Reaches(r0, before, r) && v < |r.vaults| && r.vaults[v].phase.Idle?
    ensures r.published <= |r.types|
    ensures AlwaysSomeMoment(r, v, name) <==> Current(r, v, name)
  {
    InitInv(r0);
    RunKeepsInv(r0, before, r);
    if Current(r, v, name) {
      forall steps, r' | Reaches(Do(r, CallFind(v, name)), steps, r') && SameCall(v, steps)
        && v < |r'.vaults| && r'.vaults[v].phase.FindLookup?
        ensures AnswersSomeMoment(Do(r, CallFind(v, name)), steps, r', v, name)
      {
        CurrentAnswersSomeMoment(r, v, name, steps, r');
      }
    } else {
      var steps, r' := StaleAnswersNoMoment(r, v, name);
    }
  }

  /** Lookups made while a vault holds the exclusive lock never ask for the lock again. */
  lemma NeverReentered(r0: Registry, steps: seq<Step>, r: Registry, v: nat)
    requires Init(r0) && Reaches(r0, steps, r) && v < |r.vaults|
    ensures !r.vaults[v].phase.Reentered?
    ensures r.vaults[v].phase.CreateCheck? || r.vaults[v].phase.CreateResolve? ==> r.writer == Some(v) && r.vaults[v].updated
  {
    InitInv(r0);
    RunKeepsInv(r0, steps, r);
    assert VaultOk(r, v);
  }

  /** A name once resolved by any vault resolves to the same schema in every vault, for ever. */
  lemma ResolvedForever(r0: Registry, steps: seq<Step>, r: Registry, later: seq<Step>, r': Registry, v: nat, u: nat, name: string)
    requires Init(r0) && Reaches(r0, steps, r) && Reaches(r, later, r')
    requires v < |r.vaults| && name in r.vaults[v].cache
    requires u < |r'.vaults| && name in r'.vaults[u].cache
    ensures r'.vaults[u].cache[name] == r.vaults[v].cache[name]
    ensures FirstMatch(r'.types, name) == Some(r.vaults[v].cache[name])
  {
    InitInv(r0);
    RunKeepsInv(r0, steps, r);
    RunKeepsInv(r, later, r');
    assert VaultOk(r, v) && VaultOk(r', u);
    var m, n := Indexed(r.vaults[v]), Indexed(r'.vaults[u]);
    assert r.types[..m] == r'.types[..m] && r'.types[..|r'.types|] == r'.types;
    assert CacheLookup(r.vaults[v].cache, name) == FirstMatch(r.types[..m], name);
    assert CacheLookup(r'.vaults[u].cache, name) == FirstMatch(r'.types[..n], name);
    FirstMatchStable(r'.types, name, m, |r'.types|);
    FirstMatchStable(r'.types, name, n, |r'.types|);
  }

  /** In every reachable registry a struct's fields refer to types strictly before it in the list. */
  lemma SchemaGraphIsAcyclic(r0: Registry, steps: seq<Step>, r: Registry)
    requires Init(r0) && Reaches(r0, steps, r)
    ensures Earlier(r.types)
  {
    InitInv(r0);
    RunKeepsInv(r0, steps, r);
  }

  lemma {:induction false} ReachesOneMore(r0: Registry, steps: seq<Step>, r: Registry, step: Step)
    requires Reaches(r0, steps, r) && Can(r, step)
    ensures Reaches(r0, steps + [step], Do(r, step))
    decreases |steps|
  {
    if steps == [] {
      assert [step][1..] == [];
    } else {
      ReachesOneMore(Do(r0, steps[0]), steps[1..], r, step);
      assert (steps + [step])[1..] == steps[1..] + [step];
    }
  }

  lemma {:induction false} ReachesConcat(r0: Registry, a: seq<Step>, r1: Registry, b: seq<Step>, r2: Registry)
    requires Reaches(r0, a, r1) && Reaches(r1, b, r2)
    ensures Reaches(r0, a + b, r2)
    decreases |a|
  {
    if a == [] {
      assert a + b == b;
    } else {
      assert (a + b)[1..] == a[1..] + b;
      ReachesConcat(Do(r0, a[0]), a[1..], r1, b, r2);
    }
  }

  // ---- Runs of one thread while the locks are free ----

  /** Nobody holds or waits for a lock. */
  ghost predicate Free(r: Registry) {
    r.writer.None? && r.readers == {}
  }

  /** The steps of a lookup by a dirty vault while the list is empty. */
  function LookupSteps(v: nat, name: string): seq<Step> {
    [CallFind(v, name), Advance(v), Advance(v), Advance(v), Advance(v)]
  }

  /** The steps of a creation of a type without fields, up to its node being in the list. */
  function LinkSteps(v: nat, name: string): seq<Step> {
    [CallCreate(v, name, []), Advance(v), Advance(v), Advance(v), Advance(v)]
  }

  /** The rest of a creation when there are two vaults: both flags cleared, then the lock released. */
  function ReleaseSteps(v: nat): seq<Step> {
    [Advance(v), Advance(v), Advance(v), Advance(v)]
  }

  /** The registry just after vault v has linked its type in. */
  function Linked(r: Registry, v: nat, name: string): Registry
    requires v < |r.vaults|
  {
    SetVault(r, v, r.vaults[v].(phase := CreateInvalidate(0), updated := true))
      .(types := r.types + [TypeEntry(name, [])], writer := Some(v))
  }

  /** The registry of two vaults when vault v has released the lock. */
  function Released(r: Registry, v: nat): Registry
    requires |r.vaults| == 2 && v < 2
  {
    var dirty := [r.vaults[0].(updated := false), r.vaults[1].(updated := false)];
    r.(vaults := dirty[v := dirty[v].(phase := Idle)], writer := None, published := |r.types|)
  }

  /** A step and two more of its thread. */
  lemma ThreeSteps(r: Registry, x: Step, y: Step, a: Registry, b: Registry, c: Registry)
    requires Can(r, x) && a == Do(r, x) && Can(a, y) && b == Do(a, y) && Can(b, y) && c == Do(b, y)
    ensures Reaches(r, [x, y, y], c)
  {
    ReachesOneMore(r, [], r, x);
    ReachesOneMore(r, [x], a, y);
    ReachesOneMore(r, [x, y], b, y);
  }

  /** And two more. */
  lemma FiveSteps(r: Registry, x: Step, y: Step, c: Registry, d: Registry, e: Registry)
    requires Reaches(r, [x, y, y], c) && Can(c, y) && d == Do(c, y) && Can(d, y) && e == Do(d, y)
    ensures Reaches(r, [x, y, y, y, y], e)
  {
    ReachesOneMore(r, [x, y, y], c, y);
    assert [x, y, y] + [y] == [x, y, y, y];
    ReachesOneMore(r, [x, y, y, y], d, y);
    assert [x, y, y, y] + [y] == [x, y, y, y, y];
  }

  /** A lookup in the empty list finds nothing and leaves its vault's flag set. */
  lemma LookupRun(r: Registry, v: nat, name: string)
    requires Free(r) && r.types == [] && v < |r.vaults| && r.vaults[v] == Vault(Idle, false, map[], None)
    ensures Reaches(r, LookupSteps(v, name), SetVault(r, v, Vault(Idle, true, map[], None)))
  {
    var a := Do(r, CallFind(v, name));
    var b := Do(a, Advance(v));
    var c := Do(b, Advance(v));
    var d := Do(c, Advance(v));
    var e := Do(d, Advance(v));
    ThreeSteps(r, CallFind(v, name), Advance(v), a, b, c);
    FiveSteps(r, CallFind(v, name), Advance(v), c, d, e);
    assert e.vaults == r.vaults[v := Vault(Idle, true, map[], None)];
  }

  /** A vault whose cache lacks the name links a type of that name in, whatever is in the list. */
  lemma LinkRun(r: Registry, v: nat, name: string)
    requires Free(r) && v < |r.vaults| && r.vaults[v].phase.Idle? && name !in r.vaults[v].cache
    ensures Reaches(r, LinkSteps(v, name), Linked(r, v, name))
  {
    var a := Do(r, CallCreate(v, name, []));
    var b := Do(a, Advance(v));
    var c := Do(b, Advance(v));
    var d := Do(c, Advance(v));
    var e := Do(d, Advance(v));
    ThreeSteps(r, CallCreate(v, name, []), Advance(v), a, b, c);
    FiveSteps(r, CallCreate(v, name, []), Advance(v), c, d, e);
    assert e.vaults == Linked(r, v, name).vaults;
  }

  /** Both flags are cleared and the lock is released. */
  lemma ReleaseRun(r: Registry, v: nat)
    requires |r.vaults| == 2 && v < 2 && r.vaults[v].phase == CreateInvalidate(0)
    ensures Reaches(r, ReleaseSteps(v), Released(r, v))
  {
    var y := Advance(v);
    var b := Do(Do(r, y), y);
    assert b.vaults[v].phase == CreateInvalidate(2);
    var d := Do(Do(b, y), y);
    ThreeSteps(r, y, y, Do(r, y), b, Do(b, y));
    assert [y, y, y] + [y] == ReleaseSteps(v);
    ReachesOneMore(r, [y, y, y], Do(b, y), y);
    assert d.vaults == Released(r, v).vaults;
  }

  /** The moment has to be one of publication: while a creator is between linking its type in and
      clearing the flags, another vault can miss a type that is in the raw list all through its call. */
  lemma RawListCanBeAhead() returns (r0: Registry, steps: seq<Step>, r: Registry)
    ensures Init(r0) && Reaches(r0, steps, r) && |steps| >= 2
    ensures steps[|steps| - 2..] == [CallFind(1, "X"), Advance(1)]
    ensures |r.vaults| == 2 && r.vaults[1].phase == FindLookup("X", 0)
    ensures CacheLookup(r.vaults[1].cache, "X") == None
    ensures r.types == [TypeEntry("X", [])] && FirstMatch(r.types, "X") == Some(0)
    ensures Reaches(r0, steps[..|steps| - 2], r.(vaults := r.vaults[1 := r.vaults[1].(phase := Idle)]))
  {
    var before, r2;
    r0, before, r2 := LinkedBeforeCleared();
    var asked := MissesLinked(r2);
    ReachesConcat(r0, before, r2, [CallFind(1, "X"), Advance(1)], asked);
    steps, r := before + [CallFind(1, "X"), Advance(1)], asked;
    assert steps[..|steps| - 2] == before;
    assert r.vaults[1 := r.vaults[1].(phase := Idle)] == r2.vaults;
    assert r.types[..0] == [];
  }

  /** Vault 1 has looked at the empty list; vault 0 has linked its type in and cleared no flag yet. */
  lemma LinkedBeforeCleared() returns (r0: Registry, steps: seq<Step>, r: Registry)
    ensures Init(r0) && Reaches(r0, steps, r)
    ensures |r.vaults| == 2 && r.vaults[1] == Vault(Idle, true, map[], None)
    ensures r.types == [TypeEntry("X", [])] && r.published == 0
  {
    var blank := Vault(Idle, false, map[], None);
    r0 := Registry([], [blank, blank], None, {}, 0);
    var r1 := SetVault(r0, 1, Vault(Idle, true, map[], None));
    LookupRun(r0, 1, "X");
    LinkRun(r1, 0, "X");
    r := Linked(r1, 0, "X");
    steps := LookupSteps(1, "X") + LinkSteps(0, "X");
    ReachesConcat(r0, LookupSteps(1, "X"), r1, LinkSteps(0, "X"), r);
  }

  /** A lookup that starts with its flag set goes straight to its cache. */
  lemma MissesLinked(r: Registry) returns (r': Registry)
    requires 1 < |r.vaults| && r.vaults[1] == Vault(Idle, true, map[], None)
    ensures Reaches(r, [CallFind(1, "X"), Advance(1)], r')
    ensures r' == SetVault(r, 1, r.vaults[1].(phase := FindLookup("X", r.published)))
  {
    r' := Do(Do(r, CallFind(1, "X")), Advance(1));
    ReachesOneMore(r, [], r, CallFind(1, "X"));
    ReachesOneMore(r, [CallFind(1, "X")], Do(r, CallFind(1, "X")), Advance(1));
    assert r'.vaults == r.vaults[1 := r.vaults[1].(phase := FindLookup("X", r.published))];
  }

  // ---- What a creation links in ----

  /** How far a creation has come: the call's name and fields, and the field types resolved so far. */
  ghost predicate Asked(r: Registry, v: nat, name: string, fields: seq<string>)
    requires v < |r.vaults|
  {
    match r.vaults[v].phase
    case CreateLock(n, f) => n == name && f == fields
    case CreateMark(n, f) => n == name && f == fields
    case CreateCheck(n, f) => n == name && f == fields
    case CreateResolve(n, f, ids) => n == name && f == fields && Resolved(r.types, fields, ids)
    case CreateInvalidate(_) => true
    case CreateGiveUp => true
    case CreateUnlock => true
    case Idle => true
    case _ => false
  }

  /** Each id is the first type of the field's type name. */
  ghost predicate Resolved(types: seq<TypeEntry>, fields: seq<string>, ids: seq<SchemaId>) {
    |ids| <= |fields| && forall i :: 0 <= i < |ids| ==> FirstMatch(types, fields[i]) == Some(ids[i])
  }

  lemma ResolvedLater(types: seq<TypeEntry>, longer: seq<TypeEntry>, fields: seq<string>, ids: seq<SchemaId>)
    requires types <= longer && Resolved(types, fields, ids)
    ensures Resolved(longer, fields, ids)
  {
    forall i | 0 <= i < |ids| ensures FirstMatch(longer, fields[i]) == Some(ids[i]) {
      assert longer[..|types|] == types && longer[..|longer|] == longer;
      FirstMatchStable(longer, fields[i], |types|, |longer|);
    }
  }

  /** What the vault's cache answers is the first match in the whole list. */
  lemma CachedIsFirst(r: Registry, v: nat, name: string)
    requires Inv(r) && v < |r.vaults| && name in r.vaults[v].cache
    ensures FirstMatch(r.types, name) == Some(r.vaults[v].cache[name])
  {
    assert VaultOk(r, v);
    var n := Indexed(r.vaults[v]);
    assert CacheLookup(r.vaults[v].cache, name) == FirstMatch(r.types[..n], name);
    assert r.types[..|r.types|] == r.types;
    FirstMatchStable(r.types, name, n, |r.types|);
  }

  lemma OwnStepKeepsAsked(r: Registry, v: nat, name: string, fields: seq<string>, step: Step)
    requires Inv(r) && v < |r.vaults| && Asked(r, v, name, fields) && Can(r, step) && step.v == v
    requires !step.CallFind? && !step.CallCreate?
    ensures |Do(r, step).vaults| == |r.vaults| && Asked(Do(r, step), v, name, fields)
  {
    assert VaultOk(r, v);
    var p := r.vaults[v].phase;
    if p.CreateResolve? && |p.ids| < |p.fields| && p.fields[|p.ids|] in r.vaults[v].cache {
      CachedIsFirst(r, v, p.fields[|p.ids|]);
    }
  }

  lemma StepKeepsAsked(r: Registry, v: nat, name: string, fields: seq<string>, step: Step)
    requires Inv(r) && v < |r.vaults| && Asked(r, v, name, fields) && Can(r, step)
    requires step.v == v ==> !step.CallFind? && !step.CallCreate?
    ensures |Do(r, step).vaults| == |r.vaults| && Asked(Do(r, step), v, name, fields)
  {
    if step.v == v {
      OwnStepKeepsAsked(r, v, name, fields, step);
    } else {
      OthersLeaveAlone(r, v, step);
      StepGrows(r, step);
      if r.vaults[v].phase.CreateResolve? {
        ResolvedLater(r.types, Do(r, step).types, fields, r.vaults[v].phase.ids);
      }
    }
  }

  lemma {:induction false} RunKeepsAsked(r: Registry, v: nat, name: string, fields: seq<string>, steps: seq<Step>, r': Registry)
    requires Inv(r) && v < |r.vaults| && Asked(r, v, name, fields) && Reaches(r, steps, r') && SameCall(v, steps)
    ensures |r'.vaults| == |r.vaults| && Asked(r', v, name, fields)
    decreases |steps|
  {
    if steps != [] {
      StepKeepsAsked(r, v, name, fields, steps[0]);
      StepKeepsInv(r, steps[0]);
      assert forall i :: 0 <= i < |steps[1..]| ==> steps[1..][i] == steps[i + 1];
      RunKeepsAsked(Do(r, steps[0]), v, name, fields, steps[1..], r');
    }
  }

  /** In every run, what a call of CreateSchema links in is a type of the name asked for, with as many
      fields as asked for; the type of each field is the first one of the name given for it in the whole
      list as it stands then. */
  lemma CreatesWhatWasAsked(r0: Registry, before: seq<Step>, r: Registry, v: nat, name: string, fields: seq<string>,
                            steps: seq<Step>, r': Registry)
    requires Init(r0) && Reaches(r0, before, r) && Can(r, CallCreate(v, name, fields))
    requires Reaches(Do(r, CallCreate(v, name, fields)), steps, r') && SameCall(v, steps)
    requires Can(r', Advance(v)) && Do(r', Advance(v)).types != r'.types
    ensures var types := Do(r', Advance(v)).types;
      |types| == |r'.types| + 1 && types[..|r'.types|] == r'.types
      && var linked := types[|r'.types|];
         linked.name == name && |linked.fields| == |fields|
         && forall i :: 0 <= i < |fields| ==> FirstMatch(r'.types, fields[i]) == Some(linked.fields[i])
  {
    var called := Do(r, CallCreate(v, name, fields));
    InitInv(r0);
    RunKeepsInv(r0, before, r);
    StepKeepsInv(r, CallCreate(v, name, fields));
    RunKeepsInv(called, steps, r');
    RunKeepsAsked(called, v, name, fields, steps, r');
    assert VaultOk(r', v);
    OnlyResolveLinks(r', v);
  }

  lemma OnlyResolveLinks(r: Registry, v: nat)
    requires Can(r, Advance(v)) && Do(r, Advance(v)).types != r.types
    ensures var p := r.vaults[v].phase;
      p.CreateResolve? && |p.ids| >= |p.fields| && Do(r, Advance(v)).types == r.types + [TypeEntry(p.name, p.ids)]
  {
  }

  /** A creation gives up on a field exactly when the vault's part of the list has no type of that name. */
  lemma GivesUpWhenUnknown(r0: Registry, before: seq<Step>, r: Registry, v: nat)
    requires Init(r0) && Reaches(r0, before, r) && v < |r.vaults| && r.vaults[v].phase.CreateResolve?
    requires |r.vaults[v].phase.ids| < |r.vaults[v].phase.fields|
    ensures Consumed(r.vaults[v]) <= |r.types|
    ensures var p := r.vaults[v].phase;
      var found := FirstMatch(r.types[..Consumed(r.vaults[v])], p.fields[|p.ids|]);
      Do(r, Advance(v)).vaults[v].phase
      == if found.None? then CreateGiveUp else CreateResolve(p.name, p.fields, p.ids + [found.value])
  {
    InitInv(r0);
    RunKeepsInv(r0, before, r);
    assert VaultOk(r, v);
    var p := r.vaults[v].phase;
    assert CacheLookup(r.vaults[v].cache, p.fields[|p.ids|]) == FirstMatch(r.types[..Consumed(r.vaults[v])], p.fields[|p.ids|]);
  }

  // ---- Duplicated names ----

  ghost predicate DistinctNames(types: seq<TypeEntry>) {
    forall i, j :: 0 <= i < j < |types| ==> types[i].name != types[j].name
  }

  /** The vault knows the list only up to its cursor, and the name lies beyond. */
  ghost predicate Overlooks(r: Registry, v: nat, name: string)
    requires v < |r.vaults| && Consumed(r.vaults[v]) <= |r.types|
  {
    FirstMatch(r.types, name).Some? && FirstMatch(r.types[..Consumed(r.vaults[v])], name).None?
  }

  lemma DistinctAppend(types: seq<TypeEntry>, entry: TypeEntry)
    requires DistinctNames(types)
    ensures DistinctNames(types + [entry]) <==> FirstMatch(types, entry.name).None?
  {
    var longer := types + [entry];
    FirstMatchBound(types, entry.name);
    var m := FirstMatch(types, entry.name);
    if m.Some? {
      assert longer[m.value].name == longer[|types|].name;
    }
  }

  /** A creation that has the lock but has not linked its type in: list and cache are as they were. */
  ghost predicate Preparing(r: Registry, now: Registry, v: nat, name: string)
    requires v < |r.vaults|
  {
    && |now.vaults| == |r.vaults|
    && var was, vault := r.vaults[v], now.vaults[v];
       var untouched := now.types == r.types && vault.cache == was.cache && vault.current == was.current;
       match vault.phase
       case CreateMark(n, _) => n == name && untouched
       case CreateCheck(n, _) => n == name && untouched
       case CreateResolve(n, _, _) => n == name && untouched && name !in vault.cache
       case CreateInvalidate(_) => true
       case CreateGiveUp => true
       case CreateUnlock => true
       case Idle => true
       case _ => false
  }

  /** While a vault holds the exclusive lock no other vault changes the list. */
  lemma OthersLinkNothing(now: Registry, v: nat, step: Step)
    requires Inv(now) && v < |now.vaults| && Creating(now.vaults[v].phase) && Can(now, step) && step.v != v
    ensures Do(now, step).types == now.types
  {
    assert VaultOk(now, v) && VaultOk(now, step.v);
  }

  lemma StepKeepsPreparing(r: Registry, now: Registry, v: nat, name: string, step: Step)
    requires v < |r.vaults| && Inv(now) && Preparing(r, now, v, name) && Can(now, step)
    requires step.v == v ==> !step.CallFind? && !step.CallCreate?
    ensures Preparing(r, Do(now, step), v, name)
  {
    assert VaultOk(now, v);
    if step.v != v {
      OthersLeaveAlone(now, v, step);
      if Creating(now.vaults[v].phase) {
        OthersLinkNothing(now, v, step);
      }
    }
  }

  lemma {:induction false} RunKeepsPreparing(r: Registry, now: Registry, v: nat, name: string, steps: seq<Step>, r': Registry)
    requires v < |r.vaults| && Inv(now) && Preparing(r, now, v, name) && Reaches(now, steps, r') && SameCall(v, steps)
    ensures Preparing(r, r', v, name)
    decreases |steps|
  {
    if steps != [] {
      StepKeepsPreparing(r, now, v, name, steps[0]);
      StepKeepsInv(now, steps[0]);
      assert forall i :: 0 <= i < |steps[1..]| ==> steps[1..][i] == steps[i + 1];
      RunKeepsPreparing(r, Do(now, steps[0]), v, name, steps[1..], r');
    }
  }

  /** All field types are resolved: the next step links the new type in. */
  ghost predicate AboutToLink(vault: Vault) {
    vault.phase.CreateResolve? && |vault.phase.ids| == |vault.phase.fields|
  }

  /** A creation that comes to link its type in keeps the names of the list distinct exactly when,
      at the moment it takes the exclusive lock, its vault does not overlook a type of that name. */
  lemma LinkKeepsNamesDistinct(r0: Registry, before: seq<Step>, r: Registry, v: nat, steps: seq<Step>, r': Registry)
    requires Init(r0) && Reaches(r0, before, r) && DistinctNames(r.types)
    requires v < |r.vaults| && r.vaults[v].phase.CreateLock? && Can(r, Advance(v))
    requires Reaches(Do(r, Advance(v)), steps, r') && SameCall(v, steps)
    requires v < |r'.vaults| && AboutToLink(r'.vaults[v])
    ensures Consumed(r.vaults[v]) <= |r.types|
    ensures DistinctNames(Do(r', Advance(v)).types) <==> !Overlooks(r, v, r.vaults[v].phase.name)
  {
    var name := r.vaults[v].phase.name;
    InitInv(r0);
    RunKeepsInv(r0, before, r);
    StepKeepsInv(r, Advance(v));
    RunKeepsInv(Do(r, Advance(v)), steps, r');
    RunKeepsPreparing(r, Do(r, Advance(v)), v, name, steps, r');
    assert VaultOk(r, v);
    assert CacheLookup(r.vaults[v].cache, name) == FirstMatch(r.types[..Consumed(r.vaults[v])], name);
    DistinctAppend(r.types, TypeEntry(name, r'.vaults[v].phase.ids));
  }

  /** A vault whose flag is set when it takes the exclusive lock never duplicates a name. */
  lemma CurrentVaultNeverDuplicates(r0: Registry, before: seq<Step>, r: Registry, v: nat, steps: seq<Step>, r': Registry)
    requires Init(r0) && Reaches(r0, before, r) && DistinctNames(r.types)
    requires v < |r.vaults| && r.vaults[v].phase.CreateLock? && Can(r, Advance(v)) && r.vaults[v].updated
    requires Reaches(Do(r, Advance(v)), steps, r') && SameCall(v, steps)
    requires v < |r'.vaults| && AboutToLink(r'.vaults[v])
    ensures DistinctNames(Do(r', Advance(v)).types)
  {
    LinkKeepsNamesDistinct(r0, before, r, v, steps, r');
    RunKeepsInv(r0, before, r) by { InitInv(r0); }
    assert VaultOk(r, v);
    assert r.types[..Consumed(r.vaults[v])] == r.types;
  }

  /** The duplicate check of a vault that has not looked at the list yet finds nothing: a second type
      of the same name is linked in. */
  lemma NamesCanBeDuplicated() returns (r0: Registry, steps: seq<Step>, r: Registry)
    ensures Init(r0) && Reaches(r0, steps, r) && DistinctNames(r0.types)
    ensures steps == [CallCreate(0, "X", []), Advance(0), Advance(0), Advance(0), Advance(0)]
    ensures r.types == [TypeEntry("X", []), TypeEntry("X", [])] && !DistinctNames(r.types)
  {
    var blank := Vault(Idle, false, map[], None);
    r0 := Registry([TypeEntry("X", [])], [blank, blank], None, {}, 1);
    LinkRun(r0, 0, "X");
    steps, r := LinkSteps(0, "X"), Linked(r0, 0, "X");
    assert r.types[0].name == r.types[1].name;
  }

  /** Asking first, as defstruct does, does not prevent it: both threads look the name up and find
      nothing, one defines it and releases the lock, and the other one's duplicate check still goes
      by its old cache. */
  lemma AskingFirstDoesNotHelp() returns (r0: Registry, asked: Registry, defined: Registry, r: Registry)
    ensures Init(r0) && r0.types == []
    ensures Reaches(r0, LookupSteps(0, "X") + LookupSteps(1, "X"), asked)
    ensures |asked.vaults| == 2 && forall v :: 0 <= v < 2 ==> asked.vaults[v].updated && "X" !in asked.vaults[v].cache
    ensures Reaches(asked, LinkSteps(1, "X") + ReleaseSteps(1), defined)
    ensures Free(defined) && defined.types == [TypeEntry("X", [])] && defined.published == 1
    ensures Reaches(defined, LinkSteps(0, "X"), r)
    ensures r.types == [TypeEntry("X", []), TypeEntry("X", [])] && !DistinctNames(r.types)
  {
    var blank, warm := Vault(Idle, false, map[], None), Vault(Idle, true, map[], None);
    r0 := Registry([], [blank, blank], None, {}, 0);
    asked := Registry([], [warm, warm], None, {}, 0);
    var half := SetVault(r0, 0, warm);
    LookupRun(r0, 0, "X");
    LookupRun(half, 1, "X");
    assert SetVault(half, 1, warm).vaults == asked.vaults;
    ReachesConcat(r0, LookupSteps(0, "X"), half, LookupSteps(1, "X"), asked);
    defined := DefinedByOther(asked);
    LinkRun(defined, 0, "X");
    r := Linked(defined, 0, "X");
    assert r.types[0].name == r.types[1].name;
  }

  lemma DefinedByOther(r: Registry) returns (r': Registry)
    requires Free(r) && r.types == [] && |r.vaults| == 2
    requires forall v :: 0 <= v < 2 ==> r.vaults[v] == Vault(Idle, true, map[], None)
    ensures Reaches(r, LinkSteps(1, "X") + ReleaseSteps(1), r')
    ensures Free(r') && r'.types == [TypeEntry("X", [])] && r'.published == 1
    ensures |r'.vaults| == 2 && r'.vaults[0] == Vault(Idle, false, map[], None)
  {
    var linked := Linked(r, 1, "X");
    LinkRun(r, 1, "X");
    ReleaseRun(linked, 1);
    r' := Released(linked, 1);
    ReachesConcat(r, LinkSteps(1, "X"), linked, ReleaseSteps(1), r');
  }
}
