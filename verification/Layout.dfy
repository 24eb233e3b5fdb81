/** Record layout: the schemas of types/schema.h, the offsets `defstruct` computes in
    main/slang_env.cc, and the walks of storage/object_writer.cc and json/json_serializer.cc
    that align absolute addresses instead. */
module Layout {
  import opened Numbers
  import opened Bits

  /** The type flags; every kind but Struct is basic. Plain is basic without a numeric flag. */
  datatype Kind = Struct | Signed | Unsigned | Floating | Plain

  /** `schema` is the index of the field's type in the shared list. */
  datatype Field = Field(name: string, schema: nat)

  datatype Schema = Schema(name: string, alignment: nat, size: nat, kind: Kind, fields: seq<Field>)

  /** All the layout code looks at in a field. */
  datatype Shape = Shape(alignment: nat, size: nat)

  predicate EarlierFields(fields: seq<Field>, n: nat) {
    forall i :: 0 <= i < |fields| ==> fields[i].schema < n
  }

  /** Every field's type comes earlier in the list, as TypeVault.SchemaGraphIsAcyclic shows. */
  type Types = types: seq<Schema> | forall k :: 0 <= k < |types| ==> EarlierFields(types[k].fields, k)

  function Shapes(types: Types, fields: seq<Field>): (shapes: seq<Shape>)
    requires EarlierFields(fields, |types|)
  {
    seq(|fields|, i requires 0 <= i < |fields| =>
      Shape(types[fields[i].schema].alignment, types[fields[i].schema].size))
  }

  function ShapesOf(types: Types, k: nat): (shapes: seq<Shape>)
    requires k < |types|
  {
    Shapes(types, types[k].fields)
  }

  // ---- The walk over absolute addresses, as the code does it ----

  function OffsetPtr(ptr: nat, offset: nat): nat {
    Wrap(ptr + offset)
  }

  /** Where the pointer stands once i fields are passed. */
  function Cursor(shapes: seq<Shape>, base: nat, i: nat): nat
    requires i <= |shapes|
    decreases i, 0
  {
    if i == 0 then base else OffsetPtr(Address(shapes, base, i - 1), shapes[i - 1].size)
  }

  function Address(shapes: seq<Shape>, base: nat, i: nat): nat
    requires i < |shapes|
    decreases i, 1
  {
    AlignPtr(Cursor(shapes, base, i), shapes[i].alignment)
  }

  function Max(a: nat, b: nat): nat {
    if a < b then b else a
  }

  function MaxAlignment(shapes: seq<Shape>): nat {
    if shapes == [] then 0 else Max(MaxAlignment(shapes[..|shapes| - 1]), shapes[|shapes| - 1].alignment)
  }

  /** The size `defstruct` records: the walk from address 0, padded. */
  function StructSize(shapes: seq<Shape>): nat {
    AlignPtr(Cursor(shapes, 0, |shapes|), MaxAlignment(shapes))
  }

  // ---- Offsets in ordinary arithmetic ----

  function Up(x: nat, a: nat): nat {
    if a == 0 then 0 else RoundUp(x, a)
  }

  function End(shapes: seq<Shape>, i: nat): nat
    requires i <= |shapes|
    decreases i, 0
  {
    if i == 0 then 0 else Start(shapes, i - 1) + shapes[i - 1].size
  }

  function Start(shapes: seq<Shape>, i: nat): nat
    requires i < |shapes|
    decreases i, 1
  {
    Up(End(shapes, i), shapes[i].alignment)
  }

  /** Alignments are powers of two, or zero for an empty struct. */
  ghost predicate Alignable(shapes: seq<Shape>) {
    forall i :: 0 <= i < |shapes| ==> shapes[i].alignment == 0 || IsPow2(shapes[i].alignment)
  }

  predicate NoEmptyField(shapes: seq<Shape>) {
    forall i :: 0 <= i < |shapes| ==> shapes[i].alignment != 0
  }

  /** An object at this address, with its padding, ends inside the 64-bit address space. */
  predicate Fits(shapes: seq<Shape>, base: nat) {
    base + End(shapes, |shapes|) + MaxAlignment(shapes) <= TWO_64
  }

  lemma {:induction false} MaxDominates(shapes: seq<Shape>, i: nat)
    requires i < |shapes|
    ensures shapes[i].alignment <= MaxAlignment(shapes)
  {
    var n := |shapes| - 1;
    if i < n {
      MaxDominates(shapes[..n], i);
    }
  }

  lemma {:induction false} MaxIsSome(shapes: seq<Shape>)
    requires Alignable(shapes)
    ensures MaxAlignment(shapes) == 0 || IsPow2(MaxAlignment(shapes))
  {
    if shapes != [] {
      MaxIsSome(shapes[..|shapes| - 1]);
    }
  }

  /** An address aligned for the struct is aligned for each field. */
  lemma BaseSuitsField(shapes: seq<Shape>, base: nat, i: nat)
    requires Alignable(shapes) && i < |shapes| && shapes[i].alignment != 0
    requires BaseAligned(base, MaxAlignment(shapes))
    ensures base % shapes[i].alignment == 0
  {
    MaxDominates(shapes, i);
    MaxIsSome(shapes);
    SmallerDivides(shapes[i].alignment, MaxAlignment(shapes));
    DividesThrough(base, shapes[i].alignment, MaxAlignment(shapes));
  }

  lemma StartBounds(shapes: seq<Shape>, i: nat)
    requires i < |shapes| && shapes[i].alignment != 0
    ensures End(shapes, i) <= Start(shapes, i) < End(shapes, i) + shapes[i].alignment
    ensures Start(shapes, i) % shapes[i].alignment == 0
  {
    RoundUpBounds(End(shapes, i), shapes[i].alignment);
  }

  lemma {:induction false} EndGrows(shapes: seq<Shape>, i: nat, j: nat)
    requires NoEmptyField(shapes) && i <= j <= |shapes|
    ensures End(shapes, i) <= End(shapes, j)
    decreases j
  {
    if i < j {
      EndGrows(shapes, i, j - 1);
      StartBounds(shapes, j - 1);
    }
  }

  lemma RoomFor(shapes: seq<Shape>, base: nat, i: nat)
    requires i < |shapes| && NoEmptyField(shapes) && Fits(shapes, base)
    ensures base + End(shapes, i) + shapes[i].alignment <= TWO_64
    ensures base + Start(shapes, i) + shapes[i].size < TWO_64
  {
    EndGrows(shapes, i, |shapes|);
    EndGrows(shapes, i + 1, |shapes|);
    MaxDominates(shapes, i);
  }

  lemma NoOverflow(ptr: nat, offset: nat)
    requires ptr + offset < TWO_64
    ensures OffsetPtr(ptr, offset) == ptr + offset
  {
  }

  lemma AlignShift(shape: Shape, base: nat, x: nat)
    requires IsPow2(shape.alignment) && base + x + shape.alignment <= TWO_64
    requires shape.alignment > 0 && base % shape.alignment == 0
    ensures AlignPtr(base + x, shape.alignment) == base + Up(x, shape.alignment)
  {
    Align(base + x, shape.alignment);
    RoundUpShift(base, x, shape.alignment);
  }

  /** The absolute walk stays at base plus the offset. */
  lemma {:induction false} CursorShift(shapes: seq<Shape>, base: nat, i: nat)
    requires i <= |shapes| && NoEmptyField(shapes) && Alignable(shapes)
    requires BaseAligned(base, MaxAlignment(shapes)) && Fits(shapes, base)
    ensures Cursor(shapes, base, i) == base + End(shapes, i)
    decreases i, 0
  {
    if i > 0 {
      AddressShift(shapes, base, i - 1);
      RoomFor(shapes, base, i - 1);
      NoOverflow(base + Start(shapes, i - 1), shapes[i - 1].size);
    }
  }

  lemma {:induction false} AddressShift(shapes: seq<Shape>, base: nat, i: nat)
    requires i < |shapes| && NoEmptyField(shapes) && Alignable(shapes)
    requires BaseAligned(base, MaxAlignment(shapes)) && Fits(shapes, base)
    ensures Address(shapes, base, i) == base + Start(shapes, i)
    decreases i, 1
  {
    CursorShift(shapes, base, i);
    RoomFor(shapes, base, i);
    BaseSuitsField(shapes, base, i);
    AlignShift(shapes[i], base, End(shapes, i));
  }

  lemma AddressOfEmpty(shapes: seq<Shape>, base: nat, i: nat)
    requires i < |shapes| && shapes[i].alignment == 0
    ensures Address(shapes, base, i) == 0
  {
    AlignZeroIsNull(Cursor(shapes, base, i));
  }

  lemma ZeroFits(shapes: seq<Shape>, base: nat)
    requires Fits(shapes, base)
    ensures Fits(shapes, 0) && BaseAligned(0, MaxAlignment(shapes))
  {
  }

  /** The absolute walks agree with the offsets of `defstruct` exactly when no field is an empty struct. */
  lemma WalksAgree(shapes: seq<Shape>, base: nat)
    requires base > 0 && Alignable(shapes) && BaseAligned(base, MaxAlignment(shapes)) && Fits(shapes, base)
    ensures (forall i :: 0 <= i < |shapes| ==> Address(shapes, base, i) == base + Address(shapes, 0, i))
       <==> NoEmptyField(shapes)
  {
    if NoEmptyField(shapes) {
      ZeroFits(shapes, base);
      forall i | 0 <= i < |shapes| ensures Address(shapes, base, i) == base + Address(shapes, 0, i) {
        AddressShift(shapes, base, i);
        AddressShift(shapes, 0, i);
      }
    } else {
      var i :| 0 <= i < |shapes| && shapes[i].alignment == 0;
      AddressOfEmpty(shapes, base, i);
      AddressOfEmpty(shapes, 0, i);
    }
  }

  /** The recorded size is the end of the last field, rounded up. */
  lemma SizeIsPaddedEnd(shapes: seq<Shape>)
    requires shapes != [] && NoEmptyField(shapes) && Alignable(shapes) && Fits(shapes, 0)
    ensures var a := MaxAlignment(shapes);
      IsPow2(a) && End(shapes, |shapes|) <= StructSize(shapes) < End(shapes, |shapes|) + a && StructSize(shapes) % a == 0
  {
    var n := |shapes|;
    MaxIsSome(shapes);
    MaxDominates(shapes, 0);
    CursorShift(shapes, 0, n);
    Align(End(shapes, n), MaxAlignment(shapes));
    RoundUpBounds(End(shapes, n), MaxAlignment(shapes));
  }

  lemma SizeCovers(shapes: seq<Shape>)
    requires shapes != [] && NoEmptyField(shapes) && Alignable(shapes) && Fits(shapes, 0)
    ensures End(shapes, |shapes|) <= StructSize(shapes)
  {
    SizeIsPaddedEnd(shapes);
  }

  lemma StartsInOrder(shapes: seq<Shape>, i: nat, j: nat)
    requires i < j < |shapes| && NoEmptyField(shapes)
    ensures Start(shapes, i) + shapes[i].size <= Start(shapes, j)
  {
    EndGrows(shapes, i + 1, j);
    StartBounds(shapes, j);
  }

  lemma EndsInside(shapes: seq<Shape>, i: nat)
    requires i < |shapes| && NoEmptyField(shapes) && Alignable(shapes) && Fits(shapes, 0)
    ensures Start(shapes, i) + shapes[i].size <= StructSize(shapes)
  {
    SizeCovers(shapes);
    EndGrows(shapes, i + 1, |shapes|);
  }

  /** Fields are aligned, follow one another without overlap, and end inside the recorded size. */
  lemma FieldsInPlace(shapes: seq<Shape>, i: nat)
    requires i < |shapes| && NoEmptyField(shapes) && Alignable(shapes) && Fits(shapes, 0)
    ensures Address(shapes, 0, i) % shapes[i].alignment == 0
    ensures forall j :: i < j < |shapes| ==> Address(shapes, 0, i) + shapes[i].size <= Address(shapes, 0, j)
    ensures Address(shapes, 0, i) + shapes[i].size <= StructSize(shapes)
  {
    AddressShift(shapes, 0, i);
    StartBounds(shapes, i);
    EndsInside(shapes, i);
    forall j | i < j < |shapes| ensures Address(shapes, 0, i) + shapes[i].size <= Address(shapes, 0, j) {
      StartsInOrder(shapes, i, j);
      AddressShift(shapes, 0, j);
    }
  }

  // ---- Registered types ----

  predicate IntegerSize(size: nat) {
    size == 1 || size == 2 || size == 4 || size == 8
  }

  /** The built-in types: numbers are as aligned as they are wide. */
  predicate BasicOk(s: Schema) {
    s.fields == []
    && (s.kind.Signed? || s.kind.Unsigned? ==> IntegerSize(s.size) && s.alignment == s.size)
    && (s.kind.Floating? ==> (s.size == 4 || s.size == 8) && s.alignment == s.size)
    && (s.kind.Plain? ==> (s.size == 4 || s.size == 16) && (s.alignment == 4 || s.alignment == 8))
  }

  /** What `defstruct` leaves behind: alignment and size come from the walk. */
  predicate StructOk(types: Types, k: nat)
    requires k < |types|
  {
    var shapes := ShapesOf(types, k);
    types[k].alignment == MaxAlignment(shapes) && types[k].size == StructSize(shapes)
  }

  predicate SchemaOk(types: Types, k: nat)
    requires k < |types|
  {
    if types[k].kind == Struct then StructOk(types, k) else BasicOk(types[k])
  }

  /** No empty struct, and a size that does not overflow. */
  predicate Roomy(types: Types, k: nat)
    requires k < |types|
  {
    types[k].alignment != 0 && Fits(ShapesOf(types, k), 0)
  }

  predicate Registered(types: Types) {
    forall k :: 0 <= k < |types| ==> SchemaOk(types, k)
  }

  /** No texts and no frame barriers among the basic types. */
  predicate Numeric(types: Types) {
    forall k :: 0 <= k < |types| ==> types[k].kind != Plain
  }

  /** Type t is type k, or the type of a field in it at some depth. */
  predicate Within(types: Types, k: nat, t: nat)
    requires k < |types|
    ensures Within(types, k, t) ==> t <= k
    decreases k
  {
    t == k || exists i :: 0 <= i < |types[k].fields| && Within(types, types[k].fields[i].schema, t)
  }

  /** A type that can be laid out: everything in it is roomy. */
  predicate SoundAt(types: Types, k: nat)
    requires k < |types|
  {
    forall t :: 0 <= t <= k && Within(types, k, t) ==> Roomy(types, t)
  }

  lemma SoundHere(types: Types, k: nat)
    requires k < |types| && SoundAt(types, k)
    ensures Roomy(types, k)
  {
    assert Within(types, k, k);
  }

  lemma SoundField(types: Types, k: nat, i: nat)
    requires k < |types| && SoundAt(types, k) && i < |types[k].fields|
    ensures SoundAt(types, types[k].fields[i].schema)
  {
    var f := types[k].fields[i].schema;
    forall t | 0 <= t <= f && Within(types, f, t) ensures Roomy(types, t) {
      assert Within(types, k, t);
    }
  }

  /** Soundness of a type, one level at a time. */
  lemma SoundByFields(types: Types, k: nat)
    requires k < |types|
    ensures SoundAt(types, k) <==>
      Roomy(types, k) && forall i :: 0 <= i < |types[k].fields| ==> SoundAt(types, types[k].fields[i].schema)
  {
    if SoundAt(types, k) {
      SoundHere(types, k);
      forall i | 0 <= i < |types[k].fields| ensures SoundAt(types, types[k].fields[i].schema) {
        SoundField(types, k, i);
      }
    }
    if Roomy(types, k) && forall i :: 0 <= i < |types[k].fields| ==> SoundAt(types, types[k].fields[i].schema) {
      forall t | 0 <= t <= k && Within(types, k, t) ensures Roomy(types, t) {
        if t != k {
          var i :| 0 <= i < |types[k].fields| && Within(types, types[k].fields[i].schema, t);
          assert SoundAt(types, types[k].fields[i].schema);
        }
      }
    }
  }

  lemma PowersUpTo8(a: nat)
    requires a == 1 || a == 2 || a == 4 || a == 8
    ensures IsPow2(a)
  {
    assert Pow2(0) == 1;
    assert Pow2(1) == 2;
    assert Pow2(2) == 4;
    assert Pow2(3) == 8;
  }

  lemma {:induction false} AlignmentIsPower(types: Types, k: nat)
    requires Registered(types) && k < |types|
    ensures types[k].alignment == 0 || IsPow2(types[k].alignment)
    ensures Alignable(ShapesOf(types, k))
    decreases k
  {
    assert SchemaOk(types, k);
    var s, shapes := types[k], ShapesOf(types, k);
    forall i | 0 <= i < |shapes| ensures shapes[i].alignment == 0 || IsPow2(shapes[i].alignment) {
      AlignmentIsPower(types, s.fields[i].schema);
    }
    if s.kind == Struct {
      MaxIsSome(shapes);
    } else {
      PowersUpTo8(s.alignment);
    }
  }

  lemma ShapesAreSound(types: Types, k: nat)
    requires Registered(types) && k < |types| && SoundAt(types, k)
    ensures var shapes := ShapesOf(types, k);
      NoEmptyField(shapes) && Alignable(shapes) && Fits(shapes, 0)
      && (types[k].kind == Struct ==> shapes != [] && types[k].alignment == MaxAlignment(shapes) && types[k].size == StructSize(shapes))
  {
    assert SchemaOk(types, k);
    SoundHere(types, k);
    AlignmentIsPower(types, k);
    var s, shapes := types[k], ShapesOf(types, k);
    forall i | 0 <= i < |shapes| ensures shapes[i].alignment != 0 {
      SoundField(types, k, i);
      SoundHere(types, s.fields[i].schema);
    }
  }

  type RegisteredTypes = types: Types | Registered(types)

  // ---- Nested records ----

  datatype Leaf = Leaf(address: nat, schema: nat)

  /** The basic values of an object in the order the serializer visits them. */
  function Leaves(types: RegisteredTypes, k: nat, base: nat): seq<Leaf>
    requires k < |types|
    decreases k, 2, 0
  {
    if types[k].kind != Struct then [Leaf(base, k)]
    else FieldLeaves(types, k, base, |types[k].fields|)
  }

  function FieldLeaves(types: RegisteredTypes, k: nat, base: nat, i: nat): seq<Leaf>
    requires k < |types| && types[k].kind == Struct && i <= |types[k].fields|
    decreases k, 1, i
  {
    if i == 0 then []
    else FieldLeaves(types, k, base, i - 1) + LeavesOfField(types, k, base, i - 1)
  }

  function LeavesOfField(types: RegisteredTypes, k: nat, base: nat, i: nat): seq<Leaf>
    requires k < |types| && i < |types[k].fields|
    decreases k, 0, 0
  {
    Leaves(types, types[k].fields[i].schema, Address(ShapesOf(types, k), base, i))
  }

  function Moved(leaves: seq<Leaf>, distance: nat): seq<Leaf> {
    seq(|leaves|, i requires 0 <= i < |leaves| => Leaf(leaves[i].address + distance, leaves[i].schema))
  }

  lemma {:induction false} AlignmentAtMost8(types: RegisteredTypes, k: nat)
    requires k < |types|
    ensures types[k].alignment <= 8 && (types[k].alignment == 0 || IsPow2(types[k].alignment))
    decreases k
  {
    assert SchemaOk(types, k);
    AlignmentIsPower(types, k);
    if types[k].kind == Struct {
      var shapes := ShapesOf(types, k);
      forall i | 0 <= i < |shapes| ensures shapes[i].alignment <= 8 {
        AlignmentAtMost8(types, types[k].fields[i].schema);
      }
      MaxBounded(shapes, 8);
    }
  }

  lemma {:induction false} MaxBounded(shapes: seq<Shape>, bound: nat)
    requires forall i :: 0 <= i < |shapes| ==> shapes[i].alignment <= bound
    ensures MaxAlignment(shapes) <= bound
  {
    if shapes != [] {
      MaxBounded(shapes[..|shapes| - 1], bound);
    }
  }

  lemma AlignedBase(types: RegisteredTypes, k: nat, base: nat)
    requires k < |types| && types[k].alignment != 0
    ensures IsAligned(base, types[k].alignment) <==> BaseAligned(base, types[k].alignment)
  {
    AlignmentAtMost8(types, k);
    AlignedMeansMultiple(base, types[k].alignment);
  }

  /** An aligned object of a sound type that ends, with its padding, inside the address space. */
  predicate PlacedAt(types: RegisteredTypes, k: nat, base: nat)
    requires k < |types|
  {
    SoundAt(types, k) && IsAligned(base, types[k].alignment) && base + types[k].size + types[k].alignment <= TWO_64
  }

  lemma PlacedFits(types: RegisteredTypes, k: nat, base: nat)
    requires k < |types| && types[k].kind == Struct
    requires PlacedAt(types, k, base)
    ensures var shapes := ShapesOf(types, k);
      shapes != [] && NoEmptyField(shapes) && Alignable(shapes) && Fits(shapes, 0) && Fits(shapes, base)
      && BaseAligned(base, MaxAlignment(shapes))
  {
    ShapesAreSound(types, k);
    SizeCovers(ShapesOf(types, k));
    SoundHere(types, k);
    AlignedBase(types, k, base);
  }

  lemma MultipleSum(x: nat, y: nat, a: nat)
    requires a > 0 && x % a == 0 && y % a == 0
    ensures (x + y) % a == 0
  {
    var p, q := x / a, y / a;
    assert x == a * p && y == a * q;
    assert x + y == a * (p + q);
    DivModUnique(x + y, a, p + q, 0);
  }

  lemma FieldStartAligned(types: RegisteredTypes, k: nat, base: nat, i: nat)
    requires k < |types| && types[k].kind == Struct
    requires i < |types[k].fields| && PlacedAt(types, k, base)
    ensures var shapes := ShapesOf(types, k); IsAligned(base + Start(shapes, i), shapes[i].alignment)
  {
    var shapes := ShapesOf(types, k);
    PlacedFits(types, k, base);
    BaseSuitsField(shapes, base, i);
    StartBounds(shapes, i);
    MultipleSum(base, Start(shapes, i), shapes[i].alignment);
    assert shapes[i].alignment != 0;
    AlignedBase(types, types[k].fields[i].schema, base + Start(shapes, i));
  }

  lemma FieldRoom(types: RegisteredTypes, k: nat, base: nat, i: nat)
    requires k < |types| && types[k].kind == Struct
    requires i < |types[k].fields| && PlacedAt(types, k, base)
    ensures var shapes := ShapesOf(types, k);
      base + Start(shapes, i) + shapes[i].size + shapes[i].alignment <= TWO_64
  {
    var shapes := ShapesOf(types, k);
    ShapesAreSound(types, k);
    EndsInside(shapes, i);
    MaxDominates(shapes, i);
  }

  lemma FieldAt(types: RegisteredTypes, k: nat, base: nat, i: nat)
    requires k < |types| && types[k].kind == Struct
    requires i < |types[k].fields| && PlacedAt(types, k, base)
    ensures var shapes := ShapesOf(types, k);
      Address(shapes, base, i) == base + Start(shapes, i) && shapes[i].alignment > 0
  {
    var shapes := ShapesOf(types, k);
    PlacedFits(types, k, base);
    AddressShift(shapes, base, i);
  }

  /** A well placed object has well placed fields. */
  lemma FieldPlaced(types: RegisteredTypes, k: nat, base: nat, i: nat)
    requires k < |types| && types[k].kind == Struct
    requires i < |types[k].fields| && PlacedAt(types, k, base)
    ensures types[k].fields[i].schema < k
    ensures Address(ShapesOf(types, k), base, i) == base + Start(ShapesOf(types, k), i)
    ensures PlacedAt(types, types[k].fields[i].schema, Address(ShapesOf(types, k), base, i))
  {
    FieldAt(types, k, base, i);
    FieldStartAligned(types, k, base, i);
    FieldRoom(types, k, base, i);
    SoundField(types, k, i);
  }

  lemma MovedConcat(a: seq<Leaf>, b: seq<Leaf>, distance: nat)
    ensures Moved(a + b, distance) == Moved(a, distance) + Moved(b, distance)
  {
  }

  lemma FieldMoves(types: RegisteredTypes, k: nat, base: nat, there: nat, i: nat) returns (at: nat, at': nat)
    requires k < |types| && types[k].kind == Struct
    requires PlacedAt(types, k, base) && PlacedAt(types, k, there) && base <= there && i < |types[k].fields|
    ensures types[k].fields[i].schema < k
    ensures at == Address(ShapesOf(types, k), base, i) && at' == Address(ShapesOf(types, k), there, i)
    ensures PlacedAt(types, types[k].fields[i].schema, at) && PlacedAt(types, types[k].fields[i].schema, at')
    ensures at <= at' && at' - at == there - base
  {
    FieldPlaced(types, k, base, i);
    FieldPlaced(types, k, there, i);
    at, at' := Address(ShapesOf(types, k), base, i), Address(ShapesOf(types, k), there, i);
  }

  /** Moving an object moves every leaf with it. */
  lemma {:induction false} LeavesMove(types: RegisteredTypes, k: nat, base: nat, there: nat)
    requires k < |types| && PlacedAt(types, k, base) && PlacedAt(types, k, there) && base <= there
    ensures Leaves(types, k, there) == Moved(Leaves(types, k, base), there - base)
    decreases k, 2, 0
  {
    if types[k].kind == Struct {
      FieldLeavesMove(types, k, base, there, |types[k].fields|);
    }
  }

  lemma {:induction false} FieldLeavesMove(types: RegisteredTypes, k: nat, base: nat, there: nat, i: nat)
    requires k < |types| && PlacedAt(types, k, base) && PlacedAt(types, k, there) && base <= there
    requires types[k].kind == Struct && i <= |types[k].fields|
    ensures FieldLeaves(types, k, there, i) == Moved(FieldLeaves(types, k, base, i), there - base)
    decreases k, 1, i
  {
    if i > 0 {
      FieldLeavesMove(types, k, base, there, i - 1);
      OneFieldMoves(types, k, base, there, i - 1);
      MovedConcat(FieldLeaves(types, k, base, i - 1), LeavesOfField(types, k, base, i - 1), there - base);
    }
  }

  lemma {:induction false} OneFieldMoves(types: RegisteredTypes, k: nat, base: nat, there: nat, i: nat)
    requires k < |types| && PlacedAt(types, k, base) && PlacedAt(types, k, there) && base <= there
    requires types[k].kind == Struct && i < |types[k].fields|
    ensures LeavesOfField(types, k, there, i) == Moved(LeavesOfField(types, k, base, i), there - base)
    decreases k, 0, 0
  {
    var at, at' := FieldMoves(types, k, base, there, i);
    LeavesMove(types, types[k].fields[i].schema, at, at');
  }

  /** The recursion from any aligned address visits base plus the offsets it would visit from address 0. */
  lemma LeavesAtOffsets(types: RegisteredTypes, k: nat, base: nat)
    requires k < |types| && PlacedAt(types, k, base)
    ensures Leaves(types, k, base) == Moved(Leaves(types, k, 0), base)
  {
    LeavesMove(types, k, 0, base);
  }

  /** Aligned leaves inside [lo, hi), each ending before the next begins. */
  predicate LeafInside(types: RegisteredTypes, leaf: Leaf, lo: nat, hi: nat) {
    leaf.schema < |types| && types[leaf.schema].kind != Struct
    && IsAligned(leaf.address, types[leaf.schema].alignment)
    && lo <= leaf.address && leaf.address + types[leaf.schema].size <= hi
  }

  predicate Tiled(types: RegisteredTypes, leaves: seq<Leaf>, lo: nat, hi: nat) {
    (forall i :: 0 <= i < |leaves| ==> LeafInside(types, leaves[i], lo, hi))
    && (forall i, j :: 0 <= i < j < |leaves| ==>
         leaves[i].address + types[leaves[i].schema].size <= leaves[j].address)
  }

  lemma TiledConcat(types: RegisteredTypes, a: seq<Leaf>, b: seq<Leaf>, lo: nat, mid: nat, from: nat, hi: nat)
    requires Tiled(types, a, lo, mid) && Tiled(types, b, from, hi) && lo <= mid <= from <= hi
    ensures Tiled(types, a + b, lo, hi)
  {
  }

  /** Everything the serializer visits is aligned, disjoint and inside the object, at every depth. */
  lemma {:induction false} LeavesInside(types: RegisteredTypes, k: nat, base: nat)
    requires k < |types| && PlacedAt(types, k, base)
    ensures Tiled(types, Leaves(types, k, base), base, base + types[k].size)
    decreases k, 1, 0
  {
    if types[k].kind == Struct {
      var shapes := ShapesOf(types, k);
      FieldLeavesInside(types, k, base, |shapes|);
      ShapesAreSound(types, k);
      SizeCovers(shapes);
    }
  }

  lemma {:induction false} FieldLeavesInside(types: RegisteredTypes, k: nat, base: nat, i: nat)
    requires k < |types| && PlacedAt(types, k, base)
    requires types[k].kind == Struct && i <= |types[k].fields|
    ensures Tiled(types, FieldLeaves(types, k, base, i), base, base + End(ShapesOf(types, k), i))
    decreases k, 0, i
  {
    if i > 0 {
      var shapes := ShapesOf(types, k);
      FieldLeavesInside(types, k, base, i - 1);
      FieldPlaced(types, k, base, i - 1);
      var f := types[k].fields[i - 1].schema;
      var at := Address(shapes, base, i - 1);
      FieldAt(types, k, base, i - 1);
      StartBounds(shapes, i - 1);
      LeavesInside(types, f, at);
      TiledConcat(types, FieldLeaves(types, k, base, i - 1), Leaves(types, f, at),
                  base, base + End(shapes, i - 1), at, at + types[f].size);
    }
  }
}
