/** The `defstruct` function of main/slang_env.cc: one pass sizes the storage, a second fills it. */
module StructDefs {
  import opened Common
  import opened Slang
  import opened Bits
  import opened Layout

  datatype DefError =
    | ExpectedTypeName
    | AlreadyExists(name: string)
    | ExpectedField(got: Value)
    | ExpectedFieldType(found: Option<Value>)
    | UnknownType(name: string)

  /** The first type of that name, as the registry resolves it. */
  function Find(types: seq<Schema>, name: string): (r: Option<nat>)
    ensures r.Some? ==> r.value < |types| && types[r.value].name == name
    ensures forall i :: 0 <= i < (if r.Some? then r.value else |types|) ==> types[i].name != name
  {
    FirstNamed(types, (s: Schema) => s.name, name)
  }

  datatype Parsed = Fields(fields: seq<Field>) | Refused(error: DefError)

  function Prepend(done: seq<Field>, p: Parsed): Parsed {
    if p.Fields? then Fields(done + p.fields) else p
  }

  /** Arguments from the i-th on, read as pairs of a field name and a type name. */
  function ParseFields(types: Types, args: seq<Value>, i: nat): (p: Parsed)
    requires i <= |args|
    ensures p.Fields? ==> EarlierFields(p.fields, |types|)
    decreases |args| - i
  {
    if i == |args| then Fields([])
    else if !args[i].FieldVal? then Refused(ExpectedField(args[i]))
    else if i + 1 == |args| then Refused(ExpectedFieldType(None))
    else if !args[i + 1].StrVal? then Refused(ExpectedFieldType(Some(args[i + 1])))
    else
      var found := Find(types, args[i + 1].s);
      if found.None? then Refused(UnknownType(args[i + 1].s))
      else Prepend([Field(args[i].name, found.value)], ParseFields(types, args, i + 2))
  }

  function StructSchema(types: Types, name: string, fields: seq<Field>): Schema
    requires EarlierFields(fields, |types|)
  {
    var shapes := Shapes(types, fields);
    Schema(name, MaxAlignment(shapes), StructSize(shapes), Struct, fields)
  }

  datatype Definition = Added(schema: Schema) | Rejected(error: DefError)

  /** What one definition amounts to. */
  function Define(types: Types, args: seq<Value>): (d: Definition)
    ensures d.Added? ==> EarlierFields(d.schema.fields, |types|)
  {
    if args == [] || !args[0].StrVal? then Rejected(ExpectedTypeName)
    else if Find(types, args[0].s).Some? then Rejected(AlreadyExists(args[0].s))
    else
      var p := ParseFields(types, args, 1);
      if p.Fields? then Added(StructSchema(types, args[0].s, p.fields)) else Rejected(p.error)
  }

  lemma Appended(types: Types, schema: Schema, k: nat)
    requires k < |types| && EarlierFields(schema.fields, |types|)
    ensures ShapesOf(types + [schema], k) == ShapesOf(types, k)
    ensures SchemaOk(types, k) ==> SchemaOk(types + [schema], k)
    ensures Roomy(types, k) <==> Roomy(types + [schema], k)
  {
    var longer: Types := types + [schema];
    assert longer[k] == types[k];
    assert ShapesOf(longer, k) == ShapesOf(types, k);
  }

  lemma NewShapes(types: Types, schema: Schema)
    requires EarlierFields(schema.fields, |types|)
    ensures ShapesOf(types + [schema], |types|) == Shapes(types, schema.fields)
  {
    var longer: Types := types + [schema];
    var a, b := ShapesOf(longer, |types|), Shapes(types, schema.fields);
    assert |a| == |b|;
    forall i | 0 <= i < |a| ensures a[i] == b[i] {
    }
  }

  // ---- Definitions as they are written ----

  /** Type k is the first of its name. */
  ghost predicate FirstOfName(types: Types, k: nat) {
    k < |types| && forall j :: 0 <= j < k ==> types[j].name != types[k].name
  }

  /** From the i-th on, the arguments are the name of each field and the name of its type in turn. */
  ghost predicate Pairs(types: Types, args: seq<Value>, i: nat, fields: seq<Field>) {
    && |args| == i + 2 * |fields|
    && forall n :: 0 <= n < |fields| ==>
         args[i + 2 * n] == FieldVal(fields[n].name) && FirstOfName(types, fields[n].schema)
         && args[i + 2 * n + 1] == StrVal(types[fields[n].schema].name)
  }

  /** The first pair and the others. */
  lemma PairsOpen(types: Types, args: seq<Value>, i: nat, fields: seq<Field>)
    requires fields != [] && Pairs(types, args, i, fields)
    ensures args[i] == FieldVal(fields[0].name) && FirstOfName(types, fields[0].schema)
    ensures args[i + 1] == StrVal(types[fields[0].schema].name) && Pairs(types, args, i + 2, fields[1..])
  {
    var rest := fields[1..];
    assert args[i + 2 * 0] == FieldVal(fields[0].name);
    forall n | 0 <= n < |rest|
      ensures args[i + 2 + 2 * n] == FieldVal(rest[n].name) && FirstOfName(types, rest[n].schema)
        && args[i + 2 + 2 * n + 1] == StrVal(types[rest[n].schema].name)
    {
      assert args[i + 2 * (n + 1)] == FieldVal(fields[n + 1].name);
    }
  }

  lemma PairsClose(types: Types, args: seq<Value>, i: nat, fields: seq<Field>)
    requires fields != [] && i + 2 <= |args| && args[i] == FieldVal(fields[0].name) && FirstOfName(types, fields[0].schema)
    requires args[i + 1] == StrVal(types[fields[0].schema].name) && Pairs(types, args, i + 2, fields[1..])
    ensures Pairs(types, args, i, fields)
  {
    var rest := fields[1..];
    forall n | 0 <= n < |fields|
      ensures args[i + 2 * n] == FieldVal(fields[n].name) && FirstOfName(types, fields[n].schema)
        && args[i + 2 * n + 1] == StrVal(types[fields[n].schema].name)
    {
      if n > 0 {
        assert args[i + 2 + 2 * (n - 1)] == FieldVal(rest[n - 1].name);
      }
    }
  }

  lemma {:induction false} ParsedArePairs(types: Types, args: seq<Value>, i: nat)
    requires i <= |args|
    ensures var p := ParseFields(types, args, i); p.Fields? ==> Pairs(types, args, i, p.fields)
    decreases |args| - i
  {
    var p := ParseFields(types, args, i);
    if p.Fields? && i < |args| {
      ParsedArePairs(types, args, i + 2);
      assert p.fields[1..] == ParseFields(types, args, i + 2).fields;
      PairsClose(types, args, i, p.fields);
    }
  }

  lemma {:induction false} PairsAreParsed(types: Types, args: seq<Value>, i: nat, fields: seq<Field>)
    requires i <= |args| && Pairs(types, args, i, fields)
    ensures ParseFields(types, args, i) == Fields(fields)
    decreases |fields|
  {
    if fields != [] {
      PairsOpen(types, args, i, fields);
      PairsAreParsed(types, args, i + 2, fields[1..]);
      assert [fields[0]] + fields[1..] == fields;
    }
  }

  /** What is wrong with the argument where a definition stops being pairs of names. */
  ghost predicate WrongAt(types: Types, args: seq<Value>, j: nat, e: DefError) {
    j < |args| &&
    match e
    case ExpectedField(got) => got == args[j] && !got.FieldVal?
    case ExpectedFieldType(None) => args[j].FieldVal? && j + 1 == |args|
    case ExpectedFieldType(Some(found)) => args[j].FieldVal? && j + 1 < |args| && found == args[j + 1] && !found.StrVal?
    case UnknownType(name) =>
      args[j].FieldVal? && j + 1 < |args| && args[j + 1] == StrVal(name) && forall k :: 0 <= k < |types| ==> types[k].name != name
    case _ => false
  }

  lemma {:induction false} RefusedAtFirstWrong(types: Types, args: seq<Value>, i: nat) returns (fields: seq<Field>)
    requires i <= |args| && ParseFields(types, args, i).Refused?
    ensures i + 2 * |fields| <= |args| && Pairs(types, args[..i + 2 * |fields|], i, fields)
    ensures WrongAt(types, args, i + 2 * |fields|, ParseFields(types, args, i).error)
    decreases |args| - i
  {
    fields := [];
    if i + 1 < |args| && args[i].FieldVal? && args[i + 1].StrVal? && Find(types, args[i + 1].s).Some? {
      var rest := RefusedAtFirstWrong(types, args, i + 2);
      var first := Field(args[i].name, Find(types, args[i + 1].s).value);
      fields := [first] + rest;
      assert fields[1..] == rest;
      PairsClose(types, args[..i + 2 * |fields|], i, fields);
    }
  }

  /** A definition is accepted exactly when it is written as a new name and then pairs of a field name and the
      name of a type; the struct then has that name and those fields, each of the first type of its name.
      Otherwise the error is that of the first argument that does not fit. */
  lemma DefinesAsWritten(types: Types, args: seq<Value>)
    ensures var d := Define(types, args);
      (d.Added? <==> exists name, fields :: Written(types, args, name, fields))
      && (d.Added? ==> d.schema.kind == Struct && Written(types, args, d.schema.name, d.schema.fields))
      && (d.Rejected? ==> RightError(types, args, d.error))
  {
    var d := Define(types, args);
    if d.Added? {
      ParsedArePairs(types, args, 1);
      assert Written(types, args, d.schema.name, d.schema.fields);
    } else {
      if exists name, fields :: Written(types, args, name, fields) {
        var name, fields :| Written(types, args, name, fields);
        PairsAreParsed(types, args, 1, fields);
      }
      if args != [] && args[0].StrVal? && forall k :: 0 <= k < |types| ==> types[k].name != args[0].s {
        var fields := RefusedAtFirstWrong(types, args, 1);
        assert WrongBehind(types, args, fields, d.error);
      }
    }
  }

  /** The error of a definition that is not accepted. */
  ghost predicate RightError(types: Types, args: seq<Value>, e: DefError) {
    if args == [] || !args[0].StrVal? then e == ExpectedTypeName
    else if exists k :: 0 <= k < |types| && types[k].name == args[0].s then e == AlreadyExists(args[0].s)
    else exists fields :: WrongBehind(types, args, fields, e)
  }

  ghost predicate Written(types: Types, args: seq<Value>, name: string, fields: seq<Field>) {
    && args != [] && args[0] == StrVal(name) && (forall k :: 0 <= k < |types| ==> types[k].name != name)
    && Pairs(types, args, 1, fields)
  }

  /** Behind the name and these pairs comes the first argument that does not fit. */
  ghost predicate WrongBehind(types: Types, args: seq<Value>, fields: seq<Field>, e: DefError) {
    && 1 + 2 * |fields| <= |args| && Pairs(types, args[..1 + 2 * |fields|], 1, fields)
    && WrongAt(types, args, 1 + 2 * |fields|, e)
  }

  /** Every definition keeps the registry laid out by the walk, and resolving names as before. */
  lemma DefineKeepsRegistered(types: Types, args: seq<Value>)
    requires Registered(types)
    ensures var d := Define(types, args); d.Added? ==>
      Registered(types + [d.schema])
      && (forall name :: Find(types, name).Some? ==> Find(types + [d.schema], name) == Find(types, name))
      && Find(types, d.schema.name).None? && Find(types + [d.schema], d.schema.name) == Some(|types|)
  {
    var d := Define(types, args);
    if d.Added? {
      AddedIsRegistered(types, args);
      var longer: Types := types + [d.schema];
      assert longer[..|types|] == types;
    }
  }

  lemma AddedIsRegistered(types: Types, args: seq<Value>)
    requires Registered(types) && Define(types, args).Added?
    ensures Registered(types + [Define(types, args).schema])
  {
    var schema := Define(types, args).schema;
    var longer: Types := types + [schema];
    forall k | 0 <= k < |longer| ensures SchemaOk(longer, k) {
      if k < |types| {
        assert SchemaOk(types, k);
        Appended(types, schema, k);
      } else {
        NewShapes(types, schema);
      }
    }
  }

  /** A new definition makes no earlier type sound or unsound. */
  lemma {:induction false} DefineKeepsSoundness(types: Types, schema: Schema, k: nat)
    requires k < |types| && EarlierFields(schema.fields, |types|)
    ensures SoundAt(types + [schema], k) <==> SoundAt(types, k)
    decreases k
  {
    var longer: Types := types + [schema];
    assert longer[k] == types[k];
    Appended(types, schema, k);
    SoundByFields(types, k);
    SoundByFields(longer, k);
    forall i | 0 <= i < |types[k].fields|
      ensures SoundAt(longer, types[k].fields[i].schema) <==> SoundAt(types, types[k].fields[i].schema)
    {
      DefineKeepsSoundness(types, schema, types[k].fields[i].schema);
    }
  }

  /** Every field's type can be laid out. */
  predicate FieldsSound(types: Types, fields: seq<Field>)
    requires EarlierFields(fields, |types|)
  {
    forall i :: 0 <= i < |fields| ==> SoundAt(types, fields[i].schema)
  }

  /** A new struct can be laid out exactly when it has a field, its size does not overflow, and the types
      of its fields can be laid out. */
  lemma NewIsSound(types: RegisteredTypes, schema: Schema)
    requires EarlierFields(schema.fields, |types|) && schema.alignment == MaxAlignment(Shapes(types, schema.fields))
    ensures SoundAt(types + [schema], |types|) <==>
      schema.fields != [] && Fits(Shapes(types, schema.fields), 0) && FieldsSound(types, schema.fields)
  {
    var n, fields, longer: Types := |types|, schema.fields, types + [schema];
    NewShapes(types, schema);
    assert longer[n] == schema;
    SoundByFields(longer, n);
    forall i | 0 <= i < |fields| ensures SoundAt(longer, fields[i].schema) <==> SoundAt(types, fields[i].schema) {
      DefineKeepsSoundness(types, schema, fields[i].schema);
    }
    if fields != [] && FieldsSound(types, fields) {
      MaxDominates(Shapes(types, fields), 0);
      SoundHere(types, fields[0].schema);
    }
  }

  /** The same for every accepted definition; all earlier types stay as they were. */
  lemma DefineKeepsSound(types: RegisteredTypes, args: seq<Value>)
    ensures var d := Define(types, args); d.Added? ==>
      (SoundAt(types + [d.schema], |types|) <==>
        (d.schema.fields != [] && Fits(Shapes(types, d.schema.fields), 0) && FieldsSound(types, d.schema.fields)))
      && forall k :: 0 <= k < |types| ==> (SoundAt(types + [d.schema], k) <==> SoundAt(types, k))
  {
    var d := Define(types, args);
    if d.Added? {
      NewIsSound(types, d.schema);
      forall k | 0 <= k < |types| ensures SoundAt(types + [d.schema], k) <==> SoundAt(types, k) {
        DefineKeepsSoundness(types, d.schema, k);
      }
    }
  }

  // ---- Which types are sound ----

  /** No struct without fields in it, at any depth. */
  predicate Inhabited(types: Types, k: nat)
    requires k < |types|
    decreases k
  {
    (types[k].kind == Struct ==> types[k].fields != [])
    && forall i :: 0 <= i < |types[k].fields| ==> Inhabited(types, types[k].fields[i].schema)
  }

  /** No size in it overflows, at any depth. */
  predicate FitsDeep(types: Types, k: nat)
    requires k < |types|
    decreases k
  {
    Fits(ShapesOf(types, k), 0)
    && forall i :: 0 <= i < |types[k].fields| ==> FitsDeep(types, types[k].fields[i].schema)
  }

  /** Whether a type can be laid out shows in its own definition and those of its fields. */
  lemma {:induction false} SoundnessCondition(types: RegisteredTypes, k: nat)
    requires k < |types|
    ensures SoundAt(types, k) <==> Inhabited(types, k) && FitsDeep(types, k)
    decreases k
  {
    assert SchemaOk(types, k);
    var fields, shapes := types[k].fields, ShapesOf(types, k);
    SoundByFields(types, k);
    forall i | 0 <= i < |fields|
      ensures SoundAt(types, fields[i].schema) <==> Inhabited(types, fields[i].schema) && FitsDeep(types, fields[i].schema)
      ensures SoundAt(types, fields[i].schema) ==> shapes[i].alignment != 0
    {
      SoundnessCondition(types, fields[i].schema);
      if SoundAt(types, fields[i].schema) {
        SoundHere(types, fields[i].schema);
      }
    }
    if types[k].kind == Struct && fields != [] {
      MaxDominates(shapes, 0);
    }
  }

  // ---- Every reachable registry ----

  function Number(name: string, size: nat, kind: Kind): Schema {
    Schema(name, size, size, kind, [])
  }

  /** The types the server registers before it starts. */
  function InitialTypes(): Types {
    [ Number("double", 8, Floating), Number("float", 4, Floating),
      Number("int8", 1, Signed), Number("int16", 2, Signed), Number("int32", 4, Signed), Number("int64", 8, Signed),
      Number("uint8", 1, Unsigned), Number("uint16", 2, Unsigned), Number("uint32", 4, Unsigned), Number("uint64", 8, Unsigned) ]
  }

  /** A built-in type of n bytes, aligned to its size. */
  ghost predicate BuiltIn(name: string, n: nat, kind: Kind) {
    var found := Find(InitialTypes(), name);
    found.Some? && InitialTypes()[found.value] == Schema(name, n, n, kind, [])
  }

  /** intN is the signed and uintN the unsigned integer of N bits; float and double take 4 and 8 bytes. */
  lemma BuiltInTypes()
    ensures BuiltIn("int8", 1, Signed) && BuiltIn("int16", 2, Signed) && BuiltIn("int32", 4, Signed) && BuiltIn("int64", 8, Signed)
    ensures BuiltIn("uint8", 1, Unsigned) && BuiltIn("uint16", 2, Unsigned)
    ensures BuiltIn("uint32", 4, Unsigned) && BuiltIn("uint64", 8, Unsigned)
    ensures BuiltIn("float", 4, Floating) && BuiltIn("double", 8, Floating)
    ensures |InitialTypes()| == 10
  {
    DistinctAt(0);
    DistinctAt(1);
    DistinctAt(2);
    DistinctAt(3);
    DistinctAt(4);
    DistinctAt(5);
    DistinctAt(6);
    DistinctAt(7);
    DistinctAt(8);
    DistinctAt(9);
  }

  ghost predicate FoundAt(types: Types, k: nat) {
    k < |types| && Find(types, types[k].name) == Some(k)
  }

  lemma DistinctAt(k: nat)
    requires k < 10
    ensures FoundAt(InitialTypes(), k)
  {
    var types := InitialTypes();
    MarksOfNames();
    forall j | 0 <= j < k ensures types[j].name != types[k].name {
      MarksDiffer(j, k);
    }
  }

  /** Length, first and last character tell the built-in names apart. */
  ghost function Mark(name: string): (nat, char, char) {
    if name == "" then (0, ' ', ' ') else (|name|, name[0], name[|name| - 1])
  }

  ghost function Marks(): seq<(nat, char, char)> {
    [ (6, 'd', 'e'), (5, 'f', 't'),
      (4, 'i', '8'), (5, 'i', '6'), (5, 'i', '2'), (5, 'i', '4'),
      (5, 'u', '8'), (6, 'u', '6'), (6, 'u', '2'), (6, 'u', '4') ]
  }

  lemma MarksOfNames()
    ensures forall k :: 0 <= k < 10 ==> Mark(InitialTypes()[k].name) == Marks()[k]
  {
  }

  lemma MarksDiffer(j: nat, k: nat)
    requires j < k < 10
    ensures Marks()[j] != Marks()[k]
  {
  }

  /** The registry after a sequence of calls of `defstruct`, accepted or not. */
  function AfterCalls(types: Types, calls: seq<seq<Value>>): Types
    decreases |calls|
  {
    if calls == [] then types
    else
      var d := Define(types, calls[0]);
      AfterCalls(if d.Added? then types + [d.schema] else types, calls[1..])
  }

  lemma InitialIsSound()
    ensures Registered(InitialTypes()) && Numeric(InitialTypes())
    ensures forall k :: 0 <= k < |InitialTypes()| ==> SoundAt(InitialTypes(), k)
  {
    var types := InitialTypes();
    forall k | 0 <= k < |types| ensures SchemaOk(types, k) && SoundAt(types, k) {
      assert types[k].fields == [] && ShapesOf(types, k) == [];
      SoundByFields(types, k);
    }
  }

  lemma DefineKeepsNumeric(types: Types, args: seq<Value>)
    requires Numeric(types)
    ensures var d := Define(types, args); d.Added? ==> Numeric(types + [d.schema])
  {
  }

  lemma {:induction false} CallsKeepRegistered(types: Types, calls: seq<seq<Value>>)
    requires Registered(types) && Numeric(types)
    ensures Registered(AfterCalls(types, calls)) && Numeric(AfterCalls(types, calls))
    decreases |calls|
  {
    if calls != [] {
      var d := Define(types, calls[0]);
      if d.Added? {
        DefineKeepsRegistered(types, calls[0]);
        DefineKeepsNumeric(types, calls[0]);
        CallsKeepRegistered(types + [d.schema], calls[1..]);
      } else {
        CallsKeepRegistered(types, calls[1..]);
      }
    }
  }

  /** Later calls leave every type as it is, and as sound as it is. */
  lemma {:induction false} CallsKeepSoundness(types: Types, calls: seq<seq<Value>>, k: nat)
    requires k < |types|
    ensures types <= AfterCalls(types, calls)
    ensures SoundAt(AfterCalls(types, calls), k) <==> SoundAt(types, k)
    decreases |calls|
  {
    if calls != [] {
      var d := Define(types, calls[0]);
      if d.Added? {
        DefineKeepsSoundness(types, d.schema, k);
        CallsKeepSoundness(types + [d.schema], calls[1..], k);
      } else {
        CallsKeepSoundness(types, calls[1..], k);
      }
    }
  }

  /** From the types registered at start-up, any calls of `defstruct` lead to a registry of numeric types
      laid out by the walk; each of its types can be laid out exactly when no struct in it is empty and
      no size in it overflows, whatever other types the registry holds. */
  lemma ReachableRegistries(calls: seq<seq<Value>>)
    ensures var types := AfterCalls(InitialTypes(), calls);
      Registered(types) && Numeric(types)
      && forall k :: 0 <= k < |types| ==> (SoundAt(types, k) <==> Inhabited(types, k) && FitsDeep(types, k))
  {
    InitialIsSound();
    CallsKeepRegistered(InitialTypes(), calls);
    var types := AfterCalls(InitialTypes(), calls);
    forall k | 0 <= k < |types| ensures SoundAt(types, k) <==> Inhabited(types, k) && FitsDeep(types, k) {
      SoundnessCondition(types, k);
    }
  }

  // ---- The two passes ----

  function FieldCount(args: seq<Value>, i: nat): nat
    requires i <= |args|
    decreases |args| - i
  {
    if i == |args| then 0 else (if args[i].FieldVal? then 1 else 0) + FieldCount(args, i + 1)
  }

  function NameBytes(args: seq<Value>, i: nat): nat
    requires i <= |args|
    decreases |args| - i
  {
    if i == |args| then 0 else (if args[i].FieldVal? then |args[i].name| else 0) + NameBytes(args, i + 1)
  }

  /** A field schema whose name is a span of the shared name buffer. */
  datatype Slot = Slot(at: nat, length: nat, schema: nat)

  ghost predicate Stored(slots: seq<Slot>, names: string, done: seq<Field>, used: nat) {
    |done| <= |slots| && used <= |names|
    && forall j :: 0 <= j < |done| ==>
         slots[j].at + slots[j].length <= used
         && names[slots[j].at..slots[j].at + slots[j].length] == done[j].name
         && slots[j].schema == done[j].schema
  }

  lemma StoreOne(slots: seq<Slot>, names: string, names': string, done: seq<Field>, used: nat, field: Field)
    requires Stored(slots, names, done, used) && |done| < |slots| && |names| == |names'|
    requires used + |field.name| <= |names| && names'[..used] == names[..used]
    requires names'[used..used + |field.name|] == field.name
    ensures Stored(slots[|done| := Slot(used, |field.name|, field.schema)], names', done + [field], used + |field.name|)
  {
    forall j | 0 <= j < |done|
      ensures names'[slots[j].at..slots[j].at + slots[j].length] == done[j].name
    {
      var a, b := slots[j].at, slots[j].at + slots[j].length;
      assert names'[a..b] == names'[..used][a..b];
      assert names[a..b] == names[..used][a..b];
    }
  }

  lemma {:induction false} WalkOfPrefix(shapes: seq<Shape>, last: Shape, i: nat)
    requires i <= |shapes|
    ensures Cursor(shapes + [last], 0, i) == Cursor(shapes, 0, i)
    ensures i < |shapes| ==> Address(shapes + [last], 0, i) == Address(shapes, 0, i)
  {
    if i > 0 {
      WalkOfPrefix(shapes, last, i - 1);
    }
    assert i < |shapes| ==> (shapes + [last])[i] == shapes[i];
  }

  /** One field more in the running size and alignment. */
  lemma WalkOneMore(shapes: seq<Shape>, last: Shape)
    ensures Cursor(shapes + [last], 0, |shapes| + 1)
         == OffsetPtr(AlignPtr(Cursor(shapes, 0, |shapes|), last.alignment), last.size)
    ensures MaxAlignment(shapes + [last]) == Max(MaxAlignment(shapes), last.alignment)
  {
    var more := shapes + [last];
    WalkOfPrefix(shapes, last, |shapes|);
    assert more[|shapes|] == last && more[..|shapes|] == shapes;
  }

  /** The running totals of the second pass. */
  ghost predicate Walked(types: Types, done: seq<Field>, totalSize: nat, alignment: nat) {
    EarlierFields(done, |types|)
    && totalSize == Cursor(Shapes(types, done), 0, |done|) && alignment == MaxAlignment(Shapes(types, done))
  }

  lemma WalkedOneMore(types: Types, done: seq<Field>, totalSize: nat, alignment: nat, field: Field)
    requires Walked(types, done, totalSize, alignment) && field.schema < |types|
    ensures var schema := types[field.schema];
      Walked(types, done + [field], OffsetPtr(AlignPtr(totalSize, schema.alignment), schema.size), Max(alignment, schema.alignment))
  {
    var schema := types[field.schema];
    WalkOneMore(Shapes(types, done), Shape(schema.alignment, schema.size));
    assert Shapes(types, done + [field]) == Shapes(types, done) + [Shape(schema.alignment, schema.size)];
  }

  /** One pair of arguments more. */
  lemma ParseOneMore(types: Types, args: seq<Value>, i: nat, done: seq<Field>)
    requires i + 1 < |args| && args[i].FieldVal? && args[i + 1].StrVal? && Find(types, args[i + 1].s).Some?
    ensures var field := Field(args[i].name, Find(types, args[i + 1].s).value);
      Prepend(done, ParseFields(types, args, i)) == Prepend(done + [field], ParseFields(types, args, i + 2))
    ensures FieldCount(args, i) == 1 + FieldCount(args, i + 2)
    ensures NameBytes(args, i) == |args[i].name| + NameBytes(args, i + 2)
  {
    var field := Field(args[i].name, Find(types, args[i + 1].s).value);
    var rest := ParseFields(types, args, i + 2);
    if rest.Fields? {
      assert done + ([field] + rest.fields) == done + [field] + rest.fields;
    }
    assert FieldCount(args, i + 1) == FieldCount(args, i + 2);
    assert NameBytes(args, i + 1) == NameBytes(args, i + 2);
  }

  /** memcpy of a name into the buffer. */
  method CopyName(names: array<char>, used: nat, name: string)
    requires used + |name| <= names.Length
    modifies names
    ensures names[..used] == old(names[..used]) && names[used..used + |name|] == name
  {
    forall j | 0 <= j < |name| {
      names[used + j] := name[j];
    }
  }

  class TypeRegistry {
    var types: Types

    constructor (initial: Types)
      ensures types == initial
    {
      types := initial;
    }

    method DefStruct(args: seq<Value>) returns (error: Option<DefError>)
      modifies this
      ensures var d := Define(old(types), args);
        if d.Added? then error.None? && types == old(types) + [d.schema]
        else error == Some(d.error) && types == old(types)
    {
      if args == [] || !args[0].StrVal? {
        return Some(ExpectedTypeName);
      }
      if Find(types, args[0].s).Some? {
        return Some(AlreadyExists(args[0].s));
      }
      var numFields: nat, fieldsSize: nat := 0, 0;
      var tmp := 1;
      while tmp < |args|
        invariant 1 <= tmp <= |args|
        invariant numFields + FieldCount(args, tmp) == FieldCount(args, 1)
        invariant fieldsSize + NameBytes(args, tmp) == NameBytes(args, 1)
      {
        if args[tmp].FieldVal? {
          numFields := numFields + 1;
          fieldsSize := fieldsSize + |args[tmp].name|;
        }
        tmp := tmp + 1;
      }
      var slots := new Slot[numFields](_ => Slot(0, 0, 0));
      var names := new char[fieldsSize](_ => ' ');
      var totalSize: nat, alignment: nat;
      error, totalSize, alignment := FillFields(args, slots, names);
      if error.None? {
        ghost var fields := ParseFields(types, args, 1).fields;
        totalSize := AlignPtr(totalSize, alignment);
        var stored := Collect(slots[..], names[..], fields);
        types := types + [Schema(args[0].s, alignment, totalSize, Struct, stored)];
      }
    }

    /** The second pass. The storage is never overrun and, on success, exactly filled. */
    method FillFields(args: seq<Value>, slots: array<Slot>, names: array<char>)
      returns (error: Option<DefError>, totalSize: nat, alignment: nat)
      requires args != [] && args[0].StrVal?
      requires slots.Length == FieldCount(args, 1) && names.Length == NameBytes(args, 1)
      modifies slots, names
      ensures var p := ParseFields(types, args, 1);
        if p.Refused? then error == Some(p.error)
        else error.None? && Walked(types, p.fields, totalSize, alignment)
             && |p.fields| == slots.Length && Stored(slots[..], names[..], p.fields, names.Length)
    {
      error, totalSize, alignment := None, 0, 0;
      var i: nat, n: nat, used: nat := 1, 0, 0;
      ghost var done: seq<Field> := [];
      ghost var goal := ParseFields(types, args, 1);
      while i < |args|
        invariant 1 <= i <= |args| && n == |done|
        invariant error.None?
        invariant goal == Prepend(done, ParseFields(types, args, i))
        invariant n + FieldCount(args, i) == slots.Length && used + NameBytes(args, i) == names.Length
        invariant Stored(slots[..], names[..], done, used)
        invariant Walked(types, done, totalSize, alignment)
      {
        var found;
        error, found := FillOne(args, i, slots, n, names, used, done);
        if error.Some? {
          return;
        }
        ghost var field := Field(args[i].name, found);
        WalkedOneMore(types, done, totalSize, alignment, field);
        ParseOneMore(types, args, i, done);
        totalSize := AlignPtr(totalSize, types[found].alignment);
        totalSize := OffsetPtr(totalSize, types[found].size);
        alignment := Max(alignment, types[found].alignment);
        done := done + [field];
        used := used + |args[i].name|;
        n := n + 1;
        i := i + 2;
      }
      assert goal == Fields(done + []) && done + [] == done;
    }

    /** A field name is stored, then its type looked up. */
    method FillOne(args: seq<Value>, i: nat, slots: array<Slot>, n: nat, names: array<char>, used: nat, ghost done: seq<Field>)
      returns (error: Option<DefError>, schema: nat)
      requires i < |args| && n == |done|
      requires n + FieldCount(args, i) == slots.Length && used + NameBytes(args, i) == names.Length
      requires Stored(slots[..], names[..], done, used)
      modifies slots, names
      ensures error.Some? ==> ParseFields(types, args, i) == Refused(error.value)
      ensures error.None? ==>
        i + 1 < |args| && args[i].FieldVal? && args[i + 1].StrVal? && Find(types, args[i + 1].s) == Some(schema)
        && Stored(slots[..], names[..], done + [Field(args[i].name, schema)], used + |args[i].name|)
    {
      schema := 0;
      if !args[i].FieldVal? {
        return Some(ExpectedField(args[i])), schema;
      }
      var name := args[i].name;
      ghost var before := names[..];
      CopyName(names, used, name);
      if i + 1 == |args| {
        return Some(ExpectedFieldType(None)), schema;
      }
      if !args[i + 1].StrVal? {
        return Some(ExpectedFieldType(Some(args[i + 1]))), schema;
      }
      var found := Find(types, args[i + 1].s);
      if found.None? {
        return Some(UnknownType(args[i + 1].s)), schema;
      }
      StoreOne(slots[..], before, names[..], done, used, Field(name, found.value));
      slots[n] := Slot(used, |name|, found.value);
      return None, found.value;
    }

    /** The schema as its users see it: names read through their spans. */
    static method Collect(slots: seq<Slot>, names: string, ghost done: seq<Field>) returns (fields: seq<Field>)
      requires Stored(slots, names, done, |names|) && |done| == |slots|
      ensures fields == done
    {
      fields := seq(|slots|, j requires 0 <= j < |slots| && slots[j].at + slots[j].length <= |names| =>
        Field(names[slots[j].at..slots[j].at + slots[j].length], slots[j].schema));
    }
  }
}
