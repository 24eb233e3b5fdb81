/** Object bytes: storage/object_writer.cc writes fields, json/json_serializer.cc reads them back. */
module Records {
  import opened Common
  import opened Numbers
  import opened Bits
  import opened Layout

  type Byte = b: int | 0 <= b < 256

  /** What a field of n bytes can tell apart. */
  function Modulus(n: nat): (m: nat)
    ensures m > 0
  {
    if n == 0 then 1 else 256 * Modulus(n - 1)
  }

  /** Little-endian image of the low n bytes. */
  function Encode(v: nat, n: nat): (bytes: seq<Byte>)
    ensures |bytes| == n
  {
    if n == 0 then [] else [v % 256] + Encode(v / 256, n - 1)
  }

  function Decode(bytes: seq<Byte>): nat {
    if bytes == [] then 0 else bytes[0] + 256 * Decode(bytes[1..])
  }

  function SignExtend(u: nat, n: nat): int {
    if 2 * u < Modulus(n) then u else u - Modulus(n)
  }

  lemma {:induction false} DecodeEncode(v: nat, n: nat)
    ensures Decode(Encode(v, n)) == v % Modulus(n)
  {
    if n > 0 {
      DecodeEncode(v / 256, n - 1);
      assert Encode(v, n)[1..] == Encode(v / 256, n - 1);
      LowByteAndRest(v, Modulus(n - 1));
    }
  }

  /** The image holds the value's bytes, the lowest first. */
  lemma {:induction false} EncodedBytes(v: nat, n: nat, i: nat)
    requires i < n
    ensures Encode(v, n)[i] == v / Modulus(i) % 256
    decreases n
  {
    if i > 0 {
      EncodedBytes(v / 256, n - 1, i - 1);
      DivideTwice(v, 256, Modulus(i - 1));
    }
  }

  lemma DivideTwice(v: nat, a: nat, b: nat)
    requires a > 0 && b > 0
    ensures v / a / b == v / (a * b)
  {
    var q := v / a;
    assert v == a * q + v % a;
    assert q == b * (q / b) + q % b;
    ByProduct(v, a, b, q, q / b, q % b, v % a);
  }

  lemma ByProduct(v: nat, a: nat, b: nat, q: nat, p: nat, t: nat, r: nat)
    requires q == b * p + t && v == a * q + r && t < b && r < a
    ensures v / (a * b) == p
  {
    Remainder(a, b, t, r);
    Expanded(a, b, p, t, r);
    DivModUnique(v, a * b, p, a * t + r);
  }

  lemma Remainder(a: nat, b: nat, t: nat, r: nat)
    requires t < b && r < a
    ensures a * t + r < a * b
  {
    assert a * t <= a * (b - 1) && a * (b - 1) == a * b - a;
  }

  lemma Expanded(a: nat, b: nat, p: nat, t: nat, r: nat)
    ensures a * (b * p + t) + r == (a * b) * p + (a * t + r)
  {
  }

  lemma LowByteAndRest(v: nat, m: nat)
    requires m > 0
    ensures v % (256 * m) == v % 256 + 256 * (v / 256 % m)
  {
    var h := v / 256;
    var q, r := h / m, h % m;
    assert h == m * q + r;
    assert 256 * (m * q) == (256 * m) * q;
    DivModUnique(v, 256 * m, q, v % 256 + 256 * r);
  }

  // ---- One write ----

  /** The value handed to a writer: the 64 bits of an integer, or of a double with its conversions. */
  datatype Number =
    | Integer(bits: UInt64)
    | Double(asInteger: UInt64)

  /** What the conversions to floating point fields yield, by field width. */
  type FloatImage = (Number, nat) -> UInt64

  datatype WriteResult =
    | Success
    | Failure(message: string)
    | AssertionFailed                  // no integer of that width

  function ValueToUInt64(v: Number): UInt64 {
    match v
    case Integer(bits) => bits
    case Double(asInteger) => asInteger
  }

  function Image(types: Types, f: nat, v: Number, floats: FloatImage): UInt64
    requires f < |types|
  {
    if types[f].kind == Floating then floats(v, types[f].size) else ValueToUInt64(v)
  }

  /** Index of the first field of that name. */
  function FindField(fields: seq<Field>, name: string): (r: Option<nat>)
    ensures r.Some? ==> r.value < |fields| && fields[r.value].name == name
    ensures forall i :: 0 <= i < (if r.Some? then r.value else |fields|) ==> fields[i].name != name
  {
    FirstNamed(fields, (f: Field) => f.name, name)
  }

  function Splice(bytes: seq<Byte>, at: nat, image: seq<Byte>): (r: seq<Byte>)
    requires at + |image| <= |bytes|
    ensures |r| == |bytes|
  {
    bytes[..at] + image + bytes[at + |image|..]
  }

  /** Where field i of a type lies in an object, by the offsets of its definition. */
  function FieldStart(types: Types, k: nat, i: nat): nat
    requires k < |types| && i < |types[k].fields|
  {
    Start(ShapesOf(types, k), i)
  }

  function FieldSize(types: Types, k: nat, i: nat): nat
    requires k < |types| && i < |types[k].fields|
  {
    types[types[k].fields[i].schema].size
  }

  predicate FieldsInside(types: Types, k: nat, length: nat)
    requires k < |types|
  {
    forall i :: 0 <= i < |types[k].fields| ==> FieldStart(types, k, i) + FieldSize(types, k, i) <= length
  }

  function CanWrite(types: Types, f: nat): WriteResult
    requires f < |types|
  {
    if types[f].kind == Struct then Failure("Unsupported type")
    else if types[f].kind != Floating && !IntegerSize(types[f].size) then AssertionFailed
    else Success
  }

  function WriteOutcome(types: Types, k: nat, name: string): WriteResult
    requires k < |types|
  {
    var found := FindField(types[k].fields, name);
    if found.None? then Failure("Field does not exist") else CanWrite(types, types[k].fields[found.value].schema)
  }

  function Written(types: Types, k: nat, bytes: seq<Byte>, name: string, v: Number, floats: FloatImage): (r: seq<Byte>)
    requires k < |types| && FieldsInside(types, k, |bytes|)
    ensures |r| == |bytes|
  {
    var found := FindField(types[k].fields, name);
    if found.None? then bytes
    else
      var f := types[k].fields[found.value].schema;
      if !CanWrite(types, f).Success? then bytes
      else Splice(bytes, FieldStart(types, k, found.value), Encode(Image(types, f, v, floats), types[f].size))
  }

  function FieldBytes(types: Types, k: nat, bytes: seq<Byte>, i: nat): seq<Byte>
    requires k < |types| && FieldsInside(types, k, |bytes|) && i < |types[k].fields|
  {
    bytes[FieldStart(types, k, i)..FieldStart(types, k, i) + FieldSize(types, k, i)]
  }

  lemma SpliceElsewhere(bytes: seq<Byte>, at: nat, image: seq<Byte>, lo: nat, hi: nat)
    requires at + |image| <= |bytes| && lo <= hi <= |bytes| && (hi <= at || at + |image| <= lo)
    ensures Splice(bytes, at, image)[lo..hi] == bytes[lo..hi]
  {
  }

  lemma SpliceHere(bytes: seq<Byte>, at: nat, image: seq<Byte>)
    requires at + |image| <= |bytes|
    ensures Splice(bytes, at, image)[at..at + |image|] == image
  {
  }

  lemma FieldsApart(types: RegisteredTypes, k: nat, i: nat, j: nat)
    requires k < |types| && SoundAt(types, k) && i < |types[k].fields| && j < |types[k].fields| && i != j
    ensures FieldStart(types, k, i) + FieldSize(types, k, i) <= FieldStart(types, k, j)
         || FieldStart(types, k, j) + FieldSize(types, k, j) <= FieldStart(types, k, i)
  {
    ShapesAreSound(types, k);
    if i < j {
      StartsInOrder(ShapesOf(types, k), i, j);
    } else {
      StartsInOrder(ShapesOf(types, k), j, i);
    }
  }

  /** A write changes the bytes of the first field of that name and of no other. */
  lemma WriteIsLocal(types: RegisteredTypes, k: nat, bytes: seq<Byte>, name: string, v: Number, floats: FloatImage, i: nat)
    requires k < |types| && SoundAt(types, k) && FieldsInside(types, k, |bytes|) && i < |types[k].fields|
    ensures var f := types[k].fields[i].schema;
      FieldBytes(types, k, Written(types, k, bytes, name, v, floats), i)
      == if FindField(types[k].fields, name) == Some(i) && CanWrite(types, f).Success?
         then Encode(Image(types, f, v, floats), types[f].size)
         else FieldBytes(types, k, bytes, i)
  {
    var found := FindField(types[k].fields, name);
    if found.Some? && CanWrite(types, types[k].fields[found.value].schema).Success? {
      var j := found.value;
      var f := types[k].fields[j].schema;
      var at, image := FieldStart(types, k, j), Encode(Image(types, f, v, floats), types[f].size);
      if i == j {
        SpliceHere(bytes, at, image);
      } else {
        FieldsApart(types, k, i, j);
        SpliceElsewhere(bytes, at, image, FieldStart(types, k, i), FieldStart(types, k, i) + FieldSize(types, k, i));
      }
    }
  }

  /** Outside the bytes of the field it finds a write changes nothing, and a refused write nothing at all. */
  lemma WriteTouchesNothingElse(types: RegisteredTypes, k: nat, bytes: seq<Byte>, name: string, v: Number, floats: FloatImage, b: nat)
    requires k < |types| && FieldsInside(types, k, |bytes|) && b < |bytes|
    ensures var found := FindField(types[k].fields, name);
      found.None? || b < FieldStart(types, k, found.value)
      || b >= FieldStart(types, k, found.value) + FieldSize(types, k, found.value) || !WriteOutcome(types, k, name).Success?
      ==> Written(types, k, bytes, name, v, floats)[b] == bytes[b]
  {
  }

  /** With numeric types only, a write to a field that exists and is no record always succeeds. */
  lemma NumericCanBeWritten(types: RegisteredTypes, k: nat, name: string)
    requires Numeric(types) && k < |types|
    ensures WriteOutcome(types, k, name).Success? <==>
      exists i :: 0 <= i < |types[k].fields| && FindField(types[k].fields, name) == Some(i)
                  && types[types[k].fields[i].schema].kind != Struct
    ensures !WriteOutcome(types, k, name).AssertionFailed?
  {
    var found := FindField(types[k].fields, name);
    if found.Some? {
      assert SchemaOk(types, types[k].fields[found.value].schema);
    }
  }

  // ---- Any number of writes ----

  datatype Write = Write(name: string, value: Number)

  function AfterWrites(types: Types, k: nat, bytes: seq<Byte>, writes: seq<Write>, floats: FloatImage): (r: seq<Byte>)
    requires k < |types| && FieldsInside(types, k, |bytes|)
    ensures |r| == |bytes|
  {
    if writes == [] then bytes
    else
      var n := |writes| - 1;
      Written(types, k, AfterWrites(types, k, bytes, writes[..n], floats), writes[n].name, writes[n].value, floats)
  }

  function LastWrite(writes: seq<Write>, name: string): Option<Number> {
    if writes == [] then None
    else
      var n := |writes| - 1;
      if writes[n].name == name then Some(writes[n].value) else LastWrite(writes[..n], name)
  }

  predicate IsInteger(s: Schema) {
    s.kind == Signed || s.kind == Unsigned
  }

  /** What the serializer loads from an integer field. */
  function ReadInteger(s: Schema, bytes: seq<Byte>): int {
    if s.kind == Unsigned then Decode(bytes) else SignExtend(Decode(bytes), s.size)
  }

  /** The representative of v modulo 2^(8*size) in the range of the type. */
  function Reduced(s: Schema, v: int): int {
    if s.kind == Unsigned then v % Modulus(s.size) else SignExtend(v % Modulus(s.size), s.size)
  }

  lemma SmallModuli()
    ensures Modulus(1) == 0x100
    ensures Modulus(2) == 0x1_0000
    ensures Modulus(4) == 0x1_0000_0000
  {
  }

  lemma WideModulus(n: nat)
    requires n == 8
    ensures Modulus(n) == TWO_64
  {
    SmallModuli();
    assert Modulus(n - 1) == 256 * Modulus(n - 2);
    assert Modulus(n - 2) == 256 * Modulus(n - 3);
    assert Modulus(n - 3) == 256 * Modulus(n - 4);
  }

  lemma ModulusOf(n: nat)
    requires IntegerSize(n)
    ensures Modulus(n) == if n == 1 then 0x100 else if n == 2 then 0x1_0000 else if n == 4 then 0x1_0000_0000 else TWO_64
  {
    SmallModuli();
    if n == 8 {
      WideModulus(n);
    }
  }

  lemma Residue(v: int, m: int)
    requires m > 0
    ensures (v % m - v) % m == 0 && (v % m - m - v) % m == 0
    ensures 0 <= v < m ==> v % m == v
    ensures -m <= v < 0 ==> v % m == v + m
  {
    var q := v / m;
    assert v == m * q + v % m;
    assert m * -q == -(m * q) && m * (-q - 1) == -(m * q) - m;
    DivModUnique(v % m - v, m, -q, 0);
    DivModUnique(v % m - m - v, m, -q - 1, 0);
    if 0 <= v < m {
      DivModUnique(v, m, 0, v);
    } else if -m <= v < 0 {
      DivModUnique(v, m, -1, v + m);
    }
  }

  predicate InRange(s: Schema, v: int) {
    var m: int := Modulus(s.size);
    if s.kind == Unsigned then 0 <= v < m else -m <= 2 * v < m
  }

  predicate Congruent(a: int, b: int, m: nat)
    requires m > 0
  {
    (a - b) % m == 0
  }

  /** The reduced value is in range, congruent to the original, and equal to it when that fits. */
  lemma ReducedIsRepresentative(s: Schema, v: int)
    requires IsInteger(s)
    ensures InRange(s, Reduced(s, v)) && Congruent(Reduced(s, v), v, Modulus(s.size))
    ensures InRange(s, v) ==> Reduced(s, v) == v
  {
    Residue(v, Modulus(s.size));
  }

  /** Going through 64 bits first loses nothing. */
  lemma ReducedThroughWord(s: Schema, v: int)
    requires IsInteger(s) && IntegerSize(s.size)
    ensures Reduced(s, ToUInt64(v)) == Reduced(s, v)
  {
    var m, t := Modulus(s.size), TWO_64 / Modulus(s.size);
    ModulusOf(s.size);
    ThroughMultiple(v, m, t);
  }

  /** Every integer field reads back the last value written to it, reduced to its type;
      bytes of all other fields, and of fields never written, are as they were. */
  lemma {:induction false} ReadsLastWrite(types: RegisteredTypes, k: nat, bytes: seq<Byte>, writes: seq<Write>,
                                          floats: FloatImage, i: nat)
    requires k < |types| && SoundAt(types, k) && FieldsInside(types, k, |bytes|) && i < |types[k].fields|
    ensures var field := types[k].fields[i]; var s := types[field.schema];
      var last := LastWrite(writes, field.name);
      var image := FieldBytes(types, k, AfterWrites(types, k, bytes, writes, floats), i);
      if last.None? || FindField(types[k].fields, field.name) != Some(i) then image == FieldBytes(types, k, bytes, i)
      else IsInteger(s) ==> ReadInteger(s, image) == Reduced(s, ValueToUInt64(last.value))
  {
    if writes != [] {
      var n := |writes| - 1;
      ReadsLastWrite(types, k, bytes, writes[..n], floats, i);
      var field := types[k].fields[i];
      var s := types[field.schema];
      var before := AfterWrites(types, k, bytes, writes[..n], floats);
      WriteIsLocal(types, k, before, writes[n].name, writes[n].value, floats, i);
      if writes[n].name == field.name && IsInteger(s) {
        assert SchemaOk(types, field.schema);
        DecodeEncode(ValueToUInt64(writes[n].value), s.size);
      }
    }
  }

  /** A 64-bit integer written last reads back as its representative in the field's type,
      and as itself when the type can hold it. */
  lemma WrittenIntegerReadsBack(types: RegisteredTypes, k: nat, bytes: seq<Byte>, writes: seq<Write>,
                                floats: FloatImage, i: nat, v: int)
    requires k < |types| && SoundAt(types, k) && FieldsInside(types, k, |bytes|) && i < |types[k].fields|
    requires IsInteger(types[types[k].fields[i].schema])
    requires FindField(types[k].fields, types[k].fields[i].name) == Some(i)
    requires LastWrite(writes, types[k].fields[i].name) == Some(Integer(ToUInt64(v)))
    ensures var s := types[types[k].fields[i].schema];
      var read := ReadInteger(s, FieldBytes(types, k, AfterWrites(types, k, bytes, writes, floats), i));
      read == Reduced(s, v) && InRange(s, read) && Congruent(read, v, Modulus(s.size)) && (InRange(s, v) ==> read == v)
  {
    var s := types[types[k].fields[i].schema];
    assert SchemaOk(types, types[k].fields[i].schema);
    ReadsLastWrite(types, k, bytes, writes, floats, i);
    ReducedThroughWord(s, v);
    ReducedIsRepresentative(s, v);
  }

  // ---- The writer ----

  /** storage/object.h: a buffer of 256 bytes at an address aligned to 128. */
  class Object {
    const address: nat
    const buf: array<Byte>

    ghost predicate Valid() {
      buf.Length == 256 && address > 0 && address % 128 == 0 && address + 512 <= TWO_64
    }

    constructor (at: nat)
      requires at > 0 && at % 128 == 0 && at + 512 <= TWO_64
      ensures Valid() && address == at && fresh(buf)
    {
      address := at;
      buf := new Byte[256](_ => 0);
    }
  }

  /** The buffer's own alignment suits every type. */
  lemma BufferSuitsType(types: RegisteredTypes, k: nat, address: nat)
    requires k < |types| && SoundAt(types, k) && types[k].size <= 256 && address % 128 == 0 && address + 512 <= TWO_64
    ensures PlacedAt(types, k, address)
  {
    SoundHere(types, k);
    AlignmentAtMost8(types, k);
    PowersUpTo128();
    SmallerDivides(types[k].alignment, 128);
    DividesThrough(address, types[k].alignment, 128);
    AlignedBase(types, k, address);
  }

  lemma PowersUpTo128()
    ensures IsPow2(128)
  {
    assert Pow2(3) == 8;
    assert Pow2(7) == 128;
  }

  lemma StructFieldsInside(types: RegisteredTypes, k: nat, length: nat)
    requires k < |types| && SoundAt(types, k) && types[k].size <= length
    ensures FieldsInside(types, k, length)
  {
    assert SchemaOk(types, k);
    forall i | 0 <= i < |types[k].fields|
      ensures FieldStart(types, k, i) + FieldSize(types, k, i) <= length
    {
      ShapesAreSound(types, k);
      EndsInside(ShapesOf(types, k), i);
    }
  }

  /** The walk meets each field where the definition put it. */
  lemma FieldAddress(types: RegisteredTypes, k: nat, address: nat, i: nat)
    requires k < |types| && SoundAt(types, k) && types[k].size <= 256 && address % 128 == 0 && address + 512 <= TWO_64
    requires i < |types[k].fields|
    ensures Address(ShapesOf(types, k), address, i) == address + FieldStart(types, k, i)
  {
    assert SchemaOk(types, k);
    assert PlacedAt(types, k, address) by { BufferSuitsType(types, k, address); }
    PlacedFits(types, k, address);
    AddressShift(ShapesOf(types, k), address, i);
  }

  class ObjectWriter {
    const types: RegisteredTypes
    const schema: nat
    const target: Object
    const floats: FloatImage

    ghost predicate Valid() {
      target.Valid() && schema < |types| && SoundAt(types, schema) && types[schema].size <= target.buf.Length
    }

    constructor (types: RegisteredTypes, schema: nat, target: Object, floats: FloatImage)
      requires target.Valid() && schema < |types| && SoundAt(types, schema) && types[schema].size <= target.buf.Length
      ensures Valid() && this.types == types && this.schema == schema && this.target == target && this.floats == floats
    {
      this.types := types;
      this.schema := schema;
      this.target := target;
      this.floats := floats;
    }

    /** The address found by aligning as it walks is the offset of the definition. */
    method FindDataStore(name: string) returns (ptr: nat, found: Option<nat>)
      requires Valid()
      ensures var i := FindField(types[schema].fields, name);
        if i.None? then ptr == 0 && found.None?
        else ptr == target.address + FieldStart(types, schema, i.value)
             && found == Some(types[schema].fields[i.value].schema)
    {
      ghost var shapes := ShapesOf(types, schema);
      var fields := types[schema].fields;
      var cur, i := target.address, 0;
      while i < |fields|
        invariant 0 <= i <= |fields|
        invariant cur == Cursor(shapes, target.address, i)
        invariant forall j :: 0 <= j < i ==> fields[j].name != name
      {
        cur := AlignPtr(cur, types[fields[i].schema].alignment);
        if fields[i].name == name {
          FieldAddress(types, schema, target.address, i);
          return cur, Some(fields[i].schema);
        }
        cur := OffsetPtr(cur, types[fields[i].schema].size);
        i := i + 1;
      }
      return 0, None;
    }

    method WriteTyped(name: string, value: Number) returns (r: WriteResult)
      requires Valid()
      modifies target.buf
      ensures FieldsInside(types, schema, target.buf.Length)
      ensures r == WriteOutcome(types, schema, name)
      ensures target.buf[..] == Written(types, schema, old(target.buf[..]), name, value, floats)
    {
      StructFieldsInside(types, schema, target.buf.Length);
      var ptr, found := FindDataStore(name);
      if ptr == 0 {
        return Failure("Field does not exist");
      }
      var f := found.value;
      if types[f].kind == Struct {
        return Failure("Unsupported type");
      }
      if types[f].kind != Floating && !IntegerSize(types[f].size) {
        return AssertionFailed;
      }
      var at := ptr - target.address;
      var image := Encode(Image(types, f, value, floats), types[f].size);
      var buf := target.buf;
      forall j | 0 <= j < |image| {
        buf[at + j] := image[j];
      }
      assert buf[..] == Splice(old(target.buf[..]), at, image);
      return Success;
    }
  }
}
