/** json/json_serializer.cc: records as JSON text. */
module Json {
  import opened Common
  import opened Numbers
  import opened Bits
  import opened Layout
  import opened Records

  /** How a floating point field of these bytes is printed. */
  type FloatText = seq<Byte> -> string

  /** Records the serializer can print: no strings and no frame barriers at any depth. */
  predicate Printable(types: RegisteredTypes, k: nat)
    requires k < |types|
    decreases k
  {
    types[k].kind != Plain
    && forall i :: 0 <= i < |types[k].fields| ==> Printable(types, types[k].fields[i].schema)
  }

  function BasicText(s: Schema, bytes: seq<Byte>, floats: FloatText): string {
    if s.kind == Floating then floats(bytes) else IntText(ReadInteger(s, bytes))
  }

  /** An object as text, its fields read at the offsets of their definitions. */
  function Render(types: RegisteredTypes, k: nat, bytes: seq<Byte>, at: nat, floats: FloatText): string
    requires k < |types| && Printable(types, k) && SoundAt(types, k) && at + types[k].size <= |bytes|
    decreases k, 1, 0
  {
    if types[k].kind != Struct then BasicText(types[k], bytes[at..at + types[k].size], floats)
    else "{" + RenderFields(types, k, bytes, at, floats, 0) + "}"
  }

  function RenderFields(types: RegisteredTypes, k: nat, bytes: seq<Byte>, at: nat, floats: FloatText, i: nat): string
    requires k < |types| && Printable(types, k) && SoundAt(types, k) && at + types[k].size <= |bytes| && i <= |types[k].fields|
    decreases k, 0, |types[k].fields| - i
  {
    var fields := types[k].fields;
    if i == |fields| then ""
    else FieldText(types, k, bytes, at, floats, i) + RenderFields(types, k, bytes, at, floats, i + 1)
  }

  function FieldText(types: RegisteredTypes, k: nat, bytes: seq<Byte>, at: nat, floats: FloatText, i: nat): string
    requires k < |types| && Printable(types, k) && SoundAt(types, k) && at + types[k].size <= |bytes| && i < |types[k].fields|
    decreases k, 0, 0
  {
    var fields := types[k].fields;
    StructFieldsInside(types, k, types[k].size);
    SoundField(types, k, i);
    Label(fields[i].name)
    + Render(types, fields[i].schema, bytes, at + FieldStart(types, k, i), floats)
    + Separator(i, |fields|)
  }

  function Label(name: string): string {
    "\"" + name + "\":"
  }

  /** Between fields, not after the last. */
  function Separator(i: nat, n: nat): string {
    if i + 1 == n then "" else ", "
  }

  /** What is written is what is printed: the last value given to an integer field, reduced to its type. */
  lemma PrintsLastWrite(types: RegisteredTypes, k: nat, bytes: seq<Byte>, writes: seq<Write>,
                        images: FloatImage, floats: FloatText, i: nat)
    requires k < |types| && Printable(types, k) && SoundAt(types, k) && types[k].size <= |bytes| && i < |types[k].fields|
    requires FieldsInside(types, k, |bytes|)
    requires IsInteger(types[types[k].fields[i].schema])
    requires FindField(types[k].fields, types[k].fields[i].name) == Some(i)
    requires LastWrite(writes, types[k].fields[i].name).Some?
    ensures var field := types[k].fields[i];
      var value := Reduced(types[field.schema], ValueToUInt64(LastWrite(writes, field.name).value));
      FieldText(types, k, AfterWrites(types, k, bytes, writes, images), 0, floats, i)
      == "\"" + field.name + "\":" + IntText(value) + (if i + 1 == |types[k].fields| then "" else ", ")
  {
    ReadsLastWrite(types, k, bytes, writes, images, i);
    IntegerFieldText(types, k, AfterWrites(types, k, bytes, writes, images), floats, i);
  }

  lemma IntegerFieldText(types: RegisteredTypes, k: nat, bytes: seq<Byte>, floats: FloatText, i: nat)
    requires k < |types| && Printable(types, k) && SoundAt(types, k) && types[k].size <= |bytes| && i < |types[k].fields|
    requires FieldsInside(types, k, |bytes|) && IsInteger(types[types[k].fields[i].schema])
    ensures var field := types[k].fields[i];
      FieldText(types, k, bytes, 0, floats, i)
      == Label(field.name) + IntText(ReadInteger(types[field.schema], FieldBytes(types, k, bytes, i))) + Separator(i, |types[k].fields|)
  {
  }

  /** Every record of a registry of numeric types can be printed. */
  lemma {:induction false} NumericIsPrintable(types: RegisteredTypes, k: nat)
    requires Numeric(types) && k < |types|
    ensures Printable(types, k)
    decreases k
  {
    forall i | 0 <= i < |types[k].fields| ensures Printable(types, types[k].fields[i].schema) {
      NumericIsPrintable(types, types[k].fields[i].schema);
    }
  }

  lemma {:induction false} DecodeBound(bytes: seq<Byte>)
    ensures Decode(bytes) < Modulus(|bytes|)
  {
    if bytes != [] {
      DecodeBound(bytes[1..]);
    }
  }

  /** Loaded integers fit the 64-bit value they are printed from. */
  lemma LoadedFits(s: Schema, bytes: seq<Byte>)
    requires IsInteger(s) && IntegerSize(s.size) && |bytes| == s.size
    ensures InRange(s, ReadInteger(s, bytes))
    ensures s.kind == Unsigned ==> 0 <= ReadInteger(s, bytes) < TWO_64
    ensures s.kind == Signed ==> -TWO_63 <= ReadInteger(s, bytes) < TWO_63
  {
    DecodeBound(bytes);
    ModulusOf(s.size);
  }

  /** A properly aligned object of the type lies at this address of the buffer. */
  ghost predicate InObject(target: Object, ptr: nat, types: RegisteredTypes, k: nat)
    requires k < |types|
  {
    PlacedAt(types, k, ptr) && target.address <= ptr && ptr + types[k].size <= target.address + target.buf.Length
  }

  lemma FieldInObject(target: Object, ptr: nat, types: RegisteredTypes, k: nat, i: nat)
    requires k < |types| && types[k].kind == Struct && i < |types[k].fields| && InObject(target, ptr, types, k)
    ensures var f := types[k].fields[i].schema; var field := Address(ShapesOf(types, k), ptr, i);
      f < k && InObject(target, field, types, f) && field == ptr + FieldStart(types, k, i)
  {
    FieldPlaced(types, k, ptr, i);
    ShapesAreSound(types, k);
    EndsInside(ShapesOf(types, k), i);
  }

  lemma Regroup(a: string, b: string, c: string)
    ensures a + (b + c) == (a + b) + c
  {
  }

  lemma RegroupThree(a: string, b: string, c: string, d: string)
    ensures a + (b + c + d) == a + b + c + d
    ensures d == "" ==> a + (b + c + d) == a + b + c
  {
  }

  /** The text of the first i fields. */
  ghost function RenderedUpTo(types: RegisteredTypes, k: nat, bytes: seq<Byte>, at: nat, floats: FloatText, i: nat): string
    requires k < |types| && Printable(types, k) && SoundAt(types, k) && at + types[k].size <= |bytes| && i <= |types[k].fields|
  {
    if i == 0 then "" else RenderedUpTo(types, k, bytes, at, floats, i - 1) + FieldText(types, k, bytes, at, floats, i - 1)
  }

  lemma UpToNext(types: RegisteredTypes, k: nat, bytes: seq<Byte>, at: nat, floats: FloatText, i: nat, start: string)
    requires k < |types| && Printable(types, k) && SoundAt(types, k) && at + types[k].size <= |bytes| && i < |types[k].fields|
    ensures start + RenderedUpTo(types, k, bytes, at, floats, i + 1)
         == start + RenderedUpTo(types, k, bytes, at, floats, i) + FieldText(types, k, bytes, at, floats, i)
  {
    Regroup(start, RenderedUpTo(types, k, bytes, at, floats, i), FieldText(types, k, bytes, at, floats, i));
  }

  lemma {:induction false} RenderedFromBothEnds(types: RegisteredTypes, k: nat, bytes: seq<Byte>, at: nat, floats: FloatText, i: nat)
    requires k < |types| && Printable(types, k) && SoundAt(types, k) && at + types[k].size <= |bytes| && i <= |types[k].fields|
    ensures RenderedUpTo(types, k, bytes, at, floats, i) + RenderFields(types, k, bytes, at, floats, i)
         == RenderFields(types, k, bytes, at, floats, 0)
  {
    if i > 0 {
      RenderedFromBothEnds(types, k, bytes, at, floats, i - 1);
      Regroup(RenderedUpTo(types, k, bytes, at, floats, i - 1), FieldText(types, k, bytes, at, floats, i - 1),
              RenderFields(types, k, bytes, at, floats, i));
    }
  }

  lemma AllFields(types: RegisteredTypes, k: nat, bytes: seq<Byte>, at: nat, floats: FloatText)
    requires k < |types| && Printable(types, k) && SoundAt(types, k) && at + types[k].size <= |bytes|
    ensures RenderedUpTo(types, k, bytes, at, floats, |types[k].fields|) == RenderFields(types, k, bytes, at, floats, 0)
  {
    RenderedFromBothEnds(types, k, bytes, at, floats, |types[k].fields|);
  }

  // ---- The text of a whole record ----

  /** Texts with a comma and a space between each two. */
  ghost function Listed(parts: seq<string>): string {
    if parts == [] then ""
    else
      var n := |parts| - 1;
      if n == 0 then parts[0] else Listed(parts[..n]) + ", " + parts[n]
  }

  /** The first i texts, one behind the other. */
  ghost function Glued(texts: seq<string>, i: nat): string
    requires i <= |texts|
  {
    if i == 0 then "" else Glued(texts, i - 1) + texts[i - 1]
  }

  lemma {:induction false} UpToIsGlued(types: RegisteredTypes, k: nat, bytes: seq<Byte>, at: nat, floats: FloatText,
                                       texts: seq<string>, i: nat)
    requires k < |types| && Printable(types, k) && SoundAt(types, k) && at + types[k].size <= |bytes|
    requires |texts| == |types[k].fields| && i <= |texts|
    requires forall j :: 0 <= j < |texts| ==> texts[j] == FieldText(types, k, bytes, at, floats, j)
    ensures RenderedUpTo(types, k, bytes, at, floats, i) == Glued(texts, i)
    decreases i
  {
    if i > 0 {
      UpToIsGlued(types, k, bytes, at, floats, texts, i - 1);
    }
  }

  lemma {:induction false} GluedIsListed(texts: seq<string>, parts: seq<string>, i: nat)
    requires |texts| == |parts| && i <= |parts|
    requires forall j :: 0 <= j < |parts| ==> texts[j] == parts[j] + (if j + 1 == |parts| then "" else ", ")
    ensures Glued(texts, i) == Listed(parts[..i]) + (if i == 0 || i == |parts| then "" else ", ")
    decreases i
  {
    if i == 0 {
      assert Listed(parts[..0]) == "";
    } else {
      GluedIsListed(texts, parts, i - 1);
      OneMoreListed(parts, i, Glued(texts, i - 1), texts[i - 1]);
    }
  }

  lemma OneMoreListed(parts: seq<string>, i: nat, before: string, piece: string)
    requires 0 < i <= |parts|
    requires before == Listed(parts[..i - 1]) + (if i == 1 then "" else ", ")
    requires piece == parts[i - 1] + (if i == |parts| then "" else ", ")
    ensures before + piece == Listed(parts[..i]) + (if i == |parts| then "" else ", ")
  {
    assert parts[..i][..i - 1] == parts[..i - 1] && parts[..i][i - 1] == parts[i - 1];
    assert Listed(parts[..i]) == (if i == 1 then parts[0] else Listed(parts[..i - 1]) + ", " + parts[i - 1]);
    assert i == 1 ==> Listed(parts[..0]) == "";
    assert before + parts[i - 1] == Listed(parts[..i]);
    Regroup(before, parts[i - 1], if i == |parts| then "" else ", ");
  }

  /** A record prints as its fields in order, each with its quoted name and a colon, in braces and with commas
      between. */
  lemma RecordText(types: RegisteredTypes, k: nat, bytes: seq<Byte>, at: nat, floats: FloatText, parts: seq<string>)
    requires k < |types| && Printable(types, k) && SoundAt(types, k) && at + types[k].size <= |bytes|
    requires types[k].kind == Struct && |parts| == |types[k].fields|
    requires forall i :: 0 <= i < |parts| ==>
               FieldText(types, k, bytes, at, floats, i) == parts[i] + (if i + 1 == |parts| then "" else ", ")
    ensures Render(types, k, bytes, at, floats) == "{" + Listed(parts) + "}"
  {
    var texts := FieldTexts(types, k, bytes, at, floats);
    GluedIsListed(texts, parts, |parts|);
    assert parts[..|parts|] == parts;
  }

  lemma FieldTexts(types: RegisteredTypes, k: nat, bytes: seq<Byte>, at: nat, floats: FloatText) returns (texts: seq<string>)
    requires k < |types| && Printable(types, k) && SoundAt(types, k) && at + types[k].size <= |bytes|
    ensures |texts| == |types[k].fields| && forall i :: 0 <= i < |texts| ==> texts[i] == FieldText(types, k, bytes, at, floats, i)
    ensures RenderFields(types, k, bytes, at, floats, 0) == Glued(texts, |texts|)
  {
    texts := seq(|types[k].fields|, i requires 0 <= i < |types[k].fields| => FieldText(types, k, bytes, at, floats, i));
    UpToIsGlued(types, k, bytes, at, floats, texts, |texts|);
    AllFields(types, k, bytes, at, floats);
  }

  /** A record of integers, each written at least once, prints the last value of every field, reduced to the
      field's type. */
  lemma PrintsAllLastWrites(types: RegisteredTypes, k: nat, bytes: seq<Byte>, writes: seq<Write>,
                            images: FloatImage, floats: FloatText, parts: seq<string>)
    requires k < |types| && Printable(types, k) && SoundAt(types, k) && types[k].size <= |bytes|
    requires types[k].kind == Struct && FieldsInside(types, k, |bytes|) && |parts| == |types[k].fields|
    requires forall i :: 0 <= i < |parts| ==> var field := types[k].fields[i];
      IsInteger(types[field.schema]) && FindField(types[k].fields, field.name) == Some(i) && LastWrite(writes, field.name).Some?
      && parts[i] == "\"" + field.name + "\":" + IntText(Reduced(types[field.schema], ValueToUInt64(LastWrite(writes, field.name).value)))
    ensures Render(types, k, AfterWrites(types, k, bytes, writes, images), 0, floats) == "{" + Listed(parts) + "}"
  {
    var after := AfterWrites(types, k, bytes, writes, images);
    forall i | 0 <= i < |parts|
      ensures FieldText(types, k, after, 0, floats, i) == parts[i] + (if i + 1 == |parts| then "" else ", ")
    {
      PrintsLastWrite(types, k, bytes, writes, images, floats, i);
    }
    RecordText(types, k, after, 0, floats, parts);
  }

  class JsonSerializer {
    /** Everything handed to the stream writer so far. */
    var out: string
    const floats: FloatText

    constructor (floats: FloatText)
      ensures out == "" && this.floats == floats
    {
      this.floats := floats;
      out := "";
    }

    method WriteBasicValue(s: Schema, bytes: seq<Byte>)
      requires s.kind == Floating || (IsInteger(s) && IntegerSize(s.size) && |bytes| == s.size)
      modifies this
      ensures out == old(out) + BasicText(s, bytes, floats)
    {
      if s.kind == Floating {
        out := out + floats(bytes);
        return;
      }
      LoadedFits(s, bytes);
      var builder := new char[128](_ => ' ');
      var n;
      if s.kind == Unsigned {
        n := UIntToStr(ReadInteger(s, bytes), builder, 0);
      } else {
        n := IntToStr(ReadInteger(s, bytes), builder, 0);
      }
      out := out + builder[0..n];
    }

    /** The choice that both Serialize and the field loop make. */
    method WriteValue(target: Object, ptr: nat, types: RegisteredTypes, k: nat)
      requires target.Valid() && k < |types| && Printable(types, k) && InObject(target, ptr, types, k)
      modifies this
      ensures out == old(out) + Render(types, k, target.buf[..], ptr - target.address, floats)
      decreases k, 4
    {
      if types[k].kind == Struct {
        WriteObject(target, ptr, types, k);
      } else {
        assert SchemaOk(types, k);
        var at := ptr - target.address;
        WriteBasicValue(types[k], target.buf[at..at + types[k].size]);
        assert target.buf[at..at + types[k].size] == target.buf[..][at..at + types[k].size];
      }
    }

    /** One turn of the field loop: the pointer is aligned, then moved past the field. */
    method WriteField(target: Object, ptr: nat, types: RegisteredTypes, k: nat, i: nat, cur: nat) returns (next: nat)
      requires target.Valid() && k < |types| && types[k].kind == Struct && i < |types[k].fields|
      requires Printable(types, k) && InObject(target, ptr, types, k)
      requires cur == Cursor(ShapesOf(types, k), ptr, i)
      modifies this
      ensures next == Cursor(ShapesOf(types, k), ptr, i + 1)
      ensures out == old(out) + FieldText(types, k, target.buf[..], ptr - target.address, floats, i)
      decreases k, 0
    {
      var fields := types[k].fields;
      var f := fields[i].schema;
      out := out + ("\"" + fields[i].name + "\":");
      var value := AlignPtr(cur, types[f].alignment);
      FieldInObject(target, ptr, types, k, i);
      ghost var text := Render(types, f, target.buf[..], value - target.address, floats);
      WriteValue(target, value, types, f);
      next := OffsetPtr(value, types[f].size);
      if i + 1 != |fields| {
        out := out + ", ";
      }
      RegroupThree(old(out), Label(fields[i].name), text, Separator(i, |fields|));
    }

    /** The same turn, seen from the text before the first field. */
    method NextField(target: Object, ptr: nat, types: RegisteredTypes, k: nat, i: nat, cur: nat, ghost start: string)
        returns (next: nat)
      requires target.Valid() && k < |types| && types[k].kind == Struct && i < |types[k].fields|
      requires Printable(types, k) && InObject(target, ptr, types, k)
      requires cur == Cursor(ShapesOf(types, k), ptr, i)
      requires out == start + RenderedUpTo(types, k, target.buf[..], ptr - target.address, floats, i)
      modifies this
      ensures next == Cursor(ShapesOf(types, k), ptr, i + 1)
      ensures out == start + RenderedUpTo(types, k, target.buf[..], ptr - target.address, floats, i + 1)
      decreases k, 1
    {
      UpToNext(types, k, target.buf[..], ptr - target.address, floats, i, start);
      next := WriteField(target, ptr, types, k, i, cur);
    }

    /** The field loop. */
    method WriteFields(target: Object, ptr: nat, types: RegisteredTypes, k: nat)
      requires target.Valid() && k < |types| && types[k].kind == Struct
      requires Printable(types, k) && InObject(target, ptr, types, k)
      modifies this
      ensures out == old(out) + RenderFields(types, k, target.buf[..], ptr - target.address, floats, 0)
      decreases k, 2
    {
      ghost var bytes, at, n := target.buf[..], ptr - target.address, |types[k].fields|;
      AllFields(types, k, bytes, at, floats);
      var cur := ptr;
      var i := 0;
      while i < |types[k].fields|
        invariant 0 <= i <= n
        invariant cur == Cursor(ShapesOf(types, k), ptr, i)
        invariant target.buf[..] == bytes && out == old(out) + RenderedUpTo(types, k, bytes, at, floats, i)
      {
        cur := NextField(target, ptr, types, k, i, cur, old(out));
        i := i + 1;
      }
      assert i == n;
    }

    /** The pointer aligned field by field reads what the definition's offsets name, and the
        recursion ends because fields refer to earlier types. */
    method WriteObject(target: Object, ptr: nat, types: RegisteredTypes, k: nat)
      requires target.Valid() && k < |types| && types[k].kind == Struct
      requires Printable(types, k) && InObject(target, ptr, types, k)
      modifies this
      ensures out == old(out) + Render(types, k, target.buf[..], ptr - target.address, floats)
      decreases k, 3
    {
      assert IsAligned(ptr, types[k].alignment);
      out := out + "{";
      WriteFields(target, ptr, types, k);
      out := out + "}";
      ghost var text := RenderFields(types, k, target.buf[..], ptr - target.address, floats, 0);
      Regroup(old(out), "{", text);
      Regroup(old(out), "{" + text, "}");
    }
  }
}
