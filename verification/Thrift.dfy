/** The Thrift binary protocol (chosen at numerator.cpp:303) on bytes: the values a
    peer may send, how the library reads the pieces, and how it skips a value. */
module Thrift {
  import opened Bytes

  const T_STOP: Byte := 0
  const T_BOOL: Byte := 2
  const T_BYTE: Byte := 3
  const T_DOUBLE: Byte := 4
  const T_I16: Byte := 6
  const T_I32: Byte := 8
  const T_I64: Byte := 10
  const T_STRING: Byte := 11
  const T_STRUCT: Byte := 12
  const T_MAP: Byte := 13
  const T_SET: Byte := 14
  const T_LIST: Byte := 15

  // ---- values and their encoding ----

  datatype Kind = KBool | KByte | KI16 | KDouble

  datatype TValue =
    | I32(i: Int32)
    | I64(n: NumID)
    | Text(s: Str)
    | Fixed(kind: Kind, bytes: seq<Byte>)
    | Elems(isSet: bool, et: Byte, elems: seq<TValue>)
      /** Keys and values alternate. */
    | Map(kt: Byte, vt: Byte, entries: seq<TValue>)
    | Struct(fields: seq<Field>)

  datatype Field = Field(id: int, value: TValue)

  function KindCode(k: Kind): Byte {
    match k case KBool => T_BOOL case KByte => T_BYTE case KI16 => T_I16 case KDouble => T_DOUBLE
  }

  function KindWidth(k: Kind): nat {
    match k case KBool => 1 case KByte => 1 case KI16 => 2 case KDouble => 8
  }

  function TypeOf(v: TValue): Byte {
    match v
    case I32(_) => T_I32
    case I64(_) => T_I64
    case Text(_) => T_STRING
    case Fixed(k, _) => KindCode(k)
    case Elems(isSet, _, _) => if isSet then T_SET else T_LIST
    case Map(_, _, _) => T_MAP
    case Struct(_) => T_STRUCT
  }

  /** The declared type of the i-th of a map's alternating keys and values. */
  function EntryType(kt: Byte, vt: Byte, i: nat): Byte {
    if i % 2 == 0 then kt else vt
  }

  /** Sizes fit their 32-bit fields, elements have the declared types. */
  predicate WellFormed(v: TValue) {
    match v
    case I32(_) => true
    case I64(_) => true
    case Text(s) => |s| <= MAX_32
    case Fixed(k, bytes) => |bytes| == KindWidth(k)
    case Elems(_, et, elems) =>
      |elems| <= MAX_32 && forall e | e in elems :: TypeOf(e) == et && WellFormed(e)
    case Map(kt, vt, entries) =>
      && |entries| % 2 == 0 && |entries| / 2 <= MAX_32
      && (forall i | 0 <= i < |entries| :: TypeOf(entries[i]) == EntryType(kt, vt, i))
      && (forall e | e in entries :: WellFormed(e))
    case Struct(fields) => forall f | f in fields :: WellFormedField(f)
  }

  predicate WellFormedField(f: Field) {
    -0x8000 <= f.id < 0x8000 && WellFormed(f.value)
  }

  function PutInt(n: nat, v: int): (b: seq<Byte>)
    requires FitsSigned(n, v)
    ensures |b| == n
  {
    ToBe(n, Unsigned(n, v))
  }

  function Put32(v: int): (b: seq<Byte>)
    requires -0x8000_0000 <= v <= MAX_32
    ensures |b| == 4
  {
    assert Pow256(4) == TWO_32;
    PutInt(4, v)
  }

  function Put64(v: NumID): (b: seq<Byte>)
    ensures |b| == 8
  {
    IdFits(v);
    PutInt(8, v)
  }

  function Put16(v: int): (b: seq<Byte>)
    requires -0x8000 <= v < 0x8000
    ensures |b| == 2
  {
    assert Pow256(2) == 0x1_0000;
    PutInt(2, v)
  }

  function Encode(v: TValue): (b: seq<Byte>)
    requires WellFormed(v)
    decreases v, 1
  {
    match v
    case I32(i) => Put32(i)
    case I64(n) => Put64(n)
    case Text(s) => Put32(|s|) + s
    case Fixed(_, bytes) => bytes
    case Elems(_, et, elems) => [et] + Put32(|elems|) + EncodeAll(elems)
    case Map(kt, vt, entries) => [kt, vt] + Put32(|entries| / 2) + EncodeAll(entries)
    case Struct(fields) => EncodeFields(fields)
  }

  function EncodeAll(vs: seq<TValue>): seq<Byte>
    requires forall v | v in vs :: WellFormed(v)
    decreases vs, 0
  {
    if vs == [] then [] else Encode(vs[0]) + EncodeAll(vs[1..])
  }

  function EncodeField(f: Field): seq<Byte>
    requires WellFormedField(f)
    decreases f, 2
  {
    [TypeOf(f.value)] + Put16(f.id) + Encode(f.value)
  }

  /** The fields in order, then the stop byte; a struct has no other framing. */
  function EncodeFields(fs: seq<Field>): seq<Byte>
    requires forall f | f in fs :: WellFormedField(f)
    decreases fs, 0
  {
    if fs == [] then [T_STOP] else EncodeField(fs[0]) + EncodeFields(fs[1..])
  }

  // ---- the library's readers: a value and the remaining input, or an exception ----

  datatype Parse<T> = Err | Ok(value: T, rest: seq<Byte>)

  function GetByte(inp: seq<Byte>): Parse<Byte> {
    if inp == [] then Err else Ok(inp[0], inp[1..])
  }

  function GetInt(n: nat, inp: seq<Byte>): (r: Parse<int>)
    ensures r.Ok? ==> FitsSigned(n, r.value) && |r.rest| + n == |inp|
  {
    if |inp| < n then Err else Ok(Signed(n, FromBe(inp[..n])), inp[n..])
  }

  function Get32(inp: seq<Byte>): (r: Parse<Int32>)
    ensures r.Ok? ==> |r.rest| + 4 == |inp|
  {
    assert Pow256(4) == TWO_32;
    match GetInt(4, inp)
    case Err => Err
    case Ok(v, rest) => Ok(v, rest)
  }

  function Get64(inp: seq<Byte>): (r: Parse<NumID>)
    ensures r.Ok? ==> |r.rest| + 8 == |inp|
  {
    assert Pow256(8) == 0x1_0000_0000_0000_0000;
    match GetInt(8, inp)
    case Err => Err
    case Ok(v, rest) => Ok(v, rest)
  }

  /** Sizes are read as 32-bit integers; a negative one is refused. */
  function GetSize(inp: seq<Byte>): (r: Parse<nat>)
    ensures r.Ok? ==> |r.rest| + 4 == |inp|
  {
    match Get32(inp)
    case Err => Err
    case Ok(v, rest) => if v < 0 then Err else Ok(v, rest)
  }

  function GetRaw(n: nat, inp: seq<Byte>): (r: Parse<seq<Byte>>)
    ensures r.Ok? ==> |r.rest| + n == |inp|
  {
    if |inp| < n then Err else Ok(inp[..n], inp[n..])
  }

  function GetText(inp: seq<Byte>): (r: Parse<Str>)
    ensures r.Ok? ==> |r.rest| < |inp|
  {
    match GetSize(inp)
    case Err => Err
    case Ok(n, rest) => GetRaw(n, rest)
  }

  /** `skip`: reads a value of type `t` and drops it; other types take no bytes. */
  function Skip(t: Byte, inp: seq<Byte>): (r: Parse<()>)
    ensures r.Ok? ==> |r.rest| <= |inp|
    decreases |inp|, 1, 0
  {
    if t == T_BOOL || t == T_BYTE then Drop(GetRaw(1, inp))
    else if t == T_I16 then Drop(GetRaw(2, inp))
    else if t == T_I32 then Drop(GetRaw(4, inp))
    else if t == T_I64 || t == T_DOUBLE then Drop(GetRaw(8, inp))
    else if t == T_STRING then Drop(GetText(inp))
    else if t == T_STRUCT then SkipFields(inp)
    else if t == T_MAP then
      if |inp| < 2 then Err
      else
        match GetSize(inp[2..])
        case Err => Err
        case Ok(n, rest) => SkipEntries(inp[0], inp[1], 2 * n, rest)
    else if t == T_SET || t == T_LIST then
      if |inp| < 1 then Err
      else
        match GetSize(inp[1..])
        case Err => Err
        case Ok(n, rest) => SkipEntries(inp[0], inp[0], n, rest)
    else Ok((), inp)
  }

  function Drop<T>(r: Parse<T>): (d: Parse<()>)
    ensures d.Ok? <==> r.Ok?
    ensures d.Ok? ==> d.rest == r.rest
  {
    match r case Err => Err case Ok(_, rest) => Ok((), rest)
  }

  /** Skips `n` values of alternating types `t` and `u`. */
  function SkipEntries(t: Byte, u: Byte, n: nat, inp: seq<Byte>): (r: Parse<()>)
    ensures r.Ok? ==> |r.rest| <= |inp|
    decreases |inp|, 2, n
  {
    if n == 0 then Ok((), inp)
    else
      match Skip(t, inp)
      case Err => Err
      case Ok(_, rest) => SkipEntries(u, t, n - 1, rest)
  }

  function SkipFields(inp: seq<Byte>): (r: Parse<()>)
    ensures r.Ok? ==> |r.rest| < |inp|
    decreases |inp|, 0, 0
  {
    if inp == [] then Err
    else if inp[0] == T_STOP then Ok((), inp[1..])
    else
      match GetInt(2, inp[1..])
      case Err => Err
      case Ok(_, rest) =>
        match Skip(inp[0], rest)
        case Err => Err
        case Ok(_, rest') => SkipFields(rest')
  }

  // ---- the encoding, byte by byte ----

  /** The digits of `v` to base 256, the most significant one first, rounding down. */
  function BigEndian(n: nat, v: int): (b: seq<Byte>)
    ensures |b| == n
  {
    seq(n, i requires 0 <= i < n => (v / Pow256(n - 1 - i)) % 256)
  }

  lemma PutIntIsBigEndian(n: nat, v: int)
    requires FitsSigned(n, v)
    ensures PutInt(n, v) == BigEndian(n, v)
  {
    hide ToBe, Pow256, Unsigned;
    forall i | 0 <= i < n ensures PutInt(n, v)[i] == (v / Pow256(n - 1 - i)) % 256 {
      ToBeAt(n, Unsigned(n, v), n - 1 - i);
      UnsignedDigit(n, v, n - 1 - i);
    }
  }

  lemma Put32InBytes(v: Int32)
    ensures Put32(v) == BigEndian(4, v)
  {
    assert Pow256(4) == 0x1_0000_0000;
    PutIntIsBigEndian(4, v);
  }

  lemma Put64InBytes(v: NumID)
    ensures Put64(v) == BigEndian(8, v)
  {
    IdFits(v);
    PutIntIsBigEndian(8, v);
  }

  lemma Put16InBytes(v: int)
    requires -0x8000 <= v < 0x8000
    ensures Put16(v) == BigEndian(2, v)
  {
    assert Pow256(2) == 0x1_0000;
    PutIntIsBigEndian(2, v);
  }

  /** The type codes and layouts of the Apache Thrift Binary protocol encoding: sections
      "Integer encoding", "String encoding", "Struct", "List and Set" and "Map". */
  lemma EncodingInBytes(v: TValue)
    requires WellFormed(v)
    ensures match v
            case I32(i) => TypeOf(v) == 8 && Encode(v) == BigEndian(4, i)
            case I64(n) => TypeOf(v) == 10 && Encode(v) == BigEndian(8, n)
            case Text(s) => TypeOf(v) == 11 && Encode(v) == BigEndian(4, |s|) + s
            case Fixed(kind, bytes) =>
              && Encode(v) == bytes
              && (kind == KBool ==> TypeOf(v) == 2 && |bytes| == 1)
              && (kind == KByte ==> TypeOf(v) == 3 && |bytes| == 1)
              && (kind == KDouble ==> TypeOf(v) == 4 && |bytes| == 8)
              && (kind == KI16 ==> TypeOf(v) == 6 && |bytes| == 2)
            case Elems(isSet, et, elems) =>
              && TypeOf(v) == (if isSet then 14 else 15)
              && (forall e | e in elems :: WellFormed(e) && TypeOf(e) == et)
              && Encode(v) == [et] + BigEndian(4, |elems|) + EncodeAll(elems)
            case Map(kt, vt, entries) =>
              && TypeOf(v) == 13 && (forall e | e in entries :: WellFormed(e))
              && Encode(v) == [kt, vt] + BigEndian(4, |entries| / 2) + EncodeAll(entries)
            case Struct(fields) =>
              && TypeOf(v) == 12 && (forall f | f in fields :: WellFormedField(f))
              && Encode(v) == EncodeFields(fields)
  {
    hide Put32, Put64, BigEndian, EncodeAll, EncodeFields;
    match v
    case I32(i) => Put32InBytes(i);
    case I64(n) => Put64InBytes(n);
    case Text(s) => Put32InBytes(|s|);
    case Elems(_, _, elems) => Put32InBytes(|elems|);
    case Map(_, _, entries) => Put32InBytes(|entries| / 2);
    case _ =>
  }

  /** A field is its type, its two-byte id and its value. */
  lemma FieldInBytes(f: Field)
    requires WellFormedField(f)
    ensures WellFormed(f.value)
    ensures EncodeField(f) == [TypeOf(f.value)] + BigEndian(2, f.id) + Encode(f.value)
  {
    hide Put16, BigEndian, Encode, WellFormed;
    Put16InBytes(f.id);
  }

  /** A struct is its fields in order and a zero byte. */
  lemma StructInBytes(fs: seq<Field>)
    requires forall f | f in fs :: WellFormedField(f)
    ensures EncodeFields([]) == [0]
    ensures fs != [] ==> EncodeFields(fs) == EncodeField(fs[0]) + EncodeFields(fs[1..])
  {
  }

  // ---- readers undo the encoding ----

  lemma GetPutInt(n: nat, v: int, rest: seq<Byte>)
    requires FitsSigned(n, v)
    ensures GetInt(n, PutInt(n, v) + rest) == Ok(v, rest)
  {
    FromToBe(n, Unsigned(n, v));
    SignedUnsigned(n, v);
    assert (PutInt(n, v) + rest)[..n] == PutInt(n, v);
  }

  lemma GetPut32(v: Int32, rest: seq<Byte>)
    ensures Get32(Put32(v) + rest) == Ok(v, rest)
    ensures v >= 0 ==> GetSize(Put32(v) + rest) == Ok(v, rest)
  {
    assert Pow256(4) == TWO_32;
    GetPutInt(4, v, rest);
  }

  lemma GetPut64(v: NumID, rest: seq<Byte>)
    ensures Get64(Put64(v) + rest) == Ok(v, rest)
  {
    IdFits(v);
    GetPutInt(8, v, rest);
  }

  lemma GetPut16(v: int, rest: seq<Byte>)
    requires -0x8000 <= v < 0x8000
    ensures GetInt(2, Put16(v) + rest) == Ok(v, rest)
  {
    assert Pow256(2) == 0x1_0000;
    GetPutInt(2, v, rest);
  }

  lemma GetEncodedText(s: Str, rest: seq<Byte>)
    requires |s| <= MAX_32
    ensures GetText(Encode(Text(s)) + rest) == Ok(s, rest)
  {
    hide Put32, GetSize;
    GetPut32(|s|, s + rest);
    assert Encode(Text(s)) + rest == Put32(|s|) + (s + rest);
    assert (s + rest)[..|s|] == s && (s + rest)[|s|..] == rest;
  }

  lemma SkipScalar(v: TValue, rest: seq<Byte>)
    requires WellFormed(v) && (v.I32? || v.I64? || v.Text? || v.Fixed?)
    ensures Skip(TypeOf(v), Encode(v) + rest) == Ok((), rest)
  {
    hide Put32, Put64, GetSize, SkipEntries, SkipFields;
    if v.Text? {
      GetEncodedText(v.s, rest);
    } else {
      assert (Encode(v) + rest)[|Encode(v)|..] == rest;
    }
  }

  lemma ElemsEncoding(v: TValue)
    requires WellFormed(v) && v.Elems?
    ensures |v.elems| <= MAX_32 && (forall e | e in v.elems :: WellFormed(e))
    ensures TypeOf(v) == T_SET || TypeOf(v) == T_LIST
    ensures Encode(v) == [v.et] + Put32(|v.elems|) + EncodeAll(v.elems)
  {
    hide Put32, EncodeAll;
  }

  lemma SkipElemsHeader(v: TValue, rest: seq<Byte>)
    requires WellFormed(v) && v.Elems? && |v.elems| <= MAX_32 && forall e | e in v.elems :: WellFormed(e)
    ensures Skip(TypeOf(v), Encode(v) + rest) == SkipEntries(v.et, v.et, |v.elems|, EncodeAll(v.elems) + rest)
  {
    hide Put32, GetSize, GetRaw, GetText, SkipEntries, SkipFields, EncodeAll, EncodeFields;
    hide Skip, TypeOf, Encode, WellFormed;
    var tail := EncodeAll(v.elems) + rest;
    ElemsEncoding(v);
    GetPut32(|v.elems|, tail);
    assert Encode(v) + rest == [v.et] + (Put32(|v.elems|) + tail);
    SkipAfterHeader(TypeOf(v), v.et, |v.elems|, Put32(|v.elems|) + tail, tail);
  }

  lemma SkipAfterHeader(t: Byte, et: Byte, n: nat, inp: seq<Byte>, tail: seq<Byte>)
    requires (t == T_SET || t == T_LIST) && GetSize(inp) == Ok(n, tail)
    ensures Skip(t, [et] + inp) == SkipEntries(et, et, n, tail)
  {
    hide GetSize, GetRaw, GetText, SkipEntries, SkipFields;
    assert ([et] + inp)[1..] == inp;
  }

  lemma SkipMapHeader(v: TValue, rest: seq<Byte>)
    requires WellFormed(v) && v.Map?
    ensures Skip(T_MAP, Encode(v) + rest) == SkipEntries(v.kt, v.vt, |v.entries|, EncodeAll(v.entries) + rest)
  {
    hide Put32, GetSize, GetRaw, GetText, SkipEntries, SkipFields, EncodeAll, EncodeFields;
    GetPut32(|v.entries| / 2, EncodeAll(v.entries) + rest);
    var inp := Encode(v) + rest;
    assert inp == [v.kt, v.vt] + (Put32(|v.entries| / 2) + (EncodeAll(v.entries) + rest));
    assert inp[2..] == Put32(|v.entries| / 2) + (EncodeAll(v.entries) + rest);
  }

  /** `skip` consumes exactly one well-formed value of the announced type. */
  lemma {:induction false} SkipEncoded(v: TValue, rest: seq<Byte>)
    requires WellFormed(v)
    ensures Skip(TypeOf(v), Encode(v) + rest) == Ok((), rest)
    decreases v, 1
  {
    match v
    case Elems(_, et, elems) =>
      hide Skip, Encode, SkipEntries, EncodeAll;
      SkipElemsHeader(v, rest);
      SkipAllEncoded(elems, et, et, rest);
    case Map(kt, vt, entries) =>
      hide Skip, Encode, SkipEntries, EncodeAll;
      SkipMapHeader(v, rest);
      SkipAllEncoded(entries, kt, vt, rest);
    case Struct(fields) =>
      hide SkipFields, EncodeFields;
      SkipFieldsEncoded(fields, rest);
    case _ =>
      hide Skip, Encode;
      SkipScalar(v, rest);
  }

  lemma AlternatingTail(vs: seq<TValue>, t: Byte, u: Byte)
    requires vs != [] && forall i | 0 <= i < |vs| :: TypeOf(vs[i]) == EntryType(t, u, i)
    ensures TypeOf(vs[0]) == t
    ensures forall i | 0 <= i < |vs| - 1 :: TypeOf(vs[1..][i]) == EntryType(u, t, i)
  {
    hide TypeOf;
    forall i | 0 <= i < |vs| - 1 ensures TypeOf(vs[1..][i]) == EntryType(u, t, i) {
      assert TypeOf(vs[i + 1]) == EntryType(t, u, i + 1);
    }
  }

  lemma {:induction false} SkipAllEncoded(vs: seq<TValue>, t: Byte, u: Byte, rest: seq<Byte>)
    requires forall v | v in vs :: WellFormed(v)
    requires forall i | 0 <= i < |vs| :: TypeOf(vs[i]) == EntryType(t, u, i)
    ensures SkipEntries(t, u, |vs|, EncodeAll(vs) + rest) == Ok((), rest)
    decreases vs, 0
  {
    hide Skip, Encode, TypeOf, WellFormed, EntryType;
    if vs == [] {
      assert EncodeAll(vs) + rest == rest;
    } else {
      AlternatingTail(vs, t, u);
      SkipEncoded(vs[0], EncodeAll(vs[1..]) + rest);
      assert EncodeAll(vs) + rest == Encode(vs[0]) + (EncodeAll(vs[1..]) + rest);
      SkipAllEncoded(vs[1..], u, t, rest);
    }
  }

  lemma {:induction false} SkipFieldsEncoded(fs: seq<Field>, rest: seq<Byte>)
    requires forall f | f in fs :: WellFormedField(f)
    ensures SkipFields(EncodeFields(fs) + rest) == Ok((), rest)
    decreases fs, 0
  {
    hide SkipFields, WellFormed, EncodeField;
    if fs == [] {
      SkipStop(rest);
    } else {
      var f, tail := fs[0], EncodeFields(fs[1..]) + rest;
      SkipFieldsEncoded(fs[1..], rest);
      SkipFieldValue(f, tail);
      SkipOneField(f, tail);
      assert EncodeFields(fs) + rest == EncodeField(f) + tail;
    }
  }

  lemma SkipStop(rest: seq<Byte>)
    ensures SkipFields([T_STOP] + rest) == Ok((), rest)
  {
    assert ([T_STOP] + rest)[1..] == rest;
  }

  lemma SkipOneField(f: Field, tail: seq<Byte>)
    requires WellFormedField(f) && Skip(TypeOf(f.value), Encode(f.value) + tail) == Ok((), tail)
    ensures SkipFields(EncodeField(f) + tail) == SkipFields(tail)
  {
    hide Skip, Encode, WellFormed, GetInt, Put16, EncodeField, TypeOf;
    FieldHeader(f, tail);
  }

  lemma {:induction false} SkipFieldValue(f: Field, tail: seq<Byte>)
    requires WellFormedField(f)
    ensures Skip(TypeOf(f.value), Encode(f.value) + tail) == Ok((), tail)
    decreases f, 2
  {
    SkipEncoded(f.value, tail);
  }

  lemma FieldHeader(f: Field, tail: seq<Byte>)
    requires WellFormedField(f)
    ensures var inp := EncodeField(f) + tail;
            && inp != [] && inp[0] == TypeOf(f.value) != T_STOP
            && GetInt(2, inp[1..]) == Ok(f.id, Encode(f.value) + tail)
  {
    hide Encode, WellFormed, GetInt, Put16;
    GetPut16(f.id, Encode(f.value) + tail);
    assert (EncodeField(f) + tail)[1..] == Put16(f.id) + (Encode(f.value) + tail);
  }

  lemma {:induction false} EncodeAllSnoc(vs: seq<TValue>, v: TValue)
    requires (forall x | x in vs :: WellFormed(x)) && WellFormed(v)
    ensures EncodeAll(vs + [v]) == EncodeAll(vs) + Encode(v)
  {
    hide Encode, WellFormed;
    if vs == [] {
      assert vs + [v] == [v];
      assert EncodeAll([v]) == Encode(v) + EncodeAll([]);
    } else {
      assert (vs + [v])[0] == vs[0] && (vs + [v])[1..] == vs[1..] + [v];
      EncodeAllSnoc(vs[1..], v);
    }
  }

  /** A protocol object over buffered bytes. */
  class TProtocol {
    var input: seq<Byte>
    var output: seq<Byte>

    constructor (input: seq<Byte>)
      ensures this.input == input && output == []
    {
      this.input := input;
      output := [];
    }

    /** One library read; an exception leaves the cursor undefined, here where it was. */
    method Read<T>(get: seq<Byte> -> Parse<T>) returns (r: Parse<T>)
      modifies this`input
      ensures r == get(old(input))
      ensures input == if r.Ok? then r.rest else old(input)
    {
      r := get(input);
      if r.Ok? {
        input := r.rest;
      }
    }

    method Write(b: seq<Byte>)
      modifies this`output
      ensures output == old(output) + b
    {
      output := output + b;
    }
  }
}
