/** gen-cpp/numerator_types.cpp and gen-py/numerator/ttypes.py: the readers and writers
    of `Query` on both sides of the wire. */
module QueryCodec {
  import opened Bytes
  import opened Thrift
  import opened Service

  datatype Option<T> = None | Some(value: T)

  /** The fields a reader has set so far; also the Python object itself. */
  datatype Partial = Partial(op: Option<Int32>, strings: Option<seq<Str>>,
                             ids: Option<seq<NumID>>, failures: Option<seq<Int32>>)

  const NOTHING := Partial(None, None, None, None)

  function Or<T>(a: Option<T>, b: Option<T>): Option<T> {
    if a.Some? then a else b
  }

  function GetOr<T>(a: Option<T>, d: T): T {
    if a.Some? then a.value else d
  }

  /** `later` read over `p`. */
  function Over(later: Partial, p: Partial): Partial {
    Partial(Or(later.op, p.op), Or(later.strings, p.strings), Or(later.ids, p.ids), Or(later.failures, p.failures))
  }

  /** A C++ object after the fields `p` were read into it. */
  function Assign(q: Query, p: Partial): Query {
    Query(GetOr(p.op, q.op), GetOr(p.strings, q.strings), GetOr(p.ids, q.ids), GetOr(p.failures, q.failures))
  }

  const DEFAULT := Query(0, [], [], [])

  // ---- what a field sequence means ----

  function Texts(vs: seq<TValue>): seq<Str> {
    seq(|vs|, i requires 0 <= i < |vs| => if vs[i].Text? then vs[i].s else [])
  }

  function Longs(vs: seq<TValue>): seq<NumID> {
    seq(|vs|, i requires 0 <= i < |vs| => if vs[i].I64? then vs[i].n else 0)
  }

  function Ints(vs: seq<TValue>): seq<Int32> {
    seq(|vs|, i requires 0 <= i < |vs| => if vs[i].I32? then vs[i].i else 0)
  }

  predicate Is(f: Field, id: int, t: Byte) {
    f.id == id && TypeOf(f.value) == t
  }

  /** The last field with this id and this type, or -1. */
  function Last(fs: seq<Field>, id: int, t: Byte): (i: int)
    ensures -1 <= i < |fs|
    ensures i >= 0 ==> Is(fs[i], id, t)
    ensures forall j | i < j < |fs| :: !Is(fs[j], id, t)
  {
    if fs == [] then -1
    else
      var i := Last(fs[1..], id, t);
      if i >= 0 then i + 1 else if Is(fs[0], id, t) then 0 else -1
  }

  /** For each field its last correctly typed occurrence. */
  function Meaning(fs: seq<Field>): Partial {
    var (op, ss, ids, ix) := (Last(fs, 1, T_I32), Last(fs, 2, T_LIST), Last(fs, 3, T_LIST), Last(fs, 4, T_LIST));
    Partial(if op < 0 then None else Some(fs[op].value.i),
            if ss < 0 then None else Some(Texts(fs[ss].value.elems)),
            if ids < 0 then None else Some(Longs(fs[ids].value.elems)),
            if ix < 0 then None else Some(Ints(fs[ix].value.elems)))
  }

  /** The lists of known fields hold the declared element type. */
  predicate Declared(f: Field) {
    && (Is(f, 2, T_LIST) ==> forall e | e in f.value.elems :: e.Text?)
    && (Is(f, 3, T_LIST) ==> forall e | e in f.value.elems :: e.I64?)
    && (Is(f, 4, T_LIST) ==> forall e | e in f.value.elems :: e.I32?)
  }

  predicate Readable(fs: seq<Field>) {
    forall f | f in fs :: WellFormedField(f) && Declared(f)
  }

  // ---- the reader as a function on the input ----

  ghost predicate Shrinks<T(!new)>(get: seq<Byte> -> Parse<T>) {
    forall inp :: get(inp).Ok? ==> |get(inp).rest| <= |inp|
  }

  function GetMany<T>(get: seq<Byte> -> Parse<T>, n: nat, inp: seq<Byte>): (r: Parse<seq<T>>) {
    if n == 0 then Ok([], inp)
    else
      match get(inp)
      case Err => Err
      case Ok(x, rest) => Prepend([x], GetMany(get, n - 1, rest))
  }

  function Prepend<T>(xs: seq<T>, r: Parse<seq<T>>): Parse<seq<T>> {
    match r case Err => Err case Ok(ys, rest) => Ok(xs + ys, rest)
  }

  lemma PrependNothing<T>(r: Parse<seq<T>>)
    ensures Prepend([], r) == r
  {
    if r.Ok? { assert [] + r.value == r.value; }
  }

  lemma PrependTwice<T>(xs: seq<T>, ys: seq<T>, r: Parse<seq<T>>)
    ensures Prepend(xs, Prepend(ys, r)) == Prepend(xs + ys, r)
  {
    if r.Ok? { assert xs + (ys + r.value) == (xs + ys) + r.value; }
  }

  /** The element type is read and ignored. */
  function GetList<T>(get: seq<Byte> -> Parse<T>, inp: seq<Byte>): (r: Parse<seq<T>>) {
    if inp == [] then Err
    else
      match GetSize(inp[1..])
      case Err => Err
      case Ok(n, rest) => GetMany(get, n, rest)
  }

  function GetField(p: Partial, id: int, t: Byte, inp: seq<Byte>): Parse<Partial> {
    if id == 1 && t == T_I32 then
      match Get32(inp) case Err => Err case Ok(v, rest) => Ok(p.(op := Some(v)), rest)
    else if id == 2 && t == T_LIST then
      match GetList(GetText, inp) case Err => Err case Ok(v, rest) => Ok(p.(strings := Some(v)), rest)
    else if id == 3 && t == T_LIST then
      match GetList(Get64, inp) case Err => Err case Ok(v, rest) => Ok(p.(ids := Some(v)), rest)
    else if id == 4 && t == T_LIST then
      match GetList(Get32, inp) case Err => Err case Ok(v, rest) => Ok(p.(failures := Some(v)), rest)
    else
      match Skip(t, inp) case Err => Err case Ok(_, rest) => Ok(p, rest)
  }

  lemma {:induction false} ManyShrinks<T(!new)>(get: seq<Byte> -> Parse<T>, n: nat, inp: seq<Byte>)
    requires Shrinks(get)
    ensures GetMany(get, n, inp).Ok? ==> |GetMany(get, n, inp).rest| <= |inp|
  {
    if n > 0 && get(inp).Ok? { ManyShrinks(get, n - 1, get(inp).rest); }
  }

  lemma ListShrinks<T(!new)>(get: seq<Byte> -> Parse<T>, inp: seq<Byte>)
    requires Shrinks(get)
    ensures GetList(get, inp).Ok? ==> |GetList(get, inp).rest| <= |inp|
  {
    if inp != [] && GetSize(inp[1..]).Ok? {
      ManyShrinks(get, GetSize(inp[1..]).value, GetSize(inp[1..]).rest);
    }
  }

  lemma FieldShrinks(p: Partial, id: int, t: Byte, inp: seq<Byte>)
    ensures GetField(p, id, t, inp).Ok? ==> |GetField(p, id, t, inp).rest| <= |inp|
  {
    hide GetList, GetText, Get32, Get64, Skip;
    ListShrinks(GetText, inp);
    ListShrinks(Get64, inp);
    ListShrinks(Get32, inp);
  }

  function GetFields(p: Partial, inp: seq<Byte>): (r: Parse<Partial>)
    decreases |inp|
  {
    if inp == [] then Err
    else if inp[0] == T_STOP then Ok(p, inp[1..])
    else
      match GetInt(2, inp[1..])
      case Err => Err
      case Ok(id, rest) =>
        FieldShrinks(p, id, inp[0], rest);
        match GetField(p, id, inp[0], rest)
        case Err => Err
        case Ok(p', rest') => GetFields(p', rest')
  }

  /** What the whole fields before a failure gave, and the id of the field it struck. */
  function Interrupted(p: Partial, inp: seq<Byte>): (r: (Partial, int))
    decreases |inp|
  {
    if inp == [] || inp[0] == T_STOP then (p, 0)
    else
      match GetInt(2, inp[1..])
      case Err => (p, 0)
      case Ok(id, rest) =>
        FieldShrinks(p, id, inp[0], rest);
        match GetField(p, id, inp[0], rest)
        case Err => (p, id)
        case Ok(p', rest') => Interrupted(p', rest')
  }

  /** The reader's loop has the fields `p` and the input `inp` left of all of `all`. */
  ghost predicate ReadTo(p0: Partial, all: seq<Byte>, p: Partial, inp: seq<Byte>) {
    GetFields(p0, all) == GetFields(p, inp) && Interrupted(p0, all) == Interrupted(p, inp)
  }

  lemma StartsReading(p: Partial, inp: seq<Byte>)
    ensures ReadTo(p, inp, p, inp)
  {
  }

  /** One turn of the loop: a field read over the fields so far. */
  lemma ReadStep(p0: Partial, all: seq<Byte>, p: Partial, inp: seq<Byte>)
    requires ReadTo(p0, all, p, inp)
    ensures inp == [] ==> GetFields(p0, all).Err? && Interrupted(p0, all) == (p, 0)
    ensures inp != [] && inp[0] == T_STOP ==> GetFields(p0, all) == Ok(p, inp[1..])
    ensures inp != [] && inp[0] != T_STOP ==>
              match GetInt(2, inp[1..])
              case Err => GetFields(p0, all).Err? && Interrupted(p0, all) == (p, 0)
              case Ok(id, rest) =>
                match GetField(NOTHING, id, inp[0], rest)
                case Err => GetFields(p0, all).Err? && Interrupted(p0, all) == (p, id)
                case Ok(f, rest') => ReadTo(p0, all, Over(f, p), rest') && |rest'| < |inp|
  {
    hide GetField, GetInt, Over;
    if inp != [] && inp[0] != T_STOP {
      IntShrinks(2, inp[1..]);
      if GetInt(2, inp[1..]).Ok? {
        var id, rest := GetInt(2, inp[1..]).value, GetInt(2, inp[1..]).rest;
        FieldShrinks(p, id, inp[0], rest);
        GetFieldOver(p, id, inp[0], rest);
      }
    }
  }

  lemma GetFieldOver(p: Partial, id: int, t: Byte, inp: seq<Byte>)
    ensures GetField(p, id, t, inp) ==
              match GetField(NOTHING, id, t, inp)
              case Err => Err
              case Ok(f, rest) => Ok(Over(f, p), rest)
  {
    hide GetList, GetText, Get32, Get64, Skip;
  }

  lemma AssignNothing(q: Query)
    ensures Assign(q, NOTHING) == q
  {
  }

  lemma AssignOver(q: Query, f: Partial, p: Partial)
    ensures Assign(Assign(q, p), f) == Assign(q, Over(f, p))
  {
  }

  lemma IntShrinks(n: nat, inp: seq<Byte>)
    ensures GetInt(n, inp).Ok? ==> |GetInt(n, inp).rest| <= |inp|
  {
  }

  // ---- reading a well-formed field sequence ----

  lemma {:induction false} ManyEncoded<T(!new)>(get: seq<Byte> -> Parse<T>, vs: seq<TValue>, xs: seq<T>,
                                                rest: seq<Byte>)
    requires |vs| == |xs| && forall v | v in vs :: WellFormed(v)
    requires forall i, r | 0 <= i < |vs| :: get(Encode(vs[i]) + r) == Ok(xs[i], r)
    ensures GetMany(get, |vs|, EncodeAll(vs) + rest) == Ok(xs, rest)
  {
    hide Encode, WellFormed;
    if vs == [] {
      assert EncodeAll(vs) + rest == rest;
    } else {
      var tail := EncodeAll(vs[1..]) + rest;
      assert EncodeAll(vs) + rest == Encode(vs[0]) + tail;
      assert get(Encode(vs[0]) + tail) == Ok(xs[0], tail);
      forall i, r | 0 <= i < |vs| - 1 ensures get(Encode(vs[1..][i]) + r) == Ok(xs[1..][i], r) {
        assert get(Encode(vs[i + 1]) + r) == Ok(xs[i + 1], r);
      }
      ManyEncoded(get, vs[1..], xs[1..], rest);
      assert [xs[0]] + xs[1..] == xs;
    }
  }

  lemma ListEncoded<T(!new)>(get: seq<Byte> -> Parse<T>, v: TValue, xs: seq<T>, rest: seq<Byte>)
    requires v.Elems? && WellFormed(v) && |v.elems| == |xs|
    requires forall i, r | 0 <= i < |xs| :: get(Encode(v.elems[i]) + r) == Ok(xs[i], r)
    ensures GetList(get, Encode(v) + rest) == Ok(xs, rest)
  {
    hide Put32, GetSize, EncodeAll, GetMany, TypeOf;
    GetPut32(|v.elems|, EncodeAll(v.elems) + rest);
    assert (Encode(v) + rest)[1..] == Put32(|v.elems|) + (EncodeAll(v.elems) + rest);
    ManyEncoded(get, v.elems, xs, rest);
  }

  lemma ElementsEncoded(v: TValue, rest: seq<Byte>)
    requires v.Elems? && WellFormed(v)
    ensures (forall e | e in v.elems :: e.Text?) ==> GetList(GetText, Encode(v) + rest) == Ok(Texts(v.elems), rest)
    ensures (forall e | e in v.elems :: e.I64?) ==> GetList(Get64, Encode(v) + rest) == Ok(Longs(v.elems), rest)
    ensures (forall e | e in v.elems :: e.I32?) ==> GetList(Get32, Encode(v) + rest) == Ok(Ints(v.elems), rest)
  {
    hide Put32, Put64, GetList, GetText, Get32, Get64, TypeOf;
    if forall e | e in v.elems :: e.Text? {
      forall i, r | 0 <= i < |v.elems| ensures GetText(Encode(v.elems[i]) + r) == Ok(Texts(v.elems)[i], r) {
        assert v.elems[i] in v.elems;
        GetEncodedText(v.elems[i].s, r);
      }
      ListEncoded(GetText, v, Texts(v.elems), rest);
    }
    if forall e | e in v.elems :: e.I64? {
      forall i, r | 0 <= i < |v.elems| ensures Get64(Encode(v.elems[i]) + r) == Ok(Longs(v.elems)[i], r) {
        assert v.elems[i] in v.elems;
        GetPut64(v.elems[i].n, r);
      }
      ListEncoded(Get64, v, Longs(v.elems), rest);
    }
    if forall e | e in v.elems :: e.I32? {
      forall i, r | 0 <= i < |v.elems| ensures Get32(Encode(v.elems[i]) + r) == Ok(Ints(v.elems)[i], r) {
        assert v.elems[i] in v.elems;
        GetPut32(v.elems[i].i, r);
      }
      ListEncoded(Get32, v, Ints(v.elems), rest);
    }
  }

  lemma FieldEncoded(p: Partial, f: Field, rest: seq<Byte>)
    requires WellFormedField(f) && Declared(f)
    ensures GetField(p, f.id, TypeOf(f.value), Encode(f.value) + rest) == Ok(Over(Meaning([f]), p), rest)
  {
    hide Put32, Put64, GetList, GetText, Get32, Get64, Skip, Encode, WellFormed;
    SkipEncoded(f.value, rest);
    if Is(f, 1, T_I32) { GetEncoded32(f.value, rest); }
    if f.value.Elems? { ElementsEncoded(f.value, rest); }
  }

  lemma GetEncoded32(v: TValue, rest: seq<Byte>)
    requires v.I32?
    ensures WellFormed(v) && Get32(Encode(v) + rest) == Ok(v.i, rest)
  {
    GetPut32(v.i, rest);
  }

  lemma {:induction false} LastConcat(a: seq<Field>, b: seq<Field>, id: int, t: Byte)
    ensures Last(a + b, id, t) == if Last(b, id, t) >= 0 then |a| + Last(b, id, t) else Last(a, id, t)
  {
    hide Is;
    if a == [] {
      assert a + b == b;
    } else {
      assert (a + b)[0] == a[0] && (a + b)[1..] == a[1..] + b;
      LastConcat(a[1..], b, id, t);
    }
  }

  lemma MeaningConcat(a: seq<Field>, b: seq<Field>)
    ensures Meaning(a + b) == Over(Meaning(b), Meaning(a))
  {
    hide Last, Texts, Longs, Ints;
    LastConcat(a, b, 1, T_I32);
    LastConcat(a, b, 2, T_LIST);
    LastConcat(a, b, 3, T_LIST);
    LastConcat(a, b, 4, T_LIST);
  }

  /** One field is read over those before it. */
  lemma FieldThenMore(p: Partial, f: Field, tail: seq<Byte>)
    requires WellFormedField(f) && Declared(f)
    ensures var (inp, q) := (EncodeField(f) + tail, Over(Meaning([f]), p));
            GetFields(p, inp) == GetFields(q, tail) && Interrupted(p, inp) == Interrupted(q, tail)
  {
    hide GetField, GetInt, Encode, EncodeField, Declared, WellFormedField, Meaning, Over;
    FieldHeader(f, tail);
    FieldEncoded(p, f, tail);
  }

  /** Reader meaning: on any well-formed field sequence, in any order, with repeats,
      unknown ids and wrongly typed known fields, the reader keeps for each field its
      last correctly typed occurrence and stops exactly behind the struct. */
  lemma FieldsMean(p: Partial, fs: seq<Field>, rest: seq<Byte>)
    requires Readable(fs)
    ensures GetFields(p, EncodeFields(fs) + rest) == Ok(Over(Meaning(fs), p), rest)
  {
    hide EncodeFields, Body, GetFields, Meaning, Over, Interrupted, WellFormedField;
    FieldsThenMore(p, fs, [T_STOP] + rest);
    StopRead(Over(Meaning(fs), p), rest);
    BodyThenStop(fs);
    assert EncodeFields(fs) + rest == Body(fs) + ([T_STOP] + rest);
  }

  lemma StopRead(p: Partial, rest: seq<Byte>)
    ensures GetFields(p, [T_STOP] + rest) == Ok(p, rest)
  {
    hide GetField, GetInt;
    assert ([T_STOP] + rest)[1..] == rest;
  }

  /** However the input goes on behind whole fields, failure included, each has been given
      its last correctly typed occurrence. */
  lemma {:induction false} FieldsThenMore(p: Partial, fs: seq<Field>, rest: seq<Byte>)
    requires Readable(fs)
    ensures var (inp, q) := (Body(fs) + rest, Over(Meaning(fs), p));
            GetFields(p, inp) == GetFields(q, rest) && Interrupted(p, inp) == Interrupted(q, rest)
    decreases |fs|
  {
    hide GetFields, Interrupted, EncodeField, Declared, WellFormedField, Meaning;
    if fs == [] {
      assert Body(fs) + rest == rest;
      NoFields();
    } else {
      var f, tail := fs[0], Body(fs[1..]) + rest;
      FieldThenMore(p, f, tail);
      assert Body(fs) + rest == EncodeField(f) + tail;
      FieldsThenMore(Over(Meaning([f]), p), fs[1..], rest);
      MeaningConcat([f], fs[1..]);
      assert [f] + fs[1..] == fs;
    }
  }

  lemma NoFields()
    ensures Meaning([]) == NOTHING
  {
  }

  /** The reader reports a missing operation exactly if no I32 field 1 occurs. */
  lemma OperationMissing(fs: seq<Field>)
    ensures Meaning(fs).op.None? <==> forall f | f in fs :: !Is(f, 1, T_I32)
  {
    hide TypeOf;
    var i := Last(fs, 1, T_I32);
    if i >= 0 { assert fs[i] in fs; }
  }

  // ---- the objects ----

  datatype Status = Done | InvalidData | Malformed

  /** The element loop of a list field. */
  method ReadElements<T>(iprot: TProtocol, get: seq<Byte> -> Parse<T>) returns (r: Parse<seq<T>>)
    modifies iprot`input
    ensures r == GetList(get, old(iprot.input))
    ensures r.Ok? ==> iprot.input == r.rest
  {
    var etype := iprot.Read(GetByte);
    if etype.Err? { return Err; }
    var size := iprot.Read(GetSize);
    if size.Err? { return Err; }
    var elems: seq<T> := [];
    ghost var start := iprot.input;
    PrependNothing(GetMany(get, size.value, start));
    for i := 0 to size.value
      invariant |elems| == i
      invariant GetMany(get, size.value, start) == Prepend(elems, GetMany(get, size.value - i, iprot.input))
    {
      var elem := iprot.Read(get);
      if elem.Err? { return Err; }
      PrependTwice(elems, [elem.value], GetMany(get, size.value - i - 1, iprot.input));
      elems := elems + [elem.value];
    }
    assert elems + [] == elems;
    r := Ok(elems, iprot.input);
  }

  /** The same fields, but for the list with this id. */
  predicate SameBut(id: int, a: Partial, b: Partial) {
    && a.op == b.op && (id != 2 ==> a.strings == b.strings)
    && (id != 3 ==> a.ids == b.ids) && (id != 4 ==> a.failures == b.failures)
  }

  /** The C++ `Query`. A list the input breaks off in is left part-filled, with whatever
      the library had stored. */
  class CppQuery {
    var op: Int32
    var strings: seq<Str>
    var ids: seq<NumID>
    var failures: seq<Int32>

    constructor ()
      ensures Value() == DEFAULT
    {
      op, strings, ids, failures := 0, [], [], [];
    }

    constructor From(q: Query)
      ensures Value() == q
    {
      op, strings, ids, failures := q.op, q.strings, q.ids, q.failures;
    }

    function Value(): Query
      reads this
    {
      Query(op, strings, ids, failures)
    }

    /** The switch of Query::read. */
    method ReadField(iprot: TProtocol, fid: int, ftype: Byte) returns (ok: bool, opRead: bool)
      modifies this, iprot`input
      ensures var r := GetField(NOTHING, fid, ftype, old(iprot.input));
              && (ok <==> r.Ok?)
              && (ok ==> iprot.input == r.rest && Value() == Assign(old(Value()), r.value))
              && (ok ==> (opRead <==> r.value.op.Some?))
              && (!ok ==> SameBut(fid, Full(Value()), Full(old(Value()))))
    {
      hide GetList, Skip, GetText, Get32, Get64;
      ok, opRead := true, false;
      if fid == 1 && ftype == T_I32 {
        var v := iprot.Read(Get32);
        if v.Err? { return false, false; }
        op, opRead := v.value, true;
      } else if fid == 2 && ftype == T_LIST {
        var v := ReadElements(iprot, GetText);
        if v.Err? {
          strings := *;
          return false, false;
        }
        strings := v.value;
      } else if fid == 3 && ftype == T_LIST {
        var v := ReadElements(iprot, Get64);
        if v.Err? {
          ids := *;
          return false, false;
        }
        ids := v.value;
      } else if fid == 4 && ftype == T_LIST {
        var v := ReadElements(iprot, Get32);
        if v.Err? {
          failures := *;
          return false, false;
        }
        failures := v.value;
      } else {
        var v := iprot.Read(inp => Skip(ftype, inp));
        ok := v.Ok?;
      }
    }

    /** Query::read. */
    method Read(iprot: TProtocol) returns (status: Status)
      modifies this, iprot`input
      ensures var r := GetFields(NOTHING, old(iprot.input));
              if r.Err? then
                var (p, id) := Interrupted(NOTHING, old(iprot.input));
                status == Malformed && SameBut(id, Full(Value()), Full(Assign(old(Value()), p)))
              else
                && iprot.input == r.rest && Value() == Assign(old(Value()), r.value)
                && status == if r.value.op.Some? then Done else InvalidData
    {
      hide GetField, GetInt, GetFields, Interrupted, ReadTo, Assign;
      var issetOp := false;
      ghost var p := NOTHING;
      StartsReading(NOTHING, iprot.input);
      AssignNothing(Value());
      while true
        invariant ReadTo(NOTHING, old(iprot.input), p, iprot.input)
        invariant Value() == Assign(old(Value()), p) && (issetOp <==> p.op.Some?)
        decreases |iprot.input|
      {
        ReadStep(NOTHING, old(iprot.input), p, iprot.input);
        var ftype := iprot.Read(GetByte);
        if ftype.Err? { return Malformed; }
        if ftype.value == T_STOP { break; }
        var fid := iprot.Read(inp => GetInt(2, inp));
        if fid.Err? { return Malformed; }
        ghost var f := GetField(NOTHING, fid.value, ftype.value, iprot.input);
        var ok, opRead := ReadField(iprot, fid.value, ftype.value);
        if !ok { return Malformed; }
        AssignOver(old(Value()), f.value, p);
        p := Over(f.value, p);
        issetOp := issetOp || opRead;
      }
      status := if issetOp then Done else InvalidData;
    }

    /** Query::write: all four fields, always. */
    method Write(oprot: TProtocol)
      requires Sized(Full(Value()))
      modifies oprot`output
      ensures oprot.output == old(oprot.output) + EncodeFields(FieldsOf(Full(Value())))
      ensures oprot.output == old(oprot.output) + QueryBytes(Full(Value()))
    {
      hide EncodeField, EncodeFields, Body, WellFormedField, TypeOf, Sized;
      hide OpFields, TextFields, LongFields, IntFields, FieldsOf, QueryBytes;
      WireFormat(Full(Value()));
      EncodingOfFields(Full(Value()));
      ghost var p, out := Full(Value()), oprot.output;
      ghost var (a, b, c, d) := (Body(OpFields(p)), Body(TextFields(p)), Body(LongFields(p)), Body(IntFields(p)));
      Appended(out, a, b, c, d, [T_STOP]);
      WriteOp(oprot, op);
      assert oprot.output == out + a;
      WriteList(oprot, 2, T_STRING, TextValues(strings));
      assert oprot.output == (out + a) + b;
      WriteList(oprot, 3, T_I64, LongValues(ids));
      assert oprot.output == ((out + a) + b) + c;
      WriteList(oprot, 4, T_I32, IntValues(failures));
      oprot.Write([T_STOP]);
    }
  }

  /** The Python `Query`, whose unset fields are None. */
  class PyQuery {
    var op: Option<Int32>
    var strings: Option<seq<Str>>
    var ids: Option<seq<NumID>>
    var failures: Option<seq<Int32>>

    constructor (p: Partial)
      ensures Value() == p
    {
      op, strings, ids, failures := p.op, p.strings, p.ids, p.failures;
    }

    function Value(): Partial
      reads this
    {
      Partial(op, strings, ids, failures)
    }

    /** The cases of Query.read. */
    method ReadField(iprot: TProtocol, fid: int, ftype: Byte) returns (ok: bool)
      modifies this, iprot`input
      ensures var r := GetField(NOTHING, fid, ftype, old(iprot.input));
              && (ok <==> r.Ok?)
              && (ok ==> iprot.input == r.rest && Value() == Over(r.value, old(Value())))
              && (!ok ==> SameBut(fid, Value(), old(Value())))
    {
      hide GetList, Skip, GetText, Get32, Get64;
      ok := true;
      if fid == 1 && ftype == T_I32 {
        var v := iprot.Read(Get32);
        if v.Err? { return false; }
        op := Some(v.value);
      } else if fid == 2 && ftype == T_LIST {
        var v := ReadElements(iprot, GetText);
        if v.Err? {
          strings := *;
          return false;
        }
        strings := Some(v.value);
      } else if fid == 3 && ftype == T_LIST {
        var v := ReadElements(iprot, Get64);
        if v.Err? {
          ids := *;
          return false;
        }
        ids := Some(v.value);
      } else if fid == 4 && ftype == T_LIST {
        var v := ReadElements(iprot, Get32);
        if v.Err? {
          failures := *;
          return false;
        }
        failures := Some(v.value);
      } else {
        var v := iprot.Read(inp => Skip(ftype, inp));
        ok := v.Ok?;
      }
    }

    /** Query.read: the required field is not enforced. */
    method Read(iprot: TProtocol) returns (status: Status)
      modifies this, iprot`input
      ensures var r := GetFields(old(Value()), old(iprot.input));
              if r.Err? then
                var (p, id) := Interrupted(old(Value()), old(iprot.input));
                status == Malformed && SameBut(id, Value(), p)
              else status == Done && iprot.input == r.rest && Value() == r.value
    {
      hide GetField, GetInt, GetFields, Interrupted, ReadTo, Over;
      StartsReading(Value(), iprot.input);
      while true
        invariant ReadTo(old(Value()), old(iprot.input), Value(), iprot.input)
        decreases |iprot.input|
      {
        ReadStep(old(Value()), old(iprot.input), Value(), iprot.input);
        var ftype := iprot.Read(GetByte);
        if ftype.Err? { return Malformed; }
        if ftype.value == T_STOP { break; }
        var fid := iprot.Read(inp => GetInt(2, inp));
        if fid.Err? { return Malformed; }
        var ok := ReadField(iprot, fid.value, ftype.value);
        if !ok { return Malformed; }
      }
      status := Done;
    }

    /** Query.write: fields that are None are omitted. */
    method Write(oprot: TProtocol)
      requires Sized(Value())
      modifies oprot`output
      ensures oprot.output == old(oprot.output) + EncodeFields(FieldsOf(Value()))
      ensures oprot.output == old(oprot.output) + QueryBytes(Value())
    {
      hide EncodeField, EncodeFields, Body, WellFormedField, TypeOf, Sized;
      hide OpFields, TextFields, LongFields, IntFields, FieldsOf, QueryBytes;
      WireFormat(Value());
      EncodingOfFields(Value());
      ghost var p, out := Value(), oprot.output;
      ghost var (a, b, c, d) := (Body(OpFields(p)), Body(TextFields(p)), Body(LongFields(p)), Body(IntFields(p)));
      Appended(out, a, b, c, d, [T_STOP]);
      if op.Some? { WriteOp(oprot, op.value); }
      assert oprot.output == out + a;
      if strings.Some? { WriteList(oprot, 2, T_STRING, TextValues(strings.value)); }
      assert oprot.output == (out + a) + b;
      if ids.Some? { WriteList(oprot, 3, T_I64, LongValues(ids.value)); }
      assert oprot.output == ((out + a) + b) + c;
      if failures.Some? { WriteList(oprot, 4, T_I32, IntValues(failures.value)); }
      assert oprot.output == (((out + a) + b) + c) + d;
      oprot.Write([T_STOP]);
    }
  }

  /** Bytes appended one part after the other, absent parts being empty. */
  lemma Appended(out: seq<Byte>, a: seq<Byte>, b: seq<Byte>, c: seq<Byte>, d: seq<Byte>, e: seq<Byte>)
    ensures (((out + a) + b) + c) + d + e == out + (a + b + c + d + e)
    ensures out + [] == out && out + a + [] == out + a && out + a + b + [] == out + a + b
    ensures out + a + b + c + [] == out + a + b + c
  {
  }

  // ---- writers ----

  function TextValues(xs: seq<Str>): (vs: seq<TValue>)
    ensures |vs| == |xs| && (forall i | 0 <= i < |xs| :: vs[i] == Text(xs[i])) && Texts(vs) == xs
  {
    seq(|xs|, i requires 0 <= i < |xs| => Text(xs[i]))
  }

  function LongValues(xs: seq<NumID>): (vs: seq<TValue>)
    ensures |vs| == |xs| && (forall i | 0 <= i < |xs| :: vs[i] == I64(xs[i])) && Longs(vs) == xs
  {
    seq(|xs|, i requires 0 <= i < |xs| => I64(xs[i]))
  }

  function IntValues(xs: seq<Int32>): (vs: seq<TValue>)
    ensures |vs| == |xs| && (forall i | 0 <= i < |xs| :: vs[i] == I32(xs[i])) && Ints(vs) == xs
  {
    seq(|xs|, i requires 0 <= i < |xs| => I32(xs[i]))
  }

  /** All sizes fit the 32-bit size fields. */
  predicate Sized(p: Partial) {
    && (p.strings.Some? ==> |p.strings.value| <= MAX_32 && forall s | s in p.strings.value :: |s| <= MAX_32)
    && (p.ids.Some? ==> |p.ids.value| <= MAX_32)
    && (p.failures.Some? ==> |p.failures.value| <= MAX_32)
  }

  /** A C++ object as a field set: nothing is None. */
  function Full(q: Query): Partial {
    Partial(Some(q.op), Some(q.strings), Some(q.ids), Some(q.failures))
  }

  function ListField(id: int, et: Byte, vs: seq<TValue>): Field {
    Field(id, Elems(false, et, vs))
  }

  function OpFields(p: Partial): (fs: seq<Field>)
    requires Sized(p)
    ensures Readable(fs)
  {
    if p.op.Some? then
      var f := Field(1, I32(p.op.value));
      assert WellFormedField(f) && Declared(f);
      [f]
    else []
  }

  function TextFields(p: Partial): (fs: seq<Field>)
    requires Sized(p)
    ensures Readable(fs)
  {
    if p.strings.Some? then
      var f := ListField(2, T_STRING, TextValues(p.strings.value));
      assert WellFormedField(f) && Declared(f);
      [f]
    else []
  }

  function LongFields(p: Partial): (fs: seq<Field>)
    requires Sized(p)
    ensures Readable(fs)
  {
    if p.ids.Some? then
      var f := ListField(3, T_I64, LongValues(p.ids.value));
      assert WellFormedField(f) && Declared(f);
      [f]
    else []
  }

  function IntFields(p: Partial): (fs: seq<Field>)
    requires Sized(p)
    ensures Readable(fs)
  {
    if p.failures.Some? then
      var f := ListField(4, T_I32, IntValues(p.failures.value));
      assert WellFormedField(f) && Declared(f);
      [f]
    else []
  }

  /** The fields a writer emits, in order. */
  function FieldsOf(p: Partial): (fs: seq<Field>)
    requires Sized(p)
    ensures Readable(fs)
  {
    OpFields(p) + TextFields(p) + LongFields(p) + IntFields(p)
  }

  function Body(fs: seq<Field>): seq<Byte>
    requires forall f | f in fs :: WellFormedField(f)
  {
    if fs == [] then [] else EncodeField(fs[0]) + Body(fs[1..])
  }

  lemma {:induction false} BodyConcat(a: seq<Field>, b: seq<Field>)
    requires forall f | f in a + b :: WellFormedField(f)
    ensures (forall f | f in a :: WellFormedField(f)) && (forall f | f in b :: WellFormedField(f))
    ensures Body(a + b) == Body(a) + Body(b)
  {
    hide EncodeField, WellFormedField;
    assert forall f :: f in a + b <==> f in a || f in b;
    if a == [] {
      assert a + b == b;
    } else {
      assert (a + b)[0] == a[0] && (a + b)[1..] == a[1..] + b;
      BodyConcat(a[1..], b);
    }
  }

  lemma {:induction false} BodyThenStop(fs: seq<Field>)
    requires forall f | f in fs :: WellFormedField(f)
    ensures EncodeFields(fs) == Body(fs) + [T_STOP]
    decreases |fs|
  {
    hide EncodeField, WellFormedField;
    if fs != [] { BodyThenStop(fs[1..]); }
  }

  lemma BodyOne(f: Field)
    requires WellFormedField(f)
    ensures Body([f]) == EncodeField(f)
  {
    hide EncodeField, WellFormedField;
    assert Body([f]) == EncodeField(f) + Body([]);
  }

  // ---- the bytes of a Query ----

  function TextBytes(xs: seq<Str>): seq<Byte> {
    if xs == [] then [] else BigEndian(4, |xs[0]|) + xs[0] + TextBytes(xs[1..])
  }

  function NumberBytes(width: nat, xs: seq<int>): seq<Byte> {
    if xs == [] then [] else BigEndian(width, xs[0]) + NumberBytes(width, xs[1..])
  }

  /** Field 1 is an I32 (8), fields 2 to 4 are lists (15) of strings (11), I64 (10) and I32;
      each after its two-byte id, a list with its four-byte length; then a zero byte. */
  function QueryBytes(p: Partial): seq<Byte> {
    (if p.op.Some? then [8, 0, 1] + BigEndian(4, p.op.value) else [])
    + (if p.strings.Some? then
         [15, 0, 2, 11] + BigEndian(4, |p.strings.value|) + TextBytes(p.strings.value) else [])
    + (if p.ids.Some? then
         [15, 0, 3, 10] + BigEndian(4, |p.ids.value|) + NumberBytes(8, p.ids.value) else [])
    + (if p.failures.Some? then
         [15, 0, 4, 8] + BigEndian(4, |p.failures.value|) + NumberBytes(4, p.failures.value) else [])
    + [0]
  }

  lemma {:induction false} TextsInBytes(xs: seq<Str>)
    requires forall s | s in xs :: |s| <= MAX_32
    ensures (forall v | v in TextValues(xs) :: WellFormed(v)) && EncodeAll(TextValues(xs)) == TextBytes(xs)
  {
    hide BigEndian, Encode;
    if xs != [] {
      var vs := TextValues(xs);
      TextsInBytes(xs[1..]);
      assert vs[1..] == TextValues(xs[1..]);
      EncodingInBytes(vs[0]);
    }
  }

  lemma {:induction false} LongsInBytes(xs: seq<NumID>)
    ensures (forall v | v in LongValues(xs) :: WellFormed(v)) && EncodeAll(LongValues(xs)) == NumberBytes(8, xs)
  {
    hide BigEndian, Encode;
    if xs != [] {
      var vs := LongValues(xs);
      LongsInBytes(xs[1..]);
      assert vs[1..] == LongValues(xs[1..]);
      EncodingInBytes(vs[0]);
    }
  }

  lemma {:induction false} IntsInBytes(xs: seq<Int32>)
    ensures (forall v | v in IntValues(xs) :: WellFormed(v)) && EncodeAll(IntValues(xs)) == NumberBytes(4, xs)
  {
    hide BigEndian, Encode;
    if xs != [] {
      var vs := IntValues(xs);
      IntsInBytes(xs[1..]);
      assert vs[1..] == IntValues(xs[1..]);
      EncodingInBytes(vs[0]);
    }
  }

  lemma ListFieldInBytes(id: int, et: Byte, vs: seq<TValue>)
    requires WellFormedField(ListField(id, et, vs)) && 0 <= id < 256
    ensures |vs| <= MAX_32 && forall v | v in vs :: WellFormed(v)
    ensures EncodeField(ListField(id, et, vs)) == [15, 0, id, et] + BigEndian(4, |vs|) + EncodeAll(vs)
  {
    hide BigEndian, EncodeAll, Encode, EncodeField, Put16, Put32, WellFormedField, WellFormed;
    ListEncoding(id, et, vs);
    Put16InBytes(id);
    Put32InBytes(|vs|);
    TwoBytes(id);
    var (n, all) := (BigEndian(4, |vs|), EncodeAll(vs));
    assert ([15] + [0, id]) + (([et] + n) + all) == [15, 0, id, et] + n + all;
  }

  lemma TwoBytes(id: int)
    requires 0 <= id < 256
    ensures BigEndian(2, id) == [0, id]
  {
    assert Pow256(0) == 1 && Pow256(1) == 256 * Pow256(0);
  }

  /** The wire format of an object, in literal bytes. */
  lemma WireFormat(p: Partial)
    requires Sized(p)
    ensures EncodeFields(FieldsOf(p)) == QueryBytes(p)
  {
    hide EncodeFields, EncodeField, Body, WellFormedField, FieldsOf, OpFields, TextFields, LongFields, IntFields;
    hide BigEndian, TextBytes, NumberBytes, EncodeAll, TypeOf;
    EncodingOfFields(p);
    if p.op.Some? { OpInBytes(p.op.value); }
    if p.strings.Some? {
      ListFieldInBytes(2, T_STRING, TextValues(p.strings.value));
      TextsInBytes(p.strings.value);
    }
    if p.ids.Some? {
      ListFieldInBytes(3, T_I64, LongValues(p.ids.value));
      LongsInBytes(p.ids.value);
    }
    if p.failures.Some? {
      ListFieldInBytes(4, T_I32, IntValues(p.failures.value));
      IntsInBytes(p.failures.value);
    }
  }

  lemma OpInBytes(op: Int32)
    ensures WellFormedField(Field(1, I32(op))) && EncodeField(Field(1, I32(op))) == [8, 0, 1] + BigEndian(4, op)
  {
    hide BigEndian, Encode;
    FieldInBytes(Field(1, I32(op)));
    EncodingInBytes(I32(op));
    TwoBytes(1);
    assert [8] + [0, 1] + BigEndian(4, op) == [8, 0, 1] + BigEndian(4, op);
  }

  /** The encoding of an object, field by field. */
  lemma EncodingOfFields(p: Partial)
    requires Sized(p)
    ensures p.op.Some? ==>
              var f := Field(1, I32(p.op.value)); WellFormedField(f) && Body(OpFields(p)) == EncodeField(f)
    ensures p.strings.Some? ==>
              var f := ListField(2, T_STRING, TextValues(p.strings.value));
              WellFormedField(f) && Body(TextFields(p)) == EncodeField(f)
    ensures p.ids.Some? ==>
              var f := ListField(3, T_I64, LongValues(p.ids.value));
              WellFormedField(f) && Body(LongFields(p)) == EncodeField(f)
    ensures p.failures.Some? ==>
              var f := ListField(4, T_I32, IntValues(p.failures.value));
              WellFormedField(f) && Body(IntFields(p)) == EncodeField(f)
    ensures (p.op.None? ==> Body(OpFields(p)) == []) && (p.strings.None? ==> Body(TextFields(p)) == [])
    ensures (p.ids.None? ==> Body(LongFields(p)) == []) && (p.failures.None? ==> Body(IntFields(p)) == [])
    ensures EncodeFields(FieldsOf(p))
         == Body(OpFields(p)) + Body(TextFields(p)) + Body(LongFields(p)) + Body(IntFields(p)) + [T_STOP]
  {
    hide EncodeField, Declared, Body, EncodeFields;
    var fs := FieldsOf(p);
    assert forall f | f in fs :: WellFormedField(f);
    var (a, b, c, d) := (OpFields(p), TextFields(p), LongFields(p), IntFields(p));
    BodyThenStop(fs);
    BodyConcat(a + b + c, d);
    BodyConcat(a + b, c);
    BodyConcat(a, b);
    NoBody();
    if a != [] { BodyOne(a[0]); }
    if b != [] { BodyOne(b[0]); }
    if c != [] { BodyOne(c[0]); }
    if d != [] { BodyOne(d[0]); }
  }

  lemma NoBody()
    ensures Body([]) == []
  {
  }

  method WriteOp(oprot: TProtocol, op: Int32)
    modifies oprot`output
    ensures WellFormedField(Field(1, I32(op)))
    ensures oprot.output == old(oprot.output) + EncodeField(Field(1, I32(op)))
  {
    oprot.Write([T_I32] + Put16(1));
    oprot.Write(Put32(op));
  }

  lemma ListEncoding(id: int, et: Byte, vs: seq<TValue>)
    requires WellFormedField(ListField(id, et, vs))
    ensures |vs| <= MAX_32 && -0x8000 <= id < 0x8000 && forall v | v in vs :: WellFormed(v)
    ensures EncodeField(ListField(id, et, vs)) == ([T_LIST] + Put16(id)) + (([et] + Put32(|vs|)) + EncodeAll(vs))
  {
    hide Put16, Put32, EncodeAll;
  }

  method WriteList(oprot: TProtocol, id: int, et: Byte, vs: seq<TValue>)
    requires WellFormedField(ListField(id, et, vs))
    modifies oprot`output
    ensures oprot.output == old(oprot.output) + EncodeField(ListField(id, et, vs))
  {
    hide Put16, Put32, Encode, EncodeField, WellFormed, WellFormedField;
    ListEncoding(id, et, vs);
    oprot.Write([T_LIST] + Put16(id));
    oprot.Write([et] + Put32(|vs|));
    ghost var head := oprot.output;
    assert vs[..0] == [];
    for i := 0 to |vs|
      invariant oprot.output == head + EncodeAll(vs[..i])
    {
      assert vs[..i + 1] == vs[..i] + [vs[i]];
      EncodeAllSnoc(vs[..i], vs[i]);
      oprot.Write(Encode(vs[i]));
    }
    assert vs[..|vs|] == vs;
  }

  // ---- both readers on any well-formed field sequence ----

  /** What Query::read makes of an object `q0` and the bytes of a well-formed struct: each
      field is set to its last correctly typed occurrence, the cursor stops behind the
      struct, and the object is refused exactly if no operation occurs. */
  method CppReads(q0: Query, fs: seq<Field>, rest: seq<Byte>) returns (status: Status, q: Query, left: seq<Byte>)
    requires Readable(fs)
    ensures q == Assign(q0, Meaning(fs)) && left == rest
    ensures status == if forall f | f in fs :: !Is(f, 1, T_I32) then InvalidData else Done
  {
    hide GetFields, EncodeFields, Meaning, WellFormedField, Declared;
    FieldsMean(NOTHING, fs, rest);
    OverNothing(Meaning(fs));
    OperationMissing(fs);
    var received := new CppQuery.From(q0);
    var iprot := new TProtocol(EncodeFields(fs) + rest);
    status := received.Read(iprot);
    q, left := received.Value(), iprot.input;
  }

  /** The same of Query.read, which refuses nothing. */
  method PyReads(p0: Partial, fs: seq<Field>, rest: seq<Byte>) returns (status: Status, p: Partial, left: seq<Byte>)
    requires Readable(fs)
    ensures p == Over(Meaning(fs), p0) && left == rest && status == Done
  {
    hide GetFields, EncodeFields, Meaning, WellFormedField, Declared, Over;
    FieldsMean(p0, fs, rest);
    var received := new PyQuery(p0);
    var iprot := new TProtocol(EncodeFields(fs) + rest);
    status := received.Read(iprot);
    p, left := received.Value(), iprot.input;
  }

  lemma OverNothing(p: Partial)
    ensures Over(p, NOTHING) == p
  {
  }

  // ---- every reader inverts every writer ----

  /** What a writer emits means the object it was called on, None fields included. */
  lemma FieldsOfMean(p: Partial)
    requires Sized(p)
    ensures Meaning(FieldsOf(p)) == p
  {
    var (a, b, c, d) := (OpFields(p), TextFields(p), LongFields(p), IntFields(p));
    EachFieldMeans(p);
    hide Meaning, Texts, Longs, Ints, OpFields, TextFields, LongFields, IntFields;
    MeaningConcat(a + b + c, d);
    MeaningConcat(a + b, c);
    MeaningConcat(a, b);
  }

  lemma EachFieldMeans(p: Partial)
    requires Sized(p)
    ensures Meaning(OpFields(p)) == NOTHING.(op := p.op)
    ensures Meaning(TextFields(p)) == NOTHING.(strings := p.strings)
    ensures Meaning(LongFields(p)) == NOTHING.(ids := p.ids)
    ensures Meaning(IntFields(p)) == NOTHING.(failures := p.failures)
  {
    hide Texts, Longs, Ints;
  }

  /** Cross-codec round trip, both readers on the bytes of both writers (the C++ object
      `q` writes the fields `Full(q)`): each stops exactly where the writer stopped; the
      Python reader gets the written fields back, the C++ reader the same with fields
      Python left out as empty lists, and reports the operation missing iff it was None. */
  lemma ReadersInvertWriters(p: Partial, rest: seq<Byte>)
    requires Sized(p)
    ensures GetFields(NOTHING, EncodeFields(FieldsOf(p)) + rest) == Ok(p, rest)
    ensures Assign(DEFAULT, p) == Query(GetOr(p.op, 0), GetOr(p.strings, []), GetOr(p.ids, []), GetOr(p.failures, []))
    ensures forall q: Query | p == Full(q) :: Assign(DEFAULT, p) == q
  {
    hide GetFields, Meaning, FieldsOf;
    FieldsMean(NOTHING, FieldsOf(p), rest);
    FieldsOfMean(p);
  }

  /** One object sent each way: the bytes one side writes, read by the other. */
  method PyToCpp(p: Partial) returns (status: Status, q: Query)
    requires Sized(p)
    ensures q == Assign(DEFAULT, p) && status == if p.op.Some? then Done else InvalidData
  {
    hide GetFields, EncodeFields, FieldsOf, Sized;
    var sent := new PyQuery(p);
    var received := new CppQuery();
    var wire := new TProtocol([]);
    sent.Write(wire);
    ReadersInvertWriters(p, []);
    assert wire.output == EncodeFields(FieldsOf(p)) + [];
    wire := new TProtocol(wire.output);
    status := received.Read(wire);
    q := received.Value();
  }

  method CppToPy(q: Query) returns (status: Status, p: Partial)
    requires Sized(Full(q))
    ensures p == Full(q) && status == Done
  {
    hide GetFields, EncodeFields, FieldsOf, Sized;
    var sent := new CppQuery.From(q);
    var received := new PyQuery(NOTHING);
    var wire := new TProtocol([]);
    sent.Write(wire);
    ReadersInvertWriters(Full(q), []);
    assert wire.output == EncodeFields(FieldsOf(Full(q))) + [];
    wire := new TProtocol(wire.output);
    status := received.Read(wire);
    p := received.Value();
  }

  method CppToCpp(q: Query) returns (status: Status, q': Query)
    requires Sized(Full(q))
    ensures q' == q && status == Done
  {
    hide GetFields, EncodeFields, FieldsOf, Sized;
    var sent := new CppQuery.From(q);
    var received := new CppQuery();
    var wire := new TProtocol([]);
    sent.Write(wire);
    ReadersInvertWriters(Full(q), []);
    assert wire.output == EncodeFields(FieldsOf(Full(q))) + [];
    wire := new TProtocol(wire.output);
    status := received.Read(wire);
    q' := received.Value();
  }
}
