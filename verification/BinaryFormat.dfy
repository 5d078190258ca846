/** The binary dump of disk_storage.cpp: the magic word and little-endian, length-prefixed
    records; what a dump holds byte by byte, and what the reader finds in any stream. */
module BinaryFormat {
  import opened Bytes
  import opened Store

  /** 0xdeadface, as its bytes lie in the file. */
  function MagicBytes(): (b: seq<Byte>)
    ensures b == [0xce, 0xfa, 0xad, 0xde]
  {
    assert 0xdeadface / 256 == 0xdeadfa && 0xdeadfa / 256 == 0xdead && 0xdead / 256 == 0xde && 0xde / 256 == 0;
    ToLe(4, 0xdeadface)
  }

  /** The magic word as read into four zero bytes: a shorter file cannot match. */
  lemma MagicMatches(data: seq<Byte>, magic: seq<Byte>)
    requires |magic| == 4
    requires if |data| >= 4 then magic == data[..4] else magic == data + [0, 0, 0, 0][|data|..]
    ensures magic == MagicBytes() <==> |data| >= 4 && data[..4] == MagicBytes()
  {
    if |data| < 4 {
      assert magic[3] == 0;
    }
  }

  lemma ZeroSize()
    ensures FromLe([0, 0, 0, 0]) == 0
  {
  }

  // ---- binary records ----

  /** The size field holds 32 bits, and only that many bytes follow it. */
  function Cut32(v: Str): Str {
    v[..|v| % TWO_32]
  }

  lemma Cut32Means(v: Str)
    ensures Cut32(v) <= v && |Cut32(v)| == |v| % 0x1_0000_0000
  {
  }

  lemma Cut32IsIdentity(v: Str)
    ensures Cut32(v) == v <==> |v| < TWO_32
  {
    if |v| >= TWO_32 {
      assert |Cut32(v)| < TWO_32;
    }
  }

  function RecordBytes(kv: KVPair): (b: seq<Byte>)
    ensures |b| == 12 + |Cut32(kv.value)|
  {
    IdBytes(kv.key) + ToLe(4, |kv.value| % TWO_32) + Cut32(kv.value)
  }

  /** The bytes of `kv` lie at `pos`. */
  ghost predicate RecordLies(data: seq<Byte>, pos: nat, kv: KVPair) {
    pos + |RecordBytes(kv)| <= |data| && data[pos..pos + |RecordBytes(kv)|] == RecordBytes(kv)
  }

  lemma RecordFields(data: seq<Byte>, pos: nat, kv: KVPair)
    requires RecordLies(data, pos, kv)
    ensures pos + |RecordBytes(kv)| <= |data| && |RecordBytes(kv)| == 12 + |Cut32(kv.value)|
    ensures IdOf(data[pos..pos + 8]) == kv.key
    ensures FromLe(data[pos + 8..pos + 12]) == |Cut32(kv.value)|
    ensures data[pos + 12..pos + 12 + |Cut32(kv.value)|] == Cut32(kv.value)
  {
    hide ToLe, FromLe, IdBytes, IdOf, Cut32;
    var end := pos + |RecordBytes(kv)|;
    ThreeParts(IdBytes(kv.key), ToLe(4, |kv.value| % TWO_32), Cut32(kv.value));
    SliceOfSlice(data, pos, end, 0, 8);
    SliceOfSlice(data, pos, end, 8, 12);
    SliceOfSlice(data, pos, end, 12, end - pos);
    IdRoundTrip(kv.key);
    SizeField(kv.value);
  }

  lemma SizeField(v: Str)
    ensures FromLe(ToLe(4, |v| % TWO_32)) == |Cut32(v)|
  {
    assert Pow256(4) == TWO_32;
    FromToLe(4, |v| % TWO_32);
  }

  function AllRecordBytes(kvs: seq<KVPair>): seq<Byte> {
    if kvs == [] then [] else AllRecordBytes(kvs[..|kvs| - 1]) + RecordBytes(kvs[|kvs| - 1])
  }

  function BinaryDump(kvs: seq<KVPair>): seq<Byte> {
    MagicBytes() + AllRecordBytes(kvs)
  }

  lemma DumpNone(kvs: seq<KVPair>)
    ensures BinaryDump(kvs[..0]) == MagicBytes()
  {
  }

  lemma DumpSnoc(kvs: seq<KVPair>, i: nat)
    requires i < |kvs|
    ensures BinaryDump(kvs[..i + 1]) == BinaryDump(kvs[..i]) + RecordBytes(kvs[i])
  {
    hide MagicBytes, RecordBytes;
    assert kvs[..i + 1][..i] == kvs[..i];
  }

  /** What a binary dump keeps of each record. */
  function CutRecords(kvs: seq<KVPair>): (cut: seq<KVPair>)
    ensures |cut| == |kvs|
    ensures forall i | 0 <= i < |kvs| :: cut[i] == KVPair(kvs[i].key, Cut32(kvs[i].value))
  {
    seq(|kvs|, i requires 0 <= i < |kvs| => KVPair(kvs[i].key, Cut32(kvs[i].value)))
  }

  /** The i-th record of a dump lies behind those before it. */
  lemma {:induction false} RecordAt(kvs: seq<KVPair>, i: nat)
    requires i < |kvs|
    ensures RecordLies(BinaryDump(kvs), |BinaryDump(kvs[..i])|, kvs[i])
    ensures |BinaryDump(kvs[..i + 1])| == |BinaryDump(kvs[..i])| + |RecordBytes(kvs[i])|
    decreases |kvs|
  {
    hide RecordBytes, MagicBytes;
    var init := kvs[..|kvs| - 1];
    assert BinaryDump(kvs) == BinaryDump(init) + RecordBytes(kvs[|kvs| - 1]);
    if i < |init| {
      RecordAt(init, i);
      assert init[..i + 1] == kvs[..i + 1] && init[..i] == kvs[..i];
    } else {
      assert kvs[..i + 1] == kvs && kvs[..i] == init;
    }
  }

  /** A record in the file, byte by byte: the 8 bytes of its key and the 4 bytes of its
      value size, least significant first, then the value's first `size` bytes. */
  ghost predicate LaidOut(data: seq<Byte>, pos: nat, kv: KVPair) {
    var size := |kv.value| % 0x1_0000_0000;
    && pos + 12 + size <= |data|
    && (forall b | 0 <= b < 8 :: data[pos + b] == (kv.key / Pow256(b)) % 256)
    && (forall b | 0 <= b < 4 :: data[pos + 8 + b] == (size / Pow256(b)) % 256)
    && data[pos + 12..pos + 12 + size] == kv.value[..size]
  }

  /** The file starts with the magic word, and its records follow one another. */
  lemma DumpInBytes(kvs: seq<KVPair>, i: nat)
    requires i < |kvs|
    ensures |BinaryDump(kvs)| >= 4 && BinaryDump(kvs)[..4] == [0xce, 0xfa, 0xad, 0xde]
    ensures |BinaryDump(kvs[..0])| == 4
    ensures |BinaryDump(kvs[..i + 1])| == |BinaryDump(kvs[..i])| + 12 + |kvs[i].value| % 0x1_0000_0000
    ensures LaidOut(BinaryDump(kvs), |BinaryDump(kvs[..i])|, kvs[i])
  {
    hide AllRecordBytes, RecordBytes, BinaryDump, LaidOut, Cut32;
    RecordAt(kvs, i);
    DumpNone(kvs);
    StartsWithMagic(kvs);
    Cut32Means(kvs[i].value);
    LiesLaidOut(BinaryDump(kvs), |BinaryDump(kvs[..i])|, kvs[i]);
  }

  lemma LiesLaidOut(data: seq<Byte>, pos: nat, kv: KVPair)
    requires RecordLies(data, pos, kv)
    ensures LaidOut(data, pos, kv)
  {
    hide RecordBytes, Pow256;
    RecordInBytes(kv);
    var r := RecordBytes(kv);
    assert data[pos..pos + |r|] == r;
    forall b | 0 <= b < |r| ensures data[pos + b] == r[b] {
      assert data[pos..pos + |r|][b] == r[b];
    }
    SliceOfSlice(data, pos, pos + |r|, 12, |r|);
  }

  lemma RecordInBytes(kv: KVPair)
    ensures var (r, size) := (RecordBytes(kv), |kv.value| % TWO_32);
            && |r| == 12 + size && r[12..] == kv.value[..size]
            && (forall b | 0 <= b < 8 :: r[b] == (kv.key / Pow256(b)) % 256)
            && (forall b | 0 <= b < 4 :: r[8 + b] == (size / Pow256(b)) % 256)
  {
    hide ToLe, IdBytes, Pow256;
    var size := |kv.value| % TWO_32;
    IdBytesAt(kv.key);
    forall b | 0 <= b < 4 ensures ToLe(4, size)[b] == (size / Pow256(b)) % 256 {
      ToLeAt(4, size, b);
    }
    ThreeParts(IdBytes(kv.key), ToLe(4, size), Cut32(kv.value));
  }

  lemma StartsWithMagic(kvs: seq<KVPair>)
    ensures |BinaryDump(kvs)| >= 4 && BinaryDump(kvs)[..4] == MagicBytes()
  {
    hide AllRecordBytes;
  }

  // ---- reading any stream of records ----

  /** A whole record, by its own size field, lies at `pos`. */
  predicate CompleteAt(data: seq<Byte>, pos: nat) {
    pos + 12 <= |data| && pos + 12 + FromLe(data[pos + 8..pos + 12]) <= |data|
  }

  function NextAt(data: seq<Byte>, pos: nat): (next: nat)
    requires CompleteAt(data, pos)
    ensures pos + 12 <= next <= |data|
  {
    pos + 12 + FromLe(data[pos + 8..pos + 12])
  }

  function RecordHere(data: seq<Byte>, pos: nat): KVPair
    requires CompleteAt(data, pos)
  {
    KVPair(IdOf(data[pos..pos + 8]), data[pos + 12..NextAt(data, pos)])
  }

  /** The whole records from `pos` on. */
  function Leading(data: seq<Byte>, pos: nat): (kvs: seq<KVPair>)
    ensures pos <= |data| ==> pos + 12 * |kvs| <= |data|
    decreases |data| - pos
  {
    if CompleteAt(data, pos) then [RecordHere(data, pos)] + Leading(data, NextAt(data, pos)) else []
  }

  /** Where the whole records from `pos` on end. */
  function LeadingEnd(data: seq<Byte>, pos: nat): (end: nat)
    ensures pos <= |data| ==> pos <= end <= |data| && !CompleteAt(data, end)
    decreases |data| - pos
  {
    if CompleteAt(data, pos) then LeadingEnd(data, NextAt(data, pos)) else pos
  }

  /** `memory` after its first bytes were overwritten. */
  function Overlay(memory: seq<Byte>, got: seq<Byte>): (m: seq<Byte>)
    requires |got| <= |memory|
    ensures |m| == |memory| && m[..|got|] == got
    ensures |got| == |memory| ==> m == got
    ensures got == [] ==> m == memory
  {
    got + memory[|got|..]
  }

  /** As much of `data[from..to]` as there is. */
  function Part(data: seq<Byte>, from: nat, to: nat): (part: seq<Byte>)
    requires from <= to
    ensures |part| <= to - from
    ensures to <= |data| ==> part == data[from..to]
    ensures |data| <= from ==> part == []
  {
    if |data| <= from then [] else if |data| < to then data[from..] else data[from..to]
  }

  /** What the last turn makes of the bytes from `pos` on, less than a whole record, over
      the memory that held `before`: each field keeps the old bytes the stream no longer
      provides. A value that outgrows the old one ends in bytes nobody wrote. */
  ghost predicate Stray(data: seq<Byte>, pos: nat, before: KVPair, last: KVPair) {
    && last.key == IdOf(Overlay(IdBytes(before.key), Part(data, pos, pos + 8)))
    && |last.value| == FromLe(Overlay(ToLe(4, |before.value|), Part(data, pos + 8, pos + 12)))
    && var got := Part(data, pos + 12, pos + 12 + |last.value|);
       && got <= last.value
       && (|last.value| <= |before.value| ==> last.value == Overlay(before.value[..|last.value|], got))
  }

  /** `last` is what the last turn makes of the bytes behind the whole records: over the
      last of these or, without any, over a key nobody wrote and an empty value. */
  ghost predicate LastTurn(data: seq<Byte>, last: KVPair) {
    var whole := Leading(data, 4);
    exists before: KVPair ::
      && (if whole == [] then before.value == [] else before == whole[|whole| - 1])
      && Stray(data, LeadingEnd(data, 4), before, last)
  }

  /** The reader at `pos` has found `records` so far; its memory holds `before`. */
  ghost predicate Reading(data: seq<Byte>, pos: nat, records: seq<KVPair>, before: KVPair) {
    && pos <= |data|
    && Leading(data, 4) == records + Leading(data, pos) && LeadingEnd(data, 4) == LeadingEnd(data, pos)
    && if records == [] then before.value == [] else before == records[|records| - 1]
  }

  lemma StartsReading(data: seq<Byte>, before: KVPair)
    requires |data| >= 4 && before.value == []
    ensures Reading(data, 4, [], before)
    ensures |Leading(data, 4)| <= (|data| - 4) / 12
  {
    hide CompleteAt;
  }

  lemma LeadingStep(data: seq<Byte>, pos: nat)
    requires CompleteAt(data, pos)
    ensures Leading(data, pos) == [RecordHere(data, pos)] + Leading(data, NextAt(data, pos))
    ensures LeadingEnd(data, pos) == LeadingEnd(data, NextAt(data, pos))
  {
    hide CompleteAt, RecordHere, NextAt;
  }

  lemma ReadsOn(data: seq<Byte>, pos: nat, records: seq<KVPair>, before: KVPair)
    requires Reading(data, pos, records, before) && CompleteAt(data, pos)
    ensures Reading(data, NextAt(data, pos), records + [RecordHere(data, pos)], RecordHere(data, pos))
  {
    hide CompleteAt, RecordHere, NextAt, Leading, LeadingEnd;
    LeadingStep(data, pos);
    var r, rest := RecordHere(data, pos), Leading(data, NextAt(data, pos));
    assert records + ([r] + rest) == (records + [r]) + rest;
  }

  lemma EndsReading(data: seq<Byte>, pos: nat, records: seq<KVPair>, before: KVPair, last: KVPair)
    requires Reading(data, pos, records, before) && !CompleteAt(data, pos)
    requires Stray(data, pos, before, last)
    ensures records == Leading(data, 4) && LastTurn(data, last)
  {
    hide CompleteAt, Stray;
    assert Leading(data, pos) == [] && LeadingEnd(data, pos) == pos;
  }

  /** With no bytes left the last record comes out again. */
  lemma NothingStray(data: seq<Byte>, before: KVPair, last: KVPair)
    requires Stray(data, |data|, before, last) && |before.value| < TWO_32
    ensures last == before
  {
    assert Pow256(4) == TWO_32;
    FromToLe(4, |before.value|);
    IdRoundTrip(before.key);
  }

  lemma RecordLiesComplete(data: seq<Byte>, pos: nat, kv: KVPair)
    requires RecordLies(data, pos, kv)
    ensures CompleteAt(data, pos) && NextAt(data, pos) == pos + |RecordBytes(kv)|
    ensures RecordHere(data, pos) == KVPair(kv.key, Cut32(kv.value))
  {
    hide RecordBytes, RecordLies, FromLe, IdOf, Cut32;
    RecordFields(data, pos, kv);
  }

  lemma RecordLiesLonger(data: seq<Byte>, longer: seq<Byte>, pos: nat, kv: KVPair)
    requires data <= longer && RecordLies(data, pos, kv)
    ensures RecordLies(longer, pos, kv)
  {
    hide RecordBytes;
    var end := pos + |RecordBytes(kv)|;
    assert longer[pos..end] == data[pos..end];
  }

  /** Whatever follows a dump, its records come first. */
  lemma {:induction false} DumpLeads(kvs: seq<KVPair>, data: seq<Byte>, i: nat)
    requires i <= |kvs| && BinaryDump(kvs) <= data
    ensures Leading(data, |BinaryDump(kvs[..i])|)
         == CutRecords(kvs)[i..] + Leading(data, |BinaryDump(kvs)|)
    ensures LeadingEnd(data, |BinaryDump(kvs[..i])|) == LeadingEnd(data, |BinaryDump(kvs)|)
    decreases |kvs| - i
  {
    hide BinaryDump, RecordBytes, RecordLies, CompleteAt, NextAt, RecordHere;
    if i == |kvs| {
      assert kvs[..i] == kvs && CutRecords(kvs)[i..] == [];
    } else {
      var pos := |BinaryDump(kvs[..i])|;
      RecordAt(kvs, i);
      RecordLiesLonger(BinaryDump(kvs), data, pos, kvs[i]);
      RecordLiesComplete(data, pos, kvs[i]);
      DumpLeads(kvs, data, i + 1);
      assert CutRecords(kvs)[i..] == [CutRecords(kvs)[i]] + CutRecords(kvs)[i + 1..];
    }
  }

  /** The records of a dump, and nothing else, are read from it. */
  lemma LeadingOfDump(kvs: seq<KVPair>, tail: seq<Byte>)
    ensures var data := BinaryDump(kvs) + tail;
            && Leading(data, 4) == CutRecords(kvs) + Leading(data, |BinaryDump(kvs)|)
            && LeadingEnd(data, 4) == LeadingEnd(data, |BinaryDump(kvs)|)
            && (tail == [] ==> Leading(data, 4) == CutRecords(kvs) && LeadingEnd(data, 4) == |data|)
  {
    hide CompleteAt, RecordBytes, AllRecordBytes;
    var data := BinaryDump(kvs) + tail;
    DumpLeads(kvs, data, 0);
    DumpNone(kvs);
    assert CutRecords(kvs)[0..] == CutRecords(kvs);
    NothingComplete(data);
  }

  /** The last turn behind a dump repeats its last record, if it has any. */
  lemma LastTurnOfDump(kvs: seq<KVPair>, last: KVPair)
    requires LastTurn(BinaryDump(kvs), last)
    ensures if kvs == [] then last.value == [] else last == CutRecords(kvs)[|kvs| - 1]
  {
    hide Leading, LeadingEnd, Stray, BinaryDump;
    LeadingOfDump(kvs, []);
    var data := BinaryDump(kvs);
    assert data + [] == data;
    var before: KVPair :|
      && (if kvs == [] then before.value == [] else before == CutRecords(kvs)[|kvs| - 1])
      && Stray(data, |data|, before, last);
    NothingStray(data, before, last);
  }

  /** Conversely the whole records the reader finds in any stream with the magic word are
      those whose dump the stream begins with. */
  lemma LeadingIsDump(data: seq<Byte>)
    requires |data| >= 4 && data[..4] == MagicBytes()
    ensures var kvs := Leading(data, 4);
            && BinaryDump(kvs) == data[..LeadingEnd(data, 4)] && CutRecords(kvs) == kvs
  {
    hide MagicBytes;
    LeadingFrom(data, 4);
    var end := LeadingEnd(data, 4);
    assert data[..4] + data[4..end] == data[..end];
  }

  lemma {:induction false} LeadingFrom(data: seq<Byte>, pos: nat)
    requires pos <= |data|
    ensures AllRecordBytes(Leading(data, pos)) == data[pos..LeadingEnd(data, pos)]
    ensures CutRecords(Leading(data, pos)) == Leading(data, pos)
    decreases |data| - pos
  {
    hide CompleteAt, RecordHere, NextAt, RecordBytes, AllRecordBytes, Cut32;
    if CompleteAt(data, pos) {
      var (r, next, end) := (RecordHere(data, pos), NextAt(data, pos), LeadingEnd(data, pos));
      var rest := Leading(data, next);
      LeadingFrom(data, next);
      LeadingStep(data, pos);
      CompleteIsRecord(data, pos);
      AllRecordBytesCons(r, rest);
      assert data[pos..next] + data[next..end] == data[pos..end];
    } else {
      NoRecordBytes();
    }
  }

  lemma NoRecordBytes()
    ensures AllRecordBytes([]) == []
  {
  }

  lemma {:induction false} AllRecordBytesCons(kv: KVPair, kvs: seq<KVPair>)
    ensures AllRecordBytes([kv] + kvs) == RecordBytes(kv) + AllRecordBytes(kvs)
    decreases |kvs|
  {
    hide RecordBytes;
    var all := [kv] + kvs;
    if kvs == [] {
      assert all[..|all| - 1] == [];
    } else {
      var init := kvs[..|kvs| - 1];
      AllRecordBytesCons(kv, init);
      assert all[..|all| - 1] == [kv] + init && all[|all| - 1] == kvs[|kvs| - 1];
    }
  }

  lemma CompleteIsRecord(data: seq<Byte>, pos: nat)
    requires CompleteAt(data, pos)
    ensures RecordBytes(RecordHere(data, pos)) == data[pos..NextAt(data, pos)]
    ensures Cut32(RecordHere(data, pos).value) == RecordHere(data, pos).value
  {
    hide FromLe, ToLe, IdBytes, IdOf;
    var (size, next) := (data[pos + 8..pos + 12], NextAt(data, pos));
    assert Pow256(4) == TWO_32;
    ToFromLe(size);
    var v := data[pos + 12..next];
    assert |v| == FromLe(size) < TWO_32 && v[..|v|] == v;
    assert data[pos..pos + 8] + size + v == data[pos..next];
  }

  lemma NothingComplete(data: seq<Byte>)
    ensures Leading(data, |data|) == [] && LeadingEnd(data, |data|) == |data|
  {
  }
}
