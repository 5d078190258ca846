/** disk_storage.cpp: atomic batch writes, loading the index, lookups, dump and restore.
    LevelDB is a map with atomic batches and a fixed iteration order. */
module DiskStorage {
  import opened Bytes
  import opened Store
  import opened MemoryStorage
  import opened Service
  import opened Streams
  import opened BinaryFormat
  import opened TextFormat

  const RESTORE_BATCH_SIZE: nat := 10000

  /** `n` bytes of memory nobody wrote: the bytes of `junk` as far as they go. */
  function Unwritten(junk: seq<Byte>, n: nat): (m: seq<Byte>)
    ensures |m| == n
  {
    if n <= |junk| then junk[..n] else junk + seq(n - |junk|, _ => 0)
  }

  /** The buffer memory of one turn of the binary reader: key, size, and value bytes. */
  datatype Slots = Slots(key: seq<Byte>, size: seq<Byte>, buffer: seq<Byte>) {
    predicate Valid() {
      |key| == 8 && |size| == 4 && FromLe(size) <= |buffer|
    }

    function Record(): KVPair
      requires Valid()
    {
      KVPair(IdOf(key), buffer[..FromLe(size)])
    }
  }

  /** The fields of one turn, read over `slots` and the value memory `memory`. */
  ghost predicate Fields(data: seq<Byte>, pos: nat, slots: Slots, memory: seq<Byte>, got: seq<Byte>, slots': Slots) {
    && slots.Valid() && slots'.Valid() && pos <= |data|
    && slots'.key == Overlay(slots.key, Part(data, pos, pos + 8))
    && slots'.size == Overlay(slots.size, Part(data, pos + 8, pos + 12))
    && FromLe(slots'.size) <= |memory| && (FromLe(slots'.size) <= |slots.buffer| ==> memory == slots.buffer)
    && got == Part(data, pos + 12, pos + 12 + FromLe(slots'.size)) && slots'.buffer == Overlay(memory, got)
  }

  lemma ReadWhole(data: seq<Byte>, pos: nat, slots: Slots, memory: seq<Byte>, got: seq<Byte>, slots': Slots)
    requires Fields(data, pos, slots, memory, got, slots') && CompleteAt(data, pos)
    ensures slots'.Record() == RecordHere(data, pos)
  {
    hide FromLe, IdOf, ToLe, Overlay, Part;
  }

  lemma ReadStray(data: seq<Byte>, pos: nat, slots: Slots, memory: seq<Byte>, got: seq<Byte>, slots': Slots)
    requires Fields(data, pos, slots, memory, got, slots') && !CompleteAt(data, pos)
    ensures Stray(data, pos, slots.Record(), slots'.Record())
  {
    hide FromLe, IdOf, ToLe, Part, Overlay;
    SlotsOf(slots);
    var n := FromLe(slots'.size);
    OverlayPrefix(memory, got, n);
    if n <= FromLe(slots.size) {
      assert memory == slots.buffer;
      assert slots.Record().value[..n] == memory[..n];
    }
  }

  lemma OverlayPrefix(memory: seq<Byte>, got: seq<Byte>, n: nat)
    requires |got| <= n <= |memory|
    ensures Overlay(memory, got)[..n] == Overlay(memory[..n], got) && got <= Overlay(memory, got)[..n]
  {
  }

  /** The memory of a record, from the record. */
  lemma SlotsOf(slots: Slots)
    requires slots.Valid()
    ensures slots.key == IdBytes(slots.Record().key) && slots.size == ToLe(4, |slots.Record().value|)
  {
    ToFromLe(slots.size);
  }

  lemma EmptyRecord(slots: Slots)
    requires slots.Valid() && FromLe(slots.size) == 0
    ensures slots.Record().value == []
  {
  }

  class DiskStorage {
    var db: Db

    constructor ()
      ensures db == map[]
    {
      db := map[];
    }

    method Write(kvPairs: seq<KVPair>)
      modifies this
      ensures db == Put(old(db), kvPairs)
    {
      var batch := [];
      for i := 0 to |kvPairs|
        invariant batch == kvPairs[..i]
        invariant db == old(db)
      {
        batch := batch + [kvPairs[i]];
      }
      assert batch == kvPairs;
      db := Put(db, batch);
    }

    /** Loads every stored string over what the index holds; returns the largest id. */
    method LoadInMemory(storage: MemoryStorage) returns (maxId: NumID)
      modifies storage
      ensures storage.data == old(storage.data) + Rebuild(db)
      ensures maxId == MaxId(Iteration(db.Keys))
    {
      hide Rank, CStr, Iteration, InOrder, MaxId, LoadIndex;
      IterationInOrder(db.Keys);
      var it := Iteration(db.Keys);
      maxId := 0;
      LoadNone(db, it);
      for i := 0 to |it|
        invariant storage.data == old(storage.data) + LoadIndex(db, it[..i])
        invariant maxId == MaxId(it[..i])
      {
        var currentId := it[i];
        LoadSnoc(db, it, i);
        storage.Insert(db[currentId], currentId);
        if currentId > maxId {
          maxId := currentId;
        }
      }
      assert it[..|it|] == it;
    }

    method Lookup(keys: seq<NumID>) returns (values: seq<Str>, failures: seq<Int32>)
      requires |keys| <= MAX_32
      ensures values == LookupValues(db, keys) && failures == Missing(db, keys)
    {
      hide LookupValues, Missing;
      values, failures := [], [];
      LookupNone(db, keys);
      var failureIdx: Int32 := 0;
      for i := 0 to |keys|
        invariant failureIdx == i
        invariant values == LookupValues(db, keys[..i])
        invariant failures == Missing(db, keys[..i])
      {
        LookupSnoc(db, keys, i);
        if keys[i] in db {
          values := values + [db[keys[i]]];
        } else {
          failures := failures + [failureIdx];
          values := values + [[]];
        }
        failureIdx := failureIdx + 1;
      }
      assert keys[..|keys|] == keys;
    }

    method Dump(binaryDump: bool) returns (out: seq<Byte>)
      ensures out == if binaryDump then BinaryDump(Snapshot(db)) else TextDump(Snapshot(db))
    {
      hide Rank, Iteration, InOrder, RecordBytes, TextLine, MagicBytes, BinaryDump, TextDump;
      IterationInOrder(db.Keys);
      var it := Iteration(db.Keys);
      ghost var kvs := Snapshot(db);
      DumpNone(kvs);
      TextDumpNone(kvs);
      out := if binaryDump then MagicBytes() else [];
      for i := 0 to |it|
        invariant out == if binaryDump then BinaryDump(kvs[..i]) else TextDump(kvs[..i])
      {
        var kv := KVPair(it[i], db[it[i]]);
        DumpSnoc(kvs, i);
        TextDumpSnoc(kvs, i);
        out := out + if binaryDump then RecordBytes(kv) else TextLine(kv);
      }
      assert kvs[..|it|] == kvs;
    }

    /** One turn of the binary reader, over the memory left by the turn before: a whole
        record is read exactly; of anything less, what there is, setting eof. */
    static method ReadRecord(stream: InStream, slots: Slots) returns (slots': Slots)
      requires stream.Valid() && stream.Good() && slots.Valid()
      modifies stream
      ensures stream.Valid() && slots'.Valid() && (stream.failbit ==> stream.eofbit)
      ensures stream.pos >= old(stream.pos) && (!stream.eofbit <==> CompleteAt(stream.data, old(stream.pos)))
      ensures !stream.eofbit ==>
                && stream.pos == NextAt(stream.data, old(stream.pos))
                && slots'.Record() == RecordHere(stream.data, old(stream.pos))
      ensures stream.eofbit ==> Stray(stream.data, old(stream.pos), slots.Record(), slots'.Record())
    {
      hide FromLe, IdOf, ToLe, Stray, Slots.Record, RecordHere, Unwritten, Overlay;
      var key, size, buffer := slots.key, slots.size, slots.buffer;
      ghost var data, pos := stream.data, stream.pos;
      var got := stream.Read(8);
      assert got == Part(data, pos, pos + 8);
      key := Overlay(key, got);
      got := stream.Read(4);
      assert got == Part(data, pos + 8, pos + 12);
      size := Overlay(size, got);
      var valueSize := FromLe(size);
      if valueSize > |buffer| {
        var junk: seq<Byte> := *;
        buffer := Unwritten(junk, valueSize);
      }
      ghost var memory := buffer;
      got := stream.Read(valueSize);
      buffer := Overlay(buffer, got);
      slots' := Slots(key, size, buffer);
      assert got == Part(data, pos + 12, pos + 12 + valueSize);
      if CompleteAt(data, pos) {
        ReadWhole(data, pos, slots, memory, got, slots');
      } else {
        ReadStray(data, pos, slots, memory, got, slots');
      }
    }

    /** Queues one record and flushes a full batch. */
    method Queue(kvPairs: seq<KVPair>, kv: KVPair, batchSize: nat) returns (kvPairs': seq<KVPair>)
      modifies this
      ensures |kvPairs| + 1 >= batchSize ==> kvPairs' == [] && db == Put(old(db), kvPairs + [kv])
      ensures |kvPairs| + 1 < batchSize ==> kvPairs' == kvPairs + [kv] && db == old(db)
      ensures Put(db, kvPairs') == Put(old(db), kvPairs + [kv])
    {
      kvPairs' := kvPairs + [kv];
      if |kvPairs'| >= batchSize {
        Write(kvPairs');
        kvPairs' := [];
      }
    }

    /** Restores a binary dump, for any batch size. A stream with another first word is
        rejected unwritten. Any other overrides the store by one record a turn, in order:
        its whole records, and one more made of the bytes behind them. So the loop takes
        at least one and at most (size - 4) / 12 + 1 turns. */
    method RestoreBinary(stream: InStream, batchSize: nat := RESTORE_BATCH_SIZE)
      returns (ok: bool, ghost last: KVPair, ghost turns: nat)
      requires stream.Valid() && stream.Good() && stream.pos == 0
      modifies this, stream
      ensures ok <==> |stream.data| >= 4 && stream.data[..4] == MagicBytes()
      ensures !ok ==> db == old(db)
      ensures ok ==> db == Put(old(db), Leading(stream.data, 4) + [last]) && LastTurn(stream.data, last)
      ensures ok ==> turns == |Leading(stream.data, 4)| + 1 <= (|stream.data| - 4) / 12 + 1
      ensures !ok ==> turns == 0
    {
      hide MagicBytes, FromLe, Put, Slots.Record, CompleteAt, RecordHere, Stray, Leading, LastTurn, Reading;
      last, turns := KVPair(0, []), 0;
      var magic := Overlay([0, 0, 0, 0], []);
      var got := stream.Read(4);
      magic := Overlay(magic, got);
      MagicMatches(stream.data, magic);
      if magic != MagicBytes() {
        return false, last, 0;
      }
      ok := true;
      var junk: seq<Byte> := *;
      var slots := Slots(Unwritten(junk, 8), [0, 0, 0, 0], []);
      ZeroSize();
      EmptyRecord(slots);
      var kvPairs: seq<KVPair> := [];
      ghost var data, records := stream.data, [];
      StartsReading(data, slots.Record());
      while !stream.eofbit
        invariant stream.Valid() && slots.Valid() && (stream.failbit ==> stream.eofbit)
        invariant Put(db, kvPairs) == Put(old(db), records) && turns == |records|
        invariant !stream.eofbit ==> Reading(data, stream.pos, records, slots.Record())
        invariant stream.eofbit ==> records == Leading(data, 4) + [last] && LastTurn(data, last)
        decreases |data| - stream.pos + if stream.eofbit then 0 else 1
      {
        ghost var pos, before := stream.pos, slots.Record();
        slots := ReadRecord(stream, slots);
        var record := slots.Record();
        PutSnoc(old(db), records, record);
        PutSnoc(db, kvPairs, record);
        kvPairs := Queue(kvPairs, record, batchSize);
        if stream.eofbit {
          last := record;
          EndsReading(data, pos, records, before, last);
        } else {
          ReadsOn(data, pos, records, before);
        }
        records, turns := records + [record], turns + 1;
      }
      if |kvPairs| > 0 {
        Write(kvPairs);
      } else {
        PutNone(db);
      }
    }

    /** Restores a text dump, for any batch size. It succeeds exactly if the first item
        of every line is a 64-bit integer, and then overrides the store by the lines in
        order; otherwise the full batches before the offending line stay written. */
    method RestoreText(stream: InStream, batchSize: nat := RESTORE_BATCH_SIZE)
      returns (ok: bool, ghost read: nat, ghost batches: nat)
      requires stream.Valid() && stream.Good() && stream.pos == 0 && batchSize > 0
      requires forall l | l in Lines(stream.data) && GoodLine(l) :: Complete(l)
      modifies this, stream
      ensures var lines := Lines(stream.data);
              && read <= |lines| && (forall i | 0 <= i < read :: GoodLine(lines[i]))
              && (ok <==> read == |lines|) && (!ok ==> !GoodLine(lines[read]))
              && (ok ==> Restored(old(db), db, lines, read))
              && (!ok ==> RestoredBatches(old(db), db, lines, read, batchSize, batches))
    {
      hide Lines, UpTo, Split, ParseInt, Complete, Restored, RestoredBatches, FullBatches, Queued, Put;
      ghost var lines := Lines(stream.data);
      var kvPairs: seq<KVPair> := [];
      read, batches := 0, 0;
      assert stream.data[0..] == stream.data;
      ghost var flushed: nat := 0;
      NothingRestored(db, lines);
      NextBatch(0, 0, batchSize);
      while true
        invariant stream.Valid() && read <= |lines|
        invariant forall i | 0 <= i < read :: GoodLine(lines[i])
        invariant stream.Good() ==> lines[read..] == Lines(stream.data[stream.pos..])
        invariant !stream.Good() ==> read == |lines|
        invariant FullBatches(flushed, batches, batchSize) && |kvPairs| < batchSize
        invariant Restored(old(db), db, lines, flushed) && Queued(lines, flushed, read, kvPairs)
        invariant read == flushed + |kvPairs|
        decreases |stream.data| - stream.pos + if stream.Good() then 1 else 0
      {
        NoLines(stream.data);
        ghost var pos := stream.pos;
        var more, line := stream.GetLine();
        if !more {
          break;
        }
        NextLine(stream.data, pos, lines, read);
        var items := Split(line);
        var key := ParseInt(items[0]);
        if key.Bad? {
          StopsInBatch(old(db), db, lines, flushed, read, batchSize, batches);
          return false, read, batches;
        }
        QueueLine(lines, flushed, read, kvPairs);
        FlushLines(old(db), db, lines, flushed, read + 1, kvPairs + [KVPair(key.id, items[1])]);
        kvPairs := Queue(kvPairs, KVPair(key.id, items[1]), batchSize);
        read := read + 1;
        if kvPairs == [] {
          NextBatch(flushed, batches, batchSize);
          flushed, batches := read, batches + 1;
        }
      }
      FlushLines(old(db), db, lines, flushed, read, kvPairs);
      if |kvPairs| > 0 {
        Write(kvPairs);
      } else {
        PutNone(db);
      }
      ok := true;
    }
  }
}
