/** Dump followed by restore into an empty store, in both formats. */
module RoundTrip {
  import opened Bytes
  import opened Store
  import opened Service
  import opened Streams
  import opened BinaryFormat
  import opened TextFormat
  import opened DiskStorage

  // ---- for any visiting order ----

  /** The records of a binary dump, with the repeated last one, rebuild every key with
      its value cut to 32-bit size, in whatever order the store was visited. */
  lemma BinaryRecordsRebuild(db: Db, ks: seq<NumID>)
    requires Enumerates(ks, db) && ks != []
    ensures var cut := CutRecords(Records(db, ks));
            Put(map[], cut + [cut[|cut| - 1]]) == map k | k in db :: Cut32(db[k])
  {
    hide Cut32, Put;
    var cut := CutRecords(Records(db, ks));
    PutAgain(map[], cut);
    PutEnumeration(db, ks, cut, v => Cut32(v));
  }

  /** The lines of a text dump rebuild every key with its value cut at its first tab. */
  lemma TextLinesRebuild(db: Db, ks: seq<NumID>)
    requires Enumerates(ks, db) && forall k | k in db :: NEWLINE !in db[k]
    ensures var lines := Lines(TextDump(Records(db, ks)));
            && |lines| == |ks| && (forall i | 0 <= i < |lines| :: Complete(lines[i]))
            && Put(map[], LineRecords(lines)) == map k | k in db :: CutTab(db[k])
  {
    hide Lines, CutTab, TextDump, Put, Complete, LineRecord, IntText;
    var kvs := Records(db, ks);
    var lines := Lines(TextDump(kvs));
    var none: seq<Byte> := [];
    DumpLines(kvs, none);
    NoLines(none);
    assert TextDump(kvs) + none == TextDump(kvs) && none[|none|..] == none;
    forall i | 0 <= i < |lines|
      ensures Complete(lines[i]) && LineRecord(lines[i]) == KVPair(ks[i], CutTab(db[ks[i]]))
    {
      LineRoundTrip(kvs[i]);
    }
    PutEnumeration(db, ks, LineRecords(lines), v => CutTab(v));
  }

  // ---- the methods ----

  lemma SnapshotNonEmpty(db: Db)
    requires db != map[]
    ensures Snapshot(db) != []
  {
    hide Rank;
    var k :| k in db;
    IterationInOrder(db.Keys);
    assert k in Iteration(db.Keys);
  }

  lemma CutMapIsIdentity(db: Db)
    ensures (map k | k in db :: Cut32(db[k])) == db <==> forall k | k in db :: |db[k]| < TWO_32
    ensures (map k | k in db :: CutTab(db[k])) == db <==> forall k | k in db :: TAB !in db[k]
  {
    hide Cut32, CutTab;
    var cut, tab := map k | k in db :: Cut32(db[k]), map k | k in db :: CutTab(db[k]);
    forall k | k in db
      ensures cut[k] == db[k] <==> |db[k]| < TWO_32
      ensures tab[k] == db[k] <==> TAB !in db[k]
    {
      Cut32IsIdentity(db[k]);
      CutTabIsIdentity(db[k]);
    }
  }

  /** What restoring the dump of `db` leaves in an empty store. */
  lemma BinaryCopy(db: Db, last: KVPair, copy: Db)
    requires LastTurn(BinaryDump(Snapshot(db)), last)
    requires copy == Put(map[], Leading(BinaryDump(Snapshot(db)), 4) + [last])
    ensures db != map[] ==> copy == map k | k in db :: Cut32(db[k])
    ensures db == map[] ==> copy == map[last.key := []]
  {
    hide Rank, Iteration, InOrder, BinaryDump, Cut32, Put, CutRecords, Records, Leading, LeadingEnd, LastTurn;
    var kvs := Snapshot(db);
    LeadingOfDump(kvs, []);
    assert BinaryDump(kvs) + [] == BinaryDump(kvs);
    LastTurnOfDump(kvs, last);
    if db != map[] {
      IterationEnumerates(db);
      SnapshotNonEmpty(db);
      BinaryRecordsRebuild(db, Iteration(db.Keys));
    } else {
      NothingDumped(db);
      PutNone(map[]);
      PutSnoc(map[], [], last);
    }
  }

  /** numexport and numimport with the binary format, for any batch size. */
  method CopyBinary(src: DiskStorage, dst: DiskStorage, batchSize: nat := RESTORE_BATCH_SIZE)
    requires src != dst && dst.db == map[]
    modifies dst
    ensures src.db != map[] ==> dst.db == map k | k in src.db :: Cut32(src.db[k])
    ensures src.db == map[] ==> exists key: NumID :: dst.db == map[key := []]
    ensures dst.db == src.db <==> src.db != map[] && forall k | k in src.db :: |src.db[k]| < TWO_32
  {
    hide Snapshot, BinaryDump, MagicBytes, Cut32, Put, Leading, LastTurn;
    var out := src.Dump(true);
    var stream := new InStream(out);
    StartsWithMagic(Snapshot(src.db));
    var _, last, _ := dst.RestoreBinary(stream, batchSize);
    BinaryCopy(src.db, last, dst.db);
    CutMapIsIdentity(src.db);
    assert src.db == map[] ==> last.key in dst.db;
  }

  lemma NothingDumped(db: Db)
    requires db == map[]
    ensures Snapshot(db) == [] && CutRecords(Snapshot(db)) == []
  {
    hide Rank;
    assert Iteration(db.Keys) == [];
  }

  /** numexport and numimport with the text format, for any batch size. */
  method CopyText(src: DiskStorage, dst: DiskStorage, batchSize: nat := RESTORE_BATCH_SIZE) returns (ok: bool)
    requires src != dst && dst.db == map[] && batchSize > 0
    requires forall k | k in src.db :: NEWLINE !in src.db[k]
    modifies dst
    ensures ok && dst.db == map k | k in src.db :: CutTab(src.db[k])
    ensures dst.db == src.db <==> forall k | k in src.db :: TAB !in src.db[k]
  {
    hide Rank, Iteration, TextDump, Lines, CutTab, Put, Complete, GoodLine, LineRecord, Records;
    var out := src.Dump(false);
    var stream := new InStream(out);
    IterationEnumerates(src.db);
    TextLinesRebuild(src.db, Iteration(src.db.Keys));
    AllComplete(Lines(out));
    ghost var read, batches;
    ok, read, batches := dst.RestoreText(stream, batchSize);
    assert Lines(out)[..|Lines(out)|] == Lines(out);
    CutMapIsIdentity(src.db);
  }

  lemma AllComplete(lines: seq<Str>)
    requires forall i | 0 <= i < |lines| :: Complete(lines[i])
    ensures forall i | 0 <= i < |lines| :: GoodLine(lines[i])
    ensures forall l | l in lines && GoodLine(l) :: Complete(l)
  {
    hide GoodLine, Split;
  }

  /** numimport with the text format: on a bad line it keeps the batches of 10000 lines
      that were full before it. */
  method ImportText(dst: DiskStorage, data: seq<Byte>) returns (ok: bool, ghost read: nat, ghost batches: nat)
    requires forall l | l in Lines(data) && GoodLine(l) :: Complete(l)
    modifies dst
    ensures ok <==> forall l | l in Lines(data) :: GoodLine(l)
    ensures ok ==> Restored(old(dst.db), dst.db, Lines(data), |Lines(data)|)
    ensures !ok ==> read < |Lines(data)| && !GoodLine(Lines(data)[read])
    ensures !ok ==> forall i | 0 <= i < read :: GoodLine(Lines(data)[i])
    ensures !ok ==> RestoredBatches(old(dst.db), dst.db, Lines(data), read, 10000, batches)
  {
    hide Lines, GoodLine, Complete, Restored, RestoredBatches;
    var stream := new InStream(data);
    ok, read, batches := dst.RestoreText(stream);
  }
}
