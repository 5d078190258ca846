/** numerator.cpp: the handler of one process. Every method is one serialised
    operation; `Interleaving` models what threads do between storage calls. */
module Numerator {
  import opened Bytes
  import opened Store
  import opened MemoryStorage
  import opened DiskStorage
  import opened Service

  class NumeratorHandler {
    const memory: MemoryStorage
    const disk: DiskStorage
    var disableS2iQueries: bool
    var cnt: NumID

    /** The process state as a value. */
    ghost function Process(): State
      reads this, memory, disk
    {
      State(disk.db, memory.data, cnt, disableS2iQueries)
    }

    /** The boot sequence of `main`, with or without `-S`. */
    constructor (disk: DiskStorage, noS2i: bool)
      requires Bootable(disk.db, noS2i)
      ensures this.disk == disk && fresh(memory)
      ensures Process() == Boot(disk.db, noS2i)
      ensures disableS2iQueries == noS2i && (noS2i ==> memory.Empty() && cnt == 0)
    {
      this.disk := disk;
      var storage := new MemoryStorage();
      var counter: NumID := 0;
      if !noS2i {
        counter := disk.LoadInMemory(storage);
        counter := counter + 1;
      }
      this.memory := storage;
      this.cnt := counter;
      this.disableS2iQueries := noS2i;
    }

    method DisableS2i()
      modifies this, memory
      ensures Process() == Disable(old(Process()))
      ensures disableS2iQueries && (memory.Empty() || memory.data == old(memory.data))
      ensures !old(disableS2iQueries) ==> memory.Empty()
    {
      if !disableS2iQueries {
        memory.Unload();
        disableS2iQueries := true;
      }
    }

    method EnableS2i()
      modifies this, memory
      ensures Process() == Enable(old(Process()))
      ensures !disableS2iQueries && cnt == old(cnt)
    {
      if disableS2iQueries {
        var _ := disk.LoadInMemory(memory);
        disableS2iQueries := false;
      }
    }

    /** The STR2ID loop of `query_impl`, up to the batch write. */
    method FindIds(strings: seq<Str>) returns (ids: seq<NumID>, kvPairs: seq<KVPair>)
      requires cnt + |strings| <= MAX_ID
      modifies this`cnt, memory
      ensures Batch(memory.data, cnt, ids, kvPairs) == FindAll(old(memory.data), old(cnt), strings)
    {
      hide CStr;
      ids, kvPairs := [], [];
      for i := 0 to |strings|
        invariant cnt + |strings| - i <= MAX_ID
        invariant Batch(memory.data, cnt, ids, kvPairs)
               == FindAll(old(memory.data), old(cnt), strings[..i])
      {
        var str := strings[i];
        assert strings[..i + 1] == strings[..i] + [str];
        FindAllSnoc(old(memory.data), old(cnt), strings[..i], str);
        var inserted, id, counter := memory.Find(str, cnt);
        cnt := counter;
        if inserted {
          kvPairs := kvPairs + [KVPair(id, str)];
        }
        ids := ids + [id];
      }
      assert strings[..|strings|] == strings;
    }

    method QueryImpl(request: Query) returns (reply: Reply)
      requires Fits(Process(), request)
      modifies this, memory, disk
      ensures (Process(), reply) == Serve(old(Process()), request)
    {
      hide CStr, FindAll, FindOne, Put, LookupValues, Missing;
      var strings: seq<Str>, ids: seq<NumID>, failures: seq<Int32> := [], [], [];
      if request.op == ID2STR {
        strings, failures := disk.Lookup(request.ids);
      } else if request.op == STR2ID {
        if disableS2iQueries {
          return Rejected(STR2ID_QUERIES_DISABLED);
        }
        var kvPairs;
        ids, kvPairs := FindIds(request.strings);
        disk.Write(kvPairs);
      }
      reply := Answered(Query(request.op, strings, ids, failures));
    }
  }
}
