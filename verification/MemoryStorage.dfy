/** memory_storage.cpp: the in-memory index. A Judy SL array is a map whose keys are
    C strings. */
module MemoryStorage {
  import opened Bytes

  class MemoryStorage {
    var data: map<Str, NumID>

    constructor ()
      ensures data == map[]
    {
      data := map[];
    }

    predicate Empty()
      reads this
    {
      data == map[]
    }

    method Unload()
      modifies this
      ensures Empty()
    {
      data := map[];
    }

    /** Looks `s` up, or binds it to the counter, which the source takes by reference. */
    method Find(s: Str, counter: NumID) returns (inserted: bool, id: NumID, counter': NumID)
      requires CStr(s) !in data ==> counter < MAX_ID
      modifies this
      ensures inserted <==> CStr(s) !in old(data)
      ensures !inserted ==> data == old(data) && counter' == counter
      ensures inserted ==> data == old(data)[CStr(s) := counter] && counter' == counter + 1
      ensures CStr(s) in data && id == data[CStr(s)]
    {
      counter' := counter;
      if CStr(s) in data {
        id := data[CStr(s)];
        inserted := false;
      } else {
        id := counter';
        counter' := counter' + 1;
        data := data[CStr(s) := id];
        inserted := true;
      }
    }

    method Insert(s: Str, id: NumID)
      modifies this
      ensures data == old(data)[CStr(s) := id]
    {
      data := data[CStr(s) := id];
    }
  }
}
