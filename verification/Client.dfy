/** client.py and numeratorcli.cpp: batching the lines of a file into queries and
    decoding the replies. A call of the handler stands for the RPC. */
module Client {
  import opened Bytes
  import opened Store
  import opened Service
  import opened Numerator
  import opened Thrift
  import opened QueryCodec

  const SIZE_MAX: nat := 0xffff_ffff_ffff_ffff

  /** One output line of a lookup. */
  datatype Shown = NotFound | Found(s: Str)

  /** What the store holds for an id. */
  function Stored(db: Db, id: NumID): Shown {
    if id in db then Found(db[id]) else NotFound
  }

  function AllStored(db: Db, ids: seq<NumID>): (shown: seq<Shown>)
    ensures |shown| == |ids|
    ensures forall i | 0 <= i < |ids| :: shown[i] == Stored(db, ids[i])
  {
    seq(|ids|, i requires 0 <= i < |ids| => Stored(db, ids[i]))
  }

  lemma AllStoredConcat(db: Db, xs: seq<NumID>, ys: seq<NumID>)
    ensures AllStored(db, xs + ys) == AllStored(db, xs) + AllStored(db, ys)
  {
  }

  /** What a fresh STR2ID request for all the lines would answer. */
  function AllIds(st: State, lines: seq<Str>): (r: (State, seq<NumID>))
    requires !st.disabled && st.cnt + |lines| <= MAX_ID
    ensures |r.1| == |lines| && r.0.cnt <= st.cnt + |lines| && !r.0.disabled
  {
    var (st', reply) := Serve(st, Query(STR2ID, lines, [], []));
    (st', reply.response.ids)
  }

  lemma AllIdsConcat(st: State, xs: seq<Str>, ys: seq<Str>)
    requires !st.disabled && st.cnt + |xs| + |ys| <= MAX_ID
    ensures AllIds(st, xs + ys) == (AllIds(AllIds(st, xs).0, ys).0, AllIds(st, xs).1 + AllIds(AllIds(st, xs).0, ys).1)
  {
    ServeConcat(st, xs, ys);
  }

  // ---- decoding a lookup ----

  /** client.py: walks the requested ids. */
  method DecodePy(ids: seq<NumID>, response: Query) returns (shown: seq<Shown>)
    requires |response.strings| == |ids|
    ensures |shown| == |ids|
    ensures forall i | 0 <= i < |ids| ::
              shown[i] == if i in response.failures then NotFound else Found(response.strings[i])
  {
    var failures := set f | f in response.failures;
    shown := [];
    for idx := 0 to |ids|
      invariant |shown| == idx
      invariant forall i | 0 <= i < idx ::
                  shown[i] == if i in response.failures then NotFound else Found(response.strings[i])
    {
      if idx in failures {
        shown := shown + [NotFound];
      } else {
        shown := shown + [Found(response.strings[idx])];
      }
    }
  }

  /** numeratorcli.cpp: walks the returned strings with a 32-bit index. */
  method DecodeCpp(response: Query) returns (shown: seq<Shown>)
    requires |response.strings| <= MAX_32
    ensures |shown| == |response.strings|
    ensures forall i | 0 <= i < |shown| ::
              shown[i] == if i in response.failures then NotFound else Found(response.strings[i])
  {
    var idx: Int32 := 0;
    var failures := set f | f in response.failures;
    shown := [];
    for k := 0 to |response.strings|
      invariant idx == k && |shown| == k
      invariant forall i | 0 <= i < k ::
                  shown[i] == if i in response.failures then NotFound else Found(response.strings[i])
    {
      shown := shown + [if idx in failures then NotFound else Found(response.strings[k])];
      idx := idx + 1;
    }
  }

  // ---- one exchange over the wire ----

  /** A Python client's query to the C++ server and the response back, on the bytes both
      sides write and read: the server serves the request with omitted fields empty, and
      the client receives exactly the response. */
  method Exchange(server: NumeratorHandler, request: Partial) returns (reply: Reply, received: Partial)
    requires request.op.Some? && Sized(request) && Fits(server.Process(), Assign(DEFAULT, request))
    requires forall k | k in server.disk.db :: |server.disk.db[k]| <= MAX_32
    modifies server, server.memory, server.disk
    ensures (server.Process(), reply) == Serve(old(server.Process()), Assign(DEFAULT, request))
    ensures reply.Answered? ==> received == Full(reply.response)
  {
    hide Serve, Sized;
    var status, query := PyToCpp(request);
    SizedWhenRead(request);
    ResponseSized(server.Process(), query);
    reply := server.QueryImpl(query);
    received := NOTHING;
    if reply.Answered? {
      status, received := CppToPy(reply.response);
    }
  }

  lemma SizedWhenRead(p: Partial)
    requires Sized(p)
    ensures Sized(Full(Assign(DEFAULT, p)))
  {
  }

  /** A response to a sized request is sized. */
  lemma ResponseSized(st: State, req: Query)
    requires Fits(st, req) && Sized(Full(req)) && forall k | k in st.db :: |st.db[k]| <= MAX_32
    ensures var r := Serve(st, req).1; r.Answered? ==> Sized(Full(r.response))
  {
    hide FindAll, Put;
    if req.op == ID2STR { MissingIsShort(st.db, req.ids); }
  }

  lemma {:induction false} MissingIsShort(db: Db, ids: seq<NumID>)
    requires |ids| <= MAX_32
    ensures |Missing(db, ids)| <= |ids|
  {
    if ids != [] { MissingIsShort(db, ids[..|ids| - 1]); }
  }

  // ---- client.py ----

  /** `do_query` for ids; the decoded reply is the pointwise lookup, a stored empty
      string told apart from a missing id. */
  method QueryIdsPy(server: NumeratorHandler, ids: seq<NumID>) returns (shown: seq<Shown>)
    requires |ids| <= MAX_32
    modifies server, server.memory, server.disk
    ensures server.Process() == old(server.Process())
    ensures shown == AllStored(server.disk.db, ids)
  {
    var reply := server.QueryImpl(Query(ID2STR, [], ids, []));
    shown := DecodePy(ids, reply.response);
  }

  /** The same of numeratorcli.cpp. */
  method QueryIdsCpp(server: NumeratorHandler, ids: seq<NumID>) returns (shown: seq<Shown>)
    requires |ids| <= MAX_32
    modifies server, server.memory, server.disk
    ensures server.Process() == old(server.Process())
    ensures shown == AllStored(server.disk.db, ids)
  {
    var reply := server.QueryImpl(Query(ID2STR, [], ids, []));
    shown := DecodeCpp(reply.response);
  }

  /** `do_query` for strings; a rejection reaches the client as an exception. */
  method QueryStrings(server: NumeratorHandler, strings: seq<Str>) returns (ok: bool, ids: seq<NumID>)
    requires !server.disableS2iQueries ==> server.cnt + |strings| <= MAX_ID
    modifies server, server.memory, server.disk
    ensures ok <==> !old(server.disableS2iQueries)
    ensures ok ==> (server.Process(), ids) == AllIds(old(server.Process()), strings)
    ensures !ok ==> server.Process() == old(server.Process()) && ids == []
  {
    var reply := server.QueryImpl(Query(STR2ID, strings, [], []));
    if reply.Rejected? {
      return false, [];
    }
    return true, reply.response.ids;
  }

  /** The batching loop of `main` for ids, whatever the batch size. */
  method RunIdsPy(server: NumeratorHandler, lines: seq<NumID>, batchSize: int) returns (shown: seq<Shown>)
    requires batchSize <= MAX_32 || |lines| <= MAX_32
    modifies server, server.memory, server.disk
    ensures server.Process() == old(server.Process())
    ensures shown == AllStored(server.disk.db, lines)
  {
    hide AllStored;
    shown := [];
    var cnt: int := 0;
    var queryData: seq<NumID> := [];
    ghost var done: nat := 0;
    ghost var db := server.disk.db;
    assert lines[..0] == [];
    for i := 0 to |lines|
      invariant server.Process() == old(server.Process())
      invariant cnt == |queryData| && (cnt < batchSize || cnt == 0)
      invariant done <= i && queryData == lines[done..i]
      invariant shown == AllStored(db, lines[..done])
    {
      JoinedOneMore(lines, done, i);
      queryData := queryData + [lines[i]];
      cnt := cnt + 1;
      if cnt >= batchSize {
        AllStoredConcat(db, lines[..done], queryData);
        var part := QueryIdsPy(server, queryData);
        shown := shown + part;
        cnt := 0;
        queryData := [];
        done := i + 1;
      }
    }
    Joined(lines, done, |lines|);
    AllStoredConcat(db, lines[..done], queryData);
    if queryData != [] {
      var part := QueryIdsPy(server, queryData);
      shown := shown + part;
    }
  }

  /** A client of a server that was in state `st0` has sent `sent` and printed `printed`. */
  ghost predicate Printed(st0: State, st: State, sent: seq<Str>, printed: seq<NumID>) {
    if st0.disabled then st == st0 && printed == []
    else st0.cnt + |sent| <= MAX_ID && (st, printed) == AllIds(st0, sent)
  }

  lemma NothingPrinted(st: State)
    ensures Printed(st, st, [], [])
  {
  }

  /** `do_query` for strings, with its output. */
  method SendStrings(server: NumeratorHandler, strings: seq<Str>, printed: seq<NumID>,
                     ghost st0: State, ghost sent: seq<Str>)
    returns (ok: bool, printed': seq<NumID>)
    requires Printed(st0, server.Process(), sent, printed)
    requires !st0.disabled ==> st0.cnt + |sent| + |strings| <= MAX_ID
    modifies server, server.memory, server.disk
    ensures ok <==> !st0.disabled
    ensures Printed(st0, server.Process(), sent + strings, printed')
  {
    hide FindAll, Put;
    if !st0.disabled { AllIdsConcat(st0, sent, strings); }
    var part;
    ok, part := QueryStrings(server, strings);
    printed' := printed + part;
  }

  lemma AllPrinted(st0: State, st: State, sent: seq<Str>, printed: seq<NumID>)
    requires Printed(st0, st, sent, printed)
    ensures st0.disabled ==> st == st0 && printed == []
    ensures !st0.disabled ==> st0.cnt + |sent| <= MAX_ID && (st, printed) == AllIds(st0, sent) && |printed| == |sent|
  {
  }

  /** The batching loop of `main` for strings, whatever the batch size: one enabled
      server answers as if asked once, a disabled one raises at the first batch. */
  method RunStringsPy(server: NumeratorHandler, lines: seq<Str>, batchSize: int)
    returns (ok: bool, printed: seq<NumID>)
    requires !server.disableS2iQueries ==> server.cnt + |lines| <= MAX_ID
    modifies server, server.memory, server.disk
    ensures ok <==> !old(server.disableS2iQueries) || lines == []
    ensures !old(server.disableS2iQueries) ==> (server.Process(), printed) == AllIds(old(server.Process()), lines)
    ensures old(server.disableS2iQueries) ==> server.Process() == old(server.Process()) && printed == []
  {
    hide AllIds, Printed;
    ok, printed := true, [];
    var cnt: int := 0;
    var queryData: seq<Str> := [];
    ghost var st0, done := server.Process(), 0;
    NothingPrinted(st0);
    assert lines[..0] == [];
    for i := 0 to |lines|
      invariant cnt == |queryData| && 0 <= done <= i && queryData == lines[done..i]
      invariant Printed(st0, server.Process(), lines[..done], printed) && (st0.disabled ==> done == 0)
    {
      JoinedOneMore(lines, done, i);
      queryData := queryData + [lines[i]];
      cnt := cnt + 1;
      if cnt >= batchSize {
        ok, printed := SendStrings(server, queryData, printed, st0, lines[..done]);
        if !ok {
          AllPrinted(st0, server.Process(), lines[..i + 1], printed);
          return;
        }
        cnt := 0;
        queryData := [];
        done := i + 1;
      }
    }
    Joined(lines, done, |lines|);
    if queryData != [] {
      ok, printed := SendStrings(server, queryData, printed, st0, lines[..done]);
    }
    AllPrinted(st0, server.Process(), lines, printed);
  }

  // ---- numeratorcli.cpp ----

  /** `cnt++` on a `size_t`. */
  function Increment(cnt: nat): (r: nat)
    requires cnt <= SIZE_MAX
    ensures r <= SIZE_MAX
    ensures cnt < SIZE_MAX ==> r == cnt + 1
    ensures cnt == SIZE_MAX ==> r == 0
  {
    if cnt == SIZE_MAX then 0 else cnt + 1
  }

  /** What the loop of `run` knows about its counter, which started with whatever was in
      memory, after `i` lines of which the first `done` were sent. */
  ghost predicate Counts(start: nat, batchSize: nat, i: nat, done: int, cnt: nat) {
    && cnt <= SIZE_MAX && 0 <= done <= i
    && (i == 0 ==> cnt == start)
    && (i > 0 ==> cnt < batchSize)
    && (i > 0 ==> cnt == i - done || (done == 0 && start < SIZE_MAX && cnt == start + i)
                                  || (done == 0 && start == SIZE_MAX && cnt == i - 1))
    && (start == SIZE_MAX && i == 1 ==> done == 0 && cnt == 0)
  }

  /** The batching loop of `run` for strings. On an enabled server the output is right
      for every start value of the counter, batch size and file, but for a one-line file
      with the counter wrapping to 0, which is not sent. A disabled server raises,
      unless nothing is sent: no lines with the counter at 0, or that one-line file. */
  method RunStringsCpp(server: NumeratorHandler, lines: seq<Str>, batchSize: nat, start: nat)
    returns (ok: bool, printed: seq<NumID>)
    requires 0 < batchSize <= SIZE_MAX && start <= SIZE_MAX
    requires !server.disableS2iQueries ==> server.cnt + |lines| <= MAX_ID
    modifies server, server.memory, server.disk
    ensures ok <==> !old(server.disableS2iQueries) || (lines == [] && start == 0)
                                                   || (|lines| == 1 && start == SIZE_MAX)
    ensures !old(server.disableS2iQueries) ==>
              ((server.Process(), printed) == AllIds(old(server.Process()), lines) <==>
                !(start == SIZE_MAX && |lines| == 1))
    ensures old(server.disableS2iQueries) ==> server.Process() == old(server.Process()) && printed == []
  {
    hide AllIds, Printed;
    ok, printed := true, [];
    var cnt: nat := start;
    var strings: seq<Str> := [];
    ghost var st0, done := server.Process(), 0;
    NothingPrinted(st0);
    assert lines[..0] == [];
    for i := 0 to |lines|
      invariant Counts(start, batchSize, i, done, cnt) && strings == lines[done..i]
      invariant Printed(st0, server.Process(), lines[..done], printed) && (st0.disabled ==> done == 0)
    {
      JoinedOneMore(lines, done, i);
      strings := strings + [lines[i]];
      cnt := Increment(cnt);
      if cnt >= batchSize {
        ok, printed := SendStrings(server, strings, printed, st0, lines[..done]);
        if !ok {
          AllPrinted(st0, server.Process(), lines[..i + 1], printed);
          return;
        }
        cnt := 0;
        strings := [];
        done := i + 1;
      }
    }
    Joined(lines, done, |lines|);
    if cnt > 0 {
      ok, printed := SendStrings(server, strings, printed, st0, lines[..done]);
      AllPrinted(st0, server.Process(), lines, printed);
    } else {
      AllPrinted(st0, server.Process(), lines[..done], printed);
    }
  }

  /** The same loop for ids: the pointwise lookup of all lines, but for that one-line
      file. A first batch with the wrapping counter is one id longer. */
  method RunIdsCpp(server: NumeratorHandler, lines: seq<NumID>, batchSize: nat, start: nat)
    returns (shown: seq<Shown>)
    requires 0 < batchSize <= SIZE_MAX && start <= SIZE_MAX
    requires batchSize < MAX_32 || |lines| <= MAX_32
    modifies server, server.memory, server.disk
    ensures server.Process() == old(server.Process())
    ensures shown == AllStored(server.disk.db, lines) <==> !(start == SIZE_MAX && |lines| == 1)
  {
    hide AllStored;
    shown := [];
    var cnt: nat := start;
    var ids: seq<NumID> := [];
    ghost var done: nat := 0;
    ghost var db := server.disk.db;
    assert lines[..0] == [];
    for i := 0 to |lines|
      invariant server.Process() == old(server.Process())
      invariant Counts(start, batchSize, i, done, cnt) && ids == lines[done..i]
      invariant shown == AllStored(db, lines[..done])
    {
      JoinedOneMore(lines, done, i);
      ids := ids + [lines[i]];
      cnt := Increment(cnt);
      if cnt >= batchSize {
        AllStoredConcat(db, lines[..done], ids);
        var part := QueryIdsCpp(server, ids);
        shown := shown + part;
        cnt := 0;
        ids := [];
        done := i + 1;
      }
    }
    Joined(lines, done, |lines|);
    AllStoredConcat(db, lines[..done], ids);
    if cnt > 0 {
      var part := QueryIdsCpp(server, ids);
      shown := shown + part;
    }
  }
}
