/** The service refines a list of names: the distinct strings it was asked for, in the
    order of their first request, each known by its position. */
module Refinement {
  import opened Bytes
  import opened Store
  import opened Service
  import opened Batches
  import opened Runs

  // ---- the specification ----

  /** 1-based position of the last name with C prefix `c`, or 0. */
  function Position(names: seq<Str>, c: Str): (p: nat)
    ensures p <= |names|
    ensures p > 0 ==> CStr(names[p - 1]) == c
    ensures p == 0 <==> forall i | 0 <= i < |names| :: CStr(names[i]) != c
  {
    if names == [] then 0
    else if CStr(names[|names| - 1]) == c then |names|
    else Position(names[..|names| - 1], c)
  }

  /** Order-preserving deduplication: a string is kept unless one with the same C
      prefix was kept before. */
  function Dedup(log: seq<Str>): (names: seq<Str>)
    ensures |names| <= |log|
  {
    if log == [] then []
    else
      var names := Dedup(log[..|log| - 1]);
      var s := log[|log| - 1];
      if Position(names, CStr(s)) > 0 then names else names + [s]
  }

  ghost predicate Distinct(names: seq<Str>) {
    forall i, j | 0 <= i < j < |names| :: CStr(names[i]) != CStr(names[j])
  }

  lemma PositionInPrefix(names: seq<Str>, s: Str, c: Str)
    ensures Position(names + [s], c) == if CStr(s) == c then |names| + 1 else Position(names, c)
  {
    assert (names + [s])[..|names|] == names;
  }

  /** Every string of `log` is known by its prefix. */
  ghost predicate Covers(names: seq<Str>, log: seq<Str>) {
    forall i | 0 <= i < |log| :: Position(names, CStr(log[i])) > 0
  }

  /** Every name was requested. */
  ghost predicate Within(names: seq<Str>, log: seq<Str>) {
    forall i | 0 <= i < |names| :: names[i] in log
  }

  /** Position of the first string of `log` with C prefix `c`, or its length. */
  function FirstRequest(log: seq<Str>, c: Str): (i: nat)
    ensures i <= |log|
  {
    if log == [] then 0
    else
      var i := FirstRequest(log[..|log| - 1], c);
      if i == |log| - 1 && CStr(log[i]) != c then |log| else i
  }

  lemma {:induction false} FirstRequestMeans(log: seq<Str>, c: Str)
    ensures var i := FirstRequest(log, c);
            (i < |log| ==> CStr(log[i]) == c) && forall j | 0 <= j < i :: CStr(log[j]) != c
  {
    hide CStr;
    if log != [] { FirstRequestMeans(log[..|log| - 1], c); }
  }

  /** Each name is the first request of its prefix. */
  ghost predicate FirstOnes(names: seq<Str>, log: seq<Str>) {
    forall n | n in names :: var i := FirstRequest(log, CStr(n)); i < |log| && log[i] == n
  }

  /** Names come in the order of their first requests. */
  ghost predicate InRequestOrder(names: seq<Str>, log: seq<Str>) {
    forall j, k | 0 <= j < k < |names| :: FirstRequest(log, CStr(names[j])) < FirstRequest(log, CStr(names[k]))
  }

  lemma DistinctSnoc(names: seq<Str>, s: Str)
    requires Distinct(names) && Position(names, CStr(s)) == 0
    ensures Distinct(names + [s])
  {
    hide CStr;
  }

  lemma CoversSnoc(names: seq<Str>, log: seq<Str>, s: Str)
    requires Covers(names, log)
    ensures Position(names, CStr(s)) > 0 ==> Covers(names, log + [s])
    ensures Covers(names + [s], log + [s])
  {
    hide CStr, Position;
    forall i | 0 <= i <= |log| ensures Position(names + [s], CStr((log + [s])[i])) > 0 {
      PositionInPrefix(names, s, CStr((log + [s])[i]));
    }
  }

  lemma WithinSnoc(names: seq<Str>, log: seq<Str>, s: Str)
    requires Within(names, log)
    ensures Within(names, log + [s]) && Within(names + [s], log + [s])
  {
    forall i | 0 <= i < |names| ensures names[i] in log + [s] {
      assert names[i] in log;
    }
    assert (log + [s])[|log|] == s;
  }

  lemma FirstRequestSnoc(log: seq<Str>, s: Str, c: Str)
    ensures FirstRequest(log + [s], c)
         == if FirstRequest(log, c) < |log| || CStr(s) == c then FirstRequest(log, c) else |log| + 1
  {
    assert (log + [s])[..|log|] == log;
  }

  lemma FirstRequestsStay(names: seq<Str>, log: seq<Str>, s: Str)
    requires FirstOnes(names, log)
    ensures FirstOnes(names, log + [s])
    ensures forall n | n in names :: FirstRequest(log + [s], CStr(n)) == FirstRequest(log, CStr(n)) < |log|
  {
    hide CStr, FirstRequest;
    forall n | n in names
      ensures FirstRequest(log + [s], CStr(n)) == FirstRequest(log, CStr(n)) < |log|
    {
      FirstRequestSnoc(log, s, CStr(n));
    }
  }

  lemma RequestOrderStays(names: seq<Str>, log: seq<Str>, s: Str)
    requires InRequestOrder(names, log)
    requires forall n | n in names :: FirstRequest(log + [s], CStr(n)) == FirstRequest(log, CStr(n))
    ensures InRequestOrder(names, log + [s])
  {
    hide CStr, FirstRequest;
    forall j, k | 0 <= j < k < |names|
      ensures FirstRequest(log + [s], CStr(names[j])) < FirstRequest(log + [s], CStr(names[k]))
    {
      assert names[j] in names && names[k] in names;
    }
  }

  lemma NotRequested(names: seq<Str>, log: seq<Str>, s: Str)
    requires Covers(names, log) && Position(names, CStr(s)) == 0
    ensures FirstRequest(log + [s], CStr(s)) == |log|
  {
    hide CStr, FirstRequest, Position;
    FirstRequestSnoc(log, s, CStr(s));
    FirstRequestMeans(log, CStr(s));
  }

  lemma RequestOrderSnoc(names: seq<Str>, log: seq<Str>, s: Str)
    requires InRequestOrder(names, log)
    requires forall n | n in names :: FirstRequest(log, CStr(n)) < FirstRequest(log, CStr(s))
    ensures InRequestOrder(names + [s], log)
  {
    hide CStr, FirstRequest;
  }

  lemma FirstOnesSnoc(names: seq<Str>, log: seq<Str>, s: Str)
    requires FirstOnes(names, log) && FirstRequest(log, CStr(s)) < |log| && log[FirstRequest(log, CStr(s))] == s
    ensures FirstOnes(names + [s], log)
  {
    hide CStr, FirstRequest;
    assert forall n :: n in names + [s] <==> n in names || n == s;
  }

  /** The deduplication holds every requested prefix exactly once and nothing else: the
      first string requested with it, in the order of these first requests. */
  lemma {:induction false} DedupMeaning(log: seq<Str>)
    ensures Distinct(Dedup(log)) && Covers(Dedup(log), log) && Within(Dedup(log), log)
    ensures FirstOnes(Dedup(log), log) && InRequestOrder(Dedup(log), log)
  {
    hide CStr, Position, FirstRequest, Distinct, Covers, Within, FirstOnes, InRequestOrder;
    if log == [] {
      NothingRequested();
    } else {
      var init, s := log[..|log| - 1], log[|log| - 1];
      DedupMeaning(init);
      CoversSnoc(Dedup(init), init, s);
      WithinSnoc(Dedup(init), init, s);
      FirstRequestsStay(Dedup(init), init, s);
      RequestOrderStays(Dedup(init), init, s);
      if Position(Dedup(init), CStr(s)) == 0 {
        DistinctSnoc(Dedup(init), s);
        NotRequested(Dedup(init), init, s);
        FirstOnesSnoc(Dedup(init), init + [s], s);
        RequestOrderSnoc(Dedup(init), init + [s], s);
      }
      assert log == init + [s];
    }
  }

  lemma NothingRequested()
    ensures Distinct([]) && Covers([], []) && Within([], [])
    ensures FirstOnes([], []) && InRequestOrder([], [])
  {
  }

  function NameOf(names: seq<Str>, id: NumID): Str
    requires 1 <= id <= |names|
  {
    names[id - 1]
  }

  /** The store holding `names`, numbered from 1 on without gaps. */
  function Numbered(names: seq<Str>): (db: Db)
    requires |names| <= MAX_ID
  {
    map id: NumID | 1 <= id <= |names| :: NameOf(names, id)
  }

  /** The specified reply to a request (1 asks for ids, 2 for strings) on the strings
      requested so far. */
  ghost predicate SpecReply(log: seq<Str>, disabled: bool, req: Query, reply: Reply) {
    if req.op == 1 then
      if disabled then reply == Rejected(STR2ID_QUERIES_DISABLED)
      else
        && reply.Answered? && reply.response.op == req.op
        && reply.response.strings == [] && reply.response.failures == []
        && |reply.response.ids| == |req.strings|
        && forall i | 0 <= i < |req.strings| ::
             reply.response.ids[i] == Position(Dedup(log + req.strings), CStr(req.strings[i]))
    else if req.op == 2 then
      var names := Dedup(log);
      && reply.Answered? && reply.response.op == req.op && reply.response.ids == []
      && |reply.response.strings| == |req.ids|
      && (forall i | 0 <= i < |req.ids| :: reply.response.strings[i] ==
            if 1 <= req.ids[i] <= |names| then names[req.ids[i] - 1] else [])
      && (forall i, j | 0 <= i < j < |reply.response.failures| ::
            reply.response.failures[i] < reply.response.failures[j])
      && (forall f: int :: f in reply.response.failures <==>
            0 <= f < |req.ids| && !(1 <= req.ids[f] <= |names|))
    else
      reply == Answered(Query(req.op, [], [], []))
  }

  // ---- the run, as the specification sees it ----

  function Log(w: World, es: seq<Event>): seq<Str>
    requires PossibleRun(w, es)
    decreases |es|
  {
    if es == [] then [] else Committed(w, es[0]) + Log(Next(w, es[0]), es[1..])
  }

  /** What ties a world to the strings committed so far. */
  ghost predicate Represents(w: World, log: seq<Str>) {
    && |Dedup(log)| < MAX_ID
    && Disk(w) == Numbered(Dedup(log))
    && Coherent(w) && Counting(w)
    && (w.Up? && !w.bootedS ==> w.st.cnt == |Dedup(log)| + 1)
  }

  // ---- one STR2ID request ----

  lemma NamesIndexed(names: seq<Str>, index: map<Str, NumID>, c: Str)
    requires |names| <= MAX_ID && Distinct(names) && IsIndex(index, Numbered(names))
    ensures c in index <==> Position(names, c) > 0
    ensures c in index ==> index[c] == Position(names, c)
  {
    hide CStr, Rank;
    var p: NumID := Position(names, c);
    if p > 0 {
      assert p in Numbered(names) && Numbered(names)[p] == NameOf(names, p);
      var id := index[c];
      assert id in Numbered(names) && CStr(NameOf(names, id)) == c;
      assert names[id - 1] == NameOf(names, id) && names[p - 1] == NameOf(names, p);
    }
  }

  lemma NumberedSnoc(names: seq<Str>, s: Str)
    requires |names| < MAX_ID
    ensures Numbered(names + [s]) == Numbered(names)[|names| + 1 := s]
  {
  }

  /** The loop state after the strings `log` of a store numbering `base`. */
  ghost predicate Numbers(base: seq<Str>, b: Batch, log: seq<Str>) {
    var names := Dedup(log);
    && |base| <= MAX_ID && |names| < MAX_ID && b.cnt == |names| + 1
    && Put(Numbered(base), b.pairs) == Numbered(names)
    && IsIndex(b.index, Numbered(names))
  }

  lemma FindOneNumbers(base: seq<Str>, b: Batch, log: seq<Str>, s: Str)
    requires b.cnt < MAX_ID && Numbers(base, b, log)
    ensures Numbers(base, FindOne(b, s), log + [s])
  {
    hide CStr, Rank, IsIndex, Numbered, Put, Distinct, Covers, Within, FirstOnes, InRequestOrder, Position;
    var names := Dedup(log);
    assert (log + [s])[..|log|] == log;
    DedupMeaning(log);
    NamesIndexed(names, b.index, CStr(s));
    if CStr(s) !in b.index {
      NumberedSnoc(names, s);
      PutSnoc(Numbered(base), b.pairs, KVPair(b.cnt, s));
      FreshName(names, b.cnt);
      IndexInsert(b.index, Numbered(names), s, b.cnt);
    }
  }

  lemma {:induction false} FindAllNumbers(index: map<Str, NumID>, log: seq<Str>, strings: seq<Str>)
    requires |Dedup(log)| + 1 + |strings| <= MAX_ID
    requires IsIndex(index, Numbered(Dedup(log)))
    ensures Numbers(Dedup(log), FindAll(index, |Dedup(log)| + 1, strings), log + strings)
  {
    hide CStr, Rank, IsIndex, Numbered, Dedup, FindOne;
    if strings == [] {
      assert log + strings == log;
    } else {
      var init, s := strings[..|strings| - 1], strings[|strings| - 1];
      FindAllNumbers(index, log, init);
      FindOneNumbers(Dedup(log), FindAll(index, |Dedup(log)| + 1, init), log + init, s);
      assert (log + init) + [s] == log + strings;
    }
  }

  lemma FreshName(names: seq<Str>, cnt: NumID)
    requires |names| < MAX_ID && cnt == |names| + 1
    ensures cnt !in Numbered(names) && Below(Numbered(names), cnt)
  {
  }

  // ---- main results ----

  lemma EventRepresents(w: World, log: seq<Str>, e: Event)
    requires Represents(w, log) && Allowed(w, e)
    ensures Represents(Next(w, e), log + Committed(w, e))
  {
    hide CStr, Rank, IsIndex, Numbered, Rebuild, Dedup, Put, FindAll, LookupValues, Missing;
    EventCounts(w, e);
    EventKeeps(w, e);
    assert log + [] == log;
    match e
    case BootUp(noS2i) =>
      if !noS2i { BootCounterDense(Dedup(log)); }
    case Request(req) =>
      if req.op == STR2ID && Serving(w) {
        RebuildIsIndex(w.st.db);
        FindAllNumbers(w.st.index, log, req.strings);
      }
    case CrashInStr2Id(strings, found, written) =>
      if written {
        assert strings[..found] == strings;
        RebuildIsIndex(w.st.db);
        FindAllNumbers(w.st.index, log, strings);
      }
    case _ =>
  }

  lemma BootCounterDense(names: seq<Str>)
    requires |names| < MAX_ID && Bootable(Numbered(names), false)
    ensures Boot(Numbered(names), false).cnt == |names| + 1
  {
    hide Rank, Rebuild, IsIndex;
    var db := Numbered(names);
    BootCounter(db);
    if |names| > 0 { assert (|names| as NumID) in db; }
  }

  /** The ids of `db` are 1, 2, 3, ... without gaps, bound to `names` in order. */
  ghost predicate IsNumbering(db: Db, names: seq<Str>) {
    && |names| < MAX_ID
    && forall id: NumID :: (id in db <==> 1 <= id <= |names|) && (id in db ==> db[id] == names[id - 1])
  }

  /** From an empty store, after any run of serialised operations and crashes, the store
      is exactly the deduplication of the committed strings, numbered from 1 on. */
  lemma StoreIsDedup(es: seq<Event>)
    requires AllowedRun(Down(map[]), es)
    ensures IsNumbering(Disk(After(Down(map[]), es)), Dedup(Log(Down(map[]), es)))
  {
    hide Dedup, Log, After, AllowedRun, Coherent;
    EmptyLog();
    RunRepresents(Down(map[]), [], es);
    assert [] + Log(Down(map[]), es) == Log(Down(map[]), es);
  }

  lemma EmptyLog()
    ensures Represents(Down(map[]), [])
  {
  }

  lemma {:induction false} RunRepresents(w: World, log: seq<Str>, es: seq<Event>)
    requires Represents(w, log) && AllowedRun(w, es)
    ensures Represents(After(w, es), log + Log(w, es))
    decreases |es|
  {
    hide Represents, Next, Allowed, Committed;
    if es == [] {
      assert log + [] == log;
    } else {
      EventRepresents(w, log, es[0]);
      RunRepresents(Next(w, es[0]), log + Committed(w, es[0]), es[1..]);
      assert log + (Committed(w, es[0]) + Log(Next(w, es[0]), es[1..]))
          == (log + Committed(w, es[0])) + Log(Next(w, es[0]), es[1..]);
    }
  }

  /** ... and every reply is the specification's. */
  lemma RepliesRefine(es: seq<Event>, req: Query)
    requires AllowedRun(Down(map[]), es) && Allowed(After(Down(map[]), es), Request(req))
    ensures var w := After(Down(map[]), es);
            SpecReply(Log(Down(map[]), es), w.st.disabled, req, Serve(w.st, req).1)
  {
    hide CStr, Rank, IsIndex, Rebuild, Dedup, Put, FindAll, Position;
    var w := After(Down(map[]), es);
    var log := Log(Down(map[]), es);
    RunRepresents(Down(map[]), [], es);
    EventCounts(w, Request(req));
    assert [] + log == log;
    if req.op == STR2ID && Serving(w) {
      RebuildIsIndex(w.st.db);
      FindAllNumbers(w.st.index, log, req.strings);
      var names := Dedup(log + req.strings);
      DedupMeaning(log + req.strings);
      forall i: nat | i < |req.strings|
        ensures Serve(w.st, req).1.response.ids[i] == Position(names, CStr(req.strings[i]))
      {
        AnswersFollowIndex(w.st, req, i);
        NamesIndexed(names, Serve(w.st, req).0.index, CStr(req.strings[i]));
      }
    }
  }
}
