/** The query service as a transition function on one process's state, and what one
    STR2ID request does to the store, the index and the counter. */
module Service {
  import opened Bytes
  import opened Store

  const STR2ID: Int32 := 1
  const ID2STR: Int32 := 2

  datatype Query = Query(op: Int32, strings: seq<Str>, ids: seq<NumID>, failures: seq<Int32>)

  datatype ErrorCode = STR2ID_QUERIES_DISABLED

  datatype Reply = Answered(response: Query) | Rejected(code: ErrorCode)

  datatype State = State(db: Db, index: map<Str, NumID>, cnt: NumID, disabled: bool)

  // ---- STR2ID ----

  /** The accumulators of the STR2ID loop. */
  datatype Batch = Batch(index: map<Str, NumID>, cnt: NumID, ids: seq<NumID>, pairs: seq<KVPair>)

  /** One turn of the loop: look the string up, or assign it the next id. */
  function FindOne(b: Batch, s: Str): (b': Batch)
    requires b.cnt < MAX_ID
  {
    var c := CStr(s);
    if c in b.index then
      b.(ids := b.ids + [b.index[c]])
    else
      Batch(b.index[c := b.cnt], b.cnt + 1, b.ids + [b.cnt], b.pairs + [KVPair(b.cnt, s)])
  }

  function FindAll(index: map<Str, NumID>, cnt: NumID, strings: seq<Str>): (b: Batch)
    requires cnt + |strings| <= MAX_ID
    ensures cnt <= b.cnt <= cnt + |strings|
    ensures |b.ids| == |strings|
  {
    if strings == [] then Batch(index, cnt, [], [])
    else FindOne(FindAll(index, cnt, strings[..|strings| - 1]), strings[|strings| - 1])
  }

  /** Answering a longer request is answering its prefix and one more string. */
  lemma FindAllSnoc(index: map<Str, NumID>, cnt: NumID, strings: seq<Str>, s: Str)
    requires cnt + |strings| + 1 <= MAX_ID
    ensures FindAll(index, cnt, strings + [s]) == FindOne(FindAll(index, cnt, strings), s)
  {
    assert (strings + [s])[..|strings|] == strings;
  }

  /** Every stored id lies below the counter. */
  ghost predicate Below(db: Db, cnt: int) {
    forall k | k in db :: k < cnt
  }

  lemma FreshIdExtends(db0: Db, db: Db, cnt: NumID, s: Str)
    requires cnt < MAX_ID && Below(db, cnt) && Extends(db0, db)
    ensures cnt !in db && Below(db[cnt := s], cnt + 1) && Extends(db0, db[cnt := s])
  {
  }

  /** One request for `xs + ys` is the request for `xs` followed by the one for `ys`. */
  lemma {:induction false} FindAllConcat(index: map<Str, NumID>, cnt: NumID, xs: seq<Str>, ys: seq<Str>)
    requires cnt + |xs| + |ys| <= MAX_ID
    ensures var a := FindAll(index, cnt, xs);
            var b := FindAll(a.index, a.cnt, ys);
            FindAll(index, cnt, xs + ys) == Batch(b.index, b.cnt, a.ids + b.ids, a.pairs + b.pairs)
  {
    hide CStr, FindOne;
    var a := FindAll(index, cnt, xs);
    if ys == [] {
      assert xs + ys == xs;
    } else {
      var init, s := ys[..|ys| - 1], ys[|ys| - 1];
      FindAllConcat(index, cnt, xs, init);
      FindOneAppends(FindAll(a.index, a.cnt, init), a, s);
      assert (xs + ys)[..|xs + ys| - 1] == xs + init;
    }
  }

  lemma FindOneAppends(b: Batch, a: Batch, s: Str)
    requires b.cnt < MAX_ID
    ensures FindOne(Batch(b.index, b.cnt, a.ids + b.ids, a.pairs + b.pairs), s)
         == FindOne(b, s).(ids := a.ids + FindOne(b, s).ids, pairs := a.pairs + FindOne(b, s).pairs)
  {
    hide CStr;
    assert forall x: NumID :: (a.ids + b.ids) + [x] == a.ids + (b.ids + [x]);
    assert forall x: KVPair :: (a.pairs + b.pairs) + [x] == a.pairs + (b.pairs + [x]);
  }

  // ---- ID2STR ----

  function LookupValues(db: Db, ids: seq<NumID>): (values: seq<Str>)
    ensures |values| == |ids|
    ensures forall i | 0 <= i < |ids| :: values[i] == if ids[i] in db then db[ids[i]] else []
  {
    seq(|ids|, i requires 0 <= i < |ids| => if ids[i] in db then db[ids[i]] else [])
  }

  /** The positions without a stored value, in increasing order. */
  function Missing(db: Db, ids: seq<NumID>): (failures: seq<Int32>)
    requires |ids| <= MAX_32
    ensures forall i, j | 0 <= i < j < |failures| :: failures[i] < failures[j]
    ensures forall f: int :: f in failures <==> 0 <= f < |ids| && ids[f] !in db
  {
    if ids == [] then []
    else
      var init := Missing(db, ids[..|ids| - 1]);
      assert forall i | 0 <= i < |init| :: init[i] in init;
      if ids[|ids| - 1] in db then init else init + [|ids| - 1]
  }

  lemma LookupNone(db: Db, ids: seq<NumID>)
    ensures LookupValues(db, ids[..0]) == [] && Missing(db, ids[..0]) == []
  {
  }

  lemma LookupSnoc(db: Db, ids: seq<NumID>, i: nat)
    requires i < |ids| <= MAX_32
    ensures LookupValues(db, ids[..i + 1]) == LookupValues(db, ids[..i]) + [if ids[i] in db then db[ids[i]] else []]
    ensures Missing(db, ids[..i + 1]) == if ids[i] in db then Missing(db, ids[..i]) else Missing(db, ids[..i]) + [i]
  {
    assert ids[..i + 1][..i] == ids[..i];
  }

  // ---- one request ----

  /** The range in which the service's own integers do not overflow. */
  predicate Fits(st: State, req: Query) {
    && (req.op == STR2ID && !st.disabled ==> st.cnt + |req.strings| <= MAX_ID)
    && (req.op == ID2STR ==> |req.ids| <= MAX_32)
  }

  function Serve(st: State, req: Query): (r: (State, Reply))
    requires Fits(st, req)
  {
    if req.op == ID2STR then
      (st, Answered(Query(req.op, LookupValues(st.db, req.ids), [], Missing(st.db, req.ids))))
    else if req.op == STR2ID then
      if st.disabled then (st, Rejected(STR2ID_QUERIES_DISABLED))
      else
        var b := FindAll(st.index, st.cnt, req.strings);
        (State(Put(st.db, b.pairs), b.index, b.cnt, st.disabled), Answered(Query(req.op, [], b.ids, [])))
    else
      (st, Answered(Query(req.op, [], [], [])))
  }

  /** The request for `xs + ys` is answered like the one for `xs` followed by the one
      for `ys`: same ids in order, same store, index and counter. */
  lemma ServeConcat(st: State, xs: seq<Str>, ys: seq<Str>)
    requires !st.disabled && st.cnt + |xs| + |ys| <= MAX_ID
    ensures var (st1, r1) := Serve(st, Query(STR2ID, xs, [], []));
            var (st2, r2) := Serve(st1, Query(STR2ID, ys, [], []));
            Serve(st, Query(STR2ID, xs + ys, [], []))
              == (st2, Answered(Query(STR2ID, [], r1.response.ids + r2.response.ids, [])))
  {
    FindAllConcat(st.index, st.cnt, xs, ys);
    var a := FindAll(st.index, st.cnt, xs);
    PutConcat(st.db, a.pairs, FindAll(a.index, a.cnt, ys).pairs);
  }

  function Disable(st: State): State {
    if st.disabled then st else st.(index := map[], disabled := true)
  }

  /** Loading writes every stored string over whatever the index holds. */
  function Enable(st: State): State {
    if st.disabled then st.(index := st.index + Rebuild(st.db), disabled := false) else st
  }

  predicate Bootable(db: Db, noS2i: bool) {
    IterationInOrder(db.Keys);
    !noS2i ==> MaxId(Iteration(db.Keys)) < MAX_ID
  }

  /** The state `main` reaches before it serves; `-S` leaves index and counter at zero. */
  function Boot(db: Db, noS2i: bool): State
    requires Bootable(db, noS2i)
  {
    if noS2i then State(db, map[], 0, true)
    else State(db, Rebuild(db), MaxId(Iteration(db.Keys)) + 1, false)
  }

  /** Booting without `-S` sets the counter to one more than the largest id (or zero). */
  lemma BootCounter(db: Db)
    requires Bootable(db, false)
    ensures var st := Boot(db, false);
            && Below(db, st.cnt) && st.cnt >= 1
            && (st.cnt == 1 || (st.cnt - 1) in db)
            && IsIndex(st.index, db)
    ensures forall ks | Enumerates(ks, db) :: MaxId(ks) == Boot(db, false).cnt - 1
  {
    IterationInOrder(db.Keys);
    RebuildIsIndex(db);
    IterationEnumerates(db);
    forall ks | Enumerates(ks, db) ensures MaxId(ks) == MaxId(Iteration(db.Keys)) {
      MaxIdOrderIndependent(ks, Iteration(db.Keys), db);
    }
  }
}
