/** What happens when a process booted with `-S` is enabled: `enable_s2i` loads the
    index but leaves the counter at 0. */
module DisabledStart {
  import opened Bytes
  import opened Store
  import opened Service
  import opened Batches
  import opened Runs
  import opened Refinement

  /** Exactly the ids handed out anew lose their old string. */
  ghost predicate Rebinds(db: Db, db': Db, cnt: NumID, n: nat) {
    && (forall k | k in db :: k in db' && (db'[k] == db[k] <==> !(cnt <= k < cnt + n)))
    && (Extends(db, db') <==> Unused(db, cnt, n))
  }

  lemma BatchRebinds(index: map<Str, NumID>, cnt: NumID, n: nat, pairs: seq<KVPair>, db: Db, k: NumID)
    requires Hands(index, cnt, n, pairs)
    requires k in db && CStr(db[k]) in index
    ensures k in Put(db, pairs)
    ensures Put(db, pairs)[k] == db[k] <==> !(cnt <= k < cnt + n)
  {
    hide CStr, Put;
    PutMeaning(db, pairs, k);
    if cnt <= k < cnt + n {
      var j := k - cnt;
      assert pairs[j].key == k;
      assert LastWith(pairs, k, j);
      assert CStr(pairs[j].value) !in index;
    }
  }

  // ---- the index knows every stored string, even after ids were rebound ----

  ghost predicate Knows(index: map<Str, NumID>, db: Db) {
    forall k | k in db :: CStr(db[k]) in index
  }

  lemma FindOneKnows(db: Db, b: Batch, s: Str)
    requires b.cnt < MAX_ID && Knows(b.index, Put(db, b.pairs))
    ensures Knows(FindOne(b, s).index, Put(db, FindOne(b, s).pairs))
  {
    hide CStr, Put;
    if CStr(s) !in b.index { PutSnoc(db, b.pairs, KVPair(b.cnt, s)); }
  }

  lemma {:induction false} FindAllKnows(index: map<Str, NumID>, cnt: NumID, db: Db, strings: seq<Str>)
    requires cnt + |strings| <= MAX_ID && Knows(index, db)
    ensures var b := FindAll(index, cnt, strings); Knows(b.index, Put(db, b.pairs))
  {
    hide CStr, FindOne, Knows;
    if strings != [] {
      var init, s := strings[..|strings| - 1], strings[|strings| - 1];
      FindAllKnows(index, cnt, db, init);
      FindOneKnows(db, FindAll(index, cnt, init), s);
    }
  }

  ghost predicate Knowing(w: World) {
    w.Up? && !w.st.disabled ==> Knows(w.st.index, w.st.db)
  }

  lemma ReloadKnows(index: map<Str, NumID>, db: Db)
    ensures Knows(index + Rebuild(db), db) && Knows(Rebuild(db), db)
  {
    hide CStr, Rank, Rebuild;
    RebuildIsIndex(db);
  }

  lemma EventKnows(w: World, e: Event)
    requires Knowing(w) && Possible(w, e)
    ensures Knowing(Next(w, e))
  {
    hide Rebuild, Put, FindAll, Knows, LookupValues, Missing;
    ReloadKnows(map[], Disk(w));
    if w.Up? { ReloadKnows(w.st.index, w.st.db); }
    if e.Request? && e.req.op == STR2ID && Serving(w) {
      FindAllKnows(w.st.index, w.st.cnt, w.st.db, e.req.strings);
    }
  }

  lemma {:induction false} RunKnows(w: World, es: seq<Event>)
    requires Knowing(w) && PossibleRun(w, es)
    ensures Knowing(After(w, es))
    decreases |es|
  {
    hide Next, Possible, Knowing;
    if es != [] {
      EventKnows(w, es[0]);
      RunKnows(Next(w, es[0]), es[1..]);
    }
  }

  // ---- exactly when ids are rebound ----

  lemma RequestRebinds(index: map<Str, NumID>, cnt: NumID, n: nat, pairs: seq<KVPair>, db: Db)
    requires Knows(index, db) && Hands(index, cnt, n, pairs)
    ensures Rebinds(db, Put(db, pairs), cnt, n)
  {
    hide CStr, Put, Hands;
    forall k | k in db
      ensures k in Put(db, pairs)
      ensures Put(db, pairs)[k] == db[k] <==> !(cnt <= k < cnt + n)
    {
      BatchRebinds(index, cnt, n, pairs, db, k);
    }
  }

  lemma NothingRebinds(index: map<Str, NumID>, cnt: NumID, db: Db)
    ensures Rebinds(db, db, cnt, |NewPrefixes(index, [])|)
  {
    assert NewPrefixes(index, []) == {};
  }

  lemma ServingRebinds(st: State, strings: seq<Str>)
    requires Knows(st.index, st.db) && st.cnt + |strings| <= MAX_ID
    ensures var pairs := FindAll(st.index, st.cnt, strings).pairs;
            Rebinds(st.db, Put(st.db, pairs), st.cnt, |NewPrefixes(st.index, strings)|)
  {
    hide CStr, NewPrefixes, Hands, Knows, Rebinds, FindAll, Put;
    FindAllBatch(st.index, st.cnt, strings);
    RequestRebinds(st.index, st.cnt, |NewPrefixes(st.index, strings)|,
                   FindAll(st.index, st.cnt, strings).pairs, st.db);
  }

  lemma EventRebinds(w: World, e: Event)
    requires Knowing(w) && Possible(w, e) && w.Up?
    ensures Rebinds(w.st.db, Disk(Next(w, e)), w.st.cnt, |NewPrefixes(w.st.index, Committed(w, e))|)
  {
    hide Rank, Rebuild, Knows, Rebinds, NewPrefixes, Put, FindAll, LookupValues, Missing;
    NothingRebinds(w.st.index, w.st.cnt, w.st.db);
    if Committed(w, e) != [] {
      ServingRebinds(w.st, Committed(w, e));
      assert e.CrashInStr2Id? ==> e.strings[..e.found] == e.strings;
    } else {
      NothingAsked(w.st);
      assert e.CrashInStr2Id? && e.written ==> e.strings[..e.found] == [];
    }
  }

  /** In every serialised run, whatever its processes were booted with: an event takes
      from the stored ids exactly those lying among the next `n` counter values their
      string, `n` being the number of new C prefixes it commits; so it leaves every
      binding alone exactly when no stored id lies in that range. */
  lemma RebindsIff(db0: Db, es: seq<Event>, e: Event)
    requires PossibleRun(Down(db0), es) && Possible(After(Down(db0), es), e)
    ensures var w := After(Down(db0), es);
            && (w.Down? ==> Disk(Next(w, e)) == w.db)
            && (w.Up? ==>
                  Rebinds(w.st.db, Disk(Next(w, e)), w.st.cnt, |NewPrefixes(w.st.index, Committed(w, e))|))
  {
    hide After, PossibleRun, Rebinds, NewPrefixes, Committed;
    RunKnows(Down(db0), es);
    var w := After(Down(db0), es);
    if w.Up? { EventRebinds(w, e); }
  }

  /** No event of the run takes a stored id its string. */
  ghost predicate NeverRebinds(w: World, es: seq<Event>)
    requires PossibleRun(w, es)
    decreases |es|
  {
    es == [] || (Extends(Disk(w), Disk(Next(w, es[0]))) && NeverRebinds(Next(w, es[0]), es[1..]))
  }

  lemma EventFreshIff(w: World, e: Event)
    requires Knowing(w) && Possible(w, e)
    ensures Fresh(w, e) <==> Extends(Disk(w), Disk(Next(w, e)))
  {
    hide Unused, NewPrefixes, Committed, Knows, Rebuild, Rank;
    if w.Up? { EventRebinds(w, e); }
  }

  lemma {:induction false} FreshRunIff(w: World, es: seq<Event>)
    requires Knowing(w) && PossibleRun(w, es)
    ensures FreshRun(w, es) <==> NeverRebinds(w, es)
    decreases |es|
  {
    hide Knowing, Possible, Next, Fresh, Extends, Disk;
    if es != [] {
      EventFreshIff(w, es[0]);
      EventKnows(w, es[0]);
      FreshRunIff(Next(w, es[0]), es[1..]);
    }
  }

  /** A serialised run, whatever its processes were booted with, keeps every stored binding
      at every event exactly if every event hands out fresh ids: the condition under which
      answers are permanent (`Runs.AcknowledgedForever`) cannot be weakened. */
  lemma FreshIff(db0: Db, es: seq<Event>)
    requires PossibleRun(Down(db0), es)
    ensures FreshRun(Down(db0), es) <==> NeverRebinds(Down(db0), es)
  {
    hide FreshRun, NeverRebinds, PossibleRun;
    FreshRunIff(Down(db0), es);
  }

  /** The event that breaks the condition undoes an answer: looking up an id it hands out
      anew gives another string than before. */
  lemma StaleIdIsUndone(db0: Db, es: seq<Event>, e: Event, k: NumID)
    requires PossibleRun(Down(db0), es) && Possible(After(Down(db0), es), e)
    requires var w := After(Down(db0), es);
             w.Up? && k in w.st.db && w.st.cnt <= k < w.st.cnt + |NewPrefixes(w.st.index, Committed(w, e))|
    ensures var w := After(Down(db0), es); var db' := Disk(Next(w, e));
            && k in db' && db'[k] != w.st.db[k] && !Fresh(w, e)
            && LookupValues(w.st.db, [k])[0] != LookupValues(db', [k])[0]
            && 0 !in Missing(w.st.db, [k]) && 0 !in Missing(db', [k])
  {
    hide After, PossibleRun, NewPrefixes, Committed, Next, Possible;
    RebindsIff(db0, es, e);
  }

  lemma NothingAsked(st: State)
    ensures FindAll(st.index, st.cnt, []) == Batch(st.index, st.cnt, [], []) && Put(st.db, []) == st.db
  {
  }

  lemma TwoNewStrings(index: map<Str, NumID>, x: Str, y: Str)
    requires CStr(x) !in index && CStr(y) !in index && CStr(x) != CStr(y)
    ensures FindAll(index, 0, [x, y]).ids == [0, 1]
    ensures FindAll(index, 0, [x, y]).pairs == [KVPair(0, x), KVPair(1, y)]
  {
    hide CStr;
    FindAllSnoc(index, 0, [x], y);
    FindAllSnoc(index, 0, [], x);
    assert [] + [x] == [x] && [x] + [y] == [x, y];
  }

  lemma TwoPuts(db: Db, a: KVPair, b: KVPair)
    ensures Put(db, [a, b]) == db[a.key := a.value][b.key := b.value]
  {
    PutSnoc(db, [], a);
    PutSnoc(db, [a], b);
    assert [] + [a] == [a] && [a] + [b] == [a, b];
  }

  /** The failing family, concretely: on a store of dense ids, a `-S` boot followed by
      an enable hands id 1 to the second new string, over the name that had it. */
  lemma DashSOverwritesIdOne(names: seq<Str>, x: Str, y: Str)
    requires 1 <= |names| <= MAX_ID && Distinct(names)
    requires Position(names, CStr(x)) == 0 && Position(names, CStr(y)) == 0 && CStr(x) != CStr(y)
    ensures var st := Enable(Boot(Numbered(names), true));
            var (st', r) := Serve(st, Query(STR2ID, [x, y], [], []));
            && r == Answered(Query(STR2ID, [], [0, 1], []))
            && 1 in st.db && st.db[1] == names[0]
            && 1 in st'.db && st'.db[1] == y && names[0] != y
  {
    hide CStr, Rank, IsIndex, Rebuild, FindAll, Position, Put;
    var db := Numbered(names);
    assert map[] + Rebuild(db) == Rebuild(db);
    RebuildIsIndex(db);
    NamesIndexed(names, Rebuild(db), CStr(x));
    NamesIndexed(names, Rebuild(db), CStr(y));
    TwoNewStrings(Rebuild(db), x, y);
    TwoPuts(db, KVPair(0, x), KVPair(1, y));
    assert names[0] == NameOf(names, 1);
    FirstNameDiffers(names, y);
  }

  lemma FirstNameDiffers(names: seq<Str>, y: Str)
    requires names != [] && Position(names, CStr(y)) == 0
    ensures names[0] != y
  {
  }

  lemma PossibleCons(w: World, e: Event, rest: seq<Event>)
    requires Possible(w, e) && PossibleRun(Next(w, e), rest)
    ensures PossibleRun(w, [e] + rest) && After(w, [e] + rest) == After(Next(w, e), rest)
  {
    hide Possible, Next;
    assert ([e] + rest)[1..] == rest;
  }

  lemma EmptyBoot()
    ensures Bootable(map[], false) && Boot(map[], false) == State(map[], map[], 1, false)
  {
    hide CStr, Rank, Rebuild;
    BootCounter(map[]);
    var index := Boot(map[], false).index;
    assert forall c :: c !in index;
  }

  /** The first string ever gets id 1. */
  lemma FirstAnswer(a: Str)
    ensures Serve(State(map[], map[], 1, false), Query(STR2ID, [a], [], []))
         == (State(Numbered([a]), map[CStr(a) := 1], 2, false), Answered(Query(STR2ID, [], [1], [])))
  {
    hide CStr, Put;
    FindAllSnoc(map[], 1, [], a);
    assert [] + [a] == [a];
    PutSnoc(map[], [], KVPair(1, a));
    PutNone(map[]);
    assert [] + [KVPair(1, a)] == [KVPair(1, a)];
    var none: map<Str, NumID>, one: NumID := map[], 1;
    assert [] + [one] == [one] && none[CStr(a) := one] == map[CStr(a) := one];
    assert Numbered([a]) == map[one := a] by { assert NameOf([a], 1) == a; }
  }

  /** An acknowledged answer undone: the first process answers 1 for `a`; the next one,
      booted with `-S` and enabled, rebinds 1 to `y`. */
  lemma DashSUndoesAnAnswer(a: Str, x: Str, y: Str)
    requires CStr(a) != CStr(x) && CStr(a) != CStr(y) && CStr(x) != CStr(y)
    ensures var (first, second) := (Query(STR2ID, [a], [], []), Query(STR2ID, [x, y], [], []));
            var es := [BootUp(false), Request(first), Crash, BootUp(true), EnableS2i, Request(second)];
            && Bootable(map[], false) && Fits(Boot(map[], false), first)
            && Serve(Boot(map[], false), first).1 == Answered(Query(STR2ID, [], [1], []))
            && PossibleRun(Down(map[]), es)
            && var db := Disk(After(Down(map[]), es)); 1 in db && db[1] == y && y != a
  {
    hide CStr, Rank, Rebuild, Position, PossibleRun, After, Boot, Numbered;
    var (first, second) := (Query(STR2ID, [a], [], []), Query(STR2ID, [x, y], [], []));
    EmptyBoot();
    FirstAnswer(a);
    PositionsOfOne(a, CStr(x));
    PositionsOfOne(a, CStr(y));
    DashSOverwritesIdOne([a], x, y);
    var w1 := Up(Boot(map[], false), false);
    var w2 := Up(Serve(w1.st, first).0, false);
    var w3 := Down(Numbered([a]));
    var w4 := Up(Boot(w3.db, true), true);
    var w5 := Up(Enable(w4.st), true);
    DashSBoot(w3.db);
    NothingHappens(Next(w5, Request(second)));
    PossibleCons(w5, Request(second), []);
    var r5 := [Request(second)] + [];
    PossibleCons(w4, EnableS2i, r5);
    var r4 := [EnableS2i] + r5;
    PossibleCons(w3, BootUp(true), r4);
    var r3 := [BootUp(true)] + r4;
    PossibleCons(w2, Crash, r3);
    var r2 := [Crash] + r3;
    PossibleCons(w1, Request(first), r2);
    var r1 := [Request(first)] + r2;
    PossibleCons(Down(map[]), BootUp(false), r1);
    assert [BootUp(false)] + r1 == [BootUp(false), Request(first), Crash, BootUp(true), EnableS2i, Request(second)];
  }

  lemma DashSBoot(db: Db)
    ensures Bootable(db, true) && Enable(Boot(db, true)).cnt == 0 && !Enable(Boot(db, true)).disabled
  {
    hide Rank, Rebuild;
  }

  lemma NothingHappens(w: World)
    ensures PossibleRun(w, []) && After(w, []) == w
  {
  }

  lemma PositionsOfOne(a: Str, c: Str)
    ensures Position([a], c) == if CStr(a) == c then 1 else 0
  {
    hide CStr;
    PositionInPrefix([], a, c);
    assert [] + [a] == [a];
  }
}
