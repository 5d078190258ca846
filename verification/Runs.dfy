/** Whole runs of serialised operations: boots with and without `-S`, requests, disable
    and enable, and process crashes, on a store that outlives every process. */
module Runs {
  import opened Bytes
  import opened Store
  import opened Service
  import opened Batches

  /** Between processes only the store is left. `bootedS` records how the running
      process was started. */
  datatype World = Down(db: Db) | Up(st: State, bootedS: bool)

  datatype Event =
    | BootUp(noS2i: bool)
    | Request(req: Query)
    | DisableS2i
    | EnableS2i
      /** The process dies while idle or in a lookup. */
    | Crash
      /** The process dies in a STR2ID request, after `found` finds, and after the batch
          write if `written`; nobody gets a reply. */
    | CrashInStr2Id(strings: seq<Str>, found: nat, written: bool)

  function Disk(w: World): Db {
    if w.Down? then w.db else w.st.db
  }

  /** A STR2ID request that is not rejected. */
  predicate Serving(w: World) {
    w.Up? && !w.st.disabled
  }

  /** The process serves strings, or dies while it does. */
  predicate ServesStrings(w: World, e: Event) {
    match e
    case Request(req) => req.op == STR2ID && Serving(w)
    case CrashInStr2Id(_, _, _) => true
    case _ => false
  }

  /** The events the program can take before an id overflows. */
  predicate Possible(w: World, e: Event) {
    match e
    case BootUp(noS2i) => w.Down? && Bootable(w.db, noS2i)
    case Request(req) => w.Up? && Fits(w.st, req)
    case CrashInStr2Id(strings, found, written) =>
      && Serving(w) && w.st.cnt + |strings| <= MAX_ID
      && found <= |strings| && (written ==> found == |strings|)
    case _ => w.Up?
  }

  /** The strings whose batch an event brought to the store. */
  function Committed(w: World, e: Event): seq<Str> {
    match e
    case Request(req) => if req.op == STR2ID && Serving(w) then req.strings else []
    case CrashInStr2Id(strings, _, written) => if written then strings else []
    case _ => []
  }

  /** The event hands out no id that is stored: what has to hold for answers to last. It
      always does where no process booted with `-S` serves strings (`CounterAboveIds`). */
  ghost predicate Fresh(w: World, e: Event) {
    w.Up? ==> Unused(w.st.db, w.st.cnt, |NewPrefixes(w.st.index, Committed(w, e))|)
  }

  /** No process booted with `-S` serves strings. */
  predicate Allowed(w: World, e: Event) {
    Possible(w, e) && (ServesStrings(w, e) ==> !w.bootedS)
  }

  function Next(w: World, e: Event): World
    requires Possible(w, e)
  {
    match e
    case BootUp(noS2i) => Up(Boot(w.db, noS2i), noS2i)
    case Request(req) => Up(Serve(w.st, req).0, w.bootedS)
    case DisableS2i => Up(Disable(w.st), w.bootedS)
    case EnableS2i => Up(Enable(w.st), w.bootedS)
    case Crash => Down(w.st.db)
    case CrashInStr2Id(strings, found, written) =>
      var b := FindAll(w.st.index, w.st.cnt, strings[..found]);
      Down(if written then Put(w.st.db, b.pairs) else w.st.db)
  }

  predicate PossibleRun(w: World, es: seq<Event>)
    decreases |es|
  {
    es == [] || (Possible(w, es[0]) && PossibleRun(Next(w, es[0]), es[1..]))
  }

  predicate AllowedRun(w: World, es: seq<Event>): (allowed: bool)
    ensures allowed ==> PossibleRun(w, es)
    decreases |es|
  {
    es == [] || (Allowed(w, es[0]) && AllowedRun(Next(w, es[0]), es[1..]))
  }

  ghost predicate FreshRun(w: World, es: seq<Event>): (ok: bool)
    ensures ok ==> PossibleRun(w, es)
    decreases |es|
  {
    es == [] || (Possible(w, es[0]) && Fresh(w, es[0]) && FreshRun(Next(w, es[0]), es[1..]))
  }

  function After(w: World, es: seq<Event>): World
    requires PossibleRun(w, es)
    decreases |es|
  {
    if es == [] then w else After(Next(w, es[0]), es[1..])
  }

  lemma {:induction false} RunConcat(w: World, a: seq<Event>, b: seq<Event>)
    requires FreshRun(w, a + b)
    ensures FreshRun(w, a) && FreshRun(After(w, a), b)
    ensures After(w, a + b) == After(After(w, a), b)
    decreases |a|
  {
    hide Next, Possible, Fresh;
    if a == [] {
      assert a + b == b;
    } else {
      assert (a + b)[0] == a[0] && (a + b)[1..] == a[1..] + b;
      RunConcat(Next(w, a[0]), a[1..], b);
    }
  }

  // ---- what every operation keeps ----

  /** The maintained index of an enabled process is the one loading would rebuild; a
      disabled one holds nothing. */
  ghost predicate Coherent(w: World) {
    w.Up? ==> w.st.index == (if w.st.disabled then map[] else Rebuild(w.st.db))
  }

  /** A process booted without `-S` counts above all ids. */
  ghost predicate Counting(w: World) {
    w.Up? && !w.bootedS ==> Below(w.st.db, w.st.cnt)
  }

  /** From one store to a later one: no id is rebound, and no string a reload would
      index gets another id. */
  ghost predicate Keeps(db: Db, db': Db) {
    Extends(db, db') && IndexGrows(Rebuild(db), Rebuild(db'))
  }

  lemma Str2IdKeeps(st: State, strings: seq<Str>)
    requires !st.disabled && st.index == Rebuild(st.db) && st.cnt + |strings| <= MAX_ID
    requires Unused(st.db, st.cnt, |NewPrefixes(st.index, strings)|)
    ensures var b := FindAll(st.index, st.cnt, strings);
            Keeps(st.db, Put(st.db, b.pairs)) && b.index == Rebuild(Put(st.db, b.pairs))
  {
    hide IsIndex, Rebuild, Put, FindAll, NewPrefixes;
    var b := FindAll(st.index, st.cnt, strings);
    RebuildIsIndex(st.db);
    FindAllServes(st.index, st.cnt, st.db, strings);
    RebuildIsIndex(Put(st.db, b.pairs));
    IndexUnique(b.index, Rebuild(Put(st.db, b.pairs)), Put(st.db, b.pairs));
  }

  lemma EventKeeps(w: World, e: Event)
    requires Coherent(w) && Possible(w, e) && Fresh(w, e)
    ensures Coherent(Next(w, e)) && Keeps(Disk(w), Disk(Next(w, e)))
  {
    hide Rebuild, Put, FindAll, Below, LookupValues, Missing, NewPrefixes, Unused;
    match e
    case Request(req) =>
      if req.op == STR2ID && Serving(w) { Str2IdKeeps(w.st, req.strings); }
    case EnableS2i =>
      assert map[] + Rebuild(w.st.db) == Rebuild(w.st.db);
    case CrashInStr2Id(strings, found, written) =>
      if written {
        assert strings[..found] == strings;
        Str2IdKeeps(w.st, strings);
      }
    case _ =>
  }

  lemma {:induction false} RunKeeps(w: World, es: seq<Event>)
    requires Coherent(w) && FreshRun(w, es)
    ensures Coherent(After(w, es)) && Keeps(Disk(w), Disk(After(w, es)))
    decreases |es|
  {
    hide Rebuild, Next, Possible, Fresh, Disk, Coherent;
    if es != [] {
      EventKeeps(w, es[0]);
      RunKeeps(Next(w, es[0]), es[1..]);
    }
  }

  // ---- runs in which no process booted with `-S` serves strings ----

  lemma EventCounts(w: World, e: Event)
    requires Counting(w) && Allowed(w, e)
    ensures Fresh(w, e) && Counting(Next(w, e))
  {
    hide Rebuild, Put, FindAll, Below, LookupValues, Missing, NewPrefixes, Unused;
    if e.BootUp? && !e.noS2i { BootCounter(w.db); }
    if w.Up? {
      NoneRequested(w.st.index, w.st.cnt);
      assert Committed(w, e) == [] ==> |NewPrefixes(w.st.index, Committed(w, e))| == 0;
      NothingUnused(w.st.db, w.st.cnt);
      if !w.bootedS { BelowUnused(w.st.db, w.st.cnt, |NewPrefixes(w.st.index, Committed(w, e))|); }
    }
    if e.Request? && e.req.op == STR2ID && Serving(w) {
      RequestStaysBelow(w.st.index, w.st.cnt, w.st.db, e.req.strings);
    }
  }

  lemma NothingUnused(db: Db, cnt: NumID)
    ensures Unused(db, cnt, 0)
  {
  }

  lemma {:induction false} AllowedRunIsFresh(w: World, es: seq<Event>)
    requires Counting(w) && AllowedRun(w, es)
    ensures FreshRun(w, es) && Counting(After(w, es))
    decreases |es|
  {
    hide Next, Possible, Fresh, Counting;
    if es != [] {
      EventCounts(w, es[0]);
      AllowedRunIsFresh(Next(w, es[0]), es[1..]);
    }
  }

  // ---- main results ----

  /** Index coherence: in every reachable enabled state the incrementally maintained
      index is the one a reload would build, so disable followed by enable gives back
      the very same state, and with it every later answer. */
  lemma DisableEnableIsIdentity(db0: Db, es: seq<Event>)
    requires FreshRun(Down(db0), es) && Serving(After(Down(db0), es))
    ensures var st := After(Down(db0), es).st;
            st.index == Rebuild(st.db) && Enable(Disable(st)) == st
  {
    hide Rebuild, After, FreshRun;
    RunKeeps(Down(db0), es);
    var st := After(Down(db0), es).st;
    assert map[] + Rebuild(st.db) == Rebuild(st.db);
  }

  /** Where no process booted with `-S` serves strings, every event hands out fresh ids,
      and the counter of a process booted without `-S` exceeds every stored id in every
      reachable state, disabled or not. */
  lemma CounterAboveIds(db0: Db, es: seq<Event>)
    requires AllowedRun(Down(db0), es)
    ensures FreshRun(Down(db0), es)
    ensures var w := After(Down(db0), es); w.Up? && !w.bootedS ==> Below(w.st.db, w.st.cnt)
  {
    hide After, AllowedRun, FreshRun, PossibleRun;
    AllowedRunIsFresh(Down(db0), es);
  }

  /** Acknowledged bindings are permanent in every run of fresh ids, whatever its processes
      were booted with. Once STR2ID answered `id` for a string, then
      after any further events (crashes and reboots included) every STR2ID of a string
      with the same C prefix that is not rejected answers `id`, and every ID2STR of
      `id` succeeds with the one string bound to it at the acknowledgement (the requested
      string itself, where neither holds a NUL). */
  lemma AcknowledgedForever(db0: Db, before: seq<Event>, q1: Query, between: seq<Event>, q2: Query, i: nat, j: nat)
    requires FreshRun(Down(db0), before + ([Request(q1)] + (between + [Request(q2)])))
    requires q1.op == STR2ID && i < |q1.strings|
    ensures PossibleRun(Down(db0), before)
    ensures var w1 := After(Down(db0), before);
            && Possible(w1, Request(q1)) && PossibleRun(Next(w1, Request(q1)), between)
            && var w2 := After(Next(w1, Request(q1)), between);
            && Possible(w2, Request(q2))
            && var (r1, r2) := (Serve(w1.st, q1).1, Serve(w2.st, q2).1);
            r1.Answered? && r2.Answered? ==>
              var id := r1.response.ids[i];
              var bound := Next(w1, Request(q1)).st.db;
              && id in bound && CStr(bound[id]) == CStr(q1.strings[i])
              && (0 !in q1.strings[i] && 0 !in bound[id] ==> bound[id] == q1.strings[i])
              && (q2.op == STR2ID && j < |q2.strings| && CStr(q2.strings[j]) == CStr(q1.strings[i]) ==>
                    r2.response.ids[j] == id)
              && (q2.op == ID2STR && j < |q2.ids| && q2.ids[j] == id ==>
                    j !in r2.response.failures && r2.response.strings[j] == bound[id])
  {
    var rest := between + [Request(q2)];
    RunConcat(Down(db0), before, [Request(q1)] + rest);
    var w1 := After(Down(db0), before);
    assert ([Request(q1)] + rest)[1..] == rest;
    var w1' := Next(w1, Request(q1));
    RunConcat(w1', between, [Request(q2)]);
    var w2 := After(w1', between);
    assert [Request(q2)][1..] == [];
    RunKeeps(Down(db0), before);
    if Serving(w1) {
      EventKeeps(w1, Request(q1));
      RunKeeps(w1', between);
      AnswersFollowIndex(w1.st, q1, i);
      CStrIsIdentity(q1.strings[i]);
      CStrIsIdentity(w1'.st.db[w1'.st.index[CStr(q1.strings[i])]]);
      if Serving(w2) && q2.op == STR2ID && j < |q2.strings| {
        AnswersFollowIndex(w2.st, q2, j);
        EventKeeps(w2, Request(q2));
      }
    }
  }

  /** The i-th answer is what the index says afterwards, and the store agrees. */
  lemma AnswersFollowIndex(st: State, req: Query, i: nat)
    requires !st.disabled && st.index == Rebuild(st.db)
    requires req.op == STR2ID && Fits(st, req) && i < |req.strings|
    requires Unused(st.db, st.cnt, |NewPrefixes(st.index, req.strings)|)
    ensures var (st', r) := Serve(st, req); var c := CStr(req.strings[i]);
            && c in st'.index && r.response.ids[i] == st'.index[c]
            && st'.index[c] in st'.db && CStr(st'.db[st'.index[c]]) == c
  {
    hide Rebuild, Put, FindAll, NewPrefixes;
    RebuildIsIndex(st.db);
    FindAllServes(st.index, st.cnt, st.db, req.strings);
  }
}
