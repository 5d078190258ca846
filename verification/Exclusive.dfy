/** A schedule that keeps answers permanent: if disable and enable threads overlap
    neither a mutex holder nor one another, every interleaving is a run of serialised
    operations. */
module Exclusive {
  import opened Bytes
  import opened Store
  import opened Service
  import opened Batches
  import opened Runs
  import opened Interleaving
  import opened Linearise
  import opened Alone
  import opened Soundness
  import opened Permanence

  /** Inside the mutex, or past its read of the flag in `disable_s2i` or `enable_s2i`. */
  predicate Busy(th: Thread) {
    th.Holds() || th.Unloading? || th.Unloaded? || th.Seeking? || th.Loading?
  }

  /** At most one thread is busy. */
  predicate Exclusive(s: Sys) {
    forall t, u | t in s.threads && u in s.threads && Busy(s.threads[t]) && Busy(s.threads[u]) :: t == u
  }

  /** ... throughout the run. */
  predicate ExclusiveRun(s: Sys, run: seq<Action>)
    requires Interleaving.Run(s, run)
    decreases |run|
  {
    Exclusive(s) && (run != [] ==> ExclusiveRun(Do(s, run[0]), run[1..]))
  }

  predicate Idle(s: Sys) {
    forall t | t in s.threads :: !Busy(s.threads[t])
  }

  // ---- the state of a busy thread's operation ----

  /** A busy thread against `q`, the state its operation started from. */
  ghost predicate Working(q: State, p: State, th: Thread) {
    match th
    case Unloading => p == q && !q.disabled
    case Unloaded => p == q.(index := map[]) && !q.disabled
    case Seeking => p == q && q.disabled
    case Loading(rest) => q.disabled && exists i: nat :: LoadedTo(q, p, rest, i)
    case Waiting(_) => false
    case Disabling => false
    case Enabling => false
    case _ => Underway(q, p, th, th.req)
  }

  /** The first `i` records of the store have been loaded over the index. */
  ghost predicate LoadedTo(q: State, p: State, rest: seq<KVPair>, i: nat) {
    IterationInOrder(q.db.Keys);
    var ks := Iteration(q.db.Keys);
    && i <= |ks| && rest == Records(q.db, ks)[i..]
    && p == q.(index := q.index + LoadIndex(q.db, ks[..i]))
  }

  ghost predicate Tied(q: State, s: Sys) {
    && (forall t | t in s.threads :: s.threads[t].Holds() <==> s.lock == HeldBy(t))
    && (s.lock.HeldBy? ==> s.lock.t in s.threads)
    && (forall t | t in s.threads && Busy(s.threads[t]) :: Working(q, s.p, s.threads[t]))
    && (Idle(s) ==> s.p == q)
  }

  // ---- answers of serialised runs ----

  function EventAcks(w: World, e: Event): set<(Str, NumID)>
    requires Possible(w, e)
  {
    if e.Request? then Acked(e.req, Serve(w.st, e.req).1) else {}
  }

  /** The answers of a serialised run. */
  function RunAcks(w: World, es: seq<Event>): set<(Str, NumID)>
    requires PossibleRun(w, es)
    decreases |es|
  {
    if es == [] then {} else EventAcks(w, es[0]) + RunAcks(Next(w, es[0]), es[1..])
  }

  /** The exchanges of the running process after an event, request and reply. */
  function Exchanged(w: World, e: Event, sofar: seq<(Query, Reply)>): seq<(Query, Reply)>
    requires Possible(w, e)
  {
    match e
    case Request(req) => sofar + [(req, Serve(w.st, req).1)]
    case BootUp(_) => []
    case _ => sofar
  }

  /** ... and after a run: those since its last boot, in order. */
  function RunExchanges(w: World, es: seq<Event>, sofar: seq<(Query, Reply)>): seq<(Query, Reply)>
    requires PossibleRun(w, es)
    decreases |es|
  {
    if es == [] then sofar else RunExchanges(Next(w, es[0]), es[1..], Exchanged(w, es[0], sofar))
  }

  /** The requests acquired the mutex in the order of the exchanges and were sent their
      replies; the mutex holder's request comes next. */
  ghost predicate Matched(s: Sys, exchanges: seq<(Query, Reply)>) {
    var n := |exchanges|;
    && |s.replies| == n && |s.order| == n + (if s.lock.HeldBy? then 1 else 0)
    && (forall i | 0 <= i < n :: s.order[i] == (s.replies[i].0, exchanges[i].0))
    && (forall i | 0 <= i < n :: s.replies[i].1 == exchanges[i].1)
    && (s.lock.HeldBy? ==>
          && s.lock.t in s.threads && s.threads[s.lock.t].Holds()
          && s.order[n] == (s.lock.t, s.threads[s.lock.t].req))
  }

  // ---- a step of the busy thread ----

  /** A step of `t` while nobody else is busy. */
  lemma TiedFrame(q: State, s: Sys, s': Sys, t: Tid)
    requires forall u | u in s.threads && u != t :: !Busy(s.threads[u])
    requires s'.threads - {t} == s.threads - {t}
    requires s'.lock == if t in s'.threads && s'.threads[t].Holds() then HeldBy(t) else Free
    requires if t in s'.threads && Busy(s'.threads[t]) then Working(q, s'.p, s'.threads[t]) else s'.p == q
    ensures Tied(q, s')
  {
    hide Working;
    forall u | u in s'.threads && u != t ensures !Busy(s'.threads[u]) {
      assert u in s'.threads - {t};
      assert u in s.threads && s'.threads[u] == s.threads[u] by { assert u in s.threads - {t}; }
    }
  }

  /** A step of a thread that is busy neither before nor after, or a new thread. */
  lemma TiedBystander(q: State, s: Sys, s': Sys, t: Tid)
    requires Tied(q, s)
    requires t in s.threads ==> !Busy(s.threads[t])
    requires s'.threads - {t} == s.threads - {t} && (t in s'.threads ==> !Busy(s'.threads[t]))
    requires s'.p == s.p && s'.lock == s.lock
    ensures Tied(q, s')
  {
    hide Working;
    assert forall u | u != t :: u in s'.threads <==> u in s'.threads - {t};
    assert forall u | u != t :: u in s.threads <==> u in s.threads - {t};
    forall u | u in s'.threads && u != t ensures u in s.threads && s'.threads[u] == s.threads[u] {
      assert s'.threads[u] == (s'.threads - {t})[u];
    }
    assert Idle(s') ==> Idle(s);
  }

  /** Acquiring the mutex, and reading the flag. */
  lemma BecomesBusy(q: State, s: Sys, t: Tid)
    requires Enabled(s, Turn(t)) && s.p == q && !Busy(s.threads[t])
    ensures var s' := Do(s, Turn(t));
            && s'.acks == s.acks && s'.p == s.p && s'.threads - {t} == s.threads - {t}
            && (t in s'.threads && Busy(s'.threads[t]) ==> Working(q, s'.p, s'.threads[t]))
            && (t in s'.threads && s'.threads[t].Holds() ==> s'.lock == HeldBy(t))
            && ((t in s'.threads && s'.threads[t].Holds()) || s'.lock == s.lock)
  {
  }

  lemma LoadsOn(q: State, s: Sys, t: Tid, i: nat)
    requires t in s.threads && s.threads[t].Loading? && s.threads[t].rest != []
    requires LoadedTo(q, s.p, s.threads[t].rest, i)
    ensures Enabled(s, Turn(t))
    ensures var s' := Do(s, Turn(t)); var th' := Loading(s.threads[t].rest[1..]);
            s' == Become(s, t, th').(p := s'.p) && LoadedTo(q, s'.p, th'.rest, i + 1)
  {
    hide CStr, Rank, LoadIndex, Iteration, FindOne, Put, Do;
    IterationInOrder(q.db.Keys);
    var ks := Iteration(q.db.Keys);
    LoadOneAlone(s, t, q.index, ks, i);
    assert Records(q.db, ks)[i..][1..] == Records(q.db, ks)[i + 1..];
  }

  /** A step in the middle of an operation. */
  ghost predicate Progresses(q: State, s: Sys, t: Tid, s': Sys)
    requires t in s.threads
  {
    && s'.acks == s.acks && s'.lock == s.lock && s'.threads - {t} == s.threads - {t}
    && t in s'.threads && Busy(s'.threads[t]) && Working(q, s'.p, s'.threads[t])
    && (s'.threads[t].Holds() <==> s.threads[t].Holds())
  }

  lemma HolderWorksOn(q: State, s: Sys, t: Tid)
    requires Enabled(s, Turn(t)) && s.threads[t].Holds() && Working(q, s.p, s.threads[t])
    requires !s.threads[t].Replying?
    ensures Progresses(q, s, t, Do(s, Turn(t)))
  {
    hide Underway, Do;
    var req := s.threads[t].req;
    TurnUnderway(q, s, t, req);
    HolderStays(s, t);
    HolderActs(s, t);
    UnderwayIsWorking(q, Do(s, Turn(t)).p, Do(s, Turn(t)).threads[t], req);
    assert Do(s, Turn(t)).threads - {t} == s.threads - {t};
  }

  lemma HolderActs(s: Sys, t: Tid)
    requires Enabled(s, Turn(t)) && s.threads[t].Holds() && !s.threads[t].Replying?
    ensures Do(s, Turn(t)).acks == s.acks
  {
    hide FindOne, Put;
  }

  lemma UnderwayIsWorking(q: State, p: State, th: Thread, req: Query)
    requires Underway(q, p, th, req)
    ensures th.Holds() && Working(q, p, th)
  {
    hide FindAll, LookupValues, Missing, Serve;
  }

  lemma LoaderWorksOn(q: State, s: Sys, t: Tid)
    requires t in s.threads && Enabled(s, Turn(t)) && s.threads[t].Loading? && s.threads[t].rest != []
    requires Working(q, s.p, s.threads[t])
    ensures Progresses(q, s, t, Do(s, Turn(t)))
  {
    hide LoadedTo, Do, Enabled;
    var rest := s.threads[t].rest;
    var i: nat :| LoadedTo(q, s.p, rest, i);
    LoadsOn(q, s, t, i);
    var s' := Do(s, Turn(t));
    assert LoadedTo(q, s'.p, rest[1..], i + 1) && s'.threads[t] == Loading(rest[1..]);
  }

  lemma SwitchWorksOn(q: State, s: Sys, t: Tid)
    requires Enabled(s, Turn(t)) && (s.threads[t].Unloading? || s.threads[t].Seeking?) && Working(q, s.p, s.threads[t])
    ensures Progresses(q, s, t, Do(s, Turn(t)))
  {
    hide LoadedTo, Underway, Snapshot, FindOne, Put, CStr, Rank;
    StartsLoading(q);
    assert Do(s, Turn(t)).threads - {t} == s.threads - {t};
  }

  lemma WorksOn(q: State, s: Sys, t: Tid)
    requires t in s.threads && Enabled(s, Turn(t)) && Busy(s.threads[t]) && Working(q, s.p, s.threads[t])
    requires !s.threads[t].Replying? && !s.threads[t].Unloaded? && s.threads[t] != Loading([])
    ensures Progresses(q, s, t, Do(s, Turn(t)))
  {
    hide Enabled, Working, Progresses, Do;
    if s.threads[t].Holds() {
      HolderWorksOn(q, s, t);
    } else if s.threads[t].Loading? {
      LoaderWorksOn(q, s, t);
    } else {
      SwitchWorksOn(q, s, t);
    }
  }

  lemma StartsLoading(q: State)
    ensures LoadedTo(q, q, Snapshot(q.db), 0)
  {
    hide Rank, CStr;
    IterationInOrder(q.db.Keys);
    assert q.index + map[] == q.index;
  }

  /** The last step of an operation: the whole of it happens, as one event. */
  predicate Finishing(th: Thread) {
    th.Replying? || th.Unloaded? || th == Loading([])
  }

  function EventOf(th: Thread): Event
    requires Finishing(th)
  {
    if th.Replying? then Request(th.req) else if th.Unloaded? then DisableS2i else EnableS2i
  }

  lemma Finishes(q: State, s: Sys, t: Tid)
    requires t in s.threads && Finishing(s.threads[t]) && Working(q, s.p, s.threads[t])
    ensures var (w, e) := (Up(q, false), EventOf(s.threads[t]));
            && Enabled(s, Turn(t)) && Allowed(w, e)
            && var s' := Do(s, Turn(t));
               && Next(w, e) == Up(s'.p, false) && s'.acks == s.acks + EventAcks(w, e)
               && s'.threads == s.threads - {t} && s'.lock == if s.threads[t].Replying? then Free else s.lock
  {
    hide CStr, Rank, LoadIndex, Iteration, FindAll, FindOne, LookupValues, Missing, Put;
    var th := s.threads[t];
    if th.Loading? {
      IterationInOrder(q.db.Keys);
      var ks := Iteration(q.db.Keys);
      var i: nat :| LoadedTo(q, s.p, th.rest, i);
      assert i == |ks| by { assert |Records(q.db, ks)[i..]| == |ks| - i; }
      assert ks[..i] == ks;
    }
  }

  // ---- a crash ----

  /** The crash, as the serialised model sees it. */
  function CrashEvent(q: State, s: Sys): Event {
    if s.lock.HeldBy? && s.lock.t in s.threads then
      match s.threads[s.lock.t]
      case Finding(req, ids, _) => CrashInStr2Id(req.strings, |ids|, false)
      case Replying(req, _) =>
        if req.op == STR2ID && !q.disabled then CrashInStr2Id(req.strings, |req.strings|, true) else Crash
      case _ => Crash
    else Crash
  }

  /** Unless the mutex holder wrote its batch, the store is as the operation found it. */
  lemma StoreUntouched(q: State, s: Sys)
    requires Tied(q, s) && (s.lock.Free? || !s.threads[s.lock.t].Replying?)
    ensures s.p.db == q.db
  {
    hide FindAll, LoadIndex, Iteration, Rank, LookupValues, Missing;
    if t :| t in s.threads && Busy(s.threads[t]) {
      assert Working(q, s.p, s.threads[t]);
    }
  }

  lemma CrashIsEvent(q: State, s: Sys)
    requires Tied(q, s)
    ensures var (w, e) := (Up(q, false), CrashEvent(q, s));
            Allowed(w, e) && Next(w, e) == Down(s.p.db) && !e.Request?
  {
    hide CStr, LoadedTo, FindAll, LookupValues, Missing, Put;
    if s.lock.Free? {
      StoreUntouched(q, s);
    } else {
      var th := s.threads[s.lock.t];
      assert Working(q, s.p, th);
      if th.Replying? {
        assert th.req.strings[..|th.req.strings|] == th.req.strings;
      } else {
        StoreUntouched(q, s);
      }
    }
  }

  // ---- the order of replies ----

  /** Any step but the last of a request keeps the exchanges. */
  lemma TurnKeepsMatched(s: Sys, t: Tid, ex: seq<(Query, Reply)>)
    requires Matched(s, ex) && Enabled(s, Turn(t)) && !s.threads[t].Replying?
    requires s.threads[t].Holds() <==> s.lock == HeldBy(t)
    ensures Matched(Do(s, Turn(t)), ex)
  {
    hide CStr, FindOne, Put, Rank, Snapshot;
    var s' := Do(s, Turn(t));
    if s.lock.HeldBy? && s.lock.t != t {
      assert s'.threads[s.lock.t] == s.threads[s.lock.t];
    }
  }

  lemma ReplyMatched(s: Sys, t: Tid, ex: seq<(Query, Reply)>)
    requires Matched(s, ex) && Enabled(s, Turn(t)) && s.threads[t].Replying? && s.lock == HeldBy(t)
    ensures Matched(Do(s, Turn(t)), ex + [(s.threads[t].req, s.threads[t].reply)])
  {
    hide Acked;
  }

  lemma SpawnMatched(s: Sys, t: Tid, start: Thread, ex: seq<(Query, Reply)>)
    requires Matched(s, ex) && Enabled(s, Spawn(t, start))
    ensures Matched(Do(s, Spawn(t, start)), ex)
  {
  }

  // ---- every step is simulated ----

  /** `es` takes `q` to `q'` and gives the answers and the replies that the step from `s`
      to `s'` gives, on top of the exchanges `ex`. */
  ghost predicate Simulates(q: State, s: Sys, ex: seq<(Query, Reply)>, es: seq<Event>, q': State, s': Sys) {
    && AllowedRun(Up(q, false), es) && Runs.After(Up(q, false), es) == Up(q', false)
    && Tied(q', s') && s'.acks == s.acks + RunAcks(Up(q, false), es)
    && Matched(s', RunExchanges(Up(q, false), es, ex))
  }

  lemma NoEvent(w: World, ex: seq<(Query, Reply)>)
    ensures AllowedRun(w, []) && Runs.After(w, []) == w && RunAcks(w, []) == {} && RunExchanges(w, [], ex) == ex
  {
  }

  lemma OneEvent(w: World, e: Event, ex: seq<(Query, Reply)>)
    requires Allowed(w, e)
    ensures AllowedRun(w, [e]) && Runs.After(w, [e]) == Next(w, e) && RunAcks(w, [e]) == EventAcks(w, e)
    ensures RunExchanges(w, [e], ex) == Exchanged(w, e, ex)
  {
    hide Next, Possible, EventAcks, Exchanged;
    NoEvent(Next(w, e), Exchanged(w, e, ex));
    assert [e][1..] == [];
  }

  lemma TwoEvents(w: World, e: Event, f: Event, ex: seq<(Query, Reply)>)
    requires Allowed(w, e) && Allowed(Next(w, e), f)
    ensures AllowedRun(w, [e, f]) && Runs.After(w, [e, f]) == Next(Next(w, e), f)
    ensures RunAcks(w, [e, f]) == EventAcks(w, e) + EventAcks(Next(w, e), f)
    ensures RunExchanges(w, [e, f], ex) == Exchanged(Next(w, e), f, Exchanged(w, e, ex))
  {
    hide Next, Possible, EventAcks, Exchanged;
    OneEvent(Next(w, e), f, Exchanged(w, e, ex));
    assert [e, f][1..] == [f];
  }

  lemma TurnSimulated(q: State, s: Sys, ex: seq<(Query, Reply)>, t: Tid) returns (es: seq<Event>, q': State)
    requires Tied(q, s) && Matched(s, ex)
    requires Enabled(s, Turn(t)) && Exclusive(s) && Exclusive(Do(s, Turn(t)))
    ensures Simulates(q, s, ex, es, q', Do(s, Turn(t)))
  {
    hide Working, AllowedRun, PossibleRun, Runs.After, RunAcks, RunExchanges, EventAcks, Exchanged, Matched;
    hide Do, Next, Possible, Allowed;
    var s' := Do(s, Turn(t));
    es, q' := [], q;
    NoEvent(Up(q, false), ex);
    if Busy(s.threads[t]) {
      if Finishing(s.threads[t]) {
        Finishes(q, s, t);
        es, q' := [EventOf(s.threads[t])], s'.p;
        OneEvent(Up(q, false), es[0], ex);
        TiedFrame(q', s, s', t);
        FinishMatched(q, s, ex, t);
      } else {
        WorksOn(q, s, t);
        TiedFrame(q, s, s', t);
        TurnKeepsMatched(s, t, ex);
      }
    } else {
      TurnStarts(q, s, t);
      TurnKeepsMatched(s, t, ex);
    }
  }

  lemma FinishMatched(q: State, s: Sys, ex: seq<(Query, Reply)>, t: Tid)
    requires Matched(s, ex) && Enabled(s, Turn(t)) && Finishing(s.threads[t])
    requires Working(q, s.p, s.threads[t]) && (s.threads[t].Holds() <==> s.lock == HeldBy(t))
    ensures var e := EventOf(s.threads[t]);
            Possible(Up(q, false), e) && Matched(Do(s, Turn(t)), Exchanged(Up(q, false), e, ex))
  {
    hide Matched, Do, LoadedTo, Serve;
    if s.threads[t].Replying? {
      ReplyMatched(s, t, ex);
    } else {
      TurnKeepsMatched(s, t, ex);
    }
  }

  lemma TurnStarts(q: State, s: Sys, t: Tid)
    requires Tied(q, s) && Enabled(s, Turn(t)) && !Busy(s.threads[t]) && Exclusive(Do(s, Turn(t)))
    ensures Tied(q, Do(s, Turn(t))) && Do(s, Turn(t)).acks == s.acks
  {
    hide Working;
    var s' := Do(s, Turn(t));
    if t in s'.threads && Busy(s'.threads[t]) {
      forall u | u in s.threads && u != t ensures !Busy(s.threads[u]) {
        assert u in s'.threads && s'.threads[u] == s.threads[u];
      }
      BecomesBusy(q, s, t);
      TiedFrame(q, s, s', t);
    } else {
      TiedBystander(q, s, s', t);
    }
  }

  lemma RebootSimulated(q: State, s: Sys, ex: seq<(Query, Reply)>) returns (es: seq<Event>, q': State)
    requires Tied(q, s) && Enabled(s, Reboot)
    ensures Simulates(q, s, ex, es, q', Do(s, Reboot))
  {
    hide AllowedRun, PossibleRun, Runs.After, RunAcks, RunExchanges, Boot, Bootable, CrashEvent;
    CrashIsEvent(q, s);
    es, q' := [CrashEvent(q, s), BootUp(false)], Boot(s.p.db, false);
    TwoEvents(Up(q, false), es[0], es[1], ex);
  }

  lemma SpawnSimulated(q: State, s: Sys, t: Tid, start: Thread)
    requires Tied(q, s) && Enabled(s, Spawn(t, start))
    ensures Tied(q, Do(s, Spawn(t, start))) && Do(s, Spawn(t, start)).acks == s.acks
  {
    hide Working;
    TiedBystander(q, s, Do(s, Spawn(t, start)), t);
  }

  lemma StepSimulated(q: State, s: Sys, ex: seq<(Query, Reply)>, a: Action) returns (es: seq<Event>, q': State)
    requires Tied(q, s) && Matched(s, ex) && Enabled(s, a) && Exclusive(s) && Exclusive(Do(s, a))
    ensures Simulates(q, s, ex, es, q', Do(s, a))
  {
    hide Tied, Matched, Exclusive, Enabled, Do, AllowedRun, PossibleRun, Runs.After, RunAcks, RunExchanges;
    match a
    case Turn(t) =>
      es, q' := TurnSimulated(q, s, ex, t);
    case Spawn(t, start) =>
      es, q' := [], q;
      NoEvent(Up(q, false), ex);
      SpawnSimulated(q, s, t, start);
      SpawnMatched(s, t, start, ex);
    case Reboot =>
      es, q' := RebootSimulated(q, s, ex);
  }

  lemma {:induction false} EventsJoin(w: World, a: seq<Event>, b: seq<Event>, ex: seq<(Query, Reply)>)
    requires AllowedRun(w, a) && AllowedRun(Runs.After(w, a), b)
    ensures AllowedRun(w, a + b) && Runs.After(w, a + b) == Runs.After(Runs.After(w, a), b)
    ensures RunAcks(w, a + b) == RunAcks(w, a) + RunAcks(Runs.After(w, a), b)
    ensures RunExchanges(w, a + b, ex) == RunExchanges(Runs.After(w, a), b, RunExchanges(w, a, ex))
    decreases |a|
  {
    hide Next, Possible, EventAcks, Exchanged;
    if a == [] {
      assert a + b == b;
    } else {
      assert (a + b)[0] == a[0] && (a + b)[1..] == a[1..] + b;
      EventsJoin(Next(w, a[0]), a[1..], b, Exchanged(w, a[0], ex));
    }
  }

  lemma {:induction false} RunSimulated(q: State, s: Sys, ex: seq<(Query, Reply)>, run: seq<Action>)
    returns (es: seq<Event>, q': State)
    requires Tied(q, s) && Matched(s, ex) && Interleaving.Run(s, run) && ExclusiveRun(s, run)
    ensures Simulates(q, s, ex, es, q', Interleaving.After(s, run))
    decreases |run|
  {
    hide Tied, Matched, Do, Enabled, Exclusive, AllowedRun, PossibleRun, Runs.After, RunAcks, RunExchanges;
    es, q' := [], q;
    NoEvent(Up(q, false), ex);
    if run != [] {
      var a, s1 := run[0], Do(s, run[0]);
      assert Exclusive(s1);
      var es1, q1 := StepSimulated(q, s, ex, a);
      var es2, q2 := RunSimulated(q1, s1, RunExchanges(Up(q, false), es1, ex), run[1..]);
      EventsJoin(Up(q, false), es1, es2, ex);
      es, q' := es1 + es2, q2;
    }
  }

  // ---- answers of serialised runs are what a reload would index ----

  ghost predicate AcksIndexed(acks: set<(Str, NumID)>, index: map<Str, NumID>) {
    forall x | x in acks :: CStr(x.0) in index && index[CStr(x.0)] == x.1
  }

  lemma EventAcksIndexed(w: World, e: Event)
    requires Coherent(w) && Possible(w, e) && Fresh(w, e)
    ensures AcksIndexed(EventAcks(w, e), Rebuild(Disk(Next(w, e))))
  {
    hide CStr, Rank, Rebuild, FindAll, Put, NewPrefixes, Unused, LookupValues, Missing;
    if e.Request? && e.req.op == STR2ID && Serving(w) {
      EventKeeps(w, e);
      forall x | x in EventAcks(w, e)
        ensures var index := Rebuild(Disk(Next(w, e))); CStr(x.0) in index && index[CStr(x.0)] == x.1
      {
        var ids := Serve(w.st, e.req).1.response.ids;
        var i :| 0 <= i < |e.req.strings| && x == (e.req.strings[i], ids[i]);
        AnswersFollowIndex(w.st, e.req, i);
      }
    }
  }

  lemma {:induction false} RunAcksIndexed(w: World, es: seq<Event>)
    requires Coherent(w) && FreshRun(w, es)
    ensures AcksIndexed(RunAcks(w, es), Rebuild(Disk(Runs.After(w, es))))
    decreases |es|
  {
    hide CStr, Rebuild, Disk, Next, Possible, Fresh, EventAcks, Coherent, Keeps;
    if es != [] {
      EventKeeps(w, es[0]);
      EventAcksIndexed(w, es[0]);
      Runs.RunKeeps(Next(w, es[0]), es[1..]);
      RunAcksIndexed(Next(w, es[0]), es[1..]);
      AcksStayIndexed(EventAcks(w, es[0]), Disk(Next(w, es[0])), Disk(Runs.After(w, es)));
    }
  }

  lemma AcksStayIndexed(acks: set<(Str, NumID)>, db: Db, db': Db)
    requires AcksIndexed(acks, Rebuild(db)) && Keeps(db, db')
    ensures AcksIndexed(acks, Rebuild(db'))
  {
    hide CStr, Rebuild;
  }

  // ---- main results ----

  /** Every interleaving in which disables and enables overlap neither a mutex holder nor
      one another is a run of serialised operations. The running process sent the replies
      of this run, one per request, in the order the requests acquired the mutex; the
      clients of all processes got its answers; and whenever no thread is busy the process
      is in its state. Crashes fall anywhere. */
  lemma ExclusiveRunsSerialise(db0: Db, run: seq<Action>) returns (es: seq<Event>, q: State)
    requires Bootable(db0, false) && Interleaving.Run(Start(Boot(db0, false)), run)
    requires ExclusiveRun(Start(Boot(db0, false)), run)
    ensures var s := Interleaving.After(Start(Boot(db0, false)), run);
            && AllowedRun(Down(db0), [BootUp(false)] + es)
            && Runs.After(Down(db0), [BootUp(false)] + es) == Up(q, false)
            && Matched(s, RunExchanges(Down(db0), [BootUp(false)] + es, []))
            && s.acks == RunAcks(Down(db0), [BootUp(false)] + es)
            && Tied(q, s) && (Idle(s) ==> s.p == q)
  {
    hide AllowedRun, PossibleRun, Runs.After, RunAcks, RunExchanges, Interleaving.Run, Interleaving.After;
    hide ExclusiveRun, Rebuild;
    OneEvent(Down(db0), BootUp(false), []);
    es, q := RunSimulated(Boot(db0, false), Start(Boot(db0, false)), [], run);
    EventsJoin(Down(db0), [BootUp(false)], es, []);
  }

  /** Under such a schedule the index stays complete: a find misses no bound string, an
      idle enabled process has the index a reload would build; and every answer is
      permanent: one id per string over the whole run, which the index gives again. */
  lemma ExclusiveAnswersPermanent(db0: Db, run: seq<Action>)
    requires Bootable(db0, false) && Interleaving.Run(Start(Boot(db0, false)), run)
    requires ExclusiveRun(Start(Boot(db0, false)), run)
    ensures var s := Interleaving.After(Start(Boot(db0, false)), run);
            && Functional(s.acks)
            && (AtFind(s) ==> !Forks(s))
            && (Idle(s) ==> s.p.index == if s.p.disabled then map[] else Rebuild(s.p.db))
            && (Idle(s) && !s.p.disabled ==> AcksIndexed(s.acks, s.p.index))
  {
    hide CStr, Rebuild, AllowedRun, FreshRun, PossibleRun, Runs.After, RunAcks, RunExchanges, Interleaving.Run,
         Interleaving.After, Matched, ExclusiveRun, Forks, Bootable, Boot;
    var es, q := ExclusiveRunsSerialise(db0, run);
    AllowedRunIsFresh(Down(db0), [BootUp(false)] + es);
    Runs.RunKeeps(Down(db0), [BootUp(false)] + es);
    RunAcksIndexed(Down(db0), [BootUp(false)] + es);
    var s := Interleaving.After(Start(Boot(db0, false)), run);
    if AtFind(s) { CoherentNeverForks(q, s); }
  }

  lemma CoherentNeverForks(q: State, s: Sys)
    requires Coherent(Up(q, false)) && Counting(Up(q, false)) && Tied(q, s) && AtFind(s)
    ensures !Forks(s)
  {
    hide CStr, Rank, Rebuild, Put, FindAll, Below, NewPrefixes, Unused, LoadedTo;
    var Finding(req, ids, pairs) := s.threads[s.lock.t];
    assert Working(q, s.p, s.threads[s.lock.t]);
    RebuildIsIndex(q.db);
    BelowUnused(q.db, q.cnt, |NewPrefixes(q.index, req.strings[..|ids|])|);
    FindAllServes(q.index, q.cnt, q.db, req.strings[..|ids|]);
    if k :| k in IdsOf(Visible(s), Sought(s)) {
      assert CStr(Visible(s)[k]) in s.p.index;
    }
  }
}
