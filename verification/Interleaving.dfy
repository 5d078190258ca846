/** Threads of one server process between their storage calls. `query_impl` works under
    the mutex; `disable_s2i` and `enable_s2i` take no lock, so their unload, loads and
    flag writes fall anywhere between a query's finds. */
module Interleaving {
  import opened Bytes
  import opened Store
  import opened Service

  type Tid = nat

  /** A thread's program counter and locals. */
  datatype Thread =
    | Waiting(req: Query)
    | Locked(req: Query)
    | Finding(req: Query, ids: seq<NumID>, pairs: seq<KVPair>)
    | Getting(req: Query, values: seq<Str>, failures: seq<Int32>)
    | Replying(req: Query, reply: Reply)
    | Disabling
    | Unloading
    | Unloaded
    | Enabling
    | Seeking
    | Loading(rest: seq<KVPair>)
  {
    /** Between acquiring and releasing the mutex. */
    predicate Holds() {
      Locked? || Finding? || Getting? || Replying?
    }
  }

  datatype Mutex = Free | HeldBy(t: Tid)

  /** `acks` are the (string, id) pairs clients were answered, by any process so far;
      `order` and `replies` record lock acquisitions and replies of this process. */
  datatype Sys = Sys(p: State, lock: Mutex, threads: map<Tid, Thread>,
                     acks: set<(Str, NumID)>, order: seq<(Tid, Query)>, replies: seq<(Tid, Reply)>)

  datatype Action =
    | Spawn(t: Tid, start: Thread)
    | Turn(t: Tid)
      /** The process dies, with all its threads, and a new one boots without `-S`. */
    | Reboot

  /** No id, index or size of the request overflows. */
  predicate Room(cnt: NumID, req: Query) {
    (req.op == STR2ID ==> cnt + |req.strings| <= MAX_ID) && (req.op == ID2STR ==> |req.ids| <= MAX_32)
  }

  predicate Enabled(s: Sys, a: Action) {
    match a
    case Spawn(t, start) => t !in s.threads && (start.Waiting? || start.Disabling? || start.Enabling?)
    case Reboot => Bootable(s.p.db, false)
    case Turn(t) =>
      && t in s.threads
      && match s.threads[t] {
           case Waiting(req) => s.lock.Free? && Room(s.p.cnt, req)
           case Finding(req, ids, _) => |ids| < |req.strings| ==> s.p.cnt < MAX_ID
           case Getting(req, values, _) => |values| < |req.ids| ==> |values| < MAX_32
           case _ => true
         }
  }

  function Become(s: Sys, t: Tid, th: Thread): Sys {
    s.(threads := s.threads[t := th])
  }

  function Leave(s: Sys, t: Tid): Sys {
    s.(threads := s.threads - {t})
  }

  function Do(s: Sys, a: Action): Sys
    requires Enabled(s, a)
  {
    match a
    case Spawn(t, start) => Become(s, t, start)
    case Reboot => Sys(Boot(s.p.db, false), Free, map[], s.acks, [], [])
    case Turn(t) =>
      match s.threads[t]
      case Waiting(req) => Become(s, t, Locked(req)).(lock := HeldBy(t), order := s.order + [(t, req)])
      case Locked(req) => Become(s, t, Begin(s.p, req))
      case Finding(req, ids, pairs) =>
        if |ids| < |req.strings| then
          var b := FindOne(Batch(s.p.index, s.p.cnt, ids, pairs), req.strings[|ids|]);
          Become(s, t, Finding(req, b.ids, b.pairs)).(p := s.p.(index := b.index, cnt := b.cnt))
        else
          Become(s, t, Replying(req, Answered(Query(req.op, [], ids, [])))).(p := s.p.(db := Put(s.p.db, pairs)))
      case Getting(req, values, failures) =>
        if |values| < |req.ids| then
          var id := req.ids[|values|];
          if id in s.p.db then Become(s, t, Getting(req, values + [s.p.db[id]], failures))
          else Become(s, t, Getting(req, values + [[]], failures + [|values|]))
        else
          Become(s, t, Replying(req, Answered(Query(req.op, values, [], failures))))
      case Replying(req, reply) =>
        Leave(s, t).(lock := Free, replies := s.replies + [(t, reply)], acks := s.acks + Acked(req, reply))
      case Disabling => if s.p.disabled then Leave(s, t) else Become(s, t, Unloading)
      case Unloading => Become(s, t, Unloaded).(p := s.p.(index := map[]))
      case Unloaded => Leave(s, t).(p := s.p.(disabled := true))
      case Enabling => if s.p.disabled then Become(s, t, Seeking) else Leave(s, t)
      case Seeking => Become(s, t, Loading(Snapshot(s.p.db)))
      case Loading(rest) =>
        if rest == [] then Leave(s, t).(p := s.p.(disabled := false))
        else Become(s, t, Loading(rest[1..])).(p := s.p.(index := s.p.index[CStr(rest[0].value) := rest[0].key]))
  }

  /** The branch a query takes once it has the mutex. */
  function Begin(p: State, req: Query): Thread {
    if req.op == ID2STR then Getting(req, [], [])
    else if req.op == STR2ID then
      if p.disabled then Replying(req, Rejected(STR2ID_QUERIES_DISABLED)) else Finding(req, [], [])
    else Replying(req, Answered(Query(req.op, [], [], [])))
  }

  /** The bindings a reply hands to the client. */
  function Acked(req: Query, reply: Reply): set<(Str, NumID)> {
    if req.op == STR2ID && reply.Answered? && |reply.response.ids| == |req.strings| then
      set i | 0 <= i < |req.strings| :: (req.strings[i], reply.response.ids[i])
    else {}
  }

  predicate Run(s: Sys, run: seq<Action>)
    decreases |run|
  {
    run == [] || (Enabled(s, run[0]) && Run(Do(s, run[0]), run[1..]))
  }

  function After(s: Sys, run: seq<Action>): Sys
    requires Run(s, run)
    decreases |run|
  {
    if run == [] then s else After(Do(s, run[0]), run[1..])
  }

  function Start(p: State): Sys {
    Sys(p, Free, map[], {}, [], [])
  }

  lemma {:induction false} RunConcat(s: Sys, a: seq<Action>, b: seq<Action>)
    requires Run(s, a + b)
    ensures Run(s, a) && Run(After(s, a), b) && After(s, a + b) == After(After(s, a), b)
    decreases |a|
  {
    hide Do, Enabled;
    if a == [] {
      assert a + b == b;
    } else {
      assert (a + b)[0] == a[0] && (a + b)[1..] == a[1..] + b;
      RunConcat(Do(s, a[0]), a[1..], b);
    }
  }

  lemma {:induction false} RunJoin(s: Sys, a: seq<Action>, b: seq<Action>)
    requires Run(s, a) && Run(After(s, a), b)
    ensures Run(s, a + b) && After(s, a + b) == After(After(s, a), b)
    decreases |a|
  {
    hide Do, Enabled;
    if a == [] {
      assert a + b == b;
    } else {
      assert (a + b)[0] == a[0] && (a + b)[1..] == a[1..] + b;
      RunJoin(Do(s, a[0]), a[1..], b);
    }
  }

  lemma RunOne(s: Sys, a: Action)
    requires Enabled(s, a)
    ensures Run(s, [a]) && After(s, [a]) == Do(s, a)
  {
    hide Do, Enabled;
    assert [a][1..] == [];
    assert Run(Do(s, a), []) && After(Do(s, a), []) == Do(s, a);
  }
}
