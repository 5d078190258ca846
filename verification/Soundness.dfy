/** Soundness of every interleaving of queries with unlocked disables and enables. */
module Soundness {
  import opened Bytes
  import opened Store
  import opened Service
  import opened Interleaving

  /** `id` is bound to a string with C prefix `c`. */
  ghost predicate Bound(db: Db, c: Str, id: NumID) {
    id in db && CStr(db[id]) == c
  }

  ghost predicate AllBound(db: Db, strings: seq<Str>, ids: seq<NumID>) {
    |ids| <= |strings| && forall i | 0 <= i < |ids| :: Bound(db, CStr(strings[i]), ids[i])
  }

  /** The records the mutex holder has not written yet. */
  ghost function Pending(s: Sys): seq<KVPair> {
    if s.lock.HeldBy? && s.lock.t in s.threads && s.threads[s.lock.t].Finding? then s.threads[s.lock.t].pairs else []
  }

  /** The store as it will be once the pending batch is written. */
  ghost function Visible(s: Sys): Db {
    Put(s.p.db, Pending(s))
  }

  ghost predicate HolderOk(p: State, th: Thread) {
    match th
    case Finding(req, ids, pairs) =>
      && req.op == STR2ID && AllBound(Put(p.db, pairs), req.strings, ids)
      && p.cnt + |req.strings| - |ids| <= MAX_ID
    case Replying(req, reply) =>
      req.op == STR2ID && reply.Answered? ==>
        |reply.response.ids| == |req.strings| && AllBound(p.db, req.strings, reply.response.ids)
    case Locked(req) => Room(p.cnt, req)
    case Getting(req, _, _) => req.op == ID2STR && |req.ids| <= MAX_32
    case _ => false
  }

  ghost predicate OutsideOk(p: State, th: Thread) {
    && !th.Holds()
    && (th.Loading? ==> forall r | r in th.rest :: r.key in p.db && p.db[r.key] == r.value)
  }

  ghost predicate ThreadsOk(s: Sys) {
    && (s.lock.HeldBy? ==> s.lock.t in s.threads && HolderOk(s.p, s.threads[s.lock.t]))
    && (forall t | t in s.threads && s.lock != HeldBy(t) :: OutsideOk(s.p, s.threads[t]))
  }

  ghost predicate IndexOk(index: map<Str, NumID>, db: Db) {
    forall c | c in index :: Bound(db, c, index[c])
  }

  ghost predicate AcksOk(acks: set<(Str, NumID)>, db: Db) {
    forall a | a in acks :: Bound(db, CStr(a.0), a.1)
  }

  /** Holds in every reachable state: the counter exceeds every stored and pending id,
      the pending batch rebinds nothing, every index entry and every answered or about
      to be answered id is backed by a stored or pending record. */
  ghost predicate Inv(s: Sys) {
    && ThreadsOk(s)
    && Extends(s.p.db, Visible(s)) && Below(Visible(s), s.p.cnt)
    && IndexOk(s.p.index, Visible(s))
    && AcksOk(s.acks, s.p.db)
  }

  // ---- every step keeps it ----

  /** A step outside the mutex leaves the invariant alone if it changes only its own
      thread, the flag, and the index into one still backed by the store. */
  lemma OutsideFrame(s: Sys, s': Sys, t: Tid)
    requires Inv(s) && s.lock != HeldBy(t)
    requires s' == s.(p := s'.p, threads := s'.threads)
    requires s'.p.db == s.p.db && s'.p.cnt == s.p.cnt && IndexOk(s'.p.index, Visible(s))
    requires s'.threads - {t} == s.threads - {t}
    requires t in s'.threads ==> OutsideOk(s'.p, s'.threads[t])
    ensures Inv(s')
  {
    hide CStr, Rank, Put, Below, Extends, AllBound, AcksOk, Bound, IndexOk;
    assert forall u | u != t :: u in s'.threads <==> u in s'.threads - {t};
    assert forall u | u != t :: u in s.threads <==> u in s.threads - {t};
    forall u | u in s'.threads && u != t ensures u in s.threads && s'.threads[u] == s.threads[u] {
      assert s'.threads[u] == (s'.threads - {t})[u];
    }
    assert Pending(s') == Pending(s);
  }

  /** A thread outside the mutex: it touches only the index, the flag and itself. */
  lemma OutsideTurnKeeps(s: Sys, t: Tid)
    requires Inv(s) && Enabled(s, Turn(t)) && s.lock != HeldBy(t) && !s.threads[t].Waiting?
    ensures Inv(Do(s, Turn(t))) && Do(s, Turn(t)).p.db == s.p.db
  {
    hide CStr, Rank, Put, Below, Extends, AcksOk, Bound, IndexOk, HolderOk, Visible, Snapshot;
    var s' := Do(s, Turn(t));
    assert OutsideOk(s.p, s.threads[t]);
    match s.threads[t] {
      case Unloading => NothingIndexed(Visible(s));
      case Loading(rest) => if rest != [] { LoadOne(s.p.index, s.p.db, Visible(s), rest[0]); }
      case Seeking => SnapshotOk(s.p.db);
      case _ =>
    }
    OutsideFrame(s, s', t);
  }

  lemma NothingIndexed(db: Db)
    ensures IndexOk(map[], db)
  {
  }

  lemma LoadOne(index: map<Str, NumID>, db: Db, visible: Db, r: KVPair)
    requires IndexOk(index, visible) && Extends(db, visible) && r.key in db && db[r.key] == r.value
    ensures IndexOk(index[CStr(r.value) := r.key], visible)
  {
    hide CStr;
  }

  lemma SnapshotOk(db: Db)
    ensures forall r | r in Snapshot(db) :: r.key in db && db[r.key] == r.value
  {
    hide Rank;
    IterationInOrder(db.Keys);
    var ks := Iteration(db.Keys);
    forall r | r in Snapshot(db) ensures r.key in db && db[r.key] == r.value {
      var i :| 0 <= i < |ks| && Snapshot(db)[i] == r;
      assert ks[i] in ks;
    }
  }

  /** One find of the mutex holder, with an index others may just have unloaded. */
  lemma FindTurnKeeps(s: Sys, t: Tid)
    requires Inv(s) && Enabled(s, Turn(t)) && s.lock == HeldBy(t)
    requires s.threads[t].Finding? && |s.threads[t].ids| < |s.threads[t].req.strings|
    ensures Inv(Do(s, Turn(t))) && Do(s, Turn(t)).p.db == s.p.db
  {
    hide CStr, Rank, Put, Below, Extends, AllBound, AcksOk, Bound, IndexOk;
    var Finding(req, ids, pairs) := s.threads[t];
    var db, c := Visible(s), CStr(req.strings[|ids|]);
    if c in s.p.index {
      IndexedIsBound(s.p.index, db, c);
      ExtendsReflexive(db);
      BoundOneMore(db, db, req.strings, ids, s.p.index[c]);
    } else {
      PutSnoc(s.p.db, pairs, KVPair(s.p.cnt, req.strings[|ids|]));
      FreshIdExtends(s.p.db, db, s.p.cnt, req.strings[|ids|]);
      FreshIdBound(s.p.index, db, s.p.cnt, req.strings[|ids|]);
      BoundOneMore(db, db[s.p.cnt := req.strings[|ids|]], req.strings, ids, s.p.cnt);
    }
  }

  lemma IndexedIsBound(index: map<Str, NumID>, db: Db, c: Str)
    requires IndexOk(index, db) && c in index
    ensures Bound(db, c, index[c])
  {
  }

  lemma FreshIdBound(index: map<Str, NumID>, db: Db, cnt: NumID, s: Str)
    requires IndexOk(index, db) && cnt !in db
    ensures IndexOk(index[CStr(s) := cnt], db[cnt := s])
    ensures Bound(db[cnt := s], CStr(s), cnt) && Extends(db, db[cnt := s])
  {
    hide CStr;
  }

  lemma BoundOneMore(db: Db, db': Db, strings: seq<Str>, ids: seq<NumID>, id: NumID)
    requires AllBound(db, strings, ids) && |ids| < |strings| && Extends(db, db')
    requires Bound(db', CStr(strings[|ids|]), id)
    ensures AllBound(db', strings, ids + [id])
  {
    hide CStr;
  }

  /** Any other step of the mutex holder: branching, lookups, the batch write, the reply. */
  lemma HolderTurnKeeps(s: Sys, t: Tid)
    requires Inv(s) && Enabled(s, Turn(t)) && s.lock == HeldBy(t)
    requires s.threads[t].Finding? ==> !(|s.threads[t].ids| < |s.threads[t].req.strings|)
    ensures Inv(Do(s, Turn(t))) && Extends(s.p.db, Do(s, Turn(t)).p.db)
  {
    hide CStr, Rank, Below, Extends, AcksOk, Bound, IndexOk;
    match s.threads[t]
    case Finding(req, ids, pairs) =>
      AcksStay(s.acks, s.p.db, Visible(s));
      SnapshotsStay(s, Visible(s));
      ExtendsReflexive(Visible(s));
    case Replying(req, reply) =>
      ExtendsReflexive(s.p.db);
      NewAcks(s.acks, s.p.db, req, reply);
    case _ =>
      ExtendsReflexive(s.p.db);
  }

  lemma ExtendsReflexive(db: Db)
    ensures Extends(db, db)
  {
  }

  lemma AcksStay(acks: set<(Str, NumID)>, db: Db, db': Db)
    requires AcksOk(acks, db) && Extends(db, db')
    ensures AcksOk(acks, db')
  {
    hide CStr;
  }

  lemma SnapshotsStay(s: Sys, db': Db)
    requires ThreadsOk(s) && Extends(s.p.db, db')
    ensures forall t | t in s.threads && s.lock != HeldBy(t) :: OutsideOk(s.p.(db := db'), s.threads[t])
  {
  }

  lemma NewAcks(acks: set<(Str, NumID)>, db: Db, req: Query, reply: Reply)
    requires AcksOk(acks, db)
    requires req.op == STR2ID && reply.Answered? ==> AllBound(db, req.strings, reply.response.ids)
    ensures AcksOk(acks + Acked(req, reply), db)
  {
    hide CStr;
  }

  lemma RebootKeeps(s: Sys)
    requires Inv(s) && Bootable(s.p.db, false)
    ensures Inv(Do(s, Reboot))
  {
    hide CStr, Rank, Rebuild;
    BootCounter(s.p.db);
  }

  lemma ActionKeeps(s: Sys, a: Action)
    requires Inv(s) && Enabled(s, a)
    ensures Inv(Do(s, a)) && Extends(s.p.db, Do(s, a).p.db) && s.acks <= Do(s, a).acks
  {
    hide CStr, Rank, Put, Below, Extends, AllBound, AcksOk, Bound, IndexOk;
    ExtendsReflexive(s.p.db);
    match a
    case Spawn(t, start) =>
    case Reboot => RebootKeeps(s);
    case Turn(t) =>
      if s.lock == HeldBy(t) {
        if s.threads[t].Finding? && |s.threads[t].ids| < |s.threads[t].req.strings| {
          FindTurnKeeps(s, t);
        } else {
          HolderTurnKeeps(s, t);
        }
      } else {
        assert OutsideOk(s.p, s.threads[t]);
        if !s.threads[t].Waiting? { OutsideTurnKeeps(s, t); }
      }
  }

  lemma {:induction false} RunKeeps(s: Sys, run: seq<Action>)
    requires Inv(s) && Run(s, run)
    ensures Inv(After(s, run)) && Extends(s.p.db, After(s, run).p.db) && s.acks <= After(s, run).acks
    decreases |run|
  {
    hide Inv, Do, Enabled;
    if run != [] {
      ActionKeeps(s, run[0]);
      RunKeeps(Do(s, run[0]), run[1..]);
    }
  }

  lemma StartsOk(db0: Db)
    requires Bootable(db0, false)
    ensures Inv(Start(Boot(db0, false)))
  {
    hide CStr, Rank, Rebuild;
    BootCounter(db0);
  }

  // ---- main results ----

  /** Over any run of any number of threads, with crashes and reboots in between: the
      store only grows, no id is ever rebound, every id answered for a string so far is
      bound on disk, then and forever after, to one string with its C prefix, and the
      counter exceeds every stored and every pending id. */
  lemma SoundUnderEveryInterleaving(db0: Db, run: seq<Action>, more: seq<Action>)
    requires Bootable(db0, false) && Run(Start(Boot(db0, false)), run + more)
    ensures Run(Start(Boot(db0, false)), run)
    ensures var s1 := After(Start(Boot(db0, false)), run);
            var s2 := After(Start(Boot(db0, false)), run + more);
            && Extends(db0, s1.p.db) && Extends(s1.p.db, s2.p.db) && s1.acks <= s2.acks
            && Below(s2.p.db, s2.p.cnt) && Below(Visible(s2), s2.p.cnt)
            && forall a | a in s1.acks ::
                 a.1 in s1.p.db && a.1 in s2.p.db && s2.p.db[a.1] == s1.p.db[a.1] && CStr(s1.p.db[a.1]) == CStr(a.0)
  {
    hide CStr, Rank, Rebuild;
    var s0 := Start(Boot(db0, false));
    StartsOk(db0);
    RunConcat(s0, run, more);
    RunKeeps(s0, run);
    RunKeeps(After(s0, run), more);
  }

  /** The mutex holder is never stuck and never overflows: its next step is enabled in
      every reachable state, whatever the unlocked threads did. */
  lemma HolderIsNeverStuck(db0: Db, run: seq<Action>)
    requires Bootable(db0, false) && Run(Start(Boot(db0, false)), run)
    ensures var s := After(Start(Boot(db0, false)), run);
            s.lock.HeldBy? ==> Enabled(s, Turn(s.lock.t))
  {
    hide CStr, Rank, Rebuild;
    StartsOk(db0);
    RunKeeps(Start(Boot(db0, false)), run);
  }
}
