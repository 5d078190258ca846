/** What an ID2STR reply says under every interleaving: the store at its time, and so the
    string of every id a client was answered. */
module Lookups {
  import opened Bytes
  import opened Store
  import opened Service
  import opened Interleaving
  import opened Soundness
  import opened Permanence

  /** The mutex holder's lookup so far, or its reply, against the store. */
  ghost predicate LooksUp(db: Db, th: Thread) {
    match th
    case Getting(req, values, failures) =>
      && req.op == ID2STR && |req.ids| <= MAX_32 && |values| <= |req.ids|
      && values == LookupValues(db, req.ids[..|values|])
      && failures == Missing(db, req.ids[..|values|])
    case Replying(req, reply) =>
      req.op == ID2STR ==>
        && |req.ids| <= MAX_32
        && reply == Answered(Query(req.op, LookupValues(db, req.ids), [], Missing(db, req.ids)))
    case Locked(req) => req.op == ID2STR ==> |req.ids| <= MAX_32
    case Finding(req, _, _) => req.op == STR2ID
    case _ => true
  }

  ghost predicate HolderLooksUp(s: Sys) {
    s.lock.HeldBy? && s.lock.t in s.threads ==> LooksUp(s.p.db, s.threads[s.lock.t])
  }

  lemma HolderTurn(s: Sys)
    requires Inv(s) && HolderLooksUp(s) && s.lock.HeldBy? && Enabled(s, Turn(s.lock.t))
    ensures HolderLooksUp(Do(s, Turn(s.lock.t)))
  {
    hide CStr, Rank, Put, FindOne, Extends, Below, AcksOk, IndexOk, AllBound, LookupValues, Missing;
    var t := s.lock.t;
    match s.threads[t]
    case Locked(req) =>
      LookupNone(s.p.db, req.ids);
    case Getting(req, values, failures) =>
      if |values| < |req.ids| {
        LookupSnoc(s.p.db, req.ids, |values|);
      } else {
        assert req.ids[..|values|] == req.ids;
      }
    case _ =>
  }

  lemma Acquires(s: Sys, a: Action)
    requires Inv(s) && Enabled(s, a) && (a.Reboot? || s.lock.Free?)
    ensures HolderLooksUp(Do(s, a))
  {
    hide CStr, Rank, Put, FindOne, Extends, Below, AcksOk, IndexOk, HolderOk, Rebuild, Snapshot;
    if a.Turn? { assert OutsideOk(s.p, s.threads[a.t]); }
  }

  lemma StepLooksUp(s: Sys, a: Action)
    requires Inv(s) && HolderLooksUp(s) && Enabled(s, a)
    ensures HolderLooksUp(Do(s, a))
  {
    hide Inv, Do, LooksUp;
    if a.Reboot? || s.lock.Free? {
      Acquires(s, a);
    } else if a == Turn(s.lock.t) {
      HolderTurn(s);
    } else {
      OutsideKeepsHolder(s, a);
    }
  }

  lemma {:induction false} RunLooksUp(s: Sys, run: seq<Action>)
    requires Inv(s) && HolderLooksUp(s) && Run(s, run)
    ensures HolderLooksUp(After(s, run)) && Inv(After(s, run))
    decreases |run|
  {
    hide Inv, HolderLooksUp, Do, Enabled;
    if run != [] {
      ActionKeeps(s, run[0]);
      StepLooksUp(s, run[0]);
      RunLooksUp(Do(s, run[0]), run[1..]);
    }
  }

  // ---- main results ----

  /** The thread about to send a reply to a lookup. */
  predicate RepliesToLookup(s: Sys) {
    && s.lock.HeldBy? && s.lock.t in s.threads && s.threads[s.lock.t].Replying?
    && s.threads[s.lock.t].req.op == ID2STR
  }

  /** Every ID2STR reply is the pointwise lookup in the store at its time, whatever the
      unlocked threads do: the one the atomic specification gives. */
  lemma LookupsAreAtomic(db0: Db, run: seq<Action>)
    requires Bootable(db0, false) && Run(Start(Boot(db0, false)), run)
    requires RepliesToLookup(After(Start(Boot(db0, false)), run))
    ensures var s := After(Start(Boot(db0, false)), run); var th := s.threads[s.lock.t];
            && Fits(s.p, th.req) && th.reply == Serve(s.p, th.req).1
            && Enabled(s, Turn(s.lock.t))
            && Do(s, Turn(s.lock.t)).replies == s.replies + [(s.lock.t, Serve(s.p, th.req).1)]
  {
    hide Rank, Rebuild, Run, After;
    StartsOk(db0);
    RunLooksUp(Start(Boot(db0, false)), run);
  }

  /** ... so every later lookup of an id answered for a string, by any process, succeeds
      with the one string bound to it, which has the asked C prefix. */
  lemma AnsweredIdsAreFound(db0: Db, run: seq<Action>, more: seq<Action>, a: (Str, NumID), j: nat)
    requires Bootable(db0, false) && Run(Start(Boot(db0, false)), run + more)
    requires Run(Start(Boot(db0, false)), run) && a in After(Start(Boot(db0, false)), run).acks
    requires RepliesToLookup(After(Start(Boot(db0, false)), run + more))
    requires var s2 := After(Start(Boot(db0, false)), run + more); var req := s2.threads[s2.lock.t].req;
             j < |req.ids| && req.ids[j] == a.1
    ensures var s1 := After(Start(Boot(db0, false)), run);
            var s2 := After(Start(Boot(db0, false)), run + more); var reply := s2.threads[s2.lock.t].reply;
            && reply.Answered? && j < |reply.response.strings| && j !in reply.response.failures
            && a.1 in s1.p.db && reply.response.strings[j] == s1.p.db[a.1] && CStr(s1.p.db[a.1]) == CStr(a.0)
  {
    hide CStr, Rank, Rebuild, Run, After;
    SoundUnderEveryInterleaving(db0, run, more);
    LookupsAreAtomic(db0, run + more);
  }
}
