/** When answers are permanent: the exact condition on a run of interleaved threads under
    which no two replies ever give one string different ids. */
module Permanence {
  import opened Bytes
  import opened Store
  import opened Service
  import opened Interleaving
  import opened Soundness

  // ---- one find ----

  /** The mutex holder's next step is to look a string up. */
  predicate AtFind(s: Sys) {
    && s.lock.HeldBy? && s.lock.t in s.threads && s.threads[s.lock.t].Finding?
    && |s.threads[s.lock.t].ids| < |s.threads[s.lock.t].req.strings|
  }

  function SoughtString(s: Sys): Str
    requires AtFind(s)
  {
    s.threads[s.lock.t].req.strings[|s.threads[s.lock.t].ids|]
  }

  function Sought(s: Sys): Str
    requires AtFind(s)
  {
    CStr(SoughtString(s))
  }

  function Found(s: Sys): NumID
    requires AtFind(s)
  {
    if Sought(s) in s.p.index then s.p.index[Sought(s)] else s.p.cnt
  }

  /** The ids bound to strings with C prefix `c`. */
  function IdsOf(db: Db, c: Str): set<NumID> {
    set k | k in db && CStr(db[k]) == c
  }

  /** The string is bound but the index lost it. */
  ghost predicate Forks(s: Sys)
    requires AtFind(s)
  {
    IdsOf(Visible(s), Sought(s)) != {} && Sought(s) !in s.p.index
  }

  predicate FindStep(s: Sys, a: Action) {
    AtFind(s) && a == Turn(s.lock.t)
  }

  /** What a find does: it answers `Found`, and binds it if the index did not know it. */
  lemma FindStepMeans(s: Sys, a: Action)
    requires Inv(s) && Enabled(s, a) && FindStep(s, a)
    ensures var (t, s') := (s.lock.t, Do(s, a));
            && s'.lock == s.lock && t in s'.threads && s'.threads[t].Finding? && s'.acks == s.acks
            && s'.threads[t].req == s.threads[t].req && s'.threads[t].ids == s.threads[t].ids + [Found(s)]
            && Visible(s') == (if Sought(s) in s.p.index then Visible(s) else Visible(s)[s.p.cnt := SoughtString(s)])
    ensures Sought(s) in s.p.index ==> Bound(Visible(s), Sought(s), Found(s))
    ensures Sought(s) !in s.p.index ==> Found(s) == s.p.cnt && s.p.cnt !in Visible(s)
  {
    hide CStr, Rank, Put, Extends, AcksOk, AllBound;
    var th := s.threads[s.lock.t];
    PutSnoc(s.p.db, th.pairs, KVPair(s.p.cnt, SoughtString(s)));
  }

  lemma OneMoreId(db: Db, id: NumID, str: Str)
    requires id !in db
    ensures IdsOf(db[id := str], CStr(str)) == IdsOf(db, CStr(str)) + {id}
    ensures id !in IdsOf(db, CStr(str))
  {
    hide CStr;
  }

  /** In every reachable state, the next find gives an already bound string one more id
      exactly if the index lost that string; otherwise it answers a bound id. */
  lemma FindForksIff(db0: Db, run: seq<Action>)
    requires Bootable(db0, false) && Run(Start(Boot(db0, false)), run)
    requires AtFind(After(Start(Boot(db0, false)), run))
    ensures var s := After(Start(Boot(db0, false)), run);
            && Enabled(s, Turn(s.lock.t))
            && var s' := Do(s, Turn(s.lock.t));
               var (ids, ids') := (IdsOf(Visible(s), Sought(s)), IdsOf(Visible(s'), Sought(s)));
               && Found(s) in ids'
               && (Forks(s) <==> ids != {} && ids' != ids)
               && (Forks(s) ==> ids' == ids + {s.p.cnt} && Found(s) == s.p.cnt && s.p.cnt !in ids)
  {
    hide CStr, Rank, Rebuild, Put, Visible;
    StartsOk(db0);
    RunKeeps(Start(Boot(db0, false)), run);
    HolderIsNeverStuck(db0, run);
    var s := After(Start(Boot(db0, false)), run);
    FindStepMeans(s, Turn(s.lock.t));
    if Sought(s) !in s.p.index { OneMoreId(Visible(s), s.p.cnt, SoughtString(s)); }
  }

  // ---- answers given and about to be given ----

  function Pairs(strings: seq<Str>, ids: seq<NumID>): set<(Str, NumID)>
    requires |ids| <= |strings|
  {
    set i | 0 <= i < |ids| :: (strings[i], ids[i])
  }

  /** The answers the mutex holder has found but not replied yet. */
  function InFlight(s: Sys): set<(Str, NumID)> {
    if s.lock.HeldBy? && s.lock.t in s.threads then
      match s.threads[s.lock.t]
      case Finding(req, ids, _) => if |ids| <= |req.strings| then Pairs(req.strings, ids) else {}
      case Replying(req, reply) => Acked(req, reply)
      case _ => {}
    else {}
  }

  /** One id per C prefix. */
  ghost predicate Functional(answers: set<(Str, NumID)>) {
    forall x, y | x in answers && y in answers && CStr(x.0) == CStr(y.0) :: x.1 == y.1
  }

  /** The index does not give the sought string an id it was answered with before,
      by any process or earlier in this very request. */
  ghost predicate Forgets(s: Sys)
    requires AtFind(s)
  {
    exists x | x in s.acks + InFlight(s) && CStr(x.0) == Sought(s) ::
      !(Sought(s) in s.p.index && s.p.index[Sought(s)] == x.1)
  }

  /** The reply to the mutex holder's request is sent in this run. */
  predicate Replies(s: Sys, run: seq<Action>)
    requires Run(s, run)
    decreases |run|
  {
    if run == [] || s.lock.Free? || run[0].Reboot? then false
    else if run[0] == Turn(s.lock.t) && s.threads[s.lock.t].Replying? then true
    else Replies(Do(s, run[0]), run[1..])
  }

  /** No find whose answer reaches the client forgets. */
  ghost predicate Remembers(s: Sys, run: seq<Action>)
    requires Run(s, run)
    decreases |run|
  {
    run == [] ||
    (&& (FindStep(s, run[0]) && Replies(s, run) ==> !Forgets(s))
     && Remembers(Do(s, run[0]), run[1..]))
  }

  // ---- what one step does to them ----

  lemma PairsSnoc(strings: seq<Str>, ids: seq<NumID>, id: NumID)
    requires |ids| < |strings|
    ensures Pairs(strings, ids + [id]) == Pairs(strings, ids) + {(strings[|ids|], id)}
  {
    var more := ids + [id];
    forall x: (Str, NumID)
      ensures x in Pairs(strings, more) <==> x in Pairs(strings, ids) + {(strings[|ids|], id)}
    {
      if x in Pairs(strings, more) {
        var i :| 0 <= i < |more| && x == (strings[i], more[i]);
      }
      if x in Pairs(strings, ids) {
        var i :| 0 <= i < |ids| && x == (strings[i], ids[i]);
        assert x == (strings[i], more[i]);
      }
      if x == (strings[|ids|], id) {
        assert x == (strings[|ids|], more[|ids|]);
      }
    }
  }

  lemma FindInFlight(s: Sys, a: Action)
    requires Inv(s) && Enabled(s, a) && FindStep(s, a)
    ensures Do(s, a).acks == s.acks && InFlight(Do(s, a)) == InFlight(s) + {(SoughtString(s), Found(s))}
  {
    hide CStr, Rank, Put, Visible;
    FindStepMeans(s, a);
    PairsSnoc(s.threads[s.lock.t].req.strings, s.threads[s.lock.t].ids, Found(s));
  }

  /** The mutex holder's other steps: a reply hands out what was in flight, the rest
      leave it alone. */
  lemma HolderInFlight(s: Sys)
    requires Inv(s) && s.lock.HeldBy? && Enabled(s, Turn(s.lock.t)) && !AtFind(s)
    ensures var s' := Do(s, Turn(s.lock.t));
            if s.threads[s.lock.t].Replying? then
              s'.lock.Free? && s'.acks == s.acks + InFlight(s) && InFlight(s') == {}
            else s'.lock == s.lock && s'.acks == s.acks && InFlight(s') == InFlight(s)
  {
    hide CStr, Rank, Put, Visible, FindOne, Extends, Below, AcksOk, IndexOk, AllBound, Rebuild;
    var th := s.threads[s.lock.t];
    if th.Finding? {
      assert th.ids + [] == th.ids;
    }
  }

  /** Acquiring the mutex puts nothing in flight, a crash drops what was. */
  lemma NothingInFlight(s: Sys, a: Action)
    requires Inv(s) && Enabled(s, a) && (a.Reboot? || s.lock.Free?)
    ensures Do(s, a).acks == s.acks && InFlight(Do(s, a)) == {}
  {
    hide CStr, Rank, Put, Visible, FindOne, Extends, Below, AcksOk, IndexOk, HolderOk, Rebuild;
    if a.Turn? { assert OutsideOk(s.p, s.threads[a.t]); }
  }

  /** The others leave the store and the mutex holder alone. */
  lemma OutsideKeepsHolder(s: Sys, a: Action)
    requires Inv(s) && Enabled(s, a) && !a.Reboot? && s.lock.HeldBy? && a != Turn(s.lock.t)
    ensures var (t, s') := (s.lock.t, Do(s, a));
            && s'.acks == s.acks && s'.lock == s.lock && s'.p.db == s.p.db && s'.p.cnt == s.p.cnt
            && t in s.threads && t in s'.threads && s'.threads[t] == s.threads[t]
  {
    hide CStr, Rank, Put, Visible, FindOne, Extends, Below, AcksOk, IndexOk, HolderOk, Rebuild, Snapshot, Acked;
    if a.Turn? { assert OutsideOk(s.p, s.threads[a.t]); }
  }

  lemma SameHolder(s: Sys, s': Sys)
    requires s.lock.HeldBy? && s'.lock == s.lock && s.lock.t in s.threads && s.lock.t in s'.threads
    requires s'.threads[s.lock.t] == s.threads[s.lock.t]
    ensures InFlight(s') == InFlight(s) && Pending(s') == Pending(s)
  {
    hide Acked, Pairs;
  }

  lemma OutsideInFlight(s: Sys, a: Action)
    requires Inv(s) && Enabled(s, a) && !a.Reboot? && s.lock.HeldBy? && a != Turn(s.lock.t)
    ensures var s' := Do(s, a);
            && s'.acks == s.acks && s'.lock == s.lock && s'.p.db == s.p.db
            && InFlight(s') == InFlight(s) && Pending(s') == Pending(s)
  {
    hide Do, Inv, InFlight, Pending;
    OutsideKeepsHolder(s, a);
    SameHolder(s, Do(s, a));
  }

  // ---- exactly when answers are permanent ----

  lemma FunctionalSnoc(answers: set<(Str, NumID)>, str: Str, id: NumID)
    ensures Functional(answers + {(str, id)}) <==>
              Functional(answers) && forall x | x in answers && CStr(x.0) == CStr(str) :: x.1 == id
  {
    hide CStr;
    var more := answers + {(str, id)};
    if Functional(more) {
      assert (str, id) in more;
    }
  }

  lemma FewerFunctional(some: set<(Str, NumID)>, all: set<(Str, NumID)>)
    requires some <= all
    ensures Functional(all) ==> Functional(some)
  {
    hide CStr;
  }

  /** Every answer given or in flight is bound, so a fresh id differs from all of them. */
  lemma AnswersBound(s: Sys)
    requires Inv(s)
    ensures forall x | x in s.acks + InFlight(s) :: Bound(Visible(s), CStr(x.0), x.1)
  {
    hide CStr, Rank, Put, Below, IndexOk;
  }

  /** A find keeps one id per string exactly if it does not forget. */
  lemma ForgetsIff(s: Sys, a: Action)
    requires Inv(s) && Enabled(s, a) && FindStep(s, a)
    ensures var s' := Do(s, a);
            Functional(s'.acks + InFlight(s')) <==> Functional(s.acks + InFlight(s)) && !Forgets(s)
  {
    hide CStr, Rank, Put, Functional, InFlight, Visible, Inv;
    var answers, s' := s.acks + InFlight(s), Do(s, a);
    FindInFlight(s, a);
    FindStepMeans(s, a);
    AnswersBound(s);
    assert s'.acks + InFlight(s') == answers + {(SoughtString(s), Found(s))};
    FunctionalSnoc(answers, SoughtString(s), Found(s));
  }

  /** The induction over a run, from any reachable state. */
  lemma {:induction false} AcksIff(s: Sys, run: seq<Action>)
    requires Inv(s) && Run(s, run)
    ensures Functional(After(s, run).acks) <==>
              && Functional(s.acks)
              && (Replies(s, run) ==> Functional(s.acks + InFlight(s)))
              && Remembers(s, run)
    decreases |run|
  {
    hide Inv, Do, Enabled, Functional, Forgets, InFlight;
    if run != [] {
      var a, rest := run[0], run[1..];
      ActionKeeps(s, a);
      AcksIff(Do(s, a), rest);
      assert Do(s, a).acks + {} == Do(s, a).acks;
      if FindStep(s, a) {
        FindStepMeans(s, a);
        ForgetsIff(s, a);
      } else if s.lock.HeldBy? && a == Turn(s.lock.t) {
        HolderInFlight(s);
        FewerFunctional(s.acks, s.acks + InFlight(s));
      } else if a.Reboot? || s.lock.Free? {
        NothingInFlight(s, a);
      } else {
        OutsideInFlight(s, a);
      }
    }
  }

  /** Main result, over any run of any threads, with crashes and reboots: the answers
      clients got give one id per C prefix exactly if, at every find whose answer reaches
      its client, the index binds the sought prefix to the id it was answered with
      before, if it was. */
  lemma PermanentIff(db0: Db, run: seq<Action>)
    requires Bootable(db0, false) && Run(Start(Boot(db0, false)), run)
    ensures Functional(After(Start(Boot(db0, false)), run).acks) <==> Remembers(Start(Boot(db0, false)), run)
  {
    hide Rank, Rebuild, Run, After, Remembers;
    StartsOk(db0);
    AcksIff(Start(Boot(db0, false)), run);
  }

  // ---- stores that bind every string once ----

  /** No two ids for one C prefix. */
  ghost predicate Single(db: Db) {
    forall j, k | j in db && k in db && CStr(db[j]) == CStr(db[k]) :: j == k
  }

  /** The store, with what is pending, stays single throughout. */
  ghost predicate StaysSingle(s: Sys, run: seq<Action>)
    requires Run(s, run)
    decreases |run|
  {
    Single(Visible(s)) && (run != [] ==> StaysSingle(Do(s, run[0]), run[1..]))
  }

  /** No find of the run misses a bound string in the index. */
  ghost predicate NeverForks(s: Sys, run: seq<Action>)
    requires Run(s, run)
    decreases |run|
  {
    run == [] ||
    ((FindStep(s, run[0]) ==> !Forks(s)) && NeverForks(Do(s, run[0]), run[1..]))
  }

  lemma OutsideVisible(s: Sys, a: Action)
    requires Inv(s) && Enabled(s, a) && (s.lock.HeldBy? ==> a != Turn(s.lock.t))
    ensures Extends(Visible(Do(s, a)), Visible(s))
  {
    hide Inv, Do, Put;
    var s' := Do(s, a);
    PutNone(s'.p.db);
    if a.Reboot? || s.lock.Free? {
      NothingPending(s, a);
      InvExtends(s);
    } else {
      OutsideInFlight(s, a);
    }
  }

  lemma InvExtends(s: Sys)
    requires Inv(s)
    ensures Extends(s.p.db, Visible(s))
  {
  }

  lemma NothingPending(s: Sys, a: Action)
    requires Inv(s) && Enabled(s, a) && (a.Reboot? || s.lock.Free?)
    ensures Do(s, a).p.db == s.p.db && Pending(Do(s, a)) == []
  {
    hide CStr, Rank, Put, Visible, FindOne, Extends, Below, AcksOk, IndexOk, HolderOk, Rebuild, Snapshot;
    if a.Turn? { assert OutsideOk(s.p, s.threads[a.t]); }
  }

  lemma HolderVisible(s: Sys)
    requires Inv(s) && s.lock.HeldBy? && Enabled(s, Turn(s.lock.t)) && !AtFind(s)
    ensures Extends(Visible(Do(s, Turn(s.lock.t))), Visible(s))
  {
    hide CStr, Rank, Put, FindOne, Below, AcksOk, IndexOk, AllBound;
    PutNone(s.p.db);
    PutNone(Visible(s));
  }

  lemma FewerSingle(some: Db, all: Db)
    requires Extends(some, all) && Single(all)
    ensures Single(some)
  {
    hide CStr;
  }

  lemma SingleSnoc(db: Db, id: NumID, str: Str)
    requires Single(db) && id !in db
    ensures Single(db[id := str]) <==> IdsOf(db, CStr(str)) == {}
  {
    hide CStr;
    var more := db[id := str];
    if k :| k in IdsOf(db, CStr(str)) {
      assert k in more && id in more && k != id;
    } else {
      forall k | k in db ensures CStr(db[k]) != CStr(str) {
        assert k !in IdsOf(db, CStr(str));
      }
    }
  }

  lemma StepSingle(s: Sys, a: Action)
    requires Inv(s) && Enabled(s, a) && Single(Visible(s))
    ensures Single(Visible(Do(s, a))) <==> !(FindStep(s, a) && Forks(s))
  {
    hide CStr, Rank, Put, Do, Visible, Single, Extends, Inv, IdsOf;
    if FindStep(s, a) {
      FindStepMeans(s, a);
      if Sought(s) !in s.p.index { SingleSnoc(Visible(s), s.p.cnt, SoughtString(s)); }
    } else {
      if s.lock.HeldBy? && a == Turn(s.lock.t) { HolderVisible(s); } else { OutsideVisible(s, a); }
      FewerSingle(Visible(Do(s, a)), Visible(s));
    }
  }

  lemma {:induction false} SingleRun(s: Sys, run: seq<Action>)
    requires Inv(s) && Run(s, run) && Single(Visible(s))
    ensures StaysSingle(s, run) <==> NeverForks(s, run)
    decreases |run|
  {
    hide Inv, Do, Enabled, Single, Forks, Visible, AtFind;
    if run != [] {
      ActionKeeps(s, run[0]);
      StepSingle(s, run[0]);
      if Single(Visible(Do(s, run[0]))) { SingleRun(Do(s, run[0]), run[1..]); }
    }
  }

  /** Where no string is bound twice, a find forgets exactly if the string was answered
      before and the index has lost it: the index never holds a wrong id. */
  lemma ForgetsWhenSingle(s: Sys)
    requires Inv(s) && AtFind(s) && Single(Visible(s))
    ensures Forgets(s) <==>
              (exists x :: x in s.acks + InFlight(s) && CStr(x.0) == Sought(s)) && Sought(s) !in s.p.index
    ensures Forgets(s) ==> Forks(s)
  {
    hide CStr, Rank, Put, Visible, Below, InFlight, AcksOk;
    AnswersBound(s);
    var answers := s.acks + InFlight(s);
    forall x | x in answers && CStr(x.0) == Sought(s)
      ensures x.1 in IdsOf(Visible(s), Sought(s))
      ensures Sought(s) in s.p.index ==> s.p.index[Sought(s)] == x.1
    {
      assert Bound(Visible(s), CStr(x.0), x.1);
    }
  }

  lemma {:induction false} NeverForksRemembers(s: Sys, run: seq<Action>)
    requires Inv(s) && Run(s, run) && Single(Visible(s)) && NeverForks(s, run)
    ensures Remembers(s, run)
    decreases |run|
  {
    hide Inv, Do, Enabled, Single, Forks, Forgets, Visible, AtFind, Replies;
    if run != [] {
      ActionKeeps(s, run[0]);
      StepSingle(s, run[0]);
      if FindStep(s, run[0]) { ForgetsWhenSingle(s); }
      NeverForksRemembers(Do(s, run[0]), run[1..]);
    }
  }

  /** From a store that binds every string once: it stays so throughout, pending records
      included, exactly if no find misses a bound string in the index; and then every
      answer is permanent. */
  lemma SingleIff(db0: Db, run: seq<Action>)
    requires Bootable(db0, false) && Run(Start(Boot(db0, false)), run) && Single(db0)
    ensures StaysSingle(Start(Boot(db0, false)), run) <==> NeverForks(Start(Boot(db0, false)), run)
    ensures NeverForks(Start(Boot(db0, false)), run) ==> Functional(After(Start(Boot(db0, false)), run).acks)
  {
    hide Rank, Rebuild, Run, After, Remembers, NeverForks, StaysSingle, Functional, Single;
    var s := Start(Boot(db0, false));
    StartsOk(db0);
    PutNone(db0);
    SingleRun(s, run);
    if NeverForks(s, run) {
      NeverForksRemembers(s, run);
      PermanentIff(db0, run);
    }
  }
}
