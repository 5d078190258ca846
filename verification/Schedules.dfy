/** The two ways an overlap makes one string answer with two ids, as runs that exist on
    every store and for every string. */
module Schedules {
  import opened Bytes
  import opened Store
  import opened Service
  import opened Interleaving
  import opened Alone
  import opened Soundness
  import opened Permanence

  // ---- pieces of schedules ----

  /** `run` leads from `s` to `s'`. */
  predicate Leads(s: Sys, run: seq<Action>, s': Sys) {
    Run(s, run) && After(s, run) == s'
  }

  lemma LeadsOn(s: Sys, a: seq<Action>, s1: Sys, b: seq<Action>, s2: Sys)
    requires Leads(s, a, s1) && Leads(s1, b, s2)
    ensures Leads(s, a + b, s2)
  {
    hide Run, After;
    RunJoin(s, a, b);
  }

  /** A request for the id of one string. */
  function Ask(a: Str): Query {
    Query(STR2ID, [a], [], [])
  }

  function IdFor(p: State, a: Str): NumID {
    if CStr(a) in p.index then p.index[CStr(a)] else p.cnt
  }

  /** A query thread up to its first find. */
  lemma Asks(s: Sys, t: Tid, a: Str) returns (run: seq<Action>, s': Sys)
    requires s.lock.Free? && t !in s.threads && !s.p.disabled && s.p.cnt < MAX_ID
    ensures Leads(s, run, s')
    ensures s'.p == s.p && s'.acks == s.acks && s'.lock == HeldBy(t)
    ensures s'.threads == s.threads[t := Finding(Ask(a), [], [])]
  {
    hide Run, After, Turns;
    var s1 := Become(s, t, Waiting(Ask(a)));
    var s2 := Do(s1, Turn(t));
    TwoTurns(s1, t);
    s' := Do(s2, Turn(t));
    SpawnFirst(s, t, Waiting(Ask(a)), 2);
    run := [Spawn(t, Waiting(Ask(a)))] + Turns(t, 2);
  }

  lemma FindsOne(s: Sys, t: Tid, a: Str)
    requires t in s.threads && s.threads[t] == Finding(Ask(a), [], []) && s.p.cnt < MAX_ID
    ensures Enabled(s, Turn(t))
    ensures Do(s, Turn(t)) ==
              if CStr(a) in s.p.index then Become(s, t, Finding(Ask(a), [s.p.index[CStr(a)]], []))
              else Become(s, t, Finding(Ask(a), [s.p.cnt], [KVPair(s.p.cnt, a)])).
                     (p := s.p.(index := s.p.index[CStr(a) := s.p.cnt], cnt := s.p.cnt + 1))
  {
    hide CStr;
    var id := IdFor(s.p, a);
    assert [] + [id] == [id] && [] + [KVPair(id, a)] == [KVPair(id, a)];
  }

  lemma WritesAndReplies(s: Sys, t: Tid, a: Str, id: NumID, pairs: seq<KVPair>)
    requires t in s.threads && s.threads[t] == Finding(Ask(a), [id], pairs) && s.lock == HeldBy(t)
    ensures var s1 := Do(s, Turn(t)); var s2 := Do(s1, Turn(t));
            && Enabled(s, Turn(t)) && Enabled(s1, Turn(t))
            && s2.lock.Free? && s2.threads == s.threads - {t} && s2.acks == s.acks + {(a, id)}
            && s2.p == s.p.(db := Put(s.p.db, pairs))
  {
    hide CStr, Put, Acked;
    OneAck(a, id);
  }

  /** ... and from there, undisturbed, to its reply. */
  lemma GetsAnswer(s: Sys, t: Tid, a: Str) returns (run: seq<Action>, s': Sys)
    requires s.lock == HeldBy(t) && t in s.threads && s.threads[t] == Finding(Ask(a), [], [])
    requires s.p.cnt < MAX_ID
    ensures Leads(s, run, s')
    ensures s'.lock.Free? && s'.threads == s.threads - {t} && s'.acks == s.acks + {(a, IdFor(s.p, a))}
    ensures s'.p == if CStr(a) in s.p.index then s.p
                    else State(s.p.db[s.p.cnt := a], s.p.index[CStr(a) := s.p.cnt], s.p.cnt + 1, s.p.disabled)
  {
    hide Run, After, Turns, CStr, Do, Enabled;
    var pairs := if CStr(a) in s.p.index then [] else [KVPair(s.p.cnt, a)];
    FindsOne(s, t, a);
    var s1 := Do(s, Turn(t));
    WritesAndReplies(s1, t, a, IdFor(s.p, a), pairs);
    OneTurn(s, t);
    TwoTurns(s1, t);
    TurnsJoin(s, t, 1, 2);
    PutNone(s.p.db);
    PutSnoc(s.p.db, [], KVPair(s.p.cnt, a));
    assert [] + [KVPair(s.p.cnt, a)] == [KVPair(s.p.cnt, a)];
    run, s' := Turns(t, 3), Do(Do(s1, Turn(t)), Turn(t));
    assert s1.threads - {t} == s.threads - {t};
  }

  lemma OneAck(a: Str, id: NumID)
    ensures Acked(Ask(a), Answered(Query(STR2ID, [], [id], []))) == {(a, id)}
  {
    var reply := Answered(Query(STR2ID, [], [id], []));
    forall x: (Str, NumID) ensures x in Acked(Ask(a), reply) <==> x == (a, id) {
      if x == (a, id) {
        assert x == (Ask(a).strings[0], reply.response.ids[0]);
      }
    }
  }

  /** One undisturbed query. */
  lemma AsksAlone(s: Sys, t: Tid, a: Str) returns (run: seq<Action>, s': Sys)
    requires s.lock.Free? && t !in s.threads && !s.p.disabled && s.p.cnt < MAX_ID
    ensures Leads(s, run, s')
    ensures s'.lock.Free? && s'.threads == s.threads && s'.acks == s.acks + {(a, IdFor(s.p, a))}
    ensures s'.p == if CStr(a) in s.p.index then s.p
                    else State(s.p.db[s.p.cnt := a], s.p.index[CStr(a) := s.p.cnt], s.p.cnt + 1, s.p.disabled)
  {
    hide Leads, CStr;
    var run1, s1 := Asks(s, t, a);
    var run2, s2 := GetsAnswer(s1, t, a);
    LeadsOn(s, run1, s1, run2, s2);
    run, s' := run1 + run2, s2;
    assert s'.threads == s.threads;
  }

  lemma DisablesAlone(s: Sys, t: Tid) returns (run: seq<Action>, s': Sys)
    requires t !in s.threads
    ensures Leads(s, run, s') && s' == s.(p := Disable(s.p))
  {
    hide Run, After, Turns;
    DisableAlone(s, t);
    run := [Spawn(t, Disabling)] + Turns(t, if s.p.disabled then 1 else 3);
    s' := s.(p := Disable(s.p));
  }

  // ---- a disable overlapping a query ----

  /** A query answers `a`; a second one is past its check of the flag when an unlocked
      disable unloads the index, and answers `a` with another id. */
  lemma DisableForksAnAnswer(s: Sys, a: Str) returns (run: seq<Action>, i: NumID, j: NumID)
    requires s.lock.Free? && s.threads == map[] && !s.p.disabled && s.p.cnt + 2 <= MAX_ID
    requires CStr(a) in s.p.index ==> s.p.index[CStr(a)] < s.p.cnt
    ensures Run(s, run) && (a, i) in After(s, run).acks && (a, j) in After(s, run).acks && i != j
  {
    hide Run, After, CStr;
    var run1, s1 := AsksAlone(s, 0, a);
    var run2, s2 := Asks(s1, 1, a);
    var run3, s3 := DisablesAlone(s2, 2);
    var run4, s4 := GetsAnswer(s3, 1, a);
    LeadsOn(s, run1, s1, run2, s2);
    LeadsOn(s, run1 + run2, s2, run3, s3);
    LeadsOn(s, run1 + run2 + run3, s3, run4, s4);
    run, i, j := run1 + run2 + run3 + run4, IdFor(s.p, a), s3.p.cnt;
    assert (a, i) in s4.acks && (a, j) in s4.acks;
  }

  /** Whenever a query of an enabled process is about to find a bound string, an unlocked
      disable can make it bind the string to one more id (`Permanence.FindForksIff`). */
  lemma UnlockedDisableForksAnId(s: Sys, d: Tid) returns (run: seq<Action>)
    requires AtFind(s) && !s.p.disabled && d !in s.threads && IdsOf(Visible(s), Sought(s)) != {}
    ensures Run(s, run) && After(s, run) == s.(p := Disable(s.p))
    ensures AtFind(After(s, run)) && Sought(After(s, run)) == Sought(s) && Forks(After(s, run))
  {
    hide Run, After, CStr, Put;
    var s';
    run, s' := DisablesAlone(s, d);
    assert Visible(s') == Visible(s);
  }

  // ---- enables overlapping one another ----

  /** Two enables read the flag; both load; the first clears the flag; a disable unloads
      and sets it; the second enable clears it again. Nobody is left running, the process
      answers, and its index is empty. */
  lemma OverlappingEnablesLoseTheIndex(s: Sys) returns (run: seq<Action>)
    requires s.threads == map[] && s.p.disabled
    ensures Run(s, run) && After(s, run) == s.(p := s.p.(index := map[], disabled := false))
  {
    hide Run, After, Turns, Snapshot, Rebuild;
    var run1, s1 := ReadsFlag(s, 0);
    var run2, s2 := ReadsFlag(s1, 1);
    SeeksAndLoads(s2, 1);
    var run3 := Turns(1, |Snapshot(s2.p.db)| + 1);
    var s3 := After(s2, run3);
    SeeksAndLoads(s3, 0);
    var run4 := Turns(0, |Snapshot(s3.p.db)| + 1);
    var s4 := After(s3, run4);
    var run5, s5 := ClearsFlag(s4, 0);
    var run6, s6 := DisablesAlone(s5, 2);
    var run7, s7 := ClearsFlag(s6, 1);
    LeadsOn(s, run1, s1, run2, s2);
    LeadsOn(s, run1 + run2, s2, run3, s3);
    LeadsOn(s, run1 + run2 + run3, s3, run4, s4);
    LeadsOn(s, run1 + run2 + run3 + run4, s4, run5, s5);
    LeadsOn(s, run1 + run2 + run3 + run4 + run5, s5, run6, s6);
    LeadsOn(s, run1 + run2 + run3 + run4 + run5 + run6, s6, run7, s7);
    run := run1 + run2 + run3 + run4 + run5 + run6 + run7;
    assert s7.threads == s.threads;
  }

  lemma ReadsFlag(s: Sys, t: Tid) returns (run: seq<Action>, s': Sys)
    requires t !in s.threads && s.p.disabled
    ensures Leads(s, run, s') && s' == Become(s, t, Seeking)
  {
    hide Run, After, Turns;
    OneTurn(Become(s, t, Enabling), t);
    SpawnFirst(s, t, Enabling, 1);
    run, s' := [Spawn(t, Enabling)] + Turns(t, 1), Do(Become(s, t, Enabling), Turn(t));
    assert s'.threads == s.threads[t := Seeking];
  }

  lemma ClearsFlag(s: Sys, t: Tid) returns (run: seq<Action>, s': Sys)
    requires t in s.threads && s.threads[t] == Loading([])
    ensures Leads(s, run, s') && s' == s.(p := s.p.(disabled := false), threads := s.threads - {t})
  {
    hide Run, After, Turns;
    LastTurn(s, t);
    OneTurn(s, t);
    run, s' := Turns(t, 1), Do(s, Turn(t));
  }

  /** ... so that a string answered before is given another id, although no disable or
      enable ever overlapped a query. */
  lemma OverlappingEnablesForkAnAnswer(s: Sys, a: Str) returns (run: seq<Action>, i: NumID, j: NumID)
    requires s.lock.Free? && s.threads == map[] && !s.p.disabled && s.p.cnt + 2 <= MAX_ID
    requires CStr(a) in s.p.index ==> s.p.index[CStr(a)] < s.p.cnt
    ensures Run(s, run) && (a, i) in After(s, run).acks && (a, j) in After(s, run).acks && i != j
  {
    hide Run, After, CStr;
    var run1, s1 := AsksAlone(s, 0, a);
    var run2, s2 := DisablesAlone(s1, 0);
    var run3 := OverlappingEnablesLoseTheIndex(s2);
    var s3 := After(s2, run3);
    var run4, s4 := AsksAlone(s3, 0, a);
    LeadsOn(s, run1, s1, run2, s2);
    LeadsOn(s, run1 + run2, s2, run3, s3);
    LeadsOn(s, run1 + run2 + run3, s3, run4, s4);
    run, i, j := run1 + run2 + run3 + run4, IdFor(s.p, a), s3.p.cnt;
    assert (a, i) in s4.acks && (a, j) in s4.acks;
  }

  // ---- from every boot ----

  /** Neither limit of the permanence results can be dropped: on every store with room for
      two ids, for every string, one run with a disable overlapping a query and one with
      enables overlapping each other end with two answers to the string that differ. */
  lemma OverlapsForkAnswers(db0: Db, a: Str)
    returns (run1: seq<Action>, i1: NumID, j1: NumID, run2: seq<Action>, i2: NumID, j2: NumID)
    requires Bootable(db0, false) && Boot(db0, false).cnt + 2 <= MAX_ID
    ensures var s := Start(Boot(db0, false));
            && Run(s, run1) && {(a, i1), (a, j1)} <= After(s, run1).acks && i1 != j1
            && Run(s, run2) && {(a, i2), (a, j2)} <= After(s, run2).acks && i2 != j2
  {
    hide Run, After, CStr, Rank, Rebuild;
    BootCounter(db0);
    run1, i1, j1 := DisableForksAnAnswer(Start(Boot(db0, false)), a);
    run2, i2, j2 := OverlappingEnablesForkAnAnswer(Start(Boot(db0, false)), a);
  }
}
