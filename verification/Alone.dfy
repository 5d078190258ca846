/** The step model and the atomic operations agree: a disable or enable thread that no
    other thread interrupts is `Service.Disable` or `Service.Enable`. (For queries this
    is part of `Linearise.QueriesLinearise`.) */
module Alone {
  import opened Bytes
  import opened Store
  import opened Service
  import opened Interleaving

  function Turns(t: Tid, n: nat): (run: seq<Action>)
    ensures |run| == n && forall a | a in run :: a == Turn(t)
  {
    seq(n, _ => Turn(t))
  }

  lemma TurnsJoin(s: Sys, t: Tid, m: nat, n: nat)
    requires Run(s, Turns(t, m)) && Run(After(s, Turns(t, m)), Turns(t, n))
    ensures Run(s, Turns(t, m + n)) && After(s, Turns(t, m + n)) == After(After(s, Turns(t, m)), Turns(t, n))
  {
    hide Run, After;
    RunJoin(s, Turns(t, m), Turns(t, n));
    assert Turns(t, m) + Turns(t, n) == Turns(t, m + n);
  }

  lemma OneTurn(s: Sys, t: Tid)
    requires Enabled(s, Turn(t))
    ensures Run(s, Turns(t, 1)) && After(s, Turns(t, 1)) == Do(s, Turn(t))
  {
    hide Do, Enabled, Run, After;
    RunOne(s, Turn(t));
    assert Turns(t, 1) == [Turn(t)];
  }

  lemma NoTurns(s: Sys, t: Tid)
    ensures Run(s, Turns(t, 0)) && After(s, Turns(t, 0)) == s
  {
  }

  lemma TwoTurns(s: Sys, t: Tid)
    requires Enabled(s, Turn(t)) && Enabled(Do(s, Turn(t)), Turn(t))
    ensures Run(s, Turns(t, 2)) && After(s, Turns(t, 2)) == Do(Do(s, Turn(t)), Turn(t))
  {
    hide Do, Enabled, Run, After;
    OneTurn(s, t);
    OneTurn(Do(s, Turn(t)), t);
    TurnsJoin(s, t, 1, 1);
  }

  lemma SpawnFirst(s: Sys, t: Tid, start: Thread, n: nat)
    requires Enabled(s, Spawn(t, start)) && Run(Become(s, t, start), Turns(t, n))
    ensures Run(s, [Spawn(t, start)] + Turns(t, n))
    ensures After(s, [Spawn(t, start)] + Turns(t, n)) == After(Become(s, t, start), Turns(t, n))
  {
    RunOne(s, Spawn(t, start));
    RunJoin(s, [Spawn(t, start)], Turns(t, n));
  }

  // ---- disable ----

  /** Without others, disable takes one step if already disabled, else three. */
  lemma DisableAlone(s: Sys, t: Tid)
    requires t !in s.threads
    ensures var run := [Spawn(t, Disabling)] + Turns(t, if s.p.disabled then 1 else 3);
            Run(s, run) && After(s, run) == s.(p := Disable(s.p))
  {
    hide Turns, Run, After;
    var s1 := Become(s, t, Disabling);
    if s.p.disabled {
      OneTurn(s1, t);
      SpawnFirst(s, t, Disabling, 1);
      assert Do(s1, Turn(t)).threads == s.threads;
    } else {
      TwoTurns(s1, t);
      var s3 := Do(Do(s1, Turn(t)), Turn(t));
      OneTurn(s3, t);
      TurnsJoin(s1, t, 2, 1);
      SpawnFirst(s, t, Disabling, 3);
      assert Do(s3, Turn(t)).threads == s.threads;
    }
  }

  // ---- enable ----

  /** The turn that finds no record left and clears the flag. */
  lemma LastTurn(s: Sys, t: Tid)
    requires t in s.threads && s.threads[t] == Loading([])
    ensures Enabled(s, Turn(t))
    ensures Do(s, Turn(t)) == s.(p := s.p.(disabled := false), threads := s.threads - {t})
  {
  }

  lemma MergeThenUpdate(a: map<Str, NumID>, b: map<Str, NumID>, c: Str, id: NumID)
    ensures (a + b)[c := id] == a + b[c := id]
  {
  }

  /** The turn that loads record `i`. */
  lemma LoadOneAlone(s: Sys, t: Tid, base: map<Str, NumID>, ks: seq<NumID>, i: nat)
    requires i < |ks| && forall k | k in ks :: k in s.p.db
    requires t in s.threads && s.threads[t] == Loading(Records(s.p.db, ks)[i..])
    requires s.p.index == base + LoadIndex(s.p.db, ks[..i])
    ensures Enabled(s, Turn(t))
    ensures Do(s, Turn(t)) == Become(s, t, Loading(Records(s.p.db, ks)[i + 1..])).
              (p := s.p.(index := base + LoadIndex(s.p.db, ks[..i + 1])))
  {
    hide CStr, Rank, LoadIndex, FindOne, Put;
    var rest := Records(s.p.db, ks)[i..];
    LoadSnoc(s.p.db, ks, i);
    assert rest[0] == KVPair(ks[i], s.p.db[ks[i]]) && rest[1..] == Records(s.p.db, ks)[i + 1..];
    MergeThenUpdate(base, LoadIndex(s.p.db, ks[..i]), CStr(s.p.db[ks[i]]), ks[i]);
  }

  /** The loading loop from record `i` on, up to the end of the iteration. */
  lemma {:induction false} LoadsAlone(s: Sys, t: Tid, base: map<Str, NumID>, ks: seq<NumID>, i: nat)
    requires i <= |ks| && forall k | k in ks :: k in s.p.db
    requires t in s.threads && s.threads[t] == Loading(Records(s.p.db, ks)[i..])
    requires s.p.index == base + LoadIndex(s.p.db, ks[..i])
    ensures Run(s, Turns(t, |ks| - i))
    ensures After(s, Turns(t, |ks| - i))
         == Become(s, t, Loading([])).(p := s.p.(index := base + LoadIndex(s.p.db, ks)))
    decreases |ks| - i
  {
    hide CStr, Rank, LoadIndex, Turns, Run, After, Do;
    if i == |ks| {
      NoTurns(s, t);
      assert ks[..i] == ks && Records(s.p.db, ks)[i..] == [];
      assert Become(s, t, s.threads[t]) == s;
    } else {
      LoadOneAlone(s, t, base, ks, i);
      OneTurn(s, t);
      var s' := Do(s, Turn(t));
      LoadsAlone(s', t, base, ks, i + 1);
      TurnsJoin(s, t, 1, |ks| - i - 1);
      assert Become(s', t, Loading([])).threads == Become(s, t, Loading([])).threads;
    }
  }

  /** An enable thread that read the flag as set, up to the end of its iteration. */
  lemma SeeksAndLoads(s: Sys, t: Tid)
    requires t in s.threads && s.threads[t] == Seeking
    ensures var n := |Snapshot(s.p.db)| + 1;
            && Run(s, Turns(t, n))
            && After(s, Turns(t, n))
               == Become(s, t, Loading([])).(p := s.p.(index := s.p.index + Rebuild(s.p.db)))
  {
    hide CStr, Rank, LoadIndex, Iteration, Turns, Run, After;
    var ks := Iteration(s.p.db.Keys);
    IterationInOrder(s.p.db.Keys);
    var s' := Do(s, Turn(t));
    OneTurn(s, t);
    LoadNone(s.p.db, ks);
    assert s.p.index + map[] == s.p.index;
    LoadsAlone(s', t, s.p.index, ks, 0);
    TurnsJoin(s, t, 1, |ks|);
    assert Become(s', t, Loading([])).threads == Become(s, t, Loading([])).threads;
  }

  /** Without others, enable takes one step if already enabled, else three and one per
      stored record. */
  lemma EnableAlone(s: Sys, t: Tid)
    requires t !in s.threads
    ensures var run := [Spawn(t, Enabling)] + Turns(t, if s.p.disabled then |Snapshot(s.p.db)| + 3 else 1);
            Run(s, run) && After(s, run) == s.(p := Enable(s.p))
  {
    hide CStr, Rank, Rebuild, Snapshot, Turns, Run, After;
    var s1 := Become(s, t, Enabling);
    OneTurn(s1, t);
    if s.p.disabled {
      var s2 := Do(s1, Turn(t));
      var n := |Snapshot(s.p.db)| + 1;
      SeeksAndLoads(s2, t);
      var s3 := After(s2, Turns(t, n));
      LastTurn(s3, t);
      OneTurn(s3, t);
      TurnsJoin(s2, t, n, 1);
      TurnsJoin(s1, t, 1, n + 1);
      SpawnFirst(s, t, Enabling, n + 2);
      assert Do(s3, Turn(t)).threads == s.threads;
    } else {
      SpawnFirst(s, t, Enabling, 1);
      assert Do(s1, Turn(t)).threads == s.threads;
    }
  }

  /** The flag changes last: one step before the end an undisturbed disable has emptied the
      index of a process still enabled, and an undisturbed enable has filled the index of
      one still disabled. */
  lemma FlagChangesLast(s: Sys, t: Tid)
    requires t !in s.threads
    ensures !s.p.disabled ==>
              var run := [Spawn(t, Disabling)] + Turns(t, 2);
              Run(s, run) && After(s, run).p == s.p.(index := map[])
    ensures s.p.disabled ==>
              var run := [Spawn(t, Enabling)] + Turns(t, |Snapshot(s.p.db)| + 2);
              Run(s, run) && After(s, run).p == s.p.(index := s.p.index + Rebuild(s.p.db))
  {
    hide CStr, Rank, Rebuild, Snapshot, Turns, Run, After;
    if s.p.disabled {
      var s1 := Become(s, t, Enabling);
      OneTurn(s1, t);
      SeeksAndLoads(Do(s1, Turn(t)), t);
      TurnsJoin(s1, t, 1, |Snapshot(s.p.db)| + 1);
      SpawnFirst(s, t, Enabling, |Snapshot(s.p.db)| + 2);
    } else {
      TwoTurns(Become(s, t, Disabling), t);
      SpawnFirst(s, t, Disabling, 2);
    }
  }
}
