/** From an empty store the ids handed out are 1, 2, 3, ... without gaps, whatever the
    interleaving of queries, disables and enables, crashes included. */
module Numbering {
  import opened Bytes
  import opened Store
  import opened Service
  import opened Interleaving
  import opened Soundness
  import opened Permanence

  /** The stored ids are 1, 2, ..., and the pending ones follow them up to the counter. */
  ghost predicate Dense(db: Db, pairs: seq<KVPair>, cnt: NumID) {
    && cnt - |pairs| >= 1
    && (forall k: NumID :: k in db <==> 1 <= k < cnt - |pairs|)
    && (forall j | 0 <= j < |pairs| :: pairs[j].key == cnt - |pairs| + j)
  }

  ghost predicate DenseSys(s: Sys) {
    Dense(s.p.db, Pending(s), s.p.cnt)
  }

  lemma DenseOneMore(db: Db, pairs: seq<KVPair>, cnt: NumID, str: Str)
    requires Dense(db, pairs, cnt) && cnt < MAX_ID
    ensures Dense(db, pairs + [KVPair(cnt, str)], cnt + 1)
  {
    var more := pairs + [KVPair(cnt, str)];
    forall j | 0 <= j < |more| ensures more[j].key == cnt + 1 - |more| + j {
      if j < |pairs| { assert more[j] == pairs[j]; }
    }
  }

  lemma DenseWritten(db: Db, pairs: seq<KVPair>, cnt: NumID)
    requires Dense(db, pairs, cnt)
    ensures Dense(Put(db, pairs), [], cnt)
  {
    hide Put;
    forall k: NumID ensures k in Put(db, pairs) <==> 1 <= k < cnt {
      PutMeaning(db, pairs, k);
      if cnt - |pairs| <= k < cnt {
        var j := k - (cnt - |pairs|);
        assert LastWith(pairs, k, j) by { assert pairs[j].key == k; }
      } else {
        assert forall j | 0 <= j < |pairs| :: pairs[j].key != k;
      }
    }
  }

  /** A reboot drops what is pending and hands out those ids again. */
  lemma DenseBoot(db: Db, pairs: seq<KVPair>, cnt: NumID)
    requires Dense(db, pairs, cnt) && Bootable(db, false)
    ensures Dense(db, [], Boot(db, false).cnt)
  {
    hide Rank, Rebuild, IsIndex;
    BootCounter(db);
    var next := Boot(db, false).cnt;
    assert next > 1 ==> (next - 1) in db;
    if cnt - |pairs| > 1 {
      var last: NumID := cnt - |pairs| - 1;
      assert last in db;
    }
  }

  // ---- every step keeps it ----

  lemma FindPending(s: Sys)
    requires Inv(s) && AtFind(s) && Enabled(s, Turn(s.lock.t))
    ensures var s' := Do(s, Turn(s.lock.t));
            && s'.p.db == s.p.db
            && (Sought(s) in s.p.index ==> Pending(s') == Pending(s) && s'.p.cnt == s.p.cnt)
            && (Sought(s) !in s.p.index ==>
                  Pending(s') == Pending(s) + [KVPair(s.p.cnt, SoughtString(s))] && s'.p.cnt == s.p.cnt + 1)
  {
    hide CStr, Rank, Put, Extends, Below, AcksOk, IndexOk, AllBound;
  }

  lemma HolderPending(s: Sys)
    requires Inv(s) && s.lock.HeldBy? && Enabled(s, Turn(s.lock.t)) && !AtFind(s)
    ensures var s' := Do(s, Turn(s.lock.t));
            && s'.p.cnt == s.p.cnt
            && ((s'.p.db == s.p.db && Pending(s') == Pending(s))
                || (s'.p.db == Put(s.p.db, Pending(s)) && Pending(s') == []))
  {
    hide CStr, Rank, Put, FindOne, Extends, Below, AcksOk, IndexOk, AllBound;
  }

  lemma FreePending(s: Sys, a: Action)
    requires Inv(s) && Enabled(s, a) && s.lock.Free? && !a.Reboot?
    ensures Do(s, a).p.cnt == s.p.cnt && Pending(s) == []
  {
    hide CStr, Rank, Put, Visible, FindOne, Extends, Below, AcksOk, IndexOk, HolderOk, Snapshot;
    if a.Turn? { assert OutsideOk(s.p, s.threads[a.t]); }
  }

  lemma StepDense(s: Sys, a: Action)
    requires Inv(s) && DenseSys(s) && Enabled(s, a)
    ensures DenseSys(Do(s, a))
  {
    hide Inv, Dense, Pending, Put, Rebuild;
    if a.Reboot? {
      NothingPending(s, a);
      DenseBoot(s.p.db, Pending(s), s.p.cnt);
    } else {
      hide Do;
      if s.lock.Free? {
        NothingPending(s, a);
        FreePending(s, a);
      } else if a != Turn(s.lock.t) {
        OutsideKeepsHolder(s, a);
        SameHolder(s, Do(s, a));
      } else if AtFind(s) {
        FindPending(s);
        if Sought(s) !in s.p.index { DenseOneMore(s.p.db, Pending(s), s.p.cnt, SoughtString(s)); }
      } else {
        HolderPending(s);
        DenseWritten(s.p.db, Pending(s), s.p.cnt);
      }
    }
  }

  lemma {:induction false} RunDense(s: Sys, run: seq<Action>)
    requires Inv(s) && DenseSys(s) && Run(s, run)
    ensures DenseSys(After(s, run))
    decreases |run|
  {
    hide Inv, DenseSys, Do, Enabled;
    if run != [] {
      ActionKeeps(s, run[0]);
      StepDense(s, run[0]);
      RunDense(Do(s, run[0]), run[1..]);
    }
  }

  /** Main result: the stored ids are exactly 1, 2, ... and the pending ones follow, so
      that the ids stored or pending are exactly those below the counter. */
  lemma IdsAreDense(run: seq<Action>)
    requires Bootable(map[], false) && Run(Start(Boot(map[], false)), run)
    ensures var s := After(Start(Boot(map[], false)), run);
            && (forall k: NumID :: k in s.p.db <==> 1 <= k < s.p.cnt - |Pending(s)|)
            && (forall k: NumID :: k in Visible(s) <==> 1 <= k < s.p.cnt)
  {
    hide Rank, Rebuild, Run, After, Put, Inv, Pending, DenseSys, Dense;
    var s0 := Start(Boot(map[], false));
    StartsOk(map[]);
    StartsDense();
    RunDense(s0, run);
    var s := After(s0, run);
    DenseMeans(s);
  }

  lemma StartsDense()
    requires Bootable(map[], false)
    ensures DenseSys(Start(Boot(map[], false)))
  {
    hide Rank, Rebuild;
    BootCounter(map[]);
  }

  lemma DenseMeans(s: Sys)
    requires DenseSys(s)
    ensures forall k: NumID :: k in s.p.db <==> 1 <= k < s.p.cnt - |Pending(s)|
    ensures forall k: NumID :: k in Visible(s) <==> 1 <= k < s.p.cnt
  {
    hide Put;
    DenseWritten(s.p.db, Pending(s), s.p.cnt);
  }
}
