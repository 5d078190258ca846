/** The durable store as a value: what an atomic batch does to it, the fixed order
    its iterator follows, and the string index that belongs to it. */
module Store {
  import opened Bytes

  type Db = map<NumID, Str>

  datatype KVPair = KVPair(key: NumID, value: Str)

  /** A later state of the store that rebinds no id. */
  ghost predicate Extends(db: Db, db': Db) {
    forall k | k in db :: k in db' && db'[k] == db[k]
  }

  // ---- batches ----

  /** The store after one batch of Puts, applied in order. */
  function Put(db: Db, kvs: seq<KVPair>): Db {
    if kvs == [] then db
    else
      var last := kvs[|kvs| - 1];
      Put(db, kvs[..|kvs| - 1])[last.key := last.value]
  }

  lemma PutNone(db: Db)
    ensures Put(db, []) == db
  {
  }

  lemma PutSnoc(db: Db, kvs: seq<KVPair>, p: KVPair)
    ensures Put(db, kvs + [p]) == Put(db, kvs)[p.key := p.value]
  {
    assert (kvs + [p])[..|kvs|] == kvs;
  }

  lemma {:induction false} PutConcat(db: Db, a: seq<KVPair>, b: seq<KVPair>)
    ensures Put(db, a + b) == Put(Put(db, a), b)
  {
    if b == [] {
      assert a + b == a;
    } else {
      PutConcat(db, a, b[..|b| - 1]);
      assert (a + b)[..|a + b| - 1] == a + b[..|b| - 1];
    }
  }

  /** `i` is the last record of `kvs` with key `k`. */
  ghost predicate LastWith(kvs: seq<KVPair>, k: NumID, i: nat) {
    i < |kvs| && kvs[i].key == k && forall j | i < j < |kvs| :: kvs[j].key != k
  }

  /** A batch overrides the store record by record: the last record of a key wins,
      keys without a record keep their value. */
  lemma {:induction false} PutMeaning(db: Db, kvs: seq<KVPair>, k: NumID)
    ensures forall i: nat | LastWith(kvs, k, i) :: k in Put(db, kvs) && Put(db, kvs)[k] == kvs[i].value
    ensures (forall i | 0 <= i < |kvs| :: kvs[i].key != k) ==>
              (k in Put(db, kvs) <==> k in db) && (k in db ==> Put(db, kvs)[k] == db[k])
  {
    if kvs != [] {
      hide Put, LastWith;
      var init, last := kvs[..|kvs| - 1], kvs[|kvs| - 1];
      PutMeaning(db, init, k);
      assert kvs == init + [last];
      PutSnoc(db, init, last);
      forall i: nat | LastWith(kvs, k, i)
        ensures i < |kvs| && k in Put(db, kvs) && Put(db, kvs)[k] == kvs[i].value
      {
        LastBefore(kvs, k, i);
      }
    }
  }

  lemma LastBefore(kvs: seq<KVPair>, k: NumID, i: nat)
    requires LastWith(kvs, k, i)
    ensures i < |kvs| && kvs[i].key == k
    ensures i == |kvs| - 1 || (LastWith(kvs[..|kvs| - 1], k, i) && kvs[|kvs| - 1].key != k)
  {
  }

  /** Putting the last record of a batch once more changes nothing. */
  lemma PutAgain(db: Db, kvs: seq<KVPair>)
    requires kvs != []
    ensures Put(db, kvs + [kvs[|kvs| - 1]]) == Put(db, kvs)
  {
    PutSnoc(db, kvs, kvs[|kvs| - 1]);
  }

  // ---- iteration order ----

  /** Position of a key under the store's default comparator, which compares the
      8 key bytes as unsigned bytes from the first one on. */
  function Rank(id: NumID): nat {
    FromBe(IdBytes(id))
  }

  lemma RankInjective(a: NumID, b: NumID)
    requires Rank(a) == Rank(b)
    ensures a == b
  {
    ToFromBe(IdBytes(a));
    ToFromBe(IdBytes(b));
    IdRoundTrip(a);
    IdRoundTrip(b);
  }

  /** The bytes of `a` come before those of `b`, the first difference deciding. */
  ghost predicate KeyBefore(a: NumID, b: NumID) {
    exists i :: 0 <= i < 8 && IdBytes(a)[..i] == IdBytes(b)[..i] && IdBytes(a)[i] < IdBytes(b)[i]
  }

  lemma RankIsKeyOrder(a: NumID, b: NumID)
    ensures Rank(a) < Rank(b) <==> KeyBefore(a, b)
  {
    hide IdBytes, FromBe;
    FromBeOrder(IdBytes(a), IdBytes(b));
    if LexLess(IdBytes(a), IdBytes(b)) {
      var x, y := IdBytes(a), IdBytes(b);
      var i :| 0 <= i < |x| && i < |y| && x[..i] == y[..i] && x[i] < y[i];
      assert 0 <= i < 8;
    }
  }

  /** So among small ids the remainder modulo 256 comes first: 256 before 1. */
  lemma SmallIdOrder(a: NumID, b: NumID)
    requires 0 <= a && 0 <= b && a % 256 < b % 256
    ensures Rank(a) < Rank(b)
  {
    hide Rank, IdBytes;
    IdBytesAt(a);
    IdBytesAt(b);
    RankIsKeyOrder(a, b);
    assert Pow256(0) == 1;
    assert IdBytes(a)[0] == a % 256 && IdBytes(b)[0] == b % 256;
    assert IdBytes(a)[..0] == IdBytes(b)[..0];
  }

  predicate IsFirst(k: NumID, keys: set<NumID>) {
    k in keys && forall x | x in keys :: Rank(k) <= Rank(x)
  }

  lemma {:induction false} FirstExists(keys: set<NumID>) returns (k: NumID)
    requires keys != {}
    ensures IsFirst(k, keys)
  {
    hide Rank;
    k :| k in keys;
    var rest := keys - {k};
    if rest == {} {
      assert keys == {k};
    } else {
      var r := FirstExists(rest);
      assert forall x | x in keys :: x == k || x in rest;
      if Rank(r) < Rank(k) {
        k := r;
      }
    }
  }

  function First(keys: set<NumID>): (k: NumID)
    requires keys != {}
    ensures k in keys && forall x | x in keys :: Rank(k) <= Rank(x)
  {
    hide Rank;
    assert exists k | k in keys :: IsFirst(k, keys) by { var w := FirstExists(keys); }
    assert forall a, b | IsFirst(a, keys) && IsFirst(b, keys) :: a == b by {
      forall a, b | IsFirst(a, keys) && IsFirst(b, keys) ensures a == b { RankInjective(a, b); }
    }
    var k :| k in keys && IsFirst(k, keys);
    k
  }

  /** The keys in the order the store's iterator visits them. */
  function Iteration(keys: set<NumID>): (ks: seq<NumID>) {
    if keys == {} then []
    else
      var k := First(keys);
      [k] + Iteration(keys - {k})
  }

  ghost predicate InOrder(ks: seq<NumID>) {
    forall i, j | 0 <= i < j < |ks| :: Rank(ks[i]) < Rank(ks[j])
  }

  lemma {:induction false} IterationInOrder(keys: set<NumID>)
    ensures InOrder(Iteration(keys))
    ensures forall k :: k in Iteration(keys) <==> k in keys
  {
    hide Rank;
    if keys != {} {
      var k := First(keys);
      var rest := Iteration(keys - {k});
      IterationInOrder(keys - {k});
      assert forall x :: x in [k] + rest <==> x == k || x in rest;
      forall x | x in rest ensures Rank(k) < Rank(x) {
        assert x in keys - {k};
        if Rank(k) == Rank(x) { RankInjective(k, x); }
      }
    }
  }

  /** The records an iterator yields over the keys `ks`. */
  function Records(db: Db, ks: seq<NumID>): (kvs: seq<KVPair>)
    requires forall k | k in ks :: k in db
    ensures |kvs| == |ks|
    ensures forall i | 0 <= i < |ks| :: kvs[i] == KVPair(ks[i], db[ks[i]])
  {
    seq(|ks|, i requires 0 <= i < |ks| => KVPair(ks[i], db[ks[i]]))
  }

  /** What a fresh iterator yields. */
  function Snapshot(db: Db): (kvs: seq<KVPair>)
    ensures |kvs| == |Iteration(db.Keys)|
  {
    IterationInOrder(db.Keys);
    Records(db, Iteration(db.Keys))
  }

  /** `ks` visits every key of the store exactly once, in some order. */
  ghost predicate Enumerates(ks: seq<NumID>, db: Db) {
    && (forall k :: k in ks <==> k in db)
    && (forall i, j | 0 <= i < j < |ks| :: ks[i] != ks[j])
  }

  lemma IterationEnumerates(db: Db)
    ensures Enumerates(Iteration(db.Keys), db)
  {
    hide Rank;
    IterationInOrder(db.Keys);
    var ks := Iteration(db.Keys);
    forall i, j | 0 <= i < j < |ks| ensures ks[i] != ks[j] {
      assert Rank(ks[i]) < Rank(ks[j]);
    }
  }

  /** Writing a mapped copy of all the records of a store into an empty one, in
      whatever order they were visited, maps the store. */
  lemma PutEnumeration(db: Db, ks: seq<NumID>, kvs: seq<KVPair>, f: Str -> Str)
    requires Enumerates(ks, db) && |kvs| == |ks|
    requires forall i | 0 <= i < |ks| :: kvs[i] == KVPair(ks[i], f(db[ks[i]]))
    ensures Put(map[], kvs) == map k | k in db :: f(db[k])
  {
    var got := Put(map[], kvs);
    forall k: NumID
      ensures k in got <==> k in db
      ensures k in db ==> got[k] == f(db[k])
    {
      PutMeaning(map[], kvs, k);
      if k in db {
        var i :| 0 <= i < |ks| && ks[i] == k;
        assert LastWith(kvs, k, i);
      } else {
        assert forall i | 0 <= i < |kvs| :: kvs[i].key == ks[i] && ks[i] in ks;
      }
    }
  }

  // ---- the largest stored id ----

  function MaxId(ks: seq<NumID>): (m: NumID)
    ensures m >= 0
    ensures forall k | k in ks :: k <= m
    ensures m == 0 || m in ks
  {
    if ks == [] then 0
    else
      var m := MaxId(ks[..|ks| - 1]);
      var last := ks[|ks| - 1];
      assert ks == ks[..|ks| - 1] + [last];
      if last > m then last else m
  }

  /** The maximum is the same in any visiting order. */
  lemma MaxIdOrderIndependent(a: seq<NumID>, b: seq<NumID>, db: Db)
    requires Enumerates(a, db) && Enumerates(b, db)
    ensures MaxId(a) == MaxId(b)
  {
  }

  // ---- the string index of a store ----

  /** The index of a store binds the NUL-prefix of every stored string to the key,
      among those storing it, which the iterator visits last. */
  ghost predicate IsIndex(index: map<Str, NumID>, db: Db) {
    && (forall c | c in index :: index[c] in db && CStr(db[index[c]]) == c)
    && (forall k | k in db :: CStr(db[k]) in index && Rank(k) <= Rank(index[CStr(db[k])]))
  }

  lemma IndexUnique(a: map<Str, NumID>, b: map<Str, NumID>, db: Db)
    requires IsIndex(a, db) && IsIndex(b, db)
    ensures a == b
  {
    forall c: Str
      ensures c in a <==> c in b
      ensures c in a && c in b ==> a[c] == b[c]
    {
      if c in a && c in b {
        assert a[c] in db && b[c] in db;
        RankInjective(a[c], b[c]);
      }
    }
  }

  /** Insert-or-overwrite of every visited record, in order (what loading does). */
  function LoadIndex(db: Db, ks: seq<NumID>): map<Str, NumID>
    requires forall k | k in ks :: k in db
  {
    if ks == [] then map[]
    else
      var last := ks[|ks| - 1];
      LoadIndex(db, ks[..|ks| - 1])[CStr(db[last]) := last]
  }

  lemma LoadNone(db: Db, ks: seq<NumID>)
    ensures LoadIndex(db, ks[..0]) == map[] && MaxId(ks[..0]) == 0
  {
  }

  lemma LoadSnoc(db: Db, ks: seq<NumID>, i: nat)
    requires i < |ks| && forall k | k in ks :: k in db
    ensures LoadIndex(db, ks[..i + 1]) == LoadIndex(db, ks[..i])[CStr(db[ks[i]]) := ks[i]]
    ensures MaxId(ks[..i + 1]) == if ks[i] > MaxId(ks[..i]) then ks[i] else MaxId(ks[..i])
  {
    hide Rank, CStr;
    assert ks[..i + 1][..i] == ks[..i];
  }

  /** The index `load_in_memory` builds in an empty memory storage. */
  function Rebuild(db: Db): map<Str, NumID> {
    IterationInOrder(db.Keys);
    LoadIndex(db, Iteration(db.Keys))
  }

  /** The index after the records of the visited keys `ks`, in visiting order. */
  ghost predicate IsLoaded(ix: map<Str, NumID>, db: Db, ks: seq<NumID>)
    requires forall k | k in ks :: k in db
  {
    && (forall c | c in ix :: ix[c] in ks && CStr(db[ix[c]]) == c)
    && (forall i | 0 <= i < |ks| :: CStr(db[ks[i]]) in ix && Rank(ks[i]) <= Rank(ix[CStr(db[ks[i]])]))
  }

  lemma LoadIndexStep(ix: map<Str, NumID>, db: Db, init: seq<NumID>, last: NumID)
    requires last in db && forall k | k in init :: k in db && Rank(k) < Rank(last)
    requires IsLoaded(ix, db, init)
    ensures IsLoaded(ix[CStr(db[last]) := last], db, init + [last])
  {
    hide Rank, CStr;
    var ix' := ix[CStr(db[last]) := last];
    forall c | c in ix' ensures ix'[c] in init + [last] && CStr(db[ix'[c]]) == c {
      if c != CStr(db[last]) { assert ix[c] in init; }
    }
  }

  lemma PrefixInOrder(ks: seq<NumID>)
    requires ks != [] && InOrder(ks)
    ensures InOrder(ks[..|ks| - 1])
    ensures forall k | k in ks[..|ks| - 1] :: Rank(k) < Rank(ks[|ks| - 1])
  {
    hide Rank;
    forall k | k in ks[..|ks| - 1] ensures Rank(k) < Rank(ks[|ks| - 1]) {
      var i :| 0 <= i < |ks| - 1 && ks[i] == k;
    }
  }

  lemma NothingLoaded(db: Db)
    ensures IsLoaded(map[], db, [])
  {
  }

  lemma {:induction false} LoadIndexMeaning(db: Db, ks: seq<NumID>)
    requires forall k | k in ks :: k in db
    requires InOrder(ks)
    ensures IsLoaded(LoadIndex(db, ks), db, ks)
  {
    hide Rank, CStr, IsLoaded, InOrder;
    if ks == [] {
      NothingLoaded(db);
    } else {
      var init, last := ks[..|ks| - 1], ks[|ks| - 1];
      PrefixInOrder(ks);
      LoadIndexMeaning(db, init);
      LoadIndexStep(LoadIndex(db, init), db, init, last);
      assert init + [last] == ks;
    }
  }

  lemma RebuildIsIndex(db: Db)
    ensures IsIndex(Rebuild(db), db)
  {
    hide Rank, CStr;
    var ks := Iteration(db.Keys);
    IterationInOrder(db.Keys);
    LoadIndexMeaning(db, ks);
    forall k | k in db
      ensures CStr(db[k]) in Rebuild(db) && Rank(k) <= Rank(Rebuild(db)[CStr(db[k])])
    {
      assert k in ks;
      var i :| 0 <= i < |ks| && ks[i] == k;
    }
  }

  /** A fresh id for a string the index does not know keeps index and store in step. */
  lemma IndexInsert(index: map<Str, NumID>, db: Db, s: Str, id: NumID)
    requires IsIndex(index, db) && CStr(s) !in index && id !in db
    ensures IsIndex(index[CStr(s) := id], db[id := s])
  {
    hide Rank, CStr;
  }

  /** The loaded index by key bytes: a string is bound to the key storing it that comes
      last. */
  lemma RebuildByKeyOrder(db: Db, k: NumID)
    requires k in db
    ensures var index := Rebuild(db); var c := CStr(db[k]);
            && c in index && index[c] in db && CStr(db[index[c]]) == c
            && (index[c] == k || KeyBefore(k, index[c]))
  {
    hide Rank, CStr, Rebuild, KeyBefore;
    RebuildIsIndex(db);
    var last := Rebuild(db)[CStr(db[k])];
    if Rank(k) == Rank(last) { RankInjective(k, last); }
    RankIsKeyOrder(k, last);
  }

  /** A fresh iterator yields every record once, by increasing key bytes. */
  lemma SnapshotInKeyOrder(db: Db)
    ensures forall r :: r in Snapshot(db) <==> r.key in db && db[r.key] == r.value
    ensures var kvs := Snapshot(db);
            forall i, j | 0 <= i < j < |kvs| :: KeyBefore(kvs[i].key, kvs[j].key)
  {
    hide Rank, IdBytes, KeyBefore, Iteration;
    IterationInOrder(db.Keys);
    var ks, kvs := Iteration(db.Keys), Snapshot(db);
    forall r ensures r in kvs <==> r.key in db && db[r.key] == r.value {
      if r in kvs {
        var i :| 0 <= i < |kvs| && kvs[i] == r;
        assert ks[i] in ks;
      }
      if r.key in db && db[r.key] == r.value {
        assert r.key in ks;
        var i :| 0 <= i < |ks| && ks[i] == r.key;
        assert kvs[i] == r;
      }
    }
    forall i, j | 0 <= i < j < |kvs| ensures KeyBefore(kvs[i].key, kvs[j].key) {
      assert Rank(ks[i]) < Rank(ks[j]);
      RankIsKeyOrder(ks[i], ks[j]);
    }
  }

  /** What the fixed order means on an imported store that binds one string twice: the
      index answers 1, not 256, and the records come out with 256 first. */
  lemma OrderDecides(a: Str, b: Str)
    ensures Rebuild(map[1 := a, 256 := a]) == map[CStr(a) := 1]
    ensures Snapshot(map[1 := a, 256 := b]) == [KVPair(256, b), KVPair(1, a)]
  {
    hide Rank, CStr, Iteration;
    IterationOfTwo();
    var twice: Db := map[1 := a, 256 := a];
    var ks: seq<NumID> := [256, 1];
    LoadNone(twice, ks);
    LoadSnoc(twice, ks, 0);
    LoadSnoc(twice, ks, 1);
    assert ks[..2] == ks && twice.Keys == {1, 256};
    var once: map<Str, NumID> := map[];
    assert once[CStr(a) := 256][CStr(a) := 1] == map[CStr(a) := 1];
    var db: Db := map[1 := a, 256 := b];
    assert db.Keys == {1, 256};
  }

  lemma IterationOfTwo()
    ensures forall db: Db | db.Keys == {1, 256} :: Iteration(db.Keys) == [256, 1]
  {
    hide Rank;
    SmallIdOrder(256, 1);
    var none: set<NumID>, one: set<NumID>, both: set<NumID> := {}, {1}, {1, 256};
    assert First(both) == 256 && both - {256} == one;
    assert First(one) == 1 && one - {1} == none;
    assert Iteration(one) == [1] + Iteration(none);
    assert Iteration(both) == [256] + Iteration(one);
  }
}
