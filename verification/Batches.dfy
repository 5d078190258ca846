/** What one STR2ID request writes, and when it leaves every binding alone: the ids it
    hands out must not be stored yet. */
module Batches {
  import opened Bytes
  import opened Store
  import opened Service

  /** The requested C prefixes the index does not know yet. */
  function NewPrefixes(index: map<Str, NumID>, strings: seq<Str>): set<Str> {
    set s | s in strings && CStr(s) !in index :: CStr(s)
  }

  lemma NewPrefixesSnoc(index: map<Str, NumID>, strings: seq<Str>, s: Str)
    ensures NewPrefixes(index, strings + [s])
         == if CStr(s) in index then NewPrefixes(index, strings) else NewPrefixes(index, strings) + {CStr(s)}
  {
    hide CStr;
    assert forall t :: t in strings + [s] <==> t in strings || t == s;
  }

  /** `n` records with consecutive ids from `cnt` on and values the index did not know. */
  ghost predicate Hands(index: map<Str, NumID>, cnt: NumID, n: nat, pairs: seq<KVPair>) {
    && |pairs| == n
    && forall j | 0 <= j < n :: pairs[j].key == cnt + j && CStr(pairs[j].value) !in index
  }

  /** The batch of a request: one such record for each new prefix. */
  ghost predicate IsBatch(index: map<Str, NumID>, cnt: NumID, strings: seq<Str>, b: Batch) {
    var news := NewPrefixes(index, strings);
    && b.index.Keys == index.Keys + news
    && Hands(index, cnt, |news|, b.pairs) && b.cnt == cnt + |news|
  }

  lemma HandsOneMore(index: map<Str, NumID>, cnt: NumID, n: nat, pairs: seq<KVPair>, id: NumID, s: Str)
    requires Hands(index, cnt, n, pairs) && id == cnt + n && CStr(s) !in index
    ensures Hands(index, cnt, n + 1, pairs + [KVPair(id, s)])
  {
    hide CStr;
  }

  lemma AddPrefix(known: set<Str>, news: set<Str>, c: Str)
    ensures c !in news ==> |news + {c}| == |news| + 1
    ensures c in news ==> news + {c} == news
    ensures known + (news + {c}) == (known + news) + {c}
  {
  }

  lemma KnownPrefixBatch(index: map<Str, NumID>, cnt: NumID, init: seq<Str>, s: Str, b: Batch)
    requires b.cnt < MAX_ID && IsBatch(index, cnt, init, b) && CStr(s) in b.index
    ensures IsBatch(index, cnt, init + [s], FindOne(b, s))
  {
    hide CStr, NewPrefixes, Hands;
    NewPrefixesSnoc(index, init, s);
    AddPrefix(index.Keys, NewPrefixes(index, init), CStr(s));
    assert CStr(s) in index || CStr(s) in NewPrefixes(index, init) by { assert CStr(s) in b.index.Keys; }
  }

  lemma KeysOneMore(index: map<Str, NumID>, c: Str, id: NumID)
    ensures index[c := id].Keys == index.Keys + {c}
  {
  }

  lemma FreshPrefixBatch(index: map<Str, NumID>, cnt: NumID, init: seq<Str>, s: Str, b: Batch)
    requires b.cnt < MAX_ID && IsBatch(index, cnt, init, b) && CStr(s) !in b.index
    ensures IsBatch(index, cnt, init + [s], FindOne(b, s))
  {
    hide CStr, NewPrefixes, Hands;
    var c, news := CStr(s), NewPrefixes(index, init);
    assert c !in index.Keys && c !in news by { assert c !in b.index.Keys; }
    NewPrefixesSnoc(index, init, s);
    AddPrefix(index.Keys, news, c);
    HandsOneMore(index, cnt, |news|, b.pairs, b.cnt, s);
    KeysOneMore(b.index, c, b.cnt);
  }

  lemma FindOneBatch(index: map<Str, NumID>, cnt: NumID, init: seq<Str>, s: Str, b: Batch)
    requires b.cnt < MAX_ID && IsBatch(index, cnt, init, b)
    ensures IsBatch(index, cnt, init + [s], FindOne(b, s))
  {
    hide CStr, NewPrefixes, IsBatch, FindOne;
    if CStr(s) in b.index {
      KnownPrefixBatch(index, cnt, init, s, b);
    } else {
      FreshPrefixBatch(index, cnt, init, s, b);
    }
  }

  lemma {:induction false} FindAllBatch(index: map<Str, NumID>, cnt: NumID, strings: seq<Str>)
    requires cnt + |strings| <= MAX_ID
    ensures IsBatch(index, cnt, strings, FindAll(index, cnt, strings))
  {
    hide CStr, NewPrefixes, FindOne, IsBatch;
    if strings == [] {
      NoneRequested(index, cnt);
    } else {
      var init, s := strings[..|strings| - 1], strings[|strings| - 1];
      FindAllBatch(index, cnt, init);
      FindOneBatch(index, cnt, init, s, FindAll(index, cnt, init));
      assert init + [s] == strings;
    }
  }

  lemma NoneRequested(index: map<Str, NumID>, cnt: NumID)
    ensures IsBatch(index, cnt, [], Batch(index, cnt, [], []))
  {
    assert NewPrefixes(index, []) == {};
  }

  // ---- what a request keeps when its ids are fresh ----

  /** None of the next `n` counter values is stored. */
  ghost predicate Unused(db: Db, cnt: NumID, n: nat) {
    forall k | k in db :: !(cnt <= k < cnt + n)
  }

  ghost predicate IndexGrows(a: map<Str, NumID>, b: map<Str, NumID>) {
    forall c | c in a :: c in b && b[c] == a[c]
  }

  /** What the loop and the batch write keep, when the index fits the store: it still
      does, no id is rebound, no indexed string changes its id, and the i-th answer is the
      id the index now gives to the i-th string. */
  ghost predicate Served(index: map<Str, NumID>, db: Db, strings: seq<Str>, b: Batch) {
    && IsIndex(b.index, Put(db, b.pairs))
    && Extends(db, Put(db, b.pairs))
    && IndexGrows(index, b.index)
    && |b.ids| == |strings|
    && forall i | 0 <= i < |strings| :: CStr(strings[i]) in b.index && b.ids[i] == b.index[CStr(strings[i])]
  }

  lemma FreshStringGrows(index0: map<Str, NumID>, index: map<Str, NumID>, c: Str, id: NumID)
    requires c !in index && IndexGrows(index0, index)
    ensures IndexGrows(index0, index[c := id])
  {
  }

  lemma FreshIdKeeps(db0: Db, db: Db, id: NumID, s: Str)
    requires id !in db && Extends(db0, db)
    ensures Extends(db0, db[id := s])
  {
  }

  lemma FindOneServes(index: map<Str, NumID>, db: Db, init: seq<Str>, s: Str, b: Batch)
    requires b.cnt < MAX_ID && Served(index, db, init, b)
    requires CStr(s) !in b.index ==> b.cnt !in Put(db, b.pairs)
    ensures Served(index, db, init + [s], FindOne(b, s))
  {
    hide Rank, CStr, Put, IsIndex, Extends, IndexGrows;
    if CStr(s) !in b.index {
      FreshIdKeeps(db, Put(db, b.pairs), b.cnt, s);
      FreshStringGrows(index, b.index, CStr(s), b.cnt);
      IndexInsert(b.index, Put(db, b.pairs), s, b.cnt);
      PutSnoc(db, b.pairs, KVPair(b.cnt, s));
    }
  }

  /** The counter value a fresh prefix gets is neither stored nor pending. */
  lemma CounterUnbound(index: map<Str, NumID>, cnt: NumID, n: nat, pairs: seq<KVPair>, db: Db, id: NumID)
    requires Hands(index, cnt, n, pairs) && Unused(db, cnt, n + 1) && id == cnt + n
    ensures id !in Put(db, pairs)
  {
    hide CStr, Put;
    PutMeaning(db, pairs, id);
  }

  lemma FewerUnused(db: Db, cnt: NumID, m: nat, n: nat)
    requires Unused(db, cnt, n) && m <= n
    ensures Unused(db, cnt, m)
  {
  }

  /** The ids of a request's prefix are among those of the request. */
  lemma PrefixUnused(index: map<Str, NumID>, cnt: NumID, db: Db, init: seq<Str>, s: Str)
    requires Unused(db, cnt, |NewPrefixes(index, init + [s])|)
    ensures Unused(db, cnt, |NewPrefixes(index, init)|)
    ensures CStr(s) !in index && CStr(s) !in NewPrefixes(index, init) ==>
              Unused(db, cnt, |NewPrefixes(index, init)| + 1)
  {
    hide CStr, NewPrefixes, Unused;
    var news := NewPrefixes(index, init);
    NewPrefixesSnoc(index, init, s);
    AddPrefix(index.Keys, news, CStr(s));
    FewerUnused(db, cnt, |news|, |NewPrefixes(index, init + [s])|);
  }

  lemma FindNextServes(index: map<Str, NumID>, cnt: NumID, db: Db, init: seq<Str>, s: Str, b: Batch)
    requires b.cnt < MAX_ID && IsBatch(index, cnt, init, b) && Served(index, db, init, b)
    requires Unused(db, cnt, |NewPrefixes(index, init + [s])|)
    ensures Served(index, db, init + [s], FindOne(b, s))
  {
    hide CStr, FindOne, NewPrefixes, Hands, Unused, Served, Put;
    PrefixUnused(index, cnt, db, init, s);
    if CStr(s) !in b.index {
      assert CStr(s) !in index && CStr(s) !in NewPrefixes(index, init) by { assert CStr(s) !in b.index.Keys; }
      CounterUnbound(index, cnt, |NewPrefixes(index, init)|, b.pairs, db, b.cnt);
    }
    FindOneServes(index, db, init, s, b);
  }

  lemma {:induction false} FindAllServes(index: map<Str, NumID>, cnt: NumID, db: Db, strings: seq<Str>)
    requires cnt + |strings| <= MAX_ID
    requires IsIndex(index, db) && Unused(db, cnt, |NewPrefixes(index, strings)|)
    ensures Served(index, db, strings, FindAll(index, cnt, strings))
  {
    hide Rank, CStr, FindOne, NewPrefixes, Unused, IsBatch, IsIndex, Served;
    if strings == [] {
      NothingServed(index, cnt, db);
    } else {
      var init, s := strings[..|strings| - 1], strings[|strings| - 1];
      assert init + [s] == strings;
      PrefixUnused(index, cnt, db, init, s);
      FindAllServes(index, cnt, db, init);
      FindAllBatch(index, cnt, init);
      FindNextServes(index, cnt, db, init, s, FindAll(index, cnt, init));
    }
  }

  lemma NothingServed(index: map<Str, NumID>, cnt: NumID, db: Db)
    requires IsIndex(index, db)
    ensures Served(index, db, [], Batch(index, cnt, [], []))
  {
    hide IsIndex;
  }

  // ---- a counter above every id ----

  lemma BelowUnused(db: Db, cnt: NumID, n: nat)
    requires Below(db, cnt)
    ensures Unused(db, cnt, n)
  {
  }

  lemma BelowStays(index: map<Str, NumID>, cnt: NumID, n: nat, pairs: seq<KVPair>, db: Db)
    requires Below(db, cnt) && Hands(index, cnt, n, pairs)
    ensures Below(Put(db, pairs), cnt + n)
  {
    hide CStr, Put;
    forall k | k in Put(db, pairs) ensures k < cnt + n {
      PutMeaning(db, pairs, k);
    }
  }

  lemma RequestStaysBelow(index: map<Str, NumID>, cnt: NumID, db: Db, strings: seq<Str>)
    requires cnt + |strings| <= MAX_ID && Below(db, cnt)
    ensures var b := FindAll(index, cnt, strings); Below(Put(db, b.pairs), b.cnt)
  {
    hide CStr, Put, Hands, NewPrefixes, FindAll, Below, Rank;
    FindAllBatch(index, cnt, strings);
    BelowStays(index, cnt, |NewPrefixes(index, strings)|, FindAll(index, cnt, strings).pairs, db);
  }
}
