/** While only queries run, every interleaving of their steps is the serial execution of
    the atomic specification in the order the threads acquired the mutex. */
module Linearise {
  import opened Bytes
  import opened Store
  import opened Service
  import opened Interleaving

  datatype SerialResult = Overflows | Replied(p: State, replies: seq<(Tid, Reply)>)

  /** The atomic specification, applied to one request after the other. */
  function Serial(p: State, order: seq<(Tid, Query)>): (r: SerialResult)
    ensures r.Replied? ==> |r.replies| == |order|
  {
    if order == [] then Replied(p, [])
    else
      var (t, req) := order[|order| - 1];
      match Serial(p, order[..|order| - 1])
      case Overflows => Overflows
      case Replied(q, replies) =>
        if Room(q.cnt, req) then
          var (q', reply) := Serve(q, req);
          Replied(q', replies + [(t, reply)])
        else Overflows
  }

  predicate IsQuery(th: Thread) {
    th.Waiting? || th.Holds()
  }

  predicate QueryAction(a: Action) {
    a.Turn? || (a.Spawn? && a.start.Waiting?)
  }

  /** The state of the mutex holder's request against `q`, the state it started from. */
  ghost predicate Underway(q: State, p: State, th: Thread, req: Query) {
    match th
    case Locked(r) => r == req && p == q && Room(q.cnt, req)
    case Finding(r, ids, pairs) =>
      && r == req && req.op == STR2ID && !q.disabled && q.cnt + |req.strings| <= MAX_ID
      && |ids| <= |req.strings|
      && Batch(p.index, p.cnt, ids, pairs) == FindAll(q.index, q.cnt, req.strings[..|ids|])
      && p == State(q.db, p.index, p.cnt, q.disabled)
    case Getting(r, values, failures) =>
      && r == req && req.op == ID2STR && |req.ids| <= MAX_32 && p == q
      && |values| <= |req.ids|
      && values == LookupValues(q.db, req.ids[..|values|])
      && failures == Missing(q.db, req.ids[..|values|])
    case Replying(r, reply) => r == req && Room(q.cnt, req) && (p, reply) == Serve(q, req)
    case _ => false
  }

  ghost predicate Linear(p0: State, s: Sys) {
    && (forall t | t in s.threads :: IsQuery(s.threads[t]) && (s.threads[t].Holds() <==> s.lock == HeldBy(t)))
    && match s.lock
       case Free => Serial(p0, s.order) == Replied(s.p, s.replies)
       case HeldBy(t) =>
         && t in s.threads && s.order != [] && s.order[|s.order| - 1].0 == t
         && var before := Serial(p0, s.order[..|s.order| - 1]);
            && before.Replied? && before.replies == s.replies
            && Underway(before.p, s.p, s.threads[t], s.order[|s.order| - 1].1)
  }

  lemma TurnUnderway(q: State, s: Sys, t: Tid, req: Query)
    requires t in s.threads && Enabled(s, Turn(t)) && s.threads[t].Holds() && !s.threads[t].Replying?
    requires Underway(q, s.p, s.threads[t], req)
    ensures var s' := Do(s, Turn(t)); t in s'.threads && Underway(q, s'.p, s'.threads[t], req)
  {
    hide CStr, FindAll, FindOne, LookupValues, Missing, Put;
    match s.threads[t]
    case Locked(_) => StartUnderway(q, req);
    case Finding(_, ids, pairs) =>
      if |ids| < |req.strings| {
        FindAllSnoc(q.index, q.cnt, req.strings[..|ids|], req.strings[|ids|]);
        assert req.strings[..|ids|] + [req.strings[|ids|]] == req.strings[..|ids| + 1];
        assert |FindAll(q.index, q.cnt, req.strings[..|ids| + 1]).ids| == |ids| + 1;
      } else {
        assert req.strings[..|ids|] == req.strings;
      }
    case Getting(_, values, failures) =>
      if |values| < |req.ids| {
        LookupSnoc(q.db, req.ids, |values|);
      } else {
        assert req.ids[..|values|] == req.ids;
      }
  }

  lemma StartUnderway(q: State, req: Query)
    requires Room(q.cnt, req)
    ensures Underway(q, q, Begin(q, req), req)
  {
    LookupNone(q.db, req.ids);
    if req.op == STR2ID && !q.disabled {
      assert req.strings[..0] == [];
    }
  }

  lemma AcquireLinear(p0: State, s: Sys, t: Tid)
    requires Linear(p0, s) && Enabled(s, Turn(t)) && s.threads[t].Waiting?
    ensures Linear(p0, Do(s, Turn(t)))
  {
    hide Serve, Serial;
    var s' := Do(s, Turn(t));
    assert s'.order[..|s'.order| - 1] == s.order;
  }

  lemma ReplyLinear(p0: State, s: Sys, t: Tid)
    requires Linear(p0, s) && Enabled(s, Turn(t)) && s.threads[t].Replying?
    ensures Linear(p0, Do(s, Turn(t)))
  {
    hide Serve;
  }

  lemma MiddleLinear(p0: State, s: Sys, t: Tid)
    requires Linear(p0, s) && Enabled(s, Turn(t)) && s.threads[t].Holds() && !s.threads[t].Replying?
    ensures Linear(p0, Do(s, Turn(t)))
  {
    hide Underway, Serial, Do;
    TurnUnderway(Serial(p0, s.order[..|s.order| - 1]).p, s, t, s.order[|s.order| - 1].1);
    HolderStays(s, t);
  }

  lemma HolderStays(s: Sys, t: Tid)
    requires t in s.threads && Enabled(s, Turn(t)) && s.threads[t].Holds() && !s.threads[t].Replying?
    ensures var s' := Do(s, Turn(t));
            && s'.lock == s.lock && s'.order == s.order && s'.replies == s.replies
            && s'.threads == s.threads[t := s'.threads[t]] && s'.threads[t].Holds()
  {
    hide FindOne, Put;
  }

  lemma {:induction false} RunLinear(p0: State, s: Sys, run: seq<Action>)
    requires Linear(p0, s) && Run(s, run) && (forall a | a in run :: QueryAction(a))
    ensures Linear(p0, After(s, run))
    decreases |run|
  {
    if run != [] {
      hide Linear, Do, Enabled;
      ActionLinear(p0, s, run[0]);
      RunLinear(p0, Do(s, run[0]), run[1..]);
    }
  }

  lemma ActionLinear(p0: State, s: Sys, a: Action)
    requires Linear(p0, s) && Enabled(s, a) && QueryAction(a)
    ensures Linear(p0, Do(s, a))
  {
    hide Underway, Serial;
    if a.Turn? {
      if s.threads[a.t].Waiting? {
        AcquireLinear(p0, s, a.t);
      } else if s.threads[a.t].Replying? {
        ReplyLinear(p0, s, a.t);
      } else {
        MiddleLinear(p0, s, a.t);
      }
    }
  }

  lemma {:induction false} SerialPrefix(p: State, order: seq<(Tid, Query)>, n: nat)
    requires n <= |order| && Serial(p, order).Replied?
    ensures Serial(p, order[..n]).Replied? && Serial(p, order[..n]).replies == Serial(p, order).replies[..n]
    decreases |order|
  {
    if n < |order| {
      SerialPrefix(p, order[..|order| - 1], n);
      assert order[..|order| - 1][..n] == order[..n];
    } else {
      assert order[..n] == order;
    }
  }

  /** Main result: from any state of a process without running threads, whatever the
      interleaving, the replies so far are, thread by thread, those of the atomic
      specification in lock-acquisition order; whenever the mutex is free, so are the
      store, the index and the counter. */
  lemma QueriesLinearise(p0: State, run: seq<Action>)
    requires Run(Start(p0), run) && (forall a | a in run :: QueryAction(a))
    ensures var s := After(Start(p0), run);
            && |s.replies| <= |s.order| <= |s.replies| + 1
            && (s.lock.Free? ==> Serial(p0, s.order) == Replied(s.p, s.replies))
            && var served := Serial(p0, s.order[..|s.replies|]);
               served.Replied? && served.replies == s.replies
  {
    RunLinear(p0, Start(p0), run);
    var s := After(Start(p0), run);
    assert s.order[..|s.order|] == s.order;
  }
}
