/** The on/off switch over whole runs: STR2ID is served exactly if the last boot, disable
    or enable left it on, and a process that is off changes nothing. */
module Switch {
  import opened Bytes
  import opened Store
  import opened Service
  import opened Runs

  /** Where an event leaves the switch: a boot sets it by its option, no other event but
      disable and enable moves it. */
  function Turned(on: bool, e: Event): bool {
    match e
    case BootUp(noS2i) => !noS2i
    case DisableS2i => false
    case EnableS2i => true
    case _ => on
  }

  function Switched(on: bool, es: seq<Event>): bool
    decreases |es|
  {
    if es == [] then on else Switched(Turned(on, es[0]), es[1..])
  }

  lemma {:induction false} SwitchFollows(w: World, on: bool, es: seq<Event>)
    requires PossibleRun(w, es) && (w.Up? ==> w.st.disabled == !on)
    ensures After(w, es).Up? ==> After(w, es).st.disabled == !Switched(on, es)
    decreases |es|
  {
    hide Rebuild, FindAll, Put, LookupValues, Missing, Rank;
    if es != [] { SwitchFollows(Next(w, es[0]), Turned(on, es[0]), es[1..]); }
  }

  /** In every serialised run STR2ID (operation 1) is rejected exactly while the switch is
      off, changing nothing; ID2STR (operation 2) is always answered from the store. */
  lemma RejectedIffOff(db0: Db, es: seq<Event>, req: Query)
    requires PossibleRun(Down(db0), es) && Possible(After(Down(db0), es), Request(req))
    ensures var st := After(Down(db0), es).st; var (st', r) := Serve(st, req);
            && (req.op == 1 ==> (r == Rejected(STR2ID_QUERIES_DISABLED) <==> !Switched(false, es)))
            && (req.op == 1 && !Switched(false, es) ==> st' == st)
            && (req.op == 1 && Switched(false, es) ==> r.Answered? && |r.response.ids| == |req.strings|)
            && (req.op == 2 ==>
                  && st' == st && r.Answered? && |r.response.strings| == |req.ids|
                  && forall i | 0 <= i < |req.ids| ::
                       && r.response.strings[i] == (if req.ids[i] in st.db then st.db[req.ids[i]] else [])
                       && (i in r.response.failures <==> req.ids[i] !in st.db))
  {
    hide FindAll, Put, PossibleRun, After;
    SwitchFollows(Down(db0), false, es);
  }

  /** Neither starts nor ends a process, nor turns the switch on. */
  predicate Quiet(e: Event) {
    e.Request? || e.DisableS2i?
  }

  lemma {:induction false} OffStaysPut(w: World, es: seq<Event>)
    requires PossibleRun(w, es) && w.Up? && w.st.disabled && forall e | e in es :: Quiet(e)
    ensures After(w, es) == w
    decreases |es|
  {
    hide FindAll, Put, LookupValues, Missing;
    if es != [] {
      assert Quiet(es[0]);
      OffStaysPut(Next(w, es[0]), es[1..]);
    }
  }

  /** A process booted with `-S` only looks up until it is enabled: it starts with no index
      and the counter at 0, keeps that and the store through any requests and disables,
      and rejects every STR2ID. */
  lemma DashSOnlyLooksUp(db: Db, es: seq<Event>, req: Query)
    requires PossibleRun(Down(db), [BootUp(true)] + es) && forall e | e in es :: Quiet(e)
    requires req.op == 1
    ensures var w := After(Down(db), [BootUp(true)] + es);
            && w == Up(State(db, map[], 0, true), true)
            && Possible(w, Request(req)) && Serve(w.st, req) == (w.st, Rejected(STR2ID_QUERIES_DISABLED))
  {
    assert ([BootUp(true)] + es)[1..] == es;
    OffStaysPut(Next(Down(db), BootUp(true)), es);
  }
}
