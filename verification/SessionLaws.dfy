/** What a client has sent, and when it connects again, over its runs (connection.rs, statement.rs, transaction.rs). */
module SessionLaws {
  import opened Wire
  import opened Session
  import opened SessionRuns

  // ---- The log ----

  /** Nothing that was sent is taken back. */
  lemma StepLogGrows(w: World, e: Event)
    ensures w.log <= Step(w, e).log
  {
    hide RunQuery, Prepare, LogOf, EndTransaction, CleanUpTransaction, ExecuteStatement, Release, Establish, StepQuery,
         StepPrepare;
    match e
    case Query(tx, handshake, work, outcome) => QueryCourse(w, tx, handshake, work, outcome);
    case PrepareStatement(tx, handshake, outcome) => PrepareCourse(w, tx, handshake, outcome);
    case _ =>
  }

  lemma {:induction false} LogGrows(w: World, events: seq<Event>)
    ensures w.log <= Run(w, events).log
    decreases |events|
  {
    hide Step;
    if events != [] {
      StepLogGrows(w, events[0]);
      LogGrows(Step(w, events[0]), events[1..]);
    }
  }

  lemma {:induction false} RunAppend(w: World, a: seq<Event>, b: seq<Event>)
    ensures Run(w, a + b) == Run(Run(w, a), b)
    decreases |a|
  {
    hide Step;
    if a == [] {
      assert a + b == b;
    } else {
      assert (a + b)[1..] == a[1..] + b;
      RunAppend(Step(w, a[0]), a[1..], b);
    }
  }

  // ---- Commits of statements ----

  /** A statement that may be executed: prepared, of the client's session, and connected. */
  predicate Executable(w: World, k: nat) {
    && k < |w.statements| && w.statements[k].state.Prepared?
    && w.statements[k].generation == w.client.generation && w.client.connected
  }

  /** How many RDBCMMs must follow the request: one behind a change, one behind rows whose LOBs are cleaned up, and
      those of a CALL or batch, all only under auto-commit. */
  function MustCommit(autoCommit: bool, work: StatementWork): nat {
    match work
    case Change => if autoCommit then 1 else 0
    case Rows(cleanup, _) => if autoCommit && cleanup then 1 else 0
    case CallOrBatch(n, _) => if autoCommit then n else 0
    case NotEncoded => 0
  }

  /** What executing a statement sends: its request to the live session and, behind it, these RDBCMMs to the same. */
  lemma {:induction false} ExecuteSends(w: World, k: nat, work: StatementWork, outcome: Outcome)
    ensures var v := Step(w, Execute(k, work, outcome));
            v.log == if Executable(w, k) && !work.NotEncoded? then
                       w.log + [StatementSent(w.statements[k].session, w.session, w.statements[k].section)]
                       + seq(MustCommit(w.client.autoCommit, work), _ => CommitSent(w.session))
                     else w.log
  {
    hide Finalize, AfterWork;
    assert w.log + [] == w.log;
    if k < |w.statements| {
      var s := w.statements[k];
      var n := MustCommit(w.client.autoCommit, work);
      assert w.log + ([StatementSent(s.session, w.session, s.section)] + seq(n, _ => CommitSent(w.session)))
          == w.log + [StatementSent(s.session, w.session, s.section)] + seq(n, _ => CommitSent(w.session));
    }
  }

  /** In every run every execution that is due RDBCMMs has sent them, to the session its request reached and right
      behind it, and they stay in the log whatever follows. */
  lemma {:induction false} CommitsFollow(
    w: World, before: seq<Event>, k: nat, work: StatementWork, outcome: Outcome, after: seq<Event>, i: nat
  )
    requires Executable(Run(w, before), k) && !work.NotEncoded?
    requires i < MustCommit(Run(w, before).client.autoCommit, work)
    ensures var v, log := Run(w, before), Run(w, before + [Execute(k, work, outcome)] + after).log;
            && |v.log| + 1 + i < |log| && log[..|v.log|] == v.log
            && log[|v.log|] == StatementSent(v.statements[k].session, v.session, v.statements[k].section)
            && log[|v.log| + 1 + i] == CommitSent(v.session)
  {
    hide Step;
    var v, e := Run(w, before), Execute(k, work, outcome);
    RunAppend(w, before + [e], after);
    RunAppend(w, before, [e]);
    assert [e][1..] == [] && Run(v, [e]) == Run(Step(v, e), [e][1..]) == Step(v, e);
    ExecuteSends(v, k, work, outcome);
    LogGrows(Step(v, e), after);
  }

  /** A change executed under auto-commit is committed behind its request. */
  lemma {:induction false} ChangeIsCommitted(w: World, before: seq<Event>, k: nat, outcome: Outcome, after: seq<Event>)
    requires Executable(Run(w, before), k) && Run(w, before).client.autoCommit
    ensures var v, log := Run(w, before), Run(w, before + [Execute(k, Change, outcome)] + after).log;
            && |v.log| + 1 < |log|
            && log[|v.log|] == StatementSent(v.statements[k].session, v.session, v.statements[k].section)
            && log[|v.log| + 1] == CommitSent(v.session)
  {
    hide Run;
    CommitsFollow(w, before, k, Change, outcome, after, 0);
  }

  // ---- What ending a transaction sends ----

  /** A commit sends an RDBCMM and a rollback an RDBRLLBCK, exactly if the transaction is active, of the client's
      session, and connected. */
  lemma {:induction false} EndSends(w: World, t: nat, commit: bool, outcome: Outcome)
    ensures var v := Step(w, if commit then Commit(t, outcome) else Rollback(t, outcome));
            v.log == if && t < |w.transactions| && w.transactions[t].state.Active?
                        && w.transactions[t].generation == w.client.generation && w.client.connected
                     then w.log + [TransactionSent(w.transactions[t].session, w.session),
                                   if commit then CommitSent(w.session) else RollbackSent(w.session)]
                     else w.log
  {
    hide Finalize;
    assert w.log + [] == w.log;
  }

  /** The cleanup of an abandoned one sends an RDBRLLBCK, exactly if auto-commit is still off besides. */
  lemma {:induction false} CleanUpSends(w: World, t: nat, outcome: Outcome)
    ensures var v := Step(w, CleanUp(t, outcome));
            v.log == if && t < |w.transactions| && w.transactions[t].state.Abandoned?
                        && w.transactions[t].generation == w.client.generation
                        && w.client.connected && !w.client.autoCommit
                     then w.log + [TransactionSent(w.transactions[t].session, w.session), RollbackSent(w.session)]
                     else w.log
  {
    assert w.log + [] == w.log;
  }

  // ---- What becomes of handles ----

  /** A transaction that is ended well is committed or rolled back, and auto-commit is on again; any other one that was
      active is left to its cleanup, and one that was not active is left alone. */
  lemma {:induction false} EndedTransaction(w: World, t: nat, commit: bool, outcome: Outcome)
    ensures var v := Step(w, if commit then Commit(t, outcome) else Rollback(t, outcome));
            if t < |w.transactions| && w.transactions[t].state.Active? then
              var tx := w.transactions[t];
              var well := tx.generation == w.client.generation && w.client.connected && outcome.Succeeds?;
              && v.statements == w.statements && |v.transactions| == |w.transactions|
              && (forall i | 0 <= i < |w.transactions| && i != t :: v.transactions[i] == w.transactions[i])
              && v.transactions[t].state == (if !well then Abandoned else if commit then Committed else RolledBack)
              && (well ==> v.client == w.client.(autoCommit := true))
            else v == w
  {
    hide Finalize;
  }

  /** A dropped one is left to its cleanup; a cleanup runs once, for a dropped one, and then is over. */
  lemma {:induction false} DroppedTransaction(w: World, t: nat, outcome: Outcome)
    ensures var v := Step(w, DropTransaction(t));
            if t < |w.transactions| && w.transactions[t].state.Active? then
              && v.client == w.client && v.log == w.log && v.statements == w.statements
              && |v.transactions| == |w.transactions| && v.transactions[t].state == Abandoned
              && (forall i | 0 <= i < |w.transactions| && i != t :: v.transactions[i] == w.transactions[i])
            else v == w
    ensures var v := Step(w, CleanUp(t, outcome));
            if t < |w.transactions| && w.transactions[t].state.Abandoned? then
              && v.statements == w.statements
              && |v.transactions| == |w.transactions| && v.transactions[t].state == Cleaned
              && (forall i | 0 <= i < |w.transactions| && i != t :: v.transactions[i] == w.transactions[i])
            else v == w
  {}

  /** A statement is closed, or released after being dropped, once; its section goes back if its session is the live
      one. Dropping it changes nothing else. */
  lemma {:induction false} ClosedStatement(w: World, k: nat, dropped: bool)
    ensures var v := Step(w, if dropped then ReleaseDropped(k) else CloseStatement(k));
            if k < |w.statements| && (if dropped then w.statements[k].state.DropPending?
                                      else w.statements[k].state.Prepared?) then
              var s := w.statements[k];
              && v == w.(client := v.client, statements := w.statements[k := s.(state := Gone)])
              && v.client == w.client.(free := v.client.free)
              && v.client.free == if s.generation == w.client.generation && 1 <= s.section <= 385
                                     && s.section !in w.client.free
                                  then w.client.free + [s.section] else w.client.free
            else v == w
    ensures var v := Step(w, DropStatement(k));
            v == if k < |w.statements| && w.statements[k].state.Prepared? then
                   w.(statements := w.statements[k := w.statements[k].(state := DropPending)])
                 else w
  {}

  /** Preparing on a connected client adds a handle of the live session exactly if it succeeds and a section is left:
      the one freed last, or else the next. */
  lemma {:induction false} PreparedHandle(w: World, handshake: Handshake, outcome: Outcome)
    requires w.client.connected
    ensures var v, c := Step(w, PrepareStatement(None, handshake, outcome)), w.client;
            && v.log == w.log + [WorkSent(w.session)] && v.transactions == w.transactions
            && v.statements == if outcome.Succeeds? && (c.free != [] || c.next <= 385) then
                                 w.statements + [Statement(if c.free != [] then c.free[|c.free| - 1] else c.next,
                                                           c.generation, w.session, Prepared)]
                               else w.statements
  {
    assert [Work(0)][..0] == [];
    assert LogOf([Work(0)], None, w.session) == LogOf([], None, w.session) + RequestsOf(Work(0), None, w.session);
    assert [] + ([] + [WorkSent(w.session)]) == [WorkSent(w.session)];
    hide LogOf, Release;
  }

  // ---- Clients that were closed ----

  predicate Shut(c: Client) {
    !c.connected && c.closedExplicitly
  }

  predicate EndsOwnTransaction(w: World, e: Event) {
    match e
    case Commit(t, _) => IsOwn(w, t)
    case Rollback(t, _) => IsOwn(w, t)
    case _ => false
  }

  predicate IsOwn(w: World, t: nat) {
    && t < |w.transactions| && w.transactions[t].state.Active?
    && w.transactions[t].generation == w.client.generation
  }

  predicate BeginsSession(e: Event) {
    e.Connect? || e.Reestablish?
  }

  /** Closing a client shuts it. */
  lemma ClosingShuts(w: World)
    ensures var v := Step(w, Close);
            && Shut(v.client) && v.client.autoCommit && v.client.connectedOnce == w.client.connectedOnce
            && v.client.generation == w.client.generation && v.session == w.session && v.log == w.log
  {}

  /** A step of a shut client neither sends anything nor begins a session, unless it is told to connect; afterwards it
      is still shut exactly if the step does not commit or roll back an active transaction of its last session. */
  lemma ShutStep(w: World, e: Event)
    requires Shut(w.client) && !BeginsSession(e)
    ensures var v := Step(w, e);
            && v.session == w.session && v.log == w.log && !v.client.connected
            && v.client.connectedOnce == w.client.connectedOnce
            && (v.client.closedExplicitly <==> !EndsOwnTransaction(w, e))
  {
    hide RunQuery, Prepare, LogOf, Establish;
    assert w.log + [] == w.log;
    match e
    case Query(tx, handshake, work, outcome) => QueryCourse(w, tx, handshake, work, outcome);
    case PrepareStatement(tx, handshake, outcome) => PrepareCourse(w, tx, handshake, outcome);
    case _ =>
  }

  ghost predicate StaysShut(w: World, events: seq<Event>)
    decreases |events|
  {
    Shut(w.client) && (events == [] || StaysShut(Step(w, events[0]), events[1..]))
  }

  ghost predicate EndsNone(w: World, events: seq<Event>)
    decreases |events|
  {
    events == [] || (!EndsOwnTransaction(w, events[0]) && EndsNone(Step(w, events[0]), events[1..]))
  }

  /** A closed client that is not told to connect stays shut over a whole run if and only if no step of it commits or
      rolls back an active transaction of its last session; and then it begins no session and sends nothing. */
  lemma {:induction false} ShutOverRuns(w: World, events: seq<Event>)
    requires Shut(w.client) && forall e | e in events :: !BeginsSession(e)
    ensures StaysShut(w, events) <==> EndsNone(w, events)
    ensures StaysShut(w, events) ==> Run(w, events).session == w.session && Run(w, events).log == w.log
    decreases |events|
  {
    hide Step;
    if events != [] {
      assert events[0] in events;
      ShutStep(w, events[0]);
      if !EndsOwnTransaction(w, events[0]) {
        ShutOverRuns(Step(w, events[0]), events[1..]);
      }
    }
  }

  /** An operation of the client itself begins a session exactly if the client was connected once, is not any more, was
      not closed, and gets through. */
  lemma {:induction false} Reconnecting(w: World, handshake: Handshake)
    ensures var v := Step(w, Begin(handshake));
            && (v.session == w.session + 1 <==>
                  && !w.client.connected && w.client.connectedOnce && !w.client.closedExplicitly
                  && !handshake.FailsBefore?)
            && (v.session == w.session + 1 || v.session == w.session)
            && (v.client.connected ==> !v.client.autoCommit)
            && (v.client.connected <==>
                  || w.client.connected
                  || (w.client.connectedOnce && !w.client.closedExplicitly && handshake.Established?))
  {
    BeginCourse(w, handshake);
    hide StepBegin;
  }

  /** A client closed with a transaction open. */
  function ClosedWorld(): World {
    Run(Initial(), [Connect(Established), Begin(Established), Close])
  }

  lemma ClosedWorldIs()
    ensures var w := ClosedWorld();
            && Shut(w.client) && w.client.connectedOnce && w.session == 1
            && |w.transactions| == 1 && IsOwn(w, 0)
  {
    hide NextGeneration;
    var one := Step(Initial(), Connect(Established));
    var two := Step(one, Begin(Established));
    var events: seq<Event> := [Connect(Established), Begin(Established), Close];
    assert events[1..] == [Begin(Established), Close] && events[1..][1..] == [Close] && [Close][1..] == [];
    assert Run(two, [Close]) == Run(Step(two, Close), []) == Step(two, Close);
    assert Run(one, events[1..]) == Run(two, [Close]);
  }

  /** So a closed client may connect again unasked: committing a transaction that was open when it was closed fails,
      and the next transaction then begins a second session, which it does not do without that. */
  lemma ClosedReconnects()
    ensures var w := ClosedWorld();
            && Shut(w.client) && w.session == 1
            && Step(w, Begin(Established)).session == 1
            && Run(w, [Commit(0, Succeeds), Begin(Established)]).session == 2
            && Run(w, [Commit(0, Succeeds), Begin(Established)]).client.connected
  {
    hide Step, ClosedWorld;
    ClosedWorldIs();
    var w := ClosedWorld();
    var v := Step(w, Commit(0, Succeeds));
    ShutStep(w, Begin(Established));
    ShutStep(w, Commit(0, Succeeds));
    Reconnecting(v, Established);
    var later: seq<Event> := [Commit(0, Succeeds), Begin(Established)];
    assert later[1..] == [Begin(Established)] && [Begin(Established)][1..] == [];
    assert Run(v, [Begin(Established)]) == Run(Step(v, Begin(Established)), []) == Step(v, Begin(Established));
  }

  // ---- Sections in order ----

  /** A new client connects only when told to; its first session is the first generation, in auto-commit and with all
      sections to give out. Without a session auto-commit is on too. */
  lemma {:induction false} FirstConnection(handshake: Handshake)
    ensures Step(Initial(), Begin(handshake)) == Initial()
    ensures var c := Step(Initial(), Connect(handshake)).client;
            && c.connected == handshake.Established? && c.connectedOnce == !handshake.FailsBefore?
            && c.autoCommit && !c.closedExplicitly && c.next == 1 && c.free == [] && c.cache == map[]
            && c.generation == (if handshake.FailsBefore? then 0 else 1)
    ensures Step(Initial(), Connect(handshake)).log == []
  {}

  /** A released section is given out next, and then the client is as it was. */
  lemma {:induction false} ReleasedIsNext(c: Client, section: nat)
    requires 1 <= section <= 385 && section !in c.free
    ensures Allocate(Release(c, section)) == (Some(section), c)
  {
    assert (c.free + [section])[..|c.free|] == c.free;
  }

  /** A fresh session gives out sections 1, 2, 3 and so on up to 385. */
  lemma {:induction false} FreshSections(c: Client, n: nat)
    requires c.free == [] && c.next == n + 1
    ensures n < 385 ==> Allocate(c) == (Some(n + 1), c.(next := n + 2))
    ensures n >= 385 ==> Allocate(c) == (None, c)
  {}

  // ---- The select cache ----

  predicate CacheFits(c: Client) {
    |c.cache| <= 64
  }

  lemma FewerEntries(cache: map<string, nat>, sql: string)
    ensures |cache - {sql}| <= |cache|
  {
    assert (cache - {sql}).Keys == cache.Keys - {sql};
  }

  lemma OneMoreEntry(cache: map<string, nat>, sql: string, section: nat)
    ensures |cache[sql := section]| <= |cache| + 1
  {
    assert cache[sql := section].Keys == cache.Keys + {sql};
  }

  /** What happens in the middle of a query adds nothing to the cache. */
  lemma {:induction false} MiddleCache(d: Course, middle: seq<Inner>)
    ensures |RunMiddle(d, middle).client.cache| <= |d.client.cache|
    decreases |middle|
  {
    hide AskOn;
    if middle != [] {
      if middle[0].Ask? {
        AskCache(d.client, middle[0].dedicated, middle[0].timesOut);
      }
      MiddleCache(RunInner(d, middle[0]), middle[1..]);
    }
  }

  lemma AskCache(c: Client, dedicated: bool, timesOut: bool)
    ensures |AskOn(c, dedicated, timesOut).cache| <= |c.cache|
  {
    hide AllocateCached;
    AllocateCachedKeeps(c);
  }

  lemma AnewCache(d: Course, sql: string, plan: SelectPlan, outcome: Outcome)
    requires CacheFits(d.client)
    ensures CacheFits(SelectAnew(d, sql, plan, outcome).client)
  {
    hide RunMiddle, AllocateCached;
    AllocateCachedKeeps(d.client);
    AllocateCachedKeeps(AllocateCached(d.client).1);
    var (section, forCache, rest) := SelectSection(d.client, plan);
    var m := RunMiddle(Send(d.(client := rest)), plan.middle);
    MiddleCache(Send(d.(client := rest)), plan.middle);
    OneMoreEntry(m.client.cache, sql, if section.Some? then section.value else 0);
  }

  lemma DropCache(c: Client, sql: string, section: nat)
    ensures |Drop(c, sql, section).cache| <= |c.cache|
  {
    hide Release;
    FewerEntries(c.cache, sql);
    ReleaseKeeps(c.(cache := c.cache - {sql}), section);
  }

  lemma EvictCache(c: Client, sql: string)
    ensures |Evict(c, sql).cache| <= |c.cache|
  {
    hide Drop;
    if sql in c.cache {
      DropCache(c, sql, c.cache[sql]);
    }
  }

  lemma QueryCache(c: Client, work: Work, outcome: Outcome)
    requires CacheFits(c)
    ensures CacheFits(RunQuery(c, work, outcome).client)
  {
    hide RunMiddle, SelectAnew, Drop, Evict;
    var start := Course(c, 0, []);
    match work
    case Plain(middle) => MiddleCache(Send(start), middle);
    case ZosSelect(sql, plan) =>
      if sql in c.cache && plan.cache.Open? {
        var met := RunMiddle(Send(start), plan.cache.middle);
        MiddleCache(Send(start), plan.cache.middle);
        DropCache(met.client, sql, c.cache[sql]);
        AnewCache(met.(client := Drop(met.client, sql, c.cache[sql])), sql, plan, outcome);
      } else {
        EvictCache(c, sql);
        AnewCache(start.(client := if plan.cache.NotConsulted? then c else Evict(c, sql)), sql, plan, outcome);
      }
  }

  lemma StepCache(w: World, e: Event)
    requires CacheFits(w.client)
    ensures CacheFits(Step(w, e).client)
  {
    hide RunQuery, Prepare, Release, LogOf, NextGeneration, StepQuery, StepPrepare;
    match e
    case Query(tx, handshake, work, outcome) =>
      QueryCourse(w, tx, handshake, work, outcome);
      EnteredCache(w, tx, handshake);
      QueryCache(Entered(w, tx, handshake).client, work, outcome);
    case PrepareStatement(tx, handshake, outcome) =>
      PrepareCourse(w, tx, handshake, outcome);
      EnteredCache(w, tx, handshake);
      PrepareCache(Entered(w, tx, handshake).client, outcome);
    case CloseStatement(k) => GiveBackCache(w, k);
    case ReleaseDropped(k) => GiveBackCache(w, k);
    case _ =>
  }

  lemma EnteredCache(w: World, tx: Option<nat>, handshake: Handshake)
    requires CacheFits(w.client)
    ensures CacheFits(Entered(w, tx, handshake).client)
  {
    hide NextGeneration;
  }

  lemma PrepareCache(c: Client, outcome: Outcome)
    requires CacheFits(c)
    ensures CacheFits(Prepare(c, outcome).1)
  {}

  lemma GiveBackCache(w: World, k: nat)
    ensures k < |w.statements| ==>
              GiveBack(w.client, w.statements[k].section, w.statements[k].generation).cache == w.client.cache
  {}

  /** In every run the cache holds at most 64 selects. */
  lemma {:induction false} CacheOverRuns(w: World, events: seq<Event>)
    requires CacheFits(w.client)
    ensures CacheFits(Run(w, events).client)
    decreases |events|
  {
    hide Step, CacheFits;
    if events != [] {
      StepCache(w, events[0]);
      CacheOverRuns(Step(w, events[0]), events[1..]);
    }
  }

  lemma {:induction false} MiddleAdds(d: Course, middle: seq<Inner>, sql: string)
    requires sql !in d.client.cache
    ensures sql !in RunMiddle(d, middle).client.cache
    decreases |middle|
  {
    hide AskOn;
    if middle != [] {
      if middle[0].Ask? {
        AskAdds(d.client, middle[0].dedicated, middle[0].timesOut);
      }
      MiddleAdds(RunInner(d, middle[0]), middle[1..], sql);
    }
  }

  lemma AskAdds(c: Client, dedicated: bool, timesOut: bool)
    ensures AskOn(c, dedicated, timesOut).cache == c.cache || AskOn(c, dedicated, timesOut).cache == map[]
  {
    hide AllocateCached;
    AllocateCachedKeeps(c);
  }

  /** A select that was not in the cache is there afterwards only if its plan is to store it, the cache was consulted,
      its text may yield no LOBs, and it succeeded. */
  lemma {:induction false} StoredOnlyIf(c: Client, sql: string, plan: SelectPlan, outcome: Outcome)
    requires sql !in c.cache && sql in Select(c, sql, plan, outcome).client.cache
    ensures plan.storable && outcome.Succeeds? && !plan.cache.NotConsulted? && !plan.cache.Denied? && |c.cache| < 64
  {
    hide RunMiddle, AllocateCached, Release;
    AllocateCachedKeeps(c);
    AllocateCachedKeeps(AllocateCached(c).1);
    var (section, forCache, rest) := SelectSection(c, plan);
    MiddleAdds(Send(Course(rest, 0, [])), plan.middle, sql);
    var m := RunMiddle(Send(Course(rest, 0, [])), plan.middle);
    ReleaseKeeps(m.client, if section.Some? then section.value else 0);
  }

  /** A select that is meant for the cache keeps its section there if there is room for one and it succeeds, and the
      same text is then served from that section, with nothing given out or given back. */
  lemma {:induction false} StoredSelect(c: Client, sql: string, plan: SelectPlan, again: SelectPlan, outcome: Outcome)
    requires plan.cache.MayStore() && plan.storable && plan.middle == [] && sql !in c.cache
    requires |c.cache| < 64 && AllocateCached(c).0.Some?
    requires again.cache.Open? && !again.cache.drops && again.cache.middle == []
    ensures var stored := Select(c, sql, plan, Succeeds).client;
            && stored == AllocateCached(c).1.(cache := c.cache[sql := AllocateCached(c).0.value])
            && Select(stored, sql, again, outcome).client == Finalize(stored, outcome)
  {
    hide AllocateCached, Release;
    AllocateCachedKeeps(c);
  }
}
