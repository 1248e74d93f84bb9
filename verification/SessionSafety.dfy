/** Where requests go and when work is committed, over every run of a client (connection.rs,
    statement.rs, transaction.rs). */
module SessionSafety {
  import opened Wire
  import opened Session
  import opened SessionRuns
  import opened SessionScripts

  // ---- The log ----

  /** What a step adds to the log. */
  function Added(w: World, e: Event): seq<Request>
    requires w.log <= Step(w, e).log
  {
    Step(w, e).log[|w.log|..]
  }

  lemma LogGrows(w: World, e: Event)
    ensures w.log <= Step(w, e).log
  {
    hide RunQuery, LogOf, Prepare, PrepareThrough, Establish, ExecuteStatement, GiveBack, EndTransaction,
         CleanUpTransaction, StepQuery, StepPrepare, StepBegin;
    match e
    case Query(tx, h, work, outcome) => QueryCourse(w, tx, h, work, outcome);
    case PrepareStatement(tx, h, outcome) => PrepareCourse(w, tx, h, outcome);
    case Begin(h) => BeginCourse(w, h);
    case _ =>
  }

  /** The requests of a query, one for one what it sent. */
  lemma {:induction false} LogOfMeaning(sent: seq<Sent>, via: Option<nat>, session: nat, r: Request)
    ensures r in LogOf(sent, via, session) <==>
              exists s :: s in sent && (r == Logged(s, session)
                                        || (via.Some? && r == TransactionSent(via.value, session + s.after)))
  {
    if sent != [] {
      var last, front := sent[|sent| - 1], sent[..|sent| - 1];
      LogOfMeaning(front, via, session, r);
      assert sent == front + [last];
      assert r in RequestsOf(last, via, session) <==>
               (r == Logged(last, session)
                || (via.Some? && r == TransactionSent(via.value, session + last.after)));
    }
  }

  /** Which requests a query adds. */
  lemma QueryAdds(w: World, e: Event)
    requires e.Query?
    ensures w.log <= Step(w, e).log
    ensures var v := Entered(w, e.tx, e.handshake);
            Added(w, e) == if !Admitted(v, e.tx) then []
                           else LogOf(RunQuery(v.client, e.work, e.outcome).sent, Via(v, e.tx), v.session)
  {
    hide RunQuery, LogOf, StepQuery;
    QueryCourse(w, e.tx, e.handshake, e.work, e.outcome);
  }

  lemma PrepareAdds(w: World, e: Event)
    requires e.PrepareStatement?
    ensures w.log <= Step(w, e).log
    ensures var v := Entered(w, e.tx, e.handshake);
            Added(w, e) == if Admitted(v, e.tx) then LogOf([Work(0)], Via(v, e.tx), v.session) else []
  {
    hide Prepare, LogOf, StepPrepare;
    PrepareCourse(w, e.tx, e.handshake, e.outcome);
  }

  // ---- Requests reach their own session ----

  /** Every request sent for a handle reached the session that created the handle. */
  ghost predicate Faithful(log: seq<Request>) {
    forall r | r in log :: (r.StatementSent? || r.TransactionSent?) ==> r.created == r.reached
  }

  /** The steps that break this: a query through a transaction whose script asks for a request
      after renewing the session. */
  predicate Strays(w: World, e: Event) {
    e.Query? && e.tx.Some? && Admitted(w, e.tx) && SendsAfterRenewal(ScriptOf(w.client, e.work), false)
  }

  /** Only a query that renews the session strays. */
  lemma QuietStays(w: World, e: Event)
    requires e.Query? && NeverRenews(e.work)
    ensures !Strays(w, e)
  {
    hide RunQuery, NeverRenews, ScriptOf;
    StaysInSession(w.client, e.work, e.outcome);
    if Admitted(w, e.tx) {
      SendsLaterExact(w.client, e.work, e.outcome);
    }
  }

  lemma FaithfulSplit(log: seq<Request>, more: seq<Request>)
    ensures Faithful(log + more) <==> Faithful(log) && Faithful(more)
  {
    assert forall r :: r in log + more <==> r in log || r in more;
  }

  lemma FaithfulAdded(w: World, e: Event)
    ensures w.log <= Step(w, e).log
    ensures Faithful(Step(w, e).log) <==> Faithful(w.log) && Faithful(Added(w, e))
  {
    hide Step, Faithful;
    LogGrows(w, e);
    assert Step(w, e).log == w.log + Added(w, e);
    FaithfulSplit(w.log, Added(w, e));
  }

  lemma FaithfulQuery(w: World, e: Event)
    requires Numbered(w) && w.session <= U64_MAX && e.Query?
    ensures w.log <= Step(w, e).log && (Faithful(Added(w, e)) <==> !Strays(w, e))
  {
    hide RunQuery, LogOf, Step, GenerationOf, ScriptOf, SendsAfterRenewal;
    QueryAdds(w, e);
    var v := Entered(w, e.tx, e.handshake);
    if Admitted(v, e.tx) {
      SendsLaterExact(v.client, e.work, e.outcome);
      var sent, via := RunQuery(v.client, e.work, e.outcome).sent, Via(v, e.tx);
      forall r
        ensures r in LogOf(sent, via, v.session) <==>
                  exists s :: s in sent && (r == Logged(s, v.session)
                                            || (via.Some? && r == TransactionSent(via.value, v.session + s.after)))
      {
        LogOfMeaning(sent, via, v.session, r);
      }
      if e.tx.Some? {
        UsableIsLive(w, w.transactions[e.tx.value].session);
        assert via == Some(v.session);
        if Strays(w, e) {
          var s :| s in sent && s.after > 0;
          assert TransactionSent(via.value, v.session + s.after) in LogOf(sent, via, v.session);
        }
      }
    }
  }

  lemma FaithfulPrepare(w: World, e: Event)
    requires Numbered(w) && w.session <= U64_MAX && e.PrepareStatement?
    ensures w.log <= Step(w, e).log && Faithful(Added(w, e))
  {
    hide LogOf, Step, GenerationOf;
    PrepareAdds(w, e);
    var v := Entered(w, e.tx, e.handshake);
    if Admitted(v, e.tx) {
      if e.tx.Some? {
        UsableIsLive(w, w.transactions[e.tx.value].session);
      }
      forall r | r in LogOf([Work(0)], Via(v, e.tx), v.session)
        ensures (r.StatementSent? || r.TransactionSent?) ==> r.created == r.reached
      {
        LogOfMeaning([Work(0)], Via(v, e.tx), v.session, r);
      }
    }
  }

  lemma FaithfulExecute(w: World, e: Event)
    requires Numbered(w) && w.session <= U64_MAX && e.Execute?
    ensures w.log <= Step(w, e).log && Faithful(Added(w, e))
  {
    hide GenerationOf, CommitsOf, Finalize, AfterWork;
    if e.k < |w.statements| {
      UsableIsLive(w, w.statements[e.k].session);
    }
  }

  lemma FaithfulEnd(w: World, e: Event)
    requires Numbered(w) && w.session <= U64_MAX && (e.Commit? || e.Rollback? || e.CleanUp?)
    ensures w.log <= Step(w, e).log && Faithful(Added(w, e))
  {
    hide GenerationOf, Finalize;
    if e.t < |w.transactions| {
      UsableIsLive(w, w.transactions[e.t].session);
    }
  }

  lemma QuietAdds(w: World, e: Event)
    requires e.Connect? || e.Reestablish? || e.CloseStatement? || e.DropStatement? || e.ReleaseDropped? || e.Begin?
             || e.DropTransaction? || e.Close?
    ensures Step(w, e).log == w.log && Added(w, e) == []
  {
    hide GiveBack, Establish, StepBegin;
    if e.Begin? {
      BeginCourse(w, e.handshake);
    }
  }

  /** A step sends every request to the session of its handle if and only if it is no stray query. */
  lemma FaithfulStep(w: World, e: Event)
    requires Numbered(w) && w.session <= U64_MAX
    ensures Faithful(Step(w, e).log) <==> Faithful(w.log) && !Strays(w, e)
  {
    hide Step, Faithful, Numbered, RunQuery, Admitted;
    FaithfulAdded(w, e);
    match e
    case Query(_, _, _, _) => FaithfulQuery(w, e);
    case PrepareStatement(_, _, _) => FaithfulPrepare(w, e);
    case Execute(_, _, _) => FaithfulExecute(w, e);
    case Commit(_, _) => FaithfulEnd(w, e);
    case Rollback(_, _) => FaithfulEnd(w, e);
    case CleanUp(_, _) => FaithfulEnd(w, e);
    case _ => QuietAdds(w, e);
  }

  predicate NeverStrays(w: World, events: seq<Event>)
    decreases |events|
  {
    events == [] || (!Strays(w, events[0]) && NeverStrays(Step(w, events[0]), events[1..]))
  }

  lemma {:induction false} FaithfulRun(w: World, events: seq<Event>)
    requires Numbered(w) && Bounded(w, events)
    ensures Faithful(Run(w, events).log) <==> Faithful(w.log) && NeverStrays(w, events)
    decreases |events|
  {
    hide Numbered, Faithful, Step, Strays;
    if events != [] {
      NumberedStep(w, events[0]);
      FaithfulStep(w, events[0]);
      FaithfulRun(Step(w, events[0]), events[1..]);
    }
  }

  /** Session safety over every run: nothing sent for a statement or transaction ever reaches
      another session than the one that created it, if and only if no query through a transaction
      goes on in a session it has begun itself. */
  lemma RequestsOverRuns(events: seq<Event>)
    requires Bounded(Initial(), events)
    ensures Faithful(Run(Initial(), events).log) <==> NeverStrays(Initial(), events)
  {
    FaithfulRun(Initial(), events);
  }

  /** What is sent for a statement is safe without condition. */
  lemma StatementsOverRuns(events: seq<Event>)
    requires Bounded(Initial(), events)
    ensures forall r | r in Run(Initial(), events).log :: r.StatementSent? ==> r.created == r.reached
  {
    StatementsFrom(Initial(), events);
  }

  ghost predicate StatementsFaithful(log: seq<Request>) {
    forall r | r in log :: r.StatementSent? ==> r.created == r.reached
  }

  lemma StatementsStep(w: World, e: Event)
    requires Numbered(w) && w.session <= U64_MAX && StatementsFaithful(w.log)
    ensures StatementsFaithful(Step(w, e).log)
  {
    hide Step, Numbered, RunQuery, LogOf;
    LogGrows(w, e);
    assert Step(w, e).log == w.log + Added(w, e);
    if e.Query? {
      QueryAdds(w, e);
      var v := Entered(w, e.tx, e.handshake);
      if Admitted(v, e.tx) {
        forall r | r in Added(w, e)
          ensures !r.StatementSent?
        {
          LogOfMeaning(RunQuery(v.client, e.work, e.outcome).sent, Via(v, e.tx), v.session, r);
        }
      }
    } else {
      assert !Strays(w, e);
      FaithfulStepAdds(w, e);
    }
  }

  lemma FaithfulStepAdds(w: World, e: Event)
    requires Numbered(w) && w.session <= U64_MAX && !e.Query?
    ensures w.log <= Step(w, e).log && Faithful(Added(w, e))
  {
    hide Step, Faithful, Numbered;
    match e
    case PrepareStatement(_, _, _) => FaithfulPrepare(w, e);
    case Execute(_, _, _) => FaithfulExecute(w, e);
    case Commit(_, _) => FaithfulEnd(w, e);
    case Rollback(_, _) => FaithfulEnd(w, e);
    case CleanUp(_, _) => FaithfulEnd(w, e);
    case _ =>
      QuietAdds(w, e);
      FaithfulNone();
  }

  lemma FaithfulNone()
    ensures Faithful([])
  {}

  lemma {:induction false} StatementsFrom(w: World, events: seq<Event>)
    requires Numbered(w) && Bounded(w, events) && StatementsFaithful(w.log)
    ensures StatementsFaithful(Run(w, events).log)
    decreases |events|
  {
    hide Numbered, StatementsFaithful, Step;
    if events != [] {
      NumberedStep(w, events[0]);
      StatementsStep(w, events[0]);
      StatementsFrom(Step(w, events[0]), events[1..]);
    }
  }

  const RETRY_PLAN := SelectPlan(NotConsulted, false, [Renew(Established), Ask(false, false)], false)

  /** A select whose cursor fails to decode, with the shared section. */
  lemma RetryCourse(c: Client)
    requires c.connected
    ensures var d := RunQuery(c, ZosSelect("SELECT 1", RETRY_PLAN), Succeeds);
            && d.sent == [Work(0), Work(1)] && d.begun == 1
            && d.client == Establish(Reset(c, false), Established)
  {
    hide AllocateCached, Establish;
    assert SelectSection(c, RETRY_PLAN) == (None, false, c);
    var start := Course(c, 0, [Work(0)]);
    assert Send(Course(c, 0, [])) == start;
    var middle := RETRY_PLAN.middle;
    assert middle[1..] == [Ask(false, false)] && middle[1..][1..] == [];
    RenewedCourse(c);
  }

  lemma RenewedCourse(c: Client)
    requires c.connected
    ensures RunMiddle(Course(c, 0, [Work(0)]), RETRY_PLAN.middle)
            == Course(Establish(Reset(c, false), Established), 1, [Work(0), Work(1)])
  {
    hide AllocateCached;
    var start, middle := Course(c, 0, [Work(0)]), RETRY_PLAN.middle;
    var m := RunInner(start, middle[0]);
    var n := RunInner(m, Ask(false, false));
    assert m == Course(Establish(Reset(c, false), Established), 1, [Work(0)]);
    assert [Work(0)] + [Work(1)] == [Work(0), Work(1)];
    assert n == Course(m.client, 1, [Work(0), Work(1)]);
    var rest := [Ask(false, false)];
    assert middle[1..] == rest && rest[1..] == [];
    assert RunMiddle(n, []) == n;
    assert RunMiddle(m, rest) == RunMiddle(RunInner(m, rest[0]), rest[1..]);
  }

  /** A select through a transaction whose cursor fails to decode sends its chunk queries to a
      session that is not the transaction's, in auto-commit. */
  lemma RetryStrays()
    ensures var w := Run(Initial(), [Connect(Established), Begin(Established),
                                     Query(Some(0), Established, ZosSelect("SELECT 1", RETRY_PLAN), Succeeds)]);
            && !Faithful(w.log) && TransactionSent(1, 2) in w.log
            && w.client.connected && w.client.autoCommit && |w.transactions| == 1 && w.transactions[0].state.Active?
  {
    hide RunQuery, LogOf;
    var e := Query(Some(0), Established, ZosSelect("SELECT 1", RETRY_PLAN), Succeeds);
    var v := Step(Step(Initial(), Connect(Established)), Begin(Established));
    RunThree(Initial(), Connect(Established), Begin(Established), e);
    RetryCourse(v.client);
    QueryCourse(v, Some(0), Established, e.work, e.outcome);
    assert Work(1) in [Work(0), Work(1)] && Work(1).after == 1;
    LogOfMeaning([Work(0), Work(1)], Some(1), 1, TransactionSent(1, 2));
  }

  lemma RunThree(w: World, first: Event, second: Event, third: Event)
    ensures Run(w, [first, second, third]) == Step(Step(Step(w, first), second), third)
  {
    hide Step;
    assert [first, second, third][1..] == [second, third] && [second, third][1..] == [third] && [third][1..] == [];
    assert Run(Step(w, first), [second, third]) == Run(Step(Step(w, first), second), [third]);
    assert Run(Step(Step(w, first), second), [third]) == Run(Step(Step(Step(w, first), second), third), []);
  }

  // ---- Auto-commit is off while a transaction is open ----

  /** An open transaction of the session the client has now. */
  predicate Live(w: World, t: int) {
    0 <= t < |w.transactions| && w.transactions[t].state.Active? && w.transactions[t].session == w.session
  }

  ghost predicate Off(w: World) {
    w.client.connected && (exists t :: Live(w, t)) ==> !w.client.autoCommit
  }

  /** The steps that break this: a transaction that ends well on the live session, or a dropped
      one that is rolled back there, while another one is open. */
  ghost predicate EndsBeside(w: World, e: Event) {
    match e
    case Commit(t, outcome) => EndsWell(w, t, outcome) && exists u :: u != t && Live(w, u)
    case Rollback(t, outcome) => EndsWell(w, t, outcome) && exists u :: u != t && Live(w, u)
    case CleanUp(t, outcome) =>
      && t < |w.transactions| && w.transactions[t].state.Abandoned? && MayUse(w.client, w.transactions[t].generation)
      && !w.client.autoCommit && outcome.Succeeds? && exists u :: Live(w, u)
    case _ => false
  }

  predicate EndsWell(w: World, t: nat, outcome: Outcome) {
    t < |w.transactions| && w.transactions[t].state.Active? && MayUse(w.client, w.transactions[t].generation)
    && outcome.Succeeds?
  }

  /** Steps that keep auto-commit while the session lasts, and begin no transaction. */
  lemma OffSame(w: World, v: World)
    requires Numbered(w) && Off(w) && v.session >= w.session && |v.transactions| == |w.transactions|
    requires forall t | 0 <= t < |w.transactions| ::
               v.transactions[t].session == w.transactions[t].session
               && (v.transactions[t].state.Active? ==> w.transactions[t].state.Active?)
    requires v.session == w.session && v.client.connected ==>
               w.client.connected && (v.client.autoCommit ==> w.client.autoCommit)
    ensures Off(v)
  {
    hide GenerationOf;
    forall t | Live(v, t)
      ensures Live(w, t) && v.session == w.session
    {
      assert w.transactions[t].session <= w.session;
    }
  }

  lemma OffEntered(w: World, tx: Option<nat>, handshake: Handshake)
    requires Numbered(w) && Off(w)
    ensures Off(Entered(w, tx, handshake))
  {
    hide Off, Numbered;
    OffSame(w, Entered(w, tx, handshake));
  }

  lemma OffQuery(w: World, e: Event)
    requires Numbered(w) && Off(w) && e.Query?
    ensures Off(Step(w, e))
  {
    hide Off, Numbered, RunQuery, LogOf, StepQuery, Entered;
    OffEntered(w, e.tx, e.handshake);
    NumberedEntered(w, e.tx, e.handshake);
    QueryCourse(w, e.tx, e.handshake, e.work, e.outcome);
    var v := Entered(w, e.tx, e.handshake);
    if Admitted(v, e.tx) {
      QueryKeeps(v.client, e.work, e.outcome);
      OffSame(v, Step(w, e));
    }
  }

  lemma OffPrepare(w: World, e: Event)
    requires Numbered(w) && Off(w) && e.PrepareStatement?
    ensures Off(Step(w, e))
  {
    hide Off, Numbered, Prepare, LogOf, StepPrepare, Entered;
    OffEntered(w, e.tx, e.handshake);
    NumberedEntered(w, e.tx, e.handshake);
    PrepareCourse(w, e.tx, e.handshake, e.outcome);
    var v := Entered(w, e.tx, e.handshake);
    if Admitted(v, e.tx) {
      PrepareKeeps(v.client, e.outcome);
      OffSame(v, Step(w, e));
    }
  }

  lemma OffBegin(w: World, handshake: Handshake)
    requires Numbered(w) && Off(w)
    ensures Off(StepBegin(w, handshake))
  {
    hide Numbered, Off, ReconnectIn, StepBegin;
    BeginCourse(w, handshake);
    OffEntered(w, None, handshake);
    OffBegun(StepBegin(w, handshake));
  }

  lemma OffBegun(w: World)
    ensures !w.client.autoCommit ==> Off(w)
  {}

  lemma OffEnd(w: World, e: Event)
    requires Numbered(w) && Off(w) && w.session <= U64_MAX && (e.Commit? || e.Rollback? || e.CleanUp?)
    ensures Off(Step(w, e)) <==> !EndsBeside(w, e)
  {
    hide GenerationOf, Off, Numbered;
    var v := Step(w, e);
    if e.t < |w.transactions| {
      OffEndForm(w, e);
      if EndsBeside(w, e) {
        var u :| u != e.t && Live(w, u);
        OffBroken(v, u);
      } else if v.client.autoCommit && !w.client.autoCommit && v.client.connected {
        forall u | Live(v, u)
          ensures u != e.t && Live(w, u)
        {}
        OffNone(v);
      } else {
        OffSame(w, v);
      }
    }
  }

  lemma OffBroken(w: World, u: int)
    requires Live(w, u) && w.client.connected && w.client.autoCommit
    ensures !Off(w)
  {}

  lemma OffNone(w: World)
    requires forall t :: !Live(w, t)
    ensures Off(w)
  {}

  /** What ending or cleaning up a transaction does to the client and to who is live. */
  lemma OffEndForm(w: World, e: Event)
    requires Numbered(w) && w.session <= U64_MAX && (e.Commit? || e.Rollback? || e.CleanUp?) && e.t < |w.transactions|
    ensures var v := Step(w, e);
            && v.session == w.session && |v.transactions| == |w.transactions|
            && (forall u | 0 <= u < |w.transactions| && u != e.t :: v.transactions[u] == w.transactions[u])
            && v.transactions[e.t].session == w.transactions[e.t].session
            && (v.transactions[e.t].state.Active? ==> w.transactions[e.t].state.Active? && v == w)
            && (v.client.connected ==> w.client.connected)
            && (v.client.connected && v.client.autoCommit && !w.client.autoCommit ==>
                  if e.CleanUp? then
                    w.transactions[e.t].state.Abandoned? && MayUse(w.client, w.transactions[e.t].generation)
                    && e.outcome.Succeeds?
                  else EndsWell(w, e.t, e.outcome))
            && (EndsBeside(w, e) ==> v.client.connected && v.client.autoCommit)
  {
    hide GenerationOf, Numbered;
    if e.t < |w.transactions| {
      assert w.transactions[e.t := w.transactions[e.t]] == w.transactions;
    }
  }

  /** A step keeps auto-commit off under open transactions if and only if it does not end one
      beside another. */
  lemma OffStep(w: World, e: Event)
    requires Numbered(w) && Off(w) && w.session <= U64_MAX
    ensures Off(Step(w, e)) <==> !EndsBeside(w, e)
  {
    hide Off, Numbered, StepQuery, StepPrepare, StepBegin, StepEnd, StepCleanUp, EndsWell, Live;
    match e
    case Query(_, _, _, _) => OffQuery(w, e);
    case PrepareStatement(_, _, _) => OffPrepare(w, e);
    case Begin(h) => OffBegin(w, h);
    case Commit(_, _) => OffEnd(w, e);
    case Rollback(_, _) => OffEnd(w, e);
    case CleanUp(_, _) => OffEnd(w, e);
    case _ => OffSame(w, Step(w, e));
  }

  ghost predicate AlwaysOff(w: World, events: seq<Event>)
    decreases |events|
  {
    Off(w) && (events == [] || AlwaysOff(Step(w, events[0]), events[1..]))
  }

  ghost predicate NeverEndsBeside(w: World, events: seq<Event>)
    decreases |events|
  {
    events == [] || (!EndsBeside(w, events[0]) && NeverEndsBeside(Step(w, events[0]), events[1..]))
  }

  lemma {:induction false} OffRun(w: World, events: seq<Event>)
    requires Numbered(w) && Off(w) && Bounded(w, events)
    ensures AlwaysOff(w, events) <==> NeverEndsBeside(w, events)
    decreases |events|
  {
    hide Numbered, Off, Step, EndsBeside;
    if events != [] {
      NumberedStep(w, events[0]);
      OffStep(w, events[0]);
      if Off(Step(w, events[0])) {
        OffRun(Step(w, events[0]), events[1..]);
      }
    }
  }

  /** Auto-commit over every run: it is at all times off while a transaction of the live session
      is open, if and only if none ends there well, and none is cleaned up, while another is open. */
  lemma AutoCommitOverRuns(events: seq<Event>)
    requires Bounded(Initial(), events)
    ensures AlwaysOff(Initial(), events) <==> NeverEndsBeside(Initial(), events)
  {
    OffRun(Initial(), events);
  }

  // ---- No RDBCMM goes out in an open transaction ----

  /** The part of the log a transaction has been open for, its own commit apart. */
  predicate OpenAt(w: World, t: int, i: int) {
    0 <= t < |w.transactions| && w.transactions[t].begun <= i < |w.log|
    && (w.transactions[t].state.Active? || i < w.transactions[t].until)
  }

  /** While a transaction is open no RDBCMM reaches its session. */
  ghost predicate Clean(w: World) {
    forall t, i :: OpenAt(w, t, i) ==> w.log[i] != CommitSent(w.transactions[t].session)
  }

  /** Handles remember places within the log. */
  ghost predicate Placed(w: World) {
    forall t | 0 <= t < |w.transactions| ::
      w.transactions[t].begun <= |w.log| && (!w.transactions[t].state.Active? ==> w.transactions[t].until <= |w.log|)
  }

  /** The steps that break this: an RDBCMM for a transaction while another is open on the live
      session, or one for auto-committed work while any is. */
  ghost predicate CommitsBeside(w: World, e: Event) {
    match e
    case Commit(t, outcome) =>
      && t < |w.transactions| && w.transactions[t].state.Active? && MayUse(w.client, w.transactions[t].generation)
      && exists u :: u != t && Live(w, u)
    case Query(tx, handshake, work, outcome) =>
      var v := Entered(w, tx, handshake);
      && Admitted(v, tx) && v.client.autoCommit && CommitsEarly(ScriptOf(v.client, work)) && exists u :: Live(v, u)
    case Execute(k, change, outcome) =>
      && k < |w.statements| && w.statements[k].state.Prepared? && MayUse(w.client, w.statements[k].generation)
      && CommitsOf(w.client, change) > 0
      && exists u :: Live(w, u)
    case _ => false
  }

  /** With auto-commit off under open transactions only a commit beside another one is left. */
  lemma OffLeavesCommits(w: World, e: Event)
    requires Numbered(w) && Off(w) && CommitsBeside(w, e)
    ensures e.Commit?
  {
    hide Numbered, Entered, ScriptOf, CommitsEarly;
    if e.Query? {
      OffEntered(w, e.tx, e.handshake);
      AdmittedConnected(Entered(w, e.tx, e.handshake), e.tx);
    }
  }

  /** What a step does to the handles and the log, as far as commits go. `own` is the transaction
      it ends, if any. */
  ghost predicate Extends(w: World, v: World, own: Option<nat>) {
    && w.log <= v.log && |v.transactions| >= |w.transactions|
    && (forall t | 0 <= t < |w.transactions| ::
          v.transactions[t].session == w.transactions[t].session && v.transactions[t].begun == w.transactions[t].begun)
    && (forall t | 0 <= t < |w.transactions| && own != Some(t) ::
          && (v.transactions[t].state.Active? ==> w.transactions[t].state.Active?)
          && (!w.transactions[t].state.Active? ==> v.transactions[t].until == w.transactions[t].until)
          && (w.transactions[t].state.Active? && !v.transactions[t].state.Active? ==>
                v.transactions[t].until == |v.log|))
    && (forall t | |w.transactions| <= t < |v.transactions| ::
          v.transactions[t].begun == |v.log| && v.transactions[t].until == |v.log|)
  }

  /** Whether the requests added since `w` contain an RDBCMM to the session of a transaction that
      has been open all the time. */
  ghost predicate Intrudes(w: World, v: World, own: Option<nat>)
    requires |v.transactions| >= |w.transactions|
  {
    exists t, i :: 0 <= t < |w.transactions| && w.transactions[t].state.Active? && own != Some(t)
                   && |w.log| <= i < |v.log| && v.log[i] == CommitSent(w.transactions[t].session)
  }

  lemma CleanExtends(w: World, v: World, own: Option<nat>)
    requires Placed(w) && Extends(w, v, own)
    requires own.Some? ==>
               && own.value < |w.transactions|
               && w.transactions[own.value].state.Active? && !v.transactions[own.value].state.Active?
               && |w.log| <= v.transactions[own.value].until <= |v.log|
               && forall i | |w.log| <= i < v.transactions[own.value].until ::
                    v.log[i] != CommitSent(w.transactions[own.value].session)
    ensures Placed(v) && (Clean(v) <==> Clean(w) && !Intrudes(w, v, own))
  {
    assert forall i | 0 <= i < |w.log| :: v.log[i] == w.log[i];
    if Clean(v) {
      forall t, i | OpenAt(w, t, i)
        ensures w.log[i] != CommitSent(w.transactions[t].session)
      {
        assert OpenAt(v, t, i);
      }
      if Intrudes(w, v, own) {
        var t, i :| 0 <= t < |w.transactions| && w.transactions[t].state.Active? && own != Some(t)
                    && |w.log| <= i < |v.log| && v.log[i] == CommitSent(w.transactions[t].session);
        assert OpenAt(v, t, i);
        assert false;
      }
    }
    if Clean(w) && !Intrudes(w, v, own) {
      forall t, i | OpenAt(v, t, i)
        ensures v.log[i] != CommitSent(v.transactions[t].session)
      {
        if i < |w.log| {
          assert t >= |w.transactions| || OpenAt(w, t, i) || own == Some(t);
        } else if own != Some(t) {
          assert t < |w.transactions| && w.transactions[t].state.Active?;
        }
      }
    }
  }

  /** Steps that send no RDBCMM. */
  lemma CleanQuiet(w: World, v: World)
    requires Placed(w) && Extends(w, v, None) && forall i | |w.log| <= i < |v.log| :: !v.log[i].CommitSent?
    ensures Placed(v) && (Clean(v) <==> Clean(w))
  {
    hide Clean, Placed, Extends;
    CleanExtends(w, v, None);
  }

  lemma ExtendsSame(w: World, v: World)
    requires w.log <= v.log && v.transactions == w.transactions
    ensures Extends(w, v, None)
  {}

  lemma CleanEntered(w: World, tx: Option<nat>, handshake: Handshake)
    ensures var v := Entered(w, tx, handshake); v.log == w.log && v.transactions == w.transactions
  {}

  lemma CleanPrepare(w: World, e: Event)
    requires Placed(w) && e.PrepareStatement?
    ensures Placed(Step(w, e)) && (Clean(Step(w, e)) <==> Clean(w))
  {
    hide Placed, Clean, Extends, LogOf, Prepare, Entered, StepPrepare;
    var v, r := Entered(w, e.tx, e.handshake), Step(w, e);
    CleanEntered(w, e.tx, e.handshake);
    PrepareAdds(w, e);
    PrepareCourse(w, e.tx, e.handshake, e.outcome);
    forall q | q in LogOf([Work(0)], Via(v, e.tx), v.session)
      ensures !q.CommitSent?
    {
      LogOfMeaning([Work(0)], Via(v, e.tx), v.session, q);
    }
    assert forall i | |w.log| <= i < |r.log| :: r.log[i] == Added(w, e)[i - |w.log|];
    ExtendsSame(w, r);
    CleanQuiet(w, r);
  }

  lemma CleanQuery(w: World, e: Event)
    requires Numbered(w) && Placed(w) && e.Query?
    ensures Placed(Step(w, e)) && (Clean(Step(w, e)) <==> Clean(w) && !CommitsBeside(w, e))
  {
    hide Placed, Clean, Extends, LogOf, RunQuery, Entered, StepQuery, Numbered;
    var v, r := Entered(w, e.tx, e.handshake), Step(w, e);
    CleanEntered(w, e.tx, e.handshake);
    NumberedEntered(w, e.tx, e.handshake);
    QueryAdds(w, e);
    QueryCourse(w, e.tx, e.handshake, e.work, e.outcome);
    ExtendsSame(w, r);
    CleanExtends(w, r, None);
    QueryIntrudes(w, e);
  }

  lemma QueryIntrudes(w: World, e: Event)
    requires e.Query? && Numbered(Entered(w, e.tx, e.handshake)) && w.log <= Step(w, e).log
    requires |Step(w, e).transactions| == |w.transactions|
    ensures Intrudes(w, Step(w, e), None) <==> CommitsBeside(w, e)
  {
    hide LogOf, RunQuery, Entered, Step, GenerationOf, ScriptOf, CommitsEarly;
    var v, r := Entered(w, e.tx, e.handshake), Step(w, e);
    CleanEntered(w, e.tx, e.handshake);
    QueryAdds(w, e);
    if Admitted(v, e.tx) {
      AdmittedConnected(v, e.tx);
      CommitsEarlyExact(v.client, e.work, e.outcome);
      var sent, via := RunQuery(v.client, e.work, e.outcome).sent, Via(v, e.tx);
      if CommitsBeside(w, e) {
        var u :| Live(v, u);
        var q := CommitSent(v.session);
        LogOfMeaning(sent, via, v.session, q);
        assert CommitOfWork(0) in sent && q == CommitSent(v.session + CommitOfWork(0).after);
        var i :| 0 <= i < |Added(w, e)| && Added(w, e)[i] == q;
        assert r.log[|w.log| + i] == CommitSent(w.transactions[u].session);
      }
      if Intrudes(w, r, None) {
        var t, i :| 0 <= t < |w.transactions| && w.transactions[t].state.Active?
                    && |w.log| <= i < |r.log| && r.log[i] == CommitSent(w.transactions[t].session);
        assert r.log[i] == Added(w, e)[i - |w.log|];
        LogOfMeaning(sent, via, v.session, r.log[i]);
        var s :| s in sent && r.log[i] == Logged(s, v.session);
        assert w.transactions[t].session <= v.session;
        assert s == CommitOfWork(0) && Live(v, t);
      }
    }
  }

  lemma CleanExecute(w: World, e: Event)
    requires Numbered(w) && Placed(w) && e.Execute? && w.session <= U64_MAX
    ensures Placed(Step(w, e)) && (Clean(Step(w, e)) <==> Clean(w) && !CommitsBeside(w, e))
  {
    hide Placed, Clean, Extends, Numbered, Finalize, AfterWork;
    var v := Step(w, e);
    LogGrows(w, e);
    ExtendsSame(w, v);
    CleanExtends(w, v, None);
    ExecuteIntrudes(w, e);
  }

  lemma ExecuteIntrudes(w: World, e: Event)
    requires e.Execute?
    ensures var v := Step(w, e);
            |v.transactions| == |w.transactions| && (Intrudes(w, v, None) <==> CommitsBeside(w, e))
  {
    hide Finalize, AfterWork;
    var v := Step(w, e);
    if e.k < |w.statements| {
      var s := w.statements[e.k];
      var (report, commits, client) := ExecuteStatement(w.client, s.state.Prepared?, s.generation, e.change, e.outcome);
      if CommitsBeside(w, e) {
        var u :| Live(w, u);
        assert v.log[|w.log| + 1] == CommitSent(w.transactions[u].session);
      }
      if Intrudes(w, v, None) {
        var t, i :| 0 <= t < |w.transactions| && w.transactions[t].state.Active?
                    && |w.log| <= i < |v.log| && v.log[i] == CommitSent(w.transactions[t].session);
        assert Live(w, t);
      }
    }
  }

  lemma CleanEnd(w: World, e: Event)
    requires Numbered(w) && Placed(w) && w.session <= U64_MAX && (e.Commit? || e.Rollback?)
    ensures Placed(Step(w, e)) && (Clean(Step(w, e)) <==> Clean(w) && !CommitsBeside(w, e))
  {
    hide Placed, Clean, GenerationOf, Finalize, Numbered;
    if e.t < |w.transactions| && w.transactions[e.t].state.Active? {
      EndForm(w, e);
      CleanExtends(w, Step(w, e), Some(e.t));
      EndIntrudes(w, e);
    }
  }

  lemma EndForm(w: World, e: Event)
    requires (e.Commit? || e.Rollback?) && e.t < |w.transactions| && w.transactions[e.t].state.Active?
    ensures var v := Step(w, e);
            && Extends(w, v, Some(e.t)) && |v.transactions| == |w.transactions|
            && !v.transactions[e.t].state.Active?
            && |w.log| <= v.transactions[e.t].until <= |v.log|
            && forall i | |w.log| <= i < v.transactions[e.t].until :: !v.log[i].CommitSent?
  {
    hide Finalize;
  }

  lemma EndIntrudes(w: World, e: Event)
    requires Numbered(w) && w.session <= U64_MAX
    requires (e.Commit? || e.Rollback?) && e.t < |w.transactions| && w.transactions[e.t].state.Active?
    requires |Step(w, e).transactions| == |w.transactions|
    ensures Intrudes(w, Step(w, e), Some(e.t)) <==> CommitsBeside(w, e)
  {
    hide Finalize, GenerationOf;
    var v := Step(w, e);
    if CommitsBeside(w, e) {
      var u :| u != e.t && Live(w, u);
      assert v.log[|w.log| + 1] == CommitSent(w.transactions[u].session);
    }
    if Intrudes(w, v, Some(e.t)) {
      var t, i :| 0 <= t < |w.transactions| && w.transactions[t].state.Active? && t != e.t
                  && |w.log| <= i < |v.log| && v.log[i] == CommitSent(w.transactions[t].session);
      assert Live(w, t);
    }
  }

  lemma CleanBegin(w: World, handshake: Handshake)
    requires Placed(w)
    ensures var v := StepBegin(w, handshake); Placed(v) && (Clean(v) <==> Clean(w))
  {
    hide Placed, Clean, Establish, StepBegin;
    BeginCourse(w, handshake);
    CleanQuiet(w, StepBegin(w, handshake));
  }

  lemma CleanDrop(w: World, e: Event)
    requires Placed(w) && (e.DropTransaction? || e.CleanUp?)
    ensures Placed(Step(w, e)) && (Clean(Step(w, e)) <==> Clean(w))
  {
    hide Placed, Clean;
    CleanQuiet(w, Step(w, e));
  }

  /** A step sends no RDBCMM to the session of an open transaction if and only if it does not
      commit beside one. */
  lemma CleanStep(w: World, e: Event)
    requires Numbered(w) && Placed(w) && w.session <= U64_MAX
    ensures Placed(Step(w, e)) && (Clean(Step(w, e)) <==> Clean(w) && !CommitsBeside(w, e))
  {
    hide Placed, Clean, Numbered, Extends, StepQuery, StepPrepare, StepExecute, StepBegin, StepEnd, StepCleanUp, Live,
         RunQuery, Establish, GiveBack;
    match e
    case Query(_, _, _, _) => CleanQuery(w, e);
    case PrepareStatement(_, _, _) => CleanPrepare(w, e);
    case Execute(_, _, _) => CleanExecute(w, e);
    case Begin(h) => CleanBegin(w, h);
    case Commit(_, _) => CleanEnd(w, e);
    case Rollback(_, _) => CleanEnd(w, e);
    case CleanUp(_, _) => CleanDrop(w, e);
    case DropTransaction(_) => CleanDrop(w, e);
    case _ =>
      ExtendsSame(w, Step(w, e));
      CleanQuiet(w, Step(w, e));
  }

  ghost predicate NeverCommitsBeside(w: World, events: seq<Event>)
    decreases |events|
  {
    events == [] || (!CommitsBeside(w, events[0]) && NeverCommitsBeside(Step(w, events[0]), events[1..]))
  }

  lemma {:induction false} CleanRun(w: World, events: seq<Event>)
    requires Numbered(w) && Placed(w) && Bounded(w, events)
    ensures Clean(Run(w, events)) <==> Clean(w) && NeverCommitsBeside(w, events)
    decreases |events|
  {
    hide Numbered, Placed, Clean, Step, CommitsBeside;
    if events != [] {
      NumberedStep(w, events[0]);
      CleanStep(w, events[0]);
      CleanRun(Step(w, events[0]), events[1..]);
    }
  }

  /** Isolation over every run: no RDBCMM but its own ever reaches the session of an open
      transaction, if and only if no step commits beside one. */
  lemma CommitsOverRuns(events: seq<Event>)
    requires Bounded(Initial(), events)
    ensures Clean(Run(Initial(), events)) <==> NeverCommitsBeside(Initial(), events)
  {
    CleanRun(Initial(), events);
  }

  // ---- One transaction at a time ----

  /** A transaction of the current session that is not finished or has not been cleaned up. */
  predicate Pending(w: World, t: int) {
    0 <= t < |w.transactions| && w.transactions[t].session == w.session
    && (w.transactions[t].state.Active? || w.transactions[t].state.Abandoned?)
  }

  ghost predicate Sole(w: World) {
    forall i, t :: Pending(w, i) && Pending(w, t) ==> i == t
  }

  /** A transaction is begun only when none is pending. */
  ghost predicate OneAtATime(w: World, e: Event) {
    e.Begin? ==> forall t :: !Pending(ReconnectIn(w, e.handshake), t)
  }

  ghost predicate AllOneAtATime(w: World, events: seq<Event>)
    decreases |events|
  {
    events == [] || (OneAtATime(w, events[0]) && AllOneAtATime(Step(w, events[0]), events[1..]))
  }

  /** Steps that begin no transaction leave at most the pending ones pending. */
  lemma SoleSame(w: World, v: World)
    requires Numbered(w) && Sole(w) && v.session >= w.session && |v.transactions| == |w.transactions|
    requires forall t | 0 <= t < |w.transactions| ::
               && v.transactions[t].session == w.transactions[t].session
               && (v.transactions[t].state.Active? || v.transactions[t].state.Abandoned? ==>
                     w.transactions[t].state.Active? || w.transactions[t].state.Abandoned?)
    ensures Sole(v)
  {
    hide GenerationOf;
    forall t | Pending(v, t)
      ensures Pending(w, t)
    {
      assert w.transactions[t].session <= w.session;
    }
  }

  lemma SoleBegin(w: World, handshake: Handshake)
    requires Numbered(w) && Sole(w) && OneAtATime(w, Begin(handshake))
    ensures Sole(StepBegin(w, handshake))
  {
    hide Numbered, ReconnectIn, StepBegin;
    BeginCourse(w, handshake);
    var v, r := ReconnectIn(w, handshake), StepBegin(w, handshake);
    forall t | Pending(r, t) && v.client.connected
      ensures t == |v.transactions|
    {
      assert !Pending(v, t);
    }
    if !v.client.connected {
      assert forall t :: !Pending(v, t);
    }
  }

  lemma SoleStep(w: World, e: Event)
    requires Numbered(w) && Sole(w) && OneAtATime(w, e)
    ensures Sole(Step(w, e))
  {
    hide Numbered, Sole, StepQuery, StepPrepare, StepBegin, RunQuery, LogOf, Entered, Prepare, GenerationOf, OneAtATime,
         Establish, GiveBack;
    NumberedStep(w, e);
    match e
    case Begin(h) => SoleBegin(w, h);
    case Query(tx, h, work, outcome) =>
      QueryCourse(w, tx, h, work, outcome);
      CleanEntered(w, tx, h);
      SoleSame(w, Step(w, e));
    case PrepareStatement(tx, h, outcome) =>
      PrepareCourse(w, tx, h, outcome);
      CleanEntered(w, tx, h);
      SoleSame(w, Step(w, e));
    case _ => SoleSame(w, Step(w, e));
  }

  /** A single pending transaction has no other beside it. */
  lemma SoleNothingBeside(w: World, e: Event)
    requires Numbered(w) && Sole(w) && Off(w) && w.session <= U64_MAX
    ensures !EndsBeside(w, e) && !CommitsBeside(w, e)
  {
    hide Numbered, Off, Entered, GenerationOf, ScriptOf, CommitsEarly;
    if CommitsBeside(w, e) {
      OffLeavesCommits(w, e);
    }
    if (e.Commit? || e.Rollback? || e.CleanUp?) && e.t < |w.transactions| {
      UsableHere(w, e.t);
      forall u | Live(w, u) && Pending(w, e.t)
        ensures u == e.t
      {
        assert Pending(w, u);
      }
    }
  }

  lemma UsableHere(w: World, t: nat)
    requires Numbered(w) && w.session <= U64_MAX && t < |w.transactions|
    ensures MayUse(w.client, w.transactions[t].generation) ==> w.transactions[t].session == w.session
  {
    hide GenerationOf;
    UsableIsLive(w, w.transactions[t].session);
  }

  lemma {:induction false} SoleRun(w: World, events: seq<Event>)
    requires Numbered(w) && Sole(w) && Off(w) && Bounded(w, events) && AllOneAtATime(w, events)
    ensures NeverEndsBeside(w, events) && NeverCommitsBeside(w, events)
    decreases |events|
  {
    hide Numbered, Sole, Off, Step, EndsBeside, CommitsBeside, OneAtATime;
    if events != [] {
      NumberedStep(w, events[0]);
      SoleStep(w, events[0]);
      SoleNothingBeside(w, events[0]);
      OffStep(w, events[0]);
      SoleRun(Step(w, events[0]), events[1..]);
    }
  }

  /** A run that begins transactions one at a time keeps both: auto-commit is off while one is
      open on its live session, and no RDBCMM but its own is sent there. */
  lemma TransactionsOverRuns(events: seq<Event>)
    requires Bounded(Initial(), events) && AllOneAtATime(Initial(), events)
    ensures AlwaysOff(Initial(), events) && Clean(Run(Initial(), events))
  {
    SoleRun(Initial(), events);
    AutoCommitOverRuns(events);
    CommitsOverRuns(events);
  }

  // ---- Two transactions at once ----

  /** A second transaction begun beside the first is auto-committed as soon as the first ends. */
  lemma SecondBeginBreaks()
    ensures var w := Run(Initial(), [Connect(Established), Begin(Established), Begin(Established),
                                     Commit(0, Succeeds)]);
            Live(w, 1) && w.client.connected && w.client.autoCommit && !Off(w) && !Clean(w)
  {
    var v := Step(Step(Step(Initial(), Connect(Established)), Begin(Established)), Begin(Established));
    var w := Step(v, Commit(0, Succeeds));
    RunThree(Initial(), Connect(Established), Begin(Established), Begin(Established));
    RunMore(Initial(), [Connect(Established), Begin(Established), Begin(Established)], Commit(0, Succeeds));
    assert Live(w, 1);
    assert OpenAt(w, 1, 1) && w.log[1] == CommitSent(1);
  }

  /** The pending cleanup of a dropped transaction rolls back the one begun after it. */
  lemma PendingCleanupBreaks()
    ensures var v := Run(Initial(), [Connect(Established), Begin(Established), DropTransaction(0), Begin(Established)]);
            var w := Step(v, CleanUp(0, Succeeds));
            && Live(w, 1) && w.client.connected && w.client.autoCommit && !Off(w)
            && |w.log| > w.transactions[1].begun && RollbackSent(w.session) in w.log[w.transactions[1].begun..]
  {
    var u := Step(Step(Step(Initial(), Connect(Established)), Begin(Established)), DropTransaction(0));
    var v := Step(u, Begin(Established));
    var w := Step(v, CleanUp(0, Succeeds));
    RunThree(Initial(), Connect(Established), Begin(Established), DropTransaction(0));
    RunMore(Initial(), [Connect(Established), Begin(Established), DropTransaction(0)], Begin(Established));
    assert Live(w, 1);
    assert w.log[1] == RollbackSent(1) && w.transactions[1].begun == 0;
  }

  lemma {:induction false} RunMore(w: World, events: seq<Event>, e: Event)
    ensures Run(w, events + [e]) == Step(Run(w, events), e)
    decreases |events|
  {
    hide Step;
    if events == [] {
      assert [e][1..] == [];
      assert Run(w, [e]) == Run(Step(w, e), []);
      assert events + [e] == [e];
    } else {
      RunMore(Step(w, events[0]), events[1..], e);
      assert (events + [e])[1..] == events[1..] + [e];
    }
  }
}
