/** Every run of a client with its statements and transactions (connection.rs, statement.rs,
    transaction.rs). */
module SessionRuns {
  import opened Wire
  import opened Session

  datatype StatementState = Prepared | DropPending | Gone

  /** A statement handle; `session` is the serial number of the session it was prepared in. */
  datatype Statement = Statement(section: nat, generation: nat, session: nat, state: StatementState)

  datatype TransactionState = Active | Abandoned | Committed | RolledBack | Cleaned

  /** A transaction handle; the log had length `begun` when it began, and `until` when it stopped
      being active, or when it sent its own commit. */
  datatype Tx = Tx(generation: nat, session: nat, begun: nat, until: nat, state: TransactionState)

  /** Requests that reached the server, with the session they reached. */
  datatype Request =
    | StatementSent(created: nat, reached: nat, section: nat)
    | TransactionSent(created: nat, reached: nat)
    | WorkSent(reached: nat)
    | CommitSent(reached: nat)
    | RollbackSent(reached: nat)

  /** A client, the number of sessions it has had, its handles, and everything sent so far. */
  datatype World = World(
    client: Client, session: nat, statements: seq<Statement>, transactions: seq<Tx>, log: seq<Request>)

  /** Steps that hold the client's lock, or that only change a handle. `tx` says whether an
      operation goes through a transaction or the client itself. A query that the client retries
      after a session error is several steps: query, re-establishing, query. */
  datatype Event =
    | Connect(handshake: Handshake)
    | Reestablish(handshake: Handshake)
    | Query(tx: Option<nat>, handshake: Handshake, work: Work, outcome: Outcome)
    | PrepareStatement(tx: Option<nat>, handshake: Handshake, outcome: Outcome)
    | Execute(k: nat, change: StatementWork, outcome: Outcome)
    | CloseStatement(k: nat)
    | DropStatement(k: nat)
    | ReleaseDropped(k: nat)
    | Begin(handshake: Handshake)
    | Commit(t: nat, outcome: Outcome)
    | Rollback(t: nat, outcome: Outcome)
    | DropTransaction(t: nat)
    | CleanUp(t: nat, outcome: Outcome)
    | Close

  function Initial(): World {
    World(Client(false, false, false, true, 0, 1, [], map[]), 0, [], [], [])
  }

  // ---- Steps ----

  function EstablishIn(w: World, handshake: Handshake): World {
    w.(client := Establish(w.client, handshake),
       session := if handshake.FailsBefore? then w.session else w.session + 1)
  }

  function ReconnectIn(w: World, handshake: Handshake): World {
    if !w.client.connected && w.client.connectedOnce && !w.client.closedExplicitly then EstablishIn(w, handshake) else w
  }

  /** An operation of the client itself reconnects first; one through a transaction does not. */
  function Entered(w: World, tx: Option<nat>, handshake: Handshake): World {
    if tx.None? then ReconnectIn(w, handshake) else w
  }

  predicate Admitted(w: World, tx: Option<nat>) {
    if tx.None? then w.client.connected
    else tx.value < |w.transactions| && w.transactions[tx.value].state.Active?
         && MayUse(w.client, w.transactions[tx.value].generation)
  }

  /** The session of the transaction an operation goes through. */
  function Via(w: World, tx: Option<nat>): Option<nat> {
    if tx.Some? && tx.value < |w.transactions| then Some(w.transactions[tx.value].session) else None
  }

  function Logged(s: Sent, session: nat): Request {
    if s.Work? then WorkSent(session + s.after) else CommitSent(session + s.after)
  }

  function RequestsOf(s: Sent, via: Option<nat>, session: nat): seq<Request> {
    (if via.Some? then [TransactionSent(via.value, session + s.after)] else []) + [Logged(s, session)]
  }

  function LogOf(sent: seq<Sent>, via: Option<nat>, session: nat): seq<Request> {
    if sent == [] then [] else LogOf(sent[..|sent| - 1], via, session) + RequestsOf(sent[|sent| - 1], via, session)
  }

  function Carry(w: World, via: Option<nat>, d: Course): World {
    w.(client := d.client, session := w.session + d.begun, log := w.log + LogOf(d.sent, via, w.session))
  }

  function StepQuery(w: World, tx: Option<nat>, handshake: Handshake, work: Work, outcome: Outcome): World {
    if tx.None? then
      var v := ReconnectIn(w, handshake);
      if v.client.connected then Carry(v, None, RunQuery(v.client, work, outcome)) else v
    else if tx.value < |w.transactions| then
      var t := w.transactions[tx.value];
      var (report, d) := QueryThrough(w.client, t.state.Active?, t.generation, work, outcome);
      Carry(w, Some(t.session), d)
    else w
  }

  /** The new handle carries the generation of the client, or that of the transaction. */
  function WithStatement(w: World, section: Option<nat>, generation: nat): World {
    if section.None? then w
    else w.(statements := w.statements + [Statement(section.value, generation, w.session, Prepared)])
  }

  function StepPrepare(w: World, tx: Option<nat>, handshake: Handshake, outcome: Outcome): World {
    if tx.None? then
      var v := ReconnectIn(w, handshake);
      if v.client.connected then
        var (section, client) := Prepare(v.client, outcome);
        WithStatement(v.(client := client, log := v.log + LogOf([Work(0)], None, v.session)), section,
                      v.client.generation)
      else v
    else if tx.value < |w.transactions| then
      var t := w.transactions[tx.value];
      var (report, section, client) := PrepareThrough(w.client, t.state.Active?, t.generation, outcome);
      WithStatement(w.(client := client,
                       log := w.log + if report.Refused? then [] else LogOf([Work(0)], Some(t.session), w.session)),
                    section, t.generation)
    else w
  }

  function StepExecute(w: World, k: nat, change: StatementWork, outcome: Outcome): World {
    if k < |w.statements| then
      var s := w.statements[k];
      var (report, commits, client) := ExecuteStatement(w.client, s.state.Prepared?, s.generation, change, outcome);
      w.(client := client,
         log := w.log + if report.Refused? || change.NotEncoded? then []
                        else [StatementSent(s.session, w.session, s.section)]
                             + seq(commits, _ => CommitSent(w.session)))
    else w
  }

  function StepRelease(w: World, k: nat, wanted: StatementState): World {
    if k < |w.statements| && w.statements[k].state == wanted then
      var s := w.statements[k];
      w.(statements := w.statements[k := s.(state := Gone)], client := GiveBack(w.client, s.section, s.generation))
    else w
  }

  function StepBegin(w: World, handshake: Handshake): World {
    var v := ReconnectIn(w, handshake);
    var (generation, client) := BeginOn(w.client, handshake);
    if generation.None? then v
    else v.(client := client,
            transactions := v.transactions + [Tx(generation.value, v.session, |v.log|, |v.log|, Active)])
  }

  /** Commit and rollback consume the handle; if they do not succeed, dropping it leaves a
      cleanup pending. */
  function StepEnd(w: World, t: nat, commit: bool, outcome: Outcome): World {
    if t < |w.transactions| && w.transactions[t].state.Active? then
      var tx := w.transactions[t];
      var (report, sent, client) := EndTransaction(w.client, true, tx.generation, outcome);
      var state := if !report.Done? then Abandoned else if commit then Committed else RolledBack;
      w.(client := client,
         transactions := w.transactions[t := tx.(state := state, until := if sent then |w.log| + 1 else |w.log|)],
         log := w.log + if !sent then []
                        else [TransactionSent(tx.session, w.session),
                              if commit then CommitSent(w.session) else RollbackSent(w.session)])
    else w
  }

  function StepCleanUp(w: World, t: nat, outcome: Outcome): World {
    if t < |w.transactions| && w.transactions[t].state.Abandoned? then
      var tx := w.transactions[t];
      var (sent, client) := CleanUpTransaction(w.client, true, tx.generation, outcome);
      w.(client := client,
         transactions := w.transactions[t := tx.(state := Cleaned)],
         log := w.log + if sent then [TransactionSent(tx.session, w.session), RollbackSent(w.session)] else [])
    else w
  }

  function Step(w: World, e: Event): World {
    match e
    case Connect(handshake) =>
      if w.client.connected then w
      else EstablishIn(w.(client := w.client.(closedExplicitly := false)), handshake)
    case Reestablish(handshake) => EstablishIn(w.(client := Reset(w.client, false)), handshake)
    case Query(tx, handshake, work, outcome) => StepQuery(w, tx, handshake, work, outcome)
    case PrepareStatement(tx, handshake, outcome) => StepPrepare(w, tx, handshake, outcome)
    case Execute(k, change, outcome) => StepExecute(w, k, change, outcome)
    case CloseStatement(k) => StepRelease(w, k, Prepared)
    case DropStatement(k) =>
      if k < |w.statements| && w.statements[k].state.Prepared? then
        w.(statements := w.statements[k := w.statements[k].(state := DropPending)])
      else w
    case ReleaseDropped(k) => StepRelease(w, k, DropPending)
    case Begin(handshake) => StepBegin(w, handshake)
    case Commit(t, outcome) => StepEnd(w, t, true, outcome)
    case Rollback(t, outcome) => StepEnd(w, t, false, outcome)
    case DropTransaction(t) =>
      if t < |w.transactions| && w.transactions[t].state.Active? then
        w.(transactions := w.transactions[t := w.transactions[t].(state := Abandoned, until := |w.log|)])
      else w
    case CleanUp(t, outcome) => StepCleanUp(w, t, outcome)
    case Close => w.(client := CloseClient(w.client))
  }

  function Run(w: World, events: seq<Event>): World
    decreases |events|
  {
    if events == [] then w else Run(Step(w, events[0]), events[1..])
  }

  // ---- The forms of query and prepare ----

  /** An admitted query runs its course; a refused one changes nothing. */
  lemma QueryCourse(w: World, tx: Option<nat>, handshake: Handshake, work: Work, outcome: Outcome)
    ensures var v := Entered(w, tx, handshake);
            StepQuery(w, tx, handshake, work, outcome)
            == if Admitted(v, tx) then Carry(v, Via(v, tx), RunQuery(v.client, work, outcome)) else v
  {
    hide RunQuery;
    assert LogOf([], Via(w, tx), w.session) == [];
    assert w.log + [] == w.log;
  }

  lemma PrepareCourse(w: World, tx: Option<nat>, handshake: Handshake, outcome: Outcome)
    ensures var v := Entered(w, tx, handshake);
            StepPrepare(w, tx, handshake, outcome)
            == if Admitted(v, tx) then
                 var (section, client) := Prepare(v.client, outcome);
                 WithStatement(v.(client := client, log := v.log + LogOf([Work(0)], Via(v, tx), v.session)), section,
                               v.client.generation)
               else v
  {
    hide Prepare, LogOf;
    assert w.log + [] == w.log;
  }

  lemma AdmittedConnected(w: World, tx: Option<nat>)
    requires Admitted(w, tx)
    ensures w.client.connected
  {}

  // ---- What a query can do to the session ----

  /** Within one session nothing changes auto-commit, and RDBCMMs are sent only under it. */
  ghost predicate Keeps(c: Client, d: Course) {
    && (d.begun == 0 ==> d.client.generation == c.generation
                         && (d.client.connected ==> c.connected && d.client.autoCommit == c.autoCommit))
    && (CommitOfWork(0) in d.sent ==> c.autoCommit)
    && (forall s | s in d.sent :: s.after <= d.begun)
  }

  lemma {:induction false} AllocateCachedKeeps(c: Client)
    ensures AllocateCached(c).1.generation == c.generation && AllocateCached(c).1.cache == c.cache
    ensures AllocateCached(c).1.connected == c.connected && AllocateCached(c).1.autoCommit == c.autoCommit
    decreases Supply(c)
  {
    var (section, rest) := Allocate(c);
    if section == Some(ZOS_DIRECT_QUERY_SECTION) {
      AllocateCachedKeeps(rest);
    }
  }

  lemma ReleaseKeeps(c: Client, section: nat)
    ensures var r := Release(c, section);
            && r.generation == c.generation && r.connected == c.connected && r.autoCommit == c.autoCommit
            && r.cache == c.cache && r.next == c.next
  {}

  lemma SelectSectionKeeps(c: Client, plan: SelectPlan)
    ensures var r := SelectSection(c, plan).2;
            && r.generation == c.generation && r.connected == c.connected
            && r.autoCommit == c.autoCommit && r.cache == c.cache
  {
    hide AllocateCached;
    AllocateCachedKeeps(c);
    AllocateCachedKeeps(AllocateCached(c).1);
  }

  lemma AskKeeps(c: Client, dedicated: bool, timesOut: bool)
    ensures var r := AskOn(c, dedicated, timesOut);
            && r.generation == c.generation
            && (r.connected ==> c.connected && r.autoCommit == c.autoCommit && r.cache == c.cache)
  {
    hide AllocateCached, Release;
    AllocateCachedKeeps(c);
    var (section, rest) := AllocateCached(c);
    ReleaseKeeps(rest, if section.Some? then section.value else 0);
  }

  lemma RunInnerKeeps(c: Client, d: Course, i: Inner)
    requires Keeps(c, d)
    ensures Keeps(c, RunInner(d, i)) && RunInner(d, i).begun >= d.begun
  {
    hide AskOn;
    if i.Ask? {
      AskKeeps(d.client, i.dedicated, i.timesOut);
    }
  }

  lemma {:induction false} RunMiddleKeeps(c: Client, d: Course, middle: seq<Inner>)
    requires Keeps(c, d)
    ensures Keeps(c, RunMiddle(d, middle)) && RunMiddle(d, middle).begun >= d.begun
    decreases |middle|
  {
    hide RunInner, Keeps;
    if middle != [] {
      RunInnerKeeps(c, d, middle[0]);
      RunMiddleKeeps(c, RunInner(d, middle[0]), middle[1..]);
    }
  }

  /** Changing only the sections, or ending the session, is no matter. */
  lemma KeepsClient(c: Client, d: Course, r: Client)
    requires Keeps(c, d) && r.generation == d.client.generation
    requires r.connected ==> d.client.connected && r.autoCommit == d.client.autoCommit
    ensures Keeps(c, d.(client := r))
  {}

  lemma KeepsSend(c: Client, d: Course)
    requires Keeps(c, d)
    ensures Keeps(c, Send(d))
  {}

  lemma SettleKeeps(c: Client, sql: string, section: Option<nat>, remember: bool, outcome: Outcome)
    ensures var r := SettleSelect(c, sql, section, remember, outcome);
            r.generation == c.generation && (r.connected ==> c.connected && r.autoCommit == c.autoCommit)
  {
    hide Release;
    ReleaseKeeps(c, if section.Some? then section.value else 0);
  }

  lemma SelectAnewKeeps(c: Client, d: Course, sql: string, plan: SelectPlan, outcome: Outcome)
    requires Keeps(c, d)
    ensures Keeps(c, SelectAnew(d, sql, plan, outcome)) && SelectAnew(d, sql, plan, outcome).begun >= d.begun
  {
    hide Keeps, RunMiddle, SelectSection, SettleSelect;
    SelectSectionKeeps(d.client, plan);
    var (section, forCache, rest) := SelectSection(d.client, plan);
    KeepsClient(c, d, rest);
    KeepsSend(c, d.(client := rest));
    var m := RunMiddle(Send(d.(client := rest)), plan.middle);
    RunMiddleKeeps(c, Send(d.(client := rest)), plan.middle);
    SettleKeeps(m.client, sql, section, forCache && plan.storable, outcome);
    KeepsClient(c, m, SettleSelect(m.client, sql, section, forCache && plan.storable, outcome));
  }

  lemma DropKeeps(c: Client, sql: string, section: nat)
    ensures var r := Drop(c, sql, section);
            r.generation == c.generation && r.connected == c.connected && r.autoCommit == c.autoCommit
  {}

  lemma SelectKeeps(c: Client, sql: string, plan: SelectPlan, outcome: Outcome)
    ensures Keeps(c, Select(c, sql, plan, outcome))
  {
    hide Keeps, RunMiddle, SelectAnew, Drop;
    var start := Course(c, 0, []);
    KeepsStart(c);
    KeepsSend(c, start);
    if sql in c.cache {
      DropKeeps(c, sql, c.cache[sql]);
    }
    if sql in c.cache && plan.cache.Open? {
      var met := RunMiddle(Send(start), plan.cache.middle);
      RunMiddleKeeps(c, Send(start), plan.cache.middle);
      KeepsClient(c, met, Finalize(met.client, outcome));
      var dropped := Drop(met.client, sql, c.cache[sql]);
      DropKeeps(met.client, sql, c.cache[sql]);
      KeepsClient(c, met, dropped);
      KeepsClient(c, met, Finalize(dropped, outcome));
      SelectAnewKeeps(c, met.(client := dropped), sql, plan, outcome);
    } else {
      var d := if plan.cache.NotConsulted? then c else Evict(c, sql);
      KeepsClient(c, start, d);
      SelectAnewKeeps(c, start.(client := d), sql, plan, outcome);
    }
  }

  lemma KeepsStart(c: Client)
    ensures Keeps(c, Course(c, 0, []))
  {}

  lemma QueryKeeps(c: Client, work: Work, outcome: Outcome)
    ensures Keeps(c, RunQuery(c, work, outcome))
  {
    hide Keeps, RunMiddle, Select;
    match work
    case Plain(middle) =>
      var start := Course(c, 0, []);
      KeepsStart(c);
      KeepsSend(c, start);
      RunMiddleKeeps(c, Send(start), middle);
      var d := RunMiddle(Send(start), middle);
      KeepsClient(c, d, Finalize(d.client, outcome));
    case ZosSelect(sql, plan) => SelectKeeps(c, sql, plan, outcome);
  }

  // ---- Queries that stay in their session ----

  predicate NoRenewal(middle: seq<Inner>) {
    forall i | i in middle :: !i.Renew?
  }

  predicate NeverRenews(work: Work) {
    match work
    case Plain(middle) => NoRenewal(middle)
    case ZosSelect(_, plan) => NoRenewal(plan.middle) && (plan.cache.Open? ==> NoRenewal(plan.cache.middle))
  }

  lemma {:induction false} NoneBegun(d: Course, middle: seq<Inner>)
    requires NoRenewal(middle)
    ensures RunMiddle(d, middle).begun == d.begun
    decreases |middle|
  {
    hide AskOn;
    if middle != [] {
      assert middle[0] in middle;
      NoneBegun(RunInner(d, middle[0]), middle[1..]);
    }
  }

  lemma NoneBegunAnew(d: Course, sql: string, plan: SelectPlan, outcome: Outcome)
    requires NoRenewal(plan.middle)
    ensures SelectAnew(d, sql, plan, outcome).begun == d.begun
  {
    hide RunMiddle, SelectSection, NoRenewal;
    NoneBegun(Send(d.(client := SelectSection(d.client, plan).2)), plan.middle);
  }

  /** A query that does not renew the session sends everything to the session it started in. */
  lemma StaysInSession(c: Client, work: Work, outcome: Outcome)
    requires NeverRenews(work)
    ensures var d := RunQuery(c, work, outcome); d.begun == 0 && forall s | s in d.sent :: s.after == 0
  {
    hide RunMiddle, SelectAnew, NoRenewal, Drop;
    var start := Course(c, 0, []);
    QueryKeeps(c, work, outcome);
    match work
    case Plain(middle) => NoneBegun(Send(start), middle);
    case ZosSelect(sql, plan) =>
      if sql in c.cache && plan.cache.Open? {
        var met := RunMiddle(Send(start), plan.cache.middle);
        NoneBegun(Send(start), plan.cache.middle);
        NoneBegunAnew(met.(client := Drop(met.client, sql, c.cache[sql])), sql, plan, outcome);
      } else {
        NoneBegunAnew(start.(client := if plan.cache.NotConsulted? then c else Evict(c, sql)), sql, plan, outcome);
      }
  }

  // ---- Generations ----

  /** The generation number of the n-th session. */
  function GenerationOf(n: nat): nat {
    if n == 0 then 0 else (n - 1) % U64_MAX + 1
  }

  lemma NextGenerationOf(n: nat)
    ensures NextGeneration(GenerationOf(n)) == GenerationOf(n + 1)
  {
    if n > 0 {
      var q := (n - 1) / U64_MAX;
      assert n - 1 == q * U64_MAX + (n - 1) % U64_MAX;
      if (n - 1) % U64_MAX == U64_MAX - 1 {
        assert n == (q + 1) * U64_MAX;
        assert n % U64_MAX == 0;
      } else {
        assert n % U64_MAX == (n - 1) % U64_MAX + 1;
      }
    }
  }

  /** Two sessions have the same generation exactly if they are the same, or both real and a
      multiple of 2^64 - 1 apart. */
  lemma SameGeneration(a: nat, b: nat)
    ensures GenerationOf(a) == GenerationOf(b) <==> a == b || (a > 0 && b > 0 && (a - b) % U64_MAX == 0)
  {}

  /** As long as the counter has not come round, generations tell sessions apart. */
  lemma SmallGeneration(n: nat)
    ensures n <= U64_MAX ==> GenerationOf(n) == n
  {}

  /** The generation counts the sessions a query begins. */
  ghost predicate Counts(session: nat, d: Course) {
    d.client.generation == GenerationOf(session + d.begun)
  }

  lemma {:induction false} RunMiddleCounts(session: nat, d: Course, middle: seq<Inner>)
    requires Counts(session, d)
    ensures Counts(session, RunMiddle(d, middle))
    decreases |middle|
  {
    hide GenerationOf, NextGeneration, AskOn;
    if middle != [] {
      NextGenerationOf(session + d.begun);
      if middle[0].Ask? {
        AskKeeps(d.client, middle[0].dedicated, middle[0].timesOut);
      }
      RunMiddleCounts(session, RunInner(d, middle[0]), middle[1..]);
    }
  }

  lemma SelectAnewCounts(session: nat, d: Course, sql: string, plan: SelectPlan, outcome: Outcome)
    requires Counts(session, d)
    ensures Counts(session, SelectAnew(d, sql, plan, outcome))
  {
    hide GenerationOf, RunMiddle, SelectSection, SettleSelect;
    SelectSectionKeeps(d.client, plan);
    var (section, forCache, rest) := SelectSection(d.client, plan);
    var m := RunMiddle(Send(d.(client := rest)), plan.middle);
    RunMiddleCounts(session, Send(d.(client := rest)), plan.middle);
    SettleKeeps(m.client, sql, section, forCache && plan.storable, outcome);
  }

  lemma QueryCounts(session: nat, c: Client, work: Work, outcome: Outcome)
    requires c.generation == GenerationOf(session)
    ensures Counts(session, RunQuery(c, work, outcome))
  {
    hide GenerationOf, RunMiddle, SelectAnew, Drop;
    var start := Course(c, 0, []);
    match work
    case Plain(middle) => RunMiddleCounts(session, Send(start), middle);
    case ZosSelect(sql, plan) =>
      if sql in c.cache && plan.cache.Open? {
        var met := RunMiddle(Send(start), plan.cache.middle);
        RunMiddleCounts(session, Send(start), plan.cache.middle);
        DropKeeps(met.client, sql, c.cache[sql]);
        SelectAnewCounts(session, met.(client := Drop(met.client, sql, c.cache[sql])), sql, plan, outcome);
      } else {
        if sql in c.cache {
          DropKeeps(c, sql, c.cache[sql]);
        }
        var d := if plan.cache.NotConsulted? then c else Evict(c, sql);
        SelectAnewCounts(session, start.(client := d), sql, plan, outcome);
      }
  }

  /** Handles carry the generation of the session they come from. */
  ghost predicate Numbered(w: World) {
    && w.client.generation == GenerationOf(w.session)
    && (forall k | 0 <= k < |w.statements| ::
          w.statements[k].session <= w.session && w.statements[k].generation == GenerationOf(w.statements[k].session))
    && (forall t | 0 <= t < |w.transactions| ::
          && w.transactions[t].session <= w.session
          && w.transactions[t].generation == GenerationOf(w.transactions[t].session))
  }

  /** A handle that may be used, with the counter not come round, is one of the live session. */
  lemma UsableIsLive(w: World, session: nat)
    requires w.session <= U64_MAX && session <= w.session && w.client.generation == GenerationOf(w.session)
    ensures w.client.generation == GenerationOf(session) <==> session == w.session
  {
    hide GenerationOf;
    SmallGeneration(session);
    SmallGeneration(w.session);
  }

  lemma NumberedEstablish(w: World, handshake: Handshake)
    requires Numbered(w)
    ensures Numbered(EstablishIn(w, handshake)) && EstablishIn(w, handshake).session >= w.session
    ensures Numbered(ReconnectIn(w, handshake)) && ReconnectIn(w, handshake).session >= w.session
  {
    hide GenerationOf, NextGeneration;
    NextGenerationOf(w.session);
  }

  lemma NumberedEntered(w: World, tx: Option<nat>, handshake: Handshake)
    requires Numbered(w)
    ensures Numbered(Entered(w, tx, handshake)) && Entered(w, tx, handshake).session >= w.session
  {
    hide Numbered, ReconnectIn;
    NumberedEstablish(w, handshake);
  }

  /** Nothing but the handles, the generation and the session count matters for the numbering. */
  lemma NumberedSame(w: World, v: World)
    requires Numbered(w) && v.client.generation == w.client.generation && v.session == w.session
    requires |v.statements| >= |w.statements| && |v.transactions| >= |w.transactions|
    requires forall k | 0 <= k < |w.statements| ::
               && v.statements[k].session == w.statements[k].session
               && v.statements[k].generation == w.statements[k].generation
    requires forall k | |w.statements| <= k < |v.statements| ::
               v.statements[k].session == w.session && v.statements[k].generation == w.client.generation
    requires forall t | 0 <= t < |w.transactions| ::
               && v.transactions[t].session == w.transactions[t].session
               && v.transactions[t].generation == w.transactions[t].generation
    requires forall t | |w.transactions| <= t < |v.transactions| ::
               v.transactions[t].session == w.session && v.transactions[t].generation == w.client.generation
    ensures Numbered(v)
  {}

  /** Steps of handles. */
  lemma NumberedHandle(w: World, e: Event)
    requires Numbered(w)
    requires e.Execute? || e.CloseStatement? || e.DropStatement? || e.ReleaseDropped? || e.Commit? || e.Rollback?
             || e.DropTransaction? || e.CleanUp? || e.Close?
    ensures Numbered(Step(w, e)) && Step(w, e).session == w.session
  {
    hide GenerationOf, Numbered;
    NumberedSame(w, Step(w, e));
  }

  lemma NumberedQuery(w: World, e: Event)
    requires Numbered(w) && e.Query?
    ensures Numbered(Step(w, e)) && Step(w, e).session >= w.session
  {
    hide GenerationOf, RunQuery, Entered, StepQuery, LogOf;
    NumberedEntered(w, e.tx, e.handshake);
    QueryCourse(w, e.tx, e.handshake, e.work, e.outcome);
    var v := Entered(w, e.tx, e.handshake);
    QueryCounts(v.session, v.client, e.work, e.outcome);
  }

  lemma PrepareKeeps(c: Client, outcome: Outcome)
    ensures var r := Prepare(c, outcome).1;
            r.generation == c.generation && (r.connected ==> c.connected && r.autoCommit == c.autoCommit)
  {
    hide Release;
    var (section, rest) := Allocate(c);
    ReleaseKeeps(rest, if section.Some? then section.value else 0);
  }

  lemma NumberedPrepare(w: World, e: Event)
    requires Numbered(w) && e.PrepareStatement?
    ensures Numbered(Step(w, e)) && Step(w, e).session >= w.session
  {
    hide GenerationOf, Prepare, Entered, StepPrepare, LogOf, Numbered;
    NumberedEntered(w, e.tx, e.handshake);
    PrepareCourse(w, e.tx, e.handshake, e.outcome);
    var v := Entered(w, e.tx, e.handshake);
    PrepareKeeps(v.client, e.outcome);
    NumberedSame(v, Step(w, e));
  }

  /** Beginning a transaction is reconnecting first. */
  lemma BeginCourse(w: World, handshake: Handshake)
    ensures var v := ReconnectIn(w, handshake);
            StepBegin(w, handshake)
            == if v.client.connected then
                 v.(client := v.client.(autoCommit := false),
                    transactions := v.transactions + [Tx(v.client.generation, v.session, |v.log|, |v.log|, Active)])
               else v
  {}

  lemma NumberedBegin(w: World, handshake: Handshake)
    requires Numbered(w)
    ensures Numbered(StepBegin(w, handshake)) && StepBegin(w, handshake).session >= w.session
  {
    hide GenerationOf, Numbered, ReconnectIn, StepBegin;
    NumberedEstablish(w, handshake);
    BeginCourse(w, handshake);
    NumberedSame(ReconnectIn(w, handshake), StepBegin(w, handshake));
  }

  lemma NumberedStep(w: World, e: Event)
    requires Numbered(w)
    ensures Numbered(Step(w, e)) && Step(w, e).session >= w.session
  {
    hide GenerationOf, EstablishIn, ReconnectIn, Numbered, StepQuery, StepExecute, StepRelease, StepPrepare, StepBegin,
         StepEnd, StepCleanUp;
    match e
    case Connect(h) =>
      var v := w.(client := w.client.(closedExplicitly := false));
      NumberedSame(w, v);
      NumberedEstablish(v, h);
    case Reestablish(h) =>
      var v := w.(client := Reset(w.client, false));
      NumberedSame(w, v);
      NumberedEstablish(v, h);
    case Begin(h) => NumberedBegin(w, h);
    case Query(_, _, _, _) => NumberedQuery(w, e);
    case PrepareStatement(_, _, _) => NumberedPrepare(w, e);
    case _ => NumberedHandle(w, e);
  }

  // ---- Runs ----

  /** Runs short enough that the generation counter does not come round. */
  ghost predicate Bounded(w: World, events: seq<Event>)
    decreases |events|
  {
    w.session <= U64_MAX && (events == [] || Bounded(Step(w, events[0]), events[1..]))
  }

  /** After 2^64 - 1 further sessions a stale handle passes the generation check. */
  lemma GenerationsComeRound()
    ensures GenerationOf(1) == GenerationOf(1 + U64_MAX) && NextGeneration(U64_MAX) == 1
  {}
}
