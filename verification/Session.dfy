/** The client's session state: connection flags, statement sections and the select cache, and
    the handles that use them (connection.rs, statement.rs, transaction.rs). */
module Session {
  import opened Wire

  const ZOS_DIRECT_QUERY_SECTION: nat := 1
  const PREPARED_STATEMENT_MAX_SECTION: nat := 385
  const ZOS_SELECT_CACHE_MAX_ENTRIES: nat := 64
  const U64_MAX: nat := 0xFFFF_FFFF_FFFF_FFFF

  /** The fields of `ClientInner` that outlive an operation. */
  datatype Client = Client(
    connected: bool, connectedOnce: bool, closedExplicitly: bool, autoCommit: bool,
    generation: nat, next: nat, free: seq<nat>, cache: map<string, nat>)

  /** How an operation on the server ends. Fatal errors and timeouts reset the session. */
  datatype Outcome = Succeeds | FailsSoftly | FailsFatally | TimesOut

  /** How establishing a session ends: before the session counts as connected, after, or well. */
  datatype Handshake = Established | FailsBefore | FailsAfter

  /** What an application call reports. */
  datatype Report = Done | Refused | Failed

  function ReportOf(outcome: Outcome): Report {
    if outcome.Succeeds? then Done else Failed
  }

  // ---- Sections ----

  function Allocate(c: Client): (Option<nat>, Client) {
    if c.free != [] then (Some(c.free[|c.free| - 1]), c.(free := c.free[..|c.free| - 1]))
    else if c.next > PREPARED_STATEMENT_MAX_SECTION then (None, c)
    else (Some(c.next), c.(next := c.next + 1))
  }

  function Supply(c: Client): nat {
    |c.free| + if c.next <= PREPARED_STATEMENT_MAX_SECTION then PREPARED_STATEMENT_MAX_SECTION + 1 - c.next else 0
  }

  /** Section 1 is the direct query section on z/OS; it is thrown away if it comes up. */
  function AllocateCached(c: Client): (Option<nat>, Client)
    decreases Supply(c)
  {
    var (section, rest) := Allocate(c);
    if section == Some(ZOS_DIRECT_QUERY_SECTION) then AllocateCached(rest) else (section, rest)
  }

  function Release(c: Client, section: nat): Client {
    if section == 0 || section > PREPARED_STATEMENT_MAX_SECTION || section in c.free then c
    else c.(free := c.free + [section])
  }

  // ---- Sessions ----

  function Reset(c: Client, explicit: bool): Client {
    c.(connected := false, autoCommit := true, closedExplicitly := explicit, next := 1, free := [], cache := map[])
  }

  /** Generations count sessions in 64 bits and skip zero. */
  function NextGeneration(generation: nat): nat {
    var g := (generation + 1) % (U64_MAX + 1);
    if g == 0 then 1 else g
  }

  function Establish(c: Client, handshake: Handshake): Client {
    if handshake.FailsBefore? then c
    else
      var begun := Client(true, true, false, true, NextGeneration(c.generation), 1, [], map[]);
      if handshake.FailsAfter? then Reset(begun, false) else begun
  }

  function ReconnectIfNeeded(c: Client, handshake: Handshake): Client {
    if !c.connected && c.connectedOnce && !c.closedExplicitly then Establish(c, handshake) else c
  }

  /** `finalize_operation_error` and `disconnect_after_timeout`. */
  function Finalize(c: Client, outcome: Outcome): Client {
    if outcome.FailsFatally? || outcome.TimesOut? then Reset(c, false) else c
  }

  function CloseClient(c: Client): Client {
    c.(connected := false, autoCommit := true, closedExplicitly := true, next := 1, free := [], cache := map[])
  }

  /** Whether a handle made in `generation` may still be used. */
  predicate MayUse(c: Client, generation: nat) {
    c.generation == generation && c.connected
  }

  // ---- Preparing ----

  /** The section goes back if the server refuses, unless the operation was cut off by a timeout
      and the session with it. */
  function Prepare(c: Client, outcome: Outcome): (Option<nat>, Client) {
    var (section, rest) := Allocate(c);
    if section.None? then (None, rest)
    else
      match outcome
      case Succeeds => (section, rest)
      case TimesOut => (None, Reset(rest, false))
      case _ => (None, Finalize(Release(rest, section.value), outcome))
  }

  function PrepareThrough(c: Client, open: bool, generation: nat, outcome: Outcome): (Report, Option<nat>, Client) {
    if !open || !MayUse(c, generation) then (Refused, None, c)
    else
      var (section, rest) := Prepare(c, outcome);
      (if section.Some? then Done else Failed, section, rest)
  }

  // ---- Queries ----

  /** What happens between the first request of a query and its end. A further request is an
      internal LOB query, on a section of its own if it is `dedicated`, or the opening of the
      cursor. The session is renewed after a session error, and hung up on after LOBs whose
      cleanup is in doubt. */
  datatype Inner =
    | Ask(dedicated: bool, timesOut: bool)
    | CommitWork
    | Renew(handshake: Handshake)
    | HangUp

  /** A request of a query; `after` counts the sessions the query had begun by then. */
  datatype Sent = Work(after: nat) | CommitOfWork(after: nat)

  /** The course of a query so far. */
  datatype Course = Course(client: Client, begun: nat, sent: seq<Sent>)

  function Send(d: Course): Course {
    if d.client.connected then d.(sent := d.sent + [Work(d.begun)]) else d
  }

  function AskOn(c: Client, dedicated: bool, timesOut: bool): Client {
    if timesOut then Reset(c, false)
    else if dedicated then
      var (section, rest) := AllocateCached(c);
      if section.Some? then Release(rest, section.value) else rest
    else c
  }

  /** Nothing more happens once the session is gone. */
  function RunInner(d: Course, i: Inner): Course {
    if !d.client.connected then d
    else
      match i
      case Ask(dedicated, timesOut) => Send(d).(client := AskOn(d.client, dedicated, timesOut))
      case CommitWork => if d.client.autoCommit then d.(sent := d.sent + [CommitOfWork(d.begun)]) else d
      case Renew(handshake) =>
        d.(client := Establish(Reset(d.client, false), handshake),
           begun := if handshake.FailsBefore? then d.begun else d.begun + 1)
      case HangUp => d.(client := Reset(d.client, false))
  }

  function RunMiddle(d: Course, middle: seq<Inner>): Course
    decreases |middle|
  {
    if middle == [] then d else RunMiddle(RunInner(d, middle[0]), middle[1..])
  }

  /** How a z/OS select meets its cache entry. Inside another query, or with the cache switched
      off, the entry is not consulted; texts known to yield LOBs lose theirs; an entry whose
      metadata says LOB is dropped before use. Otherwise it is opened, and then kept, or dropped
      with the select `done` or begun anew. */
  datatype CacheUse =
    | NotConsulted
    | Denied
    | DropFirst
    | Open(middle: seq<Inner>, drops: bool, done: bool)
  {
    predicate MayStore() {
      DropFirst? || Open?
    }
  }

  /** What decides the course of a z/OS select without parameters. */
  datatype SelectPlan = SelectPlan(cache: CacheUse, dedicated: bool, middle: seq<Inner>, storable: bool)

  datatype Work = Plain(middle: seq<Inner>) | ZosSelect(sql: string, plan: SelectPlan)

  function Drop(c: Client, sql: string, section: nat): Client {
    Release(c.(cache := c.cache - {sql}), section)
  }

  function Evict(c: Client, sql: string): Client {
    if sql in c.cache then Drop(c, sql, c.cache[sql]) else c
  }

  /** The section a select that is not served from the cache runs on, if not the shared one, and
      whether it is meant for the cache. */
  function SelectSection(c: Client, plan: SelectPlan): (Option<nat>, bool, Client) {
    var (cached, rest) := if plan.cache.MayStore() && |c.cache| < ZOS_SELECT_CACHE_MAX_ENTRIES then AllocateCached(c)
                          else (None, c);
    if cached.Some? then (cached, true, rest)
    else if plan.dedicated then
      var (oneShot, left) := AllocateCached(rest);
      (oneShot, false, left)
    else (None, false, rest)
  }

  /** The end of a select: its section is remembered for the SQL text or given back, to whatever
      session the client has by then. */
  function SettleSelect(c: Client, sql: string, section: Option<nat>, remember: bool, outcome: Outcome): Client {
    if outcome.TimesOut? then Reset(c, false)
    else
      var settled := if section.None? then c
                     else if outcome.Succeeds? && remember then c.(cache := c.cache[sql := section.value])
                     else Release(c, section.value);
      Finalize(settled, outcome)
  }

  function SelectAnew(d: Course, sql: string, plan: SelectPlan, outcome: Outcome): Course {
    var (section, forCache, rest) := SelectSection(d.client, plan);
    var m := RunMiddle(Send(d.(client := rest)), plan.middle);
    m.(client := SettleSelect(m.client, sql, section, forCache && plan.storable, outcome))
  }

  /** A hit is opened on the cached section; if the entry is dropped after that, its section is
      given back to whatever session the client has by then. */
  function Select(c: Client, sql: string, plan: SelectPlan, outcome: Outcome): Course {
    var start := Course(c, 0, []);
    if sql in c.cache && plan.cache.Open? then
      var met := RunMiddle(Send(start), plan.cache.middle);
      if !plan.cache.drops then met.(client := Finalize(met.client, outcome))
      else
        var dropped := met.(client := Drop(met.client, sql, c.cache[sql]));
        if plan.cache.done then dropped.(client := Finalize(dropped.client, outcome))
        else SelectAnew(dropped, sql, plan, outcome)
    else SelectAnew(start.(client := if plan.cache.NotConsulted? then c else Evict(c, sql)), sql, plan, outcome)
  }

  function RunQuery(c: Client, work: Work, outcome: Outcome): Course {
    match work
    case Plain(middle) =>
      var d := RunMiddle(Send(Course(c, 0, [])), middle);
      d.(client := Finalize(d.client, outcome))
    case ZosSelect(sql, plan) => Select(c, sql, plan, outcome)
  }

  function QueryThrough(c: Client, open: bool, generation: nat, work: Work, outcome: Outcome): (Report, Course) {
    if !open || !MayUse(c, generation) then (Refused, Course(c, 0, []))
    else (ReportOf(outcome), RunQuery(c, work, outcome))
  }

  // ---- Statements ----

  /** What executing a prepared statement comes to. A query asks for rows, and may commit or
      hang up after z/OS LOBs; the request of a change ends with an RDBCMM; a CALL or a batch
      commits apart from its requests; parameters that do not encode are not sent. */
  datatype StatementWork =
    | Rows(cleanup: bool, hangsUp: bool)
    | Change
    | CallOrBatch(commits: nat, hangsUp: bool)
    | NotEncoded

  /** Only under auto-commit does any of it send an RDBCMM. */
  function CommitsOf(c: Client, work: StatementWork): nat {
    if !c.autoCommit then 0
    else
      match work
      case Rows(cleanup, _) => if cleanup then 1 else 0
      case Change => 1
      case CallOrBatch(commits, _) => commits
      case NotEncoded => 0
  }

  predicate HangsUp(work: StatementWork) {
    match work
    case Rows(_, hangsUp) => hangsUp
    case CallOrBatch(_, hangsUp) => hangsUp
    case Change | NotEncoded => false
  }

  function AfterWork(c: Client, work: StatementWork): Client {
    if HangsUp(work) then Reset(c, false) else c
  }

  function ExecuteStatement(c: Client, prepared: bool, generation: nat, work: StatementWork, outcome: Outcome)
    : (Report, nat, Client)
  {
    if !prepared || !MayUse(c, generation) then (Refused, 0, c)
    else (ReportOf(outcome), CommitsOf(c, work), Finalize(AfterWork(c, work), outcome))
  }

  /** A section goes back only to the session it came from. */
  function GiveBack(c: Client, section: nat, generation: nat): Client {
    if c.generation == generation then Release(c, section) else c
  }

  // ---- Transactions ----

  function BeginOn(c: Client, handshake: Handshake): (Option<nat>, Client) {
    var r := ReconnectIfNeeded(c, handshake);
    if r.connected then (Some(r.generation), r.(autoCommit := false)) else (None, r)
  }

  /** Commit and rollback do not check the connection first: without one the send fails, which
      resets the session. The second component says whether the request was sent. */
  function EndTransaction(c: Client, open: bool, generation: nat, outcome: Outcome): (Report, bool, Client) {
    if !open || c.generation != generation then (Refused, false, c)
    else if !c.connected then (Failed, false, Finalize(c, FailsFatally))
    else if outcome.Succeeds? then (Done, true, c.(autoCommit := true))
    else (Failed, true, Finalize(c, outcome))
  }

  /** What dropping a transaction spawns. */
  function CleanUpTransaction(c: Client, open: bool, generation: nat, outcome: Outcome): (bool, Client) {
    if !open || c.generation != generation then (false, c)
    else if !c.connected then (false, c.(autoCommit := true))
    else if c.autoCommit then (false, c)
    else (true, if outcome.Succeeds? then c.(autoCommit := true) else c)
  }

  // ---- The objects ----

  class ClientInner {
    var connected: bool
    var connectedOnce: bool
    var closedExplicitly: bool
    var autoCommit: bool
    var sessionGeneration: nat
    var nextPreparedSection: nat
    var freePreparedSections: seq<nat>
    var zosSelectCache: map<string, nat>

    function View(): Client
      reads this
    {
      Client(connected, connectedOnce, closedExplicitly, autoCommit, sessionGeneration, nextPreparedSection,
             freePreparedSections, zosSelectCache)
    }

    constructor ()
      ensures View() == Client(false, false, false, true, 0, 1, [], map[])
    {
      connected, connectedOnce, closedExplicitly, autoCommit := false, false, false, true;
      sessionGeneration, nextPreparedSection, freePreparedSections, zosSelectCache := 0, 1, [], map[];
    }

    /** The section freed last, or else the next one up to 385. */
    method AllocatePreparedSection() returns (section: Option<nat>)
      modifies this
      ensures (section, View()) == Allocate(old(View()))
      ensures section.Some? && old(freePreparedSections) != [] ==>
                freePreparedSections + [section.value] == old(freePreparedSections)
      ensures section.Some? && old(freePreparedSections) == [] ==>
                section.value == old(nextPreparedSection) <= 385 && nextPreparedSection == section.value + 1
      ensures section.None? <==> old(freePreparedSections) == [] && old(nextPreparedSection) > 385
    {
      if freePreparedSections != [] {
        var last := |freePreparedSections| - 1;
        section := Some(freePreparedSections[last]);
        freePreparedSections := freePreparedSections[..last];
        return;
      }
      if nextPreparedSection > PREPARED_STATEMENT_MAX_SECTION {
        return None;
      }
      section := Some(nextPreparedSection);
      nextPreparedSection := nextPreparedSection + 1;
    }

    /** Ends within two rounds, since section 1 cannot come up twice. */
    method AllocateZosCachedSelectSection() returns (section: Option<nat>, ghost rounds: nat)
      modifies this
      ensures (section, View()) == AllocateCached(old(View()))
      ensures SectionsDistinct(old(View())) ==> rounds <= 2
    {
      rounds := 0;
      while true
        invariant AllocateCached(View()) == AllocateCached(old(View()))
        invariant SectionsDistinct(old(View())) ==>
                    || (rounds == 0 && View() == old(View()))
                    || (rounds == 1 && SectionsDistinct(View()) && OneTaken(View()))
        decreases Supply(View())
      {
        ghost var before := View();
        section := AllocatePreparedSection();
        rounds := rounds + 1;
        if SectionsDistinct(before) {
          AllocateDistinct(before);
        }
        if section.None? || section.value != ZOS_DIRECT_QUERY_SECTION {
          return;
        }
      }
    }

    method ReleasePreparedSection(section: nat)
      modifies this
      ensures View() == Release(old(View()), section)
      ensures freePreparedSections
              == if 1 <= section <= 385 && section !in old(freePreparedSections)
                 then old(freePreparedSections) + [section] else old(freePreparedSections)
    {
      if section == 0 || section > PREPARED_STATEMENT_MAX_SECTION {
        return;
      }
      if section !in freePreparedSections {
        freePreparedSections := freePreparedSections + [section];
      }
    }

    method ResetSessionState(explicitClose: bool)
      modifies this
      ensures View() == Reset(old(View()), explicitClose)
      ensures !connected && autoCommit && closedExplicitly == explicitClose
      ensures connectedOnce == old(connectedOnce) && sessionGeneration == old(sessionGeneration)
      ensures nextPreparedSection == 1 && freePreparedSections == [] && zosSelectCache == map[]
    {
      connected, autoCommit, closedExplicitly := false, true, explicitClose;
      nextPreparedSection, freePreparedSections, zosSelectCache := 1, [], map[];
    }

    method EstablishSession(handshake: Handshake) returns (ok: bool)
      modifies this
      ensures View() == Establish(old(View()), handshake)
      ensures ok <==> handshake.Established?
      ensures handshake.FailsBefore? ==> View() == old(View())
      ensures !handshake.FailsBefore? ==>
                && connected == ok && connectedOnce && autoCommit && !closedExplicitly
                && nextPreparedSection == 1 && freePreparedSections == [] && zosSelectCache == map[]
                && (old(sessionGeneration) < 0xFFFF_FFFF_FFFF_FFFF ==> sessionGeneration == old(sessionGeneration) + 1)
                && (old(sessionGeneration) == 0xFFFF_FFFF_FFFF_FFFF ==> sessionGeneration == 1)
    {
      if handshake.FailsBefore? {
        return false;
      }
      autoCommit, connected, connectedOnce, closedExplicitly := true, true, true, false;
      nextPreparedSection, freePreparedSections, zosSelectCache := 1, [], map[];
      sessionGeneration := (sessionGeneration + 1) % (U64_MAX + 1);
      if sessionGeneration == 0 {
        sessionGeneration := 1;
      }
      if handshake.FailsAfter? {
        ResetSessionState(false);
        return false;
      }
      return true;
    }

    method ReconnectWhereNeeded(handshake: Handshake) returns (ok: bool)
      modifies this
      ensures View() == ReconnectIfNeeded(old(View()), handshake)
      ensures !ok ==> !connected
      ensures connected <==>
                old(connected) || (old(connectedOnce) && !old(closedExplicitly) && handshake.Established?)
      ensures old(connected) || !old(connectedOnce) || old(closedExplicitly) || handshake.FailsBefore? ==>
                View() == old(View())
    {
      if connected || !connectedOnce || closedExplicitly {
        return true;
      }
      ok := EstablishSession(handshake);
    }

    method FinalizeOperation(outcome: Outcome)
      modifies this
      ensures View() == Finalize(old(View()), outcome)
      ensures outcome.Succeeds? || outcome.FailsSoftly? ==> View() == old(View())
      ensures outcome.FailsFatally? || outcome.TimesOut? ==> !connected && autoCommit && !closedExplicitly
    {
      if outcome.FailsFatally? || outcome.TimesOut? {
        ResetSessionState(false);
      }
    }

    method Close()
      modifies this
      ensures View() == CloseClient(old(View()))
      ensures !connected && autoCommit && closedExplicitly
      ensures connectedOnce == old(connectedOnce) && sessionGeneration == old(sessionGeneration)
      ensures nextPreparedSection == 1 && freePreparedSections == [] && zosSelectCache == map[]
    {
      connected, autoCommit, closedExplicitly := false, true, true;
      nextPreparedSection, freePreparedSections, zosSelectCache := 1, [], map[];
    }

    /** The work of `prepare` once the client is known to be connected. */
    method PrepareSection(outcome: Outcome) returns (section: Option<nat>)
      modifies this
      ensures (section, View()) == Prepare(old(View()), outcome)
      ensures section.Some? <==>
                outcome.Succeeds? && (old(freePreparedSections) != [] || old(nextPreparedSection) <= 385)
      ensures SectionsDistinct(old(View())) ==>
                && (section.Some? ==> section.value !in freePreparedSections)
                && (outcome.FailsSoftly? && old(freePreparedSections) != [] ==>
                      freePreparedSections == old(freePreparedSections))
                && (outcome.FailsSoftly? && old(freePreparedSections) == [] && old(nextPreparedSection) <= 385 ==>
                      freePreparedSections == [old(nextPreparedSection)])
      ensures section.None? && (outcome.FailsFatally? || outcome.TimesOut?) ==>
                !connected || (old(freePreparedSections) == [] && old(nextPreparedSection) > 385)
    {
      section := AllocatePreparedSection();
      if section.None? || outcome.Succeeds? {
        return;
      }
      if !outcome.TimesOut? {
        ReleasePreparedSection(section.value);
      }
      FinalizeOperation(outcome);
      section := None;
    }

    /** One internal LOB query, or another further request of a query. */
    method AskServer(dedicated: bool, timesOut: bool)
      modifies this
      ensures View() == AskOn(old(View()), dedicated, timesOut)
    {
      if timesOut {
        ResetSessionState(false);
        return;
      }
      if dedicated {
        ghost var rounds;
        var section;
        section, rounds := AllocateZosCachedSelectSection();
        if section.Some? {
          ReleasePreparedSection(section.value);
        }
      }
    }

    method RunMiddlePart(middle: seq<Inner>, begun: nat, sent: seq<Sent>) returns (begunThen: nat, sentThen: seq<Sent>)
      modifies this
      ensures Course(View(), begunThen, sentThen) == RunMiddle(Course(old(View()), begun, sent), middle)
    {
      hide AskOn;
      begunThen, sentThen := begun, sent;
      ghost var start := Course(View(), begun, sent);
      for k := 0 to |middle|
        invariant RunMiddle(Course(View(), begunThen, sentThen), middle[k..]) == RunMiddle(start, middle)
      {
        assert middle[k..][1..] == middle[k + 1..];
        if connected {
          match middle[k]
          case Ask(dedicated, timesOut) =>
            sentThen := sentThen + [Work(begunThen)];
            AskServer(dedicated, timesOut);
          case CommitWork =>
            if autoCommit {
              sentThen := sentThen + [CommitOfWork(begunThen)];
            }
          case Renew(handshake) =>
            ResetSessionState(false);
            var ok := EstablishSession(handshake);
            begunThen := if handshake.FailsBefore? then begunThen else begunThen + 1;
          case HangUp => ResetSessionState(false);
        }
      }
    }

    /** `execute_query`. */
    method ExecuteQuery(work: Work, outcome: Outcome) returns (begun: nat, sent: seq<Sent>)
      modifies this
      ensures Course(View(), begun, sent) == RunQuery(old(View()), work, outcome)
    {
      match work
      case Plain(middle) =>
        begun, sent := 0, [];
        if connected {
          sent := sent + [Work(begun)];
        }
        begun, sent := RunMiddlePart(middle, begun, sent);
        FinalizeOperation(outcome);
      case ZosSelect(sql, plan) => begun, sent := RunSelect(sql, plan, outcome);
    }

    /** A z/OS select without parameters. */
    method RunSelect(sql: string, plan: SelectPlan, outcome: Outcome) returns (begun: nat, sent: seq<Sent>)
      modifies this
      ensures Course(View(), begun, sent) == Select(old(View()), sql, plan, outcome)
    {
      hide SelectAnew, Release, RunMiddle;
      if !plan.cache.NotConsulted? && sql in zosSelectCache {
        var section := zosSelectCache[sql];
        begun, sent := 0, [];
        if plan.cache.Open? {
          if connected {
            sent := sent + [Work(begun)];
          }
          begun, sent := RunMiddlePart(plan.cache.middle, begun, sent);
          if !plan.cache.drops {
            FinalizeOperation(outcome);
            return;
          }
        }
        zosSelectCache := zosSelectCache - {sql};
        ReleasePreparedSection(section);
        if plan.cache.Open? && plan.cache.done {
          FinalizeOperation(outcome);
          return;
        }
        begun, sent := RunSelectAnew(sql, plan, begun, sent, outcome);
        return;
      }
      begun, sent := RunSelectAnew(sql, plan, 0, [], outcome);
    }

    method RunSelectAnew(sql: string, plan: SelectPlan, begun: nat, sent: seq<Sent>, outcome: Outcome)
      returns (begunThen: nat, sentThen: seq<Sent>)
      modifies this
      ensures Course(View(), begunThen, sentThen) == SelectAnew(Course(old(View()), begun, sent), sql, plan, outcome)
    {
      hide AllocateCached, Release, RunMiddle;
      var section: Option<nat> := None;
      ghost var rounds;
      if plan.cache.MayStore() && |zosSelectCache| < ZOS_SELECT_CACHE_MAX_ENTRIES {
        section, rounds := AllocateZosCachedSelectSection();
      }
      var forCache := section.Some?;
      if section.None? && plan.dedicated {
        section, rounds := AllocateZosCachedSelectSection();
      }
      sentThen := sent;
      if connected {
        sentThen := sentThen + [Work(begun)];
      }
      begunThen, sentThen := RunMiddlePart(plan.middle, begun, sentThen);
      if section.Some? && !outcome.TimesOut? {
        if outcome.Succeeds? && forCache && plan.storable {
          zosSelectCache := zosSelectCache[sql := section.value];
        } else {
          ReleasePreparedSection(section.value);
        }
      }
      FinalizeOperation(outcome);
    }

    /** RDBCMM, or RDBRLLBCK for a rollback: both end the unit of work and restore auto-commit. */
    method EndUnitOfWork(outcome: Outcome) returns (sent: bool, ok: bool)
      modifies this
      ensures sent == old(connected) && ok == (sent && outcome.Succeeds?)
      ensures View() == if ok then old(View()).(autoCommit := true) else old(View())
    {
      if !connected {
        return false, false;
      }
      ok := outcome.Succeeds?;
      if ok {
        autoCommit := true;
      }
      sent := true;
    }

    method BeginTransaction(handshake: Handshake) returns (generation: Option<nat>)
      modifies this
      ensures (generation, View()) == BeginOn(old(View()), handshake)
      ensures generation.Some? <==> connected
      ensures generation.Some? ==> generation.value == sessionGeneration && !autoCommit
    {
      var ok := ReconnectWhereNeeded(handshake);
      if !ok || !connected {
        return None;
      }
      autoCommit := false;
      return Some(sessionGeneration);
    }
  }

  class PreparedStatement {
    const client: ClientInner
    const sectionNumber: nat
    const sessionGeneration: nat
    var prepared: bool

    constructor (client: ClientInner, sectionNumber: nat, sessionGeneration: nat)
      ensures this.client == client && this.sectionNumber == sectionNumber
      ensures this.sessionGeneration == sessionGeneration && prepared
    {
      this.client, this.sectionNumber, this.sessionGeneration := client, sectionNumber, sessionGeneration;
      prepared := true;
    }

    /** `execute` and `execute_batch`: nothing is sent for a closed statement, for another
        session, or without a connection. */
    method Execute(work: StatementWork, outcome: Outcome) returns (report: Report, commits: nat)
      modifies client
      ensures report.Refused? <==>
                !prepared || old(client.sessionGeneration) != sessionGeneration || !old(client.connected)
      ensures report.Done? <==> !report.Refused? && outcome.Succeeds?
      ensures report.Refused? || !old(client.autoCommit) ==> commits == 0
      ensures !report.Refused? && old(client.autoCommit) ==>
                commits == match work
                           case Rows(cleanup, _) => if cleanup then 1 else 0
                           case Change => 1
                           case CallOrBatch(n, _) => n
                           case NotEncoded => 0
      ensures report.Refused? ==> client.View() == old(client.View())
      ensures !report.Refused? ==>
                client.connected == !(outcome.FailsFatally? || outcome.TimesOut? || HangsUp(work))
      ensures (report, commits, client.View())
              == ExecuteStatement(old(client.View()), prepared, sessionGeneration, work, outcome)
    {
      if !prepared {
        return Refused, 0;
      }
      if client.sessionGeneration != sessionGeneration {
        return Refused, 0;
      }
      if !client.connected {
        return Refused, 0;
      }
      commits := 0;
      var hangsUp := false;
      match work {
        case Rows(cleanup, hangs) =>
          if client.autoCommit && cleanup {
            commits := 1;
          }
          hangsUp := hangs;
        case Change =>
          if client.autoCommit {
            commits := 1;
          }
        case CallOrBatch(n, hangs) =>
          if client.autoCommit {
            commits := n;
          }
          hangsUp := hangs;
        case NotEncoded =>
      }
      if hangsUp {
        client.ResetSessionState(false);
      }
      client.FinalizeOperation(outcome);
      report := if outcome.Succeeds? then Done else Failed;
    }

    /** `close`, and with `prepared` still set also what `Drop` spawns. */
    method Close()
      modifies this, client
      ensures !prepared
      ensures client.View() == GiveBack(old(client.View()), sectionNumber, sessionGeneration)
    {
      prepared := false;
      if client.sessionGeneration == sessionGeneration {
        client.ReleasePreparedSection(sectionNumber);
      }
    }
  }

  class Transaction {
    const client: ClientInner
    const sessionGeneration: nat
    var committed: bool
    var rolledBack: bool

    constructor (client: ClientInner, sessionGeneration: nat)
      ensures this.client == client && this.sessionGeneration == sessionGeneration && IsActive()
    {
      this.client, this.sessionGeneration := client, sessionGeneration;
      committed, rolledBack := false, false;
    }

    predicate IsActive()
      reads this
    {
      !committed && !rolledBack
    }

    method Query(work: Work, outcome: Outcome) returns (report: Report, begun: nat, sent: seq<Sent>)
      modifies client
      ensures report.Refused? <==> !IsActive() || !MayUse(old(client.View()), sessionGeneration)
      ensures (report, Course(client.View(), begun, sent))
              == QueryThrough(old(client.View()), IsActive(), sessionGeneration, work, outcome)
    {
      hide RunQuery;
      if committed || rolledBack {
        return Refused, 0, [];
      }
      if client.sessionGeneration != sessionGeneration {
        return Refused, 0, [];
      }
      if !client.connected {
        return Refused, 0, [];
      }
      begun, sent := client.ExecuteQuery(work, outcome);
      report := if outcome.Succeeds? then Done else Failed;
    }

    method Prepare(outcome: Outcome) returns (report: Report, section: Option<nat>)
      modifies client
      ensures (report, section, client.View())
              == PrepareThrough(old(client.View()), IsActive(), sessionGeneration, outcome)
    {
      if committed || rolledBack {
        return Refused, None;
      }
      if client.sessionGeneration != sessionGeneration {
        return Refused, None;
      }
      if !client.connected {
        return Refused, None;
      }
      section := client.PrepareSection(outcome);
      report := if section.Some? then Done else Failed;
    }

    method Commit(outcome: Outcome) returns (report: Report, ghost sent: bool)
      modifies this, client
      ensures committed == (old(committed) || report.Done?) && rolledBack == old(rolledBack)
      ensures report.Refused? <==> !old(IsActive()) || old(client.sessionGeneration) != sessionGeneration
      ensures report.Refused? || (report.Failed? && sent && outcome.FailsSoftly?) ==>
                client.View() == old(client.View())
      ensures report.Done? ==> client.View() == old(client.View()).(autoCommit := true)
      ensures report.Failed? && !(sent && outcome.FailsSoftly?) ==> !client.connected && !client.closedExplicitly
      ensures sent <==> !report.Refused? && old(client.connected)
      ensures report.Done? <==>
                && old(IsActive()) && outcome.Succeeds?
                && old(client.sessionGeneration) == sessionGeneration && old(client.connected)
      ensures (report, sent, client.View())
              == EndTransaction(old(client.View()), old(IsActive()), sessionGeneration, outcome)
    {
      sent := false;
      if committed || rolledBack {
        return Refused, sent;
      }
      if client.sessionGeneration != sessionGeneration {
        return Refused, sent;
      }
      var onWire, ok := client.EndUnitOfWork(outcome);
      sent := onWire;
      if !ok {
        client.FinalizeOperation(if onWire then outcome else FailsFatally);
        return Failed, sent;
      }
      committed := true;
      return Done, sent;
    }

    method Rollback(outcome: Outcome) returns (report: Report, ghost sent: bool)
      modifies this, client
      ensures rolledBack == (old(rolledBack) || report.Done?) && committed == old(committed)
      ensures report.Refused? <==> !old(IsActive()) || old(client.sessionGeneration) != sessionGeneration
      ensures report.Refused? || (report.Failed? && sent && outcome.FailsSoftly?) ==>
                client.View() == old(client.View())
      ensures report.Done? ==> client.View() == old(client.View()).(autoCommit := true)
      ensures report.Failed? && !(sent && outcome.FailsSoftly?) ==> !client.connected && !client.closedExplicitly
      ensures sent <==> !report.Refused? && old(client.connected)
      ensures report.Done? <==>
                && old(IsActive()) && outcome.Succeeds?
                && old(client.sessionGeneration) == sessionGeneration && old(client.connected)
      ensures (report, sent, client.View())
              == EndTransaction(old(client.View()), old(IsActive()), sessionGeneration, outcome)
    {
      sent := false;
      if committed || rolledBack {
        return Refused, sent;
      }
      if client.sessionGeneration != sessionGeneration {
        return Refused, sent;
      }
      var onWire, ok := client.EndUnitOfWork(outcome);
      sent := onWire;
      if !ok {
        client.FinalizeOperation(if onWire then outcome else FailsFatally);
        return Failed, sent;
      }
      rolledBack := true;
      return Done, sent;
    }

    /** What `Drop` spawns; nothing for a finished transaction. */
    method Cleanup(outcome: Outcome) returns (rollbackSent: bool)
      modifies client
      ensures rollbackSent <==>
                && IsActive() && old(client.sessionGeneration) == sessionGeneration
                && old(client.connected) && !old(client.autoCommit)
      ensures client.View() == old(client.View()) || client.View() == old(client.View()).(autoCommit := true)
      ensures var usable := IsActive() && old(client.sessionGeneration) == sessionGeneration;
              && (usable && (!old(client.connected) || outcome.Succeeds?) ==> client.autoCommit)
              && (!usable || (rollbackSent && !outcome.Succeeds?) ==> client.View() == old(client.View()))
      ensures (rollbackSent, client.View())
              == CleanUpTransaction(old(client.View()), IsActive(), sessionGeneration, outcome)
    {
      rollbackSent := false;
      if committed || rolledBack {
        return;
      }
      if client.sessionGeneration != sessionGeneration {
        return;
      }
      if !client.connected {
        client.autoCommit := true;
        return;
      }
      if client.autoCommit {
        return;
      }
      var ok;
      rollbackSent, ok := client.EndUnitOfWork(outcome);
    }
  }

  // ---- Free sections ----

  /** The free list holds no section twice and only sections that were given out before. */
  predicate SectionsDistinct(c: Client) {
    && 1 <= c.next <= PREPARED_STATEMENT_MAX_SECTION + 1
    && (forall i | 0 <= i < |c.free| :: 1 <= c.free[i] < c.next)
    && (forall i, j | 0 <= i < j < |c.free| :: c.free[i] != c.free[j])
  }

  predicate OneTaken(c: Client) {
    c.next > 1 && 1 !in c.free
  }

  lemma AllocateDistinct(c: Client)
    requires SectionsDistinct(c)
    ensures var (section, rest) := Allocate(c);
            && SectionsDistinct(rest)
            && (section.None? <==> c.free == [] && c.next == PREPARED_STATEMENT_MAX_SECTION + 1)
            && (section.Some? ==> 1 <= section.value < rest.next && section.value !in rest.free
                                  && (section.value in c.free || section.value == c.next))
            && (section == Some(1) ==> OneTaken(rest))
            && (OneTaken(c) ==> section != Some(1) && OneTaken(rest))
  {}
}
