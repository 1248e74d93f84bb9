/** What the script of a query says about its course: whether the session is still up at the end,
    and which requests go to a session begun on the way (connection.rs). */
module SessionScripts {
  import opened Wire
  import opened Session
  import opened SessionRuns

  /** What happens in a query after its first request. Dropping a cache entry and beginning anew
      is one more request. */
  function ScriptOf(c: Client, work: Work): seq<Inner> {
    match work
    case Plain(middle) => middle
    case ZosSelect(sql, plan) =>
      if !(sql in c.cache && plan.cache.Open?) then plan.middle
      else if plan.cache.drops && !plan.cache.done then plan.cache.middle + [Ask(false, false)] + plan.middle
      else plan.cache.middle
  }

  predicate EndsSession(i: Inner) {
    i.HangUp? || (i.Ask? && i.timesOut) || (i.Renew? && !i.handshake.Established?)
  }

  predicate StaysUp(script: seq<Inner>) {
    forall i | i in script :: !EndsSession(i)
  }

  predicate KeepsSession(outcome: Outcome) {
    outcome.Succeeds? || outcome.FailsSoftly?
  }

  /** Whether a request goes out after the session was renewed: an RDBCMM always does then, since
      a new session starts in auto-commit. */
  predicate SendsAfterRenewal(script: seq<Inner>, renewed: bool)
    decreases |script|
  {
    if script == [] then false
    else
      match script[0]
      case Ask(_, timesOut) => renewed || (!timesOut && SendsAfterRenewal(script[1..], renewed))
      case CommitWork => renewed || SendsAfterRenewal(script[1..], renewed)
      case Renew(handshake) => handshake.Established? && SendsAfterRenewal(script[1..], true)
      case HangUp => false
  }

  /** Whether an RDBCMM is due before the session is renewed or ends. */
  predicate CommitsEarly(script: seq<Inner>)
    decreases |script|
  {
    if script == [] then false
    else
      match script[0]
      case Ask(_, timesOut) => !timesOut && CommitsEarly(script[1..])
      case CommitWork => true
      case Renew(_) => false
      case HangUp => false
  }

  // ---- The course of a script ----

  lemma {:induction false} MiddleAppend(d: Course, a: seq<Inner>, b: seq<Inner>)
    ensures RunMiddle(d, a + b) == RunMiddle(RunMiddle(d, a), b)
    decreases |a|
  {
    hide RunInner;
    if a == [] {
      assert a + b == b;
    } else {
      assert (a + b)[0] == a[0] && (a + b)[1..] == a[1..] + b;
      MiddleAppend(RunInner(d, a[0]), a[1..], b);
    }
  }

  lemma AskSends(d: Course, middle: seq<Inner>)
    ensures RunMiddle(d, [Ask(false, false)] + middle) == RunMiddle(Send(d), middle)
  {
    hide AllocateCached;
    var script := [Ask(false, false)] + middle;
    assert script[0] == Ask(false, false) && script[1..] == middle;
    assert RunInner(d, script[0]) == Send(d);
  }

  /** Courses that differ only in their sections. */
  predicate Alike(d: Course, e: Course) {
    && d.begun == e.begun && d.sent == e.sent
    && d.client.connected == e.client.connected && d.client.autoCommit == e.client.autoCommit
  }

  lemma {:induction false} AskAlike(c: Client, dedicated: bool, timesOut: bool)
    ensures var r := AskOn(c, dedicated, timesOut);
            && r.connected == (c.connected && !timesOut)
            && r.autoCommit == (c.autoCommit || timesOut)
  {
    hide AllocateCached, Release;
    AllocateCachedKeeps(c);
    var (section, rest) := AllocateCached(c);
    ReleaseKeeps(rest, if section.Some? then section.value else 0);
  }

  lemma InnerAlike(d: Course, e: Course, i: Inner)
    requires Alike(d, e)
    ensures Alike(RunInner(d, i), RunInner(e, i))
  {
    hide AskOn;
    if i.Ask? {
      AskAlike(d.client, i.dedicated, i.timesOut);
      AskAlike(e.client, i.dedicated, i.timesOut);
    }
  }

  lemma {:induction false} MiddleAlike(d: Course, e: Course, middle: seq<Inner>)
    requires Alike(d, e)
    ensures Alike(RunMiddle(d, middle), RunMiddle(e, middle))
    decreases |middle|
  {
    hide RunInner;
    if middle != [] {
      InnerAlike(d, e, middle[0]);
      MiddleAlike(RunInner(d, middle[0]), RunInner(e, middle[0]), middle[1..]);
    }
  }

  /** A query runs its script, whatever becomes of its sections. */
  ghost predicate Follows(d: Course, t: Course, outcome: Outcome) {
    && d.begun == t.begun && d.sent == t.sent
    && (d.client.connected <==> t.client.connected && KeepsSession(outcome))
  }

  lemma FinalizeFollows(d: Course, t: Course, outcome: Outcome)
    requires Alike(d, t)
    ensures Follows(d.(client := Finalize(d.client, outcome)), t, outcome)
  {}

  lemma AnewFollows(d: Course, t: Course, sql: string, plan: SelectPlan, outcome: Outcome)
    requires Alike(d, t)
    ensures Follows(SelectAnew(d, sql, plan, outcome), RunMiddle(t, [Ask(false, false)] + plan.middle), outcome)
  {
    hide RunMiddle, SelectSection, Release;
    SelectSectionKeeps(d.client, plan);
    var (section, forCache, rest) := SelectSection(d.client, plan);
    var start := Send(d.(client := rest));
    AskSends(t, plan.middle);
    MiddleAlike(start, Send(t), plan.middle);
    var m := RunMiddle(start, plan.middle);
    ReleaseKeeps(m.client, if section.Some? then section.value else 0);
  }

  /** The course of the script of a query, first request included. */
  function Traced(c: Client, work: Work): Course {
    RunMiddle(Send(Course(c, 0, [])), ScriptOf(c, work))
  }

  lemma QueryFollows(c: Client, work: Work, outcome: Outcome)
    ensures Follows(RunQuery(c, work, outcome), Traced(c, work), outcome)
  {
    hide RunMiddle, SelectAnew, Drop, Follows;
    var start := Course(c, 0, []);
    match work
    case Plain(middle) => FinalizeFollows(Traced(c, work), Traced(c, work), outcome);
    case ZosSelect(sql, plan) =>
      if sql in c.cache && plan.cache.Open? {
        HitFollows(c, sql, plan, outcome);
      } else {
        var d := start.(client := if plan.cache.NotConsulted? then c else Evict(c, sql));
        if sql in c.cache {
          DropKeeps(c, sql, c.cache[sql]);
        }
        AskSends(start, plan.middle);
        AnewFollows(d, start, sql, plan, outcome);
      }
  }

  lemma HitFollows(c: Client, sql: string, plan: SelectPlan, outcome: Outcome)
    requires sql in c.cache && plan.cache.Open?
    ensures Follows(Select(c, sql, plan, outcome), Traced(c, ZosSelect(sql, plan)), outcome)
  {
    hide RunMiddle, SelectAnew, Drop, Follows;
    var met := RunMiddle(Send(Course(c, 0, [])), plan.cache.middle);
    if !plan.cache.drops {
      FinalizeFollows(met, met, outcome);
    } else {
      var dropped := met.(client := Drop(met.client, sql, c.cache[sql]));
      DropKeeps(met.client, sql, c.cache[sql]);
      if plan.cache.done {
        FinalizeFollows(dropped, met, outcome);
      } else {
        AnewFollows(dropped, met, sql, plan, outcome);
        var more := [Ask(false, false)] + plan.middle;
        MiddleAppend(Send(Course(c, 0, [])), plan.cache.middle, more);
        assert plan.cache.middle + [Ask(false, false)] + plan.middle == plan.cache.middle + more;
      }
    }
  }

  // ---- What the script says ----

  lemma InnerUp(d: Course, i: Inner)
    ensures var r := RunInner(d, i);
            && r.begun >= d.begun
            && (r.client.connected <==> d.client.connected && !EndsSession(i))
            && (r.client.connected ==> (r.begun == d.begun <==> !i.Renew?))
  {
    hide AskOn;
    if i.Ask? {
      AskAlike(d.client, i.dedicated, i.timesOut);
    }
  }

  /** The session is up at the end exactly if nothing in the script ends it, and it is the one
      the script began with exactly if nothing renews it. */
  lemma {:induction false} MiddleUp(d: Course, middle: seq<Inner>)
    ensures var r := RunMiddle(d, middle);
            && r.begun >= d.begun
            && (r.client.connected <==> d.client.connected && StaysUp(middle))
            && (r.client.connected ==> (r.begun == d.begun <==> NoRenewal(middle)))
    decreases |middle|
  {
    hide RunInner;
    if middle != [] {
      InnerUp(d, middle[0]);
      MiddleUp(RunInner(d, middle[0]), middle[1..]);
      assert forall i :: i in middle <==> i == middle[0] || i in middle[1..];
    }
  }

  ghost predicate SentLater(d: Course) {
    exists s :: s in d.sent && s.after > 0
  }

  /** A session begun on the way is in auto-commit. */
  predicate FreshStart(d: Course) {
    d.begun > 0 && d.client.connected ==> d.client.autoCommit
  }

  lemma InnerSends(d: Course, i: Inner)
    requires FreshStart(d)
    ensures var r := RunInner(d, i);
            && FreshStart(r)
            && (SentLater(r) <==> SentLater(d) || (d.client.connected && d.begun > 0 && (i.Ask? || i.CommitWork?)))
  {
    hide AskOn;
    var r := RunInner(d, i);
    if i.Ask? {
      AskAlike(d.client, i.dedicated, i.timesOut);
    }
    if r.sent != d.sent {
      var last := r.sent[|d.sent|];
      assert r.sent == d.sent + [last] && last.after == d.begun;
      assert forall s :: s in r.sent <==> s in d.sent || s == last;
    }
  }

  lemma {:induction false} MiddleSends(d: Course, middle: seq<Inner>)
    requires FreshStart(d)
    ensures SentLater(RunMiddle(d, middle))
            <==> SentLater(d) || (d.client.connected && SendsAfterRenewal(middle, d.begun > 0))
    decreases |middle|
  {
    hide RunInner, SentLater, FreshStart;
    if middle != [] {
      InnerSends(d, middle[0]);
      InnerUp(d, middle[0]);
      MiddleSends(RunInner(d, middle[0]), middle[1..]);
    }
  }

  lemma InnerCommits(d: Course, i: Inner)
    ensures var r := RunInner(d, i);
            && (CommitOfWork(0) in r.sent <==>
                  || CommitOfWork(0) in d.sent
                  || (d.client.connected && d.begun == 0 && d.client.autoCommit && i.CommitWork?))
            && (r.client.connected && r.begun == d.begun ==> r.client.autoCommit == d.client.autoCommit)
  {
    hide AskOn;
    if i.Ask? {
      AskAlike(d.client, i.dedicated, i.timesOut);
    }
  }

  lemma {:induction false} MiddleCommits(d: Course, middle: seq<Inner>)
    ensures CommitOfWork(0) in RunMiddle(d, middle).sent
            <==> CommitOfWork(0) in d.sent
                 || (d.client.connected && d.begun == 0 && d.client.autoCommit && CommitsEarly(middle))
    decreases |middle|
  {
    hide RunInner;
    if middle != [] {
      InnerCommits(d, middle[0]);
      InnerUp(d, middle[0]);
      MiddleCommits(RunInner(d, middle[0]), middle[1..]);
    }
  }

  /** Requests of a query reach a session begun in it exactly if its script asks for any after
      renewing the session. */
  lemma SendsLaterExact(c: Client, work: Work, outcome: Outcome)
    requires c.connected
    ensures SentLater(RunQuery(c, work, outcome)) <==> SendsAfterRenewal(ScriptOf(c, work), false)
  {
    hide RunQuery, RunMiddle, ScriptOf;
    QueryFollows(c, work, outcome);
    var start := Send(Course(c, 0, []));
    assert start.sent == [Work(0)];
    MiddleSends(start, ScriptOf(c, work));
  }

  /** A query commits in the session it starts in exactly if that is in auto-commit and its
      script has an RDBCMM before it renews or ends the session. */
  lemma CommitsEarlyExact(c: Client, work: Work, outcome: Outcome)
    requires c.connected
    ensures CommitOfWork(0) in RunQuery(c, work, outcome).sent <==> c.autoCommit && CommitsEarly(ScriptOf(c, work))
  {
    hide RunQuery, RunMiddle, ScriptOf;
    QueryFollows(c, work, outcome);
    MiddleCommits(Send(Course(c, 0, [])), ScriptOf(c, work));
  }

  /** The session is up after a query exactly if neither its script nor its outcome ends it. */
  lemma UpExact(c: Client, work: Work, outcome: Outcome)
    requires c.connected
    ensures RunQuery(c, work, outcome).client.connected <==> StaysUp(ScriptOf(c, work)) && KeepsSession(outcome)
  {
    hide RunQuery, RunMiddle, ScriptOf;
    QueryFollows(c, work, outcome);
    MiddleUp(Send(Course(c, 0, [])), ScriptOf(c, work));
  }
}
