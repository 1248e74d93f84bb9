/** Who owns which section, over every run of a client (connection.rs, statement.rs). */
module SessionSections {
  import opened Wire
  import opened Session
  import opened SessionRuns
  import opened SessionScripts

  // ---- Sections of one client ----

  /** Sections 1 to next - 1 are exactly the free ones, those `held` by statements and those of
      cached selects, with nothing in two places and at most section 1 missing. */
  ghost predicate Tidy(c: Client, held: set<nat>) {
    && SectionsDistinct(c)
    && (forall sql | sql in c.cache :: 1 < c.cache[sql] < c.next && c.cache[sql] !in c.free && c.cache[sql] !in held)
    && (forall p, q | p in c.cache && q in c.cache && p != q :: c.cache[p] != c.cache[q])
    && (forall n | n in held :: 1 <= n < c.next && n !in c.free)
    && (forall n | 1 < n < c.next :: n in c.free || n in held || n in c.cache.Values)
  }

  lemma TidyAllocate(c: Client, held: set<nat>)
    requires Tidy(c, held)
    ensures var (section, rest) := Allocate(c);
            if section.None? then rest == c else section.value !in held && Tidy(rest, held + {section.value})
  {
    AllocateDistinct(c);
  }

  lemma {:induction false} TidyAllocateCached(c: Client, held: set<nat>)
    requires Tidy(c, held)
    ensures var (section, rest) := AllocateCached(c);
            && section != Some(ZOS_DIRECT_QUERY_SECTION)
            && if section.None? then Tidy(rest, held)
               else 1 < section.value <= PREPARED_STATEMENT_MAX_SECTION && section.value !in held
                    && Tidy(rest, held + {section.value})
    decreases Supply(c)
  {
    TidyAllocate(c, held);
    var (section, rest) := Allocate(c);
    if section == Some(ZOS_DIRECT_QUERY_SECTION) {
      TidyDiscard(rest, held);
      TidyAllocateCached(rest, held);
    }
  }

  /** Throwing section 1 away leaves everything else accounted for. */
  lemma TidyDiscard(c: Client, held: set<nat>)
    requires Tidy(c, held + {1})
    ensures Tidy(c, held)
  {}

  lemma TidyRelease(c: Client, held: set<nat>, section: nat)
    requires Tidy(c, held) && section in held
    ensures Tidy(Release(c, section), held - {section})
  {}

  lemma TidyRemember(c: Client, held: set<nat>, sql: string, section: nat)
    requires Tidy(c, held) && section in held && section > 1 && sql !in c.cache
    ensures Tidy(c.(cache := c.cache[sql := section]), held - {section})
  {
    var cache := c.cache[sql := section];
    assert cache[sql] == section && section in cache.Values;
    forall n | n in c.cache.Values
      ensures n in cache.Values
    {
      var p :| p in c.cache && c.cache[p] == n;
      assert p in cache && cache[p] == n;
    }
  }

  lemma TidyDrop(c: Client, held: set<nat>, sql: string)
    requires Tidy(c, held) && sql in c.cache
    ensures Tidy(Drop(c, sql, c.cache[sql]), held)
  {
    var section, cache := c.cache[sql], c.cache - {sql};
    forall n | n in c.cache.Values && n != section
      ensures n in cache.Values
    {
      var p :| p in c.cache && c.cache[p] == n;
      assert p in cache && cache[p] == n;
    }
    var without := c.(cache := cache);
    assert Tidy(without, held + {section});
    TidyRelease(without, held + {section}, section);
    assert held + {section} - {section} == held;
  }

  lemma TidySame(c: Client, d: Client, held: set<nat>)
    requires Tidy(c, held) && c.next == d.next && c.free == d.free && c.cache == d.cache
    ensures Tidy(d, held)
  {}

  lemma TidyFresh(c: Client)
    requires c.next == 1 && c.free == [] && c.cache == map[]
    ensures Tidy(c, {})
  {}

  lemma {:induction false} TidyPrepare(c: Client, held: set<nat>, outcome: Outcome)
    requires Tidy(c, held)
    ensures var (section, rest) := Prepare(c, outcome);
            rest.connected ==> if section.None? then Tidy(rest, held)
                               else section.value !in held && Tidy(rest, held + {section.value})
  {
    hide Tidy, Release;
    TidyAllocate(c, held);
    var (section, rest) := Allocate(c);
    if section.Some? && outcome.FailsSoftly? {
      TidyRelease(rest, held + {section.value}, section.value);
      assert held + {section.value} - {section.value} == held;
    }
  }

  /** Preparing fails for want of a section only if at least sections 2 to 385 are all in use. */
  lemma SectionsExhausted(c: Client, held: set<nat>)
    requires Tidy(c, held) && Allocate(c).0.None?
    ensures forall n | 2 <= n <= PREPARED_STATEMENT_MAX_SECTION :: n in held || n in c.cache.Values
  {}

  // ---- The course of a query ----

  /** Sections held outside are those of the session the query started in. */
  function HeldAfter(d: Course, r: Course, held: set<nat>): set<nat> {
    if r.begun == d.begun then held else {}
  }

  lemma TidyAsk(c: Client, held: set<nat>, dedicated: bool, timesOut: bool)
    requires Tidy(c, held)
    ensures var r := AskOn(c, dedicated, timesOut); r.connected ==> Tidy(r, held) && r.cache == c.cache
  {
    hide Tidy, Release, AllocateCached;
    TidyAllocateCached(c, held);
    AllocateCachedKeeps(c);
    var (section, rest) := AllocateCached(c);
    if section.Some? {
      TidyRelease(rest, held + {section.value}, section.value);
      ReleaseKeeps(rest, section.value);
      assert held + {section.value} - {section.value} == held;
    }
  }

  /** A session renewed in the middle of a query starts with no sections in use. */
  ghost predicate CourseTidy(d: Course, r: Course, held: set<nat>) {
    && r.begun >= d.begun
    && (r.client.connected ==>
          && d.client.connected && Tidy(r.client, HeldAfter(d, r, held))
          && r.client.cache == if r.begun == d.begun then d.client.cache else map[])
  }

  lemma InnerTidy(d: Course, held: set<nat>, i: Inner)
    requires Tidy(d.client, held)
    ensures CourseTidy(d, RunInner(d, i), held)
  {
    hide Tidy, AskOn;
    match i
    case Ask(dedicated, timesOut) =>
      TidyAsk(d.client, held, dedicated, timesOut);
      AskKeeps(d.client, dedicated, timesOut);
    case Renew(_) =>
      var r := RunInner(d, i).client;
      if d.client.connected && r.connected {
        TidyFresh(r);
      }
    case _ =>
  }

  lemma {:induction false} MiddleTidy(d: Course, held: set<nat>, middle: seq<Inner>)
    requires Tidy(d.client, held)
    ensures CourseTidy(d, RunMiddle(d, middle), held)
    decreases |middle|
  {
    hide Tidy, RunInner;
    if middle != [] {
      var e := RunInner(d, middle[0]);
      InnerTidy(d, held, middle[0]);
      if e.client.connected {
        MiddleTidy(e, HeldAfter(d, e, held), middle[1..]);
      } else {
        GoneIsGone(e, middle[1..]);
      }
    }
  }

  lemma {:induction false} GoneIsGone(d: Course, middle: seq<Inner>)
    requires !d.client.connected
    ensures RunMiddle(d, middle) == d
    decreases |middle|
  {
    if middle != [] {
      GoneIsGone(d, middle[1..]);
    }
  }

  lemma GoneSettles(c: Client, sql: string, section: Option<nat>, remember: bool, outcome: Outcome)
    requires !c.connected
    ensures !SettleSelect(c, sql, section, remember, outcome).connected
  {}

  lemma TidySelectSection(c: Client, held: set<nat>, plan: SelectPlan)
    requires Tidy(c, held)
    ensures var (section, forCache, rest) := SelectSection(c, plan);
            if section.None? then Tidy(rest, held)
            else 1 < section.value <= PREPARED_STATEMENT_MAX_SECTION && section.value !in held
                 && Tidy(rest, held + {section.value})
  {
    hide Tidy, AllocateCached;
    TidyAllocateCached(c, held);
    if plan.cache.MayStore() && |c.cache| < ZOS_SELECT_CACHE_MAX_ENTRIES && AllocateCached(c).0.None? {
      TidyAllocateCached(AllocateCached(c).1, held);
    }
  }

  // ---- Settling a select ----

  /** In the session the section was allocated in, remembering and releasing are both right. */
  lemma OwnSettles(m: Client, held: set<nat>, sql: string, section: nat, remember: bool, outcome: Outcome)
    requires section > 1 && section !in held && Tidy(m, held + {section}) && (remember ==> sql !in m.cache)
    ensures var r := SettleSelect(m, sql, Some(section), remember, outcome); r.connected ==> Tidy(r, held)
  {
    hide Tidy, Release;
    assert held + {section} - {section} == held;
    TidyRelease(m, held + {section}, section);
    if remember {
      TidyRemember(m, held + {section}, sql, section);
    }
  }

  /** In a renewed session, remembering the section is always wrong, and releasing it is right
      exactly if the new session has given that number out already. */
  lemma ForeignSettles(m: Client, sql: string, section: nat, remember: bool, outcome: Outcome)
    requires Tidy(m, {}) && m.cache == map[] && 1 < section <= PREPARED_STATEMENT_MAX_SECTION
    ensures var r := SettleSelect(m, sql, Some(section), remember, outcome);
            r.connected ==> (Tidy(r, {}) <==> !(outcome.Succeeds? && remember) && section < m.next)
  {
    var r := SettleSelect(m, sql, Some(section), remember, outcome);
    if r.connected {
      if outcome.Succeeds? && remember {
        assert r.cache[sql] == section;
      } else if section < m.next {
        assert section in m.free;
        assert r == m;
      } else {
        ForeignReleased(m, section);
        assert r == Release(m, section);
      }
    }
  }

  lemma ForeignReleased(m: Client, section: nat)
    requires SectionsDistinct(m) && m.next <= section <= PREPARED_STATEMENT_MAX_SECTION
    ensures Release(m, section).free == m.free + [section] && !SectionsDistinct(Release(m, section))
  {
    var r := Release(m, section);
    assert r.free[|m.free|] == section;
  }

  /** What a select that is prepared anew settles to: its section must belong to the session the
      client has by then, or be given back where its number is free anyway. */
  predicate AnewSettles(d: Course, alien: bool, plan: SelectPlan, outcome: Outcome) {
    var (section, forCache, rest) := SelectSection(d.client, plan);
    var m := RunMiddle(Send(d.(client := rest)), plan.middle);
    || section.None?
    || (!alien && m.begun == d.begun)
    || (!(outcome.Succeeds? && forCache && plan.storable) && section.value < m.client.next)
  }

  /** Whether a select gives its sections back to where they came from, read off its course. */
  predicate SettlesInPlace(c: Client, sql: string, plan: SelectPlan, outcome: Outcome) {
    if sql in c.cache && plan.cache.Open? then
      var met := RunMiddle(Send(Course(c, 0, [])), plan.cache.middle);
      var alien := met.begun > 0 && met.client.next <= c.cache[sql];
      if !plan.cache.drops then true
      else if plan.cache.done then !alien
      else AnewSettles(met.(client := Drop(met.client, sql, c.cache[sql])), alien, plan, outcome)
    else AnewSettles(Course(if plan.cache.NotConsulted? then c else Evict(c, sql), 0, []), false, plan, outcome)
  }

  lemma AnewExact(d: Course, held: set<nat>, sql: string, plan: SelectPlan, outcome: Outcome)
    requires Tidy(d.client, held) && (plan.cache.MayStore() ==> sql !in d.client.cache)
    ensures var r := SelectAnew(d, sql, plan, outcome);
            && r.begun >= d.begun
            && (r.client.connected ==>
                  (Tidy(r.client, HeldAfter(d, r, held)) <==> AnewSettles(d, false, plan, outcome)))
  {
    hide Tidy, SelectSection, RunMiddle, SettleSelect;
    var (section, forCache, rest) := SelectSection(d.client, plan);
    var start := Send(d.(client := rest));
    var m := RunMiddle(start, plan.middle);
    var remember := forCache && plan.storable;
    TidySelectSection(d.client, held, plan);
    SelectSectionKeeps(d.client, plan);
    ForCacheStores(d.client, plan);
    if section.None? {
      MiddleTidy(start, held, plan.middle);
      NoneSettles(m.client, HeldAfter(d, m, held), sql, remember, outcome);
    } else {
      MiddleTidy(start, held + {section.value}, plan.middle);
      if !m.client.connected {
        GoneSettles(m.client, sql, section, remember, outcome);
      } else if m.begun == d.begun {
        OwnSettles(m.client, held, sql, section.value, remember, outcome);
      } else {
        ForeignSettles(m.client, sql, section.value, remember, outcome);
      }
    }
  }

  lemma ForCacheStores(c: Client, plan: SelectPlan)
    ensures SelectSection(c, plan).1 ==> plan.cache.MayStore()
  {}

  lemma NoneSettles(m: Client, held: set<nat>, sql: string, remember: bool, outcome: Outcome)
    requires m.connected ==> Tidy(m, held)
    ensures var r := SettleSelect(m, sql, None, remember, outcome); r.connected ==> Tidy(r, held)
  {
    hide Tidy;
  }

  /** A section of an ended session, given back to its successor, is the first one the successor
      gives out. */
  lemma AlienAllocated(c: Client, section: nat, plan: SelectPlan)
    requires Tidy(c, {}) && c.cache == map[] && plan.cache.MayStore()
    requires c.next <= section <= PREPARED_STATEMENT_MAX_SECTION && 1 < section
    ensures SelectSection(Release(c, section), plan) == (Some(section), true, c)
  {
    hide AllocateCached;
    ForeignReleased(c, section);
    var r := Release(c, section);
    assert r.free[..|r.free| - 1] == c.free;
    assert Allocate(r) == (Some(section), c);
    AllocateAtOnce(r);
  }

  lemma AllocateAtOnce(c: Client)
    requires Allocate(c).0 != Some(ZOS_DIRECT_QUERY_SECTION)
    ensures AllocateCached(c) == Allocate(c)
  {}

  lemma AlienExact(d: Course, c: Client, section: nat, sql: string, plan: SelectPlan, outcome: Outcome)
    requires Tidy(c, {}) && c.cache == map[] && plan.cache.MayStore() && d.client == Release(c, section)
    requires c.next <= section <= PREPARED_STATEMENT_MAX_SECTION && 1 < section
    ensures var r := SelectAnew(d, sql, plan, outcome);
            && r.begun >= d.begun
            && (r.client.connected ==> (Tidy(r.client, {}) <==> AnewSettles(d, true, plan, outcome)))
  {
    hide Tidy, SelectSection, RunMiddle, SettleSelect, Release;
    AlienAllocated(c, section, plan);
    var start := Send(d.(client := c));
    var m := RunMiddle(start, plan.middle);
    MiddleTidy(start, {}, plan.middle);
    if m.client.connected {
      ForeignSettles(m.client, sql, section, plan.storable, outcome);
    } else {
      GoneSettles(m.client, sql, Some(section), plan.storable, outcome);
    }
  }

  /** Giving back the section of a dropped entry after the session was renewed. */
  lemma DropExact(c: Client, sql: string, section: nat)
    requires Tidy(c, {}) && c.cache == map[] && 1 < section <= PREPARED_STATEMENT_MAX_SECTION
    ensures Drop(c, sql, section) == Release(c, section)
    ensures Tidy(Drop(c, sql, section), {}) <==> section < c.next
    ensures section < c.next ==> Drop(c, sql, section) == c
  {
    assert c.cache - {sql} == map[];
    assert c.(cache := map[]) == c;
    if section >= c.next {
      ForeignReleased(c, section);
    } else {
      assert section in c.free;
    }
  }

  lemma SelectInPlace(c: Client, held: set<nat>, sql: string, plan: SelectPlan, outcome: Outcome)
    requires c.connected && Tidy(c, held)
    ensures var r := Select(c, sql, plan, outcome);
            r.client.connected ==>
              (Tidy(r.client, if r.begun == 0 then held else {}) <==> SettlesInPlace(c, sql, plan, outcome))
  {
    hide Tidy, RunMiddle, SelectAnew, AnewSettles, Drop, Evict;
    if sql in c.cache && plan.cache.Open? {
      HitExact(c, held, sql, plan, outcome);
    } else {
      TidyEvict(c, held, sql);
      AnewExact(Course(if plan.cache.NotConsulted? then c else Evict(c, sql), 0, []), held, sql, plan, outcome);
    }
  }

  lemma TidyEvict(c: Client, held: set<nat>, sql: string)
    requires Tidy(c, held)
    ensures Tidy(Evict(c, sql), held) && sql !in Evict(c, sql).cache
  {
    hide Tidy, Release;
    if sql in c.cache {
      TidyDrop(c, held, sql);
      ReleaseKeeps(c.(cache := c.cache - {sql}), c.cache[sql]);
    }
  }

  lemma {:induction false} HitExact(c: Client, held: set<nat>, sql: string, plan: SelectPlan, outcome: Outcome)
    requires c.connected && Tidy(c, held) && sql in c.cache && plan.cache.Open?
    ensures var r := Select(c, sql, plan, outcome);
            r.client.connected ==>
              (Tidy(r.client, if r.begun == 0 then held else {}) <==> SettlesInPlace(c, sql, plan, outcome))
  {
    hide Tidy, RunMiddle, SelectAnew, AnewSettles, Drop, Release;
    var start := Send(Course(c, 0, []));
    var met := RunMiddle(start, plan.cache.middle);
    var section := c.cache[sql];
    MiddleTidy(start, held, plan.cache.middle);
    CachedBounds(c, held, sql);
    if !met.client.connected {
      GoneSelect(met, sql, section, plan, outcome);
    } else if plan.cache.drops {
      var dropped := met.(client := Drop(met.client, sql, section));
      DropKeeps(met.client, sql, section);
      if met.begun == 0 {
        TidyDrop(met.client, held, sql);
        DropForgets(met.client, sql, section);
        AnewExact(dropped, held, sql, plan, outcome);
      } else {
        DropExact(met.client, sql, section);
        if section < met.client.next {
          AnewExact(dropped, {}, sql, plan, outcome);
        } else {
          AlienExact(dropped, met.client, section, sql, plan, outcome);
        }
      }
    }
  }

  lemma CachedBounds(c: Client, held: set<nat>, sql: string)
    requires Tidy(c, held) && sql in c.cache
    ensures 1 < c.cache[sql] <= PREPARED_STATEMENT_MAX_SECTION
  {}

  lemma DropForgets(c: Client, sql: string, section: nat)
    ensures sql !in Drop(c, sql, section).cache
  {}

  lemma GoneSelect(d: Course, sql: string, section: nat, plan: SelectPlan, outcome: Outcome)
    requires !d.client.connected
    ensures !Drop(d.client, sql, section).connected
    ensures !SelectAnew(d.(client := Drop(d.client, sql, section)), sql, plan, outcome).client.connected
  {
    hide SelectSection, RunMiddle, SettleSelect, Drop;
    DropKeeps(d.client, sql, section);
    var e := d.(client := Drop(d.client, sql, section));
    SelectSectionKeeps(e.client, plan);
    var (own, forCache, rest) := SelectSection(e.client, plan);
    GoneIsGone(Send(e.(client := rest)), plan.middle);
    GoneSettles(rest, sql, own, forCache && plan.storable, outcome);
  }

  // ---- When a select settles well ----

  /** Whether an internal query has run on a section of its own since the last renewal, or since
      the beginning if one had `before`. */
  predicate AsksDedicated(script: seq<Inner>, before: bool)
    decreases |script|
  {
    if script == [] then before
    else
      var own := script[0].Ask? && script[0].dedicated;
      AsksDedicated(script[1..], if script[0].Renew? then false else before || own)
  }

  /** In a session renewed on the way, and since then used by internal queries alone, section 2 is
      the only one that may have been given out before and be free. */
  predicate GivenOut(section: nat, script: seq<Inner>) {
    section == 2 && AsksDedicated(script, false)
  }

  /** Whether a select gives its sections back to where they came from, read off its script. Only a
      renewal makes a section foreign; a foreign section must not be remembered, and giving it back
      is harmless only if the new session has given its number out before. */
  predicate SettlesWell(c: Client, sql: string, plan: SelectPlan, outcome: Outcome) {
    if sql in c.cache && plan.cache.Open? then
      var section, opening := c.cache[sql], plan.cache.middle;
      var alien := !NoRenewal(opening) && !GivenOut(section, opening);
      var forCache := !NoRenewal(opening) || |c.cache| <= ZOS_SELECT_CACHE_MAX_ENTRIES;
      if !plan.cache.drops then true
      else if plan.cache.done then !alien
      else
        || (!forCache && !plan.dedicated)
        || (!alien && NoRenewal(plan.middle))
        || (!(outcome.Succeeds? && forCache && plan.storable) && GivenOut(section, opening + plan.middle))
    else
      var (section, forCache, rest) := SelectSection(if plan.cache.NotConsulted? then c else Evict(c, sql), plan);
      || section.None?
      || NoRenewal(plan.middle)
      || (!(outcome.Succeeds? && forCache && plan.storable) && GivenOut(section.value, plan.middle))
  }

  /** A session that only internal queries have used. */
  predicate Fresh(c: Client, dedicated: bool) {
    c.next == (if dedicated then 3 else 1) && c.free == (if dedicated then [2] else []) && c.cache == map[]
  }

  lemma FreshAsk(c: Client, before: bool, dedicated: bool)
    requires Fresh(c, before)
    ensures Fresh(AskOn(c, dedicated, false), before || dedicated)
  {
    if dedicated {
      if before {
        AllocateAtOnce(c);
      } else {
        AllocateAtOnce(Allocate(c).1);
        assert AllocateCached(c) == Allocate(Allocate(c).1);
      }
      var rest := AllocateCached(c).1;
      assert rest.free == [] && Release(rest, 2).free == [2];
    }
  }

  lemma {:induction false} MiddleFresh(d: Course, middle: seq<Inner>, before: bool)
    requires Fresh(d.client, before)
    ensures RunMiddle(d, middle).client.connected ==> Fresh(RunMiddle(d, middle).client, AsksDedicated(middle, before))
    decreases |middle|
  {
    hide AskOn, Fresh;
    if middle != [] {
      var i, e := middle[0], RunInner(d, middle[0]);
      if !e.client.connected {
        GoneIsGone(e, middle[1..]);
      } else {
        if i.Ask? {
          AskAlike(d.client, i.dedicated, i.timesOut);
          FreshAsk(d.client, before, i.dedicated);
        } else if i.Renew? {
          RenewedFresh(d.client, i.handshake);
        }
        var ded := if i.Renew? then false else before || (i.Ask? && i.dedicated);
        MiddleFresh(e, middle[1..], ded);
      }
    }
  }

  lemma RenewedFresh(c: Client, handshake: Handshake)
    requires Establish(Reset(c, false), handshake).connected
    ensures Fresh(Establish(Reset(c, false), handshake), false)
  {}

  lemma {:induction false} MiddleRenewed(d: Course, middle: seq<Inner>, before: bool)
    requires !NoRenewal(middle)
    ensures RunMiddle(d, middle).client.connected ==> Fresh(RunMiddle(d, middle).client, AsksDedicated(middle, before))
    decreases |middle|
  {
    hide AskOn, Fresh;
    var i, e := middle[0], RunInner(d, middle[0]);
    if !e.client.connected {
      GoneIsGone(e, middle[1..]);
    } else if i.Renew? {
      RenewedFresh(d.client, i.handshake);
      MiddleFresh(e, middle[1..], false);
    } else {
      assert forall x :: x in middle <==> x == i || x in middle[1..];
      MiddleRenewed(e, middle[1..], before || (i.Ask? && i.dedicated));
    }
  }

  lemma {:induction false} DedicatedAppend(a: seq<Inner>, b: seq<Inner>, before: bool)
    ensures AsksDedicated(a + b, before) == AsksDedicated(b, AsksDedicated(a, before))
    decreases |a|
  {
    if a == [] {
      assert a + b == b;
    } else {
      assert (a + b)[0] == a[0] && (a + b)[1..] == a[1..] + b;
      DedicatedAppend(a[1..], b, if a[0].Renew? then false else before || (a[0].Ask? && a[0].dedicated));
    }
  }

  /** The section freed last is the one a select gets, if it gets one. */
  lemma LastFreed(c: Client, section: nat, plan: SelectPlan)
    requires c.free != [] && c.free[|c.free| - 1] == section && section != 1 && plan.cache.MayStore()
    ensures var (own, forCache, rest) := SelectSection(c, plan);
            && forCache == (|c.cache| < ZOS_SELECT_CACHE_MAX_ENTRIES)
            && own == if forCache || plan.dedicated then Some(section) else None
  {
    AllocateAtOnce(c);
  }

  /** Whether the section of a select that is prepared anew is foreign in the end. */
  lemma AnewClosed(d: Course, alien: bool, plan: SelectPlan, outcome: Outcome, before: bool)
    requires SelectSection(d.client, plan).0.Some? ==> SelectSection(d.client, plan).0.value > 1
    requires alien ==> Fresh(SelectSection(d.client, plan).2, before)
    requires RunMiddle(Send(d.(client := SelectSection(d.client, plan).2)), plan.middle).client.connected
    ensures var (section, forCache, rest) := SelectSection(d.client, plan);
            AnewSettles(d, alien, plan, outcome)
            <==> || section.None?
                 || (!alien && NoRenewal(plan.middle))
                 || (!(outcome.Succeeds? && forCache && plan.storable)
                     && section.value == 2 && AsksDedicated(plan.middle, before))
  {
    hide SelectSection, RunMiddle, NoRenewal, AsksDedicated;
    var (section, forCache, rest) := SelectSection(d.client, plan);
    var start := Send(d.(client := rest));
    MiddleUp(start, plan.middle);
    if !NoRenewal(plan.middle) {
      MiddleRenewed(start, plan.middle, before);
    } else if alien {
      MiddleFresh(start, plan.middle, before);
    }
  }

  /** What the course says of a select that is not served from the cache, its script does. */
  lemma MissClosed(c: Client, held: set<nat>, sql: string, plan: SelectPlan, outcome: Outcome)
    requires c.connected && Tidy(c, held) && !(sql in c.cache && plan.cache.Open?)
    requires Select(c, sql, plan, outcome).client.connected
    ensures SettlesInPlace(c, sql, plan, outcome) <==> SettlesWell(c, sql, plan, outcome)
  {
    hide Tidy, SelectSection, RunMiddle, Evict, AnewSettles, SettleSelect, NoRenewal, AsksDedicated;
    var d := Course(if plan.cache.NotConsulted? then c else Evict(c, sql), 0, []);
    TidyEvict(c, held, sql);
    TidySelectSection(d.client, held, plan);
    AnewConnected(d, sql, plan, outcome);
    AnewClosed(d, false, plan, outcome, false);
  }

  lemma AnewConnected(d: Course, sql: string, plan: SelectPlan, outcome: Outcome)
    requires SelectAnew(d, sql, plan, outcome).client.connected
    ensures RunMiddle(Send(d.(client := SelectSection(d.client, plan).2)), plan.middle).client.connected
  {
    hide SelectSection, RunMiddle, SettleSelect;
    var (section, forCache, rest) := SelectSection(d.client, plan);
    var m := RunMiddle(Send(d.(client := rest)), plan.middle);
    if !m.client.connected {
      GoneSettles(m.client, sql, section, forCache && plan.storable, outcome);
    }
  }

  /** The client after a cache entry was opened and dropped: its section is the one freed last. */
  lemma DroppedLast(c: Client, held: set<nat>, sql: string, met: Course, opening: seq<Inner>)
    requires c.connected && Tidy(c, held) && sql in c.cache
    requires met == RunMiddle(Send(Course(c, 0, [])), opening) && met.client.connected
    ensures var section, dropped := c.cache[sql], Drop(met.client, sql, c.cache[sql]);
            && dropped.free != [] && dropped.free[|dropped.free| - 1] == section
            && |dropped.cache| == (if NoRenewal(opening) then |c.cache| - 1 else 0)
            && (met.begun > 0 <==> !NoRenewal(opening))
            && (!NoRenewal(opening) ==> Fresh(met.client, AsksDedicated(opening, false)) && Tidy(met.client, {}))
  {
    hide Tidy, RunMiddle, NoRenewal, AsksDedicated, Fresh, Drop;
    var start, section := Send(Course(c, 0, [])), c.cache[sql];
    MiddleUp(start, opening);
    MiddleTidy(start, held, opening);
    CachedBounds(c, held, sql);
    if NoRenewal(opening) {
      DroppedHere(met.client, held, sql);
    } else {
      MiddleRenewed(start, opening, false);
      DroppedThere(met.client, sql, section, AsksDedicated(opening, false));
    }
  }

  lemma DroppedHere(c: Client, held: set<nat>, sql: string)
    requires Tidy(c, held) && sql in c.cache
    ensures var dropped := Drop(c, sql, c.cache[sql]);
            dropped.free == c.free + [c.cache[sql]] && |dropped.cache| == |c.cache| - 1
  {
    assert c.cache.Keys == (c.cache - {sql}).Keys + {sql};
  }

  lemma DroppedThere(c: Client, sql: string, section: nat, dedicated: bool)
    requires Fresh(c, dedicated) && Tidy(c, {}) && 1 < section <= PREPARED_STATEMENT_MAX_SECTION
    ensures var dropped := Drop(c, sql, section);
            dropped.free != [] && dropped.free[|dropped.free| - 1] == section && |dropped.cache| == 0
  {
    hide Tidy;
    DropExact(c, sql, section);
  }

  lemma HitClosed(c: Client, held: set<nat>, sql: string, plan: SelectPlan, outcome: Outcome)
    requires c.connected && Tidy(c, held) && sql in c.cache && plan.cache.Open?
    requires Select(c, sql, plan, outcome).client.connected
    ensures SettlesInPlace(c, sql, plan, outcome) <==> SettlesWell(c, sql, plan, outcome)
  {
    hide Tidy, RunMiddle, SelectAnew, AnewSettles, Drop, NoRenewal, AsksDedicated, SelectSection;
    var opening, section := plan.cache.middle, c.cache[sql];
    var met := RunMiddle(Send(Course(c, 0, [])), opening);
    CachedBounds(c, held, sql);
    if !met.client.connected {
      GoneSelect(met, sql, section, plan, outcome);
    }
    DroppedLast(c, held, sql, met, opening);
    if plan.cache.drops && !plan.cache.done {
      HitAgainClosed(c, held, sql, plan, outcome, met);
    }
  }

  lemma HitAgainClosed(c: Client, held: set<nat>, sql: string, plan: SelectPlan, outcome: Outcome, met: Course)
    requires c.connected && Tidy(c, held) && sql in c.cache && plan.cache.Open? && plan.cache.drops && !plan.cache.done
    requires met == RunMiddle(Send(Course(c, 0, [])), plan.cache.middle) && met.client.connected
    requires Select(c, sql, plan, outcome).client.connected
    ensures SettlesInPlace(c, sql, plan, outcome) <==> SettlesWell(c, sql, plan, outcome)
  {
    hide Tidy, RunMiddle, SelectAnew, AnewSettles, Drop, NoRenewal, AsksDedicated, SelectSection;
    var opening, section := plan.cache.middle, c.cache[sql];
    var d := met.(client := Drop(met.client, sql, section));
    CachedBounds(c, held, sql);
    DroppedLast(c, held, sql, met, opening);
    LastFreed(d.client, section, plan);
    AnewConnected(d, sql, plan, outcome);
    var alien := met.begun > 0 && met.client.next <= section;
    var before := AsksDedicated(opening, false);
    if alien {
      DropExact(met.client, sql, section);
      FreshCache(met.client, before);
      AlienAllocated(met.client, section, plan);
    }
    AnewClosed(d, alien, plan, outcome, before);
    DedicatedAppend(opening, plan.middle, false);
  }

  lemma FreshCache(c: Client, dedicated: bool)
    requires Fresh(c, dedicated)
    ensures c.cache == map[]
  {}

  /** A select that ends connected accounts for all sections if and only if it settles well. */
  lemma SelectExact(c: Client, held: set<nat>, sql: string, plan: SelectPlan, outcome: Outcome)
    requires c.connected && Tidy(c, held)
    ensures var r := Select(c, sql, plan, outcome);
            r.client.connected ==>
              (Tidy(r.client, if r.begun == 0 then held else {}) <==> SettlesWell(c, sql, plan, outcome))
  {
    hide Tidy, Select, SettlesInPlace, SettlesWell;
    SelectInPlace(c, held, sql, plan, outcome);
    if Select(c, sql, plan, outcome).client.connected {
      if sql in c.cache && plan.cache.Open? {
        HitClosed(c, held, sql, plan, outcome);
      } else {
        MissClosed(c, held, sql, plan, outcome);
      }
    }
  }

  /** A select that does not renew the session settles well. */
  lemma QuietSettles(c: Client, sql: string, plan: SelectPlan, outcome: Outcome)
    requires NoRenewal(plan.middle) && (plan.cache.Open? ==> NoRenewal(plan.cache.middle))
    ensures SettlesWell(c, sql, plan, outcome)
  {
    hide SelectSection, Drop;
  }

  /** One that renews it, with no internal query on a section of its own after that, settles well
      if and only if it runs on the shared section. */
  lemma RenewedSettles(c: Client, sql: string, plan: SelectPlan, outcome: Outcome)
    requires !(sql in c.cache && plan.cache.Open?) && !NoRenewal(plan.middle) && !AsksDedicated(plan.middle, false)
    ensures SettlesWell(c, sql, plan, outcome)
            <==> SelectSection(if plan.cache.NotConsulted? then c else Evict(c, sql), plan).0.None?
  {
    hide SelectSection, Evict;
  }

  // ---- Owners ----

  /** Statements of the current session that still stand for their section. */
  predicate Holds(w: World, k: nat)
    requires k < |w.statements|
  {
    w.statements[k].session == w.session && !w.statements[k].state.Gone?
  }

  function Held(w: World): set<nat> {
    set k | 0 <= k < |w.statements| && Holds(w, k) :: w.statements[k].section
  }

  /** While connected, no two current users share a section and none is lost but section 1. */
  ghost predicate Owned(w: World) {
    w.client.connected ==>
      && Tidy(w.client, Held(w))
      && (forall i, k | 0 <= i < k < |w.statements| && Holds(w, i) && Holds(w, k) ::
            w.statements[i].section != w.statements[k].section)
  }

  /** The steps that break ownership: a select that does not settle well, with nothing in its
      script or outcome that ends the session. */
  predicate Misplaces(w: World, e: Event) {
    && e.Query? && e.work.ZosSelect?
    && var v := Entered(w, e.tx, e.handshake);
       && Admitted(v, e.tx) && !SettlesWell(v.client, e.work.sql, e.work.plan, e.outcome)
       && StaysUp(ScriptOf(v.client, e.work)) && KeepsSession(e.outcome)
  }

  /** Steps that touch no section. */
  lemma OwnedSame(w: World, v: World)
    requires Owned(w) && w.session == v.session && |w.statements| == |v.statements|
    requires forall k | 0 <= k < |w.statements| ::
               Holds(w, k) == Holds(v, k) && w.statements[k].section == v.statements[k].section
    requires v.client.connected ==>
               && w.client.connected && w.client.next == v.client.next
               && w.client.free == v.client.free && w.client.cache == v.client.cache
    ensures Owned(v)
  {
    hide Tidy;
    if v.client.connected {
      assert Held(w) == Held(v);
      TidySame(w.client, v.client, Held(w));
    }
  }

  /** In a later session no statement holds anything yet. */
  lemma OwnedLater(w: World, v: World)
    requires Numbered(w) && v.session > w.session && v.statements == w.statements
    ensures Held(v) == {} && (Owned(v) <==> (v.client.connected ==> Tidy(v.client, {})))
  {
    hide Tidy, GenerationOf;
    assert forall k | 0 <= k < |v.statements| :: !Holds(v, k);
  }

  lemma OwnedEstablish(w: World, handshake: Handshake)
    requires Numbered(w) && (w.client.connected ==> !handshake.FailsBefore?)
    ensures Owned(EstablishIn(w, handshake))
  {
    hide GenerationOf, Tidy;
    var v := EstablishIn(w, handshake);
    if v.client.connected {
      TidyFresh(v.client);
      OwnedLater(w, v);
    }
  }

  lemma OwnedEntered(w: World, tx: Option<nat>, handshake: Handshake)
    requires Numbered(w) && Owned(w)
    ensures Owned(Entered(w, tx, handshake))
  {
    hide Owned, EstablishIn;
    if !w.client.connected {
      OwnedEstablish(w, handshake);
    }
  }

  lemma OwnedPrepare(w: World, e: Event)
    requires Numbered(w) && Owned(w) && e.PrepareStatement?
    ensures Owned(Step(w, e))
  {
    hide Tidy, Prepare, Entered, StepPrepare, LogOf;
    OwnedEntered(w, e.tx, e.handshake);
    PrepareCourse(w, e.tx, e.handshake, e.outcome);
    var v, r := Entered(w, e.tx, e.handshake), Step(w, e);
    if Admitted(v, e.tx) && r.client.connected {
      AdmittedConnected(v, e.tx);
      TidyPrepare(v.client, Held(v), e.outcome);
      var section := Prepare(v.client, e.outcome).0;
      if section.Some? {
        assert forall k | 0 <= k < |v.statements| :: Holds(r, k) == Holds(v, k) && r.statements[k] == v.statements[k];
        assert Holds(r, |v.statements|);
        assert Held(r) == Held(v) + {section.value};
        assert forall k | 0 <= k < |v.statements| && Holds(v, k) :: v.statements[k].section in Held(v);
      } else {
        assert Held(r) == Held(v);
      }
    }
  }

  lemma OwnedRelease(w: World, k: nat, wanted: StatementState)
    requires Numbered(w) && Owned(w) && w.session <= U64_MAX && !wanted.Gone?
    ensures Owned(StepRelease(w, k, wanted))
  {
    hide Tidy, GenerationOf, Release;
    if k < |w.statements| && w.statements[k].state == wanted {
      var s, v := w.statements[k], StepRelease(w, k, wanted);
      UsableIsLive(w, s.session);
      ReleaseKeeps(w.client, s.section);
      assert forall i | 0 <= i < |w.statements| && i != k ::
               Holds(v, i) == Holds(w, i) && v.statements[i] == w.statements[i];
      assert !Holds(v, k);
      if w.client.connected {
        if s.session == w.session {
          assert Holds(w, k);
          TidyRelease(w.client, Held(w), s.section);
          HeldWithout(w, v, k);
        } else {
          assert Held(v) == Held(w);
        }
      }
    }
  }

  lemma HeldWithout(w: World, v: World, k: nat)
    requires k < |w.statements| == |v.statements| && Holds(w, k) && !Holds(v, k)
    requires forall i | 0 <= i < |w.statements| && i != k ::
               Holds(v, i) == Holds(w, i) && v.statements[i] == w.statements[i]
    requires forall i, j | 0 <= i < j < |w.statements| && Holds(w, i) && Holds(w, j) ::
               w.statements[i].section != w.statements[j].section
    ensures Held(v) == Held(w) - {w.statements[k].section}
  {}

  /** A query leaves ownership as it was exactly if the client's sections are accounted for. */
  lemma OwnedCarry(w: World, v: World, via: Option<nat>, d: Course)
    requires Numbered(w) && Owned(w) && w.client.connected && v == Carry(w, via, d)
    ensures Owned(v) <==> (d.client.connected ==> Tidy(d.client, if d.begun == 0 then Held(w) else {}))
  {
    hide Tidy, LogOf, GenerationOf;
    if d.begun == 0 {
      assert forall k | 0 <= k < |w.statements| :: Holds(v, k) == Holds(w, k);
      assert Held(v) == Held(w);
    } else {
      OwnedLater(w, v);
    }
  }

  lemma PlainTidy(c: Client, held: set<nat>, middle: seq<Inner>, outcome: Outcome)
    requires c.connected && Tidy(c, held)
    ensures var d := RunQuery(c, Plain(middle), outcome);
            d.client.connected ==> Tidy(d.client, if d.begun == 0 then held else {})
  {
    hide Tidy, RunMiddle;
    MiddleTidy(Send(Course(c, 0, [])), held, middle);
  }

  lemma OwnedQuery(w: World, e: Event)
    requires Numbered(w) && Owned(w) && e.Query?
    ensures Owned(Step(w, e)) <==> !Misplaces(w, e)
  {
    hide Tidy, RunQuery, Entered, StepQuery, LogOf, GenerationOf, SettlesWell, Select, Numbered, ScriptOf, StaysUp;
    OwnedEntered(w, e.tx, e.handshake);
    NumberedEntered(w, e.tx, e.handshake);
    QueryCourse(w, e.tx, e.handshake, e.work, e.outcome);
    var v := Entered(w, e.tx, e.handshake);
    if Admitted(v, e.tx) {
      AdmittedConnected(v, e.tx);
      var d := RunQuery(v.client, e.work, e.outcome);
      OwnedCarry(v, Step(w, e), Via(v, e.tx), d);
      UpExact(v.client, e.work, e.outcome);
      match e.work
      case Plain(middle) => PlainTidy(v.client, Held(v), middle, e.outcome);
      case ZosSelect(sql, plan) =>
        SelectExact(v.client, Held(v), sql, plan, e.outcome);
        SelectIsQuery(v.client, sql, plan, e.outcome);
    }
  }

  lemma SelectIsQuery(c: Client, sql: string, plan: SelectPlan, outcome: Outcome)
    ensures RunQuery(c, ZosSelect(sql, plan), outcome) == Select(c, sql, plan, outcome)
  {}

  lemma OwnedExecute(w: World, e: Event)
    requires Owned(w) && e.Execute?
    ensures Owned(Step(w, e))
  {
    hide Owned;
    OwnedSame(w, Step(w, e));
  }

  /** A step keeps section ownership if and only if it is no misplacing select. */
  lemma OwnedStep(w: World, e: Event)
    requires Numbered(w) && Owned(w) && w.session <= U64_MAX
    ensures Owned(Step(w, e)) <==> !Misplaces(w, e)
  {
    hide Owned, GenerationOf, EstablishIn, StepQuery, StepPrepare, StepExecute, StepRelease, StepBegin, Numbered,
         SettlesWell, ReconnectIn;
    match e
    case Connect(h) =>
      if !w.client.connected {
        var v := w.(client := w.client.(closedExplicitly := false));
        NumberedSame(w, v);
        OwnedEstablish(v, h);
      }
    case Reestablish(h) =>
      var v := w.(client := Reset(w.client, false));
      NumberedSame(w, v);
      OwnedEstablish(v, h);
    case Query(_, _, _, _) => OwnedQuery(w, e);
    case PrepareStatement(_, _, _) => OwnedPrepare(w, e);
    case Execute(_, _, _) => OwnedExecute(w, e);
    case CloseStatement(k) => OwnedRelease(w, k, Prepared);
    case ReleaseDropped(k) => OwnedRelease(w, k, DropPending);
    case Begin(h) =>
      OwnedEntered(w, None, h);
      BeginCourse(w, h);
      OwnedSame(ReconnectIn(w, h), Step(w, e));
    case _ => OwnedSame(w, Step(w, e));
  }

  // ---- Runs ----

  ghost predicate AlwaysOwned(w: World, events: seq<Event>)
    decreases |events|
  {
    Owned(w) && (events == [] || AlwaysOwned(Step(w, events[0]), events[1..]))
  }

  predicate NeverMisplaces(w: World, events: seq<Event>)
    decreases |events|
  {
    events == [] || (!Misplaces(w, events[0]) && NeverMisplaces(Step(w, events[0]), events[1..]))
  }

  lemma {:induction false} OwnedRun(w: World, events: seq<Event>)
    requires Numbered(w) && Owned(w) && Bounded(w, events)
    ensures AlwaysOwned(w, events) <==> NeverMisplaces(w, events)
    decreases |events|
  {
    hide Numbered, Owned, Step, Misplaces;
    if events != [] {
      NumberedStep(w, events[0]);
      OwnedStep(w, events[0]);
      if Owned(Step(w, events[0])) {
        OwnedRun(Step(w, events[0]), events[1..]);
      }
    }
  }

  /** Section ownership over every run: while connected, sections 1 to next - 1 are at all times
      the disjoint union of free, live-statement and cached-select sections and at most the
      discarded section 1, and no two current statements share one, if and only if no select
      gives a section to a session it did not come from. */
  lemma SectionsOverRuns(events: seq<Event>)
    requires Bounded(Initial(), events)
    ensures AlwaysOwned(Initial(), events) <==> NeverMisplaces(Initial(), events)
  {
    OwnedRun(Initial(), events);
  }

  const RETRY_PLAN := SelectPlan(DropFirst, false, [Renew(Established), Ask(false, false)], false)

  /** A select for the cache whose cursor fails to decode, as the first thing in a session. */
  lemma RetryReleases(c: Client)
    requires c.connected && Fresh(c, false)
    ensures var d := Select(c, "SELECT 1", RETRY_PLAN, Succeeds);
            d.begun == 1 && d.client == Establish(Reset(c, false), Established).(free := [2])
  {
    hide RunMiddle, Establish, AllocateCached;
    assert Evict(c, "SELECT 1") == c;
    var rest := c.(next := 3);
    FreshSection(c);
    var start := Send(Course(rest, 0, []));
    RetryMiddle(start);
    var m := Establish(Reset(rest, false), Established);
    EstablishedFresh(rest);
    assert Reset(rest, false) == Reset(c, false);
    assert Release(m, 2) == m.(free := [2]);
  }

  lemma EstablishedFresh(c: Client)
    ensures var r := Establish(Reset(c, false), Established); r.connected && Fresh(r, false)
  {}

  lemma FreshSection(c: Client)
    requires Fresh(c, false)
    ensures AllocateCached(c) == (Some(2), c.(next := 3))
  {
    AllocateAtOnce(Allocate(c).1);
    assert AllocateCached(c) == AllocateCached(Allocate(c).1);
  }

  lemma RetryMiddle(d: Course)
    requires d.client.connected
    ensures var r := RunMiddle(d, RETRY_PLAN.middle);
            r.begun == d.begun + 1 && r.client == Establish(Reset(d.client, false), Established)
  {
    hide AllocateCached;
    var m, rest := RunInner(d, Renew(Established)), [Ask(false, false)];
    assert RETRY_PLAN.middle[1..] == rest && rest[1..] == [];
    assert RunMiddle(m, rest) == RunMiddle(RunInner(m, rest[0]), rest[1..]);
    assert RunMiddle(RunInner(m, rest[0]), []) == RunInner(m, rest[0]);
  }

  /** The allocator then gives section 2 out, section 1, and section 2 again. */
  lemma TwiceGiven(c: Client)
    requires c.connected && c.next == 1 && c.free == [2]
    ensures !SectionsDistinct(c)
    ensures var (first, r1) := Prepare(c, Succeeds);
            var (second, r2) := Prepare(r1, Succeeds);
            var (third, r3) := Prepare(r2, Succeeds);
            first == Some(2) && second == Some(1) && third == Some(2)
  {
    assert c.free[0] == 2;
    var r1, r2 := Prepare(c, Succeeds).1, Prepare(Prepare(c, Succeeds).1, Succeeds).1;
    assert r1 == c.(free := []) && r2 == r1.(next := 2);
  }

  /** Such a select breaks the allocator: a z/OS select whose cursor fails to decode is run again
      in a new session, and then that session gives out the same section twice. */
  lemma LobRetryBreaks()
    ensures var e := Query(None, Established, ZosSelect("SELECT 1", RETRY_PLAN), Succeeds);
            var w := Run(Initial(), [Connect(Established), e]);
            var r := w.client;
            && r.connected && w.session == 2 && !SectionsDistinct(r)
            && var (first, r1) := Prepare(r, Succeeds);
               var (second, r2) := Prepare(r1, Succeeds);
               var (third, r3) := Prepare(r2, Succeeds);
               first == Some(2) && second == Some(1) && third == Some(2)
  {
    hide Select, LogOf, Prepare, SectionsDistinct;
    var e := Query(None, Established, ZosSelect("SELECT 1", RETRY_PLAN), Succeeds);
    var v := Step(Initial(), Connect(Established));
    RunTwo(Initial(), Connect(Established), e);
    RetryReleases(v.client);
    EstablishedFresh(v.client);
    TwiceGiven(Step(v, e).client);
  }

  lemma RunTwo(w: World, first: Event, second: Event)
    ensures Run(w, [first, second]) == Step(Step(w, first), second)
  {
    hide Step;
    assert [first, second][1..] == [second] && [second][1..] == [];
    assert Run(Step(w, first), [second]) == Run(Step(Step(w, first), second), []);
  }
}
