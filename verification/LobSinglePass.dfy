/** Exactly what the single-pass materialisation of z/OS LOBs returns (connection.rs). */
module LobSinglePass {
  import opened Arithmetic
  import opened Wire
  import opened LobChunks
  import opened LobPaths

  /** The text from character position `from` on, counting from 0. */
  function From(text: Text, from: nat): Text {
    if from <= |text| then text[from..] else ""
  }

  /** The text up to character position `to`. */
  function UpTo(text: Text, to: nat): Text {
    if to <= |text| then text[..to] else text
  }

  /** How many initial chunks a column gets. */
  function Count(specs: seq<Spec>, c: nat): nat {
    if specs == [] then 0 else (if specs[0].column == c then 1 else 0) + Count(specs[1..], c)
  }

  /** The column's specs in `specs` are its full chunks from number `first` on, in order. */
  ghost predicate FullRun(columns: seq<ColumnKind>, c: nat, first: Position, specs: seq<Spec>)
    requires c < |columns|
  {
    && (forall s | s in specs && s.column == c ::
          first <= s.number < first + Count(specs, c) && s == FullSpec(columns, c, s.number))
    && (forall i: Position | first <= i < first + Count(specs, c) :: FullSpec(columns, c, i) in specs)
  }

  lemma FullRunNext(columns: seq<ColumnKind>, c: nat, first: Position, spec: Spec, rest: seq<Spec>)
    requires c < |columns|
    requires if spec.column == c then spec == FullSpec(columns, c, first) && FullRun(columns, c, first + 1, rest)
             else FullRun(columns, c, first, rest)
    ensures FullRun(columns, c, first, [spec] + rest)
    ensures Count([spec] + rest, c) == (if spec.column == c then 1 else 0) + Count(rest, c)
  {}

  /** The next chunk number of lob j when it is lob `index`'s turn in round `number`. */
  function FirstOf(number: Position, index: nat, j: nat): Position {
    if index <= j then number else number + 1
  }

  lemma LobsDistinct(columns: seq<ColumnKind>, lobs: seq<nat>, index: nat, j: nat)
    requires AreLobs(columns, lobs) && index < |lobs| && j < |lobs|
    ensures lobs[index] < |columns| && lobs[j] < |columns| && (lobs[index] == lobs[j] <==> index == j)
  {}

  /** The initial chunks of one column: a run of full chunks, each column's turn coming once a
      round. */
  lemma {:induction false} InitialRun(columns: seq<ColumnKind>, lobs: seq<nat>, tuning: Tuning,
                                      number: Position, index: nat, bytes: nat, j: nat)
    requires AreLobs(columns, lobs) && index < |lobs| && j < |lobs|
    ensures FullRun(columns, lobs[j], FirstOf(number, index, j),
                    InitialFrom(columns, lobs, tuning, number, index, bytes))
    decreases Slack(tuning, bytes)
  {
    hide InitialFrom, Offset, AreLobs, Slack;
    LobsDistinct(columns, lobs, index, j);
    InitialTurn(columns, lobs, tuning, number, index, bytes);
    var number', index' := NextTurn(lobs, number, index).0, NextTurn(lobs, number, index).1;
    var bytes' := bytes + SpecBytes(columns, FullSpec(columns, lobs[index], number));
    if Slack(tuning, bytes') < Slack(tuning, bytes) && InitialFrom(columns, lobs, tuning, number, index, bytes) != [] {
      InitialRun(columns, lobs, tuning, number', index', bytes', j);
      hide FullRun;
      FullRunNext(columns, lobs[j], FirstOf(number, index, j), FullSpec(columns, lobs[index], number),
                  InitialFrom(columns, lobs, tuning, number', index', bytes'));
    }
  }

  lemma {:induction false} InitialFits(columns: seq<ColumnKind>, lobs: seq<nat>, tuning: Tuning,
                                       number: Position, index: nat, bytes: nat)
    requires AreLobs(columns, lobs) && index < |lobs|
    ensures SpecsFit(InitialFrom(columns, lobs, tuning, number, index, bytes), |columns|)
    decreases Slack(tuning, bytes)
  {
    var specBytes := SpecBytes(columns, FullSpec(columns, lobs[index], number));
    if bytes == 0 || CanAccept(tuning, bytes, specBytes) {
      if index + 1 < |lobs| {
        InitialFits(columns, lobs, tuning, number, index + 1, bytes + specBytes);
      } else {
        InitialFits(columns, lobs, tuning, number + 1, 0, bytes + specBytes);
      }
    }
  }

  lemma InitialOfColumn(columns: seq<ColumnKind>, tuning: Tuning, c: nat, text: Text)
    requires c < |columns| && columns[c].IsLob()
    ensures FullRun(columns, c, 1, InitialSpecs(columns, tuning))
    ensures Covers(text, columns, c, 1, InitialSpecs(columns, tuning))
    ensures SpecsFit(InitialSpecs(columns, tuning), |columns|)
  {
    var lobs := LobIndices(columns, |columns|);
    LobIndicesAre(columns, |columns|);
    var j :| 0 <= j < |lobs| && lobs[j] == c;
    InitialRun(columns, lobs, tuning, 1, 0, 0, j);
    InitialPieces(columns, lobs, tuning, 1, 0, 0, j, text);
    InitialFits(columns, lobs, tuning, 1, 0, 0);
  }

  /** The characters from position `from` to `to`, as far as the text goes. */
  function Between(text: Text, from: nat, to: nat): Text
    requires from <= to
  {
    UpTo(From(text, from), to - from)
  }

  lemma BetweenJoin(text: Text, a: nat, b: nat, c: nat)
    requires a <= b <= c
    ensures Between(text, a, b) + Between(text, b, c) == Between(text, a, c)
  {}

  /** The column's chunks in `specs` cover the text from chunk `first` on without gap or overlap. */
  ghost predicate Covers(text: Text, columns: seq<ColumnKind>, c: nat, first: Position, specs: seq<Spec>)
    requires c < |columns|
  {
    var limit := columns[c].ChunkLimit();
    var from, to := Offset(first - 1, limit), Offset(first - 1 + Count(specs, c), limit);
    from <= to && Pieces(text, c, specs) == Between(text, from, to)
  }

  lemma OffsetNext(n: nat, limit: nat)
    ensures Offset(n + 1, limit) == Offset(n, limit) + limit
  {}

  lemma CoversNext(text: Text, columns: seq<ColumnKind>, c: nat, first: Position, spec: Spec, rest: seq<Spec>)
    requires c < |columns|
    requires if spec.column == c then spec == FullSpec(columns, c, first) && Covers(text, columns, c, first + 1, rest)
             else Covers(text, columns, c, first, rest)
    ensures Covers(text, columns, c, first, [spec] + rest)
  {
    hide Offset, Pieces, PieceOf, Between, FullSpec;
    var limit, n := columns[c].ChunkLimit(), Count(rest, c);
    CountHead(c, spec, rest);
    PiecesHead(text, c, spec, rest);
    hide Count;
    if spec.column == c {
      FullPiece(columns, c, first, text);
      BetweenJoin(text, Offset(first - 1, limit), Offset(first, limit), Offset(first + n, limit));
      assert first - 1 + (1 + n) == first + n;
    }
  }

  lemma CountHead(c: nat, spec: Spec, rest: seq<Spec>)
    ensures Count([spec] + rest, c) == (if spec.column == c then 1 else 0) + Count(rest, c)
  {}

  lemma CoversNothing(text: Text, columns: seq<ColumnKind>, c: nat, first: Position)
    requires c < |columns|
    ensures Covers(text, columns, c, first, [])
  {}

  lemma {:induction false} InitialPieces(columns: seq<ColumnKind>, lobs: seq<nat>, tuning: Tuning,
                                         number: Position, index: nat, bytes: nat, j: nat, text: Text)
    requires AreLobs(columns, lobs) && index < |lobs| && j < |lobs|
    ensures Covers(text, columns, lobs[j], FirstOf(number, index, j),
                   InitialFrom(columns, lobs, tuning, number, index, bytes))
    decreases Slack(tuning, bytes)
  {
    hide InitialFrom, Offset, AreLobs, Slack, Covers;
    LobsDistinct(columns, lobs, index, j);
    InitialTurn(columns, lobs, tuning, number, index, bytes);
    CoversNothing(text, columns, lobs[j], FirstOf(number, index, j));
    var number', index' := NextTurn(lobs, number, index).0, NextTurn(lobs, number, index).1;
    var bytes' := bytes + SpecBytes(columns, FullSpec(columns, lobs[index], number));
    if Slack(tuning, bytes') < Slack(tuning, bytes) && InitialFrom(columns, lobs, tuning, number, index, bytes) != [] {
      InitialPieces(columns, lobs, tuning, number', index', bytes', j, text);
      CoversNext(text, columns, lobs[j], FirstOf(number, index, j), FullSpec(columns, lobs[index], number),
                 InitialFrom(columns, lobs, tuning, number', index', bytes'));
    }
  }

  lemma PiecesHead(text: Text, c: nat, spec: Spec, rest: seq<Spec>)
    ensures Pieces(text, c, [spec] + rest)
         == (if spec.column == c then PieceOf(text, spec) else "") + Pieces(text, c, rest)
  {}

  lemma FullPiece(columns: seq<ColumnKind>, c: nat, number: Position, text: Text)
    requires c < |columns|
    ensures var limit := columns[c].ChunkLimit();
            Offset(number, limit) == Offset(number - 1, limit) + limit
            && PieceOf(text, FullSpec(columns, c, number))
               == Between(text, Offset(number - 1, limit), Offset(number, limit))
  {}

  // ---- Single pass: what is fetched a second time ----

  /** How many of the `max` characters lie in full chunks. */
  function InFullChunks(max: nat, limit: nat): nat
    requires limit > 0
  {
    max - max % limit
  }

  /** Where the remaining chunks start that are fetched for a column of maximum length `max`
      whose first `have` chunks came with the initial query: behind those, or else at the last
      chunk if that is a short one, since its spec then differs from the full one fetched first. */
  function SecondFetchFrom(have: nat, max: nat, limit: nat): nat
    requires limit > 0
  {
    if max > Offset(have, limit) then Offset(have, limit) else InFullChunks(max, limit)
  }

  lemma {:induction false} WithoutAppend(a: seq<Spec>, b: seq<Spec>, had: seq<Spec>)
    ensures Without(a + b, had) == Without(a, had) + Without(b, had)
  {
    if a == [] {
      assert a + b == b;
    } else {
      assert (a + b)[1..] == a[1..] + b;
      WithoutAppend(a[1..], b, had);
    }
  }

  lemma {:induction false} WithoutFits(specs: seq<Spec>, had: seq<Spec>, columns: nat)
    requires SpecsFit(specs, columns)
    ensures SpecsFit(Without(specs, had), columns)
    ensures forall s | s in Without(specs, had) :: s in specs
  {
    if specs != [] {
      WithoutFits(specs[1..], had, columns);
    }
  }

  lemma InRun(columns: seq<ColumnKind>, c: nat, number: Position, len: nat, had: seq<Spec>)
    requires c < |columns| && FullRun(columns, c, 1, had)
    ensures var limit := columns[c].ChunkLimit();
            Spec(c, number, Offset(number - 1, limit) + 1, len) in had <==> number <= Count(had, c) && len == limit
  {
    var limit := columns[c].ChunkLimit();
    var spec, full := Spec(c, number, Offset(number - 1, limit) + 1, len), FullSpec(columns, c, number);
    assert full.len == limit && (len == limit ==> full == spec);
    if number <= Count(had, c) {
      assert full in had;
    }
  }

  lemma PieceThenRest(text: Text, spec: Spec)
    ensures PieceOf(text, spec) + From(text, spec.start - 1 + spec.len) == From(text, spec.start - 1)
  {}

  /** The column's chunks that remain after the initial query. */
  lemma {:induction false} RemainingPieces(columns: seq<ColumnKind>, c: nat, text: Text, number: Position, at: nat,
                                           max: nat, had: seq<Spec>)
    requires c < |columns| && |text| <= max && FullRun(columns, c, 1, had)
    requires at == Offset(number - 1, columns[c].ChunkLimit())
    ensures var limit := columns[c].ChunkLimit();
            var from := SecondFetchFrom(Count(had, c), max, limit);
            Pieces(text, c, Without(Chunks(c, number, at + 1, max, limit), had))
            == From(text, if at > from then at else from)
    decreases max - at
  {
    hide FullRun, Offset, SecondFetchFrom, PieceOf, Pieces, Without, Chunks, Count, From;
    var limit := columns[c].ChunkLimit();
    OffsetNext(number - 1, limit);
    ChunkBounds(number, Count(had, c), max, limit);
    ChunksStep(c, number, at, max, limit);
    NothingRemains(text, c, had);
    FromEnd(text, max);
    if at < max {
      var len := if limit <= max - at then limit else max - at;
      var spec, rest := Spec(c, number, at + 1, len), Chunks(c, number + 1, at + 1 + len, max, limit);
      InRun(columns, c, number, len, had);
      FirstPiece(text, c, spec, rest, had);
      PieceThenRest(text, spec);
      if len == limit {
        RemainingPieces(columns, c, text, number + 1, at + limit, max, had);
      } else {
        ChunksStep(c, number + 1, at + len, max, limit);
      }
    }
  }

  lemma FromEnd(text: Text, max: nat)
    requires |text| <= max
    ensures forall from | from >= max :: From(text, from) == ""
    ensures forall t: Text :: "" + t == t
  {}

  lemma NothingRemains(text: Text, c: nat, had: seq<Spec>)
    ensures Pieces(text, c, Without([], had)) == ""
  {}

  lemma FirstPiece(text: Text, c: nat, spec: Spec, rest: seq<Spec>, had: seq<Spec>)
    requires spec.column == c
    ensures Pieces(text, c, Without([spec] + rest, had))
         == (if spec in had then "" else PieceOf(text, spec)) + Pieces(text, c, Without(rest, had))
  {}

  /** How the position of a chunk compares with where the second fetch starts. */
  lemma ChunkBounds(number: Position, have: nat, max: nat, limit: nat)
    requires limit > 0
    ensures var at, from := Offset(number - 1, limit), SecondFetchFrom(have, max, limit);
            && from <= max
            && (number > have && at < max ==> from <= at)
            && (number <= have && at + limit <= max ==> from >= at + limit)
            && (number <= have && at < max < at + limit ==> from == at)
  {
    var at := (number - 1) * limit;
    if number > have {
      assert have * limit <= at by {
        MulMonotone(have, number - 1, limit);
      }
    } else {
      MulMonotone(number, have, limit);
      assert number * limit == at + limit;
      FloorBounds(number - 1, max, limit);
    }
  }

  lemma FloorBounds(n: nat, max: nat, limit: nat)
    requires limit > 0
    ensures n * limit + limit <= max ==> InFullChunks(max, limit) >= n * limit + limit
    ensures n * limit <= max < n * limit + limit ==> InFullChunks(max, limit) == n * limit
  {
    var q := max / limit;
    assert InFullChunks(max, limit) == q * limit;
    if n * limit + limit <= max {
      if q < n + 1 {
        MulMonotone(q, n, limit);
      } else {
        MulMonotone(n + 1, q, limit);
      }
    } else if n * limit <= max {
      if q < n {
        MulMonotone(q + 1, n, limit);
      } else if q > n {
        MulMonotone(n + 1, q, limit);
      }
    }
  }

  lemma RemainingSplit(columns: seq<ColumnKind>, table: Table, text: Text, c: nat, had: seq<Spec>, n: nat)
    requires n < |columns| && forall r | 0 <= r < |table| :: |table[r]| == |columns|
    ensures Pieces(text, c, Without(CombinedSpecs(columns, table, n + 1), had))
         == Pieces(text, c, Without(CombinedSpecs(columns, table, n), had))
            + Pieces(text, c, Without(ColumnSpecs(columns, table, n), had))
    ensures c != n ==> Pieces(text, c, Without(ColumnSpecs(columns, table, n), had)) == ""
  {
    var before, added := CombinedSpecs(columns, table, n), ColumnSpecs(columns, table, n);
    WithoutAppend(before, added, had);
    PiecesAppend(text, c, Without(before, had), Without(added, had));
    ChunksFit(n, 1, 1, MaxLength(table, n, |table|), columns[n].ChunkLimit());
    hide Chunks, MaxLength, Without, Pieces;
    if c != n {
      OtherColumn(text, c, added, had);
    }
  }

  /** The remaining chunks of all columns, seen from one column. */
  lemma {:induction false} RemainingOfColumn(columns: seq<ColumnKind>, table: Table, r: nat, c: nat, had: seq<Spec>,
                                             n: nat)
    requires WellTyped(table, columns) && r < |table| && c < |columns| && table[r][c].Chars? && n <= |columns|
    requires FullRun(columns, c, 1, had)
    ensures Pieces(table[r][c].text, c, Without(CombinedSpecs(columns, table, n), had))
         == if c < n then From(table[r][c].text, ColumnSecondFetch(columns, table, c, had)) else ""
  {
    hide FullRun, Without, From, ColumnSecondFetch, Pieces, CombinedSpecs, ColumnSpecs;
    if n == 0 {
      NoColumns(columns, table, table[r][c].text, c, had);
    } else {
      RemainingOfColumn(columns, table, r, c, had, n - 1);
      RemainingSplit(columns, table, table[r][c].text, c, had, n - 1);
      if c == n - 1 {
        RemainingOfOwn(columns, table, r, c, had);
      }
    }
  }

  lemma NoColumns(columns: seq<ColumnKind>, table: Table, text: Text, c: nat, had: seq<Spec>)
    requires forall r | 0 <= r < |table| :: |table[r]| == |columns|
    ensures Pieces(text, c, Without(CombinedSpecs(columns, table, 0), had)) == ""
  {}

  lemma RemainingOfOwn(columns: seq<ColumnKind>, table: Table, r: nat, c: nat, had: seq<Spec>)
    requires WellTyped(table, columns) && r < |table| && c < |columns| && table[r][c].Chars?
    requires FullRun(columns, c, 1, had)
    ensures Pieces(table[r][c].text, c, Without(ColumnSpecs(columns, table, c), had))
         == From(table[r][c].text, ColumnSecondFetch(columns, table, c, had))
  {
    assert Offset(0, columns[c].ChunkLimit()) == 0;
    MaxLengthBound(table, c, |table|, r);
    RemainingPieces(columns, c, table[r][c].text, 1, 0, MaxLength(table, c, |table|), had);
    hide Chunks, MaxLength, FullRun, Without, SecondFetchFrom, Pieces, Offset, Count, From;
  }

  function ColumnSecondFetch(columns: seq<ColumnKind>, table: Table, c: nat, had: seq<Spec>): nat
    requires c < |columns| && forall r | 0 <= r < |table| :: |table[r]| == |columns|
  {
    SecondFetchFrom(Count(had, c), MaxLength(table, c, |table|), columns[c].ChunkLimit())
  }

  lemma OtherColumn(text: Text, c: nat, specs: seq<Spec>, had: seq<Spec>)
    requires forall k | 0 <= k < |specs| :: specs[k].column != c
    ensures Pieces(text, c, Without(specs, had)) == ""
  {}

  // ---- Single pass: the result ----

  /** What the single pass makes of a value: if the initial query already covered the column's
      maximum length, everything from its last short chunk on is there twice. */
  function SinglePassValue(columns: seq<ColumnKind>, table: Table, tuning: Tuning, r: nat, c: nat): Value
    requires r < |table| && c < |columns| && forall i | 0 <= i < |table| :: |table[i]| == |columns|
  {
    var max, limit := MaxLength(table, c, |table|), columns[c].ChunkLimit();
    if table[r][c].Chars? && max <= Offset(Count(InitialSpecs(columns, tuning), c), limit) then
      Chars(table[r][c].text + From(table[r][c].text, InFullChunks(max, limit)))
    else table[r][c]
  }

  lemma SinglePassText(columns: seq<ColumnKind>, table: Table, tuning: Tuning, r: nat, c: nat)
    requires WellTyped(table, columns) && r < |table| && c < |columns| && table[r][c].Chars?
    ensures var initial := InitialSpecs(columns, tuning);
            var specs := initial + Without(CombinedSpecs(columns, table, |columns|), initial);
            Chars(Pieces(table[r][c].text, c, specs)) == SinglePassValue(columns, table, tuning, r, c)
  {
    var text, initial := table[r][c].text, InitialSpecs(columns, tuning);
    InitialOfColumn(columns, tuning, c, text);
    RemainingOfColumn(columns, table, r, c, initial, |columns|);
    PiecesAppend(text, c, initial, Without(CombinedSpecs(columns, table, |columns|), initial));
    MaxLengthBound(table, c, |table|, r);
    TwoFetches(text, Count(initial, c), MaxLength(table, c, |table|), columns[c].ChunkLimit());
    hide InitialSpecs, Without, CombinedSpecs, FullRun, MaxLength, Pieces, Between, SecondFetchFrom, Offset, From,
         Count, InFullChunks;
  }

  lemma SinglePassCell(columns: seq<ColumnKind>, table: Table, tuning: Tuning, r: nat, c: nat)
    requires WellTyped(table, columns) && r < |table| && c < |columns|
    ensures var initial := InitialSpecs(columns, tuning);
            var specs := initial + Without(CombinedSpecs(columns, table, |columns|), initial);
            Grown(StartCell(table[r][c]), table[r][c], c, specs)
            == SinglePassValue(columns, table, tuning, r, c)
  {
    hide InitialSpecs, Without, CombinedSpecs, Pieces, MaxLength, Count, Offset, From, InFullChunks;
    if table[r][c].Chars? {
      SinglePassText(columns, table, tuning, r, c);
      assert forall t: Text :: "" + t == t;
    }
  }

  /** The initial chunks and the second fetch together. */
  lemma TwoFetches(text: Text, have: nat, max: nat, limit: nat)
    requires limit > 0 && |text| <= max
    ensures Offset(0, limit) == 0
    ensures Between(text, 0, Offset(have, limit)) + From(text, SecondFetchFrom(have, max, limit))
         == if max <= Offset(have, limit) then text + From(text, InFullChunks(max, limit)) else text
  {}

  /** The initial reply carries row numbers, lengths, scalars and the initial chunks; its rows
      stand in the order of their numbers. */
  ghost predicate IsInitialReply(reply: seq<ReplyRow>, table: Table, specs: seq<Spec>, columns: seq<ColumnKind>)
    requires WellTyped(table, columns) && SpecsFit(specs, |columns|)
  {
    && |reply| == |table|
    && forall r | 0 <= r < |table| ::
         IsBaseRow(reply[r].base, table[r], columns) && IsReplyRow(reply[r], table, specs, r, |columns|)
  }

  /** The single pass is taken if a row limit is known and so many rows fit one batch of initial
      chunks. */
  predicate SinglePassApplies(columns: seq<ColumnKind>, rowLimit: Option<nat>, tuning: Tuning)
    requires tuning.rowLimit >= 1
  {
    && rowLimit.Some? && InitialSpecs(columns, tuning) != []
    && rowLimit.value <= RowsPerBatch(tuning, WindowBytes(columns, InitialSpecs(columns, tuning)))
  }

  /** The single pass; declined if not all rows fit one batch of initial chunks. */
  method FetchSinglePass(columns: seq<ColumnKind>, rowLimit: Option<nat>, initialServer: seq<Spec> -> seq<ReplyRow>,
                         server: (seq<Spec>, nat, nat) -> seq<ReplyRow>, tuning: Tuning, ghost table: Table)
    returns (result: Option<array2<Value>>)
    requires WellTyped(table, columns) && tuning.rowLimit >= 1 && Serves(server, table, |columns|)
    requires SpecsFit(InitialSpecs(columns, tuning), |columns|) ==>
               var initial := InitialSpecs(columns, tuning);
               IsInitialReply(initialServer(initial), table, initial, columns)
    ensures result.Some? <==> SinglePassApplies(columns, rowLimit, tuning)
    ensures result.Some? ==>
              var out := result.value;
              && fresh(out) && out.Length0 == |table| && out.Length1 == |columns|
              && forall r, c | 0 <= r < |table| && 0 <= c < |columns| ::
                   out[r, c] == SinglePassValue(columns, table, tuning, r, c)
  {
    hide InitialSpecs, Without, CombinedSpecs, SinglePassValue, Serves, IsGridReply, Grown;
    if rowLimit.None? {
      return None;
    }
    var initial := PlanInitial(columns, tuning);
    if initial == [] || rowLimit.value > RowsPerBatch(tuning, WindowBytes(columns, initial)) {
      return None;
    }
    InitialSpecsFit(columns, tuning);
    var reply := initialServer(initial);
    var base := seq(|reply|, i requires 0 <= i < |reply| => reply[i].base);
    var out, lengths := StartRows(columns, base, table);
    ghost var start := StartTable(table);
    InitialIsGridReply(reply, table, initial, columns);
    AppendGridReply(reply, initial, lengths, out, start, table, [], 0, |table|);
    var combined := PlanCombined(columns, lengths, table);
    var remaining := FilterOut(combined, initial);
    CombinedFits(columns, table, |columns|);
    WithoutFits(combined, initial, |columns|);
    assert [] + initial == initial;
    FetchSpecs(columns, remaining, server, lengths, out, tuning, start, table, initial);
    forall r, c | 0 <= r < |table| && 0 <= c < |columns|
      ensures out[r, c] == SinglePassValue(columns, table, tuning, r, c)
    {
      assert RowHas(out, r, start, table, initial + remaining);
      SinglePassCell(columns, table, tuning, r, c);
    }
    return Some(out);
  }

  lemma InitialSpecsFit(columns: seq<ColumnKind>, tuning: Tuning)
    ensures SpecsFit(InitialSpecs(columns, tuning), |columns|)
  {
    LobIndicesAre(columns, |columns|);
    if LobIndices(columns, |columns|) != [] {
      InitialFits(columns, LobIndices(columns, |columns|), tuning, 1, 0, 0);
    }
  }

  lemma InitialIsGridReply(reply: seq<ReplyRow>, table: Table, specs: seq<Spec>, columns: seq<ColumnKind>)
    requires WellTyped(table, columns) && SpecsFit(specs, |columns|) && IsInitialReply(reply, table, specs, columns)
    ensures IsGridReply(reply, table, specs, 0, |table|, |columns|)
  {
    forall n: nat | 0 < n <= |table|
      ensures n in Numbers(reply)
    {
      NumbersMember(reply, n);
      assert reply[n - 1].number == Some(n);
    }
  }

  /** A LOB comes out of the single pass unlike its source exactly if its column's last chunk
      lies within the initial chunks, that chunk is a short one, and the row reaches it. */
  predicate LastChunkTwice(columns: seq<ColumnKind>, table: Table, tuning: Tuning, r: nat, c: nat)
    requires r < |table| && c < |columns| && forall i | 0 <= i < |table| :: |table[i]| == |columns|
  {
    var max, limit := MaxLength(table, c, |table|), columns[c].ChunkLimit();
    var lastIndex := (max + limit - 1) / limit;
    && table[r][c].Chars?
    && lastIndex <= Count(InitialSpecs(columns, tuning), c)
    && max % limit != 0
    && |table[r][c].text| > (lastIndex - 1) * limit
  }

  lemma {:induction false} SinglePassExact(columns: seq<ColumnKind>, table: Table, tuning: Tuning, r: nat, c: nat)
    requires WellTyped(table, columns) && r < |table| && c < |columns|
    ensures SinglePassValue(columns, table, tuning, r, c) == table[r][c]
            <==> !LastChunkTwice(columns, table, tuning, r, c)
  {
    if table[r][c].Chars? {
      var max, limit := MaxLength(table, c, |table|), columns[c].ChunkLimit();
      var have := Count(InitialSpecs(columns, tuning), c);
      MaxLengthBound(table, c, |table|, r);
      LastIndex(max, limit, have);
      Doubled(table[r][c].text, InFullChunks(max, limit));
      hide MaxLength, InitialSpecs, From, Offset, Count, InFullChunks;
    }
  }

  lemma Doubled(text: Text, from: nat)
    ensures text + From(text, from) == text <==> |text| <= from
  {}

  lemma LastIndex(max: nat, limit: nat, have: nat)
    requires limit > 0
    ensures var lastIndex := (max + limit - 1) / limit;
            && (lastIndex <= have <==> max <= Offset(have, limit))
            && (max % limit != 0 ==> (lastIndex - 1) * limit == InFullChunks(max, limit))
  {
    var q, rem := max / limit, max % limit;
    assert max == q * limit + rem;
    var lastIndex := (max + limit - 1) / limit;
    assert lastIndex == if rem == 0 then q else q + 1 by {
      if rem == 0 {
        Quotient(max + limit - 1, limit, q, limit - 1);
      } else {
        assert (q + 1) * limit == q * limit + limit;
        Quotient(max + limit - 1, limit, q + 1, rem - 1);
      }
    }
    if lastIndex <= have {
      MulMonotone(lastIndex, have, limit);
      assert (q + 1) * limit == q * limit + limit;
    } else {
      MulMonotone(have, lastIndex - 1, limit);
      assert (q - 1) * limit == q * limit - limit;
    }
  }

  /** With the default tuning one column of one short LOB is already enough: "ab" comes out as
      "abab". */
  lemma ShortLobTwice()
    ensures var columns, table := [Clob], [[Chars("ab")]];
            var tuning := Tuning(4_000_000, 160_000, CLOB_CHUNK_LIMIT, 1);
            && WellTyped(table, columns) && LastChunkTwice(columns, table, tuning, 0, 0)
            && SinglePassValue(columns, table, tuning, 0, 0) == Chars("abab")
  {}

  /** The whole chunked select: single pass where it applies, otherwise base query plus grid. */
  method ExecuteChunked(columns: seq<ColumnKind>, rowLimit: Option<nat>, base: seq<seq<BaseValue>>,
                        initialServer: seq<Spec> -> seq<ReplyRow>, server: (seq<Spec>, nat, nat) -> seq<ReplyRow>,
                        tuning: Tuning, ghost table: Table)
    returns (out: Option<array2<Value>>)
    requires WellTyped(table, columns) && tuning.rowLimit >= 1 && Serves(server, table, |columns|)
    requires IsBaseReply(base, table, columns)
    requires SpecsFit(InitialSpecs(columns, tuning), |columns|) ==>
               var initial := InitialSpecs(columns, tuning);
               IsInitialReply(initialServer(initial), table, initial, columns)
    ensures out.Some? <==> exists c | 0 <= c < |columns| :: columns[c].IsLob()
    ensures out.Some? ==>
              && out.value.Length0 == |table| && out.value.Length1 == |columns|
              && forall r, c | 0 <= r < |table| && 0 <= c < |columns| ::
                   && out.value[r, c] == (if SinglePassApplies(columns, rowLimit, tuning)
                                          then SinglePassValue(columns, table, tuning, r, c) else table[r][c])
                   && (out.value[r, c] == table[r][c] <==>
                         !SinglePassApplies(columns, rowLimit, tuning)
                         || !LastChunkTwice(columns, table, tuning, r, c))
  {
    var anyLob := false;
    for c := 0 to |columns|
      invariant anyLob <==> exists i | 0 <= i < c :: columns[i].IsLob()
    {
      anyLob := anyLob || columns[c].IsLob();
    }
    if !anyLob {
      return None;
    }
    out := FetchSinglePass(columns, rowLimit, initialServer, server, tuning, table);
    if out.None? {
      var grid := FetchBaseAndGrid(columns, base, server, tuning, table);
      out := Some(grid);
    } else {
      forall r, c | 0 <= r < |table| && 0 <= c < |columns|
        ensures out.value[r, c] == SinglePassValue(columns, table, tuning, r, c)
        ensures out.value[r, c] == table[r][c] <==> !LastChunkTwice(columns, table, tuning, r, c)
      {
        SinglePassExact(columns, table, tuning, r, c);
      }
    }
  }
}
