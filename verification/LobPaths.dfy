/** The two ways z/OS LOB selects are materialised: base query plus chunk grid, and single pass
    (connection.rs). */
module LobPaths {
  import opened Wire
  import opened LobChunks

  // ---- Start values ----

  function StartCell(v: Value): Value {
    if v.Chars? then Chars("") else v
  }

  function StartTable(table: Table): Table {
    seq(|table|, r requires 0 <= r < |table| =>
      seq(|table[r]|, c requires 0 <= c < |table[r]| => StartCell(table[r][c])))
  }

  /** A row of the base query: the lengths of LOBs, scalars as they are. */
  ghost predicate IsBaseRow(base: seq<BaseValue>, row: seq<Value>, columns: seq<ColumnKind>)
    requires |row| == |columns|
  {
    && |base| == |columns|
    && forall c | 0 <= c < |columns| ::
         base[c] == if columns[c].IsLob() then Length(LengthOf(row[c])) else Direct(row[c])
  }

  ghost predicate IsBaseReply(base: seq<seq<BaseValue>>, table: Table, columns: seq<ColumnKind>)
    requires WellTyped(table, columns)
  {
    |base| == |table| && forall r | 0 <= r < |table| :: IsBaseRow(base[r], table[r], columns)
  }

  /** An empty text for every non-null LOB, and the lengths beside it. */
  method StartRows(columns: seq<ColumnKind>, base: seq<seq<BaseValue>>, ghost table: Table)
    returns (out: array2<Value>, lengths: array2<Option<nat>>)
    requires WellTyped(table, columns) && IsBaseReply(base, table, columns)
    ensures fresh(out) && fresh(lengths)
    ensures out.Length1 == lengths.Length0 == |columns|
    ensures Shaped(out, StartTable(table), table) && Lengths(lengths, table)
    ensures forall r | 0 <= r < |table| :: RowHas(out, r, StartTable(table), table, [])
  {
    out := new Value[|base|, |columns|];
    lengths := new Option<nat>[|columns|, |base|];
    for r := 0 to |base|
      invariant forall i, c | 0 <= i < r && 0 <= c < |columns| ::
                  out[i, c] == StartCell(table[i][c]) && lengths[c, i] == LengthOf(table[i][c])
    {
      for c := 0 to |columns|
        invariant forall i, j | 0 <= i < |base| && 0 <= j < |columns| && (i < r || (i == r && j < c)) ::
                    out[i, j] == StartCell(table[i][j]) && lengths[j, i] == LengthOf(table[i][j])
      {
        assert IsBaseRow(base[r], table[r], columns);
        match base[r][c]
        case Length(len) =>
          lengths[c, r] := len;
          out[r, c] := if len.Some? then Chars("") else Null;
        case Direct(value) =>
          lengths[c, r] := None;
          out[r, c] := value;
      }
    }
    forall r | 0 <= r < |table|
      ensures RowHas(out, r, StartTable(table), table, [])
    {
      assert forall c | 0 <= c < |columns| :: StartTable(table)[r][c] == StartCell(table[r][c]);
    }
  }

  // ---- Base query plus chunk grid ----

  /** Every value comes out as it is at the server, LOBs whole, for all lengths, tuning values
      and orders of the reply rows. */
  method FetchBaseAndGrid(columns: seq<ColumnKind>, base: seq<seq<BaseValue>>,
                          server: (seq<Spec>, nat, nat) -> seq<ReplyRow>, tuning: Tuning, ghost table: Table)
    returns (out: array2<Value>)
    requires WellTyped(table, columns) && IsBaseReply(base, table, columns)
    requires Serves(server, table, |columns|) && tuning.rowLimit >= 1
    ensures fresh(out) && out.Length0 == |table| && out.Length1 == |columns|
    ensures forall r, c | 0 <= r < |table| && 0 <= c < |columns| :: out[r, c] == table[r][c]
  {
    var lengths;
    out, lengths := StartRows(columns, base, table);
    var specs := PlanCombined(columns, lengths, table);
    CombinedFits(columns, table, |columns|);
    hide CombinedSpecs, Serves, Lengths, Grown, StartTable, IsBaseReply;
    FetchSpecs(columns, specs, server, lengths, out, tuning, StartTable(table), table, []);
    forall r, c | 0 <= r < |table| && 0 <= c < |columns|
      ensures out[r, c] == table[r][c]
    {
      assert [] + specs == specs && RowHas(out, r, StartTable(table), table, specs);
      BaseCell(columns, table, r, c);
    }
  }

  /** The combined chunks appended to a start value give the value at the server. */
  lemma BaseCell(columns: seq<ColumnKind>, table: Table, r: nat, c: nat)
    requires WellTyped(table, columns) && r < |table| && c < |columns|
    ensures Grown(StartTable(table)[r][c], table[r][c], c, CombinedSpecs(columns, table, |columns|)) == table[r][c]
  {
    if table[r][c].Chars? {
      PiecesOfCombined(columns, table, r, c, |columns|);
      hide CombinedSpecs, Pieces;
      assert "" + table[r][c].text == table[r][c].text;
    }
  }

  lemma {:induction false} CombinedFits(columns: seq<ColumnKind>, table: Table, n: nat)
    requires n <= |columns| && forall r | 0 <= r < |table| :: |table[r]| == |columns|
    ensures SpecsFit(CombinedSpecs(columns, table, n), |columns|)
  {
    if n > 0 {
      CombinedFits(columns, table, n - 1);
      ChunksFit(n - 1, 1, 1, MaxLength(table, n - 1, |table|), columns[n - 1].ChunkLimit());
    }
  }

  // ---- Single pass: planning ----

  function LobIndices(columns: seq<ColumnKind>, n: nat): seq<nat>
    requires n <= |columns|
  {
    if n == 0 then []
    else if columns[n - 1].IsLob() then LobIndices(columns, n - 1) + [n - 1]
    else LobIndices(columns, n - 1)
  }

  ghost predicate AreLobs(columns: seq<ColumnKind>, lobs: seq<nat>) {
    && (forall i | 0 <= i < |lobs| :: lobs[i] < |columns| && columns[lobs[i]].IsLob())
    && (forall i, j | 0 <= i < j < |lobs| :: lobs[i] < lobs[j])
  }

  lemma {:induction false} LobIndicesAre(columns: seq<ColumnKind>, n: nat)
    requires n <= |columns|
    ensures AreLobs(columns, LobIndices(columns, n))
    ensures forall i | 0 <= i < |LobIndices(columns, n)| :: LobIndices(columns, n)[i] < n
    ensures forall c | 0 <= c < n && columns[c].IsLob() :: c in LobIndices(columns, n)
  {
    if n > 0 {
      LobIndicesAre(columns, n - 1);
    }
  }

  /** How many characters the first n full chunks hold. */
  function Offset(n: nat, limit: nat): nat {
    n * limit
  }

  /** Chunk `number` of a column at full length, whatever the texts are. */
  function FullSpec(columns: seq<ColumnKind>, c: nat, number: Position): Spec
    requires c < |columns|
  {
    var limit := columns[c].ChunkLimit();
    Spec(c, number, Offset(number - 1, limit) + 1, limit)
  }

  function Slack(tuning: Tuning, bytes: nat): nat {
    if bytes == 0 then tuning.windowTarget + 1
    else if bytes <= tuning.windowTarget then tuning.windowTarget - bytes
    else 0
  }

  /** Whose turn it is next: the next LOB column, or the first one with its next chunk. */
  function NextTurn(lobs: seq<nat>, number: Position, index: nat): (Position, nat) {
    if index + 1 < |lobs| then (number, index + 1) else (number + 1, 0)
  }

  /** First chunks of all columns, then second chunks, and so on until the window is full. */
  function InitialFrom(columns: seq<ColumnKind>, lobs: seq<nat>, tuning: Tuning,
                       number: Position, index: nat, bytes: nat): seq<Spec>
    requires AreLobs(columns, lobs) && index < |lobs|
    decreases Slack(tuning, bytes)
  {
    var spec := FullSpec(columns, lobs[index], number);
    var specBytes := SpecBytes(columns, spec);
    if bytes > 0 && !CanAccept(tuning, bytes, specBytes) then []
    else
      var (number', index') := NextTurn(lobs, number, index);
      [spec] + InitialFrom(columns, lobs, tuning, number', index', bytes + specBytes)
  }

  /** One turn of the initial planning: nothing more fits, or a full chunk and the next turn. */
  lemma InitialTurn(columns: seq<ColumnKind>, lobs: seq<nat>, tuning: Tuning, number: Position, index: nat, bytes: nat)
    requires AreLobs(columns, lobs) && index < |lobs|
    ensures var spec := FullSpec(columns, lobs[index], number);
            var specBytes := SpecBytes(columns, spec);
            var (number', index') := NextTurn(lobs, number, index);
            && specBytes > 0 && index' < |lobs|
            && if bytes > 0 && !CanAccept(tuning, bytes, specBytes)
               then InitialFrom(columns, lobs, tuning, number, index, bytes) == []
               else && Slack(tuning, bytes + specBytes) < Slack(tuning, bytes)
                    && InitialFrom(columns, lobs, tuning, number, index, bytes)
                       == [spec] + InitialFrom(columns, lobs, tuning, number', index', bytes + specBytes)
  {}

  function InitialSpecs(columns: seq<ColumnKind>, tuning: Tuning): seq<Spec> {
    var lobs := LobIndices(columns, |columns|);
    LobIndicesAre(columns, |columns|);
    if lobs == [] then [] else InitialFrom(columns, lobs, tuning, 1, 0, 0)
  }

  method PlanInitial(columns: seq<ColumnKind>, tuning: Tuning) returns (specs: seq<Spec>)
    ensures specs == InitialSpecs(columns, tuning)
  {
    var lobs: seq<nat> := [];
    for c := 0 to |columns|
      invariant lobs == LobIndices(columns, c)
    {
      if columns[c].IsLob() {
        lobs := lobs + [c];
      }
    }
    LobIndicesAre(columns, |columns|);
    specs := [];
    if lobs != [] {
      specs := TakeTurns(columns, lobs, tuning);
    }
  }

  method TakeTurns(columns: seq<ColumnKind>, lobs: seq<nat>, tuning: Tuning) returns (specs: seq<Spec>)
    requires AreLobs(columns, lobs) && lobs != []
    ensures specs == InitialFrom(columns, lobs, tuning, 1, 0, 0)
  {
    hide FullSpec, CanAccept, SpecBytes, InitialFrom, Slack;
    specs := [];
    var bytes, number, index := 0, 1, 0;
    ghost var left := InitialFrom(columns, lobs, tuning, 1, 0, 0);
    ghost var goal := left;
    assert [] + goal == goal;
    while true
      invariant index < |lobs| && number >= 1 && (bytes == 0 <==> specs == [])
      invariant left == InitialFrom(columns, lobs, tuning, number, index, bytes)
      invariant specs + left == goal
      decreases Slack(tuning, bytes)
    {
      InitialTurn(columns, lobs, tuning, number, index, bytes);
      var spec := FullSpec(columns, lobs[index], number);
      var specBytes := SpecBytes(columns, spec);
      if specs != [] && !CanAccept(tuning, bytes, specBytes) {
        assert specs + [] == specs;
        return;
      }
      assert left == [spec] + left[1..];
      left := left[1..];
      specs := specs + [spec];
      bytes := bytes + specBytes;
      if index + 1 < |lobs| {
        index := index + 1;
      } else {
        index, number := 0, number + 1;
      }
    }
  }

  /** The combined specs that were not among the initial ones, compared in all four fields. */
  function Without(specs: seq<Spec>, had: seq<Spec>): seq<Spec> {
    if specs == [] then []
    else if specs[0] in had then Without(specs[1..], had)
    else [specs[0]] + Without(specs[1..], had)
  }

  method FilterOut(specs: seq<Spec>, had: seq<Spec>) returns (left: seq<Spec>)
    ensures left == Without(specs, had)
  {
    left := [];
    for k := 0 to |specs|
      invariant left + Without(specs[k..], had) == Without(specs, had)
    {
      assert specs[k..][1..] == specs[k + 1..];
      if specs[k] !in had {
        assert left + ([specs[k]] + Without(specs[k + 1..], had)) == left + [specs[k]] + Without(specs[k + 1..], had);
        left := left + [specs[k]];
      }
    }
  }
}
