/** The plans of LOB chunks in closed form: every chunk's place and length, and how many the initial query takes
    (connection.rs). */
module LobPlans {
  import opened Arithmetic
  import opened Wire
  import opened LobChunks
  import opened LobPaths
  import opened LobSinglePass

  // ---- The chunks of a column ----

  /** Chunk k of a column of at most `max` characters: number k + 1, from character k * limit + 1 on, of `limit`
      characters or what is left. */
  lemma {:induction false} ChunkPlace(column: nat, number: Position, at: nat, max: nat, limit: nat, k: nat)
    requires limit > 0 && at + Offset(k, limit) < max
    ensures var chunks := Chunks(column, number, at + 1, max, limit);
            var left := max - at - Offset(k, limit);
            && k < |chunks|
            && chunks[k] == Spec(column, number + k, at + Offset(k, limit) + 1, if left < limit then left else limit)
            && (left <= limit <==> k == |chunks| - 1)
    decreases k
  {
    hide Chunks, Offset;
    FirstOffset(limit);
    ChunksStep(column, number, at, max, limit);
    var len := if limit <= max - at then limit else max - at;
    ChunksStep(column, number + 1, at + len, max, limit);
    if k > 0 {
      OffsetNext(k - 1, limit);
      ChunkPlace(column, number + 1, at + limit, max, limit, k - 1);
    }
  }

  lemma FirstOffset(limit: nat)
    ensures Offset(0, limit) == 0
  {}

  /** A CLOB column is cut at every 16000th character up to its longest value, a DBCLOB column at every 8000th, and
      a scalar column is not cut. */
  lemma {:induction false} ColumnPlan(columns: seq<ColumnKind>, table: Table, c: nat, k: nat)
    requires c < |columns| && forall r | 0 <= r < |table| :: |table[r]| == |columns|
    ensures var specs, max := ColumnSpecs(columns, table, c), MaxLength(table, c, |table|);
            var limit := if columns[c].Dbclob? then 8000 else 16000;
            && (columns[c].Scalar? ==> specs == [])
            && (max == 0 ==> specs == [])
            && (!columns[c].Scalar? && k * limit < max ==>
                  var left := max - k * limit;
                  && k < |specs|
                  && specs[k] == Spec(c, k + 1, k * limit + 1, if left < limit then left else limit)
                  && (left <= limit <==> k == |specs| - 1))
  {
    hide Chunks, MaxLength;
    var max, limit := MaxLength(table, c, |table|), columns[c].ChunkLimit();
    NoChunks(c, limit);
    if Offset(k, limit) < max {
      ChunkPlace(c, 1, 0, max, limit, k);
    }
  }

  /** No value of a column is longer than its longest, and some value has that length. */
  lemma {:induction false} LongestIs(table: Table, c: nat, n: nat)
    requires n <= |table| && forall r | 0 <= r < n :: c < |table[r]|
    ensures forall r | 0 <= r < n && table[r][c].Chars? :: |table[r][c].text| <= MaxLength(table, c, n)
    ensures MaxLength(table, c, n) == 0
            || exists r | 0 <= r < n :: table[r][c].Chars? && |table[r][c].text| == MaxLength(table, c, n)
  {
    if n > 0 {
      LongestIs(table, c, n - 1);
    }
  }

  // ---- The initial query ----

  /** A full chunk of any LOB column counts 16000 bytes: 16000 characters of a CLOB or 8000 of a DBCLOB. */
  lemma {:induction false} FullChunkBytes(columns: seq<ColumnKind>, c: nat, number: Position)
    requires c < |columns| && columns[c].IsLob()
    ensures var spec, limit := FullSpec(columns, c, number), if columns[c].Dbclob? then 8000 else 16000;
            && spec == Spec(c, number, (number - 1) * limit + 1, limit)
            && SpecBytes(columns, spec) == 16000
  {}

  /** How many full chunks fit the window and the row target; one is taken in any case. */
  function Room(tuning: Tuning): (n: nat)
    ensures n >= 1
  {
    var target := if tuning.windowTarget < tuning.rowTarget then tuning.windowTarget else tuning.rowTarget;
    if target < 32000 then 1 else target / 16000
  }

  /** In turn p of `lobs` columns, the column whose turn it is and the number of its chunk. */
  function ColumnOf(p: nat, lobs: nat): (index: nat)
    requires lobs > 0
    ensures index < lobs
  {
    p % lobs
  }

  function NumberOf(p: nat, lobs: nat): Position
    requires lobs > 0
  {
    p / lobs + 1
  }

  lemma NextPlace(lobs: seq<nat>, p: nat)
    requires lobs != []
    ensures NextTurn(lobs, NumberOf(p, |lobs|), ColumnOf(p, |lobs|))
         == (NumberOf(p + 1, |lobs|), ColumnOf(p + 1, |lobs|))
  {
    var q, r := p / |lobs|, p % |lobs|;
    assert p == q * |lobs| + r;
    if r + 1 < |lobs| {
      Quotient(p + 1, |lobs|, q, r + 1);
    } else {
      assert (q + 1) * |lobs| == q * |lobs| + |lobs|;
      Quotient(p + 1, |lobs|, q + 1, 0);
    }
  }

  /** The initial planning from turn p on, after p chunks. */
  lemma {:induction false} InitialFromTurn(columns: seq<ColumnKind>, lobs: seq<nat>, tuning: Tuning, p: nat, k: nat)
    requires AreLobs(columns, lobs) && lobs != []
    ensures var specs := InitialFrom(columns, lobs, tuning, NumberOf(p, |lobs|), ColumnOf(p, |lobs|), 16000 * p);
            && |specs| == (if p < Room(tuning) then Room(tuning) - p else 0)
            && (k < |specs| ==>
                  && lobs[ColumnOf(p + k, |lobs|)] < |columns|
                  && specs[k] == FullSpec(columns, lobs[ColumnOf(p + k, |lobs|)], NumberOf(p + k, |lobs|)))
    decreases if p < Room(tuning) then Room(tuning) - p else 0
  {
    hide FullSpec, InitialFrom, AreLobs, Room, SpecBytes, CanAccept, ColumnOf, NumberOf, NextTurn;
    var number, index := NumberOf(p, |lobs|), ColumnOf(p, |lobs|);
    IndexOfTurn(columns, lobs, index);
    InitialTurn(columns, lobs, tuning, number, index, 16000 * p);
    FullChunkBytes(columns, lobs[index], number);
    RoomExact(tuning, p);
    if p < Room(tuning) {
      NextPlace(lobs, p);
      InitialFromTurn(columns, lobs, tuning, p + 1, if k > 0 then k - 1 else 0);
    }
  }

  lemma IndexOfTurn(columns: seq<ColumnKind>, lobs: seq<nat>, index: nat)
    requires AreLobs(columns, lobs) && index < |lobs|
    ensures lobs[index] < |columns| && columns[lobs[index]].IsLob()
  {}

  lemma RoomExact(tuning: Tuning, p: nat)
    ensures p < Room(tuning) <==> !(16000 * p > 0 && !CanAccept(tuning, 16000 * p, 16000))
  {}

  /** The initial query asks for as many full chunks as fit, at least one, in turns of all LOB columns: the k-th is
      for column k % L of the L LOB columns, in round k / L. */
  lemma {:induction false} InitialPlan(columns: seq<ColumnKind>, tuning: Tuning, k: nat)
    ensures var lobs, specs := LobIndices(columns, |columns|), InitialSpecs(columns, tuning);
            && (lobs == [] ==> specs == [])
            && (lobs != [] ==>
                  && |specs| == Room(tuning)
                  && (k < |specs| ==>
                        && lobs[ColumnOf(k, |lobs|)] < |columns|
                        && specs[k] == FullSpec(columns, lobs[ColumnOf(k, |lobs|)], NumberOf(k, |lobs|))))
  {
    hide FullSpec, InitialFrom, Room, LobIndices, ColumnOf, NumberOf;
    var lobs := LobIndices(columns, |columns|);
    LobIndicesAre(columns, |columns|);
    if lobs != [] {
      FirstTurn(|lobs|);
      InitialFromTurn(columns, lobs, tuning, 0, k);
    }
  }

  lemma FirstTurn(lobs: nat)
    requires lobs > 0
    ensures ColumnOf(0, lobs) == 0 && NumberOf(0, lobs) == 1
  {
    Quotient(0, lobs, 0, 0);
  }

  lemma {:induction false} InitialBytes(columns: seq<ColumnKind>, specs: seq<Spec>)
    requires forall k | 0 <= k < |specs| :: SpecBytes(columns, specs[k]) == 16000
    ensures WindowBytes(columns, specs) == 16000 * |specs|
  {
    hide SpecBytes;
    if specs != [] {
      InitialBytes(columns, specs[..|specs| - 1]);
    }
  }

  /** The single pass is taken for a known row limit of at most one batch: no more rows than the batch limit, and than
      reply bytes of one initial query each fit the batch target, but one row in any case. */
  lemma {:induction false} SinglePassAppliesExact(columns: seq<ColumnKind>, rowLimit: Option<nat>, tuning: Tuning)
    requires tuning.rowLimit >= 1
    ensures SinglePassApplies(columns, rowLimit, tuning) <==>
            && (exists c | 0 <= c < |columns| :: columns[c].IsLob())
            && rowLimit.Some?
            && rowLimit.value <= tuning.rowLimit
            && (rowLimit.value <= 1 || rowLimit.value * (16000 * Room(tuning)) <= tuning.batchTarget)
  {
    hide FullSpec, InitialFrom, InitialSpecs, Room, LobIndices, WindowBytes, SpecBytes, ColumnOf, NumberOf;
    var lobs, specs := LobIndices(columns, |columns|), InitialSpecs(columns, tuning);
    LobIndicesAre(columns, |columns|);
    InitialPlan(columns, tuning, 0);
    if lobs != [] {
      assert columns[lobs[0]].IsLob();
      forall k | 0 <= k < |specs| ensures SpecBytes(columns, specs[k]) == 16000 {
        InitialPlan(columns, tuning, k);
        IndexOfTurn(columns, lobs, ColumnOf(k, |lobs|));
        FullChunkBytes(columns, lobs[ColumnOf(k, |lobs|)], NumberOf(k, |lobs|));
      }
      InitialBytes(columns, specs);
      if rowLimit.Some? {
        BatchHolds(tuning, 16000 * Room(tuning), rowLimit.value);
      }
    }
  }

  lemma BatchHolds(tuning: Tuning, bytes: nat, rows: nat)
    requires tuning.rowLimit >= 1 && bytes > 1
    ensures rows <= RowsPerBatch(tuning, bytes)
            <==> rows <= tuning.rowLimit && (rows <= 1 || rows * bytes <= tuning.batchTarget)
  {
    var batch := RowsPerBatch(tuning, bytes);
    hide RowsPerBatch;
    if rows <= batch {
      MulMonotone(rows, batch, bytes);
    } else {
      MulMonotone(batch + 1, rows, bytes);
    }
  }

  // ---- How many chunks of one column come with the initial query ----

  /** How many of the first p turns are those of column j of `lobs`. */
  function TurnsOf(p: nat, lobs: nat, j: nat): nat
    requires j < lobs
  {
    (p + lobs - 1 - j) / lobs
  }

  lemma TurnCounts(p: nat, lobs: nat, j: nat)
    requires j < lobs
    ensures TurnsOf(p + 1, lobs, j) == TurnsOf(p, lobs, j) + if ColumnOf(p, lobs) == j then 1 else 0
  {
    hide TurnsOf;
    var q, r := p / lobs, p % lobs;
    TurnsAt(p, lobs, j, q, r);
    if r + 1 < lobs {
      TurnsAt(p + 1, lobs, j, q, r + 1);
    } else {
      TurnsAt(p + 1, lobs, j, q + 1, 0);
    }
  }

  lemma TurnsAt(p: nat, lobs: nat, j: nat, q: nat, r: nat)
    requires j < lobs && r < lobs && p == q * lobs + r
    ensures TurnsOf(p, lobs, j) == if r <= j then q else q + 1
  {
    if r <= j {
      Quotient(p + lobs - 1 - j, lobs, q, r + lobs - 1 - j);
    } else {
      Quotient(p + lobs - 1 - j, lobs, q + 1, r - 1 - j);
    }
  }

  lemma {:induction false} CountFromTurn(columns: seq<ColumnKind>, lobs: seq<nat>, tuning: Tuning, p: nat, j: nat)
    requires AreLobs(columns, lobs) && j < |lobs|
    ensures var specs := InitialFrom(columns, lobs, tuning, NumberOf(p, |lobs|), ColumnOf(p, |lobs|), 16000 * p);
            p <= Room(tuning) ==>
              Count(specs, lobs[j]) + TurnsOf(p, |lobs|, j) == TurnsOf(Room(tuning), |lobs|, j)
    decreases if p < Room(tuning) then Room(tuning) - p else 0
  {
    hide FullSpec, InitialFrom, AreLobs, Room, SpecBytes, CanAccept, ColumnOf, NumberOf, NextTurn, TurnsOf;
    var number, index := NumberOf(p, |lobs|), ColumnOf(p, |lobs|);
    IndexOfTurn(columns, lobs, index);
    InitialTurn(columns, lobs, tuning, number, index, 16000 * p);
    FullChunkBytes(columns, lobs[index], number);
    RoomExact(tuning, p);
    LobsDistinct(columns, lobs, index, j);
    if p < Room(tuning) {
      NextPlace(lobs, p);
      TurnCounts(p, |lobs|, j);
      CountFromTurn(columns, lobs, tuning, p + 1, j);
    }
  }

  /** With the default targets every LOB column but the first is left to the second fetch, and in general the j-th of L
      LOB columns has (n + L - 1 - j) / L chunks among the n initial ones. */
  lemma {:induction false} InitialCount(columns: seq<ColumnKind>, tuning: Tuning, j: nat)
    requires j < |LobIndices(columns, |columns|)|
    ensures var lobs := LobIndices(columns, |columns|);
            Count(InitialSpecs(columns, tuning), lobs[j]) == (Room(tuning) + |lobs| - 1 - j) / |lobs|
  {
    hide FullSpec, InitialFrom, Room, LobIndices, ColumnOf, NumberOf;
    var lobs := LobIndices(columns, |columns|);
    LobIndicesAre(columns, |columns|);
    FirstTurn(|lobs|);
    CountFromTurn(columns, lobs, tuning, 0, j);
    Quotient(|lobs| - 1 - j, |lobs|, 0, |lobs| - 1 - j);
  }

  /** When a single-pass value is unlike its source, from the longest value of its column and the tuning alone. */
  lemma {:induction false} SinglePassDiffers(columns: seq<ColumnKind>, table: Table, tuning: Tuning, r: nat, j: nat)
    requires WellTyped(table, columns) && r < |table| && j < |LobIndices(columns, |columns|)|
    ensures LobIndices(columns, |columns|)[j] < |columns|
    ensures var lobs := LobIndices(columns, |columns|);
            var c := lobs[j];
            var max, limit := MaxLength(table, c, |table|), if columns[c].Dbclob? then 8000 else 16000;
            var last := (max + limit - 1) / limit;
            SinglePassValue(columns, table, tuning, r, c) != table[r][c] <==>
            && table[r][c].Chars?
            && last <= (Room(tuning) + |lobs| - 1 - j) / |lobs|
            && max % limit != 0
            && |table[r][c].text| > (last - 1) * limit
  {
    hide FullSpec, InitialFrom, InitialSpecs, Room, LobIndices, MaxLength, SinglePassValue, Count;
    var lobs := LobIndices(columns, |columns|);
    LobIndicesAre(columns, |columns|);
    IndexOfTurn(columns, lobs, j);
    InitialCount(columns, tuning, j);
    SinglePassExact(columns, table, tuning, r, lobs[j]);
  }
}
