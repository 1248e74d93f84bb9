/** z/OS LOB columns fetched as grids of chunks and put together again (connection.rs). */
module LobChunks {
  import opened Wire

  type Text = string

  const CLOB_CHUNK_LIMIT: nat := 16_000
  const DBCLOB_CHUNK_LIMIT: nat := CLOB_CHUNK_LIMIT / 2

  datatype ColumnKind = Clob | Dbclob | Scalar
  {
    predicate IsLob() {
      !Scalar?
    }

    function ChunkLimit(): nat {
      if Dbclob? then DBCLOB_CHUNK_LIMIT else CLOB_CHUNK_LIMIT
    }
  }

  /** A column value: the characters of a LOB, or a scalar in its text form. */
  datatype Value = Null | Chars(text: Text) | Plain(text: Text)

  /** Rows of column values: the selected rows at the server, or those built by the client. */
  type Table = seq<seq<Value>>

  /** Character positions count from 1. */
  type Position = n: nat | n >= 1 witness 1

  datatype Spec = Spec(column: nat, number: nat, start: Position, len: nat)

  /** The four tuning values; each may be set to anything within its clamps. */
  datatype Tuning = Tuning(batchTarget: nat, windowTarget: nat, rowTarget: nat, rowLimit: nat)

  /** What the base query returns for a column: the length of a LOB or the scalar itself. */
  datatype BaseValue = Length(len: Option<nat>) | Direct(value: Value)

  datatype ReplyRow = ReplyRow(number: Option<nat>, base: seq<BaseValue>, chunks: seq<Option<Text>>)

  ghost predicate WellTyped(table: Table, columns: seq<ColumnKind>) {
    forall r | 0 <= r < |table| ::
      && |table[r]| == |columns|
      && forall c | 0 <= c < |columns| :: if columns[c].IsLob() then !table[r][c].Plain? else !table[r][c].Chars?
  }

  // ---- The server ----

  function LengthOf(v: Value): Option<nat> {
    if v.Chars? then Some(|v.text|) else None
  }

  /** The characters of a text that a chunk covers; none if the text ends before it. */
  function PieceOf(text: Text, spec: Spec): Text
  {
    var from := spec.start - 1;
    if |text| <= from then ""
    else if |text| <= from + spec.len then text[from..]
    else text[from..from + spec.len]
  }

  /** `CASE WHEN LENGTH(x) >= start THEN SUBSTR(x, start, len) END`: the characters the chunk
      covers, padded up to `len` in whatever way, or null. */
  ghost predicate IsSubstr(chunk: Option<Text>, source: Value, spec: Spec)
  {
    if source.Chars? && |source.text| >= spec.start then
      chunk.Some? && PieceOf(source.text, spec) <= chunk.value && |chunk.value| <= spec.len
    else chunk.None?
  }

  predicate SpecsFit(specs: seq<Spec>, columns: nat) {
    forall k | 0 <= k < |specs| :: specs[k].column < columns
  }

  ghost predicate IsReplyRow(row: ReplyRow, table: Table, specs: seq<Spec>, r: nat, columns: nat)
    requires r < |table| && |table[r]| == columns && SpecsFit(specs, columns)
  {
    && row.number == Some(r + 1)
    && |row.chunks| == |specs|
    && forall k | 0 <= k < |specs| :: IsSubstr(row.chunks[k], table[r][specs[k].column], specs[k])
  }

  /** A reply to a grid query over rows lo + 1 to hi: each row once, in any order. */
  ghost predicate IsGridReply(reply: seq<ReplyRow>, table: Table, specs: seq<Spec>, lo: nat, hi: nat, columns: nat)
    requires hi <= |table| && (forall r | 0 <= r < |table| :: |table[r]| == columns) && SpecsFit(specs, columns)
  {
    && (forall i | 0 <= i < |reply| ::
          reply[i].number.Some? && lo < reply[i].number.value <= hi
          && IsReplyRow(reply[i], table, specs, reply[i].number.value - 1, columns))
    && (forall i, j | 0 <= i < j < |reply| :: reply[i].number != reply[j].number)
    && (forall n | lo < n <= hi :: n in Numbers(reply))
  }

  function Numbers(reply: seq<ReplyRow>): set<nat> {
    if reply == [] then {}
    else Numbers(reply[..|reply| - 1])
         + if reply[|reply| - 1].number.Some? then {reply[|reply| - 1].number.value} else {}
  }

  /** A server that answers every grid query over a table. */
  ghost predicate Serves(server: (seq<Spec>, nat, nat) -> seq<ReplyRow>, table: Table, columns: nat) {
    && (forall r | 0 <= r < |table| :: |table[r]| == columns)
    && forall specs: seq<Spec>, lo: nat, hi: nat | hi <= |table| && SpecsFit(specs, columns) ::
         IsGridReply(server(specs, lo, hi), table, specs, lo, hi, columns)
  }

  // ---- Planning the chunks ----

  /** Chunks of a column from character `start` on, the last one cut to what is left. */
  function Chunks(column: nat, number: nat, start: Position, max: nat, limit: nat): seq<Spec>
    requires limit > 0
    decreases max + 1 - start
  {
    if start > max then []
    else
      var len := if limit <= max - start + 1 then limit else max - start + 1;
      [Spec(column, number, start, len)] + Chunks(column, number + 1, start + len, max, limit)
  }

  /** The longest LOB in a column's first n rows. */
  function MaxLength(table: Table, c: nat, n: nat): nat
    requires n <= |table| && forall r | 0 <= r < n :: c < |table[r]|
  {
    if n == 0 then 0
    else
      var longest := MaxLength(table, c, n - 1);
      match LengthOf(table[n - 1][c])
      case None => longest
      case Some(len) => if len > longest then len else longest
  }

  function ColumnSpecs(columns: seq<ColumnKind>, table: Table, c: nat): seq<Spec>
    requires c < |columns| && forall r | 0 <= r < |table| :: |table[r]| == |columns|
  {
    if columns[c].IsLob() then Chunks(c, 1, 1, MaxLength(table, c, |table|), columns[c].ChunkLimit()) else []
  }

  function CombinedSpecs(columns: seq<ColumnKind>, table: Table, n: nat): seq<Spec>
    requires n <= |columns| && forall r | 0 <= r < |table| :: |table[r]| == |columns|
  {
    if n == 0 then [] else CombinedSpecs(columns, table, n - 1) + ColumnSpecs(columns, table, n - 1)
  }

  /** The lengths the client noted are those of the table's LOBs. */
  ghost predicate Lengths(lengths: array2<Option<nat>>, table: Table)
    reads lengths
  {
    && lengths.Length1 == |table|
    && forall r | 0 <= r < |table| ::
         |table[r]| == lengths.Length0 && forall c | 0 <= c < |table[r]| :: lengths[c, r] == LengthOf(table[r][c])
  }

  lemma ChunksStep(c: nat, number: Position, at: nat, max: nat, limit: nat)
    requires limit > 0
    ensures Chunks(c, number, at + 1, max, limit)
         == if at >= max then []
            else
              var len := if limit <= max - at then limit else max - at;
              [Spec(c, number, at + 1, len)] + Chunks(c, number + 1, at + 1 + len, max, limit)
  {}

  method PlanChunks(column: nat, max: nat, limit: nat) returns (chunks: seq<Spec>)
    requires limit > 0
    ensures chunks == Chunks(column, 1, 1, max, limit)
  {
    hide Chunks;
    chunks := [];
    var start: Position := 1;
    ghost var rest := Chunks(column, 1, 1, max, limit);
    assert [] + rest == rest;
    while start <= max
      invariant rest == Chunks(column, |chunks| + 1, start, max, limit)
      invariant chunks + rest == Chunks(column, 1, 1, max, limit)
      decreases max + 1 - start
    {
      var len := if limit <= max - start + 1 then limit else max - start + 1;
      var spec := Spec(column, |chunks| + 1, start, len);
      ChunksStep(column, |chunks| + 1, start - 1, max, limit);
      assert rest == [spec] + rest[1..];
      rest := rest[1..];
      chunks := chunks + [spec];
      start := start + len;
    }
    ChunksStep(column, |chunks| + 1, start - 1, max, limit);
    assert chunks + [] == chunks;
  }

  method LongestLob(lengths: array2<Option<nat>>, c: nat, ghost table: Table) returns (longest: nat)
    requires Lengths(lengths, table) && c < lengths.Length0
    ensures longest == MaxLength(table, c, |table|)
  {
    longest := 0;
    for r := 0 to lengths.Length1
      invariant longest == MaxLength(table, c, r)
    {
      if lengths[c, r].Some? && lengths[c, r].value > longest {
        longest := lengths[c, r].value;
      }
    }
  }

  lemma NoChunks(c: nat, limit: nat)
    requires limit > 0
    ensures Chunks(c, 1, 1, 0, limit) == []
  {}

  method PlanCombined(columns: seq<ColumnKind>, lengths: array2<Option<nat>>, ghost table: Table)
    returns (specs: seq<Spec>)
    requires Lengths(lengths, table) && lengths.Length0 == |columns|
    requires forall r | 0 <= r < |table| :: |table[r]| == |columns|
    ensures specs == CombinedSpecs(columns, table, |columns|)
  {
    hide MaxLength, Chunks, Lengths;
    specs := [];
    assert specs == CombinedSpecs(columns, table, 0);
    for c := 0 to |columns|
      invariant specs == CombinedSpecs(columns, table, c)
    {
      if !columns[c].IsLob() {
        continue;
      }
      var longest := LongestLob(lengths, c, table);
      if longest == 0 {
        NoChunks(c, columns[c].ChunkLimit());
        continue;
      }
      var chunks := PlanChunks(c, longest, columns[c].ChunkLimit());
      specs := specs + chunks;
    }
  }

  // ---- Windows and batches ----

  function SpecBytes(columns: seq<ColumnKind>, spec: Spec): nat {
    if spec.column < |columns| && columns[spec.column].Dbclob? then 2 * spec.len else spec.len
  }

  function WindowBytes(columns: seq<ColumnKind>, specs: seq<Spec>): nat {
    if specs == [] then 0
    else WindowBytes(columns, specs[..|specs| - 1]) + SpecBytes(columns, specs[|specs| - 1])
  }

  predicate CanAccept(tuning: Tuning, current: nat, next: nat) {
    current + next <= tuning.windowTarget && current + next <= tuning.rowTarget
  }

  function RowsPerBatch(tuning: Tuning, bytes: nat): (batch: nat)
    requires tuning.rowLimit >= 1
    ensures 1 <= batch <= tuning.rowLimit
    ensures batch == 1 || batch * bytes <= tuning.batchTarget
    ensures batch == tuning.rowLimit || (batch + 1) * (if bytes > 1 then bytes else 1) > tuning.batchTarget
  {
    var perRow := if bytes > 1 then bytes else 1;
    var fitting := tuning.batchTarget / perRow;
    var atLeastOne := if fitting > 1 then fitting else 1;
    var rows := if atLeastOne < tuning.rowLimit then atLeastOne else tuning.rowLimit;
    FittingRows(tuning.batchTarget, perRow, rows);
    NoMoreRows(tuning.batchTarget, perRow, rows);
    rows
  }

  lemma FittingRows(target: nat, bytes: nat, rows: nat)
    requires bytes >= 1 && rows >= 1
    ensures rows <= target / bytes ==> rows * bytes <= target
  {}

  lemma NoMoreRows(target: nat, bytes: nat, rows: nat)
    requires bytes >= 1
    ensures rows >= target / bytes ==> (rows + 1) * bytes > target
  {}

  /** The next window: as many specs as the targets allow, but at least one. */
  method TakeWindow(columns: seq<ColumnKind>, specs: seq<Spec>, at: nat, tuning: Tuning)
    returns (window: seq<Spec>, next: nat)
    requires at < |specs|
    ensures at < next <= |specs| && window == specs[at..next]
    ensures var bytes := WindowBytes(columns, window);
            |window| == 1 || (bytes <= tuning.windowTarget && bytes <= tuning.rowTarget)
    ensures var bytes := WindowBytes(columns, window);
            next < |specs| ==>
              var more := bytes + SpecBytes(columns, specs[next]);
              more > tuning.windowTarget || more > tuning.rowTarget
  {
    hide WindowBytes, SpecBytes;
    window, next := [], at;
    var bytes := 0;
    WindowGrows(columns, [], specs[at]);
    while next < |specs|
      invariant at <= next <= |specs| && window == specs[at..next] && bytes == WindowBytes(columns, window)
      invariant |window| <= 1 || (bytes <= tuning.windowTarget && bytes <= tuning.rowTarget)
    {
      var spec := specs[next];
      var specBytes := SpecBytes(columns, spec);
      if window != [] && !CanAccept(tuning, bytes, specBytes) {
        break;
      }
      WindowGrows(columns, window, spec);
      assert specs[at..next + 1] == window + [spec];
      window := window + [spec];
      bytes := bytes + specBytes;
      next := next + 1;
    }
  }

  lemma WindowGrows(columns: seq<ColumnKind>, window: seq<Spec>, spec: Spec)
    ensures WindowBytes(columns, []) == 0
    ensures WindowBytes(columns, window + [spec]) == WindowBytes(columns, window) + SpecBytes(columns, spec)
  {
    assert (window + [spec])[..|window|] == window;
  }

  /** Whether any row from lo to hi reaches any chunk of the window. */
  method WindowApplies(window: seq<Spec>, lengths: array2<Option<nat>>, lo: nat, hi: nat) returns (applies: bool)
    requires lo <= hi <= lengths.Length1 && SpecsFit(window, lengths.Length0)
    ensures applies <==>
              exists k, r | 0 <= k < |window| && lo <= r < hi :: Reaches(lengths[window[k].column, r], window[k])
  {
    for k := 0 to |window|
      invariant forall j, r | 0 <= j < k && lo <= r < hi :: !Reaches(lengths[window[j].column, r], window[j])
    {
      for r := lo to hi
        invariant forall s | lo <= s < r :: !Reaches(lengths[window[k].column, s], window[k])
      {
        if Reaches(lengths[window[k].column, r], window[k]) {
          return true;
        }
      }
    }
    return false;
  }

  predicate Reaches(length: Option<nat>, spec: Spec) {
    length.Some? && length.value >= spec.start
  }

  // ---- Appending ----

  /** What the chunks of `specs` contribute to a LOB of column c, in the order of `specs`. */
  function Pieces(text: Text, c: nat, specs: seq<Spec>): Text
  {
    if specs == [] then ""
    else (if specs[0].column == c then PieceOf(text, specs[0]) else "") + Pieces(text, c, specs[1..])
  }

  lemma {:induction false} PiecesAppend(text: Text, c: nat, a: seq<Spec>, b: seq<Spec>)
    ensures Pieces(text, c, a + b) == Pieces(text, c, a) + Pieces(text, c, b)
  {
    if a == [] {
      assert a + b == b;
    } else {
      assert (a + b)[1..] == a[1..] + b;
      PiecesAppend(text, c, a[1..], b);
    }
  }

  /** A cell after the chunks of `specs` were appended. */
  function Grown(cell: Value, source: Value, c: nat, specs: seq<Spec>): Value
  {
    if cell.Chars? && source.Chars? then Chars(cell.text + Pieces(source.text, c, specs)) else cell
  }

  /** Row r holds its start values with the chunks of `done` appended. */
  ghost predicate RowHas(out: array2<Value>, r: nat, start: Table, table: Table, done: seq<Spec>)
    requires r < out.Length0 <= |start| && r < |table| && |start[r]| == out.Length1 == |table[r]|
    reads out
  {
    forall c | 0 <= c < out.Length1 :: out[r, c] == Grown(start[r][c], table[r][c], c, done)
  }

  /** Client cells start as LOBs exactly where the server has LOBs. */
  ghost predicate Shaped(out: array2<Value>, start: Table, table: Table) {
    && |start| == |table| == out.Length0
    && forall r | 0 <= r < |table| ::
         && |table[r]| == |start[r]| == out.Length1
         && forall c | 0 <= c < |table[r]| :: start[r][c].Chars? <==> table[r][c].Chars?
  }

  function Trim(chunk: Text, remaining: nat): Text {
    if |chunk| <= remaining then chunk else chunk[..remaining]
  }

  method AppendChunk(out: array2<Value>, r: nat, c: nat, lobLen: nat, start: nat, chunk: Text)
    modifies out
    ensures forall i, j | 0 <= i < out.Length0 && 0 <= j < out.Length1 && (i != r || j != c) ::
              out[i, j] == old(out[i, j])
    ensures r < out.Length0 && c < out.Length1 ==>
              var before := if start <= 1 then 0 else start - 1;
              var piece := if lobLen <= before then "" else Trim(chunk, lobLen - before);
              out[r, c] == if old(out[r, c]).Chars? then Chars(old(out[r, c]).text + piece)
                           else if old(out[r, c]).Null? && piece != "" then Chars(piece)
                           else old(out[r, c])
  {
    var before := if start <= 1 then 0 else start - 1;
    var remaining := if lobLen <= before then 0 else lobLen - before;
    var piece := Trim(chunk, remaining);
    assert remaining == 0 ==> piece == "";
    if piece == "" || r >= out.Length0 || c >= out.Length1 {
      assert forall t: Text :: t + "" == t;
      return;
    }
    match out[r, c]
    case Chars(text) => out[r, c] := Chars(text + piece);
    case Null => out[r, c] := Chars(piece);
    case Plain(_) =>
  }

  /** The chunk of a reply, trimmed to what remains of the LOB, is exactly the piece. */
  lemma TrimmedChunk(chunk: Option<Text>, source: Value, spec: Spec)
    requires IsSubstr(chunk, source, spec) && source.Chars? && |source.text| >= spec.start
    ensures Trim(chunk.value, |source.text| - (spec.start - 1)) == PieceOf(source.text, spec)
  {}

  /** One more chunk at the end of a cell's chunks. */
  lemma GrownNext(cell: Value, source: Value, c: nat, done: seq<Spec>, spec: Spec)
    ensures Grown(cell, source, c, done + [spec])
         == if cell.Chars? && source.Chars? && spec.column == c
            then Chars(Grown(cell, source, c, done).text + PieceOf(source.text, spec))
            else Grown(cell, source, c, done)
  {
    if cell.Chars? && source.Chars? {
      PiecesAppend(source.text, c, done, [spec]);
      var piece := if spec.column == c then PieceOf(source.text, spec) else "";
      assert Pieces(source.text, c, [spec]) == piece + Pieces(source.text, c, [spec][1..]);
      assert cell.text + (Pieces(source.text, c, done) + piece) == cell.text + Pieces(source.text, c, done) + piece;
    }
  }

  /** One chunk of a reply row, if the LOB reaches it. */
  method AppendSpec(out: array2<Value>, lengths: array2<Option<nat>>, r: nat, spec: Spec, reply: Option<Text>,
                    ghost start: Table, ghost table: Table, ghost done: seq<Spec>)
    requires Shaped(out, start, table) && Lengths(lengths, table) && lengths.Length0 == out.Length1
    requires r < |table| && spec.column < out.Length1 && IsSubstr(reply, table[r][spec.column], spec)
    requires RowHas(out, r, start, table, done)
    modifies out
    ensures RowHas(out, r, start, table, done + [spec])
    ensures forall s: nat, d: seq<Spec> | s < |table| && s != r ::
              old(RowHas(out, s, start, table, d)) ==> RowHas(out, s, start, table, d)
  {
    var c := spec.column;
    forall j | 0 <= j < out.Length1
      ensures var before := Grown(start[r][j], table[r][j], j, done);
              Grown(start[r][j], table[r][j], j, done + [spec])
              == if before.Chars? && c == j then Chars(before.text + PieceOf(table[r][j].text, spec)) else before
    {
      GrownNext(start[r][j], table[r][j], j, done, spec);
    }
    hide Grown;
    assert forall t: Text :: t + "" == t;
    if Reaches(lengths[c, r], spec) {
      var chunk := if reply.Some? then reply.value else "";
      TrimmedChunk(reply, table[r][c], spec);
      AppendChunk(out, r, c, lengths[c, r].value, spec.start, chunk);
    }
  }

  /** The chunks of one reply row. */
  method AppendRow(out: array2<Value>, lengths: array2<Option<nat>>, r: nat, specs: seq<Spec>, row: ReplyRow,
                   ghost start: Table, ghost table: Table, ghost done: seq<Spec>)
    requires Shaped(out, start, table) && Lengths(lengths, table) && lengths.Length0 == out.Length1
    requires r < |table| && SpecsFit(specs, out.Length1) && IsReplyRow(row, table, specs, r, out.Length1)
    requires RowHas(out, r, start, table, done)
    modifies out
    ensures RowHas(out, r, start, table, done + specs)
    ensures forall s: nat, d: seq<Spec> | s < |table| && s != r ::
              old(RowHas(out, s, start, table, d)) ==> RowHas(out, s, start, table, d)
  {
    hide RowHas, IsSubstr, Lengths;
    assert done + specs[..0] == done;
    for k := 0 to |specs|
      invariant RowHas(out, r, start, table, done + specs[..k])
      invariant forall s: nat, d: seq<Spec> | s < |table| && s != r ::
                  old(RowHas(out, s, start, table, d)) ==> RowHas(out, s, start, table, d)
    {
      assert done + specs[..k] + [specs[k]] == done + specs[..k + 1];
      AppendSpec(out, lengths, r, specs[k], row.chunks[k], start, table, done + specs[..k]);
    }
    assert done + specs[..|specs|] == done + specs;
  }

  lemma {:induction false} NumbersMember(reply: seq<ReplyRow>, n: nat)
    ensures n in Numbers(reply) <==> exists i | 0 <= i < |reply| :: reply[i].number == Some(n)
  {
    if reply != [] {
      NumbersMember(reply[..|reply| - 1], n);
      assert forall i | 0 <= i < |reply| - 1 :: reply[i] == reply[..|reply| - 1][i];
    }
  }

  /** Rows lo to hi have their new chunks where the reply rows read so far say so; the others
      still lack them. */
  ghost predicate Appending(out: array2<Value>, start: Table, table: Table, done: seq<Spec>, specs: seq<Spec>,
                            lo: nat, hi: nat, numbers: set<nat>)
    requires Shaped(out, start, table) && hi <= |table|
    reads out
  {
    && (forall r | lo <= r < hi :: r + 1 in numbers ==> RowHas(out, r, start, table, done + specs))
    && (forall r | lo <= r < hi :: r + 1 !in numbers ==> RowHas(out, r, start, table, done))
  }

  /** A whole grid reply: every row it is about gets its chunks, whatever order they come in. */
  method AppendGridReply(reply: seq<ReplyRow>, specs: seq<Spec>, lengths: array2<Option<nat>>, out: array2<Value>,
                         ghost start: Table, ghost table: Table, ghost done: seq<Spec>, ghost lo: nat, ghost hi: nat)
    requires Shaped(out, start, table) && Lengths(lengths, table) && lengths.Length0 == out.Length1
    requires lo <= hi <= |table| && SpecsFit(specs, out.Length1)
    requires IsGridReply(reply, table, specs, lo, hi, out.Length1)
    requires forall r | lo <= r < hi :: RowHas(out, r, start, table, done)
    modifies out
    ensures forall r | lo <= r < hi :: RowHas(out, r, start, table, done + specs)
    ensures forall s: nat, d: seq<Spec> | s < |table| && !(lo <= s < hi) ::
              old(RowHas(out, s, start, table, d)) ==> RowHas(out, s, start, table, d)
  {
    hide Grown;
    for i := 0 to |reply|
      invariant Appending(out, start, table, done, specs, lo, hi, Numbers(reply[..i]))
      invariant forall s: nat, d: seq<Spec> | s < |table| && !(lo <= s < hi) ::
                  old(RowHas(out, s, start, table, d)) ==> RowHas(out, s, start, table, d)
    {
      var number := if reply[i].number.Some? then reply[i].number.value else i + 1;
      NumbersMember(reply[..i], number);
      assert reply[..i + 1][..i] == reply[..i];
      assert forall j | 0 <= j < i :: reply[..i][j].number != reply[i].number;
      if number == 0 || number - 1 >= out.Length0 {
        continue;
      }
      AppendRow(out, lengths, number - 1, specs, reply[i], start, table, done);
    }
    assert reply[..|reply|] == reply;
  }

  /** No row of the batch reaches the window, so it contributes nothing to them. */
  lemma {:induction false} UnreachedPieces(text: Text, c: nat, window: seq<Spec>)
    requires forall k | 0 <= k < |window| :: window[k].column == c ==> |text| < window[k].start
    ensures Pieces(text, c, window) == ""
  {
    if window != [] {
      UnreachedPieces(text, c, window[1..]);
    }
  }

  lemma UnreachedRow(out: array2<Value>, lengths: array2<Option<nat>>, r: nat, window: seq<Spec>,
                     start: Table, table: Table, done: seq<Spec>)
    requires Shaped(out, start, table) && Lengths(lengths, table) && lengths.Length0 == out.Length1
    requires r < |table| && SpecsFit(window, out.Length1) && RowHas(out, r, start, table, done)
    requires forall k | 0 <= k < |window| :: !Reaches(lengths[window[k].column, r], window[k])
    ensures RowHas(out, r, start, table, done + window)
  {
    forall c | 0 <= c < out.Length1
      ensures Grown(start[r][c], table[r][c], c, done + window) == Grown(start[r][c], table[r][c], c, done)
    {
      if table[r][c].Chars? {
        var text := table[r][c].text;
        UnreachedPieces(text, c, window);
        PiecesAppend(text, c, done, window);
      }
    }
  }

  /** One window of chunks, fetched for all rows in batches. */
  method FetchWindow(columns: seq<ColumnKind>, window: seq<Spec>, server: (seq<Spec>, nat, nat) -> seq<ReplyRow>,
                     lengths: array2<Option<nat>>, out: array2<Value>, tuning: Tuning,
                     ghost start: Table, ghost table: Table, ghost done: seq<Spec>)
    requires Shaped(out, start, table) && Lengths(lengths, table) && lengths.Length0 == out.Length1 == |columns|
    requires Serves(server, table, |columns|) && SpecsFit(window, |columns|) && tuning.rowLimit >= 1
    requires forall r | 0 <= r < |table| :: RowHas(out, r, start, table, done)
    modifies out
    ensures forall r | 0 <= r < |table| :: RowHas(out, r, start, table, done + window)
  {
    var batch := RowsPerBatch(tuning, WindowBytes(columns, window));
    var lo := 0;
    hide Grown, Lengths, IsGridReply;
    while lo < out.Length0
      invariant 0 <= lo <= out.Length0
      invariant forall r | 0 <= r < lo :: RowHas(out, r, start, table, done + window)
      invariant forall r | lo <= r < |table| :: RowHas(out, r, start, table, done)
    {
      var hi := if lo + batch < out.Length0 then lo + batch else out.Length0;
      var applies := WindowApplies(window, lengths, lo, hi);
      if !applies {
        forall r | lo <= r < hi
          ensures RowHas(out, r, start, table, done + window)
        {
          UnreachedRow(out, lengths, r, window, start, table, done);
        }
        lo := hi;
        continue;
      }
      var reply := server(window, lo, hi);
      AppendGridReply(reply, window, lengths, out, start, table, done, lo, hi);
      lo := hi;
    }
  }

  /** All chunks, window by window: every row ends with its own pieces of every chunk, each
      once and in the order of `specs`, whatever the tuning values. */
  method FetchSpecs(columns: seq<ColumnKind>, specs: seq<Spec>, server: (seq<Spec>, nat, nat) -> seq<ReplyRow>,
                    lengths: array2<Option<nat>>, out: array2<Value>, tuning: Tuning,
                    ghost start: Table, ghost table: Table, ghost done: seq<Spec>)
    requires Shaped(out, start, table) && Lengths(lengths, table) && lengths.Length0 == out.Length1 == |columns|
    requires Serves(server, table, |columns|) && SpecsFit(specs, |columns|) && tuning.rowLimit >= 1
    requires forall r | 0 <= r < |table| :: RowHas(out, r, start, table, done)
    modifies out
    ensures forall r | 0 <= r < |table| :: RowHas(out, r, start, table, done + specs)
  {
    hide RowHas, Lengths, Serves;
    var at := 0;
    assert done + specs[..0] == done;
    while at < |specs|
      invariant 0 <= at <= |specs|
      invariant forall r | 0 <= r < |table| :: RowHas(out, r, start, table, done + specs[..at])
    {
      var window, next := TakeWindow(columns, specs, at, tuning);
      FetchWindow(columns, window, server, lengths, out, tuning, start, table, done + specs[..at]);
      assert done + specs[..at] + window == done + specs[..next];
      at := next;
    }
    assert done + specs[..|specs|] == done + specs;
  }

  // ---- The base path ----

  /** The pieces of a column's chunks from one of them on are the rest of the text. */
  lemma {:induction false} PiecesOfChunks(text: Text, c: nat, number: nat, start: Position, max: nat, limit: nat)
    requires limit > 0 && |text| <= max
    ensures Pieces(text, c, Chunks(c, number, start, max, limit)) == if |text| < start then "" else text[start - 1..]
    decreases max + 1 - start
  {
    if start <= max {
      var len := if limit <= max - start + 1 then limit else max - start + 1;
      var rest := Chunks(c, number + 1, start + len, max, limit);
      PiecesOfChunks(text, c, number + 1, start + len, max, limit);
      assert ([Spec(c, number, start, len)] + rest)[1..] == rest;
    }
  }

  lemma {:induction false} ChunksFit(column: nat, number: nat, start: Position, max: nat, limit: nat)
    requires limit > 0
    ensures forall k | 0 <= k < |Chunks(column, number, start, max, limit)| ::
              Chunks(column, number, start, max, limit)[k].column == column
    decreases max + 1 - start
  {
    if start <= max {
      var len := if limit <= max - start + 1 then limit else max - start + 1;
      ChunksFit(column, number + 1, start + len, max, limit);
    }
  }

  lemma {:induction false} MaxLengthBound(table: Table, c: nat, n: nat, r: nat)
    requires r < n <= |table| && forall r | 0 <= r < n :: c < |table[r]|
    ensures table[r][c].Chars? ==> |table[r][c].text| <= MaxLength(table, c, n)
    decreases n
  {
    if r < n - 1 {
      MaxLengthBound(table, c, n - 1, r);
    }
  }

  /** The combined chunks of all columns give every LOB back whole. */
  lemma {:induction false} PiecesOfCombined(columns: seq<ColumnKind>, table: Table, r: nat, c: nat, n: nat)
    requires WellTyped(table, columns) && r < |table| && c < |columns| && table[r][c].Chars? && n <= |columns|
    ensures SpecsFit(CombinedSpecs(columns, table, n), |columns|)
    ensures Pieces(table[r][c].text, c, CombinedSpecs(columns, table, n)) == if c < n then table[r][c].text else ""
  {
    hide Chunks, MaxLength, Pieces;
    NoPieces(table[r][c].text, c);
    if n > 0 {
      var text, max, limit := table[r][c].text, MaxLength(table, n - 1, |table|), columns[n - 1].ChunkLimit();
      PiecesOfCombined(columns, table, r, c, n - 1);
      PiecesAppend(text, c, CombinedSpecs(columns, table, n - 1), ColumnSpecs(columns, table, n - 1));
      ChunksFit(n - 1, 1, 1, max, limit);
      if c == n - 1 {
        MaxLengthBound(table, c, |table|, r);
        PiecesOfChunks(text, c, 1, 1, max, limit);
      } else {
        UnreachedPieces(text, c, ColumnSpecs(columns, table, n - 1));
      }
    }
  }

  lemma NoPieces(text: Text, c: nat)
    ensures Pieces(text, c, []) == ""
  {}
}
