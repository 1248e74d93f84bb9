/** Putting EXTDTA payloads into the result slots that wait for them (connection.rs, row.rs). */
module Extdta {
  import opened Wire

  const FDODTA: U16 := 0x147A
  const LOCATOR_TEXT := "LOB locator 0x"

  const LONG_COLUMN := 32768

  datatype ColumnType =
    | BlobColumn | BlobLocator | LobBytes
    | ClobColumn | DbClobColumn | ClobLocator | DbClobLocator | LobChar
    | XmlColumn
    | VarChar(length: U16) | VarGraphic(length: U16)
    | OtherColumn

  /** What a column's payloads become; columns without EXTDTA have no target. */
  datatype Target = ToBlob | ToClob | ToXml | NoTarget

  datatype Descriptor = Descriptor(columnType: ColumnType, nullable: bool) {
    /** Only long character strings are externalized. */
    function Target(): Target {
      match columnType
      case BlobColumn | BlobLocator | LobBytes => ToBlob
      case XmlColumn => ToXml
      case ClobColumn | DbClobColumn | ClobLocator | DbClobLocator | LobChar => ToClob
      case VarChar(length) => if length >= LONG_COLUMN then ToClob else NoTarget
      case VarGraphic(length) => if length >= LONG_COLUMN then ToClob else NoTarget
      case OtherColumn => NoTarget
    }
  }

  /** Column values; text is kept as the bytes it is decoded from. */
  datatype Value = Blob(bytes: Bytes) | Clob(bytes: Bytes) | Xml(bytes: Bytes) | Scalar(id: int)

  datatype RowState = RowState(values: seq<Value>, pending: Option<seq<nat>>)

  // ---- Payloads ----

  function U32At(b: Bytes, i: nat): nat
    requires i + 3 < |b|
  {
    (U16At(b, i) as int) * 0x1_0000 + U16At(b, i + 2)
  }

  /** Takes an FDODTA object header or a four-byte length off, if either fits the payload. */
  function Unwrap(payload: Bytes): Bytes {
    if |payload| >= 4 && U16At(payload, 0) == |payload| && U16At(payload, 2) == FDODTA then payload[4..]
    else if |payload| >= 4 && U32At(payload, 0) == |payload| - 4 then payload[4..]
    else payload
  }

  function ValuePayload(payload: Bytes, nullable: bool): Bytes {
    var inner := Unwrap(payload);
    if nullable && inner != [] && (inner[0] == 0x00 || inner[0] == 0xFF) then Unwrap(inner[1..]) else inner
  }

  function Materialized(d: Descriptor, before: Value, payload: Bytes): Value {
    var bytes := ValuePayload(payload, d.nullable);
    match d.Target()
    case ToBlob => Blob(bytes)
    case ToClob => Clob(bytes)
    case ToXml => Xml(bytes)
    case NoTarget => before
  }

  // ---- Slots ----

  predicate StartsWithLocator(b: Bytes) {
    |b| >= |LOCATOR_TEXT| && forall i | 0 <= i < |LOCATOR_TEXT| :: b[i] as int == LOCATOR_TEXT[i] as int
  }

  /** How rows without tracking recognise a reference: by what it looks like. */
  predicate LooksLikeReference(v: Value) {
    match v
    case Clob(bytes) => StartsWithLocator(bytes)
    case Xml(bytes) => StartsWithLocator(bytes)
    case Blob(bytes) => |bytes| == 4
    case Scalar(_) => false
  }

  predicate IsSlot(s: RowState, ds: seq<Descriptor>, c: nat) {
    && c < |s.values| && c < |ds|
    && ds[c].Target() != NoTarget
    && if s.pending.Some? then c in s.pending.value else LooksLikeReference(s.values[c])
  }

  function Without(columns: seq<nat>, c: nat): seq<nat> {
    if columns == [] then []
    else if columns[0] == c then Without(columns[1..], c)
    else [columns[0]] + Without(columns[1..], c)
  }

  function Filled(s: RowState, ds: seq<Descriptor>, c: nat, payload: Bytes): RowState
    requires c < |s.values| && c < |ds|
  {
    RowState(s.values[c := Materialized(ds[c], s.values[c], payload)],
             if s.pending.Some? then Some(Without(s.pending.value, c)) else None)
  }

  // ---- Filling the slots of rows in order ----

  /** A row's slots from column c on, filled from the front of `payloads`, and the payloads left. */
  function FillRow(s: RowState, ds: seq<Descriptor>, c: nat, payloads: seq<Bytes>): (RowState, seq<Bytes>)
    decreases |s.values| - c
  {
    if c >= |s.values| then (s, payloads)
    else if !IsSlot(s, ds, c) then FillRow(s, ds, c + 1, payloads)
    else if payloads == [] then (s, [])
    else FillRow(Filled(s, ds, c, payloads[0]), ds, c + 1, payloads[1..])
  }

  function FillRows(rows: seq<RowState>, ds: seq<Descriptor>, payloads: seq<Bytes>): seq<RowState> {
    if rows == [] then []
    else
      var (first, left) := FillRow(rows[0], ds, 0, payloads);
      [first] + FillRows(rows[1..], ds, left)
  }

  class Row {
    var values: seq<Value>
    var pendingExtdta: Option<seq<nat>>

    function State(): RowState
      reads this
    {
      RowState(values, pendingExtdta)
    }

    /** `from_wire`: the decoder's list of pending columns is kept only if they are tracked. */
    constructor (values: seq<Value>, extdtaColumns: seq<nat>, trackExtdta: bool)
      ensures State() == RowState(values, if trackExtdta then Some(extdtaColumns) else None)
    {
      this.values := values;
      pendingExtdta := if trackExtdta then Some(extdtaColumns) else None;
    }

    predicate NeedsExtdta(c: nat, legacyReference: bool)
      reads this
    {
      if pendingExtdta.Some? then c in pendingExtdta.value else legacyReference
    }

    method MarkExtdtaMaterialized(c: nat)
      modifies this`pendingExtdta
      ensures pendingExtdta == if old(pendingExtdta).Some? then Some(Without(old(pendingExtdta).value, c)) else None
    {
      if pendingExtdta.Some? {
        var columns := pendingExtdta.value;
        var kept: seq<nat> := [];
        for i := 0 to |columns|
          invariant kept + Without(columns[i..], c) == Without(columns, c)
        {
          assert columns[i..][1..] == columns[i + 1..];
          if columns[i] != c {
            var rest := Without(columns[i + 1..], c);
            assert kept + ([columns[i]] + rest) == kept + [columns[i]] + rest;
            kept := kept + [columns[i]];
          }
        }
        assert columns[|columns|..] == [] && kept + [] == kept;
        pendingExtdta := Some(kept);
      }
    }
  }

  function States(rows: seq<Row>): seq<RowState>
    reads rows
  {
    seq(|rows|, i requires 0 <= i < |rows| reads rows => rows[i].State())
  }

  /** One row's slots; stops where the payloads run out. */
  method ApplyToRow(row: Row, ds: seq<Descriptor>, payloads: seq<Bytes>, from: nat) returns (next: nat, stop: bool)
    requires from <= |payloads|
    modifies row
    ensures from <= next <= |payloads| && (stop ==> next == |payloads|)
    ensures FillRow(old(row.State()), ds, 0, payloads[from..]) == (row.State(), payloads[next..])
  {
    hide FillRow, IsSlot, Without, Materialized;
    ghost var goal := FillRow(row.State(), ds, 0, payloads[from..]);
    next := from;
    for c := 0 to |row.values|
      invariant from <= next <= |payloads| && |row.values| == |old(row.values)|
      invariant FillRow(row.State(), ds, c, payloads[next..]) == goal
    {
      FillRowStep(row.State(), ds, c, payloads[next..]);
      if c >= |ds| || ds[c].Target() == NoTarget || !row.NeedsExtdta(c, LooksLikeReference(row.values[c])) {
        continue;
      }
      if next >= |payloads| {
        return next, true;
      }
      var payload := payloads[next];
      assert payloads[next..][1..] == payloads[next + 1..];
      next := next + 1;
      row.values := row.values[c := Materialized(ds[c], row.values[c], payload)];
      row.MarkExtdtaMaterialized(c);
    }
    FillRowStep(row.State(), ds, |row.values|, payloads[next..]);
    stop := false;
  }

  /** `apply_extdta_payloads_to_rows`. */
  method ApplyExtdtaPayloads(rows: seq<Row>, ds: seq<Descriptor>, payloads: seq<Bytes>)
    requires forall i, j | 0 <= i < j < |rows| :: rows[i] != rows[j]
    modifies rows
    ensures States(rows) == FillRows(old(States(rows)), ds, payloads)
  {
    hide FillRows, FillRow, Fills, IsSlot, Filled, Materialized, LooksLikeReference;
    ghost var before := States(rows);
    if rows == [] || ds == [] || payloads == [] {
      NothingToFill(before, ds, payloads);
      return;
    }
    var next := 0;
    ghost var done: seq<RowState> := [];
    FillsFrom(before, ds, payloads);
    for r := 0 to |rows|
      invariant next <= |payloads| && |done| == r
      invariant forall i | 0 <= i < r :: rows[i].State() == done[i]
      invariant forall i | r <= i < |rows| :: rows[i].State() == before[i]
      invariant Fills(done, before, ds, r, payloads[next..], FillRows(before, ds, payloads))
    {
      FillsNext(done, before, ds, r, payloads[next..], FillRows(before, ds, payloads));
      var stop;
      next, stop := ApplyToRow(rows[r], ds, payloads, next);
      done := done + [rows[r].State()];
      if stop {
        assert payloads[next..] == [];
        FillsDone(done, before, ds, r + 1, FillRows(before, ds, payloads));
        assert States(rows) == done + before[r + 1..];
        return;
      }
    }
    FillsEnd(done, before, ds, payloads[next..], FillRows(before, ds, payloads));
    assert States(rows) == done;
  }

  /** The rows before r are `done`; filling the others from `payloads` completes `goal`. */
  ghost predicate Fills(done: seq<RowState>, rows: seq<RowState>, ds: seq<Descriptor>, r: nat,
                        payloads: seq<Bytes>, goal: seq<RowState>) {
    r <= |rows| && done + FillRows(rows[r..], ds, payloads) == goal
  }

  lemma FillsFrom(rows: seq<RowState>, ds: seq<Descriptor>, payloads: seq<Bytes>)
    ensures Fills([], rows, ds, 0, payloads[0..], FillRows(rows, ds, payloads))
  {}

  lemma FillsNext(done: seq<RowState>, rows: seq<RowState>, ds: seq<Descriptor>, r: nat,
                  payloads: seq<Bytes>, goal: seq<RowState>)
    requires Fills(done, rows, ds, r, payloads, goal) && r < |rows|
    ensures var (first, left) := FillRow(rows[r], ds, 0, payloads);
            Fills(done + [first], rows, ds, r + 1, left, goal)
  {}

  lemma FillsDone(done: seq<RowState>, rows: seq<RowState>, ds: seq<Descriptor>, r: nat, goal: seq<RowState>)
    requires Fills(done, rows, ds, r, [], goal)
    ensures goal == done + rows[r..]
  {
    FillRowsNothing(rows[r..], ds);
  }

  lemma FillsEnd(done: seq<RowState>, rows: seq<RowState>, ds: seq<Descriptor>, payloads: seq<Bytes>,
                 goal: seq<RowState>)
    requires Fills(done, rows, ds, |rows|, payloads, goal)
    ensures goal == done
  {}

  lemma FillRowStep(s: RowState, ds: seq<Descriptor>, c: nat, payloads: seq<Bytes>)
    ensures c >= |s.values| ==> FillRow(s, ds, c, payloads) == (s, payloads)
    ensures c < |s.values| ==>
              && (IsSlot(s, ds, c) <==>
                    c < |ds| && ds[c].Target() != NoTarget
                    && if s.pending.Some? then c in s.pending.value else LooksLikeReference(s.values[c]))
              && FillRow(s, ds, c, payloads)
                 == if !IsSlot(s, ds, c) then FillRow(s, ds, c + 1, payloads)
                    else if payloads == [] then (s, [])
                    else FillRow(Filled(s, ds, c, payloads[0]), ds, c + 1, payloads[1..])
  {}

  lemma {:induction false} FillRowNothing(s: RowState, ds: seq<Descriptor>, c: nat)
    ensures FillRow(s, ds, c, []) == (s, [])
    decreases |s.values| - c
  {
    if c < |s.values| {
      FillRowNothing(s, ds, c + 1);
    }
  }

  lemma {:induction false} FillRowsNothing(rows: seq<RowState>, ds: seq<Descriptor>)
    ensures FillRows(rows, ds, []) == rows
  {
    if rows != [] {
      FillRowNothing(rows[0], ds, 0);
      FillRowsNothing(rows[1..], ds);
    }
  }

  lemma {:induction false} FillRowNoSlot(s: RowState, ds: seq<Descriptor>, c: nat, payloads: seq<Bytes>)
    requires forall k: nat | k >= c :: !IsSlot(s, ds, k)
    ensures FillRow(s, ds, c, payloads) == (s, payloads)
    decreases |s.values| - c
  {
    if c < |s.values| {
      FillRowNoSlot(s, ds, c + 1, payloads);
    }
  }

  lemma NothingToFill(rows: seq<RowState>, ds: seq<Descriptor>, payloads: seq<Bytes>)
    requires rows == [] || ds == [] || payloads == []
    ensures FillRows(rows, ds, payloads) == rows
  {
    if ds == [] {
      NoSlotsNoChange(rows, ds, payloads);
    } else {
      FillRowsNothing(rows, ds);
    }
  }

  /** `rows_need_extdta_payloads`. */
  predicate NeedPayloads(rows: seq<RowState>, ds: seq<Descriptor>) {
    exists r, c | 0 <= r < |rows| && 0 <= c < |rows[r].values| :: IsSlot(rows[r], ds, c)
  }

  /** Once no slot is pending, applying further payloads changes nothing, whatever the values
      look like. */
  lemma {:induction false} NoSlotsNoChange(rows: seq<RowState>, ds: seq<Descriptor>, payloads: seq<Bytes>)
    requires !NeedPayloads(rows, ds)
    ensures FillRows(rows, ds, payloads) == rows
  {
    hide FillRow, IsSlot;
    if rows != [] {
      forall k: nat
        ensures !IsSlot(rows[0], ds, k)
      {
        if IsSlot(rows[0], ds, k) {
          SlotIsInside(rows[0], ds, k);
          assert false;
        }
      }
      FillRowNoSlot(rows[0], ds, 0, payloads);
      assert forall r | 0 <= r < |rows[1..]| :: rows[1..][r] == rows[1 + r];
      NoSlotsNoChange(rows[1..], ds, payloads);
    }
  }

  lemma SlotIsInside(s: RowState, ds: seq<Descriptor>, c: nat)
    requires IsSlot(s, ds, c)
    ensures c < |s.values| && c < |ds|
  {}
}
