/** Which slot gets which payload, and how repeated applications compose (connection.rs, row.rs). */
module ExtdtaLaws {
  import opened Wire
  import opened Extdta

  // ---- What a payload delivers ----

  /** Bytes that start with their own length, as an FDODTA object or after four bytes. */
  predicate LooksWrapped(b: Bytes) {
    && |b| >= 4
    && (|| (b[0] as int * 256 + b[1] == |b| && b[2] == 0x14 && b[3] == 0x7A)
        || ((b[0] as int * 256 + b[1]) * 256 + b[2]) * 256 + b[3] == |b| - 4)
  }

  /** A value as it is sent: behind a null indicator if the column is nullable. */
  function Indicated(bytes: Bytes, nullable: bool): Bytes {
    if nullable then [0x00] + bytes else bytes
  }

  lemma UnwrapExact(b: Bytes)
    ensures LooksWrapped(b) ==> Unwrap(b) == b[4..]
    ensures !LooksWrapped(b) ==> Unwrap(b) == b
    ensures |Unwrap(b)| <= |b|
  {}

  /** A bare payload delivers the bytes sent if and only if neither they nor, in a nullable
      column, they behind their indicator happen to start with their own length. */
  lemma DeliveredExact(bytes: Bytes, nullable: bool)
    ensures ValuePayload(Indicated(bytes, nullable), nullable) == bytes
            <==> !LooksWrapped(bytes) && !LooksWrapped(Indicated(bytes, nullable))
  {
    hide Unwrap, LooksWrapped;
    var p := Indicated(bytes, nullable);
    UnwrapExact(bytes);
    UnwrapExact(p);
    var inner := Unwrap(p);
    if inner != [] {
      UnwrapExact(inner[1..]);
    }
    if nullable && inner == p {
      assert p[1..] == bytes;
    }
    WrappedLength(bytes);
    WrappedLength(p);
  }

  /** The first byte of an unwrapped payload is an indicator only in a nullable column, and only if it is 00 or FF. */
  lemma {:induction false} IndicatorByte(p: Bytes, nullable: bool)
    requires p != [] && !LooksWrapped(p)
    ensures ValuePayload(p, nullable)
         == if nullable && (p[0] == 0x00 || p[0] == 0xFF) then (if LooksWrapped(p[1..]) then p[5..] else p[1..]) else p
  {
    hide LooksWrapped;
    UnwrapExact(p);
    UnwrapExact(p[1..]);
    WrappedLength(p[1..]);
  }

  lemma WrappedLength(b: Bytes)
    ensures LooksWrapped(b) ==> |b| >= 4
  {}

  /** In an FDODTA object of its own a value arrives unless the column is nullable and the bytes
      happen to start with their own length. */
  lemma WrappedDelivered(bytes: Bytes, nullable: bool)
    requires 4 + |Indicated(bytes, nullable)| <= 0xFFFF
    ensures var p := Indicated(bytes, nullable);
            ValuePayload([(4 + |p|) / 256, (4 + |p|) % 256, 0x14, 0x7A] + p, nullable) == bytes
            <==> !(nullable && LooksWrapped(bytes))
  {
    hide LooksWrapped;
    var p := Indicated(bytes, nullable);
    var b: Bytes := [(4 + |p|) / 256, (4 + |p|) % 256, 0x14, 0x7A] + p;
    assert U16At(b, 0) == 4 + |p| == |b| && U16At(b, 2) == FDODTA && b[4..] == p;
    assert Unwrap(b) == p;
    UnwrapExact(bytes);
    WrappedLength(bytes);
    if nullable {
      assert p[1..] == bytes;
    }
  }

  /** The nullable four-byte BLOB 00 00 01 09 loses three bytes. */
  lemma IndicatorTakenForLength()
    ensures ValuePayload(Indicated([0, 0, 1, 9], true), true) == [9]
  {}

  // ---- Which columns take a payload, and as what ----

  /** Byte LOBs become a Blob, XML an Xml and every character column a Clob. */
  lemma {:induction false} PayloadKinds(d: Descriptor, before: Value, payload: Bytes)
    ensures var bytes, v := ValuePayload(payload, d.nullable), Materialized(d, before, payload);
            match d.columnType
            case BlobColumn | BlobLocator | LobBytes => v == Blob(bytes)
            case XmlColumn => v == Xml(bytes)
            case ClobColumn | DbClobColumn | ClobLocator | DbClobLocator | LobChar => v == Clob(bytes)
            case VarChar(n) => v == if n >= 32768 then Clob(bytes) else before
            case VarGraphic(n) => v == if n >= 32768 then Clob(bytes) else before
            case OtherColumn => v == before
  {}

  /** The text that an unmaterialized character value starts with. */
  const LOCATOR_PREFIX: Bytes :=
    [0x4C, 0x4F, 0x42, 0x20, 0x6C, 0x6F, 0x63, 0x61, 0x74, 0x6F, 0x72, 0x20, 0x30, 0x78]

  /** A column waits for a payload if its type is externalized and it is listed as pending or, in a row that keeps no
      list, its value is a four-byte Blob or a text that starts like a locator. */
  lemma {:induction false} WaitingColumns(s: RowState, ds: seq<Descriptor>, c: nat)
    ensures IsSlot(s, ds, c) <==>
            && c < |s.values| && c < |ds|
            && !ds[c].columnType.OtherColumn?
            && (ds[c].columnType.VarChar? || ds[c].columnType.VarGraphic? ==> ds[c].columnType.length >= 32768)
            && match s.pending
               case Some(columns) => c in columns
               case None =>
                 match s.values[c]
                 case Blob(bytes) => |bytes| == 4
                 case Clob(bytes) => LOCATOR_PREFIX <= bytes
                 case Xml(bytes) => LOCATOR_PREFIX <= bytes
                 case Scalar(_) => false
  {
    if c < |s.values| {
      match s.values[c]
      case Clob(bytes) => LocatorPrefix(bytes);
      case Xml(bytes) => LocatorPrefix(bytes);
      case _ =>
    }
  }

  lemma LocatorPrefix(b: Bytes)
    ensures StartsWithLocator(b) <==> LOCATOR_PREFIX <= b
  {
    assert LOCATOR_TEXT == ['L', 'O', 'B', ' ', 'l', 'o', 'c', 'a', 't', 'o', 'r', ' ', '0', 'x'];
    assert forall i | 0 <= i < 14 :: LOCATOR_TEXT[i] as int == LOCATOR_PREFIX[i];
    if StartsWithLocator(b) {
      assert b[..14] == LOCATOR_PREFIX;
    }
  }

  // ---- The k-th slot gets the k-th payload ----

  /** A row's slots from column c on. */
  function RowSlots(s: RowState, ds: seq<Descriptor>, c: nat): seq<nat>
    decreases |s.values| - c
  {
    if c >= |s.values| then []
    else (if IsSlot(s, ds, c) then [c] else []) + RowSlots(s, ds, c + 1)
  }

  function Least(a: nat, b: nat): nat {
    if a < b then a else b
  }

  function PendingOf(s: RowState): seq<nat> {
    if s.pending.Some? then s.pending.value else []
  }

  /** The row `r` is `s` with its slots `filled` given `payloads`, and nothing else changed. */
  ghost predicate RowFilled(s: RowState, r: RowState, ds: seq<Descriptor>, filled: seq<nat>, payloads: seq<Bytes>) {
    && |r.values| == |s.values| && |filled| <= |payloads| && r.pending.Some? == s.pending.Some?
    && (forall k | 0 <= k < |filled| ::
          filled[k] < |s.values| && filled[k] < |ds|
          && r.values[filled[k]] == Materialized(ds[filled[k]], s.values[filled[k]], payloads[k]))
    && (forall j | 0 <= j < |s.values| && j !in filled :: r.values[j] == s.values[j])
    && (forall x :: x in PendingOf(r) <==> x in PendingOf(s) && x !in filled)
  }

  lemma {:induction false} WithoutMembers(columns: seq<nat>, c: nat)
    ensures forall x :: x in Without(columns, c) <==> x in columns && x != c
  {
    if columns != [] {
      WithoutMembers(columns[1..], c);
    }
  }

  /** Filling column c makes no difference to the slots behind it. */
  lemma {:induction false} SlotsBehind(s: RowState, ds: seq<Descriptor>, c: nat, payload: Bytes, from: nat)
    requires c < |s.values| && c < |ds| && c < from
    ensures RowSlots(Filled(s, ds, c, payload), ds, from) == RowSlots(s, ds, from)
    decreases |s.values| - from
  {
    if from < |s.values| {
      if s.pending.Some? {
        WithoutMembers(s.pending.value, c);
      }
      SlotsBehind(s, ds, c, payload, from + 1);
    }
  }

  lemma {:induction false} RowSlotsFrom(s: RowState, ds: seq<Descriptor>, c: nat)
    ensures forall k | 0 <= k < |RowSlots(s, ds, c)| ::
              c <= RowSlots(s, ds, c)[k] < |s.values| && IsSlot(s, ds, RowSlots(s, ds, c)[k])
    ensures forall j | c <= j < |s.values| && IsSlot(s, ds, j) :: j in RowSlots(s, ds, c)
    decreases |s.values| - c
  {
    if c < |s.values| {
      RowSlotsFrom(s, ds, c + 1);
    }
  }

  lemma NothingFilled(s: RowState, ds: seq<Descriptor>, payloads: seq<Bytes>)
    ensures RowFilled(s, s, ds, [], payloads) && payloads[0..] == payloads
  {}

  /** The first slots from column c on are given the payloads, and the others are left. */
  ghost predicate TakesInOrder(s: RowState, ds: seq<Descriptor>, c: nat, payloads: seq<Bytes>) {
    var (r, left) := FillRow(s, ds, c, payloads);
    var slots := RowSlots(s, ds, c);
    var n := Least(|slots|, |payloads|);
    RowFilled(s, r, ds, slots[..n], payloads) && left == payloads[n..]
  }

  lemma {:induction false} FillRowMeaning(s: RowState, ds: seq<Descriptor>, c: nat, payloads: seq<Bytes>)
    ensures var (r, left) := FillRow(s, ds, c, payloads);
            var slots := RowSlots(s, ds, c);
            var n := Least(|slots|, |payloads|);
            RowFilled(s, r, ds, slots[..n], payloads) && left == payloads[n..]
    decreases |s.values| - c
  {
    hide RowFilled, IsSlot, Filled;
    NothingFilled(s, ds, payloads);
    if c < |s.values| {
      if !IsSlot(s, ds, c) {
        FillRowMeaning(s, ds, c + 1, payloads);
        assert RowSlots(s, ds, c) == RowSlots(s, ds, c + 1);
      } else if payloads != [] {
        SlotIsInside(s, ds, c);
        FilledLength(s, ds, c, payloads[0]);
        FillRowMeaning(Filled(s, ds, c, payloads[0]), ds, c + 1, payloads[1..]);
        TakesAtSlot(s, ds, c, payloads);
      }
    }
  }

  lemma TakesAtSlot(s: RowState, ds: seq<Descriptor>, c: nat, payloads: seq<Bytes>)
    requires c < |s.values| && c < |ds| && IsSlot(s, ds, c) && payloads != []
    requires |Filled(s, ds, c, payloads[0]).values| == |s.values|
    requires TakesInOrder(Filled(s, ds, c, payloads[0]), ds, c + 1, payloads[1..])
    ensures TakesInOrder(s, ds, c, payloads)
  {
    hide RowFilled, IsSlot, Filled;
    var t := Filled(s, ds, c, payloads[0]);
    assert FillRow(s, ds, c, payloads) == FillRow(t, ds, c + 1, payloads[1..]);
    var slots, rest := RowSlots(s, ds, c), RowSlots(s, ds, c + 1);
    var n := Least(|slots|, |payloads|);
    SlotsBehind(s, ds, c, payloads[0], c + 1);
    RowSlotsFrom(s, ds, c + 1);
    assert slots == [c] + rest;
    FilledFirst(s, FillRow(t, ds, c + 1, payloads[1..]).0, ds, c, rest[..n - 1], payloads);
    assert slots[..n] == [c] + rest[..n - 1];
    assert payloads[1..][n - 1..] == payloads[n..];
  }

  lemma FilledFirst(s: RowState, r: RowState, ds: seq<Descriptor>, c: nat, rest: seq<nat>, payloads: seq<Bytes>)
    requires c < |s.values| && c < |ds| && payloads != [] && c !in rest
    requires RowFilled(Filled(s, ds, c, payloads[0]), r, ds, rest, payloads[1..])
    ensures RowFilled(s, r, ds, [c] + rest, payloads)
  {
    hide Materialized;
    if s.pending.Some? {
      WithoutMembers(s.pending.value, c);
    }
    var filled, t := [c] + rest, Filled(s, ds, c, payloads[0]);
    forall k | 0 <= k < |filled|
      ensures filled[k] < |s.values| && filled[k] < |ds|
              && r.values[filled[k]] == Materialized(ds[filled[k]], s.values[filled[k]], payloads[k])
    {
      if k > 0 {
        assert filled[k] == rest[k - 1] && rest[k - 1] in rest;
        assert payloads[1..][k - 1] == payloads[k] && t.values[rest[k - 1]] == s.values[rest[k - 1]];
      } else {
        assert r.values[c] == t.values[c];
      }
    }
    assert forall x :: x in filled <==> x == c || x in rest;
  }

  /** How many slots stand in the rows before row r, and so at which payload row r starts. */
  function SlotsBefore(rows: seq<RowState>, ds: seq<Descriptor>, r: nat): nat
    requires r <= |rows|
  {
    if r == 0 then 0 else SlotsBefore(rows, ds, r - 1) + |RowSlots(rows[r - 1], ds, 0)|
  }

  lemma {:induction false} SlotsBeforeTail(rows: seq<RowState>, ds: seq<Descriptor>, r: nat)
    requires r < |rows|
    ensures SlotsBefore(rows, ds, r + 1) == |RowSlots(rows[0], ds, 0)| + SlotsBefore(rows[1..], ds, r)
  {
    hide RowSlots;
    if r > 0 {
      SlotsBeforeTail(rows, ds, r - 1);
    } else {
      assert SlotsBefore(rows, ds, 1) == SlotsBefore(rows, ds, 0) + |RowSlots(rows[0], ds, 0)|;
    }
  }

  /** What row r becomes: its slots are given the payloads from the r-th row's first one on. */
  ghost predicate RowGetsItsPayloads(rows: seq<RowState>, rs: seq<RowState>, ds: seq<Descriptor>,
                                     payloads: seq<Bytes>, r: nat)
    requires r < |rows| == |rs|
  {
    var from, slots := Least(SlotsBefore(rows, ds, r), |payloads|), RowSlots(rows[r], ds, 0);
    RowFilled(rows[r], rs[r], ds, slots[..Least(|slots|, |payloads| - from)], payloads[from..])
  }

  /** In row-major order the k-th slot receives the k-th payload and is no longer pending, and
      nothing else changes; payloads beyond the slots are dropped. */
  lemma {:induction false} KthSlotKthPayload(rows: seq<RowState>, ds: seq<Descriptor>, payloads: seq<Bytes>, r: nat)
    requires r < |rows|
    ensures |FillRows(rows, ds, payloads)| == |rows|
    ensures RowGetsItsPayloads(rows, FillRows(rows, ds, payloads), ds, payloads, r)
    decreases |rows|
  {
    hide FillRow, RowFilled, RowSlots;
    var (first, left) := FillRow(rows[0], ds, 0, payloads);
    var n := Least(|RowSlots(rows[0], ds, 0)|, |payloads|);
    FillRowMeaning(rows[0], ds, 0, payloads);
    FillRowsLength(rows, ds, payloads);
    if r == 0 {
      assert payloads[0..] == payloads;
    } else {
      SlotsBeforeTail(rows, ds, r - 1);
      KthSlotKthPayload(rows[1..], ds, left, r - 1);
      var from := Least(SlotsBefore(rows[1..], ds, r - 1), |left|);
      assert left[from..] == payloads[n + from..];
    }
  }

  lemma {:induction false} FillRowsLength(rows: seq<RowState>, ds: seq<Descriptor>, payloads: seq<Bytes>)
    ensures |FillRows(rows, ds, payloads)| == |rows|
  {
    hide FillRow;
    if rows != [] {
      FillRowsLength(rows[1..], ds, FillRow(rows[0], ds, 0, payloads).1);
    }
  }

  // ---- Applying payloads twice ----

  /** A row without tracking takes a slot it has filled for pending again if the value looks like
      a reference itself. */
  predicate LooksPendingAgain(s: RowState, ds: seq<Descriptor>, c: nat, payload: Bytes)
    requires c < |s.values| && c < |ds|
  {
    s.pending.None? && LooksLikeReference(Materialized(ds[c], s.values[c], payload))
  }

  /** Whether filling the slots from column c on leaves one of them pending again. */
  predicate RowReopens(s: RowState, ds: seq<Descriptor>, c: nat, payloads: seq<Bytes>)
    decreases |s.values| - c
  {
    if c >= |s.values| then false
    else if !IsSlot(s, ds, c) then RowReopens(s, ds, c + 1, payloads)
    else if payloads == [] then false
    else LooksPendingAgain(s, ds, c, payloads[0]) || RowReopens(Filled(s, ds, c, payloads[0]), ds, c + 1, payloads[1..])
  }

  /** Some slot of an untracked row that the payloads fill is given a value that looks like a
      reference. */
  ghost predicate Reopens(rows: seq<RowState>, ds: seq<Descriptor>, payloads: seq<Bytes>) {
    exists r, k :: 0 <= r < |rows| && ReopensAt(rows, ds, payloads, r, k)
  }

  predicate ReopensAt(rows: seq<RowState>, ds: seq<Descriptor>, payloads: seq<Bytes>, r: nat, k: int)
    requires r < |rows|
  {
    var slots, first := RowSlots(rows[r], ds, 0), SlotsBefore(rows, ds, r);
    && 0 <= k < |slots| && first + k < |payloads|
    && slots[k] < |rows[r].values| && slots[k] < |ds|
    && LooksPendingAgain(rows[r], ds, slots[k], payloads[first + k])
  }

  lemma FilledOne(s: RowState, ds: seq<Descriptor>, c: nat, payload: Bytes)
    requires c < |s.values| && c < |ds| && IsSlot(s, ds, c)
    ensures var t := Filled(s, ds, c, payload);
            && |t.values| == |s.values| && t.pending.Some? == s.pending.Some?
            && IsSlot(t, ds, c) == LooksPendingAgain(s, ds, c, payload)
            && forall k: nat | k != c :: IsSlot(t, ds, k) == IsSlot(s, ds, k)
  {
    hide Materialized;
    if s.pending.Some? {
      WithoutMembers(s.pending.value, c);
    }
  }

  /** The columns before the first one to fill are left alone. */
  lemma {:induction false} EarlierColumns(s: RowState, ds: seq<Descriptor>, c: nat, payloads: seq<Bytes>, k: nat)
    requires k < c && k < |s.values|
    ensures var r := FillRow(s, ds, c, payloads).0;
            |r.values| == |s.values| && r.values[k] == s.values[k] && IsSlot(r, ds, k) == IsSlot(s, ds, k)
    decreases |s.values| - c
  {
    hide IsSlot, LooksPendingAgain, Materialized;
    if c < |s.values| {
      if !IsSlot(s, ds, c) {
        EarlierColumns(s, ds, c + 1, payloads, k);
      } else if payloads != [] {
        SlotIsInside(s, ds, c);
        FilledOne(s, ds, c, payloads[0]);
        EarlierColumns(Filled(s, ds, c, payloads[0]), ds, c + 1, payloads[1..], k);
      }
    }
  }

  lemma FilledLength(s: RowState, ds: seq<Descriptor>, c: nat, payload: Bytes)
    requires c < |s.values| && c < |ds|
    ensures |Filled(s, ds, c, payload).values| == |s.values|
  {}

  lemma {:induction false} FillRowLength(s: RowState, ds: seq<Descriptor>, c: nat, payloads: seq<Bytes>)
    ensures |FillRow(s, ds, c, payloads).0.values| == |s.values|
    decreases |s.values| - c
  {
    if c < |s.values| {
      if !IsSlot(s, ds, c) {
        FillRowLength(s, ds, c + 1, payloads);
      } else if payloads != [] {
        FillRowLength(Filled(s, ds, c, payloads[0]), ds, c + 1, payloads[1..]);
      }
    }
  }

  /** Filling a row twice is filling it once with both lists; what the first left over goes on
      to the next row before the second list does. */
  lemma {:induction false} FillRowTwice(s: RowState, ds: seq<Descriptor>, c: nat, a: seq<Bytes>, b: seq<Bytes>)
    requires !RowReopens(s, ds, c, a)
    ensures var (t, left) := FillRow(s, ds, c, a);
            if left != [] then FillRow(t, ds, c, b) == (t, b) && FillRow(s, ds, c, a + b) == (t, left + b)
            else FillRow(s, ds, c, a + b) == FillRow(t, ds, c, b)
    decreases |s.values| - c
  {
    hide IsSlot, Filled, LooksPendingAgain;
    FillRowLength(s, ds, c, a);
    if c >= |s.values| {
      assert a == [] ==> a + b == b;
    } else if !IsSlot(s, ds, c) {
      FillRowTwice(s, ds, c + 1, a, b);
      EarlierColumns(s, ds, c + 1, a, c);
    } else if a == [] {
      assert a + b == b;
    } else {
      SlotIsInside(s, ds, c);
      FilledOne(s, ds, c, a[0]);
      var t := Filled(s, ds, c, a[0]);
      assert (a + b)[0] == a[0] && (a + b)[1..] == a[1..] + b;
      FillRowTwice(t, ds, c + 1, a[1..], b);
      EarlierColumns(t, ds, c + 1, a[1..], c);
    }
  }

  /** A reference is never empty, so an empty payload overwrites it with something else. */
  lemma EmptyDiffers(d: Descriptor, before: Value, v: Value)
    requires LooksLikeReference(v) && d.Target() != NoTarget
    ensures Materialized(d, before, []) != v
  {}

  /** A slot that is pending again takes the next payload, which was not meant for it. */
  lemma {:induction false} ReopenedTakesNext(s: RowState, ds: seq<Descriptor>, c: nat, a: seq<Bytes>)
    requires RowReopens(s, ds, c, a)
    ensures FillRow(FillRow(s, ds, c, a).0, ds, c, [[]]).0 != FillRow(s, ds, c, a + [[]]).0
    decreases |s.values| - c
  {
    hide IsSlot, Filled, LooksPendingAgain;
    FillRowLength(s, ds, c, a);
    if !IsSlot(s, ds, c) {
      ReopenedTakesNext(s, ds, c + 1, a);
      EarlierColumns(s, ds, c + 1, a, c);
    } else {
      SlotIsInside(s, ds, c);
      FilledOne(s, ds, c, a[0]);
      var t := Filled(s, ds, c, a[0]);
      assert (a + [[]])[0] == a[0] && (a + [[]])[1..] == a[1..] + [[]];
      EarlierColumns(t, ds, c + 1, a[1..], c);
      if LooksPendingAgain(s, ds, c, a[0]) {
        OverwrittenDiffers(s, ds, c, a);
      } else {
        ReopenedTakesNext(t, ds, c + 1, a[1..]);
      }
    }
  }

  lemma OverwrittenDiffers(s: RowState, ds: seq<Descriptor>, c: nat, a: seq<Bytes>)
    requires c < |s.values| && c < |ds| && IsSlot(s, ds, c) && a != [] && LooksPendingAgain(s, ds, c, a[0])
    ensures var r := FillRow(s, ds, c, a).0;
            var once, twice := FillRow(s, ds, c, a + [[]]).0, FillRow(r, ds, c, [[]]).0;
            && c < |r.values| == |once.values| == |twice.values|
            && once.values[c] == r.values[c] != twice.values[c]
  {
    hide Materialized, LooksLikeReference;
    var none: seq<Bytes> := [[]];
    var t := Filled(s, ds, c, a[0]);
    FilledOne(s, ds, c, a[0]);
    assert (a + none)[0] == a[0] && (a + none)[1..] == a[1..] + none && none[1..] == [];
    EarlierColumns(t, ds, c + 1, a[1..], c);
    EarlierColumns(t, ds, c + 1, a[1..] + none, c);
    var r := FillRow(s, ds, c, a).0;
    assert r == FillRow(t, ds, c + 1, a[1..]).0 && IsSlot(r, ds, c);
    var u := Filled(r, ds, c, []);
    assert FillRow(r, ds, c, none) == FillRow(u, ds, c + 1, []);
    EarlierColumns(u, ds, c + 1, [], c);
    EmptyDiffers(ds[c], r.values[c], r.values[c]);
  }

  /** The k-th slot is filled and pending again. */
  predicate SlotReopens(s: RowState, ds: seq<Descriptor>, slots: seq<nat>, payloads: seq<Bytes>, k: int) {
    && 0 <= k < |slots| && k < |payloads|
    && slots[k] < |s.values| && slots[k] < |ds|
    && LooksPendingAgain(s, ds, slots[k], payloads[k])
  }

  ghost predicate SomeReopens(s: RowState, ds: seq<Descriptor>, slots: seq<nat>, payloads: seq<Bytes>) {
    exists k :: SlotReopens(s, ds, slots, payloads, k)
  }

  lemma SlotReopensNext(s: RowState, ds: seq<Descriptor>, c: nat, rest: seq<nat>, payloads: seq<Bytes>, k: int)
    requires c < |s.values| && c < |ds| && payloads != [] && c !in rest
    ensures SlotReopens(Filled(s, ds, c, payloads[0]), ds, rest, payloads[1..], k)
            == (k >= 0 && SlotReopens(s, ds, [c] + rest, payloads, k + 1))
  {
    hide LooksLikeReference;
    if 0 <= k < |rest| && k + 1 < |payloads| {
      assert rest[k] in rest && ([c] + rest)[k + 1] == rest[k] && payloads[1..][k] == payloads[k + 1];
    }
  }

  lemma {:induction false} RowReopensMeaning(s: RowState, ds: seq<Descriptor>, c: nat, payloads: seq<Bytes>)
    ensures RowReopens(s, ds, c, payloads) <==> SomeReopens(s, ds, RowSlots(s, ds, c), payloads)
    decreases |s.values| - c
  {
    hide IsSlot, LooksPendingAgain, Filled, SomeReopens;
    var slots := RowSlots(s, ds, c);
    NoneReopens(s, ds, slots, payloads);
    if c < |s.values| {
      if !IsSlot(s, ds, c) {
        RowReopensMeaning(s, ds, c + 1, payloads);
        assert slots == RowSlots(s, ds, c + 1);
      } else if payloads != [] {
        RowReopensFirst(s, ds, c, payloads);
        RowReopensMeaning(Filled(s, ds, c, payloads[0]), ds, c + 1, payloads[1..]);
      }
    }
  }

  lemma NoneReopens(s: RowState, ds: seq<Descriptor>, slots: seq<nat>, payloads: seq<Bytes>)
    ensures slots == [] || payloads == [] ==> !SomeReopens(s, ds, slots, payloads)
  {}

  /** A slot at column c reopens, or one behind it does once it is filled. */
  lemma RowReopensFirst(s: RowState, ds: seq<Descriptor>, c: nat, payloads: seq<Bytes>)
    requires c < |s.values| && IsSlot(s, ds, c) && payloads != []
    ensures c < |ds|
    ensures var t := Filled(s, ds, c, payloads[0]);
            |t.values| == |s.values|
            && (SomeReopens(s, ds, RowSlots(s, ds, c), payloads)
                <==> LooksPendingAgain(s, ds, c, payloads[0])
                     || SomeReopens(t, ds, RowSlots(t, ds, c + 1), payloads[1..]))
  {
    hide LooksPendingAgain, SlotReopens, Filled;
    SlotIsInside(s, ds, c);
    FilledOne(s, ds, c, payloads[0]);
    SlotsBehind(s, ds, c, payloads[0], c + 1);
    RowSlotsFrom(s, ds, c + 1);
    var t, rest := Filled(s, ds, c, payloads[0]), RowSlots(s, ds, c + 1);
    var slots := RowSlots(s, ds, c);
    assert slots == [c] + rest;
    FirstReopens(s, ds, slots, payloads);
    forall k
      ensures SlotReopens(t, ds, rest, payloads[1..], k) == (k >= 0 && SlotReopens(s, ds, slots, payloads, k + 1))
    {
      SlotReopensNext(s, ds, c, rest, payloads, k);
    }
    if SomeReopens(s, ds, slots, payloads) {
      var k :| SlotReopens(s, ds, slots, payloads, k);
      InRange(s, ds, slots, payloads, k);
      if k > 0 {
        assert SlotReopens(t, ds, rest, payloads[1..], k - 1);
      }
    }
  }

  lemma InRange(s: RowState, ds: seq<Descriptor>, slots: seq<nat>, payloads: seq<Bytes>, k: int)
    requires SlotReopens(s, ds, slots, payloads, k)
    ensures k >= 0
  {}

  lemma FirstReopens(s: RowState, ds: seq<Descriptor>, slots: seq<nat>, payloads: seq<Bytes>)
    requires slots != [] && payloads != [] && slots[0] < |s.values| && slots[0] < |ds|
    ensures SlotReopens(s, ds, slots, payloads, 0) == LooksPendingAgain(s, ds, slots[0], payloads[0])
  {}

  /** What reopens in a list of rows, does so in the first row or in the others. */
  lemma ReopensSplit(rows: seq<RowState>, ds: seq<Descriptor>, a: seq<Bytes>)
    requires rows != []
    ensures Reopens(rows, ds, a)
            <==> RowReopens(rows[0], ds, 0, a) || Reopens(rows[1..], ds, FillRow(rows[0], ds, 0, a).1)
  {
    hide RowReopens, RowSlots, FillRow, LooksPendingAgain, RowFilled;
    var slots, left := RowSlots(rows[0], ds, 0), FillRow(rows[0], ds, 0, a).1;
    RowReopensMeaning(rows[0], ds, 0, a);
    FillRowMeaning(rows[0], ds, 0, a);
    assert SlotsBefore(rows, ds, 0) == 0;
    assert forall k :: ReopensAt(rows, ds, a, 0, k) <==> SlotReopens(rows[0], ds, slots, a, k);
    forall r, k | 0 <= r < |rows| - 1
      ensures ReopensAt(rows, ds, a, r + 1, k) <==> ReopensAt(rows[1..], ds, left, r, k)
    {
      SlotsBeforeTail(rows, ds, r);
      assert rows[1..][r] == rows[r + 1];
    }
    if Reopens(rows, ds, a) && !RowReopens(rows[0], ds, 0, a) {
      var r, k :| 0 <= r < |rows| && ReopensAt(rows, ds, a, r, k);
      assert r != 0 && ReopensAt(rows[1..], ds, left, r - 1, k);
    }
    if Reopens(rows[1..], ds, left) {
      var r, k :| 0 <= r < |rows[1..]| && ReopensAt(rows[1..], ds, left, r, k);
      assert ReopensAt(rows, ds, a, r + 1, k);
    }
  }

  lemma NothingReopens(rows: seq<RowState>, ds: seq<Descriptor>)
    ensures !Reopens(rows, ds, [])
  {}

  /** Applying one list of payloads and then another equals applying both at once, if the first
      leaves no slot it fills pending again. */
  lemma {:induction false} ApplyTwice(rows: seq<RowState>, ds: seq<Descriptor>, a: seq<Bytes>, b: seq<Bytes>)
    requires !Reopens(rows, ds, a)
    ensures FillRows(FillRows(rows, ds, a), ds, b) == FillRows(rows, ds, a + b)
  {
    hide IsSlot, FillRow, RowReopens, Reopens;
    if rows != [] {
      var (first, left) := FillRow(rows[0], ds, 0, a);
      ReopensSplit(rows, ds, a);
      FillRowTwice(rows[0], ds, 0, a, b);
      ApplyTwice(rows[1..], ds, left, b);
      FillRowsNothing(rows[1..], ds);
      var once := FillRows(rows, ds, a);
      assert once[0] == first && once[1..] == FillRows(rows[1..], ds, left);
    }
  }

  /** If it does, an empty second payload goes astray. */
  lemma {:induction false} ApplyTwiceFails(rows: seq<RowState>, ds: seq<Descriptor>, a: seq<Bytes>)
    requires Reopens(rows, ds, a)
    ensures FillRows(FillRows(rows, ds, a), ds, [[]]) != FillRows(rows, ds, a + [[]])
  {
    hide IsSlot, FillRow, RowReopens;
    var (first, left) := FillRow(rows[0], ds, 0, a);
    var once := FillRows(rows, ds, a);
    assert once[0] == first && once[1..] == FillRows(rows[1..], ds, left);
    ReopensSplit(rows, ds, a);
    if RowReopens(rows[0], ds, 0, a) {
      ReopenedTakesNext(rows[0], ds, 0, a);
      assert FillRows(once, ds, [[]])[0] != FillRows(rows, ds, a + [[]])[0];
    } else {
      if left == [] {
        NothingReopens(rows[1..], ds);
      }
      FillRowTwice(rows[0], ds, 0, a, [[]]);
      ApplyTwiceFails(rows[1..], ds, left);
      assert FillRows(once, ds, [[]])[1..] != FillRows(rows, ds, a + [[]])[1..];
    }
  }

  /** The law holds for all second lists if and only if no slot of an untracked row that the
      first list fills is given a value that looks like a reference. */
  lemma ApplyTwiceExact(rows: seq<RowState>, ds: seq<Descriptor>, a: seq<Bytes>)
    ensures (forall b :: FillRows(FillRows(rows, ds, a), ds, b) == FillRows(rows, ds, a + b)) <==> !Reopens(rows, ds, a)
  {
    hide FillRows, Reopens;
    if Reopens(rows, ds, a) {
      ApplyTwiceFails(rows, ds, a);
    } else {
      forall b
        ensures FillRows(FillRows(rows, ds, a), ds, b) == FillRows(rows, ds, a + b)
      {
        ApplyTwice(rows, ds, a, b);
      }
    }
  }

  predicate AllTracked(rows: seq<RowState>) {
    forall r | 0 <= r < |rows| :: rows[r].pending.Some?
  }

  /** On tracked rows that holds without condition. */
  lemma TrackedApplyTwice(rows: seq<RowState>, ds: seq<Descriptor>, a: seq<Bytes>, b: seq<Bytes>)
    requires AllTracked(rows)
    ensures FillRows(FillRows(rows, ds, a), ds, b) == FillRows(rows, ds, a + b)
  {
    hide FillRows, FillRow;
    assert forall r, k | 0 <= r < |rows| :: !ReopensAt(rows, ds, a, r, k);
    ApplyTwice(rows, ds, a, b);
  }

  /** A tracked row still has a slot exactly if it got fewer payloads than it had slots. */
  lemma RowStillPending(s: RowState, ds: seq<Descriptor>, payloads: seq<Bytes>)
    requires s.pending.Some?
    ensures var r := FillRow(s, ds, 0, payloads).0;
            (exists c: nat :: c < |r.values| && IsSlot(r, ds, c)) <==> |payloads| < |RowSlots(s, ds, 0)|
  {
    hide FillRow, Materialized;
    var r, slots := FillRow(s, ds, 0, payloads).0, RowSlots(s, ds, 0);
    var n := Least(|slots|, |payloads|);
    FillRowMeaning(s, ds, 0, payloads);
    RowSlotsFrom(s, ds, 0);
    ColumnsAscend(s, ds, 0);
    hide RowSlots;
    if n < |slots| {
      assert IsSlot(s, ds, slots[n]) && slots[n] !in slots[..n];
      assert IsSlot(r, ds, slots[n]);
    } else {
      assert slots[..n] == slots;
      forall c: nat | c < |r.values|
        ensures !IsSlot(r, ds, c)
      {
        if IsSlot(r, ds, c) {
          assert false;
        }
      }
    }
  }

  lemma NeedSplit(rows: seq<RowState>, ds: seq<Descriptor>)
    requires rows != []
    ensures NeedPayloads(rows, ds)
            <==> (exists c: nat :: c < |rows[0].values| && IsSlot(rows[0], ds, c)) || NeedPayloads(rows[1..], ds)
  {}

  /** On tracked rows slots stay pending exactly if there were fewer payloads than slots. */
  lemma {:induction false} StillPending(rows: seq<RowState>, ds: seq<Descriptor>, payloads: seq<Bytes>)
    requires AllTracked(rows)
    ensures NeedPayloads(FillRows(rows, ds, payloads), ds) <==> |payloads| < SlotsBefore(rows, ds, |rows|)
  {
    hide FillRow, IsSlot, RowSlots, NeedPayloads;
    var rs := FillRows(rows, ds, payloads);
    if rows == [] {
      NothingNeeded(ds);
    } else {
      var (first, left) := FillRow(rows[0], ds, 0, payloads);
      assert rs[0] == first && rs[1..] == FillRows(rows[1..], ds, left);
      NeedSplit(rs, ds);
      RowStillPending(rows[0], ds, payloads);
      FillRowMeaning(rows[0], ds, 0, payloads);
      SlotsBeforeTail(rows, ds, |rows| - 1);
      StillPending(rows[1..], ds, left);
    }
  }

  lemma NothingNeeded(ds: seq<Descriptor>)
    ensures !NeedPayloads([], ds)
  {}

  lemma {:induction false} ColumnsAscend(s: RowState, ds: seq<Descriptor>, c: nat)
    ensures forall i, k | 0 <= i < k < |RowSlots(s, ds, c)| :: RowSlots(s, ds, c)[i] < RowSlots(s, ds, c)[k]
    decreases |s.values| - c
  {
    if c < |s.values| {
      ColumnsAscend(s, ds, c + 1);
      RowSlotsFrom(s, ds, c + 1);
    }
  }

  /** Without tracking a four-byte BLOB is taken for a reference again: applying one payload
      and then another puts the second where the first went. */
  lemma UntrackedAppliesTwice()
    ensures var ds := [Descriptor(BlobColumn, false), Descriptor(BlobColumn, false)];
            var rows := [RowState([Blob([1, 1, 1, 1]), Blob([2, 2, 2, 2])], None)];
            var a, b := [[7, 7, 7, 7]], [[8, 8, 8, 8, 8]];
            && FillRows(rows, ds, a + b)[0].values == [Blob([7, 7, 7, 7]), Blob([8, 8, 8, 8, 8])]
            && FillRows(FillRows(rows, ds, a), ds, b)[0].values == [Blob([8, 8, 8, 8, 8]), Blob([2, 2, 2, 2])]
  {
    var ds := [Descriptor(BlobColumn, false), Descriptor(BlobColumn, false)];
    var s := RowState([Blob([1, 1, 1, 1]), Blob([2, 2, 2, 2])], None);
    var a, b := [[7, 7, 7, 7]], [[8, 8, 8, 8, 8]];
    var t := RowState([Blob([7, 7, 7, 7]), Blob([2, 2, 2, 2])], None);
    assert a[1..] == [] && b[1..] == [];
    assert Unwrap([7, 7, 7, 7]) == [7, 7, 7, 7] && Unwrap([8, 8, 8, 8, 8]) == [8, 8, 8, 8, 8];
    assert Filled(s, ds, 0, a[0]) == t;
    assert FillRow(t, ds, 1, []) == (t, []);
    assert FillRow(s, ds, 0, a) == (t, []);
    assert (a + b)[1..] == b;
    var u := RowState([Blob([7, 7, 7, 7]), Blob([8, 8, 8, 8, 8])], None);
    assert Filled(t, ds, 1, b[0]) == u;
    assert FillRow(u, ds, 2, []) == (u, []);
    assert FillRow(t, ds, 1, b) == (u, []);
    assert FillRow(s, ds, 0, a + b) == (u, []);
    var v := RowState([Blob([8, 8, 8, 8, 8]), Blob([2, 2, 2, 2])], None);
    assert Filled(t, ds, 0, b[0]) == v;
    assert FillRow(v, ds, 1, []) == (v, []);
    assert FillRow(t, ds, 0, b) == (v, []);
    assert [s][1..] == [] && [t][1..] == [];
  }
}
