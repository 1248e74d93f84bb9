/** SQLDTA: parameter rows, their LOB placeholders and the EXTDTA objects beside them
    (connection.rs). */
module Sqldta {
  import opened Wire
  import opened Dss
  import opened Ddm
  import opened DdmRoundTrip
  import opened PackedDecimal
  import opened SqldtaDescriptor

  const SQLDTA: U16 := 0x2412
  const FDODTA: U16 := 0x147A
  const EXTDTA: U16 := 0x146C
  const NULL_LID: Byte := 0x00
  const NULL_DATA: Byte := 0xFF
  const INDICATOR_NOT_NULL: Byte := 0x00
  const MAX_VARYING_INPUT_LEN: U16 := 0x7FFF
  const LUW_LOB_INPUT_PLACEHOLDER_LEN: U16 := 9
  const LUW_LOB_INPUT_EXTDTA_STATUS: Byte := 0x02
  const DRDA_TYPE_BLOB: Byte := 0xC8
  const DRDA_TYPE_DBCLOB: Byte := 0xCC
  const DRDA_TYPE_CLOB_MIXED: Byte := 0xCE

  /** What a parameter is encoded as: an integer of 2, 4 or 8 bytes, a varying string whose
      length counts units of 1 or 2 bytes, or a packed decimal. */
  datatype Kind = Integer(width: nat) | Varying(unit: nat) | Decimal(precision: Byte, scale: Byte)

  datatype LobType = NotLob | BlobType | ClobType | DbClobType | XmlType

  /** An input descriptor; `reference` is set if the value goes out in EXTDTA. */
  datatype Descriptor = Descriptor(
    drdaType: Byte, length: U16, kind: Kind, nullable: bool, lob: LobType, reference: Option<U16>)

  predicate IsKind(kind: Kind) {
    match kind
    case Integer(width) => width == 2 || width == 4 || width == 8
    case Varying(unit) => unit == 1 || unit == 2
    case Decimal(_, _) => true
  }

  predicate IsDescriptor(d: Descriptor) {
    IsKind(d.kind)
  }

  // ---- Which LOB parameters go out in EXTDTA ----

  function AsPlaceholder(d: Descriptor, base: Byte): Descriptor
    requires base % 2 == 0
  {
    d.(drdaType := base + if d.nullable then 1 else 0, reference := Some(LUW_LOB_INPUT_PLACEHOLDER_LEN))
  }

  /** A LOB too long for a varying-length descriptor, and any XML, is sent by reference. */
  function Externalized(d: Descriptor): Descriptor {
    if d.length <= MAX_VARYING_INPUT_LEN && d.lob != XmlType then d
    else
      match d.lob
      case NotLob => d
      case BlobType => AsPlaceholder(d, DRDA_TYPE_BLOB)
      case ClobType | XmlType => AsPlaceholder(d, DRDA_TYPE_CLOB_MIXED)
      case DbClobType => AsPlaceholder(d, DRDA_TYPE_DBCLOB)
  }

  /** `externalize_luw_lob_input_descriptors`: not done for z/OS. */
  method ExternalizeLobInputs(ds: array<Descriptor>, zos: bool)
    modifies ds
    ensures forall i | 0 <= i < ds.Length :: ds[i] == if zos then old(ds[i]) else Externalized(old(ds[i]))
  {
    hide AsPlaceholder;
    if zos {
      return;
    }
    for i := 0 to ds.Length
      invariant forall k | 0 <= k < i :: ds[k] == Externalized(old(ds[k]))
      invariant forall k | i <= k < ds.Length :: ds[k] == old(ds[k])
    {
      var d := ds[i];
      if d.length <= MAX_VARYING_INPUT_LEN && d.lob != XmlType {
        continue;
      }
      match d.lob
      case NotLob =>
      case BlobType => ds[i] := AsPlaceholder(d, DRDA_TYPE_BLOB);
      case ClobType | XmlType => ds[i] := AsPlaceholder(d, DRDA_TYPE_CLOB_MIXED);
      case DbClobType => ds[i] := AsPlaceholder(d, DRDA_TYPE_DBCLOB);
    }
  }

  /** A parameter: null, a number, string bytes in the descriptor's code page, or a decimal literal. */
  datatype Value = Null | Int(n: int) | Data(bytes: Bytes) | Number(text: string)

  datatype ParamError =
    | ParameterCount
    | TooManyParameters
    | NullNotAllowed(index: nat)
    | WrongType
    | OutOfRange
    | TooLarge
    | BadDecimal(error: ProtoError)

  // ---- One parameter ----

  function LittleEndian(n: nat, count: nat): (b: Bytes)
    ensures |b| == count
  {
    if count == 0 then [] else [n % 256] + LittleEndian(n / 256, count - 1)
  }

  /** Two's complement in `width` bytes. */
  function Wrapped(n: int, width: nat): nat
    requires -(Pow256(width) as int) <= n
  {
    if n < 0 then n + Pow256(width) else n
  }

  predicate FitsWidth(n: int, width: nat) {
    -(Pow256(width) as int) <= 2 * n < Pow256(width)
  }

  function EncodeValue(value: Value, d: Descriptor): Result<Bytes, ParamError>
    requires IsDescriptor(d)
  {
    match d.kind
    case Integer(width) =>
      if !value.Int? then Err(WrongType)
      else if !FitsWidth(value.n, width) then Err(OutOfRange)
      else Ok(LittleEndian(Wrapped(value.n, width), width))
    case Varying(unit) =>
      if !value.Data? then Err(WrongType)
      else if |value.bytes| / unit > 0xFFFF then Err(TooLarge)
      else Ok(U16ToBytes(|value.bytes| / unit) + value.bytes)
    case Decimal(precision, scale) =>
      if !value.Number? then Err(WrongType)
      else
        match Encoded(value.text, precision, scale)
        case Err(e) => Err(BadDecimal(e))
        case Ok(bytes) => Ok(bytes)
  }

  /** Row bytes and EXTDTA objects. */
  datatype Row = Row(data: Bytes, extdta: seq<Bytes>)

  function Indicator(nullable: bool): Bytes {
    if nullable then [INDICATOR_NOT_NULL] else []
  }

  function Placeholder(bytes: Bytes, unit: nat): Bytes
    requires unit > 0
  {
    [LUW_LOB_INPUT_EXTDTA_STATUS] + BigEndian(|bytes| / unit, 8)
  }

  /** The object a LOB value goes out in; none for an empty one, which its placeholder completes. */
  function LobObject(bytes: Bytes, d: Descriptor): seq<Bytes> {
    if bytes == [] then [] else [Marshal(EXTDTA, Indicator(d.nullable) + bytes)]
  }

  function EncodeParam(value: Value, d: Descriptor, index: nat): Result<Row, ParamError>
    requires IsDescriptor(d)
  {
    if value.Null? then if d.nullable then Ok(Row([NULL_DATA], [])) else Err(NullNotAllowed(index))
    else if d.reference.Some? then
      if !d.kind.Varying? || !value.Data? then Err(WrongType)
      else Ok(Row(Indicator(d.nullable) + Placeholder(value.bytes, d.kind.unit), LobObject(value.bytes, d)))
    else
      match EncodeValue(value, d)
      case Err(e) => Err(e)
      case Ok(bytes) => Ok(Row(Indicator(d.nullable) + bytes, []))
  }

  // ---- A row of parameters ----

  function EncodeParams(params: seq<Value>, ds: seq<Descriptor>, index: nat): Result<Row, ParamError>
    requires |params| == |ds| && forall i | 0 <= i < |ds| :: IsDescriptor(ds[i])
  {
    if params == [] then Ok(Row([], []))
    else
      match EncodeParam(params[0], ds[0], index)
      case Err(e) => Err(e)
      case Ok(first) =>
        match EncodeParams(params[1..], ds[1..], index + 1)
        case Err(e) => Err(e)
        case Ok(rest) => Ok(Row(first.data + rest.data, first.extdta + rest.extdta))
  }

  function EncodeRow(params: seq<Value>, ds: seq<Descriptor>): Result<Row, ParamError>
    requires |params| == |ds| && forall i | 0 <= i < |ds| :: IsDescriptor(ds[i])
  {
    match EncodeParams(params, ds, 0)
    case Err(e) => Err(e)
    case Ok(row) => Ok(Row([NULL_LID] + row.data, row.extdta))
  }

  ghost predicate RowContinues(data: Bytes, extdta: seq<Bytes>, params: seq<Value>, ds: seq<Descriptor>, index: nat,
                               goal: Result<Row, ParamError>)
    requires |params| == |ds| && forall i | 0 <= i < |ds| :: IsDescriptor(ds[i])
  {
    var more := EncodeParams(params, ds, index);
    goal == if more.Ok? then Ok(Row(data + more.value.data, extdta + more.value.extdta)) else more
  }

  lemma RowContinuesNext(data: Bytes, extdta: seq<Bytes>, params: seq<Value>, ds: seq<Descriptor>, index: nat,
                         goal: Result<Row, ParamError>)
    requires |params| == |ds| && params != [] && forall i | 0 <= i < |ds| :: IsDescriptor(ds[i])
    requires RowContinues(data, extdta, params, ds, index, goal)
    ensures var first := EncodeParam(params[0], ds[0], index);
            if first.Ok? then
              RowContinues(data + first.value.data, extdta + first.value.extdta, params[1..], ds[1..], index + 1, goal)
            else goal == first
  {
    hide EncodeParam;
    var first := EncodeParam(params[0], ds[0], index);
    var more := EncodeParams(params[1..], ds[1..], index + 1);
    if first.Ok? && more.Ok? {
      assert data + (first.value.data + more.value.data) == data + first.value.data + more.value.data;
      assert extdta + (first.value.extdta + more.value.extdta) == extdta + first.value.extdta + more.value.extdta;
    }
  }

  lemma RowDone(data: Bytes, extdta: seq<Bytes>, index: nat, goal: Result<Row, ParamError>)
    requires RowContinues(data, extdta, [], [], index, goal)
    ensures goal == Ok(Row(data, extdta))
  {
    assert data + [] == data && extdta + [] == extdta;
  }

  method BuildRowData(params: seq<Value>, ds: seq<Descriptor>) returns (result: Result<Row, ParamError>)
    requires |params| == |ds| && forall i | 0 <= i < |ds| :: IsDescriptor(ds[i])
    ensures result == EncodeRow(params, ds)
  {
    hide EncodeValue, Placeholder, EncodeParams, RowContinues, Marshal;
    var data: Bytes := [NULL_LID];
    var extdta: seq<Bytes> := [];
    ghost var goal := EncodeRow(params, ds);
    RowStart(params, ds);
    for i := 0 to |params|
      invariant RowContinues(data, extdta, params[i..], ds[i..], i, goal)
    {
      RowContinuesNext(data, extdta, params[i..], ds[i..], i, goal);
      assert params[i..][1..] == params[i + 1..] && ds[i..][1..] == ds[i + 1..];
      assert params[i..][0] == params[i] && ds[i..][0] == ds[i];
      ghost var was, had := data, extdta;
      var value, d := params[i], ds[i];
      assert had + [] == had && was + [] == was;
      if d.nullable {
        if value.Null? {
          data := data + [NULL_DATA];
          continue;
        }
        data := data + [INDICATOR_NOT_NULL];
      } else if value.Null? {
        return Err(NullNotAllowed(i));
      }
      assert data == was + Indicator(d.nullable);
      ghost var marked := data;
      if d.reference.Some? {
        if !d.kind.Varying? || !value.Data? {
          return Err(WrongType);
        }
        data := data + Placeholder(value.bytes, d.kind.unit);
        assert data == was + (Indicator(d.nullable) + Placeholder(value.bytes, d.kind.unit));
        if value.bytes == [] {
          continue;
        }
        var payload := if d.nullable then [INDICATOR_NOT_NULL] else [];
        payload := payload + value.bytes;
        extdta := extdta + [Marshal(EXTDTA, payload)];
        continue;
      }
      var encoded := EncodeValue(value, d);
      if encoded.Err? {
        return Err(encoded.error);
      }
      data := data + encoded.value;
      assert data == was + (Indicator(d.nullable) + encoded.value);
    }
    assert params[|params|..] == [] && ds[|params|..] == [];
    RowDone(data, extdta, |params|, goal);
    return Ok(Row(data, extdta));
  }

  lemma RowStart(params: seq<Value>, ds: seq<Descriptor>)
    requires |params| == |ds| && forall i | 0 <= i < |ds| :: IsDescriptor(ds[i])
    ensures params[0..] == params && ds[0..] == ds
    ensures RowContinues([NULL_LID], [], params, ds, 0, EncodeRow(params, ds))
  {
    var more := EncodeParams(params, ds, 0);
    assert more.Ok? ==> [] + more.value.extdta == more.value.extdta;
  }

  // ---- The whole object and its chain ----

  /** LOB references declare the placeholder's width with the high bit set. */
  function DeclaredEntry(d: Descriptor): Entry {
    Entry(d.drdaType,
          if d.reference.None? then d.length
          else if d.reference.value >= 0x8000 then d.reference.value
          else d.reference.value + 0x8000)
  }

  function DeclaredEntries(ds: seq<Descriptor>): seq<Entry> {
    seq(|ds|, i requires 0 <= i < |ds| => DeclaredEntry(ds[i]))
  }

  datatype SqlDta = SqlDta(sqldta: Bytes, extdta: seq<Bytes>)

  function Build(params: seq<Value>, ds: seq<Descriptor>): Result<SqlDta, ParamError>
    requires forall i | 0 <= i < |ds| :: IsDescriptor(ds[i])
  {
    if |ds| != |params| then Err(ParameterCount)
    else
      var prefix := Prefix(DeclaredEntries(ds));
      if prefix.None? then Err(TooManyParameters)
      else
        match EncodeRow(params, ds)
        case Err(e) => Err(e)
        case Ok(row) => Ok(SqlDta(Marshal(SQLDTA, prefix.value + Marshal(FDODTA, row.data)), row.extdta))
  }

  method BuildSqldta(params: seq<Value>, ds: seq<Descriptor>) returns (result: Result<SqlDta, ParamError>)
    requires forall i | 0 <= i < |ds| :: IsDescriptor(ds[i])
    ensures result == Build(params, ds)
  {
    hide Prefix, EncodeRow, Marshal;
    if |ds| != |params| {
      return Err(ParameterCount);
    }
    var builder := new DdmBuilder(SQLDTA);
    var prefix := BuildPrefix(DeclaredEntries(ds));
    if prefix.None? {
      return Err(TooManyParameters);
    }
    builder.AddRaw(prefix.value);
    var row := BuildRowData(params, ds);
    if row.Err? {
      return Err(row.error);
    }
    var inner := new DdmBuilder(FDODTA);
    inner.AddRaw(row.value.data);
    assert [] + row.value.data == row.value.data && [] + prefix.value == prefix.value;
    var innerBytes := inner.Build();
    builder.AddRaw(innerBytes);
    var sqldta := builder.Build();
    return Ok(SqlDta(sqldta, row.value.extdta));
  }

  /** All objects of a chain but the last carry the same-correlation flag and the chain bit. */
  function ChainOf(objects: seq<Bytes>, correlationId: U16, chained: bool): Bytes {
    if objects == [] then []
    else if |objects| == 1 then EncodeDss(Object, DssFlags(chained, false, false), correlationId, objects[0])
    else
      EncodeDss(Object, DssFlags(true, false, true), correlationId, objects[0])
      + ChainOf(objects[1..], correlationId, chained)
  }

  lemma {:induction false} ChainOfSnoc(objects: seq<Bytes>, last: Bytes, correlationId: U16, chained: bool)
    ensures ChainOf(objects + [last], correlationId, chained)
         == Linked(objects, correlationId) + EncodeDss(Object, DssFlags(chained, false, false), correlationId, last)
  {
    hide EncodeDss;
    if objects == [] {
      assert objects + [last] == [last];
    } else {
      assert (objects + [last])[1..] == objects[1..] + [last];
      ChainOfSnoc(objects[1..], last, correlationId, chained);
    }
  }

  function Linked(objects: seq<Bytes>, correlationId: U16): Bytes {
    if objects == [] then []
    else EncodeDss(Object, DssFlags(true, false, true), correlationId, objects[0]) + Linked(objects[1..], correlationId)
  }

  lemma {:induction false} LinkedSnoc(objects: seq<Bytes>, last: Bytes, correlationId: U16)
    ensures Linked(objects + [last], correlationId)
         == Linked(objects, correlationId) + EncodeDss(Object, DssFlags(true, false, true), correlationId, last)
  {
    hide EncodeDss;
    if objects == [] {
      assert objects + [last] == [last] && [last][1..] == [];
      var b := EncodeDss(Object, DssFlags(true, false, true), correlationId, last);
      assert [] + b == b + [] == b;
    } else {
      assert (objects + [last])[1..] == objects[1..] + [last];
      LinkedSnoc(objects[1..], last, correlationId);
    }
  }

  method WriteSqldta(writer: DssWriter, dta: SqlDta, chained: bool)
    modifies writer`buffer
    ensures writer.buffer == old(writer.buffer) + ChainOf([dta.sqldta] + dta.extdta, writer.correlationId, chained)
  {
    hide EncodeDss, ChainOf, Linked;
    ghost var was := writer.buffer;
    if dta.extdta == [] {
      writer.WriteObject(dta.sqldta, chained);
      ChainOfSnoc([], dta.sqldta, writer.correlationId, chained);
      LinkedNothing(writer.correlationId);
      assert [] + [dta.sqldta] == [dta.sqldta] + dta.extdta;
      return;
    }
    var last, leading := dta.extdta[|dta.extdta| - 1], dta.extdta[..|dta.extdta| - 1];
    LinkedNothing(writer.correlationId);
    LinkedSnoc([], dta.sqldta, writer.correlationId);
    assert [] + [dta.sqldta] == [dta.sqldta] + leading[..0];
    writer.WriteObjectSameCorr(dta.sqldta, true);
    for i := 0 to |leading|
      invariant writer.buffer == was + Linked([dta.sqldta] + leading[..i], writer.correlationId)
    {
      LinkedSnoc([dta.sqldta] + leading[..i], leading[i], writer.correlationId);
      assert [dta.sqldta] + leading[..i] + [leading[i]] == [dta.sqldta] + leading[..i + 1];
      writer.WriteObjectSameCorr(leading[i], true);
    }
    assert leading[..|leading|] == leading;
    ChainOfSnoc([dta.sqldta] + leading, last, writer.correlationId, chained);
    assert [dta.sqldta] + leading + [last] == [dta.sqldta] + dta.extdta;
    writer.WriteObject(last, chained);
  }

  lemma LinkedNothing(correlationId: U16)
    ensures Linked([], correlationId) == [] && forall b: Bytes :: [] + b == b
  {}
}
