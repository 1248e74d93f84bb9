/** A descriptor-driven reader of SQLDTA and EXTDTA recovers every parameter (connection.rs). */
module SqldtaRoundTrip {
  import opened Arithmetic
  import opened Wire
  import opened Dss
  import opened DssReading
  import opened Framing
  import opened Ddm
  import opened DdmRoundTrip
  import opened PackedDecimal
  import opened PackedDecimalLaws
  import opened SqldtaDescriptor
  import opened Sqldta
  import opened CodecTower

  // ---- Reading parameters ----

  function FromLittleEndian(b: Bytes): nat {
    if b == [] then 0 else b[0] + 256 * FromLittleEndian(b[1..])
  }

  function Signed(n: nat, width: nat): int {
    if 2 * n < Pow256(width) then n else n - Pow256(width)
  }

  /** What both sides know of a parameter from its preparation. Whether it is sent by reference is not part of it. */
  datatype Shape = Shape(kind: Kind, nullable: bool)

  function ShapeOf(d: Descriptor): Shape {
    Shape(d.kind, d.nullable)
  }

  function ShapesOf(ds: seq<Descriptor>): seq<Shape> {
    seq(|ds|, i requires 0 <= i < |ds| => ShapeOf(ds[i]))
  }

  predicate AllShapes(shapes: seq<Shape>) {
    forall i | 0 <= i < |shapes| :: IsKind(shapes[i].kind)
  }

  datatype Taken = Taken(value: Value, data: Bytes, extdta: seq<Bytes>)

  function TakeValue(kind: Kind, data: Bytes): Option<Taken>
    requires IsKind(kind)
  {
    match kind
    case Integer(width) =>
      if |data| < width then None
      else Some(Taken(Int(Signed(FromLittleEndian(data[..width]), width)), data[width..], []))
    case Varying(unit) =>
      if |data| < 2 || |data| < 2 + U16At(data, 0) * unit then None
      else Some(Taken(Data(data[2..2 + U16At(data, 0) * unit]), data[2 + U16At(data, 0) * unit..], []))
    case Decimal(precision, scale) =>
      var n: nat := (precision as int + 2) / 2;
      if |data| < n then None
      else
        match Decoded(data[..n], scale)
        case Err(_) => None
        case Ok(text) => Some(Taken(Number(text), data[n..], []))
  }

  /** The bytes of the next EXTDTA object, which must be as long as its placeholder said. */
  function TakeObject(s: Shape, length: nat, extdta: seq<Bytes>): Option<Bytes>
    requires IsKind(s.kind) && s.kind.Varying?
  {
    if extdta == [] then None
    else
      match ParseObject(extdta[0])
      case Err(_) => None
      case Ok(parsed) =>
        var indicator: Bytes := if s.nullable then [0x00] else [];
        var skip := |indicator|;
        if parsed.obj.codePoint != 0x146C || parsed.consumed != |extdta[0]| || |parsed.obj.data| < skip
           || parsed.obj.data[..skip] != indicator || (|parsed.obj.data| - skip) / s.kind.unit != length then None
        else Some(parsed.obj.data[skip..])
  }

  /** A placeholder of `width` bytes, and the object that belongs to it unless it declares no bytes. */
  function TakeLob(s: Shape, width: nat, data: Bytes, extdta: seq<Bytes>): Option<Taken>
    requires IsKind(s.kind)
  {
    if !s.kind.Varying? || width < 1 || |data| < width || data[0] != 0x02 then None
    else
      var length := LengthValue(data[1..width]);
      if length == 0 then Some(Taken(Data([]), data[width..], extdta))
      else
        match TakeObject(s, length, extdta)
        case None => None
        case Some(bytes) => Some(Taken(Data(bytes), data[width..], extdta[1..]))
  }

  /** The length a parameter is declared with decides: from 0x8000 on it is 0x8000 and the width of a placeholder,
      below it the value is in the row. */
  function TakeParam(s: Shape, e: Entry, data: Bytes, extdta: seq<Bytes>): Option<Taken>
    requires IsKind(s.kind)
  {
    if s.nullable && data == [] then None
    else if s.nullable && data[0] == 0xFF then Some(Taken(Null, data[1..], extdta))
    else if s.nullable && data[0] != 0x00 then None
    else
      var rest := if s.nullable then data[1..] else data;
      if e.length >= 0x8000 then TakeLob(s, e.length - 0x8000, rest, extdta)
      else
        match TakeValue(s.kind, rest)
        case None => None
        case Some(taken) => Some(taken.(extdta := extdta))
  }

  /** All parameters, using up the row bytes and the EXTDTA objects exactly. */
  function TakeParams(shapes: seq<Shape>, entries: seq<Entry>, data: Bytes, extdta: seq<Bytes>): Option<seq<Value>>
    requires AllShapes(shapes) && |entries| == |shapes|
  {
    if shapes == [] then if data == [] && extdta == [] then Some([]) else None
    else
      match TakeParam(shapes[0], entries[0], data, extdta)
      case None => None
      case Some(first) =>
        match TakeParams(shapes[1..], entries[1..], first.data, first.extdta)
        case None => None
        case Some(rest) => Some([first.value] + rest)
  }

  function ReadRow(shapes: seq<Shape>, entries: seq<Entry>, data: Bytes, extdta: seq<Bytes>): Option<seq<Value>>
    requires AllShapes(shapes) && |entries| == |shapes|
  {
    if data == [] || data[0] != 0x00 then None else TakeParams(shapes, entries, data[1..], extdta)
  }

  // ---- What is recovered ----

  /** Every value itself, but a decimal in its canonical text, truncated to the declared scale. */
  function Recovered(value: Value, d: Descriptor): Value
    requires value.Number? ==> ParseLiteral(value.text).WellFormed()
  {
    if value.Number? && d.kind.Decimal? then
      var literal := ParseLiteral(value.text);
      Number(Rendered(literal.negative, literal.Units(d.kind.scale), d.kind.scale))
    else value
  }

  /** String values come in whole code units and fit into memory. */
  predicate InUnits(value: Value, d: Descriptor) {
    value.Data? ==>
      && |value.bytes| < MAX_VEC_LEN
      && (d.kind.Varying? && d.kind.unit > 0 ==> |value.bytes| % d.kind.unit == 0)
  }

  predicate AllInUnits(params: seq<Value>, ds: seq<Descriptor>)
    requires |params| == |ds|
  {
    forall i | 0 <= i < |params| :: InUnits(params[i], ds[i])
  }

  lemma {:induction false} LittleEndianReadsBack(n: nat, count: nat)
    requires n < Pow256(count)
    ensures FromLittleEndian(LittleEndian(n, count)) == n
  {
    if count > 0 {
      LittleEndianReadsBack(n / 256, count - 1);
      assert LittleEndian(n, count)[1..] == LittleEndian(n / 256, count - 1);
    }
  }

  lemma IntegerReadsBack(n: int, width: nat, rest: Bytes)
    requires FitsWidth(n, width) && width > 0
    ensures var b := LittleEndian(Wrapped(n, width), width);
            && (b + rest)[..width] == b && (b + rest)[width..] == rest
            && Signed(FromLittleEndian(b), width) == n
  {
    LittleEndianReadsBack(Wrapped(n, width), width);
    hide LittleEndian, Pow256, FromLittleEndian;
  }

  lemma VaryingReadsBack(bytes: Bytes, unit: nat, rest: Bytes)
    requires (unit == 1 || unit == 2) && |bytes| % unit == 0 && |bytes| / unit <= 0xFFFF
    ensures var b := U16ToBytes(|bytes| / unit) + bytes + rest;
            && |b| == 2 + |bytes| + |rest|
            && U16At(b, 0) * unit == |bytes|
            && b[2..2 + |bytes|] == bytes && b[2 + |bytes|..] == rest
  {}

  /** Whatever a value is encoded to is read back, leaving what follows. */
  lemma ValueReadsBack(value: Value, d: Descriptor, rest: Bytes)
    requires IsDescriptor(d) && InUnits(value, d) && EncodeValue(value, d).Ok?
    ensures value.Number? ==> ParseLiteral(value.text).WellFormed()
    ensures TakeValue(d.kind, EncodeValue(value, d).value + rest) == Some(Taken(Recovered(value, d), rest, []))
  {
    hide LittleEndian, FromLittleEndian, Wrapped, Signed, FitsWidth, Decoded, Rendered, Canonical, ParseLiteral,
         Pow10, Val, Truncated;
    var b := EncodeValue(value, d).value + rest;
    match d.kind
    case Integer(width) => IntegerReadsBack(value.n, width, rest);
    case Varying(unit) => VaryingReadsBack(value.bytes, unit, rest);
    case Decimal(precision, scale) =>
      EncodeThenDecode(value.text, precision, scale);
      var n: nat := (precision as int + 2) / 2;
      assert b[..n] == EncodeValue(value, d).value && b[n..] == rest;
  }

  lemma PlaceholderReadsBack(bytes: Bytes, unit: nat, rest: Bytes)
    requires (unit == 1 || unit == 2) && |bytes| <= MAX_VEC_LEN
    ensures var b := Placeholder(bytes, unit) + rest;
            && |b| == 9 + |rest| && b[0] == 0x02 && b[9..] == rest
            && LengthValue(b[1..9]) == |bytes| / unit
  {
    var n := |bytes| / unit;
    assert Pow256(8) == USIZE_RANGE;
    ShiftSmall(n, 8);
    LengthFieldReadsBack(n, 8);
    var field := BigEndian(n, 8);
    assert (Placeholder(bytes, unit) + rest)[1..9] == field;
    hide BigEndian, LengthValue;
  }

  lemma ObjectReadsBack(bytes: Bytes, d: Descriptor, extdta: seq<Bytes>)
    requires IsDescriptor(d) && d.kind.Varying? && bytes != [] && |bytes| < MAX_VEC_LEN
    ensures var objects := LobObject(bytes, d) + extdta;
            && objects != [] && objects[1..] == extdta
            && TakeObject(ShapeOf(d), |bytes| / d.kind.unit, objects) == Some(bytes)
  {
    hide Marshal, ParseObject;
    var payload := Indicator(d.nullable) + bytes;
    ObjectRoundTrip(EXTDTA, payload, []);
    var printed := Marshal(EXTDTA, payload);
    var skip := |Indicator(d.nullable)|;
    assert printed + [] == printed && payload[..skip] == Indicator(d.nullable) && payload[skip..] == bytes;
  }

  lemma {:induction false} LobReadsBack(bytes: Bytes, d: Descriptor, rest: Bytes, extdta: seq<Bytes>)
    requires IsDescriptor(d) && d.kind.Varying? && |bytes| < MAX_VEC_LEN && |bytes| % d.kind.unit == 0
    ensures TakeLob(ShapeOf(d), 9, Placeholder(bytes, d.kind.unit) + rest, LobObject(bytes, d) + extdta)
         == Some(Taken(Data(bytes), rest, extdta))
  {
    hide Placeholder, LobObject, TakeObject;
    PlaceholderReadsBack(bytes, d.kind.unit, rest);
    if bytes == [] {
      NoObject(d, extdta);
    } else {
      assert |bytes| / d.kind.unit > 0;
      ObjectReadsBack(bytes, d, extdta);
    }
  }

  lemma NoObject(d: Descriptor, extdta: seq<Bytes>)
    ensures LobObject([], d) + extdta == extdta
  {}

  /** A non-null parameter is told apart by its declared length only if an inline one declares less than 0x8000. */
  predicate Legible(value: Value, d: Descriptor) {
    value.Null? || d.reference.Some? || d.length < 0x8000
  }

  predicate AllLegible(params: seq<Value>, ds: seq<Descriptor>)
    requires |params| == |ds|
  {
    forall i | 0 <= i < |params| :: Legible(params[i], ds[i])
  }

  /** Parameters are externalized with nine-byte placeholders only. */
  predicate NineWide(ds: seq<Descriptor>) {
    forall i | 0 <= i < |ds| :: ds[i].reference.Some? ==> ds[i].reference.value == 9
  }

  lemma ParamReadsBack(value: Value, d: Descriptor, index: nat, rest: Bytes, extdta: seq<Bytes>)
    requires IsDescriptor(d) && InUnits(value, d) && EncodeParam(value, d, index).Ok?
    requires Legible(value, d) && (d.reference.Some? ==> d.reference.value == 9)
    requires value.Number? ==> ParseLiteral(value.text).WellFormed()
    ensures var row := EncodeParam(value, d, index).value;
            TakeParam(ShapeOf(d), DeclaredEntry(d), row.data + rest, row.extdta + extdta)
            == Some(Taken(Recovered(value, d), rest, extdta))
  {
    hide EncodeValue, Placeholder, LobObject, TakeValue, TakeLob, Recovered;
    var row := EncodeParam(value, d, index).value;
    var all := row.data + rest;
    RecoveredOther(value, d);
    if value.Null? {
      assert all[1..] == rest && row.extdta + extdta == extdta;
    } else {
      var body := row.data[|Indicator(d.nullable)|..];
      assert d.nullable ==> all[1..] == body + rest;
      assert !d.nullable ==> all == body + rest;
      if d.reference.Some? {
        assert body == Placeholder(value.bytes, d.kind.unit);
        LobReadsBack(value.bytes, d, rest, extdta);
      } else {
        assert body == EncodeValue(value, d).value;
        assert [] + extdta == extdta;
        ValueReadsBack(value, d, rest);
      }
    }
  }

  lemma RecoveredOther(value: Value, d: Descriptor)
    requires value.Number? ==> ParseLiteral(value.text).WellFormed()
    ensures !value.Number? ==> Recovered(value, d) == value
  {}

  /** Decimal literals that encode are well formed, so what they come back as is defined. */
  lemma {:induction false} EncodedLiterals(params: seq<Value>, ds: seq<Descriptor>, index: nat)
    requires |params| == |ds| && forall i | 0 <= i < |ds| :: IsDescriptor(ds[i])
    requires EncodeParams(params, ds, index).Ok?
    ensures forall i | 0 <= i < |params| :: params[i].Number? ==> ParseLiteral(params[i].text).WellFormed()
  {
    hide ParseLiteral;
    if params != [] {
      EncodedLiterals(params[1..], ds[1..], index + 1);
      assert EncodeParam(params[0], ds[0], index).Ok?;
      assert forall i | 1 <= i < |params| :: params[i] == params[1..][i - 1];
    }
  }

  function AllRecovered(params: seq<Value>, ds: seq<Descriptor>): seq<Value>
    requires |params| == |ds|
    requires forall i | 0 <= i < |params| :: params[i].Number? ==> ParseLiteral(params[i].text).WellFormed()
  {
    seq(|params|, i requires 0 <= i < |params| => Recovered(params[i], ds[i]))
  }

  lemma {:induction false} ParamsReadBack(params: seq<Value>, ds: seq<Descriptor>, index: nat)
    requires |params| == |ds| && (forall i | 0 <= i < |ds| :: IsDescriptor(ds[i])) && AllInUnits(params, ds)
    requires AllLegible(params, ds) && NineWide(ds)
    requires forall i | 0 <= i < |params| :: params[i].Number? ==> ParseLiteral(params[i].text).WellFormed()
    requires EncodeParams(params, ds, index).Ok?
    ensures var row := EncodeParams(params, ds, index).value;
            TakeParams(ShapesOf(ds), DeclaredEntries(ds), row.data, row.extdta) == Some(AllRecovered(params, ds))
  {
    hide EncodeParam, TakeParam, Recovered, InUnits, Legible, ParseLiteral, DeclaredEntry;
    if params != [] {
      var rest := EncodeParams(params[1..], ds[1..], index + 1).value;
      ParamReadsBack(params[0], ds[0], index, rest.data, rest.extdta);
      ParamsReadBack(params[1..], ds[1..], index + 1);
      Tails(ds);
      assert AllRecovered(params, ds) == [Recovered(params[0], ds[0])] + AllRecovered(params[1..], ds[1..]);
    }
  }

  lemma Tails(ds: seq<Descriptor>)
    requires ds != []
    ensures ShapesOf(ds)[1..] == ShapesOf(ds[1..]) && DeclaredEntries(ds)[1..] == DeclaredEntries(ds[1..])
    ensures ShapesOf(ds)[0] == ShapeOf(ds[0]) && DeclaredEntries(ds)[0] == DeclaredEntry(ds[0])
  {}

  // ---- Values that are taken for placeholders ----

  /** How many values were read from EXTDTA objects. */
  function ByReference(entries: seq<Entry>, values: seq<Value>): nat
    requires |values| == |entries|
  {
    if values == [] then 0
    else (if entries[0].length >= 0x8000 && values[0].Data? && values[0].bytes != [] then 1 else 0)
         + ByReference(entries[1..], values[1..])
  }

  lemma ParamObjects(s: Shape, e: Entry, data: Bytes, extdta: seq<Bytes>)
    requires IsKind(s.kind) && TakeParam(s, e, data, extdta).Some?
    ensures var t := TakeParam(s, e, data, extdta).value;
            && |extdta| == |t.extdta| + (if e.length >= 0x8000 && t.value.Data? && t.value.bytes != [] then 1 else 0)
            && (e.length >= 0x8000 ==> t.value.Null? || t.value.Data?)
  {
    hide ParseObject, LengthValue;
  }

  /** Reading uses up one object for each of them. */
  lemma {:induction false} ObjectsUsed(shapes: seq<Shape>, entries: seq<Entry>, data: Bytes, extdta: seq<Bytes>)
    requires AllShapes(shapes) && |entries| == |shapes| && TakeParams(shapes, entries, data, extdta).Some?
    ensures var values := TakeParams(shapes, entries, data, extdta).value;
            |values| == |entries| && |extdta| == ByReference(entries, values)
  {
    hide TakeParam;
    if shapes != [] {
      ParamObjects(shapes[0], entries[0], data, extdta);
      var first := TakeParam(shapes[0], entries[0], data, extdta).value;
      ObjectsUsed(shapes[1..], entries[1..], first.data, first.extdta);
    }
  }

  /** No more objects are sent than values would be read from. */
  lemma {:induction false} ObjectsSent(params: seq<Value>, ds: seq<Descriptor>, index: nat)
    requires |params| == |ds| && (forall i | 0 <= i < |ds| :: IsDescriptor(ds[i])) && NineWide(ds)
    requires forall i | 0 <= i < |params| :: params[i].Number? ==> ParseLiteral(params[i].text).WellFormed()
    requires EncodeParams(params, ds, index).Ok?
    ensures |EncodeParams(params, ds, index).value.extdta|
         <= ByReference(DeclaredEntries(ds), AllRecovered(params, ds))
  {
    hide EncodeParam, Recovered, ParseLiteral, DeclaredEntry;
    if params != [] {
      ObjectsSent(params[1..], ds[1..], index + 1);
      Tails(ds);
      RecoveredOther(params[0], ds[0]);
      ParamSends(params[0], ds[0], index);
      assert AllRecovered(params, ds)[1..] == AllRecovered(params[1..], ds[1..]);
    }
  }

  lemma ParamSends(value: Value, d: Descriptor, index: nat)
    requires IsDescriptor(d) && EncodeParam(value, d, index).Ok? && (d.reference.Some? ==> d.reference.value == 9)
    ensures |EncodeParam(value, d, index).value.extdta| <= 1
    ensures EncodeParam(value, d, index).value.extdta != [] ==>
              value.Data? && value.bytes != [] && DeclaredEntry(d).length >= 0x8000 && d.reference.Some?
  {
    hide Marshal, EncodeValue;
  }

  /** An empty inline value does not begin like a placeholder. */
  lemma EmptyMisread(d: Descriptor, index: nat, rest: Bytes, extdta: seq<Bytes>)
    requires IsDescriptor(d) && d.reference.None? && d.length >= 0x8000 && EncodeParam(Data([]), d, index).Ok?
    ensures var row := EncodeParam(Data([]), d, index).value;
            TakeParam(ShapeOf(d), DeclaredEntry(d), row.data + rest, extdta).None?
  {
    hide TakeObject, LengthValue;
    var all := EncodeParam(Data([]), d, index).value.data + rest;
    assert d.nullable ==> all[1..][0] == 0;
  }

  /** If one value is not legible, not all values are recovered. */
  lemma {:induction false} ParamsMisread(params: seq<Value>, ds: seq<Descriptor>, index: nat)
    requires |params| == |ds| && (forall i | 0 <= i < |ds| :: IsDescriptor(ds[i])) && AllInUnits(params, ds)
    requires !AllLegible(params, ds) && NineWide(ds)
    requires forall i | 0 <= i < |params| :: params[i].Number? ==> ParseLiteral(params[i].text).WellFormed()
    requires EncodeParams(params, ds, index).Ok?
    ensures var row := EncodeParams(params, ds, index).value;
            TakeParams(ShapesOf(ds), DeclaredEntries(ds), row.data, row.extdta) != Some(AllRecovered(params, ds))
  {
    hide EncodeParam, TakeParam, Recovered, InUnits, ParseLiteral, DeclaredEntry;
    var first := EncodeParam(params[0], ds[0], index).value;
    var rest := EncodeParams(params[1..], ds[1..], index + 1).value;
    var row := EncodeParams(params, ds, index).value;
    Tails(ds);
    assert AllRecovered(params, ds)[1..] == AllRecovered(params[1..], ds[1..]);
    if Legible(params[0], ds[0]) {
      ParamReadsBack(params[0], ds[0], index, rest.data, rest.extdta);
      ParamsMisread(params[1..], ds[1..], index + 1);
    } else if TakeParams(ShapesOf(ds), DeclaredEntries(ds), row.data, row.extdta) == Some(AllRecovered(params, ds)) {
      ObjectsUsed(ShapesOf(ds), DeclaredEntries(ds), row.data, row.extdta);
      FirstMisread(params, ds, index);
      assert false;
    }
  }

  lemma FirstMisread(params: seq<Value>, ds: seq<Descriptor>, index: nat)
    requires |params| == |ds| && (forall i | 0 <= i < |ds| :: IsDescriptor(ds[i])) && NineWide(ds)
    requires params != [] && !Legible(params[0], ds[0])
    requires forall i | 0 <= i < |params| :: params[i].Number? ==> ParseLiteral(params[i].text).WellFormed()
    requires EncodeParams(params, ds, index).Ok?
    ensures var row := EncodeParams(params, ds, index).value;
            || |row.extdta| < ByReference(DeclaredEntries(ds), AllRecovered(params, ds))
            || TakeParams(ShapesOf(ds), DeclaredEntries(ds), row.data, row.extdta) != Some(AllRecovered(params, ds))
  {
    hide EncodeParam, TakeParam, Recovered, ParseLiteral;
    var row := EncodeParams(params, ds, index).value;
    var rest := EncodeParams(params[1..], ds[1..], index + 1).value;
    var s, e := ShapeOf(ds[0]), DeclaredEntry(ds[0]);
    Tails(ds);
    RecoveredOther(params[0], ds[0]);
    RecoveredNumber(params[0], ds[0]);
    assert AllRecovered(params, ds)[0] == Recovered(params[0], ds[0]);
    assert AllRecovered(params, ds)[1..] == AllRecovered(params[1..], ds[1..]);
    if params[0] == Data([]) {
      EmptyMisread(ds[0], index, rest.data, row.extdta);
    } else if params[0].Data? {
      ObjectsSent(params[1..], ds[1..], index + 1);
      ParamSends(params[0], ds[0], index);
    } else if TakeParam(s, e, row.data, row.extdta).Some? {
      ParamObjects(s, e, row.data, row.extdta);
    }
  }

  lemma RecoveredNumber(value: Value, d: Descriptor)
    requires value.Number? ==> ParseLiteral(value.text).WellFormed()
    ensures value.Number? ==> Recovered(value, d).Number?
  {}

  /** The row bytes and EXTDTA objects of a list of parameters that encodes give all of them back if and only if
      every inline one declares a length below 0x8000 or is null. */
  lemma RowReadsBack(params: seq<Value>, ds: seq<Descriptor>)
    requires |params| == |ds| && (forall i | 0 <= i < |ds| :: IsDescriptor(ds[i])) && AllInUnits(params, ds)
    requires NineWide(ds) && EncodeRow(params, ds).Ok?
    ensures forall i | 0 <= i < |params| :: params[i].Number? ==> ParseLiteral(params[i].text).WellFormed()
    ensures var row := EncodeRow(params, ds).value;
            ReadRow(ShapesOf(ds), DeclaredEntries(ds), row.data, row.extdta) == Some(AllRecovered(params, ds))
            <==> AllLegible(params, ds)
  {
    hide EncodeParams, TakeParams, ParseLiteral, AllLegible, NineWide, DeclaredEntry, AllRecovered;
    EncodedLiterals(params, ds, 0);
    if AllLegible(params, ds) {
      ParamsReadBack(params, ds, 0);
    } else {
      ParamsMisread(params, ds, 0);
    }
    assert EncodeRow(params, ds).value.data[1..] == EncodeParams(params, ds, 0).value.data;
  }

  // ---- EXTDTA objects ----

  /** The parameters from `from` on that are sent in EXTDTA: externalized, not null, not empty. */
  function SentOutside(params: seq<Value>, ds: seq<Descriptor>, from: nat): (outside: seq<nat>)
    requires from <= |params| == |ds|
    ensures forall k | 0 <= k < |outside| :: from <= outside[k] < |params|
    decreases |params| - from
  {
    if from == |params| then []
    else (if ds[from].reference.Some? && params[from].Data? && params[from].bytes != [] then [from] else [])
         + SentOutside(params, ds, from + 1)
  }

  ghost predicate IsSentAs(extdta: Bytes, value: Value, d: Descriptor) {
    && value.Data? && value.bytes != [] && d.reference.Some?
    && extdta == Marshal(EXTDTA, Indicator(d.nullable) + value.bytes)
  }

  /** The EXTDTA objects are, one for one and in order, those parameters. */
  lemma {:induction false} ExtdtaInOrder(params: seq<Value>, ds: seq<Descriptor>, from: nat, index: nat)
    requires |params| == |ds| && (forall i | 0 <= i < |ds| :: IsDescriptor(ds[i])) && from <= |params|
    requires EncodeParams(params[from..], ds[from..], index).Ok?
    ensures var outside := SentOutside(params, ds, from);
            var extdta := EncodeParams(params[from..], ds[from..], index).value.extdta;
            && |extdta| == |outside|
            && forall k | 0 <= k < |extdta| :: IsSentAs(extdta[k], params[outside[k]], ds[outside[k]])
    decreases |params| - from
  {
    hide Marshal, EncodeValue, Placeholder, IsDescriptor;
    if from < |params| {
      assert params[from..][1..] == params[from + 1..] && ds[from..][1..] == ds[from + 1..];
      assert params[from..][0] == params[from] && ds[from..][0] == ds[from];
      ExtdtaInOrder(params, ds, from + 1, index + 1);
    }
  }

  // ---- The whole object ----

  datatype Received = Received(entries: seq<Entry>, values: seq<Value>)

  /** What a server makes of an SQLDTA object and the EXTDTA objects after it. */
  function Receive(shapes: seq<Shape>, sqldta: DdmObject, extdta: seq<Bytes>): Option<Received>
    requires AllShapes(shapes)
  {
    if sqldta.codePoint != 0x2412 then None
    else
      match ReadPrefix(sqldta.data)
      case None => None
      case Some(header) =>
        match ParseObject(header.rest)
        case Err(_) => None
        case Ok(parsed) =>
          if parsed.obj.codePoint != 0x147A || parsed.consumed != |header.rest| then None
          else if |header.entries| != |shapes| then None
          else
            match ReadRow(shapes, header.entries, parsed.obj.data, extdta)
            case None => None
            case Some(values) => Some(Received(header.entries, values))
  }

  /** What the SQLDTA object holds. */
  function SqldtaBody(params: seq<Value>, ds: seq<Descriptor>): Bytes
    requires (forall i | 0 <= i < |ds| :: IsDescriptor(ds[i])) && Build(params, ds).Ok?
  {
    Prefix(DeclaredEntries(ds)).value + Marshal(FDODTA, EncodeRow(params, ds).value.data)
  }

  /** The declared types and lengths survive SQLDTA and EXTDTA, and with them all parameters if and only if every
      inline one declares a length below 0x8000 or is null. */
  lemma SqldtaReadsBack(params: seq<Value>, ds: seq<Descriptor>)
    requires (forall i | 0 <= i < |ds| :: IsDescriptor(ds[i])) && Build(params, ds).Ok?
    requires AllInUnits(params, ds) && NineWide(ds) && |SqldtaBody(params, ds)| <= MAX_VEC_LEN
    ensures forall i | 0 <= i < |params| :: params[i].Number? ==> ParseLiteral(params[i].text).WellFormed()
    ensures Build(params, ds).value.sqldta == Marshal(SQLDTA, SqldtaBody(params, ds))
    ensures Receive(ShapesOf(ds), DdmObject(SQLDTA, SqldtaBody(params, ds)), Build(params, ds).value.extdta)
            == Some(Received(DeclaredEntries(ds), AllRecovered(params, ds)))
            <==> AllLegible(params, ds)
  {
    hide Prefix, ReadPrefix, Marshal, ParseObject, ReadRow, EncodeRow, ParseLiteral, AllRecovered, AllLegible,
         DeclaredEntry, NineWide;
    var row, prefix := EncodeRow(params, ds).value, Prefix(DeclaredEntries(ds)).value;
    RowReadsBack(params, ds);
    InnerFits(prefix, FDODTA, row.data);
    PrefixRoundTrip(DeclaredEntries(ds), Marshal(FDODTA, row.data));
    ObjectRoundTrip(FDODTA, row.data, []);
    assert Marshal(FDODTA, row.data) + [] == Marshal(FDODTA, row.data);
  }

  lemma InnerFits(prefix: Bytes, codePoint: U16, data: Bytes)
    requires |prefix + Marshal(codePoint, data)| <= MAX_VEC_LEN
    ensures |data| <= MAX_VEC_LEN
  {}

  // ---- Over the wire ----

  function ChainMessages(objects: seq<DdmObject>, correlationId: U16, chained: bool): seq<Message> {
    if objects == [] then []
    else [Message(objects[0], Object, |objects| > 1 || chained, |objects| > 1, correlationId)]
         + ChainMessages(objects[1..], correlationId, chained)
  }

  function Printed(objects: seq<DdmObject>): seq<Bytes> {
    seq(|objects|, i requires 0 <= i < |objects| => Marshal(objects[i].codePoint, objects[i].data))
  }

  lemma {:induction false} ChainIsSent(objects: seq<DdmObject>, correlationId: U16, chained: bool)
    ensures var messages := ChainMessages(objects, correlationId, chained);
            && Sent(messages) == ChainOf(Printed(objects), correlationId, chained)
            && Objects(messages) == objects
            && |messages| == |objects|
            && forall i | 0 <= i < |objects| :: messages[i].obj == objects[i]
  {
    hide Marshal, EncodeDss;
    if objects != [] {
      ChainIsSent(objects[1..], correlationId, chained);
      assert Printed(objects)[1..] == Printed(objects[1..]);
      var rest := ChainMessages(objects[1..], correlationId, chained);
      var first := Message(objects[0], Object, |objects| > 1 || chained, |objects| > 1, correlationId);
      assert ([first] + rest)[1..] == rest;
      if |objects| == 1 {
        assert first.Framed() + [] == first.Framed();
      }
    }
  }

  /** The objects of a chain arrive in order however their bytes are cut up on the way. */
  lemma {:induction false} ChainArrives(objects: seq<DdmObject>, correlationId: U16, chained: bool, pieces: seq<Bytes>)
    requires forall i | 0 <= i < |objects| ::
               |objects[i].data| <= MAX_VEC_LEN && ReadsBack(|Marshal(objects[i].codePoint, objects[i].data)|)
    requires Concat(pieces) == ChainOf(Printed(objects), correlationId, chained)
    ensures var read := ReadPieces([], pieces);
            && read.outcome.AllFrames? && read.rest == []
            && ParseFrames(read.outcome.frames) == Ok(objects)
  {
    hide Marshal, EncodeDss, ReadPieces, ParseFrames, ChainMessages, ChainOf, Sent, Objects;
    ChainIsSent(objects, correlationId, chained);
    CodecTowerRoundTrip(ChainMessages(objects, correlationId, chained), pieces);
  }

  function LobData(value: Value, d: Descriptor): DdmObject {
    DdmObject(EXTDTA, Indicator(d.nullable) + if value.Data? then value.bytes else [])
  }

  /** SQLDTA and the EXTDTA objects of a list of parameters. */
  function SentObjects(params: seq<Value>, ds: seq<Descriptor>): seq<DdmObject>
    requires (forall i | 0 <= i < |ds| :: IsDescriptor(ds[i])) && Build(params, ds).Ok?
  {
    var outside := SentOutside(params, ds, 0);
    [DdmObject(SQLDTA, SqldtaBody(params, ds))]
    + seq(|outside|, k requires 0 <= k < |outside| => LobData(params[outside[k]], ds[outside[k]]))
  }

  lemma SentArePrinted(params: seq<Value>, ds: seq<Descriptor>)
    requires (forall i | 0 <= i < |ds| :: IsDescriptor(ds[i])) && Build(params, ds).Ok?
    ensures var dta := Build(params, ds).value;
            Printed(SentObjects(params, ds)) == [dta.sqldta] + dta.extdta
  {
    hide Marshal, Prefix, EncodeParams, SentOutside, IsDescriptor;
    assert params[0..] == params && ds[0..] == ds;
    ExtdtaInOrder(params, ds, 0, 0);
  }

  /** From parameters to parameters: what the client builds and writes as one chain, cut into any pieces on the way,
      arrives as these objects, and the server recovers everything from them if and only if every inline parameter
      declares a length below 0x8000 or is null. */
  lemma {:induction false} ParametersArrive(params: seq<Value>, ds: seq<Descriptor>, correlationId: U16, chained: bool,
                                            pieces: seq<Bytes>)
    requires (forall i | 0 <= i < |ds| :: IsDescriptor(ds[i])) && Build(params, ds).Ok?
    requires AllInUnits(params, ds) && NineWide(ds)
    requires forall i | 0 <= i < |SentObjects(params, ds)| ::
               var o := SentObjects(params, ds)[i];
               |o.data| <= MAX_VEC_LEN && ReadsBack(|Marshal(o.codePoint, o.data)|)
    requires var dta := Build(params, ds).value;
             Concat(pieces) == ChainOf([dta.sqldta] + dta.extdta, correlationId, chained)
    ensures forall i | 0 <= i < |params| :: params[i].Number? ==> ParseLiteral(params[i].text).WellFormed()
    ensures var read := ReadPieces([], pieces);
            && read.outcome.AllFrames? && read.rest == []
            && ParseFrames(read.outcome.frames) == Ok(SentObjects(params, ds))
    ensures Receive(ShapesOf(ds), SentObjects(params, ds)[0], Printed(SentObjects(params, ds)[1..]))
            == Some(Received(DeclaredEntries(ds), AllRecovered(params, ds)))
            <==> AllLegible(params, ds)
  {
    hide Marshal, Build, ChainOf, ReadPieces, ParseFrames, Receive, InUnits, ParseLiteral, ReadsBack,
         AllRecovered, SentObjects, Printed, AllLegible, NineWide, DeclaredEntry;
    SentArePrinted(params, ds);
    SqldtaFirst(params, ds);
    ChainArrives(SentObjects(params, ds), correlationId, chained, pieces);
    assert |SentObjects(params, ds)[0].data| <= MAX_VEC_LEN;
    SqldtaReadsBack(params, ds);
    PrintedTail(SentObjects(params, ds));
  }

  lemma SqldtaFirst(params: seq<Value>, ds: seq<Descriptor>)
    requires (forall i | 0 <= i < |ds| :: IsDescriptor(ds[i])) && Build(params, ds).Ok?
    ensures SentObjects(params, ds) != [] && SentObjects(params, ds)[0] == DdmObject(SQLDTA, SqldtaBody(params, ds))
  {}

  lemma PrintedTail(objects: seq<DdmObject>)
    requires objects != []
    ensures Printed(objects[1..]) == Printed(objects)[1..]
  {
    hide Marshal;
  }
}
