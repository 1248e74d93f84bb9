/** What SQLDTA declares, which parameters are refused and how the chain is flagged, in numerals (connection.rs). */
module SqldtaWire {
  import opened Wire
  import opened Dss
  import opened DssWire
  import opened DdmRoundTrip
  import opened PackedDecimal
  import opened SqldtaDescriptor
  import opened Sqldta
  import opened SqldtaRoundTrip

  // ---- What is declared ----

  /** A referenced value declares 0x8000 and the width of its placeholder, any other its own length. */
  lemma {:induction false} DeclaredImage(d: Descriptor)
    ensures DeclaredEntry(d).drdaType == d.drdaType
    ensures d.reference.None? ==> DeclaredEntry(d).length == d.length
    ensures d.reference.Some? && d.reference.value < 0x8000 ==>
              DeclaredEntry(d).length == 0x8000 + d.reference.value
    ensures d.reference.Some? && d.reference.value >= 0x8000 ==> DeclaredEntry(d).length == d.reference.value
  {}

  /** On LUW a LOB longer than 0x7FFF, and every XML value, declares 0x8009 and its LOB type; all else what it was. */
  lemma {:induction false} ExternalizedImage(d: Descriptor)
    requires d.reference.None?
    ensures var e, odd := DeclaredEntry(Externalized(d)), if d.nullable then 1 else 0;
            match d.lob
            case XmlType => e == Entry(0xCE + odd, 0x8009)
            case ClobType => e == if d.length > 0x7FFF then Entry(0xCE + odd, 0x8009) else Entry(d.drdaType, d.length)
            case BlobType => e == if d.length > 0x7FFF then Entry(0xC8 + odd, 0x8009) else Entry(d.drdaType, d.length)
            case DbClobType => e == if d.length > 0x7FFF then Entry(0xCC + odd, 0x8009) else Entry(d.drdaType, d.length)
            case NotLob => e == Entry(d.drdaType, d.length)
  {}

  /** So on LUW every LOB and XML parameter is legible, and another one if it declares less than 0x8000 or is null. */
  lemma {:induction false} ExternalizedLegible(value: Value, d: Descriptor)
    requires d.reference.None?
    ensures var x := Externalized(d);
            && ShapeOf(x) == ShapeOf(d)
            && (x.reference.Some? ==> x.reference.value == 9)
            && (Legible(value, x) <==> value.Null? || d.lob != NotLob || d.length <= 0x7FFF)
  {}

  /** On z/OS a CLOB that declares 0xFFFF is sent inline and is not legible. */
  lemma {:induction false} InlineLongClob(bytes: Bytes)
    ensures var d := Descriptor(0x33, 0xFFFF, Varying(1), true, ClobType, None);
            !Legible(Data(bytes), d) && DeclaredEntry(Externalized(d)) == Entry(0xCF, 0x8009)
  {}

  // ---- Refusals ----

  /** Which values a parameter refuses, and how. */
  lemma {:induction false} RefusedParam(value: Value, d: Descriptor, index: nat)
    requires IsDescriptor(d)
    ensures var r := EncodeParam(value, d, index);
            if value.Null? then (if d.nullable then r.Ok? else r == Err(NullNotAllowed(index)))
            else if d.reference.Some? then (if d.kind.Varying? && value.Data? then r.Ok? else r == Err(WrongType))
            else
              match d.kind
              case Integer(width) =>
                if !value.Int? then r == Err(WrongType)
                else if (if width == 2 then -32768 <= value.n <= 32767
                         else if width == 4 then -2147483648 <= value.n <= 2147483647
                         else -9223372036854775808 <= value.n <= 9223372036854775807) then r.Ok?
                else r == Err(OutOfRange)
              case Varying(unit) =>
                if !value.Data? then r == Err(WrongType)
                else if |value.bytes| < 65536 * unit then r.Ok? else r == Err(TooLarge)
              case Decimal(precision, scale) =>
                if !value.Number? then r == Err(WrongType)
                else
                  match Encoded(value.text, precision, scale)
                  case Err(e) => r == Err(BadDecimal(e))
                  case Ok(_) => r.Ok?
  {}

  /** Of several refused parameters the first is reported, under its own number. */
  lemma {:induction false} FirstRefused(params: seq<Value>, ds: seq<Descriptor>, index: nat, first: nat)
    requires |params| == |ds| && forall i | 0 <= i < |ds| :: IsDescriptor(ds[i])
    requires first <= |params|
    requires forall i | 0 <= i < first :: EncodeParam(params[i], ds[i], index + i).Ok?
    requires first < |params| ==> EncodeParam(params[first], ds[first], index + first).Err?
    ensures EncodeParams(params, ds, index).Ok? <==> first == |params|
    ensures first < |params| ==>
              EncodeParams(params, ds, index) == Err(EncodeParam(params[first], ds[first], index + first).error)
  {
    hide EncodeParam;
    if first > 0 {
      FirstRefused(params[1..], ds[1..], index + 1, first - 1);
    }
  }

  /** The whole object is refused for a wrong count, for more than 21584 parameters, or for its first bad one. */
  lemma {:induction false} BuildRefusals(params: seq<Value>, ds: seq<Descriptor>)
    requires forall i | 0 <= i < |ds| :: IsDescriptor(ds[i])
    ensures |params| != |ds| ==> Build(params, ds) == Err(ParameterCount)
    ensures |params| == |ds| && |ds| > 21_584 ==> Build(params, ds) == Err(TooManyParameters)
    ensures |params| == |ds| && |ds| <= 21_584 && EncodeParams(params, ds, 0).Err? ==>
              Build(params, ds) == Err(EncodeParams(params, ds, 0).error)
    ensures |params| == |ds| && |ds| <= 21_584 && EncodeParams(params, ds, 0).Ok? ==> Build(params, ds).Ok?
  {
    hide Prefix, EncodeParams, DeclaredEntry;
    AcceptedCount(DeclaredEntries(ds));
  }

  // ---- The chain ----

  /** Every object of the chain but the last goes out as 0x53, chained with the same correlation; the last as 0x43 or
      0x03, as the writer is told. */
  lemma {:induction false} ChainFlags(objects: seq<Bytes>, correlationId: U16, chained: bool)
    requires objects != []
    ensures var flags := DssFlags(|objects| > 1 || chained, false, |objects| > 1);
            var first := EncodeDss(Object, flags, correlationId, objects[0]);
            && ChainOf(objects, correlationId, chained) == first + ChainOf(objects[1..], correlationId, chained)
            && |first| >= 6 && first[2] == 0xD0
            && first[3] == (if |objects| > 1 then 0x53 else if chained then 0x43 else 0x03)
            && first[4] as int * 256 + first[5] == correlationId
  {
    hide ChainOf;
    var flags := DssFlags(|objects| > 1 || chained, false, |objects| > 1);
    ChainStep(objects, correlationId, chained);
    FirstBytes(flags, correlationId, objects[0]);
  }

  lemma ChainStep(objects: seq<Bytes>, correlationId: U16, chained: bool)
    requires objects != []
    ensures ChainOf(objects, correlationId, chained)
         == EncodeDss(Object, DssFlags(|objects| > 1 || chained, false, |objects| > 1), correlationId, objects[0])
            + ChainOf(objects[1..], correlationId, chained)
  {
    hide EncodeDss;
    var b := EncodeDss(Object, DssFlags(chained, false, false), correlationId, objects[0]);
    assert b + [] == b;
  }

  lemma FirstBytes(flags: DssFlags, correlationId: U16, payload: Bytes)
    ensures var e := EncodeDss(Object, flags, correlationId, payload);
            && |e| >= 6 && e[2] == 0xD0
            && e[3] == 3 + (if flags.chained then 0x40 else 0) + (if flags.continueOnError then 0x20 else 0)
                       + (if flags.sameCorrelation then 0x10 else 0)
            && e[4] as int * 256 + e[5] == correlationId
  {
    hide Continuations;
    HeaderImage(DssHeader(if |payload| <= 32761 then |payload| + 6 else 0xFFFF, Object, flags, correlationId));
  }
}
