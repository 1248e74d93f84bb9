/** DDM objects: length-prefixed, nested, with inline or extended lengths (ddm.rs). */
module Ddm {
  import opened Wire

  const DDM_HEADER_LEN := 4
  const DDM_INLINE_LEN_LIMIT := 0x7FFF
  const EXTENDED_DDM_FIRST_CHUNK_LEN := 32757
  const EXTENDED_DDM_CONTINUATION_CHUNK_LEN := 32764
  const EXTENDED_DDM_CONTINUATION_MARKER_LEN := 2
  const OPEN_ENDED_LENGTH: U16 := 0x8004

  /** Machine words: lengths are 64-bit and wrap; no vector is longer than MAX_VEC_LEN. */
  const USIZE_RANGE := 0x1_0000_0000_0000_0000
  const MAX_VEC_LEN := 0x7FFF_FFFF_FFFF_FFFF

  datatype DdmObject = DdmObject(codePoint: U16, data: Bytes)

  /** Nested parameters have the shape of objects. */
  type DdmParam = DdmObject

  // ---- Printing ----

  function ExtendedLengthByteCount(payloadLen: nat): nat {
    var totalLen := payloadLen + DDM_HEADER_LEN;
    if totalLen <= DDM_INLINE_LEN_LIMIT then 0
    else if totalLen <= 0x7FFF_FFFF then 4
    else if totalLen <= 0x7FFF_FFFF_FFFF then 6
    else 8
  }

  /** n shifted right by `count` bytes. */
  function ShiftBytes(n: nat, count: nat): nat {
    if count == 0 then n else ShiftBytes(n, count - 1) / 256
  }

  /** The low `count` bytes of n, most significant first. */
  function BigEndian(n: nat, count: nat): Bytes {
    if count == 0 then [] else BigEndian(n / 256, count - 1) + [n % 256]
  }

  function Marshal(codePoint: U16, data: Bytes): Bytes {
    var extCount := ExtendedLengthByteCount(|data|);
    if extCount == 0 then U16ToBytes(|data| + DDM_HEADER_LEN) + U16ToBytes(codePoint) + data
    else U16ToBytes(0x8000 + DDM_HEADER_LEN + extCount) + U16ToBytes(codePoint) + BigEndian(|data|, extCount) + data
  }

  function MarshalAll(objects: seq<DdmObject>): Bytes {
    if objects == [] then [] else Marshal(objects[0].codePoint, objects[0].data) + MarshalAll(objects[1..])
  }

  lemma {:induction false} BigEndianHighFirst(n: nat, count: nat)
    requires count > 0
    ensures BigEndian(n, count) == [ShiftBytes(n, count - 1) % 256] + BigEndian(n, count - 1)
  {
    if count > 1 {
      BigEndianHighFirst(n / 256, count - 1);
      ShiftOuter(n, count - 1);
    }
  }

  lemma {:induction false} ShiftOuter(n: nat, count: nat)
    requires count > 0
    ensures ShiftBytes(n, count) == ShiftBytes(n / 256, count - 1)
  {
    if count > 1 {
      ShiftOuter(n, count - 1);
    }
  }

  ghost predicate Emits(out: Bytes, n: nat, count: nat, goal: Bytes) {
    out + BigEndian(n, count) == goal
  }

  lemma EmitStep(out: Bytes, n: nat, count: nat, goal: Bytes)
    requires Emits(out, n, count + 1, goal)
    ensures Emits(out + [ShiftBytes(n, count) % 256], n, count, goal)
  {
    BigEndianHighFirst(n, count + 1);
    assert out + [ShiftBytes(n, count) % 256] + BigEndian(n, count)
        == out + ([ShiftBytes(n, count) % 256] + BigEndian(n, count));
  }

  lemma EmitDone(out: Bytes, n: nat, goal: Bytes)
    requires Emits(out, n, 0, goal)
    ensures out == goal
  {}

  /** Appends one object to a buffer under construction. */
  method AppendMarshaledObject(buffer: Bytes, codePoint: U16, data: Bytes) returns (out: Bytes)
    ensures out == buffer + Marshal(codePoint, data)
  {
    hide U16ToBytes, BigEndian;
    out := buffer;
    var extCount := ExtendedLengthByteCount(|data|);
    if extCount == 0 {
      var len: U16 := |data| + DDM_HEADER_LEN;
      out := out + U16ToBytes(len);
      out := out + U16ToBytes(codePoint);
      out := out + data;
      return;
    }
    out := out + U16ToBytes(0x8000 + DDM_HEADER_LEN + extCount);
    out := out + U16ToBytes(codePoint);
    var payloadLen := |data|;
    ghost var goal := out + BigEndian(payloadLen, extCount);
    for shiftIndex := extCount downto 0
      invariant Emits(out, payloadLen, shiftIndex, goal)
    {
      EmitStep(out, payloadLen, shiftIndex, goal);
      out := out + [ShiftBytes(payloadLen, shiftIndex) % 256];
    }
    EmitDone(out, payloadLen, goal);
    out := out + data;
  }

  class DdmBuilder {
    const codePoint: U16
    var data: Bytes

    constructor (codePoint: U16)
      ensures this.codePoint == codePoint && data == []
    {
      this.codePoint, data := codePoint, [];
    }

    method AddCodePoint(cp: U16, param: Bytes)
      modifies this
      ensures data == old(data) + Marshal(cp, param)
    {
      data := AppendMarshaledObject(data, cp, param);
    }

    method AddRaw(raw: Bytes)
      modifies this
      ensures data == old(data) + raw
    {
      data := data + raw;
    }

    method Build() returns (out: Bytes)
      ensures out == Marshal(codePoint, data)
    {
      out := AppendMarshaledObject([], codePoint, data);
    }
  }

  // ---- Parsing ----

  /** The value of an extended length field as 64-bit code accumulates it. */
  function LengthValue(bytes: Bytes): nat {
    if bytes == [] then 0
    else (LengthValue(bytes[..|bytes| - 1]) * 256 + bytes[|bytes| - 1]) % USIZE_RANGE
  }

  datatype MarshaledLength = MarshaledLength(length: nat, headerLen: nat)

  function ParseMarshaledLength(bytes: Bytes): Result<MarshaledLength, ProtoError> {
    if |bytes| < DDM_HEADER_LEN then Err(BufferTooShort(DDM_HEADER_LEN, |bytes|))
    else
      var raw := U16At(bytes, 0);
      if raw == OPEN_ENDED_LENGTH then Ok(MarshaledLength(|bytes|, DDM_HEADER_LEN))
      else if raw < 0x8000 then Ok(MarshaledLength(raw, DDM_HEADER_LEN))
      else
        var headerLen := raw - 0x8000;
        if headerLen < DDM_HEADER_LEN then Err(Other("extended DDM header length is less than minimum"))
        else if |bytes| < headerLen then Err(BufferTooShort(headerLen, |bytes|))
        else
          Ok(MarshaledLength((headerLen + LengthValue(bytes[DDM_HEADER_LEN..headerLen])) % USIZE_RANGE, headerLen))
  }

  method ComputeMarshaledLength(bytes: Bytes) returns (r: Result<MarshaledLength, ProtoError>)
    ensures r == ParseMarshaledLength(bytes)
  {
    if |bytes| < DDM_HEADER_LEN {
      return Err(BufferTooShort(DDM_HEADER_LEN, |bytes|));
    }
    var rawLength := U16At(bytes, 0);
    if rawLength == OPEN_ENDED_LENGTH {
      return Ok(MarshaledLength(|bytes|, DDM_HEADER_LEN));
    }
    if rawLength < 0x8000 {
      return Ok(MarshaledLength(rawLength, DDM_HEADER_LEN));
    }
    var headerLen := rawLength - 0x8000;
    if headerLen < DDM_HEADER_LEN {
      return Err(Other("extended DDM header length is less than minimum"));
    }
    if |bytes| < headerLen {
      return Err(BufferTooShort(headerLen, |bytes|));
    }
    var payloadLen := 0;
    var field := bytes[DDM_HEADER_LEN..headerLen];
    for i := 0 to |field|
      invariant payloadLen == LengthValue(field[..i])
    {
      assert field[..i + 1][..i] == field[..i];
      payloadLen := (payloadLen * 256 + field[i]) % USIZE_RANGE;
    }
    assert field[..|field|] == field;
    return Ok(MarshaledLength((headerLen + payloadLen) % USIZE_RANGE, headerLen));
  }

  predicate IsContinuationMarker(data: Bytes, offset: nat) {
    && offset + 2 <= |data|
    && (U16At(data, offset) == 0x7FFE || U16At(data, offset) == 0x7FFF)
  }

  /** The data chunks from the front of `rest` on, each possibly behind a marker. */
  function UnmarkedChunks(rest: Bytes): Bytes
    decreases |rest|
  {
    if rest == [] then []
    else
      var skip := if IsContinuationMarker(rest, 0) then EXTENDED_DDM_CONTINUATION_MARKER_LEN else 0;
      var end := if skip + EXTENDED_DDM_CONTINUATION_CHUNK_LEN < |rest| then skip + EXTENDED_DDM_CONTINUATION_CHUNK_LEN
                 else |rest|;
      rest[skip..end] + UnmarkedChunks(rest[end..])
  }

  /** An open-ended object's data without the markers its segments carry. */
  function StripContinuationMarkers(data: Bytes): Bytes {
    if |data| <= EXTENDED_DDM_FIRST_CHUNK_LEN + EXTENDED_DDM_CONTINUATION_MARKER_LEN then data
    else if !IsContinuationMarker(data, EXTENDED_DDM_FIRST_CHUNK_LEN) then data
    else data[..EXTENDED_DDM_FIRST_CHUNK_LEN] + UnmarkedChunks(data[EXTENDED_DDM_FIRST_CHUNK_LEN..])
  }

  ghost predicate StripsTo(out: Bytes, rest: Bytes, goal: Bytes) {
    out + UnmarkedChunks(rest) == goal
  }

  lemma StripStep(out: Bytes, rest: Bytes, goal: Bytes, skip: nat, end: nat)
    requires rest != [] && StripsTo(out, rest, goal)
    requires skip == if IsContinuationMarker(rest, 0) then EXTENDED_DDM_CONTINUATION_MARKER_LEN else 0
    requires end == if skip + EXTENDED_DDM_CONTINUATION_CHUNK_LEN < |rest|
                    then skip + EXTENDED_DDM_CONTINUATION_CHUNK_LEN else |rest|
    ensures skip <= end <= |rest| && StripsTo(out + rest[skip..end], rest[end..], goal)
  {}

  method StripExtendedDdmContinuationMarkers(data: Bytes) returns (out: Bytes)
    ensures out == StripContinuationMarkers(data)
  {
    hide UnmarkedChunks, StripContinuationMarkers, StripsTo, IsContinuationMarker;
    StripShort(data);
    if |data| <= EXTENDED_DDM_FIRST_CHUNK_LEN + EXTENDED_DDM_CONTINUATION_MARKER_LEN {
      return data;
    }
    if !IsContinuationMarker(data, EXTENDED_DDM_FIRST_CHUNK_LEN) {
      return data;
    }
    out := data[..EXTENDED_DDM_FIRST_CHUNK_LEN];
    var offset := EXTENDED_DDM_FIRST_CHUNK_LEN;
    ghost var goal := StripContinuationMarkers(data);
    StripStart(data);
    while offset < |data|
      invariant offset <= |data|
      invariant StripsTo(out, data[offset..], goal)
    {
      ghost var rest := data[offset..];
      ghost var before := offset;
      if IsContinuationMarker(data, offset) {
        offset := offset + EXTENDED_DDM_CONTINUATION_MARKER_LEN;
      }
      var end := if offset + EXTENDED_DDM_CONTINUATION_CHUNK_LEN < |data|
                 then offset + EXTENDED_DDM_CONTINUATION_CHUNK_LEN else |data|;
      MarkerInSuffix(data, before);
      StripStep(out, rest, goal, offset - before, end - before);
      SuffixSlice(data, before, offset - before, end - before);
      out := out + data[offset..end];
      offset := end;
    }
    assert data[offset..] == [];
    StripDone(out, goal);
  }

  lemma MarkerInSuffix(data: Bytes, offset: nat)
    requires offset <= |data|
    ensures IsContinuationMarker(data, offset) == IsContinuationMarker(data[offset..], 0)
    ensures IsContinuationMarker(data, offset) ==> offset + 2 <= |data|
  {}

  lemma StripShort(data: Bytes)
    ensures |data| <= EXTENDED_DDM_FIRST_CHUNK_LEN + 2 || !IsContinuationMarker(data, EXTENDED_DDM_FIRST_CHUNK_LEN) ==>
              StripContinuationMarkers(data) == data
  {}

  lemma StripStart(data: Bytes)
    requires |data| > EXTENDED_DDM_FIRST_CHUNK_LEN + 2 && IsContinuationMarker(data, EXTENDED_DDM_FIRST_CHUNK_LEN)
    ensures StripsTo(data[..EXTENDED_DDM_FIRST_CHUNK_LEN], data[EXTENDED_DDM_FIRST_CHUNK_LEN..],
                     StripContinuationMarkers(data))
  {}

  lemma StripDone(out: Bytes, goal: Bytes)
    requires StripsTo(out, [], goal)
    ensures out == goal
  {}

  datatype ParsedObject = ParsedObject(obj: DdmObject, consumed: nat)

  /** One object from the front of `bytes` and the number of bytes it took. */
  function ParseObject(bytes: Bytes): Result<ParsedObject, ProtoError> {
    if |bytes| < DDM_HEADER_LEN then Err(BufferTooShort(DDM_HEADER_LEN, |bytes|))
    else
      var codePoint := U16At(bytes, 2);
      if U16At(bytes, 0) == OPEN_ENDED_LENGTH then
        Ok(ParsedObject(DdmObject(codePoint, StripContinuationMarkers(bytes[4..])), |bytes|))
      else
        match ParseMarshaledLength(bytes)
        case Err(e) => Err(e)
        case Ok(m) =>
          if m.length < m.headerLen then Err(Other("DDM length is less than header size"))
          else if |bytes| < m.length then Err(BufferTooShort(m.length, |bytes|))
          else Ok(ParsedObject(DdmObject(codePoint, bytes[m.headerLen..m.length]), m.length))
  }

  /** Every successful step of a parsing loop consumes a header's worth of bytes at least. */
  lemma ParseObjectProgress(bytes: Bytes)
    requires ParseObject(bytes).Ok?
    ensures DDM_HEADER_LEN <= ParseObject(bytes).value.consumed <= |bytes|
  {}

  /** The objects laid end to end in a payload; fewer than four bytes at the end are ignored. */
  function ParseObjects(bytes: Bytes): Result<seq<DdmObject>, ProtoError>
    decreases |bytes|
  {
    if |bytes| < 4 then Ok([])
    else
      match ParseObject(bytes)
      case Err(e) => Err(e)
      case Ok(p) =>
        ParseObjectProgress(bytes);
        match ParseObjects(bytes[p.consumed..])
        case Err(e) => Err(e)
        case Ok(rest) => Ok([p.obj] + rest)
  }

  /** Parsing on from `rest` with `objects` already parsed gives `goal`. */
  ghost predicate Parses(objects: seq<DdmObject>, rest: Bytes, goal: Result<seq<DdmObject>, ProtoError>) {
    goal == match ParseObjects(rest) case Err(e) => Err(e) case Ok(more) => Ok(objects + more)
  }

  lemma ParsesStart(bytes: Bytes)
    ensures Parses([], bytes, ParseObjects(bytes))
  {
    var r := ParseObjects(bytes);
    assert r.Ok? ==> [] + r.value == r.value;
  }

  lemma ParsesNext(objects: seq<DdmObject>, rest: Bytes, goal: Result<seq<DdmObject>, ProtoError>)
    requires Parses(objects, rest, goal)
    ensures |rest| < 4 ==> goal == Ok(objects)
    ensures |rest| >= 4 ==>
              match ParseObject(rest)
              case Err(e) => goal == Err(e)
              case Ok(p) => DDM_HEADER_LEN <= p.consumed <= |rest|
                            && Parses(objects + [p.obj], rest[p.consumed..], goal)
  {
    hide ParseObject;
    assert objects + [] == objects;
    if |rest| >= 4 && ParseObject(rest).Ok? {
      var p := ParseObject(rest).value;
      ParseObjectProgress(rest);
      var more := ParseObjects(rest[p.consumed..]);
      assert more.Ok? ==> objects + ([p.obj] + more.value) == objects + [p.obj] + more.value;
    }
  }

  method ParseDdmObjects(bytes: Bytes) returns (r: Result<seq<DdmObject>, ProtoError>)
    ensures r == ParseObjects(bytes)
  {
    hide ParseObjects, ParseObject;
    var objects: seq<DdmObject> := [];
    var offset := 0;
    assert bytes[0..] == bytes;
    ghost var goal := ParseObjects(bytes);
    ParsesStart(bytes);
    while offset < |bytes|
      invariant offset <= |bytes|
      invariant Parses(objects, bytes[offset..], goal)
    {
      ghost var rest := bytes[offset..];
      ParsesNext(objects, rest, goal);
      if |bytes| - offset < 4 {
        break;
      }
      var parsed := ParseObject(bytes[offset..]);
      if parsed.Err? {
        return Err(parsed.error);
      }
      assert rest[parsed.value.consumed..] == bytes[offset + parsed.value.consumed..];
      objects := objects + [parsed.value.obj];
      offset := offset + parsed.value.consumed;
    }
    ParsesNext(objects, bytes[offset..], goal);
    return Ok(objects);
  }

  /** The first parameter in `data` and its length, if it parses. */
  function FirstParameter(data: Bytes): Option<ParsedObject> {
    if |data| < DDM_HEADER_LEN then None
    else
      match ParseMarshaledLength(data)
      case Err(_) => None
      case Ok(m) =>
        if m.length < m.headerLen || m.length > |data| then None
        else
          var value := if U16At(data, 0) == OPEN_ENDED_LENGTH then
                         StripContinuationMarkers(data[DDM_HEADER_LEN..m.length])
                       else data[m.headerLen..m.length];
          Some(ParsedObject(DdmObject(U16At(data, 2), value), m.length))
  }

  /** The parameters nested in an object's data, up to the first that does not parse. */
  function Parameters(data: Bytes): seq<DdmParam>
    decreases |data|
  {
    match FirstParameter(data)
    case None => []
    case Some(p) => [p.obj] + Parameters(data[p.consumed..])
  }

  ghost predicate Lists(params: seq<DdmParam>, rest: Bytes, goal: seq<DdmParam>) {
    params + Parameters(rest) == goal
  }

  lemma ListsNext(params: seq<DdmParam>, rest: Bytes, goal: seq<DdmParam>)
    requires Lists(params, rest, goal)
    ensures match FirstParameter(rest)
            case None => goal == params
            case Some(p) => DDM_HEADER_LEN <= p.consumed <= |rest|
                            && Lists(params + [p.obj], rest[p.consumed..], goal)
  {}

  method CollectParameters(data: Bytes) returns (params: seq<DdmParam>)
    ensures params == Parameters(data)
  {
    hide Parameters, ParseMarshaledLength, StripContinuationMarkers;
    params := [];
    var offset := 0;
    ghost var goal := Parameters(data);
    assert data[0..] == data && params + goal == goal;
    while offset + DDM_HEADER_LEN <= |data|
      invariant offset <= |data|
      invariant Lists(params, data[offset..], goal)
    {
      var rest := data[offset..];
      ListsNext(params, rest, goal);
      var measured := ComputeMarshaledLength(rest);
      if measured.Err? {
        break;
      }
      var m := measured.value;
      if m.length < m.headerLen || offset + m.length > |data| {
        break;
      }
      var value;
      if U16At(rest, 0) == OPEN_ENDED_LENGTH {
        value := StripExtendedDdmContinuationMarkers(rest[DDM_HEADER_LEN..m.length]);
      } else {
        value := rest[m.headerLen..m.length];
      }
      assert FirstParameter(rest) == Some(ParsedObject(DdmObject(U16At(rest, 2), value), m.length));
      assert rest[m.length..] == data[offset + m.length..];
      params := params + [DdmObject(U16At(rest, 2), value)];
      offset := offset + m.length;
    }
    ListsNext(params, data[offset..], goal);
  }
}
