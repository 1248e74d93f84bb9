/** Printing and parsing DDM objects are inverse. */
module DdmRoundTrip {
  import opened Wire
  import opened Ddm

  function Pow256(k: nat): nat {
    if k == 0 then 1 else 256 * Pow256(k - 1)
  }

  lemma {:induction false} ShiftSmall(n: nat, k: nat)
    requires n < Pow256(k)
    ensures ShiftBytes(n, k) == 0
  {
    if k > 0 {
      ShiftSmall(n / 256, k - 1);
      ShiftOuter(n, k);
    }
  }

  /** The length field holds every length a vector can have. */
  lemma LengthFieldWideEnough(n: nat)
    requires n <= MAX_VEC_LEN
    ensures ExtendedLengthByteCount(n) > 0 ==> n < Pow256(ExtendedLengthByteCount(n))
  {
    assert Pow256(2) == 0x1_0000;
    assert Pow256(4) == 0x1_0000_0000;
    assert Pow256(6) == 0x1_0000_0000_0000;
    assert Pow256(8) == USIZE_RANGE;
  }

  lemma {:induction false} LengthFieldReadsBack(n: nat, k: nat)
    requires ShiftBytes(n, k) == 0 && n < USIZE_RANGE
    ensures |BigEndian(n, k)| == k && LengthValue(BigEndian(n, k)) == n
  {
    if k > 0 {
      ShiftOuter(n, k);
      LengthFieldReadsBack(n / 256, k - 1);
      var field := BigEndian(n, k);
      assert field[..|field| - 1] == BigEndian(n / 256, k - 1);
    }
  }

  lemma HeaderParts(raw: U16, codePoint: U16, field: Bytes, data: Bytes, rest: Bytes)
    ensures var all := U16ToBytes(raw) + U16ToBytes(codePoint) + field + data + rest;
            && |all| == 4 + |field| + |data| + |rest|
            && U16At(all, 0) == raw && U16At(all, 2) == codePoint
            && all[4..4 + |field|] == field
            && all[4 + |field|..4 + |field| + |data|] == data
  {}

  lemma PrintedParts(codePoint: U16, data: Bytes, rest: Bytes)
    requires |data| <= MAX_VEC_LEN
    ensures var printed, ext := Marshal(codePoint, data), ExtendedLengthByteCount(|data|);
            var all := printed + rest;
            && |printed| == DDM_HEADER_LEN + ext + |data|
            && |all| >= 4 && U16At(all, 0) != OPEN_ENDED_LENGTH && U16At(all, 2) == codePoint
            && ParseMarshaledLength(all) == Ok(MarshaledLength(|printed|, DDM_HEADER_LEN + ext))
            && all[DDM_HEADER_LEN + ext..|printed|] == data
  {
    hide U16ToBytes, U16At, BigEndian, LengthValue, ShiftBytes;
    var ext := ExtendedLengthByteCount(|data|);
    if ext == 0 {
      HeaderParts(|data| + 4, codePoint, [], data, rest);
      HeaderParts(|data| + 4, codePoint, [], data, []);
      assert U16ToBytes(|data| + 4) + U16ToBytes(codePoint) + [] == U16ToBytes(|data| + 4) + U16ToBytes(codePoint);
    } else {
      LengthFieldWideEnough(|data|);
      ShiftSmall(|data|, ext);
      LengthFieldReadsBack(|data|, ext);
      HeaderParts(0x8004 + ext, codePoint, BigEndian(|data|, ext), data, rest);
      HeaderParts(0x8004 + ext, codePoint, BigEndian(|data|, ext), data, []);
    }
  }

  /** A printed object parses back to itself and its own length, whatever bytes follow it. */
  lemma ObjectRoundTrip(codePoint: U16, data: Bytes, rest: Bytes)
    requires |data| <= MAX_VEC_LEN
    ensures var printed := Marshal(codePoint, data);
            && |printed| == DDM_HEADER_LEN + ExtendedLengthByteCount(|data|) + |data|
            && ParseObject(printed + rest) == Ok(ParsedObject(DdmObject(codePoint, data), |printed|))
            && FirstParameter(printed + rest) == Some(ParsedObject(DdmObject(codePoint, data), |printed|))
  {
    PrintedParts(codePoint, data, rest);
    hide Marshal, ParseMarshaledLength, U16At;
  }

  predicate FitVectors(objects: seq<DdmObject>) {
    forall i | 0 <= i < |objects| :: |objects[i].data| <= MAX_VEC_LEN
  }

  /** Objects printed end to end parse back in order, also with a stray tail of under four bytes. */
  lemma {:induction false} ObjectsRoundTrip(objects: seq<DdmObject>, tail: Bytes)
    requires FitVectors(objects) && |tail| < 4
    ensures ParseObjects(MarshalAll(objects) + tail) == Ok(objects)
  {
    if objects == [] {
      assert [] + tail == tail;
    } else {
      var o := objects[0];
      var printed, rest := Marshal(o.codePoint, o.data), MarshalAll(objects[1..]);
      ObjectRoundTrip(o.codePoint, o.data, rest + tail);
      hide ParseObject, Marshal;
      assert MarshalAll(objects) + tail == printed + (rest + tail);
      assert (printed + (rest + tail))[|printed|..] == rest + tail;
      ObjectsRoundTrip(objects[1..], tail);
      assert [o] + objects[1..] == objects;
    }
  }

  /** An object's parameters are exactly the list that was added to it. */
  lemma {:induction false} ParametersRoundTrip(params: seq<DdmParam>, tail: Bytes)
    requires FitVectors(params) && |tail| < DDM_HEADER_LEN
    ensures Parameters(MarshalAll(params) + tail) == params
  {
    if params == [] {
      assert [] + tail == tail;
    } else {
      var p := params[0];
      var printed, rest := Marshal(p.codePoint, p.data), MarshalAll(params[1..]);
      ObjectRoundTrip(p.codePoint, p.data, rest + tail);
      hide FirstParameter, Marshal;
      assert MarshalAll(params) + tail == printed + (rest + tail);
      assert (printed + (rest + tail))[|printed|..] == rest + tail;
      ParametersRoundTrip(params[1..], tail);
    }
  }

  /** The tree round trip: an object built from a parameter list parses back to its code point
      and that list, whatever follows it. */
  lemma {:induction false} TreeRoundTrip(codePoint: U16, params: seq<DdmParam>, rest: Bytes)
    requires FitVectors(params) && |MarshalAll(params)| <= MAX_VEC_LEN
    ensures var built := Marshal(codePoint, MarshalAll(params));
            var parsed := ParseObject(built + rest);
            && parsed.Ok? && parsed.value.consumed == |built|
            && parsed.value.obj.codePoint == codePoint
            && Parameters(parsed.value.obj.data) == params
  {
    ObjectRoundTrip(codePoint, MarshalAll(params), rest);
    ParametersRoundTrip(params, []);
    assert MarshalAll(params) + [] == MarshalAll(params);
  }

  lemma {:induction false} MarshalAllAppend(a: seq<DdmObject>, b: seq<DdmObject>)
    ensures MarshalAll(a + b) == MarshalAll(a) + MarshalAll(b)
  {
    if a == [] {
      assert a + b == b;
    } else {
      assert (a + b)[1..] == a[1..] + b;
      MarshalAllAppend(a[1..], b);
    }
  }

  // ---- Open-ended objects ----

  /** What a server sends for the data after the first chunk: each further chunk behind a
      marker, 0x7FFF or 0x7FFE as `choice` says for the chunk with so many bytes left. */
  function MarkedChunks(data: Bytes, choice: nat -> bool): Bytes
    decreases |data|
  {
    if data == [] then []
    else
      var n := if |data| < EXTENDED_DDM_CONTINUATION_CHUNK_LEN then |data| else EXTENDED_DDM_CONTINUATION_CHUNK_LEN;
      U16ToBytes(if choice(|data|) then 0x7FFF else 0x7FFE) + data[..n] + MarkedChunks(data[n..], choice)
  }

  lemma {:induction false} MarkersComeOff(data: Bytes, choice: nat -> bool)
    ensures UnmarkedChunks(MarkedChunks(data, choice)) == data
    decreases |data|
  {
    if data != [] {
      var n := if |data| < EXTENDED_DDM_CONTINUATION_CHUNK_LEN then |data| else EXTENDED_DDM_CONTINUATION_CHUNK_LEN;
      var marker := U16ToBytes(if choice(|data|) then 0x7FFF else 0x7FFE);
      var marked, more := MarkedChunks(data, choice), MarkedChunks(data[n..], choice);
      assert marked == marker + data[..n] + more;
      assert IsContinuationMarker(marked, 0);
      assert |data| < EXTENDED_DDM_CONTINUATION_CHUNK_LEN ==> data[n..] == [] && more == [];
      assert marked[2..2 + n] == data[..n] && marked[2 + n..] == more;
      assert data == data[..n] + data[n..];
      MarkersComeOff(data[n..], choice);
    }
  }

  /** The wire form of an open-ended 0x8004 object. */
  function MarshalOpenEnded(codePoint: U16, data: Bytes, choice: nat -> bool): Bytes {
    U16ToBytes(OPEN_ENDED_LENGTH) + U16ToBytes(codePoint)
    + if |data| <= EXTENDED_DDM_FIRST_CHUNK_LEN then data
      else data[..EXTENDED_DDM_FIRST_CHUNK_LEN] + MarkedChunks(data[EXTENDED_DDM_FIRST_CHUNK_LEN..], choice)
  }

  /** An open-ended object takes the rest of the payload and parses to the data without any
      marker, whatever the number of segments and the markers chosen. */
  lemma OpenEndedRoundTrip(codePoint: U16, data: Bytes, choice: nat -> bool)
    ensures var sent := MarshalOpenEnded(codePoint, data, choice);
            ParseObject(sent) == Ok(ParsedObject(DdmObject(codePoint, data), |sent|))
  {
    var sent := MarshalOpenEnded(codePoint, data, choice);
    if |data| <= EXTENDED_DDM_FIRST_CHUNK_LEN {
      assert sent[4..] == data;
    } else {
      var first, more := data[..EXTENDED_DDM_FIRST_CHUNK_LEN], data[EXTENDED_DDM_FIRST_CHUNK_LEN..];
      MarkersComeOff(more, choice);
      var body := first + MarkedChunks(more, choice);
      assert sent[4..] == body;
      assert body[EXTENDED_DDM_FIRST_CHUNK_LEN..] == MarkedChunks(more, choice);
      assert body[..EXTENDED_DDM_FIRST_CHUNK_LEN] == first;
      assert |MarkedChunks(more, choice)| >= 3 && MarkedChunks(more, choice)[0] == 0x7F;
      assert IsContinuationMarker(body, EXTENDED_DDM_FIRST_CHUNK_LEN);
      assert StripContinuationMarkers(body) == first + more == data;
    }
  }
}
