/** Open-ended objects that span several segments: the reader merges the segments, and the parser
    then looks for markers once more (dss.rs, ddm.rs). */
module OpenEnded {
  import opened Wire
  import opened Dss
  import opened DssReading
  import opened Framing
  import opened Ddm

  /** Segments that continue a frame of type `first`, each behind a continuation marker. */
  predicate MarkedFollowers(first: DssType, units: seq<Unit>) {
    forall i | 0 <= i < |units| ::
      Whole(units[i]) && Follows(first, units[i]) && HasContinuationMarker(units[i].payload)
  }

  /** What the segments say without their markers. */
  function Markerless(units: seq<Unit>): Bytes {
    if units == [] then []
    else (if |units[0].payload| >= 2 then units[0].payload[2..] else []) + Markerless(units[1..])
  }

  /** A frame headed by an open-ended object takes in its marked followers without the markers. */
  lemma {:induction false} MarkersDropped(units: seq<Unit>, header: DssHeader, payload: Bytes)
    requires MarkedFollowers(header.dssType, units) && HeadedByOpenEndedObject(payload)
    ensures var step := MergeFollowers(Stream(units), header, payload);
            && step.consumed == |Stream(units)| && step.outcome.Frame?
            && step.outcome.frame.payload == payload + Markerless(units)
    decreases |units|
  {
    hide MergeFollowers, Whole, Follows, HasContinuationMarker, HeadedByOpenEndedObject;
    if units == [] {
      NothingFollows(header, payload);
      assert payload + [] == payload;
    } else {
      var u := units[0];
      MarkerLength(u.payload);
      StaysHeaded(payload, u.payload[2..]);
      var h, p := WithChained(header, u.header.flags.chained), payload + u.payload[2..];
      assert forall i | 0 <= i < |units[1..]| :: units[1..][i] == units[i + 1];
      MarkerDropped(u, Stream(units[1..]), DssFrame(header, payload));
      MarkersDropped(units[1..], h, p);
      assert payload + Markerless(units) == p + Markerless(units[1..]);
    }
  }

  lemma NothingFollows(header: DssHeader, payload: Bytes)
    ensures MergeFollowers([], header, payload) == ReadStep(Frame(DssFrame(header, payload)), 0)
  {}

  lemma MarkerLength(payload: Bytes)
    requires HasContinuationMarker(payload)
    ensures |payload| >= 2
  {}

  lemma StaysHeaded(payload: Bytes, more: Bytes)
    requires HeadedByOpenEndedObject(payload)
    ensures HeadedByOpenEndedObject(payload + more)
  {}

  lemma {:induction false} UnmarkedNoLonger(rest: Bytes)
    ensures |UnmarkedChunks(rest)| <= |rest|
    ensures IsContinuationMarker(rest, 0) ==> |UnmarkedChunks(rest)| < |rest|
    decreases |rest|
  {
    if rest != [] {
      var skip := if IsContinuationMarker(rest, 0) then EXTENDED_DDM_CONTINUATION_MARKER_LEN else 0;
      var end := if skip + EXTENDED_DDM_CONTINUATION_CHUNK_LEN < |rest| then skip + EXTENDED_DDM_CONTINUATION_CHUNK_LEN
                 else |rest|;
      UnmarkedNoLonger(rest[end..]);
    }
  }

  /** Looking for markers in data that has none left does no harm exactly if the data does not
      look marked at the place of the first marker. */
  predicate LooksMarked(data: Bytes) {
    |data| > EXTENDED_DDM_FIRST_CHUNK_LEN + EXTENDED_DDM_CONTINUATION_MARKER_LEN
    && IsContinuationMarker(data, EXTENDED_DDM_FIRST_CHUNK_LEN)
  }

  lemma StripsNothing(data: Bytes)
    ensures StripContinuationMarkers(data) == data <==> !LooksMarked(data)
  {
    if LooksMarked(data) {
      var rest := data[EXTENDED_DDM_FIRST_CHUNK_LEN..];
      MarkerInSuffix(data, EXTENDED_DDM_FIRST_CHUNK_LEN);
      UnmarkedNoLonger(rest);
      assert |StripContinuationMarkers(data)| == EXTENDED_DDM_FIRST_CHUNK_LEN + |UnmarkedChunks(rest)|;
    }
  }

  function OpenEndedHead(codePoint: U16): Bytes {
    U16ToBytes(OPEN_ENDED_LENGTH) + U16ToBytes(codePoint)
  }

  lemma ParseOpenEnded(codePoint: U16, data: Bytes)
    ensures var b := OpenEndedHead(codePoint) + data;
            ParseObject(b) == Ok(ParsedObject(DdmObject(codePoint, StripContinuationMarkers(data)), |b|))
  {
    var b := OpenEndedHead(codePoint) + data;
    assert b[4..] == data;
  }

  /** An open-ended object in one segment and any number of marked followers, read off the wire
      and parsed, gives its data back if and only if the data does not look marked. */
  lemma {:induction false} OpenEndedArrives(first: Unit, others: seq<Unit>, codePoint: U16, data: Bytes)
    requires Whole(first) && !SpansSegments(first) && MarkedFollowers(first.header.dssType, others)
    requires OpenEndedHead(codePoint) <= first.payload
    requires data == first.payload[4..] + Markerless(others)
    ensures var step := ReadFrame(first.bytes + Stream(others));
            && step.outcome.Frame? && step.consumed == |first.bytes| + |Stream(others)|
            && step.outcome.frame.payload == OpenEndedHead(codePoint) + data
            && (ParseObject(step.outcome.frame.payload) == Ok(ParsedObject(DdmObject(codePoint, data), 4 + |data|))
                <==> !LooksMarked(data))
  {
    hide StripContinuationMarkers, LooksMarked, ParseObject, ReadFrame, MergeFollowers, Whole;
    var head := OpenEndedHead(codePoint);
    assert |head| == 4 && head[0] == 0x80 && head[1] == 0x04;
    assert first.payload == head + first.payload[4..];
    assert HeadedByOpenEndedObject(first.payload);
    ReadFirst(first, Stream(others));
    MarkersDropped(others, first.header, first.payload);
    assert first.payload + Markerless(others) == head + data;
    ParseOpenEnded(codePoint, data);
    StripsNothing(data);
  }

  /** Data whose bytes 32757 and 32758 happen to be 0x7FFF loses them. */
  lemma MarkerInData(codePoint: U16, first: Bytes, last: Byte)
    requires |first| == EXTENDED_DDM_FIRST_CHUNK_LEN
    ensures ParseObject(OpenEndedHead(codePoint) + (first + [0x7F, 0xFF, last]))
            == Ok(ParsedObject(DdmObject(codePoint, first + [last]), 4 + |first| + 3))
  {
    var data := first + [0x7F, 0xFF, last];
    ParseOpenEnded(codePoint, data);
    var rest := data[EXTENDED_DDM_FIRST_CHUNK_LEN..];
    assert rest == [0x7F, 0xFF, last] && data[..EXTENDED_DDM_FIRST_CHUNK_LEN] == first;
    assert rest[2..3] == [last] && rest[3..] == [];
    assert IsContinuationMarker(data, EXTENDED_DDM_FIRST_CHUNK_LEN) && IsContinuationMarker(rest, 0);
    assert UnmarkedChunks(rest) == [last] + UnmarkedChunks([]);
    assert StripContinuationMarkers(data) == first + [last];
  }
}
