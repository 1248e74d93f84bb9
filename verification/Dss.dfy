/** DSS segment headers and the writer that frames one payload (dss.rs). */
module Dss {
  import opened Wire

  const DSS_MAGIC: Byte := 0xD0
  const DSS_HEADER_LEN := 6
  const DSS_MAX_SEGMENT_LEN := 32767
  const DSS_FIRST_PAYLOAD_LEN := DSS_MAX_SEGMENT_LEN - DSS_HEADER_LEN
  const DSS_CONTINUATION_HEADER_LEN := 2
  const DSS_CONTINUATION_PAYLOAD_LEN := DSS_MAX_SEGMENT_LEN - DSS_CONTINUATION_HEADER_LEN

  datatype DssType = Request | Reply | Object | Communication {
    function ToByte(): Byte {
      match this
      case Request => 1
      case Reply => 2
      case Object => 3
      case Communication => 4
    }

    static function FromByte(b: Byte): Result<DssType, ProtoError> {
      match b % 16
      case 1 => Ok(Request)
      case 2 => Ok(Reply)
      case 3 => Ok(Object)
      case 4 => Ok(Communication)
      case other => Err(InvalidDssType(other))
    }
  }

  datatype DssFlags = DssFlags(chained: bool, continueOnError: bool, sameCorrelation: bool) {
    // The three flags occupy disjoint bits, so or-ing them is adding them.
    function ToByte(): Byte {
      (if chained then 0x40 else 0) + (if continueOnError then 0x20 else 0) + (if sameCorrelation then 0x10 else 0)
    }

    static function FromByte(b: Byte): DssFlags {
      DssFlags((b / 0x40) % 2 == 1, (b / 0x20) % 2 == 1, (b / 0x10) % 2 == 1)
    }
  }

  datatype DssHeader = DssHeader(length: U16, dssType: DssType, flags: DssFlags, correlationId: U16) {
    function Serialize(): Bytes {
      U16ToBytes(length) + [DSS_MAGIC, dssType.ToByte() + flags.ToByte()] + U16ToBytes(correlationId)
    }

    static function Parse(data: Bytes): Result<DssHeader, ProtoError> {
      if |data| < DSS_HEADER_LEN then Err(BufferTooShort(DSS_HEADER_LEN, |data|))
      else if data[2] != DSS_MAGIC then Err(InvalidMagic(data[2]))
      else
        match DssType.FromByte(data[3])
        case Err(e) => Err(e)
        case Ok(t) => Ok(DssHeader(DecodeDssLength(U16At(data, 0)), t, DssFlags.FromByte(data[3]), U16At(data, 4)))
    }
  }

  function DecodeDssLength(raw: U16): U16 {
    if raw == 0xFFFF then DSS_MAX_SEGMENT_LEN else raw
  }

  predicate IsFullContinuationLen(raw: U16) {
    raw == 0xFFFF || raw == 0x7FFF
  }

  function DecodeContinuationLen(raw: U16): nat {
    if IsFullContinuationLen(raw) then DSS_MAX_SEGMENT_LEN else raw
  }

  /** A serialized header reads back with its flags, type and correlation id, whatever follows it. */
  lemma HeaderRoundTrip(h: DssHeader, rest: Bytes)
    ensures DssHeader.Parse(h.Serialize() + rest) == Ok(h.(length := DecodeDssLength(h.length)))
    ensures U16At(h.Serialize() + rest, 0) == h.length
  {}

  /** The continuation chunks for the payload bytes left after the first segment. */
  function Continuations(p: Bytes): Bytes {
    if p == [] then []
    else if |p| > DSS_CONTINUATION_PAYLOAD_LEN then
      U16ToBytes(0xFFFF) + p[..DSS_CONTINUATION_PAYLOAD_LEN] + Continuations(p[DSS_CONTINUATION_PAYLOAD_LEN..])
    else U16ToBytes(|p| + DSS_CONTINUATION_HEADER_LEN) + p
  }

  /** The bytes one payload is framed into. */
  function EncodeDss(t: DssType, flags: DssFlags, corr: U16, payload: Bytes): Bytes {
    if |payload| + DSS_HEADER_LEN <= DSS_MAX_SEGMENT_LEN then
      DssHeader(|payload| + DSS_HEADER_LEN, t, flags, corr).Serialize() + payload
    else
      DssHeader(0xFFFF, t, flags, corr).Serialize()
      + payload[..DSS_FIRST_PAYLOAD_LEN] + Continuations(payload[DSS_FIRST_PAYLOAD_LEN..])
  }

  /** Framing the payload from `offset` on turns `written` into `goal`. */
  ghost predicate Completes(written: Bytes, payload: Bytes, offset: nat, goal: Bytes) {
    offset <= |payload| && written + Continuations(payload[offset..]) == goal
  }

  class DssWriter {
    var correlationId: U16
    var buffer: Bytes

    constructor (initialCorrelationId: U16)
      ensures correlationId == initialCorrelationId && buffer == []
    {
      correlationId, buffer := initialCorrelationId, [];
    }

    /** Hands over the accumulated bytes and starts a new message. */
    method Finish() returns (data: Bytes)
      modifies this`buffer
      ensures data == old(buffer) && buffer == []
    {
      data := buffer;
      buffer := [];
    }

    /** Correlation ids are 16-bit and wrap to zero. */
    method NextCorrelationId() returns (id: U16)
      modifies this`correlationId
      ensures id == correlationId == (old(correlationId) + 1) % 0x1_0000
    {
      correlationId := (correlationId + 1) % 0x1_0000;
      id := correlationId;
    }

    method WriteDssFull(dssType: DssType, chained: bool, sameCorrelation: bool, payload: Bytes)
      modifies this`buffer
      ensures buffer
           == old(buffer) + EncodeDss(dssType, DssFlags(chained, false, sameCorrelation), correlationId, payload)
    {
      hide Continuations, U16ToBytes;
      var total := |payload| + DSS_HEADER_LEN;
      var flags := DssFlags(chained, false, sameCorrelation);
      if total <= DSS_MAX_SEGMENT_LEN {
        buffer := buffer + DssHeader(total, dssType, flags, correlationId).Serialize();
        buffer := buffer + payload;
      } else {
        buffer := buffer + DssHeader(0xFFFF, dssType, flags, correlationId).Serialize();
        var firstChunkLen := if DSS_FIRST_PAYLOAD_LEN < |payload| then DSS_FIRST_PAYLOAD_LEN else |payload|;
        buffer := buffer + payload[..firstChunkLen];
        WriteContinuations(payload, firstChunkLen);
      }
    }

    /** The rest of a payload too long for one segment, each chunk behind its two-byte length. */
    method WriteContinuations(payload: Bytes, start: nat)
      requires start <= |payload|
      modifies this`buffer
      ensures buffer == old(buffer) + Continuations(payload[start..])
    {
      var offset := start;
      ghost var goal := buffer + Continuations(payload[offset..]);
      while offset < |payload|
        invariant Completes(buffer, payload, offset, goal)
      {
        var remaining := |payload| - offset;
        var chunkLen :=
          if remaining < DSS_CONTINUATION_PAYLOAD_LEN then remaining else DSS_CONTINUATION_PAYLOAD_LEN;
        var hasMore := remaining > DSS_CONTINUATION_PAYLOAD_LEN;
        var continuationLen :=
          if hasMore && chunkLen == DSS_CONTINUATION_PAYLOAD_LEN then 0xFFFF
          else chunkLen + DSS_CONTINUATION_HEADER_LEN;
        ContinuationStep(payload, offset, chunkLen, continuationLen, buffer, goal);
        buffer := buffer + U16ToBytes(continuationLen);
        buffer := buffer + payload[offset..offset + chunkLen];
        offset := offset + chunkLen;
      }
      assert payload[offset..] == [] && buffer + [] == buffer;
    }

    method WriteObject(payload: Bytes, chained: bool)
      modifies this`buffer
      ensures buffer == old(buffer) + EncodeDss(Object, DssFlags(chained, false, false), correlationId, payload)
    {
      WriteDssFull(Object, chained, false, payload);
    }

    method WriteObjectSameCorr(payload: Bytes, chained: bool)
      modifies this`buffer
      ensures buffer == old(buffer) + EncodeDss(Object, DssFlags(chained, false, true), correlationId, payload)
    {
      WriteDssFull(Object, chained, true, payload);
    }

    method WriteRequestNextSameCorr(payload: Bytes, chained: bool)
      modifies this`buffer
      ensures buffer == old(buffer) + EncodeDss(Request, DssFlags(chained, false, true), correlationId, payload)
    {
      WriteDssFull(Request, chained, true, payload);
    }
  }

  /** One turn of the writer's loop emits the head of `Continuations`. */
  lemma ContinuationStep(
    payload: Bytes, offset: nat, chunkLen: nat, continuationLen: U16, written: Bytes, goal: Bytes
  )
    requires offset < |payload| && Completes(written, payload, offset, goal)
    requires var remaining := |payload| - offset;
             && chunkLen == (if remaining < DSS_CONTINUATION_PAYLOAD_LEN then remaining
                             else DSS_CONTINUATION_PAYLOAD_LEN)
             && continuationLen == if remaining > DSS_CONTINUATION_PAYLOAD_LEN then 0xFFFF
                                   else chunkLen + DSS_CONTINUATION_HEADER_LEN
    ensures Completes(written + U16ToBytes(continuationLen) + payload[offset..offset + chunkLen],
                      payload, offset + chunkLen, goal)
  {}
}
