/** The DSS reader: reassembling frames from a growing buffer (dss.rs). */
module DssReading {
  import opened Wire
  import opened Dss

  datatype DssFrame = DssFrame(header: DssHeader, payload: Bytes)

  /** What one read attempt yields. A segment that declares fewer bytes than
      its own header makes the original slice out of range and panic. */
  datatype ReadOutcome =
    | NeedMore
    | Frame(frame: DssFrame)
    | Malformed(error: ProtoError)
    | Panic

  /** An outcome and the number of bytes the reader's position moved by. */
  datatype ReadStep = ReadStep(outcome: ReadOutcome, consumed: nat)

  datatype ReadAllOutcome =
    | AllFrames(frames: seq<DssFrame>)
    | AllMalformed(error: ProtoError)
    | AllPanic

  datatype ReadAllStep = ReadAllStep(outcome: ReadAllOutcome, consumed: nat)

  // ---- What the reader computes, on the unread suffix `r` of its buffer ----

  /** The length of the continuation chunks at the front of `r`, up to and including the last one. */
  function ContinuationsLen(r: Bytes): Option<nat>
    decreases |r|
  {
    if |r| < DSS_CONTINUATION_HEADER_LEN then None
    else
      var raw := U16At(r, 0);
      var len := DecodeContinuationLen(raw);
      if len < DSS_CONTINUATION_HEADER_LEN || |r| < len then None
      else if !IsFullContinuationLen(raw) then Some(len)
      else
        match ContinuationsLen(r[len..])
        case None => None
        case Some(n) => Some(len + n)
  }

  /** The length of the first frame of `r`, if all of it has arrived. */
  function FrameLen(r: Bytes): Option<nat> {
    if |r| < DSS_HEADER_LEN then None
    else
      var raw := U16At(r, 0);
      if raw != 0xFFFF then
        if |r| >= DecodeDssLength(raw) then Some(DecodeDssLength(raw)) else None
      else if |r| < DSS_MAX_SEGMENT_LEN then None
      else
        match ContinuationsLen(r[DSS_MAX_SEGMENT_LEN..])
        case None => None
        case Some(n) => Some(DSS_MAX_SEGMENT_LEN + n)
  }

  /** The payload bytes of the continuation chunks at the front of `r`. */
  function CollectContinuations(r: Bytes): Bytes
    requires ContinuationsLen(r).Some?
    decreases |r|
  {
    var raw := U16At(r, 0);
    var len := DecodeContinuationLen(raw);
    r[DSS_CONTINUATION_HEADER_LEN..len] + if IsFullContinuationLen(raw) then CollectContinuations(r[len..]) else []
  }

  datatype MergeDecision =
    | StopMerging
    | MergeMalformed(error: ProtoError)
    | MergePanic
    | Merge(bytes: Bytes, chained: bool, length: nat)

  predicate ContinuationTypeOk(first: DssType, next: DssType) {
    next == first || ((first == Reply || first == Request) && next == Object)
  }

  /** A segment payload that starts like a DDM object of its own. */
  predicate LooksLikeDdmObject(payload: Bytes) {
    && |payload| > 4
    && U16At(payload, 2) > 0x0100
    && U16At(payload, 0) <= |payload| + 4
  }

  /** The two-byte marker that follow-on segments of an extended-length object carry. */
  predicate HasContinuationMarker(payload: Bytes) {
    |payload| >= 2 && (U16At(payload, 0) == 0x7FFE || U16At(payload, 0) == 0x7FFF)
  }

  predicate HeadedByOpenEndedObject(payload: Bytes) {
    |payload| >= 4 && payload[0] == 0x80 && payload[1] == 0x04
  }

  /** Whether the segment at the front of `r` continues the frame read so far. */
  function DecideMerge(r: Bytes, first: DssType, payload: Bytes): MergeDecision {
    if |r| < DSS_HEADER_LEN then StopMerging
    else
      match DssHeader.Parse(r)
      case Err(e) => MergeMalformed(e)
      case Ok(peek) =>
        if U16At(r, 0) == 0xFFFF then StopMerging
        else if !peek.flags.sameCorrelation then StopMerging
        else if !ContinuationTypeOk(first, peek.dssType) then StopMerging
        else if |r| < peek.length then StopMerging
        else if peek.length < DSS_HEADER_LEN then MergePanic
        else
          var body := r[DSS_HEADER_LEN..peek.length];
          if LooksLikeDdmObject(body) then StopMerging
          else
            Merge(if HeadedByOpenEndedObject(payload) && HasContinuationMarker(body) then body[2..] else body,
                  peek.flags.chained, peek.length)
  }

  /** The last merged segment says whether the reply chain continues. */
  function WithChained(header: DssHeader, chained: bool): DssHeader {
    header.(flags := header.flags.(chained := chained))
  }

  function MergeFollowers(r: Bytes, header: DssHeader, payload: Bytes): ReadStep
    decreases |r|
  {
    match DecideMerge(r, header.dssType, payload)
    case StopMerging => ReadStep(Frame(DssFrame(header, payload)), 0)
    case MergeMalformed(e) => ReadStep(Malformed(e), 0)
    case MergePanic => ReadStep(Panic, 0)
    case Merge(bytes, chained, length) =>
      var step := MergeFollowers(r[length..], WithChained(header, chained), payload + bytes);
      step.(consumed := length + step.consumed)
  }

  /** One call of `next_frame`. */
  function ReadFrame(r: Bytes): ReadStep {
    match FrameLen(r)
    case None => ReadStep(NeedMore, 0)
    case Some(n) =>
      match DssHeader.Parse(r)
      case Err(e) => ReadStep(Malformed(e), 0)
      case Ok(header) =>
        if header.length < DSS_HEADER_LEN then ReadStep(Panic, 0)
        else if U16At(r, 0) == 0xFFFF then
          var body := r[DSS_HEADER_LEN..DSS_MAX_SEGMENT_LEN] + CollectContinuations(r[DSS_MAX_SEGMENT_LEN..]);
          ReadStep(Frame(DssFrame(header, body)), n)
        else
          var step := MergeFollowers(r[header.length..], header, r[DSS_HEADER_LEN..header.length]);
          step.(consumed := header.length + step.consumed)
  }

  lemma {:induction false} ContinuationsLenBound(r: Bytes)
    requires ContinuationsLen(r).Some?
    ensures DSS_CONTINUATION_HEADER_LEN <= ContinuationsLen(r).value <= |r|
    decreases |r|
  {
    var len := DecodeContinuationLen(U16At(r, 0));
    if IsFullContinuationLen(U16At(r, 0)) {
      ContinuationsLenBound(r[len..]);
    }
  }

  lemma {:induction false} MergeFollowersBound(r: Bytes, header: DssHeader, payload: Bytes)
    ensures MergeFollowers(r, header, payload).consumed <= |r|
    ensures !MergeFollowers(r, header, payload).outcome.NeedMore?
    decreases |r|
  {
    var d := DecideMerge(r, header.dssType, payload);
    if d.Merge? {
      MergeFollowersBound(r[d.length..], WithChained(header, d.chained), payload + d.bytes);
    }
  }

  /** A frame takes at least a header's worth of bytes and never more than there are. */
  lemma ReadFrameProgress(r: Bytes)
    ensures ReadFrame(r).consumed <= |r|
    ensures ReadFrame(r).outcome.Frame? ==> ReadFrame(r).consumed >= DSS_HEADER_LEN
    ensures ReadFrame(r).outcome.NeedMore? <==> FrameLen(r).None?
  {
    if FrameLen(r).Some? && DssHeader.Parse(r).Ok? {
      var header := DssHeader.Parse(r).value;
      if U16At(r, 0) == 0xFFFF {
        ContinuationsLenBound(r[DSS_MAX_SEGMENT_LEN..]);
      } else if header.length >= DSS_HEADER_LEN {
        MergeFollowersBound(r[header.length..], header, r[DSS_HEADER_LEN..header.length]);
      }
    }
  }

  /** The cases `next_frame` distinguishes once the frame's end is known. */
  lemma ReadFrameCases(r: Bytes)
    ensures FrameLen(r).None? ==> ReadFrame(r) == ReadStep(NeedMore, 0)
    ensures FrameLen(r).Some? ==>
              && DSS_HEADER_LEN <= |r|
              && match DssHeader.Parse(r)
                 case Err(e) => ReadFrame(r) == ReadStep(Malformed(e), 0)
                 case Ok(header) =>
                   if header.length < DSS_HEADER_LEN then ReadFrame(r) == ReadStep(Panic, 0)
                   else
                     && header.length <= |r|
                     && var first := r[DSS_HEADER_LEN..header.length];
                        if U16At(r, 0) == 0xFFFF then
                          && header.length == DSS_MAX_SEGMENT_LEN
                          && ContinuationsLen(r[DSS_MAX_SEGMENT_LEN..]) == Some(FrameLen(r).value - DSS_MAX_SEGMENT_LEN)
                          && ReadFrame(r) == ReadStep(
                               Frame(DssFrame(header, first + CollectContinuations(r[DSS_MAX_SEGMENT_LEN..]))),
                               FrameLen(r).value)
                        else
                          && header.length == U16At(r, 0)
                          && var step := MergeFollowers(r[header.length..], header, first);
                             ReadFrame(r) == step.(consumed := header.length + step.consumed)
  {}

  /** `read_all_frames`: frames until no complete one is left, or the first failure. */
  function ReadAll(r: Bytes): ReadAllStep
    decreases |r|
  {
    var step := ReadFrame(r);
    ReadFrameProgress(r);
    match step.outcome
    case NeedMore => ReadAllStep(AllFrames([]), 0)
    case Malformed(e) => ReadAllStep(AllMalformed(e), step.consumed)
    case Panic => ReadAllStep(AllPanic, step.consumed)
    case Frame(f) =>
      var more := ReadAll(r[step.consumed..]);
      ReadAllStep(if more.outcome.AllFrames? then AllFrames([f] + more.outcome.frames) else more.outcome,
                  step.consumed + more.consumed)
  }

  // ---- Loop invariants of the reader ----

  /** Merging on from `r` after `consumed` bytes ends in `goal`. */
  ghost predicate Merges(r: Bytes, header: DssHeader, payload: Bytes, consumed: int, goal: ReadStep) {
    var step := MergeFollowers(r, header, payload);
    goal.outcome == step.outcome && goal.consumed == consumed + step.consumed
  }

  lemma MergesNext(r: Bytes, header: DssHeader, payload: Bytes, consumed: int, goal: ReadStep)
    requires Merges(r, header, payload, consumed, goal)
    ensures var d := DecideMerge(r, header.dssType, payload);
            match d
            case StopMerging => goal.outcome == Frame(DssFrame(header, payload)) && goal.consumed == consumed
            case MergeMalformed(e) => goal.outcome == Malformed(e) && goal.consumed == consumed
            case MergePanic => goal.outcome == Panic && goal.consumed == consumed
            case Merge(bytes, chained, length) =>
              && DSS_HEADER_LEN <= length <= |r|
              && Merges(r[length..], WithChained(header, chained), payload + bytes, consumed + length, goal)
  {}

  /** `left` more bytes of chunks stand at the front of `r` and complete `payload` to `goal`. */
  ghost predicate Collects(r: Bytes, payload: Bytes, left: int, goal: Bytes) {
    if left == 0 then payload == goal
    else ContinuationsLen(r) == Some(left) && payload + CollectContinuations(r) == goal
  }

  lemma CollectStep(r: Bytes, payload: Bytes, left: nat, goal: Bytes)
    requires left > 0 && Collects(r, payload, left, goal)
    ensures |r| >= 2
    ensures var raw := U16At(r, 0);
            var len := DecodeContinuationLen(raw);
            && 2 <= len <= |r| && len <= left
            && (IsFullContinuationLen(raw) <==> len < left)
            && Collects(r[len..], payload + r[2..len], left - len, goal)
  {}

  /** Reading on from `r` with `frames` already read ends in `goal`. */
  ghost predicate Reads(r: Bytes, frames: seq<DssFrame>, consumed: int, goal: ReadAllStep) {
    var more := ReadAll(r);
    && goal.consumed == consumed + more.consumed
    && goal.outcome == if more.outcome.AllFrames? then AllFrames(frames + more.outcome.frames) else more.outcome
  }

  function Finish(last: ReadOutcome, frames: seq<DssFrame>): ReadAllOutcome
    requires !last.Frame?
  {
    match last
    case NeedMore => AllFrames(frames)
    case Malformed(e) => AllMalformed(e)
    case Panic => AllPanic
  }

  lemma ReadsFromStart(r: Bytes)
    ensures Reads(r, [], 0, ReadAll(r))
  {}

  /** After a read that yielded `next` and left `r` unread, reading on ends in `goal`. */
  ghost predicate ReadsAfter(
    next: ReadOutcome, r: Bytes, frames: seq<DssFrame>, consumed: int, goal: ReadAllStep
  ) {
    if next.Frame? then Reads(r, frames + [next.frame], consumed, goal)
    else goal.outcome == Finish(next, frames) && goal.consumed == consumed
  }

  lemma ReadAllNext(r: Bytes, frames: seq<DssFrame>, consumed: int, goal: ReadAllStep)
    requires Reads(r, frames, consumed, goal)
    ensures var step := ReadFrame(r);
            && step.consumed <= |r|
            && (step.outcome.Frame? ==> step.consumed > 0)
            && ReadsAfter(step.outcome, r[step.consumed..], frames, consumed + step.consumed, goal)
  {
    ReadFrameProgress(r);
    var step := ReadFrame(r);
    if step.outcome.NeedMore? {
      assert frames + [] == frames;
    } else if step.outcome.Frame? {
      var more := ReadAll(r[step.consumed..]).outcome;
      if more.AllFrames? {
        assert frames + ([step.outcome.frame] + more.frames) == frames + [step.outcome.frame] + more.frames;
      }
    }
  }

  // ---- The reader ----

  lemma NextContinuation(r: Bytes)
    ensures |r| < 2 ==> ContinuationsLen(r) == None
    ensures |r| >= 2 ==>
              var len := DecodeContinuationLen(U16At(r, 0));
              ContinuationsLen(r) == if len < DSS_CONTINUATION_HEADER_LEN || |r| < len then None
                                     else if !IsFullContinuationLen(U16At(r, 0)) then Some(len)
                                     else
                                       match ContinuationsLen(r[len..])
                                       case None => None
                                       case Some(n) => Some(len + n)
  {}

  /** The end offset of the first complete frame of `buffer` from `start` on. */
  method CompleteFrameLenFrom(buffer: Bytes, start: nat) returns (end: Option<nat>)
    requires start <= |buffer|
    ensures match FrameLen(buffer[start..]) case None => end == None case Some(n) => end == Some(start + n)
  {
    hide ContinuationsLen, IsFullContinuationLen;
    if |buffer| - start < DSS_HEADER_LEN {
      return None;
    }
    var rawLength := U16At(buffer, start);
    if rawLength != 0xFFFF {
      var len := DecodeDssLength(rawLength);
      return if |buffer| - start >= len then Some(start + len) else None;
    }
    if |buffer| - start < DSS_MAX_SEGMENT_LEN {
      return None;
    }
    var position := start + DSS_MAX_SEGMENT_LEN;
    ghost var first := position;
    assert buffer[start..][DSS_MAX_SEGMENT_LEN..] == buffer[position..];
    ghost var goal := ContinuationsLen(buffer[position..]);
    while true
      invariant first <= position <= |buffer|
      invariant goal == (match ContinuationsLen(buffer[position..])
                         case None => None
                         case Some(n) => Some(position - first + n))
      decreases |buffer| - position
    {
      NextContinuation(buffer[position..]);
      if |buffer| - position < DSS_CONTINUATION_HEADER_LEN {
        return None;
      }
      var continuationRaw := U16At(buffer, position);
      var continuationLen := DecodeContinuationLen(continuationRaw);
      if continuationLen < DSS_CONTINUATION_HEADER_LEN {
        return None;
      }
      if |buffer| - position < continuationLen {
        return None;
      }
      assert buffer[position..][continuationLen..] == buffer[position + continuationLen..];
      position := position + continuationLen;
      if !IsFullContinuationLen(continuationRaw) {
        return Some(position);
      }
    }
  }

  class DssReader {
    var buffer: Bytes
    var position: nat

    ghost predicate Valid()
      reads this
    {
      position <= |buffer|
    }

    ghost function Unread(): Bytes
      reads this
      requires Valid()
    {
      buffer[position..]
    }

    constructor (data: Bytes)
      ensures Valid() && Unread() == data
    {
      buffer, position := data, 0;
    }

    method Extend(data: Bytes)
      requires Valid()
      modifies this`buffer
      ensures Valid() && Unread() == old(Unread()) + data
    {
      buffer := buffer + data;
    }

    method IntoRemaining() returns (rest: Bytes)
      requires Valid()
      ensures rest == Unread()
    {
      rest := buffer[position..];
    }

    method NextFrame() returns (outcome: ReadOutcome)
      requires Valid()
      modifies this`position
      ensures Valid()
      ensures outcome == ReadFrame(old(Unread())).outcome
      ensures position == old(position) + ReadFrame(old(Unread())).consumed
    {
      ghost var r := Unread();
      ReadFrameCases(r);
      hide ReadFrame, FrameLen, DssHeader.Parse, MergeFollowers;
      var completeLen := CompleteFrameLenFrom(buffer, position);
      if completeLen.None? {
        return NeedMore;
      }
      var rawLength := U16At(buffer, position);
      var parsed := DssHeader.Parse(buffer[position..]);
      if parsed.Err? {
        return Malformed(parsed.error);
      }
      var header := parsed.value;
      var segLen := if rawLength == 0xFFFF then DSS_MAX_SEGMENT_LEN else header.length;
      if segLen < DSS_HEADER_LEN {
        return Panic;
      }
      var payload := buffer[position + DSS_HEADER_LEN..position + segLen];
      assert payload == r[DSS_HEADER_LEN..segLen];
      assert buffer[position + segLen..] == r[segLen..];
      position := position + segLen;
      if rawLength == 0xFFFF {
        payload := TakeContinuations(payload, completeLen.value, r[segLen..]);
        return Frame(DssFrame(header, payload));
      }
      outcome := TakeFollowers(header, payload, r[segLen..]);
    }

    /** The chunks of a maximum-length segment, already known to be complete. */
    method TakeContinuations(first: Bytes, completeLen: nat, ghost chunks: Bytes) returns (payload: Bytes)
      requires Valid() && Unread() == chunks && ContinuationsLen(chunks) == Some(completeLen - position)
      modifies this`position
      ensures Valid() && position == completeLen
      ensures payload == first + CollectContinuations(chunks)
    {
      hide ContinuationsLen, CollectContinuations;
      payload := first;
      ghost var goal := first + CollectContinuations(chunks);
      ContinuationsLenBound(chunks);
      while position < completeLen
        invariant Valid() && position <= completeLen
        invariant Collects(Unread(), payload, completeLen - position, goal)
        decreases |buffer| - position
      {
        ghost var r := Unread();
        CollectStep(r, payload, completeLen - position, goal);
        var continuationRaw := U16At(buffer, position);
        var continuationLen := DecodeContinuationLen(continuationRaw);
        var chunk := buffer[position + DSS_CONTINUATION_HEADER_LEN..position + continuationLen];
        assert chunk == r[2..continuationLen];
        assert buffer[position + continuationLen..] == r[continuationLen..];
        payload := payload + chunk;
        position := position + continuationLen;
        if !IsFullContinuationLen(continuationRaw) {
          break;
        }
      }
    }

    /** Absorbs the segments that only continue the frame read so far. */
    method TakeFollowers(header: DssHeader, first: Bytes, ghost rest: Bytes) returns (outcome: ReadOutcome)
      requires Valid() && Unread() == rest
      modifies this`position
      ensures Valid()
      ensures outcome == MergeFollowers(rest, header, first).outcome
      ensures position == old(position) + MergeFollowers(rest, header, first).consumed
    {
      var firstHeader, payload := header, first;
      ghost var goal := MergeFollowers(rest, header, first);
      hide MergeFollowers, DecideMerge;
      MergesNext(rest, firstHeader, payload, 0, goal);
      var decision := DecideMerge(buffer[position..], firstHeader.dssType, payload);
      while decision.Merge?
        invariant Valid() && old(position) <= position
        invariant decision == DecideMerge(Unread(), firstHeader.dssType, payload)
        invariant Merges(Unread(), firstHeader, payload, position - old(position), goal)
        decreases |buffer| - position
      {
        ghost var r := Unread();
        MergesNext(r, firstHeader, payload, position - old(position), goal);
        assert buffer[position + decision.length..] == r[decision.length..];
        payload := payload + decision.bytes;
        position := position + decision.length;
        firstHeader := WithChained(firstHeader, decision.chained);
        decision := DecideMerge(buffer[position..], firstHeader.dssType, payload);
      }
      MergesNext(Unread(), firstHeader, payload, position - old(position), goal);
      outcome := if decision.StopMerging? then Frame(DssFrame(firstHeader, payload))
                 else if decision.MergeMalformed? then Malformed(decision.error)
                 else Panic;
    }

    method ReadAllFrames() returns (outcome: ReadAllOutcome)
      requires Valid()
      modifies this`position
      ensures Valid()
      ensures outcome == ReadAll(old(Unread())).outcome
      ensures position == old(position) + ReadAll(old(Unread())).consumed
    {
      hide ReadAll, ReadFrame, Reads;
      var frames: seq<DssFrame> := [];
      ghost var goal := ReadAll(Unread());
      ReadsFromStart(Unread());
      ReadAllNext(Unread(), frames, 0, goal);
      ghost var r := Unread();
      var next := NextFrame();
      assert Unread() == r[ReadFrame(r).consumed..];
      while next.Frame?
        invariant Valid() && old(position) <= position
        invariant ReadsAfter(next, Unread(), frames, position - old(position), goal)
        decreases next.Frame?, |buffer| - position
      {
        frames := frames + [next.frame];
        r := Unread();
        ReadAllNext(r, frames, position - old(position), goal);
        next := NextFrame();
        assert Unread() == r[ReadFrame(r).consumed..];
      }
      outcome := Finish(next, frames);
    }
  }
}
