/** What the reader makes of the bytes a writer produced, delivered whole or in part. */
module Framing {
  import opened Wire
  import opened Dss
  import opened DssReading

  // ---- One payload ----

  /** The payload lengths the writer frames readably. A last chunk that exactly fills its
      continuation gets length 0x7FFF, which the reader takes to announce another chunk. */
  predicate ReadsBack(n: nat) {
    n <= DSS_FIRST_PAYLOAD_LEN || (n - DSS_FIRST_PAYLOAD_LEN) % DSS_CONTINUATION_PAYLOAD_LEN != 0
  }

  lemma FullChunk(raw: U16, chunk: Bytes, tail: Bytes)
    requires IsFullContinuationLen(raw) && |chunk| == DSS_CONTINUATION_PAYLOAD_LEN
    ensures var r := U16ToBytes(raw) + chunk + tail;
            |r| == DSS_MAX_SEGMENT_LEN + |tail| &&
            match ContinuationsLen(tail)
            case None => ContinuationsLen(r) == None
            case Some(n) => ContinuationsLen(r) == Some(DSS_MAX_SEGMENT_LEN + n)
                            && CollectContinuations(r) == chunk + CollectContinuations(tail)
  {}

  lemma LastChunk(chunk: Bytes, tail: Bytes)
    requires |chunk| < DSS_CONTINUATION_PAYLOAD_LEN
    ensures var r := U16ToBytes(|chunk| + 2) + chunk + tail;
            && |r| == |chunk| + 2 + |tail|
            && ContinuationsLen(r) == Some(|chunk| + 2) && CollectContinuations(r) == chunk
  {}

  /** Continuation chunks read back to their payload if the last one is not full; otherwise
      the reader goes on into whatever follows. */
  lemma {:induction false} ContinuationsReadBack(p: Bytes, rest: Bytes)
    requires p != []
    ensures |p| % DSS_CONTINUATION_PAYLOAD_LEN != 0 ==>
              && ContinuationsLen(Continuations(p) + rest) == Some(|Continuations(p)|)
              && CollectContinuations(Continuations(p) + rest) == p
    ensures |p| % DSS_CONTINUATION_PAYLOAD_LEN == 0 ==>
              ContinuationsLen(Continuations(p) + rest)
              == match ContinuationsLen(rest) case None => None case Some(n) => Some(|Continuations(p)| + n)
    decreases |p|
  {
    hide ContinuationsLen, CollectContinuations, U16ToBytes, Continuations;
    ContinuationsHead(p);
    if |p| > DSS_CONTINUATION_PAYLOAD_LEN {
      var chunk, tail := p[..DSS_CONTINUATION_PAYLOAD_LEN], p[DSS_CONTINUATION_PAYLOAD_LEN..];
      ContinuationsReadBack(tail, rest);
      SameResidue(|tail|);
      FullChunk(0xFFFF, chunk, Continuations(tail) + rest);
      var head := U16ToBytes(0xFFFF) + chunk;
      assert |head| == 2 + |chunk|;
      assert Continuations(p) + rest == head + (Continuations(tail) + rest);
      assert p == chunk + tail;
    } else if |p| == DSS_CONTINUATION_PAYLOAD_LEN {
      FullChunk(0x7FFF, p, rest);
    } else {
      LastChunk(p, rest);
    }
  }

  lemma SameResidue(n: nat)
    ensures (n + DSS_CONTINUATION_PAYLOAD_LEN) % DSS_CONTINUATION_PAYLOAD_LEN == n % DSS_CONTINUATION_PAYLOAD_LEN
  {}

  lemma ContinuationsHead(p: Bytes)
    requires p != []
    ensures Continuations(p)
         == if |p| > DSS_CONTINUATION_PAYLOAD_LEN then
              U16ToBytes(0xFFFF) + p[..DSS_CONTINUATION_PAYLOAD_LEN] + Continuations(p[DSS_CONTINUATION_PAYLOAD_LEN..])
            else U16ToBytes(|p| + DSS_CONTINUATION_HEADER_LEN) + p
  {}

  /** One whole frame as it stands on the wire. */
  predicate IsUnit(w: Bytes) {
    && FrameLen(w) == Some(|w|)
    && DssHeader.Parse(w).Ok?
    && DssHeader.Parse(w).value.length >= DSS_HEADER_LEN
  }

  function UnitHeader(w: Bytes): DssHeader
    requires IsUnit(w)
  {
    DssHeader.Parse(w).value
  }

  function UnitPayload(w: Bytes): Bytes
    requires IsUnit(w)
  {
    if U16At(w, 0) == 0xFFFF then
      w[DSS_HEADER_LEN..DSS_MAX_SEGMENT_LEN] + CollectContinuations(w[DSS_MAX_SEGMENT_LEN..])
    else w[DSS_HEADER_LEN..]
  }

  function EncodedHeader(t: DssType, flags: DssFlags, corr: U16, payload: Bytes): DssHeader {
    DssHeader(if |payload| <= DSS_FIRST_PAYLOAD_LEN then |payload| + DSS_HEADER_LEN else DSS_MAX_SEGMENT_LEN,
              t, flags, corr)
  }

  /** The writer's bytes are a whole frame carrying the payload and header it was given,
      exactly if the payload length is off the boundary residue. */
  lemma EncodedUnit(t: DssType, flags: DssFlags, corr: U16, payload: Bytes)
    ensures var w := EncodeDss(t, flags, corr, payload);
            && (IsUnit(w) <==> ReadsBack(|payload|))
            && (IsUnit(w) ==> UnitHeader(w) == EncodedHeader(t, flags, corr, payload) && UnitPayload(w) == payload)
            && (!IsUnit(w) ==> FrameLen(w) == None)
  {
    if |payload| <= DSS_FIRST_PAYLOAD_LEN {
      EncodedShort(t, flags, corr, payload);
    } else {
      EncodedLong(t, flags, corr, payload);
    }
  }

  lemma EncodedShort(t: DssType, flags: DssFlags, corr: U16, payload: Bytes)
    requires |payload| <= DSS_FIRST_PAYLOAD_LEN
    ensures var w := EncodeDss(t, flags, corr, payload);
            IsUnit(w) && UnitHeader(w) == EncodedHeader(t, flags, corr, payload) && UnitPayload(w) == payload
  {
    var header := DssHeader(|payload| + DSS_HEADER_LEN, t, flags, corr);
    HeaderRoundTrip(header, payload);
    assert (header.Serialize() + payload)[DSS_HEADER_LEN..] == payload;
  }

  lemma EncodedLong(t: DssType, flags: DssFlags, corr: U16, payload: Bytes)
    requires |payload| > DSS_FIRST_PAYLOAD_LEN
    ensures var w := EncodeDss(t, flags, corr, payload);
            && (IsUnit(w) <==> ReadsBack(|payload|))
            && (IsUnit(w) ==> UnitHeader(w) == EncodedHeader(t, flags, corr, payload) && UnitPayload(w) == payload)
            && (!IsUnit(w) ==> FrameLen(w) == None)
  {
    hide Continuations, ContinuationsLen, CollectContinuations;
    var first, more := payload[..DSS_FIRST_PAYLOAD_LEN], payload[DSS_FIRST_PAYLOAD_LEN..];
    var header, w := DssHeader(0xFFFF, t, flags, corr), EncodeDss(t, flags, corr, payload);
    HeaderRoundTrip(header, first + Continuations(more));
    assert w == header.Serialize() + (first + Continuations(more));
    assert w[DSS_HEADER_LEN..DSS_MAX_SEGMENT_LEN] == first && w[DSS_MAX_SEGMENT_LEN..] == Continuations(more);
    ContinuationsReadBack(more, []);
    NothingAhead();
    assert Continuations(more) + [] == Continuations(more) && first + more == payload;
  }

  lemma NothingAhead()
    ensures ContinuationsLen([]) == None
  {}

  /** The exact round trip of one payload: a reader given the writer's bytes returns the frame
      that was written if and only if the length reads back, and otherwise waits for more. */
  lemma DssRoundTripExact(t: DssType, flags: DssFlags, corr: U16, payload: Bytes)
    ensures var w := EncodeDss(t, flags, corr, payload);
            ReadFrame(w) == if ReadsBack(|payload|)
                            then ReadStep(Frame(DssFrame(EncodedHeader(t, flags, corr, payload), payload)), |w|)
                            else ReadStep(NeedMore, 0)
  {
    EncodedUnit(t, flags, corr, payload);
    var w := EncodeDss(t, flags, corr, payload);
    if IsUnit(w) {
      assert w[|w|..] == [] && w[6..|w|] == w[6..];
      UnitInStream(w, w);
    }
  }

  /** The smallest payload that does not read back is 65526 bytes long. */
  lemma BoundaryPayloadNeedsMore(payload: Bytes)
    requires |payload| == DSS_FIRST_PAYLOAD_LEN + DSS_CONTINUATION_PAYLOAD_LEN
    ensures ReadFrame(EncodeDss(Request, DssFlags(false, false, false), 1, payload)) == ReadStep(NeedMore, 0)
  {
    DssRoundTripExact(Request, DssFlags(false, false, false), 1, payload);
  }

  // ---- Frames depend only on their own bytes ----

  lemma {:induction false} ContinuationsLocal(r: Bytes, s: Bytes)
    requires ContinuationsLen(r).Some?
    requires var n := ContinuationsLen(r).value; |s| >= n && n <= |r| && s[..n] == r[..n]
    ensures ContinuationsLen(s) == ContinuationsLen(r) && CollectContinuations(s) == CollectContinuations(r)
    decreases |r|
  {
    var n := ContinuationsLen(r).value;
    ContinuationsLenBound(r);
    assert forall i | 0 <= i < n :: r[..n][i] == r[i] && s[..n][i] == s[i];
    var len := DecodeContinuationLen(U16At(r, 0));
    assert s[2..len] == r[2..len] by {
      if IsFullContinuationLen(U16At(r, 0)) {
        ContinuationsLenBound(r[len..]);
      }
    }
    if IsFullContinuationLen(U16At(r, 0)) {
      ContinuationsLenBound(r[len..]);
      assert s[len..][..n - len] == r[len..][..n - len];
      ContinuationsLocal(r[len..], s[len..]);
    }
  }

  lemma {:induction false} ContinuationsIncomplete(r: Bytes, k: nat)
    requires ContinuationsLen(r).Some? && k < ContinuationsLen(r).value && k <= |r|
    ensures ContinuationsLen(r[..k]) == None
    decreases |r|
  {
    if k >= 2 {
      var len := DecodeContinuationLen(U16At(r, 0));
      if k >= len && IsFullContinuationLen(U16At(r, 0)) {
        assert r[..k][len..] == r[len..][..k - len];
        ContinuationsIncomplete(r[len..], k - len);
      }
    }
  }

  lemma ParseLocal(r: Bytes, s: Bytes)
    requires |r| >= DSS_HEADER_LEN && |s| >= DSS_HEADER_LEN && r[..DSS_HEADER_LEN] == s[..DSS_HEADER_LEN]
    ensures DssHeader.Parse(r) == DssHeader.Parse(s) && U16At(r, 0) == U16At(s, 0)
  {}

  /** A frame is read the same whatever follows it, and not at all before its last byte. */
  lemma UnitInStream(w: Bytes, r: Bytes)
    requires IsUnit(w)
    ensures |w| <= |r| && r[..|w|] == w ==> FrameLen(r) == Some(|w|)
    ensures |w| <= |r| && r[..|w|] == w && U16At(w, 0) == 0xFFFF ==>
              ReadFrame(r) == ReadStep(Frame(DssFrame(UnitHeader(w), UnitPayload(w))), |w|)
    ensures |r| < |w| && r == w[..|r|] ==> FrameLen(r) == None
  {
    if |w| <= |r| && r[..|w|] == w {
      assert r[..6] == r[..|w|][..6];
      ParseLocal(w, r);
      if U16At(w, 0) == 0xFFFF {
        assert r[6..DSS_MAX_SEGMENT_LEN] == r[..|w|][6..DSS_MAX_SEGMENT_LEN];
        assert r[DSS_MAX_SEGMENT_LEN..][..|w| - DSS_MAX_SEGMENT_LEN] == r[..|w|][DSS_MAX_SEGMENT_LEN..];
        assert w[DSS_MAX_SEGMENT_LEN..][..|w| - DSS_MAX_SEGMENT_LEN] == w[DSS_MAX_SEGMENT_LEN..];
        ContinuationsLocal(w[DSS_MAX_SEGMENT_LEN..], r[DSS_MAX_SEGMENT_LEN..]);
      }
    } else if |r| < |w| && r == w[..|r|] && |r| >= DSS_HEADER_LEN {
      assert r[..6] == w[..6];
      ParseLocal(w, r);
      if U16At(w, 0) == 0xFFFF && |r| >= DSS_MAX_SEGMENT_LEN {
        assert r[DSS_MAX_SEGMENT_LEN..] == w[DSS_MAX_SEGMENT_LEN..][..|r| - DSS_MAX_SEGMENT_LEN];
        ContinuationsIncomplete(w[DSS_MAX_SEGMENT_LEN..], |r| - DSS_MAX_SEGMENT_LEN);
      }
    }
  }

  // ---- A stream of frames of which the first m bytes have arrived ----

  /** A whole frame together with what it says. */
  datatype Unit = Unit(bytes: Bytes, header: DssHeader, payload: Bytes)

  predicate Whole(u: Unit) {
    IsUnit(u.bytes) && u.header == UnitHeader(u.bytes) && u.payload == UnitPayload(u.bytes)
  }

  predicate AllWhole(units: seq<Unit>) {
    forall i | 0 <= i < |units| :: Whole(units[i])
  }

  function Stream(units: seq<Unit>): Bytes {
    if units == [] then [] else units[0].bytes + Stream(units[1..])
  }

  function Payloads(units: seq<Unit>): Bytes {
    if units == [] then [] else units[0].payload + Payloads(units[1..])
  }

  /** The units whose last byte is among the first m. */
  function Arrived(units: seq<Unit>, m: nat): seq<Unit> {
    if units == [] || m < |units[0].bytes| then [] else [units[0]] + Arrived(units[1..], m - |units[0].bytes|)
  }

  /** At no frame boundary does the rest of the stream's payload start with an open-ended
      0x8004 object, the one kind whose follow-on markers the reader strips. */
  predicate Unmarked(units: seq<Unit>) {
    units == [] || (!HeadedByOpenEndedObject(Payloads(units)) && Unmarked(units[1..]))
  }

  /** Whether a segment continues a frame of type `first` rather than starting its own. */
  predicate Follows(first: DssType, u: Unit) {
    && !SpansSegments(u)
    && u.header.flags.sameCorrelation
    && ContinuationTypeOk(first, u.header.dssType)
    && !LooksLikeDdmObject(u.payload)
  }

  /** A frame of more than one physical segment; nothing is ever merged into or out of it. */
  predicate SpansSegments(u: Unit) {
    |u.bytes| >= 2 && U16At(u.bytes, 0) == 0xFFFF
  }

  function FrameOf(u: Unit): DssFrame {
    DssFrame(u.header, u.payload)
  }

  function Extended(f: DssFrame, u: Unit): DssFrame {
    DssFrame(WithChained(f.header, u.header.flags.chained), f.payload + u.payload)
  }

  /** The frames of the units arrived in m bytes: a unit starts a frame unless it follows the
      single-segment frame before it, here `open`. */
  function Frames(units: seq<Unit>, m: nat, open: Option<DssFrame>): seq<DssFrame>
    decreases |units|, open.Some?
  {
    if units == [] || m < |units[0].bytes| then if open.Some? then [open.value] else []
    else
      var u, rest := units[0], m - |units[0].bytes|;
      if open.Some? then
        if Follows(open.value.header.dssType, u) then Frames(units[1..], rest, Some(Extended(open.value, u)))
        else [open.value] + Frames(units, m, None)
      else if SpansSegments(u) then [FrameOf(u)] + Frames(units[1..], rest, None)
      else Frames(units[1..], rest, Some(FrameOf(u)))
  }

  /** The first m bytes of the stream are the first unit and the first m' of the others, or a
      proper part of the first unit. */
  lemma StreamHead(units: seq<Unit>, m: nat)
    requires AllWhole(units) && Unmarked(units) && m <= |Stream(units)| && units != []
    ensures Whole(units[0]) && AllWhole(units[1..]) && Unmarked(units[1..])
    ensures !HeadedByOpenEndedObject(Payloads(units)) && Payloads(units) == units[0].payload + Payloads(units[1..])
    ensures var u := units[0].bytes;
            if m < |u| then Stream(units)[..m] == u[..m] && Arrived(units, m) == []
            else && m - |u| <= |Stream(units[1..])|
                 && Stream(units)[..m] == u + Stream(units[1..])[..m - |u|]
                 && |Stream(Arrived(units, m))| == |u| + |Stream(Arrived(units[1..], m - |u|))|
  {}

  /** A unit at the front is returned as its own frame, or opens one that others may continue. */
  lemma ReadFirst(u: Unit, tail: Bytes)
    requires Whole(u)
    ensures ReadFrame(u.bytes + tail)
         == if SpansSegments(u) then ReadStep(Frame(FrameOf(u)), |u.bytes|)
            else var step := MergeFollowers(tail, u.header, u.payload);
                 step.(consumed := |u.bytes| + step.consumed)
  {
    var r := u.bytes + tail;
    UnitInStream(u.bytes, r);
    assert r[..6] == u.bytes[..6];
    ParseLocal(r, u.bytes);
    if !SpansSegments(u) {
      assert r[6..|u.bytes|] == u.payload;
      assert r[|u.bytes|..] == tail;
    }
  }

  /** A unit at the front continues the open frame exactly if it follows it. */
  lemma MergeFirst(u: Unit, tail: Bytes, f: DssFrame)
    requires Whole(u) && !HeadedByOpenEndedObject(f.payload)
    ensures MergeFollowers(u.bytes + tail, f.header, f.payload)
         == if Follows(f.header.dssType, u) then
              var g := Extended(f, u);
              var step := MergeFollowers(tail, g.header, g.payload);
              step.(consumed := |u.bytes| + step.consumed)
            else ReadStep(Frame(f), 0)
  {}

  /** Behind an open-ended object the marker of a segment that follows is dropped: the reason
      why streams are taken to be unmarked. */
  lemma MarkerDropped(u: Unit, tail: Bytes, f: DssFrame)
    requires Whole(u) && Follows(f.header.dssType, u)
    requires HeadedByOpenEndedObject(f.payload) && HasContinuationMarker(u.payload)
    ensures MergeFollowers(u.bytes + tail, f.header, f.payload)
         == var step := MergeFollowers(tail, WithChained(f.header, u.header.flags.chained), f.payload + u.payload[2..]);
            step.(consumed := |u.bytes| + step.consumed)
  {}

  /** A unit of which bytes are missing is neither read nor merged. */
  lemma ReadPartial(u: Unit, k: nat, f: DssFrame)
    requires Whole(u) && k < |u.bytes|
    ensures ReadFrame(u.bytes[..k]) == ReadStep(NeedMore, 0)
    ensures MergeFollowers(u.bytes[..k], f.header, f.payload) == ReadStep(Frame(f), 0)
  {
    var r := u.bytes[..k];
    UnitInStream(u.bytes, r);
    if k >= DSS_HEADER_LEN {
      assert r[..6] == u.bytes[..6];
      ParseLocal(r, u.bytes);
    }
  }

  /** Reading everything in `r` with the frame `open` still to be completed. */
  function Drain(r: Bytes, open: Option<DssFrame>): ReadAllStep {
    if open.None? then ReadAll(r)
    else
      var step := MergeFollowers(r, open.value.header, open.value.payload);
      MergeFollowersBound(r, open.value.header, open.value.payload);
      if !step.outcome.Frame? then ReadAllStep(Finish(step.outcome, []), step.consumed)
      else
        var more := ReadAll(r[step.consumed..]);
        ReadAllStep(if more.outcome.AllFrames? then AllFrames([step.outcome.frame] + more.outcome.frames)
                    else more.outcome,
                    step.consumed + more.consumed)
  }

  function Prepend(f: DssFrame, step: ReadAllStep, n: nat): ReadAllStep {
    ReadAllStep(if step.outcome.AllFrames? then AllFrames([f] + step.outcome.frames) else step.outcome,
                n + step.consumed)
  }

  lemma DrainFirst(u: Unit, tail: Bytes)
    requires Whole(u)
    ensures Drain(u.bytes + tail, None)
         == if SpansSegments(u) then Prepend(FrameOf(u), Drain(tail, None), |u.bytes|)
            else var step := Drain(tail, Some(FrameOf(u)));
                 step.(consumed := |u.bytes| + step.consumed)
  {
    hide Whole, ReadFrame, MergeFollowers;
    var r := u.bytes + tail;
    ReadFirst(u, tail);
    ReadFrameProgress(r);
    if SpansSegments(u) {
      assert r[|u.bytes|..] == tail;
    } else {
      var step := MergeFollowers(tail, u.header, u.payload);
      MergeFollowersBound(tail, u.header, u.payload);
      assert r[|u.bytes| + step.consumed..] == tail[step.consumed..];
    }
  }

  lemma DrainFollower(u: Unit, tail: Bytes, f: DssFrame)
    requires Whole(u) && !HeadedByOpenEndedObject(f.payload)
    ensures Drain(u.bytes + tail, Some(f))
         == if Follows(f.header.dssType, u) then
              var step := Drain(tail, Some(Extended(f, u)));
              step.(consumed := |u.bytes| + step.consumed)
            else Prepend(f, Drain(u.bytes + tail, None), 0)
  {
    hide Whole, MergeFollowers, ReadAll, Follows, HeadedByOpenEndedObject, WithChained;
    var r := u.bytes + tail;
    MergeFirst(u, tail, f);
    if Follows(f.header.dssType, u) {
      var g := Extended(f, u);
      var step := MergeFollowers(tail, g.header, g.payload);
      MergeFollowersBound(tail, g.header, g.payload);
      assert r[|u.bytes| + step.consumed..] == tail[step.consumed..];
    } else {
      assert r[0..] == r;
    }
  }

  /** Reading everything there is returns the frames of all units that have arrived in full,
      and leaves exactly the bytes of the first incomplete one. */
  lemma {:induction false} DrainUnits(units: seq<Unit>, m: nat, open: Option<DssFrame>)
    requires AllWhole(units) && Unmarked(units) && m <= |Stream(units)|
    requires open.Some? ==> !HeadedByOpenEndedObject(open.value.payload + Payloads(units))
    ensures Drain(Stream(units)[..m], open)
         == ReadAllStep(AllFrames(Frames(units, m, open)), |Stream(Arrived(units, m))|)
    decreases |units|, open.Some?
  {
    hide Whole, AllWhole, Unmarked, Payloads, Drain, Follows, SpansSegments;
    if units == [] {
      DrainNothing([], open);
    } else {
      var u := units[0];
      StreamHead(units, m);
      if m < |u.bytes| {
        DrainPartial(u, m, open);
      } else {
        var tail := Stream(units[1..])[..m - |u.bytes|];
        if open.Some? {
          var f := open.value;
          assert f.payload + Payloads(units) == f.payload + u.payload + Payloads(units[1..]);
          DrainFollower(u, tail, f);
          if Follows(f.header.dssType, u) {
            DrainUnits(units[1..], m - |u.bytes|, Some(Extended(f, u)));
          } else {
            DrainUnits(units, m, None);
          }
        } else {
          DrainFirst(u, tail);
          DrainUnits(units[1..], m - |u.bytes|, if SpansSegments(u) then None else Some(FrameOf(u)));
        }
      }
    }
  }

  lemma DrainPartial(u: Unit, k: nat, open: Option<DssFrame>)
    requires Whole(u) && k < |u.bytes|
    ensures Drain(u.bytes[..k], open) == ReadAllStep(AllFrames(if open.Some? then [open.value] else []), 0)
  {
    var r := u.bytes[..k];
    ReadPartial(u, k, if open.Some? then open.value else FrameOf(u));
    assert r[0..] == r;
    assert ReadAll(r) == ReadAllStep(AllFrames([]), 0);
    assert open.Some? ==> [open.value] + [] == [open.value];
  }

  lemma DrainNothing(r: Bytes, open: Option<DssFrame>)
    requires r == []
    ensures Drain(r, open) == ReadAllStep(AllFrames(if open.Some? then [open.value] else []), 0)
  {
    assert r[0..] == r;
    assert ReadAll(r) == ReadAllStep(AllFrames([]), 0);
    assert open.Some? ==> [open.value] + [] == [open.value];
  }

  function FramePayloads(frames: seq<DssFrame>): Bytes {
    if frames == [] then [] else frames[0].payload + FramePayloads(frames[1..])
  }

  /** Grouping loses, repeats and reorders no payload byte. */
  lemma {:induction false} FramesPayload(units: seq<Unit>, m: nat, open: Option<DssFrame>)
    ensures FramePayloads(Frames(units, m, open))
         == (if open.Some? then open.value.payload else []) + Payloads(Arrived(units, m))
    decreases |units|, open.Some?
  {
    hide Follows, SpansSegments, FramePayloads, Payloads;
    NoFramePayload();
    if units == [] || m < |units[0].bytes| {
      if open.Some? {
        FramePayloadCons(open.value, []);
      }
    } else {
      var u, rest := units[0], m - |units[0].bytes|;
      PayloadsCons(u, Arrived(units[1..], rest));
      if open.Some? {
        if Follows(open.value.header.dssType, u) {
          FramesPayload(units[1..], rest, Some(Extended(open.value, u)));
        } else {
          FramesPayload(units, m, None);
          FramePayloadCons(open.value, Frames(units, m, None));
        }
      } else if SpansSegments(u) {
        FramesPayload(units[1..], rest, None);
        FramePayloadCons(FrameOf(u), Frames(units[1..], rest, None));
      } else {
        FramesPayload(units[1..], rest, Some(FrameOf(u)));
      }
    }
  }

  lemma FramePayloadCons(f: DssFrame, rest: seq<DssFrame>)
    ensures FramePayloads([f] + rest) == f.payload + FramePayloads(rest)
    ensures [f] + [] == [f]
  {
    assert ([f] + rest)[1..] == rest;
  }

  lemma PayloadsCons(u: Unit, rest: seq<Unit>)
    ensures Payloads([u] + rest) == u.payload + Payloads(rest)
  {
    assert ([u] + rest)[1..] == rest;
  }

  lemma NoFramePayload()
    ensures FramePayloads([]) == [] && Payloads([]) == []
  {}

  /** There is a frame as soon as there is a unit, and the last frame carries the chain bit of
      the last unit that arrived. */
  lemma {:induction false} FramesChainBit(units: seq<Unit>, m: nat, open: Option<DssFrame>)
    ensures var frames, arrived := Frames(units, m, open), Arrived(units, m);
            && (frames == [] <==> open.None? && arrived == [])
            && (frames != [] ==> frames[|frames| - 1].header.flags.chained
                                 == if arrived == [] then open.value.header.flags.chained
                                    else arrived[|arrived| - 1].header.flags.chained)
    decreases |units|, open.Some?
  {
    hide Follows, SpansSegments, Extended, Arrived;
    ArrivedFirst(units, m);
    if units != [] && m >= |units[0].bytes| {
      var u, rest := units[0], m - |units[0].bytes|;
      var arrived := Arrived(units[1..], rest);
      assert arrived != [] ==> ([u] + arrived)[|arrived|] == arrived[|arrived| - 1];
      if open.Some? {
        if Follows(open.value.header.dssType, u) {
          ExtendedBit(open.value, u);
          FramesChainBit(units[1..], rest, Some(Extended(open.value, u)));
        } else {
          FramesChainBit(units, m, None);
          LastOfCons(open.value, Frames(units, m, None));
        }
      } else if SpansSegments(u) {
        FramesChainBit(units[1..], rest, None);
        LastOfCons(FrameOf(u), Frames(units[1..], rest, None));
      } else {
        FramesChainBit(units[1..], rest, Some(FrameOf(u)));
      }
    }
  }

  lemma ArrivedFirst(units: seq<Unit>, m: nat)
    ensures Arrived(units, m) == if units == [] || m < |units[0].bytes| then []
                                 else [units[0]] + Arrived(units[1..], m - |units[0].bytes|)
  {}

  lemma LastOfCons(f: DssFrame, frames: seq<DssFrame>)
    ensures frames != [] ==> ([f] + frames)[|[f] + frames| - 1] == frames[|frames| - 1]
    ensures frames == [] ==> [f] + frames == [f]
  {}

  lemma ExtendedBit(f: DssFrame, u: Unit)
    ensures Extended(f, u).header.flags.chained == u.header.flags.chained
  {}

  /** The units not yet complete, and how many of their bytes are there. */
  function Later(units: seq<Unit>, m: nat): seq<Unit> {
    if units == [] || m < |units[0].bytes| then units else Later(units[1..], m - |units[0].bytes|)
  }

  function LeftOver(units: seq<Unit>, m: nat): nat {
    if units == [] || m < |units[0].bytes| then m else LeftOver(units[1..], m - |units[0].bytes|)
  }

  lemma {:induction false} LaterUnits(units: seq<Unit>, m: nat)
    requires AllWhole(units) && Unmarked(units)
    ensures AllWhole(Later(units, m)) && Unmarked(Later(units, m))
    ensures Arrived(Later(units, m), LeftOver(units, m)) == []
  {
    if units != [] && m >= |units[0].bytes| {
      LaterUnits(units[1..], m - |units[0].bytes|);
    }
  }

  /** The stream is what has arrived followed by what is still to come. */
  lemma {:induction false} StreamSplit(units: seq<Unit>, m: nat)
    requires m <= |Stream(units)|
    ensures LeftOver(units, m) <= |Stream(Later(units, m))|
    ensures |Stream(Arrived(units, m))| + LeftOver(units, m) == m
    ensures Stream(units) == Stream(Arrived(units, m)) + Stream(Later(units, m))
    ensures units == Arrived(units, m) + Later(units, m)
  {
    hide Stream;
    if units == [] || m < |units[0].bytes| {
      NoStream();
      assert Stream([]) + Stream(units) == Stream(units);
    } else {
      var u, rest := units[0], m - |units[0].bytes|;
      var arrived, later := Arrived(units[1..], rest), Later(units[1..], rest);
      StreamCons(u, units[1..]);
      StreamCons(u, arrived);
      assert units == [u] + units[1..];
      StreamSplit(units[1..], rest);
      assert u.bytes + Stream(arrived) + Stream(later) == u.bytes + (Stream(arrived) + Stream(later));
    }
  }

  lemma StreamCons(u: Unit, rest: seq<Unit>)
    ensures Stream([u] + rest) == u.bytes + Stream(rest)
  {
    assert ([u] + rest)[1..] == rest;
  }

  lemma NoStream()
    ensures Stream([]) == []
  {}

  lemma {:induction false} PayloadsAppend(a: seq<Unit>, b: seq<Unit>)
    ensures Payloads(a + b) == Payloads(a) + Payloads(b)
  {
    if a == [] {
      assert a + b == b;
    } else {
      assert (a + b)[1..] == a[1..] + b;
      PayloadsAppend(a[1..], b);
    }
  }

  /** Reading what has arrived of a stream leaves what has arrived of the units after it. */
  lemma ReadAllUnits(units: seq<Unit>, m: nat)
    requires AllWhole(units) && Unmarked(units) && m <= |Stream(units)|
    ensures var n, later, left := |Stream(Arrived(units, m))|, Stream(Later(units, m)), LeftOver(units, m);
            && n <= m && left <= |later|
            && ReadAll(Stream(units)[..m]) == ReadAllStep(AllFrames(Frames(units, m, None)), n)
            && Stream(units)[..m][n..] == later[..left]
            && Stream(units)[m..] == later[left..]
  {
    hide AllWhole, Unmarked, Arrived, Later, LeftOver, Frames, ReadAll;
    LaterUnits(units, m);
    StreamSplit(units, m);
    DrainUnits(units, m, None);
    CutBehind(Stream(Arrived(units, m)), Stream(Later(units, m)), m);
  }
}
