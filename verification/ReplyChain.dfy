/** Reading replies off the connection (read_frames and read_reply_frames in connection.rs). */
module ReplyChain {
  import opened Wire
  import opened Dss
  import opened DssReading
  import opened Framing

  datatype ReadResult =
    | GotFrames(frames: seq<DssFrame>)
    | ConnectionClosed
    | ProtocolError(error: ProtoError)
    | Crashed

  /** The outcome, the bytes left in the receive buffer and the reads not yet taken. */
  datatype ReadState = ReadState(result: ReadResult, buffer: Bytes, incoming: seq<Bytes>)

  /** What a parse of the whole buffer means for a reader that wants `minFrames` frames;
      none if it has to read on. */
  function Parsed(buffer: Bytes, incoming: seq<Bytes>, minFrames: nat): Option<ReadState> {
    var step := ReadAll(buffer);
    match step.outcome
    case AllMalformed(e) => Some(ReadState(ProtocolError(e), buffer, incoming))
    case AllPanic => Some(ReadState(Crashed, buffer, incoming))
    case AllFrames(frames) =>
      if |frames| >= minFrames && step.consumed <= |buffer| then
        Some(ReadState(GotFrames(frames), buffer[step.consumed..], incoming))
      else None
  }

  /** `read_frames`: reads until a first frame is complete, then until there are enough. An
      empty read is the end of the stream. */
  function ReadFramesFrom(buffer: Bytes, incoming: seq<Bytes>, minFrames: nat): ReadState
    decreases |incoming|
  {
    var parsed := if FrameLen(buffer).None? then None else Parsed(buffer, incoming, minFrames);
    if parsed.Some? then parsed.value
    else if incoming == [] || incoming[0] == [] then
      ReadState(ConnectionClosed, buffer, if incoming == [] then [] else incoming[1..])
    else ReadFramesFrom(buffer + incoming[0], incoming[1..], minFrames)
  }

  /** The server clears the chain bit on the last segment of a reply chain. */
  predicate ReplyChainComplete(frames: seq<DssFrame>) {
    frames != [] && !frames[|frames| - 1].header.flags.chained
  }

  /** `read_reply_frames`, given the frames read so far. */
  function ReadReply(frames: seq<DssFrame>, buffer: Bytes, incoming: seq<Bytes>, reliable: bool): ReadState
    decreases |incoming|, |buffer|
  {
    var s := ReadFramesFrom(buffer, incoming, 1);
    ReadFramesProgress(buffer, incoming, 1);
    if !s.result.GotFrames? then s
    else
      var all := frames + s.result.frames;
      if !reliable || ReplyChainComplete(all) then s.(result := GotFrames(all))
      else ReadReply(all, s.buffer, s.incoming, reliable)
  }

  /** Every round of reading uses up bytes: fewer reads are left, or as many and less buffer. */
  lemma {:induction false} ReadFramesProgress(buffer: Bytes, incoming: seq<Bytes>, minFrames: nat)
    ensures var s := ReadFramesFrom(buffer, incoming, minFrames);
            && |s.incoming| <= |incoming|
            && (minFrames >= 1 && s.result.GotFrames? ==>
                  |s.result.frames| >= minFrames
                  && (|s.incoming| < |incoming| || |s.buffer| < |buffer|))
    decreases |incoming|
  {
    var parsed := if FrameLen(buffer).None? then None else Parsed(buffer, incoming, minFrames);
    if parsed.Some? {
      ReadAllConsumes(buffer);
    } else if incoming != [] && incoming[0] != [] {
      ReadFramesProgress(buffer + incoming[0], incoming[1..], minFrames);
    }
  }

  lemma ReadAllConsumes(r: Bytes)
    ensures ReadAll(r).outcome.AllFrames? && ReadAll(r).outcome.frames != [] ==> ReadAll(r).consumed > 0
  {}

  class Connection {
    var recvBuf: Bytes
    /** The pieces the transport will deliver, one a read. */
    var incoming: seq<Bytes>

    constructor (incoming: seq<Bytes>)
      ensures recvBuf == [] && this.incoming == incoming
    {
      recvBuf, this.incoming := [], incoming;
    }

    /** One transport read; false at the end of the stream. */
    method ReadBytes() returns (ok: bool)
      modifies this
      ensures ok == (old(incoming) != [] && old(incoming)[0] != [])
      ensures recvBuf == old(recvBuf) + if ok then old(incoming)[0] else []
      ensures incoming == if old(incoming) == [] then [] else old(incoming)[1..]
    {
      if incoming == [] {
        return false;
      }
      var piece := incoming[0];
      incoming := incoming[1..];
      recvBuf := recvBuf + piece;
      ok := piece != [];
    }

    method ReadFrames(minFrames: nat) returns (result: ReadResult)
      modifies this
      ensures ReadState(result, recvBuf, incoming) == ReadFramesFrom(old(recvBuf), old(incoming), minFrames)
    {
      hide Parsed;
      ghost var goal := ReadFramesFrom(recvBuf, incoming, minFrames);
      assert forall b: Bytes :: b + [] == b;
      var complete := CompleteFrameLenFrom(recvBuf, 0);
      assert recvBuf[0..] == recvBuf;
      while complete.None?
        invariant complete.None? <==> FrameLen(recvBuf).None?
        invariant goal == ReadFramesFrom(recvBuf, incoming, minFrames)
        decreases |incoming|
      {
        var more := ReadBytes();
        if !more {
          return ConnectionClosed;
        }
        complete := CompleteFrameLenFrom(recvBuf, 0);
        assert recvBuf[0..] == recvBuf;
      }
      while true
        invariant FrameLen(recvBuf).Some?
        invariant goal == ReadFramesFrom(recvBuf, incoming, minFrames)
        decreases |incoming|
      {
        var done, r := ParseBuffer(minFrames);
        if done {
          return r;
        }
        ghost var before := recvBuf;
        var more := ReadBytes();
        if !more {
          return ConnectionClosed;
        }
        FrameLenStays(before, recvBuf);
      }
    }

    /** Parses the buffer from the start; the frames are taken out if there are enough. */
    method ParseBuffer(minFrames: nat) returns (done: bool, result: ReadResult)
      modifies this`recvBuf
      ensures var parsed := Parsed(old(recvBuf), incoming, minFrames);
              if done then parsed == Some(ReadState(result, recvBuf, incoming))
              else parsed == None && recvBuf == old(recvBuf)
    {
      hide ReadAll;
      var reader := new DssReader(recvBuf);
      var read := reader.ReadAllFrames();
      match read
      case AllMalformed(e) => return true, ProtocolError(e);
      case AllPanic => return true, Crashed;
      case AllFrames(frames) =>
        if |frames| < minFrames {
          return false, GotFrames(frames);
        }
        recvBuf := reader.IntoRemaining();
        return true, GotFrames(frames);
    }

    method ReadReplyFrames(reliable: bool) returns (result: ReadResult)
      modifies this
      ensures ReadState(result, recvBuf, incoming) == ReadReply([], old(recvBuf), old(incoming), reliable)
    {
      ghost var goal := ReadReply([], recvBuf, incoming, reliable);
      var frames: seq<DssFrame> := [];
      hide ReadFramesFrom;
      ReadFramesProgress(recvBuf, incoming, 1);
      result := ReadFrames(1);
      if !result.GotFrames? {
        return;
      }
      frames := frames + result.frames;
      if reliable {
        while !ReplyChainComplete(frames)
          invariant goal == if ReplyChainComplete(frames) then ReadState(GotFrames(frames), recvBuf, incoming)
                            else ReadReply(frames, recvBuf, incoming, true)
          decreases |incoming|, |recvBuf|
        {
          ReadFramesProgress(recvBuf, incoming, 1);
          result := ReadFrames(1);
          if !result.GotFrames? {
            return;
          }
          frames := frames + result.frames;
        }
      }
      result := GotFrames(frames);
    }
  }

  /** A complete frame stays complete when more bytes arrive. */
  lemma FrameLenStays(r: Bytes, s: Bytes)
    requires FrameLen(r).Some? && |r| <= |s| && s[..|r|] == r
    ensures FrameLen(s).Some?
  {
    assert forall i | 0 <= i < |r| :: s[i] == s[..|r|][i];
    if U16At(r, 0) == 0xFFFF {
      var a, b := r[DSS_MAX_SEGMENT_LEN..], s[DSS_MAX_SEGMENT_LEN..];
      ContinuationsLenBound(a);
      var n := ContinuationsLen(a).value;
      assert b[..n] == a[..n];
      ContinuationsLocal(a, b);
    }
  }

  // ---- A whole reply chain ----

  /** All units but the last are chained. */
  predicate IsChain(units: seq<Unit>) {
    && units != []
    && forall i | 0 <= i < |units| :: units[i].header.flags.chained <==> i < |units| - 1
  }

  /** What is left of a chain is the chain of its later units. */
  lemma LaterChain(units: seq<Unit>, m: nat)
    requires IsChain(units) && m <= |Stream(units)|
    ensures var arrived, later := Arrived(units, m), Later(units, m);
            && (later == [] ==> arrived != [] && !arrived[|arrived| - 1].header.flags.chained)
            && (later != [] ==> IsChain(later) && (arrived != [] ==> arrived[|arrived| - 1].header.flags.chained))
  {}

  /** After reading up to byte m' of the stream, the state is that of the later units. */
  ghost predicate ReadTo(units: seq<Unit>, m': nat, s: ReadState) {
    && m' <= |Stream(units)|
    && Arrived(units, m') != []
    && s.result == GotFrames(Frames(units, m', None))
    && AwaitsRest(Later(units, m'), LeftOver(units, m'), s.buffer, s.incoming)
  }

  /** The first m bytes of the units are in the buffer and the others still to be read. */
  ghost predicate AwaitsRest(units: seq<Unit>, m: nat, buffer: Bytes, incoming: seq<Bytes>) {
    && m <= |Stream(units)|
    && buffer == Stream(units)[..m]
    && Concat(incoming) == Stream(units)[m..]
    && forall i | 0 <= i < |incoming| :: incoming[i] != []
  }

  /** Parsing a buffer that holds the first m bytes of a stream: done exactly if they hold enough frames. */
  lemma ParseOfStream(units: seq<Unit>, m: nat, buffer: Bytes, incoming: seq<Bytes>, minFrames: nat)
    requires AllWhole(units) && Unmarked(units) && AwaitsRest(units, m, buffer, incoming) && minFrames >= 1
    ensures && (FrameLen(buffer).None? || Parsed(buffer, incoming, minFrames).None?
                <==> |Frames(units, m, None)| < minFrames)
            && (|Frames(units, m, None)| >= minFrames ==>
                  && Parsed(buffer, incoming, minFrames).Some?
                  && ReadTo(units, m, Parsed(buffer, incoming, minFrames).value)
                  && Parsed(buffer, incoming, minFrames).value.incoming == incoming)
  {
    hide AllWhole, Unmarked, Arrived, Later, LeftOver, Frames, FrameLen;
    ReadAllUnits(units, m);
    FramesChainBit(units, m, None);
    ReadFrameProgress(buffer);
  }

  /** Reading ends in `s` after k reads, the fewest that bring enough frames, with all the frames they bring. */
  ghost predicate StopsAfter(units: seq<Unit>, m: nat, s: ReadState, pieces: seq<Bytes>, minFrames: nat, k: nat) {
    && k <= |pieces| && s.incoming == pieces[k..]
    && ReadTo(units, m + |Concat(pieces[..k])|, s)
    && |Frames(units, m + |Concat(pieces[..k])|, None)| >= minFrames
    && forall j | 0 <= j < k :: |Frames(units, m + |Concat(pieces[..j])|, None)| < minFrames
  }

  /** `read_frames` on a stream that holds enough frames. */
  lemma {:induction false} FewestReads(units: seq<Unit>, m: nat, buffer: Bytes, pieces: seq<Bytes>, minFrames: nat)
    returns (k: nat)
    requires AllWhole(units) && Unmarked(units) && AwaitsRest(units, m, buffer, pieces)
    requires 1 <= minFrames <= |Frames(units, |Stream(units)|, None)|
    ensures StopsAfter(units, m, ReadFramesFrom(buffer, pieces, minFrames), pieces, minFrames, k)
    decreases |pieces|
  {
    hide AllWhole, Unmarked, Frames, FrameLen, Parsed, ReadTo, StopsAfter, AwaitsRest, Stream;
    ParseOfStream(units, m, buffer, pieces, minFrames);
    if |Frames(units, m, None)| >= minFrames {
      k := 0;
      StopsHere(units, m, ReadFramesFrom(buffer, pieces, minFrames), pieces, minFrames);
    } else {
      MorePieces(units, m, buffer, pieces);
      var k' := FewestReads(units, m + |pieces[0]|, buffer + pieces[0], pieces[1..], minFrames);
      k := k' + 1;
      StopsLater(units, m, ReadFramesFrom(buffer, pieces, minFrames), pieces, minFrames, k');
    }
  }

  lemma StopsHere(units: seq<Unit>, m: nat, s: ReadState, pieces: seq<Bytes>, minFrames: nat)
    requires ReadTo(units, m, s) && |Frames(units, m, None)| >= minFrames && s.incoming == pieces
    ensures StopsAfter(units, m, s, pieces, minFrames, 0)
  {
    hide ReadTo, Frames;
    assert pieces[..0] == [];
  }

  lemma StopsLater(units: seq<Unit>, m: nat, s: ReadState, pieces: seq<Bytes>, minFrames: nat, k: nat)
    requires pieces != [] && |Frames(units, m, None)| < minFrames
    requires StopsAfter(units, m + |pieces[0]|, s, pieces[1..], minFrames, k)
    ensures StopsAfter(units, m, s, pieces, minFrames, k + 1)
  {
    hide ReadTo, Frames;
    forall j | 0 < j <= k + 1 ensures |Concat(pieces[..j])| == |pieces[0]| + |Concat(pieces[1..][..j - 1])| {
      assert pieces[..j][1..] == pieces[1..][..j - 1];
    }
    forall j | 0 <= j < k + 1 ensures |Frames(units, m + |Concat(pieces[..j])|, None)| < minFrames {
      assert j > 0 ==> |Frames(units, m + |pieces[0]| + |Concat(pieces[1..][..j - 1])|, None)| < minFrames;
    }
  }

  /** As long as frames are missing there is another piece to read. */
  lemma MorePieces(units: seq<Unit>, m: nat, buffer: Bytes, pieces: seq<Bytes>)
    requires AwaitsRest(units, m, buffer, pieces) && |Frames(units, m, None)| < |Frames(units, |Stream(units)|, None)|
    ensures pieces != [] && pieces[0] != []
    ensures AwaitsRest(units, m + |pieces[0]|, buffer + pieces[0], pieces[1..])
  {
    hide Frames, Stream;
  }

  /** One call of `read_frames(1)` in the middle of a chain returns at least one frame and
      stops at a unit boundary, having taken no more reads than it needed. */
  lemma {:induction false} ReadFramesOfChain(units: seq<Unit>, m: nat, buffer: Bytes, incoming: seq<Bytes>)
    returns (m': nat)
    requires AllWhole(units) && Unmarked(units) && units != []
    requires AwaitsRest(units, m, buffer, incoming)
    ensures ReadTo(units, m', ReadFramesFrom(buffer, incoming, 1))
  {
    hide AllWhole, Unmarked, Frames, FrameLen, Parsed, ReadTo, AwaitsRest, ReadFramesFrom;
    AllArrive(units);
    FramesChainBit(units, |Stream(units)|, None);
    var k := FewestReads(units, m, buffer, incoming, 1);
    m' := m + |Concat(incoming[..k])|;
  }

  lemma {:induction false} AllArrive(units: seq<Unit>)
    ensures Arrived(units, |Stream(units)|) == units
  {
    if units != [] {
      AllArrive(units[1..]);
    }
  }

  lemma {:induction false} FramePayloadsAppend(a: seq<DssFrame>, b: seq<DssFrame>)
    ensures FramePayloads(a + b) == FramePayloads(a) + FramePayloads(b)
  {
    if a == [] {
      assert a + b == b;
    } else {
      assert (a + b)[1..] == a[1..] + b;
      FramePayloadsAppend(a[1..], b);
    }
  }

  /** One round of reading splits the payload between the frames and the later units. */
  lemma RoundPayload(units: seq<Unit>, m: nat, frames: seq<DssFrame>)
    requires m <= |Stream(units)|
    ensures FramePayloads(frames + Frames(units, m, None)) + Payloads(Later(units, m))
         == FramePayloads(frames) + Payloads(units)
  {
    hide Frames, FramePayloads, Payloads, Stream, Arrived, Later, LeftOver;
    var got := Frames(units, m, None);
    var arrived, later := Arrived(units, m), Later(units, m);
    calc {
      FramePayloads(frames + got) + Payloads(later);
      { FramePayloadsAppend(frames, got); }
      FramePayloads(frames) + FramePayloads(got) + Payloads(later);
      { FramesPayload(units, m, None); assert [] + Payloads(arrived) == Payloads(arrived); }
      FramePayloads(frames) + Payloads(arrived) + Payloads(later);
      { PayloadsAppend(arrived, later); }
      FramePayloads(frames) + Payloads(arrived + later);
      { StreamSplit(units, m); }
      FramePayloads(frames) + Payloads(units);
    }
  }

  /** One round of reading reaches the end of the chain, or leaves the chain of the later units. */
  lemma RoundEnd(units: seq<Unit>, m: nat, frames: seq<DssFrame>)
    requires AllWhole(units) && Unmarked(units) && IsChain(units)
    requires m <= |Stream(units)| && Arrived(units, m) != []
    ensures var later := Later(units, m);
            && (ReplyChainComplete(frames + Frames(units, m, None)) <==> later == [])
            && (later != [] ==> AllWhole(later) && Unmarked(later) && IsChain(later) && |later| < |units|)
  {
    hide IsChain, Later, Arrived, LeftOver, Stream, AllWhole, Unmarked, Frames;
    LaterChain(units, m);
    LaterUnits(units, m);
    StreamSplit(units, m);
    FramesChainBit(units, m, None);
    var last := Frames(units, m, None);
    assert (frames + last)[|frames + last| - 1] == last[|last| - 1];
  }

  lemma {:induction false} ReadReplyOfChain(units: seq<Unit>, m: nat, buffer: Bytes, incoming: seq<Bytes>,
                                            frames: seq<DssFrame>)
    requires AllWhole(units) && Unmarked(units) && IsChain(units)
    requires AwaitsRest(units, m, buffer, incoming)
    ensures var s := ReadReply(frames, buffer, incoming, true);
            && s.result.GotFrames? && s.buffer == [] && s.incoming == []
            && FramePayloads(s.result.frames) == FramePayloads(frames) + Payloads(units)
    decreases |units|
  {
    var m' := ReadFramesOfChain(units, m, buffer, incoming);
    var s := ReadFramesFrom(buffer, incoming, 1);
    RoundPayload(units, m', frames);
    RoundEnd(units, m', frames);
    ReadFramesProgress(buffer, incoming, 1);
    hide IsChain, AllWhole, Unmarked, ReadFramesFrom, ReplyChainComplete, Frames, AwaitsRest, Arrived, Payloads,
         FramePayloads, Stream, Later;
    if Later(units, m') == [] {
      NothingLeft(LeftOver(units, m'), s.buffer, s.incoming);
    } else {
      ReadReplyOfChain(Later(units, m'), LeftOver(units, m'), s.buffer, s.incoming, frames + s.result.frames);
    }
  }

  lemma NothingLeft(m: nat, buffer: Bytes, incoming: seq<Bytes>)
    requires AwaitsRest([], m, buffer, incoming)
    ensures buffer == [] && incoming == [] && Payloads([]) == []
  {}

  /** Reads that are not needed are not taken. */
  lemma {:induction false} ReadsNoFurther(buffer: Bytes, incoming: seq<Bytes>, extra: seq<Bytes>, minFrames: nat)
    requires ReadFramesFrom(buffer, incoming, minFrames).result.GotFrames?
    ensures var s := ReadFramesFrom(buffer, incoming, minFrames);
            ReadFramesFrom(buffer, incoming + extra, minFrames) == s.(incoming := s.incoming + extra)
    decreases |incoming|
  {
    hide ReadAll, FrameLen;
    if (FrameLen(buffer).None? || Parsed(buffer, incoming, minFrames).None?) && incoming != [] && incoming[0] != [] {
      assert (incoming + extra)[1..] == incoming[1..] + extra;
      ReadsNoFurther(buffer + incoming[0], incoming[1..], extra, minFrames);
    }
  }

  lemma {:induction false} ReplyReadsNoFurther(frames: seq<DssFrame>, buffer: Bytes, incoming: seq<Bytes>,
                                               extra: seq<Bytes>)
    requires ReadReply(frames, buffer, incoming, true).result.GotFrames?
    ensures var s := ReadReply(frames, buffer, incoming, true);
            ReadReply(frames, buffer, incoming + extra, true) == s.(incoming := s.incoming + extra)
    decreases |incoming|, |buffer|
  {
    hide ReadFramesFrom;
    var s := ReadFramesFrom(buffer, incoming, 1);
    ReadFramesProgress(buffer, incoming, 1);
    ReadsNoFurther(buffer, incoming, extra, 1);
    if !ReplyChainComplete(frames + s.result.frames) {
      ReplyReadsNoFurther(frames + s.result.frames, s.buffer, s.incoming, extra);
    }
  }

  /** Reading a reply chain off a chain-reliable server: however the chain's bytes are divided
      into non-empty reads, exactly those reads are taken, nothing stays in the buffer, and
      the frames carry the chain's payload bytes, although merging may have regrouped them. */
  lemma {:induction false} ReplyChainConsumed(units: seq<Unit>, pieces: seq<Bytes>, after: seq<Bytes>)
    requires AllWhole(units) && Unmarked(units) && IsChain(units)
    requires Concat(pieces) == Stream(units) && forall i | 0 <= i < |pieces| :: pieces[i] != []
    ensures var s := ReadReply([], [], pieces + after, true);
            && s.result.GotFrames? && s.buffer == [] && s.incoming == after
            && FramePayloads(s.result.frames) == Payloads(units)
  {
    assert Stream(units)[..0] == [] && Stream(units)[0..] == Stream(units);
    ReadReplyOfChain(units, 0, [], pieces, []);
    ReplyReadsNoFurther([], [], pieces, after);
    assert [] + after == after && FramePayloads([]) + Payloads(units) == Payloads(units);
  }

  // ---- One round of reading, and streams that end too early ----

  /** On a server whose chain bits are not reliable a reply is one round: all frames of the k reads that bring the
      first one, whether their last says that the chain goes on or not. */
  lemma {:induction false} OneRound(units: seq<Unit>, pieces: seq<Bytes>, after: seq<Bytes>) returns (k: nat)
    requires AllWhole(units) && Unmarked(units) && units != []
    requires Concat(pieces) == Stream(units) && forall i | 0 <= i < |pieces| :: pieces[i] != []
    ensures k <= |pieces|
    ensures var s := ReadReply([], [], pieces + after, false);
            s.incoming == pieces[k..] + after && StopsAfter(units, 0, s.(incoming := pieces[k..]), pieces, 1, k)
  {
    assert Stream(units)[..0] == [] && Stream(units)[0..] == Stream(units);
    assert AwaitsRest(units, 0, [], pieces);
    hide AllWhole, Unmarked, Frames, FrameLen, Parsed, AwaitsRest, ReadFramesFrom;
    AllArrive(units);
    FramesChainBit(units, |Stream(units)|, None);
    k := FewestReads(units, 0, [], pieces, 1);
    ReadsNoFurther([], pieces, after, 1);
    var s := ReadFramesFrom([], pieces, 1);
    assert [] + s.result.frames == s.result.frames;
    assert s == s.(incoming := pieces[k..]);
  }

  /** A reliable chain whose last segment says that more follows is not returned: at the end of the stream the
      connection is closed, with every byte taken. */
  lemma {:induction false} OpenChainCloses(
    units: seq<Unit>, m: nat, buffer: Bytes, incoming: seq<Bytes>, frames: seq<DssFrame>
  )
    requires AllWhole(units) && Unmarked(units) && AwaitsRest(units, m, buffer, incoming)
    requires forall i | 0 <= i < |units| :: units[i].header.flags.chained
    ensures ReadReply(frames, buffer, incoming, true) == ReadState(ConnectionClosed, [], [])
    decreases |units|
  {
    if units == [] {
      NothingLeft(m, buffer, incoming);
    } else {
      var m' := ReadFramesOfChain(units, m, buffer, incoming);
      var s := ReadFramesFrom(buffer, incoming, 1);
      ReadFramesProgress(buffer, incoming, 1);
      OpenRound(units, m', frames);
      hide AllWhole, Unmarked, ReadFramesFrom, Frames, AwaitsRest, Arrived, Stream, Later;
      OpenChainCloses(Later(units, m'), LeftOver(units, m'), s.buffer, s.incoming, frames + s.result.frames);
    }
  }

  lemma OpenRound(units: seq<Unit>, m: nat, frames: seq<DssFrame>)
    requires AllWhole(units) && Unmarked(units)
    requires m <= |Stream(units)| && Arrived(units, m) != []
    requires forall i | 0 <= i < |units| :: units[i].header.flags.chained
    ensures var later := Later(units, m);
            && !ReplyChainComplete(frames + Frames(units, m, None))
            && AllWhole(later) && Unmarked(later) && |later| < |units|
            && forall i | 0 <= i < |later| :: later[i].header.flags.chained
  {
    hide Later, Arrived, LeftOver, Stream, AllWhole, Unmarked, Frames;
    LaterUnits(units, m);
    StreamSplit(units, m);
    FramesChainBit(units, m, None);
    var arrived, later, last := Arrived(units, m), Later(units, m), Frames(units, m, None);
    assert (frames + last)[|frames + last| - 1] == last[|last| - 1];
    assert arrived[|arrived| - 1] == units[|arrived| - 1];
    assert forall i | 0 <= i < |later| :: later[i] == units[|arrived| + i];
  }

  /** If the stream ends before a frame is complete, reading ends with it and the bytes stay in the buffer. */
  lemma {:induction false} StreamEnds(buffer: Bytes, incoming: seq<Bytes>, minFrames: nat)
    requires FrameLen(buffer + Concat(incoming)).None? && forall i | 0 <= i < |incoming| :: incoming[i] != []
    ensures ReadFramesFrom(buffer, incoming, minFrames) == ReadState(ConnectionClosed, buffer + Concat(incoming), [])
    decreases |incoming|
  {
    if FrameLen(buffer).Some? {
      FrameLenStays(buffer, buffer + Concat(incoming));
      assert false;
    }
    hide FrameLen;
    if incoming == [] {
      assert buffer + [] == buffer;
    } else {
      assert buffer + incoming[0] + Concat(incoming[1..]) == buffer + Concat(incoming);
      StreamEnds(buffer + incoming[0], incoming[1..], minFrames);
    }
  }

  /** Bytes that do not parse end the reply with their error and stay in the buffer. */
  lemma {:induction false} ReplyMalformed(buffer: Bytes, incoming: seq<Bytes>, reliable: bool)
    requires FrameLen(buffer).Some? && !ReadAll(buffer).outcome.AllFrames?
    ensures var outcome := ReadAll(buffer).outcome;
            ReadReply([], buffer, incoming, reliable)
            == ReadState(if outcome.AllMalformed? then ProtocolError(outcome.error) else Crashed, buffer, incoming)
  {
    hide ReadAll, FrameLen;
  }
}
