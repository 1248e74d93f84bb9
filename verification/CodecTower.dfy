/** DDM objects through the DSS writer and reader: the whole wire codec. */
module CodecTower {
  import opened Wire
  import opened Dss
  import opened DssReading
  import opened Framing
  import opened Ddm
  import opened DdmRoundTrip

  /** One object and how it is framed. */
  datatype Message = Message(
    obj: DdmObject, dssType: DssType, chained: bool, sameCorrelation: bool, correlationId: U16)
  {
    function Printed(): Bytes {
      Marshal(obj.codePoint, obj.data)
    }

    function Flags(): DssFlags {
      DssFlags(chained, false, sameCorrelation)
    }

    function Framed(): Bytes {
      EncodeDss(dssType, Flags(), correlationId, Printed())
    }
  }

  /** The sizes that pass the wire: objects that exist in memory, off the boundary residue. */
  predicate Readable(messages: seq<Message>) {
    forall i | 0 <= i < |messages| ::
      |messages[i].obj.data| <= MAX_VEC_LEN && ReadsBack(|messages[i].Printed()|)
  }

  function Sent(messages: seq<Message>): Bytes {
    if messages == [] then [] else messages[0].Framed() + Sent(messages[1..])
  }

  function Objects(messages: seq<Message>): seq<DdmObject> {
    if messages == [] then [] else [messages[0].obj] + Objects(messages[1..])
  }

  function Units(messages: seq<Message>): seq<Unit> {
    if messages == [] then []
    else
      var m := messages[0];
      [Unit(m.Framed(), EncodedHeader(m.dssType, m.Flags(), m.correlationId, m.Printed()), m.Printed())]
      + Units(messages[1..])
  }

  /** The objects in a list of frames, in order. */
  function ParseFrames(frames: seq<DssFrame>): Result<seq<DdmObject>, ProtoError> {
    if frames == [] then Ok([])
    else
      match ParseObjects(frames[0].payload)
      case Err(e) => Err(e)
      case Ok(first) =>
        match ParseFrames(frames[1..])
        case Err(e) => Err(e)
        case Ok(rest) => Ok(first + rest)
  }

  datatype PiecesRead = PiecesRead(outcome: ReadAllOutcome, rest: Bytes)

  /** A reader that is extended by one piece after the other and drained after each. */
  function ReadPieces(buffer: Bytes, pieces: seq<Bytes>): PiecesRead
    decreases |pieces|
  {
    if pieces == [] then PiecesRead(AllFrames([]), buffer)
    else
      var r := buffer + pieces[0];
      var step := ReadAll(r);
      if !step.outcome.AllFrames? || step.consumed > |r| then PiecesRead(step.outcome, r)
      else
        var more := ReadPieces(r[step.consumed..], pieces[1..]);
        if more.outcome.AllFrames? then more.(outcome := AllFrames(step.outcome.frames + more.outcome.frames))
        else more
  }

  /** Feeding a `DssReader` piece by piece. */
  method FeedReader(reader: DssReader, pieces: seq<Bytes>) returns (outcome: ReadAllOutcome)
    requires reader.Valid() && reader.Unread() == []
    modifies reader
    ensures reader.Valid()
    ensures outcome.AllFrames? || ReadPieces([], pieces).outcome.AllFrames? ==>
              PiecesRead(outcome, reader.Unread()) == ReadPieces([], pieces)
  {
    var frames: seq<DssFrame> := [];
    ghost var goal := ReadPieces([], pieces);
    hide ReadPieces, ReadAll;
    FeedStart(pieces);
    for i := 0 to |pieces|
      invariant reader.Valid()
      invariant Feeds(frames, reader.Unread(), pieces[i..], goal)
    {
      ghost var buffer := reader.Unread();
      ghost var r := buffer + pieces[i];
      FeedNext(frames, buffer, pieces[i..], goal);
      assert pieces[i..][1..] == pieces[i + 1..];
      reader.Extend(pieces[i]);
      var read := reader.ReadAllFrames();
      if !read.AllFrames? {
        return read;
      }
      assert reader.Unread() == r[ReadAll(r).consumed..];
      frames := frames + read.frames;
    }
    FeedDone(frames, reader.Unread(), pieces[|pieces|..], goal);
    return AllFrames(frames);
  }

  ghost predicate Feeds(frames: seq<DssFrame>, buffer: Bytes, pieces: seq<Bytes>, goal: PiecesRead) {
    var more := ReadPieces(buffer, pieces);
    goal == if more.outcome.AllFrames? then more.(outcome := AllFrames(frames + more.outcome.frames)) else more
  }

  lemma FeedStart(pieces: seq<Bytes>)
    ensures pieces[0..] == pieces && Feeds([], [], pieces, ReadPieces([], pieces))
  {}

  lemma FeedNext(frames: seq<DssFrame>, buffer: Bytes, pieces: seq<Bytes>, goal: PiecesRead)
    requires pieces != [] && Feeds(frames, buffer, pieces, goal)
    ensures var r := buffer + pieces[0];
            var step := ReadAll(r);
            && step.consumed <= |r|
            && (if step.outcome.AllFrames?
                then Feeds(frames + step.outcome.frames, r[step.consumed..], pieces[1..], goal)
                else goal.outcome == step.outcome)
  {
    var r := buffer + pieces[0];
    var step := ReadAll(r);
    ReadAllBound(r);
    hide ReadAll;
    if step.outcome.AllFrames? {
      var more := ReadPieces(r[step.consumed..], pieces[1..]);
      if more.outcome.AllFrames? {
        assert frames + (step.outcome.frames + more.outcome.frames)
            == frames + step.outcome.frames + more.outcome.frames;
      }
    }
  }

  lemma FeedDone(frames: seq<DssFrame>, buffer: Bytes, pieces: seq<Bytes>, goal: PiecesRead)
    requires pieces == [] && Feeds(frames, buffer, pieces, goal)
    ensures goal == PiecesRead(AllFrames(frames), buffer)
  {
    assert frames + [] == frames;
  }

  lemma {:induction false} ReadAllBound(r: Bytes)
    ensures ReadAll(r).consumed <= |r|
    decreases |r|
  {
    ReadFrameProgress(r);
    var step := ReadFrame(r);
    if step.outcome.Frame? {
      ReadAllBound(r[step.consumed..]);
    }
  }

  // ---- Messages as units on the wire ----

  /** Each readable message is a whole frame on the wire, and no payload starts like an
      open-ended object. */
  lemma {:induction false} MessagesAreUnits(messages: seq<Message>)
    requires Readable(messages)
    ensures var units := Units(messages);
            && |units| == |messages| && AllWhole(units) && Unmarked(units)
            && Stream(units) == Sent(messages)
            && Payloads(units) == MarshalAll(Objects(messages))
  {
    if messages != [] {
      var m := messages[0];
      var units := Units(messages);
      MessagesAreUnits(messages[1..]);
      EncodedUnit(m.dssType, m.Flags(), m.correlationId, m.Printed());
      assert Whole(units[0]);
      assert units[1..] == Units(messages[1..]);
      assert Objects(messages)[1..] == Objects(messages[1..]);
      PrintedParts(m.obj.codePoint, m.obj.data, MarshalAll(Objects(messages[1..])));
      hide Whole, EncodeDss, Marshal;
    }
  }

  /** The messages whose last byte is among the first m, and those after them. */
  function ArrivedMessages(messages: seq<Message>, m: nat): seq<Message> {
    if messages == [] || m < |messages[0].Framed()| then []
    else [messages[0]] + ArrivedMessages(messages[1..], m - |messages[0].Framed()|)
  }

  function LaterMessages(messages: seq<Message>, m: nat): seq<Message> {
    if messages == [] || m < |messages[0].Framed()| then messages
    else LaterMessages(messages[1..], m - |messages[0].Framed()|)
  }

  /** However the units of the first m bytes are grouped into frames, parsing the frames gives
      the objects of the messages that arrived, in order. */
  lemma {:induction false} FramesParse(messages: seq<Message>, m: nat, open: Option<DssFrame>, held: seq<DdmObject>)
    requires Readable(messages) && FitVectors(held)
    requires if open.Some? then open.value.payload == MarshalAll(held) else held == []
    ensures ParseFrames(Frames(Units(messages), m, open)) == Ok(held + Objects(ArrivedMessages(messages, m)))
    decreases |messages|, open.Some?
  {
    hide Follows, SpansSegments, Marshal, EncodeDss, ParseFrames, Objects, MarshalAll, WithChained, EncodedHeader;
    ParseNoFrames();
    assert held + [] == held;
    if messages == [] || m < |messages[0].Framed()| {
      if open.Some? {
        ParseOneFrame(open.value, held, []);
      }
    } else {
      var msg, rest := messages[0], m - |messages[0].Framed()|;
      var u := Units(messages)[0];
      var arrived := ArrivedMessages(messages[1..], rest);
      assert Units(messages)[1..] == Units(messages[1..]);
      ObjectsCons(msg, arrived);
      MarshalOne(msg.obj);
      hide ReadsBack;
      if open.Some? {
        var f := open.value;
        if Follows(f.header.dssType, u) {
          MarshalAllAppend(held, [msg.obj]);
          assert Extended(f, u).payload == f.payload + msg.Printed();
          FramesParse(messages[1..], rest, Some(Extended(f, u)), held + [msg.obj]);
          assert held + ([msg.obj] + Objects(arrived)) == held + [msg.obj] + Objects(arrived);
        } else {
          FramesParse(messages, m, None, []);
          ParseOneFrame(f, held, Frames(Units(messages), m, None));
        }
      } else if SpansSegments(u) {
        FramesParse(messages[1..], rest, None, []);
        ParseOneFrame(FrameOf(u), [msg.obj], Frames(Units(messages[1..]), rest, None));
      } else {
        FramesParse(messages[1..], rest, Some(FrameOf(u)), [msg.obj]);
      }
    }
  }

  lemma ObjectsCons(first: Message, rest: seq<Message>)
    ensures Objects([first] + rest) == [first.obj] + Objects(rest)
    ensures [] + Objects([first] + rest) == Objects([first] + rest) && [] + Objects(rest) == Objects(rest)
  {}

  lemma MarshalOne(obj: DdmObject)
    ensures MarshalAll([obj]) == Marshal(obj.codePoint, obj.data)
  {}

  lemma ParseNoFrames()
    ensures ParseFrames([]) == Ok([]) && Objects([]) == []
  {}

  lemma ParseOneFrame(f: DssFrame, held: seq<DdmObject>, rest: seq<DssFrame>)
    requires FitVectors(held) && f.payload == MarshalAll(held)
    ensures ParseFrames(rest).Ok? ==> ParseFrames([f] + rest) == Ok(held + ParseFrames(rest).value)
    ensures rest == [] ==> [f] + rest == [f]
  {
    ObjectsRoundTrip(held, []);
    assert f.payload + [] == f.payload;
    assert ([f] + rest)[1..] == rest;
    hide ParseObjects, MarshalAll;
  }

  lemma {:induction false} ParseFramesAppend(a: seq<DssFrame>, b: seq<DssFrame>)
    ensures ParseFrames(a).Ok? && ParseFrames(b).Ok? ==>
              ParseFrames(a + b) == Ok(ParseFrames(a).value + ParseFrames(b).value)
  {
    hide ParseObjects;
    if a == [] {
      assert a + b == b;
      assert ParseFrames(b).Ok? ==> [] + ParseFrames(b).value == ParseFrames(b).value;
    } else {
      assert (a + b)[1..] == a[1..] + b;
      ParseFramesAppend(a[1..], b);
      if ParseFrames(a).Ok? && ParseFrames(b).Ok? {
        var first := ParseObjects(a[0].payload).value;
        assert first + (ParseFrames(a[1..]).value + ParseFrames(b).value)
            == first + ParseFrames(a[1..]).value + ParseFrames(b).value;
      }
    }
  }

  lemma {:induction false} MessagesSplit(messages: seq<Message>, m: nat)
    requires Readable(messages)
    ensures Readable(LaterMessages(messages, m))
    ensures Units(LaterMessages(messages, m)) == Later(Units(messages), m)
    ensures Objects(messages) == Objects(ArrivedMessages(messages, m)) + Objects(LaterMessages(messages, m))
  {
    hide EncodeDss, Readable, Units, Objects, Later;
    SplitNothing(messages, m);
    if messages != [] && m >= |messages[0].Framed()| {
      var rest := m - |messages[0].Framed()|;
      SplitFirst(messages, m);
      MessagesSplit(messages[1..], rest);
      assert messages == [messages[0]] + messages[1..];
      ObjectsCons(messages[0], messages[1..]);
      ObjectsCons(messages[0], ArrivedMessages(messages[1..], rest));
      var first := [messages[0].obj];
      var arrived, later := Objects(ArrivedMessages(messages[1..], rest)), Objects(LaterMessages(messages[1..], rest));
      assert first + (arrived + later) == first + arrived + later;
    }
  }

  lemma SplitNothing(messages: seq<Message>, m: nat)
    ensures messages == [] || m < |messages[0].Framed()| ==> Later(Units(messages), m) == Units(messages)
    ensures Objects([]) + Objects(messages) == Objects(messages)
  {
    hide EncodeDss, Marshal;
  }

  lemma SplitFirst(messages: seq<Message>, m: nat)
    requires messages != [] && Readable(messages) && m >= |messages[0].Framed()|
    ensures Readable(messages[1..])
    ensures Later(Units(messages), m) == Later(Units(messages[1..]), m - |messages[0].Framed()|)
  {
    hide EncodeDss, Marshal;
    assert Units(messages)[1..] == Units(messages[1..]);
  }

  /** What has arrived of the messages: their frames parse to their objects, and the bytes left
      over are those of the messages still to come. */
  lemma MessagesArrive(messages: seq<Message>, m: nat)
    requires Readable(messages) && m <= |Sent(messages)|
    ensures var step := ReadAll(Sent(messages)[..m]);
            var later, left := LaterMessages(messages, m), LeftOver(Units(messages), m);
            && step.outcome.AllFrames? && step.consumed <= m
            && ParseFrames(step.outcome.frames) == Ok(Objects(ArrivedMessages(messages, m)))
            && Readable(later) && Arrived(Units(later), left) == [] && left <= |Sent(later)|
            && Sent(messages)[..m][step.consumed..] == Sent(later)[..left]
            && Sent(messages)[m..] == Sent(later)[left..]
            && Objects(messages) == Objects(ArrivedMessages(messages, m)) + Objects(later)
  {
    var units := Units(messages);
    MessagesAreUnits(messages);
    ReadAllUnits(units, m);
    LaterUnits(units, m);
    FramesParse(messages, m, None, []);
    MessagesSplit(messages, m);
    MessagesAreUnits(LaterMessages(messages, m));
    hide Whole, Frames, ParseFrames, ReadAll, Unmarked, Readable, Objects, Units, LaterMessages, ArrivedMessages,
         Later, LeftOver, Arrived, AllWhole, Sent, Stream, Payloads;
    assert [] + Objects(ArrivedMessages(messages, m)) == Objects(ArrivedMessages(messages, m));
  }

  lemma NothingSent(messages: seq<Message>, m: nat)
    requires Readable(messages) && m == |Sent(messages)| && Arrived(Units(messages), m) == []
    ensures messages == [] && Sent(messages) == [] && ParseFrames([]) == Ok(Objects(messages))
  {}

  lemma {:induction false} PiecesOfMessages(messages: seq<Message>, m: nat, pieces: seq<Bytes>)
    requires Readable(messages) && m <= |Sent(messages)|
    requires Arrived(Units(messages), m) == []
    requires Concat(pieces) == Sent(messages)[m..]
    ensures var read := ReadPieces(Sent(messages)[..m], pieces);
            && read.outcome.AllFrames? && read.rest == []
            && ParseFrames(read.outcome.frames) == Ok(Objects(messages))
    decreases |pieces|
  {
    hide ReadAll, ParseFrames, Readable, Sent, Units, Arrived, Objects, ArrivedMessages, LaterMessages, LeftOver;
    if pieces == [] {
      assert Sent(messages)[m..] == [];
      NothingSent(messages, m);
    } else {
      var m' := m + |pieces[0]|;
      PieceArrives(Sent(messages), m, pieces);
      MessagesArrive(messages, m');
      var later, left := LaterMessages(messages, m'), LeftOver(Units(messages), m');
      PiecesOfMessages(later, left, pieces[1..]);
      ParseFramesAppend(ReadAll(Sent(messages)[..m']).outcome.frames,
                        ReadPieces(Sent(later)[..left], pieces[1..]).outcome.frames);
    }
  }

  /** The codec tower: whatever objects are printed and framed with whatever types, chain bits
      and correlation flags, and however their bytes are cut into pieces, the reader leaves
      nothing behind and its frames parse to exactly those objects in order. */
  lemma {:induction false} CodecTowerRoundTrip(messages: seq<Message>, pieces: seq<Bytes>)
    requires Readable(messages) && Concat(pieces) == Sent(messages)
    ensures var read := ReadPieces([], pieces);
            && read.outcome.AllFrames? && read.rest == []
            && ParseFrames(read.outcome.frames) == Ok(Objects(messages))
  {
    assert Sent(messages)[..0] == [] && Sent(messages)[0..] == Sent(messages);
    MessagesAreUnits(messages);
    if messages != [] {
      assert AllWhole(Units(messages)) && Whole(Units(messages)[0]);
    }
    PiecesOfMessages(messages, 0, pieces);
  }
}
