/** The DSS byte layout in numerals: what the writer's bytes are and what the reader makes of given bytes (dss.rs). */
module DssWire {
  import opened Wire
  import opened Dss
  import opened DssReading

  /** The six bytes of every header: length, 0xD0, the type's number and a bit for each flag, correlation id. */
  lemma {:induction false} HeaderImage(h: DssHeader)
    ensures h.Serialize() == [
              h.length / 256, h.length % 256, 0xD0,
              (match h.dssType case Request => 1 case Reply => 2 case Object => 3 case Communication => 4)
              + (if h.flags.chained then 0x40 else 0)
              + (if h.flags.continueOnError then 0x20 else 0)
              + (if h.flags.sameCorrelation then 0x10 else 0),
              h.correlationId / 256, h.correlationId % 256]
  {}

  /** What the first six bytes are parsed to: the fields, or which of the three errors. */
  lemma {:induction false} ParsedImage(data: Bytes)
    ensures |data| < 6 ==> DssHeader.Parse(data) == Err(BufferTooShort(6, |data|))
    ensures |data| >= 6 && data[2] != 0xD0 ==> DssHeader.Parse(data) == Err(InvalidMagic(data[2]))
    ensures |data| >= 6 && data[2] == 0xD0 && !(1 <= data[3] % 16 <= 4) ==>
              DssHeader.Parse(data) == Err(InvalidDssType(data[3] % 16))
    ensures |data| >= 6 && data[2] == 0xD0 && 1 <= data[3] % 16 <= 4 ==>
              DssHeader.Parse(data) == Ok(DssHeader(
                if data[0] == 0xFF && data[1] == 0xFF then 0x7FFF else data[0] as int * 256 + data[1],
                if data[3] % 16 == 1 then Request else if data[3] % 16 == 2 then Reply
                else if data[3] % 16 == 3 then Object else Communication,
                DssFlags(data[3] / 64 % 2 == 1, data[3] / 32 % 2 == 1, data[3] / 16 % 2 == 1),
                data[4] as int * 256 + data[5]))
  {}

  // ---- Reading ----

  /** What becomes of a segment that is not continued, by its bytes. */
  lemma {:induction false} SegmentRead(r: Bytes)
    requires |r| >= 6 && !(r[0] == 0xFF && r[1] == 0xFF)
    ensures var n := r[0] as int * 256 + r[1];
            && (|r| < n ==> ReadFrame(r) == ReadStep(NeedMore, 0))
            && (|r| >= n && r[2] != 0xD0 ==> ReadFrame(r) == ReadStep(Malformed(InvalidMagic(r[2])), 0))
            && (|r| >= n && r[2] == 0xD0 && !(1 <= r[3] % 16 <= 4) ==>
                  ReadFrame(r) == ReadStep(Malformed(InvalidDssType(r[3] % 16)), 0))
            && (n < 6 && r[2] == 0xD0 && 1 <= r[3] % 16 <= 4 ==> ReadFrame(r) == ReadStep(Panic, 0))
            && (6 <= n <= |r| < n + 6 && r[2] == 0xD0 && 1 <= r[3] % 16 <= 4 ==>
                  ReadFrame(r) == ReadStep(Frame(DssFrame(DssHeader.Parse(r).value, r[6..n])), n))
            && (6 <= n <= |r| - 6 && r[2] == 0xD0 && 1 <= r[3] % 16 <= 4 && r[n + 2] != 0xD0 ==>
                  && ReadFrame(r) == ReadStep(Malformed(InvalidMagic(r[n + 2])), n)
                  && ReadAll(r) == ReadAllStep(AllMalformed(InvalidMagic(r[n + 2])), n))
  {
    hide CollectContinuations, ContinuationsLen;
    ParsedImage(r);
    var n := r[0] as int * 256 + r[1];
    if 6 <= n <= |r| {
      ParsedImage(r[n..]);
    }
  }

  /** A server's reply of four bytes. */
  lemma {:induction false} ReplyRead(a: Byte, b: Byte, c: Byte, d: Byte)
    ensures ReadFrame([0x00, 0x0A, 0xD0, 0x02, 0x00, 0x01, a, b, c, d])
         == ReadStep(Frame(DssFrame(DssHeader(10, Reply, DssFlags(false, false, false), 1), [a, b, c, d])), 10)
  {
    var r: Bytes := [0x00, 0x0A, 0xD0, 0x02, 0x00, 0x01, a, b, c, d];
    SegmentRead(r);
    ParsedImage(r);
    assert r[6..10] == [a, b, c, d];
  }

  /** Which segment is merged into the frame before it, what it adds and how far the reader moves. */
  lemma {:induction false} FollowerImage(r: Bytes, first: DssType, payload: Bytes)
    requires |r| >= 6 && r[2] == 0xD0 && 1 <= r[3] % 16 <= 4
    ensures var n := r[0] as int * 256 + r[1];
            var d := DecideMerge(r, first, payload);
            && (d.Merge? <==>
                && r[3] / 16 % 2 == 1
                && (match first
                    case Request => r[3] % 16 == 1 || r[3] % 16 == 3
                    case Reply => r[3] % 16 == 2 || r[3] % 16 == 3
                    case Object => r[3] % 16 == 3
                    case Communication => r[3] % 16 == 4)
                && 6 <= n <= |r| && n != 0xFFFF
                && !(n > 10 && r[8] as int * 256 + r[9] > 0x0100 && r[6] as int * 256 + r[7] <= n - 2))
            && (d.Merge? ==>
                  && d.length == n
                  && (d.chained <==> r[3] / 64 % 2 == 1)
                  && d.bytes == if && |payload| >= 4 && payload[0] == 0x80 && payload[1] == 0x04
                                   && n >= 8 && r[6] == 0x7F && (r[7] == 0xFE || r[7] == 0xFF)
                                then r[8..n] else r[6..n])
            && !d.MergeMalformed?
            && (d.MergePanic? ==> n < 6)
  {
    ParsedImage(r);
    var n := r[0] as int * 256 + r[1];
    if 8 <= n <= |r| {
      assert r[6..n][2..] == r[8..n];
    }
  }

  /** Reading all frames goes on to where no whole frame is left, or fails with the first failure it comes to. */
  lemma {:induction false} ReadAllEnds(r: Bytes) returns (at: nat)
    ensures at <= |r| && ReadAll(r).consumed >= at
    ensures var last := ReadFrame(r[at..]).outcome;
            match ReadAll(r).outcome
            case AllFrames(_) => last == NeedMore && ReadAll(r).consumed == at
            case AllMalformed(e) => last == Malformed(e)
            case AllPanic => last == Panic
    decreases |r|
  {
    hide ReadFrame;
    ReadFrameProgress(r);
    var step := ReadFrame(r);
    at := 0;
    assert r[0..] == r;
    if step.outcome.Frame? {
      var more := ReadAllEnds(r[step.consumed..]);
      at := step.consumed + more;
      assert r[step.consumed..][more..] == r[at..];
    }
  }

  // ---- Writing ----

  /** A payload of up to 32761 bytes goes out behind one header that declares six bytes more. */
  lemma {:induction false} ShortImage(t: DssType, flags: DssFlags, corr: U16, payload: Bytes)
    requires |payload| <= 32761
    ensures EncodeDss(t, flags, corr, payload) == DssHeader(|payload| + 6, t, flags, corr).Serialize() + payload
  {}

  /** Position `at` of `c` begins the chunk that `left` still to be written opens with. */
  ghost predicate ChunkAt(c: Bytes, at: nat, left: Bytes) {
    var len := if |left| > 32765 then 32765 else |left|;
    && at + 2 + len <= |c|
    && c[at] == (if |left| > 32765 then 0xFF else (len + 2) / 256)
    && c[at + 1] == (if |left| > 32765 then 0xFF else (len + 2) % 256)
    && c[at + 2..at + 2 + len] == left[..len]
  }

  /** A longer one: a header that declares 0xFFFF, 32761 bytes, then chunks of up to 32765 bytes, each behind 0xFFFF
      or, for the last, its own length and two. */
  lemma {:induction false} LongImage(t: DssType, flags: DssFlags, corr: U16, payload: Bytes, k: nat)
    requires 32761 + 32765 * k < |payload|
    ensures var e := EncodeDss(t, flags, corr, payload);
            && |e| == |payload| + 6 + 2 * ((|payload| - 32761 + 32764) / 32765)
            && e[..32767] == DssHeader(0xFFFF, t, flags, corr).Serialize() + payload[..32761]
            && ChunkAt(e, 32767 * (k + 1), payload[32761 + 32765 * k..])
  {
    hide Continuations;
    var rest := payload[32761..];
    ChunkImage(rest, k);
    var head := DssHeader(0xFFFF, t, flags, corr).Serialize() + payload[..32761];
    assert EncodeDss(t, flags, corr, payload) == head + Continuations(rest);
    assert rest[32765 * k..] == payload[32761 + 32765 * k..];
    ChunkShifts(head, Continuations(rest), 32767 * k, rest[32765 * k..]);
  }

  lemma {:induction false} ChunkImage(p: Bytes, k: nat)
    requires 32765 * k < |p|
    ensures |Continuations(p)| == |p| + 2 * ((|p| + 32764) / 32765)
    ensures ChunkAt(Continuations(p), 32767 * k, p[32765 * k..])
  {
    hide Continuations;
    FirstChunk(p);
    if |p| > 32765 {
      var rest := p[32765..];
      if k == 0 {
        ChunkImage(rest, 0);
      } else {
        ChunkImage(rest, k - 1);
        assert rest[32765 * (k - 1)..] == p[32765 * k..];
        var c := Continuations(p);
        ChunkShifts(c[..32767], c[32767..], 32767 * (k - 1), p[32765 * k..]);
        assert c[..32767] + c[32767..] == c;
      }
    }
  }

  lemma FirstChunk(p: Bytes)
    requires p != []
    ensures var c := Continuations(p);
            && ChunkAt(c, 0, p)
            && if |p| > 32765 then |c| >= 32767 && c[32767..] == Continuations(p[32765..]) else |c| == |p| + 2
  {
    if |p| > 32765 {
      var head: Bytes := U16ToBytes(0xFFFF) + p[..32765];
      assert Continuations(p) == head + Continuations(p[32765..]);
      assert |head| == 32767 && head[2..] == p[..32765];
    }
  }

  lemma ChunkShifts(head: Bytes, c: Bytes, at: nat, left: Bytes)
    requires ChunkAt(c, at, left)
    ensures ChunkAt(head + c, |head| + at, left)
  {
    var len := if |left| > 32765 then 32765 else |left|;
    assert (head + c)[|head| + at + 2..|head| + at + 2 + len] == c[at + 2..at + 2 + len];
  }
}
