/** Batches of parameter rows, sent in chunks and committed as one unit (connection.rs). */
module Batch {
  import opened Wire

  const PIPELINE_CHUNK: nat := 500

  /** A row's SQLCARD: its SQLCODE, negative for an error, and its row count. */
  datatype Card = Card(sqlcode: int, rowCount: int)
  {
    predicate IsError() {
      sqlcode < 0
    }

    /** SQLCODEs of a session out of step with its server. */
    predicate IsStale() {
      sqlcode == -502 || sqlcode == -514 || sqlcode == -518
    }
  }

  /** An object in a reply. A fault ends the reading at once: SQLERRRM is soft, the other error
      replies and whatever does not parse are fatal. The rest is passed over. */
  datatype ReplyObject = SqlCard(card: Card) | Fault(fatal: bool) | Other

  type Reply = seq<ReplyObject>

  datatype BatchResult =
    | Counted(rows: int)
    | RowFailed(row: nat, sqlcode: int)
    | NotEncodable(row: nat)
    | ReplyFault(fatal: bool)
    | CommitFailed
    | CutOff
  {
    /** Errors on which the client gives the session up; a batch cut off by the query timeout is one. */
    predicate EndsSession() {
      (ReplyFault? && fatal) || (RowFailed? && Card(sqlcode, 0).IsStale()) || CutOff?
    }
  }

  /** How the closing commit or rollback ends. If the session breaks on it, the commit may have
      taken effect or not, and the query timeout may be the reason. */
  datatype Closing = Accepted | Refused | Broken(takesEffect: bool, timesOut: bool)

  // ---- Replies ----

  /** The first fault in a reply. */
  function FaultIn(reply: Reply): Option<bool> {
    if reply == [] then None
    else if FaultIn(reply[..|reply| - 1]).Some? then FaultIn(reply[..|reply| - 1])
    else if reply[|reply| - 1].Fault? then Some(reply[|reply| - 1].fatal)
    else None
  }

  /** The cards before the first fault. */
  function CardsOf(reply: Reply): seq<Card> {
    if reply == [] then []
    else CardsOf(reply[..|reply| - 1])
         + if FaultIn(reply[..|reply| - 1]).None? && reply[|reply| - 1].SqlCard? then [reply[|reply| - 1].card] else []
  }

  /** How reading the answers to a chunk ends, and the replies not read. */
  datatype Reading = Reading(fault: Option<bool>, left: seq<Reply>)

  /** Replies are read until all cards are there, or one has a fault, or there is no more. */
  function ReadingOf(replies: seq<Reply>, wanted: nat): Reading {
    if wanted == 0 then Reading(None, replies)
    else if replies == [] then Reading(Some(true), [])
    else if FaultIn(replies[0]).Some? then Reading(FaultIn(replies[0]), replies[1..])
    else if |CardsOf(replies[0])| >= wanted then Reading(None, replies[1..])
    else ReadingOf(replies[1..], wanted - |CardsOf(replies[0])|)
  }

  /** One SQLCARD a row, in order, spread over replies in any way, and nothing after the last
      one; behind a fault anything may follow. */
  ghost predicate Answers(replies: seq<Reply>, cards: seq<Card>) {
    if cards == [] then replies == []
    else
      replies != [] ==>
        && CardsOf(replies[0]) <= cards
        && (FaultIn(replies[0]).None? ==> Answers(replies[1..], cards[|CardsOf(replies[0])|..]))
  }

  // ---- What a batch comes to ----

  /** The least of the first m rows that fails. */
  function FirstError(cards: seq<Card>, m: nat): (row: Option<nat>)
    requires m <= |cards|
    ensures row.Some? ==> row.value < m
  {
    if m == 0 then None
    else if FirstError(cards, m - 1).Some? then FirstError(cards, m - 1)
    else if cards[m - 1].IsError() then Some(m - 1)
    else None
  }

  /** The row counts of the first m rows, errors apart. */
  function Total(cards: seq<Card>, m: nat): int
    requires m <= |cards|
  {
    if m == 0 then 0
    else Total(cards, m - 1) + if cards[m - 1].IsError() then 0 else cards[m - 1].rowCount
  }

  /** The rows from lo to hi that took effect. */
  function Applied(cards: seq<Card>, lo: nat, hi: nat): seq<nat>
    requires lo <= hi <= |cards|
  {
    if lo == hi then [] else Applied(cards, lo, hi - 1) + if cards[hi - 1].IsError() then [] else [hi - 1]
  }

  function ChunkEnd(lo: nat, n: nat): nat {
    if lo + PIPELINE_CHUNK < n then lo + PIPELINE_CHUNK else n
  }

  /** A batch: what the server makes of each row, what it answers to each chunk, which rows can be
      encoded, and in the answers to which chunk the time runs out. */
  datatype Script = Script(cards: seq<Card>, replies: seq<seq<Reply>>, encodes: seq<bool>, cut: Option<nat>)
  {
    ghost predicate Valid() {
      && |encodes| == |cards|
      && forall c :: 0 <= c && c * PIPELINE_CHUNK < |cards| ==>
           c < |replies| && Answers(replies[c], cards[c * PIPELINE_CHUNK..ChunkEnd(c * PIPELINE_CHUNK, |cards|)])
    }
  }

  /** The least row of a stretch that does not encode. */
  function FirstUnencodable(encodes: seq<bool>, lo: nat, hi: nat): (row: Option<nat>)
    requires lo <= hi <= |encodes|
    ensures row.Some? ==> lo <= row.value < hi && !encodes[row.value] && (forall i | lo <= i < row.value :: encodes[i])
    ensures row.None? ==> (forall i | lo <= i < hi :: encodes[i])
    decreases hi - lo
  {
    if lo == hi then None else if !encodes[lo] then Some(lo) else FirstUnencodable(encodes, lo + 1, hi)
  }

  /** What is reported if the closing commit succeeds, how many rows went out, and which replies
      were left unread. */
  datatype BatchEnd = BatchEnd(result: BatchResult, sent: nat, unread: seq<Reply>)

  /** A batch from chunk c on: no chunk with a row that does not encode is sent; a fault ends it in
      the middle of reading, a failed row after its chunk was read. */
  ghost function BatchFrom(s: Script, c: nat): (end: BatchEnd)
    requires s.Valid()
    ensures end.sent <= |s.cards|
    decreases |s.cards| - c * PIPELINE_CHUNK
  {
    var n, lo := |s.cards|, c * PIPELINE_CHUNK;
    if lo >= n then BatchEnd(Counted(Total(s.cards, n)), n, [])
    else
      var hi := ChunkEnd(lo, n);
      var odd, reading := FirstUnencodable(s.encodes, lo, hi), ReadingOf(s.replies[c], hi - lo);
      var bad := FirstError(s.cards, hi);
      if odd.Some? then BatchEnd(NotEncodable(odd.value), lo, [])
      else if s.cut == Some(c) then BatchEnd(CutOff, hi, s.replies[c])
      else if reading.fault.Some? then BatchEnd(ReplyFault(reading.fault.value), hi, reading.left)
      else if bad.Some? then BatchEnd(RowFailed(bad.value, s.cards[bad.value].sqlcode), hi, [])
      else BatchFrom(s, c + 1)
  }

  /** Under auto-commit a batch that was read to its end is committed or rolled back; an empty one
      is not. */
  predicate Closes(end: BatchEnd, n: nat, autoCommit: bool) {
    autoCommit && n > 0 && (end.result.Counted? || end.result.RowFailed?)
  }

  /** What is reported, the closing commit or rollback included; a rollback that fails is only noted. */
  function Outcome(end: BatchEnd, n: nat, autoCommit: bool, closing: Closing): BatchResult {
    if !Closes(end, n, autoCommit) || closing.Accepted? then end.result
    else if end.result.Counted? then if closing.Refused? then CommitFailed else CutOff
    else if closing.Broken? && closing.timesOut then CutOff
    else end.result
  }

  /** The rows made durable. */
  function Kept(cards: seq<Card>, end: BatchEnd, autoCommit: bool, closing: Closing): seq<nat>
    requires end.sent <= |cards|
  {
    if Closes(end, |cards|, autoCommit) && end.result.Counted?
       && (closing.Accepted? || (closing.Broken? && closing.takesEffect))
    then Applied(cards, 0, end.sent)
    else []
  }

  /** Rows neither committed nor rolled back at the end. */
  ghost function LeftPending(s: Script, autoCommit: bool, closing: Closing): seq<nat>
    requires s.Valid()
  {
    var end := BatchFrom(s, 0);
    if end.result.EndsSession() || (Closes(end, |s.cards|, autoCommit) && !closing.Refused?) then []
    else Applied(s.cards, 0, end.sent)
  }

  // ---- The server ----

  /** A database connection: it runs the rows of a chunk and answers them. A session that ends
      takes its pending work and its replies with it. */
  class Server {
    const cards: seq<Card>
    const replies: seq<seq<Reply>>
    var up: bool
    var received: nat
    var unread: seq<Reply>
    var pending: seq<nat>
    var durable: seq<nat>

    constructor (cards: seq<Card>, replies: seq<seq<Reply>>)
      ensures this.cards == cards && this.replies == replies
      ensures up && received == 0 && unread == [] && pending == [] && durable == []
    {
      this.cards, this.replies := cards, replies;
      up, received, unread, pending, durable := true, 0, [], [], [];
    }

    method Receive(chunk: nat, rows: nat)
      requires received == chunk * PIPELINE_CHUNK < |cards| && chunk < |replies|
      requires received + rows == ChunkEnd(received, |cards|)
      modifies this`received, this`unread, this`pending
      ensures received == old(received) + rows && unread == replies[chunk]
      ensures pending == old(pending) + Applied(cards, old(received), received)
    {
      pending := pending + Applied(cards, received, received + rows);
      unread := replies[chunk];
      received := received + rows;
    }

    method Answer() returns (reply: Option<Reply>)
      modifies this`unread
      ensures if old(unread) == [] then reply == None && unread == []
              else reply == Some(old(unread)[0]) && unread == old(unread)[1..]
    {
      if unread == [] {
        return None;
      }
      reply := Some(unread[0]);
      unread := unread[1..];
    }

    /** RDBCMM; a refusal leaves everything pending. */
    method Commit(closing: Closing)
      modifies this`up, this`pending, this`durable
      ensures up == (old(up) && !closing.Broken?) && pending == if closing.Refused? then old(pending) else []
      ensures durable == old(durable) + (if closing.Accepted? || (closing.Broken? && closing.takesEffect)
                                         then old(pending) else [])
    {
      if closing.Accepted? || (closing.Broken? && closing.takesEffect) {
        durable := durable + pending;
      }
      if !closing.Refused? {
        pending := [];
      }
      up := up && !closing.Broken?;
    }

    method Rollback(closing: Closing)
      modifies this`up, this`pending
      ensures up == (old(up) && !closing.Broken?) && pending == if closing.Refused? then old(pending) else []
    {
      if !closing.Refused? {
        pending := [];
      }
      up := up && !closing.Broken?;
    }

    method EndSession()
      modifies this`up, this`pending, this`unread
      ensures !up && pending == [] && unread == []
    {
      up, pending, unread := false, [], [];
    }
  }

  // ---- The client ----

  /** The cards of one reply, for the rows from `at` on, up to a fault if there is one. */
  method TakeReply(ghost cards: seq<Card>, reply: Reply, at: nat, before: int, first: Option<nat>)
    returns (next: nat, total: int, firstError: Option<nat>, fault: Option<bool>)
    requires at + |CardsOf(reply)| <= |cards| && cards[at..at + |CardsOf(reply)|] == CardsOf(reply)
    requires before == Total(cards, at) && first == FirstError(cards, at)
    ensures next == at + |CardsOf(reply)| && fault == FaultIn(reply)
    ensures total == Total(cards, next) && firstError == FirstError(cards, next)
  {
    next, total, firstError, fault := at, before, first, None;
    for i := 0 to |reply|
      invariant next == at + |CardsOf(reply[..i])| && next <= |cards| && FaultIn(reply[..i]) == None
      invariant total == Total(cards, next) && firstError == FirstError(cards, next)
    {
      assert reply[..i + 1][..i] == reply[..i];
      CardsPrefix(reply, i);
      match reply[i]
      case Fault(fatal) =>
        FaultStops(reply, i);
        return next, total, firstError, Some(fatal);
      case SqlCard(card) =>
        assert card == cards[at..at + |CardsOf(reply)|][next - at];
        if card.IsError() {
          firstError := if firstError.Some? then firstError else Some(next);
        } else {
          total := total + card.rowCount;
        }
        next := next + 1;
      case Other =>
    }
    assert reply[..|reply|] == reply;
  }

  /** The cards of the objects up to and including the next one are among the reply's cards. */
  lemma {:induction false} CardsPrefix(reply: Reply, i: nat)
    requires i < |reply| && FaultIn(reply[..i]) == None
    ensures |CardsOf(reply[..i])| <= |CardsOf(reply)| && CardsOf(reply)[..|CardsOf(reply[..i])|] == CardsOf(reply[..i])
    ensures reply[i].SqlCard? ==>
              |CardsOf(reply[..i])| < |CardsOf(reply)| && CardsOf(reply)[|CardsOf(reply[..i])|] == reply[i].card
    decreases |reply|
  {
    if i < |reply| - 1 {
      assert reply[..|reply| - 1][..i] == reply[..i];
      CardsPrefix(reply[..|reply| - 1], i);
    }
  }

  /** Behind a fault nothing counts. */
  lemma {:induction false} FaultStops(reply: Reply, i: nat)
    requires i < |reply| && FaultIn(reply[..i]) == None && reply[i].Fault?
    ensures FaultIn(reply) == Some(reply[i].fatal) && CardsOf(reply) == CardsOf(reply[..i])
    decreases |reply|
  {
    if i < |reply| - 1 {
      assert reply[..|reply| - 1][..i] == reply[..i];
      FaultStops(reply[..|reply| - 1], i);
    }
  }

  /** Reading the answers to the rows of one chunk: every card is taken, in order, up to a fault. */
  method ReadCards(server: Server, lo: nat, hi: nat, before: int, first: Option<nat>)
    returns (total: int, firstError: Option<nat>, fault: Option<bool>)
    requires lo <= hi <= |server.cards| && Answers(server.unread, server.cards[lo..hi])
    requires before == Total(server.cards, lo) && first == FirstError(server.cards, lo)
    modifies server`unread
    ensures Reading(fault, server.unread) == ReadingOf(old(server.unread), hi - lo)
    ensures fault.None? ==>
              server.unread == [] && total == Total(server.cards, hi) && firstError == FirstError(server.cards, hi)
  {
    hide CardsOf, Total, FirstError, FaultIn;
    total, firstError, fault := before, first, None;
    var at := lo;
    while at < hi
      invariant lo <= at <= hi && fault == None
      invariant Answers(server.unread, server.cards[at..hi])
      invariant ReadingOf(server.unread, hi - at) == ReadingOf(old(server.unread), hi - lo)
      invariant total == Total(server.cards, at) && firstError == FirstError(server.cards, at)
      decreases |server.unread|
    {
      var answer := server.Answer();
      if answer.None? {
        return total, firstError, Some(true);
      }
      var reply := answer.value;
      ghost var n := |CardsOf(reply)|;
      assert server.cards[at..hi][..n] == server.cards[at..at + n];
      assert server.cards[at..hi][n..] == server.cards[at + n..hi];
      at, total, firstError, fault := TakeReply(server.cards, reply, at, total, firstError);
      if fault.Some? {
        return;
      }
    }
    assert server.cards[hi..hi] == [];
  }

  /** Building the requests of a chunk stops at the first row that does not encode. */
  method EncodeChunk(encodes: seq<bool>, lo: nat, hi: nat) returns (odd: Option<nat>)
    requires lo <= hi <= |encodes|
    ensures odd == FirstUnencodable(encodes, lo, hi)
  {
    for i := lo to hi
      invariant FirstUnencodable(encodes, lo, hi) == FirstUnencodable(encodes, i, hi)
    {
      if !encodes[i] {
        return Some(i);
      }
    }
    return None;
  }

  /** The chunks of `execute_batch_with_params`, up to the end of the batch or the first chunk that
      is not good. The answers to chunk `cut` are not read in time. */
  method SendChunks(server: Server, encodes: seq<bool>, cut: Option<nat>) returns (result: BatchResult)
    requires Script(server.cards, server.replies, encodes, cut).Valid()
    requires server.received == 0 && server.unread == [] && server.pending == []
    modifies server`received, server`unread, server`pending
    ensures var end := BatchFrom(Script(server.cards, server.replies, encodes, cut), 0);
            && result == end.result && server.received == end.sent && server.unread == end.unread
            && server.pending == Applied(server.cards, 0, end.sent)
  {
    hide Applied, Total, FirstError, Answers, ReadingOf, FirstUnencodable, BatchFrom;
    ghost var s := Script(server.cards, server.replies, encodes, cut);
    var n := |encodes|;
    NothingYet(server.cards);
    var total, rowError, fault := 0, None, None;
    var chunk := 0;
    while chunk * PIPELINE_CHUNK < n
      invariant server.received == (if chunk * PIPELINE_CHUNK < n then chunk * PIPELINE_CHUNK else n)
      invariant server.unread == []
      invariant server.pending == Applied(server.cards, 0, server.received)
      invariant BatchFrom(s, chunk) == BatchFrom(s, 0)
      invariant rowError == None && FirstError(server.cards, server.received) == None
      invariant total == Total(server.cards, server.received)
      decreases n - chunk * PIPELINE_CHUNK
    {
      BatchStep(s, chunk);
      var lo := chunk * PIPELINE_CHUNK;
      var hi := if lo + PIPELINE_CHUNK < n then lo + PIPELINE_CHUNK else n;
      var odd := EncodeChunk(encodes, lo, hi);
      if odd.Some? {
        return NotEncodable(odd.value);
      }
      ChunkAnswers(s, chunk);
      server.Receive(chunk, hi - lo);
      AppliedSplit(server.cards, lo, hi);
      if cut == Some(chunk) {
        return CutOff;
      }
      total, rowError, fault := ReadCards(server, lo, hi, total, rowError);
      if fault.Some? {
        return ReplyFault(fault.value);
      }
      if rowError.Some? {
        return RowFailed(rowError.value, server.cards[rowError.value].sqlcode);
      }
      chunk := chunk + 1;
    }
    BatchStep(s, chunk);
    return Counted(total);
  }

  /** `execute_batch_with_params`. */
  method ExecuteBatchWithParams(server: Server, encodes: seq<bool>, autoCommit: bool, cut: Option<nat>,
                                closing: Closing)
    returns (result: BatchResult)
    requires Script(server.cards, server.replies, encodes, cut).Valid()
    requires server.up && server.received == 0 && server.unread == [] && server.pending == []
    modifies server
    ensures var end := BatchFrom(Script(server.cards, server.replies, encodes, cut), 0);
            var closes := Closes(end, |server.cards|, autoCommit);
            && server.received == end.sent && server.unread == end.unread
            && result == Outcome(end, |server.cards|, autoCommit, closing)
            && server.durable == old(server.durable) + Kept(server.cards, end, autoCommit, closing)
            && server.pending == (if closes && !closing.Refused? then [] else Applied(server.cards, 0, end.sent))
            && server.up == !(closes && closing.Broken?)
    ensures |old(server.durable)| <= |server.durable| && server.durable[..|old(server.durable)|] == old(server.durable)
    ensures Settled(Script(server.cards, server.replies, encodes, cut), autoCommit, closing,
                    result, server.durable[|old(server.durable)|..], server.pending)
  {
    hide Applied, BatchFrom, Total, Answers, Settled;
    assert server.durable + [] == server.durable;
    SettledAtEnd(Script(server.cards, server.replies, encodes, cut), autoCommit, closing);
    result := SendChunks(server, encodes, cut);
    if encodes == [] {
      return;
    }
    if result.RowFailed? && autoCommit {
      server.Rollback(closing);
      result := if closing.Broken? && closing.timesOut then CutOff else result;
    } else if result.Counted? && autoCommit {
      server.Commit(closing);
      match closing
      case Accepted =>
      case Refused => result := CommitFailed;
      case Broken(_, _) => result := CutOff;
    }
  }

  /** `execute_batch` of a statement that may be used: errors out of step and timeouts end the
      session. */
  method ExecuteBatch(server: Server, encodes: seq<bool>, autoCommit: bool, cut: Option<nat>, closing: Closing)
    returns (result: BatchResult)
    requires Script(server.cards, server.replies, encodes, cut).Valid()
    requires server.up && server.received == 0 && server.unread == [] && server.pending == []
    modifies server
    ensures var s := Script(server.cards, server.replies, encodes, cut);
            var end := BatchFrom(s, 0);
            && server.received == end.sent && result == Outcome(end, |server.cards|, autoCommit, closing)
            && server.up == !(end.result.EndsSession()
                              || (Closes(end, |server.cards|, autoCommit) && closing.Broken?))
            && server.unread == (if end.result.EndsSession() then [] else end.unread)
            && server.durable == old(server.durable) + Kept(server.cards, end, autoCommit, closing)
            && server.pending == LeftPending(s, autoCommit, closing)
    ensures |old(server.durable)| <= |server.durable| && server.durable[..|old(server.durable)|] == old(server.durable)
    ensures Settled(Script(server.cards, server.replies, encodes, cut), autoCommit, closing,
                    result, server.durable[|old(server.durable)|..], server.pending)
  {
    hide Applied, BatchFrom, Kept, Settled;
    SessionLost(Script(server.cards, server.replies, encodes, cut), autoCommit, closing);
    result := ExecuteBatchWithParams(server, encodes, autoCommit, cut, closing);
    ReadToTheEnd(Script(server.cards, server.replies, encodes, cut), 0);
    if result.EndsSession() {
      server.EndSession();
    }
  }

  /** A batch that is closed has read everything. */
  lemma {:induction false} ReadToTheEnd(s: Script, c: nat)
    requires s.Valid()
    ensures var end := BatchFrom(s, c); end.result.Counted? || end.result.RowFailed? ==> end.unread == []
    decreases |s.cards| - c * PIPELINE_CHUNK
  {
    hide Total, FirstError, Answers, ReadingOf, FirstUnencodable, BatchFrom;
    BatchStep(s, c);
    if c * PIPELINE_CHUNK < |s.cards| {
      ReadToTheEnd(s, c + 1);
    }
  }

  lemma BatchStep(s: Script, c: nat)
    requires s.Valid()
    ensures var n, lo := |s.cards|, c * PIPELINE_CHUNK;
            if lo >= n then BatchFrom(s, c) == BatchEnd(Counted(Total(s.cards, n)), n, [])
            else
              var hi := ChunkEnd(lo, n);
              var odd, reading := FirstUnencodable(s.encodes, lo, hi), ReadingOf(s.replies[c], hi - lo);
              var bad := FirstError(s.cards, hi);
              BatchFrom(s, c) == if odd.Some? then BatchEnd(NotEncodable(odd.value), lo, [])
                                 else if s.cut == Some(c) then BatchEnd(CutOff, hi, s.replies[c])
                                 else if reading.fault.Some? then
                                   BatchEnd(ReplyFault(reading.fault.value), hi, reading.left)
                                 else if bad.Some? then
                                   BatchEnd(RowFailed(bad.value, s.cards[bad.value].sqlcode), hi, [])
                                 else BatchFrom(s, c + 1)
  {
    hide Total, FirstError, Answers, ReadingOf, FirstUnencodable;
  }

  lemma ChunkAnswers(s: Script, c: nat)
    requires s.Valid() && c * PIPELINE_CHUNK < |s.cards|
    ensures c < |s.replies|
    ensures Answers(s.replies[c], s.cards[c * PIPELINE_CHUNK..ChunkEnd(c * PIPELINE_CHUNK, |s.cards|)])
  {}

  lemma {:induction false} AppliedSplit(cards: seq<Card>, lo: nat, hi: nat)
    requires lo <= hi <= |cards|
    ensures Applied(cards, 0, hi) == Applied(cards, 0, lo) + Applied(cards, lo, hi)
    decreases hi
  {
    if lo < hi {
      AppliedSplit(cards, lo, hi - 1);
    }
  }

  lemma NothingYet(cards: seq<Card>)
    ensures Applied(cards, 0, 0) == [] && Total(cards, 0) == 0 && FirstError(cards, 0) == None
  {}

  // ---- What that means ----

  lemma {:induction false} FirstErrorIs(cards: seq<Card>, m: nat)
    requires m <= |cards|
    ensures var f := FirstError(cards, m);
            if f.Some? then
              f.value < m && cards[f.value].IsError() && forall i | 0 <= i < f.value :: !cards[i].IsError()
            else forall i | 0 <= i < m :: !cards[i].IsError()
  {
    if m > 0 {
      FirstErrorIs(cards, m - 1);
    }
  }

  /** The rows up to n, in order. */
  function AllRows(n: nat): seq<nat> {
    seq(n, i => i)
  }

  lemma {:induction false} AppliedWithoutError(cards: seq<Card>, m: nat)
    requires m <= |cards| && forall i | 0 <= i < m :: !cards[i].IsError()
    ensures Applied(cards, 0, m) == AllRows(m)
  {
    if m > 0 {
      AppliedWithoutError(cards, m - 1);
      assert AllRows(m) == AllRows(m - 1) + [m - 1];
    }
  }

  function RowCounts(cards: seq<Card>): int {
    if cards == [] then 0 else RowCounts(cards[..|cards| - 1]) + cards[|cards| - 1].rowCount
  }

  lemma {:induction false} TotalWithoutError(cards: seq<Card>, m: nat)
    requires m <= |cards| && forall i | 0 <= i < m :: !cards[i].IsError()
    ensures Total(cards, m) == RowCounts(cards[..m])
  {
    if m > 0 {
      TotalWithoutError(cards, m - 1);
      assert cards[..m][..m - 1] == cards[..m - 1];
    }
  }

  predicate EncodesFrom(s: Script, c: nat)
    requires c * PIPELINE_CHUNK < |s.cards| == |s.encodes|
  {
    forall i | c * PIPELINE_CHUNK <= i < ChunkEnd(c * PIPELINE_CHUNK, |s.cards|) :: s.encodes[i]
  }

  function FaultOf(s: Script, c: nat): Option<bool>
    requires c * PIPELINE_CHUNK < |s.cards| && c < |s.replies|
  {
    var lo := c * PIPELINE_CHUNK;
    ReadingOf(s.replies[c], ChunkEnd(lo, |s.cards|) - lo).fault
  }

  /** A chunk that encodes whole, is answered in time and without fault, and has no failed row. */
  ghost predicate Good(s: Script, c: nat)
    requires s.Valid() && c * PIPELINE_CHUNK < |s.cards|
  {
    && EncodesFrom(s, c) && s.cut != Some(c) && FaultOf(s, c).None?
    && forall i | c * PIPELINE_CHUNK <= i < ChunkEnd(c * PIPELINE_CHUNK, |s.cards|) :: !s.cards[i].IsError()
  }

  ghost predicate GoodUpTo(s: Script, c: nat)
    requires s.Valid() && c * PIPELINE_CHUNK < |s.cards| + PIPELINE_CHUNK
  {
    forall b :: 0 <= b < c ==> Good(s, b)
  }

  /** A reported row is the least failing one, answered without fault, and nothing after its
      chunk was sent. A count is reported only if every chunk was good; it is the sum of the row
      counts, and all rows took effect. A row that does not encode is the least one of the first
      chunk that is not good, and that chunk was not sent; a fault is that of the first such chunk. */
  ghost predicate Means(s: Script, end: BatchEnd)
    requires s.Valid()
  {
    var n := |s.cards|;
    match end.result
    case RowFailed(row, code) =>
      && row < n && s.cards[row].IsError() && code == s.cards[row].sqlcode
      && (forall i | 0 <= i < row :: !s.cards[i].IsError())
      && GoodUpTo(s, row / PIPELINE_CHUNK) && EncodesFrom(s, row / PIPELINE_CHUNK)
      && FaultOf(s, row / PIPELINE_CHUNK).None?
      && s.cut != Some(row / PIPELINE_CHUNK)
      && end.sent == ChunkEnd(row / PIPELINE_CHUNK * PIPELINE_CHUNK, n) && end.unread == []
    case Counted(rows) =>
      && (forall c :: 0 <= c && c * PIPELINE_CHUNK < n ==> Good(s, c))
      && (forall i | 0 <= i < n :: !s.cards[i].IsError() && s.encodes[i])
      && end.sent == n && rows == RowCounts(s.cards) && Applied(s.cards, 0, n) == AllRows(n) && end.unread == []
    case NotEncodable(row) =>
      && row < n && !s.encodes[row] && (forall i | 0 <= i < row :: s.encodes[i])
      && GoodUpTo(s, row / PIPELINE_CHUNK)
      && end.sent == row / PIPELINE_CHUNK * PIPELINE_CHUNK
      && Applied(s.cards, 0, end.sent) == AllRows(end.sent) && end.unread == []
    case ReplyFault(fatal) =>
      exists c: nat :: c * PIPELINE_CHUNK < n && GoodUpTo(s, c) && FaultsAt(s, c, fatal, end)
    case CutOff =>
      exists c: nat :: c * PIPELINE_CHUNK < n && GoodUpTo(s, c) && CutAt(s, c, end)
    case CommitFailed => false
  }

  /** A chunk sent whole whose answers have a fault, with all replies behind it left unread. */
  ghost predicate FaultsAt(s: Script, c: nat, fatal: bool, end: BatchEnd)
    requires s.Valid() && c * PIPELINE_CHUNK < |s.cards|
  {
    var lo := c * PIPELINE_CHUNK;
    && EncodesFrom(s, c) && s.cut != Some(c) && FaultOf(s, c) == Some(fatal)
    && end.sent == ChunkEnd(lo, |s.cards|)
    && end.unread == ReadingOf(s.replies[c], end.sent - lo).left
  }

  /** A chunk sent whole whose answers are not read in time. */
  ghost predicate CutAt(s: Script, c: nat, end: BatchEnd)
    requires s.Valid() && c * PIPELINE_CHUNK < |s.cards|
  {
    EncodesFrom(s, c) && s.cut == Some(c) && end.sent == ChunkEnd(c * PIPELINE_CHUNK, |s.cards|)
  }

  /** Rows of good chunks. */
  lemma GoodRows(s: Script, c: nat, i: nat)
    requires s.Valid() && c * PIPELINE_CHUNK < |s.cards| + PIPELINE_CHUNK && GoodUpTo(s, c)
    requires i < c * PIPELINE_CHUNK && i < |s.cards|
    ensures !s.cards[i].IsError() && s.encodes[i]
  {
    assert Good(s, i / PIPELINE_CHUNK);
  }

  lemma AllGoodRows(s: Script, c: nat)
    requires s.Valid() && c * PIPELINE_CHUNK < |s.cards| + PIPELINE_CHUNK && GoodUpTo(s, c)
    ensures forall i | 0 <= i < |s.cards| && i < c * PIPELINE_CHUNK :: !s.cards[i].IsError() && s.encodes[i]
  {
    hide GoodUpTo;
    forall i | 0 <= i < |s.cards| && i < c * PIPELINE_CHUNK
      ensures !s.cards[i].IsError() && s.encodes[i]
    {
      GoodRows(s, c, i);
    }
  }

  lemma {:induction false} BatchMeaning(s: Script, c: nat)
    requires s.Valid() && c * PIPELINE_CHUNK < |s.cards| + PIPELINE_CHUNK && GoodUpTo(s, c)
    ensures Means(s, BatchFrom(s, c))
    decreases |s.cards| + PIPELINE_CHUNK - c * PIPELINE_CHUNK
  {
    hide Applied, Total, FirstError, RowCounts, ReadingOf, Answers, FirstUnencodable;
    var n, lo := |s.cards|, c * PIPELINE_CHUNK;
    AllGoodRows(s, c);
    if lo >= n {
      assert s.cards[..n] == s.cards;
      AppliedWithoutError(s.cards, n);
      TotalWithoutError(s.cards, n);
    } else {
      var hi := ChunkEnd(lo, n);
      FirstErrorIs(s.cards, hi);
      var odd := FirstUnencodable(s.encodes, lo, hi);
      if odd.Some? {
        assert odd.value / PIPELINE_CHUNK == c;
        AppliedWithoutError(s.cards, lo);
      } else if s.cut == Some(c) {
        assert CutAt(s, c, BatchFrom(s, c));
      } else if FaultOf(s, c).Some? {
        assert FaultsAt(s, c, FaultOf(s, c).value, BatchFrom(s, c));
      } else if FirstError(s.cards, hi).Some? {
        assert FirstError(s.cards, hi).value / PIPELINE_CHUNK == c;
      } else {
        assert Good(s, c);
        BatchMeaning(s, c + 1);
      }
    }
  }

  // ---- What a batch leaves ----

  /** Every chunk is good. */
  ghost predicate AllGood(s: Script)
    requires s.Valid()
  {
    forall c :: 0 <= c && c * PIPELINE_CHUNK < |s.cards| ==> Good(s, c)
  }

  /** What a batch reports, has made durable and leaves pending, from what its rows, replies and closing are. If all is
      good every row is durable after an accepted commit, or pending where nothing is committed or the commit is
      refused, which is reported; if the session breaks on the commit that is reported, and every row is durable or
      lost. If anything is not good no row is made durable and no count is reported, and a failed row is the first
      with a negative SQLCODE. */
  ghost predicate Settled(s: Script, autoCommit: bool, closing: Closing,
                          result: BatchResult, kept: seq<nat>, pending: seq<nat>)
    requires s.Valid()
  {
    var n := |s.cards|;
    if AllGood(s) then
      && (forall i | 0 <= i < n :: s.encodes[i] && s.cards[i].sqlcode >= 0)
      && if !autoCommit || n == 0 then result == Counted(RowCounts(s.cards)) && kept == [] && pending == AllRows(n)
         else
           match closing
           case Accepted => result == Counted(RowCounts(s.cards)) && kept == AllRows(n) && pending == []
           case Refused => result == CommitFailed && kept == [] && pending == AllRows(n)
           case Broken(takesEffect, _) =>
             result == CutOff && kept == (if takesEffect then AllRows(n) else []) && pending == []
    else
      && kept == [] && !result.Counted? && !result.CommitFailed?
      && (result.RowFailed? ==>
            && result.row < n && s.cards[result.row].sqlcode == result.sqlcode < 0
            && (forall i | 0 <= i < result.row :: s.cards[i].sqlcode >= 0)
            && (autoCommit && !closing.Refused? ==> pending == []))
  }

  /** A batch that reaches the end of a count is a good one, and no other reports one. */
  lemma CountedIfGood(s: Script)
    requires s.Valid()
    ensures BatchFrom(s, 0).result.Counted? <==> AllGood(s)
    ensures !BatchFrom(s, 0).result.CommitFailed?
  {
    hide Total, ReadingOf, Answers, FirstUnencodable, FirstError, Applied, RowCounts, BatchFrom, Good;
    NoneBefore(s);
    BatchMeaning(s, 0);
    if AllGood(s) {
      EndsGood(s, 0);
    }
  }

  lemma {:induction false} EndsGood(s: Script, c: nat)
    requires s.Valid() && AllGood(s) && c * PIPELINE_CHUNK < |s.cards| + PIPELINE_CHUNK && GoodUpTo(s, c)
    ensures BatchFrom(s, c).result.Counted?
    decreases |s.cards| + PIPELINE_CHUNK - c * PIPELINE_CHUNK
  {
    hide Total, ReadingOf, Answers, FirstError, BatchFrom, FirstUnencodable;
    BatchStep(s, c);
    if c * PIPELINE_CHUNK < |s.cards| {
      assert Good(s, c);
      AllGoodRows(s, c + 1);
      FirstErrorIs(s.cards, ChunkEnd(c * PIPELINE_CHUNK, |s.cards|));
      EndsGood(s, c + 1);
    }
  }

  lemma {:induction false} SettledAtEnd(s: Script, autoCommit: bool, closing: Closing)
    requires s.Valid()
    ensures var end := BatchFrom(s, 0);
            Settled(s, autoCommit, closing, Outcome(end, |s.cards|, autoCommit, closing),
                    Kept(s.cards, end, autoCommit, closing),
                    if Closes(end, |s.cards|, autoCommit) && !closing.Refused? then []
                    else Applied(s.cards, 0, end.sent))
  {
    hide Total, ReadingOf, Answers, FirstUnencodable, FirstError, Applied, RowCounts, BatchFrom, Good, GoodUpTo,
         EncodesFrom, FaultOf;
    NoneBefore(s);
    BatchMeaning(s, 0);
    CountedIfGood(s);
  }

  /** A session that ends takes the pending rows with it, which changes nothing else that is settled. */
  lemma SessionLost(s: Script, autoCommit: bool, closing: Closing)
    requires s.Valid()
    ensures forall result: BatchResult, kept, pending ::
              Settled(s, autoCommit, closing, result, kept, pending) && result.EndsSession() ==>
                Settled(s, autoCommit, closing, result, kept, [])
  {
    hide AllGood, RowCounts;
  }

  /** Which errors end the session. */
  lemma {:induction false} SessionEnds(result: BatchResult)
    ensures result.EndsSession() <==>
            match result
            case RowFailed(_, sqlcode) => sqlcode == -502 || sqlcode == -514 || sqlcode == -518
            case ReplyFault(fatal) => fatal
            case CutOff => true
            case Counted(_) | NotEncodable(_) | CommitFailed => false
  {}

  function OneRow(card: Card): Script {
    Script([card], [[[SqlCard(card)]]], [true], None)
  }

  /** One good row under auto-commit is counted and durable. */
  lemma {:induction false} OneRowKept(rowCount: int)
    ensures var s := OneRow(Card(0, rowCount));
            && s.Valid()
            && Outcome(BatchFrom(s, 0), 1, true, Accepted) == Counted(rowCount)
            && Kept(s.cards, BatchFrom(s, 0), true, Accepted) == [0]
  {
    hide Total, FirstError, Applied, BatchFrom, AllGood;
    var card := Card(0, rowCount);
    OneRowGood(card);
    SettledAtEnd(OneRow(card), true, Accepted);
    assert [card][..0] == [] && RowCounts([card]) == rowCount;
    assert AllRows(1) == [0];
  }

  lemma OneRowGood(card: Card)
    requires !card.IsError()
    ensures OneRow(card).Valid() && AllGood(OneRow(card))
  {
    hide Answers, ReadingOf;
    OneCard(card);
    var s := OneRow(card);
    forall c | 0 <= c && c * PIPELINE_CHUNK < |s.cards|
      ensures c < |s.replies|
      ensures Answers(s.replies[c], s.cards[c * PIPELINE_CHUNK..ChunkEnd(c * PIPELINE_CHUNK, |s.cards|)])
    {
      assert c == 0 && s.cards[0..1] == s.cards;
    }
    forall c | 0 <= c && c * PIPELINE_CHUNK < |s.cards|
      ensures Good(s, c)
    {
      assert c == 0;
    }
  }

  lemma OneCard(card: Card)
    ensures var reply: Reply := [SqlCard(card)];
            && CardsOf(reply) == [card] && FaultIn(reply) == None
            && ReadingOf([reply], 1) == Reading(None, []) && Answers([reply], [card])
  {
    var reply: Reply := [SqlCard(card)];
    assert reply[..0] == [] && [reply][1..] == [] && [card][1..] == [];
  }

  // ---- How the answers to a chunk are read ----

  /** The cards in replies none of which has a fault. */
  function CardCount(replies: seq<Reply>): nat {
    if replies == [] then 0 else |CardsOf(replies[0])| + CardCount(replies[1..])
  }

  /** Replies are read as long as cards are missing: to the first fault, to the reply that brings the last card, or to
      the end of the stream, which is fatal. */
  lemma {:induction false} ReadingMeaning(before: seq<Reply>, next: Option<Reply>, after: seq<Reply>, wanted: nat)
    requires forall i | 0 <= i < |before| :: FaultIn(before[i]).None?
    requires CardCount(before) < wanted
    ensures next.None? ==> ReadingOf(before, wanted) == Reading(Some(true), [])
    ensures next.Some? && FaultIn(next.value).Some? ==>
              ReadingOf(before + [next.value] + after, wanted) == Reading(FaultIn(next.value), after)
    ensures next.Some? && FaultIn(next.value).None? && CardCount(before) + |CardsOf(next.value)| >= wanted ==>
              ReadingOf(before + [next.value] + after, wanted) == Reading(None, after)
  {
    hide FaultIn, CardsOf;
    if before == [] {
      if next.Some? {
        var all := before + [next.value] + after;
        assert all[0] == next.value && all[1..] == after;
      }
    } else {
      ReadingMeaning(before[1..], next, after, wanted - |CardsOf(before[0])|);
      if next.Some? {
        var all := before + [next.value] + after;
        assert all[0] == before[0] && all[1..] == before[1..] + [next.value] + after;
      }
    }
  }

  /** Of a reply the objects up to its first fault count: that fault, and the cards before it. */
  lemma {:induction false} ReplyMeaning(objects: Reply, fault: Option<bool>, after: Reply)
    requires forall i | 0 <= i < |objects| :: !objects[i].Fault?
    ensures fault.Some? ==>
              var reply := objects + [Fault(fault.value)] + after;
              FaultIn(reply) == fault && CardsOf(reply) == CardsOf(objects)
    ensures FaultIn(objects) == None
    ensures objects != [] ==>
              CardsOf(objects) == CardsOf(objects[..|objects| - 1])
                                  + match objects[|objects| - 1] case SqlCard(card) => [card] case _ => []
  {
    NoFaultIn(objects);
    if fault.Some? {
      var reply := objects + [Fault(fault.value)] + after;
      assert reply[..|objects|] == objects;
      FaultStops(reply, |objects|);
    }
    if objects != [] {
      NoFaultIn(objects[..|objects| - 1]);
    }
  }

  lemma {:induction false} NoFaultIn(objects: Reply)
    requires forall i | 0 <= i < |objects| :: !objects[i].Fault?
    ensures FaultIn(objects) == None
  {
    if objects != [] {
      NoFaultIn(objects[..|objects| - 1]);
    }
  }

  // ---- All or none ----

  /** Under auto-commit, unless the closing request is refused, rows stay behind neither committed
      nor rolled back exactly if the first chunk that is not good either has a row that does not encode,
      after a whole chunk, or is answered with a soft fault after some row has taken effect. */
  ghost predicate LeavesRowsBehind(s: Script)
    requires s.Valid()
  {
    exists c: nat :: c * PIPELINE_CHUNK < |s.cards| && GoodUpTo(s, c) && LeavesAt(s, c)
  }

  ghost predicate LeavesAt(s: Script, c: nat)
    requires s.Valid() && c * PIPELINE_CHUNK < |s.cards|
  {
    || (c > 0 && !EncodesFrom(s, c))
    || (EncodesFrom(s, c) && s.cut != Some(c) && FaultOf(s, c) == Some(false)
        && (c > 0 || exists i :: 0 <= i < ChunkEnd(0, |s.cards|) && !s.cards[i].IsError()))
  }

  lemma {:induction false} AppliedSome(cards: seq<Card>, m: nat)
    requires m <= |cards|
    ensures Applied(cards, 0, m) != [] <==> exists i :: 0 <= i < m && !cards[i].IsError()
  {
    if m > 0 {
      AppliedSome(cards, m - 1);
    }
  }

  /** The batch stops at the first chunk that is not good. */
  lemma {:induction false} StopsAt(s: Script, b: nat, c: nat)
    requires s.Valid() && b <= c && c * PIPELINE_CHUNK < |s.cards| && GoodUpTo(s, c)
    ensures BatchFrom(s, b) == BatchFrom(s, c)
    decreases c - b
  {
    hide Total, ReadingOf, Answers, FirstUnencodable, FirstError;
    if b < c {
      assert Good(s, b);
      AllGoodRows(s, c);
      FirstErrorIs(s.cards, ChunkEnd(b * PIPELINE_CHUNK, |s.cards|));
      StopsAt(s, b + 1, c);
    }
  }

  lemma LeavesAtExact(s: Script, c: nat)
    requires s.Valid() && c * PIPELINE_CHUNK < |s.cards| && GoodUpTo(s, c) && LeavesAt(s, c)
    ensures forall closing :: LeftPending(s, true, closing) != []
  {
    hide Total, ReadingOf, Answers, FirstUnencodable, FirstError, Applied;
    StopsAt(s, 0, c);
    AllGoodRows(s, c);
    var end := BatchFrom(s, c);
    AppliedSome(s.cards, end.sent);
    if c > 0 {
      assert 0 < end.sent && !s.cards[0].IsError();
    }
  }

  lemma AllOrNoneExact(s: Script, closing: Closing)
    requires s.Valid() && !closing.Refused?
    ensures LeftPending(s, true, closing) != [] <==> LeavesRowsBehind(s)
  {
    hide Total, ReadingOf, Answers, FirstUnencodable, FirstError, Applied, RowCounts, BatchFrom, GoodUpTo;
    NoneBefore(s);
    BatchMeaning(s, 0);
    var end := BatchFrom(s, 0);
    if LeftPending(s, true, closing) != [] {
      AppliedSome(s.cards, end.sent);
      match end.result
      case NotEncodable(row) =>
        var c := row / PIPELINE_CHUNK;
        assert !EncodesFrom(s, c);
        assert c * PIPELINE_CHUNK < |s.cards| && GoodUpTo(s, c) && LeavesAt(s, c);
      case ReplyFault(fatal) =>
        var c: nat :| c * PIPELINE_CHUNK < |s.cards| && GoodUpTo(s, c) && FaultsAt(s, c, fatal, end);
        assert LeavesAt(s, c);
      case _ =>
    }
    if LeavesRowsBehind(s) {
      var c: nat :| c * PIPELINE_CHUNK < |s.cards| && GoodUpTo(s, c) && LeavesAt(s, c);
      LeavesAtExact(s, c);
    }
  }

  lemma NoneBefore(s: Script)
    requires s.Valid()
    ensures GoodUpTo(s, 0)
  {}

  // ---- Two batches that leave rows behind ----

  function Cards(n: nat): seq<Card> {
    seq(n, i => Card(0, 1))
  }

  function CardReply(n: nat): Reply {
    seq(n, i => SqlCard(Card(0, 1)))
  }

  lemma {:induction false} CardReplyHas(n: nat)
    ensures CardsOf(CardReply(n)) == Cards(n) && FaultIn(CardReply(n)) == None
  {
    if n > 0 {
      CardReplyHas(n - 1);
      assert CardReply(n)[..n - 1] == CardReply(n - 1);
      assert Cards(n) == Cards(n - 1) + [Card(0, 1)];
    }
  }

  /** 501 rows, the first 500 answered well; `last` are the replies to the last one. */
  function Batch501(last: seq<Reply>, lastEncodes: bool): Script {
    Script(Cards(501), [[CardReply(500)], last], seq(501, i => i < 500 || lastEncodes), None)
  }

  lemma FirstChunkGood(last: seq<Reply>, lastEncodes: bool)
    requires Answers(last, Cards(1))
    ensures var s := Batch501(last, lastEncodes); s.Valid() && GoodUpTo(s, 1)
  {
    hide FaultIn, CardsOf;
    var s := Batch501(last, lastEncodes);
    CardReplyHas(500);
    assert s.cards[0..500] == Cards(500) && s.cards[500..501] == Cards(1);
    assert Cards(500)[500..] == [];
    assert Answers(s.replies[0], Cards(500));
    forall c | 0 <= c && c * PIPELINE_CHUNK < |s.cards|
      ensures c < |s.replies|
      ensures Answers(s.replies[c], s.cards[c * PIPELINE_CHUNK..ChunkEnd(c * PIPELINE_CHUNK, |s.cards|)])
    {
      assert c == 0 || c == 1;
    }
    assert s.Valid();
    assert ReadingOf(s.replies[0], 500) == Reading(None, []);
    assert Good(s, 0);
  }

  /** SQLERRRM in answer to the 501st row leaves the 500 rows before it pending, with the session
      up and, if the server sent more, replies unread. */
  lemma SoftFaultLeavesRows(more: seq<Reply>)
    ensures var s := Batch501([[Fault(false)]] + more, true);
            && s.Valid() && LeftPending(s, true, Accepted) == AllRows(501)
            && BatchFrom(s, 0).result == ReplyFault(false) && BatchFrom(s, 0).unread == more
  {
    hide Total, FirstError, Applied, Answers;
    var last := [[Fault(false)]] + more;
    FaultReply(more);
    FirstChunkGood(last, true);
    var s := Batch501(last, true);
    assert FaultOf(s, 1) == Some(false);
    StopsAt(s, 0, 1);
    AppliedWithoutError(s.cards, 501);
  }

  lemma FaultReply(more: seq<Reply>)
    ensures var last := [[Fault(false)]] + more;
            && Answers(last, Cards(1)) && ReadingOf(last, 1) == Reading(Some(false), more)
  {
    var last := [[Fault(false)]] + more;
    assert last[0] == [Fault(false)] && last[1..] == more;
    assert [Fault(false)][..0] == [];
  }

  /** So does a 501st row that does not encode. */
  lemma UnencodableLeavesRows()
    ensures var s := Batch501([CardReply(1)], false);
            s.Valid() && BatchFrom(s, 0).result == NotEncodable(500) && LeftPending(s, true, Accepted) == AllRows(500)
  {
    hide Total, FirstError, Applied, FaultIn, CardsOf;
    CardReplyHas(1);
    assert Cards(1)[1..] == [];
    FirstChunkGood([CardReply(1)], false);
    var s := Batch501([CardReply(1)], false);
    assert !s.encodes[500] && !EncodesFrom(s, 1);
    StopsAt(s, 0, 1);
    AppliedWithoutError(s.cards, 500);
    assert FirstUnencodable(s.encodes, 500, 501) == Some(500);
  }
}
