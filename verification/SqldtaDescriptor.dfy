/** The descriptor header of SQLDTA: GDA and CPT triplets of the FD:OCA Reference (connection.rs). */
module SqldtaDescriptor {
  import opened Wire

  const FDODTA_HEADER_ID: U16 := 0x0010
  const TRIPLET_TYPE_GDA: Byte := 0x76
  const TRIPLET_TYPE_CPT: Byte := 0x7F
  const TRIPLET_TYPE_RLO: Byte := 0x71
  const GDA_PREFIX: Byte := 0xD0
  const MAX_ENTRIES_PER_TRIPLET: nat := 84

  /** The type and length a parameter is declared with. */
  datatype Entry = Entry(drdaType: Byte, length: U16)

  function RowLayout(): Bytes {
    [0x06, TRIPLET_TYPE_RLO, 0xE4, 0xD0, 0x00, 0x01]
  }

  // ---- Building ----

  function EntryBytes(entries: seq<Entry>): (b: Bytes)
    ensures |b| == 3 * |entries|
  {
    if entries == [] then []
    else [entries[0].drdaType] + U16ToBytes(entries[0].length) + EntryBytes(entries[1..])
  }

  function TripletHead(entries: nat, first: bool): Bytes
    requires entries <= MAX_ENTRIES_PER_TRIPLET
  {
    [3 + entries * 3] + if first then [TRIPLET_TYPE_GDA, GDA_PREFIX] else [TRIPLET_TYPE_CPT, 0x00]
  }

  function ChunkSize(entries: nat): nat {
    if entries < MAX_ENTRIES_PER_TRIPLET then entries else MAX_ENTRIES_PER_TRIPLET
  }

  /** A group in one triplet of at most 84 entries, continued in further ones. */
  function Triplets(entries: seq<Entry>, first: bool): Bytes {
    if entries == [] then []
    else
      var n := ChunkSize(|entries|);
      TripletHead(n, first) + EntryBytes(entries[..n]) + Triplets(entries[n..], false)
  }

  function Group(entries: seq<Entry>): Bytes {
    if entries == [] then TripletHead(0, true) else Triplets(entries, true)
  }

  /** The whole header, if its length fits the leading two bytes. */
  function Prefix(entries: seq<Entry>): Option<Bytes> {
    var length := 4 + |Group(entries)| + |RowLayout()|;
    if length > 0xFFFF then None
    else Some(U16ToBytes(length) + U16ToBytes(FDODTA_HEADER_ID) + Group(entries) + RowLayout())
  }

  /** The triplets for the entries from `at` on complete `gda` to `goal`. */
  ghost predicate Builds(gda: Bytes, entries: seq<Entry>, at: nat, goal: Bytes) {
    at <= |entries| && gda + Triplets(entries[at..], at == 0) == goal
  }

  lemma BuildsNext(gda: Bytes, entries: seq<Entry>, at: nat, next: nat, goal: Bytes)
    requires at < |entries| && Builds(gda, entries, at, goal) && next == at + ChunkSize(|entries| - at)
    ensures Builds(gda + TripletHead(next - at, at == 0) + EntryBytes(entries[at..next]), entries, next, goal)
  {
    var rest := entries[at..];
    assert rest[..next - at] == entries[at..next] && rest[next - at..] == entries[next..];
    var head, body := TripletHead(next - at, at == 0), EntryBytes(entries[at..next]);
    var tail := Triplets(entries[next..], false);
    assert gda + (head + body + tail) == gda + head + body + tail;
  }

  lemma {:induction false} EntryBytesSnoc(entries: seq<Entry>, last: Entry)
    ensures EntryBytes(entries + [last]) == EntryBytes(entries) + [last.drdaType] + U16ToBytes(last.length)
  {
    hide U16ToBytes;
    if entries == [] {
      assert entries + [last] == [last] && [last][1..] == [];
      assert EntryBytes([last]) == [last.drdaType] + U16ToBytes(last.length) + EntryBytes([]);
      assert [last.drdaType] + U16ToBytes(last.length) + [] == [last.drdaType] + U16ToBytes(last.length);
      assert [] + [last.drdaType] == [last.drdaType];
    } else {
      assert (entries + [last])[1..] == entries[1..] + [last];
      EntryBytesSnoc(entries[1..], last);
    }
  }

  method BuildPrefix(entries: seq<Entry>) returns (prefix: Option<Bytes>)
    ensures prefix == Prefix(entries)
  {
    hide U16ToBytes, Triplets, EntryBytes, TripletHead;
    var gda: Bytes := [];
    var at := 0;
    assert entries[0..] == entries && [] + Triplets(entries, true) == Triplets(entries, true);
    while at < |entries|
      invariant Builds(gda, entries, at, Triplets(entries, true))
    {
      var next := at + ChunkSize(|entries| - at);
      BuildsNext(gda, entries, at, next, Triplets(entries, true));
      ghost var before := gda + TripletHead(next - at, at == 0);
      gda := gda + TripletHead(next - at, at == 0);
      assert gda + [] == gda && entries[at..at] == [];
      NoEntryBytes();
      for i := at to next
        invariant gda == before + EntryBytes(entries[at..i])
      {
        assert entries[at..i + 1] == entries[at..i] + [entries[i]];
        EntryBytesSnoc(entries[at..i], entries[i]);
        ghost var was := EntryBytes(entries[at..i]);
        assert before + (was + [entries[i].drdaType] + U16ToBytes(entries[i].length))
            == before + was + [entries[i].drdaType] + U16ToBytes(entries[i].length);
        gda := gda + [entries[i].drdaType];
        gda := gda + U16ToBytes(entries[i].length);
      }
      at := next;
    }
    NoTriplets();
    assert entries[at..] == [] && gda + [] == gda;
    if entries == [] {
      assert [] + TripletHead(0, true) == TripletHead(0, true);
      gda := gda + TripletHead(0, true);
    }
    assert gda == Group(entries);
    var prefixLen := 4 + |gda| + |RowLayout()|;
    if prefixLen > 0xFFFF {
      return None;
    }
    var out: Bytes := U16ToBytes(prefixLen);
    out := out + U16ToBytes(FDODTA_HEADER_ID);
    out := out + gda;
    out := out + RowLayout();
    return Some(out);
  }

  lemma NoEntryBytes()
    ensures EntryBytes([]) == []
  {}

  lemma NoTriplets()
    ensures Triplets([], false) == [] && Triplets([], true) == []
  {}

  // ---- Reading it back ----

  function ReadEntries(b: Bytes): seq<Entry> {
    if |b| < 3 then [] else [Entry(b[0], U16At(b, 1))] + ReadEntries(b[3..])
  }

  datatype ReadGroup = ReadGroup(entries: seq<Entry>, rest: Bytes)

  /** Triplets up to the row layout: a GDA first, then CPTs, each of its own stated length. */
  function ReadTriplets(b: Bytes, first: bool): Option<ReadGroup>
    decreases |b|
  {
    if |b| < 3 || b[0] < 3 || |b| < b[0] as int then None
    else if b[1] == (if first then 0x76 else 0x7F) && b[2] == (if first then 0xD0 else 0x00) then
      match ReadTriplets(b[b[0]..], false)
      case None => None
      case Some(more) => Some(ReadGroup(ReadEntries(b[3..b[0]]) + more.entries, more.rest))
    else if !first && |b| >= 6 && b[..6] == [0x06, 0x71, 0xE4, 0xD0, 0x00, 0x01] then Some(ReadGroup([], b[6..]))
    else None
  }

  /** The declared entries and what follows the header; none if it is malformed or its leading
      length is not its own. */
  function ReadPrefix(b: Bytes): Option<ReadGroup> {
    if |b| < 4 || U16At(b, 2) != 0x0010 then None
    else
      match ReadTriplets(b[4..], true)
      case None => None
      case Some(group) => if |group.rest| <= |b| && U16At(b, 0) == |b| - |group.rest| then Some(group) else None
  }

  lemma {:induction false} EntriesReadBack(entries: seq<Entry>)
    ensures ReadEntries(EntryBytes(entries)) == entries
  {
    if entries != [] {
      var b := EntryBytes(entries);
      assert b[3..] == EntryBytes(entries[1..]);
      EntriesReadBack(entries[1..]);
    }
  }

  /** Every triplet's length fits its one byte and covers exactly its head and entries. */
  lemma {:induction false} TripletReadsBack(entries: seq<Entry>, first: bool, tail: Bytes)
    requires |entries| <= MAX_ENTRIES_PER_TRIPLET
    ensures var b := TripletHead(|entries|, first) + EntryBytes(entries) + tail;
            && 3 + 3 * |entries| <= 255 && |b| == 3 + 3 * |entries| + |tail|
            && ReadTriplets(b, first)
               == match ReadTriplets(tail, false)
                  case None => None
                  case Some(more) => Some(ReadGroup(entries + more.entries, more.rest))
  {
    var b := TripletHead(|entries|, first) + EntryBytes(entries) + tail;
    assert b[3..b[0]] == EntryBytes(entries) && b[b[0]..] == tail;
    EntriesReadBack(entries);
    hide ReadEntries, EntryBytes;
  }

  lemma LayoutEnds(rest: Bytes)
    ensures ReadTriplets(RowLayout() + rest, false) == Some(ReadGroup([], rest))
  {}

  lemma {:induction false} TripletsReadBack(entries: seq<Entry>, first: bool, rest: Bytes)
    requires entries != [] || !first
    ensures ReadTriplets(Triplets(entries, first) + RowLayout() + rest, first) == Some(ReadGroup(entries, rest))
    decreases |entries|
  {
    hide ReadTriplets, EntryBytes;
    if entries == [] {
      LayoutEnds(rest);
      assert [] + RowLayout() + rest == RowLayout() + rest;
    } else {
      var n := ChunkSize(|entries|);
      var tail := Triplets(entries[n..], false) + RowLayout() + rest;
      TripletsReadBack(entries[n..], false, rest);
      TripletReadsBack(entries[..n], first, tail);
      assert Triplets(entries, first) + RowLayout() + rest == TripletHead(n, first) + EntryBytes(entries[..n]) + tail;
      assert entries[..n] + entries[n..] == entries;
    }
  }

  lemma EmptyGroupReadsBack(rest: Bytes)
    ensures ReadTriplets(Group([]) + RowLayout() + rest, true) == Some(ReadGroup([], rest))
  {
    hide ReadTriplets, Triplets;
    TripletReadsBack([], true, RowLayout() + rest);
    LayoutEnds(rest);
    NoEntryBytes();
    assert Group([]) + RowLayout() + rest == TripletHead(0, true) + EntryBytes([]) + (RowLayout() + rest);
    var none: seq<Entry> := [];
    assert none + [] == none;
  }

  lemma GroupReadsBack(entries: seq<Entry>, rest: Bytes)
    ensures ReadTriplets(Group(entries) + RowLayout() + rest, true) == Some(ReadGroup(entries, rest))
  {
    hide ReadTriplets, Triplets;
    if entries == [] {
      EmptyGroupReadsBack(rest);
    } else {
      TripletsReadBack(entries, true, rest);
    }
  }

  lemma HeaderBytes(length: U16, body: Bytes)
    ensures var b := U16ToBytes(length) + U16ToBytes(FDODTA_HEADER_ID) + body;
            |b| == 4 + |body| && U16At(b, 0) == length && U16At(b, 2) == FDODTA_HEADER_ID && b[4..] == body
  {}

  /** For every number of parameters the header reads back to the declared types and lengths,
      whatever follows it; its leading length is its own byte count. */
  lemma PrefixRoundTrip(entries: seq<Entry>, rest: Bytes)
    requires Prefix(entries).Some?
    ensures var b := Prefix(entries).value + rest;
            && U16At(b, 0) == |Prefix(entries).value|
            && ReadPrefix(b) == Some(ReadGroup(entries, rest))
  {
    hide Group, RowLayout, ReadTriplets, U16At, U16ToBytes;
    var length := 4 + |Group(entries)| + |RowLayout()|;
    var body := Group(entries) + RowLayout() + rest;
    var b := Prefix(entries).value + rest;
    HeaderBytes(length, body);
    HeaderBytes(length, Group(entries) + RowLayout());
    GroupReadsBack(entries, rest);
    assert b == U16ToBytes(length) + U16ToBytes(FDODTA_HEADER_ID) + body;
    assert Prefix(entries).value == U16ToBytes(length) + U16ToBytes(FDODTA_HEADER_ID) + (Group(entries) + RowLayout());
  }

  lemma {:induction false} TripletsSize(entries: seq<Entry>, first: bool)
    ensures |Triplets(entries, first)|
         == 3 * |entries| + 3 * ((|entries| + MAX_ENTRIES_PER_TRIPLET - 1) / MAX_ENTRIES_PER_TRIPLET)
    decreases |entries|
  {
    if entries != [] {
      TripletsSize(entries[ChunkSize(|entries|)..], false);
    }
  }

  /** The builder accepts exactly 21584 parameters and fewer. */
  lemma AcceptedCount(entries: seq<Entry>)
    ensures Prefix(entries).Some? <==> |entries| <= 21_584
  {
    TripletsSize(entries, true);
    hide Triplets;
  }
}
