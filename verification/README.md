# A verified model of the DRDA client

This project models the Db2 driver's wire codec, its LOB materialisation, its parameter encoding,
its packed decimals, its session and transaction state and its SQL scanners, and proves what they
promise. `dafny verify dfyconfig.toml` checks all of it.

| files | what they model |
|---|---|
| `Wire`, `Arithmetic` | bytes, big-endian numbers, errors; facts about products and quotients |
| `Dss`, `DssReader`, `DssWire`, `Framing` | the DSS writer and reader (terms DSS, RQSDSS, RPYDSS and OBJDSS of The Open Group DRDA, Volume 3), their bytes in numerals, and reading a stream of which only part has arrived |
| `Ddm`, `DdmRoundTrip`, `DdmWire` | printing and parsing length-prefixed objects and their parameters |
| `OpenEnded` | open-ended objects through merging and parsing |
| `CodecTower`, `ReplyChain` | objects through writer, arbitrary delivery, reader and parser; reply chains off the transport |
| `LobChunks`, `LobPaths`, `LobSinglePass`, `LobPlans` | z/OS LOB columns fetched as grids of chunks, by base query plus grid and in a single pass; their plans in closed form |
| `SqldtaDescriptor`, `Sqldta`, `SqldtaRoundTrip`, `SqldtaWire` | the descriptor header in GDA and CPT triplets (FD:OCA Reference), row bytes, LOB placeholders, EXTDTA objects, and a reader of all of them that goes by the header it has read |
| `Extdta`, `ExtdtaLaws` | EXTDTA payloads put into pending result slots |
| `PackedDecimal`, `PackedDecimalLaws` | decimal text to packed decimal and back |
| `Session`, `SessionRuns` | client, statement and transaction objects, and every run of them |
| `SessionScripts` | what the script of a query says about its course |
| `SessionSections`, `SessionSafety` | who owns which section in every run; where requests go and when work is committed |
| `SessionLaws` | what a client has sent, and when it connects again, over its runs |
| `Batch` | batches in chunks, committed as one unit |
| `SqlScan`, `SqlSplit`, `SqlForms` | keyword search and projection splitting; literals, comments, keywords and blanks in numerals |
| `Identifiers`, `NameForms` | quoted and bare identifiers and table references |

How the model is built:

- Code that changes things step by step is a class or a method with loops, tied by its contract to
  a function; the laws are lemmas about those functions. Reading functions work on the unread
  suffix of the buffer.
- The network is a list of byte strings, one a read; an empty one is the end of the stream. A slice
  out of range, where the original panics, is the outcome `Panic` or `Crashed`.
- The z/OS server that answers chunk queries is a function of specs and rows. It may reply in any
  row order and pad short chunks in any way. Row numbers are taken to agree with the order of the
  base query; the initial reply of the single pass is taken to be in the order of its numbers.
- The four LOB tuning values are parameters; only the row limit has to be at least one.
- A session world consists of the client, the number of sessions so far, its handles and a log of
  the requests of queries, statements and transactions. Each step holds the client's lock. How an
  operation ends is part of the step, and so is what happens in the middle of a query: internal
  queries, a commit, a new session. The classes and the steps of the world are tied to the same
  functions.
- Section ownership, session safety and transaction isolation are not unconditional: each comes
  with the exact condition on a step, read off its script, and on a run (`SectionsOverRuns`,
  `RequestsOverRuns`, `AutoCommitOverRuns`, `CommitsOverRuns`) and with a run that breaks it
  (`LobRetryBreaks`, `RetryStrays`, `SecondBeginBreaks`, `PendingCleanupBreaks`). One hypothesis is
  left: a run has fewer than 2^64 sessions (`GenerationsComeRound`).
- Payloads of 32761 + k * 32765 bytes, k at least 1, do not read back: the last chunk is written
  with length 0x7FFF, which the reader takes to announce another. Round trips through the wire
  state that condition; `DssRoundTripExact` is both directions.
- A single-pass LOB select repeats the end of a value under the exact condition of
  `SinglePassExact`.
- A batch leaves earlier rows uncommitted and not rolled back when a later row does not encode or
  is answered with SQLERRRM; `AllOrNoneExact` is the exact condition.
- An inline parameter that declares 0x8000 or more reads like a placeholder, as the comment at
  crates/db2-client/src/connection.rs:6306-6308 says. Parameters arrive if and only if there is no
  such value (`ParametersArrive`); on LUW only one that is no LOB can be (`ExternalizedLegible`).
- Closing a client is meant to suppress reconnecting. Committing or rolling back a transaction that
  was open then fails with a connection error, and that resets the mark: `ShutOverRuns` is the exact
  condition, `ClosedReconnects` a run.
- Laws that fix constants and layouts are stated in numerals, next to the functions that name them.
- Open-ended objects, EXTDTA payloads and quoted names lose data on inputs that look like something
  else; `OpenEndedArrives`, `DeliveredExact`, `ApplyTwiceExact` and `QualifiedReadsBack` state when.
- The comment on `Transaction` says that dropping one only logs a warning; the code sends a
  rollback (crates/db2-client/src/transaction.rs:262-294), and the model follows the code.

## Model

| member | source | states |
|---|---|---|
| `Dss.HeaderRoundTrip` | crates/db2-proto/src/dss.rs:137-175 | Parsing a serialized segment header, whatever follows it, returns the header: length, type, all three flags and correlation id. |
| `DssWire.HeaderImage` | crates/db2-proto/src/dss.rs:161-175 | Every header is the bytes length/256, length%256, 0xD0, type 1 to 4 plus 0x40 if chained, 0x20 to continue on error and 0x10 for the same correlation, then the correlation id. |
| `DssWire.ParsedImage` | crates/db2-proto/src/dss.rs:137-159 | What any first six bytes are parsed to, field by field, 0xFFFF as 32767; fewer are too short, a third byte other than 0xD0 and a low nibble outside 1 to 4 are refused under their own value. |
| `DssWire.SegmentRead` | crates/db2-proto/src/dss.rs:382-506 | Any segment that is not continued is awaited, refused, a panic or a frame by its bytes alone; a malformed header behind it ends the reading with the error of that header. |
| `DssWire.ReplyRead` | crates/db2-proto/src/dss.rs:382-506 | The server bytes 00 0A D0 02 00 01 and four more are a Reply frame of these four, with correlation id 1. |
| `DssWire.FollowerImage` | crates/db2-proto/src/dss.rs:431-500 | A segment is merged exactly if its same-correlation bit is set, its type continues the first, it has arrived whole and is not continued, and it does not start like a DDM object (code point above 0x0100, length within the segment); what it adds and which chain bit it leaves. |
| `DssWire.ReadAllEnds` | crates/db2-proto/src/dss.rs:513-519 | Reading all frames goes on to where no whole frame is left, or fails with the first failure it comes to. |
| `DssWire.ShortImage` | crates/db2-proto/src/dss.rs:224-251 | Up to 32761 bytes go out behind one header that declares six more. |
| `DssWire.LongImage` | crates/db2-proto/src/dss.rs:252-281 | A longer payload goes out behind 0xFFFF: 32761 bytes, then chunks of 32765 behind 0xFFFF and a last one behind its length and two; each at its place, with the total length. |
| `Dss.DssWriter.WriteDssFull` | crates/db2-proto/src/dss.rs:224-281 | The buffer grows by exactly the framed payload: one segment up to 32761 bytes, otherwise a full first segment and continuation chunks. |
| `Dss.DssWriter.WriteContinuations` | crates/db2-proto/src/dss.rs:265-279 | The rest of a long payload goes out chunk by chunk, each behind its two-byte length, nothing lost or repeated. |
| `Dss.DssWriter.NextCorrelationId` | crates/db2-proto/src/dss.rs:217-220 | Correlation ids count up in 16 bits and wrap to zero. |
| `Dss.DssWriter.WriteRequestNextSameCorr` | crates/db2-proto/src/dss.rs:306-308 | A request chained to what follows it carries the same-correlation flag. |
| `Dss.DssWriter.WriteObjectSameCorr` | crates/db2-proto/src/dss.rs:300-302 | A data object chained with the same correlation carries that flag. |
| `DssReading.CompleteFrameLenFrom` | crates/db2-proto/src/dss.rs:531-564 | The scan finds the end of the first frame exactly if all of it, continuations included, has arrived. |
| `DssReading.ReadFrameProgress` | crates/db2-proto/src/dss.rs:382-506 | A frame takes at least six bytes and never more than there are; the reader waits exactly while no complete frame is buffered. |
| `DssReading.DssReader.NextFrame` | crates/db2-proto/src/dss.rs:382-506 | One call moves the position by the specified frame, merging same-correlation segments, or leaves it; malformed headers and undersized segments end it as in the code. |
| `DssReading.DssReader.TakeContinuations` | crates/db2-proto/src/dss.rs:402-424 | The continuation loop collects exactly the chunk payloads up to the frame end found before. |
| `DssReading.DssReader.TakeFollowers` | crates/db2-proto/src/dss.rs:431-500 | The merge loop appends exactly the segments that continue the frame, and leaves the chain bit of the last one. |
| `DssReading.DssReader.ReadAllFrames` | crates/db2-proto/src/dss.rs:513-519 | All complete frames are returned in order and the position ends behind the last one. |
| `DssReading.DssReader.IntoRemaining` | crates/db2-proto/src/dss.rs:522-528 | The bytes not read yet are handed back unchanged. |
| `Framing.ContinuationsReadBack` | crates/db2-proto/src/dss.rs:265-279 | Continuation chunks read back to their payload if the last one is not full; if it is, the reader goes on into whatever follows. |
| `Framing.EncodedUnit` | crates/db2-proto/src/dss.rs:224-281 | What the writer emits is one whole frame with the given header and payload exactly if the length is off the boundary residue. |
| `Framing.DssRoundTripExact` | crates/db2-proto/src/dss.rs:224-281 | Reading what was written returns payload, type, flags and correlation id if and only if the length is at most 32761 or not 32761 plus a multiple of 32765; otherwise the reader waits for more. |
| `Framing.BoundaryPayloadNeedsMore` | crates/db2-proto/src/dss.rs:269 | A payload of 65526 bytes is written with a last length of 0x7FFF and does not read back. |
| `Framing.UnitInStream` | crates/db2-proto/src/dss.rs:382-424 | A frame is read the same whatever follows it, and not at all before its last byte has arrived. |
| `Framing.MarkerDropped` | crates/db2-proto/src/dss.rs:482-497 | Behind an open-ended 0x8004 object the two-byte marker of a merged segment is dropped from the payload. |
| `Framing.DrainUnits` | crates/db2-proto/src/dss.rs:382-519 | Reading any prefix of a stream of frames yields the declared grouping of the complete ones and consumes exactly their bytes. |
| `Framing.FramesPayload` | crates/db2-proto/src/dss.rs:431-500 | Merging loses, repeats and reorders no payload byte. |
| `Framing.FramesChainBit` | crates/db2-proto/src/dss.rs:498-499 | The last frame carries the chain bit of the last segment merged into it. |
| `Framing.ReadAllUnits` | crates/db2-proto/src/dss.rs:513-528 | After reading what has arrived, what is left is what has arrived of the later frames. |
| `Ddm.AppendMarshaledObject` | crates/db2-proto/src/ddm.rs:221-242 | An object is printed with an inline length or a 4, 6 or 8 byte big-endian extended length. |
| `Ddm.DdmBuilder.AddCodePoint` | crates/db2-proto/src/ddm.rs:313-316 | Adding a parameter appends its printed form to what the builder holds. |
| `Ddm.DdmBuilder.Build` | crates/db2-proto/src/ddm.rs:347-351 | The built object is the printed form of the collected data under the code point of the builder. |
| `DdmWire.PrintedImage` | crates/db2-proto/src/ddm.rs:204-242 | The header of every printed object in numerals: inline up to 32767, otherwise 0x8008, 0x800A or 0x800C and the length of the data in 4, 6 or 8 bytes, most significant first. |
| `DdmWire.InlineParsed` | crates/db2-proto/src/ddm.rs:86-118 | What bytes with an inline length, or with 0x8004, are parsed to, errors included. |
| `DdmWire.ExtendedParsed` | crates/db2-proto/src/ddm.rs:164-202 | What bytes with any other length above 0x8000 are parsed to: header length, data length modulo 2^64, and each error. |
| `DdmWire.UnmarkedKept` | crates/db2-proto/src/ddm.rs:244-258 | Data of up to 32759 bytes, and data without 0x7FFE or 0x7FFF at byte 32757, is left as it is. |
| `DdmWire.MarkedStripped` | crates/db2-proto/src/ddm.rs:260-280 | Data with a marker there keeps its first 32757 bytes and goes on with the chunks behind. |
| `DdmWire.ChunkUnmarked` | crates/db2-proto/src/ddm.rs:264-277 | A chunk of up to 32764 bytes is kept without the marker in front of it. |
| `DdmWire.ChunkKept` | crates/db2-proto/src/ddm.rs:264-277 | So is a chunk that has no marker. |
| `DdmWire.ParsersAgree` | crates/db2-proto/src/ddm.rs:86-149 | Reading a nested parameter and reading an object agree on every byte string: the list of parameters ends exactly where parsing an object would fail. |
| `DdmWire.MalformedTail` | crates/db2-proto/src/ddm.rs:122-149 | Behind any printed objects malformed bytes make the object list an error, that of these bytes, and leave the parameters complete. |
| `Ddm.ComputeMarshaledLength` | crates/db2-proto/src/ddm.rs:164-202 | Inline, open-ended and extended lengths are told apart, truncated and impossible ones refused, and the accumulator wraps as 64-bit arithmetic does. |
| `Ddm.StripExtendedDdmContinuationMarkers` | crates/db2-proto/src/ddm.rs:244-280 | The two-byte markers of follow-on chunks of an open-ended object are removed chunk by chunk. |
| `Ddm.ParseObjectProgress` | crates/db2-proto/src/ddm.rs:86-118 | A parsed object takes at least four bytes and never more than there are. |
| `Ddm.ParseDdmObjects` | crates/db2-proto/src/ddm.rs:282-294 | The loop returns the list of objects in order, or the first error. |
| `Ddm.CollectParameters` | crates/db2-proto/src/ddm.rs:122-149 | The loop returns the nested parameters in order and stops at the first malformed one. |
| `DdmRoundTrip.ObjectRoundTrip` | crates/db2-proto/src/ddm.rs:86-118 | For every code point and payload, extended lengths included, parsing a printed object before any suffix returns it and its exact length. |
| `DdmRoundTrip.ObjectsRoundTrip` | crates/db2-proto/src/ddm.rs:282-294 | Objects printed end to end parse back in order, also with a stray tail of under four bytes. |
| `DdmRoundTrip.ParametersRoundTrip` | crates/db2-proto/src/ddm.rs:122-149 | The parameters of an object are exactly the list that was added. |
| `DdmRoundTrip.TreeRoundTrip` | crates/db2-proto/src/ddm.rs:86-149 | Building an object from parameters and parsing it back, then its parameters, is the identity. |
| `DdmRoundTrip.MarkersComeOff` | crates/db2-proto/src/ddm.rs:244-280 | Whichever marker each follow-on chunk carries, stripping recovers the data. |
| `DdmRoundTrip.OpenEndedRoundTrip` | crates/db2-proto/src/ddm.rs:86-118 | An open-ended object cut into marked chunks parses back to its data. |
| `OpenEnded.MarkersDropped` | crates/db2-proto/src/dss.rs:482-497 | A frame headed by an open-ended object takes in all its marked follow-on segments, each without its marker. |
| `OpenEnded.StripsNothing` | crates/db2-proto/src/ddm.rs:244-280 | Looking for markers in data that carries none changes it exactly if the data looks marked at byte 32757. |
| `OpenEnded.OpenEndedArrives` | crates/db2-proto/src/ddm.rs:86-118 | An open-ended object in any number of segments, merged by the reader and then parsed, gives its data back if and only if the data does not look marked there. |
| `OpenEnded.MarkerInData` | crates/db2-proto/src/ddm.rs:244-280 | Data with 0x7FFF at that place loses the two bytes. |
| `CodecTower.FeedReader` | crates/db2-proto/src/dss.rs:351-353 | Extending a reader by one piece after another and draining it each time is the piecewise reading of the specification. |
| `CodecTower.FramesParse` | crates/db2-proto/src/ddm.rs:282-294 | However messages were merged into frames, parsing the frames gives the objects that arrived, in order. |
| `CodecTower.CodecTowerRoundTrip` | crates/db2-proto/src/ddm.rs:282-294 | Any objects, framed with any types and flags and cut into any pieces, come out of reader and parser unchanged and in order, with nothing left over. |
| `ReplyChain.Connection.ReadBytes` | crates/db2-client/src/transport.rs:250-268 | One read appends its bytes; an empty read is the end of the stream. |
| `ReplyChain.Connection.ReadFrames` | crates/db2-client/src/connection.rs:209-250 | The two read loops return the frames, the leftover buffer and the reads not taken that the specification gives. |
| `ReplyChain.Connection.ReadReplyFrames` | crates/db2-client/src/connection.rs:257-265 | On a chain-reliable server reading goes on until the last frame has a clear chain bit; otherwise one round is read. |
| `ReplyChain.ReadFramesProgress` | crates/db2-client/src/connection.rs:209-250 | Every round of reading returns enough frames and uses up reads or buffered bytes, so the loop over rounds ends. |
| `ReplyChain.ReadFramesOfChain` | crates/db2-client/src/connection.rs:209-250 | In the middle of a chain one round returns at least one frame and stops at a frame boundary. |
| `ReplyChain.ReplyReadsNoFurther` | crates/db2-client/src/connection.rs:257-265 | Reads that are not needed for the chain are not taken. |
| `ReplyChain.ReplyChainConsumed` | crates/db2-client/src/connection.rs:209-265 | For every division of a reply chain into non-empty reads exactly those reads are taken, the buffer ends empty, and the frames carry the payload bytes of the chain. |
| `ReplyChain.FewestReads` | crates/db2-client/src/connection.rs:209-250 | A round takes the fewest reads that bring enough frames, and returns all frames they bring. |
| `ReplyChain.OneRound` | crates/db2-client/src/connection.rs:257-265 | Without reliable chain bits a reply is one round: the fewest reads that bring a frame, with all their frames, whatever the last chain bit says. |
| `ReplyChain.OpenChainCloses` | crates/db2-client/src/connection.rs:257-265 | A reliable chain whose last segment announces more is not returned: at the end of the stream the connection is closed. |
| `ReplyChain.StreamEnds` | crates/db2-client/src/connection.rs:209-250 | A stream that ends inside its first frame is a closed connection, with its bytes left in the buffer. |
| `ReplyChain.ReplyMalformed` | crates/db2-client/src/connection.rs:225-242 | Bytes that do not parse are the error of the reply. |
| `LobChunks.PlanChunks` | crates/db2-client/src/connection.rs:4713-4722 | A column is tiled from character 1 on into chunks of the limit, the last one cut to the maximum length. |
| `LobChunks.PlanCombined` | crates/db2-client/src/connection.rs:4724-4755 | The combined specs are the tilings of all LOB columns by their longest value, in column order. |
| `LobChunks.RowsPerBatch` | crates/db2-client/src/connection.rs:5054-5063 | A batch has at least one row, at most the limit, and more than one only if it fits the reply target; one row more would break the limit or the target. |
| `LobChunks.TakeWindow` | crates/db2-client/src/connection.rs:2059-2073 | A window is a non-empty stretch of specs within the window target and the row target unless it is a single spec, and with the next spec it would be beyond one of them. |
| `LobChunks.WindowApplies` | crates/db2-client/src/connection.rs:5076-5092 | A batch is queried exactly if some row of it reaches some chunk of the window. |
| `LobChunks.TrimmedChunk` | crates/db2-client/src/connection.rs:5287-5296 | Trimming a padded chunk to what remains of the LOB gives exactly the characters the chunk covers. |
| `LobChunks.AppendChunk` | crates/db2-client/src/connection.rs:5242-5268 | Only the addressed cell changes; a text grows by the trimmed chunk and a null cell becomes the chunk. |
| `LobChunks.AppendGridReply` | crates/db2-client/src/connection.rs:5149-5196 | Whatever order the reply rows come in, every row gets its own pieces and no other row changes. |
| `LobChunks.FetchWindow` | crates/db2-client/src/connection.rs:2075-2116 | Batches skipped or fetched, every row ends with its pieces of the window. |
| `LobChunks.FetchSpecs` | crates/db2-client/src/connection.rs:2049-2121 | All windows together append every chunk once per row and in order, whatever the tuning values. |
| `LobChunks.PiecesOfCombined` | crates/db2-client/src/connection.rs:4724-4755 | The pieces of the combined chunks of a column, put together, are the whole text. |
| `LobPlans.ColumnPlan` | crates/db2-client/src/connection.rs:4713-4755 | Chunk k of a CLOB column starts at character 16000 k + 1, of a DBCLOB column at 8000 k + 1, and has that many characters or what is left of the longest value; a scalar column has none. |
| `LobPlans.LongestIs` | crates/db2-client/src/connection.rs:4731-4739 | The length a column is planned for is that of its longest value. |
| `LobPaths.StartRows` | crates/db2-client/src/connection.rs:1845-1869 | Every non-null LOB starts as an empty text with its length noted, nulls and scalars as they are. |
| `LobPaths.FetchBaseAndGrid` | crates/db2-client/src/connection.rs:1837-1931 | On the base-plus-grid path every value equals the value at the server, LOBs whole, for all lengths, tuning values and reply orders. |
| `LobPaths.PlanInitial` | crates/db2-client/src/connection.rs:4757-4795 | The initial specs are full chunks taken column by column, round by round, until the window refuses one. |
| `LobPaths.FilterOut` | crates/db2-client/src/connection.rs:1995-1998 | Specs fetched initially are dropped by comparing all four fields. |
| `LobPlans.FullChunkBytes` | crates/db2-client/src/connection.rs:5043-5052 | A full chunk counts 16000 bytes: 16000 characters of a CLOB or 8000 of a DBCLOB. |
| `LobPlans.InitialPlan` | crates/db2-client/src/connection.rs:4757-4795 | The initial query has as many full chunks as fit both targets at 16000 bytes each, at least one; the k-th is for column k mod L of the L LOB columns, in round k div L. |
| `LobPlans.InitialCount` | crates/db2-client/src/connection.rs:4757-4795 | Of n initial chunks the j-th of L LOB columns has (n + L - 1 - j) div L. |
| `LobSinglePass.InitialRun` | crates/db2-client/src/connection.rs:4768-4793 | The initial specs of each column are its full chunks from the first one on, none missing. |
| `LobSinglePass.InitialPieces` | crates/db2-client/src/connection.rs:4768-4793 | The initial chunks of a column cover its text from the start without gap or overlap. |
| `LobSinglePass.RemainingPieces` | crates/db2-client/src/connection.rs:1995-1998 | What is fetched afterwards starts behind the initial chunks, or again at the short last chunk if that lies among them. |
| `LobSinglePass.FetchSinglePass` | crates/db2-client/src/connection.rs:1966-2047 | The single pass runs exactly if a row limit is known and fits one batch; its result is the source with, in the case above, everything from the short last chunk on repeated. |
| `LobSinglePass.SinglePassExact` | crates/db2-client/src/connection.rs:1966-2047 | A value differs from its source if and only if the last chunk of its column lies within the initial specs, the maximum length is no multiple of the limit, and the row reaches that chunk. |
| `LobPlans.SinglePassAppliesExact` | crates/db2-client/src/connection.rs:1972-1981 | The single pass is taken exactly for a known row limit within the batch limit that is at most one or keeps that many times 16000 n bytes within the batch target. |
| `LobPlans.SinglePassDiffers` | crates/db2-client/src/connection.rs:1966-2047 | Which values differ from their source, from the longest value of the column and the tuning values alone. |
| `LobSinglePass.ShortLobTwice` | crates/db2-client/src/connection.rs:1997 | With the default tuning one row of one short CLOB is enough: ab comes out as abab. |
| `LobSinglePass.ExecuteChunked` | crates/db2-client/src/connection.rs:1806-1835 | The chunked select applies if there is a LOB column; every value is the single-pass value if that pass applies and the source value otherwise, and differs from its source exactly under the condition above. |
| `SqldtaDescriptor.BuildPrefix` | crates/db2-client/src/connection.rs:6446-6501 | The descriptor header is a GDA triplet of at most 84 entries, CPT triplets for the rest and the row layout, or a refusal if its length does not fit. |
| `SqldtaDescriptor.TripletReadsBack` | crates/db2-client/src/connection.rs:6460-6475 | The length of every triplet fits its one byte and covers its head and entries exactly. |
| `SqldtaDescriptor.PrefixRoundTrip` | crates/db2-client/src/connection.rs:6446-6501 | For every number of parameters the header reads back to the declared types and lengths; its leading length is its byte count. |
| `SqldtaDescriptor.GroupReadsBack` | crates/db2-client/src/connection.rs:6446-6501 | The triplets, empty or not, read back to the declared entries. |
| `SqldtaDescriptor.AcceptedCount` | crates/db2-client/src/connection.rs:6488-6494 | The builder accepts exactly 21584 parameters and fewer. |
| `Sqldta.BuildRowData` | crates/db2-client/src/connection.rs:6990-7038 | The loop yields the specified row bytes and EXTDTA objects or the first error, null indicators and placeholders included. |
| `Sqldta.BuildSqldta` | crates/db2-client/src/connection.rs:6338-6410 | SQLDTA holds the header and an FDODTA object with the row; a wrong parameter count or too many parameters are refused. Placeholders declare 0x8000 and their width. |
| `Sqldta.WriteSqldta` | crates/db2-client/src/connection.rs:6325-6335 | SQLDTA and EXTDTA go out as one chain, all but the last with the same-correlation flag and chain bit. |
| `Sqldta.ExternalizeLobInputs` | crates/db2-client/src/connection.rs:6416-6444 | In place, and not for z/OS: every LOB longer than 0x7FFF and every XML parameter is turned into a nine-byte reference. |
| `SqldtaWire.DeclaredImage` | crates/db2-client/src/connection.rs:6466-6473 | A referenced value declares 0x8000 and the width of its placeholder, any other its own length. |
| `SqldtaWire.ExternalizedImage` | crates/db2-client/src/connection.rs:6416-6444 | On LUW such a parameter declares 0x8009 and type 0xC8, 0xCC or 0xCE, one more if nullable; every other one what it was. |
| `SqldtaWire.ExternalizedLegible` | crates/db2-client/src/connection.rs:6306-6310 | So on LUW a parameter can be told apart by its declared length exactly if it is null, a LOB, XML, or declares at most 0x7FFF. |
| `SqldtaWire.InlineLongClob` | crates/db2-client/src/connection.rs:6420-6422 | On z/OS a CLOB that declares 0xFFFF goes out inline and cannot. |
| `SqldtaWire.RefusedParam` | crates/db2-client/src/connection.rs:7073-7155 | Which values a parameter refuses and as what: nulls, other kinds, integers outside 16, 32 or 64 bits, strings of 65536 units and more, and decimals. |
| `SqldtaWire.FirstRefused` | crates/db2-client/src/connection.rs:6998-7012 | Of several refused parameters the first is reported, under its own number. |
| `SqldtaWire.BuildRefusals` | crates/db2-client/src/connection.rs:6348-6394 | A wrong count comes first, then more than 21584 parameters, then the first refused one; all else is built. |
| `SqldtaWire.ChainFlags` | crates/db2-client/src/connection.rs:6325-6335 | Every object of the chain but the last is framed with 0x53, the last with 0x43 or 0x03, under one correlation id. |
| `SqldtaRoundTrip.ValueReadsBack` | crates/db2-client/src/connection.rs:7073-7155 | Every integer, varying string and decimal is read back from its encoding, leaving what follows. |
| `SqldtaRoundTrip.LobReadsBack` | crates/db2-client/src/connection.rs:7013-7034 | A placeholder declares the length of its LOB; an empty one is complete, any other is found in the next EXTDTA object. |
| `SqldtaRoundTrip.RowReadsBack` | crates/db2-client/src/connection.rs:6990-7038 | A reader that tells placeholders from inline values by the declared lengths alone, 0x8000 and up, recovers every parameter from row bytes and EXTDTA, using both up, if and only if every inline non-null parameter declares less than 0x8000; decimals come back truncated to scale. |
| `SqldtaRoundTrip.ParamsMisread` | crates/db2-client/src/connection.rs:6306-6310 | A parameter that is taken for a placeholder is not recovered, whatever its bytes and those of the others are. |
| `SqldtaRoundTrip.ExtdtaInOrder` | crates/db2-client/src/connection.rs:7013-7034 | The EXTDTA objects are one for one and in order the externalized, non-null, non-empty parameters. |
| `SqldtaRoundTrip.SqldtaReadsBack` | crates/db2-client/src/connection.rs:6338-6410 | The declared types and lengths survive the SQLDTA object, and read by them all parameters, under exactly that condition. |
| `SqldtaRoundTrip.ChainArrives` | crates/db2-client/src/connection.rs:6325-6335 | The objects of a chain arrive in order however its bytes are cut up. |
| `SqldtaRoundTrip.ParametersArrive` | crates/db2-client/src/connection.rs:6325-6410 | From parameters through builder, writer, any division into pieces, reader and parser back to the parameters, read by the header that arrived, under exactly that condition. |
| `Extdta.ApplyExtdtaPayloads` | crates/db2-client/src/connection.rs:7954-8008 | The in-place loop with its early return leaves every row in the specified state. |
| `Extdta.ApplyToRow` | crates/db2-client/src/connection.rs:7965-8006 | The slots of one row take the next payloads in column order; the rest is untouched. |
| `Extdta.Row.constructor` | crates/db2-client/src/row.rs:37-47 | A row keeps the list of pending columns only if it is tracked. |
| `Extdta.Row.MarkExtdtaMaterialized` | crates/db2-client/src/row.rs:55-59 | A filled column is no longer pending; other columns and untracked rows are unaffected. |
| `Extdta.NoSlotsNoChange` | crates/db2-client/src/connection.rs:8010-8025 | Once nothing is pending, applying further payloads changes nothing, whatever the values look like. |
| `ExtdtaLaws.FillRowMeaning` | crates/db2-client/src/connection.rs:7965-8006 | In a row the k-th slot receives the k-th payload and stops being pending, nothing else changes, and the unused payloads go on. |
| `ExtdtaLaws.KthSlotKthPayload` | crates/db2-client/src/connection.rs:7954-8008 | In row-major order the k-th pending slot receives the k-th payload and nothing else changes. |
| `ExtdtaLaws.ApplyTwiceExact` | crates/db2-client/src/connection.rs:7954-8008 | For given rows and a first list of payloads, applying a second list afterwards equals applying both at once, for every second list, if and only if no slot of an untracked row that the first list fills is given a value that looks like a reference. |
| `ExtdtaLaws.ApplyTwice` | crates/db2-client/src/connection.rs:7954-8008 | The law itself, for any two lists, off that condition. |
| `ExtdtaLaws.RowReopensMeaning` | crates/db2-client/src/connection.rs:8054-8061 | A row has a slot pending again exactly if one of the payloads it takes makes a value that looks like a reference. |
| `ExtdtaLaws.TrackedApplyTwice` | crates/db2-client/src/row.rs:49-59 | On tracked rows that law holds without condition. |
| `ExtdtaLaws.DeliveredExact` | crates/db2-client/src/connection.rs:8063-8071 | A bare payload delivers the bytes sent if and only if neither they nor, in a nullable column, they behind their indicator start with their own length. |
| `ExtdtaLaws.WrappedDelivered` | crates/db2-client/src/connection.rs:8063-8071 | In an FDODTA object of its own a value arrives unless the column is nullable and the bytes start with their own length. |
| `ExtdtaLaws.IndicatorTakenForLength` | crates/db2-client/src/connection.rs:8063-8071 | The nullable BLOB 00 00 01 09 loses three bytes. |
| `ExtdtaLaws.IndicatorByte` | crates/db2-client/src/connection.rs:8063-8071 | Of a payload that is not wrapped the first byte is an indicator only in a nullable column and only if it is 00 or FF. |
| `ExtdtaLaws.PayloadKinds` | crates/db2-client/src/connection.rs:7981-8003 | BLOB columns become a Blob, XML an Xml, and CLOB, DBCLOB, their locators, LobChar and character columns of 32768 and more a Clob. |
| `ExtdtaLaws.WaitingColumns` | crates/db2-client/src/connection.rs:8042-8061 | Which columns wait for a payload: externalized types that are listed as pending or, without a list, hold a four-byte Blob or a text that starts with LOB locator 0x. |
| `ExtdtaLaws.StillPending` | crates/db2-client/src/connection.rs:8010-8025 | Slots stay pending exactly if there were fewer payloads than slots. |
| `ExtdtaLaws.UntrackedAppliesTwice` | crates/db2-client/src/connection.rs:8054-8061 | Without tracking a four-byte BLOB is taken for a reference again and overwritten. |
| `PackedDecimal.EncodePackedDecimal` | crates/db2-proto/src/types.rs:469-512 | The encoder yields the canonical bytes of the truncated number of units, or one of the three refusals, each exactly when the specification says. |
| `PackedDecimal.DecodePackedDecimal` | crates/db2-proto/src/types.rs:405-464 | The decoder loops yield the specified text for any bytes at all. |
| `PackedDecimal.StrippedLength` | crates/db2-proto/src/types.rs:487-492 | A number without leading zeros has more than k digits exactly if it is at least 10^k. |
| `PackedDecimal.CollectedDigits` | crates/db2-proto/src/types.rs:493-500 | The digits collected denote the literal cut or padded to scale places, truncated toward zero. |
| `PackedDecimalLaws.DecodeCanonical` | crates/db2-proto/src/types.rs:405-464 | Decoding canonical bytes gives the sign, the numeral without leading zeros and exactly scale places, for every scale. |
| `PackedDecimalLaws.DecodeDigits` | crates/db2-proto/src/types.rs:405-464 | Bytes whose nibbles but the last are digits decode to the number they spell, negative exactly if the last nibble is D, for every sign nibble and every scale. |
| `PackedDecimalLaws.NegativeExact` | crates/db2-proto/src/types.rs:420-438 | For all non-empty bytes there is a text, and it starts with a minus sign exactly if the last byte mod 16 is D. |
| `PackedDecimalLaws.UnsignedIsPositive` | crates/db2-proto/src/types.rs:404-421 | 12 3F is 123, and 12 3D with one place is -12.3. |
| `PackedDecimalLaws.AnyNibbles` | crates/db2-proto/src/types.rs:425-427 | A nibble that is no digit is written as the character with code 48 and its value. |
| `PackedDecimalLaws.LiteralExact` | crates/db2-proto/src/types.rs:473-486 | A text is taken for a number exactly if it is blanks, at most one sign, digits with at most one dot, and blanks; and for which. |
| `PackedDecimalLaws.Refusals` | crates/db2-proto/src/types.rs:470-492 | Precision outside 1 to 31 or scale beyond it, then no literal, then an integer part of too many digits: the three refusals, in this order. |
| `PackedDecimalLaws.EncodeThenDecode` | crates/db2-proto/src/types.rs:405-512 | Encoding succeeds exactly for a valid precision and scale, a literal of digits and an integer part below 10^(precision-scale); decoding then gives the value truncated toward zero with its sign. |
| `PackedDecimalLaws.RenderedUnits` | crates/db2-proto/src/types.rs:430-464 | The decoded text stands for the number it was made from: sign, integer part and units. |
| `PackedDecimalLaws.EncodeRendered` | crates/db2-proto/src/types.rs:469-512 | Encoding a decoded number succeeds exactly if it fits the precision and gives its canonical bytes. |
| `PackedDecimalLaws.DecodeThenEncode` | crates/db2-proto/src/types.rs:405-512 | On canonical bytes encoding after decoding is the identity. |
| `PackedDecimalLaws.DecodeInjective` | crates/db2-proto/src/types.rs:405-464 | Canonical values that decode alike are the same bytes. |
| `Session.ClientInner.AllocatePreparedSection` | crates/db2-client/src/connection.rs:163-179 | The last freed section is reused, otherwise the next new one up to 385, otherwise refused. |
| `Session.ClientInner.AllocateZosCachedSelectSection` | crates/db2-client/src/connection.rs:181-188 | The retry loop never returns section 1 and ends within two rounds. |
| `Session.ClientInner.ReleasePreparedSection` | crates/db2-client/src/connection.rs:190-197 | Section 0, sections above 385 and sections already free are ignored. |
| `Session.ClientInner.ResetSessionState` | crates/db2-client/src/connection.rs:404-423 | A reset disconnects, restores auto-commit and forgets all sections and cached selects, but not the generation. |
| `Session.ClientInner.EstablishSession` | crates/db2-client/src/connection.rs:630-783 | A session starts with fresh sections under the next 64-bit generation, skipping zero; a failure after connecting resets it again. |
| `Session.ClientInner.FinalizeOperation` | crates/db2-client/src/connection.rs:434-467 | Fatal errors and timeouts reset the session, other errors leave it alone. |
| `Session.ClientInner.PrepareSection` | crates/db2-client/src/connection.rs:3707-3785 | A section is kept only by a prepare that succeeds. |
| `Session.ClientInner.AskServer` | crates/db2-client/src/connection.rs:2235-2285 | An internal query on a section of its own gives it back; one that times out resets the session. |
| `Session.ClientInner.RunMiddlePart` | crates/db2-client/src/connection.rs:2122-2285 | Further requests, an RDBCMM under auto-commit, renewals of the session and the hang-up after LOBs happen in order, up to the end of the session, and are accounted for. |
| `Session.ClientInner.RunSelect` | crates/db2-client/src/connection.rs:909-1255 | A z/OS select ignores, evicts, opens, keeps or drops its cache entry as planned, whether or not the session is renewed in its middle. |
| `Session.ClientInner.RunSelectAnew` | crates/db2-client/src/connection.rs:1016-1255 | A select prepared anew takes a section for the cache or for itself, and remembers it or gives it back to the session it then has. |
| `Session.ClientInner.EndUnitOfWork` | crates/db2-client/src/connection.rs:3443-3504 | Commit and rollback restore auto-commit only if they succeed. |
| `Session.ClientInner.BeginTransaction` | crates/db2-client/src/connection.rs:3788-3802 | Beginning reconnects if needed, turns auto-commit off and remembers the generation. |
| `Session.ClientInner.Close` | crates/db2-client/src/connection.rs:3805-3838 | Closing disconnects, forgets sections and cached selects, restores auto-commit and suppresses reconnecting. |
| `Session.PreparedStatement.Execute` | crates/db2-client/src/statement.rs:53-212 | Nothing is sent for a closed statement, another session or no connection. Under auto-commit a change has exactly one RDBCMM, rows one if LOBs are cleaned up, a CALL or batch its own number; otherwise there is none. The client stays connected unless the work hangs up, fails fatally or times out. |
| `Session.PreparedStatement.Close` | crates/db2-client/src/statement.rs:277-325 | A section is given back only to the session it came from. |
| `Session.Transaction.Query` | crates/db2-client/src/transaction.rs:35-73 | A finished or stale transaction is refused; any other query runs its whole course, new sessions begun in it included. |
| `Session.Transaction.Prepare` | crates/db2-client/src/transaction.rs:82-190 | Preparing through a transaction is refused or keeps its section just as a direct prepare does. |
| `Session.Transaction.Commit` | crates/db2-client/src/transaction.rs:193-216 | Committing succeeds only on the live session of the transaction and turns auto-commit on again; without a connection it resets the client. |
| `Session.Transaction.Rollback` | crates/db2-client/src/transaction.rs:220-243 | Rolling back succeeds only on the live session of the transaction and turns auto-commit on again. |
| `Session.Transaction.Cleanup` | crates/db2-client/src/transaction.rs:262-294 | A dropped transaction is rolled back only on its own live session and only while auto-commit is off. |
| `SessionRuns.QueryKeeps` | crates/db2-client/src/connection.rs:785-1330 | Unless it begins a new session a query leaves auto-commit and generation alone, and it sends an RDBCMM only under auto-commit. |
| `SessionRuns.StaysInSession` | crates/db2-client/src/connection.rs:785-1330 | A query that does not renew the session sends everything to the session it started in. |
| `SessionRuns.QueryCounts` | crates/db2-client/src/connection.rs:731-734 | The generation advances once for every session begun within a query. |
| `SessionRuns.NumberedStep` | crates/db2-client/src/connection.rs:731-734 | Every step keeps client and handles numbered by the session they belong to. |
| `SessionScripts.QueryFollows` | crates/db2-client/src/connection.rs:909-1255 | Whatever becomes of its sections, a query sends the requests and begins the sessions of its script. |
| `SessionScripts.MiddleUp` | crates/db2-client/src/connection.rs:2122-2285 | A script leaves the session up exactly if nothing in it ends the session, and leaves it the same exactly if nothing renews it. |
| `SessionScripts.SendsLaterExact` | crates/db2-client/src/connection.rs:2235-2285 | A query sends to a session begun in it if and only if its script has a request after a renewal that succeeded and before the session ends. |
| `SessionScripts.CommitsEarlyExact` | crates/db2-client/src/connection.rs:3136-3141 | A query commits in the session it starts in if and only if that is in auto-commit and its script has an RDBCMM before it renews or ends the session. |
| `SessionScripts.UpExact` | crates/db2-client/src/connection.rs:434-467 | After a query the session is up if and only if neither script nor outcome ends it. |
| `SessionRuns.SameGeneration` | crates/db2-client/src/connection.rs:731-734 | Two sessions have the same generation exactly if they are the same or a multiple of 2^64 - 1 apart. |
| `SessionRuns.GenerationsComeRound` | crates/db2-client/src/connection.rs:731-734 | After 2^64 - 1 further sessions a stale handle would pass the check. |
| `SessionSections.TidyAllocateCached` | crates/db2-client/src/connection.rs:181-188 | Allocating a cached-select section keeps every section accounted for but at most section 1. |
| `SessionSections.ForeignSettles` | crates/db2-client/src/connection.rs:1161-1251 | In a renewed session, remembering a section of the old one is always wrong, and releasing it is right exactly if the new session has given that number out already. |
| `SessionSections.MiddleRenewed` | crates/db2-client/src/connection.rs:2147-2285 | After the last renewal in a query the session has given out no section, or section 2 and taken it back, exactly as an internal query on a section of its own followed or not. |
| `SessionSections.SelectExact` | crates/db2-client/src/connection.rs:909-1255 | A select that ends connected accounts for all sections if and only if it settles well by its script: it has no section of its own, or got it after the last renewal, or gives back section 2 without remembering it, after a dedicated internal query has used that number in the new session. |
| `SessionSections.MissClosed` | crates/db2-client/src/connection.rs:1016-1255 | For a select not served from the cache the condition on its course and the one on its script agree. |
| `SessionSections.HitClosed` | crates/db2-client/src/connection.rs:922-1014 | So they do for a cache hit, where the dropped section is the one allocated next. |
| `SessionSections.QuietSettles` | crates/db2-client/src/connection.rs:909-1255 | A select that does not renew the session settles well. |
| `SessionSections.RenewedSettles` | crates/db2-client/src/connection.rs:2147-2148 | A select that renews the session, with no dedicated internal query after that, settles well if and only if it runs on the shared section. |
| `SessionSections.OwnedStep` | crates/db2-client/src/connection.rs:163-197 | A step keeps section ownership if and only if it is no select that does not settle well by its script, with nothing that ends the session in script or outcome. |
| `SessionSections.SectionsOverRuns` | crates/db2-client/src/connection.rs:163-197 | In every run sections 1 to next-1 are at all times, while connected, the disjoint union of free, live-statement and cached-select sections and at most the discarded section 1, if and only if no step of the run is such a select. |
| `SessionSections.SectionsExhausted` | crates/db2-client/src/connection.rs:168-174 | Allocation fails only if sections 2 to 385 are all held by statements or cached selects. |
| `SessionSections.LobRetryBreaks` | crates/db2-client/src/connection.rs:2147-2148 | A run with such a select makes the new session give the same section out twice. |
| `SessionSafety.FaithfulStep` | crates/db2-client/src/transaction.rs:35-73 | A step sends every request to the session of its handle if and only if it is no query through a transaction whose script asks for a request after renewing the session. |
| `SessionSafety.RequestsOverRuns` | crates/db2-client/src/connection.rs:2235-2285 | In every run all requests for statements and transactions reach the session that created the handle, if and only if no step is such a query. |
| `SessionSafety.StatementsOverRuns` | crates/db2-client/src/statement.rs:58-67 | Requests for prepared statements do so in every run, without condition. |
| `SessionSafety.QuietStays` | crates/db2-client/src/transaction.rs:35-73 | Only a query that renews the session strays. |
| `SessionSafety.RetryStrays` | crates/db2-client/src/connection.rs:2147-2148 | A run in which a transaction sends its chunk queries to another session, in auto-commit. |
| `SessionSafety.OffStep` | crates/db2-client/src/connection.rs:3443-3504 | A step keeps auto-commit off under the open transactions of the live session if and only if it does not end one well, or clean one up, beside another. |
| `SessionSafety.AutoCommitOverRuns` | crates/db2-client/src/connection.rs:3788-3802 | In every run auto-commit is at all times off while a transaction of the live session is open, if and only if no step ends or cleans up one beside another. |
| `SessionSafety.CleanStep` | crates/db2-client/src/connection.rs:3443-3474 | A step sends no RDBCMM to the session of an open transaction if and only if it neither commits another one there nor, in auto-commit, has an RDBCMM in its script before the session is renewed or ends. |
| `SessionSafety.CommitsOverRuns` | crates/db2-client/src/transaction.rs:193-216 | In every run no RDBCMM but its own reaches the session of an open transaction, if and only if no step commits beside one. |
| `SessionSafety.OffLeavesCommits` | crates/db2-client/src/connection.rs:3443-3474 | While auto-commit is off under open transactions, only the commit of another transaction can do so. |
| `SessionSafety.TransactionsOverRuns` | crates/db2-client/src/transaction.rs:43-51 | Runs that begin transactions one at a time keep both. |
| `SessionSafety.SecondBeginBreaks` | crates/db2-client/src/connection.rs:3788-3802 | A second transaction begun beside the first is auto-committed once the first has committed. |
| `SessionSafety.PendingCleanupBreaks` | crates/db2-client/src/transaction.rs:262-294 | The pending cleanup of a dropped transaction rolls back the one begun after it. |
| `SessionLaws.ExecuteSends` | crates/db2-client/src/statement.rs:166-189 | What executing a statement adds to the log: its request to the live session and, right behind it, the RDBCMMs that are due to the same session; nothing if it is refused or not encoded. |
| `SessionLaws.CommitsFollow` | crates/db2-client/src/statement.rs:175-182 | In every run every execution that is due RDBCMMs has them in the log behind its request, and they stay there. |
| `SessionLaws.ChangeIsCommitted` | crates/db2-client/src/statement.rs:175-182 | In particular a change executed under auto-commit is committed. |
| `SessionLaws.EndSends` | crates/db2-client/src/transaction.rs:193-252 | A commit sends an RDBCMM and a rollback an RDBRLLBCK exactly if the transaction is active, of the session of the client, and connected. |
| `SessionLaws.CleanUpSends` | crates/db2-client/src/transaction.rs:262-294 | The cleanup of a dropped transaction sends an RDBRLLBCK exactly if auto-commit is still off besides. |
| `SessionLaws.EndedTransaction` | crates/db2-client/src/transaction.rs:193-252 | A transaction ended well is committed or rolled back, with auto-commit on again; any other active one is left to its cleanup, and one that is not active is left alone. |
| `SessionLaws.DroppedTransaction` | crates/db2-client/src/transaction.rs:262-294 | A dropped transaction is left to its cleanup, which runs once. |
| `SessionLaws.ClosedStatement` | crates/db2-client/src/statement.rs:277-325 | A statement is closed, or released after being dropped, once, and its section goes back exactly to its own session. |
| `SessionLaws.PreparedHandle` | crates/db2-client/src/connection.rs:163-179 | Preparing adds a handle of the live session exactly if it succeeds and a section is left: the one freed last, or else the next. |
| `SessionLaws.FirstConnection` | crates/db2-client/src/connection.rs:722-745 | A new client connects only when told to; its first session is generation 1, in auto-commit, with all sections to give out. |
| `SessionLaws.ShutStep` | crates/db2-client/src/connection.rs:400-432 | A step of a closed client sends nothing and begins no session unless it is told to connect; it stays closed exactly if the step does not commit or roll back an active transaction of its last session. |
| `SessionLaws.ShutOverRuns` | crates/db2-client/src/connection.rs:3805-3838 | Over every run: it stays closed throughout if and only if no step does that. |
| `SessionLaws.ClosedReconnects` | crates/db2-client/src/connection.rs:453-467 | A run in which a closed client connects again unasked after a failed commit. |
| `SessionLaws.Reconnecting` | crates/db2-client/src/connection.rs:425-432 | An operation of the client itself begins a session exactly if the client was connected once, is not now, was not closed, and the handshake gets through. |
| `SessionLaws.ReleasedIsNext` | crates/db2-client/src/connection.rs:163-197 | Releasing a section and allocating gives that section and the client as it was. |
| `SessionLaws.FreshSections` | crates/db2-client/src/connection.rs:163-179 | A fresh session gives out 1, 2, 3 and so on up to 385. |
| `SessionLaws.CacheOverRuns` | crates/db2-client/src/connection.rs:1016-1022 | In every run at most 64 selects are cached. |
| `SessionLaws.StoredSelect` | crates/db2-client/src/connection.rs:1228-1240 | A select stored in the cache is afterwards served from its section, with nothing given out or given back. |
| `SessionLaws.StoredOnlyIf` | crates/db2-client/src/connection.rs:1016-1022 | A select is newly in the cache only if it is storable, consulted the cache, was not denied, found room and succeeded. |
| `Batch.TakeReply` | crates/db2-client/src/connection.rs:2494-2533 | The cards of a reply are counted for their rows in order, the first error is kept, and the first fault ends the reading. |
| `Batch.ReadCards` | crates/db2-client/src/connection.rs:2489-2533 | However the cards are spread over replies, all replies to a chunk are read and nothing more; a fault leaves the replies behind it unread. |
| `Batch.SendChunks` | crates/db2-client/src/connection.rs:2466-2540 | Chunk by chunk the rows go out and their answers are read, up to the first chunk that does not encode, is cut off, has a fault or a failed row. |
| `Batch.ExecuteBatchWithParams` | crates/db2-client/src/connection.rs:2446-2561 | The batch reports the specified result and leaves rows durable, rolled back or pending as specified, however the closing commit or rollback ends; what that means is said by `Settled`, without the specification. |
| `Batch.ExecuteBatch` | crates/db2-client/src/statement.rs:214-272 | Timeouts, fatal faults and SQLCODEs of a stale session end the session and with it the pending work; every other error leaves it up. |
| `Batch.SettledAtEnd` | crates/db2-client/src/connection.rs:2540-2551 | If all chunks are good, every row is durable after an accepted commit and the count is reported; pending, and no count reported, after a refused one; durable or lost if the session breaks on it. Otherwise nothing is made durable and no count is reported, and a failed row is the first with a negative SQLCODE. |
| `Batch.CountedIfGood` | crates/db2-client/src/connection.rs:2466-2540 | A count is reported exactly if every chunk encodes, is answered in time and without fault, and has no failed row. |
| `Batch.OneRowKept` | crates/db2-client/src/connection.rs:2549-2551 | One good row under auto-commit is counted and durable. |
| `Batch.SessionEnds` | crates/db2-client/src/connection.rs:453-467 | The session ends on a timeout, on a fatal fault, and on SQLCODE -502, -514 or -518 of a row. |
| `Batch.ReadingMeaning` | crates/db2-client/src/connection.rs:2489-2533 | Replies to a chunk are read as long as cards are missing: to the first fault, to the reply with the last card, or to the end of the stream, which is fatal. |
| `Batch.ReplyMeaning` | crates/db2-client/src/connection.rs:2494-2533 | Of one reply the objects up to its first fault count. |
| `Batch.BatchMeaning` | crates/db2-client/src/connection.rs:2466-2551 | A reported row is the least failing one and nothing after its chunk was sent; a count means every row took effect and is the sum of the row counts; a fault or a cut is that of the first chunk that is not good. |
| `Batch.AllOrNoneExact` | crates/db2-client/src/connection.rs:2479-2498 | Under auto-commit, unless the closing request is refused, rows stay behind uncommitted if and only if the first chunk that is not good has a row that does not encode, after a whole chunk, or is answered with SQLERRRM after some row took effect. |
| `Batch.SoftFaultLeavesRows` | crates/db2-client/src/connection.rs:2497-2499 | SQLERRRM in answer to the 501st row leaves all rows pending and later replies unread. |
| `Batch.UnencodableLeavesRows` | crates/db2-client/src/connection.rs:2479 | A 501st row that does not encode leaves the 500 before it pending. |
| `SqlScan.SkipInside` | crates/db2-client/src/connection.rs:4203-4240 | A move inside a literal or comment follows the lexical state, doubled quotes and comment ends included. |
| `SqlScan.FindKeywordOutsideLiterals` | crates/db2-client/src/connection.rs:4167-4245 | The result is the first keyword position outside literals and comments, or there is none. |
| `SqlScan.FindTopLevelKeyword` | crates/db2-client/src/connection.rs:4247-4345 | The result is the first, or the last, keyword position at the top level from the start on, or there is none. |
| `SqlScan.ThroughKeyword` | crates/db2-client/src/connection.rs:4290-4296 | Skipping the bytes of a keyword skips no other hit and changes no state. |
| `SqlForms.LiteralSkipped` | crates/db2-client/src/connection.rs:4203-4225 | From an apostrophe (39) or quotation mark (34) of the code to the next one that is not doubled nothing is code, and behind it the state is as before. |
| `SqlForms.LineCommentSkipped` | crates/db2-client/src/connection.rs:4226-4231 | So from two dashes to the line feed. |
| `SqlForms.BlockCommentSkipped` | crates/db2-client/src/connection.rs:4232-4240 | So from slash and star through the first star and slash. |
| `SqlForms.CodePassed` | crates/db2-client/src/connection.rs:4277-4339 | Any other byte of the code is passed; parentheses are counted, but not below none. |
| `SqlForms.KeywordForm` | crates/db2-client/src/connection.rs:4347-4372 | A keyword is where its letters are, in any case, with none of letters, digits and _ $ # @ on either side. |
| `SqlSplit.SplitTopLevelSelectItems` | crates/db2-client/src/connection.rs:3987-4071 | The items are the trimmed non-blank stretches between exactly the top-level commas. |
| `SqlSplit.SegmentsJoin` | crates/db2-client/src/connection.rs:3987-4071 | Joining the stretches with commas gives the projection back. |
| `SqlSplit.JoinSplits` | crates/db2-client/src/connection.rs:3987-4071 | Closed items joined by commas split back into exactly those items. |
| `SqlForms.PlainItems` | crates/db2-client/src/connection.rs:3987-4071 | Items without delimiters, commas (44) between them, are the stretches found. |
| `SqlForms.InnerComma` | crates/db2-client/src/connection.rs:3987-4071 | A comma in parentheses, a literal or a comment cuts nothing. |
| `SqlForms.OuterComma` | crates/db2-client/src/connection.rs:3987-4071 | One at depth 0 does. |
| `SqlForms.BlankInFront` | crates/db2-client/src/connection.rs:4064 | Exactly the 25 characters with the property White_Space are trimmed in front of a UTF-8 text. |
| `SqlForms.BlankBehind` | crates/db2-client/src/connection.rs:4064 | And exactly they at its end. |
| `SqlForms.TextTrimmed` | crates/db2-client/src/connection.rs:4064 | Trimming takes off exactly the blanks around a text that neither begins nor ends with one. |
| `SqlForms.OneItem` | crates/db2-client/src/connection.rs:4064-4067 | A stretch is an item, trimmed, unless it is blank. |
| `SqlSplit.SameLex` | crates/db2-client/src/connection.rs:3987-4071 | Texts that differ only in non-delimiter bytes inside literals and comments have the same lexical state everywhere. |
| `SqlSplit.ScansAgree` | crates/db2-client/src/connection.rs:4167-4345 | Such texts have the same keyword hits and the same cuts. |
| `SqlSplit.RestartAgrees` | crates/db2-client/src/connection.rs:3980-3985 | A scan restarted at a top-level position agrees with the whole scan from there on. |
| `SqlSplit.TopLevelSelectProjection` | crates/db2-client/src/connection.rs:3980-3985 | The projection lies between the first top-level SELECT and the first top-level FROM after it, judged in the whole text. |
| `Identifiers.ParseQuotedIdentifier` | crates/db2-client/src/connection.rs:4119-4135 | The loop undoubles quotes up to the closing one; an unclosed identifier is refused. |
| `Identifiers.ConsumeIdentifierPart` | crates/db2-client/src/connection.rs:5906-5936 | The end of a quoted or plain identifier part is found. |
| `Identifiers.SplitTableRefParts` | crates/db2-client/src/connection.rs:5996-6037 | The loop yields the trimmed dot-separated parts, or nothing if one is empty. |
| `Identifiers.QuotedReadsBack` | crates/db2-client/src/connection.rs:4119-4135 | A quoted name followed by anything parses back to the name if and only if no further quote follows. |
| `Identifiers.PartEndsAtQuote` | crates/db2-client/src/connection.rs:5906-5936 | The identifier part ends exactly at the closing quote if and only if no further quote follows. |
| `Identifiers.ParsedIsQuoted` | crates/db2-client/src/connection.rs:6302-6304 | Conversely, whatever parses is the quoted form of what it parses to, up to where the identifier part ends. |
| `Identifiers.QualifiedSplits` | crates/db2-client/src/connection.rs:5996-6037 | Quoted names joined by dots come out one for one, trimmed, whatever quotes and dots they contain. |
| `Identifiers.QualifiedReadsBack` | crates/db2-client/src/connection.rs:5996-6037 | Quoted, dot-joined names are recovered if and only if all are ASCII and none is empty or has outer blanks. |
| `Identifiers.OnlyAsciiKept` | crates/db2-client/src/connection.rs:6015 | A name that comes out of its trimmed bytes is ASCII. |
| `Identifiers.NonAsciiIsBrokenUp` | crates/db2-client/src/connection.rs:6015 | A name outside ASCII comes back as one character per byte. |
| `NameForms.WrittenSplits` | crates/db2-client/src/connection.rs:5996-6037 | Quoted and bare names with dots (46) between them come apart into these names, each trimmed; refused exactly if one is then empty. |
| `NameForms.TrimForm` | crates/db2-client/src/connection.rs:6020-6029 | Trimming takes the bytes 9 to 13, 32, 133 and 160 off both ends, and no others. |
| `NameForms.BarePartEnds` | crates/db2-client/src/connection.rs:5923-5933 | A bare part is a letter or underscore and all letters, digits and _ @ # $ behind it. |
| `NameForms.NoPart` | crates/db2-client/src/connection.rs:5906-5936 | There is no part at the end of a text or before any other byte but a quotation mark. |

## Left out

- Sockets, TLS, timeouts as such, the async runtime: reads arrive as given pieces, and a timeout is one outcome of an operation. Cancelling a future from outside the client is not modelled.
- Authentication, key exchange and code pages: text is its bytes, and EBCDIC conversion and UTF-16 are not modelled.
- Decoding of rows and of SQLCARD and SQLDARD replies: rows, lengths and cards are inputs, so malformed length texts of LOB queries are not modelled.
- The JavaScript binding, the pool, environment switches and diagnostics.
- The timed drains and content-sniffed EXTDTA matching of the z/OS cursor code.
- Building of SQL text: the chunk queries stand for their meaning, and the limit on statement length is not modelled.
- Floating point, DECFLOAT, fixed-length strings, dates and Booleans as parameters, and the inference and rewriting of parameter descriptors but for LOBs: descriptors are given. Each adds a case, not a law.
- Conversions between kinds of parameter values, such as an integer given as text: a value of another kind is refused.
- Numbers inside error messages: errors are told apart by kind.
- Sqldta.BuildRowData: fixed-length strings, floats, dates and conversions between kinds of values are not modelled, because each adds a case and no law.
- Sqldta.BuildSqldta: descriptors are given; their inference and their rewriting for text values are not modelled. Placeholders of another width than nine, which no input descriptor has, are outside `SqldtaRoundTrip.ParametersArrive`.
- Establishing a session sends an RDBCMM of its own, before any handle of that session exists; the log leaves it out.
- Batch.ExecuteBatch: a timeout while a chunk is still being sent counts as one in its answers; either way the session and its pending rows are gone.
- Row counts of a batch are added without the 64-bit bound.
- Framing.DssRoundTripExact: segments that declare fewer bytes than their own header are outside what the writer emits; reading them is `Panic`.
- ReplyChain.ReplyChainConsumed: frames headed by an open-ended 0x8004 object are excluded, because the reader drops the markers of the segments merged behind them (`Framing.MarkerDropped`).
- LobPaths.FetchBaseAndGrid: lengths count characters as the server's LENGTH does; servers that count bytes of mixed text are not modelled.
- LobSinglePass.FetchSinglePass: initial replies whose rows are out of order are not modelled.
- SqldtaRoundTrip.RowReadsBack: string bytes are assumed to be whole code units, as UTF-16 text always is.
- SqldtaRoundTrip.ParametersArrive: the reader knows kind and nullability of every parameter from its preparation; types are declared but not decoded.
- Extdta.ApplyExtdtaPayloads: text values are the bytes they are decoded from; lossy decoding is not modelled.
