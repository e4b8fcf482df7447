# OpenCDC verification

A Dafny model of the parts of OpenCDC where bytes, state and interleaving meet, with proofs of what
those parts promise. `dafny verify dfyconfig.toml` checks all of it.

| Part | Modules |
|---|---|
| pgoutput decoder, relation cache and replication streamer | `PgMessages`, `PgParse`, `PgFieldRoundTrip`, `PgRoundTrip`, `PgDecoder`, `PgCuts`, `PgFaults`, `PgValues`, `PgStreamer`, `PgDelivery` |
| write-ahead log positions: snapshot, streaming, resume | `Lsn`, `Numerals` |
| MySQL binlog: framing, event walk, table maps, rows, values, event loop | `MysqlColumns`, `MysqlValueFacts`, `MysqlRows`, `MysqlRowFacts`, `MysqlCells`, `MysqlRowRoundTrip`, `MysqlEvents`, `MysqlClient`, `MysqlEventFacts`, `MysqlBodies`, `MysqlCuts`, `MysqlStream`, `MysqlDelivery` |
| pipeline: transforms, bounded channel, fan-out, running flag | `Transforms`, `Pipelines`, `PipelineFacts`, `ChannelPhase`, `RunPhases` |
| schema evolution | `Schemas`, `Evolution`, `EvolutionFacts` |
| Debezium and Arrow schemas | `Schemas`, `ArrowBridge`, `ArrowFacts` |
| shared state of the MCP server | `AppStates`, `CounterFacts`, `StateFacts` |
| common ground | `Wrappers`, `Bits`, `ChangeEvents` |

The code that changes state is modelled as classes and loops whose contracts equate the new state
with a function of the old one; the properties are lemmas about those functions. Cursor readers are
total: an error is `Fail`, and an index or slice out of range, a shift by the width of the word or
an overflow is `Panic`. Sockets are byte sequences, a connector call is the events it sends and how
it returns, a sink is a log with an arbitrary rule for refusing writes, and the iteration order of a
hash map is an arbitrary order of its keys.

## What the code does that its documentation does not say

Each of these is proved, with the exact condition where there is one.

- The relation cache answers with the first announcement of an oid, not the latest
  (`PgDelivery.CacheIsLatestIffNeverRedefined`, `PgDelivery.RedefinitionIsStale`).
- A resume position is printed in decimal and read in hexadecimal, so streaming resumes at the
  snapshot only below ten in both halves (`Lsn.ResumesAtSnapshotIffSmall`).
- Negative MySQL integers come out unsigned, as the table map carries no meta for them and no meta
  helps a 32-bit one (`MysqlValueFacts.TinySign`, `MysqlValueFacts.ShortSign`,
  `MysqlValueFacts.LongSign`), and the second of a DATETIME2 is taken from the wrong
  bits (`MysqlValueFacts.DateTime2SecondExact`).
- Row events can make the parser panic: in a build with overflow checks, which no profile of the
  repository turns on for release, on a BIT column of more than eight bytes; in any build, for
  updates, on a truncated blob length prefix of more than one byte; and in no other layouts
  (`MysqlRowFacts.RowsPanicIffWideBits`, `MysqlRowFacts.UpdatePanicsIffWide`).
- A replication message that is cut off is an error or a panic, depending on the field the cut falls
  into (`PgCuts.CutMessage`). Binlog data that is cut off is mostly no error: it is misread as null,
  zero or nothing, or is a panic (`MysqlCells.CellCut`, and the lemmas of `MysqlCuts`).
- JSON, ENUM and SET columns of MySQL come out as null, and the bytes they hold are misread as what
  stands behind them (`MysqlCells.NoWidthReadAsNull`).
- A 64-bit Arrow time in seconds becomes text, and a Debezium time or timestamp in milliseconds comes
  back from Arrow in microseconds (`ArrowFacts.NamesFromArrow`, `ArrowFacts.TypeSurvivesIff`).
- The content of a LONG_BLOB is lost unless it is empty, and the bytes behind it are misread
  (`MysqlCells.LongBlobReadIffEmpty`, `MysqlCells.LongBlobSplitsRow`).
- A packet's later events are dropped once one was returned (`MysqlEventFacts.WalkReturnsFirst`),
  and a packet whose first time ends in two zero bytes is skipped
  (`MysqlDelivery.SkippedIffZeroTime`, `MysqlDelivery.ReadIffTimeNonZero`).
- A phase of more than 1024 events never ends, as nothing is received before the connector call
  returns (`ChannelPhase.PhaseEnds`).
- Under the Fail policy an absent `optional` against an explicit false is refused
  (`EvolutionFacts.SilentNullabilityChange`).
- A snapshot task that finishes after a shutdown sets its connector running again
  (`CounterFacts.ShutdownLastsIff`), and two snapshots of one connector can be on their way at once,
  exactly when one was checked while another was (`CounterFacts.StaysExclusiveIff`); the code's own
  check does not keep that from happening (`CounterFacts.TwoChecksBeforeABegin`,
  `CounterFacts.ShutdownReopensTheCheck`).

## Model

| member | source | states |
|---|---|---|
| PgRoundTrip.ParseExactlyEncodings | crates/opencdc-connector/src/postgres/decoder.rs:93-456 | the parser accepts a message at a cursor, with a given end, exactly when the bytes between are that message's encoding and the message is well formed: both directions, for all seven kinds |
| PgRoundTrip.DecodeOfEncode | crates/opencdc-connector/src/postgres/decoder.rs:93-133 | an encoded message followed by any tail parses to itself and takes exactly the encoded length |
| PgRoundTrip.DecodeDependsOnConsumed | crates/opencdc-connector/src/postgres/decoder.rs:93-133 | a result depends on no byte behind the ones it reports as taken |
| PgDecoder.ReadString | crates/opencdc-connector/src/postgres/decoder.rs:448-456 | the loop stops at the first NUL or at the end of the data |
| PgDecoder.DecodeTupleData | crates/opencdc-connector/src/postgres/decoder.rs:355-414 | the loop yields the columns the parser of the format yields, and the same error where it fails |
| PgDecoder.PgOutputDecoder.Decode | crates/opencdc-connector/src/postgres/decoder.rs:93-133 | the result is that of the pure parser, and the cache grows by the relation announced, if any |
| PgDecoder.PgOutputDecoder.GetRelation | crates/opencdc-connector/src/postgres/decoder.rs:89-91 | the first announcement of the oid, or nothing |
| PgDecoder.PgOutputDecoder.DecodeUpdate | crates/opencdc-connector/src/postgres/decoder.rs:229-300 | the new tuple, or an old tuple of either marker and then the new one; every other marker is an error |
| PgDecoder.PgOutputDecoder.DecodeRelation | crates/opencdc-connector/src/postgres/decoder.rs:168-200 | oid, names and columns; the replica identity is read as two bytes and dropped |
| PgDecoder.DecodingOfEncoding | crates/opencdc-connector/src/postgres/decoder.rs:93-133 | decoding bytes that start with an encoding yields its message |
| PgFaults.WrongMarker | crates/opencdc-connector/src/postgres/decoder.rs:202-333 | in an insert, update or delete, a first tuple marker the message cannot have is an error that names it |
| PgFaults.WrongSecondMarker | crates/opencdc-connector/src/postgres/decoder.rs:229-300 | behind the old tuple of an update any byte but the marker of the new one is an error that names both markers |
| PgFaults.FaultyColumn | crates/opencdc-connector/src/postgres/decoder.rs:355-414 | the first column of unknown kind or negative length, behind any number of good columns, is the error of the message |
| PgCuts.CutMessage | crates/opencdc-connector/src/postgres/decoder.rs:93-456 | every well-formed message cut off anywhere behind its type byte: the decoder returns the error of the field the cut falls into when that field is checked (a tuple marker, a column kind, a value), and panics exactly when it is not |
| PgCuts.CutChunk | crates/opencdc-connector/src/postgres/replication.rs:78-151 | the streamer then stops, with nothing sent and nothing remembered of the message |
| PgStreamer.ColumnsToJson | crates/opencdc-connector/src/postgres/replication.rs:163-182 | the object zips column names with the tuple, read by type, up to the shorter of the two; null and unchanged values are null |
| PgValues.IntegerColumn | crates/opencdc-connector/src/postgres/types.rs:26-64 | a column of one of the five integer types is a number exactly when its text is a numeral of that number, with a sign its type can have and in the range it is read in, and null otherwise |
| PgValues.IntegerReadsBack | crates/opencdc-connector/src/postgres/types.rs:26-64 | in particular the text of any integer comes out as that number exactly when it is in that range |
| PgValues.BooleanText | crates/opencdc-connector/src/postgres/types.rs:30-30 | a boolean is true exactly for the texts t and true |
| PgValues.OtherColumn | crates/opencdc-connector/src/postgres/types.rs:26-64 | a column of any other type: truth values, conversions of float and JSON text, and the text itself of everything else |
| PgStreamer.RowKeys | crates/opencdc-connector/src/postgres/replication.rs:163-182 | a name is a key exactly when a zipped column carries it |
| PgStreamer.RowLastWins | crates/opencdc-connector/src/postgres/replication.rs:163-182 | a name maps to the value of the last zipped column that carries it |
| PgStreamer.Streamer.ProcessChunk | crates/opencdc-connector/src/postgres/replication.rs:78-151 | one chunk takes decoder, position and events sent from one specified state to the next; PgDelivery.StepDelivers says by fields what those events are |
| PgStreamer.Streamer.ProcessKeepalive | crates/opencdc-connector/src/postgres/replication.rs:153-161 | the position changes exactly when the keepalive has at least nine bytes |
| PgStreamer.Streamer.ProcessStream | crates/opencdc-connector/src/postgres/replication.rs:53-76 | the loop over chunks is the fold of the step, and stops at the first failure |
| PgDelivery.StepDelivers | crates/opencdc-connector/src/postgres/replication.rs:78-161 | an encoded item takes the reference state of a history to the reference state of the longer history; the reference gives each event by its fields: operation, connector, database, schema and table, which tuple stands before and which after, and each object by its names and the last value of each |
| PgDelivery.StreamDelivers | crates/opencdc-connector/src/postgres/replication.rs:53-161 | every list of well-formed messages, keepalives and chunks of unknown type, in any order, streams without error into the state that reference over abstract messages prescribes |
| PgDelivery.FaultEndsRun | crates/opencdc-connector/src/postgres/replication.rs:53-151 | a chunk that cannot be decoded ends the run with its error, or a panic, once the chunks before it are delivered, whatever stands behind it |
| PgDelivery.OneEventPerRow | crates/opencdc-connector/src/postgres/replication.rs:78-161 | when relations are announced before their rows and never redefined: exactly one event per insert, update and delete, in order, and nothing for any other message; each by its fields: operation, connector, database, and schema, table and columns of the latest definition, the old tuple before and the new one after |
| PgDelivery.LastPositionWins | crates/opencdc-connector/src/postgres/replication.rs:78-161 | the position ends as the one carried by the last begin, commit or full keepalive |
| PgDelivery.CacheIsLatestIffNeverRedefined | crates/opencdc-connector/src/postgres/decoder.rs:89-114 | at every point of every history the cache agrees with the latest-definition map of section 55.5.3 of the PostgreSQL 16 documentation exactly when no announcement differs from an earlier one of its oid |
| PgDelivery.RedefinitionIsStale | crates/opencdc-connector/src/postgres/decoder.rs:89-114 | over the bytes of any two announcements of one oid and a row, the event sent is that of the first announcement, which differs from that of the second when the one column was renamed |
| Lsn.SplitOfJoin | crates/opencdc-connector/src/postgres/snapshot.rs:52-60 | a joined position is 2^32 times the first half plus the second; splitting it returns both, also when the 64-bit value is negative |
| Lsn.JoinOfSplit | crates/opencdc-connector/src/postgres/replication.rs:33-37 | joining the halves of any position returns the position |
| Lsn.SnapshotReadsServerText | crates/opencdc-connector/src/postgres/snapshot.rs:41-64 | every position printed as two hexadecimal halves (section 8.20 of the PostgreSQL 16 documentation) is read back |
| Lsn.FormatIff | crates/opencdc-connector/src/postgres/snapshot.rs:41-51 | a position text is refused for its format exactly when it has not one slash |
| Lsn.HalvesIff | crates/opencdc-connector/src/postgres/snapshot.rs:52-64 | around the slash exactly hexadecimal numerals of 32 bits are accepted, and the first half at fault is named |
| Lsn.MisreadAtLeast | crates/opencdc-connector/src/postgres/replication.rs:33-37 | a half printed in decimal and read in hexadecimal is at least the half, and equal exactly below ten |
| Lsn.MisreadMonotone | crates/opencdc-connector/src/postgres/replication.rs:33-37 | misreading is strictly monotone |
| Lsn.MisreadFits | crates/opencdc-connector/src/postgres/replication.rs:33-37 | the misread half fits 32 bits exactly below 10^8 |
| Lsn.ResumePosition | crates/opencdc-connector/src/postgres/replication.rs:33-37 | the position the resume text denotes, or which half makes it invalid, for every offset |
| Lsn.ResumesAtSnapshotIffSmall | crates/opencdc-connector/src/postgres/replication.rs:33-37 | streaming resumes at the snapshot position exactly when both halves are below ten |
| Lsn.ResumeFromStart | crates/opencdc-connector/src/postgres/replication.rs:33-37 | without an offset the resume text denotes position zero |
| MysqlValueFacts.BitWidthsAgree | crates/opencdc-connector/src/mysql/column.rs:148-160 | the two separately written formulas for the width of a BIT column agree for every meta |
| MysqlValueFacts.WidthSuffices | crates/opencdc-connector/src/mysql/binlog.rs:843-862 | a slice of exactly the announced width never takes a decoder out of bounds; only a BIT column wider than eight bytes fails |
| MysqlValueFacts.BitIsLittleEndian | crates/opencdc-connector/src/mysql/column.rs:148-160 | a BIT column of up to eight bytes is the little-endian value of its slice: a number below 2^63 and decimal text from there on |
| MysqlColumns.DecodeBits | crates/opencdc-connector/src/mysql/column.rs:148-160 | the shift-and-or loop computes the little-endian value, and panics on a ninth byte |
| MysqlColumns.DecodeFraction | crates/opencdc-connector/src/mysql/column.rs:208-250 | the fraction loop computes the big-endian value modulo 2^64 |
| MysqlColumns.DecodeBinlogValue | crates/opencdc-connector/src/mysql/column.rs:75-170 | the decoder with its loops agrees with the pure description of every column type, which MysqlCells.CellRead and MysqlCells.ValuesOutsideRows pin by type code |
| MysqlValueFacts.TinySign | crates/opencdc-connector/src/mysql/column.rs:77-83 | a TINY value is recovered exactly when it is not negative or the meta has bit 7 set |
| MysqlValueFacts.ShortSign | crates/opencdc-connector/src/mysql/column.rs:84-91 | the same for SHORT |
| MysqlValueFacts.LongSign | crates/opencdc-connector/src/mysql/column.rs:92-95 | a LONG value is recovered exactly when it is not negative |
| MysqlValueFacts.DateTimeRecovered | crates/opencdc-connector/src/mysql/column.rs:184-206 | all six fields come back from every YYYYMMDDhhmmss packing |
| MysqlValueFacts.DateTime2Arithmetic | crates/opencdc-connector/src/mysql/column.rs:208-250 | the fields of the 40-bit word as divisions and remainders |
| MysqlValueFacts.DivisionsCommute | crates/opencdc-connector/src/mysql/column.rs:208-250 | dividing by 13 then 32 is dividing by 32 then 13 |
| MysqlValueFacts.DateTime2Recovered | crates/opencdc-connector/src/mysql/column.rs:208-250 | year, month, day, hour and minute come out of the word; the second is built from bits 2 to 7 |
| MysqlValueFacts.DateTime2SecondExact | crates/opencdc-connector/src/mysql/column.rs:208-250 | the second is right exactly when it is 21 times the minute modulo four |
| MysqlValueFacts.DateTime2SignBit | crates/opencdc-connector/src/mysql/column.rs:208-250 | year and month are right exactly when the sign bit of the word is clear |
| MysqlRows.ReadRowAt | crates/opencdc-connector/src/mysql/binlog.rs:749-841 | the row loop computes the row and cursor of the recursive description, whose cells MysqlCells.CellRead and MysqlCells.CellCut pin by type code |
| MysqlRows.ReadRowsFrom | crates/opencdc-connector/src/mysql/binlog.rs:568-576 | the loop of write and delete events computes the recursive description |
| MysqlRows.ReadPairsFrom | crates/opencdc-connector/src/mysql/binlog.rs:608-621 | the loop of update events computes the recursive description, its unchecked slice a panic |
| MysqlRowFacts.RowCursor | crates/opencdc-connector/src/mysql/binlog.rs:749-841 | a row read stays in place exactly when less than a null bitmap is left; otherwise it yields one value per column and ends between the bitmap and three bytes behind the data |
| MysqlRowFacts.RowsBounded | crates/opencdc-connector/src/mysql/binlog.rs:568-576 | at most one row per ceil(c/8) bytes, each with c values |
| MysqlRowFacts.PairsBounded | crates/opencdc-connector/src/mysql/binlog.rs:608-621 | at most one pair per twice ceil(c/8) bytes, both images with c values |
| MysqlRowFacts.RowsPanicIffWideBits | crates/opencdc-connector/src/mysql/binlog.rs:568-576 | for every layout, in a build with overflow checks: some write or delete event makes the row loop panic exactly when a BIT column is wider than eight bytes |
| MysqlRowFacts.UpdatePanicsIffWide | crates/opencdc-connector/src/mysql/binlog.rs:608-621 | for every layout, in a build with overflow checks: some update event makes the row loop panic exactly when a BIT column is wider than eight bytes or a blob has a length prefix of more than one byte |
| MysqlRowFacts.MissingMetas | crates/opencdc-connector/src/mysql/binlog.rs:772-773 | a column without a meta is read as one whose meta is zero |
| MysqlRowFacts.NullBitOfPacked | crates/opencdc-connector/src/mysql/binlog.rs:759-764 | a packed null bitmap reads back bit by bit |
| MysqlCells.WidthsByCode | crates/opencdc-connector/src/mysql/binlog.rs:800-862 | the widths and length prefixes the parser uses, by the type codes of the protocol |
| MysqlCells.CellRead | crates/opencdc-connector/src/mysql/binlog.rs:749-841 | an encoded cell of any type with a width or a length prefix is read as its value and takes exactly its bytes: integers, BIT, strings, blobs, dates and times; a finite FLOAT or DOUBLE and a DECIMAL as a function of its bytes |
| MysqlCells.CellCut | crates/opencdc-connector/src/mysql/binlog.rs:749-841 | a cell the data ends in: null in place if it is of fixed width, an empty string behind its length byte, null behind a blob prefix |
| MysqlCells.NoWidthReadAsNull | crates/opencdc-connector/src/mysql/binlog.rs:800-862 | a type without a width, JSON, ENUM and SET among them, is read as null over one byte whatever it holds |
| MysqlCells.ValuesOutsideRows | crates/opencdc-connector/src/mysql/column.rs:141-170 | what the value decoder makes of the types no row brings to it |
| MysqlCells.FloatIsNullIff | crates/opencdc-connector/src/mysql/column.rs:106-115 | a FLOAT or DOUBLE column comes out as null exactly when its exponent bits are all set |
| MysqlCells.DatePartsInjective | crates/opencdc-connector/src/mysql/column.rs:116-130 | the approximate formula for dates gives different days different dates |
| MysqlCells.LongBlobReadIffEmpty | crates/opencdc-connector/src/mysql/binlog.rs:809-820 | the content of a LONG_BLOB comes back exactly when it is empty |
| MysqlCells.LongBlobSplitsRow | crates/opencdc-connector/src/mysql/binlog.rs:809-820 | a concrete row of one LONG_BLOB that is read as two rows |
| MysqlCells.JsonInjective | crates/opencdc-connector/src/mysql/binlog.rs:749-841 | two cells of one column with the same JSON value are equal, text being its bytes, for every covered type but FLOAT, DOUBLE and DECIMAL and those whose decoder drops bytes or bits: YEAR, TIMESTAMP2 and DATETIME2 |
| MysqlCells.DateMeaning | crates/opencdc-connector/src/mysql/column.rs:116-130 | the date of a day number: the year by the mean length of a year, months of thirty days |
| MysqlCells.NegatedFields | crates/opencdc-connector/src/mysql/column.rs:184-206 | a negative DATETIME word has the fields of its opposite, each negated |
| MysqlRowRoundTrip.RowsRoundTrip | crates/opencdc-connector/src/mysql/binlog.rs:541-579 | any list of rows over a supported layout, printed with null bitmaps, reads back as those rows and takes every byte |
| MysqlRowRoundTrip.PairsRoundTrip | crates/opencdc-connector/src/mysql/binlog.rs:581-624 | the same for before and after images |
| MysqlClient.BinlogClient.ReadPacket | crates/opencdc-connector/src/mysql/binlog.rs:88-107 | takes one framed packet off the input, or nothing |
| MysqlClient.BinlogClient.WriteCommand | crates/opencdc-connector/src/mysql/binlog.rs:109-131 | appends the framed command to the output |
| MysqlClient.HeaderBytes | crates/opencdc-connector/src/mysql/binlog.rs:116-122 | the masked and shifted header bytes are the little-endian length modulo 2^24 |
| MysqlClient.BinlogClient.ReadTableMap | crates/opencdc-connector/src/mysql/binlog.rs:455-539 | the parsed table map replaces the layout of its id, and nothing else changes |
| MysqlClient.BinlogClient.ReadRowsEvent | crates/opencdc-connector/src/mysql/binlog.rs:541-579 | a write or delete event is parsed under the layout of its table id |
| MysqlClient.BinlogClient.ReadPairsEvent | crates/opencdc-connector/src/mysql/binlog.rs:581-624 | an update event is parsed under the layout of its table id, with one column bitmap |
| MysqlClient.BinlogClient.ReadEvent | crates/opencdc-connector/src/mysql/binlog.rs:416-436 | dispatch on the event type, with its effect on the tables and the GTID |
| MysqlClient.BinlogClient.WalkPacket | crates/opencdc-connector/src/mysql/binlog.rs:367-412 | the cursor loop over one packet is the recursive walk |
| MysqlClient.BinlogClient.ReadNext | crates/opencdc-connector/src/mysql/binlog.rs:346-414 | packets are read until one yields an event, is empty or fails |
| MysqlEventFacts.PackedIntRead | crates/opencdc-connector/src/mysql/binlog.rs:706-729 | every 64-bit integer survives the packed form |
| MysqlCuts.PackedIntCut | crates/opencdc-connector/src/mysql/binlog.rs:706-729 | a packed integer cut off is zero if nothing of it is left, else a panic |
| MysqlCuts.PackedIntReserved | crates/opencdc-connector/src/mysql/binlog.rs:706-729 | the byte for NULL is zero over one byte, the reserved byte zero over none |
| MysqlCuts.RowsHeaderCut | crates/opencdc-connector/src/mysql/binlog.rs:541-562 | a row event whose fixed header is cut off is a panic; behind it, a missing, NULL, zero or reserved column count is not passed over |
| MysqlCuts.BitmapCut | crates/opencdc-connector/src/mysql/binlog.rs:731-747 | a row event cut off within its column bitmap has no rows |
| MysqlCuts.UnendedTableMap | crates/opencdc-connector/src/mysql/binlog.rs:455-490 | a table map of less than eight bytes is a panic, and one without an end to a name the error of that name |
| MysqlCuts.TableMapCut | crates/opencdc-connector/src/mysql/binlog.rs:455-490 | in particular one that ends in its database name or in its table name |
| MysqlCuts.ColumnsCut | crates/opencdc-connector/src/mysql/binlog.rs:490-539 | one that ends behind its names maps no columns, and a null bitmap that is cut off is clear |
| MysqlCuts.SmallEventCut | crates/opencdc-connector/src/mysql/binlog.rs:442-453 | a rotation or XID cut off in its number is misread as empty or zero, a GTID as no event or a panic |
| MysqlCuts.WrongSize | crates/opencdc-connector/src/mysql/binlog.rs:367-394 | behind events passed over, an event that claims more than is left is dropped, and one that claims less than its header is a panic |
| MysqlCuts.WrongTail | crates/opencdc-connector/src/mysql/binlog.rs:367-394 | bytes too few for a header are dropped |
| MysqlEventFacts.TableMapRoundTrip | crates/opencdc-connector/src/mysql/binlog.rs:455-539 | a printed table map parses to itself, whatever stands behind it |
| MysqlEventFacts.RowsEventRoundTrip | crates/opencdc-connector/src/mysql/binlog.rs:541-579 | a printed write or delete event of either version parses to its table id and rows and takes every byte |
| MysqlEventFacts.PairsEventRoundTrip | crates/opencdc-connector/src/mysql/binlog.rs:581-624 | the same for an update event under the single-bitmap layout |
| MysqlEventFacts.UnmappedHasNoRows | crates/opencdc-connector/src/mysql/binlog.rs:558-578 | rows of a table id that was never mapped are not parsed |
| MysqlEventFacts.TakeOfFrame | crates/opencdc-connector/src/mysql/binlog.rs:88-131 | a written packet is its length modulo 2^24, sequence number zero and its body, and is read back with that length |
| MysqlEventFacts.FrameReadBackIffShort | crates/opencdc-connector/src/mysql/binlog.rs:88-131 | a written packet is read back as written exactly when it is shorter than 2^24 |
| MysqlEventFacts.FramesReadBack | crates/opencdc-connector/src/mysql/binlog.rs:88-131 | any sequence of such packets is read back in order with nothing left |
| MysqlEventFacts.HeaderRead | crates/opencdc-connector/src/mysql/binlog.rs:367-394 | the nineteen header bytes read back field by field |
| MysqlEventFacts.WalkReturnsFirst | crates/opencdc-connector/src/mysql/binlog.rs:366-412 | on a packet of well-formed events the walk returns the first one that is neither rotation nor format description, and no later event has an effect |
| MysqlBodies.BodyParses | crates/opencdc-connector/src/mysql/binlog.rs:416-436 | a printed event of any of the nine known kinds, or of an unknown type, is parsed to the event it stands for |
| MysqlBodies.RotateParses | crates/opencdc-connector/src/mysql/binlog.rs:442-453 | a rotation yields its file name without the NUL padding, and its position |
| MysqlBodies.GtidParses | crates/opencdc-connector/src/mysql/binlog.rs:676-691 | a GTID event yields the UUID and the number at their offsets |
| MysqlDelivery.SkippedIffZeroTime | crates/opencdc-connector/src/mysql/binlog.rs:353-360 | any packet of events is taken for one to skip exactly when the time of its first event ends in two zero bytes |
| MysqlDelivery.ZeroTimeIsLost | crates/opencdc-connector/src/mysql/binlog.rs:353-360 | such a packet is lost, whatever its events are |
| MysqlDelivery.ReadIffTimeNonZero | crates/opencdc-connector/src/mysql/binlog.rs:346-414 | the first event of a packet that is not passed over is read exactly when that time does not end so |
| MysqlDelivery.StreamDelivers | crates/opencdc-connector/src/mysql/mod.rs:163-262 | any sequence of packets of printed events, of every kind and any number to a packet, is streamed from bytes into exactly the change events its packets yield, each by its fields under the table map in force, and the client ends with the last map of every id and the last GTID |
| MysqlDelivery.FaultEndsStream | crates/opencdc-connector/src/mysql/mod.rs:163-175 | a packet with an event that cannot be parsed ends the run with its error, or a panic, once the packets before it are delivered |
| MysqlStream.MysqlConnector.RunStream | crates/opencdc-connector/src/mysql/mod.rs:163-262 | the endless loop is the recursive description: client state, events sent and how it ends; MysqlStream.EmitsReference says by fields what the events are |
| MysqlStream.RowObjectContents | crates/opencdc-connector/src/mysql/mod.rs:180-190 | an object of n values has exactly the keys col_0 to col_(n-1), printed in decimal, each with its value |
| MysqlStream.EmitsReference | crates/opencdc-connector/src/mysql/mod.rs:163-262 | what a row event emits, field by field: operation, connector, database and table of its map, which image stands before and which after |
| MysqlStream.FreshStreamEmitsReference | crates/opencdc-connector/src/mysql/mod.rs:163-262 | over any input at all, the events emitted are those of the parsed events under the most recent table map of their id; unmapped ids yield none; every row has one value per column of that map |
| MysqlStream.StreamEmitsReference | crates/opencdc-connector/src/mysql/mod.rs:163-262 | the same from any client whose tables are those of a history |
| Transforms.RenameEvent | crates/opencdc-pipeline/src/transform.rs:100-112 | the two rename loops take table and database through their pairs in order and change nothing else; Transforms.RemapFirst and Transforms.RemapUnmatched say where a name ends up |
| Transforms.AppliedBuiltIn | crates/opencdc-pipeline/src/transform.rs:59-139 | a rename takes table and database each through its own map and touches nothing else; a filter keeps exactly the operations it lists; a log changes nothing |
| Transforms.RemapUnmatched | crates/opencdc-pipeline/src/transform.rs:100-112 | a name no pair renames stays |
| Transforms.RemapFirst | crates/opencdc-pipeline/src/transform.rs:100-112 | else the first pair that renames it decides, and its new name goes through the pairs behind that one |
| Transforms.KeptOps | crates/opencdc-pipeline/src/transform.rs:59-65 | the operations of the normal form's filter: those that every filter of the chain includes |
| Transforms.NormalForm | crates/opencdc-pipeline/src/transform.rs:59-139 | any chain of filter, rename and log transforms equals one filter on the common operations followed by one rename with the maps joined, for every event |
| Transforms.ChainThrough | crates/opencdc-pipeline/src/pipeline.rs:114-124 | joined chains are composed chains, failures and drops included |
| Pipelines.Pipeline.ProcessEvent | crates/opencdc-pipeline/src/pipeline.rs:110-138 | one event through the chain with its early exit and into the sinks up to the first that refuses |
| Pipelines.Pipeline.StreamFromOffset | crates/opencdc-pipeline/src/pipeline.rs:89-108 | the streaming phase from an offset |
| Pipelines.Pipeline.Run | crates/opencdc-pipeline/src/pipeline.rs:51-87 | the whole run: refusal, snapshot, stream, the flag and the sinks as the specified transition |
| Pipelines.Pipeline.Stop | crates/opencdc-pipeline/src/pipeline.rs:140-156 | flag cleared, sinks closed up to the first that fails, then the connector |
| ChannelPhase.EveryStateIsSafe | crates/opencdc-pipeline/src/pipeline.rs:61-138 | in every state of either phase the queue is within 1024, nothing is received before the connector call returned, and a later sink holds a prefix of an earlier one, short of it by at most one event |
| ChannelPhase.PhaseEnds | crates/opencdc-pipeline/src/pipeline.rs:61-105 | every run of either phase is finite; one that cannot go on has the outcome of the sequential description, and has handed all n events over exactly when n is at most 1024; otherwise the queue is full of the first 1024 and no sink has changed |
| ChannelPhase.OneRun | crates/opencdc-pipeline/src/pipeline.rs:61-105 | as the call is awaited, two runs of one length are the same run |
| RunPhases.EveryStateOfRunIsSafe | crates/opencdc-pipeline/src/pipeline.rs:51-138 | in every state of a whole run, snapshot and stream, the sinks are prefixes of one another in order and differ by at most one event |
| RunPhases.FullRunEnds | crates/opencdc-pipeline/src/pipeline.rs:51-108 | a whole run that cannot go on has the sinks and the status of the sequential run |
| RunPhases.SomeFullRunEnds | crates/opencdc-pipeline/src/pipeline.rs:51-108 | there always is such a run |
| ChannelPhase.SomeRunEnds | crates/opencdc-pipeline/src/pipeline.rs:61-105 | every run of a phase can be continued to such an end |
| ChannelPhase.KeptByStep | crates/opencdc-pipeline/src/pipeline.rs:61-138 | each send, return, receive, write and close keeps the invariant that ties the state to the remaining sequential work |
| PipelineFacts.DispatchWrites | crates/opencdc-pipeline/src/pipeline.rs:126-135 | a sink is written exactly when all sinks in front of it took the event |
| PipelineFacts.CallsCounted | crates/opencdc-pipeline/src/pipeline.rs:51-108 | a refused run makes no connector call, any other one per phase it comes to |
| PipelineFacts.DrainFans | crates/opencdc-pipeline/src/pipeline.rs:76-78 | however draining ends, the sinks are fanned out over a prefix of the events, at the place the status tells |
| PipelineFacts.LaterSinksFollow | crates/opencdc-pipeline/src/pipeline.rs:126-135 | fanned-out sinks are prefixes of one another in order and differ by at most one event |
| PipelineFacts.RunFans | crates/opencdc-pipeline/src/pipeline.rs:51-108 | however a run ends, the sinks are fanned out over the snapshot events followed by the stream events |
| PipelineFacts.SuccessfulRunDelivers | crates/opencdc-pipeline/src/pipeline.rs:51-108 | a run that finishes has appended to every sink the filter-map of the snapshot events and then of the stream events, the stream resumed at the snapshot's offset |
| PipelineFacts.DeliveredByNormalForm | crates/opencdc-pipeline/src/transform.rs:59-139 | a built-in chain delivers what its normal form delivers |
| PipelineFacts.FinishesIffPhasesFit | crates/opencdc-pipeline/src/pipeline.rs:51-108 | with built-in transforms and willing sinks a run finishes exactly when none is under way and each phase succeeds with at most 1024 events |
| PipelineFacts.FlagAfterRun | crates/opencdc-pipeline/src/pipeline.rs:51-72 | a run is refused, without effect, exactly while the flag is set, and leaves it set exactly unless its snapshot failed |
| PipelineFacts.OneRunPerStop | crates/opencdc-pipeline/src/pipeline.rs:51-87 | between two stops at most one run gets past its snapshot; all earlier ones failed in theirs, all later ones are refused and change nothing |
| PipelineFacts.StopReopens | crates/opencdc-pipeline/src/pipeline.rs:140-156 | a stop reopens the pipeline even when it fails, and closes exactly the sinks in front of the first that fails |
| Evolution.FieldMapOf | crates/opencdc-schema/src/evolution.rs:131-142 | the map of the fields, the last of each name |
| Evolution.Diff | crates/opencdc-schema/src/evolution.rs:43-93 | the two loops compute the specified comparison, for some order of each hash map; EvolutionFacts.DiffReportsDifferences and EvolutionFacts.BreakingIff say what it holds |
| Evolution.Evolve | crates/opencdc-schema/src/evolution.rs:95-129 | evolution under each policy returns what some order of the hash maps prescribes |
| EvolutionFacts.LastFieldWins | crates/opencdc-schema/src/evolution.rs:131-142 | a name is known exactly when a field has it, and as the last such field |
| EvolutionFacts.DiffReportsDifferences | crates/opencdc-schema/src/evolution.rs:43-93 | in any order, exactly the additions, removals, type changes and differing `optional` entries are reported |
| EvolutionFacts.BreakingIff | crates/opencdc-schema/src/evolution.rs:43-93 | in any order, a comparison is breaking exactly when it reports a field removed or of another type, or a field goes from optional false to optional true |
| EvolutionFacts.DiffReportsOnce | crates/opencdc-schema/src/evolution.rs:43-93 | no change is reported twice |
| EvolutionFacts.EvolvedKnows | crates/opencdc-schema/src/evolution.rs:95-129 | under AutoAdd and Warn, in any order: success, the old field list as a prefix, each unknown name added once, and the known fields are the source's overridden by the current ones |
| EvolutionFacts.EarlierIsPrefix | crates/opencdc-schema/src/evolution.rs:95-129 | over any run an earlier field list is a prefix of every later one |
| EvolutionFacts.RunKnows | crates/opencdc-schema/src/evolution.rs:95-129 | the fields known after any number of steps, as a function of start and inputs |
| EvolutionFacts.KnownNames | crates/opencdc-schema/src/evolution.rs:95-129 | the names after a run are exactly the union of all names |
| EvolutionFacts.FirstDefinitionWins | crates/opencdc-schema/src/evolution.rs:95-129 | a name keeps the field of the first schema that had it |
| EvolutionFacts.SeenChangesNothing | crates/opencdc-schema/src/evolution.rs:95-129 | evolving by any schema already seen changes nothing, in any order |
| EvolutionFacts.RunsAgree | crates/opencdc-schema/src/evolution.rs:95-129 | two runs over the same schemas differ only in the order of their field lists |
| EvolutionFacts.NoChangeIffAgree | crates/opencdc-schema/src/evolution.rs:43-93 | a comparison is empty exactly when names, resolved types and `optional` entries agree |
| EvolutionFacts.FailAcceptsIffAgree | crates/opencdc-schema/src/evolution.rs:95-129 | under Fail a schema is accepted, unchanged, exactly when the two agree; otherwise all changes are returned |
| EvolutionFacts.SilentNullabilityChange | crates/opencdc-schema/src/evolution.rs:71-81 | a nullability change that reports no difference comes exactly from an absent entry against an explicit false |
| Schemas.NameOfType | crates/opencdc-core/src/schema.rs:117-170 | every type name survives reading and printing |
| Schemas.TypeOfName | crates/opencdc-core/src/schema.rs:117-170 | a type survives printing and reading unless it is an unknown type with a known name |
| ArrowFacts.ResolvedByName | crates/opencdc-core/src/schema.rs:256-266 | a field has the type of its own type name, or of the first name of a union |
| ArrowBridge.U8ReadsBack | crates/opencdc-core/src/arrow.rs:22-25 | every precision survives its decimal print |
| ArrowBridge.I8ReadsBack | crates/opencdc-core/src/arrow.rs:26-29 | every scale survives its decimal print, negative ones included |
| ArrowFacts.ToArrowByName | crates/opencdc-core/src/arrow.rs:9-65 | every Debezium field: its Arrow type by the name of its type, its name, that it may be null unless it is declared as required, and its doc |
| ArrowFacts.DecimalByParameters | crates/opencdc-core/src/arrow.rs:21-32 | a decimal has the precision and scale whose numerals its parameters hold, and 38 and 0 where they hold none |
| ArrowFacts.IntegersWiden | crates/opencdc-schema/src/arrow_bridge.rs:29-64 | an Arrow integer becomes the smallest signed Debezium integer that holds all its values, but for the unsigned one of 64 bits |
| ArrowFacts.NamesFromArrow | crates/opencdc-schema/src/arrow_bridge.rs:29-64 | the type name of every other Arrow type; times and timestamps keep their unit |
| ArrowFacts.FromArrow | crates/opencdc-schema/src/arrow_bridge.rs:66-98 | the rest of a field from Arrow: fields of a struct and parameters of a 128-bit decimal, and of nothing else |
| ArrowFacts.SchemaParts | crates/opencdc-schema/src/arrow_bridge.rs:14-27 | a schema from Arrow is a struct of its fields, and has but a name |
| ArrowFacts.TypeSurvivesIff | crates/opencdc-core/src/arrow.rs:9-50 | a Debezium field keeps its type over a trip exactly when its type name is one of fifteen; what it becomes otherwise |
| ArrowBridge.AgainIffCanonical | crates/opencdc-schema/src/arrow_bridge.rs:29-98 | an Arrow field keeps name and nullability over a trip, and comes back as it was exactly when its type is one of the canonical ones and its metadata is at most a doc |
| ArrowBridge.SchemaSurvivesIff | crates/opencdc-schema/src/arrow_bridge.rs:14-98 | an Arrow schema comes back as it was exactly when all its fields do and its metadata is at most a name |
| ArrowBridge.BridgeStabilises | crates/opencdc-core/src/arrow.rs:9-80 | every Debezium schema: Arrow, back, and Arrow again gives the first Arrow schema without the schema's doc |
| ArrowBridge.OneTripIsEnough | crates/opencdc-schema/src/arrow_bridge.rs:14-98 | every Arrow schema is stable from the first trip on |
| AppStates.AppState.RegisterConnector | crates/opencdc-mcp/src/state.rs:79-90 | a new name starts stopped at zero, a known one is left alone |
| AppStates.AppState.UpdateStatus | crates/opencdc-mcp/src/state.rs:92-97 | the status of a registered connector changes, nothing else does |
| AppStates.AppState.IncrementEventsReceived | crates/opencdc-mcp/src/state.rs:99-106 | the wrapping global add, then the saturating add of the connector if it is registered |
| AppStates.AppState.FinishSnapshot | crates/opencdc-mcp/src/state.rs:168-177 | what the background task changes, and only for a registered connector |
| AppStates.AppState.ShutdownAll | crates/opencdc-mcp/src/state.rs:181-188 | every status stopped, every sink gone, all counts kept |
| AppStates.AppState.HealthStatus | crates/opencdc-mcp/src/state.rs:126-154 | the health report counts running and errored connectors |
| AppStates.AppState.RemoveConnector | crates/opencdc-mcp/src/service.rs:89-92 | the entry is gone |
| AppStates.AppState.SnapshotMayStart | crates/opencdc-mcp/src/service.rs:134-160 | a snapshot may start exactly for a registered connector that is running or stopped |
| StateFacts.EntryAfter | crates/opencdc-mcp/src/state.rs:79-188 | the entry of any connector behind any section, field by field: only the connector a section is for changes, and only a registration makes an entry |
| StateFacts.GlobalsAfter | crates/opencdc-mcp/src/state.rs:79-188 | the counters and sinks behind any section |
| StateFacts.SaturatedSum | crates/opencdc-mcp/src/state.rs:99-106 | a connector count is what was added to it in whatever order, or the largest 64-bit value from there on |
| StateFacts.CountedPerTable | crates/opencdc-mcp/src/state.rs:160-178 | a snapshot counts ten events per table, and ten when it names none |
| StateFacts.MayStartIff | crates/opencdc-mcp/src/service.rs:134-160 | a snapshot may start exactly when its connector is registered, stopped or running |
| StateFacts.HealthByStatus | crates/opencdc-mcp/src/state.rs:126-154 | health counts the connectors running or streaming and those in error, reports the counters, and is degraded exactly when one is in error |
| CounterFacts.HealthAddsUp | crates/opencdc-mcp/src/state.rs:126-154 | no connector is counted twice, and degraded means at least one error |
| CounterFacts.ConservedByStep | crates/opencdc-mcp/src/state.rs:79-188 | every section keeps the ledger |
| CounterFacts.CountsConserved | crates/opencdc-mcp/src/state.rs:79-188 | in every state of every interleaving the global counter is all that was counted modulo 2^64, and below that the sum of live, removed, missed and half-done counts |
| CounterFacts.ReadersSeeEnough | crates/opencdc-mcp/src/state.rs:99-154 | a reader sees a global count of at least the live counts, and of exactly those when nothing was removed, missed or is half done |
| CounterFacts.StoppedAfterShutdownIff | crates/opencdc-mcp/src/state.rs:181-188 | just behind a shutdown of any state all are stopped and no sink is left, and under any interleaving it stays so exactly as long as no other status is set, no snapshot begun and no task finished for a connector registered at that moment |
| CounterFacts.StaysStoppedIff | crates/opencdc-mcp/src/state.rs:160-188 | the same from any state in which all are stopped |
| CounterFacts.ShutdownLastsIff | crates/opencdc-mcp/src/state.rs:160-188 | unfinished tasks leave everything stopped, in whatever order they finish, exactly when none is for a registered connector |
| CounterFacts.ExclusiveByStep | crates/opencdc-mcp/src/service.rs:134-160 | at most one snapshot per connector between its check and the end of its task is kept by an action exactly when it is no check of a connector with a snapshot on its way |
| CounterFacts.StaysExclusiveIff | crates/opencdc-mcp/src/service.rs:134-160 | over any interleaving every state has at most one snapshot per connector exactly when no check is of a connector with a snapshot on its way at that moment |
| CounterFacts.ExclusiveFromStartIff | crates/opencdc-mcp/src/service.rs:134-160 | the same for all that can happen from the start |
| CounterFacts.TruthfulByStep | crates/opencdc-mcp/src/service.rs:134-160 | given also that every connector with a snapshot on its way is registered and shows as snapshotting while its task runs, an action keeps all that exactly when it is guarded: no second check of a checked connector, no other status set and no removal under way, no shutdown with a task unfinished |
| CounterFacts.StaysTruthfulIff | crates/opencdc-mcp/src/service.rs:134-160 | the same over any interleaving; under guarded actions no connector ever has a second snapshot |
| CounterFacts.TwoTasksIff | crates/opencdc-mcp/src/service.rs:134-160 | some order of begins gives a connector two tasks exactly when it has two entries among the snapshots checked and under way |
| CounterFacts.TwoChecksBeforeABegin | crates/opencdc-mcp/src/service.rs:134-160 | two checks before the first begin both pass, though the second is of a connector with a snapshot on its way, and leave two tasks for one connector |
| CounterFacts.ShutdownReopensTheCheck | crates/opencdc-mcp/src/state.rs:160-188 | behind a shutdown a second snapshot can be checked while the first one is unfinished |

## Left out

- Connecting, authentication, TLS, retries, publications and slots, the HTTP clients and servers, configuration, the sinks themselves: input and output.
- UTF-8 conversion: names and text are byte strings, so replacement characters are not modelled.
- Floating point, embedded JSON and MySQL's DECIMAL: such values are symbolic, a kind and the raw bytes.
- Event timestamps, and MySQL offsets, which the event loop builds and drops.
- Integer arithmetic is checked: where a build without overflow checks would wrap, the model panics.
- `Vec::with_capacity` on a length taken from the data: allocation never fails in the model.
- Event sends that fail because the receiver is gone: the code ignores or stops on them, and the model's sends succeed.
- The rows of write and delete events share one loop in the model where the code has it twice.
- MysqlCells.CellRead: the value of a finite FLOAT or DOUBLE and of a DECIMAL cell is a function of its bytes that is not modelled, so for them the cursor alone is claimed. Not covered are BIT columns of no or more than eight bytes, and the types the parser gives no width (MysqlCells.NoWidthReadAsNull). Of LONG_BLOB only the empty one comes back (MysqlCells.LongBlobReadIffEmpty).
- MysqlCells.JsonInjective: not for FLOAT, DOUBLE and DECIMAL, where the code gives different cells one value (infinities and NULL, and decimals that are not UTF-8), nor for YEAR, TIMESTAMP2 and DATETIME2, whose decoders drop the second byte, the fraction, and bits of minute and second; and text is compared by its bytes, where the code replaces what is not UTF-8.
- MysqlEventFacts.TableMapRoundTrip: the database name is what stands before the first NUL, as the code reads it; the length byte a server puts in front stays part of the name.
- MysqlDelivery.StreamDelivers: the rows of its packets are of the column types MysqlCells.CellRead covers, and a packet is shorter than 2^24 bytes; over any bytes at all, MysqlStream.FreshStreamEmitsReference states what is emitted.
- PgStreamer.ColumnsToJson: the values of floating-point and JSON columns are symbolic, a kind and the raw text, so a float text that does not parse is not told from one that does.
- MysqlColumns.DecodeBinlogValue: finite FLOAT and DOUBLE values, JSON and DECIMAL are symbolic.
- Connector calls that keep a sender alive after they return, or never return by themselves: a call sends a finite list of events and returns.
- Sinks are values in the pipeline's list, not objects behind locks; a sink shared by two pipelines is not modelled.
- AppStates.AppState.FinishSnapshot: the number of tables times ten is assumed to fit 64 bits, which a list in memory guarantees.
- CounterFacts.ReadersSeeEnough: stated while the total ever counted is below 2^64; past that only the value modulo 2^64 is stated, by CounterFacts.CountsConserved.
- The sorted connector list, the counters of events sent and errors, the tool permits, the registry and schema tools: easy members.
- ArrowBridge.BridgeStabilises: Arrow types are listed as far as the bridge tells them apart; all others are one symbolic type.
- Avro schema generation, envelopes, source blocks, naming helpers and BSON conversion: shape building with little to prove.
