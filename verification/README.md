# pdns-logger in Dafny

A model of the stateful parts of pdns-logger, the daemon that receives PowerDNS protobuf messages
over TCP and logs them to a file and to SQLite, with proofs of what those parts do over whole runs.
`dafny verify dfyconfig.toml` checks the project.

| file | what it models |
|---|---|
| Types.dfy, CStrings.dfy | shared types; NUL-terminated strings in arrays |
| Framing.dfy | the two-byte big-endian framing of a byte stream |
| Connection.dfy | one connection: the 8192-byte buffer, `protobuf_extract`, the read loop |
| IniText.dfy | the meaning of one INI line, on sequences |
| IniReader.dfy | how a text is cut into lines of at most 199 characters |
| IniMachine.dfy | section, previous name, line number and first error over a whole text |
| IniLines.dfy | what one line does in any state, stated on its text |
| IniRoundTrip.dfy | printing a configuration and parsing it back |
| IniBuffer.dfy | the parser as it works, writing NULs into its line buffer |
| Mailbox.dfy | the hand-off queue between log threads and writer thread |
| Database.dfy | batching of inserts in SQLite transactions |
| Pipeline.dfy | pushes, pops, inserts and rotations interleaved |
| Message.dfy, LogFile.dfy, LogRows.dfy | a decoded message as log lines and as rows |
| LogReader.dfy | reading the fields of a message back from a log line |
| Daemon.dfy | from the bytes of a connection to the log file and the database |

Each imperative piece of the source is a class or a method with loops (`Connection`, `Parser`,
`Handoff`, `Store`, `LineBuffer`, `Log`), proved equal to a state machine on values; the theorems
are about all runs of those machines.

Assumptions, all stated in the code: a failing SQLite statement changes nothing, BEGIN fails inside
a transaction and COMMIT outside one, and closing discards what is pending. Which statements fail
otherwise is arbitrary: recursion bounds, and which rows are stored in what order, are proved for
every fault pattern. Only the results about being inside a transaction and the bound of 47 lost rows
assume that BEGIN and COMMIT fail for no other reason (`Dependable`); `Database.InsertRestsExactly`
gives the exact condition for one insert and `Database.StuckCommit` shows that the bound needs it.
Each push and pop of the queue is atomic,
as the lock makes it. Assertions are compiled out, as in the packaged Release build
(debian/rules:19). What `read`, `malloc`, `sqlite3_open_v2` and the INI handler answer is
arbitrary. Protobuf decoding, name tables, number formatting and address rendering are parameters.

Where code and description disagree, the model follows the code:

- The queue is called a FIFO, but a push onto an occupied queue takes the `assert(0)` branch
  (src/pdns-logger-queue.c:94-96) and, with assertions off, drops the item and reports success. It
  is a one-slot mailbox. `Mailbox.NotAFifo` gives a run that differs from a FIFO and
  `Mailbox.FifoExactly` the condition on the events: no push follows another without a pop between.
- A full client buffer "should not happen" (src/pdns-logger-protobuf.c:115). It happens exactly
  when a frame declares more than 8190 bytes and 8192 bytes of it have arrived
  (`Connections.ConnectionExact`); `Connections.FullIsReached` gives a stream on which it does.

## Model

| member | source | states |
|---|---|---|
| Framing.Encode | src/pdns-logger-protobuf.c:59-67 | a frame is a payload behind the length word that `ntohs` reads back; `Connections.ExtractsWireFrame` fixes the byte order |
| Framing.ParseSound | src/pdns-logger-protobuf.c:58-85 | payloads re-encoded, then the leftover, give the stream back; the leftover holds no whole frame |
| Framing.ParseUnique | src/pdns-logger-protobuf.c:58-85 | that decomposition of a stream is the only one |
| Framing.ParseResume | src/pdns-logger-protobuf.c:62-84 | parsing can be suspended at any byte and resumed from the leftover |
| Framing.DeliverableSound | src/pdns-logger-protobuf.c:62-84 | the frames before the first incomplete or oversized one: all bytes accounted for, each payload at most 8190 bytes, and only an oversized frame jams a stream |
| Framing.AllFitDeliversAll | src/pdns-logger-protobuf.c:25-84 | if every frame fits the buffer, all whole frames are deliverable and nothing jams |
| Connections.OneRound | src/pdns-logger-protobuf.c:58-84 | a round that goes on has removed at least two bytes, so extraction terminates |
| Connections.RoundIsFirst | src/pdns-logger-protobuf.c:59-84 | a round takes exactly the first whole frame off the valid bytes, although it may read a length word of which one byte is stale |
| Connections.ExtractIsParse | src/pdns-logger-protobuf.c:47-88 | extraction delivers exactly the whole frames among the valid bytes and keeps the rest; OK exactly when it emptied a non-empty buffer, else RETRY |
| Connections.StaleBytesDoNotMatter | src/pdns-logger-protobuf.c:47-88 | buffers that agree on the valid bytes give the same payloads, status and remainder |
| Connections.RunConservesBytes | src/pdns-logger-protobuf.c:62-148 | in every reachable state, delivered payloads re-encoded and then the buffer equal all bytes received |
| Connections.SlicingIndependence | src/pdns-logger-protobuf.c:108-148 | two connections that read the same bytes, sliced in any ways, delivered the same payloads and hold the same tail |
| Connections.BufferFullExact | src/pdns-logger-protobuf.c:111-125 | the loop ends full exactly at 8192 bytes, then the head frame declares more than 8190; while it runs, the next read has room; an EOF end means the stream is exhausted |
| Connections.ReadCount | src/pdns-logger-protobuf.c:119-125 | with room left, read returns zero exactly at the end of the stream |
| Connections.RunProgresses | src/pdns-logger-protobuf.c:108-148 | every read that is not the last consumes a byte, so an unbroken connection ends |
| Connections.ConnectionExact | src/pdns-logger-protobuf.c:90-153 | for every stream and slicing, a connection that ended other than by a failing read has delivered exactly the deliverable frames; it ended full exactly if the stream jams, else at the end of the stream, with exactly the undelivered tail |
| Connections.UnbrokenEnds | src/pdns-logger-protobuf.c:108-148 | without failing reads, one more read than the stream has bytes always brings the connection to such an end |
| Connections.FittingStreamIsParsedWhole | src/pdns-logger-protobuf.c:90-153 | if all frames fit, every completed slicing delivers the one-shot parse of the whole stream |
| Connections.OversizedBlocks | src/pdns-logger-protobuf.c:62-117 | neither an oversized frame nor anything behind it is ever delivered |
| Connections.OversizedFills | src/pdns-logger-protobuf.c:111-117 | 8192 bytes of an oversized frame, behind any frames that fit, do fill the buffer, with exactly the frames before it delivered |
| Connections.FullIsReached | src/pdns-logger-protobuf.c:111-117 | a stream and a slicing on which the buffer fills |
| Connections.ExtractsWireFrame | src/pdns-logger-protobuf.c:58-84 | for all bytes h, l and payloads of 256 h + l bytes, at most 8190: a buffer holding h, l and the payload gives that payload, is emptied and answers OK |
| Connections.ServesWireFrames | src/pdns-logger-protobuf.c:58-148 | a completed connection on any sequence of such frames, however sliced, ends at end of file with exactly their payloads delivered and nothing left |
| Connections.Connection.MoveDown | src/pdns-logger-protobuf.c:70 | the overlapping memmove leaves the moved bytes in front and all others in place |
| Connections.Connection.ExtractOne | src/pdns-logger-protobuf.c:59-84 | the array, `bsize` and delivered payloads after one round, the length word read with its high byte first |
| Connections.Connection.ExtractFrames | src/pdns-logger-protobuf.c:47-88 | the in-place loop computes the extraction and never answers NO |
| Connections.Connection.Read | src/pdns-logger-protobuf.c:119-133 | the bytes read stand behind the valid ones, the rest of the buffer is as before |
| Connections.Connection.ServeOne | src/pdns-logger-protobuf.c:111-147 | one round of the read loop is one step of the connection machine |
| Connections.Connection.Serve | src/pdns-logger-protobuf.c:108-148 | the whole loop is a run of the connection machine |
| IniText.RTrim | src/inih/ini.c:34-39 | the longest prefix not ending in a blank; only blanks are cut off |
| IniText.LTrim | src/inih/ini.c:42-46 | the suffix from the first non-blank |
| IniText.TrimUnique | src/inih/ini.c:34-46 | trimming removes the blanks around a trimmed core, in either order |
| IniText.Find | src/inih/ini.c:51-64 | the first delimiter or semicolon after a blank, or the end |
| IniText.PairsAreWellFormed | src/inih/ini.c:139-162 | every key and value found on any line is trimmed and free of delimiters and inline comments |
| IniText.PairRoundTrip | src/inih/ini.c:114-162 | a key and value written on a line are read back exactly if and only if they are well formed |
| IniText.SectionRoundTrip | src/inih/ini.c:128-138 | a section name written on a line is read back if and only if nothing in it ends it early |
| IniReader.ChunksProper | src/inih/ini.c:196-219 | the chunks concatenate to the text; each is non-empty, at most 199 long, with a newline only at its end, lacking one only if full or last |
| IniReader.ChunksUnique | src/inih/ini.c:196-219 | no other partition of a text has these properties |
| IniReader.ChunksConcat | src/inih/ini.c:196-219 | a text can be cut at any end of line and read in pieces |
| IniMachine.NameHistory | src/inih/ini.c:121-162 | at every line the previous name is the 49-character truncation of the latest pair's name since the last valid header, or empty |
| IniMachine.SectionHistory | src/inih/ini.c:128-138 | at every line the section is the truncated name of the last valid header, or empty |
| IniMachine.FirstLineNeverContinues | src/inih/ini.c:110-127 | the first line, byte order mark or not, is never a continuation |
| IniMachine.ErrorHistory | src/inih/ini.c:124-173 | the result is the least number of a malformed or rejected line, 0 if there is none |
| IniMachine.HandlerDoesNotSteer | src/inih/ini.c:105-173 | whatever the handler answers, all later lines are processed the same |
| IniMachine.RunAlike | src/inih/ini.c:105-162 | lines mean the same wherever they stand, except for a byte order mark on line 1 |
| IniMachine.CommentsAreInvisible | src/inih/ini.c:105-119 | inserting a comment or blank line between lines changes no section, name or value passed to the handler |
| IniMachine.BomMustStayFirst | src/inih/ini.c:110-112 | without the proviso of the previous row (no byte order mark pushed off line 1) it is false: a text whose name changes. The proviso is sufficient, not exact: some texts that violate it do not change |
| IniLines.ContinuationStep | src/inih/ini.c:114-127 | in any state with a previous name, an indented line that is no comment makes exactly one call, with that name and the text between the blanks, and keeps section and name |
| IniLines.UnindentedStep | src/inih/ini.c:114-162 | a line that starts with a non-blank is never a continuation: any call it makes has a name from its own front, which becomes the name in force |
| IniLines.PairStep | src/inih/ini.c:139-162 | key, delimiter `=` or `:`, value and inline comment, with blanks around them: the handler is given the bare key and value, in any state |
| IniLines.SectionStep | src/inih/ini.c:128-134 | a header, whatever follows its bracket, sets the section (49 characters) and clears the previous name |
| IniLines.MalformedStep | src/inih/ini.c:128-162 | a line without its bracket or delimiter records its number as the first error and does nothing else |
| IniRoundTrip.RoundTrip | src/inih/ini.c:74-228 | parsing any rendered list of sections, pairs and continuation lines makes exactly their calls, in order, with the right line numbers, and returns 0 if the handler accepts |
| IniRoundTrip.PrintAndParse | src/inih/ini.c:222-228 | the same round trip through the parser that works in place |
| IniRoundTrip.ExpectedEntries | src/inih/ini.c:121-157 | each expected call is the pair or continuation on the line it names, under the section and, for a continuation, the pair name in force there |
| IniRoundTrip.EntriesAreExpected | src/inih/ini.c:121-157 | every pair and every continuation has its call |
| IniBuffer.RStrip | src/inih/ini.c:34-39 | in place: the string becomes its right trim, nothing outside it changes |
| IniBuffer.LSkip | src/inih/ini.c:42-46 | the pointer reached holds the left trim |
| IniBuffer.FindCharsOrComment | src/inih/ini.c:51-64 | the loop with its blank flag finds the first stop |
| IniBuffer.StrNCpy0 | src/inih/ini.c:67-71 | the array holds the string truncated to 49 characters, terminated |
| IniBuffer.Parser.SectionBranch | src/inih/ini.c:128-138 | in-place section line: same effect as on sequences |
| IniBuffer.Parser.PairBranch | src/inih/ini.c:139-162 | in-place pair line: same effect as on sequences |
| IniBuffer.Parser.ValueBranch | src/inih/ini.c:145-152 | comment cut and trim of the value leave the key alone |
| IniBuffer.Parser.ParseLine | src/inih/ini.c:105-162 | for every line buffer, the NUL-writing sequence has the effect of split, strip and trim on sequences |
| IniBuffer.Parser.ReadLine | src/inih/ini.c:196-219 | the buffer holds the next chunk, terminated, and the context has moved past it |
| IniBuffer.Parser.Parse | src/inih/ini.c:74-174 | the loop ends with the whole text read and the state of the machine over its chunks |
| IniBuffer.ParseString | src/inih/ini.c:222-228 | result and handler calls are those of the machine over the text |
| Mailbox.RunInv | src/pdns-logger-queue.c:81-138 | over every interleaving, head and tail are the same node or both null, the multi-item branch is never taken, and deliveries keep push order |
| Mailbox.EveryPushHasOneFate | src/pdns-logger-queue.c:81-138 | every allocated node was delivered once, is held, or was dropped, exactly one of them |
| Mailbox.DroppedExactly | src/pdns-logger-queue.c:91-103 | a push is dropped exactly when another took place since the last pop |
| Mailbox.RefinesMailbox | src/pdns-logger-queue.c:81-138 | in every reachable state the queue steps like a one-slot mailbox |
| Mailbox.FifoExactly | src/pdns-logger-queue.c:81-138 | the queue agrees with an unbounded FIFO exactly on the event sequences in which no push follows another without a pop between; equivalently, when nothing is dropped |
| Mailbox.NothingDroppedExactly | src/pdns-logger-queue.c:91-103 | nothing is dropped exactly on those event sequences |
| Mailbox.NotAFifo | src/pdns-logger-queue.c:94-103 | two pushes, two pops: the second item is gone though its push succeeded |
| Mailbox.Handoff.Push | src/pdns-logger-queue.c:81-109 | status, visit to the assertion and new slot; the linking branch is dead |
| Mailbox.Handoff.Pop | src/pdns-logger-queue.c:111-138 | returns and empties the slot; the last branch is dead |
| Database.Exec | src/pdns-logger-sqlite.c:81-109 | terminates from any counter and under any failures, and raises the counter by at most one |
| Database.Flush | src/pdns-logger-sqlite.c:111-121 | terminates likewise, and raises the counter by at most two |
| Database.ExecBounded | src/pdns-logger-sqlite.c:81-109 | from any counter and under any failures `db_exec` issues at most 3 statements and flushes at most once |
| Database.FlushBounded | src/pdns-logger-sqlite.c:111-121 | from any counter `db_flush` issues at most 4, with at most one nested flush |
| Database.FlushBoundIsTight | src/pdns-logger-sqlite.c:81-121 | over arbitrary counters four is tight: from counter 48 inside a transaction, a state in which the program never calls it |
| Database.CallsFlushBounded | src/pdns-logger-sqlite.c:99-138 | at its calls in the program, under any failures, `db_flush` issues at most 2 statements from `db_exec` and at most 3 from `db_open` |
| Database.LongestFlushIsReached | src/pdns-logger-sqlite.c:123-138 | three are reached: a rotation after 44 inserts, whose BEGIN is the 50th statement |
| Database.FlushCommits | src/pdns-logger-sqlite.c:81-121 | a flush from any counter commits everything and leaves a transaction open, also when the batch fills on its COMMIT or BEGIN |
| Database.ExecStores | src/pdns-logger-sqlite.c:81-109 | from any counter and under any failures a statement adds exactly its row, if it succeeds, at the end of what is stored, and takes back nothing committed |
| Database.FlushStores | src/pdns-logger-sqlite.c:111-121 | a flush changes nothing about the stored rows and their order, under any failures |
| Database.OpenStores | src/pdns-logger-sqlite.c:123-138 | opening finds exactly the committed rows, under any failures |
| Database.InsertRestsExactly | src/pdns-logger-sqlite.c:81-121 | an insert attempt leaves the writer at rest (inside a transaction, at most `counter - 2` and at most 47 rows pending) exactly when the COMMIT and BEGIN that it may set off succeed |
| Database.StuckCommit | src/pdns-logger-sqlite.c:98-118 | while COMMIT fails every insert stays pending, so the bound of 47 needs dependable COMMITs |
| Database.OpenComesToRest | src/pdns-logger-sqlite.c:123-138 | with dependable BEGIN and COMMIT, opening comes to rest, inside a transaction if autocommit is off |
| Database.LiveInOrder | src/pdns-logger-sqlite.c:80-245 | over every run with rotations and every fault pattern: committed then pending rows are the rows kept earlier and this session's successful inserts, in order; each close lost a suffix of its session's inserts |
| Database.LiveBounded | src/pdns-logger-sqlite.c:80-245 | over every run with dependable BEGIN and COMMIT: always inside a transaction while open (autocommit off), and no close lost more than 47 rows |
| Database.RotateKeepsOrder | src/pdns-logger-sqlite.c:232-240 | under any failures a rotation keeps the committed rows and loses exactly the pending suffix |
| Database.LossBoundIsReached | src/pdns-logger-sqlite.c:98-102 | 94 inserts after a start without faults leave exactly the last 47 pending |
| Database.Store.DbExec | src/pdns-logger-sqlite.c:81-109 | the global variables change as in the machine; the mutual recursion terminates |
| Database.Store.DbFlush | src/pdns-logger-sqlite.c:111-121 | likewise |
| Database.Store.DbOpen | src/pdns-logger-sqlite.c:123-138 | likewise, with the status |
| Database.Store.DbClose | src/pdns-logger-sqlite.c:140-143 | pending rows are discarded |
| Pipeline.RunInv | src/pdns-logger-sqlite.c:149-164 | over every interleaving and fault pattern the queue and row-order invariants hold and successful inserts are a subsequence of deliveries |
| Pipeline.RunBounded | src/pdns-logger-sqlite.c:149-240 | with dependable BEGIN and COMMIT no rotation of any interleaving loses more than 47 rows |
| Pipeline.FileIsSubsequenceOfPushes | src/pdns-logger-sqlite.c:149-164 | over every interleaving and fault pattern the rows in the file are a subsequence of the rows pushed: none twice, out of order or from nowhere |
| Pipeline.LifeIsLive | src/pdns-logger-sqlite.c:149-240 | over every interleaving and fault pattern the database goes through exactly the deliveries of the queue, one insert each, and the rotations, in their order |
| Pipeline.FaultlessExecutesAll | src/pdns-logger-sqlite.c:149-164 | without faults, every delivered row is inserted: the rows ever accepted are exactly the rows delivered, in order |
| Pipeline.PushRow | src/pdns-logger-queue.c:140-152 | a push onto the queue in place is a step of the pipeline machine, with its status |
| Pipeline.WriterRound | src/pdns-logger-sqlite.c:156-162 | one round of the writer thread in place is a step of the pipeline machine: it pops the slot and executes exactly that row |
| Pipeline.RotateDb | src/pdns-logger-sqlite.c:232-240 | a rotation in place is a step of the pipeline machine; under any failures it keeps the committed rows and leaves nothing pending; with dependable BEGIN and COMMIT it leaves the writer at rest |
| LogRows.Latest | src/pdns-logger-sqlite.c:349-377 | the last record, if any, that has a field |
| LogRows.ColumnsDoNotMix | src/pdns-logger-sqlite.c:274-343 | each column set before the records depends on its own message field and on nothing else |
| LogRows.RowsOf | src/pdns-logger-sqlite.c:343-388 | an accepted message has max(1, n_rrs) rows |
| LogRows.LogRow | src/pdns-logger-sqlite.c:267-391 | exactly the accepted messages give rows, each with its own name and the latest type, class, ttl and data |
| LogRows.LogRecords | src/pdns-logger-sqlite.c:345-380 | the record loop with its carried variables gives those rows |
| LogRows.PointToData | src/pdns-logger-sqlite.c:365-377 | the pointer leads to the latest data although the two address buffers are reused |
| LogRows.LaterRecordsDoNotMatter | src/pdns-logger-sqlite.c:349-380 | a row depends on no later record |
| LogRows.NameColumn | src/pdns-logger-sqlite.c:351 | `rname` of row i is the name of record i |
| LogRows.TypeColumn | src/pdns-logger-sqlite.c:353-355 | `rtype` of row i is the type name of the last record up to i that has a type |
| LogRows.ClassColumn | src/pdns-logger-sqlite.c:357-359 | likewise `rclass` |
| LogRows.TtlColumn | src/pdns-logger-sqlite.c:361-363 | likewise `rttl` |
| LogRows.DataColumn | src/pdns-logger-sqlite.c:365-377 | likewise `rdata`, rendered by the type number and length of the record it comes from |
| LogRows.AbsentColumns | src/pdns-logger-sqlite.c:282-286 | a column whose field no record up to i has is empty or 0 |
| LogRows.NoRecordColumns | src/pdns-logger-sqlite.c:381-384 | without records the record columns are empty or 0 |
| LogRows.HeadColumns | src/pdns-logger-sqlite.c:304-343 | the exact value of the nine other columns in every row, each from its own field |
| LogFile.LinesOf | src/pdns-logger-file.c:204-270 | an accepted message has max(1, n_rrs) lines |
| LogFile.LinesGrow | src/pdns-logger-file.c:208-264 | each line of a message is a prefix of the next |
| LogFile.LinesExact | src/pdns-logger-file.c:135-264 | while the fragments fit 1023 characters, each line is their exact concatenation |
| LogFile.Print | src/pdns-logger-file.c:138-140 | `snprintf` cuts the text to the buffer and returns its full length |
| LogFile.StrNCat | src/pdns-logger-file.c:138-140 | `strncat` appends at most n characters and a NUL |
| LogFile.LineBuffer.Put | src/pdns-logger-file.c:137-141 | the line stays the concatenation of the fragments and `sz` what is left of 1023 |
| LogFile.LineBuffer.PutHead | src/pdns-logger-file.c:137-202 | the fragments before the records, in order |
| LogFile.LineBuffer.PutRecord | src/pdns-logger-file.c:211-261 | the fragments of one record, in order |
| LogFile.Log.LogMessage | src/pdns-logger-file.c:113-273 | exactly the accepted messages, with the file open, append their lines |
| LogFile.Log.LogRecords | src/pdns-logger-file.c:204-264 | the record loop appends one line per record |
| LogReader.LineText | src/pdns-logger-file.c:135-264 | line i is the text of the fields present up to record i, in order QID, from, qtype, qclass, qname, rcode, rrcount, policy, then name, type, class, ttl and data of each record, cut off after 1023 characters |
| LogReader.LineReadsBack | src/pdns-logger-file.c:135-264 | while the line fits and no value contains a blank, a reader of the text recovers exactly those fields, in that order |
| LogReader.FieldOnLine | src/pdns-logger-file.c:135-264 | then what is read under any label is what the message logs there; an absent field and a later record leave no label |
| LogReader.HeadOnLine | src/pdns-logger-file.c:137-202 | the value read under each of the eight labels before the records, by message field |
| LogReader.RecordOnLine | src/pdns-logger-file.c:211-261 | the value read under each of the five labels of record k, on its own line and all later ones, by record field |
| LogReader.SameLineExactly | src/pdns-logger-file.c:135-264 | two messages have the same i-th line exactly when they log the same under every label of it |
| Daemon.ConnectionLog | src/pdns-logger-protobuf.c:27-88 | for every slicing, the log of what has been delivered is a prefix of the log of the stream's deliverable frames, and all of it once the connection has ended other than by a failing read |
| Daemon.Connect | src/pdns-logger-protobuf.c:27-153 | read loop and loggers composed: the lines added to the open file and the rows handed on are such a prefix, and all of it at such an end |
| Daemon.DatabaseFollowsStream | src/pdns-logger-sqlite.c:149-391 | for any number of connections at once, whatever the slicing, interleaving, failures and rotations, the rows that the database holds of a connection are a subsequence of the rows of its stream's frames |
| Daemon.DispatchOne | src/pdns-logger-protobuf.c:27-45 | one payload: its lines and rows, nothing if it cannot be decoded |
| Daemon.Dispatch | src/pdns-logger.c:30-40 | with the file open, the log is the in-order concatenation over the frames; the rows always are |
| Daemon.LogOfWanted | src/pdns-logger-protobuf.c:27-45 | a decoded message with a response, in an enabled logger, with rewrites-only off or a policy applied, adds its lines and rows, in order; any other payload adds none |

## Left out

- LogFile.Log.LogMessage: requires that the budget `sz` is not negative before the last fragment; line building beyond that point is not modelled.
- LogFile.LineBuffer.Put: the same condition, for one fragment.
- Daemon.Dispatch: the same condition, for every message.
- Daemon.DispatchOne: the same condition, for one message.
- Daemon.Connect: the same condition, for every deliverable message; decoding takes place after the reads instead of between them, in the same order.
- LogFile.LineBuffer.PutHead: the same condition.
- LogFile.LineBuffer.PutRecord: the same condition.
- LogFile.Log.LogRecords: the same condition.
- LogReader.LineReadsBack: for lines that are not cut off, values without blanks and number formatting that is blank-free and injective; `LogReader.LineText` has none of these conditions.
- LogReader.FieldOnLine: the same conditions.
- LogReader.HeadOnLine: the same conditions.
- LogReader.RecordOnLine: the same conditions.
- LogReader.SameLineExactly: the same conditions.
- Pipeline.RunInv: a rotation is a step of its own; the lock does not cover a statement that the writer thread is executing, so overlap is not modelled.
- Database.FlushCommits: assumes that BEGIN and COMMIT fail only because of the transaction state.
- Database.OpenComesToRest: the same assumption.
- Database.LiveBounded: the same assumption; without it the bound is false (`Database.StuckCommit`).
- Pipeline.RunBounded: the same assumption.
- IniMachine.CommentsAreInvisible: the proviso about a byte order mark is sufficient but not exact.
- Sockets, accept, fcntl, fork, signals and command-line handling: operating-system plumbing; only what `read` returns is kept.
- Protobuf decoding and the SQLite engine and SQL text: external; a message is a datatype, a row a tuple.
- src/pdns-logger-syslog.c: repeats the log file's line building.
- src/pdns-logger-dns.c: constant tables; they are parameters.
- The option handlers: last-assignment updates.
- `ini_parse` and `ini_parse_file`: the same parser over `fgets`; the string reader is modelled.
- Condition-variable timing in the queue: a wait is an arbitrary delay.
- Null queue pointers in `fifo_push_item` and `fifo_pop_item`: they only return early.
- Width of `int` for `lineno`, `error` and `counter`: unbounded in the model.
- Builds with assertions on: the process stops at the first dropped push or undecodable payload.
