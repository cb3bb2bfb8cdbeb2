# Verified model of Tollan's ingest and query core

Tollan is a log server. This project models the parts of it in which a small slip loses, repeats or misreads
log records, and proves properties of each model for all inputs, all runs or all reachable states. Verify it with
`dafny verify dfyconfig.toml`.

Code that changes state step by step is modelled by classes and methods with loops (`JournalFiles.Journal`,
`JournalReader.Reader`, `Processing.Processor`, `QueryParser.Parser`, `SqlCompile.Compiler`, `LogStore.Store`,
`Gelf.Reassembler`, `Docker.LineBuffer`, `SyslogTcp.Conn`, `CondDsl.CondParser`, `StructuredData.Message`). Each
method is proved equal to a function on values; the results below are lemmas about those functions.

| files | what they model |
|---|---|
| `Bytes`, `Frames`, `TornTail`, `JournalModel`, `Journal` | segments as byte strings, their frames, torn frames, the journal on values and as a class over a directory |
| `ReaderModel`, `Reader`, `JournalRuns`, `Restarts`, `StepBack`, `Processing` | the consumer in steps, whole runs with crashes, where a restart resumes, the processor's loops |
| `QueryAst`, `QueryLexer`, `QueryParser`, `QueryGrammar`, `QueryPrinter`, `QueryTexts` | the query language from characters to trees and back |
| `Wildcard`, `QueryMeaning`, `SqlCompile`, `QueryFields` | three-valued meaning, the SQL condition with positional parameters, and what it reads field name by field name |
| `StableSort`, `DayStore`, `Store`, `StoreRuns`, `Search`, `SearchRows`, `QuerySearch`, `QueryPages`, `Aggregate`, `QueryAggregate` | day partitions, retries, retention, paging, histogram, query text to page, aggregation over the store |
| `Gelf`, `GelfChunks`, `Docker`, `SyslogTcp` | chunk reassembly and stream framing |
| `CondLexer`, `CondDsl`, `CondGrammar`, `CondPrinter`, `CondFields` | pipeline conditions compiled to closures, their grammar, and what each function asks of a message |
| `StructuredData`, `SyslogFields` | RFC 5424 structured data and header, and the fields they set |
| `Wrappers`, `Sequences`, `SortedSets`, `Text`, `Quoting` | shared small concepts |

How the model stands to the program:

- A journal record is its encoded bytes; sequence and length fit their 8 and 4 header bytes.
- `JournalFiles.Disk` separates a directory's names from the files behind them, so a reader can hold a file that eviction has unlinked.
- One call of `Reader.Next` is split where the program releases the journal's lock: reading a frame, taking the snapshot, opening the chosen segment. `JournalRuns` lets appends, evictions, close and crashes fall between any two steps, and between moving the cursor in memory and writing it to disk.
- SQL conditions are a datatype with a Kleene evaluator. Full-text matching, character comparison in LIKE, number parsing and SQLite's numeric affinity are parameters of the environment. A parsed number may be infinite or NaN; SQLite binds NaN as NULL. The full-text language reads the barewords AND, OR and NOT as operators, so an expression `AND*` fails the search, and it ends at a NUL, so a phrase with one is unterminated.
- A group key has a kind besides its text, since SQL groups the number 1 and the text "1" apart while the program reads both as one string.
- The order in which the database visits rows with equal times, and the order of map iteration, are arbitrary.
- In the store times are integers and days are integer quotients; metrics are reals; percentiles are exact fractions.
- A fault in the store is a parameter: at which insert or commit an attempt fails, at which statement a deletion does.
- GELF time is one reading of the clock per packet, in nanoseconds.

Where the code does not do what its purpose or its documentation suggests, the model follows the code, a lemma says
exactly when it does, and another one gives an input on which it does not:

- `highestSeq` returns 0 for an empty segment and for one that holds only record 0, so a journal stopped with an empty first segment resumes at sequence 1 (`NextAfterStop`); a reader that waits for record 0 there never returns from `Next`, on a closed journal either (`NextSpinsIff`, `EmptyFirstSegmentSpins`).
- A torn frame stays in the middle of the reopened segment; the record appended next is found by the reader, reading on or seeking afresh, exactly when the stop was on a frame boundary (`AppendAfterTornTail`, `NextRecordIsFoundIff`, `SoughtRecordIsFoundIff`, `TornSecondRecord`).
- The reader's counter can step back, since a jump past evicted records keeps the old file when the new one is gone too; a run shows it, and deliveries stay in order nevertheless (`CounterStepsBack`, `DeliveryInOrder`).
- A prefix search whose stem is AND, OR or NOT once stripped, as in `AND*`, reaches the full-text language as an operator, and a NUL in any other term leaves its phrase open (`FtsMatchIsInert`, `SearchableIff`, `AndStarFails`, `NulIsRejected`).
- `NOT field:value` does not select a row without the field, nor does `NOT field:>NaN` select any row; the rows missed are those that fail the pessimistic reading (`MissedRows`, `NotLeafDiffers`, `NotMissesAbsent`, `NotMissesNaN`).
- A merged minimum or maximum takes a partial group without values for a zero: a day without rows, or a key's group of another kind (`ExtremesAreRightWhen`, `UngroupedExtremes`, `GroupedExtremes`, `EmptyDayMakesZero`, `MixedKindsMakeZero`).
- The comment in `aggregate.go` calls a merged average an average of averages; the code weights by row count, which is right for all values exactly when every partial group with values has them in the same proportion to its rows (`AverageIsRightWhen`, `AverageCanBeWrong`).
- A negative timestamp off a bucket's start falls outside its histogram bucket (`InOwnBucket`, `BeforeEpochIsMisplaced`).
- The two statements of `DeleteStreamBefore` run outside a transaction (`StoppedPruneIff`, `HalfPruneLeavesRow`, `StoreBetweenStatements`, `LateMessageLeavesEntry`).
- An empty GELF chunk leaves its slot empty but is counted (`ExactUnlessEmpty`, `CompletesEarlyIff`, `EmptyChunkTwice`), and a chunk whose index lies past the held message's slots fails to index them (`PanicsIff`, `TwoDatagramsPanic`), which ends the program (`HandledUpToPanic`).
- RFC 5424 allows backslashes in names, the scanners take them for escapes (`ElementReadBackIff`, `BackslashIdIsLost`); quotes at the ends of a value are trimmed (`ValueReadBackIff`, `OuterQuotesAreLost`); dots in ids and names make keys coincide (`KeysCollideIff`, `DottedIdsCollide`).

## Model

| member | source | states |
|---|---|---|
| Frames.ScanOfPrefix | internal/journal/journal.go:160-185 | from any frame boundary of any byte prefix of a segment, the scan returns the last complete frame's sequence |
| Frames.HighestSeqOfPrefix | internal/journal/journal.go:160-185 | on every torn segment with a complete frame, `highestSeq` finds the last one; otherwise 0 |
| Frames.HighestSeq | internal/journal/journal.go:160-185 | the scanning loop computes the scan function |
| Frames.ReadFrame | internal/journal/reader.go:109-124 | a frame is returned exactly when header and payload are complete, with the bytes it takes |
| Frames.Seek | internal/journal/reader.go:148-160 | the seek loop computes the seek function |
| Frames.SeekLands | internal/journal/reader.go:148-160 | in a well-formed segment, seeking lands on the target's frame, or on the end when it has none |
| Frames.FrameAtBoundary | internal/journal/reader.go:109-124 | in every byte prefix of a segment, at the k-th boundary there is exactly frame k if it is complete |
| Frames.EncodeInjective | internal/journal/journal.go:219-231 | a segment's bytes determine its records |
| Frames.AppendAfterTornTail | internal/journal/journal.go:137-141 | reopening without truncation yields a well-formed segment on the next write if and only if the stop was on a frame boundary |
| TornTail.NextRecordIsFoundIff | internal/journal/journal.go:137-141 | after a stop at any byte, the record appended next is found where the reader stands if and only if the stop was on a frame boundary |
| TornTail.SoughtRecordIsFoundIff | internal/journal/reader.go:148-160 | a reader that opens the segment afresh and seeks the appended record finds it if and only if the stop was on a frame boundary |
| TornTail.NextSpinsIff | internal/journal/reader.go:54-105 | after recovery from a stop at any byte, a reader standing where its seek ended goes round for ever if and only if it waits for record 0 in a first segment without a whole frame |
| TornTail.EmptyFirstSegmentSpins | internal/journal/reader.go:54-105 | an empty first segment of a closed journal |
| TornTail.TornSecondRecord | internal/journal/journal.go:137-141 | a journal of two records stopped one byte into the second: the next record is not found, neither in place nor by a seek |
| JournalFiles.NextAfterStop | internal/journal/journal.go:124-136 | after a stop at any byte, recovery assigns the sequence after the last complete frame if and only if there is one or the base is positive; else 1 |
| JournalFiles.NextAfterBoundary | internal/journal/journal.go:124-136 | the same for a stop between frames |
| JournalFiles.RecoverNext | internal/journal/journal.go:124-136 | the next sequence computed from the last segment's bytes and base |
| JournalFiles.ListSegments | internal/journal/journal.go:97-122 | the directory's segments in base order with the sizes of their files |
| JournalFiles.Journal.Open | internal/journal/journal.go:73-94 | opening any directory gives the state its names, bytes and offset determine; that of a stopped journal gives the journal back |
| JournalFiles.Journal.Recover | internal/journal/journal.go:97-156 | the listed segments, the scan of the last one, torn or not, and the clamped cursor; a stopped journal is restored, but an empty first segment gives next sequence 1 |
| JournalFiles.Journal.Append | internal/journal/journal.go:201-242 | the class's append, with rotation and eviction, is the model's append; closed journals refuse; the sequence is the old log's length |
| JournalFiles.Journal.PrepareActive | internal/journal/journal.go:212-229 | an active segment exists, rotated when the frame would exceed the limit |
| JournalFiles.Journal.Rotate | internal/journal/journal.go:261-272 | rotation is adding an empty segment at the next sequence, on disk and in the list |
| JournalFiles.Journal.EvictLocked | internal/journal/journal.go:276-286 | the eviction loop is the model's eviction, names and tracked sizes included |
| JournalFiles.Journal.EvictOldest | internal/journal/journal.go:276-286 | dropping the oldest segment unlinks its name, keeps its file, and moves a cursor that would point into it |
| JournalFiles.Journal.Advance | internal/journal/journal.go:335-341 | the cursor moves behind the committed sequence and never back |
| JournalFiles.Journal.Persist | internal/journal/journal.go:342-347 | the offset file is replaced, or left as it was when writing fails |
| JournalFiles.Journal.Depth | internal/journal/journal.go:307-314 | the number of records at or after the cursor |
| JournalFiles.Journal.Close | internal/journal/journal.go:350-365 | closing changes nothing but the flag and the active handle |
| JournalModel.EvictStops | internal/journal/journal.go:276-286 | eviction stops within the cap or at one segment, drops none it need not, and touches only the front and a cursor in it |
| JournalModel.AppendExtends | internal/journal/journal.go:201-242 | an append keeps every record and only drops from the front |
| JournalModel.BeginsSegmentIff | internal/journal/journal.go:212-218 | an append begins a segment if and only if there is none, or the last one holds a record and would outgrow its limit |
| JournalModel.AppendWithinCap | internal/journal/journal.go:216-294 | with bounded segments, an append leaves every segment within maxSeg or one oversized record, and the total within max(maxTotal, maxSeg, largest frame) |
| JournalRuns.AppendStaysWithinCap | internal/journal/journal.go:216-294 | the size bound after every append of every run from an empty directory, crashes included |
| ReaderModel.ReadDelivers | internal/journal/reader.go:54-67 | a delivered frame carries the record appended under its sequence, follows the last delivered one, and passes over evicted sequences only |
| ReaderModel.SnapshotKeeps | internal/journal/reader.go:69-88 | a snapshot keeps the invariant and reports the end only when nothing stored is left |
| ReaderModel.OpenLands | internal/journal/reader.go:128-169 | opening either leaves the reader as it was or lands on the wanted sequence's frame |
| ReaderModel.JournalMoves | internal/journal/reader.go:54-105 | appends, rotation and eviction between steps keep the reader's invariant |
| StepBack.CounterStepsBack | internal/journal/reader.go:80-144 | a run of ten appends, reader steps between them, whose next delivery sets the counter from 3 to 2 |
| ReaderModel.Progress | internal/journal/reader.go:54-105 | left alone with a stored record unread, the reader delivers it within four steps |
| JournalReader.PlacedRead | internal/journal/reader.go:109-124 | the byte offset of an open file reads the record of the sequence it stands for |
| JournalReader.PlacedStable | internal/journal/reader.go:109-124 | appends and rotation never move an offset off its frame |
| JournalReader.Reader.constructor | internal/journal/reader.go:28-36 | starts at the larger of the cursor and the first stored sequence, with no file open |
| ReaderModel.StartsAtCursor | internal/journal/reader.go:28-36 | for every journal a reader starts at the larger of the cursor and the first stored sequence |
| Restarts.RestartResumes | internal/journal/reader.go:28-36 | in every reachable state a restart resumes at the larger of the cursor on disk and the first stored sequence |
| Restarts.ResumesAtCursor | internal/journal/reader.go:28-105 | until the next start, whatever happens, nothing before that sequence is delivered, and everything from it on is delivered or evicted |
| Restarts.CommittedIsNotRepeated | internal/journal/journal.go:329-347 | over any run with restarts and crashes, a record behind the cursor on disk is never delivered after a later start; the cursor on disk never goes back |
| JournalReader.Reader.ReadStep | internal/journal/reader.go:54-67 | reading at the offset is the model's read |
| JournalReader.Reader.SnapshotStep | internal/journal/reader.go:69-98 | the critical section is the model's snapshot |
| JournalReader.Reader.OpenStep | internal/journal/reader.go:128-169 | choosing, opening and seeking is the model's open, a vanished file included |
| JournalReader.ChooseSegment | internal/journal/reader.go:129-139 | the last segment whose base is at most the target |
| JournalReader.AppendWhileReading | internal/journal/journal.go:201-242 | an append between two reader steps keeps the reader's offsets valid |
| JournalRuns.StepKeeps | internal/journal/reader.go:54-169 | the system invariant holds after each step of producer, reader, processor, crash and restart |
| JournalRuns.DeliveryInOrder | internal/journal/reader.go:54-169 | in every interleaving deliveries strictly increase, carry their own records, and skip evicted sequences only |
| JournalRuns.AtLeastOnce | internal/processing/processor.go:117-161 | the cursor on disk never passes a record neither processed nor evicted; any other stored record lies ahead of a reader after restart |
| JournalRuns.ProcessedWasGathered | internal/processing/processor.go:117-161 | in every reachable state, what counts as processed is exactly what was in a processed batch |
| JournalRuns.DrainedAtEnd | internal/processing/processor.go:84-100 | when the run ends by close, every record is processed or evicted and the cursor equals nextSeq, on disk too unless the last commit failed |
| JournalRuns.MaxSeqIsLast | internal/processing/processor.go:119-124 | the largest sequence of a batch is its last one |
| Processing.StoreWithRetry | internal/processing/processor.go:163-179 | after up to three attempts whole days of the batch are stored once or not at all; all of them on success, which there is if and only if an attempt meets no fault |
| Processing.StoredOnce | internal/processing/processor.go:163-179 | a batch stored by retries holds each message exactly once |
| Processing.DecodedConcat | internal/processing/processor.go:117-144 | the messages of a batch in two parts are those of the first, then those of the second |
| Processing.DecodedOne | internal/processing/processor.go:117-144 | a record gives its message if it decodes and is not dropped, else nothing |
| Processing.DecodedAt | internal/processing/processor.go:117-144 | every record that decodes has its message in the batch's, behind those of the records before it |
| Processing.Next | internal/journal/reader.go:54-105 | undisturbed, Next ends, delivering the next stored record, or reporting that everything left is evicted |
| Processing.Gather | internal/processing/processor.go:104-115 | a batch is the next stored records in order; a short one means none is left |
| Processing.Processor.ProcessBatch | internal/processing/processor.go:117-161 | if and only if an attempt meets no fault, the batch is forwarded, and then the message of every record that decodes is stored exactly once; the cursor moves behind the largest sequence in either case |
| Processing.Processor.Run | internal/processing/processor.go:84-100 | an undisturbed run delivers everything stored in order and once, the cursor follows to the end, and of every batch the store took each decodable record's message is stored once at the end and was forwarded |
| Processing.AllForwarded | internal/processing/processor.go:84-161 | when the store takes every batch, the messages of all delivered records are stored once each and forwarded in order |
| QueryAst.HasWildcard | internal/search/query/ast.go:78-85 | true exactly when * or ? occurs |
| QueryLexer.Lex | internal/search/query/lexer.go:43-128 | the loop computes the token function, whose only error is an unterminated quote |
| QueryLexer.TokensAreWellLexed | internal/search/query/lexer.go:43-128 | a token list has one end token, its last, and its words are non-empty and free of stop characters |
| QueryTexts.WordIsRead | internal/search/query/lexer.go:105-125 | a word up to the next stop character is one token, and exactly four words are keywords |
| QueryTexts.BlanksAreSkipped | internal/search/query/lexer.go:49-50 | blanks, tabs and line ends stand between tokens |
| QueryTexts.BackslashTakesNext | internal/search/query/lexer.go:88-104 | in quotes a backslash takes the next character, whatever it is |
| QueryTexts.NoQuoteNoError | internal/search/query/lexer.go:43-128 | a query without a double quote never fails to tokenize |
| QueryParser.Parser.ParseOr | internal/search/query/parser.go:39-53 | the method computes the disjunction function from its position and never passes the end token |
| QueryParser.Parser.ParseRange | internal/search/query/parser.go:147-172 | the range rule, whose failing case may consume the end token |
| QueryParser.Parse | internal/search/query/parser.go:12-29 | a query string's tree or first error |
| QueryGrammar.ParserIsGrammar | internal/search/query/parser.go:36-172 | the parser returns a tree if and only if the tokens are a sentence of the stated grammar denoting it |
| QueryGrammar.GrammarIsUnambiguous | internal/search/query/ast.go:3-10 | a sentence has one tree |
| QueryPrinter.ParsePrinted | internal/search/query/parser.go:12-172 | parsing a printed tree gives the tree, through characters and tokens |
| QueryPrinter.PrintableIsParseable | internal/search/query/lexer.go:43-128 | the printable trees are exactly the trees that queries denote |
| QueryTexts.FieldParses | internal/search/query/parser.go:103-145 | an unquoted `field:value` is read as written, and `_exists_:field` as presence |
| QueryTexts.ComparisonParses | internal/search/query/parser.go:103-145 | an unquoted `field:>value` is read as written |
| QueryTexts.TermsParse | internal/search/query/parser.go:55-73 | two terms side by side ask for both |
| Wildcard.LikePattern | internal/logstore/sqlite/compile.go:299-315 | the loop computes the translation |
| Wildcard.TranslationIsExact | internal/logstore/sqlite/compile.go:299-315 | LIKE on the translated pattern matches exactly what the wildcard pattern matches, for every pattern, text and character comparison |
| Wildcard.StarMatchesAnySuffix | internal/logstore/sqlite/compile.go:299-315 | a star stands for any text |
| Wildcard.QuestionMatchesOne | internal/search/query/ast.go:78-85 | a question mark stands for exactly one character |
| Wildcard.PlainGlobIsEquality | internal/logstore/sqlite/compile.go:82-97 | without wildcards a pattern is equality |
| QueryMeaning.FtsMatchIsInert | internal/logstore/sqlite/compile.go:270-295 | a term becomes one bare prefix or one closed phrase if and only if it is no prefix search for AND, OR or NOT, and holds no NUL unless a prefix search strips it |
| QueryMeaning.NulIsRejected | internal/logstore/sqlite/compile.go:270-295 | a phrase that ends in NUL |
| QueryMeaning.OrAndNotAreOperators | internal/logstore/sqlite/compile.go:270-295 | so do `OR*` and `NOT*` |
| QueryMeaning.FtsMatchKeeps | internal/logstore/sqlite/compile.go:270-284 | a phrase holds the term's characters in place with blanks for double quotes; exactly a term with its only star at the end, behind a letter, a digit or an underscore, becomes a prefix |
| QueryMeaning.StemKeeps | internal/logstore/sqlite/compile.go:286-295 | a prefix keeps every letter, digit and underscore in place and nothing else |
| QueryMeaning.AndStarIsAnOperator | internal/logstore/sqlite/compile.go:270-295 | `AND*` and `A-ND*` become the operator AND and a star |
| QueryMeaning.UnknownIsBlank | internal/logstore/sqlite/compile.go:82-172 | a leaf is unknown exactly on an absent value or against a NaN that no other bound decides |
| QueryMeaning.DecidedAgrees | internal/logstore/sqlite/compile.go:35-62 | every selected row satisfies the two-valued reading, every rejected one fails it |
| QueryMeaning.SelectedIsPess | internal/logstore/sqlite/compile.go:35-62 | a query selects exactly the rows of the pessimistic two-valued reading, and rules out exactly those that fail the optimistic one |
| QueryMeaning.MissedRows | internal/logstore/sqlite/compile.go:35-62 | the rows that satisfy the two-valued reading and are not selected are exactly those that fail the pessimistic one |
| QueryMeaning.ReadingsAgree | internal/logstore/sqlite/compile.go:35-62 | the readings agree where no negated leaf is without an answer |
| QueryMeaning.NotLeafDiffers | internal/logstore/sqlite/compile.go:35-62 | for a negated leaf the readings differ exactly where it has no answer |
| QueryMeaning.NotMissesAbsent | internal/logstore/sqlite/compile.go:82-97 | a concrete negation that misses rows without the field |
| QueryMeaning.NotMissesNaN | internal/logstore/sqlite/compile.go:109-119 | a concrete negation that misses rows with the field |
| SqlCompile.ValidateFieldName | internal/logstore/sqlite/compile.go:254-267 | the loop accepts exactly the safe names |
| SqlCompile.Compiler.Walk | internal/logstore/sqlite/compile.go:35-62 | the compiler that appends to its arguments in place computes the compile function |
| SqlCompile.CompilePreservesMeaning | internal/logstore/sqlite/compile.go:17-161 | with every ? bound to its argument from left to right, the condition evaluates to the tree's three-valued meaning on every row |
| SqlCompile.CompilesIffCompilable | internal/logstore/sqlite/compile.go:35-215 | compilation succeeds exactly on trees with legal names and operators and numeric values where numbers are compared |
| QueryFields.ColumnSelects | internal/logstore/sqlite/compile.go:224-237 | each column's name selects exactly the rows whose own column holds the text |
| QueryFields.ColumnExists | internal/logstore/sqlite/compile.go:99-107 | a column exists unless it is null or empty |
| QueryFields.FieldSelects | internal/logstore/sqlite/compile.go:82-107 | every other usable name reads the message's own field: equality, wildcard, presence |
| QueryFields.UnusableSelectsNothing | internal/logstore/sqlite/compile.go:254-267 | a name outside the alphabet compiles to nothing |
| QueryFields.BodySelects | internal/logstore/sqlite/compile.go:77-85 | `message`, `body` and bare terms ask the full-text index |
| QueryFields.TimeCompares | internal/logstore/sqlite/compile.go:109-127 | `timestamp` and `ts` compare with the event time, `received` and `received_at` with the receipt |
| QueryFields.FieldCompares | internal/logstore/sqlite/compile.go:109-127 | fields compare as numbers under the four operators |
| QueryFields.ColumnCompares | internal/logstore/sqlite/compile.go:109-127 | columns compare as texts |
| QueryFields.RangeSelects | internal/logstore/sqlite/compile.go:129-161 | a range holds what lies between its bounds, a bound itself if included; open at both ends it selects every row |
| QueryFields.TimeRangeSelects | internal/logstore/sqlite/compile.go:129-161 | the same for the two times |
| QueryFields.ColumnRangeSelects | internal/logstore/sqlite/compile.go:129-161 | the same for columns, as texts |
| QueryFields.ExtremeCompares | internal/logstore/sqlite/compile.go:204-215 | infinities lie beyond every number, nothing compares with NaN, and a text that is no number does not compile |
| QueryFields.TextBoundSelects | internal/logstore/sqlite/compile.go:163-172 | a range bound that is no number is what the database makes of it, or sorts above every number |
| SqlCompile.SearchableIff | internal/logstore/sqlite/compile.go:77-97 | the expressions bound to MATCH are prefixes and closed phrases if and only if no leaf is rejected as above |
| SqlCompile.WhereSelects | internal/logstore/sqlite/search.go:226-258 | a row is selected exactly when the query is true of it, its time is in bounds and its stream is the one asked for |
| StableSort.TopsAreEnough | internal/logstore/sqlite/search.go:128-176 | the first n of each sorted part suffice for the first n of all |
| StableSort.StableSortIsUnique | internal/logstore/sqlite/search.go:372-379 | a sorted list that keeps the order within each key is the stable sort |
| DayStore.InsertAllKeeps | internal/logstore/sqlite/store.go:117-169 | inserting a day's batch keeps order, unique ids, the day of every row and the index's mirror, and holds every id of it |
| DayStore.StoringTwiceIsStoringOnce | internal/logstore/sqlite/store.go:128-160 | storing a day's batch twice is storing it once |
| DayStore.PruneKeeps | internal/logstore/sqlite/search.go:96-125 | both statements together keep the mirror |
| DayStore.IndexPrunedAlone | internal/logstore/sqlite/search.go:110-118 | after the first statement alone the index mirrors the table if and only if nothing was selected |
| DayStore.HalfPruneLeavesRow | internal/logstore/sqlite/search.go:110-118 | one row, and a prune that stops after its first statement |
| DayStore.LateMessageLeavesEntry | internal/logstore/sqlite/search.go:110-118 | a message stored between the statements on an empty day |
| DayStore.StoreBetweenStatements | internal/logstore/sqlite/search.go:110-118 | with a message stored between the statements the index mirrors the table if and only if the prune does not select it |
| LogStore.GroupByDay | internal/logstore/sqlite/store.go:104-108 | each day's messages in order, for exactly the days that occur |
| LogStore.Store.StoreDay | internal/logstore/sqlite/store.go:117-169 | one day's transaction: all of the batch, or nothing when any insert or the commit fails |
| LogStore.Store.Store | internal/logstore/sqlite/store.go:100-115 | days in any order up to the first failure: committed days whole, others untouched; it succeeds if and only if no day meets a fault, and no day that meets one is committed |
| LogStore.Store.DropBefore | internal/logstore/sqlite/search.go:68-91 | exactly the partitions of days before the cutoff are removed, and counted |
| LogStore.DroppedDays | internal/logstore/sqlite/search.go:68-91 | what is left are the partitions from the cutoff on, each as it was |
| LogStore.Store.DeleteStreamBefore | internal/logstore/sqlite/search.go:96-125 | day by day up to the statement that fails: earlier days lose exactly the stream's old rows and index entries, later ones nothing; the count is right |
| LogStore.PrunedRows | internal/logstore/sqlite/search.go:96-125 | both statements take exactly the rows of the stream from before the cutoff |
| LogStore.StoppedPruneIff | internal/logstore/sqlite/search.go:103-123 | a deletion that stops leaves every index a mirror if and only if it does not stop between two effective statements |
| LogStore.RetryMerges | internal/processing/processor.go:163-179 | a retry after a partial failure is storing the union of the days once |
| LogStore.StoredExactlyOnce | internal/processing/processor.go:163-179 | each message of a stored day occurs exactly once |
| LogStore.StoredRow | internal/logstore/sqlite/store.go:100-169 | a new message is in the partition of the day of its time, or of its receipt without one, in a row with its columns and its milliseconds |
| LogStore.StoreKeepsIdsUnique | internal/logstore/sqlite/store.go:100-169 | a batch stored wholly or in part keeps every id in one partition |
| StoreRuns.RunKeeps | internal/logstore/sqlite/store.go:100-169 | in every run of attempts, retries, drops and deletions, stopped or not between days: rows in their own day, unique ids, index equal to the (rowid, body) pairs |
| StoreRuns.RetryIsEnabled | internal/processing/processor.go:163-179 | a batch that may be stored may be stored again after any attempt |
| Search.Search | internal/logstore/sqlite/search.go:128-176 | the fan-out's page and total are those of the list of all matching rows sorted at once, whose rows `SearchRows` counts |
| QuerySearch.SearchText | internal/api/search.go:38-101 | a query text is parsed, compiled and searched: the parser's error, nothing without a day in range, the compiler's error, a rejected expression, or the page and total of the fan-out |
| QuerySearch.PageHoldsWanted | internal/logstore/sqlite/search.go:128-176 | the rows paged are exactly the stored rows that the text's tree is true of, in time range and stream |
| QuerySearch.WhereIsWanted | internal/logstore/sqlite/search.go:226-258 | the WHERE clause sent to the database selects exactly these rows |
| QuerySearch.AndStarFails | internal/logstore/sqlite/compile.go:270-284 | `AND*` parses as a term, and the term is an operator stem |
| Search.AllMatchesAreTheMatches | internal/logstore/sqlite/search.go:226-244 | the rows sorted at once are exactly the matching rows of the store, in time order |
| SearchRows.MatchesIff | internal/logstore/sqlite/search.go:205-258 | a stored row matches exactly when the condition selects it, its millisecond overlaps the range in nanoseconds and the stream is the one asked for |
| SearchRows.InRangeIff | internal/logstore/sqlite/search.go:180-203 | a day is asked exactly when some instant of it is in range |
| SearchRows.AllMatchesCounts | internal/logstore/sqlite/search.go:128-176 | every matching row is listed as often as the partitions hold it, any other row never |
| SearchRows.NoIdTwice | internal/logstore/sqlite/search.go:128-176 | in a store with unique ids no id is listed twice |
| SearchRows.TotalIsPlaces | internal/logstore/sqlite/search.go:332-342 | the total is the number of places (day, position) that hold a matching row |
| SearchRows.InTimeOrder | internal/logstore/sqlite/search.go:160-166 | earlier rows first, or later rows first, as asked |
| SearchRows.PageIs | internal/logstore/sqlite/search.go:160-176 | the page is the rows from the offset on, at most limit of them, 100 by default |
| QueryPages.PageIsRight | internal/api/search.go:38-101 | in a request's own terms: total, size, members and order of the page, no message twice, and nothing left out of a first page comes before what is on it |
| Search.PrunedDayIsEmpty | internal/logstore/sqlite/search.go:180-203 | a day outside the range holds no matching row |
| Search.PagesTile | internal/logstore/sqlite/search.go:160-176 | consecutive pages are the list, without gap or repeat |
| Search.Histogram | internal/logstore/sqlite/search.go:280-330 | buckets in order, each with the count of the matching rows of all days that start there |
| Search.HistogramSumsToTotal | internal/logstore/sqlite/search.go:280-305 | the bucket counts sum to the matching rows |
| Search.MatchingIsTotal | internal/logstore/sqlite/search.go:280-342 | as many as the search's total |
| Search.BeforeEpochIsMisplaced | internal/logstore/sqlite/search.go:307-330 | -1 is counted in the bucket that starts at 0 |
| Search.InOwnBucket | internal/logstore/sqlite/search.go:307-330 | a time lies in its bucket if and only if it is non-negative or on a bucket's start |
| Search.StartIsMultiple | internal/logstore/sqlite/search.go:307-330 | a start is a multiple of the interval, the last one up to a non-negative time, the next one for a negative time |
| SearchRows.BucketIsPlaces | internal/logstore/sqlite/search.go:307-330 | a bucket counts the places whose row falls into it |
| Aggregate.Accumulate | internal/logstore/sqlite/aggregate.go:162-197 | the accumulators hold, per key, its partial results merged |
| Aggregate.MergeIsUnion | internal/logstore/sqlite/aggregate.go:89-118 | merged count and sum are those of all rows; extremes when every part has a value; averages when every row has one |
| Aggregate.ValuesOne | internal/logstore/sqlite/aggregate.go:74-85 | a value counts as itself, NULL as none |
| Aggregate.SelectOne | internal/logstore/sqlite/aggregate.go:162-172 | a row counts for the text its key reads as, without a key for the empty text |
| Aggregate.GroupedAggregation | internal/logstore/sqlite/aggregate.go:66-134 | the same for each key of a grouped aggregation over any days, SQL keys that read as one string together |
| Aggregate.GroupedExtremes | internal/logstore/sqlite/aggregate.go:103-134 | a key's minimum is right if and only if every SQL group read as the key has a value or some value is at most zero; the maximum likewise |
| Aggregate.MixedKindsMakeZero | internal/logstore/sqlite/aggregate.go:162-197 | a number 1 without a value and a text "1" with 5 in one day: minimum 0 |
| Aggregate.UngroupedSums | internal/logstore/sqlite/aggregate.go:102-105 | the same without a group field |
| Aggregate.ExtremesAreRightWhen | internal/logstore/sqlite/aggregate.go:162-197 | a merged minimum is right if and only if every partial group has a value or some value is at most zero; the maximum likewise |
| Aggregate.UngroupedExtremes | internal/logstore/sqlite/aggregate.go:102-105 | the same over the days in range, each of which yields a row |
| Aggregate.EmptyDayMakesZero | internal/logstore/sqlite/aggregate.go:102-105 | a day that holds 5 next to a day without a row: minimum 0 |
| Aggregate.AverageIsRightWhen | internal/logstore/sqlite/aggregate.go:144-183 | a merged average is right for every choice of values if and only if each partial group with values has the same share of rows with one |
| Aggregate.AverageCanBeWrong | internal/logstore/sqlite/aggregate.go:144-160 | 3 for 5/2, from one row without a value |
| Aggregate.AggregateDays | internal/logstore/sqlite/aggregate.go:66-134 | the answer holds the first rows, at most limit and 50 by default, of the one ordered list of all keys' merged values; what is left out comes after them and has no larger value |
| QueryAggregate.StoreAggregation | internal/logstore/sqlite/aggregate.go:66-134 | asked of the partitions in range, each key's count, sum, extremes and average are those of all matching rows of the store, under the conditions above |
| QueryAggregate.CountIsPlaces | internal/logstore/sqlite/aggregate.go:66-134 | a key's count is the number of places that hold a matching row reading as the key |
| QueryAggregate.StoreTotals | internal/logstore/sqlite/aggregate.go:66-134 | without a group field, count and sum are those of all matching rows, and the extremes are right if and only if every day in range has a value or some value is on the other side of zero |
| QueryAggregate.AnswerOfStore | internal/logstore/sqlite/aggregate.go:120-123 | a grouped answer has one row for each key that a matching row reads as, and no other |
| QueryAggregate.AggregateStore | internal/logstore/sqlite/aggregate.go:66-134 | the loop over the days in range returns the first rows of the one ordered list of that answer |
| QueryAggregate.MatchingIsWanted | internal/logstore/sqlite/search.go:226-258 | the rows aggregated are exactly the stored rows that the query's tree is true of, in time range and stream |
| Aggregate.OneAnswer | internal/logstore/sqlite/aggregate.go:124-129 | rows can be put in order in one way only |
| Aggregate.BeforeIff | internal/logstore/sqlite/aggregate.go:124-129 | larger values come first, equal values by the first character in which their keys differ, a proper beginning first |
| Aggregate.Percentile | internal/logstore/sqlite/aggregate.go:277-290 | the nearest rank: at least the fraction is at or below it, less than the fraction lies below |
| Gelf.Reassembler.Add | internal/input/gelf.go:128-162 | the method on the table is the receive function, expiry, completion and index failure included |
| Gelf.Reassembler.EvictExpired | internal/input/gelf.go:164-171 | exactly the expired messages go |
| Gelf.Isolation | internal/input/gelf.go:128-162 | an id sees only its own chunks and the clock |
| Gelf.RunKeeps | internal/input/gelf.go:128-162 | every held message has count slots and filled <= received < count, under all packets |
| Gelf.RunCountsFilledSlots | internal/input/gelf.go:149-154 | received equals the filled slots while no chunk is empty |
| Gelf.Reassembles | internal/input/gelf.go:128-162 | in any order, with repeats and among other ids, the slots are the chunks seen since the first live one, and exactly the last missing chunk yields the message in order |
| GelfChunks.SentIsReassembled | internal/input/gelf.go:128-162 | round trip: a message cut into at most 128 chunks, sent as datagrams in any order, repeated and among others, within the timeout, comes back whole with the last missing chunk |
| GelfChunks.ParseIff | internal/input/gelf.go:128-136 | a datagram is a chunk exactly when its header is whole and its index is below a count of 1 to 128 |
| GelfChunks.FilledStays | internal/input/gelf.go:149-152 | a filled slot is not overwritten while its message is held |
| GelfChunks.HeldFiveSeconds | internal/input/gelf.go:164-171 | a message is held for five seconds from its first chunk, and dropped at the next chunk after that |
| Gelf.LastMissingChunkCompletes | internal/input/gelf.go:128-162 | within the timeout nothing comes before the last missing chunk, then the whole message |
| Gelf.ExactUnlessEmpty | internal/input/gelf.go:149-152 | the count stays exact if and only if no empty chunk meets an empty slot |
| Gelf.CompletesEarlyIff | internal/input/gelf.go:149-155 | a message completes with a slot missing if and only if its last count came from an empty chunk |
| Gelf.EmptyChunkTwice | internal/input/gelf.go:149-155 | two empty copies of one chunk complete a message of two |
| Gelf.TwoDatagramsPanic | internal/input/gelf.go:128-149 | two datagrams on which indexing fails |
| Gelf.HandledUpToPanic | internal/input/gelf.go:128-162 | the packets handled are those up to the first whose index fails |
| Gelf.OneCountHandlesAll | internal/input/gelf.go:128-162 | as long as ids do not change their count, every packet is handled |
| Gelf.PanicsIff | internal/input/gelf.go:144-149 | indexing fails if and only if the index lies past the live message's slots |
| Docker.SegmentsAreTheText | internal/input/docker.go:289-305 | terminated segments and the rest, joined, are the text, and hold no newline |
| Docker.TrimTrims | internal/input/docker.go:297-297 | only carriage returns are trimmed, and all trailing ones |
| Docker.LinesOfConcat | internal/input/docker.go:289-305 | text in two pieces has the first's lines, then those of the second behind the first's rest |
| Docker.LineBuffer.Flush | internal/input/docker.go:289-305 | the lines of buffer and data are emitted, their rest is kept |
| Docker.Demux | internal/input/docker.go:255-285 | the loop over frames with one buffer per stream type emits what the frames' specification says |
| Docker.FramesOfEncoded | internal/input/docker.go:255-275 | reading frames undoes writing them, up to an unfinished last one |
| Docker.LinesIgnoreFraming | internal/input/docker.go:255-305 | per stream type, the emitted lines are those of its concatenated bytes |
| Docker.SameStreamsSameLines | internal/input/docker.go:255-305 | two framings of the same streams emit the same lines |
| Docker.DemuxUndoesFraming | internal/input/docker.go:255-305 | end to end from encoded frames |
| Docker.DemuxShows | internal/input/docker.go:255-305 | frames of type 2 are shown as stderr, those of another type as stdout, each line by line |
| Docker.FirstLine | internal/input/docker.go:295-303 | a terminated line comes out without its trailing carriage returns, unless nothing is left |
| Bytes.FourBytes | internal/input/docker.go:264-264 | four bytes of size, the most significant first |
| SyslogTcp.DecimalRoundTrip | internal/input/syslog.go:107-107 | reading a printed length gives the length |
| SyslogTcp.Conn.TrimSpace | internal/input/syslog.go:126-135 | the two loops trim blanks at the front, and blanks and line ends at the back |
| SyslogTcp.Conn.ReadOctetFramed | internal/input/syslog.go:102-117 | one frame is emitted and consumed, or the connection stops |
| SyslogTcp.Conn.HandleConn | internal/input/syslog.go:70-98 | the loop emits what the specification of the stream says |
| SyslogTcp.CountedIff | internal/input/syslog.go:102-117 | an octet-counted frame is read back if and only if its length is from 1 to 2^20; otherwise nothing more is |
| SyslogTcp.LinedIff | internal/input/syslog.go:86-97 | a text without newline is read back as a line, whatever follows, if and only if it is non-empty, starts with no digit and ends in no CR |
| SyslogTcp.DecodesEncoded | internal/input/syslog.go:70-136 | any mixture of frames and lines is handed on message by message |
| SyslogTcp.LineEndings | internal/input/syslog.go:86-97 | carriage returns before a newline or the end do not count, and the last line needs no newline |
| SyslogTcp.BlankLines | internal/input/syslog.go:86-97 | a line of nothing else is not handed on |
| SyslogTcp.PaddedCount | internal/input/syslog.go:102-136 | tabs and line ends behind a length do not count; lengths are 1 to 1048576 |
| SyslogTcp.ZerosRead | internal/input/syslog.go:107-107 | nor do zeros in front of it |
| SyslogTcp.BadCount | internal/input/syslog.go:102-110 | a length with other characters, or without its blank, ends the connection |
| SyslogTcp.CutFrame | internal/input/syslog.go:102-117 | a connection that ends within a counted frame hands on nothing of it |
| CondLexer.Lex | internal/pipeline/dsl/lex.go:30-101 | the loop computes the token function; one end token, last |
| CondFields.FailsIff | internal/pipeline/dsl/lex.go:30-101 | a text fails at its head exactly at a lone & or |, an open quote, or a character that starts nothing |
| CondFields.FailureEnds | internal/pipeline/dsl/lex.go:30-101 | and that ends the tokenizing |
| CondFields.BlanksAreSkipped | internal/pipeline/dsl/lex.go:36-37 | blanks, tabs and line ends stand between tokens |
| CondDsl.BuildCond | internal/pipeline/dsl/dsl.go:219-310 | a call's closure decides its meaning on every message; wrong calls fail as the code does |
| CondDsl.CondParser.ParseOr | internal/pipeline/dsl/dsl.go:112-127 | the closure denotes the tree of the tokens read; the position stays before the end |
| CondDsl.CondParser.ParseUnary | internal/pipeline/dsl/dsl.go:146-168 | negation, parentheses and calls |
| CondDsl.CondParser.ParseArgs | internal/pipeline/dsl/dsl.go:188-212 | arguments up to the parenthesis, a trailing comma allowed |
| CondDsl.CompileCondition | internal/pipeline/dsl/dsl.go:84-102 | the compiled closure computes the meaning of the text's tree on every message, or the parser's error |
| CondGrammar.ParserIsGrammar | internal/pipeline/dsl/dsl.go:112-212 | the parser returns a tree if and only if the tokens are a sentence of the stated grammar denoting it and its calls compile |
| CondGrammar.GrammarIsUnambiguous | internal/pipeline/dsl/dsl.go:112-212 | a sentence has one tree |
| CondPrinter.ParsePrinted | internal/pipeline/dsl/dsl.go:84-212 | a printed tree, its texts in quotes of either kind and its numbers bare, is read as itself when its calls compile, else fails with its leftmost call's error |
| CondPrinter.CompiledMeansTree | internal/pipeline/dsl/dsl.go:84-212 | a compiled printed condition computes the tree's Boolean meaning on every message, and exists exactly when every call compiles |
| CondFields.CallCompilesIff | internal/pipeline/dsl/dsl.go:219-310 | the functions, their numbers of arguments, and what their last argument has to be |
| CondFields.OwnAttributes | internal/schema/message.go:83-93 | the names of a message's own attributes, missing when empty |
| CondFields.OtherFields | internal/schema/message.go:94-99 | every other name is a field |
| CondFields.HasAndNeq | internal/pipeline/dsl/dsl.go:227-242 | has asks whether the attribute equals any text; neq is the contrary of eq |
| CondFields.TextTests | internal/pipeline/dsl/dsl.go:243-281 | contains, regex and cidr test the text the attribute equals; contains asks for an occurrence |
| CondFields.NumberTests | internal/pipeline/dsl/dsl.go:282-306 | comparisons test the number the attribute's text stands for |
| CondFields.NumberCallParses | internal/pipeline/dsl/dsl.go:84-212 | `gte(status, 500)` is read as written, for every comparison, name and number |
| CondFields.SingleQuotedParses | internal/pipeline/dsl/dsl.go:84-212 | so is a text in single quotes |
| CondFields.PaddedParses | internal/pipeline/dsl/dsl.go:84-88 | white space around a condition does not count, and nothing else stands for true |
| StructuredData.IndexCloseBracket | internal/decode/syslog.go:192-208 | the loop computes where the element closes |
| StructuredData.TokenizeSD | internal/decode/syslog.go:212-239 | the loop computes the tokens |
| StructuredData.ScannersAgree | internal/decode/syslog.go:192-239 | on every text, the first scanner stops exactly at the first bracket where the tokenizer would end its token on a space, outside quotes and unescaped |
| StructuredData.TokensPass | internal/decode/syslog.go:212-239 | the tokenizer passes over any text with no escape pending and goes on in the state at its end |
| StructuredData.OutsideIff | internal/decode/syslog.go:212-239 | a space adds nothing to the tokens if and only if that state is outside quotes and unescaped |
| StructuredData.ElementReadBackIff | internal/decode/syslog.go:192-239 | a printed element is closed at its bracket and cut into its unescaped tokens if and only if its names hold no backslash, whatever its values |
| StructuredData.ValueReadBackIff | internal/decode/syslog.go:118-118 | a value is stored as it is if and only if it neither begins nor ends with a double quote |
| StructuredData.LastEntryStays | internal/decode/syslog.go:112-120 | of entries with one key the last stays |
| StructuredData.StructuredDataReadBack | internal/decode/syslog.go:89-121 | printed structured data sets its parameters' fields and leaves the message |
| StructuredData.ParameterStored | internal/decode/syslog.go:106-121 | a parameter's value is read back if and only if the last parameter with its key leaves it; for the last one, if and only if no quote is at its ends |
| StructuredData.DistinctParametersStored | internal/decode/syslog.go:106-121 | with dot-free ids and no parameter twice, every value is read back if and only if no quote is at its ends |
| StructuredData.OtherFieldsKept | internal/decode/syslog.go:106-121 | a field that no parameter is named for keeps its value |
| StructuredData.KeysCollideIff | internal/decode/syslog.go:119-119 | two parameters share a key if and only if they are the same or one id is the other, a dot and the beginning of the other's name |
| StructuredData.DotFreeKeys | internal/decode/syslog.go:119-119 | with dot-free ids keys tell parameters apart |
| StructuredData.DottedIdsCollide | internal/decode/syslog.go:119-119 | a.b with c and a with b.c |
| StructuredData.BackslashIdIsLost | internal/decode/syslog.go:192-208 | an id ending in a backslash is not read back |
| StructuredData.OuterQuotesAreLost | internal/decode/syslog.go:118-118 | a quoted word loses its quotes |
| StructuredData.MessageReadBack | internal/decode/syslog.go:58-85 | a printed message's header, parameters and text are read back |
| SyslogFields.MessageFields | internal/decode/syslog.go:58-121 | field by field: host, program, procid and msgid under their names unless nil, the time unless nil or unreadable, each parameter under sd, id and name, the trimmed text, all else as it was |
| SyslogFields.NilMessageFields | internal/decode/syslog.go:58-93 | the same without structured data |
| SyslogFields.ShortIsText | internal/decode/syslog.go:58-63 | a message with fewer than six blanks is its own text |
| SyslogFields.LeftToMessage | internal/decode/syslog.go:89-103 | text that is no element, or an element never closed, is left to the message |
| SyslogFields.TokenSetsTrimmed | internal/decode/syslog.go:106-121 | a token without an equals sign sets nothing |
| SyslogFields.TrimQuotesOf | internal/decode/syslog.go:118-118 | exactly the quotes at the ends of a value go |
| StructuredData.Split | internal/decode/syslog.go:153-166 | the loop computes the fields, the last keeping the rest |
| StructuredData.Message.ParseSD | internal/decode/syslog.go:89-103 | the method on the message is the function on its fields |
| StructuredData.Message.Parse | internal/decode/syslog.go:58-85 | the method sets the header, the fields and the text as specified |

## Left out

- I/O errors other than a vanished segment, a failed offset write and a failed store; contexts and the notify channel, which only make a waiting call return.
- Segment and offset file names as text, JSON of records and fields, UUIDs: abstract.
- A stop in the middle of the last frame in `JournalRuns`: crashes there fall between file operations; torn tails are treated in `Frames`, `JournalFiles` and `TornTail`. Nor does a crash fall between the creation of the first segment and its first write; `JournalFiles.NextAfterStop` and `TornTail.NextSpinsIff` say what follows one.
- Sequence numbers from 2^64 and frames from 2^32 bytes on.
- Processing.Next: no other party acts during the call; with others acting, `JournalRuns` has the results.
- Processing.Gather: no other party acts during the batch; `JournalRuns` has the results with others acting.
- Processing.Processor.Run: no other party acts during the run, and it returns where the program would wait; it says nothing about the store's contents after several batches beyond its invariant; `StoreRuns` has them.
- DayStore.InsertAllKeeps: stored times stay below 2^62 milliseconds.
- Days are integers; the order of day names as strings agrees with it up to the year 9999.
- QuerySearch.SearchText: a rejected full-text expression fails every search that asks a day, although the database may never come to evaluate it; the caps on limit and offset are the caller's.
- TornTail.NextRecordIsFoundIff: for records of twelve bytes or more without a zero byte, as JSON objects are, and sequences below 2^56.
- TornTail.SoughtRecordIsFoundIff: for the same records and sequences.
- QueryAggregate.StoreTotals: the average without a group field is left at `Aggregate.UngroupedSums`, over the days; percentiles are not composed with the store.
- SqlCompile.CompilePreservesMeaning: full-text matching, number texts, LIKE's comparison of characters and numeric affinity are parameters, the same on both sides.
- Aggregate.Percentile: fractions instead of floating point; sums are over reals.
- SyslogTcp.Conn.HandleConn: a finished stream of bytes; TLS, deadlines and the buffer's size are not modelled.
- Docker.Demux: a finished stream; the TTY branch, timestamps in lines and following of containers are not modelled.
- Gelf.Reassembler.Add: telling chunks from whole datagrams, null-delimited TCP and the sending of payloads are not modelled.
- CondDsl.BuildCond: regular expressions, CIDR blocks and number parsing are parameters; field values are strings already; NaN and the infinities do not occur there.
- Actions, rule order, stream routing and outputs beyond the list of forwarded messages.
- StructuredData.Message.Parse: the text form of times is a parameter; the priority and RFC 3164 messages are not modelled.
- HTTP, authentication, users, agents, content packs, the web interface and the command line.
