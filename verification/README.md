# A verified model of the SQL engine

A Dafny model of a small SQL engine in C, with proofs of the guarantees its parts give each other:

- `BPTreeShape.dfy`, `BPTree.dfy`: the B+ tree id index, on the heap, with its splits.
- `Tables.dfy`, `TableRuntime.dfy`: what a table is and what INSERT and SELECT do to it; the table
  object and the executor that do so.
- `Sessions.dfy`, `Interleaving.dfy`, `Progress.dfy`: many workers at once, registry mutex and table locks
  included; that every schedule is serial, and every fair one finishes.
- `RequestQueue.dfy`, `WorkerPool.dfy`: the server's request queue and its threads.
- `Tokenizer.dfy`, `Layout.dfy`, `Parser.dfy`, `SqlText.dfy`, `Splitter.dfy`: from SQL text to statements.
- `Csv.dfy`, `TableFiles.dfy`, `Lines.dfy`, `Storage.dfy`: the CSV storage engine.
- `HashIndex.dfy`, `RangeIndex.dfy`: the indexes built for one query.
- `Json.dfy`, `Http.dfy`, `Requests.dfy`: the server's request reader, and what it makes of the bytes.
- `Text.dfy`, `Comparing.dfy`, `Statements.dfy`, `Wrappers.dfy`: what they share, and what comparing comes to.

`dafny verify dfyconfig.toml` checks the whole project.

## How the code is modelled

Each C routine that works by changing things is a method, proved against a function that says what it
computes; the guarantees are lemmas about those functions. An array that is part of a C structure
(`keys[31]`, `columns[32]`) is a field of type `seq` of fixed length that is updated cell by cell, as no
pointer to it can be kept elsewhere; a growing buffer is a `seq` that is appended to. A character is one
byte; C strings have no NUL in them.

Threads are interleaved steps. Each step is an action that the C code does under a lock or between two
lock operations; schedules are arbitrary sequences of thread numbers, and a thread that has to wait does
not step. A condition variable is the set of its sleepers, with signals that wake any one of them and
wakeups for no reason. `recv` delivers any number of bytes that fit, then the end of the stream.

A file is a sequence of bytes; a missing file is `None`. `qsort` is any permutation of the entries that is
sorted where the comparison is a consistent order.

## Where the code does not do what it promises

- Range queries compare two integers as integers and all else as text, so two kinds of them can give wrong rows.
  On a column that mixes integers and other text comparing need not be a consistent order
  (`RangeIndex.NotTransitive`, `NothingSorts`, `MixedColumnFails`); then no order qsort may leave is answered
  wrongly exactly if the value has all entries on one side (`RangeIndex.InconsistentExactly`). On any other
  column, sorted as it then is, the value can stand out of step with the entries (`RangeIndex.IntegersFail`);
  `RangeIndex.ConsistentExactly` states exactly when it does not. An integer on a column of integers, and any
  value on a column with none, are always answered rightly (`RangeIndex.RangeQueryExact`).
- A single-column row with an empty value is lost on loading; `TableFiles.LoadedWritten` states exactly when a
  table comes back as it was.
- A value with a line break is written and never read back: the table's file does not load any more, and no
  statement on it succeeds again (`Storage.LineFeedLocks`, `BrokenStays`). `Storage.ReadableExactly` states
  exactly which runs keep the file readable.
- A first INSERT that fails leaves an empty table file, and a DELETE on that file makes a table that no INSERT
  can ever fill (`Storage.FailedInsertLocksTable`, `EmptyIdLocks`). `Storage.LockedExactly` states exactly which
  runs end so that no INSERT can succeed, `Storage.FirstSucceeds` and `InsertSucceeds` exactly when one does.
- In a request, sql is not found behind a key or value of 64 characters or more; `Json.SqlExtracted` states
  exactly when it is.
- A blank Content-Length value in the last header line is read out of the body, so that the verdict depends on
  how the request arrives (`Http.BlankLengthDepends`); `Http.IndependentExactly` states from the bytes exactly
  when it does not.

## Model

| member | source | states |
|---|---|---|
| `BPTree.BPTree.Insert` | src/bptree.c:300-335 | A fresh key binds exactly one more pair in the map, through any chain of splits, and keeps the whole invariant (order, separators, parent pointers, no sharing, heights, fill); a key that is there is refused and no field of any node changes; the nodes added are new. |
| `BPTree.BPTree.Search` | src/bptree.c:78-99 | The row of a key if and only if the map binds it, whatever the shape of the tree. |
| `BPTree.BPTree.FindLeaf` | src/bptree.c:61-76 | Ends at the one leaf whose bounds hold the key, in exactly as many steps as the tree has levels. |
| `BPTree.BPTree.SplitLeaf` | src/bptree.c:165-221 | From a full leaf and one more pair: both halves have at least 16 keys, hang off the parent, and the map gains just that pair. |
| `BPTree.BPTree.SplitInternal` | src/bptree.c:223-298 | From a full inner node with a right half that only the caller holds: it is split around the middle key, both parts keep at least 16 children, and the tree is whole again with nothing lost. |
| `BPTree.BPTree.InsertIntoParent` | src/bptree.c:125-163 | Takes a tree whose split-off right half hangs nowhere yet and gives back a whole one with the contents of both halves in place. |
| `BPTree.BPTree.GrowRoot` | src/bptree.c:125-142 | The same for a split root: one more level above the two halves. |
| `BPTree.BPTree.JoinParent` | src/bptree.c:144-157 | The same where the parent has room. |
| `BPTree.BPTree.InsertAtLeaf` | src/bptree.c:101-123 | In a leaf with room: the map gains just that pair and no other node changes. |
| `BPTree.BPTree.InsertFirst` | src/bptree.c:300-318 | The first pair makes a root that is a leaf. |
| `BPTree.InsertIntoLeaf` | src/bptree.c:101-123 | The pair is put before the first key not below it, the others keep their order. |
| `BPTree.InsertIntoInternal` | src/bptree.c:29-46 | The separator and the child to its right are put in at the given place, the others keep their order. |
| `BPTree.FindChildIndex` | src/bptree.c:9-24 | The slot of a child in its parent, the first if there are more, or none. |
| `BPTree.BPTree.HeightBound` | src/bptree.c:165-298 | A tree of height h >= 2 holds at least 2 * 16^(h-1) keys, every leaf being h levels down. |
| `BPTree.BPTree.LeafChain` | src/bptree.c:165-221 | Following next from the leftmost leaf visits every leaf once and lists the whole map in strictly increasing key order. |
| `BPTree.BPTree.PlaceOf` | src/bptree.c:61-76 | The leaf that the descent ends at is the only place the key can be. |
| `BPTreeShape.MapOfInsert` | src/bptree.c:101-123 | Putting one pair into a sorted list adds exactly one binding to its map. |
| `BPTreeShape.LeavesChained` | src/bptree.c:165-221 | Below any subtree, the leaves are chained left to right, distinct, and list its pairs. |
| `BPTreeShape.PlugFits` | src/bptree.c:223-298 | Putting a subtree that fits its bounds back where another was gives a whole tree that fits. |
| `TableRuntime.TableRuntime.InsertRow` | src/table_runtime.c:427-485 | The object after the call is the specified table: one row more under the next id and indexed, or nothing but the name set; the result is the slot or the reason. |
| `TableRuntime.TableRuntime.AppendRow` | src/table_runtime.c:452-485 | Row, index entry, count and next id move together, or none does when the id would pass INT_MAX. |
| `TableRuntime.TableRuntime.InitializeSchema` | src/table_runtime.c:114-150 | id first, then the columns of the statement; a refused statement does not load the table. |
| `TableRuntime.TableRuntime.ValidateSchema` | src/table_runtime.c:86-112 | The first column that differs in name or kind, or a wrong count, is the error of the specification. |
| `TableRuntime.TableRuntime.ReserveIfNeeded` | src/table_runtime.c:337-359 | Room for a row, with all rows there kept. |
| `TableRuntime.TableRuntime.BuildRow` | src/table_runtime.c:152-189 | The id in decimal, then the values. |
| `TableRuntime.TableRuntime.LinearScan` | src/table_runtime.c:495-559 | The slots in row order of exactly the rows that pass, as `SatisfiesMeans` says per operator and kind of column, or the first error. |
| `TableRuntime.TableRuntime.GetRowBySlot` | src/table_runtime.c:487-493 | The row of a slot in range, else none. |
| `TableRuntime.FindColumnIndex` | src/table_runtime.c:70-84 | The first column with the name, case folded. |
| `TableRuntime.TableRuntime.ExecuteSelect` | src/executor.c:369-412 | By whichever of its three paths, the SELECT of the specification. |
| `TableRuntime.TableRuntime.CanUseIdIndex` | src/executor.c:262-293 | When the index may answer, and the key. |
| `TableRuntime.TableRuntime.CollectRowsById` | src/executor.c:295-309 | The projected rows of the slot the B+ tree has for the key, or none. |
| `TableRuntime.TableRuntime.CollectRows` | src/executor.c:175-237 | The selected cells of the rows at the slots, in order. |
| `TableRuntime.TableRuntime.PrepareProjection` | src/executor.c:130-173 | Positions and names of the selected columns, or the failure on an unknown one. |
| `Tables.InsertKeepsOrder` | src/table_runtime.c:427-485 | One INSERT keeps ids, rows, counter and index in agreement, adds exactly one row or changes none, and never an earlier one. |
| `Tables.InsertRun` | src/table_runtime.c:427-485 | Over every run of accepted and refused INSERTs: ids 1, 2, 3, ... in row order, the index binds exactly them to their slots, rows fit the schema, earlier rows stay. |
| `Tables.InsertExact` | src/table_runtime.c:427-485 | An INSERT is accepted exactly if it fits the name and, name by name and kind by kind, the schema, or can make one, and the next id is at most INT_MAX; the whole table after it, accepted or not. |
| `Tables.InsertRefused` | src/table_runtime.c:86-150 | Which error a refused INSERT gets: that of the name, then of the number of columns, then of the first column that does not fit, then of the id. |
| `Tables.IndexAgreesWithScan` | src/executor.c:262-330 | For every WHERE the index may answer, signs, leading zeros, quotes and absent ids included, it gives what the scan gives. |
| `Tables.IndexUsed` | src/executor.c:262-293 | The index answers exactly for an equality on the id with a literal, in any spelling, of a number from 0 to INT_MAX, and then with exactly the slots of the rows that pass. |
| `Tables.SelectExact` | src/executor.c:369-412 | A SELECT gives, in insertion order, cell by cell the wanted columns of exactly the rows that pass its WHERE: on an integer column by the numbers that cell and literal denote, on a text column by the first byte that differs or a proper beginning. It fails exactly on an unknown column or, on an integer column, on a cell or literal that is no 64-bit integer. |
| `Tables.SatisfiesMeans` | src/table_runtime.c:191-231 | What each operator says of a cell: on an integer column of the two numbers, else of the two texts. |
| `Tables.SelectAll` | src/executor.c:239-257 | Without columns and WHERE the whole table, as it is. |
| `Tables.MatchingExact` | src/table_runtime.c:495-559 | The slots found are increasing and are exactly those of the rows that satisfy the predicate, which `SatisfiesMeans` spells out. |
| `Text.EqualsIgnoreCase` | src/utils.c:103-118 | Whether the two names fold to the same. |
| `Text.LettersFold` | src/utils.c:103-118 | Of two characters, the 26 letters are the same in either case, and all others only if equal. |
| `Text.SameLetters` | src/utils.c:103-118 | Names are the same letter by letter. |
| `Text.ClassCodes` | src/tokenizer.c:62-147 | Digits, letters and white space of the C locale, by code. |
| `Text.IsInteger` | src/utils.c:145-167 | An optional sign and at least one digit, nothing else. |
| `Text.DecimalParses` | src/utils.c:176-192 | A printed number parses back to itself. |
| `Comparing.IntegerTexts` | src/utils.c:145-192 | The accepted integer literals are exactly the texts of a number in decimal, behind any zeros and a sign that suits it, and each has the value of that number. |
| `Comparing.ParsedNumber` | src/utils.c:176-192 | Parsing succeeds exactly on the texts of the numbers from -2^63 to 2^63 - 1. |
| `Comparing.DecimalExact` | src/table_runtime.c:152-189 | A number is printed as the one string of digits of that value without zeros in front. |
| `Comparing.DigitPlaces` | src/utils.c:176-192 | Each digit counts by its place, a power of ten. |
| `Text.StrCmpAntisymmetric` | src/utils.c:198-210 | strcmp is antisymmetric and 0 only on equal strings. |
| `Text.StrCmpTransitive` | src/utils.c:198-210 | strcmp is transitive. |
| `Comparing.StrCmpMeans` | src/utils.c:198-210 | strcmp is negative exactly if the first text is a proper beginning of the second or has the smaller byte where they first differ, 0 exactly on equal texts, else positive. |
| `Comparing.OperatorsMean` | src/table_runtime.c:191-231 | What the six operators say of two integer literals, two texts and two values of any kind, each by that order; any other operator holds of none. |
| `Interleaving.ResultsAreSerial` | src/table_runtime.c:361-425 | Under every schedule, each result is the one its statement gets when the statements run one at a time in lock-acquisition order; a worker's own statements keep their order. What a statement gets then say `SelectAlone`, `InsertAlone`, `StrayAlone` and `DeleteAlone`. |
| `Interleaving.FinishedIsSerial` | src/executor.c:332-412 | When all is done the log interleaves exactly the scripts, the registry has exactly the tables that running it serially makes, each name once, and all locks are free. |
| `Interleaving.WritersExclude` | src/table_runtime.c:285-303 | A writer of a table shares its lock with no other holder. |
| `Interleaving.EntriesAccounted` | src/table_runtime.c:233-273 | One entry a case-folded name, and none but those an INSERT asked for: failed reads add none. |
| `Interleaving.SomeoneCanStep` | src/table_runtime.c:361-425 | No deadlock: while a worker has statements left, some worker can step. |
| `Progress.StepAdvances` | src/table_runtime.c:361-425 | Every step of every worker leaves less to do: outside the table locks, or as much there and less under them. |
| `Progress.FairFinishes` | src/table_runtime.c:361-425 | Under every schedule that gives each worker its turn again and again, waiting or not, all statements are done some time. |
| `Interleaving.StepKeeps` | src/table_runtime.c:361-425 | Every step of every worker keeps the invariant: names, mutex, table locks, tables and results. |
| `Interleaving.ReaderAlone` | src/table_runtime.c:285-303 | Whoever holds a lock beside another does not write. |
| `Interleaving.WaitsFor` | src/table_runtime.c:285-303 | When a worker waits: for its table exactly on a writer, or on any holder if it is to write; for the registry exactly on whoever has its mutex; else never. |
| `Sessions.SelectAlone` | src/executor.c:369-412 | A SELECT fails for its table only if the name is empty or there is no such table, case folded; else it gives what `SelectExact` says of that table, and changes nothing. |
| `Sessions.InsertAlone` | src/executor.c:332-367 | An INSERT goes to the table of its name, or to a new one: it succeeds exactly if it fits and an id is left, and then that table alone has its row more. |
| `Sessions.StrayAlone` | src/executor.c:332-367 | An INSERT that names the id, or no table, or a new one whose name is too long, fails with that error and changes nothing. |
| `Sessions.DeleteAlone` | src/executor.c:414-419 | A DELETE is refused and changes nothing. |
| `Sessions.SelectStepOk` | src/executor.c:369-412 | Each step of a SELECT keeps what it has collected equal to the part of the specified result. |
| `Sessions.InsertStepOk` | src/table_runtime.c:427-485 | Each step of an INSERT keeps the half-changed table equal to the part done of the specified one. |
| `Sessions.Lookup` | src/table_runtime.c:233-245 | An entry with the name, case folded, if and only if there is one. |
| `RequestQueue.RequestQueue.constructor` | src/server.c:78-94 | An empty ring. |
| `RequestQueue.RequestQueue.Push` | src/server.c:124-141 | Appends at the end, across wraparound, unless shut down or all 32 places are taken; then nothing changes. |
| `RequestQueue.RequestQueue.Pop` | src/server.c:147-167 | Takes the oldest; nothing only when empty and shut down. |
| `RequestQueue.RequestQueue.ShutDown` | src/server.c:109-118 | Sets the flag and keeps what is queued. |
| `RequestQueue.PushAppends` | src/server.c:124-141 | At any position of head and tail, the contents grow by one at the end. |
| `RequestQueue.PopTakesFirst` | src/server.c:147-167 | At any position of head and tail, the contents lose their first. |
| `WorkerPool.TakenInOrder` | src/server.c:907-918 | Connections leave the queue exactly once and in order of accept; each one taken is handled, or in the hands of exactly one worker. |
| `WorkerPool.RejectedOrQueued` | src/server.c:1020-1040 | Each accepted connection is rejected, or queued, or still with the main thread, and no two of these; a rejected one reaches no worker. When it is rejected say `PushDecides` and `RejectedWhenFull`. |
| `WorkerPool.PushDecides` | src/server.c:124-141 | Under the mutex a connection is refused exactly if the queue is shut down or all 32 places are taken; else it is put at the end and a sleeper is woken. |
| `WorkerPool.RejectedWhenFull` | src/server.c:1020-1040 | Over every run: a rejected connection found all 32 places taken when the main thread came to put it in. |
| `WorkerPool.WaitsFor` | src/server.c:124-167 | Who waits for what, over every run: a thread about to lock for the mutex, a sleeper for a wakeup, the main thread at last for the worker to join, and no one for anything else; whoever has the mutex can go on. |
| `WorkerPool.NoneLeftBehind` | src/server.c:1006-1052 | At the end the queue is empty and every accepted connection was rejected once or handled once, however many workers could be started. |
| `WorkerPool.NoLostWakeup` | src/server.c:109-167 | With spurious wakeups allowed: while a worker sleeps, each queued connection has a worker of its own on the way to the queue; before shutdown at least min(queued, started) are awake; after it none sleeps. |
| `WorkerPool.ShutdownAdvances` | src/server.c:1042-1052 | After shutdown every step of any thread decreases a bound on the steps left. |
| `WorkerPool.ShutdownNeverStuck` | src/server.c:1042-1052 | After shutdown some step can be taken until all workers are joined. |
| `WorkerPool.NextKeeps` | src/server.c:978-1054 | Every action keeps the invariant of mutex, queue, connections, wakeups and phases. |
| `Tokenizer.ReadWord` | src/tokenizer.c:62-78 | The longest run of word characters, or too long from 256 on. |
| `Tokenizer.ReadString` | src/tokenizer.c:84-117 | The value with doubled quotes undone and the position after the closing quote; too long or unterminated as the specification says. |
| `Tokenizer.ReadNumber` | src/tokenizer.c:122-147 | A sign and the longest run of digits, or too long. |
| `Tokenizer.ReadToken` | src/tokenizer.c:190-328 | The token at a position and the position after it. |
| `Tokenizer.TokenizeSql` | src/tokenizer.c:169-332 | The tokens cut off one by one, or the first error. |
| `Tokenizer.Trim` | src/utils.c:54-76 | The text without white space at its ends. |
| `Tokenizer.Tokenize` | src/tokenizer.c:338-372 | The tokens of the trimmed text; an error if nothing is left. |
| `Tokenizer.KeywordsFold` | src/utils.c:123-140 | A word is a keyword exactly if, case aside, it is one of the seven. |
| `Tokenizer.WordCodes` | src/tokenizer.c:62-78 | Word characters are the letters, the digits and the underscore, by code. |
| `Layout.WrittenTokenizes` | src/tokenizer.c:169-332 | Tokens written in any spelling, with any white space that keeps neighbours apart, are read back. |
| `Layout.TokenizedIsWritten` | src/tokenizer.c:169-332 | Whatever is accepted is a way of writing down the tokens found. |
| `Layout.TokenizeExact` | src/tokenizer.c:338-372 | Trimming first changes nothing about which texts are accepted and what they yield. |
| `Layout.SpellingReads` | src/tokenizer.c:62-163 | A token in any spelling, followed by anything that does not run on from it, is cut off as that token. |
| `Layout.ReadIsSpelling` | src/tokenizer.c:62-163 | What is cut off is a spelling of the token and ends where it must. |
| `Layout.NotRead` | src/tokenizer.c:62-147 | Names, numbers and strings of 256 characters or more are too long, and a string without its closing quote is unterminated. |
| `Parser.ExpectIdentifier` | src/parser.c:59-73 | A name under 64 characters and the next index, or the error. |
| `Parser.ExpectLiteral` | src/parser.c:79-110 | A literal under 256 characters, its kind and the next index, or the error. |
| `Parser.ExpectEnd` | src/parser.c:115-127 | At most one semicolon, then the end. |
| `Parser.ParseNames` | src/parser.c:158-178 | The names between commas, at most 32, and where the list ends. |
| `Parser.ParseValues` | src/parser.c:194-214 | The values between commas, at most 32, and where the list ends. |
| `Parser.ParseCondition` | src/parser.c:268-296 | Column, operator and literal. |
| `Parser.ParseColumns` | src/parser.c:234-263 | A star or a list of names. |
| `Parser.ParseInsert` | src/parser.c:132-228 | The INSERT the tokens are, or the first error. |
| `Parser.ParseSelect` | src/parser.c:301-338 | The SELECT the tokens are, or the first error. |
| `Parser.ParseDelete` | src/parser.c:343-372 | The DELETE the tokens are, or the first error. |
| `Parser.Parse` | src/parser.c:378-400 | The statement the tokens are, by their first keyword, or the error. |
| `SqlText.ParserExact` | src/parser.c:132-400 | The parser accepts the tokens of a statement within its limits, with or without a final semicolon, and nothing else, and yields that statement. |
| `SqlText.StatementFollowed` | src/parser.c:115-127 | A statement within the limits, with any tokens behind it but a WHERE that would belong to it: accepted exactly if they are nothing or one semicolon, else refused as trailing. |
| `SqlText.CountsRefused` | src/parser.c:132-228 | An INSERT within the limits with another number of values than of names is refused for that, whatever follows. |
| `SqlText.TooManyRefused` | src/parser.c:158-263 | More than 32 names or values are refused as too many, whatever follows. |
| `SqlText.WritingCompiles` | src/parser.c:378-400 | A statement written in any spelling and layout compiles to it. |
| `SqlText.CompiledIsWritten` | src/parser.c:378-400 | Every text that compiles is a way of writing its statement. |
| `SqlText.CompiledNames` | src/parser.c:132-228 | The columns of an INSERT as it is parsed: at most 32, each a word or a star. |
| `SqlText.RenderedCompiles` | src/parser.c:132-400 | Rendering a well-formed statement and compiling the text gives it back. |
| `Splitter.FindStatementTerminator` | src/utils.c:349-374 | The position of the first semicolon outside quotes from a start on. |
| `Splitter.SplitterAgrees` | src/utils.c:349-374 | Where the tokenizer accepts a text, cutting at the terminator cuts its tokens right after the first semicolon token, and there is a terminator if and only if there is one. |
| `Splitter.CutHasOneSemicolon` | src/utils.c:349-374 | For every text and start: if the part up to the terminator tokenizes, it has exactly one semicolon token, the last. |
| `Splitter.LiteralPassed` | src/tokenizer.c:84-117 | The splitter leaves a string literal exactly where the tokenizer does. |
| `Csv.WriteCsvValue` | src/storage.c:524-567 | Appends the cell, quoted if need be. |
| `Csv.WriteCsvRow` | src/storage.c:572-594 | Appends the line. |
| `Csv.CellExact` | src/storage.c:524-567 | A cell is written as it is exactly if it has no comma, quote or line break; else between quotes, with its own quotes doubled. |
| `Csv.ParseCsvLine` | src/storage.c:168-271 | The fields of a line, or that it is malformed. |
| `Csv.RoundTrip` | src/storage.c:168-271 | A written row parses to itself if and only if it has a field and none has a line break. |
| `Csv.RowReads` | src/storage.c:572-594 | A written row parses to itself or, if a cell has a line break, is reported malformed. |
| `Lines.PartedLine` | src/storage.c:168-271 | A line of fields, each put together from plain and quoted parts in any way, parses to what the parts stand for. |
| `TableFiles.ReadHeader` | src/storage.c:599-638 | The columns, or what is wrong with them. |
| `TableFiles.LoadTable` | src/storage.c:644-757 | Columns, rows and the offset of each row, or the first error. |
| `Lines.LoadedLines` | src/storage.c:644-757 | For any file: it loads exactly if its first line has at most 32 names under 64 characters and each further line is blank or has as many fields; its rows are those lines, with the place each starts at. |
| `TableFiles.ReadRowAtOffset` | src/storage.c:1189-1248 | The row of the line at an offset, if it has the expected count; any row for a negative count, and failure at a negative offset or at the end. |
| `Lines.RowAtExact` | src/storage.c:1189-1248 | Reading at any offset gives what the rest of its line parses to, if that is as wide as asked for; it fails at a negative offset and at the end. |
| `TableFiles.LoadedWritten` | src/storage.c:644-757 | A written table loads if and only if no cell has a line break; then with its columns and, in order, its rows but for blank ones; as it was exactly if it has none; offsets increase and lead back to the rows. |
| `TableFiles.LineBroken` | src/storage.c:572-594 | A written line with a line break in a cell is malformed to the reader, whatever comes after it. |
| `TableFiles.OffsetsLead` | src/storage.c:1189-1248 | For any file that loads, reading at a reported offset gives that row. |
| `Storage.NextAutoId` | src/storage.c:456-519 | The id after the largest in the file, or failure. |
| `Storage.NextIdExact` | src/storage.c:456-519 | 1 + max(0, ids), if and only if all ids are integers below the largest long long. |
| `Storage.NextIdFresh` | src/storage.c:456-519 | As a string it differs from every id there is. |
| `Storage.ValidatePrimaryKey` | src/storage.c:319-374 | True exactly if the table has no id column, or the row has an id that is not empty and that no row of a readable file has. |
| `Storage.StorageInsert` | src/storage.c:914-1119 | The file as specified after an INSERT, unchanged on failure. |
| `Storage.InsertAppends` | src/storage.c:1010-1113 | On a table's file exactly one row is appended. |
| `Storage.RowForFits` | src/storage.c:1010-1113 | That row has the values in the table's order and an id that is free, the next one if none is given; it has a line break exactly if a value that is stored has. |
| `Storage.AllStored` | src/storage.c:1010-1113 | If no two columns of the table have one name, all values of an INSERT are stored. |
| `Storage.FirstGood` | src/storage.c:955-1009 | The first INSERT writes a header of its columns and its values as the one row, with the id 1 before them if it gives none: a good table if no name or value has a line break. |
| `Storage.CompiledNamed` | src/storage.c:914-1119 | The names of a parsed INSERT are not empty and have no line break. |
| `Storage.InsertSucceeds` | src/storage.c:1010-1113 | Exactly when an INSERT succeeds on a file with a header: there is an id column, the statement covers the columns, and its id is nonempty and free or, without one, all ids are integers below the largest. |
| `Storage.CoveredMeans` | src/storage.c:1010-1060 | A statement covers the columns exactly if it names each, but for an id that is filled in, and has as many. |
| `Storage.FirstSucceeds` | src/storage.c:955-1009 | Exactly when the first INSERT succeeds: its names are under 64 characters and the id given is not empty, or none is given and there are fewer than 32 columns. |
| `Storage.ReadableExactly` | src/storage.c:798-1119 | Over every run of INSERTs and DELETEs: the file loads if and only if no INSERT that succeeded wrote a line break into a cell. |
| `Storage.GoodWrites` | src/storage.c:1010-1113 | On a table's file an INSERT writes a line break exactly if it succeeds and a value that is stored has one. |
| `Storage.BrokenStays` | src/storage.c:798-1119 | Any file that does not load, its header unreadable or with an id column: no INSERT and no DELETE succeeds on it, and it stays as it is. |
| `Storage.StorageDelete` | src/storage.c:798-908 | The file without the rows that match, as `DeleteExact` says, and their count; or unchanged on failure. |
| `Storage.DeleteRewrites` | src/storage.c:798-908 | On a table's file: the rows left and deleted add up to those before. |
| `Storage.KeptExact` | src/storage.c:798-908 | The rows kept are, in order, exactly those that do not match: whose first column of that name does not stand to the literal as the operator asks, as numbers if both are 64-bit integers, else as texts. |
| `Storage.DeleteExact` | src/storage.c:798-908 | On any file that loads: a DELETE fails exactly if there is a row and its WHERE has an unknown column or operator; else the file is that of exactly the rows that do not match, in order, and the others are counted. |
| `Storage.RunSound` | src/storage.c:798-1119 | Over every run: the file is that of a table with ids all nonempty and all different, or of one without rows; or it does not load, exactly if an INSERT wrote a line break. |
| `Storage.SoundLoads` | src/storage.c:644-757 | Such a file loads, and no two rows have the same id. |
| `Storage.LockedExactly` | src/storage.c:798-1119 | After a run no INSERT can ever succeed if and only if a DELETE came after an INSERT and every INSERT up to it failed as the first, or an INSERT wrote a line break. |
| `Storage.FailedInsertLocksTable` | src/storage.c:798-1009 | A failed first INSERT makes an empty file, a DELETE then writes an empty header line, and from then on every INSERT fails. |
| `Storage.EmptyIdLocks` | src/storage.c:798-1009 | An INSERT of an empty id, then a DELETE: such a run. |
| `Storage.LineFeedLocks` | src/storage.c:914-1119 | A first INSERT of a value with a line feed succeeds, and no statement after it does. |
| `HashIndex.EqualityIndex.constructor` | src/index.c:197-216 | All buckets empty. |
| `HashIndex.EqualityIndex.Add` | src/index.c:58-97 | One more offset at the end of the key's list and no other list changed, whatever collides. |
| `HashIndex.EqualityIndex.Extend` | src/index.c:26-53 | Appends to one list. |
| `HashIndex.EqualityIndex.QueryEquals` | src/index.c:253-278 | The list of the value, empty if it has none. |
| `HashIndex.BuildEquality` | src/index.c:197-247 | For any hash function: each value's list is the offsets of exactly its rows, in row order. |
| `HashIndex.LookupExact` | src/storage.c:1189-1248 | For any file that loads and any value: reading at the offsets the index has for the value gives exactly the rows with it, in file order. |
| `HashIndex.EqualExact` | src/index.c:197-247 | The offsets under a value are increasing and those of exactly the rows that have it. |
| `RangeIndex.LowerBound` | src/index.c:130-148 | Ends where the search by halves ends, on any entries at a boundary: below the value before it, not below after it. |
| `RangeIndex.UpperBound` | src/index.c:153-171 | The same for not above. |
| `RangeIndex.QueryRange` | src/index.c:284-361 | Gives what lies on one side of where the search ends; equals the filter if and only if the entries are split about the value; an inequality query always does; other operators fail. |
| `RangeIndex.RangeQueryExact` | src/index.c:284-361 | For a column of integers and an integer, or a column with none: whatever order qsort leaves, the answer is the multiset a filter of the rows gives. |
| `RangeIndex.RangeQueryLeads` | src/index.c:284-361 | The same from the file on: the answer has no offset twice, and exactly the rows whose cell stands to the value as the operator asks are read back at its offsets. |
| `RangeIndex.ConsistentExactly` | src/index.c:284-361 | On a column that comparing is a consistent order on, so that qsort has to sort it, and for any value: the answer is right if and only if whatever comes before an entry before the value is before the value too. |
| `RangeIndex.UniformConsistent` | src/index.c:102-118 | Columns of integers only, or with none, are consistent. |
| `RangeIndex.InconsistentExactly` | src/index.c:284-361 | On any other column: every order qsort may leave is answered rightly if and only if the entries are all before the value or none is. |
| `RangeIndex.AnswerExact` | src/index.c:284-361 | From any boundary the answer is the filter exactly when the entries are split. |
| `RangeIndex.OrderConsistent` | src/utils.c:198-235 | Comparing is antisymmetric and transitive among integers only or with none. |
| `RangeIndex.NotTransitive` | src/utils.c:198-235 | "10" < "1a" < "2" < "10". |
| `RangeIndex.NothingSorts` | src/index.c:102-118 | Entries with those three keys are sorted in no order. |
| `RangeIndex.MixedColumnFails` | src/index.c:284-361 | Three rows on which comparing is no consistent order, left in an arrangement for which "<" 2 gives the row with 10. |
| `RangeIndex.IntegersFail` | src/index.c:284-361 | A sorted column of the integers 9 and 10, for which "<" 1a gives the row with 9. |
| `RangeIndex.SortExists` | src/index.c:102-118 | For any entries there is an order as qsort is taken to leave them in. |
| `RangeIndex.FillEntries` | src/index.c:197-247 | One entry a row, or failure on a cell of 256 characters or more. |
| `RangeIndex.BuildIndex` | src/index.c:197-247 | Both halves together, with the hash of the program and any qsort. |
| `RangeIndex.FilterLeads` | src/storage.c:1189-1248 | Reading the loaded file at an offset the filter lets through gives a row whose cell stands to the value as the operator asks, and all such rows are among them; for every operator. |
| `Json.AppendJsonString` | src/server.c:261-306 | Appends the quoted text with its escapes. |
| `Json.EscapeMeans` | src/server.c:261-306 | What is written for each character, by code; never one below a space. |
| `Json.ReadJsonString` | src/server.c:675-727 | The decoded string and its length, or why not. |
| `Json.RoundTrip` | src/server.c:261-306 | Written and read back: other control characters become ?; the text itself exactly if it has none and there is room. |
| `Json.LiteralReads` | src/server.c:675-727 | Any literal is decoded to its closing quote if there is room. |
| `Json.GlyphsDecode` | src/server.c:675-727 | Any sequence of plain characters, two-character escapes and six-character ones decodes to what they stand for: `\n`, `\r` and `\t` to the control character, `\u` to a question mark, any other to the character itself. |
| `Json.DecodedGlyphs` | src/server.c:675-727 | And whatever decodes is such a sequence. |
| `Json.ExtractSql` | src/server.c:733-773 | The string after the first key named sql, by the specification of the search. |
| `Json.ObjectExtracts` | src/server.c:733-773 | From any flat object in any spelling and with white space anywhere, decided by the first member that is named sql or has a key or value of 64 characters or more: its value, or too long; refused if there is none. |
| `Json.SqlExtracted` | src/server.c:733-773 | A request is read if and only if a member named sql fits and no key up to it nor value before it is too long; the text is that of the first such member. |
| `Http.FindHeaderEnd` | src/server.c:484-499 | The end of the first empty line, if it is there. |
| `Http.HeaderNameMatches` | src/server.c:502-524 | Whether a line is a Content-Length line, case ignored. |
| `Http.ParseContentLength` | src/server.c:527-572 | The value of the first such line wherever it stands in the header, as `ValueExact` says, read as `StrtolExact` says; 0 without one, failure as specified. |
| `Http.ReadRequest` | src/server.c:578-637 | The verdict of the specification for a stream in any pieces, which `LengthCounts`, `NoLength`, `OtherIsBad` and `NoEnd` spell out; the bytes read are never more than the buffer less one, and the whole body is among them if the request is complete. |
| `Http.FragmentsAgree` | src/server.c:578-637 | Status, body offset and body length are the same for any two fragmentations if the Content-Length value, if any, is settled within the header. |
| `Http.IndependentExactly` | src/server.c:527-637 | The verdict is independent of fragmentation if and only if the value is settled in the header or the body, behind white space and a sign, has no digits, a minus and a first digit other than 0, or a number that fits the room and whose first digit is more than the bytes there are. |
| `Http.BlankLengthDepends` | src/server.c:527-572 | A request with a blank last Content-Length line that is refused or complete depending on the pieces. |
| `Http.HeaderEndStable` | src/server.c:484-499 | The end is found at the same place in every part of the stream that holds it. |
| `Requests.ValueExact` | src/server.c:527-572 | The value is read behind the colon of the first line of the header that starts with the name, case ignored, wherever it stands; none exactly if no line does. |
| `Requests.StrtolExact` | src/server.c:527-572 | strtol succeeds exactly if behind white space a 64-bit number is written, and gives that number. |
| `Requests.HeaderEndExact` | src/server.c:484-499 | The header ends with the first empty line. |
| `Requests.LengthCounts` | src/server.c:578-637 | However it arrives, a request whose first Content-Length line gives n is complete with a body of n bytes if they fit and are there, too large if they do not fit, and bad if n is negative or the stream ends before. |
| `Requests.NoLength` | src/server.c:578-637 | Without such a line it is complete with no body. |
| `Requests.OtherIsBad` | src/server.c:578-637 | With something else than a number there it is bad. |
| `Requests.NoEnd` | src/server.c:578-637 | Without the end of a header in the room there is, it is too large if it fills that, else bad. |

## Left out

- Storage.NextIdExact: at an id of the largest `long long` or beyond, where the addition in C is undefined, the model lets the INSERT fail.
- Sessions.Lookup: tables are kept under their case-folded name, so the spelling a table was created under is not modelled in the concurrent part, and the registry is a list value rather than linked entries.
- TableRuntime.TableRuntime.ReserveIfNeeded: does not model `int` overflow of the doubled capacity.
- TableFiles.LoadTable: does not model the 16384-byte limit of `fgets`; lines are taken to fit.
- HashIndex.BuildEquality: the doubling capacity of offset lists is not modelled, only what they hold.
- Allocation failure and `free`: allocation succeeds; after a failed one in the middle of a split the C tree is not restored, and nothing here says it is.
- Sockets, `send`, signal handlers and `perror`: an accepted connection is a number, handling it is one step, and a `recv` error counts as the end of the stream.
- The request line, the choice of the route and the JSON response around its strings.
- File system calls, `flock`, `rename`, paths and the `data/` directory.
- Error texts and the thread-local last-error buffers: errors are a datatype, or just failure where C returns no more.
- DELETE in memory mode, which is always refused before any lock: only that refusal is modelled, in the concurrent part.
- `src/engine.c`, the REPL and command line, `src/benchmark.c`, and the display width of text.
- The NULL-pointer checks at the head of the C routines.
