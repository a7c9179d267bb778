# A verified model of the MySQL command-line clients

This project models the parts of the MySQL 5.5 command-line clients that are hard to get right:
the session mysqldump runs against a busy server, the batch reader and statement splitter of the
`mysql` client, its completion index, the thread protocols of mysqlslap and mysqlimport, the event
filter and LOAD DATA reassembly of mysqlbinlog, the clients' string buffer, and the text printers
of mysqldump. Every claim is a Dafny contract or lemma over all inputs, all runs or all
interleavings.

| file | models |
|---|---|
| `DumpOptions.dfy`, `DumpProtocol.dfy`, `DumpLimits.dfy`, `DumpLocks.dfy` | mysqldump's options, its session interleaved with other sessions, the exact limit of its consistency guarantee, and what its default table locks give |
| `LineReader.dfy` | the growing, shifting, sentinel-terminated line buffer |
| `SplitterSpec.dfy`, `Splitter.dfy`, `SplitterMeaning.dfy` | `add_line`: as a scan with separate input and output, as the program runs it in one buffer, and the meaning of a line as a list of tokens |
| `Batch.dfy` | file to statements: reader and splitter sharing one buffer |
| `CompletionSpec.dfy`, `Completion.dfy`, `CompletionGenerator.dfy` | the prefix hash table and the readline callback |
| `SlapScheduler.dfy`, `SlapTask.dfy` | mysqlslap's start barrier, counter and statement cycling |
| `ImportPool.dfy` | mysqlimport's bounded worker pool |
| `BinlogFilter.dfy`, `BinlogLoad.dfy` | mysqlbinlog's event range and temporary files |
| `SqlString.dfy` | the `String` class |
| `Helpers.dfy` | optional values and concatenations |
| `SqlQuoting.dfy`, `DumpXml.dfy`, `DumpInsert.dfy` | quoting, CDATA sections and extended inserts |

Conventions. A `char` stands for one byte of a single-byte character set. Code that updates
variables and buffers is a class or a method over arrays, proved equal to a function or to a
property stated without it. What the clients cannot see is a parameter: the server's responses
(`respond`), the hash function, which tables are read through a read view, whether memory is
available, what a read returns. Threads are programs over atomic steps; a run is any interleaving
of them. `dafny verify dfyconfig.toml` checks everything.

What the proofs show beyond the expected:

- A dump with `--master-data` agrees with the coordinate it prints, in every interleaving in which
  nobody changes the definition of a table of a `--single-transaction` dump, exactly when
  `--single-transaction` is off or covers only tables read through a read view
  (`ConsistentExactlyWhenSupported`). If definitions may change too, it does so exactly when
  `--single-transaction` is off or there is nothing to dump (`ConsistentUnderAlterations`). For every
  other case a run is built that disagrees (`DumpCanDisagree`).
- `--lock-tables` makes the tables of each database show one point of the log
  (`LockedDatabaseShowsOnePoint`), and the whole dump exactly when at most one database has tables
  (`OneMomentExactlyForOneDatabase`).
- The name in a printed LOAD DATA statement is the name of the file that was written exactly when
  neither the directory nor the file's own name in the log has a backslash (`ProcessAll`); otherwise
  the printed file may not exist (`PrintedFileCanBeMissing`).
- Terminating a line in place keeps what is pending exactly unless the line was ended by a NUL byte
  and another byte is behind it in the buffer (`CutKeepsExactly`); that byte is lost, as on `a`, NUL,
  `b` (`NulLosesNextByte`).
- Glued pieces of a long line are the line exactly when no carriage return was cut from its newline
  (`RejoinedLines`); `CutCrLfIsKept` gives a text where one was.
- Every line falls into words, strings, comments and delimiters up to its end, to a backslash command
  or to a server-side comment (`FallsIntoTokens`), and a line that falls into them up to its end does
  exactly what they mean, also when it starts or ends inside a string or a comment (`AddLineMeans`).
- `completion_hash_exists` is not membership: it holds exactly when the oldest stored word that
  starts with the key is the key itself (`Exists`).
- mysqlimport's exit status is a failure exactly when some write failed. A table whose worker could
  not be created or could not start does not count (`ExitStatus`).
- mysqlslap's `--commit` groups queries into transactions exactly when `--detach` is off: the first
  statement reconnects, and the new connection commits by itself (`SharedTransactions`). No query is
  lost either way (`NothingLost`).
- The filters of mysqlbinlog let a format event before the range end the whole run (`OneRange`).
- `append_with_prefill` fills nothing when 2^31 bytes or more are missing (`AppendWithPrefill`).

Where code and comments disagree, the model follows the code: the comment of `print_xml_cdata`
speaks of `[[>` where the code handles `]]>` (mysql/client/mysqldump.c:1805-1812), and the comment
of mysqlimport's worker says that errors are not caught where the next lines record them
(mysql/client/mysqlimport.c:573-578).

## Model

| member | source | states |
|---|---|---|
| DumpOptions.Flags.Normalise | mysql/client/mysqldump.c:949-972 | option checking fails for one contradiction only, otherwise ends in an accepted flag set, is idempotent, and keeps what the user asked for |
| DumpProtocol.OthersKeepFacts | mysql/client/mysqldump.c:464-480 | commits, changes of other tables' definitions and log rotations by other sessions keep everything the client relies on, whatever locks it holds |
| DumpProtocol.StatementKeepsFacts | mysql/client/mysqldump.c:4803-4902 | each allowed client statement keeps the invariant on lock, read view, coordinate, log files and dumped rows |
| DumpProtocol.RunKeepsFacts | mysql/client/mysqldump.c:5476-5541 | the invariant over every interleaving of a disciplined script |
| DumpProtocol.DumpPhaseOnlyReads | mysql/client/mysqldump.c:4327-4389 | with lock_tables and flush_logs off the dump of whole databases neither locks, unlocks nor flushes |
| DumpProtocol.ViewPhaseOnlyReads | mysql/client/mysqldump.c:4426-4465 | the view pass reads definitions only |
| DumpProtocol.SelectedOnlyReads | mysql/client/mysqldump.c:4562-4639 | the same for tables named on the command line, with their views, events and routines |
| DumpProtocol.BodyReads | mysql/client/mysqldump.c:5519-5541 | under any options the dump phase, by each of main's ways into it, reads the rows of every table once, in order, and of nothing else |
| DumpProtocol.SetupDisciplined | mysql/client/mysqldump.c:5473-5518 | main's setup sequence, with or without slave data, respects the discipline under every accepted option set and leaves known facts |
| DumpProtocol.ScriptDisciplined | mysql/client/mysqldump.c:5473-5560 | so does the whole script, by each of main's three ways into the dump phase, and it purges exactly with --delete-master-logs |
| DumpProtocol.DumpsWantedInOrder | mysql/client/mysqldump.c:5519-5541 | under any options and in every interleaving the dump holds the first tables of the target in order, and in the end all of them |
| DumpProtocol.DumpShowsOnePoint | mysql/client/mysqldump.c:5476-5541 | in every interleaving that leaves the definitions of a --single-transaction dump's tables alone, all dumped tables show one log prefix, the printed coordinate is that prefix, and a finished dump holds every table in order |
| DumpProtocol.RowsDoNotMatter | mysql/client/mysqldump.c:4803-4902 | locks, coordinates and log files go the same way whatever engines the tables are stored in and whatever rows are read |
| DumpProtocol.PurgeKeepsCoordinate | mysql/client/mysqldump.c:5500-5560 | for all tables and all interleavings, the file of the printed coordinate is never purged, and a finished run has purged all files that existed at the start |
| DumpLimits.DumpCanDisagree | mysql/client/mysqldump.c:464-480 | from every server state, a --single-transaction dump has a run whose output contradicts the coordinate: by a commit to a table outside the read view, or by a change of any dumped table's definition |
| DumpLimits.ConsistentExactlyWhenSupported | mysql/client/mysqldump.c:469-472 | with definitions left alone, agreement with the coordinate in all interleavings holds if and only if the tables are supported |
| DumpLimits.ConsistentUnderAlterations | mysql/client/mysqldump.c:473-477 | with definitions changing too, agreement in all interleavings holds if and only if --single-transaction is off or there is no table to dump |
| DumpLocks.OthersKeepGuard | mysql/client/mysqldump.c:4327-4344 | while a database's tables are locked, no other session's step changes what is read from them |
| DumpLocks.LockedDatabaseShowsOnePoint | mysql/client/mysqldump.c:4327-4389 | with --lock-tables, in every interleaving and at every moment, what has been dumped of one database shows one log prefix |
| DumpLocks.LockedSelectionShowsOnePoint | mysql/client/mysqldump.c:4561-4639 | the same for the tables named on the command line |
| DumpLocks.TwoDatabasesCanDisagree | mysql/client/mysqldump.c:4388-4389 | from every server state, a run dumps tables of two databases as they never were at one time |
| DumpLocks.OneMomentExactlyForOneDatabase | mysql/client/mysqldump.c:4327-4389 | with --lock-tables the whole dump shows one log prefix in all interleavings if and only if at most one database has tables |
| LineReader.LineBuffer.constructor | mysql/client/readline.cc:102-114 | a fresh buffer has the whole file pending |
| LineReader.LineBuffer.FillBuffer | mysql/client/readline.cc:148-215 | one refill: grows, shifts or gives up at the size limit, keeps the unfinished line and the sentinel, and adds the fake newline once at end of file |
| LineReader.LineBuffer.InternReadLine | mysql/client/readline.cc:218-256 | each returned segment is a legal one and the stream is the segment followed by what is pending, for every pattern of short reads, even with NUL bytes |
| LineReader.LineBuffer.BatchReadline | mysql/client/readline.cc:57-70 | the line returned is the segment without its newline and a carriage return right before it; terminating it alters an unread byte exactly when the line was ended by a NUL and the byte is in the buffer; only a long piece is broken off |
| LineReader.CutKeepsExactly | mysql/client/readline.cc:57-70 | what is pending survives the termination of a line if and only if the line was not ended by a NUL with another byte behind it in the buffer |
| LineReader.NulLosesNextByte | mysql/client/readline.cc:57-70 | an input on which a byte is lost |
| LineReader.SegmentedAppend | mysql/client/readline.cc:218-256 | segments read one after another concatenate to the stream |
| LineReader.RejoinedLines | mysql/client/readline.cc:57-70 | gluing truncated pieces gives the lines of the file if and only if no carriage return was cut from its newline |
| LineReader.CutCrLfIsKept | mysql/client/readline.cc:57-70 | a text whose glued lines are not its lines |
| LineReader.UntruncatedLines | mysql/client/readline.cc:57-70 | without truncation the lines returned are the newline-split lines, the unterminated last one kept |
| LineReader.ShortLinesUntruncated | mysql/client/readline.cc:148-215 | a text whose lines fit the buffer limit is never broken |
| Splitter.SetModes | mysql/client/mysql.cc:2261-2270 | string and server-comment modes change as in the reference scan |
| Splitter.AddPlain | mysql/client/mysql.cc:2259-2278 | a character, and the space that replaces a comment before it, fit between the two cursors |
| Splitter.HasPrefix | mysql/client/mysql.cc:2141-2141 | the delimiter test, which compares byte by byte up to the line's NUL, holds exactly at the occurrences of the delimiter |
| Splitter.MarkComment | mysql/client/mysql.cc:2223-2258 | comment marks switch the mode and flush what was collected |
| Splitter.EndAtComment | mysql/client/mysql.cc:2183-2222 | a line comment ends the scan, or is sent as a statement of its own when comments are kept |
| Splitter.EndStatement | mysql/client/mysql.cc:2141-2182 | the delimiter sends the statement with the spaces and comment kept behind it |
| Splitter.DoCommand | mysql/client/mysql.cc:2094-2130 | a one-letter command gets the statement so far and the rest of the line, and its parameters are skipped to the right place |
| Splitter.DoBackslash | mysql/client/mysql.cc:2080-2140 | all cases of a backslash, in and outside strings |
| Splitter.AddLineInPlace | mysql/client/mysql.cc:2035-2305 | editing the line in place sends the same statements and leaves the same buffer and mode as the scan with separate output, and touches no byte outside the line, nor its NUL when truncated |
| SplitterMeaning.FallsIntoTokens | mysql/client/mysql.cc:2053-2305 | every line, started in any mode, falls into tokens up to its end, a backslash outside strings or a server-side comment |
| SplitterMeaning.ScanToken | mysql/client/mysql.cc:2053-2305 | scanning one token adds exactly its meaning and leads to its mode |
| SplitterMeaning.RunMeans | mysql/client/mysql.cc:2053-2305 | a line that falls into words, strings with escapes, comments and delimiters, started and left in any mode, executes exactly the statements these mean |
| SplitterMeaning.AddLineMeans | mysql/client/mysql.cc:2035-2305 | the same for add_line from a session in any mode: the whole session it leaves, with the trailing newline exactly where one is added |
| Batch.RunPiecesConcat | mysql/client/mysql.cc:1855-1954 | running lines in two parts is running them all, up to the one that quits |
| Batch.RunLineInPlace | mysql/client/mysql.cc:1934-1953 | running a line in the reader's own buffer leaves every pending byte as it was |
| Batch.ReadAndExecute | mysql/client/mysql.cc:1843-1954 | a file executes exactly what its pieces mean in order, whatever the reads return, up to a quit, the end, or a read error |
| Batch.UntruncatedProgress | mysql/client/mysql.cc:1843-1954 | without truncation these are the effects of the newline-split lines of the file |
| Batch.ShortLinesProgress | mysql/client/mysql.cc:1843-1954 | a file whose lines fit the buffer limit executes exactly its newline-split lines |
| Batch.RemoveControl | mysql/client/mysql.cc:4655-4662 | the statement left over is cut after its last visible character |
| Batch.RunFile | mysql/client/mysql.cc:1843-1976 | what is left at end of file or after a clean quit is sent; after a read error nothing more is; the exit status is a failure for read errors, unclean quits and a failing last statement |
| CompletionSpec.UpdatedStored | mysql/client/completion_hash.cc:60-110 | an update adds the word in front of the entries of its key and changes no other key |
| CompletionSpec.UpdateRepresents | mysql/client/completion_hash.cc:219-225 | entering one more prefix keeps the table in step with the words added |
| CompletionSpec.MatchesLonger | mysql/client/completion_hash.cc:173-202 | a longer key selects no more words, and as many only if the same |
| Completion.HashTable.constructor | mysql/client/completion_hash.cc:42-57 | an empty table of any size from one represents no words |
| Completion.HashTable.Update | mysql/client/completion_hash.cc:60-110 | the in-place update is the update of the table's value, and an empty key is refused |
| Completion.HashTable.AddWord | mysql/client/completion_hash.cc:219-225 | after adding, the table represents the words with the new one |
| Completion.HashTable.Clean | mysql/client/completion_hash.cc:205-210 | cleaning forgets all words |
| Completion.HashTable.FindBucket | mysql/client/completion_hash.cc:113-133 | a lookup lists, newest first and with an exact count, precisely the words with that prefix, and nothing if there are none, for any hash function |
| Completion.HashTable.FindAllMatches | mysql/client/completion_hash.cc:158-171 | the same with the length of the match |
| Completion.HashTable.FindLongestMatch | mysql/client/completion_hash.cc:173-202 | the length is that of the longest prefix shared by all words that start with the key |
| Completion.HashTable.Exists | mysql/client/completion_hash.cc:136-155 | holds exactly when the oldest stored word with that prefix is the key |
| CompletionGenerator.NextWord | mysql/client/mysql.cc:2493-2535 | one step of the walk returns the next word still to come |
| CompletionGenerator.WalkListsWords | mysql/client/mysql.cc:2493-2535 | the walk lists every added word exactly as often as it was added, although it is stored under all its prefixes |
| CompletionGenerator.Generator.Call | mysql/client/mysql.cc:2462-2538 | each call returns the next element of the listing and keeps the rest, whatever an earlier completion left in the statics |
| CompletionGenerator.Collect | mysql/client/mysql.cc:2462-2538 | repeated calls end, give the whole listing, and leave the statics ready for the next completion |
| CompletionGenerator.Complete | mysql/client/mysql.cc:2462-2538 | one completion after another: with a text the matches newest first, without one every word as often as added |
| SlapScheduler.RunKeepsInv | mysql/client/mysqlslap.c:1746-1785 | mutual exclusion, barrier and counter invariants in every interleaving with any number of tasks |
| SlapScheduler.NoQueryBeforeAllCreated | mysql/client/mysqlslap.c:1812-1817 | no task issues a query before all threads exist |
| SlapScheduler.CounterCountsUnfinished | mysql/client/mysqlslap.c:1746-1785 | after creation, when the mutex is free, the counter is the number of unfinished tasks |
| SlapScheduler.ReturnsAfterAllTasks | mysql/client/mysqlslap.c:1769-1785 | the scheduler returns only when every task is done and has left the mutex for good |
| SlapScheduler.SomebodyCanRun | mysql/client/mysqlslap.c:1746-1785 | no deadlock and no lost wakeup: until all is over some thread can run without a timeout |
| SlapScheduler.QuietRunsAreBounded | mysql/client/mysqlslap.c:1746-1785 | runs without timeouts and spurious wakeups end within a bound |
| SlapScheduler.StuckMeansFinished | mysql/client/mysqlslap.c:1947-1959 | a run that cannot go on has finished every task and returned |
| SlapTask.RunTask | mysql/client/mysqlslap.c:1843-1953 | the thread sends exactly the limit's queries, the k-th being statement k modulo the list, with a commit after each commit_rate and reconnections by place in the list |
| SlapTask.QueriesSent | mysql/client/mysqlslap.c:1851-1945 | the trace holds exactly limit queries, the k-th being statement k modulo the list, with or without a server |
| SlapTask.SharedTransactions | mysql/client/mysqlslap.c:1845-1870 | just before each query of a run the server is in a shared transaction if and only if there is a commit rate and no detach rate |
| SlapTask.CommittedSoFar | mysql/client/mysqlslap.c:1934-1938 | in mid-run the server has committed whole batches, or every query by itself |
| SlapTask.NothingLost | mysql/client/mysqlslap.c:1845-1953 | at the end all queries are committed in order, in spite of reconnections |
| SlapTask.CreateSchema | mysql/client/mysqlslap.c:1641-1679 | generated SQL runs exactly the number asked for, later passes leaving out the first statement |
| SlapTask.SchemaPlace | mysql/client/mysqlslap.c:1641-1679 | the first statement, which creates the table, is run only at the start |
| ImportPool.RunKeepsInv | mysql/client/mysqlimport.c:622-658 | mutual exclusion, counting and exit-code invariants in every interleaving |
| ImportPool.AtMostSoManyWorkers | mysql/client/mysqlimport.c:619-645 | at every moment the counter is the live workers and the one being created, and never exceeds the number of threads asked for |
| ImportPool.ReturnsAfterAllWorkers | mysql/client/mysqlimport.c:647-660 | main passes the final wait, after which it destroys the mutex, only when every table was tried and every worker has unlocked it and ended |
| ImportPool.ExitStatus | mysql/client/mysqlimport.c:549-578 | the exit code is nonzero exactly when some write_to_table failed, although it is set without a lock |
| ImportPool.EarlyExit | mysql/client/mysqlimport.c:562-578 | only a worker at a fatal failure ends the program before main returns |
| ImportPool.SomebodyCanRun | mysql/client/mysqlimport.c:622-658 | no deadlock and no lost signal |
| ImportPool.QuietRunsAreBounded | mysql/client/mysqlimport.c:622-658 | runs without timeouts end within a bound |
| ImportPool.StuckMeansFinished | mysql/client/mysqlimport.c:581-590 | a run that cannot go on has finished |
| BinlogFilter.Filter.Process | mysql/client/mysqlbinlog.cc:704-739 | the verdict on an event, from settings that change themselves, is what the options ask for, and an event is skipped or stops the run exactly when they say so |
| BinlogFilter.Filter.Dump | mysql/client/mysqlbinlog.cc:2143-2154 | a run over several logs prints exactly the selected events, in order, and stops exactly at an ending one; --stop-position is for the last log only |
| BinlogFilter.SelectionIsExact | mysql/client/mysqlbinlog.cc:704-739 | the selection lists each selected event once, ascending |
| BinlogFilter.OneRange | mysql/client/mysqlbinlog.cc:704-739 | for every server id: the selection is one range, thinned only by the server-id filter, and the format events before it; the range ends at its first event past the end that this filter does not remove |
| BinlogFilter.RangeExists | mysql/client/mysqlbinlog.cc:704-739 | every run has exactly one such range |
| BinlogLoad.LocalNameFits | mysql/client/mysqlbinlog.cc:427-446 | the local name fits its buffer for every file id and version |
| BinlogLoad.LocalNameSpelled | mysql/client/mysqlbinlog.cc:441-446 | a local name has a backslash exactly when the directory or the file's own name has one |
| BinlogLoad.ToForwardSlashes | mysql/client/mysqlbinlog.cc:606-614 | the printed name is the file's name exactly when that has no backslash |
| BinlogLoad.Processor.CreateUniqueFile | mysql/client/mysqlbinlog.cc:179-192 | creates a file that was not there, and fails exactly when all thousand names are taken |
| BinlogLoad.Processor.ProcessFirstEvent | mysql/client/mysqlbinlog.cc:420-485 | registers the load under its id with the first block in a file of its own |
| BinlogLoad.Processor.ProcessAppend | mysql/client/mysqlbinlog.cc:546-586 | appends to the load of that id only, and ignores unknown ids |
| BinlogLoad.Processor.GrabEvent | mysql/client/mysqlbinlog.cc:246-259 | takes a load announced by Create_file out of the table, and no other |
| BinlogLoad.Processor.GrabFname | mysql/client/mysqlbinlog.cc:276-290 | the same for Begin_load_query |
| BinlogLoad.Processor.Process | mysql/client/mysqlbinlog.cc:770-928 | every event changes the loads under way as the log means, and fails only where a local file cannot be created |
| BinlogLoad.Processor.ProcessAll | mysql/client/mysqlbinlog.cc:770-928 | after a whole log every file written for a printed statement still holds what that loads; the printed name is that file's name if and only if there is no backslash in the directory and the file's own name; without backslashes every printed name leads to the right bytes; files that existed before are untouched |
| BinlogLoad.PrintedFileCanBeMissing | mysql/client/mysqlbinlog.cc:847-848 | a log with a backslash in a file name whose printed file does not exist |
| BinlogLoad.LoadsWholeFile | mysql/client/mysqlbinlog.cc:246-586 | a printed statement loads its first block and all later blocks of its id in order, whatever is interleaved, and a second execution finds nothing |
| SqlString.AlignedSizeFits | mysql/client/sql_string.cc:61-66 | the 32-bit size overflows exactly above the limit, and then shows |
| SqlString.String.Realloc | mysql/client/sql_string.cc:61-91 | fails exactly on overflow or lack of memory, otherwise leaves capacity above the request, the terminator and the contents |
| SqlString.String.Append | mysql/client/sql_string.cc:366-395 | contents are extended, or unchanged on failure; nothing to append never fails |
| SqlString.String.AppendWithPrefill | mysql/client/sql_string.cc:464-479 | fills on the left up to the full length if less than 2^31 bytes are missing; the inner append cannot fail |
| SqlString.MoveDown | mysql/client/sql_string.cc:571-572 | an overlapping move towards lower addresses copies the old bytes |
| SqlString.MoveUp | mysql/client/sql_string.cc:580-581 | and one towards higher addresses |
| SqlString.String.Replace | mysql/client/sql_string.cc:561-589 | prefix, replacement and suffix of the old contents, unchanged for a wrong range or lack of memory |
| SqlString.String.Strstr | mysql/client/sql_string.cc:493-518 | the least occurrence from the offset on, or -1 exactly when there is none |
| SqlString.String.Strrstr | mysql/client/sql_string.cc:524-549 | the greatest occurrence that ends by the offset, or -1 exactly when there is none |
| SqlQuoting.ExactlyMatches | mysql/client/mysqldump.c:1610-1651 | the pattern that spells out a name matches that name and nothing else |
| SqlQuoting.QuoteForLike | mysql/client/mysqldump.c:1632-1651 | the quoted name is read as one literal whatever follows, and as a LIKE pattern matches exactly the name |
| SqlQuoting.EscapedReads | mysql/client/mysqldump.c:3286-3314 | escaped text stays inside its quotes and is read as what the user means |
| SqlQuoting.FieldEscapeDump | mysql/client/mysqldump.c:3286-3314 | the quoted terminator is one complete literal with that meaning |
| SqlQuoting.FieldEscapeImport | mysql/client/mysqlimport.c:526-547 | the same text without the quotes |
| DumpXml.NoNewClosing | mysql/client/mysqldump.c:1820-1833 | printing makes no closing mark where the text has none |
| DumpXml.PrintCdata | mysql/client/mysqldump.c:1814-1837 | a reader of character data gets the text back, between the newlines added |
| DumpInsert.JoinLength | mysql/client/mysqldump.c:3547-3550 | how the counted length relates to the length printed |
| DumpInsert.StatementsFit | mysql/client/mysqldump.c:3753-3787 | a statement of several rows is shorter than the buffer |
| DumpInsert.GroupsGrouping | mysql/client/mysqldump.c:3753-3787 | grouping row by row keeps the bound, loses nothing and leaves no statement that could have taken the next row |
| DumpInsert.OneGrouping | mysql/client/mysqldump.c:3753-3787 | the bound and the greedy rule determine the grouping of the rows |
| DumpInsert.PrintRows | mysql/client/mysqldump.c:3753-3787 | every row once, in order, in terminated statements grouped in that one way; nothing for an empty table |

## Left out

- Connection handling, option parsing, prompts, pager, tee, signals and terminal code: I/O and foreign libraries.
- Multi-byte character sets and collations: bytes of a single-byte character set are modelled.
- The coordinate printed with `--dump-slave`: its statements are part of the protocol, the replica's position is not.
- mysqldump's tablespace and header queries: they neither lock nor read rows.
- `create_delimiter` (mysql/client/mysqldump.c:2001-2012): its loop does not progress when `;;` occurs in the query.
- `parse_option` of mysqlslap (mysql/client/mysqlslap.c:1984-2034): no clean splitting property holds of it.
- Interactive reading and the `-e` string mode: only file input in batch mode is modelled.
- Batch.ReadAndExecute: the file has no NUL bytes, because a NUL ends a line and its neighbour may be lost.
- SplitterMeaning.AddLineMeans: is about lines without backslash commands and server-side comments (FallsIntoTokens says which these are), with comments dropped and responses that neither quit nor change the delimiter, which does not start with a blank or a backslash; everything else is covered by AddLineInPlace.
- Splitter.AddLineInPlace: the delimiter is not empty, because `com_delimiter` refuses an empty one and the scan would not advance on it.
- The commands behind the splitter (`com_go`, `com_delimiter` and the others) are responses of the environment, which may depend on everything asked before.
- `hashpjw`: every result about the completion index holds for any hash function.
- CompletionGenerator.Generator.Call: with an empty text the table holds a word or no earlier listing is unfinished, because on an emptied table the code goes on from a freed entry.
- SlapScheduler.RunKeepsInv: threads are created successfully, because a failed creation ends the program.
- SlapTask.RunTask: connections succeed, and with a limit the list is not empty, because the thread would never end; there is a key to draw, which the code asserts; result sets and the size of the buffer for a statement with its key are left out.
- SlapTask.CreateSchema: with generated SQL there is a second statement or the number does not exceed the list, because the code would never end; the engine option added to CREATE TABLE is left out.
- ImportPool.ExitStatus: the text written by write_to_table is not modelled, only its result; reads and writes of the exit code are atomic steps.
- Statements of mysqldump that the server refuses: without `--force` they end the program.
- The LOCAL of mysqldump's LOCK TABLES: others may then append rows that the dump does not see; in the model they are kept out altogether.
- BinlogFilter.Filter.Process: what is printed for an event, database filters and table maps of ignored tables are left out.
- BinlogLoad.Processor.Process: reads, writes and closes of local files succeed, and nobody else changes these files; memory is available.
- SqlString.String.AppendWithPrefill: the string is at most 2^31 bytes longer than the full length, because beyond that the signed difference wraps to a positive number.
- SqlString.String.Append: the sum of lengths stays below 2^32, which the code does not check before adding; the source string is not the string itself; character set conversion is left out.
- SqlString.String.Replace: offset and lengths do not wrap 32 bits; the replacement is not part of the string itself.
- SqlString.String.Strstr: the offset and the length of the text searched for do not wrap 32 bits; positions are integers, not narrowed to a signed 32-bit result.
- `String` members that only set or print fields, `fill` and the numeric appends: easy.
- SqlQuoting.QuoteForLike: the size of the caller's buffer and the server mode without backslash escapes are left out.
- DumpXml.PrintCdata: characters that XML does not allow, and the reader's line-end normalisation, are left out.
- DumpInsert.PrintRows: how a row's values are printed is left out; a row is any text.
- Other programs in the repository: formatting, process launching or glue without a comparably hard property.
