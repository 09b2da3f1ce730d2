# srm-api: the SQL dump and replay engine and its validators, in Dafny

srm-api is a desktop utility for health-centre staff. It works on the
MySQL database of a hospital information system (JHCIS or HOSxP) and on
the patient-rights service of the national health security office. Its
engineering core is a pair of workers:

- The backup worker (`Backup.py`) dumps every table, view and routine
  into its own SQL text file and zips the files. Each cell becomes a SQL
  literal. Each row becomes one `INSERT` line. Routine bodies are wrapped
  in `DELIMITER ;;` and `DELIMITER ;`.
- The restore worker (`Restore.py`) replays those files with a
  line-by-line scanner. The scanner honours `DELIMITER` lines and cuts a
  statement whenever the right-stripped buffer ends with the current
  delimiter. An older worker (`example_restore.py`) splits only on lines
  ending in `;\r\n`.

Around the workers sit small validators and state machines, each
modelled in its own module:

- the 13-box citizen-ID entry (`PersonalCheck.py`);
- the patient-rights table and its retry guard (`Patient.py`);
- the "43 files" checks on a folder and on a ZIP archive (`F43Check.py`,
  `F43ZipCheck.py`);
- the export file-name sanitiser and export loop (`Export16Files.py`);
- the SQL log (`DbLog.py`);
- the access-token refresh script (`refresh.py`);
- the login lock-out (`Login.py`);
- the MySQL settings form (`Setting.py`).

Each source file maps to one Dafny module. Shared helpers live in
`Wrappers`/`Seqs`, `Text` and `Bytes`, which cover Python's ASCII string
and byte methods, and in `Order`, `StopFlag` and `Progress`. The dump
text is in `Dump`, the dump loop in `Backup`, the scanner in
`SqlScanner`, the replay loop in `Restore` and the older worker in
`LegacyRestore`. `RoundTrip` follows dumped sections through the scanner.

Loops over mutable state are methods proved against specification
functions. Objects whose fields the source updates are classes: the
workers, the windows and the login form. The pure rules are functions
with lemmas.

Outside effects become inputs:

- The database is an oracle that says whether a statement executes.
- The stop flag set by the user interface is the index of the first poll
  that sees it. A flag that stays set once set makes this cover every
  interleaving.
- The clock, the file system, the HTTP service and the codecs are
  parameters.

The model follows the code, including where it does less than a reader
of the program's messages and comments might expect:

- There is no tolerant/fatal split of restore errors. Every rejected
  statement is logged as `ERROR:` and the scan goes on, with no cap on
  the log (`Restore.ErrorLogExact`).
- Foreign-key checks are never switched back on.
- The backup skips no object on an error. A query of one object that
  raises ends the whole run with `finished_error` and no archive
  (`Backup.BackupWorker.Run`, `Backup.QueryFailure`).
- A stop seen between lines of a file only ends that file. The worker
  still reports 100% and `finished_ok`. A stop seen before a file ends
  the run without `finished_ok` (`Restore.RestoreWorker.Import`).
- The stop flag is polled once per line, not once per statement.
- A NULL in a binary column is written as the hex of the text `None`,
  not as `''` (`Dump.NullCell`).
- A dumped text value with a line break can be cut into two statements
  on replay. That happens when the line a break ends finishes with `;`
  (whitespace after it allowed), or when the line after a break starts
  with `DELIMITER` (see Findings).
- An empty binary value is dumped as a bare `0x`, which MySQL does not
  read as a value (see Findings).

## Model

| member | source | states |
|---|---|---|
| Dump.UnhexHex | Backup.py:224-226 | `bytes.hex()` writes two lowercase hex digits per byte, and reading those digits back gives the bytes |
| Dump.EscapeTextEach | Backup.py:242 | the two `replace` passes (backslash doubled, then quote backslash-prefixed) escape each character independently: the second pass never touches a backslash the first one added |
| Dump.EscapeEachPlain | Backup.py:242 | a text without quotes or backslashes is written unchanged between the quotes |
| Dump.Truncate | Backup.py:239-240 | the result is a prefix of the text; with a non-zero `max_length` it is exactly `max_length` long when the text is longer and the whole text otherwise; without one the text is kept |
| Dump.ReadEscaped | Backup.py:242-243 | the escaped text closed by a quote reads back, MySQL-style, as the original text followed by whatever came after |
| Dump.EscapeStrRoundTrip | Backup.py:229-243 | the literal written for a text reads back as the text after the `'None'`-to-empty rule and the cut to `max_length` |
| Dump.EscapeIntRoundTrip | Backup.py:222-223 | an integer is written as its decimal text between quotes, and that literal reads back as the decimal text |
| Dump.EscapeBytesRoundTrip | Backup.py:224-226 | bytes are written as `0x` and hex digits that read back as the same bytes; MySQL reads the whole literal back exactly when there is at least one byte |
| Dump.EscapeNoneText | Backup.py:220-236 | NULL, the text `None` and the empty text are all written as `''` |
| Dump.EscapeSafe | Backup.py:242 | the corrected escaping never emits a raw line feed or carriage return |
| Dump.EscapeSafeAgrees | Backup.py:242 | on text without line breaks the corrected escaping is exactly the escaping as written |
| Dump.ReadEscapedSafe | Backup.py:242-243 | the corrected literal reads back as the text, line breaks included |
| Dump.FirstNumberOf | Backup.py:396-399 | `re.search(r'(\d+)')` finds the number written after a digit-free prefix and ending at a non-digit |
| Dump.FirstNumberNone | Backup.py:396-397 | a type text without digits has no first number |
| Dump.Classify | Backup.py:365-411 | a column keeps its name; a maximum length is set only for a string column whose first number exceeds 10000, and is that number |
| Dump.ClassifyTruncates | Backup.py:394-404 | a string column whose first number exceeds 10000 is cut to that length |
| Dump.ClassifyVarchar | Backup.py:387-404 | `varchar(n)` is a string column, not binary, cut at n exactly when n is over 10000 |
| Dump.ClassifyLongblob | Backup.py:387-388 | `longblob` is binary and not a string column |
| Dump.ClassifyDatetime | Backup.py:386 | `datetime` is a date-time column and is never cut |
| Dump.ColumnsOf | Backup.py:365-411 | one classified column per row of `SHOW COLUMNS`, in order |
| Dump.DescribeColumns | Backup.py:357-420 | the loop over `SHOW COLUMNS` builds exactly `ColumnsOf` of the rows |
| Dump.ColumnAt | Backup.py:433-437 | a value past the described columns has every flag off and no maximum length |
| Dump.Latin1 | Backup.py:452 | latin-1 decoding keeps the length and maps each byte to the character with the same code |
| Dump.DecodeCell | Backup.py:449-457 | the loop over the encodings returns the result of the first decoder that succeeds |
| Dump.DecodeOrder | Backup.py:452-457 | decoding tries tis-620, then utf-8, then latin-1, which accepts every byte string, so cp874 is never reached |
| Dump.EncodeCell | Backup.py:440-467 | the cell's literal is `CellLiteral` of the value and its column |
| Dump.CellKind | Backup.py:440-467 | exactly the binary columns are written as `0x…`; every other literal is quoted |
| Dump.NullCell | Backup.py:442-463 | NULL becomes `''` in a text column but `0x4e6f6e65`, the hex of the text `None`, in a binary column |
| Dump.TextCellRoundTrip | Backup.py:446-467 | the text of a non-binary cell reads back from its literal, after the `'None'` rule and the cut |
| Dump.BlobCellRoundTrip | Backup.py:440-443 | the bytes of a binary cell read back from its `0x` literal, and MySQL reads that literal back exactly when there is at least one byte |
| Dump.EmptyBlobUnreadable | Backup.py:440-443 | empty bytes and empty text in a binary column are both dumped as a bare `0x`, which does not read back as a value |
| Dump.BlobLiteralRoundTrip | Backup.py:440-443 | corrected: with `''` for empty bytes, every binary value reads back, and the literal is the dumped one whenever there is a byte |
| Dump.RowLiterals | Backup.py:431-468 | one literal per value of the row |
| Dump.EncodeRow | Backup.py:431-468 | the loop over a row's values builds `RowLiterals` |
| Dump.RecordLines | Backup.py:430-469 | one `INSERT INTO` line per fetched row, in fetch order, each with the row's literals |
| Dump.RecordsText | Backup.py:426-469 | the records section is empty exactly when the table has no rows |
| Dump.WriteRecords | Backup.py:426-469 | the writes of the row loop produce `RecordsText` |
| Dump.SourceOf | Backup.py:265-287 | the header values: `host or localhost`, `port or 3306`, the server version or `(unknown)`, and the database |
| Dump.TableStructure | Backup.py:350-355 | no structure section without CREATE text; otherwise it ends with the DROP line right before the CREATE text and `;` |
| Dump.RoutineBody | Backup.py:561-568 | no body section without a body; otherwise it starts with the DROP line and ends with the body between `DELIMITER ;;` and `DELIMITER ;` |
| Dump.WriteTable | Backup.py:326-469 | the writes of one table file, in order, produce `TableFile` |
| Dump.RoutineNaming | Backup.py:524-565 | for every routine type, the file prefix is `proc_` exactly when the DROP keyword is `PROCEDURE`, and neither depends on the case of the type |
| Backup.DumpAll | Backup.py:316-571 | the object loops produce `DumpObjects` of the objects |
| Backup.ObjectTurn | Backup.py:316-472 | one turn of an object loop produces `NextObject` |
| Backup.WriteObject | Backup.py:325-568 | the writes of one object's file produce its `FileText` |
| Backup.StoppedStays | Backup.py:317-320 | once a poll has seen the stop flag, later objects change nothing |
| Backup.DumpObjectsAppend | Backup.py:316-571 | the table, view and routine loops run one after the other, sharing `done`, as one loop over the objects in order |
| Backup.StepGoing | Backup.py:316-472 | a turn whose poll sees no stop writes the object's file, logs its position and name, and adds one to `done` and one progress value |
| Backup.StepStop | Backup.py:317-320 | a turn whose poll sees the stop only logs "stopped by user" |
| Backup.DumpCounts | Backup.py:314-571 | the flag is polled once per object; if the k-th poll is the first to see it, k objects are done, otherwise all of them |
| Backup.DumpProgress | Backup.py:470-472 | each object done reports `done * 100 / total_items` |
| Backup.DumpLog | Backup.py:316-529 | each object done logs `[done+1/total]` and its name in order; a run without a stop logs every object, and a stop logs "stopped by user" after the objects done |
| Backup.LogTurn | Backup.py:316-322 | one turn logs the object and counts it, or logs the stop and sets the flag, or does nothing once stopped |
| Backup.DumpingLinesAt | Backup.py:322 | line j names object j with the position j+1 after those already done |
| Backup.DumpingLinesPrefix | Backup.py:314-322 | the lines of the objects done do not depend on the objects still to come |
| Backup.ProgressShape | Backup.py:312-472 | over a run the progress values never decrease, stay within 0..100, and reach 100 at the last object |
| Backup.DumpFileNames | Backup.py:325-531 | without a stop the temporary directory holds exactly the files named after the objects |
| Backup.DumpFileTexts | Backup.py:325-568 | without a stop, and with no two objects sharing a file name, each object's file holds the text written at its position |
| Backup.TotalItems | Backup.py:312 | `max(1, n)` is positive and at least `n`, and is `n` when `n > 0` |
| Backup.BackupWorker.constructor | Backup.py:202-207 | a new worker has no polls, log, progress or archive |
| Backup.BackupWorker.Run | Backup.py:245-584 | a failed connection ends with `finished_error`; a stop seen after connecting ends with the UI reset; a failing table-list query ends with `finished_error` and no log line; a failing query of object `k` ends the run at that object's turn with `finished_error` (or the UI reset if the flag is seen first) and no archive; otherwise the loops run over tables, views and routines in order and end with the archive and `finished_ok`, or with the UI reset after a stop |
| Backup.QueryFailure | Backup.py:316-342 | when the query of object `k` raises and no stop is seen, the objects before it are dumped, the log holds their lines and the failing object's line, the count stays at `k` and the progress values stop at object `k` |
| Backup.FailPosition | Backup.py:288-550 | a query failure ends the loops exactly when its object is among the objects listed |
| Backup.BackupWorker.Finish | Backup.py:572-581 | without a stop the archive holds the files and "completed" is logged; with one the UI is reset and there is no archive |
| Backup.ZipNameClean | Backup.py:95-101 | the system part of the archive name keeps exactly the characters `[A-Za-z0-9_-]` of the setting, in order, and is already clean |
| Backup.ZipNameDefault | Backup.py:95-101 | an unset or empty system setting gives `backup_his_{stamp}.zip` |
| Backup.ZipNameAllRemoved | Backup.py:95-101 | a system name with no allowed character leaves the part empty (`backup__{stamp}.zip`); `his` is not put back |
| Restore.SqlEntries | Restore.py:217 | a name is kept exactly when it is listed, is a regular file and ends in `.sql` in any case |
| Restore.SqlFilesSelected | Restore.py:217-218 | only regular `.sql` files are replayed, each once, in ascending name order, whatever order the directory listed them in |
| Restore.ScanLine | Restore.py:163-183 | one turn of the line loop on its locals is one scanner `Step`: a `DELIMITER` line only changes the delimiter, any other line is appended and counted, and a completed buffer is handed out as a statement |
| Restore.ParseDirective | Restore.py:166-171 | the directive test, and the delimiter it selects is the non-empty second field of the stripped line |
| Restore.EndsStatement | Restore.py:174 | the three-way emission test is exactly "the right-stripped buffer ends with the delimiter" |
| Restore.ErrorLogExact | Restore.py:175-181 | a statement is logged as `ERROR:` exactly when the database rejected it, and nothing else is logged |
| Restore.ExecLines | Restore.py:149-187 | the line loop of `_exec_sql_file` produces `ReadFile` of the file: whether it was read to its end, the statements sent, the error lines and the per-file progress values |
| Restore.ReadLine | Restore.py:166-186 | one turn after the stop poll keeps the loop's account of lines read, statements sent, errors logged and progress emitted |
| Restore.ReadFileWhole | Restore.py:152-187 | a file read without a stop sends exactly the statements the scanner cuts from it, logs exactly the rejected ones, and emits 0 then one value per non-directive line |
| Restore.ReadFileStopped | Restore.py:163-165 | a stop seen before line k leaves the file unfinished and sends only the statements completed by the first k lines |
| Restore.ImportFiles | Restore.py:221-234 | the file loop of `run` produces `ReplayFiles` of the sorted files |
| Restore.FileTurn | Restore.py:222-234 | one turn polls the flag (a stop logs "stopped by user" and ends the loop), otherwise reports the overall progress, replays the file and reports it again |
| Restore.ReplayHalted | Restore.py:222-234 | once the replay has halted, later files change nothing |
| Restore.ReplayShape | Restore.py:226-232 | two overall values per replayed file, the percentage of files done before it and after it |
| Restore.TurnOverall | Restore.py:226-232 | a file turn either leaves the overall bar alone or adds the two values of one more file |
| Restore.OverallBar | Restore.py:219-236 | with `total = max(1, n)` the overall bar never goes back, stays within 0..100, and ends at 100 when every file was replayed |
| Restore.SqlEntriesPermutation | Restore.py:217-218 | listings that are permutations of each other select the same files, so the sorted replay order does not depend on the listing order |
| Restore.HaltedStays | Restore.py:222-225 | once the replay has halted, the remaining files change nothing |
| Restore.FileStatements | Restore.py:162-187 | one entry per file |
| Restore.FileStatementsAt | Restore.py:162-187 | entry i holds the statements the scanner cuts from file i read whole |
| Restore.ReplayNoStop | Restore.py:221-234 | without a stop every file is replayed to its end, and the statements sent are those cut from each file in turn |
| SqlScanner.FileProgress | Restore.py:184-186 | the per-file value stays within 0..100 and is `executed * 100 / total_lines` while `executed <= total_lines` |
| SqlScanner.FileProgressMonotone | Restore.py:184-186 | more lines read never lowers the per-file value |
| SqlScanner.ExecutedBounded | Restore.py:156-183 | every line is counted at most once, so the clamp never bites on a whole file |
| Restore.RestoreWorker.constructor | Restore.py:140-144 | a new worker has sent nothing, logged nothing and reported no progress |
| Restore.RestoreWorker.Run | Restore.py:189-241 | a failed connection or extraction ends with `finished_error`; otherwise the sorted `.sql` files are replayed, and both bars end at 100 unless a stop was seen before a file |
| Restore.RestoreWorker.Import | Restore.py:217-237 | after extraction: the replay of the files, then both bars at 100 and `finished_ok`, or the UI reset after a stop seen before a file |
| SqlScanner.ScanNext | Restore.py:163-183 | reading one more line of a file is one more scanner step |
| SqlScanner.DirectiveSplitSucceeds | Restore.py:166-171 | the split of a directive line always has a second field, so the `except` fallback is unreachable and the new delimiter is never empty nor starts with a space |
| SqlScanner.DelimiterNonEmpty | Restore.py:160-171 | the delimiter is never empty, at any point of any file |
| SqlScanner.TerminatesIff | Restore.py:174 | the two `+ b"\n"` alternatives of the test never hold, because a right-stripped buffer does not end in LF |
| SqlScanner.StepEffect | Restore.py:166-183 | a directive only changes the delimiter; any other line is counted and appended, and the buffer is emitted and cleared exactly when its right-stripped form ends with the delimiter |
| SqlScanner.StepLineEnding | Restore.py:163-174 | a line ended by CR LF takes the same step as the line ended by LF: same directive and delimiter, same count, and a statement emitted in one case exactly when in the other |
| SqlScanner.TerminatesLineEnding | Restore.py:174 | whether the buffer ends a statement does not depend on the line ending of its last line |
| SqlScanner.RunAppend | Restore.py:163-183 | feeding two chunks of lines one after the other is feeding their concatenation |
| SqlScanner.ScanAccounts | Restore.py:163-183 | nothing is lost or duplicated: the statements emitted followed by the pending buffer are exactly the non-directive lines read, and `executed` counts those lines |
| SqlScanner.StepAccounts | Restore.py:166-183 | one step moves a non-directive line from the input to the buffer and counts it |
| SqlScanner.ScanPrefix | Restore.py:163-183 | the statements of a file read in part are a prefix of those of the whole file |
| SqlScanner.StatementsGrow | Restore.py:163-183 | emitted statements only ever grow, by whole statements |
| SqlScanner.RunPending | Restore.py:173-174 | lines that complete no statement are only accumulated in the buffer |
| SqlScanner.RunStatement | Restore.py:173-182 | a statement spread over several lines is emitted as a single statement once a line completes it, and the buffer is left empty |
| SqlScanner.NoSemicolonNoTerminate | Restore.py:174 | a buffer without `;` never completes a statement under `;` |
| SqlScanner.PendingNoSemicolon | Restore.py:173-174 | non-directive lines without any `;` stay pending under `;` |
| RoundTrip.Utf8Flatten | Backup.py:326 | a file written in UTF-8 piece by piece holds the encodings of the pieces in turn (with `\n` as written; see Left out for Windows text mode) |
| RoundTrip.SplitEndedLines | Restore.py:162-163 | a file of lines that each end in LF is read back, line by line, as those lines |
| RoundTrip.SemicolonLine | Restore.py:166-174 | a line of text without line breaks ending in `;` and LF completes a statement under `;`, whatever the buffer held |
| RoundTrip.InsertReplays | Backup.py:469 | an `INSERT` line whose table name and literals hold no line break is one line that completes a statement under `;` |
| RoundTrip.RunStatements | Restore.py:163-183 | lines that each complete a statement, read from an empty buffer, are one statement each |
| RoundTrip.RecordsReplay | Backup.py:430-469 | the `INSERT` lines of a table come back as one statement per row, in row order, each the bytes of its line, when no literal holds a line break |
| RoundTrip.BannerPending | Backup.py:427-429 | the three banner comment lines never complete a statement under `;`, so the scanner keeps them in its buffer |
| RoundTrip.CommentLine | Backup.py:427-429 | a `--` comment line ends in LF and is no directive |
| RoundTrip.AbsorbedReplay | Restore.py:173-182 | pending lines followed by lines that each complete a statement: the first statement carries the pending lines with it |
| RoundTrip.RecordsTextReplay | Backup.py:426-469 | the records section replays as the banner sent together with the first `INSERT`, then one statement per later row |
| RoundTrip.DirectiveLine | Restore.py:166-171 | a `DELIMITER` line with an argument free of whitespace is a directive that sets exactly that argument |
| RoundTrip.DelimiterLines | Backup.py:566-568 | the two directive lines of a routine file switch the delimiter to `;;` and back to `;` |
| RoundTrip.RoutineSplit | Backup.py:566-568 | a routine section splits into the opening directive, the body's lines and the closing directive |
| RoundTrip.RoutineReplay | Backup.py:561-568 | a routine section replays as one statement, the body with its closing `;;`, and leaves the delimiter back at `;` |
| RoundTrip.DelimitedRun | Restore.py:166-183 | lines between a switch to `;;` and a switch back that make up one statement under `;;` are sent as that one statement |
| RoundTrip.LineBreakSplitsRow | Backup.py:242 | a text value with `;` right before a line break, dumped as written, cuts its `INSERT` at the break, and the first half is sent alone as an unfinished statement |
| RoundTrip.FirstLineSent | Restore.py:173-182 | a first line that completes a statement on its own is sent alone |
| RoundTrip.SafeInsertReplays | Backup.py:466-469 | with the corrected escaping a row of texts is one line that completes one statement, whatever line breaks the texts hold |
| RoundTrip.SafeLiterals | Backup.py:466-468 | each corrected literal holds no line break and reads back as its text |
| StopFlag.StopWithin | Restore.py:164-165 | the first of n polls that sees the flag set, given that the flag stays set once set |
| Progress.Percent | Backup.py:471 | `int(done * 100 / total)` is at most 100 while `done <= total` and is 100 at `done == total` |
| Progress.PercentMonotone | Backup.py:470-471 | more work done never shows less progress |
| Progress.PercentBelowFull | Backup.py:470-471 | 100 is shown only once all the work is done |
| Order.Insert | Restore.py:218 | inserting into a sorted list keeps it sorted and adds exactly the element |
| Order.Sort | Restore.py:218 | `files.sort()` returns a sorted permutation of the names |
| Order.SortedUnique | Restore.py:218 | a list has only one sorted arrangement, so the replay order does not depend on the order of the listing |
| Order.LexLeTotal | Restore.py:218 | any two names are ordered one way or the other |
| Order.LexLeTrans | Restore.py:218 | the name order is transitive |
| Order.LexLeAntisym | Restore.py:218 | two names ordered both ways are equal |
| StopFlag.StopWithinNext | Restore.py:164-165 | one more poll finds the earlier stop, or this poll's stop, or none |
| Text.StripEmpty | Setting.py:44-49 | `str.strip()` gives the empty text exactly when every character is whitespace |
| Text.StripStripped | Setting.py:32-35 | stripping twice strips once |
| Text.Upper | F43ZipCheck.py:76 | `str.upper()` changes each character in place, only the letters a-z |
| Text.Digits | PersonalCheck.py:196 | the digits kept are all digits and no more than the input |
| Text.ParseNatToDecimal | F43Check.py:123 | the decimal text of a number reads back as the number |
| Text.IntToDecimalRoundTrip | Setting.py:103-107 | the decimal text of an integer is an optional minus and digits, and reads back as the integer |
| Text.PathJoin | F43Check.py:70 | the joined path starts with the folder and ends with the file name, with at most one separator added; an empty folder gives the bare name |
| Bytes.StripEnds | Restore.py:166 | a stripped line neither starts nor ends with whitespace |
| Bytes.Upper | Restore.py:167 | `bytes.upper()` changes each byte in place, only the letters a-z |
| Bytes.SecondField | Restore.py:169 | the second field of a split line is a non-empty suffix of it that starts with a non-space byte, or absent when the line has one field |
| Bytes.SplitLinesFlatten | Restore.py:162-163 | the lines a binary file yields join back to the file, and each ends with its only LF or is the unended last line |
| Bytes.Utf8Append | Backup.py:326 | the UTF-8 encoding of two texts written one after the other is the two encodings in turn |
| PersonalCheck.DashedShape | PersonalCheck.py:199 | the dashed CID is 17 characters with dashes at 1, 6, 12 and 15, and its digits are the CID |
| LegacyRestore.LegacyAccounts | example_restore.py:309-323 | nothing is lost or duplicated and no line is special: the statements sent followed by the pending text are all the lines read, `DELIMITER` lines included |
| LegacyRestore.LegacyStatementsEnd | example_restore.py:314-319 | every statement sent ends in `;\r\n` |
| LegacyRestore.LegacyTail | example_restore.py:313-314 | lines that do not end in `;\r\n` are only appended: a trailing fragment is never sent |
| LegacyRestore.SemicolonLfNotEnd | example_restore.py:314 | a line ending in `;` and a bare LF does not close a statement |
| LegacyRestore.FailedOfRefused | example_restore.py:320-323 | the error lines are exactly the refused statements, each with the file name |
| LegacyRestore.LineProgress | example_restore.py:304-312 | the line progress after k of n lines: 0 first, then one value per line |
| LegacyRestore.LineProgressFull | example_restore.py:308-312 | line progress never falls, stays within 0..100, and is 100 exactly at the last line |
| LegacyRestore.DoRestore | example_restore.py:284-326 | `do_restore` sends the statements the `;\r\n` splitter cuts, reports the refused ones, and emits the line progress |
| LegacyRestore.RunFiles | example_restore.py:328-346 | every listed file in list order, each counted done as `at_file` of `len(files)` |
| LegacyRestore.CountsClimb | example_restore.py:339-344 | the counter climbs by one per file, starts at 1 and ends at the number of files |
| LegacyRestore.ElapsedOf | example_restore.py:118-126 | under a minute the label shows seconds; from a minute on, minutes and the remaining seconds that add up to the total |
| LegacyRestore.ElapsedTimer.constructor | example_restore.py:104 | the elapsed count starts at 0 |
| LegacyRestore.ElapsedTimer.Tick | example_restore.py:118-126 | each tick adds one second and redraws the label from the new count |
| PersonalCheck.FmtPid | PersonalCheck.py:194-201 | a text whose digits are not exactly 13 is shown as it is |
| PersonalCheck.FmtPidGroups | PersonalCheck.py:194-199 | a 13-digit CID is shown as 17 characters with dashes at 1, 6, 12 and 15 and the same digits in the same order |
| PersonalCheck.FmtPidIdempotent | PersonalCheck.py:194-201 | formatting a formatted CID changes nothing |
| PersonalCheck.Dash | PersonalCheck.py:166-171 | the result is never empty; a value whose stripped text is not empty shows that text; anything other than `-` is the stripped value |
| PersonalCheck.DashStripped | PersonalCheck.py:166-171 | a dashed value is never empty and has no surrounding whitespace |
| PersonalCheck.FirstSet | PersonalCheck.py:184-185 | a non-empty result of `get(k1) or get(k2) or ''` is the value of one of the two keys |
| PersonalCheck.FmtCodeNameParts | PersonalCheck.py:182-190 | the text is empty exactly when code and name both are; it is `(code) name` when both are there, the bare name without a code and the bare code without a name; `id` wins over `hcode` and `name` over `hname` |
| PersonalCheck.FmtCodeNameNone | PersonalCheck.py:182-192 | no dictionary shows as empty |
| PersonalCheck.PastedSlots | PersonalCheck.py:92-96 | after a paste from box `start`, box `start + k` holds the k-th digit while there is a box, and every other box is unchanged |
| PersonalCheck.PasteFocus | PersonalCheck.py:97-105 | the focus goes to the box after the last digit, or to the last box |
| PersonalCheck.PasteWholeCid | PersonalCheck.py:87-107 | pasting a text with at least 13 digits into the first box enters its first 13 digits as the CID |
| PersonalCheck.CidOfDigits | PersonalCheck.py:203-207 | boxes each holding one digit give the CID of those digits |
| PersonalCheck.CidEntry.constructor | PersonalCheck.py:38-53 | thirteen empty boxes, the first one focused, no CID |
| PersonalCheck.CidEntry.Paste | PersonalCheck.py:124-150 | the clipboard's digits fill the boxes from `start` on and the focus moves past them; a text without digits is not handled and changes nothing |
| PersonalCheck.CidEntry.Backspace | PersonalCheck.py:110-120 | Backspace in an empty box other than the first clears and focuses the box before it; otherwise nothing changes |
| PersonalCheck.CidEntry.DigitChanged | PersonalCheck.py:63-70 | a box that now holds one character passes the focus to the next box, unless it is the last |
| PersonalCheck.CidEntry.SubmitCid | PersonalCheck.py:203-207 | the CID is the boxes' stripped texts joined |
| Patient.IndexOf | Patient.py:147-150 | `list.index`: -1 exactly when the name is absent, otherwise the position of its first occurrence |
| Patient.IndexOfFirst | Patient.py:147-150 | a position holding the name with none before it is the one the lookup returns |
| Patient.LayoutOf | Patient.py:145-159 | the cid column is -1 exactly when the query has no `cid`, else one right of its first `cid`; the two new columns are at the end unless the query already names them |
| Patient.HeaderColumn | Patient.py:145-159 | where each name lands in the header row built with the `check` column in front and the two new columns behind |
| Patient.BuildRow | Patient.py:164-185 | a table row is an unchecked box, one cell per value with None shown empty, and two empty cells |
| Patient.PopulateTable | Patient.py:143-185 | the table has the layout of its header row and one shown row per query row |
| Patient.FilterAscending | Patient.py:602-603 | filtering keeps rows in ascending proxy order |
| Patient.ResumeFrom | Patient.py:601-603 | with a positive resume position exactly the rows at or after it are kept, in order |
| Patient.CollectRows | Patient.py:593-603 | the rows to check are exactly the proxy rows with a non-empty cid at or after a positive resume position, in ascending order |
| Patient.RightsPreferTopLevel | Patient.py:370-393 | a non-empty top-level type or card number is the one reported; the first fund is consulted for a field only when the top level leaves it empty |
| Patient.RightsFundsIrrelevant | Patient.py:372-384 | when both top-level fields are present, replacing the funds changes nothing |
| Patient.TopTypePrefersId | Patient.py:374-378 | a dictionary `subinscl` reports its id, else its name, else the empty text |
| Patient.AddRow | Patient.py:686-690 | one `setdefault(...).append` step keeps the cid list and the row map describing the cells seen so far |
| Patient.GroupRows | Patient.py:685-690 | the distinct non-empty cids in order of first appearance, each with exactly the rows that show it |
| Patient.Chunks | Patient.py:699-703 | the batches of 500 concatenate back to the cid list, none is empty, and all but the last are full |
| Patient.CheckedToday | Patient.py:698-708 | a cid is found checked exactly when it is in some batch and has a check dated today |
| Patient.TickEach | Patient.py:718-722 | ticking a list of rows adds exactly those rows |
| Patient.TickChecked | Patient.py:716-722 | the ticked rows are exactly the rows whose cid was found checked today |
| Patient.MarkCheckedToday | Patient.py:678-722 | the rows ticked are exactly the rows with a non-empty cid recorded as checked today |
| Patient.SetClauses | Patient.py:657-664 | the SET list starts with the death flag and date, and has each update-time clause exactly when the table has that column |
| Patient.DeathDay | Patient.py:650-655 | the stored date is a prefix of the stripped text, at most 10 characters long |
| Patient.DeathUpdate | Patient.py:646-667 | nothing is written for a missing or blank date; otherwise the parameters are the cut date and the cid |
| Patient.SetClausesPercent | Patient.py:657-665 | the SET clauses hold exactly one `%` marker whichever columns exist |
| Patient.DeathUpdatePlaceholders | Patient.py:657-667 | the update statement has exactly as many `%s` markers as parameters |
| Patient.RestartAtMostOnce | Patient.py:491-516 | while every run ends on an expired token at most one restart is scheduled, none once the retry is spent |
| Patient.FinishedCleanResets | Patient.py:517-523 | a run that ends with a valid token clears the retry guard and the resume position, so a later expiry may retry again |
| Patient.RightsCheck.constructor | Patient.py:492-493 | a fresh window has no retry spent and nothing to resume |
| Patient.RightsCheck.NeedResumeFrom | Patient.py:552-556 | the worker's expired-token row becomes the resume position |
| Patient.RightsCheck.StopRights | Patient.py:570-576 | stopping records the row being processed, when known, as the resume position |
| Patient.RightsCheck.FinishedSummary | Patient.py:475-523 | the window's guard and resume position move as the finish rule says, and a restart is scheduled exactly when it says so |
| Patient.Preview | Patient.py:544-547 | short answers are shown whole; long ones are cut to 4000 characters and end with the truncation mark |
| Patient.PreviewIdempotent | Patient.py:544-547 | previewing a preview changes nothing |
| F43Check.RequiredFilesCount | F43Check.py:27-36 | the required list holds 44 basenames |
| F43Check.ResultClassified | F43Check.py:68-84 | a scan result carries the missing-file error exactly when the file does not exist, the empty-file error exactly when its size is 0, and nothing else |
| F43Check.VerdictOf | F43Check.py:94-106 | a failed verdict carries one or two messages |
| F43Check.CountZero | F43Check.py:94-101 | no file counted is the same as no file meeting the test |
| F43Check.MissingEmptyPartition | F43Check.py:94-95 | no file is both missing and empty, and the two counts add up to the files with errors |
| F43Check.VerdictPassIff | F43Check.py:88-106 | validation passes exactly when no result has an error, that is when every file exists with a positive size |
| F43Check.CellsReadBack | F43Check.py:38-45 | a table or CSV row gives its result back: name, YES exactly for an existing file, the size parsed from its digits, the error |
| F43Check.ExportLines | F43Check.py:108-125 | no CSV without a scan; otherwise the header then one row per result, in order |
| F43Check.FolderCheck.constructor | F43Check.py:26-36 | a fresh window holds the required list and no results |
| F43Check.FolderCheck.Scan | F43Check.py:61-86 | a blank or non-folder path changes nothing; otherwise the results are one classified result per required file, in order, with that file's path and size |
| F43Check.FolderCheck.Validate | F43Check.py:88-93 | the last scan is validated, after scanning when there is none; nothing is reported while there is still no result |
| F43Check.ScanVerdict | F43Check.py:61-106 | after a scan of a real folder validation passes exactly when every required file is present and non-empty |
| F43ZipCheck.Basename | F43ZipCheck.py:73 | the basename is a separator-free suffix of the name, empty when the name ends with a separator |
| F43ZipCheck.ByNameFiledBy | F43ZipCheck.py:71-76 | every key of the index was filed by some entry |
| F43ZipCheck.ByNameFiles | F43ZipCheck.py:72-76 | every entry with a basename has its upper-cased basename in the index |
| F43ZipCheck.ByNameKeys | F43ZipCheck.py:71-76 | a key is in the index exactly when some entry is filed under it |
| F43ZipCheck.ByNameLastWins | F43ZipCheck.py:72-76 | the size under a key is that of the last entry filed under it |
| F43ZipCheck.ByNameKeysUpper | F43ZipCheck.py:76 | no key holds a lower-case letter |
| F43ZipCheck.LookupUpperOnly | F43ZipCheck.py:80-84 | the lower-case alternative never matches, so a file is found exactly when some entry in any folder has basename `BASE.TXT` in any case |
| F43ZipCheck.BuildIndex | F43ZipCheck.py:71-76 | the loop builds the index the definition describes |
| F43ZipCheck.ZipCheck.constructor | F43ZipCheck.py:28-38 | a fresh window holds the required list and no results |
| F43ZipCheck.ZipCheck.Scan | F43ZipCheck.py:62-101 | a blank path, a non-file or an unreadable archive changes nothing; otherwise one classified result per required file with the size the index gives |
| F43ZipCheck.ScanRequired | F43ZipCheck.py:79-96 | one result per required file, in order, named BASE.TXT, with the size the index gives, classified, and the table row that shows it |
| F43ZipCheck.ZipCheck.Validate | F43ZipCheck.py:103-107 | the last scan is validated, after scanning when there is none; nothing is reported while there is still no result |
| F43ZipCheck.ZipScanVerdict | F43ZipCheck.py:62-120 | after a scan of a readable archive validation passes exactly when every required `BASE.TXT` is in the archive and non-empty |
| Export16.MaskedBy | Export16Files.py:223-226 | every unsafe character becomes `_`, every other character is kept in place |
| Export16.ReplaceCharPointwise | Export16Files.py:225-226 | replacing one character by one character works position by position |
| Export16.MaskOneMore | Export16Files.py:225-226 | each pass of the replace loop masks one more unsafe character |
| Export16.Latin1 | Export16Files.py:229 | only characters of the input below 256 are kept |
| Export16.Cut | Export16Files.py:232 | the cut name is a prefix of at most 50 characters |
| Export16.StripUnderscores | Export16Files.py:234 | the result is no longer than the input, has no `_` at either end and only the input's characters |
| Export16.SafeNameClean | Export16Files.py:218-234 | a safe name has no unsafe character and no space, only characters below 256, at most 50 characters and no `_` at either end |
| Export16.ReplaceCharAbsent | Export16Files.py:226 | replacing a character that does not occur changes nothing |
| Export16.SafeNameFixed | Export16Files.py:218-234 | a name that is already clean, short enough and not wrapped in `_` is kept as it is |
| Export16.SafeNameIdempotent | Export16Files.py:218-234 | making a safe name safe again changes nothing |
| Export16.SafeFilename | Export16Files.py:218-234 | the replace loop followed by the filter, space replacement, cut and strip computes the safe name |
| Export16.ExportFile | Export16Files.py:95-130 | an unknown format fails; otherwise the outcome is the writer's for the path `<safe name>_<timestamp>.<extension>` in the export folder |
| Export16.Outcomes | Export16Files.py:44-57 | one outcome per selected file, file i being stamped with the i-th clock reading |
| Export16.CountTrue | Export16Files.py:59-60 | the success count never exceeds the number of outcomes |
| Export16.CountTrueAll | Export16Files.py:82-85 | the count reaches the number of files exactly when every export succeeded |
| Export16.Handled | Export16Files.py:44-49 | a run handles every file unless the stop is seen before the last one, and then fewer |
| Export16.RunSuccess | Export16Files.py:44-85 | a run reports success exactly when it was not stopped and every export succeeded |
| Export16.ExportStep | Export16Files.py:51-75 | one pass of the loop records the file's outcome and progress and counts a success |
| Export16.ExportWorker.constructor | Export16Files.py:31-42 | a fresh worker is running with nothing reported |
| Export16.ExportWorker.Stop | Export16Files.py:236-240 | stopping clears the running flag and nothing else |
| Export16.ExportWorker.ExportFirst | Export16Files.py:44-75 | the first h files are exported in order, each reported with its outcome and followed by its progress percentage, and the successes are counted |
| Export16.ExportWorker.Run | Export16Files.py:31-85 | a stop seen before a file cancels the run and leaves later files untouched; otherwise every file is reported and the completion is the count's summary |
| DbLog.CleanLong | DbLog.py:45-46 | a string over 100 characters is logged as its first 50 characters, `...` and its last 20, between quotes: 75 characters |
| DbLog.CleanShort | DbLog.py:47-48 | a string of at most 100 characters is logged between quotes as it is |
| DbLog.CleanNull | DbLog.py:43-44 | `NULL` is logged for None, or for a non-string value that prints as `NULL` |
| DbLog.CleanParams | DbLog.py:41-50 | one cleaned entry per parameter, in order |
| DbLog.QuoteFor | DbLog.py:52 | the tuple text quotes an entry with `"` only when it holds `'` and no `"` |
| DbLog.UnescapeChar | DbLog.py:52 | one escaped character reads back as the character |
| DbLog.UnescapeEscape | DbLog.py:52 | the escaped text of an entry reads back as the entry |
| DbLog.EscapeClean | DbLog.py:52 | an escaped entry holds no newline and no unescaped quote |
| DbLog.StrReprRoundTrip | DbLog.py:52 | the quoted form of an entry reads back as the entry |
| DbLog.TupleReprOneLine | DbLog.py:52 | the tuple text is one line whatever the entries hold |
| DbLog.ParamsEntryShape | DbLog.py:52 | an entry with parameters starts like the plain entry and is a single line whenever the timestamp and the command are |
| DbLog.OperationEntryDetails | DbLog.py:74-77 | an operation entry ends with `: details` exactly when details are given, and is the bare operation otherwise |
| DbLog.LogFile.constructor | DbLog.py:21-23 | the log starts with the text already in the file |
| DbLog.LogFile.LogSql | DbLog.py:10-25 | the entry is appended to the log when the file can be written, and the log is unchanged otherwise |
| DbLog.LogFile.LogSqlWithParams | DbLog.py:28-60 | the entry with the cleaned parameters, or the plain entry when there are none, is appended when the file can be written |
| DbLog.LogFile.LogOperation | DbLog.py:63-83 | the operation entry is appended when the file can be written |
| Refresh.LineEnd | refresh.py:66 | the index of the first newline, or the length when there is none |
| Refresh.ReadLines | refresh.py:65-66 | the lines read concatenate back to the file's text |
| Refresh.ReadLinesWellFormed | refresh.py:65-66 | every line read but the last ends with its only newline |
| Refresh.ReadLinesUnended | refresh.py:65-66 | a text without newline is one line |
| Refresh.ReadLinesEnded | refresh.py:65-66 | a text with one newline at its end is one line |
| Refresh.ReadLinesOfFlatten | refresh.py:65-66 | reading back the text of well-formed lines gives the same lines |
| Refresh.RefreshTokenOfFirst | refresh.py:8-15 | the token is that of the first refresh line, and there is none exactly when no line is one |
| Refresh.ReadRefreshToken | refresh.py:8-15 | the `for ... else` loop stops at the first refresh line and finds the same token |
| Refresh.FieldToken | refresh.py:45-50 | the stripped value of the first token key holding a non-blank string, and none exactly when no key does |
| Refresh.RawToken | refresh.py:54-60 | a non-blank stripped body |
| Refresh.ErrorBodyChosenAsWritten | refresh.py:35-60 | the body of an error object is taken as the access token |
| Refresh.ChosenSkipsErrors | refresh.py:39-44 | corrected: an error object yields no token, so the file is kept |
| Refresh.ChosenSource | refresh.py:33-60 | a token is the stripped raw body of a reply that `response.json()` gives None for (not JSON, or `null`), or a stripped token field of a non-error object; never blank; it agrees with the program for every reply but an error object |
| Refresh.ChosenAsWritten | refresh.py:33-60 | the token as the program chooses it is never blank and already stripped |
| Refresh.Chosen | refresh.py:33-60 | corrected: the token chosen with error objects skipped is never blank and already stripped |
| Refresh.NullBodyChosen | refresh.py:36-60 | a reply whose body is JSON `null` leaves `parsed` None, so the text `null` is written as the access token, as written and as corrected |
| Refresh.Replaced | refresh.py:69-75 | every access-token line is replaced by the new one and every other line is kept |
| Refresh.Terminated | refresh.py:76-77 | the last line is ended with a newline and nothing else changes |
| Refresh.UnendedLineGluedAsWritten | refresh.py:66-79 | a file with no access-token line whose last line has no newline gets the new line glued to it, and reads back with no access-token line |
| Refresh.FlattenGlued | refresh.py:76-79 | appending a piece writes the same text as gluing it to the last line |
| Refresh.GluedLines | refresh.py:76-79 | the glued lines are well formed and have no access-token line |
| Refresh.GluedNotAccess | refresh.py:71 | a line that is not an access-token line stays one with the new line glued to it |
| Refresh.AccessLineShape | refresh.py:72 | the new access-token line ends with its only newline |
| Refresh.RewrittenInPlace | refresh.py:69-75 | with an access-token line present the rewrite keeps the lines well formed |
| Refresh.TerminatedLines | refresh.py:76-77 | ending the last line keeps the lines well formed and each line's content |
| Refresh.RewrittenAppended | refresh.py:76-77 | without an access-token line the rewrite keeps each line's content and appends a well-formed new line |
| Refresh.RewrittenLines | refresh.py:67-77 | the rewritten lines are well formed, one more only when there was no access-token line, with each access-token line replaced and every other line's content kept |
| Refresh.RewrittenAccess | refresh.py:67-77 | the rewritten file has an access-token line and each holds the new token |
| Refresh.RefreshNotAccess | refresh.py:11 | an access-token line is never a refresh line |
| Refresh.RefreshTokenAgrees | refresh.py:8-13 | lines that agree on their refresh lines give the same refresh token |
| Refresh.RewrittenKeepsRefresh | refresh.py:67-77 | the rewrite keeps the refresh token |
| Refresh.ReplacedSnoc | refresh.py:69-75 | the replacement of a longer prefix is that of the shorter one plus one line |
| Refresh.HasAccessLineSnoc | refresh.py:71-73 | `found` after one more line is `found` before or that line is an access-token line |
| Refresh.ReplacedNone | refresh.py:69-75 | without access-token lines replacing changes nothing |
| Refresh.RewriteLines | refresh.py:67-77 | the lines written are the corrected rewrite: access-token lines replaced, or the last line ended and the new line appended when there was none |
| Refresh.ReplaceLines | refresh.py:67-75 | the loop replaces exactly the access-token lines and reports whether any was met |
| Refresh.Run | refresh.py:6-82 | corrected (see Findings): no refresh line is an error, no token keeps the file, and otherwise the file becomes the rewrite of its lines, with the new line on a line of its own, using the token chosen with error objects skipped |
| Refresh.RunAsWritten | refresh.py:6-82 | the script as written: no refresh line is an error, no token keeps the file, and otherwise the file becomes the lines with the new line appended after whatever the last line is, using the token chosen with an error object's body taken as the token |
| Refresh.RewriteLinesAsWritten | refresh.py:67-79 | the loop and the append as written produce `RewrittenAsWritten` |
| Refresh.RewrittenAsWritten | refresh.py:67-79 | the lines as written: one more line exactly when there was no access-token line |
| Refresh.Rewritten | refresh.py:67-79 | corrected: one more line exactly when there was no access-token line |
| Refresh.RewrittenAgrees | refresh.py:76-77 | the rewrite as written and as corrected are equal exactly when the file has an access-token line or its last line is ended |
| Refresh.RunRoundTrip | refresh.py:62-79 | after a rewrite reading the file again gives the same refresh token and access-token lines that all hold the new token |
| Login.AuthenticateAccounts | Login.py:77-90 | authentication accepts exactly the four demo pairs |
| Login.Attempt | Login.py:41-75 | a blank input only warns; demo credentials log the stripped user in and change nothing; a wrong pair counts one more attempt and reports the attempts left while any remain, and otherwise locks the button |
| Login.Click | Login.py:29 | a click is ignored exactly when the button is disabled, and then changes nothing; a click logs in only on an enabled button with demo credentials, and a failure counts one attempt |
| Login.Replay | Login.py:41-75 | a series of attempts reports one outcome per attempt |
| Login.WrongAttemptsLock | Login.py:57-75 | consecutive wrong attempts each add one to the counter, report the attempts left before the limit, and lock the form from the limit on |
| Login.LockedAttemptsCount | Login.py:57-75 | wrong attempts on a locked form keep counting and each reports the lock |
| Login.ThreeWrongLock | Login.py:57-75 | three wrong attempts from a fresh form report 2 and 1 attempts left, then lock it |
| Login.LockBypassedAsWritten | Login.py:33-75 | after three wrong attempts have locked the form, Enter with demo credentials still logs in |
| Login.GuardedLockHolds | Login.py:74-75 | corrected: attempts guarded by the button's state change nothing on a locked form and are all ignored |
| Login.LoginForm.constructor | Login.py:19-23 | a fresh form has empty fields, no attempts and the button enabled |
| Login.LoginForm.Type | Login.py:36-38 | typing sets the texts and clears the error styling when either text changed |
| Login.LoginForm.PressEnter | Login.py:32-34 | Enter in either field makes an attempt whatever the button's state |
| Login.LoginForm.ClickLogin | Login.py:29 | a click makes an attempt only while the button is enabled |
| Login.LoginForm.ClearForm | Login.py:113-120 | the fields, the remember box and the error styling are cleared, the counter reset and the button enabled |
| Login.LoginForm.TimerFired | Login.py:92-99 | five seconds after the lock the form is back to its initial state with empty fields |
| Login.LoginForm.ResetLoginForm | Login.py:113-120 | the form is back to its initial state with empty fields |
| Setting.GetConfigStrips | Setting.py:30-40 | host, database and user come stripped, the password verbatim, port and timeout as set, the charset utf8mb4 and a known system |
| Setting.MissingFields | Setting.py:42-53 | a field is reported exactly when its stripped text is blank |
| Setting.MissingIsFilter | Setting.py:42-53 | the reported fields are exactly the blank required fields, kept in the order host, database, user |
| Setting.FilterThree | Setting.py:43-49 | filtering three fields keeps the passing ones in order |
| Setting.ValidateRequired | Setting.py:42-53 | the check returns the missing fields in order and passes exactly when there are none |
| Setting.ValidIff | Setting.py:42-53 | the form passes exactly when none of host, database and user is blank |
| Setting.Saved | Setting.py:86-92 | a save writes exactly the seven setting keys |
| Setting.IntValue | Setting.py:103-107 | `int()` takes a number as is and reads only non-blank text |
| Setting.IntValueDecimal | Setting.py:103-107 | the decimal text of a number reads back as that number |
| Setting.StripDecimal | Setting.py:103-107 | a decimal numeral has no surrounding whitespace |
| Setting.Clamp | Setting.py:111-115 | a spin box value lies in its range and a value already in range is kept |
| Setting.SystemIndex | Setting.py:117-121 | a known system selects its own item and any other selects the first |
| Setting.Load | Setting.py:100-123 | a loaded form always lies within the widgets' ranges |
| Setting.LoadDefaults | Setting.py:102-108 | an empty store loads localhost, port 3306, empty names, timeout 10 and the first system |
| Setting.LoadUnknownSystem | Setting.py:117-121 | an unknown stored system selects the first item |
| Setting.LoadAfterSave | Setting.py:81-123 | loading after a save gives back the form with host, database and user stripped |
| Setting.SettingsWindow.constructor | Setting.py:11-28 | the window holds the widgets' values and the store and is open |
| Setting.SettingsWindow.TestConnection | Setting.py:55-79 | with a field missing only the warning is shown; otherwise the outcome is the connection's version or its error |
| Setting.SettingsWindow.SaveSettings | Setting.py:81-98 | with a field missing the store is untouched and the window stays open; otherwise the seven keys are written and the window closes |
| Setting.SettingsWindow.LoadSettings | Setting.py:100-123 | the widgets take the stored settings when all can be read and are left alone otherwise |
| Setting.SaveLoadRoundTrip | Setting.py:81-123 | after a save that went through a load gives the saved values and a form that passes the required check |

## Left out

- Text-mode newline translation is not modelled. On Windows, where the program runs, `open(..., "w")` writes each `\n` as `\r\n`, so the dumped files and `token.txt` hold CR LF where the model has LF. The restore worker reads the files in binary mode, and its scanner decides each line the same way with either ending (SqlScanner.StepLineEnding); the statements it sends then carry CR before each LF, which MySQL reads as whitespace outside string literals. `token.txt` is read back in text mode, which turns CR LF into LF again, so the refresh model is unchanged.
- Qt widgets, signals, message boxes, `QThread` wiring and thread clean-up: only the values shown and the state kept are modelled.
- Database access (connections, `SHOW CREATE`, `information_schema` queries, session `SET` statements) is an input or an oracle. No SQL is executed in the model.
- The forced stop that closes the connection from another thread (Backup.py:209-217) and the pause busy-wait of example_restore.py are concurrency. The stop is the polled flag only.
- Backup.BackupWorker.Run: only database calls fail. A file write, the creation of the archive directory or the ZIP write that raises would also end the run with `finished_error`; the file system is a parameter that does not fail.
- ZIP creation and extraction, temporary directories and the CSV, Excel and text writers: the archive is the set of files written, and writers are parameters that report success.
- Dump.ReadBlobLiteral reads only the forms the dump writes: `''` and `0x` with lowercase digit pairs. MySQL's uppercase digits, odd digit counts and `X'..'` literals are not modelled.
- The tis-620, utf-8 and cp874 decoders are abstract partial functions. Latin-1 is modelled because it decides that cp874 is never reached.
- Python's `str.strip`, `upper`, `lower` and `isdigit` are modelled on ASCII only. Unicode whitespace, case mapping and digits are not.
- Floating-point, decimal and date cells reach `_escape` only through `str()`. They are not modelled as separate kinds of value.
- Progress.Percent: the workers compute `int(done * 100 / total)` with float division. The model uses integer division, which gives the same value whenever `total` is below 2^46.
- The regex routine detection of example_restore.py (lines 274-282) is a library wrapper and is not part of this model.
- LegacyRestore.LineProgress: the source emits the float `at_line * 100 / all_line`. The model uses integer division, which agrees with the float at 0 and 100 and never exceeds it.
- Export16.ExportWorker.Run: progress is `int((i / total) * 100)` on floats, which can be one lower than the model's integer `i * 100 / total` (29 of 100 gives 28). The model states the integer value.
- Export16.ExportFile: the sample data of `generate_sample_data` is never empty, so the empty-data branch is not modelled. An exception inside a writer counts as the writer's failure.
- Patient: the `RightsWorker.run` loop is HTTP- and database-driven. Only its rights extraction and its resume signal are modelled. `srm.py`, which it calls, is not part of this model.
- Patient.RightsCheck.FinishedSummary: the 5-second timer is folded into the restart flag. The call to `refresh_token` is the parameter `refreshOk`.
- DbLog: non-ASCII non-printable characters, which `repr` escapes as `\x..`/`\u....`, are not modelled. The timestamp and the file's writability are parameters.
- Refresh.RunRoundTrip requires a token without a newline. A token holding one would add lines to the file.
- Refresh.Run: the script's `ValueError` for a file without a refresh line is the outcome `NoRefreshToken`. The file is read once, not twice, since nothing writes it in between.
- Login: `on_forgot_password` only shows a message and is not modelled. The remember-me box is a field only.
- Setting.SettingsWindow.LoadSettings: a stored text setting that is not a string is an error before any widget is set. The source would set the widgets up to that point.
- Setting.IntValue: `int()` forms with underscores or non-ASCII digits are not read, and the spin boxes' 32-bit limit is not modelled.
- Setting: the exception path of `save_settings` and the MDI window search of `on_cancel` are not modelled. Closing is `open := false`. `load_settings` is never called from Setting.py itself.
- PersonalCheck: keyboard focus is an index, and key events other than paste, backspace and one typed character are not modelled.

## Findings

| source | as written | input that shows it | evidently intended | confidence | as-written member | corrected member |
|---|---|---|---|---|---|---|
| Backup.py:242 | `_escape` doubles backslashes and escapes quotes but writes line breaks raw | a text cell `a;` + LF + `b`: its INSERT line is cut after `a;` on replay and sent as an incomplete statement | every row replays as one statement, so line breaks are written as `\n`/`\r` escapes | high (not executed) | RoundTrip.LineBreakSplitsRow | RoundTrip.SafeInsertReplays |
| refresh.py:40-60 | an error object resets `parsed` to None, which sends the body to the raw-text fallback | the reply `{"error":"invalid_grant"}` is written to token.txt as the access token | an error reply leaves the token file untouched, as the comment at line 39 says | high (not executed) | Refresh.ErrorBodyChosenAsWritten | Refresh.ChosenSkipsErrors |
| refresh.py:76-77 | the new line is appended without ending the last line first | token.txt holding `refresh-token=R` with no final newline becomes `refresh-token=Raccess-token=T` + LF | the file gains its own `access-token=` line | high (not executed) | Refresh.UnendedLineGluedAsWritten | Refresh.RunRoundTrip |
| Login.py:33-34 | the lock disables only the button, and Enter in either field still calls `attempt_login` | three wrong attempts, then Enter with `admin`/`1234`: the user is logged in while the form is locked | a locked form accepts no attempt until the timer re-enables it | high (not executed) | Login.LockBypassedAsWritten | Login.GuardedLockHolds |
| Backup.py:440-443 | a binary cell is written as `0x` and its hex digits, even when it holds no byte | an empty BLOB cell: its literal is a bare `0x`, which MySQL reads as a column name, so the INSERT of that row fails on replay | an empty binary value is written as `''` and replays as the empty byte string | medium (not executed) | Dump.EmptyBlobUnreadable | Dump.BlobLiteralRoundTrip |
