# A verified model of pgstream's algorithms

pgstream copies PostgreSQL databases: it takes snapshots, follows the write-ahead log, and
anonymises values on the way. This project models the parts of it that compute something on
their own (encoders, parsers, in-place rewrites and the protocol that records snapshots) and
proves what they promise.

Each module follows one component. Values are datatypes; objects whose methods update fields
(`Buffer`, `Request`, `SchemaErrors`, `Querier`, `SchemaTableMap`, `HstoreMap`,
`PGRestoreErrors`) are classes; algorithms that work on a slice in place (the exchange sort,
the scrambler) work on an array. Loops are methods proved against a specification function or
relation, and the lemmas beside them say what that specification means.

| module | component |
|---|---|
| `CopyText`, `CopyTarget` | the COPY text payload and a reader after the PostgreSQL documentation of COPY, "Text Format"; the names of its target |
| `SnapshotRequests`, `SnapshotStore`, `SnapshotRecorder`, `SnapshotGoroutines`, `SnapshotMarking`, `SnapshotSafety`, `SnapshotCompletion`, `SnapshotFailures`, `SnapshotWildcards`, `SnapshotLimit` | the snapshot recorder: requests, store, one step of a run, the goroutines over the program's objects, the start of a run, all runs, the end of a run, failed final updates, wildcards, a full store |
| `SchemaDiff`, `Regex`, `Words`, `Patterns`, `RenameColumn`, `RenameGaps`, `QuotedNames`, `AlterTable` | DDL statements to schema diffs, and the patterns that find names in them |
| `Utf8`, `EmailScramble` | runes after sections 3 and 4 of RFC 3629, and scrambling in place |
| `Masking`, `Hstore` | custom masking and hstore operations |
| `Percentile` | the percentile of a list of numbers |
| `PgErrors`, `Retrier` | error mapping, and retried operations with the connection they own |
| `PgRestore` | reading errors from the output of a restore |
| `Identifiers`, `ConnectionUrl`, `SchemaTableMap` | quoting and wildcards, connection passwords, table patterns |
| `KafkaOffset`, `Decimal` | offsets as text |
| `Text`, `Buffers` | splitting, joining and searching; a byte buffer |

## How the parts are read

**Bytes.** A Go byte string is a `string` with one character for each byte, except in the
scrambler, which works on byte arrays. Case folding is the ASCII one.

**The recorder.** A run is a sequence of steps: the start of the run with its filter, single
steps of the per-schema goroutines in any order, the call of the wrapped generator, the return,
and a crash, which may come anywhere. Every store call may fail, with or without having taken
effect. A behaviour is any sequence of such steps over any number of runs. The errors are
objects on a heap that goroutines share, because the program shares them.

**The retrier.** What the operation, the connection builder and the context do at each attempt
is given by a `World`; the backoff library is a schedule of allowed further attempts, bounded
by MaxRetries and by a limit for its elapsed time. For the policy without retries the context
plays no part.

## What turned out to hold only under a condition

- COPY: a row without columns reads back as one empty field; the round trip holds exactly when
  there is none (`CopyText.RoundTrip`).
- The recorder reads at most the 1000 oldest requests of a schema. A table that completed in one of
  them is safe for ever (`SnapshotSafety.NeverHandedAgain`); one that completed behind them is
  planned again (`SnapshotStore.LimitHidesRequest`), and once a read is full what runs hand over
  never changes any more (`SnapshotLimit.SettledForEver`).
- A request that a crash or a failed final update leaves open is neither retried nor reported: no
  later run hands its tables over, and a run that asks only for them returns nil
  (`SnapshotSafety.NeverRetried`, `SnapshotSafety.OnlyOpenIsNothing`).
- A wildcard request that failed for a table is never made up for by requests for the table itself: as
  long as the wildcard is not asked for again, every run that asks for the table hands it over
  (`SnapshotWildcards.FailedWildcardRepeats`). In turn a clean wildcard request does not cover a table
  whose own last request failed (`SnapshotWildcards.AfterWildcardRun`).
- RENAME COLUMN: when the old name ends in "rename" the statement contains `rename to`, is read
  as a table rename and nothing is recorded (`RenameColumn.RenameDiff`, with a concrete case in
  `RenameColumn.RenameLostHere`). The pattern takes any white space between the two keywords, the
  switch only a single space; with anything else the rename is not recorded (`RenameGaps.GapDiff`). An old name in quotes is always safe (`QuotedNames.QuotedRenameDiff`).
- A quote within a quoted name, which PostgreSQL writes twice, ends the name for the patterns
  (`QuotedNames.ExtractsQuoted`).
- One statement is read as one change. A second action that the switch looks for first takes the
  place of the first, and the column is not recorded: `AlterTable.AddColumnDiff`,
  `AlterTable.AlterColumnDiff` and `AlterTable.DropColumnDiff` say exactly when, and
  `AlterTable.KeyHidesColumn` shows it for a column added together with a primary key constraint.
- `MapError` can make an error that must not be retried retriable, exactly when it replaces a
  tree of causes that held a cancellation (`PgErrors.MappingKeepsDecision`, with a concrete
  case in `PgErrors.TwoCausesMayChangeIt`). With a single chain of causes it cannot.
- `NewProvider` does not look at DisableRetries, and without a policy a failing operation still
  runs twice (`Retrier.NoPolicyRunsTwice`).
- pg_restore output: the scanner stops at a line of 64 KiB or more without saying so, and an
  ERROR behind it can pass for success (`PgRestore.ErrorPassedOver`,
  `PgRestore.OverlongLineHidesError`).
- A space in a password becomes a plus sign, which percent-decoding does not undo; on the next
  run it is encoded again. Faithfulness and idempotence hold exactly without one
  (`ConnectionUrl.EscapeIsFaithful`, `ConnectionUrl.EscapeTwice`, and one URL in
  `ConnectionUrl.SpaceIsLostHere`).
- Quoting and unquoting are inverse exactly for names that are not empty, have no NUL and are
  not already quoted (`Identifiers.QuoteRoundTrip`).
- Trimming undoes quoting exactly for names without quotes of their own
  (`CopyTarget.RemoveFromQuoted`): a quote inside a name stays doubled.
- A scrambled address keeps the trailing bytes of the buffer when runes of several bytes were
  read, so the result is as long as the input (`EmailScramble.ScrambleBytes`). The list branch
  is also taken by a value with only one of the two braces; the model follows the code there.
- The recorder splits errors by schema only when it finds a pointer to `Errors`; an `Errors`
  value counts as one global error of every schema (`SnapshotRequests.ErrorsValueIsGlobal`).
- An error added to a nil `Errors`, or to one that holds a nil pointer for the schema, is lost
  (`SnapshotRequests.Errors.AddError`).

## Model

| member | source | states |
|---|---|---|
| CopyText.WriteCopyTextEscaped | internal/postgres/pg_tx.go:204-218 | flushing runs appends to the buffer exactly the byte-by-byte escape of the value |
| CopyText.EscapedRun | internal/postgres/pg_tx.go:200-218 | a run without special bytes may be written unchanged behind anything already escaped |
| CopyText.EscapesSpecial | internal/postgres/pg_tx.go:185-198 | each of the seven special bytes becomes two, every other byte stays, and no control character is left in a field |
| CopyText.WriteCopyTextValue | internal/postgres/pg_tx.go:168-183 | NULL and a nil encoding become the NULL mark, everything else its escaped text; a failed encoding leaves the buffer as it was |
| CopyText.WriteRow | internal/postgres/pg_tx.go:122-129 | the fields of a row with tabs between them, or the first column that fails to encode |
| CopyText.CopyFromTextPayload | internal/postgres/pg_tx.go:83-131 | no rows: nothing sent; a wrong width or a failed encoding: that error, the first in row order; otherwise a payload that the documented reader turns back into exactly the encoded fields |
| CopyText.TableFields | internal/postgres/pg_tx.go:118-130 | each value is encoded by the type of its own column; an error is that of the first row that has the wrong width or a value its own column refuses, and names that column |
| CopyText.OwnTypesHere | internal/postgres/pg_tx.go:122-129 | a concrete row of two types that only goes through with each value under its own |
| CopyText.UnescapeEscaped | internal/postgres/pg_tx.go:185-218 | the reader's unescaping undoes the escaping for every byte string |
| CopyText.ReadFieldText | internal/postgres/pg_tx.go:164-183 | every optional field reads back as written: the literal text of the NULL mark stays distinct from NULL |
| CopyText.ReadRowText | internal/postgres/pg_tx.go:118-130 | a row reads back as its fields, a row without columns as one empty field |
| CopyText.RowIsNotEndMarker | internal/postgres/pg_tx.go:118-131 | no row is the end-of-data line |
| CopyText.ReadPayload | internal/postgres/pg_tx.go:117-131 | reading any payload gives as many rows as were written, each as written except rows without columns |
| CopyText.RoundTrip | internal/postgres/pg_tx.go:117-131 | the round trip, and exactly when it holds |
| CopyText.PayloadFraming | internal/postgres/pg_tx.go:122-130 | no carriage return in any payload, and one newline for each row however many the values hold |
| CopyText.RowFraming | internal/postgres/pg_tx.go:122-129 | no newline within a row, and one tab fewer than it has fields |
| CopyTarget.RemoveAllQuotes | internal/postgres/pg_tx.go:88-90 | the caller's slice is rewritten in place, each name trimmed of its quotes |
| CopyTarget.RepeatedCopy | internal/postgres/pg_tx.go:88-90 | a COPY repeated with the slice it has rewritten names the same columns |
| CopyTarget.RemoveFromQuoted | internal/postgres/pg_utils.go:143-145 | trimming a quoted name gives the name back for exactly the names without NUL and quotes |
| CopyTarget.TrimsQuotes | internal/postgres/pg_utils.go:143-145 | quotes at both ends are taken off, all of them and nothing else |
| CopyTarget.NewIdentifier | internal/postgres/pg_utils.go:121-141 | the one or two parts of the name, trimmed; a name with more dots is an error |
| CopyTarget.PartsOfName | internal/postgres/pg_utils.go:121-132 | one part more than there are dots, and an error exactly for more than one dot |
| CopyTarget.IdentifierRoundTrip | internal/postgres/pg_utils.go:121-145 | a quoted qualified name reaches the COPY as the same schema and table, for exactly the names without NUL, quotes and dots |
| SnapshotRequests.ErrorsOnlyGrow | pkg/snapshot/errors.go:91-131 | adding a global or a table error never makes a failed table look clean, and makes exactly the named table fail |
| SnapshotRequests.ErrorsValueIsGlobal | pkg/snapshot/generator/snapshot_generator_recorder.go:115-124 | exactly an error whose tree of causes holds no pointer to `Errors` or `SchemaErrors` becomes one new global error of every schema; an `Errors` value is no pointer, whatever it says of the schemas |
| SnapshotRequests.PointerDecides | pkg/snapshot/generator/snapshot_generator_recorder.go:115-124 | a pointer to `Errors` gives the entry of the schema, if there is one, and a pointer to `SchemaErrors` is that of every schema; wrapping and later causes change nothing |
| SnapshotRequests.SchemaErrors.AddGlobalError | pkg/snapshot/errors.go:91-97 | the message is appended and nothing else changes; nil is left alone |
| SnapshotRequests.SchemaErrors.AddTableError | pkg/snapshot/errors.go:99-109 | the table's message is set and nothing else changes; a nil object or error is ignored |
| SnapshotRequests.SchemaErrors.GetFailedTables | pkg/snapshot/errors.go:133-142 | the failed tables, each once; none for nil |
| SnapshotRequests.Errors.AddError | pkg/snapshot/errors.go:43-54 | only the schema's entry changes; a plain error makes the schema fail as a whole unless a nil pointer was stored for it, and nothing reaches a nil map |
| SnapshotRequests.Request.MarkInProgress | pkg/snapshot/snapshot.go:69-71 | only the status changes |
| SnapshotRequests.Request.MarkCompleted | pkg/snapshot/snapshot.go:64-67 | completed with the very object found in the error, or a new one; a typed nil pointer behind the error interface records a clean request |
| SnapshotStore.IndexRequests | pkg/snapshot/generator/snapshot_generator_recorder.go:178-183 | the index maps each table to the last of the requests read that names it |
| SnapshotStore.FilterOne | pkg/snapshot/generator/snapshot_generator_recorder.go:187-204 | what one requested table or wildcard contributes, from the most recent request read for it and the most recent one read for the wildcard |
| SnapshotStore.FilterOutExistingSchemaTables | pkg/snapshot/generator/snapshot_generator_recorder.go:168-207 | the contributions of the requested tables in order; everything requested when nothing is read |
| SnapshotStore.FilterOutExistingSnapshots | pkg/snapshot/generator/snapshot_generator_recorder.go:149-166 | the plan has exactly the schemas with something left; it fails iff reading some requested schema does, with that schema and error |
| SnapshotStore.PlanExact | pkg/snapshot/generator/snapshot_generator_recorder.go:149-207 | for concrete tables and no recorded wildcard the plan holds exactly the requested tables for which a read returns no request, or one that failed for them as the most recent |
| SnapshotStore.PlanMember | pkg/snapshot/generator/snapshot_generator_recorder.go:149-207 | what is in the plan in general: exactly what some requested entry yields, a wildcard the tables that failed in the most recent wildcard request read, or itself when there is none or it failed as a whole |
| SnapshotStore.PlanOverRows | pkg/snapshot/generator/snapshot_generator_recorder.go:168-207 | the same told by the rows read alone: a concrete table is planned iff its own last request or the last wildcard request completed with an error of the schema or of the table, or there is neither; a wildcard stands for the tables the last wildcard request failed for, or for itself |
| SnapshotStore.AfterWildcardHere | pkg/snapshot/generator/snapshot_generator_recorder.go:196-204 | a table asked for after a wildcard request that failed as a whole is planned, and after a clean one it is not |
| SnapshotStore.SeenIsLatest | pkg/snapshot/store/postgres/pg_snapshot_store.go:86-105 | up to the read limit the most recent request read is the latest one recorded |
| SnapshotStore.SeenAppend | pkg/snapshot/store/postgres/pg_snapshot_store.go:86-105 | a new request is seen by later runs exactly as long as its schema has not reached the limit |
| SnapshotStore.LimitHidesRequest | pkg/snapshot/store/postgres/pg_snapshot_store.go:86-105 | behind as many older requests as one read returns, a table completed without an error is planned again |
| SnapshotStore.LatestUpdate | pkg/snapshot/generator/snapshot_generator_recorder.go:87-104 | an update in place changes the content of a table's latest request, never which one it is |
| SnapshotRecorder.ShapeKept | pkg/snapshot/generator/snapshot_generator_recorder.go:75-147 | in every interleaving there is one request for each planned schema with that schema's tables, in a state its phase allows, and no pointer leaves the error heap |
| SnapshotGoroutines.CreateRequests | pkg/snapshot/generator/snapshot_generator_recorder.go:75-85 | a new request without status or errors for each schema of the plan, each once and with its tables |
| SnapshotGoroutines.GetErrors | pkg/snapshot/generator/snapshot_generator_recorder.go:115-124 | the pointer found in the error for the schema, nil or not, or a new object with the error's text |
| SnapshotGoroutines.MarkOneInProgress | pkg/snapshot/generator/snapshot_generator_recorder.go:93-100 | the goroutine's body over the request object and the store does what its steps in the state machine do, and returns its own error, of which the group keeps the first |
| SnapshotGoroutines.MarkOneCompleted | pkg/snapshot/generator/snapshot_generator_recorder.go:130-140 | likewise for completion, with the shared error objects: they hold what the heap of the state machine holds, and a typed nil pointer records a clean request |
| SnapshotMarking.HandedInProgress | pkg/snapshot/generator/snapshot_generator_recorder.go:87-104 | when the wrapped generator is called, the latest request for every table it is handed is the run's own, in progress and without errors |
| SnapshotMarking.FailedMarking | pkg/snapshot/generator/snapshot_generator_recorder.go:61-63 | a run that does not get to the generator returns the error of one of its failed store calls |
| SnapshotMarking.RepeatableHandsAll | pkg/snapshot/generator/snapshot_generator_recorder.go:149-153 | a repeatable run hands over everything it is asked for |
| SnapshotSafety.InvKept | pkg/snapshot/generator/snapshot_generator_recorder.go:47-147 | every step of every goroutine keeps the safety invariant: no request about to be created is for a table recorded as clean |
| SnapshotSafety.CleanKept | pkg/snapshot/generator/snapshot_generator_recorder.go:87-147 | a table recorded as clean stays so through every step, failed store calls and crashes included |
| SnapshotSafety.NeverHandedAgain | pkg/snapshot/generator/snapshot_generator_recorder.go:47-68 | over any history and any continuation of it, a table whose most recent request read completed without an error for it is never handed to the wrapped generator again, however many requests follow |
| SnapshotSafety.HandedAgain | pkg/snapshot/generator/snapshot_generator_recorder.go:47-68 | a run hands over exactly the requested tables for which a read returns no request or one that failed for them as the most recent, whatever its goroutines do before |
| SnapshotSafety.NothingLeft | pkg/snapshot/generator/snapshot_generator_recorder.go:49-57 | a run ends at once iff a read returns a request for every requested table and the most recent one has not failed for it, and then returns nil without a call or a request |
| SnapshotSafety.NeverRetried | pkg/snapshot/generator/snapshot_generator_recorder.go:47-68 | a table whose most recent request a crash or a failed update left open is never handed over by any later run, and its request never completes |
| SnapshotSafety.OnlyOpenIsNothing | pkg/snapshot/generator/snapshot_generator_recorder.go:49-57 | a run that asks only for such tables does nothing and returns nil |
| SnapshotCompletion.RunInvKept | pkg/snapshot/generator/snapshot_generator_recorder.go:87-147 | every step keeps the link between store, requests, shared error objects and the first error |
| SnapshotCompletion.CompletedRun | pkg/snapshot/generator/snapshot_generator_recorder.go:59-147 | for every interleaving: all requests end Completed; nil is returned iff the generator and every final update succeeded, and otherwise the generator's error when there is one; if every update succeeded, a table is recorded clean iff the generator did not report it |
| SnapshotCompletion.DoneForGood | pkg/snapshot/generator/snapshot_generator_recorder.go:47-147 | a table not reported by a run whose updates all succeeded is never handed over by any later run, if a read still returns all requests of its schema after that run |
| SnapshotFailures.FailedUpdateIsNoted | pkg/snapshot/generator/snapshot_generator_recorder.go:130-140 | a final update that fails beside the generator's error adds an error to the object reported for the schema, and nothing reported is lost |
| SnapshotWildcards.AfterWildcardRun | pkg/snapshot/generator/snapshot_generator_recorder.go:47-147 | after a wildcard run the next run for a concrete table hands it over iff the wildcard run reported the table or its schema as failed, or the table's own last request failed |
| SnapshotWildcards.WholeOrNothing | pkg/snapshot/generator/snapshot_generator_recorder.go:115-124 | a generator that failed as a whole reports every table, one that did not fail none |
| SnapshotWildcards.CoveredForEver | pkg/snapshot/generator/snapshot_generator_recorder.go:47-147 | once the last wildcard request read is clean and the table's own has not failed, no later run hands over the table or the wildcard, whatever is asked for, wildcards included |
| SnapshotWildcards.FailedWildcardRepeats | pkg/snapshot/generator/snapshot_generator_recorder.go:187-204 | a table that the last wildcard request failed for is handed over by every run that asks for it, whatever it has recorded since, until a wildcard is asked for |
| SnapshotCompletion.WorkShrinks | pkg/snapshot/generator/snapshot_generator_recorder.go:92-141 | every goroutine step leaves fewer to come, so each phase ends |
| SnapshotCompletion.Progress | pkg/snapshot/generator/snapshot_generator_recorder.go:59-67 | a run that has not returned always has a step to take |
| SnapshotLimit.FullForEver | pkg/snapshot/store/postgres/pg_snapshot_store.go:86-105 | once a read of a schema is full and all it returns has completed, reads of that schema never change, whatever runs do and however they end |
| SnapshotLimit.SettledForEver | pkg/snapshot/generator/snapshot_generator_recorder.go:168-207 | from then on every run hands over the same of the requested tables of that schema, also those that have completed without an error since |
| SchemaDiff.GetObjectsByType | pkg/wal/wal_ddl.go:88-96 | the objects of the type in their order |
| SchemaDiff.ObjectsOfType | pkg/wal/wal_ddl.go:88-96 | exactly the objects of the type, each as often as it occurs and in the order of the event |
| SchemaDiff.GetName | pkg/wal/wal_ddl.go:142-151 | the part behind the last dot, or everything |
| SchemaDiff.LastPartUnique | pkg/wal/wal_ddl.go:142-151 | that part is the only dot-free suffix that starts the identity or follows a dot |
| SchemaDiff.TableOfIdentity | pkg/wal/wal_ddl.go:124-137 | the table of `schema.table` and of `schema.table.column` is the table, that of a bare name the name |
| SchemaDiff.TableOfLongIdentity | pkg/wal/wal_ddl.go:124-137 | with more dots it is what follows the last |
| SchemaDiff.ColumnHasName | pkg/wal/wal_ddl.go:153-160 | a column is found iff one has the name, and it is one that has |
| SchemaDiff.ColumnIDParts | pkg/wal/wal_ddl.go:162-165 | the id is the table's, a dash, and a number that reads back as the column's own |
| SchemaDiff.DdlEventToTableDiff | pkg/wal/wal_schema_diff.go:82-165 | the diffs of the table objects and then of the column objects, without the empty ones |
| SchemaDiff.AlteredMember | pkg/wal/wal_schema_diff.go:85 | the objects looked at are exactly the tables and the table columns |
| SchemaDiff.TablesFirst | pkg/wal/wal_schema_diff.go:85 | tables come before columns |
| SchemaDiff.DiffsInOrder | pkg/wal/wal_schema_diff.go:82-165 | the diffs keep the order of their objects |
| SchemaDiff.DiffNamesTable | pkg/wal/wal_schema_diff.go:86-89 | every diff is filed under the name and the id of the table of one of them |
| SchemaDiff.DDLEventToSchemaDiff | pkg/wal/wal_schema_diff.go:59-80 | which parts of the diff each command tag fills, and with what; an absent event gives an empty diff |
| RenameColumn.ExtractsNames | pkg/wal/wal_schema_diff.go:212-231 | the leftmost match of the pattern gives exactly the two names, whatever the three names are |
| RenameColumn.ExtractsNoTable | pkg/wal/wal_schema_diff.go:233-246 | with an old name ending in "rename" the table pattern matches nowhere in the statement |
| RenameColumn.PhrasesSeen | pkg/wal/wal_schema_diff.go:93-157 | which phrases of the switch the statement contains: `rename to` iff the old name ends in "rename", and none before it |
| RenameColumn.RenameDiff | pkg/wal/wal_schema_diff.go:82-165 | exactly one table diff with exactly that rename and the id from table id and attnum, iff the old name does not end in "rename" in any case; otherwise nothing |
| RenameColumn.RenameFiled | pkg/wal/wal_schema_diff.go:142-152 | for an object named `schema.table` or `schema.table.column` the rename is filed under that table, with a column id that reads back as the column's number |
| RenameColumn.RenameLostHere | pkg/wal/wal_schema_diff.go:103-111 | one concrete statement whose column rename leaves no diff at all |
| RenameGaps.GapDiff | pkg/wal/wal_schema_diff.go:82-165 | with any white space between RENAME and COLUMN the rename is recorded iff it is a single space and the old name does not end in "rename" |
| QuotedNames.ExtractsQuoted | pkg/wal/wal_schema_diff.go:167-210 | of a name in quotes the extractors take exactly what stands up to the next quote, spaces and keywords included |
| QuotedNames.QuotedColumnDiff | pkg/wal/wal_schema_diff.go:93-140 | a quoted column is recorded under the conditions of a plain one |
| QuotedNames.QuotedRenameDiff | pkg/wal/wal_schema_diff.go:142-152 | with either name in quotes the rename is recorded; with the old one in quotes, whatever it ends in |
| Patterns.FindPhrase | pkg/wal/wal_schema_diff.go:167-246 | a pattern that starts with two keywords is found at the first place where they stand as neighbouring words, with the groups it sets there |
| AlterTable.ExtractsColumn | pkg/wal/wal_schema_diff.go:167-210 | the extractors of added, altered and dropped columns take exactly the column's name, behind IF NOT EXISTS or IF EXISTS if that is there, and whatever follows it |
| AlterTable.AddColumnDiff | pkg/wal/wal_schema_diff.go:93-120 | an added column is among the recorded changes exactly if the statement neither adds a primary key constraint nor contains `rename to`, and then it is the only change |
| AlterTable.AlterColumnDiff | pkg/wal/wal_schema_diff.go:93-133 | a changed column is recorded with its new type exactly if the statement does none of that and adds no column, and then it is the only change |
| AlterTable.DropColumnDiff | pkg/wal/wal_schema_diff.go:93-140 | a dropped column is recorded exactly if the statement also alters no column, and then it is the only change |
| AlterTable.DroppedAlone | pkg/wal/wal_schema_diff.go:135-140 | a column dropped by a statement that says nothing else, with IF EXISTS or without, is always recorded, whatever the names |
| AlterTable.KeyHidesColumn | pkg/wal/wal_schema_diff.go:93-120 | a column added together with a primary key constraint is never recorded; only the key is |
| AlterTable.KeyHidesColumnHere | pkg/wal/wal_schema_diff.go:93-120 | so it is with one concrete statement |
| AlterTable.PrimaryKeyDiff | pkg/wal/wal_schema_diff.go:93-101 | an added primary key is recorded whatever follows, unless the table has none by then |
| AlterTable.ExtractsTable | pkg/wal/wal_schema_diff.go:233-246 | the old table name is the name in the statement without a schema of word characters in front of it, for every plain name, also one that ends in a dot |
| AlterTable.RenameTableDiff | pkg/wal/wal_schema_diff.go:103-111 | a renamed table is always recorded, with IF EXISTS or without, with that old name and the object's new one |
| AlterTable.RenameTableFiled | pkg/wal/wal_schema_diff.go:103-111 | for an object named `schema.table` the new name recorded is that table |
| Regex.MatchesSpan | pkg/wal/wal_schema_diff.go:167-233 | every match the backtracking matcher lists is one the pattern allows |
| Regex.SpanMatches | pkg/wal/wal_schema_diff.go:167-233 | and it lists a match for every end that the pattern allows |
| Regex.CharClasses | pkg/wal/wal_schema_diff.go:167-233 | the characters of the classes `\s`, `\S` and `\w` |
| Utf8.DecodeEncode | pkg/transformers/email_transformer.go:29-37 | the rune reader reads back every encoded scalar value, whatever follows |
| Utf8.EncodeDecode | pkg/transformers/email_transformer.go:29-37 | what it takes as more than a stray byte is exactly the encoding of what it reports |
| Utf8.StrayByte | pkg/transformers/email_transformer.go:29-37 | a byte that starts no encoded scalar value is read alone, as the replacement rune |
| EmailScramble.ReadRune | pkg/transformers/email_transformer.go:29-37 | as long as the bytes from the read position on are the original ones, the rune read there is the original one |
| EmailScramble.OverwriteRune | pkg/transformers/email_transformer.go:32-45 | one rune read and one byte written at or before it: rune `i` of the original, at the position where it starts, gives byte `i`, and no other byte changes |
| Utf8.StartsLater | pkg/transformers/email_transformer.go:29-37 | the positions where the runes start, one after the other, are those where the reader stands |
| EmailScramble.OverwriteRunes | pkg/transformers/email_transformer.go:32-45 | the writer never overtakes the reader: the first n bytes are the mapped original runes, n their number, and no other byte changes |
| EmailScramble.ScrambleBytes | pkg/transformers/email_transformer.go:19-47 | scrambling in place equals scrambling out of place, and bytes behind the slice stay |
| EmailScramble.ScrambleOneEmail | pkg/transformers/email_transformer.go:49-70 | the excluded domain keeps the address; otherwise mailbox (or salt) and domain scrambled, then the replacement domain, in a buffer of exactly that length |
| EmailScramble.AddressIsHidden | pkg/transformers/email_transformer.go:49-70 | an address that is not excluded ends in the replacement domain, and before it as many bytes as the address has runes are of the output alphabet: all of them when it is ASCII; only an address that is itself in braces keeps its braces, commas, single quotes and backslashes |
| EmailScramble.DigestDecides | pkg/transformers/email_transformer.go:38-41 | the byte in a place depends on the digest by one of its bytes alone, the place modulo 32, and every character of the alphabet comes out for some hash |
| EmailScramble.NeighboursDiffer | pkg/transformers/email_transformer.go:38-41 | two digest bytes, or two runes, whose sums do not wrap around and are less than 62 apart give different characters |
| EmailScramble.SaltMatters | pkg/transformers/email_transformer.go:24-27 | for any two salts some hash scrambles the same text differently |
| EmailScramble.AlphabetOrder | pkg/transformers/email_transformer.go:15 | digits, small letters and capitals in their order |
| EmailScramble.OnlyInBraces | pkg/transformers/email_transformer.go:38-44 | in a text not in braces every rune becomes a character of the alphabet |
| EmailScramble.StaysInBraces | pkg/transformers/email_transformer.go:38-44 | in an ASCII text in braces exactly the five kept characters stay |
| EmailScramble.ExcludedStays | pkg/transformers/email_transformer.go:49-60 | an address of the excluded domain is returned as it is |
| EmailScramble.ScrambledHere | pkg/transformers/email_transformer.go:49-70 | one concrete address and digest, with the result |
| EmailScramble.NoList | pkg/transformers/email_transformer.go:72-79 | one byte or none stays, and a value without a brace at either end is one address |
| EmailScramble.ScrambleEmail | pkg/transformers/email_transformer.go:72-92 | each element of a list scrambled on its own between the braces, any other value as one address |
| EmailScramble.FillList | pkg/transformers/email_transformer.go:87-91 | a buffer of the computed length is filled to its last byte by brace, list and brace |
| EmailScramble.JoinLength | pkg/transformers/email_transformer.go:82-90 | the length computed up front is the exact length of the joined list |
| EmailScramble.ListKeepsShape | pkg/transformers/email_transformer.go:80-91 | with comma-free salt and replacement domain the output splits into the same number of elements in the same order, each the scrambled original; one brace is enough to make a list |
| Percentile.ExchangeRound | internal/math/math.go:66-72 | one round brings the least of the rest to its place and loses no value |
| Percentile.ExchangeSort | internal/math/math.go:66-72 | the array becomes a sorted permutation of itself |
| Percentile.Percentile | internal/math/math.go:56-86 | the result is the interpolation over any sorting of the values, the input is untouched, and no values give 0 |
| Percentile.SortingUnique | internal/math/math.go:61-72 | two sorted sequences with the same values are equal, so the result depends on the multiset alone |
| Percentile.WithinRange | internal/math/math.go:74-85 | the result lies between minimum and maximum and equals them at 0 and at 1 |
| Percentile.Monotone | internal/math/math.go:74-85 | greater percentiles never give smaller results, within a segment and across segments |
| Percentile.AtNode | internal/math/math.go:74-85 | at k / (n - 1) the result is value k |
| Percentile.MixOnSegment | internal/math/math.go:74-85 | between two neighbouring values the result is linear: at a mix of two percentiles it is the same mix of their results |
| Percentile.AtMidpoint | internal/math/math.go:74-85 | half-way between two values it is their mean |
| Percentile.UnitResult | internal/math/math.go:74-85 | scaling and shifting all values does the same to the result |
| Percentile.UnitSorting | internal/math/math.go:61-72 | and with a factor that is not negative it keeps them sorted |
| Percentile.MedianHere | internal/math/math.go:74-85 | the median of 1 and 2 is 1.5 |
| Hstore.HstoreValue.SetValue | pkg/transformers/hstore_transformer_operation.go:59-73 | the holder has the key's existence and value, nothing of the key before |
| Hstore.Apply | pkg/transformers/hstore_transformer_operation.go:25-51 | sets or deletes the one entry; what earlier operations left in the buffer plays no part, and a failed template changes no entry |
| Hstore.TransformLoop | pkg/transformers/hstore_transformer.go:94-110 | the loop with its shared holder and buffer refines running the operations one after another on the entries |
| Hstore.KeysAreIndependent | pkg/transformers/hstore_transformer.go:94-110 | the list completes iff each key's own operations do, and then each key ends as those operations alone would leave it |
| Hstore.UnnamedKeysStay | pkg/transformers/hstore_transformer.go:94-110 | keys that no operation names keep their entry, even when the list fails |
| Hstore.LastDelete | pkg/transformers/hstore_transformer_operation.go:44-45 | after a list that ends with a delete the key is gone and all else is as before it |
| Hstore.LastSet | pkg/transformers/hstore_transformer_operation.go:27-42 | after a list that ends with a set the key holds its value, or what its template made of the entry before it, with NULL for a missing value |
| Hstore.MissingKey | pkg/transformers/hstore_transformer.go:96-104 | at a missing key skipping goes before reporting |
| Hstore.FailsHere | pkg/transformers/hstore_transformer_operation.go:25-51 | otherwise an operation fails exactly if it is unknown or its template fails |
| Masking.GetIntegerInRange | pkg/transformers/masking_transformer.go:247-255 | the result is in the range, and is the value itself if that is |
| Masking.GetCustomMaskingFn | pkg/transformers/masking_transformer.go:169-220 | which of the four parameters give the bounds and the mode, and which combinations and texts are refused |
| Masking.Mask | pkg/transformers/masking_transformer.go:221-244 | cutting and repeating gives, position by position, a star where the configuration hides and the original byte elsewhere, with all indices in range |
| Masking.MaskIdempotent | pkg/transformers/masking_transformer.go:221-244 | masking twice is masking once |
| Masking.BoundsCommute | pkg/transformers/masking_transformer.go:236-238 | swapping the bounds changes no result |
| Masking.MaskUnmaskComplement | pkg/transformers/masking_transformer.go:191-244 | equal bounds for mask and unmask are accepted alike and hide exactly complementary positions of every value |
| Masking.DefaultHidesAll | pkg/transformers/masking_transformer.go:191-244 | without bounds every byte is hidden |
| Masking.MaskedPositions | pkg/transformers/masking_transformer.go:169-244 | with positions for bounds exactly the bytes from the first up to the second are hidden, from the start or to the end where one is missing |
| Masking.MaskedPercentages | pkg/transformers/masking_transformer.go:169-244 | with percentages exactly the bytes that lie wholly before the second bound and not wholly before the first |
| Masking.PercentRounds | pkg/transformers/masking_transformer.go:225-234 | a percentage of the length is rounded down |
| Masking.Refused | pkg/transformers/masking_transformer.go:169-220 | a configuration is refused iff it has bounds of both kinds or one that cannot be read |
| PgErrors.RetriedCodes | internal/postgres/retrier/pg_querier_retrier.go:154-179 | a Postgres error, however often wrapped, is retried exactly if its SQLSTATE code is in none of the listed classes and codes |
| PgErrors.OtherErrors | internal/postgres/retrier/pg_querier_retrier.go:154-179 | every other error is retried iff it holds no cancellation and no final kind; finding no rows hides final kinds beside it, a timeout hides a Postgres error |
| PgErrors.DecisionsHere | internal/postgres/retrier/pg_querier_retrier.go:154-179 | lost connections, timeouts, missing rows and three of the kinds are retried, cancellations are not |
| PgErrors.KindsOfCodes | internal/postgres/errors.go:118-199 | which SQLSTATE codes and classes give each kind, and that none gives two |
| PgErrors.MapsToKind | internal/postgres/errors.go:118-199 | a Postgres error, however often wrapped, is mapped to the kind of its code with its message |
| PgErrors.MapsFirst | internal/postgres/errors.go:108-202 | the first of several Postgres errors counts; a timeout stays beside its error; no rows replaces everything |
| PgErrors.MappingKeepsDecision | internal/postgres/retrier/pg_querier_retrier.go:154-179 | the retry decision is the same for an already mapped error, exactly when the mapping did not lose a cancellation |
| PgErrors.SingleCauseKeepsDecision | internal/postgres/errors.go:108-202 | for an error with a single chain of causes it is always the same |
| PgErrors.TwoCausesMayChangeIt | internal/postgres/errors.go:109-115 | a cancelled query that found no rows becomes retriable by being mapped |
| Retrier.TraceOfCall | internal/postgres/retrier/pg_querier_retrier.go:107-140 | no run after a success or an error that is not retried; a reset attempted between any two runs from the second on; nil iff the last run succeeded; at most MaxRetries + 2 runs when it is set |
| Retrier.NoPolicyRunsTwice | pkg/backoff/backoff.go:51-66 | without a policy a failed retriable operation runs exactly twice |
| Retrier.SucceedsWhenAllowed | internal/postgres/retrier/pg_querier_retrier.go:107-140 | transient failures are retried as long as the policy allows: a success within it ends the call with nil, after exactly the runs it took |
| Retrier.GivesUpAtTheEnd | internal/postgres/retrier/pg_querier_retrier.go:107-140 | if all attempts fail so, all the allowed runs are made and the last failure is returned |
| Retrier.ReturnsLastFailure | internal/postgres/retrier/pg_querier_retrier.go:107-140 | then the result is the failure to build a connection, if there was one, or else the operation's error |
| Retrier.ReturnsCause | internal/postgres/retrier/pg_querier_retrier.go:107-140 | after an error that is not retried the call returns that error or wraps it |
| Retrier.ContextEnds | internal/postgres/retrier/pg_querier_retrier.go:107-140 | a context that is done ends the call with its own error |
| Retrier.ConfiguredRuns | pkg/backoff/backoff.go:51-66 | the constant policy goes before the exponential one, and an operation that keeps failing runs MaxRetries + 2 times |
| Retrier.NewQuerier | internal/postgres/retrier/pg_querier_retrier.go:25-37 | a querier owns the one connection built, and there is none without it |
| Retrier.Querier.ResetConn | internal/postgres/retrier/pg_querier_retrier.go:142-152 | a failed build keeps the open connection; otherwise the old one is closed once and the new one owned |
| Retrier.Querier.RetryOnce | internal/postgres/retrier/pg_querier_retrier.go:115-130 | one attempt: what it ran and reset, what it returns, and that one open connection is owned in every case |
| Retrier.Querier.WithRetry | internal/postgres/retrier/pg_querier_retrier.go:107-140 | the loop performs exactly the events of the call's trace and returns its result, owning one open connection throughout |
| Retrier.Querier.Close | internal/postgres/retrier/pg_querier_retrier.go:103-105 | closes the current connection once |
| Retrier.CallAll | internal/postgres/retrier/pg_querier_retrier.go:107-152 | after any sequence of calls meeting any failures exactly one connection ever built is open, it is the current one, and each other was closed exactly once |
| PgRestore.PGRestoreErrors.AddError | internal/postgres/pg_restore.go:230-248 | the entry goes to the end of its class and to no other |
| PgRestore.CollectErrors | internal/postgres/pg_restore.go:132-153 | the loop with its pending error collects the entries of the lines, each class in their order |
| PgRestore.ParsePgRestoreOutputErrs | internal/postgres/pg_restore.go:127-160 | nil iff no line read is an error line, otherwise all their entries |
| PgRestore.BuildRestoreError | internal/postgres/pg_restore.go:102-113 | parsed errors before the command's own, and nil when neither exists |
| PgRestore.OneEntryPerErrorLine | internal/postgres/pg_restore.go:135-195 | each error line gives exactly one entry, in order, of a class that depends on that line alone |
| PgRestore.ClassesInOrder | internal/postgres/pg_restore.go:127-160 | each class reports its own error lines in output order, whatever DETAIL lines follow |
| PgRestore.EntriesOfLines | internal/postgres/pg_restore.go:168-195 | exactly the lines with one of the three marks give an entry, ignored iff the line has one of the six phrases |
| PgRestore.DetailsKept | internal/postgres/pg_restore.go:135-153 | no DETAIL line behind the first error is lost or doubled |
| PgRestore.DetailsFollow | internal/postgres/pg_restore.go:135-153 | each error gets the DETAIL lines between it and the next |
| PgRestore.LinesPrinted | internal/postgres/pg_restore.go:133-135 | printed lines are read back, with either line end, up to the first that is too long |
| PgRestore.ErrorLinesFirst | internal/postgres/pg_restore.go:102-113 | error lines go before the command's own error, which counts without one |
| PgRestore.SelectPartitions | internal/postgres/pg_restore.go:230-248 | splitting into ignored and critical loses, adds and mixes no entry |
| PgRestore.NilIffClean | internal/postgres/pg_restore.go:102-113 | when every line fits the scanner: nil iff the command did not fail and its output does not contain ERROR |
| PgRestore.ErrorPassedOver | internal/postgres/pg_restore.go:102-113 | in general an ERROR is passed over exactly when the command did not fail and no line before the first overlong one is an error line |
| PgRestore.OverlongLineHidesError | internal/postgres/pg_restore.go:133-135 | a concrete output whose ERROR is passed over |
| Identifiers.QuoteRoundTrip | internal/postgres/pg_utils.go:71-93 | unquoting inverts quoting for exactly the non-empty, NUL-free names that are not already quoted |
| Identifiers.QuoteIdempotent | internal/postgres/pg_utils.go:65-76 | quoting twice is quoting once, exactly when the name is quoted or has something to quote |
| Identifiers.PlainText | internal/postgres/pg_utils.go:65-76 | a name without quotes gets one at either end |
| Identifiers.QuotedText | internal/postgres/pg_utils.go:65-93 | a quote within a name is written twice and read back once |
| Identifiers.SplitQualifiedRoundTrip | pkg/stream/stream_status_checker.go:522-532 | splitting a quoted qualified name gives the pair back for exactly the bare names without dots; a dot in a bare name is an error, never another pair |
| Identifiers.AppendEverything | pkg/stream/stream_status_checker.go:471-483 | the nested loops append every discovered table, or stop at the first schema that cannot be read |
| Identifiers.ExpandInto | pkg/stream/stream_status_checker.go:470-517 | what one requested name expands to |
| Identifiers.ExpandQualifiedTableNames | pkg/stream/stream_status_checker.go:467-520 | the expansions of all names in order, or the first error |
| Identifiers.ExpandForms | pkg/stream/stream_status_checker.go:470-532 | a bare name is one of the public schema, a wildcard schema stands for everything, a wildcard table for its schema |
| Identifiers.TooManyDots | pkg/stream/stream_status_checker.go:522-532 | a name with more than one dot is an error |
| Identifiers.WildcardResolves | pkg/stream/stream_status_checker.go:467-532 | a wildcard lists every discovered table, and every entry later resolves to the table it came from or is reported, never to another |
| Identifiers.ExpandTwice | pkg/stream/stream_status_checker.go:467-520 | expanding what the wildcard expanded to changes nothing, exactly when no discovered name has a dot; otherwise the second expansion is an error (no discovered name being itself a wildcard) |
| Identifiers.SchemaWildcard | pkg/stream/stream_status_checker.go:507-514 | a table wildcard behind a quoted schema lists exactly that schema's tables |
| ConnectionUrl.UnescapeEscape | internal/postgres/pg_utils.go:335-336 | percent-decoding an escaped password gives it back, with plus signs for spaces |
| ConnectionUrl.EscapedAsOne | internal/postgres/pg_utils.go:335-336 | which characters are written as one |
| ConnectionUrl.UnreservedStays | internal/postgres/pg_utils.go:335-336 | exactly the passwords of unreserved characters come out as they are |
| ConnectionUrl.RefusedUrl | internal/postgres/pg_utils.go:298-325 | refused iff user or host part is empty, the user name is, or the host part breaks the line; unchanged without a password |
| ConnectionUrl.OtherUrl | internal/postgres/pg_utils.go:298-308 | without an at sign refused, with another scheme unchanged |
| ConnectionUrl.EscapeIsFaithful | internal/postgres/pg_utils.go:298-339 | scheme, user and host part are unchanged and the emitted password decodes to the decoded input (the raw one when malformed), exactly when that has no space |
| ConnectionUrl.EscapeTwice | internal/postgres/pg_utils.go:327-338 | escaping twice equals escaping once, exactly when the decoded password has no space |
| ConnectionUrl.SpaceIsLostHere | internal/postgres/pg_utils.go:327-338 | one concrete URL whose password changes again when it is escaped a second time |
| SchemaTableMap.NewSchemaTableMap | internal/postgres/schema_table_map.go:20-33 | the patterns of the names, or nothing if any name has more than one dot |
| SchemaTableMap.BuiltFromOne | internal/postgres/schema_table_map.go:77-87 | built from `s.t` the map covers exactly what the schema `s` and the table `t` allow, from a bare `t` those of the public schema |
| SchemaTableMap.RefusedName | internal/postgres/schema_table_map.go:77-87 | a name is refused exactly for more than one dot |
| SchemaTableMap.SchemaTableMap.Add | internal/postgres/schema_table_map.go:64-75 | adds exactly the pattern of the name, or nothing if it is malformed |
| SchemaTableMap.SchemaTableMap.GetSchemaTables | internal/postgres/schema_table_map.go:50-62 | the tables added for the schema or for the wildcard schema; the entries it copies change no pattern |
| SchemaTableMap.SchemaTableMap.ContainsSchemaTable | internal/postgres/schema_table_map.go:35-48 | true iff some added pattern has the schema or `*` and the table or `*` |
| SchemaTableMap.Replay | internal/postgres/schema_table_map.go:20-75 | after any history of adds and lookups each answer depends on the added patterns alone |
| KafkaOffset.RoundTrip | pkg/kafka/kafka_offset_parser.go:40-64 | reading back a written offset gives it, negative numbers included, for exactly the slash-free topics; others are refused |
| KafkaOffset.Accepted | pkg/kafka/kafka_offset_parser.go:44-64 | only texts with exactly two separators are read, and what was read writes and reads back to itself |
| Decimal.AtoiFormat | pkg/kafka/kafka_offset_parser.go:41-54 | every 64-bit integer reads back from its decimal text |
| Decimal.AtoiLimits | pkg/kafka/kafka_offset_parser.go:41-54 | a plus sign is read, and numbers beyond 64 bits are refused |

## Left out

- Type encoding: `tm.Encode` is a parameter of the COPY writer; preparing the target and `estimateCopyTextSize` are not modelled.
- Numeric escapes and other input the COPY writer never produces are read by the model's reader, but nothing is claimed about them.
- Recorder: goroutines take turns as steps of a value; their bodies over real objects are proved one at a time, and the worker limit and context cancellation only restrict the interleavings and failures the model allows.
- The store is the list of its requests: its unique index shows as a failing call.
- Runs that ask for a wildcard again after one that failed: the plan of each is exact, but nothing is claimed over several of them.
- `NewErrors`, the texts of errors, and `GetSchemas` and `GetTables` of a snapshot.
- DDL: the model's patterns match any white space and table names in quotes too, but the theorems are about single spaces, except between RENAME and COLUMN, and about plain table names; `ToLower` and the `(?i)` flag beyond ASCII; diff fields the code never sets.
- Scrambling: SHA-256 is a function to 32 bytes.
- Percentile: floats are reals; `Average`, `StandardDeviation`, `Median` and `CoefficientOfVariation` follow their formulas and are left out, as is a percentile so far below 0 that the index is out of range.
- Hstore: parsing and printing, parameter parsing and the nil map; templates are functions of the key's value and the dynamic values that may fail after partial output.
- Masking: the library's masks for known kinds of values, and overflow of length times percentage.
- Retrier: waiting times, notification and logging; the backoff library is its schedule.
- pg_restore: running the command and the text of the joined errors.
- Identifiers: callers of the expansion and the queries that discover tables, whose answers are a parameter.
- Connection URLs: everything but the escaping of the password.
- SchemaTableMap.SchemaTableMap.GetSchemaTables: callers that change the map it returns are not modelled.
- Kafka reader and writer, search clients, migrations, command line and configuration.
