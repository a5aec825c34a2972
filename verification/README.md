# Verification of the ferrodb change feed

ferrodb publishes committed row changes as a feed of JSON lines, and an independent consumer lands
that feed in SQLite or DuckDB. Delivery is at least once: the consumer can be killed anywhere and is
restarted from the first line. This project models that pipeline and proves what it promises.

- `FeedStream`, `FeedServer`, `FeedContents`, `FeedWorkload`: decoding a log of interleaved transactions,
  the pump with its read cursor, delivery position and byte window, reconnecting, the shutdown of the serving
  loop, what a consumer is sent, and the logs of serial statements that its writer makes.
- `Policy`, `PublicationParser`, `PublicationText`, `PolicedLines`: the publication allowlist, the token walk
  that polices a raw line, the declaration parser, what a declaration's text means, and the whole of it on a
  line.
- `Destination`, `DuckSpec`, `DuckSinks`, `SqliteSpec`, `SqliteSinks`: the destination as its SQL
  statements see it, and the two sinks with their in-memory caches.
- `RowWrites`, `SchemaChanges`, `SqliteShapes`: what one event leaves in a destination, cell by cell.
- `Replay`, `CursorPath`, `Evolution`, `Drops`, `Lineage`, `Reconcile`, `ApplyTotals`: whole runs of the
  DuckDB sink, with kills, restarts, re-delivery, schema changes, drops and retractions, and what a run reports.
- `SqliteReplay`, `SqliteConvergence`, `SqliteRestarts`, `SqliteLineage`: whole runs of the SQLite sink,
  whose restarts forget its cache.
- `TableFold`, `Refinement`, `RetypedRefinement`, `SqliteRefinement`: the plain materialised table, and when each sink shows
  exactly it.
- `ExactFloats`, `Escapes`: exact decimal printing and the two escapers.

Each SQL statement is one atomic step with its stated meaning. `DuckSpec` says what an event does to
the database as a list of the states after each statement, so a killed run is a prefix; `DuckSinks`
is the same sink with its caches, proved to produce exactly those states, so the caches do not show.
In the SQLite sink they do: `SqliteSpec` is about a process, a database and a column cache, and a kill
leaves the database alone. The functions there are specifications and have no rows of their own.

## What turned out false

For each, the lemma that shows the failure and the exact condition under which the code does meet the
property.

- Restarting the SQLite sink does not always converge. `SqliteConvergence.RestartLosesAddedColumn`: after
  an `ADD_COLUMN` the restart takes its columns from the first declaration and lands later rows without
  the new one. `RestartSeesWiderRow`: with rows alone, a second row with one column more is cut down by
  one run and, after a kill, widens the table or stops the restart. `RestartMovesKey`: a retype that leaves
  out the key column and names the flag's, killed before its position is recorded, leaves the run's table
  with no primary key and the restart's keyed by the flag. `SqliteReplay.RestartGoesOnIff` is the condition,
  `SqliteRestarts.ToldRestart` one on the feed, and `SqliteConvergence.UniformConvergence` the feeds that
  always meet it.
- The SQLite sink does not always show the materialised table. `SqliteRefinement.ShrunkKeepsColumn`: a table
  declared again with a column fewer is accepted, and an update then leaves the old value in the column that
  the table no longer has. `SinkRefinesFoldIff` is the condition: each declaration extends the columns in
  force. The DuckDB sink refuses such a declaration.
- Replaying a feed with a schema change, which `cdc-consumer/schema_evolution_test.go:356-375` expects to
  be a no-op of the SQLite sink, is refused by the DuckDB one: the column-level change is skipped, and the
  declaration before it meets the changed table (`Evolution.ReplayAfterGrowthIsRefused`).
  `Evolution.RedeliveryIsNoOpIff` is the condition, and `EvolvingConvergence` what it gives.
- A retype of the key column that is the first a DuckDB destination hears of a table makes the table; killed
  before its position is recorded, it is refused for ever (`Evolution.RetypeStrandsItself`).
  `EveryStepResumesIff` says that this is the only event that does not resume.
- Restarting over a `DROP_TABLE` loses rows: the drop keeps the table's cursor, so the second run drops it
  again and skips what was streamed since (`Drops.ReplayAfterDropLosesTheRow`). `Drops.RowsAreLostIff` and
  `CompletedIsNoOpIff` are the conditions, and `SqliteRestarts.RowsAreLostIff` the first for SQLite.
- A refused event is not always replayed. `FeedStream.RefusedRowIsLost`: when the refused transaction
  interleaves with one that commits before it, the cursor lands past the refused change.
  `RefusalIsRecoverableIff` is the condition, on the log that was read.
- Reconnecting where the last commit received ended does not always send the rest.
  `FeedStream.ReconnectLosesRow`: a change written before that commit, of a transaction that commits after
  it, is never sent. `ReconnectServesTheRestIff` is the condition.
- A clean close of the serving loop does not mean everything was sent. `FeedServer.CleanCloseCanLoseRows`:
  at every window size it takes an excluded backlog, or a transaction as long as the window, for having
  caught up. `CleanCloseIff` is the condition, on the log, policy and window; `FeedWorkload.SerialIsServedIff`
  says what it comes to for serial statements over one table. The program's own log meets it when a window is
  longer than five records (`WorkloadIsServed`).
- The index of the materialised table breaks when a column is renamed onto the key column and a row's value
  there prints differently (`TableFold.RenameOntoKeyBreaksIndex`); `IndexStep` says exactly then.
- No column-level schema event passes a publication (`Policy.ColumnChangesAreRefused`). The comment at
  `cdc-consumer/publication.go:399-408` expects `alter` at the top level of a line; the feed carries
  it inside `after`, and the model follows the code.

## Model

| member | source | states |
|---|---|---|
| Destination.History | cdc-consumer/sink.go:770-799 | after any writes, retractions and schema changes from an empty table, a key holds the winner's row: no write for it is above, the first of equal stamps stands, cells carried through later schema changes, retracted exactly when its version was retracted after it was installed |
| Destination.WinnerExists | cdc-consumer/sink.go:781-785 | every key ever written has such a winner |
| Destination.RowIffWritten | cdc-consumer/sink.go:781-785 | a row is held exactly for the keys some statement wrote |
| Destination.LastWriterWins | cdc-consumer/sink.go:32-43 | any reordering and duplication of the same writes leaves the same rows when stamps identify writes per key |
| Destination.SchemaChangesKeepOrdering | cdc-consumer/sink.go:438-582 | leaving out every schema change, a rebuild to another shape and key included, changes no stamp, tombstone, writer or mark and no later accept-or-reject decision |
| Destination.StampsNeverDecrease | cdc-consumer/sink.go:781-785 | over any statements a row never disappears and its stamp never decreases |
| Destination.NoResurrection | cdc-consumer/sink.go:40-43 | a tombstoned key stays tombstoned at its stamp until a write for it at a strictly greater one |
| Destination.RetractionCommutes | cdc-consumer/retract.go:216-231 | retracting a version commutes with a write by any other version or by nobody |
| Replay.CrashConvergence | cdc-consumer/sink_duckdb.go:9-21 | any number of DuckDB runs killed after any statement, then a complete one, end in the database and result of one uninterrupted run, for row events in any order and unchanged declarations |
| Replay.Restart | cdc-consumer/main.go:892-926 | restarting from any state inside a run, with any part already taken in re-delivered first, reaches the same outcome |
| Replay.StepResumes | cdc-consumer/main.go:945-962 | a row event or declaration killed between two of its statements, the write and the cursor included, resumes to the same end |
| Replay.StepIsLater | cdc-consumer/sink_duckdb.go:765-776 | no state inside a row event or declaration loses a table or row, lowers a stamp or moves a cursor back |
| Replay.LandSettles | cdc-consumer/main.go:192-196 | a landed row event or declaration is settled: its key holds a row at least as new, or its shape is the table's, whatever the cursor says |
| Evolution.EvolvingConvergence | cdc-consumer/main.go:892-965 | any number of DuckDB runs of a feed with any schema changes, each killed anywhere but at a stranded retype and restarted from the first line: while the declarations, drops and snapshot rows taken in still describe the destination, a complete run ends where an uninterrupted one would; without drops, going over them is a no-op exactly then |
| Evolution.RedeliveryIsNoOpIff | cdc-consumer/sink_duckdb.go:224-379 | re-delivering events without drops, the streamed ones behind the cursors, changes nothing and succeeds exactly when each declaration in it spells the table's shape and each snapshot row names a row at least as new |
| Evolution.EveryStateIsACut | cdc-consumer/main.go:930-965 | every database inside a run is where it was killed on some event, after some of that event's statements |
| Evolution.EveryStepResumesIff | cdc-consumer/sink_duckdb.go:539-648 | an event killed between two of its statements resumes to the same end exactly when it is not a retype of the flag's column that has just made its table: adds and renames find themselves done, other retypes repeat without effect |
| Evolution.StrandedIsRefused | cdc-consumer/sink_duckdb.go:556-564 | such a retype landed in one run, and is refused by every later one |
| Evolution.RetypeStrandsItself | cdc-consumer/sink_duckdb.go:556-564 | it, as two runs of one event |
| Evolution.ShorterDeclarationIsRefused | cdc-consumer/sink_duckdb.go:356-362 | a re-delivered declaration with fewer columns than the table is refused at once, changing nothing |
| Evolution.ReplayAfterGrowthIsRefused | cdc-consumer/sink_duckdb.go:356-362 | a declaration and an `ADD_COLUMN` land, and the same two lines again are refused |
| Drops.RowsAreLostIff | cdc-consumer/sink_duckdb.go:669-675 | a completed re-delivery with a drop among the events, the streamed ones behind the cursors, leaves the table absent or without rows exactly when no snapshot row of it follows its last drop |
| Drops.CompletedIsNoOpIff | cdc-consumer/sink_duckdb.go:651-675 | a completed re-delivery, drops included, leaves the database as it was exactly when each dropped table is what its declarations and snapshot rows since the last drop build from nothing, and the events of every other table still describe it |
| Drops.BuiltFromDeclarations | cdc-consumer/sink_duckdb.go:224-319 | without a snapshot row since, what is built is no table, or one with no rows, the flag for a key and the last declaration's shape |
| Drops.ReplayAfterDropLosesTheRow | cdc-consumer/sink_duckdb.go:669-675 | a drop, a declaration and an insert land a row; the same lines again do not end there |
| CursorPath.PureFastPath | cdc-consumer/main.go:940-962 | for a log of rows and unchanged declarations with strictly increasing streamed positions per table, under any re-delivery, the loop ends as if every event had gone through the guard, and as if nothing had been delivered twice |
| CursorPath.SkippedIsSettled | cdc-consumer/main.go:946-949 | an event is only skipped when its key already holds a row at least as new and its cursor is recorded |
| CursorPath.InOrderNothingIsSkipped | cdc-consumer/main.go:197-200 | a log with schema changes delivered once in order skips nothing |
| CursorPath.CommitAloneDropsSiblings | cdc-consumer/main.go:864-870 | a resume point that is the commit alone skips every later row of the commit just recorded, which the composite one does not |
| CursorPath.MissingCheckpointReadsAsZero | cdc-consumer/sink.go:830-838 | with no checkpoint a streamed event is skipped exactly at position (0, 0) |
| CursorPath.SignedOrderIsExactBelow | cdc-consumer/sink.go:748-748 | the signed comparison of two commits agrees with their order exactly when both or neither reach 2^63 |
| CursorPath.PositionReadsBack | cdc-consumer/sink.go:819-838 | a position recorded for a table is the one read back, whatever its 64 bits, and no other table's moves |
| DuckSinks.DuckSink.constructor | cdc-consumer/sink_duckdb.go:102-132 | a sink opened over an existing destination holds no cache and is coherent |
| DuckSinks.DuckSink.KeyFor | cdc-consumer/sink_duckdb.go:465-489 | the key name returned and cached is the destination's current primary key, or the flag for a table not there |
| DuckSinks.DuckSink.CatchUp | cdc-consumer/sink_duckdb.go:327-348 | columns are added exactly when the destination is a strict prefix of the declaration, one statement each |
| DuckSinks.DuckSink.CheckSchemaAgrees | cdc-consumer/sink_duckdb.go:356-379 | accepts exactly equal names and types in order |
| DuckSinks.DuckSink.EnsureTable | cdc-consumer/sink_duckdb.go:224-319 | keeps the caches coherent and issues exactly the specified statements, with the same verdict |
| DuckSinks.DuckSink.EnsureFromRow | cdc-consumer/sink_duckdb.go:503-525 | an existing table is taken as it is; otherwise it is created from the row's columns |
| DuckSinks.DuckSink.ApplySchemaChange | cdc-consumer/sink_duckdb.go:539-648 | keeps the caches coherent through adds, renames of the key included, and retypes, with exactly the specified statements |
| DuckSinks.DuckSink.Upsert | cdc-consumer/sink_duckdb.go:690-762 | with values bound from the cache, the guarded upsert is the one bound from the destination's own columns; refused exactly without a key value |
| DuckSinks.DuckSink.Apply | cdc-consumer/sink_duckdb.go:651-763 | every operation keeps the caches coherent and leaves the states the cache-free specification gives |
| DuckSinks.DuckSink.SaveCursor | cdc-consumer/sink_duckdb.go:767-776 | the table's position becomes the later of the one held and the one given, compared as signed columns, and neither another position nor a table changes |
| DuckSinks.DuckSink.ApplyFeed | cdc-consumer/main.go:930-965 | the loop leaves exactly the states, verdict and totals of the specified run, so its caches are invisible |
| ApplyTotals.TotalsAre | cdc-consumer/main.go:928-965 | a completed run counts every event as landed or skipped; the skipped ones are the streamed events at or below their table's cursor where the run met them, the resume point is the furthest among those landed or zero, and the table that of the last landed |
| ApplyTotals.StoppedTotals | cdc-consumer/main.go:950-952 | a run that stops reports what it did before the event that was refused |
| ApplyTotals.NothingIsRedelivered | cdc-consumer/main.go:946-949 | a log in order into a fresh destination has nothing skipped |
| ApplyTotals.EverythingIsRedelivered | cdc-consumer/main.go:946-949 | streamed events of a feed that has landed, delivered again in any order, are all skipped and change nothing |
| RowWrites.RowLandsIff | cdc-consumer/sink_duckdb.go:690-762 | a row event of a table that is there lands exactly when its image has a value for the key; it writes one row, the image in the table's columns and NULL where it is silent, at the event's stamp and by its writer, if that key is new or strictly older, and changes nothing else |
| RowWrites.FirstRowMakesTable | cdc-consumer/sink_duckdb.go:503-525 | a row of a table that is not there lands exactly when its image has a value for the flag's column and none of the sink's own names; the table then has the image's columns in order, typed by value |
| SchemaChanges.RetypeKeepsValues | cdc-consumer/sink_duckdb.go:615-634 | a retype that lands keeps every row, every other column and all bookkeeping; in its column NULL stays NULL, every value prints as it did, and is untouched unless the new type is text |
| SchemaChanges.RetypeLandsIff | cdc-consumer/sink_duckdb.go:615-634 | a retype lands exactly when its shape types a column that is there and is not the key |
| SchemaChanges.RenameLandsIff | cdc-consumer/sink_duckdb.go:601-614 | a rename lands exactly when the old name is there and the new one is free, the key's included, or when it finds itself done |
| SchemaChanges.RenameMovesValues | cdc-consumer/sink_duckdb.go:601-614 | it moves each row's value, the column's type and the key to the new name, and changes nothing else |
| SchemaChanges.AddLandsIff | cdc-consumer/sink_duckdb.go:581-600 | an added column lands exactly when its shape types it and it is there already or is free |
| SchemaChanges.AddedIsNull | cdc-consumer/sink_duckdb.go:581-600 | a new column is last and NULL in every row, and nothing else changes |
| SchemaChanges.UnseenIsMade | cdc-consumer/sink_duckdb.go:556-564 | a column change of a table that is not there makes it, with exactly the shape it carries, keyed by the flag |
| SchemaChanges.DeclaredTypes | cdc-consumer/sink_duckdb.go:162-184 | which feed types become BIGINT, BOOLEAN and DOUBLE, and that every other is kept as text |
| Strings.Int64Iff | cdc-consumer/sink_duckdb.go:193-199 | a number is typed as an integer exactly when it is a numeral from -2^63 up to 2^63 |
| Reconcile.Reconciliation | cdc-consumer/sink_duckdb.go:214-379 | succeeds exactly when the destination is a prefix of a declarable shape, then has exactly that shape with every row carried over; a refusal changes nothing |
| Reconcile.RunRetract | cdc-consumer/retract.go:182-240 | marks all rows of the version and none other, tombstoning them only in remove mode, values, stamps and writers untouched; refused exactly when blank, missing or matching nothing |
| Lineage.RunReplays | cdc-consumer/sink_duckdb.go:651-776 | a DuckDB run killed anywhere has left exactly a prefix of its statements replayed |
| Lineage.RowHistory | cdc-consumer/retract.go:216-231 | in every state reached, from before its table existed and without a drop, by any statements that feed runs into either engine, kills, schema changes and retractions issue, a row is the winner's and is marked exactly when its version was retracted after it was installed |
| Lineage.CursorsNeverDecrease | cdc-consumer/sink_duckdb.go:765-776 | over any feed into DuckDB, killed anywhere, no cursor moves back |
| Lineage.StaysTombstoned | cdc-consumer/sink.go:40-43 | without a drop, whatever statements either engine runs, a tombstone stays until a strictly newer write for its key |
| SqliteLineage.RunReplays | cdc-consumer/sink.go:707-799 | a SQLite run killed anywhere has left exactly a prefix of its statements replayed, a rebuild being one of them |
| SqliteLineage.RowHistoryInRun | cdc-consumer/sink.go:770-799 | in every state of a SQLite run that made a table and does not drop it, a row is the winner's among the statements issued so far, its cells carried through the later schema changes |
| SqliteLineage.TombstoneInRun | cdc-consumer/sink.go:40-43 | in every state of a SQLite run that does not drop its table, a tombstone stays at its stamp until a strictly newer write for its key |
| SqliteLineage.CursorsNeverDecrease | cdc-consumer/sink.go:817-828 | over any feed into SQLite, killed anywhere, no cursor moves back |
| TableFold.MaterialisedTable.constructor | cdc-consumer/main.go:436-438 | a new table holds no row and no column under its key |
| TableFold.MaterialisedTable.Apply | cdc-consumer/main.go:450-527 | the in-place update is the fold of the event; a row without its key changes nothing |
| TableFold.MaterialisedTable.AdoptColumns | cdc-consumer/main.go:530-539 | the columns become the declared names in order |
| TableFold.MaterialisedTable.MoveValues | cdc-consumer/main.go:479-484 | every held row has its value moved to the new name, in any order of visiting |
| TableFold.MaterialisedTable.EncodeValues | cdc-consumer/main.go:503-507 | every held row has the column re-encoded |
| TableFold.EncodingKeepsPrint | cdc-consumer/main.go:568-583 | re-encoding leaves NULL alone, makes any other value the text it printed, and is idempotent |
| TableFold.RetypeReencodes | cdc-consumer/main.go:486-508 | a retype to BIGINT, DECIMAL or TIMESTAMP leaves in its column of every row NULL or the text of what was there, and every other value alone; a retype to another type changes no row |
| TableFold.OnlyDropsForget | cdc-consumer/main.go:509-525 | a drop leaves no row and no column, a delete takes away exactly its row, and no other event takes one |
| TableFold.RowFoldsIff | cdc-consumer/main.go:440-446 | a row event is refused exactly without its key column, a NULL key being filed as `<nil>` |
| TableFold.IndexStep | cdc-consumer/main.go:464-485 | the index stays sound through an event exactly when it does not rename onto the key a column whose value prints differently in some row |
| TableFold.RenameOntoKeyBreaksIndex | cdc-consumer/main.go:464-485 | a row and a rename that leave it under a key value it no longer has |
| TableFold.IndexAlwaysSound | cdc-consumer/main.go:440-446 | in every table reached without such a rename each map key is its row's printed key value |
| TableFold.RenameIsNatural | cdc-consumer/main.go:464-485 | folding any feed then renaming to an unused name is folding the feed told in that name, the key column included |
| TableFold.RetypeIsNatural | cdc-consumer/main.go:486-508 | folding any feed then retyping to a string-encoded type is folding the feed with that column re-encoded under each name it had |
| Refinement.SinkRefinesFold | cdc-consumer/sink_duckdb.go:9-21 | of the DuckDB sink: for a single-table feed in source order, declared first or made from its first row, whatever lands is accepted by the fold, and the destination with tombstones and bookkeeping hidden has exactly the rows of the materialised table, and its columns once any are declared |
| RetypedRefinement.SinkRefinesFoldAsText | cdc-consumer/main.go:486-508 | the same with columns that change type along the way: the destination, bookkeeping hidden, has the key, columns and rows of the materialised table, NULL where it has NULL and every value printed alike |
| SqliteRefinement.SinkRefinesFoldIff | cdc-consumer/sink.go:177-224 | for a single-table feed in source order that a SQLite process lands whole, the destination is the materialised table after every event exactly when the event that makes the table names the key column and each later declaration names the columns in force, or those and more with the affinities they have |
| SqliteRefinement.ShrunkKeepsColumn | cdc-consumer/sink.go:282-360 | four events that all succeed and leave a value in a column the materialised table does not have |
| Policy.PoliceRawLine | cdc-consumer/publication.go:426-537 | the stack loop answers what the walk specification answers |
| Policy.WalkDecidesTree | cdc-consumer/publication.go:411-537 | the walk accepts the tokens of a JSON value exactly when no object repeats a key, top-level keys are the envelope's and images hold no container but `after.columns`, empty keys looked through |
| PolicedLines.RowLineIsAcceptedIff | cdc-consumer/publication.go:237-299 | under a publication parsed from text, a row line passes the walk and the allowlist exactly when it repeats no key, its keys are the envelope's, its table is published, and each column of its images is published and scalar, except a published column named `columns` in the after image |
| PolicedLines.FullLineIsAccepted | cdc-consumer/publication.go:371-415 | a row line with all ten envelope keys, the writer's among them, and published scalars in its images is accepted |
| PolicedLines.DeclarationIsAcceptedIff | cdc-consumer/publication.go:230-369 | a declaration line passes the walk and both directions of the allowlist exactly when it repeats no key, its keys are the envelope's, its table is published, and the names it declares are exactly the published columns |
| PolicedLines.DeclaredIff | cdc-consumer/publication.go:281-287 | the names a shape declares are those of its column objects |
| PolicedLines.AllowlistIff | cdc-consumer/publication.go:237-299 | a line of any operation passes the allowlist exactly when its table is published, both images carry published columns only, but for the `columns` of a schema event's after image, and a shape declares published names only |
| Policy.ColumnChangesAreRefused | cdc-consumer/publication.go:459-464 | a line whose after image holds an `alter` object is always refused |
| Policy.AcceptedShapeIsExact | cdc-consumer/publication.go:338-369 | a declaration passes both directions exactly when it declares the published columns of a decided table |
| PublicationParser.ParsePublication | cdc-consumer/publication.go:109-201 | the loop that fills the collections computes the specified parse, errors included |
| PublicationParser.TableColumns | cdc-consumer/publication.go:155-192 | a table line is accepted with exactly its columns or refused |
| PublicationParser.AcceptedIsDeclared | cdc-consumer/publication.go:91-108 | an accepted text has a name, a table, non-empty sets of identifiers, and no table both published and excluded |
| PublicationParser.RoundTrip | cdc-consumer/publication.go:219-223 | the canonical rendering of any such publication parses back to it unchanged |
| PublicationParser.CanonicalForm | cdc-consumer/publication.go:91-108 | every accepted text means what its canonical rendering says |
| PublicationText.AcceptedIff | cdc-consumer/publication.go:91-201 | a text is accepted as a publication exactly when one header comes ahead of every line that is not ignored, each of the others lists a table with its columns or excludes one, no table is decided twice, and the publication is what they say |
| PublicationText.PublishesIff | cdc-consumer/publication.go:155-192 | an accepted text publishes a table with a set of columns exactly when a line that is neither ignored nor a keyword's is the table, a colon and those columns, each once; it excludes and is named exactly what an `exclude` and a `publication` line say |
| PublicationText.CleanedMeansTheSame | cdc-consumer/publication.go:113-118 | deleting every blank line and every line whose first non-blank character is `#`, and trimming the rest, never changes the result |
| PublicationText.IdentifierIff | cdc-consumer/publication.go:203-217 | a name is one or more ASCII letters, digits and underscores |
| SqliteReplay.RestartGoesOnIff | cdc-consumer/main.go:892-926 | a SQLite run killed anywhere and restarted with its database alone: going over what was taken in, drops aside, is a no-op exactly when it still describes the destination; and then the restart has the same database and verdict after every further event exactly when each is alike under the cache the killed process had and the one put back. A kill inside a retype that moves the key is the exception: after it the run's table has no primary key and the restart's is keyed by the flag |
| SqliteReplay.RedeliveryIsNoOpIff | cdc-consumer/sink.go:177-224 | going over events the cursors cover leaves the database and succeeds exactly when each declaration is one the destination agrees with and is not behind, and each snapshot row fits the columns cached by then and is held at a stamp at least as new |
| SqliteReplay.StepAlikeIff | cdc-consumer/sink.go:737-785 | one event leaves the same database and verdict under two caches exactly when it adds the same columns, fits both or neither, and where it writes, every column only one of them binds already holds the image's value |
| SqliteReplay.RestartsConverge | cdc-consumer/main.go:892-926 | any number of restarts, each so, leave what one uninterrupted run leaves |
| SqliteReplay.EveryStateIsACut | cdc-consumer/main.go:930-965 | every database inside a run is where it was killed on some event, after some of the statements that apply it |
| SqliteReplay.ApplyResumes | cdc-consumer/sink.go:445-582 | with its cache kept, an event killed between two of its statements resumes with the same verdict, and to the same process exactly when it is not a retype whose shape leaves out the table's key column and names the flag's |
| SqliteReplay.CacheIsTrueIff | cdc-consumer/sink.go:202-223 | after an accepted declaration the cached columns are the destination's exactly when it had as many or was behind |
| SqliteConvergence.UniformConvergence | cdc-consumer/convergence_test.go:136-170 | when every row carries exactly its table's columns, in any order and with any re-delivery, any number of killed runs and then a complete one leave the database and verdict of one uninterrupted run |
| SqliteConvergence.RestartLosesAddedColumn | cdc-consumer/sink.go:286-291 | a run and its restart that both succeed, the restart without the value of an added column |
| SqliteConvergence.RestartSeesWiderRow | cdc-consumer/sink.go:689-704 | two rows and a kill between them: the restart adds a column the run left out, or stops on it |
| SqliteConvergence.RestartMovesKey | cdc-consumer/sink.go:528-582 | such a retype killed once it is done: the run that was not killed stops at the next row, and the restart lands it |
| SqliteRestarts.ToldRestart | cdc-consumer/sink.go:286-291 | a restart over events that still describe the destination, no kill inside such a retype, ends as the run would have when every table with rows to come was declared or snapshotted before its first streamed row and declared after its last column change |
| SqliteRestarts.RowsAreLostIff | cdc-consumer/sink.go:715-721 | a completed re-delivery into SQLite with a drop among the events leaves the table absent or without rows exactly when no snapshot row of it follows its last drop |
| SqliteSinks.SqliteSink.constructor | cdc-consumer/sink.go:76-102 | a sink opened over an existing destination holds no cache |
| SqliteSinks.SqliteSink.KeyFor | cdc-consumer/sink.go:660-680 | the key name is the destination's primary key, or the flag when it has none |
| SqliteSinks.SqliteSink.CatchUp | cdc-consumer/sink.go:239-268 | grows exactly a destination behind the shape, one statement a column, types compared by affinity only for a declaration |
| SqliteSinks.SqliteSink.SchemaAgrees | cdc-consumer/sink.go:282-360 | refuses exactly a name difference at equal size and an integer column declared as text |
| SqliteSinks.SqliteSink.EnsureTable | cdc-consumer/sink.go:177-224 | exactly the specified statements, verdict and cache, which takes the declared names |
| SqliteSinks.SqliteSink.EnsureFromRow | cdc-consumer/sink.go:689-704 | a cached table is left alone; any other is created or caught up from the row's columns |
| SqliteSinks.SqliteSink.RebuildTable | cdc-consumer/sink.go:528-582 | rebuilt exactly when the new shape invents no column, every row carried by name with its bookkeeping |
| SqliteSinks.SqliteSink.ApplySchemaChange | cdc-consumer/sink.go:445-520 | exactly the specified statement or refusal, a table never seen made from the event's shape, the cache re-read from the destination |
| SqliteSinks.SqliteSink.Upsert | cdc-consumer/sink.go:737-798 | refused exactly when a cached column is not in the table or the key has no value among them; otherwise a row the guard lets through holds the image in the cached columns, what it held in the others, and the event's stamp, tombstone and writer, unmarked, and nothing else changes |
| SqliteSinks.SqliteSink.SaveCursor | cdc-consumer/sink.go:819-828 | the table's position becomes the later of the two, and nothing else changes |
| SqliteSinks.SqliteSink.Apply | cdc-consumer/sink.go:707-799 | every operation leaves the states and the cache the specification gives, its cache of keys unseen |
| SqliteSinks.SqliteSink.ApplyFeed | cdc-consumer/main.go:930-965 | the loop over this sink leaves exactly the states, verdict and cache of the specified run |
| SqliteSinks.EvolvedKeepsMeta | cdc-consumer/sink.go:445-520 | every column-level change keeps every row's stamp, tombstone, writer and mark |
| SqliteSinks.RebuildKeepsRows | cdc-consumer/sink.go:554-573 | a rebuild to a shape naming all its columns keeps each row whole |
| SqliteShapes.ShapeAfterDeclaring | cdc-consumer/sink.go:177-360 | a declaration of a table that is there adds exactly the columns it is behind by, carries every row, and is accepted exactly when as many columns have the same names and no integer column is declared as text; the cache takes the declared names |
| SqliteShapes.ShapeOfNewTable | cdc-consumer/sink.go:177-224 | a table that is not there is made as declared, keyed by the flag if it is named, unless a name comes twice or is one of the sink's own |
| SqliteShapes.SpelledAffinity | cdc-consumer/sink.go:114-155 | which feed types are held as integers and reals, and that every other is held as text |
| SqliteShapes.ContainsIff | cdc-consumer/sink.go:141-155 | an affinity rule's word is found exactly when it occurs in the type |
| SqliteShapes.AffinityIs | cdc-consumer/sink.go:141-155 | the storage class of a declared type, by the words that occur in it and in the order of the rules |
| SqliteShapes.GuessedColumns | cdc-consumer/sink.go:689-704 | the columns guessed from a row are its own in order, all of them text |
| SqliteShapes.ChangeLandsIff | cdc-consumer/sink.go:445-520 | when an add, a rename and a retype land |
| SqliteShapes.ChangeLeaves | cdc-consumer/sink.go:445-582 | what one that lands leaves: the added column NULL in every row, the value under its new name, or the rows cut to the new shape with their bookkeeping, and nothing else changed |
| SqliteShapes.UnseenIsMade | cdc-consumer/sink.go:445-458 | a column change of a table that is not there makes it, empty and with the shape it carries |
| SqliteShapes.RowLandsIff | cdc-consumer/sink.go:737-766 | a row event of a cached table lands exactly when every cached column is there, the primary key among them and with a value |
| FeedStream.Decode | src/replication/logical.rs:778-1212 | one walk staging per transaction releases exactly the committed changes in commit order and finds the earliest open one |
| FeedStream.PendingExact | src/replication/logical.rs:1197-1212 | a staged change is exactly one read whose transaction has neither committed nor aborted |
| FeedStream.PumpIsExact | src/replication/stream.rs:275-454 | a pump with nothing to refuse emits exactly what became deliverable since, once, in commit order, and steps over nothing open |
| FeedContents.DeliverableIff | src/replication/stream.rs:352-383 | what is deliverable below a position is exactly the committed changes and schema changes there, less those of an excluded table and those of a table and transaction a snapshot held, in commit order and each once |
| FeedContents.PumpMoves | src/replication/stream.rs:406-419 | the cursor moves past every commit decoded, up to one to be refused, stops short only at a change still open, and steps over nothing open |
| FeedStream.ReadsWhatStartsInside | src/replication/stream.rs:311-312 | a pump reads a record below the frontier exactly when it starts fewer bytes past the cursor than the window has |
| FeedStream.ExactAsLogGrows | src/replication/stream.rs:34-40 | what was delivered stays exact however the log grows |
| FeedStream.RestIsServedIff | src/replication/stream.rs:9-40 | whatever pumps follow on a growing log, none refusing, together they bring a consumer to all that is deliverable where they stop exactly when no change below the cursor, other than dropped ones, is committed in between |
| FeedStream.ReconnectServesTheRestIff | examples/cdc_server.rs:198-206 | reconnecting at the end of the last commit received, with no delivery position, sends exactly the rest if and only if no undropped change below it is committed later |
| FeedStream.ReconnectLosesRow | examples/cdc_server.rs:198-206 | two interleaved transactions and a reconnection at the end of the first commit: the second's row is never sent |
| FeedStream.TruncatedLogServesTheRest | src/replication/stream.rs:266-268 | connecting at the base of a log truncated where nothing was open sends exactly what is deliverable since, and nothing from before |
| FeedStream.RefusalIsRecoverableIff | src/replication/stream.rs:41-66 | a refusal delivers exactly what is ahead of the first refused commit, and later pumps that refuse nothing and read as far serve all the rest exactly when the log it read has no undropped change that commits there or later, with a commit ahead of the refused one after it and nothing up to it left open |
| FeedStream.SteppedOverIsLost | src/replication/stream.rs:9-24 | a change behind the cursor is emitted by no sequence of later pumps |
| FeedStream.DeliveredWasCommitted | src/replication/stream.rs:9-24 | nothing delivered came from a transaction still open where delivery stopped |
| FeedStream.RefusedRowIsLost | src/replication/stream.rs:385-419 | two interleaved transactions whose refused row is never delivered after the publication is widened |
| FeedServer.InvariantHolds | examples/cdc_server.rs:166-264 | in every interleaving: done implies flushed, a true sample implies done, the consumer has been served exactly, and the cursor holds at the earliest change open where delivery has come to |
| FeedServer.ServedExactly | examples/cdc_server.rs:208-237 | until a refusal the consumer has been sent the deliverable changes of a prefix of the log, each once |
| FeedContents.SentIff | examples/cdc_server.rs:208-237 | in every interleaving, until a refusal, a change has been sent exactly when the log has it committed below the position served to and neither the publication nor the snapshot withholds it; all in commit order and once |
| FeedContents.RefusalSentIff | src/replication/stream.rs:385-404 | a loop that closed on a refusal has sent exactly what is ahead of some commit, none of it to be refused, and that commit has a change that is |
| FeedServer.CleanCloseIff | examples/cdc_server.rs:248-264 | every clean close on a log, in any interleaving, has sent everything exactly when no deliverable commit lies a window or more past the earliest change open at the end of the one before it |
| FeedServer.StalledLogLoses | examples/cdc_server.rs:208-264 | on a log with such a gap, a run of the two threads that closes cleanly with something unsent |
| FeedWorkload.SerialIsServedIff | examples/cdc_server.rs:248-264 | for any log of serial statements over one published table, each its transaction's changes and commit or a declaration, with quiet records anywhere: every clean close has sent every row exactly when each statement ends less than a window of bytes after the one before |
| FeedWorkload.WorkloadIsServedIff | examples/cdc_server.rs:166-191 | the same of the log this program writes, a table and then inserts with every fifth row updated, in place or moved |
| FeedWorkload.WorkloadIsServed | examples/cdc_server.rs:178-187 | with a window longer than five records, a clean close of the program has sent every row of that log, whatever the publication decides about the table |
| FeedServer.LateSampleLosesRows | examples/cdc_server.rs:209-216 | sampling the flag after the pump has a run that closes with a row unsent |
| FeedServer.CleanCloseCanLoseRows | examples/cdc_server.rs:248-264 | at every window size, a run that loses a change behind an excluded backlog, and one that loses a transaction as long as the window |
| ExactFloats.ExactFloatIsExact | cdc-consumer/main.go:607-626 | the text denotes exactly m / 2^k, with k fractional digits, the last a 5 |
| ExactFloats.NoShorterIsExact | cdc-consumer/main.go:615-622 | no numeral with fewer fractional digits denotes the number |
| ExactFloats.DistinctPrintDistinct | cdc-consumer/main.go:619-622 | distinct numbers print as distinct texts |
| Escapes.RenderBlob | cdc-consumer/sink_duckdb.go:828-838 | the loop computes the rendering byte by byte |
| Escapes.RenderedByteIs | cdc-consumer/sink_duckdb.go:828-838 | a printable byte other than a backslash stands for itself, and any other is `\x` and two upper-case hexadecimal digits |
| Escapes.BlobRoundTrip | cdc-consumer/sink_duckdb.go:814-827 | every byte string is read back from its rendering, which is printable throughout |
| Escapes.QuoteRoundTrip | cdc-consumer/sink.go:157-162 | scanning a quoted identifier returns it and stops at its end, whatever follows but a quote |

## Left out

- The storage engine, SQL layer, consensus, branching and provenance of the database: the model starts at its log.
- In `FeedStream`: turning heap records into row values, pairing relocated updates and writer identities. A record is already a change, commit, abort, schema change or nothing. Positions are record numbers, and a window counts the bytes at which records start. Refusal is by table.
- A checkpoint, by default after 256 commits (`src/wal/txn.rs:699-704`), truncates the log under a running server: a consumer then connects at the new base (`FeedStream.TruncatedLogServesTheRest`), and one whose cursor is below it is refused.
- FeedWorkload.WorkloadIsServed: the log is the one retained when the consumer connects, with no checkpoint since.
- JSON lexing, `checkEnvelope`, `checkWriter`, the `diff`, `validate`, `precision` and `scan` reports, `sameNumber`, cell rendering, flags, files and sockets. A line that does not decode ends a run like a refused event.
- Engine behaviour beyond the stated meaning of each statement: conversion of a value to its column's type, case-insensitive names, driver errors. Values are compared as decoded. DuckDB is taken to refuse a retype of the primary key column.
- Source columns named like the sinks' own bookkeeping columns, except that creating, adding or renaming to one is refused.
- Upgrading a destination that predates attribution or the composite cursor.
- Replay.CrashConvergence: schema changes other than an unchanged declaration are the subject of `Evolution` and `Drops`, and the SQLite sink of `SqliteReplay` and `SqliteConvergence`.
- Evolution.EvolvingConvergence: streamed positions are below 2^63, and a change agrees with the shape it carries, as the envelope check at `cdc-consumer/main.go:260-348` demands.
- SqliteReplay.RestartGoesOnIff: the same of SQLite, with shapes and images that name no column twice. Going over a drop is exact for its rows (`SqliteRestarts.RowsAreLostIff`), and for the whole table only in DuckDB.
- SqliteRefinement.SinkRefinesFoldIff: one process, without a kill, an empty key flag or the events that `Refinement.SinkRefinesFold` leaves out; a declaration has columns, as the reader of the feed demands at `cdc-consumer/main.go:218-221`.
- Refinement.SinkRefinesFold: ALTER_COLUMN_TYPE and DROP_TABLE are outside it; after a retype the fold holds a string where the destination holds a typed value, so the two agree as text (`RetypedRefinement.SinkRefinesFoldAsText`), and after a drop the two forget a renamed key differently.
- ApplyTotals: the loop's totals are those of a DuckDB run; the SQLite run of the same loop is modelled without them.
- SqliteSinks.SqliteSink.Upsert: an image without a value for the key, or a cache without the key column, stops the run in the model; SQLite makes up a key or stores NULL.
- Reconcile.RunRetract: the engine name and the mode are already parsed.
- ExactFloats: NaN and the infinities, and the sign of zero.
