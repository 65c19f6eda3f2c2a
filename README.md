# RDBMS event table of Siddhi, modelled in Dafny

This project models the core of Siddhi's RDBMS event table, the class
`DBConfiguration`. The class covers:

- **Statement building.** `constructQuery` fills a dialect template's placeholders
  (table name, column types, columns, values, column values, condition). The loop of
  `initializeDatabaseExecutionInfo` builds the three comma-separated fragment lists
  and the create, insert and exist statements from the dialect's element mapping.
- **Parameter binding.** `populateStatement` binds an event's values to a prepared
  statement in the order of a column list.
- **Table operations.** `addEvent`, `deleteEvent`, `updateEvent`, `selectEvent` and
  `checkExistence` each run one JDBC statement per event.
- **The bloom-filter index.** There is one counting bloom filter per attribute.
  `buildBloomFilters` rebuilds the filters from a table scan. `addToBloomFilters` and
  `removeFromBloomFilters` keep them up to date.

## Modules

| file | module | what it holds |
|---|---|---|
| `text.dfy` | `Text` | `String.replace`, `contains`, `trim().equals("")`, ASCII case mapping, and joining with a separator |
| `schema.dfy` | `Schema` | attribute types, event values, the casts of the setters, what the getters read back, and the bloom keys |
| `statements.dfy` | `Statements` | `constructQuery` as a pure function with its rendering theorem, the fragment loop as a method, and the execution info |
| `binder.dfy` | `Binder` | the binding loop as a specification function, the loop method proved against it, and its characterisation |
| `bloom.dfy` | `BloomIndex` | the filter loops as specification functions, the covering invariant and the lemmas about it |
| `table.dfy` | `EventTable` | the class `DBConfiguration` with the table operations and the loops over the filter array |

## How the pieces are represented

**The database.** The class holds the rows of the backing table as
`tableRows`. Each JDBC step an operation takes is a parameter that says how it
ended: not prepared, failed on execution, failed on commit after `n` affected
rows, or committed with `n` rows. Each step also gives the parameter indices
whose setter the driver rejects.

**Unset parameters.** A statement left with an unset parameter fails to
execute. Because of this, a row that is committed is always complete.

**Unchecked exceptions** end an operation with `Aborted`. The state reached at
that point is kept. These are:

- a failed cast in a setter;
- an event shorter than the column list;
- a null template or a null argument in `constructQuery`;
- `toString()` of a null value;
- `getString()` of SQL NULL during the scan;
- Hadoop's refusal to delete a key that is not in a filter.

**The filters** are an `array?<multiset<string>>`: each counting filter is the
multiset of keys it counts. The filters are enabled exactly when the array is
non-null.

**The covering invariant.** The central invariant is `Covers`: for each
column, the keys the table's rows give are a sub-multiset of that column's
filter. It implies `NoFalseNegatives`, so a probe never misses a value the
table holds.

## Behaviours the model proves about the code as it stands

**Inserts before an abort are never indexed.** A ClassCastException part-way
through `addEvent`'s chunk leaves the rows committed before it in the table.
`addToBloomFilters` is then never called, so those rows are not counted
(`EventTable.AbortedChunkLeavesRowsUnindexed`).

**Deletes uncount the wrong row when the condition picks another one.**
`deleteEvent` uncounts the values of the event that triggered it, not those of
the rows its condition deleted. When the two differ, a row still in the table
is no longer counted (`BloomIndex.MismatchedDeleteLosesRow`).

**The index survives a delete only when the rows match.** The covering
invariant is kept when the deleted rows are exactly one copy of the event, or
none (`EventTable.DBConfiguration.DeleteEvent`).

**A blank condition strips `where` and `WHERE` from the whole statement.**
Each spelling is deleted in one `replace` pass, so a keyword that the deletion
re-forms survives: `wherwheree` becomes `where`
(`Statements.StripWhereKeepsReformed`). The deletion reaches inside
names: a table `nowhere` becomes `no`
(`Statements.StripWhereReachesNames`). A mixed-case `Where` is left in place
(`Statements.StripWhereKeepsMixedCase`).

**A failed rebuild leaves the index empty but enabled.** If the connection
fails during a rebuild, the filters are enabled and empty, so every probe misses
(`EventTable.LostConnectionEmptiesFilters`).

## Model

| member | source | states |
|---|---|---|
| Text.ReplaceAllCut | modules/siddhi-extensions/event-table/src/main/java/org/wso2/siddhi/extension/eventtable/rdbms/DBConfiguration.java:454-471 | `String.replace` replaces every leftmost non-overlapping occurrence of the target: a string cut at those occurrences comes back with the replacement between the same pieces |
| Text.ReplaceAllAbsent | modules/siddhi-extensions/event-table/src/main/java/org/wso2/siddhi/extension/eventtable/rdbms/DBConfiguration.java:454-471 | replacing a target the string does not contain returns the string unchanged |
| Text.LowerOfUpper | modules/siddhi-extensions/event-table/src/main/java/org/wso2/siddhi/extension/eventtable/rdbms/DBConfiguration.java:380 | lower-casing forgets an upper-casing |
| Text.SplitJoinRoundTrip | modules/siddhi-extensions/event-table/src/main/java/org/wso2/siddhi/extension/eventtable/rdbms/DBConfiguration.java:392-422 | pieces joined with a one-character separator none of them contains split back into the same pieces |
| Schema.KeyOf | modules/siddhi-extensions/event-table/src/main/java/org/wso2/siddhi/extension/eventtable/rdbms/DBConfiguration.java:555 | an event value gives a bloom key exactly when it is not null |
| Schema.DecodeColumn | modules/siddhi-extensions/event-table/src/main/java/org/wso2/siddhi/extension/eventtable/rdbms/DBConfiguration.java:230-256 | a non-null column reads back as itself; SQL NULL reads back as null exactly for STRING and OBJECT columns, and as false/0/0.0 through the primitive getters |
| Schema.DecodeRow | modules/siddhi-extensions/event-table/src/main/java/org/wso2/siddhi/extension/eventtable/rdbms/DBConfiguration.java:228-258 | a result row decodes to exactly one value per attribute |
| Schema.DecodeRoundTrip | modules/siddhi-extensions/event-table/src/main/java/org/wso2/siddhi/extension/eventtable/rdbms/DBConfiguration.java:228-258 | a row written completely by the setters reads back as the same values |
| Schema.ScanKeyAgreesWithKeyOf | modules/siddhi-extensions/event-table/src/main/java/org/wso2/siddhi/extension/eventtable/rdbms/DBConfiguration.java:519-540 | for a value a setter wrote, the key the table scan derives equals the key the event gives to addToBloomFilters |
| Schema.CompleteIsStorable | modules/siddhi-extensions/event-table/src/main/java/org/wso2/siddhi/extension/eventtable/rdbms/DBConfiguration.java:326-363 | every row the setters write completely is one the backing table can hold |
| Statements.SelectDialect | modules/siddhi-extensions/event-table/src/main/java/org/wso2/siddhi/extension/eventtable/rdbms/DBConfiguration.java:378-380 | a dialect is found exactly when the lower-cased product name is registered |
| Statements.DialectLookupIgnoresCase | modules/siddhi-extensions/event-table/src/main/java/org/wso2/siddhi/extension/eventtable/rdbms/DBConfiguration.java:380 | product names differing only in letter case select the same dialect |
| Statements.Substitute | modules/siddhi-extensions/event-table/src/main/java/org/wso2/siddhi/extension/eventtable/rdbms/DBConfiguration.java:454-471 | a query without the placeholder is unchanged; with it, the step fails exactly when the argument is null, and names that placeholder |
| Statements.ApplyCondition | modules/siddhi-extensions/event-table/src/main/java/org/wso2/siddhi/extension/eventtable/rdbms/DBConfiguration.java:472-480 | a query without the condition placeholder is unchanged |
| Statements.StripWhereDeletesKeyword | modules/siddhi-extensions/event-table/src/main/java/org/wso2/siddhi/extension/eventtable/rdbms/DBConfiguration.java:473-475 | the keyword in either spelling is deleted and the text on both sides kept |
| Statements.StripWhereReachesNames | modules/siddhi-extensions/event-table/src/main/java/org/wso2/siddhi/extension/eventtable/rdbms/DBConfiguration.java:473-475 | the deletion covers the whole statement: a table named `nowhere` becomes `no` |
| Statements.StripWhereKeepsMixedCase | modules/siddhi-extensions/event-table/src/main/java/org/wso2/siddhi/extension/eventtable/rdbms/DBConfiguration.java:474-475 | only the spellings `where` and `WHERE` are deleted; a mixed-case `Where` stays |
| Statements.StripWhereKeepsReformed | modules/siddhi-extensions/event-table/src/main/java/org/wso2/siddhi/extension/eventtable/rdbms/DBConfiguration.java:474-475 | each spelling is deleted in a single pass, so a keyword the deletion re-forms stays: `wherwheree` becomes `where` |
| Statements.ConstructQuery | modules/siddhi-extensions/event-table/src/main/java/org/wso2/siddhi/extension/eventtable/rdbms/DBConfiguration.java:451-482 | a null template fails; a template with every builder argument non-null always yields a statement |
| Statements.ConstructQueryWithoutTokens | modules/siddhi-extensions/event-table/src/main/java/org/wso2/siddhi/extension/eventtable/rdbms/DBConfiguration.java:451-482 | a template without placeholders is returned unchanged, even with null arguments |
| Statements.RenderTemplate | modules/siddhi-extensions/event-table/src/main/java/org/wso2/siddhi/extension/eventtable/rdbms/DBConfiguration.java:451-482 | for placeholder texts none of which overlaps another at any offset (brace tokens such as `{{TABLE_NAME}}` qualify), and literals and arguments free of the placeholders' first characters, the result is the template with each placeholder replaced by its argument; a null or blank condition deletes its placeholder and strips WHERE from the statement |
| Statements.SubstituteStep | modules/siddhi-extensions/event-table/src/main/java/org/wso2/siddhi/extension/eventtable/rdbms/DBConfiguration.java:454-471 | one substitution on a template whose placeholder texts occur only where it has those placeholders replaces exactly the placeholders of its kind |
| Statements.ConditionStep | modules/siddhi-extensions/event-table/src/main/java/org/wso2/siddhi/extension/eventtable/rdbms/DBConfiguration.java:472-480 | the condition step on a template whose placeholder texts occur only where it has those placeholders replaces the placeholder, or deletes it and strips WHERE for a null or blank condition |
| Statements.ContainsIffPlaceholder | modules/siddhi-extensions/event-table/src/main/java/org/wso2/siddhi/extension/eventtable/rdbms/DBConfiguration.java:454-472 | on a template whose placeholder texts occur only where it has those placeholders, the `contains` test holds exactly when the template has that placeholder |
| Statements.FillReplaces | modules/siddhi-extensions/event-table/src/main/java/org/wso2/siddhi/extension/eventtable/rdbms/DBConfiguration.java:454-471 | on a template whose placeholder texts occur only where it has those placeholders, `replace` equals filling its placeholders of that kind |
| Statements.TokenAbsentFromFlatten | modules/siddhi-extensions/event-table/src/main/java/org/wso2/siddhi/extension/eventtable/rdbms/DBConfiguration.java:454-472 | a template whose placeholder texts occur only where it has those placeholders does not contain the text of a placeholder it lacks |
| Statements.ApartIsSeparated | modules/siddhi-extensions/event-table/src/main/java/org/wso2/siddhi/extension/eventtable/rdbms/DBConfiguration.java:451-482 | when no placeholder text overlaps another at any offset and no literal holds a placeholder's first character, each placeholder text occurs only where the template has that placeholder |
| Statements.RenderSubstitutions | modules/siddhi-extensions/event-table/src/main/java/org/wso2/siddhi/extension/eventtable/rdbms/DBConfiguration.java:451-471 | on such a template the five substitutions of constructQuery never fail, fill every placeholder they name, and keep the condition placeholder exactly where it was |
| Statements.RenderLastStages | modules/siddhi-extensions/event-table/src/main/java/org/wso2/siddhi/extension/eventtable/rdbms/DBConfiguration.java:460-471 | the column, value and column-value substitutions fill their placeholders one after the other |
| Statements.RenderStage | modules/siddhi-extensions/event-table/src/main/java/org/wso2/siddhi/extension/eventtable/rdbms/DBConfiguration.java:454-471 | one substitution step on such a template replaces its placeholders of that kind, and the filled template keeps literals free of the placeholders' first characters |
| Statements.BracedTokensApart | modules/siddhi-extensions/event-table/src/main/java/org/wso2/siddhi/extension/eventtable/rdbms/DBConfiguration.java:451-482 | placeholder texts of the form `{{NAME}}`, with distinct names free of braces, never overlap one another at any offset |
| Statements.BracedSelectRenders | modules/siddhi-extensions/event-table/src/main/java/org/wso2/siddhi/extension/eventtable/rdbms/DBConfiguration.java:451-482 | with the placeholders `{{TABLE_NAME}}` … `{{CONDITION}}`, the template `SELECT * FROM {{TABLE_NAME}}` for table `StockTable` renders to `SELECT * FROM StockTable`, with every other argument null |
| Statements.BuildFragments | modules/siddhi-extensions/event-table/src/main/java/org/wso2/siddhi/extension/eventtable/rdbms/DBConfiguration.java:392-422 | the three builders hold the column definitions (upper-cased name, two spaces, dialect type), the attribute names and one question mark per attribute, each list joined with the dialect's comma |
| Statements.FragmentListsReadBack | modules/siddhi-extensions/event-table/src/main/java/org/wso2/siddhi/extension/eventtable/rdbms/DBConfiguration.java:392-422 | with a one-character comma no entry contains, each fragment splits back into exactly its entries |
| Statements.InitExecutionInfo | modules/siddhi-extensions/event-table/src/main/java/org/wso2/siddhi/extension/eventtable/rdbms/DBConfiguration.java:369-446 | an unregistered product fails; a registered one succeeds exactly when the create, insert and exist statements can all be built, and then they are constructQuery of the dialect's templates with the built fragments and the insert order is the attribute list; otherwise the error is that of the first statement that could not be built |
| Binder.BindCharacterization | modules/siddhi-extensions/event-table/src/main/java/org/wso2/siddhi/extension/eventtable/rdbms/DBConfiguration.java:326-363 | binding sets parameter i+1 to value i with its column's setter for every non-null value of a handled type, skips nulls, and stops at the first column whose value is missing, fails its cast or whose setter fails, naming that column and the reason |
| Binder.BindStopped | modules/siddhi-extensions/event-table/src/main/java/org/wso2/siddhi/extension/eventtable/rdbms/DBConfiguration.java:326-363 | once binding has stopped, later columns change nothing |
| Binder.BindFullIff | modules/siddhi-extensions/event-table/src/main/java/org/wso2/siddhi/extension/eventtable/rdbms/DBConfiguration.java:326-363 | every column is attempted and every parameter set exactly when the row is complete and no setter is rejected |
| Binder.BoundIff | modules/siddhi-extensions/event-table/src/main/java/org/wso2/siddhi/extension/eventtable/rdbms/DBConfiguration.java:326-363 | a statement the caller goes on to execute has every parameter set exactly when the row is complete and no setter is rejected |
| Binder.PopulateStatement | modules/siddhi-extensions/event-table/src/main/java/org/wso2/siddhi/extension/eventtable/rdbms/DBConfiguration.java:326-363 | the loop leaves the parameters and the stop reason the binding specification gives |
| BloomIndex.ApplyCellEffect | modules/siddhi-extensions/event-table/src/main/java/org/wso2/siddhi/extension/eventtable/rdbms/DBConfiguration.java:555-563 | a filter rejects exactly a null value and the deletion of a key it does not count; otherwise it counts the key added, or uncounts the key deleted, once |
| BloomIndex.EmptyFilters | modules/siddhi-extensions/event-table/src/main/java/org/wso2/siddhi/extension/eventtable/rdbms/DBConfiguration.java:506-510 | one empty filter per attribute |
| BloomIndex.RunRow | modules/siddhi-extensions/event-table/src/main/java/org/wso2/siddhi/extension/eventtable/rdbms/DBConfiguration.java:553-557 | the inner loop keeps one filter per column |
| BloomIndex.RunRows | modules/siddhi-extensions/event-table/src/main/java/org/wso2/siddhi/extension/eventtable/rdbms/DBConfiguration.java:552-558 | the outer loop keeps one filter per column |
| BloomIndex.RunRowStopped | modules/siddhi-extensions/event-table/src/main/java/org/wso2/siddhi/extension/eventtable/rdbms/DBConfiguration.java:554-556 | after an exception in a row, later columns change nothing |
| BloomIndex.RunRowsStopped | modules/siddhi-extensions/event-table/src/main/java/org/wso2/siddhi/extension/eventtable/rdbms/DBConfiguration.java:553-557 | after an exception, later rows change nothing |
| BloomIndex.ShortRowCrashes | modules/siddhi-extensions/event-table/src/main/java/org/wso2/siddhi/extension/eventtable/rdbms/DBConfiguration.java:555 | an event with fewer values than attributes throws at its first missing value |
| BloomIndex.RunRowAdvance | modules/siddhi-extensions/event-table/src/main/java/org/wso2/siddhi/extension/eventtable/rdbms/DBConfiguration.java:554-556 | one pass of the inner loop stops exactly when the column's filter rejects its operation, and otherwise changes that column's filter alone, as the operation says |
| BloomIndex.RunRowsNext | modules/siddhi-extensions/event-table/src/main/java/org/wso2/siddhi/extension/eventtable/rdbms/DBConfiguration.java:553-557 | one pass of the outer loop runs the inner loop on the next event |
| BloomIndex.RunRowsExit | modules/siddhi-extensions/event-table/src/main/java/org/wso2/siddhi/extension/eventtable/rdbms/DBConfiguration.java:553-557 | the outer loop ends with the run over all events, whether it went through them or stopped at an exception |
| BloomIndex.CleanRowGrows | modules/siddhi-extensions/event-table/src/main/java/org/wso2/siddhi/extension/eventtable/rdbms/DBConfiguration.java:552-558 | a row without throwing values, added or scanned, only counts keys |
| BloomIndex.CleanRowShrinks | modules/siddhi-extensions/event-table/src/main/java/org/wso2/siddhi/extension/eventtable/rdbms/DBConfiguration.java:560-566 | removing a row without null values whose keys are counted only uncounts counted keys |
| BloomIndex.OpsCleanRow | modules/siddhi-extensions/event-table/src/main/java/org/wso2/siddhi/extension/eventtable/rdbms/DBConfiguration.java:552-566 | a row none of whose column operations throws has a value for every attribute and no throwing value |
| BloomIndex.RunRowGrow | modules/siddhi-extensions/event-table/src/main/java/org/wso2/siddhi/extension/eventtable/rdbms/DBConfiguration.java:553-557 | a row whose operations neither throw nor delete counts each column's key once, in that column's filter |
| BloomIndex.RunRowsGrow | modules/siddhi-extensions/event-table/src/main/java/org/wso2/siddhi/extension/eventtable/rdbms/DBConfiguration.java:552-558 | adding or scanning clean rows never throws and counts exactly their keys |
| BloomIndex.RunRowShrink | modules/siddhi-extensions/event-table/src/main/java/org/wso2/siddhi/extension/eventtable/rdbms/DBConfiguration.java:561-565 | a row whose every operation deletes a key its column's filter counts uncounts each once |
| BloomIndex.RunRowsShrink | modules/siddhi-extensions/event-table/src/main/java/org/wso2/siddhi/extension/eventtable/rdbms/DBConfiguration.java:560-566 | removing rows whose keys are all counted never throws and uncounts exactly their keys |
| BloomIndex.RunRowCompletedIsClean | modules/siddhi-extensions/event-table/src/main/java/org/wso2/siddhi/extension/eventtable/rdbms/DBConfiguration.java:553-557 | a row the inner loop went through without exception met no throwing operation |
| BloomIndex.RunRowsCompletedIsClean | modules/siddhi-extensions/event-table/src/main/java/org/wso2/siddhi/extension/eventtable/rdbms/DBConfiguration.java:518-542 | a scan, add or remove run that did not throw met only clean rows |
| BloomIndex.KeysConcat | modules/siddhi-extensions/event-table/src/main/java/org/wso2/siddhi/extension/eventtable/rdbms/DBConfiguration.java:518-542 | the keys of two row lists together are the keys of each added up |
| BloomIndex.KeysPermutation | modules/siddhi-extensions/event-table/src/main/java/org/wso2/siddhi/extension/eventtable/rdbms/DBConfiguration.java:518-542 | the keys depend on the rows held, not on their order |
| BloomIndex.RowKeysAgree | modules/siddhi-extensions/event-table/src/main/java/org/wso2/siddhi/extension/eventtable/rdbms/DBConfiguration.java:519-540 | for a complete row, the key the add and remove loops derive for a column equals the key the scan derives |
| BloomIndex.KeysAgree | modules/siddhi-extensions/event-table/src/main/java/org/wso2/siddhi/extension/eventtable/rdbms/DBConfiguration.java:519-540 | for complete rows, the keys the add and remove loops use equal the keys the scan derives |
| BloomIndex.CompleteRowsClean | modules/siddhi-extensions/event-table/src/main/java/org/wso2/siddhi/extension/eventtable/rdbms/DBConfiguration.java:552-566 | complete rows make no loop throw |
| BloomIndex.KeyOfRowInKeys | modules/siddhi-extensions/event-table/src/main/java/org/wso2/siddhi/extension/eventtable/rdbms/DBConfiguration.java:518-542 | the key of any row's column is among the keys of the rows |
| BloomIndex.CoversNoFalseNegatives | modules/siddhi-extensions/event-table/src/main/java/org/wso2/siddhi/extension/eventtable/rdbms/DBConfiguration.java:505-566 | covering filters answer every probe for a value the table holds positively |
| BloomIndex.RebuildExact | modules/siddhi-extensions/event-table/src/main/java/org/wso2/siddhi/extension/eventtable/rdbms/DBConfiguration.java:505-550 | a full scan of a table without null strings from fresh filters counts exactly the table's keys and covers it |
| BloomIndex.CompletedRebuildCovers | modules/siddhi-extensions/event-table/src/main/java/org/wso2/siddhi/extension/eventtable/rdbms/DBConfiguration.java:505-550 | a scan from fresh filters that did not throw covers the rows it read |
| BloomIndex.CoversPermutation | modules/siddhi-extensions/event-table/src/main/java/org/wso2/siddhi/extension/eventtable/rdbms/DBConfiguration.java:192-217 | covering depends on the rows held, not on their order |
| BloomIndex.AddPreservesCovers | modules/siddhi-extensions/event-table/src/main/java/org/wso2/siddhi/extension/eventtable/rdbms/DBConfiguration.java:552-558 | adding the complete events a table gained never throws and keeps the filters covering the grown table |
| BloomIndex.IncrementalAddAgreesWithRebuild | modules/siddhi-extensions/event-table/src/main/java/org/wso2/siddhi/extension/eventtable/rdbms/DBConfiguration.java:505-558 | adding events to filters rebuilt from a table gives the filters a rebuild of the grown table gives |
| BloomIndex.ExactDeletePreservesCovers | modules/siddhi-extensions/event-table/src/main/java/org/wso2/siddhi/extension/eventtable/rdbms/DBConfiguration.java:560-566 | uncounting an event when exactly one copy of it left the table never throws and keeps the filters covering the table |
| BloomIndex.AddRemoveRoundTrip | modules/siddhi-extensions/event-table/src/main/java/org/wso2/siddhi/extension/eventtable/rdbms/DBConfiguration.java:552-566 | removing the complete events just added restores the filters exactly |
| BloomIndex.MismatchedDeleteLosesRow | modules/siddhi-extensions/event-table/src/main/java/org/wso2/siddhi/extension/eventtable/rdbms/DBConfiguration.java:174-187 | uncounting the triggering event when the condition deleted another row leaves a table row uncounted |
| EventTable.RunWrite | modules/siddhi-extensions/event-table/src/main/java/org/wso2/siddhi/extension/eventtable/rdbms/DBConfiguration.java:165-181 | a committed write statement was executed |
| EventTable.InsertedRowsComplete | modules/siddhi-extensions/event-table/src/main/java/org/wso2/siddhi/extension/eventtable/rdbms/DBConfiguration.java:122-134 | every event an insert commits is complete |
| EventTable.InsertOneIff | modules/siddhi-extensions/event-table/src/main/java/org/wso2/siddhi/extension/eventtable/rdbms/DBConfiguration.java:124-134 | one event is inserted exactly when its statement commits, the event is complete and no setter is rejected; the chunk aborts exactly when binding throws |
| EventTable.InsertRunStopped | modules/siddhi-extensions/event-table/src/main/java/org/wso2/siddhi/extension/eventtable/rdbms/DBConfiguration.java:122-146 | after an unchecked exception, the rest of the chunk changes nothing |
| EventTable.InsertRunNext | modules/siddhi-extensions/event-table/src/main/java/org/wso2/siddhi/extension/eventtable/rdbms/DBConfiguration.java:124-147 | one more pass of the loop adds the event exactly when its statement commits, stops the chunk when binding throws, and otherwise changes nothing |
| EventTable.InsertRunCommitsInOrder | modules/siddhi-extensions/event-table/src/main/java/org/wso2/siddhi/extension/eventtable/rdbms/DBConfiguration.java:122-147 | when no event of a chunk throws, addEvent completes and commits exactly the events whose statement commits, in chunk order |
| EventTable.InsertRunAbortsIffEscape | modules/siddhi-extensions/event-table/src/main/java/org/wso2/siddhi/extension/eventtable/rdbms/DBConfiguration.java:122-147 | a chunk aborts exactly when one of its events throws while binding |
| EventTable.AbortedChunkLeavesRowsUnindexed | modules/siddhi-extensions/event-table/src/main/java/org/wso2/siddhi/extension/eventtable/rdbms/DBConfiguration.java:115-152 | a cast failure in a later event leaves an earlier committed row in the table and out of the filters |
| EventTable.StockEventCommits | modules/siddhi-extensions/event-table/src/main/java/org/wso2/siddhi/extension/eventtable/rdbms/DBConfiguration.java:124-147 | one well-typed stock event whose statement commits is inserted, and the chunk does not abort |
| EventTable.ChunkWithNullCommitsTwo | modules/siddhi-extensions/event-table/src/main/java/org/wso2/siddhi/extension/eventtable/rdbms/DBConfiguration.java:124-147 | of three stock events whose middle one has a null price, the first and third are committed in order; the null is skipped, so the middle statement keeps a parameter unset, fails to execute and throws nothing past the loop |
| EventTable.UpdateKeepsThreeRows | modules/siddhi-extensions/event-table/src/test/java/org/wso2/siddhi/extension/eventtable/rdbms/UpdateFromRDBMSTestCase.java:80-87 | three stock events sent one by one are all inserted; an update whose assumed database outcome (`UpdateOutcome`) keeps the row count then leaves three rows in the table |
| EventTable.AddStockCountsSymbol | modules/siddhi-extensions/event-table/src/main/java/org/wso2/siddhi/extension/eventtable/rdbms/DBConfiguration.java:552-558 | adding one stock event counts its symbol once in the symbol column's filter, without an exception |
| EventTable.ProbesAfterTwoInserts | modules/siddhi-extensions/event-table/src/test/java/org/wso2/siddhi/extension/eventtable/rdbms/UpdateFromRDBMSTestCase.java:332-340 | after WSO2 and IBM are added to the filters of a cleared table, the symbol filter counts exactly WSO2 and IBM, so BSD is answered absent without a query |
| EventTable.Rebuild | modules/siddhi-extensions/event-table/src/main/java/org/wso2/siddhi/extension/eventtable/rdbms/DBConfiguration.java:505-550 | a rebuild always leaves one filter per attribute |
| EventTable.RebuildCovers | modules/siddhi-extensions/event-table/src/main/java/org/wso2/siddhi/extension/eventtable/rdbms/DBConfiguration.java:505-550 | a rebuild that read the whole table and did not throw covers it |
| EventTable.LostConnectionEmptiesFilters | modules/siddhi-extensions/event-table/src/main/java/org/wso2/siddhi/extension/eventtable/rdbms/DBConfiguration.java:505-549 | a connection failure leaves enabled empty filters that miss a value the table holds |
| EventTable.DeleteKeepsIndex | modules/siddhi-extensions/event-table/src/main/java/org/wso2/siddhi/extension/eventtable/rdbms/DBConfiguration.java:155-190 | uncounting nothing, or the event when exactly one copy of it left the table, keeps the filters covering the table |
| EventTable.DBConfiguration.constructor | modules/siddhi-extensions/event-table/src/main/java/org/wso2/siddhi/extension/eventtable/rdbms/DBConfiguration.java:54-84 | a table opened after a successful initialisation starts with its execution info and the filters disabled |
| EventTable.RunOnFilters | modules/siddhi-extensions/event-table/src/main/java/org/wso2/siddhi/extension/eventtable/rdbms/DBConfiguration.java:552-566 | the nested loops leave the filter array and the exception flag the loop specification gives |
| EventTable.RunOnNextRow | modules/siddhi-extensions/event-table/src/main/java/org/wso2/siddhi/extension/eventtable/rdbms/DBConfiguration.java:553-557 | one pass of the outer loop takes the run over the first j events to the run over j + 1 |
| EventTable.RunOnRow | modules/siddhi-extensions/event-table/src/main/java/org/wso2/siddhi/extension/eventtable/rdbms/DBConfiguration.java:554-556 | the inner loop over the columns of one event, updating the array in place, leaves the filters and the exception flag the loop specification gives |
| EventTable.RunOnCell | modules/siddhi-extensions/event-table/src/main/java/org/wso2/siddhi/extension/eventtable/rdbms/DBConfiguration.java:555 | one pass of the inner loop changes the column's filter as its operation says, or throws |
| EventTable.DBConfiguration.AddToBloomFilters | modules/siddhi-extensions/event-table/src/main/java/org/wso2/siddhi/extension/eventtable/rdbms/DBConfiguration.java:552-558 | the filters count the events' keys; a null value or absent filters end the loop with an exception |
| EventTable.DBConfiguration.RemoveFromBloomFilters | modules/siddhi-extensions/event-table/src/main/java/org/wso2/siddhi/extension/eventtable/rdbms/DBConfiguration.java:560-566 | the filters uncount the events' keys; a null value, a key not counted or absent filters end the loop with an exception |
| EventTable.DBConfiguration.BuildBloomFilters | modules/siddhi-extensions/event-table/src/main/java/org/wso2/siddhi/extension/eventtable/rdbms/DBConfiguration.java:505-550 | fresh filters are enabled and filled by the scan; a completed scan of the whole table leaves the table indexed |
| EventTable.DBConfiguration.AddEvent | modules/siddhi-extensions/event-table/src/main/java/org/wso2/siddhi/extension/eventtable/rdbms/DBConfiguration.java:115-152 | the table and the cache gain exactly the committed events; the filters count them unless the chunk aborted; an indexed table stays indexed |
| EventTable.DBConfiguration.InsertChunk | modules/siddhi-extensions/event-table/src/main/java/org/wso2/siddhi/extension/eventtable/rdbms/DBConfiguration.java:124-147 | the loop over the chunk appends exactly the committed events to the table, and to the cache when there is one, collects them for the filters when those are enabled, and stops at the first unchecked exception |
| EventTable.DBConfiguration.InsertOne | modules/siddhi-extensions/event-table/src/main/java/org/wso2/siddhi/extension/eventtable/rdbms/DBConfiguration.java:125-146 | one event is appended to the table exactly when its statement commits, and then it is complete; an escaping binding exception is reported |
| EventTable.DBConfiguration.DeleteEvent | modules/siddhi-extensions/event-table/src/main/java/org/wso2/siddhi/extension/eventtable/rdbms/DBConfiguration.java:155-190 | a committed delete replaces the table by one holding a sub-multiset of its rows, as many fewer as the statement reports; the triggering event is uncounted exactly when rows were deleted and the filters are enabled; the index is kept when the deleted rows are exactly that event |
| EventTable.DBConfiguration.UpdateEvent | modules/siddhi-extensions/event-table/src/main/java/org/wso2/siddhi/extension/eventtable/rdbms/DBConfiguration.java:192-217 | a committed update replaces the table by one of the same size; executed updated rows with filters enabled trigger a rebuild, even when the commit failed; otherwise the filters are untouched and an indexed table stays indexed |
| EventTable.DBConfiguration.DeleteRows | modules/siddhi-extensions/event-table/src/main/java/org/wso2/siddhi/extension/eventtable/rdbms/DBConfiguration.java:155-184 | the delete statement replaces the table by the committed outcome, a sub-multiset with as many fewer rows as reported; a throwing binding is reported; the event is listed for uncounting exactly when rows were deleted and the filters are enabled |
| EventTable.DBConfiguration.SelectEvent | modules/siddhi-extensions/event-table/src/main/java/org/wso2/siddhi/extension/eventtable/rdbms/DBConfiguration.java:219-268 | the first result row decoded by attribute type, or none; a complete row reads back as itself; an escaping binding exception aborts |
| EventTable.DBConfiguration.CheckExistence | modules/siddhi-extensions/event-table/src/main/java/org/wso2/siddhi/extension/eventtable/rdbms/DBConfiguration.java:270-291 | true exactly when the query runs and returns a row |

## Left out

- The JDBC driver, data source, connections, commit and close are outcome parameters. Each operation takes the outcome of each JDBC call it makes. Connection release (`cleanUpConnections`) and logging have no effect on the model.
- The CountingBloomFilter's hashing and false positives are left out. A filter is the exact multiset of the keys it counts. A key the model counts also tests present in the real filter, so the no-false-negative results carry over. The converse fails: a key the model calls absent can test present in the real filter.
- BloomIndex.ApplyCellEffect: a delete of a key the real filter only falsely reports present does not throw; it decrements the buckets that key hashes to, which belong to other keys. The model rejects every delete of an uncounted key.
- `setBloomFilterProperties`, the filter size and the hash count only parametrise the hashing, so they are left out.
- `initializeConnection`, table creation, and the condition, update and delete statements and their column orders are left out. Those come from the condition compiler, which is not part of this model. In the model, initialisation leaves those orders empty, and the operations take whatever orders the execution info holds.
- A table is modelled only after a successful initialisation. The constructor's failure path leaves a null dialect, and with it every later statement fails. That path is not modelled.
- `tableDefinition.getAttributeList()` is taken to be the same list as the attribute list.
- Float and double values are carried as their `toString()` text. Java's floating-point formatting is left out.
- Integers are unbounded. No 32- or 64-bit overflow occurs in this code.
- Upper and lower case follow the ASCII letters only.
- `synchronized` on the filter operations and concurrent callers are left out. Each operation runs alone.
- EventTable.DBConfiguration.AddEvent: every event is taken to carry one value per attribute, as the stream that feeds the table is defined by the table's attribute list. A shorter event would throw in `populateStatement`.
- EventTable.DBConfiguration.SelectEvent: the result set is the rows read before it ended or threw. Java's `StreamEvent` object and its timestamps are left out.
- EventTable.DBConfiguration.DeleteEvent: the table after a committed delete is a parameter. It is only required to lack as many of the old rows as the statement reports (`DeleteOutcome`). The condition is evaluated by the database, which is not part of this model.
- EventTable.DBConfiguration.UpdateEvent: the table after a committed update is a parameter, for the same reason. It is only required to have as many rows as before, and the same rows when the statement reports none updated (`UpdateOutcome`).
- Statements.RenderTemplate: the rendering theorem needs placeholder texts that do not overlap one another, and literals and arguments that hold none of their first characters. The placeholder constants are not part of this model; they are parameters, and brace tokens such as `{{TABLE_NAME}}` meet the condition (`Statements.BracedTokensApart`). Outside it, `replace` can also hit text that an earlier argument brought in, and the model does not say what comes out.
- EventTable.DBConfiguration.BuildBloomFilters: the backing table's columns are taken to be in attribute order. The scan reads result-set column i + 1 by position, while `selectEvent` reads the columns by name. A table this class creates has that order. A pre-existing table with another column order or an extra leading column would make the scan count another column's values, or throw an SQLException that ends it early, and the filters would then give false negatives. That case is not modelled.
- EventTable.DBConfiguration.BuildBloomFilters: a scan is a number of rows read before the result set ends or throws an SQLException. Which rows the database returns first is left out; they are taken in table order.
