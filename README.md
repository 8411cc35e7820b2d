# serie-a-db in Dafny

A model of the core of `serie-a-db`, a Python tool that scrapes Italian football data
(seasons, match days, matches, players, grades) from the Serie A and fantacalcio.it
websites into a SQLite warehouse, with proofs about the model.

The model has four parts.

- **SQL definition text.** Splitting scripts into statements, the literal-pattern
  validators, the column heuristic over a `CREATE TABLE ( ... )` body, the generated
  statements, and the `depends_on` reference tests. Modules `Utils`, `SqlParsing`,
  `ParseSqlScript`, `DefinitionScripts`, `DefinitionQuery`.
- **The refresh engine.**
  - `Client.Db` is a class whose state is the tables, the statements sent (`journal`),
    the `ft_tables_update` log, the `dm_parameter` rows and a logical clock in
    milliseconds.
  - SQL itself is an abstract `Engine` function passed in at construction.
  - `Table` and `Notepad` model the table kinds and their `update` sequences.
  - `TableUpdater` models the draft `DbTable` class.
  - `DbUpdate.DbUpdater` models the recursive updater. A ghost rank map makes the
    dependency relation acyclic.
- **Cross-source player matching.** `PlayerMapping` covers the exact pass and the
  name-only pass over per-team pools.
- **The extractors' pure rules and loops.** Role and status translation, season
  filters and status inference, the website's address rules, and the scrape loops that
  stop at the first error. Pages enter as values. Modules `SharedDefinitions`,
  `SerieASeasons`, `Extraction`, `FantacalcioWebsite`, `FpiPlayerMatch`, `FpiPlayer`,
  `FantacalcioPuntoIt`, `FmPlayer`, `StMatch`, `DmMatchDay`, `DmSeason`,
  `DmSeasonUpdate`.

Python exceptions become `Failure`/`Fail` values of one `Exceptions.Error` datatype,
one constructor per exception class. The names that drifted in the source are treated
as one function or error:

- `extract_columns_from_create_statement` and `extract_attributes_from_create_statement`;
- `InvalidStatementError` and `IncompatibleDataError`, which are absent from
  `serie_a_db/exceptions.py`;
- `ColumnsNotFoundError`, whose `__init__` takes a query path and a query
  (`serie_a_db/exceptions.py:52`), although `serie_a_db/sql_parsing.py:83,103` and
  `serie_a_db/db/update_tables/parse_sql_script.py:72` pass only the statement. As written
  those raises end in a `TypeError`; `SqlParsing.ExtractAttributesOf` and
  `ParseSqlScript.ExtractColumnsOf` return `ColumnsNotFoundError` as intended;
- `TABLES.keys()` in `CoreTable.depends_on` (`serie_a_db/db/notepad.py:43`), where
  `TABLES` is a tuple (`serie_a_db/db/update_tables/__init__.py:6-9`). As written the
  property raises `AttributeError`. `Notepad.CoreDependsOn` takes the registry as a set
  of names instead, which is what the keys of `TABLES_DICT` (`__init__.py:10`) are;
- `BoundaryNotFoundError`, imported by `serie_a_db/db/update_tables/table_updater.py:8`
  but absent from `serie_a_db/exceptions.py`. `TableUpdater.GetBoundary` returns it as
  its own error constructor;
- `DefinitionScript`, imported by `table_updater.py:7` from `parse_sql_script.py`, which
  defines only functions. `TableUpdater` uses the `DefinitionScript` class of
  `serie_a_db/update/definitions_script_reading.py` (module `DefinitionScripts`), whose
  statements the draft reads;
- `CoreTable` and `StagingTable`, imported by `update_tables/__init__.py:3` from
  `table_updater.py`, which defines only `DbTable`. `Notepad` models the two classes
  as `serie_a_db/db/notepad.py` defines them.

Where the docstrings and the code disagree, the code is followed:

- `DefinitionScript`'s statement-count test is `n != 1 and n > 3` on the number of `;`.
  That test rejects only scripts with more than three `;`, although the docstring
  promises "one or three or more statements" (`DefinitionScripts.StatementCountRejectsOnlyAboveThree`).
- `StagingTable.update` always drops the staging table first, whereas the tests
  describe staging data that survives schema drift.

`was_updated_since` is called by `serie_a_db/db/update.py` but the client does not
define it. The model assumes it means "the table has a log entry stamped at or after the
cutoff". `Client.WasUpdatedSinceIsLatest` proves that this equals "`last_updated` is at
or after the cutoff".

## Model

| member | source | states |
|---|---|---|
| Utils.NormalizedShape | serie_a_db/utils.py:4-6 | the normalised text has no newline, no leading or trailing whitespace and never two adjacent spaces |
| Utils.NormalizedTokens | serie_a_db/utils.py:4-6 | normalising keeps the sequence of whitespace-separated tokens |
| Utils.NormalizedIsJoinedTokens | serie_a_db/utils.py:4-6 | the normalised text is the tokens joined by single spaces |
| Utils.NormalizeIdempotent | serie_a_db/utils.py:4-6 | normalising twice equals normalising once |
| Utils.NormalizeEqualIffSameTokens | serie_a_db/utils.py:4-6 | two strings normalise alike iff they have the same tokens, i.e. differ only in runs of whitespace |
| Utils.BlankIffAllSpace | serie_a_db/utils.py:12 | a piece is dropped exactly when it consists of whitespace only |
| Utils.NonBlank | serie_a_db/utils.py:9-13 | the kept pieces are exactly the non-blank ones, none added |
| Utils.NonBlankAppend | serie_a_db/utils.py:9-13 | filtering distributes over concatenation, so the original order is kept |
| Utils.SplitNoEmptyBounds | serie_a_db/utils.py:9-13 | with `maxsplit = k >= 0` at most k+1 pieces; with -1 no piece contains the separator; no piece is blank |
| Utils.SplitNoEmptyOfJoin | serie_a_db/utils.py:9-13 | non-blank pieces free of a one-character separator, joined with it, split back into exactly those pieces |
| SqlParsing.SplitStatementsShape | serie_a_db/sql_parsing.py:13-22 | a success holds exactly `num_expected` non-blank statements without `;`; a failure is `NumberOfStatementsError` with a different count |
| SqlParsing.SplitStatementsOfJoin | serie_a_db/sql_parsing.py:13-22 | a script of non-blank statements joined by `;` yields them iff their number is the expected one, else the count error naming it |
| SqlParsing.RequirePatternSpec | serie_a_db/sql_parsing.py:25-46 | a validator returns its input unchanged iff the input can be cut around the pattern, else `InvalidStatementError(pattern)` |
| SqlParsing.ValidatorsAcceptTheirPattern | serie_a_db/sql_parsing.py:25-46 | each of the three validators accepts any statement holding its own literal pattern |
| SqlParsing.DependsOn | serie_a_db/sql_parsing.py:49-55 | the intended reading of Findings row 1: the dependencies are a subset of the tables, and a table is included iff a space, its name (ignoring case) and a non-word, non-hyphen character follow each other in the statement |
| SqlParsing.DependsOnAsWritten | serie_a_db/sql_parsing.py:49-55 | the regex as written also returns a subset of the tables |
| SqlParsing.DependsOnAsWrittenCountsLongerName | serie_a_db/sql_parsing.py:54 | as written, a name followed by any character other than `/`, `w`, `W`, `_`, `-` counts as a reference, letters and digits included |
| SqlParsing.DependsOnAsWrittenExample | serie_a_db/sql_parsing.py:54 | as written, ` dm_teams` counts as a reference to `dm_team` |
| SqlParsing.OtherIdentifierIsNoReference | serie_a_db/sql_parsing.py:49-55 | with the intended class, a statement mentioning only a different identifier depends on nothing |
| SqlParsing.StagingReferenceIsNoReference | serie_a_db/sql_parsing.py:49-55 | the statement ` <name>_staging;` depends on nothing under either character class, the intended one and the one as written |
| SqlParsing.StagingMentionIsNoMatch | serie_a_db/sql_parsing.py:54 | where ` <name>_staging` occurs, ` <name>` occurs too and is followed by `_`, which both character classes reject |
| SqlParsing.OnlyStagingMentions | serie_a_db/sql_parsing.py:49-55 | in any statement whose every mention of ` <name>` is the start of ` <name>_staging`, `<name>` is no dependency under either character class |
| SqlParsing.LastIndexOf | serie_a_db/sql_parsing.py:81 | the index found holds the character and no later index does; none iff the character is absent |
| SqlParsing.ParenBodyNoneIff | serie_a_db/sql_parsing.py:78-83 | there is no body exactly when no `(` comes before a `)` |
| SqlParsing.ParenBodyOf | serie_a_db/sql_parsing.py:78-83 | the body is the text between the first `(` and the last `)` |
| SqlParsing.PipelineIsLineByLine | serie_a_db/sql_parsing.py:84-101 | normalise, take first words and drop keywords equals reading each line's column in order |
| SqlParsing.ColumnCandidatesOf | serie_a_db/sql_parsing.py:84-101 | the candidates are the first token of each non-blank body line, trailing comma stripped and keywords dropped, in order |
| SqlParsing.ExtractAttributesOf | serie_a_db/sql_parsing.py:84-104 | extraction returns those columns, or `ColumnsNotFoundError` when no line declares one |
| SqlParsing.ExtractAttributesWithoutBody | serie_a_db/sql_parsing.py:79-83 | without a `(...)` pair extraction raises `ColumnsNotFoundError` |
| SqlParsing.ExtractedColumnsShape | serie_a_db/sql_parsing.py:96-104 | extracted columns are never empty as a list, never PRIMARY/CHECK/FOREIGN/REFERENCES/ON in any case, and never end with a comma |
| SqlParsing.InsertTemplatePlaceholders | serie_a_db/sql_parsing.py:58-70 | the populate template holds exactly one `?` per column |
| SqlParsing.DerivePopulateStagingOf | serie_a_db/sql_parsing.py:58-70 | the derived statement is the template over the extracted columns, in order, with one `?` each, or the column error |
| SqlParsing.InsertTemplateColumnOrder | serie_a_db/sql_parsing.py:58-70 | the template's column list reads back, split at `, `, as the columns in their order |
| SqlParsing.DropStatementPieces | serie_a_db/sql_parsing.py:107-109 | splitting the drop statement at `;` gives `DROP TABLE IF EXISTS <name>` and an empty tail |
| SqlParsing.DropStatementIsOneStatement | serie_a_db/sql_parsing.py:107-109 | the drop statement splits into one statement |
| ParseSqlScript.DependsOn | serie_a_db/db/update_tables/parse_sql_script.py:49-51 | the older dependency set is a subset of the tables |
| ParseSqlScript.DependsOnSpec | serie_a_db/db/update_tables/parse_sql_script.py:49-51 | a table is a dependency iff its name occurs anywhere as a plain substring |
| ParseSqlScript.StagingReferenceCounts | serie_a_db/db/update_tables/parse_sql_script.py:49-51 | there a reference to `<name>_staging` does count as one to `<name>` |
| ParseSqlScript.ExtractColumnsOf | serie_a_db/db/update_tables/parse_sql_script.py:62-90 | once a body is found, every line's first word is kept, in order, except PRIMARY and CHECK (the newer heuristic also drops FOREIGN, REFERENCES and ON) |
| ParseSqlScript.ExtractColumnsFailsOnlyWithoutBody | serie_a_db/db/update_tables/parse_sql_script.py:68-72 | `ColumnsNotFoundError` is raised iff there is no `(...)` body |
| ParseSqlScript.EmptyBodyGivesNoColumns | serie_a_db/db/update_tables/parse_sql_script.py:82-90 | an empty body gives an empty column list rather than an error |
| ParseSqlScript.InferPopulateStagingOf | serie_a_db/db/update_tables/parse_sql_script.py:54-59 | the inferred insert lists the columns in order with one `?` each |
| DefinitionScripts.Make | serie_a_db/update/definitions_script_reading.py:26-45 | construction succeeds iff the model validator passes, keeping the script and name; a failure is either the unwrapped `IndexError` of a blank script or pydantic's `ValidationError` wrapping the count, create or insert error |
| DefinitionScripts.StatementCountRejectsOnlyAboveThree | serie_a_db/update/definitions_script_reading.py:46-49 | construction fails with `ValidationError` wrapping the count error iff the script has more than three `;` |
| DefinitionScripts.BlankScriptRaisesIndexError | serie_a_db/update/definitions_script_reading.py:38-40 | an all-blank script with at most three `;` fails with `IndexError`, which pydantic does not wrap |
| DefinitionScripts.MadeScriptShape | serie_a_db/update/definitions_script_reading.py:27-62 | a constructed script's first piece has the prod create pattern; with more pieces there are three, with the staging create and the insert patterns |
| DefinitionScripts.ThreePartScriptAccepted | serie_a_db/update/definitions_script_reading.py:27-62 | a three-piece script is accepted iff each piece holds its pattern and the insert piece holds at most one more `;` |
| DefinitionScripts.TwoStatementScriptRejected | serie_a_db/update/definitions_script_reading.py:38-44 | a script of exactly two non-blank pieces is always refused |
| DefinitionScripts.SplitParts | serie_a_db/update/definitions_script_reading.py:112-118 | the staging and insert parts are both present or both absent; when absent the prod part is the whole script |
| DefinitionScripts.ThreePartScript | serie_a_db/update/definitions_script_reading.py:112-118 | `p0;p1;p2` gives `p0;` as prod, `p1;` as staging and `p2` verbatim as the insert |
| DefinitionScripts.SingleStatementScript | serie_a_db/update/definitions_script_reading.py:75-85 | a one-statement script is checked on its statement alone, and its staging create is the prod create with the name suffixed and `IF NOT EXISTS` removed |
| DefinitionScripts.FirstTokens | serie_a_db/update/definitions_script_reading.py:129-141 | one first token per clause, or `IndexError` iff some clause is blank |
| DefinitionScripts.ExtractColumnsFailsOnlyWithoutBody | serie_a_db/update/definitions_script_reading.py:129-141 | `ColumnsNotFoundError` naming the script is raised iff there is no `(...)` pair |
| DefinitionScripts.ExtractedColumnsAreWords | serie_a_db/update/definitions_script_reading.py:129-141 | every extracted column is one word without a comma |
| DefinitionScripts.ExtractColumnsOfNames | serie_a_db/update/definitions_script_reading.py:129-141 | bare comma-separated names inside the parentheses come back in order |
| DefinitionScripts.SetClauses | serie_a_db/update/definitions_script_reading.py:87-102 | one `col = excluded.col` per column, in order |
| DefinitionScripts.UpsertInsertsIntoProd | serie_a_db/update/definitions_script_reading.py:87-102 | the derived upsert holds `INSERT INTO <name>`, so it passes the insert check |
| DefinitionScripts.UpsertLists | serie_a_db/update/definitions_script_reading.py:87-102 | the SELECT list reads back as the columns in order, and the SET list as one clause per column |
| DefinitionScripts.DerivedInsertFromColumns | serie_a_db/update/definitions_script_reading.py:87-102 | without a written insert, the insert is the upsert built from the prod columns |
| DefinitionScripts.InsertValuesPlaceholders | serie_a_db/update/definitions_script_reading.py:105-110 | the staging insert has one `?` per staging column and lists those columns in order |
| DefinitionQuery.Make | serie_a_db/update.py:31-36 | construction succeeds iff the query holds `CREATE TABLE IF NOT EXISTS <name> `; otherwise pydantic's `ValidationError` wrapping the validator's `ValueError` with its message |
| DefinitionQuery.MakeRejectsSelect | serie_a_db/update.py:31-36 | a query without the create pattern is refused with pydantic's `ValidationError`, which an `except ValueError` catches |
| DefinitionQuery.ProdIsQuery | serie_a_db/update.py:38-41 | `prod` gives back the query it was built from |
| DefinitionQuery.StagingIsJoinOfSplits | serie_a_db/update.py:43-48 | the staging text replaces every occurrence of the name with `<name>_staging`, then deletes every `IF NOT EXISTS` |
| DefinitionQuery.StagingOfStandardCreate | serie_a_db/update.py:43-48 | `CREATE TABLE IF NOT EXISTS <name><rest>` derives, up to whitespace, to `CREATE TABLE <name>_staging<rest>` whenever the rest mentions neither the name nor `IF NOT EXISTS`, the name holds no `I`, and the name's first letter is not in the create prefix |
| DefinitionQuery.StagingOfDummyCreate | tests/test_update.py:31-35 | the update tests' `CREATE TABLE IF NOT EXISTS dm_dummy (dummy_name INTEGER);` derives, up to whitespace, to `CREATE TABLE dm_dummy_staging (dummy_name INTEGER);` |
| DefinitionQuery.StagingExample | serie_a_db/update.py:43-48 | `CREATE TABLE IF NOT EXISTS dm_table (note);` derives, up to whitespace, to `CREATE TABLE dm_table_staging (note);` |
| Table.MakeWarehouseTable | serie_a_db/db/table.py:40-49 | a warehouse table exists iff the definition passes the create check and the populate statement the insert check |
| Table.WarehouseFromScript | serie_a_db/db/table.py:52-59 | a warehouse table is built iff the script splits into exactly two statements, the first holding the create pattern and the second the populate pattern; it is then the table of those two statements; otherwise the error is the split's, or `InvalidStatementError` naming the first pattern that is missing |
| Table.StagingFromScript | serie_a_db/db/table.py:92-105 | a staging table is read iff the script is one statement holding `CREATE TABLE <name> ` |
| Table.DependsOn | serie_a_db/db/table.py:62-65 | dependencies lie in the schema keys and never include the table itself; a staging table has none; a warehouse table's are the keys its populate statement references, read with the intended character class |
| Table.ErrorIfDataIncompatible | serie_a_db/db/table.py:138-152 | passes iff the batch is non-empty and its first and last records' fields equal the columns; an empty batch raises `IndexError` |
| Table.MiddleRecordsUnchecked | serie_a_db/db/table.py:138-152 | a mismatching record between two matching ones is not detected |
| Table.LoadStep | serie_a_db/db/table.py:126-135 | the bulk insert is ready only when extraction succeeded and the records fit the staging columns |
| Table.StagingCheckBeforeWrite | serie_a_db/db/table.py:126-135 | a failing compatibility check fails the update with no insert: at most the drop and the create ran |
| Table.StagingUpdateOrder | serie_a_db/db/table.py:126-135 | a successful staging update ran drop, create, the bulk insert of every extracted record, then commit |
| Table.StagingUpdatePass | serie_a_db/db/table.py:126-135 | a successful staging update ran both phases in full |
| Table.WarehouseUpdateOrder | serie_a_db/db/table.py:67-71 | a warehouse update succeeds iff it ran the definition, the populate statement and the commit, in order |
| Table.UpdateWarehouse | serie_a_db/db/table.py:67-71 | the client's new tables and journal are those of running the two statements then the commit, stopping at the first failure; the log is untouched |
| Table.UpdateStaging | serie_a_db/db/table.py:126-135 | the client's new tables and journal are those of the staging sequence; the log is untouched |
| Table.Update | serie_a_db/db/table.py:67-135 | `update` on either kind of table has the effect of that kind's sequence |
| Client.Run | serie_a_db/db/client.py:33-38 | statements run in order up to the first failure; success iff all ran; the tables are those after the ones that ran |
| Client.RunCons | serie_a_db/db/client.py:33-38 | a failing first statement stops the run; otherwise the rest runs from its result |
| Client.Db.constructor | serie_a_db/db/client.py:18-22 | a fresh client has no tables, no journal, empty meta tables, and a valid clock |
| Client.Db.Run1 | serie_a_db/db/client.py:33-38 | a statement SQLite accepts updates the tables and is journalled; a rejected one changes nothing and is reported |
| Client.Db.CommitChanges | serie_a_db/db/client.py:44-46 | a commit is journalled and changes nothing else |
| Client.Db.CountRows | serie_a_db/db/client.py:48-50 | the row count exists iff the table does, and is its number of rows; otherwise SQLite's "no such table" `OperationalError` |
| Client.LatestUpdate | serie_a_db/db/client.py:110-121 | `last_updated` is none iff the table has no log entry, else the greatest timestamp among its entries |
| Client.Db.WasUpdatedToday | serie_a_db/db/client.py:103-108 | true iff the table has a last update and its day is today's |
| Client.NeverLoggedNotToday | serie_a_db/db/client.py:103-108 | a never-logged table was not updated today |
| Client.Db.LogTableUpdate | serie_a_db/db/client.py:88-101 | appends exactly one entry (name, current time, current row count) and advances the clock, keeping timestamps increasing; a missing table raises SQLite's "no such table" `OperationalError` and logs nothing |
| Client.LatestIsLast | serie_a_db/db/client.py:88-101 | with increasing timestamps the latest update of the logged table is the new entry, and every other table's is unchanged |
| Client.LogKeepsHistory | serie_a_db/db/client.py:88-101 | appending at the current clock keeps the log increasing and makes the entry later than every earlier update |
| Client.LookupParameter | serie_a_db/db/client.py:82-86 | the value of the first row under the key; none iff no row has it |
| Client.ParameterRows | serie_a_db/db/client.py:71-80 | one row per map entry, in the map's order |
| Client.LookupAppended | serie_a_db/db/client.py:71-86 | a parameter stored under a new key reads back as its value |
| Client.LookupInRows | serie_a_db/db/client.py:71-86 | each stored parameter reads back as its value |
| Client.Db.SetParameters | serie_a_db/db/client.py:71-80 | appends one row per entry and commits; every new key then reads back as its value |
| Client.Db.GetParameter | serie_a_db/db/client.py:82-86 | the stored value, or an error when no row has the key |
| Client.Db.WasUpdatedSince | serie_a_db/db/update.py:46-47 | true iff the table has a log entry at or after the cutoff |
| Client.WasUpdatedSinceIsLatest | serie_a_db/db/update.py:46-47 | that holds iff the table's latest update is at or after the cutoff |
| Client.Db.InsertLogRow | serie_a_db/db/update_tables/table_updater.py:108-118 | the draft updater's log row is appended and nothing else changes |
| DbUpdate.DbUpdater.constructor | serie_a_db/db/update.py:12-23 | the run's cutoff is fixed once, to the clock at construction |
| DbUpdate.DbUpdater.UpdateTableAndUpstreamDependencies | serie_a_db/db/update.py:40-50 | dependencies first, then the table: on success the table is logged in the run; a failure never reports a table as newly logged; a table already logged is left alone; a dependency-free table not yet logged gets exactly one new entry; earlier log entries are kept |
| DbUpdate.DbUpdater.UpdateUpstreamDependencies | serie_a_db/db/update.py:42-43 | on success every dependency is logged in the run and only lower-ranked tables were logged; a table already logged, or one without dependencies, changes nothing |
| DbUpdate.DbUpdater.UpdateItselfIfNeeded | serie_a_db/db/update.py:45-50 | a table already updated in the run is skipped; otherwise success iff it gets logged, with exactly one entry |
| DbUpdate.DbUpdater.RefreshAndLog | serie_a_db/db/update.py:49-50 | a successful update is followed by exactly one log entry for the table; a failing one logs nothing |
| DbUpdate.DbUpdater.UpdateTables | serie_a_db/db/update.py:29-38 | on success every given table is logged in the run; for fresh independent tables the new log names are the tables in the given order |
| DbUpdate.DbUpdater.UpdateAllTables | serie_a_db/db/update.py:25-27 | on success every schema table is logged in the run |
| DbUpdate.DbUpdater.DepsOfLoggedAreLogged | serie_a_db/db/update.py:40-50 | a table logged in the run has all its dependencies logged in the run |
| DbUpdate.CycleNeverReturns | serie_a_db/db/update.py:40-47 | as written, two tables that depend on each other make the recursion on either of them exceed every nesting depth, so it recurses without bound and ends in `RecursionError` |
| DbUpdate.RankedReturns | serie_a_db/db/update.py:40-43 | when a rank lies above every dependency, the recursion on a table returns within its rank plus one nested calls |
| DbUpdate.DbUpdater.WellFormedReturns | serie_a_db/db/update.py:40-43 | on a well-formed schema the recursion returns on every table |
| DbUpdate.DbUpdater.DependentLoggedAfterSource | serie_a_db/db/update.py:40-50 | a dependent's last update is strictly later than each dependency's |
| Notepad.CoreTableFromScript | serie_a_db/db/notepad.py:32-39 | a core table is read iff the script is two statements passing the create and insert checks |
| Notepad.StagingTableFromScript | serie_a_db/db/notepad.py:64-76 | a staging table is read iff the script is one statement holding the staging create pattern |
| Notepad.CoreDependsOn | serie_a_db/db/notepad.py:42-44 | dependencies lie in the registry, exclude the table itself, and are the names its populate statement contains |
| Notepad.CoreDependsOnMonotone | serie_a_db/db/notepad.py:42-44 | registering more tables never drops a dependency, and the dependencies within a smaller registry are the larger registry's dependencies that it holds |
| Notepad.UpdateCore | serie_a_db/db/notepad.py:46-48 | the client's new state is that of running the two statements |
| Notepad.CoreUpdateDoesNotCommit | serie_a_db/db/notepad.py:46-48 | the core update never commits, and succeeds iff both statements ran |
| Notepad.StagingLoadStep | serie_a_db/db/notepad.py:92-97 | the load is ready only when a callable was given, returned records, and they fit the columns; without a callable `TypeError` |
| Notepad.StagingCheckBeforeWrite | serie_a_db/db/notepad.py:92-97 | a failing check fails the update with at most the create done |
| Notepad.StagingUpdateOrder | serie_a_db/db/notepad.py:92-97 | a successful update creates (no drop) and then loads every record |
| Notepad.UpdateStaging | serie_a_db/db/notepad.py:92-97 | the client's new state is that of the staging sequence |
| TableUpdater.GetBoundary | serie_a_db/db/update_tables/table_updater.py:69-77 | the value under the key, or `BoundaryNotFoundError` iff the key is absent |
| TableUpdater.DefaultBoundariesHoldNothing | serie_a_db/db/update_tables/table_updater.py:54-66 | without an override no boundary can be read |
| TableUpdater.LogTimestamp | serie_a_db/db/update_tables/table_updater.py:108-118 | the logged time is the clock truncated to the second |
| TableUpdater.SameSecondSameTimestamp | serie_a_db/db/update_tables/table_updater.py:108-118 | two updates within the same second log the same time |
| TableUpdater.LoadStagingStep | serie_a_db/db/update_tables/table_updater.py:88-106 | the staging load is ready only when the records fit the staging columns |
| TableUpdater.DraftCheckBeforeWrite | serie_a_db/db/update_tables/table_updater.py:39-52 | mismatching records fail the update before any insert: at most the two creates ran |
| TableUpdater.DraftUpdateOrder | serie_a_db/db/update_tables/table_updater.py:39-52 | a successful run executes create prod, create staging, the bulk load, the staging-to-prod insert, in that order |
| TableUpdater.PipelinePass | serie_a_db/db/update_tables/table_updater.py:39-52 | a successful pipeline ran the creates, the load and the insert |
| TableUpdater.ProdCreateFailureNamesStatement | serie_a_db/db/db.py:24-29 | when SQLite refuses the prod create with an `OperationalError`, `update` stops before anything ran, with `Error executing: <create statement>` |
| TableUpdater.LoadFailureIsNotRewrapped | serie_a_db/db/update_tables/table_updater.py:104-106 | when SQLite refuses the staging load, `update` fails with SQLite's own error, since `cursor.executemany` bypasses `Db.execute` |
| TableUpdater.DbTable.Update | serie_a_db/db/update_tables/table_updater.py:39-52 | the client's tables are those after the draft sequence; success iff the sequence passed and the table exists, and then one log row (name, second-precision time, row count) and a commit follow; a failed sequence returns its error, an `OperationalError` of a statement run through `Db.execute` becoming `Error executing: <statement>` (db/db.py:24-29); a missing table after a passed sequence returns `Error executing: SELECT COUNT(*) FROM <name>` |
| TableUpdater.DbTable.constructor | serie_a_db/db/update_tables/table_updater.py:19-22 | the table keeps its client, script, name and extraction callable |
| TableUpdater.DbTable.MockExtractResponse | serie_a_db/db/update_tables/table_updater.py:82-85 | afterwards extraction gives the data whatever the boundaries |
| TableUpdater.DbTable.LogUpdateInMetaTable | serie_a_db/db/update_tables/table_updater.py:108-118 | appends one row (name, second-precision time, row count); a missing table raises `OperationalError("Error executing: SELECT COUNT(*) FROM <name>")` from the draft client's `count_rows` and logs nothing |
| PlayerMapping.ValidateRecord | serie_a_db/data_extraction/table_specific_extractors/st_player_cross_source_mapping.py:78-93 | a record is built iff the code is positive and the role valid, else `ValidationError` |
| PlayerMapping.Structure | serie_a_db/data_extraction/table_specific_extractors/st_player_cross_source_mapping.py:78-93 | succeeds iff every row is valid; then every row's record is in its team's pool and every pooled record comes from a row of that team |
| PlayerMapping.StructuredNamesAreLowerCase | serie_a_db/data_extraction/table_specific_extractors/st_player_cross_source_mapping.py:78-93 | every pooled record carries the lower-cased name and the code of one of its team's raw rows |
| PlayerMapping.Remove | serie_a_db/data_extraction/table_specific_extractors/st_player_cross_source_mapping.py:113-121 | removal drops exactly that record and keeps the pool duplicate-free |
| PlayerMapping.FindPartner | serie_a_db/data_extraction/table_specific_extractors/st_player_cross_source_mapping.py:107-121 | the first matching player of the pool, or none iff none matches |
| PlayerMapping.ScanAsWritten | serie_a_db/data_extraction/table_specific_extractors/st_player_cross_source_mapping.py:107-121 | the loop as written succeeds iff at most one pool player matches, pairing the fm player with each match, and otherwise raises `KeyError` with the name |
| PlayerMapping.HomonymsInOnePool | serie_a_db/data_extraction/table_specific_extractors/st_player_cross_source_mapping.py:107-121 | a legal pool can hold two players an fm player matches in both passes |
| PlayerMapping.MatchTeam | serie_a_db/data_extraction/table_specific_extractors/st_player_cross_source_mapping.py:107-121 | one team's pass yields one-to-one matching pairs, and the leftovers are the pools minus the paired players |
| PlayerMapping.MatchingPass | serie_a_db/data_extraction/table_specific_extractors/st_player_cross_source_mapping.py:107-138 | a pass matches every fm team on its own and leaves fpi teams without fm players untouched |
| PlayerMapping.FirstUncoveredTeam | serie_a_db/data_extraction/table_specific_extractors/st_player_cross_source_mapping.py:111 | the first fm team with players but no fpi pool, or none iff every such team has one |
| PlayerMapping.PassMappingsMembers | serie_a_db/data_extraction/table_specific_extractors/st_player_cross_source_mapping.py:113-118 | a pass yields one mapping with the season and both codes for each pair, and nothing else |
| PlayerMapping.RaiseIfUnmatched | serie_a_db/data_extraction/table_specific_extractors/st_player_cross_source_mapping.py:168-176 | passes iff no fm player is left, else `ValueError` |
| PlayerMapping.MembersOfEmpty | serie_a_db/data_extraction/table_specific_extractors/st_player_cross_source_mapping.py:168-176 | the set of leftovers is empty iff the pool is |
| PlayerMapping.ExactPartnerFirst | serie_a_db/data_extraction/table_specific_extractors/st_player_cross_source_mapping.py:107-138 | an fm player with a same-name-and-role partner and no fm teammate of the same name and role is paired by the first pass with such a partner |
| PlayerMapping.ExactPartnersPreferred | serie_a_db/data_extraction/table_specific_extractors/st_player_cross_source_mapping.py:107-138 | after both passes such a player (no same-name-and-role fm teammate) is mapped to a same-name-and-role fpi player |
| PlayerMapping.MappingsJustified | serie_a_db/data_extraction/table_specific_extractors/st_player_cross_source_mapping.py:96-166 | every mapping carries the season and pairs same-team namesakes |
| PlayerMapping.EveryFmPlayerMapped | serie_a_db/data_extraction/table_specific_extractors/st_player_cross_source_mapping.py:96-166 | once no fm player is left, each one has a mapping to a same-team namesake |
| PlayerMapping.FindPlayerMappings | serie_a_db/data_extraction/table_specific_extractors/st_player_cross_source_mapping.py:96-176 | with the intended scan of Findings row 2 (as written, namesakes can raise `KeyError` too): `KeyError` iff some fm team with players has no fpi pool; when every team is covered, success iff in every team each fm name has at least as many fpi bearers as fm ones, whatever order the sets are read in; a failure is otherwise `ValueError` for unmatched players; mappings are justified, cover every fm player and prefer exact partners |
| PlayerMapping.PairedNamesakes | serie_a_db/data_extraction/table_specific_extractors/st_player_cross_source_mapping.py:107-138 | a one-to-one run of matching pairs pairs as many fm as fpi players of each name |
| PlayerMapping.LeftNamesakes | serie_a_db/data_extraction/table_specific_extractors/st_player_cross_source_mapping.py:107-138 | a pass leaves, of each name, both pools less the same number of players |
| PlayerMapping.NoNamesakesLeft | serie_a_db/data_extraction/table_specific_extractors/st_player_cross_source_mapping.py:124-138 | after the name-only pass no name is left in both pools |
| PlayerMapping.TeamEmptiedIff | serie_a_db/data_extraction/table_specific_extractors/st_player_cross_source_mapping.py:107-138 | the two passes empty a team's fm pool iff each of its fm names has at least as many fpi bearers |
| PlayerMapping.BothPassesEmptyIff | serie_a_db/data_extraction/table_specific_extractors/st_player_cross_source_mapping.py:107-140 | no fm player is left after both passes iff every team has enough namesakes |
| FantacalcioWebsite.SeasonTagOfFourDigitYear | serie_a_db/data_extraction/clients/fantacalcio_punto_it_website.py:32-35 | for a four-digit year the tag is the year, `-`, and the last two digits of the next year; it has the `dddd-dd` shape |
| FantacalcioWebsite.SeasonTagOf2021 | serie_a_db/data_extraction/clients/fantacalcio_punto_it_website.py:32-35 | 2021 gives `2021-22` |
| FantacalcioWebsite.GradesPageUrlSegments | serie_a_db/data_extraction/clients/fantacalcio_punto_it_website.py:14-21 | the grades address is the root, `voti-fantacalcio-serie-a`, the tag and the match-day number |
| FantacalcioWebsite.PlayersListPageUrlSegments | serie_a_db/data_extraction/clients/fantacalcio_punto_it_website.py:23-30 | the players address is the root, `quotazioni-fantacalcio` and the tag |
| FantacalcioWebsite.IntOf | serie_a_db/data_extraction/clients/fantacalcio_punto_it_website.py:43-44 | `int` succeeds iff the text is a decimal literal, with its value, else `ValueError` |
| FantacalcioWebsite.StripIdBeforeSeason | serie_a_db/data_extraction/clients/fantacalcio_punto_it_website.py:37-44 | when the last segment is season-like, the id is the penultimate segment's number |
| FantacalcioWebsite.StripIdAtEnd | serie_a_db/data_extraction/clients/fantacalcio_punto_it_website.py:37-44 | otherwise the id is the last segment's number |
| FantacalcioWebsite.NumberIsNoSeason | serie_a_db/data_extraction/clients/fantacalcio_punto_it_website.py:42 | no number's text looks like a season |
| FantacalcioWebsite.SeasonCheckIsAPrefixTest | serie_a_db/data_extraction/clients/fantacalcio_punto_it_website.py:42 | any last segment that only begins with `dddd-dd` counts as a season |
| FantacalcioPuntoIt.TranslateRole | serie_a_db/data_extraction/table_specific_extractors/st_fantacalcio_punto_it.py:195-204 | succeeds iff the lower-cased role is p, d, c, a or `all.`, else `KeyError` |
| FantacalcioPuntoIt.TranslateRoleRoundTrip | serie_a_db/data_extraction/table_specific_extractors/st_fantacalcio_punto_it.py:195-204 | each role's label, in either case, translates back to that role, coach included |
| FantacalcioPuntoIt.CodeIsPenultimateSegment | serie_a_db/data_extraction/table_specific_extractors/st_fantacalcio_punto_it.py:136 | the code is the number in the penultimate `/`-segment |
| FantacalcioPuntoIt.CodeOfSingleSegment | serie_a_db/data_extraction/table_specific_extractors/st_fantacalcio_punto_it.py:136 | an address without `/` raises `IndexError` |
| FantacalcioPuntoIt.ParseRow | serie_a_db/data_extraction/table_specific_extractors/st_fantacalcio_punto_it.py:118-182 | a row is parsed iff its address gives a code, its bonus text gives bonuses, its role translates and the bonuses are non-negative; the record then carries the match day, that code, the stripped team and player names, the translated role, the bonuses and the four flags, each set iff its marker occurs in the row; the errors come in that order: the code's, the bonuses', `KeyError` for the role, `ValidationError` for a negative bonus |
| FantacalcioPuntoIt.ParseMatchDayPage | serie_a_db/data_extraction/table_specific_extractors/st_fantacalcio_punto_it.py:118-182 | the nested page loop returns the page's records |
| FantacalcioPuntoIt.PageRecordsMeaning | serie_a_db/data_extraction/table_specific_extractors/st_fantacalcio_punto_it.py:118-182 | one record per row in page order; an empty page gives an empty list, not an error |
| FantacalcioPuntoIt.ScrapePlayerMatchData | serie_a_db/data_extraction/table_specific_extractors/st_fantacalcio_punto_it.py:53-94 | the corrected half of Findings row 3, with a pause that returns: at most the limit of match days, in order; a `ValidationError` stops with the records so far; other errors propagate |
| FantacalcioPuntoIt.PausingThatReturnsIsCollect | serie_a_db/data_extraction/table_specific_extractors/st_fantacalcio_punto_it.py:83-94 | the loop with a pause that returns is the shared stop-at-first-error loop |
| FantacalcioPuntoIt.ScrapeAsWritten | serie_a_db/data_extraction/table_specific_extractors/st_fantacalcio_punto_it.py:83-94 | as written, the pause after a parsed day raises `AttributeError`: the scrape succeeds only with no day to read or a first day that stops it with a `ValidationError`, and then with no records |
| FantacalcioPuntoIt.AsWrittenFailsAfterFirstParsedDay | serie_a_db/data_extraction/table_specific_extractors/st_fantacalcio_punto_it.py:206-208 | whenever the first day parses, the scrape as written fails with `AttributeError`, where the intended loop keeps that day's records |
| FantacalcioPuntoIt.ValueErrorIsNotCaught | serie_a_db/data_extraction/table_specific_extractors/st_fantacalcio_punto_it.py:83-89 | a `ValueError` (a code that is no number) is not caught and fails the scrape |
| FmPlayer.TeamId | serie_a_db/data_extraction/table_specific_extractors/st_fm_player.py:49 | the team id is the first three characters of the upper-cased team name |
| FmPlayer.TeamIdOfInter | serie_a_db/data_extraction/table_specific_extractors/st_fm_player.py:49 | `Inter` gives `INT` |
| FmPlayer.ParsePlayer | serie_a_db/data_extraction/table_specific_extractors/st_fm_player.py:45-56 | a record iff the role translates, there is a season id and the value is positive; `KeyError` for the role, then `ValidationError` for a missing season id or a value that is not positive |
| FmPlayer.ScrapePlayerDataMeaning | serie_a_db/data_extraction/table_specific_extractors/st_fm_player.py:31-57 | one record per raw player in input order, sharing load time and season; or the error of the first player that fails |
| FmPlayer.NoSeasonRejectsEveryList | serie_a_db/data_extraction/table_specific_extractors/st_fm_player.py:60-70 | when `SELECT MIN(season_id)` finds no ongoing or upcoming season (`None`), any non-empty list whose roles translate fails with `ValidationError` |
| FpiPlayer.Price | serie_a_db/data_extraction/table_specific_extractors/st_fpi_player.py:27-38 | a price is read iff the text is a non-negative decimal, else `ValidationError` |
| FpiPlayer.ParseRow | serie_a_db/data_extraction/table_specific_extractors/st_fpi_player.py:100-134 | a row is parsed iff its address gives a code, its role translates and both price texts read as non-negative prices; the record then carries the season, the load time, that code, the stripped team and player names, the translated role and the two prices read; the address's error is passed on, an unknown role raises `KeyError` of the lower-cased role, and a bad price is a `ValidationError` |
| FpiPlayer.ParsePlayersPage | serie_a_db/data_extraction/table_specific_extractors/st_fpi_player.py:100-134 | the page loop returns the page's records |
| FpiPlayer.PageRecordsMeaning | serie_a_db/data_extraction/table_specific_extractors/st_fpi_player.py:100-134 | one record per row in order, all sharing load time and season; an empty page raises `ValueError` |
| FpiPlayer.ScrapePlayerData | serie_a_db/data_extraction/table_specific_extractors/st_fpi_player.py:40-75 | at most the limit of seasons, in order; a `ValueError` stops with the earlier records; other errors propagate |
| FpiPlayer.EmptyPageEndsLoop | serie_a_db/data_extraction/table_specific_extractors/st_fpi_player.py:131-132 | an empty players page ends the loop at that season, keeping the earlier seasons' records |
| FpiPlayerMatch.TranslateRole | serie_a_db/data_extraction/table_specific_extractors/st_fpi_player_match.py:202-211 | succeeds iff the lower-cased role is p, d, c or a, else `KeyError` |
| FpiPlayerMatch.TranslateRoleRoundTrip | serie_a_db/data_extraction/table_specific_extractors/st_fpi_player_match.py:202-211 | each role's letter, in either case, translates back to that role |
| FpiPlayerMatch.TranslateRoleIgnoresCase | serie_a_db/data_extraction/table_specific_extractors/st_fpi_player_match.py:202-211 | the translation, errors included, ignores case |
| FpiPlayerMatch.ExtractBonus | serie_a_db/data_extraction/table_specific_extractors/st_fpi_player_match.py:197-200 | a missing span raises `TypeError`; otherwise the span's integer, or failure iff it is no integer |
| FpiPlayerMatch.ParseRowMeaning | serie_a_db/data_extraction/table_specific_extractors/st_fpi_player_match.py:130-185 | coaches are skipped; a player's record has the match day, the normalised team, the code, the role and non-negative bonuses, and each card or substitution flag holds iff its marker text occurs |
| FpiPlayerMatch.ParseMatchDayPage | serie_a_db/data_extraction/table_specific_extractors/st_fpi_player_match.py:119-189 | both page loops, then the empty-output rule |
| FpiPlayerMatch.KeptAreThePlayers | serie_a_db/data_extraction/table_specific_extractors/st_fpi_player_match.py:134-137 | the rows kept are exactly the non-coach rows |
| FpiPlayerMatch.PageRecordsMeaning | serie_a_db/data_extraction/table_specific_extractors/st_fpi_player_match.py:119-189 | a page parses into one record per player row, all for the match day; no player record means `ValueError` |
| FpiPlayerMatch.CoachesOnlyPageRaises | serie_a_db/data_extraction/table_specific_extractors/st_fpi_player_match.py:186-187 | a page of coaches only raises `ValueError` |
| FpiPlayerMatch.ScrapePlayerMatchData | serie_a_db/data_extraction/table_specific_extractors/st_fpi_player_match.py:51-92 | at most the limit of match days, in query order; a `ValueError` stops with the earlier records; other errors propagate |
| SharedDefinitions.ParseRole | serie_a_db/data_extraction/table_specific_extractors/shared_definitions.py:6-12 | a role value is accepted iff it is G, D, M or A, and is that role's value |
| SharedDefinitions.RoleRoundTrip | serie_a_db/data_extraction/table_specific_extractors/shared_definitions.py:6-12 | writing a role and reading it back gives the role |
| SharedDefinitions.ParseStatus | serie_a_db/data_extraction/table_specific_extractors/shared_values.py:6-11 | a status value is accepted iff it is completed, ongoing or upcoming |
| SharedDefinitions.StatusRoundTrip | serie_a_db/data_extraction/table_specific_extractors/shared_values.py:6-11 | writing a status and reading it back gives the status |
| StMatch.MapStatus | serie_a_db/data_extraction/table_specific_extractors/st_match.py:155-166 | succeeds iff the code is 0, 1 or 2, else a `ValueError` naming it |
| StMatch.MapStatusRoundTrip | serie_a_db/data_extraction/table_specific_extractors/st_match.py:155-166 | 0, 1, 2 map to upcoming, ongoing, completed one to one |
| StMatch.ParseEntry | serie_a_db/data_extraction/table_specific_extractors/st_match.py:27-33 | a match is built iff the status maps, goal counts are non-negative and the duration lies in [0, 120]; it then carries the entry's teams, the four goal counts, the schemas, the minutes played as its duration and the six coach fields; with a known status, a failure is a `ValidationError` |
| StMatch.ScrapeMatchData | serie_a_db/data_extraction/table_specific_extractors/st_match.py:86-115 | the nested loop returns the matches of every day |
| StMatch.MatchesMeaning | serie_a_db/data_extraction/table_specific_extractors/st_match.py:86-115 | one match per entry, days in query order and entries in page order, each within bounds |
| StMatch.MatchDaysInOrder | serie_a_db/data_extraction/table_specific_extractors/st_match.py:86-115 | one day's matches come before the next day's |
| DmMatchDay.MapStatus | serie_a_db/data_extraction/table_specific_extractors/dm_match_day.py:139-150 | succeeds iff the label is PLAYED, TO BE PLAYED, POSTPONED or LIVE, else `ValueError` |
| DmMatchDay.MapStatusLabels | serie_a_db/data_extraction/table_specific_extractors/dm_match_day.py:139-150 | PLAYED is completed, TO BE PLAYED and POSTPONED are upcoming, LIVE is ongoing, and nothing else maps |
| DmMatchDay.RelevantSeasons | serie_a_db/data_extraction/table_specific_extractors/dm_match_day.py:113-116 | exactly the seasons from the earliest year on are kept |
| DmMatchDay.ParseEntry | serie_a_db/data_extraction/table_specific_extractors/dm_match_day.py:23-31 | a match day is built iff its number parses into 1..38 and its status maps; it carries its season |
| DmMatchDay.ScrapeMatchDayDataFromTheWeb | serie_a_db/data_extraction/table_specific_extractors/dm_match_day.py:119-136 | the nested loop returns the match days of every season |
| DmMatchDay.MatchDaysMeaning | serie_a_db/data_extraction/table_specific_extractors/dm_match_day.py:119-136 | one match day per page entry, seasons in order, each numbered 1..38 |
| DmMatchDay.SeasonsInOrder | serie_a_db/data_extraction/table_specific_extractors/dm_match_day.py:119-136 | one season's match days come before the next season's |
| DmMatchDay.ScrapeMatchDayData | serie_a_db/data_extraction/table_specific_extractors/dm_match_day.py:49-66 | the earliest-season argument is ignored and overwritten by the lookup |
| DmMatchDay.MatchDayDataFromEarliestSeason | serie_a_db/data_extraction/table_specific_extractors/dm_match_day.py:49-66 | every returned match day belongs to a homepage season from the earliest one on |
| DmSeason.InferStatusCases | serie_a_db/data_extraction/table_specific_extractors/dm_season.py:107-117 | upcoming iff every day is to be played (an empty list included), ongoing iff some but not all are, completed iff none is and there is a day |
| DmSeason.InferStatusByCount | serie_a_db/data_extraction/table_specific_extractors/dm_season.py:107-117 | the same read off the number of days still to be played |
| DmSeason.ScrapeDataFromTheWeb | serie_a_db/data_extraction/table_specific_extractors/dm_season.py:68-88 | the filtering loop returns the seasons data |
| DmSeason.SeasonsDataMeaning | serie_a_db/data_extraction/table_specific_extractors/dm_season.py:68-88 | exactly the homepage seasons from the minimum on, in homepage order, each with its inferred status |
| DmSeason.ScrapeDmSeasonData | serie_a_db/data_extraction/table_specific_extractors/dm_season.py:36-48 | the web is scraped from the earliest season the lookup gives |
| DmSeasonUpdate.ExtractData | serie_a_db/update/dm_season.py:26-43 | the filtering loop returns the seasons data |
| DmSeasonUpdate.SeasonsDataMeaning | serie_a_db/update/dm_season.py:26-43 | exactly the homepage seasons from 2000 on, in homepage order; active is 1 iff some day is to be played, so 0 for an empty list |
| DmSeasonUpdate.ActiveIffNotSettled | serie_a_db/update/dm_season.py:62-66 | a season is active iff the newer extractor finds it ongoing, or upcoming with days |
| SerieASeasons.FindSeasonsMeaning | serie_a_db/update/dm_season.py:46-59 | no selector or a bad one raises `ValueError`; otherwise one (start year, code) pair per option, in order |
| SerieASeasons.OptionsMeaning | serie_a_db/update/dm_season.py:46-59 | the options parse one pair each, in order, or fail with `ValueError` |
| SerieASeasons.ParseOption | serie_a_db/update/dm_season.py:58 | an option parses iff its first four characters and its value are integers |
| SerieASeasons.SeasonYearIsFirstFourChars | serie_a_db/update/dm_season.py:58 | an option text of a four-digit year and anything after gives that year |
| SerieASeasons.EarliestSeason | serie_a_db/data_extraction/table_specific_extractors/dm_match_day.py:69-83 | the ongoing season's start year, or 2000 when the table is missing or no season is ongoing |
| SerieASeasons.FilterSeasonsMembers | serie_a_db/data_extraction/table_specific_extractors/dm_match_day.py:113-116 | exactly the seasons from the earliest year on are kept |
| SerieASeasons.FilterSeasonsAppend | serie_a_db/data_extraction/table_specific_extractors/dm_match_day.py:113-116 | filtering distributes over concatenation, so order is kept |
| SerieASeasons.FilterSeasonsIdempotent | serie_a_db/data_extraction/table_specific_extractors/dm_match_day.py:113-116 | filtering twice is filtering once |
| Extraction.HarvestMeaning | serie_a_db/data_extraction/table_specific_extractors/st_match.py:86-115 | a page parses iff every row does; a failure is the first failing row's error; the records come from the rows |
| Extraction.HarvestAppend | serie_a_db/data_extraction/table_specific_extractors/st_match.py:86-115 | parsing two runs of rows gives both runs' records, in order |
| Extraction.HarvestGroups | serie_a_db/data_extraction/table_specific_extractors/st_match.py:86-115 | the nested group-then-row loop equals parsing the flattened rows |
| Extraction.HarvestRows | serie_a_db/data_extraction/table_specific_extractors/st_fpi_player.py:100-134 | the flat row loop equals parsing the rows in order |
| Extraction.ScrapePages | serie_a_db/data_extraction/table_specific_extractors/st_fpi_player_match.py:51-92 | the scrape loop returns what the limit, the caught errors and the page outcomes determine, and requests that many pages |
| Extraction.CollectAllPages | serie_a_db/data_extraction/table_specific_extractors/st_fpi_player_match.py:51-92 | when every reached page parses, all their records in order, with the limit's number of requests |
| Extraction.CollectIgnoresPagesPastLimit | serie_a_db/data_extraction/table_specific_extractors/st_fpi_player_match.py:66-71 | pages past the limit are never fetched |
| Extraction.CollectKeepsEarlierPages | serie_a_db/data_extraction/table_specific_extractors/st_fpi_player_match.py:78-87 | a caught failure stops the loop, keeping the earlier pages' records |
| Extraction.CollectPropagates | serie_a_db/data_extraction/table_specific_extractors/st_fpi_player_match.py:78-87 | any other failure is the loop's failure |

## Left out

- FantacalcioPuntoIt.ScrapePlayerMatchData: the match days to import are an input. The days query of `_get_match_days_to_import` (st_fantacalcio_punto_it.py:99-111) is SQL run by SQLite and is not modelled. As written it refers to the undefined alias `dmm` and fails before any page is read.
- HTML and JSON traversal (BeautifulSoup, `requests`, `lru_cache`) and all network calls. Every page enters the model as a value: rows, entries, options or a season-page function.
- Grade parsing (`_parse_grades`, floats with a decimal comma). The player-match records carry no grades.
- Dates and times.
  - `datetime.now`, `strptime`, `fromisoformat`, `_extract_date` and `_extract_time` are not modelled.
  - Time is an integer clock in milliseconds; time zones are left out.
  - The 1 ms `sleep` becomes a clock step of one.
  - Match records carry no date or time.
- `random`, logging and error-message formatting beyond the messages the model names.
- SQL semantics. SQLite is the abstract `Engine`; query texts, joins and upsert behaviour are not interpreted.
- Pydantic coercion. Fields are validated only by the constraints the records declare (positive or non-negative integers, bounds, enum values, a `str` that is not `None`). A `ValidationError` reports only the first failing field, where pydantic lists them all. A `ValueError` raised inside a model validator reaches the caller wrapped in `ValidationError` (`ModelValidationError`), which keeps the wrapped error.
- File reading: `read_script_from_file`, `from_definitions`, `create_meta_tables` and the CSV export.
- `Db.select`, `Db.get_all_rows` and `Db.close_connection`: thin sqlite3 wrappers with nothing to prove.
- Wiring, the CLI, `schema.py`, `build.py`, the update entry points and the broken draft `st_player_code_match.py`.
- PlayerMapping.FindPlayerMappings: the fuzzy third pass (st_player_cross_source_mapping.py:141-161) is not modelled. It relies on difflib similarity ratios and a float threshold. Where the source would still try a fuzzy match, the model raises the unmatched-players `ValueError` after pass 2.
- PlayerMapping.RaiseIfUnmatched: the message lists no player names; only its fixed prefix is modelled.
- Aliasing between the caller's pools and the matcher's shallow copies is not modelled. The matcher works on values.
- Identities behind names that no module of the repository defines.
  - `from_camel_to_snake_case` and `get_relevant_season` are not part of this model.
  - `sleep_not_to_overload_the_website` and `log_fatal_error`, imported from
    `shared_definitions.py`, which defines only `PlayerRole`: the pause and the log line
    are left out of the `FpiPlayer` and `FpiPlayerMatch` loops.
  - `now`, imported from `serie_a_db/utils.py`, which does not define it: load times are
    parameters, log times the client's clock.
  - `raise_proper_operational_error` and `NoSuchTableError`, imported from
    `serie_a_db/exceptions.py`, which defines neither. In `Client`, an engine failure is
    passed on as the engine's error, and `CountRows` reports a missing table as an
    `OperationalError`. `DmMatchDay`, `DmSeason` and `SerieASeasons.EarliestSeason`
    follow the intended `except NoSuchTableError` (`dm_match_day.py:79`,
    `dm_season.py:61`): the season query's result is an option, and `None` (the season
    table does not exist) falls back to 2000, as an empty result does.
  - `was_updated_since` is modelled by an assumption, stated above.
- Table.UpdateStaging: the extraction callable is a value given at construction, so the load step is read before the drop rather than after the create. The order of the statements sent is unchanged.
- DbUpdate.DbUpdater.UpdateUpstreamDependencies: the iteration order of the `depends_on` set is left open.
- Upper and lower case and decimal digits are ASCII only; whitespace follows `str.isspace` (`PyStr.IsSpace`). `str.split` is modelled for the separators the code uses.
- FantacalcioWebsite.IntOf: it accepts ASCII digits only, whereas Python's `int()` accepts every Unicode decimal digit (`int("٢٠٢٣") == 2023`). The same holds for `PyStr.ParseInt` behind `FpiPlayer.Price`, `SerieASeasons.ParseOption` and `DmMatchDay.ParseEntry`, and for the `\d` of `FantacalcioWebsite.SeasonPrefix`. The pages the code reads carry ASCII numbers.
- The tests that describe behaviour the code lacks: drift-preserving staging loads, `get_attributes`, multi-statement `DefinitionQuery` and `api_response_to_match_object`.
- Table.DependsOn: it reads references with the intended character class `[^\w-]`, as does `DbUpdate.DbUpdater.Deps`, which the engine uses. The class as written, `[^/w_-]`, would also count `dm_team` as a dependency of a statement that mentions only ` dm_teams` (Findings row 1). The as-written reading is `SqlParsing.DependsOnAsWritten`.
- DbUpdate.DbUpdater: its methods require `WellFormed()`. Every schema key names its own table, and a ghost rank lies above each table's dependencies, so the schema is acyclic. On a cyclic schema the source recurses without bound and ends in `RecursionError` (Findings row 4), so the model does not run the engine there.
- `dm_match_day.py`'s local `Status` enum: the shared one with the same three values stands for it.

## Findings

| source | as written | input that shows it | evidently intended | confidence | as-written member | corrected member |
|---|---|---|---|---|---|---|
| serie_a_db/sql_parsing.py:54 | the character class `[^/w_-]` (slash, not backslash) with IGNORECASE only rejects `/`, `w`, `W`, `_` and `-` after the name | the statement ` dm_teams` with table `dm_team`: the `s` is accepted, so `dm_team` becomes a dependency | `[^\w-]`: the name must not be followed by a word character or a hyphen | not executed | SqlParsing.DependsOnAsWrittenExample | SqlParsing.OtherIdentifierIsNoReference |
| serie_a_db/data_extraction/table_specific_extractors/st_player_cross_source_mapping.py:107-138 | the inner loop does not stop after a match, so a second matching fpi player makes `remove` of the already removed fm player raise `KeyError` | two fpi players `foo` (attacker) with codes 1 and 2 in the team of fm player `foo` (attacker), as in PlayerMapping.HomonymsInOnePool | stop scanning at the first match | not executed | PlayerMapping.ScanAsWritten | PlayerMapping.MatchTeam |
| serie_a_db/data_extraction/table_specific_extractors/st_fantacalcio_punto_it.py:206-208 | line 4 imports the function `time` from the module `time`, so `time.sleep` in the pause after every parsed match day raises `AttributeError` | any first match day whose page parses, with a limit of at least one; as written, the days query of `_get_match_days_to_import` (:99-111) selects and orders by `dmm.number` while its only alias is `dmmd`, so SQLite fails it with "no such column" before any page is read, and the pause is reached only once that query is corrected | sleep between match days and go on | not executed | FantacalcioPuntoIt.AsWrittenFailsAfterFirstParsedDay | FantacalcioPuntoIt.ScrapePlayerMatchData |
| serie_a_db/db/update.py:40-50 | the method recurses into every dependency before it checks `was_updated_since`, so the check does not stop a cycle: the recursion has no bound and ends in `RecursionError`, which nothing catches, after earlier dependencies may already have been updated and logged | two tables whose populate statements reference each other | a schema without cycles, or a cycle reported as an error | not executed | DbUpdate.CycleNeverReturns | DbUpdate.DbUpdater.WellFormedReturns |
