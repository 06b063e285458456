# Ice hockey ETL: merge and load, modelled in Dafny

This project models the two data-bearing steps of an ice hockey ETL workflow.

The **merge** step reads four CSV tables: player stats, players, games and teams. It builds a lookup index for players, games and teams. It joins every player-stat row with its player, its game and the player's team. It writes the result as a 16-column merged CSV file.

The **load** step reads the merged file back. It turns every row into a positional tuple aligned to the header. It builds a `CREATE TABLE IF NOT EXISTS` statement with one `TEXT` column per header name, and an `INSERT` statement with one `%s` placeholder per header name. It returns the number of rows on success and `0` when the database raises an error.

Modules, one per component, leaf first:

- `Records` (`records.dfy`): a parsed CSV row is a `map<string, string>`. Python's `KeyError` on `row[key]` and the `IndexError` of `merged_data[0]` are `Result` errors. Python truthiness of "dict or `None`" is the predicate `Truthy`.
- `IndexBuilder` (`index_builder.dfy`): the dict comprehensions `{r[key]: r for r in records}`.
- `MergedSchema` (`merged_schema.dfy`): the merged record, its fixed column order, and its dict form.
- `JoinEngine` (`join_engine.dfy`): one pass of the loop (`MergeRow`), the projection (`Project`), the join as a recursive specification (`JoinSpec`), and the imperative join loop (`JoinStats`) proved equal to it.
- `MergeTask` (`merge_task.dfy`): the whole merge step (`MergeSpec`, and the method `MergeData` that runs the loop), the merged file's layout (`WriteMerged`), and three worked scenarios.
- `LoadTask` (`load_task.dfy`): row tuples, column definitions, placeholders, the statement text, and the returned count, given the database's outcome.

How the code behaves, as modelled:

- The indexes are last-write-wins. A later record with the same id replaces an earlier one.
- An empty join result is not handled. `merged_data[0]` raises `IndexError`, so the merge step fails. That includes the case of no stat rows at all.
- A row lacking a column that the code subscripts raises `KeyError`. This is modelled as `MissingKey(column)`. The team is looked up before the skip test (line 59 runs before line 60), so a found player without `team_id` raises even when the row's game is missing (`FoundPlayerWithoutTeamRaises`).
- `if player` and `if team` test Python truthiness, so an empty dict would count as "not found". Every index entry carries its own key column, so truthiness and index membership agree (`TruthyIffIndexed`).
- The database outcome decides which statements were passed to the cursor: CREATE always, INSERT unless CREATE raised. With an empty batch, `executemany` runs nothing.

## Model

| member | source | states |
|---|---|---|
| `IndexBuilder.BuildIndex` | dags/ice_hockey_etl_dag.py:51-53 | The index builds exactly when every record has the key column, and otherwise raises KeyError for that column. Every entry is stored under its own key value. The index's keys are exactly the key values that occur in the records. |
| `IndexBuilder.IndexHoldsLastRecord` | dags/ice_hockey_etl_dag.py:51-53 | Last write wins: under each key the index holds the last record that carries that key. |
| `Records.TruthyIffIndexed` | dags/ice_hockey_etl_dag.py:57-60 | In an index whose entries carry their own key, a lookup gives a true value exactly when the key is present. |
| `JoinEngine.Project` | dags/ice_hockey_etl_dag.py:62-79 | The 16-field projection succeeds exactly when the stat row, the player, the game and (only if one was found) the team have every column it subscripts. Otherwise it raises KeyError naming a column that is missing from the record it was read from. |
| `JoinEngine.TeamOf` | dags/ice_hockey_etl_dag.py:59 | The team lookup raises KeyError for `team_id` exactly when the player lacks it. Otherwise it finds a team exactly when the player's `team_id` is a key of the team index, and then gives that entry. |
| `JoinEngine.MergeRow` | dags/ice_hockey_etl_dag.py:57-79 | When a pass of the loop raises nothing, it emits a record exactly when the row's player and game both resolve. Any exception is a KeyError. A row lacking either id, or whose found player lacks `team_id`, always raises. |
| `JoinEngine.EmittedIffIndexed` | dags/ice_hockey_etl_dag.py:57-61 | When the pass raises nothing, and the indexes' entries carry their own id column, a row is merged exactly when its `player_id` is in the player index and its `game_id` in the game index. |
| `JoinEngine.UnresolvedRowSkipped` | dags/ice_hockey_etl_dag.py:57-61 | When a row has both ids and a found player has `team_id`, a row whose player or game does not resolve is skipped: the pass emits nothing and raises nothing, whatever other columns are missing. |
| `JoinEngine.UnresolvedRowDropped` | dags/ice_hockey_etl_dag.py:55-61 | On the same condition, a row that does not resolve leaves the join of the rows after it unchanged, its result or its error. |
| `JoinEngine.FoundPlayerWithoutTeamRaises` | dags/ice_hockey_etl_dag.py:57-60 | A row whose player is found but lacks `team_id` raises KeyError for `team_id`, whether or not its game is found. |
| `JoinEngine.StatFieldsCopied` | dags/ice_hockey_etl_dag.py:62-79 | `player_id`, `game_id`, `goals`, `assists` and `penalty_minutes` are copied verbatim from the stat row. |
| `JoinEngine.PlayerAndGameFieldsResolved` | dags/ice_hockey_etl_dag.py:64-75 | The name and position fields come from the resolved player, with `nickname` "" when absent. The game fields come from the resolved game. |
| `JoinEngine.TeamFieldsOrEmpty` | dags/ice_hockey_etl_dag.py:59-69 | The team is resolved through the player's `team_id`. When it is not found the record is still emitted, with `team_name` and `conference` both "". |
| `JoinEngine.ValuesPassThrough` | dags/ice_hockey_etl_dag.py:63-78 | Nothing is coerced or computed: every merged value is "" or a value of the stat row, its player, its game or its team. |
| `JoinEngine.Kept` | dags/ice_hockey_etl_dag.py:56-61 | The order-preserving filter of the stat rows that resolve. It is no longer than the input and holds only input rows that resolve. |
| `JoinEngine.JoinSpec` | dags/ice_hockey_etl_dag.py:55-79 | The join fails only with a KeyError. |
| `JoinEngine.JoinStats` | dags/ice_hockey_etl_dag.py:55-79 | The `for ps in player_stats` loop, with its `continue` on a skipped row, computes exactly the join specification, including the first KeyError. |
| `JoinEngine.JoinIsProjectionOfKeptRows` | dags/ice_hockey_etl_dag.py:55-79 | The join's output is the projection of the order-preserving filter of the stat rows: one record per kept row, in input order. The output is never longer than the input. |
| `JoinEngine.JoinSucceedsOnCompleteInputs` | dags/ice_hockey_etl_dag.py:56-79 | When every stat row has its five subscripted columns and every indexed player, game and team has the columns the projection reads (a player also `team_id`), the join succeeds, whichever ids fail to resolve. |
| `MergedSchema.ColumnsDistinct` | dags/ice_hockey_etl_dag.py:62-79 | The merged header has 16 distinct column names. |
| `MergedSchema.RecordShape` | dags/ice_hockey_etl_dag.py:62-79 | Every merged dict has exactly the 16 header columns as keys, and its value under column j is the record's j-th field. |
| `MergedSchema.SixteenKeys` | dags/ice_hockey_etl_dag.py:62-79 | No two columns collapse into one key: every merged dict has 16 distinct keys. |
| `MergeTask.WriteMerged` | dags/ice_hockey_etl_dag.py:82-85 | The merged file can be laid out exactly when the merged list is non-empty. An empty list raises IndexError. |
| `MergeTask.MergeSpec` | dags/ice_hockey_etl_dag.py:41-86 | The merge step fails only with a KeyError or the IndexError of an empty result. On success the file has the 16-column header and at least one row. `MergedFileShape` and `EmptyJoinRaises` state the rest. |
| `MergeTask.MergeData` | dags/ice_hockey_etl_dag.py:41-86 | The merge step: index players, games and teams in that order, run the join loop, then write the file. |
| `MergeTask.MergedFileShape` | dags/ice_hockey_etl_dag.py:62-85 | A merged file has the fixed 16-column header and between 1 and as many rows as there are stat rows. Each row has exactly the header columns. |
| `MergeTask.EmptyJoinRaises` | dags/ice_hockey_etl_dag.py:51-83 | The merge step raises IndexError exactly when the indexes build and the join succeeds but no stat row resolves. |
| `MergeTask.NoStatRowsRaises` | dags/ice_hockey_etl_dag.py:55-83 | With no stat rows the merge step always fails. |
| `MergeTask.ScenarioOneMergedRow` | dags/ice_hockey_etl_dag.py:51-85 | One player, team, game and stat row give one merged row with the team's name and conference and the row's goals. |
| `MergeTask.ScenarioUnknownPlayer` | dags/ice_hockey_etl_dag.py:56-83 | A stat row naming an unknown player is skipped without error. The file step then raises IndexError. |
| `MergeTask.ScenarioUnknownTeam` | dags/ice_hockey_etl_dag.py:59-69 | A player whose team is unknown is still merged, with empty team columns. |
| `LoadTask.LoadCsvToPg` | dags/ice_hockey_etl_dag.py:91-117 | The statements are the CREATE and INSERT built from the file's header. CREATE is passed to the cursor first, and INSERT second unless CREATE raised. The batch has one tuple per row. Each tuple has one value per header column, the row's value or "", and as many values as the INSERT has placeholders. The result is the row count on commit and 0 on a database error. |
| `LoadTask.RowTuple` | dags/ice_hockey_etl_dag.py:95 | The tuple has one value per header column: the row's value for that column, or "" when the row lacks it. |
| `LoadTask.RowTuples` | dags/ice_hockey_etl_dag.py:92-95 | One tuple per data row, each as long as the header. |
| `LoadTask.Executed` | dags/ice_hockey_etl_dag.py:106-111 | CREATE is passed to `execute` first. INSERT is passed to `executemany` second, exactly when CREATE did not raise. |
| `LoadTask.JoinWith` | dags/ice_hockey_etl_dag.py:103-109 | `', '.join`. Its property is `SplitJoinRoundTrip`: the joined list reads back as the same items. |
| `LoadTask.CreateSql` | dags/ice_hockey_etl_dag.py:101-105 | The CREATE TABLE IF NOT EXISTS text. Its property is `CreateDeclaresTextColumns`: its column list reads back as one `<name> TEXT` per header name. |
| `LoadTask.InsertSql` | dags/ice_hockey_etl_dag.py:107-110 | The INSERT text. Its property is `InsertNamesColumnsAndPlaceholders`: its column list reads back as the header, and its VALUES list as one `%s` per column. |
| `LoadTask.SplitJoinRoundTrip` | dags/ice_hockey_etl_dag.py:103-109 | A non-empty list of comma-free items joined with `", "` reads back, cut at its commas, as the same items in the same order. |
| `LoadTask.CreateDeclaresTextColumns` | dags/ice_hockey_etl_dag.py:101-105 | The column list between the fixed head and tail of the CREATE statement reads back as one `<name> TEXT` definition per header name, in header order. |
| `LoadTask.InsertNamesColumnsAndPlaceholders` | dags/ice_hockey_etl_dag.py:107-110 | The INSERT statement's column list reads back as the header, and its VALUES list as exactly one `%s` per header column. |
| `LoadTask.FailureLooksLikeEmptyLoad` | dags/ice_hockey_etl_dag.py:113-117 | A failed load returns the same 0 as a committed load of a file with no data rows. |
| `LoadTask.MergedRowTuple` | dags/ice_hockey_etl_dag.py:95 | Under the merged header, the tuple of a merged dict is the record's values in column order. |
| `LoadTask.MergedFileTuples` | dags/ice_hockey_etl_dag.py:82-95 | Reading back the merged file gives, for every merged record, the tuple of its 16 values. |
| `LoadTask.MergedFileLoadsFieldForField` | dags/ice_hockey_etl_dag.py:82-111 | The load of the merged file inserts the merged records' values field for field, with nothing lost, moved or converted. |

## Left out

- The workflow definition (DAG, task decorators, default arguments, retries, task wiring): it is orchestration with no logic.
- `read_csv`: it is only a file-existence check.
- CSV parsing and writing, and file opening. The four input tables are sequences of string maps. The merged file is its header plus its rows as maps, and writing then reading it back is taken to be lossless. The reader's `None` values for short rows, its extra-field key, and a `None` header for an empty file are not modelled.
- The database: the hook, the connection, the cursor, `execute`, `executemany`, `commit`, `rollback` and `close`. The load takes the database's outcome as a parameter, either committed or a database error at one of the three statements. The table's contents, and the rollback's effect on them, belong to the database and are not modelled. Exceptions other than the caught database error, such as a failure to connect before the `try`, are not modelled.
- The `print` of the caught error: it is logging.
- `merge_data` returns the merged file's path. The model returns the file's content instead.
- SQL identifiers are spliced in unquoted. The model builds the same statement text and does not model how the database parses it.
- `clear_folder`: it is filesystem deletion with best-effort error handling.
- JoinEngine.Project: the contract says that the KeyError names a missing column, but not that it is the first one in the dict literal's evaluation order. The body still evaluates in that order, so `JoinStats` and `JoinSpec` raise exactly the error Python would raise.
- LoadTask.CreateDeclaresTextColumns and LoadTask.InsertNamesColumnsAndPlaceholders: stated only for a non-empty header whose names have no comma. A comma inside a name, or an empty header, leaves the statement's lists unreadable, and the model does not say how the database parses them.
- LoadTask.SplitList: a reference reader for the joined lists. It is not Python's `str.split` and is used only to state the round trip.
