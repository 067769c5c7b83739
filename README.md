# Radar reconciliation pipeline, in Dafny

This project models the decision core of Radar, an industry-news monitor.
A run fetches news items for a keyword and compares them with the snapshot
stored by the previous run, which yields candidate changes. It then
arbitrates between conflicting sources field by field: an official source
beats media, and media beats rumour. Finally it stores the new snapshot. The
decisions can also be kept in a store with an append-only history and a
latest-state table, and alert context is redacted before it is sent.

There is one Dafny module per source file:

| module | source | form |
|---|---|---|
| `Models` | codes/models.py | datatypes and pure functions |
| `ConflictResolution` | codes/conflict_resolution.py | a method with the two loops of the source, proved equal to a specification function (`Resolve`) whose properties are lemmas |
| `IncrementalAnalysis` | codes/incremental_analysis.py | a method with its loop, proved against `Changes` |
| `DatabaseLayer` | codes/database_layer.py | class `DatabaseClient` over a row sequence and a state map; the history query is a function over the table contents, and `get_latest_states` a method whose loop collects the keyword's rows |
| `StorageLayer` | codes/storage_layer.py | class `StorageClient` over a map of files and a map of history directories; the dict conversions are functions |
| `Alerting` | codes/alerting.py | mutually recursive functions over association lists |
| `Orchestrator` | codes/orchestrator.py | a method that runs the steps against a `StorageClient` |
| `TriggerLayer` | codes/trigger_layer.py | pure functions with the pipeline as a parameter |

`Wrappers` holds `Option`/`Result`. `Strings` holds the string operations
Python supplies:
- `startswith`, `endswith` and `in`;
- `",".join`;
- the code-point order used by `sorted` and by SQLite's `ORDER BY` on text;
- a stable descending sort on a text key;
- the greatest element of a set of names.

Modelling choices that shape every module:

- **Weights and confidence are integers.** Weights are scaled by ten (1.0, 0.7 and 0.3 become 10, 7 and 3), because they are only ever compared. A confidence is kept in hundredths.
- **A source is an enum member or a plain string.** Its type is `Source = Known(SourceType) | Raw(string)`. Snapshots read back from JSON carry plain strings: the loop at codes/storage_layer.py:251-253 assigns each source to itself. The arbiter gives a plain-string source weight 0 and reports a plain-string winner as media.
- **One field-name attribute on a decision.** `ConflictDecision` declares `field` (codes/models.py:57). The decision store reads `decision.field_name` (codes/database_layer.py:110,131), and its test builds decisions with `field_name=`. The model has one attribute, `fieldName`, used by both.
- **Failures are results, not exceptions.** A plain-string source reaching `.value` raises in the source. The model turns that into an error result with the state the source leaves behind:
  - `save_decisions` fails inside `with sqlite3.connect`, so the transaction rolls back and neither table changes;
  - `save_fetch_data` and `save_current_report` have already emptied the file by opening it for writing, so the file no longer loads;
  - `save_snapshot` builds the dict before writing anything, so nothing changes.
- **Confidence and source as the code sets them.** Arbitration leaves every confidence unchanged and marks no ties. A plain-string source weighs 0. Each change carries the source of the item that triggered it.

## Model

| member | source | states |
|---|---|---|
| Models.FromValue | codes/models.py:9-13 | value-to-member lookup: it yields `t` exactly when `t`'s string value is the input, and nothing for any other string |
| Models.ValuesDistinct | codes/models.py:11-13 | two members have the same string value only if they are the same member |
| Models.Weight | codes/models.py:16-21 | every member has exactly one weight, in (0, 1] on the scale of ten |
| Models.WeightsStrictlyOrdered | codes/models.py:16-21 | official > media > rumour |
| Models.RecordDefaults | codes/models.py:24-61 | default url/published_at None, empty snapshot item list, insight "" and confidence 0, empty pending sources and reason "" |
| ConflictResolution.Resolve | codes/conflict_resolution.py:8-32 | one decision per distinct field, named after the field, in first-seen order; no changes give no decision |
| ConflictResolution.Decide | codes/conflict_resolution.py:16-31 | the decision carries the field's name, every candidate but the winner as pending, and the fixed reason |
| ConflictResolution.ResolveConflicts | codes/conflict_resolution.py:8-32 | the grouping loop and the decision loop produce exactly `Resolve(changes)`; empty input gives no decision |
| ConflictResolution.FieldsInOrderCharacterized | codes/conflict_resolution.py:10-12 | the grouped fields are distinct, are exactly the fields of the input, and come in order of first occurrence |
| ConflictResolution.GroupMembers | codes/conflict_resolution.py:10-12 | a field's group holds exactly the changes for that field |
| ConflictResolution.GroupByField | codes/conflict_resolution.py:10-12 | the grouping loop: keys in first-seen order, one key per distinct field, and each key holding exactly that field's candidates in input order |
| ConflictResolution.OneFieldResolve | codes/conflict_resolution.py:10-15 | candidates that all name one field give exactly one decision, taken over all of them |
| ConflictResolution.ResolveOnePerField | codes/conflict_resolution.py:10-15 | one decision per distinct field, in first-seen order; every change's field gets a decision and every decision's field comes from a change |
| ConflictResolution.SortDescPermutes | codes/conflict_resolution.py:16-20 | the weight sort is a permutation of the group |
| ConflictResolution.SortDescSorted | codes/conflict_resolution.py:16-20 | the sorted group is non-increasing in weight, a plain-string source weighing 0 |
| ConflictResolution.SortDescStable | codes/conflict_resolution.py:16-20 | among equal weights the input order is kept, as Python's stable sort keeps it under reverse=True |
| ConflictResolution.WinnerIsHeaviest | codes/conflict_resolution.py:16-21 | the chosen change belongs to the group and no change in the group weighs more |
| ConflictResolution.EarliestHeaviestWins | codes/conflict_resolution.py:16-21 | the chosen change is the earliest one of the greatest weight |
| ConflictResolution.PendingNotHeavier | codes/conflict_resolution.py:16-22 | the pending sources are those of the group minus the winner, each weighing no more than the winner, in non-increasing weight order |
| ConflictResolution.DecisionShape | codes/conflict_resolution.py:21-31 | field name, final value = winner's new value, group size − 1 pending sources, winner plus pending is a permutation of the group's sources, plain-string winner reported as media, fixed reason |
| ConflictResolution.ThreeSourcesScenario | validate_architecture.py:96-145 | rumour 85%, media 90%, official 92% on one field: one decision, 92% from official, pending media then rumour |
| ConflictResolution.TieKeepsInputOrder | codes/conflict_resolution.py:16-22 | two media candidates: the earlier wins and the later is pending ahead of the rumour |
| IncrementalAnalysis.IncrementalCompare | codes/incremental_analysis.py:8-28 | no prior snapshot gives nothing; otherwise one placeholder change per new item whose content has both "5%" and "2%", in item order, with that item's source; never more changes than items |
| IncrementalAnalysis.Changes | codes/incremental_analysis.py:10-28 | no prior snapshot gives nothing; never more changes than items |
| IncrementalAnalysis.TriggeringMembers | codes/incremental_analysis.py:16-17 | exactly the items mentioning both rates are kept, each as often as it occurs |
| IncrementalAnalysis.PlaceholderShape | codes/incremental_analysis.py:18-26 | every change is 增长率 5% → 2%, "decreased", confidence 0.5, empty insight, with the given source |
| IncrementalAnalysis.TriggerExamples | codes/incremental_analysis.py:17 | a text quoting both rates triggers; a text quoting only "5%" does not |
| DatabaseLayer.DatabaseClient.constructor | codes/database_layer.py:34-77 | a freshly created database has two empty tables |
| DatabaseLayer.DatabaseClient.SaveDecisions | codes/database_layer.py:79-138 | succeeds exactly when every pending source is an enum member; then appends the new rows after the old ones, with ids continuing the sequence, and upserts the state table; otherwise neither table changes |
| DatabaseLayer.EmptySaveChangesNothing | codes/database_layer.py:92-93 | an empty list writes no row and no state |
| DatabaseLayer.NewHistoryRowsShape | codes/database_layer.py:95-117 | row i of a call records decision i with the call's run id, keyword and one shared timestamp, and the next id |
| DatabaseLayer.PendingText | codes/database_layer.py:102 | the pending sources can be stored exactly when each is an enum member |
| DatabaseLayer.Values | codes/database_layer.py:102 | each pending source becomes its enum value, in order, one for one |
| DatabaseLayer.PendingTextExamples | codes/database_layer.py:102 | four examples: no pending source stores an empty string, one is stored as its value, two are stored comma-joined in order, a plain-string source cannot be stored |
| DatabaseLayer.UpsertLastWins | codes/database_layer.py:120-136 | each field saved holds its last decision in the list; every earlier key stays; keys of other fields or keywords keep their rows |
| DatabaseLayer.DatabaseClient.GetDecisionHistory | codes/database_layer.py:162-203 | by default no filter and a limit of 100; only stored rows matching the filters, newest first; with ids numbered 1, 2, ... as the table assigns them, no id is listed twice |
| DatabaseLayer.DatabaseClient.GetLatestStates | codes/database_layer.py:140-160 | every row is the stored state of a field under the keyword; every such field appears once; rows are ordered by update time, newest first |
| DatabaseLayer.MatchingMembers | codes/database_layer.py:190-196 | the filtered rows are exactly those matching each given non-empty filter |
| DatabaseLayer.DecisionHistory | codes/database_layer.py:162-203 | only stored rows matching the filters, none repeated, newest first, as many as the limit allows (a negative limit meaning no limit) |
| DatabaseLayer.DecisionHistoryIsNewest | codes/database_layer.py:198-199 | the result is the first `limit` rows of a newest-first ordering of all matching rows |
| DatabaseLayer.DecisionHistoryHeadIsNewest | codes/database_layer.py:198-199 | with a non-zero limit no matching row is newer than the first row returned |
| DatabaseLayer.LaterSaveListedFirst | codes/database_layer.py:198-199 | rows of a later save under the keyword come first: the first row listed is from the later save, and no row of the earlier save is listed ahead of one of the later save |
| DatabaseLayer.HistoryAccumulates | codes/test_storage_database.py:152-183 | saving two decisions and then one, with the second save stamped a minute later, leaves three rows for the keyword, the later run's first |
| DatabaseLayer.StatesAccumulate | codes/test_storage_database.py:157-177 | the same saves leave one state per field, the re-saved field holding the newer decision |
| StorageLayer.StorageClient.constructor | codes/storage_layer.py:26-30 | the client sees the files already in the data directory |
| StorageLayer.StorageClient.Dump | codes/storage_layer.py:45-47 | the named file holds the snapshot's dict; when the dict cannot be built the file is left empty and the call fails |
| StorageLayer.StorageClient.SaveFetchData | codes/storage_layer.py:32-52 | only latest_fetch.json changes, and the history is untouched |
| StorageLayer.StorageClient.SaveCurrentReport | codes/storage_layer.py:54-74 | only current_report.json changes, and the history is untouched |
| StorageLayer.StorageClient.SaveSnapshot | codes/storage_layer.py:76-125 | the same dict goes to latest_fetch.json, current_report.json, history/{ts}/fetch.json and history/{ts}/report.json, and history/{ts} is returned; if the dict cannot be built nothing is written |
| StorageLayer.SaveThenLoad | codes/storage_layer.py:76-125 | after a save, both top-level files, the new history report and the latest-snapshot load all give back the saved snapshot |
| StorageLayer.StorageClient.LoadLatestFetch | codes/storage_layer.py:127-144 | a snapshot exactly when latest_fetch.json is present and loads |
| StorageLayer.StorageClient.LoadCurrentReport | codes/storage_layer.py:146-163 | a snapshot exactly when current_report.json is present and loads |
| StorageLayer.StorageClient.LoadLatestSnapshot | codes/storage_layer.py:165-192 | a loadable current report is returned first |
| StorageLayer.Load | codes/storage_layer.py:127-163 | a snapshot exactly when the file is present and readable, read with the loader's defaults |
| StorageLayer.LatestFromHistory | codes/storage_layer.py:194-216 | a snapshot exactly when the greatest history timestamp holds a readable report.json, and it is that one |
| StorageLayer.LatestSnapshot | codes/storage_layer.py:165-192 | a loadable current report is returned as is; anything found comes from the current report, a report_*.json name or the history |
| StorageLayer.LatestSnapshotOrder | codes/storage_layer.py:165-192 | fall-back order: loadable current report, else the greatest report_*.json name (even if it fails to load), else the greatest history timestamp |
| StorageLayer.StorageClient.LoadLatestFromHistory | codes/storage_layer.py:194-216 | an empty history gives nothing |
| StorageLayer.NewestHistoryWithoutReport | codes/storage_layer.py:199-208 | if the newest history directory lacks report.json the result is nothing, whatever older directories hold |
| StorageLayer.StorageClient.ListSnapshots | codes/storage_layer.py:218-221 | exactly the names starting with "report_" and ending with ".json" |
| StorageLayer.LegacyNameExamples | codes/storage_layer.py:218-221 | report_….json is listed; report.json, report_1.txt and current_report.json are not |
| StorageLayer.SaveKeepsLegacyReports | codes/storage_layer.py:218-221 | the saves never add or remove a listed name |
| StorageLayer.SnapshotToDict | codes/storage_layer.py:223-237 | the dict can be built exactly when every item's source is an enum member; it keeps keyword, timestamp and item count |
| StorageLayer.DictToSnapshot | codes/storage_layer.py:239-258 | one item per dict item (none when the key is absent); every loaded source is a plain string |
| StorageLayer.RoundTrip | codes/storage_layer.py:223-258 | loading a saved dict gives back keyword, timestamp, items in order and every item field, the source as its string value |
| StorageLayer.LoadedCannotBeResaved | codes/storage_layer.py:239-258 | a loaded snapshot with items cannot be turned into a dict again |
| StorageLayer.LoadDefaults | codes/storage_layer.py:239-258 | missing keys read as "", "", "media", None and None |
| Alerting.SanitizeEntry | codes/alerting.py:131-141 | the key is kept, and a sensitive key's value becomes "***" |
| Alerting.Sanitize | codes/alerting.py:109-143 | a fresh dict with the input's keys in the input's order |
| Alerting.SanitizeRedacts | codes/alerting.py:131-141 | at every dict depth of the result a sensitive key holds "***" and no string held directly as an entry's value is longer than 53 characters (strings inside lists are copied as they are) |
| Alerting.SanitizeIdempotent | codes/alerting.py:131-141 | sanitising a sanitised dict changes nothing |
| Alerting.CopiedUnchanged | codes/alerting.py:140-141 | a non-sensitive value that is neither a dict nor a long string is copied unchanged |
| Alerting.LongStringTruncated | codes/alerting.py:137-139 | a long string keeps its first 50 characters and gains "..." |
| Alerting.SensitiveAt | codes/alerting.py:120-133 | a key in which a pattern occurs, in any ASCII case, is sensitive |
| Alerting.NotSensitive | codes/alerting.py:120-133 | a key in which no two adjacent letters begin a pattern is not sensitive |
| Alerting.KeywordIsMasked | codes/alerting.py:121-134 | "keyword" contains "key", so its value is masked |
| Alerting.ApiKeyIsSensitive | tests/test_alerting.py:17-30 | "api_key" is sensitive |
| Alerting.PasswordIsSensitive | tests/test_alerting.py:17-30 | "password" is sensitive |
| Alerting.AccessTokenIsSensitive | tests/test_alerting.py:17-30 | "ACCESS_TOKEN" is sensitive, case notwithstanding |
| Alerting.SecretIsSensitive | tests/test_alerting.py:32-45 | "secret" is sensitive |
| Alerting.PlainKeysExample | tests/test_alerting.py:17-55 | the tests' other keys are not sensitive |
| Alerting.SensitiveKeysTest | tests/test_alerting.py:17-30 | the first test's dict comes out with three values masked and the plain one kept |
| Alerting.NestedDictTest | tests/test_alerting.py:32-45 | the nested dict is sanitised inside the outer one |
| Alerting.LongStringTest | tests/test_alerting.py:47-55 | one hundred "a"s come out ending in "..." and shorter than sixty |
| Orchestrator.RunPipeline | codes/orchestrator.py:12-28 | changes are computed against the snapshot stored before the run; conflicts are their arbitration; the save is unconditional and afterwards the current and latest snapshots are the fetched items; a failed save writes nothing |
| Orchestrator.FirstRunFindsNothing | codes/orchestrator.py:18-21 | on an empty store a run reports no change and no conflict |
| Orchestrator.NextRunCompares | codes/orchestrator.py:18-23 | after a save, the next run compares against it and reports every triggering item |
| TriggerLayer.ChooseKeyword | codes/trigger_layer.py:15-16 | a dict event's non-empty keyword is used; anything else falls back to the default; the result is never empty |
| TriggerLayer.DefaultKeywordFallback | codes/config.py:5 | the default keyword is 半导体, used for a non-dict event and a missing or empty keyword |
| TriggerLayer.Count | codes/trigger_layer.py:22-23 | an absent list counts 0, a present one its length |
| TriggerLayer.Handler | codes/trigger_layer.py:9-24 | status "ok", the chosen keyword echoed, both counts taken from the pipeline's result; a pipeline error propagates |
| TriggerLayer.HandlerCountsPipeline | codes/trigger_layer.py:18-23 | over the pipeline's own result the counts are the lengths of its changes and conflicts |
| TriggerLayer.MissingKeysCountZero | codes/trigger_layer.py:22-23 | a result without the two keys counts zero of each |
| Strings.ContainsIffOccurs | codes/incremental_analysis.py:17 | Python's `in` on strings holds exactly when the substring occurs at some position |
| Strings.Greatest | codes/storage_layer.py:184 | `sorted(names)[-1]` is the name no other name exceeds |
| Strings.SortDescBySorted | codes/database_layer.py:157 | the ordering by a text column, descending, is non-increasing |
| Strings.SortDescByPermutes | codes/database_layer.py:157 | that ordering is a permutation of the rows |

## Left out

- **Real I/O.** JSON text, files and directories, SQLite connections and SQL text are not modelled. Stores are maps and sequences, and a dict written is the dict read back.
- **Clock reads.** `now_ts` (codes/models.py:64-66) reads the wall clock; every timestamp is a parameter instead.
- **Fetching.** The scraper is a placeholder; the fetched items are a parameter of `Orchestrator.RunPipeline`.
- **Where the store lives.** `run_pipeline` builds its own `StorageClient` over the configured data directory; the model passes the client in. Environment reads and the rest of codes/config.py are not part of this model, apart from `DEFAULT_KEYWORD`.
- **Outside the core.** The alert senders, the cloud entry point, the logging set-up, the storage singleton and the demo and test scripts are not part of this model. The scripts serve only as scenarios for lemmas.
- **Floats.** Weights and confidence are scaled integers.
- **Ill-typed JSON.** A file that does not parse, is not a dict, or holds values of the wrong type is one `Unreadable` state, with no snapshot. Python's loader checks no types, so some such files (a number as the keyword or as a title) still load there as a snapshot, while others (`items` that is not a list) raise and give None. A JSON null title, content or source, which Python would load as None, is not distinguished either; the model reads a missing source as "media" and has no None source.
- **Extra I/O failures.** A failure to create the history directory, or a write failing half-way through `save_snapshot`, is not modelled.
- **Where the history directory can go missing.** The history directory is assumed to exist. The source creates it in its constructor and never removes it, so `_load_latest_from_history`'s check for it is not modelled.
- DatabaseLayer.DecisionHistory: rows with equal `created_at` keep their insertion order, whereas SQLite does not promise an order among them (two saves in the same second share one timestamp).
- DatabaseLayer.DatabaseClient.constructor: starts from empty tables; opening a database file that already holds rows is not modelled.
- StorageLayer.StorageClient.SaveFetchData: returns the written path relative to the base directory; the source joins it onto `base_dir`.
- StorageLayer.StorageClient.SaveCurrentReport: returns the written path relative to the base directory; the source joins it onto `base_dir`.
- StorageLayer.StorageClient.SaveSnapshot: returns the written path relative to the base directory; the source joins it onto `base_dir`.
- StorageLayer.StorageClient.ListSnapshots: returns a set; the order of `os.listdir` is the file system's, and a directory named like a report is not distinguished from a file.
- Alerting.Sanitize: letter case is folded for ASCII only. Python's IGNORECASE also matches U+212A KELVIN SIGN for "k", U+017F LONG S for "s", and U+0130/U+0131 for "i".
- Alerting.Sanitize: dicts nested inside lists are copied unchanged, as in the source; non-string keys are not modelled.
- TriggerLayer.ChooseKeyword: a keyword that is present but not a string (a number, a list) is not modelled, and the handler's `context` argument is ignored, as in the source.
- **APIs the tests call that this revision does not have.** `save_latest_fetch`, `LocalStorageBackend` and `OSSStorageBackend` do not exist in codes/storage_layer.py and are not modelled.
