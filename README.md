# esTools playbook engine in Dafny

`esTools.py` runs an Elasticsearch maintenance playbook. It reads two YAML
files:

- The settings file (`-c`, loaded as a `Config`) holds the `env` section that
  defines variables, and the `elasticsearch` and `snapshot` settings.
- The playbook (`--playbook`) is a list of jobs. Each job either snapshots
  indices into a repository (`backup`) or deletes the indices older than
  their retention (`delete`).

`main` renders the playbook with the settings' variables (`format_data`) and
hands it to `PlayBook`, together with the settings as `settings`. This
project models the engine's logic:

- `Config.format_data`, the template renderer, is modelled at the text level.
- `Config.__format_env` builds the variables and renders them into the
  document.
- The `PlayBook` side covers the dispatcher `run`, `job_backup`,
  `job_delete`, the repository gate and per-index loop of
  `_exe_create_s3_snapshot_job`, the confirm-or-force deletion of
  `_exe_delete_index_job`, the retention filter `_filter_index` with
  `_get_index_create_data`, and the retry loop of `create_snapshot`.

What the engine talks to becomes parameters:

- The Elasticsearch client is a record of answers (`Cluster.Client`).
- The operator is a function from prompt to typed line.
- The clock is one instant in milliseconds.
- `exec` and `popen` are opaque executors.
- `ast.literal_eval` is a partial parse function.

A run is a `Trace`. It records every request, prompt and pause in order,
and whether the run completed, raised, or used up the client's scripted
answers.

Files and modules:

- `values.dfy` (`Values`): Python values and dicts in iteration order, and
  the built-ins the engine uses (`str`, `repr`, truth value, `int()`,
  `d[k]`, `d.get`, `d[k] = v`, `d.pop`).
- `render.dfy` (`Render`): `format_data`, and `Substitute`, which states
  what rendering means.
- `environment.dfy` (`Environment`): the `Config` class and `__format_env`.
- `cluster.dfy` (`Cluster`): client answers, `get_snapshot`,
  `get_snapshot_repository`, `create_snapshot_repository`, and the trace
  combinators for `for` loops.
- `retention.dfy` (`Retention`): `_filter_index` and
  `_get_index_create_data`.
- `snapshot.dfy` (`Snapshot`): `create_snapshot`.
- `playbook.dfy` (`Playbook`): the handlers and `run`.

The imperative parts are methods with the source's loops. Each is proved
equal to a function that gives the whole run, and the engine's properties
are lemmas about those functions. These methods are `Environment.Config.FormatEnv`,
`Snapshot.CreateSnapshot`, `Playbook.Run`, `JobDelete`, `ExeDeleteIndexJob`,
`ExeCreateS3SnapshotJob` and `JobBackup`.

A scalar `env` value is stored as the one-element list `[v]`
(esTools.py:122), and that list is what `format_data` inserts: `{name}`
renders as `['v']`, not as `v`.

## Model

| member | source | states |
|---|---|---|
| Values.Get | esTools.py:112 | `d.get(k)` finds a value exactly when `k` is a key, and the value found is stored under `k` |
| Values.Assign | esTools.py:118-122 | `self.env[k] = v` keeps an existing key's entry in place and adds a new key (in this model's order, last); distinct keys stay distinct |
| Values.GetAssign | esTools.py:118-122 | after `d[k] = v`, reading `k` gives `v` and every other key reads as before |
| Values.Remove | esTools.py:123 | `self.data.pop("env")` leaves no `env` key, removes no other entry and adds none |
| Values.GetRemove | esTools.py:123 | after the pop, reading `env` gives nothing and every other key reads as before |
| Values.Index | esTools.py:293-298 | `v[k]` succeeds exactly on a dict holding `k`, with the value stored there; anything else raises |
| Values.GetOr | esTools.py:308-309 | `config.get(k, "")` raises on a non-dict, gives the default for a missing key and the stored value otherwise |
| Values.Elements | esTools.py:202 | `for x in v` iterates a list's items, a dict's keys in order, or a string's characters; anything else raises |
| Values.IntOf | esTools.py:367 | `int(save_day)`: an integer is itself, `True`/`False` are 1/0, an empty string or one with a non-digit after its first character raises ValueError, and only integers, bools and strings can convert |
| Values.IntOfDecimal | esTools.py:367 | `int(str(i)) == i`: a `save` given as the decimal text of a number converts to that number |
| Values.StrOfHead | esTools.py:203-204 | `str` of a non-string never starts with a lower-case letter, so it never names a handler |
| Render.Matched | esTools.py:147-148 | the kept variables are exactly those whose name occurs in the text, with their values |
| Render.FieldName | esTools.py:160 | a replacement field's name is the brace-free text up to the closing `}` |
| Render.RenderTextMeansSubstitute | esTools.py:147-160 | with no variable name in the text the document is untouched; otherwise escaping, un-escaping each kept `{{k}}` and `str.format` give exactly `Substitute`: each `{k}` of a kept variable becomes its value and every other character, braces included, comes back verbatim (only the names that occur need to be plain keyword names) |
| Render.EscapeThenFormatIsIdentity | esTools.py:153-160 | doubling every brace and formatting with no placeholders gives the text back |
| Render.UnescapeAll | esTools.py:156-157 | un-escaping the kept names one after the other, in any order, restores exactly their placeholders |
| Render.FormatEncoded | esTools.py:160 | `str.format` of the text with the kept placeholders restored performs the substitution |
| Render.SubstituteWithoutPlaceholders | esTools.py:147-160 | a text with no `{k}` of any kept variable is unchanged by the substitution |
| Render.RenderWithoutPlaceholders | esTools.py:147-163 | rendering a text holding no placeholder of any variable leaves the document untouched or gives back the same text |
| Render.RenderTextWithoutNames | esTools.py:147-163 | when no variable name occurs in the text, nothing is rendered |
| Render.FormatDataWithoutNames | esTools.py:147-163 | `format_data` returns its input itself when no variable name occurs in its `str` |
| Render.FormatDataSubstitutes | esTools.py:149-161 | otherwise `format_data` is `literal_eval` of the substituted `str` of the document (a string document is its own text, without quotes) |
| Environment.Rstrip | esTools.py:186-188 | `rstrip` removes exactly the trailing white space |
| Environment.ShellOutputIsOneLine | esTools.py:180-188 | output lines with a line break only at their end join into text without a line break |
| Environment.FailedDirectivesKeepCommand | esTools.py:166-191 | a python directive that raises, or a shell command that cannot start, yields the command itself |
| Environment.Config.constructor | esTools.py:97-102 | a new `Config` holds the loaded document (`read` is a parameter) and no variables; the `__format_env()` call that follows at esTools.py:105 is the separate `FormatEnv` |
| Environment.Config.FormatEnv | esTools.py:108-125 | the nested loops leave the document, the variables and the exception raised exactly as `FormatEnvResult` gives them |
| Environment.DirectivesLastWins | esTools.py:116-120 | within one directive dict the last `python` or `shell` pair sets the variable, other pairs are ignored, and no other variable changes |
| Environment.EnvAfterDefines | esTools.py:113-122 | each `env` entry ends up as its variable: a non-dict `v` as `[v]`, a directive dict as its last directive's result; a dict without directives, or a name not in the section, leaves the variable as it was |
| Environment.GetLast | esTools.py:113 | reading a dict with distinct keys, split at its last entry |
| Environment.NoEnvSection | esTools.py:112 | without an `env` section the document and the variables are untouched and nothing is raised |
| Environment.EnvSectionRemoved | esTools.py:123-124 | `env` is removed before rendering: with no variable name in what is left, that is the new document, without `env`, and the variables are those of the section |
| Cluster.Fetched | esTools.py:208-236 | `get_snapshot` and `get_snapshot_repository` give the reply body itself, `{}` on NotFoundError, and let other transport errors escape; the result is truthy only for a non-empty reply |
| Cluster.RepositoryCreated | esTools.py:273-287 | `create_snapshot_repository` is True exactly when the reply is acknowledged; a reply that is not a dict or a client error raises |
| Cluster.SequenceCompleted | esTools.py:202-206 | a `for` loop whose steps all complete visits each element once, in order |
| Cluster.SequenceFailsAt | esTools.py:202-206 | a loop ends at the first step that raises, with no later element visited |
| Cluster.SequenceStops | esTools.py:202-206 | once a step has not completed the later elements are not visited |
| Cluster.Deleted | esTools.py:372-390 | the names passed to `es.delete_index` at the two call sites, read back from the recorded calls: a name is listed exactly when its deletion was requested |
| Cluster.Lookups | esTools.py:418 | the patterns passed to `es.get_index_settings`, read back from the recorded calls: a pattern is listed exactly when its settings were requested |
| Retention.FilterIndex | esTools.py:400-411 | the result is a sub-dict of the input with unchanged values, holding an entry exactly when its timestamp is strictly before `now - day * 86400000` |
| Retention.ThresholdNotExpired | esTools.py:410-411 | a timestamp equal to the threshold is kept, not expired |
| Retention.LongerRetentionKeepsMore | esTools.py:409-411 | a larger `day` never expires more indices: every index expired under it is expired under the smaller one |
| Retention.FilterIndexDistinct | esTools.py:411 | filtering a dict keeps its keys distinct |
| Retention.Timestamps | esTools.py:411 | `int()` of each creation date, in order; it raises exactly when one of them is not a number |
| Retention.CreationDates | esTools.py:418-422 | the creation date of each index, keyed by index in order; it raises exactly when one settings entry lacks the path |
| Snapshot.CreateSnapshot | esTools.py:238-271 | the `while True` loop produces exactly the run `SnapshotRun` gives for the client's answers |
| Snapshot.AcknowledgedFirst | esTools.py:252-256 | an acknowledged create returns True after that one request |
| Snapshot.MissingRepositoryFails | esTools.py:257-259 | NotFoundError returns False after exactly one create request |
| Snapshot.ExistingSnapshotCreated | esTools.py:260-264 | a transport error on a snapshot that exists returns True with no further create request and no pause |
| Snapshot.GivesUpAfterTenFailures | esTools.py:246-271 | ten transport failures in a row on an absent snapshot give up with False after exactly that many create requests, pausing 600 seconds longer each time |
| Snapshot.TenFailuresFromStart | esTools.py:246-271 | from the start: 10 create requests, pauses of 0, 600, ..., 5400 seconds, then False |
| Snapshot.BackoffSchedule | esTools.py:247-271 | however the cluster answers, the n-th pause (from 0) lasts 600 * n seconds, and there are never more than ten |
| Snapshot.OnePausePerFailure | esTools.py:249-268 | each create request consumes one answer, and the run pauses exactly once per confirmed transport failure among the answers it consumed (a failure the lookup answers with the snapshot, or with an error, gets no pause) |
| Snapshot.UnacknowledgedNeverGivesUp | esTools.py:252-271 | replies that are neither acknowledged nor errors never advance the failure count and never pause; the loop asks once per reply for as long as they come |
| Snapshot.AcknowledgedAfterFailures | esTools.py:246-271 | an acknowledgement after fewer than ten failures returns True, with one create request per answer |
| Playbook.ExeDeleteIndexJob | esTools.py:358-398 | the method's run is exactly `IndexDeletion` |
| Playbook.DeleteExpired | esTools.py:370-396 | the deletion loop asks or deletes for each expired index in order, as `Deletion` says |
| Playbook.Approved | esTools.py:371-396 | the indices let go are exactly the given ones, under force or with the answer y or Y, without repeats |
| Playbook.DeletesApprovedExpired | esTools.py:366-398 | once the expired indices are known, exactly those that force or a y/Y answer lets go are deleted, in order; the operator is asked about each of them exactly when force is off; an empty set deletes nothing |
| Playbook.DeletionCalls | esTools.py:370-396 | the deletion rounds delete exactly the approved indices and look nothing up |
| Playbook.DeletionAsks | esTools.py:380-396 | without force the operator is asked about each expired index and nothing else |
| Playbook.DeletesEachIndexOnce | esTools.py:366-398 | each index listed once in the settings reply is deleted at most once |
| Playbook.IndexDeletionLooksUpOnce | esTools.py:366-417 | whatever happens next, one deletion job requests the settings of its prefix's pattern exactly once |
| Playbook.JobDelete | esTools.py:304-316 | the method's run is exactly `DeleteJob` |
| Playbook.DeleteJobLooksUpEachPrefix | esTools.py:311-313 | a list of prefixes gives one deletion job per element, in order |
| Playbook.DeleteJobSingleOrNothing | esTools.py:314-316 | a single string gives one deletion job; any other value but a list gives none |
| Playbook.Patterns | esTools.py:418 | the settings pattern of each prefix, in order |
| Playbook.RepositoryGateCreates | esTools.py:329-344 | the repository is created exactly when it is absent and force is on or the answer is y/Y; the operator is asked exactly when it is absent and force is off |
| Playbook.SnapshotIndex | esTools.py:350-354 | one pass of the loop renders the body for the index and runs `create_snapshot` under the index's name |
| Playbook.SnapshotIndices | esTools.py:350-354 | the loop runs one snapshot round per index, in order |
| Playbook.ExeCreateS3SnapshotJob | esTools.py:318-356 | the method's run is exactly `SnapshotJob` |
| Playbook.IndexSnapshotCompletes | esTools.py:350-354 | a `create_snapshot` that returns True or False lets the loop go on to the next index |
| Playbook.IndexSnapshotRequests | esTools.py:350-354 | each index's first request creates the snapshot named after the index with the body rendered for it; a body that does not mention `index` is sent unchanged |
| Playbook.SnapshotJobVisitsEveryIndex | esTools.py:346-354 | once the repository check passes, each index (a lone string counting as a list of one) is snapshotted once, in order |
| Playbook.JobBackup | esTools.py:289-302 | the method's run is exactly `BackupJob`, about which the two lemmas below are proved |
| Playbook.BackupRunsSnapshotJob | esTools.py:293-302 | with `settings["snapshot"]` holding `repository` and `body` and the job holding `index` and `body`, `job_backup` is `_exe_create_s3_snapshot_job` on exactly those values, and its first request looks the repository up |
| Playbook.BackupMissingParameterRaises | esTools.py:293-298 | a missing parameter raises the first lookup error before any request; conversely a run with no request at all is one whose parameters were missing |
| Playbook.JobDispatch | esTools.py:202-206 | a job runs the `backup` or `delete` handler its `job` entry names; any other value is skipped without error |
| Playbook.HandlerNames | esTools.py:204 | `"job_" + name` names `job_backup` or `job_delete` exactly for `backup` or `delete` |
| Playbook.Run | esTools.py:201-206 | the method's run is exactly `PlaybookRun` |
| Playbook.RunVisitsEveryJob | esTools.py:201-206 | when every job completes, each job runs exactly once, in playbook order |
| Playbook.RunStopsAtRaisingJob | esTools.py:201-206 | a job that raises ends the run, and no later job starts |

## Left out

- Dict iteration order: Python 2 iterates a dict in hash order, and `_filter_index` and `_get_index_create_data` build new dicts. The model fixes that order to the order of the entries, and puts a new key last. So the order of deletions and prompts in `Playbook.DeleteExpired` and `Playbook.DeletesApprovedExpired`, and which directive counts as last in `Environment.DirectivesLastWins`, are the model's choice of order, not a promise of the program.
- Floats and non-string dict keys: `Values.Value` has no float and a mapping's keys are strings. A float in a document or a request body, and a YAML key that is a number or a bool, are not modelled.
- Logging, argparse, `main` and `Config.read` (YAML file input) are not modelled. They are plumbing around the engine, except for the quiet logger below.
- Snapshot.CreateSnapshot is the run under the default logger. Under `-q` the logger is `QuietLOG` (esTools.py:54-65, 88-89), which has no `warning` method. So the first confirmed transport failure raises AttributeError at esTools.py:266, after `_base_num += 1` and before the pause. That error escapes `create_snapshot`, `job_backup` and `run`, and nothing is retried. `GivesUpAfterTenFailures`, `TenFailuresFromStart`, `BackoffSchedule` and `OnePausePerFailure` describe the default logger's run only.
- `exec` in `_run_python`, `popen` in `_run_shell` and `ast.literal_eval` are parameters (`Executors`, `Host.parse`). Their behaviour is arbitrary code, a subprocess and Python's literal parser.
- `raw_input` is the `confirm` function of `Host`. The operator's answer depends only on the prompt, and an answer is always given: the EOFError `raw_input` raises when standard input is closed (a non-interactive run without `--force`) is not modelled. The client's requests likewise always return a reply or one of the two transport errors.
- The client's answers are functions of the request. Asking twice gives the same answer, except for the successive answers to `snapshot.create`, which form a script. Cluster state that changes between requests is not modelled.
- `time()` is one instant (`Host.now`, milliseconds) for the whole run.
- The `random()` fraction of each pause and the float formatting of `random_num` are dropped. A pause is recorded as its whole seconds, `600 * n`.
- `strftime`/`localtime` only format log messages. Their `int(create_time[:10])` is taken not to raise, so a creation date that converts with `int()` but whose first ten characters do not is not modelled.
- `Es.delete_index` catches every exception and its result is only logged. A deletion is recorded as a request that always completes.
- `create_snapshot_repository`'s result is only logged. `Playbook.RepositoryCreation` records the request and lets only client errors and non-dict replies raise.
- `Snapshot.CreateSnapshot`: the number of scripted answers bounds the loop. The run ends `OutOfScript` when they are used up, because an endlessly unacknowledged cluster keeps the source asking forever. Termination in general is not claimed.
- `Es.get_index_settings` adds another `*` to the pattern on the wire. The model records the pattern `_get_index_create_data` passes (`prefix*`).
- Python 2 `str` versus `unicode`: every string value is `str`. A `unicode` index name would be skipped by `job_delete` and not wrapped by `_exe_create_s3_snapshot_job`; that case is not modelled.
- `repr` is modelled without escaping. A string is shown between single quotes as it is, with no `u` prefix and no backslash escapes.
- `int()` of a string accepts an optional sign and digits only, without surrounding white space.
- `Render.Format` models `str.format` for plain keyword fields only. A field with a conversion, format spec, attribute or index is treated as raising.
- `Retention.FilterIndex` is stated over the creation dates already converted with `int()`. The source converts each one inside the filter; the outcome is the same, and a date that does not convert raises in both.
- Exceptions are not distinguished beyond the `Error` kinds. Which of several failing lookups raises first follows the source's order.
