# CI-log metrics engine, modelled in Dafny

This project models the `metrics` package of the JobManagement repository: the
engine that turns a directory of CI logs (Jenkins, GitHub Actions, CodeBuild)
into one `MetricRecord` per run and scores each run with an efficiency index.
It has four parts.

- **Log extraction** (`MetricsParser`). The tool name comes from the file name.
  Four ordered passes then fill a record from the file text: key/value table
  rows (the last row wins), the Jenkins rollback sentence (the first one
  overrides the table), the `Cost (USD)` row (the first one wins), and the
  memory lines (the first two readings, in MiB, skipped for rollbacks). The four
  regular expressions are hand-built recognisers with the semantics of Java's
  `Matcher.find`. The recursive directory walk is a sequence of
  `(path, optional content)` pairs.
- **`MetricRecord`**: a class with nine fields and one setter per field.
  `Rec` is the value of all nine fields at one moment. The specification
  functions work on `Rec` values, and `Snapshots` pairs each record object
  with its `Rec`.
- **The efficiency index** (`computeIndex`): an inverted min-max normalisation
  of time and of memory, weighted 0.7 and 0.3. The source divides by the range
  without a guard, so the model gives a Java `double` its IEEE values +Infinity,
  -Infinity and NaN. Finite values are exact reals. The index is therefore
  total, and the lemmas say when it is a number.
- **Scoring**.
  - The CSV export servlet splits the records into a deployment cohort and a
    rollback cohort. It scores each cohort against that cohort's own minimum and
    maximum, fills a `LinkedHashMap`, and writes one CSV row per map entry.
  - The dashboard servlet scores every record against the minimum and maximum
    over all records.
  - `LinkedHashMap` is a class holding its entries in insertion order. Keys
    compare by object identity, because `MetricRecord` does not override
    `equals`.

The code does not have several behaviours one might expect of such an
engine. The model follows the code and leaves them out:

- a timestamp-span `duration`;
- a per-tool cost-rate fallback when no cost row exists;
- a `safeNorm` that returns 1.0 for a zero-width range;
- a -1 "not applicable" rollback time;
- excluding that sentinel from the rollback statistics.

In particular, a zero-width range gives NaN, not 1.0. `MetricsDashboard.DashboardFlatTimeIsNaN` and
`EfficiencyIndex.IndexNaNWhenFlat` state this.

## Model

| member | source | states |
|---|---|---|
| Strings.LowerIdempotent | src/main/java/metrics/MetricsParser.java:235 | lower-casing twice is lower-casing once |
| Strings.ContainsIffOccurs | src/main/java/metrics/MetricsParser.java:236-241 | `contains(t)` holds exactly when `t` occurs at some index |
| Strings.StartsWithCaselessIff | src/main/java/metrics/MetricsParser.java:142-145 | the case-insensitive literal test agrees with comparing the lower-cased slice |
| Strings.StartsWithExactIff | src/main/java/metrics/MetricsParser.java:151-153 | the exact literal test (COST_PATTERN has no CASE_INSENSITIVE flag) agrees with slice equality |
| Strings.Trim | src/main/java/metrics/MetricsParser.java:187 | `trim()` is the slice of the input left after cutting only characters up to U+0020 from both ends, and it neither starts nor ends with such a character |
| Strings.Decimal | src/main/java/metrics/MetricsParser.java:188 | `parseDouble` of `d+` or `d+.d*` lies in [whole part, whole part + 1) |
| Patterns.NumberAt | src/main/java/metrics/MetricsParser.java:141 | `\d+\.?\d*` matches at i exactly when a digit is there; the number is non-negative and no digit follows it |
| Patterns.WholeAt | src/main/java/metrics/MetricsParser.java:145 | `\d+` matches at i exactly when a digit is there; the number is non-negative and the run is maximal |
| Patterns.LazyLabelEndSpec | src/main/java/metrics/MetricsParser.java:141 | the lazy label search (no bar, no opening parenthesis, as few characters as possible) ends at the shortest label followed by a valid `\s*(?:\(sec\))?\s*` tail, and fails only when no label of that start has one |
| Patterns.LabelFrom | src/main/java/metrics/MetricsParser.java:141 | a successful lazy search from w gives a valid split and the shortest one from w |
| Patterns.NoLabelFrom | src/main/java/metrics/MetricsParser.java:141 | a failed lazy search from w means no valid split starts at w |
| Patterns.LabelSearchFound | src/main/java/metrics/MetricsParser.java:141 | a split found after backtracking the greedy leading `\s*` is valid, starts within the blanks and has the shortest label |
| Patterns.LabelSearchGreedy | src/main/java/metrics/MetricsParser.java:141 | no valid split starts later in the blank run than the one found; none at all when none is found |
| Patterns.CellLabelSpec | src/main/java/metrics/MetricsParser.java:140-143 | KV_SEC's label group exists iff the cell splits validly, and it is the split with the most leading blanks, then the shortest label |
| Patterns.KvSecAt | src/main/java/metrics/MetricsParser.java:140-143 | a KV_SEC match at i is a table row that starts and ends with a bar |
| Patterns.RollbackSentenceAt | src/main/java/metrics/MetricsParser.java:144-145 | a JENKINS_ROLLBACK_SENTENCE match at i carries a rollback-seconds event |
| Patterns.CostAt | src/main/java/metrics/MetricsParser.java:151-153 | a COST_PATTERN match at i carries a cost event |
| Patterns.MemLineAt | src/main/java/metrics/MetricsParser.java:147 | the `Mem:` alternative reports a Gi or Mi reading |
| Patterns.UsedMemoryAt | src/main/java/metrics/MetricsParser.java:148 | the `used memory` alternative reports an MB reading |
| Patterns.MemUsedAt | src/main/java/metrics/MetricsParser.java:146-150 | a MEM_USED match at i is a memory reading |
| Patterns.MatchAt | src/main/java/metrics/MetricsParser.java:140-153 | a match of any of the four patterns starts at i, ends after it, and carries that pattern's kind of event with non-negative numbers |
| Patterns.Find | src/main/java/metrics/MetricsParser.java:186 | `find()` from `from` reports a non-empty match of the pattern at or after `from` |
| Patterns.FindIsLeftmost | src/main/java/metrics/MetricsParser.java:186 | the reported match is a match at its start, and no match starts between `from` and it; without one, none starts anywhere after `from` |
| Patterns.EventsFrom | src/main/java/metrics/MetricsParser.java:186 | the events a `while (find())` loop visits are all of the pattern's kind and non-negative |
| MetricsParser.ExtractToolName | src/main/java/metrics/MetricsParser.java:234-244 | the tool name is one of the seven names |
| MetricsParser.ToolNameRollback | src/main/java/metrics/MetricsParser.java:236-243 | the `-rollback` suffix appears iff the name mentions "rollback" and one of the three tools |
| MetricsParser.RollbackToolNames | src/main/java/metrics/MetricsParser.java:236-243 | of the seven names exactly the three `-rollback` ones end with the suffix; `unknown` never does |
| MetricsParser.ToolNamePriority | src/main/java/metrics/MetricsParser.java:236-243 | jenkins outranks gha, which outranks codebuild; `unknown` iff none is mentioned |
| MetricsParser.ToolNameIgnoresCase | src/main/java/metrics/MetricsParser.java:235 | a name and its lower-cased form get the same tool |
| MetricsParser.FileName | src/main/java/metrics/MetricsParser.java:173 | `getFileName` is the suffix of the path after its last '/' |
| MetricsParser.FileNameOfNested | src/main/java/metrics/MetricsParser.java:173 | the file name of `dir/name` is `name` |
| MetricsParser.ToolIgnoresDirectories | src/main/java/metrics/MetricsParser.java:173-174 | the directories around a log play no part in its tool name |
| MetricsParser.TimeMetricsSnoc | src/main/java/metrics/MetricsParser.java:186-197 | one more table row applies on top of the earlier ones |
| MetricsParser.TimeMetricsLastWins | src/main/java/metrics/MetricsParser.java:184-197 | each time field ends with the last row naming it, or keeps its value when none does; other fields are untouched |
| MetricsParser.FindStep | src/main/java/metrics/MetricsParser.java:186 | the events from `from` are the found match's event followed by those after its end |
| MetricsParser.LabelField | src/main/java/metrics/MetricsParser.java:189-196 | a label selects a field exactly when it is one of the six known labels, and then the field that label names |
| MetricsParser.SetByLabel | src/main/java/metrics/MetricsParser.java:189-196 | the `switch` sets exactly the field the label names (both synonyms included) and leaves the record unchanged for other labels |
| MetricsParser.ParseTimeMetrics | src/main/java/metrics/MetricsParser.java:184-198 | the record ends as the fold of every KV_SEC row in document order |
| MetricsParser.ParseRollbackTime | src/main/java/metrics/MetricsParser.java:200-205 | the first rollback sentence, if any, sets the rollback time; otherwise nothing changes |
| MetricsParser.ParseCost | src/main/java/metrics/MetricsParser.java:207-212 | the first cost row, if any, sets the cost; otherwise nothing changes |
| MetricsParser.Normalise | src/main/java/metrics/MetricsParser.java:221-225 | a Gi figure becomes 1024 times as many MiB, a Mi or MB figure is kept, and no non-negative figure shrinks |
| MetricsParser.ReadingsStep | src/main/java/metrics/MetricsParser.java:219-227 | each memory match adds its normalised reading ahead of the later ones |
| MetricsParser.CollectMemory | src/main/java/metrics/MetricsParser.java:217-227 | the list holds every memory reading in document order, Gi times 1024 and Mi/MB as given |
| MetricsParser.ParseMemory | src/main/java/metrics/MetricsParser.java:214-232 | rollbacks are untouched; otherwise with two or more readings the first two become before and after |
| MetricsParser.ParseLog | src/main/java/metrics/MetricsParser.java:171-182 | a fresh record whose fields are the four passes applied in order to a blank record named after the file |
| MetricsParser.ParsedLogTimes | src/main/java/metrics/MetricsParser.java:174-176 | tool name from the file name; each time field from the last row naming it, else 0; duration 0 |
| MetricsParser.ParsedLogRollbackAndCost | src/main/java/metrics/MetricsParser.java:176-178 | the first rollback sentence wins over any table row; cost is the first cost row, else 0 |
| MetricsParser.ParsedLogMemory | src/main/java/metrics/MetricsParser.java:179 | before and after are the first two readings, or 0 for rollbacks and for fewer than two readings |
| MetricsParser.ParsedLogs | src/main/java/metrics/MetricsParser.java:155-169 | one record per readable `.log` path |
| MetricsParser.IsLogPath | src/main/java/metrics/MetricsParser.java:159 | a path is kept exactly when its last four characters, lower-cased, are `.log` |
| MetricsParser.ReadableLogsOne | src/main/java/metrics/MetricsParser.java:159-165 | one path contributes itself exactly when it ends in `.log` (ignoring case) and was read |
| MetricsParser.ParsedLogsSnoc | src/main/java/metrics/MetricsParser.java:159-166 | the walk one path further appends that path's record, or nothing |
| MetricsParser.SkippedFileChangesNothing | src/main/java/metrics/MetricsParser.java:159-165 | a non-`.log` path or a failed read is skipped and the other records are unaffected |
| MetricsParser.ParsedLogsAllReadable | src/main/java/metrics/MetricsParser.java:159-166 | when every path is a readable `.log`, every path is parsed, in order |
| MetricsParser.ParsedLogsNoDuration | src/main/java/metrics/MetricsParser.java:171-182 | no parsed record has a non-zero duration |
| MetricsParser.ParseEntry | src/main/java/metrics/MetricsParser.java:159-165 | one walk step yields a fresh record for a readable `.log` path and none otherwise |
| MetricsParser.ParseAllLogs | src/main/java/metrics/MetricsParser.java:155-169 | the records are fresh, pairwise distinct objects with the values of `ParsedLogs` |
| MetricRecords.MetricRecord.IsRollback | src/main/java/metrics/ExportMetricsCSVServlet.java:57 | a record is a rollback exactly when its tool name is some stem followed by `-rollback` |
| MetricRecords.MetricRecord.constructor | src/main/java/metrics/MetricRecord.java:87-89 | the tool name is stored and every numeric field, rollback time included, is 0 |
| MetricRecords.MetricRecord.SetDuration | src/main/java/metrics/MetricRecord.java:93 | only the duration changes, and the getter returns it |
| MetricRecords.MetricRecord.SetCost | src/main/java/metrics/MetricRecord.java:96 | only the cost changes, and the getter returns it |
| MetricRecords.MetricRecord.SetTotalPipelineTime | src/main/java/metrics/MetricRecord.java:100-102 | only the total pipeline time changes, and the getter returns it |
| MetricRecords.MetricRecord.SetDeploymentTime | src/main/java/metrics/MetricRecord.java:105-107 | only the deployment time changes, and the getter returns it |
| MetricRecords.MetricRecord.SetLeadTime | src/main/java/metrics/MetricRecord.java:110 | only the lead time changes, and the getter returns it |
| MetricRecords.MetricRecord.SetMemoryBeforeUsed | src/main/java/metrics/MetricRecord.java:114-116 | only the memory-before field changes, and the getter returns it |
| MetricRecords.MetricRecord.SetMemoryAfterUsed | src/main/java/metrics/MetricRecord.java:119-121 | only the memory-after field changes, and the getter returns it |
| MetricRecords.MetricRecord.SetRollbackTime | src/main/java/metrics/MetricRecord.java:125-127 | only the rollback time changes, and the getter returns it |
| MetricRecords.MetricRecord.SetToolName | src/main/java/metrics/MetricRecord.java:130-132 | only the tool name changes, and the getter returns it |
| MetricRecords.SnapshotsUnchanged | src/main/java/metrics/MetricRecord.java:76-85 | records whose fields did not change have the same snapshots |
| MetricRecords.DistinctSnapshots | src/main/java/metrics/MetricRecord.java:76 | distinct record objects give snapshots with distinct objects |
| EfficiencyIndex.Divide | src/main/java/metrics/EfficiencyIndexCalculator.java:29-30 | the quotient is a number iff the divisor is non-zero, and NaN iff both are zero |
| EfficiencyIndex.Add | src/main/java/metrics/EfficiencyIndexCalculator.java:31 | the sum is a number iff both terms are; NaN absorbs |
| EfficiencyIndex.ComputeIndex | src/main/java/metrics/EfficiencyIndexCalculator.java:24-32 | the index is a number iff both ranges are non-zero, and it is then 0.7·(tMax−t)/(tMax−tMin) + 0.3·(mMax−m)/(mMax−mMin) |
| EfficiencyIndex.IndexNaNWhenFlat | src/main/java/metrics/EfficiencyIndexCalculator.java:29 | with a zero time range and t at that value, the index is NaN |
| EfficiencyIndex.IndexOfBest | src/main/java/metrics/EfficiencyIndexCalculator.java:21-31 | t = tMin and m = mMin score exactly 1 |
| EfficiencyIndex.IndexOfWorst | src/main/java/metrics/EfficiencyIndexCalculator.java:21-31 | t = tMax and m = mMax score exactly 0 |
| EfficiencyIndex.IndexInUnitInterval | src/main/java/metrics/EfficiencyIndexCalculator.java:29-31 | within positive ranges the index is a number in [0, 1] |
| EfficiencyIndex.IndexStrictlyDecreasing | src/main/java/metrics/EfficiencyIndexCalculator.java:28-31 | a run no slower and no heavier, and strictly better in one, scores strictly higher |
| Statistics.Summary.GetMin | src/main/java/metrics/ExportMetricsCSVServlet.java:77-78 | `getMin` is a number iff the stream was non-empty |
| Statistics.Summary.GetMax | src/main/java/metrics/ExportMetricsCSVServlet.java:77-78 | `getMax` is a number iff the stream was non-empty |
| Statistics.SummaryOf | src/main/java/metrics/ExportMetricsCSVServlet.java:61-66 | `summaryStatistics()` is empty exactly for an empty stream |
| Statistics.SummaryBounds | src/main/java/metrics/MetricsDashboardServlet.java:74-80 | a non-empty stream's minimum and maximum are values of it, and every value lies between them |
| LinkedMaps.Get | src/main/java/metrics/ExportMetricsCSVServlet.java:33 | `get(k)` finds a value iff `k` is a key |
| LinkedMaps.PutEntry | src/main/java/metrics/ExportMetricsCSVServlet.java:80 | `put` adds an entry only for a new key |
| LinkedMaps.PutNewKeyAppends | src/main/java/metrics/ExportMetricsCSVServlet.java:80 | a new key is appended: iteration order is insertion order |
| LinkedMaps.PutExistingKeyKeepsOrder | src/main/java/metrics/ExportMetricsCSVServlet.java:80 | a key already present keeps its position |
| LinkedMaps.PutThenGet | src/main/java/metrics/ExportMetricsCSVServlet.java:80 | after `put(k, v)`, `get(k)` is `v` and other keys read as before |
| LinkedMaps.PutKeepsUniqueKeys | src/main/java/metrics/ExportMetricsCSVServlet.java:80 | `put` never creates a duplicate key |
| LinkedMaps.PutAllAppend | src/main/java/metrics/ExportMetricsCSVServlet.java:34-35 | two loops of `put`s on one map are one loop over both sequences |
| LinkedMaps.PutAllFreshKeys | src/main/java/metrics/ExportMetricsCSVServlet.java:73-81 | `put`s of distinct new keys simply append, in order |
| LinkedMaps.LinkedMap.constructor | src/main/java/metrics/ExportMetricsCSVServlet.java:33 | a new map is empty and so holds no key twice |
| LinkedMaps.LinkedMap.Put | src/main/java/metrics/ExportMetricsCSVServlet.java:80 | the entries after `put` are the `PutEntry` of those before, and still no key appears twice |
| ExportMetricsCsv.FilterRecords | src/main/java/metrics/ExportMetricsCSVServlet.java:55-59 | filtering record objects and then reading them is reading them and then filtering the values, so the cohort lemmas describe the result |
| ExportMetricsCsv.CohortSound | src/main/java/metrics/ExportMetricsCSVServlet.java:55-59 | a cohort holds only records of its kind |
| ExportMetricsCsv.CohortComplete | src/main/java/metrics/ExportMetricsCSVServlet.java:55-59 | a cohort drops no record of its kind |
| ExportMetricsCsv.CohortAppend | src/main/java/metrics/ExportMetricsCSVServlet.java:55-59 | filtering keeps list order |
| ExportMetricsCsv.CohortPartition | src/main/java/metrics/ExportMetricsCSVServlet.java:26-27 | the two cohorts together are a permutation of the records |
| ExportMetricsCsv.CohortDistinct | src/main/java/metrics/ExportMetricsCSVServlet.java:55-59 | a cohort of distinct records is distinct |
| ExportMetricsCsv.CohortsDistinct | src/main/java/metrics/ExportMetricsCSVServlet.java:26-27 | the deployments followed by the rollbacks are distinct when the records are |
| ExportMetricsCsv.Metrics | src/main/java/metrics/ExportMetricsCSVServlet.java:62-65 | "time" is the rollback time for rollbacks and the pipeline time otherwise; "memory" is after − before |
| ExportMetricsCsv.GetStats | src/main/java/metrics/ExportMetricsCSVServlet.java:61-67 | the summary is empty only for an empty cohort; otherwise its ends are the metric of some member and enclose every member's metric |
| ExportMetricsCsv.StatsBounds | src/main/java/metrics/ExportMetricsCSVServlet.java:61-67 | every member of a cohort lies within the cohort's summary, whose ends are values of members |
| ExportMetricsCsv.DeploymentEntries | src/main/java/metrics/ExportMetricsCSVServlet.java:73-80 | one entry per deployment, scored from its pipeline time and memory growth and the cohort's bounds |
| ExportMetricsCsv.RollbackEntries | src/main/java/metrics/ExportMetricsCSVServlet.java:87-91 | one entry per rollback, scored from its rollback time and the cohort's bounds |
| ExportMetricsCsv.AddDeploymentIndices | src/main/java/metrics/ExportMetricsCSVServlet.java:69-82 | the map after the loop is the map before with each deployment's entry put in list order |
| ExportMetricsCsv.AddRollbackIndices | src/main/java/metrics/ExportMetricsCSVServlet.java:84-93 | the map after the loop is the map before with each rollback's entry put in list order |
| ExportMetricsCsv.FillIndices | src/main/java/metrics/ExportMetricsCSVServlet.java:30-33 | a fresh map without repeated keys, holding the deployment puts followed by the rollback puts |
| ExportMetricsCsv.ComputeIndices | src/main/java/metrics/ExportMetricsCSVServlet.java:25-35 | a fresh map without repeated keys, holding the deployment entries put first, then the rollback entries |
| ExportMetricsCsv.DeploymentScoredWithinCohort | src/main/java/metrics/ExportMetricsCSVServlet.java:29-30 | the k-th entry is the k-th deployment, scored with the finite min and max over deployments alone, which enclose its time and memory |
| ExportMetricsCsv.RollbackScoredWithinCohort | src/main/java/metrics/ExportMetricsCSVServlet.java:31 | the rollbacks follow the deployments, each scored by its rollback time with the finite min and max over rollbacks alone, which enclose it |
| ExportMetricsCsv.KeysOfScoredEntries | src/main/java/metrics/ExportMetricsCSVServlet.java:33-35 | the keys are the deployments, then the rollbacks |
| ExportMetricsCsv.ExportOneEntryPerRecord | src/main/java/metrics/ExportMetricsCSVServlet.java:33-35 | for distinct records no `put` overwrites: the map has one entry for each record and no key twice |
| ExportMetricsCsv.Rows | src/main/java/metrics/ExportMetricsCSVServlet.java:44-49 | one row per entry: tool name, rollback or pipeline time, memory growth, index |
| ExportMetricsCsv.WriteCsv | src/main/java/metrics/ExportMetricsCSVServlet.java:41-51 | the header `tool,time,memory,index`, then one row per map entry in iteration order |
| ExportMetricsCsv.DoGet | src/main/java/metrics/ExportMetricsCSVServlet.java:13-52 | the records are the parsed logs; the header is written, then one row for each record, deployments first |
| MetricsDashboard.TotalTimes | src/main/java/metrics/MetricsDashboardServlet.java:74-76 | the time stream is the pipeline time of every record, rollbacks included |
| MetricsDashboard.MemoryDeltas | src/main/java/metrics/MetricsDashboardServlet.java:78-80 | the memory stream is after − before of every record |
| MetricsDashboard.DashboardEntries | src/main/java/metrics/MetricsDashboardServlet.java:82-90 | one entry per record, in order, scored with `computeIndex` against the bounds over all records |
| MetricsDashboard.MetricsDashboardServlet.constructor | src/main/java/metrics/MetricsDashboardServlet.java:58 | no records yet, so none appears twice |
| MetricsDashboard.MetricsDashboardServlet.Init | src/main/java/metrics/MetricsDashboardServlet.java:61-68 | the records are fresh, distinct, and have the values of the parsed logs |
| MetricsDashboard.MetricsDashboardServlet.DoGet | src/main/java/metrics/MetricsDashboardServlet.java:71-90 | a fresh map holding each record's entry in record order: no `put` overwrites another, so there is one entry per record and the keys are the records |
| MetricsDashboard.DashboardOneEntryPerRecord | src/main/java/metrics/MetricsDashboardServlet.java:82-90 | for distinct records no `put` overwrites; the keys are the records in order |
| MetricsDashboard.DashboardBounds | src/main/java/metrics/MetricsDashboardServlet.java:74-80 | with records present both summaries are ranges enclosing every record |
| MetricsDashboard.DashboardIndexRange | src/main/java/metrics/MetricsDashboardServlet.java:74-89 | an index is a number iff both time and memory vary, and it then lies in [0, 1] |
| MetricsDashboard.DashboardFlatTimeIsNaN | src/main/java/metrics/MetricsDashboardServlet.java:85-88 | when all pipeline times are equal (a single record, say) every index is NaN |
| MetricsDashboard.DashboardBestScoresOne | src/main/java/metrics/MetricsDashboardServlet.java:74-89 | the fastest and leanest record scores exactly 1 |
| MetricsDashboard.DashboardWorstScoresZero | src/main/java/metrics/MetricsDashboardServlet.java:74-89 | the slowest and heaviest record scores exactly 0 |
| MetricsDashboard.DashboardRanksDominating | src/main/java/metrics/MetricsDashboardServlet.java:74-89 | a record no slower and no heavier than another, and strictly better in one, gets a strictly higher index |

## Left out

- File-system I/O (`Files.walk`, `Files.readString`, `getRealPath`) is replaced by its input: a sequence of paths in walk order, each with its text or `None` when reading threw. The walk order itself is not modelled. The `IOException` of the walk itself, and the `ServletException` wrapping it, are not modelled.
- `printStackTrace` on a failed read is left out. The file is skipped as the source does.
- Servlet plumbing is left out: content type, the `Content-Disposition` header, the response writer, the request attribute and the JSP forward. `ExportMetricsCsv.DoGet` returns the header and rows instead of writing them, and `MetricsDashboard.MetricsDashboardServlet.DoGet` returns the map instead of storing it on the request.
- The `%.1f`/`%.3f` formatting of a CSV row is not modelled: `Row` keeps the unformatted values.
- Floating-point rounding is not modelled: finite doubles are exact reals, and only the infinities and NaN of division by zero are kept.
- `computeDeploymentIndex` and `computeRollbackIndex` are called but defined nowhere in the repository. They are function parameters of the export, with the argument and result types of the calls, and nothing is assumed about them.
- `MetricsParser.FileName` takes `/` as the only path separator. On a platform whose separator is `\`, Java's `getFileName` would drop the parent directories that the model keeps in the name passed to `extractToolName`.
- `MetricRecord.isRollback` is also called but not defined. It is modelled as "the tool name ends with `-rollback`", the only way the parser encodes a rollback.
- `rollbackTime` is a Java `int` with an `int` setter, yet the parser passes it a `double`, which does not compile. The field is modelled as a real number.
- The dashboard servlet's `records` field is `null` until `init` runs, so an earlier `doGet` would throw. The model starts with no records instead.
- The Java regular-expression engine in general is not modelled, only the four patterns the parser uses. Case-insensitive matching and `toLowerCase` cover ASCII letters only.
- The earlier versions of each file, which are commented out, are not part of this model.
