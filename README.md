# Taiwan freeway vehicle-detector ingestion, modelled in Dafny

This project models the daily ingestion pipeline for the Taiwan freeway
vehicle detectors (VD). The pipeline downloads the day's 1440 per-minute
`VDLive_HHMM.xml.gz` snapshots and decompresses them. It then flattens each
XML snapshot into one CSV row per detector (VDID), stamps every row with its
`HHMM` time code, and regroups the day into one table per detector. Last, it
reconciles the row counts of the per-snapshot and per-detector tables.

Every foreign effect is an abstract input of the model:
- HTTP, gzip, `ET.parse`, pandas reads and writes;
- the local disk.

The disk is a `FileSystem.Disk` object whose `files` map (path to size) the
download and decompression methods update in place.

The modules follow the pipeline's stages:

| file | stage | form |
|---|---|---|
| `download.dfy` | `download.py`: manifest, plan, `download_file`, first pass, retry pass | methods over `Disk`, proved against fold functions |
| `decompress.dfy` | `decompress.py`: filter, target name, skip, continue on failure | method over `Disk`, proved against a fold |
| `convert.dfy` | `convert.py`: the `VDLive`/`Lane`/`Vehicle` loops building `data_dict` | methods proved equal to a fold over the document; lemmas about the fold |
| `process.dfy` | `process.py`: time code, stamping, concatenation, group-by, saving | functions for the pure parts, methods for the loops |
| `check.dfy` | `check.py`: row-count histograms, totals, sorted distributions, verdict | methods for the survey loops, functions and lemmas for the rest |
| `pipeline.dfy` | process.py and check.py together | the reconciliation theorem |
| `filesystem.dfy`, `odicts.dfy`, `seqs.dfy`, `strings.dfy`, `outcomes.dfy` | shared | `Disk`, insertion-ordered dicts, list comprehensions and sums, Python string operations, `Option`/`Result` |

Python dicts whose order matters are `ODicts.ODict` values: a key sequence
plus a map. This covers `data_dict`, its rows and the histograms, because
`dict.values()` and `dict.items()` follow insertion order. A cell value is
`Convert.Value`: a string, `None` (an element present without text, which
the f-strings render as `None`), or the integer `0` of the zero-fill.

The model follows the code in these places:
- An `OSError` while writing a downloaded file is not a `RequestException`.
  On the first pass the future's `except` catches it and records a failure.
  On the retry pass nothing catches it, so the download stage ends with an
  error (`Download.Retried`). A write that raises after `open(file_path, 'wb')`
  leaves a truncated target behind, which the next run skips as existing
  (`Download.RerunSkipsPartial`).
- A mismatch of the reconciled totals only changes the verdict
  (`Check.MakeReport`); nothing stops the run.
- A per-detector table exists only for rows with a VDID. Rows whose VDID
  cell is NaN are dropped by the group-by. `Pipeline.Reconciliation` shows
  that the totals then differ.

## Model

| member | source | states |
|---|---|---|
| Convert.NestedText | convert.py:16-18 | a missing child gives the empty string and never an error; a child without text gives `None`; otherwise its text |
| Convert.ClassOf | convert.py:63-71 | only the types `S`, `L` and `T` select a vehicle class, and the class selected is the one named |
| Convert.VehicleStepSpec | convert.py:58-71 | a vehicle of class S, L or T sets exactly its class's volume and speed columns of the lane; any other type leaves the row unchanged |
| Convert.VehiclesFoldClass | convert.py:58-71 | after a lane's vehicles, each class's two columns hold the last such vehicle's volume and speed, or are untouched when there is none |
| Convert.LaneStepFrame | convert.py:42-71 | a lane changes only its own eight `L{id}_…` columns, keeps the row valid and only appends new columns after the existing ones |
| Convert.LaneStepField | convert.py:42-71 | after a lane, each of its eight columns holds the lane's speed or occupancy, or the last vehicle of that class's values, or 0 |
| Convert.LaneWithoutVehicles | convert.py:47-56 | a lane with no `Vehicle` children ends with 0 in all six S/L/T columns |
| Convert.LanesFoldLastLane | convert.py:42-71 | with `_`-free lane ids, a column `L{name}_{field}` holds what the last lane with that id left (last seen wins, including re-zeroing) |
| Convert.EntriesFoldKeys | convert.py:34-40 | the keys of `data_dict` are the document's VDIDs, each once, in order of first appearance |
| Convert.EntriesFoldRow | convert.py:34-71 | the row of VDID `k` is its initial row updated by all lanes of all entries carrying `k`, in document order; a VDID never seen has no row |
| Convert.SnapshotShape | convert.py:37-40 | every output row starts with a `VDID` column equal to its key |
| Convert.SnapshotOneRowPerVdid | convert.py:32-74 | exactly one row per distinct VDID, with pairwise different VDIDs, in order of first appearance |
| Convert.DuplicateEntriesFold | convert.py:37-40 | two entries with the same VDID fold into one row, so there are fewer rows than entries |
| Convert.SnapshotLastSeenWins | convert.py:42-71 | in the output row of a VDID, each lane column holds the value from the last lane with that id across all of that VDID's entries, or is absent |
| Convert.VisitVehicle | convert.py:58-71 | the vehicle branch of the loop computes exactly one fold step |
| Convert.VisitLane | convert.py:42-71 | the lane body (eight assignments, then the vehicle loop) computes one lane step |
| Convert.WriteLaneHeader | convert.py:43-56 | the eight assignments that open a lane give the lane header: speed, occupancy and six zeroed class columns |
| Convert.VisitVehicles | convert.py:58-71 | the vehicle loop of a lane computes the fold of the vehicle step over the lane's vehicles |
| Convert.VisitLanes | convert.py:42-71 | the lane loop of an entry computes the fold of the lane step over the entry's lanes |
| Convert.VisitEntry | convert.py:34-71 | one `VDLive` iteration creates the row if new and applies the entry's lanes to it |
| Convert.ConvertDocument | convert.py:32-74 | the nested loops produce `list(data_dict.values())`, the rows described by the lemmas above |
| Convert.CsvNameOfStem | convert.py:77 | `VDLive_0855.xml` is written as `VDLive_0855.csv` |
| Convert.OutputsAndFailures | convert.py:26-83 | every `.xml` file yields a table or is skipped, never both; a file that parses is written as its snapshot under its `.csv` name, every table written comes from such a file, and exactly the files whose parse or write raised are skipped |
| Convert.ConvertXmlToCsv | convert.py:21-83 | only `.xml` names are processed, in listing order; an exception skips that file and the loop goes on |
| Process.TimeCode | process.py:21 | the time code is absent exactly when the name has no `_` |
| Process.TimeCodeOfSnapshot | process.py:20-21 | `VDLive_0855.csv` gives `0855` |
| Process.Stamp | process.py:26 | a `time` column goes first, holding the file's code in every row, with the other cells unchanged; it fails when the table already has `time` |
| Process.CollectedBadName | process.py:19-23 | a single `.csv` name without `_` ends the whole run |
| Process.CollectedGood | process.py:19-34 | when every name has `_` the run goes on and keeps at most one table per file |
| Process.CollectTables | process.py:19-34 | the reading loop skips files that fail to read or stamp and appends the rest in listing order |
| Process.Concat | process.py:37 | concatenation fails only on an empty list; its rows are all rows in order and its columns are the union |
| Process.RowsCount | process.py:37 | the combined row count is the sum of the per-file row counts |
| Process.GroupMembers | process.py:40-45 | a row is in group `k` exactly when it is a combined row with VDID `k`, so groups are disjoint, and `k` is a key exactly when its group is non-empty |
| Process.GroupOfTables | process.py:37-45 | each detector's group is that detector's rows of each snapshot, in snapshot order |
| Process.GroupsPartition | process.py:40-48 | the group sizes add up to the number of rows with a VDID: no row dropped or duplicated |
| Process.SavedOrUnsaved | process.py:44-53 | a failed save does not stop the others: a group is reported exactly when its own `to_csv` failed, every other group is saved as `{vdid}.csv` holding exactly its rows, and nothing else is saved |
| Process.SaveGroups | process.py:44-53 | the saving loop writes one file `{vdid}.csv` per group, in key order |
| Process.ProcessCsvFiles | process.py:14-53 | the whole stage: `.csv` names only, the combined table's row count is the sum of the files', and the errors that end the run |
| Check.Bump | check.py:32-35 | a new row count starts at 1, a known one goes up by 1, every other bucket is unchanged |
| Check.HistogramKeys | check.py:21-35 | the histogram's keys are the row counts met, each once, in order of first appearance |
| Check.HistogramCounts | check.py:32-35 | each bucket counts the files with that many rows, so it is at least 1 |
| Check.BumpTotals | check.py:73 | adding one file of `n` rows adds 1 to the file count and `n` to Σ k·count |
| Check.HistogramTotals | check.py:73-74 | the file counts sum to the number of files, and Σ k·count equals the plain sum of the row counts |
| Check.TotalOrderFree | check.py:21-74 | the total does not depend on the order of the directory listing |
| Check.RowCountsOfSpec | check.py:21-29 | the first unreadable `.csv` file ends the check; otherwise there is exactly one row count per listed file, the one read for it |
| Check.Survey | check.py:21-64 | the survey loop builds the histogram of the row counts; an unreadable file ends the check |
| Check.InsertSpec | check.py:83 | insertion keeps a sorted list sorted and adds the item once |
| Check.DistributionAscending | check.py:83-89 | the distribution is printed in strictly ascending row-count order |
| Check.DistributionItems | check.py:83-89 | the distribution lists every bucket with its file count and nothing else |
| Check.MakeReport | check.py:113-116 | the verdict is "same" exactly when the two totals are equal |
| Check.CheckFiles | check.py:11-74 | the check surveys `.csv` names on one side and every entry on the other; an absent per-detector folder gives an empty histogram |
| Check.CheckReport | check.py:44-116 | the report's totals are the sums of the row counts read, 0 for an absent per-detector folder, and the verdict compares them |
| Download.CodeSpec | download.py:59 | `f'{hour:02d}{minute:02d}'` gives four digits that read back as the hour and minute |
| Download.ManifestCodes | download.py:57-59 | all 1440 codes are `HHMM` with `HH` in 00-23 and `MM` in 00-59, and code `i` names minute `i` of the day |
| Download.ManifestChronological | download.py:57-59 | the codes are generated in chronological order, hence distinct |
| Download.TaskOf | download.py:60-61 | a code's URL and local target both end in `VDLive_{HHMM}.xml.gz` |
| Download.RetryPath | download.py:80 | the path rebuilt from `url.split('/')[-1]` is the original target |
| Download.PlanSpec | download.py:55-66 | a code becomes a task exactly when its target does not exist, each at most once; skipped plus tasks is 1440 |
| Download.PlanDownloads | download.py:55-66 | the nested hour/minute loops compute the plan and the skipped count |
| Download.PlanHour | download.py:58-66 | one hour's minute loop extends the plan by that hour's codes |
| Download.AttemptEffect | download.py:24-45 | one attempt touches only its own path; it leaves a file exactly when the payload is accepted (then of at least 1024 bytes) or a write broke off after the file was opened (then holding the bytes written, and the attempt raises); 1023 bytes are `'small'`, 1024 accepted |
| Download.RerunSkipsPartial | download.py:29-66 | a truncated target left by a broken write makes the next run skip that code instead of downloading it again |
| Download.DownloadFile | download.py:24-45 | write, size check and remove, with `'small'`, `True`, `False` or an escaping exception; a write that raises leaves what it wrote |
| Download.FirstPass | download.py:71-85 | the collection loop, in completion order, records every task whose result is not `True` or whose future raised |
| Download.FirstPassSpec | download.py:74-85 | whatever the completion order, the failed list holds exactly the planned tasks not downloaded, each once |
| Download.RetryPass | download.py:87-97 | the retry loop visits the failed tasks once each, in order |
| Download.RetriedSpec | download.py:88-97 | without an escaping exception, the tasks still failing are those whose retry was not `True`; otherwise the run ends at a task whose retry raised |
| Download.DownloadFilesForDay | download.py:47-97 | plan, first pass in any completion order, then one retry pass; existing files are untouched, and new files hold at least 1 KB unless a write to them broke off |
| Download.DayAddsFullFiles | download.py:29-34 | the day's run never changes a file that existed, and every file it adds holds at least 1 KB unless it is the target of a broken write on the first pass or the retry |
| Download.DaySpec | download.py:47-97 | a completed day reports the skipped count, the failures of the first pass (each once) and those failing again |
| Decompress.TargetNameSpec | decompress.py:23 | the target name of a `.xml.gz` name ends in `.xml` and gives the name back with `.gz` appended |
| Decompress.TargetPathInjective | decompress.py:23 | different compressed names have different targets |
| Decompress.DecompressFiles | decompress.py:15-40 | only `.xml.gz` names are visited, in listing order, by the skip-or-inflate loop |
| Decompress.DecompressOne | decompress.py:22-39 | one iteration of the loop makes exactly one step of the run: skip an existing target, or open it and record the outcome of the copy |
| Decompress.RunSpec | decompress.py:21-40 | every file is visited once whatever fails; an existing target is skipped, existing files are untouched, and only a full copy counts as decompressed |
| Decompress.RerunSkipsBroken | decompress.py:26-34 | a copy that breaks after the target was opened leaves the target behind, and a second run skips it |
| FileSystem.PathJoin | download.py:61 | `os.path.join` puts the file name last, after the folder and at most one separator |
| FileSystem.Disk.Write | download.py:29-30 | writing a payload creates or replaces the file with its size |
| FileSystem.Disk.Remove | download.py:34 | removing a file deletes exactly that path |
| Pipeline.AllSaved | process.py:44-53 | when no save fails, the saved files are the groups in key order |
| Pipeline.Reconciliation | check.py:113-116 | when every group is saved, the check says "same" exactly when every combined row has a VDID, whatever the listing orders |

## Left out

- The module-level creation of `D:\VD_data` (download.py:12-20) and every `os.makedirs`: directories are not modelled, only files.
- Network, gzip, XML parsing and pandas are inputs of the model:
  - `Download.Fetch`: what fetching and writing a URL amounts to;
  - `Decompress.Gunzip`: what inflating one file amounts to;
  - `Convert.FileOutcome`: the parsed document, or a failure;
  - `Process.Table`: the table `read_csv` returns, or none;
  - a row count per file for check.py.
- Thread-pool concurrency: the first pass is a sequential loop over a completion order that is any permutation of the tasks. Downloads of different tasks write different paths.
- `Download.DownloadFile`: an `OSError` from `os.path.getsize` or `os.remove` (download.py:33-34) is not modelled; only `open` and `file.write` can raise.
- tqdm progress bars, `print`, `display(HTML(...))` and log-file lines: these are presentation only. The model returns the corresponding lists (failures, still failing, skipped visits) instead.
- check.py's log file and printed lines: the model returns the `Check.Report` they show.
- pandas' `groupby` sorts its keys. The model keeps the groups in first-appearance order. No property here depends on the order of the groups.
- A CSV round trip turns an empty cell into NaN. The model gives cells as strings, and a row whose VDID cell is NaN is a row without a `VDID` entry.
- `Process.Row` has no column order. Only `Table.columns` is ordered.
- process.py uses `os`, `pd`, `tqdm`, `display` and `HTML` without importing them. The model assumes the imports.
- delete.py and main.py (best-effort cleanup and the interactive driver) are not part of this model. `Pipeline.Reconciliation` plays main.py's part of feeding one stage's output to the next.
- `Convert.SnapshotLastSeenWins`: holds only for lane ids whose text contains no `_`. With such ids, two lanes' column names cannot collide.
- `Convert.LanesFoldLastLane`: requires lane ids whose text contains no `_`, for the same reason. Lane `1` writes `L1_S_Vehicle_Speed`, and so does lane `1_S_Vehicle` through its `Speed` column; with such ids the last write to a column need not come from the last lane of one id, and the model does not say which lane it comes from.
