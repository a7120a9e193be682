/** The aggregator of process.py: the per-snapshot tables of a day are read
    back, stamped with their `HHMM` time code, concatenated in listing order,
    and grouped by VDID into one table per sensor. */
module Process {
  import opened Outcomes
  import opened Strings
  import opened Seqs
  import opened ODicts

  // ---------------------------------------------------------------------------
  // Tables as pandas reads them back.

  /** A row read from a CSV file: column name to cell. A column the row lacks
      is NaN (reading a CSV back also turns an empty cell into NaN). */
  type Row = map<string, string>

  datatype Table = Table(columns: seq<string>, rows: seq<Row>)

  /** The exceptions that escape `process_csv_files` and end the run. */
  datatype Failure =
    | BadFileName(name: string)  // `filename.split('_')[1]` raised IndexError
    | NothingToConcatenate       // `pd.concat([])` raised ValueError
    | NoVdidColumn               // `groupby('VDID')` raised KeyError

  // ---------------------------------------------------------------------------
  // Time codes and stamping.

  /** `filename.split('_')[1].split('.')[0]`; a name without `_` has no second
      piece, and indexing it raises. */
  function TimeCode(filename: string): (code: Option<string>)
    ensures code.None? <==> '_' !in filename
  {
    SplitCount(filename, '_');
    var parts := Split(filename, '_');
    if |parts| < 2 then None
    else
      SplitNonEmpty(parts[1], '.');
      Some(Split(parts[1], '.')[0])
  }

  /** The snapshot file of minute `code` yields `code`: `VDLive_0855.csv`
      gives `0855`. */
  lemma TimeCodeOfSnapshot(code: string)
    requires '_' !in code && '.' !in code
    ensures TimeCode("VDLive_" + code + ".csv") == Some(code)
  {
    var rest := code + ".csv";
    assert "VDLive_" + code + ".csv" == "VDLive" + ['_'] + rest;
    SplitAfterPrefix("VDLive", '_', rest);
    assert '_' !in rest by { assert rest == code + ['.'] + "csv"; }
    assert Split(rest, '_') == [rest];
    assert rest == code + ['.'] + "csv";
    SplitAfterPrefix(code, '.', "csv");
  }

  /** `df.insert(0, 'time', time)`: a `time` column placed first, holding the
      file's code in every row; it raises when the table already has one. */
  function Stamp(code: string, t: Table): (r: Option<Table>)
    ensures r.None? <==> "time" in t.columns
    ensures r.Some? ==> r.value.columns == ["time"] + t.columns && |r.value.rows| == |t.rows|
    ensures r.Some? ==> forall i :: 0 <= i < |t.rows| ==>
      && "time" in r.value.rows[i] && r.value.rows[i]["time"] == code
      && forall c :: c != "time" ==> (c in r.value.rows[i] <==> c in t.rows[i]) && (c in t.rows[i] ==> r.value.rows[i][c] == t.rows[i][c])
  {
    if "time" in t.columns then None
    else Some(Table(["time"] + t.columns, seq(|t.rows|, i requires 0 <= i < |t.rows| => t.rows[i]["time" := code])))
  }

  /** The tables the reading loop appends for `files`, in listing order: a
      file that fails to read or to stamp is skipped, and a name without `_`
      ends the run. */
  function Collected(files: seq<string>, read: string -> Option<Table>): Result<seq<Table>, Failure> {
    if files == [] then Ok([])
    else
      var name := files[|files| - 1];
      match Collected(files[..|files| - 1], read)
      case Err(e) => Err(e)
      case Ok(dfs) =>
        match TimeCode(name)
        case None => Err(BadFileName(name))
        case Some(code) =>
          match read(name)
          case None => Ok(dfs)
          case Some(t) =>
            match Stamp(code, t)
            case None => Ok(dfs)
            case Some(stamped) => Ok(dfs + [stamped])
  }

  /** The time code is taken outside the `try`: one name without `_` anywhere
      in the listing ends the whole run. */
  lemma {:induction false} CollectedBadName(files: seq<string>, read: string -> Option<Table>, i: nat)
    requires i < |files| && '_' !in files[i]
    ensures Collected(files, read).Err?
    decreases |files|
  {
    if i < |files| - 1 {
      CollectedBadName(files[..|files| - 1], read, i);
    }
  }

  /** When every name has a `_`, the run goes on, and the tables kept are at
      most one per file. */
  lemma {:induction false} CollectedGood(files: seq<string>, read: string -> Option<Table>)
    requires forall i :: 0 <= i < |files| ==> '_' in files[i]
    ensures Collected(files, read).Ok? && |Collected(files, read).value| <= |files|
    decreases |files|
  {
    if files != [] {
      CollectedGood(files[..|files| - 1], read);
    }
  }

  /** The reading loop: every `.csv` name's time code, then its table read and
      stamped; failures to read are skipped, and successfully read tables are
      appended in listing order. */
  method CollectTables(files: seq<string>, read: string -> Option<Table>)
    returns (r: Result<seq<Table>, Failure>)
    ensures r == Collected(files, read)
  {
    var dfs: seq<Table> := [];
    var i := 0;
    while i < |files|
      invariant 0 <= i <= |files|
      invariant Collected(files[..i], read) == Ok(dfs)
    {
      var filename := files[i];
      assert files[..i + 1][..i] == files[..i];
      var time := TimeCode(filename);
      if time.None? {
        CollectedBadName(files, read, i);
        assert files[..i + 1][i] == filename;
        CollectedPrefixErr(files, read, i + 1);
        return Err(BadFileName(filename));
      }
      match read(filename) {
        case None =>
        case Some(df) =>
          var stamped := Stamp(time.value, df);
          if stamped.Some? {
            dfs := dfs + [stamped.value];
          }
      }
      i := i + 1;
    }
    assert files[..i] == files;
    return Ok(dfs);
  }

  /** Once the run has ended on a prefix, it stays ended with the same error. */
  lemma {:induction false} CollectedPrefixErr(files: seq<string>, read: string -> Option<Table>, n: nat)
    requires n <= |files| && Collected(files[..n], read).Err?
    ensures Collected(files, read) == Collected(files[..n], read)
    decreases |files| - n
  {
    if n < |files| {
      assert files[..n + 1][..n] == files[..n];
      CollectedPrefixErr(files, read, n + 1);
    } else {
      assert files[..n] == files;
    }
  }

  // ---------------------------------------------------------------------------
  // Concatenation.

  /** All rows of the tables, in order. */
  function Rows(dfs: seq<Table>): seq<Row> {
    if dfs == [] then [] else Rows(dfs[..|dfs| - 1]) + dfs[|dfs| - 1].rows
  }

  /** All column lists of the tables, in order. */
  function AllColumns(dfs: seq<Table>): seq<string> {
    if dfs == [] then [] else AllColumns(dfs[..|dfs| - 1]) + dfs[|dfs| - 1].columns
  }

  /** The row counts of the tables, in order. */
  function RowCounts(dfs: seq<Table>): (counts: seq<nat>)
    ensures |counts| == |dfs|
    ensures forall i :: 0 <= i < |dfs| ==> counts[i] == |dfs[i].rows|
  {
    seq(|dfs|, i requires 0 <= i < |dfs| => |dfs[i].rows|)
  }

  /** `pd.concat(dfs, ignore_index=True)`: the rows of all tables in order,
      under the union of their columns in order of first appearance; an empty
      list raises. */
  function Concat(dfs: seq<Table>): (r: Result<Table, Failure>)
    ensures r.Err? <==> dfs == []
    ensures r.Ok? ==> r.value.rows == Rows(dfs)
    ensures r.Ok? ==> forall c :: c in r.value.columns <==> exists i :: 0 <= i < |dfs| && c in dfs[i].columns
  {
    if dfs == [] then Err(NothingToConcatenate)
    else
      DistinctSpec(AllColumns(dfs));
      AllColumnsSpec(dfs);
      Ok(Table(Distinct(AllColumns(dfs)), Rows(dfs)))
  }

  lemma {:induction false} AllColumnsSpec(dfs: seq<Table>)
    ensures forall c :: c in AllColumns(dfs) <==> exists i :: 0 <= i < |dfs| && c in dfs[i].columns
    decreases |dfs|
  {
    if dfs != [] {
      var init := dfs[..|dfs| - 1];
      AllColumnsSpec(init);
      forall c | c in AllColumns(dfs) ensures exists i :: 0 <= i < |dfs| && c in dfs[i].columns {
        if c in AllColumns(init) {
          var i :| 0 <= i < |init| && c in init[i].columns;
          assert dfs[i] == init[i];
        }
      }
      forall c | (exists i :: 0 <= i < |dfs| && c in dfs[i].columns) ensures c in AllColumns(dfs) {
        var i :| 0 <= i < |dfs| && c in dfs[i].columns;
        if i < |dfs| - 1 {
          assert init[i] == dfs[i];
        }
      }
    }
  }

  /** The combined row count is the sum of the per-file row counts. */
  lemma {:induction false} RowsCount(dfs: seq<Table>)
    ensures |Rows(dfs)| == Sum(RowCounts(dfs))
    decreases |dfs|
  {
    if dfs != [] {
      RowsCount(dfs[..|dfs| - 1]);
      assert RowCounts(dfs)[..|dfs| - 1] == RowCounts(dfs[..|dfs| - 1]);
    }
  }

  // ---------------------------------------------------------------------------
  // Group-by.

  /** The rows that belong to group `k`: those whose VDID cell is `k`. */
  function InGroup(k: string): Row -> bool {
    row => "VDID" in row && row["VDID"] == k
  }

  predicate HasVdid(row: Row) {
    "VDID" in row
  }

  /** `combined_df.groupby('VDID').get_group(k)`: the combined rows with VDID
      `k`, in their combined order. */
  function Group(rows: seq<Row>, k: string): seq<Row> {
    Filter(rows, InGroup(k))
  }

  /** The VDID cells of the rows that have one, in order. */
  function VdidCells(rows: seq<Row>): seq<string> {
    if rows == [] then []
    else VdidCells(rows[..|rows| - 1]) + (if HasVdid(rows[|rows| - 1]) then [rows[|rows| - 1]["VDID"]] else [])
  }

  /** The group keys: every VDID that occurs, once, in order of first
      appearance. Rows with no VDID (NaN) belong to no group. */
  function GroupKeys(rows: seq<Row>): seq<string> {
    Distinct(VdidCells(rows))
  }

  /** The sizes of the groups of `keys`. */
  function GroupSizes(rows: seq<Row>, keys: seq<string>): (sizes: seq<nat>)
    ensures |sizes| == |keys|
    ensures forall i :: 0 <= i < |keys| ==> sizes[i] == |Group(rows, keys[i])|
  {
    seq(|keys|, i requires 0 <= i < |keys| => |Group(rows, keys[i])|)
  }

  /** A row is in group `k` exactly when it is one of the combined rows and
      its VDID is `k`; so a row is in at most one group, and every row with a
      VDID is in the group of that VDID, which is one of the keys. */
  lemma GroupMembers(rows: seq<Row>, k: string)
    ensures forall row :: row in Group(rows, k) <==> row in rows && HasVdid(row) && row["VDID"] == k
    ensures k in GroupKeys(rows) <==> Group(rows, k) != []
  {
    DistinctSpec(VdidCells(rows));
    VdidCellsSpec(rows);
    if k in VdidCells(rows) {
      var i :| 0 <= i < |rows| && HasVdid(rows[i]) && rows[i]["VDID"] == k;
      assert InGroup(k)(rows[i]);
      assert rows[i] in Group(rows, k);
    }
    if Group(rows, k) != [] {
      var row := Group(rows, k)[0];
      assert row in Group(rows, k);
      var i :| 0 <= i < |rows| && rows[i] == row;
      assert HasVdid(rows[i]) && rows[i]["VDID"] == k;
    }
  }

  lemma {:induction false} VdidCellsSpec(rows: seq<Row>)
    ensures forall k :: k in VdidCells(rows) <==> exists i :: 0 <= i < |rows| && HasVdid(rows[i]) && rows[i]["VDID"] == k
    decreases |rows|
  {
    if rows != [] {
      var init := rows[..|rows| - 1];
      VdidCellsSpec(init);
      forall k | k in VdidCells(rows) ensures exists i :: 0 <= i < |rows| && HasVdid(rows[i]) && rows[i]["VDID"] == k {
        if k in VdidCells(init) {
          var i :| 0 <= i < |init| && HasVdid(init[i]) && init[i]["VDID"] == k;
          assert rows[i] == init[i];
        }
      }
      forall k | (exists i :: 0 <= i < |rows| && HasVdid(rows[i]) && rows[i]["VDID"] == k) ensures k in VdidCells(rows) {
        var i :| 0 <= i < |rows| && HasVdid(rows[i]) && rows[i]["VDID"] == k;
        if i < |rows| - 1 {
          assert init[i] == rows[i];
        }
      }
    }
  }

  /** Grouping follows the order of the snapshots: the group of `k` over two
      runs of rows is its group over the first, then over the second. */
  lemma GroupAppend(a: seq<Row>, b: seq<Row>, k: string)
    ensures Group(a + b, k) == Group(a, k) + Group(b, k)
  {
    FilterAppend(a, b, InGroup(k));
  }

  /** Each sensor's table keeps the relative order of the snapshot tables it
      came from: it is the concatenation, in listing order, of that sensor's
      rows in each snapshot. */
  lemma {:induction false} GroupOfTables(dfs: seq<Table>, k: string)
    ensures Group(Rows(dfs), k) == GroupsOf(dfs, k)
    decreases |dfs|
  {
    if dfs != [] {
      GroupOfTables(dfs[..|dfs| - 1], k);
      GroupAppend(Rows(dfs[..|dfs| - 1]), dfs[|dfs| - 1].rows, k);
    }
  }

  /** The rows with VDID `k` of each table, table by table. */
  function GroupsOf(dfs: seq<Table>, k: string): seq<Row> {
    if dfs == [] then [] else GroupsOf(dfs[..|dfs| - 1], k) + Group(dfs[|dfs| - 1].rows, k)
  }

  /** The groups repartition the combined rows: their sizes add up to the
      number of rows that have a VDID, so no row is dropped or duplicated. */
  lemma {:induction false} GroupsPartition(rows: seq<Row>)
    ensures Sum(GroupSizes(rows, GroupKeys(rows))) == |VdidCells(rows)|
    decreases |rows|
  {
    if rows != [] {
      var init, last := rows[..|rows| - 1], rows[|rows| - 1];
      GroupsPartition(init);
      assert rows == init + [last];
      if HasVdid(last) {
        PartitionStepVdid(init, last);
      } else {
        PartitionStepNoVdid(init, last);
      }
    }
  }

  /** A row without a VDID joins no group. */
  lemma PartitionStepNoVdid(init: seq<Row>, last: Row)
    requires !HasVdid(last)
    ensures VdidCells(init + [last]) == VdidCells(init)
    ensures GroupSizes(init + [last], GroupKeys(init + [last])) == GroupSizes(init, GroupKeys(init))
  {
    var rows := init + [last];
    assert rows[..|rows| - 1] == init;
    forall k ensures Group(rows, k) == Group(init, k) {
      GroupAppend(init, [last], k);
      assert Filter([last], InGroup(k)) == [] by { assert !InGroup(k)(last); }
    }
  }

  /** A row with VDID `v` adds one to the size of group `v`, which is new when
      `v` has not been seen before. */
  lemma PartitionStepVdid(init: seq<Row>, last: Row)
    requires HasVdid(last)
    ensures Sum(GroupSizes(init + [last], GroupKeys(init + [last]))) == Sum(GroupSizes(init, GroupKeys(init))) + 1
    ensures |VdidCells(init + [last])| == |VdidCells(init)| + 1
  {
    VdidCellsSnoc(init, last);
    if last["VDID"] in GroupKeys(init) {
      OldGroupGrows(init, last);
    } else {
      NewGroup(init, last);
    }
  }

  lemma OldGroupGrows(init: seq<Row>, last: Row)
    requires HasVdid(last) && last["VDID"] in GroupKeys(init)
    ensures Sum(GroupSizes(init + [last], GroupKeys(init))) == Sum(GroupSizes(init, GroupKeys(init))) + 1
  {
    var keys0 := GroupKeys(init);
    var a, b := GroupSizes(init, keys0), GroupSizes(init + [last], keys0);
    GroupSnoc(init, last);
    var j :| 0 <= j < |keys0| && keys0[j] == last["VDID"];
    assert b[j] == a[j] + 1;
    forall i | 0 <= i < |a| && i != j ensures b[i] == a[i] {
      DistinctSpec(VdidCells(init));
    }
    SumIncrementAt(a, b, j, 1);
  }

  lemma NewGroup(init: seq<Row>, last: Row)
    requires HasVdid(last) && last["VDID"] !in GroupKeys(init)
    ensures Sum(GroupSizes(init + [last], GroupKeys(init) + [last["VDID"]])) == Sum(GroupSizes(init, GroupKeys(init))) + 1
  {
    var v := last["VDID"];
    var keys0 := GroupKeys(init);
    var a, b := GroupSizes(init, keys0), GroupSizes(init + [last], keys0 + [v]);
    GroupSnoc(init, last);
    GroupMembers(init, v);
    assert b[|keys0|] == 1;
    forall i | 0 <= i < |keys0| ensures b[i] == a[i] {
      assert keys0[i] != v;
    }
    assert b == a + [1];
    SumAppend(a, [1]);
  }

  lemma VdidCellsSnoc(init: seq<Row>, last: Row)
    requires HasVdid(last)
    ensures VdidCells(init + [last]) == VdidCells(init) + [last["VDID"]]
    ensures GroupKeys(init + [last]) ==
      if last["VDID"] in GroupKeys(init) then GroupKeys(init) else GroupKeys(init) + [last["VDID"]]
  {
    var rows := init + [last];
    assert rows[..|rows| - 1] == init;
    var cells := VdidCells(rows);
    assert cells[..|cells| - 1] == VdidCells(init);
  }

  lemma GroupSnoc(init: seq<Row>, last: Row)
    requires HasVdid(last)
    ensures forall k :: Group(init + [last], k) == Group(init, k) + (if k == last["VDID"] then [last] else [])
  {
    forall k ensures Group(init + [last], k) == Group(init, k) + (if k == last["VDID"] then [last] else []) {
      GroupAppend(init, [last], k);
      assert [last][..0] == [];
    }
  }

  /** When every row has a VDID, the group sizes add up to the row count. */
  lemma {:induction false} VdidCellsAll(rows: seq<Row>)
    requires forall i :: 0 <= i < |rows| ==> HasVdid(rows[i])
    ensures |VdidCells(rows)| == |rows|
    decreases |rows|
  {
    if rows != [] {
      VdidCellsAll(rows[..|rows| - 1]);
    }
  }

  // ---------------------------------------------------------------------------
  // Saving the groups.

  /** A per-sensor table written to `{vdid}.csv`. */
  datatype Saved = Saved(name: string, rows: seq<Row>)

  /** The tables the saving loop writes for `keys`, in order; a group whose
      `to_csv` raises is reported and skipped. */
  function SavedGroups(rows: seq<Row>, keys: seq<string>, save: string -> bool): seq<Saved> {
    if keys == [] then []
    else
      var k := keys[|keys| - 1];
      SavedGroups(rows, keys[..|keys| - 1], save) + (if save(k + ".csv") then [Saved(k + ".csv", Group(rows, k))] else [])
  }

  /** The groups whose saving failed, in order. */
  function UnsavedGroups(keys: seq<string>, save: string -> bool): seq<string> {
    if keys == [] then []
    else UnsavedGroups(keys[..|keys| - 1], save) + (if save(keys[|keys| - 1] + ".csv") then [] else [keys[|keys| - 1]])
  }

  /** A failure saving one group does not stop the others: every group is
      either saved, as `{vdid}.csv` holding exactly its rows, or reported,
      according to whether its own `to_csv` succeeded; nothing else is saved. */
  lemma {:induction false} SavedOrUnsaved(rows: seq<Row>, keys: seq<string>, save: string -> bool)
    ensures |SavedGroups(rows, keys, save)| + |UnsavedGroups(keys, save)| == |keys|
    ensures forall k :: k in UnsavedGroups(keys, save) <==> k in keys && !save(k + ".csv")
    ensures forall k :: k in keys && save(k + ".csv") ==> Saved(k + ".csv", Group(rows, k)) in SavedGroups(rows, keys, save)
    ensures forall s :: s in SavedGroups(rows, keys, save) ==>
      exists k :: k in keys && save(k + ".csv") && s == Saved(k + ".csv", Group(rows, k))
    decreases |keys|
  {
    SavedOrUnsavedCount(rows, keys, save);
    if keys != [] {
      var init, last := keys[..|keys| - 1], keys[|keys| - 1];
      SavedOrUnsaved(rows, init, save);
      assert keys == init + [last];
      assert forall k :: k in keys <==> k in init || k == last;
      SavedGroupsMembers(rows, keys, save);
    }
  }

  lemma {:induction false} SavedOrUnsavedCount(rows: seq<Row>, keys: seq<string>, save: string -> bool)
    ensures |SavedGroups(rows, keys, save)| + |UnsavedGroups(keys, save)| == |keys|
    decreases |keys|
  {
    if keys != [] {
      SavedOrUnsavedCount(rows, keys[..|keys| - 1], save);
    }
  }

  /** The saved tables of `keys` are those of all keys but the last, and the
      last one's if its save succeeded. */
  lemma SavedGroupsMembers(rows: seq<Row>, keys: seq<string>, save: string -> bool)
    requires keys != []
    ensures var init, last := keys[..|keys| - 1], keys[|keys| - 1];
      forall s :: s in SavedGroups(rows, keys, save) <==>
        s in SavedGroups(rows, init, save) || (save(last + ".csv") && s == Saved(last + ".csv", Group(rows, last)))
  {
  }

  /** The loop over the groups, writing each to its own file. */
  method SaveGroups(rows: seq<Row>, save: string -> bool) returns (saved: seq<Saved>, unsaved: seq<string>)
    ensures saved == SavedGroups(rows, GroupKeys(rows), save)
    ensures unsaved == UnsavedGroups(GroupKeys(rows), save)
    ensures |saved| + |unsaved| == |GroupKeys(rows)|
  {
    var keys := GroupKeys(rows);
    saved, unsaved := [], [];
    var i := 0;
    while i < |keys|
      invariant 0 <= i <= |keys|
      invariant saved == SavedGroups(rows, keys[..i], save)
      invariant unsaved == UnsavedGroups(keys[..i], save)
    {
      var vdid := keys[i];
      assert keys[..i + 1][..i] == keys[..i];
      if save(vdid + ".csv") {
        saved := saved + [Saved(vdid + ".csv", Group(rows, vdid))];
      } else {
        unsaved := unsaved + [vdid];
      }
      i := i + 1;
    }
    assert keys[..i] == keys;
    SavedOrUnsavedCount(rows, keys, save);
  }

  // ---------------------------------------------------------------------------
  // The whole of `process_csv_files`.

  /** What a run leaves: the combined table and the per-sensor files. */
  datatype Run = Run(combined: Table, saved: seq<Saved>, unsaved: seq<string>)

  /** The run as a function of the directory listing and the outcomes of
      reading each file and saving each group. */
  function ProcessSpec(listing: seq<string>, read: string -> Option<Table>, save: string -> bool): Result<Run, Failure> {
    match Collected(Filter(listing, IsCsv), read)
    case Err(e) => Err(e)
    case Ok(dfs) =>
      match Concat(dfs)
      case Err(e) => Err(e)
      case Ok(combined) =>
        if "VDID" !in combined.columns then Err(NoVdidColumn)
        else Ok(Run(combined, SavedGroups(combined.rows, GroupKeys(combined.rows), save),
                    UnsavedGroups(GroupKeys(combined.rows), save)))
  }

  /** `process_csv_files`: only `.csv` names are read; the stamped tables are
      concatenated in listing order and grouped by VDID, one file per group. */
  method ProcessCsvFiles(listing: seq<string>, read: string -> Option<Table>, save: string -> bool)
    returns (r: Result<Run, Failure>)
    ensures r == ProcessSpec(listing, read, save)
    ensures r.Ok? ==> |r.value.combined.rows| == Sum(RowCounts(Collected(Filter(listing, IsCsv), read).value))
  {
    var csvFiles := Filter(listing, IsCsv);
    var dfs := CollectTables(csvFiles, read);
    if dfs.Err? {
      return Err(dfs.error);
    }
    var combined := Concat(dfs.value);
    if combined.Err? {
      return Err(combined.error);
    }
    RowsCount(dfs.value);
    if "VDID" !in combined.value.columns {
      return Err(NoVdidColumn);
    }
    var saved, unsaved := SaveGroups(combined.value.rows, save);
    return Ok(Run(combined.value, saved, unsaved));
  }
}
