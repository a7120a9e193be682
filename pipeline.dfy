/** How the last two stages fit together: the per-sensor files that
    process.py writes hold the same rows as the per-snapshot files it reads,
    so check.py finds equal totals, unless some row has no VDID. */
module Pipeline {
  import opened Seqs
  import opened Process
  import Check

  /** The row counts of the per-sensor files, in the order they were saved. */
  function SavedSizes(saved: seq<Saved>): (sizes: seq<nat>)
    ensures |sizes| == |saved|
  {
    seq(|saved|, i requires 0 <= i < |saved| => |saved[i].rows|)
  }

  /** When every group is saved, the saved files are the groups, in key
      order. */
  lemma {:induction false} AllSaved(rows: seq<Row>, keys: seq<string>, save: string -> bool)
    requires UnsavedGroups(keys, save) == []
    ensures SavedSizes(SavedGroups(rows, keys, save)) == GroupSizes(rows, keys)
    decreases |keys|
  {
    if keys != [] {
      var init := keys[..|keys| - 1];
      SavedOrUnsavedCount(rows, init, save);
      AllSaved(rows, init, save);
      assert GroupSizes(rows, keys)[..|init|] == GroupSizes(rows, init);
      assert SavedSizes(SavedGroups(rows, keys, save))[..|init|] == SavedSizes(SavedGroups(rows, init, save));
    }
  }

  /** Rows without a VDID belong to no group: the group sizes fall short of
      the row count by at least one when some row has none. */
  lemma {:induction false} VdidCellsMissing(rows: seq<Row>, i: nat)
    requires i < |rows| && !HasVdid(rows[i])
    ensures |VdidCells(rows)| < |rows|
    decreases |rows|
  {
    var init := rows[..|rows| - 1];
    if i < |rows| - 1 {
      assert init[i] == rows[i];
      VdidCellsMissing(init, i);
    } else {
      VdidCellsAtMost(init);
    }
  }

  lemma {:induction false} VdidCellsAtMost(rows: seq<Row>)
    ensures |VdidCells(rows)| <= |rows|
    decreases |rows|
  {
    if rows != [] {
      VdidCellsAtMost(rows[..|rows| - 1]);
    }
  }

  /** The reconciliation: the per-snapshot tables `dfs` are what both
      process.py and check.py read from the snapshot folder, and check.py
      lists the per-sensor folder in any order. When every group was saved,
      the per-sensor total is the per-snapshot total exactly when every row
      had a VDID; otherwise it is smaller and the verdict is "different". */
  lemma Reconciliation(dfs: seq<Table>, save: string -> bool, csvCounts: seq<nat>, vdidCounts: seq<nat>)
    requires UnsavedGroups(GroupKeys(Rows(dfs)), save) == []
    requires multiset(csvCounts) == multiset(RowCounts(dfs))
    requires multiset(vdidCounts) == multiset(SavedSizes(SavedGroups(Rows(dfs), GroupKeys(Rows(dfs)), save)))
    ensures var report := Check.MakeReport(Check.HistogramOf(csvCounts), Check.HistogramOf(vdidCounts));
      report.same <==> forall i :: 0 <= i < |Rows(dfs)| ==> HasVdid(Rows(dfs)[i])
  {
    var rows := Rows(dfs);
    Check.HistogramTotals(csvCounts);
    Check.HistogramTotals(vdidCounts);
    Check.SumOfMultiset(csvCounts, RowCounts(dfs));
    AllSaved(rows, GroupKeys(rows), save);
    Check.SumOfMultiset(vdidCounts, GroupSizes(rows, GroupKeys(rows)));
    RowsCount(dfs);
    GroupsPartition(rows);
    if forall i :: 0 <= i < |rows| ==> HasVdid(rows[i]) {
      VdidCellsAll(rows);
    } else {
      var i :| 0 <= i < |rows| && !HasVdid(rows[i]);
      VdidCellsMissing(rows, i);
    }
  }
}
