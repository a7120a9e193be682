/** The reconciler of check.py: histograms of row counts over the
    per-snapshot and the per-sensor tables, their totals, and the verdict
    that compares them. */
module Check {
  import opened Outcomes
  import opened Strings
  import opened Seqs
  import opened ODicts

  /** Row count to number of files, in the order the row counts were first
      met (`csv_row_counts`, `vdid_row_counts`). */
  type Histogram = ODict<nat, nat>

  // ---------------------------------------------------------------------------
  // Building a histogram.

  /** `if num_rows in h: h[num_rows] += 1 else: h[num_rows] = 1`. */
  function Bump(h: Histogram, n: nat): (r: Histogram)
    requires h.Valid()
    ensures r.Valid()
    ensures n in r.vals && r.vals[n] == (if n in h.vals then h.vals[n] + 1 else 1)
    ensures forall m :: m != n ==> (m in r.vals <==> m in h.vals) && (m in h.vals ==> r.vals[m] == h.vals[m])
    ensures r.keys == if n in h.vals then h.keys else h.keys + [n]
  {
    PutValid(h, n, if n in h.vals then h.vals[n] + 1 else 1);
    if n in h.vals then h.Put(n, h.vals[n] + 1) else h.Put(n, 1)
  }

  /** The histogram of a sequence of row counts, built one count at a time. */
  function HistogramOf(counts: seq<nat>): (h: Histogram)
    ensures h.Valid()
  {
    if counts == [] then Empty() else Bump(HistogramOf(counts[..|counts| - 1]), counts[|counts| - 1])
  }

  /** `[h[k] for k in h]`: the file counts, in key order. */
  function FileCounts(h: Histogram): (r: seq<nat>)
    requires h.Valid()
    ensures |r| == |h.keys|
  {
    seq(|h.keys|, i requires 0 <= i < |h.keys| => h.vals[h.keys[i]])
  }

  /** `[k * h[k] for k in h]`: the rows contributed by each row count. */
  function RowTerms(h: Histogram): (r: seq<nat>)
    requires h.Valid()
    ensures |r| == |h.keys|
  {
    seq(|h.keys|, i requires 0 <= i < |h.keys| => h.keys[i] * h.vals[h.keys[i]])
  }

  /** `sum(num_rows * count for num_rows, count in h.items())`. */
  function Total(h: Histogram): nat
    requires h.Valid()
  {
    Sum(RowTerms(h))
  }

  /** The histogram's keys are the row counts met, each once, in order of
      first appearance. */
  lemma {:induction false} HistogramKeys(counts: seq<nat>)
    ensures HistogramOf(counts).keys == Distinct(counts)
    decreases |counts|
  {
    if counts != [] {
      HistogramKeys(counts[..|counts| - 1]);
    }
  }

  /** Each bucket holds the number of files with that many rows, so at
      least 1; a row count that was never met has no bucket. */
  lemma {:induction false} HistogramCounts(counts: seq<nat>)
    ensures forall n :: n in HistogramOf(counts).vals <==> n in counts
    ensures forall n :: n in HistogramOf(counts).vals ==>
      HistogramOf(counts).vals[n] == multiset(counts)[n] && HistogramOf(counts).vals[n] >= 1
    decreases |counts|
  {
    if counts != [] {
      var init, n := counts[..|counts| - 1], counts[|counts| - 1];
      HistogramCounts(init);
      assert counts == init + [n];
      assert multiset(counts) == multiset(init) + multiset{n};
    }
  }

  /** Adding one file of `n` rows adds one to the file count and `n` to the
      row total. */
  lemma BumpTotals(h: Histogram, n: nat)
    requires h.Valid()
    ensures Sum(FileCounts(Bump(h, n))) == Sum(FileCounts(h)) + 1
    ensures Total(Bump(h, n)) == Total(h) + n
  {
    if n in h.vals {
      BumpOld(h, n);
    } else {
      BumpNew(h, n);
    }
  }

  lemma BumpOld(h: Histogram, n: nat)
    requires h.Valid() && n in h.vals
    ensures Sum(FileCounts(Bump(h, n))) == Sum(FileCounts(h)) + 1
    ensures Total(Bump(h, n)) == Total(h) + n
  {
    var r := Bump(h, n);
    assert r == ODict(h.keys, h.vals[n := h.vals[n] + 1]);
    var j :| 0 <= j < |h.keys| && h.keys[j] == n;
    BumpOldCounts(h, r, j);
    BumpOldRows(h, r, j);
  }

  /** A bucket that goes up by one adds one file. */
  lemma BumpOldCounts(h: Histogram, r: Histogram, j: nat)
    requires h.Valid() && r.Valid() && j < |h.keys|
    requires r == ODict(h.keys, h.vals[h.keys[j] := h.vals[h.keys[j]] + 1])
    ensures Sum(FileCounts(r)) == Sum(FileCounts(h)) + 1
  {
    var a, b := FileCounts(h), FileCounts(r);
    forall i | 0 <= i < |a| && i != j ensures b[i] == a[i] {
      assert h.keys[i] != h.keys[j];
    }
    SumIncrementAt(a, b, j, 1);
  }

  /** A bucket of `n` rows that goes up by one adds `n` rows. */
  lemma BumpOldRows(h: Histogram, r: Histogram, j: nat)
    requires h.Valid() && r.Valid() && j < |h.keys|
    requires r == ODict(h.keys, h.vals[h.keys[j] := h.vals[h.keys[j]] + 1])
    ensures Total(r) == Total(h) + h.keys[j]
  {
    var n := h.keys[j];
    var c, d := RowTerms(h), RowTerms(r);
    forall i | 0 <= i < |c| && i != j ensures d[i] == c[i] {
      assert h.keys[i] != n;
    }
    assert d[j] == n * (h.vals[n] + 1) == c[j] + n;
    SumIncrementAt(c, d, j, n);
  }

  lemma BumpNew(h: Histogram, n: nat)
    requires h.Valid() && n !in h.vals
    ensures Sum(FileCounts(Bump(h, n))) == Sum(FileCounts(h)) + 1
    ensures Total(Bump(h, n)) == Total(h) + n
  {
    var r := Bump(h, n);
    assert FileCounts(r) == FileCounts(h) + [1];
    assert RowTerms(r) == RowTerms(h) + [n];
    SumAppend(FileCounts(h), [1]);
    SumAppend(RowTerms(h), [n]);
  }

  /** The file counts add up to the number of files, and the total
      Σ k·count equals the plain sum of the individual row counts. */
  lemma {:induction false} HistogramTotals(counts: seq<nat>)
    ensures Sum(FileCounts(HistogramOf(counts))) == |counts|
    ensures Total(HistogramOf(counts)) == Sum(counts)
    decreases |counts|
  {
    if counts != [] {
      HistogramTotals(counts[..|counts| - 1]);
      BumpTotals(HistogramOf(counts[..|counts| - 1]), counts[|counts| - 1]);
    }
  }

  /** The histogram, and hence the total, depends only on the multiset of
      row counts: any order of the files gives the same total. */
  lemma TotalOrderFree(a: seq<nat>, b: seq<nat>)
    requires multiset(a) == multiset(b)
    ensures Total(HistogramOf(a)) == Total(HistogramOf(b))
  {
    HistogramTotals(a);
    HistogramTotals(b);
    SumOfMultiset(a, b);
  }

  lemma {:induction false} SumOfMultiset(a: seq<nat>, b: seq<nat>)
    requires multiset(a) == multiset(b)
    ensures Sum(a) == Sum(b)
    decreases |a|
  {
    if a != [] {
      var init, x := a[..|a| - 1], a[|a| - 1];
      MultisetSnoc(a);
      assert x in multiset(b);
      var j :| 0 <= j < |b| && b[j] == x;
      var l, u := b[..j], b[j + 1..];
      SplitAt(b, j);
      RemoveAtMultiset(l, x, u);
      RemoveAtSum(l, x, u);
      SumOfMultiset(init, l + u);
    }
  }

  lemma RemoveAtMultiset(l: seq<nat>, x: nat, u: seq<nat>)
    ensures multiset(l + u) == multiset(l + ([x] + u)) - multiset{x}
  {
    assert multiset(l + ([x] + u)) == multiset(l) + multiset{x} + multiset(u);
  }

  lemma RemoveAtSum(l: seq<nat>, x: nat, u: seq<nat>)
    ensures Sum(l + ([x] + u)) == Sum(l + u) + x
  {
    SumAppend(l, [x] + u);
    SumAppend([x], u);
    SumAppend(l, u);
    assert Sum([x]) == x by { assert [x][..0] == []; }
  }

  // ---------------------------------------------------------------------------
  // The two surveys.

  /** The row counts of `files` as `read_csv` finds them; reading runs
      outside any `try`, so the first file that cannot be read ends the
      check. */
  function RowCountsOf(files: seq<string>, read: string -> Option<nat>): Result<seq<nat>, string> {
    if files == [] then Ok([])
    else
      var name := files[|files| - 1];
      match RowCountsOf(files[..|files| - 1], read)
      case Err(e) => Err(e)
      case Ok(counts) =>
        match read(name)
        case None => Err(name)
        case Some(n) => Ok(counts + [n])
  }

  /** Reading stops at the first unreadable file; otherwise there is one
      count per file, each the row count read for that file. */
  lemma {:induction false} RowCountsOfSpec(files: seq<string>, read: string -> Option<nat>)
    ensures RowCountsOf(files, read).Ok? <==> forall f :: f in files ==> read(f).Some?
    ensures RowCountsOf(files, read).Ok? ==>
      var counts := RowCountsOf(files, read).value;
      |counts| == |files| && forall i :: 0 <= i < |files| ==> read(files[i]) == Some(counts[i])
    ensures RowCountsOf(files, read).Err? ==>
      var name := RowCountsOf(files, read).error;
      name in files && read(name).None?
    decreases |files|
  {
    if files != [] {
      var init := files[..|files| - 1];
      RowCountsOfSpec(init, read);
      assert files == init + [files[|files| - 1]];
      assert forall f :: f in files <==> f in init || f == files[|files| - 1];
    }
  }

  lemma {:induction false} RowCountsOfPrefixErr(files: seq<string>, read: string -> Option<nat>, n: nat)
    requires n <= |files| && RowCountsOf(files[..n], read).Err?
    ensures RowCountsOf(files, read) == RowCountsOf(files[..n], read)
    decreases |files| - n
  {
    if n < |files| {
      assert files[..n + 1][..n] == files[..n];
      RowCountsOfPrefixErr(files, read, n + 1);
    } else {
      assert files[..n] == files;
    }
  }

  /** What a survey of `files` gives: the histogram of their row counts, or
      the name of the first file that could not be read. */
  function SurveySpec(files: seq<string>, read: string -> Option<nat>): Result<Histogram, string> {
    match RowCountsOf(files, read)
    case Err(e) => Err(e)
    case Ok(counts) => Ok(HistogramOf(counts))
  }

  /** A survey loop: each file's row count is read and its bucket in the
      histogram is bumped. */
  method Survey(files: seq<string>, read: string -> Option<nat>) returns (r: Result<Histogram, string>)
    ensures r == SurveySpec(files, read)
  {
    var h: Histogram := Empty();
    ghost var counts: seq<nat> := [];
    var i := 0;
    while i < |files|
      invariant 0 <= i <= |files|
      invariant RowCountsOf(files[..i], read) == Ok(counts)
      invariant h == HistogramOf(counts)
    {
      var filename := files[i];
      assert files[..i + 1][..i] == files[..i];
      match read(filename) {
        case None =>
          RowCountsOfPrefixErr(files, read, i + 1);
          return Err(filename);
        case Some(numRows) =>
          h := Bump(h, numRows);
          counts := counts + [numRows];
      }
      i := i + 1;
    }
    assert files[..i] == files;
    return Ok(h);
  }

  // ---------------------------------------------------------------------------
  // The report.

  /** Insertion of `x` into an ascending sequence. */
  function Insert(s: seq<nat>, x: nat): seq<nat>
    decreases |s|
  {
    if s == [] then [x]
    else if x <= s[0] then [x] + s
    else [s[0]] + Insert(s[1..], x)
  }

  /** Insertion adds `x` once and keeps everything else. */
  lemma {:induction false} InsertMultiset(s: seq<nat>, x: nat)
    ensures multiset(Insert(s, x)) == multiset(s) + multiset{x}
    decreases |s|
  {
    if s != [] && x > s[0] {
      InsertMultiset(s[1..], x);
      assert s == [s[0]] + s[1..];
    }
  }

  /** Insertion keeps an ascending sequence ascending and adds `x` once. */
  lemma InsertSpec(s: seq<nat>, x: nat)
    requires Ascending(s)
    ensures Ascending(Insert(s, x)) && multiset(Insert(s, x)) == multiset(s) + multiset{x}
  {
    InsertMultiset(s, x);
    InsertAscending(s, x);
  }

  lemma {:induction false} InsertAscending(s: seq<nat>, x: nat)
    requires Ascending(s)
    ensures Ascending(Insert(s, x))
    decreases |s|
  {
    if s == [] {
    } else if x <= s[0] {
      var r := [x] + s;
      forall i, j | 0 <= i < j < |r| ensures r[i] <= r[j] {
        assert r[j] == s[j - 1];
        if i > 0 {
          assert r[i] == s[i - 1];
        }
      }
    } else {
      var t := s[1..];
      InsertAscending(t, x);
      InsertLowerBound(t, x, s[0]);
      var rt := Insert(t, x);
      var r := [s[0]] + rt;
      assert Insert(s, x) == r;
      forall i, j | 0 <= i < j < |r| ensures r[i] <= r[j] {
        assert r[j] == rt[j - 1];
        if i > 0 {
          assert r[i] == rt[i - 1];
        }
      }
    }
  }

  /** A bound below every element and below `x` stays below after
      insertion. */
  lemma {:induction false} InsertLowerBound(s: seq<nat>, x: nat, m: nat)
    requires forall k :: 0 <= k < |s| ==> m <= s[k]
    requires m <= x
    ensures forall k :: 0 <= k < |Insert(s, x)| ==> m <= Insert(s, x)[k]
    decreases |s|
  {
    if s != [] && x > s[0] {
      var t := s[1..];
      InsertLowerBound(t, x, m);
      var r := [s[0]] + Insert(t, x);
      assert Insert(s, x) == r;
      forall k | 0 < k < |r| ensures m <= r[k] {
        assert r[k] == Insert(t, x)[k - 1];
      }
    }
  }

  predicate Ascending(s: seq<nat>) {
    forall i, j :: 0 <= i < j < |s| ==> s[i] <= s[j]
  }

  /** `sorted(...)` on the row counts: ascending, and a permutation. */
  function SortAscending(s: seq<nat>): (r: seq<nat>)
    ensures Ascending(r) && multiset(r) == multiset(s)
  {
    if s == [] then []
    else
      assert s == s[..|s| - 1] + [s[|s| - 1]];
      InsertSpec(SortAscending(s[..|s| - 1]), s[|s| - 1]);
      Insert(SortAscending(s[..|s| - 1]), s[|s| - 1])
  }

  /** `sorted(h.items())`: the (row count, file count) pairs in ascending
      row-count order. */
  function Distribution(h: Histogram): (d: seq<(nat, nat)>)
    requires h.Valid()
  {
    var ks := SortAscending(h.keys);
    seq(|ks|, i requires 0 <= i < |ks| => (ks[i], if ks[i] in h.vals then h.vals[ks[i]] else 0))
  }

  /** The distribution lists the buckets in strictly ascending row-count
      order. */
  lemma DistributionAscending(h: Histogram)
    requires h.Valid()
    ensures forall i, j :: 0 <= i < j < |Distribution(h)| ==> Distribution(h)[i].0 < Distribution(h)[j].0
  {
    var ks := SortAscending(h.keys);
    forall i, j | 0 <= i < j < |ks| ensures ks[i] < ks[j] {
      if ks[i] == ks[j] {
        TwiceInMultiset(ks, i, j);
        DistinctOnce(h.keys, ks[i]);
      }
    }
  }

  /** The distribution lists every bucket of the histogram, with its file
      count, and nothing else. */
  lemma DistributionItems(h: Histogram)
    requires h.Valid()
    ensures forall n, c :: (n, c) in Distribution(h) <==> n in h.vals && h.vals[n] == c
  {
    var ks := SortAscending(h.keys);
    var d := Distribution(h);
    forall n ensures n in ks <==> n in h.keys {
      assert n in ks <==> n in multiset(ks);
      assert n in h.keys <==> n in multiset(h.keys);
    }
    forall n, c | (n, c) in d ensures n in h.vals && h.vals[n] == c {
      var i :| 0 <= i < |d| && d[i] == (n, c);
      assert ks[i] in ks;
    }
    forall n, c | n in h.vals && h.vals[n] == c ensures (n, c) in d {
      var i :| 0 <= i < |ks| && ks[i] == n;
      assert d[i] == (n, c);
    }
  }

  /** In a sequence without repeats every element occurs once. */
  lemma {:induction false} DistinctOnce(s: seq<nat>, x: nat)
    requires forall i, j :: 0 <= i < j < |s| ==> s[i] != s[j]
    ensures multiset(s)[x] <= 1
    decreases |s|
  {
    if s != [] {
      var init := s[..|s| - 1];
      DistinctOnce(init, x);
      assert s == init + [s[|s| - 1]];
      if s[|s| - 1] == x {
        assert x !in init;
      }
    }
  }

  /** What the check writes to the log file and prints. */
  datatype Report = Report(
    csvDistribution: seq<(nat, nat)>,
    vdidDistribution: seq<(nat, nat)>,
    csvTotal: nat,
    vdidTotal: nat,
    same: bool)

  /** The report for two histograms; the verdict says "same" exactly when
      the two totals are equal. */
  function MakeReport(csv: Histogram, vdid: Histogram): (r: Report)
    requires csv.Valid() && vdid.Valid()
    ensures r.same <==> Total(csv) == Total(vdid)
  {
    Report(Distribution(csv), Distribution(vdid), Total(csv), Total(vdid), Total(csv) == Total(vdid))
  }

  /** `check_files`: the `.csv` files of the per-snapshot directory are
      surveyed; every entry of the per-sensor directory is, with no filter on
      its name, and an absent per-sensor directory gives an empty histogram;
      the report compares the two totals. A file that cannot be read ends the
      check. */
  method CheckFiles(csvListing: seq<string>, readCsv: string -> Option<nat>,
                    vdidListing: Option<seq<string>>, readVdid: string -> Option<nat>)
    returns (r: Result<Report, string>)
    ensures r == CheckSpec(csvListing, readCsv, vdidListing, readVdid)
  {
    var csvRowCounts := Survey(Filter(csvListing, IsCsv), readCsv);
    if csvRowCounts.Err? {
      return Err(csvRowCounts.error);
    }
    var vdidRowCounts: Histogram := Empty();
    if vdidListing.Some? {
      var surveyed := Survey(vdidListing.value, readVdid);
      if surveyed.Err? {
        return Err(surveyed.error);
      }
      vdidRowCounts := surveyed.value;
    }
    r := Ok(MakeReport(csvRowCounts.value, vdidRowCounts));
  }

  /** The check as a function of the listings and of the row counts read. */
  function CheckSpec(csvListing: seq<string>, readCsv: string -> Option<nat>,
                     vdidListing: Option<seq<string>>, readVdid: string -> Option<nat>): Result<Report, string>
  {
    match SurveySpec(Filter(csvListing, IsCsv), readCsv)
    case Err(e) => Err(e)
    case Ok(csv) =>
      match (if vdidListing.None? then Ok(Empty()) else SurveySpec(vdidListing.value, readVdid))
      case Err(e) => Err(e)
      case Ok(vdid) => Ok(MakeReport(csv, vdid))
  }

  /** What the report states: the per-snapshot total is the sum of the row
      counts of the `.csv` files; the per-sensor total is the sum over every
      entry of the per-sensor directory, and 0 when it is absent; the
      verdict is "same" exactly when the two are equal. */
  lemma CheckReport(csvListing: seq<string>, readCsv: string -> Option<nat>,
                    vdidListing: Option<seq<string>>, readVdid: string -> Option<nat>)
    requires CheckSpec(csvListing, readCsv, vdidListing, readVdid).Ok?
    ensures var rep := CheckSpec(csvListing, readCsv, vdidListing, readVdid).value;
      && RowCountsOf(Filter(csvListing, IsCsv), readCsv).Ok?
      && rep.csvTotal == Sum(RowCountsOf(Filter(csvListing, IsCsv), readCsv).value)
      && (vdidListing.None? ==> rep.vdidTotal == 0 && rep.vdidDistribution == [])
      && (vdidListing.Some? ==>
            RowCountsOf(vdidListing.value, readVdid).Ok? &&
            rep.vdidTotal == Sum(RowCountsOf(vdidListing.value, readVdid).value))
      && (rep.same <==> rep.csvTotal == rep.vdidTotal)
  {
    HistogramTotals(RowCountsOf(Filter(csvListing, IsCsv), readCsv).value);
    if vdidListing.Some? {
      HistogramTotals(RowCountsOf(vdidListing.value, readVdid).value);
    } else {
      HistogramTotals([]);
      assert SortAscending([]) == [];
    }
  }
}
